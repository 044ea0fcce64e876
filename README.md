# Card-game decision engine, modelled and verified in Dafny

This project models the decision engine of a swipe-style narrative card game.
The engine draws cards from a shuffled deck. Each card offers a left and a right choice.
A choice applies bounded "power" effects and may queue a follow-up card.
It may also activate a booster, a temporary modifier that raises power caps or scales effect deltas.
Finally, it may accept or reject a story.
A story is a multi-card arc with trigger conditions and an optional acceptance gate.
Its cards are mixed into the deck once: at the front, in a random window, or per card by probability.
The game is over when a power reaches its minimum or its (possibly boosted) cap.

Two engines are modelled:

- `Engine` (`src/engine.js`), the engine the game runs on.
- `HeadlessEngine` (`tools/monte_carlo_simulation.js`), the simplified copy the Monte Carlo simulation plays.
  It has no boosters and no card mixing, and its trigger pass only records ids.

The model follows the code's own split between state and logic:

- `types.dfy` (`Types`): the game definition, with the catalogue lookups it uses.
- `boosters.dfy` (`Boosters`): effective caps, effect modifiers and booster ageing, as folds over the active boosters.
- `powers.dfy` (`Powers`):
  - the initial power records;
  - the bounded update of the main engine, against the boosted cap;
  - the clamped update of the simplified engine, against each record's own `max`.
- `deck.dfy` (`Deck`): the initial deal, the Fisher-Yates shuffle, and the three ways story cards enter the deck.
- `stories.dfy` (`Stories`): the acceptance gate, the trigger condition, the completion pass, and one story's mixing.
- `model.dfy` (`Model`):
  - the session as a value (`State`);
  - `init`, `draw` and `choose` as functions of it;
  - the lifecycle and game-over properties.
- `engine.dfy` (`GameEngine`): the class `Engine`.
  Its fields are the engine's fields, and its methods update them in place with the source's own loops.
  Each method is proved against the functions above.
  The proof reads the fields through `Snapshot()`, or field by field for the smaller helpers.
- `headless_model.dfy` (`HeadlessModel`) and `headless.dfy` (`HeadlessGame`): the same two layers for the simplified engine.

Randomness is an oracle.
Every `Math.random()` call is a caller-supplied `real` in [0, 1).
An index is computed from it as the code does, `floor(u * (n + 1))` (`Deck.Pick`).
Bounds such as "the insertion index is at most `min(window, length)`" are therefore proved rather than assumed.
The values are consumed as follows:

- A shuffle of an `n`-card deck uses `n - 1` values, the one for counter `i` at position `n - 1 - i`.
- One turn's story mixing uses one `Draws` value (probability rolls and insertion draws) per configured story, by its position.
- Power values, deltas, multipliers, caps and probabilities are exact `real`s.

Where the code departs from an idealised engine, the model follows the code:

- **Modifiers do not compound.** `applyEffectModifiers` multiplies the raw delta, and tests the raw delta's sign.
  So the last matching modifier wins (`Boosters.ModifiersDoNotCompound`).
- **Format by the first entry.** Probabilistic or sequential mixing is decided by the first entry of the story's card list only.
- **`roll <= probability`.** An entry with probability 0 is still inserted when the roll is exactly 0 (`Deck.ZeroProbabilityCanInject`).
- **Rejection is not permanent.** A rejected story is marked triggered without mixing.
  A later acceptance still mixes it, because the acceptance path checks only "triggered and not mixed" (`Model.RejectionIsNotPermanent`).
- **Cards pushed twice on the trigger path.** The trigger path registers embedded card objects, then pushes them onto the catalogue again in its sequential branch.
  The acceptance path pushes them once (`Stories.EmbeddedCardPushedTwice`).
- **No error from `draw`.** On an empty catalogue, `draw` returns nothing (`None`) and still counts the draw.
- **The refill takes every catalogue id,** including the entry card and the story cards that `init` filtered out (`Deck.RefillSpec`).
- **No bound at `init`.** Initial values are `floor(max / 2)` and are not clamped, so they can start below `min` (`Powers.InitialValueMayBeBelowMin`).
- **No re-clamp when a booster expires.** A value above the base cap stays there, and is then at the cap boundary.
  When `min` exceeds the cap, the value is set to `min` (`Powers.Clamp`).
- **Triggers count `history.length`,** not `cardCount`.
- **How `hasStoryAcceptanceChoices` decides.** It looks at the first story with the id.
  It checks the trigger cards, then the embedded objects of `cards`, even when trigger cards exist.
  It reads `cards` and never `story_cards`.
- **`init` filters by `cards`.** It removes the ids named in every story's `cards` list, not in `story_cards`.

## Model

| member | source | states |
|---|---|---|
| Types.CardIds | src/engine.js:59 | the id list of a catalogue, position by position |
| Types.RefIds | src/engine.js:232-234 | the id of every story-card entry, position by position: the string itself or the embedded object's id |
| Types.FindCard | src/engine.js:64 | the first card with the id; none exactly when no card has it |
| Types.FindBooster | src/engine.js:124 | the first configured booster with that id; none exactly when no booster has it |
| Types.FindStory | src/engine.js:134 | the position of the first story with that id; none exactly when no story has it |
| Types.FindPower | src/engine.js:68 | the first power configured under that name; none exactly when no power has it |
| Boosters.ActiveModifiers | src/engine.js:70-71 | the modifiers visited: every modifier of every active booster, and nothing else |
| Boosters.BaseCap | src/engine.js:68-69 | the `max` of the first power configured under that name, or unbounded exactly when no power has that name |
| Boosters.CapFold | src/engine.js:71-78 | never below the start, at least every matching `power_cap`, and equal to the start or to one of them |
| Boosters.EffectiveCap | src/engine.js:67-81 | the largest of the base max and every matching `power_cap` value (name or `'*'`), never below the base; unbounded for an unconfigured power |
| GameEngine.Engine.ApplyBoostersOnCap | src/engine.js:67-81 | returns the effective cap over the current active boosters |
| GameEngine.RaiseOver | src/engine.js:71-78 | one booster's modifier loop computes the cap fold |
| Boosters.ScaleFoldIsLast | src/engine.js:86-95 | the result is the raw value times the multiplier of the last modifier whose power matches and whose type fits the raw value's sign; with no such modifier, it is the start |
| Boosters.ModifyEffect | src/engine.js:83-97 | zero stays zero; no matching modifier leaves the raw value; otherwise the raw value scaled by the last matching modifier |
| Boosters.ModifiersDoNotCompound | src/engine.js:90-91 | two active x2 gain boosters turn +10 into +20, not +40 |
| GameEngine.Engine.ApplyEffectModifiers | src/engine.js:83-97 | returns the modified effect over the current active boosters |
| GameEngine.ScaleOver | src/engine.js:86-94 | one booster's modifier loop computes the scale fold |
| Boosters.Tick | src/engine.js:114-117 | ageing never lengthens the list |
| Boosters.TickMembers | src/engine.js:114-117 | a booster survives ageing exactly when its count was above 1, and it survives with one turn less |
| Boosters.TickConcat | src/engine.js:116 | ageing is applied element by element in order: it distributes over concatenation |
| Boosters.TickLeavesPositive | src/engine.js:116 | every surviving booster has a positive count |
| GameEngine.Engine.UpdateBoosters | src/engine.js:114-117 | the list becomes the aged list: every count decremented by one, the spent ones dropped, order kept |
| Powers.InitialValue | src/engine.js:13 | `floor(max / 2)`: a whole number at most `max / 2` and less than one below it |
| Powers.InitialPowersKeys | src/engine.js:10-15 | there is a record exactly for each configured name |
| Powers.InitialPowersValues | src/engine.js:11-15 | each name's record comes from its last configuration: `floor(max / 2)`, `min`, `max` |
| Powers.InitialValueMayBeBelowMin | src/engine.js:13 | no clamp at start: with min 80 and max 100, the value starts at 50, below its minimum |
| GameEngine.InitialPowerTable | src/engine.js:10-15 | the power loop of `init` builds the initial records |
| Powers.Clamp | src/engine.js:108-109 | a value in range is unchanged; a value over a finite cap becomes the cap when the cap is at least `min`, and `min` otherwise; a value under `min` and within the cap becomes `min` |
| Powers.ApplyEffect | src/engine.js:101-110 | an unknown name changes nothing; a known power's value becomes its old value plus the booster-modified delta, clamped to the effective cap and then to `min`; every other record and every `min` and `max` are kept |
| Powers.ApplyEffects | src/engine.js:99-112 | the effects keep the set of powers and every record's `min` and `max` |
| Powers.ApplyEffectsFrame | src/engine.js:103-104 | a power no effect names is unchanged; effects naming only unknown powers change nothing |
| Powers.ApplyEffectsBounds | src/engine.js:105-109 | after the effects, every named power is at least `min`; it is within the effective cap when that cap is at least `min`, and equals `min` otherwise |
| Powers.ApplyEffectsKeepsBounds | src/engine.js:99-112 | `min <= value <= effective cap` for every power, with non-empty ranges, is preserved by any effects |
| Powers.ApplyEffectsAddsDeltas | src/engine.js:99-112 | while every running total for a power stays within `[min, effective cap]`, its value ends as the start plus the sum of the modified deltas naming it |
| GameEngine.Engine.ApplyEffects | src/engine.js:99-112 | the powers become the bounded update of the old powers under the active boosters |
| GameEngine.Engine.ApplyEffect | src/engine.js:101-110 | one entry updates the power map in place exactly as the model's `ApplyEffect` does with the current boosters |
| Powers.ApplyPlainEffect | tools/monte_carlo_simulation.js:128-135 | an unknown name changes nothing; a known power's value becomes its old value plus the raw delta, clamped to `max` and then to `min`; every other record and every `min` and `max` are kept |
| Powers.ApplyPlainEffects | tools/monte_carlo_simulation.js:126-137 | the effects keep the set of powers and every record's `min` and `max` |
| Powers.ApplyPlainEffectsFrame | tools/monte_carlo_simulation.js:129-130 | a power no effect names, or an unknown name, is left as it was |
| Powers.ApplyPlainEffectsClamps | tools/monte_carlo_simulation.js:131-134 | every power within `[min, max]`, with `min <= max`, stays within it after any effects |
| Powers.ApplyPlainEffectsAddsDeltas | tools/monte_carlo_simulation.js:126-137 | while every running total for a power stays within `[min, max]`, its value ends as the start plus the sum of the raw deltas naming it |
| HeadlessGame.HeadlessEngine.ApplyEffects | tools/monte_carlo_simulation.js:126-137 | the powers become the clamped update of the old powers |
| Deck.Pick | src/engine.js:52 | `floor(u * (n + 1))` for `u` in [0, 1) is an index in [0, n] |
| Deck.Without | src/engine.js:21 | filtering never lengthens the list |
| Deck.WithoutCounts | src/engine.js:19-35 | after filtering, an excluded id occurs zero times and every other id as often as before |
| Deck.WithoutNothing | src/engine.js:20-22 | without an entry card, nothing is filtered |
| Deck.RefIdSetMembers | src/engine.js:27-31 | the ids collected from one list are exactly the ids of its entries |
| Deck.StoryCardIdsMembers | src/engine.js:25-34 | the story-card ids are exactly the ids of the entries of every story's `cards` list |
| GameEngine.CollectStoryCardIds | src/engine.js:25-34 | the story loop of `init` collects the story-card ids |
| Deck.InitialDeck | src/engine.js:19-35 | the deck dealt by `init` is never longer than the catalogue |
| GameEngine.DealDeck | src/engine.js:19-35 | the filters of `init` compute the dealt deck |
| Deck.InitialDeal | src/engine.js:19-36 | after the shuffle, an id occurs zero times if it is the entry card or a story card, and otherwise as often as in the catalogue |
| Deck.Swap | src/engine.js:53 | a swap keeps the length |
| Deck.SwapPermutes | src/engine.js:53 | a swap keeps the multiset of ids |
| Deck.ShuffleFrom | src/engine.js:51-54 | the loop from any counter keeps the length |
| Deck.ShuffleFromPermutes | src/engine.js:51-54 | the loop from any counter keeps the multiset of ids |
| Deck.Shuffle | src/engine.js:50-55 | the shuffle keeps the length |
| Deck.ShufflePermutes | src/engine.js:50-55 | the shuffle is a permutation of the deck |
| GameEngine.Engine.ShuffleDeck | src/engine.js:50-55 | the in-place swap loop leaves the deck equal to the shuffle of the old deck under the supplied draws |
| Deck.RefillSpec | src/engine.js:58-64 | an empty deck is refilled with a permutation of every catalogue id; with a non-empty catalogue, the drawn id resolves to a card |
| Deck.InsertAt | src/engine.js:159 | a splice of one id grows the deck by one |
| Deck.InsertAtShape | src/engine.js:159 | the spliced id sits at the index; the ids before it and after it keep their order |
| Deck.InsertAtContents | src/engine.js:159 | a splice adds exactly that id to the multiset |
| Deck.InjectFrontFromShape | src/engine.js:163-170 | the reverse unshift loop from any counter leaves the ids up to it, in listed order, on top of the deck |
| Deck.InjectFrontShape | src/engine.js:161-171 | front mixing makes the deck the story ids in listed order followed by the old deck |
| Deck.InjectWindowedFromContents | src/engine.js:151-160 | the reverse splice loop from any counter adds exactly the ids up to it |
| Deck.InjectWindowedContents | src/engine.js:149-160 | windowed mixing grows the deck by exactly the story ids, as a multiset |
| Deck.InjectWindowedFromKeepsTail | src/engine.js:157-159 | the reverse splice loop from any counter never disturbs the ids from the window onwards |
| Deck.InjectWindowedKeepsTail | src/engine.js:157-159 | every windowed index is at most `min(window, length)`, so the old ids from position `window` on stay behind the inserted ones, in order |
| Deck.ProbStep | src/engine.js:350-364 | a roll at most the probability inserts the id at an index in [0, min(mix_in_next or 15, length)]; a higher roll leaves the deck unchanged |
| Deck.MixProbabilisticShape | src/engine.js:329-365 | probabilistic mixing grows the deck by exactly the selected entries, as a multiset and in length |
| Deck.CertainEntriesSelected | src/engine.js:333-348 | entries with probability 1 or more (bare ids, sequential objects) are always selected |
| Deck.ZeroProbabilityCanInject | src/engine.js:354 | an entry with probability 0 and a roll of 0 is still inserted |
| GameEngine.Engine.MixProbabilisticStoryCards | src/engine.js:323-366 | the per-entry loop leaves the deck equal to the probabilistic mix of the old deck under the supplied rolls and draws |
| Stories.AcceptanceChoicesSpec | src/engine.js:289-321 | a story is gated exactly when the first story with that id has a trigger card, or an embedded card in `cards`, whose choice accepts or rejects it |
| Stories.CompletionPassSpec | src/engine.js:184-196 | after the pass, a story is completed exactly when it was before, or it is triggered and the played card is the last entry of its card list |
| GameEngine.Engine.CompleteStories | src/engine.js:184-196 | the completed set becomes the completion pass of the old set |
| Stories.AddEmbeddedKeepsPrefix | src/engine.js:272-287 | registration keeps the old catalogue as a prefix |
| Stories.AddEmbeddedOnlyMissing | src/engine.js:276-284 | every appended card is an embedded card object of the entries whose id the old catalogue lacked, and no two appended cards share an id |
| Stories.AddEmbeddedRegisters | src/engine.js:276-286 | afterwards every embedded card with a non-empty id is in the catalogue, and so is every card that was there |
| Stories.AddEmbeddedNoop | src/engine.js:280-281 | when every embedded card is already present, nothing is pushed |
| Stories.AddEmbeddedIdempotent | src/engine.js:272-287 | registering the same story twice pushes nothing the second time |
| GameEngine.Engine.AddEmbeddedCardsToConfig | src/engine.js:272-287 | the catalogue becomes the old one with the missing embedded cards registered |
| Stories.MixDeckContents | src/engine.js:139-171 | sequential mixing adds exactly the story ids to the deck, and front mixing puts them on top in order; probabilistic mixing adds exactly the selected ones |
| Stories.EmbeddedCardPushedTwice | src/engine.js:216-258 | an unregistered embedded card is pushed twice onto the catalogue on the trigger path, and once on the acceptance path |
| GameEngine.Engine.MixStory | src/engine.js:137-173 | registration then the format chosen by the first entry: deck and catalogue become the story's mix |
| GameEngine.Engine.InjectStoryCards | src/engine.js:227-259 | the sequential format: windowed when `insert_window` is a positive integer, at the front otherwise |
| GameEngine.Engine.SpliceCards | src/engine.js:229-244 | the reverse splice loop leaves the deck windowed-injected; on the trigger path, each embedded object with an id is pushed onto the catalogue again |
| GameEngine.Engine.UnshiftCards | src/engine.js:245-258 | the reverse unshift loop leaves the deck front-injected; on the trigger path, each embedded object with an id is pushed onto the catalogue again |
| Model.Initial | src/engine.js:8-48 | the session after `init` keeps the bookkeeping invariant (mixed and completed stories are among the triggered ones, every active booster has a turn left), and its deck is a permutation of the filtered catalogue ids; the value of every field is stated by `GameEngine.Engine.Init` |
| GameEngine.Engine.constructor | src/engine.js:3-6 | a new engine holds the configuration and the session `init` builds from its catalogue |
| GameEngine.Engine.Init | src/engine.js:8-48 | the powers, the shuffled filtered deck and the empty history, counter and story sets of `init` |
| GameEngine.Engine.Deal | src/engine.js:19-36 | the deck becomes the filtered catalogue ids, shuffled |
| GameEngine.Engine.ResetProgress | src/engine.js:37-47 | the history, the counter and the five story sets are empty |
| Model.DrawSpec | src/engine.js:57-65 | the counter advances by one and nothing else but the deck changes. A non-empty deck loses its front id, which resolves against the catalogue. An empty deck is refilled with every catalogue id; the drawn card and what is left are then together that multiset. An empty catalogue draws nothing |
| GameEngine.Engine.Draw | src/engine.js:57-65 | the new session and the drawn card are the model's draw |
| Model.AcceptStory | src/engine.js:129-175 | only the accepted set, the deck, the catalogue and the mixed set change; the id is recorded; the story is mixed at most once, and only if it was triggered |
| GameEngine.Engine.AcceptStory | src/engine.js:129-175 | the session becomes the model's acceptance |
| Model.Decide | src/engine.js:120-179 | the effects use the boosters active when the card is played; the named booster is appended; the named ids are recorded; history, counter, triggered and completed sets stay; only an accepted triggered story can be mixed |
| GameEngine.Engine.Play | src/engine.js:121-126 | effects, follow-up on top of the deck, the found booster appended with its full duration |
| GameEngine.Engine.Resolve | src/engine.js:120-179 | the session becomes the model's decision part of the turn |
| Model.TriggerFrom | src/engine.js:198-269 | the pass changes only the deck, the catalogue and growing triggered and mixed sets |
| GameEngine.Engine.TriggerStory | src/engine.js:199-267 | one story of the trigger pass, as the model's step |
| GameEngine.Engine.TriggerStories | src/engine.js:198-269 | the session becomes the model's trigger pass |
| Model.Turn | src/engine.js:119-270 | one history entry is appended and the counter stays; powers, boosters (activated, then aged), accepted and rejected sets are as the choice says; triggered and mixed sets only grow |
| GameEngine.Engine.Choose | src/engine.js:119-270 | the session becomes the model's turn |
| Model.TriggerFromTriggered | src/engine.js:198-203 | after the pass, a story is triggered exactly when it was before, or a story with its id is ready by history length and completed set |
| Model.TriggerFromMixed | src/engine.js:204-219 | a story mixed by the pass was untriggered, ready, not rejected, and ungated or accepted |
| Model.TriggerFromConsistent | src/engine.js:216-266 | the pass mixes only stories it also triggers |
| Model.TriggerFromDeckOnlyByMixing | src/engine.js:204-266 | when the pass mixes nothing, deck and catalogue are unchanged |
| Model.TriggerStepWithoutMixing | src/engine.js:206-216 | a ready rejected story, or a gated story that is not accepted, is only marked triggered |
| Model.GatedStoryMixedOnAcceptance | src/engine.js:133-175 | accepting a triggered, unmixed story mixes it in the acceptance path's format |
| Model.RejectionIsNotPermanent | src/engine.js:135 | accepting a rejected story that was triggered without mixing mixes it |
| Model.MixedStoriesStayMixed | src/engine.js:135 | a story already mixed is never mixed again, by the pass or by a later acceptance |
| Model.TurnCompleted | src/engine.js:184-196 | after a turn, a story is completed exactly when it was before, or it was triggered and the played card is its last entry |
| Model.TurnTriggered | src/engine.js:198-203 | after a turn, a story is triggered exactly when it was before, or it is ready by the new history length and the new completed set |
| Model.TurnMixesOnlyAccepted | src/engine.js:204-219 | a story newly mixed in a turn is ungated or accepted; if it is also rejected, it was this turn's acceptance that mixed it |
| Model.TurnConsistent | src/engine.js:119-270 | turns keep mixed and completed stories among the triggered ones, and every active booster positive |
| Model.TurnDeckWithoutMixing | src/engine.js:119-270 | a turn that mixes no story leaves the catalogue unchanged and the deck as it was, with the follow-up, if any, on top |
| GameEngine.Engine.IsGameOver | src/engine.js:368-375 | the game is over exactly when some configured power is at its minimum or at its effective cap |
| Model.ReportFromSpec | src/engine.js:378-401 | the loop finds nothing exactly when no power from there on is at a boundary; otherwise it reports the first one |
| Model.GameOverReportSpec | src/engine.js:368-402 | a report exists exactly when the game is over; it names the first power at a boundary in configuration order, with its value and the card count, labelled `min` exactly when it is at its minimum |
| GameEngine.Engine.GetGameOverInfo | src/engine.js:377-402 | returns the model's report |
| Model.EffectReachingMinEndsGame | src/engine.js:99-112 | a -150 effect on a power at 100 with range [0, 200] leaves it at 0 and ends the game with a `min` report |
| Model.BoostedCapDefersGameOver | src/engine.js:67-81 | with a `power_cap` of 250 active, a value of 200 (base max 200) is not game over; without the booster it is |
| HeadlessGame.HeadlessEngine.constructor | tools/monte_carlo_simulation.js:64-67 | a new simplified engine holds the configuration and the same initial session as the main engine |
| HeadlessGame.HeadlessEngine.Init | tools/monte_carlo_simulation.js:69-107 | the powers, the shuffled filtered deck and the empty history, counter and story sets |
| HeadlessGame.HeadlessEngine.Deal | tools/monte_carlo_simulation.js:81-100 | the deck becomes the filtered catalogue ids, shuffled |
| HeadlessGame.HeadlessEngine.ResetProgress | tools/monte_carlo_simulation.js:101-106 | the history, the counter and the five story sets are empty |
| HeadlessGame.HeadlessEngine.ShuffleDeck | tools/monte_carlo_simulation.js:109-114 | the in-place swap loop leaves the deck equal to the shuffle of the old deck |
| HeadlessGame.HeadlessEngine.Draw | tools/monte_carlo_simulation.js:116-124 | the new session and the drawn card are the main engine's draw, over the fixed catalogue |
| HeadlessGame.HeadlessEngine.Record | tools/monte_carlo_simulation.js:141-150 | clamped effects, follow-up on top of the deck, and the named ids recorded |
| HeadlessGame.HeadlessEngine.CompleteStories | tools/monte_carlo_simulation.js:154-166 | the completed set becomes the completion pass of the old set |
| HeadlessGame.HeadlessEngine.TriggerStories | tools/monte_carlo_simulation.js:168-178 | the session becomes the simplified trigger pass |
| HeadlessGame.HeadlessEngine.Choose | tools/monte_carlo_simulation.js:139-179 | the session becomes the simplified turn |
| HeadlessModel.SimpleTriggerFromFrame | tools/monte_carlo_simulation.js:168-178 | the simplified pass changes nothing but a growing triggered set |
| HeadlessModel.SimpleTriggerFromTriggered | tools/monte_carlo_simulation.js:169-177 | after the simplified pass, a story is triggered exactly when it was before, or a story with its id is ready |
| HeadlessModel.SimpleTurnFrame | tools/monte_carlo_simulation.js:139-179 | a simplified turn clamps the powers and changes the deck only by the follow-up at the front. It appends exactly one history entry and records only the named accepted and rejected ids. Boosters, catalogue, counter and mixed set stay; the triggered set only grows |
| HeadlessModel.SimpleTurnCompleted | tools/monte_carlo_simulation.js:154-166 | after a simplified turn, a story is completed exactly when it was before, or it was triggered and the played card is its last entry |
| HeadlessModel.SimpleTurnTriggered | tools/monte_carlo_simulation.js:168-178 | after a simplified turn, a story is triggered exactly when it was before, or it is ready by the new history length and completed set |
| HeadlessModel.SimpleTurnConsistent | tools/monte_carlo_simulation.js:139-179 | simplified turns keep the session consistent, and keep every power within `[min, max]` when the ranges are ordered |
| HeadlessGame.HeadlessEngine.IsGameOver | tools/monte_carlo_simulation.js:181-186 | the game is over exactly when some configured power with a record is at or beyond its configured `min` or `max` |
| HeadlessModel.BaseReportFromSpec | tools/monte_carlo_simulation.js:189-208 | the loop finds nothing exactly when no power from there on is at a bound; otherwise it reports the first one |
| HeadlessModel.BaseGameOverReportSpec | tools/monte_carlo_simulation.js:181-210 | a report exists exactly when `isGameOver` holds; it names the first power at a bound, labelled `min` exactly when it is at its minimum |
| HeadlessGame.HeadlessEngine.GetGameOverInfo | tools/monte_carlo_simulation.js:188-210 | returns the model's report |
| HeadlessModel.BaseMaxIgnoresBoosters | tools/monte_carlo_simulation.js:181-186 | a value at the configured max ends the simplified game whatever boosters the session holds |

## Left out

- `getGameOverScenario` (src/engine.js:404-472) and the `scenario` field of the report: a table of display texts picked at random. It is presentation content.
- `console.log` calls: logging only.
- `Math.random` itself: replaced by caller-supplied values in [0, 1).
  `ShuffleDeck` at `init` and in `draw` needs one value per swap.
  `Choose` needs one `Draws` value per configured story, with a roll and a draw per entry of its card list.
- Floating point: numbers are exact reals. `Math.floor` is the exact floor, and `value > cap` against `Infinity` is an explicit unbounded cap.
- Effects are lists of `{power: delta}` objects in the source. They are flattened to one `Effect` per entry, in object order.
- JavaScript truthiness and duck typing. The absent or empty-string `follow_up`, `booster`, `accept_story` and `reject_story` are `None`.
  The three card-list entry shapes are one tagged datatype (`CardRef`).
  A `story_cards` list, when present (even empty), replaces `cards` (`Types.MixList`).
  `insert_window` agrees with `Number.isInteger` only for integer values.
  A `requires_story_completed` that is not an array is not modelled: the source treats it as never satisfied.
  A `probability` that is present but not a number is not modelled.
- Aliasing: `config.cards` is extended in place by the main engine, so the caller's configuration object changes too.
  The model keeps the catalogue in the engine's `cards` field and leaves `cfg` unchanged.
  A story card pushed twice is two equal values, not one object seen twice.
- `mix_in_next` is taken as a non-negative whole number (`Option<nat>`).
  Neither the source nor its loader normalises the field; the model does not cover a negative or fractional value.
  Such a value gives a negative or fractional `mixRange`, and `splice` would count a negative index from the end of the deck.
- Configuration loading, power-default normalisation and trigger-card merging (src/loader.js) are not part of this model.
  The configuration is taken as already resolved.
- `HeadlessLoader`, `GameSimulator`, the analysis and visualisation tools, and the test scripts are not part of this model.
- Deck.Shuffle: its own contract states only the length; the permutation is `Deck.ShufflePermutes`, to keep the solver's context small where the shuffle is only carried along.
- Deck.InitialDeck: its own contract states only the length bound; the counts are `Deck.InitialDeal` and `Deck.WithoutCounts`, for the same reason.
