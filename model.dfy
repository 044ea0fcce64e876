/**
 * The main engine's session as a value, and one `choose` call as a function
 * of the session: effects, follow-up, booster activation, story acceptance and
 * rejection, ageing, history, the completion pass and the trigger pass.
 *
 * Every random value a turn may consume is supplied up front: `draws[k]`
 * holds the rolls and insertion draws story `k` uses if its cards get mixed.
 */
module Model {
  import opened Types
  import opened Boosters
  import opened Powers
  import opened Deck
  import opened Stories

  /** The engine's mutable fields. */
  datatype State = State(
    powers: map<string, Power>,
    boosters: seq<ActiveBooster>,
    deck: seq<string>,
    cards: seq<Card>,
    history: seq<HistoryEntry>,
    cardCount: int,
    triggered: set<string>,
    completed: set<string>,
    accepted: set<string>,
    rejected: set<string>,
    mixed: set<string>)

  /** The bookkeeping every reachable session keeps: cards are mixed and
      stories completed only once triggered, and every active booster has a
      turn left. */
  predicate Consistent(s: State)
  {
    s.mixed <= s.triggered && s.completed <= s.triggered &&
    forall k :: 0 <= k < |s.boosters| ==> s.boosters[k].remaining > 0
  }

  predicate TurnDraws(stories: seq<Story>, draws: seq<Draws>)
  {
    |draws| == |stories| && forall k :: 0 <= k < |stories| ==> DrawsFor(draws[k], stories[k])
  }

  function Named(id: Option<string>): set<string>
  {
    if id.Some? then {id.value} else {}
  }

  // ---------------------------------------------------------------------------
  // init and draw
  // ---------------------------------------------------------------------------

  /** `init` over the catalogue `cards`: fresh powers, no boosters, the
      shuffled initial deck, and empty history and story sets. */
  function Initial(cfg: Config, cards: seq<Card>, us: seq<real>): (r: State)
    requires ShuffleSupply(us, |cards|)
    ensures Consistent(r)
    ensures multiset(r.deck) == multiset(InitialDeck(cards, cfg.entryCard, cfg.stories))
  {
    ShufflePermutes(InitialDeck(cards, cfg.entryCard, cfg.stories), us);
    State(InitialPowers(cfg.powers), [], Shuffle(InitialDeck(cards, cfg.entryCard, cfg.stories), us), cards, [],
          0, {}, {}, {}, {}, {})
  }

  /** `draw`: the front of the deck (refilled from the whole catalogue and
      shuffled when empty), resolved against the catalogue; the counter
      always advances. */
  function Draw(s: State, us: seq<real>): (State, Option<Card>)
    requires s.deck == [] ==> ShuffleSupply(us, |s.cards|)
  {
    var src := DrawSource(s.deck, s.cards, us);
    if src == [] then (s.(deck := [], cardCount := s.cardCount + 1), None)
    else (s.(deck := src[1..], cardCount := s.cardCount + 1), FindCard(s.cards, src[0]))
  }

  /** A draw changes only the deck and advances the counter. A non-empty
      deck loses its front id, which is resolved against the catalogue. An
      empty deck is refilled: on a non-empty catalogue the drawn card and the
      rest of the deck are together every catalogue id, and on an empty one
      nothing is drawn. */
  lemma DrawSpec(s: State, us: seq<real>)
    requires s.deck == [] ==> ShuffleSupply(us, |s.cards|)
    ensures var r := Draw(s, us);
            r.0 == s.(deck := r.0.deck, cardCount := s.cardCount + 1) &&
            (s.deck != [] ==> r.0.deck == s.deck[1..] && r.1 == FindCard(s.cards, s.deck[0])) &&
            (s.deck == [] && s.cards != [] ==>
               r.1.Some? && r.1.value in s.cards &&
               multiset(r.0.deck) + multiset{r.1.value.id} == multiset(CardIds(s.cards))) &&
            (s.deck == [] && s.cards == [] ==> r.1.None? && r.0.deck == [])
  {
    var src := DrawSource(s.deck, s.cards, us);
    if s.deck == [] {
      RefillSpec(s.cards, us);
      if src != [] {
        assert src == [src[0]] + src[1..];
      }
    }
  }

  // ---------------------------------------------------------------------------
  // The steps of choose
  // ---------------------------------------------------------------------------

  /** The active copy a booster choice adds, if the id names a booster. */
  function Activated(cfg: Config, id: Option<string>): seq<ActiveBooster>
  {
    if id.None? then []
    else match FindBooster(cfg.boosters, id.value)
      case None => []
      case Some(b) => [ActiveBooster(b, b.duration)]
  }

  /** `accept_story`: the id is recorded; a story that was triggered while
      waiting and not mixed yet has its cards mixed now. */
  function AcceptStory(cfg: Config, s: State, id: string, draws: seq<Draws>): (r: State)
    requires TurnDraws(cfg.stories, draws)
    ensures r == s.(accepted := r.accepted, deck := r.deck, cards := r.cards, mixed := r.mixed)
    ensures r.accepted == s.accepted + {id}
    ensures s.mixed <= r.mixed <= s.mixed + ({id} * s.triggered)
  {
    var s1 := s.(accepted := s.accepted + {id});
    match FindStory(cfg.stories, id)
    case None => s1
    case Some(k) =>
      if id in s1.triggered && id !in s1.mixed then
        var m := Mix(s1.deck, s1.cards, cfg.stories[k], draws[k], false);
        s1.(deck := m.0, cards := m.1, mixed := s1.mixed + {id})
      else s1
  }

  /** The part of `choose` before ageing: effects (under the boosters active
      when the card is played), follow-up, booster, acceptance, rejection. */
  function Decide(cfg: Config, s: State, c: Choice, draws: seq<Draws>): (r: State)
    requires TurnDraws(cfg.stories, draws)
    ensures r.powers == ApplyEffects(s.powers, cfg.powers, s.boosters, c.effects)
    ensures r.boosters == s.boosters + Activated(cfg, c.booster)
    ensures r.accepted == s.accepted + Named(c.acceptStory) && r.rejected == s.rejected + Named(c.rejectStory)
    ensures r.history == s.history && r.cardCount == s.cardCount
    ensures r.triggered == s.triggered && r.completed == s.completed
    ensures s.mixed <= r.mixed <= s.mixed + (Named(c.acceptStory) * s.triggered)
  {
    var s1 := s.(powers := ApplyEffects(s.powers, cfg.powers, s.boosters, c.effects));
    var s2 := if c.followUp.Some? then s1.(deck := [c.followUp.value] + s1.deck) else s1;
    var s3 := s2.(boosters := s2.boosters + Activated(cfg, c.booster));
    var s4 := if c.acceptStory.Some? then AcceptStory(cfg, s3, c.acceptStory.value, draws) else s3;
    if c.rejectStory.Some? then s4.(rejected := s4.rejected + {c.rejectStory.value}) else s4
  }

  /** One story of the trigger pass. A ready story that is not triggered yet
      becomes triggered; its cards are mixed unless it was rejected, or it is
      gated by acceptance choices and not accepted. */
  function TriggerStep(cfg: Config, s: State, k: nat, d: Draws): State
    requires k < |cfg.stories| && DrawsFor(d, cfg.stories[k])
  {
    var st := cfg.stories[k];
    if st.id in s.triggered || !Ready(st, |s.history|, s.completed) then s
    else if st.id in s.rejected then s.(triggered := s.triggered + {st.id})
    else if !HasAcceptanceChoices(cfg.stories, st.id) || st.id in s.accepted then
      var m := Mix(s.deck, s.cards, st, d, true);
      s.(deck := m.0, cards := m.1, mixed := s.mixed + {st.id}, triggered := s.triggered + {st.id})
    else s.(triggered := s.triggered + {st.id})
  }

  /** What the trigger pass may change: the deck, the catalogue, and growing
      triggered and mixed sets. */
  predicate PassFrame(s: State, r: State)
  {
    r.powers == s.powers && r.boosters == s.boosters && r.history == s.history &&
    r.cardCount == s.cardCount && r.completed == s.completed && r.accepted == s.accepted &&
    r.rejected == s.rejected && s.triggered <= r.triggered && s.mixed <= r.mixed
  }

  /** The trigger pass over the stories from position `i` on. */
  function TriggerFrom(cfg: Config, s: State, draws: seq<Draws>, i: nat): (r: State)
    requires i <= |cfg.stories| && TurnDraws(cfg.stories, draws)
    ensures PassFrame(s, r)
    decreases |cfg.stories| - i
  {
    if i == |cfg.stories| then s else TriggerFrom(cfg, TriggerStep(cfg, s, i, draws[i]), draws, i + 1)
  }

  /** `choose(card, direction)`. */
  function Turn(cfg: Config, s: State, card: Card, dir: Direction, draws: seq<Draws>): (r: State)
    requires TurnDraws(cfg.stories, draws)
    ensures r.history == s.history + [HistoryEntry(card.id, dir)]
    ensures r.cardCount == s.cardCount
    ensures r.powers == ApplyEffects(s.powers, cfg.powers, s.boosters, ChoiceOf(card, dir).effects)
    ensures r.boosters == Tick(s.boosters + Activated(cfg, ChoiceOf(card, dir).booster))
    ensures r.accepted == s.accepted + Named(ChoiceOf(card, dir).acceptStory)
    ensures r.rejected == s.rejected + Named(ChoiceOf(card, dir).rejectStory)
    ensures s.triggered <= r.triggered && s.mixed <= r.mixed
  {
    var s5 := Decide(cfg, s, ChoiceOf(card, dir), draws);
    var s7 := s5.(boosters := Tick(s5.boosters), history := s5.history + [HistoryEntry(card.id, dir)]);
    var s8 := s7.(completed := CompletionPass(cfg.stories, s7.triggered, s7.completed, card.id));
    TriggerFrom(cfg, s8, draws, 0)
  }

  // ---------------------------------------------------------------------------
  // The trigger pass
  // ---------------------------------------------------------------------------

  predicate ReadyFrom(stories: seq<Story>, i: nat, x: string, played: int, completed: set<string>)
  {
    exists k :: i <= k < |stories| && stories[k].id == x && Ready(stories[k], played, completed)
  }

  /** After the pass a story is triggered exactly when it was before, or a
      story with its id is ready, judged by the history length and the
      completed set. */
  lemma {:induction false} TriggerFromTriggered(cfg: Config, s: State, draws: seq<Draws>, i: nat, x: string)
    requires i <= |cfg.stories| && TurnDraws(cfg.stories, draws)
    ensures x in TriggerFrom(cfg, s, draws, i).triggered <==>
            x in s.triggered || ReadyFrom(cfg.stories, i, x, |s.history|, s.completed)
    decreases |cfg.stories| - i
  {
    if i < |cfg.stories| {
      var next := TriggerStep(cfg, s, i, draws[i]);
      TriggerFromTriggered(cfg, next, draws, i + 1, x);
      if ReadyFrom(cfg.stories, i, x, |s.history|, s.completed) {
        var k :| i <= k < |cfg.stories| && cfg.stories[k].id == x && Ready(cfg.stories[k], |s.history|, s.completed);
        if k > i { assert ReadyFrom(cfg.stories, i + 1, x, |next.history|, next.completed); }
      }
    }
  }

  /** A story the pass mixes was untriggered, ready, not rejected, and either
      free of acceptance choices or accepted. */
  lemma {:induction false} TriggerFromMixed(cfg: Config, s: State, draws: seq<Draws>, i: nat, x: string)
    requires i <= |cfg.stories| && TurnDraws(cfg.stories, draws)
    ensures var r := TriggerFrom(cfg, s, draws, i);
            x in r.mixed && x !in s.mixed ==>
              x !in s.triggered && x !in s.rejected && ReadyFrom(cfg.stories, i, x, |s.history|, s.completed) &&
              (!HasAcceptanceChoices(cfg.stories, x) || x in s.accepted)
    decreases |cfg.stories| - i
  {
    if i < |cfg.stories| {
      var next := TriggerStep(cfg, s, i, draws[i]);
      TriggerFromMixed(cfg, next, draws, i + 1, x);
      var r := TriggerFrom(cfg, s, draws, i);
      if x in r.mixed && x !in s.mixed && x in next.mixed {
        assert cfg.stories[i].id == x;
      }
    }
  }

  /** The pass keeps cards mixed only for triggered stories. */
  lemma {:induction false} TriggerFromConsistent(cfg: Config, s: State, draws: seq<Draws>, i: nat)
    requires i <= |cfg.stories| && TurnDraws(cfg.stories, draws)
    requires s.mixed <= s.triggered
    ensures TriggerFrom(cfg, s, draws, i).mixed <= TriggerFrom(cfg, s, draws, i).triggered
    decreases |cfg.stories| - i
  {
    if i < |cfg.stories| {
      TriggerFromConsistent(cfg, TriggerStep(cfg, s, i, draws[i]), draws, i + 1);
    }
  }

  /** Only mixing changes the deck or the catalogue in the pass: when no story
      is mixed, both are untouched. */
  lemma {:induction false} TriggerFromDeckOnlyByMixing(cfg: Config, s: State, draws: seq<Draws>, i: nat)
    requires i <= |cfg.stories| && TurnDraws(cfg.stories, draws)
    requires s.mixed <= s.triggered
    ensures TriggerFrom(cfg, s, draws, i).mixed == s.mixed ==>
              TriggerFrom(cfg, s, draws, i).deck == s.deck && TriggerFrom(cfg, s, draws, i).cards == s.cards
    decreases |cfg.stories| - i
  {
    if i < |cfg.stories| {
      var next := TriggerStep(cfg, s, i, draws[i]);
      TriggerFromDeckOnlyByMixing(cfg, next, draws, i + 1);
      if next.mixed == s.mixed {
        assert next.deck == s.deck && next.cards == s.cards;
      }
    }
  }

  /** A ready story that was rejected is triggered without mixing; a ready
      story gated by acceptance and not accepted is triggered and waits. */
  lemma TriggerStepWithoutMixing(cfg: Config, s: State, k: nat, draws: seq<Draws>)
    requires k < |cfg.stories| && TurnDraws(cfg.stories, draws)
    requires cfg.stories[k].id !in s.triggered && Ready(cfg.stories[k], |s.history|, s.completed)
    requires cfg.stories[k].id in s.rejected ||
             (HasAcceptanceChoices(cfg.stories, cfg.stories[k].id) && cfg.stories[k].id !in s.accepted)
    ensures TriggerStep(cfg, s, k, draws[k]) == s.(triggered := s.triggered + {cfg.stories[k].id})
  {
  }

  /** A story triggered while waiting for acceptance is mixed by the later
      acceptance, in the acceptance path's format, which pushes embedded
      cards once. */
  lemma GatedStoryMixedOnAcceptance(cfg: Config, s: State, k: nat, draws: seq<Draws>)
    requires k < |cfg.stories| && TurnDraws(cfg.stories, draws)
    requires FindStory(cfg.stories, cfg.stories[k].id) == Some(k)
    requires cfg.stories[k].id in s.triggered && cfg.stories[k].id !in s.mixed
    ensures var id := cfg.stories[k].id;
            var r := AcceptStory(cfg, s, id, draws);
            var m := Mix(s.deck, s.cards, cfg.stories[k], draws[k], false);
            r == s.(accepted := s.accepted + {id}, mixed := s.mixed + {id}, deck := m.0, cards := m.1)
  {
  }

  /** Rejection is not permanent: accepting a previously rejected story that
      was triggered without mixing mixes its cards. */
  lemma RejectionIsNotPermanent(cfg: Config, s: State, id: string, draws: seq<Draws>)
    requires TurnDraws(cfg.stories, draws)
    requires FindStory(cfg.stories, id).Some? && id in s.triggered && id in s.rejected && id !in s.mixed
    ensures var r := AcceptStory(cfg, s, id, draws);
            id in r.mixed && id in r.rejected && id in r.accepted
  {
  }

  /** A story whose cards are already mixed is never mixed again: neither the
      pass nor a later acceptance touches the deck or the catalogue for it. */
  lemma MixedStoriesStayMixed(cfg: Config, s: State, k: nat, draws: seq<Draws>)
    requires k < |cfg.stories| && TurnDraws(cfg.stories, draws)
    requires s.mixed <= s.triggered && cfg.stories[k].id in s.mixed
    ensures TriggerStep(cfg, s, k, draws[k]) == s
    ensures var r := AcceptStory(cfg, s, cfg.stories[k].id, draws);
            r.deck == s.deck && r.cards == s.cards && r.mixed == s.mixed
  {
  }

  // ---------------------------------------------------------------------------
  // Turns
  // ---------------------------------------------------------------------------

  /** What a turn's completion pass and trigger pass see: the session after
      acceptance, rejection, ageing and the history entry. */
  function Recorded(cfg: Config, s: State, card: Card, dir: Direction, draws: seq<Draws>): State
    requires TurnDraws(cfg.stories, draws)
  {
    var s5 := Decide(cfg, s, ChoiceOf(card, dir), draws);
    s5.(boosters := Tick(s5.boosters), history := s5.history + [HistoryEntry(card.id, dir)])
  }

  /** A story is completed after a turn exactly when it was before, or it was
      already triggered and the played card is the last entry of its list. */
  lemma TurnCompleted(cfg: Config, s: State, card: Card, dir: Direction, draws: seq<Draws>, x: string)
    requires TurnDraws(cfg.stories, draws)
    ensures x in Turn(cfg, s, card, dir, draws).completed <==>
            x in s.completed ||
            (x in s.triggered &&
             exists k :: 0 <= k < |cfg.stories| && cfg.stories[k].id == x && LastId(cfg.stories[k]) == Some(card.id))
  {
    var s7 := Recorded(cfg, s, card, dir, draws);
    CompletionPassSpec(cfg.stories, s7.triggered, s7.completed, card.id, x);
  }

  /** A story is triggered after a turn exactly when it was before, or a story
      with its id is ready given the history length after this turn's entry
      and the completed set after this turn's completion pass. */
  lemma TurnTriggered(cfg: Config, s: State, card: Card, dir: Direction, draws: seq<Draws>, x: string)
    requires TurnDraws(cfg.stories, draws)
    ensures var r := Turn(cfg, s, card, dir, draws);
            x in r.triggered <==>
            x in s.triggered || ReadyFrom(cfg.stories, 0, x, |s.history| + 1, r.completed)
  {
    var s7 := Recorded(cfg, s, card, dir, draws);
    var s8 := s7.(completed := CompletionPass(cfg.stories, s7.triggered, s7.completed, card.id));
    TriggerFromTriggered(cfg, s8, draws, 0, x);
  }

  /** A story whose cards are gated by acceptance choices is never mixed in a
      turn unless it is accepted by then, and a story the trigger pass mixes
      was not rejected. */
  lemma TurnMixesOnlyAccepted(cfg: Config, s: State, card: Card, dir: Direction, draws: seq<Draws>, x: string)
    requires TurnDraws(cfg.stories, draws)
    ensures var r := Turn(cfg, s, card, dir, draws);
            x in r.mixed && x !in s.mixed ==>
              (!HasAcceptanceChoices(cfg.stories, x) || x in r.accepted) &&
              (x in r.rejected ==> Named(ChoiceOf(card, dir).acceptStory) == {x} && x in s.triggered)
  {
    var c := ChoiceOf(card, dir);
    var s7 := Recorded(cfg, s, card, dir, draws);
    var s8 := s7.(completed := CompletionPass(cfg.stories, s7.triggered, s7.completed, card.id));
    TriggerFromMixed(cfg, s8, draws, 0, x);
  }

  /** Turns keep the session consistent. */
  lemma TurnConsistent(cfg: Config, s: State, card: Card, dir: Direction, draws: seq<Draws>)
    requires TurnDraws(cfg.stories, draws) && Consistent(s)
    ensures Consistent(Turn(cfg, s, card, dir, draws))
  {
    var c := ChoiceOf(card, dir);
    var s5 := Decide(cfg, s, c, draws);
    var s7 := Recorded(cfg, s, card, dir, draws);
    var s8 := s7.(completed := CompletionPass(cfg.stories, s7.triggered, s7.completed, card.id));
    assert s8.completed <= s8.triggered by {
      forall x | x in s8.completed ensures x in s8.triggered {
        CompletionPassSpec(cfg.stories, s7.triggered, s7.completed, card.id, x);
      }
    }
    TriggerFromConsistent(cfg, s8, draws, 0);
    var r := TriggerFrom(cfg, s8, draws, 0);
    TickLeavesPositive(s5.boosters);
    assert r.boosters == Tick(s5.boosters);
  }

  /** A turn that mixes no story leaves the catalogue as it was, and the deck
      as it was with the follow-up, if any, on top. */
  lemma TurnDeckWithoutMixing(cfg: Config, s: State, card: Card, dir: Direction, draws: seq<Draws>)
    requires TurnDraws(cfg.stories, draws) && Consistent(s)
    ensures var r := Turn(cfg, s, card, dir, draws);
            var fu := ChoiceOf(card, dir).followUp;
            r.mixed == s.mixed ==>
              r.deck == (if fu.Some? then [fu.value] else []) + s.deck && r.cards == s.cards
  {
    var c := ChoiceOf(card, dir);
    var s5 := Decide(cfg, s, c, draws);
    var s7 := Recorded(cfg, s, card, dir, draws);
    var s8 := s7.(completed := CompletionPass(cfg.stories, s7.triggered, s7.completed, card.id));
    TriggerFromDeckOnlyByMixing(cfg, s8, draws, 0);
    var r := TriggerFrom(cfg, s8, draws, 0);
    if r.mixed == s.mixed {
      assert s5.mixed == s.mixed;
      var s2 := if c.followUp.Some? then s.(deck := [c.followUp.value] + s.deck) else s;
      assert s5.deck == s2.deck && s5.cards == s.cards;
    }
  }

  // ---------------------------------------------------------------------------
  // Game over
  // ---------------------------------------------------------------------------

  predicate AtMin(s: State, p: PowerConfig)
  {
    p.name in s.powers && s.powers[p.name].value <= p.min
  }

  /** At or above the effective cap; never for an unbounded cap. */
  predicate AtCap(cfg: Config, s: State, p: PowerConfig)
  {
    var cap := EffectiveCap(cfg.powers, s.boosters, p.name);
    p.name in s.powers && cap.Finite? && s.powers[p.name].value >= cap.v
  }

  predicate AtBoundary(cfg: Config, s: State, p: PowerConfig)
  {
    AtMin(s, p) || AtCap(cfg, s, p)
  }

  /** `isGameOver`: some configured power is at its minimum or at its
      effective cap. */
  predicate IsGameOver(cfg: Config, s: State)
  {
    exists k :: 0 <= k < |cfg.powers| && AtBoundary(cfg, s, cfg.powers[k])
  }

  /** The report for a power at a boundary; the minimum is checked first. */
  function Report(cfg: Config, s: State, p: PowerConfig): GameOverInfo
    requires AtBoundary(cfg, s, p)
  {
    GameOverInfo(p.name, s.powers[p.name].value, if AtMin(s, p) then Min else Max, s.cardCount)
  }

  /** Position `k` holds the first power at a boundary from position `i` on. */
  predicate FirstAtBoundary(cfg: Config, s: State, i: nat, k: nat)
  {
    i <= k < |cfg.powers| && AtBoundary(cfg, s, cfg.powers[k]) &&
    forall j :: i <= j < k ==> !AtBoundary(cfg, s, cfg.powers[j])
  }

  /** The power loop of `getGameOverInfo` from position `i` on. */
  function ReportFrom(cfg: Config, s: State, i: nat): Option<GameOverInfo>
    requires i <= |cfg.powers|
    decreases |cfg.powers| - i
  {
    if i == |cfg.powers| then None
    else if AtBoundary(cfg, s, cfg.powers[i]) then Some(Report(cfg, s, cfg.powers[i]))
    else ReportFrom(cfg, s, i + 1)
  }

  /** The loop from `i` finds nothing exactly when no power from `i` on is at
      a boundary, and otherwise reports the first one that is. */
  lemma {:induction false} ReportFromSpec(cfg: Config, s: State, i: nat)
    requires i <= |cfg.powers|
    ensures var r := ReportFrom(cfg, s, i);
            (r.None? <==> forall k :: i <= k < |cfg.powers| ==> !AtBoundary(cfg, s, cfg.powers[k])) &&
            (r.Some? ==> exists k: nat :: FirstAtBoundary(cfg, s, i, k) && r.value == Report(cfg, s, cfg.powers[k]))
    decreases |cfg.powers| - i
  {
    if i == |cfg.powers| {
    } else if AtBoundary(cfg, s, cfg.powers[i]) {
      assert FirstAtBoundary(cfg, s, i, i);
    } else {
      ReportFromSpec(cfg, s, i + 1);
      var r := ReportFrom(cfg, s, i + 1);
      if r.Some? {
        var k: nat :| FirstAtBoundary(cfg, s, i + 1, k) && r.value == Report(cfg, s, cfg.powers[k]);
        assert FirstAtBoundary(cfg, s, i, k);
      }
    }
  }

  /** `getGameOverInfo` without the scenario text. */
  function GameOverReport(cfg: Config, s: State): Option<GameOverInfo>
  {
    ReportFrom(cfg, s, 0)
  }

  /** A report exactly when the game is over, for the first power in
      configuration order that is at a boundary, labelled `Min` when it is at
      its minimum (even if it is also at its cap). */
  lemma GameOverReportSpec(cfg: Config, s: State)
    ensures var r := GameOverReport(cfg, s);
            (r.Some? <==> IsGameOver(cfg, s)) &&
            (r.Some? ==> exists k: nat :: FirstAtBoundary(cfg, s, 0, k) &&
                           r.value.power == cfg.powers[k].name &&
                           r.value.value == s.powers[cfg.powers[k].name].value &&
                           (r.value.boundary == Min <==> AtMin(s, cfg.powers[k])) &&
                           r.value.cardCount == s.cardCount)
  {
    ReportFromSpec(cfg, s, 0);
  }

  /** A power driven to its minimum by an effect ends the game with a `Min`
      report, counted in cards drawn. */
  lemma EffectReachingMinEndsGame(cfg: Config, s: State, name: string)
    requires cfg.powers == [PowerConfig(name, 0.0, 200.0)] && s.boosters == []
    requires s.powers == map[name := Power(100.0, 0.0, 200.0)]
    ensures var r := s.(powers := ApplyEffects(s.powers, cfg.powers, s.boosters, [Effect(name, -150.0)]));
            r.powers[name].value == 0.0 &&
            GameOverReport(cfg, r) == Some(GameOverInfo(name, 0.0, Min, s.cardCount))
  {
    var effects := [Effect(name, -150.0)];
    assert effects[1..] == [];
    assert ModifyEffect([], name, -150.0) == -150.0;
    assert EffectiveCap(cfg.powers, [], name) == Finite(200.0) by {
      assert ActiveModifiers([]) == [];
    }
    var after := ApplyEffect(s.powers, cfg.powers, [], effects[0]);
    assert after[name].value == 0.0;
    assert ApplyEffects(s.powers, cfg.powers, s.boosters, effects) == after;
    var r := s.(powers := after);
    assert AtBoundary(cfg, r, cfg.powers[0]);
  }

  /** An active booster's power cap lifts the boundary: a value at the base
      maximum is not game over while the raised cap is active. */
  lemma BoostedCapDefersGameOver(cfg: Config, s: State, name: string, b: Booster)
    requires cfg.powers == [PowerConfig(name, 0.0, 200.0)]
    requires b.modifiers == [Modifier(Some(PowerCap(name, 250.0)), None)]
    requires s.boosters == [ActiveBooster(b, 3)] && s.powers == map[name := Power(200.0, 0.0, 200.0)]
    ensures EffectiveCap(cfg.powers, s.boosters, name) == Finite(250.0)
    ensures !IsGameOver(cfg, s)
    ensures IsGameOver(cfg, s.(boosters := []))
  {
    var mods := ActiveModifiers(s.boosters);
    assert s.boosters[1..] == [] && ActiveModifiers([]) == [];
    assert mods == b.modifiers + ActiveModifiers([]);
    assert mods == b.modifiers;
    assert mods[1..] == [];
    assert BaseCap(cfg.powers, name) == Finite(200.0);
    assert AtCap(cfg, s.(boosters := []), cfg.powers[0]);
  }
}
