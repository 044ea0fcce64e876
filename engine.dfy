/**
 * The main engine as an object whose methods update its fields in place, in
 * the order the engine's own loops do. Every method is proved against the
 * session model: its new state, read through `Snapshot()`, is the model
 * function applied to the old state.
 */
module GameEngine {
  import opened Types
  import opened Boosters
  import opened Powers
  import opened Deck
  import opened Stories
  import opened Model

  class Engine {
    /** The game definition; its card catalogue lives in `cards`, which the
        engine extends with embedded story cards. */
    const cfg: Config
    var powers: map<string, Power>
    var activeBoosters: seq<ActiveBooster>
    var deck: seq<string>
    var cards: seq<Card>
    var history: seq<HistoryEntry>
    var cardCount: int
    var triggeredStories: set<string>
    var completedStories: set<string>
    var acceptedStories: set<string>
    var rejectedStories: set<string>
    var storyCardsMixed: set<string>

    /** The fields as a session value. */
    function Snapshot(): State
      reads this
    {
      State(powers, activeBoosters, deck, cards, history, cardCount, triggeredStories, completedStories,
            acceptedStories, rejectedStories, storyCardsMixed)
    }

    constructor (config: Config, us: seq<real>)
      requires ShuffleSupply(us, |config.cards|)
      ensures cfg == config && Snapshot() == Initial(config, config.cards, us)
    {
      cfg := config;
      cards := config.cards;
      new;
      Init(us);
    }

    /** `init`: powers at floor(max / 2), no boosters, the catalogue ids
        without the entry card and the story cards, shuffled. */
    method Init(us: seq<real>)
      modifies this
      requires ShuffleSupply(us, |cards|)
      ensures powers == InitialPowers(cfg.powers) && activeBoosters == []
      ensures deck == Shuffle(InitialDeck(old(cards), cfg.entryCard, cfg.stories), us)
      ensures cards == old(cards) && history == [] && cardCount == 0
      ensures triggeredStories == {} && completedStories == {} && acceptedStories == {} && rejectedStories == {}
      ensures storyCardsMixed == {}
    {
      powers := InitialPowerTable(cfg.powers);
      activeBoosters := [];
      Deal(us);
      ResetProgress();
    }

    /** The deck of `init`: filtered, then shuffled in place. */
    method Deal(us: seq<real>)
      modifies this`deck
      requires ShuffleSupply(us, |cards|)
      ensures deck == Shuffle(InitialDeck(cards, cfg.entryCard, cfg.stories), us)
    {
      deck := DealDeck(cards, cfg.entryCard, cfg.stories);
      ShuffleDeck(us);
    }

    /** The history, the counter and the story sets of `init`, all empty. */
    method ResetProgress()
      modifies this`history, this`cardCount, this`triggeredStories, this`completedStories
      modifies this`acceptedStories, this`rejectedStories, this`storyCardsMixed
      ensures history == [] && cardCount == 0
      ensures triggeredStories == {} && completedStories == {} && acceptedStories == {} && rejectedStories == {}
      ensures storyCardsMixed == {}
    {
      history, cardCount := [], 0;
      triggeredStories, completedStories, acceptedStories, rejectedStories, storyCardsMixed := {}, {}, {}, {}, {};
    }

    /** `shuffleDeck`: the Fisher-Yates loop, in place on the deck. */
    method ShuffleDeck(us: seq<real>)
      modifies this`deck
      requires ShuffleSupply(us, |deck|)
      ensures deck == Shuffle(old(deck), us)
    {
      var d := deck;
      var i := |d| - 1;
      while i > 0
        invariant -1 <= i < |d| && |d| == |old(deck)|
        invariant ShuffleFrom(d, us, i) == Shuffle(old(deck), us)
        decreases i
      {
        var j := Pick(us[|d| - 1 - i], i);
        ShuffleStep(d, us, i, j);
        d := d[i := d[j]][j := d[i]];
        i := i - 1;
      }
      deck := d;
    }

    /** `draw`. */
    method Draw(us: seq<real>) returns (c: Option<Card>)
      modifies this`deck, this`cardCount
      requires deck == [] ==> ShuffleSupply(us, |cards|)
      ensures (Snapshot(), c) == Model.Draw(old(Snapshot()), us)
    {
      if |deck| == 0 {
        deck := CardIds(cards);
        ShuffleDeck(us);
      }
      if |deck| == 0 {
        c := None;
      } else {
        var id := deck[0];
        deck := deck[1..];
        c := FindCard(cards, id);
      }
      cardCount := cardCount + 1;
    }

    /** `applyBoostersOnCap`. */
    method ApplyBoostersOnCap(name: string) returns (cap: Cap)
      ensures cap == EffectiveCap(cfg.powers, activeBoosters, name)
    {
      var pCfg := FindPower(cfg.powers, name);
      cap := if pCfg.Some? then Finite(pCfg.value.max) else Infinite;
      for i := 0 to |activeBoosters|
        invariant CapFold(ActiveModifiers(activeBoosters[i..]), name, cap) == EffectiveCap(cfg.powers, activeBoosters, name)
      {
        var mods := activeBoosters[i].booster.modifiers;
        assert ActiveModifiers(activeBoosters[i..]) == mods + ActiveModifiers(activeBoosters[i + 1..]) by {
          assert activeBoosters[i..][1..] == activeBoosters[i + 1..];
        }
        CapFoldConcat(mods, ActiveModifiers(activeBoosters[i + 1..]), name, cap);
        cap := RaiseOver(mods, name, cap);
      }
    }

    /** `applyEffectModifiers`. */
    method ApplyEffectModifiers(name: string, raw: real) returns (val: real)
      ensures val == ModifyEffect(activeBoosters, name, raw)
    {
      val := raw;
      for i := 0 to |activeBoosters|
        invariant ScaleFold(ActiveModifiers(activeBoosters[i..]), name, raw, val) == ModifyEffect(activeBoosters, name, raw)
      {
        var mods := activeBoosters[i].booster.modifiers;
        assert ActiveModifiers(activeBoosters[i..]) == mods + ActiveModifiers(activeBoosters[i + 1..]) by {
          assert activeBoosters[i..][1..] == activeBoosters[i + 1..];
        }
        ScaleFoldConcat(mods, ActiveModifiers(activeBoosters[i + 1..]), name, raw, val);
        val := ScaleOver(mods, name, raw, val);
      }
    }

    /** `applyEffects`. */
    method ApplyEffects(effects: seq<Effect>)
      modifies this`powers
      ensures powers == Powers.ApplyEffects(old(powers), cfg.powers, activeBoosters, effects)
    {
      for i := 0 to |effects|
        invariant Powers.ApplyEffects(powers, cfg.powers, activeBoosters, effects[i..]) ==
                  Powers.ApplyEffects(old(powers), cfg.powers, activeBoosters, effects)
      {
        assert effects[i..][1..] == effects[i + 1..];
        ApplyEffect(effects[i]);
      }
    }

    /** One `{name: delta}` entry of `applyEffects`: the modified delta is
        added, then the value is held under the cap and over the minimum. */
    method ApplyEffect(e: Effect)
      modifies this`powers
      ensures powers == Powers.ApplyEffect(old(powers), cfg.powers, activeBoosters, e)
    {
      var modified := ApplyEffectModifiers(e.power, e.delta);
      if e.power in powers {
        var p := powers[e.power];
        var v := p.value + modified;
        var cap := ApplyBoostersOnCap(e.power);
        if cap.Finite? && v > cap.v { v := cap.v; }
        if v < p.min { v := p.min; }
        assert v == Powers.Clamp(p.value + modified, cap, p.min);
        powers := powers[e.power := p.(value := v)];
        assert Powers.ApplyEffect(old(powers), cfg.powers, activeBoosters, e) ==
               old(powers)[e.power := p.(value := Powers.Clamp(p.value + modified, cap, p.min))];
      }
    }

    /** `updateBoosters`: every active booster loses a turn, then the spent
        ones are dropped. */
    method UpdateBoosters()
      modifies this`activeBoosters
      ensures activeBoosters == Tick(old(activeBoosters))
    {
      for i := 0 to |activeBoosters|
        invariant |activeBoosters| == |old(activeBoosters)|
        invariant forall k :: 0 <= k < i ==> activeBoosters[k] == Aged(old(activeBoosters)[k])
        invariant forall k :: i <= k < |activeBoosters| ==> activeBoosters[k] == old(activeBoosters)[k]
      {
        activeBoosters := activeBoosters[i := activeBoosters[i].(remaining := activeBoosters[i].remaining - 1)];
      }
      var aged := activeBoosters;
      var kept: seq<ActiveBooster> := [];
      for i := 0 to |aged|
        invariant kept == Tick(old(activeBoosters)[..i])
      {
        var b := old(activeBoosters)[i];
        assert old(activeBoosters)[..i + 1] == old(activeBoosters)[..i] + [b];
        TickConcat(old(activeBoosters)[..i], [b]);
        assert [b][1..] == [];
        if aged[i].remaining > 0 {
          kept := kept + [aged[i]];
        }
      }
      assert old(activeBoosters)[..|aged|] == old(activeBoosters);
      activeBoosters := kept;
    }

    /** `addEmbeddedCardsToConfig`. */
    method AddEmbeddedCardsToConfig(st: Story)
      modifies this`cards
      ensures cards == AddEmbedded(old(cards), MixList(st))
    {
      var cardsToAdd := MixList(st);
      for i := 0 to |cardsToAdd|
        invariant AddEmbedded(cards, cardsToAdd[i..]) == AddEmbedded(old(cards), cardsToAdd)
      {
        assert cardsToAdd[i..][1..] == cardsToAdd[i + 1..];
        var storyCard := cardsToAdd[i];
        if storyCard.Embedded? && |storyCard.card.id| > 0 {
          var present := HasCard(cards, storyCard.card.id);
          if !present {
            cards := cards + [storyCard.card];
          }
        }
      }
    }

    /** `mixProbabilisticStoryCards`: each entry in order, with a roll and,
        when selected, an insertion draw. */
    method MixProbabilisticStoryCards(st: Story, d: Draws)
      modifies this`deck
      requires DrawsFor(d, st)
      ensures deck == MixProbabilistic(old(deck), MixList(st), d.rolls, d.picks)
    {
      var cardsToMix := MixList(st);
      for i := 0 to |cardsToMix|
        invariant MixSupply(d.rolls[i..], d.picks[i..], |cardsToMix[i..]|)
        invariant MixProbabilistic(deck, cardsToMix[i..], d.rolls[i..], d.picks[i..]) ==
                  MixProbabilistic(old(deck), cardsToMix, d.rolls, d.picks)
      {
        assert cardsToMix[i..][1..] == cardsToMix[i + 1..];
        assert d.rolls[i..][1..] == d.rolls[i + 1..] && d.picks[i..][1..] == d.picks[i + 1..];
        var storyCard := cardsToMix[i];
        var cardId: string;
        var probability: real;
        var mixInNext: nat;
        if storyCard.Bare? {
          cardId, probability, mixInNext := storyCard.id, 1.0, 15;
        } else if storyCard.probability.Some? {
          cardId, probability := storyCard.card.id, storyCard.probability.value;
          mixInNext := if storyCard.mixInNext.Some? && storyCard.mixInNext.value != 0 then storyCard.mixInNext.value else 15;
        } else {
          cardId, probability, mixInNext := storyCard.card.id, 1.0, 15;
        }
        var roll := d.rolls[i];
        if roll <= probability {
          var mixRange := Deck.Min(mixInNext, |deck|);
          var insertPosition := Pick(d.picks[i], mixRange);
          deck := deck[..insertPosition] + [cardId] + deck[insertPosition..];
        }
      }
    }

    /** The sequential format: windowed splices when `insert_window` is a
        positive integer, front insertion otherwise. With `pushAgain` (the
        trigger path) every embedded card object is pushed onto the catalogue
        once more. */
    method InjectStoryCards(st: Story, d: Draws, pushAgain: bool)
      modifies this`deck, this`cards
      requires DrawsFor(d, st)
      ensures deck == SequentialDeck(old(deck), st, d)
      ensures cards == if pushAgain then old(cards) + PushedAgain(MixList(st)) else old(cards)
    {
      var cardsToMix := MixList(st);
      if |cardsToMix| > 0 {
        var windowSize := st.insertWindow;
        if windowSize.Some? && windowSize.value > 0 {
          SpliceCards(cardsToMix, windowSize.value, d.picks, pushAgain);
        } else {
          UnshiftCards(cardsToMix, pushAgain);
        }
      }
    }

    /** The windowed loop, from the last entry to the first: each id is
        spliced in at a random index in [0, min(window, length)]. */
    method SpliceCards(cardsToMix: seq<CardRef>, w: nat, picks: seq<real>, pushAgain: bool)
      modifies this`deck, this`cards
      requires Randoms(picks) && |picks| >= |cardsToMix|
      ensures deck == InjectWindowed(old(deck), RefIds(cardsToMix), w, picks)
      ensures cards == if pushAgain then old(cards) + PushedAgain(cardsToMix) else old(cards)
    {
      var n := |cardsToMix|;
      var ids := RefIds(cardsToMix);
      ghost var finalDeck := InjectWindowed(deck, ids, w, picks);
      ghost var finalCards := cards + PushedAgain(cardsToMix);
      ghost var oldCards := cards;
      var i := n - 1;
      while i >= 0
        invariant -1 <= i < n
        invariant InjectWindowedFrom(deck, ids, w, picks, i) == finalDeck
        invariant pushAgain ==> cards + PushedFrom(cardsToMix, i) == finalCards
        invariant !pushAgain ==> cards == oldCards
        decreases i
      {
        var storyCard := cardsToMix[i];
        var cardId := RefId(storyCard);
        if pushAgain {
          // `if (typeof storyCard === 'object' && storyCard.id) cards.push(storyCard)`
          PushStep(cards, finalCards, cardsToMix, i);
          cards := cards + Pushed(storyCard);
        }
        var maxIdx := Deck.Min(w, |deck|);
        var idx := Pick(picks[n - 1 - i], maxIdx);
        assert cardId == ids[i];
        assert InjectWindowedFrom(deck, ids, w, picks, i) == InjectWindowedFrom(InsertAt(deck, idx, cardId), ids, w, picks, i - 1);
        deck := InsertAt(deck, idx, cardId);
        i := i - 1;
      }
      assert cards + [] == cards;
    }

    /** The front loop, from the last entry to the first: each id is put on
        top of the deck. */
    method UnshiftCards(cardsToMix: seq<CardRef>, pushAgain: bool)
      modifies this`deck, this`cards
      ensures deck == InjectFront(old(deck), RefIds(cardsToMix))
      ensures cards == if pushAgain then old(cards) + PushedAgain(cardsToMix) else old(cards)
    {
      var n := |cardsToMix|;
      var ids := RefIds(cardsToMix);
      ghost var finalDeck := InjectFront(deck, ids);
      ghost var finalCards := cards + PushedAgain(cardsToMix);
      ghost var oldCards := cards;
      var i := n - 1;
      while i >= 0
        invariant -1 <= i < n
        invariant InjectFrontFrom(deck, ids, i) == finalDeck
        invariant pushAgain ==> cards + PushedFrom(cardsToMix, i) == finalCards
        invariant !pushAgain ==> cards == oldCards
        decreases i
      {
        var storyCard := cardsToMix[i];
        var cardId := RefId(storyCard);
        if pushAgain {
          // `if (typeof storyCard === 'object' && storyCard.id) cards.push(storyCard)`
          PushStep(cards, finalCards, cardsToMix, i);
          cards := cards + Pushed(storyCard);
        }
        deck := [cardId] + deck;
        i := i - 1;
      }
      assert cards + [] == cards;
    }

    /** The mixing block shared by acceptance and triggering: registration,
        then the format the first entry decides. */
    method MixStory(st: Story, d: Draws, pushAgain: bool)
      modifies this`deck, this`cards
      requires DrawsFor(d, st)
      ensures (deck, cards) == Mix(old(deck), old(cards), st, d, pushAgain)
    {
      AddEmbeddedCardsToConfig(st);
      var cardsToCheck := MixList(st);
      if |cardsToCheck| > 0 && cardsToCheck[0].Embedded? && cardsToCheck[0].probability.Some? {
        MixProbabilisticStoryCards(st, d);
      } else {
        InjectStoryCards(st, d, pushAgain);
      }
    }

    /** The `accept_story` branch of `choose`. */
    method AcceptStory(id: string, draws: seq<Draws>)
      modifies this`deck, this`cards, this`acceptedStories, this`storyCardsMixed
      requires TurnDraws(cfg.stories, draws)
      ensures Snapshot() == Model.AcceptStory(cfg, old(Snapshot()), id, draws)
    {
      acceptedStories := acceptedStories + {id};
      var story := FindStory(cfg.stories, id);
      if story.Some? && id in triggeredStories && id !in storyCardsMixed {
        storyCardsMixed := storyCardsMixed + {id};
        MixStory(cfg.stories[story.value], draws[story.value], false);
      }
    }

    /** The completion pass of `choose`. */
    method CompleteStories(cardId: string)
      modifies this`completedStories
      ensures completedStories == CompletionPass(cfg.stories, triggeredStories, old(completedStories), cardId)
    {
      for i := 0 to |cfg.stories|
        invariant CompletionPass(cfg.stories[i..], triggeredStories, completedStories, cardId) ==
                  CompletionPass(cfg.stories, triggeredStories, old(completedStories), cardId)
      {
        assert cfg.stories[i..][1..] == cfg.stories[i + 1..];
        var story := cfg.stories[i];
        if story.id in triggeredStories && story.id !in completedStories {
          var sq := MixList(story);
          if |sq| > 0 {
            var lastCardId := RefId(sq[|sq| - 1]);
            if lastCardId == cardId {
              completedStories := completedStories + {story.id};
            }
          }
        }
      }
    }

    /** The trigger pass of `choose`. */
    method TriggerStories(draws: seq<Draws>)
      modifies this`deck, this`cards, this`triggeredStories, this`storyCardsMixed
      requires TurnDraws(cfg.stories, draws)
      ensures Snapshot() == TriggerFrom(cfg, old(Snapshot()), draws, 0)
    {
      for i := 0 to |cfg.stories|
        invariant TriggerFrom(cfg, Snapshot(), draws, i) == TriggerFrom(cfg, old(Snapshot()), draws, 0)
      {
        TriggerStory(i, draws[i]);
      }
    }

    /** One story of the trigger pass. */
    method TriggerStory(i: nat, d: Draws)
      modifies this`deck, this`cards, this`triggeredStories, this`storyCardsMixed
      requires i < |cfg.stories| && DrawsFor(d, cfg.stories[i])
      ensures Snapshot() == TriggerStep(cfg, old(Snapshot()), i, d)
    {
      var story := cfg.stories[i];
      if story.id !in triggeredStories && Ready(story, |history|, completedStories) {
        if story.id in rejectedStories {
          triggeredStories := triggeredStories + {story.id};
        } else {
          var storyAccepted := story.id in acceptedStories;
          var hasAcceptanceChoices := HasAcceptanceChoices(cfg.stories, story.id);
          if !hasAcceptanceChoices || storyAccepted {
            storyCardsMixed := storyCardsMixed + {story.id};
            MixStory(story, d, true);
          }
          triggeredStories := triggeredStories + {story.id};
        }
      }
    }

    /** `choose(card, direction)`. */
    method Choose(card: Card, dir: Direction, draws: seq<Draws>)
      modifies this
      requires TurnDraws(cfg.stories, draws)
      ensures Snapshot() == Turn(cfg, old(Snapshot()), card, dir, draws)
    {
      var choice := if dir == Left then card.left else card.right;
      Resolve(choice, draws);
      UpdateBoosters();
      history := history + [HistoryEntry(card.id, dir)];
      CompleteStories(card.id);
      TriggerStories(draws);
    }

    /** The part of `choose` before ageing: effects, follow-up, booster,
        acceptance, rejection. */
    method Resolve(choice: Choice, draws: seq<Draws>)
      modifies this`powers, this`deck, this`activeBoosters, this`cards, this`acceptedStories
      modifies this`rejectedStories, this`storyCardsMixed
      requires TurnDraws(cfg.stories, draws)
      ensures Snapshot() == Decide(cfg, old(Snapshot()), choice, draws)
    {
      Play(choice);
      if choice.acceptStory.Some? {
        AcceptStory(choice.acceptStory.value, draws);
      }
      if choice.rejectStory.Some? {
        rejectedStories := rejectedStories + {choice.rejectStory.value};
      }
    }

    /** Effects, follow-up and booster of a choice. */
    method Play(choice: Choice)
      modifies this`powers, this`deck, this`activeBoosters
      ensures powers == Powers.ApplyEffects(old(powers), cfg.powers, old(activeBoosters), choice.effects)
      ensures deck == if choice.followUp.Some? then [choice.followUp.value] + old(deck) else old(deck)
      ensures activeBoosters == old(activeBoosters) + Activated(cfg, choice.booster)
    {
      ApplyEffects(choice.effects);
      if choice.followUp.Some? {
        deck := [choice.followUp.value] + deck;
      }
      if choice.booster.Some? {
        var booster := FindBooster(cfg.boosters, choice.booster.value);
        if booster.Some? {
          activeBoosters := activeBoosters + [ActiveBooster(booster.value, booster.value.duration)];
        }
      }
    }

    /** `isGameOver`. */
    method IsGameOver() returns (over: bool)
      ensures over == Model.IsGameOver(cfg, Snapshot())
    {
      over := false;
      for i := 0 to |cfg.powers|
        invariant over <==> exists k :: 0 <= k < i && AtBoundary(cfg, Snapshot(), cfg.powers[k])
      {
        var p := cfg.powers[i];
        var cap := ApplyBoostersOnCap(p.name);
        if p.name in powers {
          var current := powers[p.name].value;
          if current <= p.min || (cap.Finite? && current >= cap.v) {
            over := true;
          }
        }
      }
    }

    /** `getGameOverInfo`, without the scenario text. */
    method GetGameOverInfo() returns (info: Option<GameOverInfo>)
      ensures info == GameOverReport(cfg, Snapshot())
    {
      ghost var s := Snapshot();
      for i := 0 to |cfg.powers|
        invariant ReportFrom(cfg, s, i) == ReportFrom(cfg, s, 0)
      {
        var p := cfg.powers[i];
        var cap := ApplyBoostersOnCap(p.name);
        if p.name in powers {
          var current := powers[p.name].value;
          if current <= p.min {
            return Some(GameOverInfo(p.name, current, Min, cardCount));
          }
          if cap.Finite? && current >= cap.v {
            return Some(GameOverInfo(p.name, current, Max, cardCount));
          }
        }
      }
      return None;
    }
  }

  /** The inner loop of `applyBoostersOnCap`: one booster's modifiers. */
  method RaiseOver(mods: seq<Modifier>, name: string, start: Cap) returns (cap: Cap)
    ensures cap == CapFold(mods, name, start)
  {
    cap := start;
    for j := 0 to |mods|
      invariant CapFold(mods[j..], name, cap) == CapFold(mods, name, start)
    {
      assert mods[j..][1..] == mods[j + 1..];
      var m := mods[j];
      if m.powerCap.Some? {
        var pc := m.powerCap.value;
        if Selects(pc.power, name) && cap.Finite? && pc.value > cap.v {
          cap := Finite(pc.value);
        }
      }
    }
  }

  /** The inner loop of `applyEffectModifiers`: one booster's modifiers. */
  method ScaleOver(mods: seq<Modifier>, name: string, raw: real, start: real) returns (val: real)
    ensures val == ScaleFold(mods, name, raw, start)
  {
    val := start;
    for j := 0 to |mods|
      invariant ScaleFold(mods[j..], name, raw, val) == ScaleFold(mods, name, raw, start)
    {
      assert mods[j..][1..] == mods[j + 1..];
      var m := mods[j];
      if m.effectModifier.Some? {
        var em := m.effectModifier.value;
        if Selects(em.power, name) {
          if em.kind == Loss && raw < 0.0 { val := Scaled(raw, m); }
          if em.kind == Gain && raw > 0.0 { val := Scaled(raw, m); }
        }
      }
    }
  }

  /** The power loop of `init`. */
  method InitialPowerTable(pcs: seq<PowerConfig>) returns (ps: map<string, Power>)
    ensures ps == InitialPowers(pcs)
  {
    ps := map[];
    for i := 0 to |pcs|
      invariant ps == InitialPowers(pcs[..i])
    {
      var p := pcs[i];
      assert pcs[..i + 1][..i] == pcs[..i];
      ps := ps[p.name := Power(InitialValue(p.max), p.min, p.max)];
    }
    assert pcs[..|pcs|] == pcs;
  }

  /** The deck filter of `init`: the catalogue ids without the entry card,
      then without the story cards. */
  method DealDeck(cards: seq<Card>, entry: Option<string>, stories: seq<Story>) returns (d: seq<string>)
    ensures d == InitialDeck(cards, entry, stories)
  {
    d := CardIds(cards);
    if entry.Some? {
      d := Without(d, {entry.value});
    } else {
      assert Without(d, EntrySet(entry)) == d by { WithoutNothing(d); }
    }
    var storyCardIds := CollectStoryCardIds(stories);
    d := Without(d, storyCardIds);
  }

  /** The story loop of `init`: every id some story's `cards` list names. */
  method CollectStoryCardIds(stories: seq<Story>) returns (ids: set<string>)
    ensures ids == StoryCardIds(stories)
  {
    ids := {};
    for i := 0 to |stories|
      invariant ids == StoryCardIds(stories[..i])
    {
      var refs := stories[i].cards;
      for j := 0 to |refs|
        invariant ids == StoryCardIds(stories[..i]) + RefIdSet(refs[..j])
      {
        assert refs[..j + 1][..j] == refs[..j];
        ids := ids + {RefId(refs[j])};
      }
      assert refs[..|refs|] == refs;
      assert stories[..i + 1][..i] == stories[..i];
    }
    assert stories[..|stories|] == stories;
  }
}
