/**
 * Story bookkeeping that does not depend on the rest of the session: the
 * acceptance gate, the trigger condition, the completion pass, and the card
 * mixing of one story (catalogue registration plus deck injection).
 */
module Stories {
  import opened Types
  import opened Deck

  // ---------------------------------------------------------------------------
  // Acceptance gate
  // ---------------------------------------------------------------------------

  predicate ChoiceNames(c: Choice, id: string)
  {
    c.acceptStory == Some(id) || c.rejectStory == Some(id)
  }

  /** A card offers a choice that accepts or rejects story `id`. */
  predicate CardGates(card: Card, id: string)
  {
    ChoiceNames(card.left, id) || ChoiceNames(card.right, id)
  }

  predicate RefGates(r: CardRef, id: string)
  {
    r.Embedded? && CardGates(r.card, id)
  }

  /** Some trigger card, or some embedded card of the story's `cards` list,
      accepts or rejects story `id`. */
  predicate StoryGates(s: Story, id: string)
  {
    (exists k :: 0 <= k < |s.triggerCards| && CardGates(s.triggerCards[k], id)) ||
    (exists k :: 0 <= k < |s.cards| && RefGates(s.cards[k], id))
  }

  /** `hasStoryAcceptanceChoices`: the first story with that id is gated by
      acceptance; an unknown id is not. */
  predicate HasAcceptanceChoices(stories: seq<Story>, id: string)
  {
    match FindStory(stories, id)
    case None => false
    case Some(k) => StoryGates(stories[k], id)
  }

  /** A story is gated exactly when the first story with that id has a
      trigger card, or an embedded card in its `cards` list, with a choice
      that accepts or rejects it; bare ids never gate. */
  lemma AcceptanceChoicesSpec(stories: seq<Story>, id: string)
    ensures HasAcceptanceChoices(stories, id) <==>
            exists k :: 0 <= k < |stories| && stories[k].id == id && (forall j :: 0 <= j < k ==> stories[j].id != id) &&
                        ((exists t :: 0 <= t < |stories[k].triggerCards| && CardGates(stories[k].triggerCards[t], id)) ||
                         (exists c :: 0 <= c < |stories[k].cards| && stories[k].cards[c].Embedded? &&
                                      CardGates(stories[k].cards[c].card, id)))
  {
    match FindStory(stories, id)
    case None =>
    case Some(k) =>
      forall k' | 0 <= k' < |stories| && stories[k'].id == id && (forall j :: 0 <= j < k' ==> stories[j].id != id)
        ensures k' == k
      {
        assert stories[k].id == id;
      }
      var st := stories[k];
      assert (exists c :: 0 <= c < |st.cards| && RefGates(st.cards[c], id)) <==>
             (exists c :: 0 <= c < |st.cards| && st.cards[c].Embedded? && CardGates(st.cards[c].card, id));
  }

  // ---------------------------------------------------------------------------
  // Trigger condition and completion
  // ---------------------------------------------------------------------------

  /** The trigger condition, with `played` the number of history entries:
      `after_cards` unset or reached, and every required story completed. */
  predicate Ready(s: Story, played: int, completed: set<string>)
  {
    (s.trigger.afterCards.None? || played >= s.trigger.afterCards.value) &&
    forall r :: r in s.trigger.requiresCompleted ==> r in completed
  }

  /** The id of the last entry of the story's card list, if it has one. */
  function LastId(s: Story): Option<string>
  {
    var refs := MixList(s);
    if refs == [] then None else Some(RefId(refs[|refs| - 1]))
  }

  /** One story of the completion pass. */
  function CompleteStep(triggered: set<string>, completed: set<string>, s: Story, cardId: string): set<string>
  {
    if s.id in triggered && s.id !in completed && LastId(s) == Some(cardId)
    then completed + {s.id} else completed
  }

  /** The completion pass over `stories`, in configured order. */
  function CompletionPass(stories: seq<Story>, triggered: set<string>, completed: set<string>, cardId: string)
    : set<string>
  {
    if stories == [] then completed
    else CompletionPass(stories[1..], triggered, CompleteStep(triggered, completed, stories[0], cardId), cardId)
  }

  /** A story is completed after the pass exactly when it was completed
      before, or it is triggered and the card just played is the last entry
      of its card list. */
  lemma {:induction false} CompletionPassSpec(stories: seq<Story>, triggered: set<string>, completed: set<string>,
                                              cardId: string, x: string)
    ensures x in CompletionPass(stories, triggered, completed, cardId) <==>
            x in completed ||
            (x in triggered && exists k :: 0 <= k < |stories| && stories[k].id == x && LastId(stories[k]) == Some(cardId))
  {
    if stories != [] {
      var next := CompleteStep(triggered, completed, stories[0], cardId);
      CompletionPassSpec(stories[1..], triggered, next, cardId, x);
      if exists k :: 0 <= k < |stories| - 1 && stories[1..][k].id == x && LastId(stories[1..][k]) == Some(cardId) {
        var k :| 0 <= k < |stories| - 1 && stories[1..][k].id == x && LastId(stories[1..][k]) == Some(cardId);
        assert stories[k + 1] == stories[1..][k];
      }
      if exists k :: 0 <= k < |stories| && stories[k].id == x && LastId(stories[k]) == Some(cardId) {
        var k :| 0 <= k < |stories| && stories[k].id == x && LastId(stories[k]) == Some(cardId);
        if k > 0 { assert stories[1..][k - 1] == stories[k]; }
      }
    }
  }

  // ---------------------------------------------------------------------------
  // Mixing
  // ---------------------------------------------------------------------------

  /** The random values one story's mixing consumes: a probability roll and an
      insertion draw per entry of its card list. */
  datatype Draws = Draws(rolls: seq<real>, picks: seq<real>)

  predicate DrawsFor(d: Draws, s: Story)
  {
    MixSupply(d.rolls, d.picks, |MixList(s)|)
  }

  /** The format is probabilistic when the FIRST entry carries a probability. */
  predicate IsProbabilistic(refs: seq<CardRef>)
  {
    |refs| > 0 && refs[0].Embedded? && refs[0].probability.Some?
  }

  /** `insert_window` when it is a positive integer. */
  function Window(s: Story): Option<nat>
  {
    if s.insertWindow.Some? && s.insertWindow.value > 0 then Some(s.insertWindow.value) else None
  }

  predicate HasCard(cards: seq<Card>, id: string)
  {
    exists k :: 0 <= k < |cards| && cards[k].id == id
  }

  /** An entry that is a full card object with a non-empty id. */
  predicate IsEmbeddedCard(r: CardRef)
  {
    r.Embedded? && |r.card.id| > 0
  }

  /** One entry of `addEmbeddedCardsToConfig`: a card object whose id the
      catalogue lacks is appended. */
  function AddOne(cards: seq<Card>, r: CardRef): seq<Card>
  {
    if IsEmbeddedCard(r) && !HasCard(cards, r.card.id) then cards + [r.card] else cards
  }

  /** `addEmbeddedCardsToConfig`: the entries in order. */
  function AddEmbedded(cards: seq<Card>, refs: seq<CardRef>): seq<Card>
    decreases |refs|
  {
    if refs == [] then cards else AddEmbedded(AddOne(cards, refs[0]), refs[1..])
  }

  /** Registration only appends: the old catalogue is a prefix of the new one. */
  lemma {:induction false} AddEmbeddedKeepsPrefix(cards: seq<Card>, refs: seq<CardRef>)
    ensures var r := AddEmbedded(cards, refs); |r| >= |cards| && r[..|cards|] == cards
    decreases |refs|
  {
    if refs != [] {
      var next := AddOne(cards, refs[0]);
      AddEmbeddedKeepsPrefix(next, refs[1..]);
      assert next[..|cards|] == cards;
    }
  }

  /** Registration appends nothing else: every appended card is an embedded
      card object of the entries whose id the old catalogue lacked, and no
      two appended cards share an id. */
  lemma {:induction false} AddEmbeddedOnlyMissing(cards: seq<Card>, refs: seq<CardRef>)
    ensures var r := AddEmbedded(cards, refs);
            forall k :: |cards| <= k < |r| ==>
              !HasCard(cards, r[k].id) && exists j :: 0 <= j < |refs| && IsEmbeddedCard(refs[j]) && refs[j].card == r[k]
    ensures var r := AddEmbedded(cards, refs);
            forall k, k' :: |cards| <= k < k' < |r| ==> r[k].id != r[k'].id
    decreases |refs|
  {
    if refs != [] {
      var next := AddOne(cards, refs[0]);
      var r := AddEmbedded(next, refs[1..]);
      assert r == AddEmbedded(cards, refs);
      AddEmbeddedOnlyMissing(next, refs[1..]);
      AddEmbeddedKeepsPrefix(next, refs[1..]);
      assert next[..|cards|] == cards;
      assert r[..|next|] == next;
      assert forall id :: HasCard(cards, id) ==> HasCard(next, id) by {
        forall id | HasCard(cards, id) ensures HasCard(next, id) {
          var k :| 0 <= k < |cards| && cards[k].id == id;
          assert next[k] == cards[k];
        }
      }
      forall k | |cards| <= k < |r|
        ensures !HasCard(cards, r[k].id)
        ensures exists j :: 0 <= j < |refs| && IsEmbeddedCard(refs[j]) && refs[j].card == r[k]
      {
        if k < |next| {
          assert r[k] == next[k] == refs[0].card;
        } else {
          assert !HasCard(next, r[k].id);
          var j :| 0 <= j < |refs[1..]| && IsEmbeddedCard(refs[1..][j]) && refs[1..][j].card == r[k];
          assert refs[j + 1] == refs[1..][j];
        }
      }
      forall k, k' | |cards| <= k < k' < |r| ensures r[k].id != r[k'].id {
        if k < |next| {
          assert r[k] == next[k];
          assert HasCard(next, r[k].id);
        }
      }
    }
  }

  /** After registration every embedded card's id is in the catalogue. */
  lemma {:induction false} AddEmbeddedRegisters(cards: seq<Card>, refs: seq<CardRef>)
    ensures forall k :: 0 <= k < |refs| && IsEmbeddedCard(refs[k]) ==> HasCard(AddEmbedded(cards, refs), refs[k].card.id)
    ensures forall id :: HasCard(cards, id) ==> HasCard(AddEmbedded(cards, refs), id)
    decreases |refs|
  {
    if refs != [] {
      var next := AddOne(cards, refs[0]);
      AddEmbeddedRegisters(next, refs[1..]);
      assert forall id :: HasCard(cards, id) ==> HasCard(next, id) by {
        forall id | HasCard(cards, id) ensures HasCard(next, id) {
          var k :| 0 <= k < |cards| && cards[k].id == id;
          assert next[k] == cards[k];
        }
      }
      if IsEmbeddedCard(refs[0]) {
        assert HasCard(next, refs[0].card.id) by {
          if !HasCard(cards, refs[0].card.id) { assert next[|cards|] == refs[0].card; }
        }
      }
      assert forall k :: 1 <= k < |refs| ==> refs[k] == refs[1..][k - 1];
    }
  }

  /** Registration adds nothing once every embedded card's id is present. */
  lemma {:induction false} AddEmbeddedNoop(cards: seq<Card>, refs: seq<CardRef>)
    requires forall k :: 0 <= k < |refs| && IsEmbeddedCard(refs[k]) ==> HasCard(cards, refs[k].card.id)
    ensures AddEmbedded(cards, refs) == cards
    decreases |refs|
  {
    if refs != [] {
      assert forall k :: 0 <= k < |refs| - 1 ==> refs[1..][k] == refs[k + 1];
      AddEmbeddedNoop(cards, refs[1..]);
    }
  }

  /** Registration is idempotent: running it twice adds nothing the first run
      did not. */
  lemma AddEmbeddedIdempotent(cards: seq<Card>, refs: seq<CardRef>)
    ensures AddEmbedded(AddEmbedded(cards, refs), refs) == AddEmbedded(cards, refs)
  {
    AddEmbeddedRegisters(cards, refs);
    AddEmbeddedNoop(AddEmbedded(cards, refs), refs);
  }

  /** The card object an entry pushes: itself, when it is embedded with an id. */
  function Pushed(r: CardRef): seq<Card>
  {
    if IsEmbeddedCard(r) then [r.card] else []
  }

  /** The card objects the trigger path's sequential loop pushes once more,
      from entry `i` down to the first. */
  function PushedFrom(refs: seq<CardRef>, i: int): seq<Card>
    requires i < |refs|
    decreases i
  {
    if i < 0 then [] else Pushed(refs[i]) + PushedFrom(refs, i - 1)
  }

  /** Every embedded card with a non-empty id, from the last entry to the first. */
  function PushedAgain(refs: seq<CardRef>): seq<Card>
  {
    PushedFrom(refs, |refs| - 1)
  }

  /** The backward loop keeps the catalogue on track: after pushing the entry
      at `i`, the entries below it push the rest. */
  lemma PushStep(cs: seq<Card>, cards: seq<Card>, refs: seq<CardRef>, i: nat)
    requires i < |refs| && cs + PushedFrom(refs, i) == cards
    ensures (cs + Pushed(refs[i])) + PushedFrom(refs, i - 1) == cards
  {
    ConcatAssoc(cs, Pushed(refs[i]), PushedFrom(refs, i - 1));
  }

  lemma ConcatAssoc(a: seq<Card>, b: seq<Card>, c: seq<Card>)
    ensures (a + b) + c == a + (b + c)
  {
  }

  /** The deck after sequential mixing: windowed when `insert_window` is a
      positive integer, otherwise to the front. */
  function SequentialDeck(deck: seq<string>, s: Story, d: Draws): seq<string>
    requires DrawsFor(d, s)
  {
    var ids := RefIds(MixList(s));
    match Window(s)
    case Some(w) => InjectWindowed(deck, ids, w, d.picks)
    case None => InjectFront(deck, ids)
  }

  /** The deck and catalogue after one story's cards are mixed. The trigger
      path (`pushAgain`) also pushes the embedded objects in its sequential
      loops; the acceptance path does not. */
  function Mix(deck: seq<string>, cards: seq<Card>, s: Story, d: Draws, pushAgain: bool): (r: (seq<string>, seq<Card>))
    requires DrawsFor(d, s)
  {
    var refs := MixList(s);
    var registered := AddEmbedded(cards, refs);
    if IsProbabilistic(refs) then (MixProbabilistic(deck, refs, d.rolls, d.picks), registered)
    else (SequentialDeck(deck, s, d), if pushAgain then registered + PushedAgain(refs) else registered)
  }

  /** Mixing grows the deck by exactly the story's card ids in the sequential
      format, and by the selected ones in the probabilistic format. */
  lemma MixDeckContents(deck: seq<string>, cards: seq<Card>, s: Story, d: Draws, pushAgain: bool)
    requires DrawsFor(d, s)
    ensures !IsProbabilistic(MixList(s)) ==>
              multiset(Mix(deck, cards, s, d, pushAgain).0) == multiset(deck) + multiset(RefIds(MixList(s)))
    ensures IsProbabilistic(MixList(s)) ==>
              multiset(Mix(deck, cards, s, d, pushAgain).0) == multiset(deck) + multiset(Selected(MixList(s), d.rolls))
    ensures !IsProbabilistic(MixList(s)) && Window(s).None? ==>
              Mix(deck, cards, s, d, pushAgain).0 == RefIds(MixList(s)) + deck
  {
    var refs := MixList(s);
    if IsProbabilistic(refs) {
      MixProbabilisticShape(deck, refs, d.rolls, d.picks);
    } else if Window(s).Some? {
      InjectWindowedContents(deck, RefIds(refs), Window(s).value, d.picks);
    } else {
      InjectFrontShape(deck, RefIds(refs));
    }
  }

  /** A story with a single embedded card the catalogue lacks: the trigger
      path leaves that card in the catalogue twice, the acceptance path once. */
  lemma EmbeddedCardPushedTwice(deck: seq<string>, cards: seq<Card>, s: Story, d: Draws, c: Card, range: Option<nat>)
    requires DrawsFor(d, s) && MixList(s) == [Embedded(c, None, range)] && |c.id| > 0 && !HasCard(cards, c.id)
    ensures Mix(deck, cards, s, d, true).1 == cards + [c, c]
    ensures Mix(deck, cards, s, d, false).1 == cards + [c]
  {
    var refs := MixList(s);
    assert refs[1..] == [] && refs[..0] == [];
    assert AddOne(cards, refs[0]) == cards + [c];
    assert AddEmbedded(cards, refs) == cards + [c];
    assert PushedAgain(refs) == [c];
  }
}
