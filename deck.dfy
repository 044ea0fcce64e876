/**
 * The pending-draw sequence: the initial deal, the Fisher-Yates shuffle, the
 * refill on an empty deck, and the three ways story cards are injected.
 *
 * Every `Math.random()` value is supplied by the caller as a real in [0, 1);
 * a random index in [0, n] is `Math.floor(u * (n + 1))`, as in the engine.
 */
module Deck {
  import opened Types

  /** A supply of `Math.random()` results. */
  predicate Randoms(us: seq<real>)
  {
    forall k :: 0 <= k < |us| ==> 0.0 <= us[k] < 1.0
  }

  /** `Math.floor(u * (n + 1))` for a random `u`: an index in [0, n]. */
  function Pick(u: real, n: nat): (r: nat)
    requires 0.0 <= u < 1.0
    ensures r <= n
  {
    var x := u * (n + 1) as real;
    ScaleBelow(u, (n + 1) as real);
    x.Floor
  }

  /** A fraction in [0, 1) of a positive number stays below it. */
  lemma ScaleBelow(u: real, m: real)
    requires 0.0 <= u < 1.0 && m > 0.0
    ensures 0.0 <= u * m < m
  {
    assert m - u * m == (1.0 - u) * m;
  }

  function Min(a: int, b: int): int
  {
    if a <= b then a else b
  }

  // ---------------------------------------------------------------------------
  // Initial deal and refill
  // ---------------------------------------------------------------------------

  /** `ids.filter(id => !excluded.has(id))`. */
  function Without(ids: seq<string>, excluded: set<string>): (r: seq<string>)
    ensures |r| <= |ids|
  {
    if ids == [] then []
    else (if ids[0] in excluded then [] else [ids[0]]) + Without(ids[1..], excluded)
  }

  /** Filtering drops every excluded id and keeps every other id as often as before. */
  lemma {:induction false} WithoutCounts(ids: seq<string>, excluded: set<string>)
    ensures forall x :: multiset(Without(ids, excluded))[x] == if x in excluded then 0 else multiset(ids)[x]
  {
    if ids != [] {
      WithoutCounts(ids[1..], excluded);
      assert ids == [ids[0]] + ids[1..];
    }
  }

  lemma {:induction false} WithoutNothing(ids: seq<string>)
    ensures Without(ids, {}) == ids
  {
    if ids != [] {
      WithoutNothing(ids[1..]);
      assert ids == [ids[0]] + ids[1..];
    }
  }

  /** The ids of the embedded or bare entries of a `cards` list. */
  function RefIdSet(refs: seq<CardRef>): set<string>
  {
    if refs == [] then {} else RefIdSet(refs[..|refs| - 1]) + {RefId(refs[|refs| - 1])}
  }

  /** Every id that some story's `cards` list names. */
  function StoryCardIds(stories: seq<Story>): set<string>
  {
    if stories == [] then {}
    else StoryCardIds(stories[..|stories| - 1]) + RefIdSet(stories[|stories| - 1].cards)
  }

  lemma {:induction false} RefIdSetMembers(refs: seq<CardRef>, x: string)
    ensures x in RefIdSet(refs) <==> exists j :: 0 <= j < |refs| && RefId(refs[j]) == x
  {
    if refs != [] {
      var init := refs[..|refs| - 1];
      RefIdSetMembers(init, x);
      if x in RefIdSet(init) {
        var j :| 0 <= j < |init| && RefId(init[j]) == x;
        assert refs[j] == init[j];
      }
      if exists j :: 0 <= j < |refs| && RefId(refs[j]) == x {
        var j :| 0 <= j < |refs| && RefId(refs[j]) == x;
        if j < |init| { assert refs[j] == init[j]; }
      }
    }
  }

  /** An id is a story card exactly when some story's `cards` list names it. */
  lemma {:induction false} StoryCardIdsMembers(stories: seq<Story>, x: string)
    ensures x in StoryCardIds(stories) <==>
            exists i, j :: 0 <= i < |stories| && 0 <= j < |stories[i].cards| && RefId(stories[i].cards[j]) == x
  {
    if stories != [] {
      var init := stories[..|stories| - 1];
      var last := stories[|stories| - 1];
      StoryCardIdsMembers(init, x);
      RefIdSetMembers(last.cards, x);
      if x in StoryCardIds(init) {
        var i, j :| 0 <= i < |init| && 0 <= j < |init[i].cards| && RefId(init[i].cards[j]) == x;
        assert stories[i] == init[i];
      }
      if x in RefIdSet(last.cards) {
        var j :| 0 <= j < |last.cards| && RefId(last.cards[j]) == x;
        assert stories[|stories| - 1] == last;
      }
      if exists i, j :: 0 <= i < |stories| && 0 <= j < |stories[i].cards| && RefId(stories[i].cards[j]) == x {
        var i, j :| 0 <= i < |stories| && 0 <= j < |stories[i].cards| && RefId(stories[i].cards[j]) == x;
        if i < |init| { assert stories[i] == init[i]; }
      }
    }
  }

  function EntrySet(entry: Option<string>): set<string>
  {
    if entry.Some? then {entry.value} else {}
  }

  /** The deck `init` deals before shuffling: the catalogue ids in order,
      without the entry card and without any story card. */
  function InitialDeck(cards: seq<Card>, entry: Option<string>, stories: seq<Story>): (r: seq<string>)
    ensures |r| <= |cards|
  {
    Without(Without(CardIds(cards), EntrySet(entry)), StoryCardIds(stories))
  }

  // ---------------------------------------------------------------------------
  // Shuffle
  // ---------------------------------------------------------------------------

  function Swap(s: seq<string>, i: nat, j: nat): (r: seq<string>)
    requires i < |s| && j < |s|
    ensures |r| == |s|
  {
    s[i := s[j]][j := s[i]]
  }

  /** Exchanging two positions keeps every card. */
  lemma SwapPermutes(s: seq<string>, i: nat, j: nat)
    requires i < |s| && j < |s|
    ensures multiset(Swap(s, i, j)) == multiset(s)
  {
    var t := s[i := s[j]];
    assert multiset(t) == multiset(s) - multiset{s[i]} + multiset{s[j]};
    assert multiset(t[j := s[i]]) == multiset(t) - multiset{t[j]} + multiset{s[i]};
  }

  /** Enough random values for shuffling `n` cards: one per loop step. */
  predicate ShuffleSupply(us: seq<real>, n: int)
  {
    Randoms(us) && |us| >= n - 1
  }

  /** The Fisher-Yates loop from counter `i` down to 1; the step with counter
      `i` swaps position `i` with a random position in [0, i], drawn from
      `us[|s| - 1 - i]`. */
  function ShuffleFrom(s: seq<string>, us: seq<real>, i: int): (r: seq<string>)
    requires -1 <= i < |s| && ShuffleSupply(us, |s|)
    ensures |r| == |s|
    decreases i
  {
    if i <= 0 then s
    else ShuffleFrom(Swap(s, i, Pick(us[|s| - 1 - i], i)), us, i - 1)
  }

  /** One step of the Fisher-Yates loop, swapping position `i` with `j`. */
  lemma ShuffleStep(s: seq<string>, us: seq<real>, i: int, j: nat)
    requires 0 < i < |s| && ShuffleSupply(us, |s|)
    requires j == Pick(us[|s| - 1 - i], i)
    ensures ShuffleFrom(s, us, i) == ShuffleFrom(s[i := s[j]][j := s[i]], us, i - 1)
  {
  }

  lemma {:induction false} ShuffleFromPermutes(s: seq<string>, us: seq<real>, i: int)
    requires -1 <= i < |s| && ShuffleSupply(us, |s|)
    ensures multiset(ShuffleFrom(s, us, i)) == multiset(s)
    decreases i
  {
    if i > 0 {
      var j := Pick(us[|s| - 1 - i], i);
      SwapPermutes(s, i, j);
      ShuffleFromPermutes(Swap(s, i, j), us, i - 1);
    }
  }

  /** `shuffleDeck`. */
  function Shuffle(s: seq<string>, us: seq<real>): (r: seq<string>)
    requires ShuffleSupply(us, |s|)
    ensures |r| == |s|
  {
    ShuffleFrom(s, us, |s| - 1)
  }

  /** Shuffling is a permutation: every card stays, as often as before. */
  lemma ShufflePermutes(s: seq<string>, us: seq<real>)
    requires ShuffleSupply(us, |s|)
    ensures multiset(Shuffle(s, us)) == multiset(s)
  {
    ShuffleFromPermutes(s, us, |s| - 1);
  }

  /** The deck `init` deals holds every catalogue id as often as the
      catalogue lists it, except the entry card and the story cards, which it
      lacks. */
  lemma InitialDeal(cards: seq<Card>, entry: Option<string>, stories: seq<Story>, us: seq<real>)
    requires ShuffleSupply(us, |cards|)
    ensures forall x :: multiset(Shuffle(InitialDeck(cards, entry, stories), us))[x] ==
              if Some(x) == entry || x in StoryCardIds(stories) then 0 else multiset(CardIds(cards))[x]
  {
    var ids := CardIds(cards);
    var first := Without(ids, EntrySet(entry));
    var dealt := Without(first, StoryCardIds(stories));
    WithoutCounts(ids, EntrySet(entry));
    WithoutCounts(first, StoryCardIds(stories));
    ShufflePermutes(dealt, us);
    forall x
      ensures multiset(dealt)[x] == if Some(x) == entry || x in StoryCardIds(stories) then 0 else multiset(ids)[x]
    {
      assert x in EntrySet(entry) <==> Some(x) == entry;
    }
  }

  /** The sequence `draw` takes its card from: the deck, or when it is empty
      every catalogue id, shuffled. */
  function DrawSource(deck: seq<string>, cards: seq<Card>, us: seq<real>): seq<string>
    requires deck == [] ==> ShuffleSupply(us, |cards|)
  {
    if deck == [] then Shuffle(CardIds(cards), us) else deck
  }

  /** A refill holds every catalogue id, as often as the catalogue lists it
      (entry card and story cards included), and on a non-empty catalogue the
      drawn id always resolves to a card. */
  lemma RefillSpec(cards: seq<Card>, us: seq<real>)
    requires ShuffleSupply(us, |cards|)
    ensures multiset(DrawSource([], cards, us)) == multiset(CardIds(cards))
    ensures cards != [] ==> DrawSource([], cards, us) != [] &&
                            FindCard(cards, DrawSource([], cards, us)[0]).Some?
  {
    ShufflePermutes(CardIds(cards), us);
    if cards != [] {
      var src := DrawSource([], cards, us);
      assert src[0] in multiset(CardIds(cards));
      var k :| 0 <= k < |cards| && CardIds(cards)[k] == src[0];
      assert cards[k].id == src[0];
    }
  }

  // ---------------------------------------------------------------------------
  // Injection of story cards
  // ---------------------------------------------------------------------------

  /** `deck.splice(i, 0, x)` for an index within the deck. */
  function InsertAt(s: seq<string>, i: nat, x: string): (r: seq<string>)
    requires i <= |s|
    ensures |r| == |s| + 1
  {
    s[..i] + [x] + s[i..]
  }

  /** A splice keeps everything before the index and shifts everything from it by one. */
  lemma InsertAtShape(s: seq<string>, i: nat, x: string)
    requires i <= |s|
    ensures var r := InsertAt(s, i, x); r[i] == x && r[..i] == s[..i] && r[i + 1..] == s[i..]
  {
  }

  /** A splice adds exactly the one id. */
  lemma InsertAtContents(s: seq<string>, i: nat, x: string)
    requires i <= |s|
    ensures multiset(InsertAt(s, i, x)) == multiset(s) + multiset{x}
  {
    assert s == s[..i] + s[i..];
  }

  /** The front loop from entry `i` down to the first: each id is pushed
      onto the front. */
  function InjectFrontFrom(deck: seq<string>, ids: seq<string>, i: int): seq<string>
    requires -1 <= i < |ids|
    decreases i
  {
    if i < 0 then deck else InjectFrontFrom([ids[i]] + deck, ids, i - 1)
  }

  /** The front policy: the ids from last to first, each pushed onto the front. */
  function InjectFront(deck: seq<string>, ids: seq<string>): seq<string>
  {
    InjectFrontFrom(deck, ids, |ids| - 1)
  }

  lemma {:induction false} InjectFrontFromShape(deck: seq<string>, ids: seq<string>, i: int)
    requires -1 <= i < |ids|
    ensures InjectFrontFrom(deck, ids, i) == ids[..i + 1] + deck
    decreases i
  {
    if i >= 0 {
      InjectFrontFromShape([ids[i]] + deck, ids, i - 1);
      assert ids[..i + 1] == ids[..i] + [ids[i]];
    }
  }

  /** Front injection puts the ids before the old deck, in their listed order. */
  lemma InjectFrontShape(deck: seq<string>, ids: seq<string>)
    ensures InjectFront(deck, ids) == ids + deck
  {
    InjectFrontFromShape(deck, ids, |ids| - 1);
    assert ids[..|ids|] == ids;
  }

  /** The windowed loop from entry `i` down to the first: each id is spliced
      in at a random index in [0, min(window, current length)], the entry at
      `j` drawing `us[|ids| - 1 - j]`. */
  function InjectWindowedFrom(deck: seq<string>, ids: seq<string>, window: nat, us: seq<real>, i: int): seq<string>
    requires -1 <= i < |ids| && Randoms(us) && |us| >= |ids|
    decreases i
  {
    if i < 0 then deck
    else InjectWindowedFrom(InsertAt(deck, Pick(us[|ids| - 1 - i], Min(window, |deck|)), ids[i]), ids, window, us, i - 1)
  }

  /** The windowed policy over every id, from the last to the first. */
  function InjectWindowed(deck: seq<string>, ids: seq<string>, window: nat, us: seq<real>): seq<string>
    requires Randoms(us) && |us| >= |ids|
  {
    InjectWindowedFrom(deck, ids, window, us, |ids| - 1)
  }

  lemma {:induction false} InjectWindowedFromContents(deck: seq<string>, ids: seq<string>, window: nat, us: seq<real>, i: int)
    requires -1 <= i < |ids| && Randoms(us) && |us| >= |ids|
    ensures |InjectWindowedFrom(deck, ids, window, us, i)| == |deck| + i + 1
    ensures multiset(InjectWindowedFrom(deck, ids, window, us, i)) == multiset(deck) + multiset(ids[..i + 1])
    decreases i
  {
    if i >= 0 {
      var idx := Pick(us[|ids| - 1 - i], Min(window, |deck|));
      var d := InsertAt(deck, idx, ids[i]);
      InsertAtContents(deck, idx, ids[i]);
      InjectWindowedFromContents(d, ids, window, us, i - 1);
      assert InjectWindowedFrom(deck, ids, window, us, i) == InjectWindowedFrom(d, ids, window, us, i - 1);
      var prefix := ids[..i];
      assert ids[..i + 1] == prefix + [ids[i]];
      assert multiset(ids[..i + 1]) == multiset(prefix) + multiset{ids[i]};
    }
  }

  /** Windowed injection adds exactly the ids. */
  lemma InjectWindowedContents(deck: seq<string>, ids: seq<string>, window: nat, us: seq<real>)
    requires Randoms(us) && |us| >= |ids|
    ensures |InjectWindowed(deck, ids, window, us)| == |deck| + |ids|
    ensures multiset(InjectWindowed(deck, ids, window, us)) == multiset(deck) + multiset(ids)
  {
    InjectWindowedFromContents(deck, ids, window, us, |ids| - 1);
    assert ids[..|ids|] == ids;
  }

  lemma {:induction false} InjectWindowedFromKeepsTail(deck: seq<string>, ids: seq<string>, window: nat, us: seq<real>, i: int)
    requires -1 <= i < |ids| && Randoms(us) && |us| >= |ids| && |deck| >= window
    ensures |InjectWindowedFrom(deck, ids, window, us, i)| == |deck| + i + 1
    ensures InjectWindowedFrom(deck, ids, window, us, i)[window + i + 1..] == deck[window..]
    decreases i
  {
    InjectWindowedFromContents(deck, ids, window, us, i);
    if i >= 0 {
      var idx := Pick(us[|ids| - 1 - i], Min(window, |deck|));
      var d := InsertAt(deck, idx, ids[i]);
      InsertAtShape(deck, idx, ids[i]);
      InjectWindowedFromKeepsTail(d, ids, window, us, i - 1);
      var r := InjectWindowedFrom(deck, ids, window, us, i);
      assert r == InjectWindowedFrom(d, ids, window, us, i - 1);
      assert r[window + i..] == d[window..];
      assert d[idx + 1..] == deck[idx..];
      assert d[window + 1..] == d[idx + 1..][window - idx..];
      assert deck[window..] == deck[idx..][window - idx..];
      assert r[window + i + 1..] == r[window + i..][1..];
    }
  }

  /** When the deck is at least as long as the window, every card beyond the
      window keeps its order, behind all the injected ones. */
  lemma InjectWindowedKeepsTail(deck: seq<string>, ids: seq<string>, window: nat, us: seq<real>)
    requires Randoms(us) && |us| >= |ids| && |deck| >= window
    ensures |InjectWindowed(deck, ids, window, us)| >= window + |ids|
    ensures InjectWindowed(deck, ids, window, us)[window + |ids|..] == deck[window..]
  {
    InjectWindowedFromKeepsTail(deck, ids, window, us, |ids| - 1);
  }

  /** `probability` and `mix_in_next` of a probabilistic-format entry: an entry
      without a probability is certain, and a missing or zero `mix_in_next`
      means 15. */
  function Chance(r: CardRef): real
  {
    if r.Embedded? && r.probability.Some? then r.probability.value else 1.0
  }

  function MixRange(r: CardRef): nat
  {
    if r.Embedded? && r.probability.Some? && r.mixInNext.Some? && r.mixInNext.value != 0
    then r.mixInNext.value else 15
  }

  /** One entry of `mixProbabilisticStoryCards`: on a roll at most the
      entry's probability, splice its id in at a random index in
      [0, min(range, length)]; otherwise leave the deck alone. */
  function ProbStep(deck: seq<string>, r: CardRef, roll: real, u: real): (d: seq<string>)
    requires 0.0 <= u < 1.0
    ensures roll <= Chance(r) ==>
              exists i :: 0 <= i <= Min(MixRange(r), |deck|) && d == InsertAt(deck, i, RefId(r))
    ensures roll > Chance(r) ==> d == deck
  {
    if roll <= Chance(r) then InsertAt(deck, Pick(u, Min(MixRange(r), |deck|)), RefId(r)) else deck
  }

  /** Two random supplies, one entry each per story card: the probability
      rolls and the insertion draws. */
  predicate MixSupply(rolls: seq<real>, picks: seq<real>, n: int)
  {
    Randoms(rolls) && Randoms(picks) && |rolls| >= n && |picks| >= n
  }

  /** `mixProbabilisticStoryCards`: every entry in listed order, each with its own roll. */
  function MixProbabilistic(deck: seq<string>, refs: seq<CardRef>, rolls: seq<real>, picks: seq<real>): seq<string>
    requires MixSupply(rolls, picks, |refs|)
    decreases |refs|
  {
    if refs == [] then deck
    else MixProbabilistic(ProbStep(deck, refs[0], rolls[0], picks[0]), refs[1..], rolls[1..], picks[1..])
  }

  /** The ids whose roll succeeds, in listed order. */
  function Selected(refs: seq<CardRef>, rolls: seq<real>): seq<string>
    requires |rolls| >= |refs|
  {
    if refs == [] then []
    else (if rolls[0] <= Chance(refs[0]) then [RefId(refs[0])] else []) + Selected(refs[1..], rolls[1..])
  }

  /** Probabilistic mixing adds exactly the selected ids. */
  lemma {:induction false} MixProbabilisticShape(deck: seq<string>, refs: seq<CardRef>, rolls: seq<real>, picks: seq<real>)
    requires MixSupply(rolls, picks, |refs|)
    ensures multiset(MixProbabilistic(deck, refs, rolls, picks)) == multiset(deck) + multiset(Selected(refs, rolls))
    ensures |MixProbabilistic(deck, refs, rolls, picks)| == |deck| + |Selected(refs, rolls)|
    decreases |refs|
  {
    if refs != [] {
      var d := ProbStep(deck, refs[0], rolls[0], picks[0]);
      if rolls[0] <= Chance(refs[0]) {
        InsertAtContents(deck, Pick(picks[0], Min(MixRange(refs[0]), |deck|)), RefId(refs[0]));
      }
      MixProbabilisticShape(d, refs[1..], rolls[1..], picks[1..]);
      var first := if rolls[0] <= Chance(refs[0]) then [RefId(refs[0])] else [];
      assert Selected(refs, rolls) == first + Selected(refs[1..], rolls[1..]);
      assert multiset(d) == multiset(deck) + multiset(first);
    }
  }

  /** Entries whose probability is at least 1 are always selected. */
  lemma {:induction false} CertainEntriesSelected(refs: seq<CardRef>, rolls: seq<real>)
    requires Randoms(rolls) && |rolls| >= |refs|
    requires forall k :: 0 <= k < |refs| ==> Chance(refs[k]) >= 1.0
    ensures Selected(refs, rolls) == RefIds(refs)
  {
    if refs != [] {
      assert forall k :: 0 <= k < |refs| - 1 ==> refs[1..][k] == refs[k + 1];
      assert forall k :: 0 <= k < |rolls| - 1 ==> rolls[1..][k] == rolls[k + 1];
      CertainEntriesSelected(refs[1..], rolls[1..]);
      assert rolls[0] < 1.0;
    }
  }

  /** A probability of 0 still injects on a roll of exactly 0, because the
      test is `roll <= probability`. */
  lemma ZeroProbabilityCanInject(deck: seq<string>, c: Card, u: real)
    requires 0.0 <= u < 1.0
    ensures |ProbStep(deck, Embedded(c, Some(0.0), None), 0.0, u)| == |deck| + 1
  {
  }
}
