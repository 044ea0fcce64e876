/**
 * The simplified engine the Monte Carlo simulation plays: the same session
 * state and the same `init` and `draw`, but no boosters, no card mixing and
 * no catalogue growth. Effects clamp against each record's own bounds,
 * acceptance and rejection only record ids, and the trigger pass only marks
 * stories triggered. Game over is judged against the configured `max`.
 */
module HeadlessModel {
  import opened Types
  import opened Powers
  import opened Stories
  import opened Model

  // ---------------------------------------------------------------------------
  // choose
  // ---------------------------------------------------------------------------

  /** One story of the simplified trigger pass: a ready story that is not
      triggered yet becomes triggered, and nothing else changes. */
  function SimpleTriggerStep(cfg: Config, s: State, k: nat): State
    requires k < |cfg.stories|
  {
    var st := cfg.stories[k];
    if st.id !in s.triggered && Ready(st, |s.history|, s.completed) then s.(triggered := s.triggered + {st.id})
    else s
  }

  /** The simplified trigger pass over the stories from position `i` on. */
  function SimpleTriggerFrom(cfg: Config, s: State, i: nat): State
    requires i <= |cfg.stories|
    decreases |cfg.stories| - i
  {
    if i == |cfg.stories| then s else SimpleTriggerFrom(cfg, SimpleTriggerStep(cfg, s, i), i + 1)
  }

  /** The session after a choice's effects, follow-up, acceptance and
      rejection, and the history entry: what the completion pass sees. */
  function SimpleRecorded(s: State, card: Card, dir: Direction): State
  {
    var c := ChoiceOf(card, dir);
    var s1 := s.(powers := ApplyPlainEffects(s.powers, c.effects));
    var s2 := if c.followUp.Some? then s1.(deck := [c.followUp.value] + s1.deck) else s1;
    var s3 := s2.(accepted := s2.accepted + Named(c.acceptStory), rejected := s2.rejected + Named(c.rejectStory));
    s3.(history := s3.history + [HistoryEntry(card.id, dir)])
  }

  /** `choose(card, direction)` of the simplified engine. */
  function SimpleTurn(cfg: Config, s: State, card: Card, dir: Direction): State
  {
    var s4 := SimpleRecorded(s, card, dir);
    var s5 := s4.(completed := CompletionPass(cfg.stories, s4.triggered, s4.completed, card.id));
    SimpleTriggerFrom(cfg, s5, 0)
  }

  /** The simplified pass changes nothing but a growing triggered set. */
  lemma {:induction false} SimpleTriggerFromFrame(cfg: Config, s: State, i: nat)
    requires i <= |cfg.stories|
    ensures var r := SimpleTriggerFrom(cfg, s, i);
            r == s.(triggered := r.triggered) && s.triggered <= r.triggered
    decreases |cfg.stories| - i
  {
    if i < |cfg.stories| {
      SimpleTriggerFromFrame(cfg, SimpleTriggerStep(cfg, s, i), i + 1);
    }
  }

  /** After the simplified pass a story is triggered exactly when it was
      before, or a story with its id is ready. */
  lemma {:induction false} SimpleTriggerFromTriggered(cfg: Config, s: State, i: nat, x: string)
    requires i <= |cfg.stories|
    ensures x in SimpleTriggerFrom(cfg, s, i).triggered <==>
            x in s.triggered || ReadyFrom(cfg.stories, i, x, |s.history|, s.completed)
    decreases |cfg.stories| - i
  {
    if i < |cfg.stories| {
      var next := SimpleTriggerStep(cfg, s, i);
      SimpleTriggerFromTriggered(cfg, next, i + 1, x);
      if ReadyFrom(cfg.stories, i, x, |s.history|, s.completed) {
        var k :| i <= k < |cfg.stories| && cfg.stories[k].id == x && Ready(cfg.stories[k], |s.history|, s.completed);
        if k > i { assert ReadyFrom(cfg.stories, i + 1, x, |next.history|, next.completed); }
      }
    }
  }

  /** What a simplified turn changes: the powers by the clamped effects, the
      deck only by the follow-up at the front, the history by exactly one
      entry, the accepted and rejected sets by the named ids, and a growing
      triggered set; boosters, catalogue, counter and mixed set stay. */
  lemma SimpleTurnFrame(cfg: Config, s: State, card: Card, dir: Direction)
    ensures var r := SimpleTurn(cfg, s, card, dir);
            var c := ChoiceOf(card, dir);
            r.powers == ApplyPlainEffects(s.powers, c.effects) &&
            r.deck == (if c.followUp.Some? then [c.followUp.value] + s.deck else s.deck) &&
            r.history == s.history + [HistoryEntry(card.id, dir)] &&
            r.accepted == s.accepted + Named(c.acceptStory) && r.rejected == s.rejected + Named(c.rejectStory) &&
            r.boosters == s.boosters && r.cards == s.cards && r.cardCount == s.cardCount && r.mixed == s.mixed &&
            s.triggered <= r.triggered
  {
    var s4 := SimpleRecorded(s, card, dir);
    var s5 := s4.(completed := CompletionPass(cfg.stories, s4.triggered, s4.completed, card.id));
    SimpleTriggerFromFrame(cfg, s5, 0);
  }

  /** A story is completed after a simplified turn exactly when it was
      before, or it was already triggered and the played card is the last
      entry of its list. */
  lemma SimpleTurnCompleted(cfg: Config, s: State, card: Card, dir: Direction, x: string)
    ensures x in SimpleTurn(cfg, s, card, dir).completed <==>
            x in s.completed ||
            (x in s.triggered &&
             exists k :: 0 <= k < |cfg.stories| && cfg.stories[k].id == x && LastId(cfg.stories[k]) == Some(card.id))
  {
    var s4 := SimpleRecorded(s, card, dir);
    var s5 := s4.(completed := CompletionPass(cfg.stories, s4.triggered, s4.completed, card.id));
    SimpleTriggerFromFrame(cfg, s5, 0);
    CompletionPassSpec(cfg.stories, s4.triggered, s4.completed, card.id, x);
  }

  /** A story is triggered after a simplified turn exactly when it was
      before, or a story with its id is ready given the history length after
      this turn's entry and the completed set after this turn's completion
      pass. */
  lemma SimpleTurnTriggered(cfg: Config, s: State, card: Card, dir: Direction, x: string)
    ensures var r := SimpleTurn(cfg, s, card, dir);
            x in r.triggered <==>
            x in s.triggered || ReadyFrom(cfg.stories, 0, x, |s.history| + 1, r.completed)
  {
    var s4 := SimpleRecorded(s, card, dir);
    var s5 := s4.(completed := CompletionPass(cfg.stories, s4.triggered, s4.completed, card.id));
    SimpleTriggerFromFrame(cfg, s5, 0);
    SimpleTriggerFromTriggered(cfg, s5, 0, x);
  }

  /** Simplified turns keep the session consistent and keep every power
      within its range when the ranges are ordered. */
  lemma SimpleTurnConsistent(cfg: Config, s: State, card: Card, dir: Direction)
    requires Consistent(s)
    ensures Consistent(SimpleTurn(cfg, s, card, dir))
    ensures RangesOrdered(s.powers) && WithinRange(s.powers) ==>
              WithinRange(SimpleTurn(cfg, s, card, dir).powers)
  {
    var s4 := SimpleRecorded(s, card, dir);
    var s5 := s4.(completed := CompletionPass(cfg.stories, s4.triggered, s4.completed, card.id));
    assert s5.completed <= s5.triggered by {
      forall x | x in s5.completed ensures x in s5.triggered {
        CompletionPassSpec(cfg.stories, s4.triggered, s4.completed, card.id, x);
      }
    }
    SimpleTriggerFromFrame(cfg, s5, 0);
    if RangesOrdered(s.powers) && WithinRange(s.powers) {
      ApplyPlainEffectsClamps(s.powers, ChoiceOf(card, dir).effects);
    }
  }

  // ---------------------------------------------------------------------------
  // Game over
  // ---------------------------------------------------------------------------

  /** At or beyond the configured `min` or `max`; a configured power without a
      record never is (its value is `undefined`, and both comparisons fail). */
  predicate AtBaseBound(s: State, p: PowerConfig)
  {
    p.name in s.powers && (s.powers[p.name].value <= p.min || s.powers[p.name].value >= p.max)
  }

  /** `isGameOver` of the simplified engine. */
  predicate IsOverAtBase(cfg: Config, s: State)
  {
    exists k :: 0 <= k < |cfg.powers| && AtBaseBound(s, cfg.powers[k])
  }

  /** The report for a power at a bound; the minimum is checked first. */
  function BaseReport(s: State, p: PowerConfig): GameOverInfo
    requires AtBaseBound(s, p)
  {
    var v := s.powers[p.name].value;
    GameOverInfo(p.name, v, if v <= p.min then Min else Max, s.cardCount)
  }

  /** Position `k` holds the first power at a bound from position `i` on. */
  predicate FirstAtBaseBound(cfg: Config, s: State, i: nat, k: nat)
  {
    i <= k < |cfg.powers| && AtBaseBound(s, cfg.powers[k]) &&
    forall j :: i <= j < k ==> !AtBaseBound(s, cfg.powers[j])
  }

  /** The power loop of `getGameOverInfo` from position `i` on. */
  function BaseReportFrom(cfg: Config, s: State, i: nat): Option<GameOverInfo>
    requires i <= |cfg.powers|
    decreases |cfg.powers| - i
  {
    if i == |cfg.powers| then None
    else if AtBaseBound(s, cfg.powers[i]) then Some(BaseReport(s, cfg.powers[i]))
    else BaseReportFrom(cfg, s, i + 1)
  }

  lemma {:induction false} BaseReportFromSpec(cfg: Config, s: State, i: nat)
    requires i <= |cfg.powers|
    ensures var r := BaseReportFrom(cfg, s, i);
            (r.None? <==> forall k :: i <= k < |cfg.powers| ==> !AtBaseBound(s, cfg.powers[k])) &&
            (r.Some? ==> exists k: nat :: FirstAtBaseBound(cfg, s, i, k) && r.value == BaseReport(s, cfg.powers[k]))
    decreases |cfg.powers| - i
  {
    if i == |cfg.powers| {
    } else if AtBaseBound(s, cfg.powers[i]) {
      assert FirstAtBaseBound(cfg, s, i, i);
    } else {
      BaseReportFromSpec(cfg, s, i + 1);
      var r := BaseReportFrom(cfg, s, i + 1);
      if r.Some? {
        var k: nat :| FirstAtBaseBound(cfg, s, i + 1, k) && r.value == BaseReport(s, cfg.powers[k]);
        assert FirstAtBaseBound(cfg, s, i, k);
      }
    }
  }

  /** `getGameOverInfo` of the simplified engine. */
  function BaseGameOverReport(cfg: Config, s: State): Option<GameOverInfo>
  {
    BaseReportFrom(cfg, s, 0)
  }

  /** A report exactly when the simplified game is over, for the first power
      in configuration order at a bound, labelled `Min` exactly when it is at
      its minimum. */
  lemma BaseGameOverReportSpec(cfg: Config, s: State)
    ensures var r := BaseGameOverReport(cfg, s);
            (r.Some? <==> IsOverAtBase(cfg, s)) &&
            (r.Some? ==> exists k: nat :: FirstAtBaseBound(cfg, s, 0, k) &&
                           r.value.power == cfg.powers[k].name &&
                           r.value.value == s.powers[cfg.powers[k].name].value &&
                           (r.value.boundary == Min <==> s.powers[cfg.powers[k].name].value <= cfg.powers[k].min) &&
                           r.value.cardCount == s.cardCount)
  {
    BaseReportFromSpec(cfg, s, 0);
  }

  /** The simplified engine ignores boosters: a value at the configured
      maximum ends its game even while a booster would have raised the cap. */
  lemma BaseMaxIgnoresBoosters(cfg: Config, s: State, name: string)
    requires cfg.powers == [PowerConfig(name, 0.0, 200.0)]
    requires s.powers == map[name := Power(200.0, 0.0, 200.0)]
    ensures BaseGameOverReport(cfg, s) == Some(GameOverInfo(name, 200.0, Max, s.cardCount))
  {
    assert AtBaseBound(s, cfg.powers[0]);
  }
}
