/**
 * The power tracker: initial values and bounded application of effects.
 *
 * The main engine scales each delta by the active effect modifiers and clamps
 * against the effective (boosted) cap; the headless engine adds the raw delta
 * and clamps against the power's own maximum. Both clamp the minimum last.
 */
module Powers {
  import opened Types
  import opened Boosters

  /** `Math.floor(max / 2)`: the value every power starts with, not clamped to its minimum. */
  function InitialValue(max: real): (v: real)
    ensures v <= max / 2.0 < v + 1.0
    ensures v == v.Floor as real
  {
    (max / 2.0).Floor as real
  }

  /** The `powers` record built by `init`: one entry per configured name; a
      name configured twice keeps its last entry. */
  function InitialPowers(pcs: seq<PowerConfig>): map<string, Power>
  {
    if pcs == [] then map[]
    else
      var p := pcs[|pcs| - 1];
      InitialPowers(pcs[..|pcs| - 1])[p.name := Power(InitialValue(p.max), p.min, p.max)]
  }

  /** Every configured name has a record and nothing else does. */
  lemma {:induction false} InitialPowersKeys(pcs: seq<PowerConfig>)
    ensures forall n :: n in InitialPowers(pcs) <==> exists k :: 0 <= k < |pcs| && pcs[k].name == n
  {
    if pcs != [] {
      var init := pcs[..|pcs| - 1];
      InitialPowersKeys(init);
      forall n ensures n in InitialPowers(pcs) <==> exists k :: 0 <= k < |pcs| && pcs[k].name == n {
        if n in InitialPowers(init) {
          var k :| 0 <= k < |init| && init[k].name == n;
          assert pcs[k] == init[k];
        }
        if exists k :: 0 <= k < |pcs| && pcs[k].name == n {
          var k :| 0 <= k < |pcs| && pcs[k].name == n;
          if k < |init| { assert init[k] == pcs[k]; }
        }
      }
    }
  }

  /** Each record holds its name's last configuration entry: that entry's
      range, and the value floor(max / 2). */
  lemma {:induction false} InitialPowersValues(pcs: seq<PowerConfig>)
    ensures forall k :: 0 <= k < |pcs| && (forall j :: k < j < |pcs| ==> pcs[j].name != pcs[k].name) ==>
              pcs[k].name in InitialPowers(pcs) &&
              InitialPowers(pcs)[pcs[k].name] == Power(InitialValue(pcs[k].max), pcs[k].min, pcs[k].max)
  {
    if pcs != [] {
      var init := pcs[..|pcs| - 1];
      InitialPowersValues(init);
      forall k | 0 <= k < |pcs| - 1 && (forall j :: k < j < |pcs| ==> pcs[j].name != pcs[k].name)
        ensures pcs[k].name in InitialPowers(pcs) &&
                InitialPowers(pcs)[pcs[k].name] == Power(InitialValue(pcs[k].max), pcs[k].min, pcs[k].max)
      {
        assert init[k] == pcs[k];
        assert forall j :: k < j < |init| ==> init[j] == pcs[j];
        assert pcs[|pcs| - 1].name != pcs[k].name;
      }
    }
  }

  /** The initial value is not clamped: a minimum above half the maximum
      starts the power below its minimum. */
  lemma InitialValueMayBeBelowMin()
    ensures var pw := InitialPowers([PowerConfig("p", 80.0, 100.0)])["p"];
            pw.value == 50.0 && pw.value < pw.min
  {
    assert [PowerConfig("p", 80.0, 100.0)][..0] == [];
  }

  /** The two clamping steps: down to the cap, then up to the minimum. */
  function Clamp(v: real, cap: Cap, min: real): (r: real)
    ensures r >= min
    ensures cap.Finite? && r > cap.v ==> r == min
    ensures CapAtLeast(cap, Finite(min)) ==> cap.Infinite? || r <= cap.v
    ensures min <= v && (cap.Infinite? || v <= cap.v) ==> r == v
    ensures cap.Finite? && v > cap.v && cap.v >= min ==> r == cap.v
    ensures v < min && (cap.Infinite? || v <= cap.v) ==> r == min
    ensures cap.Finite? && v > cap.v && cap.v < min ==> r == min
  {
    var capped := if cap.Finite? && v > cap.v then cap.v else v;
    if capped < min then min else capped
  }

  /** One `{name: delta}` entry of `applyEffects`: the scaled delta is added
      and the result clamped; an unknown name changes nothing. */
  function ApplyEffect(powers: map<string, Power>, pcs: seq<PowerConfig>, bs: seq<ActiveBooster>, e: Effect)
    : (r: map<string, Power>)
    ensures r.Keys == powers.Keys
    ensures forall n :: n in r ==> r[n].min == powers[n].min && r[n].max == powers[n].max
    ensures e.power !in powers ==> r == powers
    ensures e.power in powers ==>
              r[e.power].value == Clamp(powers[e.power].value + ModifyEffect(bs, e.power, e.delta),
                                        EffectiveCap(pcs, bs, e.power), powers[e.power].min)
    ensures forall n :: n in r && n != e.power ==> r[n] == powers[n]
  {
    var modified := ModifyEffect(bs, e.power, e.delta);
    if e.power !in powers then powers
    else
      var p := powers[e.power];
      powers[e.power := p.(value := Clamp(p.value + modified, EffectiveCap(pcs, bs, e.power), p.min))]
  }

  /** `applyEffects`: the entries in order. */
  function ApplyEffects(powers: map<string, Power>, pcs: seq<PowerConfig>, bs: seq<ActiveBooster>, effects: seq<Effect>)
    : (r: map<string, Power>)
    ensures r.Keys == powers.Keys
    ensures forall n :: n in r ==> r[n].min == powers[n].min && r[n].max == powers[n].max
  {
    if effects == [] then powers
    else ApplyEffects(ApplyEffect(powers, pcs, bs, effects[0]), pcs, bs, effects[1..])
  }

  /** The range a power must stay in: at least its minimum, at most its effective cap. */
  predicate InBounds(powers: map<string, Power>, pcs: seq<PowerConfig>, bs: seq<ActiveBooster>)
  {
    forall n :: n in powers ==>
      powers[n].min <= powers[n].value && CapAtLeast(EffectiveCap(pcs, bs, n), Finite(powers[n].value))
  }

  /** Every power's minimum lies under its effective cap. */
  predicate RangesNonEmpty(powers: map<string, Power>, pcs: seq<PowerConfig>, bs: seq<ActiveBooster>)
  {
    forall n :: n in powers ==> CapAtLeast(EffectiveCap(pcs, bs, n), Finite(powers[n].min))
  }

  /** Effects leave every power no effect names as it was; so effects naming only unknown
      powers change nothing. */
  lemma {:induction false} ApplyEffectsFrame(powers: map<string, Power>, pcs: seq<PowerConfig>, bs: seq<ActiveBooster>,
                                             effects: seq<Effect>)
    ensures forall n :: n in powers && (forall k :: 0 <= k < |effects| ==> effects[k].power != n) ==>
              ApplyEffects(powers, pcs, bs, effects)[n] == powers[n]
    ensures (forall k :: 0 <= k < |effects| ==> effects[k].power !in powers) ==>
              ApplyEffects(powers, pcs, bs, effects) == powers
  {
    if effects != [] {
      var next := ApplyEffect(powers, pcs, bs, effects[0]);
      ApplyEffectsFrame(next, pcs, bs, effects[1..]);
      assert forall k :: 0 <= k < |effects| - 1 ==> effects[1..][k] == effects[k + 1];
    }
  }

  /** After `applyEffects`, every known power an effect names is at least its
      minimum and, unless the minimum itself lies above the cap, at most its
      effective cap. */
  lemma {:induction false} ApplyEffectsBounds(powers: map<string, Power>, pcs: seq<PowerConfig>, bs: seq<ActiveBooster>,
                                              effects: seq<Effect>, k: nat)
    requires k < |effects| && effects[k].power in powers
    ensures var r := ApplyEffects(powers, pcs, bs, effects);
            var n := effects[k].power;
            var cap := EffectiveCap(pcs, bs, n);
            r[n].value >= r[n].min &&
            (CapAtLeast(cap, Finite(r[n].min)) ==> CapAtLeast(cap, Finite(r[n].value))) &&
            (!CapAtLeast(cap, Finite(r[n].min)) ==> r[n].value == r[n].min)
  {
    var n := effects[k].power;
    var next := ApplyEffect(powers, pcs, bs, effects[0]);
    ApplyEffectsFrame(next, pcs, bs, effects[1..]);
    if k > 0 {
      ApplyEffectsBounds(next, pcs, bs, effects[1..], k - 1);
    } else if exists j :: 0 <= j < |effects| - 1 && effects[1..][j].power == n {
      var j :| 0 <= j < |effects| - 1 && effects[1..][j].power == n;
      ApplyEffectsBounds(next, pcs, bs, effects[1..], j);
    }
  }

  /** When every range is non-empty, effects keep every power within
      [min, effective cap]. */
  lemma {:induction false} ApplyEffectsKeepsBounds(powers: map<string, Power>, pcs: seq<PowerConfig>, bs: seq<ActiveBooster>,
                                                   effects: seq<Effect>)
    requires RangesNonEmpty(powers, pcs, bs) && InBounds(powers, pcs, bs)
    ensures InBounds(ApplyEffects(powers, pcs, bs, effects), pcs, bs)
    ensures RangesNonEmpty(ApplyEffects(powers, pcs, bs, effects), pcs, bs)
  {
    if effects != [] {
      var next := ApplyEffect(powers, pcs, bs, effects[0]);
      assert InBounds(next, pcs, bs) && RangesNonEmpty(next, pcs, bs) by {
        forall n | n in next
          ensures next[n].min <= next[n].value && CapAtLeast(EffectiveCap(pcs, bs, n), Finite(next[n].value))
          ensures CapAtLeast(EffectiveCap(pcs, bs, n), Finite(next[n].min))
        {
          assert n in powers;
        }
      }
      ApplyEffectsKeepsBounds(next, pcs, bs, effects[1..]);
    }
  }

  /** `min <= v <= cap`, with an unbounded cap bounding nothing. */
  predicate WithinCap(v: real, min: real, cap: Cap)
  {
    min <= v && (cap.Infinite? || v <= cap.v)
  }

  /** The modified deltas the effects carry for `n`, summed in order. */
  function DeltaSum(bs: seq<ActiveBooster>, n: string, effects: seq<Effect>): real
  {
    if effects == [] then 0.0
    else (if effects[0].power == n then ModifyEffect(bs, n, effects[0].delta) else 0.0) + DeltaSum(bs, n, effects[1..])
  }

  /** While every running total for `n` stays within [min, effective cap], no
      clamp takes effect: the value ends as the start plus the sum of the
      modified deltas. */
  lemma {:induction false} ApplyEffectsAddsDeltas(powers: map<string, Power>, pcs: seq<PowerConfig>, bs: seq<ActiveBooster>,
                                                  effects: seq<Effect>, n: string)
    requires n in powers
    requires forall j :: 0 <= j <= |effects| ==>
               WithinCap(powers[n].value + DeltaSum(bs, n, effects[..j]), powers[n].min, EffectiveCap(pcs, bs, n))
    ensures ApplyEffects(powers, pcs, bs, effects)[n].value == powers[n].value + DeltaSum(bs, n, effects)
  {
    if effects != [] {
      var e := effects[0];
      var next := ApplyEffect(powers, pcs, bs, e);
      var d0 := if e.power == n then ModifyEffect(bs, n, e.delta) else 0.0;
      assert effects[..1][1..] == [];
      assert DeltaSum(bs, n, effects[..1]) == d0;
      assert next[n].value == powers[n].value + d0;
      forall j | 0 <= j <= |effects| - 1
        ensures WithinCap(next[n].value + DeltaSum(bs, n, effects[1..][..j]), next[n].min, EffectiveCap(pcs, bs, n))
      {
        assert effects[..j + 1][1..] == effects[1..][..j];
        assert DeltaSum(bs, n, effects[..j + 1]) == d0 + DeltaSum(bs, n, effects[1..][..j]);
      }
      ApplyEffectsAddsDeltas(next, pcs, bs, effects[1..], n);
    }
  }

  // ---------------------------------------------------------------------------
  // Headless engine
  // ---------------------------------------------------------------------------

  /** One entry of the headless `applyEffects`: the raw delta, clamped to the
      power's own [min, max]. */
  function ApplyPlainEffect(powers: map<string, Power>, e: Effect): (r: map<string, Power>)
    ensures r.Keys == powers.Keys
    ensures forall n :: n in r ==> r[n].min == powers[n].min && r[n].max == powers[n].max
    ensures e.power !in powers ==> r == powers
    ensures e.power in powers ==>
              r[e.power].value == Clamp(powers[e.power].value + e.delta, Finite(powers[e.power].max), powers[e.power].min)
    ensures forall n :: n in r && n != e.power ==> r[n] == powers[n]
  {
    if e.power !in powers then powers
    else
      var p := powers[e.power];
      powers[e.power := p.(value := Clamp(p.value + e.delta, Finite(p.max), p.min))]
  }

  function ApplyPlainEffects(powers: map<string, Power>, effects: seq<Effect>): (r: map<string, Power>)
    ensures r.Keys == powers.Keys
    ensures forall n :: n in r ==> r[n].min == powers[n].min && r[n].max == powers[n].max
  {
    if effects == [] then powers
    else ApplyPlainEffects(ApplyPlainEffect(powers, effects[0]), effects[1..])
  }

  /** Every power holds min <= value <= max. */
  predicate WithinRange(powers: map<string, Power>)
  {
    forall n :: n in powers ==> powers[n].min <= powers[n].value <= powers[n].max
  }

  /** Every power has min <= max. */
  predicate RangesOrdered(powers: map<string, Power>)
  {
    forall n :: n in powers ==> powers[n].min <= powers[n].max
  }

  /** Headless effects ignore unknown names and leave every power no effect
      names as it was. */
  lemma {:induction false} ApplyPlainEffectsFrame(powers: map<string, Power>, effects: seq<Effect>)
    ensures forall n :: n in powers && (forall k :: 0 <= k < |effects| ==> effects[k].power != n) ==>
              ApplyPlainEffects(powers, effects)[n] == powers[n]
  {
    if effects != [] {
      ApplyPlainEffectsFrame(ApplyPlainEffect(powers, effects[0]), effects[1..]);
      assert forall k :: 0 <= k < |effects| - 1 ==> effects[1..][k] == effects[k + 1];
    }
  }

  /** Headless effects keep every power within [min, max] when its range is
      non-empty. */
  lemma {:induction false} ApplyPlainEffectsClamps(powers: map<string, Power>, effects: seq<Effect>)
    requires RangesOrdered(powers) && WithinRange(powers)
    ensures WithinRange(ApplyPlainEffects(powers, effects))
  {
    if effects != [] {
      ApplyPlainEffectsClamps(ApplyPlainEffect(powers, effects[0]), effects[1..]);
    }
  }

  /** The raw deltas the effects carry for `n`, summed in order. */
  function PlainDeltaSum(n: string, effects: seq<Effect>): real
  {
    if effects == [] then 0.0
    else (if effects[0].power == n then effects[0].delta else 0.0) + PlainDeltaSum(n, effects[1..])
  }

  /** While every running total for `n` stays within [min, max], no clamp takes
      effect: the value ends as the start plus the sum of the raw deltas. */
  lemma {:induction false} ApplyPlainEffectsAddsDeltas(powers: map<string, Power>, effects: seq<Effect>, n: string)
    requires n in powers
    requires forall j :: 0 <= j <= |effects| ==>
               WithinCap(powers[n].value + PlainDeltaSum(n, effects[..j]), powers[n].min, Finite(powers[n].max))
    ensures ApplyPlainEffects(powers, effects)[n].value == powers[n].value + PlainDeltaSum(n, effects)
  {
    if effects != [] {
      var e := effects[0];
      var next := ApplyPlainEffect(powers, e);
      var d0 := if e.power == n then e.delta else 0.0;
      assert effects[..1][1..] == [];
      assert PlainDeltaSum(n, effects[..1]) == d0;
      assert next[n].value == powers[n].value + d0;
      forall j | 0 <= j <= |effects| - 1
        ensures WithinCap(next[n].value + PlainDeltaSum(n, effects[1..][..j]), next[n].min, Finite(next[n].max))
      {
        assert effects[..j + 1][1..] == effects[1..][..j];
        assert PlainDeltaSum(n, effects[..j + 1]) == d0 + PlainDeltaSum(n, effects[1..][..j]);
      }
      ApplyPlainEffectsAddsDeltas(next, effects[1..], n);
    }
  }
}
