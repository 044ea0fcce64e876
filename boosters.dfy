/**
 * Active boosters: the effective cap of a power, the scaling of effect
 * deltas, and the once-per-turn ageing of the active list.
 *
 * Both queries walk every modifier of every active booster in activation
 * order; the nested iteration is written as one pass over the concatenated
 * modifier lists (`ActiveModifiers`).
 */
module Boosters {
  import opened Types

  /** The modifiers of all active boosters, in activation order. */
  function ActiveModifiers(bs: seq<ActiveBooster>): (mods: seq<Modifier>)
    ensures forall i, j :: 0 <= i < |bs| && 0 <= j < |bs[i].booster.modifiers| ==>
              bs[i].booster.modifiers[j] in mods
    ensures forall m :: m in mods ==> exists i :: 0 <= i < |bs| && m in bs[i].booster.modifiers
  {
    if bs == [] then [] else bs[0].booster.modifiers + ActiveModifiers(bs[1..])
  }

  /** A modifier's `power` field selects `name` when it is that name or the wildcard. */
  predicate Selects(target: string, name: string)
  {
    target == name || target == "*"
  }

  // ---------------------------------------------------------------------------
  // Effective cap
  // ---------------------------------------------------------------------------

  /** `c` is at least `d`, with an unbounded cap above every number. */
  predicate CapAtLeast(c: Cap, d: Cap)
  {
    c.Infinite? || (d.Finite? && c.v >= d.v)
  }

  predicate CapsPower(m: Modifier, name: string)
  {
    m.powerCap.Some? && Selects(m.powerCap.value.power, name)
  }

  /** The maximum of the first power configured as `name`; unbounded when the
      power is not configured. */
  function BaseCap(pcs: seq<PowerConfig>, name: string): (c: Cap)
    ensures c.Infinite? <==> forall k :: 0 <= k < |pcs| ==> pcs[k].name != name
    ensures c.Finite? ==> exists k :: 0 <= k < |pcs| && pcs[k].name == name && c.v == pcs[k].max &&
                            forall j :: 0 <= j < k ==> pcs[j].name != name
  {
    match FindPower(pcs, name)
    case Some(p) => Finite(p.max)
    case None => Infinite
  }

  /** One step of the fold: a selecting `power_cap` larger than the cap so far replaces it. */
  function RaiseCap(cap: Cap, m: Modifier, name: string): Cap
  {
    if CapsPower(m, name) && cap.Finite? && m.powerCap.value.value > cap.v
    then Finite(m.powerCap.value.value) else cap
  }

  function CapFold(mods: seq<Modifier>, name: string, cap: Cap): (r: Cap)
    ensures CapAtLeast(r, cap)
    ensures forall m :: m in mods && CapsPower(m, name) ==> CapAtLeast(r, Finite(m.powerCap.value.value))
    ensures r == cap || exists m :: m in mods && CapsPower(m, name) && r == Finite(m.powerCap.value.value)
  {
    if mods == [] then cap
    else
      var r := CapFold(mods[1..], name, RaiseCap(cap, mods[0], name));
      assert forall m :: m in mods ==> m == mods[0] || m in mods[1..];
      r
  }

  /** The fold runs modifier by modifier: folding a concatenation continues
      from where the first part ends. */
  lemma {:induction false} CapFoldConcat(a: seq<Modifier>, b: seq<Modifier>, name: string, cap: Cap)
    ensures CapFold(a + b, name, cap) == CapFold(b, name, CapFold(a, name, cap))
  {
    if a == [] {
      assert a + b == b;
    } else {
      assert (a + b)[1..] == a[1..] + b;
      CapFoldConcat(a[1..], b, name, RaiseCap(cap, a[0], name));
    }
  }

  /** `applyBoostersOnCap`: the largest of the base maximum and every active
      `power_cap` value that selects `name`. */
  function EffectiveCap(pcs: seq<PowerConfig>, bs: seq<ActiveBooster>, name: string): (r: Cap)
    ensures BaseCap(pcs, name).Infinite? ==> r.Infinite?
    ensures CapAtLeast(r, BaseCap(pcs, name))
    ensures forall m :: m in ActiveModifiers(bs) && CapsPower(m, name) ==>
              CapAtLeast(r, Finite(m.powerCap.value.value))
    ensures r == BaseCap(pcs, name) ||
            exists m :: m in ActiveModifiers(bs) && CapsPower(m, name) && r == Finite(m.powerCap.value.value)
  {
    CapFold(ActiveModifiers(bs), name, BaseCap(pcs, name))
  }

  // ---------------------------------------------------------------------------
  // Effect modifiers
  // ---------------------------------------------------------------------------

  /** A modifier scales the raw delta `raw` of `name`: a `loss` modifier for a
      negative delta, a `gain` modifier for a positive one. */
  predicate Scales(m: Modifier, name: string, raw: real)
  {
    m.effectModifier.Some? && Selects(m.effectModifier.value.power, name) &&
    ((m.effectModifier.value.kind == Loss && raw < 0.0) ||
     (m.effectModifier.value.kind == Gain && raw > 0.0))
  }

  /** No modifier in `mods` scales the delta. */
  predicate NoneScales(mods: seq<Modifier>, name: string, raw: real)
  {
    forall k :: 0 <= k < |mods| ==> !Scales(mods[k], name, raw)
  }

  /** `mods[k]` scales the delta and no later modifier does. */
  predicate LastScaling(mods: seq<Modifier>, name: string, raw: real, k: int)
  {
    0 <= k < |mods| && Scales(mods[k], name, raw) &&
    forall k' :: k < k' < |mods| ==> !Scales(mods[k'], name, raw)
  }

  /** The raw delta times the modifier's multiplier. */
  function Scaled(raw: real, m: Modifier): real
    requires m.effectModifier.Some?
  {
    raw * m.effectModifier.value.multiplier
  }

  /** The fold of `applyEffectModifiers`: each scaling modifier sets the running
      value to the RAW delta times its multiplier. */
  function ScaleFold(mods: seq<Modifier>, name: string, raw: real, val: real): real
  {
    if mods == [] then val
    else
      var v := if Scales(mods[0], name, raw) then Scaled(raw, mods[0]) else val;
      ScaleFold(mods[1..], name, raw, v)
  }

  /** The scaling fold runs modifier by modifier as well. */
  lemma {:induction false} ScaleFoldConcat(a: seq<Modifier>, b: seq<Modifier>, name: string, raw: real, val: real)
    ensures ScaleFold(a + b, name, raw, val) == ScaleFold(b, name, raw, ScaleFold(a, name, raw, val))
  {
    if a == [] {
      assert a + b == b;
    } else {
      assert (a + b)[1..] == a[1..] + b;
      ScaleFoldConcat(a[1..], b, name, raw, if Scales(a[0], name, raw) then Scaled(raw, a[0]) else val);
    }
  }

  /** The fold ends with the value set by the last scaling modifier, or with its
      start value when no modifier scales. */
  lemma {:induction false} ScaleFoldIsLast(mods: seq<Modifier>, name: string, raw: real, val: real)
    ensures NoneScales(mods, name, raw) ==> ScaleFold(mods, name, raw, val) == val
    ensures !NoneScales(mods, name, raw) ==>
              exists k :: LastScaling(mods, name, raw, k) &&
                ScaleFold(mods, name, raw, val) == Scaled(raw, mods[k])
  {
    if mods != [] {
      var v := if Scales(mods[0], name, raw) then Scaled(raw, mods[0]) else val;
      var tail := mods[1..];
      ScaleFoldIsLast(tail, name, raw, v);
      assert ScaleFold(mods, name, raw, val) == ScaleFold(tail, name, raw, v);
      if !NoneScales(tail, name, raw) {
        var k :| LastScaling(tail, name, raw, k) &&
          ScaleFold(tail, name, raw, v) == Scaled(raw, tail[k]);
        assert mods[k + 1] == tail[k];
        forall k' | k + 1 < k' < |mods| ensures !Scales(mods[k'], name, raw) {
          assert mods[k'] == tail[k' - 1];
        }
        assert LastScaling(mods, name, raw, k + 1);
      } else {
        forall k' | 0 < k' < |mods| ensures !Scales(mods[k'], name, raw) {
          assert mods[k'] == tail[k' - 1];
        }
        if Scales(mods[0], name, raw) {
          assert LastScaling(mods, name, raw, 0);
        }
      }
    }
  }

  /** `applyEffectModifiers`: the raw delta times the multiplier of the LAST
      active modifier that scales it; the raw delta when none does, and so
      always for a zero delta. Modifiers do not compound. */
  function ModifyEffect(bs: seq<ActiveBooster>, name: string, raw: real): (r: real)
    ensures raw == 0.0 ==> r == 0.0
    ensures NoneScales(ActiveModifiers(bs), name, raw) ==> r == raw
    ensures !NoneScales(ActiveModifiers(bs), name, raw) ==>
              exists k :: LastScaling(ActiveModifiers(bs), name, raw, k) &&
                r == Scaled(raw, ActiveModifiers(bs)[k])
  {
    var mods := ActiveModifiers(bs);
    ScaleFoldIsLast(mods, name, raw, raw);
    assert raw == 0.0 ==> NoneScales(mods, name, raw);
    ScaleFold(mods, name, raw, raw)
  }

  /** Two doubling gain modifiers double a gain once, not four times. */
  lemma ModifiersDoNotCompound(name: string)
    ensures var m := Modifier(None, Some(EffectModifier(name, Gain, 2.0)));
            var b := ActiveBooster(Booster("b", [m], 3), 3);
            ModifyEffect([b, b], name, 10.0) == 20.0
  {
    var m := Modifier(None, Some(EffectModifier(name, Gain, 2.0)));
    var b := ActiveBooster(Booster("b", [m], 3), 3);
    assert [b, b][1..] == [b];
    assert ActiveModifiers([b]) == [m] by { assert [b][1..] == []; }
    assert ActiveModifiers([b, b]) == [m, m];
  }

  // ---------------------------------------------------------------------------
  // Ageing
  // ---------------------------------------------------------------------------

  function Aged(b: ActiveBooster): ActiveBooster
  {
    b.(remaining := b.remaining - 1)
  }

  /** `updateBoosters`: every booster loses one turn, and those left with a
      positive count stay, in order. */
  function Tick(bs: seq<ActiveBooster>): (r: seq<ActiveBooster>)
    ensures |r| <= |bs|
  {
    if bs == [] then []
    else (if bs[0].remaining - 1 > 0 then [Aged(bs[0])] else []) + Tick(bs[1..])
  }

  /** Ageing is applied booster by booster: it distributes over concatenation,
      so the survivors keep their relative order. */
  lemma {:induction false} TickConcat(a: seq<ActiveBooster>, b: seq<ActiveBooster>)
    ensures Tick(a + b) == Tick(a) + Tick(b)
  {
    if a == [] {
      assert a + b == b;
    } else {
      assert (a + b)[1..] == a[1..] + b;
      TickConcat(a[1..], b);
    }
  }

  /** A booster survives a tick exactly when it had more than one turn left,
      and it survives with one turn fewer. */
  lemma {:induction false} TickMembers(bs: seq<ActiveBooster>, x: ActiveBooster)
    ensures x in Tick(bs) <==> exists i :: 0 <= i < |bs| && bs[i].remaining > 1 && x == Aged(bs[i])
  {
    if bs != [] {
      TickMembers(bs[1..], x);
      if x in Tick(bs[1..]) {
        var i :| 0 <= i < |bs| - 1 && bs[1..][i].remaining > 1 && x == Aged(bs[1..][i]);
        assert bs[i + 1] == bs[1..][i];
      }
      if exists i :: 0 <= i < |bs| && bs[i].remaining > 1 && x == Aged(bs[i]) {
        var i :| 0 <= i < |bs| && bs[i].remaining > 1 && x == Aged(bs[i]);
        if i > 0 { assert bs[1..][i - 1] == bs[i]; }
      }
    }
  }

  /** Every booster left after a tick has at least one turn left. */
  lemma {:induction false} TickLeavesPositive(bs: seq<ActiveBooster>)
    ensures forall k :: 0 <= k < |Tick(bs)| ==> Tick(bs)[k].remaining > 0
  {
    if bs != [] {
      TickLeavesPositive(bs[1..]);
    }
  }
}
