/** The element mover's distance of docs/play/distance.js: the shares of two compositions on the Pettifor axis, and
    one pass of cumulative sums over their differences. Floating-point numbers are exact reals. */
module ElementMover {
  import opened Wrappers
  import opened OptimalTransport
  import opened PettiforScale

  const AXIS: nat := 104

  // A composition lists its elements in the order the page's for-in loop meets them.
  datatype Part = Part(element: Element, amount: real)
  type Composition = seq<Part>

  // ---------------------------------------------------------------- compositions as masses on the axis

  // The same list with each element named by its slot.
  type Load = seq<(nat, real)>

  function LoadOf(c: Composition): (l: Load)
    ensures |l| == |c|
    ensures forall k :: 0 <= k < |c| ==> l[k] == (Slot(c[k].element), c[k].amount)
  {
    if c == [] then [] else LoadOf(c[..|c| - 1]) + [(Slot(c[|c| - 1].element), c[|c| - 1].amount)]
  }

  function Total(l: Load): real {
    if l == [] then 0.0 else Total(l[..|l| - 1]) + l[|l| - 1].1
  }

  function AmountAt(l: Load, slot: nat): real {
    if l == [] then 0.0
    else AmountAt(l[..|l| - 1], slot) + (if l[|l| - 1].0 == slot then l[|l| - 1].1 else 0.0)
  }

  /** A composition with parts but no total divides by zero, and the result is not a number. */
  predicate HasMass(l: Load) {
    l == [] || Total(l) != 0.0
  }

  function Axis(l: Load): (p: seq<real>)
    requires HasMass(l)
    ensures |p| == AXIS
  {
    seq(AXIS, (i: nat) => if l == [] then 0.0 else Share(l, i, Total(l)))
  }

  function Share(l: Load, slot: nat, total: real): real
    requires total != 0.0
  {
    AmountAt(l, slot) / total
  }

  lemma ShareAdds(x: real, y: real, t: real)
    requires t != 0.0
    ensures (x + y) / t == x / t + y / t
  {
  }

  lemma ShareStep(l: Load, k: nat, slot: nat, total: real)
    requires k < |l| && total != 0.0
    ensures Share(l[..k + 1], slot, total) ==
            Share(l[..k], slot, total) + (if l[k].0 == slot then l[k].1 / total else 0.0)
  {
    assert l[..k + 1][..k] == l[..k];
    ShareAdds(AmountAt(l[..k], slot), l[k].1, total);
  }

  ghost predicate SharesOf(shares: seq<real>, l: Load, total: real)
    requires total != 0.0
  {
    |shares| == AXIS && forall i :: 0 <= i < AXIS ==> shares[i] == Share(l, i, total)
  }

  lemma SharesStart(shares: seq<real>, total: real)
    requires total != 0.0 && |shares| == AXIS && forall i :: 0 <= i < AXIS ==> shares[i] == 0.0
    ensures SharesOf(shares, [], total)
  {
  }

  lemma SharesStep(shares: seq<real>, l: Load, k: nat, total: real)
    requires k < |l| && l[k].0 < AXIS && total != 0.0 && SharesOf(shares, l[..k], total)
    ensures SharesOf(shares[l[k].0 := shares[l[k].0] + l[k].1 / total], l[..k + 1], total)
  {
    forall i: nat | i < AXIS
      ensures Share(l[..k + 1], i, total) == Share(l[..k], i, total) + (if i == l[k].0 then l[k].1 / total else 0.0)
    {
      ShareStep(l, k, i, total);
    }
  }

  /** The first loop of `axis`. */
  method SumAmounts(c: Composition) returns (total: real)
    ensures total == Total(LoadOf(c))
  {
    ghost var load := LoadOf(c);
    total := 0.0;
    for k := 0 to |c|
      invariant total == Total(load[..k])
    {
      assert load[..k + 1][..k] == load[..k];
      total := total + c[k].amount;
    }
    assert load[..|c|] == load;
  }

  /** The second loop of `axis`, over an axis of zeros. */
  method AddShares(c: Composition, total: real, axis: array<real>)
    requires axis.Length == AXIS && total != 0.0 && SharesOf(axis[..], [], total)
    modifies axis
    ensures SharesOf(axis[..], LoadOf(c), total)
  {
    ghost var load := LoadOf(c);
    for k := 0 to |c|
      invariant SharesOf(axis[..], load[..k], total)
    {
      var slot := Slot(c[k].element);
      SharesStep(axis[..], load, k, total);
      ghost var before := axis[..];
      axis[slot] := axis[slot] + c[k].amount / total;
      assert axis[..] == before[slot := before[slot] + c[k].amount / total];
    }
    assert load[..|c|] == load;
  }

  /** The inner function `axis`. None stands for shares that are not numbers, the quotients by a total of zero. */
  method FillAxis(c: Composition) returns (axis: Option<array<real>>)
    ensures axis.Some? <==> HasMass(LoadOf(c))
    ensures axis.Some? ==> fresh(axis.value) && axis.value[..] == Axis(LoadOf(c))
  {
    var total := SumAmounts(c);
    if c != [] && total == 0.0 {
      return None;
    }
    var shares := new real[AXIS](_ => 0.0);
    if c != [] {
      SharesStart(shares[..], total);
      AddShares(c, total, shares);
    }
    axis := Some(shares);
  }

  /** compElmd. None stands for NaN. */
  method CompElmd(a: Composition, b: Composition) returns (d: Option<real>)
    ensures d.Some? <==> HasMass(LoadOf(a)) && HasMass(LoadOf(b))
    ensures d.Some? ==> d.value == Emd(Axis(LoadOf(a)), Axis(LoadOf(b)))
  {
    var sharesA := FillAxis(a);
    var sharesB := FillAxis(b);
    if sharesA.None? || sharesB.None? {
      return None;
    }
    var pa, pb := sharesA.value, sharesB.value;
    ghost var p, q := pa[..], pb[..];
    var cum, sum := 0.0, 0.0;
    for i := 0 to AXIS
      invariant pa[..] == p && pb[..] == q
      invariant cum == Gap(p, q, i)
      invariant sum == GapSum(p, q, i)
    {
      assert pa[i] == p[i] && pb[i] == q[i];
      cum := cum + (pa[i] - pb[i]);
      sum := sum + Abs(cum);
    }
    d := Some(sum);
  }

  // ---------------------------------------------------------------- what distance zero means

  function AmountOf(c: Composition, e: Element): real {
    if c == [] then 0.0
    else AmountOf(c[..|c| - 1], e) + (if c[|c| - 1].element == e then c[|c| - 1].amount else 0.0)
  }

  lemma {:induction false} AmountAtSlot(c: Composition, e: Element)
    ensures AmountAt(LoadOf(c), Slot(e)) == AmountOf(c, e)
  {
    if c != [] {
      AmountAtSlot(c[..|c| - 1], e);
      assert LoadOf(c)[..|c| - 1] == LoadOf(c[..|c| - 1]);
      SlotInvertible(e);
      SlotInvertible(c[|c| - 1].element);
    }
  }

  lemma {:induction false} AmountOffScale(l: Load, slot: nat)
    requires forall k :: 0 <= k < |l| ==> l[k].0 != slot
    ensures AmountAt(l, slot) == 0.0
  {
    if l != [] { AmountOffScale(l[..|l| - 1], slot); }
  }

  function ShareOf(c: Composition, e: Element): real
    requires HasMass(LoadOf(c))
  {
    if c == [] then 0.0 else AmountOf(c, e) / Total(LoadOf(c))
  }

  lemma AxisAt(l: Load, slot: nat)
    requires HasMass(l) && slot < AXIS
    ensures Axis(l)[slot] == if l == [] then 0.0 else AmountAt(l, slot) / Total(l)
  {
  }

  lemma ShareAtSlot(c: Composition, e: Element)
    requires HasMass(LoadOf(c))
    ensures Axis(LoadOf(c))[Slot(e)] == ShareOf(c, e)
  {
    AmountAtSlot(c, e);
    AxisAt(LoadOf(c), Slot(e));
  }

  lemma ShareOffScale(c: Composition, i: nat)
    requires HasMass(LoadOf(c)) && i < AXIS
    requires forall e: Element :: Slot(e) != i
    ensures Axis(LoadOf(c))[i] == 0.0
  {
    AmountOffScale(LoadOf(c), i);
  }

  /** Distance zero exactly when every element has the same share of both compositions. */
  lemma ZeroIffSameShares(a: Composition, b: Composition)
    requires HasMass(LoadOf(a)) && HasMass(LoadOf(b))
    ensures Emd(Axis(LoadOf(a)), Axis(LoadOf(b))) == 0.0 <==>
            forall e: Element :: ShareOf(a, e) == ShareOf(b, e)
  {
    var p, q := Axis(LoadOf(a)), Axis(LoadOf(b));
    EmdIsMetric(p, q, q);
    forall e: Element ensures p[Slot(e)] == ShareOf(a, e) && q[Slot(e)] == ShareOf(b, e) {
      ShareAtSlot(a, e);
      ShareAtSlot(b, e);
    }
    if forall e: Element :: ShareOf(a, e) == ShareOf(b, e) {
      forall i: nat | i < AXIS ensures p[i] == q[i] {
        if e: Element :| Slot(e) == i {
          assert ShareOf(a, e) == ShareOf(b, e);
        } else {
          ShareOffScale(a, i);
          ShareOffScale(b, i);
        }
      }
    }
  }

  // ---------------------------------------------------------------- scaling a formula unit

  // Multiplication by a fixed factor, and the one property of it that sums need.
  function By(f: real): real -> real { (x: real) => x * f }

  ghost predicate Adds(g: real -> real, x: real, y: real) { g(x + y) == g(x) + g(y) }

  ghost predicate Additive(g: real -> real) {
    g(0.0) == 0.0 && forall x, y :: Adds(g, x, y)
  }

  lemma ByAdds(f: real, x: real, y: real)
    ensures Adds(By(f), x, y)
  {
  }

  lemma ByIsAdditive(f: real)
    ensures Additive(By(f))
  {
    forall x, y ensures Adds(By(f), x, y) {
      ByAdds(f, x, y);
    }
  }

  function Scaled(l: Load, g: real -> real): (r: Load)
    ensures |r| == |l|
  {
    if l == [] then [] else Scaled(l[..|l| - 1], g) + [(l[|l| - 1].0, g(l[|l| - 1].1))]
  }

  lemma {:induction false} ScaledTotal(l: Load, g: real -> real)
    requires Additive(g)
    ensures Total(Scaled(l, g)) == g(Total(l))
  {
    if l != [] {
      assert Scaled(l, g)[..|l| - 1] == Scaled(l[..|l| - 1], g);
      ScaledTotal(l[..|l| - 1], g);
      assert Adds(g, Total(l[..|l| - 1]), l[|l| - 1].1);
    }
  }

  lemma {:induction false} ScaledAmount(l: Load, g: real -> real, slot: nat)
    requires Additive(g)
    ensures AmountAt(Scaled(l, g), slot) == g(AmountAt(l, slot))
  {
    if l != [] {
      assert Scaled(l, g)[..|l| - 1] == Scaled(l[..|l| - 1], g);
      ScaledAmount(l[..|l| - 1], g, slot);
      assert Adds(g, AmountAt(l[..|l| - 1], slot), if l[|l| - 1].0 == slot then l[|l| - 1].1 else 0.0);
    }
  }

  lemma QuotientScales(x: real, t: real, f: real)
    requires t != 0.0 && f != 0.0
    ensures By(f)(t) != 0.0 && By(f)(x) / By(f)(t) == x / t
  {
    var y := x / t;
    assert x == y * t;
    assert x * f == y * (t * f);
  }

  lemma ScaledShare(l: Load, f: real, slot: nat)
    requires Total(l) != 0.0 && f != 0.0
    ensures Total(Scaled(l, By(f))) != 0.0
    ensures Share(Scaled(l, By(f)), slot, Total(Scaled(l, By(f)))) == Share(l, slot, Total(l))
  {
    ByIsAdditive(f);
    ScaledTotal(l, By(f));
    ScaledAmount(l, By(f), slot);
    QuotientScales(AmountAt(l, slot), Total(l), f);
  }

  /** Scaling a formula unit by any non-zero factor leaves its axis, and so every distance, unchanged. */
  lemma FormulaUnitInvariant(l: Load, f: real)
    requires HasMass(l) && f != 0.0
    ensures HasMass(Scaled(l, By(f))) && Axis(Scaled(l, By(f))) == Axis(l)
  {
    if l != [] {
      forall i: nat | i < AXIS
        ensures Total(Scaled(l, By(f))) != 0.0
        ensures Share(Scaled(l, By(f)), i, Total(Scaled(l, By(f)))) == Share(l, i, Total(l))
      {
        ScaledShare(l, f, i);
      }
      ScaledShare(l, f, 0);
    }
  }

  /** A formula unit with every amount changed by g. */
  function Rescaled(c: Composition, g: real -> real): (r: Composition)
    ensures |r| == |c|
  {
    if c == [] then [] else Rescaled(c[..|c| - 1], g) + [Part(c[|c| - 1].element, g(c[|c| - 1].amount))]
  }

  lemma {:induction false} LoadOfRescaled(c: Composition, g: real -> real)
    ensures LoadOf(Rescaled(c, g)) == Scaled(LoadOf(c), g)
  {
    if c != [] {
      var init, last := c[..|c| - 1], c[|c| - 1];
      var slot := Slot(last.element);
      LoadOfRescaled(init, g);
      assert Rescaled(c, g)[..|c| - 1] == Rescaled(init, g);
      assert LoadOf(Rescaled(c, g)) == LoadOf(Rescaled(init, g)) + [(slot, g(last.amount))];
      assert LoadOf(c) == LoadOf(init) + [(slot, last.amount)];
      assert LoadOf(c)[..|c| - 1] == LoadOf(init);
    }
  }

  /** The distance of two compositions does not depend on the formula units they are written in. */
  lemma DistanceIgnoresUnits(a: Composition, b: Composition, f: real, g: real)
    requires HasMass(LoadOf(a)) && HasMass(LoadOf(b)) && f != 0.0 && g != 0.0
    ensures HasMass(LoadOf(Rescaled(a, By(f)))) && HasMass(LoadOf(Rescaled(b, By(g))))
    ensures Emd(Axis(LoadOf(Rescaled(a, By(f)))), Axis(LoadOf(Rescaled(b, By(g))))) ==
            Emd(Axis(LoadOf(a)), Axis(LoadOf(b)))
  {
    LoadOfRescaled(a, By(f));
    LoadOfRescaled(b, By(g));
    FormulaUnitInvariant(LoadOf(a), f);
    FormulaUnitInvariant(LoadOf(b), g);
  }

  // ---------------------------------------------------------------- the minimum, for two formulas

  function SlotTotal(l: Load, k: nat): real {
    if k == 0 then 0.0 else SlotTotal(l, k - 1) + AmountAt(l, k - 1)
  }

  lemma {:induction false} SlotTotalStep(l: Load, k: nat)
    requires l != []
    ensures SlotTotal(l, k) == SlotTotal(l[..|l| - 1], k) + (if l[|l| - 1].0 < k then l[|l| - 1].1 else 0.0)
  {
    if k > 0 { SlotTotalStep(l, k - 1); }
  }

  lemma {:induction false} SlotTotalNil(k: nat)
    ensures SlotTotal([], k) == 0.0
  {
    if k > 0 { SlotTotalNil(k - 1); }
  }

  lemma {:induction false} SlotTotalIsTotal(l: Load, n: nat)
    requires forall k :: 0 <= k < |l| ==> l[k].0 < n
    ensures SlotTotal(l, n) == Total(l)
  {
    if l == [] {
      SlotTotalNil(n);
    } else {
      SlotTotalStep(l, n);
      SlotTotalIsTotal(l[..|l| - 1], n);
    }
  }

  lemma {:induction false} AxisPrefix(l: Load, p: seq<real>, k: nat)
    requires l != [] && Total(l) != 0.0 && p == Axis(l) && k <= |p|
    ensures Prefix(p, k) == SlotTotal(l, k) / Total(l)
  {
    if k > 0 {
      AxisPrefix(l, p, k - 1);
      ShareAdds(SlotTotal(l, k - 1), AmountAt(l, k - 1), Total(l));
    }
  }

  lemma {:induction false} AmountsNonNegative(l: Load, slot: nat)
    requires forall k :: 0 <= k < |l| ==> l[k].1 >= 0.0
    ensures AmountAt(l, slot) >= 0.0
  {
    if l != [] { AmountsNonNegative(l[..|l| - 1], slot); }
  }

  ghost predicate Normalized(p: seq<real>) {
    Prefix(p, |p|) == 1.0 && forall i :: 0 <= i < |p| ==> p[i] >= 0.0
  }

  lemma QuotientSign(x: real, t: real)
    requires x >= 0.0 && t > 0.0
    ensures x / t >= 0.0 && t / t == 1.0
  {
  }

  lemma AxisNormalized(l: Load)
    requires Total(l) > 0.0 && forall k :: 0 <= k < |l| ==> l[k].0 < AXIS && l[k].1 >= 0.0
    ensures Normalized(Axis(l))
  {
    var p, total := Axis(l), Total(l);
    AxisPrefix(l, p, |p|);
    SlotTotalIsTotal(l, |p|);
    QuotientSign(0.0, total);
    forall i: nat | i < |p| ensures p[i] >= 0.0 {
      AmountsNonNegative(l, i);
      QuotientSign(AmountAt(l, i), total);
    }
  }

  /** A formula the page compares: every amount non-negative and a positive total. */
  ghost predicate Formula(c: Composition) {
    Total(LoadOf(c)) > 0.0 && forall k :: 0 <= k < |c| ==> c[k].amount >= 0.0
  }

  lemma FormulaNormalized(c: Composition)
    requires Formula(c)
    ensures Normalized(Axis(LoadOf(c)))
  {
    AxisNormalized(LoadOf(c));
  }

  /** What the page shows for two formulas with positive totals is the least cost of carrying one into the
      other. */
  lemma FormulaDistanceIsOptimal(a: Composition, b: Composition, p: seq<real>, q: seq<real>)
    requires Formula(a) && Formula(b)
    requires p == Axis(LoadOf(a)) && q == Axis(LoadOf(b))
    ensures exists plan :: Carries(plan, p, q) && Cost(plan) == Emd(p, q)
    ensures forall plan :: Carries(plan, p, q) ==> Emd(p, q) <= Cost(plan)
  {
    FormulaNormalized(a);
    FormulaNormalized(b);
    EmdIsOptimalTransport(p, q);
  }
}
