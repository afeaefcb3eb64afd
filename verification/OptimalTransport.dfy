/** The least cost of carrying one mass distribution on an axis into another, against the one-pass value of
    docs/play/distance.js: cumulative sums of differences. Floating-point numbers are exact reals. */
module OptimalTransport {

  function Abs(x: real): real { if x < 0.0 then -x else x }

  function Min(x: real, y: real): real { if x <= y then x else y }

  // ---------------------------------------------------------------- the cumulative-sum value

  function Prefix(p: seq<real>, k: nat): real
    requires k <= |p|
  {
    if k == 0 then 0.0 else Prefix(p, k - 1) + p[k - 1]
  }

  function Gap(p: seq<real>, q: seq<real>, k: nat): real
    requires |p| == |q| && k <= |p|
  {
    Prefix(p, k) - Prefix(q, k)
  }

  function GapSum(p: seq<real>, q: seq<real>, k: nat): (d: real)
    requires |p| == |q| && k <= |p|
    ensures d >= 0.0
  {
    if k == 0 then 0.0 else GapSum(p, q, k - 1) + Abs(Gap(p, q, k))
  }

  function Emd(p: seq<real>, q: seq<real>): real
    requires |p| == |q|
  {
    GapSum(p, q, |p|)
  }

  // ---------------------------------------------------------------- transport plans

  datatype Shipment = Shipment(from: nat, to: nat, mass: real)

  function Distance(i: nat, j: nat): nat { if i <= j then j - i else i - j }

  function Haul(s: Shipment): real { HaulOf(s.from, s.to, s.mass) }

  function HaulOf(from: nat, to: nat, mass: real): real { mass * Distance(from, to) as real }

  function Cost(plan: seq<Shipment>): real {
    if plan == [] then 0.0 else Haul(plan[0]) + Cost(plan[1..])
  }

  function Sent(plan: seq<Shipment>, slot: nat): real {
    if plan == [] then 0.0 else (if plan[0].from == slot then plan[0].mass else 0.0) + Sent(plan[1..], slot)
  }

  function Received(plan: seq<Shipment>, slot: nat): real {
    if plan == [] then 0.0 else (if plan[0].to == slot then plan[0].mass else 0.0) + Received(plan[1..], slot)
  }

  /** The plan moves non-negative masses between slots of the axis, takes exactly p away and brings exactly q. */
  ghost predicate Carries(plan: seq<Shipment>, p: seq<real>, q: seq<real>)
    requires |p| == |q|
  {
    && (forall s :: s in plan ==> s.mass >= 0.0 && s.from < |p| && s.to < |p|)
    && (forall i :: 0 <= i < |p| ==> Sent(plan, i) == p[i])
    && (forall i :: 0 <= i < |p| ==> Received(plan, i) == q[i])
  }

  // What crosses the boundary between slots k - 1 and k.
  function SentBelow(plan: seq<Shipment>, k: nat): real {
    if plan == [] then 0.0 else (if plan[0].from < k then plan[0].mass else 0.0) + SentBelow(plan[1..], k)
  }

  function ReceivedBelow(plan: seq<Shipment>, k: nat): real {
    if plan == [] then 0.0 else (if plan[0].to < k then plan[0].mass else 0.0) + ReceivedBelow(plan[1..], k)
  }

  lemma {:induction false} BelowSteps(plan: seq<Shipment>, k: nat)
    ensures SentBelow(plan, k + 1) == SentBelow(plan, k) + Sent(plan, k)
    ensures ReceivedBelow(plan, k + 1) == ReceivedBelow(plan, k) + Received(plan, k)
  {
    if plan != [] {
      BelowSteps(plan[1..], k);
    }
  }

  lemma {:induction false} BelowZero(plan: seq<Shipment>)
    ensures SentBelow(plan, 0) == 0.0 == ReceivedBelow(plan, 0)
  {
    if plan != [] {
      BelowZero(plan[1..]);
    }
  }

  lemma {:induction false} BelowIsPrefix(plan: seq<Shipment>, p: seq<real>, q: seq<real>, k: nat)
    requires |p| == |q| && k <= |p| && Carries(plan, p, q)
    ensures SentBelow(plan, k) == Prefix(p, k) && ReceivedBelow(plan, k) == Prefix(q, k)
  {
    if k == 0 {
      BelowZero(plan);
    } else {
      BelowIsPrefix(plan, p, q, k - 1);
      BelowSteps(plan, k - 1);
    }
  }

  function Crossing(from: nat, to: nat, mass: real, k: nat): real {
    if (from < k) != (to < k) then mass else 0.0
  }

  function CrossingSum(from: nat, to: nat, mass: real, n: nat): real {
    if n == 0 then 0.0 else CrossingSum(from, to, mass, n - 1) + Crossing(from, to, mass, n)
  }

  function Upto(i: nat, n: nat): nat { if i < n then i else n }

  lemma HaulGrows(from: nat, to: nat, mass: real, n: nat)
    requires n > 0
    ensures HaulOf(Upto(from, n), Upto(to, n), mass) ==
            HaulOf(Upto(from, n - 1), Upto(to, n - 1), mass) + Crossing(from, to, mass, n)
  {
  }

  /** One unit of mass crosses exactly as many boundaries as its slot distance. */
  lemma {:induction false} CrossingSumIsHaul(from: nat, to: nat, mass: real, n: nat)
    ensures CrossingSum(from, to, mass, n) == HaulOf(Upto(from, n), Upto(to, n), mass)
  {
    if n > 0 {
      CrossingSumIsHaul(from, to, mass, n - 1);
      HaulGrows(from, to, mass, n);
    }
  }

  function FlowSum(plan: seq<Shipment>, n: nat): real {
    if n == 0 then 0.0 else FlowSum(plan, n - 1) + Abs(SentBelow(plan, n) - ReceivedBelow(plan, n))
  }

  lemma {:induction false} FlowSumHead(plan: seq<Shipment>, n: nat)
    requires plan != [] && plan[0].mass >= 0.0
    ensures FlowSum(plan, n) <= CrossingSum(plan[0].from, plan[0].to, plan[0].mass, n) + FlowSum(plan[1..], n)
  {
    if n > 0 {
      FlowSumHead(plan, n - 1);
    }
  }

  lemma {:induction false} FlowSumNil(n: nat)
    ensures FlowSum([], n) == 0.0
  {
    if n > 0 { FlowSumNil(n - 1); }
  }

  lemma {:induction false} FlowBelowCost(plan: seq<Shipment>, n: nat)
    requires forall s :: s in plan ==> s.mass >= 0.0 && s.from < n && s.to < n
    ensures FlowSum(plan, n) <= Cost(plan)
  {
    if plan == [] {
      FlowSumNil(n);
    } else {
      assert plan[0] in plan;
      FlowBelowCost(plan[1..], n);
      FlowSumHead(plan, n);
      CrossingSumIsHaul(plan[0].from, plan[0].to, plan[0].mass, n);
    }
  }

  lemma {:induction false} FlowIsGap(plan: seq<Shipment>, p: seq<real>, q: seq<real>, n: nat)
    requires |p| == |q| && n <= |p| && Carries(plan, p, q)
    ensures FlowSum(plan, n) == GapSum(p, q, n)
  {
    if n > 0 {
      FlowIsGap(plan, p, q, n - 1);
      BelowIsPrefix(plan, p, q, n);
    }
  }

  /** No plan costs less than the cumulative-sum value. */
  lemma NoPlanIsCheaper(plan: seq<Shipment>, p: seq<real>, q: seq<real>)
    requires |p| == |q| && Carries(plan, p, q)
    ensures Emd(p, q) <= Cost(plan)
  {
    FlowIsGap(plan, p, q, |p|);
    FlowBelowCost(plan, |p|);
  }

  // ---------------------------------------------------------------- a plan that attains it

  /** Masses still to be sent from slot i on, and still wanted from slot j on. */
  ghost predicate Residual(p: seq<real>, q: seq<real>, i: nat, j: nat) {
    && |p| == |q| && i <= |p| && j <= |p|
    && (forall k :: 0 <= k < |p| ==> p[k] >= 0.0 && q[k] >= 0.0)
    && (forall k :: 0 <= k < i ==> p[k] == 0.0)
    && (forall k :: 0 <= k < j ==> q[k] == 0.0)
    && Prefix(p, |p|) == Prefix(q, |q|)
  }

  lemma {:induction false} PrefixZero(p: seq<real>, k: nat)
    requires k <= |p| && forall l :: 0 <= l < k ==> p[l] == 0.0
    ensures Prefix(p, k) == 0.0
  {
    if k > 0 { PrefixZero(p, k - 1); }
  }

  lemma {:induction false} PrefixCovers(p: seq<real>, i: nat, k: nat)
    requires i < k <= |p| && forall l :: 0 <= l < |p| ==> p[l] >= 0.0
    ensures Prefix(p, k) >= p[i]
    ensures Prefix(p, k - 1) >= 0.0
    decreases k
  {
    if k - 1 > i {
      PrefixCovers(p, i, k - 1);
    } else if k > 1 {
      PrefixCovers(p, 0, k - 1);
    }
  }

  lemma {:induction false} PrefixUpdate(p: seq<real>, i: nat, m: real, k: nat)
    requires i < |p| && k <= |p|
    ensures Prefix(p[i := p[i] - m], k) == Prefix(p, k) - (if i < k then m else 0.0)
  {
    if k > 0 { PrefixUpdate(p, i, m, k - 1); }
  }

  lemma ShippingClosesGap(p: seq<real>, q: seq<real>, i: nat, j: nat, m: real, k: nat)
    requires Residual(p, q, i, j) && i < |p| && j < |p| && k <= |p|
    requires 0.0 <= m <= p[i] && m <= q[j]
    ensures Abs(Gap(p, q, k)) ==
            Abs(Gap(p[i := p[i] - m], q[j := q[j] - m], k)) + Crossing(i, j, m, k)
  {
    PrefixUpdate(p, i, m, k);
    PrefixUpdate(q, j, m, k);
    if i < k <= j {
      PrefixZero(q, k);
      PrefixCovers(p, i, k);
    } else if j < k <= i {
      PrefixZero(p, k);
      PrefixCovers(q, j, k);
    }
  }

  lemma {:induction false} ShippingSavesCost(p: seq<real>, q: seq<real>, i: nat, j: nat, m: real, k: nat)
    requires Residual(p, q, i, j) && i < |p| && j < |p| && k <= |p|
    requires 0.0 <= m <= p[i] && m <= q[j]
    ensures GapSum(p, q, k) ==
            GapSum(p[i := p[i] - m], q[j := q[j] - m], k) + CrossingSum(i, j, m, k)
  {
    if k > 0 {
      ShippingSavesCost(p, q, i, j, m, k - 1);
      ShippingClosesGap(p, q, i, j, m, k);
    }
  }

  lemma ShippingSavesHaul(p: seq<real>, q: seq<real>, s: Shipment)
    requires s.from < |p| && s.to < |p| && Residual(p, q, s.from, s.to)
    requires 0.0 <= s.mass <= p[s.from] && s.mass <= q[s.to]
    ensures Emd(p, q) == Haul(s) + Emd(p[s.from := p[s.from] - s.mass], q[s.to := q[s.to] - s.mass])
  {
    ShippingSavesCost(p, q, s.from, s.to, s.mass, |p|);
    CrossingSumIsHaul(s.from, s.to, s.mass, |p|);
  }

  lemma {:induction false} NonNegativePrefixVanishes(q: seq<real>, k: nat)
    requires k <= |q| && (forall l :: 0 <= l < |q| ==> q[l] >= 0.0) && Prefix(q, k) == 0.0
    ensures forall l :: 0 <= l < k ==> q[l] == 0.0
  {
    if k > 0 {
      PrefixCovers(q, k - 1, k);
      NonNegativePrefixVanishes(q, k - 1);
    }
  }

  lemma {:induction false} GapSumZero(p: seq<real>, q: seq<real>, k: nat)
    requires |p| == |q| && k <= |p|
    requires forall l :: 0 <= l < |p| ==> p[l] == 0.0 && q[l] == 0.0
    ensures GapSum(p, q, k) == 0.0
  {
    if k > 0 {
      GapSumZero(p, q, k - 1);
      PrefixZero(p, k);
      PrefixZero(q, k);
    }
  }

  lemma NorthWestDone(p: seq<real>, q: seq<real>, i: nat, j: nat)
    requires Residual(p, q, i, j) && (i == |p| || j == |p|)
    ensures Carries([], p, q) && Emd(p, q) == 0.0
  {
    if i == |p| {
      PrefixZero(p, |p|);
      NonNegativePrefixVanishes(q, |q|);
    } else {
      PrefixZero(q, |q|);
      NonNegativePrefixVanishes(p, |p|);
    }
    GapSumZero(p, q, |p|);
  }

  lemma ShipFirst(s: Shipment, rest: seq<Shipment>, p: seq<real>, q: seq<real>)
    requires |p| == |q| && s.from < |p| && s.to < |p| && s.mass >= 0.0
    requires Carries(rest, p[s.from := p[s.from] - s.mass], q[s.to := q[s.to] - s.mass])
    ensures Carries([s] + rest, p, q)
    ensures Cost([s] + rest) == Haul(s) + Cost(rest)
  {
    var p', q' := p[s.from := p[s.from] - s.mass], q[s.to := q[s.to] - s.mass];
    var plan := [s] + rest;
    assert plan[0] == s && plan[1..] == rest;
    forall k | 0 <= k < |p| ensures Sent(plan, k) == p[k] && Received(plan, k) == q[k] {
      assert Sent(rest, k) == p'[k] && Received(rest, k) == q'[k];
    }
  }

  lemma ShippingKeepsResidual(p: seq<real>, q: seq<real>, i: nat, j: nat)
    requires Residual(p, q, i, j) && i < |p| && j < |p|
    ensures var m := Min(p[i], q[j]);
            var p', q' := p[i := p[i] - m], q[j := q[j] - m];
            if p[i] <= q[j] then Residual(p', q', i + 1, j) else Residual(p', q', i, j + 1)
  {
    var m := Min(p[i], q[j]);
    PrefixUpdate(p, i, m, |p|);
    PrefixUpdate(q, j, m, |q|);
  }

  lemma ShipThenAttain(p: seq<real>, q: seq<real>, s: Shipment, rest: seq<Shipment>)
    requires s.from < |p| && s.to < |p| && Residual(p, q, s.from, s.to)
    requires 0.0 <= s.mass <= p[s.from] && s.mass <= q[s.to]
    requires Carries(rest, p[s.from := p[s.from] - s.mass], q[s.to := q[s.to] - s.mass])
    requires Cost(rest) == Emd(p[s.from := p[s.from] - s.mass], q[s.to := q[s.to] - s.mass])
    ensures Carries([s] + rest, p, q) && Cost([s] + rest) == Emd(p, q)
  {
    ShippingSavesHaul(p, q, s);
    ShipFirst(s, rest, p, q);
  }

  /** The north-west plan fills the first wanting slot from the first slot that still has mass. */
  lemma {:induction false} NorthWestAttains(p: seq<real>, q: seq<real>, i: nat, j: nat) returns (plan: seq<Shipment>)
    requires Residual(p, q, i, j)
    ensures Carries(plan, p, q) && Cost(plan) == Emd(p, q)
    decreases 2 * |p| - i - j
  {
    if i == |p| || j == |p| {
      NorthWestDone(p, q, i, j);
      plan := [];
    } else {
      var m := Min(p[i], q[j]);
      var p', q' := p[i := p[i] - m], q[j := q[j] - m];
      ShippingKeepsResidual(p, q, i, j);
      var rest := NorthWestAttains(p', q', if p[i] <= q[j] then i + 1 else i, if p[i] <= q[j] then j else j + 1);
      ShipThenAttain(p, q, Shipment(i, j, m), rest);
      plan := [Shipment(i, j, m)] + rest;
    }
  }

  /** Non-negative masses with the same total, as two normalized compositions are. */
  ghost predicate Comparable(p: seq<real>, q: seq<real>) {
    && |p| == |q|
    && (forall k :: 0 <= k < |p| ==> p[k] >= 0.0 && q[k] >= 0.0)
    && Prefix(p, |p|) == Prefix(q, |q|)
  }

  /** The cumulative-sum value is the optimal-transport minimum: it is the cost of some plan and at most the
      cost of every plan. */
  lemma EmdIsOptimalTransport(p: seq<real>, q: seq<real>)
    requires Comparable(p, q)
    ensures exists plan :: Carries(plan, p, q) && Cost(plan) == Emd(p, q)
    ensures forall plan :: Carries(plan, p, q) ==> Emd(p, q) <= Cost(plan)
  {
    var plan := NorthWestAttains(p, q, 0, 0);
    forall other | Carries(other, p, q) ensures Emd(p, q) <= Cost(other) {
      NoPlanIsCheaper(other, p, q);
    }
  }

  // ---------------------------------------------------------------- a metric

  lemma {:induction false} GapSumSymmetric(p: seq<real>, q: seq<real>, k: nat)
    requires |p| == |q| && k <= |p|
    ensures GapSum(p, q, k) == GapSum(q, p, k)
  {
    if k > 0 { GapSumSymmetric(p, q, k - 1); }
  }

  lemma {:induction false} GapSumTriangle(p: seq<real>, q: seq<real>, r: seq<real>, k: nat)
    requires |p| == |q| == |r| && k <= |p|
    ensures GapSum(p, r, k) <= GapSum(p, q, k) + GapSum(q, r, k)
  {
    if k > 0 { GapSumTriangle(p, q, r, k - 1); }
  }

  lemma {:induction false} GapSumVanishes(p: seq<real>, q: seq<real>, k: nat)
    requires |p| == |q| && k <= |p|
    ensures GapSum(p, q, k) == 0.0 <==> forall l :: 0 <= l < k ==> p[l] == q[l]
    ensures GapSum(p, q, k) == 0.0 ==> Gap(p, q, k) == 0.0
  {
    if k > 0 {
      GapSumVanishes(p, q, k - 1);
      if forall l :: 0 <= l < k ==> p[l] == q[l] {
        assert Gap(p, q, k) == Gap(p, q, k - 1);
      }
    }
  }

  /** Two axes of any length, any real masses: symmetric, triangle inequality, zero exactly on equal axes. */
  lemma EmdIsMetric(p: seq<real>, q: seq<real>, r: seq<real>)
    requires |p| == |q| == |r|
    ensures Emd(p, q) >= 0.0
    ensures Emd(p, q) == Emd(q, p)
    ensures Emd(p, r) <= Emd(p, q) + Emd(q, r)
    ensures Emd(p, q) == 0.0 <==> p == q
  {
    GapSumSymmetric(p, q, |p|);
    GapSumTriangle(p, q, r, |p|);
    GapSumVanishes(p, q, |p|);
  }
}
