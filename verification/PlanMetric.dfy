/** omdc/metrics/ot.py on symmetry-exact sets: the least cost of a transport plan is a metric on weighted sets. Plans
    between two sets and between the second and a third are glued into one between the first and the third. */
module PlanMetric {
  import opened OptimalTransport
  import opened PooledBound

  /** What the ground distance is: the length of a difference, for a norm. */
  ghost predicate GroundNorm(norm: Vector -> real, d: nat) {
    && Norm(norm, d)
    && (forall a :: |a| == d ==> Even(norm, a))
    && (forall a :: |a| == d && norm(a) == 0.0 ==> a == Zero(d))
  }

  ghost predicate Even(norm: Vector -> real, a: Vector) { norm(Scaled(-1.0, a)) == norm(a) }

  lemma GroundIsMetric(norm: Vector -> real, d: nat, a: Vector, b: Vector, c: Vector)
    requires Norm(norm, d) && |a| == |b| == |c| == d
    ensures Ground(norm, a, c) <= Ground(norm, a, b) + Ground(norm, b, c)
    ensures Ground(norm, a, a) == 0.0
  {
    assert Minus(a, c) == Plus(Minus(a, b), Minus(b, c));
    assert Triangle(norm, Minus(a, b), Minus(b, c));
    assert Minus(a, a) == Zero(d);
  }

  lemma Reversed(a: Vector, b: Vector)
    requires |a| == |b|
    ensures Minus(b, a) == Scaled(-1.0, Minus(a, b))
  {
  }

  lemma GroundSymmetric(norm: Vector -> real, d: nat, a: Vector, b: Vector)
    requires GroundNorm(norm, d) && |a| == |b| == d
    ensures Ground(norm, a, b) == Ground(norm, b, a)
  {
    Reversed(a, b);
    assert Even(norm, Minus(a, b));
  }

  lemma GroundNonNegative(norm: Vector -> real, d: nat, a: Vector, b: Vector)
    requires GroundNorm(norm, d) && |a| == |b| == d
    ensures Ground(norm, a, b) >= 0.0
  {
    GroundSymmetric(norm, d, a, b);
    GroundIsMetric(norm, d, a, b, a);
  }

  lemma GroundZero(norm: Vector -> real, d: nat, a: Vector, b: Vector)
    requires GroundNorm(norm, d) && |a| == |b| == d
    ensures Ground(norm, a, b) == 0.0 <==> a == b
  {
    GroundIsMetric(norm, d, a, b, a);
    if Ground(norm, a, b) == 0.0 {
      assert Minus(a, b) == Zero(d);
      forall i | 0 <= i < d ensures a[i] == b[i] {
        assert Minus(a, b)[i] == 0.0;
      }
    }
  }

  // ---------------------------------------------------------------- plans, rearranged

  lemma {:induction false} JoinedTotals(a: seq<Shipment>, b: seq<Shipment>, i: nat)
    ensures Sent(a + b, i) == Sent(a, i) + Sent(b, i) && Received(a + b, i) == Received(a, i) + Received(b, i)
  {
    if a == [] {
      assert a + b == b;
    } else {
      assert (a + b)[1..] == a[1..] + b;
      JoinedTotals(a[1..], b, i);
    }
  }

  lemma {:induction false} JoinedCost(a: seq<Shipment>, b: seq<Shipment>, x: seq<Vector>, y: seq<Vector>,
                                      norm: Vector -> real, d: nat)
    requires Vectors(x, d) && Vectors(y, d) && Fits(a, |x|, |y|) && Fits(b, |x|, |y|)
    ensures PlanCost(a + b, x, y, norm, d) == PlanCost(a, x, y, norm, d) + PlanCost(b, x, y, norm, d)
  {
    if a == [] {
      assert a + b == b;
    } else {
      assert (a + b)[1..] == a[1..] + b;
      JoinedCost(a[1..], b, x, y, norm, d);
    }
  }

  /** Two plans with the same totals and the same cost. */
  ghost predicate Alike(p: seq<Shipment>, q: seq<Shipment>, x: seq<Vector>, y: seq<Vector>, norm: Vector -> real,
                        d: nat)
    requires Vectors(x, d) && Vectors(y, d) && Fits(p, |x|, |y|) && Fits(q, |x|, |y|)
  {
    && SameSent(p, q) && SameReceived(p, q)
    && PlanCost(p, x, y, norm, d) == PlanCost(q, x, y, norm, d)
  }

  ghost predicate SameSent(p: seq<Shipment>, q: seq<Shipment>) { forall i: nat :: Sent(p, i) == Sent(q, i) }

  ghost predicate SameReceived(p: seq<Shipment>, q: seq<Shipment>) {
    forall i: nat :: Received(p, i) == Received(q, i)
  }

  function ToFront(p: seq<Shipment>, t: nat): seq<Shipment>
    requires t < |p|
  {
    [p[t]] + (p[..t] + p[t + 1..])
  }

  lemma FrontAlike(p: seq<Shipment>, t: nat, x: seq<Vector>, y: seq<Vector>, norm: Vector -> real, d: nat)
    requires t < |p| && Vectors(x, d) && Vectors(y, d) && Fits(p, |x|, |y|)
    ensures Fits(ToFront(p, t), |x|, |y|) && Alike(ToFront(p, t), p, x, y, norm, d)
  {
    var one, a, b := [p[t]], p[..t], p[t + 1..];
    assert p == a + (one + b);
    forall i: nat ensures Sent(ToFront(p, t), i) == Sent(p, i) && Received(ToFront(p, t), i) == Received(p, i) {
      JoinedTotals(a, one + b, i);
      JoinedTotals(one, b, i);
      JoinedTotals(one, a + b, i);
      JoinedTotals(a, b, i);
    }
    JoinedCost(a, one + b, x, y, norm, d);
    JoinedCost(one, b, x, y, norm, d);
    JoinedCost(one, a + b, x, y, norm, d);
    JoinedCost(a, b, x, y, norm, d);
  }

  lemma {:induction false} TotalsNonNegative(p: seq<Shipment>, m: nat, n: nat, i: nat)
    requires Fits(p, m, n)
    ensures Sent(p, i) >= 0.0 && Received(p, i) >= 0.0
  {
    if p != [] { TotalsNonNegative(p[1..], m, n, i); }
  }

  lemma {:induction false} SomeLeaves(p: seq<Shipment>, j: nat) returns (t: nat)
    requires Sent(p, j) > 0.0
    ensures t < |p| && p[t].from == j && p[t].mass > 0.0
  {
    if p[0].from == j && p[0].mass > 0.0 {
      t := 0;
    } else {
      var k := SomeLeaves(p[1..], j);
      t := k + 1;
    }
  }

  /** A plan that takes nothing away brings nothing and costs nothing. */
  lemma {:induction false} NothingMoves(p: seq<Shipment>, x: seq<Vector>, y: seq<Vector>, norm: Vector -> real, d: nat)
    requires Vectors(x, d) && Vectors(y, d) && Fits(p, |x|, |y|)
    requires forall i :: 0 <= i < |x| ==> Sent(p, i) <= 0.0
    ensures PlanCost(p, x, y, norm, d) == 0.0 && forall i: nat :: Received(p, i) == 0.0
  {
    if p != [] {
      forall i | 0 <= i < |x| ensures Sent(p[1..], i) <= 0.0 {
        assert Sent(p, i) <= 0.0;
      }
      NothingMoves(p[1..], x, y, norm, d);
      TotalsNonNegative(p[1..], |x|, |y|, p[0].from);
      assert Sent(p, p[0].from) <= 0.0;
      assert p[0].mass == 0.0;
    }
  }

  // ---------------------------------------------------------------- gluing

  /** What remains of a plan once m of its first shipment is gone. */
  function Less(p: seq<Shipment>, m: real): seq<Shipment>
    requires p != []
  {
    if m == p[0].mass then p[1..] else [p[0].(mass := p[0].mass - m)] + p[1..]
  }

  lemma LessTotals(p: seq<Shipment>, m: real, i: nat)
    requires p != []
    ensures Sent(p, i) == (if p[0].from == i then m else 0.0) + Sent(Less(p, m), i)
    ensures Received(p, i) == (if p[0].to == i then m else 0.0) + Received(Less(p, m), i)
  {
  }

  lemma SplitMass(all: real, m: real, less: real, g: real)
    requires less == all - m
    ensures Freight(all, g) == Freight(m, g) + Freight(less, g)
  {
  }

  lemma FirstCost(p: seq<Shipment>, x: seq<Vector>, y: seq<Vector>, norm: Vector -> real, d: nat)
    requires p != [] && Vectors(x, d) && Vectors(y, d) && Fits(p, |x|, |y|)
    ensures PlanCost(p, x, y, norm, d) ==
            Freight(p[0].mass, Ground(norm, x[p[0].from], y[p[0].to])) + PlanCost(p[1..], x, y, norm, d)
  {
  }

  lemma LessFits(p: seq<Shipment>, m: real, k: nat, n: nat)
    requires p != [] && Fits(p, k, n) && m <= p[0].mass
    ensures Fits(Less(p, m), k, n)
  {
  }

  lemma LessCost(p: seq<Shipment>, m: real, x: seq<Vector>, y: seq<Vector>, norm: Vector -> real, d: nat)
    requires p != [] && Vectors(x, d) && Vectors(y, d) && Fits(p, |x|, |y|) && m <= p[0].mass
    requires Fits(Less(p, m), |x|, |y|)
    ensures PlanCost(p, x, y, norm, d) ==
            Freight(m, Ground(norm, x[p[0].from], y[p[0].to])) + PlanCost(Less(p, m), x, y, norm, d)
  {
    FirstCost(p, x, y, norm, d);
    if m != p[0].mass {
      var q := Less(p, m);
      FirstCost(q, x, y, norm, d);
      assert q[1..] == p[1..];
      SplitMass(p[0].mass, m, q[0].mass, Ground(norm, x[p[0].from], y[p[0].to]));
    }
  }

  /** Through a middle point the way is not shorter. */
  lemma StepCost(m: real, norm: Vector -> real, d: nat, a: Vector, b: Vector, c: Vector)
    requires m >= 0.0 && Norm(norm, d) && |a| == |b| == |c| == d
    ensures Freight(m, Ground(norm, a, c)) <= Freight(m, Ground(norm, a, b)) + Freight(m, Ground(norm, b, c))
  {
    GroundIsMetric(norm, d, a, b, c);
    Grows(m, Ground(norm, a, c), Ground(norm, a, b) + Ground(norm, b, c));
    Spreads(m, Ground(norm, a, b), Ground(norm, b, c));
  }

  lemma Grows(m: real, s: real, t: real)
    requires m >= 0.0 && s <= t
    ensures Freight(m, s) <= Freight(m, t)
  {
  }

  lemma Spreads(m: real, s: real, t: real)
    ensures Freight(m, s + t) == Freight(m, s) + Freight(m, t)
  {
  }

  /** The second plan takes from every middle point exactly what the first brings there. */
  ghost predicate Meet(p: seq<Shipment>, q: seq<Shipment>, n: nat) {
    forall j :: 0 <= j < n ==> Received(p, j) == Sent(q, j)
  }

  /** r goes from where p starts to where q ends and costs at most both. */
  ghost predicate Glued(r: seq<Shipment>, p: seq<Shipment>, q: seq<Shipment>, x: seq<Vector>, y: seq<Vector>,
                        z: seq<Vector>, norm: Vector -> real, d: nat)
    requires Vectors(x, d) && Vectors(y, d) && Vectors(z, d) && Fits(p, |x|, |y|) && Fits(q, |y|, |z|)
  {
    && Fits(r, |x|, |z|) && SameSent(r, p) && SameReceived(r, q)
    && PlanCost(r, x, z, norm, d) <= PlanCost(p, x, y, norm, d) + PlanCost(q, y, z, norm, d)
  }

  lemma CostsAdd(through: real, first: real, second: real, r: real, p: real, q: real)
    requires through <= first + second && r <= p + q
    ensures through + r <= (first + p) + (second + q)
  {
  }

  lemma GlueTotals(p: seq<Shipment>, q: seq<Shipment>, m: real, r: seq<Shipment>)
    requires p != [] && q != [] && SameSent(r, Less(p, m)) && SameReceived(r, Less(q, m))
    ensures SameSent([Shipment(p[0].from, q[0].to, m)] + r, p)
    ensures SameReceived([Shipment(p[0].from, q[0].to, m)] + r, q)
  {
    var out := [Shipment(p[0].from, q[0].to, m)] + r;
    assert out[1..] == r;
    forall i: nat ensures Sent(out, i) == Sent(p, i) && Received(out, i) == Received(q, i) {
      LessTotals(p, m, i);
      LessTotals(q, m, i);
      assert Sent(r, i) == Sent(Less(p, m), i) && Received(r, i) == Received(Less(q, m), i);
    }
  }

  /** One shipment through: m of p's first joined to m of q's first, then the rest. */
  lemma GlueStep(p: seq<Shipment>, q: seq<Shipment>, m: real, r: seq<Shipment>, x: seq<Vector>, y: seq<Vector>,
                 z: seq<Vector>, norm: Vector -> real, d: nat)
    requires Vectors(x, d) && Vectors(y, d) && Vectors(z, d) && Norm(norm, d)
    requires p != [] && q != [] && Fits(p, |x|, |y|) && Fits(q, |y|, |z|) && p[0].to == q[0].from
    requires 0.0 <= m <= p[0].mass && m <= q[0].mass
    requires Fits(Less(p, m), |x|, |y|) && Fits(Less(q, m), |y|, |z|)
    requires Glued(r, Less(p, m), Less(q, m), x, y, z, norm, d)
    ensures Glued([Shipment(p[0].from, q[0].to, m)] + r, p, q, x, y, z, norm, d)
  {
    var s := Shipment(p[0].from, q[0].to, m);
    var a, b, c := x[p[0].from], y[p[0].to], z[q[0].to];
    GlueTotals(p, q, m, r);
    FirstCost([s] + r, x, z, norm, d);
    assert ([s] + r)[1..] == r;
    LessCost(p, m, x, y, norm, d);
    LessCost(q, m, y, z, norm, d);
    StepCost(m, norm, d, a, b, c);
    CostsAdd(Freight(m, Ground(norm, a, c)), Freight(m, Ground(norm, a, b)), Freight(m, Ground(norm, b, c)),
             PlanCost(r, x, z, norm, d), PlanCost(Less(p, m), x, y, norm, d), PlanCost(Less(q, m), y, z, norm, d));
  }

  lemma LessMeet(p: seq<Shipment>, q: seq<Shipment>, m: real, n: nat)
    requires p != [] && q != [] && p[0].to == q[0].from && Meet(p, q, n)
    ensures Meet(Less(p, m), Less(q, m), n)
  {
    forall j | 0 <= j < n ensures Received(Less(p, m), j) == Sent(Less(q, m), j) {
      assert Received(p, j) == Sent(q, j);
      LessTotals(p, m, j);
      LessTotals(q, m, j);
    }
  }

  lemma {:induction false} Glue(p: seq<Shipment>, q: seq<Shipment>, x: seq<Vector>, y: seq<Vector>, z: seq<Vector>,
                                norm: Vector -> real, d: nat)
    returns (r: seq<Shipment>)
    requires Vectors(x, d) && Vectors(y, d) && Vectors(z, d) && Norm(norm, d)
    requires Fits(p, |x|, |y|) && Fits(q, |y|, |z|) && Meet(p, q, |y|)
    ensures Glued(r, p, q, x, y, z, norm, d)
    decreases |p| + |q|
  {
    if p == [] {
      forall j | 0 <= j < |y| ensures Sent(q, j) <= 0.0 {
        assert Received(p, j) == Sent(q, j);
      }
      NothingMoves(q, y, z, norm, d);
      r := [];
    } else if p[0].mass == 0.0 {
      r := Glue(p[1..], q, x, y, z, norm, d);
    } else {
      TotalsNonNegative(p[1..], |x|, |y|, p[0].to);
      assert Received(p, p[0].to) == Sent(q, p[0].to);
      var t := SomeLeaves(q, p[0].to);
      var front := ToFront(q, t);
      FrontAlike(q, t, y, z, norm, d);
      r := GlueFront(p, front, x, y, z, norm, d);
    }
  }

  lemma {:induction false} GlueFront(p: seq<Shipment>, q: seq<Shipment>, x: seq<Vector>, y: seq<Vector>,
                                     z: seq<Vector>, norm: Vector -> real, d: nat)
    returns (r: seq<Shipment>)
    requires Vectors(x, d) && Vectors(y, d) && Vectors(z, d) && Norm(norm, d)
    requires Fits(p, |x|, |y|) && Fits(q, |y|, |z|) && Meet(p, q, |y|)
    requires p != [] && q != [] && p[0].to == q[0].from
    ensures Glued(r, p, q, x, y, z, norm, d)
    decreases |p| + |q|, 0
  {
    var m := if p[0].mass <= q[0].mass then p[0].mass else q[0].mass;
    LessFits(p, m, |x|, |y|);
    LessFits(q, m, |y|, |z|);
    LessMeet(p, q, m, |y|);
    var rest := Glue(Less(p, m), Less(q, m), x, y, z, norm, d);
    GlueStep(p, q, m, rest, x, y, z, norm, d);
    r := [Shipment(p[0].from, q[0].to, m)] + rest;
  }

  // ---------------------------------------------------------------- the other direction

  function Reverse(p: seq<Shipment>): (r: seq<Shipment>)
    ensures |r| == |p| && forall k :: 0 <= k < |p| ==> r[k] == Shipment(p[k].to, p[k].from, p[k].mass)
  {
    seq(|p|, (k: nat) requires k < |p| => Shipment(p[k].to, p[k].from, p[k].mass))
  }

  lemma ReverseTail(p: seq<Shipment>)
    requires p != []
    ensures Reverse(p)[1..] == Reverse(p[1..])
  {
  }

  lemma {:induction false} ReverseTotals(p: seq<Shipment>, i: nat)
    ensures Sent(Reverse(p), i) == Received(p, i) && Received(Reverse(p), i) == Sent(p, i)
  {
    if p != [] {
      ReverseTail(p);
      ReverseTotals(p[1..], i);
    }
  }

  lemma {:induction false} ReverseCost(p: seq<Shipment>, x: seq<Vector>, y: seq<Vector>, norm: Vector -> real, d: nat)
    requires Vectors(x, d) && Vectors(y, d) && GroundNorm(norm, d) && Fits(p, |x|, |y|)
    ensures Fits(Reverse(p), |y|, |x|)
    ensures PlanCost(Reverse(p), y, x, norm, d) == PlanCost(p, x, y, norm, d)
  {
    if p != [] {
      ReverseTail(p);
      ReverseCost(p[1..], x, y, norm, d);
      GroundSymmetric(norm, d, x[p[0].from], y[p[0].to]);
    }
  }

  // ---------------------------------------------------------------- the distance of two weighted sets

  /** The distance of the exact regime: some plan has this cost and none costs less. */
  ghost predicate LeastCost(a: Cell, b: Cell, norm: Vector -> real, d: nat, cost: real)
    requires WellFormed(a, d) && WellFormed(b, d)
  {
    IsPlanCost(a, b, norm, d, cost) && NoneCheaper(a, b, norm, d, cost)
  }

  ghost predicate NoneCheaper(a: Cell, b: Cell, norm: Vector -> real, d: nat, cost: real)
    requires WellFormed(a, d) && WellFormed(b, d)
  {
    forall plan :: Moves(plan, a.weights, b.weights) ==> cost <= PlanCost(plan, a.vectors, b.vectors, norm, d)
  }

  /** Triangle inequality. */
  lemma DistanceTriangle(a: Cell, b: Cell, c: Cell, norm: Vector -> real, d: nat, ab: real, bc: real, ac: real)
    requires Norm(norm, d) && WellFormed(a, d) && WellFormed(b, d) && WellFormed(c, d)
    requires LeastCost(a, b, norm, d, ab) && LeastCost(b, c, norm, d, bc) && LeastCost(a, c, norm, d, ac)
    ensures ac <= ab + bc
  {
    var p :| Moves(p, a.weights, b.weights) && ab == PlanCost(p, a.vectors, b.vectors, norm, d);
    var q :| Moves(q, b.weights, c.weights) && bc == PlanCost(q, b.vectors, c.vectors, norm, d);
    var r := Glue(p, q, a.vectors, b.vectors, c.vectors, norm, d);
    GluedMoves(r, p, q, a, b, c, norm, d);
  }

  lemma GluedMoves(r: seq<Shipment>, p: seq<Shipment>, q: seq<Shipment>, a: Cell, b: Cell, c: Cell,
                   norm: Vector -> real, d: nat)
    requires WellFormed(a, d) && WellFormed(b, d) && WellFormed(c, d)
    requires Moves(p, a.weights, b.weights) && Moves(q, b.weights, c.weights)
    requires Glued(r, p, q, a.vectors, b.vectors, c.vectors, norm, d)
    ensures Moves(r, a.weights, c.weights)
  {
    assert forall i: nat :: Sent(r, i) == Sent(p, i);
    assert forall i: nat :: Received(r, i) == Received(q, i);
  }

  lemma ReverseMoves(p: seq<Shipment>, w: seq<real>, v: seq<real>)
    requires Moves(p, w, v)
    ensures Moves(Reverse(p), v, w)
  {
    forall i: nat ensures Sent(Reverse(p), i) == Received(p, i) && Received(Reverse(p), i) == Sent(p, i) {
      ReverseTotals(p, i);
    }
  }

  /** Symmetry. */
  lemma DistanceSymmetric(a: Cell, b: Cell, norm: Vector -> real, d: nat, cost: real)
    requires GroundNorm(norm, d) && WellFormed(a, d) && WellFormed(b, d) && LeastCost(a, b, norm, d, cost)
    ensures LeastCost(b, a, norm, d, cost)
  {
    var p :| Moves(p, a.weights, b.weights) && cost == PlanCost(p, a.vectors, b.vectors, norm, d);
    ReverseMoves(p, a.weights, b.weights);
    ReverseCost(p, a.vectors, b.vectors, norm, d);
    assert IsPlanCost(b, a, norm, d, cost);
    forall q | Moves(q, b.weights, a.weights) ensures cost <= PlanCost(q, b.vectors, a.vectors, norm, d) {
      ReverseMoves(q, b.weights, a.weights);
      ReverseCost(q, b.vectors, a.vectors, norm, d);
    }
  }

  lemma {:induction false} CostNonNegative(p: seq<Shipment>, x: seq<Vector>, y: seq<Vector>, norm: Vector -> real,
                                           d: nat)
    requires Vectors(x, d) && Vectors(y, d) && GroundNorm(norm, d) && Fits(p, |x|, |y|)
    ensures PlanCost(p, x, y, norm, d) >= 0.0
  {
    if p != [] {
      CostNonNegative(p[1..], x, y, norm, d);
      FirstNonNegative(p[0].mass, norm, d, x[p[0].from], y[p[0].to]);
    }
  }

  lemma FirstNonNegative(m: real, norm: Vector -> real, d: nat, a: Vector, b: Vector)
    requires m >= 0.0 && GroundNorm(norm, d) && |a| == |b| == d
    ensures Freight(m, Ground(norm, a, b)) >= 0.0
  {
    GroundNonNegative(norm, d, a, b);
    Grows(m, 0.0, Ground(norm, a, b));
  }

  // ---------------------------------------------------------------- distance zero

  /** The weight of one vector in a weighted list that may repeat it. */
  function WeightAt(w: seq<real>, x: seq<Vector>, u: Vector): real
    requires |w| == |x|
  {
    if w == [] then 0.0
    else WeightAt(w[..|w| - 1], x[..|w| - 1], u) + (if x[|w| - 1] == u then w[|w| - 1] else 0.0)
  }

  /** The two weighted lists are one distribution. */
  ghost predicate SameDistribution(a: Cell, b: Cell)
    requires |a.weights| == |a.vectors| && |b.weights| == |b.vectors|
  {
    forall u :: WeightAt(a.weights, a.vectors, u) == WeightAt(b.weights, b.vectors, u)
  }

  lemma {:induction false} WeightRaised(w: seq<real>, x: seq<Vector>, i: nat, m: real, u: Vector)
    requires |w| == |x| && i < |w|
    ensures WeightAt(w[i := w[i] + m], x, u) == WeightAt(w, x, u) + (if x[i] == u then m else 0.0)
  {
    var n, raised := |w| - 1, w[i := w[i] + m];
    if i == n {
      assert raised[..n] == w[..n];
    } else {
      assert raised[..n] == w[..n][i := w[..n][i] + m];
      WeightRaised(w[..n], x[..n], i, m, u);
    }
  }

  lemma {:induction false} NoWeight(w: seq<real>, x: seq<Vector>, u: Vector)
    requires |w| == |x| && forall i :: 0 <= i < |w| ==> w[i] == 0.0
    ensures WeightAt(w, x, u) == 0.0
  {
    if w != [] { NoWeight(w[..|w| - 1], x[..|w| - 1], u); }
  }

  /** What the shipments that start at the vector carry, and what those that end there do. */
  function Leaving(p: seq<Shipment>, x: seq<Vector>, u: Vector): real
    requires forall k :: 0 <= k < |p| ==> p[k].from < |x|
  {
    if p == [] then 0.0 else (if x[p[0].from] == u then p[0].mass else 0.0) + Leaving(p[1..], x, u)
  }

  function Arriving(p: seq<Shipment>, y: seq<Vector>, u: Vector): real
    requires forall k :: 0 <= k < |p| ==> p[k].to < |y|
  {
    if p == [] then 0.0 else (if y[p[0].to] == u then p[0].mass else 0.0) + Arriving(p[1..], y, u)
  }

  lemma {:induction false} LeavingIsWeight(p: seq<Shipment>, x: seq<Vector>, u: Vector)
    requires forall k :: 0 <= k < |p| ==> p[k].from < |x|
    ensures WeightAt(SentAll(p, |x|), x, u) == Leaving(p, x, u)
  {
    if p == [] {
      NoWeight(SentAll(p, |x|), x, u);
    } else {
      var rest := SentAll(p[1..], |x|);
      assert SentAll(p, |x|) == rest[p[0].from := rest[p[0].from] + p[0].mass];
      LeavingIsWeight(p[1..], x, u);
      WeightRaised(rest, x, p[0].from, p[0].mass, u);
    }
  }

  lemma {:induction false} ArrivingIsWeight(p: seq<Shipment>, y: seq<Vector>, u: Vector)
    requires forall k :: 0 <= k < |p| ==> p[k].to < |y|
    ensures WeightAt(ReceivedAll(p, |y|), y, u) == Arriving(p, y, u)
  {
    if p == [] {
      NoWeight(ReceivedAll(p, |y|), y, u);
    } else {
      var rest := ReceivedAll(p[1..], |y|);
      assert ReceivedAll(p, |y|) == rest[p[0].to := rest[p[0].to] + p[0].mass];
      ArrivingIsWeight(p[1..], y, u);
      WeightRaised(rest, y, p[0].to, p[0].mass, u);
    }
  }

  lemma PositiveFreight(m: real, g: real)
    requires m > 0.0 && g > 0.0
    ensures Freight(m, g) > 0.0
  {
  }

  lemma FreeShipment(m: real, g: real)
    requires m >= 0.0 && g >= 0.0 && Freight(m, g) <= 0.0
    ensures m == 0.0 || g == 0.0
  {
    if m > 0.0 && g > 0.0 { PositiveFreight(m, g); }
  }

  /** A plan that costs nothing moves nothing from one vector to another. */
  lemma {:induction false} FreePlanStays(p: seq<Shipment>, x: seq<Vector>, y: seq<Vector>, norm: Vector -> real,
                                         d: nat, u: Vector)
    requires Vectors(x, d) && Vectors(y, d) && GroundNorm(norm, d) && Fits(p, |x|, |y|)
    requires PlanCost(p, x, y, norm, d) <= 0.0
    ensures Leaving(p, x, u) == Arriving(p, y, u)
  {
    if p != [] {
      var a, b := x[p[0].from], y[p[0].to];
      CostNonNegative(p[1..], x, y, norm, d);
      FirstNonNegative(p[0].mass, norm, d, a, b);
      FreePlanStays(p[1..], x, y, norm, d, u);
      GroundNonNegative(norm, d, a, b);
      FreeShipment(p[0].mass, Ground(norm, a, b));
      GroundZero(norm, d, a, b);
    }
  }

  function First(us: seq<Vector>, u: Vector): (k: nat)
    requires u in us
    ensures k < |us| && us[k] == u
  {
    if us[0] == u then 0 else First(us[1..], u) + 1
  }

  /** Every weight of the first n moves to the first copy of its vector in a list. */
  function Collapse(w: seq<real>, x: seq<Vector>, us: seq<Vector>, n: nat): (p: seq<Shipment>)
    requires n <= |w| == |x| && forall i :: 0 <= i < |x| ==> x[i] in us
    ensures |p| == n && forall k :: 0 <= k < n ==> p[k] == Shipment(k, First(us, x[k]), w[k])
  {
    if n == 0 then [] else Collapse(w, x, us, n - 1) + [Shipment(n - 1, First(us, x[n - 1]), w[n - 1])]
  }

  lemma {:induction false} CollapseTotals(w: seq<real>, x: seq<Vector>, us: seq<Vector>, n: nat, k: nat)
    requires n <= |w| == |x| && forall i :: 0 <= i < |x| ==> x[i] in us
    ensures Sent(Collapse(w, x, us, n), k) == if k < n then w[k] else 0.0
    ensures Received(Collapse(w, x, us, n), k) ==
            if k < |us| && First(us, us[k]) == k then WeightAt(w[..n], x[..n], us[k]) else 0.0
  {
    if n > 0 {
      var one := [Shipment(n - 1, First(us, x[n - 1]), w[n - 1])];
      CollapseTotals(w, x, us, n - 1, k);
      JoinedTotals(Collapse(w, x, us, n - 1), one, k);
      assert one[1..] == [];
      assert w[..n][..n - 1] == w[..n - 1] && x[..n][..n - 1] == x[..n - 1];
    }
  }

  lemma {:induction false} FreePlan(p: seq<Shipment>, x: seq<Vector>, y: seq<Vector>, norm: Vector -> real, d: nat)
    requires Vectors(x, d) && Vectors(y, d) && Norm(norm, d) && Fits(p, |x|, |y|)
    requires forall k :: 0 <= k < |p| ==> x[p[k].from] == y[p[k].to]
    ensures PlanCost(p, x, y, norm, d) == 0.0
  {
    if p != [] {
      FreePlan(p[1..], x, y, norm, d);
      var a := x[p[0].from];
      GroundIsMetric(norm, d, a, a, a);
    }
  }

  ghost predicate Weighted(c: Cell) { forall i :: 0 <= i < |c.weights| ==> c.weights[i] >= 0.0 }

  /** The weight that arrives at a place of the list: that of its vector at the first copy, nothing at the others. */
  function CopyWeight(c: Cell, us: seq<Vector>, k: nat): real
    requires |c.weights| == |c.vectors|
  {
    if k < |us| && First(us, us[k]) == k then WeightAt(c.weights, c.vectors, us[k]) else 0.0
  }

  /** A free plan of all the weights of a cell onto the first copies of its vectors. */
  ghost predicate Gathers(p: seq<Shipment>, c: Cell, us: seq<Vector>, norm: Vector -> real, d: nat)
    requires WellFormed(c, d) && Vectors(us, d)
  {
    && Fits(p, |c.vectors|, |us|) && PlanCost(p, c.vectors, us, norm, d) == 0.0
    && (forall k :: 0 <= k < |c.weights| ==> Sent(p, k) == c.weights[k])
    && (forall k: nat :: Received(p, k) == CopyWeight(c, us, k))
  }

  lemma CollapseGathers(c: Cell, us: seq<Vector>, norm: Vector -> real, d: nat)
    requires Norm(norm, d) && WellFormed(c, d) && Vectors(us, d) && Weighted(c)
    requires forall i :: 0 <= i < |c.vectors| ==> c.vectors[i] in us
    ensures Gathers(Collapse(c.weights, c.vectors, us, |c.weights|), c, us, norm, d)
  {
    var n := |c.weights|;
    var p := Collapse(c.weights, c.vectors, us, n);
    assert c.weights[..n] == c.weights && c.vectors[..n] == c.vectors;
    forall k: nat
      ensures k < n ==> Sent(p, k) == c.weights[k]
      ensures Received(p, k) == CopyWeight(c, us, k)
    {
      CollapseTotals(c.weights, c.vectors, us, n, k);
    }
    FreePlan(p, c.vectors, us, norm, d);
  }

  lemma GathersMeet(p: seq<Shipment>, q: seq<Shipment>, a: Cell, b: Cell, us: seq<Vector>, norm: Vector -> real, d: nat)
    requires WellFormed(a, d) && WellFormed(b, d) && Vectors(us, d) && SameDistribution(a, b)
    requires Gathers(p, a, us, norm, d) && Gathers(q, b, us, norm, d)
    ensures Meet(p, Reverse(q), |us|)
  {
    forall k | 0 <= k < |us| ensures Received(p, k) == Sent(Reverse(q), k) {
      ReverseTotals(q, k);
      assert Received(p, k) == CopyWeight(a, us, k) && Received(q, k) == CopyWeight(b, us, k);
    }
  }

  /** For one distribution there is a plan that costs nothing: gather both sides on common copies and glue. */
  lemma SameIsFree(a: Cell, b: Cell, norm: Vector -> real, d: nat) returns (plan: seq<Shipment>)
    requires GroundNorm(norm, d) && WellFormed(a, d) && WellFormed(b, d) && SameDistribution(a, b)
    requires Weighted(a) && Weighted(b)
    ensures Moves(plan, a.weights, b.weights) && PlanCost(plan, a.vectors, b.vectors, norm, d) <= 0.0
  {
    var us := a.vectors + b.vectors;
    assert forall i :: 0 <= i < |a.vectors| ==> us[i] == a.vectors[i];
    assert forall i :: 0 <= i < |b.vectors| ==> us[|a.vectors| + i] == b.vectors[i];
    CollapseGathers(a, us, norm, d);
    CollapseGathers(b, us, norm, d);
    plan := GlueGathered(Collapse(a.weights, a.vectors, us, |a.weights|),
                         Collapse(b.weights, b.vectors, us, |b.weights|), a, b, us, norm, d);
  }

  lemma GlueGathered(p: seq<Shipment>, q: seq<Shipment>, a: Cell, b: Cell, us: seq<Vector>, norm: Vector -> real,
                     d: nat)
    returns (plan: seq<Shipment>)
    requires GroundNorm(norm, d) && WellFormed(a, d) && WellFormed(b, d) && SameDistribution(a, b) && Vectors(us, d)
    requires Gathers(p, a, us, norm, d) && Gathers(q, b, us, norm, d)
    ensures Moves(plan, a.weights, b.weights) && PlanCost(plan, a.vectors, b.vectors, norm, d) <= 0.0
  {
    GathersMeet(p, q, a, b, us, norm, d);
    ReverseCost(q, b.vectors, us, norm, d);
    plan := Glue(p, Reverse(q), a.vectors, us, b.vectors, norm, d);
    assert forall i: nat :: Sent(plan, i) == Sent(p, i);
    forall i: nat | i < |b.weights| ensures Received(plan, i) == b.weights[i] {
      ReverseTotals(q, i);
      assert Received(plan, i) == Received(Reverse(q), i);
    }
  }

  /** The distance is never negative, and zero exactly for two lists of one distribution. */
  lemma DistanceZeroIffSame(a: Cell, b: Cell, norm: Vector -> real, d: nat, cost: real)
    requires GroundNorm(norm, d) && WellFormed(a, d) && WellFormed(b, d) && LeastCost(a, b, norm, d, cost)
    requires Weighted(a) && Weighted(b)
    ensures cost >= 0.0 && (cost == 0.0 <==> SameDistribution(a, b))
  {
    var p :| Moves(p, a.weights, b.weights) && cost == PlanCost(p, a.vectors, b.vectors, norm, d);
    CostNonNegative(p, a.vectors, b.vectors, norm, d);
    if cost == 0.0 {
      assert SentAll(p, |a.vectors|) == a.weights && ReceivedAll(p, |b.vectors|) == b.weights;
      forall u ensures WeightAt(a.weights, a.vectors, u) == WeightAt(b.weights, b.vectors, u) {
        LeavingIsWeight(p, a.vectors, u);
        ArrivingIsWeight(p, b.vectors, u);
        FreePlanStays(p, a.vectors, b.vectors, norm, d, u);
      }
    }
    if SameDistribution(a, b) {
      var free := SameIsFree(a, b, norm, d);
    }
  }

  // ---------------------------------------------------------------- the diameter

  function Total(w: seq<real>): real { if w == [] then 0.0 else Total(w[..|w| - 1]) + w[|w| - 1] }

  function Mass(p: seq<Shipment>): real { if p == [] then 0.0 else p[0].mass + Mass(p[1..]) }

  lemma {:induction false} TotalRaised(w: seq<real>, i: nat, m: real)
    requires i < |w|
    ensures Total(w[i := w[i] + m]) == Total(w) + m
  {
    var n, raised := |w| - 1, w[i := w[i] + m];
    if i == n {
      assert raised[..n] == w[..n];
    } else {
      assert raised[..n] == w[..n][i := w[..n][i] + m];
      TotalRaised(w[..n], i, m);
    }
  }

  lemma {:induction false} NoTotal(w: seq<real>)
    requires forall i :: 0 <= i < |w| ==> w[i] == 0.0
    ensures Total(w) == 0.0
  {
    if w != [] { NoTotal(w[..|w| - 1]); }
  }

  lemma {:induction false} MassIsTotal(p: seq<Shipment>, n: nat)
    requires forall k :: 0 <= k < |p| ==> p[k].from < n
    ensures Mass(p) == Total(SentAll(p, n))
  {
    if p == [] {
      NoTotal(SentAll(p, n));
    } else {
      var rest := SentAll(p[1..], n);
      assert SentAll(p, n) == rest[p[0].from := rest[p[0].from] + p[0].mass];
      MassIsTotal(p[1..], n);
      TotalRaised(rest, p[0].from, p[0].mass);
    }
  }

  ghost predicate Diameter(x: seq<Vector>, y: seq<Vector>, norm: Vector -> real, d: nat, bound: real)
    requires Vectors(x, d) && Vectors(y, d)
  {
    forall i, j :: 0 <= i < |x| && 0 <= j < |y| ==> Ground(norm, x[i], y[j]) <= bound
  }

  lemma {:induction false} CostWithin(p: seq<Shipment>, x: seq<Vector>, y: seq<Vector>, norm: Vector -> real, d: nat,
                                      bound: real)
    requires Vectors(x, d) && Vectors(y, d) && Fits(p, |x|, |y|) && Diameter(x, y, norm, d, bound)
    ensures PlanCost(p, x, y, norm, d) <= Freight(Mass(p), bound)
  {
    if p != [] {
      CostWithin(p[1..], x, y, norm, d, bound);
      Grows(p[0].mass, Ground(norm, x[p[0].from], y[p[0].to]), bound);
      SplitMass(Mass(p), p[0].mass, Mass(p[1..]), bound);
    }
  }

  /** For weights of total one the distance is at most the diameter of the ground space. */
  lemma DistanceWithinDiameter(a: Cell, b: Cell, norm: Vector -> real, d: nat, cost: real, bound: real)
    requires WellFormed(a, d) && WellFormed(b, d) && LeastCost(a, b, norm, d, cost) && Total(a.weights) == 1.0
    requires Diameter(a.vectors, b.vectors, norm, d, bound)
    ensures cost <= bound
  {
    var p :| Moves(p, a.weights, b.weights) && cost == PlanCost(p, a.vectors, b.vectors, norm, d);
    CostWithin(p, a.vectors, b.vectors, norm, d, bound);
    MassIsTotal(p, |a.vectors|);
    assert SentAll(p, |a.vectors|) == a.weights;
  }
}
