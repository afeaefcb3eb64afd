/** omdc/metrics/pooled.py: why the distance between weighted means never exceeds the transport distance between two
    weighted sets, so that it certifies the pruning of the nearest-neighbour search. Vectors are lists of reals of one
    dimension, the norm is any function with the properties named in Norm. */
module PooledBound {
  import opened Funnel
  import opened OptimalTransport

  type Vector = seq<real>

  function Plus(a: Vector, b: Vector): (r: Vector)
    requires |a| == |b|
    ensures |r| == |a|
    ensures forall i :: 0 <= i < |a| ==> r[i] == a[i] + b[i]
  {
    seq(|a|, (i: nat) requires i < |a| => a[i] + b[i])
  }

  function Minus(a: Vector, b: Vector): (r: Vector)
    requires |a| == |b|
    ensures |r| == |a|
    ensures forall i :: 0 <= i < |a| ==> r[i] == a[i] - b[i]
  {
    seq(|a|, (i: nat) requires i < |a| => a[i] - b[i])
  }

  function Scaled(m: real, a: Vector): (r: Vector)
    ensures |r| == |a|
    ensures forall i :: 0 <= i < |a| ==> r[i] == m * a[i]
  {
    seq(|a|, (i: nat) requires i < |a| => m * a[i])
  }

  function Zero(d: nat): (r: Vector)
    ensures |r| == d
    ensures forall i :: 0 <= i < d ==> r[i] == 0.0
  {
    seq(d, (i: nat) => 0.0)
  }

  ghost predicate Triangle(norm: Vector -> real, a: Vector, b: Vector)
    requires |a| == |b|
  {
    norm(Plus(a, b)) <= norm(a) + norm(b)
  }

  ghost predicate Scales(norm: Vector -> real, m: real, a: Vector) {
    norm(Scaled(m, a)) == m * norm(a)
  }

  ghost predicate Norm(norm: Vector -> real, d: nat) {
    && norm(Zero(d)) == 0.0
    && (forall a, b :: |a| == |b| == d ==> Triangle(norm, a, b))
    && (forall m, a :: |a| == d && m >= 0.0 ==> Scales(norm, m, a))
  }

  // ---------------------------------------------------------------- weighted sets and plans between them

  ghost predicate Vectors(x: seq<Vector>, d: nat) {
    forall i :: 0 <= i < |x| ==> |x[i]| == d
  }

  /** The weighted mean of the vectors, for weights of total one. */
  function Mean(w: seq<real>, x: seq<Vector>, d: nat): (r: Vector)
    requires |w| == |x| && Vectors(x, d)
    ensures |r| == d
  {
    if w == [] then Zero(d)
    else Plus(Mean(w[..|w| - 1], x[..|x| - 1], d), Scaled(w[|w| - 1], x[|x| - 1]))
  }

  /** Non-negative masses between the two sets, taking exactly the weights w away and bringing exactly v. */
  ghost predicate Moves(plan: seq<Shipment>, w: seq<real>, v: seq<real>) {
    && Fits(plan, |w|, |v|)
    && (forall i :: 0 <= i < |w| ==> Sent(plan, i) == w[i])
    && (forall j :: 0 <= j < |v| ==> Received(plan, j) == v[j])
  }

  ghost predicate Fits(plan: seq<Shipment>, m: nat, n: nat) {
    forall k :: 0 <= k < |plan| ==> plan[k].mass >= 0.0 && plan[k].from < m && plan[k].to < n
  }

  /** The ground distance is the length of the difference. */
  function Ground(norm: Vector -> real, a: Vector, b: Vector): real
    requires |a| == |b|
  {
    norm(Minus(a, b))
  }

  function Freight(mass: real, distance: real): real { mass * distance }

  /** Total mass times ground distance. */
  function PlanCost(plan: seq<Shipment>, x: seq<Vector>, y: seq<Vector>, norm: Vector -> real, d: nat): real
    requires Vectors(x, d) && Vectors(y, d) && Fits(plan, |x|, |y|)
  {
    if plan == [] then 0.0
    else Freight(plan[0].mass, Ground(norm, x[plan[0].from], y[plan[0].to])) + PlanCost(plan[1..], x, y, norm, d)
  }

  // ---------------------------------------------------------------- the bound

  /** All displacements of a plan, each times its mass. */
  function Carried(plan: seq<Shipment>, x: seq<Vector>, y: seq<Vector>, d: nat): (r: Vector)
    requires Vectors(x, d) && Vectors(y, d) && Fits(plan, |x|, |y|)
    ensures |r| == d
  {
    if plan == [] then Zero(d)
    else Plus(Scaled(plan[0].mass, Minus(x[plan[0].from], y[plan[0].to])), Carried(plan[1..], x, y, d))
  }

  lemma ScaledFreight(norm: Vector -> real, m: real, a: Vector, d: nat)
    requires Norm(norm, d) && |a| == d && m >= 0.0
    ensures norm(Scaled(m, a)) == Freight(m, norm(a))
  {
    assert Scales(norm, m, a);
  }

  lemma {:induction false} CarriedBelowCost(plan: seq<Shipment>, x: seq<Vector>, y: seq<Vector>, norm: Vector -> real,
                                            d: nat)
    requires Vectors(x, d) && Vectors(y, d) && Fits(plan, |x|, |y|) && Norm(norm, d)
    ensures norm(Carried(plan, x, y, d)) <= PlanCost(plan, x, y, norm, d)
  {
    if plan != [] {
      var step := Minus(x[plan[0].from], y[plan[0].to]);
      CarriedBelowCost(plan[1..], x, y, norm, d);
      assert Triangle(norm, Scaled(plan[0].mass, step), Carried(plan[1..], x, y, d));
      ScaledFreight(norm, plan[0].mass, step, d);
    }
  }

  function SentAll(plan: seq<Shipment>, n: nat): (w: seq<real>)
    ensures |w| == n
    ensures forall i :: 0 <= i < n ==> w[i] == Sent(plan, i)
  {
    seq(n, (i: nat) => Sent(plan, i))
  }

  function ReceivedAll(plan: seq<Shipment>, n: nat): (w: seq<real>)
    ensures |w| == n
    ensures forall i :: 0 <= i < n ==> w[i] == Received(plan, i)
  {
    seq(n, (i: nat) => Received(plan, i))
  }

  lemma ScaledAdds(m: real, n: real, a: Vector)
    ensures Scaled(m + n, a) == Plus(Scaled(m, a), Scaled(n, a))
  {
    forall i | 0 <= i < |a| ensures Scaled(m + n, a)[i] == Plus(Scaled(m, a), Scaled(n, a))[i] {
      Distributes(m, n, a[i]);
    }
  }

  lemma Distributes(m: real, n: real, t: real)
    ensures (m + n) * t == m * t + n * t && (m - n) * t == m * t - n * t && t * (m - n) == t * m - t * n
  {
  }

  /** One weight raised raises the mean by that share of its vector. */
  lemma {:induction false} MeanRaised(w: seq<real>, x: seq<Vector>, d: nat, i: nat, m: real)
    requires |w| == |x| && Vectors(x, d) && i < |w|
    ensures Mean(w[i := w[i] + m], x, d) == Plus(Mean(w, x, d), Scaled(m, x[i]))
  {
    var n := |w| - 1;
    var raised := w[i := w[i] + m];
    if i == n {
      assert raised[..n] == w[..n];
      ScaledAdds(w[n], m, x[n]);
      assert Plus(Mean(w[..n], x[..n], d), Plus(Scaled(w[n], x[n]), Scaled(m, x[n]))) ==
             Plus(Plus(Mean(w[..n], x[..n], d), Scaled(w[n], x[n])), Scaled(m, x[n]));
    } else {
      assert raised[..n] == w[..n][i := w[..n][i] + m];
      MeanRaised(w[..n], x[..n], d, i, m);
      assert Plus(Plus(Mean(w[..n], x[..n], d), Scaled(m, x[i])), Scaled(w[n], x[n])) ==
             Plus(Plus(Mean(w[..n], x[..n], d), Scaled(w[n], x[n])), Scaled(m, x[i]));
    }
  }

  lemma {:induction false} MeanOfZeros(w: seq<real>, x: seq<Vector>, d: nat)
    requires |w| == |x| && Vectors(x, d) && forall i :: 0 <= i < |w| ==> w[i] == 0.0
    ensures Mean(w, x, d) == Zero(d)
  {
    if w != [] {
      MeanOfZeros(w[..|w| - 1], x[..|x| - 1], d);
      assert Plus(Zero(d), Scaled(0.0, x[|x| - 1])) == Zero(d);
    }
  }

  lemma ScaledMinus(m: real, a: Vector, b: Vector)
    requires |a| == |b|
    ensures Scaled(m, Minus(a, b)) == Minus(Scaled(m, a), Scaled(m, b))
  {
    forall i | 0 <= i < |a| ensures Scaled(m, Minus(a, b))[i] == Minus(Scaled(m, a), Scaled(m, b))[i] {
      Distributes(a[i], b[i], m);
    }
  }

  lemma SentStep(plan: seq<Shipment>, x: seq<Vector>, d: nat)
    requires Vectors(x, d) && plan != [] && plan[0].from < |x|
    ensures Mean(SentAll(plan, |x|), x, d) ==
            Plus(Mean(SentAll(plan[1..], |x|), x, d), Scaled(plan[0].mass, x[plan[0].from]))
  {
    var s, rest := plan[0], SentAll(plan[1..], |x|);
    assert SentAll(plan, |x|) == rest[s.from := rest[s.from] + s.mass];
    MeanRaised(rest, x, d, s.from, s.mass);
  }

  lemma ReceivedStep(plan: seq<Shipment>, y: seq<Vector>, d: nat)
    requires Vectors(y, d) && plan != [] && plan[0].to < |y|
    ensures Mean(ReceivedAll(plan, |y|), y, d) ==
            Plus(Mean(ReceivedAll(plan[1..], |y|), y, d), Scaled(plan[0].mass, y[plan[0].to]))
  {
    var s, rest := plan[0], ReceivedAll(plan[1..], |y|);
    assert ReceivedAll(plan, |y|) == rest[s.to := rest[s.to] + s.mass];
    MeanRaised(rest, y, d, s.to, s.mass);
  }

  lemma DifferencesAdd(a: Vector, b: Vector, p: Vector, q: Vector)
    requires |a| == |b| == |p| == |q|
    ensures Plus(Minus(a, b), Minus(p, q)) == Minus(Plus(p, a), Plus(q, b))
  {
  }

  /** What a plan carries is the difference of the means. */
  lemma {:induction false} CarriedIsDifference(plan: seq<Shipment>, x: seq<Vector>, y: seq<Vector>, d: nat)
    requires Vectors(x, d) && Vectors(y, d) && Fits(plan, |x|, |y|)
    ensures Carried(plan, x, y, d) == Minus(Mean(SentAll(plan, |x|), x, d), Mean(ReceivedAll(plan, |y|), y, d))
  {
    if plan == [] {
      MeanOfZeros(SentAll(plan, |x|), x, d);
      MeanOfZeros(ReceivedAll(plan, |y|), y, d);
    } else {
      CarriedIsDifference(plan[1..], x, y, d);
      SentStep(plan, x, d);
      ReceivedStep(plan, y, d);
      var m, a, b := plan[0].mass, x[plan[0].from], y[plan[0].to];
      ScaledMinus(m, a, b);
      DifferencesAdd(Scaled(m, a), Scaled(m, b), Mean(SentAll(plan[1..], |x|), x, d),
                     Mean(ReceivedAll(plan[1..], |y|), y, d));
    }
  }

  /** The distance between the weighted means is at most the cost of every plan. */
  lemma MeansAreNoFarther(plan: seq<Shipment>, w: seq<real>, x: seq<Vector>, v: seq<real>, y: seq<Vector>,
                          norm: Vector -> real, d: nat)
    requires |w| == |x| && |v| == |y| && Vectors(x, d) && Vectors(y, d) && Norm(norm, d) && Moves(plan, w, v)
    ensures norm(Minus(Mean(w, x, d), Mean(v, y, d))) <= PlanCost(plan, x, y, norm, d)
  {
    assert w == SentAll(plan, |x|) && v == ReceivedAll(plan, |y|);
    CarriedIsDifference(plan, x, y, d);
    CarriedBelowCost(plan, x, y, norm, d);
  }

  // A symmetry-exact environment set.
  datatype Cell = Cell(weights: seq<real>, vectors: seq<Vector>)

  ghost predicate WellFormed(c: Cell, d: nat) {
    |c.weights| == |c.vectors| && Vectors(c.vectors, d)
  }

  /** The distance is the cost of some plan, as the transport minimum is. */
  ghost predicate IsPlanCost(query: Cell, c: Cell, norm: Vector -> real, d: nat, cost: real)
    requires WellFormed(query, d) && WellFormed(c, d)
  {
    exists plan :: Moves(plan, query.weights, c.weights) &&
                   cost == PlanCost(plan, query.vectors, c.vectors, norm, d)
  }

  function LatentBound(query: Cell, c: Cell, norm: Vector -> real, d: nat): real
    requires WellFormed(query, d) && WellFormed(c, d)
  {
    norm(Minus(Mean(query.weights, query.vectors, d), Mean(c.weights, c.vectors, d)))
  }

  lemma BoundHolds(query: Cell, c: Cell, norm: Vector -> real, d: nat, cost: real)
    requires Norm(norm, d) && WellFormed(query, d) && WellFormed(c, d) && IsPlanCost(query, c, norm, d, cost)
    ensures LatentBound(query, c, norm, d) <= cost
  {
    var plan :| Moves(plan, query.weights, c.weights) &&
                cost == PlanCost(plan, query.vectors, c.vectors, norm, d);
    MeansAreNoFarther(plan, query.weights, query.vectors, c.weights, c.vectors, norm, d);
  }

  /** One entry of the index: its latent-lb bound and its env-ot distance, on symmetry-exact sets. */
  ghost predicate Entry(query: Cell, c: Cell, norm: Vector -> real, d: nat, bound: real, exact: real) {
    && WellFormed(query, d) && WellFormed(c, d)
    && bound == norm(Minus(Mean(query.weights, query.vectors, d), Mean(c.weights, c.vectors, d)))
    && IsPlanCost(query, c, norm, d, exact)
  }

  lemma EntryCertified(query: Cell, c: Cell, norm: Vector -> real, d: nat, bound: real, exact: real)
    requires Norm(norm, d) && Entry(query, c, norm, d, bound, exact)
    ensures Within(bound, 1.0, exact)
  {
    BoundHolds(query, c, norm, d, exact);
  }

  /** With margin one, latent-lb is a certified bound of env-ot on symmetry-exact sets. */
  lemma LatentBoundCertified(keys: seq<string>, query: Cell, cells: map<string, Cell>, norm: Vector -> real, d: nat,
                             bound: string -> real, exact: string -> real)
    requires Norm(norm, d)
    requires forall key :: key in keys ==> key in cells && Entry(query, cells[key], norm, d, bound(key), exact(key))
    ensures Certified(keys, bound, exact, 1.0)
  {
    forall key | key in keys ensures Within(bound(key), 1.0, exact(key)) {
      EntryCertified(query, cells[key], norm, d, bound(key), exact(key));
    }
  }
}
