/** omdc/envset.py: the farthest-point subsample of a large structure and the weights of an environment set.
    Vectors are points of any type, norm and d are exact real functions; the metric axioms are assumed only
    where the approximation bound needs them. */
module FarthestPoint {
  import opened Wrappers
  import opened Ordering
  import opened Pigeonhole

  const MAX_ENVS: nat := 256

  ghost predicate Metric<T(!new)>(d: (T, T) -> real) {
    && (forall x, y :: d(x, y) >= 0.0)
    && (forall x :: d(x, x) == 0.0)
    && (forall x, y :: d(x, y) == d(y, x))
    && (forall x, y, z :: d(x, z) <= d(x, y) + d(y, z))
  }

  /** numpy's argmax: the first index of a largest value. */
  function ArgMax(s: seq<real>): (m: nat)
    requires s != []
    ensures m < |s|
  {
    if |s| == 1 then 0
    else
      var m := ArgMax(s[..|s| - 1]);
      if s[|s| - 1] > s[m] then |s| - 1 else m
  }

  lemma {:induction false} ArgMaxIsFirstLargest(s: seq<real>)
    requires s != []
    ensures forall i :: 0 <= i < |s| ==> s[i] <= s[ArgMax(s)]
    ensures forall i :: 0 <= i < ArgMax(s) ==> s[i] < s[ArgMax(s)]
  {
    if |s| > 1 { ArgMaxIsFirstLargest(s[..|s| - 1]); }
  }

  /** numpy's argmin: the first index of a smallest value. */
  function ArgMin(s: seq<real>): (m: nat)
    requires s != []
    ensures m < |s|
  {
    if |s| == 1 then 0
    else
      var m := ArgMin(s[..|s| - 1]);
      if s[|s| - 1] < s[m] then |s| - 1 else m
  }

  lemma {:induction false} ArgMinIsFirstSmallest(s: seq<real>)
    requires s != []
    ensures forall i :: 0 <= i < |s| ==> s[ArgMin(s)] <= s[i]
    ensures forall i :: 0 <= i < ArgMin(s) ==> s[ArgMin(s)] < s[i]
  {
    if |s| > 1 { ArgMinIsFirstSmallest(s[..|s| - 1]); }
  }

  ghost predicate Indices(picks: seq<nat>, n: nat) {
    forall j :: 0 <= j < |picks| ==> picks[j] < n
  }

  /** Distance from a point to the nearest of the picks. */
  function Near<T>(v: T, vectors: seq<T>, d: (T, T) -> real, picks: seq<nat>): real
    requires picks != [] && Indices(picks, |vectors|)
  {
    var last := d(v, vectors[picks[|picks| - 1]]);
    if |picks| == 1 then last
    else
      var before := Near(v, vectors, d, picks[..|picks| - 1]);
      if before <= last then before else last
  }

  lemma {:induction false} NearIsMinimum<T>(v: T, vectors: seq<T>, d: (T, T) -> real, picks: seq<nat>)
    requires picks != [] && Indices(picks, |vectors|)
    ensures forall j :: 0 <= j < |picks| ==> Near(v, vectors, d, picks) <= d(v, vectors[picks[j]])
    ensures exists j :: 0 <= j < |picks| && Near(v, vectors, d, picks) == d(v, vectors[picks[j]])
  {
    if |picks| == 1 {
      assert Near(v, vectors, d, picks) == d(v, vectors[picks[0]]);
    } else {
      var before := picks[..|picks| - 1];
      NearIsMinimum(v, vectors, d, before);
      var j :| 0 <= j < |before| && Near(v, vectors, d, before) == d(v, vectors[before[j]]);
      assert picks[j] == before[j];
      forall i | 0 <= i < |picks| ensures Near(v, vectors, d, picks) <= d(v, vectors[picks[i]]) {
        if i < |before| { assert before[i] == picks[i]; }
      }
    }
  }

  function NearAll<T>(vectors: seq<T>, d: (T, T) -> real, picks: seq<nat>): (r: seq<real>)
    requires picks != [] && Indices(picks, |vectors|)
    ensures |r| == |vectors|
    ensures forall i :: 0 <= i < |vectors| ==> r[i] == Near(vectors[i], vectors, d, picks)
  {
    seq(|vectors|, (i: nat) requires i < |vectors| => Near(vectors[i], vectors, d, picks))
  }

  /** Each pick after the first is a point farthest from those before it. */
  ghost predicate Greedy<T>(vectors: seq<T>, norm: T -> real, d: (T, T) -> real, picks: seq<nat>) {
    && vectors != [] && picks != [] && Indices(picks, |vectors|)
    && picks[0] == ArgMax(Map(vectors, norm))
    && forall j :: 1 <= j < |picks| ==> picks[j] == ArgMax(NearAll(vectors, d, picks[..j]))
  }

  predicate IntLe(a: nat, b: nat) { a <= b }

  ghost predicate Ascending(s: seq<nat>) {
    forall i, j :: 0 <= i < j < |s| ==> s[i] <= s[j]
  }

  /** A selection of k points: greedy picks in ascending order. */
  ghost predicate Sampled<T>(vectors: seq<T>, norm: T -> real, d: (T, T) -> real, k: nat, sel: seq<nat>) {
    exists picks :: Greedy(vectors, norm, d, picks) && |picks| == (if k == 0 then 1 else k) && sel == Sort(picks, IntLe)
  }

  /** _fps */
  method Fps<T>(vectors: seq<T>, norm: T -> real, d: (T, T) -> real, k: nat) returns (sel: seq<nat>)
    requires vectors != []
    ensures Sampled(vectors, norm, d, k, sel)
    ensures Ascending(sel)
  {
    var start := ArgMax(Map(vectors, norm));
    var chosen := [start];
    var dist := Map(vectors, (v: T) => d(v, vectors[start]));
    while |chosen| < k
      invariant 1 <= |chosen| && (|chosen| <= k || |chosen| == 1)
      invariant Greedy(vectors, norm, d, chosen)
      invariant dist == NearAll(vectors, d, chosen)
    {
      var nxt := ArgMax(dist);
      GreedyStep(vectors, norm, d, chosen, dist);
      chosen := chosen + [nxt];
      dist := Minimum(dist, Map(vectors, (v: T) => d(v, vectors[nxt])));
    }
    sel := Sort(chosen, IntLe);
    SortSorts(chosen, IntLe);
  }

  /** numpy's elementwise minimum. */
  function Minimum(a: seq<real>, b: seq<real>): (r: seq<real>)
    requires |a| == |b|
    ensures |r| == |a|
    ensures forall i :: 0 <= i < |a| ==> r[i] == if a[i] <= b[i] then a[i] else b[i]
  {
    seq(|a|, (i: nat) requires i < |a| => if a[i] <= b[i] then a[i] else b[i])
  }

  lemma GreedyGrows<T>(vectors: seq<T>, norm: T -> real, d: (T, T) -> real, picks: seq<nat>, nxt: nat)
    requires Greedy(vectors, norm, d, picks) && nxt == ArgMax(NearAll(vectors, d, picks))
    ensures Greedy(vectors, norm, d, picks + [nxt])
  {
    var more := picks + [nxt];
    forall j | 1 <= j < |more| ensures more[j] == ArgMax(NearAll(vectors, d, more[..j])) {
      assert more[..j] == picks[..j];
    }
  }

  /** Folding one pick into dist keeps it the distance to the nearest pick. */
  lemma GreedyStep<T>(vectors: seq<T>, norm: T -> real, d: (T, T) -> real, picks: seq<nat>, dist: seq<real>)
    requires Greedy(vectors, norm, d, picks) && dist == NearAll(vectors, d, picks)
    ensures var nxt := ArgMax(dist);
            && Greedy(vectors, norm, d, picks + [nxt])
            && Minimum(dist, Map(vectors, (v: T) => d(v, vectors[nxt]))) == NearAll(vectors, d, picks + [nxt])
  {
    var nxt := ArgMax(dist);
    GreedyGrows(vectors, norm, d, picks, nxt);
    var folded, grown := Minimum(dist, Map(vectors, (v: T) => d(v, vectors[nxt]))), NearAll(vectors, d, picks + [nxt]);
    forall i | 0 <= i < |vectors| ensures folded[i] == grown[i] {
    }
  }

  // ---------------------------------------------------------------- the k-centre bound

  /** Every point lies within r of some centre. */
  ghost predicate Covers<T>(centres: seq<T>, vectors: seq<T>, d: (T, T) -> real, r: real) {
    forall i :: 0 <= i < |vectors| ==> exists c :: 0 <= c < |centres| && d(vectors[i], centres[c]) <= r
  }

  function Points<T>(vectors: seq<T>, picks: seq<nat>): (r: seq<T>)
    requires Indices(picks, |vectors|)
    ensures |r| == |picks|
    ensures forall j :: 0 <= j < |picks| ==> r[j] == vectors[picks[j]]
  {
    seq(|picks|, (j: nat) requires j < |picks| => vectors[picks[j]])
  }

  lemma NearShrinks<T>(v: T, vectors: seq<T>, d: (T, T) -> real, picks: seq<nat>, j: nat)
    requires 1 <= j <= |picks| && Indices(picks, |vectors|)
    ensures Near(v, vectors, d, picks) <= Near(v, vectors, d, picks[..j])
  {
    var q := picks[..j];
    NearIsMinimum(v, vectors, d, picks);
    NearIsMinimum(v, vectors, d, q);
    var p :| 0 <= p < |q| && Near(v, vectors, d, q) == d(v, vectors[q[p]]);
    assert q[p] == picks[p];
  }

  /** Any two picks are at least as far apart as any point still is from the picks. */
  lemma PicksSeparated<T(!new)>(vectors: seq<T>, norm: T -> real, d: (T, T) -> real, picks: seq<nat>,
                                p: nat, q: nat, v: nat)
    requires Metric(d) && Greedy(vectors, norm, d, picks)
    requires p < q < |picks| && v < |vectors|
    ensures d(vectors[picks[p]], vectors[picks[q]]) >= Near(vectors[v], vectors, d, picks)
  {
    var before := picks[..q];
    var all := NearAll(vectors, d, before);
    assert picks[q] == ArgMax(all);
    ArgMaxIsFirstLargest(all);
    NearIsMinimum(vectors[picks[q]], vectors, d, before);
    assert all[v] <= all[picks[q]];
    assert before[p] == picks[p];
    NearShrinks(vectors[v], vectors, d, picks, q);
  }

  /** Two points of one centre are within twice its radius. */
  lemma SameCentreClose<T(!new)>(d: (T, T) -> real, x: T, y: T, c: T, r: real)
    requires Metric(d) && d(x, c) <= r && d(y, c) <= r
    ensures d(x, y) <= 2.0 * r
  {
    assert d(x, y) <= d(x, c) + d(c, y);
  }

  /** Gonzalez's bound: no k centres anywhere in the space cover the points with less than half the radius. */
  lemma WithinTwiceOptimal<T(!new)>(vectors: seq<T>, norm: T -> real, d: (T, T) -> real, picks: seq<nat>,
                                    centres: seq<T>, r: real)
    requires Metric(d) && Greedy(vectors, norm, d, picks)
    requires |centres| <= |picks| && Covers(centres, vectors, d, r)
    ensures Covers(Points(vectors, picks), vectors, d, 2.0 * r)
  {
    forall v: nat | v < |vectors|
      ensures exists c :: 0 <= c < |picks| && d(vectors[v], Points(vectors, picks)[c]) <= 2.0 * r
    {
      if Near(vectors[v], vectors, d, picks) > 2.0 * r {
        TooManySeparated(vectors, norm, d, picks, centres, r, v);
      }
      NearIsMinimum(vectors[v], vectors, d, picks);
      var c :| 0 <= c < |picks| && Near(vectors[v], vectors, d, picks) == d(vectors[v], vectors[picks[c]]);
      assert Points(vectors, picks)[c] == vectors[picks[c]];
    }
  }

  ghost function CentreOf<T(!new)>(x: T, centres: seq<T>, d: (T, T) -> real, r: real): (c: nat)
    requires exists c :: 0 <= c < |centres| && d(x, centres[c]) <= r
    ensures c < |centres| && d(x, centres[c]) <= r
  {
    var c :| 0 <= c < |centres| && d(x, centres[c]) <= r;
    c
  }

  lemma TooManySeparated<T(!new)>(vectors: seq<T>, norm: T -> real, d: (T, T) -> real, picks: seq<nat>,
                                  centres: seq<T>, r: real, v: nat)
    requires Metric(d) && Greedy(vectors, norm, d, picks)
    requires |centres| <= |picks| && Covers(centres, vectors, d, r)
    requires v < |vectors|
    ensures Near(vectors[v], vectors, d, picks) <= 2.0 * r
  {
    var far := picks + [v];
    var box := seq(|far|, (i: nat) requires i < |far| => CentreOf(vectors[far[i]], centres, d, r));
    TwoShareABox(box, |centres|);
    var i, j :| 0 <= i < j < |box| && box[i] == box[j];
    SameCentreClose(d, vectors[far[i]], vectors[far[j]], centres[box[i]], r);
    FarApart(vectors, norm, d, picks, far, v, i, j);
  }

  lemma FarApart<T(!new)>(vectors: seq<T>, norm: T -> real, d: (T, T) -> real, picks: seq<nat>, far: seq<nat>,
                          v: nat, i: nat, j: nat)
    requires Metric(d) && Greedy(vectors, norm, d, picks)
    requires v < |vectors| && far == picks + [v] && i < j < |far|
    ensures far[i] < |vectors| && far[j] < |vectors|
    ensures d(vectors[far[i]], vectors[far[j]]) >= Near(vectors[v], vectors, d, picks)
  {
    if j < |picks| {
      PicksSeparated(vectors, norm, d, picks, i, j, v);
    } else {
      NearIsMinimum(vectors[v], vectors, d, picks);
      assert Near(vectors[v], vectors, d, picks) <= d(vectors[v], vectors[picks[i]]);
    }
  }

  /** The same bound for the selection that is returned: sorting the picks does not change the points they cover. */
  lemma SelectionWithinTwiceOptimal<T(!new)>(vectors: seq<T>, norm: T -> real, d: (T, T) -> real, k: nat,
                                             sel: seq<nat>, centres: seq<T>, r: real)
    requires Metric(d) && Sampled(vectors, norm, d, k, sel)
    requires |centres| <= |sel| && Covers(centres, vectors, d, r)
    ensures Indices(sel, |vectors|) && Ascending(sel)
    ensures Covers(Points(vectors, sel), vectors, d, 2.0 * r)
  {
    var picks :| Greedy(vectors, norm, d, picks) && |picks| == (if k == 0 then 1 else k) && sel == Sort(picks, IntLe);
    SelectionIndices(picks, sel, |vectors|);
    WithinTwiceOptimal(vectors, norm, d, picks, centres, r);
    CoversReordered(vectors, d, picks, sel, 2.0 * r);
  }

  lemma CoversReordered<T(!new)>(vectors: seq<T>, d: (T, T) -> real, picks: seq<nat>, sel: seq<nat>, r: real)
    requires Indices(picks, |vectors|) && Indices(sel, |vectors|) && multiset(sel) == multiset(picks)
    requires Covers(Points(vectors, picks), vectors, d, r)
    ensures Covers(Points(vectors, sel), vectors, d, r)
  {
    forall i | 0 <= i < |vectors| ensures exists c :: 0 <= c < |sel| && d(vectors[i], Points(vectors, sel)[c]) <= r {
      var c :| 0 <= c < |picks| && d(vectors[i], Points(vectors, picks)[c]) <= r;
      assert picks[c] in multiset(picks);
      assert picks[c] in multiset(sel);
      var c' :| 0 <= c' < |sel| && sel[c'] == picks[c];
      assert Points(vectors, sel)[c'] == Points(vectors, picks)[c];
    }
  }

  lemma SelectionIndices(picks: seq<nat>, sel: seq<nat>, n: nat)
    requires Indices(picks, n) && sel == Sort(picks, IntLe)
    ensures Indices(sel, n) && |sel| == |picks| && Ascending(sel) && multiset(sel) == multiset(picks)
  {
    SortKeeps(picks, IntLe);
    SortSorts(picks, IntLe);
    forall j | 0 <= j < |sel| ensures sel[j] < n {
      assert sel[j] in multiset(picks);
    }
  }

  // ---------------------------------------------------------------- weights of an environment set

  function Count(labels: seq<nat>, x: nat): nat {
    if labels == [] then 0
    else Count(labels[..|labels| - 1], x) + (if labels[|labels| - 1] == x then 1 else 0)
  }

  lemma {:induction false} CountIs(labels: seq<nat>, x: nat)
    ensures Count(labels, x) == multiset(labels)[x]
  {
    if labels != [] {
      CountIs(labels[..|labels| - 1], x);
      assert labels == labels[..|labels| - 1] + [labels[|labels| - 1]];
    }
  }

  /** bincount: how many atoms carry each label below m. */
  function BinCount(labels: seq<nat>, m: nat): (r: seq<nat>)
    ensures |r| == m
    ensures forall j :: 0 <= j < m ==> r[j] == Count(labels, j)
  {
    seq(m, (j: nat) => Count(labels, j))
  }

  function Sum(counts: seq<nat>): nat {
    if counts == [] then 0 else Sum(counts[..|counts| - 1]) + counts[|counts| - 1]
  }

  function RealSum(s: seq<real>): real {
    if s == [] then 0.0 else RealSum(s[..|s| - 1]) + s[|s| - 1]
  }

  lemma {:induction false} SumStep(labels: seq<nat>, m: nat)
    requires labels != []
    ensures Sum(BinCount(labels, m)) ==
            Sum(BinCount(labels[..|labels| - 1], m)) + (if labels[|labels| - 1] < m then 1 else 0)
  {
    if m > 0 {
      SumStep(labels, m - 1);
      assert BinCount(labels, m)[..m - 1] == BinCount(labels, m - 1);
      assert BinCount(labels[..|labels| - 1], m)[..m - 1] == BinCount(labels[..|labels| - 1], m - 1);
    }
  }

  lemma {:induction false} SumNone(m: nat)
    ensures Sum(BinCount([], m)) == 0
  {
    if m > 0 {
      SumNone(m - 1);
      assert BinCount([], m)[..m - 1] == BinCount([], m - 1);
    }
  }

  /** Every atom is counted exactly once. */
  lemma {:induction false} CountsAddUp(labels: seq<nat>, m: nat)
    requires Indices(labels, m)
    ensures Sum(BinCount(labels, m)) == |labels|
  {
    if labels == [] {
      SumNone(m);
    } else {
      SumStep(labels, m);
      CountsAddUp(labels[..|labels| - 1], m);
    }
  }

  /** weights / weights.sum() */
  function Weights(counts: seq<nat>): (w: seq<real>)
    requires Sum(counts) > 0
    ensures |w| == |counts|
    ensures forall j :: 0 <= j < |counts| ==> w[j] == counts[j] as real / Sum(counts) as real
  {
    seq(|counts|, (j: nat) requires j < |counts| => counts[j] as real / Sum(counts) as real)
  }

  lemma QuotientAdds(x: real, y: real, t: real)
    requires t != 0.0
    ensures (x + y) / t == x / t + y / t
    ensures t / t == 1.0 && 0.0 / t == 0.0
  {
  }

  lemma {:induction false} WeightsPrefix(counts: seq<nat>, k: nat)
    requires Sum(counts) > 0 && k <= |counts|
    ensures RealSum(Weights(counts)[..k]) == Sum(counts[..k]) as real / Sum(counts) as real
  {
    var total := Sum(counts) as real;
    QuotientAdds(0.0, 0.0, total);
    if k > 0 {
      WeightsPrefix(counts, k - 1);
      QuotientAdds(Sum(counts[..k - 1]) as real, counts[k - 1] as real, total);
      assert Weights(counts)[..k][..k - 1] == Weights(counts)[..k - 1];
      assert counts[..k][..k - 1] == counts[..k - 1];
    }
  }

  /** Normalized weights sum to one. */
  lemma WeightsSumToOne(counts: seq<nat>)
    requires Sum(counts) > 0
    ensures RealSum(Weights(counts)) == 1.0
  {
    WeightsPrefix(counts, |counts|);
    QuotientAdds(0.0, 0.0, Sum(counts) as real);
    assert Weights(counts)[..|counts|] == Weights(counts);
    assert counts[..|counts|] == counts;
  }

  function AllLabels(n: nat): (r: seq<nat>)
    ensures |r| == n
    ensures forall i :: 0 <= i < n ==> r[i] == i
  {
    seq(n, (i: nat) => i)
  }

  /** numpy's unique: the distinct values in ascending order. */
  function Unique(s: seq<nat>): (u: seq<nat>)
    ensures forall x :: x in u <==> x in s
    ensures forall i, j :: 0 <= i < j < |u| ==> u[i] < u[j]
  {
    if s == [] then [] else InsertNew(s[0], Unique(s[1..]))
  }

  function InsertNew(x: nat, u: seq<nat>): (r: seq<nat>)
    requires forall i, j :: 0 <= i < j < |u| ==> u[i] < u[j]
    ensures forall y :: y in r <==> y == x || y in u
    ensures forall i, j :: 0 <= i < j < |r| ==> r[i] < r[j]
  {
    if u == [] then [x]
    else if x < u[0] then [x] + u
    else if x == u[0] then u
    else
      var rest := InsertNew(x, u[1..]);
      assert forall j :: 0 <= j < |rest| ==> rest[j] in rest && u[0] < rest[j];
      [u[0]] + rest
  }

  function GroupLabels(groups: seq<nat>): (r: seq<nat>)
    ensures |r| == |groups|
    ensures forall i :: 0 <= i < |groups| ==> r[i] < |Unique(groups)| && Unique(groups)[r[i]] == groups[i]
  {
    seq(|groups|, (i: nat) requires i < |groups| => IndexOf(Unique(groups), groups[i]))
  }

  /** The size of each symmetry class. */
  function GroupSizes(groups: seq<nat>): (r: seq<nat>)
    ensures |r| == |Unique(groups)|
  {
    seq(|Unique(groups)|, (j: nat) requires j < |Unique(groups)| => Count(groups, Unique(groups)[j]))
  }

  lemma {:induction false} CountRelabelled(a: seq<nat>, b: seq<nat>, x: nat, y: nat)
    requires |a| == |b| && forall i :: 0 <= i < |a| ==> (a[i] == x <==> b[i] == y)
    ensures Count(a, x) == Count(b, y)
  {
    if a != [] { CountRelabelled(a[..|a| - 1], b[..|b| - 1], x, y); }
  }

  lemma GroupSizesAreCounts(groups: seq<nat>)
    ensures GroupSizes(groups) == BinCount(GroupLabels(groups), |Unique(groups)|)
  {
    var u, labels := Unique(groups), GroupLabels(groups);
    forall j | 0 <= j < |u| ensures Count(groups, u[j]) == Count(labels, j) {
      CountRelabelled(groups, labels, u[j], j);
    }
  }

  function Ones(n: nat): (r: seq<nat>)
    ensures |r| == n
    ensures forall i :: 0 <= i < n ==> r[i] == 1
  {
    seq(n, (i: nat) => 1)
  }

  lemma {:induction false} CountOnce(n: nat, x: nat)
    ensures Count(AllLabels(n), x) == if x < n then 1 else 0
  {
    if n > 0 {
      CountOnce(n - 1, x);
      assert AllLabels(n)[..n - 1] == AllLabels(n - 1);
    }
  }

  lemma OnesAreCounts(n: nat)
    ensures Ones(n) == BinCount(AllLabels(n), n)
  {
    forall x | 0 <= x < n ensures Count(AllLabels(n), x) == 1 {
      CountOnce(n, x);
    }
  }

  /** For each atom, the first of the selected atoms nearest to it. */
  function NearestLabels<T>(vectors: seq<T>, d: (T, T) -> real, sel: seq<nat>): (r: seq<nat>)
    requires sel != [] && Indices(sel, |vectors|)
    ensures |r| == |vectors|
    ensures Indices(r, |sel|)
  {
    seq(|vectors|, (i: nat) requires i < |vectors| =>
                     ArgMin(Map(Points(vectors, sel), (p: T) => d(vectors[i], p))))
  }

  lemma NearestLabelIsNearest<T>(vectors: seq<T>, d: (T, T) -> real, sel: seq<nat>, i: nat, j: nat)
    requires sel != [] && Indices(sel, |vectors|) && i < |vectors| && j < |sel|
    ensures d(vectors[i], vectors[sel[NearestLabels(vectors, d, sel)[i]]]) <= d(vectors[i], vectors[sel[j]])
  {
    var s := Map(Points(vectors, sel), (p: T) => d(vectors[i], p));
    ArgMinIsFirstSmallest(s);
    assert s[j] == d(vectors[i], vectors[sel[j]]);
    assert s[ArgMin(s)] == d(vectors[i], vectors[sel[ArgMin(s)]]);
  }

  /** The environment set is an assignment of every atom to one selected atom; a weight is its share of atoms. */
  ghost predicate Partitions(labels: seq<nat>, n: nat, sel: seq<nat>, weights: seq<real>) {
    && n > 0 && |labels| == n && |weights| == |sel|
    && Indices(labels, |sel|)
    && forall j :: 0 <= j < |sel| ==> weights[j] == multiset(labels)[j] as real / n as real
  }

  lemma LabelsPartition(labels: seq<nat>, sel: seq<nat>)
    requires labels != [] && Indices(labels, |sel|)
    ensures var counts := BinCount(labels, |sel|);
            && Sum(counts) == |labels|
            && Partitions(labels, |labels|, sel, Weights(counts))
            && RealSum(Weights(counts)) == 1.0
  {
    var counts := BinCount(labels, |sel|);
    CountsAddUp(labels, |sel|);
    WeightsSumToOne(counts);
    forall j | 0 <= j < |sel| ensures Count(labels, j) == multiset(labels)[j] {
      CountIs(labels, j);
    }
  }

  /** Which atoms stand for the structure: one of each symmetry class, all of them, or the farthest-point picks; and
      which of them each atom counts for. */
  ghost predicate Selected<T(!new)>(vectors: seq<T>, norm: T -> real, d: (T, T) -> real, groups: Option<seq<nat>>,
                                    sel: seq<nat>, labels: seq<nat>, sampled: bool)
  {
    && Indices(sel, |vectors|) && Indices(labels, |sel|) && |labels| == |vectors|
    && if groups.Some? && |Unique(groups.value)| <= MAX_ENVS then
         sel == Unique(groups.value) && labels == GroupLabels(groups.value) && (sampled <==> |sel| == |vectors|)
       else if |vectors| <= MAX_ENVS then
         sel == labels == AllLabels(|vectors|) && sampled
       else
         && Sampled(vectors, norm, d, MAX_ENVS, sel) && |sel| == MAX_ENVS && sampled
         && labels == NearestLabels(vectors, d, sel)
  }

  lemma SampledSize<T>(vectors: seq<T>, norm: T -> real, d: (T, T) -> real, k: nat, sel: seq<nat>)
    requires Sampled(vectors, norm, d, k, sel)
    ensures Indices(sel, |vectors|) && |sel| == if k == 0 then 1 else k
  {
    var picks :| Greedy(vectors, norm, d, picks) && |picks| == (if k == 0 then 1 else k) && sel == Sort(picks, IntLe);
    SelectionIndices(picks, sel, |vectors|);
  }

  lemma GroupsSelect<T(!new)>(vectors: seq<T>, norm: T -> real, d: (T, T) -> real, groups: seq<nat>)
    requires |groups| == |vectors| && Indices(groups, |vectors|) && |Unique(groups)| <= MAX_ENVS
    ensures var sel := Unique(groups);
            && Selected(vectors, norm, d, Some(groups), sel, GroupLabels(groups), |sel| == |vectors|)
            && GroupSizes(groups) == BinCount(GroupLabels(groups), |sel|)
  {
    var sel := Unique(groups);
    GroupSizesAreCounts(groups);
    assert forall j :: 0 <= j < |sel| ==> sel[j] in sel && sel[j] in groups;
  }

  lemma FpsSelects<T(!new)>(vectors: seq<T>, norm: T -> real, d: (T, T) -> real, groups: Option<seq<nat>>,
                            sel: seq<nat>)
    requires Sampled(vectors, norm, d, MAX_ENVS, sel) && |vectors| > MAX_ENVS
    requires groups.Some? ==> |Unique(groups.value)| > MAX_ENVS
    ensures Indices(sel, |vectors|) && sel != []
    ensures Selected(vectors, norm, d, groups, sel, NearestLabels(vectors, d, sel), true)
  {
    SampledSize(vectors, norm, d, MAX_ENVS, sel);
  }

  method Select<T(!new)>(vectors: seq<T>, norm: T -> real, d: (T, T) -> real, groups: Option<seq<nat>>)
    returns (sel: seq<nat>, counts: seq<nat>, sampled: bool)
    requires vectors != []
    requires groups.Some? ==> |groups.value| == |vectors| && Indices(groups.value, |vectors|)
    ensures exists labels :: Selected(vectors, norm, d, groups, sel, labels, sampled) &&
                             counts == BinCount(labels, |sel|)
  {
    sampled := true;
    ghost var labels;
    if groups.Some? && |Unique(groups.value)| <= MAX_ENVS {
      sel := Unique(groups.value);
      counts := GroupSizes(groups.value);
      labels := GroupLabels(groups.value);
      sampled := |sel| == |vectors|;
      GroupsSelect(vectors, norm, d, groups.value);
    } else if |vectors| <= MAX_ENVS {
      sel := AllLabels(|vectors|);
      counts := Ones(|vectors|);
      labels := sel;
      OnesAreCounts(|vectors|);
    } else {
      sel := Fps(vectors, norm, d, MAX_ENVS);
      FpsSelects(vectors, norm, d, groups, sel);
      counts := BinCount(NearestLabels(vectors, d, sel), |sel|);
      labels := NearestLabels(vectors, d, sel);
    }
    assert Selected(vectors, norm, d, groups, sel, labels, sampled) && counts == BinCount(labels, |sel|);
  }

  /** The selection and weights of embed. groups is spglib's symmetry class of each atom, None when it fails. */
  method Embed<T(!new)>(vectors: seq<T>, norm: T -> real, d: (T, T) -> real, groups: Option<seq<nat>>)
    returns (sel: seq<nat>, weights: seq<real>, sampled: bool)
    requires vectors != []
    requires groups.Some? ==> |groups.value| == |vectors| && Indices(groups.value, |vectors|)
    ensures exists labels :: Selected(vectors, norm, d, groups, sel, labels, sampled) &&
                             Partitions(labels, |vectors|, sel, weights)
    ensures RealSum(weights) == 1.0
  {
    var counts;
    sel, counts, sampled := Select(vectors, norm, d, groups);
    ghost var labels :| Selected(vectors, norm, d, groups, sel, labels, sampled) && counts == BinCount(labels, |sel|);
    LabelsPartition(labels, sel);
    weights := Weights(counts);
  }
}
