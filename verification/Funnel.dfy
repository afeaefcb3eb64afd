/** funnel_search of omdc/index.py: exact k-nearest-neighbour search that visits candidates in ascending order
    of a cheap bound and stops at the first one the k best distances rule out. The bound and the exact distance
    are functions of the key; only the relation between them is assumed. */
module Funnel {
  import opened Ordering

  type Scored = (real, string)

  function Scores(keys: seq<string>, score: string -> real): seq<Scored> {
    Map(keys, (key: string) => (score(key), key))
  }

  function Rescored(s: seq<Scored>, score: string -> real): seq<Scored> {
    Map(s, (p: Scored) => (score(p.1), p.1))
  }

  function Named(s: seq<Scored>): seq<(string, real)> {
    Map(s, (p: Scored) => (p.1, p.0))
  }

  function Best(s: seq<Scored>, k: nat): (r: seq<Scored>)
    ensures |r| == if |s| < k then |s| else k
  {
    SortKeeps(s, RealStringLe);
    var all := Sort(s, RealStringLe);
    if |all| < k then all else all[..k]
  }

  /** The order the loop visits candidates in. */
  function Visit(keys: seq<string>, bound: string -> real): (order: seq<Scored>)
    ensures |order| == |keys|
  {
    SortKeeps(Scores(keys, bound), RealStringLe);
    Sort(Scores(keys, bound), RealStringLe)
  }

  lemma VisitPermutes(keys: seq<string>, bound: string -> real)
    ensures multiset(Visit(keys, bound)) == multiset(Scores(keys, bound))
  {
    SortKeeps(Scores(keys, bound), RealStringLe);
  }

  /** The brute-force answer: the first k of all exact distances, ties broken by key. */
  function Nearest(keys: seq<string>, exact: string -> real, k: nat): seq<Scored> {
    Best(Scores(keys, exact), k)
  }

  function Evaluated(keys: seq<string>, bound: string -> real, n: nat): seq<string>
    requires n <= |keys|
  {
    Map(Visit(keys, bound)[..n], (p: Scored) => p.1)
  }

  predicate Within(bound: real, margin: real, d: real) {
    bound <= d * margin
  }

  /** The bound is certified up to the margin. With margin 1 this is a plain lower bound. */
  ghost predicate Certified(keys: seq<string>, bound: string -> real, exact: string -> real, margin: real) {
    margin > 0.0 && forall key :: key in keys ==> bound(key) <= exact(key) * margin
  }

  lemma ProductSign(x: real, y: real)
    requires x >= 0.0 && y >= 0.0
    ensures x * y >= 0.0
  {
  }

  lemma ProductDifference(x: real, y: real, m: real)
    ensures (x - y) * m == x * m - y * m
  {
  }

  lemma WithinFarther(bound: real, margin: real, d: real, d': real)
    requires margin > 0.0 && d <= d' && Within(bound, margin, d)
    ensures Within(bound, margin, d')
  {
    ProductSign(d' - d, margin);
    ProductDifference(d', d, margin);
  }

  /** One scored key comes before another: nearer, or as near with a key not greater. */
  ghost predicate NotAfter(d: real, key: string, d': real, key': string) {
    d < d' || (d == d' && StringLe(key, key'))
  }

  /** The k nearest keys with their distances, ascending, ties by key. */
  ghost predicate KNearest(keys: seq<string>, exact: string -> real, k: nat, result: seq<(string, real)>) {
    && |result| == (if |keys| < k then |keys| else k)
    && (forall i :: 0 <= i < |result| ==> result[i].0 in keys && result[i].1 == exact(result[i].0))
    && (forall i, j :: 0 <= i < j < |result| ==> NotAfter(result[i].1, result[i].0, result[j].1, result[j].0))
    && (forall key :: key in keys ==>
          (exists i :: 0 <= i < |result| && result[i].0 == key) ||
          forall i :: 0 <= i < |result| ==> NotAfter(result[i].1, result[i].0, exact(key), key))
    && (Distinct(keys) ==> forall i, j :: 0 <= i < j < |result| ==> result[i].0 != result[j].0)
  }

  lemma ScoredAt(keys: seq<string>, exact: string -> real, i: nat)
    requires |Sort(Scores(keys, exact), RealStringLe)| == |keys| && i < |keys|
    ensures var p := Sort(Scores(keys, exact), RealStringLe)[i];
            p.1 in keys && p.0 == exact(p.1)
  {
    var scores := Scores(keys, exact);
    var all := Sort(scores, RealStringLe);
    SortKeeps(scores, RealStringLe);
    assert all[i] in multiset(all);
    assert all[i] in multiset(scores);
    var j :| 0 <= j < |scores| && scores[j] == all[i];
    assert keys[j] in keys;
  }

  lemma KeyScored(keys: seq<string>, exact: string -> real, key: string) returns (i: nat)
    requires key in keys && |Sort(Scores(keys, exact), RealStringLe)| == |keys|
    ensures i < |keys| && Sort(Scores(keys, exact), RealStringLe)[i] == (exact(key), key)
  {
    var scores := Scores(keys, exact);
    var all := Sort(scores, RealStringLe);
    SortKeeps(scores, RealStringLe);
    var j :| 0 <= j < |keys| && keys[j] == key;
    assert scores[j] == (exact(key), key);
    assert (exact(key), key) in multiset(scores);
    assert (exact(key), key) in multiset(all);
    i :| 0 <= i < |all| && all[i] == (exact(key), key);
  }

  lemma DistinctScored(keys: seq<string>, exact: string -> real, i: nat, j: nat)
    requires Distinct(keys) && |Sort(Scores(keys, exact), RealStringLe)| == |keys| && i < j < |keys|
    ensures Sort(Scores(keys, exact), RealStringLe)[i].1 != Sort(Scores(keys, exact), RealStringLe)[j].1
  {
    var scores := Scores(keys, exact);
    assert Distinct(scores) by {
      assert forall m :: 0 <= m < |keys| ==> scores[m].1 == keys[m];
    }
    SortDistinct(scores, RealStringLe);
    ScoredAt(keys, exact, i);
    ScoredAt(keys, exact, j);
  }

  lemma NearestAre(keys: seq<string>, exact: string -> real, k: nat)
    ensures KNearest(keys, exact, k, Named(Nearest(keys, exact, k)))
  {
    var scores := Scores(keys, exact);
    var all, result := Sort(scores, RealStringLe), Named(Nearest(keys, exact, k));
    RealStringOrder();
    SortKeeps(scores, RealStringLe);
    SortSorts(scores, RealStringLe);
    assert forall i :: 0 <= i < |result| ==> result[i] == (all[i].1, all[i].0);
    forall i | 0 <= i < |result| ensures result[i].0 in keys && result[i].1 == exact(result[i].0) {
      ScoredAt(keys, exact, i);
    }
    forall i, j | 0 <= i < j < |result| ensures NotAfter(result[i].1, result[i].0, result[j].1, result[j].0) {
      assert RealStringLe(all[i], all[j]);
    }
    forall key | key in keys
      ensures (exists i :: 0 <= i < |result| && result[i].0 == key) ||
              forall i :: 0 <= i < |result| ==> NotAfter(result[i].1, result[i].0, exact(key), key)
    {
      var m := KeyScored(keys, exact, key);
      if m < |result| {
        assert result[m].0 == key;
      } else {
        forall i | 0 <= i < |result| ensures NotAfter(result[i].1, result[i].0, exact(key), key) {
          assert RealStringLe(all[i], all[m]);
        }
      }
    }
    if Distinct(keys) {
      forall i, j | 0 <= i < j < |result| ensures result[i].0 != result[j].0 {
        DistinctScored(keys, exact, i, j);
      }
    }
  }

  // ---------------------------------------------------------------- keeping the k best

  lemma {:induction false} InsertTake(x: Scored, s: seq<Scored>, k: nat)
    requires k <= |s|
    ensures |Insert(x, s, RealStringLe)| == |s| + 1 && |Insert(x, s[..k], RealStringLe)| == k + 1
    ensures Insert(x, s, RealStringLe)[..k] == Insert(x, s[..k], RealStringLe)[..k]
  {
    InsertKeeps(x, s, RealStringLe);
    InsertKeeps(x, s[..k], RealStringLe);
    if k > 0 && RealStringLe(x, s[0]) {
      assert ([x] + s)[..k] == [x] + s[..k - 1] == ([x] + s[..k])[..k];
    } else if k > 0 {
      InsertTake(x, s[1..], k - 1);
      InsertAfterHead(x, s, k);
    }
  }

  lemma InsertAfterHead(x: Scored, s: seq<Scored>, k: nat)
    requires 0 < k <= |s| && !RealStringLe(x, s[0])
    requires |Insert(x, s[1..], RealStringLe)| >= k - 1 && |Insert(x, s[1..][..k - 1], RealStringLe)| >= k - 1
    ensures Insert(x, s, RealStringLe) == [s[0]] + Insert(x, s[1..], RealStringLe)
    ensures Insert(x, s[..k], RealStringLe) == [s[0]] + Insert(x, s[1..][..k - 1], RealStringLe)
    ensures Insert(x, s, RealStringLe)[..k] == [s[0]] + Insert(x, s[1..], RealStringLe)[..k - 1]
    ensures Insert(x, s[..k], RealStringLe)[..k] == [s[0]] + Insert(x, s[1..][..k - 1], RealStringLe)[..k - 1]
  {
    assert s[..k][1..] == s[1..][..k - 1];
  }

  lemma {:induction false} InsertedOrUnchanged(x: Scored, s: seq<Scored>)
    ensures |Insert(x, s, RealStringLe)| == |s| + 1
    ensures Insert(x, s, RealStringLe)[..|s|] == s || x in Insert(x, s, RealStringLe)[..|s|]
  {
    InsertKeeps(x, s, RealStringLe);
    if s != [] && !RealStringLe(x, s[0]) {
      InsertedOrUnchanged(x, s[1..]);
      var r := Insert(x, s[1..], RealStringLe);
      assert Insert(x, s, RealStringLe)[..|s|] == [s[0]] + r[..|s| - 1];
    } else if s != [] {
      assert Insert(x, s, RealStringLe)[..|s|][0] == x;
    }
  }

  lemma SortAppend(s: seq<Scored>, x: Scored)
    ensures Sort(s + [x], RealStringLe) == Insert(x, Sort(s, RealStringLe), RealStringLe)
  {
    RealStringOrder();
    assert multiset(s + [x]) == multiset([x] + s);
    SortPermuted(s + [x], [x] + s, RealStringLe);
    assert ([x] + s)[1..] == s;
  }

  lemma SortSorted(s: seq<Scored>)
    requires Sorted(s, RealStringLe)
    ensures Sort(s, RealStringLe) == s
  {
    RealStringOrder();
    SortKeeps(s, RealStringLe);
    SortSorts(s, RealStringLe);
    SortedUnique(Sort(s, RealStringLe), s, RealStringLe);
  }

  lemma BestSorted(s: seq<Scored>, k: nat)
    ensures Sorted(Best(s, k), RealStringLe)
  {
    RealStringOrder();
    SortSorts(s, RealStringLe);
  }

  /** append, sort, truncate keeps exactly the k best of everything seen. */
  lemma KeepBest(seen: seq<Scored>, x: Scored, k: nat)
    ensures Best(seen + [x], k) == Best(Best(seen, k) + [x], k)
  {
    var all := Sort(seen, RealStringLe);
    SortKeeps(seen, RealStringLe);
    SortAppend(seen, x);
    SortAppend(Best(seen, k), x);
    BestSorted(seen, k);
    SortSorted(Best(seen, k));
    if k <= |all| {
      InsertTake(x, all, k);
    }
  }

  /** Anything that no kept element exceeds can be left out. */
  lemma DropWorse(kept: seq<Scored>, others: seq<Scored>)
    requires Sorted(kept, RealStringLe)
    requires forall i, j :: 0 <= i < |kept| && 0 <= j < |others| ==> RealStringLe(kept[i], others[j])
    ensures Best(kept + others, |kept|) == kept
  {
    RealStringOrder();
    var tail := Sort(others, RealStringLe);
    SortKeeps(others, RealStringLe);
    SortSorts(others, RealStringLe);
    SortKeeps(kept + others, RealStringLe);
    SortSorts(kept + others, RealStringLe);
    forall i, j | 0 <= i < j < |kept + tail| ensures RealStringLe((kept + tail)[i], (kept + tail)[j]) {
      if i < |kept| <= j {
        assert tail[j - |kept|] in multiset(tail);
        assert tail[j - |kept|] in multiset(others);
      }
    }
    SortedUnique(Sort(kept + others, RealStringLe), kept + tail, RealStringLe);
  }

  // ---------------------------------------------------------------- the search

  ghost predicate AllWithin(met: seq<Scored>, margin: real, d: real) {
    forall i :: 0 <= i < |met| ==> Within(met[i].0, margin, d)
  }

  /** Every bound met so far is within the margin of the k-th best distance. */
  ghost predicate MetWithin(order: seq<Scored>, n: nat, margin: real, best: seq<Scored>, k: nat)
    requires n <= |order|
  {
    |best| == k >= 1 ==> AllWithin(order[..n], margin, best[k - 1].0)
  }

  /** No evaluation is wasted and none is missing: the evaluated keys are those the k-th best cannot rule out. */
  ghost predicate NoneWasted(keys: seq<string>, bound: string -> real, margin: real, evals: nat, kth: real)
    requires evals <= |keys|
  {
    forall key :: key in keys ==> (key in Evaluated(keys, bound, evals) <==> bound(key) <= kth * margin)
  }

  /** The keys whose bound the k-th best distance cannot rule out. */
  ghost function RuledIn(keys: seq<string>, bound: string -> real, margin: real, kth: real): set<string> {
    set key | key in keys && bound(key) <= kth * margin
  }

  /** After n evaluations best holds the k best of them. */
  ghost predicate Searched(keys: seq<string>, bound: string -> real, exact: string -> real, margin: real, k: nat,
                           best: seq<Scored>, n: nat)
  {
    && n <= |keys|
    && best == Best(Rescored(Visit(keys, bound)[..n], exact), k)
    && (Certified(keys, bound, exact, margin) ==> MetWithin(Visit(keys, bound), n, margin, best, k))
  }

  /** The k nearest, after evaluating exactly the keys that the k-th of them cannot rule out. */
  ghost predicate Found(keys: seq<string>, bound: string -> real, exact: string -> real, margin: real, k: nat,
                        result: seq<(string, real)>, evals: nat)
    requires evals <= |keys|
  {
    && KNearest(keys, exact, k, result)
    && (|result| == k >= 1 ==>
        NoneWasted(keys, bound, margin, evals, result[k - 1].1) &&
        (Distinct(keys) ==> evals == |RuledIn(keys, bound, margin, result[k - 1].1)|))
  }

  method FunnelSearch(keys: seq<string>, bound: string -> real, exact: string -> real, k: nat, margin: real)
    returns (result: seq<(string, real)>, evals: nat)
    requires k >= 1 || keys == []
    ensures evals <= |keys|
    ensures result == Named(Best(Rescored(Visit(keys, bound)[..evals], exact), k))
    ensures evals < |keys| ==> |result| == k && !Within(Visit(keys, bound)[evals].0, margin, result[k - 1].1)
    ensures Certified(keys, bound, exact, margin) ==> Found(keys, bound, exact, margin, k, result, evals)
  {
    var bounds := Visit(keys, bound);
    var best: seq<Scored> := [];
    evals := 0;
    while evals < |bounds|
      invariant Searched(keys, bound, exact, margin, k, best, evals)
    {
      var key := bounds[evals].1;
      if |best| == k && !Within(bounds[evals].0, margin, best[k - 1].0) {
        break;
      }
      SearchStep(keys, bound, exact, margin, k, best, evals);
      best := Best(best + [(exact(key), key)], k);
      evals := evals + 1;
    }
    result := Named(best);
    SearchDone(keys, bound, exact, margin, k, best, evals, result);
  }

  lemma EvaluatedExactly(keys: seq<string>, bound: string -> real, margin: real, n: nat, kth: real)
    requires n <= |keys| && margin > 0.0
    requires AllWithin(Visit(keys, bound)[..n], margin, kth)
    requires n < |keys| ==> !Within(Visit(keys, bound)[n].0, margin, kth)
    ensures NoneWasted(keys, bound, margin, n, kth)
  {
    var order := Visit(keys, bound);
    VisitSorted(keys, bound);
    VisitPermutes(keys, bound);
    assert forall i :: 0 <= i < n ==> Evaluated(keys, bound, n)[i] == order[i].1;
    forall key | key in keys ensures key in Evaluated(keys, bound, n) <==> Within(bound(key), margin, kth) {
      if key in Evaluated(keys, bound, n) {
        var i :| 0 <= i < n && Evaluated(keys, bound, n)[i] == key;
        assert Within(order[..n][i].0, margin, kth);
      } else {
        var j :| 0 <= j < |keys| && keys[j] == key;
        assert Scores(keys, bound)[j] == (bound(key), key);
        assert (bound(key), key) in multiset(Scores(keys, bound));
        assert (bound(key), key) in multiset(order);
        var i :| 0 <= i < |order| && order[i] == (bound(key), key);
        assert i >= n;
      }
    }
  }

  lemma EvaluatedDistinct(keys: seq<string>, bound: string -> real, n: nat)
    requires Distinct(keys) && n <= |keys|
    ensures Distinct(Evaluated(keys, bound, n))
  {
    var order, scores := Visit(keys, bound), Scores(keys, bound);
    assert Distinct(scores) by {
      assert forall i :: 0 <= i < |keys| ==> scores[i].1 == keys[i];
    }
    SortDistinct(scores, RealStringLe);
    VisitSorted(keys, bound);
    var seen := Evaluated(keys, bound, n);
    forall i, j | 0 <= i < j < |seen| ensures seen[i] != seen[j] {
      assert order[i] != order[j];
    }
  }

  /** The number of exact evaluations is the number of keys the k-th best distance cannot rule out. */
  lemma EvaluationsCounted(keys: seq<string>, bound: string -> real, margin: real, n: nat, kth: real)
    requires Distinct(keys) && n <= |keys| && NoneWasted(keys, bound, margin, n, kth)
    ensures n == |RuledIn(keys, bound, margin, kth)|
  {
    var seen := Evaluated(keys, bound, n);
    EvaluatedDistinct(keys, bound, n);
    SizeOfDistinct(seen);
    VisitSorted(keys, bound);
    assert forall i :: 0 <= i < n ==> seen[i] == Visit(keys, bound)[i].1;
    assert forall key :: key in seen ==> key in keys;
    assert RuledIn(keys, bound, margin, kth) == set x | x in seen;
  }

  lemma SearchStep(keys: seq<string>, bound: string -> real, exact: string -> real, margin: real, k: nat,
                   best: seq<Scored>, n: nat)
    requires k >= 1 && n < |keys| && Searched(keys, bound, exact, margin, k, best, n)
    requires |best| == k ==> Within(Visit(keys, bound)[n].0, margin, best[k - 1].0)
    ensures var key := Visit(keys, bound)[n].1;
            Searched(keys, bound, exact, margin, k, Best(best + [(exact(key), key)], k), n + 1)
  {
    var order := Visit(keys, bound);
    var key := order[n].1;
    var seen := Rescored(order[..n], exact);
    assert Rescored(order[..n + 1], exact) == seen + [(exact(key), key)];
    KeepBest(seen, (exact(key), key), k);
    BestSorted(seen, k);
    if Certified(keys, bound, exact, margin) {
      BoundsStayWithin(keys, bound, exact, margin, k, best, n);
    }
  }

  lemma SearchDone(keys: seq<string>, bound: string -> real, exact: string -> real, margin: real, k: nat,
                   best: seq<Scored>, n: nat, result: seq<(string, real)>)
    requires k >= 1 || keys == []
    requires Searched(keys, bound, exact, margin, k, best, n) && result == Named(best)
    requires n < |keys| ==> |best| == k && !Within(Visit(keys, bound)[n].0, margin, best[k - 1].0)
    ensures n < |keys| ==> |result| == k && !Within(Visit(keys, bound)[n].0, margin, result[k - 1].1)
    ensures Certified(keys, bound, exact, margin) ==> Found(keys, bound, exact, margin, k, result, n)
  {
    if Certified(keys, bound, exact, margin) && |best| == k >= 1 {
      EvaluatedExactly(keys, bound, margin, n, best[k - 1].0);
      if Distinct(keys) { EvaluationsCounted(keys, bound, margin, n, best[k - 1].0); }
    }
    if Certified(keys, bound, exact, margin) {
      BestIsNearest(keys, bound, exact, margin, k, best, n);
      NearestAre(keys, exact, k);
    }
  }

  lemma BestIsNearest(keys: seq<string>, bound: string -> real, exact: string -> real, margin: real, k: nat,
                      best: seq<Scored>, n: nat)
    requires k >= 1 || keys == []
    requires Certified(keys, bound, exact, margin) && Searched(keys, bound, exact, margin, k, best, n)
    requires n < |keys| ==> |best| == k && !Within(Visit(keys, bound)[n].0, margin, best[k - 1].0)
    ensures best == Nearest(keys, exact, k)
  {
    if n == |keys| {
      assert Visit(keys, bound)[..n] == Visit(keys, bound);
      VisitsAll(keys, bound, exact);
      RealStringOrder();
      SortPermuted(Rescored(Visit(keys, bound), exact), Scores(keys, exact), RealStringLe);
    } else {
      PrunedAreWorse(keys, bound, exact, margin, k, n, best);
    }
  }

  /** Each visited pair holds a key's bound, in ascending order. */
  lemma VisitSorted(keys: seq<string>, bound: string -> real)
    ensures forall i :: 0 <= i < |keys| ==>
              Visit(keys, bound)[i].1 in keys && Visit(keys, bound)[i].0 == bound(Visit(keys, bound)[i].1)
    ensures forall i, j :: 0 <= i < j < |keys| ==> Visit(keys, bound)[i].0 <= Visit(keys, bound)[j].0
  {
    var order, scores := Visit(keys, bound), Scores(keys, bound);
    VisitPermutes(keys, bound);
    RealStringOrder();
    SortSorts(scores, RealStringLe);
    forall i | 0 <= i < |keys| ensures order[i].1 in keys && order[i].0 == bound(order[i].1) {
      assert order[i] in multiset(order);
      assert order[i] in multiset(scores);
      var j :| 0 <= j < |scores| && scores[j] == order[i];
      assert keys[j] == order[i].1;
    }
  }

  lemma NewBestHoldsOrKeeps(best: seq<Scored>, x: Scored, k: nat)
    requires |best| <= k && Sorted(best, RealStringLe)
    ensures |best| < k ==> x in Best(best + [x], k)
    ensures |best| == k ==> x in Best(best + [x], k) || Best(best + [x], k) == best
    ensures Sorted(Best(best + [x], k), RealStringLe)
  {
    BestSorted(best + [x], k);
    SortAppend(best, x);
    SortSorted(best);
    InsertedOrUnchanged(x, best);
    InsertKeeps(x, best, RealStringLe);
    assert x in multiset(Insert(x, best, RealStringLe));
  }

  /** A bound met before the k-th best distance shrinks is still within it afterwards. */
  lemma BoundsStayWithin(keys: seq<string>, bound: string -> real, exact: string -> real, margin: real, k: nat,
                         best: seq<Scored>, n: nat)
    requires Certified(keys, bound, exact, margin) && k >= 1 && n < |keys|
    requires |best| <= k && Sorted(best, RealStringLe)
    requires MetWithin(Visit(keys, bound), n, margin, best, k)
    requires |best| == k ==> Within(Visit(keys, bound)[n].0, margin, best[k - 1].0)
    ensures var key := Visit(keys, bound)[n].1;
            MetWithin(Visit(keys, bound), n + 1, margin, Best(best + [(exact(key), key)], k), k)
  {
    var order := Visit(keys, bound);
    var x := (exact(order[n].1), order[n].1);
    var best' := Best(best + [x], k);
    NewBestHoldsOrKeeps(best, x, k);
    if |best'| == k && best' != best {
      VisitSorted(keys, bound);
      var p :| 0 <= p < k && best'[p] == x;
      assert x.0 <= best'[k - 1].0;
      WithinFarther(order[n].0, margin, x.0, best'[k - 1].0);
    }
  }

  lemma BeyondKth(b: real, b': real, margin: real, d: real, kth: real)
    requires margin > 0.0 && b <= b' && Within(b', margin, d) && !Within(b, margin, kth)
    ensures d > kth
  {
    if d <= kth {
      WithinFarther(b', margin, d, kth);
    }
  }

  lemma VisitsAll(keys: seq<string>, bound: string -> real, exact: string -> real)
    ensures multiset(Rescored(Visit(keys, bound), exact)) == multiset(Scores(keys, exact))
  {
    VisitPermutes(keys, bound);
    MapPermuted(Visit(keys, bound), Scores(keys, bound), (p: Scored) => (exact(p.1), p.1));
    assert Rescored(Scores(keys, bound), exact) == Scores(keys, exact);
  }

  /** Past the break every exact distance exceeds the k-th best. */
  lemma PrunedAreFarther(keys: seq<string>, bound: string -> real, exact: string -> real, margin: real, n: nat,
                         kth: real)
    requires Certified(keys, bound, exact, margin) && n < |keys|
    requires !Within(Visit(keys, bound)[n].0, margin, kth)
    ensures forall b :: b in Rescored(Visit(keys, bound)[n..], exact) ==> b.0 > kth
  {
    var order := Visit(keys, bound);
    VisitSorted(keys, bound);
    forall b | b in Rescored(order[n..], exact) ensures b.0 > kth {
      var j :| 0 <= j < |order[n..]| && Rescored(order[n..], exact)[j] == b;
      BeyondKth(order[n].0, order[n + j].0, margin, b.0, kth);
    }
  }

  lemma BestOfSplit(seen: seq<Scored>, pruned: seq<Scored>, k: nat)
    requires 1 <= k <= |seen|
    requires forall b :: b in pruned ==> b.0 > Best(seen, k)[k - 1].0
    ensures Best(seen + pruned, k) == Best(seen, k)
  {
    var all := Sort(seen, RealStringLe);
    RealStringOrder();
    SortSorts(seen, RealStringLe);
    SortKeeps(seen, RealStringLe);
    var best, others := all[..k], all[k..] + pruned;
    SplitPermutes(seen, all, pruned, k);
    assert forall i :: 0 <= i < |pruned| ==> pruned[i] in pruned;
    forall i, j | 0 <= i < k && 0 <= j < |others| ensures RealStringLe(best[i], others[j]) {
      KeptBelow(all, pruned, k, i, j);
    }
    DropWorse(best, others);
    SortPermuted(seen + pruned, best + others, RealStringLe);
  }

  lemma SplitPermutes(seen: seq<Scored>, all: seq<Scored>, pruned: seq<Scored>, k: nat)
    requires k <= |all| && multiset(seen) == multiset(all)
    ensures multiset(seen + pruned) == multiset(all[..k] + (all[k..] + pruned))
  {
    assert all[..k] + (all[k..] + pruned) == all + pruned;
  }

  lemma KeptBelow(all: seq<Scored>, pruned: seq<Scored>, k: nat, i: nat, j: nat)
    requires Sorted(all, RealStringLe) && i < k <= |all| && j < |all| - k + |pruned|
    requires forall l :: 0 <= l < |pruned| ==> pruned[l].0 > all[k - 1].0
    ensures RealStringLe(all[i], (all[k..] + pruned)[j])
  {
    if j < |all| - k {
      assert (all[k..] + pruned)[j] == all[k + j];
    } else {
      assert i == k - 1 || RealStringLe(all[i], all[k - 1]);
    }
  }

  /** What the break skips cannot be among the k best. */
  lemma PrunedAreWorse(keys: seq<string>, bound: string -> real, exact: string -> real, margin: real, k: nat,
                       n: nat, best: seq<Scored>)
    requires Certified(keys, bound, exact, margin) && k >= 1 && n < |keys|
    requires best == Best(Rescored(Visit(keys, bound)[..n], exact), k) && |best| == k
    requires !Within(Visit(keys, bound)[n].0, margin, best[k - 1].0)
    ensures best == Nearest(keys, exact, k)
  {
    var order := Visit(keys, bound);
    var seen, pruned := Rescored(order[..n], exact), Rescored(order[n..], exact);
    PrunedAreFarther(keys, bound, exact, margin, n, best[k - 1].0);
    BestOfSplit(seen, pruned, k);
    assert Rescored(order, exact) == seen + pruned;
    VisitsAll(keys, bound, exact);
    RealStringOrder();
    SortPermuted(seen + pruned, Scores(keys, exact), RealStringLe);
  }
}
