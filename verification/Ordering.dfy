/** Python's sorted() over a total order, and the orders the sources sort by. */
module Ordering {

  ghost predicate TotalOrder<T(!new)>(le: (T, T) -> bool) {
    && (forall x, y :: le(x, y) || le(y, x))
    && (forall x, y :: le(x, y) && le(y, x) ==> x == y)
    && (forall x, y, z :: le(x, y) && le(y, z) ==> le(x, z))
  }

  ghost predicate Sorted<T>(s: seq<T>, le: (T, T) -> bool) {
    forall i, j :: 0 <= i < j < |s| ==> le(s[i], s[j])
  }

  function Insert<T>(x: T, s: seq<T>, le: (T, T) -> bool): seq<T> {
    if s == [] then [x] else if le(x, s[0]) then [x] + s else [s[0]] + Insert(x, s[1..], le)
  }

  function Sort<T>(s: seq<T>, le: (T, T) -> bool): seq<T> {
    if s == [] then [] else Insert(s[0], Sort(s[1..], le), le)
  }

  lemma {:induction false} InsertKeeps<T(!new)>(x: T, s: seq<T>, le: (T, T) -> bool)
    ensures multiset(Insert(x, s, le)) == multiset{x} + multiset(s)
    ensures |Insert(x, s, le)| == |s| + 1
  {
    if s != [] {
      assert s == [s[0]] + s[1..];
      InsertKeeps(x, s[1..], le);
    }
  }

  lemma {:induction false} InsertSorts<T(!new)>(x: T, s: seq<T>, le: (T, T) -> bool)
    requires TotalOrder(le) && Sorted(s, le)
    ensures Sorted(Insert(x, s, le), le)
  {
    if s != [] && !le(x, s[0]) {
      InsertSorts(x, s[1..], le);
      var r := Insert(x, s[1..], le);
      InsertKeeps(x, s[1..], le);
      forall j | 0 <= j < |r| ensures le(s[0], r[j]) {
        assert r[j] in multiset(r);
        if r[j] != x {
          assert r[j] in multiset(s[1..]);
        }
      }
    }
  }

  lemma {:induction false} SortKeeps<T(!new)>(s: seq<T>, le: (T, T) -> bool)
    ensures multiset(Sort(s, le)) == multiset(s)
    ensures |Sort(s, le)| == |s|
  {
    if s != [] {
      assert s == [s[0]] + s[1..];
      SortKeeps(s[1..], le);
      InsertKeeps(s[0], Sort(s[1..], le), le);
    }
  }

  lemma {:induction false} SortSorts<T(!new)>(s: seq<T>, le: (T, T) -> bool)
    requires TotalOrder(le)
    ensures Sorted(Sort(s, le), le)
  {
    if s != [] {
      SortSorts(s[1..], le);
      InsertSorts(s[0], Sort(s[1..], le), le);
    }
  }

  lemma LeastFirst<T(!new)>(a: seq<T>, b: seq<T>, le: (T, T) -> bool)
    requires TotalOrder(le) && Sorted(b, le) && a != [] && multiset(a) == multiset(b)
    ensures b != [] && le(b[0], a[0])
  {
    assert a[0] in multiset(b);
    var i :| 0 <= i < |b| && b[i] == a[0];
  }

  lemma TailSet<T>(a: seq<T>)
    requires a != []
    ensures a == [a[0]] + a[1..] && multiset(a[1..]) == multiset(a) - multiset{a[0]}
  {
    assert a == [a[0]] + a[1..];
  }

  /** A sorted arrangement of given elements is unique. */
  lemma {:induction false} SortedUnique<T(!new)>(a: seq<T>, b: seq<T>, le: (T, T) -> bool)
    requires TotalOrder(le) && Sorted(a, le) && Sorted(b, le) && multiset(a) == multiset(b)
    ensures a == b
  {
    assert |multiset(a)| == |a| && |multiset(b)| == |b|;
    if a != [] {
      LeastFirst(a, b, le);
      LeastFirst(b, a, le);
      TailSet(a);
      TailSet(b);
      SortedUnique(a[1..], b[1..], le);
    }
  }

  /** Sorting forgets the order its input came in. */
  lemma SortPermuted<T(!new)>(a: seq<T>, b: seq<T>, le: (T, T) -> bool)
    requires TotalOrder(le) && multiset(a) == multiset(b)
    ensures Sort(a, le) == Sort(b, le)
  {
    SortKeeps(a, le);
    SortKeeps(b, le);
    SortSorts(a, le);
    SortSorts(b, le);
    SortedUnique(Sort(a, le), Sort(b, le), le);
  }

  function IndexOf<T(==)>(s: seq<T>, x: T): (i: nat)
    requires x in s
    ensures i < |s| && s[i] == x
  {
    if s[0] == x then 0 else 1 + IndexOf(s[1..], x)
  }

  function Map<T, U>(s: seq<T>, f: T -> U): (r: seq<U>)
    ensures |r| == |s|
    ensures forall i :: 0 <= i < |s| ==> r[i] == f(s[i])
  {
    seq(|s|, (i: nat) requires i < |s| => f(s[i]))
  }

  lemma RemoveAt<T>(s: seq<T>, i: nat)
    requires i < |s|
    ensures multiset(s) == multiset(s[..i] + s[i + 1..]) + multiset{s[i]}
  {
    assert s == s[..i] + [s[i]] + s[i + 1..];
  }

  lemma MapRemoveAt<T, U>(s: seq<T>, i: nat, f: T -> U)
    requires i < |s|
    ensures multiset(Map(s, f)) == multiset(Map(s[..i] + s[i + 1..], f)) + multiset{f(s[i])}
  {
    RemoveAt(Map(s, f), i);
    assert Map(s[..i] + s[i + 1..], f) == Map(s, f)[..i] + Map(s, f)[i + 1..];
  }

  lemma MapHead<T, U>(a: seq<T>, f: T -> U)
    requires a != []
    ensures multiset(Map(a, f)) == multiset(Map(a[1..], f)) + multiset{f(a[0])}
  {
    assert Map(a, f) == [f(a[0])] + Map(a[1..], f);
  }

  /** Takes one occurrence of an element away. */
  lemma TakeAway<T>(x: T, b: seq<T>) returns (i: nat)
    requires x in multiset(b)
    ensures i < |b| && b[i] == x && multiset(b) == multiset(b[..i] + b[i + 1..]) + multiset{x}
  {
    i :| i < |b| && b[i] == x;
    RemoveAt(b, i);
  }

  /** Applying a function element by element keeps two rearrangements rearrangements. */
  lemma {:induction false} MapPermuted<T, U>(a: seq<T>, b: seq<T>, f: T -> U)
    requires multiset(a) == multiset(b)
    ensures multiset(Map(a, f)) == multiset(Map(b, f))
  {
    if a == [] {
      assert |multiset(b)| == 0;
    } else {
      TailSet(a);
      assert a[0] in multiset(b);
      var i := TakeAway(a[0], b);
      var b' := b[..i] + b[i + 1..];
      assert multiset(a[1..]) == multiset(b');
      MapPermuted(a[1..], b', f);
      MapHead(a, f);
      MapRemoveAt(b, i, f);
    }
  }

  /** A place of the second list for every place of the first, no two the same, holding the same value. */
  ghost predicate Rearranges<T>(s: seq<T>, t: seq<T>, perm: seq<nat>) {
    && |perm| == |s| == |t|
    && (forall i :: 0 <= i < |perm| ==> perm[i] < |t| && s[i] == t[perm[i]])
    && (forall i, j :: 0 <= i < j < |perm| ==> perm[i] != perm[j])
  }

  function Past(j: nat, p: nat): nat { if p < j then p else p + 1 }

  function AfterTaking(j: nat, rest: seq<nat>): (perm: seq<nat>)
    ensures |perm| == |rest| + 1 && perm[0] == j
    ensures forall i :: 1 <= i <= |rest| ==> perm[i] == Past(j, rest[i - 1])
  {
    [j] + Map(rest, (p: nat) => Past(j, p))
  }

  lemma PastTaken<T>(t: seq<T>, j: nat, p: nat)
    requires j < |t| && p < |t| - 1
    ensures Past(j, p) < |t| && Past(j, p) != j && t[Past(j, p)] == (t[..j] + t[j + 1..])[p]
  {
  }

  lemma TakenInFront<T>(s: seq<T>, t: seq<T>, j: nat, rest: seq<nat>)
    requires s != [] && j < |t| && t[j] == s[0] && Rearranges(s[1..], t[..j] + t[j + 1..], rest)
    ensures Rearranges(s, t, AfterTaking(j, rest))
  {
    var perm := AfterTaking(j, rest);
    forall i | 0 <= i < |perm| ensures perm[i] < |t| && s[i] == t[perm[i]] {
      if i > 0 {
        PastTaken(t, j, rest[i - 1]);
        assert s[1..][i - 1] == s[i];
      }
    }
    forall i, k | 0 <= i < k < |perm| ensures perm[i] != perm[k] {
      DistinctAfter(j, rest, i, k);
    }
  }

  lemma DistinctAfter(j: nat, rest: seq<nat>, i: nat, k: nat)
    requires i < k <= |rest| && forall m, n :: 0 <= m < n < |rest| ==> rest[m] != rest[n]
    ensures AfterTaking(j, rest)[i] != AfterTaking(j, rest)[k]
  {
    assert AfterTaking(j, rest)[k] == Past(j, rest[k - 1]);
    if i > 0 { assert rest[i - 1] != rest[k - 1]; }
  }

  lemma {:induction false} Rearrangement<T>(s: seq<T>, t: seq<T>) returns (perm: seq<nat>)
    requires multiset(s) == multiset(t)
    ensures Rearranges(s, t, perm)
  {
    assert |multiset(s)| == |s| && |multiset(t)| == |t|;
    if s == [] {
      perm := [];
    } else {
      TailSet(s);
      assert s[0] in multiset(t);
      var j := TakeAway(s[0], t);
      var rest := Rearrangement(s[1..], t[..j] + t[j + 1..]);
      TakenInFront(s, t, j, rest);
      perm := AfterTaking(j, rest);
    }
  }

  // ---------------------------------------------------------------- lists without repetition

  ghost predicate Distinct<T>(s: seq<T>) {
    forall i, j :: 0 <= i < j < |s| ==> s[i] != s[j]
  }

  /** Each value once, in the order first met, as the keys of a dict or a JavaScript set filled from a list. */
  function Once<T(==,!new)>(s: seq<T>): (r: seq<T>)
    ensures Distinct(r)
    ensures forall x :: x in r <==> x in s
  {
    if s == [] then []
    else
      var before := Once(s[..|s| - 1]);
      if s[|s| - 1] in before then before else before + [s[|s| - 1]]
  }

  lemma {:induction false} SizeOfDistinct<T(!new)>(s: seq<T>)
    requires Distinct(s)
    ensures |set x | x in s| == |s|
  {
    if s != [] {
      var init, last := s[..|s| - 1], s[|s| - 1];
      SizeOfDistinct(init);
      assert s == init + [last];
      assert (set x | x in s) == (set x | x in init) + {last};
      assert last !in init;
    }
  }

  /** x is met in the list before y is. */
  ghost predicate MetBefore<T>(s: seq<T>, x: T, y: T) {
    exists k :: 0 <= k < |s| && s[k] == x && y !in s[..k]
  }

  /** Values stand in the order in which the list first has them. */
  lemma {:induction false} OnceInOrder<T(!new)>(s: seq<T>, i: nat, j: nat)
    requires i < j < |Once(s)|
    ensures MetBefore(s, Once(s)[i], Once(s)[j])
  {
    var n := |s| - 1;
    var before := Once(s[..n]);
    if j < |before| {
      OnceInOrder(s[..n], i, j);
      var k :| 0 <= k < n && s[..n][k] == before[i] && before[j] !in s[..n][..k];
      assert s[..k] == s[..n][..k] && s[k] == before[i];
    } else {
      assert before[i] in s[..n];
      var k :| 0 <= k < n && s[k] == before[i];
      assert forall m :: 0 <= m < k ==> s[m] == s[..n][m];
    }
  }

  lemma SortDistinct<T(!new)>(s: seq<T>, le: (T, T) -> bool)
    requires Distinct(s)
    ensures Distinct(Sort(s, le))
    ensures forall x :: x in Sort(s, le) <==> x in s
  {
    var r := Sort(s, le);
    SortKeeps(s, le);
    forall x ensures x in r <==> x in s {
      assert x in multiset(r) <==> x in multiset(s);
    }
    forall i, j | 0 <= i < j < |r| ensures r[i] != r[j] {
      AtMostOnce(s, r[i]);
      if r[i] == r[j] { TwiceIn(r, i, j); }
    }
  }

  lemma {:induction false} AtMostOnce<T>(s: seq<T>, x: T)
    requires Distinct(s)
    ensures multiset(s)[x] <= 1
  {
    if s != [] {
      assert s == s[..|s| - 1] + [s[|s| - 1]];
      AtMostOnce(s[..|s| - 1], x);
      assert s[|s| - 1] !in s[..|s| - 1];
    }
  }

  lemma TwiceIn<T>(r: seq<T>, i: nat, j: nat)
    requires i < j < |r| && r[i] == r[j]
    ensures multiset(r)[r[i]] >= 2
  {
    RemoveAt(r, j);
    assert (r[..j] + r[j + 1..])[i] == r[i];
    assert r[i] in multiset(r[..j] + r[j + 1..]);
  }

  // ---------------------------------------------------------------- strings, by code point

  predicate StringLe(a: string, b: string) {
    a == [] || (b != [] && (a[0] < b[0] || (a[0] == b[0] && StringLe(a[1..], b[1..]))))
  }

  /** The two texts agree up to a place where the first has the smaller character. */
  ghost predicate SmallerAt(a: string, b: string, k: nat) {
    k < |a| && k < |b| && a[..k] == b[..k] && a[k] < b[k]
  }

  lemma SmallerTail(a: string, b: string)
    requires a != [] && b != [] && a[0] == b[0]
    ensures a <= b <==> a[1..] <= b[1..]
    ensures (exists k: nat :: SmallerAt(a, b, k)) <==> exists k: nat :: SmallerAt(a[1..], b[1..], k)
  {
    if |a| <= |b| { assert a == [a[0]] + a[1..] && b[..|a|] == [b[0]] + b[1..][..|a| - 1]; }
    if k: nat :| SmallerAt(a[1..], b[1..], k) {
      assert a[..k + 1] == [a[0]] + a[1..][..k] && b[..k + 1] == [b[0]] + b[1..][..k];
      assert SmallerAt(a, b, k + 1);
    }
    if k: nat :| SmallerAt(a, b, k) {
      assert a[1..][..k - 1] == a[..k][1..] && b[1..][..k - 1] == b[..k][1..];
      assert SmallerAt(a[1..], b[1..], k - 1);
    }
  }

  /** A text comes before its continuations, and before texts that are greater at the first difference. */
  lemma {:induction false} StringLeIs(a: string, b: string)
    ensures StringLe(a, b) <==> a <= b || exists k: nat :: SmallerAt(a, b, k)
  {
    if a != [] && b != [] {
      if a[0] == b[0] {
        StringLeIs(a[1..], b[1..]);
        SmallerTail(a, b);
      } else {
        assert SmallerAt(a, b, 0) <==> a[0] < b[0];
        forall k: nat | k > 0 ensures !SmallerAt(a, b, k) {
          if k < |a| && k < |b| { assert a[..k][0] == a[0] && b[..k][0] == b[0]; }
        }
      }
    }
  }

  lemma {:induction false} StringTotal(a: string, b: string)
    ensures StringLe(a, b) || StringLe(b, a)
    ensures StringLe(a, b) && StringLe(b, a) ==> a == b
  {
    if a != [] && b != [] {
      StringTotal(a[1..], b[1..]);
      assert a == [a[0]] + a[1..] && b == [b[0]] + b[1..];
    }
  }

  lemma {:induction false} StringTransitive(a: string, b: string, c: string)
    requires StringLe(a, b) && StringLe(b, c)
    ensures StringLe(a, c)
  {
    if a != [] && a[0] == b[0] == c[0] {
      StringTransitive(a[1..], b[1..], c[1..]);
    }
  }

  lemma StringOrder()
    ensures TotalOrder(StringLe)
  {
    forall a, b ensures StringLe(a, b) || StringLe(b, a)
                ensures StringLe(a, b) && StringLe(b, a) ==> a == b {
      StringTotal(a, b);
    }
    forall a, b, c | StringLe(a, b) && StringLe(b, c) ensures StringLe(a, c) {
      StringTransitive(a, b, c);
    }
  }

  // ---------------------------------------------------------------- pairs, first part first

  predicate RealStringLe(a: (real, string), b: (real, string)) {
    a.0 < b.0 || (a.0 == b.0 && StringLe(a.1, b.1))
  }

  lemma RealStringOrder()
    ensures TotalOrder(RealStringLe)
  {
    StringOrder();
    forall a, b ensures RealStringLe(a, b) || RealStringLe(b, a)
                ensures RealStringLe(a, b) && RealStringLe(b, a) ==> a == b {
      StringTotal(a.1, b.1);
    }
    forall a, b, c | RealStringLe(a, b) && RealStringLe(b, c) ensures RealStringLe(a, c) {
      if a.0 == b.0 == c.0 { StringTransitive(a.1, b.1, c.1); }
    }
  }
}
