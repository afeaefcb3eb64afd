/** The site serialization of omai/configurations.py, _canonical_payload, once the primitive cell is known. Fractional
    coordinates are exact reals; the JSON text of a sorted site list is an injective function ser. */
module CanonicalCell {
  import opened Wrappers
  import opened Ordering

  datatype Site = Site(species: string, x: real, y: real, z: real)

  // A rounded offset, in units of 1e-5 of a cell edge.
  datatype Row = Row(species: string, x: int, y: int, z: int)

  const UNITS: int := 100000

  /** x % 1.0 */
  function Wrap(x: real): (r: real)
    ensures 0.0 <= r < 1.0
  {
    x - x.Floor as real
  }

  function Wrapped(s: Site): Site {
    Site(s.species, Wrap(s.x), Wrap(s.y), Wrap(s.z))
  }

  /** numpy's rint: to the nearest integer, halves to the even one. */
  function Rint(x: real): int {
    var low := x.Floor;
    var rest := x - low as real;
    if rest < 0.5 then low else if rest > 0.5 then low + 1 else if low % 2 == 0 then low else low + 1
  }

  /** round(d, 5) % 1.0: five decimals, and 0.999999 re-wrapped to zero. */
  function Rounded(d: real): (u: int)
    ensures 0 <= u < UNITS
  {
    Rint(d * UNITS as real) % UNITS
  }

  function Offset(s: Site, anchor: Site): Row {
    Row(s.species, Rounded(Wrap(s.x - anchor.x)), Rounded(Wrap(s.y - anchor.y)), Rounded(Wrap(s.z - anchor.z)))
  }

  predicate RowLe(a: Row, b: Row) {
    if a.species != b.species then StringLe(a.species, b.species)
    else if a.x != b.x then a.x < b.x
    else if a.y != b.y then a.y < b.y
    else a.z <= b.z
  }

  lemma RowOrder()
    ensures TotalOrder(RowLe)
  {
    forall a, b ensures RowLe(a, b) || RowLe(b, a)
                ensures RowLe(a, b) && RowLe(b, a) ==> a == b {
      StringTotal(a.species, b.species);
    }
    forall a, b, c | RowLe(a, b) && RowLe(b, c) ensures RowLe(a, c) {
      if a.species != b.species && b.species != c.species { StringTransitive(a.species, b.species, c.species); }
      StringTotal(a.species, b.species);
    }
  }

  function OffsetsFrom(entries: seq<Site>, anchor: Site): seq<Row> {
    Map(entries, (s: Site) => Offset(s, anchor))
  }

  function Blob(entries: seq<Site>, anchor: Site, ser: seq<Row> -> string): string {
    ser(Sort(OffsetsFrom(entries, anchor), RowLe))
  }

  /** The texts of the cell, one for each choice of anchor. */
  function Blobs(entries: seq<Site>, ser: seq<Row> -> string): seq<string> {
    Map(entries, (a: Site) => Blob(entries, a, ser))
  }

  ghost predicate Least(texts: seq<string>, best: Option<string>) {
    if texts == [] then best.None?
    else best.Some? && best.value in texts && forall t :: t in texts ==> StringLe(best.value, t)
  }

  /** The serialization of the cell: the least text over all choices of anchor. */
  ghost predicate Canonical(sites: seq<Site>, ser: seq<Row> -> string, best: Option<string>) {
    Least(Blobs(Map(sites, Wrapped), ser), best)
  }

  method Canonicalize(sites: seq<Site>, ser: seq<Row> -> string) returns (best: Option<string>)
    ensures Canonical(sites, ser, best)
  {
    var entries := Map(sites, Wrapped);
    ghost var blobs := Blobs(entries, ser);
    best := None;
    for i := 0 to |entries|
      invariant Least(blobs[..i], best)
    {
      var anchor := entries[i];
      var shifted: seq<Row> := [];
      for j := 0 to |entries|
        invariant shifted == OffsetsFrom(entries[..j], anchor)
      {
        shifted := shifted + [Offset(entries[j], anchor)];
      }
      assert entries[..|entries|] == entries;
      var blob := ser(Sort(shifted, RowLe));
      KeepLeast(blobs, best, i);
      if best.None? || !StringLe(best.value, blob) {
        best := Some(blob);
      }
    }
    assert blobs[..|entries|] == blobs;
  }

  lemma KeepLeast(texts: seq<string>, best: Option<string>, i: nat)
    requires i < |texts| && Least(texts[..i], best)
    ensures Least(texts[..i + 1], if best.None? || !StringLe(best.value, texts[i]) then Some(texts[i]) else best)
  {
    StringOrder();
    assert texts[..i + 1] == texts[..i] + [texts[i]];
    StringTotal(texts[i], texts[i]);
    if best.Some? { StringTotal(best.value, texts[i]); }
  }

  // ---------------------------------------------------------------- what the serialization forgets

  /** Only which texts occur matters; in particular the text is determined by the cell. */
  lemma SameTextsSameLeast(a: seq<string>, b: seq<string>, ta: Option<string>, tb: Option<string>)
    requires Least(a, ta) && Least(b, tb) && (forall t :: t in a <==> t in b)
    ensures ta == tb
  {
    assert ta.Some? ==> ta.value in b;
    assert tb.Some? ==> tb.value in a;
    if ta.Some? && tb.Some? { StringTotal(ta.value, tb.value); }
  }

  /** Reordering the sites changes nothing. */
  lemma OrderForgotten(a: seq<Site>, b: seq<Site>, ser: seq<Row> -> string, ta: Option<string>, tb: Option<string>)
    requires multiset(a) == multiset(b) && Canonical(a, ser, ta) && Canonical(b, ser, tb)
    ensures ta == tb
  {
    var ea, eb := Map(a, Wrapped), Map(b, Wrapped);
    MapPermuted(a, b, Wrapped);
    BlobsPermuted(ea, eb, ser);
    SameTextsSameLeast(Blobs(ea, ser), Blobs(eb, ser), ta, tb);
  }

  lemma BlobsPermuted(ea: seq<Site>, eb: seq<Site>, ser: seq<Row> -> string)
    requires multiset(ea) == multiset(eb)
    ensures forall t :: t in Blobs(ea, ser) <==> t in Blobs(eb, ser)
  {
    forall x ensures Blob(ea, x, ser) == Blob(eb, x, ser) {
      RowOrder();
      MapPermuted(ea, eb, (s: Site) => Offset(s, x));
      SortPermuted(OffsetsFrom(ea, x), OffsetsFrom(eb, x), RowLe);
    }
    var f := (x: Site) => Blob(ea, x, ser);
    MapPermuted(ea, eb, f);
    assert Blobs(ea, ser) == Map(ea, f) && Blobs(eb, ser) == Map(eb, f);
    forall t ensures t in Blobs(ea, ser) <==> t in Blobs(eb, ser) {
      assert t in multiset(Blobs(ea, ser)) <==> t in multiset(Blobs(eb, ser));
    }
  }

  lemma WrapWhole(x: real, n: int)
    ensures Wrap(x + n as real) == Wrap(x)
  {
    assert (x + n as real).Floor == x.Floor + n;
  }

  /** Wrapping both ends first does not change the wrapped difference, and a common shift cancels. */
  lemma WrapDifference(x: real, y: real, t: real, m: int, n: int)
    ensures Wrap(Wrap(x + t + m as real) - Wrap(y + t + n as real)) == Wrap(Wrap(x) - Wrap(y))
  {
    var x', y' := x + t + m as real, y + t + n as real;
    assert Wrap(x') - Wrap(y') == (x - y) + (m - n - x'.Floor + y'.Floor) as real;
    assert Wrap(x) - Wrap(y) == (x - y) + (y.Floor - x.Floor) as real;
    WrapWhole(x - y, m - n - x'.Floor + y'.Floor);
    WrapWhole(x - y, y.Floor - x.Floor);
  }

  datatype Shift = Shift(x: int, y: int, z: int)

  /** The whole cell moved by (tx, ty, tz), and each site moved by whole cells on its own. */
  ghost predicate Moved(a: seq<Site>, b: seq<Site>, tx: real, ty: real, tz: real, cells: seq<Shift>) {
    && |a| == |b| == |cells|
    && forall i :: 0 <= i < |a| ==>
         b[i] == Site(a[i].species, a[i].x + tx + cells[i].x as real, a[i].y + ty + cells[i].y as real,
                      a[i].z + tz + cells[i].z as real)
  }

  lemma OffsetMoved(a: seq<Site>, b: seq<Site>, tx: real, ty: real, tz: real, cells: seq<Shift>, i: nat, k: nat)
    requires Moved(a, b, tx, ty, tz, cells) && i < |a| && k < |a|
    ensures Offset(Wrapped(a[i]), Wrapped(a[k])) == Offset(Wrapped(b[i]), Wrapped(b[k]))
  {
    WrapDifference(a[i].x, a[k].x, tx, cells[i].x, cells[k].x);
    WrapDifference(a[i].y, a[k].y, ty, cells[i].y, cells[k].y);
    WrapDifference(a[i].z, a[k].z, tz, cells[i].z, cells[k].z);
  }

  lemma BlobMoved(a: seq<Site>, b: seq<Site>, tx: real, ty: real, tz: real, cells: seq<Shift>, k: nat,
                  ser: seq<Row> -> string)
    requires Moved(a, b, tx, ty, tz, cells) && k < |a|
    ensures Blob(Map(a, Wrapped), Wrapped(a[k]), ser) == Blob(Map(b, Wrapped), Wrapped(b[k]), ser)
  {
    var oa, ob := OffsetsFrom(Map(a, Wrapped), Wrapped(a[k])), OffsetsFrom(Map(b, Wrapped), Wrapped(b[k]));
    forall i | 0 <= i < |a| ensures oa[i] == ob[i] {
      OffsetMoved(a, b, tx, ty, tz, cells, i, k);
    }
    assert oa == ob;
  }

  /** A rigid translation of the cell, and whole-cell shifts of single sites, change nothing. */
  lemma PlacementForgotten(a: seq<Site>, b: seq<Site>, tx: real, ty: real, tz: real, cells: seq<Shift>,
                           ser: seq<Row> -> string, ta: Option<string>, tb: Option<string>)
    requires Moved(a, b, tx, ty, tz, cells) && Canonical(a, ser, ta) && Canonical(b, ser, tb)
    ensures ta == tb
  {
    var ba, bb := Blobs(Map(a, Wrapped), ser), Blobs(Map(b, Wrapped), ser);
    forall k | 0 <= k < |a| ensures ba[k] == bb[k] {
      BlobMoved(a, b, tx, ty, tz, cells, k, ser);
    }
    assert ba == bb;
    SameTextsSameLeast(ba, bb, ta, tb);
  }

  ghost predicate Injective(ser: seq<Row> -> string) {
    forall r, s :: ser(r) == ser(s) ==> r == s
  }

  /** What it keeps: equal texts mean that, seen from some site of each cell, the rounded offsets agree as
      multisets. */
  lemma EqualTextsMatch(a: seq<Site>, b: seq<Site>, ser: seq<Row> -> string, text: Option<string>)
    requires Injective(ser) && a != [] && Canonical(a, ser, text) && Canonical(b, ser, text)
    ensures b != []
    ensures exists x, y :: x in Map(a, Wrapped) && y in Map(b, Wrapped) &&
              multiset(OffsetsFrom(Map(a, Wrapped), x)) == multiset(OffsetsFrom(Map(b, Wrapped), y))
  {
    var ea, eb := Map(a, Wrapped), Map(b, Wrapped);
    var i :| 0 <= i < |ea| && Blobs(ea, ser)[i] == text.value;
    var j :| 0 <= j < |eb| && Blobs(eb, ser)[j] == text.value;
    SortKeeps(OffsetsFrom(ea, ea[i]), RowLe);
    SortKeeps(OffsetsFrom(eb, eb[j]), RowLe);
    assert ea[i] in ea && eb[j] in eb;
  }

  // ---------------------------------------------------------------- what the texts say of the places of the sites

  lemma RintNearest(x: real)
    ensures -0.5 <= x - Rint(x) as real <= 0.5
    ensures x - Rint(x) as real == 0.5 || x - Rint(x) as real == -0.5 ==> Rint(x) % 2 == 0
  {
  }

  lemma WholeCells(r: int)
    ensures r == r % 100000 + r / 100000 * 100000
  {
  }

  /** A rounded offset is the nearest multiple of 1e-5, a tie going to the even one, up to whole cells. */
  lemma RoundedNearest(d: real) returns (n: int)
    ensures -0.5 <= d * 100000.0 - (Rounded(d) + n * 100000) as real <= 0.5
    ensures var gap := d * 100000.0 - (Rounded(d) + n * 100000) as real;
            gap == 0.5 || gap == -0.5 ==> (Rounded(d) + n * 100000) % 2 == 0
  {
    var r := Rint(d * 100000.0);
    n := r / 100000;
    RintNearest(d * 100000.0);
    WholeCells(r);
  }

  /** A whole number within 1e-5. */
  ghost predicate Close(x: real, n: int) {
    -1.0 <= (x - n as real) * 100000.0 <= 1.0
  }

  ghost predicate NearWhole(x: real) {
    exists n: int :: Close(x, n)
  }

  lemma NearWholeShifted(x: real, m: int)
    requires NearWhole(x + m as real)
    ensures NearWhole(x)
  {
    var n: int :| Close(x + m as real, n);
    assert x + m as real - n as real == x - (n - m) as real;
    assert Close(x, n - m);
  }

  lemma SameRounding(p: real, q: real)
    requires Rounded(Wrap(p)) == Rounded(Wrap(q))
    ensures NearWhole(p - q)
  {
    var m := RoundedNearest(Wrap(p));
    var n := RoundedNearest(Wrap(q));
    var k := m - n + p.Floor - q.Floor;
    assert p - q - k as real == Wrap(p) - Wrap(q) - (m - n) as real;
    assert Close(p - q, k);
  }

  lemma SameOffset(s: real, k: real, t: real, l: real)
    requires Rounded(Wrap(Wrap(s) - Wrap(k))) == Rounded(Wrap(Wrap(t) - Wrap(l)))
    ensures NearWhole((s - k) - (t - l))
  {
    SameRounding(Wrap(s) - Wrap(k), Wrap(t) - Wrap(l));
    var m := k.Floor - s.Floor - l.Floor + t.Floor;
    assert (Wrap(s) - Wrap(k)) - (Wrap(t) - Wrap(l)) == (s - k) - (t - l) + m as real;
    NearWholeShifted((s - k) - (t - l), m);
  }

  /** Seen from k and from l, the sites s and t are of one species and at one place, within 1e-5 of a cell edge and up
      to whole cells. */
  ghost predicate SamePlace(s: Site, k: Site, t: Site, l: Site) {
    && s.species == t.species
    && NearWhole((s.x - k.x) - (t.x - l.x)) && NearWhole((s.y - k.y) - (t.y - l.y))
    && NearWhole((s.z - k.z) - (t.z - l.z))
  }

  /** The sites of the cells pair up, seen from site k of the first and site l of the second. */
  ghost predicate Pairs(a: seq<Site>, b: seq<Site>, k: nat, l: nat, perm: seq<nat>) {
    && k < |a| == |b| == |perm| && l < |b|
    && (forall i :: 0 <= i < |perm| ==> perm[i] < |b| && SamePlace(a[i], a[k], b[perm[i]], b[l]))
    && (forall i, j :: 0 <= i < j < |perm| ==> perm[i] != perm[j])
  }

  lemma OffsetPlaces(s: Site, k: Site, t: Site, l: Site)
    requires Offset(Wrapped(s), Wrapped(k)) == Offset(Wrapped(t), Wrapped(l))
    ensures SamePlace(s, k, t, l)
  {
    SameOffset(s.x, k.x, t.x, l.x);
    SameOffset(s.y, k.y, t.y, l.y);
    SameOffset(s.z, k.z, t.z, l.z);
  }

  lemma RowsPair(a: seq<Site>, b: seq<Site>, k: nat, l: nat, perm: seq<nat>)
    requires k < |a| && l < |b|
    requires Rearranges(OffsetsFrom(Map(a, Wrapped), Wrapped(a[k])), OffsetsFrom(Map(b, Wrapped), Wrapped(b[l])), perm)
    ensures Pairs(a, b, k, l, perm)
  {
    var ra, rb := OffsetsFrom(Map(a, Wrapped), Wrapped(a[k])), OffsetsFrom(Map(b, Wrapped), Wrapped(b[l]));
    forall i | 0 <= i < |perm| ensures perm[i] < |b| && SamePlace(a[i], a[k], b[perm[i]], b[l]) {
      assert ra[i] == rb[perm[i]];
      OffsetPlaces(a[i], a[k], b[perm[i]], b[l]);
    }
  }

  lemma WrappedPlace(a: seq<Site>, x: Site) returns (k: nat)
    requires x in Map(a, Wrapped)
    ensures k < |a| && Wrapped(a[k]) == x
  {
    k :| k < |a| && Map(a, Wrapped)[k] == x;
  }

  /** Equal texts mean equal cells up to the rounding: the sites pair up. */
  lemma EqualTextsPair(a: seq<Site>, b: seq<Site>, ser: seq<Row> -> string, text: Option<string>)
    requires Injective(ser) && a != [] && Canonical(a, ser, text) && Canonical(b, ser, text)
    ensures exists k: nat, l: nat, perm :: Pairs(a, b, k, l, perm)
  {
    EqualTextsMatch(a, b, ser, text);
    var x, y :| x in Map(a, Wrapped) && y in Map(b, Wrapped) &&
                multiset(OffsetsFrom(Map(a, Wrapped), x)) == multiset(OffsetsFrom(Map(b, Wrapped), y));
    var k := WrappedPlace(a, x);
    var l := WrappedPlace(b, y);
    var perm := Rearrangement(OffsetsFrom(Map(a, Wrapped), x), OffsetsFrom(Map(b, Wrapped), y));
    RowsPair(a, b, k, l, perm);
  }

  /** Rows are compared as lists: by species, then by each offset in turn. */
  lemma RowLeIs(a: Row, b: Row)
    ensures a.species != b.species ==> (RowLe(a, b) <==> StringLe(a.species, b.species))
    ensures a.species == b.species && a.x != b.x ==> (RowLe(a, b) <==> a.x < b.x)
    ensures a.species == b.species && a.x == b.x && a.y != b.y ==> (RowLe(a, b) <==> a.y < b.y)
    ensures a.species == b.species && a.x == b.x && a.y == b.y ==> (RowLe(a, b) <==> a.z <= b.z)
  {
  }
}
