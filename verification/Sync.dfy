/** omai/sync.py: the diff between the Python operator layer and the stored map, and why landing what it proposes
    brings the two back in sync. */
module Sync {
  import opened Wrappers
  import opened MapRecords

  const NODE_META_KEYS: set<string> := {"name", "symbol", "description", "tier", "names"}
  const EDGE_META_KEYS: set<string> := {"name", "description", "formula_srepr", "formula_latex", "schemes"}
  const DEPRECATION_NOTE: Json := Text("no longer produced by the Python layer")

  // What pairs a stale stored element with a new one: a node's quantity tag, an edge's primary output.
  datatype Anchor = NodeAnchor(quantity: Json) | EdgeAnchor(output: Json)

  // An element of the Python side, with the add record that creates it.
  datatype Element = Element(uid: Uid, anchor: Anchor, meta: Meta, record: Payload)

  // A stored element as the diff reads it; retired means deprecated or superseded.
  datatype Stored = Stored(uid: Uid, anchor: Anchor, meta: Meta, retired: bool)

  // The nodes or the edges: both sides in the order of their dicts, and the metadata keys that are compared.
  datatype Side = Side(py: seq<Element>, store: seq<Stored>, keys: set<string>)

  datatype Remint = Remint(oldUid: Uid, newUid: Uid, name: Json)
  datatype Buckets = Buckets(add: seq<Payload>, edit: seq<Payload>, deprecate: seq<Payload>, remint: seq<Remint>)

  /** dict.get: a missing key reads as null. */
  function Get(m: Meta, k: string): Json { if k in m then m[k] else Null }

  /** _meta_diff */
  function MetaDiff(py: Meta, store: Meta, keys: set<string>): Meta {
    map k | k in keys && Get(py, k) != Get(store, k) :: Get(py, k)
  }

  /** Both sides give the key the same value, a missing key counting as null. */
  ghost predicate SameRead(py: Meta, store: Meta, k: string) {
    if k in py && k in store then py[k] == store[k]
    else if k in py then py[k] == Null
    else k in store ==> store[k] == Null
  }

  ghost predicate MetaAgrees(py: Meta, store: Meta, keys: set<string>) {
    forall k :: k in keys ==> SameRead(py, store, k)
  }

  /** An edit holds exactly the compared keys that differ, each with the Python value. */
  lemma MetaDiffIs(py: Meta, store: Meta, keys: set<string>, k: string)
    ensures k in MetaDiff(py, store, keys) <==> k in keys && !SameRead(py, store, k)
    ensures k in MetaDiff(py, store, keys) ==> MetaDiff(py, store, keys)[k] == if k in py then py[k] else Null
  {
  }

  lemma MetaDiffEmpty(py: Meta, store: Meta, keys: set<string>)
    ensures MetaDiff(py, store, keys) == map[] <==> MetaAgrees(py, store, keys)
  {
    if MetaDiff(py, store, keys) == map[] {
      forall k | k in keys ensures SameRead(py, store, k) {
        MetaDiffIs(py, store, keys, k);
      }
    }
    if MetaAgrees(py, store, keys) {
      forall k ensures k !in MetaDiff(py, store, keys) {
        MetaDiffIs(py, store, keys, k);
      }
    }
  }

  predicate Truthy(j: Json) {
    match j
    case Null => false
    case Flag(b) => b
    case Num(mantissa, _) => mantissa != 0
    case Text(s) => s != ""
    case List(items) => items != []
    case Object(fields) => fields != map[]
  }

  ghost predicate DistinctUids(py: seq<Element>) {
    forall i, j :: 0 <= i < j < |py| ==> py[i].uid != py[j].uid
  }

  ghost predicate DistinctStored(store: seq<Stored>) {
    forall i, j :: 0 <= i < j < |store| ==> store[i].uid != store[j].uid
  }

  /** Each element carries the add record of its own uid and metadata, and uids are distinct. */
  ghost predicate Genuine(py: seq<Element>) {
    && DistinctUids(py)
    && forall q :: q in py ==>
         (q.record.AddNode? || q.record.AddEdge?) && q.record.uid == q.uid && q.record.meta == q.meta
  }

  predicate Produced(py: seq<Element>, u: Uid) {
    exists i :: 0 <= i < |py| && py[i].uid == u
  }

  function Lookup(store: seq<Stored>, u: Uid): Option<Stored> {
    if store == [] then None
    else if store[|store| - 1].uid == u then Some(store[|store| - 1])
    else Lookup(store[..|store| - 1], u)
  }

  // ---------------------------------------------------------------- what the buckets should hold

  /** Elements the store does not have, in order. */
  function NewIn(py: seq<Element>, store: seq<Stored>): seq<Element> {
    if py == [] then []
    else
      NewIn(py[..|py| - 1], store) + (if Lookup(store, py[|py| - 1].uid).None? then [py[|py| - 1]] else [])
  }

  function EditFor(p: Element, store: seq<Stored>, keys: set<string>): seq<Payload> {
    var s := Lookup(store, p.uid);
    if s.None? || MetaDiff(p.meta, s.value.meta, keys) == map[] then []
    else [EditMeta(p.uid, MetaDiff(p.meta, s.value.meta, keys))]
  }

  /** Edits for the elements whose compared metadata differs, in order. */
  function EditsIn(py: seq<Element>, store: seq<Stored>, keys: set<string>): seq<Payload> {
    if py == [] then [] else EditsIn(py[..|py| - 1], store, keys) + EditFor(py[|py| - 1], store, keys)
  }

  /** Stored elements the Python side no longer produces and nobody retired, in order. */
  function StaleIn(store: seq<Stored>, py: seq<Element>): seq<Stored> {
    if store == [] then []
    else
      var s := store[|store| - 1];
      StaleIn(store[..|store| - 1], py) + (if Produced(py, s.uid) || s.retired then [] else [s])
  }

  /** The new elements of one anchor, in order. */
  function Group(news: seq<Element>, a: Anchor): seq<Element> {
    if news == [] then []
    else Group(news[..|news| - 1], a) + (if news[|news| - 1].anchor == a then [news[|news| - 1]] else [])
  }

  function CountOf(stale: seq<Stored>, a: Anchor): nat {
    if stale == [] then 0 else CountOf(stale[..|stale| - 1], a) + (if stale[|stale| - 1].anchor == a then 1 else 0)
  }

  /** The n-th stale element of an anchor is paired with the n-th new one of that anchor, if there is one. */
  function Partner(before: seq<Stored>, s: Stored, news: seq<Element>): Option<Element> {
    var group, n := Group(news, s.anchor), CountOf(before, s.anchor);
    if n < |group| then Some(group[n]) else None
  }

  function NameFor(s: Stored, p: Element): Json {
    if Truthy(Get(s.meta, "name")) then Get(s.meta, "name") else Get(p.meta, "name")
  }

  function Remints(stale: seq<Stored>, news: seq<Element>): seq<Remint> {
    if stale == [] then []
    else
      var before, s := stale[..|stale| - 1], stale[|stale| - 1];
      var p := Partner(before, s, news);
      Remints(before, news) + (if p.Some? then [Remint(s.uid, p.value.uid, NameFor(s, p.value))] else [])
  }

  function Deprecations(stale: seq<Stored>, news: seq<Element>): seq<Payload> {
    if stale == [] then []
    else
      var before, s := stale[..|stale| - 1], stale[|stale| - 1];
      Deprecations(before, news) + (if Partner(before, s, news).Some? then [] else [Deprecate(s.uid, DEPRECATION_NOTE)])
  }

  function Claimed(stale: seq<Stored>, news: seq<Element>): set<Uid> {
    if stale == [] then {}
    else
      var before, s := stale[..|stale| - 1], stale[|stale| - 1];
      var p := Partner(before, s, news);
      Claimed(before, news) + (if p.Some? then {p.value.uid} else {})
  }

  function Unclaimed(news: seq<Element>, claimed: set<Uid>): seq<Element> {
    if news == [] then []
    else Unclaimed(news[..|news| - 1], claimed) + (if news[|news| - 1].uid in claimed then [] else [news[|news| - 1]])
  }

  function RecordsOf(es: seq<Element>): (r: seq<Payload>)
    ensures |r| == |es|
    ensures forall i :: 0 <= i < |es| ==> r[i] == es[i].record
  {
    seq(|es|, (i: nat) requires i < |es| => es[i].record)
  }

  function NewOf(n: Side, e: Side): seq<Element> { NewIn(n.py, n.store) + NewIn(e.py, e.store) }

  function StaleOf(n: Side, e: Side): seq<Stored> { StaleIn(n.store, n.py) + StaleIn(e.store, e.py) }

  /** compute_sync: n is the side of the nodes, e the side of the edges. */
  function Diff(n: Side, e: Side): Buckets {
    var news, stale := NewOf(n, e), StaleOf(n, e);
    Buckets(RecordsOf(Unclaimed(news, Claimed(stale, news))),
            EditsIn(n.py, n.store, n.keys) + EditsIn(e.py, e.store, e.keys),
            Deprecations(stale, news), Remints(stale, news))
  }

  // ---------------------------------------------------------------- the algorithm

  /** The candidates of an anchor, as the method keeps them. */
  function Candidates(byAnchor: map<Anchor, seq<Element>>, a: Anchor): seq<Element> {
    if a in byAnchor then byAnchor[a] else []
  }

  ghost predicate IndexedAt(byAnchor: map<Anchor, seq<Element>>, news: seq<Element>, a: Anchor) {
    Candidates(byAnchor, a) == Group(news, a)
  }

  ghost predicate Indexes(byAnchor: map<Anchor, seq<Element>>, news: seq<Element>) {
    forall a :: IndexedAt(byAnchor, news, a)
  }

  /** The first pass over one side. */
  method FirstPass(side: Side, news0: seq<Element>, byAnchor0: map<Anchor, seq<Element>>)
    returns (news: seq<Element>, byAnchor: map<Anchor, seq<Element>>, edits: seq<Payload>)
    requires Indexes(byAnchor0, news0)
    ensures news == news0 + NewIn(side.py, side.store) && Indexes(byAnchor, news)
    ensures edits == EditsIn(side.py, side.store, side.keys)
  {
    ghost var found: seq<Element> := [];
    news, byAnchor, edits := news0, byAnchor0, [];
    for i := 0 to |side.py|
      invariant found == NewIn(side.py[..i], side.store)
      invariant news == news0 + found && Indexes(byAnchor, news)
      invariant edits == EditsIn(side.py[..i], side.store, side.keys)
    {
      var p := side.py[i];
      PyStep(side, i);
      var s := Lookup(side.store, p.uid);
      if s.None? {
        IndexStep(byAnchor, news, p);
        byAnchor := byAnchor[p.anchor := Candidates(byAnchor, p.anchor) + [p]];
        news := news + [p];
        found := found + [p];
      } else {
        var changed := MetaDiff(p.meta, s.value.meta, side.keys);
        if changed != map[] {
          edits := edits + [EditMeta(p.uid, changed)];
        }
      }
    }
    assert side.py[..|side.py|] == side.py;
  }

  lemma PyStep(side: Side, i: nat)
    requires i < |side.py|
    ensures var p, found, edits := side.py[i], NewIn(side.py[..i], side.store),
                                   EditsIn(side.py[..i], side.store, side.keys);
            var s := Lookup(side.store, p.uid);
            && NewIn(side.py[..i + 1], side.store) == (if s.None? then found + [p] else found)
            && EditsIn(side.py[..i + 1], side.store, side.keys) ==
               (if s.None? || MetaDiff(p.meta, s.value.meta, side.keys) == map[] then edits
                else edits + [EditMeta(p.uid, MetaDiff(p.meta, s.value.meta, side.keys))])
  {
    assert side.py[..i + 1][..i] == side.py[..i];
  }

  lemma StoreStep(side: Side, i: nat)
    requires i < |side.store|
    ensures var s := side.store[i];
            StaleIn(side.store[..i + 1], side.py) ==
            StaleIn(side.store[..i], side.py) + (if Produced(side.py, s.uid) || s.retired then [] else [s])
  {
    assert side.store[..i + 1][..i] == side.store[..i];
  }

  lemma IndexStep(byAnchor: map<Anchor, seq<Element>>, news: seq<Element>, p: Element)
    requires Indexes(byAnchor, news)
    ensures Indexes(byAnchor[p.anchor := Candidates(byAnchor, p.anchor) + [p]], news + [p])
  {
    assert (news + [p])[..|news|] == news;
    var byAnchor' := byAnchor[p.anchor := Candidates(byAnchor, p.anchor) + [p]];
    forall a ensures IndexedAt(byAnchor', news + [p], a) {
      assert IndexedAt(byAnchor, news, a);
      assert Group(news + [p], a) == Group(news, a) + (if p.anchor == a then [p] else []);
    }
  }

  /** One more stale element: what each of the three lists gains. */
  lemma StaleStep(stale: seq<Stored>, s: Stored, news: seq<Element>)
    requires DistinctUids(news)
    ensures var p := Partner(stale, s, news);
            && Claimed(stale + [s], news) == Claimed(stale, news) + (if p.Some? then {p.value.uid} else {})
            && Remints(stale + [s], news) ==
               Remints(stale, news) + (if p.Some? then [Remint(s.uid, p.value.uid, NameFor(s, p.value))] else [])
            && Deprecations(stale + [s], news) ==
               Deprecations(stale, news) + (if p.Some? then [] else [Deprecate(s.uid, DEPRECATION_NOTE)])
  {
    assert (stale + [s])[..|stale|] == stale;
  }

  /** The second pass over one side; stale0 are the stale elements met on the side before. */
  method SecondPass(side: Side, ghost news: seq<Element>, byAnchor: map<Anchor, seq<Element>>,
                    ghost stale0: seq<Stored>, claimed0: set<Uid>, remint0: seq<Remint>, deprecate0: seq<Payload>)
    returns (claimed: set<Uid>, remint: seq<Remint>, deprecate: seq<Payload>)
    requires Indexes(byAnchor, news) && DistinctUids(news)
    requires claimed0 == Claimed(stale0, news) && remint0 == Remints(stale0, news)
    requires deprecate0 == Deprecations(stale0, news)
    ensures var stale := stale0 + StaleIn(side.store, side.py);
            claimed == Claimed(stale, news) && remint == Remints(stale, news) && deprecate == Deprecations(stale, news)
  {
    claimed, remint, deprecate := claimed0, remint0, deprecate0;
    ghost var stale := stale0;
    for i := 0 to |side.store|
      invariant stale == stale0 + StaleIn(side.store[..i], side.py)
      invariant claimed == Claimed(stale, news)
      invariant remint == Remints(stale, news) && deprecate == Deprecations(stale, news)
    {
      var s := side.store[i];
      ghost var found := StaleIn(side.store[..i], side.py);
      StoreStep(side, i);
      if !Produced(side.py, s.uid) && !s.retired {
        var candidates := Unclaimed(Candidates(byAnchor, s.anchor), claimed);
        assert IndexedAt(byAnchor, news, s.anchor);
        FirstUnclaimed(stale, s, news);
        StaleStep(stale, s, news);
        assert stale + [s] == stale0 + (found + [s]);
        if candidates != [] {
          claimed := claimed + {candidates[0].uid};
          remint := remint + [Remint(s.uid, candidates[0].uid, NameFor(s, candidates[0]))];
        } else {
          deprecate := deprecate + [Deprecate(s.uid, DEPRECATION_NOTE)];
        }
        stale := stale + [s];
      } else {
        assert found + [] == found;
      }
    }
    assert side.store[..|side.store|] == side.store;
  }

  method ComputeSync(n: Side, e: Side) returns (b: Buckets)
    requires DistinctUids(n.py + e.py)
    ensures b == Diff(n, e)
  {
    assert Indexes(map[], []);
    var news, byAnchor, nodeEdits := FirstPass(n, [], map[]);
    var edgeEdits;
    news, byAnchor, edgeEdits := FirstPass(e, news, byAnchor);
    assert news == NewOf(n, e);
    NewDistinct(n, e);
    var claimed, remint, deprecate := SecondPass(n, news, byAnchor, [], {}, [], []);
    claimed, remint, deprecate :=
      SecondPass(e, news, byAnchor, [] + StaleIn(n.store, n.py), claimed, remint, deprecate);
    assert [] + StaleIn(n.store, n.py) == StaleIn(n.store, n.py);
    b := Buckets(RecordsOf(Unclaimed(news, claimed)), nodeEdits + edgeEdits, deprecate, remint);
  }

  // ---------------------------------------------------------------- why the greedy choice is the n-th candidate

  lemma {:induction false} GroupMembers(news: seq<Element>, a: Anchor)
    ensures forall i :: 0 <= i < |Group(news, a)| ==> Group(news, a)[i] in news && Group(news, a)[i].anchor == a
    ensures DistinctUids(news) ==> DistinctUids(Group(news, a))
    ensures forall p :: p in news && p.anchor == a ==> p in Group(news, a)
  {
    if news != [] {
      var init, p := news[..|news| - 1], news[|news| - 1];
      GroupMembers(init, a);
      assert news == init + [p];
      assert DistinctUids(news) ==> forall q :: q in init ==> q.uid != p.uid;
    }
  }

  /** The claimed uids of an anchor's group are its first ones. */
  lemma {:induction false} ClaimedOfGroup(stale: seq<Stored>, news: seq<Element>, a: Anchor, i: nat)
    requires DistinctUids(news) && i < |Group(news, a)|
    ensures Group(news, a)[i].uid in Claimed(stale, news) <==> i < CountOf(stale, a)
  {
    if stale != [] {
      var before, s := stale[..|stale| - 1], stale[|stale| - 1];
      ClaimedOfGroup(before, news, a, i);
      var p := Partner(before, s, news);
      if p.Some? && p.value.uid == Group(news, a)[i].uid {
        SamePlace(news, a, i, s.anchor, CountOf(before, s.anchor));
      }
    }
  }

  /** Two places that hold the same uid are the same place of the same group. */
  lemma SamePlace(news: seq<Element>, a: Anchor, i: nat, b: Anchor, j: nat)
    requires DistinctUids(news) && i < |Group(news, a)| && j < |Group(news, b)|
    requires Group(news, a)[i].uid == Group(news, b)[j].uid
    ensures a == b && i == j
  {
    GroupMembers(news, a);
    GroupMembers(news, b);
    assert Group(news, a)[i] in news && Group(news, b)[j] in news;
  }

  lemma {:induction false} UnclaimedSuffix(group: seq<Element>, claimed: set<Uid>, k: nat)
    requires k <= |group|
    requires forall i :: 0 <= i < |group| ==> (group[i].uid in claimed <==> i < k)
    ensures Unclaimed(group, claimed) == group[k..]
  {
    if group != [] {
      var init := group[..|group| - 1];
      UnclaimedSuffix(init, claimed, if k == |group| then k - 1 else k);
      if k < |group| {
        assert group[k..] == init[k..] + [group[|group| - 1]];
      }
    }
  }

  /** The first candidate that is not claimed yet is the partner. */
  lemma FirstUnclaimed(before: seq<Stored>, s: Stored, news: seq<Element>)
    requires DistinctUids(news)
    ensures var candidates := Unclaimed(Group(news, s.anchor), Claimed(before, news));
            Partner(before, s, news) == if candidates == [] then None else Some(candidates[0])
  {
    var group, n := Group(news, s.anchor), CountOf(before, s.anchor);
    var k := if n < |group| then n else |group|;
    forall i | 0 <= i < |group| ensures group[i].uid in Claimed(before, news) <==> i < k {
      ClaimedOfGroup(before, news, s.anchor, i);
    }
    UnclaimedSuffix(group, Claimed(before, news), k);
  }

  lemma {:induction false} NewMembers(py: seq<Element>, store: seq<Stored>)
    ensures forall p :: p in NewIn(py, store) <==> p in py && Lookup(store, p.uid).None?
    ensures DistinctUids(py) ==> DistinctUids(NewIn(py, store))
  {
    if py != [] {
      var init, p := py[..|py| - 1], py[|py| - 1];
      NewMembers(init, store);
      assert py == init + [p];
      assert DistinctUids(py) ==> forall q :: q in init ==> q.uid != p.uid;
      var r := NewIn(init, store);
      assert forall i :: 0 <= i < |r| ==> r[i] in r;
    }
  }

  lemma NewDistinct(n: Side, e: Side)
    requires DistinctUids(n.py + e.py)
    ensures DistinctUids(NewOf(n, e))
  {
    var all := n.py + e.py;
    assert forall i :: 0 <= i < |n.py| ==> all[i] == n.py[i];
    assert forall i :: 0 <= i < |e.py| ==> all[|n.py| + i] == e.py[i];
    NewMembers(n.py, n.store);
    NewMembers(e.py, e.store);
    var a, b := NewIn(n.py, n.store), NewIn(e.py, e.store);
    forall i, j | 0 <= i < |a| && 0 <= j < |b| ensures a[i].uid != b[j].uid {
      assert a[i] in n.py && b[j] in e.py;
    }
  }

  // ---------------------------------------------------------------- the buckets partition what changed

  lemma {:induction false} UnclaimedMembers(news: seq<Element>, claimed: set<Uid>)
    ensures forall p :: p in Unclaimed(news, claimed) <==> p in news && p.uid !in claimed
  {
    if news != [] {
      UnclaimedMembers(news[..|news| - 1], claimed);
      assert news == news[..|news| - 1] + [news[|news| - 1]];
    }
  }

  /** The new uids of the re-mints are the claimed ones, each claimed once. */
  lemma {:induction false} RemintsClaim(stale: seq<Stored>, news: seq<Element>)
    requires DistinctUids(news)
    ensures forall u :: u in Claimed(stale, news) <==> exists r :: r in Remints(stale, news) && r.newUid == u
    ensures forall i, j :: 0 <= i < j < |Remints(stale, news)| ==>
              Remints(stale, news)[i].newUid != Remints(stale, news)[j].newUid
  {
    if stale != [] {
      var before, s := stale[..|stale| - 1], stale[|stale| - 1];
      RemintsClaim(before, news);
      var p := Partner(before, s, news);
      var rs, rs0 := Remints(stale, news), Remints(before, news);
      if p.Some? {
        ClaimedOfGroup(before, news, s.anchor, CountOf(before, s.anchor));
        assert p.value.uid !in Claimed(before, news);
        assert rs[|rs0|] in rs && rs[|rs0|].newUid == p.value.uid;
        assert forall i :: 0 <= i < |rs0| ==> rs0[i] in rs0;
        forall u ensures u in Claimed(stale, news) <==> exists r :: r in rs && r.newUid == u {
          if u in Claimed(before, news) {
            var r :| r in rs0 && r.newUid == u;
            assert r in rs;
          }
        }
      }
    }
  }

  lemma NewOfProduced(n: Side, e: Side, q: Element)
    requires q in NewOf(n, e)
    ensures q in n.py + e.py
  {
    NewMembers(n.py, n.store);
    NewMembers(e.py, e.store);
  }

  /** A record is among the adds exactly when its element is unclaimed. */
  lemma RecordAdded(n: Side, e: Side, p: Element)
    requires Genuine(n.py + e.py) && p in NewOf(n, e)
    ensures p.record in Diff(n, e).add <==> p.uid !in Claimed(StaleOf(n, e), NewOf(n, e))
  {
    var news := NewOf(n, e);
    var claimed := Claimed(StaleOf(n, e), news);
    var unclaimed := Unclaimed(news, claimed);
    UnclaimedMembers(news, claimed);
    NewOfProduced(n, e, p);
    if p.record in Diff(n, e).add {
      var i :| 0 <= i < |unclaimed| && RecordsOf(unclaimed)[i] == p.record;
      assert unclaimed[i] in unclaimed;
      NewOfProduced(n, e, unclaimed[i]);
    }
    if p.uid !in claimed {
      var i :| 0 <= i < |unclaimed| && unclaimed[i] == p;
      assert RecordsOf(unclaimed)[i] == p.record;
    }
  }

  /** Each new element is an add or the new side of exactly one re-mint, never both. */
  lemma NewElementsPartitioned(n: Side, e: Side, p: Element)
    requires Genuine(n.py + e.py) && p in NewOf(n, e)
    ensures var b := Diff(n, e);
            && (p.record in b.add <==> !exists r :: r in b.remint && r.newUid == p.uid)
            && (forall i, j :: 0 <= i < j < |b.remint| ==> b.remint[i].newUid != b.remint[j].newUid)
  {
    NewDistinct(n, e);
    RemintsClaim(StaleOf(n, e), NewOf(n, e));
    RecordAdded(n, e, p);
  }

  /** The old uids of the re-mints and the deprecated uids are together the stale ones, in two disjoint lists. */
  lemma {:induction false} StaleElementsPartitioned(stale: seq<Stored>, news: seq<Element>, u: Uid)
    requires DistinctStored(stale)
    ensures var reminted, deprecated := (exists r :: r in Remints(stale, news) && r.oldUid == u),
                                        Deprecate(u, DEPRECATION_NOTE) in Deprecations(stale, news);
            && (reminted || deprecated <==> exists s :: s in stale && s.uid == u)
            && !(reminted && deprecated)
  {
    if stale != [] {
      var before, s := stale[..|stale| - 1], stale[|stale| - 1];
      StaleElementsPartitioned(before, news, u);
      var rs, rs0 := Remints(stale, news), Remints(before, news);
      assert stale == before + [s];
      assert s.uid == u ==> !exists t :: t in before && t.uid == u;
      var p := Partner(before, s, news);
      if p.Some? {
        assert rs == rs0 + [Remint(s.uid, p.value.uid, NameFor(s, p.value))];
        assert rs[|rs0|] in rs;
        assert forall r :: r in rs <==> r in rs0 || r == rs[|rs0|];
      }
    }
  }

  /** The uid names an element of the anchor. */
  ghost predicate NamesAnchor(news: seq<Element>, u: Uid, a: Anchor) {
    exists p :: p in news && p.uid == u && p.anchor == a
  }

  /** How many re-mints have a new side of the anchor. */
  ghost function RemintCount(rs: seq<Remint>, news: seq<Element>, a: Anchor): nat {
    if rs == [] then 0
    else RemintCount(rs[..|rs| - 1], news, a) + (if NamesAnchor(news, rs[|rs| - 1].newUid, a) then 1 else 0)
  }

  lemma PartnerNames(before: seq<Stored>, s: Stored, news: seq<Element>, a: Anchor)
    requires DistinctUids(news) && Partner(before, s, news).Some?
    ensures NamesAnchor(news, Partner(before, s, news).value.uid, a) <==> s.anchor == a
  {
    GroupMembers(news, s.anchor);
    var p := Partner(before, s, news).value;
    assert p in news && p.anchor == s.anchor;
  }

  /** Each anchor gets as many re-mints as the smaller of its stale and new elements. */
  lemma {:induction false} RemintsPerAnchor(stale: seq<Stored>, news: seq<Element>, a: Anchor)
    requires DistinctUids(news)
    ensures var s, g := CountOf(stale, a), |Group(news, a)|;
            RemintCount(Remints(stale, news), news, a) == if s <= g then s else g
  {
    if stale != [] {
      var before, s := stale[..|stale| - 1], stale[|stale| - 1];
      RemintsPerAnchor(before, news, a);
      if Partner(before, s, news).Some? {
        PartnerNames(before, s, news, a);
        var rs := Remints(stale, news);
        assert rs[..|rs| - 1] == Remints(before, news);
      } else {
        assert Remints(stale, news) == Remints(before, news);
      }
    }
  }

  /** What Python takes for false: null, false, zero, and empty texts, lists and objects. */
  ghost predicate Falsy(j: Json) {
    j == Null || j == Flag(false) || (j.Num? && j.mantissa == 0) || j == Text("") || j == List([]) || j == Object(map[])
  }

  /** The old element's name if it has one that is not falsy, else the new element's, else null. */
  ghost predicate Called(name: Json, stale: Meta, fresher: Meta) {
    if "name" in stale && !Falsy(stale["name"]) then name == stale["name"]
    else if "name" in fresher then name == fresher["name"]
    else name == Null
  }

  lemma NameIs(s: Stored, p: Element)
    ensures Called(NameFor(s, p), s.meta, p.meta)
  {
  }

  /** A re-mint pairs a stale element with a new one of the same anchor, under the right name. */
  lemma {:induction false} RemintsShareAnchor(stale: seq<Stored>, news: seq<Element>)
    ensures forall r :: r in Remints(stale, news) ==> PairOf(stale, news, r)
  {
    if stale != [] {
      var before, s := stale[..|stale| - 1], stale[|stale| - 1];
      RemintsShareAnchor(before, news);
      GroupMembers(news, s.anchor);
      forall r | r in Remints(stale, news) ensures PairOf(stale, news, r) {
        if r in Remints(before, news) {
          var t, p :| t in before && p in news && t.uid == r.oldUid && p.uid == r.newUid && t.anchor == p.anchor &&
                      Called(r.name, t.meta, p.meta);
          assert t in stale;
        } else {
          var p := Partner(before, s, news).value;
          NameIs(s, p);
          assert s in stale && p in news;
        }
      }
    }
  }

  ghost predicate PairOf(stale: seq<Stored>, news: seq<Element>, r: Remint) {
    exists s, p :: s in stale && p in news && s.uid == r.oldUid && p.uid == r.newUid && s.anchor == p.anchor &&
                   Called(r.name, s.meta, p.meta)
  }

  // ---------------------------------------------------------------- in sync

  /** Every Python element is stored with the same compared metadata; every other stored element is retired. */
  ghost predicate SideInSync(s: Side) {
    && (forall p :: p in s.py ==>
          Lookup(s.store, p.uid).Some? && MetaAgrees(p.meta, Lookup(s.store, p.uid).value.meta, s.keys))
    && (forall t :: t in s.store ==> (exists p :: p in s.py && p.uid == t.uid) || t.retired)
  }

  lemma ProducedIs(py: seq<Element>, u: Uid)
    ensures Produced(py, u) <==> exists p :: p in py && p.uid == u
  {
    if Produced(py, u) {
      var i :| 0 <= i < |py| && py[i].uid == u;
      assert py[i] in py;
    }
  }

  /** What an edit of the bucket says: an element that is stored and whose compared metadata differs, with exactly the
      differing keys and the Python values. */
  ghost predicate EditSays(q: Payload, p: Element, stored: Meta, keys: set<string>) {
    && q.EditMeta? && q.uid == p.uid && !MetaAgrees(p.meta, stored, keys)
    && (forall k :: k in q.meta <==> k in keys && !SameRead(p.meta, stored, k))
    && (forall k :: k in q.meta ==> q.meta[k] == if k in p.meta then p.meta[k] else Null)
  }

  lemma EditForSays(p: Element, store: seq<Stored>, keys: set<string>, q: Payload)
    ensures q in EditFor(p, store, keys) <==>
            Lookup(store, p.uid).Some? && EditSays(q, p, Lookup(store, p.uid).value.meta, keys)
  {
    var s := Lookup(store, p.uid);
    if s.Some? {
      var stored := s.value.meta;
      MetaDiffEmpty(p.meta, stored, keys);
      forall k
        ensures k in MetaDiff(p.meta, stored, keys) <==> k in keys && !SameRead(p.meta, stored, k)
        ensures k in MetaDiff(p.meta, stored, keys) ==>
                  MetaDiff(p.meta, stored, keys)[k] == if k in p.meta then p.meta[k] else Null
      {
        MetaDiffIs(p.meta, stored, keys, k);
      }
      if EditSays(q, p, stored, keys) {
        assert q.meta == MetaDiff(p.meta, stored, keys);
      }
    }
  }

  /** The edits are exactly those the stored elements call for. */
  lemma EditsSay(side: Side, q: Payload)
    ensures q in EditsIn(side.py, side.store, side.keys) <==>
            exists p :: p in side.py && Lookup(side.store, p.uid).Some? &&
                        EditSays(q, p, Lookup(side.store, p.uid).value.meta, side.keys)
  {
    EditsMembers(side.py, side.store, side.keys);
    forall p ensures q in EditFor(p, side.store, side.keys) <==>
                     Lookup(side.store, p.uid).Some? &&
                     EditSays(q, p, Lookup(side.store, p.uid).value.meta, side.keys)
    {
      EditForSays(p, side.store, side.keys, q);
    }
  }

  ghost predicate Empty(b: Buckets) {
    b.add == [] && b.edit == [] && b.deprecate == [] && b.remint == []
  }

  lemma {:induction false} EditsMembers(py: seq<Element>, store: seq<Stored>, keys: set<string>)
    ensures forall q :: q in EditsIn(py, store, keys) <==> exists p :: p in py && q in EditFor(p, store, keys)
  {
    if py != [] {
      var init, p := py[..|py| - 1], py[|py| - 1];
      EditsMembers(init, store, keys);
      assert py == init + [p];
      forall q ensures q in EditsIn(py, store, keys) <==> exists p :: p in py && q in EditFor(p, store, keys) {
        if q in EditsIn(init, store, keys) {
          var p' :| p' in init && q in EditFor(p', store, keys);
          assert p' in py;
        }
      }
    }
  }

  lemma {:induction false} StaleMembers(store: seq<Stored>, py: seq<Element>)
    ensures forall s :: s in StaleIn(store, py) <==> s in store && !Produced(py, s.uid) && !s.retired
  {
    if store != [] {
      StaleMembers(store[..|store| - 1], py);
      assert store == store[..|store| - 1] + [store[|store| - 1]];
    }
  }

  lemma HeadIn<T>(s: seq<T>)
    ensures s != [] ==> s[0] in s
  {
  }

  lemma SideQuiet(s: Side)
    ensures SideInSync(s) <==>
            NewIn(s.py, s.store) == [] && EditsIn(s.py, s.store, s.keys) == [] && StaleIn(s.store, s.py) == []
  {
    NewMembers(s.py, s.store);
    EditsMembers(s.py, s.store, s.keys);
    StaleMembers(s.store, s.py);
    var news, edits, stale := NewIn(s.py, s.store), EditsIn(s.py, s.store, s.keys), StaleIn(s.store, s.py);
    if SideInSync(s) {
      forall p | p in s.py ensures MetaDiff(p.meta, Lookup(s.store, p.uid).value.meta, s.keys) == map[] {
        MetaDiffEmpty(p.meta, Lookup(s.store, p.uid).value.meta, s.keys);
      }
      forall t | t in stale ensures false {
        ProducedIs(s.py, t.uid);
      }
      HeadIn(news);
      HeadIn(edits);
      HeadIn(stale);
    }
    if news == [] && edits == [] && stale == [] {
      forall p | p in s.py
        ensures Lookup(s.store, p.uid).Some? && MetaAgrees(p.meta, Lookup(s.store, p.uid).value.meta, s.keys)
      {
        assert p !in news;
        assert forall q :: q in EditFor(p, s.store, s.keys) ==> q in edits;
        HeadIn(EditFor(p, s.store, s.keys));
        MetaDiffEmpty(p.meta, Lookup(s.store, p.uid).value.meta, s.keys);
      }
      forall t | t in s.store ensures (exists p :: p in s.py && p.uid == t.uid) || t.retired {
        assert t !in stale;
        ProducedIs(s.py, t.uid);
      }
    }
  }

  /** compute_sync proposes nothing exactly when both sides agree. */
  lemma EmptyIffInSync(n: Side, e: Side)
    ensures Empty(Diff(n, e)) <==> SideInSync(n) && SideInSync(e)
  {
    var news, stale := NewOf(n, e), StaleOf(n, e);
    SideQuiet(n);
    SideQuiet(e);
    if Empty(Diff(n, e)) {
      assert |RecordsOf(Unclaimed(news, {}))| == 0;
      UnclaimedMembers(news, {});
      HeadIn(news);
      assert NewIn(n.py, n.store) + NewIn(e.py, e.store) == [];
    }
  }
}
