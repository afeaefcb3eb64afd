/** Landing everything compute_sync proposes, in any order and through the store's own replay, leaves nothing to
    propose. */
module Landing {
  import opened MapRecords
  import opened Sync
  import opened SyncConverges

  ghost predicate Uids(ps: seq<Payload>, u: Uid) {
    exists i :: 0 <= i < |ps| && (ps[i].AddNode? || ps[i].AddEdge?) && ps[i].uid == u
  }

  /** The layer lists distinct uids, and no uid names a node in one place and an edge in another. */
  ghost predicate Aligned(l: Layer, v: View) {
    && (forall i :: 0 <= i < |l.nodes| ==> l.nodes[i].AddNode?)
    && (forall i :: 0 <= i < |l.edges| ==> l.edges[i].AddEdge?)
    && (forall i, j :: 0 <= i < j < |l.nodes| ==> l.nodes[i].uid != l.nodes[j].uid)
    && (forall i, j :: 0 <= i < j < |l.edges| ==> l.edges[i].uid != l.edges[j].uid)
    && (forall u :: u in v.nodes || Uids(l.nodes, u) ==> u !in v.edges && !Uids(l.edges, u))
  }

  ghost function NodeSide(l: Layer, v: View, order: seq<Uid>): Side
    requires Aligned(l, v) && Enumerates(order, v.nodes.Keys)
  {
    assert forall i :: 0 <= i < |order| ==> order[i] in order;
    Side(Elements(l.nodes), StoredNodes(v.nodes, order), NODE_META_KEYS)
  }

  ghost function EdgeSide(l: Layer, v: View, order: seq<Uid>): Side
    requires Aligned(l, v) && Enumerates(order, v.edges.Keys)
  {
    assert forall i :: 0 <= i < |order| ==> order[i] in order;
    Side(Elements(l.edges), StoredEdges(v.edges, order), EDGE_META_KEYS)
  }

  ghost function AllElements(l: Layer, v: View): seq<Element>
    requires Aligned(l, v)
  {
    Elements(l.nodes) + Elements(l.edges)
  }

  lemma AlignedGenuine(l: Layer, v: View)
    requires Aligned(l, v)
    ensures Genuine(AllElements(l, v))
    ensures forall p :: p in Elements(l.nodes) ==> p.record.AddNode? && Uids(l.nodes, p.uid)
    ensures forall p :: p in Elements(l.edges) ==> p.record.AddEdge? && Uids(l.edges, p.uid)
  {
    var a, b := Elements(l.nodes), Elements(l.edges);
    forall i, j | 0 <= i < |a| && 0 <= j < |b| ensures a[i].uid != b[j].uid {
      assert Uids(l.nodes, a[i].uid) && Uids(l.edges, b[j].uid);
    }
  }

  lemma NodesShown(l: Layer, v: View, order: seq<Uid>)
    requires Aligned(l, v) && Enumerates(order, v.nodes.Keys)
    ensures Shows(NodeSide(l, v, order).store, v, v.nodes.Keys)
    ensures DistinctStored(NodeSide(l, v, order).store)
  {
    var store := NodeSide(l, v, order).store;
    forall s | s in store ensures s.uid in v.nodes && (s.retired <==> RetiredAt(v, s.uid)) {
      var i :| 0 <= i < |store| && store[i] == s;
      assert order[i] in order;
    }
    forall u | u in v.nodes ensures Lookup(store, u).Some? && Lookup(store, u).value.meta == v.nodes[u].meta {
      LookupFinds(store, u);
      var i :| 0 <= i < |order| && order[i] == u;
      assert store[i].uid == u && store[i] in store;
      var s := Lookup(store, u).value;
      var j :| 0 <= j < |store| && store[j] == s;
    }
  }

  lemma EdgesShown(l: Layer, v: View, order: seq<Uid>)
    requires Aligned(l, v) && Enumerates(order, v.edges.Keys)
    ensures Shows(EdgeSide(l, v, order).store, v, v.edges.Keys)
    ensures DistinctStored(EdgeSide(l, v, order).store)
  {
    var store := EdgeSide(l, v, order).store;
    forall s | s in store ensures s.uid in v.edges && (s.retired <==> RetiredAt(v, s.uid)) {
      var i :| 0 <= i < |store| && store[i] == s;
      assert order[i] in order;
      assert s.uid !in v.nodes;
    }
    forall u | u in v.edges ensures Lookup(store, u).Some? && Lookup(store, u).value.meta == MetaAt(v, u).value {
      LookupFinds(store, u);
      var i :| 0 <= i < |order| && order[i] == u;
      assert store[i].uid == u && store[i] in store;
      var s := Lookup(store, u).value;
      var j :| 0 <= j < |store| && store[j] == s;
      assert u !in v.nodes;
    }
  }

  /** The records that land a proposal: the adds, the edits, the deprecations, and for each re-mint the new element's
      add with a supersede record from the old uid. */
  ghost predicate IsLanding(q: Payload, b: Buckets, news: seq<Element>) {
    || q in b.add
    || q in b.edit
    || q in b.deprecate
    || (exists r :: r in b.remint && q == Supersede([r.oldUid], [r.newUid]))
    || (exists r, p :: r in b.remint && p in news && p.uid == r.newUid && q == p.record)
  }

  ghost predicate LandsAll(ps: seq<Payload>, b: Buckets, news: seq<Element>) {
    forall q :: q in ps <==> IsLanding(q, b, news)
  }

  // ---------------------------------------------------------------- one kind of element against the whole map

  /** A side lists the elements of its kind, and its store lists the uids in had as the view has them. */
  ghost predicate Kind(side: Side, v: View, had: set<Uid>, py: seq<Element>) {
    && (forall p :: p in side.py ==> p in py && (p.uid in had <==> Known(v, p.uid)))
    && (forall u :: u in had ==> Known(v, u) && (Produced(side.py, u) <==> Produced(py, u)))
    && Shows(side.store, v, had)
  }

  /** The edit an element of the side needs. */
  ghost predicate Knows(edit: Uid -> Meta, side: Side, had: set<Uid>) {
    forall p :: p in side.py && p.uid in had ==>
      Lookup(side.store, p.uid).Some? &&
      edit(p.uid) == MetaDiff(p.meta, Lookup(side.store, p.uid).value.meta, side.keys)
  }

  lemma LookupHad(side: Side, v: View, had: set<Uid>, py: seq<Element>, u: Uid)
    requires Kind(side, v, had, py)
    ensures Lookup(side.store, u).Some? <==> u in had
  {
    LookupFinds(side.store, u);
  }

  lemma NewIsUnknown(side: Side, v: View, had: set<Uid>, py: seq<Element>, q: Element)
    requires Kind(side, v, had, py)
    ensures q in NewIn(side.py, side.store) <==> q in side.py && q.uid !in had
    ensures q in NewIn(side.py, side.store) ==> q in py && !Known(v, q.uid)
  {
    NewMembers(side.py, side.store);
    LookupHad(side, v, had, py, q.uid);
  }

  lemma StaleIsKnown(side: Side, v: View, had: set<Uid>, py: seq<Element>, s: Stored)
    requires Kind(side, v, had, py)
    ensures s in StaleIn(side.store, side.py) ==> Known(v, s.uid) && !Produced(py, s.uid)
  {
    StaleMembers(side.store, side.py);
  }

  lemma EditIsKnown(side: Side, v: View, had: set<Uid>, py: seq<Element>, edit: Uid -> Meta, q: Payload)
    requires Kind(side, v, had, py) && Knows(edit, side, had) && q in EditsIn(side.py, side.store, side.keys)
    ensures q.EditMeta? && Known(v, q.uid) && Produced(py, q.uid) && q.meta == edit(q.uid)
  {
    EditsMembers(side.py, side.store, side.keys);
    var p :| p in side.py && q in EditFor(p, side.store, side.keys);
    LookupHad(side, v, had, py, p.uid);
    ProducedMember(py, p);
  }

  lemma EditIsProposed(side: Side, v: View, had: set<Uid>, py: seq<Element>, edit: Uid -> Meta, p: Element)
    requires Kind(side, v, had, py) && Knows(edit, side, had) && p in side.py && p.uid in had
    ensures edit(p.uid) == MetaDiff(p.meta, MetaAt(v, p.uid).value, side.keys)
    ensures edit(p.uid) != map[] ==> EditMeta(p.uid, edit(p.uid)) in EditsIn(side.py, side.store, side.keys)
  {
    EditsMembers(side.py, side.store, side.keys);
    if edit(p.uid) != map[] {
      assert EditMeta(p.uid, edit(p.uid)) in EditFor(p, side.store, side.keys);
    }
  }

  lemma StaleIsListed(side: Side, v: View, had: set<Uid>, py: seq<Element>, u: Uid)
    requires Kind(side, v, had, py) && u in had && !Produced(py, u) && !RetiredAt(v, u)
    ensures exists s :: s in StaleIn(side.store, side.py) && s.uid == u
  {
    LookupFinds(side.store, u);
    StaleMembers(side.store, side.py);
    assert Lookup(side.store, u).value in StaleIn(side.store, side.py);
  }

  lemma {:induction false} DeprecationsOfStale(stale: seq<Stored>, news: seq<Element>, q: Payload)
    requires q in Deprecations(stale, news)
    ensures exists s :: s in stale && q == Deprecate(s.uid, DEPRECATION_NOTE)
  {
    var before, s := stale[..|stale| - 1], stale[|stale| - 1];
    assert stale == before + [s];
    if q in Deprecations(before, news) {
      DeprecationsOfStale(before, news, q);
      var t :| t in before && q == Deprecate(t.uid, DEPRECATION_NOTE);
      assert t in stale;
    } else {
      assert s in stale;
    }
  }

  // ---------------------------------------------------------------- both kinds together

  ghost predicate Facts(n: Side, e: Side, v: View, py: seq<Element>) {
    && py == n.py + e.py && Genuine(py)
    && Kind(n, v, v.nodes.Keys, py) && Kind(e, v, v.edges.Keys, py)
    && DistinctStored(StaleOf(n, e))
  }

  /** What an element of the side with this uid would be edited by. */
  ghost function ChangeFor(side: Side, u: Uid): Meta {
    if Lookup(side.store, u).Some? && Produced(side.py, u) then
      var i :| 0 <= i < |side.py| && side.py[i].uid == u;
      MetaDiff(side.py[i].meta, Lookup(side.store, u).value.meta, side.keys)
    else map[]
  }

  ghost function Changes(n: Side, e: Side): Uid -> Meta {
    (u: Uid) => if Lookup(n.store, u).Some? then ChangeFor(n, u) else ChangeFor(e, u)
  }

  lemma ChangesKnown(n: Side, e: Side, v: View, py: seq<Element>)
    requires Facts(n, e, v, py) && v.nodes.Keys !! v.edges.Keys
    ensures Knows(Changes(n, e), n, v.nodes.Keys) && Knows(Changes(n, e), e, v.edges.Keys)
  {
    assert forall i :: 0 <= i < |n.py| ==> py[i] == n.py[i];
    assert forall i :: 0 <= i < |e.py| ==> py[|n.py| + i] == e.py[i];
    forall p | p in n.py && p.uid in v.nodes.Keys
      ensures Lookup(n.store, p.uid).Some?
      ensures Changes(n, e)(p.uid) == MetaDiff(p.meta, Lookup(n.store, p.uid).value.meta, n.keys)
    {
      LookupHad(n, v, v.nodes.Keys, py, p.uid);
    }
    forall p | p in e.py && p.uid in v.edges.Keys
      ensures Lookup(e.store, p.uid).Some?
      ensures Changes(n, e)(p.uid) == MetaDiff(p.meta, Lookup(e.store, p.uid).value.meta, e.keys)
    {
      LookupHad(n, v, v.nodes.Keys, py, p.uid);
      LookupHad(e, v, v.edges.Keys, py, p.uid);
    }
  }

  lemma NewOfIsUnknown(n: Side, e: Side, v: View, py: seq<Element>, q: Element)
    requires Facts(n, e, v, py) && q in NewOf(n, e)
    ensures q in py && !Known(v, q.uid)
  {
    NewIsUnknown(n, v, v.nodes.Keys, py, q);
    NewIsUnknown(e, v, v.edges.Keys, py, q);
  }

  lemma StaleOfIsKnown(n: Side, e: Side, v: View, py: seq<Element>, s: Stored)
    requires Facts(n, e, v, py) && s in StaleOf(n, e)
    ensures Known(v, s.uid) && !Produced(py, s.uid)
  {
    StaleIsKnown(n, v, v.nodes.Keys, py, s);
    StaleIsKnown(e, v, v.edges.Keys, py, s);
  }

  lemma RemintLands(n: Side, e: Side, v: View, py: seq<Element>, edit: Uid -> Meta, r: Remint)
    requires Facts(n, e, v, py) && r in Diff(n, e).remint
    ensures Lands(Supersede([r.oldUid], [r.newUid]), v, py, edit)
  {
    RemintsShareAnchor(StaleOf(n, e), NewOf(n, e));
    var s, p :| s in StaleOf(n, e) && p in NewOf(n, e) && s.uid == r.oldUid && p.uid == r.newUid &&
                s.anchor == p.anchor;
    StaleOfIsKnown(n, e, v, py, s);
  }

  lemma RecordLands(n: Side, e: Side, v: View, py: seq<Element>, edit: Uid -> Meta, p: Element)
    requires Facts(n, e, v, py) && p in NewOf(n, e)
    ensures Lands(p.record, v, py, edit)
  {
    NewOfIsUnknown(n, e, v, py, p);
  }

  lemma AddLands(n: Side, e: Side, v: View, py: seq<Element>, edit: Uid -> Meta, q: Payload)
    requires Facts(n, e, v, py) && q in Diff(n, e).add
    ensures Lands(q, v, py, edit)
  {
    var news, stale := NewOf(n, e), StaleOf(n, e);
    var unclaimed := Unclaimed(news, Claimed(stale, news));
    UnclaimedMembers(news, Claimed(stale, news));
    var i :| 0 <= i < |unclaimed| && RecordsOf(unclaimed)[i] == q;
    assert unclaimed[i] in unclaimed;
    RecordLands(n, e, v, py, edit, unclaimed[i]);
  }

  lemma EveryRecordLands(n: Side, e: Side, v: View, py: seq<Element>, edit: Uid -> Meta, q: Payload)
    requires Facts(n, e, v, py) && Knows(edit, n, v.nodes.Keys) && Knows(edit, e, v.edges.Keys)
    requires IsLanding(q, Diff(n, e), NewOf(n, e))
    ensures Lands(q, v, py, edit)
  {
    var b := Diff(n, e);
    if q in b.add {
      AddLands(n, e, v, py, edit, q);
    } else if q in b.edit {
      if q in EditsIn(n.py, n.store, n.keys) {
        EditIsKnown(n, v, v.nodes.Keys, py, edit, q);
      } else {
        EditIsKnown(e, v, v.edges.Keys, py, edit, q);
      }
    } else if q in b.deprecate {
      DeprecationsOfStale(StaleOf(n, e), NewOf(n, e), q);
      var s :| s in StaleOf(n, e) && q == Deprecate(s.uid, DEPRECATION_NOTE);
      StaleOfIsKnown(n, e, v, py, s);
    } else if r :| r in b.remint && q == Supersede([r.oldUid], [r.newUid]) {
      RemintLands(n, e, v, py, edit, r);
    } else {
      var r, p :| r in b.remint && p in NewOf(n, e) && p.uid == r.newUid && q == p.record;
      RecordLands(n, e, v, py, edit, p);
    }
  }

  lemma NewRecordListed(n: Side, e: Side, v: View, py: seq<Element>, p: Element)
    requires Facts(n, e, v, py) && p in NewOf(n, e)
    ensures IsLanding(p.record, Diff(n, e), NewOf(n, e))
  {
    NewElementsPartitioned(n, e, p);
  }

  lemma ListedRetires(ps: seq<Payload>, q: Payload, u: Uid)
    requires Retires(q, u) && q in ps
    ensures RetiredBy(ps, u)
  {
  }

  lemma StaleRetired(n: Side, e: Side, ps: seq<Payload>, s: Stored)
    requires DistinctStored(StaleOf(n, e)) && s in StaleOf(n, e) && LandsAll(ps, Diff(n, e), NewOf(n, e))
    ensures RetiredBy(ps, s.uid)
  {
    var b := Diff(n, e);
    StaleElementsPartitioned(StaleOf(n, e), NewOf(n, e), s.uid);
    if exists r :: r in b.remint && r.oldUid == s.uid {
      var r :| r in b.remint && r.oldUid == s.uid;
      assert IsLanding(Supersede([r.oldUid], [r.newUid]), b, NewOf(n, e));
      ListedRetires(ps, Supersede([r.oldUid], [r.newUid]), s.uid);
    } else {
      assert IsLanding(Deprecate(s.uid, DEPRECATION_NOTE), b, NewOf(n, e));
      ListedRetires(ps, Deprecate(s.uid, DEPRECATION_NOTE), s.uid);
    }
  }

  /** A landing of the whole proposal serves each kind. */
  lemma LandingServes(n: Side, e: Side, v: View, py: seq<Element>, edit: Uid -> Meta, ps: seq<Payload>,
                      side: Side, had: set<Uid>)
    requires Facts(n, e, v, py) && LandsAll(ps, Diff(n, e), NewOf(n, e))
    requires (side == n && had == v.nodes.Keys) || (side == e && had == v.edges.Keys)
    requires Knows(edit, side, had)
    ensures Serves(ps, side, v, had, py, edit)
  {
    var b, news := Diff(n, e), NewOf(n, e);
    forall p | p in side.py && p.uid in had
      ensures edit(p.uid) == MetaDiff(p.meta, MetaAt(v, p.uid).value, side.keys)
      ensures edit(p.uid) != map[] ==> EditMeta(p.uid, edit(p.uid)) in ps
    {
      EditIsProposed(side, v, had, py, edit, p);
      assert edit(p.uid) != map[] ==> IsLanding(EditMeta(p.uid, edit(p.uid)), b, news);
    }
    forall p | p in side.py && p.uid !in had ensures !Known(v, p.uid) && p.record in ps {
      NewIsUnknown(side, v, had, py, p);
      assert p in news;
      NewRecordListed(n, e, v, py, p);
    }
    forall u | u in had && !Produced(py, u) ensures RetiredAt(v, u) || RetiredBy(ps, u) {
      if !RetiredAt(v, u) {
        StaleIsListed(side, v, had, py, u);
        var s :| s in StaleIn(side.store, side.py) && s.uid == u;
        StaleRetired(n, e, ps, s);
      }
    }
  }

  // ---------------------------------------------------------------- the layer and its map

  lemma NodeKind(l: Layer, v: View, order: seq<Uid>)
    requires Aligned(l, v) && Enumerates(order, v.nodes.Keys)
    ensures Kind(NodeSide(l, v, order), v, v.nodes.Keys, AllElements(l, v))
  {
    AlignedGenuine(l, v);
    NodesShown(l, v, order);
    var side, py := NodeSide(l, v, order), AllElements(l, v);
    forall u | u in v.nodes.Keys ensures Produced(side.py, u) <==> Produced(py, u) {
      ProducedEither(Elements(l.nodes), Elements(l.edges), u);
    }
  }

  lemma EdgeKind(l: Layer, v: View, order: seq<Uid>)
    requires Aligned(l, v) && Enumerates(order, v.edges.Keys)
    ensures Kind(EdgeSide(l, v, order), v, v.edges.Keys, AllElements(l, v))
  {
    AlignedGenuine(l, v);
    EdgesShown(l, v, order);
    var side, py := EdgeSide(l, v, order), AllElements(l, v);
    forall u | u in v.edges.Keys ensures Produced(side.py, u) <==> Produced(py, u) {
      ProducedEither(Elements(l.nodes), Elements(l.edges), u);
    }
    assert forall p :: p in side.py ==> p.uid !in v.nodes;
  }

  lemma ProducedEither(a: seq<Element>, b: seq<Element>, u: Uid)
    ensures Produced(a + b, u) <==> Produced(a, u) || Produced(b, u)
  {
    if Produced(a, u) {
      var i :| 0 <= i < |a| && a[i].uid == u;
      assert (a + b)[i].uid == u;
    }
    if Produced(b, u) {
      var i :| 0 <= i < |b| && b[i].uid == u;
      assert (a + b)[|a| + i].uid == u;
    }
  }

  lemma {:induction false} StaleDistinct(store: seq<Stored>, py: seq<Element>)
    requires DistinctStored(store)
    ensures DistinctStored(StaleIn(store, py))
  {
    if store != [] {
      var init, s := store[..|store| - 1], store[|store| - 1];
      StaleDistinct(init, py);
      StaleMembers(init, py);
      var r := StaleIn(init, py);
      assert forall i :: 0 <= i < |r| ==> r[i] in r && r[i] in init;
    }
  }

  lemma LayerFacts(l: Layer, v: View, no: seq<Uid>, eo: seq<Uid>)
    requires Aligned(l, v) && Enumerates(no, v.nodes.Keys) && Enumerates(eo, v.edges.Keys)
    ensures Facts(NodeSide(l, v, no), EdgeSide(l, v, eo), v, AllElements(l, v))
  {
    var n, e := NodeSide(l, v, no), EdgeSide(l, v, eo);
    AlignedGenuine(l, v);
    NodeKind(l, v, no);
    EdgeKind(l, v, eo);
    NodesShown(l, v, no);
    EdgesShown(l, v, eo);
    StaleDistinct(n.store, n.py);
    StaleDistinct(e.store, e.py);
    StaleMembers(n.store, n.py);
    StaleMembers(e.store, e.py);
    var a, b := StaleIn(n.store, n.py), StaleIn(e.store, e.py);
    forall i, j | 0 <= i < |a| && 0 <= j < |b| ensures a[i].uid != b[j].uid {
      assert a[i] in a && b[j] in b;
    }
  }

  lemma KeysFrom(l: Layer, v: View, w: View, u: Uid)
    requires Aligned(l, v) && KindsKept(v, w, AllElements(l, v))
    ensures u in w.nodes ==> u in v.nodes || Uids(l.nodes, u)
    ensures u in w.edges ==> u in v.edges || Uids(l.edges, u)
  {
    AlignedGenuine(l, v);
    if u in w.nodes && u !in v.nodes {
      var q :| q in AllElements(l, v) && q.record.AddNode? && q.uid == u;
    }
    if u in w.edges && u !in v.edges {
      var q :| q in AllElements(l, v) && q.record.AddEdge? && q.uid == u;
    }
  }

  /** Landed records keep nodes and edges apart. */
  lemma StaysAligned(l: Layer, v: View, w: View)
    requires Aligned(l, v) && KindsKept(v, w, AllElements(l, v))
    ensures Aligned(l, w)
  {
    forall u | u in w.nodes || Uids(l.nodes, u) ensures u !in w.edges && !Uids(l.edges, u) {
      KeysFrom(l, v, w, u);
    }
  }

  /** The elements of a kind all end up in that kind's dict, and nothing else joins it. */
  lemma KeysAfter(l: Layer, v: View, w: View)
    requires Aligned(l, v) && KindsKept(v, w, AllElements(l, v)) && Aligned(l, w)
    requires forall p :: p in AllElements(l, v) ==> Known(w, p.uid)
    ensures forall u :: u in w.nodes ==> u in v.nodes || Produced(Elements(l.nodes), u)
    ensures forall u :: u in w.edges ==> u in v.edges || Produced(Elements(l.edges), u)
    ensures forall p :: p in Elements(l.nodes) ==> p.uid in w.nodes
    ensures forall p :: p in Elements(l.edges) ==> p.uid in w.edges
  {
    AlignedGenuine(l, v);
    forall u | u in w.nodes && u !in v.nodes ensures Produced(Elements(l.nodes), u) {
      var q :| q in AllElements(l, v) && q.record.AddNode? && q.uid == u;
      ProducedMember(Elements(l.nodes), q);
    }
    forall u | u in w.edges && u !in v.edges ensures Produced(Elements(l.edges), u) {
      var q :| q in AllElements(l, v) && q.record.AddEdge? && q.uid == u;
      ProducedMember(Elements(l.edges), q);
    }
  }

  lemma ServedIsKnown(ps: seq<Payload>, side: Side, v: View, had: set<Uid>, py: seq<Element>, edit: Uid -> Meta)
    requires AllLand(ps, v, py, edit) && Genuine(py) && Serves(ps, side, v, had, py, edit)
    ensures forall p :: p in side.py ==> Known(AppliedAll(v, ps), p.uid)
  {
    forall p | p in side.py ensures Known(AppliedAll(v, ps), p.uid) {
      ElementConverges(ps, side, v, had, py, edit, p);
    }
  }

  /** Land every record of a proposal, in any order and as often as one likes: the next proposal is empty, whatever
      order the dicts are read in. */
  lemma LandingConverges(l: Layer, v: View, no: seq<Uid>, eo: seq<Uid>, ps: seq<Payload>, no': seq<Uid>, eo': seq<Uid>)
    requires Aligned(l, v) && Enumerates(no, v.nodes.Keys) && Enumerates(eo, v.edges.Keys)
    requires LandsAll(ps, Diff(NodeSide(l, v, no), EdgeSide(l, v, eo)), NewOf(NodeSide(l, v, no), EdgeSide(l, v, eo)))
    requires Enumerates(no', AppliedAll(v, ps).nodes.Keys) && Enumerates(eo', AppliedAll(v, ps).edges.Keys)
    ensures Aligned(l, AppliedAll(v, ps))
    ensures Empty(Diff(NodeSide(l, AppliedAll(v, ps), no'), EdgeSide(l, AppliedAll(v, ps), eo')))
  {
    var n, e, py, w := NodeSide(l, v, no), EdgeSide(l, v, eo), AllElements(l, v), AppliedAll(v, ps);
    LayerFacts(l, v, no, eo);
    ChangesKnown(n, e, v, py);
    var edit := Changes(n, e);
    forall i | 0 <= i < |ps| ensures Lands(ps[i], v, py, edit) {
      assert ps[i] in ps;
      EveryRecordLands(n, e, v, py, edit, ps[i]);
    }
    LandingServes(n, e, v, py, edit, ps, n, v.nodes.Keys);
    LandingServes(n, e, v, py, edit, ps, e, v.edges.Keys);
    LandingKinds(v, ps, py, edit);
    StaysAligned(l, v, w);
    ServedIsKnown(ps, n, v, v.nodes.Keys, py, edit);
    ServedIsKnown(ps, e, v, v.edges.Keys, py, edit);
    KeysAfter(l, v, w);
    NodesShown(l, w, no');
    EdgesShown(l, w, eo');
    var n', e' := NodeSide(l, w, no'), EdgeSide(l, w, eo');
    SideConverges(ps, n, n', v, v.nodes.Keys, w.nodes.Keys, py, edit);
    SideConverges(ps, e, e', v, v.edges.Keys, w.edges.Keys, py, edit);
    EmptyIffInSync(n', e');
  }
}
