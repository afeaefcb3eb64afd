/** What it means that the operator layer and the map are in sync, in terms of their own entries (omai/sync.py): exactly
    then nothing is proposed, and so it is once every record of a proposal has been pushed. */
module InSync {
  import opened MapRecords
  import opened MapStore
  import opened Proposals
  import opened Sync
  import opened SyncConverges
  import opened Landing

  ghost predicate Withdrawn<I>(e: Entry<I>) {
    e.deprecated || (e.supersededBy.Some? && e.supersededBy.value != [])
  }

  /** Every node of the layer is stored under its uid with the same compared metadata; every other stored node is
      deprecated or superseded. */
  ghost predicate NodesInSync(ps: seq<Payload>, nodes: Nodes)
    requires forall i :: 0 <= i < |ps| ==> ps[i].AddNode?
  {
    && (forall i :: 0 <= i < |ps| ==>
          ps[i].uid in nodes &&
          MetaAgrees(ps[i].meta, nodes[ps[i].uid].meta, {"name", "symbol", "description", "tier", "names"}))
    && (forall u :: u in nodes ==> Uids(ps, u) || Withdrawn(nodes[u]))
  }

  ghost predicate EdgesInSync(ps: seq<Payload>, edges: Edges)
    requires forall i :: 0 <= i < |ps| ==> ps[i].AddEdge?
  {
    && (forall i :: 0 <= i < |ps| ==>
          ps[i].uid in edges &&
          MetaAgrees(ps[i].meta, edges[ps[i].uid].meta,
                     {"name", "description", "formula_srepr", "formula_latex", "schemes"}))
    && (forall u :: u in edges ==> Uids(ps, u) || Withdrawn(edges[u]))
  }

  ghost predicate LayerInSync(l: Layer, v: View)
    requires Aligned(l, v)
  {
    NodesInSync(l.nodes, v.nodes) && EdgesInSync(l.edges, v.edges)
  }

  lemma ElementListed(ps: seq<Payload>, u: Uid)
    requires forall i :: 0 <= i < |ps| ==> ps[i].AddNode? || ps[i].AddEdge?
    ensures Uids(ps, u) <==> exists p :: p in Elements(ps) && p.uid == u
  {
    if Uids(ps, u) {
      var i :| 0 <= i < |ps| && ps[i].uid == u;
      assert Elements(ps)[i] in Elements(ps);
    }
  }

  lemma NodeLookup(l: Layer, v: View, order: seq<Uid>, u: Uid)
    requires Aligned(l, v) && Enumerates(order, v.nodes.Keys)
    ensures var s := Lookup(NodeSide(l, v, order).store, u);
            && (s.Some? <==> u in v.nodes)
            && (s.Some? ==> s.value in NodeSide(l, v, order).store && s.value.uid == u &&
                            s.value.meta == v.nodes[u].meta && (s.value.retired <==> Withdrawn(v.nodes[u])))
  {
    NodesShown(l, v, order);
    LookupFinds(NodeSide(l, v, order).store, u);
  }

  lemma NodesFromSide(l: Layer, v: View, order: seq<Uid>)
    requires Aligned(l, v) && Enumerates(order, v.nodes.Keys)
    requires SideInSync(NodeSide(l, v, order))
    ensures NodesInSync(l.nodes, v.nodes)
  {
    var side := NodeSide(l, v, order);
    forall i | 0 <= i < |l.nodes|
      ensures l.nodes[i].uid in v.nodes
      ensures MetaAgrees(l.nodes[i].meta, v.nodes[l.nodes[i].uid].meta, side.keys)
    {
      NodeLookup(l, v, order, l.nodes[i].uid);
      assert side.py[i] in side.py;
    }
    forall u | u in v.nodes ensures Uids(l.nodes, u) || Withdrawn(v.nodes[u]) {
      NodeLookup(l, v, order, u);
      ElementListed(l.nodes, u);
    }
  }

  lemma NodeStored(l: Layer, v: View, order: seq<Uid>, p: Element)
    requires Aligned(l, v) && Enumerates(order, v.nodes.Keys) && NodesInSync(l.nodes, v.nodes)
    requires p in NodeSide(l, v, order).py
    ensures var side := NodeSide(l, v, order);
            Lookup(side.store, p.uid).Some? && MetaAgrees(p.meta, Lookup(side.store, p.uid).value.meta, side.keys)
  {
    var side := NodeSide(l, v, order);
    var i :| 0 <= i < |side.py| && side.py[i] == p;
    assert l.nodes[i].uid == p.uid;
    NodeLookup(l, v, order, p.uid);
  }

  lemma NodeAccounted(l: Layer, v: View, order: seq<Uid>, t: Stored)
    requires Aligned(l, v) && Enumerates(order, v.nodes.Keys) && NodesInSync(l.nodes, v.nodes)
    requires t in NodeSide(l, v, order).store
    ensures (exists p :: p in NodeSide(l, v, order).py && p.uid == t.uid) || t.retired
  {
    NodesShown(l, v, order);
    ElementListed(l.nodes, t.uid);
  }

  lemma SideFromNodes(l: Layer, v: View, order: seq<Uid>)
    requires Aligned(l, v) && Enumerates(order, v.nodes.Keys) && NodesInSync(l.nodes, v.nodes)
    ensures SideInSync(NodeSide(l, v, order))
  {
    var side := NodeSide(l, v, order);
    forall p | p in side.py
      ensures Lookup(side.store, p.uid).Some? && MetaAgrees(p.meta, Lookup(side.store, p.uid).value.meta, side.keys)
    {
      NodeStored(l, v, order, p);
    }
    forall t | t in side.store ensures (exists p :: p in side.py && p.uid == t.uid) || t.retired {
      NodeAccounted(l, v, order, t);
    }
  }

  lemma EdgeLookup(l: Layer, v: View, order: seq<Uid>, u: Uid)
    requires Aligned(l, v) && Enumerates(order, v.edges.Keys)
    ensures var s := Lookup(EdgeSide(l, v, order).store, u);
            && (s.Some? <==> u in v.edges)
            && (s.Some? ==> s.value in EdgeSide(l, v, order).store && s.value.uid == u &&
                            s.value.meta == v.edges[u].meta && (s.value.retired <==> Withdrawn(v.edges[u])))
  {
    EdgesShown(l, v, order);
    LookupFinds(EdgeSide(l, v, order).store, u);
    assert u in v.edges ==> u !in v.nodes;
  }

  lemma EdgesFromSide(l: Layer, v: View, order: seq<Uid>)
    requires Aligned(l, v) && Enumerates(order, v.edges.Keys)
    requires SideInSync(EdgeSide(l, v, order))
    ensures EdgesInSync(l.edges, v.edges)
  {
    var side := EdgeSide(l, v, order);
    forall i | 0 <= i < |l.edges|
      ensures l.edges[i].uid in v.edges
      ensures MetaAgrees(l.edges[i].meta, v.edges[l.edges[i].uid].meta, side.keys)
    {
      EdgeLookup(l, v, order, l.edges[i].uid);
      assert side.py[i] in side.py;
    }
    forall u | u in v.edges ensures Uids(l.edges, u) || Withdrawn(v.edges[u]) {
      EdgeLookup(l, v, order, u);
      ElementListed(l.edges, u);
    }
  }

  lemma EdgeStored(l: Layer, v: View, order: seq<Uid>, p: Element)
    requires Aligned(l, v) && Enumerates(order, v.edges.Keys) && EdgesInSync(l.edges, v.edges)
    requires p in EdgeSide(l, v, order).py
    ensures var side := EdgeSide(l, v, order);
            Lookup(side.store, p.uid).Some? && MetaAgrees(p.meta, Lookup(side.store, p.uid).value.meta, side.keys)
  {
    var side := EdgeSide(l, v, order);
    var i :| 0 <= i < |side.py| && side.py[i] == p;
    assert l.edges[i].uid == p.uid;
    EdgeLookup(l, v, order, p.uid);
  }

  lemma EdgeAccounted(l: Layer, v: View, order: seq<Uid>, t: Stored)
    requires Aligned(l, v) && Enumerates(order, v.edges.Keys) && EdgesInSync(l.edges, v.edges)
    requires t in EdgeSide(l, v, order).store
    ensures (exists p :: p in EdgeSide(l, v, order).py && p.uid == t.uid) || t.retired
  {
    EdgesShown(l, v, order);
    ElementListed(l.edges, t.uid);
  }

  lemma SideFromEdges(l: Layer, v: View, order: seq<Uid>)
    requires Aligned(l, v) && Enumerates(order, v.edges.Keys) && EdgesInSync(l.edges, v.edges)
    ensures SideInSync(EdgeSide(l, v, order))
  {
    var side := EdgeSide(l, v, order);
    forall p | p in side.py
      ensures Lookup(side.store, p.uid).Some? && MetaAgrees(p.meta, Lookup(side.store, p.uid).value.meta, side.keys)
    {
      EdgeStored(l, v, order, p);
    }
    forall t | t in side.store ensures (exists p :: p in side.py && p.uid == t.uid) || t.retired {
      EdgeAccounted(l, v, order, t);
    }
  }

  /** Nothing is proposed exactly when the layer and the map are in sync. */
  lemma NothingProposedIff(l: Layer, v: View, no: seq<Uid>, eo: seq<Uid>)
    requires Aligned(l, v) && Enumerates(no, v.nodes.Keys) && Enumerates(eo, v.edges.Keys)
    ensures Empty(Diff(NodeSide(l, v, no), EdgeSide(l, v, eo))) <==> LayerInSync(l, v)
  {
    EmptyIffInSync(NodeSide(l, v, no), EdgeSide(l, v, eo));
    if LayerInSync(l, v) {
      SideFromNodes(l, v, no);
      SideFromEdges(l, v, eo);
    }
    if SideInSync(NodeSide(l, v, no)) && SideInSync(EdgeSide(l, v, eo)) {
      NodesFromSide(l, v, no);
      EdgesFromSide(l, v, eo);
    }
  }

  /** The anchor of a stored node is its quantity, that of a stored edge its primary output. */
  ghost predicate StoredAnchor(v: View, u: Uid, a: Anchor) {
    match a
    case NodeAnchor(quantity) => u in v.nodes && v.nodes[u].identity.quantity == quantity
    case EdgeAnchor(output) => u in v.edges && v.edges[u].identity.output == output
  }

  ghost predicate LayerAnchor(l: Layer, u: Uid, a: Anchor) {
    match a
    case NodeAnchor(quantity) =>
      exists i :: 0 <= i < |l.nodes| && l.nodes[i].AddNode? && l.nodes[i].uid == u &&
                  l.nodes[i].node.quantity == quantity
    case EdgeAnchor(output) =>
      exists i :: 0 <= i < |l.edges| && l.edges[i].AddEdge? && l.edges[i].uid == u && l.edges[i].edge.output == output
  }

  /** A re-mint pairs a stored node with a node of the layer of the same quantity, or a stored edge with an edge of the
      same primary output. */
  lemma RemintPairsIdentities(l: Layer, v: View, no: seq<Uid>, eo: seq<Uid>, r: Remint)
    requires Aligned(l, v) && Enumerates(no, v.nodes.Keys) && Enumerates(eo, v.edges.Keys)
    requires r in Diff(NodeSide(l, v, no), EdgeSide(l, v, eo)).remint
    ensures exists a :: StoredAnchor(v, r.oldUid, a) && LayerAnchor(l, r.newUid, a)
  {
    var n, e := NodeSide(l, v, no), EdgeSide(l, v, eo);
    RemintsShareAnchor(StaleOf(n, e), NewOf(n, e));
    var s, p :| s in StaleOf(n, e) && p in NewOf(n, e) && s.uid == r.oldUid && p.uid == r.newUid &&
                s.anchor == p.anchor;
    StaleAnchor(l, v, no, eo, s);
    NewAnchor(l, v, no, eo, p);
    assert StoredAnchor(v, r.oldUid, s.anchor);
  }

  lemma StaleAnchor(l: Layer, v: View, no: seq<Uid>, eo: seq<Uid>, s: Stored)
    requires Aligned(l, v) && Enumerates(no, v.nodes.Keys) && Enumerates(eo, v.edges.Keys)
    requires s in StaleOf(NodeSide(l, v, no), EdgeSide(l, v, eo))
    ensures StoredAnchor(v, s.uid, s.anchor)
  {
    var n, e := NodeSide(l, v, no), EdgeSide(l, v, eo);
    StaleMembers(n.store, n.py);
    StaleMembers(e.store, e.py);
    if s in n.store {
      var i :| 0 <= i < |n.store| && n.store[i] == s;
      assert no[i] in no;
    } else {
      var i :| 0 <= i < |e.store| && e.store[i] == s;
      assert eo[i] in eo;
    }
  }

  lemma NewAnchor(l: Layer, v: View, no: seq<Uid>, eo: seq<Uid>, p: Element)
    requires Aligned(l, v) && Enumerates(no, v.nodes.Keys) && Enumerates(eo, v.edges.Keys)
    requires p in NewOf(NodeSide(l, v, no), EdgeSide(l, v, eo))
    ensures LayerAnchor(l, p.uid, p.anchor)
  {
    var n, e := NodeSide(l, v, no), EdgeSide(l, v, eo);
    NewMembers(n.py, n.store);
    NewMembers(e.py, e.store);
    if p in n.py {
      var i :| 0 <= i < |n.py| && n.py[i] == p;
      assert l.nodes[i].uid == p.uid;
    } else {
      var i :| 0 <= i < |e.py| && e.py[i] == p;
      assert l.edges[i].uid == p.uid;
    }
  }

  /** The same through the store: once every record of the proposal has been pushed, in any order, the store and the
      layer are in sync. */
  lemma PushedLandingInSync(l: Layer, before: seq<Record>, log: seq<Record>, no: seq<Uid>, eo: seq<Uid>,
                            ps: seq<Payload>, no': seq<Uid>, eo': seq<Uid>)
    requires var v := ReplayOf(before);
             && Aligned(l, v) && Enumerates(no, v.nodes.Keys) && Enumerates(eo, v.edges.Keys)
             && LandsAll(ps, Diff(NodeSide(l, v, no), EdgeSide(l, v, eo)),
                         NewOf(NodeSide(l, v, no), EdgeSide(l, v, eo)))
    requires Appends(before, log, ps)
    requires Enumerates(no', ReplayOf(log).nodes.Keys) && Enumerates(eo', ReplayOf(log).edges.Keys)
    ensures Aligned(l, ReplayOf(log))
    ensures LayerInSync(l, ReplayOf(log))
  {
    ReplayOfAppended(before, log, ps);
    LandingConverges(l, ReplayOf(before), no, eo, ps, no', eo');
    NothingProposedIff(l, ReplayOf(log), no', eo');
  }
}
