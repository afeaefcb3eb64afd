/** Landing records in any order, seen from one uid and then from one kind of element: what the store holds
    afterwards. */
module SyncConverges {
  import opened Wrappers
  import opened MapRecords
  import opened Sync

  // The live Python operator layer: the add records of its nodes and of its edges.
  datatype Layer = Layer(nodes: seq<Payload>, edges: seq<Payload>)

  function IdentityAnchor(p: Payload): Anchor
    requires p.AddNode? || p.AddEdge?
  {
    if p.AddNode? then NodeAnchor(p.node.quantity) else EdgeAnchor(p.edge.output)
  }

  function Elements(ps: seq<Payload>): (r: seq<Element>)
    requires forall i :: 0 <= i < |ps| ==> ps[i].AddNode? || ps[i].AddEdge?
    ensures |r| == |ps|
    ensures forall i :: 0 <= i < |ps| ==> r[i] == Element(ps[i].uid, IdentityAnchor(ps[i]), ps[i].meta, ps[i])
  {
    seq(|ps|, (i: nat) requires i < |ps| => Element(ps[i].uid, IdentityAnchor(ps[i]), ps[i].meta, ps[i]))
  }

  ghost predicate Enumerates(order: seq<Uid>, keys: set<Uid>) {
    && (forall u :: u in order <==> u in keys)
    && (forall i, j :: 0 <= i < j < |order| ==> order[i] != order[j])
  }

  function StoredNodes(nodes: Nodes, order: seq<Uid>): (r: seq<Stored>)
    requires forall i :: 0 <= i < |order| ==> order[i] in nodes
    ensures |r| == |order|
    ensures forall i :: 0 <= i < |order| ==>
              r[i] == Stored(order[i], NodeAnchor(nodes[order[i]].identity.quantity), nodes[order[i]].meta,
                             Retired(nodes[order[i]]))
  {
    seq(|order|, (i: nat) requires i < |order| =>
                   Stored(order[i], NodeAnchor(nodes[order[i]].identity.quantity), nodes[order[i]].meta,
                          Retired(nodes[order[i]])))
  }

  function StoredEdges(edges: Edges, order: seq<Uid>): (r: seq<Stored>)
    requires forall i :: 0 <= i < |order| ==> order[i] in edges
    ensures |r| == |order|
    ensures forall i :: 0 <= i < |order| ==>
              r[i] == Stored(order[i], EdgeAnchor(edges[order[i]].identity.output), edges[order[i]].meta,
                             Retired(edges[order[i]]))
  {
    seq(|order|, (i: nat) requires i < |order| =>
                   Stored(order[i], EdgeAnchor(edges[order[i]].identity.output), edges[order[i]].meta,
                          Retired(edges[order[i]])))
  }

  lemma {:induction false} LookupFinds(store: seq<Stored>, u: Uid)
    ensures Lookup(store, u).None? <==> forall s :: s in store ==> s.uid != u
    ensures Lookup(store, u).Some? ==> Lookup(store, u).value in store && Lookup(store, u).value.uid == u
  {
    if store != [] {
      LookupFinds(store[..|store| - 1], u);
      assert store == store[..|store| - 1] + [store[|store| - 1]];
    }
  }

  // ---------------------------------------------------------------- one uid at a time

  function MetaAt(v: View, u: Uid): Option<Meta> {
    if u in v.nodes then Some(v.nodes[u].meta) else if u in v.edges then Some(v.edges[u].meta) else None
  }

  predicate RetiredAt(v: View, u: Uid) {
    if u in v.nodes then Retired(v.nodes[u]) else u in v.edges && Retired(v.edges[u])
  }

  /** Two views agree about a uid as far as the diff can see. */
  ghost predicate SameAt(v: View, w: View, u: Uid) {
    && (u in v.nodes <==> u in w.nodes) && (u in v.edges <==> u in w.edges)
    && MetaAt(v, u) == MetaAt(w, u) && (RetiredAt(v, u) <==> RetiredAt(w, u))
  }

  // Records that land a proposal concern one uid each.
  ghost predicate Simple(p: Payload) {
    !p.Equate? && (p.Supersede? ==> |p.oldUids| == 1 && p.newUids != [])
  }

  function Concerns(p: Payload): Uid
    requires p.Supersede? ==> |p.oldUids| == 1
    requires !p.Equate?
  {
    if p.Supersede? then p.oldUids[0] else p.uid
  }

  lemma SingleTouch(v: View, u: Uid, m: Mark)
    ensures TouchAll(v, [u], m) == Touch(v, u, m)
  {
    assert [u][..0] == [];
  }

  lemma OthersUntouched(v: View, p: Payload, u: Uid)
    requires Simple(p) && Concerns(p) != u
    ensures SameAt(v, Applied(v, p), u)
  {
    if !p.AddNode? && !p.AddEdge? {
      assert Mentions(p) == [Concerns(p)];
      SingleTouch(v, Concerns(p), MarkOf(p));
    }
  }

  lemma EditEffect(v: View, p: Payload)
    requires p.EditMeta? && Known(v, p.uid)
    ensures MetaAt(Applied(v, p), p.uid) == Some(MetaAt(v, p.uid).value + p.meta)
    ensures RetiredAt(Applied(v, p), p.uid) <==> RetiredAt(v, p.uid)
  {
    SingleTouch(v, p.uid, Merge(p.meta));
  }

  lemma RetireEffect(v: View, p: Payload)
    requires Simple(p) && (p.Deprecate? || p.Supersede?) && Known(v, Concerns(p))
    ensures RetiredAt(Applied(v, p), Concerns(p))
    ensures MetaAt(Applied(v, p), Concerns(p)) == MetaAt(v, Concerns(p))
  {
    assert Mentions(p) == [Concerns(p)];
    SingleTouch(v, Concerns(p), MarkOf(p));
  }

  // ---------------------------------------------------------------- a landing, seen from one uid

  /** What each record of a landing may be, against the view v it starts from: an add of a new element, an edit of a
      stored element the layer still produces, or the retirement of one it does not. */
  ghost predicate Lands(p: Payload, v: View, py: seq<Element>, edit: Uid -> Meta) {
    && Simple(p)
    && (p.AddNode? || p.AddEdge? ==> !Known(v, p.uid) && exists q :: q in py && q.record == p)
    && (p.EditMeta? ==> Known(v, p.uid) && Produced(py, p.uid) && p.meta == edit(p.uid))
    && (p.Deprecate? || p.Supersede? ==> Known(v, Concerns(p)) && !Produced(py, Concerns(p)))
  }

  ghost predicate AllLand(ps: seq<Payload>, v: View, py: seq<Element>, edit: Uid -> Meta) {
    forall i :: 0 <= i < |ps| ==> Lands(ps[i], v, py, edit)
  }

  /** Which dict a uid belongs to never changes. */
  ghost predicate KindsKept(v: View, w: View, py: seq<Element>) {
    && v.nodes.Keys <= w.nodes.Keys && v.edges.Keys <= w.edges.Keys
    && (forall u :: u in w.nodes ==> u in v.nodes || exists q :: q in py && q.record.AddNode? && q.uid == u)
    && (forall u :: u in w.edges ==> u in v.edges || exists q :: q in py && q.record.AddEdge? && q.uid == u)
  }

  lemma {:induction false} LandingKinds(v: View, ps: seq<Payload>, py: seq<Element>, edit: Uid -> Meta)
    requires AllLand(ps, v, py, edit) && Genuine(py)
    ensures KindsKept(v, AppliedAll(v, ps), py)
  {
    if ps != [] {
      var init, p := ps[..|ps| - 1], ps[|ps| - 1];
      LandingKinds(v, init, py, edit);
      assert Lands(p, v, py, edit);
      if p.AddNode? || p.AddEdge? {
        var q :| q in py && q.record == p;
        assert q.uid == p.uid;
      }
    }
  }

  function EditedIf(m: Meta, e: Meta, edited: bool): Meta { if edited then m + e else m }

  lemma EditAgain(m: Meta, e: Meta, edited: bool)
    ensures EditedIf(m, e, edited) + e == EditedIf(m, e, true)
  {
  }

  /** A stored element the layer produces ends with its metadata edited, however often the edit occurs. */
  lemma {:induction false} MatchedAfter(v: View, ps: seq<Payload>, py: seq<Element>, edit: Uid -> Meta, u: Uid)
    requires AllLand(ps, v, py, edit) && Known(v, u) && Produced(py, u)
    ensures var w := AppliedAll(v, ps);
            Known(w, u) && MetaAt(w, u) == Some(EditedIf(MetaAt(v, u).value, edit(u), EditMeta(u, edit(u)) in ps))
  {
    if ps != [] {
      var init, p := ps[..|ps| - 1], ps[|ps| - 1];
      MatchedAfter(v, init, py, edit, u);
      assert Lands(p, v, py, edit);
      assert EditMeta(u, edit(u)) in ps <==> EditMeta(u, edit(u)) in init || EditMeta(u, edit(u)) == p by {
        assert ps == init + [p];
      }
      MatchedStep(AppliedAll(v, init), v, p, py, edit, u, EditMeta(u, edit(u)) in init);
    }
  }

  lemma MatchedStep(w: View, v: View, p: Payload, py: seq<Element>, edit: Uid -> Meta, u: Uid, edited: bool)
    requires Lands(p, v, py, edit) && Known(v, u) && Produced(py, u)
    requires Known(w, u) && MetaAt(w, u) == Some(EditedIf(MetaAt(v, u).value, edit(u), edited))
    ensures Known(Applied(w, p), u)
    ensures MetaAt(Applied(w, p), u) ==
            Some(EditedIf(MetaAt(v, u).value, edit(u), edited || p == EditMeta(u, edit(u))))
  {
    if Concerns(p) == u {
      EditEffect(w, p);
      EditAgain(MetaAt(v, u).value, edit(u), edited);
    } else {
      OthersUntouched(w, p, u);
    }
  }

  ghost predicate RetiredBy(ps: seq<Payload>, u: Uid) {
    exists i :: 0 <= i < |ps| && Retires(ps[i], u)
  }

  ghost predicate Retires(p: Payload, u: Uid) {
    Simple(p) && (p.Deprecate? || p.Supersede?) && Concerns(p) == u
  }

  /** A stored element the layer no longer produces stays retired, and is retired once a record says so. */
  lemma {:induction false} StaleAfter(v: View, ps: seq<Payload>, py: seq<Element>, edit: Uid -> Meta, u: Uid)
    requires AllLand(ps, v, py, edit) && Known(v, u) && !Produced(py, u)
    ensures Known(AppliedAll(v, ps), u)
    ensures RetiredAt(v, u) || RetiredBy(ps, u) ==> RetiredAt(AppliedAll(v, ps), u)
  {
    if ps != [] {
      var init, p := ps[..|ps| - 1], ps[|ps| - 1];
      StaleAfter(v, init, py, edit, u);
      assert RetiredBy(ps, u) ==> RetiredBy(init, u) || Retires(p, u) by {
        assert forall i :: 0 <= i < |init| ==> init[i] == ps[i];
      }
      assert Lands(p, v, py, edit);
      StaleStep(AppliedAll(v, init), v, p, py, edit, u);
    }
  }

  lemma StaleStep(w: View, v: View, p: Payload, py: seq<Element>, edit: Uid -> Meta, u: Uid)
    requires Lands(p, v, py, edit) && Known(v, u) && !Produced(py, u) && Known(w, u)
    ensures Known(Applied(w, p), u)
    ensures RetiredAt(w, u) || Retires(p, u) ==> RetiredAt(Applied(w, p), u)
  {
    if Concerns(p) == u {
      RetireEffect(w, p);
    } else {
      OthersUntouched(w, p, u);
    }
  }

  /** A new element is stored with its own metadata once its record has landed. */
  lemma {:induction false} NewAfter(v: View, ps: seq<Payload>, py: seq<Element>, edit: Uid -> Meta, q: Element)
    requires AllLand(ps, v, py, edit) && Genuine(py) && q in py && !Known(v, q.uid) && q.record in ps
    ensures MetaAt(AppliedAll(v, ps), q.uid) == Some(q.meta)
  {
    var init, p := ps[..|ps| - 1], ps[|ps| - 1];
    assert ps == init + [p];
    assert Lands(p, v, py, edit);
    var w := AppliedAll(v, init);
    LandingKinds(v, init, py, edit);
    if Concerns(p) == q.uid {
      assert q.record.AddEdge? ==> q.uid !in w.nodes;
    } else {
      NewAfter(v, init, py, edit, q);
      OthersUntouched(w, p, q.uid);
    }
  }

  // ---------------------------------------------------------------- one kind of element

  /** A stored list shows the given uids of a view as the view has them. */
  ghost predicate Shows(store: seq<Stored>, v: View, keys: set<Uid>) {
    && (forall s :: s in store ==> s.uid in keys)
    && (forall u :: u in keys ==>
          Known(v, u) && Lookup(store, u).Some? && Lookup(store, u).value.meta == MetaAt(v, u).value)
    && (forall s :: s in store ==> (s.retired <==> RetiredAt(v, s.uid)))
  }

  /** What a landing does for the elements of one kind: every new one is added, every changed one edited, every stale
      one retired. had are the uids of this kind before. */
  ghost predicate Serves(ps: seq<Payload>, side: Side, v: View, had: set<Uid>, py: seq<Element>, edit: Uid -> Meta) {
    && (forall p :: p in side.py ==> p in py)
    && (forall u :: u in had ==> Known(v, u) && (Produced(side.py, u) <==> Produced(py, u)))
    && (forall p :: p in side.py && p.uid in had ==>
          edit(p.uid) == MetaDiff(p.meta, MetaAt(v, p.uid).value, side.keys) &&
          (edit(p.uid) != map[] ==> EditMeta(p.uid, edit(p.uid)) in ps))
    && (forall p :: p in side.py && p.uid !in had ==> !Known(v, p.uid) && p.record in ps)
    && (forall u :: u in had && !Produced(py, u) ==> RetiredAt(v, u) || RetiredBy(ps, u))
  }

  lemma DiffCloses(py: Meta, m: Meta, keys: set<string>, edited: bool)
    requires MetaDiff(py, m, keys) != map[] ==> edited
    ensures MetaDiff(py, EditedIf(m, MetaDiff(py, m, keys), edited), keys) == map[]
  {
    var d := MetaDiff(py, m, keys);
    var r := EditedIf(m, d, edited);
    forall k | k in keys ensures Get(py, k) == Get(r, k) {
      if k in d {
        assert Get(r, k) == d[k];
      } else {
        assert Get(py, k) == Get(m, k);
      }
    }
  }

  lemma NoDiffWithItself(m: Meta, keys: set<string>)
    ensures MetaDiff(m, m, keys) == map[]
  {
  }

  lemma ProducedMember(py: seq<Element>, p: Element)
    requires p in py
    ensures Produced(py, p.uid)
  {
  }

  lemma ElementConverges(ps: seq<Payload>, side: Side, v: View, had: set<Uid>, py: seq<Element>, edit: Uid -> Meta,
                         p: Element)
    requires AllLand(ps, v, py, edit) && Genuine(py) && Serves(ps, side, v, had, py, edit) && p in side.py
    ensures MetaAt(AppliedAll(v, ps), p.uid).Some?
    ensures MetaDiff(p.meta, MetaAt(AppliedAll(v, ps), p.uid).value, side.keys) == map[]
  {
    ProducedMember(py, p);
    if p.uid in had {
      MatchedAfter(v, ps, py, edit, p.uid);
      DiffCloses(p.meta, MetaAt(v, p.uid).value, side.keys, EditMeta(p.uid, edit(p.uid)) in ps);
    } else {
      NewAfter(v, ps, py, edit, p);
      NoDiffWithItself(p.meta, side.keys);
    }
  }

  lemma SideConverges(ps: seq<Payload>, side: Side, side': Side, v: View, had: set<Uid>, has: set<Uid>,
                      py: seq<Element>, edit: Uid -> Meta)
    requires AllLand(ps, v, py, edit) && Genuine(py) && Serves(ps, side, v, had, py, edit)
    requires side'.py == side.py && side'.keys == side.keys && Shows(side'.store, AppliedAll(v, ps), has)
    requires forall u :: u in has ==> u in had || Produced(side.py, u)
    requires forall p :: p in side.py ==> p.uid in has
    ensures SideInSync(side')
  {
    var w := AppliedAll(v, ps);
    forall p | p in side'.py
      ensures Lookup(side'.store, p.uid).Some?
      ensures MetaAgrees(p.meta, Lookup(side'.store, p.uid).value.meta, side'.keys)
    {
      ElementConverges(ps, side, v, had, py, edit, p);
      MetaDiffEmpty(p.meta, Lookup(side'.store, p.uid).value.meta, side'.keys);
    }
    forall t | t in side'.store ensures (exists p :: p in side'.py && p.uid == t.uid) || t.retired {
      ProducedIs(side'.py, t.uid);
      if !Produced(side.py, t.uid) {
        StaleAfter(v, ps, py, edit, t.uid);
      }
    }
  }
}
