/** The change records of the versioned map (omai/store.py) and what each does to the materialized view. JSON values
    are a datatype with structural equality; a record's op is the constructor of its payload. */
module MapRecords {
  import opened Wrappers

  type Uid = string
  type Version = string

  // A number is the decimal mantissa * 10^exponent, written without superfluous zero digits.
  datatype Json = Null | Flag(b: bool) | Num(mantissa: int, exponent: int) | Text(s: string) | List(items: seq<Json>)
                | Object(fields: map<string, Json>)

  type Meta = map<string, Json>

  // The parts of an identity dict that the map's own code reads; rest is everything else that is hashed.
  datatype NodeIdentity = NodeIdentity(quantity: Json, rest: Json)
  datatype EdgeIdentity = EdgeIdentity(output: Json, outputs: seq<Uid>, inputs: seq<Uid>, rest: Json)

  datatype Payload =
    | AddNode(uid: Uid, node: NodeIdentity, meta: Meta)
    | AddEdge(uid: Uid, edge: EdgeIdentity, meta: Meta)
    | EditMeta(uid: Uid, meta: Meta)
    | Deprecate(uid: Uid, note: Json)
    | Supersede(oldUids: seq<Uid>, newUids: seq<Uid>)
    | Equate(uids: seq<Uid>)

  datatype Entry<I> = Entry(uid: Uid, identity: I, meta: Meta, deprecated: bool, note: Option<Json>,
                            supersededBy: Option<seq<Uid>>, equivalentTo: Option<seq<Uid>>)

  type Nodes = map<Uid, Entry<NodeIdentity>>
  type Edges = map<Uid, Entry<EdgeIdentity>>
  datatype View = View(nodes: Nodes, edges: Edges)

  const EMPTY_VIEW: View := View(map[], map[])

  /** A store entry with a truthy superseded_by or deprecated field. */
  predicate Retired<I>(e: Entry<I>) {
    e.deprecated || (e.supersededBy.Some? && e.supersededBy.value != [])
  }

  function Fresh<I>(uid: Uid, identity: I, meta: Meta): Entry<I> {
    Entry(uid, identity, meta, false, None, None, None)
  }

  // What the ops on existing entries write.
  datatype Mark = Merge(meta: Meta) | Retire(note: Json) | Replace(newUids: seq<Uid>) | Equal(uids: seq<Uid>)

  function Marked<I>(e: Entry<I>, m: Mark): (r: Entry<I>)
    ensures r.uid == e.uid && r.identity == e.identity
  {
    match m
    case Merge(meta) => e.(meta := e.meta + meta)
    case Retire(note) => e.(deprecated := true, note := Some(note))
    case Replace(newUids) => e.(supersededBy := Some(newUids))
    case Equal(uids) => e.(equivalentTo := Some(uids))
  }

  predicate Known(v: View, uid: Uid) {
    uid in v.nodes || uid in v.edges
  }

  /** A node with the uid is preferred to an edge; an unknown uid touches nothing. */
  function Touch(v: View, uid: Uid, m: Mark): (r: View)
    ensures r.nodes.Keys == v.nodes.Keys && r.edges.Keys == v.edges.Keys
  {
    if uid in v.nodes then v.(nodes := v.nodes[uid := Marked(v.nodes[uid], m)])
    else if uid in v.edges then v.(edges := v.edges[uid := Marked(v.edges[uid], m)])
    else v
  }

  function TouchAll(v: View, uids: seq<Uid>, m: Mark): (r: View)
    ensures r.nodes.Keys == v.nodes.Keys && r.edges.Keys == v.edges.Keys
  {
    if uids == [] then v else Touch(TouchAll(v, uids[..|uids| - 1], m), uids[|uids| - 1], m)
  }

  /** The uids a payload refers to without adding them, in order. */
  function Mentions(p: Payload): seq<Uid> {
    match p
    case AddNode(_, _, _) => []
    case AddEdge(_, _, _) => []
    case EditMeta(uid, _) => [uid]
    case Deprecate(uid, _) => [uid]
    case Supersede(oldUids, _) => oldUids
    case Equate(uids) => uids
  }

  function MarkOf(p: Payload): Mark
    requires !p.AddNode? && !p.AddEdge?
  {
    match p
    case EditMeta(_, meta) => Merge(meta)
    case Deprecate(_, note) => Retire(note)
    case Supersede(_, newUids) => Replace(newUids)
    case Equate(uids) => Equal(uids)
  }

  function Applied(v: View, p: Payload): View {
    match p
    case AddNode(uid, node, meta) => v.(nodes := v.nodes[uid := Fresh(uid, node, meta)])
    case AddEdge(uid, edge, meta) => v.(edges := v.edges[uid := Fresh(uid, edge, meta)])
    case _ => TouchAll(v, Mentions(p), MarkOf(p))
  }

  function AppliedAll(v: View, ps: seq<Payload>): View {
    if ps == [] then v else Applied(AppliedAll(v, ps[..|ps| - 1]), ps[|ps| - 1])
  }

  lemma {:induction false} AppliedConcat(v: View, a: seq<Payload>, b: seq<Payload>)
    ensures AppliedAll(v, a + b) == AppliedAll(AppliedAll(v, a), b)
  {
    if b == [] {
      assert a + b == a;
    } else {
      AppliedConcat(v, a, b[..|b| - 1]);
      assert (a + b)[..|a + b| - 1] == a + b[..|b| - 1];
    }
  }

  // ---------------------------------------------------------------- identities of the view

  function NodeIds(v: View): map<Uid, NodeIdentity> { map u | u in v.nodes :: v.nodes[u].identity }

  function EdgeIds(v: View): map<Uid, EdgeIdentity> { map u | u in v.edges :: v.edges[u].identity }

  lemma TouchKeepsId(v: View, uid: Uid, m: Mark)
    ensures NodeIds(Touch(v, uid, m)) == NodeIds(v)
    ensures EdgeIds(Touch(v, uid, m)) == EdgeIds(v)
  {
    var r := Touch(v, uid, m);
    assert forall u :: u in v.nodes ==> r.nodes[u].identity == v.nodes[u].identity;
    assert forall u :: u in v.edges ==> r.edges[u].identity == v.edges[u].identity;
  }

  lemma {:induction false} TouchKeepsIds(v: View, uids: seq<Uid>, m: Mark)
    ensures NodeIds(TouchAll(v, uids, m)) == NodeIds(v) && EdgeIds(TouchAll(v, uids, m)) == EdgeIds(v)
  {
    if uids != [] {
      TouchKeepsIds(v, uids[..|uids| - 1], m);
      TouchKeepsId(TouchAll(v, uids[..|uids| - 1], m), uids[|uids| - 1], m);
    }
  }

  /** Only adds change which identities the view holds. */
  lemma AppliedIds(v: View, p: Payload)
    ensures NodeIds(Applied(v, p)) == if p.AddNode? then NodeIds(v)[p.uid := p.node] else NodeIds(v)
    ensures EdgeIds(Applied(v, p)) == if p.AddEdge? then EdgeIds(v)[p.uid := p.edge] else EdgeIds(v)
  {
    if !p.AddNode? && !p.AddEdge? {
      TouchKeepsIds(v, Mentions(p), MarkOf(p));
    }
  }

  function Endpoints(e: EdgeIdentity): seq<Uid> { e.inputs + e.outputs }

  /** One of the inputs or one of the outputs. */
  ghost predicate IsEnd(e: EdgeIdentity, u: Uid) { u in e.inputs || u in e.outputs }

  lemma EndpointsAre(e: EdgeIdentity, u: Uid)
    ensures u in Endpoints(e) <==> IsEnd(e, u)
  {
  }

  /** Every input and every output of every edge is a node of the view. */
  ghost predicate EdgeClosed(v: View) {
    forall u, x :: u in v.edges && IsEnd(v.edges[u].identity, x) ==> x in v.nodes
  }

  // ---------------------------------------------------------------- what a record does to one entry

  /** The record refers to the uid without adding it. */
  ghost predicate Names(p: Payload, u: Uid) {
    match p
    case AddNode(_, _, _) => false
    case AddEdge(_, _, _) => false
    case EditMeta(uid, _) => u == uid
    case Deprecate(uid, _) => u == uid
    case Supersede(oldUids, _) => exists i :: 0 <= i < |oldUids| && oldUids[i] == u
    case Equate(uids) => exists i :: 0 <= i < |uids| && uids[i] == u
  }

  lemma MentionsAre(p: Payload, u: Uid)
    ensures u in Mentions(p) <==> Names(p, u)
  {
  }

  /** An entry after a record that names it. */
  ghost function Changed<I>(e: Entry<I>, p: Payload): Entry<I> {
    match p
    case EditMeta(_, meta) =>
      e.(meta := map k | k in e.meta.Keys + meta.Keys :: if k in meta then meta[k] else e.meta[k])
    case Deprecate(_, note) => e.(deprecated := true, note := Some(note))
    case Supersede(_, newUids) => e.(supersededBy := Some(newUids))
    case Equate(uids) => e.(equivalentTo := Some(uids))
    case _ => e
  }

  lemma MarkedTwice<I>(e: Entry<I>, m: Mark)
    ensures Marked(Marked(e, m), m) == Marked(e, m)
  {
    if m.Merge? { assert e.meta + m.meta + m.meta == e.meta + m.meta; }
  }

  lemma {:induction false} TouchedNode(v: View, uids: seq<Uid>, m: Mark, u: Uid)
    requires u in v.nodes
    ensures TouchAll(v, uids, m).nodes[u] == if u in uids then Marked(v.nodes[u], m) else v.nodes[u]
  {
    if uids != [] {
      TouchedNode(v, uids[..|uids| - 1], m, u);
      MarkedTwice(v.nodes[u], m);
      assert uids == uids[..|uids| - 1] + [uids[|uids| - 1]];
    }
  }

  lemma {:induction false} TouchedEdge(v: View, uids: seq<Uid>, m: Mark, u: Uid)
    requires u in v.edges
    ensures TouchAll(v, uids, m).edges[u] ==
            if u in uids && u !in v.nodes then Marked(v.edges[u], m) else v.edges[u]
  {
    if uids != [] {
      TouchedEdge(v, uids[..|uids| - 1], m, u);
      MarkedTwice(v.edges[u], m);
      assert uids == uids[..|uids| - 1] + [uids[|uids| - 1]];
    }
  }

  lemma MarkIsChange<I>(e: Entry<I>, p: Payload)
    requires !p.AddNode? && !p.AddEdge?
    ensures Marked(e, MarkOf(p)) == Changed(e, p)
  {
    if p.EditMeta? { assert Marked(e, MarkOf(p)).meta == Changed(e, p).meta; }
  }

  /** A node after one record: a fresh entry if the record adds it, changed if it names it, and else as it was. */
  lemma NodeAfter(v: View, p: Payload, u: Uid)
    ensures u in Applied(v, p).nodes <==> u in v.nodes || (p.AddNode? && p.uid == u)
    ensures p.AddNode? && p.uid == u ==>
              Applied(v, p).nodes[u] == Entry(u, p.node, p.meta, false, None, None, None)
    ensures u in v.nodes && !(p.AddNode? && p.uid == u) ==>
              Applied(v, p).nodes[u] == if Names(p, u) then Changed(v.nodes[u], p) else v.nodes[u]
  {
    if !p.AddNode? && !p.AddEdge? && u in v.nodes {
      TouchedNode(v, Mentions(p), MarkOf(p), u);
      MentionsAre(p, u);
      MarkIsChange(v.nodes[u], p);
    }
  }

  /** The same of an edge, except that a uid that is also a node's names the node. */
  lemma EdgeAfter(v: View, p: Payload, u: Uid)
    ensures u in Applied(v, p).edges <==> u in v.edges || (p.AddEdge? && p.uid == u)
    ensures p.AddEdge? && p.uid == u ==>
              Applied(v, p).edges[u] == Entry(u, p.edge, p.meta, false, None, None, None)
    ensures u in v.edges && !(p.AddEdge? && p.uid == u) ==>
              Applied(v, p).edges[u] == if Names(p, u) && u !in v.nodes then Changed(v.edges[u], p) else v.edges[u]
  {
    if !p.AddNode? && !p.AddEdge? && u in v.edges {
      TouchedEdge(v, Mentions(p), MarkOf(p), u);
      MentionsAre(p, u);
      MarkIsChange(v.edges[u], p);
    }
  }

  // ---------------------------------------------------------------- the replay

  datatype Unknown = Unknown(seqNo: int, uid: Uid)

  /** The uids among those mentioned that the view does not know, as problems of one record. */
  function UnknownIn(v: View, seqNo: int, uids: seq<Uid>): seq<Unknown> {
    if uids == [] then []
    else UnknownIn(v, seqNo, uids[..|uids| - 1]) +
         (if Known(v, uids[|uids| - 1]) then [] else [Unknown(seqNo, uids[|uids| - 1])])
  }

  /** The accumulator of a replay. */
  class Replayer {
    var nodes: Nodes
    var edges: Edges
    var problems: seq<Unknown>

    constructor ()
      ensures AsView() == EMPTY_VIEW && problems == []
    {
      nodes, edges, problems := map[], map[], [];
    }

    function AsView(): View
      reads this
    {
      View(nodes, edges)
    }

    /** Marks one entry, or notes that it does not exist. */
    method Mark(seqNo: int, uid: Uid, m: Mark)
      modifies this
      ensures AsView() == Touch(old(AsView()), uid, m)
      ensures problems == old(problems) + (if Known(old(AsView()), uid) then [] else [Unknown(seqNo, uid)])
    {
      if uid in nodes {
        nodes := nodes[uid := Marked(nodes[uid], m)];
      } else if uid in edges {
        edges := edges[uid := Marked(edges[uid], m)];
      } else {
        problems := problems + [Unknown(seqNo, uid)];
      }
    }

    /** _apply: one record, in place. */
    method Apply(seqNo: int, p: Payload)
      modifies this
      ensures AsView() == Applied(old(AsView()), p)
      ensures problems == old(problems) + UnknownIn(old(AsView()), seqNo, Mentions(p))
    {
      match p
      case AddNode(uid, node, meta) =>
        nodes := nodes[uid := Fresh(uid, node, meta)];
      case AddEdge(uid, edge, meta) =>
        edges := edges[uid := Fresh(uid, edge, meta)];
      case _ =>
        MarkAll(seqNo, Mentions(p), MarkOf(p));
    }

    method MarkAll(seqNo: int, uids: seq<Uid>, m: Mark)
      modifies this
      ensures AsView() == TouchAll(old(AsView()), uids, m)
      ensures problems == old(problems) + UnknownIn(old(AsView()), seqNo, uids)
    {
      for k := 0 to |uids|
        invariant AsView() == TouchAll(old(AsView()), uids[..k], m)
        invariant problems == old(problems) + UnknownIn(old(AsView()), seqNo, uids[..k])
      {
        MarkStep(old(AsView()), seqNo, uids, k, m);
        Mark(seqNo, uids[k], m);
      }
      assert uids[..|uids|] == uids;
    }
  }

  lemma MarkStep(v: View, seqNo: int, uids: seq<Uid>, k: nat, m: Mark)
    requires k < |uids|
    ensures TouchAll(v, uids[..k + 1], m) == Touch(TouchAll(v, uids[..k], m), uids[k], m)
    ensures UnknownIn(v, seqNo, uids[..k + 1]) ==
            UnknownIn(v, seqNo, uids[..k]) + (if Known(v, uids[k]) then [] else [Unknown(seqNo, uids[k])])
  {
    assert uids[..k + 1][..k] == uids[..k];
  }
}
