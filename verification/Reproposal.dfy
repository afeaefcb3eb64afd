/** Proposing a contribution again (Store.propose of omai/store.py): after it landed, and after a crash part-way through
    its pushes. */
module Reproposal {
  import opened MapRecords
  import opened Gates
  import opened Contributions

  /** One of the payloads adds this very element. */
  ghost predicate AddedBy(done: seq<Payload>, p: Payload) {
    exists q :: q in done && SameAdd(q, p)
  }

  /** The records that need no push once the given payloads were pushed onto the view. */
  ghost function Settled(records: seq<Payload>, v: View, rules: Rules, done: seq<Payload>): set<int> {
    set i | 0 <= i < |records| && (IsNoOp(records[i], v, rules) || AddedBy(done, records[i]))
  }

  /** What remains to be added is one connected piece with at least one end. */
  ghost predicate RestConnected(records: seq<Payload>, settled: set<int>) {
    HasAdd(records, settled) ==>
      var links := NewLinks(records, settled);
      EndsOf(links) != {} && Connected(AddedNodes(records, settled) + EndsOf(links), links)
  }

  lemma {:induction false} KeptMembers(records: seq<Payload>, noOps: set<int>, k: nat, q: Payload)
    requires k <= |records|
    ensures q in KeptOf(records, noOps, k) <==> exists i :: 0 <= i < k && i !in noOps && records[i] == q
  {
    if k > 0 { KeptMembers(records, noOps, k - 1, q); }
  }

  // ---------------------------------------------------------------- the gates, once m records were handled

  /** After the first m records the identity gate sees every element they add, with the identity they give it. */
  lemma KnownNode(records: seq<Payload>, v: View, rules: Rules, m: nat, p: Payload)
    requires m <= |records| && IdentitiesFine(records, v, rules) && OneIdentityPerUid(records)
    requires p in records && p.AddNode?
    ensures var ids, done := NodeIdsAt(records, v, rules, m), KeptOf(records, NoOps(records, v, rules), m);
            && (p.uid in ids <==> IsNoOp(p, v, rules) || AddedBy(done, p))
            && (p.uid in ids ==> ids[p.uid] == p.node)
  {
    var ids, noOps := NodeIdsAt(records, v, rules, m), NoOps(records, v, rules);
    var done := KeptOf(records, noOps, m);
    assert UidFits(p, rules) && !Collides(p, v);
    NodesAfter(records, v, rules, m);
    if p.uid in v.nodes {
      NodeKept(records, v, rules, m, p.uid);
    } else if p.uid in ids {
      var j :| 0 <= j < m && records[j].AddNode? && records[j].uid == p.uid && !IsNoOp(records[j], v, rules);
      KeptMembers(records, noOps, m, records[j]);
      assert SameAdd(records[j], p);
      NodeAdded(records, v, rules, m, j);
    }
    if AddedBy(done, p) {
      var q :| q in done && SameAdd(q, p);
      KeptMembers(records, noOps, m, q);
      var j :| 0 <= j < m && j !in noOps && records[j] == q;
      NodeAdded(records, v, rules, m, j);
    }
  }

  lemma KnownEdge(records: seq<Payload>, v: View, rules: Rules, m: nat, p: Payload)
    requires m <= |records| && IdentitiesFine(records, v, rules) && OneIdentityPerUid(records)
    requires p in records && p.AddEdge?
    ensures var ids, done := EdgeIdsAt(records, v, rules, m), KeptOf(records, NoOps(records, v, rules), m);
            && (p.uid in ids <==> IsNoOp(p, v, rules) || AddedBy(done, p))
            && (p.uid in ids ==> ids[p.uid] == p.edge)
  {
    var ids, noOps := EdgeIdsAt(records, v, rules, m), NoOps(records, v, rules);
    var done := KeptOf(records, noOps, m);
    assert UidFits(p, rules) && !Collides(p, v);
    if p.uid in v.edges {
      EdgeKept(records, v, rules, m, p.uid);
    } else if p.uid in ids {
      EdgeOrigin(records, v, rules, m, p.uid);
      var j :| 0 <= j < m && records[j].AddEdge? && records[j].uid == p.uid && !IsNoOp(records[j], v, rules);
      KeptMembers(records, noOps, m, records[j]);
      assert SameAdd(records[j], p);
      EdgeAdded(records, v, rules, m, j);
    }
    if AddedBy(done, p) {
      var q :| q in done && SameAdd(q, p);
      KeptMembers(records, noOps, m, q);
      var j :| 0 <= j < m && j !in noOps && records[j] == q;
      EdgeAdded(records, v, rules, m, j);
    }
  }

  lemma RecordAfter(records: seq<Payload>, v: View, rules: Rules, m: nat, i: nat)
    requires m <= |records| && IdentitiesFine(records, v, rules) && OneIdentityPerUid(records) && i < |records|
    ensures var w := After(records, v, rules, m);
            && UidFits(records[i], rules) && !Collides(records[i], w)
            && (IsNoOp(records[i], w, rules) <==>
                IsNoOp(records[i], v, rules) || AddedBy(KeptOf(records, NoOps(records, v, rules), m), records[i]))
  {
    var w, p := After(records, v, rules, m), records[i];
    IdsAfter(records, v, rules, m);
    assert UidFits(p, rules);
    if p.AddNode? {
      KnownNode(records, v, rules, m, p);
      assert p.uid in w.nodes <==> p.uid in NodeIds(w);
    } else if p.AddEdge? {
      KnownEdge(records, v, rules, m, p);
      assert p.uid in w.edges <==> p.uid in EdgeIds(w);
    }
  }

  lemma NodesStay(records: seq<Payload>, v: View, rules: Rules, m: nat, u: Uid)
    requires m <= |records|
    ensures u in After(records, v, rules, m).nodes <==> u in v.nodes || AddsNode(records, v, rules, m, u)
  {
    var w := After(records, v, rules, m);
    IdsAfter(records, v, rules, m);
    NodesAfter(records, v, rules, m);
    assert u in w.nodes <==> u in NodeIds(w);
  }

  lemma IdentitiesAfter(records: seq<Payload>, v: View, rules: Rules, m: nat)
    requires m <= |records| && IdentitiesFine(records, v, rules) && OneIdentityPerUid(records)
    ensures var w := After(records, v, rules, m);
            && IdentitiesFine(records, w, rules)
            && NoOps(records, w, rules) == Settled(records, v, rules, KeptOf(records, NoOps(records, v, rules), m))
  {
    forall i | 0 <= i < |records|
      ensures var w := After(records, v, rules, m);
              && UidFits(records[i], rules) && !Collides(records[i], w)
              && (IsNoOp(records[i], w, rules) <==>
                  IsNoOp(records[i], v, rules) || AddedBy(KeptOf(records, NoOps(records, v, rules), m), records[i]))
    {
      RecordAfter(records, v, rules, m, i);
    }
  }

  lemma ReachabilityAfter(records: seq<Payload>, v: View, rules: Rules, m: nat)
    requires m <= |records| && ReachabilityFine(records, v)
    ensures ReachabilityFine(records, After(records, v, rules, m))
  {
    var w := After(records, v, rules, m);
    forall u | u in v.nodes ensures u in w.nodes {
      NodesStay(records, v, rules, m, u);
    }
    forall i | 0 <= i < |records| ensures EndpointsFine(records, w, i) {
      assert EndpointsFine(records, v, i);
    }
  }

  // ---------------------------------------------------------------- the connectivity gate on the rest

  /** A link of the contribution that does not remain has all its ends in the view. */
  lemma DoneLinkStored(records: seq<Payload>, v: View, rules: Rules, m: nat, l: seq<Uid>, u: Uid)
    requires m <= |records| && IdentitiesFine(records, v, rules) && OneIdentityPerUid(records)
    requires ReachabilityFine(records, v)
    requires l in NewLinks(records, NoOps(records, v, rules)) && u in l
    requires l !in NewLinks(records, Settled(records, v, rules, KeptOf(records, NoOps(records, v, rules), m)))
    ensures u in After(records, v, rules, m).nodes
  {
    var noOps := NoOps(records, v, rules);
    var done := KeptOf(records, noOps, m);
    var settled := Settled(records, v, rules, done);
    var i :| 0 <= i < |records| && Kept(records, noOps, i) && records[i].AddEdge? && Endpoints(records[i].edge) == l;
    assert !Kept(records, settled, i);
    var q :| q in done && SameAdd(q, records[i]);
    KeptMembers(records, noOps, m, q);
    var j :| 0 <= j < m && j !in noOps && records[j] == q;
    assert SameIdentity(records[j], records[i]);
    assert EndpointsFine(records, v, j);
    var k :| 0 <= k < |l| && l[k] == u;
    assert Available(records, v, j, u);
    AvailableStored(records, v, rules, m, j, u);
  }

  lemma AvailableStored(records: seq<Payload>, v: View, rules: Rules, m: nat, j: nat, u: Uid)
    requires j <= m <= |records| && IdentitiesFine(records, v, rules) && OneIdentityPerUid(records)
    requires Available(records, v, j, u)
    ensures u in After(records, v, rules, m).nodes
  {
    NodesStay(records, v, rules, m, u);
    if u !in v.nodes {
      var i :| 0 <= i < j && records[i].AddNode? && records[i].uid == u;
      assert !IsNoOp(records[i], v, rules);
    }
  }

  lemma RestIsPart(records: seq<Payload>, noOps: set<int>, settled: set<int>)
    requires noOps <= settled
    ensures NewLinks(records, settled) <= NewLinks(records, noOps)
    ensures HasAdd(records, settled) ==> HasAdd(records, noOps)
  {
    forall l | l in NewLinks(records, settled) ensures l in NewLinks(records, noOps) {
      var i :| 0 <= i < |records| && Kept(records, settled, i) && records[i].AddEdge? &&
               Endpoints(records[i].edge) == l;
      assert Kept(records, noOps, i);
    }
    if HasAdd(records, settled) {
      var i :| Kept(records, settled, i) && (records[i].AddNode? || records[i].AddEdge?);
      assert Kept(records, noOps, i);
    }
  }

  /** In a connected graph that touches the old nodes, a part whose other links are stored touches what is stored. */
  lemma PartTouches(nodes: set<Uid>, all: set<seq<Uid>>, rest: set<seq<Uid>>, v: View, w: View)
    requires Connected(nodes, all) && EndsOf(all) <= nodes && Touches(all, v)
    requires rest <= all && EndsOf(rest) != {}
    requires forall l, u :: l in all && l !in rest && u in l ==> u in w.nodes
    requires forall u :: u in v.nodes ==> u in w.nodes
    ensures Touches(rest, w)
  {
    var ends := EndsOf(rest);
    var l, u :| l in all && u in l && u in v.nodes;
    assert u in EndsOf(all);
    var x :| x in ends;
    if forall e :: e in ends ==> e !in w.nodes {
      forall l, a, b | l in all && a in l && b in l && a in ends ensures b in ends {
        assert l in rest;
      }
      InEveryClosedPart(nodes, all, rest, x, u);
    }
    var e :| e in ends && e in w.nodes;
    var l' :| l' in rest && e in l';
  }

  lemma InEveryClosedPart(nodes: set<Uid>, all: set<seq<Uid>>, rest: set<seq<Uid>>, x: Uid, u: Uid)
    requires Connected(nodes, all) && EndsOf(all) <= nodes && rest <= all && Closed(EndsOf(rest), all)
    requires x in EndsOf(rest) && u in nodes
    ensures u in EndsOf(rest)
  {
    assert x in EndsOf(all);
    ClosedIsAll(nodes, all, EndsOf(rest), x);
  }

  lemma RestTouches(records: seq<Payload>, v: View, rules: Rules, m: nat)
    requires Admissible(records, v, rules) && OneIdentityPerUid(records) && m <= |records|
    ensures var settled := Settled(records, v, rules, KeptOf(records, NoOps(records, v, rules), m));
            HasAdd(records, settled) ==>
              (Touches(NewLinks(records, settled), After(records, v, rules, m)) <==>
               EndsOf(NewLinks(records, settled)) != {})
  {
    var noOps, w := NoOps(records, v, rules), After(records, v, rules, m);
    var settled := Settled(records, v, rules, KeptOf(records, noOps, m));
    var all, rest := NewLinks(records, noOps), NewLinks(records, settled);
    RestIsPart(records, noOps, settled);
    if Touches(rest, w) {
      var l, u :| l in rest && u in l && u in w.nodes;
      assert u in EndsOf(rest);
    }
    if HasAdd(records, settled) && EndsOf(rest) != {} {
      forall l, u | l in all && l !in rest && u in l ensures u in w.nodes {
        DoneLinkStored(records, v, rules, m, l, u);
      }
      forall u | u in v.nodes ensures u in w.nodes {
        NodesStay(records, v, rules, m, u);
      }
      PartTouches(AddedNodes(records, noOps) + EndsOf(all), all, rest, v, w);
    }
  }

  // ---------------------------------------------------------------- when the contribution is accepted again

  lemma ReadmittedAt(records: seq<Payload>, v: View, rules: Rules, m: nat)
    requires Admissible(records, v, rules) && OneIdentityPerUid(records) && m <= |records|
    ensures Admissible(records, After(records, v, rules, m), rules) <==>
            RestConnected(records, Settled(records, v, rules, KeptOf(records, NoOps(records, v, rules), m)))
  {
    IdentitiesAfter(records, v, rules, m);
    ReachabilityAfter(records, v, rules, m);
    RestTouches(records, v, rules, m);
  }

  /** After a crash between two pushes the same contribution passes the gates again if and only if what it still has to
      add is in one piece; all the other conditions of the gates survive the crash. */
  lemma ReadmittedIffRestConnected(records: seq<Payload>, v: View, rules: Rules, j: nat)
    requires Admissible(records, v, rules) && OneIdentityPerUid(records) && j <= |Pushed(records, v, rules)|
    ensures var done := Pushed(records, v, rules)[..j];
            Admissible(records, AppliedAll(v, done), rules) <==>
            RestConnected(records, Settled(records, v, rules, done))
  {
    var m := KeptPrefix(records, NoOps(records, v, rules), |records|, j);
    ReadmittedAt(records, v, rules, m);
  }

  /** If it does not, the connectivity gate is the one that refuses it, and says so once. */
  lemma RefusedAsDisconnected(records: seq<Payload>, v: View, rules: Rules, j: nat)
    requires Admissible(records, v, rules) && OneIdentityPerUid(records) && j <= |Pushed(records, v, rules)|
    requires var settled := Settled(records, v, rules, Pushed(records, v, rules)[..j]);
             !RestConnected(records, settled) && EndsOf(NewLinks(records, settled)) != {}
    ensures Problems(records, AppliedAll(v, Pushed(records, v, rules)[..j]), rules) == [Disconnected]
  {
    var m := KeptPrefix(records, NoOps(records, v, rules), |records|, j);
    IdentitiesAfter(records, v, rules, m);
    ReachabilityAfter(records, v, rules, m);
    RestTouches(records, v, rules, m);
    OnlyConnectivityLeft(records, After(records, v, rules, m), rules);
  }

  lemma OnlyConnectivityLeft(records: seq<Payload>, w: View, rules: Rules)
    requires LocallyFine(records, rules) && IdentitiesFine(records, w, rules) && ReachabilityFine(records, w)
    ensures Problems(records, w, rules) == ConnectivityProblems(records, w, NoOps(records, w, rules))
  {
    var n := |records|;
    LocalSilent(records, rules, Registry, n);
    LocalSilent(records, rules, Gauge, n);
    LocalSilent(records, rules, Dimensional, n);
    IdentitySilent(records, w, rules, n);
    NoneUnreachable(records, w);
    var connectivity := ConnectivityProblems(records, w, NoOps(records, w, rules));
    assert [] + [] + [] + connectivity + [] + [] == connectivity;
  }

  // ---------------------------------------------------------------- where an accepted second run ends

  ghost predicate Agree<I>(a: map<Uid, I>, b: map<Uid, I>, u: Uid) {
    (u in a <==> u in b) && (u in a && u in b ==> a[u] == b[u])
  }

  lemma SameMap<I>(a: map<Uid, I>, b: map<Uid, I>)
    requires forall u :: Agree(a, b, u)
    ensures a == b
  {
    assert forall u :: u in a ==> Agree(a, b, u);
    assert forall u :: u in b ==> Agree(a, b, u);
  }

  lemma NodeIdsResumed(records: seq<Payload>, v: View, rules: Rules, m: nat, u: Uid)
    requires m <= |records| && IdentitiesFine(records, v, rules) && OneIdentityPerUid(records)
    ensures var w, n := After(records, v, rules, m), |records|;
            Agree(NodeIdsAt(records, w, rules, n), NodeIdsAt(records, v, rules, n), u)
  {
    var w, n := After(records, v, rules, m), |records|;
    IdentitiesAfter(records, v, rules, m);
    IdsAfter(records, v, rules, m);
    NodesAfter(records, w, rules, n);
    NodesAfter(records, v, rules, n);
    NodesStay(records, v, rules, m, u);
    if AddsNode(records, w, rules, n, u) {
      var j :| 0 <= j < n && records[j].AddNode? && records[j].uid == u && !IsNoOp(records[j], w, rules);
      NodeAdded(records, w, rules, n, j);
      NodeAdded(records, v, rules, n, j);
    } else if AddsNode(records, v, rules, n, u) {
      var j :| 0 <= j < n && records[j].AddNode? && records[j].uid == u && !IsNoOp(records[j], v, rules);
      NodeAdded(records, w, rules, n, j);
      NodeAdded(records, v, rules, n, j);
    } else if u in v.nodes {
      NodeKept(records, v, rules, m, u);
      NodeKept(records, v, rules, n, u);
      assert NodeIds(w)[u] == w.nodes[u].identity;
      NodeKept(records, w, rules, n, u);
    }
  }

  lemma EdgeIdsResumed(records: seq<Payload>, v: View, rules: Rules, m: nat, u: Uid)
    requires m <= |records| && IdentitiesFine(records, v, rules) && OneIdentityPerUid(records)
    ensures var w, n := After(records, v, rules, m), |records|;
            Agree(EdgeIdsAt(records, w, rules, n), EdgeIdsAt(records, v, rules, n), u)
  {
    var w, n := After(records, v, rules, m), |records|;
    IdentitiesAfter(records, v, rules, m);
    IdsAfter(records, v, rules, m);
    EdgesStay(records, v, rules, m, u);
    if j: nat :| j < n && records[j].AddEdge? && records[j].uid == u {
      EdgeAdded(records, w, rules, n, j);
      EdgeAdded(records, v, rules, n, j);
    } else if u in v.edges {
      EdgeKept(records, v, rules, m, u);
      EdgeKept(records, v, rules, n, u);
      assert EdgeIds(w)[u] == w.edges[u].identity;
      EdgeKept(records, w, rules, n, u);
    } else {
      if u in EdgeIdsAt(records, w, rules, n) { EdgeOrigin(records, w, rules, n, u); }
      if u in EdgeIdsAt(records, v, rules, n) { EdgeOrigin(records, v, rules, n, u); }
    }
  }

  lemma EdgesStay(records: seq<Payload>, v: View, rules: Rules, m: nat, u: Uid)
    requires m <= |records| && IdentitiesFine(records, v, rules)
    ensures var w := After(records, v, rules, m);
            && (u in v.edges ==> u in w.edges)
            && (u in w.edges ==> u in v.edges || exists j :: 0 <= j < m && records[j].AddEdge? && records[j].uid == u)
  {
    var w := After(records, v, rules, m);
    IdsAfter(records, v, rules, m);
    assert u in w.edges <==> u in EdgeIds(w);
    if u in v.edges { EdgeKept(records, v, rules, m, u); }
    if u in w.edges { EdgeOrigin(records, v, rules, m, u); }
  }

  /** A run that was interrupted and taken up again stores exactly the elements, with their identities, that one
      uninterrupted run stores. */
  lemma ResumedLandsTheSame(records: seq<Payload>, v: View, rules: Rules, j: nat)
    requires IdentitiesFine(records, v, rules) && OneIdentityPerUid(records) && j <= |Pushed(records, v, rules)|
    ensures var w := AppliedAll(v, Pushed(records, v, rules)[..j]);
            var again, once := AppliedAll(w, Pushed(records, w, rules)), AppliedAll(v, Pushed(records, v, rules));
            NodeIds(again) == NodeIds(once) && EdgeIds(again) == EdgeIds(once)
  {
    var m := KeptPrefix(records, NoOps(records, v, rules), |records|, j);
    var w, n := After(records, v, rules, m), |records|;
    IdsAfter(records, w, rules, n);
    IdsAfter(records, v, rules, n);
    forall u ensures Agree(NodeIdsAt(records, w, rules, n), NodeIdsAt(records, v, rules, n), u) {
      NodeIdsResumed(records, v, rules, m, u);
    }
    SameMap(NodeIdsAt(records, w, rules, n), NodeIdsAt(records, v, rules, n));
    forall u ensures Agree(EdgeIdsAt(records, w, rules, n), EdgeIdsAt(records, v, rules, n), u) {
      EdgeIdsResumed(records, v, rules, m, u);
    }
    SameMap(EdgeIdsAt(records, w, rules, n), EdgeIdsAt(records, v, rules, n));
  }

  // ---------------------------------------------------------------- after it landed

  ghost predicate OnlyAdds(records: seq<Payload>) {
    forall i :: 0 <= i < |records| ==> records[i].AddNode? || records[i].AddEdge?
  }

  lemma {:induction false} NothingKept(records: seq<Payload>, noOps: set<int>, k: nat)
    requires k <= |records| && forall i :: 0 <= i < k ==> i in noOps
    ensures KeptOf(records, noOps, k) == []
  {
    if k > 0 { NothingKept(records, noOps, k - 1); }
  }

  lemma AllSettled(records: seq<Payload>, v: View, rules: Rules, i: nat)
    requires i < |records| && (records[i].AddNode? || records[i].AddEdge?)
    ensures i in Settled(records, v, rules, Pushed(records, v, rules))
  {
    var noOps := NoOps(records, v, rules);
    if i !in noOps {
      KeptMembers(records, noOps, |records|, records[i]);
      assert SameAdd(records[i], records[i]);
    }
  }

  /** Proposing an accepted contribution of adds once more passes every gate and pushes nothing. */
  lemma ReproposalIsNoOp(records: seq<Payload>, v: View, rules: Rules)
    requires Admissible(records, v, rules) && OneIdentityPerUid(records) && OnlyAdds(records)
    ensures Admissible(records, After(records, v, rules, |records|), rules)
    ensures Pushed(records, After(records, v, rules, |records|), rules) == []
  {
    var w, n := After(records, v, rules, |records|), |records|;
    IdentitiesAfter(records, v, rules, n);
    ReadmittedAt(records, v, rules, n);
    forall i | 0 <= i < n ensures i in NoOps(records, w, rules) {
      AllSettled(records, v, rules, i);
    }
    NothingKept(records, NoOps(records, w, rules), n);
  }

  // ---------------------------------------------------------------- an input that is refused the second time

  ghost predicate SilentOn(rules: Rules, p: Payload) { forall g: Gate :: rules.says(g, p) == [] }

  predicate AddsNodeAs(p: Payload, u: Uid) { p.AddNode? && p.uid == u }

  /** An add of an edge from one input to one output. */
  predicate AddsLink(p: Payload, a: Uid, b: Uid) { p.AddEdge? && p.edge.inputs == [a] && p.edge.outputs == [b] }

  /** Nodes b, c, d, then the edges that chain them to a, the middle one first. */
  ghost predicate Chain(records: seq<Payload>, a: Uid, b: Uid, c: Uid, d: Uid) {
    && |records| == 6
    && AddsNodeAs(records[0], b) && AddsNodeAs(records[1], c) && AddsNodeAs(records[2], d)
    && AddsLink(records[3], b, c) && AddsLink(records[4], a, b) && AddsLink(records[5], c, d)
  }

  ghost predicate FourUids(a: Uid, b: Uid, c: Uid, d: Uid) {
    a != b && a != c && a != d && b != c && b != d && c != d
  }

  predicate Stored(v: View, p: Payload) {
    match p
    case AddNode(uid, _, _) => uid in v.nodes
    case AddEdge(uid, _, _) => uid in v.edges
    case _ => false
  }

  /** No element of the contribution is stored and no two have one uid; the uids fit and the per-record gates accept. */
  ghost predicate AllNew(records: seq<Payload>, v: View, rules: Rules) {
    && (forall i :: 0 <= i < |records| ==> !Stored(v, records[i]) && UidFits(records[i], rules))
    && (forall i :: 0 <= i < |records| ==> SilentOn(rules, records[i]))
    && (forall i, j :: 0 <= i < j < |records| ==> !SameAdd(records[i], records[j]))
  }

  lemma ChainConnected(links: set<seq<Uid>>, a: Uid, b: Uid, c: Uid, d: Uid)
    requires [a, b] in links && [b, c] in links && [c, d] in links
    ensures Connected({a, b, c, d}, links)
  {
    assert [a, b][0] == a && [a, b][1] == b && [b, c][0] == b && [b, c][1] == c && [c, d][0] == c && [c, d][1] == d;
    ReachesItself(links, a);
    assert Joined(links, a, b) && Joined(links, b, c) && Joined(links, c, d);
    ReachesNext(links, a, a, b);
    ReachesNext(links, a, b, c);
    ReachesNext(links, a, c, d);
    ConnectedFromOne({a, b, c, d}, links, a);
  }

  lemma PieceClosed(a: Uid, b: Uid, c: Uid, d: Uid)
    requires a != c && a != d && b != c && b != d
    ensures Closed({a, b}, {[a, b], [c, d]})
  {
    assert forall u :: u in [c, d] ==> u == c || u == d;
  }

  lemma TwoPieces(nodes: set<Uid>, links: set<seq<Uid>>, a: Uid, b: Uid, c: Uid, d: Uid)
    requires links == {[a, b], [c, d]}
    requires a in nodes && c in nodes && a != c && a != d && b != c && b != d
    ensures !Connected(nodes, links)
  {
    PieceClosed(a, b, c, d);
    if Connected(nodes, links) {
      ClosedIsAll(nodes, links, {a, b}, a);
    }
  }

  lemma {:induction false} KeptAll(records: seq<Payload>, k: nat)
    requires k <= |records|
    ensures KeptOf(records, {}, k) == records[..k]
  {
    if k > 0 { KeptAll(records, k - 1); }
  }

  lemma NewContribution(records: seq<Payload>, v: View, rules: Rules)
    requires AllNew(records, v, rules)
    ensures LocallyFine(records, rules) && IdentitiesFine(records, v, rules) && OneIdentityPerUid(records)
    ensures NoOps(records, v, rules) == {} && Pushed(records, v, rules) == records
  {
    assert forall i :: 0 <= i < |records| ==> !IsNoOp(records[i], v, rules);
    assert NoOps(records, v, rules) == {};
    KeptAll(records, |records|);
  }

  lemma SettledAreDone(records: seq<Payload>, v: View, rules: Rules, k: nat, i: nat)
    requires AllNew(records, v, rules) && k <= |records| && i < |records|
    requires records[i].AddNode? || records[i].AddEdge?
    ensures i in Settled(records, v, rules, records[..k]) <==> i < k
  {
    assert !IsNoOp(records[i], v, rules);
    if i < k {
      assert records[..k][i] == records[i] && SameAdd(records[i], records[i]);
    }
  }

  lemma EndsOfLink(links: set<seq<Uid>>, a: Uid, b: Uid)
    requires [a, b] in links
    ensures a in EndsOf(links) && b in EndsOf(links)
  {
    var l := [a, b];
    assert l[0] == a && l[1] == b;
    assert l in links && a in l && b in l;
  }

  lemma ChainLinks(records: seq<Payload>, settled: set<int>, a: Uid, b: Uid, c: Uid, d: Uid)
    requires Chain(records, a, b, c, d)
    ensures settled == {} ==> NewLinks(records, settled) == {[b, c], [a, b], [c, d]}
    ensures settled == {0, 1, 2, 3} ==> NewLinks(records, settled) == {[a, b], [c, d]}
  {
    assert Endpoints(records[3].edge) == [b, c];
    assert Endpoints(records[4].edge) == [a, b];
    assert Endpoints(records[5].edge) == [c, d];
    if settled == {} || settled == {0, 1, 2, 3} {
      assert Kept(records, settled, 3) <==> settled == {};
      assert Kept(records, settled, 4) && Kept(records, settled, 5);
    }
  }

  lemma ChainNodes(records: seq<Payload>, links: set<seq<Uid>>, a: Uid, b: Uid, c: Uid, d: Uid)
    requires Chain(records, a, b, c, d) && links == {[b, c], [a, b], [c, d]}
    ensures AddedNodes(records, {}) + EndsOf(links) == {a, b, c, d}
  {
    EndsOfLink(links, b, c);
    EndsOfLink(links, a, b);
    EndsOfLink(links, c, d);
    forall u | u in EndsOf(links) ensures u in {a, b, c, d} {
      var l :| l in links && u in l;
      assert l == [b, c] || l == [a, b] || l == [c, d];
    }
    forall u | u in AddedNodes(records, {}) ensures u in {a, b, c, d} {
      var i :| 0 <= i < 6 && records[i].AddNode? && records[i].uid == u;
    }
  }

  lemma ChainReachable(records: seq<Payload>, v: View, a: Uid, b: Uid, c: Uid, d: Uid)
    requires Chain(records, a, b, c, d) && a in v.nodes
    ensures ReachabilityFine(records, v)
  {
    forall i: nat, u | 3 <= i < 6 && u in {a, b, c, d} ensures Available(records, v, i, u) {
      assert AddsNodeAs(records[0], b) && AddsNodeAs(records[1], c) && AddsNodeAs(records[2], d);
    }
    forall i | 0 <= i < 6 ensures EndpointsFine(records, v, i) {
    }
  }

  lemma WholeIsFine(records: seq<Payload>, v: View, links: set<seq<Uid>>, nodes: set<Uid>, l: seq<Uid>, u: Uid)
    requires links == NewLinks(records, {}) && nodes == AddedNodes(records, {}) + EndsOf(links)
    requires Connected(nodes, links) && l in links && u in l && u in v.nodes
    ensures ConnectivityFine(records, v, {})
  {
  }

  lemma ChainConnectivity(records: seq<Payload>, v: View, a: Uid, b: Uid, c: Uid, d: Uid)
    requires Chain(records, a, b, c, d) && a in v.nodes
    ensures ConnectivityFine(records, v, {})
  {
    var links := NewLinks(records, {});
    ChainLinks(records, {}, a, b, c, d);
    ChainConnected(links, a, b, c, d);
    ChainNodes(records, links, a, b, c, d);
    assert [a, b][0] == a;
    WholeIsFine(records, v, links, {a, b, c, d}, [a, b], a);
  }

  lemma PiecesAreNot(records: seq<Payload>, settled: set<int>, links: set<seq<Uid>>)
    requires links == NewLinks(records, settled) && HasAdd(records, settled)
    requires !Connected(AddedNodes(records, settled) + EndsOf(links), links)
    ensures !RestConnected(records, settled)
  {
  }

  lemma ChainInPieces(records: seq<Payload>, a: Uid, b: Uid, c: Uid, d: Uid)
    requires Chain(records, a, b, c, d) && FourUids(a, b, c, d)
    ensures !RestConnected(records, {0, 1, 2, 3}) && EndsOf(NewLinks(records, {0, 1, 2, 3})) != {}
  {
    var settled := {0, 1, 2, 3};
    var links := NewLinks(records, settled);
    assert HasAdd(records, settled) by {
      assert AddsLink(records[4], a, b) && Kept(records, settled, 4);
    }
    ChainLinks(records, settled, a, b, c, d);
    EndsOfLink(links, a, b);
    EndsOfLink(links, c, d);
    TwoPieces(AddedNodes(records, settled) + EndsOf(links), links, a, b, c, d);
    PiecesAreNot(records, settled, links);
  }

  lemma ChainSettled(records: seq<Payload>, v: View, rules: Rules, a: Uid, b: Uid, c: Uid, d: Uid)
    requires Chain(records, a, b, c, d) && AllNew(records, v, rules)
    ensures Settled(records, v, rules, records[..4]) == {0, 1, 2, 3}
  {
    forall i: nat | i < 6 ensures i in Settled(records, v, rules, records[..4]) <==> i < 4 {
      assert records[i].AddNode? || records[i].AddEdge?;
      SettledAreDone(records, v, rules, 4, i);
    }
  }

  /** Accepted, stopped after four of its six pushes, and refused when proposed again: the two edges that remain do not
      meet. */
  lemma RefusedSecondTime(records: seq<Payload>, v: View, rules: Rules, a: Uid, b: Uid, c: Uid, d: Uid)
    requires Chain(records, a, b, c, d) && FourUids(a, b, c, d) && a in v.nodes && AllNew(records, v, rules)
    ensures Admissible(records, v, rules) && Pushed(records, v, rules) == records
    ensures Problems(records, AppliedAll(v, records[..4]), rules) == [Disconnected]
  {
    NewContribution(records, v, rules);
    ChainReachable(records, v, a, b, c, d);
    ChainConnectivity(records, v, a, b, c, d);
    ChainSettled(records, v, rules, a, b, c, d);
    ChainInPieces(records, a, b, c, d);
    RefusedAsDisconnected(records, v, rules, 4);
  }
}
