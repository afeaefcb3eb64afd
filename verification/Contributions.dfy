/** What an admitted contribution does to the whole map (omai/gates.py, Store.propose of omai/store.py). */
module Contributions {
  import opened MapRecords
  import opened Gates

  /** All six gates. */
  ghost predicate Admissible(records: seq<Payload>, v: View, rules: Rules) {
    && LocallyFine(records, rules)
    && IdentitiesFine(records, v, rules)
    && ReachabilityFine(records, v)
    && ConnectivityFine(records, v, NoOps(records, v, rules))
  }

  /** What the six gates report, in the order they run. */
  ghost function Problems(records: seq<Payload>, v: View, rules: Rules): seq<Problem> {
    LocalProblems(records, rules, Registry, |records|) + IdentityProblems(records, v, rules, |records|) +
    ReachabilityProblems(records, v, |records|) + ConnectivityProblems(records, v, NoOps(records, v, rules)) +
    LocalProblems(records, rules, Gauge, |records|) + LocalProblems(records, rules, Dimensional, |records|)
  }

  /** validate_contribution */
  method ValidateContribution(records: seq<Payload>, v: View, rules: Rules) returns (problems: seq<Problem>)
    ensures problems == Problems(records, v, rules)
  {
    problems := CheckLocal(records, rules, Registry);
    var identity, noOps := CheckIdentity(records, v, rules);
    var reachability := CheckReachability(records, v);
    var connectivity := CheckConnectivity(records, v, noOps);
    var gauge := CheckLocal(records, rules, Gauge);
    var dimensional := CheckLocal(records, rules, Dimensional);
    problems := problems + identity + reachability + connectivity + gauge + dimensional;
  }

  lemma AllEmpty(a: seq<Problem>, b: seq<Problem>, c: seq<Problem>, d: seq<Problem>, e: seq<Problem>, f: seq<Problem>)
    ensures a + b + c + d + e + f == [] <==> a == [] && b == [] && c == [] && d == [] && e == [] && f == []
  {
    assert |a + b + c + d + e + f| == |a| + |b| + |c| + |d| + |e| + |f|;
  }

  /** Nothing is reported exactly when the contribution is admissible. */
  lemma NoProblemsIffAdmissible(records: seq<Payload>, v: View, rules: Rules)
    ensures Problems(records, v, rules) == [] <==> Admissible(records, v, rules)
  {
    var noOps, n := NoOps(records, v, rules), |records|;
    AllEmpty(LocalProblems(records, rules, Registry, n), IdentityProblems(records, v, rules, n),
             ReachabilityProblems(records, v, n), ConnectivityProblems(records, v, noOps),
             LocalProblems(records, rules, Gauge, n), LocalProblems(records, rules, Dimensional, n));
    LocalSilent(records, rules, Registry, n);
    LocalSilent(records, rules, Gauge, n);
    LocalSilent(records, rules, Dimensional, n);
    IdentitySilent(records, v, rules, n);
    NoneUnreachable(records, v);
    ConnectivityEmpty(records, v, noOps);
  }

  /** The records of the first k that are not exact-convergence no-ops, in order. */
  function KeptOf(records: seq<Payload>, noOps: set<int>, k: nat): seq<Payload>
    requires k <= |records|
  {
    if k == 0 then []
    else if k - 1 in noOps then KeptOf(records, noOps, k - 1)
    else KeptOf(records, noOps, k - 1) + [records[k - 1]]
  }

  function Pushed(records: seq<Payload>, v: View, rules: Rules): seq<Payload> {
    KeptOf(records, NoOps(records, v, rules), |records|)
  }

  /** The view after the first k records. */
  function After(records: seq<Payload>, v: View, rules: Rules, k: nat): View
    requires k <= |records|
  {
    AppliedAll(v, KeptOf(records, NoOps(records, v, rules), k))
  }

  // ---------------------------------------------------------------- one identity per uid

  predicate SameKind(p: Payload, q: Payload) {
    (p.AddNode? && q.AddNode?) || (p.AddEdge? && q.AddEdge?)
  }

  /** Both add a node, or both an edge, and under one uid. */
  predicate SameAdd(p: Payload, q: Payload) {
    SameKind(p, q) && p.uid == q.uid
  }

  predicate SameIdentity(p: Payload, q: Payload)
    requires SameKind(p, q)
  {
    if p.AddNode? then p.node == q.node else p.edge == q.edge
  }

  /** No two adds of the contribution give one uid to two identities. */
  ghost predicate OneIdentityPerUid(records: seq<Payload>) {
    forall i, j :: 0 <= i < |records| && 0 <= j < |records| && SameAdd(records[i], records[j]) ==>
      SameIdentity(records[i], records[j])
  }

  /** Two records of the contribution are a collision of a uid function. */
  ghost predicate UidsCollide(records: seq<Payload>, rules: Rules) {
    exists i, j :: 0 <= i < |records| && 0 <= j < |records| && SameKind(records[i], records[j]) &&
      !SameIdentity(records[i], records[j]) &&
      if records[i].AddNode? then rules.nodeUid(records[i].node) == rules.nodeUid(records[j].node)
      else rules.edgeUid(records[i].edge) == rules.edgeUid(records[j].edge)
  }

  /** For uids that pass the identity gate the two are opposites. */
  lemma OneIdentityUnlessCollision(records: seq<Payload>, v: View, rules: Rules)
    requires IdentitiesFine(records, v, rules)
    ensures OneIdentityPerUid(records) <==> !UidsCollide(records, rules)
  {
    assert forall i :: 0 <= i < |records| ==> UidFits(records[i], rules);
    if !OneIdentityPerUid(records) {
      var i, j :| 0 <= i < |records| && 0 <= j < |records| && SameAdd(records[i], records[j]) &&
                  !SameIdentity(records[i], records[j]);
      assert UidFits(records[i], rules) && UidFits(records[j], rules);
      assert SameKind(records[i], records[j]);
    }
    if UidsCollide(records, rules) {
      var i, j :| 0 <= i < |records| && 0 <= j < |records| && SameKind(records[i], records[j]) &&
        !SameIdentity(records[i], records[j]) &&
        if records[i].AddNode? then rules.nodeUid(records[i].node) == rules.nodeUid(records[j].node)
        else rules.edgeUid(records[i].edge) == rules.edgeUid(records[j].edge);
      assert UidFits(records[i], rules) && UidFits(records[j], rules);
      assert SameAdd(records[i], records[j]);
    }
  }

  // ---------------------------------------------------------------- which identities the view gains

  // The same two maps, record by record.
  function NodeIdsAt(records: seq<Payload>, v: View, rules: Rules, k: nat): map<Uid, NodeIdentity>
    requires k <= |records|
  {
    if k == 0 then NodeIds(v)
    else
      var p, before := records[k - 1], NodeIdsAt(records, v, rules, k - 1);
      if p.AddNode? && !IsNoOp(p, v, rules) then before[p.uid := p.node] else before
  }

  function EdgeIdsAt(records: seq<Payload>, v: View, rules: Rules, k: nat): map<Uid, EdgeIdentity>
    requires k <= |records|
  {
    if k == 0 then EdgeIds(v)
    else
      var p, before := records[k - 1], EdgeIdsAt(records, v, rules, k - 1);
      if p.AddEdge? && !IsNoOp(p, v, rules) then before[p.uid := p.edge] else before
  }

  ghost predicate HasIds(w: View, nodes: map<Uid, NodeIdentity>, edges: map<Uid, EdgeIdentity>) {
    NodeIds(w) == nodes && EdgeIds(w) == edges
  }

  lemma IdsStep(w: View, nodes: map<Uid, NodeIdentity>, edges: map<Uid, EdgeIdentity>, p: Payload)
    requires HasIds(w, nodes, edges)
    ensures HasIds(Applied(w, p), if p.AddNode? then nodes[p.uid := p.node] else nodes,
                   if p.AddEdge? then edges[p.uid := p.edge] else edges)
  {
    AppliedIds(w, p);
  }

  lemma {:induction false} IdsAfter(records: seq<Payload>, v: View, rules: Rules, k: nat)
    requires k <= |records|
    ensures HasIds(After(records, v, rules, k), NodeIdsAt(records, v, rules, k), EdgeIdsAt(records, v, rules, k))
  {
    if k > 0 {
      var w := After(records, v, rules, k - 1);
      IdsAfter(records, v, rules, k - 1);
      IdsStep(w, NodeIdsAt(records, v, rules, k - 1), EdgeIdsAt(records, v, rules, k - 1), records[k - 1]);
    }
  }

  ghost predicate AddsNode(records: seq<Payload>, v: View, rules: Rules, k: nat, u: Uid)
    requires k <= |records|
  {
    exists j :: 0 <= j < k && records[j].AddNode? && records[j].uid == u && !IsNoOp(records[j], v, rules)
  }

  ghost predicate AddsEdge(records: seq<Payload>, v: View, rules: Rules, k: nat, u: Uid, e: EdgeIdentity)
    requires k <= |records|
  {
    exists j :: 0 <= j < k && records[j].AddEdge? && records[j].uid == u && records[j].edge == e &&
                !IsNoOp(records[j], v, rules)
  }

  lemma {:induction false} NodesAfter(records: seq<Payload>, v: View, rules: Rules, k: nat)
    requires k <= |records|
    ensures forall u :: u in NodeIdsAt(records, v, rules, k) <==>
                        u in v.nodes || AddsNode(records, v, rules, k, u)
  {
    if k > 0 {
      NodesAfter(records, v, rules, k - 1);
    }
  }

  /** An added edge's uid is new, so edges the view had keep their identity. */
  lemma {:induction false} EdgeKept(records: seq<Payload>, v: View, rules: Rules, k: nat, u: Uid)
    requires k <= |records| && IdentitiesFine(records, v, rules) && u in v.edges
    ensures var ids := EdgeIdsAt(records, v, rules, k);
            u in ids && ids[u] == v.edges[u].identity
  {
    if k > 0 {
      EdgeKept(records, v, rules, k - 1, u);
      assert UidFits(records[k - 1], rules) && !Collides(records[k - 1], v);
    }
  }

  lemma {:induction false} EdgeOrigin(records: seq<Payload>, v: View, rules: Rules, k: nat, u: Uid)
    requires k <= |records| && u in EdgeIdsAt(records, v, rules, k)
    ensures u in v.edges || AddsEdge(records, v, rules, k, u, EdgeIdsAt(records, v, rules, k)[u])
  {
    if k > 0 {
      var ids, before, p := EdgeIdsAt(records, v, rules, k), EdgeIdsAt(records, v, rules, k - 1), records[k - 1];
      if p.AddEdge? && p.uid == u && !IsNoOp(p, v, rules) {
        assert p.edge == ids[u];
      } else {
        EdgeOrigin(records, v, rules, k - 1, u);
        if u !in v.edges {
          var j :| 0 <= j < k - 1 && records[j].AddEdge? && records[j].uid == u && records[j].edge == before[u] &&
                   !IsNoOp(records[j], v, rules);
        }
      }
    }
  }

  /** A node the view had keeps its identity. */
  lemma {:induction false} NodeKept(records: seq<Payload>, v: View, rules: Rules, k: nat, u: Uid)
    requires k <= |records| && IdentitiesFine(records, v, rules) && u in v.nodes
    ensures var ids := NodeIdsAt(records, v, rules, k);
            u in ids && ids[u] == v.nodes[u].identity
  {
    if k > 0 {
      NodeKept(records, v, rules, k - 1, u);
      assert UidFits(records[k - 1], rules) && !Collides(records[k - 1], v);
    }
  }

  /** An added node is stored with its identity, whatever later records add. */
  lemma {:induction false} NodeAdded(records: seq<Payload>, v: View, rules: Rules, k: nat, i: nat)
    requires i < k <= |records| && IdentitiesFine(records, v, rules) && OneIdentityPerUid(records)
    requires records[i].AddNode?
    ensures var ids := NodeIdsAt(records, v, rules, k);
            records[i].uid in ids && ids[records[i].uid] == records[i].node
  {
    var p := records[k - 1];
    if i < k - 1 {
      NodeAdded(records, v, rules, k - 1, i);
      assert SameAdd(p, records[i]) ==> SameIdentity(p, records[i]);
    } else if IsNoOp(p, v, rules) {
      NodeKept(records, v, rules, k - 1, p.uid);
    }
  }

  lemma {:induction false} EdgeAdded(records: seq<Payload>, v: View, rules: Rules, k: nat, i: nat)
    requires i < k <= |records| && IdentitiesFine(records, v, rules) && OneIdentityPerUid(records)
    requires records[i].AddEdge?
    ensures var ids := EdgeIdsAt(records, v, rules, k);
            records[i].uid in ids && ids[records[i].uid] == records[i].edge
  {
    var p := records[k - 1];
    if i < k - 1 {
      EdgeAdded(records, v, rules, k - 1, i);
      assert SameAdd(p, records[i]) ==> SameIdentity(p, records[i]);
    } else if IsNoOp(p, v, rules) {
      EdgeKept(records, v, rules, k - 1, p.uid);
    }
  }

  // ---------------------------------------------------------------- closed under endpoints, after every push

  lemma {:induction false} PrefixClosed(records: seq<Payload>, v: View, rules: Rules, k: nat)
    requires k <= |records| && EdgeClosed(v)
    requires IdentitiesFine(records, v, rules) && ReachabilityFine(records, v)
    ensures EdgeClosed(After(records, v, rules, k))
  {
    var w := After(records, v, rules, k);
    var ids := EdgeIds(w);
    IdsAfter(records, v, rules, k);
    NodesAfter(records, v, rules, k);
    forall u, ep | u in w.edges && IsEnd(w.edges[u].identity, ep) ensures ep in w.nodes {
      assert u in ids && ids[u] == w.edges[u].identity;
      assert ep in w.nodes <==> ep in NodeIds(w);
      EdgeOrigin(records, v, rules, k, u);
      if u in v.edges {
        EdgeKept(records, v, rules, k, u);
        assert v.edges[u].identity == ids[u];
      } else {
        var j :| 0 <= j < k && records[j].AddEdge? && records[j].uid == u && records[j].edge == ids[u] &&
                 !IsNoOp(records[j], v, rules);
        EndpointsAre(records[j].edge, ep);
        assert EndpointsFine(records, v, j);
        assert Available(records, v, j, ep);
      }
    }
  }

  lemma {:induction false} KeptPrefix(records: seq<Payload>, noOps: set<int>, k: nat, j: nat) returns (m: nat)
    requires k <= |records| && j <= |KeptOf(records, noOps, k)|
    ensures m <= k && KeptOf(records, noOps, m) == KeptOf(records, noOps, k)[..j]
  {
    if j == |KeptOf(records, noOps, k)| {
      m := k;
    } else {
      m := KeptPrefix(records, noOps, k - 1, j);
    }
  }

  /** Whatever push the process stops after, every edge has its endpoints. */
  lemma EveryPrefixEdgeClosed(records: seq<Payload>, v: View, rules: Rules, j: nat)
    requires Admissible(records, v, rules) && EdgeClosed(v) && j <= |Pushed(records, v, rules)|
    ensures EdgeClosed(AppliedAll(v, Pushed(records, v, rules)[..j]))
  {
    var m := KeptPrefix(records, NoOps(records, v, rules), |records|, j);
    PrefixClosed(records, v, rules, m);
  }

  // ---------------------------------------------------------------- the whole map stays connected

  ghost function LinksOf(v: View): set<seq<Uid>> {
    set u | u in EdgeIds(v) :: Endpoints(EdgeIds(v)[u])
  }

  /** A stored edge has both nodes among its inputs and outputs. */
  ghost predicate StoredJoin(v: View, a: Uid, b: Uid) {
    exists u :: u in v.edges && IsEnd(v.edges[u].identity, a) && IsEnd(v.edges[u].identity, b)
  }

  ghost predicate StoredPath(v: View, p: seq<Uid>) {
    p != [] && forall i :: 0 <= i < |p| - 1 ==> StoredJoin(v, p[i], p[i + 1])
  }

  /** The whole map is weakly connected: stored edges lead from every node to every other. */
  ghost predicate MapConnected(v: View) {
    forall a, b :: a in v.nodes && b in v.nodes ==> exists p :: StoredPath(v, p) && p[0] == a && p[|p| - 1] == b
  }

  lemma JoinedInMap(v: View, a: Uid, b: Uid)
    ensures StoredJoin(v, a, b) <==> Joined(LinksOf(v), a, b)
  {
    if StoredJoin(v, a, b) {
      var u :| u in v.edges && IsEnd(v.edges[u].identity, a) && IsEnd(v.edges[u].identity, b);
      assert u in EdgeIds(v);
      EndpointsAre(v.edges[u].identity, a);
      EndpointsAre(v.edges[u].identity, b);
      assert Endpoints(EdgeIds(v)[u]) in LinksOf(v);
    }
    if Joined(LinksOf(v), a, b) {
      var l :| l in LinksOf(v) && a in l && b in l;
      var u :| u in EdgeIds(v) && Endpoints(EdgeIds(v)[u]) == l;
      EndpointsAre(v.edges[u].identity, a);
      EndpointsAre(v.edges[u].identity, b);
    }
  }

  lemma PathInMap(v: View, p: seq<Uid>)
    ensures StoredPath(v, p) <==> Path(LinksOf(v), p)
  {
    forall i | 0 <= i < |p| - 1 ensures StoredJoin(v, p[i], p[i + 1]) <==> Joined(LinksOf(v), p[i], p[i + 1]) {
      JoinedInMap(v, p[i], p[i + 1]);
    }
  }

  lemma ConnectedInMap(v: View)
    ensures MapConnected(v) <==> Connected(v.nodes.Keys, LinksOf(v))
  {
    forall p ensures StoredPath(v, p) <==> Path(LinksOf(v), p) {
      PathInMap(v, p);
    }
  }

  lemma LinksAfter(records: seq<Payload>, v: View, rules: Rules)
    requires IdentitiesFine(records, v, rules) && OneIdentityPerUid(records)
    ensures LinksOf(After(records, v, rules, |records|)) ==
            LinksOf(v) + NewLinks(records, NoOps(records, v, rules))
  {
    var w, noOps, n := After(records, v, rules, |records|), NoOps(records, v, rules), |records|;
    IdsAfter(records, v, rules, n);
    forall l | l in LinksOf(w) ensures l in LinksOf(v) + NewLinks(records, noOps) {
      var u :| u in EdgeIds(w) && Endpoints(EdgeIds(w)[u]) == l;
      EdgeOrigin(records, v, rules, n, u);
      if u in v.edges {
        EdgeKept(records, v, rules, n, u);
        assert u in EdgeIds(v);
      } else {
        var j :| 0 <= j < n && records[j].AddEdge? && records[j].uid == u && records[j].edge == EdgeIds(w)[u] &&
                 !IsNoOp(records[j], v, rules);
        assert Kept(records, noOps, j);
      }
    }
    forall l | l in NewLinks(records, noOps) ensures l in LinksOf(w) {
      var i :| 0 <= i < n && Kept(records, noOps, i) && records[i].AddEdge? && Endpoints(records[i].edge) == l;
      NewEdgeSurvives(records, v, rules, i);
    }
    forall l | l in LinksOf(v) ensures l in LinksOf(w) {
      var u :| u in EdgeIds(v) && Endpoints(EdgeIds(v)[u]) == l;
      EdgeKept(records, v, rules, n, u);
      assert u in EdgeIds(w);
    }
  }

  /** The edge that was checked is the edge that is stored, whatever later records add. */
  lemma NewEdgeSurvives(records: seq<Payload>, v: View, rules: Rules, i: nat)
    requires IdentitiesFine(records, v, rules) && OneIdentityPerUid(records)
    requires i < |records| && records[i].AddEdge?
    ensures var w := After(records, v, rules, |records|);
            records[i].uid in EdgeIds(w) && EdgeIds(w)[records[i].uid] == records[i].edge
  {
    IdsAfter(records, v, rules, |records|);
    EdgeAdded(records, v, rules, |records|, i);
  }

  lemma NodesGained(records: seq<Payload>, v: View, rules: Rules)
    ensures After(records, v, rules, |records|).nodes.Keys ==
            v.nodes.Keys + AddedNodes(records, NoOps(records, v, rules))
  {
    var w, noOps := After(records, v, rules, |records|), NoOps(records, v, rules);
    IdsAfter(records, v, rules, |records|);
    NodesAfter(records, v, rules, |records|);
    forall u ensures u in w.nodes <==> u in v.nodes || u in AddedNodes(records, noOps) {
      assert u in w.nodes <==> u in NodeIds(w);
      if AddsNode(records, v, rules, |records|, u) {
        var j :| 0 <= j < |records| && records[j].AddNode? && records[j].uid == u && !IsNoOp(records[j], v, rules);
        assert Kept(records, noOps, j);
      }
      if u in AddedNodes(records, noOps) {
        var j :| 0 <= j < |records| && Kept(records, noOps, j) && records[j].AddNode? && records[j].uid == u;
        assert AddsNode(records, v, rules, |records|, u);
      }
    }
  }

  /** Two connected graphs that share a node are connected together. */
  lemma Splice(base: set<Uid>, baseLinks: set<seq<Uid>>, added: set<Uid>, newLinks: set<seq<Uid>>, shared: Uid)
    requires Connected(base, baseLinks) && Inside(base, baseLinks)
    requires Connected(added, newLinks) && Inside(added, newLinks)
    requires shared in base && shared in added
    ensures Connected(base + added, baseLinks + newLinks)
  {
    var nodes, links := base + added, baseLinks + newLinks;
    forall s | s <= nodes && shared in s && Closed(s, links) ensures s == nodes {
      assert Closed(s, baseLinks) && Closed(s, newLinks);
      ClosedIsAll(base, baseLinks, s, shared);
      ClosedIsAll(added, newLinks, s, shared);
    }
    ConnectedIfClosedIsAll(nodes, links, shared);
  }

  lemma EndsKnown(records: seq<Payload>, v: View, rules: Rules)
    requires IdentitiesFine(records, v, rules) && ReachabilityFine(records, v)
    requires EdgeClosed(v) && OneIdentityPerUid(records)
    ensures EndsOf(NewLinks(records, NoOps(records, v, rules))) <= After(records, v, rules, |records|).nodes.Keys
  {
    var w := After(records, v, rules, |records|);
    PrefixClosed(records, v, rules, |records|);
    LinksAfter(records, v, rules);
    var links := NewLinks(records, NoOps(records, v, rules));
    forall x | x in EndsOf(links) ensures x in w.nodes {
      var l :| l in links && x in l;
      assert l in LinksOf(w);
      var u :| u in EdgeIds(w) && Endpoints(EdgeIds(w)[u]) == l;
      EndpointsAre(w.edges[u].identity, x);
      var i :| 0 <= i < |l| && l[i] == x;
    }
  }

  lemma LinksInside(v: View)
    requires EdgeClosed(v)
    ensures Inside(v.nodes.Keys, LinksOf(v))
  {
    forall l, x | l in LinksOf(v) && x in l ensures x in v.nodes {
      var u :| u in EdgeIds(v) && Endpoints(EdgeIds(v)[u]) == l;
      EndpointsAre(v.edges[u].identity, x);
    }
  }

  lemma AdditionsSplice(v: View, added: set<Uid>, links: set<seq<Uid>>)
    requires EdgeClosed(v) && Connected(v.nodes.Keys, LinksOf(v))
    requires Touches(links, v) && Connected(added + EndsOf(links), links)
    ensures Connected(v.nodes.Keys + (added + EndsOf(links)), LinksOf(v) + links)
  {
    LinksInside(v);
    var l, shared :| l in links && shared in l && shared in v.nodes;
    Splice(v.nodes.Keys, LinksOf(v), added + EndsOf(links), links, shared);
  }

  lemma GrownMapConnected(v: View, w: View, added: set<Uid>, links: set<seq<Uid>>)
    requires EdgeClosed(v) && Connected(v.nodes.Keys, LinksOf(v))
    requires Touches(links, v) && Connected(added + EndsOf(links), links)
    requires w.nodes.Keys == v.nodes.Keys + added && EndsOf(links) <= w.nodes.Keys
    requires LinksOf(w) == LinksOf(v) + links
    ensures Connected(w.nodes.Keys, LinksOf(w))
  {
    AdditionsSplice(v, added, links);
    assert w.nodes.Keys == v.nodes.Keys + (added + EndsOf(links));
  }

  /** The guarantee behind the connectivity gate: a weakly connected map stays weakly connected under every accepted
      contribution. */
  lemma MapStaysConnected(records: seq<Payload>, v: View, rules: Rules)
    requires Admissible(records, v, rules) && OneIdentityPerUid(records)
    requires EdgeClosed(v) && MapConnected(v)
    ensures MapConnected(After(records, v, rules, |records|))
  {
    var noOps, w := NoOps(records, v, rules), After(records, v, rules, |records|);
    NodesGained(records, v, rules);
    LinksAfter(records, v, rules);
    ConnectedInMap(v);
    ConnectedInMap(w);
    if HasAdd(records, noOps) {
      EndsKnown(records, v, rules);
      GrownMapConnected(v, w, AddedNodes(records, noOps), NewLinks(records, noOps));
    } else {
      NothingGained(records, noOps);
      assert LinksOf(w) == LinksOf(v) && w.nodes.Keys == v.nodes.Keys;
    }
  }

  lemma NothingGained(records: seq<Payload>, noOps: set<int>)
    requires !HasAdd(records, noOps)
    ensures NewLinks(records, noOps) == {} && AddedNodes(records, noOps) == {}
  {
    forall i | Kept(records, noOps, i) ensures !records[i].AddNode? && !records[i].AddEdge? {
    }
  }
}
