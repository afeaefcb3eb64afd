/** The admission gates of omai/gates.py. The registry, gauge and dimensional gates look at one record at a time and
    are fixed functions; the identity, reachability and connectivity gates are modelled in full. */
module Gates {
  import opened MapRecords

  // The gates that look at one record at a time.
  datatype Gate = Registry | Gauge | Dimensional

  datatype Problem =
    | LocalProblem(gate: Gate, index: nat, text: string)
    | UidMismatch(index: nat)
    | Collision(index: nat)
    | UnknownEndpoint(index: nat, endpoint: Uid)
    | TouchesNothing
    | Disconnected

  // The uid functions and what the per-record gates say of a record.
  datatype Rules = Rules(nodeUid: NodeIdentity -> Uid, edgeUid: EdgeIdentity -> Uid,
                         says: (Gate, Payload) -> seq<string>)

  // ---------------------------------------------------------------- gates 1, 5 and 6

  ghost predicate Silent(records: seq<Payload>, rules: Rules, gate: Gate, n: nat)
    requires n <= |records|
  {
    forall i :: 0 <= i < n ==> rules.says(gate, records[i]) == []
  }

  ghost predicate LocallyFine(records: seq<Payload>, rules: Rules) {
    && Silent(records, rules, Registry, |records|)
    && Silent(records, rules, Gauge, |records|)
    && Silent(records, rules, Dimensional, |records|)
  }

  function Labelled(gate: Gate, i: nat, texts: seq<string>): (r: seq<Problem>)
    ensures |r| == |texts|
  {
    seq(|texts|, (k: nat) requires k < |texts| => LocalProblem(gate, i, texts[k]))
  }

  /** What one of these gates reports about the first n records, in order. */
  function LocalProblems(records: seq<Payload>, rules: Rules, gate: Gate, n: nat): seq<Problem>
    requires n <= |records|
  {
    if n == 0 then []
    else LocalProblems(records, rules, gate, n - 1) + Labelled(gate, n - 1, rules.says(gate, records[n - 1]))
  }

  method CheckLocal(records: seq<Payload>, rules: Rules, gate: Gate) returns (problems: seq<Problem>)
    ensures problems == LocalProblems(records, rules, gate, |records|)
  {
    problems := [];
    for i := 0 to |records|
      invariant problems == LocalProblems(records, rules, gate, i)
    {
      var texts := rules.says(gate, records[i]);
      problems := problems + Labelled(gate, i, texts);
    }
  }

  ghost predicate LocalWrong(q: Problem, records: seq<Payload>, rules: Rules, gate: Gate, n: nat)
    requires n <= |records|
  {
    q.LocalProblem? && q.gate == gate && q.index < n && q.text in rules.says(gate, records[q.index])
  }

  lemma {:induction false} LocalMembers(records: seq<Payload>, rules: Rules, gate: Gate, n: nat, q: Problem)
    requires n <= |records|
    ensures q in LocalProblems(records, rules, gate, n) <==> LocalWrong(q, records, rules, gate, n)
  {
    if n > 0 {
      LocalMembers(records, rules, gate, n - 1, q);
      var texts := rules.says(gate, records[n - 1]);
      var more := Labelled(gate, n - 1, texts);
      if q.LocalProblem? && q.gate == gate && q.index == n - 1 && q.text in texts {
        var k :| 0 <= k < |texts| && texts[k] == q.text;
        assert more[k] == q;
      }
    }
  }

  lemma {:induction false} LocalSilent(records: seq<Payload>, rules: Rules, gate: Gate, n: nat)
    requires n <= |records|
    ensures LocalProblems(records, rules, gate, n) == [] <==> Silent(records, rules, gate, n)
  {
    if n > 0 {
      LocalSilent(records, rules, gate, n - 1);
      var more := Labelled(gate, n - 1, rules.says(gate, records[n - 1]));
      assert |LocalProblems(records, rules, gate, n)| == |LocalProblems(records, rules, gate, n - 1)| + |more|;
    }
  }

  // ---------------------------------------------------------------- gate 2: identity

  predicate UidFits(p: Payload, rules: Rules) {
    match p
    case AddNode(uid, node, _) => uid == rules.nodeUid(node)
    case AddEdge(uid, edge, _) => uid == rules.edgeUid(edge)
    case _ => true
  }

  /** An add of an element the view already holds with this very identity. */
  predicate Converges(p: Payload, v: View) {
    match p
    case AddNode(uid, node, _) => uid in v.nodes && v.nodes[uid].identity == node
    case AddEdge(uid, edge, _) => uid in v.edges && v.edges[uid].identity == edge
    case _ => false
  }

  predicate Collides(p: Payload, v: View) {
    match p
    case AddNode(uid, node, _) => uid in v.nodes && v.nodes[uid].identity != node
    case AddEdge(uid, edge, _) => uid in v.edges && v.edges[uid].identity != edge
    case _ => false
  }

  predicate IsNoOp(p: Payload, v: View, rules: Rules) {
    UidFits(p, rules) && Converges(p, v)
  }

  function NoOps(records: seq<Payload>, v: View, rules: Rules): set<int> {
    set i | 0 <= i < |records| && IsNoOp(records[i], v, rules)
  }

  ghost predicate IdentitiesFine(records: seq<Payload>, v: View, rules: Rules) {
    forall i :: 0 <= i < |records| ==> UidFits(records[i], rules) && !Collides(records[i], v)
  }

  function IdentityProblem(p: Payload, v: View, rules: Rules, i: nat): seq<Problem> {
    if !UidFits(p, rules) then [UidMismatch(i)] else if Collides(p, v) then [Collision(i)] else []
  }

  function IdentityProblems(records: seq<Payload>, v: View, rules: Rules, n: nat): seq<Problem>
    requires n <= |records|
  {
    if n == 0 then []
    else IdentityProblems(records, v, rules, n - 1) + IdentityProblem(records[n - 1], v, rules, n - 1)
  }

  method CheckIdentity(records: seq<Payload>, v: View, rules: Rules)
    returns (problems: seq<Problem>, noOps: set<int>)
    ensures problems == IdentityProblems(records, v, rules, |records|)
    ensures noOps == NoOps(records, v, rules)
  {
    problems, noOps := [], {};
    for i := 0 to |records|
      invariant problems == IdentityProblems(records, v, rules, i)
      invariant noOps == set k | 0 <= k < i && IsNoOp(records[k], v, rules)
    {
      var p := records[i];
      if p.AddNode? || p.AddEdge? {
        if !UidFits(p, rules) {
          problems := problems + [UidMismatch(i)];
        } else if Converges(p, v) {
          noOps := noOps + {i};
        } else if Collides(p, v) {
          problems := problems + [Collision(i)];
        }
      }
    }
  }

  /** An add under a uid that is not that of its identity. */
  ghost predicate WrongUid(p: Payload, rules: Rules) {
    (p.AddNode? && p.uid != rules.nodeUid(p.node)) || (p.AddEdge? && p.uid != rules.edgeUid(p.edge))
  }

  /** An add under a uid that is stored with another identity. */
  ghost predicate Clashes(p: Payload, v: View) {
    || (p.AddNode? && p.uid in v.nodes && v.nodes[p.uid].identity != p.node)
    || (p.AddEdge? && p.uid in v.edges && v.edges[p.uid].identity != p.edge)
  }

  ghost predicate IdentityWrong(q: Problem, records: seq<Payload>, v: View, rules: Rules, n: nat)
    requires n <= |records|
  {
    || (q.UidMismatch? && q.index < n && WrongUid(records[q.index], rules))
    || (q.Collision? && q.index < n && !WrongUid(records[q.index], rules) && Clashes(records[q.index], v))
  }

  lemma {:induction false} IdentityMembers(records: seq<Payload>, v: View, rules: Rules, n: nat, q: Problem)
    requires n <= |records|
    ensures q in IdentityProblems(records, v, rules, n) <==> IdentityWrong(q, records, v, rules, n)
  {
    if n > 0 {
      IdentityMembers(records, v, rules, n - 1, q);
    }
  }

  lemma {:induction false} IdentitySilent(records: seq<Payload>, v: View, rules: Rules, n: nat)
    requires n <= |records|
    ensures IdentityProblems(records, v, rules, n) == [] <==>
            forall i :: 0 <= i < n ==> UidFits(records[i], rules) && !Collides(records[i], v)
  {
    if n > 0 {
      IdentitySilent(records, v, rules, n - 1);
      assert |IdentityProblems(records, v, rules, n)| ==
             |IdentityProblems(records, v, rules, n - 1)| + |IdentityProblem(records[n - 1], v, rules, n - 1)|;
    }
  }

  // ---------------------------------------------------------------- gate 3: reachability

  /** The nodes an edge at position i may use: those of the view and those added before it. */
  ghost predicate Available(records: seq<Payload>, v: View, i: nat, u: Uid)
    requires i <= |records|
  {
    u in v.nodes || exists j :: 0 <= j < i && records[j].AddNode? && records[j].uid == u
  }

  ghost predicate EndpointsFine(records: seq<Payload>, v: View, i: nat)
    requires i < |records|
  {
    records[i].AddEdge? ==>
      forall k :: 0 <= k < |Endpoints(records[i].edge)| ==> Available(records, v, i, Endpoints(records[i].edge)[k])
  }

  ghost predicate ReachabilityFine(records: seq<Payload>, v: View) {
    forall i :: 0 <= i < |records| ==> EndpointsFine(records, v, i)
  }

  /** The endpoints of record i among the first k that it may not use, in order. */
  ghost function UnknownEnds(records: seq<Payload>, v: View, i: nat, ends: seq<Uid>): seq<Problem>
    requires i <= |records|
  {
    if ends == [] then []
    else
      var u := ends[|ends| - 1];
      UnknownEnds(records, v, i, ends[..|ends| - 1]) +
      (if Available(records, v, i, u) then [] else [UnknownEndpoint(i, u)])
  }

  ghost function UnknownOf(records: seq<Payload>, v: View, i: nat): seq<Problem>
    requires i < |records|
  {
    if records[i].AddEdge? then UnknownEnds(records, v, i, Endpoints(records[i].edge)) else []
  }

  ghost function ReachabilityProblems(records: seq<Payload>, v: View, n: nat): seq<Problem>
    requires n <= |records|
  {
    if n == 0 then [] else ReachabilityProblems(records, v, n - 1) + UnknownOf(records, v, n - 1)
  }

  /** Every input and output of every added edge is stored or added by an earlier record. */
  ghost predicate EndsUsable(records: seq<Payload>, v: View) {
    forall i, u :: 0 <= i < |records| && records[i].AddEdge? && IsEnd(records[i].edge, u) ==>
      Available(records, v, i, u)
  }

  method CheckReachability(records: seq<Payload>, v: View) returns (problems: seq<Problem>)
    ensures problems == ReachabilityProblems(records, v, |records|)
    ensures problems == [] <==> EndsUsable(records, v)
  {
    problems := [];
    var known := v.nodes.Keys;
    for i := 0 to |records|
      invariant forall u :: u in known <==> Available(records, v, i, u)
      invariant problems == ReachabilityProblems(records, v, i)
    {
      var p := records[i];
      if p.AddNode? {
        known := known + {p.uid};
      } else if p.AddEdge? {
        var found := UnknownEndpoints(records, v, i, Endpoints(p.edge), known);
        problems := problems + found;
      }
    }
    ReachabilitySilent(records, v);
  }

  /** The inner loop over the endpoints of one edge. */
  method UnknownEndpoints(ghost records: seq<Payload>, ghost v: View, i: nat, ends: seq<Uid>, known: set<Uid>)
    returns (found: seq<Problem>)
    requires i <= |records| && forall u :: u in known <==> Available(records, v, i, u)
    ensures found == UnknownEnds(records, v, i, ends)
  {
    found := [];
    for k := 0 to |ends|
      invariant found == UnknownEnds(records, v, i, ends[..k])
    {
      assert ends[..k + 1][..k] == ends[..k];
      if ends[k] !in known {
        found := found + [UnknownEndpoint(i, ends[k])];
      }
    }
    assert ends[..|ends|] == ends;
  }

  ghost predicate ReachabilityWrong(q: Problem, records: seq<Payload>, v: View, n: nat)
    requires n <= |records|
  {
    q.UnknownEndpoint? && q.index < n && Unreachable(q, records, v)
  }

  ghost predicate Unreachable(q: Problem, records: seq<Payload>, v: View)
    requires q.UnknownEndpoint? && q.index < |records|
  {
    records[q.index].AddEdge? && IsEnd(records[q.index].edge, q.endpoint) &&
    !Available(records, v, q.index, q.endpoint)
  }

  lemma {:induction false} UnknownEndsMembers(records: seq<Payload>, v: View, i: nat, ends: seq<Uid>, q: Problem)
    requires i <= |records|
    ensures q in UnknownEnds(records, v, i, ends) <==>
            q.UnknownEndpoint? && q.index == i && q.endpoint in ends && !Available(records, v, i, q.endpoint)
  {
    if ends != [] {
      UnknownEndsMembers(records, v, i, ends[..|ends| - 1], q);
      assert ends == ends[..|ends| - 1] + [ends[|ends| - 1]];
    }
  }

  lemma UnknownOfMembers(records: seq<Payload>, v: View, i: nat, q: Problem)
    requires i < |records|
    ensures q in UnknownOf(records, v, i) <==> q.UnknownEndpoint? && q.index == i && Unreachable(q, records, v)
  {
    if records[i].AddEdge? {
      UnknownEndsMembers(records, v, i, Endpoints(records[i].edge), q);
      if q.UnknownEndpoint? { EndpointsAre(records[i].edge, q.endpoint); }
    }
  }

  lemma OneMoreRecord(records: seq<Payload>, v: View, n: nat, q: Problem)
    requires n < |records|
    requires q in ReachabilityProblems(records, v, n) <==> ReachabilityWrong(q, records, v, n)
    ensures q in ReachabilityProblems(records, v, n + 1) <==> ReachabilityWrong(q, records, v, n + 1)
  {
    var before, more := ReachabilityProblems(records, v, n), UnknownOf(records, v, n);
    UnknownOfMembers(records, v, n, q);
    assert q in before + more <==> q in before || q in more;
  }

  lemma {:induction false} ReachabilityMembers(records: seq<Payload>, v: View, n: nat, q: Problem)
    requires n <= |records|
    ensures q in ReachabilityProblems(records, v, n) <==> ReachabilityWrong(q, records, v, n)
  {
    if n > 0 {
      ReachabilityMembers(records, v, n - 1, q);
      OneMoreRecord(records, v, n - 1, q);
    }
  }

  /** The gate is silent exactly when every input and output of every added edge can be used. */
  lemma ReachabilitySilent(records: seq<Payload>, v: View)
    ensures ReachabilityProblems(records, v, |records|) == [] <==> EndsUsable(records, v)
  {
    var problems := ReachabilityProblems(records, v, |records|);
    if problems != [] {
      assert problems[0] in problems;
      ReachabilityMembers(records, v, |records|, problems[0]);
    }
    if !EndsUsable(records, v) {
      var i, u :| 0 <= i < |records| && records[i].AddEdge? && IsEnd(records[i].edge, u) &&
                  !Available(records, v, i, u);
      ReachabilityMembers(records, v, |records|, UnknownEndpoint(i, u));
    }
  }

  lemma {:induction false} UnknownEndsJoined(records: seq<Payload>, v: View, i: nat, a: seq<Uid>, b: seq<Uid>)
    requires i <= |records|
    ensures UnknownEnds(records, v, i, a + b) == UnknownEnds(records, v, i, a) + UnknownEnds(records, v, i, b)
  {
    if b == [] {
      assert a + b == a;
    } else {
      UnknownEndsJoined(records, v, i, a, b[..|b| - 1]);
      assert (a + b)[..|a + b| - 1] == a + b[..|b| - 1];
    }
  }

  /** The inputs of an edge are reported before its outputs. */
  lemma InputsFirst(records: seq<Payload>, v: View, i: nat)
    requires i < |records| && records[i].AddEdge?
    ensures UnknownOf(records, v, i) ==
            UnknownEnds(records, v, i, records[i].edge.inputs) + UnknownEnds(records, v, i, records[i].edge.outputs)
  {
    UnknownEndsJoined(records, v, i, records[i].edge.inputs, records[i].edge.outputs);
  }

  lemma NoneUnreachable(records: seq<Payload>, v: View)
    ensures ReachabilityProblems(records, v, |records|) == [] <==> ReachabilityFine(records, v)
  {
    var problems := ReachabilityProblems(records, v, |records|);
    if problems != [] {
      var q := problems[0];
      ReachabilityMembers(records, v, |records|, q);
      assert ReachabilityWrong(q, records, v, |records|);
      EndpointsAre(records[q.index].edge, q.endpoint);
      var k :| 0 <= k < |Endpoints(records[q.index].edge)| && Endpoints(records[q.index].edge)[k] == q.endpoint;
      assert !EndpointsFine(records, v, q.index);
    } else {
      forall i, k | 0 <= i < |records| && records[i].AddEdge? && 0 <= k < |Endpoints(records[i].edge)|
        ensures Available(records, v, i, Endpoints(records[i].edge)[k])
      {
        EndpointsAre(records[i].edge, Endpoints(records[i].edge)[k]);
        ReachabilityMembers(records, v, |records|, UnknownEndpoint(i, Endpoints(records[i].edge)[k]));
      }
    }
  }

  // ---------------------------------------------------------------- connectedness

  /** Two nodes one link apart: some link lists both. */
  ghost predicate Joined(links: set<seq<Uid>>, a: Uid, b: Uid) {
    exists l :: l in links && a in l && b in l
  }

  ghost predicate Path(links: set<seq<Uid>>, p: seq<Uid>) {
    p != [] && forall i :: 0 <= i < |p| - 1 ==> Joined(links, p[i], p[i + 1])
  }

  /** Weakly connected: any two nodes are ends of a path of links. */
  ghost predicate Connected(nodes: set<Uid>, links: set<seq<Uid>>) {
    forall a, b :: a in nodes && b in nodes ==> exists p :: Path(links, p) && p[0] == a && p[|p| - 1] == b
  }

  /** No link leaves the set. */
  ghost predicate Closed(s: set<Uid>, links: set<seq<Uid>>) {
    forall l, a, b :: l in links && a in l && b in l && a in s ==> b in s
  }

  ghost predicate Inside(nodes: set<Uid>, links: set<seq<Uid>>) {
    forall l, a :: l in links && a in l ==> a in nodes
  }

  lemma {:induction false} PathStays(s: set<Uid>, links: set<seq<Uid>>, p: seq<Uid>)
    requires Closed(s, links) && Path(links, p) && p[0] in s
    ensures p[|p| - 1] in s
    decreases |p|
  {
    if |p| > 1 {
      assert Joined(links, p[0], p[1]);
      var q := p[1..];
      forall i | 0 <= i < |q| - 1 ensures Joined(links, q[i], q[i + 1]) {
        assert Joined(links, p[i + 1], p[i + 2]);
      }
      PathStays(s, links, q);
    }
  }

  /** A closed part of a connected graph with one node has them all. */
  lemma ClosedIsAll(nodes: set<Uid>, links: set<seq<Uid>>, s: set<Uid>, a: Uid)
    requires Connected(nodes, links) && Closed(s, links) && a in nodes && a in s
    ensures nodes <= s
  {
    forall b | b in nodes ensures b in s {
      var p :| Path(links, p) && p[0] == a && p[|p| - 1] == b;
      PathStays(s, links, p);
    }
  }

  ghost predicate Reaches(links: set<seq<Uid>>, a: Uid, b: Uid) {
    exists p :: Path(links, p) && p[0] == a && p[|p| - 1] == b
  }

  lemma ReachesItself(links: set<seq<Uid>>, a: Uid)
    ensures Reaches(links, a, a)
  {
    assert Path(links, [a]) && [a][0] == a && [a][|[a]| - 1] == a;
  }

  lemma ReachesNext(links: set<seq<Uid>>, a: Uid, b: Uid, c: Uid)
    requires Reaches(links, a, b) && Joined(links, b, c)
    ensures Reaches(links, a, c)
  {
    var p :| Path(links, p) && p[0] == a && p[|p| - 1] == b;
    var q := p + [c];
    assert Path(links, q) && q[0] == a && q[|q| - 1] == c;
  }

  lemma {:induction false} ReachesAlong(links: set<seq<Uid>>, a: Uid, p: seq<Uid>)
    requires Path(links, p) && Reaches(links, a, p[0])
    ensures Reaches(links, a, p[|p| - 1])
    decreases |p|
  {
    if |p| > 1 {
      var q := p[..|p| - 1];
      ReachesAlong(links, a, q);
      assert Joined(links, p[|p| - 2], p[|p| - 1]);
      ReachesNext(links, a, q[|q| - 1], p[|p| - 1]);
    }
  }

  lemma {:induction false} ReachesBack(links: set<seq<Uid>>, a: Uid, p: seq<Uid>)
    requires Path(links, p) && p[0] == a
    ensures Reaches(links, p[|p| - 1], a)
    decreases |p|
  {
    if |p| == 1 {
      ReachesItself(links, a);
    } else {
      var q := p[..|p| - 1];
      var x, y := p[|p| - 2], p[|p| - 1];
      ReachesBack(links, a, q);
      assert Joined(links, x, y);
      ReachesItself(links, y);
      ReachesNext(links, y, y, x);
      var r :| Path(links, r) && r[0] == x && r[|r| - 1] == a;
      ReachesAlong(links, y, r);
    }
  }

  /** If every closed part that contains one node has them all, the graph is connected. */
  lemma ConnectedFromOne(nodes: set<Uid>, links: set<seq<Uid>>, start: Uid)
    requires forall b :: b in nodes ==> Reaches(links, start, b)
    ensures Connected(nodes, links)
  {
    forall a, b | a in nodes && b in nodes ensures Reaches(links, a, b) {
      var p :| Path(links, p) && p[0] == start && p[|p| - 1] == a;
      ReachesBack(links, start, p);
      var q :| Path(links, q) && q[0] == start && q[|q| - 1] == b;
      ReachesAlong(links, a, q);
    }
  }

  lemma ConnectedIfClosedIsAll(nodes: set<Uid>, links: set<seq<Uid>>, start: Uid)
    requires Inside(nodes, links) && start in nodes
    requires forall s :: s <= nodes && start in s && Closed(s, links) ==> s == nodes
    ensures Connected(nodes, links)
  {
    var s := set b | b in nodes && Reaches(links, start, b);
    ReachesItself(links, start);
    forall l, a, b | l in links && a in l && b in l && a in s ensures b in s {
      assert Joined(links, a, b);
      ReachesNext(links, start, a, b);
    }
    assert Closed(s, links) && s <= nodes;
    assert s == nodes;
    ConnectedFromOne(nodes, links, start);
  }

  // ---------------------------------------------------------------- gate 4: connectivity

  ghost predicate Kept(records: seq<Payload>, noOps: set<int>, i: int) {
    0 <= i < |records| && i !in noOps
  }

  ghost function AddedNodes(records: seq<Payload>, noOps: set<int>): set<Uid> {
    set i | 0 <= i < |records| && Kept(records, noOps, i) && records[i].AddNode? :: records[i].uid
  }

  ghost function NewLinks(records: seq<Payload>, noOps: set<int>): set<seq<Uid>> {
    set i | 0 <= i < |records| && Kept(records, noOps, i) && records[i].AddEdge? :: Endpoints(records[i].edge)
  }

  ghost function EndsOf(links: set<seq<Uid>>): set<Uid> {
    set l, u | l in links && u in l :: u
  }

  ghost predicate HasAdd(records: seq<Payload>, noOps: set<int>) {
    exists i :: Kept(records, noOps, i) && (records[i].AddNode? || records[i].AddEdge?)
  }

  ghost predicate Touches(links: set<seq<Uid>>, v: View) {
    exists l, u :: l in links && u in l && u in v.nodes
  }

  /** The additions form one weakly connected graph, and one of its edges uses a node the view already had. */
  ghost predicate ConnectivityFine(records: seq<Payload>, v: View, noOps: set<int>) {
    HasAdd(records, noOps) ==>
      var links := NewLinks(records, noOps);
      Touches(links, v) && Connected(AddedNodes(records, noOps) + EndsOf(links), links)
  }

  ghost function ConnectivityProblems(records: seq<Payload>, v: View, noOps: set<int>): seq<Problem> {
    var links := NewLinks(records, noOps);
    if !HasAdd(records, noOps) then []
    else
      (if Touches(links, v) then [] else [TouchesNothing]) +
      (if Connected(AddedNodes(records, noOps) + EndsOf(links), links) then [] else [Disconnected])
  }

  lemma ConnectivityEmpty(records: seq<Payload>, v: View, noOps: set<int>)
    ensures ConnectivityProblems(records, v, noOps) == [] <==> ConnectivityFine(records, v, noOps)
  {
  }

  method Enumerate(s: set<Uid>) returns (r: seq<Uid>)
    ensures forall u :: u in r <==> u in s
  {
    r := [];
    var todo := s;
    while todo != {}
      invariant todo <= s
      invariant forall u :: u in r <==> u in s && u !in todo
      decreases todo
    {
      var u :| u in todo;
      r := r + [u];
      todo := todo - {u};
    }
  }

  type Adjacency = map<Uid, set<Uid>>

  /** Neighbours are the other ends of the links. */
  ghost predicate Neighbours(adj: Adjacency, nodes: set<Uid>, links: set<seq<Uid>>) {
    && adj.Keys == nodes
    && forall a, b :: a in adj ==> (b in adj[a] <==> a != b && Joined(links, a, b))
  }

  ghost predicate Sound(adj: Adjacency, nodes: set<Uid>, links: set<seq<Uid>>) {
    && adj.Keys == nodes
    && forall a, b :: a in adj && b in adj[a] ==> a != b && Joined(links, a, b)
  }

  ghost predicate Covers(adj: Adjacency, l: seq<Uid>, i: nat)
    requires i <= |l|
  {
    forall j, k :: 0 <= j < i && 0 <= k < |l| && l[j] != l[k] ==> l[j] in adj && l[k] in adj[l[j]]
  }

  ghost predicate Wider(adj: Adjacency, adj': Adjacency) {
    adj.Keys == adj'.Keys && forall a :: a in adj ==> adj[a] <= adj'[a]
  }

  /** The two inner loops over the endpoints of one edge. */
  method Connect(adj: Adjacency, nodes: set<Uid>, ghost links: set<seq<Uid>>, l: seq<Uid>) returns (out: Adjacency)
    requires Sound(adj, nodes, links) && Inside(nodes, links) && l in links
    ensures Sound(out, nodes, links) && Wider(adj, out) && Covers(out, l, |l|)
  {
    out := adj;
    for i := 0 to |l|
      invariant Sound(out, nodes, links) && Wider(adj, out) && Covers(out, l, i)
    {
      var a := l[i];
      for j := 0 to |l|
        invariant Sound(out, nodes, links) && Wider(adj, out) && Covers(out, l, i)
        invariant forall k :: 0 <= k < j && l[k] != a ==> a in out && l[k] in out[a]
      {
        var b := l[j];
        if a != b {
          assert Joined(links, a, b) && Joined(links, b, a);
          out := out[a := out[a] + {b}];
          out := out[b := out[b] + {a}];
        }
      }
    }
  }

  method BuildAdjacency(nodes: set<Uid>, edges: seq<seq<Uid>>, ghost links: set<seq<Uid>>)
    returns (adj: Adjacency)
    requires links == (set l | l in edges) && Inside(nodes, links)
    ensures Neighbours(adj, nodes, links)
  {
    adj := map n | n in nodes :: {};
    for i := 0 to |edges|
      invariant Sound(adj, nodes, links)
      invariant forall k :: 0 <= k < i ==> Covers(adj, edges[k], |edges[k]|)
    {
      ghost var before := adj;
      assert edges[i] in links;
      adj := Connect(adj, nodes, links, edges[i]);
      forall k | 0 <= k < i ensures Covers(adj, edges[k], |edges[k]|) {
        assert Covers(before, edges[k], |edges[k]|);
      }
    }
    forall a, b | a in adj && a != b && Joined(links, a, b) ensures b in adj[a] {
      var l :| l in links && a in l && b in l;
      var k :| 0 <= k < |edges| && edges[k] == l;
      assert Covers(adj, edges[k], |edges[k]|);
      var i :| 0 <= i < |l| && l[i] == a;
      var j :| 0 <= j < |l| && l[j] == b;
      assert edges[k][i] != edges[k][j];
    }
  }

  /** The depth-first search: exactly what is reached from the start. */
  method Component(nodes: set<Uid>, ghost links: set<seq<Uid>>, adj: Adjacency, start: Uid) returns (seen: set<Uid>)
    requires Neighbours(adj, nodes, links) && Inside(nodes, links) && start in nodes
    ensures seen <= nodes && start in seen && Closed(seen, links)
    ensures forall u :: u in seen ==> Reaches(links, start, u)
  {
    seen := {};
    var stack := [start];
    ReachesItself(links, start);
    while stack != []
      invariant seen <= nodes
      invariant forall u :: u in seen || u in stack ==> u in nodes && Reaches(links, start, u)
      invariant start in seen || start in stack
      invariant forall u, w :: u in seen && w in adj[u] ==> w in seen || w in stack
      decreases nodes - seen, |stack|
    {
      var n := stack[|stack| - 1];
      ghost var before := stack;
      stack := stack[..|stack| - 1];
      assert forall u :: u in before ==> u == n || u in stack;
      if n in seen {
        continue;
      }
      seen := seen + {n};
      var more := Enumerate(adj[n] - seen);
      forall w | w in more ensures w in nodes && Reaches(links, start, w) {
        assert Joined(links, n, w);
        ReachesNext(links, start, n, w);
      }
      stack := stack + more;
    }
    forall l, a, b | l in links && a in l && b in l && a in seen ensures b in seen {
      assert Joined(links, a, b);
    }
  }

  /** Whether anything is added, which nodes, and the endpoints of which edges. */
  method Collect(records: seq<Payload>, noOps: set<int>)
    returns (hasAdd: bool, added: set<Uid>, edges: seq<seq<Uid>>)
    ensures hasAdd <==> HasAdd(records, noOps)
    ensures added == AddedNodes(records, noOps)
    ensures (set l | l in edges) == NewLinks(records, noOps)
  {
    hasAdd, added, edges := false, {}, [];
    for i := 0 to |records|
      invariant hasAdd <==> exists k :: k < i && Kept(records, noOps, k) && (records[k].AddNode? || records[k].AddEdge?)
      invariant added == set k | 0 <= k < i && Kept(records, noOps, k) && records[k].AddNode? :: records[k].uid
      invariant forall l :: l in edges <==>
                  exists k :: 0 <= k < i && Kept(records, noOps, k) && records[k].AddEdge? &&
                              Endpoints(records[k].edge) == l
    {
      if i !in noOps {
        assert Kept(records, noOps, i);
        if records[i].AddNode? {
          hasAdd := true;
          added := added + {records[i].uid};
        } else if records[i].AddEdge? {
          hasAdd := true;
          edges := edges + [Endpoints(records[i].edge)];
        }
      }
    }
  }

  /** Rule 1: some edge has an endpoint the view already holds. */
  method TouchesExisting(edges: seq<seq<Uid>>, v: View, ghost links: set<seq<Uid>>) returns (touches: bool)
    requires links == set l | l in edges
    ensures touches <==> Touches(links, v)
  {
    assert forall l :: l in links <==> l in edges;
    touches := exists l :: l in edges && exists u :: u in l && u in v.nodes;
  }

  /** Rule 2: the added nodes and the endpoints of the added edges are weakly connected. */
  method AdditionsConnected(added: set<Uid>, edges: seq<seq<Uid>>, ghost links: set<seq<Uid>>) returns (whole: bool)
    requires links == set l | l in edges
    ensures whole <==> Connected(added + EndsOf(links), links)
  {
    var graphNodes := added + set l, u | l in edges && u in l :: u;
    assert graphNodes == added + EndsOf(links) by {
      assert forall l :: l in links <==> l in edges;
    }
    var adj := BuildAdjacency(graphNodes, edges, links);
    whole := true;
    if graphNodes != {} {
      var start :| start in graphNodes;
      var seen := Component(graphNodes, links, adj, start);
      ComponentDecides(graphNodes, links, seen, start);
      whole := seen == graphNodes;
    }
  }

  method CheckConnectivity(records: seq<Payload>, v: View, noOps: set<int>) returns (problems: seq<Problem>)
    ensures problems == ConnectivityProblems(records, v, noOps)
  {
    problems := [];
    var hasAdd, added, edges := Collect(records, noOps);
    if !hasAdd {
      return;
    }
    ghost var links := NewLinks(records, noOps);
    var touches := TouchesExisting(edges, v, links);
    if !touches {
      problems := problems + [TouchesNothing];
    }
    var whole := AdditionsConnected(added, edges, links);
    if !whole {
      problems := problems + [Disconnected];
    }
  }

  lemma ComponentDecides(nodes: set<Uid>, links: set<seq<Uid>>, seen: set<Uid>, start: Uid)
    requires seen <= nodes && start in seen && Closed(seen, links)
    requires forall u :: u in seen ==> Reaches(links, start, u)
    ensures seen == nodes <==> Connected(nodes, links)
  {
    if seen == nodes {
      ConnectedFromOne(nodes, links, start);
    }
    if Connected(nodes, links) {
      ClosedIsAll(nodes, links, seen, start);
    }
  }
}
