/** What accepted proposals leave in the log (Store.propose and Store.push of omai/store.py): proposing again, stopping
    part-way through, and what verify then finds. */
module Proposals {
  import opened MapRecords
  import opened Gates
  import opened Contributions
  import opened Reproposal
  import opened MapStore

  // ---------------------------------------------------------------- the log of a proposal

  lemma ReplayOfPrefix(before: seq<Record>, log: seq<Record>, pushed: seq<Payload>, k: nat)
    requires Appends(before, log, pushed) && |before| <= k <= |log|
    ensures ReplayOf(log[..k]) == AppliedAll(ReplayOf(before), pushed[..k - |before|])
  {
    var part := pushed[..k - |before|];
    assert PayloadsOf(log[..k]) == PayloadsOf(log)[..k];
    assert (PayloadsOf(before) + pushed)[..k] == PayloadsOf(before) + part;
    AppliedConcat(EMPTY_VIEW, PayloadsOf(before), part);
  }

  lemma ReplayOfAppended(before: seq<Record>, log: seq<Record>, pushed: seq<Payload>)
    requires Appends(before, log, pushed)
    ensures ReplayOf(log) == AppliedAll(ReplayOf(before), pushed)
  {
    ReplayOfPrefix(before, log, pushed, |log|);
    assert log[..|log|] == log && pushed[..|pushed|] == pushed;
  }

  /** A crash after any number of the pushes leaves no edge without its endpoints. */
  lemma CrashLeavesEdgesClosed(before: seq<Record>, log: seq<Record>, records: seq<Payload>, rules: Rules, k: nat)
    requires Admissible(records, ReplayOf(before), rules) && EdgeClosed(ReplayOf(before))
    requires Appends(before, log, Pushed(records, ReplayOf(before), rules)) && |before| <= k <= |log|
    ensures EdgeClosed(ReplayOf(log[..k]))
  {
    ReplayOfPrefix(before, log, Pushed(records, ReplayOf(before), rules), k);
    EveryPrefixEdgeClosed(records, ReplayOf(before), rules, k - |before|);
  }

  lemma {:induction false} KeptAreAdds(records: seq<Payload>, noOps: set<int>, k: nat)
    requires k <= |records| && OnlyAdds(records)
    ensures OnlyAdds(KeptOf(records, noOps, k))
  {
    if k > 0 { KeptAreAdds(records, noOps, k - 1); }
  }

  lemma AddsMentionNothing(before: seq<Record>, log: seq<Record>, pushed: seq<Payload>)
    requires Appends(before, log, pushed) && OnlyAdds(pushed)
    requires forall i :: 0 <= i < |before| ==> MentionsKnown(before, i)
    ensures forall i :: 0 <= i < |log| ==> MentionsKnown(log, i)
  {
    forall i, u | 0 <= i < |log| && Names(log[i].body.payload, u) ensures AddedBefore(log, i, u) {
      assert PayloadsOf(log)[i] == (PayloadsOf(before) + pushed)[i];
      assert i < |before| && log[i] == before[i] && MentionsKnown(before, i);
      var j :| 0 <= j < i && AddsUid(before[j].body.payload, u);
      assert log[j] == before[j];
    }
  }

  /** verify does not surface a crash between two pushes: after any number j of completed pushes of an accepted
      contribution of adds, onto a log without dangling uids, it finds nothing. */
  lemma CrashBetweenPushesIsSilent(before: seq<Record>, log: seq<Record>, records: seq<Payload>, rules: Rules, j: nat,
                                   hash: Hash, nodes: Mirror<Nodes>, edges: Mirror<Edges>)
    requires Admissible(records, ReplayOf(before), rules) && OnlyAdds(records)
    requires forall i :: 0 <= i < |before| ==> MentionsKnown(before, i)
    requires j <= |Pushed(records, ReplayOf(before), rules)| && log != []
    requires Appends(before, log, Pushed(records, ReplayOf(before), rules)[..j])
    requires ChainIntact(log, hash) && Mirrors(log, nodes, edges)
    ensures Findings(log, hash, nodes, edges) == []
  {
    var pushed := Pushed(records, ReplayOf(before), rules);
    KeptAreAdds(records, NoOps(records, ReplayOf(before), rules), |records|);
    AddsMentionNothing(before, log, pushed[..j]);
    CleanIffNoDanglingUid(log, hash, nodes, edges);
  }

  /** An add of this node, or of this edge, as a contribution writes it. */
  function NodeAdd(rules: Rules, n: NodeIdentity): Payload { AddNode(rules.nodeUid(n), n, map[]) }

  function EdgeAdd(rules: Rules, e: EdgeIdentity): Payload { AddEdge(rules.edgeUid(e), e, map[]) }

  /** An edge from one input to one output. */
  predicate Joins(e: EdgeIdentity, a: Uid, b: Uid) { e.inputs == [a] && e.outputs == [b] }

  /** One such input, for any uid functions that tell its two nodes apart and any per-record gates that accept its two
      records: the map has a node a, an accepted contribution adds a node b and an edge from a to b, and the process
      stops after the first of the two pushes. */
  lemma SilentCrash(hash: Hash, rules: Rules, a: NodeIdentity, b: NodeIdentity, e: EdgeIdentity)
    returns (before: seq<Record>, log: seq<Record>)
    requires rules.nodeUid(a) != rules.nodeUid(b) && Joins(e, rules.nodeUid(a), rules.nodeUid(b))
    requires SilentOn(rules, NodeAdd(rules, b)) && SilentOn(rules, EdgeAdd(rules, e))
    ensures PayloadsOf(before) == [NodeAdd(rules, a)] && ChainIntact(before, hash)
    ensures var records := [NodeAdd(rules, b), EdgeAdd(rules, e)];
            && Admissible(records, ReplayOf(before), rules) && Pushed(records, ReplayOf(before), rules) == records
            && Appends(before, log, records[..1])
    ensures Findings(log, hash, Holds(ReplayOf(log).nodes), Holds(ReplayOf(log).edges)) == []
  {
    var records := [NodeAdd(rules, b), EdgeAdd(rules, e)];
    before := [NextRecord([], hash, NodeAdd(rules, a), "", "", "")];
    log := before + [NextRecord(before, hash, records[0], "", "", "")];
    ChainGrows([], hash, NodeAdd(rules, a), "", "", "");
    assert [] + before == before;
    ChainGrows(before, hash, records[0], "", "", "");
    ReplayOfOne(before[0]);
    TwoAddsAdmissible(records, ReplayOf(before), rules, rules.nodeUid(a), b, e);
    AppendsOne(before, before, log[1], []);
    assert [] + [records[0]] == records[..1];
    CrashBetweenPushesIsSilent(before, log, records, rules, 1, hash, Holds(ReplayOf(log).nodes),
                               Holds(ReplayOf(log).edges));
  }

  lemma ReplayOfOne(r: Record)
    ensures ReplayOf([r]) == Applied(EMPTY_VIEW, r.body.payload)
  {
    ReplayStep([r], 0);
    assert [r][..0] == [] && [r][..1] == [r] && PayloadsOf([]) == [];
  }

  lemma TwoAddsAdmissible(records: seq<Payload>, v: View, rules: Rules, a: Uid, b: NodeIdentity, e: EdgeIdentity)
    requires records == [NodeAdd(rules, b), EdgeAdd(rules, e)] && Joins(e, a, rules.nodeUid(b))
    requires a in v.nodes && rules.nodeUid(b) !in v.nodes && rules.edgeUid(e) !in v.edges
    requires SilentOn(rules, records[0]) && SilentOn(rules, records[1])
    ensures Admissible(records, v, rules) && Pushed(records, v, rules) == records
  {
    var noOps, ub := NoOps(records, v, rules), rules.nodeUid(b);
    assert noOps == {};
    assert KeptOf(records, noOps, 0) == [] && KeptOf(records, noOps, 1) == [records[0]];
    assert Endpoints(e) == [a, ub];
    assert records[0].AddNode? && records[0].uid == ub;
    assert Available(records, v, 1, a) && Available(records, v, 1, ub);
    var links := NewLinks(records, noOps);
    assert Kept(records, noOps, 1) && Endpoints(records[1].edge) == [a, ub];
    assert [a, ub] in links && [a, ub][0] == a && [a, ub][1] == ub;
    OneLinkConnects(AddedNodes(records, noOps) + EndsOf(links), links, a, ub);
  }

  lemma OneLinkConnects(nodes: set<Uid>, links: set<seq<Uid>>, a: Uid, b: Uid)
    requires [a, b] in links && nodes <= {a, b}
    ensures Connected(nodes, links)
  {
    assert [a, b][0] == a && [a, b][1] == b;
    forall x, y | x in nodes && y in nodes ensures exists p :: Path(links, p) && p[0] == x && p[|p| - 1] == y {
      assert Joined(links, x, y);
      assert Path(links, [x, y]) && [x, y][0] == x && [x, y][1] == y;
    }
  }

  /** A crash inside a push, after the append and before the mirror files are rewritten, shows except when the last
      record changes nothing in the view and mentions no unknown uid. */
  lemma CrashInsidePushShows(log: seq<Record>, r: Record, hash: Hash, nodes: Mirror<Nodes>, edges: Mirror<Edges>)
    requires ChainIntact(log + [r], hash) && Mirrors(log, nodes, edges)
    requires forall i :: 0 <= i < |log| ==> MentionsKnown(log, i)
    ensures Findings(log + [r], hash, nodes, edges) == [] <==>
            log != [] && ReplayOf(log + [r]) == ReplayOf(log) && MentionsKnown(log + [r], |log|)
  {
    GrownFindings(log, r, hash, nodes, edges);
  }

  /** A crash after nodes.json was rewritten and before edges.json is shows except when the last record leaves the edges
      as they were and mentions no unknown uid, whatever it does to the nodes. */
  lemma CrashBetweenFilesShows(log: seq<Record>, r: Record, hash: Hash, nodes: Mirror<Nodes>, edges: Mirror<Edges>)
    requires ChainIntact(log + [r], hash) && Mirrors(log, nodes, edges)
    requires forall i :: 0 <= i < |log| ==> MentionsKnown(log, i)
    ensures Findings(log + [r], hash, Holds(ReplayOf(log + [r]).nodes), edges) == [] <==>
            log != [] && ReplayOf(log + [r]).edges == ReplayOf(log).edges && MentionsKnown(log + [r], |log|)
  {
    GrownFindings(log, r, hash, Holds(ReplayOf(log + [r]).nodes), edges);
  }

  lemma GrownFindings(log: seq<Record>, r: Record, hash: Hash, nodes: Mirror<Nodes>, edges: Mirror<Edges>)
    requires ChainIntact(log + [r], hash) && forall i :: 0 <= i < |log| ==> MentionsKnown(log, i)
    ensures Findings(log + [r], hash, nodes, edges) == [] <==>
            && nodes == Holds(ReplayOf(log + [r]).nodes) && edges == Holds(ReplayOf(log + [r]).edges)
            && MentionsKnown(log + [r], |log|)
  {
    var grown := log + [r];
    ChainFindingsEmpty(grown, hash, |grown|);
    NoUnknowns(grown, |grown|);
    forall i | 0 <= i < |log| ensures MentionsKnown(grown, i) {
      MentionsStay(log, r, i);
    }
    FourEmpty(ChainFindings(grown, hash, |grown|), AsFindings(UnknownsUpTo(grown, |grown|)),
              FileFindings("nodes.json", nodes, ReplayOf(grown).nodes),
              FileFindings("edges.json", edges, ReplayOf(grown).edges));
  }

  lemma MentionsStay(log: seq<Record>, r: Record, i: nat)
    requires i < |log| && MentionsKnown(log, i)
    ensures MentionsKnown(log + [r], i)
  {
    var grown := log + [r];
    forall u | Names(grown[i].body.payload, u) ensures AddedBefore(grown, i, u) {
      var j :| 0 <= j < i && AddsUid(log[j].body.payload, u);
      assert grown[j] == log[j];
    }
  }

  lemma FourEmpty(a: seq<Finding>, b: seq<Finding>, c: seq<Finding>, d: seq<Finding>)
    ensures a + b + c + d == [] <==> a == [] && b == [] && c == [] && d == []
  {
    assert |a + b + c + d| == |a| + |b| + |c| + |d|;
  }

  /** The whole map is still weakly connected once the proposal has landed. */
  lemma ProposalKeepsMapConnected(before: seq<Record>, log: seq<Record>, records: seq<Payload>, rules: Rules)
    requires Admissible(records, ReplayOf(before), rules) && OneIdentityPerUid(records)
    requires EdgeClosed(ReplayOf(before)) && MapConnected(ReplayOf(before))
    requires Appends(before, log, Pushed(records, ReplayOf(before), rules))
    ensures MapConnected(ReplayOf(log)) && EdgeClosed(ReplayOf(log))
  {
    var pushed := Pushed(records, ReplayOf(before), rules);
    ReplayOfAppended(before, log, pushed);
    assert pushed[..|pushed|] == pushed;
    MapStaysConnected(records, ReplayOf(before), rules);
    EveryPrefixEdgeClosed(records, ReplayOf(before), rules, |pushed|);
  }

  lemma LandedAgain(before: seq<Record>, log: seq<Record>, records: seq<Payload>, rules: Rules)
    requires Admissible(records, ReplayOf(before), rules) && OneIdentityPerUid(records) && OnlyAdds(records)
    requires Appends(before, log, Pushed(records, ReplayOf(before), rules))
    ensures Admissible(records, ReplayOf(log), rules) && Pushed(records, ReplayOf(log), rules) == []
  {
    var pushed := Pushed(records, ReplayOf(before), rules);
    ReplayOfAppended(before, log, pushed);
    ReproposalIsNoOp(records, ReplayOf(before), rules);
  }

  /** A proposal stopped after j of its pushes is accepted again if and only if what it still has to add is in one
      piece, and then ends with the identities an uninterrupted run stores. */
  lemma AcceptedAfterCrash(before: seq<Record>, log: seq<Record>, records: seq<Payload>, rules: Rules, j: nat)
    requires Admissible(records, ReplayOf(before), rules) && OneIdentityPerUid(records)
    requires j <= |Pushed(records, ReplayOf(before), rules)|
    requires Appends(before, log, Pushed(records, ReplayOf(before), rules)[..j])
    ensures var done := Pushed(records, ReplayOf(before), rules)[..j];
            Admissible(records, ReplayOf(log), rules) <==>
            RestConnected(records, Settled(records, ReplayOf(before), rules, done))
    ensures forall resumed, whole ::
              Appends(log, resumed, Pushed(records, ReplayOf(log), rules)) &&
              Appends(before, whole, Pushed(records, ReplayOf(before), rules)) ==>
                NodeIds(ReplayOf(resumed)) == NodeIds(ReplayOf(whole)) &&
                EdgeIds(ReplayOf(resumed)) == EdgeIds(ReplayOf(whole))
  {
    var v, w := ReplayOf(before), ReplayOf(log);
    var pushed := Pushed(records, v, rules);
    ReplayOfAppended(before, log, pushed[..j]);
    ReadmittedIffRestConnected(records, v, rules, j);
    ResumedLandsTheSame(records, v, rules, j);
    forall resumed, whole |
      Appends(log, resumed, Pushed(records, w, rules)) && Appends(before, whole, pushed)
      ensures NodeIds(ReplayOf(resumed)) == NodeIds(ReplayOf(whole)) &&
              EdgeIds(ReplayOf(resumed)) == EdgeIds(ReplayOf(whole))
    {
      ReplayOfAppended(log, resumed, Pushed(records, w, rules));
      ReplayOfAppended(before, whole, pushed);
    }
  }

  lemma AppendsNothing(before: seq<Record>, log: seq<Record>)
    requires Appends(before, log, [])
    ensures log == before
  {
    assert |PayloadsOf(log)| == |PayloadsOf(before)|;
  }

  /** An accepted contribution of adds, proposed again: accepted, nothing pushed, the head unchanged. */
  method ProposeAgain(store: Store, records: seq<Payload>, rules: Rules, author: string, date: string, prefix: string)
    returns (first: Proposal, second: Proposal)
    requires OneIdentityPerUid(records) && OnlyAdds(records)
    requires Admissible(records, ReplayOf(store.log), rules)
    modifies store
    ensures first.Landed? && second == first && store.Head() == first.head
    ensures Appends(old(store.log), store.log, Pushed(records, ReplayOf(old(store.log)), rules))
  {
    ghost var before := store.log;
    first := store.Propose(records, rules, author, date, prefix);
    ghost var landed := store.log;
    LandedAgain(before, landed, records, rules);
    second := store.Propose(records, rules, author, date, prefix);
    AppendsNothing(landed, store.log);
  }
}
