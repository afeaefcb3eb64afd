/** What the gates of omai/gates.py ask of a contribution, in terms of its records and of the inputs and outputs of its
    edges alone. */
module Admission {
  import opened MapRecords
  import opened Gates
  import opened Contributions

  /** An add of an element the view does not hold. */
  ghost predicate NewAt(records: seq<Payload>, v: View, i: int) {
    && 0 <= i < |records|
    && ((records[i].AddNode? && records[i].uid !in v.nodes) || (records[i].AddEdge? && records[i].uid !in v.edges))
  }

  ghost predicate NewNode(records: seq<Payload>, v: View, u: Uid) {
    exists i :: NewAt(records, v, i) && records[i].AddNode? && records[i].uid == u
  }

  /** A new edge has both nodes among its inputs and outputs. */
  ghost predicate NewJoin(records: seq<Payload>, v: View, a: Uid, b: Uid) {
    exists i :: NewAt(records, v, i) && records[i].AddEdge? && IsEnd(records[i].edge, a) && IsEnd(records[i].edge, b)
  }

  ghost predicate NewPath(records: seq<Payload>, v: View, p: seq<Uid>) {
    p != [] && forall i :: 0 <= i < |p| - 1 ==> NewJoin(records, v, p[i], p[i + 1])
  }

  ghost predicate Uids(records: seq<Payload>, v: View, rules: Rules) {
    forall i :: 0 <= i < |records| ==> !WrongUid(records[i], rules) && !Clashes(records[i], v)
  }

  /** Some new edge has a stored node at an end. */
  ghost predicate Attaches(records: seq<Payload>, v: View) {
    exists u :: u in v.nodes && NewJoin(records, v, u, u)
  }

  /** New edges lead from every new node and every end of a new edge to every other. */
  ghost predicate OnePiece(records: seq<Payload>, v: View) {
    forall a, b :: (NewNode(records, v, a) || NewJoin(records, v, a, a)) &&
                   (NewNode(records, v, b) || NewJoin(records, v, b, b)) ==>
      exists p :: NewPath(records, v, p) && p[0] == a && p[|p| - 1] == b
  }

  lemma KeptIsNew(records: seq<Payload>, v: View, rules: Rules, i: int)
    requires Uids(records, v, rules)
    ensures Kept(records, NoOps(records, v, rules), i) && (records[i].AddNode? || records[i].AddEdge?) <==>
            NewAt(records, v, i)
  {
  }

  lemma JoinedIsNew(records: seq<Payload>, v: View, rules: Rules, a: Uid, b: Uid)
    requires Uids(records, v, rules)
    ensures Joined(NewLinks(records, NoOps(records, v, rules)), a, b) <==> NewJoin(records, v, a, b)
  {
    var noOps := NoOps(records, v, rules);
    var links := NewLinks(records, noOps);
    if Joined(links, a, b) {
      var l :| l in links && a in l && b in l;
      var i :| 0 <= i < |records| && Kept(records, noOps, i) && records[i].AddEdge? && Endpoints(records[i].edge) == l;
      KeptIsNew(records, v, rules, i);
      EndpointsAre(records[i].edge, a);
      EndpointsAre(records[i].edge, b);
    }
    if NewJoin(records, v, a, b) {
      var i :| NewAt(records, v, i) && records[i].AddEdge? && IsEnd(records[i].edge, a) && IsEnd(records[i].edge, b);
      KeptIsNew(records, v, rules, i);
      EndpointsAre(records[i].edge, a);
      EndpointsAre(records[i].edge, b);
      assert Endpoints(records[i].edge) in links;
    }
  }

  lemma PathIsNew(records: seq<Payload>, v: View, rules: Rules, p: seq<Uid>)
    requires Uids(records, v, rules)
    ensures Path(NewLinks(records, NoOps(records, v, rules)), p) <==> NewPath(records, v, p)
  {
    forall i | 0 <= i < |p| - 1
      ensures Joined(NewLinks(records, NoOps(records, v, rules)), p[i], p[i + 1]) <==>
              NewJoin(records, v, p[i], p[i + 1])
    {
      JoinedIsNew(records, v, rules, p[i], p[i + 1]);
    }
  }

  lemma PlaceIsNew(records: seq<Payload>, v: View, rules: Rules, u: Uid)
    requires Uids(records, v, rules)
    ensures var noOps := NoOps(records, v, rules);
            u in AddedNodes(records, noOps) + EndsOf(NewLinks(records, noOps)) <==>
            NewNode(records, v, u) || NewJoin(records, v, u, u)
  {
    var noOps := NoOps(records, v, rules);
    JoinedIsNew(records, v, rules, u, u);
    if u in AddedNodes(records, noOps) {
      var i :| 0 <= i < |records| && Kept(records, noOps, i) && records[i].AddNode? && records[i].uid == u;
      KeptIsNew(records, v, rules, i);
    }
    if NewNode(records, v, u) {
      var i :| NewAt(records, v, i) && records[i].AddNode? && records[i].uid == u;
      KeptIsNew(records, v, rules, i);
    }
  }

  lemma TouchIsAttach(records: seq<Payload>, v: View, rules: Rules)
    requires Uids(records, v, rules)
    ensures Touches(NewLinks(records, NoOps(records, v, rules)), v) <==> Attaches(records, v)
  {
    var links := NewLinks(records, NoOps(records, v, rules));
    if Touches(links, v) {
      var l, u :| l in links && u in l && u in v.nodes;
      JoinedIsNew(records, v, rules, u, u);
      assert Joined(links, u, u);
    }
    if Attaches(records, v) {
      var u :| u in v.nodes && NewJoin(records, v, u, u);
      JoinedIsNew(records, v, rules, u, u);
    }
  }

  lemma ConnectedIsOnePiece(records: seq<Payload>, v: View, rules: Rules)
    requires Uids(records, v, rules)
    ensures var noOps := NoOps(records, v, rules);
            var links := NewLinks(records, noOps);
            Connected(AddedNodes(records, noOps) + EndsOf(links), links) <==> OnePiece(records, v)
  {
    forall p ensures Path(NewLinks(records, NoOps(records, v, rules)), p) <==> NewPath(records, v, p) {
      PathIsNew(records, v, rules, p);
    }
    forall u
      ensures u in AddedNodes(records, NoOps(records, v, rules)) + EndsOf(NewLinks(records, NoOps(records, v, rules)))
              <==> NewNode(records, v, u) || NewJoin(records, v, u, u)
    {
      PlaceIsNew(records, v, rules, u);
    }
  }

  lemma AddIsNew(records: seq<Payload>, v: View, rules: Rules)
    requires Uids(records, v, rules)
    ensures HasAdd(records, NoOps(records, v, rules)) <==> exists i :: NewAt(records, v, i)
  {
    var noOps := NoOps(records, v, rules);
    if HasAdd(records, noOps) {
      var i :| Kept(records, noOps, i) && (records[i].AddNode? || records[i].AddEdge?);
      KeptIsNew(records, v, rules, i);
    }
    if i :| NewAt(records, v, i) {
      KeptIsNew(records, v, rules, i);
    }
  }

  lemma EndsUsableIff(records: seq<Payload>, v: View)
    ensures ReachabilityFine(records, v) <==> EndsUsable(records, v)
  {
    if ReachabilityFine(records, v) {
      forall i, u | 0 <= i < |records| && records[i].AddEdge? && IsEnd(records[i].edge, u)
        ensures Available(records, v, i, u)
      {
        EndpointsAre(records[i].edge, u);
        assert EndpointsFine(records, v, i);
      }
    }
    if EndsUsable(records, v) {
      forall i, k | 0 <= i < |records| && records[i].AddEdge? && 0 <= k < |Endpoints(records[i].edge)|
        ensures Available(records, v, i, Endpoints(records[i].edge)[k])
      {
        EndpointsAre(records[i].edge, Endpoints(records[i].edge)[k]);
      }
    }
  }

  /** What the gates accept. */
  ghost predicate Acceptable(records: seq<Payload>, v: View, rules: Rules) {
    && (forall i, gate :: 0 <= i < |records| ==> rules.says(gate, records[i]) == [])
    && Uids(records, v, rules) && EndsUsable(records, v)
    && ((exists i :: NewAt(records, v, i)) ==> Attaches(records, v) && OnePiece(records, v))
  }

  lemma UidsIff(records: seq<Payload>, v: View, rules: Rules)
    ensures IdentitiesFine(records, v, rules) <==> Uids(records, v, rules)
  {
    forall i | 0 <= i < |records|
      ensures UidFits(records[i], rules) && !Collides(records[i], v) <==>
              !WrongUid(records[i], rules) && !Clashes(records[i], v)
    {
    }
  }

  lemma LocallyIff(records: seq<Payload>, rules: Rules)
    ensures LocallyFine(records, rules) <==>
            forall i, gate :: 0 <= i < |records| ==> rules.says(gate, records[i]) == []
  {
    if LocallyFine(records, rules) {
      forall i, gate: Gate | 0 <= i < |records| ensures rules.says(gate, records[i]) == [] {
        match gate
        case Registry => case Gauge => case Dimensional =>
      }
    }
  }

  /** The six gates report nothing exactly for what is acceptable in the terms of records, inputs and outputs. */
  lemma NoProblemsIffAcceptable(records: seq<Payload>, v: View, rules: Rules)
    ensures Problems(records, v, rules) == [] <==> Acceptable(records, v, rules)
  {
    NoProblemsIffAdmissible(records, v, rules);
    UidsIff(records, v, rules);
    EndsUsableIff(records, v);
    LocallyIff(records, rules);
    if Uids(records, v, rules) {
      AddIsNew(records, v, rules);
      TouchIsAttach(records, v, rules);
      ConnectedIsOnePiece(records, v, rules);
    }
  }
}
