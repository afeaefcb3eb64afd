/** omai/external_solve.py: which nodes a request's outputs can influence over the live edges of the map. */
module ExternalSolve {
  import opened MapRecords

  type EdgeEntry = Entry<EdgeIdentity>

  // ---------------------------------------------------------------- the least closed set

  ghost predicate Fires(e: EdgeEntry, reach: set<Uid>) {
    !Retired(e) && exists u :: u in e.identity.inputs && u in reach
  }

  /** One reached input of a live edge is enough to reach all its outputs. */
  ghost predicate Closed(edges: seq<EdgeEntry>, s: set<Uid>) {
    forall e :: e in edges && Fires(e, s) ==> forall u :: u in e.identity.outputs ==> u in s
  }

  ghost predicate Holds(seeds: seq<Uid>, s: set<Uid>) {
    forall u :: u in seeds ==> u in s
  }

  /** The least set that contains the seeds and is closed under live edges. */
  ghost predicate LeastClosed(edges: seq<EdgeEntry>, seeds: seq<Uid>, s: set<Uid>) {
    && Holds(seeds, s) && Closed(edges, s)
    && forall t: set<Uid> :: Holds(seeds, t) && Closed(edges, t) ==> s <= t
  }

  // ---------------------------------------------------------------- paths

  /** Neither deprecated nor replaced by a successor. */
  ghost predicate Live(e: EdgeEntry) {
    !e.deprecated && (e.supersededBy.None? || e.supersededBy.value == [])
  }

  /** A live edge leads from a to b. */
  ghost predicate Leads(edges: seq<EdgeEntry>, a: Uid, b: Uid) {
    exists e :: e in edges && Live(e) && a in e.identity.inputs && b in e.identity.outputs
  }

  ghost predicate Path(edges: seq<EdgeEntry>, seeds: seq<Uid>, p: seq<Uid>) {
    p != [] && p[0] in seeds && forall i :: 0 <= i < |p| - 1 ==> Leads(edges, p[i], p[i + 1])
  }

  ghost predicate Downstream(edges: seq<EdgeEntry>, seeds: seq<Uid>, u: Uid) {
    exists p :: Path(edges, seeds, p) && p[|p| - 1] == u
  }

  lemma SeedDownstream(edges: seq<EdgeEntry>, seeds: seq<Uid>, u: Uid)
    requires u in seeds
    ensures Downstream(edges, seeds, u)
  {
    assert Path(edges, seeds, [u]);
    assert [u][|[u]| - 1] == u;
  }

  lemma StepDownstream(edges: seq<EdgeEntry>, seeds: seq<Uid>, a: Uid, b: Uid)
    requires Downstream(edges, seeds, a) && Leads(edges, a, b)
    ensures Downstream(edges, seeds, b)
  {
    var p :| Path(edges, seeds, p) && p[|p| - 1] == a;
    var q := p + [b];
    forall i | 0 <= i < |q| - 1 ensures Leads(edges, q[i], q[i + 1]) {
      if i < |p| - 1 { assert Leads(edges, p[i], p[i + 1]); }
    }
    assert Path(edges, seeds, q) && q[|q| - 1] == b;
  }

  lemma {:induction false} PathStaysInside(edges: seq<EdgeEntry>, seeds: seq<Uid>, p: seq<Uid>, s: set<Uid>)
    requires Path(edges, seeds, p) && Holds(seeds, s) && Closed(edges, s)
    ensures p[|p| - 1] in s
  {
    if |p| > 1 {
      var init := p[..|p| - 1];
      PathStaysInside(edges, seeds, init, s);
      assert Leads(edges, p[|p| - 2], p[|p| - 1]);
      var e :| e in edges && Live(e) && p[|p| - 2] in e.identity.inputs && p[|p| - 1] in e.identity.outputs;
      assert Fires(e, s);
    }
  }

  /** Everything in the set is downstream. */
  ghost predicate Sound(edges: seq<EdgeEntry>, seeds: seq<Uid>, s: set<Uid>) {
    forall u :: u in s ==> Downstream(edges, seeds, u)
  }

  lemma SoundAndClosed(edges: seq<EdgeEntry>, seeds: seq<Uid>, s: set<Uid>)
    requires Holds(seeds, s) && Closed(edges, s) && Sound(edges, seeds, s)
    ensures LeastClosed(edges, seeds, s)
  {
    forall t: set<Uid> | Holds(seeds, t) && Closed(edges, t) ensures s <= t {
      forall u | u in s ensures u in t {
        assert Downstream(edges, seeds, u);
        var p :| Path(edges, seeds, p) && p[|p| - 1] == u;
        PathStaysInside(edges, seeds, p, t);
      }
    }
  }

  // ---------------------------------------------------------------- the fixed point

  function Outputs(edges: seq<EdgeEntry>): set<Uid> {
    set e, u | e in edges && u in e.identity.outputs :: u
  }

  /** An edge whose outputs have all been reached, or that does not fire. */
  ghost predicate Spent(e: EdgeEntry, reach: set<Uid>) {
    Fires(e, reach) ==> forall u :: u in e.identity.outputs ==> u in reach
  }

  lemma FiringIsSound(edges: seq<EdgeEntry>, seeds: seq<Uid>, reach: set<Uid>, e: EdgeEntry)
    requires e in edges && Fires(e, reach) && Sound(edges, seeds, reach)
    ensures Sound(edges, seeds, reach + set u | u in e.identity.outputs)
  {
    var a :| a in e.identity.inputs && a in reach;
    forall b | b in e.identity.outputs ensures Downstream(edges, seeds, b) {
      assert Leads(edges, a, b);
      StepDownstream(edges, seeds, a, b);
    }
  }

  /** One round over all edges. */
  method Round(edges: seq<EdgeEntry>, ghost seeds: seq<Uid>, reach0: set<Uid>) returns (reach: set<Uid>, changed: bool)
    requires Sound(edges, seeds, reach0)
    ensures Sound(edges, seeds, reach) && reach0 <= reach
    ensures changed ==> Outputs(edges) - reach < Outputs(edges) - reach0
    ensures !changed ==> reach == reach0 && Closed(edges, reach)
  {
    reach, changed := reach0, false;
    for i := 0 to |edges|
      invariant Sound(edges, seeds, reach) && reach0 <= reach
      invariant changed ==> Outputs(edges) - reach < Outputs(edges) - reach0
      invariant !changed ==> reach == reach0 && forall j :: 0 <= j < i ==> Spent(edges[j], reach)
    {
      var e := edges[i];
      if !Retired(e) && exists u :: u in e.identity.inputs && u in reach {
        var found := (set u | u in e.identity.outputs) - reach;
        FiringIsSound(edges, seeds, reach, e);
        if found != {} {
          reach := reach + found;
          changed := true;
        } else {
          forall u | u in e.identity.outputs ensures u in reach {
            assert u !in found;
          }
        }
      }
    }
  }

  /** _downstream_of: rounds until nothing changes. */
  method DownstreamOf(edges: seq<EdgeEntry>, seeds: seq<Uid>) returns (reach: set<Uid>)
    ensures LeastClosed(edges, seeds, reach)
  {
    reach := set u | u in seeds;
    var changed := true;
    forall u | u in reach ensures Downstream(edges, seeds, u) {
      SeedDownstream(edges, seeds, u);
    }
    while changed
      invariant Holds(seeds, reach) && Sound(edges, seeds, reach)
      invariant !changed ==> Closed(edges, reach)
      decreases Outputs(edges) - reach, changed
    {
      reach, changed := Round(edges, seeds, reach);
    }
    SoundAndClosed(edges, seeds, reach);
  }

  /** The least closed set is path reachability over edges that are neither deprecated nor superseded. */
  lemma LeastClosedIsDownstream(edges: seq<EdgeEntry>, seeds: seq<Uid>, s: set<Uid>)
    requires LeastClosed(edges, seeds, s)
    ensures forall u :: u in s <==> Downstream(edges, seeds, u)
  {
    var t := set u | u in s && Downstream(edges, seeds, u);
    forall u | u in seeds ensures u in t {
      SeedDownstream(edges, seeds, u);
    }
    forall e, b | e in edges && Fires(e, t) && b in e.identity.outputs ensures b in t {
      var a :| a in e.identity.inputs && a in t;
      assert Fires(e, s);
      assert Leads(edges, a, b);
      StepDownstream(edges, seeds, a, b);
    }
    forall u | Downstream(edges, seeds, u) ensures u in s {
      var p :| Path(edges, seeds, p) && p[|p| - 1] == u;
      PathStaysInside(edges, seeds, p, s);
    }
    assert s <= t;
  }

  /** The target check of validate_request. */
  method TargetDownstream(edges: seq<EdgeEntry>, outputs: seq<Uid>, target: Uid) returns (ok: bool)
    ensures ok <==> Downstream(edges, outputs, target)
  {
    var reach := DownstreamOf(edges, outputs);
    LeastClosedIsDownstream(edges, outputs, reach);
    ok := target in reach;
  }
}
