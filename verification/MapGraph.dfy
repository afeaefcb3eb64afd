/** omds/mapgraph.py: node distance on the published map by breadth-first search, capped at MAX_HOPS. */
module MapGraph {
  import opened BreadthFirst
  import opened Wrappers

  const MAX_HOPS: nat := 6
  const QUALIFIER_PENALTY: real := 0.15
  const CAP: Option<nat> := Some(MAX_HOPS)

  type Adjacency = map<string, set<string>>
  datatype Link = Link(source: Option<string>, target: Option<string>)
  datatype GraphFile = GraphFile(nodes: seq<string>, links: seq<Link>)

  /** Neighbours are nodes, and being a neighbour goes both ways. */
  ghost predicate Undirected(adj: Adjacency) {
    forall a, b :: a in adj && b in adj[a] ==> b in adj && a in adj[b]
  }

  /** h is the length of a shortest walk, or one more than the cap when no walk is short enough. */
  ghost predicate Shortest(adj: Adjacency, a: string, b: string, h: nat) {
    && h <= MAX_HOPS + 1
    && (h <= MAX_HOPS ==> Walk(adj, a, b, h))
    && forall m: nat :: m < h ==> !Walk(adj, a, b, m)
  }

  lemma ShortestUnique(adj: Adjacency, a: string, b: string, h: nat, h': nat)
    requires Shortest(adj, a, b, h) && Shortest(adj, a, b, h')
    ensures h == h'
  {
  }

  lemma NearestIsShortest(adj: Adjacency, a: string, b: string, h: nat)
    requires Nearest(adj, {b}, a, b, h) && h <= MAX_HOPS
    ensures Shortest(adj, a, b, h)
  {
    assert b in {b};
  }

  lemma NoneIsShortest(adj: Adjacency, a: string, b: string)
    requires NoneWithin(adj, {b}, a, MAX_HOPS + 1)
    ensures Shortest(adj, a, b, MAX_HOPS + 1)
  {
    assert b in {b};
  }

  lemma {:induction false} WalkFront(adj: Adjacency, a: string, c: string, b: string, n: nat)
    requires c in Next(adj, a) && Walk(adj, c, b, n)
    ensures Walk(adj, a, b, n + 1)
    decreases n
  {
    if n == 0 {
      assert Walk(adj, a, a, 0);
    } else {
      var e :| b in Next(adj, e) && Walk(adj, c, e, n - 1);
      WalkFront(adj, a, c, e, n - 1);
    }
  }

  lemma {:induction false} WalkReversed(adj: Adjacency, a: string, b: string, n: nat)
    requires Undirected(adj) && Walk(adj, a, b, n)
    ensures Walk(adj, b, a, n)
    decreases n
  {
    if n > 0 {
      var c :| b in Next(adj, c) && Walk(adj, a, c, n - 1);
      WalkReversed(adj, a, c, n - 1);
      WalkFront(adj, b, c, a, n - 1);
    }
  }

  /** The capped hop count does not depend on which end the search starts from. */
  lemma HopsSymmetric(adj: Adjacency, a: string, b: string, h: nat)
    requires Undirected(adj) && Shortest(adj, a, b, h)
    ensures Shortest(adj, b, a, h)
  {
    if h <= MAX_HOPS { WalkReversed(adj, a, b, h); }
    forall m: nat | m < h ensures !Walk(adj, b, a, m) {
      if Walk(adj, b, a, m) { WalkReversed(adj, b, a, m); }
    }
  }

  lemma {:induction false} WalkConcat(adj: Adjacency, a: string, c: string, b: string, m: nat, n: nat)
    requires Walk(adj, a, c, m) && Walk(adj, c, b, n)
    ensures Walk(adj, a, b, m + n)
    decreases n
  {
    if n > 0 {
      var e :| b in Next(adj, e) && Walk(adj, c, e, n - 1);
      WalkConcat(adj, a, c, e, m, n - 1);
    }
  }

  /** Hop counts satisfy the triangle inequality, also where the cap bites. */
  lemma HopsTriangle(adj: Adjacency, a: string, b: string, c: string, ab: nat, bc: nat, ac: nat)
    requires Shortest(adj, a, b, ab) && Shortest(adj, b, c, bc) && Shortest(adj, a, c, ac)
    ensures ac <= ab + bc
  {
    if ac > ab + bc { WalkConcat(adj, a, b, c, ab, bc); }
  }

  function Base(id: string): string {
    if id == [] || id[0] == '[' then [] else [id[0]] + Base(id[1..])
  }

  function ResolveIn(adj: Adjacency, id: string): Option<string> {
    if id in adj then Some(id) else if Base(id) in adj then Some(Base(id)) else None
  }

  /** What distance returns, given the capped hop count h of the resolved ends (None when one does not resolve). */
  function Score(a: Option<string>, b: Option<string>, h: Option<nat>): real {
    if a == b then 0.0
    else if a.None? || b.None? || h.None? then 1.0
    else
      var d := (if h.value < MAX_HOPS then h.value else MAX_HOPS) as real / MAX_HOPS as real;
      if Base(a.value) == Base(b.value) && QUALIFIER_PENALTY < d then QUALIFIER_PENALTY else d
  }

  /** The hop count of two ids, as a relation that fixes it. */
  ghost predicate HopsOf(adj: Adjacency, a: string, b: string, h: Option<nat>) {
    var ra, rb := ResolveIn(adj, a), ResolveIn(adj, b);
    if ra.None? || rb.None? then h.None? else h.Some? && Shortest(adj, ra.value, rb.value, h.value)
  }

  class Graph {
    var adj: Adjacency

    ghost predicate Valid()
      reads this
    {
      Undirected(adj)
    }

    /** None stands for a graph file that does not exist. */
    constructor (file: Option<GraphFile>)
      ensures Valid()
      ensures file.None? ==> adj == map[]
      ensures file.Some? ==> adj.Keys == set n | n in file.value.nodes
      ensures file.Some? ==> Joins(adj, file.value.links)
    {
      adj := map[];
      new;
      if file.Some? {
        var nodes, links := file.value.nodes, file.value.links;
        for i := 0 to |nodes|
          invariant adj.Keys == set n | n in nodes[..i]
          invariant forall a :: a in adj ==> adj[a] == {}
        {
          assert nodes[..i + 1] == nodes[..i] + [nodes[i]];
          if nodes[i] !in adj {
            adj := adj[nodes[i] := {}];
          }
        }
        assert nodes[..|nodes|] == nodes;
        assert Joins(adj, links[..0]);
        for i := 0 to |links|
          invariant adj.Keys == set n | n in nodes
          invariant Joins(adj, links[..i])
        {
          var Link(source, target) := links[i];
          LinkStep(adj, links, i);
          if source.Some? && target.Some? && source.value in adj && target.value in adj {
            adj := adj[source.value := adj[source.value] + {target.value}];
            adj := adj[target.value := adj[target.value] + {source.value}];
          }
        }
        assert links[..|links|] == links;
      }
    }

    method Hops(a: string, b: string) returns (h: Option<nat>)
      requires Valid()
      ensures HopsOf(adj, a, b, h)
    {
      var ra, rb := ResolveIn(adj, a), ResolveIn(adj, b);
      if ra.None? || rb.None? {
        return None;
      }
      var n := Search(ra.value, rb.value);
      h := Some(n);
    }

    /** The breadth-first search of hops, between two nodes. */
    method Search(a: string, b: string) returns (h: nat)
      requires Valid() && a in adj && b in adj
      ensures Shortest(adj, a, b, h)
    {
      if a == b {
        assert Walk(adj, a, b, 0);
        return 0;
      }
      var seen: set<string> := {a};
      var queue: Queue := [(a, 0)];
      ghost var level: nat := 0;
      Start(adj, {b}, CAP, a);
      while queue != []
        invariant seen <= adj.Keys && Frontier(adj, {b}, CAP, a, seen, queue, level, {})
        decreases adj.Keys - seen, |queue|
      {
        var cur, d := queue[0].0, queue[0].1;
        NextLevel(adj, {b}, CAP, a, seen, queue, level);
        Pop(adj, {b}, CAP, a, seen, queue);
        assert Placed(adj, a, seen, cur, d);
        assert adj[cur] <= adj.Keys;
        level := d;
        queue := queue[1..];
        if d >= MAX_HOPS {
          continue;
        }
        ghost var before := seen;
        var found;
        found, seen, queue := Visit(a, b, seen, queue, cur, d);
        if found {
          return d + 1;
        }
        assert seen != before ==> exists v :: v in seen && v !in before;
      }
      h := MAX_HOPS + 1;
      Exhausted(adj, {b}, CAP, a, seen, level, h);
      NoneIsShortest(adj, a, b);
    }

    /** The inner loop: the neighbours of one node. */
    method Visit(ghost a: string, b: string, seen: set<string>, queue: Queue, cur: string, d: nat)
      returns (found: bool, seen': set<string>, queue': Queue)
      requires Frontier(adj, {b}, CAP, a, seen, queue, d, {cur}) && d < MAX_HOPS
      requires cur in adj && adj[cur] <= adj.Keys && seen <= adj.Keys
      ensures found ==> Shortest(adj, a, b, d + 1)
      ensures !found ==> Frontier(adj, {b}, CAP, a, seen', queue', d, {}) && seen' <= adj.Keys
      ensures seen <= seen' && (seen' == seen ==> queue' == queue)
    {
      seen', queue' := seen, queue;
      var todo := adj[cur];
      while todo != {}
        invariant adj[cur] <= todo + seen' && todo <= adj[cur]
        invariant Frontier(adj, {b}, CAP, a, seen', queue', d, {cur}) && seen' <= adj.Keys
        invariant seen <= seen' && (seen' == seen ==> queue' == queue)
      {
        var nxt :| nxt in todo;
        todo := todo - {nxt};
        if nxt == b {
          Found(adj, {b}, CAP, a, seen', queue', d, cur, b);
          NearestIsShortest(adj, a, b, d + 1);
          return true, seen', queue';
        }
        if nxt !in seen' {
          Enqueue(adj, {b}, CAP, a, seen', queue', d, cur, nxt);
          seen' := seen' + {nxt};
          queue' := Appended(queue', nxt, d);
        }
      }
      DoneExpanding(adj, {b}, CAP, a, seen', queue', d, cur);
      found := false;
    }

    method Distance(a: Option<string>, b: Option<string>) returns (d: real)
      requires Valid()
      ensures DistanceOf(adj, a, b, d)
    {
      assert a.None? || b.None? ==> Linked(adj, a, b, None);
      if a.None? && b.None? {
        return 0.0;
      }
      if a.None? || b.None? {
        return 1.0;
      }
      if a == b {
        ghost var same := Hops(a.value, b.value);
        assert Linked(adj, a, b, same);
        return 0.0;
      }
      var h := Hops(a.value, b.value);
      assert Linked(adj, a, b, h);
      if h.None? {
        return 1.0;
      }
      d := (if h.value < MAX_HOPS then h.value else MAX_HOPS) as real / MAX_HOPS as real;
      if Base(a.value) == Base(b.value) {
        d := if d <= QUALIFIER_PENALTY then d else QUALIFIER_PENALTY;
      }
    }
  }

  // ---------------------------------------------------------------- the normalized distance

  ghost predicate DistanceOf(adj: Adjacency, a: Option<string>, b: Option<string>, d: real) {
    exists h: Option<nat> :: Linked(adj, a, b, h) && d == Score(a, b, h)
  }

  ghost predicate Linked(adj: Adjacency, a: Option<string>, b: Option<string>, h: Option<nat>) {
    a.Some? && b.Some? ==> HopsOf(adj, a.value, b.value, h)
  }

  /** distance is symmetric and within [0, 1]. */
  lemma DistanceSymmetric(adj: Adjacency, a: Option<string>, b: Option<string>, d: real)
    requires Undirected(adj) && DistanceOf(adj, a, b, d)
    ensures DistanceOf(adj, b, a, d) && 0.0 <= d <= 1.0
  {
    var h: Option<nat> :| Linked(adj, a, b, h) && d == Score(a, b, h);
    if a.Some? && b.Some? && h.Some? {
      HopsSymmetric(adj, ResolveIn(adj, a.value).value, ResolveIn(adj, b.value).value, h.value);
    }
    assert Linked(adj, b, a, h) && d == Score(b, a, h);
  }

  /** Which ids are at distance zero, and what one call returns is the only value the relation allows. */
  lemma DistanceZero(adj: Adjacency, a: Option<string>, b: Option<string>, d: real)
    requires DistanceOf(adj, a, b, d)
    ensures d == 0.0 <==>
            a == b || (a.Some? && b.Some? && ResolveIn(adj, a.value).Some? &&
                       ResolveIn(adj, a.value) == ResolveIn(adj, b.value))
    ensures forall d' :: DistanceOf(adj, a, b, d') ==> d' == d
  {
    var h: Option<nat> :| Linked(adj, a, b, h) && d == Score(a, b, h);
    if a.Some? && b.Some? && h.Some? {
      var ra, rb := ResolveIn(adj, a.value).value, ResolveIn(adj, b.value).value;
      assert Walk(adj, ra, rb, 0) <==> ra == rb;
      assert h.value == 0 <==> ra == rb;
    }
    forall d' | DistanceOf(adj, a, b, d') ensures d' == d {
      var h': Option<nat> :| Linked(adj, a, b, h') && d' == Score(a, b, h');
    }
  }

  /** The base of an id ends before its first bracket. */
  lemma {:induction false} BaseIs(id: string)
    ensures Base(id) <= id && '[' !in Base(id) && (|Base(id)| < |id| ==> id[|Base(id)|] == '[')
  {
    if id != [] && id[0] != '[' {
      BaseIs(id[1..]);
      assert id[..|Base(id)|] == [id[0]] + id[1..][..|Base(id[1..])|];
    }
  }

  /** An id that is no node of the graph stands for the node whose id it extends by a qualifier in brackets. */
  ghost predicate StandsFor(adj: Adjacency, id: string, r: string) {
    && r in adj
    && if id in adj then r == id
       else r <= id && '[' !in r && (|r| < |id| ==> id[|r|] == '[')
  }

  lemma BracketPast(id: string, a: string, b: string)
    requires a <= id && b <= id && (|a| < |id| ==> id[|a|] == '[')
    ensures |a| < |b| ==> '[' in b
  {
    if |a| < |b| { assert b[|a|] == id[|a|]; }
  }

  lemma Resolves(adj: Adjacency, id: string, r: string)
    ensures ResolveIn(adj, id) == Some(r) <==> StandsFor(adj, id, r)
  {
    BaseIs(id);
    if r <= id && '[' !in r && (|r| < |id| ==> id[|r|] == '[') {
      BracketPast(id, r, Base(id));
      BracketPast(id, Base(id), r);
      assert r == id[..|r|] == Base(id);
    }
  }

  /** Between two different nodes the distance is a sixth of the hop count, at most one; it is the penalty between nodes
      of ids with one base. */
  lemma DistanceIsHops(adj: Adjacency, a: string, b: string, ra: string, rb: string, h: nat, d: real)
    requires ResolveIn(adj, a) == Some(ra) && ResolveIn(adj, b) == Some(rb) && ra != rb
    requires Shortest(adj, ra, rb, h) && DistanceOf(adj, Some(a), Some(b), d)
    ensures Base(a) != Base(b) ==> 6.0 * d == if h <= 6 then h as real else 6.0
    ensures Base(a) == Base(b) ==> 20.0 * d == 3.0
  {
    assert Linked(adj, Some(a), Some(b), Some(h));
    DistanceZero(adj, Some(a), Some(b), d);
    assert d == Score(Some(a), Some(b), Some(h)) by {
      assert DistanceOf(adj, Some(a), Some(b), Score(Some(a), Some(b), Some(h)));
    }
    assert h >= 1 by { assert Walk(adj, ra, rb, 0) <==> ra == rb; }
  }

  /** The module's documentation says two ids that share only the base name differ by the qualifier penalty. The
      code agrees exactly when they resolve to two different nodes; ids that fall back to one node are at distance
      zero, and ids that do not both resolve at distance one. */
  lemma QualifierPenalty(adj: Adjacency, a: string, b: string, d: real)
    requires a != b && Base(a) == Base(b)
    requires DistanceOf(adj, Some(a), Some(b), d)
    ensures var ra, rb := ResolveIn(adj, a), ResolveIn(adj, b);
            && (d == QUALIFIER_PENALTY <==> ra.Some? && rb.Some? && ra != rb)
            && (d == 0.0 <==> ra.Some? && ra == rb)
            && (d == 1.0 <==> ra.None? || rb.None?)
  {
    DistanceZero(adj, Some(a), Some(b), d);
    var h: Option<nat> :| Linked(adj, Some(a), Some(b), h) && d == Score(Some(a), Some(b), h);
    if h.Some? && ResolveIn(adj, a) != ResolveIn(adj, b) {
      var hops: nat := if h.value < MAX_HOPS then h.value else MAX_HOPS;
      assert hops >= 1;
      assert hops as real >= 1.0;
    }
  }

  /** Two qualified ids off the map whose base is on it: the documented penalty is not applied. */
  lemma SharedBaseNodeIsNotPenalized()
    ensures var adj: Adjacency := map["k" := {}];
            Undirected(adj) && DistanceOf(adj, Some("k[a]"), Some("k[b]"), 0.0)
  {
    var adj: Adjacency := map["k" := {}];
    var a, b := "k[a]", "k[b]";
    assert a[0] == 'k' && a[1] == '[' && b[0] == 'k' && b[1] == '[';
    assert Base(a[1..]) == [] && Base(b[1..]) == [];
    assert Base(a) == ['k'] && Base(b) == ['k'];
    assert ResolveIn(adj, a) == Some("k") && ResolveIn(adj, b) == Some("k");
    assert Walk(adj, "k", "k", 0);
    assert Linked(adj, Some(a), Some(b), Some(0));
    assert a[2] != b[2];
  }

  /** Two nodes are neighbours exactly when some link names both. */
  ghost predicate Joins(adj: Adjacency, links: seq<Link>) {
    forall a, b :: a in adj ==> (b in adj[a] <==> b in adj && Joined(links, a, b))
  }

  lemma LinkStep(adj: Adjacency, links: seq<Link>, i: nat)
    requires i < |links| && Joins(adj, links[..i])
    ensures var Link(source, target) := links[i];
            if source.Some? && target.Some? && source.value in adj && target.value in adj then
              var one := adj[source.value := adj[source.value] + {target.value}];
              Joins(one[target.value := one[target.value] + {source.value}], links[..i + 1])
            else Joins(adj, links[..i + 1])
  {
    assert links[..i + 1] == links[..i] + [links[i]];
    forall a, b ensures Joined(links[..i + 1], a, b) <==>
                        Joined(links[..i], a, b) || links[i] == Link(Some(a), Some(b)) ||
                        links[i] == Link(Some(b), Some(a))
    {
      if Joined(links[..i + 1], a, b) {
        var l :| l in links[..i + 1] && (l == Link(Some(a), Some(b)) || l == Link(Some(b), Some(a)));
        assert l in links[..i] || l == links[i];
      }
      if Joined(links[..i], a, b) {
        var l :| l in links[..i] && (l == Link(Some(a), Some(b)) || l == Link(Some(b), Some(a)));
        assert l in links[..i + 1];
      }
      assert links[i] in links[..i + 1];
    }
  }

  ghost predicate Joined(links: seq<Link>, a: string, b: string) {
    exists l :: l in links && (l == Link(Some(a), Some(b)) || l == Link(Some(b), Some(a)))
  }
}
