/** omai/submap.py, layout: the boxes of a code's submap in tier columns, ordered inside a column by the longest
    chain of drawn edges that ends at a box. */
module Submap {
  import opened Wrappers
  import opened Ordering
  import opened Pigeonhole

  const BOX_W: int := 184
  const BOX_H: int := 48
  const ROW_GAP: int := 14
  const COL_W: int := 208
  const COL_GAP: int := 60
  const HEAD_H: int := 30
  const PAD: int := 12

  type Edge = (string, string)
  datatype Node = Node(id: string, tier: Option<string>)
  datatype Tier = Tier(name: string, order: Option<int>)
  datatype Graph = Graph(nodes: seq<Node>, links: seq<Edge>, tiers: seq<Tier>)
  datatype Pos = Pos(x: int, y: int, col: nat, row: nat)
  datatype Plan = Plan(shown: seq<string>, edges: seq<Edge>, depth: map<string, nat>, tiers: seq<string>,
                       pos: map<string, Pos>)

  // ---------------------------------------------------------------- what is drawn

  function Filter<T(!new)>(s: seq<T>, keep: T -> bool): (r: seq<T>)
    ensures forall x :: x in r <==> x in s && keep(x)
  {
    if s == [] then []
    else if keep(s[|s| - 1]) then Filter(s[..|s| - 1], keep) + [s[|s| - 1]]
    else Filter(s[..|s| - 1], keep)
  }

  lemma {:induction false} FilterDistinct<T(!new)>(s: seq<T>, keep: T -> bool)
    requires Distinct(s)
    ensures Distinct(Filter(s, keep))
  {
    if s != [] {
      FilterDistinct(s[..|s| - 1], keep);
      assert s[|s| - 1] !in s[..|s| - 1];
    }
  }

  function NodeIds(g: Graph): seq<string> {
    Once(Map(g.nodes, (n: Node) => n.id))
  }

  function Links(g: Graph): seq<Edge> {
    var ids := NodeIds(g);
    Filter(g.links, (l: Edge) => l.0 in ids && l.1 in ids)
  }

  /** The tier of the last node with this id; a missing or empty tier is "Other". */
  function TierOf(nodes: seq<Node>, id: string): string {
    if nodes == [] then "Other"
    else if nodes[|nodes| - 1].id == id then
      if nodes[|nodes| - 1].tier.None? || nodes[|nodes| - 1].tier.value == "" then "Other"
      else nodes[|nodes| - 1].tier.value
    else TierOf(nodes[..|nodes| - 1], id)
  }

  function Drawn(g: Graph, lit: set<string>): seq<string> {
    Filter(NodeIds(g), (i: string) => i in lit)
  }

  function Sources(g: Graph, drawn: seq<string>): seq<string> {
    Once(Map(Filter(Links(g), (l: Edge) => l.1 in drawn && l.0 !in drawn), (l: Edge) => l.0))
  }

  function Targets(g: Graph, drawn: seq<string>): seq<string> {
    Once(Map(Filter(Links(g), (l: Edge) => l.0 in drawn && l.1 !in drawn), (l: Edge) => l.1))
  }

  /** The inputs of the drawn boxes, and their outputs when there are at most six. */
  function Context(g: Graph, drawn: seq<string>): seq<string> {
    if |drawn| >= 4 then []
    else Sources(g, drawn) + (if |Targets(g, drawn)| <= 6 then Targets(g, drawn) else [])
  }

  function Shown(g: Graph, lit: set<string>): (r: seq<string>)
    ensures Distinct(r)
  {
    var drawn := Drawn(g, lit);
    var ctx := Context(g, drawn);
    FilterDistinct(NodeIds(g), (i: string) => i in drawn || i in ctx);
    Filter(NodeIds(g), (i: string) => i in drawn || i in ctx)
  }

  function Edges(g: Graph, shown: seq<string>): (r: seq<Edge>)
    ensures forall e :: e in r ==> e.0 in shown && e.1 in shown
  {
    Filter(Links(g), (l: Edge) => l.0 in shown && l.1 in shown)
  }

  // ---------------------------------------------------------------- which boxes that is

  ghost predicate IsNode(g: Graph, i: string) { exists n :: n in g.nodes && n.id == i }

  ghost predicate IsLink(g: Graph, s: string, t: string) { (s, t) in g.links && IsNode(g, s) && IsNode(g, t) }

  ghost function LitNodes(g: Graph, lit: set<string>): set<string> { set i | i in lit && IsNode(g, i) }

  ghost predicate LeadsToLit(g: Graph, lit: set<string>, i: string) {
    exists t :: t in lit && IsLink(g, i, t)
  }

  ghost predicate FollowsLit(g: Graph, lit: set<string>, i: string) {
    exists s :: s in lit && IsLink(g, s, i)
  }

  /** The nodes that are not lit and that a link leads to from a lit one. */
  ghost function Followers(g: Graph, lit: set<string>): set<string> {
    set n | n in g.nodes && n.id !in lit && FollowsLit(g, lit, n.id) :: n.id
  }

  /** A node is shown if it is lit, or if fewer than four lit ids are nodes and a link leads from it to one of them, or
      from one of them to it when at most six nodes that are not lit are reached in that way. */
  ghost predicate IsShown(g: Graph, lit: set<string>, i: string) {
    && IsNode(g, i)
    && (|| i in lit
        || (|LitNodes(g, lit)| < 4 &&
            (LeadsToLit(g, lit, i) || (FollowsLit(g, lit, i) && |Followers(g, lit)| <= 6))))
  }

  lemma MapMembers<T, U>(s: seq<T>, f: T -> U, y: U)
    ensures y in Map(s, f) <==> exists x :: x in s && f(x) == y
  {
    if y in Map(s, f) {
      var k :| 0 <= k < |s| && Map(s, f)[k] == y;
      assert s[k] in s;
    }
    if x :| x in s && f(x) == y {
      var k :| 0 <= k < |s| && s[k] == x;
      assert Map(s, f)[k] == y;
    }
  }

  lemma NodeIdsAre(g: Graph, i: string)
    ensures i in NodeIds(g) <==> IsNode(g, i)
  {
    MapMembers(g.nodes, (n: Node) => n.id, i);
  }

  lemma LinksAre(g: Graph, s: string, t: string)
    ensures (s, t) in Links(g) <==> IsLink(g, s, t)
  {
    NodeIdsAre(g, s);
    NodeIdsAre(g, t);
  }

  lemma DrawnAre(g: Graph, lit: set<string>)
    ensures forall i :: i in Drawn(g, lit) <==> i in LitNodes(g, lit)
    ensures |Drawn(g, lit)| == |LitNodes(g, lit)|
  {
    forall i ensures i in Drawn(g, lit) <==> i in LitNodes(g, lit) {
      NodeIdsAre(g, i);
    }
    FilterDistinct(NodeIds(g), (i: string) => i in lit);
    SizeOfDistinct(Drawn(g, lit));
    assert (set i | i in Drawn(g, lit)) == LitNodes(g, lit);
  }

  lemma SourcesAre(g: Graph, lit: set<string>, i: string)
    ensures i in Sources(g, Drawn(g, lit)) <==> i !in lit && LeadsToLit(g, lit, i)
  {
    var drawn := Drawn(g, lit);
    var into := Filter(Links(g), (l: Edge) => l.1 in drawn && l.0 !in drawn);
    DrawnAre(g, lit);
    MapMembers(into, (l: Edge) => l.0, i);
    if i in Sources(g, drawn) {
      var l :| l in into && l.0 == i;
      LinksAre(g, l.0, l.1);
    }
    if i !in lit && LeadsToLit(g, lit, i) {
      var t :| t in lit && IsLink(g, i, t);
      LinksAre(g, i, t);
      assert (i, t) in into;
    }
  }

  lemma TargetsAre(g: Graph, lit: set<string>, i: string)
    ensures i in Targets(g, Drawn(g, lit)) <==> i !in lit && FollowsLit(g, lit, i)
  {
    var drawn := Drawn(g, lit);
    var out := Filter(Links(g), (l: Edge) => l.0 in drawn && l.1 !in drawn);
    DrawnAre(g, lit);
    MapMembers(out, (l: Edge) => l.1, i);
    if i in Targets(g, drawn) {
      var l :| l in out && l.1 == i;
      LinksAre(g, l.0, l.1);
    }
    if i !in lit && FollowsLit(g, lit, i) {
      var s :| s in lit && IsLink(g, s, i);
      LinksAre(g, s, i);
      assert (s, i) in out;
    }
  }

  lemma TargetsCount(g: Graph, lit: set<string>)
    ensures |Targets(g, Drawn(g, lit))| == |Followers(g, lit)|
  {
    var targets := Targets(g, Drawn(g, lit));
    SizeOfDistinct(targets);
    forall i ensures i in targets <==> i in Followers(g, lit) {
      TargetsAre(g, lit, i);
    }
    assert (set i | i in targets) == Followers(g, lit);
  }

  lemma ShownAre(g: Graph, lit: set<string>, i: string)
    ensures i in Shown(g, lit) <==> IsShown(g, lit, i)
  {
    NodeIdsAre(g, i);
    DrawnAre(g, lit);
    SourcesAre(g, lit, i);
    TargetsAre(g, lit, i);
    TargetsCount(g, lit);
  }

  lemma EdgesAre(g: Graph, lit: set<string>, e: Edge)
    ensures e in Edges(g, Shown(g, lit)) <==> e in g.links && IsShown(g, lit, e.0) && IsShown(g, lit, e.1)
  {
    ShownAre(g, lit, e.0);
    ShownAre(g, lit, e.1);
    LinksAre(g, e.0, e.1);
  }

  lemma ShownHold(g: Graph, lit: set<string>)
    ensures forall i :: i in Shown(g, lit) <==> IsShown(g, lit, i)
    ensures forall i :: i in Shown(g, lit) ==> IsNode(g, i)
    ensures forall e :: e in Edges(g, Shown(g, lit)) <==> e in g.links && IsShown(g, lit, e.0) && IsShown(g, lit, e.1)
  {
    forall i ensures i in Shown(g, lit) <==> IsShown(g, lit, i) {
      ShownAre(g, lit, i);
    }
    forall e ensures e in Edges(g, Shown(g, lit)) <==> e in g.links && IsShown(g, lit, e.0) && IsShown(g, lit, e.1) {
      EdgesAre(g, lit, e);
    }
  }

  // ---------------------------------------------------------------- chains of drawn edges

  /** A chain of boxes, each joined to the next by a drawn edge; a self-loop is no step. */
  ghost predicate Chain(edges: seq<Edge>, p: seq<string>) {
    p != [] && forall i :: 0 <= i < |p| - 1 ==> p[i] != p[i + 1] && (p[i], p[i + 1]) in edges
  }

  ghost predicate Acyclic(edges: seq<Edge>) {
    forall p :: Chain(edges, p) && |p| >= 2 ==> p[0] != p[|p| - 1]
  }

  /** d is the number of steps of a longest chain that ends at v. */
  ghost predicate LongestChain(edges: seq<Edge>, v: string, d: nat) {
    && (exists p :: Chain(edges, p) && p[|p| - 1] == v && |p| == d + 1)
    && (forall p :: Chain(edges, p) && p[|p| - 1] == v ==> |p| <= d + 1)
  }

  ghost predicate EndsChain(edges: seq<Edge>, v: string, d: nat) {
    exists p :: Chain(edges, p) && p[|p| - 1] == v && |p| == d + 1
  }

  lemma ChainGrows(edges: seq<Edge>, s: string, t: string, d: nat)
    requires EndsChain(edges, s, d) && (s, t) in edges && s != t
    ensures EndsChain(edges, t, d + 1)
  {
    var p :| Chain(edges, p) && p[|p| - 1] == s && |p| == d + 1;
    var q := p + [t];
    assert Chain(edges, q) && q[|q| - 1] == t;
  }

  lemma Subchain(edges: seq<Edge>, p: seq<string>, i: nat, j: nat)
    requires Chain(edges, p) && i < j < |p|
    ensures Chain(edges, p[i..j + 1])
  {
    var q := p[i..j + 1];
    forall k | 0 <= k < |q| - 1 ensures q[k] != q[k + 1] && (q[k], q[k + 1]) in edges {
      assert q[k] == p[i + k] && q[k + 1] == p[i + k + 1];
    }
  }

  lemma NoRepeat(edges: seq<Edge>, p: seq<string>, i: nat, j: nat)
    requires Acyclic(edges) && Chain(edges, p) && i < j < |p|
    ensures p[i] != p[j]
  {
    Subchain(edges, p, i, j);
    assert p[i..j + 1][0] == p[i] && p[i..j + 1][j - i] == p[j];
  }

  /** Without cycles a chain visits no box twice, so it has at most as many boxes as are shown. */
  lemma ChainFits(edges: seq<Edge>, shown: seq<string>, p: seq<string>)
    requires Acyclic(edges) && Chain(edges, p)
    requires forall i :: 0 <= i < |p| ==> p[i] in shown
    ensures |p| <= |shown|
  {
    var box := seq(|p|, (i: nat) requires i < |p| => IndexOf(shown, p[i]));
    forall i, j | 0 <= i < j < |box| ensures box[i] != box[j] {
      NoRepeat(edges, p, i, j);
      assert shown[box[i]] == p[i] && shown[box[j]] == p[j];
    }
    DistinctFit(box, |shown|);
  }

  ghost predicate Within(edges: seq<Edge>, shown: seq<string>) {
    forall e :: e in edges ==> e.0 in shown && e.1 in shown
  }

  lemma ChainShown(edges: seq<Edge>, shown: seq<string>, p: seq<string>)
    requires Within(edges, shown) && Chain(edges, p) && p[|p| - 1] in shown
    ensures forall i :: 0 <= i < |p| ==> p[i] in shown
  {
    forall i | 0 <= i < |p| ensures p[i] in shown {
      if i < |p| - 1 { assert (p[i], p[i + 1]) in edges; }
    }
  }

  // ---------------------------------------------------------------- the relaxation

  predicate EdgeLe(a: Edge, b: Edge) {
    if a.0 == b.0 then StringLe(a.1, b.1) else StringLe(a.0, b.0)
  }

  /** Depths are attained: each is the length of some chain, and none exceeds the number of boxes. */
  ghost predicate Attained(edges: seq<Edge>, shown: seq<string>, depth: map<string, nat>) {
    && depth.Keys == (set v | v in shown)
    && forall v :: v in depth ==> depth[v] <= |shown| && EndsChain(edges, v, depth[v])
  }

  /** Every chain of at most r steps is accounted for. */
  ghost predicate Covered(edges: seq<Edge>, depth: map<string, nat>, r: nat) {
    forall p :: Chain(edges, p) && p[|p| - 1] in depth && |p| <= r + 1 ==> depth[p[|p| - 1]] >= |p| - 1
  }

  /** Every drawn edge that is not a self-loop goes down. */
  ghost predicate Descends(edges: seq<Edge>, depth: map<string, nat>) {
    forall e :: e in edges && e.0 != e.1 ==> e.0 in depth && e.1 in depth && depth[e.0] < depth[e.1]
  }

  /** The edges in the order a pass visits them: by source, then by target. */
  lemma EdgesOrdered(edges: seq<Edge>, i: nat, j: nat)
    requires i < j < |Sort(edges, EdgeLe)|
    ensures var a, b := Sort(edges, EdgeLe)[i], Sort(edges, EdgeLe)[j];
            (a.0 != b.0 && StringLe(a.0, b.0)) || (a.0 == b.0 && StringLe(a.1, b.1))
  {
    StringOrder();
    forall a, b ensures EdgeLe(a, b) || EdgeLe(b, a)
                ensures EdgeLe(a, b) && EdgeLe(b, a) ==> a == b {
      StringTotal(a.0, b.0);
      StringTotal(a.1, b.1);
    }
    forall a, b, c | EdgeLe(a, b) && EdgeLe(b, c) ensures EdgeLe(a, c) {
      StringTotal(a.0, b.0);
      StringTotal(b.0, c.0);
      if a.0 == b.0 == c.0 {
        StringTransitive(a.1, b.1, c.1);
      } else if a.0 != b.0 && b.0 != c.0 {
        StringTransitive(a.0, b.0, c.0);
        StringTotal(a.0, c.0);
      }
    }
    SortSorts(edges, EdgeLe);
    assert EdgeLe(Sort(edges, EdgeLe)[i], Sort(edges, EdgeLe)[j]);
  }

  /** The depths after one pass over the edges, each edge seeing what the ones before it did. */
  ghost function Pass(depth: map<string, nat>, edges: seq<Edge>, n: nat): map<string, nat> {
    if edges == [] then depth
    else
      var before, e := Pass(depth, edges[..|edges| - 1], n), edges[|edges| - 1];
      if e.0 in before && e.1 in before && e.0 != e.1 && before[e.1] < before[e.0] + 1 <= n
      then before[e.1 := before[e.0] + 1] else before
  }

  ghost function AtZero(shown: seq<string>): map<string, nat> { map v | v in shown :: 0 }

  ghost function Passes(depth: map<string, nat>, edges: seq<Edge>, n: nat, rounds: nat): map<string, nat> {
    if rounds == 0 then depth else Pass(Passes(depth, edges, n, rounds - 1), edges, n)
  }

  lemma PassStep(depth: map<string, nat>, edges: seq<Edge>, k: nat, n: nat)
    requires k < |edges|
    ensures var before, e := Pass(depth, edges[..k], n), edges[k];
            Pass(depth, edges[..k + 1], n) ==
            if e.0 in before && e.1 in before && e.0 != e.1 && before[e.1] < before[e.0] + 1 <= n
            then before[e.1 := before[e.0] + 1] else before
  {
    assert edges[..k + 1][..k] == edges[..k];
  }

  lemma {:induction false} PassesStop(depth: map<string, nat>, edges: seq<Edge>, n: nat, r: nat, rounds: nat)
    requires r <= rounds && Pass(Passes(depth, edges, n, r), edges, n) == Passes(depth, edges, n, r)
    ensures Passes(depth, edges, n, rounds) == Passes(depth, edges, n, r)
    decreases rounds
  {
    if r < rounds { PassesStop(depth, edges, n, r, rounds - 1); }
  }

  /** One edge of a pass. */
  method RelaxEdge(s: string, t: string, n: nat, depth0: map<string, nat>, changed0: bool)
    returns (depth: map<string, nat>, changed: bool)
    requires s in depth0 && t in depth0
    ensures depth == Relaxed(depth0, s, t, n) && (changed <==> changed0 || Moves(depth0, s, t, n))
  {
    depth, changed := depth0, changed0;
    if s != t && depth[t] < depth[s] + 1 <= n {
      depth := depth[t := depth[s] + 1];
      changed := true;
    }
  }

  /** One pass over the sorted edges. */
  method RelaxRound(shown: seq<string>, ghost edges: seq<Edge>, ordered: seq<Edge>, start: map<string, nat>)
    returns (depth: map<string, nat>, changed: bool)
    requires Within(edges, shown) && (forall e :: e in ordered <==> e in edges)
    requires Attained(edges, shown, start)
    ensures MidPass(edges, shown, ordered, start, depth, changed)
  {
    depth := start;
    changed := false;
    RoundStart(edges, shown, ordered, start);
    for k := 0 to |ordered|
      invariant MidPass(edges, shown, ordered[..k], start, depth, changed)
    {
      MidPassStep(edges, shown, ordered, k, start, depth, changed);
      depth, changed := RelaxEdge(ordered[k].0, ordered[k].1, |shown|, depth, changed);
    }
    assert ordered[..|ordered|] == ordered;
  }

  /** Passes until nothing changes, and at most as many as there are boxes. */
  method RelaxRounds(shown: seq<string>, ghost edges: seq<Edge>, ordered: seq<Edge>, depth0: map<string, nat>)
    returns (depth: map<string, nat>, round: nat, changed: bool)
    requires Within(edges, shown) && (forall e :: e in ordered <==> e in edges)
    requires RoundsDone(edges, shown, ordered, depth0, 0, true)
    ensures RoundsDone(edges, shown, ordered, depth, round, changed) && (changed ==> round == |shown|)
  {
    depth, round, changed := depth0, 0, true;
    while round < |shown| && changed
      invariant RoundsDone(edges, shown, ordered, depth, round, changed)
      decreases |shown| - round
    {
      ghost var start := depth;
      depth, changed := RelaxRound(shown, edges, ordered, depth);
      RoundCovers(edges, ordered, shown, start, depth, round, changed);
      round := round + 1;
    }
  }

  method Relax(shown: seq<string>, edges: seq<Edge>) returns (depth: map<string, nat>)
    requires Within(edges, shown)
    ensures Attained(edges, shown, depth)
    ensures depth == Passes(AtZero(shown), Sort(edges, EdgeLe), |shown|, |shown|)
    ensures Acyclic(edges) ==> forall v :: v in shown ==> LongestChain(edges, v, depth[v])
    ensures Acyclic(edges) <==> Descends(edges, depth)
  {
    depth := map v | v in shown :: 0;
    assert depth == AtZero(shown);
    var ordered := Sort(edges, EdgeLe);
    SameEdges(edges);
    RelaxStart(edges, shown, ordered, depth);
    var round, changed;
    depth, round, changed := RelaxRounds(shown, edges, ordered, depth);
    RelaxDone(edges, ordered, shown, depth, round, changed);
  }

  /** After some rounds; changed says whether the last one moved a box. */
  ghost predicate RoundsDone(edges: seq<Edge>, shown: seq<string>, ordered: seq<Edge>, depth: map<string, nat>,
                             round: nat, changed: bool)
  {
    && round <= |shown|
    && depth == Passes(AtZero(shown), ordered, |shown|, round)
    && (!changed ==> Pass(depth, ordered, |shown|) == depth)
    && Attained(edges, shown, depth)
    && (Acyclic(edges) ==> Covered(edges, depth, round))
    && (!changed ==> Settled(ordered, depth, |shown|))
  }

  lemma RelaxStart(edges: seq<Edge>, shown: seq<string>, ordered: seq<Edge>, depth: map<string, nat>)
    requires depth == AtZero(shown)
    ensures RoundsDone(edges, shown, ordered, depth, 0, true)
  {
    forall v | v in shown ensures EndsChain(edges, v, 0) {
      assert Chain(edges, [v]) && [v][|[v]| - 1] == v;
    }
  }

  /** Part-way through a round that began at start, with the edges in done visited. */
  ghost predicate MidRound(edges: seq<Edge>, shown: seq<string>, done: seq<Edge>, start: map<string, nat>,
                           depth: map<string, nat>, changed: bool)
  {
    && Attained(edges, shown, depth)
    && Raised(start, depth)
    && (changed || depth == start)
    && (!changed ==> Settled(done, depth, |shown|))
    && (Acyclic(edges) ==> Stepped(done, start, depth))
  }

  ghost predicate Moves(depth: map<string, nat>, s: string, t: string, n: nat)
    requires s in depth && t in depth
  {
    s != t && depth[t] < depth[s] + 1 <= n
  }

  /** The depths after one edge. */
  ghost function Relaxed(depth: map<string, nat>, s: string, t: string, n: nat): map<string, nat>
    requires s in depth && t in depth
  {
    if Moves(depth, s, t, n) then depth[t := depth[s] + 1] else depth
  }

  lemma EdgeMoves(edges: seq<Edge>, shown: seq<string>, done: seq<Edge>, start: map<string, nat>,
                  depth: map<string, nat>, changed: bool, s: string, t: string)
    requires (s, t) in edges && s in depth && t in depth && Moves(depth, s, t, |shown|)
    requires MidRound(edges, shown, done, start, depth, changed)
    ensures MidRound(edges, shown, done + [(s, t)], start, depth[t := depth[s] + 1], true)
  {
    assert EndsChain(edges, s, depth[s]);
    ChainGrows(edges, s, t, depth[s]);
  }

  lemma EdgeStays(edges: seq<Edge>, shown: seq<string>, done: seq<Edge>, start: map<string, nat>,
                  depth: map<string, nat>, changed: bool, s: string, t: string)
    requires Within(edges, shown) && s in shown && s in depth && t in depth && !Moves(depth, s, t, |shown|)
    requires MidRound(edges, shown, done, start, depth, changed)
    ensures MidRound(edges, shown, done + [(s, t)], start, depth, changed)
  {
    if Acyclic(edges) { DepthBelow(edges, shown, depth, s); }
  }

  lemma RelaxStep(edges: seq<Edge>, shown: seq<string>, ordered: seq<Edge>, k: nat, start: map<string, nat>,
                  depth: map<string, nat>, changed: bool)
    requires Within(edges, shown) && (forall e :: e in ordered <==> e in edges) && k < |ordered|
    requires MidRound(edges, shown, ordered[..k], start, depth, changed)
    ensures var (s, t) := ordered[k];
            && s in depth && t in depth
            && MidRound(edges, shown, ordered[..k + 1], start, Relaxed(depth, s, t, |shown|),
                        changed || Moves(depth, s, t, |shown|))
  {
    var (s, t) := ordered[k];
    assert ordered[k] in edges && s in shown && t in shown;
    assert ordered[..k + 1] == ordered[..k] + [(s, t)];
    if Moves(depth, s, t, |shown|) {
      EdgeMoves(edges, shown, ordered[..k], start, depth, changed, s, t);
    } else {
      EdgeStays(edges, shown, ordered[..k], start, depth, changed, s, t);
    }
  }

  /** Part-way through a round, and at what the pass makes of the depths so far. */
  ghost predicate MidPass(edges: seq<Edge>, shown: seq<string>, done: seq<Edge>, start: map<string, nat>,
                          depth: map<string, nat>, changed: bool)
  {
    MidRound(edges, shown, done, start, depth, changed) && depth == Pass(start, done, |shown|)
  }

  lemma RoundStart(edges: seq<Edge>, shown: seq<string>, ordered: seq<Edge>, start: map<string, nat>)
    requires Attained(edges, shown, start)
    ensures MidPass(edges, shown, ordered[..0], start, start, false)
  {
  }

  lemma MidPassStep(edges: seq<Edge>, shown: seq<string>, ordered: seq<Edge>, k: nat, start: map<string, nat>,
                    depth: map<string, nat>, changed: bool)
    requires Within(edges, shown) && (forall e :: e in ordered <==> e in edges) && k < |ordered|
    requires MidPass(edges, shown, ordered[..k], start, depth, changed)
    ensures ordered[k].0 in depth && ordered[k].1 in depth
    ensures MidPass(edges, shown, ordered[..k + 1], start, Relaxed(depth, ordered[k].0, ordered[k].1, |shown|),
                    changed || Moves(depth, ordered[k].0, ordered[k].1, |shown|))
  {
    RelaxStep(edges, shown, ordered, k, start, depth, changed);
    PassRelaxes(start, ordered, k, |shown|, depth);
  }

  lemma PassRelaxes(start: map<string, nat>, ordered: seq<Edge>, k: nat, n: nat, depth: map<string, nat>)
    requires k < |ordered| && depth == Pass(start, ordered[..k], n) && ordered[k].0 in depth && ordered[k].1 in depth
    ensures Pass(start, ordered[..k + 1], n) == Relaxed(depth, ordered[k].0, ordered[k].1, n)
  {
    PassStep(start, ordered, k, n);
  }

  ghost predicate Raised(start: map<string, nat>, depth: map<string, nat>) {
    start.Keys == depth.Keys && forall v :: v in start ==> start[v] <= depth[v]
  }

  ghost predicate Settled(edges: seq<Edge>, depth: map<string, nat>, n: nat) {
    forall e :: e in edges && e.0 != e.1 ==>
      e.0 in depth && e.1 in depth && (depth[e.0] < depth[e.1] || depth[e.0] + 1 > n)
  }

  ghost predicate Stepped(edges: seq<Edge>, start: map<string, nat>, depth: map<string, nat>) {
    forall e :: e in edges && e.0 != e.1 ==> e.0 in start && e.1 in depth && start[e.0] < depth[e.1]
  }

  lemma SameEdges(edges: seq<Edge>)
    ensures forall e :: e in Sort(edges, EdgeLe) <==> e in edges
  {
    SortKeeps(edges, EdgeLe);
    forall e ensures e in Sort(edges, EdgeLe) <==> e in edges {
      assert e in multiset(Sort(edges, EdgeLe)) <==> e in multiset(edges);
    }
  }

  /** Without cycles the guard never stops a step. */
  lemma DepthBelow(edges: seq<Edge>, shown: seq<string>, depth: map<string, nat>, v: string)
    requires Acyclic(edges) && Within(edges, shown) && Attained(edges, shown, depth) && v in shown
    ensures depth[v] < |shown|
  {
    assert v in depth && EndsChain(edges, v, depth[v]);
    var p :| Chain(edges, p) && p[|p| - 1] == v && |p| == depth[v] + 1;
    ChainShown(edges, shown, p);
    ChainFits(edges, shown, p);
  }

  lemma RoundCovers(edges: seq<Edge>, ordered: seq<Edge>, shown: seq<string>, start: map<string, nat>,
                    depth: map<string, nat>, r: nat, changed: bool)
    requires Within(edges, shown) && (forall e :: e in ordered <==> e in edges) && r < |shown|
    requires MidPass(edges, shown, ordered, start, depth, changed)
    requires start == Passes(AtZero(shown), ordered, |shown|, r)
    requires Acyclic(edges) ==> Covered(edges, start, r)
    ensures RoundsDone(edges, shown, ordered, depth, r + 1, changed)
  {
    if Acyclic(edges) { ChainsCovered(edges, ordered, start, depth, r); }
  }

  lemma ChainsCovered(edges: seq<Edge>, ordered: seq<Edge>, start: map<string, nat>, depth: map<string, nat>, r: nat)
    requires forall e :: e in ordered <==> e in edges
    requires Raised(start, depth) && Stepped(ordered, start, depth) && Covered(edges, start, r)
    ensures Covered(edges, depth, r + 1)
  {
    forall p | Chain(edges, p) && p[|p| - 1] in depth && |p| <= r + 2
      ensures depth[p[|p| - 1]] >= |p| - 1
    {
      if |p| >= 2 {
        var q := p[..|p| - 1];
        assert (p[|p| - 2], p[|p| - 1]) in edges;
        assert Chain(edges, q) && q[|q| - 1] == p[|p| - 2];
      }
    }
  }

  lemma {:induction false} SettledCovers(edges: seq<Edge>, depth: map<string, nat>, p: seq<string>)
    requires Descends(edges, depth) && Chain(edges, p) && p[|p| - 1] in depth
    ensures depth[p[|p| - 1]] >= |p| - 1
    ensures |p| >= 2 ==> p[0] in depth && depth[p[0]] < depth[p[|p| - 1]]
    decreases |p|
  {
    if |p| >= 2 {
      var q := p[..|p| - 1];
      assert (p[|p| - 2], p[|p| - 1]) in edges;
      assert Chain(edges, q) && q[|q| - 1] == p[|p| - 2];
      SettledCovers(edges, depth, q);
    }
  }

  lemma RelaxDone(edges: seq<Edge>, ordered: seq<Edge>, shown: seq<string>, depth: map<string, nat>, round: nat,
                  changed: bool)
    requires Within(edges, shown) && (forall e :: e in ordered <==> e in edges)
    requires RoundsDone(edges, shown, ordered, depth, round, changed) && (changed ==> round == |shown|)
    ensures depth == Passes(AtZero(shown), ordered, |shown|, |shown|)
    ensures Acyclic(edges) ==> forall v :: v in shown ==> LongestChain(edges, v, depth[v])
    ensures Acyclic(edges) <==> Descends(edges, depth)
  {
    if !changed { PassesStop(AtZero(shown), ordered, |shown|, round, |shown|); }
    if Acyclic(edges) {
      forall e | e in edges && e.0 != e.1 ensures depth[e.0] < depth[e.1] {
        DepthBelow(edges, shown, depth, e.0);
        if changed {
          ChainGrows(edges, e.0, e.1, depth[e.0]);
          var p :| Chain(edges, p) && p[|p| - 1] == e.1 && |p| == depth[e.0] + 2;
        }
      }
    }
    if Descends(edges, depth) {
      forall p | Chain(edges, p) && |p| >= 2 ensures p[0] != p[|p| - 1] {
        assert (p[|p| - 2], p[|p| - 1]) in edges;
        SettledCovers(edges, depth, p);
      }
      forall v | v in shown ensures LongestChain(edges, v, depth[v]) {
        forall p | Chain(edges, p) && p[|p| - 1] == v ensures |p| <= depth[v] + 1 {
          SettledCovers(edges, depth, p);
        }
      }
    }
  }

  // ---------------------------------------------------------------- columns and rows

  function DepthOf(depth: map<string, nat>, i: string): nat {
    if i in depth then depth[i] else 0
  }

  /** Rows of a column: by depth, then by id. */
  predicate RowLe(depth: map<string, nat>, a: string, b: string) {
    if DepthOf(depth, a) == DepthOf(depth, b) then StringLe(a, b) else DepthOf(depth, a) < DepthOf(depth, b)
  }

  function RowOrder(depth: map<string, nat>): (string, string) -> bool {
    (a, b) => RowLe(depth, a, b)
  }

  lemma RowOrderTotal(depth: map<string, nat>)
    ensures TotalOrder(RowOrder(depth))
  {
    StringOrder();
    forall a, b ensures RowLe(depth, a, b) || RowLe(depth, b, a)
                ensures RowLe(depth, a, b) && RowLe(depth, b, a) ==> a == b {
      StringTotal(a, b);
    }
    forall a, b, c | RowLe(depth, a, b) && RowLe(depth, b, c) ensures RowLe(depth, a, c) {
      if DepthOf(depth, a) == DepthOf(depth, c) { StringTransitive(a, b, c); }
    }
  }

  /** The position of a tier: its last entry's order, else that entry's index, else after every known tier. */
  function TierRank(tiers: seq<Tier>, name: string): int {
    if tiers == [] then 1000000
    else if tiers[|tiers| - 1].name == name then
      if tiers[|tiers| - 1].order.Some? then tiers[|tiers| - 1].order.value else |tiers| - 1
    else TierRank(tiers[..|tiers| - 1], name)
  }

  function TierOrder(tiers: seq<Tier>): (string, string) -> bool {
    (a, b) => if TierRank(tiers, a) == TierRank(tiers, b) then StringLe(a, b)
              else TierRank(tiers, a) < TierRank(tiers, b)
  }

  function TierNames(g: Graph, shown: seq<string>): seq<string> {
    Sort(Once(Map(shown, (i: string) => TierOf(g.nodes, i))), TierOrder(g.tiers))
  }

  function Column(nodes: seq<Node>, shown: seq<string>, depth: map<string, nat>, tier: string): seq<string> {
    Sort(Filter(shown, (i: string) => TierOf(nodes, i) == tier), RowOrder(depth))
  }

  lemma ColumnHolds(nodes: seq<Node>, shown: seq<string>, depth: map<string, nat>, tier: string)
    requires Distinct(shown)
    ensures var column := Column(nodes, shown, depth, tier);
            && Distinct(column) && Sorted(column, RowOrder(depth))
            && forall i :: i in column <==> i in shown && TierOf(nodes, i) == tier
  {
    var members := Filter(shown, (i: string) => TierOf(nodes, i) == tier);
    FilterDistinct(shown, (i: string) => TierOf(nodes, i) == tier);
    SortDistinct(members, RowOrder(depth));
    RowOrderTotal(depth);
    SortSorts(members, RowOrder(depth));
  }

  function BoxAt(col: nat, row: nat): Pos {
    Pos(PAD + col * (COL_W + COL_GAP) + (COL_W - BOX_W) / 2, PAD + HEAD_H + row * (BOX_H + ROW_GAP), col, row)
  }

  /** The last node of the list with the id. */
  ghost predicate LastNode(nodes: seq<Node>, id: string, k: nat) {
    k < |nodes| && nodes[k].id == id && forall j :: k < j < |nodes| ==> nodes[j].id != id
  }

  /** The tier of the last node with the id; "Other" if it has none or an empty one. */
  ghost predicate TierIs(nodes: seq<Node>, id: string, tier: string) {
    exists k: nat :: LastNode(nodes, id, k) &&
      tier == if nodes[k].tier == None || nodes[k].tier == Some("") then "Other" else nodes[k].tier.value
  }

  lemma {:induction false} FindLastNode(nodes: seq<Node>, id: string) returns (k: nat)
    requires exists n :: n in nodes && n.id == id
    ensures LastNode(nodes, id, k)
    ensures TierOf(nodes, id) ==
            if nodes[k].tier == None || nodes[k].tier == Some("") then "Other" else nodes[k].tier.value
  {
    var n := |nodes| - 1;
    if nodes[n].id == id {
      k := n;
    } else {
      assert nodes == nodes[..n] + [nodes[n]];
      k := FindLastNode(nodes[..n], id);
      forall j | k < j < |nodes| ensures nodes[j].id != id {
        assert j < n ==> nodes[j] == nodes[..n][j];
      }
    }
  }

  lemma TierOfIs(nodes: seq<Node>, id: string)
    requires exists n :: n in nodes && n.id == id
    ensures TierIs(nodes, id, TierOf(nodes, id))
  {
    var k := FindLastNode(nodes, id);
  }

  lemma TierIsOne(nodes: seq<Node>, id: string, a: string, b: string)
    requires TierIs(nodes, id, a) && TierIs(nodes, id, b)
    ensures a == b
  {
  }

  /** The last tier of the list with the name. */
  ghost predicate LastTier(tiers: seq<Tier>, name: string, k: nat) {
    k < |tiers| && tiers[k].name == name && forall j :: k < j < |tiers| ==> tiers[j].name != name
  }

  /** The order of the last tier of that name, its index if it has none, and a million for a name that is no tier. */
  ghost predicate RankIs(tiers: seq<Tier>, name: string, r: int) {
    || (r == 1000000 && forall t :: t in tiers ==> t.name != name)
    || exists k: nat :: LastTier(tiers, name, k) && r == if tiers[k].order == None then k else tiers[k].order.value
  }

  lemma {:induction false} FindLastTier(tiers: seq<Tier>, name: string) returns (k: nat)
    requires exists t :: t in tiers && t.name == name
    ensures LastTier(tiers, name, k)
    ensures TierRank(tiers, name) == if tiers[k].order == None then k else tiers[k].order.value
  {
    var n := |tiers| - 1;
    if tiers[n].name == name {
      k := n;
    } else {
      assert tiers == tiers[..n] + [tiers[n]];
      k := FindLastTier(tiers[..n], name);
      forall j | k < j < |tiers| ensures tiers[j].name != name {
        assert j < n ==> tiers[j] == tiers[..n][j];
      }
    }
  }

  lemma {:induction false} NoTier(tiers: seq<Tier>, name: string)
    requires forall t :: t in tiers ==> t.name != name
    ensures TierRank(tiers, name) == 1000000
  {
    if tiers != [] { NoTier(tiers[..|tiers| - 1], name); }
  }

  lemma TierRankIs(tiers: seq<Tier>, name: string, r: int)
    requires RankIs(tiers, name, r)
    ensures r == TierRank(tiers, name)
  {
    if exists t :: t in tiers && t.name == name {
      var k := FindLastTier(tiers, name);
    } else {
      NoTier(tiers, name);
    }
  }

  lemma TierOrderTotal(tiers: seq<Tier>)
    ensures TotalOrder(TierOrder(tiers))
  {
    var le := TierOrder(tiers);
    forall a, b ensures le(a, b) || le(b, a)
                ensures le(a, b) && le(b, a) ==> a == b {
      StringTotal(a, b);
    }
    forall a, b, c | le(a, b) && le(b, c) ensures le(a, c) {
      if TierRank(tiers, a) == TierRank(tiers, c) { StringTransitive(a, b, c); }
    }
  }

  /** The columns: the tiers of the shown boxes, each once, by rank and then by name. */
  ghost predicate Columns(g: Graph, shown: seq<string>, tiers: seq<string>) {
    && (forall t :: t in tiers <==> exists i :: i in shown && TierIs(g.nodes, i, t))
    && (forall a, b, ra, rb ::
          0 <= a < b < |tiers| && RankIs(g.tiers, tiers[a], ra) && RankIs(g.tiers, tiers[b], rb) ==>
          ra < rb || (ra == rb && tiers[a] != tiers[b] && StringLe(tiers[a], tiers[b])))
  }

  lemma ColumnsAre(g: Graph, shown: seq<string>)
    requires forall i :: i in shown ==> IsNode(g, i)
    ensures Columns(g, shown, TierNames(g, shown))
  {
    var names := Map(shown, (i: string) => TierOf(g.nodes, i));
    var tiers := TierNames(g, shown);
    SortDistinct(Once(names), TierOrder(g.tiers));
    TierOrderTotal(g.tiers);
    SortSorts(Once(names), TierOrder(g.tiers));
    forall t ensures t in tiers <==> exists i :: i in shown && TierIs(g.nodes, i, t) {
      TierListed(g, shown, t);
    }
    forall a, b, ra, rb |
      0 <= a < b < |tiers| && RankIs(g.tiers, tiers[a], ra) && RankIs(g.tiers, tiers[b], rb)
      ensures ra < rb || (ra == rb && tiers[a] != tiers[b] && StringLe(tiers[a], tiers[b]))
    {
      TierRankIs(g.tiers, tiers[a], ra);
      TierRankIs(g.tiers, tiers[b], rb);
      assert TierOrder(g.tiers)(tiers[a], tiers[b]);
    }
  }

  lemma TierListed(g: Graph, shown: seq<string>, t: string)
    requires forall i :: i in shown ==> IsNode(g, i)
    ensures t in TierNames(g, shown) <==> exists i :: i in shown && TierIs(g.nodes, i, t)
  {
    var names := Map(shown, (i: string) => TierOf(g.nodes, i));
    SortDistinct(Once(names), TierOrder(g.tiers));
    MapMembers(shown, (i: string) => TierOf(g.nodes, i), t);
    if t in names {
      var i :| i in shown && TierOf(g.nodes, i) == t;
      assert IsNode(g, i);
      TierOfIs(g.nodes, i);
    }
    if i :| i in shown && TierIs(g.nodes, i, t) {
      assert IsNode(g, i);
      TierOfIs(g.nodes, i);
      TierIsOne(g.nodes, i, t, TierOf(g.nodes, i));
    }
  }

  /** A box stands in the column of its tier. */
  ghost predicate Stands(nodes: seq<Node>, tiers: seq<string>, i: string, p: Pos) {
    && p.x == 24 + 268 * p.col && p.y == 42 + 62 * p.row
    && p.col < |tiers| && TierIs(nodes, i, tiers[p.col])
  }

  ghost predicate Above(depth: map<string, nat>, i: string, j: string)
    requires i in depth && j in depth
  {
    depth[i] < depth[j] || (depth[i] == depth[j] && StringLe(i, j))
  }

  ghost predicate Taken(pos: map<string, Pos>, col: nat, row: nat) {
    exists j :: j in pos && pos[j].col == col && pos[j].row == row
  }

  /** Where the boxes sit: in the column of their tier, by depth and then by id, with no row left empty. */
  ghost predicate Seated(nodes: seq<Node>, shown: seq<string>, depth: map<string, nat>, tiers: seq<string>,
                         pos: map<string, Pos>)
  {
    && pos.Keys == (set i | i in shown) && depth.Keys == pos.Keys
    && (forall i :: i in pos ==> Stands(nodes, tiers, i, pos[i]))
    && (forall i, j :: i in pos && j in pos && i != j && pos[i].col == pos[j].col ==>
          (pos[i].row < pos[j].row <==> Above(depth, i, j)))
    && (forall i, r: nat :: i in pos && r < pos[i].row ==> Taken(pos, pos[i].col, r))
  }

  lemma RowsOfColumn(nodes: seq<Node>, shown: seq<string>, depth: map<string, nat>, tiers: seq<string>,
                     pos: map<string, Pos>, i: string, j: string)
    requires Distinct(shown) && Placed(nodes, shown, depth, tiers, pos)
    requires i in pos && j in pos && pos[i].col == pos[j].col && pos[i].row < pos[j].row
    ensures RowLe(depth, i, j)
  {
    assert SitsAt(nodes, shown, depth, tiers, i, pos[i]) && SitsAt(nodes, shown, depth, tiers, j, pos[j]);
    var column := Column(nodes, shown, depth, tiers[pos[i].col]);
    ColumnHolds(nodes, shown, depth, tiers[pos[i].col]);
    assert RowOrder(depth)(column[pos[i].row], column[pos[j].row]);
  }

  lemma SeatOrder(nodes: seq<Node>, shown: seq<string>, depth: map<string, nat>, tiers: seq<string>,
                  pos: map<string, Pos>, i: string, j: string)
    requires Distinct(shown) && Placed(nodes, shown, depth, tiers, pos) && depth.Keys == pos.Keys
    requires i in pos && j in pos && i != j && pos[i].col == pos[j].col
    ensures pos[i].row < pos[j].row <==> Above(depth, i, j)
  {
    StringTotal(i, j);
    PlaceNamesBox(nodes, shown, depth, tiers, pos, i, j);
    if pos[i].row < pos[j].row {
      RowsOfColumn(nodes, shown, depth, tiers, pos, i, j);
    } else {
      RowsOfColumn(nodes, shown, depth, tiers, pos, j, i);
    }
  }

  lemma SeatBelow(nodes: seq<Node>, shown: seq<string>, depth: map<string, nat>, tiers: seq<string>,
                  pos: map<string, Pos>, i: string, r: nat)
    requires Distinct(shown) && Distinct(tiers) && Placed(nodes, shown, depth, tiers, pos) && i in pos && r < pos[i].row
    ensures Taken(pos, pos[i].col, r)
  {
    assert SitsAt(nodes, shown, depth, tiers, i, pos[i]);
    var column := Column(nodes, shown, depth, tiers[pos[i].col]);
    ColumnHolds(nodes, shown, depth, tiers[pos[i].col]);
    var j := column[r];
    assert j in column;
    assert j in pos && SitsAt(nodes, shown, depth, tiers, j, pos[j]);
    assert tiers[pos[j].col] == tiers[pos[i].col];
  }

  lemma SeatStands(nodes: seq<Node>, shown: seq<string>, depth: map<string, nat>, tiers: seq<string>,
                   pos: map<string, Pos>, i: string)
    requires Placed(nodes, shown, depth, tiers, pos) && i in pos && exists n :: n in nodes && n.id == i
    ensures Stands(nodes, tiers, i, pos[i])
  {
    assert SitsAt(nodes, shown, depth, tiers, i, pos[i]);
    TierOfIs(nodes, i);
  }

  lemma PlacedSeats(nodes: seq<Node>, shown: seq<string>, depth: map<string, nat>, tiers: seq<string>,
                    pos: map<string, Pos>)
    requires Distinct(shown) && Distinct(tiers) && Placed(nodes, shown, depth, tiers, pos) && depth.Keys == pos.Keys
    requires forall i :: i in shown ==> exists n :: n in nodes && n.id == i
    ensures Seated(nodes, shown, depth, tiers, pos)
  {
    forall i | i in pos ensures Stands(nodes, tiers, i, pos[i]) {
      SeatStands(nodes, shown, depth, tiers, pos, i);
    }
    forall i, j | i in pos && j in pos && i != j && pos[i].col == pos[j].col
      ensures pos[i].row < pos[j].row <==> Above(depth, i, j)
    {
      SeatOrder(nodes, shown, depth, tiers, pos, i, j);
    }
    forall i, r: nat | i in pos && r < pos[i].row ensures Taken(pos, pos[i].col, r) {
      SeatBelow(nodes, shown, depth, tiers, pos, i, r);
    }
  }

  /** Every shown box sits in its tier's column, at its place in that column. */
  ghost predicate Placed(nodes: seq<Node>, shown: seq<string>, depth: map<string, nat>, tiers: seq<string>,
                         pos: map<string, Pos>)
  {
    && pos.Keys == (set i | i in shown)
    && forall i :: i in pos ==> SitsAt(nodes, shown, depth, tiers, i, pos[i])
  }

  ghost predicate SitsAt(nodes: seq<Node>, shown: seq<string>, depth: map<string, nat>, tiers: seq<string>,
                         i: string, p: Pos)
  {
    && p == BoxAt(p.col, p.row)
    && p.col < |tiers| && tiers[p.col] == TierOf(nodes, i)
    && p.row < |Column(nodes, shown, depth, tiers[p.col])|
    && Column(nodes, shown, depth, tiers[p.col])[p.row] == i
  }

  ghost predicate AllSit(nodes: seq<Node>, shown: seq<string>, depth: map<string, nat>, tiers: seq<string>,
                         pos: map<string, Pos>)
  {
    forall i :: i in pos ==> i in shown && SitsAt(nodes, shown, depth, tiers, i, pos[i])
  }

  method Place(nodes: seq<Node>, shown: seq<string>, depth: map<string, nat>, tiers: seq<string>)
    returns (pos: map<string, Pos>)
    requires Distinct(shown) && Distinct(tiers)
    requires forall i :: i in shown ==> TierOf(nodes, i) in tiers
    ensures Placed(nodes, shown, depth, tiers, pos)
  {
    pos := map[];
    for ci := 0 to |tiers|
      invariant AllSit(nodes, shown, depth, tiers, pos)
      invariant forall i :: i in shown && TierOf(nodes, i) in tiers[..ci] ==> i in pos
    {
      pos := PlaceColumn(nodes, shown, depth, tiers, ci, pos);
      assert tiers[..ci + 1] == tiers[..ci] + [tiers[ci]];
    }
    assert tiers[..|tiers|] == tiers;
  }

  /** The placement after the first ri boxes of a column. */
  ghost predicate ColumnBegun(nodes: seq<Node>, shown: seq<string>, depth: map<string, nat>, tiers: seq<string>,
                              ci: nat, ri: nat, pos0: map<string, Pos>, pos: map<string, Pos>)
    requires ci < |tiers| && ri <= |Column(nodes, shown, depth, tiers[ci])|
  {
    && AllSit(nodes, shown, depth, tiers, pos)
    && (forall i :: i in pos0 ==> i in pos)
    && (forall r :: 0 <= r < ri ==> Column(nodes, shown, depth, tiers[ci])[r] in pos)
  }

  lemma SitsAdded(nodes: seq<Node>, shown: seq<string>, depth: map<string, nat>, tiers: seq<string>,
                  pos: map<string, Pos>, ci: nat, ri: nat)
    requires Distinct(shown) && ci < |tiers| && AllSit(nodes, shown, depth, tiers, pos)
    requires ri < |Column(nodes, shown, depth, tiers[ci])|
    ensures AllSit(nodes, shown, depth, tiers, pos[Column(nodes, shown, depth, tiers[ci])[ri] := BoxAt(ci, ri)])
  {
    var column := Column(nodes, shown, depth, tiers[ci]);
    ColumnHolds(nodes, shown, depth, tiers[ci]);
    assert column[ri] in column;
    assert SitsAt(nodes, shown, depth, tiers, column[ri], BoxAt(ci, ri));
  }

  lemma PlaceStep(nodes: seq<Node>, shown: seq<string>, depth: map<string, nat>, tiers: seq<string>, ci: nat,
                  ri: nat, pos0: map<string, Pos>, pos: map<string, Pos>)
    requires Distinct(shown) && ci < |tiers| && ri < |Column(nodes, shown, depth, tiers[ci])|
    requires ColumnBegun(nodes, shown, depth, tiers, ci, ri, pos0, pos)
    ensures ColumnBegun(nodes, shown, depth, tiers, ci, ri + 1, pos0,
                        pos[Column(nodes, shown, depth, tiers[ci])[ri] := BoxAt(ci, ri)])
  {
    SitsAdded(nodes, shown, depth, tiers, pos, ci, ri);
  }

  lemma ColumnPlaced(nodes: seq<Node>, shown: seq<string>, depth: map<string, nat>, tiers: seq<string>, ci: nat,
                     pos0: map<string, Pos>, pos: map<string, Pos>)
    requires Distinct(shown) && ci < |tiers|
    requires ColumnBegun(nodes, shown, depth, tiers, ci, |Column(nodes, shown, depth, tiers[ci])|, pos0, pos)
    ensures forall i :: i in pos0 || (i in shown && TierOf(nodes, i) == tiers[ci]) ==> i in pos
  {
    var column := Column(nodes, shown, depth, tiers[ci]);
    ColumnHolds(nodes, shown, depth, tiers[ci]);
    assert forall i :: i in column ==> i in pos;
  }

  /** The inner loop of the placement: one column from top to bottom. */
  method PlaceColumn(nodes: seq<Node>, shown: seq<string>, depth: map<string, nat>, tiers: seq<string>, ci: nat,
                     pos0: map<string, Pos>)
    returns (pos: map<string, Pos>)
    requires Distinct(shown) && ci < |tiers| && AllSit(nodes, shown, depth, tiers, pos0)
    ensures AllSit(nodes, shown, depth, tiers, pos)
    ensures forall i :: i in pos0 || (i in shown && TierOf(nodes, i) == tiers[ci]) ==> i in pos
  {
    pos := pos0;
    var column := Column(nodes, shown, depth, tiers[ci]);
    for ri := 0 to |column|
      invariant ColumnBegun(nodes, shown, depth, tiers, ci, ri, pos0, pos)
    {
      PlaceStep(nodes, shown, depth, tiers, ci, ri, pos0, pos);
      pos := pos[column[ri] := BoxAt(ci, ri)];
    }
    ColumnPlaced(nodes, shown, depth, tiers, ci, pos0, pos);
  }

  method Layout(g: Graph, lit: set<string>) returns (plan: Plan)
    ensures Distinct(plan.shown) && forall i :: i in plan.shown <==> IsShown(g, lit, i)
    ensures forall e :: e in plan.edges <==> e in g.links && IsShown(g, lit, e.0) && IsShown(g, lit, e.1)
    ensures Distinct(plan.tiers) && Columns(g, plan.shown, plan.tiers)
    ensures Seated(g.nodes, plan.shown, plan.depth, plan.tiers, plan.pos)
    ensures Attained(plan.edges, plan.shown, plan.depth)
    ensures plan.depth == Passes(AtZero(plan.shown), Sort(plan.edges, EdgeLe), |plan.shown|, |plan.shown|)
    ensures Acyclic(plan.edges) ==> forall v :: v in plan.shown ==> LongestChain(plan.edges, v, plan.depth[v])
    ensures Acyclic(plan.edges) <==> Descends(plan.edges, plan.depth)
    ensures Placed(g.nodes, plan.shown, plan.depth, plan.tiers, plan.pos)
  {
    var shown := Shown(g, lit);
    var edges := Edges(g, shown);
    var depth := Relax(shown, edges);
    var tiers := TierNames(g, shown);
    TierNamesHold(g, shown);
    ShownHold(g, lit);
    ColumnsAre(g, shown);
    var pos := Place(g.nodes, shown, depth, tiers);
    PlacedSeats(g.nodes, shown, depth, tiers, pos);
    plan := Plan(shown, edges, depth, tiers, pos);
  }

  lemma TierNamesHold(g: Graph, shown: seq<string>)
    ensures Distinct(TierNames(g, shown))
    ensures forall i :: i in shown ==> TierOf(g.nodes, i) in TierNames(g, shown)
  {
    var names := Map(shown, (i: string) => TierOf(g.nodes, i));
    SortDistinct(Once(names), TierOrder(g.tiers));
    forall i | i in shown ensures TierOf(g.nodes, i) in TierNames(g, shown) {
      var k :| 0 <= k < |shown| && shown[k] == i;
      assert names[k] == TierOf(g.nodes, i);
    }
  }

  lemma LowerIsDeeper(nodes: seq<Node>, shown: seq<string>, depth: map<string, nat>, tier: string, r: nat, r': nat)
    requires Distinct(shown) && r < r' < |Column(nodes, shown, depth, tier)|
    ensures DepthOf(depth, Column(nodes, shown, depth, tier)[r]) <=
            DepthOf(depth, Column(nodes, shown, depth, tier)[r'])
  {
    var column := Column(nodes, shown, depth, tier);
    ColumnHolds(nodes, shown, depth, tier);
    assert RowOrder(depth)(column[r], column[r']);
  }

  lemma RowsApart(p: Pos, q: Pos)
    requires p == BoxAt(p.col, p.row) && q == BoxAt(q.col, q.row) && p.row < q.row
    ensures p.y + BOX_H < q.y
  {
    var gap := q.row - p.row;
    assert q.row * (BOX_H + ROW_GAP) == p.row * (BOX_H + ROW_GAP) + gap * (BOX_H + ROW_GAP);
  }

  lemma ColumnsApart(p: Pos, q: Pos)
    requires p == BoxAt(p.col, p.row) && q == BoxAt(q.col, q.row) && p.col < q.col
    ensures p.x + BOX_W < q.x
  {
    var gap := q.col - p.col;
    assert q.col * (COL_W + COL_GAP) == p.col * (COL_W + COL_GAP) + gap * (COL_W + COL_GAP);
  }

  /** Inside one column every drawn edge that is not a self-loop runs from a higher box to a lower one, when depths
      grow along every drawn edge. */
  lemma EdgesRunDown(nodes: seq<Node>, shown: seq<string>, edges: seq<Edge>, depth: map<string, nat>,
                     tiers: seq<string>, pos: map<string, Pos>, e: Edge)
    requires Distinct(shown) && Within(edges, shown) && Descends(edges, depth)
    requires Placed(nodes, shown, depth, tiers, pos)
    requires e in edges && e.0 != e.1 && pos[e.0].col == pos[e.1].col
    ensures pos[e.0].row < pos[e.1].row && pos[e.0].y + BOX_H < pos[e.1].y
  {
    var p, q := pos[e.0], pos[e.1];
    assert SitsAt(nodes, shown, depth, tiers, e.0, p) && SitsAt(nodes, shown, depth, tiers, e.1, q);
    if q.row < p.row { LowerIsDeeper(nodes, shown, depth, tiers[p.col], q.row, p.row); }
    RowsApart(p, q);
  }

  lemma PlaceNamesBox(nodes: seq<Node>, shown: seq<string>, depth: map<string, nat>, tiers: seq<string>,
                      pos: map<string, Pos>, a: string, b: string)
    requires Placed(nodes, shown, depth, tiers, pos) && a in pos && b in pos && a != b
    ensures pos[a] == BoxAt(pos[a].col, pos[a].row) && pos[b] == BoxAt(pos[b].col, pos[b].row)
    ensures pos[a].col != pos[b].col || pos[a].row != pos[b].row
  {
    assert SitsAt(nodes, shown, depth, tiers, a, pos[a]) && SitsAt(nodes, shown, depth, tiers, b, pos[b]);
  }

  /** No two boxes overlap. */
  lemma BoxesDisjoint(nodes: seq<Node>, shown: seq<string>, depth: map<string, nat>, tiers: seq<string>,
                      pos: map<string, Pos>, a: string, b: string)
    requires Placed(nodes, shown, depth, tiers, pos) && a in pos && b in pos && a != b
    ensures || pos[a].x + BOX_W < pos[b].x || pos[b].x + BOX_W < pos[a].x
            || pos[a].y + BOX_H < pos[b].y || pos[b].y + BOX_H < pos[a].y
  {
    var p, q := pos[a], pos[b];
    PlaceNamesBox(nodes, shown, depth, tiers, pos, a, b);
    if p.col < q.col {
      ColumnsApart(p, q);
    } else if q.col < p.col {
      ColumnsApart(q, p);
    } else if p.row < q.row {
      RowsApart(p, q);
    } else {
      RowsApart(q, p);
    }
  }
}
