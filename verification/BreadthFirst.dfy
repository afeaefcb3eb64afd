/** Breadth-first search for the nearest of some goals in a directed graph, optionally cut off at a depth: what the
    search loops of omds/mapgraph.py and docs/assets/share.js keep, and what it means when they stop. */
module BreadthFirst {
  import opened Wrappers

  type Arrows = map<string, set<string>>

  // Discovered nodes with their depths, in the order they will be looked at.
  type Queue = seq<(string, nat)>

  function Next(g: Arrows, v: string): set<string> { if v in g then g[v] else {} }

  /** b is reached from a by a walk of exactly n arrows. */
  ghost predicate Walk(g: Arrows, a: string, b: string, n: nat)
    decreases n
  {
    if n == 0 then a == b else exists c :: b in Next(g, c) && Walk(g, a, c, n - 1)
  }

  ghost predicate AtDepth(g: Arrows, a: string, v: string, d: nat) {
    Walk(g, a, v, d) && forall m: nat :: m < d ==> !Walk(g, a, v, m)
  }

  /** No walk of less than n arrows ends in a goal. */
  ghost predicate NoneWithin(g: Arrows, goals: set<string>, a: string, n: nat) {
    forall m: nat, v :: m < n && Walk(g, a, v, m) ==> v !in goals
  }

  ghost predicate NoneReached(g: Arrows, goals: set<string>, a: string) {
    forall m: nat, v :: Walk(g, a, v, m) ==> v !in goals
  }

  /** A goal at the end of a shortest walk to any goal, of n arrows. */
  ghost predicate Nearest(g: Arrows, goals: set<string>, a: string, u: string, n: nat) {
    u in goals && Walk(g, a, u, n) && NoneWithin(g, goals, a, n)
  }

  /** Whether nodes of this depth are still expanded; without a cap they always are. */
  predicate Expands(level: nat, cap: Option<nat>) { cap.None? || level < cap.value }

  ghost predicate Expanded(g: Arrows, v: string, seen: set<string>) { Next(g, v) <= seen }

  /** The queue with one more node, one level further. */
  function Appended(queue: Queue, v: string, level: nat): Queue { queue + [(v, level + 1)] }

  ghost predicate Queued(queue: Queue, v: string) {
    exists i :: 0 <= i < |queue| && queue[i].0 == v
  }

  /** The queue is in order of depth and holds at most two neighbouring depths. */
  ghost predicate Levels(queue: Queue, level: nat, cap: Option<nat>) {
    && (forall i :: 0 <= i < |queue| ==> level <= queue[i].1 <= level + 1)
    && (forall i :: 0 <= i < |queue| && cap.Some? ==> queue[i].1 <= cap.value)
    && (forall i, j :: 0 <= i < j < |queue| ==> queue[i].1 <= queue[j].1)
  }

  ghost predicate Placed(g: Arrows, a: string, seen: set<string>, v: string, d: nat) {
    v in seen && AtDepth(g, a, v, d)
  }

  ghost predicate Handled(g: Arrows, seen: set<string>, queue: Queue, busy: set<string>, v: string) {
    v in busy || Queued(queue, v) || Expanded(g, v, seen)
  }

  /** Queued nodes are discovered and at their exact depths; everything within the level is discovered; no goal is; and
      while the level is expanded, a discovered node outside the queue and busy has its successors discovered. */
  ghost predicate Frontier(g: Arrows, goals: set<string>, cap: Option<nat>, a: string, seen: set<string>,
                           queue: Queue, level: nat, busy: set<string>)
  {
    && a in seen && seen !! goals
    && (cap.Some? ==> level <= cap.value)
    && (forall i :: 0 <= i < |queue| ==> Placed(g, a, seen, queue[i].0, queue[i].1))
    && Levels(queue, level, cap)
    && (forall v, m: nat :: m <= level && Walk(g, a, v, m) ==> v in seen)
    && (forall v :: v in busy ==> Walk(g, a, v, level))
    && (Expands(level, cap) ==> forall v :: v in seen ==> Handled(g, seen, queue, busy, v))
  }

  lemma Start(g: Arrows, goals: set<string>, cap: Option<nat>, a: string)
    requires a !in goals
    ensures Frontier(g, goals, cap, a, {a}, [(a, 0)], 0, {})
  {
    assert [(a, 0)][0].0 == a;
  }

  lemma QueuedBeyond(g: Arrows, goals: set<string>, cap: Option<nat>, a: string, seen: set<string>, queue: Queue,
                     level: nat, i: nat)
    requires Frontier(g, goals, cap, a, seen, queue, level, {}) && i < |queue| && queue[0].1 == level + 1
    ensures !Walk(g, a, queue[i].0, level)
  {
    assert Placed(g, a, seen, queue[i].0, queue[i].1) && queue[0].1 <= queue[i].1;
  }

  /** The level is that of the first queued node: when it moves on, the next level is discovered too. */
  lemma NextLevel(g: Arrows, goals: set<string>, cap: Option<nat>, a: string, seen: set<string>, queue: Queue,
                  level: nat)
    requires Frontier(g, goals, cap, a, seen, queue, level, {}) && queue != []
    ensures Frontier(g, goals, cap, a, seen, queue, queue[0].1, {})
  {
    if queue[0].1 == level + 1 {
      forall i | 0 <= i < |queue| ensures !Walk(g, a, queue[i].0, level) {
        QueuedBeyond(g, goals, cap, a, seen, queue, level, i);
      }
      forall v, m: nat | m <= level + 1 && Walk(g, a, v, m) ensures v in seen {
        if m == level + 1 {
          var c :| v in Next(g, c) && Walk(g, a, c, level);
          assert c in seen && !Queued(queue, c);
        }
      }
    }
  }

  lemma HandledAfterPop(g: Arrows, seen: set<string>, queue: Queue, v: string)
    requires queue != [] && Handled(g, seen, queue, {}, v)
    ensures Handled(g, seen, queue[1..], {queue[0].0}, v)
  {
    if Queued(queue, v) {
      var i :| 0 <= i < |queue| && queue[i].0 == v;
      if i > 0 { assert queue[1..][i - 1].0 == v; }
    }
  }

  /** The first queued node becomes busy; beyond the cap it is simply dropped. */
  lemma Pop(g: Arrows, goals: set<string>, cap: Option<nat>, a: string, seen: set<string>, queue: Queue)
    requires queue != [] && Frontier(g, goals, cap, a, seen, queue, queue[0].1, {})
    ensures Frontier(g, goals, cap, a, seen, queue[1..], queue[0].1, {queue[0].0})
    ensures !Expands(queue[0].1, cap) ==> Frontier(g, goals, cap, a, seen, queue[1..], queue[0].1, {})
  {
    forall v | v in seen && Handled(g, seen, queue, {}, v) ensures Handled(g, seen, queue[1..], {queue[0].0}, v) {
      HandledAfterPop(g, seen, queue, v);
    }
    assert Placed(g, a, seen, queue[0].0, queue[0].1);
    forall i | 0 <= i < |queue[1..]| ensures Placed(g, a, seen, queue[1..][i].0, queue[1..][i].1) {
      assert queue[1..][i] == queue[i + 1];
    }
  }

  lemma HandledStill(g: Arrows, seen: set<string>, queue: Queue, cur: string, nxt: string, level: nat, v: string)
    requires v == nxt || Handled(g, seen, queue, {cur}, v)
    ensures Handled(g, seen + {nxt}, Appended(queue, nxt, level), {cur}, v)
  {
    var queue' := Appended(queue, nxt, level);
    if v == nxt {
      assert queue'[|queue|].0 == nxt;
    } else if Queued(queue, v) {
      var i :| 0 <= i < |queue| && queue[i].0 == v;
      assert queue'[i].0 == v;
    }
  }

  /** A new successor of the busy node goes to the end of the queue, one level further. */
  lemma Enqueue(g: Arrows, goals: set<string>, cap: Option<nat>, a: string, seen: set<string>, queue: Queue,
                level: nat, cur: string, nxt: string)
    requires Frontier(g, goals, cap, a, seen, queue, level, {cur}) && Expands(level, cap)
    requires nxt in Next(g, cur) && nxt !in seen && nxt !in goals
    ensures Frontier(g, goals, cap, a, seen + {nxt}, Appended(queue, nxt, level), level, {cur})
  {
    var queue' := Appended(queue, nxt, level);
    assert cur in {cur} && Walk(g, a, cur, level);
    assert Walk(g, a, nxt, level + 1);
    forall i | 0 <= i < |queue'| ensures Placed(g, a, seen + {nxt}, queue'[i].0, queue'[i].1) {
      if i < |queue| { assert Placed(g, a, seen, queue[i].0, queue[i].1); }
    }
    forall v | v in seen + {nxt} ensures Handled(g, seen + {nxt}, queue', {cur}, v) {
      HandledStill(g, seen, queue, cur, nxt, level, v);
    }
  }

  /** Once all successors of the busy node are discovered, none is busy. */
  lemma DoneExpanding(g: Arrows, goals: set<string>, cap: Option<nat>, a: string, seen: set<string>, queue: Queue,
                      level: nat, cur: string)
    requires Frontier(g, goals, cap, a, seen, queue, level, {cur}) && Next(g, cur) <= seen
    ensures Frontier(g, goals, cap, a, seen, queue, level, {})
  {
    assert Expanded(g, cur, seen);
    forall v | v in seen && Handled(g, seen, queue, {cur}, v) ensures Handled(g, seen, queue, {}, v) {
    }
  }

  /** A goal met next to the busy node is a nearest one. */
  lemma Found(g: Arrows, goals: set<string>, cap: Option<nat>, a: string, seen: set<string>, queue: Queue, level: nat,
              cur: string, u: string)
    requires Frontier(g, goals, cap, a, seen, queue, level, {cur}) && u in Next(g, cur) && u in goals
    ensures Nearest(g, goals, a, u, level + 1)
  {
    assert cur in {cur} && Walk(g, a, cur, level);
    assert Walk(g, a, u, level + 1);
    forall m: nat, v | m < level + 1 && Walk(g, a, v, m) ensures v !in goals {
      assert v in seen;
    }
  }

  lemma {:induction false} ClosedContains(g: Arrows, a: string, v: string, seen: set<string>, m: nat)
    requires a in seen && Walk(g, a, v, m) && forall c :: c in seen ==> Expanded(g, c, seen)
    ensures v in seen
    decreases m
  {
    if m > 0 {
      var c :| v in Next(g, c) && Walk(g, a, c, m - 1);
      ClosedContains(g, a, c, seen, m - 1);
      assert Expanded(g, c, seen);
    }
  }

  /** With nothing left in the queue no goal is within the cap, or none at all. */
  lemma Exhausted(g: Arrows, goals: set<string>, cap: Option<nat>, a: string, seen: set<string>, level: nat, n: nat)
    requires Frontier(g, goals, cap, a, seen, [], level, {}) && (cap.Some? ==> n <= cap.value + 1)
    ensures NoneWithin(g, goals, a, n)
  {
    if Expands(level, cap) {
      forall c | c in seen ensures Expanded(g, c, seen) {
        assert Handled(g, seen, [], {}, c) && !Queued([], c);
      }
      forall m: nat, v | m < n && Walk(g, a, v, m) ensures v !in goals {
        ClosedContains(g, a, v, seen, m);
      }
    }
  }

  lemma NoneAtAll(g: Arrows, goals: set<string>, a: string, seen: set<string>, level: nat)
    requires Frontier(g, goals, None, a, seen, [], level, {})
    ensures NoneReached(g, goals, a)
  {
    forall m: nat, v | Walk(g, a, v, m) ensures v !in goals {
      Exhausted(g, goals, None, a, seen, level, m + 1);
    }
  }

  // ---------------------------------------------------------------- leaving out arrows next to a goal

  ghost predicate MeetsGoal(g: Arrows, goals: set<string>, c: string) {
    exists u :: u in Next(g, c) && u in goals
  }

  ghost predicate CutOnlyAt(g: Arrows, h: Arrows, goals: set<string>, c: string) {
    Next(g, c) <= Next(h, c) && (Next(h, c) <= Next(g, c) || MeetsGoal(g, goals, c))
  }

  /** g has only arrows of h, and all of them except next to a goal. */
  ghost predicate CutAtGoals(g: Arrows, h: Arrows, goals: set<string>) {
    forall c :: CutOnlyAt(g, h, goals, c)
  }

  lemma {:induction false} CutWalk(g: Arrows, h: Arrows, goals: set<string>, a: string, v: string, m: nat)
    requires CutAtGoals(g, h, goals) && Walk(g, a, v, m)
    ensures Walk(h, a, v, m)
    decreases m
  {
    if m > 0 {
      var c :| v in Next(g, c) && Walk(g, a, c, m - 1);
      CutWalk(g, h, goals, a, c, m - 1);
      assert CutOnlyAt(g, h, goals, c);
    }
  }

  /** A walk is kept to its end, or meets a goal no later. */
  lemma {:induction false} WalkKept(g: Arrows, h: Arrows, goals: set<string>, a: string, v: string, m: nat)
    requires CutAtGoals(g, h, goals) && Walk(h, a, v, m) && NoneWithin(g, goals, a, m + 1)
    ensures Walk(g, a, v, m)
    decreases m
  {
    if m > 0 {
      var c :| v in Next(h, c) && Walk(h, a, c, m - 1);
      WalkKept(g, h, goals, a, c, m - 1);
      assert CutOnlyAt(g, h, goals, c);
      forall u | u in Next(g, c) ensures u !in goals {
        assert Walk(g, a, u, m);
      }
    }
  }

  lemma CutNoneWithin(g: Arrows, h: Arrows, goals: set<string>, a: string, n: nat)
    requires CutAtGoals(g, h, goals)
    ensures NoneWithin(g, goals, a, n) <==> NoneWithin(h, goals, a, n)
  {
    if NoneWithin(g, goals, a, n) {
      forall m: nat, v | m < n && Walk(h, a, v, m) ensures v !in goals {
        WalkKept(g, h, goals, a, v, m);
      }
    }
    if NoneWithin(h, goals, a, n) {
      forall m: nat, v | m < n && Walk(g, a, v, m) ensures v !in goals {
        CutWalk(g, h, goals, a, v, m);
      }
    }
  }

  /** The cut changes neither whether a goal is reached nor how far the nearest one is. */
  lemma CutKeepsGoals(g: Arrows, h: Arrows, goals: set<string>, a: string)
    requires CutAtGoals(g, h, goals)
    ensures NoneReached(g, goals, a) <==> NoneReached(h, goals, a)
    ensures forall u, n: nat :: Nearest(g, goals, a, u, n) ==> Nearest(h, goals, a, u, n)
  {
    if NoneReached(g, goals, a) {
      forall m: nat, v | Walk(h, a, v, m) ensures v !in goals {
        CutNoneWithin(g, h, goals, a, m + 1);
      }
    }
    if NoneReached(h, goals, a) {
      forall m: nat, v | Walk(g, a, v, m) ensures v !in goals {
        CutNoneWithin(g, h, goals, a, m + 1);
      }
    }
    forall u, n: nat | Nearest(g, goals, a, u, n) ensures Nearest(h, goals, a, u, n) {
      CutNoneWithin(g, h, goals, a, n);
      CutWalk(g, h, goals, a, u, n);
    }
  }
}
