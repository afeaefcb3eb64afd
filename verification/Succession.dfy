/** toLatest of docs/assets/share.js: carrying a shared selection to a newer snapshot, by uid and then through the
    supersede records, which may form cycles. */
module Succession {
  import opened BreadthFirst
  import opened Ordering
  import opened Wrappers

  type Successors = map<string, seq<string>>
  datatype SnapNode = SnapNode(id: string, uid: string)
  datatype Carried = Carried(ids: seq<string>, renamed: seq<(string, string)>,
                             superseded: seq<(string, string)>, removed: seq<string>)

  /** new Map(...): the last entry for a key wins. */
  function UidOfId(nodes: seq<SnapNode>): (m: map<string, string>)
    ensures forall id :: id in m <==> exists n :: n in nodes && n.id == id
  {
    if nodes == [] then map[]
    else
      assert nodes == nodes[..|nodes| - 1] + [nodes[|nodes| - 1]];
      UidOfId(nodes[..|nodes| - 1])[nodes[|nodes| - 1].id := nodes[|nodes| - 1].uid]
  }

  function IdOfUid(nodes: seq<SnapNode>): (m: map<string, string>)
    ensures forall u :: u in m ==> exists n :: n in nodes && n.uid == u && n.id == m[u]
    ensures forall n :: n in nodes ==> n.uid in m
  {
    if nodes == [] then map[]
    else
      assert nodes == nodes[..|nodes| - 1] + [nodes[|nodes| - 1]];
      IdOfUid(nodes[..|nodes| - 1])[nodes[|nodes| - 1].uid := nodes[|nodes| - 1].id]
  }

  /** Place k holds the last node with the id. */
  ghost predicate LastWithId(nodes: seq<SnapNode>, id: string, k: nat) {
    k < |nodes| && nodes[k].id == id && forall j :: k < j < |nodes| ==> nodes[j].id != id
  }

  /** The last node of a snapshot with the id has the uid. */
  ghost predicate HasUid(nodes: seq<SnapNode>, id: string, uid: string) {
    exists k: nat :: LastWithId(nodes, id, k) && nodes[k].uid == uid
  }

  lemma LastWithIdMore(nodes: seq<SnapNode>, id: string, k: nat)
    requires nodes != [] && LastWithId(nodes[..|nodes| - 1], id, k) && nodes[|nodes| - 1].id != id
    ensures LastWithId(nodes, id, k)
  {
    var init := nodes[..|nodes| - 1];
    assert nodes == init + [nodes[|nodes| - 1]];
  }

  lemma {:induction false} FindId(nodes: seq<SnapNode>, id: string) returns (k: nat)
    requires id in UidOfId(nodes)
    ensures LastWithId(nodes, id, k) && UidOfId(nodes)[id] == nodes[k].uid
  {
    var n := |nodes| - 1;
    if nodes[n].id == id {
      k := n;
    } else {
      k := FindId(nodes[..n], id);
      LastWithIdMore(nodes, id, k);
    }
  }

  lemma UidLookedUp(nodes: seq<SnapNode>, id: string, uid: string)
    ensures HasUid(nodes, id, uid) <==> id in UidOfId(nodes) && UidOfId(nodes)[id] == uid
  {
    if id in UidOfId(nodes) {
      var k := FindId(nodes, id);
    }
    if HasUid(nodes, id, uid) {
      var k: nat :| LastWithId(nodes, id, k) && nodes[k].uid == uid;
      assert nodes[k] in nodes;
    }
  }

  /** Place k holds the last node with the uid. */
  ghost predicate LastWithUid(nodes: seq<SnapNode>, uid: string, k: nat) {
    k < |nodes| && nodes[k].uid == uid && forall j :: k < j < |nodes| ==> nodes[j].uid != uid
  }

  /** The last node of a snapshot with the uid has the id. */
  ghost predicate HasId(nodes: seq<SnapNode>, uid: string, id: string) {
    exists k: nat :: LastWithUid(nodes, uid, k) && nodes[k].id == id
  }

  lemma LastWithUidMore(nodes: seq<SnapNode>, uid: string, k: nat)
    requires nodes != [] && LastWithUid(nodes[..|nodes| - 1], uid, k) && nodes[|nodes| - 1].uid != uid
    ensures LastWithUid(nodes, uid, k)
  {
    var init := nodes[..|nodes| - 1];
    assert nodes == init + [nodes[|nodes| - 1]];
  }

  lemma {:induction false} FindUid(nodes: seq<SnapNode>, uid: string) returns (k: nat)
    requires uid in IdOfUid(nodes)
    ensures LastWithUid(nodes, uid, k) && IdOfUid(nodes)[uid] == nodes[k].id
  {
    var n := |nodes| - 1;
    if nodes[n].uid == uid {
      k := n;
    } else {
      k := FindUid(nodes[..n], uid);
      LastWithUidMore(nodes, uid, k);
    }
  }

  lemma IdLookedUp(nodes: seq<SnapNode>, uid: string, id: string)
    ensures HasId(nodes, uid, id) <==> uid in IdOfUid(nodes) && IdOfUid(nodes)[uid] == id
  {
    if uid in IdOfUid(nodes) {
      var k := FindUid(nodes, uid);
    }
    if HasId(nodes, uid, id) {
      var k: nat :| LastWithUid(nodes, uid, k) && nodes[k].id == id;
      assert nodes[k] in nodes;
    }
  }

  function Listed(succ: Successors, u: string): seq<string> {
    if u in succ then succ[u] else []
  }

  /** The supersede records as a graph. */
  function Plain(succ: Successors): Arrows {
    map u | u in succ :: set v | v in succ[u]
  }

  // ---------------------------------------------------------------- which successors the search follows

  function FirstLive(us: seq<string>, live: map<string, string>): (k: nat)
    ensures k <= |us| && (k < |us| ==> us[k] in live)
    ensures forall j :: 0 <= j < k ==> us[j] !in live
  {
    if us == [] || us[0] in live then 0 else FirstLive(us[1..], live) + 1
  }

  /** The uids whose id is not the empty string, which the search would read as not found. */
  function Named(live: map<string, string>): set<string> {
    set u | u in live && live[u] != ""
  }

  ghost predicate NoEmptyId(live: map<string, string>) {
    forall u :: u in live ==> live[u] != ""
  }

  /** The loop over the successors of a uid stops at the first live one, and drops that one if its id is empty. */
  function FollowedOf(us: seq<string>, live: map<string, string>): set<string> {
    var k := FirstLive(us, live);
    (set v | v in us[..k]) + (if k < |us| && us[k] in Named(live) then {us[k]} else {})
  }

  function Followed(succ: Successors, live: map<string, string>): Arrows {
    map u | u in succ :: FollowedOf(succ[u], live)
  }

  /** The id of a uid at the fewest steps among those that have an id. */
  ghost predicate IdOfNearest(g: Arrows, live: map<string, string>, uid: string, id: string) {
    exists u, n: nat :: Nearest(g, Named(live), uid, u, n) && live[u] == id
  }

  // ---------------------------------------------------------------- the search

  ghost function Mentioned(succ: Successors, a: string): set<string> {
    {a} + set u, i | u in succ && 0 <= i < |succ[u]| :: succ[u][i]
  }

  /** The uids of a queue, without their depths. */
  ghost predicate Names(todo: seq<string>, queue: Queue) {
    |todo| == |queue| && forall i :: 0 <= i < |todo| ==> todo[i] == queue[i].0
  }

  /** Where the search stands. */
  ghost predicate Searching(succ: Successors, live: map<string, string>, a: string, seen: set<string>,
                            todo: seq<string>, queue: Queue, level: nat, busy: set<string>)
  {
    && seen <= Mentioned(succ, a) && Names(todo, queue)
    && Frontier(Followed(succ, live), Named(live), None, a, seen, queue, level, busy)
  }

  lemma FollowedUpTo(succ: Successors, live: map<string, string>, cur: string, k: nat)
    requires k <= |Listed(succ, cur)| && forall j :: 0 <= j < k ==> Listed(succ, cur)[j] !in live
    requires k < |Listed(succ, cur)| ==> Listed(succ, cur)[k] in live
    ensures var us := Listed(succ, cur);
            Next(Followed(succ, live), cur) ==
            (set v | v in us[..k]) + (if k < |us| && us[k] in Named(live) then {us[k]} else {})
  {
    assert FirstLive(Listed(succ, cur), live) == k;
  }

  /** The first k successors are discovered and none of them is live. */
  ghost predicate Passed(us: seq<string>, k: nat, live: map<string, string>, seen: set<string>)
    requires k <= |us|
  {
    forall j :: 0 <= j < k ==> us[j] !in live && us[j] in seen
  }

  lemma OnePassed(us: seq<string>, k: nat, live: map<string, string>, seen: set<string>, seen': set<string>)
    requires k < |us| && Passed(us, k, live, seen) && seen <= seen' && us[k] !in live && us[k] in seen'
    ensures Passed(us, k + 1, live, seen')
  {
  }

  lemma Discovers(succ: Successors, live: map<string, string>, a: string, seen: set<string>, todo: seq<string>,
                  queue: Queue, level: nat, cur: string, k: nat)
    requires Searching(succ, live, a, seen, todo, queue, level, {cur}) && k < |Listed(succ, cur)|
    requires Passed(Listed(succ, cur), k, live, seen)
    requires Listed(succ, cur)[k] !in live && Listed(succ, cur)[k] !in seen
    ensures var u := Listed(succ, cur)[k];
            Searching(succ, live, a, seen + {u}, todo + [u], Appended(queue, u, level), level, {cur})
  {
    var us, u := Listed(succ, cur), Listed(succ, cur)[k];
    assert us[..FirstLive(us, live)][k] == u;
    Enqueue(Followed(succ, live), Named(live), None, a, seen, queue, level, cur, u);
  }

  /** The loop stops at a live successor: it is a nearest one, or its id is empty and the uid is done with. */
  lemma StopsAtLive(succ: Successors, live: map<string, string>, a: string, seen: set<string>, todo: seq<string>,
                    queue: Queue, level: nat, cur: string, k: nat)
    requires Searching(succ, live, a, seen, todo, queue, level, {cur})
    requires k < |Listed(succ, cur)| && Listed(succ, cur)[k] in live
    requires Passed(Listed(succ, cur), k, live, seen)
    ensures var id := live[Listed(succ, cur)[k]];
            if id != "" then IdOfNearest(Followed(succ, live), live, a, id)
            else Searching(succ, live, a, seen, todo, queue, level, {})
  {
    var g, u := Followed(succ, live), Listed(succ, cur)[k];
    FollowedUpTo(succ, live, cur, k);
    if live[u] != "" {
      Found(g, Named(live), None, a, seen, queue, level, cur, u);
    } else {
      DoneExpanding(g, Named(live), None, a, seen, queue, level, cur);
    }
  }

  lemma StopsAtEnd(succ: Successors, live: map<string, string>, a: string, seen: set<string>, todo: seq<string>,
                   queue: Queue, level: nat, cur: string)
    requires Searching(succ, live, a, seen, todo, queue, level, {cur})
    requires Passed(Listed(succ, cur), |Listed(succ, cur)|, live, seen)
    ensures Searching(succ, live, a, seen, todo, queue, level, {})
  {
    FollowedUpTo(succ, live, cur, |Listed(succ, cur)|);
    DoneExpanding(Followed(succ, live), Named(live), None, a, seen, queue, level, cur);
  }

  /** The inner loop: the successors of one uid. */
  method Expand(succ: Successors, live: map<string, string>, ghost uid: string, seen: set<string>, todo: seq<string>,
                ghost queue: Queue, ghost level: nat, cur: string)
    returns (found: Option<string>, seen': set<string>, todo': seq<string>, ghost queue': Queue)
    requires Searching(succ, live, uid, seen, todo, queue, level, {cur})
    ensures Truthy(found) ==> IdOfNearest(Followed(succ, live), live, uid, found.value)
    ensures !Truthy(found) ==> Searching(succ, live, uid, seen', todo', queue', level, {})
    ensures seen <= seen' <= Mentioned(succ, uid) && (seen' == seen ==> |todo'| == |todo|)
  {
    seen', todo', queue' := seen, todo, queue;
    var next := Listed(succ, cur);
    for k := 0 to |next|
      invariant Searching(succ, live, uid, seen', todo', queue', level, {cur})
      invariant Passed(next, k, live, seen')
      invariant seen <= seen' && (seen' == seen ==> |todo'| == |todo|)
    {
      var u := next[k];
      if u in live {
        StopsAtLive(succ, live, uid, seen', todo', queue', level, cur, k);
        found := Some(live[u]);
        return;
      }
      if u !in seen' {
        OnePassed(next, k, live, seen', seen' + {u});
        Discovers(succ, live, uid, seen', todo', queue', level, cur, k);
        seen', todo', queue' := seen' + {u}, todo' + [u], Appended(queue', u, level);
      } else {
        OnePassed(next, k, live, seen', seen');
      }
    }
    StopsAtEnd(succ, live, uid, seen', todo', queue', level, cur);
    found := None;
  }

  /** A JavaScript value that is neither null nor the empty string. */
  predicate Truthy(found: Option<string>) { found.Some? && found.value != "" }

  /** The search: the id of the first live uid met through the supersede records. */
  method FindLive(succ: Successors, live: map<string, string>, uid: string) returns (found: Option<string>)
    requires uid !in live
    ensures Truthy(found) <==> !NoneReached(Followed(succ, live), Named(live), uid)
    ensures Truthy(found) ==> IdOfNearest(Followed(succ, live), live, uid, found.value)
  {
    var seen: set<string> := {uid};
    var todo := [uid];
    ghost var queue: Queue := [(uid, 0)];
    ghost var level: nat := 0;
    found := None;
    Start(Followed(succ, live), Named(live), None, uid);
    while todo != [] && !Truthy(found)
      invariant seen <= Mentioned(succ, uid)
      invariant Truthy(found) ==> IdOfNearest(Followed(succ, live), live, uid, found.value)
      invariant !Truthy(found) ==> Searching(succ, live, uid, seen, todo, queue, level, {})
      decreases Mentioned(succ, uid) - seen, |todo|
    {
      var cur := todo[0];
      ghost var seen0 := seen;
      Advances(succ, live, uid, seen, todo, queue, level);
      level := queue[0].1;
      var hit;
      hit, seen, todo, queue := Expand(succ, live, uid, seen, todo[1..], queue[1..], level, cur);
      if hit.Some? {
        found := hit;
      }
      assert seen != seen0 ==> exists v :: v in seen && v !in seen0;
    }
    if Truthy(found) {
      FoundIsReached(Followed(succ, live), live, uid, found.value);
    } else {
      assert queue == [];
      NoneAtAll(Followed(succ, live), Named(live), uid, seen, level);
    }
  }

  lemma Advances(succ: Successors, live: map<string, string>, a: string, seen: set<string>, todo: seq<string>,
                 queue: Queue, level: nat)
    requires Searching(succ, live, a, seen, todo, queue, level, {}) && todo != []
    ensures Searching(succ, live, a, seen, todo[1..], queue[1..], queue[0].1, {todo[0]})
  {
    NextLevel(Followed(succ, live), Named(live), None, a, seen, queue, level);
    Pop(Followed(succ, live), Named(live), None, a, seen, queue);
  }

  lemma FoundIsReached(g: Arrows, live: map<string, string>, uid: string, id: string)
    requires IdOfNearest(g, live, uid, id)
    ensures !NoneReached(g, Named(live), uid)
  {
    var u, n: nat :| Nearest(g, Named(live), uid, u, n) && live[u] == id;
    assert Walk(g, uid, u, n);
  }

  // ---------------------------------------------------------------- when that is every supersede record

  lemma FollowedIsCut(succ: Successors, live: map<string, string>, c: string)
    requires NoEmptyId(live)
    ensures CutOnlyAt(Followed(succ, live), Plain(succ), Named(live), c)
  {
    if c in succ {
      var us, k := succ[c], FirstLive(succ[c], live);
      if k < |us| {
        assert us[k] in FollowedOf(us, live);
        assert us[k] in Next(Followed(succ, live), c);
      } else {
        assert us[..k] == us;
      }
    }
  }

  /** Without empty ids the search loses no live uid by stopping its loops early. */
  lemma SearchIsPlain(succ: Successors, live: map<string, string>, a: string)
    requires NoEmptyId(live)
    ensures NoneReached(Followed(succ, live), Named(live), a) <==> NoneReached(Plain(succ), Named(live), a)
    ensures forall u, n: nat :: Nearest(Followed(succ, live), Named(live), a, u, n) ==>
                                Nearest(Plain(succ), Named(live), a, u, n)
  {
    forall c ensures CutOnlyAt(Followed(succ, live), Plain(succ), Named(live), c) {
      FollowedIsCut(succ, live, c);
    }
    CutKeepsGoals(Followed(succ, live), Plain(succ), Named(live), a);
  }

  /** For a uid that is not live: the search finds a live uid whenever one is reachable, for every set of supersede
      records, if and only if no live uid has the empty string for its id. */
  lemma SearchIsPlainIff(live: map<string, string>, a: string)
    requires a !in live
    ensures NoEmptyId(live) <==>
            forall succ :: NoneReached(Followed(succ, live), Named(live), a) <==>
                           NoneReached(Plain(succ), live.Keys, a)
  {
    if NoEmptyId(live) {
      assert Named(live) == live.Keys;
      forall succ ensures NoneReached(Followed(succ, live), Named(live), a) <==>
                          NoneReached(Plain(succ), live.Keys, a)
      {
        SearchIsPlain(succ, live, a);
      }
    } else {
      var x :| x in live && live[x] == "";
      EmptyIdHides(live, a, x);
    }
  }

  /** One record from a to a live uid whose id is empty: reachable, but not found. */
  lemma EmptyIdHides(live: map<string, string>, a: string, x: string)
    requires a !in live && x in live && live[x] == ""
    ensures NoneReached(Followed(map[a := [x]], live), Named(live), a)
    ensures !NoneReached(Plain(map[a := [x]]), live.Keys, a)
  {
    var succ: Successors := map[a := [x]];
    FollowedUpTo(succ, live, a, 0);
    assert Next(Followed(succ, live), a) == {};
    forall m: nat, v | Walk(Followed(succ, live), a, v, m) ensures v !in Named(live) {
      ClosedContains(Followed(succ, live), a, v, {a}, m);
    }
    assert Listed(succ, a)[0] == x && x in Next(Plain(succ), a);
    assert Walk(Plain(succ), a, a, 0);
    assert Walk(Plain(succ), a, x, 1);
  }

  // ---------------------------------------------------------------- one id, and all of them

  datatype Fate = Kept(now: string) | Replaced(now: string) | Removed

  /** What becomes of one id of the old snapshot. */
  ghost predicate FateOf(uid: string, g: Arrows, live: map<string, string>, fate: Fate) {
    if uid in live then fate == Kept(live[uid])
    else match fate
         case Kept(_) => false
         case Replaced(now) => IdOfNearest(g, live, uid, now)
         case Removed => NoneReached(g, Named(live), uid)
  }

  function Nows(fates: seq<Fate>): seq<string> {
    if fates == [] then []
    else Nows(fates[..|fates| - 1]) + (if fates[|fates| - 1].Removed? then [] else [fates[|fates| - 1].now])
  }

  function Renamed(ids: seq<string>, fates: seq<Fate>): seq<(string, string)>
    requires |ids| == |fates|
  {
    if ids == [] then []
    else
      var id, fate := ids[|ids| - 1], fates[|ids| - 1];
      Renamed(ids[..|ids| - 1], fates[..|ids| - 1]) + (if fate.Kept? && fate.now != id then [(id, fate.now)] else [])
  }

  function Superseded(ids: seq<string>, fates: seq<Fate>): seq<(string, string)>
    requires |ids| == |fates|
  {
    if ids == [] then []
    else
      var id, fate := ids[|ids| - 1], fates[|ids| - 1];
      Superseded(ids[..|ids| - 1], fates[..|ids| - 1]) + (if fate.Replaced? then [(id, fate.now)] else [])
  }

  function Gone(ids: seq<string>, fates: seq<Fate>): seq<string>
    requires |ids| == |fates|
  {
    if ids == [] then []
    else Gone(ids[..|ids| - 1], fates[..|ids| - 1]) + (if fates[|ids| - 1].Removed? then [ids[|ids| - 1]] else [])
  }

  ghost predicate FatesHold(uidOf: map<string, string>, g: Arrows, live: map<string, string>, ids: seq<string>,
                            fates: seq<Fate>)
  {
    |fates| == |ids| && forall k :: 0 <= k < |ids| ==> ids[k] in uidOf && FateOf(uidOf[ids[k]], g, live, fates[k])
  }

  /** The four lists of the given fates. */
  ghost predicate Lists(ids: seq<string>, fates: seq<Fate>, out: Carried) {
    && |fates| == |ids|
    && out == Carried(Once(Nows(fates)), Renamed(ids, fates), Superseded(ids, fates), Gone(ids, fates))
  }

  lemma OneMore(ids: seq<string>, k: nat, fates: seq<Fate>, fate: Fate)
    requires k < |ids| && |fates| == k
    ensures var id, fates' := ids[k], fates + [fate];
            && Nows(fates') == Nows(fates) + (if fate.Removed? then [] else [fate.now])
            && Renamed(ids[..k + 1], fates') ==
               Renamed(ids[..k], fates) + (if fate.Kept? && fate.now != id then [(id, fate.now)] else [])
            && Superseded(ids[..k + 1], fates') ==
               Superseded(ids[..k], fates) + (if fate.Replaced? then [(id, fate.now)] else [])
            && Gone(ids[..k + 1], fates') == Gone(ids[..k], fates) + (if fate.Removed? then [id] else [])
  {
    assert ids[..k + 1][..k] == ids[..k] && (fates + [fate])[..k] == fates;
  }

  lemma FatesGrow(uidOf: map<string, string>, g: Arrows, live: map<string, string>, ids: seq<string>, k: nat,
                  fates: seq<Fate>, fate: Fate)
    requires k < |ids| && FatesHold(uidOf, g, live, ids[..k], fates)
    requires ids[k] in uidOf && FateOf(uidOf[ids[k]], g, live, fate)
    ensures FatesHold(uidOf, g, live, ids[..k + 1], fates + [fate])
  {
    assert ids[..k + 1] == ids[..k] + [ids[k]];
  }

  /** Some occurrence of the id has the fate. */
  ghost predicate Meets(ids: seq<string>, fates: seq<Fate>, id: string, fate: Fate)
    requires |ids| == |fates|
  {
    exists k :: 0 <= k < |ids| && ids[k] == id && fates[k] == fate
  }

  lemma MeetsStep(ids: seq<string>, fates: seq<Fate>, id: string, fate: Fate)
    requires |ids| == |fates| && ids != []
    ensures Meets(ids, fates, id, fate) <==>
            Meets(ids[..|ids| - 1], fates[..|ids| - 1], id, fate) ||
            (ids[|ids| - 1] == id && fates[|ids| - 1] == fate)
  {
    var n := |ids| - 1;
    if Meets(ids[..n], fates[..n], id, fate) {
      var k :| 0 <= k < n && ids[..n][k] == id && fates[..n][k] == fate;
      assert ids[k] == id && fates[k] == fate;
    }
    if Meets(ids, fates, id, fate) {
      var k :| 0 <= k < |ids| && ids[k] == id && fates[k] == fate;
      assert k < n ==> ids[..n][k] == id && fates[..n][k] == fate;
    }
  }

  lemma {:induction false} GoneMembers(ids: seq<string>, fates: seq<Fate>, id: string)
    requires |ids| == |fates|
    ensures id in Gone(ids, fates) <==> Meets(ids, fates, id, Removed)
  {
    if ids != [] {
      GoneMembers(ids[..|ids| - 1], fates[..|ids| - 1], id);
      MeetsStep(ids, fates, id, Removed);
    }
  }

  lemma {:induction false} SupersededMembers(ids: seq<string>, fates: seq<Fate>, id: string, now: string)
    requires |ids| == |fates|
    ensures (id, now) in Superseded(ids, fates) <==> Meets(ids, fates, id, Replaced(now))
  {
    if ids != [] {
      SupersededMembers(ids[..|ids| - 1], fates[..|ids| - 1], id, now);
      MeetsStep(ids, fates, id, Replaced(now));
    }
  }

  lemma {:induction false} RenamedMembers(ids: seq<string>, fates: seq<Fate>, id: string, now: string)
    requires |ids| == |fates|
    ensures (id, now) in Renamed(ids, fates) <==> Meets(ids, fates, id, Kept(now)) && now != id
  {
    if ids != [] {
      RenamedMembers(ids[..|ids| - 1], fates[..|ids| - 1], id, now);
      MeetsStep(ids, fates, id, Kept(now));
    }
  }

  lemma {:induction false} NowsMembers(fates: seq<Fate>, now: string)
    ensures now in Nows(fates) <==> exists k :: 0 <= k < |fates| && !fates[k].Removed? && fates[k].now == now
  {
    if fates != [] {
      var n := |fates| - 1;
      NowsMembers(fates[..n], now);
      if k :| 0 <= k < |fates| && !fates[k].Removed? && fates[k].now == now {
        assert k < n ==> fates[..n][k] == fates[k];
      }
    }
  }

  /** Each id of the selection has exactly one fate: kept when its uid is live, removed exactly when it is not and no
      live uid with an id is reachable from it, superseded otherwise. */
  lemma FatesPartition(uidOf: map<string, string>, g: Arrows, live: map<string, string>, ids: seq<string>,
                       fates: seq<Fate>, out: Carried, id: string)
    requires FatesHold(uidOf, g, live, ids, fates) && Lists(ids, fates, out) && id in ids
    ensures id in uidOf
    ensures id in out.removed <==> uidOf[id] !in live && NoneReached(g, Named(live), uidOf[id])
    ensures (exists now :: (id, now) in out.superseded) <==>
            uidOf[id] !in live && !NoneReached(g, Named(live), uidOf[id])
  {
    GoneMembers(ids, fates, id);
    var k :| 0 <= k < |ids| && ids[k] == id;
    OneFate(uidOf[id], g, live, fates[k]);
    assert fates[k].Removed? ==> Meets(ids, fates, id, Removed);
    assert fates[k].Replaced? ==> Meets(ids, fates, id, Replaced(fates[k].now));
    if Meets(ids, fates, id, Removed) {
      var j :| 0 <= j < |ids| && ids[j] == id && fates[j] == Removed;
      OneFate(uidOf[id], g, live, fates[j]);
    }
    forall now | (id, now) in out.superseded
      ensures uidOf[id] !in live && !NoneReached(g, Named(live), uidOf[id])
    {
      SupersededMembers(ids, fates, id, now);
      var j :| 0 <= j < |ids| && ids[j] == id && fates[j] == Replaced(now);
      OneFate(uidOf[id], g, live, fates[j]);
    }
    if fates[k].Replaced? { SupersededMembers(ids, fates, id, fates[k].now); }
  }

  /** Where an id went: a kept one to the id its uid now has, listed as renamed exactly when that differs; a superseded
      one to the id of a live uid at the fewest supersede steps. */
  lemma CarriedTo(uidOf: map<string, string>, g: Arrows, live: map<string, string>, ids: seq<string>,
                  fates: seq<Fate>, out: Carried, id: string, now: string)
    requires FatesHold(uidOf, g, live, ids, fates) && Lists(ids, fates, out) && id in ids
    ensures uidOf[id] in live ==> live[uidOf[id]] in out.ids
    ensures (id, now) in out.renamed <==> uidOf[id] in live && now == live[uidOf[id]] && now != id
    ensures (id, now) in out.superseded ==> now in out.ids && IdOfNearest(g, live, uidOf[id], now)
  {
    var k :| 0 <= k < |ids| && ids[k] == id;
    if uidOf[id] in live {
      NowsMembers(fates, live[uidOf[id]]);
      assert fates[k] == Kept(live[uidOf[id]]);
      assert Meets(ids, fates, id, Kept(live[uidOf[id]]));
    }
    RenamedMembers(ids, fates, id, now);
    if (id, now) in out.superseded {
      SupersededMembers(ids, fates, id, now);
      var j :| 0 <= j < |ids| && ids[j] == id && fates[j] == Replaced(now);
      NowsMembers(fates, now);
    }
  }

  ghost predicate Brings(uidOf: map<string, string>, live: map<string, string>, out: Carried, id: string,
                         now: string)
    requires id in uidOf
  {
    (uidOf[id] in live && live[uidOf[id]] == now) || (id, now) in out.superseded
  }

  /** The new selection has no id twice, and has exactly the ids that some id of the old one was carried to. */
  lemma NothingElseCarried(uidOf: map<string, string>, g: Arrows, live: map<string, string>, ids: seq<string>,
                           fates: seq<Fate>, out: Carried, now: string)
    requires FatesHold(uidOf, g, live, ids, fates) && Lists(ids, fates, out)
    ensures Distinct(out.ids)
    ensures now in out.ids <==> exists id :: id in ids && Brings(uidOf, live, out, id, now)
  {
    NowsMembers(fates, now);
    if now in out.ids {
      var k :| 0 <= k < |fates| && !fates[k].Removed? && fates[k].now == now;
      assert FateOf(uidOf[ids[k]], g, live, fates[k]);
      if fates[k].Replaced? {
        assert Meets(ids, fates, ids[k], Replaced(now));
        SupersededMembers(ids, fates, ids[k], now);
      }
      assert ids[k] in ids && Brings(uidOf, live, out, ids[k], now);
    }
    if id :| id in ids && Brings(uidOf, live, out, id, now) {
      CarriedTo(uidOf, g, live, ids, fates, out, id, now);
    }
  }

  lemma OneFate(uid: string, g: Arrows, live: map<string, string>, fate: Fate)
    requires FateOf(uid, g, live, fate)
    ensures fate.Removed? <==> uid !in live && NoneReached(g, Named(live), uid)
    ensures fate.Kept? <==> uid in live
  {
    if uid !in live && fate.Replaced? {
      FoundIsReached(g, live, uid, fate.now);
    }
  }

  /** Without empty ids the fates are those of the whole graph of supersede records. */
  lemma FatesArePlain(uidOf: map<string, string>, succ: Successors, live: map<string, string>, ids: seq<string>,
                      fates: seq<Fate>)
    requires NoEmptyId(live) && FatesHold(uidOf, Followed(succ, live), live, ids, fates)
    ensures FatesHold(uidOf, Plain(succ), live, ids, fates)
  {
    forall k | 0 <= k < |ids| ensures FateOf(uidOf[ids[k]], Plain(succ), live, fates[k]) {
      var uid := uidOf[ids[k]];
      assert FateOf(uid, Followed(succ, live), live, fates[k]);
      SearchIsPlain(succ, live, uid);
      if uid !in live && fates[k].Replaced? {
        var u, n: nat :| Nearest(Followed(succ, live), Named(live), uid, u, n) && live[u] == fates[k].now;
        assert Nearest(Plain(succ), Named(live), uid, u, n);
      }
    }
  }

  ghost predicate Goes(out: Carried, id: string, now: string) {
    now in out.ids && ((id, now) in out.renamed <==> now != id)
  }

  ghost predicate NewUid(nodes: seq<SnapNode>, uid: string) { exists n :: n in nodes && n.uid == uid }

  /** A selected node whose uid is in the new snapshot is carried to the id it has there, and is listed as renamed
      exactly when that is another id. */
  ghost predicate CarriedByUid(oldNodes: seq<SnapNode>, newNodes: seq<SnapNode>, ids: seq<string>, out: Carried) {
    forall id, uid, now :: id in ids && HasUid(oldNodes, id, uid) && HasId(newNodes, uid, now) ==>
      Goes(out, id, now)
  }

  /** A selected node is listed as removed only if no new node has its uid. */
  ghost predicate NoneLost(oldNodes: seq<SnapNode>, newNodes: seq<SnapNode>, ids: seq<string>, out: Carried) {
    forall id, uid :: id in out.removed && HasUid(oldNodes, id, uid) ==>
      id in ids && !NewUid(newNodes, uid)
  }

  lemma UidCarries(oldNodes: seq<SnapNode>, newNodes: seq<SnapNode>, g: Arrows, ids: seq<string>, fates: seq<Fate>,
                   out: Carried, id: string, uid: string, now: string)
    requires FatesHold(UidOfId(oldNodes), g, IdOfUid(newNodes), ids, fates) && Lists(ids, fates, out)
    requires id in ids && HasUid(oldNodes, id, uid) && HasId(newNodes, uid, now)
    ensures Goes(out, id, now)
  {
    UidLookedUp(oldNodes, id, uid);
    IdLookedUp(newNodes, uid, now);
    CarriedTo(UidOfId(oldNodes), g, IdOfUid(newNodes), ids, fates, out, id, now);
  }

  lemma RemovedIsGone(oldNodes: seq<SnapNode>, newNodes: seq<SnapNode>, g: Arrows, ids: seq<string>,
                      fates: seq<Fate>, out: Carried, id: string, uid: string)
    requires FatesHold(UidOfId(oldNodes), g, IdOfUid(newNodes), ids, fates) && Lists(ids, fates, out)
    requires id in out.removed && HasUid(oldNodes, id, uid)
    ensures id in ids && !NewUid(newNodes, uid)
  {
    GoneMembers(ids, fates, id);
    UidLookedUp(oldNodes, id, uid);
    FatesPartition(UidOfId(oldNodes), g, IdOfUid(newNodes), ids, fates, out, id);
  }

  lemma UidsCarry(oldNodes: seq<SnapNode>, newNodes: seq<SnapNode>, g: Arrows, ids: seq<string>, fates: seq<Fate>,
                  out: Carried)
    requires FatesHold(UidOfId(oldNodes), g, IdOfUid(newNodes), ids, fates) && Lists(ids, fates, out)
    ensures CarriedByUid(oldNodes, newNodes, ids, out) && NoneLost(oldNodes, newNodes, ids, out)
  {
    forall id, uid, now | id in ids && HasUid(oldNodes, id, uid) && HasId(newNodes, uid, now)
      ensures Goes(out, id, now)
    {
      UidCarries(oldNodes, newNodes, g, ids, fates, out, id, uid, now);
    }
    forall id, uid | id in out.removed && HasUid(oldNodes, id, uid)
      ensures id in ids && !NewUid(newNodes, uid)
    {
      RemovedIsGone(oldNodes, newNodes, g, ids, fates, out, id, uid);
    }
  }

  /** The four lists of toLatest. */
  method ToLatest(oldNodes: seq<SnapNode>, newNodes: seq<SnapNode>, succ: Successors, ids: seq<string>)
    returns (out: Carried)
    requires forall k :: 0 <= k < |ids| ==> ids[k] in UidOfId(oldNodes)
    ensures exists fates ::
              && FatesHold(UidOfId(oldNodes), Followed(succ, IdOfUid(newNodes)), IdOfUid(newNodes), ids, fates)
              && Lists(ids, fates, out)
    ensures CarriedByUid(oldNodes, newNodes, ids, out) && NoneLost(oldNodes, newNodes, ids, out)
  {
    var uidOf, live := UidOfId(oldNodes), IdOfUid(newNodes);
    ghost var g, fates: seq<Fate> := Followed(succ, live), [];
    var nows, renamed, superseded, removed := [], [], [], [];
    for k := 0 to |ids|
      invariant |fates| == k && FatesHold(uidOf, g, live, ids[..k], fates)
      invariant nows == Nows(fates) && renamed == Renamed(ids[..k], fates)
      invariant superseded == Superseded(ids[..k], fates) && removed == Gone(ids[..k], fates)
    {
      var id := ids[k];
      var uid := uidOf[id];
      ghost var fate: Fate;
      if uid in live {
        var now := live[uid];
        nows := nows + [now];
        if now != id {
          renamed := renamed + [(id, now)];
        }
        fate := Kept(now);
      } else {
        var found := FindLive(succ, live, uid);
        if Truthy(found) {
          nows := nows + [found.value];
          superseded := superseded + [(id, found.value)];
          fate := Replaced(found.value);
        } else {
          removed := removed + [id];
          fate := Removed;
        }
      }
      OneMore(ids, k, fates, fate);
      FatesGrow(uidOf, g, live, ids, k, fates, fate);
      fates := fates + [fate];
    }
    assert ids[..|ids|] == ids;
    out := Carried(Once(nows), renamed, superseded, removed);
    assert FatesHold(uidOf, g, live, ids, fates) && Lists(ids, fates, out);
    UidsCarry(oldNodes, newNodes, g, ids, fates, out);
  }
}
