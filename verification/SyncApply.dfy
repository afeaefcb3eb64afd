/** What is left after the adds and edits of a proposal were pushed, which is all that --apply of omai/sync.py does. */
module SyncApply {
  import opened Wrappers
  import opened MapRecords
  import opened Gates
  import opened Contributions
  import opened Reproposal
  import opened MapStore
  import opened Proposals
  import opened Sync
  import opened SyncConverges
  import opened Landing

  /** The new elements a re-mint claims, in order. */
  function ClaimedPart(news: seq<Element>, claimed: set<Uid>): seq<Element> {
    if news == [] then []
    else ClaimedPart(news[..|news| - 1], claimed) + (if news[|news| - 1].uid in claimed then [news[|news| - 1]] else [])
  }

  // ---------------------------------------------------------------- the pairing among the claimed elements alone

  lemma GroupStep(news: seq<Element>, p: Element, a: Anchor)
    ensures Group(news + [p], a) == if p.anchor == a then Group(news, a) + [p] else Group(news, a)
  {
    assert (news + [p])[..|news|] == news;
  }

  lemma ClaimedStep(news: seq<Element>, p: Element, claimed: set<Uid>)
    ensures ClaimedPart(news + [p], claimed) ==
            if p.uid in claimed then ClaimedPart(news, claimed) + [p] else ClaimedPart(news, claimed)
  {
    assert (news + [p])[..|news|] == news;
  }

  lemma {:induction false} GroupOfClaimed(news: seq<Element>, claimed: set<Uid>, a: Anchor)
    ensures Group(ClaimedPart(news, claimed), a) == ClaimedPart(Group(news, a), claimed)
  {
    if news != [] {
      var init, p := news[..|news| - 1], news[|news| - 1];
      GroupOfClaimed(init, claimed, a);
      GroupStep(ClaimedPart(init, claimed), p, a);
      ClaimedStep(Group(init, a), p, claimed);
      assert news == init + [p];
      GroupStep(init, p, a);
      ClaimedStep(init, p, claimed);
    }
  }

  lemma {:induction false} ClaimedPrefix(group: seq<Element>, claimed: set<Uid>, k: nat)
    requires k <= |group|
    requires forall i :: 0 <= i < |group| ==> (group[i].uid in claimed <==> i < k)
    ensures ClaimedPart(group, claimed) == group[..k]
  {
    if group != [] {
      var init := group[..|group| - 1];
      if k == |group| {
        ClaimedPrefix(init, claimed, k - 1);
        assert group[..k] == init[..k - 1] + [group[|group| - 1]];
      } else {
        ClaimedPrefix(init, claimed, k);
        assert group[..k] == init[..k];
      }
    }
  }

  /** The claimed elements of an anchor are its first ones, as many as there are stale elements. */
  lemma GroupAfter(stale: seq<Stored>, news: seq<Element>, a: Anchor)
    requires DistinctUids(news)
    ensures var group, n := Group(news, a), CountOf(stale, a);
            Group(ClaimedPart(news, Claimed(stale, news)), a) == group[..if n < |group| then n else |group|]
  {
    var group, n := Group(news, a), CountOf(stale, a);
    var k := if n < |group| then n else |group|;
    forall i | 0 <= i < |group| ensures group[i].uid in Claimed(stale, news) <==> i < k {
      ClaimedOfGroup(stale, news, a, i);
    }
    GroupOfClaimed(news, Claimed(stale, news), a);
    ClaimedPrefix(group, Claimed(stale, news), k);
  }

  lemma {:induction false} CountGrows(stale: seq<Stored>, k: nat, a: Anchor)
    requires k <= |stale|
    ensures CountOf(stale[..k], a) <= CountOf(stale, a)
    decreases |stale|
  {
    if k == |stale| {
      assert stale[..k] == stale;
    } else {
      assert stale[..|stale| - 1][..k] == stale[..k];
      CountGrows(stale[..|stale| - 1], k, a);
    }
  }

  lemma SamePartner(stale: seq<Stored>, news: seq<Element>, k: nat)
    requires DistinctUids(news) && k < |stale|
    ensures Partner(stale[..k], stale[k], ClaimedPart(news, Claimed(stale, news))) ==
            Partner(stale[..k], stale[k], news)
  {
    var a := stale[k].anchor;
    GroupAfter(stale, news, a);
    CountGrows(stale, k + 1, a);
    assert stale[..k + 1][..k] == stale[..k];
  }

  /** With the unclaimed elements gone, the pairing of the first k stale elements is what it was. */
  lemma {:induction false} SamePairing(stale: seq<Stored>, news: seq<Element>, k: nat)
    requires DistinctUids(news) && k <= |stale|
    ensures var left := ClaimedPart(news, Claimed(stale, news));
            && Remints(stale[..k], left) == Remints(stale[..k], news)
            && Deprecations(stale[..k], left) == Deprecations(stale[..k], news)
            && Claimed(stale[..k], left) == Claimed(stale[..k], news)
  {
    if k > 0 {
      SamePairing(stale, news, k - 1);
      SamePartner(stale, news, k - 1);
      assert stale[..k][..k - 1] == stale[..k - 1];
    }
  }

  lemma {:induction false} NothingUnclaimed(news: seq<Element>, claimed: set<Uid>)
    ensures Unclaimed(ClaimedPart(news, claimed), claimed) == []
  {
    if news != [] {
      var init, p := news[..|news| - 1], news[|news| - 1];
      var part := ClaimedPart(init, claimed);
      NothingUnclaimed(init, claimed);
      assert (part + [p])[..|part|] == part && part + [] == part;
    }
  }

  // ---------------------------------------------------------------- what the store shows afterwards

  lemma {:induction false} NewInAfter(py: seq<Element>, store: seq<Stored>, store': seq<Stored>, claimed: set<Uid>)
    requires forall p :: p in py ==>
               (Lookup(store', p.uid).None? <==> Lookup(store, p.uid).None? && p.uid in claimed)
    ensures NewIn(py, store') == ClaimedPart(NewIn(py, store), claimed)
  {
    if py != [] {
      var init, p := py[..|py| - 1], py[|py| - 1];
      var before := NewIn(init, store);
      assert p in py && forall q :: q in init ==> q in py;
      NewInAfter(init, store, store', claimed);
      assert (before + [p])[..|before|] == before && before + [] == before;
    }
  }

  /** The stored elements the layer does not produce are shown as before. */
  ghost predicate StaleShown(store: seq<Stored>, store': seq<Stored>, py: seq<Element>, i: nat)
    requires i < |store| && i < |store'|
  {
    store'[i].uid == store[i].uid && (Produced(py, store[i].uid) || store'[i] == store[i])
  }

  lemma {:induction false} StaleAgrees(store: seq<Stored>, store': seq<Stored>, py: seq<Element>)
    requires |store'| == |store| && forall i :: 0 <= i < |store| ==> StaleShown(store, store', py, i)
    ensures StaleIn(store', py) == StaleIn(store, py)
  {
    if store != [] {
      var n := |store| - 1;
      forall i | 0 <= i < n ensures StaleShown(store[..n], store'[..n], py, i) {
        assert StaleShown(store, store', py, i);
      }
      StaleAgrees(store[..n], store'[..n], py);
      assert StaleShown(store, store', py, n);
    }
  }

  lemma {:induction false} ProducedNotStale(store: seq<Stored>, k: nat, py: seq<Element>)
    requires k <= |store| && forall i :: k <= i < |store| ==> Produced(py, store[i].uid)
    ensures StaleIn(store, py) == StaleIn(store[..k], py)
    decreases |store|
  {
    if k == |store| {
      assert store[..k] == store;
    } else {
      var n := |store| - 1;
      ProducedNotStale(store[..n], k, py);
      assert store[..n][..k] == store[..k];
    }
  }

  // ---------------------------------------------------------------- adds and edits, seen from one uid

  ghost predicate AddsAndEdits(ps: seq<Payload>) {
    forall i :: 0 <= i < |ps| ==> ps[i].AddNode? || ps[i].AddEdge? || ps[i].EditMeta?
  }

  /** A stored element the layer does not produce is left alone. */
  lemma {:induction false} UntouchedAfter(v: View, ps: seq<Payload>, py: seq<Element>, edit: Uid -> Meta, u: Uid)
    requires AllLand(ps, v, py, edit) && AddsAndEdits(ps) && Known(v, u) && !Produced(py, u)
    ensures SameAt(v, AppliedAll(v, ps), u)
  {
    if ps != [] {
      var init, p := ps[..|ps| - 1], ps[|ps| - 1];
      UntouchedAfter(v, init, py, edit, u);
      assert Lands(p, v, py, edit);
      OthersUntouched(AppliedAll(v, init), p, u);
    }
  }

  /** An element none of the records adds stays unknown. */
  lemma {:induction false} StaysUnknown(v: View, ps: seq<Payload>, py: seq<Element>, edit: Uid -> Meta, u: Uid)
    requires AllLand(ps, v, py, edit) && AddsAndEdits(ps) && !Known(v, u)
    requires forall i :: 0 <= i < |ps| && (ps[i].AddNode? || ps[i].AddEdge?) ==> ps[i].uid != u
    ensures !Known(AppliedAll(v, ps), u)
  {
    if ps != [] {
      var init, p := ps[..|ps| - 1], ps[|ps| - 1];
      StaysUnknown(v, init, py, edit, u);
      assert Lands(p, v, py, edit);
      OthersUntouched(AppliedAll(v, init), p, u);
    }
  }

  /** Stored elements keep their identities. */
  lemma {:induction false} IdentityAfter(v: View, ps: seq<Payload>, py: seq<Element>, edit: Uid -> Meta, u: Uid)
    requires AllLand(ps, v, py, edit)
    ensures var w := AppliedAll(v, ps);
            && (u in NodeIds(v) ==> u in NodeIds(w) && NodeIds(w)[u] == NodeIds(v)[u])
            && (u in EdgeIds(v) ==> u in EdgeIds(w) && EdgeIds(w)[u] == EdgeIds(v)[u])
  {
    if ps != [] {
      var init, p := ps[..|ps| - 1], ps[|ps| - 1];
      IdentityAfter(v, init, py, edit, u);
      assert Lands(p, v, py, edit);
      AppliedIds(AppliedAll(v, init), p);
      assert u in NodeIds(v) ==> Known(v, u);
      assert u in EdgeIds(v) ==> Known(v, u);
    }
  }

  // ---------------------------------------------------------------- one kind of element

  /** The records are exactly the adds and the edits of the proposal, in any order. */
  ghost predicate AppliesTo(ps: seq<Payload>, b: Buckets) {
    forall q :: q in ps <==> q in b.add || q in b.edit
  }

  lemma EditIsEdit(side: Side, q: Payload)
    requires q in EditsIn(side.py, side.store, side.keys)
    ensures q.EditMeta?
  {
    EditsMembers(side.py, side.store, side.keys);
  }

  lemma AddIsAdd(n: Side, e: Side, q: Payload)
    requires Genuine(n.py + e.py) && q in Diff(n, e).add
    ensures (q.AddNode? || q.AddEdge?) && exists p :: p in NewOf(n, e) && p.record == q && p.uid == q.uid
  {
    var news, stale := NewOf(n, e), StaleOf(n, e);
    var unclaimed := Unclaimed(news, Claimed(stale, news));
    UnclaimedMembers(news, Claimed(stale, news));
    var i :| 0 <= i < |unclaimed| && RecordsOf(unclaimed)[i] == q;
    assert unclaimed[i] in unclaimed;
    NewOfProduced(n, e, unclaimed[i]);
  }

  lemma OnlyAddsAndEdits(n: Side, e: Side, ps: seq<Payload>)
    requires Genuine(n.py + e.py) && AppliesTo(ps, Diff(n, e))
    ensures AddsAndEdits(ps)
  {
    forall i | 0 <= i < |ps| ensures ps[i].AddNode? || ps[i].AddEdge? || ps[i].EditMeta? {
      var q := ps[i];
      assert q in ps;
      if q in Diff(n, e).add {
        AddIsAdd(n, e, q);
      } else if q in EditsIn(n.py, n.store, n.keys) {
        EditIsEdit(n, q);
      } else {
        EditIsEdit(e, q);
      }
    }
  }

  /** A claimed element is not added. */
  lemma ClaimedNotAdded(n: Side, e: Side, v: View, py: seq<Element>, ps: seq<Payload>, p: Element, i: nat)
    requires Facts(n, e, v, py) && AppliesTo(ps, Diff(n, e)) && AddsAndEdits(ps)
    requires p in NewOf(n, e) && p.uid in Claimed(StaleOf(n, e), NewOf(n, e)) && i < |ps|
    requires ps[i].AddNode? || ps[i].AddEdge?
    ensures ps[i].uid != p.uid
  {
    var q := ps[i];
    assert q in ps;
    if q in Diff(n, e).add {
      AddIsAdd(n, e, q);
      var p' :| p' in NewOf(n, e) && p'.record == q && p'.uid == q.uid;
      RecordAdded(n, e, p');
    } else if q in EditsIn(n.py, n.store, n.keys) {
      EditIsEdit(n, q);
    } else {
      EditIsEdit(e, q);
    }
  }

  /** After the adds and edits an element is known unless a re-mint claims it, and a known one needs no edit. */
  lemma ElementAfter(n: Side, e: Side, v: View, py: seq<Element>, edit: Uid -> Meta, ps: seq<Payload>, side: Side,
                     had: set<Uid>, p: Element)
    requires Facts(n, e, v, py) && AppliesTo(ps, Diff(n, e)) && AddsAndEdits(ps) && AllLand(ps, v, py, edit)
    requires (side == n && had == v.nodes.Keys) || (side == e && had == v.edges.Keys)
    requires Knows(edit, side, had) && p in side.py
    ensures var w, claimed := AppliedAll(v, ps), Claimed(StaleOf(n, e), NewOf(n, e));
            && (Known(w, p.uid) <==> p.uid in had || p.uid !in claimed)
            && (p.uid in had ==> p.uid !in claimed)
            && (Known(w, p.uid) ==> MetaDiff(p.meta, MetaAt(w, p.uid).value, side.keys) == map[])
  {
    ProducedMember(py, p);
    NewIsUnknown(side, v, had, py, p);
    if p.uid in had {
      EditIsProposed(side, v, had, py, edit, p);
      MatchedAfter(v, ps, py, edit, p.uid);
      DiffCloses(p.meta, MetaAt(v, p.uid).value, side.keys, EditMeta(p.uid, edit(p.uid)) in ps);
      KnownNotClaimed(n, e, v, py, p.uid);
    } else {
      RecordAdded(n, e, p);
      if p.uid in Claimed(StaleOf(n, e), NewOf(n, e)) {
        forall i | 0 <= i < |ps| && (ps[i].AddNode? || ps[i].AddEdge?) ensures ps[i].uid != p.uid {
          ClaimedNotAdded(n, e, v, py, ps, p, i);
        }
        StaysUnknown(v, ps, py, edit, p.uid);
      } else {
        NewAfter(v, ps, py, edit, p);
        NoDiffWithItself(p.meta, side.keys);
      }
    }
  }

  lemma KnownNotClaimed(n: Side, e: Side, v: View, py: seq<Element>, u: Uid)
    requires Facts(n, e, v, py) && Known(v, u)
    ensures u !in Claimed(StaleOf(n, e), NewOf(n, e))
  {
    var stale, news := StaleOf(n, e), NewOf(n, e);
    NewDistinct(n, e);
    RemintsClaim(stale, news);
    if u in Claimed(stale, news) {
      RemintsShareAnchor(stale, news);
      var r :| r in Remints(stale, news) && r.newUid == u;
      var s, p :| s in stale && p in news && s.uid == r.oldUid && p.uid == r.newUid && s.anchor == p.anchor;
      NewOfIsUnknown(n, e, v, py, p);
    }
  }

  /** One kind after the adds and edits: no edit is needed and the new elements are the claimed ones. */
  lemma SideAfter(n: Side, e: Side, v: View, py: seq<Element>, edit: Uid -> Meta, ps: seq<Payload>, side: Side,
                  had: set<Uid>, side': Side, has: set<Uid>)
    requires Facts(n, e, v, py) && AppliesTo(ps, Diff(n, e)) && AddsAndEdits(ps) && AllLand(ps, v, py, edit)
    requires (side == n && had == v.nodes.Keys) || (side == e && had == v.edges.Keys)
    requires Knows(edit, side, had) && side'.py == side.py && side'.keys == side.keys
    requires Kind(side', AppliedAll(v, ps), has, py)
    ensures EditsIn(side'.py, side'.store, side'.keys) == []
    ensures NewIn(side'.py, side'.store) == ClaimedPart(NewIn(side.py, side.store), Claimed(StaleOf(n, e), NewOf(n, e)))
  {
    var w, claimed := AppliedAll(v, ps), Claimed(StaleOf(n, e), NewOf(n, e));
    forall p | p in side.py
      ensures Lookup(side'.store, p.uid).None? <==> Lookup(side.store, p.uid).None? && p.uid in claimed
      ensures EditFor(p, side'.store, side'.keys) == []
    {
      ElementAfter(n, e, v, py, edit, ps, side, had, p);
      LookupHad(side, v, had, py, p.uid);
      LookupHad(side', w, has, py, p.uid);
    }
    NewInAfter(side.py, side.store, side'.store, claimed);
    EditsMembers(side'.py, side'.store, side'.keys);
    HeadIn(EditsIn(side'.py, side'.store, side'.keys));
  }

  lemma StaleExtended(store: seq<Stored>, store': seq<Stored>, py: seq<Element>)
    requires |store| <= |store'| && forall i :: 0 <= i < |store| ==> StaleShown(store, store', py, i)
    requires forall i :: |store| <= i < |store'| ==> Produced(py, store'[i].uid)
    ensures StaleIn(store', py) == StaleIn(store, py)
  {
    var n := |store|;
    forall i | 0 <= i < n ensures StaleShown(store, store'[..n], py, i) {
      assert StaleShown(store, store', py, i);
    }
    StaleAgrees(store, store'[..n], py);
    ProducedNotStale(store', n, py);
  }

  lemma NodeShownAgain(l: Layer, v: View, w: View, no: seq<Uid>, more: seq<Uid>, i: nat)
    requires Aligned(l, v) && Aligned(l, w) && Enumerates(no, v.nodes.Keys) && Enumerates(no + more, w.nodes.Keys)
    requires i < |no| && no[i] in v.nodes && no[i] in w.nodes
    requires w.nodes[no[i]].identity == v.nodes[no[i]].identity
    requires Produced(Elements(l.nodes), no[i]) || SameAt(v, w, no[i])
    ensures StaleShown(NodeSide(l, v, no).store, NodeSide(l, w, no + more).store, Elements(l.nodes), i)
  {
    assert (no + more)[i] == no[i];
  }

  lemma EdgeShownAgain(l: Layer, v: View, w: View, eo: seq<Uid>, more: seq<Uid>, i: nat)
    requires Aligned(l, v) && Aligned(l, w) && Enumerates(eo, v.edges.Keys) && Enumerates(eo + more, w.edges.Keys)
    requires i < |eo| && eo[i] in v.edges && eo[i] in w.edges && eo[i] !in v.nodes && eo[i] !in w.nodes
    requires w.edges[eo[i]].identity == v.edges[eo[i]].identity
    requires Produced(Elements(l.edges), eo[i]) || SameAt(v, w, eo[i])
    ensures StaleShown(EdgeSide(l, v, eo).store, EdgeSide(l, w, eo + more).store, Elements(l.edges), i)
  {
    assert (eo + more)[i] == eo[i];
  }

  /** What adds and edits leave of the stored elements: their identities, and all of those the layer does not produce;
      what joins them is produced. */
  ghost predicate OnlyGrown(l: Layer, v: View, w: View, u: Uid)
    requires Aligned(l, v)
  {
    && (Known(v, u) && !Produced(AllElements(l, v), u) ==> SameAt(v, w, u))
    && (u in v.nodes ==> u in w.nodes && w.nodes[u].identity == v.nodes[u].identity)
    && (u in v.edges ==> u in w.edges && w.edges[u].identity == v.edges[u].identity)
    && (u in w.nodes ==> u in v.nodes || Produced(Elements(l.nodes), u))
    && (u in w.edges ==> u in v.edges || Produced(Elements(l.edges), u))
  }

  lemma ProducedAsKind(l: Layer, v: View, u: Uid)
    requires Aligned(l, v) && Produced(AllElements(l, v), u)
    ensures u in v.nodes ==> Produced(Elements(l.nodes), u)
    ensures u in v.edges ==> Produced(Elements(l.edges), u)
  {
    ProducedEither(Elements(l.nodes), Elements(l.edges), u);
    assert Produced(Elements(l.nodes), u) ==> Uids(l.nodes, u);
    assert Produced(Elements(l.edges), u) ==> Uids(l.edges, u);
  }

  lemma StaleNodesAfter(l: Layer, v: View, w: View, no: seq<Uid>, more: seq<Uid>)
    requires Aligned(l, v) && Aligned(l, w) && Enumerates(no, v.nodes.Keys) && Enumerates(no + more, w.nodes.Keys)
    requires forall u :: OnlyGrown(l, v, w, u)
    ensures StaleIn(NodeSide(l, w, no + more).store, Elements(l.nodes)) ==
            StaleIn(NodeSide(l, v, no).store, Elements(l.nodes))
  {
    var py, store, store' := Elements(l.nodes), NodeSide(l, v, no).store, NodeSide(l, w, no + more).store;
    forall i | 0 <= i < |store| ensures StaleShown(store, store', py, i) {
      assert no[i] in no && OnlyGrown(l, v, w, no[i]);
      if Produced(AllElements(l, v), no[i]) { ProducedAsKind(l, v, no[i]); }
      NodeShownAgain(l, v, w, no, more, i);
    }
    forall i | |store| <= i < |store'| ensures Produced(py, store'[i].uid) {
      NotListedBefore(no, more, i);
      assert (no + more)[i] in no + more && OnlyGrown(l, v, w, (no + more)[i]);
    }
    StaleExtended(store, store', py);
  }

  lemma StaleEdgesAfter(l: Layer, v: View, w: View, eo: seq<Uid>, more: seq<Uid>)
    requires Aligned(l, v) && Aligned(l, w) && Enumerates(eo, v.edges.Keys) && Enumerates(eo + more, w.edges.Keys)
    requires forall u :: OnlyGrown(l, v, w, u)
    ensures StaleIn(EdgeSide(l, w, eo + more).store, Elements(l.edges)) ==
            StaleIn(EdgeSide(l, v, eo).store, Elements(l.edges))
  {
    var py, store, store' := Elements(l.edges), EdgeSide(l, v, eo).store, EdgeSide(l, w, eo + more).store;
    forall i | 0 <= i < |store| ensures StaleShown(store, store', py, i) {
      assert eo[i] in eo && OnlyGrown(l, v, w, eo[i]);
      if Produced(AllElements(l, v), eo[i]) { ProducedAsKind(l, v, eo[i]); }
      EdgeShownAgain(l, v, w, eo, more, i);
    }
    forall i | |store| <= i < |store'| ensures Produced(py, store'[i].uid) {
      NotListedBefore(eo, more, i);
      assert (eo + more)[i] in eo + more && OnlyGrown(l, v, w, (eo + more)[i]);
    }
    StaleExtended(store, store', py);
  }

  lemma NotListedBefore(order: seq<Uid>, more: seq<Uid>, i: nat)
    requires |order| <= i < |order + more|
    requires forall j, k :: 0 <= j < k < |order + more| ==> (order + more)[j] != (order + more)[k]
    ensures (order + more)[i] !in order
  {
    forall j | 0 <= j < |order| ensures order[j] != (order + more)[i] {
      assert (order + more)[j] == order[j];
    }
  }

  lemma GrownAt(l: Layer, v: View, py: seq<Element>, edit: Uid -> Meta, ps: seq<Payload>, u: Uid)
    requires Aligned(l, v) && py == AllElements(l, v) && AllLand(ps, v, py, edit) && AddsAndEdits(ps)
    ensures OnlyGrown(l, v, AppliedAll(v, ps), u)
  {
    var w := AppliedAll(v, ps);
    AlignedGenuine(l, v);
    if Known(v, u) && !Produced(py, u) { UntouchedAfter(v, ps, py, edit, u); }
    IdentityAfter(v, ps, py, edit, u);
    assert (u in NodeIds(v) <==> u in v.nodes) && (u in NodeIds(w) <==> u in w.nodes);
    assert (u in EdgeIds(v) <==> u in v.edges) && (u in EdgeIds(w) <==> u in w.edges);
    LandingKinds(v, ps, py, edit);
    if u in w.nodes && u !in v.nodes {
      var q :| q in py && q.record.AddNode? && q.uid == u;
      ProducedMember(Elements(l.nodes), q);
    }
    if u in w.edges && u !in v.edges {
      var q :| q in py && q.record.AddEdge? && q.uid == u;
      ProducedMember(Elements(l.edges), q);
    }
  }

  // ---------------------------------------------------------------- the next proposal

  lemma {:induction false} ClaimedOfBoth(a: seq<Element>, b: seq<Element>, claimed: set<Uid>)
    ensures ClaimedPart(a + b, claimed) == ClaimedPart(a, claimed) + ClaimedPart(b, claimed)
    decreases |b|
  {
    if b == [] {
      assert a + b == a;
    } else {
      var init, p := b[..|b| - 1], b[|b| - 1];
      ClaimedOfBoth(a, init, claimed);
      ClaimedStep(a + init, p, claimed);
      ClaimedStep(init, p, claimed);
      assert a + b == a + init + [p] && b == init + [p];
    }
  }

  /** Two sides that need no edit, show the same stale elements and lack only the claimed new ones. */
  lemma Residue(n: Side, e: Side, n': Side, e': Side)
    requires DistinctUids(NewOf(n, e)) && StaleOf(n', e') == StaleOf(n, e)
    requires NewOf(n', e') == ClaimedPart(NewOf(n, e), Claimed(StaleOf(n, e), NewOf(n, e)))
    requires EditsIn(n'.py, n'.store, n'.keys) == [] && EditsIn(e'.py, e'.store, e'.keys) == []
    ensures Diff(n', e') == Buckets([], [], Diff(n, e).deprecate, Diff(n, e).remint)
  {
    var news, stale := NewOf(n, e), StaleOf(n, e);
    SamePairing(stale, news, |stale|);
    assert stale[..|stale|] == stale;
    NothingUnclaimed(news, Claimed(stale, news));
    assert |RecordsOf([])| == 0;
  }

  lemma ApplyLands(l: Layer, v: View, n: Side, e: Side, py: seq<Element>, edit: Uid -> Meta, ps: seq<Payload>)
    requires Aligned(l, v) && py == AllElements(l, v) && Facts(n, e, v, py) && AppliesTo(ps, Diff(n, e))
    requires Knows(edit, n, v.nodes.Keys) && Knows(edit, e, v.edges.Keys)
    ensures AllLand(ps, v, py, edit) && AddsAndEdits(ps) && Aligned(l, AppliedAll(v, ps))
  {
    OnlyAddsAndEdits(n, e, ps);
    forall i | 0 <= i < |ps| ensures Lands(ps[i], v, py, edit) {
      assert ps[i] in ps;
      EveryRecordLands(n, e, v, py, edit, ps[i]);
    }
    LandingKinds(v, ps, py, edit);
    StaysAligned(l, v, AppliedAll(v, ps));
  }

  lemma NodesLeft(l: Layer, v: View, no: seq<Uid>, eo: seq<Uid>, ps: seq<Payload>, edit: Uid -> Meta, more: seq<Uid>)
    requires Aligned(l, v) && Enumerates(no, v.nodes.Keys) && Enumerates(eo, v.edges.Keys)
    requires var n, e, py := NodeSide(l, v, no), EdgeSide(l, v, eo), AllElements(l, v);
             && Facts(n, e, v, py) && AppliesTo(ps, Diff(n, e)) && Knows(edit, n, v.nodes.Keys)
             && AllLand(ps, v, py, edit) && AddsAndEdits(ps)
    requires Aligned(l, AppliedAll(v, ps)) && Enumerates(no + more, AppliedAll(v, ps).nodes.Keys)
    ensures var n, e, n' := NodeSide(l, v, no), EdgeSide(l, v, eo), NodeSide(l, AppliedAll(v, ps), no + more);
            && EditsIn(n'.py, n'.store, n'.keys) == [] && StaleIn(n'.store, n'.py) == StaleIn(n.store, n.py)
            && NewIn(n'.py, n'.store) == ClaimedPart(NewIn(n.py, n.store), Claimed(StaleOf(n, e), NewOf(n, e)))
  {
    var w, py := AppliedAll(v, ps), AllElements(l, v);
    NodeKind(l, w, no + more);
    SideAfter(NodeSide(l, v, no), EdgeSide(l, v, eo), v, py, edit, ps, NodeSide(l, v, no), v.nodes.Keys,
              NodeSide(l, w, no + more), w.nodes.Keys);
    forall u ensures OnlyGrown(l, v, w, u) {
      GrownAt(l, v, py, edit, ps, u);
    }
    StaleNodesAfter(l, v, w, no, more);
  }

  lemma EdgesLeft(l: Layer, v: View, no: seq<Uid>, eo: seq<Uid>, ps: seq<Payload>, edit: Uid -> Meta, more: seq<Uid>)
    requires Aligned(l, v) && Enumerates(no, v.nodes.Keys) && Enumerates(eo, v.edges.Keys)
    requires var n, e, py := NodeSide(l, v, no), EdgeSide(l, v, eo), AllElements(l, v);
             && Facts(n, e, v, py) && AppliesTo(ps, Diff(n, e)) && Knows(edit, e, v.edges.Keys)
             && AllLand(ps, v, py, edit) && AddsAndEdits(ps)
    requires Aligned(l, AppliedAll(v, ps)) && Enumerates(eo + more, AppliedAll(v, ps).edges.Keys)
    ensures var n, e, e' := NodeSide(l, v, no), EdgeSide(l, v, eo), EdgeSide(l, AppliedAll(v, ps), eo + more);
            && EditsIn(e'.py, e'.store, e'.keys) == [] && StaleIn(e'.store, e'.py) == StaleIn(e.store, e.py)
            && NewIn(e'.py, e'.store) == ClaimedPart(NewIn(e.py, e.store), Claimed(StaleOf(n, e), NewOf(n, e)))
  {
    var w, py := AppliedAll(v, ps), AllElements(l, v);
    EdgeKind(l, w, eo + more);
    SideAfter(NodeSide(l, v, no), EdgeSide(l, v, eo), v, py, edit, ps, EdgeSide(l, v, eo), v.edges.Keys,
              EdgeSide(l, w, eo + more), w.edges.Keys);
    forall u ensures OnlyGrown(l, v, w, u) {
      GrownAt(l, v, py, edit, ps, u);
    }
    StaleEdgesAfter(l, v, w, eo, more);
  }

  /** Push the adds and the edits of a proposal, in any order: the next proposal has none of either, and has the same
      deprecations and the same re-mints in the same order. New uids are listed after the old ones. */
  lemma ApplyLeavesTheRest(l: Layer, v: View, no: seq<Uid>, eo: seq<Uid>, ps: seq<Payload>,
                           moreNodes: seq<Uid>, moreEdges: seq<Uid>)
    requires Aligned(l, v) && Enumerates(no, v.nodes.Keys) && Enumerates(eo, v.edges.Keys)
    requires AppliesTo(ps, Diff(NodeSide(l, v, no), EdgeSide(l, v, eo)))
    requires Enumerates(no + moreNodes, AppliedAll(v, ps).nodes.Keys)
    requires Enumerates(eo + moreEdges, AppliedAll(v, ps).edges.Keys)
    ensures Aligned(l, AppliedAll(v, ps))
    ensures var b, w := Diff(NodeSide(l, v, no), EdgeSide(l, v, eo)), AppliedAll(v, ps);
            Diff(NodeSide(l, w, no + moreNodes), EdgeSide(l, w, eo + moreEdges)) ==
            Buckets([], [], b.deprecate, b.remint)
  {
    var n, e, py, w := NodeSide(l, v, no), EdgeSide(l, v, eo), AllElements(l, v), AppliedAll(v, ps);
    LayerFacts(l, v, no, eo);
    ChangesKnown(n, e, v, py);
    ApplyLands(l, v, n, e, py, Changes(n, e), ps);
    NodesLeft(l, v, no, eo, ps, Changes(n, e), moreNodes);
    EdgesLeft(l, v, no, eo, ps, Changes(n, e), moreEdges);
    NewDistinct(n, e);
    ClaimedOfBoth(NewIn(n.py, n.store), NewIn(e.py, e.store), Claimed(StaleOf(n, e), NewOf(n, e)));
    Residue(n, e, NodeSide(l, w, no + moreNodes), EdgeSide(l, w, eo + moreEdges));
  }

  // ---------------------------------------------------------------- --apply

  datatype Outcome = InSync | Shown | Refused(remint: seq<Remint>) | Unsigned | Proposed(result: Proposal)

  predicate Given(s: Option<string>) { s.Some? && s.value != "" }

  /** What the command does with a proposal; no author or date is one that is absent or empty. */
  method Run(store: Store, b: Buckets, apply: bool, author: Option<string>, date: Option<string>, reason: string,
             rules: Rules)
    returns (outcome: Outcome)
    modifies store
    ensures outcome.InSync? <==> Empty(b)
    ensures outcome.Shown? <==> !Empty(b) && !apply
    ensures outcome.Refused? <==> apply && b.remint != []
    ensures outcome.Proposed? <==> !Empty(b) && apply && b.remint == [] && author.Some? && author.value != "" &&
                                   date.Some? && date.value != ""
    ensures outcome.Refused? ==> outcome.remint == b.remint
    ensures outcome.Proposed? ==>
              (outcome.result.Landed? <==> Admissible(b.add + b.edit, ReplayOf(old(store.log)), rules))
    ensures !outcome.Proposed? || outcome.result.Rejected? ==>
              store.log == old(store.log) && store.nodesFile == old(store.nodesFile) &&
              store.edgesFile == old(store.edgesFile)
    ensures outcome.Proposed? && outcome.result.Landed? ==>
              && outcome.result.head == HeadOf(store.log)
              && Appends(old(store.log), store.log, Pushed(b.add + b.edit, ReplayOf(old(store.log)), rules))
              && SignedFrom(store.log, |old(store.log)|, author.value, date.value, reason)
  {
    if |b.add| + |b.edit| + |b.deprecate| + |b.remint| == 0 {
      return InSync;
    }
    if !apply {
      return Shown;
    }
    if b.remint != [] {
      return Refused(b.remint);
    }
    if !Given(author) || !Given(date) {
      return Unsigned;
    }
    var result := store.Propose(b.add + b.edit, rules, author.value, date.value, reason);
    outcome := Proposed(result);
  }

  lemma AddIsNew(n: Side, e: Side, v: View, py: seq<Element>, rules: Rules, q: Payload)
    requires Facts(n, e, v, py) && (q in Diff(n, e).add || q in Diff(n, e).edit)
    ensures !IsNoOp(q, v, rules)
  {
    if q in Diff(n, e).add {
      AddIsAdd(n, e, q);
      var p :| p in NewOf(n, e) && p.record == q && p.uid == q.uid;
      NewOfIsUnknown(n, e, v, py, p);
    } else if q in EditsIn(n.py, n.store, n.keys) {
      EditIsEdit(n, q);
    } else {
      EditIsEdit(e, q);
    }
  }

  lemma NoneIsNoOp(n: Side, e: Side, v: View, py: seq<Element>, rules: Rules)
    requires Facts(n, e, v, py)
    ensures var records := Diff(n, e).add + Diff(n, e).edit;
            Pushed(records, v, rules) == records && AppliesTo(records, Diff(n, e))
  {
    var records := Diff(n, e).add + Diff(n, e).edit;
    forall i | 0 <= i < |records| ensures !IsNoOp(records[i], v, rules) {
      assert records[i] in records;
      AddIsNew(n, e, v, py, rules, records[i]);
    }
    assert NoOps(records, v, rules) == {};
    KeptAll(records, |records|);
  }

  /** Once --apply has landed, the next run proposes exactly the deprecations it left out; without any it reports that
      everything is in sync. */
  lemma AppliedThenDiffed(l: Layer, before: seq<Record>, log: seq<Record>, no: seq<Uid>, eo: seq<Uid>, rules: Rules,
                          moreNodes: seq<Uid>, moreEdges: seq<Uid>)
    requires Aligned(l, ReplayOf(before))
    requires Enumerates(no, ReplayOf(before).nodes.Keys) && Enumerates(eo, ReplayOf(before).edges.Keys)
    requires var b := Diff(NodeSide(l, ReplayOf(before), no), EdgeSide(l, ReplayOf(before), eo));
             b.remint == [] && Appends(before, log, Pushed(b.add + b.edit, ReplayOf(before), rules))
    requires Enumerates(no + moreNodes, ReplayOf(log).nodes.Keys)
    requires Enumerates(eo + moreEdges, ReplayOf(log).edges.Keys)
    ensures Aligned(l, ReplayOf(log))
    ensures var b := Diff(NodeSide(l, ReplayOf(before), no), EdgeSide(l, ReplayOf(before), eo));
            Diff(NodeSide(l, ReplayOf(log), no + moreNodes), EdgeSide(l, ReplayOf(log), eo + moreEdges)) ==
            Buckets([], [], b.deprecate, [])
  {
    var v := ReplayOf(before);
    var n, e := NodeSide(l, v, no), EdgeSide(l, v, eo);
    var records := Diff(n, e).add + Diff(n, e).edit;
    LayerFacts(l, v, no, eo);
    NoneIsNoOp(n, e, v, AllElements(l, v), rules);
    ReplayOfAppended(before, log, records);
    ApplyLeavesTheRest(l, v, no, eo, records, moreNodes, moreEdges);
  }
}
