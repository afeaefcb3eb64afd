/** omai/store.py: the append-only, hash-chained log and its materialized view. The hash of a record's fields is a
    function the store is built over; nothing is assumed of it. */
module MapStore {
  import opened Wrappers
  import opened MapRecords
  import opened Gates
  import opened Contributions

  const GENESIS_PREV: Version := "0000000000000000000000000000000000000000000000000000000000000000"

  // Every field of a record except its version; this is what is hashed.
  datatype Body = Body(seqNo: int, payload: Payload, author: string, date: string, reason: string, prev: Version)
  datatype Record = Record(body: Body, version: Version)

  type Hash = Body -> Version

  function MakeRecord(hash: Hash, body: Body): Record { Record(body, hash(body)) }

  function PayloadsOf(log: seq<Record>): (ps: seq<Payload>)
    ensures |ps| == |log|
    ensures forall i :: 0 <= i < |log| ==> ps[i] == log[i].body.payload
  {
    seq(|log|, (i: nat) requires i < |log| => log[i].body.payload)
  }

  function ReplayOf(log: seq<Record>): View { AppliedAll(EMPTY_VIEW, PayloadsOf(log)) }

  lemma ReplayStep(log: seq<Record>, k: nat)
    requires k < |log|
    ensures ReplayOf(log[..k + 1]) == Applied(ReplayOf(log[..k]), log[k].body.payload)
  {
    assert PayloadsOf(log[..k + 1])[..k] == PayloadsOf(log[..k]);
  }

  function HeadOf(log: seq<Record>): Version {
    if log == [] then GENESIS_PREV else log[|log| - 1].version
  }

  // ---------------------------------------------------------------- the chain

  /** Record i carries the hash of its own fields, follows the record before it and has the next number. */
  predicate Chained(log: seq<Record>, hash: Hash, i: nat)
    requires i < |log|
  {
    && log[i].version == hash(log[i].body)
    && log[i].body.prev == HeadOf(log[..i])
    && log[i].body.seqNo == i + 1
  }

  predicate ChainIntact(log: seq<Record>, hash: Hash) {
    forall i :: 0 <= i < |log| ==> Chained(log, hash, i)
  }

  /** Some record of one log and some record of the other have different fields and one hash. */
  ghost predicate Collide(a: seq<Record>, b: seq<Record>, hash: Hash) {
    exists i, j :: 0 <= i < |a| && 0 <= j < |b| && a[i].body != b[j].body && hash(a[i].body) == hash(b[j].body)
  }

  lemma ChainPrefix(log: seq<Record>, hash: Hash, k: nat)
    requires ChainIntact(log, hash) && k <= |log|
    ensures ChainIntact(log[..k], hash)
  {
    forall i | 0 <= i < k ensures Chained(log[..k], hash, i) {
      assert Chained(log, hash, i);
      assert log[..k][..i] == log[..i];
    }
  }

  /** Tamper evidence: the version a log ends in fixes every record of it, unless two of the records at hand are a
      collision of the hash. */
  lemma {:induction false} HeadFixesLog(a: seq<Record>, b: seq<Record>, hash: Hash)
    requires ChainIntact(a, hash) && ChainIntact(b, hash)
    requires a != [] && b != [] && HeadOf(a) == HeadOf(b)
    ensures a == b || Collide(a, b, hash)
    decreases |a|
  {
    var m, n := |a| - 1, |b| - 1;
    assert Chained(a, hash, m) && Chained(b, hash, n);
    if a[m].body == b[n].body {
      assert m == n;
      if m > 0 {
        ChainPrefix(a, hash, m);
        ChainPrefix(b, hash, n);
        HeadFixesLog(a[..m], b[..n], hash);
        if Collide(a[..m], b[..n], hash) { CollidePrefix(a, b, m, hash); }
      }
      assert a == a[..m] + [a[m]] && b == b[..n] + [b[n]];
    }
  }

  lemma CollidePrefix(a: seq<Record>, b: seq<Record>, m: nat, hash: Hash)
    requires m <= |a| && m <= |b| && Collide(a[..m], b[..m], hash)
    ensures Collide(a, b, hash)
  {
    var i, j :| 0 <= i < m && 0 <= j < m && a[..m][i].body != b[..m][j].body &&
                hash(a[..m][i].body) == hash(b[..m][j].body);
    assert a[i].body != b[j].body && hash(a[i].body) == hash(b[j].body);
  }

  /** Changing any record of an intact log breaks a check of verify, changes the head, or shows a collision. */
  lemma TamperingShows(log: seq<Record>, hash: Hash, k: nat, r: Record)
    requires ChainIntact(log, hash) && k < |log| && r != log[k]
    ensures !ChainIntact(log[k := r], hash) || HeadOf(log[k := r]) != HeadOf(log) || Collide(log[k := r], log, hash)
  {
    if ChainIntact(log[k := r], hash) && HeadOf(log[k := r]) == HeadOf(log) {
      assert log[k := r][k] != log[k];
      HeadFixesLog(log[k := r], log, hash);
    }
  }

  // ---------------------------------------------------------------- what verify reports

  datatype Finding =
    | HashMismatch(index: nat)
    | BrokenChain(index: nat)
    | NotDense(index: nat)
    | UnknownUid(problem: Unknown)
    | Missing(file: string)
    | Invalid(file: string)
    | Stale(file: string)

  // A mirror file: not there, not valid JSON, or the dict it holds.
  datatype Mirror<T> = Absent | Unreadable | Holds(value: T)

  function ChainFindingsAt(log: seq<Record>, hash: Hash, i: nat): seq<Finding>
    requires i < |log|
  {
    (if hash(log[i].body) != log[i].version then [HashMismatch(i)] else []) +
    (if log[i].body.prev != HeadOf(log[..i]) then [BrokenChain(i)] else []) +
    (if log[i].body.seqNo != i + 1 then [NotDense(i)] else [])
  }

  function ChainFindings(log: seq<Record>, hash: Hash, k: nat): seq<Finding>
    requires k <= |log|
  {
    if k == 0 then [] else ChainFindings(log, hash, k - 1) + ChainFindingsAt(log, hash, k - 1)
  }

  function UnknownsUpTo(log: seq<Record>, k: nat): seq<Unknown>
    requires k <= |log|
  {
    if k == 0 then []
    else UnknownsUpTo(log, k - 1) +
         UnknownIn(ReplayOf(log[..k - 1]), log[k - 1].body.seqNo, Mentions(log[k - 1].body.payload))
  }

  function AsFindings(us: seq<Unknown>): (r: seq<Finding>)
    ensures |r| == |us|
    ensures forall i :: 0 <= i < |us| ==> r[i] == UnknownUid(us[i])
  {
    seq(|us|, (i: nat) requires i < |us| => UnknownUid(us[i]))
  }

  /** A mirror file is reported once: missing, not JSON, or holding something else than the replay. */
  lemma FileFindingsAre<T(!new)>(file: string, onDisk: Mirror<T>, replayed: T)
    ensures FileFindings(file, onDisk, replayed) == [Missing(file)] <==> onDisk.Absent?
    ensures FileFindings(file, onDisk, replayed) == [Invalid(file)] <==> onDisk.Unreadable?
    ensures FileFindings(file, onDisk, replayed) == [Stale(file)] <==> onDisk.Holds? && onDisk.value != replayed
    ensures FileFindings(file, onDisk, replayed) == [] <==> onDisk == Holds(replayed)
  {
  }

  function FileFindings<T(==)>(file: string, onDisk: Mirror<T>, replayed: T): seq<Finding> {
    match onDisk
    case Absent => [Missing(file)]
    case Unreadable => [Invalid(file)]
    case Holds(value) => if value != replayed then [Stale(file)] else []
  }

  function Findings(log: seq<Record>, hash: Hash, nodes: Mirror<Nodes>, edges: Mirror<Edges>): seq<Finding> {
    ChainFindings(log, hash, |log|) + AsFindings(UnknownsUpTo(log, |log|)) +
    FileFindings("nodes.json", nodes, ReplayOf(log).nodes) + FileFindings("edges.json", edges, ReplayOf(log).edges)
  }

  lemma {:induction false} ChainFindingsEmpty(log: seq<Record>, hash: Hash, k: nat)
    requires k <= |log|
    ensures ChainFindings(log, hash, k) == [] <==> forall i :: 0 <= i < k ==> Chained(log, hash, i)
  {
    if k > 0 {
      ChainFindingsEmpty(log, hash, k - 1);
      assert ChainFindingsAt(log, hash, k - 1) == [] <==> Chained(log, hash, k - 1);
      assert |ChainFindings(log, hash, k)| == |ChainFindings(log, hash, k - 1)| + |ChainFindingsAt(log, hash, k - 1)|;
    }
  }

  lemma HeadOfPrefix(log: seq<Record>, i: nat)
    requires i < |log|
    ensures HeadOf(log[..i + 1]) == log[i].version
  {
  }

  // ---------------------------------------------------------------- the store

  datatype Proposal = Rejected(problems: seq<Problem>) | Landed(head: Version)

  function Target(p: Payload): Uid {
    match p
    case AddNode(uid, _, _) => uid
    case AddEdge(uid, _, _) => uid
    case EditMeta(uid, _) => uid
    case Deprecate(uid, _) => uid
    case Supersede(oldUids, _) => if oldUids == [] then "" else oldUids[0]
    case Equate(_) => ""
  }

  function OpName(p: Payload): string {
    match p
    case AddNode(_, _, _) => "add_node"
    case AddEdge(_, _, _) => "add_edge"
    case EditMeta(_, _) => "edit_meta"
    case Deprecate(_, _) => "deprecate"
    case Supersede(_, _) => "supersede"
    case Equate(_) => "equate"
  }

  function ReasonFor(prefix: string, p: Payload): string {
    var t := Target(p);
    prefix + ": " + OpName(p) + " " + (if |t| <= 12 then t else t[..12])
  }

  /** The reason names the op and the first twelve characters of the uid; of the first old uid for a supersede, and
      none for an equate. */
  lemma ReasonsAre(prefix: string, p: Payload, u: Uid)
    requires (p.AddNode? || p.AddEdge? || p.EditMeta? || p.Deprecate?) ==> p.uid == u
    requires p.Supersede? ==> (if p.oldUids == [] then u == "" else u == p.oldUids[0])
    requires p.Equate? ==> u == ""
    ensures var short := if |u| <= 12 then u else u[..12];
            && (p.AddNode? ==> ReasonFor(prefix, p) == prefix + ": " + "add_node" + " " + short)
            && (p.AddEdge? ==> ReasonFor(prefix, p) == prefix + ": " + "add_edge" + " " + short)
            && (p.EditMeta? ==> ReasonFor(prefix, p) == prefix + ": " + "edit_meta" + " " + short)
            && (p.Deprecate? ==> ReasonFor(prefix, p) == prefix + ": " + "deprecate" + " " + short)
            && (p.Supersede? ==> ReasonFor(prefix, p) == prefix + ": " + "supersede" + " " + short)
            && (p.Equate? ==> ReasonFor(prefix, p) == prefix + ": " + "equate" + " " + short)
  {
  }

  /** The record a push appends. */
  function NextRecord(log: seq<Record>, hash: Hash, payload: Payload, author: string, date: string, reason: string):
    Record
  {
    MakeRecord(hash, Body(if log == [] then 1 else log[|log| - 1].body.seqNo + 1, payload, author, date, reason,
                          HeadOf(log)))
  }

  /** The mirror files hold the replay; before the first push there are none. */
  predicate Mirrors(log: seq<Record>, nodes: Mirror<Nodes>, edges: Mirror<Edges>) {
    && nodes == (if log == [] then Absent else Holds(ReplayOf(log).nodes))
    && edges == (if log == [] then Absent else Holds(ReplayOf(log).edges))
  }

  class Store {
    const hash: Hash
    var log: seq<Record>
    // current/nodes.json and current/edges.json
    var nodesFile: Mirror<Nodes>
    var edgesFile: Mirror<Edges>

    /** What every store has that was only ever pushed to: an intact chain and an up-to-date mirror. */
    predicate Valid()
      reads this
    {
      && ChainIntact(log, hash)
      && Mirrors(log, nodesFile, edgesFile)
    }

    constructor (hash: Hash)
      ensures Valid() && log == [] && this.hash == hash
    {
      this.hash := hash;
      log, nodesFile, edgesFile := [], Absent, Absent;
    }

    function Head(): Version
      reads this
    {
      HeadOf(log)
    }

    /** _replay over the whole log. With verifying set it also collects the unknown uids. */
    method Replay(upTo: nat) returns (view: View, unknowns: seq<Unknown>)
      requires upTo <= |log|
      ensures view == ReplayOf(log[..upTo])
      ensures unknowns == UnknownsUpTo(log, upTo)
    {
      var r := new Replayer();
      assert log[..0] == [] && PayloadsOf(log[..0]) == [];
      for k := 0 to upTo
        invariant fresh(r) && r.AsView() == ReplayOf(log[..k])
        invariant r.problems == UnknownsUpTo(log, k)
      {
        ReplayStep(log, k);
        r.Apply(log[k].body.seqNo, log[k].body.payload);
      }
      view, unknowns := r.AsView(), r.problems;
    }

    method Push(payload: Payload, author: string, date: string, reason: string) returns (version: Version)
      modifies this`log, this`nodesFile, this`edgesFile
      ensures log == old(log) + [NextRecord(old(log), hash, payload, author, date, reason)]
      ensures var r := log[|old(log)|];
              && r.body.payload == payload && r.body.author == author && r.body.date == date
              && r.body.reason == reason && r.body.prev == HeadOf(old(log)) && r.version == hash(r.body)
      ensures version == HeadOf(log)
      ensures nodesFile == Holds(ReplayOf(log).nodes) && edgesFile == Holds(ReplayOf(log).edges)
      ensures old(Valid()) ==> Valid()
    {
      var record := NextRecord(log, hash, payload, author, date, reason);
      ChainGrows(log, hash, payload, author, date, reason);
      log := log + [record];
      var view, _ := Replay(|log|);
      assert log[..|log|] == log;
      nodesFile, edgesFile := Holds(view.nodes), Holds(view.edges);
      version := record.version;
    }

    /** None stands for an unknown version. */
    method Read(version: Option<Version>) returns (view: Option<View>)
      ensures version.None? ==> view == Some(ReplayOf(log))
      ensures version.Some? ==> view == ReadAt(log, version.value)
    {
      var upTo := |log|;
      if version.Some? {
        var i := FirstWith(log, version.value);
        if i.None? {
          return None;
        }
        upTo := i.value + 1;
      }
      var replayed, _ := Replay(upTo);
      assert log[..|log|] == log;
      view := Some(replayed);
    }

    /** The records after version a, up to and including b. */
    method Diff(a: Version, b: Version) returns (records: Option<seq<Record>>)
      ensures records == DiffOf(log, a, b)
    {
      var start := 0;
      if a != GENESIS_PREV {
        var ai := FirstWith(log, a);
        if ai.None? {
          return None;
        }
        start := ai.value + 1;
      }
      var bi := FirstWith(log, b);
      if bi.None? {
        return None;
      }
      records := Some(if start <= bi.value + 1 then log[start..bi.value + 1] else []);
    }

    /** The three chain checks of one record. */
    method CheckRecord(i: nat, expectedPrev: Version) returns (found: seq<Finding>)
      requires i < |log| && expectedPrev == HeadOf(log[..i])
      ensures found == ChainFindingsAt(log, hash, i)
    {
      found := [];
      if hash(log[i].body) != log[i].version {
        found := found + [HashMismatch(i)];
      }
      if log[i].body.prev != expectedPrev {
        found := found + [BrokenChain(i)];
      }
      if log[i].body.seqNo != i + 1 {
        found := found + [NotDense(i)];
      }
    }

    /** The loop over the records. */
    method CheckChain() returns (findings: seq<Finding>)
      ensures findings == ChainFindings(log, hash, |log|)
    {
      findings := [];
      var expectedPrev := GENESIS_PREV;
      for i := 0 to |log|
        invariant findings == ChainFindings(log, hash, i)
        invariant expectedPrev == HeadOf(log[..i])
      {
        var found := CheckRecord(i, expectedPrev);
        HeadOfPrefix(log, i);
        findings := findings + found;
        expectedPrev := log[i].version;
      }
    }

    method Verify() returns (findings: seq<Finding>)
      ensures findings == Findings(log, hash, nodesFile, edgesFile)
    {
      findings := CheckChain();
      var view, unknowns := Replay(|log|);
      assert log[..|log|] == log;
      findings := findings + AsFindings(unknowns) + FileFindings("nodes.json", nodesFile, view.nodes) +
                  FileFindings("edges.json", edgesFile, view.edges);
    }

    /** One push of the loop. */
    method PushNext(ghost start: seq<Record>, ghost kept: seq<Payload>, p: Payload, author: string, date: string,
                    prefix: string)
      returns (head: Version)
      requires Appends(start, log, kept) && SignedFrom(log, |start|, author, date, prefix)
      modifies this`log, this`nodesFile, this`edgesFile
      ensures Appends(start, log, kept + [p]) && SignedFrom(log, |start|, author, date, prefix)
      ensures head == HeadOf(log)
      ensures old(Valid()) ==> Valid()
    {
      ghost var before := log;
      head := Push(p, author, date, ReasonFor(prefix, p));
      AppendsOne(start, before, log[|before|], kept);
      SignedOne(before, log[|before|], |start|, author, date, prefix);
    }

    /** The push loop of propose. */
    method PushKept(records: seq<Payload>, noOps: set<int>, author: string, date: string, prefix: string)
      returns (head: Version)
      modifies this`log, this`nodesFile, this`edgesFile
      ensures head == HeadOf(log)
      ensures Appends(old(log), log, KeptOf(records, noOps, |records|))
      ensures SignedFrom(log, |old(log)|, author, date, prefix)
      ensures old(Valid()) ==> Valid()
    {
      ghost var start, wasValid := log, Valid();
      head := Head();
      for i := 0 to |records|
        invariant Appends(start, log, KeptOf(records, noOps, i)) && head == HeadOf(log)
        invariant SignedFrom(log, |start|, author, date, prefix)
        invariant wasValid ==> Valid()
      {
        if i !in noOps {
          head := PushNext(start, KeptOf(records, noOps, i), records[i], author, date, prefix);
        }
      }
    }

    /** Validate in full, then push record by record what is not an exact-convergence no-op. */
    method Propose(records: seq<Payload>, rules: Rules, author: string, date: string, prefix: string)
      returns (result: Proposal)
      modifies this`log, this`nodesFile, this`edgesFile
      ensures !Admissible(records, ReplayOf(old(log)), rules) ==>
                && result.Rejected? && result.problems != [] && log == old(log)
                && nodesFile == old(nodesFile) && edgesFile == old(edgesFile)
                && result.problems == Problems(records, ReplayOf(old(log)), rules)
      ensures Admissible(records, ReplayOf(old(log)), rules) ==>
                && result == Landed(HeadOf(log))
                && Appends(old(log), log, Pushed(records, ReplayOf(old(log)), rules))
                && SignedFrom(log, |old(log)|, author, date, prefix)
      ensures old(Valid()) ==> Valid()
    {
      var current, _ := Replay(|log|);
      assert log[..|log|] == log;
      var problems := ValidateContribution(records, current, rules);
      NoProblemsIffAdmissible(records, current, rules);
      if problems != [] {
        return Rejected(problems);
      }
      var head := PushKept(records, NoOps(records, current, rules), author, date, prefix);
      result := Landed(head);
    }
  }

  /** The records a proposal appends: the old log, then the given payloads. */
  ghost predicate Appends(before: seq<Record>, log: seq<Record>, pushed: seq<Payload>) {
    before <= log && PayloadsOf(log) == PayloadsOf(before) + pushed
  }

  /** Every record from position n on carries this author and date and the reason made from the prefix. */
  ghost predicate SignedFrom(log: seq<Record>, n: nat, author: string, date: string, prefix: string) {
    forall i :: n <= i < |log| ==>
      log[i].body.author == author && log[i].body.date == date &&
      log[i].body.reason == ReasonFor(prefix, log[i].body.payload)
  }

  lemma SignedOne(before: seq<Record>, r: Record, n: nat, author: string, date: string, prefix: string)
    requires SignedFrom(before, n, author, date, prefix)
    requires r.body.author == author && r.body.date == date && r.body.reason == ReasonFor(prefix, r.body.payload)
    ensures SignedFrom(before + [r], n, author, date, prefix)
  {
  }

  lemma AppendsOne(start: seq<Record>, before: seq<Record>, r: Record, pushed: seq<Payload>)
    requires Appends(start, before, pushed)
    ensures Appends(start, before + [r], pushed + [r.body.payload])
  {
    assert PayloadsOf(before + [r]) == PayloadsOf(before) + [r.body.payload];
  }

  lemma ChainGrows(log: seq<Record>, hash: Hash, payload: Payload, author: string, date: string, reason: string)
    ensures ChainIntact(log, hash) ==>
              ChainIntact(log + [NextRecord(log, hash, payload, author, date, reason)], hash)
  {
    var grown := log + [NextRecord(log, hash, payload, author, date, reason)];
    if log != [] && ChainIntact(log, hash) { assert Chained(log, hash, |log| - 1); }
    forall i | 0 <= i < |grown| && ChainIntact(log, hash) ensures Chained(grown, hash, i) {
      assert grown[..i] == log[..i];
      if i < |log| {
        assert Chained(log, hash, i);
      } else {
        assert log[..|log|] == log;
      }
    }
  }

  predicate Occurs(log: seq<Record>, version: Version) {
    exists k :: 0 <= k < |log| && log[k].version == version
  }

  lemma NotInFront(log: seq<Record>, version: Version, n: nat)
    requires n < |log| && log[0].version != version && !Occurs(log[1..][..n], version)
    ensures !Occurs(log[..n + 1], version)
  {
    var front, rest := log[..n + 1], log[1..][..n];
    forall k | 0 <= k < |front| ensures front[k].version != version {
      if k > 0 { assert front[k] == rest[k - 1]; }
    }
  }

  /** The first record of a version. */
  function FirstWith(log: seq<Record>, version: Version): (i: Option<nat>)
    ensures i.Some? ==> i.value < |log| && log[i.value].version == version && !Occurs(log[..i.value], version)
    ensures i.None? ==> !Occurs(log, version)
  {
    if log == [] then None
    else if log[0].version == version then Some(0)
    else
      var rest := FirstWith(log[1..], version);
      if rest.None? then
        assert log[1..][..|log| - 1] == log[1..] && log[..|log|] == log;
        NotInFront(log, version, |log| - 1);
        None
      else
        NotInFront(log, version, rest.value);
        Some(rest.value + 1)
  }

  function ReadAt(log: seq<Record>, version: Version): Option<View> {
    var i := FirstWith(log, version);
    if i.None? then None else Some(ReplayOf(log[..i.value + 1]))
  }

  function DiffOf(log: seq<Record>, a: Version, b: Version): Option<seq<Record>> {
    var ai, bi := FirstWith(log, a), FirstWith(log, b);
    if (a != GENESIS_PREV && ai.None?) || bi.None? then None
    else
      var start := if a == GENESIS_PREV then 0 else ai.value + 1;
      Some(if start <= bi.value + 1 then log[start..bi.value + 1] else [])
  }

  // ---------------------------------------------------------------- what holds of every store

  lemma EmptyStoreFindings(hash: Hash)
    ensures Findings([], hash, Absent, Absent) == [Missing("nodes.json"), Missing("edges.json")]
  {
    Remaining(ChainFindings([], hash, 0), AsFindings(UnknownsUpTo([], 0)), [Missing("nodes.json")],
              [Missing("edges.json")]);
  }

  lemma {:induction false} FullStoreFindings(log: seq<Record>, hash: Hash, replayed: View)
    requires ChainIntact(log, hash) && replayed == ReplayOf(log)
    ensures Findings(log, hash, Holds(replayed.nodes), Holds(replayed.edges)) == AsFindings(UnknownsUpTo(log, |log|))
  {
    var chain, unknowns := ChainFindings(log, hash, |log|), AsFindings(UnknownsUpTo(log, |log|));
    ChainFindingsEmpty(log, hash, |log|);
    var a := FileFindings("nodes.json", Holds(replayed.nodes), replayed.nodes);
    var b := FileFindings("edges.json", Holds(replayed.edges), replayed.edges);
    Remaining(chain, unknowns, a, b);
    assert Findings(log, hash, Holds(replayed.nodes), Holds(replayed.edges)) == chain + unknowns + a + b;
  }

  /** verify of a store that was only pushed to: no hash, chain or numbering finding, an up-to-date mirror, and
      exactly the unknown uids. Before the first push the two mirror files are missing. */
  lemma {:induction false} VerifyOfPushedStore(log: seq<Record>, hash: Hash, nodes: Mirror<Nodes>, edges: Mirror<Edges>)
    requires ChainIntact(log, hash)
    requires Mirrors(log, nodes, edges)
    ensures log != [] ==> Findings(log, hash, nodes, edges) == AsFindings(UnknownsUpTo(log, |log|))
    ensures log == [] ==> Findings(log, hash, nodes, edges) == [Missing("nodes.json"), Missing("edges.json")]
  {
    if log == [] {
      EmptyStoreFindings(hash);
    } else {
      FullStoreFindings(log, hash, ReplayOf(log));
    }
  }

  /** A joined list without its empty parts. */
  lemma Remaining(a: seq<Finding>, b: seq<Finding>, c: seq<Finding>, d: seq<Finding>)
    requires a == []
    ensures c == [] && d == [] ==> a + b + c + d == b
    ensures b == [] ==> a + b + c + d == c + d
  {
  }

  /** The uid was added by one of the first k records. */
  ghost predicate AddedBefore(log: seq<Record>, k: nat, u: Uid)
    requires k <= |log|
  {
    exists j :: 0 <= j < k && AddsUid(log[j].body.payload, u)
  }

  predicate AddsUid(p: Payload, u: Uid) {
    (p.AddNode? || p.AddEdge?) && p.uid == u
  }

  lemma {:induction false} KnownIffAdded(log: seq<Record>, k: nat, u: Uid)
    requires k <= |log|
    ensures Known(ReplayOf(log[..k]), u) <==> AddedBefore(log, k, u)
  {
    if k > 0 {
      KnownIffAdded(log, k - 1, u);
      ReplayStep(log, k - 1);
      var p := log[k - 1].body.payload;
      if AddedBefore(log, k, u) && !AddsUid(p, u) {
        var j :| 0 <= j < k && AddsUid(log[j].body.payload, u);
        assert j < k - 1;
      }
      if AddedBefore(log, k - 1, u) {
        var j :| 0 <= j < k - 1 && AddsUid(log[j].body.payload, u);
        assert AddsUid(log[j].body.payload, u) && j < k;
      }
    } else {
      assert PayloadsOf(log[..0]) == [];
    }
  }

  lemma {:induction false} UnknownInEmpty(v: View, seqNo: int, uids: seq<Uid>)
    ensures UnknownIn(v, seqNo, uids) == [] <==> forall i :: 0 <= i < |uids| ==> Known(v, uids[i])
  {
    if uids != [] {
      UnknownInEmpty(v, seqNo, uids[..|uids| - 1]);
    }
  }

  ghost predicate MentionsKnown(log: seq<Record>, i: nat)
    requires i < |log|
  {
    forall u :: Names(log[i].body.payload, u) ==> AddedBefore(log, i, u)
  }

  lemma MentionedAreKnown(log: seq<Record>, i: nat, v: View, uids: seq<Uid>)
    requires i < |log| && v == ReplayOf(log[..i]) && uids == Mentions(log[i].body.payload)
    ensures (forall j :: 0 <= j < |uids| ==> Known(v, uids[j])) <==> MentionsKnown(log, i)
  {
    forall u ensures Known(v, u) <==> AddedBefore(log, i, u)
             ensures u in uids <==> Names(log[i].body.payload, u)
    {
      KnownIffAdded(log, i, u);
      MentionsAre(log[i].body.payload, u);
    }
    if MentionsKnown(log, i) {
      forall j | 0 <= j < |uids| ensures Known(v, uids[j]) {
        assert uids[j] in uids && Names(log[i].body.payload, uids[j]);
      }
    }
  }

  lemma {:induction false} NoUnknowns(log: seq<Record>, k: nat)
    requires k <= |log|
    ensures UnknownsUpTo(log, k) == [] <==> forall i :: 0 <= i < k ==> MentionsKnown(log, i)
  {
    if k > 0 {
      var uids := Mentions(log[k - 1].body.payload);
      var v := ReplayOf(log[..k - 1]);
      NoUnknowns(log, k - 1);
      UnknownInEmpty(v, log[k - 1].body.seqNo, uids);
      MentionedAreKnown(log, k - 1, v, uids);
      assert |UnknownsUpTo(log, k)| == |UnknownsUpTo(log, k - 1)| + |UnknownIn(v, log[k - 1].body.seqNo, uids)|;
    }
  }

  lemma {:induction false} UnknownInMembers(v: View, seqNo: int, uids: seq<Uid>, q: Unknown)
    ensures q in UnknownIn(v, seqNo, uids) <==> q.seqNo == seqNo && q.uid in uids && !Known(v, q.uid)
  {
    if uids != [] {
      UnknownInMembers(v, seqNo, uids[..|uids| - 1], q);
      assert uids == uids[..|uids| - 1] + [uids[|uids| - 1]];
    }
  }

  /** Record i names a uid that no earlier record added. */
  ghost predicate Dangles(log: seq<Record>, i: nat, u: Uid)
    requires i < |log|
  {
    Names(log[i].body.payload, u) && !AddedBefore(log, i, u)
  }

  /** The unknown uids found are exactly the dangling ones, each with the number of its record. */
  lemma {:induction false} UnknownMembers(log: seq<Record>, k: nat, q: Unknown)
    requires k <= |log|
    ensures q in UnknownsUpTo(log, k) <==>
            exists i :: 0 <= i < k && log[i].body.seqNo == q.seqNo && Dangles(log, i, q.uid)
  {
    if k > 0 {
      var r := log[k - 1].body;
      UnknownMembers(log, k - 1, q);
      UnknownInMembers(ReplayOf(log[..k - 1]), r.seqNo, Mentions(r.payload), q);
      MentionsAre(r.payload, q.uid);
      KnownIffAdded(log, k - 1, q.uid);
      assert Dangles(log, k - 1, q.uid) <==> q.uid in Mentions(r.payload) && !Known(ReplayOf(log[..k - 1]), q.uid);
    }
  }

  // ---------------------------------------------------------------- what the log says about one node

  predicate AddsNodeAt(log: seq<Record>, i: nat, u: Uid)
    requires i < |log|
  {
    log[i].body.payload.AddNode? && log[i].body.payload.uid == u
  }

  predicate DeprecatesAt(log: seq<Record>, i: nat, u: Uid)
    requires i < |log|
  {
    log[i].body.payload.Deprecate? && log[i].body.payload.uid == u
  }

  predicate SupersedesAt(log: seq<Record>, i: nat, u: Uid)
    requires i < |log|
  {
    log[i].body.payload.Supersede? && u in log[i].body.payload.oldUids
  }

  /** The last add of node u is record k. */
  ghost predicate LastAdd(log: seq<Record>, k: nat, u: Uid) {
    k < |log| && AddsNodeAt(log, k, u) && forall i :: k < i < |log| ==> !AddsNodeAt(log, i, u)
  }

  ghost predicate DeprecatedSince(log: seq<Record>, k: nat, u: Uid) {
    exists i :: k < i < |log| && DeprecatesAt(log, i, u)
  }

  /** The last record since k that supersedes u names these successors. */
  ghost predicate SupersededSince(log: seq<Record>, k: nat, u: Uid, newUids: seq<Uid>) {
    exists i :: k < i < |log| && SupersedesAt(log, i, u) && log[i].body.payload.newUids == newUids &&
                forall j :: i < j < |log| ==> !SupersedesAt(log, j, u)
  }

  ghost predicate StandsAs(log: seq<Record>, k: nat, u: Uid, e: Entry<NodeIdentity>)
    requires LastAdd(log, k, u)
  {
    && e.identity == log[k].body.payload.node
    && (e.deprecated <==> DeprecatedSince(log, k, u))
    && (forall n :: e.supersededBy == Some(n) <==> SupersededSince(log, k, u, n))
  }

  lemma StandsStill(log: seq<Record>, r: Record, k: nat, u: Uid, e: Entry<NodeIdentity>)
    requires LastAdd(log, k, u) && LastAdd(log + [r], k, u) && StandsAs(log, k, u, e)
    ensures StandsAs(log + [r], k, u, if Names(r.body.payload, u) then Changed(e, r.body.payload) else e)
  {
    var grown, p := log + [r], r.body.payload;
    var e' := if Names(p, u) then Changed(e, p) else e;
    assert DeprecatedSince(grown, k, u) <==> DeprecatedSince(log, k, u) || (p.Deprecate? && p.uid == u) by {
      if DeprecatedSince(log, k, u) {
        var i :| k < i < |log| && DeprecatesAt(log, i, u);
        assert DeprecatesAt(grown, i, u);
      }
      if p.Deprecate? && p.uid == u { assert DeprecatesAt(grown, |log|, u); }
      if DeprecatedSince(grown, k, u) {
        var i :| k < i < |grown| && DeprecatesAt(grown, i, u);
        assert i < |log| ==> DeprecatesAt(log, i, u);
      }
    }
    forall n ensures e'.supersededBy == Some(n) <==> SupersededSince(grown, k, u, n) {
      SupersededStep(log, r, k, u, n);
      assert Names(p, u) && p.Supersede? <==> SupersedesAt(grown, |log|, u);
    }
  }

  lemma SupersededStep(log: seq<Record>, r: Record, k: nat, u: Uid, n: seq<Uid>)
    requires k < |log|
    ensures SupersededSince(log + [r], k, u, n) <==>
            if SupersedesAt(log + [r], |log|, u) then r.body.payload.newUids == n
            else SupersededSince(log, k, u, n)
  {
    var grown := log + [r];
    forall i | 0 <= i < |log| ensures SupersedesAt(grown, i, u) <==> SupersedesAt(log, i, u) {
      assert grown[i] == log[i];
    }
    if SupersededSince(log, k, u, n) && !SupersedesAt(grown, |log|, u) {
      var i :| k < i < |log| && SupersedesAt(log, i, u) && log[i].body.payload.newUids == n &&
               forall j :: i < j < |log| ==> !SupersedesAt(log, j, u);
      assert SupersedesAt(grown, i, u) && grown[i].body.payload.newUids == n;
    }
    if SupersededSince(grown, k, u, n) && !SupersedesAt(grown, |log|, u) {
      var i :| k < i < |grown| && SupersedesAt(grown, i, u) && grown[i].body.payload.newUids == n &&
               forall j :: i < j < |grown| ==> !SupersedesAt(grown, j, u);
      assert SupersedesAt(log, i, u);
      forall j | i < j < |log| ensures !SupersedesAt(log, j, u) {
        assert !SupersedesAt(grown, j, u);
      }
    }
  }

  /** A node as the log tells it: the identity of its last add, deprecated exactly if a later record says so, and
      superseded by what the last such record says. */
  lemma {:induction false} NodeAsLogged(log: seq<Record>, k: nat, u: Uid)
    requires LastAdd(log, k, u)
    ensures u in ReplayOf(log).nodes && StandsAs(log, k, u, ReplayOf(log).nodes[u])
    decreases |log|
  {
    var n := |log| - 1;
    var init, r := log[..n], log[n];
    assert log == init + [r] && log[..n + 1] == log;
    ReplayStep(log, n);
    NodeAfter(ReplayOf(init), r.body.payload, u);
    if k < n {
      assert LastAdd(init, k, u) by {
        forall i | 0 <= i < n ensures AddsNodeAt(init, i, u) <==> AddsNodeAt(log, i, u) {
        }
      }
      NodeAsLogged(init, k, u);
      assert !AddsNodeAt(log, n, u);
      StandsStill(init, r, k, u, ReplayOf(init).nodes[u]);
    }
  }

  /** A node is retired in the view exactly if, since its last add, a record deprecated it or the last record to
      supersede it named a successor. */
  lemma RetiredAsLogged(log: seq<Record>, k: nat, u: Uid)
    requires LastAdd(log, k, u)
    ensures u in ReplayOf(log).nodes
    ensures Retired(ReplayOf(log).nodes[u]) <==>
            DeprecatedSince(log, k, u) || exists n :: n != [] && SupersededSince(log, k, u, n)
  {
    NodeAsLogged(log, k, u);
    var e := ReplayOf(log).nodes[u];
    if e.supersededBy.Some? { assert SupersededSince(log, k, u, e.supersededBy.value); }
  }

  /** A pushed store verifies clean exactly when every edit, deprecation, supersede and equate names only uids that an
      earlier record added. */
  lemma CleanIffNoDanglingUid(log: seq<Record>, hash: Hash, nodes: Mirror<Nodes>, edges: Mirror<Edges>)
    requires ChainIntact(log, hash) && log != []
    requires Mirrors(log, nodes, edges)
    ensures Findings(log, hash, nodes, edges) == [] <==> forall i :: 0 <= i < |log| ==> MentionsKnown(log, i)
  {
    VerifyOfPushedStore(log, hash, nodes, edges);
    NoUnknowns(log, |log|);
  }

  /** The view a diff starts from: the genesis version stands for the empty view. */
  function BaseOf(log: seq<Record>, a: Version): Option<View> {
    if a == GENESIS_PREV then Some(EMPTY_VIEW) else ReadAt(log, a)
  }

  /** How many records a version has behind it. */
  function BehindOf(log: seq<Record>, a: Version): nat
    requires BaseOf(log, a).Some?
  {
    if a == GENESIS_PREV then 0 else FirstWith(log, a).value + 1
  }

  /** There is a diff exactly when both versions are known, the genesis version always being a start. */
  lemma DiffIsDefined(log: seq<Record>, a: Version, b: Version)
    ensures DiffOf(log, a, b).Some? <==> (a == GENESIS_PREV || Occurs(log, a)) && Occurs(log, b)
    ensures DiffOf(log, a, b).Some? <==> BaseOf(log, a).Some? && ReadAt(log, b).Some?
  {
  }

  /** Applying a diff to the view at its first version gives the view at its second, when that one is not earlier; the
      other way round the diff is empty. */
  lemma DiffConnectsReads(log: seq<Record>, a: Version, b: Version, before: View, after: View, records: seq<Record>)
    requires BaseOf(log, a) == Some(before) && ReadAt(log, b) == Some(after) && DiffOf(log, a, b) == Some(records)
    ensures BehindOf(log, a) <= FirstWith(log, b).value + 1 ==> after == AppliedAll(before, PayloadsOf(records))
    ensures records == [] <==> BehindOf(log, a) >= FirstWith(log, b).value + 1
  {
    var m, n := BehindOf(log, a), FirstWith(log, b).value + 1;
    if m <= n {
      assert log[..0] == [] && PayloadsOf(log[..0]) == [];
      ReplayBetween(log, m, n, before, after, records);
    }
  }

  lemma ReplayBetween(log: seq<Record>, m: nat, n: nat, before: View, after: View, records: seq<Record>)
    requires m <= n <= |log| && records == log[m..n]
    requires before == ReplayOf(log[..m]) && after == ReplayOf(log[..n])
    ensures after == AppliedAll(before, PayloadsOf(records))
  {
    assert log[..n] == log[..m] + records;
    assert PayloadsOf(log[..n]) == PayloadsOf(log[..m]) + PayloadsOf(records);
    AppliedConcat(EMPTY_VIEW, PayloadsOf(log[..m]), PayloadsOf(records));
  }
}
