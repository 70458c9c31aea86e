/**
 The durable state machine of src/raft/storage.rs: memory, the redb tables behind it,
 batched apply, restart, and snapshots that are built, stored, sent and installed.
 A redb transaction either takes effect as a whole or not at all; encoding and
 decoding round-trip, except that a missing applied id is written as an option and
 read back as a plain id, which fails.
 */
module RaftStorage {
  import opened Common
  import opened PolicyModel
  import opened PolicyEpochs
  import PolicyMachine

  datatype LogId = LogId(term: u64, node: u64, index: u64)

  /** Node id to whether it votes. */
  type Config = map<u64, bool>

  datatype Payload = Blank | Normal(command: Command) | Membership(config: Config)

  datatype Entry = Entry(logId: LogId, payload: Payload)

  datatype StoredMembership = StoredMembership(logId: Option<LogId>, config: Config)

  const NoMembership := StoredMembership(None, map[])

  /** What the lock guards. */
  datatype Mem = Mem(state: PolicyState, applied: Option<LogId>, membership: StoredMembership)

  datatype SnapshotMeta = SnapshotMeta(lastLogId: Option<LogId>, lastMembership: StoredMembership)

  datatype Snap = Snap(meta: SnapshotMeta, data: PolicyState)

  /** The keys of the meta and snapshot tables; `applied` holds an encoded option. */
  datatype Disk = Disk(
    policyState: Option<PolicyState>,
    applied: Option<Option<LogId>>,
    membership: Option<StoredMembership>,
    snapshotMeta: Option<SnapshotMeta>,
    snapshotData: Option<PolicyState>)

  const EmptyDisk := Disk(None, None, None, None, None)

  datatype StorageError = ReadFailed | WriteFailed

  // ---------------------------------------------------------------- applying entries

  function ApplyOne(env: Env, m: Mem, e: Entry): (Mem, PolicyResult) {
    match e.payload
    case Blank => (m.(applied := Some(e.logId)), Applied(None, None, m.state.policyEpoch, false))
    case Normal(command) =>
      var (state, r) := Apply(env, m.state, command, e.logId.index);
      (m.(state := state, applied := Some(e.logId)), r)
    case Membership(config) =>
      (m.(membership := StoredMembership(Some(e.logId), config), applied := Some(e.logId)),
       Applied(None, None, m.state.policyEpoch, true))
  }

  function ApplyEntries(env: Env, m: Mem, es: seq<Entry>): Mem {
    if es == [] then m else ApplyOne(env, ApplyEntries(env, m, es[..|es| - 1]), es[|es| - 1]).0
  }

  function Responses(env: Env, m: Mem, es: seq<Entry>): (rs: seq<PolicyResult>)
    ensures |rs| == |es|
  {
    if es == [] then [] else
      var prefix := es[..|es| - 1];
      Responses(env, m, prefix) + [ApplyOne(env, ApplyEntries(env, m, prefix), es[|es| - 1]).1]
  }

  function Start(network: string): Mem {
    Mem(NewState(network), None, NoMembership)
  }

  /** What reopening the file would give, if it succeeds. */
  function OnDisk(network: string, d: Disk): Mem {
    Mem(if d.policyState.Some? then d.policyState.value else NewState(network),
        if d.applied.Some? then d.applied.value else None,
        if d.membership.Some? then d.membership.value else NoMembership)
  }

  /** The stored applied id decodes. */
  predicate Opens(d: Disk) {
    d.applied != Some(None)
  }

  function Persisted(d: Disk, m: Mem): Disk {
    d.(policyState := Some(m.state), applied := Some(m.applied), membership := Some(m.membership))
  }

  function WithSnapshot(d: Disk, s: Snap): Disk {
    d.(snapshotMeta := Some(s.meta), snapshotData := Some(s.data))
  }

  function SnapOf(m: Mem): Snap {
    Snap(SnapshotMeta(m.applied, m.membership), m.state)
  }

  function MemOf(s: Snap): Mem {
    Mem(s.data, s.meta.lastLogId, s.meta.lastMembership)
  }

  // ---------------------------------------------------------------- the store in place

  class StateMachineStore {
    const env: Env
    var disk: Disk
    var state: PolicyState
    var applied: Option<LogId>
    var membership: StoredMembership

    function View(): Mem
      reads this
    {
      Mem(state, applied, membership)
    }

    constructor (env: Env, disk: Disk, m: Mem)
      ensures this.env == env && this.disk == disk && View() == m
    {
      this.env := env;
      this.disk := disk;
      state, applied, membership := m.state, m.applied, m.membership;
    }

    method PersistState(m: Mem, commitOk: bool) returns (ok: bool)
      modifies this`disk
      ensures ok == commitOk && disk == if commitOk then Persisted(old(disk), m) else old(disk)
    {
      if commitOk {
        disk := disk.(policyState := Some(m.state), applied := Some(m.applied), membership := Some(m.membership));
      }
      return commitOk;
    }

    /** Applies a batch to a copy, commits it, and only then replaces memory. */
    method ApplyBatch(entries: seq<Entry>, commitOk: bool) returns (r: Result<seq<PolicyResult>, StorageError>)
      modifies this
      ensures r == if commitOk then Ok(Responses(env, old(View()), entries)) else Err(WriteFailed)
      ensures View() == if commitOk then ApplyEntries(env, old(View()), entries) else old(View())
      ensures disk == if commitOk then Persisted(old(disk), View()) else old(disk)
    {
      var copy := new PolicyMachine.Machine(env, state);
      var applied' := applied;
      var membership' := membership;
      var responses: seq<PolicyResult> := [];
      ghost var m := View();
      assert entries[..0] == [];
      for i := 0 to |entries|
        invariant Mem(copy.View(), applied', membership') == ApplyEntries(env, m, entries[..i])
        invariant responses == Responses(env, m, entries[..i])
        invariant fresh(copy) && copy.env == env && View() == m && disk == old(disk)
      {
        var entry := entries[i];
        assert entries[..i + 1][..i] == entries[..i];
        applied' := Some(entry.logId);
        match entry.payload {
          case Blank =>
            responses := responses + [Applied(None, None, copy.policyEpoch, false)];
          case Normal(command) =>
            var one := copy.ApplyCommandAt(command, entry.logId.index);
            responses := responses + [one];
          case Membership(config) =>
            membership' := StoredMembership(Some(entry.logId), config);
            responses := responses + [Applied(None, None, copy.policyEpoch, true)];
        }
      }
      assert entries[..|entries|] == entries;
      var ok := PersistState(Mem(copy.View(), applied', membership'), commitOk);
      if !ok { return Err(WriteFailed); }
      state, applied, membership := copy.View(), applied', membership';
      return Ok(responses);
    }

    /** First half of `build_snapshot`: reads under the lock, which is then released. */
    method ReadForSnapshot() returns (s: Snap)
      ensures s == SnapOf(View())
    {
      return Snap(SnapshotMeta(applied, membership), state);
    }

    /** Second half: stores what was read, however far memory has moved meanwhile. */
    method CommitSnapshot(s: Snap, commitOk: bool) returns (r: Result<Snap, StorageError>)
      modifies this`disk
      ensures r == if commitOk then Ok(s) else Err(WriteFailed)
      ensures disk == if commitOk then WithSnapshot(old(disk), s) else old(disk)
    {
      if !commitOk { return Err(WriteFailed); }
      disk := disk.(snapshotMeta := Some(s.meta), snapshotData := Some(s.data));
      return Ok(s);
    }

    /** Replaces state, applied id, membership and stored snapshot in one transaction. */
    method InstallSnapshot(s: Snap, commitOk: bool) returns (r: Result<(), StorageError>)
      modifies this
      ensures r.Ok? == commitOk
      ensures View() == if commitOk then MemOf(s) else old(View())
      ensures disk == if commitOk then WithSnapshot(Persisted(old(disk), MemOf(s)), s) else old(disk)
    {
      var ok := PersistState(MemOf(s), commitOk);
      if !ok { return Err(WriteFailed); }
      disk := disk.(snapshotMeta := Some(s.meta), snapshotData := Some(s.data));
      state, applied, membership := s.data, s.meta.lastLogId, s.meta.lastMembership;
      return Ok(());
    }

    method GetCurrentSnapshot() returns (s: Option<Snap>)
      ensures s == StoredSnap(disk)
    {
      if disk.snapshotMeta.None? || disk.snapshotData.None? { return None; }
      return Some(Snap(disk.snapshotMeta.value, disk.snapshotData.value));
    }
  }

  function StoredSnap(d: Disk): Option<Snap> {
    if d.snapshotMeta.None? || d.snapshotData.None? then None
    else Some(Snap(d.snapshotMeta.value, d.snapshotData.value))
  }

  /**
   A snapshot read from memory `m` is given back as it was read, however far the applied state has moved on when it is
   stored, and storing it leaves that state alone. Installed elsewhere and reopened it is `m` again, and the file can be
   reopened exactly if the snapshot has a log id.
   */
  lemma SnapshotRoundTrip(network: string, m: Mem, later: Disk, target: Disk)
    ensures var stored := WithSnapshot(later, SnapOf(m));
            && StoredSnap(stored) == Some(SnapOf(m))
            && OnDisk(network, stored) == OnDisk(network, later) && (Opens(stored) <==> Opens(later))
    ensures var installed := WithSnapshot(Persisted(target, MemOf(SnapOf(m))), SnapOf(m));
            && OnDisk(network, installed) == m
            && StoredSnap(installed) == Some(SnapOf(m))
            && (Opens(installed) <==> m.applied.Some?)
  {}

  /** Reopens the file: memory is what the disk holds, unless the stored applied id does not decode. */
  method Open(env: Env, network: string, disk: Disk) returns (r: Result<StateMachineStore, StorageError>)
    ensures r.Ok? <==> Opens(disk)
    ensures r.Ok? ==>
      fresh(r.value) && r.value.env == env && r.value.disk == disk && r.value.View() == OnDisk(network, disk)
  {
    var state := if disk.policyState.Some? then disk.policyState.value else NewState(network);
    var applied: Option<LogId> := None;
    if disk.applied.Some? {
      if disk.applied.value.None? { return Err(ReadFailed); }
      applied := disk.applied.value;
    }
    var membership := if disk.membership.Some? then disk.membership.value else NoMembership;
    var store := new StateMachineStore(env, disk, Mem(state, applied, membership));
    return Ok(store);
  }

  // ---------------------------------------------------------------- a cluster on one log

  /** A node: its file, and its memory while it runs. */
  datatype Node = Node(disk: Disk, mem: Option<Mem>)

  /** Nodes, and every snapshot any of them ever read out (to store it, or to send it). */
  datatype Cluster = Cluster(nodes: seq<Node>, snaps: set<Snap>)

  datatype Step =
    | OpenNode(who: nat)
    | Crash(who: nat)
    | ApplyLog(who: nat, from: nat, count: nat, ok: bool)
    | ReadSnapshot(who: nat)
    | StoreSnapshot(who: nat, snap: Snap, ok: bool)
    | Install(who: nat, snap: Snap, ok: bool)

  /** The id a node has applied after `k` entries. */
  function IdAt(log: seq<Entry>, k: nat): Option<LogId>
    requires k <= |log|
  {
    if k == 0 then None else Some(log[k - 1].logId)
  }

  /** Raft hands a node the entries that follow its applied id in the committed log. */
  ghost predicate Enabled(log: seq<Entry>, c: Cluster, s: Step) {
    && s.who < |c.nodes|
    && match s
       case OpenNode(who) => c.nodes[who].mem.None?
       case Crash(who) => true
       case ApplyLog(who, from, count, _) =>
         c.nodes[who].mem.Some? && from + count <= |log| && c.nodes[who].mem.value.applied == IdAt(log, from)
       case ReadSnapshot(who) => c.nodes[who].mem.Some?
       case StoreSnapshot(who, snap, _) => c.nodes[who].mem.Some? && snap in c.snaps
       case Install(who, snap, _) => c.nodes[who].mem.Some? && snap in c.snaps
  }

  function NodeStep(env: Env, network: string, log: seq<Entry>, n: Node, s: Step): Node
    requires s.ApplyLog? ==> s.from + s.count <= |log|
    requires !s.OpenNode? && !s.Crash? ==> n.mem.Some?
  {
    match s
    case OpenNode(_) => n.(mem := if Opens(n.disk) then Some(OnDisk(network, n.disk)) else None)
    case Crash(_) => n.(mem := None)
    case ApplyLog(_, from, count, ok) =>
      if !ok then n else
        var m := ApplyEntries(env, n.mem.value, log[from..from + count]);
        Node(Persisted(n.disk, m), Some(m))
    case ReadSnapshot(_) => n
    case StoreSnapshot(_, snap, ok) => if ok then n.(disk := WithSnapshot(n.disk, snap)) else n
    case Install(_, snap, ok) =>
      if ok then Node(WithSnapshot(Persisted(n.disk, MemOf(snap)), snap), Some(MemOf(snap))) else n
  }

  ghost function Take(env: Env, network: string, log: seq<Entry>, c: Cluster, s: Step): Cluster
    requires Enabled(log, c, s)
  {
    Cluster(c.nodes[s.who := NodeStep(env, network, log, c.nodes[s.who], s)],
            if s.ReadSnapshot? then c.snaps + {SnapOf(c.nodes[s.who].mem.value)} else c.snaps)
  }

  ghost predicate Legal(env: Env, network: string, log: seq<Entry>, c: Cluster, steps: seq<Step>)
    decreases |steps|, 0
  {
    steps != [] ==>
      && Legal(env, network, log, c, steps[..|steps| - 1])
      && Enabled(log, Run(env, network, log, c, steps[..|steps| - 1]), steps[|steps| - 1])
  }

  ghost function Run(env: Env, network: string, log: seq<Entry>, c: Cluster, steps: seq<Step>): Cluster
    requires Legal(env, network, log, c, steps)
    decreases |steps|, 1
  {
    if steps == [] then c
    else Take(env, network, log, Run(env, network, log, c, steps[..|steps| - 1]), steps[|steps| - 1])
  }

  // ---------------------------------------------------------------- every node is a fold of its prefix

  ghost predicate Ordered(log: seq<Entry>) {
    forall i, j :: 0 <= i < j < |log| ==> log[i].logId.index < log[j].logId.index
  }

  /** `m` is the sequential fold of the first `k` entries of the log. */
  ghost predicate IsPrefix(env: Env, network: string, log: seq<Entry>, m: Mem, k: nat) {
    k <= |log| && m == ApplyEntries(env, Start(network), log[..k])
  }

  ghost predicate IsFold(env: Env, network: string, log: seq<Entry>, m: Mem) {
    exists k: nat :: IsPrefix(env, network, log, m, k)
  }

  /** The last membership entry, with its log id. */
  function LastMembership(es: seq<Entry>): StoredMembership {
    if es == [] then NoMembership else
      var last := es[|es| - 1];
      if last.payload.Membership? then StoredMembership(Some(last.logId), last.payload.config)
      else LastMembership(es[..|es| - 1])
  }

  /** The policy commands of the log, with their indexes. */
  function Commands(es: seq<Entry>): seq<LogCommand> {
    if es == [] then [] else
      var last := es[|es| - 1];
      Commands(es[..|es| - 1]) + if last.payload.Normal? then [LogCommand(last.logId.index, last.payload.command)]
        else []
  }

  /** The fold of a prefix: its last id, its last membership, and its commands applied in order. */
  lemma {:induction false} FoldMeaning(env: Env, network: string, es: seq<Entry>)
    ensures var m := ApplyEntries(env, Start(network), es);
            && m.applied == IdAt(es, |es|)
            && m.membership == LastMembership(es)
            && m.state == Fold(env, NewState(network), Commands(es))
  {
    if es != [] {
      hide Apply;
      var prefix := es[..|es| - 1];
      FoldMeaning(env, network, prefix);
      var last := es[|es| - 1];
      if last.payload.Normal? {
        var cs := Commands(prefix);
        var c := LogCommand(last.logId.index, last.payload.command);
        assert (cs + [c])[..|cs|] == cs;
      } else {
        assert Commands(es) == Commands(prefix);
      }
    }
  }

  lemma {:induction false} ApplySplit(env: Env, m: Mem, es: seq<Entry>, k: nat)
    requires k <= |es|
    ensures ApplyEntries(env, m, es) == ApplyEntries(env, ApplyEntries(env, m, es[..k]), es[k..])
  {
    if k == |es| {
      assert es[..k] == es;
    } else {
      ApplySplit(env, m, es[..|es| - 1], k);
      assert es[..|es| - 1][..k] == es[..k];
      assert es[k..][..|es[k..]| - 1] == es[..|es| - 1][k..];
    }
  }

  /** In an ordered log the applied id determines the prefix. */
  lemma IdDeterminesPrefix(log: seq<Entry>, j: nat, k: nat)
    requires Ordered(log) && j <= |log| && k <= |log| && IdAt(log, j) == IdAt(log, k)
    ensures j == k
  {}

  ghost predicate NodeOk(env: Env, network: string, log: seq<Entry>, n: Node) {
    && IsFold(env, network, log, OnDisk(network, n.disk))
    && (n.mem.Some? ==> n.mem.value == OnDisk(network, n.disk))
    && (StoredSnap(n.disk).Some? ==> IsFold(env, network, log, MemOf(StoredSnap(n.disk).value)))
  }

  ghost predicate ClusterOk(env: Env, network: string, log: seq<Entry>, c: Cluster) {
    && (forall i :: 0 <= i < |c.nodes| ==> NodeOk(env, network, log, c.nodes[i]))
    && (forall s :: s in c.snaps ==> IsFold(env, network, log, MemOf(s)))
  }

  ghost predicate Init(c: Cluster) {
    c.snaps == {} && forall i :: 0 <= i < |c.nodes| ==> c.nodes[i] == Node(EmptyDisk, None)
  }

  lemma StartIsFold(env: Env, network: string, log: seq<Entry>)
    ensures IsFold(env, network, log, Start(network))
  {
    assert IsPrefix(env, network, log, Start(network), 0);
  }

  /** A batch that follows the applied id extends the prefix. */
  lemma BatchExtendsFold(env: Env, network: string, log: seq<Entry>, m: Mem, from: nat, count: nat)
    requires Ordered(log) && IsFold(env, network, log, m)
    requires from + count <= |log| && m.applied == IdAt(log, from)
    ensures IsFold(env, network, log, ApplyEntries(env, m, log[from..from + count]))
  {
    PrefixExtended(env, network, log, m, from, count);
    assert IsPrefix(env, network, log, ApplyEntries(env, m, log[from..from + count]), from + count);
  }

  lemma StepKeepsOk(env: Env, network: string, log: seq<Entry>, c: Cluster, s: Step)
    requires Ordered(log) && ClusterOk(env, network, log, c) && Enabled(log, c, s)
    ensures ClusterOk(env, network, log, Take(env, network, log, c, s))
  {
    hide ApplyEntries, IsFold;
    var n := c.nodes[s.who];
    assert NodeOk(env, network, log, n);
    if s.ApplyLog? {
      BatchExtendsFold(env, network, log, n.mem.value, s.from, s.count);
    }
    assert NodeOk(env, network, log, NodeStep(env, network, log, n, s));
  }

  lemma {:induction false} RunKeepsOk(env: Env, network: string, log: seq<Entry>, c: Cluster, steps: seq<Step>)
    requires Ordered(log) && Init(c) && Legal(env, network, log, c, steps)
    ensures ClusterOk(env, network, log, Run(env, network, log, c, steps))
  {
    if steps == [] {
      StartIsFold(env, network, log);
    } else {
      RunKeepsOk(env, network, log, c, steps[..|steps| - 1]);
      StepKeepsOk(env, network, log, Run(env, network, log, c, steps[..|steps| - 1]), steps[|steps| - 1]);
    }
  }

  /** What a state says about the log prefix it stands for. */
  ghost predicate MeansPrefix(env: Env, network: string, log: seq<Entry>, m: Mem, k: nat) {
    && k <= |log|
    && m.applied == IdAt(log, k)
    && m.membership == LastMembership(log[..k])
    && m.state == Fold(env, NewState(network), Commands(log[..k]))
  }

  lemma FoldMeans(env: Env, network: string, log: seq<Entry>, m: Mem) returns (k: nat)
    requires IsFold(env, network, log, m)
    ensures MeansPrefix(env, network, log, m, k)
  {
    k :| IsPrefix(env, network, log, m, k);
    FoldMeaning(env, network, log[..k]);
    assert IdAt(log[..k], k) == IdAt(log, k);
  }

  /**
   In every run of every cluster on one ordered log, under any batching, failed commits, crashes,
   reopenings, snapshots stored late and snapshots installed from any node: a running
   node's memory equals its disk, memory and disk are the fold of the log up to their applied
   id, and a stored snapshot is the fold of the log up to the id in its own meta.
   */
  lemma NodesAreFolds(env: Env, network: string, log: seq<Entry>, c: Cluster, steps: seq<Step>, i: nat)
    requires Ordered(log) && Init(c) && Legal(env, network, log, c, steps)
    requires i < |Run(env, network, log, c, steps).nodes|
    ensures var n := Run(env, network, log, c, steps).nodes[i];
            && (n.mem.Some? ==> n.mem.value == OnDisk(network, n.disk))
            && (exists k: nat :: MeansPrefix(env, network, log, OnDisk(network, n.disk), k))
            && (StoredSnap(n.disk).Some? ==>
                  exists k: nat :: MeansPrefix(env, network, log, MemOf(StoredSnap(n.disk).value), k))
  {
    RunKeepsOk(env, network, log, c, steps);
    var n := Run(env, network, log, c, steps).nodes[i];
    var k := FoldMeans(env, network, log, OnDisk(network, n.disk));
    if StoredSnap(n.disk).Some? {
      var j := FoldMeans(env, network, log, MemOf(StoredSnap(n.disk).value));
    }
  }

  /** The step commits a missing applied id: an empty batch before anything was applied, or a snapshot without an id. */
  predicate WritesNoId(n: Node, s: Step) {
    || (s.ApplyLog? && s.ok && s.count == 0 && n.mem.Some? && n.mem.value.applied.None?)
    || (s.Install? && s.ok && s.snap.meta.lastLogId.None?)
  }

  /** A file that could be reopened stops being so exactly when a missing applied id is committed. */
  lemma ReopenLostIff(env: Env, network: string, log: seq<Entry>, n: Node, s: Step)
    requires Opens(n.disk)
    requires s.ApplyLog? ==> s.from + s.count <= |log|
    requires !s.OpenNode? && !s.Crash? ==> n.mem.Some?
    ensures !Opens(NodeStep(env, network, log, n, s).disk) <==> WritesNoId(n, s)
  {
    if s.ApplyLog? && s.count > 0 {
      BatchLeavesId(env, n.mem.value, log[s.from..s.from + s.count]);
    }
  }

  lemma BatchLeavesId(env: Env, m: Mem, es: seq<Entry>)
    requires es != []
    ensures ApplyEntries(env, m, es).applied.Some?
  {}

  ghost predicate NeverWritesNoId(env: Env, network: string, log: seq<Entry>, c: Cluster, steps: seq<Step>)
    requires Legal(env, network, log, c, steps)
  {
    steps != [] ==>
      var (prefix, s) := (steps[..|steps| - 1], steps[|steps| - 1]);
      && NeverWritesNoId(env, network, log, c, prefix)
      && !WritesNoId(Run(env, network, log, c, prefix).nodes[s.who], s)
  }

  /** In every run without such a step every file can be reopened at any time. */
  lemma {:induction false} FilesReopen(env: Env, network: string, log: seq<Entry>, c: Cluster, steps: seq<Step>)
    requires Init(c) && Legal(env, network, log, c, steps)
    requires NeverWritesNoId(env, network, log, c, steps)
    ensures forall i :: 0 <= i < |Run(env, network, log, c, steps).nodes| ==>
      Opens(Run(env, network, log, c, steps).nodes[i].disk)
  {
    if steps != [] {
      var last := |steps| - 1;
      var prefix := steps[..last];
      FilesReopen(env, network, log, c, prefix);
      var s := steps[last];
      ReopenLostIff(env, network, log, Run(env, network, log, c, prefix).nodes[s.who], s);
    }
  }

  /** Such a step exists: an empty batch on a fresh node. */
  lemma EmptyBatchBlocksReopen(env: Env, network: string, log: seq<Entry>)
    ensures var ready := NodeStep(env, network, log, Node(EmptyDisk, None), OpenNode(0));
            ready.mem.Some? && !Opens(NodeStep(env, network, log, ready, ApplyLog(0, 0, 0, true)).disk)
  {
    assert log[0..0] == [];
  }

  // ---------------------------------------------------------------- answers do not depend on the node

  /** The answer the log alone determines for its entry at `q`. */
  function AnswerAt(env: Env, network: string, log: seq<Entry>, q: nat): PolicyResult
    requires q < |log|
  {
    ApplyOne(env, ApplyEntries(env, Start(network), log[..q]), log[q]).1
  }

  lemma {:induction false} ResponseAt(env: Env, m: Mem, es: seq<Entry>, i: nat)
    requires i < |es|
    ensures Responses(env, m, es)[i] == ApplyOne(env, ApplyEntries(env, m, es[..i]), es[i]).1
  {
    hide ApplyOne, ApplyEntries;
    if i < |es| - 1 {
      ResponseAt(env, m, es[..|es| - 1], i);
      assert es[..|es| - 1][..i] == es[..i];
    }
  }

  /**
   Whichever node applies an entry, in whatever batch and after whatever crashes and snapshots, answers it alike:
   with what the sequential fold of the log up to that entry gives, which for a policy command is its result there
   and for the others the epoch there, marked as a change for a membership.
   */
  lemma SameAnswerEverywhere(env: Env, network: string, log: seq<Entry>, c: Cluster, steps: seq<Step>,
                             who: nat, from: nat, count: nat, i: nat)
    requires Ordered(log) && Init(c) && Legal(env, network, log, c, steps) && i < count
    requires Enabled(log, Run(env, network, log, c, steps), ApplyLog(who, from, count, true))
    ensures var m := Run(env, network, log, c, steps).nodes[who].mem.value;
            Responses(env, m, log[from..from + count])[i] == AnswerAt(env, network, log, from + i)
    ensures log[from + i].payload.Normal? ==>
              var before := Commands(log[..from + i]);
              && |before| < |Commands(log)|
              && AnswerAt(env, network, log, from + i) == ResultAt(env, NewState(network), Commands(log), |before|)
    ensures !log[from + i].payload.Normal? ==>
              var now := Fold(env, NewState(network), Commands(log[..from + i]));
              AnswerAt(env, network, log, from + i)
                == Applied(None, None, now.policyEpoch, log[from + i].payload.Membership?)
  {
    hide ApplyOne, ApplyEntries;
    RunKeepsOk(env, network, log, c, steps);
    var n := Run(env, network, log, c, steps).nodes[who];
    assert NodeOk(env, network, log, n);
    var es := log[from..from + count];
    ResponseAt(env, n.mem.value, es, i);
    assert es[..i] == log[from..from + i];
    PrefixExtended(env, network, log, n.mem.value, from, i);
    if log[from + i].payload.Normal? {
      NormalAnswer(env, network, log, from + i);
    } else {
      OtherAnswer(env, network, log, from + i);
    }
  }

  lemma OtherAnswer(env: Env, network: string, log: seq<Entry>, q: nat)
    requires q < |log| && !log[q].payload.Normal?
    ensures var now := Fold(env, NewState(network), Commands(log[..q]));
            AnswerAt(env, network, log, q) == Applied(None, None, now.policyEpoch, log[q].payload.Membership?)
  {
    hide Fold, ApplyEntries;
    FoldMeaning(env, network, log[..q]);
  }

  lemma PrefixExtended(env: Env, network: string, log: seq<Entry>, m: Mem, from: nat, count: nat)
    requires Ordered(log) && IsFold(env, network, log, m)
    requires from + count <= |log| && m.applied == IdAt(log, from)
    ensures ApplyEntries(env, m, log[from..from + count]) == ApplyEntries(env, Start(network), log[..from + count])
  {
    var k: nat :| IsPrefix(env, network, log, m, k);
    FoldMeaning(env, network, log[..k]);
    IdDeterminesPrefix(log, from, k);
    var whole := log[..from + count];
    ApplySplit(env, Start(network), whole, from);
    assert whole[..from] == log[..from] && whole[from..] == log[from..from + count];
  }

  lemma NormalAnswer(env: Env, network: string, log: seq<Entry>, q: nat)
    requires q < |log| && log[q].payload.Normal?
    ensures var before := Commands(log[..q]);
            && |before| < |Commands(log)|
            && AnswerAt(env, network, log, q) == ResultAt(env, NewState(network), Commands(log), |before|)
  {
    hide Apply, Fold, ApplyEntries;
    FoldMeaning(env, network, log[..q]);
    assert log[..q + 1][..q] == log[..q];
    CommandsPrefix(log, q + 1);
    var all := Commands(log);
    var before := Commands(log[..q]);
    var upto := before + [LogCommand(log[q].logId.index, log[q].payload.command)];
    assert Commands(log[..q + 1]) == upto == all[..|before| + 1];
    assert all[|before|] == upto[|before|];
    assert all[..|before|] == upto[..|before|] == before;
  }

  // ---------------------------------------------------------------- nodes at one epoch agree

  lemma {:induction false} CommandsPrefix(es: seq<Entry>, j: nat)
    requires j <= |es|
    ensures |Commands(es[..j])| <= |Commands(es)| && Commands(es[..j]) == Commands(es)[..|Commands(es[..j])|]
  {
    if j == |es| {
      assert es[..j] == es;
    } else {
      CommandsPrefix(es[..|es| - 1], j);
      assert es[..|es| - 1][..j] == es[..j];
    }
  }

  /** Node `who` is running after these steps and its memory holds the policy state `st`. */
  ghost predicate Holds(env: Env, network: string, log: seq<Entry>, c: Cluster, steps: seq<Step>, who: nat,
      st: PolicyState) {
    && Legal(env, network, log, c, steps)
    && var nodes := Run(env, network, log, c, steps).nodes;
       who < |nodes| && nodes[who].mem.Some? && nodes[who].mem.value.state == st
  }

  lemma HeldIsFold(env: Env, network: string, log: seq<Entry>, c: Cluster, steps: seq<Step>, who: nat, st: PolicyState)
    returns (p: nat)
    requires Ordered(log) && Init(c) && Holds(env, network, log, c, steps, who, st)
    ensures p <= |Commands(log)| && st == Fold(env, NewState(network), Commands(log)[..p])
  {
    hide Fold, ApplyEntries;
    RunKeepsOk(env, network, log, c, steps);
    var n := Run(env, network, log, c, steps).nodes[who];
    assert NodeOk(env, network, log, n);
    var k := FoldMeans(env, network, log, n.mem.value);
    CommandsPrefix(log, k);
    p := |Commands(log[..k])|;
  }

  /**
   Two states of one epoch below u64::MAX, held by any two nodes at any two moments of any two runs on one log, have the
   same services, tombstones and expiry, whatever either node has done since.
   */
  lemma NodesAgreeAtEpoch(env: Env, network: string, log: seq<Entry>, c: Cluster,
                          early: seq<Step>, a: nat, x: PolicyState, late: seq<Step>, b: nat, y: PolicyState)
    requires Ordered(log) && Init(c)
    requires Holds(env, network, log, c, early, a, x) && Holds(env, network, log, c, late, b, y)
    ensures x.policyEpoch == y.policyEpoch < U64_MAX ==> ContentOf(x) == ContentOf(y)
  {
    hide Fold, Holds;
    var p := HeldIsFold(env, network, log, c, early, a, x);
    var q := HeldIsFold(env, network, log, c, late, b, y);
    if p <= q {
      OneEpochOneContent(env, NewState(network), Commands(log), p, q);
    } else {
      OneEpochOneContent(env, NewState(network), Commands(log), q, p);
    }
  }
}
