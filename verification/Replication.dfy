/**
 The leaderless network (src/replicate.rs with the handlers of src/service.rs): any number of
 replicas, local operations, broadcasts that may be lost, repeated or reordered, and
 pulls of snapshots that may be stale.
 */
module Replication {
  import opened Common
  import opened Authority
  import opened StoreModel
  import opened MergeLaws
  import opened Store

  /** The part of a `replicate` message that is merged. */
  datatype Msg = Msg(name: string, entry: Entry, index: u64)

  /** A replica, the content of its file and, for the statement, every entry it ever merged or made itself. */
  datatype Replica = Replica(state: Snapshot, file: Snapshot, absorbed: set<Named>)

  /**
   Messages and offered snapshots are never taken away: one that is delivered twice,
   late, or not at all is one that is used twice, late, or not at all. `produced`
   collects what local operations and initial states ever made.
   */
  datatype Net = Net(replicas: seq<Replica>, sent: set<Msg>, offered: set<Snapshot>, produced: set<Named>)

  datatype Step =
    | Local(who: nat, op: Op, saveOk: bool)
    | Renew(who: nat, saveOk: bool)
    | Deliver(who: nat, msg: Msg, saveOk: bool)
    | Offer(who: nat)
    | Pull(who: nat, snapshot: Snapshot, saveOk: bool)
    | Restart(who: nat)

  // ---------------------------------------------------------------- steps

  /** What is broadcast after an accepted operation: the service as it now stands. */
  function Announced(s: Snapshot, op: Op): Entry
    requires if op.DeleteService? then op.service in s.tombstones else op.service in s.services
  {
    if op.DeleteService? then Tomb(s.tombstones[op.service])
    else Live(s.services[op.service].version, s.services[op.service].members)
  }

  function ValidPrefix(env: Env, es: seq<Named>): (k: nat)
    ensures k <= |es|
    ensures AllValid(env, es) ==> k == |es|
  {
    if es == [] then 0
    else if !ValidEntry(env, es[0].0, es[0].1) then 0
    else
      assert AllValid(env, es) ==> AllValid(env, es[1..]);
      1 + ValidPrefix(env, es[1..])
  }

  ghost function Replace(net: Net, who: nat, r: Replica): Net
    requires who < |net.replicas|
  {
    net.(replicas := net.replicas[who := r])
  }

  /** Memory changes in any case; the file follows if something changed and the save succeeds. */
  ghost function Change(r: Replica, state: Snapshot, saveOk: bool, more: set<Named>): Replica {
    Replica(state, if saveOk && state != r.state then state else r.file, r.absorbed + more)
  }

  /** An operation that reports a failed save is not announced, although it is done. */
  ghost function LocalStep(env: Env, net: Net, who: nat, op: Op, saveOk: bool): Net
    requires who < |net.replicas|
  {
    var r := net.replicas[who];
    if Refusal(env, r.state, op).Some? then net
    else
      var s := Perform(env, r.state, op);
      var e := Announced(s, op);
      var p := (op.service, e);
      var told := saveOk || !(op.CreateService? || op.DeleteService?);
      Replace(net, who, Change(r, s, saveOk, {p}))
        .(sent := net.sent + if told then {Msg(op.service, e, s.indexVersion)} else {}, produced := net.produced + {p})
  }

  /** What stands before the first entry that does not validate is merged; only a complete merge is saved. */
  ghost function Absorb(env: Env, r: Replica, es: seq<Named>, index: u64, saveOk: bool): Replica {
    var taken := es[..ValidPrefix(env, es)];
    Change(r, MergeAll(env, r.state, taken, index), saveOk && AllValid(env, es), set p | p in taken)
  }

  ghost function Take(env: Env, net: Net, step: Step): (next: Net)
    requires step.who < |net.replicas|
    ensures |next.replicas| == |net.replicas|
  {
    var r := net.replicas[step.who];
    match step
    case Local(who, op, saveOk) => LocalStep(env, net, who, op, saveOk)
    case Renew(who, saveOk) =>
      Replace(net, who, Change(r, r.state.(indexVersion := WrapInc(r.state.indexVersion)), saveOk, {}))
    case Deliver(who, msg, saveOk) => Replace(net, who, Absorb(env, r, [(msg.name, msg.entry)], msg.index, saveOk))
    case Offer(who) => net.(offered := net.offered + {r.state})
    case Pull(who, snapshot, saveOk) =>
      Replace(net, who, Absorb(env, r, EntriesOf(snapshot), snapshot.indexVersion, saveOk))
    case Restart(who) => Replace(net, who, r.(state := r.file))
  }

  /** A step can be taken when its message was sent or its snapshot offered; local operations are free. */
  ghost predicate Enabled(net: Net, step: Step) {
    && step.who < |net.replicas|
    && (step.Deliver? ==> step.msg in net.sent)
    && (step.Pull? ==> step.snapshot in net.offered)
  }

  ghost predicate Legal(env: Env, net: Net, steps: seq<Step>)
    decreases |steps|, 0
  {
    steps != [] ==>
      && Legal(env, net, steps[..|steps| - 1])
      && Enabled(Run(env, net, steps[..|steps| - 1]), steps[|steps| - 1])
  }

  ghost function Run(env: Env, net: Net, steps: seq<Step>): (end: Net)
    requires Legal(env, net, steps)
    ensures |end.replicas| == |net.replicas|
    decreases |steps|, 1
  {
    if steps == [] then net
    else Take(env, Run(env, net, steps[..|steps| - 1]), steps[|steps| - 1])
  }

  /** Replicas start from any files, which they have absorbed; nothing is in flight. */
  ghost predicate Init(env: Env, net: Net) {
    && net.sent == {} && net.offered == {}
    && (forall n, e :: (n, e) in net.produced ==> ValidEntry(env, n, e))
    && forall i :: 0 <= i < |net.replicas| ==>
         && net.replicas[i].file == net.replicas[i].state
         && net.replicas[i].absorbed == (set p | p in EntriesOf(net.replicas[i].state))
         && net.replicas[i].absorbed <= net.produced
  }

  // ---------------------------------------------------------------- local operations as merges

  /**
   The operation takes its service back: a deletion whose tombstone stays below the one held, or a
   counter that wraps where no tombstone covers it.
   */
  predicate GoesBack(env: Env, s: Snapshot, op: Op) {
    && Refusal(env, s, op).None?
    && op.service in s.services
    && var v := s.services[op.service].version;
       var t := TombOf(CellOf(s, op.service)).version;
       if op.DeleteService? then v == U64_MAX || v + 1 < t
       else Perform(env, s, op) != s && v == U64_MAX && t < U64_MAX
  }

  /**
   On every state an accepted operation is, for the effective value, the merge of the entry it announces,
   exactly when it does not go back. Other services are untouched.
   */
  lemma LocalIsMergeIff(env: Env, s: Snapshot, op: Op)
    requires Refusal(env, s, op).None?
    ensures var t := Perform(env, s, op);
            && (Effective(CellOf(t, op.service)) == Join(env, Effective(CellOf(s, op.service)), Announced(t, op))
                <==> !GoesBack(env, s, op))
            && (GoesBack(env, s, op) ==>
                  && Before(env, Effective(CellOf(t, op.service)), Effective(CellOf(s, op.service)))
                  && Effective(CellOf(s, op.service)) != Tomb(0))
            && forall n :: n != op.service ==> CellOf(t, n) == CellOf(s, n)
  {}

  // ---------------------------------------------------------------- every run: nothing from nowhere

  ghost predicate ReplicaOk(r: Replica, produced: set<Named>) {
    && (forall p :: p in EntriesOf(r.state) || p in EntriesOf(r.file) ==> p in r.absorbed)
    && r.absorbed <= produced
  }

  /** All that is held, sent or offered was made by some operation and validates. */
  ghost predicate NetOk(env: Env, net: Net) {
    && (forall n, e :: (n, e) in net.produced ==> ValidEntry(env, n, e))
    && (forall i :: 0 <= i < |net.replicas| ==> ReplicaOk(net.replicas[i], net.produced))
    && (forall m :: m in net.sent ==> (m.name, m.entry) in net.produced)
    && (forall s :: s in net.offered ==> forall p :: p in EntriesOf(s) ==> p in net.produced)
  }

  lemma LocalEntries(env: Env, s: Snapshot, op: Op, p: Named)
    requires Refusal(env, s, op).None? && p in EntriesOf(Perform(env, s, op))
    ensures p in EntriesOf(s) || p == (op.service, Announced(Perform(env, s, op), op))
  {
    hide EntriesOf;
    EntriesOfMembership(Perform(env, s, op), p.0, p.1);
    EntriesOfMembership(s, p.0, p.1);
  }

  /** What an operation announces has a valid name and valid peers if the service it edits has. */
  lemma AnnouncedValid(env: Env, s: Snapshot, op: Op)
    requires Refusal(env, s, op).None?
    requires forall n, e :: (n, e) in EntriesOf(s) ==> ValidEntry(env, n, e)
    ensures ValidEntry(env, op.service, Announced(Perform(env, s, op), op))
  {
    hide EntriesOf;
    if op.service in s.services {
      var e := Live(s.services[op.service].version, s.services[op.service].members);
      EntriesOfMembership(s, op.service, e);
      assert ValidEntry(env, op.service, e);
    }
  }

  lemma MergedEntry(env: Env, s: Snapshot, n: string, e: Entry, index: u64, p: Named)
    requires p in EntriesOf(MergeOne(env, s, n, e, index))
    ensures p in EntriesOf(s) || p == (n, e)
  {
    hide EntriesOf, Supersedes;
    EntriesOfMembership(MergeOne(env, s, n, e, index), p.0, p.1);
    EntriesOfMembership(s, p.0, p.1);
  }

  lemma {:induction false} MergedEntries(env: Env, s: Snapshot, es: seq<Named>, index: u64, p: Named)
    requires p in EntriesOf(MergeAll(env, s, es, index))
    ensures p in EntriesOf(s) || p in es
  {
    hide EntriesOf, MergeOne;
    if es != [] {
      var prefix := es[..|es| - 1];
      var last := es[|es| - 1];
      MergedEntry(env, MergeAll(env, s, prefix, index), last.0, last.1, index, p);
      if p != last {
        MergedEntries(env, s, prefix, index, p);
      }
    }
  }

  /** Entries that validate are all taken. */
  lemma AbsorbTakesAll(env: Env, r: Replica, es: seq<Named>, index: u64, saveOk: bool)
    requires forall p :: p in es ==> ValidEntry(env, p.0, p.1)
    ensures Absorb(env, r, es, index, saveOk) == Change(r, MergeAll(env, r.state, es, index), saveOk, set p | p in es)
  {
    assert AllValid(env, es) by {
      forall i | 0 <= i < |es| ensures ValidEntry(env, es[i].0, es[i].1) { assert es[i] in es; }
    }
    assert es[..|es|] == es;
  }

  lemma AbsorbKeepsOk(env: Env, r: Replica, es: seq<Named>, index: u64, saveOk: bool, produced: set<Named>)
    requires ReplicaOk(r, produced) && forall p :: p in es ==> p in produced
    ensures ReplicaOk(Absorb(env, r, es, index, saveOk), produced)
  {
    hide EntriesOf, MergeAll;
    var taken := es[..ValidPrefix(env, es)];
    forall p | p in EntriesOf(MergeAll(env, r.state, taken, index))
      ensures p in Absorb(env, r, es, index, saveOk).absorbed
    {
      MergedEntries(env, r.state, taken, index, p);
    }
  }

  lemma LocalReplicaOk(env: Env, r: Replica, op: Op, saveOk: bool, produced: set<Named>)
    requires ReplicaOk(r, produced) && Refusal(env, r.state, op).None?
    ensures var s := Perform(env, r.state, op);
            var p := (op.service, Announced(s, op));
            ReplicaOk(Change(r, s, saveOk, {p}), produced + {p})
  {
    hide EntriesOf;
    forall p | p in EntriesOf(Perform(env, r.state, op))
      ensures p in EntriesOf(r.state) || p == (op.service, Announced(Perform(env, r.state, op), op))
    {
      LocalEntries(env, r.state, op, p);
    }
  }

  lemma LocalKeepsOk(env: Env, net: Net, who: nat, op: Op, saveOk: bool)
    requires NetOk(env, net) && who < |net.replicas|
    ensures NetOk(env, LocalStep(env, net, who, op, saveOk))
  {
    hide EntriesOf, ValidEntry;
    var r := net.replicas[who];
    assert ReplicaOk(r, net.produced);
    if Refusal(env, r.state, op).None? {
      AnnouncedValid(env, r.state, op);
      LocalReplicaOk(env, r, op, saveOk, net.produced);
    }
  }

  lemma RenewKeepsEntries(s: Snapshot)
    ensures EntriesOf(s.(indexVersion := WrapInc(s.indexVersion))) == EntriesOf(s)
  {}

  lemma StepKeepsOk(env: Env, net: Net, step: Step)
    requires NetOk(env, net) && Enabled(net, step)
    ensures NetOk(env, Take(env, net, step))
  {
    hide EntriesOf, ValidEntry, LocalStep, Absorb;
    var r := net.replicas[step.who];
    assert ReplicaOk(r, net.produced);
    match step
    case Local(who, op, saveOk) =>
      LocalKeepsOk(env, net, who, op, saveOk);
    case Renew(_, _) =>
      RenewKeepsEntries(r.state);
    case Deliver(_, msg, saveOk) =>
      AbsorbKeepsOk(env, r, [(msg.name, msg.entry)], msg.index, saveOk, net.produced);
    case Offer(_) =>
    case Pull(_, snapshot, saveOk) =>
      AbsorbKeepsOk(env, r, EntriesOf(snapshot), snapshot.indexVersion, saveOk, net.produced);
    case Restart(_) =>
  }

  /** In every run whatever is held, sent or offered was made by some operation, and validates everywhere. */
  lemma {:induction false} RunKeepsOk(env: Env, net: Net, steps: seq<Step>)
    requires Init(env, net) && Legal(env, net, steps)
    ensures NetOk(env, Run(env, net, steps))
  {
    if steps != [] {
      RunKeepsOk(env, net, steps[..|steps| - 1]);
      StepKeepsOk(env, Run(env, net, steps[..|steps| - 1]), steps[|steps| - 1]);
    }
  }

  // ---------------------------------------------------------------- the maximum of what was absorbed

  /** The service stands at the maximum of everything absorbed for it. */
  ghost predicate AtMax(env: Env, r: Replica, n: string) {
    var m := Effective(CellOf(r.state, n));
    && (m == Tomb(0) || (n, m) in r.absorbed)
    && forall e :: (n, e) in r.absorbed ==> !Before(env, m, e)
  }

  /** The file is behind memory on the service: a restart would lose something. */
  ghost predicate Behind(env: Env, r: Replica, n: string) {
    Before(env, Effective(CellOf(r.file, n)), Effective(CellOf(r.state, n)))
  }

  /** The step takes service `n` of replica `i` back: by its own operation, or by a restart from a file behind. */
  ghost predicate BackStep(env: Env, net: Net, step: Step, i: nat, n: string)
    requires i < |net.replicas|
  {
    && step.who == i
    && var r := net.replicas[i];
       || (step.Local? && step.op.service == n && GoesBack(env, r.state, step.op))
       || (step.Restart? && Behind(env, r, n))
  }

  /** Replica `i` never took service `n` back in the run. */
  ghost predicate Steady(env: Env, net: Net, steps: seq<Step>, i: nat, n: string)
    requires Legal(env, net, steps) && i < |net.replicas|
  {
    steps != [] ==>
      var prefix := steps[..|steps| - 1];
      && Steady(env, net, prefix, i, n)
      && !BackStep(env, Run(env, net, prefix), steps[|steps| - 1], i, n)
  }

  lemma InitialAtMax(env: Env, r: Replica, n: string)
    requires r.absorbed == set p | p in EntriesOf(r.state)
    ensures AtMax(env, r, n)
  {
    var m := Effective(CellOf(r.state, n));
    EntriesOfMembership(r.state, n, m);
    forall e | (n, e) in r.absorbed ensures !Before(env, m, e) { EntriesOfMembership(r.state, n, e); }
  }

  /** Joining an entry in, wherever it came from, keeps the maximum. */
  lemma JoinKeepsAtMax(env: Env, r: Replica, n: string, q: Replica, e: Entry)
    requires AtMax(env, r, n) && q.absorbed == r.absorbed + {(n, e)}
    requires Effective(CellOf(q.state, n)) == Join(env, Effective(CellOf(r.state, n)), e)
    ensures AtMax(env, q, n)
  {}

  lemma AbsorbAllAtMax(env: Env, r: Replica, es: seq<Named>, index: u64, saveOk: bool, n: string)
    requires AtMax(env, r, n)
    ensures AtMax(env, Change(r, MergeAll(env, r.state, es, index), saveOk, set p | p in es), n)
  {
    MergeAllIsMax(env, r.state, es, index, n);
    var q := Change(r, MergeAll(env, r.state, es, index), saveOk, set p | p in es);
    var m := Effective(CellOf(r.state, n));
    var k := Effective(CellOf(q.state, n));
    forall e | (n, e) in q.absorbed ensures !Before(env, k, e) {
      if (n, e) in r.absorbed { BeforeTransitive(env, m, k, e); }
    }
  }

  /** A local operation keeps the maximum exactly when it does not go back. */
  lemma LocalAtMaxIff(env: Env, net: Net, who: nat, op: Op, saveOk: bool)
    requires who < |net.replicas| && AtMax(env, net.replicas[who], op.service)
    ensures AtMax(env, LocalStep(env, net, who, op, saveOk).replicas[who], op.service)
            <==> !GoesBack(env, net.replicas[who].state, op)
  {
    hide EntriesOf, Before, Effective;
    var r := net.replicas[who];
    if Refusal(env, r.state, op).None? {
      var q := LocalStep(env, net, who, op, saveOk).replicas[who];
      var m := Effective(CellOf(r.state, op.service));
      LocalIsMergeIff(env, r.state, op);
      if !GoesBack(env, r.state, op) {
        JoinKeepsAtMax(env, r, op.service, q, Announced(q.state, op));
      } else {
        assert (op.service, m) in r.absorbed;
      }
    }
  }

  /** A restart keeps the maximum exactly when the file is not behind. */
  lemma RestartAtMaxIff(env: Env, r: Replica, n: string, produced: set<Named>)
    requires ReplicaOk(r, produced) && AtMax(env, r, n)
    ensures AtMax(env, r.(state := r.file), n) <==> !Behind(env, r, n)
  {
    var m := Effective(CellOf(r.state, n));
    var f := Effective(CellOf(r.file, n));
    EntriesOfMembership(r.file, n, f);
    hide EntriesOf;
    if !Behind(env, r, n) {
      forall e | (n, e) in r.absorbed ensures !Before(env, f, e) { BeforeTransitive(env, m, f, e); }
    }
  }

  lemma StepKeepsAtMax(env: Env, net: Net, step: Step, i: nat, n: string)
    requires Enabled(net, step) && i < |net.replicas| && NetOk(env, net) && AtMax(env, net.replicas[i], n)
    requires !BackStep(env, net, step, i, n)
    ensures AtMax(env, Take(env, net, step).replicas[i], n)
  {
    hide GoesBack, MergeAll, EntriesOf, Before, Effective;
    var r := net.replicas[i];
    if step.who == i {
      match step
      case Local(who, op, saveOk) =>
        if op.service == n {
          LocalAtMaxIff(env, net, who, op, saveOk);
        } else if Refusal(env, r.state, op).None? {
          LocalIsMergeIff(env, r.state, op);
        }
      case Renew(_, _) =>
      case Deliver(_, msg, saveOk) =>
        var es := [(msg.name, msg.entry)];
        AbsorbAllAtMax(env, r, es[..ValidPrefix(env, es)], msg.index, saveOk && AllValid(env, es), n);
      case Offer(_) =>
      case Pull(_, snapshot, saveOk) =>
        var es := EntriesOf(snapshot);
        AbsorbAllAtMax(env, r, es[..ValidPrefix(env, es)], snapshot.indexVersion, saveOk && AllValid(env, es), n);
      case Restart(_) =>
        RestartAtMaxIff(env, r, n, net.produced);
    }
  }

  /** In every run, whatever the others do, a replica that never took a service back holds its maximum. */
  lemma {:induction false} SteadyAtMax(env: Env, net: Net, steps: seq<Step>, i: nat, n: string)
    requires Init(env, net) && Legal(env, net, steps) && i < |net.replicas| && Steady(env, net, steps, i, n)
    ensures AtMax(env, Run(env, net, steps).replicas[i], n)
  {
    if steps == [] {
      InitialAtMax(env, net.replicas[i], n);
    } else {
      var prefix := steps[..|steps| - 1];
      SteadyAtMax(env, net, prefix, i, n);
      RunKeepsOk(env, net, prefix);
      StepKeepsAtMax(env, Run(env, net, prefix), steps[|steps| - 1], i, n);
    }
  }

  // ---------------------------------------------------------------- restarts

  /** Every save of replica `i` succeeded. */
  predicate AllSaved(steps: seq<Step>, i: nat) {
    forall k :: 0 <= k < |steps| && steps[k].who == i && !steps[k].Offer? && !steps[k].Restart? ==> steps[k].saveOk
  }

  /**
   As long as the saves of a replica succeed its file is its memory, so that its restarts take nothing back, in every
   run and whatever it receives.
   */
  lemma {:induction false} SavedIsCurrent(env: Env, net: Net, steps: seq<Step>, i: nat)
    requires Init(env, net) && Legal(env, net, steps) && i < |net.replicas| && AllSaved(steps, i)
    ensures Run(env, net, steps).replicas[i].file == Run(env, net, steps).replicas[i].state
  {
    if steps != [] {
      var prefix := steps[..|steps| - 1];
      var step := steps[|steps| - 1];
      SavedIsCurrent(env, net, prefix, i);
      RunKeepsOk(env, net, prefix);
      if step.who == i {
        StepSaves(env, Run(env, net, prefix), step);
      }
    }
  }

  lemma StepSaves(env: Env, net: Net, step: Step)
    requires NetOk(env, net) && Enabled(net, step) && (step.Offer? || step.Restart? || step.saveOk)
    requires net.replicas[step.who].file == net.replicas[step.who].state
    ensures var r := Take(env, net, step).replicas[step.who]; r.file == r.state
  {
    hide EntriesOf, MergeAll, Perform, Refusal;
    if step.Deliver? {
      assert ValidEntry(env, step.msg.name, step.msg.entry);
    } else if step.Pull? {
      AllTaken(env, net, net.replicas[step.who], step.snapshot, step.saveOk);
    }
  }

  /**
   A save that fails unnoticed and a restart take a service back: the replica announced version 2 and stands at
   version 1 again.
   */
  lemma RestartForgets(env: Env, net: Net)
    requires env.validPeer("p") && |net.replicas| == 1
    requires net.replicas[0].state == net.replicas[0].file
      == Snapshot("net", 1, map["svc" := ServiceState(1, {})], map[])
    ensures var told := Take(env, net, Local(0, AddMembers("svc", ["p"]), false));
            && Msg("svc", Live(2, {"p"}), 2) in told.sent
            && Behind(env, told.replicas[0], "svc")
            && Effective(CellOf(Take(env, told, Restart(0)).replicas[0].state, "svc")) == Live(1, {})
  {
    var op := AddMembers("svc", ["p"]);
    assert ToSet(["p"]) == {"p"};
    assert FirstInvalid(env, ["p"]) == None;
    assert {} + {"p"} == {"p"};
    assert Perform(env, net.replicas[0].state, op) == Snapshot("net", 2, map["svc" := ServiceState(2, {"p"})], map[]);
    var told := Take(env, net, Local(0, op, false));
    assert Announced(told.replicas[0].state, op) == Live(2, {"p"});
  }

  // ---------------------------------------------------------------- states without hidden parts

  /** A cell that shows all it holds: not live beside a tombstone, and no counter that wrapped to 0. */
  predicate Plain(c: Cell) {
    && (c.live.None? || c.tomb.None?)
    && (c.live.Some? ==> c.live.value.version >= 1)
    && (c.tomb.Some? ==> c.tomb.value >= 1)
  }

  /** The operation hides something: it creates over a held tombstone or counts past u64::MAX. */
  predicate Hides(env: Env, s: Snapshot, op: Op) {
    && Refusal(env, s, op).None?
    && if op.CreateService? then op.service in s.tombstones
       else Perform(env, s, op) != s && s.services[op.service].version == U64_MAX
  }

  /** Replica `i` never hid part of service `n` in the run, and never restarted from a file behind on it. */
  ghost predicate Tidy(env: Env, net: Net, steps: seq<Step>, i: nat, n: string)
    requires Legal(env, net, steps) && i < |net.replicas|
  {
    steps != [] ==>
      var prefix := steps[..|steps| - 1];
      && Tidy(env, net, prefix, i, n)
      && !UntidyStep(env, Run(env, net, prefix), steps[|steps| - 1], i, n)
  }

  ghost predicate UntidyStep(env: Env, net: Net, step: Step, i: nat, n: string)
    requires i < |net.replicas|
  {
    && step.who == i
    && var r := net.replicas[i];
       || (step.Local? && step.op.service == n && Hides(env, r.state, step.op))
       || (step.Restart? && Behind(env, r, n))
  }

  /** Plain cells are told apart by their effective values. */
  lemma PlainsAgree(c: Cell, d: Cell)
    ensures Plain(c) && Plain(d) && Effective(c) == Effective(d) ==> c == d
  {}

  lemma MergeOneKeepsPlain(env: Env, c: Cell, e: Entry)
    requires Plain(c)
    ensures Plain(MergeCell(env, c, e))
  {}

  lemma {:induction false} MergeKeepsPlain(env: Env, s: Snapshot, es: seq<Named>, index: u64, n: string)
    requires Plain(CellOf(s, n))
    ensures Plain(CellOf(MergeAll(env, s, es, index), n))
  {
    if es != [] {
      var t := MergeAll(env, s, es[..|es| - 1], index);
      var last := es[|es| - 1];
      MergeKeepsPlain(env, s, es[..|es| - 1], index, n);
      WithCellFrame(t, last.0, MergeCell(env, CellOf(t, last.0), last.1), n);
      MergeOneKeepsPlain(env, CellOf(t, n), last.1);
    }
  }

  /**
   From a plain cell an operation leaves a plain cell exactly when it does not hide; going back needs hiding
   first.
   */
  lemma LocalPlainIff(env: Env, s: Snapshot, op: Op)
    requires Refusal(env, s, op).None? && Plain(CellOf(s, op.service))
    ensures Plain(CellOf(Perform(env, s, op), op.service)) <==> !Hides(env, s, op)
    ensures GoesBack(env, s, op) ==> Hides(env, s, op)
  {}

  ghost predicate PlainReplica(r: Replica, n: string) {
    Plain(CellOf(r.state, n)) && Plain(CellOf(r.file, n))
  }

  lemma StepKeepsPlain(env: Env, net: Net, step: Step, i: nat, n: string)
    requires Enabled(net, step) && i < |net.replicas| && PlainReplica(net.replicas[i], n)
    requires !UntidyStep(env, net, step, i, n)
    ensures PlainReplica(Take(env, net, step).replicas[i], n) && !BackStep(env, net, step, i, n)
  {
    hide MergeAll, EntriesOf, Effective;
    var r := net.replicas[i];
    if step.who == i {
      match step
      case Local(who, op, saveOk) =>
        if Refusal(env, r.state, op).None? {
          LocalIsMergeIff(env, r.state, op);
          if op.service == n { LocalPlainIff(env, r.state, op); }
        }
      case Renew(_, _) =>
      case Deliver(_, msg, _) =>
        var es := [(msg.name, msg.entry)];
        MergeKeepsPlain(env, r.state, es[..ValidPrefix(env, es)], msg.index, n);
      case Offer(_) =>
      case Pull(_, snapshot, _) =>
        var es := EntriesOf(snapshot);
        MergeKeepsPlain(env, r.state, es[..ValidPrefix(env, es)], snapshot.indexVersion, n);
      case Restart(_) =>
    }
  }

  lemma {:induction false} TidyStaysPlain(env: Env, net: Net, steps: seq<Step>, i: nat, n: string)
    requires Legal(env, net, steps) && i < |net.replicas| && Tidy(env, net, steps, i, n)
    requires PlainReplica(net.replicas[i], n)
    ensures PlainReplica(Run(env, net, steps).replicas[i], n) && Steady(env, net, steps, i, n)
  {
    if steps != [] {
      var prefix := steps[..|steps| - 1];
      TidyStaysPlain(env, net, prefix, i, n);
      StepKeepsPlain(env, Run(env, net, prefix), steps[|steps| - 1], i, n);
    }
  }

  // ---------------------------------------------------------------- convergence

  ghost function AbsorbedFor(r: Replica, n: string): set<Entry> {
    set p | p in r.absorbed && p.0 == n :: p.1
  }

  lemma AbsorbedForMembership(r: Replica, n: string, e: Entry)
    ensures e in AbsorbedFor(r, n) <==> (n, e) in r.absorbed
  {
    if (n, e) in r.absorbed { assert (n, e).1 in AbsorbedFor(r, n); }
  }

  lemma SameEntriesSameEffective(env: Env, a: Replica, b: Replica, n: string)
    requires AtMax(env, a, n) && AtMax(env, b, n)
    requires AbsorbedFor(a, n) == AbsorbedFor(b, n) && NoCollision(env, AbsorbedFor(a, n))
    ensures Effective(CellOf(a.state, n)) == Effective(CellOf(b.state, n))
  {
    var x := Effective(CellOf(a.state, n));
    var y := Effective(CellOf(b.state, n));
    AbsorbedForMembership(a, n, x);
    AbsorbedForMembership(b, n, x);
    AbsorbedForMembership(a, n, y);
    AbsorbedForMembership(b, n, y);
    if x != Tomb(0) && y != Tomb(0) {
      NoCollisionTotal(env, AbsorbedFor(a, n), x, y);
    }
  }

  /**
   In every run: a replica that never took a service back stands at the maximum of what it absorbed for it, all of
   which was made by some operation; two such replicas that absorbed the same entries for the service agree on its
   effective value, and on service and tombstone if neither holds it live beside a tombstone.
   */
  lemma Convergence(env: Env, start: Net, steps: seq<Step>, i: nat, j: nat, n: string)
    requires Init(env, start) && Legal(env, start, steps) && i < |start.replicas| && j < |start.replicas|
    requires Steady(env, start, steps, i, n) && Steady(env, start, steps, j, n)
    ensures var net := Run(env, start, steps);
            && AtMax(env, net.replicas[i], n)
            && net.replicas[i].absorbed <= net.produced
    ensures var net := Run(env, start, steps);
            var (c, d) := (CellOf(net.replicas[i].state, n), CellOf(net.replicas[j].state, n));
            && AbsorbedFor(net.replicas[i], n) == AbsorbedFor(net.replicas[j], n)
            && NoCollision(env, AbsorbedFor(net.replicas[i], n))
            ==> Effective(c) == Effective(d) && (Plain(c) && Plain(d) ==> c == d)
  {
    hide Run, Legal, Steady, EntriesOf, Effective, Plain, NoCollision, AbsorbedFor;
    RunKeepsOk(env, start, steps);
    var net := Run(env, start, steps);
    assert ReplicaOk(net.replicas[i], net.produced);
    SteadyAtMax(env, start, steps, i, n);
    SteadyAtMax(env, start, steps, j, n);
    if AbsorbedFor(net.replicas[i], n) == AbsorbedFor(net.replicas[j], n)
       && NoCollision(env, AbsorbedFor(net.replicas[i], n)) {
      SameEntriesSameEffective(env, net.replicas[i], net.replicas[j], n);
      PlainsAgree(CellOf(net.replicas[i].state, n), CellOf(net.replicas[j].state, n));
    }
  }

  /**
   Two replicas that absorbed the same entries have equal services and equal tombstones, if neither of the two ever
   created over a held tombstone, counted past u64::MAX or restarted from a file behind. The other replicas may do
   anything.
   */
  lemma SameHistorySameState(env: Env, start: Net, steps: seq<Step>, i: nat, j: nat)
    requires Init(env, start) && Legal(env, start, steps) && i < |start.replicas| && j < |start.replicas|
    requires forall n :: Tidy(env, start, steps, i, n) && PlainReplica(start.replicas[i], n)
    requires forall n :: Tidy(env, start, steps, j, n) && PlainReplica(start.replicas[j], n)
    requires var net := Run(env, start, steps);
             && net.replicas[i].absorbed == net.replicas[j].absorbed
             && forall n :: NoCollision(env, AbsorbedFor(net.replicas[i], n))
    ensures var net := Run(env, start, steps);
            && net.replicas[i].state.services == net.replicas[j].state.services
            && net.replicas[i].state.tombstones == net.replicas[j].state.tombstones
  {
    hide Run, Legal, Tidy, Steady, Init, AtMax, Effective, NoCollision;
    var net := Run(env, start, steps);
    var s := net.replicas[i].state;
    var t := net.replicas[j].state;
    forall n ensures CellOf(s, n) == CellOf(t, n) {
      assert Tidy(env, start, steps, i, n) && Tidy(env, start, steps, j, n);
      TidyStaysPlain(env, start, steps, i, n);
      TidyStaysPlain(env, start, steps, j, n);
      Convergence(env, start, steps, i, j, n);
    }
    SameCellsSameMaps(s, t);
  }

  lemma SameCellsSameMaps(s: Snapshot, t: Snapshot)
    requires forall n :: CellOf(s, n) == CellOf(t, n)
    ensures s.services == t.services && s.tombstones == t.tombstones
  {
    var u := t.(network := s.network, indexVersion := s.indexVersion);
    forall n ensures CellOf(s, n) == CellOf(u, n) { assert CellOf(s, n) == CellOf(t, n); }
    SnapEqual(s, u);
  }

  // ---------------------------------------------------------------- two replicas pull each other

  /** The state after pulling that of another replica, all of whose entries validate. */
  ghost function Pulled(env: Env, s: Snapshot, from: Snapshot): Snapshot {
    MergeAll(env, s, EntriesOf(from), from.indexVersion)
  }

  /**
   From any point of any run, whatever was done before: once replicas `i` and `j` pull each other's state, all of it
   is accepted and they agree on the effective value of every service, on service and tombstone where neither held
   it live beside a tombstone, and on the index version unless the first snapshot was empty.
   */
  lemma ExchangeConverges(env: Env, start: Net, steps: seq<Step>, i: nat, j: nat, saveA: bool, saveB: bool, n: string)
    requires Init(env, start) && Legal(env, start, steps) && i < |start.replicas| && j < |start.replicas|
    requires NoCollision(env, set p | p in Run(env, start, steps).produced :: p.1)
    ensures var net := Run(env, start, steps);
            var (a, b) := (net.replicas[i].state, net.replicas[j].state);
            var a' := Pulled(env, a, b);
            var b' := Pulled(env, b, a');
            && Absorb(env, net.replicas[i], EntriesOf(b), b.indexVersion, saveA).state == a'
            && Absorb(env, net.replicas[j], EntriesOf(a'), a'.indexVersion, saveB).state == b'
            && Effective(CellOf(a', n)) == Effective(CellOf(b', n))
            && (Plain(CellOf(a, n)) && Plain(CellOf(b, n)) ==> CellOf(a', n) == CellOf(b', n))
            && (EntriesOf(b) != [] && EntriesOf(a') != [] ==> a'.indexVersion == b'.indexVersion)
  {
    RunKeepsOk(env, start, steps);
    var net := Run(env, start, steps);
    var (r, q) := (net.replicas[i], net.replicas[j]);
    assert ReplicaOk(r, net.produced) && ReplicaOk(q, net.produced);
    var a' := Pulled(env, r.state, q.state);
    ExchangedIndex(env, r.state, q.state);
    ExchangedCell(env, r.state, q.state, net.produced, n);
    forall p | p in EntriesOf(a') ensures p in net.produced {
      MergedEntries(env, r.state, EntriesOf(q.state), q.state.indexVersion, p);
    }
    AllTaken(env, net, r, q.state, saveA);
    AllTaken(env, net, q, a', saveB);
  }

  lemma AllTaken(env: Env, net: Net, r: Replica, s: Snapshot, saveOk: bool)
    requires NetOk(env, net) && forall p :: p in EntriesOf(s) ==> p in net.produced
    ensures Absorb(env, r, EntriesOf(s), s.indexVersion, saveOk)
            == Change(r, Pulled(env, r.state, s), saveOk, set p | p in EntriesOf(s))
  {
    forall p | p in EntriesOf(s) ensures ValidEntry(env, p.0, p.1) { assert (p.0, p.1) in net.produced; }
    AbsorbTakesAll(env, r, EntriesOf(s), s.indexVersion, saveOk);
  }

  lemma ExchangedIndex(env: Env, a: Snapshot, b: Snapshot)
    ensures var a' := Pulled(env, a, b);
            EntriesOf(b) != [] && EntriesOf(a') != [] ==> Pulled(env, b, a').indexVersion == a'.indexVersion
  {
    var a' := Pulled(env, a, b);
    MergeAllIsMax(env, a, EntriesOf(b), b.indexVersion, "");
    MergeAllIsMax(env, b, EntriesOf(a'), a'.indexVersion, "");
  }

  lemma ExchangedEffective(env: Env, a: Snapshot, b: Snapshot, produced: set<Named>, n: string)
    requires NoCollision(env, set p | p in produced :: p.1)
    requires forall p :: p in EntriesOf(a) || p in EntriesOf(b) ==> p in produced
    ensures var a' := Pulled(env, a, b);
            Effective(CellOf(a', n)) == Effective(CellOf(Pulled(env, b, a'), n))
  {
    hide EntriesOf, MergeAll, NoCollision, Before;
    var x := Effective(CellOf(a, n));
    var y := Effective(CellOf(b, n));
    EntriesOfMembership(a, n, x);
    EntriesOfMembership(b, n, y);
    ProducedDoNotCollide(env, produced, n, x, y);
    SnapshotMergeIsJoin(env, a, b, n);
    ProducedDoNotCollide(env, produced, n, y, Join(env, x, y));
    SnapshotMergeIsJoin(env, b, Pulled(env, a, b), n);
    BothWays(env, x, y);
  }

  lemma BothWays(env: Env, x: Entry, y: Entry)
    requires NoCollision(env, {x, y})
    ensures Join(env, x, y) == Join(env, y, Join(env, x, y))
  {
    JoinLaws(env, x, y, y);
  }

  lemma ExchangedCell(env: Env, a: Snapshot, b: Snapshot, produced: set<Named>, n: string)
    requires NoCollision(env, set p | p in produced :: p.1)
    requires forall p :: p in EntriesOf(a) || p in EntriesOf(b) ==> p in produced
    ensures var a' := Pulled(env, a, b);
            var b' := Pulled(env, b, a');
            && Effective(CellOf(a', n)) == Effective(CellOf(b', n))
            && (Plain(CellOf(a, n)) && Plain(CellOf(b, n)) ==> CellOf(a', n) == CellOf(b', n))
  {
    hide EntriesOf, MergeAll, NoCollision, Before;
    var a' := Pulled(env, a, b);
    ExchangedEffective(env, a, b, produced, n);
    if Plain(CellOf(a, n)) && Plain(CellOf(b, n)) {
      MergeKeepsPlain(env, a, EntriesOf(b), b.indexVersion, n);
      MergeKeepsPlain(env, b, EntriesOf(a'), a'.indexVersion, n);
      PlainsAgree(CellOf(a', n), CellOf(Pulled(env, b, a'), n));
    }
  }

  lemma ProducedDoNotCollide(env: Env, produced: set<Named>, n: string, x: Entry, y: Entry)
    requires NoCollision(env, set p | p in produced :: p.1)
    requires (x == Tomb(0) || (n, x) in produced) && (y == Tomb(0) || (n, y) in produced)
    ensures NoCollision(env, {x, y})
  {
    var all := set p | p in produced :: p.1;
    assert (n, x) in produced ==> (n, x).1 in all;
    assert (n, y) in produced ==> (n, y).1 in all;
  }

  // ---------------------------------------------------------------- the conditions are needed

  const DEAD_STATE := Snapshot("net", 3, map[], map["svc" := 2])
  const DEAD := Replica(DEAD_STATE, DEAD_STATE, {("svc", Tomb(2))})

  /**
   Re-creating over a tombstone leaves two replicas with one history and one effective value, but different
   services.
   */
  lemma RecreationHides(env: Env)
    ensures var net := Net([DEAD, DEAD], {}, {}, {("svc", Tomb(2))});
            var create := CreateService("svc", []);
            var told := Take(env, net, Local(0, create, true));
            var msg := Msg("svc", Live(1, {}), 4);
            var end := Take(env, told, Deliver(1, msg, true));
            && msg in told.sent
            && end.replicas[0].absorbed == end.replicas[1].absorbed
            && end.replicas[0].state.services == map["svc" := ServiceState(1, {})]
            && end.replicas[1].state.services == map[]
            && Hides(env, DEAD.state, create)
  {
    assert IsValidServiceName("svc");
    var net := Net([DEAD, DEAD], {}, {}, {("svc", Tomb(2))});
    assert ToSet([]) == {};
    assert Refusal(env, DEAD.state, CreateService("svc", [])).None?;
    var told := Take(env, net, Local(0, CreateService("svc", []), true));
    assert told.replicas[0].state == Snapshot("net", 4, map["svc" := ServiceState(1, {})], map["svc" := 2]);
    assert told.sent == {Msg("svc", Live(1, {}), 4)};
    var es := [("svc", Live(1, {}))];
    AbsorbTakesAll(env, DEAD, es, 4, true);
    assert es[..0] == [];
    assert MergeAll(env, DEAD.state, es[..0], 4) == DEAD.state;
    assert MergeAll(env, DEAD.state, es, 4) == DEAD.state.(indexVersion := 4);
    assert (set p | p in es) == {("svc", Live(1, {}))};
  }
}
