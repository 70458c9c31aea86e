/**
 Admin requests are applied once and remembered (src/raft/state_machine.rs): retries
 change nothing, are answered with the first result, and the memory lasts for
 10,000 later requests or 24 hours, whichever ends first.
 */
module Idempotency {
  import opened Common
  import opened PolicyModel

  /** The command would be recorded: an admin request whose id is not in the table. */
  predicate IsNew(st: PolicyState, cmd: Command) {
    cmd.Admin? && cmd.requestId !in st.dedup
  }

  predicate IsRetry(st: PolicyState, cmd: Command) {
    cmd.Admin? && cmd.requestId in st.dedup
  }

  // ---------------------------------------------------------------- retries have no effect

  /** The log without the entries that were retries when their turn came. */
  function WithoutRetries(env: Env, st: PolicyState, log: seq<LogCommand>): seq<LogCommand> {
    if log == [] then [] else
      var prefix := log[..|log| - 1];
      var last := log[|log| - 1];
      var kept := WithoutRetries(env, st, prefix);
      if IsRetry(Fold(env, st, prefix), last.command) then kept else kept + [last]
  }

  /** Dropping every retry from any log leaves the whole final state unchanged. */
  lemma {:induction false} RetriesDropOut(env: Env, st: PolicyState, log: seq<LogCommand>)
    ensures Fold(env, st, WithoutRetries(env, st, log)) == Fold(env, st, log)
  {
    if log != [] {
      var prefix := log[..|log| - 1];
      var last := log[|log| - 1];
      RetriesDropOut(env, st, prefix);
      var kept := WithoutRetries(env, st, prefix);
      assert (kept + [last])[..|kept|] == kept;
    }
  }

  // ---------------------------------------------------------------- every record comes from the log

  /** Entry `p` is the request that record `rec` under `id` remembers, and was answered as recorded. */
  ghost predicate OriginAt(env: Env, st: PolicyState, log: seq<LogCommand>, p: nat, id: string, rec: AdminRecord) {
    && p < |log|
    && log[p].index == rec.raftIndex
    && log[p].command.Admin?
    && log[p].command.requestId == id
    && log[p].command.requestHash == rec.requestHash
    && log[p].command.requestTs == rec.requestTs
    && ResultAt(env, st, log, p) == AdminResult(id, rec.policyEpoch, rec.raftIndex, false, rec.outcome)
  }

  lemma {:induction false} EvictSubmap(d: map<string, AdminRecord>, limit: nat)
    ensures forall k :: k in EvictTo(d, limit) ==> k in d && EvictTo(d, limit)[k] == d[k]
    decreases |d|
  {
    if |d| > limit {
      RemoveOneSmaller(d, Oldest(d));
      EvictSubmap(d - {Oldest(d)}, limit);
    }
  }

  lemma InnerLeavesTable(env: Env, st: PolicyState, cmd: Command)
    ensures Inner(env, st, cmd).0.dedup == st.dedup
  {}

  lemma StepRecords(env: Env, st: PolicyState, cmd: Command, index: u64, id: string)
    requires id in Apply(env, st, cmd, index).0.dedup
    ensures var rec := Apply(env, st, cmd, index).0.dedup[id];
            || (id in st.dedup && st.dedup[id] == rec)
            || (IsNew(st, cmd) && cmd.requestId == id && cmd.requestHash == rec.requestHash
                && cmd.requestTs == rec.requestTs && rec.raftIndex == index
                && Apply(env, st, cmd, index).1 == AdminResult(id, rec.policyEpoch, rec.raftIndex, false, rec.outcome))
  {
    InnerLeavesTable(env, st, Bare(cmd));
    hide Inner, EvictTo;
    if IsNew(st, cmd) {
      var (next, outcome) := Inner(env, st, cmd.command);
      var rec := AdminRecord(cmd.requestHash, outcome, next.policyEpoch, index, cmd.requestTs);
      EvictSubmap(Fresh(next.dedup[cmd.requestId := rec], cmd.requestTs), DEDUP_MAX_ENTRIES);
    }
  }

  lemma {:induction false} RecordOrigin(env: Env, st: PolicyState, log: seq<LogCommand>, id: string)
    requires id in Fold(env, st, log).dedup
    ensures var rec := Fold(env, st, log).dedup[id];
            || (id in st.dedup && st.dedup[id] == rec)
            || exists p: nat :: OriginAt(env, st, log, p, id, rec)
  {
    hide Apply;
    if log != [] {
      var prefix := log[..|log| - 1];
      var last := log[|log| - 1];
      var before := Fold(env, st, prefix);
      var rec := Fold(env, st, log).dedup[id];
      StepRecords(env, before, last.command, last.index, id);
      if id in before.dedup && before.dedup[id] == rec {
        RecordOrigin(env, st, prefix, id);
        if p: nat :| OriginAt(env, st, prefix, p, id, rec) {
          assert prefix[..p] == log[..p];
          assert OriginAt(env, st, log, p, id, rec);
        }
      } else {
        assert OriginAt(env, st, log, |log| - 1, id, rec);
      }
    }
  }

  /**
   Every answer marked duplicate repeats an earlier first answer to the same id and
   hash, or refuses because that id is taken by another hash. State is untouched.
   */
  lemma DuplicateRepeatsFirst(env: Env, st: PolicyState, log: seq<LogCommand>, j: nat)
    requires st.dedup == map[] && j < |log|
    requires ResultAt(env, st, log, j).AdminResult? && ResultAt(env, st, log, j).duplicate
    ensures Fold(env, st, log[..j + 1]) == Fold(env, st, log[..j])
    ensures exists p: nat, rec :: p < j && OriginAt(env, st, log, p, log[j].command.requestId, rec)
              && (if rec.requestHash == log[j].command.requestHash
                  then ResultAt(env, st, log, j) == ResultAt(env, st, log, p).(duplicate := true)
                  else ResultAt(env, st, log, j).outcome == Refused(CodeRequestIdConflict))
  {
    hide Inner, Fold;
    FoldStep(env, st, log, j);
    var before := Fold(env, st, log[..j]);
    var id := log[j].command.requestId;
    var rec := before.dedup[id];
    RecordOrigin(env, st, log[..j], id);
    var p: nat :| OriginAt(env, st, log[..j], p, id, rec);
    assert log[..j][..p] == log[..p];
    assert OriginAt(env, st, log, p, id, rec);
  }

  // ---------------------------------------------------------------- how long a record is kept

  /** The table never holds more than its limit. */
  lemma {:induction false} TableBounded(env: Env, st: PolicyState, log: seq<LogCommand>)
    requires |st.dedup| <= DEDUP_MAX_ENTRIES
    ensures |Fold(env, st, log).dedup| <= 10_000
  {
    if log != [] {
      var before := Fold(env, st, log[..|log| - 1]);
      TableBounded(env, st, log[..|log| - 1]);
      InnerLeavesTable(env, before, Bare(log[|log| - 1].command));
      hide Inner, EvictTo;
    }
  }

  /** The records that eviction would take after that of `k`. */
  function Newer(d: map<string, AdminRecord>, k: string): set<string>
    requires k in d
  {
    set x | x in d && x != k && Older((d[k].raftIndex, k), (d[x].raftIndex, x))
  }

  lemma {:induction false} SubsetSize<T>(a: set<T>, b: set<T>)
    requires a <= b
    ensures |a| <= |b|
  {
    if a != {} {
      var x :| x in a;
      SubsetSize(a - {x}, b - {x});
    }
  }

  /** Eviction keeps exactly the records with fewer than `limit` newer ones. */
  lemma {:induction false} EvictKeepsNewest(d: map<string, AdminRecord>, limit: nat, k: string)
    requires k in d
    ensures k in EvictTo(d, limit) <==> |Newer(d, k)| < limit
    ensures k in EvictTo(d, limit) ==> EvictTo(d, limit)[k] == d[k] && Newer(EvictTo(d, limit), k) <= Newer(d, k)
    decreases |d|
  {
    if |d| <= limit {
      SubsetSize(Newer(d, k), d.Keys - {k});
    } else {
      var o := Oldest(d);
      var e := d - {o};
      RemoveOneSmaller(d, o);
      if o == k {
        assert Newer(d, k) == d.Keys - {k};
        EvictSubmap(e, limit);
      } else {
        OldestIsNotNewer(d, k);
        EvictKeepsNewest(e, limit, k);
      }
    }
  }

  lemma OldestIsNotNewer(d: map<string, AdminRecord>, k: string)
    requires k in d && Oldest(d) != k
    ensures Newer(d - {Oldest(d)}, k) == Newer(d, k)
  {
    var o := Oldest(d);
    OlderStrictTotal();
    assert Older((d[o].raftIndex, o), (d[k].raftIndex, k));
    assert o !in Newer(d, k);
  }

  /**
   After pruning at time `now` the table holds exactly the unexpired records with fewer than 10,000 newer
   unexpired ones.
   */
  lemma PruneExact(d: map<string, AdminRecord>, now: u64, k: string)
    requires k in d
    ensures k in Prune(d, now) <==>
              k in Fresh(d, now) && |Newer(Fresh(d, now), k)| < 10_000
    ensures k in Fresh(d, now) <==> now <= d[k].requestTs + 86_400
    ensures k in Prune(d, now) ==> Prune(d, now)[k] == d[k]
  {
    hide EvictTo;
    if k in Fresh(d, now) {
      EvictKeepsNewest(Fresh(d, now), DEDUP_MAX_ENTRIES, k);
    }
    EvictSubmap(Fresh(d, now), DEDUP_MAX_ENTRIES);
  }

  lemma PruneKeeps(d: map<string, AdminRecord>, now: u64, k: string)
    requires k in d && |Newer(d, k)| < DEDUP_MAX_ENTRIES && now <= d[k].requestTs + DEDUP_TTL_SECS
    ensures k in Prune(d, now) && Prune(d, now)[k] == d[k]
    ensures |Newer(Prune(d, now), k)| <= |Newer(d, k)|
  {
    var f := Fresh(d, now);
    assert Newer(f, k) <= Newer(d, k);
    SubsetSize(Newer(f, k), Newer(d, k));
    EvictKeepsNewest(f, DEDUP_MAX_ENTRIES, k);
    SubsetSize(Newer(Prune(d, now), k), Newer(d, k));
  }

  /** How many requests the log adds to the table. */
  function RecordedCount(env: Env, st: PolicyState, log: seq<LogCommand>): nat {
    if log == [] then 0 else
      var prefix := log[..|log| - 1];
      RecordedCount(env, st, prefix) + if IsNew(Fold(env, st, prefix), log[|log| - 1].command) then 1 else 0
  }

  /** Every request the log adds to the table is stamped no later than `deadline`. */
  ghost predicate OnTime(env: Env, st: PolicyState, log: seq<LogCommand>, deadline: nat) {
    forall p :: 0 <= p < |log| && IsNew(Fold(env, st, log[..p]), log[p].command) ==>
      log[p].command.requestTs <= deadline
  }

  lemma StepKeepsRecord(env: Env, st: PolicyState, cmd: Command, index: u64, k: string)
    requires k in st.dedup
    requires IsNew(st, cmd) ==> |Newer(st.dedup, k)| + 1 < DEDUP_MAX_ENTRIES
                                && cmd.requestTs <= st.dedup[k].requestTs + DEDUP_TTL_SECS
    ensures var next := Apply(env, st, cmd, index).0;
            && k in next.dedup && next.dedup[k] == st.dedup[k]
            && |Newer(next.dedup, k)| <= |Newer(st.dedup, k)| + if IsNew(st, cmd) then 1 else 0
  {
    InnerLeavesTable(env, st, Bare(cmd));
    hide Inner, EvictTo;
    if IsNew(st, cmd) {
      var (next, outcome) := Inner(env, st, cmd.command);
      var rec := AdminRecord(cmd.requestHash, outcome, next.policyEpoch, index, cmd.requestTs);
      var d := next.dedup[cmd.requestId := rec];
      assert Newer(d, k) <= Newer(st.dedup, k) + {cmd.requestId};
      SubsetSize(Newer(d, k), Newer(st.dedup, k) + {cmd.requestId});
      PruneKeeps(d, cmd.requestTs, k);
    }
  }

  lemma PrefixOnTime(env: Env, st: PolicyState, log: seq<LogCommand>, deadline: nat)
    requires log != [] && OnTime(env, st, log, deadline)
    ensures OnTime(env, st, log[..|log| - 1], deadline)
  {
    var prefix := log[..|log| - 1];
    forall p | 0 <= p < |prefix| && IsNew(Fold(env, st, prefix[..p]), prefix[p].command)
      ensures prefix[p].command.requestTs <= deadline
    {
      assert prefix[..p] == log[..p];
    }
  }

  /** A record outlives any run that adds too few requests to push it out and none too late for it. */
  lemma {:induction false} RecordSurvives(env: Env, st: PolicyState, log: seq<LogCommand>, k: string)
    requires k in st.dedup
    requires |Newer(st.dedup, k)| + RecordedCount(env, st, log) < DEDUP_MAX_ENTRIES
    requires OnTime(env, st, log, st.dedup[k].requestTs + DEDUP_TTL_SECS)
    ensures k in Fold(env, st, log).dedup && Fold(env, st, log).dedup[k] == st.dedup[k]
    ensures |Newer(Fold(env, st, log).dedup, k)| <= |Newer(st.dedup, k)| + RecordedCount(env, st, log)
  {
    if log != [] {
      PrefixOnTime(env, st, log, st.dedup[k].requestTs + DEDUP_TTL_SECS);
      RecordSurvives(env, st, log[..|log| - 1], k);
      StepKeepsRecord(env, Fold(env, st, log[..|log| - 1]), log[|log| - 1].command, log[|log| - 1].index, k);
    }
  }

  ghost predicate Increasing(log: seq<LogCommand>) {
    forall i, j :: 0 <= i < j < |log| ==> log[i].index < log[j].index
  }

  /** With increasing log indexes a new record is the newest of the table. */
  lemma NewRecordIsNewest(env: Env, st: PolicyState, log: seq<LogCommand>, i: nat)
    requires st.dedup == map[] && Increasing(log) && i < |log|
    requires IsNew(Fold(env, st, log[..i]), log[i].command)
    ensures var c := log[i].command;
            var next := Fold(env, st, log[..i + 1]);
            && c.requestId in next.dedup
            && OriginAt(env, st, log, i, c.requestId, next.dedup[c.requestId])
            && Newer(next.dedup, c.requestId) == {}
  {
    hide Inner, EvictTo, Fold;
    var c := log[i].command;
    InnerLeavesTable(env, Fold(env, st, log[..i]), c.command);
    var before := Fold(env, st, log[..i]);
    FoldStep(env, st, log, i);
    var (next, outcome) := Inner(env, before, c.command);
    var rec := AdminRecord(c.requestHash, outcome, next.policyEpoch, log[i].index, c.requestTs);
    var d := next.dedup[c.requestId := rec];
    forall x | x in before.dedup ensures before.dedup[x].raftIndex < log[i].index {
      RecordOrigin(env, st, log[..i], x);
      var p: nat :| OriginAt(env, st, log[..i], p, x, before.dedup[x]);
    }
    assert Newer(d, c.requestId) == {};
    PruneKeeps(d, c.requestTs, c.requestId);
  }

  /**
   Exactly once: a request first applied at `i` and sent again at `j`, with fewer than 10,000
   requests recorded in between and none stamped more than 24 hours after it, is not
   applied again; the same hash gets the first answer, another hash a conflict.
   */
  lemma ExactlyOnce(env: Env, st: PolicyState, log: seq<LogCommand>, i: nat, j: nat)
    requires st.dedup == map[] && Increasing(log) && i < j < |log|
    requires log[i].command.Admin? && log[j].command.Admin?
    requires log[i].command.requestId == log[j].command.requestId
    requires IsNew(Fold(env, st, log[..i]), log[i].command)
    requires RecordedCount(env, Fold(env, st, log[..i + 1]), log[i + 1..j]) < DEDUP_MAX_ENTRIES
    requires OnTime(env, Fold(env, st, log[..i + 1]), log[i + 1..j], log[i].command.requestTs + DEDUP_TTL_SECS)
    ensures Fold(env, st, log[..j + 1]) == Fold(env, st, log[..j])
    ensures ResultAt(env, st, log, i).AdminResult? && !ResultAt(env, st, log, i).duplicate
    ensures log[i].command.requestHash == log[j].command.requestHash ==>
              ResultAt(env, st, log, j) == ResultAt(env, st, log, i).(duplicate := true)
    ensures log[i].command.requestHash != log[j].command.requestHash ==>
              ResultAt(env, st, log, j) ==
              AdminResult(log[j].command.requestId, Fold(env, st, log[..j]).policyEpoch, log[j].index, true,
                          Refused(CodeRequestIdConflict))
  {
    var id := log[i].command.requestId;
    var mid := Fold(env, st, log[..i + 1]);
    NewRecordIsNewest(env, st, log, i);
    RecordSurvives(env, mid, log[i + 1..j], id);
    FoldSplit(env, st, log[..j], i + 1);
    assert log[..j][..i + 1] == log[..i + 1];
    assert log[..j][i + 1..] == log[i + 1..j];
    FoldStep(env, st, log, j);
  }
}
