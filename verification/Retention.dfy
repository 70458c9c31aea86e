/** When exactly the idempotency table of src/raft/state_machine.rs forgets a request, and what happens then. */
module Retention {
  import opened Common
  import opened PolicyModel
  import opened Idempotency

  /** No request of the log carries the id. */
  predicate NotSent(log: seq<LogCommand>, id: string) {
    forall p :: 0 <= p < |log| && log[p].command.Admin? ==> log[p].command.requestId != id
  }

  /** The log continues after all records of the table. */
  ghost predicate Continues(d: map<string, AdminRecord>, log: seq<LogCommand>) {
    Increasing(log) && forall x, p :: x in d && 0 <= p < |log| ==> d[x].raftIndex < log[p].index
  }

  /** The requests that stand in the way of `k`: newer ids and their time stamps. */
  type Crowd = map<string, u64>

  function CrowdOf(d: map<string, AdminRecord>, k: string): Crowd
    requires k in d
  {
    map x | x in Newer(d, k) :: d[x].requestTs
  }

  /** A new request drives away those stamped more than 24 hours before it and joins the rest. */
  function Joined(crowd: Crowd, id: string, ts: u64): Crowd {
    (map x | x in crowd && ts <= crowd[x] + DEDUP_TTL_SECS :: crowd[x])[id := ts]
  }

  /** The crowd after a log, by time stamps alone. */
  function CrowdAfter(env: Env, st: PolicyState, log: seq<LogCommand>, k: string): Crowd
    requires k in st.dedup
  {
    if log == [] then CrowdOf(st.dedup, k) else
      var prefix := log[..|log| - 1];
      var last := log[|log| - 1].command;
      var crowd := CrowdAfter(env, st, prefix, k);
      if IsNew(Fold(env, st, prefix), last) then Joined(crowd, last.requestId, last.requestTs) else crowd
  }

  /** At no moment of the run were there 10,000 in the way. */
  ghost predicate NeverCrowded(env: Env, st: PolicyState, log: seq<LogCommand>, k: string)
    requires k in st.dedup
  {
    forall p :: 0 <= p <= |log| ==> |CrowdAfter(env, st, log[..p], k)| < DEDUP_MAX_ENTRIES
  }

  ghost predicate InBounds(env: Env, st: PolicyState, log: seq<LogCommand>, k: string)
    requires k in st.dedup
  {
    OnTime(env, st, log, st.dedup[k].requestTs + DEDUP_TTL_SECS) && NeverCrowded(env, st, log, k)
  }

  // ---------------------------------------------------------------- one new record

  lemma NewerShrinks(d: map<string, AdminRecord>, k: string, x: string)
    requires k in d && x in Newer(d, k)
    ensures |Newer(d, x)| < |Newer(d, k)|
  {
    OlderStrictTotal();
    assert Newer(d, x) <= Newer(d, k) - {x};
    SubsetSize(Newer(d, x), Newer(d, k) - {x});
  }

  /** Where `k` survives pruning, all fresh records newer than it do. */
  lemma PruneKeepsNewer(d: map<string, AdminRecord>, now: u64, k: string)
    requires k in Prune(d, now) && k in d && k in Fresh(d, now)
    ensures Prune(d, now)[k] == d[k] && CrowdOf(Prune(d, now), k) == CrowdOf(Fresh(d, now), k)
  {
    hide EvictTo;
    var f := Fresh(d, now);
    PruneExact(d, now, k);
    EvictSubmap(f, DEDUP_MAX_ENTRIES);
    forall x ensures x in Newer(Prune(d, now), k) <==> x in Newer(f, k) {
      if x in Newer(f, k) {
        NewerShrinks(f, k, x);
        PruneExact(d, now, x);
      }
    }
  }

  /** One recorded request: `k` stays exactly when the request is in time and leaves fewer than 10,000 in its way. */
  lemma StepRetains(env: Env, st: PolicyState, cmd: Command, index: u64, k: string)
    requires k in st.dedup && IsNew(st, cmd) && forall x :: x in st.dedup ==> st.dedup[x].raftIndex < index
    ensures var next := Apply(env, st, cmd, index).0;
            var crowd := Joined(CrowdOf(st.dedup, k), cmd.requestId, cmd.requestTs);
            && (k in next.dedup <==>
                  cmd.requestTs <= st.dedup[k].requestTs + DEDUP_TTL_SECS && |crowd| < DEDUP_MAX_ENTRIES)
            && (k in next.dedup ==> next.dedup[k] == st.dedup[k] && CrowdOf(next.dedup, k) == crowd)
  {
    InnerLeavesTable(env, st, Bare(cmd));
    hide Inner, Prune;
    var (next, outcome) := Inner(env, st, cmd.command);
    var rec := AdminRecord(cmd.requestHash, outcome, next.policyEpoch, index, cmd.requestTs);
    var d := next.dedup[cmd.requestId := rec];
    PruneExact(d, cmd.requestTs, k);
    if k in Fresh(d, cmd.requestTs) {
      assert CrowdOf(Fresh(d, cmd.requestTs), k) == Joined(CrowdOf(st.dedup, k), cmd.requestId, cmd.requestTs);
      assert CrowdOf(Fresh(d, cmd.requestTs), k).Keys == Newer(Fresh(d, cmd.requestTs), k);
      if k in Prune(d, cmd.requestTs) {
        PruneKeepsNewer(d, cmd.requestTs, k);
      }
    }
  }

  lemma StepIgnores(env: Env, st: PolicyState, cmd: Command, index: u64)
    requires !IsNew(st, cmd)
    ensures Apply(env, st, cmd, index).0.dedup == st.dedup
  {
    InnerLeavesTable(env, st, Bare(cmd));
    hide Inner, Prune;
  }

  // ---------------------------------------------------------------- a run

  lemma {:induction false} StaysGone(env: Env, st: PolicyState, log: seq<LogCommand>, k: string)
    requires k !in st.dedup && NotSent(log, k)
    ensures k !in Fold(env, st, log).dedup
  {
    hide Apply;
    if k in Fold(env, st, log).dedup {
      RecordOrigin(env, st, log, k);
    }
  }

  /** All records of the table precede the last entry. */
  lemma TableBefore(env: Env, st: PolicyState, log: seq<LogCommand>)
    requires log != [] && Continues(st.dedup, log)
    ensures var before := Fold(env, st, log[..|log| - 1]);
            forall x :: x in before.dedup ==> before.dedup[x].raftIndex < log[|log| - 1].index
  {
    hide Apply, Fold;
    var prefix := log[..|log| - 1];
    var before := Fold(env, st, prefix);
    forall x | x in before.dedup ensures before.dedup[x].raftIndex < log[|log| - 1].index {
      RecordOrigin(env, st, prefix, x);
      if !(x in st.dedup && st.dedup[x] == before.dedup[x]) {
        var p: nat :| OriginAt(env, st, prefix, p, x, before.dedup[x]);
      }
    }
  }

  lemma PrefixBounds(env: Env, st: PolicyState, log: seq<LogCommand>, k: string)
    requires log != [] && k in st.dedup
    ensures var prefix := log[..|log| - 1];
            var last := log[|log| - 1].command;
            InBounds(env, st, log, k) <==>
              && InBounds(env, st, prefix, k)
              && |CrowdAfter(env, st, log, k)| < DEDUP_MAX_ENTRIES
              && (IsNew(Fold(env, st, prefix), last) ==> last.requestTs <= st.dedup[k].requestTs + DEDUP_TTL_SECS)
  {
    hide Fold, CrowdAfter;
    var prefix := log[..|log| - 1];
    assert log[..|log|] == log;
    assert forall p :: 0 <= p <= |prefix| ==> prefix[..p] == log[..p];
    assert forall p :: 0 <= p < |prefix| ==> prefix[p] == log[p];
    var deadline := st.dedup[k].requestTs + DEDUP_TTL_SECS;
    if OnTime(env, st, log, deadline) {
      PrefixOnTime(env, st, log, deadline);
    }
    if InBounds(env, st, log, k) {
      assert forall p :: 0 <= p <= |prefix| ==>
        |CrowdAfter(env, st, prefix[..p], k)| == |CrowdAfter(env, st, log[..p], k)|;
    }
    if InBounds(env, st, prefix, k) {
      forall p | 0 <= p < |log| ensures |CrowdAfter(env, st, log[..p], k)| < DEDUP_MAX_ENTRIES {
        assert prefix[..p] == log[..p];
      }
    }
  }

  /**
   Over any run that does not send the id again, a record is kept exactly when no request came more than 24 hours
   after it and at no moment 10,000 newer requests, none of them expired, stood in its way.
   */
  lemma {:induction false} RetainedIff(env: Env, st: PolicyState, log: seq<LogCommand>, k: string)
    requires k in st.dedup && |CrowdOf(st.dedup, k)| < DEDUP_MAX_ENTRIES
    requires NotSent(log, k) && Continues(st.dedup, log)
    ensures k in Fold(env, st, log).dedup <==> InBounds(env, st, log, k)
    ensures k in Fold(env, st, log).dedup ==>
              && Fold(env, st, log).dedup[k] == st.dedup[k]
              && CrowdOf(Fold(env, st, log).dedup, k) == CrowdAfter(env, st, log, k)
  {
    hide Apply, CrowdOf, Joined, IsNew, InBounds;
    if log == [] {
      EmptyInBounds(env, st, k);
    } else {
      var prefix := log[..|log| - 1];
      var last := log[|log| - 1];
      var before := Fold(env, st, prefix);
      PrefixBounds(env, st, log, k);
      RetainedIff(env, st, prefix, k);
      if !InBounds(env, st, prefix, k) {
        assert NotSent([last], k);
        FoldOne(env, before, last);
        StaysGone(env, before, [last], k);
      } else if IsNew(before, last.command) {
        TableBefore(env, st, log);
        StepRetains(env, before, last.command, last.index, k);
      } else {
        LastCrowd(env, st, prefix, k);
        StepIgnores(env, before, last.command, last.index);
      }
    }
  }

  lemma EmptyInBounds(env: Env, st: PolicyState, k: string)
    requires k in st.dedup && |CrowdOf(st.dedup, k)| < DEDUP_MAX_ENTRIES
    ensures InBounds(env, st, [], k)
  {
    var none: seq<LogCommand> := [];
    assert none[..0] == none;
  }

  lemma LastCrowd(env: Env, st: PolicyState, log: seq<LogCommand>, k: string)
    requires k in st.dedup && InBounds(env, st, log, k)
    ensures |CrowdAfter(env, st, log, k)| < DEDUP_MAX_ENTRIES
  {
    assert log[..|log|] == log;
  }

  lemma FoldOne(env: Env, st: PolicyState, entry: LogCommand)
    ensures Fold(env, st, [entry]) == Apply(env, st, entry.command, entry.index).0
  {
    assert [entry][..0] == [];
  }

  // ---------------------------------------------------------------- retries

  /** A request of the log is first applied at `i` and next sent at `j`. */
  ghost predicate NextSent(env: Env, st: PolicyState, log: seq<LogCommand>, i: nat, j: nat) {
    && i < j < |log| && log[i].command.Admin? && log[j].command.Admin?
    && log[i].command.requestId == log[j].command.requestId
    && IsNew(Fold(env, st, log[..i]), log[i].command)
    && NotSent(log[i + 1..j], log[i].command.requestId)
  }

  /**
   A request first applied at `i` and next sent at `j` is answered as a duplicate if and only if its record was kept
   in between; otherwise it is applied again as new.
   */
  lemma DuplicateIff(env: Env, st: PolicyState, log: seq<LogCommand>, i: nat, j: nat)
    requires st.dedup == map[] && Increasing(log) && NextSent(env, st, log, i, j)
    ensures var mid := Fold(env, st, log[..i + 1]);
            && log[i].command.requestId in mid.dedup
            && mid.dedup[log[i].command.requestId].requestTs == log[i].command.requestTs
            && ResultAt(env, st, log, j).AdminResult?
            && (ResultAt(env, st, log, j).duplicate <==> InBounds(env, mid, log[i + 1..j], log[i].command.requestId))
    ensures !ResultAt(env, st, log, j).duplicate ==>
              ResultAt(env, st, log, j).outcome == Inner(env, Fold(env, st, log[..j]), log[j].command.command).1
  {
    hide Apply, Fold, NotSent, Continues, InBounds, Inner;
    var id := log[i].command.requestId;
    var mid := Fold(env, st, log[..i + 1]);
    var between := log[i + 1..j];
    NewRecordIsNewest(env, st, log, i);
    assert CrowdOf(mid.dedup, id) == map[];
    ContinuesAfter(env, st, log, i, j);
    RetainedIff(env, mid, between, id);
    FoldSplit(env, st, log[..j], i + 1);
    assert log[..j][..i + 1] == log[..i + 1];
    assert log[..j][i + 1..] == between;
    AnsweredFromTable(env, st, log, j);
  }

  /** The requests the log adds are stamped no earlier than `ts`. */
  ghost predicate NoEarlier(env: Env, st: PolicyState, log: seq<LogCommand>, ts: nat) {
    forall p :: 0 <= p < |log| && IsNew(Fold(env, st, log[..p]), log[p].command) ==> ts <= log[p].command.requestTs
  }

  /**
   Where no request in between is stamped before the first one, the bounds of `ExactlyOnce` are exact: a duplicate
   if and only if none is stamped more than 24 hours after it and fewer than 10,000 were recorded.
   */
  lemma DuplicateInOrderIff(env: Env, st: PolicyState, log: seq<LogCommand>, i: nat, j: nat)
    requires st.dedup == map[] && Increasing(log) && NextSent(env, st, log, i, j)
    requires NoEarlier(env, Fold(env, st, log[..i + 1]), log[i + 1..j], log[i].command.requestTs)
    ensures ResultAt(env, st, log, j).AdminResult?
    ensures var mid := Fold(env, st, log[..i + 1]);
            ResultAt(env, st, log, j).duplicate <==>
              && OnTime(env, mid, log[i + 1..j], log[i].command.requestTs + DEDUP_TTL_SECS)
              && RecordedCount(env, mid, log[i + 1..j]) < DEDUP_MAX_ENTRIES
  {
    hide Apply, Fold, NotSent, Continues, OnTime, NoEarlier, RecordedCount, NeverCrowded;
    var id := log[i].command.requestId;
    var mid := Fold(env, st, log[..i + 1]);
    var between := log[i + 1..j];
    DuplicateIff(env, st, log, i, j);
    NewRecordIsNewest(env, st, log, i);
    assert CrowdOf(mid.dedup, id) == map[];
    ContinuesAfter(env, st, log, i, j);
    if InBounds(env, mid, between, id) {
      KeptCountsAll(env, mid, between, id);
      LastCrowd(env, mid, between, id);
    } else if OnTime(env, mid, between, log[i].command.requestTs + DEDUP_TTL_SECS) {
      if RecordedCount(env, mid, between) < DEDUP_MAX_ENTRIES {
        RecordSurvives(env, mid, between, id);
        RetainedIff(env, mid, between, id);
      }
    }
  }

  /** With stamps in one day and the record kept, everyone recorded since is still in its way. */
  lemma {:induction false} KeptCountsAll(env: Env, st: PolicyState, log: seq<LogCommand>, k: string)
    requires k in st.dedup && CrowdOf(st.dedup, k) == map[] && NotSent(log, k) && Continues(st.dedup, log)
    requires NoEarlier(env, st, log, st.dedup[k].requestTs) && InBounds(env, st, log, k)
    ensures |CrowdAfter(env, st, log, k)| == RecordedCount(env, st, log)
    ensures forall x :: x in CrowdAfter(env, st, log, k) ==> st.dedup[k].requestTs <= CrowdAfter(env, st, log, k)[x]
  {
    hide Apply, Fold, InBounds, NeverCrowded;
    if log != [] {
      var n := |log| - 1;
      var prefix := log[..n];
      var last := log[n].command;
      PrefixBounds(env, st, log, k);
      PrefixNoEarlier(env, st, log, st.dedup[k].requestTs);
      KeptCountsAll(env, st, prefix, k);
      RetainedIff(env, st, prefix, k);
      var crowd := CrowdAfter(env, st, prefix, k);
      if IsNew(Fold(env, st, prefix), last) {
        assert last.requestId !in crowd;
        JoinedAll(crowd, last.requestId, last.requestTs, st.dedup[k].requestTs);
      }
    }
  }

  lemma PrefixNoEarlier(env: Env, st: PolicyState, log: seq<LogCommand>, ts: nat)
    requires log != [] && NoEarlier(env, st, log, ts)
    ensures NoEarlier(env, st, log[..|log| - 1], ts)
  {
    hide Fold;
    var prefix := log[..|log| - 1];
    assert forall p :: 0 <= p < |prefix| ==> prefix[..p] == log[..p];
  }

  lemma JoinedAll(crowd: Crowd, id: string, ts: u64, lo: u64)
    requires id !in crowd && lo <= ts <= lo + DEDUP_TTL_SECS && forall x :: x in crowd ==> lo <= crowd[x]
    ensures |Joined(crowd, id, ts)| == |crowd| + 1
    ensures forall x :: x in Joined(crowd, id, ts) ==> lo <= Joined(crowd, id, ts)[x]
  {
    assert Joined(crowd, id, ts).Keys == crowd.Keys + {id};
  }

  lemma ContinuesAfter(env: Env, st: PolicyState, log: seq<LogCommand>, i: nat, j: nat)
    requires st.dedup == map[] && Increasing(log) && i < j < |log|
    ensures Continues(Fold(env, st, log[..i + 1]).dedup, log[i + 1..j])
  {
    hide Fold, Apply;
    var mid := Fold(env, st, log[..i + 1]);
    forall x | x in mid.dedup ensures mid.dedup[x].raftIndex <= log[i].index {
      RecordOrigin(env, st, log[..i + 1], x);
      var p: nat :| OriginAt(env, st, log[..i + 1], p, x, mid.dedup[x]);
      assert log[..i + 1][p] == log[p];
    }
  }

  lemma AnsweredFromTable(env: Env, st: PolicyState, log: seq<LogCommand>, j: nat)
    requires j < |log| && log[j].command.Admin?
    ensures ResultAt(env, st, log, j).AdminResult?
    ensures ResultAt(env, st, log, j).duplicate <==> log[j].command.requestId in Fold(env, st, log[..j]).dedup
    ensures !ResultAt(env, st, log, j).duplicate ==>
              ResultAt(env, st, log, j).outcome == Inner(env, Fold(env, st, log[..j]), log[j].command.command).1
  {
    hide Inner, Prune, Fold;
  }

  // ---------------------------------------------------------------- an input beyond the bounds

  function Renewal(index: u64, id: string, ts: u64, expiresAt: u64): LogCommand {
    LogCommand(index, Admin(id, "kid", "hash", ts, RenewIndex(expiresAt)))
  }

  lemma RenewalApplied(env: Env, st: PolicyState, r: LogCommand)
    requires r.command.Admin? && r.command.command.RenewIndex? && IsNew(st, r.command)
    ensures var (next, answer) := Apply(env, st, r.command, r.index);
            && next.indexExpiresAt == r.command.command.expiresAt
            && answer.AdminResult? && !answer.duplicate
            && forall x :: x in next.dedup && x != r.command.requestId ==> x in st.dedup
  {
    hide Prune;
    var next := Apply(env, st, r.command, r.index).0;
    forall x | x in next.dedup ensures x in st.dedup || x == r.command.requestId {
      StepRecords(env, st, r.command, r.index, x);
    }
  }

  /** A request sent again after another one stamped a second more than a day later is applied twice. */
  lemma AppliedTwice(env: Env, st: PolicyState)
    requires st.dedup == map[]
    ensures var (first, other, again) := (Renewal(1, "a", 0, 10), Renewal(2, "b", 86_401, 20), Renewal(3, "a", 0, 10));
            && !ResultAt(env, st, [first, other, again], 0).duplicate
            && ResultAt(env, st, [first, other, again], 2).AdminResult?
            && !ResultAt(env, st, [first, other, again], 2).duplicate
            && Fold(env, st, [first, other]).indexExpiresAt == 20
            && Fold(env, st, [first, other, again]).indexExpiresAt == 10
  {
    hide Apply;
    var log := [Renewal(1, "a", 0, 10), Renewal(2, "b", 86_401, 20), Renewal(3, "a", 0, 10)];
    assert log[..0] == [] && log[..1] == [log[0]] && log[..2] == [log[0], log[1]] && log[..3] == log;
    FoldStep(env, st, log, 0);
    FoldStep(env, st, log, 1);
    FoldStep(env, st, log, 2);
    NewRecordIsNewest(env, st, log, 0);
    var mid := Fold(env, st, log[..1]);
    RenewalApplied(env, st, log[0]);
    RenewalApplied(env, mid, log[1]);
    StepRetains(env, mid, log[1].command, 2, "a");
    RenewalApplied(env, Fold(env, st, log[..2]), log[2]);
  }
}
