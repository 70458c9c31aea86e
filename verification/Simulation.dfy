/**
 The Raft state machine and the single-writer store answer alike: the same
 results, the same error codes, the same snapshot.
 */
module Simulation {
  import opened Common
  import opened StoreModel
  import opened PolicyModel
  import opened Store

  datatype Write = Edit(op: Op) | Renewal(expiresAt: u64)

  /** The store with every write to its file succeeding. */
  function StoreStep(env: Env, s: Snapshot, w: Write): (Snapshot, Result<u64, StoreError>) {
    match w
    case Edit(op) => (Perform(env, s, op), EditResult(env, s, op))
    case Renewal(_) =>
      var t := s.(indexVersion := WrapInc(s.indexVersion));
      (t, Ok(t.indexVersion))
  }

  function PolicyStep(env: Env, st: PolicyState, w: Write): (PolicyState, Outcome) {
    Inner(env, st, match w case Edit(op) => Service(op) case Renewal(at) => RenewIndex(at))
  }

  ghost predicate SameAnswer(w: Write, r: Result<u64, StoreError>, st: PolicyState, outcome: Outcome) {
    match r
    case Err(e) => outcome == Refused(CodeOf(e))
    case Ok(v) =>
      && outcome.Accepted?
      && (if w.Edit? then outcome.service == Some(w.op.service) && outcome.version == Some(v)
          else v == st.policyEpoch)
  }

  /** The write moves a counter that already stands at u64::MAX. */
  predicate Overflows(env: Env, s: Snapshot, w: Write) {
    match w
    case Renewal(_) => s.indexVersion == U64_MAX
    case Edit(op) =>
      && Refusal(env, s, op).None?
      && Perform(env, s, op) != s
      && (s.indexVersion == U64_MAX || (!op.CreateService? && s.services[op.service].version == U64_MAX))
  }

  /** From matching states one write keeps them matching, with the same answer, exactly when no counter overflows. */
  lemma StepSimulates(env: Env, s: Snapshot, st: PolicyState, w: Write)
    requires st.ToStoreSnapshot() == s
    ensures var (t, r) := StoreStep(env, s, w);
            var (next, outcome) := PolicyStep(env, st, w);
            && (!Overflows(env, s, w) <==> next.ToStoreSnapshot() == t)
            && (!Overflows(env, s, w) ==> SameAnswer(w, r, next, outcome))
  {
    if w.Edit? && Refusal(env, s, w.op).None? {
      var op := w.op;
      var t := Perform(env, s, op);
      var next := PolicyStep(env, st, w).0;
      if op.CreateService? {
        assert {} + ToSet(op.peers) == ToSet(op.peers);
        assert t.services == next.services;
      } else if op.DeleteService? {
        assert t.tombstones[op.service] == WrapInc(s.services[op.service].version);
        assert next.tombstones[op.service] == SatInc(s.services[op.service].version);
      } else if Edited(op, s.services[op.service].members) != s.services[op.service].members {
        assert t.services[op.service].version == WrapInc(s.services[op.service].version);
        assert next.services[op.service].version == SatInc(s.services[op.service].version);
        assert t.services[op.service].members != s.services[op.service].members;
      }
    }
  }

  function StoreRun(env: Env, s: Snapshot, ws: seq<Write>): Snapshot {
    if ws == [] then s else StoreStep(env, StoreRun(env, s, ws[..|ws| - 1]), ws[|ws| - 1]).0
  }

  function PolicyRun(env: Env, st: PolicyState, ws: seq<Write>): PolicyState {
    if ws == [] then st else PolicyStep(env, PolicyRun(env, st, ws[..|ws| - 1]), ws[|ws| - 1]).0
  }

  ghost predicate NeverOverflows(env: Env, s: Snapshot, ws: seq<Write>) {
    forall i :: 0 <= i < |ws| ==> !Overflows(env, StoreRun(env, s, ws[..i]), ws[i])
  }

  /** The store at `s` and the state machine at `st` give write `w` the same answer. */
  ghost predicate Agree(env: Env, s: Snapshot, st: PolicyState, w: Write) {
    SameAnswer(w, StoreStep(env, s, w).1, PolicyStep(env, st, w).0, PolicyStep(env, st, w).1)
  }

  /** Any sequence of writes keeps the two snapshots equal and gets the same answers, write by write. */
  lemma {:induction false} RunSimulates(env: Env, s: Snapshot, st: PolicyState, ws: seq<Write>)
    requires st.ToStoreSnapshot() == s && NeverOverflows(env, s, ws)
    ensures PolicyRun(env, st, ws).ToStoreSnapshot() == StoreRun(env, s, ws)
    ensures forall i :: 0 <= i < |ws| ==> Agree(env, StoreRun(env, s, ws[..i]), PolicyRun(env, st, ws[..i]), ws[i])
  {
    hide StoreStep, PolicyStep, Agree, NeverOverflows, Overflows;
    if ws != [] {
      var k := |ws| - 1;
      PrefixNeverOverflows(env, s, ws);
      RunSimulates(env, s, st, ws[..k]);
      LastStep(env, s, st, ws);
      forall i | 0 <= i < |ws| ensures Agree(env, StoreRun(env, s, ws[..i]), PolicyRun(env, st, ws[..i]), ws[i]) {
        if i < k { assert ws[..k][..i] == ws[..i] && ws[..k][i] == ws[i]; }
      }
    }
  }

  lemma PrefixNeverOverflows(env: Env, s: Snapshot, ws: seq<Write>)
    requires ws != [] && NeverOverflows(env, s, ws)
    ensures NeverOverflows(env, s, ws[..|ws| - 1])
    ensures !Overflows(env, StoreRun(env, s, ws[..|ws| - 1]), ws[|ws| - 1])
  {
    var prefix := ws[..|ws| - 1];
    forall i | 0 <= i < |prefix| ensures !Overflows(env, StoreRun(env, s, prefix[..i]), prefix[i]) {
      assert prefix[..i] == ws[..i];
    }
  }

  lemma LastStep(env: Env, s: Snapshot, st: PolicyState, ws: seq<Write>)
    requires ws != []
    requires PolicyRun(env, st, ws[..|ws| - 1]).ToStoreSnapshot() == StoreRun(env, s, ws[..|ws| - 1])
    requires !Overflows(env, StoreRun(env, s, ws[..|ws| - 1]), ws[|ws| - 1])
    ensures PolicyRun(env, st, ws).ToStoreSnapshot() == StoreRun(env, s, ws)
    ensures Agree(env, StoreRun(env, s, ws[..|ws| - 1]), PolicyRun(env, st, ws[..|ws| - 1]), ws[|ws| - 1])
  {
    StepSimulates(env, StoreRun(env, s, ws[..|ws| - 1]), PolicyRun(env, st, ws[..|ws| - 1]), ws[|ws| - 1]);
  }
}
