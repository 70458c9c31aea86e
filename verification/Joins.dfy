/**
 Joins handled concurrently on any leaders (src/service.rs, `handle_leader_join`): each
 request checks a possibly stale state, proposes a consumption of its token, and only
 when that was applied asks for its node to be added as a learner.
 */
module Joins {
  import opened Common
  import opened PolicyModel
  import opened JoinTokens

  datatype JoinRequest = JoinRequest(nodeId: u64, peerId: string, token: JoinToken)

  /** Where a handler stands; positions are places of the committed log. */
  datatype Phase =
    | Checking
    | Ready
    | Waiting(position: nat)
    | Granted(position: nat)
    | Asked(position: nat)
    | Over(position: nat)
    | Ended

  datatype Proc = Proc(req: JoinRequest, phase: Phase)

  /** The committed log of policy commands, every handler ever started, and those whose node was added as a learner. */
  datatype System = System(log: seq<LogCommand>, procs: seq<Proc>, added: set<nat>)

  datatype Step =
    | Begin(req: JoinRequest)
    | Check(j: nat, applied: nat, memberSeen: bool)
    | Propose(j: nat, index: u64, usedAt: u64)
    | Answer(j: nat)
    | AskLearner(j: nat)
    | LearnerAdded(j: nat)
    | Finish(j: nat)
    | Other(entry: LogCommand)

  /** The checks made on the state a leader has applied when it looks. */
  predicate ChecksPass(st: PolicyState, req: JoinRequest, memberSeen: bool) {
    && !memberSeen
    && req.token.jti in st.joinTokens
    && st.joinTokens[req.token.jti].token == req.token
    && st.joinTokens[req.token.jti].uses < req.token.maxUses
  }

  /**
   Once a handler has asked for its node, the change takes effect at most once: before the handler has its answer,
   after it was told of a failure, after it gave up, or never.
   */
  predicate Enabled(s: System, step: Step) {
    match step
    case Begin(_) => true
    case Other(_) => true
    case Check(j, applied, _) => j < |s.procs| && s.procs[j].phase.Checking? && applied <= |s.log|
    case Propose(j, _, _) => j < |s.procs| && s.procs[j].phase.Ready?
    case Answer(j) => j < |s.procs| && s.procs[j].phase.Waiting? && s.procs[j].phase.position < |s.log|
    case AskLearner(j) => j < |s.procs| && s.procs[j].phase.Granted?
    case LearnerAdded(j) => j < |s.procs| && Asking(s.procs[j].phase) && j !in s.added
    case Finish(j) => j < |s.procs|
  }

  predicate Asking(phase: Phase) {
    phase.Asked? || phase.Over?
  }

  function At(s: System, j: nat, phase: Phase): System
    requires j < |s.procs|
  {
    s.(procs := s.procs[j := s.procs[j].(phase := phase)])
  }

  function Take(env: Env, st: PolicyState, s: System, step: Step): System
    requires Enabled(s, step)
  {
    match step
    case Begin(req) => s.(procs := s.procs + [Proc(req, Checking)])
    case Other(entry) => s.(log := s.log + [entry])
    case Check(j, applied, memberSeen) =>
      At(s, j, if ChecksPass(Fold(env, st, s.log[..applied]), s.procs[j].req, memberSeen) then Ready else Ended)
    case Propose(j, index, usedAt) =>
      var req := s.procs[j].req;
      At(s, j, Waiting(|s.log|))
        .(log := s.log + [LogCommand(index, ConsumeJoinToken(req.token.jti, req.nodeId, req.peerId, usedAt))])
    case Answer(j) =>
      var p := s.procs[j].phase.position;
      At(s, j, if ResultAt(env, st, s.log, p).Applied? then Granted(p) else Ended)
    case AskLearner(j) => At(s, j, Asked(s.procs[j].phase.position))
    case LearnerAdded(j) => s.(added := s.added + {j})
    case Finish(j) => At(s, j, if Asking(s.procs[j].phase) then Over(s.procs[j].phase.position) else Ended)
  }

  predicate Legal(env: Env, st: PolicyState, s: System, steps: seq<Step>)
    decreases |steps|, 0
  {
    steps != [] ==>
      && Legal(env, st, s, steps[..|steps| - 1])
      && Enabled(Run(env, st, s, steps[..|steps| - 1]), steps[|steps| - 1])
  }

  function Run(env: Env, st: PolicyState, s: System, steps: seq<Step>): System
    requires Legal(env, st, s, steps)
    decreases |steps|, 1
  {
    if steps == [] then s else Take(env, st, Run(env, st, s, steps[..|steps| - 1]), steps[|steps| - 1])
  }

  // ---------------------------------------------------------------- invariant

  predicate HasPosition(phase: Phase) {
    phase.Waiting? || phase.Granted? || Asking(phase)
  }

  /** The recorded token is the one presented. */
  ghost predicate TokenMatches(st: PolicyState, req: JoinRequest) {
    req.token.jti in st.joinTokens && st.joinTokens[req.token.jti].token == req.token
  }

  /** The log holds the handler's own consumption at its position. */
  ghost predicate OwnConsumption(log: seq<LogCommand>, proc: Proc)
    requires HasPosition(proc.phase)
  {
    && proc.phase.position < |log|
    && var c := log[proc.phase.position].command;
       && c.ConsumeJoinToken?
       && c.jti == proc.req.token.jti && c.nodeId == proc.req.nodeId && c.peerId == proc.req.peerId
  }

  ghost predicate ProcOk(env: Env, st: PolicyState, log: seq<LogCommand>, proc: Proc) {
    && (proc.phase.Ready? || HasPosition(proc.phase) ==> TokenMatches(Fold(env, st, log), proc.req))
    && (HasPosition(proc.phase) ==> OwnConsumption(log, proc))
    && (proc.phase.Granted? || Asking(proc.phase) ==>
          proc.phase.position < |log| && Consumes(env, st, log, proc.phase.position, proc.req.token.jti))
  }

  /** No two handlers wait for the same entry. */
  ghost predicate OwnPositions(procs: seq<Proc>) {
    forall i, j :: 0 <= i < j < |procs| && HasPosition(procs[i].phase) && HasPosition(procs[j].phase) ==>
      procs[i].phase.position != procs[j].phase.position
  }

  ghost predicate SystemOk(env: Env, st: PolicyState, s: System) {
    && (forall j :: 0 <= j < |s.procs| ==> ProcOk(env, st, s.log, s.procs[j]))
    && OwnPositions(s.procs)
    && forall j :: j in s.added ==> j < |s.procs| && Asking(s.procs[j].phase)
  }

  lemma ProcOkGrows(env: Env, st: PolicyState, log: seq<LogCommand>, entry: LogCommand, proc: Proc)
    requires st.joinTokens == map[] && ProcOk(env, st, log, proc)
    ensures ProcOk(env, st, log + [entry], proc)
  {
    hide Fold, Apply;
    var more := log + [entry];
    assert more[..|log|] == log;
    if proc.phase.Ready? || HasPosition(proc.phase) {
      TokenTermsFixed(env, st, more, |log|, proc.req.token.jti);
    }
    if HasPosition(proc.phase) {
      assert more[..proc.phase.position] == log[..proc.phase.position];
    }
  }

  lemma CheckedTokenMatches(env: Env, st: PolicyState, log: seq<LogCommand>, applied: nat, req: JoinRequest)
    requires st.joinTokens == map[] && applied <= |log|
    requires ChecksPass(Fold(env, st, log[..applied]), req, false)
    ensures TokenMatches(Fold(env, st, log), req)
  {
    TokenTermsFixed(env, st, log, applied, req.token.jti);
  }

  lemma GrownOk(env: Env, st: PolicyState, s: System, entry: LogCommand)
    requires st.joinTokens == map[] && SystemOk(env, st, s)
    ensures SystemOk(env, st, s.(log := s.log + [entry]))
  {
    forall j | 0 <= j < |s.procs| ensures ProcOk(env, st, s.log + [entry], s.procs[j]) {
      ProcOkGrows(env, st, s.log, entry, s.procs[j]);
    }
  }

  lemma ProposeKeepsOk(env: Env, st: PolicyState, s: System, step: Step)
    requires st.joinTokens == map[] && SystemOk(env, st, s) && step.Propose? && Enabled(s, step)
    ensures SystemOk(env, st, Take(env, st, s, step))
  {
    hide Fold, Apply, Consumes, TokenMatches;
    var req := s.procs[step.j].req;
    var entry := LogCommand(step.index, ConsumeJoinToken(req.token.jti, req.nodeId, req.peerId, step.usedAt));
    GrownOk(env, st, s, entry);
    var next := Take(env, st, s, step);
    assert next.log[|s.log|] == entry;
    assert ProcOk(env, st, next.log, s.procs[step.j]);
    assert ProcOk(env, st, next.log, next.procs[step.j]);
    forall j | 0 <= j < |next.procs| ensures ProcOk(env, st, next.log, next.procs[j]) {
      if j != step.j { assert ProcOk(env, st, s.log + [entry], s.procs[j]); }
    }
    assert forall i :: 0 <= i < |s.procs| && HasPosition(s.procs[i].phase) ==> ProcOk(env, st, s.log, s.procs[i]);
  }

  /** An applied consumption counts. */
  lemma AnswerKeepsOk(env: Env, st: PolicyState, log: seq<LogCommand>, proc: Proc)
    requires ProcOk(env, st, log, proc) && proc.phase.Waiting?
    ensures ResultAt(env, st, log, proc.phase.position).Applied? ==>
              ProcOk(env, st, log, proc.(phase := Granted(proc.phase.position)))
    ensures ProcOk(env, st, log, proc.(phase := Ended))
  {
    hide Fold, Apply;
  }

  lemma CheckKeepsOk(env: Env, st: PolicyState, s: System, step: Step)
    requires st.joinTokens == map[] && SystemOk(env, st, s) && step.Check? && Enabled(s, step)
    ensures SystemOk(env, st, Take(env, st, s, step))
  {
    hide Fold, Apply, TokenMatches, Consumes, OwnConsumption;
    var req := s.procs[step.j].req;
    if ChecksPass(Fold(env, st, s.log[..step.applied]), req, step.memberSeen) {
      CheckedTokenMatches(env, st, s.log, step.applied, req);
    }
  }

  lemma FinishKeepsOk(env: Env, st: PolicyState, s: System, step: Step)
    requires SystemOk(env, st, s) && step.Finish? && Enabled(s, step)
    ensures SystemOk(env, st, Take(env, st, s, step))
  {
    hide Fold, Apply, TokenMatches, Consumes;
    assert ProcOk(env, st, s.log, s.procs[step.j]);
  }

  lemma StepKeepsOk(env: Env, st: PolicyState, s: System, step: Step)
    requires st.joinTokens == map[] && SystemOk(env, st, s) && Enabled(s, step)
    ensures SystemOk(env, st, Take(env, st, s, step))
  {
    hide Fold, Apply, TokenMatches, Bare, Carried;
    match step
    case Begin(_) =>
    case Other(entry) => GrownOk(env, st, s, entry);
    case Propose(_, _, _) => ProposeKeepsOk(env, st, s, step);
    case Check(_, _, _) => CheckKeepsOk(env, st, s, step);
    case Answer(j) => AnswerKeepsOk(env, st, s.log, s.procs[j]);
    case AskLearner(j) => assert ProcOk(env, st, s.log, s.procs[j]);
    case LearnerAdded(_) =>
    case Finish(_) => FinishKeepsOk(env, st, s, step);
  }

  lemma {:induction false} RunKeepsOk(env: Env, st: PolicyState, steps: seq<Step>)
    requires st.joinTokens == map[] && Legal(env, st, System([], [], {}), steps)
    ensures SystemOk(env, st, Run(env, st, System([], [], {}), steps))
  {
    if steps != [] {
      RunKeepsOk(env, st, steps[..|steps| - 1]);
      StepKeepsOk(env, st, Run(env, st, System([], [], {}), steps[..|steps| - 1]), steps[|steps| - 1]);
    }
  }

  // ---------------------------------------------------------------- counting

  lemma {:induction false} InjectionSize(a: set<nat>, f: map<nat, nat>, b: set<nat>)
    requires a <= f.Keys
    requires forall x :: x in a ==> f[x] in b
    requires forall x, y :: x in a && y in a && x != y ==> f[x] != f[y]
    ensures |a| <= |b|
  {
    if a != {} {
      var x :| x in a;
      InjectionSize(a - {x}, f, b - {f[x]});
    }
  }

  ghost function ConsumePositions(env: Env, st: PolicyState, log: seq<LogCommand>, jti: string): set<nat> {
    set p: nat | p < |log| && Consumes(env, st, log, p, jti)
  }

  lemma {:induction false} PositionsCounted(env: Env, st: PolicyState, log: seq<LogCommand>, jti: string)
    ensures |ConsumePositions(env, st, log, jti)| == ConsumedCount(env, st, log, jti)
  {
    if log == [] {
      assert ConsumePositions(env, st, log, jti) == {};
    } else {
      hide Consumes, ConsumePositions;
      PositionsCounted(env, st, log[..|log| - 1], jti);
      PositionsStep(env, st, log, |log| - 1, jti);
    }
  }

  lemma PositionsStep(env: Env, st: PolicyState, log: seq<LogCommand>, n: nat, jti: string)
    requires |log| == n + 1
    ensures n !in ConsumePositions(env, st, log[..n], jti)
    ensures ConsumePositions(env, st, log, jti)
            == ConsumePositions(env, st, log[..n], jti) + if Consumes(env, st, log, n, jti) then {n} else {}
  {
    hide Fold, Apply, Carried;
    var a := ConsumePositions(env, st, log, jti);
    var b := ConsumePositions(env, st, log[..n], jti);
    forall p: nat | p < n ensures p in a <==> p in b { ConsumesInPrefix(env, st, log, n, p, jti); }
  }

  lemma ConsumesInPrefix(env: Env, st: PolicyState, log: seq<LogCommand>, n: nat, p: nat, jti: string)
    requires p < n <= |log|
    ensures Consumes(env, st, log, p, jti) <==> Consumes(env, st, log[..n], p, jti)
  {
    hide Fold, Apply;
    assert log[..n][..p] == log[..p];
  }

  /** Handlers that had their node added on a token, whether or not they learnt of it. */
  ghost function AddedFor(s: System, jti: string): set<nat> {
    set j: nat | j in s.added && j < |s.procs| && s.procs[j].req.token.jti == jti
  }

  /**
   In every interleaving of joins and other commands: the learners added on a token are at most its
   counted uses, which are at most its limit, and each was added after its own accepted, unexpired,
   peer-bound consumption of exactly the recorded token.
   */
  lemma JoinsConserved(env: Env, st: PolicyState, steps: seq<Step>, jti: string)
    requires st.joinTokens == map[] && Legal(env, st, System([], [], {}), steps)
    ensures var s := Run(env, st, System([], [], {}), steps);
            var final := Fold(env, st, s.log);
            && |AddedFor(s, jti)| <= UsesOf(final, jti) == ConsumedCount(env, st, s.log, jti)
            && (jti in final.joinTokens ==> UsesOf(final, jti) <= final.joinTokens[jti].token.maxUses)
    ensures var s := Run(env, st, System([], [], {}), steps);
            forall j :: j in AddedFor(s, jti) ==> JustifiedJoin(env, st, s.log, s.procs[j])
  {
    hide Fold, Apply;
    var s := Run(env, st, System([], [], {}), steps);
    RunKeepsOk(env, st, steps);
    UsesAreConsumptions(env, st, s.log, jti);
    PositionsCounted(env, st, s.log, jti);
    var added := AddedFor(s, jti);
    var place := map j | j in added :: s.procs[j].phase.position;
    forall j | j in added
      ensures place[j] in ConsumePositions(env, st, s.log, jti) && JustifiedJoin(env, st, s.log, s.procs[j])
    {
      assert ProcOk(env, st, s.log, s.procs[j]);
      ConsumptionHonoursToken(env, st, s.log, s.procs[j].phase.position, jti);
    }
    InjectionSize(added, place, ConsumePositions(env, st, s.log, jti));
  }

  ghost predicate JustifiedJoin(env: Env, st: PolicyState, log: seq<LogCommand>, proc: Proc) {
    && HasPosition(proc.phase)
    && OwnConsumption(log, proc)
    && Consumes(env, st, log, proc.phase.position, proc.req.token.jti)
    && TokenMatches(Fold(env, st, log), proc.req)
    && Honours(proc.req.token, log[proc.phase.position].command)
  }

  // ---------------------------------------------------------------- a join on its own

  function Drive(env: Env, st: PolicyState, s: System, step: Step): System {
    if Enabled(s, step) then Take(env, st, s, step) else s
  }

  /** Check, consumption, answer, request and change of one join after a log, each where it is still due. */
  function JoinAlone(env: Env, st: PolicyState, log: seq<LogCommand>, req: JoinRequest, memberSeen: bool, index: u64,
                     usedAt: u64): System {
    var begun := Take(env, st, System(log, [], {}), Begin(req));
    var proposed := Drive(env, st, Drive(env, st, begun, Check(0, |log|, memberSeen)), Propose(0, index, usedAt));
    Drive(env, st, Drive(env, st, Drive(env, st, proposed, Answer(0)), AskLearner(0)), LearnerAdded(0))
  }

  /**
   A join that nothing disturbs adds its node exactly when the node was not a member, the token presented is the one
   recorded, has a use left, and is used in time and by the peer it is bound to; a use is asked for exactly when the
   first three hold.
   */
  lemma JoinAloneIff(env: Env, st: PolicyState, log: seq<LogCommand>, req: JoinRequest, memberSeen: bool, index: u64,
                     usedAt: u64)
    ensures var now := Fold(env, st, log);
            var jti := req.token.jti;
            var usable := !memberSeen && jti in now.joinTokens && now.joinTokens[jti].token == req.token
                          && now.joinTokens[jti].uses < req.token.maxUses;
            var consume := LogCommand(index, ConsumeJoinToken(jti, req.nodeId, req.peerId, usedAt));
            var end := JoinAlone(env, st, log, req, memberSeen, index, usedAt);
            && end.log == (if usable then log + [consume] else log)
            && (0 in end.added <==>
                  && usable && req.token.expiresAt != 0 && usedAt <= req.token.expiresAt
                  && (req.token.bindPeerId == "" || req.token.bindPeerId == req.peerId))
  {
    hide Fold;
    assert log[..|log|] == log;
    var consume := LogCommand(index, ConsumeJoinToken(req.token.jti, req.nodeId, req.peerId, usedAt));
    assert (log + [consume])[..|log|] == log;
  }
}
