/**
 What the operations of src/store.rs and the commands of src/raft/state_machine.rs do, told without the functions that
 compute it: who is on a whitelist, which versions move, which epoch an answer names.
 */
module Effects {
  import opened Common
  import opened Authority
  import opened StoreModel
  import opened PolicyModel
  import opened JoinTokens

  predicate OnList(services: map<string, ServiceState>, name: string, x: string) {
    name in services && x in services[name].members
  }

  // ---------------------------------------------------------------- one operation

  /** An operation is accepted exactly when its name, its peers and the presence of its service allow. */
  lemma AcceptedIff(env: Env, s: Snapshot, op: Op)
    ensures Refusal(env, s, op).None? <==>
              && (op.CreateService? ==> IsValidServiceName(op.service) && op.service !in s.services)
              && (!op.CreateService? ==> op.service in s.services)
              && (!op.DeleteService? ==> forall p :: p in op.peers ==> env.validPeer(p))
  {}

  /** The first obstacle is the one reported: the name, then the first bad peer, then the service. */
  lemma RefusedWith(env: Env, s: Snapshot, op: Op)
    requires Refusal(env, s, op).Some?
    ensures var e := Refusal(env, s, op).value;
            if op.CreateService? && !IsValidServiceName(op.service) then e == InvalidService(op.service)
            else if !op.DeleteService? && exists p :: p in op.peers && !env.validPeer(p) then
              exists i :: 0 <= i < |op.peers| && e == InvalidPeer(op.peers[i]) && !env.validPeer(op.peers[i])
                          && forall j :: 0 <= j < i ==> env.validPeer(op.peers[j])
            else e == (if op.CreateService? then AlreadyExists(op.service) else NotFound(op.service))
  {
    if !op.DeleteService? && FirstInvalid(env, op.peers).Some? {
      var i := FirstInvalidAt(env, op.peers);
    }
  }

  lemma {:induction false} FirstInvalidAt(env: Env, peers: seq<string>) returns (i: nat)
    requires FirstInvalid(env, peers).Some?
    ensures i < |peers| && FirstInvalid(env, peers) == Some(peers[i]) && !env.validPeer(peers[i])
    ensures forall j :: 0 <= j < i ==> env.validPeer(peers[j])
  {
    if !env.validPeer(peers[0]) {
      i := 0;
    } else {
      i := FirstInvalidAt(env, peers[1..]);
      i := i + 1;
      forall j | 0 <= j < i ensures env.validPeer(peers[j]) { if j > 0 { assert peers[j] == peers[1..][j - 1]; } }
    }
  }

  /** Who is on the whitelist after an accepted operation. */
  predicate Listed(op: Op, was: bool, x: string) {
    match op
    case CreateService(_, peers) => x in peers
    case DeleteService(_) => false
    case AddMembers(_, peers) => was || x in peers
    case RemoveMembers(_, peers) => was && x !in peers
    case SetMembers(_, peers) => x in peers
  }

  /** Some peer of the edit makes a difference to the whitelist. */
  ghost predicate Matters(op: Op, services: map<string, ServiceState>) {
    || op.CreateService? || op.DeleteService?
    || exists x :: Listed(op, OnList(services, op.service, x), x) != OnList(services, op.service, x)
  }

  lemma EditedIsListed(op: Op, members: set<string>)
    requires !op.CreateService? && !op.DeleteService?
    ensures forall x :: x in Edited(op, members) <==> Listed(op, x in members, x)
    ensures Edited(op, members) != members <==> exists x :: Listed(op, x in members, x) != (x in members)
  {
    var edited := Edited(op, members);
    forall x ensures x in edited <==> Listed(op, x in members, x) {}
    if edited != members {
      if x :| x in edited && x !in members {
        assert Listed(op, x in members, x) != (x in members);
      } else {
        var y :| y in members && y !in edited;
        assert Listed(op, y in members, y) != (y in members);
      }
    }
  }

  lemma MattersIff(op: Op, services: map<string, ServiceState>)
    requires !op.CreateService? && !op.DeleteService? && op.service in services
    ensures Matters(op, services) <==> Edited(op, services[op.service].members) != services[op.service].members
  {
    var members := services[op.service].members;
    EditedIsListed(op, members);
    forall x ensures OnList(services, op.service, x) <==> x in members {}
    if x :| Listed(op, x in members, x) != (x in members) {
      assert Listed(op, OnList(services, op.service, x), x) != OnList(services, op.service, x);
    }
  }

  /** The store: whitelist, versions one up with wrap-around exactly where it matters, everything else as it was. */
  lemma StoreEffect(env: Env, s: Snapshot, op: Op, x: string)
    requires Refusal(env, s, op).None?
    ensures var t := Perform(env, s, op);
            && (op.service in t.services <==> !op.DeleteService?)
            && (OnList(t.services, op.service, x) <==> Listed(op, OnList(s.services, op.service, x), x))
            && (op.CreateService? ==> t.services[op.service].version == 1)
            && (op.DeleteService? ==>
                  && op.service in t.tombstones
                  && OneUp(s.services[op.service].version, t.tombstones[op.service]))
            && (!op.CreateService? && !op.DeleteService? ==>
                  if Matters(op, s.services) then OneUp(s.services[op.service].version, t.services[op.service].version)
                  else t == s)
            && (Matters(op, s.services) ==> OneUp(s.indexVersion, t.indexVersion))
            && (forall n :: n != op.service ==> CellOf(t, n) == CellOf(s, n))
            && (!op.DeleteService? ==> t.tombstones == s.tombstones)
  {
    if !op.CreateService? && !op.DeleteService? {
      EditedIsListed(op, s.services[op.service].members);
      MattersIff(op, s.services);
    }
  }

  /** The next number, 0 after the greatest. */
  predicate OneUp(a: u64, b: u64) {
    if a < U64_MAX then b == a + 1 else b == 0
  }

  /** The next number, the greatest again after the greatest. */
  predicate OneUpOrFull(a: u64, b: u64) {
    if a < U64_MAX then b == a + 1 else b == U64_MAX
  }

  /** The state machine: the same with saturating counters, and an answer that names service, version and change. */
  lemma PolicyEffect(env: Env, st: PolicyState, op: Op, x: string)
    requires Refusal(env, st.ToStoreSnapshot(), op).None?
    ensures var (next, outcome) := ServiceStep(env, st, op);
            && (op.service in next.services <==> !op.DeleteService?)
            && (OnList(next.services, op.service, x) <==> Listed(op, OnList(st.services, op.service, x), x))
            && (op.CreateService? ==> next.services[op.service].version == 1)
            && (op.DeleteService? ==>
                  && op.service in next.tombstones
                  && OneUpOrFull(st.services[op.service].version, next.tombstones[op.service]))
            && (!op.CreateService? && !op.DeleteService? ==>
                  if Matters(op, st.services)
                  then OneUpOrFull(st.services[op.service].version, next.services[op.service].version)
                  else next == st)
            && (Matters(op, st.services) ==> OneUpOrFull(st.policyEpoch, next.policyEpoch))
            && (forall n :: n != op.service ==>
                  CellOf(next.ToStoreSnapshot(), n) == CellOf(st.ToStoreSnapshot(), n))
            && (!op.DeleteService? ==> next.tombstones == st.tombstones)
            && next == st.(services := next.services, tombstones := next.tombstones, policyEpoch := next.policyEpoch)
            && outcome.Accepted? && outcome.service == Some(op.service)
            && outcome.version == Some(if op.DeleteService? then next.tombstones[op.service]
                                       else next.services[op.service].version)
            && (outcome.changed <==> Matters(op, st.services))
  {
    if !op.CreateService? && !op.DeleteService? {
      EditedIsListed(op, st.services[op.service].members);
      MattersIff(op, st.services);
    }
  }

  /** A renewal sets the expiry and raises the epoch, a token command touches tokens only. */
  lemma OtherEffects(env: Env, st: PolicyState, cmd: Command)
    requires !cmd.Service?
    ensures var (next, outcome) := Inner(env, st, cmd);
            && (cmd.RenewIndex? ==>
                  && OneUpOrFull(st.policyEpoch, next.policyEpoch)
                  && next == st.(policyEpoch := next.policyEpoch, indexExpiresAt := cmd.expiresAt)
                  && outcome == Accepted(None, None, true))
            && (!cmd.RenewIndex? ==> next == st.(joinTokens := next.joinTokens))
            && (cmd.Admin? ==> next == st && outcome == Refused(CodeBadCommand))
            && (outcome.Refused? ==> next == st)
  {}

  /** Below u64::MAX the epoch rises exactly with a renewal and with a service command that matters. */
  lemma EpochRisesIff(env: Env, st: PolicyState, cmd: Command)
    requires st.policyEpoch < U64_MAX
    ensures Inner(env, st, cmd).0.policyEpoch ==
            st.policyEpoch + if cmd.RenewIndex? || (cmd.Service? && Refusal(env, st.ToStoreSnapshot(), cmd.op).None?
                                                    && Matters(cmd.op, st.services)) then 1 else 0
  {
    if cmd.Service? && Refusal(env, st.ToStoreSnapshot(), cmd.op).None? {
      PolicyEffect(env, st, cmd.op, "");
    } else if !cmd.Service? {
      OtherEffects(env, st, cmd);
    }
  }

  // ---------------------------------------------------------------- along a log

  function EpochIn(r: PolicyResult): u64 {
    match r
    case Applied(_, _, epoch, _) => epoch
    case Rejected(_, epoch) => epoch
    case AdminResult(_, epoch, _, _, _) => epoch
  }

  lemma StepAnswersEpoch(env: Env, st: PolicyState, cmd: Command, index: u64)
    ensures var (next, r) := Apply(env, st, cmd, index);
            (r.AdminResult? && r.duplicate) || EpochIn(r) == next.policyEpoch
  {
    hide Inner, Prune;
  }

  /** Every answer that is not a duplicate names the epoch that holds right after its entry. */
  lemma AnswersNameEpoch(env: Env, st: PolicyState, log: seq<LogCommand>, i: nat)
    requires i < |log|
    requires ResultAt(env, st, log, i).AdminResult? ==> !ResultAt(env, st, log, i).duplicate
    ensures EpochIn(ResultAt(env, st, log, i)) == Fold(env, st, log[..i + 1]).policyEpoch
  {
    hide Fold, Apply;
    FoldStep(env, st, log, i);
    StepAnswersEpoch(env, Fold(env, st, log[..i]), log[i].command, log[i].index);
  }

  /** What a command says about `x` on the whitelist of `name`, if anything. */
  function Word(cmd: Command, name: string, x: string): Option<bool> {
    if !cmd.Service? || cmd.op.service != name then None
    else
      match cmd.op
      case CreateService(_, peers) => Some(x in peers)
      case DeleteService(_) => Some(false)
      case AddMembers(_, peers) => if x in peers then Some(true) else None
      case RemoveMembers(_, peers) => if x in peers then Some(false) else None
      case SetMembers(_, peers) => Some(x in peers)
  }

  /** The last word among the entries answered as carried out. */
  ghost function LastWord(env: Env, st: PolicyState, log: seq<LogCommand>, name: string, x: string): Option<bool> {
    if log == [] then None else
      var n := |log| - 1;
      var word := Word(Bare(log[n].command), name, x);
      if Carried(ResultAt(env, st, log, n)) && word.Some? then word else LastWord(env, st, log[..n], name, x)
  }

  lemma InnerWord(env: Env, st: PolicyState, cmd: Command, name: string, x: string)
    ensures var (next, outcome) := Inner(env, st, cmd);
            var word := Word(cmd, name, x);
            OnList(next.services, name, x)
              == if outcome.Accepted? && word.Some? then word.value else OnList(st.services, name, x)
  {
    if cmd.Service? {
      if Refusal(env, st.ToStoreSnapshot(), cmd.op).None? {
        PolicyEffect(env, st, cmd.op, x);
        var next := ServiceStep(env, st, cmd.op).0;
        if cmd.op.service != name {
          assert CellOf(next.ToStoreSnapshot(), name) == CellOf(st.ToStoreSnapshot(), name);
        }
        hide ServiceStep;
      }
    }
  }

  lemma StepWord(env: Env, st: PolicyState, cmd: Command, index: u64, name: string, x: string)
    ensures var (next, r) := Apply(env, st, cmd, index);
            var word := Word(Bare(cmd), name, x);
            OnList(next.services, name, x)
              == if Carried(r) && word.Some? then word.value else OnList(st.services, name, x)
  {
    hide Inner, Prune;
    InnerWord(env, st, Bare(cmd), name, x);
  }

  /**
   After any log, a peer is on a whitelist exactly when the last carried-out command that says anything about it there
   says so; refused commands and retries say nothing.
   */
  lemma {:induction false} LastWordDecides(env: Env, st: PolicyState, log: seq<LogCommand>, name: string, x: string)
    ensures OnList(Fold(env, st, log).services, name, x) ==
            var word := LastWord(env, st, log, name, x);
            if word.Some? then word.value else OnList(st.services, name, x)
  {
    hide Apply, Carried, OnList, Word;
    if log != [] {
      var n := |log| - 1;
      LastWordDecides(env, st, log[..n], name, x);
      StepWord(env, Fold(env, st, log[..n]), log[n].command, log[n].index, name, x);
    }
  }
}
