/** The policy state updated in place, method by method (src/raft/state_machine.rs). */
module PolicyMachine {
  import opened Common
  import opened Authority
  import opened StoreModel
  import opened PolicyModel
  import Store

  class Machine {
    const env: Env
    var network: string
    var policyEpoch: u64
    var indexExpiresAt: u64
    var services: map<string, ServiceState>
    var tombstones: map<string, u64>
    var dedup: map<string, AdminRecord>
    var joinTokens: map<string, StoredJoinToken>

    function View(): PolicyState
      reads this
    {
      PolicyState(network, policyEpoch, indexExpiresAt, services, tombstones, dedup, joinTokens)
    }

    constructor (env: Env, st: PolicyState)
      ensures this.env == env && View() == st
    {
      this.env := env;
      network := st.network;
      policyEpoch := st.policyEpoch;
      indexExpiresAt := st.indexExpiresAt;
      services := st.services;
      tombstones := st.tombstones;
      dedup := st.dedup;
      joinTokens := st.joinTokens;
    }

    method CreateService(service: string, members: seq<string>) returns (r: Result<u64, Code>)
      modifies this`services, this`policyEpoch
      ensures (View(), OutcomeOf(service, r, true))
        == ServiceStep(env, old(View()), StoreModel.CreateService(service, members))
    {
      if !IsValidServiceName(service) { return Err(CodeInvalidService); }
      var bad := Store.ValidatePeers(env, members);
      if bad.Some? { return Err(CodeInvalidPeer); }
      if service in services { return Err(CodeAlreadyExists); }
      services := services[service := ServiceState(1, ToSet(members))];
      policyEpoch := SatInc(policyEpoch);
      return Ok(1);
    }

    method DeleteService(service: string) returns (r: Result<u64, Code>)
      modifies this`services, this`tombstones, this`policyEpoch
      ensures (View(), OutcomeOf(service, r, true)) == ServiceStep(env, old(View()), StoreModel.DeleteService(service))
    {
      if service !in services { return Err(CodeNotFound); }
      var removed := services[service];
      services := services - {service};
      var tombstone := SatInc(removed.version);
      tombstones := tombstones[service := tombstone];
      policyEpoch := SatInc(policyEpoch);
      return Ok(tombstone);
    }

    method FinishChange(service: string, changed: bool) returns (version: u64)
      requires service in services
      modifies this`services, this`policyEpoch
      ensures version == if changed then SatInc(old(services)[service].version) else old(services)[service].version
      ensures services == old(services)[service := old(services)[service].(version := version)]
      ensures policyEpoch == if changed then SatInc(old(policyEpoch)) else old(policyEpoch)
    {
      var state := services[service];
      if !changed { return state.version; }
      version := SatInc(state.version);
      services := services[service := state.(version := version)];
      policyEpoch := SatInc(policyEpoch);
    }

    method AddMembers(service: string, peers: seq<string>) returns (r: Result<u64, Code>, changed: bool)
      modifies this`services, this`policyEpoch
      ensures (View(), OutcomeOf(service, r, changed))
        == ServiceStep(env, old(View()), StoreModel.AddMembers(service, peers))
    {
      changed := false;
      var bad := Store.ValidatePeers(env, peers);
      if bad.Some? { return Err(CodeInvalidPeer), false; }
      if service !in services { return Err(CodeNotFound), false; }
      var state := services[service];
      var members;
      members, changed := Store.InsertEach(state.members, peers);
      services := services[service := state.(members := members)];
      var version := FinishChange(service, changed);
      assert !changed ==> services == old(services);
      assert services == old(services)[service := services[service]];
      r := Ok(version);
    }

    method RemoveMembers(service: string, peers: seq<string>) returns (r: Result<u64, Code>, changed: bool)
      modifies this`services, this`policyEpoch
      ensures (View(), OutcomeOf(service, r, changed))
        == ServiceStep(env, old(View()), StoreModel.RemoveMembers(service, peers))
    {
      changed := false;
      var bad := Store.ValidatePeers(env, peers);
      if bad.Some? { return Err(CodeInvalidPeer), false; }
      if service !in services { return Err(CodeNotFound), false; }
      var state := services[service];
      var members;
      members, changed := Store.RemoveEach(state.members, peers);
      services := services[service := state.(members := members)];
      var version := FinishChange(service, changed);
      assert !changed ==> services == old(services);
      assert services == old(services)[service := services[service]];
      r := Ok(version);
    }

    method SetMembers(service: string, peers: seq<string>) returns (r: Result<u64, Code>, changed: bool)
      modifies this`services, this`policyEpoch
      ensures (View(), OutcomeOf(service, r, changed))
        == ServiceStep(env, old(View()), StoreModel.SetMembers(service, peers))
    {
      changed := false;
      var bad := Store.ValidatePeers(env, peers);
      if bad.Some? { return Err(CodeInvalidPeer), false; }
      var incoming := ToSet(peers);
      if service !in services { return Err(CodeNotFound), false; }
      var state := services[service];
      changed := state.members != incoming;
      if changed {
        services := services[service := state.(members := incoming)];
      }
      var version := FinishChange(service, changed);
      assert !changed ==> services == old(services);
      assert services == old(services)[service := services[service]];
      r := Ok(version);
    }

    method IssueJoinToken(token: JoinToken) returns (r: Option<Code>)
      modifies this`joinTokens
      ensures r == IssueRefusal(old(View()), token)
      ensures joinTokens == if r.Some? then old(joinTokens) else old(joinTokens)[token.jti := StoredJoinToken(token, 0)]
    {
      if token.v != 1 { return Some(CodeTokenBadVersion); }
      if Blank(token.jti) { return Some(CodeTokenBadJti); }
      if token.maxUses == 0 { return Some(CodeTokenBadUses); }
      if token.network != network { return Some(CodeTokenWrongNetwork); }
      if token.jti in joinTokens { return Some(CodeTokenExists); }
      joinTokens := joinTokens[token.jti := StoredJoinToken(token, 0)];
      return None;
    }

    method ConsumeJoinToken(jti: string, peerId: string, usedAt: u64) returns (r: Option<Code>)
      modifies this`joinTokens
      ensures r == ConsumeRefusal(old(View()), jti, peerId, usedAt)
      ensures r.Some? ==> joinTokens == old(joinTokens)
      ensures r.None? ==>
                && jti in old(joinTokens)
                && var record := old(joinTokens)[jti];
                   joinTokens == old(joinTokens)[jti := record.(uses := SatInc32(record.uses))]
    {
      if jti !in joinTokens { return Some(CodeTokenUnknown); }
      var record := joinTokens[jti];
      if record.uses >= record.token.maxUses { return Some(CodeTokenReplayed); }
      if record.token.bindPeerId != "" && record.token.bindPeerId != peerId { return Some(CodeTokenWrongPeer); }
      if record.token.expiresAt == 0 || usedAt > record.token.expiresAt { return Some(CodeTokenExpired); }
      joinTokens := joinTokens[jti := record.(uses := SatInc32(record.uses))];
      return None;
    }

    /** Dispatches a service command to its method. */
    method ApplyService(op: Op) returns (outcome: Outcome)
      modifies this`services, this`tombstones, this`policyEpoch
      ensures (View(), outcome) == ServiceStep(env, old(View()), op)
    {
      var r: Result<u64, Code>;
      var changed := true;
      match op {
        case CreateService(service, peers) => r := CreateService(service, peers);
        case DeleteService(service) => r := DeleteService(service);
        case AddMembers(service, peers) => r, changed := AddMembers(service, peers);
        case RemoveMembers(service, peers) => r, changed := RemoveMembers(service, peers);
        case SetMembers(service, peers) => r, changed := SetMembers(service, peers);
      }
      outcome := OutcomeOf(op.service, r, changed);
    }

    method ApplyInner(cmd: Command) returns (outcome: Outcome)
      modifies this`services, this`tombstones, this`policyEpoch, this`indexExpiresAt, this`joinTokens
      ensures (View(), outcome) == Inner(env, old(View()), cmd)
    {
      match cmd {
        case Service(op) =>
          outcome := ApplyService(op);
        case Admin(_, _, _, _, _) =>
          outcome := Refused(CodeBadCommand);
        case RenewIndex(expiresAt) =>
          policyEpoch := SatInc(policyEpoch);
          indexExpiresAt := expiresAt;
          outcome := Accepted(None, None, true);
        case IssueJoinToken(token) =>
          var refusal := IssueJoinToken(token);
          outcome := if refusal.Some? then Refused(refusal.value)
                     else Accepted(Some(token.jti), Some(token.expiresAt), true);
        case ConsumeJoinToken(jti, _, peerId, usedAt) =>
          var refusal := ConsumeJoinToken(jti, peerId, usedAt);
          outcome := if refusal.Some? then Refused(refusal.value) else Accepted(Some(jti), None, true);
      }
    }

    /** Drops records past their TTL, then the oldest ones while there are too many. */
    method PruneDedup(now: u64)
      modifies this`dedup
      ensures dedup == Prune(old(dedup), now)
    {
      var unexpired := map k | k in dedup && SaturatingSub(now, dedup[k].requestTs) <= DEDUP_TTL_SECS :: dedup[k];
      dedup := unexpired;
      assert dedup == Fresh(old(dedup), now);
      while |dedup| > DEDUP_MAX_ENTRIES
        invariant EvictTo(dedup, DEDUP_MAX_ENTRIES) == Prune(old(dedup), now)
        decreases |dedup|
      {
        var key := Oldest(dedup);
        RemoveOneSmaller(dedup, key);
        dedup := dedup - {key};
      }
    }

    method ApplyAdmin(id: string, hash: string, ts: u64, cmd: Command, index: u64) returns (r: PolicyResult)
      modifies this
      ensures (View(), r) == AdminStep(env, old(View()), id, hash, ts, cmd, index)
    {
      if id in dedup {
        var record := dedup[id];
        var same := record.requestHash == hash;
        return AdminResult(id, if same then record.policyEpoch else policyEpoch,
                           if same then record.raftIndex else index, true,
                           if same then record.outcome else Refused(CodeRequestIdConflict));
      }
      var outcome := ApplyInner(cmd);
      dedup := dedup[id := AdminRecord(hash, outcome, policyEpoch, index, ts)];
      PruneDedup(ts);
      return AdminResult(id, policyEpoch, index, false, outcome);
    }

    method ApplyCommandAt(cmd: Command, index: u64) returns (r: PolicyResult)
      modifies this
      ensures (View(), r) == Apply(env, old(View()), cmd, index)
    {
      if cmd.Admin? {
        r := ApplyAdmin(cmd.requestId, cmd.requestHash, cmd.requestTs, cmd.command, index);
        return;
      }
      var outcome := ApplyInner(cmd);
      match outcome {
        case Accepted(service, version, changed) => r := Applied(service, version, policyEpoch, changed);
        case Refused(code) => r := Rejected(code, policyEpoch);
      }
    }
  }

  function OutcomeOf(service: string, r: Result<u64, Code>, changed: bool): Outcome {
    match r
    case Ok(version) => Accepted(Some(service), Some(version), changed)
    case Err(code) => Refused(code)
  }
}
