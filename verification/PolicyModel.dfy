/**
 Values of the replicated policy state machine (src/raft/types.rs and
 src/raft/state_machine.rs): commands, results, and the state one command leads to.
 */
module PolicyModel {
  import opened Common
  import opened Ordering
  import opened StoreModel

  const DEDUP_MAX_ENTRIES: nat := 10_000
  const DEDUP_TTL_SECS: nat := 24 * 60 * 60
  const U32_MAX: nat := 0xFFFF_FFFF

  type u32 = n: int | 0 <= n <= U32_MAX

  datatype JoinToken = JoinToken(
    v: nat, jti: string, clusterId: string, network: string, audience: string, expiresAt: u64,
    maxUses: u32, bindPeerId: string, kid: string, sig: string)

  datatype StoredJoinToken = StoredJoinToken(token: JoinToken, uses: u32)

  datatype Command =
    | Service(op: Op)
    | Admin(requestId: string, kid: string, requestHash: string, requestTs: u64, command: Command)
    | RenewIndex(expiresAt: u64)
    | IssueJoinToken(token: JoinToken)
    | ConsumeJoinToken(jti: string, nodeId: u64, peerId: string, usedAt: u64)

  datatype Code =
    | CodeInvalidService | CodeInvalidPeer | CodeAlreadyExists | CodeNotFound | CodeBadCommand
    | CodeTokenBadVersion | CodeTokenBadJti | CodeTokenBadUses | CodeTokenWrongNetwork | CodeTokenExists
    | CodeTokenUnknown | CodeTokenReplayed | CodeTokenWrongPeer | CodeTokenExpired
    | CodeRequestIdConflict | CodeIo | CodeState | CodeNetworkMismatch

  /** `AdminOutcome`; a rejection keeps its code and drops its text. */
  datatype Outcome =
    | Accepted(service: Option<string>, version: Option<u64>, changed: bool)
    | Refused(code: Code)

  datatype PolicyResult =
    | Applied(service: Option<string>, version: Option<u64>, policyEpoch: u64, changed: bool)
    | Rejected(code: Code, policyEpoch: u64)
    | AdminResult(requestId: string, policyEpoch: u64, raftIndex: u64, duplicate: bool, outcome: Outcome)

  datatype AdminRecord = AdminRecord(
    requestHash: string, outcome: Outcome, policyEpoch: u64, raftIndex: u64, requestTs: u64)

  datatype PolicyState = PolicyState(
    network: string,
    policyEpoch: u64,
    indexExpiresAt: u64,
    services: map<string, ServiceState>,
    tombstones: map<string, u64>,
    dedup: map<string, AdminRecord>,
    joinTokens: map<string, StoredJoinToken>)
  {
    function ToStoreSnapshot(): Snapshot {
      Snapshot(network, policyEpoch, services, tombstones)
    }
  }

  function NewState(network: string): PolicyState {
    PolicyState(network, 1, 0, map[], map[], map[], map[])
  }

  // ---------------------------------------------------------------- service commands

  function CodeOf(e: StoreError): Code {
    match e
    case NotFound(_) => CodeNotFound
    case AlreadyExists(_) => CodeAlreadyExists
    case InvalidService(_) => CodeInvalidService
    case InvalidPeer(_) => CodeInvalidPeer
    case NetworkMismatch => CodeNetworkMismatch
    case Parse => CodeState
    case Io => CodeIo
  }

  /** Whether an accepted command changes its service. */
  function Changes(st: PolicyState, op: Op): bool
    requires !op.CreateService? ==> op.service in st.services
  {
    op.CreateService? || op.DeleteService?
      || Edited(op, st.services[op.service].members) != st.services[op.service].members
  }

  function NewVersion(st: PolicyState, op: Op): u64
    requires !op.CreateService? ==> op.service in st.services
  {
    if op.CreateService? then 1
    else if Changes(st, op) then SatInc(st.services[op.service].version)
    else st.services[op.service].version
  }

  function ServiceStep(env: Env, st: PolicyState, op: Op): (PolicyState, Outcome) {
    var refusal := Refusal(env, st.ToStoreSnapshot(), op);
    if refusal.Some? then (st, Refused(CodeOf(refusal.value)))
    else
      var v := NewVersion(st, op);
      var outcome := Accepted(Some(op.service), Some(v), Changes(st, op));
      if !Changes(st, op) then (st, outcome)
      else if op.DeleteService? then
        (st.(services := st.services - {op.service}, tombstones := st.tombstones[op.service := v],
             policyEpoch := SatInc(st.policyEpoch)), outcome)
      else
        var was := if op.CreateService? then {} else st.services[op.service].members;
        (st.(services := st.services[op.service := ServiceState(v, Edited(op, was))],
             policyEpoch := SatInc(st.policyEpoch)), outcome)
  }

  // ---------------------------------------------------------------- join tokens

  /** Characters that `str::trim` removes. */
  predicate IsSpace(c: char) {
    var n := c as int;
    9 <= n <= 13 || n == 32 || n == 0x85 || n == 0xA0 || n == 0x1680 || 0x2000 <= n <= 0x200A
    || n == 0x2028 || n == 0x2029 || n == 0x202F || n == 0x205F || n == 0x3000
  }

  predicate Blank(s: string) {
    forall c :: c in s ==> IsSpace(c)
  }

  function IssueRefusal(st: PolicyState, token: JoinToken): Option<Code> {
    if token.v != 1 then Some(CodeTokenBadVersion)
    else if Blank(token.jti) then Some(CodeTokenBadJti)
    else if token.maxUses == 0 then Some(CodeTokenBadUses)
    else if token.network != st.network then Some(CodeTokenWrongNetwork)
    else if token.jti in st.joinTokens then Some(CodeTokenExists)
    else None
  }

  function ConsumeRefusal(st: PolicyState, jti: string, peerId: string, usedAt: u64): Option<Code> {
    if jti !in st.joinTokens then Some(CodeTokenUnknown)
    else
      var record := st.joinTokens[jti];
      if record.uses >= record.token.maxUses then Some(CodeTokenReplayed)
      else if record.token.bindPeerId != "" && record.token.bindPeerId != peerId then Some(CodeTokenWrongPeer)
      else if record.token.expiresAt == 0 || usedAt > record.token.expiresAt then Some(CodeTokenExpired)
      else None
  }

  function SatInc32(x: u32): u32 {
    if x == U32_MAX then x else x + 1
  }

  // ---------------------------------------------------------------- one command

  /** `apply_inner`: a command without its idempotency envelope. */
  function Inner(env: Env, st: PolicyState, cmd: Command): (PolicyState, Outcome) {
    match cmd
    case Service(op) => ServiceStep(env, st, op)
    case Admin(_, _, _, _, _) => (st, Refused(CodeBadCommand))
    case RenewIndex(expiresAt) =>
      (st.(policyEpoch := SatInc(st.policyEpoch), indexExpiresAt := expiresAt), Accepted(None, None, true))
    case IssueJoinToken(token) =>
      var refusal := IssueRefusal(st, token);
      if refusal.Some? then (st, Refused(refusal.value))
      else (st.(joinTokens := st.joinTokens[token.jti := StoredJoinToken(token, 0)]),
            Accepted(Some(token.jti), Some(token.expiresAt), true))
    case ConsumeJoinToken(jti, _, peerId, usedAt) =>
      var refusal := ConsumeRefusal(st, jti, peerId, usedAt);
      if refusal.Some? then (st, Refused(refusal.value))
      else
        var record := st.joinTokens[jti];
        (st.(joinTokens := st.joinTokens[jti := record.(uses := SatInc32(record.uses))]),
         Accepted(Some(jti), None, true))
  }

  function SaturatingSub(a: u64, b: u64): u64 {
    if a > b then a - b else 0
  }

  /** Records no older than the TTL at time `now`; `saturating_sub` never makes a later one old. */
  function Fresh(d: map<string, AdminRecord>, now: u64): map<string, AdminRecord> {
    map k | k in d && now <= d[k].requestTs + DEDUP_TTL_SECS :: d[k]
  }

  /** Lowest log index first; among equals the lowest key, as `min_by_key` over a `BTreeMap` picks. */
  predicate Older(a: (u64, string), b: (u64, string)) {
    a.0 < b.0 || (a.0 == b.0 && StrLess(a.1, b.1))
  }

  lemma OlderStrictTotal()
    ensures StrictTotal(Older)
  {
    StrLessStrictTotal();
    forall a, b, c | Older(a, b) && Older(b, c) ensures Older(a, c) {
      if a.0 == b.0 == c.0 { StrLessTransitive(a.1, b.1, c.1); }
    }
    forall a, b ensures a == b || Older(a, b) || Older(b, a) { StrLessTotal(a.1, b.1); }
    forall a ensures !Older(a, a) { StrLessIrreflexive(a.1); }
  }

  function Ages(d: map<string, AdminRecord>): set<(u64, string)> {
    set k | k in d :: (d[k].raftIndex, k)
  }

  function Oldest(d: map<string, AdminRecord>): (k: string)
    requires |d| > 0
    ensures k in d
    ensures forall x :: x in d && x != k ==> Older((d[k].raftIndex, k), (d[x].raftIndex, x))
  {
    OlderStrictTotal();
    var some :| some in d.Keys;
    assert (d[some].raftIndex, some) in Ages(d);
    var m := Least(Ages(d), Older);
    assert forall x :: x in d ==> (d[x].raftIndex, x) in Ages(d);
    m.1
  }

  lemma RemoveOneSmaller(d: map<string, AdminRecord>, k: string)
    requires k in d
    ensures |d - {k}| == |d| - 1
  {
    assert (d - {k}).Keys == d.Keys - {k};
  }

  /** Drops the oldest records until at most `limit` are left. */
  function EvictTo(d: map<string, AdminRecord>, limit: nat): (r: map<string, AdminRecord>)
    ensures |r| <= limit
    decreases |d|
  {
    if |d| <= limit then d else
      RemoveOneSmaller(d, Oldest(d));
      EvictTo(d - {Oldest(d)}, limit)
  }

  function Prune(d: map<string, AdminRecord>, now: u64): map<string, AdminRecord> {
    EvictTo(Fresh(d, now), DEDUP_MAX_ENTRIES)
  }

  function AdminStep(env: Env, st: PolicyState, id: string, hash: string, ts: u64, cmd: Command, index: u64)
    : (PolicyState, PolicyResult)
  {
    if id in st.dedup then
      var record := st.dedup[id];
      if record.requestHash == hash then
        (st, AdminResult(id, record.policyEpoch, record.raftIndex, true, record.outcome))
      else
        (st, AdminResult(id, st.policyEpoch, index, true, Refused(CodeRequestIdConflict)))
    else
      var (next, outcome) := Inner(env, st, cmd);
      var record := AdminRecord(hash, outcome, next.policyEpoch, index, ts);
      (next.(dedup := Prune(next.dedup[id := record], ts)),
       AdminResult(id, next.policyEpoch, index, false, outcome))
  }

  function Apply(env: Env, st: PolicyState, cmd: Command, index: u64): (PolicyState, PolicyResult) {
    if cmd.Admin? then
      AdminStep(env, st, cmd.requestId, cmd.requestHash, cmd.requestTs, cmd.command, index)
    else
      var (next, outcome) := Inner(env, st, cmd);
      match outcome
      case Accepted(service, version, changed) => (next, Applied(service, version, next.policyEpoch, changed))
      case Refused(code) => (next, Rejected(code, next.policyEpoch))
  }

  /** The command carried by an entry, without its idempotency envelope. */
  function Bare(cmd: Command): Command {
    if cmd.Admin? then cmd.command else cmd
  }

  // ---------------------------------------------------------------- a log of commands

  datatype LogCommand = LogCommand(index: u64, command: Command)

  /** The state after the log, from `st`. */
  function Fold(env: Env, st: PolicyState, log: seq<LogCommand>): PolicyState {
    if log == [] then st else
      var last := log[|log| - 1];
      Apply(env, Fold(env, st, log[..|log| - 1]), last.command, last.index).0
  }

  /** The answer given to the command at position `i`. */
  function ResultAt(env: Env, st: PolicyState, log: seq<LogCommand>, i: nat): PolicyResult
    requires i < |log|
  {
    Apply(env, Fold(env, st, log[..i]), log[i].command, log[i].index).1
  }

  lemma FoldStep(env: Env, st: PolicyState, log: seq<LogCommand>, i: nat)
    requires i < |log|
    ensures Fold(env, st, log[..i + 1]) == Apply(env, Fold(env, st, log[..i]), log[i].command, log[i].index).0
  {
    assert log[..i + 1][..i] == log[..i];
  }

  lemma {:induction false} FoldSplit(env: Env, st: PolicyState, log: seq<LogCommand>, k: nat)
    requires k <= |log|
    ensures Fold(env, st, log) == Fold(env, Fold(env, st, log[..k]), log[k..])
  {
    if k == |log| {
      assert log[..k] == log;
    } else {
      FoldSplit(env, st, log[..|log| - 1], k);
      assert log[..|log| - 1][..k] == log[..k];
      assert log[k..][..|log[k..]| - 1] == log[..|log| - 1][k..];
    }
  }
}
