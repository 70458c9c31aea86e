/** The identity of an admin request and the command it stands for (src/admin_v2.rs and src/service.rs). */
module Requests {
  import opened Common
  import opened Ordering
  import opened StoreModel
  import opened PolicyModel
  import opened Idempotency
  import opened JoinTokens
  import opened Effects

  datatype MemberSpec = MemberSpec(nodeId: u64, peerId: string, identityKey: string, x25519Key: string)

  datatype TokenSpec = TokenSpec(jti: string, audience: string, expiresAt: u64, maxUses: u32, bindPeerId: string,
      sig: string)

  datatype Request = Request(
    v: nat, op: string, service: string, peers: seq<string>, kid: string, requestId: string,
    nonce: string, ts: u64, sig: string, member: Option<MemberSpec>, joinToken: Option<TokenSpec>)

  /** What the idempotency hash covers; the longer body is used when a member or token is present. */
  datatype Identity =
    | Plain(v: nat, op: string, service: string, peers: seq<string>, kid: string, requestId: string)
    | Extended(v: nat, op: string, service: string, peers: seq<string>, kid: string, requestId: string,
               member: Option<MemberSpec>, joinToken: Option<TokenSpec>)

  /** Sorted, each peer once. */
  function CanonicalPeers(peers: seq<string>): (r: seq<string>)
    ensures ToSet(r) == ToSet(peers)
    ensures Ascending(r, StrLess)
  {
    SortedStrings(ToSet(peers))
  }

  function IdentityOf(q: Request): Identity {
    var peers := CanonicalPeers(q.peers);
    if q.member.None? && q.joinToken.None? then Plain(q.v, q.op, q.service, peers, q.kid, q.requestId)
    else Extended(q.v, q.op, q.service, peers, q.kid, q.requestId, q.member, q.joinToken)
  }

  /** CBOR followed by SHA-256 in base64: any function of the identity. */
  type Hasher = Identity -> string

  function RequestHash(h: Hasher, q: Request): string {
    h(IdentityOf(q))
  }

  /** Changing nonce, time stamp or signature, reordering peers or repeating them keeps the hash. */
  lemma HashIgnoresRetryFields(h: Hasher, a: Request, b: Request)
    requires ToSet(a.peers) == ToSet(b.peers)
    requires b == a.(peers := b.peers, nonce := b.nonce, ts := b.ts, sig := b.sig)
    ensures RequestHash(h, a) == RequestHash(h, b)
  {}

  datatype Context = Context(clusterId: string, network: string)

  datatype CommandError = MissingService | MissingToken | UnknownOp

  /** The command proposed for a request: a service write or the issue of a token. */
  function CommandFor(ctx: Context, q: Request): Result<Command, CommandError> {
    if q.op == "issue_join_token" then
      if q.joinToken.None? then Err(MissingToken)
      else
        var t := q.joinToken.value;
        Ok(IssueJoinToken(JoinToken(1, t.jti, ctx.clusterId, ctx.network, t.audience, t.expiresAt,
                                    if t.maxUses == 0 then 1 else t.maxUses, t.bindPeerId, q.kid, t.sig)))
    else if q.service == "" then Err(MissingService)
    else
      var peers := CanonicalPeers(q.peers);
      if q.op == "add_members" then Ok(Service(AddMembers(q.service, peers)))
      else if q.op == "remove_members" then Ok(Service(RemoveMembers(q.service, peers)))
      else if q.op == "set_members" then Ok(Service(SetMembers(q.service, peers)))
      else if q.op == "create_service" then Ok(Service(CreateService(q.service, peers)))
      else if q.op == "delete_service" then Ok(Service(DeleteService(q.service)))
      else Err(UnknownOp)
  }

  /** Equal identities mean one request id and one command. */
  lemma SameIdentitySameCommand(ctx: Context, a: Request, b: Request)
    requires IdentityOf(a) == IdentityOf(b)
    ensures a.requestId == b.requestId && a.kid == b.kid && CommandFor(ctx, a) == CommandFor(ctx, b)
  {
    hide CanonicalPeers;
  }

  /** The admin command proposed for request `q`. */
  ghost predicate ProposedFor(h: Hasher, ctx: Context, cmd: Command, q: Request) {
    && CommandFor(ctx, q).Ok?
    && cmd == Admin(q.requestId, q.kid, RequestHash(h, q), q.ts, CommandFor(ctx, q).value)
  }

  /** Every admin entry of the log was proposed for the request at its position. */
  ghost predicate FromRequests(h: Hasher, ctx: Context, log: seq<LogCommand>, qs: seq<Request>) {
    |qs| == |log| && forall i :: 0 <= i < |log| && log[i].command.Admin? ==> ProposedFor(h, ctx, log[i].command, qs[i])
  }

  /** No two requests behind the log are confused by the hash. */
  ghost predicate HashTellsApart(h: Hasher, qs: seq<Request>) {
    forall i, j :: 0 <= i < |qs| && 0 <= j < |qs| && RequestHash(h, qs[i]) == RequestHash(h, qs[j]) ==>
      IdentityOf(qs[i]) == IdentityOf(qs[j])
  }

  /**
   A duplicate answer that is not a conflict is about the very same command: some earlier
   entry carried that command for that request id, and the answer is the one it got.
   */
  lemma DuplicateIsSameCommand(env: Env, h: Hasher, ctx: Context, st: PolicyState, log: seq<LogCommand>,
      qs: seq<Request>, j: nat)
    requires st.dedup == map[] && j < |log|
    requires FromRequests(h, ctx, log, qs) && HashTellsApart(h, qs)
    requires var r := ResultAt(env, st, log, j);
             r.AdminResult? && r.duplicate && r.outcome != Refused(CodeRequestIdConflict)
    ensures exists p: nat ::
              && p < j && log[p].command.Admin? && log[j].command.Admin?
              && log[p].command.requestId == log[j].command.requestId
              && log[p].command.command == log[j].command.command
              && ResultAt(env, st, log, j) == ResultAt(env, st, log, p).(duplicate := true)
  {
    hide Fold, Inner, EvictTo, SortedStrings;
    DuplicateRepeatsFirst(env, st, log, j);
    var p: nat, rec :| p < j && OriginAt(env, st, log, p, log[j].command.requestId, rec)
              && (if rec.requestHash == log[j].command.requestHash
                  then ResultAt(env, st, log, j) == ResultAt(env, st, log, p).(duplicate := true)
                  else ResultAt(env, st, log, j).outcome == Refused(CodeRequestIdConflict));
    assert ProposedFor(h, ctx, log[p].command, qs[p]) && ProposedFor(h, ctx, log[j].command, qs[j]);
    SameIdentitySameCommand(ctx, qs[p], qs[j]);
  }

  // ---------------------------------------------------------------- what a request asks for

  /** What a request says about `x` on the whitelist of `name`, read off its operation and its peers. */
  function RequestWord(q: Request, name: string, x: string): Option<bool> {
    if q.service != name then None
    else if q.op == "create_service" || q.op == "set_members" then Some(x in q.peers)
    else if q.op == "delete_service" then Some(false)
    else if q.op == "add_members" && x in q.peers then Some(true)
    else if q.op == "remove_members" && x in q.peers then Some(false)
    else None
  }

  /** The command of a request says just that, and exactly the known operations with what they need have a command. */
  lemma CommandSaysRequest(ctx: Context, q: Request, name: string, x: string)
    ensures CommandFor(ctx, q).Ok? <==>
              if q.op == "issue_join_token" then q.joinToken.Some?
              else q.service != "" && q.op in {"add_members", "remove_members", "set_members", "create_service",
                                                "delete_service"}
    ensures CommandFor(ctx, q).Ok? && q.op != "issue_join_token" ==>
              Word(CommandFor(ctx, q).value, name, x) == RequestWord(q, name, x)
    ensures CommandFor(ctx, q).Ok? && q.op == "issue_join_token" ==>
              && CommandFor(ctx, q).value.IssueJoinToken?
              && var (token, asked) := (CommandFor(ctx, q).value.token, q.joinToken.value);
                 && token.network == ctx.network && token.clusterId == ctx.clusterId && token.kid == q.kid
                 && token.v == 1 && token.jti == asked.jti && token.audience == asked.audience && token.sig == asked.sig
                 && token.expiresAt == asked.expiresAt && token.bindPeerId == asked.bindPeerId
                 && token.maxUses >= 1 && (asked.maxUses >= 1 ==> token.maxUses == asked.maxUses)
  {
    hide SortedStrings;
    assert forall y :: y in CanonicalPeers(q.peers) <==> y in ToSet(CanonicalPeers(q.peers));
  }

  /** The last word among the requests whose entries were answered as carried out. */
  ghost function LastRequested(env: Env, st: PolicyState, log: seq<LogCommand>, qs: seq<Request>, name: string,
                               x: string): Option<bool>
    requires |qs| == |log|
  {
    if log == [] then None else
      var n := |log| - 1;
      var word := if log[n].command.Admin? && qs[n].op != "issue_join_token" then RequestWord(qs[n], name, x) else None;
      if Carried(ResultAt(env, st, log, n)) && word.Some? then word
      else LastRequested(env, st, log[..n], qs[..n], name, x)
  }

  /** No service command reaches the log but through a request. */
  predicate OnlyRequestsEdit(log: seq<LogCommand>) {
    forall i :: 0 <= i < |log| ==> !log[i].command.Service?
  }

  lemma {:induction false} RequestedIsLastWord(env: Env, h: Hasher, ctx: Context, st: PolicyState, log: seq<LogCommand>,
                                               qs: seq<Request>, name: string, x: string)
    requires FromRequests(h, ctx, log, qs) && OnlyRequestsEdit(log)
    ensures LastWord(env, st, log, name, x) == LastRequested(env, st, log, qs, name, x)
  {
    hide Fold, Apply, Carried, Word, CommandFor, RequestWord, RequestHash;
    if log != [] {
      var n := |log| - 1;
      assert FromRequests(h, ctx, log[..n], qs[..n]);
      RequestedIsLastWord(env, h, ctx, st, log[..n], qs[..n], name, x);
      if log[n].command.Admin? {
        assert ProposedFor(h, ctx, log[n].command, qs[n]);
        CommandSaysRequest(ctx, qs[n], name, x);
      }
      WordOfOthers(log[n].command, name, x);
    }
  }

  lemma WordOfOthers(cmd: Command, name: string, x: string)
    ensures !Bare(cmd).Service? ==> Word(Bare(cmd), name, x) == None
    ensures !cmd.Admin? ==> Bare(cmd) == cmd
  {}

  /**
   From requests to whitelists: after any log made of admin requests, a peer is on a whitelist exactly when the last
   carried-out request that says anything about it there, by its operation and its peers, says so.
   */
  lemma LastRequestDecides(env: Env, h: Hasher, ctx: Context, st: PolicyState, log: seq<LogCommand>,
                           qs: seq<Request>, name: string, x: string)
    requires FromRequests(h, ctx, log, qs) && OnlyRequestsEdit(log)
    ensures OnList(Fold(env, st, log).services, name, x) ==
            var word := LastRequested(env, st, log, qs, name, x);
            if word.Some? then word.value else OnList(st.services, name, x)
  {
    RequestedIsLastWord(env, h, ctx, st, log, qs, name, x);
    LastWordDecides(env, st, log, name, x);
  }
}
