/** Join tokens along a log: uses are counted exactly and never exceed the limit (src/raft/state_machine.rs). */
module JoinTokens {
  import opened Common
  import opened PolicyModel

  /** The answer tells the proposer that the command was carried out now. */
  predicate Carried(r: PolicyResult) {
    r.Applied? || (r.AdminResult? && !r.duplicate && r.outcome.Accepted?)
  }

  /** Entry `p` is a consumption of `jti` that was answered as carried out. */
  ghost predicate Consumes(env: Env, st: PolicyState, log: seq<LogCommand>, p: nat, jti: string)
    requires p < |log|
  {
    && Bare(log[p].command).ConsumeJoinToken?
    && Bare(log[p].command).jti == jti
    && Carried(ResultAt(env, st, log, p))
  }

  ghost function ConsumedCount(env: Env, st: PolicyState, log: seq<LogCommand>, jti: string): nat {
    if log == [] then 0 else
      ConsumedCount(env, st, log[..|log| - 1], jti) + if Consumes(env, st, log, |log| - 1, jti) then 1 else 0
  }

  function UsesOf(st: PolicyState, jti: string): nat {
    if jti in st.joinTokens then st.joinTokens[jti].uses else 0
  }

  ghost predicate TokensOk(st: PolicyState) {
    forall jti :: jti in st.joinTokens ==>
      && st.joinTokens[jti].uses <= st.joinTokens[jti].token.maxUses
      && st.joinTokens[jti].token.jti == jti
  }

  /** What one command does to one token: keeps its terms, and counts a use exactly when it says so. */
  lemma InnerToken(env: Env, st: PolicyState, cmd: Command, jti: string)
    requires TokensOk(st)
    ensures var (next, outcome) := Inner(env, st, cmd);
            && TokensOk(next)
            && (jti in st.joinTokens ==>
              jti in next.joinTokens && next.joinTokens[jti].token == st.joinTokens[jti].token)
            && (cmd.ConsumeJoinToken? && cmd.jti == jti && outcome.Accepted? ==>
                  && jti in st.joinTokens
                  && UsesOf(next, jti) == UsesOf(st, jti) + 1
                  && Honours(st.joinTokens[jti].token, cmd))
            && (!(cmd.ConsumeJoinToken? && cmd.jti == jti && outcome.Accepted?) ==>
              UsesOf(next, jti) == UsesOf(st, jti))
  {}

  /** The consumption is within the terms of the token. */
  predicate Honours(token: JoinToken, cmd: Command)
    requires cmd.ConsumeJoinToken?
  {
    && token.jti == cmd.jti
    && token.expiresAt != 0 && cmd.usedAt <= token.expiresAt
    && (token.bindPeerId == "" || token.bindPeerId == cmd.peerId)
  }

  lemma StepToken(env: Env, st: PolicyState, cmd: Command, index: u64, jti: string)
    requires TokensOk(st)
    ensures var (next, r) := Apply(env, st, cmd, index);
            var counts := Bare(cmd).ConsumeJoinToken? && Bare(cmd).jti == jti && Carried(r);
            && TokensOk(next)
            && (jti in st.joinTokens ==>
              jti in next.joinTokens && next.joinTokens[jti].token == st.joinTokens[jti].token)
            && UsesOf(next, jti) == UsesOf(st, jti) + (if counts then 1 else 0)
            && (counts ==> jti in st.joinTokens && Honours(st.joinTokens[jti].token, Bare(cmd)))
  {
    InnerToken(env, st, Bare(cmd), jti);
  }

  /**
   Along any log from a state without tokens: the uses of a token are exactly the
   consumptions that were answered as carried out, and at most its limit.
   */
  lemma {:induction false} UsesAreConsumptions(env: Env, st: PolicyState, log: seq<LogCommand>, jti: string)
    requires st.joinTokens == map[]
    ensures TokensOk(Fold(env, st, log))
    ensures UsesOf(Fold(env, st, log), jti) == ConsumedCount(env, st, log, jti)
    ensures jti in Fold(env, st, log).joinTokens ==>
              ConsumedCount(env, st, log, jti) <= Fold(env, st, log).joinTokens[jti].token.maxUses
  {
    if log != [] {
      var prefix := log[..|log| - 1];
      UsesAreConsumptions(env, st, prefix, jti);
      StepToken(env, Fold(env, st, prefix), log[|log| - 1].command, log[|log| - 1].index, jti);
    }
  }

  /** A token once recorded keeps its terms and is never removed or issued again. */
  lemma {:induction false} TokenTermsFixed(env: Env, st: PolicyState, log: seq<LogCommand>, i: nat, jti: string)
    requires st.joinTokens == map[] && i <= |log| && jti in Fold(env, st, log[..i]).joinTokens
    ensures jti in Fold(env, st, log).joinTokens
    ensures Fold(env, st, log).joinTokens[jti].token == Fold(env, st, log[..i]).joinTokens[jti].token
  {
    if i == |log| {
      assert log[..i] == log;
    } else {
      var prefix := log[..|log| - 1];
      assert prefix[..i] == log[..i];
      TokenTermsFixed(env, st, prefix, i, jti);
      UsesAreConsumptions(env, st, prefix, jti);
      StepToken(env, Fold(env, st, prefix), log[|log| - 1].command, log[|log| - 1].index, jti);
    }
  }

  /** Every counted consumption was within the terms the token still has at the end. */
  lemma ConsumptionHonoursToken(env: Env, st: PolicyState, log: seq<LogCommand>, p: nat, jti: string)
    requires st.joinTokens == map[] && p < |log| && Consumes(env, st, log, p, jti)
    ensures jti in Fold(env, st, log).joinTokens
    ensures Honours(Fold(env, st, log).joinTokens[jti].token, Bare(log[p].command))
  {
    UsesAreConsumptions(env, st, log[..p], jti);
    StepToken(env, Fold(env, st, log[..p]), log[p].command, log[p].index, jti);
    TokenTermsFixed(env, st, log, p, jti);
  }

  /** Entry `p` is the issue of a token under `jti` that was answered as carried out. */
  ghost predicate Issues(env: Env, st: PolicyState, log: seq<LogCommand>, p: nat, jti: string) {
    && p < |log|
    && Bare(log[p].command).IssueJoinToken?
    && Bare(log[p].command).token.jti == jti
    && Carried(ResultAt(env, st, log, p))
  }

  lemma InnerIssues(env: Env, st: PolicyState, cmd: Command, jti: string)
    ensures var (next, outcome) := Inner(env, st, cmd);
            var issues := cmd.IssueJoinToken? && cmd.token.jti == jti && outcome.Accepted?;
            && (jti in next.joinTokens <==> jti in st.joinTokens || issues)
            && (issues ==> jti !in st.joinTokens && next.joinTokens[jti] == StoredJoinToken(cmd.token, 0))
  {}

  lemma StepIssues(env: Env, st: PolicyState, cmd: Command, index: u64, jti: string)
    ensures var (next, r) := Apply(env, st, cmd, index);
            var issues := Bare(cmd).IssueJoinToken? && Bare(cmd).token.jti == jti && Carried(r);
            && (jti in next.joinTokens <==> jti in st.joinTokens || issues)
            && (issues ==> jti !in st.joinTokens && next.joinTokens[jti] == StoredJoinToken(Bare(cmd).token, 0))
  {
    hide Inner, Prune;
    InnerIssues(env, st, Bare(cmd), jti);
  }

  /**
   Along any log a token is recorded exactly when some entry issued it and was answered as carried out, with exactly
   the terms of that entry; and only one entry ever is.
   */
  lemma {:induction false} TokenOrigin(env: Env, st: PolicyState, log: seq<LogCommand>, jti: string)
    requires st.joinTokens == map[]
    ensures jti in Fold(env, st, log).joinTokens <==> exists p: nat :: Issues(env, st, log, p, jti)
    ensures forall p: nat :: Issues(env, st, log, p, jti) ==>
              Fold(env, st, log).joinTokens[jti].token == Bare(log[p].command).token
    ensures forall p: nat, q: nat :: Issues(env, st, log, p, jti) && Issues(env, st, log, q, jti) ==> p == q
  {
    hide Apply, Carried, Bare, TokensOk, UsesOf, ConsumedCount, Honours;
    if log != [] {
      var n := |log| - 1;
      TokenOrigin(env, st, log[..n], jti);
      UsesAreConsumptions(env, st, log[..n], jti);
      StepToken(env, Fold(env, st, log[..n]), log[n].command, log[n].index, jti);
      StepIssues(env, Fold(env, st, log[..n]), log[n].command, log[n].index, jti);
      forall p: nat | p < n ensures Issues(env, st, log, p, jti) <==> Issues(env, st, log[..n], p, jti) {
        assert log[..n][..p] == log[..p];
      }
      assert Issues(env, st, log, n, jti) ==> jti !in Fold(env, st, log[..n]).joinTokens;
      if jti in Fold(env, st, log[..n]).joinTokens {
        var p: nat :| Issues(env, st, log[..n], p, jti);
        assert Issues(env, st, log, p, jti);
      }
    }
  }

  /**
   A consumption that is not a retry is carried out exactly when its token was issued before, fewer consumptions than
   its limit were carried out so far, and it keeps to the terms of the token.
   */
  lemma ConsumptionIff(env: Env, st: PolicyState, log: seq<LogCommand>, p: nat)
    requires st.joinTokens == map[] && p < |log| && Bare(log[p].command).ConsumeJoinToken?
    requires log[p].command.Admin? ==> log[p].command.requestId !in Fold(env, st, log[..p]).dedup
    ensures var cmd := Bare(log[p].command);
            var tokens := Fold(env, st, log[..p]).joinTokens;
            Consumes(env, st, log, p, cmd.jti) <==>
              && cmd.jti in tokens
              && ConsumedCount(env, st, log[..p], cmd.jti) < tokens[cmd.jti].token.maxUses
              && Honours(tokens[cmd.jti].token, cmd)
  {
    UsesAreConsumptions(env, st, log[..p], Bare(log[p].command).jti);
  }

  lemma InnerKeepsNetwork(env: Env, st: PolicyState, cmd: Command)
    ensures Inner(env, st, cmd).0.network == st.network
  {}

  lemma {:induction false} NetworkFixed(env: Env, st: PolicyState, log: seq<LogCommand>)
    ensures Fold(env, st, log).network == st.network
  {
    hide Inner, Prune;
    if log != [] {
      NetworkFixed(env, st, log[..|log| - 1]);
      InnerKeepsNetwork(env, Fold(env, st, log[..|log| - 1]), Bare(log[|log| - 1].command));
    }
  }

  /**
   An issue that is not a retry is carried out exactly when it has version 1, an id that is more than blanks, at least
   one use, the network of the state, and no entry before it issued that id.
   */
  lemma IssueIff(env: Env, st: PolicyState, log: seq<LogCommand>, p: nat)
    requires st.joinTokens == map[] && p < |log| && Bare(log[p].command).IssueJoinToken?
    requires log[p].command.Admin? ==> log[p].command.requestId !in Fold(env, st, log[..p]).dedup
    ensures var token := Bare(log[p].command).token;
            Issues(env, st, log, p, token.jti) <==>
              && token.v == 1
              && (exists c :: c in token.jti && !IsSpace(c))
              && token.maxUses >= 1
              && token.network == st.network
              && forall q: nat :: q < p ==> !Issues(env, st, log, q, token.jti)
  {
    hide Fold, Prune;
    var jti := Bare(log[p].command).token.jti;
    NetworkFixed(env, st, log[..p]);
    TokenOrigin(env, st, log[..p], jti);
    forall q: nat | q < p ensures Issues(env, st, log, q, jti) <==> Issues(env, st, log[..p], q, jti) {
      assert log[..p][..q] == log[..q];
    }
  }

  /** Which obstacle the answer to a refused token command names: the first in the order of the clauses. */
  lemma TokenCodes(env: Env, st: PolicyState, cmd: Command)
    requires cmd.IssueJoinToken? || cmd.ConsumeJoinToken?
    requires Inner(env, st, cmd).1.Refused?
    ensures var code := Inner(env, st, cmd).1.code;
            if cmd.IssueJoinToken? then
              var token := cmd.token;
              && (code == CodeTokenBadVersion <==> token.v != 1)
              && (code == CodeTokenBadJti ==> forall c :: c in token.jti ==> IsSpace(c))
              && (code == CodeTokenBadUses ==> token.maxUses == 0)
              && (code == CodeTokenWrongNetwork ==> token.network != st.network)
              && (code == CodeTokenExists <==>
                    && token.v == 1 && !Blank(token.jti) && token.maxUses > 0 && token.network == st.network)
            else
              && (code == CodeTokenUnknown <==> cmd.jti !in st.joinTokens)
              && (code != CodeTokenUnknown ==>
                    var record := st.joinTokens[cmd.jti];
                    && (code == CodeTokenReplayed <==> record.token.maxUses <= record.uses)
                    && (code == CodeTokenWrongPeer ==> record.token.bindPeerId !in {"", cmd.peerId})
                    && (code == CodeTokenExpired ==>
                          && record.token.bindPeerId in {"", cmd.peerId}
                          && (record.token.expiresAt == 0 || record.token.expiresAt < cmd.usedAt)))
  {}
}
