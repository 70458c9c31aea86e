/** What the policy epoch promises along a log (src/raft/state_machine.rs). */
module PolicyEpochs {
  import opened Common
  import opened StoreModel
  import opened PolicyModel

  /** Everything a publication is made of. */
  datatype Content = Content(
    network: string, services: map<string, ServiceState>, tombstones: map<string, u64>, indexExpiresAt: u64)

  function ContentOf(st: PolicyState): Content {
    Content(st.network, st.services, st.tombstones, st.indexExpiresAt)
  }

  /** One command never lowers the epoch, and leaves the content alone when it leaves the epoch alone. */
  lemma InnerEpoch(env: Env, st: PolicyState, cmd: Command)
    ensures var next := Inner(env, st, cmd).0;
            && st.policyEpoch <= next.policyEpoch <= SatInc(st.policyEpoch)
            && (ContentOf(next) != ContentOf(st) ==> next.policyEpoch == SatInc(st.policyEpoch))
  {}

  lemma StepEpoch(env: Env, st: PolicyState, cmd: Command, index: u64)
    ensures var next := Apply(env, st, cmd, index).0;
            && st.policyEpoch <= next.policyEpoch <= SatInc(st.policyEpoch)
            && (ContentOf(next) != ContentOf(st) ==> next.policyEpoch == SatInc(st.policyEpoch))
  {
    InnerEpoch(env, st, if cmd.Admin? then cmd.command else cmd);
  }

  lemma {:induction false} FoldEpoch(env: Env, st: PolicyState, log: seq<LogCommand>)
    ensures st.policyEpoch <= Fold(env, st, log).policyEpoch
    ensures Fold(env, st, log).policyEpoch == st.policyEpoch < U64_MAX ==>
              ContentOf(Fold(env, st, log)) == ContentOf(st)
  {
    if log != [] {
      var last := log[|log| - 1];
      FoldEpoch(env, st, log[..|log| - 1]);
      StepEpoch(env, Fold(env, st, log[..|log| - 1]), last.command, last.index);
    }
  }

  /**
   Two nodes that applied prefixes of one log and stand at the same epoch, below
   u64::MAX, hold the same network, services, tombstones and expiry; and a node
   that applied more never stands lower.
   */
  lemma OneEpochOneContent(env: Env, st: PolicyState, log: seq<LogCommand>, i: nat, j: nat)
    requires i <= j <= |log|
    ensures Fold(env, st, log[..i]).policyEpoch <= Fold(env, st, log[..j]).policyEpoch
    ensures Fold(env, st, log[..i]).policyEpoch == Fold(env, st, log[..j]).policyEpoch < U64_MAX ==>
              ContentOf(Fold(env, st, log[..i])) == ContentOf(Fold(env, st, log[..j]))
  {
    FoldSplit(env, st, log[..j], i);
    assert log[..j][..i] == log[..i];
    FoldEpoch(env, Fold(env, st, log[..i]), log[..j][i..]);
  }

  /** At u64::MAX the epoch no longer tells contents apart: the bound is exact. */
  lemma EpochExhausted(env: Env, st: PolicyState)
    requires st.policyEpoch == U64_MAX && st.indexExpiresAt == 1
    ensures var next := Apply(env, st, RenewIndex(2), 1).0;
            next.policyEpoch == st.policyEpoch && ContentOf(next) != ContentOf(st)
  {}
}
