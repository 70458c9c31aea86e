/**
 Voters and the authority seed (src/service.rs, `execute_member_write`, and src/raft/mod.rs): the
 membership operations as the handler drives them, one call to Raft or to another node at a time.
 */
module Seeds {
  import opened Common

  /** The membership and who holds the seed, as seen from the node that runs the handler. */
  datatype Group = Group(self: u64, voters: set<u64>, learners: set<u64>, keyed: set<u64>, seeds: set<u64>)

  /** A call to Raft or to another node: one that reports failure may still have taken effect. */
  datatype Call = Done | Failed(took: bool)

  predicate Took(c: Call) { c.Done? || c.took }

  datatype Error =
    | AlreadyMember | MissingIdentity | NotFound | AlreadyVoter | MissingKey | NotVoter | LastVoter | TransferFailed
    | SeedDeliveryFailed | SeedRemoveFailed | RaftFailed

  datatype Outcome = Outcome(group: Group, result: Result<(), Error>)

  function Gives(g: Group, t: u64, c: Call): Group {
    if Took(c) then g.(seeds := g.seeds + {t}) else g
  }

  function Drops(g: Group, t: u64, c: Call): Group {
    if Took(c) then g.(seeds := g.seeds - {t}) else g
  }

  /** `remaining_voters`: refuses to leave no voter. */
  function RemainingVoters(voters: set<u64>, t: u64): (r: Option<set<u64>>)
    ensures r.Some? ==> r.value != {} && t !in r.value && r.value + {t} == voters + {t}
    ensures r.None? <==> voters <= {t}
  {
    var rest := voters - {t};
    if rest == {} then None else Some(rest)
  }

  function AddLearner(g: Group, t: u64, hasKey: bool, hasIdentity: bool, add: Call): Outcome {
    if t in g.voters + g.learners then Outcome(g, Err(AlreadyMember))
    else if !hasIdentity then Outcome(g, Err(MissingIdentity))
    else
      var next := if Took(add)
                  then g.(learners := g.learners + {t}, keyed := if hasKey then g.keyed + {t} else g.keyed - {t})
                    else g;
      Outcome(next, if add.Done? then Ok(()) else Err(RaftFailed))
  }

  /** Seed first, then the vote; a failed promotion tries to take the seed back. */
  function PromoteVoter(g: Group, t: u64, deliver: Call, catchUp: bool, change: Call, rollback: Call): Outcome {
    if t !in g.voters + g.learners then Outcome(g, Err(NotFound))
    else if t in g.voters then Outcome(g, Err(AlreadyVoter))
    else if t !in g.keyed then Outcome(g, Err(MissingKey))
    else if g.self !in g.seeds then Outcome(g, Err(SeedDeliveryFailed))
    else
      var given := Gives(g, t, deliver);
      if !deliver.Done? then Outcome(given, Err(SeedDeliveryFailed))
      else
        var changed := if catchUp && Took(change)
                       then given.(voters := given.voters + {t}, learners := given.learners - {t}) else given;
        if catchUp && change.Done? then Outcome(changed, Ok(()))
        else Outcome(Drops(changed, t, rollback), Err(RaftFailed))
  }

  /** Vote first, then the seed: of the node itself from its file, of another node by a request. */
  function DemoteVoter(g: Group, t: u64, leader: bool, transfer: bool, change: Call, drop: Call): Outcome {
    if t !in g.voters then Outcome(g, Err(NotVoter))
    else if RemainingVoters(g.voters, t).None? then Outcome(g, Err(LastVoter))
    else if t == g.self && leader && !transfer then Outcome(g, Err(TransferFailed))
    else
      var changed := if Took(change)
                     then g.(voters := RemainingVoters(g.voters, t).value, learners := g.learners + {t}) else g;
      if !change.Done? then Outcome(changed, Err(RaftFailed))
      else Outcome(Drops(changed, t, drop), if drop.Done? then Ok(()) else Err(SeedRemoveFailed))
  }

  /** The Raft part of a removal: a voter is demoted first, then the learner is taken out. */
  function RemoveNode(g: Group, t: u64, leader: bool, transfer: bool, change: Call, remove: Call): Outcome {
    if t == g.self && leader && !transfer then Outcome(g, Err(TransferFailed))
    else if t in g.voters && RemainingVoters(g.voters, t).None? then Outcome(g, Err(LastVoter))
    else
      var demoted := if t in g.voters && Took(change)
                     then g.(voters := RemainingVoters(g.voters, t).value, learners := g.learners + {t}) else g;
      if t in g.voters && !change.Done? then Outcome(demoted, Err(RaftFailed))
      else
        var removed := if Took(remove) then demoted.(learners := demoted.learners - {t}) else demoted;
        Outcome(removed, if remove.Done? then Ok(()) else Err(RaftFailed))
  }

  /** A remote voter loses its seed first and gets it back when the removal fails; the node itself loses it last. */
  function RemoveMember(g: Group, t: u64, leader: bool, drop: Call, transfer: bool, change: Call, remove: Call,
      restore: Call): Outcome {
    var remoteVoter := t in g.voters && t != g.self;
    if t !in g.voters + g.learners then Outcome(g, Err(NotFound))
    else
      var dropped := if remoteVoter then Drops(g, t, drop) else g;
      if remoteVoter && !drop.Done? then Outcome(dropped, Err(SeedRemoveFailed))
      else
        var o := RemoveNode(dropped, t, leader, transfer, change, remove);
        if o.result.Err? then
          if remoteVoter && o.group.self in o.group.seeds && t in o.group.voters + o.group.learners
          then Outcome(Gives(o.group, t, restore), Err(RaftFailed)) else Outcome(o.group, Err(RaftFailed))
        else if t in g.voters && t == g.self then
          Outcome(Drops(o.group, t, drop), if drop.Done? then Ok(()) else Err(SeedRemoveFailed))
        else o
  }

  // ---------------------------------------------------------------- runs of operations

  datatype Op =
    | Add(t: u64, hasKey: bool, hasIdentity: bool, add: Call)
    | Promote(t: u64, deliver: Call, catchUp: bool, change: Call, rollback: Call)
    | Demote(t: u64, leader: bool, transfer: bool, change: Call, drop: Call)
    | Remove(t: u64, leader: bool, drop: Call, transfer: bool, change: Call, remove: Call, restore: Call)

  function Perform(g: Group, op: Op): Outcome {
    match op
    case Add(t, hasKey, hasIdentity, add) => AddLearner(g, t, hasKey, hasIdentity, add)
    case Promote(t, deliver, catchUp, change, rollback) => PromoteVoter(g, t, deliver, catchUp, change, rollback)
    case Demote(t, leader, transfer, change, drop) => DemoteVoter(g, t, leader, transfer, change, drop)
    case Remove(t, leader, drop, transfer, change, remove, restore) =>
      RemoveMember(g, t, leader, drop, transfer, change, remove, restore)
  }

  ghost predicate GroupOk(g: Group) {
    g.voters != {} && g.voters !! g.learners
  }

  /** Whatever fails, some voter remains and nobody is voter and learner at once. */
  lemma StepKeepsVoters(g: Group, op: Op)
    requires GroupOk(g)
    ensures GroupOk(Perform(g, op).group)
  {}

  predicate Balanced(g: Group, x: u64) {
    x in g.seeds <==> x in g.voters
  }

  /** An operation touches votes and seeds of its own node only, and leaves that node balanced if it reports success. */
  lemma StepConfined(g: Group, op: Op, x: u64)
    requires GroupOk(g)
    ensures var o := Perform(g, op);
            && (x != op.t ==> (x in o.group.seeds <==> x in g.seeds) && (x in o.group.voters <==> x in g.voters))
            && (o.result.Ok? && Balanced(g, op.t) ==> Balanced(o.group, op.t))
  {}

  /**
   What success means: a node added is a learner, one promoted votes and holds the seed, one demoted is a learner
   without vote and seed, one removed is no member and, if it voted, holds no seed.
   */
  lemma SuccessMeans(g: Group, op: Op)
    requires GroupOk(g) && Perform(g, op).result.Ok?
    ensures var next := Perform(g, op).group;
            match op
            case Add(t, hasKey, _, _) => t in next.learners && t !in next.voters && (t in next.keyed <==> hasKey)
            case Promote(t, _, _, _, _) => t in next.voters && t in next.seeds && t !in next.learners
            case Demote(t, _, _, _, _) => t in next.learners && t !in next.voters && t !in next.seeds
            case Remove(t, _, _, _, _, _, _) =>
              t !in next.voters && t !in next.learners && (t in g.voters ==> t !in next.seeds)
  {}

  /** When an operation succeeds: its node is what it must be and every call it needs is done. */
  lemma SuccessIff(g: Group, op: Op)
    requires GroupOk(g)
    ensures Perform(g, op).result.Ok? <==>
            match op
            case Add(t, _, hasIdentity, add) => t !in g.voters && t !in g.learners && hasIdentity && add.Done?
            case Promote(t, deliver, catchUp, change, _) =>
              t in g.learners && t in g.keyed && g.self in g.seeds && deliver.Done? && catchUp && change.Done?
            case Demote(t, leader, transfer, change, drop) =>
              && t in g.voters && g.voters != {t} && (t == g.self && leader ==> transfer)
              && change.Done? && drop.Done?
            case Remove(t, leader, drop, transfer, change, remove, _) =>
              && (t in g.voters || t in g.learners) && g.voters != {t} && (t == g.self && leader ==> transfer)
              && (t in g.voters ==> drop.Done? && change.Done?) && remove.Done?
  {}

  /** Each operation is started on the node that runs it, on the group the previous one left. */
  function Run(g: Group, ops: seq<(u64, Op)>): Group {
    if ops == [] then g else
      var last := ops[|ops| - 1];
      Perform(Run(g, ops[..|ops| - 1]).(self := last.0), last.1).group
  }

  /** The nodes that some operation of the run failed on. */
  function FailedOn(g: Group, ops: seq<(u64, Op)>): set<u64> {
    if ops == [] then {} else
      var last := ops[|ops| - 1];
      FailedOn(g, ops[..|ops| - 1])
      + if Perform(Run(g, ops[..|ops| - 1]).(self := last.0), last.1).result.Err? then {last.1.t} else {}
  }

  /** In every run of non-overlapping operations, on any nodes and with any failures, the voter set is never empty. */
  lemma {:induction false} VotersNeverEmpty(g: Group, ops: seq<(u64, Op)>)
    requires GroupOk(g)
    ensures GroupOk(Run(g, ops))
  {
    if ops != [] {
      var last := ops[|ops| - 1];
      VotersNeverEmpty(g, ops[..|ops| - 1]);
      StepKeepsVoters(Run(g, ops[..|ops| - 1]).(self := last.0), last.1);
    }
  }

  /**
   Over any run of non-overlapping operations, whatever fails: seed holders and voters can differ only on nodes that an
   operation failed on.
   */
  lemma {:induction false} DamageConfined(g: Group, ops: seq<(u64, Op)>, x: u64)
    requires GroupOk(g) && g.seeds == g.voters && x !in FailedOn(g, ops)
    ensures Balanced(Run(g, ops), x)
  {
    if ops != [] {
      var last := ops[|ops| - 1];
      DamageConfined(g, ops[..|ops| - 1], x);
      VotersNeverEmpty(g, ops[..|ops| - 1]);
      StepConfined(Run(g, ops[..|ops| - 1]).(self := last.0), last.1, x);
    }
  }

  /** Seed holders stay equal to the voters over any run whose operations all report success. */
  lemma SeedsFollowVoters(g: Group, ops: seq<(u64, Op)>)
    requires GroupOk(g) && g.seeds == g.voters && FailedOn(g, ops) == {}
    ensures Run(g, ops).seeds == Run(g, ops).voters
  {
    forall x ensures x in Run(g, ops).seeds <==> x in Run(g, ops).voters { DamageConfined(g, ops, x); }
  }

  // ---------------------------------------------------------------- after a failure

  /**
   A promotion that passed its checks and failed leaves seeds and voters equal exactly when what the lost calls
   did cancels out: a delivery that did nothing, or a rollback that undid it unless the vote went through.
   */
  lemma FailedPromotionBalancedIff(g: Group, t: u64, deliver: Call, catchUp: bool, change: Call, rollback: Call)
    requires GroupOk(g) && g.seeds == g.voters && g.self in g.voters && t in g.learners && t in g.keyed
    requires PromoteVoter(g, t, deliver, catchUp, change, rollback).result.Err?
    ensures var next := PromoteVoter(g, t, deliver, catchUp, change, rollback).group;
            next.seeds == next.voters <==>
              if !deliver.Done? then !Took(deliver) else Took(rollback) != (catchUp && Took(change))
  {
    var next := PromoteVoter(g, t, deliver, catchUp, change, rollback).group;
    assert t !in g.voters;
    assert t in next.seeds <==> Took(deliver) && !(deliver.Done? && Took(rollback));
    assert t in next.voters <==> deliver.Done? && catchUp && Took(change);
    assert next.seeds - {t} == g.seeds - {t} && next.voters - {t} == g.voters - {t};
    AgreeElsewhere(next.seeds, next.voters, t);
  }

  /** A demotion that passed its checks leaves them equal exactly when vote and seed went together. */
  lemma DemotionBalancedIff(g: Group, t: u64, leader: bool, transfer: bool, change: Call, drop: Call)
    requires GroupOk(g) && g.seeds == g.voters && t in g.voters && RemainingVoters(g.voters, t).Some?
    requires t == g.self && leader ==> transfer
    ensures var next := DemoteVoter(g, t, leader, transfer, change, drop).group;
            next.seeds == next.voters <==> Took(change) == (change.Done? && Took(drop))
  {
    var next := DemoteVoter(g, t, leader, transfer, change, drop).group;
    assert t in next.seeds <==> !(change.Done? && Took(drop));
    assert t in next.voters <==> !Took(change);
    assert next.seeds - {t} == g.seeds - {t} && next.voters - {t} == g.voters - {t};
    AgreeElsewhere(next.seeds, next.voters, t);
  }

  /**
   The removal of a remote voter leaves them equal exactly when: a lost drop did nothing, or a restored seed went
   with a vote that stayed, or the node was gone before its seed could be restored. In particular, when the vote is
   taken but the node cannot be taken out, a restore that works leaves a learner with the seed.
   */
  lemma RemovalBalancedIff(g: Group, t: u64, leader: bool, drop: Call, transfer: bool, change: Call, remove: Call,
      restore: Call)
    requires GroupOk(g) && g.seeds == g.voters && g.self in g.voters && t in g.voters && t != g.self
    ensures var next := RemoveMember(g, t, leader, drop, transfer, change, remove, restore).group;
            next.seeds == next.voters <==>
              if !drop.Done? then !Took(drop)
              else if !change.Done? then Took(restore) != Took(change)
              else Took(remove) || !Took(restore)
  {
    var next := RemoveMember(g, t, leader, drop, transfer, change, remove, restore).group;
    assert g.self in g.voters - {t};
    assert t in next.seeds <==>
           if !drop.Done? then !Took(drop)
           else if !change.Done? then Took(restore)
           else !Took(remove) && Took(restore);
    assert t in next.voters <==> !drop.Done? || !Took(change);
    assert next.seeds - {t} == g.seeds - {t} && next.voters - {t} == g.voters - {t};
    AgreeElsewhere(next.seeds, next.voters, t);
  }

  const PAIR := Group(1, {1, 2}, {}, {2}, {1, 2})

  /** The vote is gone, the node could not be taken out, its seed was given back: no reply was lost. */
  lemma RemovalLeavesSeed()
    ensures var o := RemoveMember(PAIR, 2, true, Done, true, Done, Failed(false), Done);
            o.result.Err? && 2 in o.group.seeds && 2 !in o.group.voters
  {}

  /** The seed was delivered, the vote refused, and the request to drop the seed did not get through. */
  lemma PromotionLeavesSeed()
    ensures var o := PromoteVoter(Group(1, {1}, {2}, {2}, {1}), 2, Done, true, Failed(false), Failed(false));
            o.result.Err? && 2 in o.group.seeds && 2 !in o.group.voters
  {}

  /** The vote was taken and the request to drop the seed did not get through. */
  lemma DemotionLeavesSeed()
    ensures var o := DemoteVoter(PAIR, 2, true, true, Done, Failed(false));
            o.result.Err? && 2 in o.group.seeds && 2 !in o.group.voters
  {}

  lemma AgreeElsewhere(a: set<u64>, b: set<u64>, t: u64)
    requires a - {t} == b - {t}
    ensures a == b <==> (t in a <==> t in b)
  {
    if t in a <==> t in b {
      forall x ensures x in a <==> x in b {
        assert x != t ==> (x in a <==> x in a - {t});
      }
    }
  }
}
