/**
 Member operations that overlap (src/service.rs, `execute_member_write`, and src/raft/mod.rs): every handler reads the
 membership, computes a whole new voter set from what it read, and asks for it later; calls of different handlers mix.
 */
module Overlap {
  import opened Common
  import opened Seeds

  datatype Kind = Promoting | Demoting | Removing

  /** The next thing a handler does; `Changing` holds the voter set computed from the membership read before. */
  datatype Phase =
    | Checking
    | Delivering
    | Dropping
    | Viewing
    | Changing(target: set<u64>)
    | TakingOut
    | Settling(ok: bool)
    | Ended(ok: bool)

  datatype Handler = Handler(self: u64, kind: Kind, t: u64, wasVoter: bool, phase: Phase)

  /** What is not decided here: how a call ends, and whether catching up or the transfer of leadership succeeds. */
  datatype Chance = Chance(call: Call, ready: bool)

  function Members(g: Group): set<u64> { g.voters + g.learners }

  /** `change_membership`: the given set votes, former voters become learners; unknown nodes make it fail. */
  function SetVoters(g: Group, target: set<u64>, c: Call): Group {
    if Took(c) && target <= Members(g) then g.(voters := target, learners := Members(g) - target) else g
  }

  /** One step of a handler: at most one read of the membership or one call. */
  function Advance(g: Group, h: Handler, c: Chance): (Group, Handler) {
    var t := h.t;
    match h.phase
    case Checking =>
      (match h.kind
       case Promoting =>
         (g, h.(phase := if t in g.learners - g.voters && t in g.keyed then Delivering else Ended(false)))
       case Demoting => (g, h.(phase := if t in g.voters then Viewing else Ended(false)))
       case Removing =>
         var remoteVoter := t in g.voters && t != h.self;
         (g, h.(wasVoter := t in g.voters,
                phase := if t !in Members(g) then Ended(false) else if remoteVoter then Dropping else Viewing)))
    case Delivering =>
      if h.self !in g.seeds || t !in Members(g) then (g, h.(phase := Ended(false)))
      else (Gives(g, t, c.call), h.(phase := if c.call.Done? then Viewing else Ended(false)))
    case Dropping =>
      if t !in Members(g) then (g, h.(phase := Ended(false)))
      else (Drops(g, t, c.call), h.(phase := if c.call.Done? then Viewing else Ended(false)))
    case Viewing =>
      (match h.kind
       case Promoting =>
         (g, h.(phase := if t in g.learners - g.voters && c.ready then Changing(g.voters + {t}) else Settling(false)))
       case Demoting =>
         var rest := RemainingVoters(g.voters, t);
         (g, h.(phase := if t in g.voters && rest.Some? && c.ready then Changing(rest.value) else Ended(false)))
       case Removing =>
         var rest := RemainingVoters(g.voters, t);
         (g, h.(phase := if t !in Members(g) || !c.ready || (t in g.voters && rest.None?) then Settling(false)
                         else if t in g.voters then Changing(rest.value) else TakingOut)))
    case Changing(target) =>
      var ok := c.call.Done? && target <= Members(g);
      (SetVoters(g, target, c.call),
       h.(phase := match h.kind
                   case Promoting => if ok then Ended(true) else Settling(false)
                   case Demoting => if ok then Settling(true) else Ended(false)
                   case Removing => if ok then TakingOut else Settling(false)))
    case TakingOut =>
      if t !in Members(g) then (g, h.(phase := Settling(true)))
      else if t in g.voters then (g, h.(phase := Settling(false)))
      else (if Took(c.call) then g.(learners := g.learners - {t}) else g, h.(phase := Settling(c.call.Done?)))
    case Settling(ok) =>
      (match h.kind
       case Promoting => (if t in Members(g) then Drops(g, t, c.call) else g, h.(phase := Ended(false)))
       case Demoting =>
         if t != h.self && t !in Members(g) then (g, h.(phase := Ended(false)))
         else (Drops(g, t, c.call), h.(phase := Ended(c.call.Done?)))
       case Removing =>
         if ok then
           if h.wasVoter && t == h.self then (Drops(g, t, c.call), h.(phase := Ended(c.call.Done?)))
           else (g, h.(phase := Ended(true)))
         else
           (if h.wasVoter && t != h.self && h.self in g.seeds && t in Members(g) then Gives(g, t, c.call) else g,
            h.(phase := Ended(false))))
    case Ended(_) => (g, h)
  }

  // ---------------------------------------------------------------- a handler on its own

  /** How the calls of one operation end; `undo` is the call that takes a delivery or a removed seed back. */
  datatype Calls = Calls(deliver: Call, drop: Call, ready: bool, change: Call, remove: Call, undo: Call)

  function ChanceFor(cs: Calls, phase: Phase): Chance {
    match phase
    case Delivering => Chance(cs.deliver, true)
    case Dropping => Chance(cs.drop, true)
    case Viewing => Chance(Done, cs.ready)
    case Changing(_) => Chance(cs.change, true)
    case TakingOut => Chance(cs.remove, true)
    case Settling(ok) => Chance(if ok then cs.drop else cs.undo, true)
    case _ => Chance(Done, true)
  }

  function Next(r: (Group, Handler), cs: Calls): (Group, Handler) {
    Advance(r.0, r.1, ChanceFor(cs, r.1.phase))
  }

  /** A handler whose steps nothing interrupts; none has more than six. */
  function Alone(g: Group, kind: Kind, t: u64, cs: Calls): (Group, Handler) {
    var start := (g, Handler(g.self, kind, t, false, Checking));
    Next(Next(Next(Next(Next(Next(start, cs), cs), cs), cs), cs), cs)
  }

  predicate EndsAs(r: (Group, Handler), o: Outcome) {
    r.0 == o.group && r.1.phase == Ended(o.result.Ok?)
  }

  /** An operation that nothing interrupts ends as `Seeds` has it: same group, same success. */
  lemma AloneIsPromotion(g: Group, t: u64, cs: Calls)
    requires GroupOk(g)
    ensures EndsAs(Alone(g, Promoting, t, cs), PromoteVoter(g, t, cs.deliver, cs.ready, cs.change, cs.undo))
  {}

  lemma AloneIsDemotion(g: Group, t: u64, leader: bool, transfer: bool, cs: Calls)
    requires GroupOk(g) && cs.ready == (t == g.self && leader ==> transfer)
    ensures EndsAs(Alone(g, Demoting, t, cs), DemoteVoter(g, t, leader, transfer, cs.change, cs.drop))
  {}

  lemma RemovalOpens(g: Group, t: u64, cs: Calls)
    requires GroupOk(g)
    ensures var h := Handler(g.self, Removing, t, t in g.voters, Viewing);
            var r := Next((g, Handler(g.self, Removing, t, false, Checking)), cs);
            if t !in Members(g) then r == (g, h.(phase := Ended(false)))
            else if t in g.voters && t != g.self then
              Next(r, cs) == (Drops(g, t, cs.drop), h.(phase := if cs.drop.Done? then Viewing else Ended(false)))
            else r == (g, h)
  {}

  /** The Raft part of a removal, from the reading of the membership on, and then what is done about the seed. */
  lemma RemovalCloses(g: Group, h: Handler, leader: bool, transfer: bool, cs: Calls)
    requires GroupOk(g) && h.kind.Removing? && h.phase.Viewing? && h.t in Members(g)
    requires cs.ready == (h.t == g.self && leader ==> transfer)
    ensures var o := RemoveNode(g, h.t, leader, transfer, cs.change, cs.remove);
            Next(Next(Next(Next((g, h), cs), cs), cs), cs) == Next((o.group, h.(phase := Settling(o.result.Ok?))), cs)
  {
    var rest := RemainingVoters(g.voters, h.t);
    if h.t in g.voters && rest.Some? {
      assert Members(g) - rest.value == g.learners + {h.t};
      assert rest.value <= Members(g);
    }
  }

  lemma AloneIsRemoval(g: Group, t: u64, leader: bool, transfer: bool, cs: Calls)
    requires GroupOk(g) && cs.ready == (t == g.self && leader ==> transfer)
    ensures EndsAs(Alone(g, Removing, t, cs),
                   RemoveMember(g, t, leader, cs.drop, transfer, cs.change, cs.remove, cs.undo))
  {
    RemovalOpens(g, t, cs);
    var r := Next((g, Handler(g.self, Removing, t, false, Checking)), cs);
    if t in g.voters && t != g.self {
      r := Next(r, cs);
    }
    if r.1.phase.Viewing? {
      RemovalCloses(r.0, r.1, leader, transfer, cs);
    }
  }

  /** A handler that ends in success on its own has done what it was asked for. */
  lemma AloneSuccessMeans(g: Group, kind: Kind, t: u64, cs: Calls)
    requires GroupOk(g) && Alone(g, kind, t, cs).1.phase == Ended(true)
    ensures var next := Alone(g, kind, t, cs).0;
            match kind
            case Promoting => t in next.voters && t in next.seeds && t !in next.learners
            case Demoting => t in next.learners && t !in next.voters && t !in next.seeds
            case Removing => t !in next.voters && t !in next.learners && (t in g.voters ==> t !in next.seeds)
  {
    hide Alone;
    match kind
    case Promoting =>
      AloneIsPromotion(g, t, cs);
      SuccessMeans(g, Promote(t, cs.deliver, cs.ready, cs.change, cs.undo));
    case Demoting =>
      NotReadyFails(g, kind, t, cs);
      AloneIsDemotion(g, t, true, true, cs);
      SuccessMeans(g, Demote(t, true, true, cs.change, cs.drop));
    case Removing =>
      NotReadyFails(g, kind, t, cs);
      AloneIsRemoval(g, t, true, true, cs);
      SuccessMeans(g, Remove(t, true, cs.drop, true, cs.change, cs.remove, cs.undo));
  }

  lemma NotReadyFails(g: Group, kind: Kind, t: u64, cs: Calls)
    requires Alone(g, kind, t, cs).1.phase == Ended(true)
    ensures cs.ready
  {}

  /** The step to a success, also amid other handlers: the vote is there, the seed is gone, the node is out. */
  lemma EndsInEffect(g: Group, h: Handler, c: Chance)
    requires !h.phase.Ended? && (h.kind.Promoting? && h.phase.Changing? ==> h.t in h.phase.target)
    ensures var (next, h') := Advance(g, h, c);
            && (h'.phase == Ended(true) ==>
                  match h.kind
                  case Promoting => h.t in next.voters
                  case Demoting => h.t !in next.seeds
                  case Removing => h.wasVoter && h.t == h.self ==> h.t !in next.seeds)
            && (h.phase.TakingOut? && h'.phase == Settling(true) ==> h.t !in Members(next))
  {}

  // ---------------------------------------------------------------- any interleaving

  datatype System = System(group: Group, handlers: seq<Handler>)

  datatype Step =
    | Start(self: u64, kind: Kind, t: u64)
    | Learner(t: u64, hasKey: bool, hasIdentity: bool, add: Call)
    | Move(j: nat, chance: Chance)

  function Take(s: System, step: Step): System {
    match step
    case Start(self, kind, t) => s.(handlers := s.handlers + [Handler(self, kind, t, false, Checking)])
    case Learner(t, hasKey, hasIdentity, add) => s.(group := AddLearner(s.group, t, hasKey, hasIdentity, add).group)
    case Move(j, chance) =>
      if j >= |s.handlers| then s
      else var (g, h) := Advance(s.group, s.handlers[j], chance); System(g, s.handlers[j := h])
  }

  function Run(s: System, steps: seq<Step>): System {
    if steps == [] then s else Take(Run(s, steps[..|steps| - 1]), steps[|steps| - 1])
  }

  ghost predicate SystemOk(s: System) {
    && GroupOk(s.group)
    && forall j :: 0 <= j < |s.handlers| && s.handlers[j].phase.Changing? ==> s.handlers[j].phase.target != {}
  }

  lemma StepKeepsOk(s: System, step: Step)
    requires SystemOk(s)
    ensures SystemOk(Take(s, step))
  {}

  /**
   However handlers on any nodes interleave, and whichever of their calls fail or take effect unnoticed, the voter set
   is never empty, although each change is computed from a membership that may be out of date.
   */
  lemma {:induction false} VotersSurviveOverlap(g: Group, steps: seq<Step>)
    requires GroupOk(g)
    ensures SystemOk(Run(System(g, []), steps))
  {
    if steps != [] {
      VotersSurviveOverlap(g, steps[..|steps| - 1]);
      StepKeepsOk(Run(System(g, []), steps[..|steps| - 1]), steps[|steps| - 1]);
    }
  }

  // ---------------------------------------------------------------- when seeds follow the votes

  /** A change that takes effect keeps a balanced node balanced exactly when it keeps that node's vote. */
  lemma ChangeBalancesIff(g: Group, target: set<u64>, c: Call, x: u64)
    requires Took(c) && target <= Members(g) && Balanced(g, x)
    ensures Balanced(SetVoters(g, target, c), x) <==> (x in target <==> x in g.voters)
  {}

  /** Over all nodes but its own: exactly when the voter set it was computed from is still the current one. */
  lemma ChangeUpToDateIff(g: Group, target: set<u64>, c: Call, t: u64)
    requires Took(c) && target <= Members(g) && forall x :: x != t ==> Balanced(g, x)
    ensures (forall x :: x != t ==> Balanced(SetVoters(g, target, c), x)) <==> target - {t} == g.voters - {t}
  {
    var next := SetVoters(g, target, c);
    if target - {t} == g.voters - {t} {
      forall x | x != t ensures Balanced(next, x) {
        assert Balanced(g, x);
        assert (x in target <==> x in target - {t}) && (x in g.voters <==> x in g.voters - {t});
      }
    } else if forall x :: x != t ==> Balanced(next, x) {
      forall x ensures x in target - {t} <==> x in g.voters - {t} {
        assert x != t ==> Balanced(next, x) && Balanced(g, x);
      }
      assert false;
    }
  }

  predicate Unfinished(s: System, j: int, x: u64) {
    0 <= j < |s.handlers| && s.handlers[j].t == x && !s.handlers[j].phase.Ended?
  }

  predicate FailedHandler(s: System, j: int, x: u64) {
    0 <= j < |s.handlers| && s.handlers[j].t == x && s.handlers[j].phase == Ended(false)
  }

  /**
   The step leaves node `x` to its own handler: it does not start a second one beside it, and a change that another
   handler brings into effect keeps the vote `x` has by then.
   */
  ghost predicate Minds(s: System, step: Step, x: u64) {
    match step
    case Start(_, _, t) => t == x ==> forall j :: !Unfinished(s, j, x)
    case Learner(_, _, _, _) => true
    case Move(j, c) =>
      j < |s.handlers| ==>
        var h := s.handlers[j];
        h.t != x && h.phase.Changing? && Took(c.call) && h.phase.target <= Members(s.group) ==>
          (x in h.phase.target <==> x in s.group.voters)
  }

  ghost predicate AllMind(s: System, steps: seq<Step>, x: u64) {
    steps != [] ==>
      AllMind(s, steps[..|steps| - 1], x) && Minds(Run(s, steps[..|steps| - 1]), steps[|steps| - 1], x)
  }

  /** Where vote and seed of a handler's node stand when the handler is in a phase. */
  predicate Stands(g: Group, h: Handler) {
    var vote := h.t in g.voters;
    var seed := h.t in g.seeds;
    var own := h.wasVoter && h.t == h.self;
    match h.kind
    case Promoting =>
      (match h.phase
       case Checking => vote == seed
       case Delivering => !vote && !seed
       case Viewing => !vote && seed
       case Changing(target) => !vote && seed && h.t in target
       case Settling(ok) => !ok
       case _ => false)
    case Demoting =>
      (match h.phase
       case Checking => vote == seed
       case Viewing => vote && seed
       case Changing(target) => vote && seed && h.t !in target
       case Settling(ok) => ok && !vote && seed
       case _ => false)
    case Removing =>
      (match h.phase
       case Checking => vote == seed
       case Dropping => vote && seed && h.wasVoter && h.t != h.self
       case Viewing => vote == h.wasVoter && seed == own
       case Changing(target) => vote && seed == own && h.t !in target
       case TakingOut => !vote && seed == own
       case Settling(ok) => ok ==> !vote && seed == own
       case _ => false)
  }

  /** A handler's own step takes it to where the next phase says, to a balanced end, or to a reported failure. */
  lemma OwnStep(g: Group, h: Handler, c: Chance)
    requires Stands(g, h)
    ensures var (next, h') := Advance(g, h, c);
            && h'.t == h.t
            && match h'.phase
               case Ended(ok) => ok ==> Balanced(next, h.t)
               case _ => Stands(next, h')
  {}

  /** The step of a handler for another node leaves vote and seed of `x` alone if it keeps the vote. */
  lemma OtherStep(g: Group, h: Handler, c: Chance, x: u64)
    requires h.t != x
    requires h.phase.Changing? && Took(c.call) && h.phase.target <= Members(g) ==>
      (x in h.phase.target <==> x in g.voters)
    ensures var (next, h') := Advance(g, h, c);
            && h'.t == h.t
            && (x in next.voters <==> x in g.voters)
            && (x in next.seeds <==> x in g.seeds)
  {}

  lemma StandsFrame(g: Group, next: Group, h: Handler)
    requires Stands(g, h) && (h.t in next.voters <==> h.t in g.voters) && (h.t in next.seeds <==> h.t in g.seeds)
    ensures Stands(next, h)
  {}

  /** At most one handler is at work on `x` and stands as its phase says; if there is none, `x` is balanced. */
  ghost predicate Clean(s: System, x: u64) {
    && (forall i, j :: Unfinished(s, i, x) && Unfinished(s, j, x) ==> i == j)
    && (forall j :: Unfinished(s, j, x) ==> Stands(s.group, s.handlers[j]))
    && ((forall j :: !Unfinished(s, j, x)) ==> Balanced(s.group, x))
  }

  ghost predicate NodeOk(s: System, x: u64) {
    Clean(s, x) || exists j :: FailedHandler(s, j, x)
  }

  lemma FailureStays(s: System, step: Step, j: int, x: u64)
    requires FailedHandler(s, j, x)
    ensures FailedHandler(Take(s, step), j, x)
  {}

  lemma StartKeepsNode(s: System, step: Step, x: u64)
    requires Clean(s, x) && step.Start? && Minds(s, step, x)
    ensures Clean(Take(s, step), x)
  {
    var next := Take(s, step);
    var n := |s.handlers|;
    forall j | Unfinished(next, j, x) ensures if j < n then Unfinished(s, j, x) else j == n && step.t == x {}
    if step.t == x {
      assert Unfinished(next, n, x);
    } else {
      forall j | 0 <= j < n ensures Unfinished(s, j, x) <==> Unfinished(next, j, x) {}
      if forall j :: !Unfinished(next, j, x) {
        forall j ensures !Unfinished(s, j, x) { if 0 <= j < n { assert !Unfinished(next, j, x); } }
      }
    }
  }

  lemma LearnerKeepsNode(s: System, step: Step, x: u64)
    requires Clean(s, x) && step.Learner?
    ensures Clean(Take(s, step), x)
  {
    hide Stands;
    var next := Take(s, step);
    forall j ensures Unfinished(next, j, x) <==> Unfinished(s, j, x) {}
    forall j | Unfinished(next, j, x) ensures Stands(next.group, next.handlers[j]) {
      StandsFrame(s.group, next.group, s.handlers[j]);
    }
  }

  lemma OtherMoveKeepsNode(s: System, j: nat, c: Chance, x: u64)
    requires Clean(s, x) && j < |s.handlers| && s.handlers[j].t != x && Minds(s, Move(j, c), x)
    ensures Clean(Take(s, Move(j, c)), x)
  {
    hide Stands, Advance;
    var next := Take(s, Move(j, c));
    OtherStep(s.group, s.handlers[j], c, x);
    forall k ensures Unfinished(next, k, x) <==> Unfinished(s, k, x) {}
    forall k | Unfinished(next, k, x) ensures Stands(next.group, next.handlers[k]) {
      StandsFrame(s.group, next.group, s.handlers[k]);
    }
  }

  lemma OwnMoveKeepsNode(s: System, j: nat, c: Chance)
    requires j < |s.handlers| && Clean(s, s.handlers[j].t)
    ensures NodeOk(Take(s, Move(j, c)), s.handlers[j].t)
  {
    hide Stands, Advance;
    var h := s.handlers[j];
    var next := Take(s, Move(j, c));
    if h.phase.Ended? {
      EndedStays(s.group, h, c);
      assert next == s;
    } else {
      assert Unfinished(s, j, h.t);
      OwnStep(s.group, h, c);
      if next.handlers[j].phase == Ended(false) {
        assert FailedHandler(next, j, h.t);
      } else {
        forall k | k != j ensures !Unfinished(next, k, h.t) { assert !Unfinished(s, k, h.t); }
        assert Unfinished(next, j, h.t) || next.handlers[j].phase == Ended(true);
      }
    }
  }

  lemma EndedStays(g: Group, h: Handler, c: Chance)
    requires h.phase.Ended?
    ensures Advance(g, h, c) == (g, h)
  {}

  lemma StepKeepsNode(s: System, step: Step, x: u64)
    requires NodeOk(s, x) && Minds(s, step, x)
    ensures NodeOk(Take(s, step), x)
  {
    hide Clean, FailedHandler, Take;
    if j :| FailedHandler(s, j, x) {
      FailureStays(s, step, j, x);
    } else {
      match step
      case Start(_, _, _) => StartKeepsNode(s, step, x);
      case Learner(_, _, _, _) => LearnerKeepsNode(s, step, x);
      case Move(j, c) =>
        if j >= |s.handlers| {
          NoSuchHandler(s, j, c);
        } else if s.handlers[j].t == x {
          OwnMoveKeepsNode(s, j, c);
        } else {
          OtherMoveKeepsNode(s, j, c, x);
        }
    }
  }

  lemma NoSuchHandler(s: System, j: nat, c: Chance)
    requires j >= |s.handlers|
    ensures Take(s, Move(j, c)) == s
  {}

  lemma {:induction false} RunKeepsNode(g: Group, steps: seq<Step>, x: u64)
    requires Balanced(g, x) && AllMind(System(g, []), steps, x)
    ensures NodeOk(Run(System(g, []), steps), x)
  {
    hide Clean, Take;
    if steps == [] {
      EmptyIsClean(g, x);
    } else {
      RunKeepsNode(g, steps[..|steps| - 1], x);
      StepKeepsNode(Run(System(g, []), steps[..|steps| - 1]), steps[|steps| - 1], x);
    }
  }

  lemma EmptyIsClean(g: Group, x: u64)
    requires Balanced(g, x)
    ensures Clean(System(g, []), x)
  {}

  /**
   However member operations interleave and whatever fails: a node that started balanced, that was left to one handler
   at a time and whose vote no other handler's change altered, is balanced again as soon as none is at work on it and
   none failed on it.
   */
  lemma SeedFollowsVote(g: Group, steps: seq<Step>, x: u64)
    requires Balanced(g, x) && AllMind(System(g, []), steps, x)
    requires forall j :: !Unfinished(Run(System(g, []), steps), j, x) && !FailedHandler(Run(System(g, []), steps), j, x)
    ensures Balanced(Run(System(g, []), steps).group, x)
  {
    hide Run, AllMind, Stands;
    RunKeepsNode(g, steps, x);
  }

  /** Seed holders are the voters whenever every handler so far has ended in success and minded the others. */
  lemma SeedsFollowVotesOverlapping(g: Group, steps: seq<Step>)
    requires g.seeds == g.voters && forall x :: AllMind(System(g, []), steps, x)
    requires forall h :: h in Run(System(g, []), steps).handlers ==> h.phase == Ended(true)
    ensures Run(System(g, []), steps).group.seeds == Run(System(g, []), steps).group.voters
  {
    hide Run, AllMind;
    var end := Run(System(g, []), steps);
    forall x ensures x in end.group.seeds <==> x in end.group.voters {
      forall j ensures !Unfinished(end, j, x) && !FailedHandler(end, j, x) {
        if 0 <= j < |end.handlers| { assert end.handlers[j] in end.handlers; }
      }
      SeedFollowsVote(g, steps, x);
    }
  }

  // ---------------------------------------------------------------- the conditions are needed

  const TRIO := Group(1, {1, 2, 3}, {}, {}, {1, 2, 3})

  /** Two handlers take a step each, and every call succeeds. */
  function InTurn(s: System): System {
    Take(Take(s, Move(0, Chance(Done, true))), Move(1, Chance(Done, true)))
  }

  /**
   Two demotions that read the membership before either changed it both report success. The second change gives the
   first node its vote back, and the first handler then drops its seed: it ends as a voter without the seed.
   */
  lemma OverlapLosesSeed()
    ensures var both := Take(Take(System(TRIO, []), Start(1, Demoting, 2)), Start(1, Demoting, 3));
            var end := InTurn(InTurn(InTurn(InTurn(both))));
            && |end.handlers| == 2 && end.handlers[0].phase == end.handlers[1].phase == Ended(true)
            && end.group.voters == {1, 2}
            && end.group.seeds == {1}
  {
    var (a, b) := (Handler(1, Demoting, 2, false, Checking), Handler(1, Demoting, 3, false, Checking));
    var both := System(TRIO, [a, b]);
    assert TRIO.voters - {2} == {1, 3} && TRIO.voters - {3} == {1, 2};
    assert InTurn(both) == System(TRIO, [a.(phase := Viewing), b.(phase := Viewing)]);
    var viewed := InTurn(InTurn(both));
    assert viewed == System(TRIO, [a.(phase := Changing({1, 3})), b.(phase := Changing({1, 2}))]);
    var changed := InTurn(viewed);
    assert Members(TRIO) - {1, 3} == {2};
    assert Members(TRIO.(voters := {1, 3}, learners := {2})) - {1, 2} == {3};
    assert changed
      == System(TRIO.(voters := {1, 2}, learners := {3}), [a.(phase := Settling(true)), b.(phase := Settling(true))]);
  }

  function MoveOn(s: System, j: nat): System {
    Take(s, Move(j, Chance(Done, true)))
  }

  /**
   Two operations on one node: a demotion takes the vote, a promotion runs from start to end, and the demotion then
   drops the seed. Both report success, nothing was out of date, and the node is a voter without the seed.
   */
  lemma SameNodeLosesSeed()
    ensures var demoted := MoveOn(MoveOn(MoveOn(Take(System(PAIR, []), Start(1, Demoting, 2)), 0), 0), 0);
            var promoted := MoveOn(MoveOn(MoveOn(MoveOn(Take(demoted, Start(1, Promoting, 2)), 1), 1), 1), 1);
            var end := MoveOn(promoted, 0);
            && |end.handlers| == 2 && end.handlers[0].phase == end.handlers[1].phase == Ended(true)
            && end.group.voters == {1, 2}
            && end.group.seeds == {1}
  {
    var a := Handler(1, Demoting, 2, false, Checking);
    var b := Handler(1, Promoting, 2, false, Checking);
    var viewed := MoveOn(MoveOn(System(PAIR, [a]), 0), 0);
    assert PAIR.voters - {2} == {1};
    assert viewed == System(PAIR, [a.(phase := Changing({1}))]);
    var demoted := MoveOn(viewed, 0);
    assert Members(PAIR) - {1} == {2};
    var alone := PAIR.(voters := {1}, learners := {2});
    assert demoted == System(alone, [a.(phase := Settling(true))]);
    var given := MoveOn(MoveOn(Take(demoted, Start(1, Promoting, 2)), 1), 1);
    assert alone.seeds + {2} == {1, 2};
    assert given == System(alone, [a.(phase := Settling(true)), b.(phase := Viewing)]);
    var asked := MoveOn(given, 1);
    assert alone.voters + {2} == {1, 2};
    assert asked == System(alone, [a.(phase := Settling(true)), b.(phase := Changing({1, 2}))]);
    var promoted := MoveOn(asked, 1);
    assert Members(alone) - {1, 2} == {};
    assert promoted == System(PAIR, [a.(phase := Settling(true)), b.(phase := Ended(true))]);
  }
}
