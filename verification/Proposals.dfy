/**
  Deciding one assistant proposal (`assistant-proposal.service.ts`): any number of people confirm or
  reject it at once, each under the proposal's session lock, and any of them may die at any point.
  The lock is exclusive and goes with its session; a service that refuses has done nothing.
 */
module Proposals {
  datatype Decision = Applied | Failed | Rejected | Expired

  datatype Status = Proposed | Decided(decision: Decision, decider: int)

  /**
    How far a caller has come: waiting for the lock, holding it, having read an open proposal, with an
    outcome, saved.
   */
  datatype Stage = Waiting | Holding | Deciding | Outcome(decision: Decision) | Saved | Answered(status: Status) | Lost

  datatype Caller = Caller(confirms: bool, stage: Stage)

  /** `effects`: times the service did what was proposed; `losses`: times that was never written down. */
  datatype System = System(status: Status, effects: int, losses: int, callers: map<int, Caller>)

  /** What a caller does next. `Throw` is any error or crash; `done` says the service had done its part by then. */
  datatype Action =
    | Ask(who: int, confirms: bool)
    | Lock(who: int)
    | Read(who: int)
    | Decide(who: int, decision: Decision)
    | Save(who: int)
    | Answer(who: int)
    | Throw(who: int, done: bool)

  predicate Holds(stage: Stage) {
    stage.Holding? || stage.Deciding? || stage.Outcome? || stage.Saved?
  }

  predicate At(s: System, who: int, stage: Stage) {
    who in s.callers && s.callers[who].stage == stage
  }

  ghost predicate Enabled(s: System, a: Action) {
    match a
    case Ask(who, _) => who !in s.callers
    case Lock(who) => At(s, who, Waiting) && forall w :: w in s.callers ==> !Holds(s.callers[w].stage)
    case Read(who) => At(s, who, Holding)
    case Decide(who, decision) => At(s, who, Deciding) && (decision == Rejected <==> !s.callers[who].confirms)
    case Save(who) => who in s.callers && s.callers[who].stage.Outcome?
    case Answer(who) => At(s, who, Saved)
    case Throw(who, done) =>
      && who in s.callers && !s.callers[who].stage.Answered? && !s.callers[who].stage.Lost?
      && (done ==> At(s, who, Deciding) && s.callers[who].confirms)
  }

  function Moved(s: System, who: int, stage: Stage): map<int, Caller>
    requires who in s.callers
  {
    s.callers[who := Caller(s.callers[who].confirms, stage)]
  }

  function Next(s: System, a: Action): System
    requires a.Ask? || a.who in s.callers
    requires a.Save? ==> s.callers[a.who].stage.Outcome?
  {
    match a
    case Ask(who, confirms) => System(s.status, s.effects, s.losses, s.callers[who := Caller(confirms, Waiting)])
    case Lock(who) => System(s.status, s.effects, s.losses, Moved(s, who, Holding))
    // A proposal already decided is returned as it stands.
    case Read(who) => System(s.status, s.effects, s.losses,
        Moved(s, who, if s.status == Proposed then Deciding else Answered(s.status)))
    case Decide(who, decision) =>
      System(s.status, s.effects + (if decision == Applied then 1 else 0), s.losses, Moved(s, who, Outcome(decision)))
    // The update is conditional on the proposal still being open.
    case Save(who) =>
      var status := if s.status == Proposed then Decided(s.callers[who].stage.decision, who) else s.status;
      System(status, s.effects, s.losses, Moved(s, who, Saved))
    case Answer(who) => System(s.status, s.effects, s.losses, Moved(s, who, Answered(s.status)))
    case Throw(who, done) =>
      var lost := done || s.callers[who].stage == Outcome(Applied);
      System(s.status, s.effects + (if done then 1 else 0), s.losses + (if lost then 1 else 0), Moved(s, who, Lost))
  }

  // ------------------------------------------------------------------ what every step keeps

  ghost predicate OneHolder(s: System) {
    forall v, w :: v in s.callers && w in s.callers && Holds(s.callers[v].stage) && Holds(s.callers[w].stage) ==> v == w
  }

  /** Somebody has had the service do it and has not yet written that down. */
  ghost predicate Unsaved(s: System) {
    exists w :: w in s.callers && s.callers[w].stage == Outcome(Applied)
  }

  ghost predicate StagesFit(s: System) {
    forall w :: w in s.callers ==>
      match s.callers[w].stage
      case Deciding => s.status == Proposed
      case Outcome(decision) => s.status == Proposed && (decision == Rejected <==> !s.callers[w].confirms)
      case Saved => s.status.Decided?
      case Answered(status) => status == s.status && status.Decided?
      case _ => true
  }

  predicate IsApplied(status: Status) {
    status.Decided? && status.decision == Applied
  }

  /** Every time the service acted is the decision, a loss, or about to be saved. */
  ghost predicate EffectsAccounted(s: System) {
    s.effects == s.losses + (if IsApplied(s.status) then 1 else 0) + (if Unsaved(s) then 1 else 0)
  }

  ghost predicate Invariant(s: System) {
    OneHolder(s) && StagesFit(s) && EffectsAccounted(s) && s.losses >= 0
  }

  lemma UnsavedAfter(s: System, who: int, stage: Stage, t: System)
    requires OneHolder(s) && who in s.callers && t.callers == Moved(s, who, stage)
    requires Holds(s.callers[who].stage)
    ensures Unsaved(t) <==> stage == Outcome(Applied)
    ensures Unsaved(s) <==> s.callers[who].stage == Outcome(Applied)
  {
    if stage == Outcome(Applied) {
      assert t.callers[who].stage == Outcome(Applied);
    }
  }

  lemma UnsavedElsewhere(s: System, who: int, caller: Caller, t: System)
    requires t.callers == s.callers[who := caller] && !caller.stage.Outcome?
    requires who in s.callers ==> !s.callers[who].stage.Outcome?
    ensures Unsaved(t) <==> Unsaved(s)
  {
    if Unsaved(s) {
      var w :| w in s.callers && s.callers[w].stage == Outcome(Applied);
      assert t.callers[w].stage == Outcome(Applied);
    }
  }

  lemma StepKeeps(s: System, a: Action)
    requires Invariant(s) && Enabled(s, a)
    ensures Invariant(Next(s, a))
  {
    hide Unsaved;
    var t := Next(s, a);
    match a
    case Ask(who, confirms) => UnsavedElsewhere(s, who, Caller(confirms, Waiting), t);
    case Lock(who) => UnsavedElsewhere(s, who, t.callers[who], t);
    case Read(who) => UnsavedAfter(s, who, t.callers[who].stage, t);
    case Decide(who, _) => UnsavedAfter(s, who, t.callers[who].stage, t);
    case Save(who) => UnsavedAfter(s, who, t.callers[who].stage, t);
    case Answer(who) => UnsavedAfter(s, who, t.callers[who].stage, t);
    case Throw(who, _) =>
      if Holds(s.callers[who].stage) {
        UnsavedAfter(s, who, Lost, t);
      } else {
        UnsavedElsewhere(s, who, t.callers[who], t);
      }
  }

  /** A decision is final: no step changes it, or what anybody was told. */
  lemma DecidedForGood(s: System, a: Action, who: int)
    requires Invariant(s) && Enabled(s, a)
    ensures s.status.Decided? ==> Next(s, a).status == s.status
    ensures who in s.callers && s.callers[who].stage.Answered? ==>
      who in Next(s, a).callers && Next(s, a).callers[who] == s.callers[who]
  {
  }

  // ------------------------------------------------------------------ every run

  const OPEN: System := System(Proposed, 0, 0, map[])

  ghost predicate IsRun(states: seq<System>, actions: seq<Action>) {
    && |states| == |actions| + 1 && states[0] == OPEN
    && forall i :: 0 <= i < |actions| ==> Enabled(states[i], actions[i]) && states[i + 1] == Next(states[i], actions[i])
  }

  lemma {:induction false} RunKeeps(states: seq<System>, actions: seq<Action>, i: nat)
    requires IsRun(states, actions) && i < |states|
    ensures Invariant(states[i])
  {
    hide Invariant, Enabled, Next;
    if i == 0 {
      OpenKeeps();
    } else {
      RunKeeps(states, actions, i - 1);
      StepKeeps(states[i - 1], actions[i - 1]);
    }
  }

  lemma OpenKeeps()
    ensures Invariant(OPEN)
  {
  }

  lemma {:induction false} StatusStays(states: seq<System>, actions: seq<Action>, i: nat, j: nat)
    requires IsRun(states, actions) && i <= j < |states| && states[i].status.Decided?
    ensures states[j].status == states[i].status
  {
    hide Invariant, Enabled, Next;
    if i < j {
      StatusStays(states, actions, i, j - 1);
      RunKeeps(states, actions, j - 1);
      DecidedForGood(states[j - 1], actions[j - 1], 0);
    }
  }

  /**
    Whatever confirms, rejects, errors and crashes interleave: the proposal is decided at most once,
    everybody answered is told that decision, and what was proposed was done at most once more than
    it was lost. With nothing lost and nobody in the middle of it, it was done exactly when it is applied.
   */
  lemma EveryRun(states: seq<System>, actions: seq<Action>, i: nat, j: nat, who: int)
    requires IsRun(states, actions) && i <= j < |states|
    ensures states[i].status.Decided? ==> states[j].status == states[i].status
    ensures who in states[j].callers && states[j].callers[who].stage.Answered? ==>
      states[j].status.Decided? && states[j].callers[who].stage.status == states[j].status
    ensures states[j].effects <= states[j].losses + 1
    ensures states[j].losses == 0 && !Unsaved(states[j]) ==>
      (states[j].effects == 1 <==> IsApplied(states[j].status)) && 0 <= states[j].effects <= 1
  {
    hide Enabled, Next, OneHolder;
    RunKeeps(states, actions, j);
    if states[i].status.Decided? {
      StatusStays(states, actions, i, j);
    }
    if Unsaved(states[j]) {
      var w :| w in states[j].callers && states[j].callers[w].stage == Outcome(Applied);
      assert states[j].status == Proposed;
    }
  }

  // ------------------------------------------------------------------ one caller, uninterrupted

  /** What `apply` comes to: done, refused by the service, or an error that is no outcome, perhaps after it was done. */
  datatype Service = Does | Refuses | Errs(done: bool)

  class Proposal {
    var status: Status
    var effects: int
    var losses: int

    constructor ()
      ensures status == Proposed && effects == 0 && losses == 0
    {
      status, effects, losses := Proposed, 0, 0;
    }

    /** The body of `decide` under the lock; `answered` is false when it throws. */
    method DecideLocked(who: int, confirms: bool, allowed: bool, expired: bool, service: Service)
        returns (answered: bool)
      modifies this
      ensures exists states, actions ::
                && Steps(states, actions)
                  && states[0] == Turn(old(status), old(effects), old(losses), who, confirms, Holding)
                && states[|states| - 1] == Turn(status, effects, losses, who, confirms,
                  if answered then Answered(status) else Lost)
      ensures old(status).Decided? ==>
                answered && status == old(status) && effects == old(effects) && losses == old(losses)
      ensures old(status) == Proposed ==> (answered <==> !confirms || (allowed && (expired || !service.Errs?)))
      ensures old(status) == Proposed && answered ==>
        status == Decided(if !confirms then Rejected else if expired then Expired else if service.Does? then Applied
          else Failed, who)
      ensures !answered ==> status == old(status)
    {
      ghost var first := Turn(status, effects, losses, who, confirms, Holding);
      ghost var read := Next(first, Read(who));
      if status != Proposed {
        assert Steps([first, read], [Read(who)]);
        return true;
      }
      var decision := Rejected;
      if confirms {
        if !allowed {
          ThrowAfter(first, read, who, false);
          return false;
        }
        if expired {
          decision := Expired;
        } else {
          match service {
            case Does =>
              effects := effects + 1;
              decision := Applied;
            case Refuses =>
              decision := Failed;
            case Errs(done) =>
              if done {
                effects, losses := effects + 1, losses + 1;
              }
              ThrowAfter(first, read, who, done);
              return false;
          }
        }
      }
      status := Decided(decision, who);
      DecideAfter(first, read, who, decision);
      return true;
    }
  }

  /** The proposal with one caller in it. */
  function Turn(status: Status, effects: int, losses: int, who: int, confirms: bool, stage: Stage): System {
    System(status, effects, losses, map[who := Caller(confirms, stage)])
  }

  ghost predicate Steps(states: seq<System>, actions: seq<Action>) {
    && |states| == |actions| + 1
    && forall i :: 0 <= i < |actions| ==> Enabled(states[i], actions[i]) && states[i + 1] == Next(states[i], actions[i])
  }

  lemma ThrowAfter(first: System, read: System, who: int, done: bool)
    requires Enabled(first, Read(who)) && read == Next(first, Read(who)) && Enabled(read, Throw(who, done))
    ensures Steps([first, read, Next(read, Throw(who, done))], [Read(who), Throw(who, done)])
  {
  }

  lemma DecideAfter(first: System, read: System, who: int, decision: Decision)
    requires Enabled(first, Read(who)) && read == Next(first, Read(who)) && Enabled(read, Decide(who, decision))
    ensures var outcome := Next(read, Decide(who, decision));
            var saved := Next(outcome, Save(who));
            Steps([first, read, outcome, saved, Next(saved, Answer(who))],
              [Read(who), Decide(who, decision), Save(who), Answer(who)])
  {
  }
}
