/** The session command service over the chain of orchestrators. Every observation and every
    command does exactly what it does when resets take effect at once. */
module SessionRuntime {
  import opened Options
  import opened SessionCore
  import opened SessionSafety
  import opened SessionTrace
  import opened SessionServices
  import opened SessionOrchestrators

  class SessionService {
    const revalidation: RevalidationOrchestrator
    const modified: ModifiedApplication
    const approved: ApprovedApplication

    constructor (approved: ApprovedApplication, revalidation: RevalidationOrchestrator, modified: ModifiedApplication)
      requires modified.Valid() && approved.Valid()
      requires approved.decision == revalidation.decision && modified.revalidation == revalidation
      ensures Valid() && this.approved == approved && this.revalidation == revalidation && this.modified == modified
    {
      this.approved, this.revalidation, this.modified := approved, revalidation, modified;
    }

    function Decision(): DecisionOrchestrator {
      revalidation.decision
    }

    function Resolution(): ResolutionOrchestrator {
      revalidation.decision.resolution
    }

    function Steps(): StepOrchestrator {
      revalidation.decision.resolution.steps
    }

    function Clock(): SimulationClock {
      revalidation.decision.resolution.steps.clock
    }

    ghost function Repr(): set<object> {
      {this, modified, approved} + revalidation.Repr()
    }

    /** One shared chain, every part in order. */
    ghost predicate Valid()
      reads {modified, approved} + revalidation.Repr()
    {
      && approved.decision == revalidation.decision && modified.revalidation == revalidation
      && revalidation.Valid() && modified.Own() && approved.Own()
    }

    /** What the objects amount to. */
    ghost function State(): Session
      requires Valid()
      reads {modified, approved} + revalidation.Repr()
    {
      Session(revalidation.State(), modified.Last(), approved.Last())
    }

    ghost predicate UpToDate()
      reads {modified, approved} + revalidation.Repr()
    {
      revalidation.UpToDate() && modified.observed == Clock().runs && approved.observed == Clock().runs
    }

    /** Every last result in turn, which makes every part notice a reset. */
    method Observe()
      requires Valid()
      modifies {modified, approved} + revalidation.Synced()
      ensures Valid() && State() == old(State()) && UpToDate()
    {
      ObserveApproved();
      ObserveModified();
    }

    method ObserveApproved()
      requires Valid()
      modifies approved.Synced()
      ensures Valid() && State() == old(State()) && approved.observed == Clock().runs
    {
      var _ := approved.LastResult();
      assert unchanged(Clock()) && unchanged(revalidation) && unchanged(modified);
    }

    method ObserveModified()
      requires Valid()
      modifies modified.Synced()
      ensures Valid() && State() == old(State()) && revalidation.UpToDate() && modified.observed == Clock().runs
    {
      var _ := revalidation.LastResult();
      var _ := modified.LastResult();
      assert unchanged(Clock()) && unchanged(approved);
    }

    /** What a part reads when there is nothing left to notice. */
    function ReadParts(): (view: Session)
      requires Valid() && UpToDate()
      reads {modified, approved} + revalidation.Repr()
      ensures view == State()
    {
      var base := Base(Clock().State(), Steps().scheduler.Slot(), Steps().fleet.Anchors(), Steps().queue.lastAt,
                       Steps().catalog.State(), Steps().audit.lastLog, Steps().lastResult);
      Session(Revalidated(Decided(Resolved(base, Resolution().lastResult), Decision().lastResult),
          revalidation.lastResult),
              modified.lastResult, approved.lastResult)
    }

    /** The session view. */
    method GetCurrent() returns (view: Session)
      requires Valid()
      modifies {modified, approved} + revalidation.Synced()
      ensures Valid() && State() == old(State()) && UpToDate() && view == State()
    {
      Observe();
      view := ReadParts();
    }

    // -------------------------------------------------------------- the clock

    /** A reset of the clock alone: no part has noticed yet, but all that is left is stale. */
    method ResetClock()
      requires Valid()
      modifies Clock()
      ensures Valid() && State() == Fresh(old(State()).Base().clock.Reset())
    {
      Clock().Reset();
      NoneCurrent(Steps().fleet.applied, Steps().fleet.Current());
    }

    method PlayClock()
      requires Valid()
      modifies Clock()
      ensures Valid() && State() == Playing(old(State()))
    {
      Clock().Play();
    }

    method PauseClock()
      requires Valid()
      modifies Clock()
      ensures Valid() && State() == OnClock(old(State()), old(State()).Base().clock.Pause())
    {
      Clock().Pause();
    }

    method TickClock(n: nat)
      requires Valid()
      modifies Clock()
      ensures Valid() && State() == OnClock(old(State()), old(State()).Base().clock.Tick(n))
    {
      Clock().Tick(n);
    }

    /** Between a reset and the next observation the audit service itself still holds the log of
        the run before: only readers that go through the chain see the reset. */
    method ResetLeavesRawAudit() returns (raw: Option<AuditLog>)
      requires Valid() && UpToDate()
      modifies Clock()
      ensures Valid() && raw == old(State()).Base().audit && State().Base().audit == None
    {
      ResetClock();
      raw := Steps().audit.lastLog;
    }

    // -------------------------------------------------------------- checkpoints

    method StepBy(n: nat, env: Env) returns (e: Option<Error>)
      requires Valid()
      modifies Steps().Repr()
      ensures Valid() && Outcome(State(), e) == SessionCore.StepBy(old(State()), n, env, Steps().scheduler.period)
    {
      e := Steps().Step(n, env.step);
      assert unchanged(Resolution()) && unchanged(Decision()) && unchanged(revalidation);
      assert unchanged(modified) && unchanged(approved);
    }

    method ResolveNow(ghost s: Session, env: ResolveEnv) returns (e: Option<Error>)
      requires Valid() && s == State()
      modifies Resolution().Synced()
      ensures Valid()
      ensures var r := Resolve(s.rev.dec.res, env); State() == s.WithResolved(r.state) && e == r.error
    {
      e := Resolution().Resolve(env);
    }

    method DecideNow(ghost s: Session, kind: DecisionKind, inputs: Inputs) returns (e: Option<Error>)
      requires Valid() && s == State()
      modifies Decision().Synced()
      ensures Valid()
      ensures var d := Decide(s.rev.dec, kind, inputs); State() == s.WithDecided(d.state) && e == d.error
    {
      e := Decision().Decide(kind, inputs);
    }

    method RevalidateNow(env: RevalidateEnv) returns (e: Option<Error>)
      requires Valid()
      modifies revalidation.Synced()
      ensures Valid()
      ensures var v := Revalidate(old(State()).rev, env);
              State() == old(State()).(rev := v.state) && e == v.error
    {
      e := revalidation.Revalidate(env);
    }

    method ApplyModifiedNow(ghost v: Revalidated, ghost last: Option<Application>, ghost other: Option<Application>,
                            env: ApplyEnv)
      returns (e: Option<Error>)
      requires Valid() && v == revalidation.State() && last == modified.Last() && other == approved.Last()
      modifies modified.Synced(), Steps().fleet
      ensures modified.Valid() && approved.Own() && approved.Last() == other
      ensures Outcome((revalidation.State(), modified.Last()), e) == ApplyModified(v, last, env)
    {
      assert approved.Clock() == Clock();
      e := modified.AuthorizeApplyAndRevalidate(env);
      assert unchanged(approved);
      assert unchanged(Clock());
    }

    method ApplyApprovedNow(ghost d: Decided, ghost last: Option<Application>, ghost s: Session, env: ApplyEnv)
        returns (e: Option<Error>)
      requires Valid() && d == Decision().State() && last == approved.Last() && s == State()
      modifies approved.Synced(), Steps().fleet
      ensures Valid() && State().rev.revalidation == s.rev.revalidation && State().modified == s.modified
      ensures Outcome((Decision().State(), approved.Last()), e) == ApplyApproved(d, last, env)
    {
      assert approved.Clock() == Clock();
      e := approved.ApplyAndRevalidate(env);
      assert unchanged(modified) && unchanged(revalidation);
      assert unchanged(Clock());
    }

    method Generate(env: Env) returns (e: Option<Error>)
      requires Valid()
      modifies Resolution().Repr()
      ensures Valid() && Outcome(State(), e) ==
              Perform(old(State()), SessionCore.Generate, Inputs(None, None), env, Steps().scheduler.period)
    {
      e := StepBy(5, env);
      if e == None {
        e := ResolveNow(State(), env.resolve);
      }
    }

    method Respond(kind: DecisionKind, inputs: Inputs, env: Env) returns (e: Option<Error>)
      requires Valid()
      modifies Decision().Repr()
      ensures Valid() && Outcome(State(), e) ==
              Perform(old(State()), SessionCore.Respond(kind), inputs, env, Steps().scheduler.period)
    {
      e := StepBy(15, env);
      if e == None {
        e := DecideNow(State(), kind, inputs);
      }
    }

    /** The commands that move the clock. */
    method Advancing(c: Command, inputs: Inputs, env: Env) returns (e: Option<Error>)
      requires Valid() && (c == Start || c == AdvanceToConflict || c == Command.Generate || c.Respond?)
      modifies Decision().Repr()
      ensures Valid() && Outcome(State(), e) == Perform(old(State()), c, inputs, env, Steps().scheduler.period)
    {
      match c
      case Start =>
        PlayClock();
        e := StepBy(0, env);
      case AdvanceToConflict => e := StepBy(70, env);
      case Generate => e := Generate(env);
      case Respond(kind) => e := Respond(kind, inputs, env);
    }

    method Checkpoint(c: Command, inputs: Inputs, env: Env) returns (e: Option<Error>)
      requires Valid() && c != Command.Reset && !c.Advance?
      modifies {modified, approved} + revalidation.Repr()
      ensures Valid() && Outcome(State(), e) == Perform(old(State()), c, inputs, env, Steps().scheduler.period)
    {
      match c
      case RevalidateModified => e := RevalidateNow(env.revalidate);
      case ApplyModifiedManeuver => e := ApplyModifiedNow(revalidation.State(), modified.Last(), approved.Last(),
          env.apply);
      case ApplyApprovedManeuver => e := ApplyApprovedNow(Decision().State(), approved.Last(), State(), env.apply);
      case Start => e := Advancing(c, inputs, env);
      case AdvanceToConflict => e := Advancing(c, inputs, env);
      case Generate => e := Advancing(c, inputs, env);
      case Respond(_) => e := Advancing(c, inputs, env);
    }

    // -------------------------------------------------------------- commands

    method Execute(c: Command, inputs: Inputs, env: Env) returns (e: Option<Error>)
      requires Valid()
      modifies {modified, approved} + revalidation.Repr()
      ensures Valid() && Outcome(State(), e) ==
              SessionCore.Execute(old(State()), c, inputs, env, Steps().scheduler.period)
    {
      var current := GetCurrent();
      if !ValidInputs(c, inputs, current.Base().catalog.Current()) {
        return Some(InvalidInputs);
      }
      var latest := LatestStep();
      if c != Command.Reset && latest.Some? && latest.value.tick != Clock().tick {
        return Some(EvidenceBehindClock);
      }
      e := Dispatch(current, c, inputs, env);
      if e == None {
        var _ := GetCurrent();
      }
    }

    method LatestStep() returns (r: Option<StepResult>)
      requires Valid()
      modifies Steps().Synced()
      ensures Valid() && State() == old(State()) && r == State().Base().step
    {
      r := Steps().LastResult();
    }

    method Dispatch(current: Session, c: Command, inputs: Inputs, env: Env) returns (e: Option<Error>)
      requires Valid() && current == State() && ValidInputs(c, inputs, current.Base().catalog.Current()) &&
               (c != Command.Reset ==> !Behind(current))
      modifies {modified, approved} + revalidation.Repr()
      ensures Valid() && Outcome(State(), e) == SessionCore.Execute(current, c, inputs, env, Steps().scheduler.period)
    {
      if c == Command.Reset {
        ResetClock();
        return None;
      }
      if c.Advance? {
        if c.seconds == None || !(1 <= c.seconds.value <= MAX_ADVANCE) {
          return Some(InvalidSeconds);
        }
        if Clock().mode != Running {
          PlayClock();
        }
        e := StepBy(c.seconds.value, env);
        return;
      }
      if Required(c) != Some(StageOf(current)) {
        return Some(WrongStage);
      }
      e := Checkpoint(c, inputs, env);
    }
  }

  /** A whole run: operator commands and clock events in any order, with whatever observations
      the commands make. */
  method Drive(s: SessionService, events: seq<Event>)
    requires s.Valid()
    modifies {s.modified, s.approved} + s.revalidation.Repr()
    ensures s.Valid() && s.State() == Run(old(s.State()), events, s.Steps().scheduler.period)
  {
    ghost var start := s.State();
    assert events[..0] == [];
    for i := 0 to |events|
      invariant s.Valid() && s.State() == Run(start, events[..i], s.Steps().scheduler.period)
    {
      assert events[..i + 1][..i] == events[..i];
      Happen(s, events[i]);
    }
    assert events[..|events|] == events;
  }

  method Happen(s: SessionService, e: Event)
    requires s.Valid()
    modifies {s.modified, s.approved} + s.revalidation.Repr()
    ensures s.Valid() && s.State() == Next(old(s.State()), e, s.Steps().scheduler.period)
  {
    match e
    case Operator(c, inputs, env) => var _ := s.Execute(c, inputs, env);
    case ClockPlay => s.PlayClock();
    case ClockPause => s.PauseClock();
    case ClockTick(n) => s.TickClock(n);
    case ClockReset => s.ResetClock();
  }

  /** The human decides, on the objects: after any run of a newly wired session the audit and the
      aircraft hold at most one decision and one anchor, the decision authorises the anchor, a new
      maneuver was found SAFE at the same tick, and a rejection anchors nothing. The verdicts are those
      of the events: what is anchored after an ACCEPT came out SAFE in a generation since the last
      reset, and after a MODIFY some revalidation since then came out SAFE. */
  method RunSession(events: seq<Event>, period: Period) returns (view: Session)
    ensures Entries(view.Base().audit) == [] ==> view.Base().anchors == []
    ensures |Entries(view.Base().audit)| <= 1 && |view.Base().anchors| <= 1
    ensures view.Base().anchors != [] ==> Authorises(Entries(view.Base().audit)[0], view.Base().anchors[0])
    ensures view.Base().anchors != [] && Entries(view.Base().audit)[0].kind == Modify ==> (
              && view.rev.revalidation.Some? && view.rev.revalidation.value.safe
              && view.rev.revalidation.value.tick == view.Base().anchors[0].tick
              && view.rev.revalidation.value.candidate == view.Base().anchors[0].candidate)
    ensures Entries(view.Base().audit) != [] && Entries(view.Base().audit)[0].kind == Reject ==>
            view.Base().anchors == []
    ensures view.Base().anchors != [] && Entries(view.Base().audit)[0].kind == Accept ==>
            exists k: nat :: Since(events, k) && FoundSafe(events[k], view.Base().anchors[0].candidate)
    ensures view.Base().anchors != [] && Entries(view.Base().audit)[0].kind == Modify ==>
            exists k: nat :: Since(events, k) && SaysSafe(events[k])
  {
    var s := Build(period);
    Drive(s, events);
    HumanInTheLoop(Clock.Clock(Ready, 0, 0), events, period);
    AnchorsWereFoundSafe(Clock.Clock(Ready, 0, 0), events, period);
    view := s.GetCurrent();
  }

  /** Clock, services and the step orchestrator. */
  method WireSteps(period: Period) returns (steps: StepOrchestrator)
    ensures fresh(steps.Repr()) && steps.Valid() && steps.UpToDate() && steps.scheduler.period == period
    ensures steps.State() == FreshBase(SessionCore.Clock.Clock(Ready, 0, 0))
  {
    var clock := new SimulationClock();
    var scheduler := new ConflictScheduler(clock, period);
    var fleet := new Fleet(clock);
    var queue := new QueueService();
    var catalog := new RecommendationCatalog();
    var audit := new DecisionService();
    steps := new StepOrchestrator(clock, scheduler, fleet, queue, catalog, audit);
  }

  /** A fully wired session that has not been started. */
  method Build(period: Period) returns (s: SessionService)
    ensures fresh({s, s.modified, s.approved} + s.revalidation.Repr())
    ensures s.Valid() && s.State() == Fresh(SessionCore.Clock.Clock(Ready, 0, 0)) &&
            s.Steps().scheduler.period == period
  {
    var steps := WireSteps(period);
    var resolution := new ResolutionOrchestrator(steps);
    var decision := new DecisionOrchestrator(resolution);
    var revalidation := new RevalidationOrchestrator(decision);
    var modified := new ModifiedApplication(revalidation);
    var approved := new ApprovedApplication(decision);
    s := new SessionService(approved, revalidation, modified);
  }
}
