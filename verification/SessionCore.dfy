/** The operator session as if every reset took effect at once: what the clock, the services and
    the chain of orchestrators hold, and what each operation does to it.

    A timestamp is the number of ticks since the start of the run. Whatever the calculations
    behind a step come to, including failing, is an input. */
module SessionCore {
  import opened Options

  // ---------------------------------------------------------------- evidence

  datatype Candidate = Candidate(aircraft: string, maneuver: string)

  /** A candidate with the verdict of its safety validation and the time of the evidence used. */
  datatype Validated = Validated(candidate: Candidate, safe: bool, validatedAt: nat)

  datatype RecommendationSet = RecommendationSet(id: string, generatedAt: nat, options: seq<Validated>) {
    function Primary(): Option<Validated> {
      if options == [] then None else Some(options[0])
    }
  }

  datatype DecisionKind = Accept | Modify | Reject

  datatype Entry = Entry(setId: string, selected: Validated, kind: DecisionKind, decidedAt: nat,
      modified: Option<string>) {
    function Approved(): Option<Candidate> {
      if kind == Accept then Some(selected.candidate) else None
    }
  }

  datatype AuditLog = AuditLog(revision: nat, generatedAt: nat, entries: seq<Entry>)

  datatype Anchor = Anchor(candidate: Candidate, tick: nat)

  datatype StepResult = StepResult(tick: nat, highRisk: bool, nonRoutine: bool)

  datatype Resolution = Resolution(tick: nat, recommended: RecommendationSet)

  datatype Decision = Decision(tick: nat, selected: Validated, entry: Entry, log: AuditLog)

  datatype Revalidation = Revalidation(tick: nat, entry: Entry, candidate: Candidate, safe: bool)

  datatype Application = Application(tick: nat, entry: Entry, candidate: Candidate)

  // ---------------------------------------------------------------- state, along the chain

  datatype ClockMode = Ready | Running | Paused

  datatype Clock = Clock(mode: ClockMode, tick: nat, runs: nat) {
    function Play(): Clock {
      this.(mode := Running)
    }

    function Pause(): Clock {
      if mode == Running then this.(mode := Paused) else this
    }

    function Tick(n: nat): Clock {
      if mode == Running then this.(tick := tick + n) else this
    }

    function Reset(): Clock {
      Clock(Ready, 0, runs + 1)
    }
  }

  datatype Catalog = Catalog(sets: map<string, RecommendationSet>, current: Option<string>) {
    function Current(): Option<RecommendationSet> {
      if current.Some? && current.value in sets then Some(sets[current.value]) else None
    }

    /** A set is published once and never before the current one. */
    function Publish(s: RecommendationSet): Result<Catalog, Error> {
      if s.id in sets then Err(SetExists)
      else if Current().Some? && s.generatedAt < Current().value.generatedAt then Err(TimeRunsBackwards)
      else Ok(Catalog(sets[s.id := s], Some(s.id)))
    }
  }

  const NO_SETS := Catalog(map[], None)

  /** Number of ticks between two conflict assessments. */
  type Period = p: real | p > 0.0 witness 1.0

  datatype Base = Base(clock: Clock, slot: Option<int>, anchors: seq<Anchor>, queueAt: Option<nat>,
                       catalog: Catalog, audit: Option<AuditLog>, step: Option<StepResult>)

  datatype Resolved = Resolved(base: Base, resolution: Option<Resolution>)

  datatype Decided = Decided(res: Resolved, decision: Option<Decision>)

  datatype Revalidated = Revalidated(dec: Decided, revalidation: Option<Revalidation>)

  datatype Session = Session(rev: Revalidated, modified: Option<Application>, approved: Option<Application>) {
    function Base(): Base {
      rev.dec.res.base
    }

    function Resolution(): Option<Resolution> {
      rev.dec.res.resolution
    }

    function Decision(): Option<Decision> {
      rev.dec.decision
    }

    function WithDecided(d: Decided): Session {
      this.(rev := rev.(dec := d))
    }

    function WithResolved(r: Resolved): Session {
      WithDecided(rev.dec.(res := r))
    }

    function WithBase(b: Base): Session {
      WithResolved(rev.dec.res.(base := b))
    }
  }

  function FreshBase(clock: Clock): Base {
    Base(clock, None, [], None, NO_SETS, None, None)
  }

  function Fresh(clock: Clock): Session {
    Session(Revalidated(Decided(Resolved(FreshBase(clock), None), None), None), None, None)
  }

  // ---------------------------------------------------------------- outcomes

  datatype Error =
    | InvalidInputs | InvalidSeconds | EvidenceBehindClock | WrongStage | ClockNotRunning | AlreadyDoneThisTick
    | CalculationFailed | TimeRunsBackwards | MissingEvidence | NotContemporary | SetExists | NotCurrent
    | NoPrimary | AlreadyDecided | InvalidDecision | WrongDecision | NotSafe | AnchorRefused | PairNotReassessed

  /** A failing operation may have changed the state before it failed. */
  datatype Outcome<+S> = Outcome(state: S, error: Option<Error>)

  function Done<S>(s: S): Outcome<S> {
    Outcome(s, None)
  }

  function Fails<S>(s: S, e: Error): Outcome<S> {
    Outcome(s, Some(e))
  }

  // ---------------------------------------------------------------- one step

  datatype StepFailure = NoFailure | SnapshotFails | ConflictRunFails | EvaluationFails

  /** How the calculations of a step come out. */
  datatype StepEnv = StepEnv(failure: StepFailure, highRisk: bool, nonRoutine: bool)

  function SlotOf(tick: nat, period: Period): int {
    (tick as real / period).Floor
  }

  function Due(slot: Option<int>, tick: nat, period: Period): bool {
    slot == None || SlotOf(tick, period) > slot.value
  }

  /** The queue takes a refresh only at or after its last snapshot. */
  function RefreshQueue(b: Base): Result<Base, Error> {
    if b.queueAt.Some? && b.clock.tick < b.queueAt.value then Err(TimeRunsBackwards)
    else Ok(b.(queueAt := Some(b.clock.tick)))
  }

  function DoStep(b: Base, n: nat, env: StepEnv, period: Period): Outcome<Base> {
    if b.clock.mode != Running then Fails(b, ClockNotRunning)
    else Calculate(b.(clock := b.clock.Tick(n)), env, period)
  }

  function Calculate(b: Base, env: StepEnv, period: Period): Outcome<Base> {
    if env.failure == SnapshotFails then Fails(b, CalculationFailed)
    else if b.step.Some? && b.step.value.tick == b.clock.tick then Fails(b, AlreadyDoneThisTick)
    else if env.failure == ConflictRunFails then Fails(b, CalculationFailed)
    else
      var due := Due(b.slot, b.clock.tick, period);
      var assessed := if due then b.(slot := Some(SlotOf(b.clock.tick, period))) else b;
      if env.failure == EvaluationFails then Fails(assessed, CalculationFailed)
      else match RefreshQueue(assessed)
        case Err(e) => Fails(assessed, e)
        case Ok(q) => Done(q.(step := Some(StepResult(b.clock.tick, due && env.highRisk, env.nonRoutine))))
  }

  // ---------------------------------------------------------------- recommendation

  /** How candidate generation and validation come out: the candidates in ranking order with
      their verdicts, and how many may be recommended. */
  datatype ResolveEnv = ResolveFails | Candidates(setId: string, ranked: seq<(Candidate, bool)>, limit: nat)

  function SafeOptions(ranked: seq<(Candidate, bool)>, at: nat): seq<Validated> {
    if ranked == [] then []
    else (if ranked[0].1 then [Validated(ranked[0].0, true, at)] else []) + SafeOptions(ranked[1..], at)
  }

  function Recommend(env: ResolveEnv, at: nat): RecommendationSet
    requires env.Candidates?
  {
    var options := SafeOptions(env.ranked, at);
    RecommendationSet(env.setId, at, if |options| <= env.limit then options else options[..env.limit])
  }

  function Resolve(r: Resolved, env: ResolveEnv): Outcome<Resolved> {
    var b := r.base;
    if b.step == None then Fails(r, MissingEvidence)
    else if b.step.value.tick != b.clock.tick then Fails(r, EvidenceBehindClock)
    else if r.resolution.Some? && r.resolution.value.tick == b.clock.tick then Fails(r, AlreadyDoneThisTick)
    else if env.ResolveFails? then Fails(r, CalculationFailed)
    else
      var s := Recommend(env, b.clock.tick);
      match b.catalog.Publish(s)
      case Err(e) => Fails(r, e)
      case Ok(c) => Done(Resolved(b.(catalog := c), Some(Resolution(b.clock.tick, s))))
  }

  // ---------------------------------------------------------------- decision

  datatype Inputs = Inputs(rationale: Option<string>, maneuver: Option<string>)

  function Entries(log: Option<AuditLog>): seq<Entry> {
    if log == None then [] else log.value.entries
  }

  function Revision(log: Option<AuditLog>): nat {
    if log == None then 0 else log.value.revision
  }

  predicate HasDecision(log: Option<AuditLog>, setId: string) {
    exists k :: 0 <= k < |Entries(log)| && Entries(log)[k].setId == setId
  }

  predicate GoodEntry(e: Entry, rationale: Option<string>) {
    match e.kind
    case Accept => e.modified == None
    case Reject => e.modified == None && rationale.Some?
    case Modify => rationale.Some? && e.modified.Some? && e.modified.value != e.selected.candidate.maneuver
  }

  /** The audit service: one final decision per recommendation set, in time order. */
  function Record(log: Option<AuditLog>, s: RecommendationSet, selected: Validated, kind: DecisionKind, at: nat,
                  inputs: Inputs): Result<AuditLog, Error> {
    var entry := Entry(s.id, selected, kind, at, inputs.maneuver);
    if log.Some? && at < log.value.generatedAt then Err(TimeRunsBackwards)
    else if HasDecision(log, s.id) then Err(AlreadyDecided)
    else if selected !in s.options || at < s.generatedAt ||
        !GoodEntry(entry, inputs.rationale) then Err(InvalidDecision)
    else Ok(AuditLog(Revision(log) + 1, at, Entries(log) + [entry]))
  }

  function Decide(d: Decided, kind: DecisionKind, inputs: Inputs): Outcome<Decided> {
    var b := d.res.base;
    if d.res.resolution == None || b.step == None then Fails(d, MissingEvidence)
    else if b.step.value.tick != b.clock.tick then Fails(d, EvidenceBehindClock)
    else if d.decision.Some? && d.decision.value.tick == b.clock.tick then Fails(d, AlreadyDoneThisTick)
    else
      var s := d.res.resolution.value.recommended;
      if b.catalog.Current() != Some(s) then Fails(d, NotCurrent)
      else if s.Primary() == None then Fails(d, NoPrimary)
      else match Record(b.audit, s, s.Primary().value, kind, b.clock.tick, inputs)
        case Err(e) => Fails(d, e)
        case Ok(log) =>
          var entry := log.entries[|log.entries| - 1];
          Done(Decided(d.res.(base := b.(audit := Some(log))),
              Some(Decision(b.clock.tick, s.Primary().value, entry, log))))
  }

  // ---------------------------------------------------------------- modified maneuvers

  datatype RevalidateEnv = RevalidationFails | Verdict(safe: bool)

  function Revalidate(v: Revalidated, env: RevalidateEnv): Outcome<Revalidated> {
    var b := v.dec.res.base;
    if v.dec.decision == None then Fails(v, MissingEvidence)
    else if v.dec.decision.value.entry.kind != Modify then Fails(v, WrongDecision)
    else if v.dec.res.resolution == None || b.step == None then Fails(v, MissingEvidence)
    else if b.step.value.tick != b.clock.tick then Fails(v, EvidenceBehindClock)
    else if v.dec.decision.value.tick != b.clock.tick then Fails(v, NotContemporary)
    else if v.revalidation.Some? && v.revalidation.value.tick == b.clock.tick then Fails(v, AlreadyDoneThisTick)
    else if b.audit != Some(v.dec.decision.value.log) then Fails(v, NotCurrent)
    else
      var e := v.dec.decision.value.entry;
      if e.modified == None then Fails(v, MissingEvidence)
      else if env.RevalidationFails? then Fails(v, CalculationFailed)
      else Done(v.(revalidation := Some(Revalidation(b.clock.tick, e,
          Candidate(e.selected.candidate.aircraft, e.modified.value), env.safe))))
  }

  // ---------------------------------------------------------------- application

  datatype AfterFailure = NoneAfter | ReassessmentFails | PairMissing

  /** Whether the aircraft takes the anchor, and how the reassessment after it comes out. */
  datatype ApplyEnv = ApplyEnv(takes: bool, after: AfterFailure)

  predicate Anchored(anchors: seq<Anchor>, aircraft: string, tick: nat) {
    exists k :: 0 <= k < |anchors| && anchors[k].candidate.aircraft == aircraft && anchors[k].tick == tick
  }

  /** An aircraft takes one anchor per instant, while the clock runs. */
  function PutAnchor(b: Base, c: Candidate, env: ApplyEnv): Result<Base, Error> {
    if b.clock.mode != Running || !env.takes || Anchored(b.anchors, c.aircraft, b.clock.tick) then Err(AnchorRefused)
    else Ok(b.(anchors := b.anchors + [Anchor(c, b.clock.tick)]))
  }

  /** Anchor the aircraft, then assess the traffic again. The anchor stays when that fails. */
  function Apply(b: Base, c: Candidate, env: ApplyEnv): Outcome<Base> {
    match PutAnchor(b, c, env)
    case Err(e) => Fails(b, e)
    case Ok(anchored) =>
      if env.after == ReassessmentFails then Fails(anchored, CalculationFailed)
      else match RefreshQueue(anchored)
        case Err(e) => Fails(anchored, e)
        case Ok(q) => if env.after == PairMissing then Fails(q, PairNotReassessed) else Done(q)
  }

  /** The application of an accepted candidate. */
  function ApplyApproved(d: Decided, last: Option<Application>,
                         env: ApplyEnv): (o: Outcome<(Decided, Option<Application>)>) {
    var b := d.res.base;
    if d.decision == None || d.res.resolution == None || b.step == None then Fails((d, last), MissingEvidence)
    else if b.step.value.tick != b.clock.tick then Fails((d, last), EvidenceBehindClock)
    else if d.decision.value.tick != b.clock.tick then Fails((d, last), NotContemporary)
    else if last.Some? && last.value.tick == b.clock.tick then Fails((d, last), AlreadyDoneThisTick)
    else if b.audit != Some(d.decision.value.log) then Fails((d, last), NotCurrent)
    else
      var e := d.decision.value.entry;
      if e.Approved() == None then Fails((d, last), WrongDecision)
      else
        var o := Apply(b, e.Approved().value, env);
        var after := d.(res := d.res.(base := o.state));
        if o.error.Some? then Fails((after, last), o.error.value)
        else Done((after, Some(Application(b.clock.tick, e, e.Approved().value))))
  }

  /** The application of a modified maneuver: only SAFE evidence of the current step. */
  function ApplyModified(v: Revalidated, last: Option<Application>,
                         env: ApplyEnv): (o: Outcome<(Revalidated, Option<Application>)>) {
    var b := v.dec.res.base;
    if v.revalidation == None then Fails((v, last), MissingEvidence)
    else if !v.revalidation.value.safe then Fails((v, last), NotSafe)
    else if b.step == None then Fails((v, last), MissingEvidence)
    else if b.step.value.tick != b.clock.tick then Fails((v, last), EvidenceBehindClock)
    else if v.revalidation.value.tick != b.clock.tick then Fails((v, last), NotContemporary)
    else if last.Some? && last.value.tick == b.clock.tick then Fails((v, last), AlreadyDoneThisTick)
    else if v.dec.decision == None then Fails((v, last), MissingEvidence)
    else if b.audit != Some(v.dec.decision.value.log) then Fails((v, last), NotCurrent)
    else
      var c := v.revalidation.value.candidate;
      var o := Apply(b, c, env);
      var after := v.(dec := v.dec.(res := v.dec.res.(base := o.state)));
      if o.error.Some? then Fails((after, last), o.error.value)
      else Done((after, Some(Application(b.clock.tick, v.revalidation.value.entry, c))))
  }

  // ---------------------------------------------------------------- the session commands

  datatype Stage =
    | ReadyStage | Monitoring | DeviationDetected | ConflictDetected | RecommendationAvailable
    | DecisionAccepted | DecisionModified | DecisionRejected | ModificationRevalidated | ConflictResolved

  function StageOf(s: Session): Stage {
    if s.modified.Some? || s.approved.Some? then ConflictResolved
    else if s.rev.revalidation.Some? then ModificationRevalidated
    else if s.Decision().Some? then
      (match s.Decision().value.entry.kind
       case Modify => DecisionModified
       case Reject => DecisionRejected
       case Accept => DecisionAccepted)
    else if s.Resolution().Some? then RecommendationAvailable
    else if s.Base().step == None then ReadyStage
    else if s.Base().step.value.highRisk then ConflictDetected
    else if s.Base().step.value.nonRoutine then DeviationDetected
    else Monitoring
  }

  datatype Command =
    | Reset | Advance(seconds: Option<int>) | Start | AdvanceToConflict | Generate
    | Respond(kind: DecisionKind) | RevalidateModified | ApplyModifiedManeuver | ApplyApprovedManeuver

  datatype Env = Env(step: StepEnv, resolve: ResolveEnv, revalidate: RevalidateEnv, apply: ApplyEnv)

  const MAX_ADVANCE := 86400

  predicate ValidInputs(c: Command, inputs: Inputs, current: Option<RecommendationSet>) {
    if !c.Respond? || c.kind == Accept then inputs == Inputs(None, None)
    else
      && inputs.rationale.Some? && inputs.rationale.value != ""
      && (if c.kind == Reject then inputs.maneuver == None
          else
            && inputs.maneuver.Some?
            && !(current.Some? && current.value.Primary().Some? &&
               current.value.Primary().value.candidate.maneuver == inputs.maneuver.value))
  }

  predicate Behind(s: Session) {
    s.Base().step.Some? && s.Base().step.value.tick != s.Base().clock.tick
  }

  /** The stage each command asks for. */
  function Required(c: Command): Option<Stage> {
    match c
    case Reset => None
    case Advance(_) => None
    case Start => Some(ReadyStage)
    case AdvanceToConflict => Some(Monitoring)
    case Generate => Some(ConflictDetected)
    case Respond(_) => Some(RecommendationAvailable)
    case RevalidateModified => Some(DecisionModified)
    case ApplyModifiedManeuver => Some(ModificationRevalidated)
    case ApplyApprovedManeuver => Some(DecisionAccepted)
  }

  function StepBy(s: Session, n: nat, env: Env, period: Period): Outcome<Session> {
    var o := DoStep(s.Base(), n, env.step, period);
    Outcome(s.WithBase(o.state), o.error)
  }

  function Playing(s: Session): Session {
    s.WithBase(s.Base().(clock := s.Base().clock.Play()))
  }

  function Execute(s: Session, c: Command, inputs: Inputs, env: Env, period: Period): Outcome<Session> {
    if !ValidInputs(c, inputs, s.Base().catalog.Current()) then Fails(s, InvalidInputs)
    else if c == Reset then Done(Fresh(s.Base().clock.Reset()))
    else if Behind(s) then Fails(s, EvidenceBehindClock)
    else if c.Advance? then
      if c.seconds == None || !(1 <= c.seconds.value <= MAX_ADVANCE) then Fails(s, InvalidSeconds)
      else StepBy(if s.Base().clock.mode == Running then s else Playing(s), c.seconds.value, env, period)
    else if Required(c) != Some(StageOf(s)) then Fails(s, WrongStage)
    else Perform(s, c, inputs, env, period)
  }

  /** A command at its checkpoint. */
  function Perform(s: Session, c: Command, inputs: Inputs, env: Env, period: Period): Outcome<Session> {
    match c
    case Start => StepBy(Playing(s), 0, env, period)
    case AdvanceToConflict => StepBy(s, 70, env, period)
    case Generate =>
      var o := StepBy(s, 5, env, period);
      if o.error.Some? then o
      else
        var r := Resolve(o.state.rev.dec.res, env.resolve);
        Outcome(o.state.WithResolved(r.state), r.error)
    case Respond(kind) =>
      var o := StepBy(s, 15, env, period);
      if o.error.Some? then o
      else
        var d := Decide(o.state.rev.dec, kind, inputs);
        Outcome(o.state.WithDecided(d.state), d.error)
    case RevalidateModified =>
      var v := Revalidate(s.rev, env.revalidate);
      Outcome(s.(rev := v.state), v.error)
    case ApplyModifiedManeuver =>
      var a := ApplyModified(s.rev, s.modified, env.apply);
      Outcome(s.(rev := a.state.0, modified := a.state.1), a.error)
    case ApplyApprovedManeuver =>
      var a := ApplyApproved(s.rev.dec, s.approved, env.apply);
      Outcome(s.WithDecided(a.state.0).(approved := a.state.1), a.error)
    case _ => Done(s)
  }

  // ---------------------------------------------------------------- runs

  /** What happens to a session: a command of the operator, or something else driving the clock. */
  datatype Event =
    | Operator(command: Command, inputs: Inputs, env: Env)
    | ClockPlay | ClockPause | ClockTick(ticks: nat) | ClockReset

  function OnClock(s: Session, c: Clock): Session {
    s.WithBase(s.Base().(clock := c))
  }

  function Next(s: Session, e: Event, period: Period): Session {
    match e
    case Operator(c, inputs, env) => Execute(s, c, inputs, env, period).state
    case ClockPlay => OnClock(s, s.Base().clock.Play())
    case ClockPause => OnClock(s, s.Base().clock.Pause())
    case ClockTick(n) => OnClock(s, s.Base().clock.Tick(n))
    case ClockReset => Fresh(s.Base().clock.Reset())
  }

  function Run(s: Session, events: seq<Event>, period: Period): Session {
    if events == [] then s else Next(Run(s, events[..|events| - 1], period), events[|events| - 1], period)
  }

  predicate Resets(e: Event) {
    e.ClockReset? || (e.Operator? && e.command == Reset)
  }
}
