/** The chain of orchestrators. Each keeps its own last result and the number of resets it has
    seen; reading a result first reads the one upstream. `State` is what the objects amount to:
    everything left over from an earlier run counts as absent. */
module SessionOrchestrators {
  import opened Options
  import opened SessionCore
  import opened SessionServices

  class StepOrchestrator {
    const clock: SimulationClock
    const scheduler: ConflictScheduler
    const fleet: Fleet
    const queue: QueueService
    const catalog: RecommendationCatalog
    const audit: DecisionService
    var observed: nat
    var lastTick: Option<nat>
    var lastResult: Option<StepResult>

    constructor (clock: SimulationClock, scheduler: ConflictScheduler, fleet: Fleet, queue: QueueService,
                 catalog: RecommendationCatalog, audit: DecisionService)
      requires scheduler.clock == clock && fleet.clock == clock && scheduler.Valid() && fleet.Valid() && audit.Valid()
      ensures Valid()
      ensures this.clock == clock && this.scheduler == scheduler && this.fleet == fleet
      ensures this.queue == queue && this.catalog == catalog && this.audit == audit
      ensures lastResult == None && observed == clock.runs
    {
      this.clock, this.scheduler, this.fleet := clock, scheduler, fleet;
      this.queue, this.catalog, this.audit := queue, catalog, audit;
      observed, lastTick, lastResult := clock.runs, None, None;
    }

    ghost function Repr(): set<object> {
      {this, clock, scheduler, fleet, queue, catalog, audit}
    }

    /** What noticing a reset may touch. */
    ghost function Synced(): set<object> {
      {this, queue, catalog, audit}
    }

    ghost predicate Valid()
      reads Repr()
    {
      && scheduler.clock == clock && fleet.clock == clock
      && scheduler.Valid() && fleet.Valid() && audit.Valid()
      && observed <= clock.runs
      && lastTick == (if lastResult.Some? then Some(lastResult.value.tick) else None)
    }

    ghost predicate UpToDate()
      reads this, clock
    {
      observed == clock.runs
    }

    ghost function State(): Base
      requires Valid()
      reads Repr()
    {
      if UpToDate()
      then Base(clock.State(), scheduler.Slot(), fleet.Anchors(), queue.lastAt, catalog.State(), audit.lastLog,
          lastResult)
      else Base(clock.State(), scheduler.Slot(), fleet.Anchors(), None, NO_SETS, None, None)
    }

    method Synchronize()
      requires Valid()
      modifies Synced()
      ensures Valid() && UpToDate() && State() == old(State())
    {
      if clock.runs == observed {
        return;
      }
      queue.Reset();
      catalog.Reset();
      audit.Reset();
      lastTick := None;
      lastResult := None;
      observed := clock.runs;
    }

    method LastResult() returns (r: Option<StepResult>)
      requires Valid()
      modifies Synced()
      ensures Valid() && UpToDate() && State() == old(State()) && r == State().step && r == lastResult
    {
      Synchronize();
      r := lastResult;
    }

    method Step(n: nat, env: StepEnv) returns (e: Option<Error>)
      requires Valid()
      modifies Repr()
      ensures Valid() && clock.runs == old(clock.runs)
      ensures Outcome(State(), e) == DoStep(old(State()), n, env, scheduler.period)
    {
      Synchronize();
      if clock.mode != Running {
        return Some(ClockNotRunning);
      }
      if n > 0 {
        clock.Tick(n);
      }
      e := CalculateStep(env);
    }

    /** The calculations of one step, at the time the clock shows. */
    method CalculateStep(env: StepEnv) returns (e: Option<Error>)
      requires Valid() && UpToDate() && clock.mode == Running
      modifies this, scheduler, queue
      ensures Valid()
      ensures Outcome(State(), e) == Calculate(old(State()), env, scheduler.period)
    {
      if env.failure == SnapshotFails {
        return Some(CalculationFailed);
      }
      if lastTick == Some(clock.tick) {
        return Some(AlreadyDoneThisTick);
      }
      if env.failure == ConflictRunFails {
        return Some(CalculationFailed);
      }
      var due := scheduler.RunIfDue();
      if env.failure == EvaluationFails {
        return Some(CalculationFailed);
      }
      var refreshed := queue.Refresh(clock.tick);
      if !refreshed {
        return Some(TimeRunsBackwards);
      }
      lastTick := Some(clock.tick);
      lastResult := Some(StepResult(clock.tick, due && env.highRisk, env.nonRoutine));
      e := None;
    }
  }

  /** Anchor the aircraft and assess the traffic again. */
  method ApplyAndReassess(steps: StepOrchestrator, c: Candidate, env: ApplyEnv) returns (e: Option<Error>)
    requires steps.Valid() && steps.UpToDate()
    modifies steps.fleet, steps.queue
    ensures steps.Valid() && steps.UpToDate()
    ensures Outcome(steps.State(), e) == Apply(old(steps.State()), c, env)
  {
    var ok := steps.fleet.ApplyStateAnchor(c, env.takes);
    if !ok {
      return Some(AnchorRefused);
    }
    if env.after == ReassessmentFails {
      return Some(CalculationFailed);
    }
    var refreshed := steps.queue.Refresh(steps.clock.tick);
    if !refreshed {
      return Some(TimeRunsBackwards);
    }
    e := if env.after == PairMissing then Some(PairNotReassessed) else None;
  }

  class ResolutionOrchestrator {
    const steps: StepOrchestrator
    var observed: nat
    var lastTick: Option<nat>
    var lastResult: Option<Resolution>

    constructor (steps: StepOrchestrator)
      requires steps.Valid()
      ensures this.steps == steps && Valid() && lastResult == None && observed == steps.clock.runs
    {
      this.steps := steps;
      observed, lastTick, lastResult := steps.clock.runs, None, None;
    }

    ghost function Repr(): set<object> {
      {this} + steps.Repr()
    }

    ghost function Synced(): set<object> {
      {this} + steps.Synced()
    }

    ghost predicate Valid()
      reads Repr()
    {
      && steps.Valid() && observed <= steps.clock.runs
      && lastTick == (if lastResult.Some? then Some(lastResult.value.tick) else None)
    }

    ghost predicate UpToDate()
      reads this, steps, steps.clock
    {
      steps.UpToDate() && observed == steps.clock.runs
    }

    ghost function State(): Resolved
      requires Valid()
      reads Repr()
    {
      Resolved(steps.State(), if observed == steps.clock.runs then lastResult else None)
    }

    method Synchronize()
      requires Valid()
      modifies this
      ensures Valid() && observed == steps.clock.runs && State() == old(State())
    {
      if steps.clock.runs != observed {
        lastTick := None;
        lastResult := None;
        observed := steps.clock.runs;
      }
    }

    method LastResult() returns (r: Option<Resolution>)
      requires Valid()
      modifies Synced()
      ensures Valid() && UpToDate() && State() == old(State()) && r == State().resolution && r == lastResult
    {
      var _ := steps.LastResult();
      Synchronize();
      r := lastResult;
    }

    method Resolve(env: ResolveEnv) returns (e: Option<Error>)
      requires Valid()
      modifies Synced()
      ensures Valid() && UpToDate()
      ensures Outcome(State(), e) == SessionCore.Resolve(old(State()), env)
    {
      var step := steps.LastResult();
      Synchronize();
      if step == None {
        return Some(MissingEvidence);
      }
      if step.value.tick != steps.clock.tick {
        return Some(EvidenceBehindClock);
      }
      if lastTick == Some(steps.clock.tick) {
        return Some(AlreadyDoneThisTick);
      }
      if env.ResolveFails? {
        return Some(CalculationFailed);
      }
      var s := Recommend(env, step.value.tick);
      e := steps.catalog.Publish(s);
      if e.Some? {
        return;
      }
      lastTick := Some(steps.clock.tick);
      lastResult := Some(Resolution(step.value.tick, s));
    }
  }

  class DecisionOrchestrator {
    const resolution: ResolutionOrchestrator
    var observed: nat
    var lastTick: Option<nat>
    var lastResult: Option<Decision>

    constructor (resolution: ResolutionOrchestrator)
      requires resolution.Valid()
      ensures this.resolution == resolution && Valid() && lastResult == None && observed == resolution.steps.clock.runs
    {
      this.resolution := resolution;
      observed, lastTick, lastResult := resolution.steps.clock.runs, None, None;
    }

    ghost function Repr(): set<object> {
      {this} + resolution.Repr()
    }

    ghost function Synced(): set<object> {
      {this} + resolution.Synced()
    }

    ghost predicate Valid()
      reads Repr()
    {
      && resolution.Valid() && observed <= resolution.steps.clock.runs
      && lastTick == (if lastResult.Some? then Some(lastResult.value.tick) else None)
    }

    ghost predicate UpToDate()
      reads this, resolution, resolution.steps, resolution.steps.clock
    {
      resolution.UpToDate() && observed == resolution.steps.clock.runs
    }

    ghost function State(): Decided
      requires Valid()
      reads Repr()
    {
      Decided(resolution.State(), if observed == resolution.steps.clock.runs then lastResult else None)
    }

    method Synchronize()
      requires Valid()
      modifies this
      ensures Valid() && observed == resolution.steps.clock.runs && State() == old(State())
    {
      if resolution.steps.clock.runs != observed {
        lastTick := None;
        lastResult := None;
        observed := resolution.steps.clock.runs;
      }
    }

    method LastResult() returns (r: Option<Decision>)
      requires Valid()
      modifies Synced()
      ensures Valid() && UpToDate() && State() == old(State()) && r == State().decision && r == lastResult
    {
      var _ := resolution.LastResult();
      Synchronize();
      r := lastResult;
    }

    method Decide(kind: DecisionKind, inputs: Inputs) returns (e: Option<Error>)
      requires Valid()
      modifies Synced()
      ensures Valid() && UpToDate()
      ensures Outcome(State(), e) == SessionCore.Decide(old(State()), kind, inputs)
    {
      var resolved := resolution.LastResult();
      Synchronize();
      if resolved == None {
        return Some(MissingEvidence);
      }
      var step := resolution.steps.LastResult();
      if step == None {
        return Some(MissingEvidence);
      }
      e := DecideOn(resolved.value, step.value, kind, inputs);
    }

    /** The decision on up-to-date evidence. */
    method DecideOn(resolved: Resolution, step: StepResult, kind: DecisionKind, inputs: Inputs)
        returns (e: Option<Error>)
      requires Valid() && UpToDate() && State().res.resolution == Some(resolved) && State().res.base.step == Some(step)
      modifies this, resolution.steps.audit
      ensures Valid() && UpToDate()
      ensures Outcome(State(), e) == SessionCore.Decide(old(State()), kind, inputs)
    {
      var steps := resolution.steps;
      if step.tick != steps.clock.tick {
        return Some(EvidenceBehindClock);
      }
      if lastTick == Some(steps.clock.tick) {
        return Some(AlreadyDoneThisTick);
      }
      var s := resolved.recommended;
      if steps.catalog.State().Current() != Some(s) {
        return Some(NotCurrent);
      }
      var primary := s.Primary();
      if primary == None {
        return Some(NoPrimary);
      }
      e := steps.audit.Decide(s, primary.value, kind, step.tick, inputs);
      if e.Some? {
        return;
      }
      var log := steps.audit.lastLog.value;
      lastTick := Some(steps.clock.tick);
      lastResult := Some(SessionCore.Decision.Decision(step.tick, primary.value, log.entries[|log.entries| - 1], log));
    }
  }

  class RevalidationOrchestrator {
    const decision: DecisionOrchestrator
    var observed: nat
    var lastTick: Option<nat>
    var lastResult: Option<Revalidation>

    constructor (decision: DecisionOrchestrator)
      requires decision.Valid()
      ensures this.decision == decision && Valid() && lastResult == None && observed == Clock().runs
    {
      this.decision := decision;
      observed, lastTick, lastResult := decision.resolution.steps.clock.runs, None, None;
    }

    function Clock(): SimulationClock {
      decision.resolution.steps.clock
    }

    ghost function Repr(): set<object> {
      {this} + decision.Repr()
    }

    ghost function Synced(): set<object> {
      {this} + decision.Synced()
    }

    ghost predicate Valid()
      reads Repr()
    {
      && decision.Valid() && observed <= Clock().runs
      && lastTick == (if lastResult.Some? then Some(lastResult.value.tick) else None)
    }

    ghost predicate UpToDate()
      reads this, decision, decision.resolution, decision.resolution.steps, Clock()
    {
      decision.UpToDate() && observed == Clock().runs
    }

    ghost function State(): Revalidated
      requires Valid()
      reads Repr()
    {
      Revalidated(decision.State(), if observed == Clock().runs then lastResult else None)
    }

    method Synchronize()
      requires Valid()
      modifies this
      ensures Valid() && observed == Clock().runs && State() == old(State())
    {
      if Clock().runs != observed {
        lastTick := None;
        lastResult := None;
        observed := Clock().runs;
      }
    }

    method LastResult() returns (r: Option<Revalidation>)
      requires Valid()
      modifies Synced()
      ensures Valid() && UpToDate() && State() == old(State()) && r == State().revalidation && r == lastResult
    {
      var _ := decision.LastResult();
      Synchronize();
      r := lastResult;
    }

    method Revalidate(env: RevalidateEnv) returns (e: Option<Error>)
      requires Valid()
      modifies Synced()
      ensures Valid() && UpToDate()
      ensures Outcome(State(), e) == SessionCore.Revalidate(old(State()), env)
    {
      var decided := decision.LastResult();
      Synchronize();
      if decided == None {
        return Some(MissingEvidence);
      }
      var entry := decided.value.entry;
      if entry.kind != Modify {
        return Some(WrongDecision);
      }
      var resolved := decision.resolution.LastResult();
      var step := decision.resolution.steps.LastResult();
      if resolved == None || step == None {
        return Some(MissingEvidence);
      }
      e := RevalidateOn(decided.value, step.value, env);
    }

    /** The revalidation of a modified decision on up-to-date evidence. */
    method RevalidateOn(decided: Decision, step: StepResult, env: RevalidateEnv) returns (e: Option<Error>)
      requires Valid() && UpToDate() && decided.entry.kind == Modify
      requires State().dec.decision == Some(decided) && State().dec.res.resolution.Some? &&
               State().dec.res.base.step == Some(step)
      modifies this
      ensures Valid() && UpToDate()
      ensures Outcome(State(), e) == SessionCore.Revalidate(old(State()), env)
    {
      var entry := decided.entry;
      if step.tick != Clock().tick {
        return Some(EvidenceBehindClock);
      }
      if decided.tick != step.tick {
        return Some(NotContemporary);
      }
      if lastTick == Some(Clock().tick) {
        return Some(AlreadyDoneThisTick);
      }
      if decision.resolution.steps.audit.lastLog != Some(decided.log) {
        return Some(NotCurrent);
      }
      if entry.modified == None {
        return Some(MissingEvidence);
      }
      if env.RevalidationFails? {
        return Some(CalculationFailed);
      }
      lastTick := Some(Clock().tick);
      lastResult := Some(Revalidation(step.tick, entry,
          Candidate(entry.selected.candidate.aircraft, entry.modified.value), env.safe));
      e := None;
    }
  }

  /** Application of an accepted candidate. */
  class ApprovedApplication {
    const decision: DecisionOrchestrator
    var observed: nat
    var lastTick: Option<nat>
    var lastResult: Option<Application>

    constructor (decision: DecisionOrchestrator)
      requires decision.Valid()
      ensures this.decision == decision && Valid() && lastResult == None && observed == Clock().runs
    {
      this.decision := decision;
      observed, lastTick, lastResult := decision.resolution.steps.clock.runs, None, None;
    }

    function Clock(): SimulationClock {
      decision.resolution.steps.clock
    }

    ghost function Repr(): set<object> {
      {this} + decision.Repr()
    }

    ghost function Synced(): set<object> {
      {this} + decision.Synced()
    }

    /** The orchestrator's own fields are in order. */
    ghost predicate Own()
      reads this, Clock()
    {
      observed <= Clock().runs && lastTick == (if lastResult.Some? then Some(lastResult.value.tick) else None)
    }

    ghost predicate Valid()
      reads Repr()
    {
      decision.Valid() && Own()
    }

    ghost function Last(): Option<Application>
      reads this, Clock()
    {
      if observed == Clock().runs then lastResult else None
    }

    method Synchronize()
      requires Own()
      modifies this
      ensures Own() && observed == Clock().runs && Last() == old(Last())
    {
      if Clock().runs != observed {
        lastTick := None;
        lastResult := None;
        observed := Clock().runs;
      }
    }

    method LastResult() returns (r: Option<Application>)
      requires Valid()
      modifies Synced()
      ensures Valid() && decision.UpToDate() && decision.State() == old(decision.State()) && Last() == old(Last())
      ensures r == Last() == lastResult && observed == Clock().runs
    {
      var _ := decision.LastResult();
      Synchronize();
      r := lastResult;
    }

    method ApplyAndRevalidate(env: ApplyEnv) returns (e: Option<Error>)
      requires Valid()
      modifies Synced(), decision.resolution.steps.fleet
      ensures Valid()
      ensures Outcome((decision.State(), Last()), e) == ApplyApproved(old(decision.State()), old(Last()), env)
    {
      var decided := decision.LastResult();
      Synchronize();
      if decided == None {
        return Some(MissingEvidence);
      }
      e := ApplyDecided(decided.value, env);
    }

    method ApplyDecided(decided: Decision, env: ApplyEnv) returns (e: Option<Error>)
      requires Valid() && decision.UpToDate() && observed == Clock().runs && decision.State().decision == Some(decided)
      modifies Synced(), decision.resolution.steps.fleet
      ensures Valid()
      ensures Outcome((decision.State(), Last()), e) == ApplyApproved(old(decision.State()), old(Last()), env)
    {
      var resolved := decision.resolution.LastResult();
      if resolved == None {
        return Some(MissingEvidence);
      }
      var step := decision.resolution.steps.LastResult();
      if step == None {
        return Some(MissingEvidence);
      }
      e := ApplyOn(decided, step.value, env);
    }

    /** The application of a decision on up-to-date evidence. */
    method ApplyOn(decided: Decision, step: StepResult, env: ApplyEnv) returns (e: Option<Error>)
      requires Valid() && decision.UpToDate() && observed == Clock().runs
      requires decision.State().decision == Some(decided) && decision.State().res.resolution.Some? &&
               decision.State().res.base.step == Some(step)
      modifies this, decision.resolution.steps.fleet, decision.resolution.steps.queue
      ensures Valid()
      ensures Outcome((decision.State(), Last()), e) == ApplyApproved(old(decision.State()), old(Last()), env)
    {
      if step.tick != Clock().tick {
        return Some(EvidenceBehindClock);
      }
      if decided.tick != step.tick {
        return Some(NotContemporary);
      }
      if lastTick == Some(Clock().tick) {
        return Some(AlreadyDoneThisTick);
      }
      if decision.resolution.steps.audit.lastLog != Some(decided.log) {
        return Some(NotCurrent);
      }
      var candidate := decided.entry.Approved();
      if candidate == None {
        return Some(WrongDecision);
      }
      e := ApplyAndReassess(decision.resolution.steps, candidate.value, env);
      if e.Some? {
        return;
      }
      lastTick := Some(Clock().tick);
      lastResult := Some(Application(step.tick, decided.entry, candidate.value));
    }
  }

  /** Application of a modified maneuver that was found SAFE. */
  class ModifiedApplication {
    const revalidation: RevalidationOrchestrator
    var observed: nat
    var lastTick: Option<nat>
    var lastResult: Option<Application>

    constructor (revalidation: RevalidationOrchestrator)
      requires revalidation.Valid()
      ensures this.revalidation == revalidation && Valid() && lastResult == None && observed == Clock().runs
    {
      this.revalidation := revalidation;
      observed, lastTick, lastResult := revalidation.Clock().runs, None, None;
    }

    function Clock(): SimulationClock {
      revalidation.Clock()
    }

    function Steps(): StepOrchestrator {
      revalidation.decision.resolution.steps
    }

    ghost function Repr(): set<object> {
      {this} + revalidation.Repr()
    }

    ghost function Synced(): set<object> {
      {this} + revalidation.Synced()
    }

    ghost predicate Own()
      reads this, Clock()
    {
      observed <= Clock().runs && lastTick == (if lastResult.Some? then Some(lastResult.value.tick) else None)
    }

    ghost predicate Valid()
      reads Repr()
    {
      revalidation.Valid() && Own()
    }

    ghost function Last(): Option<Application>
      reads this, Clock()
    {
      if observed == Clock().runs then lastResult else None
    }

    method Synchronize()
      requires Own()
      modifies this
      ensures Own() && observed == Clock().runs && Last() == old(Last())
    {
      if Clock().runs != observed {
        lastTick := None;
        lastResult := None;
        observed := Clock().runs;
      }
    }

    method LastResult() returns (r: Option<Application>)
      requires Valid()
      modifies Synced()
      ensures Valid() && revalidation.UpToDate() && revalidation.State() == old(revalidation.State()) &&
              Last() == old(Last())
      ensures r == Last() == lastResult && observed == Clock().runs
    {
      var _ := revalidation.LastResult();
      Synchronize();
      r := lastResult;
    }

    method AuthorizeApplyAndRevalidate(env: ApplyEnv) returns (e: Option<Error>)
      requires Valid()
      modifies Synced(), Steps().fleet
      ensures Valid()
      ensures Outcome((revalidation.State(), Last()), e) == ApplyModified(old(revalidation.State()), old(Last()), env)
    {
      var checked := revalidation.LastResult();
      Synchronize();
      if checked == None {
        return Some(MissingEvidence);
      }
      e := ApplyChecked(checked.value, env);
    }

    method ApplyChecked(checked: Revalidation, env: ApplyEnv) returns (e: Option<Error>)
      requires Valid() && revalidation.UpToDate() && observed == Clock().runs &&
               revalidation.State().revalidation == Some(checked)
      modifies Synced(), Steps().fleet
      ensures Valid()
      ensures Outcome((revalidation.State(), Last()), e) == ApplyModified(old(revalidation.State()), old(Last()), env)
    {
      if !checked.safe {
        return Some(NotSafe);
      }
      var step := Steps().LastResult();
      if step == None {
        return Some(MissingEvidence);
      }
      e := ApplyOn(checked, step.value, env);
    }

    /** The application of a SAFE revalidation on up-to-date evidence. */
    method ApplyOn(checked: Revalidation, step: StepResult, env: ApplyEnv) returns (e: Option<Error>)
      requires Valid() && revalidation.UpToDate() && observed == Clock().runs && checked.safe
      requires revalidation.State().revalidation == Some(checked) &&
               revalidation.State().dec.res.base.step == Some(step)
      modifies Synced(), Steps().fleet
      ensures Valid()
      ensures Outcome((revalidation.State(), Last()), e) == ApplyModified(old(revalidation.State()), old(Last()), env)
    {
      if step.tick != Clock().tick {
        return Some(EvidenceBehindClock);
      }
      if checked.tick != step.tick {
        return Some(NotContemporary);
      }
      if lastTick == Some(Clock().tick) {
        return Some(AlreadyDoneThisTick);
      }
      var decided := revalidation.decision.LastResult();
      if decided == None {
        return Some(MissingEvidence);
      }
      e := ApplyDecided(checked, decided.value, env);
    }

    method ApplyDecided(checked: Revalidation, decided: Decision, env: ApplyEnv) returns (e: Option<Error>)
      requires Valid() && revalidation.UpToDate() && observed == Clock().runs && checked.safe &&
               checked.tick == Clock().tick
      requires lastTick != Some(Clock().tick)
      requires var v := revalidation.State();
               && v.revalidation == Some(checked) && v.dec.decision == Some(decided)
               && v.dec.res.base.step.Some? && v.dec.res.base.step.value.tick == Clock().tick
      modifies this, Steps().fleet, Steps().queue
      ensures Valid()
      ensures Outcome((revalidation.State(), Last()), e) == ApplyModified(old(revalidation.State()), old(Last()), env)
    {
      if Steps().audit.lastLog != Some(decided.log) {
        return Some(NotCurrent);
      }
      e := ApplyAndReassess(Steps(), checked.candidate, env);
      if e.Some? {
        return;
      }
      lastTick := Some(Clock().tick);
      lastResult := Some(Application(Clock().tick, checked.entry, checked.candidate));
    }
  }
}
