/** When each command of the operator goes through: from the evidence there is, the clock, what the
    operator says and what the calculations come to, for every session that satisfies the invariant. */
module SessionCommands {
  import opened Options
  import opened SessionCore
  import opened SessionSafety

  // ---------------------------------------------------------------- stages are evidence

  ghost predicate Applied(s: Session) {
    s.modified.Some? || s.approved.Some?
  }

  /** Assessed, with nothing recommended yet. */
  ghost predicate Watching(s: Session, highRisk: bool, nonRoutine: bool) {
    && s.Resolution() == None && s.Base().step.Some?
    && s.Base().step.value.highRisk == highRisk && s.Base().step.value.nonRoutine == nonRoutine
  }

  ghost predicate Answer(s: Session, kind: DecisionKind) {
    s.Decision().Some? && s.Decision().value.entry.kind == kind && s.rev.revalidation == None && !Applied(s)
  }

  /** Every stage is exactly the evidence of its own. */
  lemma StageIs(s: Session)
    requires SessionOk(s)
    ensures StageOf(s) == ReadyStage <==> s.Base().step == None
    ensures StageOf(s) == Monitoring <==> Watching(s, false, false)
    ensures StageOf(s) == DeviationDetected <==> Watching(s, false, true)
    ensures StageOf(s) == ConflictDetected <==> Watching(s, true, false) || Watching(s, true, true)
    ensures StageOf(s) == RecommendationAvailable <==> s.Resolution().Some? && s.Decision() == None
    ensures StageOf(s) == DecisionAccepted <==> Answer(s, Accept)
    ensures StageOf(s) == DecisionModified <==> Answer(s, Modify)
    ensures StageOf(s) == DecisionRejected <==> Answer(s, Reject)
    ensures StageOf(s) == ModificationRevalidated <==> s.rev.revalidation.Some? && !Applied(s)
    ensures StageOf(s) == ConflictResolved <==> Applied(s)
  {
    if Applied(s) {
      assert AnchorOk(s.Base().anchors[0], s.rev);
    }
  }

  /** Whose turn it is. */
  ghost predicate Turn(s: Session, c: Command) {
    match c
    case Reset => false
    case Advance(_) => false
    case Start => s.Base().step == None
    case AdvanceToConflict => Watching(s, false, false)
    case Generate => Watching(s, true, false) || Watching(s, true, true)
    case Respond(_) => s.Resolution().Some? && s.Decision() == None
    case RevalidateModified => Answer(s, Modify)
    case ApplyModifiedManeuver => s.rev.revalidation.Some? && !Applied(s)
    case ApplyApprovedManeuver => Answer(s, Accept)
  }

  lemma TurnIs(s: Session, c: Command)
    requires SessionOk(s)
    ensures Required(c) == Some(StageOf(s)) <==> Turn(s, c)
  {
    StageIs(s);
  }

  // ---------------------------------------------------------------- one step

  /** Conflicts are assessed in slots of the period: the next one is due when its slot begins. */
  lemma DueIff(slot: Option<int>, tick: nat, period: Period)
    ensures Due(slot, tick, period) <==> Begun(slot, tick, period)
    ensures InSlot(SlotOf(tick, period), tick, period)
  {
    var q := tick as real / period;
    assert q * period == tick as real;
    var k := q.Floor;
    assert k as real <= q < (k + 1) as real;
    Scaled(k as real, q, period);
    Scaled((k + 1) as real, q, period);
    assert k == SlotOf(tick, period) && !((k + 1) as real * period <= tick as real);
    if slot.Some? {
      Scaled((slot.value + 1) as real, q, period);
    }
  }

  lemma Scaled(x: real, y: real, p: real)
    requires p > 0.0
    ensures x <= y <==> x * p <= y * p
  {
    if x <= y {
      assert (y - x) * p >= 0.0;
    } else {
      assert (x - y) * p > 0.0;
    }
  }

  /** The slot after the last one assessed has begun. */
  ghost predicate Begun(slot: Option<int>, tick: nat, period: Period) {
    slot == None || (slot.value + 1) as real * period <= tick as real
  }

  ghost predicate InSlot(slot: int, tick: nat, period: Period) {
    slot as real * period <= tick as real < (slot + 1) as real * period
  }

  /** The clock runs and has moved by n ticks, and the evidence is of that very tick. A high risk
      counts only if an assessment was due. */
  ghost predicate SteppedBy(b: Base, t: Base, n: nat, env: StepEnv, period: Period) {
    && t == b.(clock := t.clock, slot := t.slot, queueAt := t.queueAt, step := t.step)
    && t.clock == Clock(Running, b.clock.tick + n, b.clock.runs) && t.queueAt == Some(t.clock.tick)
    && t.step.Some? && t.step.value.tick == t.clock.tick && t.step.value.nonRoutine == env.nonRoutine
    && (t.step.value.highRisk <==> env.highRisk && Begun(b.slot, t.clock.tick, period))
    && (if Begun(b.slot, t.clock.tick, period) then t.slot.Some? && InSlot(t.slot.value, t.clock.tick, period)
        else t.slot == b.slot)
  }

  ghost predicate StepGoes(b: Base, n: nat, env: StepEnv) {
    env.failure == NoFailure && (b.step.Some? ==> b.step.value.tick != b.clock.tick + n)
  }

  lemma StepIs(b: Base, n: nat, env: StepEnv, period: Period)
    requires BaseOk(b) && b.clock.mode == Running
    ensures DoStep(b, n, env, period).error == None <==> StepGoes(b, n, env)
    ensures DoStep(b, n, env, period).error == None ==>
              var due := Due(b.slot, b.clock.tick + n, period);
              DoStep(b, n, env, period).state == b.(
                clock := Clock(Running, b.clock.tick + n, b.clock.runs), queueAt := Some(b.clock.tick + n),
                slot := if due then Some(SlotOf(b.clock.tick + n, period)) else b.slot,
                step := Some(StepResult(b.clock.tick + n, due && env.highRisk, env.nonRoutine)))
  {
  }

  /** On a running clock a step goes through exactly when its calculations do and there is no step
      of the tick it leads to. */
  lemma StepsIff(b: Base, n: nat, env: StepEnv, period: Period)
    requires BaseOk(b) && b.clock.mode == Running
    ensures DoStep(b, n, env, period).error == None <==> StepGoes(b, n, env)
    ensures DoStep(b, n, env, period).error == None ==> SteppedBy(b, DoStep(b, n, env, period).state, n, env, period)
  {
    StepIs(b, n, env, period);
    DueIff(b.slot, b.clock.tick + n, period);
    if StepGoes(b, n, env) {
      NewStep(b, DoStep(b, n, env, period).state, b.clock.tick + n, n, env, period,
              Due(b.slot, b.clock.tick + n, period), SlotOf(b.clock.tick + n, period));
    }
  }

  lemma NewStep(b: Base, t: Base, tick: nat, n: nat, env: StepEnv, period: Period, due: bool, slot: int)
    requires tick == b.clock.tick + n && (due <==> Begun(b.slot, tick, period)) && InSlot(slot, tick, period)
    requires t == b.(clock := Clock(Running, tick, b.clock.runs), queueAt := Some(tick),
                     slot := if due then Some(slot) else b.slot,
                     step := Some(StepResult(tick, due && env.highRisk, env.nonRoutine)))
    ensures SteppedBy(b, t, n, env, period)
  {
  }

  // ---------------------------------------------------------------- the commands

  const NOTHING_SAID := Inputs(None, None)

  ghost predicate UpToDate(s: Session) {
    s.Base().step.Some? ==> s.Base().step.value.tick == s.Base().clock.tick
  }

  lemma ResetsIff(s: Session, inputs: Inputs, env: Env, period: Period)
    ensures var o := Execute(s, Reset, inputs, env, period);
            && (o.error == None <==> inputs == NOTHING_SAID)
            && (o.error == None ==> o.state == Fresh(Clock(Ready, 0, s.Base().clock.runs + 1)))
            && (o.error.Some? ==> o.state == s)
  {
  }

  lemma StartsIff(s: Session, inputs: Inputs, env: Env, period: Period)
    requires SessionOk(s)
    ensures var o := Execute(s, Start, inputs, env, period);
            && (o.error == None <==>
                  inputs == NOTHING_SAID && s.Base().step == None && env.step.failure == NoFailure)
            && (o.error == None ==> SteppedBy(s.Base(), o.state.Base(), 0, env.step, period))
  {
    TurnIs(s, Start);
    PlayingKeeps(s);
    StepsIff(Playing(s).Base(), 0, env.step, period);
  }

  lemma AdvancesIff(s: Session, seconds: Option<int>, inputs: Inputs, env: Env, period: Period)
    requires SessionOk(s)
    ensures var o := Execute(s, Advance(seconds), inputs, env, period);
            && (o.error == None <==>
                  && inputs == NOTHING_SAID && UpToDate(s)
                  && seconds.Some? && 1 <= seconds.value <= 86400 && env.step.failure == NoFailure)
            && (o.error == None ==> SteppedBy(s.Base(), o.state.Base(), seconds.value, env.step, period))
  {
    if UpToDate(s) && seconds.Some? && 1 <= seconds.value <= 86400 {
      PlayingKeeps(s);
      StepsIff((if s.Base().clock.mode == Running then s else Playing(s)).Base(), seconds.value, env.step, period);
    }
  }

  lemma AdvancesToConflictIff(s: Session, inputs: Inputs, env: Env, period: Period)
    requires SessionOk(s)
    ensures var o := Execute(s, AdvanceToConflict, inputs, env, period);
            && (o.error == None <==>
                  && inputs == NOTHING_SAID && UpToDate(s) && Watching(s, false, false)
                  && s.Base().clock.mode == Running && env.step.failure == NoFailure)
            && (o.error == None ==> SteppedBy(s.Base(), o.state.Base(), 70, env.step, period))
  {
    TurnIs(s, AdvanceToConflict);
    if s.Base().clock.mode == Running {
      StepsIff(s.Base(), 70, env.step, period);
    }
  }

  /** Only a high risk calls for candidates; any set of them may be published, even an empty one. */
  lemma GeneratesIff(s: Session, inputs: Inputs, env: Env, period: Period)
    requires SessionOk(s)
    ensures var o := Execute(s, Generate, inputs, env, period);
            && (o.error == None <==>
                  && inputs == NOTHING_SAID && UpToDate(s)
                  && (Watching(s, true, false) || Watching(s, true, true))
                  && s.Base().clock.mode == Running && env.step.failure == NoFailure && env.resolve.Candidates?)
            && (o.error == None ==>
                  && SteppedBy(s.Base(), o.state.Base().(catalog := NO_SETS), 5, env.step, period)
                  && o.state.Resolution().Some? && o.state.Resolution().value.tick == s.Base().clock.tick + 5
                  && o.state.Base().catalog.Current() == Some(o.state.Resolution().value.recommended))
  {
    TurnIs(s, Generate);
    if s.Base().clock.mode == Running {
      StepsIff(s.Base(), 5, env.step, period);
      if s.Resolution() == None && StepBy(s, 5, env, period).error == None {
        GenerateGoes(s, env, period);
      }
    }
  }

  lemma GenerateGoes(s: Session, env: Env, period: Period)
    requires SessionOk(s) && s.Resolution() == None && StepBy(s, 5, env, period).error == None
    requires s.Base().clock.mode == Running
    ensures var o := Resolve(StepBy(s, 5, env, period).state.rev.dec.res, env.resolve);
            && (o.error == None <==> env.resolve.Candidates?)
            && (o.error == None ==>
                  && o.state.resolution.Some? && o.state.resolution.value.tick == s.Base().clock.tick + 5
                  && o.state.base.catalog.Current() == Some(o.state.resolution.value.recommended)
                  && o.state.base == StepBy(s, 5, env, period).state.Base().(catalog := o.state.base.catalog))
  {
    StepsIff(s.Base(), 5, env.step, period);
    assert StepBy(s, 5, env, period).state.Base().catalog == NO_SETS;
  }

  /** What the operator must say: nothing with an ACCEPT, a reason with a REJECT, and with a MODIFY a
      reason and a maneuver other than the recommended one. */
  ghost predicate SaidFor(kind: DecisionKind, inputs: Inputs, recommended: string) {
    match kind
    case Accept => inputs.rationale == None && inputs.maneuver == None
    case Reject => inputs.maneuver == None && inputs.rationale.Some? && inputs.rationale.value != ""
    case Modify =>
      && inputs.maneuver.Some? && inputs.maneuver.value != recommended
      && inputs.rationale.Some? && inputs.rationale.value != ""
  }

  ghost predicate CanAnswer(s: Session) {
    && s.Resolution().Some? && s.Decision() == None && s.Resolution().value.recommended.options != []
  }

  /** An empty recommendation cannot be answered at all, not even rejected. */
  lemma RespondsIff(s: Session, kind: DecisionKind, inputs: Inputs, env: Env, period: Period)
    requires SessionOk(s)
    ensures var o := Execute(s, Respond(kind), inputs, env, period);
            && (o.error == None <==>
                  && UpToDate(s) && CanAnswer(s)
                  && SaidFor(kind, inputs, s.Resolution().value.recommended.options[0].candidate.maneuver)
                  && s.Base().clock.mode == Running && env.step.failure == NoFailure)
            && (o.error == None ==>
                  && SteppedBy(s.Base(), o.state.Base().(audit := None), 15, env.step, period)
                  && o.state.Decision().Some?
                  && o.state.Decision().value.tick == s.Base().clock.tick + 15
                  && o.state.Base().audit ==
                       Some(AuditLog(1, s.Base().clock.tick + 15, [o.state.Decision().value.entry]))
                  && o.state.Decision().value.entry == Entry(s.Resolution().value.recommended.id,
                       s.Resolution().value.recommended.options[0], kind, s.Base().clock.tick + 15, inputs.maneuver))
  {
    TurnIs(s, Respond(kind));
    if s.Base().clock.mode == Running && s.Resolution().Some? && s.Decision() == None {
      StepsIff(s.Base(), 15, env.step, period);
      if CanAnswer(s) {
        SaidIff(s, kind, inputs);
      }
      if StepBy(s, 15, env, period).error == None && ValidInputs(Respond(kind), inputs, s.Base().catalog.Current()) {
        RespondGoes(s, kind, inputs, env, period);
      }
    }
  }

  lemma SaidIff(s: Session, kind: DecisionKind, inputs: Inputs)
    requires SessionOk(s) && s.Resolution().Some? && s.Resolution().value.recommended.options != []
    ensures ValidInputs(Respond(kind), inputs, s.Base().catalog.Current()) <==>
            SaidFor(kind, inputs, s.Resolution().value.recommended.options[0].candidate.maneuver)
  {
  }

  lemma RespondGoes(s: Session, kind: DecisionKind, inputs: Inputs, env: Env, period: Period)
    requires SessionOk(s) && s.Resolution().Some? && s.Decision() == None
    requires s.Base().clock.mode == Running && StepBy(s, 15, env, period).error == None
    requires ValidInputs(Respond(kind), inputs, s.Base().catalog.Current())
    ensures var o := Decide(StepBy(s, 15, env, period).state.rev.dec, kind, inputs);
            && (o.error == None <==> s.Resolution().value.recommended.options != [])
            && (o.error == None ==>
                  && o.state.decision.Some?
                  && o.state.decision.value.tick == s.Base().clock.tick + 15
                  && o.state.res.base.audit ==
                       Some(AuditLog(1, s.Base().clock.tick + 15, [o.state.decision.value.entry]))
                  && o.state.decision.value.entry == Entry(s.Resolution().value.recommended.id,
                       s.Resolution().value.recommended.options[0], kind, s.Base().clock.tick + 15, inputs.maneuver)
                  && o.state.res.base == StepBy(s, 15, env, period).state.Base().(audit := o.state.res.base.audit))
  {
    StepsIff(s.Base(), 15, env.step, period);
    var d := StepBy(s, 15, env, period).state.rev.dec;
    assert d.res.base.audit == None && Entries(None) == [];
    var o := Decide(d, kind, inputs);
    if o.error == None {
      assert o.state.decision.value.log.entries == [o.state.decision.value.entry];
    }
  }

  /** A new maneuver is revalidated at the tick of the decision, once. */
  lemma RevalidatesIff(s: Session, inputs: Inputs, env: Env, period: Period)
    requires SessionOk(s)
    ensures var o := Execute(s, RevalidateModified, inputs, env, period);
            && (o.error == None <==>
                  && inputs == NOTHING_SAID && UpToDate(s) && Answer(s, Modify)
                  && s.Decision().value.tick == s.Base().clock.tick && env.revalidate.Verdict?)
            && (o.error == None ==>
                  && o.state.rev.revalidation == Some(Revalidation(s.Base().clock.tick, s.Decision().value.entry,
                       Candidate(s.Decision().value.selected.candidate.aircraft,
                                 s.Decision().value.entry.modified.value), env.revalidate.safe))
                  && o.state == s.(rev := s.rev.(revalidation := o.state.rev.revalidation)))
  {
    TurnIs(s, RevalidateModified);
  }

  /** The decision is of this very tick, the clock runs, nothing is anchored and the aircraft takes it. */
  ghost predicate CanTake(s: Session, env: Env) {
    && UpToDate(s) && s.Decision().Some? && s.Decision().value.tick == s.Base().clock.tick
    && s.Base().clock.mode == Running && s.Base().anchors == [] && env.apply.takes
  }

  /** What an application leaves: the anchor of this tick if the aircraft takes it, whether or not the
      reassessment that follows succeeds, and nothing otherwise. */
  ghost predicate AppliedTo(b: Base, t: Base, c: Candidate, takes: bool) {
    && t == b.(anchors := t.anchors, queueAt := t.queueAt)
    && t.anchors == (if takes then [Anchor(c, b.clock.tick)] else b.anchors)
    && (t.queueAt == b.queueAt || (takes && t.queueAt == Some(b.clock.tick)))
  }

  lemma ApplyIs(b: Base, c: Candidate, env: ApplyEnv)
    requires BaseOk(b) && (Anchored(b.anchors, c.aircraft, b.clock.tick) <==> b.anchors != [])
    ensures var o, takes := Apply(b, c, env), b.clock.mode == Running && b.anchors == [] && env.takes;
            && AppliedTo(b, o.state, c, takes) && (o.error == None <==> takes && env.after == NoneAfter)
            && (o.error == None ==> o.state.queueAt == Some(b.clock.tick))
  {
  }

  /** An accepted candidate is anchored exactly at the tick of the decision, and its application is
      recorded exactly if the reassessment after it goes well. */
  lemma ApprovedIs(s: Session, env: Env, period: Period)
    requires SessionOk(s)
    ensures var o := Execute(s, ApplyApprovedManeuver, NOTHING_SAID, env, period);
            && (o.error == None <==> Answer(s, Accept) && CanTake(s, env) && env.apply.after == NoneAfter)
            && (Answer(s, Accept) && UpToDate(s) && s.Decision().value.tick == s.Base().clock.tick ==>
                  AppliedTo(s.Base(), o.state.Base(), s.Decision().value.selected.candidate, CanTake(s, env)))
            && (o.error == None ==>
                  && o.state.Base().queueAt == Some(s.Base().clock.tick)
                  && o.state.approved == Some(Application(s.Base().clock.tick, s.Decision().value.entry,
                                                          s.Decision().value.selected.candidate)))
            && (o.error.Some? ==> o.state.approved == s.approved)
            && o.state == s.WithBase(o.state.Base()).(approved := o.state.approved)
  {
    TurnIs(s, ApplyApprovedManeuver);
    if Answer(s, Accept) && UpToDate(s) && s.Decision().value.tick == s.Base().clock.tick {
      OnlyThisAnchor(s, s.Decision().value.selected.candidate);
      ApplyIs(s.Base(), s.Decision().value.selected.candidate, env.apply);
    }
  }

  /** The same for a new maneuver that was revalidated as SAFE. */
  lemma ModifiedIs(s: Session, env: Env, period: Period)
    requires SessionOk(s)
    ensures var o, v := Execute(s, ApplyModifiedManeuver, NOTHING_SAID, env, period), s.rev.revalidation;
            && (o.error == None <==>
                  v.Some? && v.value.safe && !Applied(s) && CanTake(s, env) && env.apply.after == NoneAfter)
            && (v.Some? && v.value.safe && !Applied(s) && UpToDate(s) && v.value.tick == s.Base().clock.tick ==>
                  AppliedTo(s.Base(), o.state.Base(), v.value.candidate, CanTake(s, env)))
            && (v.Some? && !v.value.safe ==> o.state == s)
            && (o.error == None ==>
                  && o.state.Base().queueAt == Some(s.Base().clock.tick)
                  && o.state.modified == Some(Application(s.Base().clock.tick, v.value.entry, v.value.candidate)))
            && (o.error.Some? ==> o.state.modified == s.modified)
            && o.state == s.WithBase(o.state.Base()).(modified := o.state.modified)
  {
    TurnIs(s, ApplyModifiedManeuver);
    var v := s.rev.revalidation;
    if v.Some? && v.value.safe && !Applied(s) && UpToDate(s) && v.value.tick == s.Base().clock.tick {
      OnlyThisAnchor(s, v.value.candidate);
      ApplyIs(s.Base(), v.value.candidate, env.apply);
    }
  }

  // ---------------------------------------------------------------- the parts by themselves

  /** The clock: playing always runs it, pausing only stops one that runs, and ticks count only while
      it runs. */
  lemma ClockIs(c: Clock, n: nat)
    ensures c.Play() == Clock(Running, c.tick, c.runs)
    ensures c.mode == Running ==>
              c.Pause() == Clock(Paused, c.tick, c.runs) && c.Tick(n) == Clock(Running, c.tick + n, c.runs)
    ensures c.mode == Ready || c.mode == Paused ==> c.Pause() == c && c.Tick(n) == c
    ensures c.Reset() == Clock(Ready, 0, c.runs + 1)
  {
  }

  /** Whatever the state, a set is published exactly if its identifier is new and it is no older than the
      current one. */
  lemma PublishesIff(c: Catalog, s: RecommendationSet)
    ensures var r := c.Publish(s);
            && (r.Ok? <==> s.id !in c.sets && (c.Current() == None || c.Current().value.generatedAt <= s.generatedAt))
            && (r.Ok? ==>
                  && r.value.Current() == Some(s) && r.value.sets.Keys == c.sets.Keys + {s.id}
                  && forall id :: id in c.sets ==> r.value.sets[id] == c.sets[id])
  {
  }

  /** Whatever the log, an answer is recorded exactly if time does not run back, the set has none yet,
      the option is one of the set, and the answer says what its kind asks for. */
  lemma RecordsIff(log: Option<AuditLog>, s: RecommendationSet, selected: Validated, kind: DecisionKind, at: nat,
                   inputs: Inputs)
    ensures var r := Record(log, s, selected, kind, at, inputs);
            && (r.Ok? <==>
                  && (log == None || log.value.generatedAt <= at) && s.generatedAt <= at
                  && (forall e :: e in Entries(log) ==> e.setId != s.id)
                  && (exists k :: 0 <= k < |s.options| && s.options[k] == selected)
                  && (kind == Modify <==> inputs.maneuver.Some?) && (kind != Accept ==> inputs.rationale.Some?)
                  && inputs.maneuver != Some(selected.candidate.maneuver))
            && (r.Ok? ==>
                  && r.value.revision == (if log == None then 1 else log.value.revision + 1)
                  && r.value.generatedAt == at
                  && r.value.entries == Entries(log) + [Entry(s.id, selected, kind, at, inputs.maneuver)])
  {
    if HasDecision(log, s.id) {
      var k :| 0 <= k < |Entries(log)| && Entries(log)[k].setId == s.id;
      assert Entries(log)[k] in Entries(log);
    }
  }

  ghost predicate StepIsCurrent(b: Base) {
    b.step.Some? && b.step.value.tick == b.clock.tick
  }

  /** Each of the orchestrators works on the step of the current tick, and once per tick. */
  lemma ResolvesIff(r: Resolved, env: ResolveEnv)
    ensures Resolve(r, env).error == None <==>
              && StepIsCurrent(r.base) && (r.resolution == None || r.resolution.value.tick != r.base.clock.tick)
              && env.Candidates? && r.base.catalog.Publish(Recommend(env, r.base.clock.tick)).Ok?
  {
  }

  lemma DecidesIff(d: Decided, kind: DecisionKind, inputs: Inputs)
    ensures Decide(d, kind, inputs).error == None <==>
              && StepIsCurrent(d.res.base) && (d.decision == None || d.decision.value.tick != d.res.base.clock.tick)
              && d.res.resolution.Some?
              && d.res.base.catalog.Current() == Some(d.res.resolution.value.recommended)
              && d.res.resolution.value.recommended.options != []
              && Record(d.res.base.audit, d.res.resolution.value.recommended,
                        d.res.resolution.value.recommended.options[0], kind, d.res.base.clock.tick, inputs).Ok?
  {
  }

  lemma RechecksIff(v: Revalidated, env: RevalidateEnv)
    ensures Revalidate(v, env).error == None <==>
              && StepIsCurrent(v.dec.res.base)
              && (v.revalidation == None || v.revalidation.value.tick != v.dec.res.base.clock.tick)
              && v.dec.res.resolution.Some? && v.dec.decision.Some? && v.dec.decision.value.entry.kind == Modify
              && v.dec.decision.value.entry.modified.Some? && v.dec.decision.value.tick == v.dec.res.base.clock.tick
              && v.dec.res.base.audit == Some(v.dec.decision.value.log) && env.Verdict?
  {
  }

  /** An application goes on to the aircraft exactly under these conditions. */
  lemma AppliesApprovedIff(d: Decided, last: Option<Application>, env: ApplyEnv)
    ensures ApplyApproved(d, last, env).error == None <==>
              && StepIsCurrent(d.res.base) && (last == None || last.value.tick != d.res.base.clock.tick)
              && d.res.resolution.Some? && d.decision.Some? && d.decision.value.entry.kind == Accept
              && d.decision.value.tick == d.res.base.clock.tick
              && d.res.base.audit == Some(d.decision.value.log)
              && Apply(d.res.base, d.decision.value.entry.selected.candidate, env).error == None
  {
  }

  lemma AppliesModifiedIff(v: Revalidated, last: Option<Application>, env: ApplyEnv)
    ensures ApplyModified(v, last, env).error == None <==>
              && StepIsCurrent(v.dec.res.base) && (last == None || last.value.tick != v.dec.res.base.clock.tick)
              && v.revalidation.Some? && v.revalidation.value.safe
              && v.revalidation.value.tick == v.dec.res.base.clock.tick
              && v.dec.decision.Some? && v.dec.res.base.audit == Some(v.dec.decision.value.log)
              && Apply(v.dec.res.base, v.revalidation.value.candidate, env).error == None
  {
  }

  /** An aircraft takes one anchor per instant, on a running clock; the queue must not be ahead. */
  lemma AnchorsIff(b: Base, c: Candidate, env: ApplyEnv)
    ensures var o := Apply(b, c, env);
            var takes := b.clock.mode == Running && env.takes
                         && forall a :: a in b.anchors && a.tick == b.clock.tick ==> a.candidate.aircraft != c.aircraft;
            && o.state.anchors == (if takes then b.anchors + [Anchor(c, b.clock.tick)] else b.anchors)
            && (o.error == None <==>
                  takes && env.after == NoneAfter && (b.queueAt == None || b.queueAt.value <= b.clock.tick))
  {
    if Anchored(b.anchors, c.aircraft, b.clock.tick) {
      var k :| 0 <= k < |b.anchors| && b.anchors[k].candidate.aircraft == c.aircraft &&
               b.anchors[k].tick == b.clock.tick;
      assert b.anchors[k] in b.anchors;
    }
  }

  // ---------------------------------------------------------------- what is said at the door

  /** Which refusal comes first. */
  lemma DoorErrors(s: Session, c: Command, inputs: Inputs, env: Env, period: Period)
    requires c != Reset
    ensures var o := Execute(s, c, inputs, env, period);
            var said := if c.Respond? && c.kind != Accept then RespondSaid(s, c.kind, inputs)
                        else inputs == NOTHING_SAID;
            && (o.error == Some(InvalidInputs) <==> !said)
            && (said && !UpToDate(s) ==> o.error == Some(EvidenceBehindClock) && o.state == s)
            && (o.error == Some(WrongStage) <==>
                  said && UpToDate(s) && !c.Advance? && Required(c) != Some(StageOf(s)))
            && (o.error == Some(InvalidSeconds) <==>
                  said && UpToDate(s) && c.Advance? && !(c.seconds.Some? && 0 < c.seconds.value < 86401))
  {
    if !c.Advance? {
      PerformErrors(s, c, inputs, env, period);
    }
  }

  ghost predicate RespondSaid(s: Session, kind: DecisionKind, inputs: Inputs) {
    && inputs.rationale.Some? && inputs.rationale.value != ""
    && (kind == Reject ==> inputs.maneuver == None)
    && (kind == Modify ==> inputs.maneuver.Some? && !Repeats(s, inputs.maneuver.value))
  }

  /** The maneuver is the one the current set recommends. */
  ghost predicate Repeats(s: Session, maneuver: string) {
    && s.Base().catalog.Current().Some? && s.Base().catalog.Current().value.options != []
    && s.Base().catalog.Current().value.options[0].candidate.maneuver == maneuver
  }
}
