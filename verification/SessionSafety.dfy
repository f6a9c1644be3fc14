/** What holds over every sequence of operator commands and clock events: the human decides
    once, and nothing is anchored without that decision. */
module SessionSafety {
  import opened Options
  import opened SessionCore

  // ---------------------------------------------------------------- the invariant, along the chain

  ghost predicate BaseOk(b: Base) {
    && (b.step.Some? ==> b.step.value.tick <= b.clock.tick)
    && (b.queueAt.Some? ==> b.queueAt.value <= b.clock.tick)
  }

  /** Recommended options are SAFE and validated on the evidence of the resolution itself. */
  ghost predicate OptionsOk(s: RecommendationSet, at: nat) {
    s.generatedAt == at && forall k :: 0 <= k < |s.options| ==> s.options[k].safe && s.options[k].validatedAt == at
  }

  ghost predicate ResolvedOk(r: Resolved) {
    && BaseOk(r.base)
    && (r.resolution == None ==> r.base.catalog == NO_SETS)
    && (r.resolution.Some? ==> (
          var x := r.resolution.value;
          r.base.step.Some? && x.tick <= r.base.clock.tick && OptionsOk(x.recommended, x.tick) &&
              r.base.catalog.Current() == Some(x.recommended)))
  }

  /** The one entry of the audit log belongs to the decision, which took the primary option. */
  ghost predicate DecisionOk(x: Decision, s: RecommendationSet) {
    && x.log.entries == [x.entry] && x.log.generatedAt == x.tick
    && x.entry.setId == s.id && x.entry.decidedAt == x.tick && x.entry.selected == x.selected
    && s.Primary() == Some(x.selected) && s.generatedAt + 15 <= x.tick
    && (x.entry.modified.Some? <==> x.entry.kind == Modify)
  }

  ghost predicate DecidedOk(d: Decided) {
    && ResolvedOk(d.res)
    && (d.decision == None ==> d.res.base.audit == None)
    && (d.decision.Some? ==>
          d.res.resolution.Some? && DecisionOk(d.decision.value, d.res.resolution.value.recommended)
          && d.decision.value.tick <= d.res.base.clock.tick && d.res.base.audit == Some(d.decision.value.log))
  }

  ghost predicate RevalidationOk(r: Revalidation, x: Decision) {
    && x.entry.modified.Some? && r.entry == x.entry && r.tick == x.tick
    && r.candidate == Candidate(x.selected.candidate.aircraft, x.entry.modified.value)
  }

  ghost predicate RevalidatedOk(v: Revalidated) {
    && DecidedOk(v.dec)
    && (v.revalidation.Some? ==> v.dec.decision.Some? && RevalidationOk(v.revalidation.value, v.dec.decision.value))
  }

  /** An anchor carries out the accepted candidate, or the modified one that was found SAFE, at
      the very tick of the decision. */
  ghost predicate AnchorOk(a: Anchor, v: Revalidated) {
    && v.dec.decision.Some?
    && var x := v.dec.decision.value;
    && a.tick == x.tick
    && match x.entry.kind
       case Accept => a.candidate == x.selected.candidate
       case Modify => v.revalidation.Some? && v.revalidation.value.safe && a.candidate == v.revalidation.value.candidate
       case Reject => false
  }

  ghost predicate AnchorsOk(anchors: seq<Anchor>, v: Revalidated) {
    |anchors| <= 1 && (anchors != [] ==> AnchorOk(anchors[0], v))
  }

  ghost predicate SessionOk(s: Session) {
    && RevalidatedOk(s.rev)
    && AnchorsOk(s.Base().anchors, s.rev)
    && (s.modified.Some? || s.approved.Some? ==> s.Base().anchors != [])
  }

  // ---------------------------------------------------------------- each operation keeps it

  /** What a step may change. */
  ghost predicate Stepped(b: Base, after: Base) {
    after == b.(clock := after.clock, slot := after.slot, queueAt := after.queueAt, step := after.step)
    && b.clock.tick <= after.clock.tick && b.clock.runs == after.clock.runs && (b.step.Some? ==> after.step.Some?)
  }

  lemma StepKeeps(b: Base, n: nat, env: StepEnv, period: Period)
    requires BaseOk(b)
    ensures BaseOk(DoStep(b, n, env, period).state) && Stepped(b, DoStep(b, n, env, period).state)
    ensures DoStep(b, n, env, period).error == None ==> DoStep(b, n, env, period).state.clock.tick == b.clock.tick + n
  {
  }

  lemma SteppedKeeps(s: Session, after: Base)
    requires SessionOk(s) && BaseOk(after) && Stepped(s.Base(), after)
    ensures SessionOk(s.WithBase(after))
  {
    var t := s.WithBase(after);
    assert t.Base() == after && t.Resolution() == s.Resolution() && t.Decision() == s.Decision();
    assert ResolvedOk(t.rev.dec.res);
    assert DecidedOk(t.rev.dec);
    assert RevalidatedOk(t.rev);
    if s.Base().anchors != [] {
      assert AnchorOk(s.Base().anchors[0], s.rev);
    }
  }

  lemma {:induction false} SafeOptionsOk(ranked: seq<(Candidate, bool)>, at: nat)
    ensures forall k :: 0 <= k < |SafeOptions(ranked, at)| ==>
            SafeOptions(ranked, at)[k].safe && SafeOptions(ranked, at)[k].validatedAt == at
  {
    if ranked == [] {
    } else {
      SafeOptionsOk(ranked[1..], at);
    }
  }

  lemma ResolveKeeps(r: Resolved, env: ResolveEnv)
    requires ResolvedOk(r) && r.resolution == None
    ensures var o := Resolve(r, env);
            && ResolvedOk(o.state) && o.state.base == r.base.(catalog := o.state.base.catalog)
            && (o.error.Some? ==> o.state == r) && (o.error == None ==> o.state.resolution.Some?)
  {
    if env.Candidates? {
      SafeOptionsOk(env.ranked, r.base.clock.tick);
    }
  }

  lemma DecideKeeps(d: Decided, kind: DecisionKind, inputs: Inputs)
    requires DecidedOk(d) && d.decision == None
    requires d.res.resolution.Some? && d.res.resolution.value.tick + 15 <= d.res.base.clock.tick
    ensures var o := Decide(d, kind, inputs);
            && DecidedOk(o.state) && o.state.res == d.res.(base := d.res.base.(audit := o.state.res.base.audit))
            && (o.error.Some? ==> o.state == d)
            && (o.error == None ==> o.state.decision.Some? && o.state.decision.value.entry.kind == kind)
  {
    assert Entries(d.res.base.audit) == [];
  }

  lemma RevalidateKeeps(v: Revalidated, env: RevalidateEnv)
    requires RevalidatedOk(v)
    ensures RevalidatedOk(Revalidate(v, env).state) && Revalidate(v, env).state.dec == v.dec
    ensures Revalidate(v, env).error.Some? ==> Revalidate(v, env).state == v
  {
  }

  /** An application changes only the anchors and the queue, and anchors at most once. */
  lemma ApplyKeeps(b: Base, c: Candidate, env: ApplyEnv)
    requires BaseOk(b)
    ensures var o := Apply(b, c, env);
            && BaseOk(o.state) && o.state == b.(anchors := o.state.anchors, queueAt := o.state.queueAt)
            && (o.state.anchors == b.anchors ||
               (o.state.anchors == b.anchors + [Anchor(c, b.clock.tick)] &&
               !Anchored(b.anchors, c.aircraft, b.clock.tick)))
            && (o.error == None ==> o.state.anchors != [])
  {
  }

  /** Changing anchors and queue alone keeps the chain. */
  lemma ChainKeeps(v: Revalidated, b: Base)
    requires RevalidatedOk(v) && BaseOk(b) && b == v.dec.res.base.(anchors := b.anchors, queueAt := b.queueAt)
    ensures RevalidatedOk(v.(dec := v.dec.(res := v.dec.res.(base := b))))
  {
    var w := v.(dec := v.dec.(res := v.dec.res.(base := b)));
    assert ResolvedOk(w.dec.res);
    assert DecidedOk(w.dec);
  }

  /** A further anchor for the decision's aircraft at the decision's tick is the first one. */
  lemma FirstAnchor(anchors: seq<Anchor>, v: Revalidated, c: Candidate, tick: nat)
    requires AnchorsOk(anchors, v) && AnchorOk(Anchor(c, tick), v) && RevalidatedOk(v)
    requires !Anchored(anchors, c.aircraft, tick)
    ensures AnchorsOk(anchors + [Anchor(c, tick)], v)
  {
    if anchors != [] {
      OnlyOneAnchor(anchors[0], Anchor(c, tick), v);
    }
  }

  lemma OnlyOneAnchor(a: Anchor, b: Anchor, v: Revalidated)
    requires AnchorOk(a, v) && AnchorOk(b, v)
    ensures a == b
  {
  }

  lemma SameAnchorView(a: Anchor, v: Revalidated, w: Revalidated)
    requires AnchorOk(a, v) && w.dec.decision == v.dec.decision && w.revalidation == v.revalidation
    ensures AnchorOk(a, w)
  {
  }

  /** An application of a permitted candidate keeps the whole invariant. */
  lemma AppliedKeeps(v: Revalidated, c: Candidate, env: ApplyEnv)
    requires RevalidatedOk(v) && AnchorsOk(v.dec.res.base.anchors, v) &&
             AnchorOk(Anchor(c, v.dec.res.base.clock.tick), v)
    ensures var o := Apply(v.dec.res.base, c, env);
            var w := v.(dec := v.dec.(res := v.dec.res.(base := o.state)));
            && RevalidatedOk(w) && AnchorsOk(o.state.anchors, w) && (o.error == None ==> o.state.anchors != [])
            && (v.dec.res.base.anchors != [] ==> o.state.anchors != [])
  {
    var b := v.dec.res.base;
    var o := Apply(b, c, env);
    ApplyKeeps(b, c, env);
    ChainKeeps(v, o.state);
    var w := v.(dec := v.dec.(res := v.dec.res.(base := o.state)));
    if o.state.anchors != b.anchors {
      FirstAnchor(b.anchors, v, c, b.clock.tick);
    }
    if o.state.anchors != [] {
      SameAnchorView(o.state.anchors[0], v, w);
    }
  }

  lemma ApplyApprovedKeeps(s: Session, env: ApplyEnv)
    requires SessionOk(s)
    ensures var a := ApplyApproved(s.rev.dec, s.approved, env);
            SessionOk(s.WithDecided(a.state.0).(approved := a.state.1))
  {
    var a := ApplyApproved(s.rev.dec, s.approved, env);
    if a.state.0 != s.rev.dec || a.state.1 != s.approved {
      var c := s.Decision().value.entry.Approved().value;
      assert AnchorOk(Anchor(c, s.Base().clock.tick), s.rev);
      AppliedKeeps(s.rev, c, env);
    } else {
      assert s.WithDecided(a.state.0).(approved := a.state.1) == s;
    }
  }

  lemma ApplyModifiedKeeps(s: Session, env: ApplyEnv)
    requires SessionOk(s)
    ensures var a := ApplyModified(s.rev, s.modified, env);
            SessionOk(s.(rev := a.state.0, modified := a.state.1))
  {
    var a := ApplyModified(s.rev, s.modified, env);
    if a.state.0 != s.rev || a.state.1 != s.modified {
      var c := s.rev.revalidation.value.candidate;
      assert AnchorOk(Anchor(c, s.Base().clock.tick), s.rev);
      AppliedKeeps(s.rev, c, env);
    } else {
      assert s.(rev := a.state.0, modified := a.state.1) == s;
    }
  }

  // ---------------------------------------------------------------- every command keeps it

  lemma StepByKeeps(s: Session, n: nat, env: Env, period: Period)
    requires SessionOk(s)
    ensures var o := StepBy(s, n, env, period);
            && SessionOk(o.state) && o.state == s.WithBase(o.state.Base()) && Stepped(s.Base(), o.state.Base())
            && (o.error == None ==> o.state.Base().clock.tick == s.Base().clock.tick + n)
  {
    StepKeeps(s.Base(), n, env.step, period);
    SteppedKeeps(s, DoStep(s.Base(), n, env.step, period).state);
  }

  lemma PlayingKeeps(s: Session)
    requires SessionOk(s)
    ensures SessionOk(Playing(s)) && Playing(s) == s.WithBase(Playing(s).Base()) && Stepped(s.Base(), Playing(s).Base())
  {
    SteppedKeeps(s, Playing(s).Base());
  }

  lemma GenerateKeeps(s: Session, env: Env, period: Period)
    requires SessionOk(s) && StageOf(s) == ConflictDetected
    ensures SessionOk(Perform(s, Generate, Inputs(None, None), env, period).state)
  {
    StepByKeeps(s, 5, env, period);
    var o := StepBy(s, 5, env, period);
    if o.error == None {
      var r := o.state.rev.dec.res;
      ResolveKeeps(r, env.resolve);
      var t := o.state.WithResolved(Resolve(r, env.resolve).state);
      assert DecidedOk(t.rev.dec);
      assert RevalidatedOk(t.rev);
    }
  }

  lemma RespondKeeps(s: Session, kind: DecisionKind, inputs: Inputs, env: Env, period: Period)
    requires SessionOk(s) && StageOf(s) == RecommendationAvailable
    ensures SessionOk(Perform(s, Respond(kind), inputs, env, period).state)
  {
    StepByKeeps(s, 15, env, period);
    var o := StepBy(s, 15, env, period);
    if o.error == None {
      assert s.Resolution().value.tick <= s.Base().clock.tick;
      assert o.state.Resolution() == s.Resolution();
      var d := o.state.rev.dec;
      DecideKeeps(d, kind, inputs);
      var t := o.state.WithDecided(Decide(d, kind, inputs).state);
      assert t.Base().anchors == [];
      assert RevalidatedOk(t.rev);
    }
  }

  lemma RevalidateModifiedKeeps(s: Session, inputs: Inputs, env: Env, period: Period)
    requires SessionOk(s) && StageOf(s) == DecisionModified
    ensures SessionOk(Perform(s, RevalidateModified, inputs, env, period).state)
  {
    RevalidateKeeps(s.rev, env.revalidate);
  }

  lemma PerformKeeps(s: Session, c: Command, inputs: Inputs, env: Env, period: Period)
    requires SessionOk(s) && Required(c) == Some(StageOf(s))
    ensures SessionOk(Perform(s, c, inputs, env, period).state)
  {
    match c
    case Start =>
      PlayingKeeps(s);
      StepByKeeps(Playing(s), 0, env, period);
    case AdvanceToConflict => StepByKeeps(s, 70, env, period);
    case Generate => GenerateKeeps(s, env, period);
    case Respond(kind) => RespondKeeps(s, kind, inputs, env, period);
    case RevalidateModified => RevalidateModifiedKeeps(s, inputs, env, period);
    case ApplyModifiedManeuver => ApplyModifiedKeeps(s, env.apply);
    case ApplyApprovedManeuver => ApplyApprovedKeeps(s, env.apply);
    case _ =>
  }

  lemma ExecuteKeeps(s: Session, c: Command, inputs: Inputs, env: Env, period: Period)
    requires SessionOk(s)
    ensures SessionOk(Execute(s, c, inputs, env, period).state)
  {
    var o := Execute(s, c, inputs, env, period);
    if o.state != s && c != Reset {
      if c.Advance? {
        PlayingKeeps(s);
        StepByKeeps(if s.Base().clock.mode == Running then s else Playing(s), c.seconds.value, env, period);
      } else {
        PerformKeeps(s, c, inputs, env, period);
      }
    }
  }

  lemma NextKeeps(s: Session, e: Event, period: Period)
    requires SessionOk(s)
    ensures SessionOk(Next(s, e, period))
  {
    match e
    case Operator(c, inputs, env) => ExecuteKeeps(s, c, inputs, env, period);
    case ClockReset =>
    case _ => SteppedKeeps(s, Next(s, e, period).Base());
  }

  lemma {:induction false} RunKeeps(clock: Clock, events: seq<Event>, period: Period)
    ensures SessionOk(Run(Fresh(clock), events, period))
  {
    if events == [] {
    } else {
      RunKeeps(clock, events[..|events| - 1], period);
      NextKeeps(Run(Fresh(clock), events[..|events| - 1], period), events[|events| - 1], period);
    }
  }

  // ---------------------------------------------------------------- the human decides

  /** The entry authorises the anchor: it took a SAFE recommendation, and it either accepted the
      very candidate, at least fifteen ticks after the validation, or replaced its maneuver. */
  ghost predicate Authorises(e: Entry, a: Anchor) {
    && e.decidedAt == a.tick && e.selected.safe && e.selected.validatedAt + 15 <= a.tick
    && a.candidate.aircraft == e.selected.candidate.aircraft
    && ((e.kind == Accept && a.candidate == e.selected.candidate)
        || (e.kind == Modify && e.modified == Some(a.candidate.maneuver)))
  }

  /** In every run between resets at most one decision is recorded and at most one aircraft is
      anchored. An anchor carries out that one decision at the same tick; after a MODIFY the
      new maneuver was revalidated SAFE at the same tick; after a REJECT there is none. */
  lemma HumanInTheLoop(clock: Clock, events: seq<Event>, period: Period)
    ensures var s := Run(Fresh(clock), events, period);
            var entries, anchors := Entries(s.Base().audit), s.Base().anchors;
            && |entries| <= 1 && |anchors| <= |entries|
            && (anchors != [] ==> (
                  && Authorises(entries[0], anchors[0])
                  && (entries[0].kind == Modify ==>
                        s.rev.revalidation.Some? && s.rev.revalidation.value.safe
                        && s.rev.revalidation.value.tick == anchors[0].tick &&
                           s.rev.revalidation.value.candidate == anchors[0].candidate)))
            && (entries != [] && entries[0].kind == Reject ==> anchors == [])
  {
    RunKeeps(clock, events, period);
    var s := Run(Fresh(clock), events, period);
    if s.Decision().Some? {
      var set0 := s.Resolution().value.recommended;
      assert set0.options[0].safe && set0.options[0].validatedAt == set0.generatedAt;
    }
  }

  // ---------------------------------------------------------------- within one run

  /** Without a reset the records only grow and a decision is final; an aircraft is anchored only
      by the operator's explicit command to apply, on a decision that was there before. */
  ghost predicate Extends(s: Session, t: Session, e: Event) {
    && s.Base().clock.runs == t.Base().clock.runs && s.Base().clock.tick <= t.Base().clock.tick
    && Entries(s.Base().audit) <= Entries(t.Base().audit)
    && s.Base().anchors <= t.Base().anchors
    && (s.Decision().Some? ==> t.Decision() == s.Decision())
    && (t.Base().anchors != s.Base().anchors ==>
          && e.Operator? && s.Decision().Some? && t.Decision() == s.Decision()
          && ((e.command == ApplyApprovedManeuver && s.Decision().value.entry.kind == Accept)
              || (e.command == ApplyModifiedManeuver && s.Decision().value.entry.kind == Modify)))
  }

  lemma DecideExtends(d: Decided, kind: DecisionKind, inputs: Inputs)
    ensures var after := Decide(d, kind, inputs).state.res.base;
            Entries(d.res.base.audit) <= Entries(after.audit) && after.anchors == d.res.base.anchors &&
                after.clock == d.res.base.clock
  {
  }

  lemma ResolveExtends(r: Resolved, env: ResolveEnv)
    ensures Resolve(r, env).state.base == r.base.(catalog := Resolve(r, env).state.base.catalog)
  {
  }

  lemma ApplyExtends(b: Base, c: Candidate, env: ApplyEnv)
    ensures var after := Apply(b, c, env).state;
            b.anchors <= after.anchors && after.audit == b.audit &&
            after.clock == b.clock
  {
  }

  lemma StepsExtend(s: Session, c: Command, inputs: Inputs, env: Env, period: Period)
    requires SessionOk(s) && Required(c) == Some(StageOf(s)) &&
             (c == Start || c == AdvanceToConflict || c == Generate || c.Respond?)
    ensures Extends(s, Perform(s, c, inputs, env, period).state, Operator(c, inputs, env))
  {
    match c
    case Start =>
      PlayingKeeps(s);
      StepByKeeps(Playing(s), 0, env, period);
    case AdvanceToConflict => StepByKeeps(s, 70, env, period);
    case Generate =>
      StepByKeeps(s, 5, env, period);
      ResolveExtends(StepBy(s, 5, env, period).state.rev.dec.res, env.resolve);
    case Respond(kind) =>
      StepByKeeps(s, 15, env, period);
      DecideExtends(StepBy(s, 15, env, period).state.rev.dec, kind, inputs);
    case _ =>
  }

  lemma PerformExtends(s: Session, c: Command, inputs: Inputs, env: Env, period: Period)
    requires SessionOk(s) && Required(c) == Some(StageOf(s))
    ensures Extends(s, Perform(s, c, inputs, env, period).state, Operator(c, inputs, env))
  {
    match c
    case RevalidateModified =>
    case ApplyModifiedManeuver => ApplyExtends(s.Base(), s.rev.revalidation.value.candidate, env.apply);
    case ApplyApprovedManeuver => ApplyExtends(s.Base(), s.Decision().value.entry.selected.candidate, env.apply);
    case _ => StepsExtend(s, c, inputs, env, period);
  }

  lemma RunsExtend(s: Session, e: Event, period: Period)
    requires SessionOk(s) && !Resets(e)
    ensures Extends(s, Next(s, e, period), e)
  {
    if e.Operator? {
      var o := Execute(s, e.command, e.inputs, e.env, period);
      if o.state != s {
        if e.command.Advance? {
          PlayingKeeps(s);
          StepByKeeps(if s.Base().clock.mode == Running then s else Playing(s), e.command.seconds.value, e.env, period);
        } else {
          PerformExtends(s, e.command, e.inputs, e.env, period);
        }
      }
    }
  }

  // ---------------------------------------------------------------- stages

  /** How far the session has come. */
  function Progress(s: Session): nat {
    match StageOf(s)
    case ReadyStage => 0
    case Monitoring => 1
    case DeviationDetected => 1
    case ConflictDetected => 1
    case RecommendationAvailable => 2
    case DecisionAccepted => 3
    case DecisionModified => 3
    case DecisionRejected => 3
    case ModificationRevalidated => 4
    case ConflictResolved => 5
  }

  /** The stage a command that succeeds arrives at. */
  ghost predicate Arrives(c: Command, stage: Stage) {
    match c
    case Reset => stage == ReadyStage
    case Advance(_) => stage != ReadyStage
    case Start => stage in {Monitoring, DeviationDetected, ConflictDetected}
    case AdvanceToConflict => stage in {Monitoring, DeviationDetected, ConflictDetected}
    case Generate => stage == RecommendationAvailable
    case Respond(kind) => stage ==
        (match kind case Accept => DecisionAccepted case Modify => DecisionModified case Reject => DecisionRejected)
    case RevalidateModified => stage == ModificationRevalidated
    case ApplyModifiedManeuver => stage == ConflictResolved
    case ApplyApprovedManeuver => stage == ConflictResolved
  }

  lemma SuccessfulStep(s: Session, n: nat, env: Env, period: Period)
    requires StepBy(s, n, env, period).error == None
    ensures var t := StepBy(s, n, env, period).state;
            && t.Base().step.Some? && t.Resolution() == s.Resolution() && t.Decision() == s.Decision()
            && t.rev.revalidation == s.rev.revalidation && t.modified == s.modified && t.approved == s.approved
  {
  }

  /** A command that succeeds leads to its stage. */
  lemma SuccessArrives(s: Session, c: Command, inputs: Inputs, env: Env, period: Period)
    requires SessionOk(s) && Execute(s, c, inputs, env, period).error == None
    ensures Arrives(c, StageOf(Execute(s, c, inputs, env, period).state))
  {
    match c
    case Reset =>
    case Advance(seconds) => SuccessfulStep(if s.Base().clock.mode == Running then s
        else Playing(s), seconds.value, env, period);
    case Start => SuccessfulStep(Playing(s), 0, env, period);
    case AdvanceToConflict => SuccessfulStep(s, 70, env, period);
    case Generate =>
      SuccessfulStep(s, 5, env, period);
      assert StageOf(Execute(s, c, inputs, env, period).state) == RecommendationAvailable;
    case Respond(kind) =>
      SuccessfulStep(s, 15, env, period);
      DecidedKind(StepBy(s, 15, env, period).state.rev.dec, kind, inputs);
    case RevalidateModified =>
    case ApplyModifiedManeuver =>
    case ApplyApprovedManeuver =>
  }

  /** Evidence that is there stays there. */
  ghost predicate Accumulates(s: Session, t: Session) {
    && (s.Base().step.Some? ==> t.Base().step.Some?)
    && (s.Resolution().Some? ==> t.Resolution().Some?)
    && (s.Decision().Some? ==> t.Decision() == s.Decision())
    && (s.rev.revalidation.Some? ==> t.rev.revalidation.Some?)
    && (s.modified.Some? ==> t.modified.Some?) && (s.approved.Some? ==> t.approved.Some?)
  }

  lemma PerformAccumulates(s: Session, c: Command, inputs: Inputs, env: Env, period: Period)
    requires SessionOk(s) && Required(c) == Some(StageOf(s))
    ensures Accumulates(s, Perform(s, c, inputs, env, period).state)
  {
    match c
    case Start =>
      PlayingKeeps(s);
      StepByKeeps(Playing(s), 0, env, period);
    case AdvanceToConflict => StepByKeeps(s, 70, env, period);
    case Generate => StepByKeeps(s, 5, env, period);
    case Respond(kind) => StepByKeeps(s, 15, env, period);
    case RevalidateModified =>
    case ApplyModifiedManeuver => ApplyKeeps(s.Base(), s.rev.revalidation.value.candidate, env.apply);
    case ApplyApprovedManeuver => ApplyKeeps(s.Base(), s.Decision().value.entry.selected.candidate, env.apply);
    case _ =>
  }

  lemma ProgressAccumulates(s: Session, t: Session)
    requires Accumulates(s, t)
    ensures Progress(s) <= Progress(t)
  {
  }

  /** Without a reset the session never falls back to an earlier stage, whatever succeeds or fails. */
  lemma NoWayBack(s: Session, e: Event, period: Period)
    requires SessionOk(s) && !Resets(e)
    ensures Progress(s) <= Progress(Next(s, e, period))
  {
    EvidenceStays(s, e, period);
    ProgressAccumulates(s, Next(s, e, period));
  }

  lemma EvidenceStays(s: Session, e: Event, period: Period)
    requires SessionOk(s) && !Resets(e)
    ensures Accumulates(s, Next(s, e, period))
  {
    if e.Operator? {
      var o := Execute(s, e.command, e.inputs, e.env, period);
      if o.state != s {
        if e.command.Advance? {
          PlayingKeeps(s);
          StepByKeeps(if s.Base().clock.mode == Running then s else Playing(s), e.command.seconds.value, e.env, period);
        } else {
          PerformAccumulates(s, e.command, e.inputs, e.env, period);
        }
      }
    }
  }

  lemma DecidedKind(d: Decided, kind: DecisionKind, inputs: Inputs)
    requires Decide(d, kind, inputs).error == None
    ensures Decide(d, kind, inputs).state.decision.Some? &&
            Decide(d, kind, inputs).state.decision.value.entry.kind == kind
  {
  }

  // ---------------------------------------------------------------- when an application goes through

  /** An accepted candidate is applied exactly when it is the operator's turn to apply it, the
      decision is of this very tick, the clock runs, nothing was anchored yet and the aircraft
      and the reassessment play along. The other checks cannot fail. */
  lemma AppliesIff(s: Session, env: Env, period: Period)
    requires SessionOk(s)
    ensures Execute(s, ApplyApprovedManeuver, Inputs(None, None), env, period).error == None <==>
            (!Behind(s) && StageOf(s) == DecisionAccepted && CanAnchor(s, env))
  {
    if !Behind(s) && StageOf(s) == DecisionAccepted {
      OnlyThisAnchor(s, s.Decision().value.selected.candidate);
    }
  }

  /** The same for a modified maneuver, which must also have been found SAFE. */
  lemma ModifiedAppliesIff(s: Session, env: Env, period: Period)
    requires SessionOk(s)
    ensures Execute(s, ApplyModifiedManeuver, Inputs(None, None), env, period).error == None <==>
            (!Behind(s) && StageOf(s) == ModificationRevalidated && s.rev.revalidation.value.safe && CanAnchor(s, env))
  {
    if !Behind(s) && StageOf(s) == ModificationRevalidated {
      OnlyThisAnchor(s, s.rev.revalidation.value.candidate);
    }
  }

  ghost predicate CanAnchor(s: Session, env: Env) {
    && s.Decision().Some? && s.Decision().value.tick == s.Base().clock.tick && s.Base().clock.mode == Running
    && s.Base().anchors == [] && env.apply == ApplyEnv(true, NoneAfter)
  }

  lemma OnlyThisAnchor(s: Session, c: Candidate)
    requires SessionOk(s) && s.Decision().Some? && c.aircraft == s.Decision().value.selected.candidate.aircraft
    ensures s.Decision().value.tick == s.Base().clock.tick ==>
            (Anchored(s.Base().anchors, c.aircraft, s.Base().clock.tick) <==> s.Base().anchors != [])
  {
    if s.Base().anchors != [] {
      assert AnchorOk(s.Base().anchors[0], s.rev);
    }
  }

  // ---------------------------------------------------------------- what a failure leaves

  /** A command refused by the checks at the door changes nothing. */
  lemma RefusedChangesNothing(s: Session, c: Command, inputs: Inputs, env: Env, period: Period)
    ensures var o := Execute(s, c, inputs, env, period);
            o.error in {Some(InvalidInputs), Some(InvalidSeconds), Some(WrongStage)} ==> o.state == s
  {
    var o := Execute(s, c, inputs, env, period);
    if ValidInputs(c, inputs, s.Base().catalog.Current()) && c != Reset && !Behind(s) && !c.Advance? &&
        Required(c) == Some(StageOf(s)) {
      PerformErrors(s, c, inputs, env, period);
    }
  }

  lemma PerformErrors(s: Session, c: Command, inputs: Inputs, env: Env, period: Period)
    ensures Perform(s, c, inputs, env, period).error !in {Some(InvalidInputs), Some(InvalidSeconds), Some(WrongStage)}
  {
    match c
    case ApplyModifiedManeuver => ApplyErrors(s.Base(), env);
    case ApplyApprovedManeuver => ApplyErrors(s.Base(), env);
    case _ =>
  }

  lemma ApplyErrors(b: Base, env: Env)
    ensures forall c :: Apply(b, c, env.apply).error in {None, Some(AnchorRefused), Some(CalculationFailed),
            Some(TimeRunsBackwards), Some(PairNotReassessed)}
  {
  }

  lemma StaysBehind(s: Session, e: Event, period: Period)
    requires SessionOk(s) && Behind(s) && !Resets(e)
    ensures var t := Next(s, e, period);
            Behind(t) && t == OnClock(s, t.Base().clock) && t.Base().clock.tick >= s.Base().clock.tick
  {
  }

  /** Once a step has failed after the clock moved, the evidence is behind the clock, and until a reset
      it stays behind: every command is refused without effect, however often it is tried, and the
      clock may be played, paused and ticked without bringing the session back. */
  lemma {:induction false} BehindUntilReset(s: Session, events: seq<Event>, period: Period)
    requires SessionOk(s) && Behind(s) && forall e :: e in events ==> !Resets(e)
    ensures var t := Run(s, events, period); SessionOk(t) && Behind(t) && t == OnClock(s, t.Base().clock)
  {
    if events == [] {
    } else {
      var before, e := Run(s, events[..|events| - 1], period), events[|events| - 1];
      BehindUntilReset(s, events[..|events| - 1], period);
      assert e in events;
      StaysBehind(before, e, period);
      NextKeeps(before, e, period);
    }
  }

  /** The operator's commands alone change nothing at all then. */
  lemma {:induction false} RefusedWhileBehind(s: Session, events: seq<Event>, period: Period)
    requires Behind(s) && forall e :: e in events ==> e.Operator? && !Resets(e)
    ensures Run(s, events, period) == s
  {
    if events == [] {
    } else {
      RefusedWhileBehind(s, events[..|events| - 1], period);
      assert events[|events| - 1] in events;
    }
  }

  /** Conversely a failed step leaves the evidence behind the clock exactly when the clock moved:
      the commands that only calculate can be retried. */
  lemma FailedStepIsBehind(s: Session, n: nat, env: Env, period: Period)
    requires SessionOk(s) && !Behind(s) && s.Base().step.Some? && s.Base().clock.mode == Running
    requires StepBy(s, n, env, period).error.Some?
    ensures Behind(StepBy(s, n, env, period).state) <==> n > 0
  {
  }

  /** A decision that was not carried out at its own tick never is: once the clock is past it,
      nothing but a reset makes room for another anchor. */
  lemma {:induction false} DecisionExpires(s: Session, events: seq<Event>, period: Period)
    requires SessionOk(s) && s.Decision().Some? && s.Decision().value.tick < s.Base().clock.tick
    requires forall e :: e in events ==> !Resets(e)
    ensures var t := Run(s, events, period);
            SessionOk(t) && t.Base().anchors == s.Base().anchors && t.Decision() == s.Decision() &&
                s.Base().clock.tick <= t.Base().clock.tick
  {
    if events == [] {
    } else {
      var before, e := Run(s, events[..|events| - 1], period), events[|events| - 1];
      DecisionExpires(s, events[..|events| - 1], period);
      assert e in events;
      NextKeeps(before, e, period);
      RunsExtend(before, e, period);
      ExpiredAnchorsStay(before, e, period);
    }
  }

  lemma ExpiredAnchorsStay(s: Session, e: Event, period: Period)
    requires SessionOk(s) && s.Decision().Some? && s.Decision().value.tick < s.Base().clock.tick && !Resets(e)
    ensures Next(s, e, period).Base().anchors == s.Base().anchors
  {
    RunsExtend(s, e, period);
    NextKeeps(s, e, period);
  }

  // ---------------------------------------------------------------- an accepted validation is older

  function Script(c: Candidate, high: bool): Env {
    Env(StepEnv(NoFailure, high, false), Candidates("SET", [(c, true)], 3), Verdict(true), ApplyEnv(true, NoneAfter))
  }

  function Say(command: Command, c: Candidate, high: bool): Event {
    Operator(command, Inputs(None, None), Script(c, high))
  }

  /** The session of the scripted demonstration at one tick, before any anchor. */
  function At(tick: nat, high: bool, catalog: Catalog, audit: Option<AuditLog>, resolution: Option<Resolution>,
              decision: Option<Decision>): Session {
    var b := Base(Clock(Running, tick, 0), Some(tick), [], Some(tick), catalog, audit,
        Some(StepResult(tick, high, false)));
    Session(Revalidated(Decided(Resolved(b, resolution), decision), None), None, None)
  }

  lemma ScriptedStep(tick: nat, n: nat, was: bool, high: bool, catalog: Catalog, audit: Option<AuditLog>,
                     resolution: Option<Resolution>, c: Candidate)
    requires n > 0
    ensures StepBy(At(tick, was, catalog, audit, resolution, None), n, Script(c, high), 1.0)
         == Done(At(tick + n, high, catalog, audit, resolution, None))
  {
    assert (tick + n) as real / 1.0 == (tick + n) as real;
    assert SlotOf(tick + n, 1.0) == tick + n;
  }

  function TheSet(c: Candidate): RecommendationSet {
    RecommendationSet("SET", 75, [Validated(c, true, 75)])
  }

  lemma ScriptedResolve(c: Candidate)
    ensures var r := At(75, true, NO_SETS, None, None, None).rev.dec.res;
            Resolve(r, Script(c, true).resolve)
            == Done(r.(base := r.base.(catalog := Catalog(map["SET" := TheSet(c)], Some("SET"))),
                resolution := Some(Resolution(75, TheSet(c)))))
  {
    assert SafeOptions([(c, true)][1..], 75) == [];
    assert SafeOptions([(c, true)], 75) == [Validated(c, true, 75)];
  }

  lemma ScriptedStart(c: Candidate)
    ensures Next(Fresh(Clock(Ready, 0, 0)), Say(Start, c, false), 1.0) == At(0, false, NO_SETS, None, None, None)
  {
    assert SlotOf(0, 1.0) == 0;
  }

  lemma ScriptedConflict(c: Candidate)
    ensures Next(At(0, false, NO_SETS, None, None, None), Say(AdvanceToConflict, c, true), 1.0) ==
            At(70, true, NO_SETS, None, None, None)
  {
    ScriptedStep(0, 70, false, true, NO_SETS, None, None, c);
  }

  lemma ScriptedRecommendation(c: Candidate)
    ensures Next(At(70, true, NO_SETS, None, None, None), Say(Generate, c, true), 1.0)
         == At(75, true, Catalog(map["SET" := TheSet(c)], Some("SET")), None, Some(Resolution(75, TheSet(c))), None)
  {
    ScriptedStep(70, 5, true, true, NO_SETS, None, None, c);
    ScriptedResolve(c);
  }

  lemma RunOneMore(s: Session, events: seq<Event>, e: Event, period: Period)
    ensures Run(s, events + [e], period) == Next(Run(s, events, period), e, period)
  {
    assert (events + [e])[..|events|] == events;
  }

  lemma RunThree(s0: Session, e1: Event, s1: Session, e2: Event, s2: Session, e3: Event, s3: Session, period: Period)
    requires Next(s0, e1, period) == s1 && Next(s1, e2, period) == s2 && Next(s2, e3, period) == s3
    ensures Run(s0, [e1, e2, e3], period) == s3
  {
    RunOneMore(s0, [], e1, period);
    RunOneMore(s0, [e1], e2, period);
    RunOneMore(s0, [e1, e2], e3, period);
    assert [] + [e1] == [e1] && [e1] + [e2] == [e1, e2] && [e1, e2] + [e3] == [e1, e2, e3];
  }

  /** The demonstration up to the recommendation at tick 75. */
  lemma Recommended(c: Candidate)
    ensures Run(Fresh(Clock(Ready, 0, 0)),
            [Say(Start, c, false), Say(AdvanceToConflict, c, true), Say(Generate, c, true)], 1.0)
         == At(75, true, Catalog(map["SET" := TheSet(c)], Some("SET")), None, Some(Resolution(75, TheSet(c))), None)
  {
    ScriptedStart(c);
    ScriptedConflict(c);
    ScriptedRecommendation(c);
    RunThree(Fresh(Clock(Ready, 0, 0)), Say(Start, c, false), At(0, false, NO_SETS, None, None, None),
             Say(AdvanceToConflict, c, true), At(70, true, NO_SETS, None, None, None), Say(Generate, c, true),
             At(75, true, Catalog(map["SET" := TheSet(c)], Some("SET")), None, Some(Resolution(75, TheSet(c))), None),
                 1.0);
  }

  /** The scripted demonstration: whatever the accepted candidate, it is applied at tick 90 on a
      validation of the traffic at tick 75. */
  lemma AcceptedOnOlderValidation(c: Candidate)
    ensures var script := [Say(Start, c, false), Say(AdvanceToConflict, c, true), Say(Generate, c, true)];
            var s := Run(Fresh(Clock(Ready, 0, 0)),
                script + [Say(Respond(Accept), c, true)] + [Say(ApplyApprovedManeuver, c, true)], 1.0);
            && s.Base().anchors == [Anchor(c, 90)]
            && Entries(s.Base().audit) == [Entry("SET", Validated(c, true, 75), Accept, 90, None)]
  {
    var script := [Say(Start, c, false), Say(AdvanceToConflict, c, true), Say(Generate, c, true)];
    var accept, apply := Say(Respond(Accept), c, true), Say(ApplyApprovedManeuver, c, true);
    var s0 := Fresh(Clock(Ready, 0, 0));
    Recommended(c);
    RunOneMore(s0, script, accept, 1.0);
    RunOneMore(s0, script + [accept], apply, 1.0);
    var catalog := Catalog(map["SET" := TheSet(c)], Some("SET"));
    var s3 := At(75, true, catalog, None, Some(Resolution(75, TheSet(c))), None);
    ScriptedDecision(c, catalog);
    var s4 := At(90, true, catalog, Some(TheLog(c)), Some(Resolution(75, TheSet(c))), Some(TheDecision(c)));
    assert Run(s0, script + [accept], 1.0) == Next(s3, accept, 1.0) == s4;
    ScriptedApplication(c, catalog);
    assert Run(s0, script + [accept] + [apply], 1.0) == Next(s4, apply, 1.0);
  }

  function TheLog(c: Candidate): AuditLog {
    AuditLog(1, 90, [Entry("SET", Validated(c, true, 75), Accept, 90, None)])
  }

  function TheDecision(c: Candidate): Decision {
    SessionCore.Decision.Decision(90, Validated(c, true, 75), TheLog(c).entries[0], TheLog(c))
  }

  lemma ScriptedDecision(c: Candidate, catalog: Catalog)
    requires catalog.Current() == Some(TheSet(c))
    ensures Next(At(75, true, catalog, None, Some(Resolution(75, TheSet(c))), None), Say(Respond(Accept), c, true), 1.0)
         == At(90, true, catalog, Some(TheLog(c)), Some(Resolution(75, TheSet(c))), Some(TheDecision(c)))
  {
    ScriptedStep(75, 15, true, true, catalog, None, Some(Resolution(75, TheSet(c))), c);
    var d := At(90, true, catalog, None, Some(Resolution(75, TheSet(c))), None).rev.dec;
    assert TheSet(c).Primary() == Some(Validated(c, true, 75));
    assert TheSet(c).options[0] == Validated(c, true, 75);
    assert Entries(None) + TheLog(c).entries == TheLog(c).entries;
    assert Record(None, TheSet(c), Validated(c, true, 75), Accept, 90, Inputs(None, None)) == Ok(TheLog(c));
    assert Decide(d, Accept, Inputs(None, None)).state ==
           At(90, true, catalog, Some(TheLog(c)), Some(Resolution(75, TheSet(c))), Some(TheDecision(c))).rev.dec;
  }

  lemma ScriptedApplication(c: Candidate, catalog: Catalog)
    ensures var s := Next(At(90, true, catalog, Some(TheLog(c)), Some(Resolution(75, TheSet(c))), Some(TheDecision(c))),
            Say(ApplyApprovedManeuver, c, true), 1.0);
            s.Base().anchors == [Anchor(c, 90)] && s.Base().audit == Some(TheLog(c))
  {
  }
}
