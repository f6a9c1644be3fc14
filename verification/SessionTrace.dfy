/** What a session holds, read off the events alone: nothing is recommended, decided, found SAFE or
    anchored unless the events since the last reset say so, one after the other. */
module SessionTrace {
  import opened Options
  import opened SessionCore
  import opened SessionSafety

  // ---------------------------------------------------------------- which candidates are recommended

  /** Number of candidates among the first n that were found SAFE. */
  function SafeBefore(ranked: seq<(Candidate, bool)>, n: nat): (c: nat)
    requires n <= |ranked|
    ensures c <= n
  {
    if n == 0 then 0 else SafeBefore(ranked, n - 1) + if ranked[n - 1].1 then 1 else 0
  }

  /** The candidates found SAFE, and no others, in ranking order, as many as may be recommended. */
  ghost predicate RecommendedFrom(options: seq<Validated>, ranked: seq<(Candidate, bool)>, limit: nat) {
    var all := SafeBefore(ranked, |ranked|);
    && |options| == (if all <= limit then all else limit)
    && forall i: nat :: i < |ranked| && ranked[i].1 && SafeBefore(ranked, i) < |options| ==>
         options[SafeBefore(ranked, i)].candidate == ranked[i].0
  }

  lemma {:induction false} SafeBeforeTail(ranked: seq<(Candidate, bool)>, n: nat)
    requires 0 < n <= |ranked|
    ensures SafeBefore(ranked, n) == SafeBefore(ranked[1..], n - 1) + if ranked[0].1 then 1 else 0
  {
    if n == 1 {
    } else {
      SafeBeforeTail(ranked, n - 1);
    }
  }

  lemma {:induction false} SafeOptionsCount(ranked: seq<(Candidate, bool)>, at: nat)
    ensures |SafeOptions(ranked, at)| == SafeBefore(ranked, |ranked|)
  {
    if ranked == [] {
    } else {
      SafeOptionsCount(ranked[1..], at);
      SafeBeforeTail(ranked, |ranked|);
    }
  }

  lemma {:induction false} SafeOptionAt(ranked: seq<(Candidate, bool)>, at: nat, i: nat)
    requires i < |ranked| && ranked[i].1
    ensures SafeBefore(ranked, i) < |SafeOptions(ranked, at)|
    ensures SafeOptions(ranked, at)[SafeBefore(ranked, i)] == Validated(ranked[i].0, true, at)
  {
    if i == 0 {
    } else {
      SafeOptionAt(ranked[1..], at, i - 1);
      SafeBeforeTail(ranked, i);
    }
  }

  /** The recommended set holds exactly the leading SAFE candidates. */
  lemma RecommendIs(env: ResolveEnv, at: nat)
    requires env.Candidates?
    ensures RecommendedFrom(Recommend(env, at).options, env.ranked, env.limit)
    ensures Recommend(env, at).id == env.setId && Recommend(env, at).generatedAt == at
  {
    SafeOptionsCount(env.ranked, at);
    forall i: nat | i < |env.ranked| && env.ranked[i].1
      ensures SafeBefore(env.ranked, i) < |SafeOptions(env.ranked, at)|
      ensures SafeOptions(env.ranked, at)[SafeBefore(env.ranked, i)].candidate == env.ranked[i].0
    {
      SafeOptionAt(env.ranked, at, i);
    }
  }

  // ---------------------------------------------------------------- one event

  /** A reset that takes effect: of the clock, or a command without inputs. */
  predicate Restarts(e: Event) {
    e.ClockReset? || (e.Operator? && e.command == Reset && e.inputs == Inputs(None, None))
  }

  ghost predicate Generates(e: Event, r: Resolution) {
    && e.Operator? && e.command == Generate && e.env.resolve.Candidates?
    && r.recommended.id == e.env.resolve.setId && r.recommended.generatedAt == r.tick
    && RecommendedFrom(r.recommended.options, e.env.resolve.ranked, e.env.resolve.limit)
  }

  /** The operator's own answer, with a rationale unless it accepts. */
  ghost predicate Answers(e: Event, x: Decision) {
    && e.Operator? && e.command == Respond(x.entry.kind) && x.entry.modified == e.inputs.maneuver
    && (x.entry.kind == Accept <==> e.inputs.rationale == None)
    && (e.inputs.rationale.Some? ==> e.inputs.rationale.value != "")
  }

  ghost predicate Rechecks(e: Event, r: Revalidation) {
    e.Operator? && e.command == RevalidateModified && e.env.revalidate == Verdict(r.safe)
  }

  /** The operator's own command, taken by the aircraft. */
  ghost predicate Anchors(e: Event, c: Command) {
    e.Operator? && e.command == c && e.env.apply.takes
  }

  /** A revalidation records the verdict it was given, and nothing without one. */
  lemma VerdictIsRecorded(v: Revalidated, env: RevalidateEnv)
    ensures var o := Revalidate(v, env);
            && (o.error == None ==>
               env.Verdict? && o.state.revalidation.Some? && o.state.revalidation.value.safe == env.safe)
            && (o.error.Some? ==> o.state == v)
  {
  }

  /** What one event may add. */
  ghost predicate Adds(s: Session, e: Event, t: Session) {
    && (t.Resolution() == s.Resolution() ||
       (s.Resolution() == None && t.Resolution().Some? && Generates(e, t.Resolution().value)))
    && (t.Decision() == s.Decision()
        || (s.Decision() == None && t.Decision().Some? && t.Resolution() == s.Resolution() && s.Resolution().Some?
            && Answers(e, t.Decision().value)))
    && (t.rev.revalidation == s.rev.revalidation
        || (s.rev.revalidation == None && t.rev.revalidation.Some? && t.Decision() == s.Decision() && s.Decision().Some?
            && Rechecks(e, t.rev.revalidation.value)))
    && (t.Base().anchors == s.Base().anchors
        || (s.Base().anchors == [] && t.rev.revalidation == s.rev.revalidation && t.Decision() == s.Decision() &&
           s.Decision().Some?
            && ((Anchors(e, ApplyApprovedManeuver) && s.Decision().value.entry.kind == Accept)
                || (Anchors(e, ApplyModifiedManeuver) && s.Decision().value.entry.kind == Modify
                    && s.rev.revalidation.Some? && s.rev.revalidation.value.safe))))
  }

  lemma StepAdds(s: Session, n: nat, env: Env, period: Period)
    ensures var t := StepBy(s, n, env, period).state;
            && t.rev.dec.res.resolution == s.Resolution() && t.Decision() == s.Decision()
            && t.rev.revalidation == s.rev.revalidation && t.Base().anchors == s.Base().anchors
  {
  }

  lemma GenerateAdds(s: Session, inputs: Inputs, env: Env, period: Period)
    requires StageOf(s) == ConflictDetected
    ensures Adds(s, Operator(Generate, inputs, env), Perform(s, Generate, inputs, env, period).state)
  {
    StepAdds(s, 5, env, period);
    var o := StepBy(s, 5, env, period);
    if o.error == None && env.resolve.Candidates? {
      RecommendIs(env.resolve, o.state.Base().clock.tick);
    }
  }

  lemma RespondAdds(s: Session, kind: DecisionKind, inputs: Inputs, env: Env, period: Period)
    requires StageOf(s) == RecommendationAvailable && ValidInputs(Respond(kind), inputs, s.Base().catalog.Current())
    ensures Adds(s, Operator(Respond(kind), inputs, env), Perform(s, Respond(kind), inputs, env, period).state)
  {
    StepAdds(s, 15, env, period);
  }

  lemma ApplyAdds(b: Base, c: Candidate, env: ApplyEnv)
    ensures Apply(b, c, env).state.anchors != b.anchors ==> env.takes
    ensures Apply(b, c, env).state.anchors == b.anchors ||
            Apply(b, c, env).state.anchors == b.anchors + [Anchor(c, b.clock.tick)]
  {
  }

  /** There is room for an anchor only as long as there is none. */
  lemma ApprovedAdds(s: Session, inputs: Inputs, env: Env, period: Period)
    requires SessionOk(s)
    ensures Adds(s, Operator(ApplyApprovedManeuver, inputs, env),
            Perform(s, ApplyApprovedManeuver, inputs, env, period).state)
  {
    ApplyApprovedKeeps(s, env.apply);
    if s.Decision().Some? && s.Decision().value.entry.Approved().Some? {
      ApplyAdds(s.Base(), s.Decision().value.entry.Approved().value, env.apply);
    }
  }

  lemma ModifiedAdds(s: Session, inputs: Inputs, env: Env, period: Period)
    requires SessionOk(s)
    ensures Adds(s, Operator(ApplyModifiedManeuver, inputs, env),
            Perform(s, ApplyModifiedManeuver, inputs, env, period).state)
  {
    ApplyModifiedKeeps(s, env.apply);
    if s.rev.revalidation.Some? {
      ApplyAdds(s.Base(), s.rev.revalidation.value.candidate, env.apply);
    }
  }

  lemma PerformAdds(s: Session, c: Command, inputs: Inputs, env: Env, period: Period)
    requires SessionOk(s) && Required(c) == Some(StageOf(s)) && ValidInputs(c, inputs, s.Base().catalog.Current())
    ensures Adds(s, Operator(c, inputs, env), Perform(s, c, inputs, env, period).state)
  {
    match c
    case Start => StepAdds(Playing(s), 0, env, period);
    case AdvanceToConflict => StepAdds(s, 70, env, period);
    case Generate => GenerateAdds(s, inputs, env, period);
    case Respond(kind) => RespondAdds(s, kind, inputs, env, period);
    case RevalidateModified => VerdictIsRecorded(s.rev, env.revalidate);
    case ApplyModifiedManeuver => ModifiedAdds(s, inputs, env, period);
    case ApplyApprovedManeuver => ApprovedAdds(s, inputs, env, period);
    case _ =>
  }

  lemma NextAdds(s: Session, e: Event, period: Period)
    requires SessionOk(s) && !Restarts(e)
    ensures Adds(s, e, Next(s, e, period))
  {
    if e.Operator? {
      var o := Execute(s, e.command, e.inputs, e.env, period);
      if o.state != s {
        if e.command.Advance? {
          StepAdds(if s.Base().clock.mode == Running then s else Playing(s), e.command.seconds.value, e.env, period);
        } else {
          PerformAdds(s, e.command, e.inputs, e.env, period);
        }
      }
    }
  }

  // ---------------------------------------------------------------- over a run

  /** Event k happened, and no reset since. */
  ghost predicate Since(events: seq<Event>, k: nat) {
    k < |events| && forall m :: k <= m < |events| ==> !Restarts(events[m])
  }

  /** Before position n the set was generated. */
  ghost predicate Generated(events: seq<Event>, n: nat, r: Resolution) {
    exists k: nat :: k < n && Since(events, k) && Generates(events[k], r)
  }

  /** Before position n the operator answered, to a set generated before. */
  ghost predicate Answered(events: seq<Event>, n: nat, r: Resolution, x: Decision) {
    exists k: nat :: k < n && Since(events, k) && Answers(events[k], x) && Generated(events, k, r)
  }

  /** Before position n the answer's new maneuver was revalidated. */
  ghost predicate Rechecked(events: seq<Event>, n: nat, r: Resolution, x: Decision, v: Revalidation) {
    exists k: nat :: k < n && Since(events, k) && Rechecks(events[k], v) && Answered(events, k, r, x)
  }

  /** The anchor was commanded after the answer it carries out, and after a verdict of SAFE if the
      answer was a new maneuver. */
  ghost predicate Commanded(events: seq<Event>, n: nat, r: Resolution, x: Decision, v: Option<Revalidation>) {
    exists k: nat :: k < n && Since(events, k) && Carries(events, k, r, x, v)
  }

  ghost predicate Carries(events: seq<Event>, k: nat, r: Resolution, x: Decision, v: Option<Revalidation>)
    requires k < |events|
  {
    || (x.entry.kind == Accept && Anchors(events[k], ApplyApprovedManeuver) && Answered(events, k, r, x))
    || (x.entry.kind == Modify && Anchors(events[k], ApplyModifiedManeuver) && v.Some? && v.value.safe
        && Rechecked(events, k, r, x, v.value))
  }

  ghost predicate Traced(events: seq<Event>, s: Session) {
    && (s.Resolution().Some? ==> Generated(events, |events|, s.Resolution().value))
    && (s.Decision().Some? ==>
       s.Resolution().Some? && Answered(events, |events|, s.Resolution().value, s.Decision().value))
    && (s.rev.revalidation.Some? ==>
          && s.Decision().Some? && s.Resolution().Some?
          && Rechecked(events, |events|, s.Resolution().value, s.Decision().value, s.rev.revalidation.value))
    && (s.Base().anchors != [] ==>
          && s.Decision().Some? && s.Resolution().Some?
          && Commanded(events, |events|, s.Resolution().value, s.Decision().value, s.rev.revalidation))
  }

  lemma SinceGrows(events: seq<Event>, e: Event, k: nat)
    requires Since(events, k) && !Restarts(e)
    ensures Since(events + [e], k) && (events + [e])[k] == events[k]
  {
  }

  lemma GeneratedGrows(events: seq<Event>, e: Event, n: nat, r: Resolution)
    requires Generated(events, n, r) && !Restarts(e)
    ensures Generated(events + [e], n, r) && Generated(events + [e], n + 1, r)
  {
    var k: nat :| k < n && Since(events, k) && Generates(events[k], r);
    SinceGrows(events, e, k);
  }

  lemma AnsweredGrows(events: seq<Event>, e: Event, n: nat, r: Resolution, x: Decision)
    requires Answered(events, n, r, x) && !Restarts(e)
    ensures Answered(events + [e], n, r, x) && Answered(events + [e], n + 1, r, x)
  {
    var k: nat :| k < n && Since(events, k) && Answers(events[k], x) && Generated(events, k, r);
    SinceGrows(events, e, k);
    GeneratedGrows(events, e, k, r);
  }

  lemma RecheckedGrows(events: seq<Event>, e: Event, n: nat, r: Resolution, x: Decision, v: Revalidation)
    requires Rechecked(events, n, r, x, v) && !Restarts(e)
    ensures Rechecked(events + [e], n, r, x, v) && Rechecked(events + [e], n + 1, r, x, v)
  {
    var k: nat :| k < n && Since(events, k) && Rechecks(events[k], v) && Answered(events, k, r, x);
    SinceGrows(events, e, k);
    AnsweredGrows(events, e, k, r, x);
  }

  lemma CommandedGrows(events: seq<Event>, e: Event, n: nat, r: Resolution, x: Decision, v: Option<Revalidation>)
    requires Commanded(events, n, r, x, v) && !Restarts(e)
    ensures Commanded(events + [e], n + 1, r, x, v)
  {
    var k: nat :| k < n && Since(events, k) && Carries(events, k, r, x, v);
    SinceGrows(events, e, k);
    if x.entry.kind == Accept {
      AnsweredGrows(events, e, k, r, x);
    } else {
      RecheckedGrows(events, e, k, r, x, v.value);
    }
    assert Carries(events + [e], k, r, x, v);
  }

  /** The new event is the witness for what it adds. */
  lemma NewestSince(events: seq<Event>, e: Event)
    requires !Restarts(e)
    ensures Since(events + [e], |events|) && (events + [e])[|events|] == e
  {
  }

  lemma TraceResolution(events: seq<Event>, s: Session, e: Event, t: Session)
    requires Traced(events, s) && !Restarts(e) && Adds(s, e, t) && t.Resolution().Some?
    ensures Generated(events + [e], |events| + 1, t.Resolution().value)
    ensures s.Resolution().Some? ==>
            t.Resolution() == s.Resolution() && Generated(events + [e], |events|, t.Resolution().value)
  {
    NewestSince(events, e);
    if s.Resolution().Some? {
      GeneratedGrows(events, e, |events|, s.Resolution().value);
    }
  }

  lemma TraceDecision(events: seq<Event>, s: Session, e: Event, t: Session)
    requires Traced(events, s) && !Restarts(e) && Adds(s, e, t) && t.Decision().Some?
    ensures t.Resolution().Some? && t.Resolution() == s.Resolution()
    ensures Answered(events + [e], |events| + 1, t.Resolution().value, t.Decision().value)
    ensures s.Decision().Some? ==>
            t.Decision() == s.Decision() && Answered(events + [e], |events|, t.Resolution().value, t.Decision().value)
  {
    NewestSince(events, e);
    TraceResolution(events, s, e, t);
    if s.Decision().Some? {
      AnsweredGrows(events, e, |events|, s.Resolution().value, s.Decision().value);
    }
  }

  lemma TraceRevalidation(events: seq<Event>, s: Session, e: Event, t: Session)
    requires Traced(events, s) && !Restarts(e) && Adds(s, e, t) && t.rev.revalidation.Some?
    ensures t.Decision().Some? && t.Resolution().Some?
    ensures Rechecked(events + [e], |events| + 1, t.Resolution().value, t.Decision().value, t.rev.revalidation.value)
    ensures s.rev.revalidation.Some? ==>
              && t.rev.revalidation == s.rev.revalidation
              && Rechecked(events + [e], |events|, t.Resolution().value, t.Decision().value, t.rev.revalidation.value)
  {
    NewestSince(events, e);
    TraceDecision(events, s, e, t);
    if s.rev.revalidation.Some? {
      RecheckedGrows(events, e, |events|, s.Resolution().value, s.Decision().value, s.rev.revalidation.value);
    }
  }

  lemma TraceAnchors(events: seq<Event>, s: Session, e: Event, t: Session)
    requires Traced(events, s) && !Restarts(e) && Adds(s, e, t) && t.Base().anchors != [] && SessionOk(t)
    ensures t.Decision().Some? && t.Resolution().Some?
    ensures Commanded(events + [e], |events| + 1, t.Resolution().value, t.Decision().value, t.rev.revalidation)
  {
    NewestSince(events, e);
    assert AnchorOk(t.Base().anchors[0], t.rev);
    TraceDecision(events, s, e, t);
    if t.rev.revalidation.Some? {
      TraceRevalidation(events, s, e, t);
    }
    if s.Base().anchors != [] {
      CommandedGrows(events, e, |events|, s.Resolution().value, s.Decision().value, s.rev.revalidation);
    } else {
      assert Carries(events + [e], |events|, t.Resolution().value, t.Decision().value, t.rev.revalidation);
    }
  }

  lemma TraceStep(events: seq<Event>, s: Session, e: Event, t: Session)
    requires Traced(events, s) && !Restarts(e) && Adds(s, e, t) && SessionOk(t)
    ensures Traced(events + [e], t)
  {
    assert |events + [e]| == |events| + 1;
    if t.Resolution().Some? {
      TraceResolution(events, s, e, t);
    }
    if t.Decision().Some? {
      TraceDecision(events, s, e, t);
    }
    if t.rev.revalidation.Some? {
      TraceRevalidation(events, s, e, t);
    }
    if t.Base().anchors != [] {
      TraceAnchors(events, s, e, t);
    }
  }

  lemma RestartIsFresh(s: Session, e: Event, period: Period)
    requires Restarts(e)
    ensures Next(s, e, period) == Fresh(s.Base().clock.Reset())
  {
  }

  lemma TraceNext(events: seq<Event>, s: Session, e: Event, period: Period)
    requires SessionOk(s) && Traced(events, s)
    ensures Traced(events + [e], Next(s, e, period))
  {
    if Restarts(e) {
      RestartIsFresh(s, e, period);
    } else {
      NextAdds(s, e, period);
      NextKeeps(s, e, period);
      TraceStep(events, s, e, Next(s, e, period));
    }
  }

  /** Every run can be traced: what the session holds was generated, answered, revalidated and
      commanded by the operator since the last reset, in this order, with the verdicts the events
      carry. */
  lemma {:induction false} RunIsTraced(clock: Clock, events: seq<Event>, period: Period)
    ensures Traced(events, Run(Fresh(clock), events, period))
  {
    if events == [] {
    } else {
      var n := |events| - 1;
      RunIsTraced(clock, events[..n], period);
      RunKeeps(clock, events[..n], period);
      TraceNext(events[..n], Run(Fresh(clock), events[..n], period), events[n], period);
      assert events[..n] + [events[n]] == events;
    }
  }

  /** After an ACCEPT the anchored candidate is one that came out SAFE in the ranking. */
  ghost predicate FoundSafe(e: Event, c: Candidate) {
    e.Operator? && e.command == Generate && e.env.resolve.Candidates? && (c, true) in e.env.resolve.ranked
  }

  lemma {:induction false} SafeBeforeGrows(ranked: seq<(Candidate, bool)>, i: nat, n: nat)
    requires i <= n <= |ranked|
    ensures SafeBefore(ranked, i) <= SafeBefore(ranked, n)
    decreases n
  {
    if i == n {
    } else {
      SafeBeforeGrows(ranked, i, n - 1);
    }
  }

  /** The k-th SAFE candidate. */
  lemma {:induction false} SafeAt(ranked: seq<(Candidate, bool)>, k: nat, n: nat) returns (i: nat)
    requires n <= |ranked| && k < SafeBefore(ranked, n)
    ensures i < n && ranked[i].1 && SafeBefore(ranked, i) == k
  {
    if k < SafeBefore(ranked, n - 1) {
      i := SafeAt(ranked, k, n - 1);
    } else {
      i := n - 1;
    }
  }

  lemma OptionsWereSafe(e: Event, r: Resolution, k: nat)
    requires Generates(e, r) && k < |r.recommended.options|
    ensures FoundSafe(e, r.recommended.options[k].candidate)
  {
    var i := SafeAt(e.env.resolve.ranked, k, |e.env.resolve.ranked|);
    assert e.env.resolve.ranked[i] == (r.recommended.options[k].candidate, true);
  }

  /** The safety verdicts of the whole run. Whatever is anchored was commanded by the operator, and
      since the last reset some validation of its very kind came out SAFE: the generation for an
      accepted candidate, the revalidation for a new maneuver. */
  lemma AnchorsWereFoundSafe(clock: Clock, events: seq<Event>, period: Period)
    ensures var s := Run(Fresh(clock), events, period);
            s.Base().anchors != [] ==>
              && Entries(s.Base().audit) != []
              && (Entries(s.Base().audit)[0].kind == Accept ==>
                    exists k: nat :: Since(events, k) && FoundSafe(events[k], s.Base().anchors[0].candidate))
              && (Entries(s.Base().audit)[0].kind == Modify ==>
                 exists k: nat :: Since(events, k) && SaysSafe(events[k]))
  {
    var s := Run(Fresh(clock), events, period);
    RunIsTraced(clock, events, period);
    RunKeeps(clock, events, period);
    if s.Base().anchors != [] {
      assert AnchorOk(s.Base().anchors[0], s.rev);
      var r, x := s.Resolution().value, s.Decision().value;
      var k: nat :| k < |events| && Since(events, k) && Carries(events, k, r, x, s.rev.revalidation);
      if x.entry.kind == Accept {
        AcceptedWasSafe(events, r, x);
      } else {
        var m: nat :| m < k && Since(events, m) && Rechecks(events[m], s.rev.revalidation.value) &&
            Answered(events, m, r, x);
        assert SaysSafe(events[m]);
      }
    }
  }

  lemma AcceptedWasSafe(events: seq<Event>, r: Resolution, x: Decision)
    requires Answered(events, |events|, r, x) && r.recommended.Primary() == Some(x.selected)
    ensures exists k: nat :: Since(events, k) && FoundSafe(events[k], x.selected.candidate)
  {
    var k: nat :| k < |events| && Since(events, k) && Answers(events[k], x) && Generated(events, k, r);
    var m: nat :| m < k && Since(events, m) && Generates(events[m], r);
    OptionsWereSafe(events[m], r, 0);
  }

  ghost predicate SaysSafe(e: Event) {
    e.Operator? && e.command == RevalidateModified && e.env.revalidate == Verdict(true)
  }

  /** A run none of whose revalidations comes out SAFE anchors nothing after a MODIFY. */
  lemma UnsafeIsNeverAnchored(clock: Clock, events: seq<Event>, period: Period)
    requires forall k :: 0 <= k < |events| ==> !SaysSafe(events[k])
    ensures var s := Run(Fresh(clock), events, period);
            s.Base().anchors != [] ==> Entries(s.Base().audit) != [] && Entries(s.Base().audit)[0].kind == Accept
  {
    AnchorsWereFoundSafe(clock, events, period);
    HumanInTheLoop(clock, events, period);
  }
}
