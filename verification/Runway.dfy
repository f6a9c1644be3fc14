/** Mixed departures and arrivals on one runway, over any table of pairwise requirements. */
module Runway {
  import opened Options
  import opened Ordering
  import opened MaxPlus
  import opened RealFacts
  import opened RunwayRules

  type Rule = (RunwayOp, RunwayOp) -> real

  ghost predicate NonNegative(req: Rule) {
    forall a: RunwayOp, b: RunwayOp :: req(a, b) >= 0.0
  }

  /** The rules of the Notice are such a table. */
  lemma RulesNonNegative(d: Data)
    requires ValidData(d)
    ensures NonNegative(Rules(d))
  {
    forall a: RunwayOp, b: RunwayOp ensures Rules(d)(a, b) >= 0.0 {
      assert Requirement(d, a, b) >= 0.0;
    }
  }

  // ---------------------------------------------------------------- layout

  datatype RunwaySlot = RunwaySlot(op: RunwayOp, time: real, requirement: Option<real>)

  function SlotTime(req: Rule, ops: seq<RunwayOp>, now: real, i: nat): (t: real)
    requires NonNegative(req) && i < |ops|
    ensures t >= now && t >= ops[i].earliest
  {
    if i == 0 then Max(now, ops[0].earliest)
    else Max(SlotTime(req, ops, now, i - 1) + req(ops[i - 1], ops[i]), ops[i].earliest)
  }

  function Layout(req: Rule, ops: seq<RunwayOp>, now: real): (s: seq<RunwaySlot>)
    requires NonNegative(req)
    ensures |s| == |ops|
  {
    seq(|ops|, i requires 0 <= i < |ops| =>
      RunwaySlot(ops[i], SlotTime(req, ops, now, i), if i == 0 then None else Some(req(ops[i - 1], ops[i]))))
  }

  method LayOut(req: Rule, ops: seq<RunwayOp>, now: real) returns (slots: seq<RunwaySlot>)
    requires NonNegative(req)
    ensures slots == Layout(req, ops, now)
  {
    slots := [];
    var t := now;
    var prev: Option<RunwayOp> := None;
    for i := 0 to |ops|
      invariant |slots| == i
      invariant forall k :: 0 <= k < i ==> slots[k] == Layout(req, ops, now)[k]
      invariant prev == if i == 0 then None else Some(ops[i - 1])
      invariant i > 0 ==> t == SlotTime(req, ops, now, i - 1)
    {
      var op := ops[i];
      if prev == None {
        t := Max(now, op.earliest);
        slots := slots + [RunwaySlot(op, t, None)];
      } else {
        var wait := req(prev.value, op);
        t := Max(t + wait, op.earliest);
        slots := slots + [RunwaySlot(op, t, Some(wait))];
      }
      prev := Some(op);
    }
  }

  /** The greedy recurrence with the clock folded into the first earliest time. */
  function EarliestTimes(ops: seq<RunwayOp>, now: real): (e: seq<real>)
    ensures |e| == |ops|
  {
    seq(|ops|, i requires 0 <= i < |ops| => if i == 0 then Max(now, ops[0].earliest) else ops[i].earliest)
  }

  function Requirements(req: Rule, ops: seq<RunwayOp>): (g: seq<real>)
    requires NonNegative(req)
    ensures |g| + 1 >= |ops|
  {
    seq(if |ops| == 0 then 0 else |ops| - 1, i requires 0 <= i < |ops| - 1 => req(ops[i], ops[i + 1]))
  }

  lemma {:induction false} SlotTimeIsGreedy(req: Rule, ops: seq<RunwayOp>, now: real, i: nat)
    requires NonNegative(req) && i < |ops|
    ensures SlotTime(req, ops, now, i) == Greedy(EarliestTimes(ops, now), Requirements(req, ops), i)
  {
    if i == 0 {
    } else {
      SlotTimeIsGreedy(req, ops, now, i - 1);
    }
  }

  /** The runway layout is the least one that starts no earlier than now, respects every
      readiness time and every pairwise requirement; each of its times comes from a chain of
      requirements that starts at an undelayed operation. */
  lemma RunwayLayoutIsLeast(req: Rule, ops: seq<RunwayOp>, now: real, v: seq<real>, i: nat)
    requires NonNegative(req) && i < |ops| == |v|
    ensures Feasible(EarliestTimes(ops, now), Requirements(req, ops), v) ==> SlotTime(req, ops, now, i) <= v[i]
    ensures i > 0 ==> SlotTime(req, ops, now, i - 1) + req(ops[i - 1], ops[i]) <= SlotTime(req, ops, now, i)
    ensures exists j ::
              0 <= j <= i &&
              SlotTime(req, ops, now, i) == EarliestTimes(ops, now)[j] + Span(Requirements(req, ops), j, i)
  {
    SlotTimeIsGreedy(req, ops, now, i);
    ClosedForm(EarliestTimes(ops, now), Requirements(req, ops), i);
    if Feasible(EarliestTimes(ops, now), Requirements(req, ops), v) {
      GreedyIsLeast(EarliestTimes(ops, now), Requirements(req, ops), v, i);
    }
  }

  /** A later readiness of one operation never delays the queue behind it by more, position by
      position, and moves nothing in front of it. */
  lemma {:induction false} RunwayDelayNeverGrows(req: Rule, ops: seq<RunwayOp>, late: seq<RunwayOp>, now: real, k: nat,
                                                 i: nat)
    requires NonNegative(req) && k < |ops| == |late| && i < |ops|
    requires Requirements(req, ops) == Requirements(req, late) && ops[k].earliest <= late[k].earliest
    requires forall m :: 0 <= m < |ops| && m != k ==> ops[m].earliest == late[m].earliest
    ensures i < k ==> SlotTime(req, late, now, i) == SlotTime(req, ops, now, i)
    ensures 0.0 <= SlotTime(req, late, now, i) - SlotTime(req, ops, now, i) <= late[k].earliest - ops[k].earliest
    ensures k < i ==>
              SlotTime(req, late, now, i) - SlotTime(req, ops, now, i) <=
              SlotTime(req, late, now, i - 1) - SlotTime(req, ops, now, i - 1)
  {
    if i == 0 {
    } else {
      RunwayDelayNeverGrows(req, ops, late, now, k, i - 1);
      assert Requirements(req, ops)[i - 1] == Requirements(req, late)[i - 1];
    }
  }

  predicate ReadyBefore(a: RunwayOp, b: RunwayOp) {
    a.earliest <= b.earliest
  }

  function ByReadiness(ops: seq<RunwayOp>): (r: seq<RunwayOp>)
    ensures multiset(r) == multiset(ops)
  {
    Sort(ops, (a, b) => ReadyBefore(a, b))
  }

  /** By readiness: nobody in front of one that is ready sooner, and of those ready at the same time
      the one named first in front. */
  lemma ReadinessOrder(ops: seq<RunwayOp>, earliest: real)
    ensures var r := ByReadiness(ops);
            && (forall i, j :: 0 <= i < j < |r| ==> r[i].earliest <= r[j].earliest)
            && Keep(r, (o: RunwayOp) => o.earliest == earliest) == Keep(ops, (o: RunwayOp) => o.earliest == earliest)
  {
    var leq := (a: RunwayOp, b: RunwayOp) => ReadyBefore(a, b);
    SortSorted(ops, leq);
    SortStable(ops, leq, (o: RunwayOp) => o.earliest == earliest);
    var r := ByReadiness(ops);
    forall i, j | 0 <= i < j < |r| ensures r[i].earliest <= r[j].earliest {
      assert leq(r[i], r[j]);
    }
  }

  method FirstComeFirstServed(req: Rule, ops: seq<RunwayOp>, now: real) returns (slots: seq<RunwaySlot>)
    requires NonNegative(req)
    ensures slots == Layout(req, ByReadiness(ops), now)
  {
    slots := LayOut(req, ByReadiness(ops), now);
  }

  // ---------------------------------------------------------------- the distressed aircraft

  const TOLERANCE := 0.000001

  function Rest(ops: seq<RunwayOp>, subject: string): (r: seq<RunwayOp>)
    ensures forall o :: o in r ==> o.callsign != subject
  {
    if ops == [] then [] else (if ops[0].callsign == subject then [] else [ops[0]]) + Rest(ops[1..], subject)
  }

  function FirstWith(ops: seq<RunwayOp>, subject: string): (r: Option<RunwayOp>)
    ensures r.Some? ==> r.value in ops && r.value.callsign == subject
    ensures r == None ==> forall o :: o in ops ==> o.callsign != subject
  {
    if ops == [] then None
    else if ops[0].callsign == subject then Some(ops[0])
    else FirstWith(ops[1..], subject)
  }

  function At(order: seq<RunwayOp>, target: RunwayOp, i: nat): (trial: seq<RunwayOp>)
    requires i <= |order|
    ensures |trial| == |order| + 1 && trial[i] == target
  {
    order[..i] + [target] + order[i..]
  }

  /** The slot of the first entry with the callsign. */
  function TimeOf(slots: seq<RunwaySlot>, callsign: string): Option<real> {
    if slots == [] then None
    else if slots[0].op.callsign == callsign then Some(slots[0].time)
    else TimeOf(slots[1..], callsign)
  }

  lemma {:induction false} TimeOfTarget(slots: seq<RunwaySlot>, callsign: string, i: nat)
    requires i < |slots| && slots[i].op.callsign == callsign
    requires forall k :: 0 <= k < i ==> slots[k].op.callsign != callsign
    ensures TimeOf(slots, callsign) == Some(slots[i].time)
  {
    if i == 0 {
    } else {
      TimeOfTarget(slots[1..], callsign, i - 1);
    }
  }

  lemma TrialTime(req: Rule, order: seq<RunwayOp>, target: RunwayOp, now: real, i: nat)
    requires NonNegative(req) && i <= |order| && forall o :: o in order ==> o.callsign != target.callsign
    ensures TimeOf(Layout(req, At(order, target, i), now), target.callsign) ==
            Some(SlotTime(req, At(order, target, i), now, i))
  {
    var trial := At(order, target, i);
    forall k | 0 <= k < i ensures trial[k].callsign != target.callsign {
      assert trial[k] in order;
    }
    TimeOfTarget(Layout(req, trial, now), target.callsign, i);
  }

  /** `None` stands for the error on an unknown callsign. */
  method InsertEmergency(req: Rule, ops: seq<RunwayOp>, subject: string, now: real)
      returns (slots: Option<seq<RunwaySlot>>)
    requires NonNegative(req)
    ensures slots == EmergencySchedule(req, ops, subject, now)
  {
    var rest := Rest(ops, subject);
    var found := FirstWith(ops, subject);
    if found == None { return None; }
    var target := found.value;
    var order := ByReadiness(rest);
    OthersDiffer(ops, subject);
    for i := 0 to |order| + 1
      invariant i > 0 ==> now > target.earliest + TOLERANCE
    {
      var trial := At(order, target, i);
      var sched := LayOut(req, trial, now);
      var time := TimeOf(sched, subject);
      TrialTime(req, order, target, now, i);
      if time.value <= target.earliest + TOLERANCE {
        FirstOrNever(req, order, target, now, i);
        assert i == 0;
        return Some(sched);
      }
      FirstOrNever(req, order, target, now, i);
    }
    var last := LayOut(req, At(order, target, |order|), now);
    return Some(last);
  }

  lemma OthersDiffer(ops: seq<RunwayOp>, subject: string)
    ensures forall o :: o in ByReadiness(Rest(ops, subject)) ==> o.callsign != subject
  {
    var rest := Rest(ops, subject);
    forall o | o in ByReadiness(rest) ensures o.callsign != subject {
      assert o in multiset(ByReadiness(rest)) && o in multiset(rest);
    }
  }

  /** The time test is decided by the clock alone: at the front it succeeds exactly when the
      clock has not passed the earliest time by more than the tolerance, and when it fails
      there it fails everywhere. */
  lemma FirstOrNever(req: Rule, order: seq<RunwayOp>, target: RunwayOp, now: real, i: nat)
    requires NonNegative(req) && i <= |order|
    ensures i == 0 ==> (SlotTime(req, At(order, target, i), now, i) <= target.earliest + 0.000001 <==>
            now <= target.earliest + 0.000001)
    ensures now > target.earliest + 0.000001 ==>
            SlotTime(req, At(order, target, i), now, i) > target.earliest + 0.000001
  {
  }

  /** What the search over positions comes to, in closed form. */
  function EmergencySchedule(req: Rule, ops: seq<RunwayOp>, subject: string, now: real): Option<seq<RunwaySlot>>
    requires NonNegative(req)
  {
    var order := ByReadiness(Rest(ops, subject));
    match FirstWith(ops, subject)
    case None => None
    case Some(target) =>
      Some(Layout(req, At(order, target, if now <= target.earliest + TOLERANCE then 0 else |order|), now))
  }

  /** The operations of a schedule, in its order. */
  function Served(slots: seq<RunwaySlot>): (ops: seq<RunwayOp>)
    ensures |ops| == |slots|
  {
    seq(|slots|, i requires 0 <= i < |slots| => slots[i].op)
  }

  ghost predicate OnceAtMost(ops: seq<RunwayOp>) {
    forall i, j :: 0 <= i < j < |ops| ==> ops[i].callsign != ops[j].callsign
  }

  lemma {:induction false} RestOfNone(ops: seq<RunwayOp>, subject: string)
    requires forall k :: 0 <= k < |ops| ==> ops[k].callsign != subject
    ensures Rest(ops, subject) == ops && FirstWith(ops, subject) == None
  {
    if ops == [] {
    } else {
      RestOfNone(ops[1..], subject);
    }
  }

  lemma {:induction false} RestOfAll(ops: seq<RunwayOp>, subject: string)
    requires OnceAtMost(ops) && FirstWith(ops, subject).Some?
    ensures multiset(ops) == multiset(Rest(ops, subject)) + multiset{FirstWith(ops, subject).value}
  {
    var head, tail := ops[0], ops[1..];
    assert ops == [head] + tail;
    if head.callsign == subject {
      RestOfNone(tail, subject);
    } else {
      RestOfAll(tail, subject);
      assert Rest(ops, subject) == [head] + Rest(tail, subject);
    }
  }

  /** Everybody but the one in distress is served by readiness. */
  ghost predicate OthersByReadiness(served: seq<RunwayOp>, subject: string) {
    forall i, j :: 0 <= i < j < |served| && served[i].callsign != subject && served[j].callsign != subject ==>
      served[i].earliest <= served[j].earliest
  }

  lemma OthersAround(order: seq<RunwayOp>, target: RunwayOp, i: nat)
    requires forall i, j :: 0 <= i < j < |order| ==> order[i].earliest <= order[j].earliest
    requires i == 0 || i == |order|
    ensures OthersByReadiness(At(order, target, i), target.callsign)
  {
    var served := At(order, target, i);
    assert i == 0 ==> forall k :: 0 <= k < |order| ==> served[k + 1] == order[k];
    assert i == |order| ==> forall k :: 0 <= k < |order| ==> served[k] == order[k];
  }

  /** The schedule with the distressed aircraft serves everybody, each once, and the others by
      readiness. */
  lemma EverybodyIsServed(req: Rule, ops: seq<RunwayOp>, subject: string, now: real)
    requires NonNegative(req) && OnceAtMost(ops)
    ensures EmergencySchedule(req, ops, subject, now).Some? <==> exists o :: o in ops && o.callsign == subject
    ensures EmergencySchedule(req, ops, subject, now).Some? ==>
              var served := Served(EmergencySchedule(req, ops, subject, now).value);
              multiset(served) == multiset(ops) && OthersByReadiness(served, subject)
  {
    if FirstWith(ops, subject).Some? {
      var order, target := ByReadiness(Rest(ops, subject)), FirstWith(ops, subject).value;
      var i := if now <= target.earliest + TOLERANCE then 0 else |order|;
      RestOfAll(ops, subject);
      ReadinessOrder(Rest(ops, subject), 0.0);
      OthersAround(order, target, i);
      ServedIs(req, order, target, now, i);
    }
  }

  lemma ServedIs(req: Rule, order: seq<RunwayOp>, target: RunwayOp, now: real, i: nat)
    requires NonNegative(req) && (i == 0 || i == |order|)
    ensures Served(Layout(req, At(order, target, i), now)) == At(order, target, i)
    ensures multiset(At(order, target, i)) == multiset(order) + multiset{target}
  {
    assert i == 0 ==> order[..i] == [] && order[i..] == order;
    assert i == |order| ==> order[..i] == order && order[i..] == [];
  }

  /** `o` could use the runway before the distressed aircraft without delaying it. */
  predicate FitsBefore(req: Rule, o: RunwayOp, target: RunwayOp, now: real)
    requires NonNegative(req)
  {
    Max(now, o.earliest) + req(o, target) <= target.earliest + 0.000001
  }

  /** That is, with both of them scheduled and the other one first, the distressed aircraft is on time. */
  lemma FitsIff(req: Rule, o: RunwayOp, target: RunwayOp, now: real)
    requires NonNegative(req)
    ensures FitsBefore(req, o, target, now) <==>
            Layout(req, [o, target], now)[1].time <= target.earliest + 0.000001
  {
    assert SlotTime(req, [o, target], now, 0) == Max(now, o.earliest);
  }

  /** Position k is behind the distressed aircraft although it fits in front of it. */
  predicate IdlesFor(req: Rule, slots: seq<RunwaySlot>, target: RunwayOp, now: real, k: nat)
    requires NonNegative(req) && k < |slots|
  {
    && slots[k].op.callsign != target.callsign && FitsBefore(req, slots[k].op, target, now)
    && exists j :: 0 <= j < k && slots[j].op == target
  }

  /** The runway is left idle: someone who fits in front waits behind. */
  predicate Idles(req: Rule, slots: seq<RunwaySlot>, target: RunwayOp, now: real)
    requires NonNegative(req)
  {
    exists k :: 0 <= k < |slots| && IdlesFor(req, slots, target, now, k)
  }

  /** The insertion is meant to leave no such gap on the runway. It does so if and only if no
      other operation fits in front of the distressed aircraft; otherwise the distressed
      aircraft is put first and everybody else waits for it. */
  lemma EmergencyIdlesIff(req: Rule, ops: seq<RunwayOp>, subject: string, now: real)
    requires NonNegative(req) && FirstWith(ops, subject).Some?
    ensures var target := FirstWith(ops, subject).value;
            var slots := EmergencySchedule(req, ops, subject, now).value;
            Idles(req, slots, target, now) <==> exists o :: o in Rest(ops, subject) && FitsBefore(req, o, target, now)
  {
    var target := FirstWith(ops, subject).value;
    var rest := Rest(ops, subject);
    var order := ByReadiness(rest);
    var slots := EmergencySchedule(req, ops, subject, now).value;
    OthersDiffer(ops, subject);
    SameMembers(rest, order);
    if o :| o in rest && FitsBefore(req, o, target, now) {
      FittingIdles(req, order, target, now, o);
    }
    if Idles(req, slots, target, now) {
      IdlingFits(req, order, target, now, if now <= target.earliest + TOLERANCE then 0 else |order|);
    }
  }

  lemma SameMembers<T>(a: seq<T>, b: seq<T>)
    requires multiset(a) == multiset(b)
    ensures forall x :: x in a <==> x in b
  {
    forall x ensures x in a <==> x in b {
      assert x in a <==> x in multiset(a);
      assert x in b <==> x in multiset(b);
    }
  }

  lemma FittingIdles(req: Rule, order: seq<RunwayOp>, target: RunwayOp, now: real, o: RunwayOp)
    requires NonNegative(req) && o in order && FitsBefore(req, o, target, now) && o.callsign != target.callsign
    ensures now <= target.earliest + TOLERANCE && Idles(req, Layout(req, At(order, target, 0), now), target, now)
  {
    var k :| 0 <= k < |order| && order[k] == o;
    var slots := Layout(req, At(order, target, 0), now);
    assert slots[0].op == target && slots[k + 1].op == o;
    assert IdlesFor(req, slots, target, now, k + 1);
  }

  lemma IdlingFits(req: Rule, order: seq<RunwayOp>, target: RunwayOp, now: real, i: nat)
    requires NonNegative(req) && i <= |order| && Idles(req, Layout(req, At(order, target, i), now), target, now)
    ensures exists o :: o in order && FitsBefore(req, o, target, now)
  {
    var slots := Layout(req, At(order, target, i), now);
    var k :| 0 <= k < |slots| && IdlesFor(req, slots, target, now, k);
    assert slots[k].op in order && FitsBefore(req, slots[k].op, target, now);
  }

  /** How long the others wait when the distressed aircraft goes first: nobody is served
      before its arrival, however long the runway could have been used. */
  lemma EverybodyWaits(req: Rule, ops: seq<RunwayOp>, subject: string, now: real, k: nat)
    requires NonNegative(req) && FirstWith(ops, subject).Some?
    requires now <= FirstWith(ops, subject).value.earliest + 0.000001
    requires k < |EmergencySchedule(req, ops, subject, now).value|
    ensures EmergencySchedule(req, ops, subject, now).value[0].op == FirstWith(ops, subject).value
    ensures EmergencySchedule(req, ops, subject, now).value[k].time >= FirstWith(ops, subject).value.earliest
  {
    var target := FirstWith(ops, subject).value;
    SlotTimesIncrease(req, At(ByReadiness(Rest(ops, subject)), target, 0), now, 0, k);
  }

  lemma {:induction false} SlotTimesIncrease(req: Rule, ops: seq<RunwayOp>, now: real, j: nat, k: nat)
    requires NonNegative(req) && j <= k < |ops|
    ensures SlotTime(req, ops, now, j) <= SlotTime(req, ops, now, k)
    decreases k
  {
    if j == k {
    } else {
      SlotTimesIncrease(req, ops, now, j, k - 1);
    }
  }

  /** The other half: once the clock has passed the earliest time by more than the tolerance, the
      distressed aircraft is put behind everybody, though at the front it would be served now. */
  lemma LateEmergencyGoesLast(req: Rule, ops: seq<RunwayOp>, subject: string, now: real)
    requires NonNegative(req) && FirstWith(ops, subject).Some?
    requires now > FirstWith(ops, subject).value.earliest + 0.000001
    ensures var target := FirstWith(ops, subject).value;
            var slots := EmergencySchedule(req, ops, subject, now).value;
            && slots != [] && slots[|slots| - 1].op == target
            && (forall k :: 0 <= k < |slots| ==> slots[k].time <= slots[|slots| - 1].time)
            && Layout(req, At(ByReadiness(Rest(ops, subject)), target, 0), now)[0].time == now
  {
    var target := FirstWith(ops, subject).value;
    var order := ByReadiness(Rest(ops, subject));
    LastIsLatest(req, At(order, target, |order|), now);
    LateIsServedInFront(req, order, target, now);
  }

  lemma LateIsServedInFront(req: Rule, order: seq<RunwayOp>, target: RunwayOp, now: real)
    requires NonNegative(req) && now >= target.earliest
    ensures Layout(req, At(order, target, 0), now)[0].time == now
  {
  }

  lemma LastIsLatest(req: Rule, ops: seq<RunwayOp>, now: real)
    requires NonNegative(req) && ops != []
    ensures forall k :: 0 <= k < |ops| ==> Layout(req, ops, now)[k].time <= Layout(req, ops, now)[|ops| - 1].time
  {
    forall k | 0 <= k < |ops| ensures SlotTime(req, ops, now, k) <= SlotTime(req, ops, now, |ops| - 1) {
      SlotTimesIncrease(req, ops, now, k, |ops| - 1);
    }
  }

  /** When an operation is served at once: exactly when no chain of requirements that leads to it
      reaches past the present. */
  lemma ServedNowIff(req: Rule, ops: seq<RunwayOp>, now: real, i: nat)
    requires NonNegative(req) && i < |ops|
    ensures SlotTime(req, ops, now, i) == now <==>
            forall j :: 0 <= j <= i ==> EarliestTimes(ops, now)[j] + Span(Requirements(req, ops), j, i) <= now
  {
    SlotTimeIsGreedy(req, ops, now, i);
    ClosedForm(EarliestTimes(ops, now), Requirements(req, ops), i);
  }

  /** When the insertion does what it is for: the distressed aircraft is served at the earliest
      time it can be there if and only if the clock has not passed that time by more than the
      tolerance, or no chain of requirements through everybody in front reaches past the present. */
  lemma ServedAtOnceIff(req: Rule, ops: seq<RunwayOp>, subject: string, now: real)
    requires NonNegative(req) && FirstWith(ops, subject).Some?
    ensures var target := FirstWith(ops, subject).value;
            var order := ByReadiness(Rest(ops, subject));
            var last := At(order, target, |order|);
            TimeOf(EmergencySchedule(req, ops, subject, now).value, subject) == Some(Max(now, target.earliest)) <==>
            (now <= target.earliest + 0.000001
             || forall j :: 0 <= j <= |order| ==>
                EarliestTimes(last, now)[j] + Span(Requirements(req, last), j, |order|) <= now)
  {
    var target := FirstWith(ops, subject).value;
    var order := ByReadiness(Rest(ops, subject));
    EmergencyTime(req, ops, subject, now);
    if now > target.earliest + TOLERANCE {
      ServedNowIff(req, At(order, target, |order|), now, |order|);
    }
  }

  /** When the distressed aircraft is served, first or last. */
  lemma EmergencyTime(req: Rule, ops: seq<RunwayOp>, subject: string, now: real)
    requires NonNegative(req) && FirstWith(ops, subject).Some?
    ensures var target := FirstWith(ops, subject).value;
            var order := ByReadiness(Rest(ops, subject));
            TimeOf(EmergencySchedule(req, ops, subject, now).value, subject) ==
              Some(if now <= target.earliest + TOLERANCE then Max(now, target.earliest)
                   else SlotTime(req, At(order, target, |order|), now, |order|))
  {
    var target := FirstWith(ops, subject).value;
    var order := ByReadiness(Rest(ops, subject));
    OthersDiffer(ops, subject);
    TrialTime(req, order, target, now, if now <= target.earliest + TOLERANCE then 0 else |order|);
  }

  function OneMinute(leader: RunwayOp, follower: RunwayOp): real {
    60.0
  }

  const FAR := RunwayOp("A", "T", 0, Arrival, 1000.0)
  const NEAR := RunwayOp("B", "T", 0, Arrival, 0.0)

  lemma OrderOfTwo()
    ensures FirstWith([NEAR, FAR], "A") == Some(FAR) && ByReadiness(Rest([NEAR, FAR], "A")) == [NEAR]
  {
    assert "A"[0] != "B"[0];
    assert [FAR][1..] == [] && [NEAR, FAR][1..] == [FAR] && [NEAR][1..] == [];
    assert Rest([FAR], "A") == [] && Rest([NEAR, FAR], "A") == [NEAR];
  }

  lemma TwoSlots(req: Rule, a: RunwayOp, b: RunwayOp, now: real)
    requires NonNegative(req)
    ensures var t := Max(now, a.earliest);
            Layout(req, [a, b], now) ==
                [RunwaySlot(a, t, None), RunwaySlot(b, Max(t + req(a, b), b.earliest), Some(req(a, b)))]
  {
    assert SlotTime(req, [a, b], now, 0) == Max(now, a.earliest);
  }

  /** Two arrivals a minute apart, one in distress a quarter of an hour out, the other one ready:
      the ready one waits for it, although both could be served at their earliest times. */
  lemma RunwayIdles()
    ensures NonNegative(OneMinute) && FirstWith([NEAR, FAR], "A") == Some(FAR) && FitsBefore(OneMinute, NEAR, FAR, 0.0)
    ensures EmergencySchedule(OneMinute, [NEAR, FAR], "A", 0.0) ==
            Some([RunwaySlot(FAR, 1000.0, None), RunwaySlot(NEAR, 1060.0, Some(60.0))])
    ensures Layout(OneMinute, [NEAR, FAR], 0.0) == [RunwaySlot(NEAR, 0.0, None), RunwaySlot(FAR, 1000.0, Some(60.0))]
  {
    OrderOfTwo();
    assert At([NEAR], FAR, 0) == [FAR, NEAR];
    TwoSlots(OneMinute, FAR, NEAR, 0.0);
    TwoSlots(OneMinute, NEAR, FAR, 0.0);
  }
}
