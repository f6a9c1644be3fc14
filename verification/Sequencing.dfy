/** The arrival sequencer: slot layout, first-come-first-served schedules and the time-based
    insertion of a distressed aircraft. */
module Sequencing {
  import opened Options
  import opened Ordering
  import opened RealFacts
  import opened FinalApproach
  import opened SlotTimes

  datatype Slot = Slot(
    callsign: string,
    order: nat,
    time: real,
    earliest: real,
    assignedAltFt: int,
    holdingAbove: bool,
    gap: Option<GapRequirement>,
    priority: bool)

  /** Earliest threshold time without any delay: direct to the join point at the present
      ground speed, then at final approach speed. */
  function Earliest(t: Tables, ac: Aircraft, now: real): real {
    var vFinal := Max(t.finalGsKt(ac), 1.0);
    if ac.thresholdNm <= t.joinNm then
      now + ac.thresholdNm / vFinal * 3600.0
    else
      now + ac.joinPointNm / Max(ac.gsKt, 1.0) * 3600.0 + t.joinNm / vFinal * 3600.0
  }

  /** The aircraft can be at the threshold then: it flies the distance to the join point at its
      present ground speed and the final at its final approach speed, or, inside the join point, what
      is left at its final approach speed. No speed counts as less than a knot. */
  ghost predicate CanLandAt(t: Tables, ac: Aircraft, now: real, landing: real) {
    if ac.thresholdNm > t.joinNm
    then CanFly(ac.joinPointNm, KnotAtLeast(ac.gsKt), t.joinNm, KnotAtLeast(t.finalGsKt(ac)), now, landing)
    else Remaining(landing, KnotAtLeast(t.finalGsKt(ac)), now) >= ac.thresholdNm
  }

  function KnotAtLeast(v: real): (k: real)
    ensures k >= 1.0 && k >= v && (k == 1.0 || k == v)
  {
    if v >= 1.0 then v else 1.0
  }

  /** At some instant the aircraft is at the join point, with time enough for the final. */
  ghost predicate CanFly(distanceNm: real, vNow: real, joinNm: real, vFinal: real, now: real, landing: real) {
    exists j: real :: ReachesJoin(distanceNm, vNow, now, j) && FliesFinal(joinNm, vFinal, j, landing)
  }

  /** From the join point at instant j to the threshold there is time enough. */
  predicate FliesFinal(joinNm: real, v: real, j: real, landing: real) {
    Remaining(landing, v, j) >= joinNm
  }

  predicate ReachesJoin(distanceNm: real, v: real, now: real, j: real) {
    (j - now) * v == 3600.0 * distanceNm
  }

  /** The earliest time is the least landing time the aircraft can fly. */
  lemma EarliestIff(t: Tables, ac: Aircraft, now: real, landing: real)
    ensures Earliest(t, ac, now) <= landing <==> CanLandAt(t, ac, now, landing)
  {
    var vNow, vFinal := KnotAtLeast(ac.gsKt), KnotAtLeast(t.finalGsKt(ac));
    if ac.thresholdNm > t.joinNm {
      var j := now + ac.joinPointNm / vNow * 3600.0;
      JoinInstantIs(ac.joinPointNm, vNow, now, j);
      FinalTime(t.joinNm, vFinal, j, landing);
      OnlyInstant(ac.joinPointNm, vNow, now, j);
      assert Earliest(t, ac, now) == j + t.joinNm / vFinal * 3600.0;
      assert FliesFinal(t.joinNm, vFinal, j, landing) ==> CanFly(ac.joinPointNm, vNow, t.joinNm, vFinal, now, landing);
    } else {
      FinalTime(ac.thresholdNm, vFinal, now, landing);
    }
  }

  lemma JoinInstantIs(distanceNm: real, v: real, now: real, j: real)
    requires v > 0.0 && j == now + distanceNm / v * 3600.0
    ensures ReachesJoin(distanceNm, v, now, j)
  {
    var q := distanceNm / v;
    assert q * v == distanceNm;
  }

  lemma OnlyInstant(distanceNm: real, v: real, now: real, j: real)
    requires v > 0.0 && ReachesJoin(distanceNm, v, now, j)
    ensures forall i: real :: ReachesJoin(distanceNm, v, now, i) ==> i == j
  {
    forall i: real | ReachesJoin(distanceNm, v, now, i) ensures i == j {
      assert (i - now) * v - (j - now) * v == (i - j) * v;
      assert (i - j) * v == 0.0;
    }
  }

  lemma FinalTime(distanceNm: real, v: real, from: real, landing: real)
    requires v > 0.0
    ensures from + distanceNm / v * 3600.0 <= landing <==> Remaining(landing, v, from) >= distanceNm
  {
    var q := distanceNm / v;
    assert q * v == distanceNm;
    var x := landing - from - q * 3600.0;
    assert (landing - from) * v == x * v + q * v * 3600.0;
    assert x >= 0.0 <==> x * v >= 0.0;
  }

  // ---------------------------------------------------------------- layout

  /** The sequencer's own earliest times and gaps. */
  function SpacingOf(t: Tables, now: real): Spacing<Aircraft>
    requires ValidTables(t)
  {
    Spacing((a: Aircraft) => a.callsign,
            (a: Aircraft) => Earliest(t, a, now),
            (a: Aircraft, b: Aircraft) => Gap(t, a, b).seconds)
  }

  lemma SpacingFacts(t: Tables, now: real)
    requires ValidTables(t)
    ensures NonNegativeGaps(SpacingOf(t, now))
  {
    forall a: Aircraft, b: Aircraft ensures SpacingOf(t, now).gap(a, b) >= 0.0 {
      assert Gap(t, a, b).seconds >= 0.0;
    }
  }

  function SlotAt(t: Tables, ordered: seq<Aircraft>, now: real, pins: Pins, i: nat): Slot
    requires ValidTables(t) && i < |ordered|
  {
    Slot(ordered[i].callsign, i, TimeAt(SpacingOf(t, now), ordered, pins, i), Earliest(t, ordered[i], now),
         t.ladderFt[if i < |t.ladderFt| then i else |t.ladderFt| - 1], i >= |t.ladderFt|,
         if i == 0 then None else Some(Gap(t, ordered[i - 1], ordered[i])), ordered[i].emergency)
  }

  function Layout(t: Tables, ordered: seq<Aircraft>, now: real, pins: Pins): (s: seq<Slot>)
    requires ValidTables(t)
    ensures |s| == |ordered|
  {
    seq(|ordered|, i requires 0 <= i < |ordered| => SlotAt(t, ordered, now, pins, i))
  }

  function TimesOf(s: seq<Slot>): (u: seq<real>)
    ensures |u| == |s|
  {
    seq(|s|, i requires 0 <= i < |s| => s[i].time)
  }

  lemma LayoutTimes(t: Tables, ordered: seq<Aircraft>, now: real, pins: Pins)
    requires ValidTables(t)
    ensures TimesOf(Layout(t, ordered, now, pins)) == Times(SpacingOf(t, now), ordered, pins)
    ensures forall i :: 0 <= i < |ordered| ==> Layout(t, ordered, now, pins)[i].callsign == ordered[i].callsign
  {
  }

  /** What a slot says: its place, the earliest time of its aircraft, the rung of the ladder it is
      assigned or the top one while it holds above, and the gap it is behind the slot in front, which
      its time keeps unless it is pinned. */
  lemma SlotSays(t: Tables, ordered: seq<Aircraft>, now: real, pins: Pins, i: nat)
    requires ValidTables(t) && i < |ordered|
    ensures var s := Layout(t, ordered, now, pins)[i];
            && s.callsign == ordered[i].callsign && s.order == i && (s.priority <==> ordered[i].emergency)
            && s.earliest == Earliest(t, ordered[i], now)
            && (s.holdingAbove <==> i >= |t.ladderFt|)
            && (i < |t.ladderFt| ==> s.assignedAltFt == t.ladderFt[i])
            && (i >= |t.ladderFt| ==> s.assignedAltFt == t.ladderFt[|t.ladderFt| - 1])
            && (s.gap == None <==> i == 0)
            && (s.callsign in pins ==> s.time == pins[s.callsign])
            && (s.callsign !in pins ==> s.time >= s.earliest)
    ensures i > 0 ==>
              var front, s := Layout(t, ordered, now, pins)[i - 1], Layout(t, ordered, now, pins)[i];
              && s.gap == Some(Gap(t, ordered[i - 1], ordered[i]))
              && (s.callsign !in pins ==>
                    && s.time >= front.time + s.gap.value.seconds
                    && (s.time == s.earliest || s.time == front.time + s.gap.value.seconds))
  {
  }

  /** The loop of the source: one pass, carrying the previous aircraft and its time. */
  method LayOut(t: Tables, ordered: seq<Aircraft>, now: real, pins: Pins) returns (slots: seq<Slot>)
    requires ValidTables(t)
    ensures slots == Layout(t, ordered, now, pins)
  {
    slots := [];
    var prev: Option<Aircraft> := None;
    var prevTime := 0.0;
    for i := 0 to |ordered|
      invariant |slots| == i
      invariant forall k :: 0 <= k < i ==> slots[k] == SlotAt(t, ordered, now, pins, k)
      invariant i == 0 ==> prev == None
      invariant i > 0 ==> prev == Some(ordered[i - 1]) && prevTime == slots[i - 1].time
    {
      var slot := SlotBehind(t, ordered, now, pins, i, prev, prevTime);
      slots := slots + [slot];
      prev, prevTime := Some(ordered[i]), slot.time;
    }
  }

  /** One turn of it. */
  method SlotBehind(t: Tables, ordered: seq<Aircraft>, now: real, pins: Pins, i: nat, prev: Option<Aircraft>,
                    prevTime: real) returns (slot: Slot)
    requires ValidTables(t) && i < |ordered|
    requires i == 0 ==> prev == None
    requires i > 0 ==> prev == Some(ordered[i - 1]) && prevTime == SlotAt(t, ordered, now, pins, i - 1).time
    ensures slot == SlotAt(t, ordered, now, pins, i)
  {
    var ac := ordered[i];
    var earliest := Earliest(t, ac, now);
    var gap := match prev case None => None case Some(p) => Some(Gap(t, p, ac));
    var time: real;
    if ac.callsign in pins {
      time := pins[ac.callsign];
    } else if gap == None {
      time := earliest;
    } else {
      time := Max(earliest, prevTime + gap.value.seconds);
    }
    slot := Slot(ac.callsign, i, time, earliest,
                 t.ladderFt[if i < |t.ladderFt| then i else |t.ladderFt| - 1], i >= |t.ladderFt|,
                 gap, ac.emergency);
  }

  // ---------------------------------------------------------------- schedules

  function PriorityRank(ac: Aircraft): int {
    if ac.emergency then 0 else 1
  }

  /** Distressed aircraft first, then by earliest time. */
  predicate Before(t: Tables, now: real, a: Aircraft, b: Aircraft) {
    || PriorityRank(a) < PriorityRank(b)
    || (PriorityRank(a) == PriorityRank(b) && Earliest(t, a, now) <= Earliest(t, b, now))
  }

  function InOrder(t: Tables, arrivals: seq<Aircraft>, now: real): (r: seq<Aircraft>)
    ensures multiset(r) == multiset(arrivals) && |r| == |arrivals|
  {
    Sort(arrivals, (a, b) => Before(t, now, a, b))
  }

  /** The landing order: distressed aircraft in front of all others, and among equally distressed
      ones nobody in front of one that could land sooner. */
  lemma InOrderSorted(t: Tables, arrivals: seq<Aircraft>, now: real)
    ensures forall i, j :: 0 <= i < j < |arrivals| ==>
            Before(t, now, InOrder(t, arrivals, now)[i], InOrder(t, arrivals, now)[j])
    ensures forall i, j :: 0 <= i < j < |arrivals| ==>
            var a, b := InOrder(t, arrivals, now)[i], InOrder(t, arrivals, now)[j];
            && (b.emergency ==> a.emergency)
            && ((a.emergency <==> b.emergency) ==> Earliest(t, a, now) <= Earliest(t, b, now))
  {
    var leq := (a, b) => Before(t, now, a, b);
    SortSorted(arrivals, leq);
    assert Sorted(InOrder(t, arrivals, now), leq);
    var r := InOrder(t, arrivals, now);
    forall i, j | 0 <= i < j < |r|
      ensures Before(t, now, r[i], r[j]) && (r[j].emergency ==> r[i].emergency)
    {
      assert leq(r[i], r[j]);
    }
  }

  /** Aircraft that tie stay in the order they were given. */
  lemma TiesKeepOrder(t: Tables, arrivals: seq<Aircraft>, now: real, emergency: bool, earliest: real)
    ensures var tie := (a: Aircraft) => a.emergency == emergency && Earliest(t, a, now) == earliest;
            Keep(InOrder(t, arrivals, now), tie) == Keep(arrivals, tie)
  {
    SortStable(arrivals, (a, b) => Before(t, now, a, b),
               (a: Aircraft) => a.emergency == emergency && Earliest(t, a, now) == earliest);
  }

  method Build(t: Tables, arrivals: seq<Aircraft>, now: real) returns (slots: seq<Slot>)
    requires ValidTables(t)
    ensures slots == Layout(t, InOrder(t, arrivals, now), now, map[])
  {
    slots := LayOut(t, InOrder(t, arrivals, now), now, map[]);
  }

  /** Every arrival at its own earliest time, in the same order: the unsequenced baseline. */
  function EarliestPins(t: Tables, ordered: seq<Aircraft>, now: real): (p: Pins)
    ensures forall ac :: ac in ordered ==> ac.callsign in p
  {
    if ordered == [] then map[]
    else
      var n := |ordered| - 1;
      assert ordered == ordered[..n] + [ordered[n]];
      EarliestPins(t, ordered[..n], now)[ordered[n].callsign := Earliest(t, ordered[n], now)]
  }

  method BuildUnsequenced(t: Tables, arrivals: seq<Aircraft>, now: real) returns (slots: seq<Slot>)
    requires ValidTables(t)
    ensures var ordered := InOrder(t, arrivals, now);
            slots == Layout(t, ordered, now, EarliestPins(t, ordered, now))
  {
    var ordered := InOrder(t, arrivals, now);
    slots := LayOut(t, ordered, now, EarliestPins(t, ordered, now));
  }

  lemma {:induction false} EarliestPinsValue(t: Tables, ordered: seq<Aircraft>, now: real, i: nat)
    requires ValidTables(t) && Unique(SpacingOf(t, now), ordered) && i < |ordered|
    ensures ordered[i].callsign in EarliestPins(t, ordered, now)
    ensures EarliestPins(t, ordered, now)[ordered[i].callsign] == Earliest(t, ordered[i], now)
  {
    var n, sp := |ordered| - 1, SpacingOf(t, now);
    if i < n {
      assert ordered[..n][i] == ordered[i];
      assert sp.callsign(ordered[i]) != sp.callsign(ordered[n]);
      EarliestPinsValue(t, ordered[..n], now, i);
    }
  }

  // ---------------------------------------------------------------- separation on final

  /** The required distances of the adjacent pairs from position i to position k added up. */
  function RequiredBetween(t: Tables, ordered: seq<Aircraft>, i: nat, k: nat): real
    requires i <= k < |ordered|
    decreases k
  {
    if i == k then 0.0
    else RequiredBetween(t, ordered, i, k - 1) + RequiredNm(t, ordered[k - 1], ordered[k])
  }

  /** Distance to fly of the aircraft in slot k at instant `at`. */
  function DistanceAt(t: Tables, ordered: seq<Aircraft>, u: seq<real>, k: nat, at: real): real
    requires k < |u| == |ordered|
  {
    Remaining(u[k], t.finalGsKt(ordered[k]), at)
  }

  /** At instant `at` the aircraft in slot k is inside the join point and the one in slot i
      has not landed. */
  predicate BothOnFinal(t: Tables, ordered: seq<Aircraft>, u: seq<real>, i: nat, k: nat, at: real)
    requires i <= k < |u| == |ordered|
  {
    at <= u[i] && DistanceAt(t, ordered, u, k, at) <= t.joinNm
  }

  /** Along the whole final, any two aircraft of a schedule that meets its gaps (next to each
      other or not) are apart by at least the sum of the distances required between them. */
  lemma {:induction false} SeparatedOnFinal(t: Tables, now: real, ordered: seq<Aircraft>, u: seq<real>, i: nat, k: nat,
                                            at: real)
    requires ValidTables(t) && |u| == |ordered| && GapsMet(SpacingOf(t, now), ordered, u)
    requires i <= k < |u| && BothOnFinal(t, ordered, u, i, k, at)
    ensures DistanceAt(t, ordered, u, k, at) - DistanceAt(t, ordered, u, i, at) >= RequiredBetween(t, ordered, i, k)
    decreases k
  {
    if i == k {
    } else {
      var sp := SpacingOf(t, now);
      SpacingFacts(t, now);
      TimesIncrease(sp, ordered, u, i, k - 1);
      assert GapMet(sp, ordered, u, k - 1);
      var front, rear := ordered[k - 1], ordered[k];
      assert u[k] - u[k - 1] >= Gap(t, front, rear).seconds;
      GapKeepsDistance(u[k - 1], u[k], t.finalGsKt(front), t.finalGsKt(rear), t.joinNm, RequiredNm(t, front, rear), at);
      SeparatedOnFinal(t, now, ordered, u, i, k - 1, at);
    }
  }

  /** The guarantee for `build`: ordered by rank and earliest time, a rearrangement of the
      arrivals, every gap met, nobody before it can be there, least among all times of which this
      holds, and every pair separated along the whole final. */
  lemma BuildIsSafe(t: Tables, arrivals: seq<Aircraft>, now: real, v: seq<real>, i: nat, k: nat, at: real)
    requires ValidTables(t) && i <= k < |arrivals| == |v|
    ensures var ordered := InOrder(t, arrivals, now);
            var u := TimesOf(Layout(t, ordered, now, map[]));
            var sp := SpacingOf(t, now);
            && (i < k ==> Before(t, now, ordered[i], ordered[k]))
            && GapsMet(sp, ordered, u) && NoneEarly(sp, ordered, u) && CanLandAt(t, ordered[i], now, u[i])
            && (GapsMet(sp, ordered, v) && (forall m :: 0 <= m < |v| ==> CanLandAt(t, ordered[m], now, v[m])) ==>
               u[i] <= v[i])
            && (BothOnFinal(t, ordered, u, i, k, at) ==>
                  DistanceAt(t, ordered, u, k, at) - DistanceAt(t, ordered, u, i, at) >=
                    RequiredBetween(t, ordered, i, k))
  {
    var ordered := InOrder(t, arrivals, now);
    var u := TimesOf(Layout(t, ordered, now, map[]));
    InOrderSorted(t, arrivals, now);
    LayoutTimes(t, ordered, now, map[]);
    TimesFeasible(SpacingOf(t, now), ordered);
    LayoutIsLeast(SpacingOf(t, now), ordered, v, i);
    EarliestIff(t, ordered[i], now, u[i]);
    forall m | 0 <= m < |v| ensures Earliest(t, ordered[m], now) <= v[m] <==> CanLandAt(t, ordered[m], now, v[m]) {
      EarliestIff(t, ordered[m], now, v[m]);
    }
    if BothOnFinal(t, ordered, u, i, k, at) {
      SeparatedOnFinal(t, now, ordered, u, i, k, at);
    }
  }
}
