/** Schedules flown one by one: where the slot repair gives up, and what the scan does not see. */
module StreamCases {
  import opened Options
  import opened Ordering
  import opened RealFacts
  import opened FinalApproach
  import opened SlotTimes
  import opened Sequencing
  import opened Deconfliction
  import opened FlownScan
  import opened StreamRepair

  /** Three miles of radar separation, no wake minima, a minute of runway time. */
  function Plain(joinNm: real): (t: Tables)
    requires joinNm > 0.0
    ensures ValidTables(t)
  {
    Tables((a: Aircraft, b: Aircraft) => 3.0, (a: Wake, b: Wake) => 0.0,
           (a: Aircraft) => if a.gsKt > 0.0 then a.gsKt else 1.0, (a: Aircraft) => 50.0, 10.0, joinNm, [3000], 5.0)
  }

  /** Control reaches 10 NM up a glide path of three degrees. */
  function TenMiles(joinNm: real): (s: Scanner)
    requires joinNm > 0.0
    ensures ValidScanner(s) && s.tables == Plain(joinNm) && RadarTriangle(s.tables)
  {
    Scanner(Plain(joinNm), (a: Wake, b: Wake) => 0.0, (d: real) => d <= 10.0, 318.4, 1000.0, 1000.0, 600.0)
  }

  // ---------------------------------------------------------------- control beyond the join point

  const FAST := Aircraft("A", 8.4, 3.4, 160.0, "F15K", Medium, false)
  const SLOW := Aircraft("B", 9.8, 4.8, 120.0, "CN35", Medium, false)

  lemma FastAndSlow()
    ensures var t := Plain(5.0);
            && Gap(t, FAST, SLOW).seconds == 105.0 && Earliest(t, FAST, 0.0) == 189.0 && Earliest(t, SLOW, 0.0) == 294.0
  {
    assert ThresholdGap(3.0, 120.0) == 90.0;
    assert JoinGap(3.0, 5.0, 160.0, 120.0) == 105.0;
  }

  lemma TwoNames<A>(sp: Spacing<A>, a: A, b: A)
    requires sp.callsign(a) != sp.callsign(b)
    ensures Unique(sp, [a, b])
  {
  }

  lemma FastFirst()
    ensures Unique(SpacingOf(Plain(5.0), 0.0), [FAST, SLOW]) && InOrder(Plain(5.0), [FAST, SLOW], 0.0) == [FAST, SLOW]
  {
    FastAndSlow();
    assert "A"[0] != "B"[0];
    TwoNames(SpacingOf(Plain(5.0), 0.0), FAST, SLOW);
    AlreadyInOrder(Plain(5.0), [FAST, SLOW], 0.0);
  }

  lemma BuiltBehindFast()
    ensures var t := Plain(5.0);
            && TimesOf(Layout(t, [FAST, SLOW], 0.0, map[])) == [189.0, 294.0]
            && Push(SpacingOf(t, 0.0), [FAST, SLOW], [189.0, 294.0], 1) == [189.0, 299.25]
  {
    var t := Plain(5.0);
    var sp := SpacingOf(t, 0.0);
    FastAndSlow();
    FastFirst();
    LayoutTimes(t, [FAST, SLOW], 0.0, map[]);
    assert TimeAt(sp, [FAST, SLOW], map[], 0) == 189.0;
    PushAt(sp, [FAST, SLOW], [189.0, 294.0], 1, 0);
    PushAt(sp, [FAST, SLOW], [189.0, 294.0], 1, 1);
  }

  lemma AlreadyInOrder(t: Tables, order: seq<Aircraft>, now: real)
    requires forall i: nat, j: nat :: i < j < |order| ==> Before(t, now, order[i], order[j])
    ensures InOrder(t, order, now) == order
  {
    SortOfSorted(order, (a, b) => Before(t, now, a, b));
  }

  /** Two aircraft that are too close and under control now are reported. */
  lemma CloseIsReported(s: Scanner, order: seq<Aircraft>, now: real, u: seq<real>, i: nat, j: nat)
    requires ValidScanner(s) && |u| == |order| && i < j < |u| && Makespan(u) >= -STEP
    requires Scanned(s, order, u, i, now) && Scanned(s, order, u, j, now)
    requires var d := DistanceAt(s.tables, order, u, j, now) - DistanceAt(s.tables, order, u, i, now);
             && -s.tables.radarNm(order[i], order[j]) < d < s.tables.radarNm(order[i], order[j])
             && -s.verticalFt < d * s.glideFtPerNm < s.verticalFt
    ensures Violations(s, order, now, u) != []
    ensures Violations(s, order, now, u)[0] in Findings(TestsAt(s, order, u, now), |u|)
  {
    var t := s.tables;
    var da, db := DistanceAt(t, order, u, i, now), DistanceAt(t, order, u, j, now);
    var va, vb := t.finalGsKt(order[i]), t.finalGsKt(order[j]);
    CloseNow(da, db, va, vb, s.glideFtPerNm, t.radarNm(order[i], order[j]), s.verticalFt, HorizonOf(s, da, db, va, vb));
    var f := RadarFound(s, order, u, i, j, now).value;
    PairIsListed(TestsAt(s, order, u, now), |u|, i, j, f);
    ScanAtIs(s, order, u, now);
    FoundAtOnce(ScanAt(s, order, u), Findings(TestsAt(s, order, u, now), |u|), now, u);
  }

  lemma StillClose(u1: real)
    requires 294.0 <= u1 <= 300.0
    ensures Violations(TenMiles(5.0), [FAST, SLOW], 0.0, [189.0, u1]) != []
  {
    var s, order, u := TenMiles(5.0), [FAST, SLOW], [189.0, u1];
    assert DistanceAt(s.tables, order, u, 0, 0.0) == 8.4;
    assert DistanceAt(s.tables, order, u, 1, 0.0) == u1 / 30.0;
    CloseIsReported(s, order, 0.0, u, 0, 1);
  }

  /** Control reaches beyond the join point. The gap is computed for the final from the join point on;
      further out the slower aircraft is closer to the faster one in front, and the scan reports the
      pair that the sequencer has just built. Every push sets the same time, five per cent more than
      the gap: the repair gives up after any number of rounds. */
  lemma BeyondTheJoinPoint(maxRounds: nat)
    requires maxRounds >= 2
    ensures var s := TenMiles(5.0);
            var order := InOrder(s.tables, [FAST, SLOW], 0.0);
            Repair(SpacingOf(s.tables, 0.0), order, FlyingScan(s, order, 0.0),
                TimesOf(Layout(s.tables, order, 0.0, map[])), 1, maxRounds)
              == GivenUp([189.0, 299.25], maxRounds)
  {
    FastFirst();
    BuiltBehindFast();
    StillClose(294.0);
    StillClose(299.25);
    TwoAircraftIff(TenMiles(5.0), 0.0, [FAST, SLOW], [189.0, 294.0], maxRounds);
  }

  // ---------------------------------------------------------------- overtaking on final

  const JET := Aircraft("A", 8.0, 0.0, 160.0, "F15K", Medium, false)
  const SLOW1 := Aircraft("B", 4.2, 0.0, 80.0, "HH60", Medium, false)
  const SLOW2 := Aircraft("C", 7.35, 0.0, 80.0, "HH60", Medium, false)
  const OVERTAKEN := [JET, SLOW1, SLOW2]
  const LANDINGS := [180.0, 189.0, 330.75]

  lemma OvertakenTimes()
    ensures var t := Plain(15.0);
            && Gap(t, SLOW1, SLOW2).seconds == 135.0
            && Earliest(t, JET, 0.0) == 180.0 && Earliest(t, SLOW1, 0.0) == 189.0 && Earliest(t, SLOW2, 0.0) == 330.75
  {
    assert ThresholdGap(3.0, 80.0) == 135.0;
    assert JoinGap(3.0, 15.0, 80.0, 80.0) == 135.0;
  }

  lemma OvertakenNames()
    ensures Unique(SpacingOf(Plain(15.0), 0.0), OVERTAKEN)
  {
    var sp := SpacingOf(Plain(15.0), 0.0);
    assert "A"[0] != "B"[0] && "A"[0] != "C"[0] && "B"[0] != "C"[0];
    assert sp.callsign(JET) == "A" && sp.callsign(SLOW1) == "B" && sp.callsign(SLOW2) == "C";
  }

  /** The push of the last aircraft asks for the time it already has. */
  lemma PushIsNoPush()
    ensures Push(SpacingOf(Plain(15.0), 0.0), OVERTAKEN, LANDINGS, 2) == LANDINGS
  {
    var sp := SpacingOf(Plain(15.0), 0.0);
    OvertakenTimes();
    OvertakenNames();
    PushAt(sp, OVERTAKEN, LANDINGS, 2, 0);
    PushAt(sp, OVERTAKEN, LANDINGS, 2, 1);
    PushAt(sp, OVERTAKEN, LANDINGS, 2, 2);
  }

  lemma OvertakenNow()
    ensures var t := Plain(15.0);
            && DistanceAt(t, OVERTAKEN, LANDINGS, 0, 0.0) == 8.0
            && DistanceAt(t, OVERTAKEN, LANDINGS, 1, 0.0) == 4.2
            && DistanceAt(t, OVERTAKEN, LANDINGS, 2, 0.0) == 7.35
  {
  }

  /** A thousand feet of height, or the same speed and enough distance, is no finding. */
  lemma NoWindow(dFront: real, dRear: real, vFront: real, vRear: real, glide: real, h: real, vMin: real, horizon: real)
    requires h >= 0.0 && vMin >= 0.0 && horizon >= 0.0
    requires (dRear - dFront) * glide <= -vMin || (vFront == vRear && dRear - dFront >= h)
    ensures LineWindow(dFront, dRear, vFront, vRear, glide, h, vMin, horizon) == None
  {
    if LineWindow(dFront, dRear, vFront, vRear, glide, h, vMin, horizon).Some? {
      LineReport(dFront, dRear, vFront, vRear, glide, h, vMin, horizon);
      SameSpeed(dRear - dFront, vFront, vRear, h, horizon);
    }
  }

  lemma SameSpeed(d: real, vFront: real, vRear: real, h: real, horizon: real)
    requires vFront == vRear && d >= h
    ensures !CloseWithin(d, vFront, vRear, h, horizon) && !ClosesAt(d, vFront, vRear, h, horizon)
  {
    forall e: real | e > 0.0 ensures !CloseFor(d, vFront, vRear, h, horizon, e) {
      assert !CloseAfter(d, vFront, vRear, h, horizon + e / 2.0);
    }
  }

  lemma NeighboursQuiet(i: nat)
    requires i < 2
    ensures var t := TestsAt(TenMiles(15.0), OVERTAKEN, LANDINGS, 0.0); t.radar(i, i + 1) == None && t.wake(i) == None
  {
    var s := TenMiles(15.0);
    OvertakenNow();
    if i == 0 {
      NoWindow(8.0, 4.2, 160.0, 80.0, 318.4, 3.0, 1000.0, HorizonOf(s, 8.0, 4.2, 160.0, 80.0));
    } else {
      NoWindow(4.2, 7.35, 80.0, 80.0, 318.4, 3.0, 1000.0, HorizonOf(s, 4.2, 7.35, 80.0, 80.0));
    }
  }

  /** Of three aircraft with nothing between neighbours only the first and the last can be found. */
  lemma OnlyFirstAndLast(t: Tests, i: nat, j: nat, f: Found)
    requires FoundPair(t, 3, i, j, f)
    requires t.radar(0, 1) == None && t.radar(1, 2) == None && t.wake(0) == None && t.wake(1) == None
    ensures i == 0 && j == 2
  {
  }

  /** Overtaking on final. Control stays inside the join point, but the jet that lands first has both
      slower aircraft ahead of it or beside it. It is in conflict with the last of them, whose own gap
      is met: the last one is pushed to the time it already has, round after round. */
  lemma OvertakingGivesUp(maxRounds: nat)
    ensures var s := TenMiles(15.0);
            && ControlInsideJoin(s) && NoneEarly(SpacingOf(s.tables, 0.0), OVERTAKEN, LANDINGS)
            && !KeepsOrder(s.tables, OVERTAKEN, LANDINGS)
            && Repair(SpacingOf(s.tables, 0.0), OVERTAKEN, FlyingScan(s, OVERTAKEN, 0.0), LANDINGS, 1, maxRounds)
                 == GivenUp(LANDINGS, maxRounds)
  {
    var s := TenMiles(15.0);
    var sp := SpacingOf(s.tables, 0.0);
    OvertakenTimes();
    OvertakenNames();
    OvertakenNow();
    NotInOrder();
    FirstAndLastNamed();
    PushIsNoPush();
    LaterIs(sp, OVERTAKEN, 0, 2);
    Stuck(sp, OVERTAKEN, FlyingScan(s, OVERTAKEN, 0.0), LANDINGS, 2, 1, maxRounds);
  }

  lemma NotInOrder()
    ensures !KeepsOrder(Plain(15.0), OVERTAKEN, LANDINGS)
  {
    DistanceGapScaled(0.0, 15.0, 160.0, 80.0, 9.0);
    assert LANDINGS[1] - LANDINGS[0] == 9.0;
  }

  lemma FirstAndLastNamed()
    ensures var scan := FlyingScan(TenMiles(15.0), OVERTAKEN, 0.0);
            scan(LANDINGS) != [] &&
            scan(LANDINGS)[0] == ("A", "C")
  {
    var s := TenMiles(15.0);
    OvertakenNow();
    CloseIsReported(s, OVERTAKEN, 0.0, LANDINGS, 0, 2);
    FirstAndLastFound(Violations(s, OVERTAKEN, 0.0, LANDINGS)[0]);
  }

  lemma FirstAndLastFound(f: Found)
    requires f in Findings(TestsAt(TenMiles(15.0), OVERTAKEN, LANDINGS, 0.0), 3)
    ensures f.first == "A" && f.second == "C"
  {
    var t := TestsAt(TenMiles(15.0), OVERTAKEN, LANDINGS, 0.0);
    NeighboursQuiet(0);
    NeighboursQuiet(1);
    var i, j := FoundIn(t, 3, f);
    OnlyFirstAndLast(t, i, j, f);
    PairMeans(TenMiles(15.0), OVERTAKEN, LANDINGS, 0.0, i, j, f);
  }

  // ---------------------------------------------------------------- where the scan stops

  /** Instants up to the end are those before the count. */
  lemma InstantsCounted(now: real, end: real, m: nat)
    ensures Instant(now, m) <= end <==> m < InstantsLeft(now, end)
  {
    if now <= end {
      var q := (end - now) / STEP;
      assert q * STEP == end - now;
      assert m as real <= q <==> m <= q.Floor;
      assert Instant(now, m) <= end <==> m as real <= q;
    }
  }

  ghost predicate LooksUntil(now: real, end: real, landing: real) {
    forall m: nat :: Instant(now, m) < landing ==> Instant(now, m) <= end
  }

  /** The scan runs for the makespan, the time between the first and the last landing, and not until
      the last landing. It looks at every instant before that if and only if the first instant it
      leaves out is no earlier. */
  lemma LooksUntilLastIff(now: real, u: seq<real>)
    requires u != []
    ensures var end := now + Makespan(u) + STEP;
            LooksUntil(now, end, u[|u| - 1]) <==> Instant(now, InstantsLeft(now, end)) >= u[|u| - 1]
  {
    var end, last := now + Makespan(u) + STEP, u[|u| - 1];
    var n := InstantsLeft(now, end);
    InstantsCounted(now, end, n);
    forall m: nat ensures Instant(now, m) <= end <==> m < n {
      InstantsCounted(now, end, m);
    }
    forall m: nat | m >= n ensures Instant(now, m) >= Instant(now, n) {
      assert (m as real) >= (n as real);
    }
  }

  /** Then a clean scan means that no instant at all has a finding. */
  lemma CleanThroughout(s: Scanner, order: seq<Aircraft>, now: real, u: seq<real>)
    requires ValidTables(s.tables) && |u| == |order| > 0 && forall k :: 0 <= k < |u| ==> u[k] <= u[|u| - 1]
    requires LooksUntil(now, now + Makespan(u) + STEP, u[|u| - 1])
    ensures Violations(s, order, now, u) == [] <==> forall m: nat :: ScanAt(s, order, u)(Instant(now, m)) == []
  {
    var scan, end := ScanAt(s, order, u), now + Makespan(u) + STEP;
    NothingIff(scan, now, end);
    forall m: nat | Instant(now, m) > end ensures scan(Instant(now, m)) == [] {
      NobodyFlies(s, order, u, Instant(now, m));
    }
  }

  lemma NobodyFlies(s: Scanner, order: seq<Aircraft>, u: seq<real>, at: real)
    requires ValidTables(s.tables) && |u| == |order| && forall k :: 0 <= k < |u| ==>
             !Scanned(s, order, u, k, at) || u[k] <= at
    ensures ScanAt(s, order, u)(at) == []
  {
    var t := TestsAt(s, order, u, at);
    if Findings(t, |u|) != [] {
      var i, j := FoundIn(t, |u|, Findings(t, |u|)[0]);
      PairMeans(s, order, u, at, i, j, Findings(t, |u|)[0]);
      TimeToLand(u[i], s.tables.finalGsKt(order[i]), at);
    }
  }

  const FIRST := Aircraft("A", 44.0, 39.0, 160.0, "F15K", Medium, false)
  const SECOND := Aircraft("B", 44.0, 39.0, 160.0, "F15K", Medium, false)

  const TOGETHER := [FIRST, SECOND]
  const SAME_SECOND := [1000.0, 1000.0]

  /** Two aircraft that land in the same second, a quarter of an hour from now: the scan looks at the
      next ten seconds, finds nobody under control and passes the schedule, which puts both at the
      same point of the final. */
  lemma ScanStopsEarly(maxRounds: nat)
    requires maxRounds >= 1
    ensures var s := TenMiles(15.0);
            && Repair(SpacingOf(s.tables, 0.0), TOGETHER, FlyingScan(s, TOGETHER, 0.0), SAME_SECOND, 1, maxRounds)
                 == Solved(SAME_SECOND, 0)
            && DistanceAt(s.tables, TOGETHER, SAME_SECOND, 0, 900.0) ==
               DistanceAt(s.tables, TOGETHER, SAME_SECOND, 1, 900.0) < 10.0
            && ScanAt(s, TOGETHER, SAME_SECOND)(900.0) != []
  {
    NothingSeen();
    SamePlaceLater();
  }

  lemma SamePlaceLater()
    ensures var s := TenMiles(15.0);
            && DistanceAt(s.tables, TOGETHER, SAME_SECOND, 0, 900.0) ==
               DistanceAt(s.tables, TOGETHER, SAME_SECOND, 1, 900.0) < 10.0
            && ScanAt(s, TOGETHER, SAME_SECOND)(900.0) != []
  {
    var s := TenMiles(15.0);
    CloseIsReported(s, TOGETHER, 900.0, SAME_SECOND, 0, 1);
    SortHead(Findings(TestsAt(s, TOGETHER, SAME_SECOND, 900.0), 2), URGENT);
  }

  lemma NothingSeen()
    ensures Violations(TenMiles(15.0), TOGETHER, 0.0, SAME_SECOND) == []
  {
    var scan := ScanAt(TenMiles(15.0), TOGETHER, SAME_SECOND);
    NothingIff(scan, 0.0, 10.0);
    forall m: nat | Instant(0.0, m) <= 10.0 ensures scan(Instant(0.0, m)) == [] {
      StillFar(Instant(0.0, m));
    }
  }

  lemma StillFar(at: real)
    requires at <= 10.0
    ensures ScanAt(TenMiles(15.0), TOGETHER, SAME_SECOND)(at) == []
  {
    var s := TenMiles(15.0);
    assert DistanceAt(s.tables, TOGETHER, SAME_SECOND, 0, at) == (1000.0 - at) * 160.0 / 3600.0;
    NobodyFlies(s, TOGETHER, SAME_SECOND, at);
  }
}
