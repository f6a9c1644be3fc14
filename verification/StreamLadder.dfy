/** Five aircraft that close in, each a little more slowly than the one in front: a built stream the
    repair would need 31 pushes for. */
module StreamLadder {
  import opened Options
  import opened Ordering
  import opened RealFacts
  import opened Geometry
  import opened FinalApproach
  import opened SlotTimes
  import opened Sequencing
  import opened Deconfliction
  import opened FlownScan
  import opened StreamRepair
  import opened StreamCases

  const SPEED: seq<real> := [70.0, 130.0, 140.0, 145.0, 148.0, 150.0]
  const NAME: seq<string> := ["A", "B", "C", "D", "E", "F"]

  /** Everybody could land in five minutes. */
  function Member(k: nat): Aircraft
    requires k < 6
  {
    Aircraft(NAME[k], SPEED[k] / 12.0, 0.0, SPEED[k], "T", Medium, false)
  }

  const STREAM: seq<Aircraft> := [Member(0), Member(1), Member(2), Member(3), Member(4), Member(5)]

  /** Control up to the join point at 30 NM, and a shallow glide path. */
  function Wide(): (s: Scanner)
    ensures ValidScanner(s) && ControlInsideJoin(s) && RadarTriangle(s.tables) && s.tables == Plain(30.0)
  {
    Scanner(Plain(30.0), (a: Wake, b: Wake) => 0.0, (d: real) => d <= 30.0, 300.0, 1000.0, 1000.0, 600.0)
  }

  function Spaced(): Spacing<Aircraft> {
    SpacingOf(Plain(30.0), 0.0)
  }

  /** How long before the landing of the one in front an aircraft without spare is within a thousand
      feet of it. */
  const BEFORE: seq<real> := [0.0, 20.0, 120.0, 240.0, 400.0, 600.0]

  lemma StreamGap(k: nat)
    requires 0 < k < 6
    ensures Spaced().gap(STREAM[k - 1], STREAM[k]) == 10800.0 / SPEED[k] == ThresholdGap(3.0, SPEED[k])
    ensures ClosesToRadar(Plain(30.0), STREAM, k)
  {
    JoinBindsIff(3.0, 30.0, SPEED[k - 1], SPEED[k]);
  }

  lemma StreamEarliest(k: nat)
    requires k < 6
    ensures Spaced().earliest(STREAM[k]) == 300.0
  {
  }

  ghost predicate Rungs(u: seq<real>) {
    && |u| == 6 && u[0] == 300.0
    && forall k :: 0 < k < 6 ==> Step(u, k)
  }

  ghost predicate Step(u: seq<real>, k: int)
    requires |u| == 6 && 0 < k < 6
  {
    u[k] == u[k - 1] + 10800.0 / SPEED[k] || u[k] == u[k - 1] + 10800.0 / SPEED[k] * 1.05
  }

  /** The gap of everybody is met exactly or with five per cent of spare. */
  lemma RungsAre(u: seq<real>)
    requires |u| == 6 && u[0] == 300.0
    ensures Ladder(Spaced(), STREAM, u) <==> Rungs(u)
  {
    forall k: nat | 0 < k < 6 ensures Rung(Spaced(), STREAM, u, k) <==> Step(u, k) {
      RungIsStep(u, k);
    }
  }

  lemma RungIsStep(u: seq<real>, k: nat)
    requires |u| == 6 && u[0] == 300.0 && 0 < k < 6
    ensures Rung(Spaced(), STREAM, u, k) <==> Step(u, k)
  {
    StreamGap(k);
    StreamEarliest(k);
    assert 10800.0 / SPEED[k] > 0.0;
  }

  lemma RungsMet(u: seq<real>)
    requires Rungs(u)
    ensures GapsMet(Spaced(), STREAM, u)
    ensures forall k :: 0 < k < 6 ==> (HasSpare(Spaced(), STREAM, u, k) <==> u[k] != u[k - 1] + 10800.0 / SPEED[k])
  {
    forall k | 0 <= k < 5 ensures GapMet(Spaced(), STREAM, u, k) {
      StreamGap(k + 1);
      assert Step(u, k + 1);
    }
    forall k | 0 < k < 6 ensures HasSpare(Spaced(), STREAM, u, k) <==> u[k] != u[k - 1] + 10800.0 / SPEED[k] {
      StreamGap(k);
      assert Step(u, k);
    }
  }

  /** Where everybody is, roughly. */
  lemma RungTimes(u: seq<real>)
    requires Rungs(u)
    ensures 383.0 < u[1] < 387.3 && 460.2 < u[2] < 468.3 && 534.6 < u[3] < 546.5 && 607.6 < u[4] < 623.2 &&
            679.6 < u[5] < 698.8
    ensures u[1] - u[0] < 87.3 && u[2] - u[1] < 81.1 && u[3] - u[2] < 78.3 && u[4] - u[3] < 76.7
  {
    assert Step(u, 1) && Step(u, 2) && Step(u, 3) && Step(u, 4) && Step(u, 5);
  }

  // ---------------------------------------------------------------- when a pair is found

  /** The distance between neighbours without spare, x before the landing of the one in front. */
  lemma LadderTrail(u: seq<real>, k: nat, x: real)
    requires Rungs(u) && 0 < k < 6 && u[k] == u[k - 1] + 10800.0 / SPEED[k]
    ensures Trail(u[k - 1], SPEED[k - 1], u[k], SPEED[k], u[k - 1] - x) == 3.0 + (SPEED[k] - SPEED[k - 1]) / 3600.0 * x
  {
    var v := SPEED[k];
    assert 10800.0 / v * v == 10800.0;
    assert (u[k] - (u[k - 1] - x)) * v == 10800.0 + x * v;
  }

  /** A thousand feet on this glide path are ten thirds of a mile. */
  lemma WithinHeight(k: nat, x: real)
    requires 0 < k < 6
    ensures (3.0 + (SPEED[k] - SPEED[k - 1]) / 3600.0 * x) * 300.0 < 1000.0 <==> x < BEFORE[k]
  {
    assert k == 1 || k == 2 || k == 3 || k == 4 || k == 5;
  }

  /** Only neighbours without spare are found, and not before they are within a thousand feet. */
  lemma FoundMeans(u: seq<real>, at: real, i: nat, j: nat, f: Found)
    requires Rungs(u) && FoundPair(TestsAt(Wide(), STREAM, u, at), 6, i, j, f)
    ensures j == i + 1 && j < 6 && !HasSpare(Spaced(), STREAM, u, j) && at > u[i] - BEFORE[j]
  {
    var s := Wide();
    RungsMet(u);
    MetReport(s, 0.0, STREAM, u, at, i, j, f);
    PairMeans(s, STREAM, u, at, i, j, f);
    MetIsApart(s, 0.0, STREAM, u, at, i, j);
    MetWake(s, 0.0, STREAM, u, at, i);
    NotBefore(u, at, j);
  }

  lemma NotBefore(u: seq<real>, at: real, k: nat)
    requires Rungs(u) && 0 < k < 6 && u[k] == u[k - 1] + 10800.0 / SPEED[k]
    requires RadarFound(Wide(), STREAM, u, k - 1, k, at).Some?
    ensures at > u[k - 1] - BEFORE[k]
  {
    var x := u[k - 1] - at;
    LadderTrail(u, k, x);
    LowEnough(u, at, k);
    WithinHeight(k, x);
  }

  lemma LowEnough(u: seq<real>, at: real, k: nat)
    requires |u| == 6 && 0 < k < 6 && RadarFound(Wide(), STREAM, u, k - 1, k, at).Some?
    ensures Trail(u[k - 1], SPEED[k - 1], u[k], SPEED[k], at) * 300.0 < 1000.0
  {
    var s := Wide();
    var da, db := DistanceAt(s.tables, STREAM, u, k - 1, at), DistanceAt(s.tables, STREAM, u, k, at);
    LineReport(da, db, SPEED[k - 1], SPEED[k], 300.0, 3.0, 1000.0, HorizonOf(s, da, db, SPEED[k - 1], SPEED[k]));
  }

  /** And from then on they are found until the one in front lands. */
  lemma FoundThen(u: seq<real>, at: real, k: nat)
    requires Rungs(u) && 0 < k < 6 && !HasSpare(Spaced(), STREAM, u, k) && 0.0 <= at &&
             u[k - 1] - BEFORE[k] < at < u[k - 1]
    ensures Findings(TestsAt(Wide(), STREAM, u, at), 6) != []
  {
    var s := Wide();
    RungsMet(u);
    BothControlled(u, at, k);
    LadderWindow(u, at, k);
    var f := RadarFound(s, STREAM, u, k - 1, k, at).value;
    PairIsListed(TestsAt(s, STREAM, u, at), 6, k - 1, k, f);
  }

  lemma BothControlled(u: seq<real>, at: real, k: nat)
    requires Rungs(u) && 0 < k < 6 && 0.0 <= at < u[k - 1]
    ensures Scanned(Wide(), STREAM, u, k - 1, at) && Scanned(Wide(), STREAM, u, k, at)
  {
    RungTimes(u);
    InReach(u, at, k - 1);
    InReach(u, at, k);
    assert Step(u, k);
  }

  lemma InReach(u: seq<real>, at: real, k: nat)
    requires Rungs(u) && k < 6 && 0.0 <= at < u[k]
    ensures 0.0 < DistanceAt(Plain(30.0), STREAM, u, k, at) <= 30.0
  {
    RungTimes(u);
    TimeToLand(u[k], SPEED[k], at);
    MulMonotone(u[k] - at, 698.8, SPEED[k]);
    assert SPEED[k] <= 150.0;
  }

  lemma LadderWindow(u: seq<real>, at: real, k: nat)
    requires Rungs(u) && 0 < k < 6 && u[k] == u[k - 1] + 10800.0 / SPEED[k] && u[k - 1] - BEFORE[k] < at < u[k - 1]
    ensures RadarFound(Wide(), STREAM, u, k - 1, k, at).Some?
  {
    var s := Wide();
    var x := u[k - 1] - at;
    var da, db := DistanceAt(s.tables, STREAM, u, k - 1, at), DistanceAt(s.tables, STREAM, u, k, at);
    LadderTrail(u, k, x);
    LadderHorizon(u, at, k);
    LadderLine(k, da, db, x);
  }

  /** The look-ahead ends when the front aircraft lands. */
  lemma LadderHorizon(u: seq<real>, at: real, k: nat)
    requires Rungs(u) && 0 < k < 6 && u[k - 1] - BEFORE[k] < at < u[k - 1]
    ensures HorizonOf(Wide(), Remaining(u[k - 1], SPEED[k - 1], at), Remaining(u[k], SPEED[k], at), SPEED[k - 1],
            SPEED[k])
              == u[k - 1] - at
  {
    TimeToLand(u[k - 1], SPEED[k - 1], at);
    TimeToLand(u[k], SPEED[k], at);
    assert Step(u, k);
    assert BEFORE[k] <= 600.0;
  }

  lemma LadderLine(k: nat, da: real, db: real, x: real)
    requires 0 < k < 6 && 0.0 < x < BEFORE[k] && db - da == 3.0 + (SPEED[k] - SPEED[k - 1]) / 3600.0 * x
    ensures LineWindow(da, db, SPEED[k - 1], SPEED[k], 300.0, 3.0, 1000.0, x).Some?
  {
    WithinHeight(k, x);
    Closing(k, x);
    ClosesThen(db - da, SPEED[k - 1], SPEED[k], x);
    LineFound(da, db, SPEED[k - 1], SPEED[k], 300.0, 3.0, 1000.0, x);
  }

  lemma Closing(k: nat, x: real)
    requires 0 < k < 6 && x > 0.0
    ensures SPEED[k] - SPEED[k - 1] >= 2.0
    ensures (SPEED[k] - SPEED[k - 1]) / 3600.0 * ((SPEED[k] - SPEED[k - 1]) / 3600.0) >= EPS
    ensures 3.0 + (SPEED[k] - SPEED[k - 1]) / 3600.0 * x > 0.0
  {
    assert k == 1 || k == 2 || k == 3 || k == 4 || k == 5;
  }

  /** From the landing on the two would be less than three miles apart. */
  lemma ClosesThen(d: real, vFront: real, vRear: real, x: real)
    requires vRear >= vFront + 2.0 && d == 3.0 + (vRear - vFront) / 3600.0 * x
    ensures ClosesAt(d, vFront, vRear, 3.0, x)
  {
    var w := (vRear - vFront) / 3600.0;
    var e := 3.0 / w;
    assert e * w == 3.0;
    assert e > 0.0;
    forall t ensures x < t < x + e ==> CloseAfter(d, vFront, vRear, 3.0, t) {
      if x < t < x + e {
        StepInside(w, x, e, t);
      }
    }
    assert CloseFor(d, vFront, vRear, 3.0, x, e);
  }

  lemma StepInside(w: real, x: real, e: real, t: real)
    requires w > 0.0 && e * w == 3.0 && x < t < x + e
    ensures -3.0 < 3.0 + w * x - w * t < 3.0
  {
    var p := PositiveProduct(w, t - x);
    var q := PositiveProduct(w, x + e - t);
    assert p == w * t - w * x && q == w * x + w * e - w * t;
  }

  // ---------------------------------------------------------------- the last one first

  ghost predicate LastRung(u: seq<real>, k: nat) {
    Rungs(u) && LastTight(Spaced(), STREAM, u, k)
  }

  lemma WindowBefore(u: seq<real>, k: nat)
    requires Rungs(u) && 1 < k < 6
    ensures u[k - 2] - BEFORE[k - 1] >= u[k - 1] - BEFORE[k] + STEP
  {
    RungTimes(u);
    assert k == 2 || k == 3 || k == 4 || k == 5;
  }

  /** The windows open from the last aircraft to the first, more than one instant apart. */
  lemma {:induction false} WindowsOpenBackwards(u: seq<real>, j: nat, k: nat)
    requires Rungs(u) && 0 < j < k < 6
    ensures u[j - 1] - BEFORE[j] >= u[k - 1] - BEFORE[k] + STEP
    decreases k
  {
    WindowBefore(u, k);
    if j == k - 1 {
    } else {
      WindowsOpenBackwards(u, j, k - 1);
    }
  }

  /** The first instant inside the window. */
  lemma WindowInstant(x: real) returns (m: nat)
    requires x >= 0.0
    ensures x < Instant(0.0, m) <= x + STEP
  {
    var q := x / STEP;
    assert q * STEP == x;
    m := q.Floor + 1;
    assert q < m as real <= q + 1.0;
  }

  /** It opens after now, well before the landing and before the scan ends. */
  lemma WindowFits(u: seq<real>, k: nat)
    requires Rungs(u) && 0 < k < 6
    ensures 0.0 <= u[k - 1] - BEFORE[k] <= Makespan(u) && u[k - 1] - BEFORE[k] + STEP < u[k - 1]
  {
    RungTimes(u);
    assert k == 1 || k == 2 || k == 3 || k == 4 || k == 5;
  }

  lemma FoundInTime(u: seq<real>, k: nat) returns (m: nat)
    requires LastRung(u, k)
    ensures Instant(0.0, m) <= u[k - 1] - BEFORE[k] + STEP && Instant(0.0, m) <= Makespan(u) + STEP
    ensures ScanAt(Wide(), STREAM, u)(Instant(0.0, m)) != []
  {
    WindowFits(u, k);
    m := WindowInstant(u[k - 1] - BEFORE[k]);
    FoundThen(u, Instant(0.0, m), k);
    SomethingScanned(Wide(), STREAM, u, Instant(0.0, m));
  }

  /** What the scan reports first is the last aircraft without spare. */
  lemma LastIsNamed(u: seq<real>, k: nat)
    requires LastRung(u, k)
    ensures var scan := FlyingScan(Wide(), STREAM, 0.0);
            scan(u) != [] &&
            scan(u)[0] == (STREAM[k - 1].callsign, STREAM[k].callsign)
  {
    var scan := ScanAt(Wide(), STREAM, u);
    var m := FoundInTime(u, k);
    NothingIff(scan, 0.0, Makespan(u) + STEP);
    var n := FoundSometime(scan, 0.0, Makespan(u) + STEP);
    InstantsInOrder(m, n);
    FirstIsLast(u, k, Instant(0.0, n), Violations(Wide(), STREAM, 0.0, u)[0]);
  }

  lemma InstantsInOrder(m: nat, n: nat)
    ensures m < n || Instant(0.0, n) <= Instant(0.0, m)
  {
  }

  lemma FirstIsLast(u: seq<real>, k: nat, at: real, f: Found)
    requires LastRung(u, k) && at <= u[k - 1] - BEFORE[k] + STEP
    requires ScanAt(Wide(), STREAM, u)(at) != [] && f == ScanAt(Wide(), STREAM, u)(at)[0]
    ensures f.first == STREAM[k - 1].callsign && f.second == STREAM[k].callsign
  {
    var t := TestsAt(Wide(), STREAM, u, at);
    SortHead(Findings(t, 6), URGENT);
    var i, j := FoundIn(t, 6, f);
    FoundMeans(u, at, i, j, f);
    PairMeans(Wide(), STREAM, u, at, i, j, f);
    if j < k {
      WindowsOpenBackwards(u, j, k);
    }
  }

  // ---------------------------------------------------------------- counting down

  lemma StreamNames()
    ensures Unique(Spaced(), STREAM)
  {
    forall i, j | 0 <= i < j < 6 ensures Spaced().callsign(STREAM[i]) != Spaced().callsign(STREAM[j]) {
      assert NAME[i][0] != NAME[j][0];
    }
  }

  lemma StreamInOrder()
    ensures InOrder(Plain(30.0), STREAM, 0.0) == STREAM
  {
    forall i: nat, j: nat | i < j < 6 ensures Before(Plain(30.0), 0.0, STREAM[i], STREAM[j]) {
      StreamBefore(i, j);
    }
    AlreadyInOrder(Plain(30.0), STREAM, 0.0);
  }

  lemma StreamBefore(i: nat, j: nat)
    requires i < 6 && j < 6
    ensures Before(Plain(30.0), 0.0, STREAM[i], STREAM[j])
  {
    StreamEarliest(i);
    StreamEarliest(j);
    assert !STREAM[i].emergency && !STREAM[j].emergency;
  }

  lemma LadderNamesLast(u: seq<real>)
    requires Rungs(u)
    ensures NamesLast(Spaced(), STREAM, FlyingScan(Wide(), STREAM, 0.0), u)
  {
    StreamNames();
    forall k | LastTight(Spaced(), STREAM, u, k)
      ensures var scan := FlyingScan(Wide(), STREAM, 0.0);
              scan(u) != [] &&
              LaterIndex(Spaced(), STREAM, scan(u)[0]) == Some(k)
    {
      LastIsNamed(u, k);
      LaterIs(Spaced(), STREAM, k - 1, k);
    }
  }

  /** The schedule `build` makes. */
  function Built(): (u: seq<real>)
    ensures |u| == 6
  {
    Times(Spaced(), STREAM, map[])
  }

  lemma {:induction false} BuiltStep(k: nat)
    requires 0 < k < 6
    ensures Built()[0] == 300.0 && Built()[k - 1] >= 300.0 && Built()[k] == Built()[k - 1] + 10800.0 / SPEED[k]
  {
    StreamGap(k);
    StreamEarliest(0);
    StreamEarliest(k);
    assert 10800.0 / SPEED[k] > 0.0;
    if k > 1 {
      BuiltStep(k - 1);
      assert 10800.0 / SPEED[k - 1] > 0.0;
    }
  }

  lemma BuiltIsTight()
    ensures Rungs(Built()) && Weight(Spaced(), STREAM, Built(), EVERY, 1) == 31
  {
    BuiltStep(1);
    forall k: nat | 0 < k < 6 ensures Built()[k] == Built()[k - 1] + 10800.0 / SPEED[k] && Step(Built(), k) {
      BuiltStep(k);
    }
    RungsMet(Built());
    FullWeight(Spaced(), STREAM, Built(), EVERY, 1);
    EveryCount(1, 6);
    assert Power(5) == 32;
  }

  /** The bound is sharp. Control is inside the join point and the schedule is the one `build` makes,
      but with five aircraft that close in to the radar minimum 20 rounds do not do, nor 31. */
  lemma FiveAreTooMany(maxRounds: nat)
    requires maxRounds <= 31
    ensures ControlInsideJoin(Wide()) && RadarTriangle(Plain(30.0)) && Unique(Spaced(), STREAM)
    ensures InOrder(Plain(30.0), STREAM, 0.0) == STREAM && TimesOf(Layout(Plain(30.0), STREAM, 0.0, map[])) == Built()
    ensures forall k: nat :: 0 < k < 6 ==> ClosesToRadar(Plain(30.0), STREAM, k)
    ensures Repair(Spaced(), STREAM, FlyingScan(Wide(), STREAM, 0.0), Built(), 1, maxRounds).GivenUp?
  {
    StreamNames();
    StreamInOrder();
    LayoutTimes(Plain(30.0), STREAM, 0.0, map[]);
    forall k: nat | 0 < k < 6 ensures ClosesToRadar(Plain(30.0), STREAM, k) {
      StreamGap(k);
    }
    BuiltIsTight();
    BuiltGivesUp(maxRounds);
  }

  lemma BuiltGivesUp(maxRounds: nat)
    requires maxRounds <= 31 && Unique(Spaced(), STREAM)
    requires Rungs(Built()) && Weight(Spaced(), STREAM, Built(), EVERY, 1) == 31
    ensures Repair(Spaced(), STREAM, FlyingScan(Wide(), STREAM, 0.0), Built(), 1, maxRounds).GivenUp?
  {
    RungsAre(Built());
    var scan := FlyingScan(Wide(), STREAM, 0.0);
    forall w: seq<real> | |w| == |STREAM| && Ladder(Spaced(), STREAM, w) && w[0] == 300.0
      ensures NamesLast(Spaced(), STREAM, scan, w)
    {
      RungsAre(w);
      LadderNamesLast(w);
    }
    LadderGivesUp(Spaced(), STREAM, scan, Built(), EVERY, 300.0, 1, maxRounds);
  }
}
