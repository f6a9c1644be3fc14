/** Flying a schedule: everybody on the final at the distance the own landing time leaves to fly,
    and every violation found on the way, instant by instant. */
module FlownScan {
  import opened Options
  import opened Ordering
  import opened RealFacts
  import opened Geometry
  import opened FinalApproach
  import opened SlotTimes
  import opened Sequencing

  /** What the detector knows: the tables of the sequencer, the wake minimum that applies to
      landing alone, where on the glide path an aircraft is under control, the slope of the path,
      and the limits of the tests. */
  datatype Scanner = Scanner(
    tables: Tables,
    landingWakeNm: (Wake, Wake) -> real,
    controlled: real -> bool,
    glideFtPerNm: real,
    verticalFt: real,
    belowGateFt: real,
    lookahead: real)

  ghost predicate ValidScanner(s: Scanner) {
    && ValidTables(s.tables) && s.verticalFt > 0.0 && s.lookahead >= 0.0
    && forall a: Wake, b: Wake :: s.landingWakeNm(a, b) <= s.tables.wakeNm(a, b)
  }

  const STEP := 10.0
  const WAKE_EPS := 0.0001

  /** A violation of the pair, with the key the findings are sorted by. */
  datatype Found = Found(first: string, second: string, active: bool, wait: real)

  // ---------------------------------------------------------------- two aircraft on one line

  /** The rear aircraft as seen from the front one, both on the centreline and on the glide path,
      in level flight. */
  function LineState(dFront: real, dRear: real, vFront: real, vRear: real, glide: real): RelativeState {
    RelativeState(dFront - dRear, 0.0, (dRear - dFront) * glide, vRear - vFront, 0.0, 0.0)
  }

  /** On a line the discriminant is a square. */
  function LineRoot(vFront: real, vRear: real, h: real): real {
    2.0 * ((if vRear >= vFront then vRear - vFront else vFront - vRear) / 3600.0) * h
  }

  lemma LineRootIsRoot(dFront: real, dRear: real, vFront: real, vRear: real, glide: real, h: real)
    requires h >= 0.0
    ensures IsRoot(LineState(dFront, dRear, vFront, vRear, glide), h, LineRoot(vFront, vRear, h))
  {
    var rel := LineState(dFront, dRear, vFront, vRear, glide);
    var e, w, r := dFront - dRear, (vRear - vFront) / 3600.0, LineRoot(vFront, vRear, h);
    assert SpeedSquared(rel) == w * w && Linear(rel) == 2.0 * (e * w) && Constant(rel, h) == e * e - h * h;
    SquareOfRoot(e, w, h);
    var m := if vRear >= vFront then w else -w;
    assert r == 2.0 * m * h && m * m == w * w && m >= 0.0;
    ProductSign(m, h);
    assert (m * h) * (m * h) == m * m * (h * h);
  }

  lemma SquareOfRoot(e: real, w: real, h: real)
    ensures 2.0 * (e * w) * (2.0 * (e * w)) - 4.0 * (w * w) * (e * e - h * h) == 4.0 * (w * w * (h * h))
  {
    assert (e * w) * (e * w) == w * w * (e * e);
    assert w * w * (e * e - h * h) == w * w * (e * e) - w * w * (h * h);
  }

  function LineWindow(dFront: real, dRear: real, vFront: real, vRear: real, glide: real, h: real, vMin: real,
                      horizon: real)
    : Option<ConflictWindow>
  {
    DetectConflict(LineState(dFront, dRear, vFront, vRear, glide), h, vMin, horizon, LineRoot(vFront, vRear, h))
  }

  /** Less than h apart after t seconds. */
  predicate CloseAfter(d: real, vFront: real, vRear: real, h: real, t: real) {
    -h < d - (vRear - vFront) / 3600.0 * t < h
  }

  lemma LineClose(dFront: real, dRear: real, vFront: real, vRear: real, glide: real, h: real, t: real)
    requires h >= 0.0
    ensures TooCloseHorizontally(LineState(dFront, dRear, vFront, vRear, glide), h, t) <==>
            CloseAfter(dRear - dFront, vFront, vRear, h, t)
  {
    var x := dFront - dRear + (vRear - vFront) / 3600.0 * t;
    var rel := LineState(dFront, dRear, vFront, vRear, glide);
    assert rel.north + rel.vNorthKt / 3600.0 * t == 0.0;
    assert DistanceSquared(rel, t) == x * x;
    SquareLess(x, h);
  }

  lemma LineHeight(dFront: real, dRear: real, vFront: real, vRear: real, glide: real, vMin: real, t: real)
    ensures TooCloseVertically(LineState(dFront, dRear, vFront, vRear, glide), vMin, t) <==>
            -vMin < (dRear - dFront) * glide < vMin
  {
  }

  /** A speed lost in the zero test leaves the pair where it is. */
  lemma SeenLine(dFront: real, dRear: real, vFront: real, vRear: real, glide: real)
    ensures var rel := LineState(dFront, dRear, vFront, vRear, glide);
            Seen(rel) == rel || Seen(rel) == LineState(dFront, dRear, 0.0, 0.0, glide)
  {
  }

  /** After the horizon the two are less than h apart for a while. */
  ghost predicate ClosesAt(d: real, vFront: real, vRear: real, h: real, horizon: real) {
    exists e: real :: e > 0.0 && CloseFor(d, vFront, vRear, h, horizon, e)
  }

  ghost predicate CloseFor(d: real, vFront: real, vRear: real, h: real, from: real, e: real) {
    forall t :: from < t < from + e ==> CloseAfter(d, vFront, vRear, h, t)
  }

  ghost predicate CloseWithin(d: real, vFront: real, vRear: real, h: real, horizon: real) {
    exists t :: 0.0 <= t <= horizon && CloseAfter(d, vFront, vRear, h, t)
  }

  /** What a window on the line means: less than the minimum apart within the horizon, or from its
      very end on. */
  lemma LineReport(dFront: real, dRear: real, vFront: real, vRear: real, glide: real, h: real, vMin: real,
                   horizon: real)
    requires h >= 0.0 && vMin >= 0.0 && horizon >= 0.0
    requires LineWindow(dFront, dRear, vFront, vRear, glide, h, vMin, horizon).Some?
    ensures -vMin < (dRear - dFront) * glide < vMin
    ensures CloseWithin(dRear - dFront, vFront, vRear, h, horizon) ||
            ClosesAt(dRear - dFront, vFront, vRear, h, horizon)
  {
    var rel := LineState(dFront, dRear, vFront, vRear, glide);
    LineRootIsRoot(dFront, dRear, vFront, vRear, glide, h);
    DetectIff(rel, h, vMin, horizon, LineRoot(vFront, vRear, h));
    SeenLine(dFront, dRear, vFront, vRear, glide);
    if t :| 0.0 <= t <= horizon && Violates(Seen(rel), h, vMin, t) {
      SeenViolation(dFront, dRear, vFront, vRear, glide, h, vMin, t);
      assert CloseWithin(dRear - dFront, vFront, vRear, h, horizon);
    } else {
      var e: real :| e > 0.0 && ViolatesFor(Seen(rel), h, vMin, horizon, e);
      StartOnLine(dFront, dRear, vFront, vRear, glide, h, vMin, horizon, e);
    }
  }

  lemma SeenViolation(dFront: real, dRear: real, vFront: real, vRear: real, glide: real, h: real, vMin: real, t: real)
    requires h >= 0.0 && Violates(Seen(LineState(dFront, dRear, vFront, vRear, glide)), h, vMin, t)
    ensures -vMin < (dRear - dFront) * glide < vMin
    ensures CloseAfter(dRear - dFront, vFront, vRear, h, t) || CloseAfter(dRear - dFront, vFront, vRear, h, 0.0)
  {
    SeenLine(dFront, dRear, vFront, vRear, glide);
    LineClose(dFront, dRear, vFront, vRear, glide, h, t);
    LineClose(dFront, dRear, 0.0, 0.0, glide, h, t);
    LineHeight(dFront, dRear, vFront, vRear, glide, vMin, t);
    LineHeight(dFront, dRear, 0.0, 0.0, glide, vMin, t);
    assert CloseAfter(dRear - dFront, 0.0, 0.0, h, t) ==> CloseAfter(dRear - dFront, vFront, vRear, h, 0.0);
  }

  lemma StartOnLine(dFront: real, dRear: real, vFront: real, vRear: real, glide: real, h: real, vMin: real,
                    horizon: real, e: real)
    requires h >= 0.0 && horizon >= 0.0 && e > 0.0
    requires ViolatesFor(Seen(LineState(dFront, dRear, vFront, vRear, glide)), h, vMin, horizon, e)
    ensures -vMin < (dRear - dFront) * glide < vMin
    ensures CloseWithin(dRear - dFront, vFront, vRear, h, horizon) ||
            ClosesAt(dRear - dFront, vFront, vRear, h, horizon)
  {
    var d := dRear - dFront;
    SeenViolation(dFront, dRear, vFront, vRear, glide, h, vMin, horizon + e / 2.0);
    if !CloseAfter(d, vFront, vRear, h, 0.0) {
      forall t | horizon < t < horizon + e ensures CloseAfter(d, vFront, vRear, h, t) {
        SeenViolation(dFront, dRear, vFront, vRear, glide, h, vMin, t);
      }
      assert CloseFor(d, vFront, vRear, h, horizon, e);
    }
  }

  /** Two aircraft that are too close now are reported. */
  lemma CloseNow(dFront: real, dRear: real, vFront: real, vRear: real, glide: real, h: real, vMin: real, horizon: real)
    requires h >= 0.0 && vMin >= 0.0 && horizon >= 0.0
    requires -h < dRear - dFront < h && -vMin < (dRear - dFront) * glide < vMin
    ensures LineWindow(dFront, dRear, vFront, vRear, glide, h, vMin, horizon).Some?
  {
    var rel := LineState(dFront, dRear, vFront, vRear, glide);
    LineRootIsRoot(dFront, dRear, vFront, vRear, glide, h);
    DetectIff(rel, h, vMin, horizon, LineRoot(vFront, vRear, h));
    SeenLine(dFront, dRear, vFront, vRear, glide);
    LineClose(dFront, dRear, vFront, vRear, glide, h, 0.0);
    LineClose(dFront, dRear, 0.0, 0.0, glide, h, 0.0);
    assert Violates(Seen(rel), h, vMin, 0.0);
  }

  /** With a speed that passes the zero test, or none, the converse holds too. */
  lemma LineFound(dFront: real, dRear: real, vFront: real, vRear: real, glide: real, h: real, vMin: real, horizon: real)
    requires h >= 0.0 && vMin >= 0.0 && horizon >= 0.0 && -vMin < (dRear - dFront) * glide < vMin
    requires SpeedIsSeen(vFront, vRear)
    requires CloseWithin(dRear - dFront, vFront, vRear, h, horizon) ||
             ClosesAt(dRear - dFront, vFront, vRear, h, horizon)
    ensures LineWindow(dFront, dRear, vFront, vRear, glide, h, vMin, horizon).Some?
  {
    var rel := LineState(dFront, dRear, vFront, vRear, glide);
    LineRootIsRoot(dFront, dRear, vFront, vRear, glide, h);
    DetectIff(rel, h, vMin, horizon, LineRoot(vFront, vRear, h));
    assert Seen(rel) == rel;
    forall t ensures Violates(rel, h, vMin, t) <==> CloseAfter(dRear - dFront, vFront, vRear, h, t) {
      LineClose(dFront, dRear, vFront, vRear, glide, h, t);
      LineHeight(dFront, dRear, vFront, vRear, glide, vMin, t);
    }
    if CloseWithin(dRear - dFront, vFront, vRear, h, horizon) {
      var t :| 0.0 <= t <= horizon && CloseAfter(dRear - dFront, vFront, vRear, h, t);
      assert Violates(rel, h, vMin, t);
    } else {
      var e: real :| e > 0.0 && CloseFor(dRear - dFront, vFront, vRear, h, horizon, e);
      assert ViolatesFor(rel, h, vMin, horizon, e);
      assert StartsAt(rel, h, vMin, horizon);
    }
  }

  /** A speed the zero test lets pass, or none. */
  predicate SpeedIsSeen(vFront: real, vRear: real) {
    vRear == vFront || (vRear - vFront) / 3600.0 * ((vRear - vFront) / 3600.0) >= 0.000000000001
  }

  /** The window is exactly when the two are too close, and it is not over yet. */
  lemma LineExact(dFront: real, dRear: real, vFront: real, vRear: real, glide: real, h: real, vMin: real, horizon: real,
                  t: real)
    requires h >= 0.0 && vMin >= 0.0 && SpeedIsSeen(vFront, vRear)
    requires LineWindow(dFront, dRear, vFront, vRear, glide, h, vMin, horizon).Some?
    requires -vMin < (dRear - dFront) * glide < vMin
    ensures var w := LineWindow(dFront, dRear, vFront, vRear, glide, h, vMin, horizon).value;
            && (CloseAfter(dRear - dFront, vFront, vRear, h, t) <==> Inside(t, Interval(w.entry, w.exit)))
            && Less(At(0.0), w.exit) && Less(w.entry, w.exit)
  {
    var rel := LineState(dFront, dRear, vFront, vRear, glide);
    LineRootIsRoot(dFront, dRear, vFront, vRear, glide, h);
    DetectExact(rel, h, vMin, horizon, LineRoot(vFront, vRear, h), t);
    assert Seen(rel) == rel;
    LineClose(dFront, dRear, vFront, vRear, glide, h, t);
    LineHeight(dFront, dRear, vFront, vRear, glide, vMin, t);
  }

  /** An active violation is one that is on, or begins, at once; of any other the wait is the time
      until it begins. */
  lemma WindowUrgency(d: real, vFront: real, vRear: real, h: real, w: ConflictWindow)
    requires forall t :: CloseAfter(d, vFront, vRear, h, t) <==> Inside(t, Interval(w.entry, w.exit))
    requires Less(At(0.0), w.exit) && Less(w.entry, w.exit)
    ensures !Less(At(0.0), w.entry) <==> ClosesAt(d, vFront, vRear, h, 0.0)
    ensures !Less(At(0.0), w.entry) ==> Wait(w) == 0.0
    ensures Less(At(0.0), w.entry) ==>
              Wait(w) > 0.0 && !CloseWithin(d, vFront, vRear, h, Wait(w)) && ClosesAt(d, vFront, vRear, h, Wait(w))
  {
    var e := match w.exit case At(y) => y - Wait(w) case _ => 1.0;
    assert CloseFor(d, vFront, vRear, h, Wait(w), e);
    if Less(At(0.0), w.entry) {
      forall x: real | x > 0.0 ensures !CloseFor(d, vFront, vRear, h, 0.0, x) {
        assert !CloseAfter(d, vFront, vRear, h, Min(Wait(w), x / 2.0));
      }
    }
  }

  // ---------------------------------------------------------------- one instant

  /** The aircraft is in the air, on the final and under control. */
  predicate Scanned(s: Scanner, order: seq<Aircraft>, u: seq<real>, k: nat, at: real)
    requires k < |u| == |order|
  {
    var d := DistanceAt(s.tables, order, u, k, at);
    d > 0.0 && s.controlled(d)
  }

  /** The look-ahead, cut off at the first landing of the two. */
  function HorizonOf(s: Scanner, dFront: real, dRear: real, vFront: real, vRear: real): (h: real)
    requires vFront > 0.0 && vRear > 0.0
    ensures h >= 0.0
  {
    Max(0.0, Min(s.lookahead, Min(dFront / vFront * 3600.0, dRear / vRear * 3600.0)))
  }

  function Wait(w: ConflictWindow): real {
    match w.entry
    case At(x) => Max(0.0, x)
    case _ => 0.0
  }

  function RadarFound(s: Scanner, order: seq<Aircraft>, u: seq<real>, i: nat, j: nat, at: real): Option<Found>
    requires ValidTables(s.tables) && i < |u| == |order| && j < |u|
  {
    var t, a, b := s.tables, order[i], order[j];
    var da, db := DistanceAt(t, order, u, i, at), DistanceAt(t, order, u, j, at);
    var va, vb := t.finalGsKt(a), t.finalGsKt(b);
    match LineWindow(da, db, va, vb, s.glideFtPerNm, t.radarNm(a, b), s.verticalFt, HorizonOf(s, da, db, va, vb))
    case None => None
    case Some(w) => Some(Found(a.callsign, b.callsign, !Less(At(0.0), w.entry) && Less(At(0.0), w.exit), Wait(w)))
  }

  /** The wake minimum in trail: all of it unless the follower is well below the leader. */
  function WakeInTrail(s: Scanner, leader: Aircraft, follower: Aircraft, dLead: real, dFollow: real): real {
    if (dLead - dFollow) * s.glideFtPerNm >= s.belowGateFt then s.landingWakeNm(leader.wake, follower.wake)
    else s.tables.wakeNm(leader.wake, follower.wake)
  }

  function WakeFound(s: Scanner, order: seq<Aircraft>, u: seq<real>, k: nat, at: real): Option<Found>
    requires k + 1 < |u| == |order|
  {
    var a, b := order[k], order[k + 1];
    var da, db := DistanceAt(s.tables, order, u, k, at), DistanceAt(s.tables, order, u, k + 1, at);
    var required := WakeInTrail(s, a, b, da, db);
    if required != 0.0 && db - da < required - WAKE_EPS then Some(Found(a.callsign, b.callsign, true, 0.0)) else None
  }

  /** The two tests at one instant, for positions of the order. */
  datatype Tests = Tests(radar: (nat, nat) -> Option<Found>, wake: nat -> Option<Found>)

  function TestsAt(s: Scanner, order: seq<Aircraft>, u: seq<real>, at: real): Tests
    requires ValidTables(s.tables) && |u| == |order|
  {
    Tests((i: nat, j: nat) => if i < |u| && j < |u| && Scanned(s, order, u, i, at) && Scanned(s, order, u, j, at)
                              then RadarFound(s, order, u, i, j, at) else None,
          (k: nat) => if k + 1 < |u| && Scanned(s, order, u, k, at) && Scanned(s, order, u, k + 1, at)
                      then WakeFound(s, order, u, k, at) else None)
  }

  function Listed(f: Option<Found>): seq<Found> {
    if f.Some? then [f.value] else []
  }

  /** What the radar test finds between i and each of i + 1 to n - 1. */
  function RadarRow(t: Tests, i: nat, n: nat): seq<Found>
    requires i < n
  {
    if n == i + 1 then [] else RadarRow(t, i, n - 1) + Listed(t.radar(i, n - 1))
  }

  function RadarRows(t: Tests, m: nat, n: nat): seq<Found>
    requires m <= n
  {
    if m == 0 then [] else RadarRows(t, m - 1, n) + RadarRow(t, m - 1, n)
  }

  /** The wake test looks at the first n aircraft, each with the next in the landing order. */
  function WakeRow(t: Tests, n: nat): seq<Found> {
    if n <= 1 then [] else WakeRow(t, n - 1) + Listed(t.wake(n - 2))
  }

  function Findings(t: Tests, n: nat): seq<Found> {
    RadarRows(t, n, n) + WakeRow(t, n)
  }

  /** Active violations first, then the shorter wait. */
  predicate MoreUrgent(a: Found, b: Found) {
    (a.active && !b.active) || (a.active == b.active && a.wait <= b.wait)
  }

  const URGENT: (Found, Found) -> bool := (a: Found, b: Found) => MoreUrgent(a, b)

  method ScanFinal(t: Tests, n: nat) returns (out: seq<Found>)
    ensures out == Sort(Findings(t, n), URGENT)
  {
    out := [];
    for i := 0 to n
      invariant out == RadarRows(t, i, n)
    {
      var row := [];
      for j := i + 1 to n
        invariant row == RadarRow(t, i, j)
      {
        row := row + Listed(t.radar(i, j));
      }
      out := out + row;
    }
    var wake := ScanWake(t, n);
    out := Sort(out + wake, URGENT);
  }

  method ScanWake(t: Tests, n: nat) returns (row: seq<Found>)
    ensures row == WakeRow(t, n)
  {
    row := [];
    if n == 0 {
      return;
    }
    for k := 1 to n
      invariant row == WakeRow(t, k)
    {
      row := row + Listed(t.wake(k - 1));
    }
  }

  lemma {:induction false} RowMember(t: Tests, i: nat, n: nat, f: Found)
    requires i < n
    ensures f in RadarRow(t, i, n) <==> exists j: nat :: i < j < n && t.radar(i, j) == Some(f)
  {
    if n == i + 1 {
    } else {
      RowMember(t, i, n - 1, f);
    }
  }

  ghost predicate InSomeRow(t: Tests, m: nat, n: nat, f: Found)
    requires m <= n
  {
    exists i: nat :: i < m && f in RadarRow(t, i, n)
  }

  lemma {:induction false} RowsMember(t: Tests, m: nat, n: nat, f: Found)
    requires m <= n
    ensures f in RadarRows(t, m, n) <==> InSomeRow(t, m, n, f)
  {
    if m == 0 {
    } else {
      RowsMember(t, m - 1, n, f);
      SomeRowNext(t, m, n, f);
    }
  }

  lemma SomeRowNext(t: Tests, m: nat, n: nat, f: Found)
    requires 0 < m <= n
    ensures InSomeRow(t, m, n, f) <==> InSomeRow(t, m - 1, n, f) || f in RadarRow(t, m - 1, n)
  {
    if i: nat :| i < m && f in RadarRow(t, i, n) {
      assert i == m - 1 || i < m - 1;
    }
  }

  lemma {:induction false} WakeMember(t: Tests, n: nat, f: Found)
    ensures f in WakeRow(t, n) <==> exists k: nat :: k + 1 < n && t.wake(k) == Some(f)
  {
    if n <= 1 {
    } else {
      WakeMember(t, n - 1, f);
    }
  }

  /** Pair i, j is found, by the radar or, next to each other, by the wake test. */
  predicate FoundPair(t: Tests, n: nat, i: nat, j: nat, f: Found) {
    i < j < n && (t.radar(i, j) == Some(f) || (j == i + 1 && t.wake(i) == Some(f)))
  }

  /** The loops find exactly the pairs the tests find. */
  lemma FindingsAre(t: Tests, n: nat, f: Found)
    ensures f in Findings(t, n) <==> exists i: nat, j: nat :: FoundPair(t, n, i, j, f)
  {
    if f in Findings(t, n) {
      var i, j := FoundIn(t, n, f);
    }
    if i: nat, j: nat :| FoundPair(t, n, i, j, f) {
      PairIsListed(t, n, i, j, f);
    }
  }

  lemma FoundIn(t: Tests, n: nat, f: Found) returns (i: nat, j: nat)
    requires f in Findings(t, n)
    ensures FoundPair(t, n, i, j, f)
  {
    if f in RadarRows(t, n, n) {
      RowsMember(t, n, n, f);
      i :| i < n && f in RadarRow(t, i, n);
      RowMember(t, i, n, f);
      j :| i < j < n && t.radar(i, j) == Some(f);
    } else {
      WakeMember(t, n, f);
      i :| i + 1 < n && t.wake(i) == Some(f);
      j := i + 1;
    }
  }

  lemma PairIsListed(t: Tests, n: nat, i: nat, j: nat, f: Found)
    requires FoundPair(t, n, i, j, f)
    ensures f in Findings(t, n)
  {
    RowMember(t, i, n, f);
    RowsMember(t, n, n, f);
    WakeMember(t, n, f);
  }

  lemma SortHead<T>(s: seq<T>, leq: (T, T) -> bool)
    requires s != []
    ensures Sort(s, leq) != [] && Sort(s, leq)[0] in s
  {
    assert Sort(s, leq)[0] in multiset(Sort(s, leq));
  }

  // ---------------------------------------------------------------- the whole schedule

  predicate SamePair(a: Found, b: Found) {
    (a.first == b.first && a.second == b.second) || (a.first == b.second && a.second == b.first)
  }

  predicate Known(out: seq<Found>, f: Found) {
    exists k :: 0 <= k < |out| && SamePair(out[k], f)
  }

  /** Each pair once, as it is first found. */
  function AddNew(out: seq<Found>, found: seq<Found>): seq<Found>
    decreases |found|
  {
    if found == [] then out
    else AddNew(if Known(out, found[0]) then out else out + [found[0]], found[1..])
  }

  method Add(out: seq<Found>, found: seq<Found>) returns (all: seq<Found>)
    ensures all == AddNew(out, found)
  {
    all := out;
    for k := 0 to |found|
      invariant AddNew(out, found) == AddNew(all, found[k..])
    {
      assert found[k..][1..] == found[k + 1..];
      if !Known(all, found[k]) {
        all := all + [found[k]];
      }
    }
  }

  function InstantsLeft(at: real, end: real): nat {
    if at > end then 0 else ((end - at) / STEP).Floor + 1
  }

  lemma OneInstantLess(at: real, end: real)
    requires at <= end
    ensures InstantsLeft(at + STEP, end) < InstantsLeft(at, end)
  {
    assert (end - (at + STEP)) / STEP == (end - at) / STEP - 1.0;
  }

  function Collect(scan: real -> seq<Found>, at: real, end: real, out: seq<Found>): seq<Found>
    decreases InstantsLeft(at, end)
  {
    if at > end then out else Collect(scan, at + STEP, end, AddNew(out, scan(at)))
  }

  function Makespan(u: seq<real>): real {
    if u == [] then 0.0 else u[|u| - 1] - u[0]
  }

  function ScanAt(s: Scanner, order: seq<Aircraft>, u: seq<real>): real -> seq<Found>
    requires ValidTables(s.tables) && |u| == |order|
  {
    (at: real) => Sort(Findings(TestsAt(s, order, u, at), |u|), URGENT)
  }

  /** All violations of the schedule, at instants ten seconds apart, for as long as the makespan and
      one step more. */
  function Violations(s: Scanner, order: seq<Aircraft>, now: real, u: seq<real>): seq<Found>
    requires ValidTables(s.tables) && |u| == |order|
  {
    Collect(ScanAt(s, order, u), now, now + Makespan(u) + STEP, [])
  }

  method ScanSchedule(s: Scanner, order: seq<Aircraft>, now: real, u: seq<real>) returns (out: seq<Found>)
    requires ValidTables(s.tables) && |u| == |order|
    ensures out == Violations(s, order, now, u)
  {
    out := CollectAll(s, order, u, ScanAt(s, order, u), now, now + Makespan(u) + STEP);
  }

  method CollectAll(s: Scanner, order: seq<Aircraft>, u: seq<real>, ghost scan: real -> seq<Found>, now: real,
                    end: real)
    returns (out: seq<Found>)
    requires ValidTables(s.tables) && |u| == |order| && scan == ScanAt(s, order, u)
    ensures out == Collect(scan, now, end, [])
  {
    out := [];
    var at := now;
    while at <= end
      invariant Collect(scan, at, end, out) == Collect(scan, now, end, [])
      decreases InstantsLeft(at, end)
    {
      OneInstantLess(at, end);
      out := CollectInstant(s, order, u, scan, at, end, out);
      at := at + STEP;
    }
  }

  method CollectInstant(s: Scanner, order: seq<Aircraft>, u: seq<real>, ghost scan: real -> seq<Found>, at: real,
                        ghost end: real, out: seq<Found>) returns (all: seq<Found>)
    requires ValidTables(s.tables) && |u| == |order| && scan == ScanAt(s, order, u) && at <= end
    ensures Collect(scan, at, end, out) == Collect(scan, at + STEP, end, all)
  {
    var found := ScanFinal(TestsAt(s, order, u, at), |u|);
    all := Add(out, found);
  }

  function Names(out: seq<Found>): (r: seq<(string, string)>)
    ensures |r| == |out|
  {
    seq(|out|, k requires 0 <= k < |out| => (out[k].first, out[k].second))
  }

  /** The scan the slot repair uses. */
  function FlyingScan(s: Scanner, order: seq<Aircraft>, now: real): seq<real> -> seq<(string, string)>
    requires ValidTables(s.tables)
  {
    (u: seq<real>) => if |u| == |order| then Names(Violations(s, order, now, u)) else []
  }

  // ---------------------------------------------------------------- the first finding

  lemma {:induction false} AddNewHead(out: seq<Found>, found: seq<Found>)
    ensures out != [] ==> AddNew(out, found) != [] && AddNew(out, found)[0] == out[0]
    ensures out == [] ==>
            (AddNew(out, found) != [] <==> found != []) && (found != [] ==> AddNew(out, found)[0] == found[0])
    decreases |found|
  {
    if found == [] {
    } else {
      AddNewHead(if Known(out, found[0]) then out else out + [found[0]], found[1..]);
    }
  }

  /** The m-th instant from `at` on. */
  function Instant(at: real, m: nat): real {
    at + STEP * (m as real)
  }

  lemma {:induction false} CollectKeepsHead(scan: real -> seq<Found>, at: real, end: real, out: seq<Found>)
    requires out != []
    ensures Collect(scan, at, end, out) != [] && Collect(scan, at, end, out)[0] == out[0]
    decreases InstantsLeft(at, end)
  {
    if at > end {
    } else {
      AddNewHead(out, scan(at));
      CollectKeepsHead(scan, at + STEP, end, AddNew(out, scan(at)));
    }
  }

  lemma FoundNow(scan: real -> seq<Found>, at: real, end: real)
    requires at <= end
    ensures scan(at) == [] ==> Collect(scan, at, end, []) == Collect(scan, at + STEP, end, [])
    ensures scan(at) != [] ==> Collect(scan, at, end, []) != [] && Collect(scan, at, end, [])[0] == scan(at)[0]
  {
    AddNewHead([], scan(at));
    if scan(at) != [] {
      CollectKeepsHead(scan, at + STEP, end, AddNew([], scan(at)));
    }
  }

  lemma NextInstant(at: real, k: nat)
    ensures Instant(at + STEP, k) == Instant(at, k + 1)
  {
  }

  /** The first finding of the schedule is the most urgent one of the first instant with any. */
  lemma {:induction false} FoundSometime(scan: real -> seq<Found>, at: real, end: real) returns (m: nat)
    requires Collect(scan, at, end, []) != []
    ensures Instant(at, m) <= end && scan(Instant(at, m)) != []
    ensures Collect(scan, at, end, [])[0] == scan(Instant(at, m))[0]
    ensures forall k: nat :: k < m ==> scan(Instant(at, k)) == []
    decreases InstantsLeft(at, end)
  {
    FoundNow(scan, at, end);
    assert Instant(at, 0) == at;
    if scan(at) != [] {
      m := 0;
    } else {
      var n := FoundSometime(scan, at + STEP, end);
      m := n + 1;
      NextInstant(at, n);
      forall k: nat | k < m ensures scan(Instant(at, k)) == [] {
        if k > 0 {
          NextInstant(at, k - 1);
        }
      }
    }
  }

  /** Nothing is collected exactly when no instant has a finding. */
  lemma {:induction false} NothingIff(scan: real -> seq<Found>, at: real, end: real)
    ensures Collect(scan, at, end, []) == [] <==> forall m: nat :: Instant(at, m) <= end ==> scan(Instant(at, m)) == []
    decreases InstantsLeft(at, end)
  {
    assert Instant(at, 0) == at;
    if at > end {
    } else {
      FoundNow(scan, at, end);
      NothingIff(scan, at + STEP, end);
      if Collect(scan, at, end, []) == [] {
        forall m: nat | Instant(at, m) <= end ensures scan(Instant(at, m)) == [] {
          if m > 0 {
            NextInstant(at, m - 1);
          }
        }
      } else {
        var m := FoundSometime(scan, at, end);
      }
    }
  }

  /** What the repair is told first: a pair found at one of the instants. */
  lemma FirstReport(s: Scanner, order: seq<Aircraft>, now: real, u: seq<real>) returns (at: real, i: nat, j: nat)
    requires ValidTables(s.tables) && |u| == |order| && Violations(s, order, now, u) != []
    ensures now <= at <= now + Makespan(u) + STEP
    ensures FoundPair(TestsAt(s, order, u, at), |u|, i, j, Violations(s, order, now, u)[0])
  {
    var m := FoundSometime(ScanAt(s, order, u), now, now + Makespan(u) + STEP);
    at := Instant(now, m);
    i, j := FirstScanned(s, order, u, at);
  }

  lemma FirstScanned(s: Scanner, order: seq<Aircraft>, u: seq<real>, at: real) returns (i: nat, j: nat)
    requires ValidTables(s.tables) && |u| == |order| && ScanAt(s, order, u)(at) != []
    ensures FoundPair(TestsAt(s, order, u, at), |u|, i, j, ScanAt(s, order, u)(at)[0])
  {
    var t := TestsAt(s, order, u, at);
    SortHead(Findings(t, |u|), URGENT);
    i, j := FoundIn(t, |u|, Sort(Findings(t, |u|), URGENT)[0]);
  }

  lemma SomethingScanned(s: Scanner, order: seq<Aircraft>, u: seq<real>, at: real)
    requires ValidTables(s.tables) && |u| == |order| && Findings(TestsAt(s, order, u, at), |u|) != []
    ensures ScanAt(s, order, u)(at) != []
  {
    SortHead(Findings(TestsAt(s, order, u, at), |u|), URGENT);
  }

  lemma MostUrgentNow(scan: real -> seq<Found>, found: seq<Found>, now: real, end: real)
    requires scan(now) == Sort(found, URGENT) && found != [] && now <= end
    ensures Collect(scan, now, end, []) != [] && Collect(scan, now, end, [])[0] in found
  {
    SortHead(found, URGENT);
    FoundNow(scan, now, end);
  }

  /** Something found at once is reported. */
  lemma FoundAtOnce(scan: real -> seq<Found>, found: seq<Found>, now: real, u: seq<real>)
    requires Makespan(u) >= -STEP && scan(now) == Sort(found, URGENT) && found != []
    ensures var r := Collect(scan, now, now + Makespan(u) + STEP, []); r != [] && r[0] in found
  {
    MostUrgentNow(scan, found, now, now + Makespan(u) + STEP);
  }

  lemma ScanAtIs(s: Scanner, order: seq<Aircraft>, u: seq<real>, at: real)
    requires ValidTables(s.tables) && |u| == |order|
    ensures ScanAt(s, order, u)(at) == Sort(Findings(TestsAt(s, order, u, at), |u|), URGENT)
  {
  }

  // ---------------------------------------------------------------- what is found is reported

  /** The wake test, from the tables: a follower on the glide path, which is above its leader, needs
      the whole minimum; one that is a good deal below needs the landing minimum alone. */
  lemma WakeIsApplied(s: Scanner, order: seq<Aircraft>, u: seq<real>, at: real, k: nat)
    requires ValidTables(s.tables) && k + 1 < |u| == |order| && Scanned(s, order, u, k, at) &&
             Scanned(s, order, u, k + 1, at)
    ensures var a, b := order[k], order[k + 1];
            var da, db := DistanceAt(s.tables, order, u, k, at), DistanceAt(s.tables, order, u, k + 1, at);
            var full, landing := s.tables.wakeNm(a.wake, b.wake), s.landingWakeNm(a.wake, b.wake);
            var found := TestsAt(s, order, u, at).wake(k);
            && ((da - db) * s.glideFtPerNm < s.belowGateFt ==>
               (found.Some? <==> full != 0.0 && db - da < full - 0.0001))
            && ((da - db) * s.glideFtPerNm >= s.belowGateFt ==>
                  (found.Some? <==> landing != 0.0 && db - da < landing - 0.0001))
            && (found.Some? ==> found.value == Found(a.callsign, b.callsign, true, 0.0))
  {
  }

  lemma AboveOnGlidePath(s: Scanner, da: real, db: real)
    requires da <= db && s.glideFtPerNm >= 0.0 && s.belowGateFt > 0.0
    ensures (da - db) * s.glideFtPerNm < s.belowGateFt
  {
    MulMonotone(da - db, 0.0, s.glideFtPerNm);
  }

  /** Every pair found is in the list, nothing else is, and no pair is in it twice. */
  ghost predicate Gathers(all: seq<Found>, out: seq<Found>, found: seq<Found>) {
    && (forall f :: f in out || f in found ==> Known(all, f))
    && (forall f :: f in all ==> f in out || f in found)
  }

  ghost predicate PairsOnce(out: seq<Found>) {
    forall i, j :: 0 <= i < j < |out| ==> Pair(out[i]) != Pair(out[j])
  }

  function Pair(f: Found): set<string> {
    {f.first, f.second}
  }

  lemma SamePairIff(a: Found, b: Found)
    ensures SamePair(a, b) <==> Pair(a) == Pair(b)
  {
    if Pair(a) == Pair(b) {
      assert a.first in Pair(b) && a.second in Pair(b) && b.first in Pair(a) && b.second in Pair(a);
    }
  }

  /** The list has an entry for this pair of aircraft. */
  ghost predicate Lists(out: seq<Found>, pair: set<string>) {
    exists k :: 0 <= k < |out| && Pair(out[k]) == pair
  }

  lemma KnownIff(out: seq<Found>, f: Found)
    ensures Known(out, f) <==> Lists(out, Pair(f))
  {
    forall k | 0 <= k < |out| ensures SamePair(out[k], f) <==> Pair(out[k]) == Pair(f) {
      SamePairIff(out[k], f);
    }
  }

  lemma {:induction false} AddNewGathers(out: seq<Found>, found: seq<Found>)
    ensures Gathers(AddNew(out, found), out, found)
    ensures PairsOnce(out) ==> PairsOnce(AddNew(out, found))
    decreases |found|
  {
    if found == [] {
      KnowsItself(out);
    } else {
      var next := if Known(out, found[0]) then out else out + [found[0]];
      AddNewGathers(next, found[1..]);
      AddedOne(out, found, next);
    }
  }

  lemma KnowsItself(out: seq<Found>)
    ensures forall f :: f in out ==> Known(out, f)
  {
    forall f | f in out ensures Known(out, f) {
      var k :| 0 <= k < |out| && out[k] == f;
      assert SamePair(out[k], f);
    }
  }

  lemma AddedOne(out: seq<Found>, found: seq<Found>, next: seq<Found>)
    requires found != [] && next == if Known(out, found[0]) then out else out + [found[0]]
    requires Gathers(AddNew(next, found[1..]), next, found[1..])
    ensures Gathers(AddNew(next, found[1..]), out, found)
    ensures PairsOnce(out) ==> PairsOnce(next)
  {
    KnownIff(out, found[0]);
    var all := AddNew(next, found[1..]);
    forall f | f in out || f in found ensures Known(all, f) {
      if f == found[0] && Known(out, f) {
        var k :| 0 <= k < |out| && SamePair(out[k], f);
        KnownPair(all, out[k], f);
      } else {
        assert f in next || f in found[1..];
      }
    }
  }

  lemma KnownPair(all: seq<Found>, a: Found, b: Found)
    requires Known(all, a) && SamePair(a, b)
    ensures Known(all, b)
  {
    var k :| 0 <= k < |all| && SamePair(all[k], a);
    assert SamePair(all[k], b);
  }

  lemma {:induction false} CollectKeeps(scan: real -> seq<Found>, at: real, end: real, out: seq<Found>, f: Found)
    requires Known(out, f)
    ensures Known(Collect(scan, at, end, out), f)
    decreases InstantsLeft(at, end)
  {
    if at > end {
    } else {
      AddNewGathers(out, scan(at));
      var k :| 0 <= k < |out| && SamePair(out[k], f);
      KnownPair(AddNew(out, scan(at)), out[k], f);
      OneInstantLess(at, end);
      CollectKeeps(scan, at + STEP, end, AddNew(out, scan(at)), f);
    }
  }

  /** Whatever is found at an instant up to the end is in the list. */
  lemma {:induction false} CollectKnows(scan: real -> seq<Found>, at: real, end: real, out: seq<Found>, m: nat,
                                        f: Found)
    requires Instant(at, m) <= end && f in scan(Instant(at, m))
    ensures Known(Collect(scan, at, end, out), f)
    decreases m
  {
    assert at <= Instant(at, m);
    AddNewGathers(out, scan(at));
    if m == 0 {
      assert Instant(at, 0) == at;
      CollectKeeps(scan, at + STEP, end, AddNew(out, scan(at)), f);
    } else {
      NextInstant(at, m - 1);
      CollectKnows(scan, at + STEP, end, AddNew(out, scan(at)), m - 1, f);
    }
  }

  ghost predicate FoundUntil(scan: real -> seq<Found>, at: real, end: real, f: Found) {
    exists m: nat :: Instant(at, m) <= end && f in scan(Instant(at, m))
  }

  /** And whatever is in the list was found at one of them, each pair once. */
  lemma {:induction false} CollectOnly(scan: real -> seq<Found>, at: real, end: real, out: seq<Found>)
    requires PairsOnce(out)
    ensures PairsOnce(Collect(scan, at, end, out))
    ensures forall f :: f in Collect(scan, at, end, out) ==> f in out || FoundUntil(scan, at, end, f)
    decreases InstantsLeft(at, end)
  {
    if at > end {
    } else {
      AddNewGathers(out, scan(at));
      OneInstantLess(at, end);
      CollectOnly(scan, at + STEP, end, AddNew(out, scan(at)));
      forall f | f in Collect(scan, at, end, out) ensures f in out || FoundUntil(scan, at, end, f) {
        FromInstant(scan, at, end, out, f);
      }
    }
  }

  lemma FromInstant(scan: real -> seq<Found>, at: real, end: real, out: seq<Found>, f: Found)
    requires at <= end && Gathers(AddNew(out, scan(at)), out, scan(at))
    requires f in AddNew(out, scan(at)) || FoundUntil(scan, at + STEP, end, f)
    ensures f in out || FoundUntil(scan, at, end, f)
  {
    if FoundUntil(scan, at + STEP, end, f) {
      var next := at + STEP;
      var m: nat :| Instant(next, m) <= end && f in scan(Instant(next, m));
      NextInstant(at, m);
      assert Instant(at, m + 1) <= end;
    } else {
      assert Instant(at, 0) == at;
    }
  }

  lemma {:induction false} SortMember<T>(s: seq<T>, leq: (T, T) -> bool, x: T)
    ensures x in Sort(s, leq) <==> x in s
  {
    assert x in s <==> x in multiset(s);
    assert x in Sort(s, leq) <==> x in multiset(Sort(s, leq));
  }

  lemma UrgencyOrders()
    ensures Total(URGENT) && Transitive(URGENT)
  {
  }

  /** Within one instant active violations come first, and among equally active ones the shorter wait. */
  lemma MostUrgentFirst(s: Scanner, order: seq<Aircraft>, u: seq<real>, at: real)
    requires ValidTables(s.tables) && |u| == |order|
    ensures var out := ScanAt(s, order, u)(at);
            forall i, j :: 0 <= i < j < |out| ==>
              && (out[j].active ==> out[i].active)
              && (out[i].active == out[j].active ==> out[i].wait <= out[j].wait)
  {
    UrgencyOrders();
    var found := Findings(TestsAt(s, order, u, at), |u|);
    SortSorted(found, URGENT);
    SortedByUrgency(Sort(found, URGENT));
    ScanAtIs(s, order, u, at);
  }

  lemma SortedByUrgency(out: seq<Found>)
    requires Sorted(out, URGENT)
    ensures forall i, j :: 0 <= i < j < |out| ==>
              && (out[j].active ==> out[i].active)
              && (out[i].active == out[j].active ==> out[i].wait <= out[j].wait)
  {
    forall i, j | 0 <= i < j < |out| ensures MoreUrgent(out[i], out[j]) {
      assert URGENT(out[i], out[j]);
    }
  }

  /** The pairs either test finds at an instant, in whatever order. */
  lemma ScannedAre(s: Scanner, order: seq<Aircraft>, u: seq<real>, at: real, f: Found)
    requires ValidTables(s.tables) && |u| == |order|
    ensures f in ScanAt(s, order, u)(at) <==> exists i: nat, j: nat :: FoundPair(TestsAt(s, order, u, at), |u|, i, j, f)
  {
    FindingsAre(TestsAt(s, order, u, at), |u|, f);
    SortMember(Findings(TestsAt(s, order, u, at), |u|), URGENT, f);
    ScanAtIs(s, order, u, at);
  }

  lemma ListsScanned(s: Scanner, order: seq<Aircraft>, now: real, u: seq<real>, m: nat, f: Found)
    requires ValidTables(s.tables) && |u| == |order| && Instant(now, m) <= now + Makespan(u) + 10.0
    requires f in ScanAt(s, order, u)(Instant(now, m))
    ensures Lists(Violations(s, order, now, u), {f.first, f.second})
  {
    CollectKnows(ScanAt(s, order, u), now, now + Makespan(u) + STEP, [], m, f);
    KnownIff(Violations(s, order, now, u), f);
  }

  /** What either test finds at an instant the scan looks at is in its list, by callsigns. */
  lemma ScanReports(s: Scanner, order: seq<Aircraft>, now: real, u: seq<real>, m: nat, i: nat, j: nat, f: Found)
    requires ValidTables(s.tables) && |u| == |order| && Instant(now, m) <= now + Makespan(u) + 10.0
    requires FoundPair(TestsAt(s, order, u, Instant(now, m)), |u|, i, j, f)
    ensures Lists(Violations(s, order, now, u), {f.first, f.second})
  {
    ScannedAre(s, order, u, Instant(now, m), f);
    ListsScanned(s, order, now, u, m, f);
  }

  /** A pair short of its wake minimum at such an instant is in the list. */
  lemma ShortOfWakeIsReported(s: Scanner, order: seq<Aircraft>, now: real, u: seq<real>, m: nat, k: nat)
    requires ValidTables(s.tables) && k + 1 < |u| == |order| && Instant(now, m) <= now + Makespan(u) + 10.0
    requires var at := Instant(now, m);
             && Scanned(s, order, u, k, at) && Scanned(s, order, u, k + 1, at)
             && s.glideFtPerNm >= 0.0 && s.belowGateFt > 0.0
             && 0.0 <= DistanceAt(s.tables, order, u, k + 1, at) - DistanceAt(s.tables, order, u, k, at)
                  < s.tables.wakeNm(order[k].wake, order[k + 1].wake) - 0.0001
    ensures Lists(Violations(s, order, now, u), {order[k].callsign, order[k + 1].callsign})
  {
    var at := Instant(now, m);
    var da, db := DistanceAt(s.tables, order, u, k, at), DistanceAt(s.tables, order, u, k + 1, at);
    AboveOnGlidePath(s, da, db);
    WakeIsApplied(s, order, u, at, k);
    ScanReports(s, order, now, u, m, k, k + 1, Found(order[k].callsign, order[k + 1].callsign, true, 0.0));
  }

  /** Pair i, j is found at the m-th instant. */
  ghost predicate FoundAtInstant(s: Scanner, order: seq<Aircraft>, now: real, u: seq<real>, m: nat, i: nat, j: nat,
                                 f: Found)
    requires ValidTables(s.tables) && |u| == |order|
  {
    Instant(now, m) <= now + Makespan(u) + 10.0 && FoundPair(TestsAt(s, order, u, Instant(now, m)), |u|, i, j, f)
  }

  /** Some pair is found at an instant the scan looks at. */
  ghost predicate FoundSometimes(s: Scanner, order: seq<Aircraft>, now: real, u: seq<real>, f: Found)
    requires ValidTables(s.tables) && |u| == |order|
  {
    exists m: nat, i: nat, j: nat :: FoundAtInstant(s, order, now, u, m, i, j, f)
  }

  /** The whole list: each pair once, and only what is found at one of the instants. */
  lemma ScanListsOnly(s: Scanner, order: seq<Aircraft>, now: real, u: seq<real>)
    requires ValidTables(s.tables) && |u| == |order|
    ensures PairsOnce(Violations(s, order, now, u))
    ensures forall f :: f in Violations(s, order, now, u) ==> FoundSometimes(s, order, now, u, f)
  {
    forall f | f in Violations(s, order, now, u) ensures FoundSometimes(s, order, now, u, f) {
      ListedWasFound(s, order, now, u, f);
    }
    ListedOnce(ScanAt(s, order, u), now, now + Makespan(u) + STEP);
  }

  lemma ListedWasFound(s: Scanner, order: seq<Aircraft>, now: real, u: seq<real>, f: Found)
    requires ValidTables(s.tables) && |u| == |order| && f in Violations(s, order, now, u)
    ensures FoundSometimes(s, order, now, u, f)
  {
    FoundBefore(ScanAt(s, order, u), now, now + Makespan(u) + STEP, f);
    WhereFound(s, order, now, u, f);
  }

  lemma ListedOnce(scan: real -> seq<Found>, at: real, end: real)
    ensures PairsOnce(Collect(scan, at, end, []))
  {
    CollectOnly(scan, at, end, []);
  }

  lemma FoundBefore(scan: real -> seq<Found>, at: real, end: real, f: Found)
    requires f in Collect(scan, at, end, [])
    ensures FoundUntil(scan, at, end, f)
  {
    CollectOnly(scan, at, end, []);
  }

  lemma WhereFound(s: Scanner, order: seq<Aircraft>, now: real, u: seq<real>, f: Found)
    requires ValidTables(s.tables) && |u| == |order|
    requires FoundUntil(ScanAt(s, order, u), now, now + Makespan(u) + STEP, f)
    ensures FoundSometimes(s, order, now, u, f)
  {
    var m: nat :| Instant(now, m) <= now + Makespan(u) + STEP && f in ScanAt(s, order, u)(Instant(now, m));
    FoundThen(s, order, now, u, m, f);
  }

  lemma FoundThen(s: Scanner, order: seq<Aircraft>, now: real, u: seq<real>, m: nat, f: Found)
    requires ValidTables(s.tables) && |u| == |order| && Instant(now, m) <= now + Makespan(u) + 10.0
    requires f in ScanAt(s, order, u)(Instant(now, m))
    ensures FoundSometimes(s, order, now, u, f)
  {
    ScannedAre(s, order, u, Instant(now, m), f);
    var i: nat, j: nat :| FoundPair(TestsAt(s, order, u, Instant(now, m)), |u|, i, j, f);
    assert FoundAtInstant(s, order, now, u, m, i, j, f);
  }
}
