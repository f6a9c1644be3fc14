/** The slot repair with the scan that flies the schedule: when it converges, and when it cannot. */
module StreamRepair {
  import opened Options
  import opened RealFacts
  import opened Geometry
  import opened FinalApproach
  import opened SlotTimes
  import opened Sequencing
  import opened Deconfliction
  import opened FlownScan

  // ---------------------------------------------------------------- what a radar finding means

  /** How far the rear aircraft is behind the front one at instant x. */
  function Trail(uFront: real, vFront: real, uRear: real, vRear: real, x: real): real {
    Remaining(uRear, vRear, x) - Remaining(uFront, vFront, x)
  }

  predicate Near(uFront: real, vFront: real, uRear: real, vRear: real, h: real, x: real) {
    -h < Trail(uFront, vFront, uRear, vRear, x) < h
  }

  /** From x on, for a while. */
  ghost predicate NearFrom(uFront: real, vFront: real, uRear: real, vRear: real, h: real, x: real) {
    exists e: real :: e > 0.0 && NearFor(uFront, vFront, uRear, vRear, h, x, e)
  }

  ghost predicate NearFor(uFront: real, vFront: real, uRear: real, vRear: real, h: real, x: real, e: real) {
    forall y :: x < y < x + e ==> Near(uFront, vFront, uRear, vRear, h, y)
  }

  lemma RemainingAfter(landing: real, v: real, at: real, t: real)
    ensures Remaining(landing, v, at + t) == Remaining(landing, v, at) - v / 3600.0 * t
  {
    assert (landing - (at + t)) * v == (landing - at) * v - v * t;
  }

  lemma TrailAfter(uFront: real, vFront: real, uRear: real, vRear: real, at: real, t: real)
    ensures Trail(uFront, vFront, uRear, vRear, at + t) ==
            Trail(uFront, vFront, uRear, vRear, at) - (vRear - vFront) / 3600.0 * t
  {
    RemainingAfter(uFront, vFront, at, t);
    RemainingAfter(uRear, vRear, at, t);
    assert (vRear - vFront) / 3600.0 * t == vRear / 3600.0 * t - vFront / 3600.0 * t;
  }

  lemma TimeToLand(landing: real, v: real, at: real)
    requires v > 0.0
    ensures Remaining(landing, v, at) / v * 3600.0 == landing - at
    ensures Remaining(landing, v, at) > 0.0 <==> at < landing
  {
    var x := landing - at;
    QuotientIs(x * v / 3600.0, v, x / 3600.0);
    assert x > 0.0 <==> x * v > 0.0;
  }

  /** The instants the radar test speaks of: both are in the air, and at x the two are within the
      minimum, or are so from x on, where x is the first landing or the end of the look-ahead. */
  lemma RadarMeans(s: Scanner, uFront: real, vFront: real, uRear: real, vRear: real, h: real, at: real)
      returns (x: real)
    requires vFront > 0.0 && vRear > 0.0 && at < uFront && at < uRear && h >= 0.0 && s.verticalFt >= 0.0 &&
             s.lookahead >= 0.0
    requires var dFront, dRear := Remaining(uFront, vFront, at), Remaining(uRear, vRear, at);
             LineWindow(dFront, dRear, vFront, vRear, s.glideFtPerNm, h, s.verticalFt,
                 HorizonOf(s, dFront, dRear, vFront, vRear)).Some?
    ensures at <= x <= uFront && x <= uRear
    ensures Near(uFront, vFront, uRear, vRear, h, x) ||
            ((x == uFront || x == uRear || x == at + s.lookahead) && NearFrom(uFront, vFront, uRear, vRear, h, x))
  {
    var dFront, dRear := Remaining(uFront, vFront, at), Remaining(uRear, vRear, at);
    var horizon := HorizonOf(s, dFront, dRear, vFront, vRear);
    TimeToLand(uFront, vFront, at);
    TimeToLand(uRear, vRear, at);
    LineReport(dFront, dRear, vFront, vRear, s.glideFtPerNm, h, s.verticalFt, horizon);
    if CloseWithin(dRear - dFront, vFront, vRear, h, horizon) {
      var t :| 0.0 <= t <= horizon && CloseAfter(dRear - dFront, vFront, vRear, h, t);
      x := at + t;
      TrailAfter(uFront, vFront, uRear, vRear, at, t);
    } else {
      x := at + horizon;
      ClosesMeans(uFront, vFront, uRear, vRear, h, at, horizon);
    }
  }

  lemma ClosesMeans(uFront: real, vFront: real, uRear: real, vRear: real, h: real, at: real, horizon: real)
    requires ClosesAt(Trail(uFront, vFront, uRear, vRear, at), vFront, vRear, h, horizon)
    ensures NearFrom(uFront, vFront, uRear, vRear, h, at + horizon)
  {
    var d := Trail(uFront, vFront, uRear, vRear, at);
    var e: real :| e > 0.0 && CloseFor(d, vFront, vRear, h, horizon, e);
    forall y | at + horizon < y < at + horizon + e ensures Near(uFront, vFront, uRear, vRear, h, y) {
      TrailAfter(uFront, vFront, uRear, vRear, at, y - at);
      assert CloseAfter(d, vFront, vRear, h, y - at);
    }
    assert NearFor(uFront, vFront, uRear, vRear, h, at + horizon, e);
  }

  /** The last instant the radar test looks at. */
  function Until(s: Scanner, uFront: real, uRear: real, at: real): real {
    Min(at + s.lookahead, Min(uFront, uRear))
  }

  ghost predicate NearUntil(uFront: real, vFront: real, uRear: real, vRear: real, h: real, at: real, end: real) {
    exists x :: at <= x <= end && Near(uFront, vFront, uRear, vRear, h, x)
  }

  lemma HorizonIs(s: Scanner, uFront: real, vFront: real, uRear: real, vRear: real, at: real)
    requires vFront > 0.0 && vRear > 0.0 && at < uFront && at < uRear && s.lookahead >= 0.0
    ensures at + HorizonOf(s, Remaining(uFront, vFront, at), Remaining(uRear, vRear, at), vFront, vRear)
            == Until(s, uFront, uRear, at)
  {
    TimeToLand(uFront, vFront, at);
    TimeToLand(uRear, vRear, at);
  }

  lemma MeansCloses(uFront: real, vFront: real, uRear: real, vRear: real, h: real, at: real, horizon: real)
    requires NearFrom(uFront, vFront, uRear, vRear, h, at + horizon)
    ensures ClosesAt(Trail(uFront, vFront, uRear, vRear, at), vFront, vRear, h, horizon)
  {
    var d := Trail(uFront, vFront, uRear, vRear, at);
    var e: real :| e > 0.0 && NearFor(uFront, vFront, uRear, vRear, h, at + horizon, e);
    forall t | horizon < t < horizon + e ensures CloseAfter(d, vFront, vRear, h, t) {
      TrailAfter(uFront, vFront, uRear, vRear, at, t);
      assert Near(uFront, vFront, uRear, vRear, h, at + t);
    }
    assert CloseFor(d, vFront, vRear, h, horizon, e);
  }

  lemma NearIsWithin(uFront: real, vFront: real, uRear: real, vRear: real, h: real, at: real, horizon: real)
    ensures CloseWithin(Trail(uFront, vFront, uRear, vRear, at), vFront, vRear, h, horizon) <==>
            NearUntil(uFront, vFront, uRear, vRear, h, at, at + horizon)
  {
    var d := Trail(uFront, vFront, uRear, vRear, at);
    if t :| 0.0 <= t <= horizon && CloseAfter(d, vFront, vRear, h, t) {
      TrailAfter(uFront, vFront, uRear, vRear, at, t);
      assert Near(uFront, vFront, uRear, vRear, h, at + t);
    }
    if x :| at <= x <= at + horizon && Near(uFront, vFront, uRear, vRear, h, x) {
      TrailAfter(uFront, vFront, uRear, vRear, at, x - at);
      assert CloseAfter(d, vFront, vRear, h, x - at);
    }
  }

  /** Within the minimum at an instant up to the end, or from the end on. */
  ghost predicate NearSoon(uFront: real, vFront: real, uRear: real, vRear: real, h: real, at: real, end: real) {
    NearUntil(uFront, vFront, uRear, vRear, h, at, end) || NearFrom(uFront, vFront, uRear, vRear, h, end)
  }

  lemma SoonIff(uFront: real, vFront: real, uRear: real, vRear: real, h: real, at: real, horizon: real)
    ensures var d := Trail(uFront, vFront, uRear, vRear, at);
            CloseWithin(d, vFront, vRear, h, horizon) || ClosesAt(d, vFront, vRear, h, horizon) <==>
            NearSoon(uFront, vFront, uRear, vRear, h, at, at + horizon)
  {
    NearIsWithin(uFront, vFront, uRear, vRear, h, at, horizon);
    FromIff(uFront, vFront, uRear, vRear, h, at, horizon);
  }

  lemma WindowIff(uFront: real, vFront: real, uRear: real, vRear: real, glide: real, h: real, vMin: real, at: real,
                  horizon: real)
    requires h >= 0.0 && vMin >= 0.0 && horizon >= 0.0 && SpeedIsSeen(vFront, vRear)
    ensures LineWindow(Remaining(uFront, vFront, at), Remaining(uRear, vRear, at), vFront, vRear, glide, h, vMin,
                       horizon).Some? <==>
            -vMin < Trail(uFront, vFront, uRear, vRear, at) * glide < vMin
            && NearSoon(uFront, vFront, uRear, vRear, h, at, at + horizon)
  {
    SoonIff(uFront, vFront, uRear, vRear, h, at, horizon);
    OnLineIff(Remaining(uFront, vFront, at), Remaining(uRear, vRear, at), Trail(uFront, vFront, uRear, vRear, at),
              vFront, vRear, glide, h, vMin, horizon);
  }

  lemma OnLineIff(dFront: real, dRear: real, d: real, vFront: real, vRear: real, glide: real, h: real, vMin: real,
                  horizon: real)
    requires h >= 0.0 && vMin >= 0.0 && horizon >= 0.0 && SpeedIsSeen(vFront, vRear) && d == dRear - dFront
    ensures LineWindow(dFront, dRear, vFront, vRear, glide, h, vMin, horizon).Some? <==>
            -vMin < d * glide < vMin
            && (CloseWithin(d, vFront, vRear, h, horizon) || ClosesAt(d, vFront, vRear, h, horizon))
  {
    if LineWindow(dFront, dRear, vFront, vRear, glide, h, vMin, horizon).Some? {
      LineReport(dFront, dRear, vFront, vRear, glide, h, vMin, horizon);
    } else if -vMin < d * glide < vMin
              && (CloseWithin(d, vFront, vRear, h, horizon) || ClosesAt(d, vFront, vRear, h, horizon)) {
      LineFound(dFront, dRear, vFront, vRear, glide, h, vMin, horizon);
    }
  }

  /** In the air and under control. */
  lemma ScannedIff(s: Scanner, order: seq<Aircraft>, u: seq<real>, at: real, k: nat)
    requires ValidTables(s.tables) && k < |u| == |order|
    ensures Scanned(s, order, u, k, at) <==>
            at < u[k] && s.controlled(Remaining(u[k], s.tables.finalGsKt(order[k]), at))
  {
    TimeToLand(u[k], s.tables.finalGsKt(order[k]), at);
  }

  lemma RadarIsWindow(s: Scanner, order: seq<Aircraft>, u: seq<real>, at: real, i: nat, j: nat)
    requires ValidTables(s.tables) && i < |u| == |order| && j < |u|
    ensures var t, f := s.tables, TestsAt(s, order, u, at).radar(i, j);
            var da, db := DistanceAt(t, order, u, i, at), DistanceAt(t, order, u, j, at);
            var va, vb := t.finalGsKt(order[i]), t.finalGsKt(order[j]);
            var w := LineWindow(da, db, va, vb, s.glideFtPerNm, t.radarNm(order[i], order[j]), s.verticalFt,
                                HorizonOf(s, da, db, va, vb));
            && (f.Some? <==> Scanned(s, order, u, i, at) && Scanned(s, order, u, j, at) && w.Some?)
            && (f.Some? ==>
                  && f.value.first == order[i].callsign && f.value.second == order[j].callsign
                  && (f.value.active <==> !Less(At(0.0), w.value.entry) && Less(At(0.0), w.value.exit))
                  && f.value.wait == Wait(w.value))
  {
  }

  /** The radar test of a pair, exactly: it finds two aircraft in the air and under control that are
      within the vertical minimum on the glide path and come within the radar minimum before the
      first landing and the end of the look-ahead, or do so from then on. */
  lemma RadarFoundIff(s: Scanner, order: seq<Aircraft>, u: seq<real>, at: real, i: nat, j: nat)
    requires ValidTables(s.tables) && s.verticalFt >= 0.0 && s.lookahead >= 0.0 && i < |u| == |order| && j < |u|
    requires s.tables.radarNm(order[i], order[j]) >= 0.0
    requires SpeedIsSeen(s.tables.finalGsKt(order[i]), s.tables.finalGsKt(order[j]))
    ensures var vi, vj, h := s.tables.finalGsKt(order[i]), s.tables.finalGsKt(order[j]),
                             s.tables.radarNm(order[i], order[j]);
            TestsAt(s, order, u, at).radar(i, j).Some? <==>
              && at < u[i] && at < u[j]
              && s.controlled(Remaining(u[i], vi, at)) && s.controlled(Remaining(u[j], vj, at))
              && -s.verticalFt < Trail(u[i], vi, u[j], vj, at) * s.glideFtPerNm < s.verticalFt
              && NearSoon(u[i], vi, u[j], vj, h, at, Until(s, u[i], u[j], at))
  {
    RadarIsWindow(s, order, u, at, i, j);
    ScannedIff(s, order, u, at, i);
    ScannedIff(s, order, u, at, j);
    var vi, vj := s.tables.finalGsKt(order[i]), s.tables.finalGsKt(order[j]);
    if at < u[i] && at < u[j] {
      HorizonIs(s, u[i], vi, u[j], vj, at);
      WindowIff(u[i], vi, u[j], vj, s.glideFtPerNm, s.tables.radarNm(order[i], order[j]), s.verticalFt, at,
                HorizonOf(s, Remaining(u[i], vi, at), Remaining(u[j], vj, at), vi, vj));
    }
  }

  /** What is said of a pair found: it is active exactly if it is within the minimum from now on, and
      otherwise it first gets there when the wait is over. */
  lemma RadarUrgency(s: Scanner, order: seq<Aircraft>, u: seq<real>, at: real, i: nat, j: nat)
    requires ValidTables(s.tables) && s.verticalFt >= 0.0 && s.lookahead >= 0.0 && i < |u| == |order| && j < |u|
    requires s.tables.radarNm(order[i], order[j]) >= 0.0
    requires SpeedIsSeen(s.tables.finalGsKt(order[i]), s.tables.finalGsKt(order[j]))
    requires TestsAt(s, order, u, at).radar(i, j).Some?
    ensures var vi, vj, h := s.tables.finalGsKt(order[i]), s.tables.finalGsKt(order[j]),
                             s.tables.radarNm(order[i], order[j]);
            var f := TestsAt(s, order, u, at).radar(i, j).value;
            && f.first == order[i].callsign && f.second == order[j].callsign
            && Urgency(u[i], vi, u[j], vj, h, at, f.active, f.wait)
  {
    RadarIsWindow(s, order, u, at, i, j);
    var vi, vj := s.tables.finalGsKt(order[i]), s.tables.finalGsKt(order[j]);
    WindowSays(u[i], vi, u[j], vj, s.glideFtPerNm, s.tables.radarNm(order[i], order[j]), s.verticalFt, at,
               HorizonOf(s, Remaining(u[i], vi, at), Remaining(u[j], vj, at), vi, vj));
  }

  ghost predicate Urgency(uFront: real, vFront: real, uRear: real, vRear: real, h: real, at: real, active: bool,
                          wait: real) {
    && (active <==> NearFrom(uFront, vFront, uRear, vRear, h, at))
    && (active ==> wait == 0.0)
    && (!active ==>
          && wait > 0.0 && !NearUntil(uFront, vFront, uRear, vRear, h, at, at + wait)
          && NearFrom(uFront, vFront, uRear, vRear, h, at + wait))
  }

  lemma WindowSays(uFront: real, vFront: real, uRear: real, vRear: real, glide: real, h: real, vMin: real, at: real,
                   horizon: real)
    requires h >= 0.0 && vMin >= 0.0 && horizon >= 0.0 && SpeedIsSeen(vFront, vRear)
    requires LineWindow(Remaining(uFront, vFront, at), Remaining(uRear, vRear, at), vFront, vRear, glide, h, vMin,
                        horizon).Some?
    ensures var w := LineWindow(Remaining(uFront, vFront, at), Remaining(uRear, vRear, at), vFront, vRear, glide, h,
                                vMin, horizon).value;
            Urgency(uFront, vFront, uRear, vRear, h, at, !Less(At(0.0), w.entry) && Less(At(0.0), w.exit), Wait(w))
  {
    var dFront, dRear := Remaining(uFront, vFront, at), Remaining(uRear, vRear, at);
    var w := LineWindow(dFront, dRear, vFront, vRear, glide, h, vMin, horizon).value;
    LineReport(dFront, dRear, vFront, vRear, glide, h, vMin, horizon);
    forall t ensures CloseAfter(dRear - dFront, vFront, vRear, h, t) <==> Inside(t, Interval(w.entry, w.exit)) {
      LineExact(dFront, dRear, vFront, vRear, glide, h, vMin, horizon, t);
    }
    LineExact(dFront, dRear, vFront, vRear, glide, h, vMin, horizon, 0.0);
    UrgencyOf(uFront, vFront, uRear, vRear, h, at, w);
  }

  lemma UrgencyOf(uFront: real, vFront: real, uRear: real, vRear: real, h: real, at: real, w: ConflictWindow)
    requires forall t :: CloseAfter(Trail(uFront, vFront, uRear, vRear, at), vFront, vRear, h, t) <==>
                         Inside(t, Interval(w.entry, w.exit))
    requires Less(At(0.0), w.exit) && Less(w.entry, w.exit)
    ensures Urgency(uFront, vFront, uRear, vRear, h, at, !Less(At(0.0), w.entry), Wait(w))
  {
    var d := Trail(uFront, vFront, uRear, vRear, at);
    WindowUrgency(d, vFront, vRear, h, w);
    FromIff(uFront, vFront, uRear, vRear, h, at, 0.0);
    FromIff(uFront, vFront, uRear, vRear, h, at, Wait(w));
    NearIsWithin(uFront, vFront, uRear, vRear, h, at, Wait(w));
  }

  lemma FromIff(uFront: real, vFront: real, uRear: real, vRear: real, h: real, at: real, t: real)
    ensures ClosesAt(Trail(uFront, vFront, uRear, vRear, at), vFront, vRear, h, t) <==>
            NearFrom(uFront, vFront, uRear, vRear, h, at + t)
  {
    if NearFrom(uFront, vFront, uRear, vRear, h, at + t) {
      MeansCloses(uFront, vFront, uRear, vRear, h, at, t);
    }
    if ClosesAt(Trail(uFront, vFront, uRear, vRear, at), vFront, vRear, h, t) {
      ClosesMeans(uFront, vFront, uRear, vRear, h, at, t);
    }
  }

  /** What holds from x on holds at x up to equality. */
  lemma NearAtLimit(uFront: real, vFront: real, uRear: real, vRear: real, h: real, x: real)
    requires NearFrom(uFront, vFront, uRear, vRear, h, x)
    ensures Trail(uFront, vFront, uRear, vRear, x) <= h
  {
    var d, w := Trail(uFront, vFront, uRear, vRear, x), (vRear - vFront) / 3600.0;
    var e: real :| e > 0.0 && NearFor(uFront, vFront, uRear, vRear, h, x, e);
    if d > h {
      var t := SmallStep(w, d - h, e);
      TrailAfter(uFront, vFront, uRear, vRear, x, t);
      NearThen(uFront, vFront, uRear, vRear, h, x, e, x + t);
    }
  }

  lemma NearThen(uFront: real, vFront: real, uRear: real, vRear: real, h: real, x: real, e: real, y: real)
    requires NearFor(uFront, vFront, uRear, vRear, h, x, e) && x < y < x + e
    ensures Trail(uFront, vFront, uRear, vRear, y) < h
  {
    assert Near(uFront, vFront, uRear, vRear, h, y);
  }

  lemma SmallStep(w: real, room: real, e: real) returns (t: real)
    requires room > 0.0 && e > 0.0
    ensures 0.0 < t < e && w * t < room
  {
    if w <= 0.0 {
      t := e / 2.0;
      ProductSign(-w, t);
    } else {
      var q := room / w;
      assert q * w == room;
      assert q > 0.0;
      t := Min(e, q) / 2.0;
      MulMonotone(t, q / 2.0, w);
    }
  }

  ghost predicate ApartUntilLanding(uFront: real, vFront: real, uRear: real, vRear: real, required: real, from: real) {
    forall y :: from <= y <= uFront ==> Trail(uFront, vFront, uRear, vRear, y) >= required
  }

  /** A pair that stays apart by what is required and is found all the same: the distance shrinks to
      exactly the radar minimum at the instant the front aircraft lands. */
  lemma ApartButFound(s: Scanner, uFront: real, vFront: real, uRear: real, vRear: real, h: real, required: real,
                      at: real)
    requires vFront > 0.0 && vRear > 0.0 && at < uFront <= uRear && 0.0 <= h <= required && s.verticalFt >= 0.0 &&
             s.lookahead >= 0.0
    requires var dFront, dRear := Remaining(uFront, vFront, at), Remaining(uRear, vRear, at);
             LineWindow(dFront, dRear, vFront, vRear, s.glideFtPerNm, h, s.verticalFt,
                 HorizonOf(s, dFront, dRear, vFront, vRear)).Some?
    requires ApartUntilLanding(uFront, vFront, uRear, vRear, required, at)
    ensures Trail(uFront, vFront, uRear, vRear, uFront) == h == required && vRear > vFront
  {
    var x := RadarMeans(s, uFront, vFront, uRear, vRear, h, at);
    assert Trail(uFront, vFront, uRear, vRear, x) >= required;
    var e: real :| e > 0.0 && NearFor(uFront, vFront, uRear, vRear, h, x, e);
    NotBeforeLanding(uFront, vFront, uRear, vRear, h, required, at, x, e);
    NearAtLimit(uFront, vFront, uRear, vRear, h, x);
    TrailAfter(uFront, vFront, uRear, vRear, x, e / 2.0);
    NearThen(uFront, vFront, uRear, vRear, h, x, e, x + e / 2.0);
    Shrinks(vFront, vRear, e / 2.0);
  }

  lemma NotBeforeLanding(uFront: real, vFront: real, uRear: real, vRear: real, h: real, required: real, at: real,
                         x: real, e: real)
    requires h <= required && at <= x && e > 0.0 && NearFor(uFront, vFront, uRear, vRear, h, x, e)
    requires ApartUntilLanding(uFront, vFront, uRear, vRear, required, at)
    ensures x >= uFront
  {
    if x < uFront {
      var y := Min(x + e / 2.0, uFront);
      NearThen(uFront, vFront, uRear, vRear, h, x, e, y);
    }
  }

  lemma Shrinks(vFront: real, vRear: real, t: real)
    requires t > 0.0
    ensures (vRear - vFront) / 3600.0 * t > 0.0 ==> vRear > vFront
  {
    if vRear <= vFront {
      ProductSign((vFront - vRear) / 3600.0, t);
      assert (vRear - vFront) / 3600.0 * t == -((vFront - vRear) / 3600.0 * t);
    }
  }

  // ---------------------------------------------------------------- a schedule that meets its gaps

  /** Wherever an aircraft on the final is under control it is inside the join point. */
  ghost predicate ControlInsideJoin(s: Scanner) {
    forall d: real :: s.controlled(d) ==> d <= s.tables.joinNm
  }

  /** Nobody needs as much radar separation as a third aircraft in between takes up; the additions
      for formations stay below that. */
  ghost predicate RadarTriangle(t: Tables) {
    && (forall a: Aircraft, b: Aircraft :: t.radarNm(a, b) > 0.0)
    && forall a: Aircraft, b: Aircraft, c: Aircraft :: t.radarNm(a, c) < t.radarNm(a, b) + t.radarNm(b, c)
  }

  /** The aircraft at position k closes in on the one in front, and what spaces the two is the radar
      minimum at the landing of the front one. */
  predicate ClosesToRadar(t: Tables, order: seq<Aircraft>, k: nat)
    requires ValidTables(t)
  {
    && 0 < k < |order| && t.finalGsKt(order[k]) > t.finalGsKt(order[k - 1])
    && Gap(t, order[k - 1], order[k]).seconds == ThresholdGap(t.radarNm(order[k - 1], order[k]), t.finalGsKt(order[k]))
  }

  lemma PairMeans(s: Scanner, order: seq<Aircraft>, u: seq<real>, at: real, i: nat, j: nat, f: Found)
    requires ValidTables(s.tables) && |u| == |order| && FoundPair(TestsAt(s, order, u, at), |u|, i, j, f)
    ensures i < j < |u| && Scanned(s, order, u, i, at) && Scanned(s, order, u, j, at)
    ensures f.first == order[i].callsign && f.second == order[j].callsign
    ensures RadarFound(s, order, u, i, j, at) == Some(f) || (j == i + 1 && WakeFound(s, order, u, i, at) == Some(f))
  {
  }

  lemma {:induction false} RadarBetween(t: Tables, order: seq<Aircraft>, i: nat, k: nat)
    requires RadarTriangle(t) && i < k < |order|
    ensures RequiredBetween(t, order, i, k) >= t.radarNm(order[i], order[k])
    ensures k > i + 1 ==> RequiredBetween(t, order, i, k) > t.radarNm(order[i], order[k])
    decreases k
  {
    if k == i + 1 {
      assert RequiredBetween(t, order, i, i) == 0.0;
    } else {
      RadarBetween(t, order, i, k - 1);
      assert t.radarNm(order[i], order[k]) < t.radarNm(order[i], order[k - 1]) + t.radarNm(order[k - 1], order[k]);
    }
  }

  /** Distances to fly only shrink. */
  lemma CloserLater(t: Tables, order: seq<Aircraft>, u: seq<real>, k: nat, at: real, y: real)
    requires ValidTables(t) && k < |u| == |order| && at <= y
    ensures DistanceAt(t, order, u, k, y) <= DistanceAt(t, order, u, k, at)
  {
    MulMonotone(u[k] - y, u[k] - at, t.finalGsKt(order[k]));
  }

  lemma MetIsApart(s: Scanner, now: real, order: seq<Aircraft>, u: seq<real>, at: real, i: nat, j: nat)
    requires ValidTables(s.tables) && ControlInsideJoin(s) && |u| == |order| &&
             GapsMet(SpacingOf(s.tables, now), order, u)
    requires i < j < |u| && Scanned(s, order, u, i, at) && Scanned(s, order, u, j, at)
    ensures at < u[i] <= u[j]
    ensures ApartUntilLanding(u[i], s.tables.finalGsKt(order[i]), u[j], s.tables.finalGsKt(order[j]),
                              RequiredBetween(s.tables, order, i, j), at)
  {
    var t := s.tables;
    SpacingFacts(t, now);
    TimesIncrease(SpacingOf(t, now), order, u, i, j);
    TimeToLand(u[i], t.finalGsKt(order[i]), at);
    forall y | at <= y <= u[i]
      ensures Trail(u[i], t.finalGsKt(order[i]), u[j], t.finalGsKt(order[j]), y) >= RequiredBetween(t, order, i, j)
    {
      CloserLater(t, order, u, j, at, y);
      SeparatedOnFinal(t, now, order, u, i, j, y);
    }
  }

  lemma LandingTrail(uFront: real, vFront: real, uRear: real, vRear: real, h: real)
    requires vRear > 0.0 && Trail(uFront, vFront, uRear, vRear, uFront) == h
    ensures uRear - uFront == ThresholdGap(h, vRear)
  {
    var dt := uRear - uFront;
    assert Trail(uFront, vFront, uRear, vRear, uFront) == dt * vRear / 3600.0;
    QuotientIs(h, vRear, dt / 3600.0);
  }

  /** What can still be found in a schedule that meets its gaps, with control inside the join point:
      neighbours whose distance shrinks to exactly the radar minimum when the front one lands, and
      nobody else. */
  lemma MetReport(s: Scanner, now: real, order: seq<Aircraft>, u: seq<real>, at: real, i: nat, j: nat, f: Found)
    requires ValidScanner(s) && ControlInsideJoin(s) && RadarTriangle(s.tables) && |u| == |order|
    requires GapsMet(SpacingOf(s.tables, now), order, u) && FoundPair(TestsAt(s, order, u, at), |u|, i, j, f)
    ensures j == i + 1 && j < |u| && ClosesToRadar(s.tables, order, j) &&
            !HasSpare(SpacingOf(s.tables, now), order, u, j)
  {
    var t := s.tables;
    PairMeans(s, order, u, at, i, j, f);
    MetIsApart(s, now, order, u, at, i, j);
    if RadarFound(s, order, u, i, j, at) == Some(f) {
      MetRadar(s, now, order, u, at, i, j);
    } else {
      MetWake(s, now, order, u, at, i);
      assert false;
    }
  }

  lemma MetRadar(s: Scanner, now: real, order: seq<Aircraft>, u: seq<real>, at: real, i: nat, j: nat)
    requires ValidScanner(s) && RadarTriangle(s.tables) && i < j < |u| == |order| && at < u[i] <= u[j]
    requires GapsMet(SpacingOf(s.tables, now), order, u) && RadarFound(s, order, u, i, j, at).Some?
    requires ApartUntilLanding(u[i], s.tables.finalGsKt(order[i]), u[j], s.tables.finalGsKt(order[j]),
                               RequiredBetween(s.tables, order, i, j), at)
    ensures j == i + 1 && ClosesToRadar(s.tables, order, j) && !HasSpare(SpacingOf(s.tables, now), order, u, j)
  {
    var t := s.tables;
    var h := t.radarNm(order[i], order[j]);
    RadarBetween(t, order, i, j);
    ApartButFound(s, u[i], t.finalGsKt(order[i]), u[j], t.finalGsKt(order[j]), h, RequiredBetween(t, order, i, j), at);
    LandingTrail(u[i], t.finalGsKt(order[i]), u[j], t.finalGsKt(order[j]), h);
    assert RequiredBetween(t, order, i, i) == 0.0;
    assert GapMet(SpacingOf(t, now), order, u, i);
  }

  lemma MetWake(s: Scanner, now: real, order: seq<Aircraft>, u: seq<real>, at: real, i: nat)
    requires ValidScanner(s) && i + 1 < |u| == |order| && at < u[i]
    requires ApartUntilLanding(u[i], s.tables.finalGsKt(order[i]), u[i + 1], s.tables.finalGsKt(order[i + 1]),
                               RequiredBetween(s.tables, order, i, i + 1), at)
    ensures WakeFound(s, order, u, i, at) == None
  {
    assert RequiredBetween(s.tables, order, i, i) == 0.0;
    assert Trail(u[i], s.tables.finalGsKt(order[i]), u[i + 1], s.tables.finalGsKt(order[i + 1]),
           at) >= RequiredNm(s.tables, order[i], order[i + 1]);
    WakeIsRequired(s, order[i], order[i + 1]);
  }

  lemma WakeIsRequired(s: Scanner, leader: Aircraft, follower: Aircraft)
    requires ValidScanner(s)
    ensures s.landingWakeNm(leader.wake, follower.wake) <= s.tables.wakeNm(leader.wake,
            follower.wake) <= RequiredNm(s.tables, leader, follower)
  {
    assert s.tables.radarNm(leader, follower) >= 0.0;
  }

  // ---------------------------------------------------------------- the repair of such a schedule

  lemma {:induction false} IndexIs<A>(sp: Spacing<A>, order: seq<A>, k: nat)
    requires Unique(sp, order) && k < |order|
    ensures IndexOf(sp, order, sp.callsign(order[k])) == Some(k)
  {
    var n := |order| - 1;
    if k == n {
    } else {
      assert sp.callsign(order[k]) != sp.callsign(order[n]);
      assert order[..n][k] == order[k];
      IndexIs(sp, order[..n], k);
    }
  }

  lemma LaterIs<A>(sp: Spacing<A>, order: seq<A>, i: nat, j: nat)
    requires Unique(sp, order) && i < j < |order|
    ensures LaterIndex(sp, order, (sp.callsign(order[i]), sp.callsign(order[j]))) == Some(j)
  {
    IndexIs(sp, order, i);
    IndexIs(sp, order, j);
  }

  ghost function Met<A>(sp: Spacing<A>, order: seq<A>): seq<real> -> bool {
    (u: seq<real>) => |u| == |order| && GapsMet(sp, order, u) && NoneEarly(sp, order, u)
  }

  lemma PushStaysMet<A(!new)>(sp: Spacing<A>, order: seq<A>, u: seq<real>, k: nat)
    requires NonNegativeGaps(sp) && Unique(sp, order) && 0 < k < |order| == |u|
    requires GapsMet(sp, order, u) && NoneEarly(sp, order, u) && !HasSpare(sp, order, u, k)
    ensures Met(sp, order)(Push(sp, order, u, k))
  {
    var v := PushRepairs(sp, order, u, k);
    PushStaysFlyable(sp, order, u, k);
  }

  lemma PushStaysFlyable<A(!new)>(sp: Spacing<A>, order: seq<A>, u: seq<real>, k: nat)
    requires NonNegativeGaps(sp) && Unique(sp, order) && 0 < k < |order| == |u|
    requires NoneEarly(sp, order, u) && !HasSpare(sp, order, u, k)
    ensures NoneEarly(sp, order, Push(sp, order, u, k))
  {
    PushFlyableIff(sp, order, u, k);
    var g := sp.gap(order[k - 1], order[k]);
    assert g >= 0.0 && g * 1.05 >= g;
    assert sp.earliest(order[k]) <= u[k];
  }

  function Hot(t: Tables, order: seq<Aircraft>): nat -> bool
    requires ValidTables(t)
  {
    (k: nat) => ClosesToRadar(t, order, k)
  }

  lemma GapPositive(t: Tables, leader: Aircraft, follower: Aircraft)
    requires ValidTables(t) && RadarTriangle(t)
    ensures Gap(t, leader, follower).seconds > 0.0
  {
    var r, v := RequiredNm(t, leader, follower), t.finalGsKt(follower);
    assert t.radarNm(leader, follower) > 0.0;
    assert r > 0.0;
    QuotientLess(r, v, 0.0);
  }

  lemma MetSettles(s: Scanner, now: real, order: seq<Aircraft>)
    requires ValidScanner(s) && ControlInsideJoin(s) && RadarTriangle(s.tables) &&
             Unique(SpacingOf(s.tables, now), order)
    ensures Settles(SpacingOf(s.tables, now), order, FlyingScan(s, order, now), Met(SpacingOf(s.tables, now), order),
            Hot(s.tables, order))
  {
    var sp, scan := SpacingOf(s.tables, now), FlyingScan(s, order, now);
    forall u: seq<real> | |u| == |order| && Met(sp, order)(u) && scan(u) != []
      ensures Reported(sp, order, scan(u)[0], u, Met(sp, order), Hot(s.tables, order))
    {
      MetReported(s, now, order, u);
    }
  }

  lemma MetReported(s: Scanner, now: real, order: seq<Aircraft>, u: seq<real>)
    requires ValidScanner(s) && ControlInsideJoin(s) && RadarTriangle(s.tables) &&
             Unique(SpacingOf(s.tables, now), order)
    requires Met(SpacingOf(s.tables, now), order)(u) && FlyingScan(s, order, now)(u) != []
    ensures Reported(SpacingOf(s.tables, now), order, FlyingScan(s, order, now)(u)[0], u,
            Met(SpacingOf(s.tables, now), order),
                     Hot(s.tables, order))
  {
    var sp := SpacingOf(s.tables, now);
    var i, j := FirstPair(s, now, order, u);
    MetFirst(s, now, order, u, i, j);
    SpacingFacts(s.tables, now);
    PushStaysMet(sp, order, u, j);
    IsReported(sp, order, u, Met(sp, order), Hot(s.tables, order), i, j);
  }

  /** The first pair the scan names, found at some instant. */
  ghost predicate FirstNamed(s: Scanner, order: seq<Aircraft>, u: seq<real>, i: nat, j: nat)
    requires ValidTables(s.tables) && |u| == |order|
  {
    exists at: real, f: Found :: FoundPair(TestsAt(s, order, u, at), |u|, i, j, f)
  }

  lemma FirstPair(s: Scanner, now: real, order: seq<Aircraft>, u: seq<real>) returns (i: nat, j: nat)
    requires ValidTables(s.tables) && |u| == |order| && FlyingScan(s, order, now)(u) != []
    ensures i < j < |u| && FirstNamed(s, order, u, i, j)
    ensures FlyingScan(s, order, now)(u)[0] == (order[i].callsign, order[j].callsign)
  {
    var at;
    at, i, j := FirstReport(s, order, now, u);
    PairMeans(s, order, u, at, i, j, Violations(s, order, now, u)[0]);
  }

  lemma MetFirst(s: Scanner, now: real, order: seq<Aircraft>, u: seq<real>, i: nat, j: nat)
    requires ValidScanner(s) && ControlInsideJoin(s) && RadarTriangle(s.tables) && i < j < |u| == |order|
    requires GapsMet(SpacingOf(s.tables, now), order, u) && FirstNamed(s, order, u, i, j)
    ensures ClosesToRadar(s.tables, order, j) && !HasSpare(SpacingOf(s.tables, now), order, u, j)
    ensures SpacingOf(s.tables, now).gap(order[j - 1], order[j]) > 0.0
  {
    var at: real, f: Found :| FoundPair(TestsAt(s, order, u, at), |u|, i, j, f);
    MetReport(s, now, order, u, at, i, j, f);
    GapPositive(s.tables, order[j - 1], order[j]);
  }

  lemma IsReported<A>(sp: Spacing<A>, order: seq<A>, u: seq<real>, good: seq<real> -> bool, hot: nat -> bool, i: nat,
                      j: nat)
    requires Unique(sp, order) && i < j < |u| == |order| && hot(j) && !HasSpare(sp, order, u, j)
    requires sp.gap(order[j - 1], order[j]) > 0.0 && good(Push(sp, order, u, j))
    ensures Reported(sp, order, (sp.callsign(order[i]), sp.callsign(order[j])), u, good, hot)
  {
    LaterIs(sp, order, i, j);
  }

  /** Convergence. A schedule that meets its gaps, as `build` makes it, is repaired within fewer than
      2^h pushes, h being the number of aircraft that close in to the radar minimum, and without any
      push if there are none. It still meets every gap afterwards and sends nobody early. */
  lemma MetStreamConverges(s: Scanner, now: real, order: seq<Aircraft>, u: seq<real>, maxRounds: nat)
    requires ValidScanner(s) && ControlInsideJoin(s) && RadarTriangle(s.tables) &&
             Unique(SpacingOf(s.tables, now), order)
    requires |u| == |order| && GapsMet(SpacingOf(s.tables, now), order, u) &&
             NoneEarly(SpacingOf(s.tables, now), order, u)
    requires Power(HotFrom(Hot(s.tables, order), 1, |order|)) <= maxRounds
    ensures var sp := SpacingOf(s.tables, now);
            var r := Repair(sp, order, FlyingScan(s, order, now), u, 1, maxRounds);
            && r.Solved? && r.pushes < Power(HotFrom(Hot(s.tables, order), 1, |order|))
            && GapsMet(sp, order, r.times) && NoneEarly(sp, order, r.times)
  {
    var sp := SpacingOf(s.tables, now);
    MetSettles(s, now, order);
    RepairSettles(sp, order, FlyingScan(s, order, now), Met(sp, order), Hot(s.tables, order), u, maxRounds);
  }

  /** The repair as it is called: from the schedule `build` makes, with 20 rounds. It converges
      whenever no more than four aircraft close in to the radar minimum. */
  lemma BuiltStreamConverges(s: Scanner, arrivals: seq<Aircraft>, now: real)
    requires ValidScanner(s) && ControlInsideJoin(s) && RadarTriangle(s.tables) &&
             Unique(SpacingOf(s.tables, now), arrivals)
    requires HotFrom(Hot(s.tables, InOrder(s.tables, arrivals, now)), 1, |arrivals|) <= 4
    ensures var sp := SpacingOf(s.tables, now);
            var order := InOrder(s.tables, arrivals, now);
            var r := Repair(sp, order, FlyingScan(s, order, now), TimesOf(Layout(s.tables, order, now, map[])), 1, 20);
            && r.Solved? && r.pushes < Power(HotFrom(Hot(s.tables, order), 1, |order|))
            && GapsMet(sp, order, r.times) && NoneEarly(sp, order, r.times)
  {
    var t := s.tables;
    var sp, order := SpacingOf(t, now), InOrder(t, arrivals, now);
    UniquePermuted(sp, arrivals, order);
    LayoutTimes(t, order, now, map[]);
    TimesFeasible(sp, order);
    FewPushes(HotFrom(Hot(t, order), 1, |order|));
    MetStreamConverges(s, now, order, Times(sp, order, map[]), 20);
  }

  lemma {:induction false} PowerMonotone(m: nat, n: nat)
    requires m <= n
    ensures Power(m) <= Power(n)
    decreases n
  {
    if m == n {
    } else {
      PowerMonotone(m, n - 1);
    }
  }

  // ---------------------------------------------------------------- any stream in landing order

  /** Nobody is overtaken inside the join point: the rear aircraft lands later and enters the join
      point later than the front one does. */
  ghost predicate KeepsOrder(t: Tables, order: seq<Aircraft>, u: seq<real>)
    requires ValidTables(t) && |u| == |order|
  {
    forall k :: 0 <= k < |u| - 1 ==>
      u[k + 1] - u[k] >= DistanceGap(0.0, t.joinNm, t.finalGsKt(order[k]), t.finalGsKt(order[k + 1]))
  }

  /** One radar minimum for everybody. */
  ghost predicate OneMinimum(t: Tables) {
    && (forall a: Aircraft, b: Aircraft :: t.radarNm(a, b) > 0.0)
    && forall a: Aircraft, b: Aircraft, c: Aircraft, d: Aircraft :: t.radarNm(a, b) == t.radarNm(c, d)
  }

  lemma LargerGap(required: real, joinNm: real, vFront: real, vRear: real)
    requires vFront > 0.0 && vRear > 0.0 && required >= 0.0
    ensures DistanceGap(required, joinNm, vFront, vRear) >= DistanceGap(0.0, joinNm, vFront, vRear) >= 0.0
  {
    DistanceGapScaled(required, joinNm, vFront, vRear, DistanceGap(required, joinNm, vFront, vRear));
    DistanceGapScaled(0.0, joinNm, vFront, vRear, DistanceGap(required, joinNm, vFront, vRear));
    QuotientIs(0.0, vRear, 0.0);
  }

  /** A met gap keeps the order. */
  lemma GapKeepsOrder(t: Tables, leader: Aircraft, follower: Aircraft)
    requires ValidTables(t)
    ensures Gap(t, leader, follower).seconds >= DistanceGap(0.0, t.joinNm, t.finalGsKt(leader),
            t.finalGsKt(follower)) >= 0.0
  {
    LargerGap(RequiredNm(t, leader, follower), t.joinNm, t.finalGsKt(leader), t.finalGsKt(follower));
  }

  lemma {:induction false} InOrderOnFinal(t: Tables, order: seq<Aircraft>, u: seq<real>, i: nat, k: nat, at: real)
    requires ValidTables(t) && |u| == |order| && KeepsOrder(t, order, u) && i <= k < |u| &&
             BothOnFinal(t, order, u, i, k, at)
    ensures u[i] <= u[k] && DistanceAt(t, order, u, i, at) <= DistanceAt(t, order, u, k, at)
    decreases k
  {
    if i == k {
    } else {
      LandsInOrder(t, order, u, i, k - 1);
      LargerGap(0.0, t.joinNm, t.finalGsKt(order[k - 1]), t.finalGsKt(order[k]));
      assert u[k] - u[k - 1] >= DistanceGap(0.0, t.joinNm, t.finalGsKt(order[k - 1]), t.finalGsKt(order[k]));
      GapKeepsDistance(u[k - 1], u[k], t.finalGsKt(order[k - 1]), t.finalGsKt(order[k]), t.joinNm, 0.0, at);
      InOrderOnFinal(t, order, u, i, k - 1, at);
    }
  }

  lemma {:induction false} LandsInOrder(t: Tables, order: seq<Aircraft>, u: seq<real>, i: nat, k: nat)
    requires ValidTables(t) && |u| == |order| && KeepsOrder(t, order, u) && i <= k < |u|
    ensures u[i] <= u[k]
    decreases k
  {
    if i == k {
    } else {
      LargerGap(0.0, t.joinNm, t.finalGsKt(order[k - 1]), t.finalGsKt(order[k]));
      assert u[k] - u[k - 1] >= DistanceGap(0.0, t.joinNm, t.finalGsKt(order[k - 1]), t.finalGsKt(order[k]));
      LandsInOrder(t, order, u, i, k - 1);
    }
  }

  /** With spare the distance on final is more than what is required. */
  lemma SpareKeepsMore(front: real, rear: real, vFront: real, vRear: real, joinNm: real, required: real, at: real)
    requires vFront > 0.0 && vRear > 0.0 && rear - front > DistanceGap(required, joinNm, vFront, vRear)
    requires OnFinal(front, rear, vRear, joinNm, at)
    ensures Remaining(rear, vRear, at) - Remaining(front, vFront, at) > required
  {
    var tight := front + DistanceGap(required, joinNm, vFront, vRear);
    var p := PositiveProduct(rear - tight, vRear);
    assert (rear - at) * vRear == (tight - at) * vRear + p;
    GapKeepsDistance(front, tight, vFront, vRear, joinNm, required, at);
  }

  /** What can be found in a stream in landing order, with control inside the join point: a pair whose
      rear aircraft has no spare behind its own predecessor. */
  lemma InOrderReport(s: Scanner, now: real, order: seq<Aircraft>, u: seq<real>, at: real, i: nat, j: nat, f: Found)
    requires ValidScanner(s) && ControlInsideJoin(s) && OneMinimum(s.tables) && |u| == |order|
    requires KeepsOrder(s.tables, order, u) && FoundPair(TestsAt(s, order, u, at), |u|, i, j, f)
    ensures i < j < |u| && !HasSpare(SpacingOf(s.tables, now), order, u, j)
  {
    var t := s.tables;
    PairMeans(s, order, u, at, i, j, f);
    TimeToLand(u[i], t.finalGsKt(order[i]), at);
    LandsInOrder(t, order, u, i, j);
    var x := FoundClose(s, order, u, at, i, j, f);
    CloserLater(t, order, u, j, at, x);
    LandsInOrder(t, order, u, i, j - 1);
    CloserBetween(t, order, u, i, j, x);
    if HasSpare(SpacingOf(t, now), order, u, j) {
      SpareKeepsMore(u[j - 1], u[j], t.finalGsKt(order[j - 1]), t.finalGsKt(order[j]), t.joinNm,
                     RequiredNm(t, order[j - 1], order[j]), x);
    }
  }

  /** Behind i, its successor next to j is no further from j than i is. */
  lemma CloserBetween(t: Tables, order: seq<Aircraft>, u: seq<real>, i: nat, j: nat, x: real)
    requires ValidTables(t) && |u| == |order| && KeepsOrder(t, order, u) && i < j < |u| &&
             BothOnFinal(t, order, u, i, j, x)
    ensures BothOnFinal(t, order, u, j - 1, j, x)
    ensures DistanceAt(t, order, u, j, x) - DistanceAt(t, order, u, j - 1, x) <=
            DistanceAt(t, order, u, j, x) - DistanceAt(t, order, u, i, x)
  {
    LandsInOrder(t, order, u, i, j - 1);
    InOrderOnFinal(t, order, u, j - 1, j, x);
    InOrderOnFinal(t, order, u, i, j - 1, x);
  }

  /** The instant at which the found pair is no further apart than the rear aircraft requires. */
  lemma FoundClose(s: Scanner, order: seq<Aircraft>, u: seq<real>, at: real, i: nat, j: nat, f: Found) returns (x: real)
    requires ValidScanner(s) && OneMinimum(s.tables) && i < j < |u| == |order| && at < u[i] <= u[j]
    requires RadarFound(s, order, u, i, j, at) == Some(f) || (j == i + 1 && WakeFound(s, order, u, i, at) == Some(f))
    ensures at <= x <= u[i]
    ensures DistanceAt(s.tables, order, u, j, x) - DistanceAt(s.tables, order, u, i, x) <= RequiredNm(s.tables,
            order[j - 1], order[j])
  {
    var t := s.tables;
    if RadarFound(s, order, u, i, j, at) == Some(f) {
      var h := t.radarNm(order[i], order[j]);
      x := RadarMeans(s, u[i], t.finalGsKt(order[i]), u[j], t.finalGsKt(order[j]), h, at);
      if !Near(u[i], t.finalGsKt(order[i]), u[j], t.finalGsKt(order[j]), h, x) {
        NearAtLimit(u[i], t.finalGsKt(order[i]), u[j], t.finalGsKt(order[j]), h, x);
      }
      assert h == t.radarNm(order[j - 1], order[j]) <= RequiredNm(t, order[j - 1], order[j]);
    } else {
      x := at;
      WakeIsRequired(s, order[i], order[j]);
    }
  }

  ghost function Ordered(t: Tables, sp: Spacing<Aircraft>, order: seq<Aircraft>): seq<real> -> bool
    requires ValidTables(t)
  {
    (u: seq<real>) => |u| == |order| && KeepsOrder(t, order, u) && NoneEarly(sp, order, u)
  }

  lemma OrderAfterPush(t: Tables, now: real, order: seq<Aircraft>, u: seq<real>, k: nat, i: nat)
    requires ValidTables(t) && Unique(SpacingOf(t, now), order) && 0 < k < |order| == |u| && i + 1 < |u|
    requires KeepsOrder(t, order, u)
    ensures var v := Push(SpacingOf(t, now), order, u, k);
            v[i + 1] - v[i] >= DistanceGap(0.0, t.joinNm, t.finalGsKt(order[i]), t.finalGsKt(order[i + 1]))
  {
    var sp := SpacingOf(t, now);
    if i + 1 < k {
      PushKeepsFront(sp, order, u, k, i);
    } else {
      SpacingFacts(t, now);
      PushGaps(sp, order, u, k, i);
      MetKeepsOrder(t, now, order, Push(sp, order, u, k), i);
    }
  }

  lemma PushKeepsFront<A>(sp: Spacing<A>, order: seq<A>, u: seq<real>, k: nat, i: nat)
    requires Unique(sp, order) && i + 1 < k < |order| == |u|
    ensures Push(sp, order, u, k)[i] == u[i] && Push(sp, order, u, k)[i + 1] == u[i + 1]
  {
    PushAt(sp, order, u, k, i);
    PushAt(sp, order, u, k, i + 1);
  }

  lemma MetKeepsOrder(t: Tables, now: real, order: seq<Aircraft>, v: seq<real>, i: nat)
    requires ValidTables(t) && |v| == |order| && i + 1 < |v| && GapMet(SpacingOf(t, now), order, v, i)
    ensures v[i + 1] - v[i] >= DistanceGap(0.0, t.joinNm, t.finalGsKt(order[i]), t.finalGsKt(order[i + 1]))
  {
    GapKeepsOrder(t, order[i], order[i + 1]);
  }

  lemma PushStaysOrdered(t: Tables, now: real, order: seq<Aircraft>, u: seq<real>, k: nat)
    requires ValidTables(t) && Unique(SpacingOf(t, now), order) && 0 < k < |order| == |u|
    requires Ordered(t, SpacingOf(t, now), order)(u) && !HasSpare(SpacingOf(t, now), order, u, k)
    ensures Ordered(t, SpacingOf(t, now), order)(Push(SpacingOf(t, now), order, u, k))
  {
    SpacingFacts(t, now);
    PushStaysFlyable(SpacingOf(t, now), order, u, k);
    forall i: nat | i + 1 < |u|
      ensures var v := Push(SpacingOf(t, now), order, u, k);
              v[i + 1] - v[i] >= DistanceGap(0.0, t.joinNm, t.finalGsKt(order[i]), t.finalGsKt(order[i + 1]))
    {
      OrderAfterPush(t, now, order, u, k, i);
    }
  }

  const EVERY: nat -> bool := (k: nat) => true

  lemma {:induction false} EveryCount(k: nat, n: nat)
    ensures HotFrom(EVERY, k, n) == if k < n then n - k else 0
    decreases n - k
  {
    if k >= n {
    } else {
      EveryCount(k + 1, n);
    }
  }

  lemma OneMinimumGap(t: Tables, leader: Aircraft, follower: Aircraft)
    requires ValidTables(t) && OneMinimum(t)
    ensures Gap(t, leader, follower).seconds > 0.0
  {
    var r, v := RequiredNm(t, leader, follower), t.finalGsKt(follower);
    assert t.radarNm(leader, follower) > 0.0;
    QuotientLess(r, v, 0.0);
  }

  lemma InOrderReported(s: Scanner, now: real, order: seq<Aircraft>, u: seq<real>)
    requires ValidScanner(s) && ControlInsideJoin(s) && OneMinimum(s.tables) && Unique(SpacingOf(s.tables, now), order)
    requires Ordered(s.tables, SpacingOf(s.tables, now), order)(u) && FlyingScan(s, order, now)(u) != []
    ensures Reported(SpacingOf(s.tables, now), order, FlyingScan(s, order, now)(u)[0], u,
                     Ordered(s.tables, SpacingOf(s.tables, now), order), EVERY)
  {
    var sp := SpacingOf(s.tables, now);
    var i, j := FirstPair(s, now, order, u);
    InOrderFirst(s, now, order, u, i, j);
    PushStaysOrdered(s.tables, now, order, u, j);
    IsReported(sp, order, u, Ordered(s.tables, sp, order), EVERY, i, j);
  }

  lemma InOrderFirst(s: Scanner, now: real, order: seq<Aircraft>, u: seq<real>, i: nat, j: nat)
    requires ValidScanner(s) && ControlInsideJoin(s) && OneMinimum(s.tables) && i < j < |u| == |order|
    requires KeepsOrder(s.tables, order, u) && FirstNamed(s, order, u, i, j)
    ensures !HasSpare(SpacingOf(s.tables, now), order, u, j)
    ensures SpacingOf(s.tables, now).gap(order[j - 1], order[j]) > 0.0
  {
    var at: real, f: Found :| FoundPair(TestsAt(s, order, u, at), |u|, i, j, f);
    InOrderReport(s, now, order, u, at, i, j, f);
    OneMinimumGap(s.tables, order[j - 1], order[j]);
  }

  lemma InOrderSettles(s: Scanner, now: real, order: seq<Aircraft>)
    requires ValidScanner(s) && ControlInsideJoin(s) && OneMinimum(s.tables) && Unique(SpacingOf(s.tables, now), order)
    ensures Settles(SpacingOf(s.tables, now), order, FlyingScan(s, order, now),
                    Ordered(s.tables, SpacingOf(s.tables, now), order), EVERY)
  {
    var sp, scan := SpacingOf(s.tables, now), FlyingScan(s, order, now);
    forall u: seq<real> | |u| == |order| && Ordered(s.tables, sp, order)(u) && scan(u) != []
      ensures Reported(sp, order, scan(u)[0], u, Ordered(s.tables, sp, order), EVERY)
    {
      InOrderReported(s, now, order, u);
    }
  }

  /** Convergence from any schedule in which nobody is early and nobody is overtaken inside the join
      point, gaps met or not: fewer than 2^(n - 1) pushes for n aircraft. */
  lemma InOrderStreamConverges(s: Scanner, now: real, order: seq<Aircraft>, u: seq<real>, maxRounds: nat)
    requires ValidScanner(s) && ControlInsideJoin(s) && OneMinimum(s.tables) && Unique(SpacingOf(s.tables, now), order)
    requires |u| == |order| > 0 && KeepsOrder(s.tables, order, u) && NoneEarly(SpacingOf(s.tables, now), order, u)
    requires Power(|order| - 1) <= maxRounds
    ensures var sp := SpacingOf(s.tables, now);
            var r := Repair(sp, order, FlyingScan(s, order, now), u, 1, maxRounds);
            && r.Solved? && r.pushes < Power(|order| - 1)
            && KeepsOrder(s.tables, order, r.times) && NoneEarly(sp, order, r.times)
  {
    var sp := SpacingOf(s.tables, now);
    InOrderSettles(s, now, order);
    EveryCount(1, |order|);
    RepairSettles(sp, order, FlyingScan(s, order, now), Ordered(s.tables, sp, order), EVERY, u, maxRounds);
  }

  /** The unsequenced baseline, repaired with 20 rounds: up to five aircraft in landing order. */
  lemma UnsequencedStreamConverges(s: Scanner, arrivals: seq<Aircraft>, now: real)
    requires ValidScanner(s) && ControlInsideJoin(s) && OneMinimum(s.tables) &&
             Unique(SpacingOf(s.tables, now), arrivals)
    requires 0 < |arrivals| <= 5
    requires var order := InOrder(s.tables, arrivals, now);
             KeepsOrder(s.tables, order, TimesOf(Layout(s.tables, order, now, EarliestPins(s.tables, order, now))))
    ensures var sp := SpacingOf(s.tables, now);
            var order := InOrder(s.tables, arrivals, now);
            var u := TimesOf(Layout(s.tables, order, now, EarliestPins(s.tables, order, now)));
            var r := Repair(sp, order, FlyingScan(s, order, now), u, 1, 20);
            && r.Solved? && r.pushes < Power(|order| - 1)
            && KeepsOrder(s.tables, order, r.times) && NoneEarly(sp, order, r.times)
  {
    var t := s.tables;
    var sp, order := SpacingOf(t, now), InOrder(t, arrivals, now);
    UniquePermuted(sp, arrivals, order);
    UnsequencedNotEarly(t, order, now);
    FewPushes(|order| - 1);
    InOrderStreamConverges(s, now, order, TimesOf(Layout(t, order, now, EarliestPins(t, order, now))), 20);
  }

  lemma FewPushes(h: nat)
    requires h <= 4
    ensures Power(h) <= 16
  {
    PowerMonotone(h, 4);
    assert Power(4) == 16;
  }

  lemma UnsequencedNotEarly(t: Tables, order: seq<Aircraft>, now: real)
    requires ValidTables(t) && Unique(SpacingOf(t, now), order)
    ensures NoneEarly(SpacingOf(t, now), order, TimesOf(Layout(t, order, now, EarliestPins(t, order, now))))
  {
    LayoutTimes(t, order, now, EarliestPins(t, order, now));
    forall i | 0 <= i < |order|
      ensures SpacingOf(t, now).earliest(order[i]) <= Times(SpacingOf(t, now), order, EarliestPins(t, order, now))[i]
    {
      EarliestPinsValue(t, order, now, i);
    }
  }

  // ---------------------------------------------------------------- two aircraft

  lemma OnlySecond(s: Scanner, now: real, order: seq<Aircraft>)
    requires ValidTables(s.tables) && Unique(SpacingOf(s.tables, now), order) && |order| == 2
    ensures OnlyReports(SpacingOf(s.tables, now), order, FlyingScan(s, order, now), 1)
  {
    var sp, scan := SpacingOf(s.tables, now), FlyingScan(s, order, now);
    forall u: seq<real> | |u| == |order| && scan(u) != [] ensures LaterIndex(sp, order, scan(u)[0]) == Some(1) {
      var i, j := FirstPair(s, now, order, u);
      LaterIs(sp, order, i, j);
    }
  }

  /** Two aircraft, wherever control reaches and whatever the times: the repair gives up exactly when
      flying the schedule shows a violation both before and after one push. */
  lemma TwoAircraftIff(s: Scanner, now: real, order: seq<Aircraft>, u: seq<real>, maxRounds: nat)
    requires ValidTables(s.tables) && Unique(SpacingOf(s.tables, now), order) && |u| == |order| == 2 && maxRounds >= 2
    ensures var sp := SpacingOf(s.tables, now);
            var v := Push(sp, order, u, 1);
            Repair(sp, order, FlyingScan(s, order, now), u, 1, maxRounds) ==
              if Violations(s, order, now, u) == [] then Solved(u, 0)
              else if Violations(s, order, now, v) == [] then Solved(v, 1)
              else GivenUp(v, maxRounds)
  {
    OnlySecond(s, now, order);
    OnePairIff(SpacingOf(s.tables, now), order, FlyingScan(s, order, now), u, 1, maxRounds);
  }

  /** With control inside the join point the push of the second aircraft always leaves a clean
      schedule: two aircraft never need more than one. */
  lemma OnePushIsEnough(s: Scanner, now: real, order: seq<Aircraft>, u: seq<real>)
    requires ValidScanner(s) && ControlInsideJoin(s) && RadarTriangle(s.tables)
    requires Unique(SpacingOf(s.tables, now), order) && |u| == |order| == 2
    ensures Violations(s, order, now, Push(SpacingOf(s.tables, now), order, u, 1)) == []
  {
    var sp := SpacingOf(s.tables, now);
    var v := Push(sp, order, u, 1);
    SpacingFacts(s.tables, now);
    GapPositive(s.tables, order[0], order[1]);
    PushSpare(sp, order, u, 1, 1);
    PushGaps(sp, order, u, 1, 0);
    if Violations(s, order, now, v) != [] {
      var i, j := FirstPair(s, now, order, v);
      MetFirst(s, now, order, v, i, j);
    }
  }
}
