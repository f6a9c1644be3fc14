/** The prediction layer's conflict test looks at one instant only: the closest horizontal
    approach inside a finite look-ahead. How does it relate to the window test? */
module ClosestApproach {
  import opened RealFacts
  import opened Geometry

  /** Time of the closest horizontal approach, clamped to [0, horizon]. */
  function Tcpa(rel: RelativeState, horizon: real): (t: real)
    requires horizon > 0.0
    ensures 0.0 <= t <= horizon
  {
    if SpeedSquared(rel) == 0.0 then 0.0
    else
      var unbounded := -(rel.east * (rel.vEastKt / 3600.0) + rel.north * (rel.vNorthKt / 3600.0)) / SpeedSquared(rel);
      var positive := if unbounded > 0.0 then unbounded else 0.0;
      if positive < horizon then positive else horizon
  }

  datatype Status = Predicted | Safe

  /** `distance` is the horizontal distance, a square root in the source. */
  function Classify(distance: real, alt: real, hMin: real, vMin: real): Status {
    if distance < hMin && (if alt < 0.0 then -alt else alt) < vMin then Predicted else Safe
  }

  predicate IsDistance(rel: RelativeState, t: real, distance: real) {
    distance >= 0.0 && distance * distance == DistanceSquared(rel, t)
  }

  lemma ClampedVertex(a: real, b: real, c: real, s: real, u: real, t: real)
    requires a > 0.0 && 2.0 * (s * a) == -b
    requires (s <= u <= t) || (t <= u <= s)
    ensures a * u * u + b * u + c <= a * t * t + b * t + c
  {
    var x, y := (u - s) * a, (t - s) * a;
    assert 2.0 * a * u + b == 2.0 * x && 2.0 * a * t + b == 2.0 * y;
    if s <= u && u <= t {
      MulMonotone(u - s, t - s, a);
      ProductSign(u - s, a);
      MulMonotone(x, y, x);
      MulMonotone(x, y, y);
    } else {
      MulMonotone(s - u, s - t, a);
      ProductSign(s - u, a);
      assert (s - u) * a == -x && (s - t) * a == -y;
      MulMonotone(-x, -y, -x);
      MulMonotone(-x, -y, -y);
      assert -x * -x == x * x && -y * -y == y * y && -x * -y == x * y;
    }
    VertexCompare(a, b, c, u, t, x, y);
  }

  lemma VertexCompare(a: real, b: real, c: real, u: real, t: real, x: real, y: real)
    requires a > 0.0 && 2.0 * a * u + b == 2.0 * x && 2.0 * a * t + b == 2.0 * y && x * x <= y * y
    ensures a * u * u + b * u + c <= a * t * t + b * t + c
  {
    Quadratic(a, b, c, u);
    Quadratic(a, b, c, t);
    var qu, qt := a * u * u + b * u + c, a * t * t + b * t + c;
    assert (2.0 * x) * (2.0 * x) == 4.0 * (x * x) && (2.0 * y) * (2.0 * y) == 4.0 * (y * y);
    assert 4.0 * a * qt - 4.0 * a * qu >= 0.0;
    SignOfProduct(4.0 * a, qt - qu);
  }

  lemma StandsStill(vx: real, vy: real)
    requires vx * vx + vy * vy == 0.0
    ensures vx == 0.0 && vy == 0.0
  {
    var x2 := SquarePositive(vx);
    var y2 := SquarePositive(vy);
  }

  /** No instant of the look-ahead has a smaller horizontal distance. */
  lemma TcpaIsClosest(rel: RelativeState, horizon: real, t: real)
    requires horizon > 0.0 && 0.0 <= t <= horizon
    ensures DistanceSquared(rel, Tcpa(rel, horizon)) <= DistanceSquared(rel, t)
  {
    var u := Tcpa(rel, horizon);
    DistanceIsQuadratic(rel, 0.0, t);
    DistanceIsQuadratic(rel, 0.0, u);
    var a, b, c := SpeedSquared(rel), Linear(rel), Constant(rel, 0.0);
    if a == 0.0 {
      StandsStill(rel.vEastKt / 3600.0, rel.vNorthKt / 3600.0);
    } else {
      var s := -(rel.east * (rel.vEastKt / 3600.0) + rel.north * (rel.vNorthKt / 3600.0)) / a;
      assert s * a == -(b / 2.0);
      ClampedVertex(a, b, c, s, u, t);
    }
  }

  /** PREDICTED means that the minima are violated at the closest approach. */
  lemma PredictedIsViolation(rel: RelativeState, horizon: real, hMin: real, vMin: real, distance: real)
    requires horizon > 0.0 && hMin > 0.0 && IsDistance(rel, Tcpa(rel, horizon), distance)
    ensures Classify(distance, AltitudeDifference(rel, Tcpa(rel, horizon)), hMin, vMin) == Predicted <==>
            Violates(rel, hMin, vMin, Tcpa(rel, horizon))
  {
    SquareLess(distance, hMin);
  }

  /** Whatever is PREDICTED the window test finds too, with the closest approach inside the
      window, unless a zero test hides the violation at the closest approach itself; with clear
      rates none does. */
  lemma PredictedIsDetected(rel: RelativeState, horizon: real, hMin: real, vMin: real, distance: real, lookahead: real,
                            root: real)
    requires 0.0 < horizon <= lookahead && hMin > 0.0 && vMin >= 0.0 && IsDistance(rel, Tcpa(rel, horizon), distance)
    requires IsRoot(rel, hMin, root)
    requires Classify(distance, AltitudeDifference(rel, Tcpa(rel, horizon)), hMin, vMin) == Predicted
    ensures var r, u := DetectConflict(rel, hMin, vMin, lookahead, root), Tcpa(rel, horizon);
            && (Violates(Seen(rel), hMin, vMin, u) <==>
                  r.Some? && Less(r.value.entry, At(u)) && Less(At(u), r.value.exit))
            && (ClearRates(rel) ==> Violates(Seen(rel), hMin, vMin, u))
  {
    PredictedIsViolation(rel, horizon, hMin, vMin, distance);
    SeenIff(rel);
    DetectExact(rel, hMin, vMin, lookahead, root, Tcpa(rel, horizon));
  }

  // ---------------------------------------------------------------- what one instant misses

  /** The pair violates both minima at some instant of the look-ahead and is called SAFE. */
  ghost predicate Missed(rel: RelativeState, horizon: real, hMin: real, vMin: real, distance: real)
    requires horizon > 0.0
  {
    && Classify(distance, AltitudeDifference(rel, Tcpa(rel, horizon)), hMin, vMin) == Safe
    && exists t :: 0.0 <= t <= horizon && Violates(rel, hMin, vMin, t)
  }

  /** When the test misses a pair, whatever its rates: exactly when the window of violations
      meets the look-ahead and does not contain the closest approach. */
  lemma MissedIffOutside(rel: RelativeState, horizon: real, hMin: real, vMin: real, distance: real, root: real)
    requires horizon > 0.0 && hMin > 0.0 && vMin >= 0.0 && IsDistance(rel, Tcpa(rel, horizon), distance)
    requires IsRoot(rel, hMin, root)
    ensures Missed(rel, horizon, hMin, vMin, distance) <==>
            (var w := TrueWindow(rel, hMin, vMin, root); Meets(w, horizon) && !Inside(Tcpa(rel, horizon), w.value))
  {
    PredictedIsViolation(rel, horizon, hMin, vMin, distance);
    TrueWindowExact(rel, hMin, vMin, root, Tcpa(rel, horizon));
    MeetsIff(rel, hMin, vMin, root, horizon);
  }

  /** The same by the window test: with clear rates a pair is missed exactly when that test
      reports a window that starts before the look-ahead ends and does not contain the closest
      approach. */
  lemma MissedIff(rel: RelativeState, horizon: real, hMin: real, vMin: real, distance: real, root: real)
    requires horizon > 0.0 && hMin > 0.0 && vMin >= 0.0 && IsDistance(rel, Tcpa(rel, horizon), distance)
    requires IsRoot(rel, hMin, root) && ClearRates(rel)
    ensures var r, u := DetectConflict(rel, hMin, vMin, horizon, root), Tcpa(rel, horizon);
            Missed(rel, horizon, hMin, vMin, distance) <==>
            (r.Some? && Less(r.value.entry, At(horizon)) && !(Less(r.value.entry, At(u)) && Less(At(u), r.value.exit)))
  {
    PredictedIsViolation(rel, horizon, hMin, vMin, distance);
    SeenIff(rel);
    var r := DetectConflict(rel, hMin, vMin, horizon, root);
    DetectExact(rel, hMin, vMin, horizon, root, Tcpa(rel, horizon));
    if r.Some? && Less(r.value.entry, At(horizon)) {
      var t := SampleTime(r.value, horizon);
      DetectExact(rel, hMin, vMin, horizon, root, t);
      assert 0.0 <= t <= horizon && Violates(rel, hMin, vMin, t);
    }
    if t :| 0.0 <= t <= horizon && Violates(rel, hMin, vMin, t) {
      DetectExact(rel, hMin, vMin, horizon, root, t);
    }
  }

  /** With no relative vertical speed one instant is enough: PREDICTED holds if and only if
      some instant of the look-ahead violates both minima. */
  lemma LevelPairIff(rel: RelativeState, horizon: real, hMin: real, vMin: real, distance: real)
    requires horizon > 0.0 && hMin > 0.0 && IsDistance(rel, Tcpa(rel, horizon), distance) && rel.vAltFpm == 0.0
    ensures Classify(distance, AltitudeDifference(rel, Tcpa(rel, horizon)), hMin, vMin) == Predicted <==>
            exists t :: 0.0 <= t <= horizon && Violates(rel, hMin, vMin, t)
  {
    var u := Tcpa(rel, horizon);
    PredictedIsViolation(rel, horizon, hMin, vMin, distance);
    forall t | 0.0 <= t <= horizon && Violates(rel, hMin, vMin, t) ensures Violates(rel, hMin, vMin, u) {
      TcpaIsClosest(rel, horizon, t);
      assert rel.vAltFpm / 60.0 * t == 0.0 && rel.vAltFpm / 60.0 * u == 0.0;
    }
  }

  /** An instance with vertical speed: two aircraft one above the other, outside the vertical
      minimum but on the way to the same altitude, are SAFE at the closest approach, which is
      now, and violate both minima at a later instant `t` of the look-ahead. */
  lemma ClosingVerticallyIsMissed(rel: RelativeState, horizon: real, hMin: real, vMin: real, t: real)
    requires 0.0 < t <= horizon && hMin > 0.0 && 0.0 < vMin <= rel.alt
    requires rel.east == 0.0 && rel.north == 0.0 && rel.vEastKt == 0.0 && rel.vNorthKt == 0.0
    requires AltitudeDifference(rel, t) == 0.0
    ensures IsDistance(rel, Tcpa(rel, horizon), 0.0)
    ensures Classify(0.0, AltitudeDifference(rel, Tcpa(rel, horizon)), hMin, vMin) == Safe
    ensures Violates(rel, hMin, vMin, t)
  {
    assert SpeedSquared(rel) == 0.0;
    assert DistanceSquared(rel, 0.0) == 0.0 && DistanceSquared(rel, t) == 0.0;
    assert AltitudeDifference(rel, 0.0) == rel.alt;
    var h2 := SquarePositive(hMin);
  }

  // ---------------------------------------------------------------- slow horizontal motion

  /** A distance over a stretch is at most the larger of the distances at its ends. */
  lemma FarthestAtEnds(a: real, b: real, c: real, t: real, lookahead: real)
    requires a >= 0.0 && 0.0 <= t <= lookahead
    ensures a * t * t + b * t + c <= c || a * t * t + b * t + c <= a * lookahead * lookahead + b * lookahead + c
  {
    var s, e := a * t + b, a * lookahead + b;
    assert a * t * t + b * t == s * t && a * lookahead * lookahead + b * lookahead == e * lookahead;
    MulMonotone(t, lookahead, a);
    if s <= 0.0 {
      ProductSign(-s, t);
    } else {
      MulMonotone(t, lookahead, s);
      MulMonotone(s, e, lookahead);
    }
  }

  /** The horizontal interval says the truth over the whole look-ahead. */
  ghost predicate RightThroughout(rel: RelativeState, hMin: real, root: real, lookahead: real) {
    forall t :: 0.0 <= t <= lookahead ==>
      (TooCloseHorizontally(rel, hMin, t) <==> IntervalHorizontal(rel, hMin, root).Some?)
  }

  /** When a horizontal speed lost in the zero test is answered correctly: over the whole
      look-ahead the interval says the truth if and only if the pair is within the minimum at
      both ends, or outside it now and at the closest approach. */
  lemma SlowSpeedIff(rel: RelativeState, hMin: real, root: real, lookahead: real)
    requires SpeedSquared(rel) < EPS && lookahead > 0.0
    ensures RightThroughout(rel, hMin, root, lookahead) <==>
            (TooCloseHorizontally(rel, hMin, 0.0) && TooCloseHorizontally(rel, hMin, lookahead)) ||
            (!TooCloseHorizontally(rel, hMin, 0.0) && !TooCloseHorizontally(rel, hMin, Tcpa(rel, lookahead)))
  {
    assert TooCloseHorizontally(rel, hMin, 0.0) <==> IntervalHorizontal(rel, hMin, root).Some? by {
      assert DistanceSquared(rel, 0.0) == rel.east * rel.east + rel.north * rel.north;
    }
    forall t | 0.0 <= t <= lookahead
      ensures TooCloseHorizontally(rel, hMin, 0.0) && TooCloseHorizontally(rel, hMin, lookahead) ==>
              TooCloseHorizontally(rel, hMin, t)
      ensures !TooCloseHorizontally(rel, hMin, Tcpa(rel, lookahead)) ==> !TooCloseHorizontally(rel, hMin, t)
    {
      if TooCloseHorizontally(rel, hMin, 0.0) && TooCloseHorizontally(rel, hMin, lookahead) {
        WithinBothEnds(rel, hMin, lookahead, t);
      }
      TcpaIsClosest(rel, lookahead, t);
    }
  }

  lemma WithinBothEnds(rel: RelativeState, hMin: real, lookahead: real, t: real)
    requires 0.0 <= t <= lookahead && TooCloseHorizontally(rel, hMin, 0.0) && TooCloseHorizontally(rel, hMin, lookahead)
    ensures TooCloseHorizontally(rel, hMin, t)
  {
    DistanceIsQuadratic(rel, 0.0, 0.0);
    DistanceIsQuadratic(rel, 0.0, t);
    DistanceIsQuadratic(rel, 0.0, lookahead);
    var vx := SquarePositive(rel.vEastKt / 3600.0);
    var vy := SquarePositive(rel.vNorthKt / 3600.0);
    FarthestAtEnds(SpeedSquared(rel), Linear(rel), Constant(rel, 0.0), t, lookahead);
  }
}
