/** Conflict geometry in closed form: when do two aircraft in straight motion violate the
    protected cylinder? Distances in NM, altitudes in feet, speeds in knots and feet per
    minute, times in seconds. */
module Geometry {
  import opened Options
  import opened RealFacts

  const EPS := 0.000000000001

  datatype RelativeState = RelativeState(east: real, north: real, alt: real, vEastKt: real, vNorthKt: real,
      vAltFpm: real)

  /** A time bound, with the infinities of the source. */
  datatype Bound = NegInf | At(time: real) | PosInf

  predicate Less(a: Bound, b: Bound) {
    match (a, b)
    case (NegInf, NegInf) => false
    case (NegInf, _) => true
    case (_, NegInf) => false
    case (PosInf, _) => false
    case (At(_), PosInf) => true
    case (At(x), At(y)) => x < y
  }

  function Later(a: Bound, b: Bound): Bound {
    if Less(a, b) then b else a
  }

  function Sooner(a: Bound, b: Bound): Bound {
    if Less(b, a) then b else a
  }

  datatype Interval = Interval(lo: Bound, hi: Bound)

  predicate Inside(t: real, i: Interval) {
    Less(i.lo, At(t)) && Less(At(t), i.hi)
  }

  // ---------------------------------------------------------------- what is to be decided

  /** Horizontal distance squared at time t. */
  function DistanceSquared(rel: RelativeState, t: real): real {
    var x := rel.east + rel.vEastKt / 3600.0 * t;
    var y := rel.north + rel.vNorthKt / 3600.0 * t;
    x * x + y * y
  }

  function AltitudeDifference(rel: RelativeState, t: real): real {
    rel.alt + rel.vAltFpm / 60.0 * t
  }

  predicate TooCloseHorizontally(rel: RelativeState, hMin: real, t: real) {
    DistanceSquared(rel, t) < hMin * hMin
  }

  predicate TooCloseVertically(rel: RelativeState, vMin: real, t: real) {
    -vMin < AltitudeDifference(rel, t) < vMin
  }

  predicate Violates(rel: RelativeState, hMin: real, vMin: real, t: real) {
    TooCloseHorizontally(rel, hMin, t) && TooCloseVertically(rel, vMin, t)
  }

  /** The rates the closed forms are meant for: zero, or not lost in the zero test. */
  predicate ClearRates(rel: RelativeState) {
    && ((rel.vEastKt == 0.0 && rel.vNorthKt == 0.0) || SpeedSquared(rel) >= 0.000000000001)
    && (rel.vAltFpm == 0.0 || rel.vAltFpm / 60.0 >= 0.000000000001 || rel.vAltFpm / 60.0 <= -0.000000000001)
  }

  /** The state as the zero tests see it: rates too small to pass them count as zero. */
  function Seen(rel: RelativeState): RelativeState {
    var moving := SpeedSquared(rel) >= EPS;
    var changing := !(-EPS < rel.vAltFpm / 60.0 < EPS);
    RelativeState(rel.east, rel.north, rel.alt, if moving then rel.vEastKt else 0.0,
                  if moving then rel.vNorthKt else 0.0, if changing then rel.vAltFpm else 0.0)
  }

  /** Nothing is lost exactly when the rates are clear. */
  lemma SeenIff(rel: RelativeState)
    ensures Seen(rel) == rel <==> ClearRates(rel)
    ensures ClearRates(Seen(rel))
  {
  }

  // ---------------------------------------------------------------- horizontal

  function SpeedSquared(rel: RelativeState): real {
    var vx, vy := rel.vEastKt / 3600.0, rel.vNorthKt / 3600.0;
    vx * vx + vy * vy
  }

  function Linear(rel: RelativeState): real {
    2.0 * (rel.east * (rel.vEastKt / 3600.0) + rel.north * (rel.vNorthKt / 3600.0))
  }

  function Constant(rel: RelativeState, hMin: real): real {
    rel.east * rel.east + rel.north * rel.north - hMin * hMin
  }

  function Discriminant(rel: RelativeState, hMin: real): real {
    Linear(rel) * Linear(rel) - 4.0 * SpeedSquared(rel) * Constant(rel, hMin)
  }

  /** `root` is the square root the source takes of the discriminant. */
  predicate IsRoot(rel: RelativeState, hMin: real, root: real) {
    SpeedSquared(rel) > 0.0 && Discriminant(rel, hMin) > 0.0 ==> root >= 0.0 && root * root == Discriminant(rel, hMin)
  }

  function IntervalHorizontal(rel: RelativeState, hMin: real, root: real): Option<Interval> {
    var a, b, c := SpeedSquared(rel), Linear(rel), Constant(rel, hMin);
    if a < EPS then
      if c < 0.0 then Some(Interval(NegInf, PosInf)) else None
    else if Discriminant(rel, hMin) <= 0.0 then None
    else Some(Interval(At((-b - root) / (2.0 * a)), At((-b + root) / (2.0 * a))))
  }

  /** Completing the square. */
  lemma Quadratic(a: real, b: real, c: real, t: real)
    ensures 4.0 * a * (a * t * t + b * t + c) == (2.0 * a * t + b) * (2.0 * a * t + b) - (b * b - 4.0 * a * c)
  {
    var at := a * t;
    assert a * t * t == at * t;
    assert (2.0 * at + b) * (2.0 * at + b) == 4.0 * (at * at) + 4.0 * (at * b) + b * b;
    assert a * (at * t) == at * at;
    assert a * (b * t) == at * b;
    assert a * (at * t + b * t + c) == a * (at * t) + a * (b * t) + a * c;
  }

  lemma DistanceIsQuadratic(rel: RelativeState, hMin: real, t: real)
    ensures DistanceSquared(rel, t) - hMin * hMin == SpeedSquared(rel) * t * t + Linear(rel) * t + Constant(rel, hMin)
  {
    SumSquared(rel.east, rel.vEastKt / 3600.0, t);
    SumSquared(rel.north, rel.vNorthKt / 3600.0, t);
    var vx, vy := rel.vEastKt / 3600.0, rel.vNorthKt / 3600.0;
    assert SpeedSquared(rel) * t * t == vx * vx * t * t + vy * vy * t * t;
    assert Linear(rel) * t == 2.0 * (rel.east * vx * t) + 2.0 * (rel.north * vy * t);
  }

  lemma SumSquared(r: real, v: real, t: real)
    ensures (r + v * t) * (r + v * t) == r * r + 2.0 * (r * v * t) + v * v * t * t
  {
    var d := v * t;
    assert (r + d) * (r + d) == r * r + 2.0 * (r * d) + d * d;
    assert r * d == r * v * t;
    assert d * d == v * v * t * t;
  }

  /** A quadratic with positive leading coefficient is negative strictly between its roots. */
  lemma NegativeBetweenRoots(a: real, b: real, c: real, root: real, t: real)
    requires a > 0.0
    requires b * b - 4.0 * a * c > 0.0 ==> root >= 0.0 && root * root == b * b - 4.0 * a * c
    ensures a * t * t + b * t + c < 0.0 <==>
            b * b - 4.0 * a * c > 0.0 && (-b - root) / (2.0 * a) < t < (-b + root) / (2.0 * a)
  {
    var q := a * t * t + b * t + c;
    var x := 2.0 * a * t + b;
    Quadratic(a, b, c, t);
    assert 4.0 * a * q == x * x - (b * b - 4.0 * a * c);
    SignOfProduct(4.0 * a, q);
    assert x * x >= 0.0;
    if b * b - 4.0 * a * c > 0.0 {
      SquareLess(x, root);
      QuotientLess(-b - root, 2.0 * a, t);
      QuotientLess(-b + root, 2.0 * a, t);
    }
  }

  lemma SignOfProduct(a: real, q: real)
    requires a > 0.0
    ensures a * q < 0.0 <==> q < 0.0
  {
  }

  lemma MovingExact(rel: RelativeState, hMin: real, root: real, t: real)
    requires IsRoot(rel, hMin, root) && SpeedSquared(rel) > 0.0
    ensures var a, b := SpeedSquared(rel), Linear(rel);
            TooCloseHorizontally(rel, hMin, t) <==>
              Discriminant(rel, hMin) > 0.0 && (-b - root) / (2.0 * a) < t < (-b + root) / (2.0 * a)
  {
    DistanceIsQuadratic(rel, hMin, t);
    NegativeBetweenRoots(SpeedSquared(rel), Linear(rel), Constant(rel, hMin), root, t);
  }

  lemma StandingExact(rel: RelativeState, hMin: real, t: real)
    requires rel.vEastKt == 0.0 && rel.vNorthKt == 0.0
    ensures TooCloseHorizontally(rel, hMin, t) <==> Constant(rel, hMin) < 0.0
  {
    assert rel.vEastKt / 3600.0 * t == 0.0 && rel.vNorthKt / 3600.0 * t == 0.0;
  }

  lemma SeenDistance(rel: RelativeState, t: real)
    requires SpeedSquared(rel) >= EPS
    ensures DistanceSquared(Seen(rel), t) == DistanceSquared(rel, t)
  {
  }

  /** The horizontal interval is exactly the set of times with the distance below the minimum,
      for the motion as the zero test sees it. */
  lemma HorizontalExact(rel: RelativeState, hMin: real, root: real, t: real)
    requires IsRoot(rel, hMin, root)
    ensures TooCloseHorizontally(Seen(rel), hMin, t) <==>
            IntervalHorizontal(rel, hMin, root).Some? && Inside(t, IntervalHorizontal(rel, hMin, root).value)
  {
    if SpeedSquared(rel) < EPS {
      StandingExact(Seen(rel), hMin, t);
    } else {
      SeenDistance(rel, t);
      MovingExact(rel, hMin, root, t);
    }
  }

  // ---------------------------------------------------------------- vertical

  /** Solutions of -vMin < rz + vz * s < vMin. */
  function BandTimes(rz: real, vz: real, vMin: real): (real, real)
    requires vz != 0.0
  {
    var t1, t2 := (-vMin - rz) / vz, (vMin - rz) / vz;
    if t1 <= t2 then (t1, t2) else (t2, t1)
  }

  lemma BandExact(rz: real, vz: real, vMin: real, s: real)
    requires vz != 0.0 && vMin >= 0.0
    ensures -vMin < rz + vz * s < vMin <==> BandTimes(rz, vz, vMin).0 < s < BandTimes(rz, vz, vMin).1
    ensures BandTimes(rz, vz, vMin).0 <= BandTimes(rz, vz, vMin).1
  {
    if vz > 0.0 {
      QuotientLess(-vMin - rz, vz, s);
      QuotientLess(vMin - rz, vz, s);
      QuotientOrder(-vMin - rz, vMin - rz, vz);
    } else {
      assert (-vMin - rz) / vz == (vMin + rz) / -vz && (vMin - rz) / vz == (rz - vMin) / -vz by {
        QuotientNegated(-vMin - rz, vz);
        QuotientNegated(vMin - rz, vz);
      }
      QuotientLess(vMin + rz, -vz, s);
      QuotientLess(rz - vMin, -vz, s);
      QuotientOrder(rz - vMin, vMin + rz, -vz);
    }
  }

  lemma QuotientOrder(m: real, n: real, d: real)
    requires d > 0.0 && m <= n
    ensures m / d <= n / d
  {
    QuotientLess(m, d, n / d);
    QuotientLess(n, d, n / d);
    assert n / d * d == n;
  }

  function IntervalVertical(rel: RelativeState, vMin: real): Option<Interval> {
    var vz := rel.vAltFpm / 60.0;
    if -EPS < vz < EPS then
      if -vMin < rel.alt < vMin then Some(Interval(NegInf, PosInf)) else None
    else
      var band := BandTimes(rel.alt, vz, vMin);
      Some(Interval(At(band.0), At(band.1)))
  }

  /** The vertical interval is exactly the set of times inside the altitude band, for the rate
      as the zero test sees it. */
  lemma VerticalExact(rel: RelativeState, vMin: real, t: real)
    requires vMin >= 0.0
    ensures TooCloseVertically(Seen(rel), vMin, t) <==>
            IntervalVertical(rel, vMin).Some? && Inside(t, IntervalVertical(rel, vMin).value)
  {
    var vz := rel.vAltFpm / 60.0;
    if -EPS < vz < EPS {
      assert AltitudeDifference(Seen(rel), t) == rel.alt;
    } else {
      BandExact(rel.alt, vz, vMin, t);
    }
  }

  // ---------------------------------------------------------------- closest point of approach

  function CpaTime(rel: RelativeState): real {
    if SpeedSquared(rel) < EPS then 0.0
    else -(rel.east * (rel.vEastKt / 3600.0) + rel.north * (rel.vNorthKt / 3600.0)) / SpeedSquared(rel)
  }

  /** No time has a smaller horizontal distance than the closest point of approach, for the
      motion as the zero test sees it; without motion it is the present. */
  lemma CpaIsClosest(rel: RelativeState, t: real)
    ensures DistanceSquared(Seen(rel), CpaTime(rel)) <= DistanceSquared(Seen(rel), t)
    ensures Seen(rel).vEastKt == 0.0 && Seen(rel).vNorthKt == 0.0 ==> CpaTime(rel) == 0.0
  {
    var a, b, c := SpeedSquared(rel), Linear(rel), Constant(rel, 0.0);
    var s := CpaTime(rel);
    if a < EPS {
      assert DistanceSquared(Seen(rel), t) == DistanceSquared(Seen(rel), s);
    } else {
      DistanceIsQuadratic(rel, 0.0, t);
      DistanceIsQuadratic(rel, 0.0, s);
      assert s == -(b / 2.0) / a;
      assert s * a == -(b / 2.0);
      VertexIsLeast(a, b, c, s, t);
    }
  }

  lemma VertexIsLeast(a: real, b: real, c: real, s: real, t: real)
    requires a > 0.0 && 2.0 * (s * a) == -b
    ensures a * s * s + b * s + c <= a * t * t + b * t + c
  {
    Quadratic(a, b, c, s);
    Quadratic(a, b, c, t);
    assert 2.0 * a * s + b == 0.0;
    var x := 2.0 * a * t + b;
    assert x * x >= 0.0;
    SignOfProduct(4.0 * a, (a * t * t + b * t + c) - (a * s * s + b * s + c));
  }

  // ---------------------------------------------------------------- the window

  datatype ConflictWindow = ConflictWindow(entry: Bound, exit: Bound, cpaTime: real, hMin: real, vMin: real)

  function DetectConflict(rel: RelativeState, hMin: real, vMin: real, lookahead: real,
                          root: real): Option<ConflictWindow> {
    match (IntervalHorizontal(rel, hMin, root), IntervalVertical(rel, vMin))
    case (Some(h), Some(v)) =>
      var entry, exit := Later(h.lo, v.lo), Sooner(h.hi, v.hi);
      if !Less(entry, exit) then None
      else if !Less(At(0.0), exit) then None
      else if Less(At(lookahead), entry) then None
      else Some(ConflictWindow(entry, exit, CpaTime(rel), hMin, vMin))
    case _ => None
  }

  lemma InsideBoth(h: Interval, v: Interval, t: real)
    ensures Inside(t, h) && Inside(t, v) <==> Inside(t, Interval(Later(h.lo, v.lo), Sooner(h.hi, v.hi)))
  {
  }

  /** A returned window is exactly the set of violating times, with a violation to come, and
      it starts by the end of the look-ahead. Without a window no time in the look-ahead
      violates both minima. This holds of every state as the zero tests see it, which is the
      state itself exactly when its rates are clear (`SeenIff`). */
  lemma DetectExact(rel: RelativeState, hMin: real, vMin: real, lookahead: real, root: real, t: real)
    requires IsRoot(rel, hMin, root) && hMin >= 0.0 && vMin >= 0.0
    ensures match DetectConflict(rel, hMin, vMin, lookahead, root)
            case Some(w) => && (Violates(Seen(rel), hMin, vMin, t) <==> Inside(t, Interval(w.entry, w.exit)))
                            && !Less(At(lookahead), w.entry) && Less(At(0.0), w.exit)
            case None => 0.0 <= t <= lookahead ==> !Violates(Seen(rel), hMin, vMin, t)
  {
    HorizontalExact(rel, hMin, root, t);
    VerticalExact(rel, vMin, t);
    if IntervalHorizontal(rel, hMin, root).Some? && IntervalVertical(rel, vMin).Some? {
      InsideBoth(IntervalHorizontal(rel, hMin, root).value, IntervalVertical(rel, vMin).value, t);
    }
  }

  /** A time inside the window and the look-ahead, if the window starts before the look-ahead ends. */
  function SampleTime(w: ConflictWindow, lookahead: real): real {
    var lo := match w.entry case At(x) => if x > 0.0 then x else 0.0 case _ => 0.0;
    var hi := match w.exit case At(y) => if y < lookahead then y else lookahead case _ => lookahead;
    if Less(w.entry, At(lo)) then lo else (lo + hi) / 2.0
  }

  /** Nothing violates within the look-ahead, but everything does from its very end on. */
  ghost predicate StartsAt(rel: RelativeState, hMin: real, vMin: real, lookahead: real) {
    && (forall t :: 0.0 <= t <= lookahead ==> !Violates(rel, hMin, vMin, t))
    && exists e: real :: e > 0.0 && ViolatesFor(rel, hMin, vMin, lookahead, e)
  }

  ghost predicate ViolatesFor(rel: RelativeState, hMin: real, vMin: real, from: real, e: real) {
    forall t :: from < t < from + e ==> Violates(rel, hMin, vMin, t)
  }

  lemma EntryAtLookahead(rel: RelativeState, hMin: real, vMin: real, lookahead: real, root: real)
    requires IsRoot(rel, hMin, root) && hMin >= 0.0 && vMin >= 0.0
    requires DetectConflict(rel, hMin, vMin, lookahead, root).Some?
    requires DetectConflict(rel, hMin, vMin, lookahead, root).value.entry == At(lookahead)
    ensures StartsAt(Seen(rel), hMin, vMin, lookahead)
  {
    var w := DetectConflict(rel, hMin, vMin, lookahead, root).value;
    var e := match w.exit case At(y) => y - lookahead case _ => 1.0;
    forall t ensures Violates(Seen(rel), hMin, vMin, t) <==> Inside(t, Interval(w.entry, w.exit)) {
      DetectExact(rel, hMin, vMin, lookahead, root, t);
    }
    assert ViolatesFor(Seen(rel), hMin, vMin, lookahead, e);
  }

  lemma NoWindowNoStart(rel: RelativeState, hMin: real, vMin: real, lookahead: real, root: real, e: real)
    requires IsRoot(rel, hMin, root) && hMin >= 0.0 && vMin >= 0.0 && lookahead >= 0.0
    requires DetectConflict(rel, hMin, vMin, lookahead, root) == None && e > 0.0
    ensures !ViolatesFor(Seen(rel), hMin, vMin, lookahead, e)
  {
    var h, v := IntervalHorizontal(rel, hMin, root), IntervalVertical(rel, vMin);
    var late := lookahead + e / 2.0;
    var t := if h == None || v == None then late
             else match Later(h.value.lo, v.value.lo)
                  case At(x) => if lookahead < x < late then x else late
                  case _ => late;
    HorizontalExact(rel, hMin, root, t);
    VerticalExact(rel, vMin, t);
    if h.Some? && v.Some? {
      InsideBoth(h.value, v.value, t);
    }
    assert !Violates(Seen(rel), hMin, vMin, t);
  }

  /** The decision itself. A window is reported if and only if some time in the look-ahead
      violates both minima, or the violation starts exactly when the look-ahead ends. */
  lemma DetectIff(rel: RelativeState, hMin: real, vMin: real, lookahead: real, root: real)
    requires IsRoot(rel, hMin, root) && hMin >= 0.0 && vMin >= 0.0 && lookahead >= 0.0
    ensures DetectConflict(rel, hMin, vMin, lookahead, root).Some? <==>
            (exists t :: 0.0 <= t <= lookahead && Violates(Seen(rel), hMin, vMin, t)) ||
                StartsAt(Seen(rel), hMin, vMin, lookahead)
  {
    var r := DetectConflict(rel, hMin, vMin, lookahead, root);
    if r.Some? {
      var w := r.value;
      if w.entry == At(lookahead) {
        EntryAtLookahead(rel, hMin, vMin, lookahead, root);
      } else {
        var t := SampleTime(w, lookahead);
        DetectExact(rel, hMin, vMin, lookahead, root, t);
        assert 0.0 <= t <= lookahead && Violates(Seen(rel), hMin, vMin, t);
      }
    } else {
      forall t | 0.0 <= t <= lookahead ensures !Violates(Seen(rel), hMin, vMin, t) {
        DetectExact(rel, hMin, vMin, lookahead, root, t);
      }
      forall e: real | e > 0.0 ensures !ViolatesFor(Seen(rel), hMin, vMin, lookahead, e) {
        NoWindowNoStart(rel, hMin, vMin, lookahead, root, e);
      }
    }
  }

  // ---------------------------------------------------------------- every rate

  /** The closed form with zero tests that lose nothing. */
  function TrueWindow(rel: RelativeState, hMin: real, vMin: real, root: real): Option<Interval> {
    match (TrueHorizontal(rel, hMin, root), TrueVertical(rel, vMin))
    case (Some(h), Some(v)) => Some(Interval(Later(h.lo, v.lo), Sooner(h.hi, v.hi)))
    case _ => None
  }

  function TrueHorizontal(rel: RelativeState, hMin: real, root: real): Option<Interval> {
    var a, b := SpeedSquared(rel), Linear(rel);
    if rel.vEastKt == 0.0 && rel.vNorthKt == 0.0 then
      if Constant(rel, hMin) < 0.0 then Some(Interval(NegInf, PosInf)) else None
    else if Discriminant(rel, hMin) <= 0.0 || a == 0.0 then None
    else Some(Interval(At((-b - root) / (2.0 * a)), At((-b + root) / (2.0 * a))))
  }

  function TrueVertical(rel: RelativeState, vMin: real): Option<Interval> {
    if rel.vAltFpm == 0.0 then
      if -vMin < rel.alt < vMin then Some(Interval(NegInf, PosInf)) else None
    else
      var band := BandTimes(rel.alt, rel.vAltFpm / 60.0, vMin);
      Some(Interval(At(band.0), At(band.1)))
  }

  lemma MovesForward(rel: RelativeState)
    requires rel.vEastKt != 0.0 || rel.vNorthKt != 0.0
    ensures SpeedSquared(rel) > 0.0
  {
    var x2 := SquarePositive(rel.vEastKt / 3600.0);
    var y2 := SquarePositive(rel.vNorthKt / 3600.0);
  }

  /** It is exactly the set of violating times, whatever the rates. */
  lemma TrueWindowExact(rel: RelativeState, hMin: real, vMin: real, root: real, t: real)
    requires IsRoot(rel, hMin, root) && vMin >= 0.0
    ensures Violates(rel, hMin, vMin, t) <==>
            TrueWindow(rel, hMin, vMin, root).Some? && Inside(t, TrueWindow(rel, hMin, vMin, root).value)
  {
    TrueHorizontalExact(rel, hMin, root, t);
    TrueVerticalExact(rel, vMin, t);
    var h, v := TrueHorizontal(rel, hMin, root), TrueVertical(rel, vMin);
    if h.Some? && v.Some? {
      InsideBoth(h.value, v.value, t);
    }
  }

  lemma TrueHorizontalExact(rel: RelativeState, hMin: real, root: real, t: real)
    requires IsRoot(rel, hMin, root)
    ensures TooCloseHorizontally(rel, hMin, t) <==>
            TrueHorizontal(rel, hMin, root).Some? && Inside(t, TrueHorizontal(rel, hMin, root).value)
  {
    if rel.vEastKt == 0.0 && rel.vNorthKt == 0.0 {
      StandingExact(rel, hMin, t);
    } else {
      MovesForward(rel);
      MovingExact(rel, hMin, root, t);
    }
  }

  lemma TrueVerticalExact(rel: RelativeState, vMin: real, t: real)
    requires vMin >= 0.0
    ensures TooCloseVertically(rel, vMin, t) <==>
            TrueVertical(rel, vMin).Some? && Inside(t, TrueVertical(rel, vMin).value)
  {
    if rel.vAltFpm == 0.0 {
      assert rel.vAltFpm / 60.0 * t == 0.0;
    } else {
      BandExact(rel.alt, rel.vAltFpm / 60.0, vMin, t);
    }
  }

  /** The open interval and the look-ahead have an instant in common. */
  predicate Meets(w: Option<Interval>, lookahead: real) {
    w.Some? && Less(w.value.lo, w.value.hi) && Less(At(0.0), w.value.hi) && Less(w.value.lo, At(lookahead))
  }

  function CommonTime(w: Interval, lookahead: real): real {
    var lo := match w.lo case At(x) => if x > 0.0 then x else 0.0 case _ => 0.0;
    var hi := match w.hi case At(y) => if y < lookahead then y else lookahead case _ => lookahead;
    (lo + hi) / 2.0
  }

  /** Some instant of the look-ahead violates both minima exactly when the window meets it. */
  lemma MeetsIff(rel: RelativeState, hMin: real, vMin: real, root: real, lookahead: real)
    requires IsRoot(rel, hMin, root) && vMin >= 0.0 && lookahead > 0.0
    ensures (exists t :: 0.0 <= t <= lookahead && Violates(rel, hMin, vMin, t)) <==>
            Meets(TrueWindow(rel, hMin, vMin, root), lookahead)
  {
    var w := TrueWindow(rel, hMin, vMin, root);
    if Meets(w, lookahead) {
      var t := CommonTime(w.value, lookahead);
      TrueWindowExact(rel, hMin, vMin, root, t);
      assert 0.0 <= t <= lookahead && Violates(rel, hMin, vMin, t);
    }
    if t :| 0.0 <= t <= lookahead && Violates(rel, hMin, vMin, t) {
      TrueWindowExact(rel, hMin, vMin, root, t);
    }
  }

  // ---------------------------------------------------------------- what the zero test costs

  /** A line stays on one side of a level over a stretch if and only if it does so at both ends. */
  lemma LineBetween(r: real, v: real, lookahead: real, t: real, level: real)
    requires 0.0 <= t <= lookahead
    ensures r < level && r + v * lookahead < level ==> r + v * t < level
    ensures r >= level && r + v * lookahead >= level ==> r + v * t >= level
    ensures r > level && r + v * lookahead > level ==> r + v * t > level
    ensures r <= level && r + v * lookahead <= level ==> r + v * t <= level
  {
    if v >= 0.0 {
      MulMonotone(t, lookahead, v);
      ProductSign(t, v);
    } else {
      MulMonotone(t, lookahead, -v);
      ProductSign(t, -v);
      assert t * -v == -(v * t) && lookahead * -v == -(v * lookahead);
    }
  }

  /** When a rate lost in the zero test is answered correctly: over the whole look-ahead the
      interval says the truth about the altitude band if and only if both ends of the look-ahead
      are in the band, or both above it, or both below it. */
  lemma SlowRateIff(rel: RelativeState, vMin: real, lookahead: real)
    requires -EPS < rel.vAltFpm / 60.0 < EPS && vMin > 0.0 && lookahead >= 0.0
    ensures (forall t :: 0.0 <= t <= lookahead ==>
            (TooCloseVertically(rel, vMin, t) <==> IntervalVertical(rel, vMin).Some?))
            <==> SameSide(rel.alt, AltitudeDifference(rel, lookahead), vMin)
  {
    var v := rel.vAltFpm / 60.0;
    assert AltitudeDifference(rel, 0.0) == rel.alt;
    if SameSide(rel.alt, AltitudeDifference(rel, lookahead), vMin) {
      forall t | 0.0 <= t <= lookahead ensures TooCloseVertically(rel, vMin, t) <==> IntervalVertical(rel, vMin).Some? {
        LineBetween(rel.alt, v, lookahead, t, vMin);
        LineBetween(rel.alt, v, lookahead, t, -vMin);
      }
    } else {
      var t := WrongInstant(rel, vMin, lookahead);
      assert !(TooCloseVertically(rel, vMin, t) <==> IntervalVertical(rel, vMin).Some?);
    }
  }

  lemma WrongInstant(rel: RelativeState, vMin: real, lookahead: real) returns (t: real)
    requires -EPS < rel.vAltFpm / 60.0 < EPS && vMin > 0.0 && lookahead >= 0.0
    requires !SameSide(rel.alt, AltitudeDifference(rel, lookahead), vMin)
    ensures 0.0 <= t <= lookahead && !(TooCloseVertically(rel, vMin, t) <==> IntervalVertical(rel, vMin).Some?)
  {
    t := lookahead;
    if !(-vMin < rel.alt < vMin) && !TooCloseVertically(rel, vMin, lookahead) {
      t := CrossesZero(rel.alt, rel.vAltFpm / 60.0, lookahead);
    }
  }

  /** Both in the band, both above it or both below it. */
  predicate SameSide(x: real, y: real, vMin: real) {
    || (-vMin < x < vMin && -vMin < y < vMin)
    || (x >= vMin && y >= vMin)
    || (x <= -vMin && y <= -vMin)
  }

  lemma CrossesZero(r: real, v: real, lookahead: real) returns (t: real)
    requires lookahead >= 0.0 && (r > 0.0 > r + v * lookahead || r < 0.0 < r + v * lookahead)
    ensures 0.0 <= t <= lookahead && r + v * t == 0.0
  {
    assert v != 0.0;
    t := -r / v;
    assert t * v == -r;
    if v > 0.0 {
      QuotientLess(-r, v, 0.0);
      QuotientLess(-r, v, lookahead);
    } else {
      QuotientNegated(-r, v);
      QuotientLess(r, -v, 0.0);
      QuotientLess(r, -v, lookahead);
      assert lookahead * -v == -(v * lookahead);
    }
  }

  /** The answer of the whole window test: a conflict that starts before the look-ahead ends. */
  predicate Answers(r: Option<ConflictWindow>, lookahead: real) {
    r.Some? && Less(r.value.entry, At(lookahead))
  }

  lemma AnswerIsSeen(rel: RelativeState, hMin: real, vMin: real, lookahead: real, root: real)
    requires IsRoot(rel, hMin, root) && hMin >= 0.0 && vMin >= 0.0 && lookahead > 0.0
    ensures Answers(DetectConflict(rel, hMin, vMin, lookahead, root), lookahead) <==>
            exists t :: 0.0 <= t <= lookahead && Violates(Seen(rel), hMin, vMin, t)
  {
    var r := DetectConflict(rel, hMin, vMin, lookahead, root);
    if Answers(r, lookahead) {
      var t := SampleTime(r.value, lookahead);
      DetectExact(rel, hMin, vMin, lookahead, root, t);
      assert 0.0 <= t <= lookahead && Violates(Seen(rel), hMin, vMin, t);
    }
    if t :| 0.0 <= t <= lookahead && Violates(Seen(rel), hMin, vMin, t) {
      DetectExact(rel, hMin, vMin, lookahead, root, t);
    }
  }

  /** When the answer is right, for any rates: exactly when the window of the state and that of the
      state as the zero tests see it both meet the look-ahead, or neither does. */
  lemma AnswerRightIff(rel: RelativeState, hMin: real, vMin: real, lookahead: real, root: real)
    requires IsRoot(rel, hMin, root) && hMin >= 0.0 && vMin >= 0.0 && lookahead > 0.0
    ensures (Answers(DetectConflict(rel, hMin, vMin, lookahead, root), lookahead) <==>
             exists t :: 0.0 <= t <= lookahead && Violates(rel, hMin, vMin, t))
            <==> (Meets(TrueWindow(Seen(rel), hMin, vMin, root), lookahead) <==>
                Meets(TrueWindow(rel, hMin, vMin, root), lookahead))
  {
    AnswerIsSeen(rel, hMin, vMin, lookahead, root);
    MeetsIff(rel, hMin, vMin, root, lookahead);
    SeenRoot(rel, hMin, root);
    MeetsIff(Seen(rel), hMin, vMin, root, lookahead);
  }

  lemma SeenRoot(rel: RelativeState, hMin: real, root: real)
    requires IsRoot(rel, hMin, root)
    ensures IsRoot(Seen(rel), hMin, root)
  {
    if SpeedSquared(rel) >= EPS {
      assert Seen(rel).vEastKt == rel.vEastKt && Seen(rel).vNorthKt == rel.vNorthKt;
    } else {
      assert SpeedSquared(Seen(rel)) == 0.0;
    }
  }

  /** When a slow vertical rate makes the test miss a conflict: exactly when the pair is outside the
      altitude band now and its window of violations meets the look-ahead. */
  lemma SlowRateMissesIff(rel: RelativeState, hMin: real, vMin: real, lookahead: real, root: real)
    requires -EPS < rel.vAltFpm / 60.0 < EPS &&
             ((rel.vEastKt == 0.0 && rel.vNorthKt == 0.0) || SpeedSquared(rel) >= EPS)
    requires IsRoot(rel, hMin, root) && hMin >= 0.0 && vMin > 0.0 && lookahead > 0.0
    ensures (DetectConflict(rel, hMin, vMin, lookahead, root) == None && exists t ::
            0.0 <= t <= lookahead && Violates(rel, hMin, vMin, t))
            <==> !(-vMin < rel.alt < vMin) && Meets(TrueWindow(rel, hMin, vMin, root), lookahead)
  {
    MeetsIff(rel, hMin, vMin, root, lookahead);
    if -vMin < rel.alt < vMin {
      forall t | 0.0 <= t <= lookahead && Violates(rel, hMin, vMin, t)
        ensures DetectConflict(rel, hMin, vMin, lookahead, root).Some?
      {
        SlowButInBand(rel, hMin, vMin, t);
        DetectExact(rel, hMin, vMin, lookahead, root, t);
      }
    } else {
      assert IntervalVertical(rel, vMin) == None;
    }
  }

  lemma SlowButInBand(rel: RelativeState, hMin: real, vMin: real, t: real)
    requires -EPS < rel.vAltFpm / 60.0 < EPS &&
             ((rel.vEastKt == 0.0 && rel.vNorthKt == 0.0) || SpeedSquared(rel) >= EPS)
    requires TooCloseHorizontally(rel, hMin, t) && -vMin < rel.alt < vMin
    ensures Violates(Seen(rel), hMin, vMin, t)
  {
    assert Seen(rel) == rel.(vAltFpm := 0.0);
    assert AltitudeDifference(Seen(rel), t) == rel.alt;
  }

  /** The zero test costs something: a vertical rate below it, closing through the minimum, is
      taken for level flight and the violation is not seen. */
  lemma SlowRateIsMissed(rel: RelativeState, root: real, t: real)
    requires rel.east == 0.0 && rel.north == 0.0 && rel.vEastKt == 0.0 && rel.vNorthKt == 0.0
    requires rel.alt == 1000.0 && -EPS < rel.vAltFpm / 60.0 < 0.0 && 0.0 < t <= 600.0
    ensures Violates(rel, 3.0, 1000.0, t) && DetectConflict(rel, 3.0, 1000.0, 600.0, root) == None
  {
    var vz := rel.vAltFpm / 60.0;
    assert DistanceSquared(rel, t) == 0.0;
    assert vz * t < 0.0;
    assert (vz + 1.0) * t >= 0.0;
    assert (vz + 1.0) * t == vz * t + t;
    assert AltitudeDifference(rel, t) == 1000.0 + vz * t;
    assert IntervalVertical(rel, 1000.0) == None;
  }
}
