/** The sampled hazard test on a leg, in a flat plane: which airspace does the leg from a to b
    enter at the given altitude? The test looks at finitely many points of the leg. */
module HazardSampling {
  import opened Options
  import opened RealFacts
  import ClosestApproach

  datatype Point = Point(x: real, y: real)

  datatype Volume =
    | Circle(id: string, lowerFt: real, upperFt: real, center: Point, radius: real, inner: real)
    | Polygon(id: string, lowerFt: real, upperFt: real, inside: Point -> bool)

  function Square(x: real): (s: real)
    ensures s >= 0.0
  {
    x * x
  }

  function DistanceSquared(p: Point, q: Point): real {
    Square(p.x - q.x) + Square(p.y - q.y)
  }

  predicate ContainsPosition(v: Volume, p: Point) {
    match v
    case Circle(_, _, _, c, radius, inner) => Square(inner) <= DistanceSquared(p, c) <= Square(radius)
    case Polygon(_, _, _, inside) => inside(p)
  }

  predicate Contains(v: Volume, p: Point, altFt: real) {
    v.lowerFt <= altFt <= v.upperFt && ContainsPosition(v, p)
  }

  /** Outside, spelled out: below or above the band, in the hole or beyond the rim of a circle, or not
      inside the polygon. */
  ghost predicate Outside(v: Volume, p: Point, altFt: real) {
    || altFt < v.lowerFt || altFt > v.upperFt
    || match v
       case Circle(_, _, _, c, radius, inner) =>
         var d2 := (p.x - c.x) * (p.x - c.x) + (p.y - c.y) * (p.y - c.y);
         d2 < inner * inner || d2 > radius * radius
       case Polygon(_, _, _, inside) => !inside(p)
  }

  lemma OutsideIff(v: Volume, p: Point, altFt: real)
    ensures Outside(v, p, altFt) <==> !Contains(v, p, altFt)
  {
  }

  /** Number of stretches the leg is cut into. */
  function Stretches(d: real, sample: real): (n: nat)
    requires sample > 0.0 && d >= 0.0
    ensures n >= 2
  {
    var k := Ceiling(d / sample) + 1;
    if k > 2 then k else 2
  }

  /** Half the smallest circle of the permanent hazards; 0.35 NM if there is none. */
  function SampleNm(hazards: seq<Volume>): real {
    var r := SmallestRadius(hazards);
    if r.Some? then r.value / 2.0 else 0.35
  }

  function SmallestRadius(hazards: seq<Volume>): (r: Option<real>)
    ensures forall v :: v in hazards && v.Circle? ==> r.Some? && r.value <= v.radius
    ensures r.Some? ==> exists v :: v in hazards && v.Circle? && v.radius == r.value
  {
    if hazards == [] then None
    else
      var rest := SmallestRadius(hazards[1..]);
      var v := hazards[0];
      assert hazards == [v] + hazards[1..];
      if v.Polygon? then rest
      else if rest == None || v.radius <= rest.value then Some(v.radius)
      else rest
  }

  function Along(a: Point, b: Point, s: real): Point {
    Point(a.x + (b.x - a.x) * s, a.y + (b.y - a.y) * s)
  }

  function SampleAt(a: Point, b: Point, n: nat, i: nat): Point
    requires n > 0
  {
    Along(a, b, (i as real) / (n as real))
  }

  function FirstContaining(volumes: seq<Volume>, p: Point, altFt: real, k: nat): (r: Option<string>)
    requires k <= |volumes|
    ensures r == None <==> forall j :: k <= j < |volumes| ==> Outside(volumes[j], p, altFt)
    ensures r.Some? ==> exists j ::
              k <= j < |volumes| && !Outside(volumes[j], p, altFt) && r.value == volumes[j].id &&
              forall i :: k <= i < j ==> Outside(volumes[i], p, altFt)
    decreases |volumes| - k
  {
    if k == |volumes| then None
    else if Contains(volumes[k], p, altFt) then Some(volumes[k].id)
    else FirstContaining(volumes, p, altFt, k + 1)
  }

  /** Only the samples are looked at, end points included. */
  ghost predicate SamplesClear(volumes: seq<Volume>, a: Point, b: Point, altFt: real, n: nat)
    requires n > 0
  {
    forall i: nat, j :: i <= n && 0 <= j < |volumes| ==> !Contains(volumes[j], SampleAt(a, b, n, i), altFt)
  }

  /** `d` is the length of the leg. The answer names the first volume, in order, that holds
      the first sample held by any; it is `None` exactly when every sample is clear. */
  method Blocking(volumes: seq<Volume>, sample: real, a: Point, b: Point, d: real, altFt: real)
      returns (r: Option<string>)
    requires sample > 0.0 && d >= 0.0
    ensures r == None <==> SamplesClear(volumes, a, b, altFt, Stretches(d, sample))
    ensures r == None <==> forall i: nat, j :: i <= Stretches(d, sample) && 0 <= j < |volumes| ==>
              Outside(volumes[j], SampleAt(a, b, Stretches(d, sample), i), altFt)
    ensures (forall v :: v in volumes ==> altFt < v.lowerFt || altFt > v.upperFt) ==> r == None
    ensures r.Some? ==> exists i: nat ::
            i <= Stretches(d, sample) && FirstHit(volumes, a, b, altFt, Stretches(d, sample), i, r)
  {
    if volumes == [] {
      return None;
    }
    var n := Stretches(d, sample);
    for i := 0 to n + 1
      invariant forall k: nat, j :: k < i && 0 <= j < |volumes| ==> !Contains(volumes[j], SampleAt(a, b, n, k), altFt)
    {
      var p := SampleAt(a, b, n, i);
      for j := 0 to |volumes|
        invariant forall l :: 0 <= l < j ==> !Contains(volumes[l], p, altFt)
        invariant FirstContaining(volumes, p, altFt, 0) == FirstContaining(volumes, p, altFt, j)
      {
        if Contains(volumes[j], p, altFt) {
          assert FirstHit(volumes, a, b, altFt, n, i, Some(volumes[j].id));
          return Some(volumes[j].id);
        }
      }
    }
    return None;
  }

  ghost predicate FirstHit(volumes: seq<Volume>, a: Point, b: Point, altFt: real, n: nat, i: nat, r: Option<string>)
    requires n > 0
  {
    && r == FirstContaining(volumes, SampleAt(a, b, n, i), altFt, 0)
    && forall k: nat, j :: k < i && 0 <= j < |volumes| ==> !Contains(volumes[j], SampleAt(a, b, n, k), altFt)
  }

  // ---------------------------------------------------------------- what a clear test guarantees

  lemma AxisIdentity(ax: real, bx: real, c: real, u: real)
    ensures Square(ax + (bx - ax) * u - c) ==
            (1.0 - u) * Square(ax - c) + u * Square(bx - c) - u * (1.0 - u) * Square(bx - ax)
  {
    var p, q := ax - c, bx - ax;
    assert bx - c == p + q && ax + q * u - c == p + q * u;
    var qu := q * u;
    assert (p + qu) * (p + qu) == p * p + 2.0 * (p * qu) + qu * qu;
    assert (p + q) * (p + q) == p * p + 2.0 * (p * q) + q * q;
    assert u * ((p + q) * (p + q)) == u * (p * p) + 2.0 * (u * (p * q)) + u * (q * q);
    assert p * qu == u * (p * q);
    assert qu * qu == u * u * (q * q);
    assert u * (1.0 - u) * (q * q) == u * (q * q) - u * u * (q * q);
    assert (1.0 - u) * (p * p) == p * p - u * (p * p);
  }

  lemma AddAxes(u: real, a1: real, b1: real, e1: real, a2: real, b2: real, e2: real)
    ensures ((1.0 - u) * a1 + u * b1 - u * (1.0 - u) * e1) + ((1.0 - u) * a2 + u * b2 - u * (1.0 - u) * e2) ==
            (1.0 - u) * (a1 + a2) + u * (b1 + b2) - u * (1.0 - u) * (e1 + e2)
  {
    var v, w := 1.0 - u, u * (1.0 - u);
    assert v * (a1 + a2) == v * a1 + v * a2;
    assert u * (b1 + b2) == u * b1 + u * b2;
    assert w * (e1 + e2) == w * e1 + w * e2;
  }

  /** Between two points outside a circle that are closer together than half its radius,
      nothing comes nearer to the centre than sqrt(15)/4 of the radius. */
  lemma BetweenOutsidePoints(c: Point, r2: real, p: Point, q: Point, u: real)
    requires 0.0 <= u <= 1.0
    requires DistanceSquared(p, c) > r2 && DistanceSquared(q, c) > r2 && 4.0 * DistanceSquared(q, p) <= r2
    ensures 16.0 * DistanceSquared(Along(p, q, u), c) > 15.0 * r2
  {
    AxisIdentity(p.x, q.x, c.x, u);
    AxisIdentity(p.y, q.y, c.y, u);
    AddAxes(u, Square(p.x - c.x), Square(q.x - c.x), Square(q.x - p.x), Square(p.y - c.y), Square(q.y - c.y),
        Square(q.y - p.y));
    MixBound(DistanceSquared(p, c), DistanceSquared(q, c), DistanceSquared(q, p), r2, u);
  }

  lemma MixAtLeast(dp: real, dq: real, low: real, u: real)
    requires 0.0 <= u <= 1.0 && low <= dp && low <= dq
    ensures (1.0 - u) * dp + u * dq >= low
  {
    ProductSign(1.0 - u, dp - low);
    ProductSign(u, dq - low);
    assert (1.0 - u) * (dp - low) + u * (dq - low) == (1.0 - u) * dp + u * dq - low;
  }

  lemma ProductAtMostQuarter(u: real, e: real)
    requires 0.0 <= u <= 1.0 && e >= 0.0
    ensures 4.0 * (u * (1.0 - u) * e) <= e
  {
    var w := u * (1.0 - u);
    assert Square(2.0 * u - 1.0) == 1.0 - 4.0 * w;
    MulMonotone(4.0 * w, 1.0, e);
    assert 4.0 * w * e == 4.0 * (w * e);
  }

  lemma MixBound(dp: real, dq: real, e: real, r2: real, u: real)
    requires 0.0 <= u <= 1.0 && dp > r2 && dq > r2 && 0.0 <= 4.0 * e <= r2
    ensures 16.0 * ((1.0 - u) * dp + u * dq - u * (1.0 - u) * e) > 15.0 * r2
  {
    MixAtLeast(dp, dq, if dp <= dq then dp else dq, u);
    ProductAtMostQuarter(u, e);
  }

  /** The stretches are as many as it takes to stay below the sample distance with one to spare, and
      two at least. */
  lemma StretchesAre(d: real, sample: real)
    requires sample > 0.0 && d >= 0.0
    ensures var n := Stretches(d, sample);
            && d <= sample * ((n - 1) as real)
            && (n > 2 ==> sample * ((n - 2) as real) < d)
  {
    var n := Stretches(d, sample);
    var q := d / sample;
    assert q * sample == d;
    MulMonotone(q, (n - 1) as real, sample);
    if n > 2 {
      assert (n - 2) as real < q;
      var p := PositiveProduct(q - (n - 2) as real, sample);
      assert p == q * sample - sample * ((n - 2) as real);
    }
  }

  /** The samples start at one end of the leg, finish at the other and are evenly spaced. */
  lemma SamplesAre(a: Point, b: Point, n: nat, i: nat)
    requires n > 0 && i < n
    ensures SampleAt(a, b, n, 0) == a && SampleAt(a, b, n, n) == b
    ensures var p, q := SampleAt(a, b, n, i), SampleAt(a, b, n, i + 1);
            && (q.x - p.x) * (n as real) == b.x - a.x
            && (q.y - p.y) * (n as real) == b.y - a.y
  {
    var m := n as real;
    QuotientIs(0.0, m, 0.0);
    QuotientIs(m, m, 1.0);
    NextShare(i as real, m);
    assert (i + 1) as real == i as real + 1.0;
    OneStep(a.x, b.x - a.x, (i as real) / m, ((i + 1) as real) / m, m);
    OneStep(a.y, b.y - a.y, (i as real) / m, ((i + 1) as real) / m, m);
  }

  lemma OneStep(a: real, d: real, s0: real, s1: real, m: real)
    requires m > 0.0 && s1 - s0 == 1.0 / m
    ensures (a + d * s1 - (a + d * s0)) * m == d
  {
    var h := 1.0 / m;
    assert h * m == 1.0;
    assert d * s1 - d * s0 == d * h;
    assert d * h * m == d * (h * m);
  }

  /** The sample distance is half the radius of the smallest permanent circle, or 0.35 NM. */
  lemma SampleDistanceIs(hazards: seq<Volume>)
    ensures (forall v :: v in hazards ==> v.Polygon?) ==> SampleNm(hazards) == 0.35
    ensures (exists v :: v in hazards && v.Circle?) ==>
              && (exists v :: v in hazards && v.Circle? && v.radius == 2.0 * SampleNm(hazards))
              && (forall v :: v in hazards && v.Circle? ==> v.radius >= 2.0 * SampleNm(hazards))
  {
  }

  /** Consecutive samples are closer together than the sample distance. */
  lemma Spacing(d: real, sample: real)
    requires sample > 0.0 && d >= 0.0
    ensures d < sample * (Stretches(d, sample) as real)
  {
    var n := Stretches(d, sample);
    var q := d / sample;
    assert q * sample == d;
    assert q < n as real;
    assert (n as real - q) * sample > 0.0;
  }

  lemma NextShare(i: real, m: real)
    requires m > 0.0
    ensures (i + 1.0) / m - i / m == 1.0 / m
  {
    var h := 1.0 / m;
    assert h * m == 1.0;
    assert i * h * m == i && (i + 1.0) * h * m == i + 1.0;
    QuotientIs(i, m, i * h);
    QuotientIs(i + 1.0, m, (i + 1.0) * h);
  }

  lemma StretchLength(a: Point, b: Point, d: real, n: nat, i: nat, sample: real)
    requires n > 0 && i < n && d * d == DistanceSquared(b, a) && 0.0 <= d < sample * (n as real)
    ensures DistanceSquared(SampleAt(a, b, n, i + 1), SampleAt(a, b, n, i)) <= sample * sample
  {
    var m := n as real;
    var h := 1.0 / m;
    NextShare(i as real, m);
    ScaledDistance(a, b, (i as real) / m, ((i + 1) as real) / m, h);
    ShortStretch(d, m, h, sample);
  }

  lemma ShortStretch(d: real, m: real, h: real, sample: real)
    requires m > 0.0 && h == 1.0 / m && 0.0 <= d < sample * m
    ensures d * d * (h * h) <= sample * sample
  {
    var e := d / m;
    assert h * m == 1.0;
    assert d * h * m == d;
    QuotientIs(d, m, d * h);
    QuotientLess(d, m, sample);
    assert e * m == d;
    assert e >= 0.0 by { assert e < 0.0 ==> e * m < 0.0; }
    MulMonotone(e, sample, e);
    MulMonotone(e, sample, sample);
    assert e * e == d * d * (h * h) by { assert (d * h) * (d * h) == d * d * (h * h); }
  }

  lemma ScaledDistance(a: Point, b: Point, s0: real, s1: real, h: real)
    requires s1 - s0 == h
    ensures DistanceSquared(Along(a, b, s1), Along(a, b, s0)) == DistanceSquared(b, a) * (h * h)
  {
    var dx, dy := b.x - a.x, b.y - a.y;
    assert dx * s1 - dx * s0 == dx * h;
    assert dy * s1 - dy * s0 == dy * h;
    assert (dx * h) * (dx * h) == dx * dx * (h * h);
    assert (dy * h) * (dy * h) == dy * dy * (h * h);
  }

  lemma FindStretch(n: nat, s: real) returns (i: nat, u: real)
    requires n > 0 && 0.0 <= s <= 1.0
    ensures i < n && 0.0 <= u <= 1.0 && s * (n as real) == i as real + u
  {
    var m := n as real;
    var x := s * m;
    MulMonotone(0.0, s, m);
    MulMonotone(s, 1.0, m);
    assert 0.0 <= x <= m;
    i := if x == m then n - 1 else x.Floor;
    u := x - i as real;
  }

  lemma ShareOfStretch(i: real, m: real, u: real, s: real)
    requires m > 0.0 && s * m == i + u
    ensures s == i / m + ((i + 1.0) / m - i / m) * u
  {
    NextShare(i, m);
    var h := 1.0 / m;
    assert h * m == 1.0;
    QuotientIs(i, m, i * h);
    assert (i * h + h * u) * m == i * (h * m) + u * (h * m);
    assert (s - (i * h + h * u)) * m == 0.0;
  }

  /** Any point of the leg lies between two consecutive samples. */
  lemma OnStretch(a: Point, b: Point, n: nat, s: real) returns (i: nat, u: real)
    requires n > 0 && 0.0 <= s <= 1.0
    ensures i < n && 0.0 <= u <= 1.0
    ensures Along(a, b, s) == Along(SampleAt(a, b, n, i), SampleAt(a, b, n, i + 1), u)
  {
    i, u := FindStretch(n, s);
    var m := n as real;
    ShareOfStretch(i as real, m, u, s);
    assert (i + 1) as real == i as real + 1.0;
    StretchPoint(a, b, s, (i as real) / m, ((i + 1) as real) / m, u);
  }

  lemma StretchPoint(a: Point, b: Point, s: real, s0: real, s1: real, u: real)
    requires s == s0 + (s1 - s0) * u
    ensures Along(a, b, s) == Along(Along(a, b, s0), Along(a, b, s1), u)
  {
    var p, q := Along(a, b, s0), Along(a, b, s1);
    MixedPoint(a.x, b.x - a.x, p.x, q.x, s, s0, s1, u);
    MixedPoint(a.y, b.y - a.y, p.y, q.y, s, s0, s1, u);
  }

  lemma MixedPoint(a: real, d: real, p: real, q: real, s: real, s0: real, s1: real, u: real)
    requires s == s0 + (s1 - s0) * u && p == a + d * s0 && q == a + d * s1
    ensures a + d * s == p + (q - p) * u
  {
    var h := s1 - s0;
    assert q - p == d * h;
    assert d * h * u == d * (h * u);
    assert d * s == d * s0 + d * (h * u);
  }

  /** The bound. If the test clears a leg, no point of it comes closer to the centre of a full
      circle that is active at the altitude, and at least twice the sample distance in radius,
      than sqrt(15)/4 of that radius. */
  lemma ClearLegKeepsDistance(volumes: seq<Volume>, sample: real, a: Point, b: Point, d: real, altFt: real, j: nat,
                              s: real)
    requires sample > 0.0 && d >= 0.0 && d * d == DistanceSquared(b, a)
    requires SamplesClear(volumes, a, b, altFt, Stretches(d, sample))
    requires j < |volumes| && volumes[j].Circle? && volumes[j].inner == 0.0 && volumes[j].radius >= 2.0 * sample
    requires volumes[j].lowerFt <= altFt <= volumes[j].upperFt && 0.0 <= s <= 1.0
    ensures 16.0 * DistanceSquared(Along(a, b, s), volumes[j].center) > 15.0 * Square(volumes[j].radius)
  {
    var n := Stretches(d, sample);
    var i, u := OnStretch(a, b, n, s);
    var r2 := NeighbourSamples(sample, a, b, d, volumes[j].radius, i);
    SampleOutside(volumes, a, b, altFt, n, j, i);
    SampleOutside(volumes, a, b, altFt, n, j, i + 1);
    BetweenOutsidePoints(volumes[j].center, r2, SampleAt(a, b, n, i), SampleAt(a, b, n, i + 1), u);
  }

  lemma NeighbourSamples(sample: real, a: Point, b: Point, d: real, radius: real, i: nat) returns (r2: real)
    requires sample > 0.0 && d >= 0.0 && d * d == DistanceSquared(b, a) && radius >= 2.0 * sample
    requires i < Stretches(d, sample)
    ensures r2 == Square(radius)
    ensures var n := Stretches(d, sample); 4.0 * DistanceSquared(SampleAt(a, b, n, i + 1), SampleAt(a, b, n, i)) <= r2
  {
    var s2;
    s2, r2 := RadiusBound(sample, radius);
    Spacing(d, sample);
    StretchLength(a, b, d, Stretches(d, sample), i, sample);
  }

  lemma SampleOutside(volumes: seq<Volume>, a: Point, b: Point, altFt: real, n: nat, j: nat, i: nat)
    requires n > 0 && SamplesClear(volumes, a, b, altFt, n) && i <= n
    requires j < |volumes| && volumes[j].Circle? && volumes[j].inner == 0.0 &&
             volumes[j].lowerFt <= altFt <= volumes[j].upperFt
    ensures DistanceSquared(SampleAt(a, b, n, i), volumes[j].center) > Square(volumes[j].radius)
  {
    assert !Contains(volumes[j], SampleAt(a, b, n, i), altFt);
    assert Square(volumes[j].inner) == 0.0;
  }

  lemma RadiusBound(sample: real, radius: real) returns (s2: real, r2: real)
    requires 0.0 < 2.0 * sample <= radius
    ensures s2 == sample * sample && r2 == Square(radius) && 4.0 * s2 <= r2
  {
    var t := 2.0 * sample;
    s2, r2 := sample * sample, Square(radius);
    MulMonotone(t, radius, t);
    MulMonotone(t, radius, radius);
    assert t * t == 4.0 * (sample * sample);
  }

  /** For the permanent hazards the sample distance is small enough by construction. */
  lemma HazardsAreCovered(hazards: seq<Volume>, j: nat)
    requires j < |hazards| && hazards[j].Circle?
    ensures hazards[j].radius >= 2.0 * SampleNm(hazards)
  {
    assert hazards[j] in hazards;
  }

  // ---------------------------------------------------------------- when a cleared leg is clear

  /** The share of the leg at the foot of the perpendicular from c, or at the nearer end. */
  function Foot(a: Point, b: Point, c: Point): (s: real)
    ensures 0.0 <= s <= 1.0
  {
    if DistanceSquared(b, a) == 0.0 then 0.0
    else Max(0.0, Min(1.0, -Lean(a, b, c) / DistanceSquared(b, a)))
  }

  /** How far the leg heads away from c at its start. */
  function Lean(a: Point, b: Point, c: Point): real {
    (a.x - c.x) * (b.x - a.x) + (a.y - c.y) * (b.y - a.y)
  }

  function Parabola(q: real, l: real, k: real, s: real): real {
    q * s * s + 2.0 * l * s + k
  }

  lemma AxisParabola(a: real, b: real, c: real, s: real)
    ensures Square(a + (b - a) * s - c) == Parabola(Square(b - a), (a - c) * (b - a), Square(a - c), s)
  {
    var p, q := a - c, b - a;
    var t := q * s;
    assert a + t - c == p + t;
    assert (p + t) * (p + t) == p * p + 2.0 * (p * t) + t * t;
    assert p * t == p * q * s;
    assert t * t == q * q * s * s;
  }

  lemma AddParabolas(q1: real, l1: real, k1: real, q2: real, l2: real, k2: real, s: real)
    ensures Parabola(q1, l1, k1, s) + Parabola(q2, l2, k2, s) == Parabola(q1 + q2, l1 + l2, k1 + k2, s)
  {
    assert (q1 + q2) * s == q1 * s + q2 * s;
    assert (q1 * s + q2 * s) * s == q1 * s * s + q2 * s * s;
    assert (l1 + l2) * s == l1 * s + l2 * s;
  }

  lemma LegIsQuadratic(a: Point, b: Point, c: Point, s: real)
    ensures DistanceSquared(Along(a, b, s), c) ==
            Parabola(DistanceSquared(b, a), Lean(a, b, c), DistanceSquared(a, c), s)
  {
    AxisParabola(a.x, b.x, c.x, s);
    AxisParabola(a.y, b.y, c.y, s);
    AddParabolas(Square(b.x - a.x), (a.x - c.x) * (b.x - a.x), Square(a.x - c.x),
                 Square(b.y - a.y), (a.y - c.y) * (b.y - a.y), Square(a.y - c.y), s);
  }

  /** No point of the leg is nearer to c than the foot. */
  lemma FootIsNearest(a: Point, b: Point, c: Point, s: real)
    requires 0.0 <= s <= 1.0
    ensures DistanceSquared(Along(a, b, Foot(a, b, c)), c) <= DistanceSquared(Along(a, b, s), c)
  {
    if DistanceSquared(b, a) == 0.0 {
      PointLeg(a, b, s);
    } else {
      LegIsQuadratic(a, b, c, Foot(a, b, c));
      LegIsQuadratic(a, b, c, s);
      Clamped(DistanceSquared(b, a), Lean(a, b, c), DistanceSquared(a, c), s);
    }
  }

  /** The vertex of a parabola that opens upwards, clamped to the unit interval. */
  lemma Clamped(q: real, l: real, k: real, s: real)
    requires q > 0.0 && 0.0 <= s <= 1.0
    ensures Parabola(q, l, k, Max(0.0, Min(1.0, -l / q))) <= Parabola(q, l, k, s)
  {
    var vertex := -l / q;
    assert vertex * q == -l;
    ClosestApproach.ClampedVertex(q, 2.0 * l, k, vertex, Max(0.0, Min(1.0, vertex)), s);
  }

  lemma PointLeg(a: Point, b: Point, s: real)
    requires DistanceSquared(b, a) == 0.0
    ensures Along(a, b, s) == a == Along(a, b, 0.0)
  {
    var dx, dy := b.x - a.x, b.y - a.y;
    var x2 := SquarePositive(dx);
    var y2 := SquarePositive(dy);
  }

  ghost predicate FullCircle(v: Volume) {
    v.Circle? && v.inner == 0.0
  }

  /** The leg enters a full circle exactly when the foot from its centre lies in it. */
  lemma EntersIff(v: Volume, a: Point, b: Point, altFt: real)
    requires FullCircle(v)
    ensures Enters(v, a, b, altFt) <==> Contains(v, Along(a, b, Foot(a, b, v.center)), altFt)
  {
    forall s | 0.0 <= s <= 1.0 && Contains(v, Along(a, b, s), altFt)
      ensures Contains(v, Along(a, b, Foot(a, b, v.center)), altFt)
    {
      FootIsNearest(a, b, v.center, s);
      SquareOf(0.0, 0.0);
    }
  }

  ghost predicate Enters(v: Volume, a: Point, b: Point, altFt: real) {
    exists s :: 0.0 <= s <= 1.0 && Contains(v, Along(a, b, s), altFt)
  }

  ghost predicate LegClear(volumes: seq<Volume>, a: Point, b: Point, altFt: real) {
    forall v :: v in volumes ==> !Enters(v, a, b, altFt)
  }

  ghost predicate FeetClear(volumes: seq<Volume>, a: Point, b: Point, altFt: real) {
    forall v :: v in volumes && v.Circle? ==> !Contains(v, Along(a, b, Foot(a, b, v.center)), altFt)
  }

  /** Among full circles a leg is clear exactly when no foot lies in its circle, a clear leg is
      always cleared, and the test is wrong about a leg exactly when every sample is clear and
      some foot is not. */
  lemma ClearedWronglyIff(volumes: seq<Volume>, a: Point, b: Point, altFt: real, n: nat)
    requires n > 0 && forall v :: v in volumes ==> FullCircle(v)
    ensures LegClear(volumes, a, b, altFt) <==> FeetClear(volumes, a, b, altFt)
    ensures LegClear(volumes, a, b, altFt) ==> SamplesClear(volumes, a, b, altFt, n)
    ensures !(SamplesClear(volumes, a, b, altFt, n) <==> LegClear(volumes, a, b, altFt)) <==>
            SamplesClear(volumes, a, b, altFt, n) && !FeetClear(volumes, a, b, altFt)
  {
    forall v | v in volumes
      ensures Enters(v, a, b, altFt) <==> Contains(v, Along(a, b, Foot(a, b, v.center)), altFt)
    {
      EntersIff(v, a, b, altFt);
    }
    forall i: nat, j | i <= n && 0 <= j < |volumes| && Contains(volumes[j], SampleAt(a, b, n, i), altFt)
      ensures Enters(volumes[j], a, b, altFt)
    {
      SampleOnLeg(i as real, n as real);
    }
  }

  lemma SampleOnLeg(i: real, n: real)
    requires 0.0 <= i <= n && n > 0.0
    ensures 0.0 <= i / n <= 1.0
  {
    QuotientLess(i, n, 0.0);
    QuotientLess(i, n, 1.0);
  }

  /** A unit circle, active at 1000 ft, whose edge dips 0.01 NM below the leg from (0, 0) to (1, 0). */
  predicate Dips(v: Volume) {
    v.Circle? && v.center == Point(0.5, 0.99) && v.radius == 1.0 && v.inner == 0.0 && v.lowerFt <= 1000.0 <= v.upperFt
  }

  const LEG_START := Point(0.0, 0.0)
  const LEG_END := Point(1.0, 0.0)

  /** The test is not exact: a leg can cut through a hazard between two samples, here between the
      second and the third. */
  lemma GrazingLegIsMissed(v: Volume)
    requires Dips(v)
    ensures SampleNm([v]) == 0.5 && Stretches(1.0, 0.5) == 3
    ensures SamplesClear([v], LEG_START, LEG_END, 1000.0, 3) && Contains(v, Along(LEG_START, LEG_END, 0.5), 1000.0)
  {
    GrazingSamples();
    OneCircle(v);
    SamplesMissDip(v);
    MiddleInDip(v);
  }

  lemma SamplesMissDip(v: Volume)
    requires Dips(v)
    ensures SamplesClear([v], LEG_START, LEG_END, 1000.0, 3)
  {
    forall i: nat | i <= 3 ensures !Contains(v, SampleAt(LEG_START, LEG_END, 3, i), 1000.0) {
      SampleInDip(v, i);
    }
  }

  lemma OneCircle(v: Volume)
    requires v.Circle? && v.radius == 1.0
    ensures SampleNm([v]) == 0.5
  {
    assert SmallestRadius([v][1..]) == None;
  }

  lemma SampleInDip(v: Volume, i: nat)
    requires Dips(v) && i <= 3
    ensures !Contains(v, SampleAt(LEG_START, LEG_END, 3, i), 1000.0)
  {
    Third(i);
    OnAxis((i as real) / 3.0);
    InDip(v, (i as real) / 3.0);
  }

  lemma Third(i: nat)
    ensures (i as real) / 3.0 <= 1.0 / 3.0 || (i as real) / 3.0 >= 2.0 / 3.0
  {
    assert i <= 1 || i >= 2;
  }

  lemma MiddleInDip(v: Volume)
    requires Dips(v)
    ensures Contains(v, Along(LEG_START, LEG_END, 0.5), 1000.0)
  {
    OnAxis(0.5);
    InDip(v, 0.5);
  }

  lemma GrazingSamples()
    ensures Stretches(1.0, 0.5) == 3
  {
    QuotientIs(1.0, 0.5, 2.0);
    assert Ceiling(2.0) == 2;
  }

  lemma OnAxis(t: real)
    ensures Along(LEG_START, LEG_END, t) == Point(t, 0.0)
  {
  }

  /** Points of the leg inside the circle are close to the middle. */
  lemma InDip(v: Volume, t: real)
    requires Dips(v)
    ensures t == 0.5 ==> Contains(v, Point(t, 0.0), 1000.0)
    ensures t <= 1.0 / 3.0 || t >= 2.0 / 3.0 ==> !Contains(v, Point(t, 0.0), 1000.0)
  {
    var x2 := Square(t - 0.5);
    DipDistance(t, x2);
    OffMiddle(t - 0.5, x2);
    InUnitCircle(v, Point(t, 0.0), x2 + 0.9801);
  }

  lemma DipDistance(t: real, x2: real)
    requires x2 == Square(t - 0.5)
    ensures DistanceSquared(Point(t, 0.0), Point(0.5, 0.99)) == x2 + 0.9801
  {
    SquareOf(-0.99, 0.9801);
  }

  lemma InUnitCircle(v: Volume, p: Point, d2: real)
    requires Dips(v) && d2 == DistanceSquared(p, v.center) && d2 >= 0.0
    ensures Contains(v, p, 1000.0) <==> d2 <= 1.0
  {
    SquareOf(1.0, 1.0);
    SquareOf(0.0, 0.0);
  }

  lemma SquareOf(x: real, s: real)
    requires s == x * x
    ensures Square(x) == s
  {
  }

  lemma OffMiddle(x: real, x2: real)
    requires x2 == Square(x)
    ensures x == 0.0 ==> x2 == 0.0
    ensures x >= 1.0 / 6.0 || x <= -1.0 / 6.0 ==> x2 >= 1.0 / 36.0
  {
    if x >= 1.0 / 6.0 {
      MulMonotone(1.0 / 6.0, x, x);
    } else if x <= -1.0 / 6.0 {
      MulMonotone(1.0 / 6.0, -x, -x);
      assert (-x) * (-x) == x * x;
    }
  }
}
