/** Conflict windows when aircraft level off at an assigned altitude: the relative altitude is
    piecewise linear, so the band inequality is solved piece by piece. */
module LevelOff {
  import opened Options
  import opened RealFacts
  import opened Geometry

  datatype Profile = Profile(alt: real, fpm: real, target: Option<real>)

  function LevelOffTime(p: Profile): Option<real> {
    if p.target == None || p.fpm == 0.0 then None
    else
      var remaining := p.target.value - p.alt;
      if remaining == 0.0 then Some(0.0)
      else if remaining * p.fpm <= 0.0 then None
      else Some(remaining / p.fpm * 60.0)
  }

  function AltitudeAt(p: Profile, t: real): real {
    var alt := p.alt + p.fpm * t / 60.0;
    if p.target == None then alt
    else if p.fpm > 0.0 then Min(alt, Max(p.target.value, p.alt))
    else if p.fpm < 0.0 then Max(alt, Min(p.target.value, p.alt))
    else alt
  }

  /** Feet per second at time t and until the next level-off. */
  function SlopeFrom(p: Profile, t: real): real {
    match p.target
    case None => p.fpm / 60.0
    case Some(target) =>
      if p.fpm > 0.0 && p.alt + p.fpm * t / 60.0 >= Max(target, p.alt) then 0.0
      else if p.fpm < 0.0 && p.alt + p.fpm * t / 60.0 <= Min(target, p.alt) then 0.0
      else p.fpm / 60.0
  }

  predicate LevelsOffWithin(p: Profile, t0: real, t1: real) {
    var t := LevelOffTime(p);
    t.Some? && t0 < t.value < t1
  }

  /** The altitude without level-off. */
  function Free(p: Profile, t: real): real {
    p.alt + p.fpm * t / 60.0
  }

  lemma FreeIsLinear(p: Profile, t0: real, t: real)
    ensures Free(p, t) == Free(p, t0) + p.fpm / 60.0 * (t - t0)
  {
    assert p.fpm * t == p.fpm * t0 + p.fpm * (t - t0);
  }

  /** The level-off time is when the free altitude reaches the target. */
  lemma ReachesTarget(p: Profile, t: real)
    requires p.fpm != 0.0 && p.target.Some? && (p.target.value - p.alt) * p.fpm > 0.0
    ensures LevelOffTime(p).Some?
    ensures p.fpm > 0.0 ==> (t < LevelOffTime(p).value <==> Free(p, t) < p.target.value)
    ensures p.fpm < 0.0 ==> (t < LevelOffTime(p).value <==> Free(p, t) > p.target.value)
  {
    var remaining := p.target.value - p.alt;
    assert p.fpm * t / 60.0 == t / 60.0 * p.fpm;
    if p.fpm > 0.0 {
      QuotientLess(remaining, p.fpm, t / 60.0);
      QuotientLess(remaining, p.fpm, t / 60.0);
    } else {
      QuotientNegated(remaining, p.fpm);
      QuotientLess(-remaining, -p.fpm, t / 60.0);
    }
    var q := remaining / p.fpm;
    assert t < q * 60.0 <==> t / 60.0 < q;
  }

  lemma ClimbingPiece(p: Profile, t0: real, t1: real, t: real)
    requires p.fpm > 0.0 && p.target.Some?
    requires 0.0 <= t0 <= t <= t1 && t0 < t1 && !LevelsOffWithin(p, t0, t1)
    ensures AltitudeAt(p, t) == AltitudeAt(p, t0) + SlopeFrom(p, t0) * (t - t0)
  {
    FreeIsLinear(p, t0, t);
    TargetSide(p);
    if p.target.value > p.alt {
      ReachesTarget(p, t0);
      ReachesTarget(p, t);
    } else {
      SignsOfMotion(p, t0);
      SignsOfMotion(p, t);
    }
  }

  lemma DescendingPiece(p: Profile, t0: real, t1: real, t: real)
    requires p.fpm < 0.0 && p.target.Some?
    requires 0.0 <= t0 <= t <= t1 && t0 < t1 && !LevelsOffWithin(p, t0, t1)
    ensures AltitudeAt(p, t) == AltitudeAt(p, t0) + SlopeFrom(p, t0) * (t - t0)
  {
    FreeIsLinear(p, t0, t);
    TargetSide(p);
    if p.target.value < p.alt {
      ReachesTarget(p, t0);
      ReachesTarget(p, t);
    } else {
      SignsOfMotion(p, t0);
      SignsOfMotion(p, t);
    }
  }

  /** Between two times with no level-off strictly between them the altitude is linear. */
  lemma LinearPiece(p: Profile, t0: real, t1: real, t: real)
    requires 0.0 <= t0 <= t <= t1 && t0 < t1 && !LevelsOffWithin(p, t0, t1)
    ensures AltitudeAt(p, t) == AltitudeAt(p, t0) + SlopeFrom(p, t0) * (t - t0)
  {
    if p.target == None || p.fpm == 0.0 {
      FreeIsLinear(p, t0, t);
    } else if p.fpm > 0.0 {
      ClimbingPiece(p, t0, t1, t);
    } else {
      DescendingPiece(p, t0, t1, t);
    }
  }

  lemma SignsOfMotion(p: Profile, t: real)
    requires t >= 0.0
    ensures p.fpm > 0.0 ==> p.fpm * t / 60.0 >= 0.0
    ensures p.fpm < 0.0 ==> p.fpm * t / 60.0 <= 0.0
  {
  }

  lemma TargetSide(p: Profile)
    requires p.target.Some?
    ensures var d := p.target.value - p.alt;
            && (p.fpm > 0.0 ==> (d * p.fpm > 0.0 <==> d > 0.0))
            && (p.fpm < 0.0 ==> (d * p.fpm > 0.0 <==> d < 0.0))
  {
  }

  // ---------------------------------------------------------------- breakpoints

  function WithinHorizon(t: Option<real>, horizon: real): seq<real> {
    if t.Some? && 0.0 < t.value < horizon then [t.value] else []
  }

  /** The level-off times strictly inside the horizon, ascending and without repetition. */
  function Kinks(a: Profile, b: Profile, horizon: real): seq<real> {
    var s, t := WithinHorizon(LevelOffTime(a), horizon), WithinHorizon(LevelOffTime(b), horizon);
    if s == [] then t
    else if t == [] || s == t then s
    else if s[0] < t[0] then s + t
    else t + s
  }

  function Breakpoints(a: Profile, b: Profile, horizon: real): (bp: seq<real>)
    requires horizon >= 0.0
    ensures 1 <= |bp| <= 4 && bp[0] == 0.0 && bp[|bp| - 1] == horizon
    ensures forall i, j :: 0 <= i < j < |bp| ==> bp[i] < bp[j]
    ensures forall i :: 0 <= i < |bp| - 1 ==>
            !LevelsOffWithin(a, bp[i], bp[i + 1]) && !LevelsOffWithin(b, bp[i], bp[i + 1])
  {
    if horizon == 0.0 then [0.0] else [0.0] + Kinks(a, b, horizon) + [horizon]
  }

  lemma {:induction false} PieceOf(bp: seq<real>, t: real, n: nat) returns (k: nat)
    requires 1 <= n < |bp| && bp[0] <= t <= bp[n]
    ensures k < n && bp[k] <= t <= bp[k + 1]
  {
    if n == 1 || bp[n - 1] <= t {
      k := n - 1;
    } else {
      k := PieceOf(bp, t, n - 1);
    }
  }

  // ---------------------------------------------------------------- one piece

  /** The part of [t0, t1] in which a difference of r0 at t0, changing at rate vz, is inside
      the band. */
  function PieceWithRate(r0: real, vz: real, t0: real, t1: real, vMin: real): Option<(real, real)> {
    if -EPS < vz < EPS then
      if -vMin < r0 < vMin then Some((t0, t1)) else None
    else
      var band := BandTimes(r0, vz, vMin);
      var lo, hi := Max(band.0, 0.0) + t0, Min(band.1, t1 - t0) + t0;
      if lo < hi then Some((lo, hi)) else None
  }

  function PieceInterval(r0: real, r1: real, t0: real, t1: real, vMin: real): Option<(real, real)>
    requires t0 < t1
  {
    PieceWithRate(r0, (r1 - r0) / (t1 - t0), t0, t1, vMin)
  }

  predicate Clear(vz: real) {
    vz == 0.0 || vz >= 0.000000000001 || vz <= -0.000000000001
  }

  /** The difference at t as the zero test sees it: a rate too small to pass counts as zero. */
  function SeenAt(r0: real, vz: real, t0: real, t: real): real {
    if -EPS < vz < EPS then r0 else r0 + vz * (t - t0)
  }

  /** The piece is exact up to its ends: strictly inside its interval the band is violated,
      and every violating time of the piece lies in the interval, ends included. */
  lemma PieceExact(r0: real, vz: real, t0: real, t1: real, vMin: real, t: real)
    requires t0 < t1 && vMin >= 0.0 && t0 <= t <= t1
    ensures var p, r := PieceWithRate(r0, vz, t0, t1, vMin), SeenAt(r0, vz, t0, t);
            && (-vMin < r < vMin ==> p.Some? && p.value.0 <= t <= p.value.1)
            && (p.Some? && p.value.0 < t < p.value.1 ==> -vMin < r < vMin)
            && (p.Some? ==> t0 <= p.value.0 < p.value.1 <= t1)
  {
    if !(-EPS < vz < EPS) {
      SeenBand(r0, vz, t0, t, vMin);
      BandPiece(BandTimes(r0, vz, vMin), PieceWithRate(r0, vz, t0, t1, vMin), -vMin < SeenAt(r0, vz, t0, t) < vMin, t0,
          t1, t);
    }
  }

  lemma SeenBand(r0: real, vz: real, t0: real, t: real, vMin: real)
    requires !(-EPS < vz < EPS) && vMin >= 0.0
    ensures var band := BandTimes(r0, vz, vMin);
            (-vMin < SeenAt(r0, vz, t0, t) < vMin <==> band.0 < t - t0 < band.1) && band.0 <= band.1
  {
    BandExact(r0, vz, vMin, t - t0);
  }

  lemma BandPiece(band: (real, real), p: Option<(real, real)>, inside: bool, t0: real, t1: real, t: real)
    requires t0 < t1 && t0 <= t <= t1 && band.0 <= band.1 && (inside <==> band.0 < t - t0 < band.1)
    requires var lo, hi := Max(band.0, 0.0) + t0, Min(band.1, t1 - t0) + t0; p == if lo < hi then Some((lo, hi))
             else None
    ensures inside ==> p.Some? && p.value.0 <= t <= p.value.1
    ensures p.Some? && p.value.0 < t < p.value.1 ==> inside
    ensures p.Some? ==> t0 <= p.value.0 < p.value.1 <= t1
  {
    BandCut(band.0, band.1, t0, t1, t);
  }

  /** Cutting an open interval of times after t0 to the piece. */
  lemma BandCut(b0: real, b1: real, t0: real, t1: real, t: real)
    requires t0 < t1 && t0 <= t <= t1 && b0 <= b1
    ensures var lo, hi := Max(b0, 0.0) + t0, Min(b1, t1 - t0) + t0;
            && (b0 < t - t0 < b1 ==> lo < hi && lo <= t <= hi)
            && (lo < t < hi ==> b0 < t - t0 < b1)
            && (lo < hi ==> t0 <= lo && hi <= t1)
  {
  }

  // ---------------------------------------------------------------- pieces of one altitude difference

  /** An altitude difference as a function of time. */
  type Difference = real -> real

  ghost predicate LinearOn(g: Difference, t0: real, t1: real, rate: real) {
    forall t: real :: t0 <= t <= t1 ==> g(t) == g(t0) + rate * (t - t0)
  }

  predicate Ascending(bp: seq<real>) {
    forall i, j :: 0 <= i < j < |bp| ==> bp[i] < bp[j]
  }

  predicate InBand(g: Difference, vMin: real, t: real) {
    -vMin < g(t) < vMin
  }

  /** The rate of the difference on the stretch after breakpoint k. */
  function RateOn(g: Difference, bp: seq<real>, k: nat): real
    requires k + 1 < |bp| && Ascending(bp)
  {
    (g(bp[k + 1]) - g(bp[k])) / (bp[k + 1] - bp[k])
  }

  ghost predicate PiecewiseLinear(g: Difference, bp: seq<real>)
    requires Ascending(bp)
  {
    forall k: nat :: k + 1 < |bp| ==> LinearOn(g, bp[k], bp[k + 1], RateOn(g, bp, k))
  }

  /** t lies on stretch k and the difference as the zero test sees it there is in the band. */
  predicate SeenOn(g: Difference, bp: seq<real>, vMin: real, k: nat, t: real)
    requires k + 1 < |bp| && Ascending(bp)
  {
    bp[k] <= t <= bp[k + 1] && -vMin < (if -EPS < RateOn(g, bp, k) < EPS then g(bp[k]) else g(t)) < vMin
  }

  /** In the band, on one of the first n stretches, as the zero test sees it. */
  predicate SeenInBand(g: Difference, bp: seq<real>, vMin: real, n: nat, t: real)
    requires n < |bp| && Ascending(bp)
  {
    exists k :: 0 <= k < n && SeenOn(g, bp, vMin, k, t)
  }

  function PieceAt(g: Difference, bp: seq<real>, vMin: real, k: nat): Option<(real, real)>
    requires k + 1 < |bp| && Ascending(bp)
  {
    PieceInterval(g(bp[k]), g(bp[k + 1]), bp[k], bp[k + 1], vMin)
  }

  lemma PieceAtExact(g: Difference, bp: seq<real>, vMin: real, k: nat, t: real)
    requires vMin >= 0.0 && Ascending(bp) && PiecewiseLinear(g, bp)
    requires k + 1 < |bp| && bp[k] <= t <= bp[k + 1]
    ensures var p := PieceAt(g, bp, vMin, k);
            && (SeenOn(g, bp, vMin, k, t) ==> p.Some? && p.value.0 <= t <= p.value.1)
            && (p.Some? && p.value.0 < t < p.value.1 ==> SeenOn(g, bp, vMin, k, t))
            && (p.Some? ==> bp[k] <= p.value.0 < p.value.1 <= bp[k + 1])
  {
    PieceExact(g(bp[k]), RateOn(g, bp, k), bp[k], bp[k + 1], vMin, t);
    StretchValue(g, bp, k, t);
  }

  /** The difference at t as the zero test sees it on stretch k. */
  lemma StretchValue(g: Difference, bp: seq<real>, k: nat, t: real)
    requires Ascending(bp) && PiecewiseLinear(g, bp) && k + 1 < |bp| && bp[k] <= t <= bp[k + 1]
    ensures SeenAt(g(bp[k]), RateOn(g, bp, k), bp[k], t) == if -EPS < RateOn(g, bp, k) < EPS then g(bp[k]) else g(t)
  {
    assert LinearOn(g, bp[k], bp[k + 1], RateOn(g, bp, k));
  }

  /** Where every stretch has a clear rate, nothing is lost. */
  lemma {:induction false} ClearIsSeen(g: Difference, bp: seq<real>, vMin: real, t: real)
    requires Ascending(bp) && PiecewiseLinear(g, bp) && |bp| > 1 && bp[0] <= t <= bp[|bp| - 1]
    requires forall k: nat :: k + 1 < |bp| ==> Clear(RateOn(g, bp, k))
    ensures SeenInBand(g, bp, vMin, |bp| - 1, t) <==> InBand(g, vMin, t)
  {
    forall k: nat | k + 1 < |bp| && bp[k] <= t <= bp[k + 1] ensures SeenOn(g, bp, vMin, k, t) <==> InBand(g, vMin, t) {
      ClearStretch(g, bp, vMin, k, t);
    }
    var k := PieceOf(bp, t, |bp| - 1);
    assert SeenOn(g, bp, vMin, k, t) <==> InBand(g, vMin, t);
  }

  lemma ClearStretch(g: Difference, bp: seq<real>, vMin: real, k: nat, t: real)
    requires Ascending(bp) && PiecewiseLinear(g, bp) && k + 1 < |bp| && bp[k] <= t <= bp[k + 1] &&
             Clear(RateOn(g, bp, k))
    ensures SeenOn(g, bp, vMin, k, t) <==> InBand(g, vMin, t)
  {
    assert LinearOn(g, bp[k], bp[k + 1], RateOn(g, bp, k));
    if RateOn(g, bp, k) == 0.0 {
      assert RateOn(g, bp, k) * (t - bp[k]) == 0.0;
    }
  }

  /** When a rate lost on a stretch does no harm: the stretch is judged right at every time if
      and only if the difference is on the same side at both its ends. */
  lemma SlowStretchIff(g: Difference, bp: seq<real>, vMin: real, k: nat)
    requires Ascending(bp) && PiecewiseLinear(g, bp) && k + 1 < |bp| && -EPS < RateOn(g, bp, k) < EPS && vMin > 0.0
    ensures (forall t :: bp[k] <= t <= bp[k + 1] ==> (InBand(g, vMin, t) <==> SeenOn(g, bp, vMin, k, t)))
            <==> SameSide(g(bp[k]), g(bp[k + 1]), vMin)
  {
    var t0, t1, rate := bp[k], bp[k + 1], RateOn(g, bp, k);
    var fpm := rate * 60.0;
    assert fpm / 60.0 == rate;
    var rel := RelativeState(0.0, 0.0, g(t0), 0.0, 0.0, fpm);
    assert LinearOn(g, t0, t1, rate);
    SlowRateIff(rel, vMin, t1 - t0);
    forall t | t0 <= t <= t1 ensures AltitudeDifference(rel, t - t0) == g(t) {
      assert g(t) == g(t0) + rate * (t - t0);
      Climbs(rel, rate, t - t0);
    }
    assert AltitudeDifference(rel, t1 - t0) == g(t1);
    if SameSide(g(t0), g(t1), vMin) {
      forall t | t0 <= t <= t1 ensures InBand(g, vMin, t) <==> SeenOn(g, bp, vMin, k, t) {
        assert TooCloseVertically(rel, vMin, t - t0) <==> IntervalVertical(rel, vMin).Some?;
      }
    } else {
      var s :| 0.0 <= s <= t1 - t0 && !(TooCloseVertically(rel, vMin, s) <==> IntervalVertical(rel, vMin).Some?);
      assert AltitudeDifference(rel, (t0 + s) - t0) == g(t0 + s);
      assert !(InBand(g, vMin, t0 + s) <==> SeenOn(g, bp, vMin, k, t0 + s));
    }
  }

  lemma Climbs(rel: RelativeState, rate: real, s: real)
    requires rel.vAltFpm / 60.0 == rate
    ensures AltitudeDifference(rel, s) == rel.alt + rate * s
  {
  }

  // ---------------------------------------------------------------- merging

  function MergeStep(merged: seq<(real, real)>, piece: (real, real)): seq<(real, real)> {
    var n := |merged|;
    if n > 0 && piece.0 <= merged[n - 1].1 + EPS then
      merged[n - 1 := (merged[n - 1].0, Max(merged[n - 1].1, piece.1))]
    else merged + [piece]
  }

  /** The non-empty pieces among the first n, in order. */
  function Pieces(g: Difference, bp: seq<real>, vMin: real, n: nat): seq<(real, real)>
    requires n < |bp| && Ascending(bp)
  {
    if n == 0 then []
    else
      var p := PieceAt(g, bp, vMin, n - 1);
      Pieces(g, bp, vMin, n - 1) + if p.Some? then [p.value] else []
  }

  function Merge(out: seq<(real, real)>): seq<(real, real)> {
    if out == [] then [] else MergeStep(Merge(out[..|out| - 1]), out[|out| - 1])
  }

  /** The vertical violation intervals: pieces between breakpoints, then merged. */
  method VerticalIntervals(g: Difference, bp: seq<real>, vMin: real) returns (merged: seq<(real, real)>)
    requires |bp| >= 1 && Ascending(bp)
    ensures merged == Merge(Pieces(g, bp, vMin, |bp| - 1))
  {
    var out: seq<(real, real)> := [];
    for k := 0 to |bp| - 1
      invariant out == Pieces(g, bp, vMin, k)
    {
      var piece := PieceAt(g, bp, vMin, k);
      if piece.Some? {
        out := out + [piece.value];
      }
    }
    merged := [];
    for i := 0 to |out|
      invariant merged == Merge(out[..i])
    {
      assert out[..i + 1][..i] == out[..i];
      merged := MergeStep(merged, out[i]);
    }
    assert out[..|out|] == out;
  }

  /** Some breakpoint is no further from t than the merge tolerance. */
  predicate NearBreakpoint(bp: seq<real>, t: real) {
    exists i :: 0 <= i < |bp| && bp[i] - 0.000000000001 <= t <= bp[i] + 0.000000000001
  }

  predicate Covers(merged: seq<(real, real)>, t: real) {
    exists i :: 0 <= i < |merged| && merged[i].0 <= t <= merged[i].1
  }

  /** What the first n pieces merge to: intervals inside the first n stretches, nothing of the
      band left out, nothing but the band inside except next to a breakpoint. */
  ghost predicate Sound(g: Difference, bp: seq<real>, vMin: real, n: nat, merged: seq<(real, real)>)
    requires n < |bp| && Ascending(bp)
  {
    && (forall i :: 0 <= i < |merged| ==> bp[0] <= merged[i].0 < merged[i].1 <= bp[n])
    && (forall t: real :: SeenInBand(g, bp, vMin, n, t) ==> Covers(merged, t))
    && (forall i, t: real :: 0 <= i < |merged| && merged[i].0 < t < merged[i].1 ==>
       SeenInBand(g, bp, vMin, n, t) || NearBreakpoint(bp, t))
  }

  lemma MergeStepCovers(merged: seq<(real, real)>, piece: (real, real), t: real)
    requires Covers(merged, t) || piece.0 <= t <= piece.1
    requires |merged| > 0 ==> merged[|merged| - 1].0 <= piece.0
    ensures Covers(MergeStep(merged, piece), t)
  {
    var r := MergeStep(merged, piece);
    if piece.0 <= t <= piece.1 {
      var last := r[|r| - 1];
      assert last.0 <= t <= last.1;
    } else {
      var i :| 0 <= i < |merged| && merged[i].0 <= t <= merged[i].1;
      assert r[i].0 <= t <= r[i].1;
    }
  }

  /** Adding one piece keeps the interiors right: a time that only the merge brings in lies
      within the tolerance of the breakpoint between the two parts. */
  lemma MergeStepInterior(g: Difference, bp: seq<real>, vMin: real, n: nat, merged: seq<(real, real)>,
                          piece: (real, real), i: nat, t: real)
    requires n + 1 < |bp| && Ascending(bp) && Sound(g, bp, vMin, n, merged)
    requires bp[n] <= piece.0 < piece.1 <= bp[n + 1]
    requires piece.0 < t < piece.1 ==> SeenOn(g, bp, vMin, n, t)
    requires i < |MergeStep(merged, piece)|
    requires MergeStep(merged, piece)[i].0 < t < MergeStep(merged, piece)[i].1
    ensures SeenInBand(g, bp, vMin, n + 1, t) || NearBreakpoint(bp, t)
  {
    if i < |merged| && t < merged[i].1 {
      assert merged[i].0 < t < merged[i].1;
    } else if !(piece.0 < t < piece.1) {
      assert bp[n] - EPS <= t <= bp[n] + EPS;
    }
  }

  lemma MergeStepBounds(merged: seq<(real, real)>, piece: (real, real), lo: real, mid: real, hi: real)
    requires forall i :: 0 <= i < |merged| ==> lo <= merged[i].0 < merged[i].1 <= mid
    requires lo <= mid <= piece.0 < piece.1 <= hi
    ensures var r := MergeStep(merged, piece); forall i :: 0 <= i < |r| ==> lo <= r[i].0 < r[i].1 <= hi
  {
  }

  lemma MergeUnrolls(g: Difference, bp: seq<real>, vMin: real, n: nat)
    requires n + 1 < |bp| && Ascending(bp)
    ensures var piece := PieceAt(g, bp, vMin, n);
            var before := Merge(Pieces(g, bp, vMin, n));
            Merge(Pieces(g, bp, vMin, n + 1)) == if piece == None then before else MergeStep(before, piece.value)
  {
    var out := Pieces(g, bp, vMin, n + 1);
    if PieceAt(g, bp, vMin, n) == None {
      assert out == Pieces(g, bp, vMin, n);
    } else {
      assert out[..|out| - 1] == Pieces(g, bp, vMin, n);
    }
  }

  lemma OneStretchMore(g: Difference, bp: seq<real>, vMin: real, n: nat, t: real)
    requires n + 1 < |bp| && Ascending(bp)
    ensures SeenInBand(g, bp, vMin, n + 1, t) <==> SeenInBand(g, bp, vMin, n, t) || SeenOn(g, bp, vMin, n, t)
  {
  }

  lemma NoPieceSound(g: Difference, bp: seq<real>, vMin: real, n: nat, merged: seq<(real, real)>)
    requires vMin >= 0.0 && Ascending(bp) && PiecewiseLinear(g, bp) && n + 1 < |bp|
    requires Sound(g, bp, vMin, n, merged) && PieceAt(g, bp, vMin, n) == None
    ensures Sound(g, bp, vMin, n + 1, merged)
  {
    forall t: real ensures SeenInBand(g, bp, vMin, n + 1, t) <==> SeenInBand(g, bp, vMin, n, t) {
      OneStretchMore(g, bp, vMin, n, t);
      if bp[n] <= t <= bp[n + 1] {
        PieceAtExact(g, bp, vMin, n, t);
      }
    }
  }

  lemma PieceSound(g: Difference, bp: seq<real>, vMin: real, n: nat, merged: seq<(real, real)>, piece: (real, real))
    requires vMin >= 0.0 && Ascending(bp) && PiecewiseLinear(g, bp) && n + 1 < |bp|
    requires Sound(g, bp, vMin, n, merged) && PieceAt(g, bp, vMin, n) == Some(piece)
    ensures Sound(g, bp, vMin, n + 1, MergeStep(merged, piece))
  {
    var r := MergeStep(merged, piece);
    PieceAtExact(g, bp, vMin, n, bp[n]);
    MergeStepBounds(merged, piece, bp[0], bp[n], bp[n + 1]);
    forall t: real | SeenInBand(g, bp, vMin, n + 1, t) ensures Covers(r, t) {
      OneStretchMore(g, bp, vMin, n, t);
      if SeenOn(g, bp, vMin, n, t) {
        PieceAtExact(g, bp, vMin, n, t);
      }
      MergeStepCovers(merged, piece, t);
    }
    forall i, t: real | 0 <= i < |r| && r[i].0 < t < r[i].1 ensures SeenInBand(g, bp, vMin, n + 1, t) ||
        NearBreakpoint(bp, t) {
      if piece.0 < t < piece.1 {
        PieceAtExact(g, bp, vMin, n, t);
      }
      MergeStepInterior(g, bp, vMin, n, merged, piece, i, t);
    }
  }

  lemma NextSound(g: Difference, bp: seq<real>, vMin: real, n: nat, before: seq<(real, real)>)
    requires vMin >= 0.0 && Ascending(bp) && PiecewiseLinear(g, bp) && n + 1 < |bp|
    requires Sound(g, bp, vMin, n, before)
    ensures var piece := PieceAt(g, bp, vMin, n);
            Sound(g, bp, vMin, n + 1, if piece == None then before else MergeStep(before, piece.value))
  {
    var piece := PieceAt(g, bp, vMin, n);
    if piece == None {
      NoPieceSound(g, bp, vMin, n, before);
    } else {
      PieceSound(g, bp, vMin, n, before, piece.value);
    }
  }

  /** The merged intervals cover the band and, next to breakpoints apart, nothing else. */
  lemma {:induction false} MergeSound(g: Difference, bp: seq<real>, vMin: real, n: nat)
    requires vMin >= 0.0 && Ascending(bp) && PiecewiseLinear(g, bp) && n < |bp|
    ensures Sound(g, bp, vMin, n, Merge(Pieces(g, bp, vMin, n)))
  {
    if n == 0 {
      NothingSound(g, bp, vMin);
    } else {
      MergeSound(g, bp, vMin, n - 1);
      SoundOneMore(g, bp, vMin, n - 1, Merge(Pieces(g, bp, vMin, n - 1)), Merge(Pieces(g, bp, vMin, n)));
    }
  }

  lemma SoundOneMore(g: Difference, bp: seq<real>, vMin: real, n: nat, before: seq<(real, real)>,
                     after: seq<(real, real)>)
    requires vMin >= 0.0 && Ascending(bp) && PiecewiseLinear(g, bp) && n + 1 < |bp|
    requires before == Merge(Pieces(g, bp, vMin, n)) && after == Merge(Pieces(g, bp, vMin, n + 1))
    requires Sound(g, bp, vMin, n, before)
    ensures Sound(g, bp, vMin, n + 1, after)
  {
    MergeUnrolls(g, bp, vMin, n);
    NextSound(g, bp, vMin, n, before);
  }

  lemma NothingSound(g: Difference, bp: seq<real>, vMin: real)
    requires |bp| > 0 && Ascending(bp)
    ensures Sound(g, bp, vMin, 0, [])
  {
  }

  // ---------------------------------------------------------------- what merging swallows

  /** Time intervals in ascending order that do not overlap. */
  ghost predicate InOrder(out: seq<(real, real)>) {
    && (forall i :: 0 <= i < |out| ==> out[i].0 < out[i].1)
    && (forall i, j :: 0 <= i < j < |out| ==> out[i].1 <= out[j].0)
  }

  predicate Between(v: (real, real), t: real) {
    v.0 < t < v.1
  }

  /** `seen` holds strictly inside every interval and nowhere outside all of them. */
  ghost predicate Describes(out: seq<(real, real)>, seen: real -> bool) {
    && (forall i, t: real :: 0 <= i < |out| && Between(out[i], t) ==> seen(t))
    && (forall t: real :: seen(t) ==> Covers(out, t))
  }

  /** The two are kept apart, or they meet at a time that is seen itself. */
  predicate GoodJoin(a: (real, real), b: (real, real), seen: real -> bool) {
    b.0 > a.1 + 0.000000000001 || (b.0 == a.1 && seen(a.1))
  }

  /** The first n intervals join well. */
  ghost predicate GoodJoins(out: seq<(real, real)>, seen: real -> bool, n: nat)
    requires n <= |out|
  {
    forall i :: 0 <= i < n - 1 ==> GoodJoin(out[i], out[i + 1], seen)
  }

  /** Everything strictly inside a merged interval is seen. */
  ghost predicate NothingSwallowed(merged: seq<(real, real)>, seen: real -> bool) {
    forall i, t: real :: 0 <= i < |merged| && Between(merged[i], t) ==> seen(t)
  }

  lemma {:induction false} MergedEnd(out: seq<(real, real)>)
    requires InOrder(out) && out != []
    ensures var m := Merge(out);
            m != [] && m[|m| - 1].1 == out[|out| - 1].1 && m[|m| - 1].0 <= out[|out| - 1].0
  {
    if |out| <= 1 {
    } else {
      MergedEnd(out[..|out| - 1]);
    }
  }

  /** One more interval swallows nothing new exactly when it joins well. */
  lemma JoinStep(merged: seq<(real, real)>, last: (real, real), piece: (real, real), seen: real -> bool)
    requires merged != [] && merged[|merged| - 1].1 == last.1 && merged[|merged| - 1].0 < last.1 <= piece.0 < piece.1
    requires forall t: real :: Between(piece, t) ==> seen(t)
    requires forall t: real :: last.1 < t < piece.0 ==> !seen(t)
    ensures NothingSwallowed(MergeStep(merged, piece), seen) <==>
            NothingSwallowed(merged, seen) && GoodJoin(last, piece, seen)
  {
    var r, n := MergeStep(merged, piece), |merged| - 1;
    assert forall i, t: real :: 0 <= i < |merged| && Between(merged[i], t) ==> Between(r[i], t);
    if piece.0 <= last.1 + EPS {
      if last.1 < piece.0 {
        assert Between(r[n], (last.1 + piece.0) / 2.0) && !seen((last.1 + piece.0) / 2.0);
      } else {
        assert Between(r[n], last.1);
      }
      assert forall t: real :: Between(r[n], t) ==>
             Between(merged[n], t) || last.1 <= t <= piece.0 || Between(piece, t);
      assert forall i :: 0 <= i < n ==> r[i] == merged[i];
    }
  }

  lemma PrefixInOrder(out: seq<(real, real)>, n: nat)
    requires InOrder(out) && n <= |out|
    ensures InOrder(out[..n])
  {
  }

  lemma NotSeenBetween(out: seq<(real, real)>, seen: real -> bool, k: nat)
    requires InOrder(out) && Describes(out, seen) && k + 1 < |out|
    ensures forall t: real :: out[k].1 < t < out[k + 1].0 ==> !seen(t)
  {
    forall t: real | out[k].1 < t < out[k + 1].0 ensures !seen(t) {
      NotBetweenNeighbours(out, k, t);
    }
  }

  lemma {:induction false} JoinsUpTo(out: seq<(real, real)>, seen: real -> bool, n: nat)
    requires InOrder(out) && Describes(out, seen) && n <= |out|
    ensures NothingSwallowed(Merge(out[..n]), seen) <==> GoodJoins(out, seen, n)
  {
    if n == 0 {
    } else if n == 1 {
      assert out[..1][..0] == [] && Merge(out[..1]) == [out[0]];
    } else {
      JoinsUpTo(out, seen, n - 1);
      JoinsOneMore(out, seen, n);
    }
  }

  lemma JoinsOneMore(out: seq<(real, real)>, seen: real -> bool, n: nat)
    requires InOrder(out) && Describes(out, seen) && 2 <= n <= |out|
    ensures NothingSwallowed(Merge(out[..n]), seen) <==>
            NothingSwallowed(Merge(out[..n - 1]), seen) && GoodJoin(out[n - 2], out[n - 1], seen)
  {
    NotSeenBetween(out, seen, n - 2);
    MergeOneMore(out, n);
    JoinStep(Merge(out[..n - 1]), out[n - 2], out[n - 1], seen);
  }

  lemma MergeOneMore(out: seq<(real, real)>, n: nat)
    requires InOrder(out) && 2 <= n <= |out|
    ensures var m := Merge(out[..n - 1]);
            && Merge(out[..n]) == MergeStep(m, out[n - 1])
            && m != [] && m[|m| - 1].1 == out[n - 2].1 && m[|m| - 1].0 < out[n - 2].1
  {
    assert out[..n][..n - 1] == out[..n - 1];
    PrefixInOrder(out, n - 1);
    MergedEnd(out[..n - 1]);
  }

  lemma NotBetweenNeighbours(out: seq<(real, real)>, k: nat, t: real)
    requires InOrder(out) && k + 1 < |out| && out[k].1 < t < out[k + 1].0
    ensures !Covers(out, t)
  {
    forall i | 0 <= i < |out| ensures !(out[i].0 <= t <= out[i].1) {
      assert i < k ==> out[i].1 <= out[k].0;
      assert i > k + 1 ==> out[k + 1].1 <= out[i].0;
    }
  }

  /** The difference as seen over all stretches, as a function. */
  function SeenOver(g: Difference, bp: seq<real>, vMin: real, n: nat): real -> bool
    requires n < |bp| && Ascending(bp)
  {
    (t: real) => SeenInBand(g, bp, vMin, n, t)
  }

  lemma {:induction false} PiecesDescribe(g: Difference, bp: seq<real>, vMin: real, n: nat)
    requires vMin >= 0.0 && Ascending(bp) && PiecewiseLinear(g, bp) && n < |bp|
    ensures var out := Pieces(g, bp, vMin, n);
            && InOrder(out) && Describes(out, SeenOver(g, bp, vMin, n))
            && (out != [] ==> out[|out| - 1].1 <= bp[n])
  {
    if n == 0 {
    } else {
      PiecesDescribe(g, bp, vMin, n - 1);
      PieceInOrder(g, bp, vMin, n);
      PieceCovers(g, bp, vMin, n);
      PieceInterior(g, bp, vMin, n);
    }
  }

  lemma PieceInOrder(g: Difference, bp: seq<real>, vMin: real, n: nat)
    requires vMin >= 0.0 && Ascending(bp) && PiecewiseLinear(g, bp) && 0 < n < |bp|
    requires var before := Pieces(g, bp, vMin, n - 1);
             InOrder(before) &&
             (before != [] ==> before[|before| - 1].1 <= bp[n - 1])
    ensures var out := Pieces(g, bp, vMin, n); InOrder(out) && (out != [] ==> out[|out| - 1].1 <= bp[n])
  {
    var p := PieceAt(g, bp, vMin, n - 1);
    PieceAtExact(g, bp, vMin, n - 1, bp[n - 1]);
    if p.Some? {
      AppendInOrder(Pieces(g, bp, vMin, n - 1), p.value, bp[n - 1]);
    }
  }

  lemma AppendInOrder(out: seq<(real, real)>, piece: (real, real), mid: real)
    requires InOrder(out) && (out != [] ==> out[|out| - 1].1 <= mid) && mid <= piece.0 < piece.1
    ensures InOrder(out + [piece])
  {
    forall i | 0 <= i < |out| ensures out[i].1 <= mid {
      assert i < |out| - 1 ==> out[i].1 <= out[|out| - 1].0;
    }
  }

  lemma PieceCovers(g: Difference, bp: seq<real>, vMin: real, n: nat)
    requires vMin >= 0.0 && Ascending(bp) && PiecewiseLinear(g, bp) && 0 < n < |bp|
    requires Describes(Pieces(g, bp, vMin, n - 1), SeenOver(g, bp, vMin, n - 1))
    ensures forall t: real :: SeenOver(g, bp, vMin, n)(t) ==> Covers(Pieces(g, bp, vMin, n), t)
  {
    forall t: real | SeenInBand(g, bp, vMin, n, t) ensures Covers(Pieces(g, bp, vMin, n), t) {
      assert SeenOver(g, bp, vMin, n - 1)(t) <==> SeenInBand(g, bp, vMin, n - 1, t);
      PieceCoversTime(g, bp, vMin, n, t);
    }
  }

  lemma PieceCoversTime(g: Difference, bp: seq<real>, vMin: real, n: nat, t: real)
    requires vMin >= 0.0 && Ascending(bp) && PiecewiseLinear(g, bp) && 0 < n < |bp| && SeenInBand(g, bp, vMin, n, t)
    requires SeenInBand(g, bp, vMin, n - 1, t) ==> Covers(Pieces(g, bp, vMin, n - 1), t)
    ensures Covers(Pieces(g, bp, vMin, n), t)
  {
    OneStretchMore(g, bp, vMin, n - 1, t);
    if SeenOn(g, bp, vMin, n - 1, t) {
      PieceAtExact(g, bp, vMin, n - 1, t);
    }
    CoversMore(Pieces(g, bp, vMin, n - 1), Pieces(g, bp, vMin, n), PieceAt(g, bp, vMin, n - 1), t);
  }

  lemma PieceInterior(g: Difference, bp: seq<real>, vMin: real, n: nat)
    requires vMin >= 0.0 && Ascending(bp) && PiecewiseLinear(g, bp) && 0 < n < |bp|
    requires Describes(Pieces(g, bp, vMin, n - 1), SeenOver(g, bp, vMin, n - 1))
    ensures var out := Pieces(g, bp, vMin, n);
            forall i, t: real :: 0 <= i < |out| && Between(out[i], t) ==> SeenOver(g, bp, vMin, n)(t)
  {
    var before, out := Pieces(g, bp, vMin, n - 1), Pieces(g, bp, vMin, n);
    PieceAtExact(g, bp, vMin, n - 1, bp[n - 1]);
    forall i, t: real | 0 <= i < |out| && Between(out[i], t) ensures SeenInBand(g, bp, vMin, n, t) {
      OneStretchMore(g, bp, vMin, n - 1, t);
      if i < |before| {
        assert Between(before[i], t) && SeenOver(g, bp, vMin, n - 1)(t);
      } else {
        PieceAtExact(g, bp, vMin, n - 1, t);
      }
    }
  }

  lemma CoversMore(before: seq<(real, real)>, out: seq<(real, real)>, p: Option<(real, real)>, t: real)
    requires out == before + if p.Some? then [p.value] else []
    ensures Covers(before, t) || (p.Some? && p.value.0 <= t <= p.value.1) ==> Covers(out, t)
  {
    if i :| 0 <= i < |before| && before[i].0 <= t <= before[i].1 {
      assert out[i] == before[i];
    } else if p.Some? && p.value.0 <= t <= p.value.1 {
      assert out[|before|] == p.value;
    }
  }

  /** When merging swallows nothing: every time strictly inside a merged interval is in the band,
      as the zero test sees it, if and only if each two neighbouring pieces are further apart
      than the tolerance or meet at a time in the band. */
  lemma MergeSwallowsIff(g: Difference, bp: seq<real>, vMin: real)
    requires vMin >= 0.0 && |bp| > 0 && Ascending(bp) && PiecewiseLinear(g, bp)
    ensures var out, seen := Pieces(g, bp, vMin, |bp| - 1), SeenOver(g, bp, vMin, |bp| - 1);
            NothingSwallowed(Merge(out), seen) <==> GoodJoins(out, seen, |out|)
  {
    PiecesJoin(g, bp, vMin, |bp| - 1, Pieces(g, bp, vMin, |bp| - 1), SeenOver(g, bp, vMin, |bp| - 1));
  }

  lemma PiecesJoin(g: Difference, bp: seq<real>, vMin: real, n: nat, out: seq<(real, real)>, seen: real -> bool)
    requires vMin >= 0.0 && Ascending(bp) && PiecewiseLinear(g, bp) && n < |bp|
    requires out == Pieces(g, bp, vMin, n) && seen == SeenOver(g, bp, vMin, n)
    ensures NothingSwallowed(Merge(out), seen) <==> GoodJoins(out, seen, |out|)
  {
    PiecesDescribe(g, bp, vMin, n);
    AllJoins(out, seen);
  }

  lemma AllJoins(out: seq<(real, real)>, seen: real -> bool)
    requires InOrder(out) && Describes(out, seen)
    ensures NothingSwallowed(Merge(out), seen) <==> GoodJoins(out, seen, |out|)
  {
    var n := |out|;
    assert out[..n] == out;
    JoinsUpTo(out, seen, n);
  }

  // ---------------------------------------------------------------- two aircraft

  /** Relative vertical rates, with either aircraft climbing or level, are zero or not lost in
      the zero test. */
  predicate ClearVertical(a: Profile, b: Profile) {
    Clear(b.fpm / 60.0 - a.fpm / 60.0) && Clear(b.fpm / 60.0) && Clear(-(a.fpm / 60.0))
  }

  lemma ClearRate(a: Profile, b: Profile, t: real)
    requires ClearVertical(a, b)
    ensures Clear(SlopeFrom(b, t) - SlopeFrom(a, t))
  {
  }

  function Heights(p: Profile): Difference {
    (t: real) => AltitudeAt(p, t)
  }

  function Minus(f: Difference, g: Difference): Difference {
    (t: real) => f(t) - g(t)
  }

  lemma HeightsLinear(p: Profile, t0: real, t1: real)
    requires 0.0 <= t0 < t1 && !LevelsOffWithin(p, t0, t1)
    ensures LinearOn(Heights(p), t0, t1, SlopeFrom(p, t0))
  {
    forall t: real | t0 <= t <= t1
      ensures AltitudeAt(p, t) == AltitudeAt(p, t0) + SlopeFrom(p, t0) * (t - t0)
    {
      LinearPiece(p, t0, t1, t);
    }
  }

  lemma MinusLinear(f: Difference, g: Difference, t0: real, t1: real, rf: real, rg: real)
    requires LinearOn(f, t0, t1, rf) && LinearOn(g, t0, t1, rg)
    ensures LinearOn(Minus(f, g), t0, t1, rf - rg)
  {
    forall t: real | t0 <= t <= t1 ensures Minus(f, g)(t) == Minus(f, g)(t0) + (rf - rg) * (t - t0) {
      assert (rf - rg) * (t - t0) == rf * (t - t0) - rg * (t - t0);
    }
  }

  datatype Pair = Pair(a: Profile, b: Profile, east: real, north: real, vEastKt: real, vNorthKt: real)

  function RelativeOf(p: Pair): RelativeState {
    RelativeState(p.east, p.north, p.b.alt - p.a.alt, p.vEastKt, p.vNorthKt, p.b.fpm - p.a.fpm)
  }

  function AltitudeGap(p: Pair): Difference {
    Minus(Heights(p.b), Heights(p.a))
  }

  predicate NoTargets(p: Pair) {
    p.a.target == None && p.b.target == None
  }

  /** Both minima violated at time t, with level-off taken into account. */
  predicate PairViolates(p: Pair, hMin: real, vMin: real, t: real) {
    TooCloseHorizontally(RelativeOf(p), hMin, t) && InBand(AltitudeGap(p), vMin, t)
  }

  function Vertical(p: Pair, vMin: real, horizon: real): seq<(real, real)>
    requires horizon >= 0.0
  {
    var bp := Breakpoints(p.a, p.b, horizon);
    Merge(Pieces(AltitudeGap(p), bp, vMin, |bp| - 1))
  }

  predicate Candidate(h: Interval, v: (real, real), lookahead: real) {
    var entry, exit := Later(h.lo, At(v.0)), Sooner(h.hi, At(v.1));
    Less(entry, exit) && Less(At(0.0), exit) && !Less(At(lookahead), entry)
  }

  predicate IsOverlap(h: Interval, v: (real, real), lookahead: real, w: Interval) {
    Candidate(h, v, lookahead) && w == Interval(Later(h.lo, At(v.0)), Sooner(h.hi, At(v.1)))
  }

  /** The earliest-starting overlap among the first n vertical intervals. */
  function Earliest(h: Interval, verticals: seq<(real, real)>, lookahead: real, n: nat): Option<Interval>
    requires n <= |verticals|
  {
    if n == 0 then None
    else
      var sofar := Earliest(h, verticals, lookahead, n - 1);
      var v := verticals[n - 1];
      var entry, exit := Later(h.lo, At(v.0)), Sooner(h.hi, At(v.1));
      if Candidate(h, v, lookahead) &&
          (sofar == None || Less(entry, sofar.value.lo)) then Some(Interval(entry, exit)) else sofar
  }

  function PairWindow(p: Pair, hMin: real, vMin: real, lookahead: real, root: real): Option<ConflictWindow>
    requires lookahead >= 0.0
  {
    var rel := RelativeOf(p);
    if NoTargets(p) then DetectConflict(rel, hMin, vMin, lookahead, root)
    else match IntervalHorizontal(rel, hMin, root)
      case None => None
      case Some(h) =>
        var verticals := Vertical(p, vMin, lookahead);
        match Earliest(h, verticals, lookahead, |verticals|)
        case None => None
        case Some(best) => Some(ConflictWindow(best.lo, best.hi, CpaTime(rel), hMin, vMin))
  }

  method PairConflict(p: Pair, hMin: real, vMin: real, lookahead: real, root: real) returns (r: Option<ConflictWindow>)
    requires lookahead >= 0.0
    ensures r == PairWindow(p, hMin, vMin, lookahead, root)
  {
    var rel := RelativeOf(p);
    if NoTargets(p) {
      return DetectConflict(rel, hMin, vMin, lookahead, root);
    }
    var hi := IntervalHorizontal(rel, hMin, root);
    if hi == None {
      return None;
    }
    var h := hi.value;
    var verticals := VerticalIntervals(AltitudeGap(p), Breakpoints(p.a, p.b, lookahead), vMin);
    var best: Option<Interval> := None;
    for i := 0 to |verticals|
      invariant best == Earliest(h, verticals, lookahead, i)
    {
      var entry, exit := Later(h.lo, At(verticals[i].0)), Sooner(h.hi, At(verticals[i].1));
      if Less(entry, exit) && Less(At(0.0), exit) && !Less(At(lookahead), entry) {
        if best == None || Less(entry, best.value.lo) {
          best := Some(Interval(entry, exit));
        }
      }
    }
    if best == None {
      return None;
    }
    r := Some(ConflictWindow(best.value.lo, best.value.hi, CpaTime(rel), hMin, vMin));
  }

  /** No candidate starts before the chosen one, and the chosen one is a candidate. */
  lemma {:induction false} EarliestIsEarliest(h: Interval, verticals: seq<(real, real)>, lookahead: real, n: nat,
                                              i: nat)
    requires i < n <= |verticals|
    ensures var best := Earliest(h, verticals, lookahead, n);
            && (Candidate(h, verticals[i], lookahead) ==>
                  best.Some? && !Less(Later(h.lo, At(verticals[i].0)), best.value.lo))
            && (best.Some? ==> exists j :: 0 <= j < n && IsOverlap(h, verticals[j], lookahead, best.value))
  {
    if n <= 1 {
    } else {
      EarliestIsEarliest(h, verticals, lookahead, n - 1, if i < n - 1 then i else 0);
    }
  }

  lemma GapIsPiecewise(p: Pair, horizon: real)
    requires horizon >= 0.0
    ensures PiecewiseLinear(AltitudeGap(p), Breakpoints(p.a, p.b, horizon))
    ensures ClearVertical(p.a, p.b) ==> ClearOn(AltitudeGap(p), Breakpoints(p.a, p.b, horizon))
  {
    var bp := Breakpoints(p.a, p.b, horizon);
    forall k: nat | k + 1 < |bp|
      ensures LinearOn(AltitudeGap(p), bp[k], bp[k + 1], RateOn(AltitudeGap(p), bp, k))
      ensures ClearVertical(p.a, p.b) ==> Clear(RateOn(AltitudeGap(p), bp, k))
    {
      var rate := PieceRate(p, bp[k], bp[k + 1]);
      RateOfLinear(AltitudeGap(p), bp, k, rate);
    }
  }

  lemma RateOfLinear(g: Difference, bp: seq<real>, k: nat, rate: real)
    requires Ascending(bp) && k + 1 < |bp| && LinearOn(g, bp[k], bp[k + 1], rate)
    ensures RateOn(g, bp, k) == rate
  {
    QuotientIs(g(bp[k + 1]) - g(bp[k]), bp[k + 1] - bp[k], rate);
  }

  ghost predicate ClearOn(g: Difference, bp: seq<real>)
    requires Ascending(bp)
  {
    forall k: nat :: k + 1 < |bp| ==> Clear(RateOn(g, bp, k))
  }

  lemma PieceRate(p: Pair, t0: real, t1: real) returns (rate: real)
    requires 0.0 <= t0 < t1 && !LevelsOffWithin(p.a, t0, t1) && !LevelsOffWithin(p.b, t0, t1)
    ensures LinearOn(AltitudeGap(p), t0, t1, rate) && (ClearVertical(p.a, p.b) ==> Clear(rate))
  {
    rate := SlopeFrom(p.b, t0) - SlopeFrom(p.a, t0);
    if ClearVertical(p.a, p.b) {
      ClearRate(p.a, p.b, t0);
    }
    HeightsLinear(p.a, t0, t1);
    HeightsLinear(p.b, t0, t1);
    MinusLinear(Heights(p.b), Heights(p.a), t0, t1, SlopeFrom(p.b, t0), SlopeFrom(p.a, t0));
  }

  predicate ClearPair(p: Pair) {
    ClearRates(RelativeOf(p)) && ClearVertical(p.a, p.b)
  }

  /** Both minima violated at a time of the look-ahead as the zero tests see it. */
  predicate SeenViolates(p: Pair, hMin: real, vMin: real, lookahead: real, t: real)
    requires lookahead >= 0.0
  {
    && TooCloseHorizontally(Seen(RelativeOf(p)), hMin, t)
    && (if NoTargets(p) then TooCloseVertically(Seen(RelativeOf(p)), vMin, t)
        else var bp := Breakpoints(p.a, p.b, lookahead); SeenInBand(AltitudeGap(p), bp, vMin, |bp| - 1, t))
  }

  /** With clear rates, what is seen is what happens. */
  lemma SeenIsReal(p: Pair, hMin: real, vMin: real, lookahead: real, t: real)
    requires ClearPair(p) && 0.0 <= t <= lookahead && (lookahead > 0.0 || NoTargets(p))
    ensures SeenViolates(p, hMin, vMin, lookahead, t) <==> PairViolates(p, hMin, vMin, t)
  {
    SeenIff(RelativeOf(p));
    if NoTargets(p) {
      StraightGap(p, t);
    } else {
      GapIsPiecewise(p, lookahead);
      ClearIsSeen(AltitudeGap(p), Breakpoints(p.a, p.b, lookahead), vMin, t);
    }
  }

  lemma SeenIsFound(p: Pair, hMin: real, vMin: real, lookahead: real, root: real, t: real)
    requires IsRoot(RelativeOf(p), hMin, root) && hMin >= 0.0 && vMin >= 0.0
    requires 0.0 <= t <= lookahead && SeenViolates(p, hMin, vMin, lookahead, t)
    ensures var r := PairWindow(p, hMin, vMin, lookahead, root);
            r.Some? && !Less(At(t), r.value.entry)
  {
    var rel := RelativeOf(p);
    HorizontalExact(rel, hMin, root, t);
    if NoTargets(p) {
      DetectExact(rel, hMin, vMin, lookahead, root, t);
    } else {
      VerticalCovers(p, vMin, lookahead, t);
      CoveredIsFound(IntervalHorizontal(rel, hMin, root).value, Vertical(p, vMin, lookahead), lookahead, t);
    }
  }

  lemma VerticalCovers(p: Pair, vMin: real, lookahead: real, t: real)
    requires vMin >= 0.0 && lookahead >= 0.0
    requires var bp := Breakpoints(p.a, p.b, lookahead); SeenInBand(AltitudeGap(p), bp, vMin, |bp| - 1, t)
    ensures Covers(Vertical(p, vMin, lookahead), t)
    ensures forall i :: 0 <= i < |Vertical(p, vMin, lookahead)| ==>
            0.0 <= Vertical(p, vMin, lookahead)[i].0 < Vertical(p, vMin, lookahead)[i].1
  {
    var bp := Breakpoints(p.a, p.b, lookahead);
    GapIsPiecewise(p, lookahead);
    MergeSound(AltitudeGap(p), bp, vMin, |bp| - 1);
  }

  lemma CoveredIsFound(h: Interval, verticals: seq<(real, real)>, lookahead: real, t: real)
    requires 0.0 <= t <= lookahead && Inside(t, h) && Covers(verticals, t)
    requires forall i :: 0 <= i < |verticals| ==> 0.0 <= verticals[i].0 < verticals[i].1
    ensures var best := Earliest(h, verticals, lookahead, |verticals|); best.Some? && !Less(At(t), best.value.lo)
  {
    var i :| 0 <= i < |verticals| && verticals[i].0 <= t <= verticals[i].1;
    TouchIsCandidate(h, verticals[i], lookahead, t);
    EarliestIsEarliest(h, verticals, lookahead, |verticals|, i);
  }

  /** Nothing is missed: if some time in the look-ahead violates both minima, with or without
      level-off, a window is returned and it starts no later than that time. This holds of every
      pair as the zero tests see it, and of the pair itself when its rates are clear, except that
      a look-ahead of zero with an assigned altitude never gives a window. */
  lemma NothingIsMissed(p: Pair, hMin: real, vMin: real, lookahead: real, root: real, t: real)
    requires IsRoot(RelativeOf(p), hMin, root) && hMin >= 0.0 && vMin >= 0.0 && 0.0 <= t <= lookahead
    ensures var r := PairWindow(p, hMin, vMin, lookahead, root);
            && (SeenViolates(p, hMin, vMin, lookahead, t) ==> r.Some? && !Less(At(t), r.value.entry))
            && (ClearPair(p) && PairViolates(p, hMin, vMin, t) ==> (
                  if lookahead == 0.0 && !NoTargets(p) then r == None else r.Some? && !Less(At(t), r.value.entry)))
  {
    if SeenViolates(p, hMin, vMin, lookahead, t) {
      SeenIsFound(p, hMin, vMin, lookahead, root, t);
    }
    if ClearPair(p) && (lookahead > 0.0 || NoTargets(p)) {
      SeenIsReal(p, hMin, vMin, lookahead, t);
    }
  }

  /** A look-ahead of zero is no stretch at all for the piecewise solution. */
  lemma NothingAtZeroLookahead(p: Pair, hMin: real, vMin: real, root: real)
    requires !NoTargets(p)
    ensures PairWindow(p, hMin, vMin, 0.0, root) == None
  {
  }

  lemma StraightGap(p: Pair, t: real)
    requires NoTargets(p)
    ensures AltitudeGap(p)(t) == AltitudeDifference(RelativeOf(p), t)
  {
  }

  lemma TouchIsCandidate(h: Interval, v: (real, real), lookahead: real, t: real)
    requires 0.0 <= t <= lookahead && Inside(t, h) && 0.0 <= v.0 <= t <= v.1 && v.0 < v.1
    ensures Candidate(h, v, lookahead) && !Less(At(t), Later(h.lo, At(v.0)))
  {
  }

  /** What a window means with level-off: it lies in the look-ahead, and every time strictly
      inside violates both minima as the zero tests see it (and in fact, when the rates are
      clear), or is within the merge tolerance of a level-off. */
  lemma WindowIsViolation(p: Pair, hMin: real, vMin: real, lookahead: real, root: real, t: real)
    requires IsRoot(RelativeOf(p), hMin, root) && hMin >= 0.0 && vMin >= 0.0 && lookahead >= 0.0
    requires !NoTargets(p) && PairWindow(p, hMin, vMin, lookahead, root).Some?
    requires var w := PairWindow(p, hMin, vMin, lookahead, root).value; Inside(t, Interval(w.entry, w.exit))
    ensures 0.0 < t < lookahead && TooCloseHorizontally(Seen(RelativeOf(p)), hMin, t)
    ensures SeenViolates(p, hMin, vMin, lookahead, t) || NearBreakpoint(Breakpoints(p.a, p.b, lookahead), t)
    ensures ClearPair(p) ==> PairViolates(p, hMin, vMin, t) || NearBreakpoint(Breakpoints(p.a, p.b, lookahead), t)
  {
    var rel := RelativeOf(p);
    var h := IntervalHorizontal(rel, hMin, root).value;
    var verticals := Vertical(p, vMin, lookahead);
    EarliestIsEarliest(h, verticals, lookahead, |verticals|, 0);
    var best := Earliest(h, verticals, lookahead, |verticals|).value;
    var j :| 0 <= j < |verticals| && IsOverlap(h, verticals[j], lookahead, best);
    InsideBoth(h, Interval(At(verticals[j].0), At(verticals[j].1)), t);
    HorizontalExact(rel, hMin, root, t);
    VerticalInterior(p, vMin, lookahead, j, t);
    if ClearPair(p) {
      SeenIsReal(p, hMin, vMin, lookahead, t);
    }
  }

  lemma VerticalInterior(p: Pair, vMin: real, lookahead: real, j: nat, t: real)
    requires vMin >= 0.0 && lookahead >= 0.0 && j < |Vertical(p, vMin, lookahead)|
    requires Vertical(p, vMin, lookahead)[j].0 < t < Vertical(p, vMin, lookahead)[j].1
    ensures var bp := Breakpoints(p.a, p.b, lookahead);
            SeenInBand(AltitudeGap(p), bp, vMin, |bp| - 1, t) ||
            NearBreakpoint(bp, t)
    ensures 0.0 < t < lookahead
  {
    var bp := Breakpoints(p.a, p.b, lookahead);
    GapIsPiecewise(p, lookahead);
    MergeSound(AltitudeGap(p), bp, vMin, |bp| - 1);
  }

  // ---------------------------------------------------------------- agreement with the straight solution

  /** The aircraft keeps its vertical rate over the whole look-ahead. */
  predicate Steady(p: Profile, lookahead: real) {
    || p.target == None || p.fpm == 0.0
    || (p.fpm > 0.0 && p.target.value >= Free(p, lookahead))
    || (p.fpm < 0.0 && p.target.value <= Free(p, lookahead))
  }

  lemma SteadyMotion(p: Profile, lookahead: real, t: real)
    requires Steady(p, lookahead) && 0.0 <= t <= lookahead
    ensures AltitudeAt(p, t) == p.alt + p.fpm / 60.0 * t
    ensures !LevelsOffWithin(p, 0.0, lookahead)
  {
    FreeIsLinear(p, 0.0, t);
    FreeIsLinear(p, t, lookahead);
    SignsOfMotion(p, t);
    SignsOfMotion(p, lookahead);
    if p.target.Some? && p.fpm != 0.0 {
      SteadySign(p, lookahead - t);
      TargetSide(p);
      if p.target.value != p.alt {
        ReachesTarget(p, lookahead);
      }
    }
  }

  lemma SteadySign(p: Profile, d: real)
    requires d >= 0.0
    ensures p.fpm > 0.0 ==> p.fpm / 60.0 * d >= 0.0
    ensures p.fpm < 0.0 ==> p.fpm / 60.0 * d <= 0.0
  {
  }

  lemma SteadyEnds(p: Profile, lookahead: real)
    requires Steady(p, lookahead) && lookahead > 0.0
    ensures AltitudeAt(p, 0.0) == p.alt && AltitudeAt(p, lookahead) == p.alt + p.fpm / 60.0 * lookahead
    ensures WithinHorizon(LevelOffTime(p), lookahead) == []
  {
    SteadyMotion(p, lookahead, 0.0);
    SteadyMotion(p, lookahead, lookahead);
  }

  lemma RateOfDifference(a0: real, b0: real, a1: real, b1: real, fa: real, fb: real, span: real)
    requires span > 0.0 && a1 == a0 + fa / 60.0 * span && b1 == b0 + fb / 60.0 * span
    ensures ((b1 - a1) - (b0 - a0)) / span == (fb - fa) / 60.0
  {
    var rate := (fb - fa) / 60.0;
    assert rate * span == fb / 60.0 * span - fa / 60.0 * span;
    QuotientIs((b1 - a1) - (b0 - a0), span, rate);
  }

  lemma SteadyGap(p: Pair, lookahead: real)
    requires Steady(p.a, lookahead) && Steady(p.b, lookahead) && lookahead > 0.0
    ensures var g := AltitudeGap(p);
            && g(0.0) == p.b.alt - p.a.alt
            && (g(lookahead) - g(0.0)) / lookahead == (p.b.fpm - p.a.fpm) / 60.0
    ensures Breakpoints(p.a, p.b, lookahead) == [0.0, lookahead]
  {
    SteadyEnds(p.a, lookahead);
    SteadyEnds(p.b, lookahead);
    RateOfDifference(p.a.alt, p.b.alt, AltitudeAt(p.a, lookahead), AltitudeAt(p.b, lookahead), p.a.fpm, p.b.fpm,
        lookahead);
  }

  /** One stretch from 0 to the look-ahead, one rate: the band times of the straight solution,
      cut to the look-ahead. */
  lemma SteadyVertical(p: Pair, vMin: real, lookahead: real)
    requires Steady(p.a, lookahead) && Steady(p.b, lookahead) && lookahead > 0.0
    ensures var rel := RelativeOf(p);
            var piece := PieceWithRate(rel.alt, rel.vAltFpm / 60.0, 0.0, lookahead, vMin);
            Vertical(p, vMin, lookahead) == if piece == None then [] else [piece.value]
  {
    SteadyGap(p, lookahead);
    OneStretch(AltitudeGap(p), lookahead, RelativeOf(p).vAltFpm / 60.0, vMin);
  }

  lemma OneStretch(g: Difference, lookahead: real, rate: real, vMin: real)
    requires lookahead > 0.0 && (g(lookahead) - g(0.0)) / lookahead == rate
    ensures var piece := PieceWithRate(g(0.0), rate, 0.0, lookahead, vMin);
            Merge(Pieces(g, [0.0, lookahead], vMin, 1)) == if piece == None then [] else [piece.value]
  {
    var bp := [0.0, lookahead];
    assert PieceAt(g, bp, vMin, 0) == PieceWithRate(g(0.0), rate, 0.0, lookahead, vMin) by {
      assert lookahead - 0.0 == lookahead;
    }
    MergeUnrolls(g, bp, vMin, 0);
  }

  /** A piece over the whole look-ahead is the vertical interval cut to it. */
  lemma PieceIsCut(rel: RelativeState, vMin: real, lookahead: real)
    requires lookahead > 0.0 && vMin >= 0.0
    ensures var piece := PieceWithRate(rel.alt, rel.vAltFpm / 60.0, 0.0, lookahead, vMin);
            var v := IntervalVertical(rel, vMin);
            && (piece.Some? <==> v.Some? && Less(Later(v.value.lo, At(0.0)), Sooner(v.value.hi, At(lookahead))))
            && (piece.Some? ==>
                At(piece.value.0) == Later(v.value.lo, At(0.0)) &&
                At(piece.value.1) == Sooner(v.value.hi, At(lookahead)))
  {
  }

  /** Cutting one of two intervals to the look-ahead cuts their overlap. */
  lemma CutOverlap(h: Interval, v: Interval, lookahead: real)
    requires lookahead > 0.0
    ensures var lo, hi := Later(v.lo, At(0.0)), Sooner(v.hi, At(lookahead));
            var entry, exit := Later(h.lo, v.lo), Sooner(h.hi, v.hi);
            && Later(h.lo, lo) == Later(entry, At(0.0)) && Sooner(h.hi, hi) == Sooner(exit, At(lookahead))
            && ((Less(lo, hi) && Less(Later(h.lo, lo), Sooner(h.hi, hi)) && Less(At(0.0), Sooner(h.hi, hi)) &&
               !Less(At(lookahead), Later(h.lo, lo)))
                == (Less(entry, exit) && Less(At(0.0), exit) && Less(entry, At(lookahead))))
  {
  }

  /** When neither aircraft levels off within the look-ahead, the piecewise solution is the
      straight one cut to the look-ahead; the only difference is a straight window that starts
      exactly at its end. */
  lemma PiecewiseAgrees(p: Pair, hMin: real, vMin: real, lookahead: real, root: real)
    requires !NoTargets(p) && Steady(p.a, lookahead) && Steady(p.b, lookahead) && lookahead > 0.0 && vMin >= 0.0
    ensures var r := PairWindow(p, hMin, vMin, lookahead, root);
            var d := DetectConflict(RelativeOf(p), hMin, vMin, lookahead, root);
            && (r.Some? <==> d.Some? && Less(d.value.entry, At(lookahead)))
            && (r.Some? ==>
                  && r.value.entry == Later(d.value.entry, At(0.0))
                  && r.value.exit == Sooner(d.value.exit, At(lookahead)))
  {
    SteadyVertical(p, vMin, lookahead);
    var rel := RelativeOf(p);
    var hi := IntervalHorizontal(rel, hMin, root);
    PieceIsCut(rel, vMin, lookahead);
    var piece := PieceWithRate(rel.alt, rel.vAltFpm / 60.0, 0.0, lookahead, vMin);
    if hi.Some? {
      var verticals := if piece == None then [] else [piece.value];
      assert Earliest(hi.value, verticals, lookahead, |verticals|) ==
             if piece.Some? && Candidate(hi.value, piece.value, lookahead)
             then Some(Interval(Later(hi.value.lo, At(piece.value.0)), Sooner(hi.value.hi, At(piece.value.1))))
                 else None;
      if IntervalVertical(rel, vMin).Some? {
        CutOverlap(hi.value, IntervalVertical(rel, vMin).value, lookahead);
      }
    }
  }

  /** The profile, as flown: without an assigned altitude at the vertical rate throughout; with one
      the rate leads to, at that rate until it is reached and level from then on. */
  lemma FliesToTarget(p: Profile, t: real, reached: real)
    requires t >= 0.0
    ensures p.target == None ==> 60.0 * (AltitudeAt(p, t) - p.alt) == p.fpm * t
    ensures p.target.Some? && (p.target.value - p.alt) * p.fpm > 0.0 &&
            p.fpm * reached == 60.0 * (p.target.value - p.alt) ==>
              && (t <= reached ==> 60.0 * (AltitudeAt(p, t) - p.alt) == p.fpm * t)
              && (t >= reached ==> AltitudeAt(p, t) == p.target.value)
  {
    if p.target.Some? && (p.target.value - p.alt) * p.fpm > 0.0 {
      TargetSide(p);
      var d := t - reached;
      assert p.fpm * t == p.fpm * reached + p.fpm * d;
      assert p.fpm > 0.0 ==> (d >= 0.0 <==> p.fpm * d >= 0.0);
      assert p.fpm < 0.0 ==> (d >= 0.0 <==> p.fpm * d <= 0.0);
    }
  }

  /** The level-off time: at once for an aircraft that has a rate and is at its assigned altitude
      already, when the rate has closed the difference if it leads there, and otherwise none. */
  lemma LevelOffTimeIs(p: Profile)
    ensures p.target.Some? && p.fpm != 0.0 && p.target.value == p.alt ==> LevelOffTime(p) == Some(0.0)
    ensures LevelOffTime(p) == None <==>
              p.target == None || p.fpm == 0.0 || (p.target.value - p.alt) * p.fpm < 0.0
    ensures LevelOffTime(p).Some? ==> p.fpm * LevelOffTime(p).value == 60.0 * (p.target.value - p.alt)
  {
    if LevelOffTime(p).Some? {
      var q := (p.target.value - p.alt) / p.fpm;
      assert q * p.fpm == p.target.value - p.alt;
      assert p.fpm * (q * 60.0) == 60.0 * (q * p.fpm);
    }
  }

  /** An aircraft with an assigned altitude is taken to hold its altitude if and only if its
      vertical rate is zero or does not lead towards the assigned one. */
  lemma WrongWayIsHeld(p: Profile, t: real)
    requires p.target.Some? && t > 0.0
    ensures AltitudeAt(p, t) == p.alt <==> (p.target.value - p.alt) * p.fpm <= 0.0
  {
    TargetSide(p);
    StrictMotion(p, t);
  }

  lemma StrictMotion(p: Profile, t: real)
    requires t > 0.0
    ensures p.fpm > 0.0 ==> p.fpm * t / 60.0 > 0.0
    ensures p.fpm < 0.0 ==> p.fpm * t / 60.0 < 0.0
  {
  }

  /** Why the tolerance shows up there: an excursion out of the band around a level-off, shorter
      than the merge tolerance, is swallowed. The other aircraft climbs through at 1 ft/s, is
      `d` feet outside the band when it levels off, and comes back in. */
  lemma MergeSwallowsExcursion(d: real)
    requires 0.0 < 2.0 * d <= EPS
    ensures var p := Pair(Profile(0.0, 60.0, None), Profile(990.0 + d, 120.0, Some(1010.0 + d)), 0.0, 0.0, 0.0, 0.0);
            && Vertical(p, 1000.0, 600.0) == [(0.0, 600.0)]
            && !InBand(AltitudeGap(p), 1000.0, 10.0 + d / 2.0) && 10.0 + d / 2.0 !in Breakpoints(p.a, p.b, 600.0)
  {
    var p := Pair(Profile(0.0, 60.0, None), Profile(990.0 + d, 120.0, Some(1010.0 + d)), 0.0, 0.0, 0.0, 0.0);
    var g, bp := AltitudeGap(p), Breakpoints(p.a, p.b, 600.0);
    assert LevelOffTime(p.b) == Some(10.0);
    assert bp == [0.0, 10.0, 600.0];
    assert g(0.0) == 990.0 + d && g(10.0) == 1000.0 + d && g(600.0) == 410.0 + d;
    ExcursionPieces(g, d);
  }

  lemma RisingPiece(d: real)
    requires 0.0 < 2.0 * d <= EPS
    ensures PieceInterval(990.0 + d, 1000.0 + d, 0.0, 10.0, 1000.0) == Some((0.0, 10.0 - d))
  {
    QuotientIs(10.0, 10.0, 1.0);
  }

  lemma FallingPiece(d: real)
    requires 0.0 < 2.0 * d <= EPS
    ensures PieceInterval(1000.0 + d, 410.0 + d, 10.0, 600.0, 1000.0) == Some((10.0 + d, 600.0))
  {
    QuotientIs(-590.0, 590.0, -1.0);
  }

  lemma ExcursionPieces(g: Difference, d: real)
    requires 0.0 < 2.0 * d <= EPS && g(0.0) == 990.0 + d && g(10.0) == 1000.0 + d && g(600.0) == 410.0 + d
    ensures Merge(Pieces(g, [0.0, 10.0, 600.0], 1000.0, 2)) == [(0.0, 600.0)]
  {
    var bp := [0.0, 10.0, 600.0];
    RisingPiece(d);
    FallingPiece(d);
    MergeUnrolls(g, bp, 1000.0, 0);
    assert Merge(Pieces(g, bp, 1000.0, 1)) == [(0.0, 10.0 - d)];
    MergeUnrolls(g, bp, 1000.0, 1);
    MergeBridges(10.0 - d, 10.0 + d);
  }

  lemma MergeBridges(lo: real, hi: real)
    requires lo <= hi <= lo + EPS && hi < 600.0
    ensures MergeStep([(0.0, lo)], (hi, 600.0)) == [(0.0, 600.0)]
  {
  }
}
