/** Landing gaps and the motion on final approach that justifies them. Distances are in NM,
    speeds in knots, times in seconds. */
module FinalApproach {
  import opened RealFacts

  datatype Wake = Super | Heavy | Medium | Light

  /** An arrival as the sequencer sees it: the two geodesic distances it measures (to the
      threshold and to the join point) are part of the state. */
  datatype Aircraft = Aircraft(
    callsign: string,
    thresholdNm: real,
    joinPointNm: real,
    gsKt: real,
    actype: string,
    wake: Wake,
    emergency: bool)

  /** The regulation and fleet tables the sequencer reads. A wake entry of 0 means that the
      pair of categories needs no wake separation. */
  datatype Tables = Tables(
    radarNm: (Aircraft, Aircraft) -> real,
    wakeNm: (Wake, Wake) -> real,
    finalGsKt: Aircraft -> real,
    occupancyS: Aircraft -> real,
    bufferS: real,
    joinNm: real,
    ladderFt: seq<int>,
    freezeNm: real)

  ghost predicate ValidTables(t: Tables) {
    && (forall a: Aircraft, b: Aircraft :: t.radarNm(a, b) >= 0.0)
    && (forall a: Aircraft :: t.finalGsKt(a) > 0.0)
    && (forall a: Aircraft :: t.occupancyS(a) >= 0.0)
    && t.bufferS >= 0.0
    && t.joinNm > 0.0
    && |t.ladderFt| > 0
  }

  datatype Driver = WakeDriver | RadarDriver | RunwayDriver
  datatype Binding = AtThreshold | AtJoin | AtRunway

  datatype GapRequirement = GapRequirement(seconds: real, requiredNm: real, driver: Driver, binding: Binding)

  function RequiredNm(t: Tables, leader: Aircraft, follower: Aircraft): real {
    var radar := t.radarNm(leader, follower);
    var wake := t.wakeNm(leader.wake, follower.wake);
    if wake != 0.0 && wake > radar then wake else radar
  }

  function ThresholdGap(requiredNm: real, vFollow: real): real
    requires vFollow > 0.0
  {
    requiredNm / vFollow * 3600.0
  }

  function JoinGap(requiredNm: real, joinNm: real, vLead: real, vFollow: real): real
    requires vLead > 0.0 && vFollow > 0.0
  {
    3600.0 / vLead * (requiredNm - joinNm * (1.0 - vLead / vFollow))
  }

  /** The distance part of the gap: the larger of the two constraints. */
  function DistanceGap(requiredNm: real, joinNm: real, vLead: real, vFollow: real): real
    requires vLead > 0.0 && vFollow > 0.0
  {
    Max(JoinGap(requiredNm, joinNm, vLead, vFollow), ThresholdGap(requiredNm, vFollow))
  }

  function Gap(t: Tables, leader: Aircraft, follower: Aircraft): (g: GapRequirement)
    requires ValidTables(t)
    ensures g.seconds >= t.occupancyS(leader) + t.bufferS
    ensures g.seconds >= DistanceGap(RequiredNm(t, leader, follower), t.joinNm, t.finalGsKt(leader),
            t.finalGsKt(follower))
    ensures g.seconds >= 0.0 && g.requiredNm == RequiredNm(t, leader, follower) >= 0.0
    ensures g.binding == AtRunway <==> g.driver == RunwayDriver
  {
    var radar := t.radarNm(leader, follower);
    var wake := t.wakeNm(leader.wake, follower.wake);
    var wakeGoverns := wake != 0.0 && wake > radar;
    var requiredNm := if wakeGoverns then wake else radar;
    var vLead, vFollow := t.finalGsKt(leader), t.finalGsKt(follower);
    var atThreshold := ThresholdGap(requiredNm, vFollow);
    var atJoin := JoinGap(requiredNm, t.joinNm, vLead, vFollow);
    var distanceGap := if atJoin > atThreshold then atJoin else atThreshold;
    var runwayGap := t.occupancyS(leader) + t.bufferS;
    if distanceGap >= runwayGap then
      GapRequirement(distanceGap, requiredNm,
                     if wakeGoverns then WakeDriver else RadarDriver,
                     if atJoin > atThreshold then AtJoin else AtThreshold)
    else
      GapRequirement(runwayGap, requiredNm, RunwayDriver, AtRunway)
  }

  /** Distance still to fly at instant `at`, for an aircraft crossing the threshold at
      `landing` and flying its final approach speed. */
  function Remaining(landing: real, v: real, at: real): real {
    (landing - at) * v / 3600.0
  }

  /** The rear aircraft is inside the join point and the front one has not landed. */
  predicate OnFinal(frontLanding: real, rearLanding: real, vRear: real, joinNm: real, at: real) {
    at <= frontLanding && Remaining(rearLanding, vRear, at) <= joinNm
  }

  ghost predicate SeparatedThroughout(frontLanding: real, rearLanding: real, vFront: real, vRear: real, joinNm: real,
                                      requiredNm: real) {
    forall at: real :: OnFinal(frontLanding, rearLanding, vRear, joinNm, at) ==>
      Remaining(rearLanding, vRear, at) - Remaining(frontLanding, vFront, at) >= requiredNm
  }

  lemma ThresholdGapScaled(requiredNm: real, vFollow: real, dt: real)
    requires vFollow > 0.0
    ensures dt >= ThresholdGap(requiredNm, vFollow) <==> dt * vFollow >= 3600.0 * requiredNm
  {
    var q := requiredNm / vFollow;
    assert q * vFollow == requiredNm;
    assert (dt - q * 3600.0) * vFollow == dt * vFollow - 3600.0 * requiredNm;
    var x := dt - q * 3600.0;
    assert x >= 0.0 <==> x * vFollow >= 0.0;
  }

  /** Both sides are the join constraint; the right one has no division by the leader's speed. */
  lemma JoinGapScaled(requiredNm: real, joinNm: real, vLead: real, vFollow: real, dt: real)
    requires vLead > 0.0 && vFollow > 0.0
    ensures dt >= JoinGap(requiredNm, joinNm, vLead, vFollow) <==>
            dt * vLead >= 3600.0 * (requiredNm - joinNm * (1.0 - vLead / vFollow))
  {
    var inner := requiredNm - joinNm * (1.0 - vLead / vFollow);
    var p := 3600.0 / vLead;
    assert p * vLead == 3600.0;
    var x := dt - p * inner;
    assert x * vLead == dt * vLead - 3600.0 * inner by {
      assert p * inner * vLead == p * vLead * inner;
    }
    assert x >= 0.0 <==> x * vLead >= 0.0;
  }

  /** Both constraints, without division by the follower's or the leader's speed. */
  lemma DistanceGapScaled(requiredNm: real, joinNm: real, vLead: real, vFollow: real, dt: real)
    requires vLead > 0.0 && vFollow > 0.0
    ensures dt >= DistanceGap(requiredNm, joinNm, vLead, vFollow) <==>
            dt * vFollow >= 3600.0 * requiredNm &&
                dt * vLead >= 3600.0 * (requiredNm - joinNm * (1.0 - vLead / vFollow))
  {
    ThresholdGapScaled(requiredNm, vFollow, dt);
    JoinGapScaled(requiredNm, joinNm, vLead, vFollow, dt);
  }

  /** A spacing that meets both constraints keeps the distance at every instant on final. */
  lemma GapKeepsDistance(front: real, rear: real, vFront: real, vRear: real, joinNm: real, requiredNm: real, at: real)
    requires vFront > 0.0 && vRear > 0.0
    requires rear - front >= DistanceGap(requiredNm, joinNm, vFront, vRear)
    requires OnFinal(front, rear, vRear, joinNm, at)
    ensures Remaining(rear, vRear, at) - Remaining(front, vFront, at) >= requiredNm
  {
    var dt, y := rear - front, front - at;
    assert rear - at == y + dt;
    DistanceGapScaled(requiredNm, joinNm, vFront, vRear, dt);
    BothLeadersBound(dt, y, vFront, vRear, joinNm, requiredNm);
  }

  lemma BothLeadersBound(dt: real, y: real, vFront: real, vRear: real, joinNm: real, requiredNm: real)
    requires vFront > 0.0 && vRear > 0.0 && y >= 0.0 && (y + dt) * vRear <= 3600.0 * joinNm
    requires dt * vRear >= 3600.0 * requiredNm && dt * vFront >= 3600.0 * (requiredNm - joinNm * (1.0 - vFront / vRear))
    ensures (y + dt) * vRear - y * vFront >= 3600.0 * requiredNm
  {
    if vRear >= vFront {
      SlowerLeaderBound(dt, y, vFront, vRear, requiredNm);
    } else {
      FasterLeaderBound(dt, y, vFront, vRear, joinNm, requiredNm);
    }
  }

  lemma SlowerLeaderBound(dt: real, y: real, vFront: real, vRear: real, requiredNm: real)
    requires vFront <= vRear && y >= 0.0 && dt * vRear >= 3600.0 * requiredNm
    ensures (y + dt) * vRear - y * vFront >= 3600.0 * requiredNm
  {
    MulMonotone(vFront, vRear, y);
    assert (y + dt) * vRear == y * vRear + dt * vRear;
  }

  lemma FasterLeaderBound(dt: real, y: real, vFront: real, vRear: real, joinNm: real, requiredNm: real)
    requires 0.0 < vRear < vFront && y >= 0.0
    requires (y + dt) * vRear <= 3600.0 * joinNm
    requires dt * vFront >= 3600.0 * (requiredNm - joinNm * (1.0 - vFront / vRear))
    ensures (y + dt) * vRear - y * vFront >= 3600.0 * requiredNm
  {
    var r := vFront / vRear;
    assert r * vRear == vFront;
    assert r > 1.0;
    // (y + dt) * (vFront - vRear) = (y + dt) * vRear * (r - 1) <= 3600 * join * (r - 1)
    var w := (y + dt) * vRear;
    MulMonotone(w, 3600.0 * joinNm, r - 1.0);
    assert (y + dt) * (vFront - vRear) == w * (r - 1.0) by {
      assert w * r == (y + dt) * (vRear * r);
    }
    assert (y + dt) * vRear - y * vFront == dt * vFront - (y + dt) * (vFront - vRear);
    assert joinNm * (1.0 - r) == -(joinNm * (r - 1.0));
  }

  /** The gap formula is exact: the required distance is kept at every instant on final if and
      only if the landings are at least the distance gap apart, or so far apart that the rear
      aircraft enters the join point only after the front one has landed. The second case is
      part of the first when the join point is no nearer than the required distance. */
  lemma GapIsExact(front: real, rear: real, vFront: real, vRear: real, joinNm: real, requiredNm: real)
    requires vFront > 0.0 && vRear > 0.0
    ensures SeparatedThroughout(front, rear, vFront, vRear, joinNm, requiredNm) <==>
            rear - front >= DistanceGap(requiredNm, joinNm, vFront, vRear) || (rear - front) * vRear > 3600.0 * joinNm
    ensures joinNm >= requiredNm ==>
              (SeparatedThroughout(front, rear, vFront, vRear, joinNm, requiredNm) <==>
               rear - front >= DistanceGap(requiredNm, joinNm, vFront, vRear))
  {
    var dt := rear - front;
    if dt >= DistanceGap(requiredNm, joinNm, vFront, vRear) {
      forall at: real | OnFinal(front, rear, vRear, joinNm, at)
        ensures Remaining(rear, vRear, at) - Remaining(front, vFront, at) >= requiredNm
      {
        GapKeepsDistance(front, rear, vFront, vRear, joinNm, requiredNm, at);
      }
    } else if dt * vRear > 3600.0 * joinNm {
      forall at: real ensures !OnFinal(front, rear, vRear, joinNm, at) {
        NeverTogether(front, rear, vRear, joinNm, at);
      }
      if joinNm >= requiredNm {
        LateEntryExceeds(dt, vFront, vRear, joinNm, requiredNm);
      }
    } else {
      DistanceGapScaled(requiredNm, joinNm, vFront, vRear, dt);
      if dt * vRear < 3600.0 * requiredNm {
        LandingInstant(front, rear, vFront, vRear, joinNm, requiredNm);
      } else {
        JoinInstant(front, rear, vFront, vRear, joinNm, requiredNm);
      }
    }
  }

  lemma NeverTogether(front: real, rear: real, vRear: real, joinNm: real, at: real)
    requires vRear > 0.0 && (rear - front) * vRear > 3600.0 * joinNm
    ensures !OnFinal(front, rear, vRear, joinNm, at)
  {
    if at <= front {
      MulMonotone(rear - front, rear - at, vRear);
    }
  }

  lemma LateEntryExceeds(dt: real, vFront: real, vRear: real, joinNm: real, requiredNm: real)
    requires vFront > 0.0 && vRear > 0.0 && joinNm >= requiredNm && dt * vRear > 3600.0 * joinNm
    ensures dt >= DistanceGap(requiredNm, joinNm, vFront, vRear)
  {
    DistanceGapScaled(requiredNm, joinNm, vFront, vRear, dt);
    var r := vFront / vRear;
    assert r * vRear == vFront;
    QuotientLess(vFront, vRear, 0.0);
    MulMonotone(3600.0 * joinNm, dt * vRear, r);
    assert dt * vRear * r == dt * vFront;
    assert joinNm * (1.0 - r) == joinNm - joinNm * r;
  }

  lemma LandingInstant(front: real, rear: real, vFront: real, vRear: real, joinNm: real, requiredNm: real)
    requires vFront > 0.0 && vRear > 0.0
    requires (rear - front) * vRear <= 3600.0 * joinNm && (rear - front) * vRear < 3600.0 * requiredNm
    ensures !SeparatedThroughout(front, rear, vFront, vRear, joinNm, requiredNm)
  {
    assert OnFinal(front, rear, vRear, joinNm, front);
    assert Remaining(rear, vRear, front) - Remaining(front, vFront, front) < requiredNm;
  }

  lemma JoinInstant(front: real, rear: real, vFront: real, vRear: real, joinNm: real, requiredNm: real)
    requires vFront > 0.0 && vRear > 0.0
    requires (rear - front) * vRear <= 3600.0 * joinNm
    requires (rear - front) * vFront < 3600.0 * (requiredNm - joinNm * (1.0 - vFront / vRear))
    ensures !SeparatedThroughout(front, rear, vFront, vRear, joinNm, requiredNm)
  {
    var q := joinNm / vRear;
    assert q * vRear == joinNm;
    var at := rear - 3600.0 * q;
    assert (rear - at) * vRear == 3600.0 * joinNm;
    assert at <= front by {
      assert (front - at) * vRear >= 0.0;
    }
    assert OnFinal(front, rear, vRear, joinNm, at);
    var r := vFront / vRear;
    assert q * vFront == joinNm * r by {
      assert r * vRear == vFront;
      assert q * vFront == q * vRear * r;
    }
    assert (front - at) * vFront == 3600.0 * (q * vFront) - (rear - front) * vFront;
    assert Remaining(rear, vRear, at) == joinNm;
    assert Remaining(front, vFront, at) == (3600.0 * (joinNm * r) - (rear - front) * vFront) / 3600.0;
  }

  /** Which end of the final binds: the join constraint is the larger one exactly when the
      leader is faster and the join point lies beyond the required distance (or both reversed). */
  lemma JoinBindsIff(requiredNm: real, joinNm: real, vLead: real, vFollow: real)
    requires vLead > 0.0 && vFollow > 0.0
    ensures JoinGap(requiredNm, joinNm, vLead, vFollow) > ThresholdGap(requiredNm, vFollow) <==>
            (joinNm - requiredNm) * (vLead - vFollow) > 0.0
    ensures joinNm > requiredNm ==>
            (JoinGap(requiredNm, joinNm, vLead, vFollow) > ThresholdGap(requiredNm, vFollow) <==> vLead > vFollow)
  {
  }

  /** The two never come closer than h while both are on the final. */
  ghost predicate KeepsApart(t: Tables, leader: Aircraft, follower: Aircraft, front: real, rear: real, h: real)
    requires ValidTables(t)
  {
    SeparatedThroughout(front, rear, t.finalGsKt(leader), t.finalGsKt(follower), t.joinNm, h)
  }

  /** What a gap is for, all of it at once: two landings are a gap apart if and only if the leader has
      left the runway, with the buffer, and the two keep the radar minimum and, if there is one, the wake
      minimum along the whole final. */
  lemma GapIsWhatItTakes(t: Tables, leader: Aircraft, follower: Aircraft, front: real, rear: real)
    requires ValidTables(t) && t.joinNm >= t.radarNm(leader, follower)
    requires t.joinNm >= t.wakeNm(leader.wake, follower.wake)
    ensures rear >= front + Gap(t, leader, follower).seconds <==>
              && rear >= front + t.occupancyS(leader) + t.bufferS
              && KeepsApart(t, leader, follower, front, rear, t.radarNm(leader, follower))
              && (t.wakeNm(leader.wake, follower.wake) != 0.0 ==>
                    KeepsApart(t, leader, follower, front, rear, t.wakeNm(leader.wake, follower.wake)))
  {
    GapIsExact(front, rear, t.finalGsKt(leader), t.finalGsKt(follower), t.joinNm, RequiredNm(t, leader, follower));
    var required := RequiredNm(t, leader, follower);
    if KeepsApart(t, leader, follower, front, rear, required) {
      LessIsKeptToo(t, leader, follower, front, rear, required, t.radarNm(leader, follower));
      if t.wakeNm(leader.wake, follower.wake) != 0.0 {
        LessIsKeptToo(t, leader, follower, front, rear, required, t.wakeNm(leader.wake, follower.wake));
      }
    }
  }

  lemma LessIsKeptToo(t: Tables, leader: Aircraft, follower: Aircraft, front: real, rear: real, h: real, less: real)
    requires ValidTables(t) && less <= h && KeepsApart(t, leader, follower, front, rear, h)
    ensures KeepsApart(t, leader, follower, front, rear, less)
  {
  }

  /** What is said to govern a gap does: the runway if its occupancy asks for more than any distance,
      otherwise the larger minimum, at the join point exactly if the leader is the faster one. */
  lemma GapIsExplained(t: Tables, leader: Aircraft, follower: Aircraft)
    requires ValidTables(t) && t.joinNm > RequiredNm(t, leader, follower)
    ensures var g, radar, wake := Gap(t, leader, follower), t.radarNm(leader, follower),
                                  t.wakeNm(leader.wake, follower.wake);
            var runway := t.occupancyS(leader) + t.bufferS;
            && (g.driver == RunwayDriver <==> g.seconds == runway && !DistanceTakes(t, leader, follower, runway))
            && (g.driver != RunwayDriver ==> DistanceTakes(t, leader, follower, runway))
            && (g.driver == WakeDriver ==> wake > radar && g.requiredNm == wake)
            && (g.driver == RadarDriver ==> (wake == 0.0 || wake <= radar) && g.requiredNm == radar)
            && (g.binding == AtRunway <==> g.driver == RunwayDriver)
            && (g.binding == AtJoin <==> g.driver != RunwayDriver && t.finalGsKt(leader) > t.finalGsKt(follower))
  {
    JoinBindsIff(RequiredNm(t, leader, follower), t.joinNm, t.finalGsKt(leader), t.finalGsKt(follower));
  }

  /** Keeping the required distance takes at least this long. */
  ghost predicate DistanceTakes(t: Tables, leader: Aircraft, follower: Aircraft, seconds: real)
    requires ValidTables(t)
  {
    DistanceGap(RequiredNm(t, leader, follower), t.joinNm, t.finalGsKt(leader), t.finalGsKt(follower)) >= seconds
  }
}
