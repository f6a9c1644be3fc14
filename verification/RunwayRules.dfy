/** How long a runway user must wait behind another (sections 3-9-6 and 3-10-3 of the Notice). */
module RunwayRules {
  import opened Options
  import opened RealFacts

  datatype Operation = Departure | Arrival
  datatype SrsCategory = Cat1 | Cat2 | Cat3

  datatype RunwayOp = RunwayOp(callsign: string, actype: string, wake: nat, op: Operation, earliest: real)

  /** Fleet and airspace data. `rootOfShare` stands for the square root of the share of the
      runway length at which the leader has the required distance. */
  datatype Data = Data(
    occupancyS: RunwayOp -> real,
    rollS: RunwayOp -> real,
    srs: RunwayOp -> SrsCategory,
    cat3Ft: real, cat2Ft: real, cat1Ft: real,
    departureWakeS: (nat, nat) -> Option<real>,
    lengthFt: real,
    rootOfShare: real -> real)

  ghost predicate ValidData(d: Data) {
    && (forall a: RunwayOp :: d.occupancyS(a) >= 0.0 && d.rollS(a) >= 0.0)
    && (forall a: nat, b: nat :: d.departureWakeS(a, b).Some? ==> d.departureWakeS(a, b).value >= 0.0)
    && (forall x: real :: 0.0 <= x ==> d.rootOfShare(x) >= 0.0 && d.rootOfShare(x) * d.rootOfShare(x) == x)
    && d.lengthFt > 0.0
  }

  function SrsDistance(d: Data, leader: RunwayOp, follower: RunwayOp): real {
    var a, b := d.srs(leader), d.srs(follower);
    if a == Cat3 || b == Cat3 then d.cat3Ft
    else if b == Cat2 then d.cat2Ft
    else d.cat1Ft
  }

  /** Time from the start of the take-off roll until `distanceFt` is behind the aircraft, with
      constant acceleration. */
  function TimeToRoll(d: Data, ac: RunwayOp, distanceFt: real): (s: real)
    requires ValidData(d)
    ensures 0.0 <= s
  {
    if distanceFt >= d.lengthFt then d.rollS(ac)
    else d.rollS(ac) * d.rootOfShare(Max(distanceFt, 0.0) / d.lengthFt)
  }

  function Requirement(d: Data, leader: RunwayOp, follower: RunwayOp): (s: real)
    requires ValidData(d)
    ensures s >= 0.0
  {
    match (leader.op, follower.op)
    case (Arrival, _) => d.occupancyS(leader)
    case (Departure, Arrival) => TimeToRoll(d, leader, SrsDistance(d, leader, follower))
    case (Departure, Departure) =>
      var byDistance := TimeToRoll(d, leader, SrsDistance(d, leader, follower));
      var entry := d.departureWakeS(leader.wake, follower.wake);
      var byWake := if entry.Some? then entry.value else 0.0;
      if byWake >= byDistance then byWake else byDistance
  }

  /** The distances of the Notice, leader by leader: with a category III aircraft the long one, a
      category II one behind a light one the middle one, a category I one behind a light one the short one. */
  ghost function NoticeDistance(d: Data, leader: SrsCategory, follower: SrsCategory): real {
    match leader
    case Cat1 => (match follower case Cat1 => d.cat1Ft case Cat2 => d.cat2Ft case Cat3 => d.cat3Ft)
    case Cat2 => (match follower case Cat1 => d.cat1Ft case Cat2 => d.cat2Ft case Cat3 => d.cat3Ft)
    case Cat3 => d.cat3Ft
  }

  /** Assuming constant acceleration errs on the safe side: the time is never shorter than the
      constant-speed time, and the share of the roll time squared is the share of the runway. */
  lemma RollIsConservative(d: Data, ac: RunwayOp, distanceFt: real)
    requires ValidData(d) && 0.0 <= distanceFt <= d.lengthFt
    ensures TimeToRoll(d, ac, distanceFt) >= d.rollS(ac) * (distanceFt / d.lengthFt)
    ensures TimeToRoll(d, ac, distanceFt) * TimeToRoll(d, ac, distanceFt) ==
            d.rollS(ac) * d.rollS(ac) * (distanceFt / d.lengthFt)
  {
    var share := distanceFt / d.lengthFt;
    assert share * d.lengthFt == distanceFt;
    var slack := 1.0 - share;
    assert slack * d.lengthFt == d.lengthFt - distanceFt;
    assert slack < 0.0 ==> slack * d.lengthFt < 0.0;
    assert 0.0 <= share;
    var root := d.rootOfShare(share);
    if distanceFt < d.lengthFt {
      if root < share {
        RootBelowShare(root, share);
        assert false;
      }
      MulMonotone(share, root, d.rollS(ac));
      var r := d.rollS(ac);
      assert (r * root) * (r * root) == r * r * (root * root);
    } else {
      assert share == 1.0;
    }
  }

  /** The part of the runway that counts for a distance. */
  function Clamped(d: Data, distanceFt: real): real {
    if distanceFt > d.lengthFt then d.lengthFt else Max(distanceFt, 0.0)
  }

  /** With constant acceleration over the roll time, the aircraft has the distance (or the whole
      runway) behind it after time t. */
  ghost predicate HasRolled(d: Data, ac: RunwayOp, distanceFt: real, t: real) {
    t * t * d.lengthFt >= d.rollS(ac) * d.rollS(ac) * Clamped(d, distanceFt)
  }

  /** The time to roll is exactly when the distance is behind the aircraft. */
  lemma RollIsExact(d: Data, ac: RunwayOp, distanceFt: real, t: real)
    requires ValidData(d) && t >= 0.0
    ensures t >= TimeToRoll(d, ac, distanceFt) <==> HasRolled(d, ac, distanceFt, t)
  {
    var dist := Clamped(d, distanceFt);
    var s := TimeToRoll(d, ac, dist);
    assert dist / d.lengthFt == Max(dist, 0.0) / d.lengthFt;
    assert TimeToRoll(d, ac, distanceFt) == s;
    RollIsConservative(d, ac, dist);
    SquareLess(t, s);
    ShareOfLength(d.rollS(ac) * d.rollS(ac), dist, d.lengthFt, s * s, t * t);
  }

  lemma ShareOfLength(r2: real, dist: real, length: real, s2: real, t2: real)
    requires length > 0.0 && s2 == r2 * (dist / length)
    ensures t2 >= s2 <==> t2 * length >= r2 * dist
  {
    var share := dist / length;
    assert share * length == dist;
    assert s2 * length == r2 * (share * length);
    var x := t2 - s2;
    assert x * length == t2 * length - s2 * length;
    assert x >= 0.0 <==> x * length >= 0.0;
  }

  /** The runway is free for the follower t seconds after the leader: a landing one has vacated
      it, a departing one has rolled the required distance, and its wake has had its time. */
  ghost predicate Released(d: Data, leader: RunwayOp, follower: RunwayOp, t: real) {
    match (leader.op, follower.op)
    case (Arrival, _) => t >= d.occupancyS(leader)
    case (Departure, Arrival) => HasRolled(d, leader, NoticeDistance(d, d.srs(leader), d.srs(follower)), t)
    case (Departure, Departure) =>
      && HasRolled(d, leader, NoticeDistance(d, d.srs(leader), d.srs(follower)), t)
      && (d.departureWakeS(leader.wake, follower.wake).Some? ==>
         t >= d.departureWakeS(leader.wake, follower.wake).value)
  }

  /** The requirement is exact: a follower that waits at least that long finds the runway
      released, and one that waits less does not. */
  lemma RequirementIsExact(d: Data, leader: RunwayOp, follower: RunwayOp, t: real)
    requires ValidData(d) && t >= 0.0
    ensures t >= Requirement(d, leader, follower) <==> Released(d, leader, follower, t)
  {
    RollIsExact(d, leader, SrsDistance(d, leader, follower), t);
  }

  lemma RootBelowShare(root: real, share: real)
    requires 0.0 <= root < share <= 1.0
    ensures root * root < share
  {
    SquareBelow(root);
  }

  lemma SquareBelow(x: real)
    requires 0.0 <= x <= 1.0
    ensures x * x <= x
  {
    MulMonotone(x, 1.0, x);
  }

  /** The rules as the sequencer uses them. */
  function Rules(d: Data): (RunwayOp, RunwayOp) -> real
    requires ValidData(d)
  {
    (leader: RunwayOp, follower: RunwayOp) => Requirement(d, leader, follower)
  }
}
