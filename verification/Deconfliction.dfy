/** Slot repair: scan the schedule, push the later aircraft of the worst pair behind its
    predecessor, lay out again, repeat. Works on the times of a fixed order. */
module Deconfliction {
  import opened Options
  import opened RealFacts
  import opened FinalApproach
  import opened SlotTimes
  import opened Sequencing

  /** Position of a callsign in the order. */
  function IndexOf<A>(sp: Spacing<A>, order: seq<A>, callsign: string): (r: Option<nat>)
    ensures r.Some? ==> r.value < |order| && sp.callsign(order[r.value]) == callsign
    ensures r == None ==> forall i :: 0 <= i < |order| ==> sp.callsign(order[i]) != callsign
  {
    if order == [] then None
    else if sp.callsign(order[|order| - 1]) == callsign then Some(|order| - 1)
    else IndexOf(sp, order[..|order| - 1], callsign)
  }

  /** Which member of a reported pair is pushed: the one later in the order. An unknown
      callsign counts as position 0 here, and looking it up afterwards fails (`None`). */
  function LaterIndex<A>(sp: Spacing<A>, order: seq<A>, pair: (string, string)): (r: Option<nat>)
    ensures r.Some? ==> r.value < |order|
  {
    var a, b := IndexOf(sp, order, pair.0), IndexOf(sp, order, pair.1);
    var ia := if a.Some? then a.value else 0;
    var ib := if b.Some? then b.value else 0;
    if ia > ib then a else b
  }

  /** Who is pushed: of two known callsigns the one later in the order; next to an unknown one the
      other, unless that is the very first and named first. */
  lemma WhoIsPushed<A>(sp: Spacing<A>, order: seq<A>, pair: (string, string))
    ensures var first, second, r := IndexOf(sp, order, pair.0), IndexOf(sp, order, pair.1), LaterIndex(sp, order, pair);
            && (first.Some? && second.Some? && first.value <= second.value ==> r == second)
            && (first.Some? && second.Some? && second.value <= first.value ==> r == first)
            && (first == None ==> r == second)
            && (first == Some(0) && second == None ==> r == None)
            && (first.Some? && first.value > 0 && second == None ==> r == first)
  {
  }

  /** Everybody before position k keeps the time; k goes 5 % more than one gap behind its
      predecessor; the rest is laid out again. */
  function Push<A>(sp: Spacing<A>, order: seq<A>, u: seq<real>, k: nat): (v: seq<real>)
    requires k < |order| == |u|
    ensures |v| == |u|
  {
    var kept := PinPrefix(sp, order, u, k);
    var pins := if k == 0 then kept
                else kept[sp.callsign(order[k]) := u[k - 1] + sp.gap(order[k - 1], order[k]) * 1.05];
    Times(sp, order, pins)
  }

  lemma PushAt<A>(sp: Spacing<A>, order: seq<A>, u: seq<real>, k: nat, i: nat)
    requires Unique(sp, order) && k < |order| == |u| && i < |u|
    ensures var v := Push(sp, order, u, k);
            && (i < k ==> v[i] == u[i])
            && (i == k > 0 ==> v[i] == u[k - 1] + sp.gap(order[k - 1], order[k]) * 1.05)
            && (i > k ==> v[i] == Max(sp.earliest(order[i]), v[i - 1] + sp.gap(order[i - 1], order[i])))
            && (i == k == 0 ==> v[i] == sp.earliest(order[0]))
  {
    if i < k {
      PinPrefixValue(sp, order, u, k, i);
      assert sp.callsign(order[i]) != sp.callsign(order[k]);
    } else {
      NotPinned(sp, order, u, k, sp.callsign(order[i]));
      assert i > k ==> sp.callsign(order[k]) != sp.callsign(order[i]);
    }
  }

  /** Number of unmet adjacent gaps among the first n. */
  ghost function UnmetGaps<A>(sp: Spacing<A>, order: seq<A>, u: seq<real>, n: nat): (c: nat)
    requires |u| == |order| && (n == 0 || n < |u|)
    ensures c <= n
  {
    if n == 0 then 0 else UnmetGaps(sp, order, u, n - 1) + if GapMet(sp, order, u, n - 1) then 0 else 1
  }

  ghost function Unmet<A>(sp: Spacing<A>, order: seq<A>, u: seq<real>): (c: nat)
    requires |u| == |order|
    ensures c <= if |u| == 0 then 0 else |u| - 1
  {
    UnmetGaps(sp, order, u, if |u| == 0 then 0 else |u| - 1)
  }

  lemma PushGaps<A(!new)>(sp: Spacing<A>, order: seq<A>, u: seq<real>, k: nat, i: nat)
    requires NonNegativeGaps(sp) && Unique(sp, order) && k < |order| == |u| && i < |u| - 1
    ensures i + 1 < k ==> (GapMet(sp, order, Push(sp, order, u, k), i) <==> GapMet(sp, order, u, i))
    ensures i + 1 >= k ==> GapMet(sp, order, Push(sp, order, u, k), i)
  {
    PushAt(sp, order, u, k, i);
    PushAt(sp, order, u, k, i + 1);
    assert sp.gap(order[i], order[i + 1]) >= 0.0;
  }

  /** `v` meets every gap from position k on and agrees with `u` on the gaps before it. */
  ghost predicate RepairedFrom<A>(sp: Spacing<A>, order: seq<A>, u: seq<real>, v: seq<real>, k: nat)
    requires |u| == |order| == |v|
  {
    forall i :: 0 <= i < |u| - 1 ==> (GapMet(sp, order, v, i) <==> i + 1 >= k || GapMet(sp, order, u, i))
  }

  lemma {:induction false} RepairedCounts<A>(sp: Spacing<A>, order: seq<A>, u: seq<real>, v: seq<real>, k: nat, n: nat)
    requires |u| == |order| == |v| && 0 < k && n < |u| && RepairedFrom(sp, order, u, v, k)
    ensures UnmetGaps(sp, order, v, n) == UnmetGaps(sp, order, u, if n < k then n else k - 1)
  {
    if n == 0 {
    } else {
      RepairedCounts(sp, order, u, v, k, n - 1);
      assert GapMet(sp, order, v, n - 1) <==> n >= k || GapMet(sp, order, u, n - 1);
    }
  }

  /** A push meets every gap from the pushed aircraft on and leaves the gaps before it alone. */
  lemma PushRepairs<A(!new)>(sp: Spacing<A>, order: seq<A>, u: seq<real>, k: nat) returns (v: seq<real>)
    requires NonNegativeGaps(sp) && Unique(sp, order) && k < |order| == |u|
    ensures v == Push(sp, order, u, k) && RepairedFrom(sp, order, u, v, k)
  {
    v := Push(sp, order, u, k);
    forall i | 0 <= i < |u| - 1
      ensures GapMet(sp, order, Push(sp, order, u, k), i) <==> i + 1 >= k || GapMet(sp, order, u, i)
    {
      PushGaps(sp, order, u, k, i);
    }
  }

  lemma {:induction false} UnmetMonotone<A>(sp: Spacing<A>, order: seq<A>, u: seq<real>, m: nat, n: nat)
    requires |u| == |order| && m <= n < |u|
    ensures UnmetGaps(sp, order, u, m) <= UnmetGaps(sp, order, u, n)
    decreases n
  {
    if m == n {
    } else {
      UnmetMonotone(sp, order, u, m, n - 1);
    }
  }

  lemma {:induction false} UnmetBeyond<A>(sp: Spacing<A>, order: seq<A>, u: seq<real>, m: nat, n: nat)
    requires |u| == |order| && m <= n < |u|
    ensures UnmetGaps(sp, order, u, m) < UnmetGaps(sp, order, u, n) <==>
            exists i :: m <= i < n && !GapMet(sp, order, u, i)
    decreases n
  {
    if m == n {
    } else {
      UnmetBeyond(sp, order, u, m, n - 1);
      UnmetMonotone(sp, order, u, m, n - 1);
      if i :| m <= i < n && !GapMet(sp, order, u, i) {
        assert i == n - 1 || i < n - 1;
      }
    }
  }

  lemma RepairReducesIff<A>(sp: Spacing<A>, order: seq<A>, u: seq<real>, v: seq<real>, k: nat)
    requires |u| == |order| == |v| && 0 < k < |u| && RepairedFrom(sp, order, u, v, k)
    ensures Unmet(sp, order, v) <= Unmet(sp, order, u)
    ensures Unmet(sp, order, v) < Unmet(sp, order, u) <==> exists i :: k - 1 <= i < |u| - 1 && !GapMet(sp, order, u, i)
  {
    RepairedCounts(sp, order, u, v, k, |u| - 1);
    UnmetMonotone(sp, order, u, k - 1, |u| - 1);
    UnmetBeyond(sp, order, u, k - 1, |u| - 1);
  }

  /** When a push makes progress: it reduces the number of unmet gaps if and only if one of the
      gaps from the pushed aircraft's own on is unmet. It never increases it. */
  lemma PushReducesIff<A(!new)>(sp: Spacing<A>, order: seq<A>, u: seq<real>, k: nat)
    requires NonNegativeGaps(sp) && Unique(sp, order) && 0 < k < |order| == |u|
    ensures Unmet(sp, order, Push(sp, order, u, k)) <= Unmet(sp, order, u)
    ensures Unmet(sp, order, Push(sp, order, u, k)) < Unmet(sp, order, u) <==>
            exists i :: k - 1 <= i < |u| - 1 && !GapMet(sp, order, u, i)
  {
    var v := PushRepairs(sp, order, u, k);
    RepairReducesIff(sp, order, u, v, k);
  }

  /** A push depends only on the times in front of the pushed aircraft: a second one changes
      nothing. */
  lemma PushIdempotent<A>(sp: Spacing<A>, order: seq<A>, u: seq<real>, k: nat)
    requires Unique(sp, order) && k < |order| == |u|
    ensures Push(sp, order, Push(sp, order, u, k), k) == Push(sp, order, u, k)
  {
    forall i | 0 <= i < |u| ensures Push(sp, order, Push(sp, order, u, k), k)[i] == Push(sp, order, u, k)[i] {
      PushTwice(sp, order, u, k, i);
    }
  }

  lemma {:induction false} PushTwice<A>(sp: Spacing<A>, order: seq<A>, u: seq<real>, k: nat, i: nat)
    requires Unique(sp, order) && k < |order| == |u| && i < |u|
    ensures Push(sp, order, Push(sp, order, u, k), k)[i] == Push(sp, order, u, k)[i]
  {
    var v := Push(sp, order, u, k);
    PushAt(sp, order, v, k, i);
    if i == k {
      PushAt(sp, order, u, k, k);
      PushAt(sp, order, u, k, if k > 0 then k - 1 else 0);
    } else if i > k {
      PushAt(sp, order, u, k, i);
      PushTwice(sp, order, u, k, i - 1);
    }
  }

  /** When a push is physically possible. From times none of which is before the earliest
      one, the pushed schedule has the same property if and only if the pushed aircraft is put
      at or after its earliest time. Nothing in the code checks this. */
  lemma PushFlyableIff<A>(sp: Spacing<A>, order: seq<A>, u: seq<real>, k: nat)
    requires Unique(sp, order) && 0 < k < |order| == |u| && NoneEarly(sp, order, u)
    ensures NoneEarly(sp, order, Push(sp, order, u, k)) <==>
            u[k - 1] + sp.gap(order[k - 1], order[k]) * 1.05 >= sp.earliest(order[k])
  {
    var v := Push(sp, order, u, k);
    PushAt(sp, order, u, k, k);
    if v[k] >= sp.earliest(order[k]) {
      forall i | 0 <= i < |v| ensures sp.earliest(order[i]) <= v[i] {
        PushAt(sp, order, u, k, i);
      }
    }
  }

  /** An unmet gap is enough for that. */
  lemma UnmetPushIsFlyable<A(!new)>(sp: Spacing<A>, order: seq<A>, u: seq<real>, k: nat)
    requires NonNegativeGaps(sp) && Unique(sp, order) && 0 < k < |order| == |u| && NoneEarly(sp, order, u)
    requires !GapMet(sp, order, u, k - 1)
    ensures NoneEarly(sp, order, Push(sp, order, u, k))
  {
    PushFlyableIff(sp, order, u, k);
    var g := sp.gap(order[k - 1], order[k]);
    assert g >= 0.0 && g * 1.05 >= g;
    assert sp.earliest(order[k]) <= u[k];
  }

  /** A push can ask for the impossible: with a gap that is already met, the aircraft is sent
      to the threshold long before it can be there. */
  lemma PushCanBeUnflyable()
    ensures var sp := Spacing((n: int) => if n == 0 then "A" else "B", (n: int) => if n == 0 then 0.0 else 1000.0,
                              (a: int, b: int) => 100.0);
            && Unique(sp, [0, 1]) && NoneEarly(sp, [0, 1], [0.0, 1000.0]) && GapsMet(sp, [0, 1], [0.0, 1000.0])
            && Push(sp, [0, 1], [0.0, 1000.0], 1)[1] == 105.0
            && !NoneEarly(sp, [0, 1], Push(sp, [0, 1], [0.0, 1000.0], 1))
  {
    var sp := Spacing((n: int) => if n == 0 then "A" else "B", (n: int) => if n == 0 then 0.0 else 1000.0,
                      (a: int, b: int) => 100.0);
    assert sp.callsign(0) == "A" && sp.callsign(1) == "B";
    assert "A"[0] != "B"[0];
    PushAt(sp, [0, 1], [0.0, 1000.0], 1, 1);
    PushFlyableIff(sp, [0, 1], [0.0, 1000.0], 1);
  }

  // ---------------------------------------------------------------- the repair loop

  datatype Outcome = Solved(times: seq<real>, pushes: nat) | GivenUp(times: seq<real>, pushes: nat) | UnknownCallsign

  /** What the loop does from round `round` on; `scan` gives the violations found when flying
      the schedule, the worst first. */
  function Repair<A>(sp: Spacing<A>, order: seq<A>, scan: seq<real> -> seq<(string, string)>, u: seq<real>, round: nat,
                     maxRounds: nat): (r: Outcome)
    requires |u| == |order| && 1 <= round <= maxRounds + 1
    ensures r != UnknownCallsign ==> |r.times| == |order|
    ensures r.Solved? ==> scan(r.times) == []
    decreases maxRounds + 1 - round
  {
    if round > maxRounds then GivenUp(u, maxRounds)
    else
      var found := scan(u);
      if found == [] then Solved(u, round - 1)
      else
        match LaterIndex(sp, order, found[0])
        case None => UnknownCallsign
        case Some(k) => Repair(sp, order, scan, Push(sp, order, u, k), round + 1, maxRounds)
  }

  method DeconflictArrivalStream<A>(sp: Spacing<A>, order: seq<A>, scan: seq<real> -> seq<(string, string)>,
                                    initial: seq<real>, maxRounds: nat)
    returns (r: Outcome)
    requires |initial| == |order|
    ensures r == Repair(sp, order, scan, initial, 1, maxRounds)
  {
    var u := initial;
    for round := 1 to maxRounds + 1
      invariant |u| == |order|
      invariant Repair(sp, order, scan, initial, 1, maxRounds) == Repair(sp, order, scan, u, round, maxRounds)
    {
      var found := scan(u);
      if found == [] {
        return Solved(u, round - 1);
      }
      var later := LaterIndex(sp, order, found[0]);
      if later == None {
        return UnknownCallsign;
      }
      u := Push(sp, order, u, later.value);
    }
    return GivenUp(u, maxRounds);
  }

  lemma RepairContinues<A>(sp: Spacing<A>, order: seq<A>, scan: seq<real> -> seq<(string, string)>, u: seq<real>,
                           v: seq<real>, round: nat, maxRounds: nat)
    requires |u| == |order| == |v| && 1 <= round <= maxRounds && scan(u) != []
    requires LaterIndex(sp, order, scan(u)[0]).Some? && v == Push(sp, order, u, LaterIndex(sp, order, scan(u)[0]).value)
    ensures Repair(sp, order, scan, u, round, maxRounds) == Repair(sp, order, scan, v, round + 1, maxRounds)
  {
  }

  // ---------------------------------------------------------------- when the repair converges

  ghost predicate SolvedWithin(r: Outcome, pushes: int, good: seq<real> -> bool) {
    r.Solved? && r.pushes <= pushes && good(r.times)
  }

  /** The push asked for at these times leads to good times of less weight. */
  ghost predicate Descends<A>(sp: Spacing<A>, order: seq<A>, scan: seq<real> -> seq<(string, string)>,
                              good: seq<real> -> bool, weight: seq<real> -> nat, u: seq<real>)
    requires |u| == |order|
  {
    scan(u) != [] ==>
      var later := LaterIndex(sp, order, scan(u)[0]);
      later.Some? && good(Push(sp, order, u, later.value)) && weight(Push(sp, order, u, later.value)) < weight(u)
  }

  /** Any weight that every push asked for reduces bounds the number of pushes. */
  lemma {:induction false} RepairDescends<A>(sp: Spacing<A>, order: seq<A>, scan: seq<real> -> seq<(string, string)>,
                                             good: seq<real> -> bool, weight: seq<real> -> nat, u: seq<real>,
                                             round: nat, maxRounds: nat, w: nat)
    requires forall v: seq<real> {:trigger Descends(sp, order, scan, good, weight, v)} ::
               |v| == |order| && good(v) ==> Descends(sp, order, scan, good, weight, v)
    requires |u| == |order| && good(u) && 1 <= round && weight(u) <= w && round + w <= maxRounds
    ensures SolvedWithin(Repair(sp, order, scan, u, round, maxRounds), round - 1 + w, good)
    decreases w
  {
    assert Descends(sp, order, scan, good, weight, u);
    if scan(u) == [] {
    } else {
      var v := Push(sp, order, u, LaterIndex(sp, order, scan(u)[0]).value);
      RepairContinues(sp, order, scan, u, v, round, maxRounds);
      RepairDescends(sp, order, scan, good, weight, v, round + 1, maxRounds, w - 1);
    }
  }

  /** With nobody early, the worst violation is one whose later aircraft has an unmet gap to its
      immediate predecessor. */
  ghost predicate ReportsUnmetGaps<A>(sp: Spacing<A>, order: seq<A>, scan: seq<real> -> seq<(string, string)>) {
    forall u: seq<real> {:trigger UnmetReport(sp, order, scan, u)} ::
      |u| == |order| && NoneEarly(sp, order, u) ==> UnmetReport(sp, order, scan, u)
  }

  ghost predicate UnmetReport<A>(sp: Spacing<A>, order: seq<A>, scan: seq<real> -> seq<(string, string)>, u: seq<real>)
    requires |u| == |order|
  {
    scan(u) != [] ==>
      var later := LaterIndex(sp, order, scan(u)[0]);
      later.Some? && later.value > 0 && !GapMet(sp, order, u, later.value - 1)
  }

  ghost function UnmetOf<A>(sp: Spacing<A>, order: seq<A>): seq<real> -> nat {
    (u: seq<real>) => if |u| == |order| then Unmet(sp, order, u) else 0
  }

  ghost function Flyable<A>(sp: Spacing<A>, order: seq<A>): seq<real> -> bool {
    (u: seq<real>) => |u| == |order| && NoneEarly(sp, order, u)
  }

  /** Convergence when every report has an unmet gap: with fewer unmet gaps than rounds, the repair
      ends with a clean scan after at most as many pushes as there were unmet gaps, and nobody is
      sent below its earliest time. */
  lemma RepairConverges<A(!new)>(sp: Spacing<A>, order: seq<A>, scan: seq<real> -> seq<(string, string)>, u: seq<real>,
                                 maxRounds: nat)
    requires NonNegativeGaps(sp) && Unique(sp, order) && |u| == |order|
    requires ReportsUnmetGaps(sp, order, scan) && NoneEarly(sp, order, u) && Unmet(sp, order, u) < maxRounds
    ensures var r := Repair(sp, order, scan, u, 1, maxRounds);
            r.Solved? && r.pushes <= Unmet(sp, order, u) && NoneEarly(sp, order, r.times)
  {
    var good, weight := Flyable(sp, order), UnmetOf(sp, order);
    forall v: seq<real> | |v| == |order| && good(v) ensures Descends(sp, order, scan, good, weight, v) {
      assert UnmetReport(sp, order, scan, v);
      if scan(v) != [] {
        UnmetDescends(sp, order, v, LaterIndex(sp, order, scan(v)[0]).value);
      }
    }
    RepairDescends(sp, order, scan, good, weight, u, 1, maxRounds, weight(u));
  }

  lemma UnmetDescends<A(!new)>(sp: Spacing<A>, order: seq<A>, u: seq<real>, k: nat)
    requires NonNegativeGaps(sp) && Unique(sp, order) && 0 < k < |order| == |u| && NoneEarly(sp, order, u)
    requires !GapMet(sp, order, u, k - 1)
    ensures var v := Push(sp, order, u, k); Flyable(sp, order)(v) && UnmetOf(sp, order)(v) < UnmetOf(sp, order)(u)
  {
    PushReducesIff(sp, order, u, k);
    UnmetPushIsFlyable(sp, order, u, k);
  }

  // ---------------------------------------------------------------- when the repair is stuck

  /** A push that changes nothing and is asked for by the scan of its own result is asked for in
      every round. */
  lemma {:induction false} Stuck<A>(sp: Spacing<A>, order: seq<A>, scan: seq<real> -> seq<(string, string)>,
                                    u: seq<real>, k: nat, round: nat, maxRounds: nat)
    requires |u| == |order| && k < |order| && 1 <= round <= maxRounds + 1
    requires scan(u) != [] && LaterIndex(sp, order, scan(u)[0]) == Some(k) && Push(sp, order, u, k) == u
    ensures Repair(sp, order, scan, u, round, maxRounds) == GivenUp(u, maxRounds)
    decreases maxRounds + 1 - round
  {
    if round > maxRounds {
    } else {
      RepairContinues(sp, order, scan, u, u, round, maxRounds);
      Stuck(sp, order, scan, u, k, round + 1, maxRounds);
    }
  }

  /** Whatever the scan reports first, the later aircraft is the one at position k. */
  ghost predicate OnlyReports<A>(sp: Spacing<A>, order: seq<A>, scan: seq<real> -> seq<(string, string)>, k: nat) {
    forall u: seq<real> :: |u| == |order| && scan(u) != [] ==> LaterIndex(sp, order, scan(u)[0]) == Some(k)
  }

  /** The repair of one aircraft's slot, whatever the number of rounds: it gives up exactly when
      something is reported before the first push and after it. */
  lemma OnePairIff<A>(sp: Spacing<A>, order: seq<A>, scan: seq<real> -> seq<(string, string)>, u: seq<real>, k: nat,
                      maxRounds: nat)
    requires Unique(sp, order) && |u| == |order| && k < |order| && maxRounds >= 2 && OnlyReports(sp, order, scan, k)
    ensures var v := Push(sp, order, u, k);
            Repair(sp, order, scan, u, 1, maxRounds) ==
              if scan(u) == [] then Solved(u, 0) else if scan(v) == [] then Solved(v, 1) else GivenUp(v, maxRounds)
  {
    var v := Push(sp, order, u, k);
    PushIdempotent(sp, order, u, k);
    if scan(u) != [] {
      RepairContinues(sp, order, scan, u, v, 1, maxRounds);
      if scan(v) != [] {
        Stuck(sp, order, scan, v, k, 2, maxRounds);
      }
    }
  }

  // ---------------------------------------------------------------- when the repair settles

  /** The aircraft at position k is further behind its predecessor than the gap asks for. */
  ghost predicate HasSpare<A>(sp: Spacing<A>, order: seq<A>, u: seq<real>, k: nat)
    requires |u| == |order| && 0 < k < |u|
  {
    u[k - 1] + sp.gap(order[k - 1], order[k]) < u[k]
  }

  function Power(n: nat): (p: nat)
    ensures p >= 1
  {
    if n == 0 then 1 else 2 * Power(n - 1)
  }

  /** Number of positions from k on that can be reported at all. */
  function HotFrom(hot: nat -> bool, k: nat, n: nat): nat
    decreases n - k
  {
    if k >= n then 0 else (if hot(k) then 1 else 0) + HotFrom(hot, k + 1, n)
  }

  /** The positions without spare read as binary digits, the foremost the highest. */
  ghost function Weight<A>(sp: Spacing<A>, order: seq<A>, u: seq<real>, hot: nat -> bool, k: nat): (w: nat)
    requires |u| == |order| && k > 0
    ensures w < Power(HotFrom(hot, k, |u|))
    decreases |u| - k
  {
    if k >= |u| then 0
    else (if hot(k) && !HasSpare(sp, order, u, k) then Power(HotFrom(hot, k + 1, |u|)) else 0)
         + Weight(sp, order, u, hot, k + 1)
  }

  lemma PushSpare<A>(sp: Spacing<A>, order: seq<A>, u: seq<real>, j: nat, k: nat)
    requires Unique(sp, order) && 0 < k <= j < |order| == |u| && sp.gap(order[j - 1], order[j]) > 0.0
    ensures k < j ==> (HasSpare(sp, order, Push(sp, order, u, j), k) <==> HasSpare(sp, order, u, k))
    ensures HasSpare(sp, order, Push(sp, order, u, j), j)
  {
    PushAt(sp, order, u, j, k - 1);
    PushAt(sp, order, u, j, k);
    PushAt(sp, order, u, j, j - 1);
    PushAt(sp, order, u, j, j);
  }

  /** A push clears its own digit and may set lower ones only. */
  lemma {:induction false} PushWeight<A>(sp: Spacing<A>, order: seq<A>, u: seq<real>, v: seq<real>, hot: nat -> bool,
                                         j: nat, k: nat)
    requires |u| == |order| == |v| && 0 < k <= j < |u| && hot(j) && !HasSpare(sp, order, u, j) &&
             HasSpare(sp, order, v, j)
    requires forall i :: 0 < i < j ==> (HasSpare(sp, order, v, i) <==> HasSpare(sp, order, u, i))
    ensures Weight(sp, order, v, hot, k) < Weight(sp, order, u, hot, k)
    decreases j - k
  {
    if k == j {
    } else {
      PushWeight(sp, order, u, v, hot, j, k + 1);
    }
  }

  /** What the scan first reports of these times: a position that can be reported, without spare,
      and the push keeps what is known of the times. */
  ghost predicate Reported<A>(sp: Spacing<A>, order: seq<A>, pair: (string, string), u: seq<real>,
                              good: seq<real> -> bool, hot: nat -> bool)
    requires |u| == |order|
  {
    var later := LaterIndex(sp, order, pair);
    && later.Some? && later.value > 0 && hot(later.value) && !HasSpare(sp, order, u, later.value)
    && sp.gap(order[later.value - 1], order[later.value]) > 0.0 && good(Push(sp, order, u, later.value))
  }

  ghost predicate Settles<A>(sp: Spacing<A>, order: seq<A>, scan: seq<real> -> seq<(string, string)>,
                             good: seq<real> -> bool, hot: nat -> bool)
  {
    forall u: seq<real> {:trigger Reported(sp, order, scan(u)[0], u, good, hot)} ::
      |u| == |order| && good(u) && scan(u) != [] ==> Reported(sp, order, scan(u)[0], u, good, hot)
  }

  lemma ReportedWeight<A>(sp: Spacing<A>, order: seq<A>, pair: (string, string), u: seq<real>, good: seq<real> -> bool,
                          hot: nat -> bool)
    requires Unique(sp, order) && |u| == |order| && Reported(sp, order, pair, u, good, hot)
    ensures var v := Push(sp, order, u, LaterIndex(sp, order, pair).value);
            good(v) && Weight(sp, order, v, hot, 1) < Weight(sp, order, u, hot, 1)
  {
    var j := LaterIndex(sp, order, pair).value;
    var v := Push(sp, order, u, j);
    forall i | 0 < i <= j
      ensures HasSpare(sp, order, v, j) && (i < j ==> (HasSpare(sp, order, v, i) <==> HasSpare(sp, order, u, i)))
    {
      PushSpare(sp, order, u, j, i);
    }
    PushWeight(sp, order, u, v, hot, j, 1);
  }

  /** The bound is met when the last aircraft without spare is pushed and everybody behind it is laid
      out without spare again: the number goes down by one. */
  lemma {:induction false} CountsDown<A>(sp: Spacing<A>, order: seq<A>, u: seq<real>, v: seq<real>, hot: nat -> bool,
                                         j: nat, k: nat)
    requires |u| == |order| == |v| && 0 < k && 0 < j < |u| && hot(j) && !HasSpare(sp, order, u, j) &&
             HasSpare(sp, order, v, j)
    requires forall i :: 0 < i < j ==> (HasSpare(sp, order, v, i) <==> HasSpare(sp, order, u, i))
    requires forall i :: j < i < |u| ==> HasSpare(sp, order, u, i) && !HasSpare(sp, order, v, i)
    ensures k > j ==>
            Weight(sp, order, u, hot, k) == 0 &&
            Weight(sp, order, v, hot, k) + 1 == Power(HotFrom(hot, k, |u|))
    ensures k <= j ==> Weight(sp, order, v, hot, k) + 1 == Weight(sp, order, u, hot, k)
    decreases |u| - k
  {
    if k >= |u| {
    } else {
      CountsDown(sp, order, u, v, hot, j, k + 1);
    }
  }

  /** Convergence of any scan that reports only aircraft without spare. A push lays out everybody
      behind it without spare again, so the pushes count down a binary number: with h positions
      that can be reported there are fewer than 2^h of them. */
  lemma RepairSettles<A(!new)>(sp: Spacing<A>, order: seq<A>, scan: seq<real> -> seq<(string, string)>,
                               good: seq<real> -> bool, hot: nat -> bool, u: seq<real>, maxRounds: nat)
    requires Unique(sp, order) && |u| == |order| && good(u) && Settles(sp, order, scan, good, hot)
    requires Power(HotFrom(hot, 1, |u|)) <= maxRounds
    ensures SolvedWithin(Repair(sp, order, scan, u, 1, maxRounds), Power(HotFrom(hot, 1, |u|)) - 1, good)
  {
    var weight := WeightOf(sp, order, hot);
    forall v: seq<real> | |v| == |order| && good(v) ensures Descends(sp, order, scan, good, weight, v) {
      if scan(v) != [] {
        assert Reported(sp, order, scan(v)[0], v, good, hot);
        ReportedWeight(sp, order, scan(v)[0], v, good, hot);
      }
    }
    RepairDescends(sp, order, scan, good, weight, u, 1, maxRounds, weight(u));
  }

  ghost function WeightOf<A>(sp: Spacing<A>, order: seq<A>, hot: nat -> bool): seq<real> -> nat {
    (u: seq<real>) => if |u| == |order| then Weight(sp, order, u, hot, 1) else 0
  }

  // ---------------------------------------------------------------- when the bound is met

  /** Everybody keeps the gap exactly or with the five per cent of a push, and could be there as soon
      as the first. */
  ghost predicate Ladder<A>(sp: Spacing<A>, order: seq<A>, u: seq<real>) {
    |u| == |order| && forall i :: 0 < i < |u| ==> Rung(sp, order, u, i)
  }

  ghost predicate Rung<A>(sp: Spacing<A>, order: seq<A>, u: seq<real>, i: int)
    requires 0 < i < |u| == |order|
  {
    var g := sp.gap(order[i - 1], order[i]);
    g > 0.0 && sp.earliest(order[i]) <= u[0] && (u[i] == u[i - 1] + g || u[i] == u[i - 1] + g * 1.05)
  }

  lemma {:induction false} LadderPushAt<A>(sp: Spacing<A>, order: seq<A>, u: seq<real>, k: nat, i: nat)
    requires Unique(sp, order) && Ladder(sp, order, u) && 0 < k < |u| && i < |u|
    ensures var v := Push(sp, order, u, k);
            && v[i] >= u[0] && (i < k ==> v[i] == u[i])
            && (i == k ==> v[i] == v[i - 1] + sp.gap(order[i - 1], order[i]) * 1.05)
            && (i > k ==> v[i] == v[i - 1] + sp.gap(order[i - 1], order[i]))
  {
    PushAt(sp, order, u, k, i);
    if i == 0 {
    } else {
      PushAt(sp, order, u, k, i - 1);
      assert Rung(sp, order, u, i);
      LadderPushAt(sp, order, u, k, i - 1);
    }
  }

  /** A push keeps the ladder, gives the pushed aircraft spare and takes it from those behind. */
  lemma LadderPush<A>(sp: Spacing<A>, order: seq<A>, u: seq<real>, k: nat) returns (v: seq<real>)
    requires Unique(sp, order) && Ladder(sp, order, u) && 0 < k < |u|
    ensures v == Push(sp, order, u, k) && Ladder(sp, order, v) && v[0] == u[0] && HasSpare(sp, order, v, k)
    ensures forall i :: 0 < i < k ==> (HasSpare(sp, order, v, i) <==> HasSpare(sp, order, u, i))
    ensures forall i :: k < i < |u| ==> !HasSpare(sp, order, v, i)
  {
    v := Push(sp, order, u, k);
    LadderPushAt(sp, order, u, k, 0);
    forall i | 0 < i < |u|
      ensures Rung(sp, order, v, i)
      ensures i < k ==> (HasSpare(sp, order, v, i) <==> HasSpare(sp, order, u, i))
      ensures i == k ==> HasSpare(sp, order, v, i)
      ensures i > k ==> !HasSpare(sp, order, v, i)
    {
      LadderRung(sp, order, u, k, i);
    }
  }

  lemma LadderRung<A>(sp: Spacing<A>, order: seq<A>, u: seq<real>, k: nat, i: nat)
    requires Unique(sp, order) && Ladder(sp, order, u) && 0 < k < |u| && 0 < i < |u|
    ensures var v := Push(sp, order, u, k);
            && Rung(sp, order, v, i)
            && (i < k ==> (HasSpare(sp, order, v, i) <==> HasSpare(sp, order, u, i)))
            && (i == k ==> HasSpare(sp, order, v, i)) && (i > k ==> !HasSpare(sp, order, v, i))
  {
    LadderPushAt(sp, order, u, k, 0);
    LadderPushAt(sp, order, u, k, i - 1);
    LadderPushAt(sp, order, u, k, i);
    assert Rung(sp, order, u, i);
  }

  /** Position k is the last one without spare. */
  ghost predicate LastTight<A>(sp: Spacing<A>, order: seq<A>, u: seq<real>, k: int)
    requires |u| == |order|
  {
    0 < k < |u| && !HasSpare(sp, order, u, k) && forall i :: k < i < |u| ==> HasSpare(sp, order, u, i)
  }

  /** The scan reports the last one without spare as long as there is any. */
  ghost predicate NamesLast<A>(sp: Spacing<A>, order: seq<A>, scan: seq<real> -> seq<(string, string)>, u: seq<real>)
    requires |u| == |order|
  {
    forall k :: LastTight(sp, order, u, k) ==> scan(u) != [] && LaterIndex(sp, order, scan(u)[0]) == Some(k)
  }

  lemma {:induction false} FindLastTight<A>(sp: Spacing<A>, order: seq<A>, u: seq<real>, hot: nat -> bool, n: nat)
      returns (k: nat)
    requires |u| == |order| && 0 < n <= |u| && Weight(sp, order, u, hot, 1) > 0
    requires forall i :: n <= i < |u| ==> HasSpare(sp, order, u, i)
    ensures LastTight(sp, order, u, k)
  {
    if n == 1 {
      NoWeight(sp, order, u, hot, 1);
      assert false;
    } else if HasSpare(sp, order, u, n - 1) {
      k := FindLastTight(sp, order, u, hot, n - 1);
    } else {
      k := n - 1;
    }
  }

  lemma {:induction false} NoWeight<A>(sp: Spacing<A>, order: seq<A>, u: seq<real>, hot: nat -> bool, k: nat)
    requires |u| == |order| && 0 < k && forall i :: k <= i < |u| ==> HasSpare(sp, order, u, i)
    ensures Weight(sp, order, u, hot, k) == 0
    decreases |u| - k
  {
    if k >= |u| {
    } else {
      NoWeight(sp, order, u, hot, k + 1);
    }
  }

  lemma {:induction false} FullWeight<A>(sp: Spacing<A>, order: seq<A>, u: seq<real>, hot: nat -> bool, k: nat)
    requires |u| == |order| && 0 < k && forall i :: k <= i < |u| ==> !HasSpare(sp, order, u, i)
    ensures Weight(sp, order, u, hot, k) + 1 == Power(HotFrom(hot, k, |u|))
    decreases |u| - k
  {
    if k >= |u| {
    } else {
      FullWeight(sp, order, u, hot, k + 1);
    }
  }

  ghost predicate AlwaysNamesLast<A>(sp: Spacing<A>, order: seq<A>, scan: seq<real> -> seq<(string, string)>,
                                     start: real) {
    forall u: seq<real> {:trigger NamesLast(sp, order, scan, u)} ::
      |u| == |order| && Ladder(sp, order, u) && |u| > 0 && u[0] == start ==> NamesLast(sp, order, scan, u)
  }

  lemma LadderRound<A>(sp: Spacing<A>, order: seq<A>, scan: seq<real> -> seq<(string, string)>, u: seq<real>,
                       hot: nat -> bool, start: real, round: nat, maxRounds: nat) returns (v: seq<real>)
    requires Unique(sp, order) && Ladder(sp, order, u) && 0 < |u| && u[0] == start && 1 <= round <= maxRounds
    requires AlwaysNamesLast(sp, order, scan, start)
    requires Weight(sp, order, u, hot, 1) > 0 && forall k: nat :: hot(k)
    ensures Ladder(sp, order, v) && |v| == |u| && v[0] == start &&
            Weight(sp, order, v, hot, 1) + 1 == Weight(sp, order, u, hot, 1)
    ensures Repair(sp, order, scan, u, round, maxRounds) == Repair(sp, order, scan, v, round + 1, maxRounds)
  {
    assert NamesLast(sp, order, scan, u);
    var k := FindLastTight(sp, order, u, hot, |u|);
    v := LadderPush(sp, order, u, k);
    RepairContinues(sp, order, scan, u, v, round, maxRounds);
    CountsDown(sp, order, u, v, hot, k, 1);
  }

  /** Such a scan takes as many pushes as the weight says. */
  lemma {:induction false} LadderGivesUp<A>(sp: Spacing<A>, order: seq<A>, scan: seq<real> -> seq<(string, string)>,
                                            u: seq<real>, hot: nat -> bool, start: real, round: nat, maxRounds: nat)
    requires Unique(sp, order) && Ladder(sp, order, u) && 0 < |u| && u[0] == start && 1 <= round <= maxRounds + 1
    requires AlwaysNamesLast(sp, order, scan, start) && forall k: nat :: hot(k)
    requires Weight(sp, order, u, hot, 1) + round > maxRounds
    ensures Repair(sp, order, scan, u, round, maxRounds).GivenUp?
    decreases maxRounds + 1 - round
  {
    if round > maxRounds {
      assert Repair(sp, order, scan, u, round, maxRounds) == GivenUp(u, maxRounds);
    } else {
      var v := LadderRound(sp, order, scan, u, hot, start, round, maxRounds);
      LadderGivesUp(sp, order, scan, v, hot, start, round + 1, maxRounds);
    }
  }

  /** Why the assumption on the scan is the right one for adjacent pairs: losing the required
      distance on final means that the gap between the two was unmet. */
  lemma LostDistanceIsUnmetGap(t: Tables, now: real, order: seq<Aircraft>, u: seq<real>, k: nat, at: real)
    requires ValidTables(t) && 0 < k < |order| == |u|
    requires BothOnFinal(t, order, u, k - 1, k, at)
    requires DistanceAt(t, order, u, k, at) - DistanceAt(t, order, u, k - 1, at) < RequiredNm(t, order[k - 1], order[k])
    ensures !GapMet(SpacingOf(t, now), order, u, k - 1)
  {
    var sp := SpacingOf(t, now);
    if GapMet(sp, order, u, k - 1) {
      var front, rear := order[k - 1], order[k];
      assert u[k] - u[k - 1] >= Gap(t, front, rear).seconds;
      GapKeepsDistance(u[k - 1], u[k], t.finalGsKt(front), t.finalGsKt(rear), t.joinNm, RequiredNm(t, front, rear), at);
      assert false;
    }
  }
}
