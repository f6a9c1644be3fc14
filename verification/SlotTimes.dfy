/** Slot times for an ordered queue, over any table of earliest times and pairwise gaps. The
    arrival sequencer, its priority insertion, the order search and the slot repair all work
    on these times. */
module SlotTimes {
  import opened Ordering
  import opened MaxPlus
  import opened RealFacts

  type Pins = map<string, real>

  datatype Spacing<!A> = Spacing(callsign: A -> string, earliest: A -> real, gap: (A, A) -> real)

  ghost predicate NonNegativeGaps<A(!new)>(sp: Spacing<A>) {
    forall a: A, b: A :: sp.gap(a, b) >= 0.0
  }

  ghost predicate Unique<A>(sp: Spacing<A>, s: seq<A>) {
    forall i, j :: 0 <= i < j < |s| ==> sp.callsign(s[i]) != sp.callsign(s[j])
  }

  /** Landing time of the i-th aircraft: its pin, or the later of its earliest time and its
      predecessor's time plus the gap. */
  function TimeAt<A>(sp: Spacing<A>, ordered: seq<A>, pins: Pins, i: nat): real
    requires i < |ordered|
  {
    var ac := ordered[i];
    if sp.callsign(ac) in pins then pins[sp.callsign(ac)]
    else if i == 0 then sp.earliest(ac)
    else Max(sp.earliest(ac), TimeAt(sp, ordered, pins, i - 1) + sp.gap(ordered[i - 1], ac))
  }

  function Times<A>(sp: Spacing<A>, ordered: seq<A>, pins: Pins): (u: seq<real>)
    ensures |u| == |ordered|
  {
    seq(|ordered|, i requires 0 <= i < |ordered| => TimeAt(sp, ordered, pins, i))
  }

  ghost predicate GapMet<A>(sp: Spacing<A>, ordered: seq<A>, u: seq<real>, k: int)
    requires |u| == |ordered| && 0 <= k < |u| - 1
  {
    u[k] + sp.gap(ordered[k], ordered[k + 1]) <= u[k + 1]
  }

  ghost predicate GapsMet<A>(sp: Spacing<A>, ordered: seq<A>, u: seq<real>)
    requires |u| == |ordered|
  {
    forall k :: 0 <= k < |u| - 1 ==> GapMet(sp, ordered, u, k)
  }

  ghost predicate NoneEarly<A>(sp: Spacing<A>, ordered: seq<A>, u: seq<real>)
    requires |u| == |ordered|
  {
    forall k :: 0 <= k < |u| ==> sp.earliest(ordered[k]) <= u[k]
  }

  // ---------------------------------------------------------------- layout without pins

  function EarliestTimes<A>(sp: Spacing<A>, ordered: seq<A>): (e: seq<real>)
    ensures |e| == |ordered|
  {
    seq(|ordered|, i requires 0 <= i < |ordered| => sp.earliest(ordered[i]))
  }

  function GapTimes<A>(sp: Spacing<A>, ordered: seq<A>): (g: seq<real>)
    ensures |g| + 1 >= |ordered|
  {
    seq(if |ordered| == 0 then 0 else |ordered| - 1,
        i requires 0 <= i < |ordered| - 1 => sp.gap(ordered[i], ordered[i + 1]))
  }

  lemma {:induction false} TimeIsGreedy<A>(sp: Spacing<A>, ordered: seq<A>, i: nat)
    requires i < |ordered|
    ensures TimeAt(sp, ordered, map[], i) == Greedy(EarliestTimes(sp, ordered), GapTimes(sp, ordered), i)
  {
    if i == 0 {
    } else {
      TimeIsGreedy(sp, ordered, i - 1);
    }
  }

  lemma TimesFeasible<A>(sp: Spacing<A>, ordered: seq<A>)
    ensures GapsMet(sp, ordered, Times(sp, ordered, map[])) && NoneEarly(sp, ordered, Times(sp, ordered, map[]))
  {
    var u := Times(sp, ordered, map[]);
    forall k | 0 <= k < |u| - 1 ensures GapMet(sp, ordered, u, k) {
      assert u[k + 1] == TimeAt(sp, ordered, map[], k + 1);
    }
  }

  /** Among all times that meet every gap and every earliest time the layout is the least, at
      every position; and each of its times is the undelayed time of some aircraft at or before
      that position plus the gaps in between. */
  lemma LayoutIsLeast<A>(sp: Spacing<A>, ordered: seq<A>, v: seq<real>, i: nat)
    requires i < |ordered| == |v|
    ensures GapsMet(sp, ordered, v) && NoneEarly(sp, ordered, v) ==> Times(sp, ordered, map[])[i] <= v[i]
    ensures exists j ::
              0 <= j <= i &&
              Times(sp, ordered, map[])[i] == sp.earliest(ordered[j]) + Span(GapTimes(sp, ordered), j, i)
  {
    var e, g := EarliestTimes(sp, ordered), GapTimes(sp, ordered);
    TimeIsGreedy(sp, ordered, i);
    ClosedForm(e, g, i);
    var j :| 0 <= j <= i && Greedy(e, g, i) == e[j] + Span(g, j, i);
    assert e[j] == sp.earliest(ordered[j]);
    if GapsMet(sp, ordered, v) && NoneEarly(sp, ordered, v) {
      IsFeasible(sp, ordered, v);
      GreedyIsLeast(e, g, v, i);
    }
  }

  /** A delay of one aircraft moves nobody in front of it and, position by position, never grows
      as it travels down the queue. `late` is the table with the later earliest time. */
  lemma LayoutDelayNeverGrows<A>(sp: Spacing<A>, late: Spacing<A>, ordered: seq<A>, k: nat, i: nat)
    requires k < |ordered| && i < |ordered| && sp.earliest(ordered[k]) <= late.earliest(ordered[k])
    requires forall m :: 0 <= m < |ordered| && m != k ==> sp.earliest(ordered[m]) == late.earliest(ordered[m])
    requires forall m :: 0 <= m < |ordered| - 1 ==>
             sp.gap(ordered[m], ordered[m + 1]) == late.gap(ordered[m], ordered[m + 1])
    ensures i < k ==> TimeAt(late, ordered, map[], i) == TimeAt(sp, ordered, map[], i)
    ensures 0.0 <= TimeAt(late, ordered, map[], i) - TimeAt(sp, ordered, map[], i) <=
                   late.earliest(ordered[k]) - sp.earliest(ordered[k])
    ensures k < i ==> TimeAt(late, ordered, map[], i) - TimeAt(sp, ordered, map[], i) <=
                      TimeAt(late, ordered, map[], i - 1) - TimeAt(sp, ordered, map[], i - 1)
  {
    var e, f, g := EarliestTimes(sp, ordered), EarliestTimes(late, ordered), GapTimes(sp, ordered);
    EarliestAre(sp, late, ordered, k);
    DelayNeverGrows(e, f, g, k, i);
    BothAreGreedy(sp, late, ordered, i);
    BothAreGreedy(sp, late, ordered, if i > 0 then i - 1 else i);
  }

  lemma BothAreGreedy<A>(sp: Spacing<A>, late: Spacing<A>, ordered: seq<A>, i: nat)
    requires i < |ordered|
    requires forall m :: 0 <= m < |ordered| - 1 ==>
             sp.gap(ordered[m], ordered[m + 1]) == late.gap(ordered[m], ordered[m + 1])
    ensures TimeAt(sp, ordered, map[], i) == Greedy(EarliestTimes(sp, ordered), GapTimes(sp, ordered), i)
    ensures TimeAt(late, ordered, map[], i) == Greedy(EarliestTimes(late, ordered), GapTimes(sp, ordered), i)
  {
    SameGaps(sp, late, ordered);
    TimeIsGreedy(sp, ordered, i);
    TimeIsGreedy(late, ordered, i);
  }

  lemma SameGaps<A>(sp: Spacing<A>, late: Spacing<A>, ordered: seq<A>)
    requires forall m :: 0 <= m < |ordered| - 1 ==>
             sp.gap(ordered[m], ordered[m + 1]) == late.gap(ordered[m], ordered[m + 1])
    ensures GapTimes(sp, ordered) == GapTimes(late, ordered)
  {
  }

  lemma EarliestAre<A>(sp: Spacing<A>, late: Spacing<A>, ordered: seq<A>, k: nat)
    requires k < |ordered| && forall m :: 0 <= m < |ordered| && m != k ==>
             sp.earliest(ordered[m]) == late.earliest(ordered[m])
    ensures var e, f := EarliestTimes(sp, ordered), EarliestTimes(late, ordered);
            && e[k] == sp.earliest(ordered[k]) && f[k] == late.earliest(ordered[k])
            && forall m :: 0 <= m < |e| && m != k ==> e[m] == f[m]
  {
  }

  lemma IsFeasible<A>(sp: Spacing<A>, ordered: seq<A>, v: seq<real>)
    requires |ordered| == |v| && GapsMet(sp, ordered, v) && NoneEarly(sp, ordered, v)
    ensures Feasible(EarliestTimes(sp, ordered), GapTimes(sp, ordered), v)
  {
    var g := GapTimes(sp, ordered);
    forall k | 0 <= k < |v| - 1 ensures v[k] + g[k] <= v[k + 1] {
      assert GapMet(sp, ordered, v, k);
    }
  }

  lemma {:induction false} TimesIncrease<A(!new)>(sp: Spacing<A>, ordered: seq<A>, u: seq<real>, i: nat, j: nat)
    requires NonNegativeGaps(sp) && |u| == |ordered| && GapsMet(sp, ordered, u)
    requires i <= j < |u|
    ensures u[i] <= u[j]
    decreases j
  {
    if i == j {
    } else {
      TimesIncrease(sp, ordered, u, i, j - 1);
      assert GapMet(sp, ordered, u, j - 1);
    }
  }

  lemma UniquePermuted<A>(sp: Spacing<A>, a: seq<A>, b: seq<A>)
    requires Unique(sp, a) && multiset(a) == multiset(b)
    ensures Unique(sp, b)
  {
    assert Distinct(a);
    DistinctPermuted(a, b);
    forall i, j | 0 <= i < j < |b| ensures sp.callsign(b[i]) != sp.callsign(b[j]) {
      assert b[i] in multiset(a) && b[j] in multiset(a);
      var k :| 0 <= k < |a| && a[k] == b[i];
      var l :| 0 <= l < |a| && a[l] == b[j];
      assert k != l;
      assert k < l || l < k;
    }
  }

  // ---------------------------------------------------------------- pinned prefixes

  /** Pins for the first n aircraft, at the given times. */
  function PinPrefix<A>(sp: Spacing<A>, ordered: seq<A>, u: seq<real>, n: nat): (p: Pins)
    requires n <= |ordered| == |u|
    ensures p.Keys == set i | 0 <= i < n :: sp.callsign(ordered[i])
  {
    if n == 0 then map[] else PinPrefix(sp, ordered, u, n - 1)[sp.callsign(ordered[n - 1]) := u[n - 1]]
  }

  lemma {:induction false} PinPrefixValue<A>(sp: Spacing<A>, ordered: seq<A>, u: seq<real>, n: nat, i: nat)
    requires i < n <= |ordered| == |u| && Unique(sp, ordered)
    ensures sp.callsign(ordered[i]) in PinPrefix(sp, ordered, u, n)
    ensures PinPrefix(sp, ordered, u, n)[sp.callsign(ordered[i])] == u[i]
  {
    var before := PinPrefix(sp, ordered, u, n - 1);
    if i < n - 1 {
      PinPrefixValue(sp, ordered, u, n - 1, i);
      assert sp.callsign(ordered[i]) != sp.callsign(ordered[n - 1]);
    }
    assert PinPrefix(sp, ordered, u, n) == before[sp.callsign(ordered[n - 1]) := u[n - 1]];
  }

  lemma NotPinned<A>(sp: Spacing<A>, ordered: seq<A>, u: seq<real>, n: nat, callsign: string)
    requires n <= |ordered| == |u|
    requires forall i :: 0 <= i < n ==> sp.callsign(ordered[i]) != callsign
    ensures callsign !in PinPrefix(sp, ordered, u, n)
  {
  }

  // ---------------------------------------------------------------- inserting one aircraft by time

  function Inserted<A>(states: seq<A>, subject: A, index: nat): seq<A>
    requires index <= |states|
  {
    states[..index] + [subject] + states[index..]
  }

  /** The times after inserting `subject` at `index` with everybody in front pinned. */
  function InsertedTimes<A>(sp: Spacing<A>, states: seq<A>, subject: A, index: nat): (u: seq<real>)
    requires index <= |states|
    ensures |u| == |states| + 1
  {
    Times(sp, Inserted(states, subject, index), PinPrefix(sp, states, Times(sp, states, map[]), index))
  }

  ghost predicate Insertable<A>(sp: Spacing<A>, states: seq<A>, subject: A) {
    Unique(sp, states) && forall i :: 0 <= i < |states| ==> sp.callsign(states[i]) != sp.callsign(subject)
  }

  lemma InsertedAt<A>(sp: Spacing<A>, states: seq<A>, subject: A, index: nat, k: nat)
    requires Insertable(sp, states, subject) && index <= |states| && k <= |states|
    ensures var pins := PinPrefix(sp, states, Times(sp, states, map[]), index);
            var ordered := Inserted(states, subject, index);
            && (k < index ==> ordered[k] == states[k] && TimeAt(sp, ordered, pins, k) == Times(sp, states, map[])[k])
            && (k >= index ==> sp.callsign(ordered[k]) !in pins)
  {
    var u := Times(sp, states, map[]);
    var ordered := Inserted(states, subject, index);
    if k < index {
      PinPrefixValue(sp, states, u, index, k);
    } else {
      assert k == index || ordered[k] == states[k - 1];
      NotPinned(sp, states, u, index, sp.callsign(ordered[k]));
    }
  }

  lemma InsertedGap<A>(sp: Spacing<A>, states: seq<A>, subject: A, index: nat, k: nat)
    requires Insertable(sp, states, subject) && index <= |states| && k < |states|
    ensures GapMet(sp, Inserted(states, subject, index), InsertedTimes(sp, states, subject, index), k)
  {
    InsertedAt(sp, states, subject, index, k + 1);
    if k + 1 < index {
      InsertedAt(sp, states, subject, index, k);
      TimesFeasible(sp, states);
      assert GapMet(sp, states, Times(sp, states, map[]), k);
    }
  }

  lemma InsertedNotEarly<A>(sp: Spacing<A>, states: seq<A>, subject: A, index: nat, k: nat)
    requires Insertable(sp, states, subject) && index <= |states| && k <= |states|
    ensures sp.earliest(Inserted(states, subject, index)[k]) <= InsertedTimes(sp, states, subject, index)[k]
    ensures k < index ==> InsertedTimes(sp, states, subject, index)[k] == Times(sp, states, map[])[k]
  {
    InsertedAt(sp, states, subject, index, k);
    if k < index {
      TimesFeasible(sp, states);
    }
  }

  /** Nobody in front of the inserted aircraft moves; nobody is scheduled before its earliest
      time; every adjacent gap holds. */
  lemma InsertionKeepsGaps<A>(sp: Spacing<A>, states: seq<A>, subject: A, index: nat)
    requires Insertable(sp, states, subject) && index <= |states|
    ensures var u := InsertedTimes(sp, states, subject, index);
            && u[..index] == Times(sp, states, map[])[..index]
            && GapsMet(sp, Inserted(states, subject, index), u)
            && NoneEarly(sp, Inserted(states, subject, index), u)
  {
    var ordered := Inserted(states, subject, index);
    var u := InsertedTimes(sp, states, subject, index);
    forall k | 0 <= k < |u|
      ensures sp.earliest(ordered[k]) <= u[k]
      ensures k < index ==> u[k] == Times(sp, states, map[])[k]
    {
      InsertedNotEarly(sp, states, subject, index, k);
    }
    forall k | 0 <= k < |u| - 1 ensures GapMet(sp, ordered, u, k) {
      InsertedGap(sp, states, subject, index, k);
    }
  }

  /** How long the inserted aircraft waits when its predecessor lands by its earliest time. */
  lemma InsertionWait<A>(sp: Spacing<A>, states: seq<A>, subject: A, index: nat)
    requires Insertable(sp, states, subject) && index <= |states|
    requires index > 0 ==> Times(sp, states, map[])[index - 1] <= sp.earliest(subject)
    ensures var time := InsertedTimes(sp, states, subject, index)[index];
            || time == sp.earliest(subject)
            || (index > 0 && sp.earliest(subject) < time <= sp.earliest(subject) + sp.gap(states[index - 1], subject))
  {
    InsertedAt(sp, states, subject, index, index);
    if index > 0 {
      InsertedAt(sp, states, subject, index, index - 1);
    }
  }

  // ---------------------------------------------------------------- how many land by a time

  function CountBy(u: seq<real>, limit: real): (n: nat)
    ensures n <= |u|
  {
    if u == [] then 0
    else CountBy(u[..|u| - 1], limit) + if u[|u| - 1] <= limit then 1 else 0
  }

  lemma {:induction false} AllCounted(u: seq<real>, limit: real)
    requires forall i :: 0 <= i < |u| ==> u[i] <= limit
    ensures CountBy(u, limit) == |u|
  {
    if u == [] {
    } else {
      AllCounted(u[..|u| - 1], limit);
    }
  }

  /** With ascending times, those at or before a limit are a prefix, and this is its length. */
  lemma {:induction false} CountByIsPrefix(u: seq<real>, limit: real, k: nat)
    requires forall i, j :: 0 <= i <= j < |u| ==> u[i] <= u[j]
    requires k < |u|
    ensures u[k] <= limit <==> k < CountBy(u, limit)
    decreases |u|
  {
    var n := |u| - 1;
    if u[n] <= limit {
      AllCounted(u, limit);
    } else if k < n {
      CountByIsPrefix(u[..n], limit, k);
    }
  }

  lemma TimesAscend<A(!new)>(sp: Spacing<A>, ordered: seq<A>)
    requires NonNegativeGaps(sp)
    ensures var u := Times(sp, ordered, map[]); forall i, j :: 0 <= i <= j < |u| ==> u[i] <= u[j]
  {
    var u := Times(sp, ordered, map[]);
    TimesFeasible(sp, ordered);
    forall i, j | 0 <= i <= j < |u| ensures u[i] <= u[j] {
      TimesIncrease(sp, ordered, u, i, j);
    }
  }

  /** The insertion point: behind everybody who lands at or before the subject's earliest time
      in the baseline, and behind the first `frozen` ones in any case. */
  function InsertionPoint<A>(sp: Spacing<A>, states: seq<A>, subject: A, frozen: nat): (n: nat)
    requires frozen <= |states|
    ensures n <= |states|
  {
    var byTime := CountBy(Times(sp, states, map[]), sp.earliest(subject));
    if byTime >= frozen then byTime else frozen
  }

  lemma InFrontIff<A(!new)>(sp: Spacing<A>, states: seq<A>, subject: A, frozen: nat, k: nat)
    requires NonNegativeGaps(sp) && frozen <= |states| && k < |states|
    ensures k < InsertionPoint(sp, states, subject, frozen) <==>
            Times(sp, states, map[])[k] <= sp.earliest(subject) || k < frozen
  {
    TimesAscend(sp, states);
    CountByIsPrefix(Times(sp, states, map[]), sp.earliest(subject), k);
  }

  /** What the inserted aircraft waits for: nothing or one gap, unless a frozen one is in the way. */
  lemma TimeInsertionWait<A(!new)>(sp: Spacing<A>, states: seq<A>, subject: A, frozen: nat)
    requires NonNegativeGaps(sp) && Insertable(sp, states, subject) && frozen <= |states|
    requires frozen <= CountBy(Times(sp, states, map[]), sp.earliest(subject))
    ensures var n := InsertionPoint(sp, states, subject, frozen);
            var time := InsertedTimes(sp, states, subject, n)[n];
            || time == sp.earliest(subject)
            || (n > 0 && sp.earliest(subject) < time <= sp.earliest(subject) + sp.gap(states[n - 1], subject))
  {
    var n := InsertionPoint(sp, states, subject, frozen);
    if n > 0 {
      InFrontIff(sp, states, subject, 0, n - 1);
    }
    InsertionWait(sp, states, subject, n);
  }

  /** Everything about an insertion by time, see `PriorityInsertion.InsertionByTime`. */
  ghost predicate ByTime<A>(sp: Spacing<A>, states: seq<A>, subject: A, frozen: nat, n: nat, u: seq<real>)
    requires n <= |states| && |u| == |states| + 1
  {
    var base := Times(sp, states, map[]);
    && (forall k :: 0 <= k < |states| ==> (k < n <==> base[k] <= sp.earliest(subject) || k < frozen))
    && u[..n] == base[..n]
    && GapsMet(sp, Inserted(states, subject, n), u) && NoneEarly(sp, Inserted(states, subject, n), u)
    && (frozen <= CountBy(base, sp.earliest(subject)) ==>
          || u[n] == sp.earliest(subject)
          || (n > 0 && sp.earliest(subject) < u[n] <= sp.earliest(subject) + sp.gap(states[n - 1], subject)))
  }

  lemma InsertedByTime<A(!new)>(sp: Spacing<A>, states: seq<A>, subject: A, frozen: nat)
    requires NonNegativeGaps(sp) && Insertable(sp, states, subject) && frozen <= |states|
    ensures var n := InsertionPoint(sp, states, subject, frozen);
            ByTime(sp, states, subject, frozen, n, InsertedTimes(sp, states, subject, n))
  {
    var n := InsertionPoint(sp, states, subject, frozen);
    InsertionKeepsGaps(sp, states, subject, n);
    forall k | 0 <= k < |states|
      ensures k < n <==> Times(sp, states, map[])[k] <= sp.earliest(subject) || k < frozen
    {
      InFrontIff(sp, states, subject, frozen, k);
    }
    if frozen <= CountBy(Times(sp, states, map[]), sp.earliest(subject)) {
      TimeInsertionWait(sp, states, subject, frozen);
    }
  }

  // ---------------------------------------------------------------- mean gap

  function GapSum(u: seq<real>): real {
    if |u| < 2 then 0.0 else GapSum(u[..|u| - 1]) + (u[|u| - 1] - u[|u| - 2])
  }

  /** The schedule's throughput figure; 0 without any gap. */
  function MeanGap(u: seq<real>): real {
    if |u| < 2 then 0.0 else GapSum(u) / ((|u| - 1) as real)
  }

  lemma {:induction false} GapsTelescope(u: seq<real>)
    requires u != []
    ensures GapSum(u) == u[|u| - 1] - u[0]
  {
    if |u| == 1 {
    } else {
      GapsTelescope(u[..|u| - 1]);
    }
  }

  /** The mean gap is the time from the first landing to the last one, shared out: of two
      schedules of the same traffic it prefers the one with the smaller difference. */
  lemma MeanGapLess(u: seq<real>, v: seq<real>)
    requires |u| == |v| > 1
    ensures MeanGap(u) * ((|u| - 1) as real) == u[|u| - 1] - u[0]
    ensures MeanGap(v) <= MeanGap(u) <==> v[|v| - 1] - v[0] <= u[|u| - 1] - u[0]
  {
    GapsTelescope(u);
    GapsTelescope(v);
    var n := (|u| - 1) as real;
    assert MeanGap(u) * n == GapSum(u) && MeanGap(v) * n == GapSum(v);
    SameSign(MeanGap(u) - MeanGap(v), n);
  }

  lemma SameSign(x: real, n: real)
    requires n > 0.0
    ensures x >= 0.0 <==> x * n >= 0.0
  {
    assert x < 0.0 ==> x * n < 0.0;
  }

  // ---------------------------------------------------------------- leaving one aircraft out

  lemma {:induction false} WithoutMembers<A>(sp: Spacing<A>, s: seq<A>, callsign: string, ac: A)
    ensures ac in Without(s, sp.callsign, callsign) <==> ac in s && sp.callsign(ac) != callsign
  {
    if s == [] {
    } else {
      WithoutMembers(sp, s[1..], callsign, ac);
      assert ac in s <==> ac == s[0] || ac in s[1..];
    }
  }

  lemma {:induction false} WithoutUnique<A>(sp: Spacing<A>, s: seq<A>, callsign: string)
    requires Unique(sp, s)
    ensures Unique(sp, Without(s, sp.callsign, callsign))
  {
    if s == [] {
    } else {
      var rest := Without(s[1..], sp.callsign, callsign);
      WithoutUnique(sp, s[1..], callsign);
      forall i | 0 <= i < |rest| ensures sp.callsign(rest[i]) != sp.callsign(s[0]) {
        WithoutMembers(sp, s[1..], callsign, rest[i]);
        var k :| 0 <= k < |s| - 1 && s[1..][k] == rest[i];
        assert s[k + 1] == rest[i];
      }
    }
  }

  /** A rearrangement of the others is a queue the left-out aircraft can be inserted into. */
  lemma OthersInsertable<A>(sp: Spacing<A>, s: seq<A>, states: seq<A>, subject: A)
    requires Unique(sp, s) && multiset(states) == multiset(Without(s, sp.callsign, sp.callsign(subject)))
    ensures Insertable(sp, states, subject)
  {
    var others := Without(s, sp.callsign, sp.callsign(subject));
    WithoutUnique(sp, s, sp.callsign(subject));
    UniquePermuted(sp, others, states);
    forall i | 0 <= i < |states| ensures sp.callsign(states[i]) != sp.callsign(subject) {
      assert states[i] in multiset(states) && states[i] in multiset(others);
      WithoutMembers(sp, s, sp.callsign(subject), states[i]);
    }
  }
}
