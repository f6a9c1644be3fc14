/** Rebuilding the approach order around an emergency: the baseline order by phase, time to the
    airport and identifier, and where the emergency aircraft goes in it. */
module Resequencing {
  import opened Options
  import opened Ordering

  datatype Phase = Final | Approach | Descent | OtherPhase {
    function Rank(): nat {
      match this
      case Final => 0
      case Approach => 1
      case Descent => 2
      case OtherPhase => 3
    }

    predicate Stabilised() {
      Final? || Approach?
    }
  }

  /** An aircraft with its approximate time to the airport reference point. */
  datatype Aircraft = Aircraft(id: string, phase: Phase, eta: real)

  predicate Leq(a: Aircraft, b: Aircraft) {
    if a.phase.Rank() != b.phase.Rank() then a.phase.Rank() < b.phase.Rank()
    else if a.eta != b.eta then a.eta < b.eta
    else StringLeq(a.id, b.id)
  }

  lemma KeyIsTotal()
    ensures Total(Leq) && Transitive(Leq)
  {
    forall a, b ensures Leq(a, b) || Leq(b, a) {
      StringTotal(a.id, b.id);
    }
    forall a, b, c | Leq(a, b) && Leq(b, c) ensures Leq(a, c) {
      if StringLeq(a.id, b.id) && StringLeq(b.id, c.id) {
        StringTransitive(a.id, b.id, c.id);
      }
    }
  }

  // ---------------------------------------------------------------- the operations

  /** The arrival stream: aircraft on the way in, and the emergency aircraft wherever it is. */
  function Arriving(states: seq<Aircraft>, emergency: Option<string>): (r: seq<Aircraft>)
    ensures forall a :: a in r <==> a in states && (a.phase != OtherPhase || Some(a.id) == emergency)
  {
    if states == [] then []
    else
      var head := states[0];
      (if head.phase != OtherPhase || Some(head.id) == emergency then [head] else []) + Arriving(states[1..], emergency)
  }

  function Baseline(states: seq<Aircraft>, emergency: Option<string>): seq<Aircraft> {
    Sort(Arriving(states, emergency), Leq)
  }

  const ID: Aircraft -> string := (a: Aircraft) => a.id

  /** How many stabilised aircraft lead the stream. */
  function Leading(s: seq<Aircraft>): (n: nat)
    ensures n <= |s| && (forall k :: 0 <= k < n ==> s[k].phase.Stabilised())
    ensures n < |s| ==> !s[n].phase.Stabilised()
  {
    if s == [] || !s[0].phase.Stabilised() then 0 else 1 + Leading(s[1..])
  }

  /** The place of an identifier in the stream, the length of the stream if it is not there. */
  function Find(s: seq<Aircraft>, id: string): (k: nat)
    ensures k <= |s| && (k < |s| ==> s[k].id == id) && forall j :: 0 <= j < k ==> s[j].id != id
  {
    if s == [] || s[0].id == id then 0 else 1 + Find(s[1..], id)
  }

  predicate Holds(s: seq<Aircraft>, id: string) {
    Find(s, id) < |s|
  }

  /** The recommended order: the emergency goes behind the leading stabilised aircraft. */
  function Recommended(baseline: seq<Aircraft>, emergency: Option<string>): seq<Aircraft> {
    if emergency == None || !Holds(baseline, emergency.value) then baseline
    else
      var rest := Without(baseline, ID, emergency.value);
      var cut := Leading(rest);
      rest[..cut] + [baseline[Find(baseline, emergency.value)]] + rest[cut..]
  }

  method InsertEmergency(baseline: seq<Aircraft>, emergency: Option<string>) returns (r: seq<Aircraft>)
    ensures r == Recommended(baseline, emergency)
  {
    if emergency == None || !Holds(baseline, emergency.value) {
      return baseline;
    }
    var rest := Without(baseline, ID, emergency.value);
    var cut := 0;
    while cut < |rest| && rest[cut].phase.Stabilised()
      invariant cut <= Leading(rest)
    {
      cut := cut + 1;
    }
    r := rest[..cut] + [baseline[Find(baseline, emergency.value)]] + rest[cut..];
  }

  // ---------------------------------------------------------------- what is recommended

  predicate DistinctIds(s: seq<Aircraft>) {
    forall i, j :: 0 <= i < j < |s| ==> s[i].id != s[j].id
  }

  /** Stabilised aircraft come before all others. */
  predicate StabilisedFirst(s: seq<Aircraft>) {
    forall i, j :: 0 <= i < j < |s| && s[j].phase.Stabilised() ==> s[i].phase.Stabilised()
  }

  /** On final first, then on approach, then in descent, and the rest at the end; within a phase the
      sooner at the airport first, and at the same time by identifier. */
  ghost predicate ByPhaseAndTime(a: Aircraft, b: Aircraft) {
    && (b.phase == Final ==> a.phase == Final)
    && (b.phase == Approach ==> a.phase == Final || a.phase == Approach)
    && (b.phase == Descent ==> a.phase == Final || a.phase == Approach || a.phase == Descent)
    && (a.phase == b.phase ==> a.eta < b.eta || (a.eta == b.eta && StringLeq(a.id, b.id)))
  }

  lemma {:induction false} ArrivingKeepsIds(states: seq<Aircraft>, emergency: Option<string>)
    requires DistinctIds(states)
    ensures DistinctIds(Arriving(states, emergency))
  {
    if states == [] {
    } else {
      ArrivingKeepsIds(states[1..], emergency);
      var tail := Arriving(states[1..], emergency);
      forall k | 0 <= k < |tail| ensures tail[k].id != states[0].id {
        assert tail[k] in states[1..];
      }
    }
  }

  lemma BaselineShape(states: seq<Aircraft>, emergency: Option<string>)
    requires DistinctIds(states)
    ensures var b := Baseline(states, emergency);
            && DistinctIds(b) && StabilisedFirst(b)
            && (forall i, j :: 0 <= i < j < |b| ==> ByPhaseAndTime(b[i], b[j]))
            && multiset(b) == multiset(Arriving(states, emergency))
  {
    var b := Baseline(states, emergency);
    KeyIsTotal();
    SortSorted(Arriving(states, emergency), Leq);
    ArrivingKeepsIds(states, emergency);
    KeysDistinctPermuted(Arriving(states, emergency), b, (a: Aircraft) => a.id);
    forall i, j | 0 <= i < j < |b|
      ensures ByPhaseAndTime(b[i], b[j]) && (b[j].phase.Stabilised() ==> b[i].phase.Stabilised())
    {
      assert Leq(b[i], b[j]);
    }
  }

  lemma {:induction false} WithoutAll(s: seq<Aircraft>, id: string)
    requires forall k :: 0 <= k < |s| ==> s[k].id != id
    ensures Without(s, ID, id) == s
  {
    if s == [] {
    } else {
      WithoutAll(s[1..], id);
    }
  }

  lemma {:induction false} WithoutOne(s: seq<Aircraft>, p: nat)
    requires DistinctIds(s) && p < |s|
    ensures Without(s, ID, s[p].id) == s[..p] + s[p + 1..]
  {
    var tail := s[1..];
    if p == 0 {
      WithoutAll(tail, s[0].id);
    } else {
      assert tail[p - 1] == s[p] && s[0].id != s[p].id;
      WithoutOne(tail, p - 1);
      WithHead(s, tail, p);
    }
  }

  lemma WithHead<T>(s: seq<T>, tail: seq<T>, p: nat)
    requires 0 < p < |s| && tail == s[1..]
    ensures [s[0]] + (tail[..p - 1] + tail[p..]) == s[..p] + s[p + 1..]
  {
  }

  /** Number of leading stabilised aircraft other than the one at p. */
  function Cut(b: seq<Aircraft>, p: nat): nat
    requires p < |b|
  {
    Leading(b[..p] + b[p + 1..])
  }

  /** s with the element at `from` taken out and put back at `to`. */
  function Moved<T>(s: seq<T>, from: nat, to: nat): seq<T>
    requires from < |s| && to < |s|
  {
    var rest := s[..from] + s[from + 1..];
    rest[..to] + [s[from]] + rest[to..]
  }

  lemma RecommendedIsMove(b: seq<Aircraft>, p: nat)
    requires DistinctIds(b) && p < |b|
    ensures Cut(b, p) < |b| && Recommended(b, Some(b[p].id)) == Moved(b, p, Cut(b, p))
  {
    WithoutOne(b, p);
    assert Holds(b, b[p].id);
    assert Find(b, b[p].id) == p;
  }

  /** Moving forward: the passed block shifts back by one, everything else stays. */
  lemma MovedForward<T>(s: seq<T>, from: nat, to: nat)
    requires to <= from < |s|
    ensures Moved(s, from, to) == s[..to] + [s[from]] + s[to..from] + s[from + 1..]
  {
    var rest := s[..from] + s[from + 1..];
    assert rest[..to] == s[..to] && rest[to..] == s[to..from] + s[from + 1..];
  }

  lemma MovedBack<T>(s: seq<T>, from: nat, to: nat)
    requires from <= to < |s|
    ensures Moved(s, from, to) == s[..from] + s[from + 1..to + 1] + [s[from]] + s[to + 1..]
  {
    var rest := s[..from] + s[from + 1..];
    assert rest[..to] == s[..from] + s[from + 1..to + 1] && rest[to..] == s[to + 1..];
  }

  /** Where the cut falls. */
  lemma CutPosition(b: seq<Aircraft>, p: nat)
    requires StabilisedFirst(b) && p < |b|
    ensures Cut(b, p) < |b|
    ensures !b[p].phase.Stabilised() ==>
            (Cut(b, p) <= p && forall k :: 0 <= k < |b| ==> (b[k].phase.Stabilised() <==> k < Cut(b, p)))
    ensures b[p].phase.Stabilised() ==>
            (p <= Cut(b, p) && forall k :: 0 <= k < |b| ==> (b[k].phase.Stabilised() <==> k <= Cut(b, p)))
  {
    var rest := b[..p] + b[p + 1..];
    var n := Leading(rest);
    assert n < p ==> rest[n] == b[n];
    assert p <= n < |rest| ==> rest[n] == b[n + 1];
    assert p < n ==> rest[p] == b[p + 1] && b[p + 1].phase.Stabilised();
    forall k | 0 <= k < |b| && k != p && (if k < p then k < n else k - 1 < n) ensures b[k].phase.Stabilised() {
      assert rest[if k < p then k else k - 1] == b[k];
    }
  }

  function Places(recommended: seq<Aircraft>): string -> nat {
    id => Find(recommended, id)
  }

  /** The aircraft, among the first n of the baseline, whose new place is a later one. */
  function Displaced(baseline: seq<Aircraft>, place: string -> nat, emergency: string, n: nat): seq<Aircraft>
    requires n <= |baseline|
  {
    if n == 0 then []
    else
      var a := baseline[n - 1];
      Displaced(baseline, place, emergency, n - 1) + (if a.id != emergency && place(a.id) > n - 1 then [a] else [])
  }

  lemma FindAt(s: seq<Aircraft>, k: nat)
    requires DistinctIds(s) && k < |s|
    ensures Holds(s, s[k].id) && Find(s, s[k].id) == k
  {
  }

  /** The index in the recommended order of every aircraft of the baseline. */
  function NewIndex(k: nat, from: nat, to: nat): nat {
    if k == from then to
    else if to <= k < from then k + 1
    else if from < k <= to then k - 1
    else k
  }

  lemma IndexAfterMove<T>(s: seq<T>, from: nat, to: nat, k: nat)
    requires from < |s| && to < |s| && k < |s|
    ensures |Moved(s, from, to)| == |s| && NewIndex(k, from, to) < |s| &&
            Moved(s, from, to)[NewIndex(k, from, to)] == s[k]
  {
    if to <= from {
      MovedForward(s, from, to);
    } else {
      MovedBack(s, from, to);
    }
  }

  lemma FindAfterMove(b: seq<Aircraft>, from: nat, to: nat, k: nat)
    requires DistinctIds(b) && from < |b| && to < |b| && k < |b|
    ensures DistinctIds(Moved(b, from, to))
    ensures Holds(Moved(b, from, to), b[k].id) && Find(Moved(b, from, to), b[k].id) == NewIndex(k, from, to)
  {
    MovedPermutes(b, from, to);
    KeysDistinctPermuted(b, Moved(b, from, to), (a: Aircraft) => a.id);
    IndexAfterMove(b, from, to, k);
    FindAt(Moved(b, from, to), NewIndex(k, from, to));
  }

  lemma SamePieces<T>(u: seq<T>, v: seq<T>, x: seq<T>, y: seq<T>, a: T)
    requires u + v == x + y
    ensures multiset(u + [a] + v) == multiset(x + [a] + y)
  {
    calc {
      multiset(u + [a] + v);
      multiset(u) + multiset{a} + multiset(v);
      multiset(u + v) + multiset{a};
      multiset(x + y) + multiset{a};
      multiset(x) + multiset{a} + multiset(y);
      multiset(x + [a] + y);
    }
  }

  lemma MovedPermutes<T>(s: seq<T>, from: nat, to: nat)
    requires from < |s| && to < |s|
    ensures multiset(Moved(s, from, to)) == multiset(s)
  {
    var rest := s[..from] + s[from + 1..];
    assert rest == rest[..to] + rest[to..];
    assert s == s[..from] + [s[from]] + s[from + 1..];
    SamePieces(rest[..to], rest[to..], s[..from], s[from + 1..], s[from]);
  }

  /** What Displaced collects among the first n when the indices change as after a move. */
  function Block<T>(s: seq<T>, from: nat, to: nat, n: nat): seq<T>
    requires n <= |s|
  {
    var lo, hi := if to < n then to else n, if from < n then from else n;
    if lo < hi then s[lo..hi] else []
  }

  lemma BlockGrows<T>(s: seq<T>, from: nat, to: nat, n: nat)
    requires n < |s|
    ensures Block(s, from, to, n + 1) == Block(s, from, to, n) + if to <= n < from then [s[n]] else []
  {
  }

  lemma {:induction false} DisplacedIsBlock(b: seq<Aircraft>, place: string -> nat, from: nat, to: nat, n: nat)
    requires DistinctIds(b) && from < |b| && n <= |b|
    requires forall k :: 0 <= k < |b| ==> place(b[k].id) == NewIndex(k, from, to)
    ensures Displaced(b, place, b[from].id, n) == Block(b, from, to, n)
  {
    if n == 0 {
    } else {
      DisplacedIsBlock(b, place, from, to, n - 1);
      BlockGrows(b, from, to, n - 1);
      assert n - 1 != from ==> b[n - 1].id != b[from].id;
    }
  }

  lemma FindAllAfterMove(b: seq<Aircraft>, from: nat, to: nat)
    requires DistinctIds(b) && from < |b| && to < |b|
    ensures forall k :: 0 <= k < |b| ==> Find(Moved(b, from, to), b[k].id) == NewIndex(k, from, to)
  {
    forall k | 0 <= k < |b|
      ensures Find(Moved(b, from, to), b[k].id) == NewIndex(k, from, to)
    {
      FindAfterMove(b, from, to, k);
    }
  }

  // ---------------------------------------------------------------- the main results

  /** The recommended order is a permutation that keeps the others in their relative order. */
  lemma OthersKeepOrder(b: seq<Aircraft>, emergency: string)
    requires DistinctIds(b)
    ensures multiset(Recommended(b, Some(emergency))) == multiset(b)
    ensures Without(Recommended(b, Some(emergency)), ID, emergency) == Without(b, ID, emergency)
  {
    if Holds(b, emergency) {
      var p := Find(b, emergency);
      RecommendedIsMove(b, p);
      MovedPermutes(b, p, Cut(b, p));
      WithoutAfterMove(b, p, Cut(b, p));
    }
  }

  lemma WithoutAfterMove(b: seq<Aircraft>, from: nat, to: nat)
    requires DistinctIds(b) && from < |b| && to < |b|
    ensures Without(Moved(b, from, to), ID, b[from].id) == Without(b, ID, b[from].id)
  {
    FindAfterMove(b, from, to, from);
    WithoutOne(b, from);
    var rest, m := b[..from] + b[from + 1..], Moved(b, from, to);
    IndexAfterMove(b, from, to, from);
    WithoutOne(m, to);
    PutBack(rest, b[from], to);
  }

  lemma PutBack<T>(rest: seq<T>, a: T, to: nat)
    requires to <= |rest|
    ensures var m := rest[..to] + [a] + rest[to..]; m[..to] + m[to + 1..] == rest
  {
    var m := rest[..to] + [a] + rest[to..];
    assert m[..to] == rest[..to] && m[to + 1..] == rest[to..];
  }

  /** What happened to the stream b when the aircraft at p went to q: everybody else keeps the
      place or is shifted by one, and the displaced are the block between. */
  ghost predicate Rearranged(b: seq<Aircraft>, r: seq<Aircraft>, p: nat, q: nat)
    requires p < |b|
  {
    && |r| == |b| && q < |b| && r[q] == b[p]
    && (forall k :: 0 <= k < |b| ==> NewIndex(k, p, q) < |b| && r[NewIndex(k, p, q)] == b[k])
    && Find(r, b[p].id) == q
    && Displaced(b, Places(r), b[p].id, |b|) == if q < p then b[q..p] else []
  }

  lemma RecommendedRearranges(b: seq<Aircraft>, p: nat)
    requires DistinctIds(b) && p < |b|
    ensures Cut(b, p) < |b| && Rearranged(b, Recommended(b, Some(b[p].id)), p, Cut(b, p))
  {
    RecommendedIsMove(b, p);
    var q := Cut(b, p);
    FindAllAfterMove(b, p, q);
    DisplacedIsBlock(b, Places(Moved(b, p, q)), p, q, |b|);
    forall k | 0 <= k < |b| ensures NewIndex(k, p, q) < |b| && Moved(b, p, q)[NewIndex(k, p, q)] == b[k] {
      IndexAfterMove(b, p, q, k);
    }
    assert Find(Moved(b, p, q), b[p].id) == NewIndex(p, p, q);
  }

  lemma SomebodyStabilisedBehind(b: seq<Aircraft>, p: nat)
    requires StabilisedFirst(b) && p < |b| && b[p].phase.Stabilised()
    ensures Cut(b, p) > p <==> exists k :: p < k < |b| && b[k].phase.Stabilised()
  {
    CutPosition(b, p);
    if Cut(b, p) > p {
      assert b[Cut(b, p)].phase.Stabilised();
    }
  }

  /** An emergency that is not itself stabilised: every stabilised aircraft keeps its place,
      the emergency never moves back, and the displaced aircraft are exactly the contiguous
      block of unstabilised ones it passes, each shifted by one. */
  lemma UnstabilisedEmergency(states: seq<Aircraft>, emergency: string)
    requires DistinctIds(states) && Holds(Baseline(states, Some(emergency)), emergency)
    requires var b := Baseline(states, Some(emergency)); !b[Find(b, emergency)].phase.Stabilised()
    ensures var b := Baseline(states, Some(emergency));
            var r, p := Recommended(b, Some(emergency)), Find(b, emergency);
            && Holds(r, emergency)
            && var q := Find(r, emergency);
            && q <= p && Rearranged(b, r, p, q)
            && (forall k :: 0 <= k < |b| ==> (b[k].phase.Stabilised() <==> k < q))
            && Displaced(b, Places(r), emergency, |b|) == b[q..p]
  {
    BaselineShape(states, Some(emergency));
    var b := Baseline(states, Some(emergency));
    var p := Find(b, emergency);
    RecommendedRearranges(b, p);
    CutPosition(b, p);
  }

  /** A stabilised emergency is sent behind every other stabilised aircraft: it loses its place
      exactly when one of them is behind it, those move up, and nobody counts as displaced. */
  lemma StabilisedEmergency(states: seq<Aircraft>, emergency: string)
    requires DistinctIds(states) && Holds(Baseline(states, Some(emergency)), emergency)
    requires var b := Baseline(states, Some(emergency)); b[Find(b, emergency)].phase.Stabilised()
    ensures var b := Baseline(states, Some(emergency));
            var r, p := Recommended(b, Some(emergency)), Find(b, emergency);
            && Holds(r, emergency)
            && var q := Find(r, emergency);
            && Rearranged(b, r, p, q)
            && (q > p <==> exists k :: p < k < |b| && b[k].phase.Stabilised())
            && (forall k :: 0 <= k < |b| ==> (b[k].phase.Stabilised() <==> k <= q))
            && Displaced(b, Places(r), emergency, |b|) == []
  {
    BaselineShape(states, Some(emergency));
    var b := Baseline(states, Some(emergency));
    var p := Find(b, emergency);
    RecommendedRearranges(b, p);
    CutPosition(b, p);
    SomebodyStabilisedBehind(b, p);
  }

  /** Two aircraft on final, the first in distress: the order puts it second. */
  lemma EmergencyOnFinalLosesItsPlace()
    ensures var first, second := Aircraft("A", Final, 60.0), Aircraft("B", Final, 120.0);
            && Baseline([first, second], Some("A")) == [first, second]
            && Recommended([first, second], Some("A")) == [second, first]
  {
    var first, second := Aircraft("A", Final, 60.0), Aircraft("B", Final, 120.0);
    var b := [first, second];
    assert Arriving(b[1..], Some("A")) == [second];
    assert Arriving(b, Some("A")) == b;
    SortOfSorted(b, Leq);
    assert DistinctIds(b) by {
      assert "A"[0] != "B"[0];
    }
    assert b[0].id == "A";
    RecommendedIsMove(b, 0);
    assert b[..0] + b[1..] == [second];
    assert Leading([second][1..]) == 0;
    assert Leading([second]) == 1;
  }
}
