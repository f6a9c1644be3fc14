/** Insertion of a distressed aircraft into the arrival sequence (section 2-1-4 of the Notice). */
module PriorityInsertion {
  import opened Options
  import opened Ordering
  import opened FinalApproach
  import opened SlotTimes
  import opened Sequencing

  function ByCallsign(arrivals: seq<Aircraft>): (m: map<string, Aircraft>)
    ensures forall cs :: cs in m ==> m[cs].callsign == cs && m[cs] in arrivals
    ensures forall ac :: ac in arrivals ==> ac.callsign in m
  {
    if arrivals == [] then map[]
    else
      var n := |arrivals| - 1;
      assert arrivals == arrivals[..n] + [arrivals[n]];
      ByCallsign(arrivals[..n])[arrivals[n].callsign := arrivals[n]]
  }

  /** One past the last aircraft within the freeze distance; 0 if there is none. */
  function FrozenPrefix(ordered: seq<Aircraft>, freezeNm: real): (n: nat)
    ensures n <= |ordered|
    ensures forall i :: n <= i < |ordered| ==> ordered[i].thresholdNm > freezeNm
    ensures n > 0 ==> ordered[n - 1].thresholdNm <= freezeNm
  {
    if ordered == [] then 0
    else if ordered[|ordered| - 1].thresholdNm <= freezeNm then |ordered|
    else FrozenPrefix(ordered[..|ordered| - 1], freezeNm)
  }

  datatype Insertion = Insertion(ordered: seq<Aircraft>, index: nat, slots: seq<Slot>)

  /** `None` stands for the KeyError on an unknown callsign. */
  function InsertPriority(t: Tables, arrivals: seq<Aircraft>, subject: string, now: real,
                          freezeNm: Option<real>): (r: Option<Insertion>)
    requires ValidTables(t)
    ensures r.Some? <==> exists ac :: ac in arrivals && ac.callsign == subject
  {
    var byCallsign := ByCallsign(arrivals);
    if subject !in byCallsign then None
    else
      var sp := SpacingOf(t, now);
      var emergency := byCallsign[subject].(emergency := true);
      var states := InOrder(t, Without(arrivals, sp.callsign, subject), now);
      var baseline := TimesOf(Layout(t, states, now, map[]));
      var byTime := CountBy(baseline, Earliest(t, emergency, now));
      var frozen := FrozenPrefix(states, if freezeNm.Some? then freezeNm.value else t.freezeNm);
      var index := if byTime >= frozen then byTime else frozen;
      var ordered := Inserted(states, emergency, index);
      Some(Insertion(ordered, index, Layout(t, ordered, now, PinPrefix(sp, states, baseline, index))))
  }

  /** The inputs of the insertion step. */
  datatype Inputs = Inputs(states: seq<Aircraft>, emergency: Aircraft, frozen: nat)

  function InputsOf(t: Tables, arrivals: seq<Aircraft>, subject: string, now: real, freezeNm: Option<real>): (x: Inputs)
    requires ValidTables(t) && subject in ByCallsign(arrivals)
    ensures x.frozen <= |x.states| && x.emergency.callsign == subject
    ensures multiset(x.states) == multiset(Without(arrivals, SpacingOf(t, now).callsign, subject))
  {
    var states := InOrder(t, Without(arrivals, SpacingOf(t, now).callsign, subject), now);
    Inputs(states, ByCallsign(arrivals)[subject].(emergency := true),
           FrozenPrefix(states, if freezeNm.Some? then freezeNm.value else t.freezeNm))
  }

  lemma OthersAre(t: Tables, arrivals: seq<Aircraft>, subject: string, now: real)
    requires ValidTables(t)
    ensures forall ac :: ac in InOrder(t, Without(arrivals, SpacingOf(t, now).callsign, subject), now) <==>
                           ac in arrivals && ac.callsign != subject
  {
    var others := Without(arrivals, SpacingOf(t, now).callsign, subject);
    forall ac ensures ac in InOrder(t, others, now) <==> ac in arrivals && ac.callsign != subject {
      WithoutMembers(SpacingOf(t, now), arrivals, subject, ac);
      assert ac in InOrder(t, others, now) <==> ac in multiset(InOrder(t, others, now));
      assert ac in others <==> ac in multiset(others);
    }
  }

  /** The inputs are the distressed aircraft itself, marked as such, all others in landing order, and
      how many of them the freeze distance asked for, or else that of the tables, keeps in front. */
  lemma InputsAre(t: Tables, arrivals: seq<Aircraft>, subject: string, now: real, freezeNm: Option<real>)
    requires ValidTables(t) && subject in ByCallsign(arrivals)
    ensures var x, limit := InputsOf(t, arrivals, subject, now, freezeNm), FreezeDistance(t, freezeNm);
            && (exists ac :: ac in arrivals && ac.callsign == subject && x.emergency == ac.(emergency := true))
            && (forall ac :: ac in x.states <==> ac in arrivals && ac.callsign != subject)
            && LandingOrder(t, now, x.states)
            && (forall i :: x.frozen <= i < |x.states| ==> x.states[i].thresholdNm > limit)
            && (x.frozen > 0 ==> x.states[x.frozen - 1].thresholdNm <= limit)
  {
    OthersAre(t, arrivals, subject, now);
    InOrderSorted(t, Without(arrivals, SpacingOf(t, now).callsign, subject), now);
    assert ByCallsign(arrivals)[subject] in arrivals;
  }

  ghost predicate LandingOrder(t: Tables, now: real, s: seq<Aircraft>) {
    forall i, j :: 0 <= i < j < |s| ==> Before(t, now, s[i], s[j])
  }

  function FreezeDistance(t: Tables, freezeNm: Option<real>): real {
    match freezeNm case Some(nm) => nm case None => t.freezeNm
  }

  lemma InsertionUnfolds(t: Tables, arrivals: seq<Aircraft>, subject: string, now: real, freezeNm: Option<real>)
    requires ValidTables(t) && subject in ByCallsign(arrivals)
    ensures var x := InputsOf(t, arrivals, subject, now, freezeNm);
            var sp := SpacingOf(t, now);
            var r := InsertPriority(t, arrivals, subject, now, freezeNm).value;
            && r.index == InsertionPoint(sp, x.states, x.emergency, x.frozen)
            && r.ordered == Inserted(x.states, x.emergency, r.index)
            && TimesOf(r.slots) == InsertedTimes(sp, x.states, x.emergency, r.index)
  {
    var x := InputsOf(t, arrivals, subject, now, freezeNm);
    var sp := SpacingOf(t, now);
    LayoutTimes(t, x.states, now, map[]);
    var n := InsertionPoint(sp, x.states, x.emergency, x.frozen);
    var ordered := Inserted(x.states, x.emergency, n);
    LayoutTimes(t, ordered, now, PinPrefix(sp, x.states, Times(sp, x.states, map[]), n));
  }

  /** The insertion is by time, not by rank (`ByTime`). The emergency goes into the order of
      the others; in front of it are exactly the aircraft that land, in the baseline, at or
      before its earliest time, extended by the frozen ones; none of these moves by a second;
      every adjacent gap holds and nobody is scheduled before its earliest time; and unless a
      frozen aircraft forces it later, the emergency lands at its earliest time or waits for at
      most one gap. */
  lemma InsertionByTime(t: Tables, arrivals: seq<Aircraft>, subject: string, now: real, freezeNm: Option<real>)
    requires ValidTables(t) && Unique(SpacingOf(t, now), arrivals)
    requires InsertPriority(t, arrivals, subject, now, freezeNm).Some?
    ensures var x := InputsOf(t, arrivals, subject, now, freezeNm);
            var r := InsertPriority(t, arrivals, subject, now, freezeNm).value;
            && r.index <= |x.states| && r.ordered == Inserted(x.states, x.emergency, r.index) &&
               |r.slots| == |r.ordered|
            && ByTime(SpacingOf(t, now), x.states, x.emergency, x.frozen, r.index, TimesOf(r.slots))
  {
    var sp := SpacingOf(t, now);
    var x := InputsOf(t, arrivals, subject, now, freezeNm);
    SpacingFacts(t, now);
    InsertionUnfolds(t, arrivals, subject, now, freezeNm);
    OthersInsertable(sp, arrivals, x.states, x.emergency);
    InsertedByTime(sp, x.states, x.emergency, x.frozen);
  }

  /** Separation along the whole final survives the insertion. */
  lemma InsertionIsSafe(t: Tables, arrivals: seq<Aircraft>, subject: string, now: real, freezeNm: Option<real>, i: nat,
                        k: nat, at: real)
    requires ValidTables(t) && Unique(SpacingOf(t, now), arrivals)
    requires InsertPriority(t, arrivals, subject, now, freezeNm).Some?
    ensures var r := InsertPriority(t, arrivals, subject, now, freezeNm).value;
            var u := TimesOf(r.slots);
            i <= k < |u| == |r.ordered| && BothOnFinal(t, r.ordered, u, i, k, at) ==>
              DistanceAt(t, r.ordered, u, k, at) - DistanceAt(t, r.ordered, u, i, at) >=
                RequiredBetween(t, r.ordered, i, k)
  {
    InsertionByTime(t, arrivals, subject, now, freezeNm);
    var r := InsertPriority(t, arrivals, subject, now, freezeNm).value;
    var u := TimesOf(r.slots);
    if i <= k < |u| == |r.ordered| && BothOnFinal(t, r.ordered, u, i, k, at) {
      SeparatedOnFinal(t, now, r.ordered, u, i, k, at);
    }
  }
}
