/** Constrained-position-shift search: steepest adjacent swaps from the first-come-first-served
    order, with the shift limit widened step by step. */
module OrderSearch {
  import opened Options
  import opened FinalApproach
  import opened SlotTimes
  import opened Sequencing

  const TOLERANCE := 0.000001

  /** Last landing time of an order; 0 for no aircraft at all. */
  function Completion(sp: Spacing<Aircraft>, order: seq<Aircraft>): real {
    if order == [] then 0.0 else TimeAt(sp, order, map[], |order| - 1)
  }

  function MeanGapOf(sp: Spacing<Aircraft>, order: seq<Aircraft>): real {
    MeanGap(Times(sp, order, map[]))
  }

  /** Position of every callsign in the first-come-first-served order. */
  function BaseIndex(baseline: seq<Aircraft>): (m: map<string, int>)
    ensures forall ac :: ac in baseline ==> ac.callsign in m
  {
    if baseline == [] then map[]
    else
      var n := |baseline| - 1;
      assert baseline == baseline[..n] + [baseline[n]];
      BaseIndex(baseline[..n])[baseline[n].callsign := n]
  }

  datatype Problem = Problem(sp: Spacing<Aircraft>, baseline: seq<Aircraft>, maxIterations: int)

  predicate WithinShift(p: Problem, order: seq<Aircraft>, limit: int) {
    forall i :: 0 <= i < |order| ==>
      var cs := order[i].callsign;
      cs in BaseIndex(p.baseline) && -limit <= i - BaseIndex(p.baseline)[cs] <= limit
  }

  function Swap(s: seq<Aircraft>, i: nat): (r: seq<Aircraft>)
    requires i + 1 < |s|
    ensures |r| == |s| && multiset(r) == multiset(s)
  {
    s[i := s[i + 1]][i + 1 := s[i]]
  }

  predicate Permitted(p: Problem, current: seq<Aircraft>, limit: int, i: nat)
    requires i + 1 < |current|
  {
    !current[i].emergency && !current[i + 1].emergency && WithinShift(p, Swap(current, i), limit)
  }

  /** The first of the best permitted swaps among positions below n, if one gains more than
      the tolerance. */
  function BestSwap(p: Problem, current: seq<Aircraft>, best: real, limit: int, n: nat): Option<(seq<Aircraft>, real)>
    requires n == 0 || n < |current|
  {
    if n == 0 then None
    else
      var sofar := BestSwap(p, current, best, limit, n - 1);
      if !Permitted(p, current, limit, n - 1) then sofar
      else
        var trial := Swap(current, n - 1);
        var value := Completion(p.sp, trial);
        if value < best - TOLERANCE && (sofar == None || value < sofar.value.1) then Some((trial, value)) else sofar
  }

  function Pairs(s: seq<Aircraft>): (n: nat)
    ensures n == if |s| == 0 then 0 else |s| - 1
  {
    if s == [] then 0 else |s| - 1
  }

  datatype State = State(current: seq<Aircraft>, best: real, swaps: nat, iterations: int)

  function Next(st: State, swap: (seq<Aircraft>, real)): State {
    State(swap.0, swap.1, st.swaps + 1, st.iterations + 1)
  }

  /** The while loop at one limit, run to its end. */
  function Stage(p: Problem, limit: int, st: State): State
    decreases p.maxIterations - st.iterations
  {
    if st.iterations >= p.maxIterations then st
    else match BestSwap(p, st.current, st.best, limit, Pairs(st.current))
      case None => st.(iterations := st.iterations + 1)
      case Some(swap) => Stage(p, limit, Next(st, swap))
  }

  /** The state after the limits 1 to k. */
  function After(p: Problem, k: nat): State {
    if k == 0 then State(p.baseline, Completion(p.sp, p.baseline), 0, 0) else Stage(p, k, After(p, k - 1))
  }

  function Limit(maxShift: int): nat {
    if maxShift > 0 then maxShift else 0
  }

  datatype OrderingResult = OrderingResult(
    order: seq<string>, baselineOrder: seq<string>, completion: real, baselineCompletion: real,
    meanGap: real, baselineMeanGap: real, maxShift: int, swaps: nat, iterations: int)

  function Callsigns(s: seq<Aircraft>): (r: seq<string>)
    ensures |r| == |s|
  {
    seq(|s|, i requires 0 <= i < |s| => s[i].callsign)
  }

  /** The innermost loop: the steepest permitted swap at one limit. */
  method SteepestSwap(p: Problem, current: seq<Aircraft>, best: real, limit: int)
      returns (bestSwap: Option<(seq<Aircraft>, real)>)
    ensures bestSwap == BestSwap(p, current, best, limit, Pairs(current))
  {
    bestSwap := None;
    for i := 0 to Pairs(current)
      invariant bestSwap == BestSwap(p, current, best, limit, i)
    {
      if current[i].emergency || current[i + 1].emergency { continue; }
      var trial := Swap(current, i);
      if !WithinShift(p, trial, limit) { continue; }
      var value := Completion(p.sp, trial);
      if value < best - TOLERANCE && (bestSwap == None || value < bestSwap.value.1) {
        bestSwap := Some((trial, value));
      }
    }
  }

  /** The outer loops of the source, from the sorted baseline on. */
  method SearchOrder(p: Problem, maxShift: int) returns (r: OrderingResult)
    ensures var end := After(p, Limit(maxShift));
            r == OrderingResult(Callsigns(end.current), Callsigns(p.baseline), end.best,
                                Completion(p.sp, p.baseline), MeanGapOf(p.sp, end.current), MeanGapOf(p.sp, p.baseline),
                                maxShift, end.swaps, end.iterations)
  {
    var baseCompletion := Completion(p.sp, p.baseline);
    var st := State(p.baseline, baseCompletion, 0, 0);
    for limit := 1 to Limit(maxShift) + 1
      invariant st == After(p, limit - 1)
    {
      var improved := true;
      while improved && st.iterations < p.maxIterations
        invariant (if improved then Stage(p, limit, st) else st) == After(p, limit)
        decreases p.maxIterations - st.iterations, improved
      {
        improved := false;
        var bestSwap := SteepestSwap(p, st.current, st.best, limit);
        if bestSwap.Some? {
          st := Next(st, bestSwap.value);
          improved := true;
        } else {
          st := st.(iterations := st.iterations + 1);
        }
      }
    }
    r := OrderingResult(Callsigns(st.current), Callsigns(p.baseline), st.best, baseCompletion,
                        MeanGapOf(p.sp, st.current), MeanGapOf(p.sp, p.baseline), maxShift, st.swaps, st.iterations);
  }

  // ---------------------------------------------------------------- what the search keeps

  ghost predicate UniqueBaseline(p: Problem) {
    forall i, j :: 0 <= i < j < |p.baseline| ==> p.baseline[i].callsign != p.baseline[j].callsign
  }

  /** A rearrangement of the baseline within the limit, every emergency at its own index, the
      recorded best being its completion, and each swap paid for with more than the tolerance. */
  ghost predicate Kept(p: Problem, limit: int, st: State) {
    && multiset(st.current) == multiset(p.baseline) && |st.current| == |p.baseline|
    && WithinShift(p, st.current, limit)
    && (forall i :: 0 <= i < |p.baseline| && p.baseline[i].emergency ==> st.current[i] == p.baseline[i])
    && st.best == Completion(p.sp, st.current)
    && (st.swaps == 0 ==> st.best == Completion(p.sp, p.baseline))
    && (st.swaps > 0 ==> st.best < Completion(p.sp, p.baseline) - (st.swaps as real) * 0.000001)
  }

  /** The swap found is the first permitted one that gains most, by more than the tolerance; none is
      found only if no permitted swap gains more than the tolerance. */
  lemma {:induction false} BestSwapIsBest(p: Problem, current: seq<Aircraft>, best: real, limit: int, n: nat)
    requires n == 0 || n < |current|
    ensures match BestSwap(p, current, best, limit, n)
            case None => forall i: nat :: i < n && Permitted(p, current, limit, i) ==>
                Completion(p.sp, Swap(current, i)) >= best - 0.000001
            case Some(swap) =>
              && swap.1 < best - 0.000001
              && (exists i: nat ::
                 i < n && Permitted(p, current, limit, i) &&
                 swap == (Swap(current, i), Completion(p.sp, Swap(current, i)))
                 && forall j: nat :: j < i && Permitted(p, current, limit, j) ==>
                      swap.1 < Completion(p.sp, Swap(current, j)))
              && (forall i: nat :: i < n && Permitted(p, current, limit, i) ==>
                 swap.1 <= Completion(p.sp, Swap(current, i)))
  {
    if n == 0 {
    } else {
      BestSwapIsBest(p, current, best, limit, n - 1);
    }
  }

  lemma OneGainMore(swaps: nat, start: real, best: real, next: real)
    requires next < best - TOLERANCE && (swaps == 0 ==> best == start)
    requires swaps > 0 ==> best < start - (swaps as real) * TOLERANCE
    ensures next < start - ((swaps + 1) as real) * TOLERANCE
  {
    assert (swaps + 1) as real == swaps as real + 1.0;
  }

  lemma EmergenciesStay(p: Problem, current: seq<Aircraft>, limit: int, i: nat)
    requires i + 1 < |current| == |p.baseline| && Permitted(p, current, limit, i)
    requires forall k :: 0 <= k < |p.baseline| && p.baseline[k].emergency ==> current[k] == p.baseline[k]
    ensures forall k :: 0 <= k < |p.baseline| && p.baseline[k].emergency ==> Swap(current, i)[k] == p.baseline[k]
  {
  }

  lemma SwapKept(p: Problem, limit: int, st: State, i: nat)
    requires Kept(p, limit, st) && i < Pairs(st.current) && Permitted(p, st.current, limit, i)
    requires Completion(p.sp, Swap(st.current, i)) < st.best - TOLERANCE
    ensures Kept(p, limit, Next(st, (Swap(st.current, i), Completion(p.sp, Swap(st.current, i)))))
  {
    OneGainMore(st.swaps, Completion(p.sp, p.baseline), st.best, Completion(p.sp, Swap(st.current, i)));
    EmergenciesStay(p, st.current, limit, i);
  }

  lemma SwapKeeps(p: Problem, limit: int, st: State)
    requires Kept(p, limit, st)
    ensures var swap := BestSwap(p, st.current, st.best, limit, Pairs(st.current));
            swap.Some? ==> Kept(p, limit, Next(st, swap.value)) && swap.value.1 < st.best
  {
    var swap := BestSwap(p, st.current, st.best, limit, Pairs(st.current));
    BestSwapIsBest(p, st.current, st.best, limit, Pairs(st.current));
    if swap.Some? {
      var i: nat :| i < Pairs(st.current) && Permitted(p, st.current, limit, i)
                    && swap.value == (Swap(st.current, i), Completion(p.sp, Swap(st.current, i)));
      SwapKept(p, limit, st, i);
    }
  }

  lemma {:induction false} StageKeeps(p: Problem, limit: int, st: State)
    requires Kept(p, limit, st)
    ensures Kept(p, limit, Stage(p, limit, st))
    ensures Stage(p, limit, st).best <= st.best
    decreases p.maxIterations - st.iterations
  {
    if st.iterations >= p.maxIterations {
    } else {
      SwapKeeps(p, limit, st);
      var swap := BestSwap(p, st.current, st.best, limit, Pairs(st.current));
      if swap.Some? {
        StageKeeps(p, limit, Next(st, swap.value));
      }
    }
  }

  lemma {:induction false} BaseIndexValue(baseline: seq<Aircraft>, i: nat)
    requires forall i, j :: 0 <= i < j < |baseline| ==> baseline[i].callsign != baseline[j].callsign
    requires i < |baseline|
    ensures BaseIndex(baseline)[baseline[i].callsign] == i
  {
    var n := |baseline| - 1;
    if i < n {
      assert baseline[..n][i] == baseline[i];
      BaseIndexValue(baseline[..n], i);
    }
  }

  /** What is valid at one limit is valid at the next. */
  lemma KeptWider(p: Problem, limit: int, st: State)
    requires Kept(p, limit, st)
    ensures Kept(p, limit + 1, st)
  {
  }

  /** The place the k-th aircraft has after the swap at i. */
  function PlaceAfter(k: nat, i: nat): nat {
    if k == i then i + 1 else if k == i + 1 then i else k
  }

  /** A swap is permitted exactly if it moves no emergency and leaves everybody within the limit of
      the place in the first-come-first-served order. */
  lemma PermittedIff(p: Problem, current: seq<Aircraft>, limit: int, i: nat)
    requires UniqueBaseline(p) && i + 1 < |current| && multiset(current) == multiset(p.baseline)
    ensures Permitted(p, current, limit, i) <==>
              && !current[i].emergency && !current[i + 1].emergency
              && forall k: nat, j: nat :: k < |current| && j < |p.baseline| && current[k] == p.baseline[j] ==>
                   -limit <= PlaceAfter(k, i) - j <= limit
  {
    var trial := Swap(current, i);
    forall k: nat | k < |current| ensures current[k] in p.baseline && trial[PlaceAfter(k, i)] == current[k] {
      assert current[k] in multiset(p.baseline);
    }
    forall j: nat | j < |p.baseline| ensures BaseIndex(p.baseline)[p.baseline[j].callsign] == j {
      BaseIndexValue(p.baseline, j);
    }
    ShiftIff(p, current, limit, i);
  }

  lemma ShiftIff(p: Problem, current: seq<Aircraft>, limit: int, i: nat)
    requires i + 1 < |current|
    requires forall k: nat :: k < |current| ==> current[k] in p.baseline
    requires forall j: nat :: j < |p.baseline| ==> BaseIndex(p.baseline)[p.baseline[j].callsign] == j
    ensures WithinShift(p, Swap(current, i), limit) <==>
            forall k: nat, j: nat :: k < |current| && j < |p.baseline| && current[k] == p.baseline[j] ==>
              -limit <= PlaceAfter(k, i) - j <= limit
  {
    var trial := Swap(current, i);
    if WithinShift(p, trial, limit) {
      forall k: nat, j: nat | k < |current| && j < |p.baseline| && current[k] == p.baseline[j]
        ensures -limit <= PlaceAfter(k, i) - j <= limit
      {
        assert trial[PlaceAfter(k, i)] == current[k];
      }
    } else {
      var m :| 0 <= m < |trial| &&
               !(trial[m].callsign in BaseIndex(p.baseline)
                 && -limit <= m - BaseIndex(p.baseline)[trial[m].callsign] <= limit);
      var k := PlaceAfter(m, i);
      assert current[k] == trial[m] && PlaceAfter(k, i) == m;
      var j :| 0 <= j < |p.baseline| && p.baseline[j] == current[k];
    }
  }

  /** After the limits 1 to k nobody is more than k places from the baseline position. */
  lemma {:induction false} SearchKeeps(p: Problem, k: nat)
    requires UniqueBaseline(p)
    ensures Kept(p, k, After(p, k))
  {
    if k == 0 {
      forall i | 0 <= i < |p.baseline| ensures BaseIndex(p.baseline)[p.baseline[i].callsign] == i {
        BaseIndexValue(p.baseline, i);
      }
    } else {
      SearchKeeps(p, k - 1);
      KeptWider(p, k - 1, After(p, k - 1));
      StageKeeps(p, k, After(p, k - 1));
    }
  }

  /** Two runs: a wider limit never gives a later completion. */
  lemma {:induction false} WiderIsNoWorse(p: Problem, k: nat, m: nat)
    requires UniqueBaseline(p) && k <= m
    ensures After(p, m).best <= After(p, k).best
    decreases m
  {
    if k == m {
    } else {
      WiderIsNoWorse(p, k, m - 1);
      SearchKeeps(p, m - 1);
      KeptWider(p, m - 1, After(p, m - 1));
      StageKeeps(p, m, After(p, m - 1));
    }
  }

  /** No permitted swap gains more than the tolerance. */
  ghost predicate LocallyBest(p: Problem, limit: int, st: State) {
    forall i: nat :: i + 1 < |st.current| && Permitted(p, st.current, limit, i) ==>
      Completion(p.sp, Swap(st.current, i)) >= st.best - 0.000001
  }

  lemma {:induction false} StageEndsAtOptimum(p: Problem, limit: int, st: State)
    ensures Stage(p, limit, st).iterations < p.maxIterations ==> LocallyBest(p, limit, Stage(p, limit, st))
    decreases p.maxIterations - st.iterations
  {
    if st.iterations >= p.maxIterations {
    } else {
      var swap := BestSwap(p, st.current, st.best, limit, Pairs(st.current));
      if swap.Some? {
        StageEndsAtOptimum(p, limit, Next(st, swap.value));
      } else {
        BestSwapIsBest(p, st.current, st.best, limit, Pairs(st.current));
      }
    }
  }

  lemma NoSwapAtLimitZero(p: Problem, i: nat)
    requires UniqueBaseline(p) && i + 1 < |p.baseline|
    ensures !Permitted(p, p.baseline, 0, i)
  {
    var trial := Swap(p.baseline, i);
    BaseIndexValue(p.baseline, i + 1);
    assert trial[i] == p.baseline[i + 1];
    assert BaseIndex(p.baseline)[trial[i].callsign] == i + 1;
  }

  /** The count of rounds: at each limit one for every swap made and one that finds none, until the
      budget is used up. */
  lemma {:induction false} RoundsAre(p: Problem, k: nat)
    ensures var end := After(p, k);
            && (p.maxIterations <= 0 ==> end.iterations == 0)
            && (p.maxIterations > 0 ==> end.iterations <= p.maxIterations)
            && end.swaps <= end.iterations <= end.swaps + k
            && (end.iterations < p.maxIterations ==> end.iterations == end.swaps + k)
  {
    if k == 0 {
    } else {
      RoundsAre(p, k - 1);
      StageRounds(p, k, After(p, k - 1));
    }
  }

  lemma {:induction false} StageRounds(p: Problem, limit: int, st: State)
    ensures var end := Stage(p, limit, st);
            && (st.iterations >= p.maxIterations ==> end == st)
            && (st.iterations < p.maxIterations ==> end.iterations <= p.maxIterations)
            && 0 <= (end.iterations - end.swaps) - (st.iterations - st.swaps) <= 1
            && (end.iterations < p.maxIterations ==>
                  (end.iterations - end.swaps) - (st.iterations - st.swaps) == 1)
    decreases p.maxIterations - st.iterations
  {
    if st.iterations >= p.maxIterations {
    } else {
      var swap := BestSwap(p, st.current, st.best, limit, Pairs(st.current));
      if swap.Some? {
        StageRounds(p, limit, Next(st, swap.value));
      }
    }
  }

  lemma LastIsLatest(sp: Spacing<Aircraft>, order: seq<Aircraft>, i: nat)
    requires NonNegativeGaps(sp) && i < |order|
    ensures Times(sp, order, map[])[i] <= Completion(sp, order)
  {
    TimesFeasible(sp, order);
    TimesIncrease(sp, order, Times(sp, order, map[]), i, |order| - 1);
  }

  /** The completion that is searched for is the last landing of the schedule of that order, and nobody
      lands later; without aircraft it is 0. */
  lemma CompletionIs(t: Tables, order: seq<Aircraft>, now: real, i: nat)
    requires ValidTables(t)
    ensures var slots := Layout(t, order, now, map[]);
            && (order == [] ==> Completion(SpacingOf(t, now), order) == 0.0)
            && (order != [] ==> Completion(SpacingOf(t, now), order) == slots[|order| - 1].time)
            && (i < |order| ==> slots[i].time <= Completion(SpacingOf(t, now), order))
  {
    SpacingFacts(t, now);
    if i < |order| {
      LastIsLatest(SpacingOf(t, now), order, i);
    }
  }

  lemma BaselineIsBestUnshifted(p: Problem)
    requires UniqueBaseline(p)
    ensures LocallyBest(p, 0, After(p, 0))
  {
    forall i: nat | i + 1 < |p.baseline| ensures !Permitted(p, p.baseline, 0, i) {
      NoSwapAtLimitZero(p, i);
    }
  }

  lemma EndsAtOptimum(p: Problem, k: nat)
    requires UniqueBaseline(p)
    ensures After(p, k).iterations < p.maxIterations ==> LocallyBest(p, k, After(p, k))
  {
    if k > 0 {
      StageEndsAtOptimum(p, k, After(p, k - 1));
    } else {
      BaselineIsBestUnshifted(p);
    }
  }

  /** The promises of the search for every shift limit and every iteration budget: a
      rearrangement of the baseline, nobody shifted further than allowed, emergencies exactly
      where they were, the completion earlier than the baseline's by more than the tolerance
      per swap made, no later than with any narrower limit, and, if the budget was not used up, no
      permitted adjacent swap left that gains more than the tolerance. Without a positive limit the
      baseline is left as it is. */
  lemma SearchPromises(p: Problem, maxShift: int, narrower: int)
    requires UniqueBaseline(p) && narrower <= maxShift
    ensures var end := After(p, Limit(maxShift));
            && (maxShift > 0 ==> Kept(p, maxShift, end))
            && (maxShift <= 0 ==> end == State(p.baseline, Completion(p.sp, p.baseline), 0, 0))
            && end.best <= After(p, Limit(narrower)).best
            && (end.iterations < p.maxIterations ==> LocallyBest(p, Limit(maxShift), end))
  {
    var k := Limit(maxShift);
    SearchKeeps(p, k);
    WiderIsNoWorse(p, Limit(narrower), k);
    EndsAtOptimum(p, k);
  }

  /** The problem the sequencer hands to the search. */
  function ProblemOf(t: Tables, arrivals: seq<Aircraft>, now: real, maxIterations: int): (p: Problem)
    requires ValidTables(t)
    ensures multiset(p.baseline) == multiset(arrivals)
  {
    Problem(SpacingOf(t, now), InOrder(t, arrivals, now), maxIterations)
  }

  method OptimizeOrder(t: Tables, arrivals: seq<Aircraft>, maxShift: int, now: real, maxIterations: int)
      returns (r: OrderingResult)
    requires ValidTables(t)
    ensures var p := ProblemOf(t, arrivals, now, maxIterations);
            var end := After(p, Limit(maxShift));
            && r.order == Callsigns(end.current) && r.baselineOrder == Callsigns(p.baseline)
            && r.completion == end.best && r.baselineCompletion == Completion(p.sp, p.baseline)
            && r.meanGap == MeanGapOf(p.sp, end.current) && r.baselineMeanGap == MeanGapOf(p.sp, p.baseline)
            && r.maxShift == maxShift && r.swaps == end.swaps && r.iterations == end.iterations
  {
    r := SearchOrder(ProblemOf(t, arrivals, now, maxIterations), maxShift);
  }

  lemma ProblemUnique(t: Tables, arrivals: seq<Aircraft>, now: real, maxIterations: int)
    requires ValidTables(t) && Unique(SpacingOf(t, now), arrivals)
    ensures UniqueBaseline(ProblemOf(t, arrivals, now, maxIterations))
  {
    var sp := SpacingOf(t, now);
    UniquePermuted(sp, arrivals, InOrder(t, arrivals, now));
    var b := InOrder(t, arrivals, now);
    forall i, j | 0 <= i < j < |b| ensures b[i].callsign != b[j].callsign {
      assert sp.callsign(b[i]) != sp.callsign(b[j]);
    }
  }

  /** In the sorted baseline nobody lands before the first, and that stays so under the search:
      an emergency in front keeps its place, and without one the first has the least earliest
      time. */
  lemma FirstLandsNoEarlier(t: Tables, arrivals: seq<Aircraft>, now: real, current: seq<Aircraft>)
    requires arrivals != [] && |current| == |arrivals| && multiset(current) == multiset(arrivals)
    requires var b := InOrder(t, arrivals, now); b[0].emergency ==> current[0] == b[0]
    ensures Earliest(t, InOrder(t, arrivals, now)[0], now) <= Earliest(t, current[0], now)
  {
    var b := InOrder(t, arrivals, now);
    InOrderSorted(t, arrivals, now);
    assert current[0] in multiset(b);
    var j :| 0 <= j < |b| && b[j] == current[0];
    assert j > 0 ==> Before(t, now, b[0], b[j]);
  }

  /** The throughput figure never gets worse either, although the search does not look at it. */
  lemma MeanGapNeverGrows(t: Tables, arrivals: seq<Aircraft>, maxShift: int, now: real, maxIterations: int)
    requires ValidTables(t) && Unique(SpacingOf(t, now), arrivals)
    ensures var p := ProblemOf(t, arrivals, now, maxIterations);
            MeanGapOf(p.sp, After(p, Limit(maxShift)).current) <= MeanGapOf(p.sp, p.baseline)
  {
    var p := ProblemOf(t, arrivals, now, maxIterations);
    var k := Limit(maxShift);
    ProblemUnique(t, arrivals, now, maxIterations);
    SearchKeeps(p, k);
    if |arrivals| > 1 {
      FirstLandsNoEarlier(t, arrivals, now, After(p, k).current);
      SpanShrinks(p, k, After(p, k));
    }
  }

  lemma SpanShrinks(p: Problem, limit: int, st: State)
    requires Kept(p, limit, st) && |p.baseline| > 1
    requires p.sp.earliest(p.baseline[0]) <= p.sp.earliest(st.current[0])
    ensures MeanGapOf(p.sp, st.current) <= MeanGapOf(p.sp, p.baseline)
  {
    var u, v := Times(p.sp, p.baseline, map[]), Times(p.sp, st.current, map[]);
    assert (st.swaps as real) * TOLERANCE >= 0.0;
    MeanGapLess(u, v);
  }
}
