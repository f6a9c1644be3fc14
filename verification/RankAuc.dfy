/** The rank form of the area under the ROC curve against its meaning: the number of
    (positive, negative) pairs scored in the right order, ties counting one half. */
module RankAuc {
  import opened Ordering
  import opened RealFacts

  datatype Scored = Scored(score: real, positive: bool)

  /** Python's order on (score, label) tuples. */
  predicate ScoredLeq(a: Scored, b: Scored) {
    a.score < b.score || (a.score == b.score && (!a.positive || b.positive))
  }

  /** Pairing stops at the shorter list. */
  function Zip(scores: seq<real>, labels: seq<bool>): (p: seq<Scored>)
    ensures |p| == if |scores| <= |labels| then |scores| else |labels|
  {
    seq(if |scores| <= |labels| then |scores| else |labels|,
        i requires 0 <= i < |scores| && i < |labels| => Scored(scores[i], labels[i]))
  }

  function Count(p: seq<Scored>, positive: bool): nat {
    if p == [] then 0 else (if p[0].positive == positive then 1 else 0) + Count(p[1..], positive)
  }

  // ---------------------------------------------------------------- the meaning

  /** How much a score below x counts: 1 if it is lower, one half if it is tied. */
  function Half(score: real, x: real): real {
    if score < x then 1.0 else if score == x then 0.5 else 0.0
  }

  /** All entries of p with the label, weighed against x. */
  function Below(p: seq<Scored>, x: real, positive: bool): real {
    if p == [] then 0.0
        else (if p[0].positive == positive then Half(p[0].score, x) else 0.0) + Below(p[1..], x, positive)
  }

  /** Over the positives of p, the entries of q with the label that lie below. */
  function PairSum(p: seq<Scored>, q: seq<Scored>, positive: bool): real {
    if p == [] then 0.0
        else (if p[0].positive then Below(q, p[0].score, positive) else 0.0) + PairSum(p[1..], q, positive)
  }

  /** Naive pair counting: every positive against every negative. */
  function Wins(p: seq<Scored>): real {
    PairSum(p, p, false)
  }

  // ---------------------------------------------------------------- order does not matter

  lemma {:induction false} BelowInsert(a: Scored, p: seq<Scored>, leq: (Scored, Scored) -> bool, x: real,
                                       positive: bool)
    ensures Below(Insert(a, p, leq), x, positive) == Below([a] + p, x, positive)
    ensures Count(Insert(a, p, leq), positive) == Count([a] + p, positive)
  {
    assert ([a] + p)[1..] == p;
    if p != [] && !leq(a, p[0]) {
      BelowInsert(a, p[1..], leq, x, positive);
      var r := Insert(a, p[1..], leq);
      assert ([p[0]] + r)[1..] == r && ([a] + p[1..])[1..] == p[1..];
    }
  }

  lemma {:induction false} BelowSort(p: seq<Scored>, leq: (Scored, Scored) -> bool, x: real, positive: bool)
    ensures Below(Sort(p, leq), x, positive) == Below(p, x, positive)
    ensures Count(Sort(p, leq), positive) == Count(p, positive)
  {
    if p == [] {
    } else {
      BelowSort(p[1..], leq, x, positive);
      var r := Sort(p[1..], leq);
      BelowInsert(p[0], r, leq, x, positive);
      assert ([p[0]] + r)[1..] == r;
    }
  }

  lemma {:induction false} PairSumInsert(a: Scored, p: seq<Scored>, leq: (Scored, Scored) -> bool, q: seq<Scored>,
                                         positive: bool)
    ensures PairSum(Insert(a, p, leq), q, positive) == PairSum([a] + p, q, positive)
  {
    assert ([a] + p)[1..] == p;
    if p != [] && !leq(a, p[0]) {
      PairSumInsert(a, p[1..], leq, q, positive);
      var r := Insert(a, p[1..], leq);
      assert ([p[0]] + r)[1..] == r && ([a] + p[1..])[1..] == p[1..];
    }
  }

  lemma {:induction false} PairSumSameBelow(p: seq<Scored>, q: seq<Scored>, r: seq<Scored>, positive: bool)
    requires forall x: real :: Below(q, x, positive) == Below(r, x, positive)
    ensures PairSum(p, q, positive) == PairSum(p, r, positive)
  {
    if p == [] {
    } else {
      PairSumSameBelow(p[1..], q, r, positive);
    }
  }

  lemma {:induction false} PairSumSort(p: seq<Scored>, leq: (Scored, Scored) -> bool, q: seq<Scored>, positive: bool)
    ensures PairSum(Sort(p, leq), q, positive) == PairSum(p, q, positive)
  {
    if p == [] {
    } else {
      PairSumSort(p[1..], leq, q, positive);
      var r := Sort(p[1..], leq);
      PairSumInsert(p[0], r, leq, q, positive);
      assert ([p[0]] + r)[1..] == r;
    }
  }

  lemma WinsSort(p: seq<Scored>, leq: (Scored, Scored) -> bool)
    ensures Wins(Sort(p, leq)) == Wins(p)
  {
    var s := Sort(p, leq);
    forall x: real ensures Below(s, x, false) == Below(p, x, false) {
      BelowSort(p, leq, x, false);
    }
    PairSumSameBelow(s, s, p, false);
    PairSumSort(p, leq, p, false);
  }

  lemma ScoredOrder(s: seq<Scored>)
    ensures Total((a: Scored, b: Scored) => ScoredLeq(a, b))
    ensures Transitive((a: Scored, b: Scored) => ScoredLeq(a, b))
    ensures NoTies(s, (a: Scored, b: Scored) => ScoredLeq(a, b))
  {
  }

  /** The count of pairs, and so the area, is the same for every arrangement of the inputs. */
  lemma OrderDoesNotMatter(p: seq<Scored>, q: seq<Scored>)
    requires multiset(p) == multiset(q)
    ensures Wins(p) == Wins(q) && Count(p, true) == Count(q, true) && Count(p, false) == Count(q, false)
  {
    var leq := (a: Scored, b: Scored) => ScoredLeq(a, b);
    ScoredOrder(p);
    SortForgetsInputOrder(p, q, leq);
    WinsSort(p, leq);
    WinsSort(q, leq);
    BelowSort(p, leq, 0.0, true);
    BelowSort(q, leq, 0.0, true);
    BelowSort(p, leq, 0.0, false);
    BelowSort(q, leq, 0.0, false);
  }

  // ---------------------------------------------------------------- ranks

  ghost predicate Ascending(p: seq<Scored>) {
    forall i, j :: 0 <= i < j < |p| ==> p[i].score <= p[j].score
  }

  /** The mid-rank of a score: the entries below, half the tied ones, and one half. */
  function MidRank(p: seq<Scored>, x: real): real {
    Below(p, x, true) + Below(p, x, false) + 0.5
  }

  /** In an ascending list the entries tied with x at positions lo to hi - 1 have as mid-rank
      the mean of their positions counted from 1. */
  lemma {:induction false} MidRankOfBlock(p: seq<Scored>, x: real, lo: nat, hi: nat)
    requires lo <= hi <= |p|
    requires forall k :: 0 <= k < |p| ==>
             (k < lo ==> p[k].score < x) && (lo <= k < hi ==> p[k].score == x) && (hi <= k ==> p[k].score > x)
    ensures Below(p, x, true) + Below(p, x, false) == lo as real + (hi - lo) as real * 0.5
  {
    if p == [] {
    } else {
      var rest := p[1..];
      if lo > 0 {
        MidRankOfBlock(rest, x, lo - 1, hi - 1);
      } else if hi > 0 {
        MidRankOfBlock(rest, x, 0, hi - 1);
      } else {
        MidRankOfBlock(rest, x, 0, 0);
      }
    }
  }

  /** The ranks of the positives added up, ranks given position by position. */
  function RankSum(p: seq<Scored>, ranks: seq<real>): real
    requires |ranks| == |p|
  {
    if p == [] then 0.0 else (if p[0].positive then ranks[0] else 0.0) + RankSum(p[1..], ranks[1..])
  }

  lemma {:induction false} RankSumOfMidRanks(p: seq<Scored>, ranks: seq<real>, q: seq<Scored>)
    requires |ranks| == |p| && forall k :: 0 <= k < |p| ==> ranks[k] == MidRank(q, p[k].score)
    ensures RankSum(p, ranks) == PairSum(p, q, true) + PairSum(p, q, false) + 0.5 * (Count(p, true) as real)
  {
    if p == [] {
    } else {
      RankSumOfMidRanks(p[1..], ranks[1..], q);
    }
  }

  // ---------------------------------------------------------------- positives among themselves

  /** One more entry at the end of the second list. */
  lemma {:induction false} PairSumCons(p: seq<Scored>, a: Scored, q: seq<Scored>)
    ensures PairSum(p, [a] + q, true) == (if a.positive then PairSumOne(p, a.score) else 0.0) + PairSum(p, q, true)
  {
    assert ([a] + q)[1..] == q;
    if p != [] {
      PairSumCons(p[1..], a, q);
    }
  }

  /** Over the positives of p, how much `score` counts below them. */
  function PairSumOne(p: seq<Scored>, score: real): real {
    if p == [] then 0.0 else (if p[0].positive then Half(score, p[0].score) else 0.0) + PairSumOne(p[1..], score)
  }

  lemma {:induction false} OneAgainstAll(p: seq<Scored>, x: real)
    ensures PairSumOne(p, x) + Below(p, x, true) == Count(p, true) as real
  {
    if p == [] {
    } else {
      OneAgainstAll(p[1..], x);
    }
  }

  /** Two lists of positives: of each two entries one is below the other or they are tied. */
  lemma {:induction false} BothWays(p: seq<Scored>, q: seq<Scored>)
    ensures PairSum(p, q, true) + PairSum(q, p, true) == (Count(p, true) as real) * (Count(q, true) as real)
  {
    if p == [] {
      NothingBelow(q);
    } else {
      var a, rest := p[0], p[1..];
      assert p == [a] + rest;
      BothWays(rest, q);
      PairSumCons(q, a, rest);
      OneAgainstAll(q, a.score);
      var m, n := Count(rest, true) as real, Count(q, true) as real;
      assert (m + 1.0) * n == m * n + n;
    }
  }

  lemma {:induction false} NothingBelow(q: seq<Scored>)
    ensures PairSum(q, [], true) == 0.0
  {
    if q == [] {
    } else {
      NothingBelow(q[1..]);
    }
  }

  /** The rank sum when all positives come first. */
  function LeastRankSum(pos: nat): real {
    (pos as real) * (pos as real + 1.0) / 2.0
  }

  function PairCount(pos: nat, neg: nat): (n: real)
    ensures pos > 0 && neg > 0 ==> n > 0.0
  {
    ProductSign(pos as real, neg as real);
    (pos as real) * (neg as real)
  }

  /** The rank sum of the positives, less its least possible value, is the pair count. */
  lemma RankSumIsWins(p: seq<Scored>, ranks: seq<real>)
    requires |ranks| == |p| && forall k :: 0 <= k < |p| ==> ranks[k] == MidRank(p, p[k].score)
    ensures RankSum(p, ranks) - LeastRankSum(Count(p, true)) == Wins(p)
  {
    RankSumOfMidRanks(p, ranks, p);
    BothWays(p, p);
    var pos := Count(p, true) as real;
    assert pos * (pos + 1.0) == pos * pos + pos;
  }

  // ---------------------------------------------------------------- the algorithm

  method Ranks(p: seq<Scored>) returns (ranks: seq<real>)
    requires Ascending(p)
    ensures |ranks| == |p| && forall k :: 0 <= k < |p| ==> ranks[k] == MidRank(p, p[k].score)
  {
    ranks := seq(|p|, _ => 0.0);
    var i := 0;
    while i < |p|
      invariant 0 <= i <= |p| == |ranks|
      invariant 0 < i < |p| ==> p[i - 1].score < p[i].score
      invariant forall k :: 0 <= k < i ==> ranks[k] == MidRank(p, p[k].score)
    {
      var j := i;
      while j + 1 < |p| && p[j + 1].score == p[i].score
        invariant i <= j < |p| && forall k :: i <= k <= j ==> p[k].score == p[i].score
      {
        j := j + 1;
      }
      BlockBounds(p, i, j);
      MidRankOfBlock(p, p[i].score, i, j + 1);
      var avg := ((i + j) as real) / 2.0 + 1.0;
      for k := i to j + 1
        invariant |ranks| == |p|
        invariant forall l :: 0 <= l < i ==> ranks[l] == MidRank(p, p[l].score)
        invariant forall l :: i <= l < k ==> ranks[l] == avg
      {
        ranks := ranks[k := avg];
      }
      assert avg == MidRank(p, p[i].score);
      i := j + 1;
    }
  }

  lemma BlockBounds(p: seq<Scored>, i: nat, j: nat)
    requires Ascending(p) && i <= j < |p| && p[i].score == p[j].score
    requires i > 0 ==> p[i - 1].score < p[i].score
    requires j + 1 < |p| ==> p[j + 1].score != p[i].score
    ensures forall k :: 0 <= k < |p| ==>
              && (k < i ==> p[k].score < p[i].score)
              && (i <= k < j + 1 ==> p[k].score == p[i].score)
              && (j + 1 <= k ==> p[k].score > p[i].score)
  {
    forall k | 0 <= k < |p|
      ensures k < i ==> p[k].score < p[i].score
      ensures i <= k < j + 1 ==> p[k].score == p[i].score
      ensures j + 1 <= k ==> p[k].score > p[i].score
    {
      if k < i {
        assert k == i - 1 || p[k].score <= p[i - 1].score;
      } else if k <= j {
        assert k == i || p[i].score <= p[k].score;
        assert k == j || p[k].score <= p[j].score;
      } else {
        assert p[j].score <= p[j + 1].score;
        assert k == j + 1 || p[j + 1].score <= p[k].score;
      }
    }
  }

  lemma QuotientTimes(n: real, d: real)
    requires d != 0.0
    ensures n / d * d == n
  {
  }

  /** What an area means: no claim without two classes, pair counting otherwise. */
  ghost predicate IsAuc(auc: real, wins: real, pos: nat, neg: nat) {
    if pos == 0 || neg == 0 then auc == 0.5 else auc * PairCount(pos, neg) == wins
  }

  method SortedAuc(p: seq<Scored>) returns (auc: real)
    requires Ascending(p)
    ensures IsAuc(auc, Wins(p), Count(p, true), Count(p, false))
  {
    var ranks := Ranks(p);
    var pos := Count(p, true);
    var neg := |p| - pos;
    CountsAddUp(p);
    if pos == 0 || neg == 0 {
      return 0.5;
    }
    var rankSum := RankSum(p, ranks);
    RankSumIsWins(p, ranks);
    auc := (rankSum - LeastRankSum(pos)) / PairCount(pos, neg);
    QuotientTimes(rankSum - LeastRankSum(pos), PairCount(pos, neg));
  }

  lemma SortedSameAuc(p: seq<Scored>, s: seq<Scored>, auc: real)
    requires Wins(s) == Wins(p) && Count(s, true) == Count(p, true) && Count(s, false) == Count(p, false)
    requires IsAuc(auc, Wins(s), Count(s, true), Count(s, false))
    ensures IsAuc(auc, Wins(p), Count(p, true), Count(p, false))
  {
  }

  /** The rank form is exactly naive pair counting, normalised; 0.5 without two classes. */
  method RocAuc(scores: seq<real>, labels: seq<bool>) returns (auc: real)
    ensures var p := Zip(scores, labels); IsAuc(auc, Wins(p), Count(p, true), Count(p, false))
  {
    var pairs := SortedPairs(Zip(scores, labels));
    auc := SortedAuc(pairs);
    SortedSameAuc(Zip(scores, labels), pairs, auc);
  }

  function SortedPairs(p: seq<Scored>): (s: seq<Scored>)
    ensures Ascending(s) && Wins(s) == Wins(p) && Count(s, true) == Count(p, true) && Count(s, false) == Count(p, false)
  {
    var leq := (a: Scored, b: Scored) => ScoredLeq(a, b);
    SortAscends(p);
    BelowSort(p, leq, 0.0, true);
    BelowSort(p, leq, 0.0, false);
    WinsSort(p, leq);
    Sort(p, leq)
  }

  lemma SortAscends(p: seq<Scored>)
    ensures Ascending(Sort(p, (a: Scored, b: Scored) => ScoredLeq(a, b)))
  {
    var leq := (a: Scored, b: Scored) => ScoredLeq(a, b);
    ScoredOrder(p);
    SortSorted(p, leq);
    var s := Sort(p, leq);
    forall i, j | 0 <= i < j < |s| ensures s[i].score <= s[j].score {
      assert leq(s[i], s[j]);
    }
  }

  lemma {:induction false} CountsAddUp(p: seq<Scored>)
    ensures Count(p, true) + Count(p, false) == |p|
  {
    if p == [] {
    } else {
      CountsAddUp(p[1..]);
    }
  }
}
