/** The recurrence under both slot layouts: a user of the runway takes the later of its own
    earliest time and its predecessor's time plus the gap between the two. */
module MaxPlus {
  import opened RealFacts

  /** `e[k]` is the earliest time of the k-th user, `g[k]` the gap from user k to user k + 1. */
  function Greedy(e: seq<real>, g: seq<real>, i: nat): real
    requires i < |e| <= |g| + 1
  {
    if i == 0 then e[0] else Max(e[i], Greedy(e, g, i - 1) + g[i - 1])
  }

  /** The gaps between user j and user i added up. */
  function Span(g: seq<real>, j: nat, i: nat): real
    requires j <= i <= |g|
    decreases i
  {
    if j == i then 0.0 else Span(g, j, i - 1) + g[i - 1]
  }

  ghost predicate Feasible(e: seq<real>, g: seq<real>, u: seq<real>)
    requires |e| <= |g| + 1 && |u| == |e|
  {
    && (forall k :: 0 <= k < |e| ==> e[k] <= u[k])
    && (forall k :: 0 <= k < |e| - 1 ==> u[k] + g[k] <= u[k + 1])
  }

  /** Closed form: the greedy time is the maximum over j <= i of `e[j]` plus the gaps from j to i. */
  lemma {:induction false} ClosedForm(e: seq<real>, g: seq<real>, i: nat)
    requires i < |e| <= |g| + 1
    ensures forall j :: 0 <= j <= i ==> e[j] + Span(g, j, i) <= Greedy(e, g, i)
    ensures exists j :: 0 <= j <= i && Greedy(e, g, i) == e[j] + Span(g, j, i)
  {
    if i == 0 {
      assert Greedy(e, g, 0) == e[0] + Span(g, 0, 0);
    } else {
      ClosedForm(e, g, i - 1);
      var j :| 0 <= j <= i - 1 && Greedy(e, g, i - 1) == e[j] + Span(g, j, i - 1);
      assert Span(g, j, i) == Span(g, j, i - 1) + g[i - 1];
      assert Span(g, i, i) == 0.0;
    }
  }

  /** The greedy times are feasible, and no feasible times are earlier anywhere. */
  lemma {:induction false} GreedyIsLeast(e: seq<real>, g: seq<real>, u: seq<real>, i: nat)
    requires i < |e| <= |g| + 1 && |u| == |e|
    requires Feasible(e, g, u)
    ensures Greedy(e, g, i) <= u[i]
  {
    if i == 0 {
    } else {
      GreedyIsLeast(e, g, u, i - 1);
      assert u[i - 1] + g[i - 1] <= u[i - 1 + 1];
    }
  }

  lemma {:induction false} GreedyIsFeasible(e: seq<real>, g: seq<real>)
    requires |e| <= |g| + 1
    ensures Feasible(e, g, seq(|e|, i requires 0 <= i < |e| => Greedy(e, g, i)))
  {
    var u := seq(|e|, i requires 0 <= i < |e| => Greedy(e, g, i));
    forall k | 0 <= k < |e| - 1 ensures u[k] + g[k] <= u[k + 1] {
      assert u[k + 1] == Greedy(e, g, k + 1);
    }
  }

  /** A delay put in at slot k moves nothing before k, and as it travels down the queue it
      never grows: each later slot is delayed by no more than the one before it. */
  lemma {:induction false} DelayNeverGrows(e: seq<real>, f: seq<real>, g: seq<real>, k: nat, i: nat)
    requires |e| == |f| <= |g| + 1 && k < |e| && i < |e|
    requires e[k] <= f[k] && forall m :: 0 <= m < |e| && m != k ==> e[m] == f[m]
    ensures i < k ==> Greedy(f, g, i) == Greedy(e, g, i)
    ensures 0.0 <= Greedy(f, g, i) - Greedy(e, g, i) <= f[k] - e[k]
    ensures k < i ==> Greedy(f, g, i) - Greedy(e, g, i) <= Greedy(f, g, i - 1) - Greedy(e, g, i - 1)
  {
    if i == 0 {
    } else {
      DelayNeverGrows(e, f, g, k, i - 1);
    }
  }
}
