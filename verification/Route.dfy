/** Shortest route over published fixes: A* with lazy deletion, no reopening of expanded nodes
    and a small improvement tolerance. Distances are any function with the triangle
    inequality; which legs cross a hazard is any relation. */
module Route {

  const TOLERANCE := 0.000000001
  const SHORTEST_LEG := 0.000001

  datatype Node = Start | Fix(name: string)

  datatype Graph = Graph(fixes: seq<string>, dist: (Node, Node) -> real, blocked: (Node, Node) -> bool, maxLeg: real)

  ghost predicate Triangle(g: Graph) {
    forall a: Node, b: Node, c: Node :: NoDetour(g, a, b, c)
  }

  ghost predicate NoDetour(g: Graph, a: Node, b: Node, c: Node) {
    g.dist(a, c) <= g.dist(a, b) + g.dist(b, c)
  }

  /** A leg the planner may fly: to another published fix, unblocked, not longer than allowed
      and not of length zero. */
  predicate Edge(g: Graph, a: Node, b: Node) {
    && b.Fix? && b.name in g.fixes && a != b
    && SHORTEST_LEG <= g.dist(a, b) <= g.maxLeg && !g.blocked(a, b)
  }

  /** A chain of legs from the start to the goal, each to another published fix, at least a
      millionth of a mile and at most the permitted leg, and clear of every hazard. */
  ghost predicate IsPath(g: Graph, path: seq<Node>, goal: Node) {
    && |path| >= 2 && path[0] == Start && path[|path| - 1] == goal
    && forall i :: 0 <= i < |path| - 1 ==> Flyable(g, path[i], path[i + 1])
  }

  ghost predicate Flyable(g: Graph, a: Node, b: Node) {
    && a != b && !g.blocked(a, b) && g.dist(a, b) >= 0.000001 && g.dist(a, b) <= g.maxLeg
    && match b case Start => false case Fix(name) => name in g.fixes
  }

  /** The legs the search looks at are the flyable ones. */
  lemma EdgeIff(g: Graph, a: Node, b: Node)
    ensures Edge(g, a, b) <==> Flyable(g, a, b)
  {
  }

  /** Length of the first n legs. */
  function Length(g: Graph, path: seq<Node>, n: nat): real
    requires n < |path|
  {
    if n == 0 then 0.0 else Length(g, path, n - 1) + g.dist(path[n - 1], path[n])
  }

  function Total(g: Graph, path: seq<Node>): real
    requires path != []
  {
    Length(g, path, |path| - 1)
  }

  // ---------------------------------------------------------------- the search state

  /** Heap entry: estimate, cost so far, node. */
  datatype Entry = Entry(f: real, cost: real, node: Node)

  predicate EntryLeq(a: Entry, b: Entry) {
    a.f < b.f || (a.f == b.f && a.cost <= b.cost)
  }

  datatype Frontier = Frontier(best: map<Node, real>, prev: map<Node, Node>, pq: seq<Entry>)

  function H(g: Graph, goal: Node, n: Node): real {
    g.dist(n, goal)
  }

  function Relax(g: Graph, goal: Node, fr: Frontier, m: Node, cost: real, n: Node): Frontier {
    var next := cost + g.dist(m, n);
    if n !in fr.best || next < fr.best[n] - TOLERANCE then
      Frontier(fr.best[n := next], fr.prev[n := m], fr.pq + [Entry(next + H(g, goal, n), next, n)])
    else fr
  }

  /** Costs, predecessors and heap fit together; expanded nodes come in order of estimate,
      and `rank` is the order in which they were expanded. */
  ghost predicate Consistent(g: Graph, goal: Node, fr: Frontier, seen: set<Node>, rank: map<Node, nat>, time: nat,
                             low: real) {
    && Start in fr.best && fr.best[Start] == 0.0 && fr.prev.Keys == fr.best.Keys - {Start}
    && seen <= fr.best.Keys && rank.Keys == seen
    && (forall n :: n in seen ==> rank[n] < time && fr.best[n] + H(g, goal, n) <= low)
    && (forall n :: n in fr.prev ==> Comes(g, fr, seen, rank, n))
    && (forall e :: e in fr.pq ==> e.node in fr.best && e.f == e.cost + H(g, goal, e.node) && e.cost >= fr.best[e.node])
    && (seen != {} ==> Start in seen && forall e :: e in fr.pq ==> e.f >= low)
    && (forall n :: n in fr.best && n !in seen ==> Queued(g, goal, fr, n))
  }

  /** The recorded predecessor is expanded, an edge leads from it, and the costs agree. */
  ghost predicate Comes(g: Graph, fr: Frontier, seen: set<Node>, rank: map<Node, nat>, n: Node)
    requires rank.Keys == seen <= fr.best.Keys && n in fr.prev
  {
    var m := fr.prev[n];
    && n in fr.best && m in seen && Edge(g, m, n) && fr.best[n] == fr.best[m] + g.dist(m, n)
    && (n in seen ==> rank[m] < rank[n])
  }

  ghost predicate Queued(g: Graph, goal: Node, fr: Frontier, n: Node) {
    n in fr.best && Entry(fr.best[n] + H(g, goal, n), fr.best[n], n) in fr.pq
  }

  ghost predicate Relaxed(g: Graph, fr: Frontier, m: Node, n: Node) {
    m in fr.best && n in fr.best && fr.best[n] <= fr.best[m] + g.dist(m, n) + TOLERANCE
  }

  ghost predicate AllRelaxed(g: Graph, fr: Frontier, nodes: set<Node>) {
    forall m, n :: m in nodes && Edge(g, m, n) ==> Relaxed(g, fr, m, n)
  }

  /** With a consistent estimate an expanded node cannot be improved. */
  lemma ExpandedIsFinal(g: Graph, goal: Node, fr: Frontier, seen: set<Node>, m: Node, n: Node, low: real)
    requires Triangle(g) && m in seen && n in seen && seen <= fr.best.Keys
    requires fr.best[m] + H(g, goal, m) == low && fr.best[n] + H(g, goal, n) <= low
    ensures Relax(g, goal, fr, m, fr.best[m], n) == fr
  {
    assert NoDetour(g, m, n, goal);
  }

  /** Relaxing an edge out of the node just expanded keeps everything together. */
  lemma RelaxKeeps(g: Graph, goal: Node, fr: Frontier, seen: set<Node>, rank: map<Node, nat>, time: nat, low: real,
                   m: Node, n: Node)
    requires Triangle(g) && Consistent(g, goal, fr, seen, rank, time, low)
    requires m in seen && fr.best[m] + H(g, goal, m) == low && Edge(g, m, n)
    ensures var r := Relax(g, goal, fr, m, fr.best[m], n);
            && Consistent(g, goal, r, seen, rank, time, low) && Relaxed(g, r, m, n)
            && (forall x :: x in fr.best ==> x in r.best && r.best[x] <= fr.best[x])
            && (forall x :: x in seen ==> r.best[x] == fr.best[x])
  {
    var r := Relax(g, goal, fr, m, fr.best[m], n);
    if n in seen {
      ExpandedIsFinal(g, goal, fr, seen, m, n, low);
    } else if r != fr {
      var e := r.pq[|fr.pq|];
      assert r.pq == fr.pq + [e];
      assert e.f >= low by {
        assert NoDetour(g, m, n, goal);
      }
      RelaxedQueued(g, goal, fr, seen, m, n);
      RelaxedComes(g, goal, fr, seen, rank, m, n);
    }
  }

  lemma RelaxedQueued(g: Graph, goal: Node, fr: Frontier, seen: set<Node>, m: Node, n: Node)
    requires m in fr.best && Relax(g, goal, fr, m, fr.best[m], n) != fr
    requires forall x :: x in fr.best && x !in seen ==> Queued(g, goal, fr, x)
    ensures var r := Relax(g, goal, fr, m, fr.best[m], n);
            forall x :: x in r.best && x !in seen ==> Queued(g, goal, r, x)
  {
    var r := Relax(g, goal, fr, m, fr.best[m], n);
    forall x | x in r.best && x !in seen ensures Queued(g, goal, r, x) {
      if x != n {
        assert Queued(g, goal, fr, x);
      } else {
        assert r.pq[|fr.pq|] == Entry(r.best[n] + H(g, goal, n), r.best[n], n);
      }
    }
  }

  lemma RelaxedComes(g: Graph, goal: Node, fr: Frontier, seen: set<Node>, rank: map<Node, nat>, m: Node, n: Node)
    requires rank.Keys == seen <= fr.best.Keys && m in seen && n !in seen && Edge(g, m, n)
    requires Relax(g, goal, fr, m, fr.best[m], n) != fr
    requires forall x :: x in fr.prev ==> Comes(g, fr, seen, rank, x)
    ensures var r := Relax(g, goal, fr, m, fr.best[m], n);
            forall x :: x in r.prev ==> Comes(g, r, seen, rank, x)
  {
    var r := Relax(g, goal, fr, m, fr.best[m], n);
    forall x | x in r.prev ensures Comes(g, r, seen, rank, x) {
      if x != n {
        assert Comes(g, fr, seen, rank, x);
      }
    }
  }

  // ---------------------------------------------------------------- the heap

  method PopMin(pq: seq<Entry>) returns (e: Entry, rest: seq<Entry>)
    requires pq != []
    ensures e in pq && (forall x :: x in pq ==> EntryLeq(e, x))
    ensures forall x :: x in pq ==> e.f < x.f || (e.f == x.f && e.cost <= x.cost)
    ensures |rest| == |pq| - 1 && forall x :: x in pq <==> x == e || x in rest
  {
    var i := 0;
    for k := 1 to |pq|
      invariant 0 <= i < |pq|
      invariant forall j :: 0 <= j < k ==> EntryLeq(pq[i], pq[j])
    {
      if !EntryLeq(pq[i], pq[k]) {
        i := k;
      }
    }
    e, rest := pq[i], pq[..i] + pq[i + 1..];
    assert pq == pq[..i] + [pq[i]] + pq[i + 1..];
  }

  lemma PoppedCost(g: Graph, goal: Node, fr: Frontier, seen: set<Node>, rank: map<Node, nat>, time: nat, low: real,
                   e: Entry)
    requires Consistent(g, goal, fr, seen, rank, time, low)
    requires e in fr.pq && (forall x :: x in fr.pq ==> EntryLeq(e, x)) && e.node !in seen
    ensures e.cost == fr.best[e.node]
  {
    assert Queued(g, goal, fr, e.node);
  }

  /** A popped entry of a node expanded before is dropped. */
  lemma DropKeeps(g: Graph, goal: Node, fr: Frontier, seen: set<Node>, rank: map<Node, nat>, time: nat, low: real,
                  e: Entry, rest: seq<Entry>)
    requires Consistent(g, goal, fr, seen, rank, time, low)
    requires e.node in seen && forall x :: x in fr.pq <==> x == e || x in rest
    ensures Consistent(g, goal, fr.(pq := rest), seen, rank, time, low)
  {
    var after := fr.(pq := rest);
    forall n | n in fr.best && n !in seen ensures Queued(g, goal, after, n) {
      assert Queued(g, goal, fr, n);
    }
    forall n | n in fr.prev ensures Comes(g, after, seen, rank, n) {
      assert Comes(g, fr, seen, rank, n);
    }
  }

  /** The first popped entry of a node expands it. */
  lemma PopKeeps(g: Graph, goal: Node, fr: Frontier, seen: set<Node>, rank: map<Node, nat>, time: nat, low: real,
                 e: Entry, rest: seq<Entry>)
    requires Consistent(g, goal, fr, seen, rank, time, low) && e.node !in seen
    requires e in fr.pq && (forall x :: x in fr.pq ==> EntryLeq(e, x)) && forall x :: x in fr.pq <==>
             x == e || x in rest
    requires seen == {} ==> e.node == Start
    ensures Consistent(g, goal, fr.(pq := rest), seen + {e.node}, rank[e.node := time], time + 1, e.f)
  {
    var after, now, rank' := fr.(pq := rest), seen + {e.node}, rank[e.node := time];
    PoppedCost(g, goal, fr, seen, rank, time, low, e);
    forall n | n in fr.best && n !in now ensures Queued(g, goal, after, n) {
      assert Queued(g, goal, fr, n);
    }
    forall n | n in fr.prev ensures Comes(g, after, now, rank', n) {
      assert Comes(g, fr, seen, rank, n);
    }
  }

  // ---------------------------------------------------------------- what the costs mean

  /** Along a path through expanded nodes each recorded cost exceeds the length so far by at
      most the tolerance per leg. */
  lemma {:induction false} PrefixCost(g: Graph, goal: Node, fr: Frontier, seen: set<Node>, path: seq<Node>, i: nat)
    requires AllRelaxed(g, fr, seen) && seen <= fr.best.Keys && IsPath(g, path, goal) && i < |path|
    requires Start in fr.best && fr.best[Start] == 0.0
    requires forall j :: 0 <= j < i ==> path[j] in seen
    ensures path[i] in fr.best && fr.best[path[i]] <= Length(g, path, i) + (i as real) * TOLERANCE
  {
    if i == 0 {
    } else {
      PrefixCost(g, goal, fr, seen, path, i - 1);
      assert Edge(g, path[i - 1], path[i - 1 + 1]);
      assert Relaxed(g, fr, path[i - 1], path[i]);
      assert (i as real) * TOLERANCE == ((i - 1) as real) * TOLERANCE + TOLERANCE;
    }
  }

  /** The estimate never exceeds what is left of a path to the goal. */
  lemma {:induction false} EstimateBound(g: Graph, goal: Node, path: seq<Node>, i: nat)
    requires Triangle(g) && i < |path| && path[|path| - 1] == goal
    ensures H(g, goal, path[i]) <= Total(g, path) - Length(g, path, i) + H(g, goal, goal)
    decreases |path| - i
  {
    if i + 1 == |path| {
    } else {
      EstimateBound(g, goal, path, i + 1);
      assert NoDetour(g, path[i], path[i + 1], goal);
    }
  }

  lemma {:induction false} DirectIsShortest(g: Graph, path: seq<Node>, i: nat)
    requires Triangle(g) && 0 < i < |path|
    ensures g.dist(path[0], path[i]) <= Length(g, path, i)
  {
    if i > 1 {
      DirectIsShortest(g, path, i - 1);
      assert NoDetour(g, path[0], path[i - 1], path[i]);
    } else {
      assert Length(g, path, 1) == Length(g, path, 0) + g.dist(path[0], path[1]);
    }
  }

  lemma {:induction false} FirstUnseen(path: seq<Node>, seen: set<Node>, n: nat) returns (i: nat)
    requires n < |path| && path[n] !in seen
    ensures i <= n && path[i] !in seen && forall j :: 0 <= j < i ==> path[j] in seen
  {
    i := 0;
    while path[i] in seen
      invariant i <= n && forall j :: 0 <= j < i ==> path[j] in seen
      decreases n - i
    {
      i := i + 1;
    }
  }

  /** When the goal comes off the heap its cost is within the tolerance per leg of every path. */
  lemma PoppedGoalIsNearOptimal(g: Graph, goal: Node, fr: Frontier, seen: set<Node>, rank: map<Node, nat>, time: nat,
                                low: real, e: Entry, path: seq<Node>)
    requires Triangle(g) && Consistent(g, goal, fr, seen, rank, time, low) && AllRelaxed(g, fr, seen)
    requires e in fr.pq && (forall x :: x in fr.pq ==> EntryLeq(e, x)) && e.node == goal && goal !in seen &&
             Start in seen
    requires IsPath(g, path, goal)
    ensures fr.best[goal] <= Total(g, path) + ((|path| - 1) as real) * TOLERANCE
  {
    var i := FirstUnseen(path, seen, |path| - 1);
    PrefixCost(g, goal, fr, seen, path, i);
    assert Queued(g, goal, fr, path[i]);
    EstimateBound(g, goal, path, i);
    PoppedCost(g, goal, fr, seen, rank, time, low, e);
    assert (i as real) * TOLERANCE <= ((|path| - 1) as real) * TOLERANCE;
  }

  /** With nothing left to expand, a goal that was not reached has no path at all. */
  lemma ExhaustedMeansNoPath(g: Graph, goal: Node, fr: Frontier, seen: set<Node>, path: seq<Node>)
    requires AllRelaxed(g, fr, seen) && fr.best.Keys == seen && Start in seen && fr.best[Start] == 0.0
    requires IsPath(g, path, goal)
    ensures goal in seen
  {
    if goal !in seen {
      var i := FirstUnseen(path, seen, |path| - 1);
      PrefixCost(g, goal, fr, seen, path, i);
      assert false;
    }
  }

  // ---------------------------------------------------------------- the search loop

  /** The edges from m to the first k fixes are relaxed. */
  ghost predicate RelaxedUpTo(g: Graph, fr: Frontier, m: Node, k: nat)
    requires k <= |g.fixes|
  {
    forall j :: 0 <= j < k && Edge(g, m, Fix(g.fixes[j])) ==> Relaxed(g, fr, m, Fix(g.fixes[j]))
  }

  function RelaxFix(g: Graph, goal: Node, fr: Frontier, m: Node, k: nat): Frontier
    requires k < |g.fixes| && m in fr.best
  {
    var n := Fix(g.fixes[k]);
    if Edge(g, m, n) then Relax(g, goal, fr, m, fr.best[m], n) else fr
  }

  lemma RelaxFixKeeps(g: Graph, goal: Node, fr: Frontier, seen: set<Node>, rank: map<Node, nat>, time: nat, low: real,
                      m: Node, k: nat)
    requires Triangle(g) && Consistent(g, goal, fr, seen, rank, time, low) && k < |g.fixes|
    requires m in seen && fr.best[m] + H(g, goal, m) == low
    requires AllRelaxed(g, fr, seen - {m}) && RelaxedUpTo(g, fr, m, k)
    ensures var r := RelaxFix(g, goal, fr, m, k);
            && Consistent(g, goal, r, seen, rank, time, low)
            && AllRelaxed(g, r, seen - {m}) && RelaxedUpTo(g, r, m, k + 1)
            && (forall x :: x in seen ==> r.best[x] == fr.best[x])
  {
    var n := Fix(g.fixes[k]);
    if Edge(g, m, n) {
      RelaxKeeps(g, goal, fr, seen, rank, time, low, m, n);
      var r := Relax(g, goal, fr, m, fr.best[m], n);
      StillRelaxed(g, fr, r, seen, m);
      forall j | 0 <= j < k && Edge(g, m, Fix(g.fixes[j])) ensures Relaxed(g, r, m, Fix(g.fixes[j])) {
        assert Relaxed(g, fr, m, Fix(g.fixes[j]));
      }
    }
  }

  /** All neighbours of the node just expanded, in the order of the table of fixes. */
  method Expand(g: Graph, goal: Node, start: Frontier, m: Node, ghost seen: set<Node>, ghost rank: map<Node, nat>,
                ghost time: nat, ghost low: real)
    returns (fr: Frontier)
    requires Triangle(g) && Consistent(g, goal, start, seen, rank, time, low)
    requires m in seen && start.best[m] + H(g, goal, m) == low && AllRelaxed(g, start, seen - {m})
    ensures Consistent(g, goal, fr, seen, rank, time, low) && AllRelaxed(g, fr, seen)
  {
    fr := start;
    for k := 0 to |g.fixes|
      invariant Consistent(g, goal, fr, seen, rank, time, low)
      invariant AllRelaxed(g, fr, seen - {m}) && RelaxedUpTo(g, fr, m, k)
      invariant fr.best[m] == start.best[m]
    {
      RelaxFixKeeps(g, goal, fr, seen, rank, time, low, m, k);
      fr := RelaxFix(g, goal, fr, m, k);
    }
    AllNeighbours(g, fr, seen, m);
  }

  lemma AllNeighbours(g: Graph, fr: Frontier, seen: set<Node>, m: Node)
    requires AllRelaxed(g, fr, seen - {m}) && RelaxedUpTo(g, fr, m, |g.fixes|)
    ensures AllRelaxed(g, fr, seen)
  {
    forall a, n | a in seen && Edge(g, a, n) ensures Relaxed(g, fr, a, n) {
      if a == m {
        var j :| 0 <= j < |g.fixes| && g.fixes[j] == n.name;
        assert Relaxed(g, fr, m, Fix(g.fixes[j]));
      }
    }
  }

  lemma EmptyHeapAllExpanded(g: Graph, goal: Node, fr: Frontier, seen: set<Node>, rank: map<Node, nat>, time: nat,
                             low: real)
    requires Consistent(g, goal, fr, seen, rank, time, low) && fr.pq == []
    ensures fr.best.Keys == seen
  {
    forall n | n in fr.best ensures n in seen {
      assert n !in seen ==> Queued(g, goal, fr, n);
    }
  }

  lemma StillRelaxed(g: Graph, before: Frontier, after: Frontier, seen: set<Node>, m: Node)
    requires AllRelaxed(g, before, seen - {m}) && seen <= before.best.Keys
    requires forall x :: x in before.best ==> x in after.best && after.best[x] <= before.best[x]
    requires forall x :: x in seen ==> x in after.best && after.best[x] == before.best[x]
    ensures AllRelaxed(g, after, seen - {m})
  {
    forall a, n | a in seen - {m} && Edge(g, a, n) ensures Relaxed(g, after, a, n) {
      assert Relaxed(g, before, a, n);
    }
  }

  /** The goal was expanded: its cost is near-optimal. */
  ghost predicate NearOptimal(g: Graph, goal: Node, cost: real) {
    forall path :: IsPath(g, path, goal) ==> cost <= Total(g, path) + ((|path| - 1) as real) * 0.000000001
  }

  function Universe(g: Graph): set<Node> {
    {Start} + set name | name in g.fixes :: Fix(name)
  }

  method Search(g: Graph, goal: Node)
      returns (fr: Frontier, found: bool, ghost seen: set<Node>, ghost rank: map<Node, nat>,
               ghost time: nat, ghost low: real)
    requires Triangle(g) && goal.Fix? && goal.name in g.fixes
    ensures Consistent(g, goal, fr, seen, rank, time, low) && found == (goal in fr.prev)
    ensures found ==> goal in seen && NearOptimal(g, goal, fr.best[goal])
    ensures !found ==> forall path :: !IsPath(g, path, goal)
  {
    fr := Frontier(map[Start := 0.0], map[], [Entry(H(g, goal, Start), 0.0, Start)]);
    seen, rank, time, low := {}, map[], 0, 0.0;
    var expanded: set<Node> := {};
    var reached := false;
    while fr.pq != [] && !reached
      invariant Consistent(g, goal, fr, seen, rank, time, low) && expanded == seen <= Universe(g)
      invariant fr.best.Keys <= Universe(g)
      invariant !reached ==> goal !in seen && AllRelaxed(g, fr, seen)
      invariant reached ==> goal in seen && NearOptimal(g, goal, fr.best[goal])
      invariant seen == {} ==> fr.pq != [] && forall x :: x in fr.pq ==> x.node == Start
      decreases Universe(g) - seen, |fr.pq|, !reached
    {
      var e, rest := PopMin(fr.pq);
      if e.node in expanded {
        DropKeeps(g, goal, fr, seen, rank, time, low, e, rest);
        fr := fr.(pq := rest);
      } else {
        PopKeeps(g, goal, fr, seen, rank, time, low, e, rest);
        PoppedCost(g, goal, fr, seen, rank, time, low, e);
        ghost var before := fr;
        if e.node == goal {
          forall path | IsPath(g, path, goal)
            ensures fr.best[goal] <= Total(g, path) + ((|path| - 1) as real) * TOLERANCE
          {
            PoppedGoalIsNearOptimal(g, goal, fr, seen, rank, time, low, e, path);
          }
        }
        fr := fr.(pq := rest);
        seen, rank, time, low := seen + {e.node}, rank[e.node := time], time + 1, e.f;
        expanded := expanded + {e.node};
        if e.node == goal {
          reached := true;
        } else {
          assert AllRelaxed(g, fr, seen - {e.node}) by {
            forall a, n | a in seen - {e.node} && Edge(g, a, n) ensures Relaxed(g, fr, a, n) {
              assert Relaxed(g, before, a, n);
            }
          }
          fr := Expand(g, goal, fr, e.node, seen, rank, time, low);
          BestInUniverse(g, goal, fr, seen, rank, time, low);
        }
      }
    }
    found := goal in fr.prev;
    if !reached {
      EmptyHeapAllExpanded(g, goal, fr, seen, rank, time, low);
      forall path | IsPath(g, path, goal) ensures false {
        ExhaustedMeansNoPath(g, goal, fr, seen, path);
      }
    }
  }

  lemma BestInUniverse(g: Graph, goal: Node, fr: Frontier, seen: set<Node>, rank: map<Node, nat>, time: nat, low: real)
    requires Consistent(g, goal, fr, seen, rank, time, low)
    ensures fr.best.Keys <= Universe(g)
  {
    forall n | n in fr.best ensures n in Universe(g) {
      if n != Start {
        assert n in fr.prev;
        assert Comes(g, fr, seen, rank, n);
      }
    }
  }

  // ---------------------------------------------------------------- the planned route

  datatype Leg = Leg(to: Node, dist: real)
  datatype Plan = UnknownFix | NoRoute | Planned(legs: seq<Leg>, detour: real)

  function TotalOf(legs: seq<Leg>): real {
    if legs == [] then 0.0 else TotalOf(legs[..|legs| - 1]) + legs[|legs| - 1].dist
  }

  function LegsOf(g: Graph, path: seq<Node>): (legs: seq<Leg>)
    requires path != []
    ensures |legs| == |path| - 1
  {
    seq(|path| - 1, i requires 0 <= i < |path| - 1 => Leg(path[i + 1], g.dist(path[i], path[i + 1])))
  }

  lemma {:induction false} TotalOfLegs(g: Graph, path: seq<Node>, n: nat)
    requires path != [] && n < |path|
    ensures TotalOf(LegsOf(g, path)[..n]) == Length(g, path, n)
  {
    if n == 0 {
    } else {
      TotalOfLegs(g, path, n - 1);
      assert LegsOf(g, path)[..n][..n - 1] == LegsOf(g, path)[..n - 1];
    }
  }

  lemma {:induction false} PrependLength(g: Graph, m: Node, path: seq<Node>, n: nat)
    requires n < |path|
    ensures Length(g, [m] + path, n + 1) == g.dist(m, path[0]) + Length(g, path, n)
  {
    if n > 0 {
      PrependLength(g, m, path, n - 1);
      assert ([m] + path)[n] == path[n - 1] && ([m] + path)[n + 1] == path[n];
    } else {
      assert Length(g, [m] + path, 1) == Length(g, [m] + path, 0) + g.dist(([m] + path)[0], ([m] + path)[1]);
    }
  }

  /** The walk back along the predecessors ends at the start and gives a path of the recorded
      cost. */
  method WalkBack(g: Graph, goal: Node, fr: Frontier, ghost seen: set<Node>, ghost rank: map<Node, nat>,
                  ghost time: nat, ghost low: real)
    returns (chain: seq<Node>)
    requires Consistent(g, goal, fr, seen, rank, time, low) && goal in fr.prev && goal in seen
    ensures IsPath(g, chain, goal) && Total(g, chain) == fr.best[goal]
  {
    chain := [goal];
    while chain[0] != Start
      invariant chain != [] && chain[|chain| - 1] == goal && chain[0] in seen && (|chain| == 1 ==> chain[0] != Start)
      invariant forall i :: 0 <= i < |chain| - 1 ==> Edge(g, chain[i], chain[i + 1])
      invariant fr.best[chain[0]] + Total(g, chain) == fr.best[goal]
      decreases rank[chain[0]]
    {
      var n := chain[0];
      var m := fr.prev[n];
      assert Comes(g, fr, seen, rank, n);
      PrependLength(g, m, chain, |chain| - 1);
      ghost var before := chain;
      chain := [m] + chain;
      forall i | 0 <= i < |chain| - 1 ensures Edge(g, chain[i], chain[i + 1]) {
        assert i > 0 ==> chain[i] == before[i - 1] && Edge(g, before[i - 1], before[i - 1 + 1]);
      }
    }
  }

  /** A plan that flies `path`, leg by leg. */
  ghost predicate Flies(g: Graph, plan: Plan, path: seq<Node>) {
    && plan.Planned? && |plan.legs| + 1 == |path| && TotalOf(plan.legs) == Total(g, path)
    && forall i :: 0 <= i < |plan.legs| ==>
         plan.legs[i].to == path[i + 1] && plan.legs[i].dist == g.dist(path[i], path[i + 1])
  }

  ghost predicate NoPath(g: Graph, goal: Node) {
    forall path :: !IsPath(g, path, goal)
  }

  ghost predicate FliesSome(g: Graph, plan: Plan, goal: Node) {
    exists path :: IsPath(g, path, goal) && Flies(g, plan, path)
  }

  /** Planning is correct. The direct leg is flown if it is unblocked. Otherwise a route is
      refused exactly when no chain of flyable legs exists, and a route given is such a chain,
      not shorter than the straight line and, leg for leg, within the tolerance of every
      other chain. */
  method PlanRoute(g: Graph, destination: string) returns (plan: Plan)
    requires Triangle(g)
    ensures plan == UnknownFix <==> destination !in g.fixes
    ensures destination in g.fixes && !g.blocked(Start, Fix(destination)) ==>
              plan == Planned([Leg(Fix(destination), g.dist(Start, Fix(destination)))], 0.0)
    ensures destination in g.fixes && g.blocked(Start, Fix(destination)) ==>
              && (plan == NoRoute <==> NoPath(g, Fix(destination)))
              && (plan.Planned? ==>
                    && FliesSome(g, plan, Fix(destination))
                    && plan.detour == TotalOf(plan.legs) - g.dist(Start, Fix(destination)) >= 0.0
                    && NearOptimal(g, Fix(destination), TotalOf(plan.legs)))
  {
    if destination !in g.fixes {
      return UnknownFix;
    }
    var goal := Fix(destination);
    var direct := g.dist(Start, goal);
    if !g.blocked(Start, goal) {
      return Planned([Leg(goal, direct)], 0.0);
    }
    var fr, found, seen, rank, time, low := Search(g, goal);
    if !found {
      return NoRoute;
    }
    var chain := WalkBack(g, goal, fr, seen, rank, time, low);
    var legs := LegsOf(g, chain);
    TotalOfLegs(g, chain, |chain| - 1);
    assert legs[..|chain| - 1] == legs;
    DirectIsShortest(g, chain, |chain| - 1);
    plan := Planned(legs, TotalOf(legs) - direct);
    assert Flies(g, plan, chain);
  }

  // ---------------------------------------------------------------- recovery

  /** A plan to the fix: the direct leg, or a chain of flyable legs. */
  ghost predicate LeadsTo(g: Graph, plan: Plan, destination: string) {
    || (!g.blocked(Start, Fix(destination)) &&
       plan == Planned([Leg(Fix(destination), g.dist(Start, Fix(destination)))], 0.0))
    || FliesSome(g, plan, Fix(destination))
  }

  ghost predicate Unreachable(g: Graph, destination: string) {
    g.blocked(Start, Fix(destination)) && NoPath(g, Fix(destination))
  }

  lemma DirectIsNearOptimal(g: Graph, goal: Node)
    requires Triangle(g)
    ensures NearOptimal(g, goal, g.dist(Start, goal))
  {
    forall path | IsPath(g, path, goal)
      ensures g.dist(Start, goal) <= Total(g, path) + ((|path| - 1) as real) * TOLERANCE
    {
      DirectIsShortest(g, path, |path| - 1);
      assert ((|path| - 1) as real) * TOLERANCE >= 0.0;
    }
  }

  /** No unblocked direct leg is shorter, and no chain is, up to the tolerance per leg. */
  ghost predicate NoWorse(g: Graph, destination: string, cost: real) {
    && NearOptimal(g, Fix(destination), cost)
    && (!g.blocked(Start, Fix(destination)) ==> cost <= g.dist(Start, Fix(destination)))
  }

  method PlanTo(g: Graph, destination: string) returns (plan: Plan)
    requires Triangle(g) && destination in g.fixes
    ensures plan == NoRoute <==> Unreachable(g, destination)
    ensures plan != NoRoute ==>
            plan.Planned? && LeadsTo(g, plan, destination) && NoWorse(g, destination, TotalOf(plan.legs))
  {
    plan := PlanRoute(g, destination);
    DirectIsNearOptimal(g, Fix(destination));
    if plan.Planned? && !g.blocked(Start, Fix(destination)) {
      assert plan.legs[..0] == [];
      assert TotalOf(plan.legs) == TotalOf(plan.legs[..0]) + g.dist(Start, Fix(destination));
    }
  }

  /** Recovery picks, among the approach entries, the one with the shortest route: no direct leg
      to any entry is shorter, and no chain is, up to the tolerance per leg. */
  method Recover(g: Graph, entries: seq<string>) returns (best: Plan)
    requires Triangle(g) && forall iaf :: iaf in entries ==> iaf in g.fixes
    ensures best == NoRoute <==> forall iaf :: iaf in entries ==> Unreachable(g, iaf)
    ensures best != NoRoute ==> best.Planned? && exists iaf :: iaf in entries && LeadsTo(g, best, iaf)
    ensures best != NoRoute ==> forall iaf :: iaf in entries ==> NoWorse(g, iaf, TotalOf(best.legs))
  {
    best := NoRoute;
    for i := 0 to |entries|
      invariant best == NoRoute || best.Planned?
      invariant best == NoRoute <==> forall iaf :: iaf in entries[..i] ==> Unreachable(g, iaf)
      invariant best != NoRoute ==> exists iaf :: iaf in entries[..i] && LeadsTo(g, best, iaf)
      invariant best != NoRoute ==> forall iaf :: iaf in entries[..i] ==> NoWorse(g, iaf, TotalOf(best.legs))
    {
      var r := PlanTo(g, entries[i]);
      assert forall iaf :: iaf in entries[..i + 1] <==> iaf in entries[..i] || iaf == entries[i];
      var before := best;
      if r != NoRoute {
        if best == NoRoute || TotalOf(r.legs) < TotalOf(best.legs) {
          best := r;
        }
      }
      if best != NoRoute {
        forall iaf | iaf in entries[..i + 1] ensures NoWorse(g, iaf, TotalOf(best.legs)) {
          if Unreachable(g, iaf) {
          } else if iaf in entries[..i] {
            NoCostlier(g, iaf, TotalOf(before.legs), TotalOf(best.legs));
          } else {
            NoCostlier(g, iaf, TotalOf(r.legs), TotalOf(best.legs));
          }
        }
      }
    }
    assert entries[..|entries|] == entries;
  }

  lemma NoCostlier(g: Graph, destination: string, a: real, b: real)
    requires NoWorse(g, destination, a) && b <= a
    ensures NoWorse(g, destination, b)
  {
  }
}
