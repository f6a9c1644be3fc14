/** The order the exception queue is published in, and the service that keeps the queue. */
module ExceptionQueueService {
  import opened Options
  import opened Ordering
  import opened ExceptionQueue

  // ---------------------------------------------------------------- the policy order

  datatype Policy = Policy(emergency: nat, critical: nat, urgent: nat, high: nat, attention: nat, medium: nat,
      routine: nat, low: nat) {
    function Rank(i: Item): nat {
      match i.source
      case Risk(_, _, _, level, _, _, _) =>
        (match level
         case CriticalRisk => critical
         case HighRisk => high
         case MediumRisk => medium
         case LowRisk => low)
      case Priority(_, _, level, _, _) =>
        (match level
         case Emergency => emergency
         case Urgent => urgent
         case Attention => attention
         case Routine => routine)
    }

    /** `None` stands for the infinite time of a priority item. */
    function KeyOf(i: Item): SortKey {
      SortKey(if i.status == Resolved then 1 else 0, Rank(i), if i.status == Status.Acknowledged then 1 else 0,
              if i.source.Risk? then Some(i.source.tcpa) else None, -i.source.score, i.id)
    }

    function Leq(): (Item, Item) -> bool {
      (x, y) => KeyLeq(KeyOf(x), KeyOf(y))
    }
  }

  datatype SortKey = SortKey(resolved: nat, rank: nat, acknowledged: nat, tcpa: Option<real>, minusScore: real,
      id: string)

  predicate Sooner(a: Option<real>, b: Option<real>) {
    a.Some? && (b.None? || a.value < b.value)
  }

  predicate KeyLeq(a: SortKey, b: SortKey) {
    if a.resolved != b.resolved then a.resolved < b.resolved
    else if a.rank != b.rank then a.rank < b.rank
    else if a.acknowledged != b.acknowledged then a.acknowledged < b.acknowledged
    else if a.tcpa != b.tcpa then Sooner(a.tcpa, b.tcpa)
    else if a.minusScore != b.minusScore then a.minusScore < b.minusScore
    else StringLeq(a.id, b.id)
  }

  /** The key is a total order in which only items with equal identifiers tie. */
  lemma PolicyIsTotalOrder(p: Policy)
    ensures Total(p.Leq()) && Transitive(p.Leq())
    ensures forall x, y :: p.Leq()(x, y) && p.Leq()(y, x) ==> x.id == y.id
  {
    forall x, y
      ensures p.Leq()(x, y) || p.Leq()(y, x)
      ensures p.Leq()(x, y) && p.Leq()(y, x) ==> x.id == y.id
    {
      StringTotal(x.id, y.id);
    }
    forall x, y, z | p.Leq()(x, y) && p.Leq()(y, z) ensures p.Leq()(x, z) {
      KeyTransitive(p.KeyOf(x), p.KeyOf(y), p.KeyOf(z));
    }
  }

  lemma KeyTransitive(a: SortKey, b: SortKey, c: SortKey)
    requires KeyLeq(a, b) && KeyLeq(b, c)
    ensures KeyLeq(a, c)
  {
    if StringLeq(a.id, b.id) && StringLeq(b.id, c.id) {
      StringTransitive(a.id, b.id, c.id);
    }
  }

  // ---------------------------------------------------------------- publishing

  /** s holds each item once, in some order. */
  ghost predicate Lists(s: seq<Item>, items: Items) {
    && Distinct(s)
    && (forall x :: x in s <==> x.id in items && items[x.id] == x)
  }

  lemma ListsAgree(a: seq<Item>, b: seq<Item>, items: Items)
    requires Lists(a, items) && Lists(b, items)
    ensures multiset(a) == multiset(b)
  {
    forall x ensures multiset(a)[x] == multiset(b)[x] {
      CountOnce(a, x);
      CountOnce(b, x);
      assert x in multiset(a) <==> x in a;
      assert x in multiset(b) <==> x in b;
    }
  }

  /** What a snapshot of these items shows. */
  ghost predicate Published(p: Policy, items: Items, s: seq<Item>) {
    Lists(s, items) && Sorted(s, p.Leq())
  }

  lemma NoTiesAmong(p: Policy, s: seq<Item>, items: Items)
    requires Lists(s, items)
    ensures NoTies(s, p.Leq())
  {
    PolicyIsTotalOrder(p);
  }

  /** The published order is a function of the items: every way of listing them sorts to the
      same sequence, and nothing else is a published order. */
  lemma PublishedIsUnique(p: Policy, items: Items, listed: seq<Item>, s: seq<Item>)
    requires Lists(listed, items)
    ensures Published(p, items, s) <==> s == Sort(listed, p.Leq())
  {
    PolicyIsTotalOrder(p);
    SortSorted(listed, p.Leq());
    var sorted := Sort(listed, p.Leq());
    DistinctPermuted(listed, sorted);
    forall x ensures x in sorted <==> x in listed {
      assert x in multiset(sorted) <==> x in multiset(listed);
    }
    if Published(p, items, s) {
      ListsAgree(listed, s, items);
      NoTiesAmong(p, s, items);
      SortedUnique(s, sorted, p.Leq());
    }
  }

  /** The top of the queue: unresolved items come first, and the very first one has the least
      rank of all unresolved items. */
  lemma TopIsMostSevere(p: Policy, items: Items, s: seq<Item>)
    requires Published(p, items, s)
    ensures forall id :: (id in items && items[id].id == id && items[id].status != Resolved ==>
              s != [] && s[0].status != Resolved && p.Rank(s[0]) <= p.Rank(items[id]))
  {
    forall id | id in items && items[id].id == id && items[id].status != Resolved
      ensures s != [] && s[0].status != Resolved && p.Rank(s[0]) <= p.Rank(items[id])
    {
      assert items[id] in s;
      var k :| 0 <= k < |s| && s[k] == items[id];
      assert k > 0 ==> p.Leq()(s[0], s[k]);
    }
  }

  /** The rank a policy gives to each kind of assessment. */
  ghost predicate HasRank(p: Policy, a: Assessment, r: nat) {
    || (a.Priority? && a.priorityLevel == Emergency && r == p.emergency)
    || (a.Risk? && a.riskLevel == CriticalRisk && r == p.critical)
    || (a.Priority? && a.priorityLevel == Urgent && r == p.urgent)
    || (a.Risk? && a.riskLevel == HighRisk && r == p.high)
    || (a.Priority? && a.priorityLevel == Attention && r == p.attention)
    || (a.Risk? && a.riskLevel == MediumRisk && r == p.medium)
    || (a.Priority? && a.priorityLevel == Routine && r == p.routine)
    || (a.Risk? && a.riskLevel == LowRisk && r == p.low)
  }

  /** Among items of one rank: open ones in front of acknowledged ones, risks by the time to the
      closest approach and in front of priorities, then the higher score, then the identifier. */
  ghost predicate InFrontAmongEquals(a: Item, b: Item) {
    || (a.status == Open && b.status == Status.Acknowledged)
    || (a.status == b.status && (
          || (a.source.Risk? && b.source.Priority?)
          || (a.source.Risk? && b.source.Risk? && a.source.tcpa < b.source.tcpa)
          || (((a.source.Risk? && b.source.Risk? && a.source.tcpa == b.source.tcpa)
               || (a.source.Priority? && b.source.Priority?))
              && (a.source.score > b.source.score
                  || (a.source.score == b.source.score && StringLeq(a.id, b.id))))))
  }

  /** What it means to be listed before another item. */
  lemma PublishedOrder(p: Policy, items: Items, s: seq<Item>, i: nat, j: nat, r: nat, t: nat)
    requires Published(p, items, s) && i < j < |s| && HasRank(p, s[i].source, r) && HasRank(p, s[j].source, t)
    ensures || (s[i].status != Resolved && s[j].status == Resolved)
            || ((s[i].status == Resolved <==> s[j].status == Resolved)
                && (r < t || (r == t && InFrontAmongEquals(s[i], s[j]))))
  {
    assert p.Leq()(s[i], s[j]);
  }

  /** The ranks of the delivered policy. */
  const POC_POLICY := Policy(0, 1, 2, 3, 4, 5, 6, 7)

  /** With the delivered policy a controller reads emergencies, then critical risks, urgent
      priorities, high risks, priorities for attention and medium risks. */
  ghost function Severity(a: Assessment): nat {
    match a
    case Priority(_, _, level, _, _) => 2 * (if level == Emergency then 0 else if level == Urgent then 1
                                             else if level == Attention then 2 else 3)
    case Risk(_, _, _, level, _, _, _) => 1 + 2 * (if level == CriticalRisk then 0 else if level == HighRisk then 1
                                                   else if level == MediumRisk then 2 else 3)
  }

  lemma DeliveredOrder(items: Items, s: seq<Item>, i: nat, j: nat)
    requires Published(POC_POLICY, items, s) && i < j < |s| && s[j].status != Resolved
    ensures s[i].status != Resolved && Severity(s[i].source) <= Severity(s[j].source)
  {
    PublishedOrder(POC_POLICY, items, s, i, j, Severity(s[i].source), Severity(s[j].source));
  }

  // ---------------------------------------------------------------- the service

  datatype Snapshot = Snapshot(generatedAt: int, revision: nat, items: seq<Item>)

  predicate SubjectLeq(x: Assessment, y: Assessment) {
    match (x, y)
    case (Risk(_, f, s, _, _, _, _), Risk(_, f', s', _, _, _, _)) => if f != f' then StringLeq(f, f')
        else StringLeq(s, s')
    case (Priority(_, a, _, _, _), Priority(_, b, _, _, _)) => StringLeq(a, b)
    case (Risk(_, _, _, _, _, _, _), _) => true
    case (_, _) => false
  }

  predicate UniqueSubjects(sources: seq<Assessment>) {
    forall i, j :: 0 <= i < j < |sources| ==> !SameSubject(sources[i], sources[j])
  }

  /** Subject checks kind by kind say what one check of all identifiers says. */
  lemma SubjectsByKind(risks: seq<Assessment>, priorities: seq<Assessment>)
    requires (forall a :: a in risks ==> a.Risk?) && (forall a :: a in priorities ==> a.Priority?)
    ensures UniqueSubjects(risks) && UniqueSubjects(priorities) <==> IdsUnique(Keys(risks + priorities))
  {
    var all := risks + priorities;
    SubjectsAreIds(all);
    if UniqueSubjects(all) {
      assert all[..|risks|] == risks && all[|risks|..] == priorities;
      UniqueInSlice(all, 0, |risks|);
      UniqueInSlice(all, |risks|, |all|);
    } else {
      assert forall k :: 0 <= k < |risks| ==> all[k] == risks[k] && risks[k] in risks;
      assert forall k :: |risks| <= k < |all| ==> all[k] == priorities[k - |risks|] && all[k] in priorities;
      var i, j :| 0 <= i < j < |all| && SameSubject(all[i], all[j]);
      if j < |risks| {
        assert SameSubject(risks[i], risks[j]);
      } else if i >= |risks| {
        assert SameSubject(priorities[i - |risks|], priorities[j - |risks|]);
      }
    }
  }

  lemma UniqueInSlice(all: seq<Assessment>, lo: nat, hi: nat)
    requires lo <= hi <= |all| && UniqueSubjects(all)
    ensures UniqueSubjects(all[lo..hi])
  {
    forall i, j | 0 <= i < j < hi - lo ensures !SameSubject(all[lo..hi][i], all[lo..hi][j]) {
      assert !SameSubject(all[lo + i], all[lo + j]);
    }
  }

  /** Going on with the next batch, unless the first one failed. */
  function Continued(r: Result<Items, Error>, y: seq<Keyed>, n: nat): Result<Items, Error>
    requires n <= |y|
  {
    match r
    case Err(e) => Err(e)
    case Ok(items) => Apply(items, y, n)
  }

  /** Applying two batches one after the other applies their concatenation. */
  lemma {:induction false} ApplyInTwoBatches(items: Items, x: seq<Keyed>, y: seq<Keyed>, n: nat)
    requires n <= |y|
    ensures Apply(items, x + y, |x| + n) == Continued(Apply(items, x, |x|), y, n)
  {
    if n == 0 {
      ApplyPrefix(items, x, y, |x|);
    } else {
      ApplyInTwoBatches(items, x, y, n - 1);
      assert (x + y)[|x| + n - 1] == y[n - 1];
    }
  }

  lemma {:induction false} ApplyPrefix(items: Items, x: seq<Keyed>, y: seq<Keyed>, n: nat)
    requires n <= |x|
    ensures Apply(items, x + y, n) == Apply(items, x, n)
  {
    if n == 0 {
    } else {
      ApplyPrefix(items, x, y, n - 1);
      assert (x + y)[n - 1] == x[n - 1];
    }
  }

  /** Sorting each kind first is a rearrangement of all sources. */
  lemma SortedBatches(risks: seq<Assessment>, priorities: seq<Assessment>)
    ensures multiset(Sort(risks, SubjectLeq) + Sort(priorities, SubjectLeq)) == multiset(risks + priorities)
  {
  }

  function TwoBatches(items: Items, x: seq<Assessment>, y: seq<Assessment>): Result<Items, Error> {
    Continued(Apply(items, Keys(x), |x|), Keys(y), |y|)
  }

  lemma TwoBatchesAreOne(items: Items, x: seq<Assessment>, y: seq<Assessment>)
    ensures TwoBatches(items, x, y) == Apply(items, Keys(x + y), |x + y|)
  {
    assert Keys(x + y) == Keys(x) + Keys(y);
    ApplyInTwoBatches(items, Keys(x), Keys(y), |y|);
  }

  /** The two sorted batches give what the refresh is specified to give, and when it reaches
      the snapshot every candidate item is in order. */
  lemma BatchesRefine(q: Queue, at: int, all: seq<Assessment>, x: seq<Assessment>, y: seq<Assessment>)
    requires Inv(q) && Acceptable(q, at, all) && multiset(x + y) == multiset(all)
    ensures var r := TwoBatches(q.items, x, y);
            && r.Ok? && (forall id :: id in r.value ==> ItemOk(id, r.value[id], at))
            && Refreshed(q, at, all) == Publish(q, r.value, at)
  {
    SameAcceptance(q, at, all, x + y);
    TwoBatchesAreOne(q.items, x, y);
    CandidatesInOrder(q, at, x + y);
    RefreshForgetsOrder(q, at, all, x + y);
  }

  lemma CandidatesInOrder(q: Queue, at: int, sources: seq<Assessment>)
    requires Inv(q) && Acceptable(q, at, sources)
    ensures var r := Apply(q.items, Keys(sources), |sources|);
            r.Ok? && forall id :: id in r.value ==> ItemOk(id, r.value[id], at)
  {
    SourcesSucceed(q, at, sources);
    ApplyPointwise(q.items, Keys(sources), at, |sources|);
    var items := Apply(q.items, Keys(sources), |sources|).value;
    forall id | id in items ensures ItemOk(id, items[id], at) {
      assert Pointwise(q.items, Keys(sources), |sources|, items, id);
      OneItemAfter(q, Keys(sources), at, items, id);
    }
  }

  /** The loop over one sorted batch of sources. */
  method ApplyBatch(items: Items, sources: seq<Assessment>) returns (r: Result<Items, Error>)
    ensures r == Apply(items, Keys(sources), |sources|)
  {
    r := Ok(items);
    for n := 0 to |sources|
      invariant r == Apply(items, Keys(sources), n)
    {
      var k := Key(sources[n]);
      if r.Ok? {
        var updated := Updated(k.id, k.source, Lookup(r.value, k.id));
        if updated.Ok? {
          r := Ok(Put(r.value, k.id, updated.value));
        } else {
          r := Err(updated.error);
        }
      }
    }
  }

  /** The values of the dictionary, in whatever order it has them. */
  method ItemsOf(items: Items) returns (s: seq<Item>)
    requires forall id :: id in items ==> items[id].id == id
    ensures Lists(s, items)
  {
    s := [];
    var left := items.Keys;
    while left != {}
      invariant left <= items.Keys && Distinct(s)
      invariant forall x :: x in s <==> x.id in items && x.id !in left && items[x.id] == x
    {
      var id :| id in left;
      s := s + [items[id]];
      left := left - {id};
    }
  }

  class Service {
    const policy: Policy
    var items: Items
    var lastSnapshot: Option<Snapshot>
    var revision: nat

    function State(): Queue
      reads this
    {
      Queue(items, if lastSnapshot.Some? then Some(lastSnapshot.value.generatedAt) else None, revision)
    }

    /** The queue's invariant, and the last snapshot shows the current items in policy order. */
    ghost predicate Valid()
      reads this
    {
      && Inv(State())
      && (lastSnapshot.Some? ==>
         lastSnapshot.value.revision == revision && Published(policy, items, lastSnapshot.value.items))
    }

    constructor (policy: Policy)
      ensures Valid() && State() == EMPTY && lastSnapshot == None && this.policy == policy
    {
      this.policy := policy;
      items, lastSnapshot, revision := map[], None, 0;
    }

    /** The current items in policy order. */
    method CurrentItems() returns (s: seq<Item>)
      requires Valid()
      ensures Published(policy, items, s)
    {
      forall id | id in items ensures items[id].id == id {
        assert ItemOk(id, items[id], State().lastAt.value);
      }
      var listed := ItemsOf(items);
      PublishedIsUnique(policy, items, listed, Sort(listed, policy.Leq()));
      s := Sort(listed, policy.Leq());
    }

    /** A commit or nothing: the state changes only if every check of the snapshot passes. */
    method Commit(candidate: Items, at: int) returns (r: Result<Snapshot, Error>)
      requires Valid() && forall id :: id in candidate ==> ItemOk(id, candidate[id], at)
      modifies this
      ensures Valid()
      ensures match Publish(old(State()), candidate, at)
              case Ok(q) => State() == q && r.Ok? && lastSnapshot == Some(r.value)
              case Err(e) => r == Err(e) && State() == old(State()) && lastSnapshot == old(lastSnapshot)
    {
      PublishKeeps(State(), candidate, at);
      if !SourceIdsUnique(candidate) {
        return Err(DuplicateSourceId);
      }
      if exists id :: id in candidate && candidate[id].updatedAt > at {
        return Err(BadItemTimes);
      }
      forall id | id in candidate ensures candidate[id].id == id {
        assert ItemOk(id, candidate[id], at);
      }
      var listed := ItemsOf(candidate);
      PublishedIsUnique(policy, candidate, listed, Sort(listed, policy.Leq()));
      var snapshot := Snapshot(at, revision + 1, Sort(listed, policy.Leq()));
      items, lastSnapshot, revision := candidate, Some(snapshot), revision + 1;
      r := Ok(snapshot);
    }

    method Refresh(at: int, risks: seq<Assessment>, priorities: seq<Assessment>) returns (r: Result<Snapshot, Error>)
      requires Valid()
      requires (forall a :: a in risks ==> a.Risk?) && (forall a :: a in priorities ==> a.Priority?)
      modifies this
      ensures Valid()
      ensures match Refreshed(old(State()), at, risks + priorities)
              case Ok(q) => State() == q && r.Ok? && lastSnapshot == Some(r.value)
              case Err(e) => r == Err(e) && State() == old(State()) && lastSnapshot == old(lastSnapshot)
    {
      if lastSnapshot.Some? && at < lastSnapshot.value.generatedAt {
        return Err(TimeRunsBackwards);
      }
      if !EvaluatedAt(risks + priorities, at) {
        return Err(NotEvaluatedNow);
      }
      if !AssessmentIdsUnique(risks + priorities) {
        return Err(DuplicateAssessmentId);
      }
      SubjectsByKind(risks, priorities);
      if !UniqueSubjects(risks) || !UniqueSubjects(priorities) {
        return Err(DuplicateSubject);
      }
      SortedBatches(risks, priorities);
      BatchesRefine(State(), at, risks + priorities, Sort(risks, SubjectLeq), Sort(priorities, SubjectLeq));
      var first := ApplyBatch(items, Sort(risks, SubjectLeq));
      var second := ApplyBatch(first.value, Sort(priorities, SubjectLeq));
      r := Commit(second.value, at);
    }

    method Acknowledge(id: string, at: int) returns (r: Result<Snapshot, Error>)
      requires Valid()
      modifies this
      ensures Valid()
      ensures match ExceptionQueue.Acknowledge(old(State()), id, at)
              case Ok(q) => State() == q && r.Ok? && lastSnapshot == Some(r.value)
              case Err(e) => r == Err(e) && State() == old(State()) && lastSnapshot == old(lastSnapshot)
    {
      if lastSnapshot.Some? && at < lastSnapshot.value.generatedAt {
        return Err(TimeRunsBackwards);
      }
      if id !in items {
        return Err(UnknownId);
      }
      var item := items[id];
      if item.status == Resolved {
        return Err(AlreadyResolved);
      }
      AcknowledgedIsLegal(State(), id, at);
      if item.status == Status.Acknowledged {
        assert items[id := AcknowledgedItem(item, at)] == items;
        r := Commit(items, at);
      } else {
        AcknowledgeKeeps(State(), id, at);
        r := Commit(items[id := AcknowledgedItem(item, at)], at);
      }
    }

    method Reset()
      requires Valid()
      modifies this
      ensures Valid() && State() == EMPTY && lastSnapshot == None
    {
      items, lastSnapshot, revision := map[], None, 0;
    }
  }
}
