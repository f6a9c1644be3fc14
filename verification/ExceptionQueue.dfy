/** The exception queue: what refreshing, acknowledging and resetting do to the items, as
    functions on the state of the service. */
module ExceptionQueue {
  import opened Options
  import opened Ordering

  datatype RiskLevel = LowRisk | MediumRisk | HighRisk | CriticalRisk
  datatype PriorityLevel = Routine | Attention | Urgent | Emergency

  /** An evaluated source: the risk of an aircraft pair or the priority of one aircraft. */
  datatype Assessment =
    | Risk(assessmentId: string, first: string, second: string, riskLevel: RiskLevel, score: real, tcpa: real,
        evaluatedAt: int)
    | Priority(assessmentId: string, aircraft: string, priorityLevel: PriorityLevel, score: real, evaluatedAt: int)

  datatype Status = Open | Acknowledged | Resolved

  datatype Item = Item(id: string, source: Assessment, openedAt: int, updatedAt: int, status: Status)

  type Items = map<string, Item>

  datatype Queue = Queue(items: Items, lastAt: Option<int>, revision: nat)

  const EMPTY: Queue := Queue(map[], None, 0)

  // ---------------------------------------------------------------- stable identifiers

  function Digit(d: nat): char
    requires d < 10
  {
    "0123456789"[d]
  }

  function Decimal(n: nat): (s: string)
    ensures s != [] && '-' !in s && (n < 10 <==> |s| == 1)
  {
    if n < 10 then [Digit(n)] else Decimal(n / 10) + [Digit(n % 10)]
  }

  /** The identifiers of the source. */
  function IdOf(a: Assessment): string {
    match a
    case Risk(_, first, second, _, _, _, _) =>
      "EXCEPTION-CONFLICT-" + (Decimal(|first|) + ("-" + (first + ("-" + (Decimal(|second|) + ("-" + second))))))
    case Priority(_, aircraft, _, _, _) => "EXCEPTION-PRIORITY-" + aircraft
  }

  predicate SameSubject(a: Assessment, b: Assessment) {
    match (a, b)
    case (Risk(_, f, s, _, _, _, _), Risk(_, f', s', _, _, _, _)) => f == f' && s == s'
    case (Priority(_, x, _, _, _), Priority(_, y, _, _, _)) => x == y
    case _ => false
  }

  lemma {:induction false} DecimalInjective(m: nat, n: nat)
    requires Decimal(m) == Decimal(n)
    ensures m == n
  {
    var s := Decimal(m);
    assert s[|s| - 1] == Digit(m % 10) == Digit(n % 10);
    assert m % 10 == n % 10;
    if m >= 10 && n >= 10 {
      assert s[..|s| - 1] == Decimal(m / 10) == Decimal(n / 10);
      DecimalInjective(m / 10, n / 10);
    }
  }

  lemma SplitAtDash(a: string, b: string, x: string, y: string)
    requires '-' !in a && '-' !in b && a + ("-" + x) == b + ("-" + y)
    ensures a == b && x == y
  {
    var s := a + ("-" + x);
    assert s[|a|] == '-' && s[|b|] == '-';
    assert forall i :: 0 <= i < |b| ==> s[i] == b[i];
    assert forall i :: 0 <= i < |a| ==> s[i] == a[i];
    assert s[..|a|] == a && s[..|b|] == b;
    assert s[|a| + 1..] == x && s[|b| + 1..] == y;
  }

  lemma SamePrefix(p: string, x: string, y: string)
    requires p + x == p + y
    ensures x == y
  {
    assert (p + x)[|p|..] == x && (p + y)[|p|..] == y;
  }

  lemma SplitAtLength(a: string, b: string, x: string, y: string)
    requires |a| == |b| && a + x == b + y
    ensures a == b && x == y
  {
    assert (a + x)[..|a|] == a && (b + y)[..|b|] == b;
    assert (a + x)[|a|..] == x && (b + y)[|b|..] == y;
  }

  lemma KindLetter(a: Assessment)
    ensures |IdOf(a)| > 10 && IdOf(a)[10] == if a.Risk? then 'C' else 'P'
  {
  }

  /** Length prefixes make the identifiers injective: two sources share one only if they are
      about the same aircraft or the same pair. Kinds cannot collide, whatever the aircraft
      are called. */
  lemma IdsAreInjective(a: Assessment, b: Assessment)
    requires IdOf(a) == IdOf(b)
    ensures SameSubject(a, b)
  {
    KindLetter(a);
    KindLetter(b);
    match (a, b)
    case (Risk(_, f, s, _, _, _, _), Risk(_, f', s', _, _, _, _)) =>
      var rest, rest' := f + ("-" + (Decimal(|s|) + ("-" + s))), f' + ("-" + (Decimal(|s'|) + ("-" + s')));
      SamePrefix("EXCEPTION-CONFLICT-", Decimal(|f|) + ("-" + rest), Decimal(|f'|) + ("-" + rest'));
      SplitAtDash(Decimal(|f|), Decimal(|f'|), rest, rest');
      DecimalInjective(|f|, |f'|);
      SplitAtLength(f, f', "-" + (Decimal(|s|) + ("-" + s)), "-" + (Decimal(|s'|) + ("-" + s')));
      SplitAtDash([], [], Decimal(|s|) + ("-" + s), Decimal(|s'|) + ("-" + s'));
      SplitAtDash(Decimal(|s|), Decimal(|s'|), s, s');
    case (Priority(_, x, _, _, _), Priority(_, y, _, _, _)) =>
      SamePrefix("EXCEPTION-PRIORITY-", x, y);
    case _ =>
  }

  // ---------------------------------------------------------------- one item

  datatype Error =
    | TimeRunsBackwards | NotEvaluatedNow | DuplicateAssessmentId | DuplicateSubject
    | KindCollision | BadItemTimes | DuplicateSourceId | UnknownId | AlreadyResolved

  predicate Active(a: Assessment) {
    match a
    case Risk(_, _, _, level, _, _, _) => level != LowRisk
    case Priority(_, _, level, _, _) => level != Routine
  }

  predicate GoodTimes(i: Item) {
    i.openedAt <= i.source.evaluatedAt <= i.updatedAt
  }

  /** The checks of the item's constructor. */
  function MakeItem(id: string, source: Assessment, openedAt: int, updatedAt: int,
                    status: Status): Result<Item, Error> {
    var i := Item(id, source, openedAt, updatedAt, status);
    if GoodTimes(i) then Ok(i) else Err(BadItemTimes)
  }

  /** The item of one source after a new assessment; `Ok(None)` if there is still none. */
  function Updated(id: string, a: Assessment, existing: Option<Item>): Result<Option<Item>, Error> {
    if existing.Some? && existing.value.source.Risk? != a.Risk? then Err(KindCollision)
    else if !Active(a) && existing == None then Ok(None)
    else
      var reopened := existing == None || existing.value.status == Resolved;
      var made :=
        if !Active(a) then MakeItem(id, a, existing.value.openedAt, a.evaluatedAt, Resolved)
        else MakeItem(id, a, if reopened then a.evaluatedAt else existing.value.openedAt, a.evaluatedAt,
                      if reopened then Open else existing.value.status);
      match made
      case Ok(i) => Ok(Some(i))
      case Err(e) => Err(e)
  }

  function Lookup(items: Items, id: string): Option<Item> {
    if id in items then Some(items[id]) else None
  }

  /** The legal life of one subject's item. It appears open; an open one may be acknowledged;
      either may be resolved; a resolved one may open again, with a new opening time; nothing
      else happens, and in particular no resolved item becomes acknowledged and none vanishes. */
  predicate LegalMove(before: Option<Item>, after: Option<Item>) {
    match (before, after)
    case (None, None) => true
    case (None, Some(n)) => n.status == Open && n.openedAt == n.source.evaluatedAt
    case (Some(_), None) => false
    case (Some(o), Some(n)) =>
      && n.id == o.id && SameSubject(o.source, n.source) && o.updatedAt <= n.updatedAt
      && (match (o.status, n.status)
          case (Open, _) => n.openedAt == o.openedAt
          case (Acknowledged, Acknowledged) => n.openedAt == o.openedAt
          case (Acknowledged, Resolved) => n.openedAt == o.openedAt
          case (Acknowledged, Open) => false
          case (Resolved, Resolved) => n.openedAt == o.openedAt
          case (Resolved, Open) => n.openedAt == n.source.evaluatedAt
          case (Resolved, Acknowledged) => false)
  }

  // ---------------------------------------------------------------- the state invariant

  ghost predicate ItemOk(id: string, i: Item, now: int) {
    i.id == id && IdOf(i.source) == id && i.openedAt <= i.source.evaluatedAt <= i.updatedAt <= now
  }

  predicate SourceIdsUnique(items: Items) {
    forall x, y :: x in items && y in items && x != y ==> items[x].source.assessmentId != items[y].source.assessmentId
  }

  /** opened <= evaluated <= updated <= generated for every item, identifiers as built from the
      subject, assessments used once. */
  ghost predicate Inv(q: Queue) {
    && (q.items != map[] ==> q.lastAt.Some?)
    && (forall id :: id in q.items ==> ItemOk(id, q.items[id], q.lastAt.value))
    && SourceIdsUnique(q.items)
  }

  // ---------------------------------------------------------------- applying assessments

  /** An assessment with the identifier of its subject. */
  datatype Keyed = Keyed(id: string, source: Assessment)

  function Key(a: Assessment): Keyed {
    Keyed(IdOf(a), a)
  }

  function Put(items: Items, id: string, item: Option<Item>): Items {
    if item.Some? then items[id := item.value] else items
  }

  /** The loop of the refresh, up to the n-th source. */
  function Apply(items: Items, sources: seq<Keyed>, n: nat): Result<Items, Error>
    requires n <= |sources|
  {
    if n == 0 then Ok(items)
    else match Apply(items, sources, n - 1)
      case Err(e) => Err(e)
      case Ok(m) =>
        var k := sources[n - 1];
        match Updated(k.id, k.source, Lookup(m, k.id))
        case Err(e) => Err(e)
        case Ok(item) => Ok(Put(m, k.id, item))
  }

  predicate IdsUnique(sources: seq<Keyed>) {
    forall i, j :: 0 <= i < j < |sources| ==> sources[i].id != sources[j].id
  }

  /** One source's update succeeds, is a legal move, and is absent only if nothing is active. */
  ghost predicate Succeeds(items: Items, k: Keyed, now: int) {
    var existing := Lookup(items, k.id);
    var u := Updated(k.id, k.source, existing);
    && u.Ok? && LegalMove(existing, u.value)
    && (u.value.Some? ==> ItemOk(k.id, u.value.value, now) && u.value.value.source == k.source)
    && (u.value == None <==> existing == None && !Active(k.source))
  }

  /** With the invariant no update can fail: kinds do not collide and times are in order. */
  lemma UpdateSucceeds(q: Queue, a: Assessment)
    requires Inv(q) && (q.lastAt.Some? ==> q.lastAt.value <= a.evaluatedAt)
    ensures Succeeds(q.items, Key(a), a.evaluatedAt)
  {
    var id := IdOf(a);
    if id in q.items {
      assert ItemOk(id, q.items[id], q.lastAt.value);
      IdsAreInjective(q.items[id].source, a);
    }
  }

  /** The result for one identifier: its own update if it is among the first n sources, the
      old item otherwise. */
  ghost predicate Pointwise(items: Items, sources: seq<Keyed>, n: nat, result: Items, id: string)
    requires n <= |sources|
  {
    && (forall k :: 0 <= k < n && sources[k].id == id ==>
          Updated(id, sources[k].source, Lookup(items, id)) == Ok(Lookup(result, id)))
    && ((forall k :: 0 <= k < n ==> sources[k].id != id) ==> Lookup(result, id) == Lookup(items, id))
  }

  lemma PutLookup(items: Items, id: string, item: Option<Item>, x: string)
    requires item == None ==> id !in items
    ensures Lookup(Put(items, id, item), x) == if x == id then item else Lookup(items, x)
  {
  }

  /** The refresh never fails half-way, and each subject's item is the update of its own old
      item by its own assessment; the other items are unchanged. */
  lemma {:induction false} ApplyPointwise(items: Items, sources: seq<Keyed>, now: int, n: nat)
    requires IdsUnique(sources) && n <= |sources| && forall k :: 0 <= k < n ==> Succeeds(items, sources[k], now)
    ensures Apply(items, sources, n).Ok?
    ensures forall id :: Pointwise(items, sources, n, Apply(items, sources, n).value, id)
  {
    if n == 0 {
    } else {
      ApplyPointwise(items, sources, now, n - 1);
      var m := Apply(items, sources, n - 1).value;
      var k := sources[n - 1];
      assert Pointwise(items, sources, n - 1, m, k.id);
      assert Succeeds(items, k, now);
      var u := Updated(k.id, k.source, Lookup(m, k.id)).value;
      forall id ensures Pointwise(items, sources, n, Put(m, k.id, u), id) {
        assert Pointwise(items, sources, n - 1, m, id);
        PutLookup(m, k.id, u, id);
      }
    }
  }

  // ---------------------------------------------------------------- the operations

  function Keys(sources: seq<Assessment>): (k: seq<Keyed>)
    ensures |k| == |sources|
  {
    seq(|sources|, i requires 0 <= i < |sources| => Key(sources[i]))
  }

  predicate AssessmentIdsUnique(sources: seq<Assessment>) {
    forall i, j :: 0 <= i < j < |sources| ==> sources[i].assessmentId != sources[j].assessmentId
  }

  predicate EvaluatedAt(sources: seq<Assessment>, at: int) {
    forall a :: a in sources ==> a.evaluatedAt == at
  }

  predicate InTime(q: Queue, at: int) {
    q.lastAt.Some? ==> q.lastAt.value <= at
  }

  /** The snapshot's own checks, then the commit. */
  function Publish(q: Queue, items: Items, at: int): Result<Queue, Error> {
    if !SourceIdsUnique(items) then Err(DuplicateSourceId)
    else if exists id :: id in items && items[id].updatedAt > at then Err(BadItemTimes)
    else Ok(Queue(items, Some(at), q.revision + 1))
  }

  function Refreshed(q: Queue, at: int, sources: seq<Assessment>): Result<Queue, Error> {
    if !InTime(q, at) then Err(TimeRunsBackwards)
    else if !EvaluatedAt(sources, at) then Err(NotEvaluatedNow)
    else if !AssessmentIdsUnique(sources) then Err(DuplicateAssessmentId)
    else if !IdsUnique(Keys(sources)) then Err(DuplicateSubject)
    else match Apply(q.items, Keys(sources), |sources|)
      case Err(e) => Err(e)
      case Ok(items) => Publish(q, items, at)
  }

  function Acknowledge(q: Queue, id: string, at: int): Result<Queue, Error> {
    if !InTime(q, at) then Err(TimeRunsBackwards)
    else if id !in q.items then Err(UnknownId)
    else
      var item := q.items[id];
      if item.status == Resolved then Err(AlreadyResolved)
      else if item.status == Acknowledged then Publish(q, q.items, at)
      else match MakeItem(id, item.source, item.openedAt, at, Status.Acknowledged)
        case Err(e) => Err(e)
        case Ok(i) => Publish(q, q.items[id := i], at)
  }

  /** Unique subjects are unique identifiers, and the other way round. */
  lemma SubjectsAreIds(sources: seq<Assessment>)
    ensures IdsUnique(Keys(sources)) <==> forall i, j :: 0 <= i < j < |sources| ==> !SameSubject(sources[i], sources[j])
  {
    forall i, j | 0 <= i < j < |sources|
      ensures Keys(sources)[i].id == Keys(sources)[j].id <==> SameSubject(sources[i], sources[j])
    {
      if IdOf(sources[i]) == IdOf(sources[j]) {
        IdsAreInjective(sources[i], sources[j]);
      }
    }
  }

  /** Conditions a caller can check for a refresh to go through. */
  ghost predicate Acceptable(q: Queue, at: int, sources: seq<Assessment>) {
    && InTime(q, at) && EvaluatedAt(sources, at) && AssessmentIdsUnique(sources) && IdsUnique(Keys(sources))
  }

  lemma SourcesSucceed(q: Queue, at: int, sources: seq<Assessment>)
    requires Inv(q) && InTime(q, at) && EvaluatedAt(sources, at)
    ensures forall k :: 0 <= k < |sources| ==> Succeeds(q.items, Keys(sources)[k], at)
  {
    forall k | 0 <= k < |sources| ensures Succeeds(q.items, Keys(sources)[k], at) {
      UpdateSucceeds(q, sources[k]);
    }
  }

  /** Some source of the refresh is about this identifier. */
  ghost predicate Mentioned(sources: seq<Keyed>, id: string) {
    exists k :: 0 <= k < |sources| && sources[k].id == id
  }

  lemma OneItemAfter(q: Queue, sources: seq<Keyed>, at: int, items: Items, id: string)
    requires Inv(q) && InTime(q, at) && Pointwise(q.items, sources, |sources|, items, id)
    requires forall k :: 0 <= k < |sources| ==> Succeeds(q.items, sources[k], at)
    ensures LegalMove(Lookup(q.items, id), Lookup(items, id))
    ensures !Mentioned(sources, id) ==> Lookup(items, id) == Lookup(q.items, id)
    ensures id in items ==> ItemOk(id, items[id], at)
  {
    if k :| 0 <= k < |sources| && sources[k].id == id {
      assert Succeeds(q.items, sources[k], at);
    } else if id in q.items {
      assert ItemOk(id, q.items[id], q.lastAt.value);
    }
  }

  /** Worth a controller's attention, level by level. */
  ghost predicate WorthShowing(a: Assessment) {
    match a
    case Risk(_, _, _, level, _, _, _) => level == MediumRisk || level == HighRisk || level == CriticalRisk
    case Priority(_, _, level, _, _) => level == Attention || level == Urgent || level == Emergency
  }

  /** What a refresh makes of the item of an assessed subject. A subject worth showing has an item
      with the new assessment that is open, or still acknowledged since its opening. A LOW risk and
      a ROUTINE priority have none, or a resolved one with its old opening time. */
  ghost predicate Assessed(before: Option<Item>, a: Assessment, at: int, after: Option<Item>) {
    && (WorthShowing(a) ==> (
          && after.Some? && after.value.source == a && after.value.updatedAt == at
          && (before == None || before.value.status == Resolved ==>
                after.value.status == Open && after.value.openedAt == at)
          && (before.Some? && before.value.status == Open ==>
                after.value.status == Open && after.value.openedAt == before.value.openedAt)
          && (before.Some? && before.value.status == Acknowledged ==>
                after.value.status == Acknowledged && after.value.openedAt == before.value.openedAt)))
    && (!WorthShowing(a) ==> (
          && (before == None ==> after == None)
          && (before.Some? ==> (
                && after.Some? && after.value.source == a && after.value.updatedAt == at
                && after.value.status == Resolved && after.value.openedAt == before.value.openedAt))))
  }

  lemma AssessedAfter(q: Queue, sources: seq<Keyed>, at: int, items: Items, k: nat)
    requires k < |sources| && Pointwise(q.items, sources, |sources|, items, sources[k].id) &&
             sources[k].source.evaluatedAt == at
    ensures Assessed(Lookup(q.items, sources[k].id), sources[k].source, at, Lookup(items, sources[k].id))
  {
  }

  lemma AllAssessed(q: Queue, at: int, sources: seq<Assessment>)
    requires Inv(q) && Acceptable(q, at, sources)
    ensures Apply(q.items, Keys(sources), |sources|).Ok?
    ensures var items := Apply(q.items, Keys(sources), |sources|).value;
            forall k :: 0 <= k < |sources| ==>
                Assessed(Lookup(q.items, IdOf(sources[k])), sources[k], at, Lookup(items, IdOf(sources[k])))
  {
    SourcesSucceed(q, at, sources);
    ApplyPointwise(q.items, Keys(sources), at, |sources|);
    var items := Apply(q.items, Keys(sources), |sources|).value;
    forall k | 0 <= k < |sources|
      ensures Assessed(Lookup(q.items, IdOf(sources[k])), sources[k], at, Lookup(items, IdOf(sources[k])))
    {
      assert Keys(sources)[k] == Key(sources[k]) && sources[k] in sources;
      assert Pointwise(q.items, Keys(sources), |sources|, items, Keys(sources)[k].id);
      AssessedAfter(q, Keys(sources), at, items, k);
    }
  }

  /** A refresh keeps the invariant and moves every subject legally; subjects that are not
      mentioned keep their item. It fails only for the reasons a caller can see: time running
      backwards, an assessment of another time, a repeated identifier or subject, or an
      assessment identifier still used by a kept item. Kind collisions and bad item times
      cannot happen. */
  lemma RefreshKeeps(q: Queue, at: int, sources: seq<Assessment>)
    requires Inv(q)
    ensures var r := Refreshed(q, at, sources);
            && (r.Ok? ==> (
                  && Acceptable(q, at, sources) && Inv(r.value)
                  && r.value.lastAt == Some(at) && r.value.revision == q.revision + 1
                  && (forall id :: LegalMove(Lookup(q.items, id), Lookup(r.value.items, id)))
                  && (forall id :: !Mentioned(Keys(sources), id) ==> Lookup(r.value.items, id) == Lookup(q.items, id))))
            && (r.Err? && Acceptable(q, at, sources) ==> r.error == DuplicateSourceId)
  {
    if Acceptable(q, at, sources) {
      var keys := Keys(sources);
      SourcesSucceed(q, at, sources);
      assert forall k :: 0 <= k < |keys| ==> Succeeds(q.items, keys[k], at);
      ApplyPointwise(q.items, keys, at, |keys|);
      var items := Apply(q.items, keys, |keys|).value;
      forall id
        ensures LegalMove(Lookup(q.items, id), Lookup(items, id))
        ensures !Mentioned(keys, id) ==> Lookup(items, id) == Lookup(q.items, id)
        ensures id in items ==> ItemOk(id, items[id], at)
      {
        assert Pointwise(q.items, keys, |keys|, items, id);
        OneItemAfter(q, keys, at, items, id);
      }
      PublishKeeps(q, items, at);
    }
  }

  lemma PublishKeeps(q: Queue, items: Items, at: int)
    requires forall id :: id in items ==> ItemOk(id, items[id], at)
    ensures Publish(q, items, at).Ok? <==> SourceIdsUnique(items)
    ensures Publish(q, items, at).Err? ==> Publish(q, items, at).error == DuplicateSourceId
    ensures Publish(q, items, at).Ok? ==>
            Publish(q, items, at).value == Queue(items, Some(at), q.revision + 1) && Inv(Publish(q, items, at).value)
  {
    forall id | id in items ensures items[id].updatedAt <= at {
      assert ItemOk(id, items[id], at);
    }
  }

  /** Each assessed subject gets the item its assessment calls for, however many are refreshed. */
  lemma RefreshAssesses(q: Queue, at: int, sources: seq<Assessment>)
    requires Inv(q) && Refreshed(q, at, sources).Ok?
    ensures var items := Refreshed(q, at, sources).value.items;
            forall k :: 0 <= k < |sources| ==>
                Assessed(Lookup(q.items, IdOf(sources[k])), sources[k], at, Lookup(items, IdOf(sources[k])))
  {
    AllAssessed(q, at, sources);
  }

  /** Somebody needs a controller after a refresh exactly if the assessment is worth showing; what
      is not worth showing is never left open. */
  lemma ShownIff(q: Queue, at: int, sources: seq<Assessment>, k: nat)
    requires Inv(q) && Refreshed(q, at, sources).Ok? && k < |sources|
    ensures var items, id, a := Refreshed(q, at, sources).value.items, IdOf(sources[k]), sources[k];
            && (id in items && (items[id].status == Open || items[id].status == Acknowledged) <==>
                  || (a.Risk? && a.riskLevel in {MediumRisk, HighRisk, CriticalRisk})
                  || (a.Priority? && a.priorityLevel in {Attention, Urgent, Emergency}))
            && (id in items <==> id in q.items || (a.Risk? && a.riskLevel != LowRisk)
                                 || (a.Priority? && a.priorityLevel != Routine))
  {
    RefreshAssesses(q, at, sources);
  }

  /** An item this refresh keeps, and an item it makes, share the assessment's identifier. */
  ghost predicate Clashes(q: Queue, sources: seq<Assessment>, id: string, k: nat) {
    && id in q.items && k < |sources| && (forall j :: 0 <= j < |sources| ==> IdOf(sources[j]) != id)
    && q.items[id].source.assessmentId == sources[k].assessmentId
    && (WorthShowing(sources[k]) || IdOf(sources[k]) in q.items)
  }

  /** Two assessments of one refresh are about the same aircraft, or the same pair. */
  ghost predicate SubjectTwice(sources: seq<Assessment>, i: nat, j: nat) {
    && i < j < |sources|
    && ((sources[i].Priority? && sources[j].Priority? && sources[i].aircraft == sources[j].aircraft)
        || (sources[i].Risk? && sources[j].Risk?
            && sources[i].first == sources[j].first && sources[i].second == sources[j].second))
  }

  ghost predicate IdTwice(sources: seq<Assessment>, i: nat, j: nat) {
    i < j < |sources| && sources[i].assessmentId == sources[j].assessmentId
  }

  /** Why a refresh fails, if it does, in the order of the checks. */
  ghost function Refusal(q: Queue, at: int, sources: seq<Assessment>): Option<Error> {
    if q.lastAt.Some? && at < q.lastAt.value then Some(TimeRunsBackwards)
    else if exists a :: a in sources && a.evaluatedAt != at then Some(NotEvaluatedNow)
    else if exists i, j :: IdTwice(sources, i, j) then Some(DuplicateAssessmentId)
    else if exists i, j :: SubjectTwice(sources, i, j) then Some(DuplicateSubject)
    else if exists id, k :: Clashes(q, sources, id, k) then Some(DuplicateSourceId)
    else None
  }

  /** The item of this identifier is that of the k-th assessment. */
  ghost predicate MadeBy(q: Queue, sources: seq<Assessment>, item: Item, id: string, k: nat) {
    && k < |sources| && IdOf(sources[k]) == id && item.source == sources[k]
    && (WorthShowing(sources[k]) || id in q.items)
  }

  ghost predicate Kept(q: Queue, sources: seq<Assessment>, item: Item, id: string) {
    id in q.items && !Mentioned(Keys(sources), id) && item == q.items[id]
  }

  /** The items of a refresh are the kept ones and the assessed ones that are worth showing or were
      there before. */
  lemma ItemIsKeptOrAssessed(q: Queue, at: int, sources: seq<Assessment>, items: Items, id: string)
    requires Inv(q) && Acceptable(q, at, sources) && Apply(q.items, Keys(sources), |sources|) == Ok(items) &&
             id in items
    ensures Kept(q, sources, items[id], id) || exists k :: MadeBy(q, sources, items[id], id, k)
  {
    AllAssessed(q, at, sources);
    SourcesSucceed(q, at, sources);
    ApplyPointwise(q.items, Keys(sources), at, |sources|);
    assert Pointwise(q.items, Keys(sources), |sources|, items, id);
    KeptOrAssessed(q, at, sources, items, id);
  }

  lemma KeptOrAssessed(q: Queue, at: int, sources: seq<Assessment>, items: Items, id: string)
    requires Pointwise(q.items, Keys(sources), |sources|, items, id) && id in items
    requires forall k :: 0 <= k < |sources| ==>
               Assessed(Lookup(q.items, IdOf(sources[k])), sources[k], at, Lookup(items, IdOf(sources[k])))
    ensures Kept(q, sources, items[id], id) || exists k :: MadeBy(q, sources, items[id], id, k)
  {
    if k :| 0 <= k < |sources| && Keys(sources)[k].id == id {
      assert IdOf(sources[k]) == id;
      assert Assessed(Lookup(q.items, id), sources[k], at, Lookup(items, id));
      assert MadeBy(q, sources, items[id], id, k);
    }
  }

  lemma ClashIsDuplicate(q: Queue, at: int, sources: seq<Assessment>, items: Items, id: string, k: nat)
    requires Inv(q) && Acceptable(q, at, sources) && Apply(q.items, Keys(sources), |sources|) == Ok(items)
    requires Clashes(q, sources, id, k)
    ensures !SourceIdsUnique(items)
  {
    AllAssessed(q, at, sources);
    SourcesSucceed(q, at, sources);
    ApplyPointwise(q.items, Keys(sources), at, |sources|);
    assert Pointwise(q.items, Keys(sources), |sources|, items, id);
    assert Assessed(Lookup(q.items, IdOf(sources[k])), sources[k], at, Lookup(items, IdOf(sources[k])));
    assert items[id] == q.items[id] && IdOf(sources[k]) in items && IdOf(sources[k]) != id;
    assert items[IdOf(sources[k])].source.assessmentId == items[id].source.assessmentId;
  }

  lemma DuplicateIsClash(q: Queue, at: int, sources: seq<Assessment>, items: Items)
    requires Inv(q) && Acceptable(q, at, sources) && Apply(q.items, Keys(sources), |sources|) == Ok(items)
    requires !SourceIdsUnique(items)
    ensures exists id, k :: Clashes(q, sources, id, k)
  {
    var x, y :| x in items && y in items && x != y && items[x].source.assessmentId == items[y].source.assessmentId;
    ItemIsKeptOrAssessed(q, at, sources, items, x);
    ItemIsKeptOrAssessed(q, at, sources, items, y);
    OriginsClash(q, sources, x, y, items[x], items[y]);
  }

  lemma OriginsClash(q: Queue, sources: seq<Assessment>, x: string, y: string, i: Item, j: Item)
    requires Kept(q, sources, i, x) || exists k :: MadeBy(q, sources, i, x, k)
    requires Kept(q, sources, j, y) || exists k :: MadeBy(q, sources, j, y, k)
    requires x != y && i.source.assessmentId == j.source.assessmentId
    requires SourceIdsUnique(q.items) && AssessmentIdsUnique(sources)
    ensures exists id, k :: Clashes(q, sources, id, k)
  {
    if k :| MadeBy(q, sources, i, x, k) {
      if m :| MadeBy(q, sources, j, y, m) {
        OneAssessment(sources, k, m);
      } else {
        KeptClashes(q, sources, y, k);
      }
    } else {
      if m :| MadeBy(q, sources, j, y, m) {
        KeptClashes(q, sources, x, m);
      }
    }
  }

  lemma OneAssessment(sources: seq<Assessment>, k: nat, m: nat)
    requires k < |sources| && m < |sources| && AssessmentIdsUnique(sources)
    requires sources[k].assessmentId == sources[m].assessmentId
    ensures k == m
  {
  }

  lemma KeptClashes(q: Queue, sources: seq<Assessment>, id: string, k: nat)
    requires id in q.items && !Mentioned(Keys(sources), id) && k < |sources|
    requires q.items[id].source.assessmentId == sources[k].assessmentId
    requires WorthShowing(sources[k]) || IdOf(sources[k]) in q.items
    ensures Clashes(q, sources, id, k)
  {
    forall j | 0 <= j < |sources| ensures IdOf(sources[j]) != id {
      assert Keys(sources)[j].id == IdOf(sources[j]);
    }
  }

  /** Why a refresh is refused before it is applied. */
  lemma ChecksAre(q: Queue, at: int, sources: seq<Assessment>)
    ensures InTime(q, at) <==> !(q.lastAt.Some? && at < q.lastAt.value)
    ensures EvaluatedAt(sources, at) <==> !exists a :: a in sources && a.evaluatedAt != at
    ensures AssessmentIdsUnique(sources) <==> !exists i, j :: IdTwice(sources, i, j)
  {
    if !AssessmentIdsUnique(sources) {
      var i, j :| 0 <= i < j < |sources| && sources[i].assessmentId == sources[j].assessmentId;
      assert IdTwice(sources, i, j);
    }
  }

  lemma SubjectChecksAre(sources: seq<Assessment>)
    ensures IdsUnique(Keys(sources)) <==> !exists i, j :: SubjectTwice(sources, i, j)
  {
    SubjectsAreIds(sources);
    if !IdsUnique(Keys(sources)) {
      var i, j :| 0 <= i < j < |sources| && SameSubject(sources[i], sources[j]);
      assert SubjectTwice(sources, i, j);
    } else if i: nat, j: nat :| SubjectTwice(sources, i, j) {
      assert SameSubject(sources[i], sources[j]);
    }
  }

  lemma ClashIff(q: Queue, at: int, sources: seq<Assessment>)
    requires Inv(q) && Acceptable(q, at, sources)
    ensures Refreshed(q, at, sources).Err? <==> exists id, k :: Clashes(q, sources, id, k)
    ensures Refreshed(q, at, sources).Err? ==> Refreshed(q, at, sources).error == DuplicateSourceId
  {
    RefreshKeeps(q, at, sources);
    AllAssessed(q, at, sources);
    var items := Apply(q.items, Keys(sources), |sources|).value;
    if id: string, k: nat :| Clashes(q, sources, id, k) {
      ClashIsDuplicate(q, at, sources, items, id, k);
    } else if !SourceIdsUnique(items) {
      DuplicateIsClash(q, at, sources, items);
    }
  }

  /** A refresh fails for exactly these reasons, and for the first of them. */
  lemma RefusedIff(q: Queue, at: int, sources: seq<Assessment>)
    requires Inv(q)
    ensures Refusal(q, at, sources) == match Refreshed(q, at, sources) case Ok(_) => None case Err(e) => Some(e)
  {
    ChecksAre(q, at, sources);
    SubjectChecksAre(sources);
    if Acceptable(q, at, sources) {
      ClashIff(q, at, sources);
    }
  }

  function AcknowledgedItem(item: Item, at: int): Item {
    item.(status := Status.Acknowledged, updatedAt := if item.status == Open then at else item.updatedAt)
  }

  lemma AcknowledgedIsLegal(q: Queue, id: string, at: int)
    requires Inv(q) && InTime(q, at) && id in q.items && q.items[id].status != Resolved
    ensures var items := q.items[id := AcknowledgedItem(q.items[id], at)];
            && (forall x :: x in items ==> ItemOk(x, items[x], at))
            && (forall x :: LegalMove(Lookup(q.items, x), Lookup(items, x)))
            && SourceIdsUnique(items)
  {
    var items := q.items[id := AcknowledgedItem(q.items[id], at)];
    forall x | x in q.items
      ensures ItemOk(x, items[x], at) && LegalMove(Some(q.items[x]), Some(items[x])) &&
              items[x].source == q.items[x].source
    {
      AcknowledgedOne(q.items[x], x, q.lastAt.value, at);
    }
  }

  lemma AcknowledgedOne(i: Item, id: string, last: int, at: int)
    requires ItemOk(id, i, last) && last <= at
    ensures ItemOk(id, i, at) && LegalMove(Some(i), Some(i))
    ensures i.status != Resolved ==>
            ItemOk(id, AcknowledgedItem(i, at), at) && LegalMove(Some(i), Some(AcknowledgedItem(i, at)))
  {
  }

  /** Acknowledging fails exactly when time runs backwards, the item is unknown or it is
      resolved; otherwise only that item's status and update time change. */
  lemma AcknowledgeKeeps(q: Queue, id: string, at: int)
    requires Inv(q)
    ensures var r := Acknowledge(q, id, at);
            && (r.Ok? <==>
                  (q.lastAt == None || q.lastAt.value <= at) && id in q.items &&
                  (q.items[id].status == Open || q.items[id].status == Status.Acknowledged))
            && (r.Err? ==>
                  r.error == (if q.lastAt.Some? && at < q.lastAt.value then TimeRunsBackwards
                              else if id in q.items then AlreadyResolved else UnknownId))
            && (r.Ok? ==> (
                  && Inv(r.value) && r.value.lastAt == Some(at) && r.value.revision == q.revision + 1
                  && r.value.items == q.items[id := AcknowledgedItem(q.items[id], at)]
                  && forall x :: LegalMove(Lookup(q.items, x), Lookup(r.value.items, x))))
  {
    if InTime(q, at) && id in q.items && q.items[id].status != Resolved {
      AcknowledgedIsLegal(q, id, at);
      var items := q.items[id := AcknowledgedItem(q.items[id], at)];
      assert q.items[id].status == Status.Acknowledged ==> items == q.items;
      PublishKeeps(q, items, at);
    }
  }

  // ---------------------------------------------------------------- input order

  lemma KeyedOnce(sources: seq<Keyed>, a: seq<Assessment>, k: nat)
    requires k < |a| && sources == Keys(a)
    ensures sources[k] == Key(a[k])
  {
  }

  /** One subject gets the same item from two rearrangements of the same sources. */
  lemma SameItem(items: Items, a: seq<Assessment>, b: seq<Assessment>, m: Items, n: Items, id: string)
    requires forall x :: x in a ==> x in b
    requires forall x :: x in b ==> x in a
    requires Pointwise(items, Keys(a), |a|, m, id) && Pointwise(items, Keys(b), |b|, n, id)
    ensures Lookup(m, id) == Lookup(n, id)
  {
    if k :| 0 <= k < |a| && Keys(a)[k].id == id {
      KeyedOnce(Keys(a), a, k);
      assert a[k] in b;
      var j :| 0 <= j < |b| && b[j] == a[k];
      KeyedOnce(Keys(b), b, j);
    } else {
      forall j | 0 <= j < |b| ensures Keys(b)[j].id != id {
        assert b[j] in a;
        var k :| 0 <= k < |a| && a[k] == b[j];
        KeyedOnce(Keys(a), a, k);
        KeyedOnce(Keys(b), b, j);
      }
    }
  }

  lemma SameAcceptance(q: Queue, at: int, a: seq<Assessment>, b: seq<Assessment>)
    requires multiset(a) == multiset(b)
    ensures EvaluatedAt(a, at) ==> EvaluatedAt(b, at)
    ensures AssessmentIdsUnique(a) ==> AssessmentIdsUnique(b)
    ensures IdsUnique(Keys(a)) ==> IdsUnique(Keys(b))
  {
    forall x | x in b ensures x in a {
      assert x in multiset(a);
    }
    if AssessmentIdsUnique(a) {
      KeysDistinctPermuted(a, b, (x: Assessment) => x.assessmentId);
    }
    if IdsUnique(Keys(a)) {
      forall i, j | 0 <= i < j < |a| ensures IdOf(a[i]) != IdOf(a[j]) {
        assert Keys(a)[i].id != Keys(a)[j].id;
      }
      KeysDistinctPermuted(a, b, x => IdOf(x));
    }
  }

  lemma SameMaps(m: Items, n: Items)
    requires forall id :: Lookup(m, id) == Lookup(n, id)
    ensures m == n
  {
    forall id ensures id in m <==> id in n {
      assert Lookup(m, id) == Lookup(n, id);
    }
    forall id | id in m ensures m[id] == n[id] {
      assert Lookup(m, id) == Lookup(n, id);
    }
  }

  /** A refresh does not depend on the order its sources come in, whether it succeeds or fails. */
  lemma RefreshForgetsOrder(q: Queue, at: int, a: seq<Assessment>, b: seq<Assessment>)
    requires Inv(q) && multiset(a) == multiset(b)
    ensures Refreshed(q, at, a) == Refreshed(q, at, b)
  {
    SameAcceptance(q, at, a, b);
    SameAcceptance(q, at, b, a);
    assert |a| == |multiset(a)| == |multiset(b)| == |b|;
    if Acceptable(q, at, a) {
      SourcesSucceed(q, at, a);
      SourcesSucceed(q, at, b);
      ApplyPointwise(q.items, Keys(a), at, |a|);
      ApplyPointwise(q.items, Keys(b), at, |b|);
      var m, n := Apply(q.items, Keys(a), |a|).value, Apply(q.items, Keys(b), |b|).value;
      forall x ensures x in a <==> x in b {
        assert x in multiset(a) <==> x in multiset(b);
      }
      forall id ensures Lookup(m, id) == Lookup(n, id) {
        assert Pointwise(q.items, Keys(a), |a|, m, id) && Pointwise(q.items, Keys(b), |b|, n, id);
        SameItem(q.items, a, b, m, n, id);
      }
      SameMaps(m, n);
    }
  }

  // ---------------------------------------------------------------- runs

  datatype Command = DoRefresh(at: int, sources: seq<Assessment>) | DoAcknowledge(id: string, at: int) | DoReset

  /** A failing call changes nothing. */
  function Step(q: Queue, c: Command): Queue {
    match c
    case DoRefresh(at, sources) => (match Refreshed(q, at, sources) case Ok(r) => r case Err(_) => q)
    case DoAcknowledge(id, at) => (match Acknowledge(q, id, at) case Ok(r) => r case Err(_) => q)
    case DoReset => EMPTY
  }

  function Run(q: Queue, commands: seq<Command>): Queue {
    if commands == [] then q else Step(Run(q, commands[..|commands| - 1]), commands[|commands| - 1])
  }

  /** Over every run the invariant holds, the revision and the time never go back except by a
      reset, and each command moves each subject legally. */
  lemma {:induction false} RunKeeps(commands: seq<Command>)
    ensures Inv(Run(EMPTY, commands))
    ensures commands != [] && commands[|commands| - 1] != DoReset ==>
              var before, after := Run(EMPTY, commands[..|commands| - 1]), Run(EMPTY, commands);
              && (forall id :: LegalMove(Lookup(before.items, id), Lookup(after.items, id)))
              && before.revision <= after.revision <= before.revision + 1
              && (before.lastAt.Some? ==> after.lastAt.Some? && before.lastAt.value <= after.lastAt.value)
  {
    if commands == [] {
    } else {
      var before := Run(EMPTY, commands[..|commands| - 1]);
      RunKeeps(commands[..|commands| - 1]);
      match commands[|commands| - 1]
      case DoRefresh(at, sources) => RefreshKeeps(before, at, sources);
      case DoAcknowledge(id, at) => AcknowledgeKeeps(before, id, at);
      case DoReset =>
    }
  }
}
