/** The objects below the orchestrators: the simulation clock, and the services that notice a
    reset of the clock only when they are next used, or are told of it by others. */
module SessionServices {
  import opened Options
  import opened SessionCore

  class SimulationClock {
    var mode: ClockMode
    var tick: nat
    var runs: nat

    constructor ()
      ensures State() == Clock(Ready, 0, 0)
    {
      mode, tick, runs := Ready, 0, 0;
    }

    function State(): Clock
      reads this
    {
      Clock(mode, tick, runs)
    }

    method Play()
      modifies this
      ensures State() == old(State()).Play()
    {
      mode := Running;
    }

    method Pause()
      modifies this
      ensures State() == old(State()).Pause()
    {
      if mode == Running {
        mode := Paused;
      }
    }

    method Reset()
      modifies this
      ensures State() == old(State()).Reset()
    {
      tick := 0;
      runs := runs + 1;
      mode := Ready;
    }

    method Tick(steps: nat)
      modifies this
      ensures State() == old(State()).Tick(steps)
    {
      if mode == Running {
        tick := tick + steps;
      }
    }
  }

  class ConflictScheduler {
    const clock: SimulationClock
    const period: Period
    var observed: nat
    var lastSlot: Option<int>

    constructor (clock: SimulationClock, period: Period)
      ensures this.clock == clock && this.period == period && Valid() && Slot() == None
    {
      this.clock, this.period := clock, period;
      observed, lastSlot := clock.runs, None;
    }

    ghost predicate Valid()
      reads this, clock
    {
      observed <= clock.runs
    }

    /** The slot of the last assessment of this run. */
    function Slot(): Option<int>
      reads this, clock
    {
      if observed == clock.runs then lastSlot else None
    }

    method Synchronize()
      requires Valid()
      modifies this
      ensures Valid() && observed == clock.runs && Slot() == old(Slot())
    {
      if clock.runs != observed {
        observed := clock.runs;
        lastSlot := None;
      }
    }

    /** Whether an assessment is made in the current slot. */
    method RunIfDue() returns (due: bool)
      requires Valid()
      modifies this
      ensures Valid()
      ensures due == (clock.mode == Running && Due(old(Slot()), clock.tick, period))
      ensures Slot() == if due then Some(SlotOf(clock.tick, period)) else old(Slot())
    {
      Synchronize();
      if clock.mode != Running {
        return false;
      }
      var current := SlotOf(clock.tick, period);
      if lastSlot.Some? && current <= lastSlot.value {
        return false;
      }
      lastSlot := Some(current);
      due := true;
    }
  }

  // ---------------------------------------------------------------- aircraft

  /** The anchors of aircraft that have seen the current run. */
  function CurrentOnly(applied: seq<Anchor>, current: string -> bool): seq<Anchor> {
    if applied == [] then []
    else
      var earlier, last := CurrentOnly(applied[..|applied| - 1], current), applied[|applied| - 1];
      if current(last.candidate.aircraft) then earlier + [last] else earlier
  }

  lemma {:induction false} CurrentOnlySame(applied: seq<Anchor>, f: string -> bool, g: string -> bool)
    requires forall k :: 0 <= k < |applied| ==> f(applied[k].candidate.aircraft) == g(applied[k].candidate.aircraft)
    ensures CurrentOnly(applied, f) == CurrentOnly(applied, g)
  {
    if applied == [] {
    } else {
      CurrentOnlySame(applied[..|applied| - 1], f, g);
    }
  }

  lemma {:induction false} NoneCurrent(applied: seq<Anchor>, f: string -> bool)
    requires forall a :: !f(a)
    ensures CurrentOnly(applied, f) == []
  {
    if applied == [] {
    } else {
      NoneCurrent(applied[..|applied| - 1], f);
    }
  }

  /** Forgetting the anchors of an aircraft that had not seen the run changes nothing. */
  function Forget(applied: seq<Anchor>, aircraft: string): (r: seq<Anchor>)
    ensures forall k :: 0 <= k < |r| ==> r[k].candidate.aircraft != aircraft
  {
    if applied == [] then []
    else
      var earlier, last := Forget(applied[..|applied| - 1], aircraft), applied[|applied| - 1];
      if last.candidate.aircraft != aircraft then earlier + [last] else earlier
  }

  lemma {:induction false} ForgetStale(applied: seq<Anchor>, aircraft: string, f: string -> bool)
    requires !f(aircraft)
    ensures CurrentOnly(Forget(applied, aircraft), f) == CurrentOnly(applied, f)
  {
    if applied == [] {
    } else {
      var n := |applied| - 1;
      ForgetStale(applied[..n], aircraft, f);
      var rest := Forget(applied[..n], aircraft);
      assert (rest + [applied[n]])[..|rest|] == rest;
    }
  }

  /** An aircraft that has seen the run shows all its anchors. */
  lemma {:induction false} CurrentAnchored(applied: seq<Anchor>, aircraft: string, tick: nat, f: string -> bool)
    requires f(aircraft)
    ensures Anchored(CurrentOnly(applied, f), aircraft, tick) <==> Anchored(applied, aircraft, tick)
  {
    if applied == [] {
    } else {
      var n := |applied| - 1;
      CurrentAnchored(applied[..n], aircraft, tick, f);
      AnchoredAppend(applied[..n], applied[n], aircraft, tick);
      assert applied[..n] + [applied[n]] == applied;
      AnchoredAppend(CurrentOnly(applied[..n], f), applied[n], aircraft, tick);
    }
  }

  lemma AnchoredAppend(a: seq<Anchor>, x: Anchor, aircraft: string, tick: nat)
    ensures Anchored(a + [x], aircraft, tick) <==>
            Anchored(a, aircraft, tick) || (x.candidate.aircraft == aircraft && x.tick == tick)
  {
    if k :| 0 <= k < |a| && a[k].candidate.aircraft == aircraft && a[k].tick == tick {
      assert (a + [x])[k] == a[k];
    }
    assert (a + [x])[|a|] == x;
  }

  /** The runtimes of all aircraft. Each forgets the anchors of earlier runs when it is used. */
  class Fleet {
    const clock: SimulationClock
    const start: nat
    var observed: map<string, nat>
    var applied: seq<Anchor>

    constructor (clock: SimulationClock)
      ensures this.clock == clock && Valid() && Anchors() == []
    {
      this.clock := clock;
      start, observed, applied := clock.runs, map[], [];
    }

    function Observed(aircraft: string): nat
      reads this
    {
      if aircraft in observed then observed[aircraft] else start
    }

    function Current(): string -> bool
      reads this, clock
    {
      var seen, runs := observed, clock.runs;
      aircraft => (if aircraft in seen then seen[aircraft] else start) == runs
    }

    ghost predicate Valid()
      reads this, clock
    {
      start <= clock.runs && forall a :: a in observed ==> observed[a] <= clock.runs
    }

    function Anchors(): seq<Anchor>
      reads this, clock
    {
      CurrentOnly(applied, Current())
    }

    method Synchronize(aircraft: string)
      requires Valid()
      modifies this
      ensures Valid() && Current()(aircraft) && Anchors() == old(Anchors())
    {
      if Observed(aircraft) != clock.runs {
        ForgetStale(applied, aircraft, Current());
        ghost var before := Current();
        applied := Forget(applied, aircraft);
        observed := observed[aircraft := clock.runs];
        CurrentOnlySame(applied, before, Current());
      }
    }

    /** One anchor per aircraft and instant, while the clock runs. */
    method ApplyStateAnchor(c: Candidate, takes: bool) returns (ok: bool)
      requires Valid()
      modifies this
      ensures Valid()
      ensures ok == (clock.mode == Running && takes && !Anchored(old(Anchors()), c.aircraft, clock.tick))
      ensures Anchors() == if ok then old(Anchors()) + [Anchor(c, clock.tick)] else old(Anchors())
    {
      Synchronize(c.aircraft);
      CurrentAnchored(applied, c.aircraft, clock.tick, Current());
      if clock.mode != Running || !takes || Anchored(applied, c.aircraft, clock.tick) {
        return false;
      }
      ghost var before := applied;
      applied := applied + [Anchor(c, clock.tick)];
      assert applied[..|applied| - 1] == before;
      ok := true;
    }
  }

  // ---------------------------------------------------------------- services others reset

  class QueueService {
    var lastAt: Option<nat>

    constructor ()
      ensures lastAt == None
    {
      lastAt := None;
    }

    method Refresh(at: nat) returns (ok: bool)
      modifies this
      ensures ok == (old(lastAt) == None || old(lastAt).value <= at)
      ensures lastAt == if ok then Some(at) else old(lastAt)
    {
      ok := lastAt == None || lastAt.value <= at;
      if ok {
        lastAt := Some(at);
      }
    }

    method Reset()
      modifies this
      ensures lastAt == None
    {
      lastAt := None;
    }
  }

  class RecommendationCatalog {
    var sets: map<string, RecommendationSet>
    var currentId: Option<string>

    constructor ()
      ensures State() == NO_SETS
    {
      sets, currentId := map[], None;
    }

    function State(): Catalog
      reads this
    {
      Catalog(sets, currentId)
    }

    method Publish(s: RecommendationSet) returns (e: Option<Error>)
      modifies this
      ensures match old(State()).Publish(s)
              case Ok(c) => e == None && State() == c
              case Err(x) => e == Some(x) && State() == old(State())
    {
      if s.id in sets {
        return Some(SetExists);
      }
      var current := State().Current();
      if current.Some? && s.generatedAt < current.value.generatedAt {
        return Some(TimeRunsBackwards);
      }
      sets := sets[s.id := s];
      currentId := Some(s.id);
      e := None;
    }

    method Reset()
      modifies this
      ensures State() == NO_SETS
    {
      sets := map[];
      currentId := None;
    }
  }

  /** The audit of controller decisions. */
  class DecisionService {
    var decidedSets: set<string>
    var lastLog: Option<AuditLog>
    var revision: nat

    constructor ()
      ensures Valid() && lastLog == None
    {
      decidedSets, lastLog, revision := {}, None, 0;
    }

    /** The index by recommendation set and the revision agree with the log. */
    ghost predicate Valid()
      reads this
    {
      revision == Revision(lastLog) && forall id :: id in decidedSets <==> HasDecision(lastLog, id)
    }

    method Decide(s: RecommendationSet, selected: Validated, kind: DecisionKind, at: nat, inputs: Inputs)
        returns (e: Option<Error>)
      requires Valid()
      modifies this
      ensures Valid()
      ensures match Record(old(lastLog), s, selected, kind, at, inputs)
              case Ok(log) => e == None && lastLog == Some(log)
              case Err(x) => e == Some(x) && lastLog == old(lastLog)
    {
      if lastLog.Some? && at < lastLog.value.generatedAt {
        return Some(TimeRunsBackwards);
      }
      if s.id in decidedSets {
        return Some(AlreadyDecided);
      }
      var entry := Entry(s.id, selected, kind, at, inputs.maneuver);
      if selected !in s.options || at < s.generatedAt || !GoodEntry(entry, inputs.rationale) {
        return Some(InvalidDecision);
      }
      ghost var before := lastLog;
      lastLog := Some(AuditLog(revision + 1, at, Entries(lastLog) + [entry]));
      decidedSets := decidedSets + {s.id};
      revision := revision + 1;
      forall id ensures HasDecision(lastLog, id) <==> id == s.id || HasDecision(before, id) {
        RecordedSet(before, lastLog.value, entry, id);
      }
      e := None;
    }

    method Reset()
      modifies this
      ensures Valid() && lastLog == None
    {
      decidedSets, lastLog, revision := {}, None, 0;
    }
  }

  lemma RecordedSet(before: Option<AuditLog>, after: AuditLog, entry: Entry, id: string)
    requires after.entries == Entries(before) + [entry]
    ensures HasDecision(Some(after), id) <==> id == entry.setId || HasDecision(before, id)
  {
    var entries, all := Entries(before), Entries(Some(after));
    assert all[|entries|] == entry;
    if HasDecision(before, id) {
      var k :| 0 <= k < |entries| && entries[k].setId == id;
      assert all[k] == entries[k];
    }
    if HasDecision(Some(after), id) {
      var k :| 0 <= k < |all| && all[k].setId == id;
      assert k < |entries| ==> all[k] == entries[k];
    }
  }
}
