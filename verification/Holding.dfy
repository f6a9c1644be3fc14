/** Holding stacks: the levels a published pattern offers, the clearance of one aircraft, and
    how a list of requests fills the patterns. */
module Holding {
  import opened Options
  import opened RealFacts

  /** A published pattern. A missing upper limit leaves a single level. */
  datatype Pattern = Pattern(fix: string, altitude: real, maxAltitude: Option<real>, leg: real, maxSpeed: Option<real>)

  const LEVEL_TOLERANCE := 0.000001

  /** The published patterns of one approach with the constants of the holding section:
      `turnRate` is the slower of the standard rate and the bank limit at a speed. */
  datatype Book = Book(patterns: seq<Pattern>, step: real, turnRate: real -> real, delayInfo: real)

  predicate DistinctFixes(patterns: seq<Pattern>) {
    forall i, j :: 0 <= i < j < |patterns| ==> patterns[i].fix != patterns[j].fix
  }

  ghost predicate Published(b: Book) {
    && DistinctFixes(b.patterns) && b.step > 0.0
    && (forall p :: p in b.patterns ==> p.leg > 0.0)
    && (forall v :: b.turnRate(v) > 0.0)
  }

  // ---------------------------------------------------------------- levels

  /** The k-th level above the published altitude. */
  function Level(p: Pattern, step: real, k: nat): real {
    p.altitude + k as real * step
  }

  function LevelCount(p: Pattern, step: real): nat
    requires step > 0.0
  {
    if p.maxAltitude == None then 1
    else
      var room := p.maxAltitude.value + LEVEL_TOLERANCE - p.altitude;
      if room < 0.0 then 0 else Quotient(room, step) + 1
  }

  function Quotient(x: real, y: real): (q: nat)
    requires x >= 0.0 && y > 0.0
    ensures q as real * y <= x < q as real * y + y
  {
    var d := x / y;
    assert d * y == x;
    FloorBelow(x, y, d, d.Floor as real);
    FloorAbove(x, y, d, d.Floor as real);
    QuotientLess(x, y, 0.0);
    d.Floor
  }

  lemma FloorBelow(x: real, y: real, d: real, f: real)
    requires y > 0.0 && d * y == x && f <= d < f + 1.0
    ensures f * y <= x
  {
    assert (d - f) * y >= 0.0;
  }

  lemma FloorAbove(x: real, y: real, d: real, f: real)
    requires y > 0.0 && d * y == x && f <= d < f + 1.0
    ensures x < f * y + y
  {
    var e := f + 1.0 - d;
    var p := PositiveProduct(e, y);
    assert p == e * y;
    assert e * y == (f + 1.0 - d) * y == f * y + y - d * y;
  }

  function Levels(p: Pattern, step: real): seq<real>
    requires step > 0.0
  {
    seq(LevelCount(p, step), k requires 0 <= k => Level(p, step, k))
  }

  lemma LevelsRise(p: Pattern, step: real, j: nat, k: nat)
    requires step > 0.0 && j < k
    ensures Level(p, step, j) < Level(p, step, k)
  {
    assert (k - j) as real * step > 0.0;
    assert (k - j) as real * step == k as real * step - j as real * step;
  }

  /** The levels are the published altitude and everything a whole number of steps above it, up
      to the published limit: with a limit the k-th step is a level exactly when it fits, without one
      the published altitude is the only level. */
  lemma LevelsAreAllThatFit(p: Pattern, step: real, k: nat)
    requires step > 0.0
    ensures p.maxAltitude.Some? ==>
            (k < |Levels(p, step)| <==> p.altitude + k as real * step <= p.maxAltitude.value + 0.000001)
    ensures k < |Levels(p, step)| ==> Levels(p, step)[k] == p.altitude + k as real * step
    ensures p.maxAltitude == None ==> Levels(p, step) == [p.altitude]
  {
    if p.maxAltitude.Some? {
      var room := p.maxAltitude.value + LEVEL_TOLERANCE - p.altitude;
      if room >= 0.0 {
        var q := Quotient(room, step);
        StepsThatFit(room, step, q as real, k as real);
      } else {
        MulMonotone(0.0, k as real, step);
      }
    }
  }

  lemma StepsThatFit(room: real, step: real, q: real, k: real)
    requires step > 0.0 && q * step <= room < q * step + step
    ensures k <= q ==> k * step <= room
    ensures k >= q + 1.0 ==> k * step > room
  {
    if k <= q {
      StepFits(room, step, q, k);
    } else if k >= q + 1.0 {
      StepTooHigh(room, step, q, k);
    }
  }

  lemma StepFits(room: real, step: real, q: real, k: real)
    requires step > 0.0 && q * step <= room && k <= q
    ensures k * step <= room
  {
    MulMonotone(k, q, step);
  }

  lemma StepTooHigh(room: real, step: real, q: real, k: real)
    requires step > 0.0 && room < q * step + step && k >= q + 1.0
    ensures k * step > room
  {
    MulMonotone(q + 1.0, k, step);
  }

  /** The loop that lists the levels. */
  method LevelsFt(p: Pattern, step: real) returns (out: seq<real>)
    requires step > 0.0
    ensures out == Levels(p, step)
  {
    if p.maxAltitude == None {
      return [p.altitude];
    }
    var a := p.altitude;
    out := [];
    while a <= p.maxAltitude.value + LEVEL_TOLERANCE
      invariant a == Level(p, step, |out|) && |out| <= LevelCount(p, step)
      invariant out == Levels(p, step)[..|out|]
      decreases LevelCount(p, step) - |out|
    {
      LevelsAreAllThatFit(p, step, |out|);
      NextLevel(p, step, |out|);
      out := out + [a];
      a := a + step;
    }
    LevelsAreAllThatFit(p, step, |out|);
  }

  lemma NextLevel(p: Pattern, step: real, k: nat)
    ensures Level(p, step, k + 1) == Level(p, step, k) + step
  {
    assert (k + 1) as real == k as real + 1.0;
  }

  // ---------------------------------------------------------------- one clearance

  datatype Assignment = Assignment(callsign: string, pattern: Pattern, level: real, circuits: nat, delay: real,
      efc: Option<real>)

  datatype Error = UnknownFix

  /** Inbound leg, half turn, outbound leg, half turn, at the speed the pattern allows. */
  function CircuitTime(b: Book, p: Pattern, speed: real): real
    requires b.turnRate(AllowedSpeed(p, speed)) > 0.0
  {
    var v := AllowedSpeed(p, speed);
    var floor := if v < 1.0 then 1.0 else v;
    2.0 * (p.leg / floor * 3600.0) + 2.0 * (180.0 / b.turnRate(v))
  }

  function AllowedSpeed(p: Pattern, speed: real): real {
    if p.maxSpeed.Some? && p.maxSpeed.value < speed then p.maxSpeed.value else speed
  }

  /** A circuit is two legs flown at the lesser of the own and the permitted speed, never below
      1 kt, and two turns by 180 degrees at the rate of turn for that speed. */
  lemma CircuitIs(b: Book, p: Pattern, speed: real, v: real, flown: real, legS: real, turnS: real)
    requires Published(b) && p in b.patterns
    requires v <= speed && (v == speed || p.maxSpeed == Some(v)) && (p.maxSpeed.Some? ==> v <= p.maxSpeed.value)
    requires (v >= 1.0 ==> flown == v) && (v < 1.0 ==> flown == 1.0)
    requires flown * legS == 3600.0 * p.leg && b.turnRate(v) * turnS == 180.0
    ensures CircuitTime(b, p, speed) == legS + turnS + legS + turnS
  {
    assert v == AllowedSpeed(p, speed);
    QuotientIs(180.0, b.turnRate(v), turnS);
    QuotientIs(p.leg, flown, legS / 3600.0);
  }

  lemma CircuitPositive(b: Book, p: Pattern, speed: real)
    requires Published(b) && p in b.patterns
    ensures CircuitTime(b, p, speed) > 0.0
  {
    var v := AllowedSpeed(p, speed);
    var floor := if v < 1.0 then 1.0 else v;
    QuotientSigns(p.leg, floor);
    QuotientSigns(180.0, b.turnRate(v));
  }

  lemma QuotientSigns(n: real, d: real)
    requires n > 0.0 && d > 0.0
    ensures n / d > 0.0
  {
    QuotientLess(n, d, 0.0);
  }

  function CircuitsFor(need: real, circuit: real): nat
    requires circuit > 0.0
  {
    var n := Ceiling(need / circuit);
    if n < 1 then 1 else n
  }

  /** The delay is the least whole number of circuits that covers the need. */
  lemma LeastCircuits(need: real, circuit: real, n: nat)
    requires need > 0.0 && circuit > 0.0
    ensures CircuitsFor(need, circuit) >= 1
    ensures n as real * circuit >= need <==> n >= CircuitsFor(need, circuit)
  {
    var d := need / circuit;
    QuotientSigns(need, circuit);
    var c := Ceiling(d);
    assert c as real >= d > (c - 1) as real;
    QuotientLess(need, circuit, n as real);
  }

  function FreeLevel(levels: seq<real>, taken: set<real>): Option<real> {
    if levels == [] then None
    else if levels[0] !in taken then Some(levels[0])
    else FreeLevel(levels[1..], taken)
  }

  type Occupied = map<string, set<real>>

  function Taken(occupied: Occupied, fix: string): set<real> {
    if fix in occupied then occupied[fix] else {}
  }

  function FindPattern(patterns: seq<Pattern>, fix: string): Option<Pattern> {
    if patterns == [] then None
    else if patterns[0].fix == fix then Some(patterns[0])
    else FindPattern(patterns[1..], fix)
  }

  datatype Request = Request(callsign: string, speed: real, need: real)

  function Clearance(b: Book, r: Request, p: Pattern, level: real, now: real): Assignment
    requires CircuitTime.requires(b, p, r.speed) && CircuitTime(b, p, r.speed) > 0.0
  {
    var circuit := CircuitTime(b, p, r.speed);
    var circuits := CircuitsFor(r.need, circuit);
    var delay := circuits as real * circuit;
    Assignment(r.callsign, p, level, circuits, delay, if delay >= b.delayInfo then Some(now + delay) else None)
  }

  /** `None` when no time is needed or no level is free. */
  function Assign(b: Book, r: Request, fix: string, occupied: Occupied, now: real): Result<Option<Assignment>, Error>
    requires Published(b)
  {
    if r.need <= 0.0 then Ok(None)
    else match FindPattern(b.patterns, fix)
      case None => Err(UnknownFix)
      case Some(p) =>
        match FreeLevel(Levels(p, b.step), Taken(occupied, fix))
        case None => Ok(None)
        case Some(level) =>
          FoundInBook(b.patterns, fix);
          CircuitPositive(b, p, r.speed);
          Ok(Some(Clearance(b, r, p, level, now)))
  }

  lemma {:induction false} FoundInBook(patterns: seq<Pattern>, fix: string)
    ensures FindPattern(patterns, fix).Some? ==>
            FindPattern(patterns, fix).value in patterns && FindPattern(patterns, fix).value.fix == fix
    ensures FindPattern(patterns, fix).None? ==> forall p :: p in patterns ==> p.fix != fix
  {
    if patterns != [] && patterns[0].fix != fix {
      FoundInBook(patterns[1..], fix);
    }
  }

  lemma {:induction false} FoundByFix(patterns: seq<Pattern>, p: Pattern)
    requires DistinctFixes(patterns) && p in patterns
    ensures FindPattern(patterns, p.fix) == Some(p)
  {
    if patterns[0] == p {
    } else {
      var k :| 0 <= k < |patterns| && patterns[k] == p;
      assert patterns[0].fix != patterns[k].fix;
      assert patterns[1..][k - 1] == p;
      FoundByFix(patterns[1..], p);
    }
  }

  // ---------------------------------------------------------------- filling the patterns

  /** A level at a pattern. */
  datatype Place = Place(pattern: Pattern, level: real)

  function PlacesAt(p: Pattern, step: real): seq<Place>
    requires step > 0.0
  {
    seq(LevelCount(p, step), k requires 0 <= k => Place(p, Level(p, step, k)))
  }

  /** All places of a pool, pattern by pattern, lowest level first. */
  function Places(pool: seq<Pattern>, step: real): seq<Place>
    requires step > 0.0
  {
    if pool == [] then [] else PlacesAt(pool[0], step) + Places(pool[1..], step)
  }

  /** Exactly the first m places are occupied. */
  ghost predicate FilledTo(pool: seq<Pattern>, step: real, occupied: Occupied, m: nat)
    requires step > 0.0
  {
    forall k :: 0 <= k < |Places(pool, step)| ==> (IsTaken(occupied, Places(pool, step)[k]) <==> k < m)
  }

  predicate IsTaken(occupied: Occupied, at: Place) {
    at.level in Taken(occupied, at.pattern.fix)
  }

  lemma {:induction false} PlaceOfPool(pool: seq<Pattern>, step: real, k: nat)
    requires step > 0.0 && k < |Places(pool, step)|
    ensures Places(pool, step)[k].pattern in pool &&
            Places(pool, step)[k].level in Levels(Places(pool, step)[k].pattern, step)
  {
    var first := PlacesAt(pool[0], step);
    if k >= |first| {
      PlaceOfPool(pool[1..], step, k - |first|);
    } else {
      assert Levels(pool[0], step)[k] == first[k].level;
    }
  }

  /** With distinct fixes no two places of a pool share both fix and level. */
  lemma {:induction false} PlacesDiffer(pool: seq<Pattern>, step: real, j: nat, k: nat)
    requires step > 0.0 && DistinctFixes(pool) && j < k < |Places(pool, step)|
    ensures var a, b := Places(pool, step)[j], Places(pool, step)[k];
            a.pattern.fix != b.pattern.fix ||
            a.level != b.level
  {
    var first := PlacesAt(pool[0], step);
    if k < |first| {
      LevelsRise(pool[0], step, j, k);
    } else if j >= |first| {
      PlacesDiffer(pool[1..], step, j - |first|, k - |first|);
    } else {
      PlaceOfPool(pool[1..], step, k - |first|);
      assert Places(pool, step)[k] == Places(pool[1..], step)[k - |first|];
      var i :| 0 <= i < |pool| - 1 && pool[1..][i] == Places(pool, step)[k].pattern;
      assert pool[0].fix != pool[i + 1].fix;
    }
  }

  /** The place the search over the pool comes to. */
  function FirstPlace(pool: seq<Pattern>, step: real, occupied: Occupied): Option<Place>
    requires step > 0.0
  {
    if pool == [] then None
    else match FreeLevel(Levels(pool[0], step), Taken(occupied, pool[0].fix))
      case Some(level) => Some(Place(pool[0], level))
      case None => FirstPlace(pool[1..], step, occupied)
  }

  lemma {:induction false} FreeLevelAt(levels: seq<real>, taken: set<real>, m: nat)
    requires m <= |levels| && (forall k :: 0 <= k < m ==> levels[k] in taken) && (m < |levels| ==> levels[m] !in taken)
    ensures FreeLevel(levels, taken) == if m < |levels| then Some(levels[m]) else None
  {
    if m == 0 {
    } else {
      FreeLevelAt(levels[1..], taken, m - 1);
    }
  }

  lemma {:induction false} FirstPlaceAt(pool: seq<Pattern>, step: real, occupied: Occupied, m: nat)
    requires step > 0.0 && m <= |Places(pool, step)| && FilledTo(pool, step, occupied, m)
    ensures FirstPlace(pool, step, occupied) == if m < |Places(pool, step)| then Some(Places(pool, step)[m]) else None
  {
    if pool == [] {
    } else {
      var first, levels := PlacesAt(pool[0], step), Levels(pool[0], step);
      forall k | 0 <= k < |first| ensures levels[k] in Taken(occupied, pool[0].fix) <==> k < m {
        assert Places(pool, step)[k] == first[k];
        assert IsTaken(occupied, Places(pool, step)[k]) <==> k < m;
      }
      FreeLevelAt(levels, Taken(occupied, pool[0].fix), if m < |first| then m else |first|);
      if m >= |first| {
        RestFilledTo(pool, step, occupied, m);
        FirstPlaceAt(pool[1..], step, occupied, m - |first|);
      }
    }
  }

  lemma RestFilledTo(pool: seq<Pattern>, step: real, occupied: Occupied, m: nat)
    requires step > 0.0 && pool != [] && FilledTo(pool, step, occupied, m) && m >= |PlacesAt(pool[0], step)|
    ensures FilledTo(pool[1..], step, occupied, m - |PlacesAt(pool[0], step)|)
  {
    var n := |PlacesAt(pool[0], step)|;
    forall k | 0 <= k < |Places(pool[1..], step)| ensures IsTaken(occupied, Places(pool[1..], step)[k]) <==> k < m - n {
      assert Places(pool, step)[n + k] == Places(pool[1..], step)[k];
      assert IsTaken(occupied, Places(pool, step)[n + k]) <==> n + k < m;
    }
  }

  function Occupy(occupied: Occupied, at: Place): Occupied {
    occupied[at.pattern.fix := Taken(occupied, at.pattern.fix) + {at.level}]
  }

  /** Taking the next place fills the pool one further. */
  lemma FillsNext(pool: seq<Pattern>, step: real, occupied: Occupied, m: nat)
    requires step > 0.0 && DistinctFixes(pool) && m < |Places(pool, step)| && FilledTo(pool, step, occupied, m)
    ensures FilledTo(pool, step, Occupy(occupied, Places(pool, step)[m]), m + 1)
  {
    var at := Places(pool, step)[m];
    var after := Occupy(occupied, at);
    forall k | 0 <= k < |Places(pool, step)| ensures IsTaken(after, Places(pool, step)[k]) <==> k < m + 1 {
      var other := Places(pool, step)[k];
      assert IsTaken(occupied, other) <==> k < m;
      if k < m {
        PlacesDiffer(pool, step, k, m);
      } else if m < k {
        PlacesDiffer(pool, step, m, k);
      }
      assert IsTaken(after, other) <==>
             IsTaken(occupied, other) || (other.pattern.fix == at.pattern.fix && other.level == at.level);
    }
  }

  /** The requests among the first n that need time at all. */
  function Wanting(requests: seq<Request>, n: nat): seq<Request>
    requires n <= |requests|
  {
    if n == 0 then []
    else Wanting(requests, n - 1) + if requests[n - 1].need > 0.0 then [requests[n - 1]] else []
  }

  /** The callsigns among the first n requests that are turned away with `places` places. */
  function TurnedAway(requests: seq<Request>, places: nat, n: nat): seq<string>
    requires n <= |requests|
  {
    if n == 0 then []
    else
      var r := requests[n - 1];
      TurnedAway(requests, places, n - 1) +
      if r.need > 0.0 && |Wanting(requests, n - 1)| < places then [] else [r.callsign]
  }

  function Lesser(a: nat, b: nat): nat {
    if a < b then a else b
  }

  /** The k-th request that needs time gets the k-th place, as long as places last. */
  ghost predicate InOrder(b: Book, pool: seq<Pattern>, requests: seq<Request>, n: nat, now: real,
                          placed: seq<Assignment>)
    requires Published(b) && n <= |requests| && forall p :: p in pool ==> p in b.patterns
  {
    && |placed| == Lesser(|Wanting(requests, n)|, |Places(pool, b.step)|)
    && forall k :: 0 <= k < |placed| ==>
       IsClearance(b, Wanting(requests, n)[k], Places(pool, b.step)[k], now, placed[k])
  }

  ghost predicate IsClearance(b: Book, r: Request, at: Place, now: real, a: Assignment)
    requires Published(b)
  {
    && at.pattern in b.patterns && CircuitTime(b, at.pattern, r.speed) > 0.0
    && a == Clearance(b, r, at.pattern, at.level, now)
  }

  function Pool(b: Book, fix: Option<string>): Result<seq<Pattern>, Error> {
    if fix == None then Ok(b.patterns)
    else match FindPattern(b.patterns, fix.value)
      case None => Err(UnknownFix)
      case Some(p) => Ok([p])
  }

  lemma PoolOfBook(b: Book, fix: Option<string>)
    requires Published(b) && Pool(b, fix).Ok?
    ensures DistinctFixes(Pool(b, fix).value) && forall p :: p in Pool(b, fix).value ==> p in b.patterns
  {
    if fix.Some? {
      FoundInBook(b.patterns, fix.value);
    }
  }

  /** The inner loop: the first pattern of the pool that takes the aircraft. */
  method PlaceOne(b: Book, r: Request, pool: seq<Pattern>, occupied: Occupied, now: real)
      returns (a: Option<Assignment>)
    requires Published(b) && forall p :: p in pool ==> p in b.patterns
    ensures r.need <= 0.0 || FirstPlace(pool, b.step, occupied) == None ==> a == None
    ensures r.need > 0.0 && FirstPlace(pool, b.step, occupied).Some? ==>
              a.Some? && IsClearance(b, r, FirstPlace(pool, b.step, occupied).value, now, a.value)
  {
    a := None;
    for i := 0 to |pool|
      invariant a == None
      invariant r.need > 0.0 ==> FirstPlace(pool, b.step, occupied) == FirstPlace(pool[i..], b.step, occupied)
    {
      FoundByFix(b.patterns, pool[i]);
      assert pool[i..][1..] == pool[i + 1..];
      a := Assign(b, r, pool[i].fix, occupied, now).value;
      if a.Some? {
        return;
      }
    }
  }

  lemma {:induction false} InOrderNext(b: Book, pool: seq<Pattern>, requests: seq<Request>, n: nat, now: real,
                                       placed: seq<Assignment>, a: Assignment)
    requires Published(b) && n < |requests| && forall p :: p in pool ==> p in b.patterns
    requires InOrder(b, pool, requests, n, now, placed)
    requires requests[n].need > 0.0 && |placed| < |Places(pool, b.step)|
    requires IsClearance(b, requests[n], Places(pool, b.step)[|placed|], now, a)
    ensures InOrder(b, pool, requests, n + 1, now, placed + [a])
  {
    assert Wanting(requests, n + 1) == Wanting(requests, n) + [requests[n]];
  }

  lemma {:induction false} InOrderSkip(b: Book, pool: seq<Pattern>, requests: seq<Request>, n: nat, now: real,
                                       placed: seq<Assignment>)
    requires Published(b) && n < |requests| && forall p :: p in pool ==> p in b.patterns
    requires InOrder(b, pool, requests, n, now, placed)
    requires requests[n].need <= 0.0 || |placed| >= |Places(pool, b.step)|
    ensures InOrder(b, pool, requests, n + 1, now, placed)
  {
    assert requests[n].need <= 0.0 ==> Wanting(requests, n + 1) == Wanting(requests, n);
  }

  /** Several aircraft at once: who is placed where, and who is left over. */
  method Stack(b: Book, requests: seq<Request>, fix: Option<string>, now: real)
      returns (r: Result<(seq<Assignment>, seq<string>), Error>)
    requires Published(b)
    ensures r.Err? <==> fix.Some? && forall p :: p in b.patterns ==> p.fix != fix.value
    ensures r.Ok? ==> (
              && Pool(b, fix).Ok? && (forall p :: p in Pool(b, fix).value ==> p in b.patterns)
              && InOrder(b, Pool(b, fix).value, requests, |requests|, now, r.value.0)
              && r.value.1 == TurnedAway(requests, |Places(Pool(b, fix).value, b.step)|, |requests|))
  {
    if fix.Some? {
      FoundInBook(b.patterns, fix.value);
    }
    if Pool(b, fix).Err? {
      return Err(Pool(b, fix).error);
    }
    PoolOfBook(b, fix);
    var placed, refused := Fill(b, requests, Pool(b, fix).value, now);
    r := Ok((placed, refused));
  }

  lemma NothingTaken(pool: seq<Pattern>, step: real)
    requires step > 0.0
    ensures FilledTo(pool, step, map[], 0)
  {
  }

  lemma NextTurnedAway(requests: seq<Request>, places: nat, n: nat)
    requires n < |requests|
    ensures TurnedAway(requests, places, n + 1) == TurnedAway(requests, places, n) +
              if requests[n].need > 0.0 && |Wanting(requests, n)| < places then [] else [requests[n].callsign]
  {
  }

  /** The outer loop over the requests. */
  method Fill(b: Book, requests: seq<Request>, pool: seq<Pattern>, now: real)
      returns (placed: seq<Assignment>, refused: seq<string>)
    requires Published(b) && DistinctFixes(pool) && forall p :: p in pool ==> p in b.patterns
    ensures InOrder(b, pool, requests, |requests|, now, placed)
    ensures refused == TurnedAway(requests, |Places(pool, b.step)|, |requests|)
  {
    var occupied: Occupied := map[];
    placed, refused := [], [];
    NothingTaken(pool, b.step);
    for n := 0 to |requests|
      invariant InOrder(b, pool, requests, n, now, placed)
      invariant FilledTo(pool, b.step, occupied, |placed|)
      invariant refused == TurnedAway(requests, |Places(pool, b.step)|, n)
    {
      var a := PlaceNext(b, requests, pool, n, occupied, placed, now);
      NextTurnedAway(requests, |Places(pool, b.step)|, n);
      if a == None {
        refused := refused + [requests[n].callsign];
      } else {
        FillsNext(pool, b.step, occupied, |placed|);
        occupied := Occupy(occupied, Place(a.value.pattern, a.value.level));
        placed := placed + [a.value];
      }
    }
  }

  /** One turn of it: the next request and what it gets. */
  method PlaceNext(b: Book, requests: seq<Request>, pool: seq<Pattern>, n: nat, occupied: Occupied,
                   ghost placed: seq<Assignment>, now: real)
    returns (a: Option<Assignment>)
    requires Published(b) && n < |requests| && forall p :: p in pool ==> p in b.patterns
    requires InOrder(b, pool, requests, n, now, placed) && FilledTo(pool, b.step, occupied, |placed|)
    ensures a == None ==>
            (requests[n].need <= 0.0 || |placed| >= |Places(pool, b.step)|) &&
            InOrder(b, pool, requests, n + 1, now, placed)
    ensures a.Some? ==> (
              && requests[n].need > 0.0 && |placed| < |Places(pool, b.step)|
              && Place(a.value.pattern, a.value.level) == Places(pool, b.step)[|placed|]
              && InOrder(b, pool, requests, n + 1, now, placed + [a.value]))
  {
    FirstPlaceAt(pool, b.step, occupied, |placed|);
    a := PlaceOne(b, requests[n], pool, occupied, now);
    if a == None {
      InOrderSkip(b, pool, requests, n, now, placed);
    } else {
      InOrderNext(b, pool, requests, n, now, placed, a.value);
    }
  }

  // ---------------------------------------------------------------- what the stack promises

  /** No two aircraft share a fix and a level, every level is a published one, every delay is the
      least whole number of circuits that covers the need, and those delayed long enough are told until
      when. */
  lemma {:induction false} StackIsSeparated(b: Book, pool: seq<Pattern>, requests: seq<Request>, now: real,
                                            placed: seq<Assignment>)
    requires Published(b) && DistinctFixes(pool) && forall p :: p in pool ==> p in b.patterns
    requires InOrder(b, pool, requests, |requests|, now, placed)
    ensures forall j, k :: 0 <= j < k < |placed| ==>
            placed[j].pattern.fix != placed[k].pattern.fix || placed[j].level != placed[k].level
    ensures forall k :: 0 <= k < |placed| ==>
            placed[k].pattern in pool && placed[k].level in Levels(placed[k].pattern, b.step)
    ensures forall k :: 0 <= k < |placed| ==> CoversNeed(b, Wanting(requests, |requests|)[k], placed[k])
    ensures forall k :: 0 <= k < |placed| ==> Told(b, now, placed[k])
  {
    forall j, k | 0 <= j < k < |placed| ensures placed[j].pattern.fix != placed[k].pattern.fix ||
        placed[j].level != placed[k].level {
      assert IsClearance(b, Wanting(requests, |requests|)[j], Places(pool, b.step)[j], now, placed[j]);
      PlacesDiffer(pool, b.step, j, k);
    }
    forall k | 0 <= k < |placed|
      ensures placed[k].pattern in pool && placed[k].level in Levels(placed[k].pattern, b.step)
      ensures CoversNeed(b, Wanting(requests, |requests|)[k], placed[k]) && Told(b, now, placed[k])
    {
      PlaceOfPool(pool, b.step, k);
      WantingNeed(requests, |requests|, k);
      ClearanceCovers(b, Wanting(requests, |requests|)[k], Places(pool, b.step)[k], now, placed[k]);
    }
  }

  ghost predicate CoversNeed(b: Book, r: Request, a: Assignment)
    requires Published(b)
  {
    var circuit := CircuitTime(b, a.pattern, r.speed);
    && a.callsign == r.callsign && a.delay == a.circuits as real * circuit && a.circuits >= 1
    && a.delay >= r.need && (a.circuits - 1) as real * circuit < r.need
  }

  /** Told to expect further clearance at the end of the delay, exactly if it is long enough. */
  ghost predicate Told(b: Book, now: real, a: Assignment) {
    && (a.delay >= b.delayInfo ==> a.efc == Some(now + a.delay))
    && (a.delay < b.delayInfo ==> a.efc == None)
  }

  lemma {:induction false} WantingNeed(requests: seq<Request>, n: nat, k: nat)
    requires n <= |requests| && k < |Wanting(requests, n)|
    ensures Wanting(requests, n)[k].need > 0.0
  {
    if k < |Wanting(requests, n - 1)| {
      WantingNeed(requests, n - 1, k);
    }
  }

  lemma ClearanceCovers(b: Book, r: Request, at: Place, now: real, a: Assignment)
    requires Published(b) && r.need > 0.0 && IsClearance(b, r, at, now, a)
    ensures CoversNeed(b, r, a) && Told(b, now, a)
  {
    var circuit := CircuitTime(b, at.pattern, r.speed);
    LeastCircuits(r.need, circuit, a.circuits);
    LeastCircuits(r.need, circuit, a.circuits - 1);
  }

  function Callsigns(placed: seq<Assignment>): seq<string> {
    if placed == [] then [] else Callsigns(placed[..|placed| - 1]) + [placed[|placed| - 1].callsign]
  }

  function NamesOf(requests: seq<Request>, n: nat): seq<string>
    requires n <= |requests|
  {
    if n == 0 then [] else NamesOf(requests, n - 1) + [requests[n - 1].callsign]
  }

  /** The callsigns of the first requests that need time, as many as there are places. */
  lemma {:induction false} CallsignsInOrder(b: Book, pool: seq<Pattern>, requests: seq<Request>, n: nat, now: real,
                                            placed: seq<Assignment>)
    requires Published(b) && n <= |requests| && forall p :: p in pool ==> p in b.patterns
    requires InOrder(b, pool, requests, n, now, placed)
    ensures Callsigns(placed) == NamesOf(Wanting(requests, n), |placed|)
  {
    CallsignsOf(b, pool, Wanting(requests, n), now, placed, |placed|);
    assert placed[..|placed|] == placed;
  }

  lemma {:induction false} CallsignsOf(b: Book, pool: seq<Pattern>, wanting: seq<Request>, now: real,
                                       placed: seq<Assignment>, m: nat)
    requires Published(b) && m <= |placed| <= |wanting| && |placed| <= |Places(pool, b.step)|
    requires forall k :: 0 <= k < |placed| ==> IsClearance(b, wanting[k], Places(pool, b.step)[k], now, placed[k])
    ensures Callsigns(placed[..m]) == NamesOf(wanting, m)
  {
    if m == 0 {
    } else {
      CallsignsOf(b, pool, wanting, now, placed, m - 1);
      assert placed[..m][..m - 1] == placed[..m - 1];
      assert IsClearance(b, wanting[m - 1], Places(pool, b.step)[m - 1], now, placed[m - 1]);
    }
  }

  lemma {:induction false} NamesOfPrefix(x: seq<Request>, y: seq<Request>, m: nat)
    requires m <= |x| <= |y| && y[..|x|] == x
    ensures NamesOf(y, m) == NamesOf(x, m)
  {
    if m == 0 {
    } else {
      NamesOfPrefix(x, y, m - 1);
      assert y[m - 1] == y[..|x|][m - 1];
    }
  }

  /** The names of the first m, and one more. */
  lemma NameOfNext(before: seq<Request>, r: Request, m: nat)
    requires m <= |before| + 1
    ensures NamesOf(before + [r], m) == if m <= |before| then NamesOf(before, m)
            else NamesOf(before, |before|) + [r.callsign]
  {
    NamesOfPrefix(before, before + [r], Lesser(m, |before|));
  }

  /** The callsigns among the first n requests that are placed with `places` places. */
  function Accepted(requests: seq<Request>, places: nat, n: nat): seq<string>
    requires n <= |requests|
  {
    if n == 0 then []
    else
      var r := requests[n - 1];
      Accepted(requests, places, n - 1) +
      if r.need > 0.0 && |Wanting(requests, n - 1)| < places then [r.callsign] else []
  }

  lemma {:induction false} AcceptedAreFirst(requests: seq<Request>, places: nat, n: nat)
    requires n <= |requests|
    ensures Accepted(requests, places, n) == NamesOf(Wanting(requests, n), Lesser(|Wanting(requests, n)|, places))
  {
    if n == 0 {
    } else {
      AcceptedAreFirst(requests, places, n - 1);
      var before, r := Wanting(requests, n - 1), requests[n - 1];
      if r.need <= 0.0 {
        assert Wanting(requests, n) == before;
      } else {
        NameOfNext(before, r, Lesser(|before| + 1, places));
      }
    }
  }

  /** Accepted and refused partition the requests: every request is in exactly one of the two. */
  lemma {:induction false} AcceptedAndRefusedPartition(requests: seq<Request>, places: nat, n: nat)
    requires n <= |requests|
    ensures multiset(Accepted(requests, places, n)) + multiset(TurnedAway(requests, places, n)) ==
            multiset(NamesOf(requests, n))
  {
    if n == 0 {
    } else {
      AcceptedAndRefusedPartition(requests, places, n - 1);
      OneMore(Accepted(requests, places, n - 1), TurnedAway(requests, places, n - 1), NamesOf(requests, n - 1),
              requests[n - 1].callsign, requests[n - 1].need > 0.0 && |Wanting(requests, n - 1)| < places);
    }
  }

  lemma OneMore<T>(a: seq<T>, b: seq<T>, all: seq<T>, c: T, first: bool)
    requires multiset(a) + multiset(b) == multiset(all)
    ensures multiset(a + if first then [c] else []) + multiset(b + if first then [] else [c]) == multiset(all + [c])
  {
    assert a + [] == a && b + [] == b;
  }

  /** Those placed and those refused by a stack partition its requests, in their order. */
  lemma {:induction false} StackPartitions(b: Book, pool: seq<Pattern>, requests: seq<Request>, now: real,
                                           placed: seq<Assignment>)
    requires Published(b) && forall p :: p in pool ==> p in b.patterns
    requires InOrder(b, pool, requests, |requests|, now, placed)
    ensures Callsigns(placed) == Accepted(requests, |Places(pool, b.step)|, |requests|)
    ensures multiset(Callsigns(placed)) + multiset(TurnedAway(requests, |Places(pool, b.step)|, |requests|)) ==
            multiset(NamesOf(requests, |requests|))
  {
    CallsignsInOrder(b, pool, requests, |requests|, now, placed);
    AcceptedAreFirst(requests, |Places(pool, b.step)|, |requests|);
    AcceptedAndRefusedPartition(requests, |Places(pool, b.step)|, |requests|);
  }

  /** The total capacity of a pool: the sum of its levels. */
  function Capacity(pool: seq<Pattern>, step: real): nat
    requires step > 0.0
  {
    if pool == [] then 0 else Capacity(pool[..|pool| - 1], step) + |Levels(pool[|pool| - 1], step)|
  }

  lemma {:induction false} CapacityIsPlaces(pool: seq<Pattern>, step: real)
    requires step > 0.0
    ensures Capacity(pool, step) == |Places(pool, step)|
  {
    if pool == [] {
    } else {
      CapacityIsPlaces(pool[..|pool| - 1], step);
      PlacesAppend(pool[..|pool| - 1], pool[|pool| - 1], step);
      assert pool[..|pool| - 1] + [pool[|pool| - 1]] == pool;
    }
  }

  lemma {:induction false} PlacesAppend(pool: seq<Pattern>, last: Pattern, step: real)
    requires step > 0.0
    ensures |Places(pool + [last], step)| == |Places(pool, step)| + LevelCount(last, step)
  {
    if pool == [] {
      assert pool + [last] == [last];
    } else {
      PlacesAppend(pool[1..], last, step);
      assert (pool + [last])[1..] == pool[1..] + [last];
    }
  }

  /** As many aircraft are placed as need time, up to the capacity of the pool. */
  lemma PlacedUpToCapacity(b: Book, pool: seq<Pattern>, requests: seq<Request>, now: real, placed: seq<Assignment>)
    requires Published(b) && forall p :: p in pool ==> p in b.patterns
    requires InOrder(b, pool, requests, |requests|, now, placed)
    ensures |placed| == Lesser(|Wanting(requests, |requests|)|, Capacity(pool, b.step))
  {
    CapacityIsPlaces(pool, b.step);
  }
}
