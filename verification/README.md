# Verification of the SENTRY ATM decision core

A Dafny model of the deterministic core of the air traffic control decision engine, with proofs
of what its documentation promises and, where the code does something else, proofs of what it
does. `dafny verify dfyconfig.toml` checks all of it.

The model covers six parts of the repository.

- **Landing slots.** `FinalApproach` derives the gap formula of the sequencer from the motion of
  two aircraft on final. `MaxPlus` and `SlotTimes` treat the slot recurrence as such; `Sequencing`,
  `PriorityInsertion`, `OrderSearch` and `Deconfliction` are the arrival sequencer, the insertion
  of a distressed aircraft, the constrained-position-shift search and the repair by slot pushes.
  `FlownScan` flies a schedule down the final and scans it, `StreamRepair`, `StreamCases` and
  `StreamLadder` say when the repair with this scan converges.
  `RunwayRules` and `Runway` are the mixed use of one runway.
- **Conflict geometry.** `Geometry` is the closed-form conflict window, `LevelOff` the piecewise
  one, `ClosestApproach` the test at a single instant used by the prediction layer.
- **Routes.** `Route` is the A* search, `HazardSampling` the sampled hazard test behind its edges.
- **Operator session.** `SessionCore` says what the clock, the services and the orchestrators do
  when a reset takes effect at once. `SessionSafety` proves what holds over every sequence of
  commands and clock events, `SessionTrace` reads the same off the events alone, and
  `SessionCommands` says when each command goes through. `SessionServices`, `SessionOrchestrators` and `SessionRuntime` are
  the objects as written, which notice a reset only when they are used, and their methods are
  proved to refine `SessionCore`.
- **Queues and stacks.** `ExceptionQueue` and `ExceptionQueueService` (identifiers, lifecycle,
  published order, the service object), `Holding`, `Resequencing`.
- **Rank AUC.** `RankAuc` proves the rank formula against pair counting.

`Options`, `Ordering` and `RealFacts` are shared: optional values and results, the stable sort
with its uniqueness theorem, and a few facts about products of reals.

## Reading the model

Times, distances and altitudes are exact reals; session timestamps are tick counts since the last
reset. Tables (wake, speeds, occupancy, turn rates) are functions with the sign conditions stated
where they are needed. A square root is a parameter with its defining equation. Results of
calculations that are not modelled (predictions, risk and priority evaluation, safety verdicts)
are inputs, and so is every way in which they can fail.

Python exceptions are error values. Operations of the source that update objects or run loops are
methods of classes or methods with loops, proved against functions; the theorems are lemmas about
these functions.

## Where code and documentation part company

The model follows the code. Each point names a lemma with an input that shows it and those that say
when it happens and when it cannot.

- The runway's emergency insertion is meant to avoid idling the runway. The search starts at the
  front, so it puts the distressed aircraft first whenever the clock has not passed its earliest
  time by more than 1e-6, and nowhere but last otherwise (`Runway.FirstOrNever`). In the first
  case it idles the runway exactly when something else fits in front (`Runway.RunwayIdles`,
  `Runway.EmergencyIdlesIff`). In the second the distressed aircraft is served after everybody
  (`Runway.LateEmergencyGoesLast`). `Runway.ServedAtOnceIff` says when it gets the earliest time
  it can make.
- The slot repair promises convergence. With control inside the join point a schedule that meets
  its gaps converges (`StreamRepair.MetStreamConverges`), and so does any schedule in landing order
  (`StreamRepair.InOrderStreamConverges`). The 20 rounds are enough for four aircraft that close in
  to the radar minimum (`StreamRepair.BuiltStreamConverges`) but not for five
  (`StreamLadder.FiveAreTooMany`). Where control reaches beyond the join point the repair can give
  up on two aircraft (`StreamCases.BeyondTheJoinPoint`), exactly when a violation is found before
  and after one push (`StreamRepair.TwoAircraftIff`); inside it never does
  (`StreamRepair.OnePushIsEnough`). It can give up when one aircraft overtakes another on final
  (`StreamCases.OvertakingGivesUp`).
- A push is meant to keep the schedule feasible. A push of a pair whose gap is met can schedule an
  aircraft before it can be there (`Deconfliction.PushCanBeUnflyable`,
  `Deconfliction.PushFlyableIff`).
- The scan of a schedule is meant to cover all of it. It runs for the makespan and not until the last
  landing (`StreamCases.ScanStopsEarly`, `StreamCases.LooksUntilLastIff`,
  `StreamCases.CleanThroughout`).
- The resequencer promises that stabilised aircraft are not moved. A stabilised emergency is sent
  behind the other stabilised aircraft (`Resequencing.EmergencyOnFinalLosesItsPlace`,
  `Resequencing.StabilisedEmergency`).
- An accepted candidate is applied at the tick of the decision, but its validation is always at
  least fifteen ticks older (`SessionSafety.AcceptedOnOlderValidation`,
  `SessionSafety.HumanInTheLoop`), although the comment at the contemporaneity check says that an
  unvalidated situation is ruled out.
- A step that fails after the clock has moved blocks the session until a reset
  (`SessionSafety.FailedStepIsBehind`, `SessionSafety.BehindUntilReset`).
- The sampled hazard test does not see a leg that only grazes a hazard
  (`HazardSampling.GrazingLegIsMissed`). Among full circles it is wrong exactly when all samples
  are clear and the foot of some perpendicular is not (`HazardSampling.ClearedWronglyIff`), and
  the leg then keeps the distance of `HazardSampling.ClearLegKeepsDistance`.
- The conflict window takes a very slow rate for none (`Geometry.SlowRateIsMissed`).
  `Geometry.AnswerRightIff` says when the answer is right all the same, and
  `Geometry.SlowRateMissesIff` when a slow vertical rate makes it miss a conflict. For each interval
  by itself this is `Geometry.SlowRateIff`, `ClosestApproach.SlowSpeedIff` and, on a stretch of the
  piecewise solution, `LevelOff.SlowStretchIff`.
- The piecewise solution merges across a short excursion (`LevelOff.MergeSwallowsExcursion`,
  `LevelOff.MergeSwallowsIff`), holds the altitude of an aircraft that moves away from its
  assigned one (`LevelOff.WrongWayIsHeld`), and reports nothing for a look-ahead of zero when an
  altitude is assigned (`LevelOff.NothingAtZeroLookahead`).
- The prediction layer's test at the closest approach misses pairs that close vertically
  (`ClosestApproach.ClosingVerticallyIsMissed`): exactly those whose window of violations meets the
  look-ahead without the closest approach (`ClosestApproach.MissedIffOutside`,
  `ClosestApproach.MissedIff`).

## Model

| member | source | states |
|---|---|---|
| MaxPlus.ClosedForm | src/sentry_atm/regulation/sequencing.py:354-380 | every slot time is the maximum, over the aircraft at or before it, of that aircraft's earliest time plus the gaps in between |
| MaxPlus.GreedyIsFeasible | src/sentry_atm/regulation/sequencing.py:354-380 | the greedy times respect every earliest time and every adjacent gap |
| MaxPlus.GreedyIsLeast | src/sentry_atm/regulation/sequencing.py:354-380 | no feasible times are earlier at any position |
| MaxPlus.DelayNeverGrows | src/sentry_atm/regulation/sequencing.py:354-380 | a delay injected at one slot moves nothing in front of it and never grows from one later slot to the next |
| FinalApproach.Gap | src/sentry_atm/regulation/sequencing.py:224-301 | the gap covers runway occupancy plus buffer and the larger of threshold and join constraint; the runway binds exactly when it drives |
| FinalApproach.GapKeepsDistance | src/sentry_atm/regulation/sequencing.py:224-301 | kinematics: landings that far apart keep the required distance at every instant with the rear aircraft inside the join point and the front one airborne |
| FinalApproach.GapIsExact | src/sentry_atm/regulation/sequencing.py:224-301 | and nothing less does: the distance is kept throughout if and only if the landings are at least the distance gap apart or the rear aircraft enters the join point after the front one has landed, which with a join point no nearer than the required distance is no second case |
| FinalApproach.JoinBindsIff | src/sentry_atm/regulation/sequencing.py:258-277 | the join constraint is the larger one exactly when the leader is faster, given a join point beyond the required distance (general criterion included) |
| FinalApproach.GapIsWhatItTakes | src/sentry_atm/regulation/sequencing.py:224-301 | two landings are a gap apart if and only if the leader has left the runway, with the buffer, and the two keep the radar minimum and, if there is one, the wake minimum along the whole final |
| FinalApproach.GapIsExplained | src/sentry_atm/regulation/sequencing.py:224-301 | what is said to govern a gap does: the runway when its occupancy asks for more than any distance, otherwise the larger minimum, at the join point exactly when the leader is the faster one |
| SlotTimes.TimesFeasible | src/sentry_atm/regulation/sequencing.py:342-386 | an unpinned layout meets every gap and schedules nobody before the earliest time |
| SlotTimes.LayoutIsLeast | src/sentry_atm/regulation/sequencing.py:342-386 | it is pointwise least among all such times, and each time comes from a chain of gaps that starts undelayed |
| SlotTimes.LayoutDelayNeverGrows | src/sentry_atm/regulation/sequencing.py:354-380 | in the arrival layout a later earliest time of one aircraft moves nobody in front and is passed on without growing |
| SlotTimes.MeanGapLess | src/sentry_atm/regulation/sequencing.py:101-108 | of two schedules of as many aircraft the one with the less time from first to last landing has the smaller mean gap |
| SlotTimes.InsertionKeepsGaps | src/sentry_atm/regulation/sequencing.py:435-440 | an inserted aircraft moves nobody in front of it, and every gap and earliest time holds in the new schedule |
| SlotTimes.InFrontIff | src/sentry_atm/regulation/sequencing.py:424-435 | who stays in front: exactly those landing in the baseline at or before the subject's earliest time, and the frozen prefix |
| SlotTimes.TimeInsertionWait | src/sentry_atm/regulation/sequencing.py:424-440 | unless a frozen aircraft forces it later, the inserted aircraft lands at its earliest time or waits for at most one gap |
| SlotTimes.InsertedByTime | src/sentry_atm/regulation/sequencing.py:392-440 | all of the insertion guarantees together, for any table of earliest times and gaps |
| Sequencing.LayOut | src/sentry_atm/regulation/sequencing.py:342-386 | the loop over the ordered arrivals, with pins, computes the slots of the recurrence |
| Sequencing.LayoutTimes | src/sentry_atm/regulation/sequencing.py:342-386 | callsigns in order, times those of the recurrence over the sequencer's own earliest times and gaps |
| Sequencing.SlotSays | src/sentry_atm/regulation/sequencing.py:342-386 | what a slot says: place, earliest time, rung of the ladder or the top one while it holds above, and the gap behind the slot in front, which an unpinned time keeps |
| Sequencing.InOrderSorted | src/sentry_atm/regulation/sequencing.py:307-319 | the landing order: distressed aircraft in front of all others, and among equally distressed ones nobody in front of one that could land sooner |
| Sequencing.TiesKeepOrder | src/sentry_atm/regulation/sequencing.py:307-319 | aircraft that tie keep the order they were given |
| Sequencing.EarliestIff | src/sentry_atm/regulation/sequencing.py:205-222 | the earliest time is the first at which the aircraft can land: from outside the join point with the present ground speed to that point and the final speed from there, from inside it with the final speed over what is left |
| Sequencing.Build | src/sentry_atm/regulation/sequencing.py:307-319 | first come, first served with distress first, laid out without pins |
| Sequencing.BuildUnsequenced | src/sentry_atm/regulation/sequencing.py:321-340 | the same order with everybody pinned to the own earliest time |
| Sequencing.SeparatedOnFinal | src/sentry_atm/regulation/sequencing.py:342-386 | any two aircraft of a schedule that meets its gaps, adjacent or not, are apart on final by at least the sum of the distances required between them, at every instant |
| Sequencing.BuildIsSafe | src/sentry_atm/regulation/sequencing.py:307-319 | a built schedule: ordered, all gaps met, nobody before it can land given its speeds and distances, least among all such times, every pair separated along the whole final |
| PriorityInsertion.FrozenPrefix | src/sentry_atm/regulation/sequencing.py:427-434 | one past the last baseline aircraft within the freeze distance, 0 if there is none |
| PriorityInsertion.InsertPriority | src/sentry_atm/regulation/sequencing.py:392-440 | an insertion results exactly for a known callsign |
| PriorityInsertion.InputsAre | src/sentry_atm/regulation/sequencing.py:409-434 | what is inserted where: the distressed aircraft marked as such, into all others in landing order, with as many of them frozen as the distance asked for or that of the tables says |
| PriorityInsertion.InsertionByTime | src/sentry_atm/regulation/sequencing.py:392-440 | insertion by time: gaps hold, those in front keep their exact times, the order of the others is kept, the distressed aircraft waits at most one gap |
| PriorityInsertion.InsertionIsSafe | src/sentry_atm/regulation/sequencing.py:392-440 | separation along the whole final holds after the insertion |
| OrderSearch.SteepestSwap | src/sentry_atm/regulation/sequencing.py:607-617 | the inner loop finds the steepest permitted swap |
| OrderSearch.SearchOrder | src/sentry_atm/regulation/sequencing.py:588-622 | the stages of widening limits, one local search after the other |
| OrderSearch.OptimizeOrder | src/sentry_atm/regulation/sequencing.py:557-634 | the search on the sequencer's own times, its baseline and all of its reported figures |
| OrderSearch.BestSwapIsBest | src/sentry_atm/regulation/sequencing.py:607-617 | the swap found is the first permitted one that gains most, by more than 1e-6; none is found exactly when none gains more than 1e-6 |
| OrderSearch.PermittedIff | src/sentry_atm/regulation/sequencing.py:601-613 | a swap is permitted exactly if it moves no emergency and leaves everybody within the limit of the place in the first-come-first-served order |
| OrderSearch.RoundsAre | src/sentry_atm/regulation/sequencing.py:599-621 | the count of rounds: one for every swap made and one at each limit that finds none, until the budget is used up |
| OrderSearch.CompletionIs | src/sentry_atm/regulation/sequencing.py:537-540 | the completion searched for is the last landing of the schedule of that order, and nobody lands later |
| OrderSearch.SearchKeeps | src/sentry_atm/regulation/sequencing.py:599-621 | at every limit: a permutation within the limit, emergencies at their exact index, completion down by more than 1e-6 per swap made |
| OrderSearch.WiderIsNoWorse | src/sentry_atm/regulation/sequencing.py:593-599 | two runs: a wider limit never ends with a later completion |
| OrderSearch.StageEndsAtOptimum | src/sentry_atm/regulation/sequencing.py:601-621 | with iterations to spare no permitted adjacent swap gains more than 1e-6 |
| OrderSearch.SearchPromises | src/sentry_atm/regulation/sequencing.py:557-634 | all of the promises together, for every limit and every iteration budget |
| OrderSearch.MeanGapNeverGrows | src/sentry_atm/regulation/sequencing.py:624-634 | the mean gap is never larger than the baseline's, although the search looks at the completion only |
| OrderSearch.ProblemUnique | src/sentry_atm/regulation/sequencing.py:577-584 | unique callsigns are all the search needs from its input |
| Deconfliction.PushAt | src/sentry_atm/regulation/resolution.py:461-480 | what one push does to every slot: pins in front, 1.05 gaps behind the predecessor, the rest laid out again |
| Deconfliction.WhoIsPushed | src/sentry_atm/regulation/resolution.py:461-466 | of two known callsigns the one later in the order is pushed; next to an unknown one the other, unless that is the very first and named first |
| Deconfliction.PushReducesIff | src/sentry_atm/regulation/resolution.py:461-480 | a push never adds unmet adjacent gaps, and reduces them exactly when one from the pushed aircraft on is unmet |
| Deconfliction.PushIdempotent | src/sentry_atm/regulation/resolution.py:461-480 | a second push of the same aircraft changes nothing |
| Deconfliction.PushFlyableIff | src/sentry_atm/regulation/resolution.py:473-480 | a push keeps every time at or after its earliest exactly when the pushed aircraft is put at or after its own |
| Deconfliction.UnmetPushIsFlyable | src/sentry_atm/regulation/resolution.py:473-480 | an unmet gap is enough for that |
| Deconfliction.PushCanBeUnflyable | src/sentry_atm/regulation/resolution.py:473-480 | with a gap that is already met a push asks for a time the aircraft cannot make |
| Deconfliction.DeconflictArrivalStream | src/sentry_atm/regulation/resolution.py:361-394 | the loop of scanning and pushing, with its limit on rounds |
| Deconfliction.RepairConverges | src/sentry_atm/regulation/resolution.py:381-394 | for any scan that reports unmet gaps only: with fewer unmet gaps than rounds the repair ends clean after at most that many pushes, nobody early |
| Deconfliction.RepairSettles | src/sentry_atm/regulation/resolution.py:381-394 | for any scan that reports only aircraft without spare behind their predecessor: fewer than 2^h pushes, h being the positions that can be reported |
| Deconfliction.OnePairIff | src/sentry_atm/regulation/resolution.py:381-394 | for any scan that reports one aircraft only: the repair gives up, whatever the rounds, exactly when something is reported before and after its push |
| Deconfliction.LostDistanceIsUnmetGap | src/sentry_atm/regulation/resolution.py:396-426 | adjacent aircraft that lose the required distance on final have an unmet gap, which is what the repair needs to be told |
| FlownScan.LineReport | src/sentry_atm/regulation/conflict.py:149-177 | what a radar finding between two aircraft on the final means: within the vertical minimum on the glide path, and within the radar minimum before the first landing or from then on |
| FlownScan.WakeIsApplied | src/sentry_atm/regulation/rules.py:182-225 | the wake test, from the tables: a follower less than the clearance below its leader is found exactly when it is closer than the whole wake minimum, one that far below exactly when it is closer than the landing minimum |
| FlownScan.AboveOnGlidePath | src/sentry_atm/regulation/rules.py:242-255 | a follower behind its leader on the glide path is never that far below, so that the whole minimum applies |
| StreamRepair.RadarFoundIff | src/sentry_atm/regulation/conflict.py:149-177 | the radar test, exactly: both in the air and under control, within the vertical minimum on the glide path, and within the radar minimum at an instant up to the first landing and the end of the look-ahead, or from then on |
| StreamRepair.RadarUrgency | src/sentry_atm/regulation/conflict.py:149-177 | what is said of a pair found: active exactly if within the minimum from now on, otherwise not so until the wait is over and so from then on |
| FlownScan.ScanFinal | src/sentry_atm/regulation/conflict.py:205-266 | the loops over pairs and over neighbours, most urgent first |
| FlownScan.FindingsAre | src/sentry_atm/regulation/conflict.py:205-266 | they list exactly the pairs the radar and the wake test find |
| FlownScan.MostUrgentFirst | src/sentry_atm/regulation/conflict.py:205-266 | at one instant active violations come first, and among equally active ones the shorter wait |
| FlownScan.ScanSchedule | src/sentry_atm/regulation/resolution.py:396-427 | the loop over the instants of the flown schedule, each pair once |
| FlownScan.ScanReports | src/sentry_atm/regulation/resolution.py:396-427 | whatever either test finds at an instant looked at is in the list, as a pair of callsigns |
| FlownScan.ShortOfWakeIsReported | src/sentry_atm/regulation/resolution.py:396-427 | in particular a pair closer than its wake minimum there is in the list |
| FlownScan.ScanListsOnly | src/sentry_atm/regulation/resolution.py:396-427 | the list holds only what is found at such an instant, and no pair twice |
| StreamRepair.MetReport | src/sentry_atm/regulation/resolution.py:396-459 | in a schedule that meets its gaps, with control inside the join point, only neighbours whose distance shrinks to exactly the radar minimum when the front one lands are found |
| StreamRepair.MetStreamConverges | src/sentry_atm/regulation/resolution.py:361-394 | flown as the code flies it, such a schedule is repaired within fewer than 2^h pushes, h of its aircraft closing in to the radar minimum, and still meets every gap, nobody early |
| StreamRepair.BuiltStreamConverges | src/sentry_atm/regulation/resolution.py:361-394 | called as it is by default, from the built schedule with 20 rounds, it converges for up to four such aircraft |
| StreamLadder.FiveAreTooMany | src/sentry_atm/regulation/resolution.py:361-394 | and not in general for five: a built stream of six, control inside the join point, for which neither 20 rounds nor 31 do |
| StreamRepair.InOrderReport | src/sentry_atm/regulation/resolution.py:396-459 | in any stream in landing order, gaps met or not, what is found has no spare behind its own predecessor |
| StreamRepair.InOrderStreamConverges | src/sentry_atm/regulation/resolution.py:361-394 | any schedule in which nobody is early or overtaken inside the join point is repaired within fewer than 2^(n - 1) pushes |
| StreamRepair.UnsequencedStreamConverges | src/sentry_atm/regulation/resolution.py:361-394 | so is the unsequenced baseline of up to five aircraft, within the 20 rounds |
| StreamRepair.TwoAircraftIff | src/sentry_atm/regulation/resolution.py:361-394 | two aircraft, wherever control reaches: the repair gives up exactly when flying the schedule shows a violation before and after one push |
| StreamRepair.OnePushIsEnough | src/sentry_atm/regulation/resolution.py:461-480 | with control inside the join point that never happens: after one push the schedule of two aircraft is clean |
| StreamCases.BeyondTheJoinPoint | src/sentry_atm/regulation/resolution.py:361-394 | control beyond the join point: a built schedule of two aircraft is pushed to the same times in every round |
| StreamCases.OvertakingGivesUp | src/sentry_atm/regulation/resolution.py:361-394 | overtaking inside the join point: the last of three aircraft is pushed to the time it already has in every round |
| StreamCases.ScanStopsEarly | src/sentry_atm/regulation/resolution.py:415-417 | two aircraft that meet at the same point of the final are passed, because the scan stops before they are under control |
| StreamCases.LooksUntilLastIff | src/sentry_atm/regulation/resolution.py:415-426 | the scan looks at every instant before the last landing if and only if the first instant it leaves out is no earlier |
| StreamCases.CleanThroughout | src/sentry_atm/regulation/resolution.py:415-426 | in that case a clean scan means that no instant has a finding |
| RunwayRules.RequirementIsExact | src/sentry_atm/regulation/runway.py:140-198 | for each of the four successions, with the distances of the Notice by pair of categories: a follower that waits at least the requirement finds the runway vacated, or rolled clear by the leader over the required distance with the wake interval passed, and one that waits less does not |
| RunwayRules.RollIsExact | src/sentry_atm/regulation/runway.py:110-120 | the time to roll is exactly when the distance, or the whole runway, is behind the aircraft |
| RunwayRules.RollIsConservative | src/sentry_atm/regulation/runway.py:110-120 | constant acceleration errs on the safe side, and the share of the roll time squared is the share of the runway |
| Runway.RulesNonNegative | src/sentry_atm/regulation/runway.py:140-198 | the rules of the Notice are a table the sequencer can use |
| Runway.LayOut | src/sentry_atm/regulation/runway.py:278-291 | the loop over operations computes the slots with their requirements |
| Runway.RunwayLayoutIsLeast | src/sentry_atm/regulation/runway.py:278-291 | the layout is the least one that respects the clock, readiness and requirements, and each time comes from a chain of requirements |
| Runway.RunwayDelayNeverGrows | src/sentry_atm/regulation/runway.py:278-291 | a later readiness never delays the queue behind it by more, position by position |
| Runway.FirstComeFirstServed | src/sentry_atm/regulation/runway.py:293-297 | operations by readiness, laid out |
| Runway.ReadinessOrder | src/sentry_atm/regulation/runway.py:293-297 | nobody in front of one that is ready sooner, and of those ready at the same time the one named first in front |
| Runway.InsertEmergency | src/sentry_atm/regulation/runway.py:299-315 | the search over positions and its result in closed form: first with the rest by readiness when the clock allows, last otherwise, an error for an unknown callsign |
| Runway.EverybodyIsServed | src/sentry_atm/regulation/runway.py:299-315 | the schedule with the distressed aircraft serves everybody, each once, and the others by readiness; there is one exactly for a known callsign |
| Runway.FirstOrNever | src/sentry_atm/regulation/runway.py:309-315 | the time test succeeds at the front exactly when the clock has not passed the earliest time by more than 1e-6, and otherwise nowhere |
| Runway.EmergencyIdlesIff | src/sentry_atm/regulation/runway.py:299-315 | against the intention: the runway is left idle in front of the distressed aircraft if and only if some other operation fits there |
| Runway.FitsIff | src/sentry_atm/regulation/runway.py:309-315 | fitting in front means that, with both scheduled and the other one first, the distressed aircraft is on time |
| Runway.RunwayIdles | src/sentry_atm/regulation/runway.py:299-315 | two arrivals that could both land at their earliest times: the ready one waits for the one in distress, a quarter of an hour |
| Runway.LateEmergencyGoesLast | src/sentry_atm/regulation/runway.py:309-315 | the graver half: once the clock has passed its earliest time by more than 1e-6 the distressed aircraft is put last and served after everybody, though at the front it would be served now |
| Runway.ServedNowIff | src/sentry_atm/regulation/runway.py:278-291 | an operation is served at once exactly when no chain of requirements leading to it reaches past the present |
| Runway.ServedAtOnceIff | src/sentry_atm/regulation/runway.py:299-315 | the distressed aircraft is served at the earliest time it can be if and only if the clock has not passed that time by more than 1e-6 or no chain of requirements through those in front of it reaches past the present |
| Runway.EverybodyWaits | src/sentry_atm/regulation/runway.py:309-315 | with the distressed aircraft first nobody is served before its earliest time |
| Geometry.HorizontalExact | src/sentry_atm/regulation/geometry.py:78-102 | the horizontal interval is exactly the set of times below the horizontal minimum, for the speed the zero test lets pass |
| Geometry.VerticalExact | src/sentry_atm/regulation/geometry.py:105-119 | the vertical interval is exactly the set of times inside the altitude band, for the rate the zero test lets pass |
| Geometry.CpaIsClosest | src/sentry_atm/regulation/geometry.py:174-193 | no time has a smaller horizontal distance than the closest point of approach, for the speed the zero test lets pass; without motion it is the present |
| Geometry.DetectExact | src/sentry_atm/regulation/geometry.py:196-234 | for every state, as the zero tests see it: a window is exactly the set of violating times; without one no time of the look-ahead violates |
| Geometry.DetectIff | src/sentry_atm/regulation/geometry.py:196-234 | for every state, as the zero tests see it: a window is reported if and only if some time of the look-ahead violates both minima, or a violation starts exactly at its end |
| Geometry.SeenIff | src/sentry_atm/regulation/geometry.py:89-97 | the zero tests see the state as it is exactly when speed and vertical rate are zero or pass them |
| Geometry.TrueWindowExact | src/sentry_atm/regulation/geometry.py:78-119 | the same closed form with zero tests at exactly zero is the set of violating times, whatever the rates |
| Geometry.MeetsIff | src/sentry_atm/regulation/geometry.py:215-226 | some instant of the look-ahead violates both minima exactly when that window meets it |
| Geometry.SlowRateIff | src/sentry_atm/regulation/geometry.py:111-115 | the vertical interval of a rate lost in the zero test is right over the whole look-ahead if and only if both its ends are inside the band, both above it or both below it |
| Geometry.AnswerRightIff | src/sentry_atm/regulation/geometry.py:196-234 | for all rates: the answer of the whole test is right exactly when the window of the state and that of the state as the zero tests see it both meet the look-ahead or both do not |
| Geometry.SlowRateMissesIff | src/sentry_atm/regulation/geometry.py:196-234 | a slow vertical rate makes the whole test miss a conflict exactly when the pair is outside the band now and its window of violations meets the look-ahead |
| ClosestApproach.SlowSpeedIff | src/sentry_atm/regulation/geometry.py:94-97 | the horizontal interval of a speed lost in the zero test is right over the whole look-ahead if and only if the pair is within the minimum at both ends, or outside it now and at the closest approach |
| Geometry.SlowRateIsMissed | src/sentry_atm/regulation/geometry.py:111-115 | an instance: a closing rate below the zero test is taken for level flight and its violation is missed |
| LevelOff.LinearPiece | src/sentry_atm/regulation/state.py:81-102 | between level-offs the altitude is linear |
| LevelOff.FliesToTarget | src/sentry_atm/regulation/state.py:93-105 | the profile as flown: at the vertical rate until the assigned altitude it leads to is reached, level from then on |
| LevelOff.LevelOffTimeIs | src/sentry_atm/regulation/state.py:82-91 | the level-off time: at once at the assigned altitude, when the rate has closed the difference if it leads there, none otherwise |
| LevelOff.WrongWayIsHeld | src/sentry_atm/regulation/state.py:81-102 | an aircraft with an assigned altitude is taken to hold its altitude exactly when its rate is zero or does not lead there |
| LevelOff.Breakpoints | src/sentry_atm/regulation/geometry.py:122-130 | the breakpoints ascend from 0 to the horizon and nobody levels off strictly between two of them |
| LevelOff.PieceExact | src/sentry_atm/regulation/geometry.py:144-162 | each piece is exact up to its ends, for the rate the zero test lets pass |
| LevelOff.SlowStretchIff | src/sentry_atm/regulation/geometry.py:144-154 | a stretch whose rate is lost in the zero test is judged right throughout if and only if both its ends are on the same side of the band |
| LevelOff.VerticalIntervals | src/sentry_atm/regulation/geometry.py:133-171 | the loop over the pieces and the merging of neighbours |
| LevelOff.MergeSound | src/sentry_atm/regulation/geometry.py:133-171 | the merged intervals cover the whole band, as the zero tests see it, and, next to breakpoints apart, nothing else |
| LevelOff.PairConflict | src/sentry_atm/regulation/geometry.py:237-275 | the choice between straight and piecewise solution and of the earliest overlap |
| LevelOff.EarliestIsEarliest | src/sentry_atm/regulation/geometry.py:259-267 | the overlap chosen is a candidate and none starts before it |
| LevelOff.NothingIsMissed | src/sentry_atm/regulation/geometry.py:237-275 | every time of the look-ahead that violates both minima, level-off included, has a window that starts no later: for every pair as the zero tests see it and for the pair itself when they lose nothing, a look-ahead of zero with an assigned altitude apart |
| LevelOff.SeenIsReal | src/sentry_atm/regulation/geometry.py:237-275 | what the zero tests see of a pair is what happens when its rates pass them or are zero |
| LevelOff.NothingAtZeroLookahead | src/sentry_atm/regulation/geometry.py:122-146 | with an assigned altitude a look-ahead of zero is no stretch at all and never gives a window |
| LevelOff.WindowIsViolation | src/sentry_atm/regulation/geometry.py:237-275 | every time strictly inside a window violates both minima, as the zero tests see it, or is within the merge tolerance of a breakpoint |
| LevelOff.MergeSwallowsIff | src/sentry_atm/regulation/geometry.py:164-171 | merging swallows no time outside the band if and only if neighbouring pieces are further apart than the tolerance or meet at a time in the band |
| LevelOff.PiecewiseAgrees | src/sentry_atm/regulation/geometry.py:237-275 | without a level-off in the look-ahead the piecewise solution is the straight one cut to it |
| LevelOff.MergeSwallowsExcursion | src/sentry_atm/regulation/geometry.py:164-171 | instances: an excursion out of the band shorter than the merge tolerance is swallowed |
| ClosestApproach.TcpaIsClosest | src/sentry_atm/conflict/closest_approach.py:100-144 | no instant of the look-ahead has a smaller horizontal distance than the clamped closest approach |
| ClosestApproach.PredictedIsViolation | src/sentry_atm/domain/conflict.py:122-135 | PREDICTED means both minima are violated at the closest approach |
| ClosestApproach.PredictedIsDetected | src/sentry_atm/conflict/closest_approach.py:100-144 | whatever is PREDICTED the window test finds, at or before the closest approach, unless a zero test hides the violation at the closest approach itself |
| ClosestApproach.MissedIffOutside | src/sentry_atm/conflict/closest_approach.py:100-144 | for all rates: a pair that violates both minima within the look-ahead is called SAFE exactly when the window of violations meets the look-ahead and does not contain the closest approach |
| ClosestApproach.MissedIff | src/sentry_atm/conflict/closest_approach.py:100-144 | the same in terms of the window test, when the zero tests lose nothing |
| ClosestApproach.LevelPairIff | src/sentry_atm/conflict/closest_approach.py:100-144 | without relative vertical speed PREDICTED holds if and only if some instant of the look-ahead violates both minima |
| ClosestApproach.ClosingVerticallyIsMissed | src/sentry_atm/conflict/closest_approach.py:100-144 | an instance: SAFE at the closest approach, in violation later |
| Route.EdgeIff | src/sentry_atm/regulation/route.py:212-222 | the legs the search looks at are those to another published fix, from a millionth of a mile to the permitted length, clear of every hazard |
| Route.PopMin | src/sentry_atm/regulation/route.py:228-231 | the heap gives up an entry none is below, and keeps the rest |
| Route.ExpandedIsFinal | src/sentry_atm/regulation/route.py:226-240 | with a consistent estimate an expanded node cannot be improved: never reopening loses nothing |
| Route.RelaxKeeps | src/sentry_atm/regulation/route.py:235-240 | relaxing an edge keeps costs, predecessors and heap consistent |
| Route.Expand | src/sentry_atm/regulation/route.py:235-240 | all neighbours of the expanded node are relaxed |
| Route.PoppedGoalIsNearOptimal | src/sentry_atm/regulation/route.py:228-240 | when the goal is popped its cost exceeds no path by more than 1e-9 per leg |
| Route.ExhaustedMeansNoPath | src/sentry_atm/regulation/route.py:228-243 | an exhausted heap means that an unexpanded goal has no path |
| Route.Search | src/sentry_atm/regulation/route.py:224-243 | the search loop: found with a near-optimal cost, or no path exists |
| Route.WalkBack | src/sentry_atm/regulation/route.py:245-248 | the walk along the predecessors ends at the start and is a path of the recorded cost |
| Route.PlanRoute | src/sentry_atm/regulation/route.py:179-260 | planning: an error for an unknown fix, the direct leg if unblocked, otherwise refusal exactly when no chain of flyable legs exists, and else such a chain, not shorter than the straight line and near-optimal |
| Route.Recover | src/sentry_atm/regulation/route.py:277-297 | recovery: no route exactly when no entry is reachable; no chain to any entry is shorter up to the tolerance, and no unblocked direct leg is shorter |
| HazardSampling.SmallestRadius | src/sentry_atm/regulation/route.py:82-93 | the smallest circle among the permanent hazards |
| HazardSampling.OutsideIff | src/sentry_atm/regulation/sector.py:70-109 | a point is outside a volume exactly below or above its band, closer to the centre than the inner radius, farther than the radius, or outside the polygon |
| HazardSampling.StretchesAre | src/sentry_atm/regulation/route.py:161-168 | the leg is cut into one stretch more than it takes to stay within the sample distance, and into two at least |
| HazardSampling.SamplesAre | src/sentry_atm/regulation/route.py:167-170 | the samples run from one end of the leg to the other, evenly spaced |
| HazardSampling.SampleDistanceIs | src/sentry_atm/regulation/route.py:80-93 | the sample distance is half the radius of the smallest permanent circle, 0.35 NM without one |
| HazardSampling.Blocking | src/sentry_atm/regulation/route.py:148-173 | the sampling loops: `None` exactly when every sample is outside every active volume, by band and shape; otherwise the first volume holding the first sample held by any; a leg above or below every band is never blocked |
| HazardSampling.ClearLegKeepsDistance | src/sentry_atm/regulation/route.py:148-173 | a leg the test clears never comes closer to the centre of an active circle than sqrt(15)/4 of its radius |
| HazardSampling.HazardsAreCovered | src/sentry_atm/regulation/route.py:82-93 | the sample distance is at most half the radius of every permanent circle |
| HazardSampling.FootIsNearest | src/sentry_atm/regulation/route.py:148-173 | no point of a leg is nearer to a centre than the foot of the perpendicular from it, clamped to the leg |
| HazardSampling.EntersIff | src/sentry_atm/regulation/route.py:148-173 | a leg enters a full circle if and only if that foot is in it |
| HazardSampling.ClearedWronglyIff | src/sentry_atm/regulation/route.py:161-173 | among full circles the test is wrong about a leg if and only if every sample is clear and some foot lies in its circle; a leg it reports always enters one |
| HazardSampling.GrazingLegIsMissed | src/sentry_atm/regulation/route.py:161-173 | an instance: a leg that cuts through a hazard between two samples and is cleared |
| RankAuc.Ranks | src/sentry_atm/regulation/mbe.py:148-160 | the nested loops give every entry the mid-rank of its score |
| RankAuc.MidRankOfBlock | src/sentry_atm/regulation/mbe.py:153-160 | the mean position of a block of ties is the count below plus half the ties, plus one half |
| RankAuc.RankSumIsWins | src/sentry_atm/regulation/mbe.py:161-167 | the rank sum of the positives less its least value is the number of pairs in the right order plus half the tied ones |
| RankAuc.RocAuc | src/sentry_atm/regulation/mbe.py:148-167 | the rank formula equals naive pair counting, normalised; 0.5 without two classes |
| RankAuc.OrderDoesNotMatter | src/sentry_atm/regulation/mbe.py:148-167 | the area does not depend on the order of the inputs |
| ExceptionQueue.DecimalInjective | src/sentry_atm/exception_queue/service.py:229-231 | decimal length prefixes determine the length |
| ExceptionQueue.IdsAreInjective | src/sentry_atm/exception_queue/service.py:229-235 | two sources share an identifier only if they are about the same subject, whatever the aircraft are called |
| ExceptionQueue.UpdateSucceeds | src/sentry_atm/exception_queue/service.py:163-218 | with the invariant no update can fail: neither the kind collision nor the item time check is reachable |
| ExceptionQueue.ApplyPointwise | src/sentry_atm/exception_queue/service.py:70-92 | a refresh gives each subject the update of its own old item and leaves the others |
| ExceptionQueue.RefreshKeeps | src/sentry_atm/exception_queue/service.py:52-92 | a refresh keeps opened <= evaluated <= updated <= generated, moves every status legally, leaves omitted subjects alone, and fails only for reasons the caller can see |
| ExceptionQueue.AcknowledgeKeeps | src/sentry_atm/exception_queue/service.py:94-129 | acknowledging fails exactly when time runs back, the item is unknown or it is resolved, each with its own error, and otherwise changes only that item |
| ExceptionQueue.RefreshAssesses | src/sentry_atm/exception_queue/service.py:163-218 | each assessed subject gets the item its level calls for: open with the new opening time if it had none or a resolved one, with its status and opening time kept otherwise, resolved for LOW and ROUTINE if it had one |
| ExceptionQueue.ShownIff | src/sentry_atm/exception_queue/service.py:70-92 | after a refresh a subject needs a controller exactly if its assessment is a MEDIUM, HIGH or CRITICAL risk or an ATTENTION, URGENT or EMERGENCY priority; it has an item exactly if so or if it had one before |
| ExceptionQueue.RefusedIff | src/sentry_atm/exception_queue/service.py:52-69 | a refresh is refused exactly for an earlier time, an assessment of another time, two assessments with one identifier or of one subject, or an item that is kept and shares its assessment identifier with one that is made, the first of these being reported |
| ExceptionQueue.RefreshForgetsOrder | src/sentry_atm/exception_queue/service.py:65-92 | the result of a refresh, success or failure, does not depend on the order of its sources |
| ExceptionQueue.SubjectsAreIds | src/sentry_atm/exception_queue/service.py:257-262 | unique subjects are unique identifiers |
| ExceptionQueue.RunKeeps | src/sentry_atm/exception_queue/service.py:52-160 | over every run of refresh, acknowledge and reset: the invariant, legal moves only, time and revision never back except by a reset |
| ExceptionQueueService.PolicyIsTotalOrder | src/sentry_atm/domain/exception_queue.py:179-193 | the sort key is a total order in which only equal identifiers tie |
| ExceptionQueueService.PublishedIsUnique | src/sentry_atm/domain/exception_queue.py:195-202 | the published order is a function of the items, not of how they are listed |
| ExceptionQueueService.TopIsMostSevere | src/sentry_atm/domain/exception_queue.py:259-265 | unresolved items come first and the first has the least rank of all unresolved ones |
| ExceptionQueueService.PublishedOrder | src/sentry_atm/domain/exception_queue.py:161-193 | to be listed before another item: unresolved before resolved, by the rank of its level, then open before acknowledged, risks by the time to the closest approach and before priorities, the higher score, the identifier |
| ExceptionQueueService.DeliveredOrder | src/sentry_atm/domain/exception_queue.py:205-214 | with the delivered policy: emergencies, critical risks, urgent priorities, high risks, priorities for attention, medium risks |
| ExceptionQueueService.BatchesRefine | src/sentry_atm/exception_queue/service.py:71-92 | sorting and applying each kind by itself gives what the refresh is specified to give |
| ExceptionQueueService.SubjectsByKind | src/sentry_atm/exception_queue/service.py:257-262 | the checks of pairs and of aircraft together say that all identifiers differ |
| ExceptionQueueService.Service.constructor | src/sentry_atm/exception_queue/service.py:25-37 | the service starts empty |
| ExceptionQueueService.Service.CurrentItems | src/sentry_atm/exception_queue/service.py:42-46 | the current items in policy order |
| ExceptionQueueService.Service.Commit | src/sentry_atm/exception_queue/service.py:144-160 | all checks of the snapshot pass and everything is replaced, or nothing changes |
| ExceptionQueueService.Service.Refresh | src/sentry_atm/exception_queue/service.py:52-92 | the new state is the specified one and the snapshot shows it; a failing call changes nothing |
| ExceptionQueueService.Service.Acknowledge | src/sentry_atm/exception_queue/service.py:94-129 | the same for acknowledging |
| ExceptionQueueService.Service.Reset | src/sentry_atm/exception_queue/service.py:131-136 | the initial state |
| Holding.LevelsAreAllThatFit | src/sentry_atm/regulation/hold.py:67-78 | the k-th step above the published altitude is a level exactly when it is within the published limit; without a limit there is one level |
| Holding.LevelsFt | src/sentry_atm/regulation/hold.py:67-78 | the loop that lists the levels |
| Holding.LeastCircuits | src/sentry_atm/regulation/hold.py:211-213 | the circuits assigned are the least whole number that covers the need |
| Holding.CircuitIs | src/sentry_atm/regulation/hold.py:51-65 | a circuit is two legs at the lesser of the own and the permitted speed and two turns by 180 degrees at the rate of turn for that speed |
| Holding.PlaceOne | src/sentry_atm/regulation/hold.py:253-260 | the first pattern of the pool with a free level takes the aircraft |
| Holding.Fill | src/sentry_atm/regulation/hold.py:252-265 | the k-th request that needs time gets the k-th place of the pool, lowest level first, while places last; the others are refused in order |
| Holding.Stack | src/sentry_atm/regulation/hold.py:233-266 | the same for the chosen pool, with an error exactly for an unknown fix |
| Holding.StackIsSeparated | src/sentry_atm/regulation/hold.py:233-266 | no two placements share a fix and a level, every level is published, every delay is the least covering one, and further clearance is announced for its end exactly if it is long enough |
| Holding.StackPartitions | src/sentry_atm/regulation/hold.py:233-266 | placed and refused partition the requests |
| Holding.PlacedUpToCapacity | src/sentry_atm/regulation/hold.py:224-231 | as many are placed as need time, up to the capacity |
| Holding.CapacityIsPlaces | src/sentry_atm/regulation/hold.py:224-231 | the capacity is the number of places |
| Resequencing.KeyIsTotal | src/sentry_atm/runtime/resequencing_orchestrator.py:50-55 | phase rank, time to the airport and identifier order the stream totally |
| Resequencing.Arriving | src/sentry_atm/runtime/resequencing_orchestrator.py:80-87 | the arrival stream holds the approaching aircraft and the emergency |
| Resequencing.BaselineShape | src/sentry_atm/runtime/resequencing_orchestrator.py:89-94 | the baseline is a rearrangement ordered by phase (final, approach, descent, the rest), time to the airport and identifier, the stabilised aircraft in front |
| Resequencing.InsertEmergency | src/sentry_atm/runtime/resequencing_orchestrator.py:153-174 | the counting loop and the insertion behind the leading stabilised aircraft |
| Resequencing.OthersKeepOrder | src/sentry_atm/runtime/resequencing_orchestrator.py:153-174 | the recommended order is a permutation that keeps the others in their relative order |
| Resequencing.UnstabilisedEmergency | src/sentry_atm/runtime/resequencing_orchestrator.py:89-102 | an emergency not yet stabilised: the stabilised keep their places, it never moves back, and the displaced are exactly the contiguous block it passes, shifted by one |
| Resequencing.StabilisedEmergency | src/sentry_atm/runtime/resequencing_orchestrator.py:153-174 | a stabilised emergency loses its place exactly when a stabilised aircraft is behind it |
| Resequencing.EmergencyOnFinalLosesItsPlace | src/sentry_atm/runtime/resequencing_orchestrator.py:165-174 | an instance: first on final, recommended second |
| SessionSafety.StepKeeps | src/sentry_atm/runtime/orchestrator.py:60-113 | a step moves the clock by what was asked and touches only clock, slot, queue and its own result |
| SessionSafety.ResolveKeeps | src/sentry_atm/runtime/resolution_orchestrator.py:80-145 | a published set holds only SAFE options validated on the evidence of the same step; a failing resolution changes nothing |
| SessionSafety.DecideKeeps | src/sentry_atm/runtime/decision_orchestrator.py:84-148 | a decision takes the primary option, is the only audit entry and is at least fifteen ticks younger than the validation; a failing one changes nothing |
| SessionSafety.RevalidateKeeps | src/sentry_atm/runtime/modified_revalidation_orchestrator.py:82-168 | a revalidation is of the modified maneuver of the current decision at the same tick |
| SessionSafety.ApplyKeeps | src/sentry_atm/simulation/synthetic.py:109-130 | an application anchors at most once per aircraft and instant |
| SessionSafety.ApplyApprovedKeeps | src/sentry_atm/runtime/application_orchestrator.py:83-194 | applying an accepted candidate keeps the invariant even when the reassessment fails after the anchor |
| SessionSafety.ApplyModifiedKeeps | src/sentry_atm/runtime/modified_application_orchestrator.py:98-196 | the same for a modified maneuver |
| SessionSafety.ExecuteKeeps | src/sentry_atm/runtime/session.py:125-230 | every command keeps the invariant |
| SessionSafety.RunKeeps | src/sentry_atm/runtime/session.py:125-230 | so does every sequence of commands and clock events |
| SessionSafety.HumanInTheLoop | src/sentry_atm/runtime/session.py:125-230 | between resets at most one decision and one anchor; the anchor carries out that decision at its tick, after ACCEPT the SAFE candidate, after MODIFY a maneuver revalidated SAFE at the same tick, after REJECT none |
| SessionSafety.RunsExtend | src/sentry_atm/runtime/session.py:193-230 | records only grow, a decision is final, and only the explicit command to apply an earlier decision anchors |
| SessionSafety.SuccessArrives | src/sentry_atm/api/session.py:608-641 | every command that succeeds leads to its stage |
| SessionSafety.NoWayBack | src/sentry_atm/api/session.py:608-641 | without a reset the session never falls back to an earlier stage, whatever succeeds or fails |
| SessionSafety.AppliesIff | src/sentry_atm/runtime/application_orchestrator.py:83-137 | an accepted candidate is applied exactly at the tick of its decision, on a running clock, with nothing anchored yet; the other checks cannot fail |
| SessionSafety.ModifiedAppliesIff | src/sentry_atm/runtime/modified_application_orchestrator.py:98-142 | the same for a modified maneuver found SAFE |
| SessionSafety.RefusedChangesNothing | src/sentry_atm/runtime/session.py:148-192 | a command refused for its inputs or its stage changes nothing |
| SessionSafety.BehindUntilReset | src/sentry_atm/runtime/session.py:155-177 | evidence behind the clock stays behind through every command and clock event but a reset, and nothing but the clock changes |
| SessionSafety.RefusedWhileBehind | src/sentry_atm/runtime/session.py:155-177 | the operator's commands alone are refused without any effect |
| SessionSafety.FailedStepIsBehind | src/sentry_atm/runtime/orchestrator.py:69-113 | a failed step leaves the evidence behind the clock exactly when it moved the clock |
| SessionSafety.DecisionExpires | src/sentry_atm/runtime/application_orchestrator.py:104-111 | a decision not carried out at its own tick never is |
| SessionSafety.AcceptedOnOlderValidation | src/sentry_atm/runtime/session.py:200-227 | the scripted demonstration: applied at tick 90 on a validation of tick 75 |
| SessionTrace.RecommendIs | src/sentry_atm/runtime/resolution_orchestrator.py:104-132 | the recommended set holds exactly the leading candidates found SAFE, in ranking order |
| SessionTrace.VerdictIsRecorded | src/sentry_atm/runtime/modified_revalidation_orchestrator.py:146-163 | a revalidation records the verdict of the validator, and nothing without one |
| SessionTrace.RunIsTraced | src/sentry_atm/runtime/session.py:125-230 | over every run: what the session holds was generated, answered, revalidated and commanded by events since the last reset, in this order, with the verdicts these events carry |
| SessionTrace.AnchorsWereFoundSafe | src/sentry_atm/runtime/modified_application_orchestrator.py:98-142 | over every run: after an ACCEPT the anchored candidate came out SAFE in a generation since the last reset, after a MODIFY a revalidation since then came out SAFE |
| SessionTrace.UnsafeIsNeverAnchored | src/sentry_atm/runtime/modified_application_orchestrator.py:107-108 | a run none of whose revalidations comes out SAFE anchors nothing after a MODIFY |
| SessionCommands.StageIs | src/sentry_atm/api/session.py:608-641 | every stage is exactly the evidence of its own |
| SessionCommands.DueIff | src/sentry_atm/conflict/scheduler.py:91-93 | an assessment is due exactly when none was made or the slot after the last one has begun |
| SessionCommands.StepsIff | src/sentry_atm/runtime/orchestrator.py:60-113 | a step on a running clock goes through exactly when its calculations do and there is none of the tick it leads to; its evidence is of that tick |
| SessionCommands.ResetsIff | src/sentry_atm/runtime/session.py:175-177 | a reset goes through exactly without inputs and leaves the fresh session |
| SessionCommands.StartsIff | src/sentry_atm/runtime/session.py:193-196 | a start goes through exactly without inputs, before the first step, if its calculations do |
| SessionCommands.AdvancesIff | src/sentry_atm/runtime/session.py:178-192 | an advance goes through exactly without inputs, on up-to-date evidence, for 1 to 86400 seconds, if its calculations do |
| SessionCommands.AdvancesToConflictIff | src/sentry_atm/runtime/session.py:197-199 | the advance to the conflict goes through exactly while nothing is deviating or conflicting, on a running clock, by 70 seconds |
| SessionCommands.GeneratesIff | src/sentry_atm/runtime/session.py:200-203 | candidates are generated exactly while a high risk has no recommendation yet, on a running clock, 5 seconds on, and their set becomes the current one |
| SessionCommands.RespondsIff | src/sentry_atm/runtime/session.py:204-218 | an answer goes through exactly to an unanswered, non-empty recommendation with what its kind asks for, and is recorded 15 seconds on with the first option |
| SessionCommands.RevalidatesIff | src/sentry_atm/runtime/session.py:219-221 | a revalidation goes through exactly once, at the tick of a MODIFY, and is of the new maneuver for the aircraft of the option |
| SessionCommands.ApprovedIs | src/sentry_atm/runtime/application_orchestrator.py:83-194 | an accepted candidate is anchored exactly at the tick of the decision on a running clock with nothing anchored, and its application is recorded exactly if the reassessment goes well |
| SessionCommands.ModifiedIs | src/sentry_atm/runtime/modified_application_orchestrator.py:98-196 | the same for a new maneuver found SAFE; one found not SAFE changes nothing |
| SessionCommands.DoorErrors | src/sentry_atm/runtime/session.py:125-192 | which refusal comes first: inputs, evidence behind the clock, seconds, stage |
| SessionCommands.ClockIs | src/sentry_atm/simulation/clock.py:91-118 | playing runs the clock, pausing stops one that runs, ticks count only while it runs, a reset starts a new run at 0 |
| SessionCommands.PublishesIff | src/sentry_atm/runtime/composition.py:82-94 | whatever the state, a set is published exactly if its identifier is new and it is no older than the current one, and becomes the current one |
| SessionCommands.RecordsIff | src/sentry_atm/controller_decision/service.py:40-100 | whatever the log, an answer is recorded exactly if time does not run back, the set has none yet, the option is one of the set and the answer says what its kind asks for |
| SessionCommands.AnchorsIff | src/sentry_atm/simulation/synthetic.py:109-130 | whatever the state, an aircraft takes one anchor per instant on a running clock, and the application succeeds exactly if it does and the reassessment goes well |
| SessionCommands.ResolvesIff | src/sentry_atm/runtime/resolution_orchestrator.py:80-145 | a resolution goes through exactly on the step of the current tick, once per tick, with candidates whose set can be published |
| SessionCommands.DecidesIff | src/sentry_atm/runtime/decision_orchestrator.py:84-148 | a decision goes through exactly on the step of the current tick, once per tick, on the current, non-empty set |
| SessionCommands.RechecksIff | src/sentry_atm/runtime/modified_revalidation_orchestrator.py:82-168 | a revalidation goes through exactly on the step and the MODIFY of the current tick, once per tick, while that decision is the last audited |
| SessionCommands.AppliesApprovedIff | src/sentry_atm/runtime/application_orchestrator.py:83-137 | the application of an accepted candidate, likewise |
| SessionCommands.AppliesModifiedIff | src/sentry_atm/runtime/modified_application_orchestrator.py:98-142 | the application of a modified maneuver, likewise, and only if found SAFE at the current tick |
| SessionServices.SimulationClock.Play | src/sentry_atm/simulation/clock.py:91-94 | the clock runs |
| SessionServices.SimulationClock.Pause | src/sentry_atm/simulation/clock.py:96-100 | only a running clock pauses |
| SessionServices.SimulationClock.Reset | src/sentry_atm/simulation/clock.py:102-107 | tick 0, READY, one more run |
| SessionServices.SimulationClock.Tick | src/sentry_atm/simulation/clock.py:109-118 | ticks count only while running |
| SessionServices.ConflictScheduler.RunIfDue | src/sentry_atm/conflict/scheduler.py:76-101 | one assessment per slot of the current run |
| SessionServices.ConflictScheduler.Synchronize | src/sentry_atm/conflict/scheduler.py:103-108 | noticing a reset does not change what the scheduler amounts to |
| SessionServices.ForgetStale | src/sentry_atm/simulation/synthetic.py:185-189 | forgetting the anchors of an aircraft that had not seen the run changes nothing |
| SessionServices.CurrentAnchored | src/sentry_atm/simulation/synthetic.py:123-130 | an aircraft that has seen the run checks against exactly its anchors of the run |
| SessionServices.Fleet.Synchronize | src/sentry_atm/simulation/synthetic.py:185-189 | noticing a reset, aircraft by aircraft, does not change the anchors of the run |
| SessionServices.Fleet.ApplyStateAnchor | src/sentry_atm/simulation/synthetic.py:109-130 | one anchor per aircraft and instant, while the clock runs |
| SessionServices.RecommendationCatalog.Publish | src/sentry_atm/runtime/composition.py:82-94 | a set is published once and never before the current one |
| SessionServices.DecisionService.Decide | src/sentry_atm/controller_decision/service.py:40-100 | one final decision per set, in time order, all or nothing |
| SessionServices.DecisionService.Reset | src/sentry_atm/controller_decision/service.py:102-107 | the audit is empty |
| SessionOrchestrators.StepOrchestrator.Synchronize | src/sentry_atm/runtime/orchestrator.py:115-124 | clearing queue, catalog and audit late is the same as having cleared them at the reset |
| SessionOrchestrators.StepOrchestrator.LastResult | src/sentry_atm/runtime/orchestrator.py:55-58 | an observation changes nothing and shows the result of this run |
| SessionOrchestrators.StepOrchestrator.Step | src/sentry_atm/runtime/orchestrator.py:60-113 | the step with late resets does what the step with immediate resets does |
| SessionOrchestrators.ResolutionOrchestrator.LastResult | src/sentry_atm/runtime/resolution_orchestrator.py:74-78 | the same for its observation, upstream first |
| SessionOrchestrators.ResolutionOrchestrator.Resolve | src/sentry_atm/runtime/resolution_orchestrator.py:80-145 | and for resolving |
| SessionOrchestrators.DecisionOrchestrator.LastResult | src/sentry_atm/runtime/decision_orchestrator.py:54-58 | the same for its observation |
| SessionOrchestrators.DecisionOrchestrator.Decide | src/sentry_atm/runtime/decision_orchestrator.py:84-148 | and for deciding |
| SessionOrchestrators.RevalidationOrchestrator.LastResult | src/sentry_atm/runtime/modified_revalidation_orchestrator.py:72-76 | the same for its observation |
| SessionOrchestrators.RevalidationOrchestrator.Revalidate | src/sentry_atm/runtime/modified_revalidation_orchestrator.py:82-168 | and for revalidating |
| SessionOrchestrators.ApprovedApplication.LastResult | src/sentry_atm/runtime/application_orchestrator.py:73-77 | the same for its observation |
| SessionOrchestrators.ApprovedApplication.ApplyAndRevalidate | src/sentry_atm/runtime/application_orchestrator.py:83-194 | and for applying an accepted candidate |
| SessionOrchestrators.ModifiedApplication.LastResult | src/sentry_atm/runtime/modified_application_orchestrator.py:85-89 | the same for its observation |
| SessionOrchestrators.ModifiedApplication.AuthorizeApplyAndRevalidate | src/sentry_atm/runtime/modified_application_orchestrator.py:98-196 | and for applying a modified maneuver |
| SessionRuntime.SessionService.GetCurrent | src/sentry_atm/api/session.py:536-605 | the session view changes nothing and shows the state of this run |
| SessionRuntime.SessionService.ResetClock | src/sentry_atm/simulation/clock.py:102-107 | a reset of the clock alone already amounts to the fresh session, however often it happens unobserved |
| SessionRuntime.SessionService.ResetLeavesRawAudit | src/sentry_atm/runtime/orchestrator.py:115-124 | until the next observation the audit service itself still holds the log of the run before |
| SessionRuntime.SessionService.Execute | src/sentry_atm/runtime/session.py:125-230 | every command does exactly what it does when resets take effect at once |
| SessionRuntime.Build | src/sentry_atm/runtime/session.py:361-375 | a wired session is a fresh one |
| SessionRuntime.Drive | src/sentry_atm/runtime/session.py:125-230 | any sequence of commands and clock events on the objects ends in the state of the run with immediate resets |
| SessionRuntime.RunSession | src/sentry_atm/runtime/session.py:125-230 | human in the loop, on the objects: at most one decision and one anchor; the anchor carries out the decision, after ACCEPT a candidate the events of the run found SAFE, after MODIFY a maneuver found SAFE at the same tick by a revalidation of the run, after REJECT none |

## Left out

- Geodesy, joining points and bearings: distances are parameters, `Route` asks for the triangle inequality, `HazardSampling` works in a flat plane.
- HazardSampling.ClearLegKeepsDistance: speaks of full circles; rings and polygons are modelled but get no distance guarantee, because the source gives them none.
- HazardSampling.ClearedWronglyIff: speaks of full circles for the same reason.
- Floating point, and the rounding of timestamps to microseconds: all arithmetic is exact; the tolerances 1e-6, 1e-9 and the zero tests are kept.
- Geometry.DetectExact: speaks of the state as the zero tests see it; `Geometry.SlowRateIsMissed` shows that the state itself will not do for slow rates.
- FlownScan.ScanFinal: the final is a straight line on which everybody counts as established, to the last millionth of a mile; where an aircraft on it is under control is a parameter. Callsigns are taken to be unique.
- StreamRepair.MetStreamConverges: asks for control inside the join point, because `StreamCases.BeyondTheJoinPoint` shows the statement false beyond it.
- StreamRepair.InOrderStreamConverges: asks for one radar minimum; with formations among the aircraft only schedules that meet their gaps are covered, by `StreamRepair.MetStreamConverges`.
- RunwayRules.RequirementIsExact: clauses, rationale texts and the line-up-and-wait flag are not part of the result.
- Runway.InsertEmergency: reports the schedule only, not the wording of the result.
- Slot fields that are texts or derived statistics (clauses, rationale, makespan, total delay) and the comparison of two schedules.
- Uncertainty, collision probability, candidate maneuvers and learning: numerical and library code without a decidable contract.
- Route.PopMin: which of several least heap entries is popped is left open, as nothing depends on it.
- Holding.Stack: the nearest pattern for a request without a fix needs geodesy; inside a stack the fix is always given. Clearance phrases are texts.
- Holding.LeastCircuits: the turn rate is a parameter; its bank-angle formula uses the tangent.
- Resequencing.BaselineShape: the time to the airport is a parameter; reason codes and the end-of-segment verdict are mapped from what is proved here.
- ExceptionQueue.RefreshKeeps: identifiers and names are checked for emptiness elsewhere; snapshot identifiers are texts.
- SessionServices.QueueService.Refresh: inside the session the queue is reduced to the time of its last snapshot; the full queue is `ExceptionQueueService`.
- SessionCore.Execute: due scenario events, predictions, risk and priority evaluation, candidate generation and validation enter as outcomes; read-model mapping and identifiers are texts. A rationale counts as given when it is not empty.
- SessionSafety.HumanInTheLoop: decisions recorded directly through the in-process controller decision interface, past the session commands, are not part of the runs.
- SessionOrchestrators.StepOrchestrator.Step: the prediction scheduler and the event timeline notice resets like the conflict scheduler and are not modelled a second time.
- SessionServices.Fleet.ApplyStateAnchor: all aircraft share one list of anchors with one observation count per aircraft; scheduled states at the same instant are among the reasons an aircraft does not take the anchor.
- Threshold derivation and score reports of the evaluation module: counting over the same lists.
- HTTP adapters, the web interface, persistence, release tools and scenario builders: input, output and presentation.
