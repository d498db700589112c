# Verified model of the load engine

This project models the core of the load engine (`crates/engine`) and the two controller
derivations that have to agree with it, and proves what the engine relies on.  To verify:
`dafny verify dfyconfig.toml` (Dafny 4.11).

- **Arrival curves** (`Integrals`, `RateCurve`, `ArrivalSchedule`, `OpenLoop`, `Sizing`).  The
  piecewise-linear rate curve, its integral characterised without reference to the code (a function
  that accumulates the rate is that integral), the closed-form inverse with its forward-only cursor,
  the open-loop scheduler with its slot pool as a transition system, and the controller's second
  integration and slot recommendation.
- **The curve of virtual users** (`VuCurve`).  Supervisor ticks and user steps as atomic events of
  one transition system; every statement is about every interleaving.
- **Requests** (`Text`, `Template`, `Substitution`, `Json`, `Requests`, `Rendering`).  The template
  scanner in its three modes, the JSON renderers over it, casts, the strict and the collecting build
  of a request, and the analysis of which variables a request can show.  `Substitution` and
  `Rendering` say what a rendered text and a built request contain.
- **Steps** (`Scenario`, `Condition`, `ReqGen`, `Iteration`, `LoadRun`, `VirtualUser`, `Interleave`,
  `Effects`, `Trace`, `Tracer`, `UserIds`, `Budget`, `Agreement`).  The step tree and its two
  interpreters.  `LoadRun` and `Trace` specify them as functions, `Effects` says what they do to
  variables and to the network; `VirtualUser` and `Tracer` are the loops over mutable state, proved
  equal to those functions; `Interleave` runs the branches of parallel steps concurrently, one small
  step at a time and in any order, and shows that every order ends and ends alike; `Agreement` shows
  what a trace tells about the load run of any user, `UserIds` where the user's number can show.
- **Safe paths** (`JsonPath`, `JsonPathEval`, `JsonPathMatch`).  The recogniser against its grammar,
  and evaluation by sections 2.3.1-2.3.3, 2.5.1 and 2.5.2 of RFC 9535.
- **Metrics** (`Tally`, `Aggregator`, `Report`, `Delivery`).  The aggregator, the report, and the path
  from recorded requests to reported numbers.
- **Pick generators** (`Positions`).

Time and rates are `real`; a square root is a parameter constrained by its defining property.  The
network is a function from a step and its rendered request to a response; the random generators, the
clock, JSON parsing, extraction rules, number parsing and regular expressions are parameters.

## Where the code and its comments disagree

- `time_at` is documented as the smallest `t` with accumulated arrivals `m`, none if `m` is not
  reached.  That holds for every `m > 0`.  For `m = 0` it holds exactly when arrivals begin at once
  (`WhenAnswersAreDocumented`); after a leading hold at rate 0 the code answers the end of the hold, and
  for a curve that never leaves rate 0 it answers none, though 0 arrivals are reached at time 0
  (`LeadingHoldMissesLeastRoot`).  No caller asks for `m = 0`: the scheduler only asks for `k + 1/2`.
- The comment at `crates/engine/src/runner.rs:1096-1098` says a second's active-user gauge is always
  drained once.  The second is read before the aggregator's lock is awaited.  If a first gauge of that
  second has been recorded, and a flush with a later bound gets the lock before the next gauge of the
  same second, the second is emitted twice (`LateGaugeIsEmittedTwice`; `GaugesAreEmittedOnceIff` gives
  the exact condition).  Windows are stamped under the lock and do not have this problem.

## Model

| member | source | states |
|---|---|---|
| RateCurve.RateAt | crates/engine/src/runner.rs:790-808 | the rate loop returns the piecewise-linear rate: ramps from the previous target, jumps at zero-length stages, holds the last target |
| RateCurve.LambdaIsTheIntegral | crates/engine/src/runner.rs:822-826 | the cumulative curve is the integral of the rate: any function whose growth lies between the rate's bounds on every interval equals it |
| RateCurve.LambdaGrowth | crates/controller/src/insights.rs:116-147 | the cumulative curve never falls and never grows faster than the peak rate |
| RateCurve.PeakIsLargest | crates/engine/src/runner.rs:928 | the peak bounds every target and is one of them |
| ArrivalSchedules.ArrivalSchedule.constructor | crates/engine/src/runner.rs:841-878 | the table holds, for every stage, its start, rate, slope, arrivals before it and area |
| ArrivalSchedules.ArrivalSchedule.TimeAt | crates/engine/src/runner.rs:881-906 | for non-decreasing queries the answer is the first moment `m` arrivals have accumulated, none exactly if they never do; N queries inspect at most N + #stages segments |
| ArrivalSchedules.ArrivalSchedule.RootInside | crates/engine/src/runner.rs:887-898 | the cancellation-free root lies in its segment and is the first to reach `m`, for rising, falling and flat segments |
| ArrivalSchedules.ArrivalSchedule.RootInTail | crates/engine/src/runner.rs:901-905 | past the curve the last target is held; at rate 0 `m` is unreachable |
| ArrivalSchedules.AnswersAgree | crates/engine/src/runner.rs:822-830 | a query has one answer only, so a reused cursor and a fresh schedule agree |
| ArrivalSchedules.AnsweredIffReachable | crates/engine/src/runner.rs:879-906 | a positive query is answered exactly when the curve reaches it |
| ArrivalSchedules.WhenAnswersAreDocumented | crates/engine/src/runner.rs:879-906 | the documented answer is given for every positive `m`, for `m = 0` exactly when the stages begin with a positive rate past those of no duration, and for negative `m` exactly when no arrival ever comes |
| ArrivalSchedules.ZeroIsAnsweredAtOnce | crates/engine/src/runner.rs:879-906 | at `m = 0` the answer is time 0 exactly when the stages begin with a positive rate |
| ArrivalSchedules.LeadingHoldMissesLeastRoot | crates/engine/src/runner.rs:879-906 | two curves with a leading hold, one answered late and one not at all at `m = 0`, where the documented least root is 0 |
| OpenLoop.RunKeepsPool | crates/engine/src/runner.rs:1464-1640 | in every reachable state the free queue and the slots in flight partition the pool |
| OpenLoop.PoolIsSafe | crates/engine/src/runner.rs:1571-1632 | returning a slot never fails, in-flight stays within the pool, an acquired slot is held by nobody, and a drop happens exactly when every slot is held |
| OpenLoop.SlotsAreUsedInOrder | crates/engine/src/runner.rs:1464-1640 | slots are taken in the order in which they became free: the initial pool, then returned slots in the order of their return |
| OpenLoop.CountRoundsArea | crates/engine/src/runner.rs:822-825 | the number of attempts scheduled before `T` differs from the accumulated arrivals at `T` by at most 1/2 |
| OpenLoop.CountExists | crates/engine/src/runner.rs:822-825 | there is such a number for every curve and limit |
| OpenLoop.Inverse | crates/engine/src/runner.rs:1545-1550 | every curve has a schedule of attempts, attempt `k` at the moment `k + 1/2` arrivals have accumulated |
| OpenLoop.CurveAccounting | crates/engine/src/runner.rs:1539-1640 | at every loop head tick = fired + dropped, the next attempt is where the curve puts it, and none was made early |
| OpenLoop.FixedAccounting | crates/engine/src/runner.rs:1539-1640 | with a fixed rate the attempts are the multiples of the interval, none made early |
| OpenLoop.AttemptsBounded | crates/engine/src/runner.rs:1555-1640 | at most one attempt more than scheduled before the deadline, and that one only when the clock crosses the deadline inside a turn |
| OpenLoop.BoundIsAttained | crates/engine/src/runner.rs:1555-1640 | for every curve some run makes that one attempt more |
| OpenLoop.AttemptsFollowArea | crates/engine/src/runner.rs:1555-1640 | total attempts never exceed the accumulated arrivals plus 3/2 |
| OpenLoop.NothingAfterTheCurve | crates/engine/src/runner.rs:1561-1570 | once the schedule is exhausted, a turn before the deadline attempts nothing |
| OpenLoop.NothingAfterStop | crates/engine/src/runner.rs:1555-1572 | a turn that finds a stop or the deadline, or is cancelled while it waits, attempts nothing, and no later turn does |
| OpenLoop.Scheduler.constructor | crates/engine/src/runner.rs:1434-1554 | the loop starts with every slot free and the first attempt where the pace puts it; a missing or zero pool size is 1 |
| OpenLoop.Scheduler.Turn | crates/engine/src/runner.rs:1555-1640 | one turn of the loop, with the reused cursor, is one step of the transition system |
| OpenLoop.Scheduler.Complete | crates/engine/src/runner.rs:1586-1598 | the guard returns the slot to the queue |
| Sizing.ScheduledArrivals | crates/controller/src/insights.rs:116-147 | the controller's trapezoids equal the engine's cumulative curve at the run's duration, cut or past the end |
| Sizing.ScheduledAtMostPeak | crates/controller/src/insights.rs:116-147 | a run schedules at most its target rate times its duration |
| Sizing.FixedIsConstantCurve | crates/controller/src/insights.rs:116-147 | a fixed rate schedules what the curve holding that rate from the start accumulates |
| Sizing.LoadGenSaturated | crates/controller/src/insights.rs:476-499 | the advice is present exactly with drops, blames the server first, gives the exact achieved rate and clamped slot count, and with one of rate and curve set never recommends less than min(M + 1, 10000) |
| Sizing.DroppedMeansShort | crates/controller/src/insights.rs:476-497 | with one of rate and curve set, drops mean the achieved rate is below the target or zero |
| Sizing.RequiredExceeds | crates/controller/src/insights.rs:488-496 | the unclamped recommendation exceeds the pool exactly when the target exceeds the achieved rate |
| Sizing.RequiredIsLeast | crates/controller/src/insights.rs:479-492 | in terms of the inputs: the unclamped recommendation is the least number of slots that reaches the target at the rate one present slot achieved, the limit if none was achieved |
| Sizing.RecommendedBelowPoolIff | crates/controller/src/insights.rs:479-495 | in terms of the inputs, exactly when the clamped recommendation is below the present pool; for a run with one of rate and curve set and a pool within the limit `LoadGenSaturated` rules it out |
| VuCurve.SlabHolds | crates/engine/src/runner.rs:1259-1422 | in every interleaving the slab holds a user's token exactly between registering and clearing, and tokens are unique |
| VuCurve.CountFollowsCurve | crates/engine/src/runner.rs:1031-1033 | in every reachable state the count of a tick lies within one half of the curve at the tick's clock reading, so the clamp never acts |
| VuCurve.PublishedIsLast | crates/engine/src/runner.rs:1034-1095 | the published count is that of the last tick that has finished spawning, 0 before |
| VuCurve.SpawnedIsLargest | crates/engine/src/runner.rs:1034-1094 | as many users are spawned as the largest count of any tick so far, never more |
| VuCurve.GaugeCountsActive | crates/engine/src/runner.rs:1096-1107 | the gauge a tick samples is the number of active users, at most the spawned, at most the largest target |
| VuCurve.RetireNeverFails | crates/engine/src/runner.rs:1259-1422 | retire cancellation never ends a user in error: without an abort the failed users are those with an engine error, and the counter counts exactly them |
| VuCurve.AllFailedMeansAll | crates/engine/src/runner.rs:1178-1196 | a run that is not aborted is reported as all failed exactly when it spawned users and each met an engine error, building its client included |
| VuCurve.NoIterationWhileRetired | crates/engine/src/runner.rs:1326-1331 | while the published count stays at or below its index a user starts no iteration |
| VuCurve.WantedUserIterates | crates/engine/src/runner.rs:1259-1422 | a wanted user that has not ended starts its next iteration within 14 moves of its own, whatever was cancelled, and with the same token if that is not cancelled |
| VuCurve.UnwantedUserParks | crates/engine/src/runner.rs:1259-1422 | an unwanted user parks within 9 moves of its own, off the slab and without another iteration |
| VuCurve.CancelledUserLeaves | crates/engine/src/runner.rs:1259-1422 | a cancelled user leaves the slab within 3 moves without finishing its iteration |
| VuCurve.OverUserEnds | crates/engine/src/runner.rs:1259-1422 | after the deadline or a cancellation of the run every user ends within 7 moves of its own: well without a cancellation, aborted before the deadline |
| VuCurve.TimersHold | crates/engine/src/runner.rs:1212-1242 | every reachable state keeps the timer invariant |
| VuCurve.TimerMeaning | crates/engine/src/runner.rs:1218-1242 | a running timer was started at the end of some tick, and at every tick of the run since then the user was over-desired and registered with the same token |
| VuCurve.CancelsExactlyTheLingering | crates/engine/src/runner.rs:1218-1242 | over the ticks of the run: a graceful tick cancels a token exactly when its user was over-desired and registered with it at every tick over a stretch of at least `cap` |
| VuCurve.LingeringIsTimed | crates/engine/src/runner.rs:1218-1242 | a user that has lingered since a tick has a timer at least that old, so it is cancelled no later than the first tick past `cap` |
| VuCurve.TickCancelsOnlyRetired | crates/engine/src/runner.rs:1108-1118 | an immediate tick cancels every registered user past the desired count; no tick of any mode cancels a wanted user |
| VuCurve.RetireExpired | crates/engine/src/runner.rs:1218-1242 | the retirement loops move every timer as specified and cancel exactly the expired tokens |
| VuCurve.CancelBeyond | crates/engine/src/runner.rs:1108-1115 | the immediate loop cancels exactly the tokens past the desired count |
| JsonPaths.JsonPathIsSimple | crates/engine/src/extract.rs:128-212 | the imperative recogniser accepts exactly the paths of the grammar, with at most one `..` |
| JsonPaths.GrammarIsParse | crates/engine/src/extract.rs:107-212 | the parser accepts exactly the printed forms of valid segment lists |
| JsonPaths.ParseSound | crates/engine/src/extract.rs:128-212 | what is accepted is the printed form of valid segments |
| JsonPaths.ParseComplete | crates/engine/src/extract.rs:128-212 | every printed form of valid segments is accepted and read back as those segments |
| JsonPaths.CharStream.SimpleBracket | crates/engine/src/extract.rs:182-212 | consumes exactly one bracket body of the grammar |
| JsonPaths.CharStream.SimpleName | crates/engine/src/extract.rs:168-180 | consumes exactly the longest name |
| JsonPathEval.EvalDistinct | crates/engine/src/extract.rs:107-127 | evaluation keeps node lists free of repetition while at most one descent is made |
| JsonPathEval.AcceptedPathsNeverRepeat | crates/engine/src/extract.rs:107-127 | for every accepted path and JSON tree every intermediate node list, and the list of nodes a `..` visits, is duplicate-free and no longer than the tree has nodes |
| JsonPathEval.TwoDescentsRepeat | crates/engine/src/extract.rs:107-127 | two descents do select a node twice, so the single `..` is needed |
| JsonPathMatch.AcceptedPathsSelectMatches | crates/engine/src/extract.rs:107-127 | for every accepted path the result holds exactly the nodes whose location matches the segments one by one; a negative index counts from the end |
| Text.FindIsFirst | crates/engine/src/template.rs:165-184 | the search finds the first occurrence and fails only if there is none |
| Templates.TokensCoverSource | crates/engine/src/template.rs:48-163 | the tokens of a template, written back, are the template |
| Templates.RenderInner | crates/engine/src/template.rs:48-163 | the scanner gives the strict result, or the lenient text, and collects exactly the names without a value, in order |
| Substitutions.FlowSubstitution | crates/engine/src/template.rs:68-101 | `{{n}}`, with or without white space, is replaced in every mode by the value of `n`, which is not scanned again; without a value it vanishes, or is the error |
| Substitutions.SystemSubstitution | crates/engine/src/template.rs:102-159 | `${n}`: the three built-in names give their numbers; otherwise the environment comes before the default, and the default is taken literally |
| Substitutions.SubstitutionIsReplacement | crates/engine/src/template.rs:48-163 | for a value without markers, rendering `a{{n}}b` is rendering `a`, the value and `b` written in its place |
| Substitutions.PlainRendersItself | crates/engine/src/template.rs:48-163 | a text without markers renders as itself in every mode |
| Substitutions.UnclosedIsCopied | crates/engine/src/template.rs:68-82 | a marker that is never closed is an error of the strict mode and is copied by the others |
| Substitutions.TokensAppend | crates/engine/src/template.rs:48-163 | a text that leaves no marker open is read independently of what follows it |
| Templates.StrictIsCleanCollecting | crates/engine/src/template.rs:22-163 | strict succeeds exactly when collecting gives the same text with nothing collected and no unclosed marker; an unknown variable is the first name collected |
| Templates.OnlyFlowNamesMatter | crates/engine/src/template.rs:48-163 | no mode of rendering depends on variables the template does not spell |
| Templates.CollectingFindsFlowNames | crates/engine/src/executor.rs:381-418 | with the sought names in the environment and none bound, collecting finds a name exactly where `{{name}}` is spelled |
| Requests.CastLeafIsOneToken | crates/engine/src/cast.rs:20-48 | the bare token of every cast is read back as one token: always in the `${ }` form, and in the `{{ }}` form exactly when its name does not end in a brace |
| Renderings.CastYields | crates/engine/src/executor.rs:90-130 | `{{n:cast}}`: str gives the text, bool the JSON true or false it spells, num exactly a number it parses to, json any value it parses to; otherwise a load run fails and a trace keeps the text |
| Renderings.OtherLeavesAreStrings | crates/engine/src/executor.rs:126-128 | a leaf that starts with no marker or has no colon stays a string |
| Renderings.JsonIsLeafwise | crates/engine/src/executor.rs:90-143 | a body renders to `w` exactly if each string leaf renders to what `w` has in its place and nothing else differs |
| Renderings.CollectedIsLeafwise | crates/engine/src/executor.rs:90-143 | the collecting renderer keeps shape, keys and other values and gives each leaf its value in its place |
| Requests.JsonAgrees | crates/engine/src/executor.rs:90-143 | strict JSON rendering succeeds exactly when collecting collects nothing and no leaf is in trouble, and then both give the same value |
| Requests.BuildsAgree | crates/engine/src/executor.rs:145-194 | a load run can build a request exactly when a trace finds no unbound name, no bad header and no trouble; then both send the same request |
| Requests.BuildRequest | crates/engine/src/executor.rs:145-194 | the rendering loops of url, headers and body give the strict build, with the first error in order |
| Renderings.BuildIsFieldwise | crates/engine/src/executor.rs:145-194 | a request is built as `q` exactly if method, url, every header and every field or leaf of the body are rendered strictly in their places and all headers can be sent |
| Renderings.SentHeaders | crates/engine/src/executor.rs:439-459 | a trace sends exactly the headers that can be sent, and its error names the first other |
| Renderings.UnboundIsExact | crates/engine/src/executor.rs:425-520 | a trace reports, once each, exactly the names without a value in some rendered text |
| Requests.RequestFlowRefs | crates/engine/src/executor.rs:381-418 | the loop over collected names returns the indexes of the found names in increasing order |
| Requests.RefsExact | crates/engine/src/executor.rs:381-418 | the analysis returns exactly the names occurring as `{{n}}` in a rendered field |
| Requests.RequestSeesOnly | crates/engine/src/executor.rs:145-194 | variables that agree on the spelled names give the same request, error and trace |
| Requests.RequestSeesSpelledIds | crates/engine/src/executor.rs:145-194 | a request that does not spell `${vu_id}` (`${iter_id}`) is the same for every user (in every iteration) |
| Conditions.FirstElif | crates/engine/src/runner.rs:1759-1781 | the first `elif` whose condition holds |
| Conditions.CompareLaws | crates/engine/src/condition.rs:114-155 | `exists`/`empty` and `eq`/`ne` are complements, `contains` is occurrence, and `lt`, `gt`, `lte`, `gte` obey the laws of an order, all false for texts that do not compare |
| Conditions.CompareSwaps | crates/engine/src/condition.rs:114-155 | if numbers are ordered antisymmetrically, `lt` and `gt`, `lte` and `gte` are each other with the sides swapped |
| Conditions.SelectBranch | crates/engine/src/runner.rs:1759-1781 | the label is `then` exactly when the condition holds, `elif k` exactly when `k` is the first that holds after a false `if`; the steps are those of the labelled branch, otherwise the else steps |
| Conditions.LeafDecides | crates/engine/src/condition.rs:75-87 | a deciding leaf's own truth is the whole condition's, at any nesting |
| Conditions.NoLeafIffEmpty | crates/engine/src/condition.rs:75-87 | there is no deciding leaf exactly when the chain of picks ends in an empty group |
| Conditions.ExplainBranches | crates/engine/src/condition.rs:91-112 | only the last explanation can pass; if it does, its label is the branch selected, and if not, everything was tried and no condition branch is taken |
| Conditions.SelectSeesValues | crates/engine/src/runner.rs:1759-1781 | contexts that give the same values to the tokens of the conditions take the same branch |
| ReqGens.BuildPlan | crates/engine/src/reqgen.rs:26-69 | the plan holds the per-request names in order and, for each step id, exactly the union of what its requests spell, once each and in order; none without such variables |
| ReqGens.ReqGen.MarkWritten | crates/engine/src/reqgen.rs:117-123 | exactly the written names become dead |
| ReqGens.ReqGen.Refresh | crates/engine/src/reqgen.rs:126-138 | exactly the live targets of the step are drawn, in order, and overwritten |
| ReqGens.ReqGen.Fork | crates/engine/src/reqgen.rs:141-147 | the child copies the dead set and takes one seed of the parent's generator |
| ReqGens.NonTargetsInvisible | crates/engine/src/reqgen.rs:49-73 | changing per-request variables outside the step's targets never changes its request, error or trace |
| ReqGens.SelectiveRefreshIsEnough | crates/engine/src/reqgen.rs:126-138 | refreshing only the targets gives the same request as refreshing every live variable with the same values |
| ReqGens.RefreshTouchesOnlyLiveTargets | crates/engine/src/reqgen.rs:126-138 | a refresh changes nothing but live targets |
| Iterations.RefreshSparesForeignValues | crates/engine/src/reqgen.rs:115-138 | a refresh never overwrites a value last written by a dataset, an extraction or a merge |
| Iterations.StartHasProvenance | crates/engine/src/runner.rs:432-461 | an iteration starts with the provenance invariant, whatever its dataset rows |
| Iterations.StartFromCombined | crates/engine/src/trace.rs:285-297 | a trace given the combined row starts with the same variables and dead set as a load iteration given the rows one by one |
| Iterations.ExtractsOnlyDeclared | crates/engine/src/extract.rs:28-94 | extraction yields declared names only |
| LoadRuns.StepsKeepProvenance | crates/engine/src/runner.rs:513-785 | wherever a run stops, a per-request variable is dead exactly when a dataset, an extraction or a merge wrote it last, and the variables are what the history of writes says |
| LoadRuns.BranchKeepsProvenance | crates/engine/src/runner.rs:684-732 | the same holds inside every branch |
| LoadRuns.BranchesAreIsolated | crates/engine/src/runner.rs:684-732 | a branch's run is a function of the entry state alone |
| LoadRuns.ParallelWritesOnlyOffers | crates/engine/src/runner.rs:684-762 | a parallel step writes exactly the keys `branch.k` its branches offer, the last branch in order winning, and changes no other variable or dead flag |
| Effects.HttpEffect | crates/engine/src/runner.rs:540-606 | a request step fails exactly if its request cannot be built from the refreshed variables; else it sends that request, an accepted answer writes to each declared name what its last rule yields and kills the name, and any other answer writes nothing |
| Effects.TraceEffect | crates/engine/src/trace.rs:386-431 | the same for a trace, and what its row shows: step, loop index, request, unbound names, what was written, and the errors |
| Effects.RefreshDraws | crates/engine/src/reqgen.rs:126-138 | every live target takes a value drawn for it, in order, each from the generator state the one before left; nothing else changes |
| Effects.ForksAreAChain | crates/engine/src/runner.rs:694-699 | branches are seeded one after the other from the parent's generator, with its dead flags |
| Effects.IfRowShows | crates/engine/src/trace.rs:456-491 | the row of an `if` shows the branch whose condition holds first and exactly the names without a value in its conditions |
| Effects.StepsStayWithin | crates/engine/src/runner.rs:513-785 | a run sends only requests built for steps of the tree, fails only on one of them, and its own extractions write only the names a branch of these steps exposes |
| Effects.ExtractionsAreExposed | crates/engine/src/scenario.rs:205-230 | whatever a branch extracts outside a nested parallel step its parent has under the branch's name, unless a later branch writes that key |
| Effects.StepsRun | crates/engine/src/runner.rs:513-785 | a list of steps that goes on was told so before each and has run each from the state the one before left |
| Effects.LoopRuns | crates/engine/src/runner.rs:607-636 | a loop that goes on has run its body once for each index, in order |
| Effects.WorstBranchWins | crates/engine/src/runner.rs:739-781 | a parallel step fails exactly if a branch failed, and otherwise ends aborted, at the deadline or going on as its worst branch |
| Effects.StopsHaveCauses | crates/engine/src/runner.rs:513-785 | a run ends at the deadline only if some look found it late, and aborted only if some look found it cancelled |
| VirtualUsers.Vars.Merge | crates/engine/src/runner.rs:752-760 | the merge loop copies exactly a branch's outputs under its name and marks them |
| VirtualUsers.StartIteration | crates/engine/src/runner.rs:432-464 | the dataset loop injects the rows in order, or stops the user at the first exhausted one |
| VirtualUsers.ExecuteHttp | crates/engine/src/runner.rs:540-606 | an http step refreshes, builds strictly, sends, marks and extends, then paces |
| VirtualUsers.ExecuteSteps | crates/engine/src/runner.rs:513-785 | the recursive loops over mutable variables and generator state compute the specified outcome and state |
| VirtualUsers.ExecuteParallel | crates/engine/src/runner.rs:684-781 | forking all states first, running each branch on a copy and merging in order computes the specified outcome |
| VirtualUsers.ForkGens | crates/engine/src/runner.rs:694-699 | all branch states are forked before any branch runs and share nothing |
| VirtualUsers.MergeResults | crates/engine/src/runner.rs:739-781 | the first error propagates; otherwise the worst flow |
| Interleaving.AdvanceKeepsMeaning | crates/engine/src/runner.rs:700-736 | no small step of any schedule changes the outcome a run will come to |
| Interleaving.MovesAreBounded | crates/engine/src/runner.rs:733-736 | every schedule moves at most as often as the steps cost |
| Interleaving.EveryScheduleAgrees | crates/engine/src/runner.rs:684-762 | every order of the concurrent branches ends, at the sequential outcome, and none can get stuck; what the clock and the cancellation token answer is fixed by the place in the tree, so that only the order varies |
| Traces.StepsGrow | crates/engine/src/trace.rs:361-560 | rows are only appended, one Http row and one sent request per unit of budget, within the budget, and nothing after truncation |
| Tracers.RunSteps | crates/engine/src/trace.rs:361-560 | the loops over the shared trace state compute the specified pass |
| Tracers.RunBranches | crates/engine/src/trace.rs:505-557 | branches run one by one from the entry state, each merged at once even if cut short |
| Tracers.TraceOnce | crates/engine/src/trace.rs:271-320 | a pass resets the rows, keeps the budget, and starts from declared values, fresh generator state and the seed row |
| Tracers.TraceRows | crates/engine/src/trace.rs:203-265 | the traces are an in-order prefix of the rows, their Http rows never exceed the budget, only the last can be cut short, and `truncated` is false exactly when every row was traced to its end |
| Agreement.StepsAgree | crates/engine/src/trace.rs:361-560 | for any user and iteration, unless the tree spells the number that differs: if the load interpreter continues to its end, a trace is cut short exactly when its budget does not meet the run's need, and otherwise ends with the same variables, dead set, generator state and requests |
| Agreement.EnoughBudget | crates/engine/src/trace.rs:376-456 | the need is met by a budget of one request more than the run sends, and by just the requests it sends if the last step is a request |
| Agreement.TraceTellsLoad | crates/engine/src/trace.rs:361-560 | for any user and iteration, unless the tree spells the number that differs: a complete trace predicts the load run, with the same final state exactly when every request was buildable and a build failure otherwise |
| Agreement.AnotherUserMayDiffer | crates/engine/src/trace.rs:382-398 | where the tree spells `${vu_id}`, user 1 sends another request than the trace, which runs as user 0, shows |
| UserIds.StepsIgnoreIds | crates/engine/src/runner.rs:513-785 | a run of a tree that spells neither `${vu_id}` nor `${iter_id}` is the same for every user in every iteration |
| Tallies.SumRemove | crates/controller/src/report.rs:546-620 | the sum over a table does not depend on the order of its keys |
| Tallies.Conservation | crates/engine/src/aggregator.rs:185-391 | for every key, what was drained and what is held add up to what was recorded |
| Tallies.TakenOnceIffNoLatePut | crates/engine/src/aggregator.rs:376-390 | after a final drain every key was emitted at most once exactly when nothing was put under an emitted key |
| Aggregators.Aggregator.Record | crates/engine/src/aggregator.rs:185-214 | a request goes to its step's window of the second and, inside a loop, to its bucket |
| Aggregators.Aggregator.DrainWindows | crates/engine/src/aggregator.rs:376-390 | exactly the windows before the bound leave, and the rest stays |
| Aggregators.Aggregator.DrainLoopDeltas | crates/engine/src/aggregator.rs:216-227 | all loop counts leave and the table is empty |
| Aggregators.Aggregator.RecordActiveVu | crates/engine/src/aggregator.rs:317-322 | the last sample of a second is kept |
| Aggregators.Aggregator.DrainActiveVu | crates/engine/src/aggregator.rs:324-360 | exactly the gauges before the bound leave |
| Aggregators.GaugeIsLastSample | crates/engine/src/aggregator.rs:317-360 | the gauge held for a second is its last sample since the second was drained |
| Aggregators.WindowsAreConserved | crates/engine/src/aggregator.rs:185-200 | over any interleaving, drained and held windows of a step and second equal its recorded requests, errors, statuses and samples |
| Aggregators.RequestsAreCounted | crates/engine/src/aggregator.rs:185-200 | those requests, counted event by event: how many, how many in error, with each status, and with each latency within 1 microsecond and 60 seconds |
| Aggregators.CountersAreConserved | crates/engine/src/aggregator.rs:229-315 | drained and held counters and samples equal the recorded decisions, send failures, groups and phases |
| Aggregators.CountersAreCounted | crates/engine/src/aggregator.rs:229-270 | the recorded decisions and send failures, counted event by event |
| Aggregators.SamplesAreCounted | crates/engine/src/aggregator.rs:272-315 | the recorded group and phase latencies, counted event by event |
| Aggregators.LoopBucketsAreConserved | crates/engine/src/aggregator.rs:202-227 | a bucket below the cap counts exactly its index and the overflow bucket exactly the indexes from the cap on; they never collide |
| Aggregators.RoundsAreCounted | crates/engine/src/aggregator.rs:202-214 | the requests of a bucket and their errors, counted event by event |
| Aggregators.BucketsSumToIndexed | crates/engine/src/aggregator.rs:202-214 | the buckets of a step add up to all its requests with a loop index |
| Aggregators.StampedUnderLock | crates/engine/src/aggregator.rs:193-200 | stamping under the lock with a non-decreasing clock means no request is stamped before an earlier drain's bound |
| Aggregators.WindowsAreEmittedOnce | crates/engine/src/aggregator.rs:376-390 | then each window of a step and second is emitted at most once, the final drain included |
| Aggregators.GaugesAreEmittedOnceIff | crates/engine/src/aggregator.rs:317-360 | each second's gauge is emitted at most once exactly when the log has no gauge, then a drain past its second, then another gauge of that second |
| Aggregators.GaugesStampedUnderLock | crates/engine/src/runner.rs:1096-1107 | were gauges stamped while the lock is held, none would be late |
| Aggregators.LateGaugeIsEmittedTwice | crates/engine/src/runner.rs:1096-1107 | a log that the clock readings of one supervisor and the flusher allow, in which a second is emitted twice |
| Reports.BuildReport | crates/controller/src/report.rs:511-620 | the accumulation loop computes the grouping of rows by window, step and worker and their total |
| Reports.GroupIsTotal | crates/controller/src/report.rs:546-597 | an entry is exactly the total of its rows |
| Reports.OverallIsSum | crates/controller/src/report.rs:546-620 | overall = sum over windows = sum over steps, in counts, errors, statuses and samples |
| Reports.StepIsSumOfWindows | crates/controller/src/report.rs:546-620 | a step is the sum of its windows and exists exactly when it has one |
| Reports.WorkersSum | crates/controller/src/report.rs:527-588 | with two or more workers, workers plus unnamed rows equal the total; so workers alone do when no id is empty; otherwise there is no breakdown |
| Reports.ReportOfPermutation | crates/controller/src/report.rs:546-620 | the report depends only on the multiset of rows |
| Reports.ReportOfSameWindows | crates/controller/src/report.rs:546-620 | two row lists with the same windows and the same total in each give the same windows, steps and overall result |
| Delivery.EveryRequestIsReportedOnce | crates/controller/src/report.rs:511-620 | however the aggregators were drained and the rows mixed, the report holds for each step and second, for each step, and overall exactly what all workers recorded |
| Delivery.EveryWorkerIsReported | crates/controller/src/report.rs:527-588 | with two or more workers that made requests, the report holds for every worker exactly the requests, errors and samples it recorded |
| Positions.ParsePositions | crates/engine/src/genvars.rs:191-230 | marking a boolean array and collecting it gives the denoted positions; length, size and item errors in the source's order |
| Positions.DenotedIsUnion | crates/engine/src/genvars.rs:189-230 | the result is the strictly increasing enumeration of exactly the union of the written ranges; an error names the first bad item |
| Positions.WrittenListIsRead | crates/engine/src/genvars.rs:191-230 | a comma list of positions and ranges, with white space around any number, denotes exactly their union; the first that has too long a number, runs backwards or leaves the array gives its error |
| Positions.LongestText | crates/engine/src/genvars.rs:65-66 | a printed candidate list takes at most 3892 characters, and the full list takes that many |
| Positions.PrintedListIsReadBack | crates/engine/src/genvars.rs:191-230 | printing any candidate list as a comma list re-parses to itself |
| Positions.BuiltPickIsUsable | crates/engine/src/genvars.rs:362-405 | accepted parameters have at least one candidate, min within candidates and max, all candidates inside the array |
| Positions.BuiltExactlyIf | crates/engine/src/genvars.rs:362-405 | exactly which parameters are accepted, and with which candidates |
| Positions.EveryCountIsInRange | crates/engine/src/genvars.rs:588-601 | the number of picks ranges over exactly the counts within min and max that do not exceed the candidates |
| Positions.EvalPickArray | crates/engine/src/genvars.rs:588-601 | the array has exactly the sampled cells picked, between min and min(max, #candidates) of them, all at candidate positions; the sample never exceeds the candidates |

## Left out

- Sizing.LoadGenSaturated: does not give the observed peak and the onset second shown beside the advice, because neither enters the cause or the recommendation.
- Floating-point rounding: times, rates and curves are exact reals; the guards against float noise (`max(0)`, `min(dur)`) are kept.
- Integer widths: `iter_id`, arrival and metric counters do not wrap; loop indexes are compared with a cap of at most 32 bits.
- Durations are not rounded to nanoseconds; instants are reals.
- Network, cookie jars, timings, connection phases and error classification: a response is a function of the step and its rendered request, so state shared through cookies is not modelled.
- Think-time randomness and the run-level pause between iterations; a pause is one look at the clock and the cancellation token.
- Tasks are transition systems of atomic actions; panics, join errors and a dropped watch sender are not modelled.
- LoadRuns.ExecSteps: the order of sends of concurrent branches is kept per branch, not globally, because no branch can observe it.
- Extraction rules (JSON path evaluation aside), base64, JWT, cookies, regular expressions, number parsing and JSON parsing are parameters.
- Header maps and forms are lists in authored order; names that differ only in case are not merged.
- Which metric events a run records while it runs (requests, `if` decisions, groups); the metrics part starts from recorded events.
- The delivery of flush batches over the channel: `EveryRequestIsReportedOnce` assumes every drained batch arrives.
- Histogram precision and quantiles: a histogram is the multiset of its samples; an undecodable blob contributes none.
- The order in which a hash map gives up its entries is not part of the model.
- Trace display fields: timings, headers and bodies of responses, truncation of bodies, the display values of explained branches, and the headers a row shows but could not send; a row holds the request as sent.
- Report sections that only copy or format rows (loops, branches, groups, phases, latency curves), criteria, validity and narrative.
- `midrun_onset`, `median`, `saturation_onset`, `min_window_rps`, `status_class_count`, `http_response_total`, `parse_offset_secs` and `eval_random_int` would add only easy members.
- The other generator kinds of `GenSpec` and the YAML shapes of positions; a generator draw is a function of its index and the generator state.
- REST routes, store, dispatcher, UI and exports.
