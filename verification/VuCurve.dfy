/** The closed-loop curve of virtual users: a supervisor publishes how many users should be
    active, and each user parks, registers a token, iterates and deregisters.

    The supervisor and every user run concurrently.  The protocol is a transition system: one
    event is one atomic action of one of them, and a run is any sequence of events.
 */
module VuCurve {
  import opened Options
  import opened RateCurve

  // ---------------------------------------------------------------------------------------
  // States

  datatype Outcome = Finished | Aborted | EngineFailed

  /** Where a user stands.  A spawned user builds its client first.  From `Activate` a user goes on to
      register its token in the slab; the token stays there from `HeadDeadline` up to and including
      `Clear` and `ClearThen`. */
  datatype Pc =
    | NotSpawned
    | BuildClient
    | ParkCancel | ParkDeadline | ParkDesired | Waiting
    | Activate
    | HeadDeadline | HeadToken | HeadDesired
    | Iterating
    | Gate
    | Pacing
    | Clear
    | ClearThen(outcome: Outcome)
    | AfterClear
    | Done(outcome: Outcome)
  {
    predicate Registered() {
      HeadDeadline? || HeadToken? || HeadDesired? || Iterating? || Gate? || Pacing? || Clear? || ClearThen?
    }

    /** The user has returned an error. */
    predicate Failed() {
      Done? && outcome != Finished
    }
  }

  /** The supervisor's place in a tick, with the count and the clock reading of that tick. */
  datatype Supervisor =
    | Idle
    | Spawning(desired: nat, now: real)
    | Sampling(desired: nat, now: real)
    | Retiring(desired: nat, now: real)
    | Stopped

  datatype RampDown = Immediate | Graceful(cap: real) | Unbounded

  datatype Config = Config(stages: seq<Stage>, deadline: real, rampDown: RampDown) {
    function Max(): nat {
      Peak(stages)
    }
  }

  datatype State = State(
    clock: real,
    runCancelled: bool,
    desired: nat,                       // as published
    sup: Supervisor,
    spawned: nat,
    pcs: seq<Pc>,
    act: seq<nat>,                      // each user's own current or last token
    slab: seq<Option<nat>>,
    tokens: nat,                        // tokens created so far
    cancelled: set<nat>,
    retireSince: seq<Option<real>>,
    failed: nat,
    gauge: Option<nat>,                 // last sample of active users
    iterations: seq<nat>,               // history: iterations each user has started
    timed: seq<Option<nat>>             // history: the token each running timer was started for
  )

  datatype Result = RunAborted | AllVusFailed(failed: nat, total: nat) | RunOk

  /** How an iteration or a pause ends, and which branch of the park wait is taken. */
  datatype Choice = Completed | Late | Interrupted | Exhausted | EngineError | Notified

  datatype Event = Tick(clock: real) | CancelRun | Supervise | Vu(index: nat, choice: Choice)

  // ---------------------------------------------------------------------------------------
  // Transitions

  /** The curve's value, rounded half up and clamped to the largest target. */
  function DesiredAt(c: Config, t: real): nat {
    var r := (Rate(c.stages, 0.0, t) + 0.5).Floor;
    if r < 0 then 0 else if r > c.Max() then c.Max() else r
  }

  function Init(c: Config): State {
    var n := c.Max();
    State(0.0, false, 0, Idle, 0, seq(n, _ => NotSpawned), seq(n, _ => 0), seq(n, _ => None), 0, {},
          seq(n, _ => None), 0, None, seq(n, _ => 0), seq(n, _ => None))
  }

  function CountActive(slab: seq<Option<nat>>): nat {
    if slab == [] then 0 else (if slab[0].Some? then 1 else 0) + CountActive(slab[1..])
  }

  /** The timer of one index after a tick. */
  function Timer(entry: Option<nat>, since: Option<real>, index: nat, desired: nat, spawned: nat, now: real)
    : Option<real> {
    if index < desired then None
    else if index >= spawned then since
    else if entry.None? then None
    else if since.None? then Some(now)
    else since
  }

  /** A tick cancels a registered user past the desired count whose timer has run for `cap`. */
  predicate Expired(entry: Option<nat>, since: Option<real>, index: nat, desired: nat, spawned: nat, cap: real,
                    now: real) {
    desired <= index < spawned && entry.Some? && since.Some? && now - since.value >= cap
  }

  function Timed(entry: Option<nat>, timer: Option<real>, was: Option<nat>): Option<nat> {
    if timer.None? then None else if was.Some? then was else entry
  }

  function Retire(c: Config, s: State, desired: nat, now: real): State
    requires |s.slab| == |s.retireSince| == |s.timed|
  {
    match c.rampDown
    case Unbounded => s
    case Immediate =>
      s.(cancelled := s.cancelled + set i | 0 <= i < |s.slab| && i >= desired && s.slab[i].Some? :: s.slab[i].value)
    case Graceful(cap) =>
      var timers := seq(|s.slab|, i requires 0 <= i < |s.slab| =>
        Timer(s.slab[i], s.retireSince[i], i, desired, s.spawned, now));
      s.(cancelled := s.cancelled
                      + set i | 0 <= i < |s.slab|
                                && Expired(s.slab[i], s.retireSince[i], i, desired, s.spawned, cap, now)
                              :: s.slab[i].value,
         retireSince := timers,
         timed := seq(|s.slab|, i requires 0 <= i < |s.slab| => Timed(s.slab[i], timers[i], s.timed[i])))
  }

  /** The next action of the supervisor. */
  function SuperviseStep(c: Config, s: State): State
    requires Shaped(c, s)
  {
    match s.sup
    case Idle =>
      if s.runCancelled || s.clock >= c.deadline then s.(sup := Stopped)
      else s.(sup := Spawning(DesiredAt(c, s.clock), s.clock))
    case Spawning(desired, now) =>
      if s.spawned < desired && s.spawned < |s.pcs| then
        s.(pcs := s.pcs[s.spawned := BuildClient], spawned := s.spawned + 1)
      else s.(desired := desired, sup := Sampling(desired, now))
    case Sampling(desired, now) => s.(gauge := Some(CountActive(s.slab)), sup := Retiring(desired, now))
    case Retiring(desired, now) => Retire(c, s, desired, now).(sup := Idle)
    case Stopped => s
  }

  predicate TokenCancelled(s: State, i: nat)
    requires i < |s.act|
  {
    s.runCancelled || s.act[i] in s.cancelled
  }

  /** One action of a user: nothing, a step to another place, the start of an iteration, or a
      step that also registers or clears the user's slab entry. */
  datatype Move = Stay | Go(pc: Pc) | StartIteration | Register | ClearSlot(pc: Pc)

  /** The action user `i` takes; a choice the state does not allow changes nothing. */
  function VuMove(c: Config, s: State, i: nat, choice: Choice): Move
    requires i < |s.pcs| && i < |s.act|
  {
    var late := s.clock >= c.deadline;
    match s.pcs[i]
    case NotSpawned => Stay
    case BuildClient => Go(if choice.EngineError? then Done(EngineFailed) else ParkCancel)
    case ParkCancel => Go(if s.runCancelled then Done(Aborted) else ParkDeadline)
    case ParkDeadline => Go(if late then Done(Finished) else ParkDesired)
    case ParkDesired => Go(if s.desired <= i then Waiting else Activate)
    case Waiting =>
      if choice.Notified? && s.desired > i then Go(Activate)
      else if choice.Interrupted? && s.runCancelled then Go(Done(Aborted))
      else if choice.Late? && late then Go(Done(Finished))
      else Stay
    case Activate => Register
    case HeadDeadline => Go(if late then ClearThen(Finished) else HeadToken)
    case HeadToken => Go(if TokenCancelled(s, i) then Clear else HeadDesired)
    case HeadDesired => if s.desired <= i then Go(Clear) else StartIteration
    case Iterating =>
      (match choice
       case Completed => Go(Gate)
       case Late => if late then Go(ClearThen(Finished)) else Stay
       case Interrupted => if TokenCancelled(s, i) then Go(Clear) else Stay
       case Exhausted => Go(ClearThen(Finished))
       case EngineError => Go(ClearThen(EngineFailed))
       case Notified => Stay)
    case Gate => Go(if s.desired <= i then Clear else Pacing)
    case Pacing =>
      (match choice
       case Completed => Go(HeadDeadline)
       case Late => if late then Go(ClearThen(Finished)) else Stay
       case Interrupted => if TokenCancelled(s, i) then Go(Clear) else Stay
       case _ => Stay)
    case Clear => ClearSlot(AfterClear)
    case ClearThen(outcome) => ClearSlot(Done(outcome))
    case AfterClear => Go(if s.runCancelled then Done(Aborted) else ParkCancel)
    case Done(_) => Stay
  }

  function Goto(s: State, i: nat, pc: Pc): State
    requires i < |s.pcs|
  {
    s.(pcs := s.pcs[i := pc], failed := if pc.Failed() then s.failed + 1 else s.failed)
  }

  function Apply(s: State, i: nat, m: Move): State
    requires i < |s.pcs| == |s.act| == |s.slab| == |s.iterations|
  {
    match m
    case Stay => s
    case Go(pc) => Goto(s, i, pc)
    case StartIteration => Goto(s, i, Iterating).(iterations := s.iterations[i := s.iterations[i] + 1])
    case Register =>
      Goto(s, i, HeadDeadline).(act := s.act[i := s.tokens], slab := s.slab[i := Some(s.tokens)],
                                tokens := s.tokens + 1)
    case ClearSlot(pc) => Goto(s, i, pc).(slab := s.slab[i := None])
  }

  function VuStep(c: Config, s: State, i: nat, choice: Choice): State
    requires Shaped(c, s) && i < |s.pcs|
  {
    Apply(s, i, VuMove(c, s, i, choice))
  }

  predicate Shaped(c: Config, s: State) {
    |s.pcs| == |s.act| == |s.slab| == |s.retireSince| == |s.iterations| == |s.timed| == c.Max()
  }

  function Step(c: Config, s: State, e: Event): (t: State)
    requires Shaped(c, s)
    ensures Shaped(c, t)
  {
    match e
    case Tick(clock) => if clock >= s.clock then s.(clock := clock) else s
    case CancelRun => s.(runCancelled := true)
    case Supervise => SuperviseStep(c, s)
    case Vu(i, choice) => if i < |s.pcs| then VuStep(c, s, i, choice) else s
  }

  function Run(c: Config, events: seq<Event>): (s: State)
    ensures Shaped(c, s)
  {
    if events == [] then Init(c) else Step(c, Run(c, events[..|events| - 1]), events[|events| - 1])
  }

  // ---------------------------------------------------------------------------------------
  // The slab

  /** The slab holds a user's token exactly while that user is registered; tokens are unique; and
      only spawned users move. */
  ghost predicate SlabOk(c: Config, s: State) {
    && Shaped(c, s)
    && s.spawned <= c.Max()
    && (forall i :: s.spawned <= i < c.Max() ==> s.pcs[i] == NotSpawned)
    && (forall i :: 0 <= i < c.Max() ==> s.slab[i] == if s.pcs[i].Registered() then Some(s.act[i]) else None)
    && (forall i :: 0 <= i < c.Max() && s.pcs[i].Registered() ==> s.act[i] < s.tokens)
    && (forall i, j :: 0 <= i < j < c.Max() && s.pcs[i].Registered() && s.pcs[j].Registered() ==> s.act[i] != s.act[j])
    && (forall k :: k in s.cancelled ==> k < s.tokens)
  }

  /** A move fits the place it starts from: a plain step keeps the user's registration and leads
      to activation only past a wider desired count; only `Activate` registers; a clearing step
      starts registered and ends neither registered nor activating. */
  ghost predicate Fits(s: State, i: nat, m: Move)
    requires i < |s.pcs|
  {
    var pc := s.pcs[i];
    match m
    case Stay => true
    case Go(to) => (to.Registered() <==> pc.Registered()) && (to == Activate ==> s.desired > i)
                   && to != NotSpawned && pc != NotSpawned
    case StartIteration => pc == HeadDesired && s.desired > i
    case Register => pc == Activate
    case ClearSlot(to) => pc.Registered() && !to.Registered() && to != Activate && to != NotSpawned
  }

  lemma MoveFits(c: Config, s: State, i: nat, choice: Choice)
    requires i < |s.pcs| && i < |s.act|
    ensures Fits(s, i, VuMove(c, s, i, choice))
  {
  }

  lemma MoveKeepsSlab(c: Config, s: State, i: nat, m: Move)
    requires SlabOk(c, s) && i < |s.pcs| && Fits(s, i, m)
    ensures SlabOk(c, Apply(s, i, m))
  {
  }

  lemma RetireKeepsSlab(c: Config, s: State, desired: nat, now: real)
    requires SlabOk(c, s)
    ensures SlabOk(c, Retire(c, s, desired, now))
  {
    var t := Retire(c, s, desired, now);
    forall k | k in t.cancelled
      ensures k < t.tokens
    {
      if k !in s.cancelled {
        var i :| 0 <= i < |s.slab| && s.slab[i] == Some(k);
        assert s.pcs[i].Registered();
      }
    }
  }

  lemma SuperviseKeepsSlab(c: Config, s: State)
    requires SlabOk(c, s)
    ensures SlabOk(c, SuperviseStep(c, s))
  {
    if s.sup.Retiring? {
      RetireKeepsSlab(c, s, s.sup.desired, s.sup.now);
    } else if s.sup.Spawning? && s.spawned < s.sup.desired && s.spawned < |s.pcs| {
      SpawnKeepsSlab(c, s);
    }
  }

  lemma SpawnKeepsSlab(c: Config, s: State)
    requires SlabOk(c, s) && s.spawned < |s.pcs|
    ensures SlabOk(c, s.(pcs := s.pcs[s.spawned := BuildClient], spawned := s.spawned + 1))
  {
    var t := s.(pcs := s.pcs[s.spawned := BuildClient], spawned := s.spawned + 1);
    assert forall i :: 0 <= i < c.Max() ==> (t.pcs[i].Registered() <==> s.pcs[i].Registered());
  }

  lemma StepKeepsSlab(c: Config, s: State, e: Event)
    requires SlabOk(c, s)
    ensures SlabOk(c, Step(c, s, e))
  {
    match e
    case Tick(_) =>
    case CancelRun =>
    case Supervise => SuperviseKeepsSlab(c, s);
    case Vu(i, choice) =>
      if i < |s.pcs| {
        MoveFits(c, s, i, choice);
        MoveKeepsSlab(c, s, i, VuMove(c, s, i, choice));
      }
  }

  lemma {:induction false} SlabHolds(c: Config, events: seq<Event>)
    ensures SlabOk(c, Run(c, events))
  {
    if events != [] {
      SlabHolds(c, events[..|events| - 1]);
      StepKeepsSlab(c, Run(c, events[..|events| - 1]), events[|events| - 1]);
    }
  }

  // ---------------------------------------------------------------------------------------
  // The active-user gauge

  function CountRegistered(pcs: seq<Pc>): nat {
    if pcs == [] then 0 else (if pcs[0].Registered() then 1 else 0) + CountRegistered(pcs[1..])
  }

  lemma {:induction false} CountsAgree(slab: seq<Option<nat>>, pcs: seq<Pc>, limit: nat)
    requires |slab| == |pcs|
    requires forall i :: 0 <= i < |pcs| ==> (slab[i].Some? <==> pcs[i].Registered())
    requires forall i :: limit <= i < |pcs| ==> !pcs[i].Registered()
    ensures CountActive(slab) == CountRegistered(pcs) <= limit
    decreases |pcs|
  {
    if pcs != [] {
      forall i | 0 <= i < |pcs| - 1
        ensures slab[1..][i].Some? <==> pcs[1..][i].Registered()
        ensures limit - 1 <= i ==> !pcs[1..][i].Registered()
      {
        assert slab[i + 1].Some? <==> pcs[i + 1].Registered();
      }
      CountsAgree(slab[1..], pcs[1..], if limit > 0 then limit - 1 else 0);
    }
  }

  /** In every reachable state the count a tick samples is the number of users between
      registration and clearing, and at most the number spawned, itself at most the largest target. */
  lemma GaugeCountsActive(c: Config, events: seq<Event>)
    ensures var s := Run(c, events);
            && CountActive(s.slab) == CountRegistered(s.pcs)
            && CountActive(s.slab) <= s.spawned <= c.Max()
            && (s.sup.Sampling? ==> Run(c, events + [Supervise]).gauge == Some(CountRegistered(s.pcs)))
  {
    SlabHolds(c, events);
    var s := Run(c, events);
    assert (events + [Supervise])[..|events|] == events;
    CountsAgree(s.slab, s.pcs, s.spawned);
  }

  // ---------------------------------------------------------------------------------------
  // The published count

  predicate Ticking(s: State) {
    s.sup.Spawning? || s.sup.Sampling? || s.sup.Retiring?
  }

  /** The count is the curve's value at the moment, rounded to the nearest number. */
  ghost predicate Nearest(c: Config, count: nat, t: real) {
    0.0 <= t && count as real - 0.5 <= Rate(c.stages, 0.0, t) < count as real + 0.5
  }

  lemma DesiredIsNearest(c: Config, t: real)
    requires t >= 0.0
    ensures Nearest(c, DesiredAt(c, t), t) && DesiredAt(c, t) <= c.Max()
  {
    RateRange(c.stages, 0.0, t, c.Max() as real);
  }

  lemma {:induction false} ClockIsPositive(c: Config, events: seq<Event>)
    ensures Run(c, events).clock >= 0.0
    decreases |events|
  {
    if events != [] {
      var before, e := events[..|events| - 1], events[|events| - 1];
      ClockIsPositive(c, before);
      StepClock(c, Run(c, before), e);
    }
  }

  lemma StepClock(c: Config, s: State, e: Event)
    requires Shaped(c, s)
    ensures Step(c, s, e).clock >= s.clock
  {
  }

  /** What a step does to the tick: it begins one with a rounded count, goes on with the same count
      and clock reading, or ends it. */
  lemma StepTicks(c: Config, s: State, e: Event)
    requires Shaped(c, s)
    ensures var t := Step(c, s, e);
            Ticking(t) ==> if Ticking(s) then t.sup.desired == s.sup.desired && t.sup.now == s.sup.now
                           else s.sup.Idle? && t.sup == Spawning(DesiredAt(c, s.clock), s.clock)
  {
  }

  /** At every tick the count is the curve's value at the tick's clock reading, rounded; the largest
      target never cuts it off. */
  lemma {:induction false} CountFollowsCurve(c: Config, events: seq<Event>)
    ensures var s := Run(c, events); Ticking(s) ==> Nearest(c, s.sup.desired, s.sup.now) && s.sup.desired <= c.Max()
    decreases |events|
  {
    if events != [] {
      var before, e := events[..|events| - 1], events[|events| - 1];
      CountFollowsCurve(c, before);
      StepTicks(c, Run(c, before), e);
      ClockIsPositive(c, before);
      DesiredIsNearest(c, Run(c, before).clock);
    }
  }

  /** Event `q` of the run begins a tick with this count. */
  predicate TickStarts(c: Config, events: seq<Event>, q: nat, count: nat) {
    q < |events| && Run(c, events[..q]).sup.Idle?
    && var t := Run(c, events[..q + 1]); t.sup.Spawning? && t.sup.desired == count
  }

  /** Event `q` of the run ends the spawning of a tick and publishes this count. */
  predicate Publishes(c: Config, events: seq<Event>, q: nat, count: nat) {
    q < |events| && Run(c, events[..q + 1]).sup.Sampling?
    && var s := Run(c, events[..q]); s.sup.Spawning? && s.sup.desired == count
  }

  /** Since event `q` published, no other event has. */
  ghost predicate LastPublished(c: Config, events: seq<Event>, q: nat, count: nat) {
    Publishes(c, events, q, count) && forall p: nat, n: nat :: q < p < |events| ==> !Publishes(c, events, p, n)
  }

  lemma PrefixesSame(c: Config, events: seq<Event>, q: nat, count: nat)
    requires q < |events| - 1
    ensures TickStarts(c, events[..|events| - 1], q, count) <==> TickStarts(c, events, q, count)
    ensures Publishes(c, events[..|events| - 1], q, count) <==> Publishes(c, events, q, count)
  {
    hide Run;
    var before := events[..|events| - 1];
    assert before[..q] == events[..q] && before[..q + 1] == events[..q + 1];
  }

  lemma LastEvent(c: Config, events: seq<Event>)
    requires events != []
    ensures var last := |events| - 1;
            events[..last + 1] == events && Run(c, events) == Step(c, Run(c, events[..last]), events[last])
  {
  }

  lemma StepPublishes(c: Config, s: State, e: Event)
    requires Shaped(c, s)
    ensures var t := Step(c, s, e);
            t.desired == if s.sup.Spawning? && t.sup.Sampling? then s.sup.desired else s.desired
  {
  }

  /** The published count is that of the last tick that has finished spawning; before, it is 0. */
  lemma {:induction false} PublishedIsLast(c: Config, events: seq<Event>)
    ensures forall q: nat, n: nat :: LastPublished(c, events, q, n) ==> Run(c, events).desired == n
    ensures (forall q: nat, n: nat :: !Publishes(c, events, q, n)) ==> Run(c, events).desired == 0
    decreases |events|
  {
    hide Run, Step;
    if events == [] {
      NothingRun(c);
    } else {
      var before, last := events[..|events| - 1], |events| - 1;
      var s := Run(c, before);
      PublishedIsLast(c, before);
      LastEvent(c, events);
      StepPublishes(c, s, events[last]);
      assert s.sup.Spawning? ==> (Publishes(c, events, last, s.sup.desired) <==> Run(c, events).sup.Sampling?);
      forall q: nat, n: nat
        ensures q < last ==> (Publishes(c, before, q, n) <==> Publishes(c, events, q, n))
      {
        if q < last {
          PrefixesSame(c, events, q, n);
        }
      }
      forall q: nat, n: nat | LastPublished(c, events, q, n)
        ensures Run(c, events).desired == n
      {
        assert q < last ==> LastPublished(c, before, q, n);
      }
    }
  }

  lemma NothingRun(c: Config)
    ensures Run(c, []) == Init(c)
  {
  }

  lemma StepSpawns(c: Config, s: State, e: Event)
    requires Shaped(c, s)
    ensures var t := Step(c, s, e);
            && t.spawned == (if s.sup.Spawning? && t.sup == s.sup && e.Supervise? then s.spawned + 1 else s.spawned)
            && (t.spawned > s.spawned ==> s.spawned < s.sup.desired)
            && (s.sup.Spawning? && t.sup != s.sup ==> s.spawned >= s.sup.desired || s.spawned >= c.Max())
            && (t.sup.Spawning? && !s.sup.Spawning? ==> s.sup.Idle?)
  {
  }

  /** Users are spawned lazily: between the spawning of ticks there are as many as the largest count
      any tick so far began with; while a tick spawns, no more than that. */
  lemma {:induction false} SpawnedIsLargest(c: Config, events: seq<Event>)
    ensures var s := Run(c, events);
            && (forall q: nat, n: nat :: TickStarts(c, events, q, n) ==>
                                 n <= if s.sup.Spawning? && s.spawned < s.sup.desired then s.sup.desired else s.spawned)
            && (s.spawned > 0 ==> exists q: nat, n: nat :: TickStarts(c, events, q, n) && s.spawned <= n)
            && (s.sup.Spawning? ==> exists q: nat :: TickStarts(c, events, q, s.sup.desired))
    decreases |events|
  {
    hide Run, Step;
    if events == [] {
      NothingRun(c);
    } else {
      var before, last := events[..|events| - 1], |events| - 1;
      var s, t := Run(c, before), Run(c, events);
      SpawnedIsLargest(c, before);
      CountFollowsCurve(c, before);
      LastEvent(c, events);
      StepSpawns(c, s, events[last]);
      StepTicks(c, s, events[last]);
      forall q: nat, n: nat
        ensures q < last ==> (TickStarts(c, before, q, n) <==> TickStarts(c, events, q, n))
      {
        if q < last {
          PrefixesSame(c, events, q, n);
        }
      }
      assert t.sup.Spawning? && !s.sup.Spawning? ==> TickStarts(c, events, last, t.sup.desired);
    }
  }

  // ---------------------------------------------------------------------------------------
  // Failures

  function CountFailed(pcs: seq<Pc>): nat {
    if pcs == [] then 0 else (if pcs[0].Failed() then 1 else 0) + CountFailed(pcs[1..])
  }

  lemma {:induction false} CountFailedUpdate(pcs: seq<Pc>, i: nat, pc: Pc)
    requires i < |pcs|
    ensures CountFailed(pcs[i := pc])
         == CountFailed(pcs) - (if pcs[i].Failed() then 1 else 0) + (if pc.Failed() then 1 else 0)
  {
    var t := pcs[i := pc];
    if i == 0 {
      assert t[1..] == pcs[1..];
    } else {
      assert t[1..] == pcs[1..][i - 1 := pc];
      CountFailedUpdate(pcs[1..], i - 1, pc);
    }
  }

  /** Only an engine error, or an abort of the whole run, ends a user with an error, and the
      failure counter counts exactly those users. */
  ghost predicate FailuresOk(c: Config, s: State) {
    && SlabOk(c, s)
    && s.failed == CountFailed(s.pcs)
    && (forall i :: 0 <= i < c.Max() && s.pcs[i] == Done(Aborted) ==> s.runCancelled)
    && (forall i :: 0 <= i < c.Max() ==> s.pcs[i] != ClearThen(Aborted))
  }

  /** No move leaves a final place, and only an aborted run makes a user end as aborted. */
  ghost predicate EndsFairly(s: State, i: nat, m: Move)
    requires i < |s.pcs|
  {
    match m
    case Stay => true
    case Go(to) => !s.pcs[i].Done? && (to == Done(Aborted) ==> s.runCancelled) && to != ClearThen(Aborted)
    case ClearSlot(to) => s.pcs[i] != ClearThen(Aborted) ==> to != Done(Aborted) && to != ClearThen(Aborted)
    case StartIteration => true
    case Register => true
  }

  lemma MoveEndsFairly(c: Config, s: State, i: nat, choice: Choice)
    requires i < |s.pcs| && i < |s.act|
    ensures EndsFairly(s, i, VuMove(c, s, i, choice))
  {
  }

  function Target(m: Move): Pc
    requires !m.Stay?
  {
    match m
    case Go(pc) => pc
    case StartIteration => Iterating
    case Register => HeadDeadline
    case ClearSlot(pc) => pc
  }

  lemma ApplyKeepsFailures(c: Config, s: State, i: nat, m: Move)
    requires FailuresOk(c, s) && i < |s.pcs| && EndsFairly(s, i, m) && Fits(s, i, m)
    ensures FailuresOk(c, Apply(s, i, m))
  {
    MoveKeepsSlab(c, s, i, m);
    if !m.Stay? {
      var t := Apply(s, i, m);
      assert t.pcs == s.pcs[i := Target(m)];
      assert t.failed == if Target(m).Failed() then s.failed + 1 else s.failed;
      CountFailedUpdate(s.pcs, i, Target(m));
    }
  }

  lemma SpawnKeepsFailures(c: Config, s: State)
    requires FailuresOk(c, s) && s.sup.Spawning?
    ensures FailuresOk(c, SuperviseStep(c, s))
  {
    SuperviseKeepsSlab(c, s);
    if s.spawned < |s.pcs| {
      CountFailedUpdate(s.pcs, s.spawned, BuildClient);
    }
  }

  lemma SuperviseKeepsFailures(c: Config, s: State)
    requires FailuresOk(c, s)
    ensures FailuresOk(c, SuperviseStep(c, s))
  {
    if s.sup.Spawning? {
      SpawnKeepsFailures(c, s);
    } else {
      SuperviseKeepsSlab(c, s);
      var t := SuperviseStep(c, s);
      assert t.pcs == s.pcs && t.failed == s.failed && t.runCancelled == s.runCancelled;
    }
  }

  lemma {:induction false} FailuresHold(c: Config, events: seq<Event>)
    ensures FailuresOk(c, Run(c, events))
  {
    if events == [] {
      NoneFailed(c.Max());
    } else {
      var before, e := events[..|events| - 1], events[|events| - 1];
      FailuresHold(c, before);
      match e
      case Tick(_) =>
      case CancelRun =>
      case Supervise => SuperviseKeepsFailures(c, Run(c, before));
      case Vu(i, choice) =>
        if i < |Run(c, before).pcs| {
          MoveFits(c, Run(c, before), i, choice);
          MoveEndsFairly(c, Run(c, before), i, choice);
          ApplyKeepsFailures(c, Run(c, before), i, VuMove(c, Run(c, before), i, choice));
        }
    }
  }

  lemma {:induction false} NoneFailed(n: nat)
    ensures CountFailed(seq(n, _ => NotSpawned)) == 0
  {
    var q := seq(n, _ => NotSpawned);
    if n > 0 {
      assert q[1..] == seq(n - 1, _ => NotSpawned);
      NoneFailed(n - 1);
    }
  }

  /** Whatever the retire cancellations do, a run that is not aborted counts as failed exactly the
      users that met an engine error. */
  lemma RetireNeverFails(c: Config, events: seq<Event>, i: nat)
    requires i < c.Max() && !Run(c, events).runCancelled
    ensures var s := Run(c, events);
            && s.failed == CountFailed(s.pcs)
            && (s.pcs[i].Failed() <==> s.pcs[i] == Done(EngineFailed))
  {
    FailuresHold(c, events);
  }

  function Outcomes(s: State): Result {
    if s.runCancelled then RunAborted
    else if s.spawned > 0 && s.failed >= s.spawned then AllVusFailed(s.failed, s.spawned)
    else RunOk
  }

  lemma {:induction false} AllCounted(pcs: seq<Pc>, limit: nat)
    requires limit <= |pcs| && forall i :: limit <= i < |pcs| ==> !pcs[i].Failed()
    ensures CountFailed(pcs) <= limit
    ensures CountFailed(pcs) == limit <==> forall i :: 0 <= i < limit ==> pcs[i].Failed()
    decreases |pcs|
  {
    if pcs != [] {
      forall i | limit - 1 <= i < |pcs| - 1
        ensures i >= 0 ==> !pcs[1..][i].Failed()
      {
      }
      if limit > 0 {
        AllCounted(pcs[1..], limit - 1);
        assert (forall i :: 0 <= i < limit - 1 ==> pcs[1..][i].Failed())
          <==> (forall i :: 1 <= i < limit ==> pcs[i].Failed()) by {
          assert forall i :: 1 <= i < limit ==> pcs[i] == pcs[1..][i - 1];
        }
      } else {
        AllCounted(pcs[1..], 0);
      }
    }
  }

  /** A run that was not aborted is reported as failed exactly when it spawned users and every
      one of them met an engine error. */
  lemma AllFailedMeansAll(c: Config, events: seq<Event>)
    ensures var s := Run(c, events);
            && s.spawned <= |s.pcs|
            && (Outcomes(s).RunAborted? <==> s.runCancelled)
            && (Outcomes(s).AllVusFailed? ==> Outcomes(s).failed == Outcomes(s).total == s.spawned)
            && (!s.runCancelled ==>
                  (Outcomes(s).AllVusFailed?
                   <==> s.spawned > 0 && forall i :: 0 <= i < s.spawned ==> s.pcs[i] == Done(EngineFailed)))
  {
    FailuresHold(c, events);
    var s := Run(c, events);
    AllCounted(s.pcs, s.spawned);
  }

  // ---------------------------------------------------------------------------------------
  // Retirement

  /** User `i` only starts an iteration while the published count is above its index: over any
      stretch of events with the count at or below it, the number of its iterations stays. */
  lemma {:induction false} NoIterationWhileRetired(c: Config, events: seq<Event>, from: nat, i: nat)
    requires from <= |events| && i < c.Max()
    requires forall k :: from <= k <= |events| ==> Run(c, events[..k]).desired <= i
    ensures Run(c, events).iterations[i] == Run(c, events[..from]).iterations[i]
  {
    assert events[..|events|] == events;
    if from < |events| {
      var before, e := events[..|events| - 1], events[|events| - 1];
      forall k | from <= k <= |before|
        ensures Run(c, before[..k]).desired <= i
      {
        assert before[..k] == events[..k];
      }
      assert before[..from] == events[..from];
      NoIterationWhileRetired(c, before, from, i);
      assert before[..|before|] == before;
      IterationNeedsDesire(c, Run(c, before), e, i);
    }
  }

  lemma IterationNeedsDesire(c: Config, s: State, e: Event, i: nat)
    requires Shaped(c, s) && i < c.Max() && s.desired <= i
    ensures Step(c, s, e).iterations[i] == s.iterations[i]
  {
    if e.Vu? && e.index < |s.pcs| {
      MoveFits(c, s, e.index, e.choice);
    }
  }

  /** The tick in progress has published a count above `i` and will reset index `i`'s timer. */
  predicate Resetting(s: State, i: nat) {
    (s.sup.Sampling? || s.sup.Retiring?) && s.sup.desired > i
  }

  /** A running timer of index `i` belongs to the activation it was started for, as long as the
      tick in progress does not reset it. */
  ghost predicate TimerOk(s: State, i: nat)
    requires i < |s.pcs| && i < |s.act| && i < |s.retireSince| && i < |s.timed|
  {
    var since := s.retireSince[i];
    && (since.Some? <==> s.timed[i].Some?)
    && (since.Some? ==>
          && i < s.spawned
          && (!Resetting(s, i) ==>
                s.desired <= i && s.pcs[i] != Activate && (s.pcs[i].Registered() ==> s.timed[i] == Some(s.act[i]))))
  }

  ghost predicate TimersOk(c: Config, s: State) {
    && SlabOk(c, s)
    && (s.sup.Sampling? || s.sup.Retiring? ==> s.desired == s.sup.desired)
    && forall i :: 0 <= i < c.Max() ==> TimerOk(s, i) && (s.retireSince[i].Some? ==> c.rampDown.Graceful?)
  }

  lemma MoveKeepsTimers(c: Config, s: State, i: nat, m: Move)
    requires TimersOk(c, s) && i < |s.pcs| && Fits(s, i, m)
    ensures TimersOk(c, Apply(s, i, m))
  {
    MoveKeepsSlab(c, s, i, m);
    var t := Apply(s, i, m);
    forall j | 0 <= j < c.Max()
      ensures TimerOk(t, j)
    {
      assert TimerOk(s, j);
    }
  }

  lemma RetireKeepsTimer(c: Config, s: State, i: nat)
    requires TimersOk(c, s) && s.sup.Retiring? && i < c.Max()
    ensures TimerOk(SuperviseStep(c, s), i)
    ensures SuperviseStep(c, s).retireSince[i].Some? ==> c.rampDown.Graceful?
  {
    var t := SuperviseStep(c, s);
    assert TimerOk(s, i);
    match c.rampDown
    case Graceful(cap) =>
    case Immediate =>
    case Unbounded =>
  }

  lemma SuperviseKeepsTimers(c: Config, s: State)
    requires TimersOk(c, s)
    ensures TimersOk(c, SuperviseStep(c, s))
  {
    SuperviseKeepsSlab(c, s);
    forall i | 0 <= i < c.Max()
      ensures TimerOk(SuperviseStep(c, s), i)
      ensures SuperviseStep(c, s).retireSince[i].Some? ==> c.rampDown.Graceful?
    {
      assert TimerOk(s, i);
      if s.sup.Retiring? {
        RetireKeepsTimer(c, s, i);
      }
    }
  }

  lemma {:induction false} TimersHold(c: Config, events: seq<Event>)
    ensures TimersOk(c, Run(c, events))
  {
    if events != [] {
      var before, e := events[..|events| - 1], events[|events| - 1];
      TimersHold(c, before);
      var s := Run(c, before);
      SlabHolds(c, events);
      match e
      case Supervise => SuperviseKeepsTimers(c, s);
      case Vu(i, choice) =>
        if i < |s.pcs| {
          MoveFits(c, s, i, choice);
          MoveKeepsTimers(c, s, i, VuMove(c, s, i, choice));
        }
      case _ =>
        assert forall i :: 0 <= i < c.Max() ==> TimerOk(s, i);
    }
  }

  // ---------------------------------------------------------------------------------------
  // What a timer means, in terms of the run

  /** Event `q` of the run ends a tick: the supervisor retires. */
  predicate TickEnds(c: Config, events: seq<Event>, q: nat) {
    q < |events| && events[q].Supervise? && Run(c, events[..q]).sup.Retiring?
  }

  /** At the tick that event `q` ends, user `i` is not wanted and registered with token `k`. */
  predicate OverDesired(c: Config, events: seq<Event>, q: nat, i: nat, k: nat)
    requires i < c.Max() && q < |events|
  {
    var s := Run(c, events[..q]);
    s.sup.Retiring? && s.sup.desired <= i && s.slab[i] == Some(k)
  }

  /** Since the tick that event `from` ends, at every tick of the run user `i` has not been wanted and
      has been registered with the same token `k`. */
  ghost predicate Lingers(c: Config, events: seq<Event>, from: nat, i: nat, k: nat)
    requires i < c.Max()
  {
    && TickEnds(c, events, from)
    && forall q :: from <= q < |events| && TickEnds(c, events, q) ==> OverDesired(c, events, q, i, k)
  }

  /** The clock reading of the tick that event `q` ends. */
  function TickTime(c: Config, events: seq<Event>, q: nat): real
    requires TickEnds(c, events, q)
  {
    Run(c, events[..q]).sup.now
  }

  lemma EndsSame(c: Config, events: seq<Event>, q: nat)
    requires q < |events| - 1
    ensures events[..|events| - 1][..q] == events[..q] && events[..|events| - 1][q] == events[q]
    ensures TickEnds(c, events[..|events| - 1], q) <==> TickEnds(c, events, q)
  {
  }

  lemma LingersOneMore(c: Config, events: seq<Event>, from: nat, i: nat, k: nat)
    requires i < c.Max() && from < |events| - 1
    ensures Lingers(c, events, from, i, k)
            <==> Lingers(c, events[..|events| - 1], from, i, k)
                 && (TickEnds(c, events, |events| - 1) ==> OverDesired(c, events, |events| - 1, i, k))
  {
    hide Run;
    var before, last := events[..|events| - 1], |events| - 1;
    forall q: nat | q < last
      ensures TickEnds(c, before, q) <==> TickEnds(c, events, q)
      ensures OverDesired(c, before, q, i, k) <==> OverDesired(c, events, q, i, k)
    {
      EndsSame(c, events, q);
    }
  }

  /** A supervisor's step moves a timer only at the end of a tick. */
  lemma TimerSteps(c: Config, events: seq<Event>, i: nat)
    requires i < c.Max() && events != []
    ensures var before, last := events[..|events| - 1], |events| - 1;
            var s, t := Run(c, before), Run(c, events);
            if TickEnds(c, events, last) && c.rampDown.Graceful? then
              && t.retireSince[i] == Timer(s.slab[i], s.retireSince[i], i, s.sup.desired, s.spawned, s.sup.now)
              && t.timed[i] == Timed(s.slab[i], t.retireSince[i], s.timed[i])
            else t.retireSince[i] == s.retireSince[i] && t.timed[i] == s.timed[i]
  {
    assert events[..|events| - 1] == events[..|events| - 1][..];
    var e := events[|events| - 1];
    if e.Vu? && e.index < c.Max() {
      MoveFits(c, Run(c, events[..|events| - 1]), e.index, e.choice);
    }
  }

  /** A running timer was started at the end of a tick, and the user has lingered since then: at
      every tick over-desired, and registered with the token of the same activation. */
  lemma {:induction false} TimerMeaning(c: Config, events: seq<Event>, i: nat) returns (from: nat)
    requires i < c.Max() && Run(c, events).retireSince[i].Some?
    ensures var s := Run(c, events);
            && TickEnds(c, events, from) && s.retireSince[i].value == TickTime(c, events, from)
            && s.timed[i].Some? && Lingers(c, events, from, i, s.timed[i].value)
            && (!Resetting(s, i) && s.slab[i].Some? ==> s.slab[i] == s.timed[i])
    decreases |events|
  {
    hide Step;
    TimersHold(c, events);
    if events == [] {
      assert false;
    } else {
      var before, last := events[..|events| - 1], |events| - 1;
      var s := Run(c, before);
      TimersHold(c, before);
      TimerSteps(c, events, i);
      assert TimerOk(s, i) && TimerOk(Run(c, events), i);
      if s.retireSince[i].Some? {
        from := TimerMeaning(c, before, i);
        EndsSame(c, events, from);
        LingersOneMore(c, events, from, i, s.timed[i].value);
      } else {
        from := last;
      }
    }
  }

  /** The clock of a tick is the run's clock or earlier, and timers start in the past. */
  ghost predicate ClockOk(c: Config, s: State)
    requires Shaped(c, s)
  {
    && (s.sup.Spawning? || s.sup.Sampling? || s.sup.Retiring? ==> s.sup.now <= s.clock)
    && forall i :: 0 <= i < c.Max() && s.retireSince[i].Some? ==>
                     s.retireSince[i].value <= if s.sup.Spawning? || s.sup.Sampling?
                         || s.sup.Retiring? then s.sup.now else s.clock
  }

  lemma {:induction false} ClockHolds(c: Config, events: seq<Event>)
    ensures ClockOk(c, Run(c, events))
    decreases |events|
  {
    if events != [] {
      var before, e := events[..|events| - 1], events[|events| - 1];
      ClockHolds(c, before);
      forall i | 0 <= i < c.Max()
        ensures Run(c, events).retireSince[i].Some? && Run(c, before).retireSince[i].None? ==>
                  TickEnds(c, events, |events| - 1) && Run(c, events).retireSince[i].value == Run(c, before).sup.now
        ensures Run(c, events).retireSince[i].Some? && Run(c, before).retireSince[i].Some? ==>
                  Run(c, events).retireSince[i] == Run(c, before).retireSince[i]
      {
        TimerSteps(c, events, i);
      }
      if e.Vu? && e.index < c.Max() {
        MoveFits(c, Run(c, before), e.index, e.choice);
      }
    }
  }

  /** A user that lingers since a tick has a timer at least that old. */
  lemma {:induction false} LingeringIsTimed(c: Config, events: seq<Event>, from: nat, i: nat, k: nat)
    requires i < c.Max() && c.rampDown.Graceful? && Lingers(c, events, from, i, k)
    ensures Run(c, events).retireSince[i].Some? && Run(c, events).retireSince[i].value <= TickTime(c, events, from)
    decreases |events|
  {
    var before, last := events[..|events| - 1], |events| - 1;
    TimerSteps(c, events, i);
    SlabHolds(c, before);
    if from < last {
      EndsSame(c, events, from);
      LingersOneMore(c, events, from, i, k);
      LingeringIsTimed(c, before, from, i, k);
      assert TickEnds(c, events, last) ==> OverDesired(c, events, last, i, k);
    } else {
      ClockHolds(c, before);
      assert OverDesired(c, events, last, i, k);
    }
  }

  /** User `i`, registered with token `k`, is not wanted in the tick in progress, and has lingered
      with that token at every tick for at least `cap`. */
  ghost predicate LingersFor(c: Config, events: seq<Event>, i: nat, k: nat, cap: real)
    requires Run(c, events).sup.Retiring?
  {
    var s := Run(c, events);
    && i < c.Max() && s.sup.desired <= i && s.slab[i] == Some(k)
    && exists from :: Lingers(c, events, from, i, k) && s.sup.now - TickTime(c, events, from) >= cap
  }

  predicate ExpiresIn(s: State, cap: real, i: nat, k: nat)
    requires |s.slab| == |s.retireSince| && s.sup.Retiring?
  {
    i < |s.slab| && s.slab[i] == Some(k) && Expired(s.slab[i], s.retireSince[i], i, s.sup.desired, s.spawned, cap,
                                                    s.sup.now)
  }

  lemma GracefulStep(c: Config, s: State, k: nat)
    requires Shaped(c, s) && s.sup.Retiring? && c.rampDown.Graceful?
    ensures k in SuperviseStep(c, s).cancelled <==> k in s.cancelled || exists i :: ExpiresIn(s, c.rampDown.cap, i, k)
  {
    if i :| ExpiresIn(s, c.rampDown.cap, i, k) {
      assert k in Retire(c, s, s.sup.desired, s.sup.now).cancelled;
    }
    if k in SuperviseStep(c, s).cancelled && k !in s.cancelled {
      var i :| 0 <= i < |s.slab| && s.slab[i] == Some(k)
               && Expired(s.slab[i], s.retireSince[i], i, s.sup.desired, s.spawned, c.rampDown.cap, s.sup.now);
      assert ExpiresIn(s, c.rampDown.cap, i, k);
    }
  }

  /** A graceful tick cancels a token exactly when its user has lingered with it, at every tick of the
      run over a stretch of at least `cap`, up to and including this tick. */
  lemma CancelsExactlyTheLingering(c: Config, events: seq<Event>, k: nat)
    requires Run(c, events).sup.Retiring? && c.rampDown.Graceful?
    ensures var s, t := Run(c, events), Run(c, events + [Supervise]);
            k in t.cancelled <==> k in s.cancelled || exists i :: LingersFor(c, events, i, k, c.rampDown.cap)
  {
    assert (events + [Supervise])[..|events|] == events;
    var s, cap := Run(c, events), c.rampDown.cap;
    assert Run(c, events + [Supervise]) == SuperviseStep(c, s);
    hide Run, SuperviseStep, Retire, Lingers;
    GracefulStep(c, s, k);
    if i :| ExpiresIn(s, cap, i, k) {
      ExpiredLingers(c, events, i, k);
    }
    if i :| LingersFor(c, events, i, k, cap) {
      LingeringExpires(c, events, i, k);
    }
  }

  lemma ExpiredLingers(c: Config, events: seq<Event>, i: nat, k: nat)
    requires Run(c, events).sup.Retiring? && c.rampDown.Graceful? && ExpiresIn(Run(c, events), c.rampDown.cap, i, k)
    ensures LingersFor(c, events, i, k, c.rampDown.cap)
  {
    hide Run, Lingers;
    var from := TimerMeaning(c, events, i);
    assert Lingers(c, events, from, i, k);
  }

  lemma LingeringExpires(c: Config, events: seq<Event>, i: nat, k: nat)
    requires Run(c, events).sup.Retiring? && c.rampDown.Graceful? && LingersFor(c, events, i, k, c.rampDown.cap)
    ensures ExpiresIn(Run(c, events), c.rampDown.cap, i, k)
  {
    hide Run;
    var s := Run(c, events);
    var from :| Lingers(c, events, from, i, k) && s.sup.now - TickTime(c, events, from) >= c.rampDown.cap;
    LingeringIsTimed(c, events, from, i, k);
    TimersHold(c, events);
    assert TimerOk(s, i);
  }

  /** With immediate ramp-down a tick cancels the token of every registered user past the desired
      count; in no mode does a tick cancel the token of a user the published count still wants; and an
      unbounded ramp-down cancels nothing. */
  lemma TickCancelsOnlyRetired(c: Config, events: seq<Event>, i: nat)
    requires Run(c, events).sup.Retiring? && i < c.Max() && Run(c, events).slab[i].Some?
    ensures var s, t := Run(c, events), Run(c, events + [Supervise]);
            && (c.rampDown.Immediate? && s.sup.desired <= i ==> TokenCancelled(t, i))
            && (i < s.sup.desired ==> TokenCancelled(t, i) == TokenCancelled(s, i))
            && (c.rampDown.Unbounded? ==> t.cancelled == s.cancelled)
  {
    SlabHolds(c, events);
    assert (events + [Supervise])[..|events|] == events;
    var s, t := Run(c, events), Run(c, events + [Supervise]);
    assert t == SuperviseStep(c, s) && s.slab[i] == Some(s.act[i]);
    assert forall j :: 0 <= j < |s.slab| && s.slab[j] == Some(s.act[i]) ==> j == i;
  }

  // ---------------------------------------------------------------------------------------
  // Progress

  /** The moves of user `i` alone, in this order. */
  function Own(i: nat, moves: seq<Choice>): seq<Event> {
    if moves == [] then [] else [Vu(i, moves[0])] + Own(i, moves[1..])
  }

  lemma OwnFirst(c: Config, events: seq<Event>, i: nat, first: Choice, rest: seq<Choice>)
    requires i < c.Max()
    ensures events + Own(i, [first] + rest) == events + [Vu(i, first)] + Own(i, rest)
    ensures Run(c, events + [Vu(i, first)]) == VuStep(c, Run(c, events), i, first)
  {
    assert ([first] + rest)[1..] == rest;
    assert (events + [Vu(i, first)])[..|events|] == events;
  }

  /** A spawned user before the end of the run, neither ended nor about to end. */
  predicate Alive(c: Config, s: State, i: nat)
    requires Shaped(c, s)
  {
    && i < c.Max() && s.pcs[i] != NotSpawned && !s.pcs[i].Done? && !s.pcs[i].ClearThen?
    && !s.runCancelled && s.clock < c.deadline
  }

  /** How many moves a wanted user is away from the start of an iteration. */
  function ToIteration(pc: Pc, tokenCancelled: bool): nat {
    match pc
    case HeadDesired => 1
    case HeadToken => if tokenCancelled then 10 else 2
    case HeadDeadline => if tokenCancelled then 11 else 3
    case Activate => 4
    case ParkDesired => 5
    case Waiting => 5
    case ParkDeadline => 6
    case ParkCancel => 7
    case Clear => 9
    case Pacing => 12
    case Gate => 13
    case Iterating => 14
    case _ => 8
  }

  lemma TokensAreFresh(c: Config, s: State)
    requires SlabOk(c, s)
    ensures Shaped(c, s) && s.tokens !in s.cancelled
  {
  }

  lemma Applied(c: Config, s: State, i: nat, m: Move)
    requires Shaped(c, s) && i < c.Max() && !m.Stay?
    ensures var t := Apply(s, i, m);
            && Shaped(c, t) && t.pcs[i] == Target(m) && t.desired == s.desired
            && t.clock == s.clock && t.runCancelled == s.runCancelled && t.cancelled == s.cancelled
            && t.act[i] == (if m.Register? then s.tokens else s.act[i])
            && t.slab == (if m.Register? then s.slab[i := Some(s.tokens)]
                          else if m.ClearSlot? then s.slab[i := None] else s.slab)
            && t.iterations == if m.StartIteration? then s.iterations[i := s.iterations[i] + 1] else s.iterations
  {
  }

  lemma VuKeepsSlab(c: Config, s: State, i: nat, choice: Choice)
    requires SlabOk(c, s) && i < c.Max()
    ensures SlabOk(c, VuStep(c, s, i, choice))
  {
    MoveFits(c, s, i, choice);
    MoveKeepsSlab(c, s, i, VuMove(c, s, i, choice));
  }

  /** User `i` is registered with a token that is not cancelled, and has no reason to give it up. */
  predicate Keeping(s: State, i: nat)
    requires i < |s.pcs| && i < |s.act|
  {
    s.pcs[i].Registered() && !s.pcs[i].Clear? && !s.pcs[i].ClearThen? && !TokenCancelled(s, i)
  }

  lemma WantedMove(c: Config, s: State, i: nat)
    requires SlabOk(c, s) && Alive(c, s, i) && s.desired > i
    ensures var t := VuStep(c, s, i, if s.pcs[i].Waiting? then Notified else Completed);
            || t.iterations[i] == s.iterations[i] + 1
            || (&& t.iterations == s.iterations && t.desired == s.desired && SlabOk(c, t) && Alive(c, t, i)
                && ToIteration(t.pcs[i], TokenCancelled(t, i)) < ToIteration(s.pcs[i], TokenCancelled(s, i)))
    ensures var t := VuStep(c, s, i, if s.pcs[i].Waiting? then Notified else Completed);
            Keeping(s, i) ==> t.slab == s.slab && Keeping(t, i)
  {
    hide SlabOk, Apply;
    TokensAreFresh(c, s);
    var choice := if s.pcs[i].Waiting? then Notified else Completed;
    VuKeepsSlab(c, s, i, choice);
    Applied(c, s, i, VuMove(c, s, i, choice));
  }

  /** A wanted user is never stuck: whatever happened before, and whatever has been cancelled, its
      next iteration is at most 14 moves of its own away; and if it is registered with a token that is
      not cancelled, it starts the iteration with that token. */
  lemma {:induction false} WantedUserIterates(c: Config, events: seq<Event>, i: nat) returns (moves: seq<Choice>)
    requires Alive(c, Run(c, events), i) && Run(c, events).desired > i
    ensures |moves| <= ToIteration(Run(c, events).pcs[i], TokenCancelled(Run(c, events), i)) <= 14
    ensures Run(c, events + Own(i, moves)).iterations[i] == Run(c, events).iterations[i] + 1
    ensures Keeping(Run(c, events), i) ==> Run(c, events + Own(i, moves)).slab == Run(c, events).slab
    decreases ToIteration(Run(c, events).pcs[i], TokenCancelled(Run(c, events), i))
  {
    hide Run, VuStep, SlabOk;
    var s := Run(c, events);
    SlabHolds(c, events);
    WantedMove(c, s, i);
    var choice := if s.pcs[i].Waiting? then Notified else Completed;
    var after := events + [Vu(i, choice)];
    OwnFirst(c, events, i, choice, []);
    moves := [choice];
    assert after + Own(i, []) == after;
    if Run(c, after).iterations[i] != s.iterations[i] + 1 {
      var rest := WantedUserIterates(c, after, i);
      OwnFirst(c, events, i, choice, rest);
      moves := [choice] + rest;
    }
  }

  /** How many moves an unwanted user is away from waiting. */
  function ToWaiting(pc: Pc): nat {
    match pc
    case Waiting => 0
    case ParkDesired => 1
    case ParkDeadline => 2
    case ParkCancel => 3
    case Clear => 5
    case Gate => 6
    case HeadDesired => 6
    case Iterating => 7
    case HeadToken => 7
    case HeadDeadline => 8
    case Activate => 9
    case Pacing => 9
    case _ => 4
  }

  lemma UnwantedMove(c: Config, s: State, i: nat)
    requires SlabOk(c, s) && Alive(c, s, i) && s.desired <= i && !s.pcs[i].Waiting?
    ensures var t := VuStep(c, s, i, Completed);
            && t.iterations == s.iterations && t.desired == s.desired && SlabOk(c, t) && Alive(c, t, i)
            && ToWaiting(t.pcs[i]) < ToWaiting(s.pcs[i])
  {
    hide SlabOk, Apply;
    TokensAreFresh(c, s);
    VuKeepsSlab(c, s, i, Completed);
    Applied(c, s, i, VuMove(c, s, i, Completed));
  }

  /** An unwanted user parks: it finishes its iteration, starts no other, and after at most 9 moves of
      its own it waits, no longer counted as active. */
  lemma {:induction false} UnwantedUserParks(c: Config, events: seq<Event>, i: nat) returns (moves: seq<Choice>)
    requires Alive(c, Run(c, events), i) && Run(c, events).desired <= i
    ensures |moves| <= ToWaiting(Run(c, events).pcs[i]) <= 9
    ensures var t := Run(c, events + Own(i, moves));
            t.pcs[i] == Waiting && t.slab[i] == None && t.iterations == Run(c, events).iterations
    decreases ToWaiting(Run(c, events).pcs[i])
  {
    hide Run, VuStep;
    var s := Run(c, events);
    SlabHolds(c, events);
    moves := [];
    assert events + Own(i, []) == events;
    if !s.pcs[i].Waiting? {
      UnwantedMove(c, s, i);
      OwnFirst(c, events, i, Completed, []);
      var rest := UnwantedUserParks(c, events + [Vu(i, Completed)], i);
      OwnFirst(c, events, i, Completed, rest);
      moves := [Completed] + rest;
    }
  }

  function ToClear(pc: Pc): nat {
    match pc
    case Clear => 1
    case HeadToken => 2
    case Iterating => 2
    case Pacing => 2
    case HeadDeadline => 3
    case Gate => 3
    case HeadDesired => 3
    case _ => 0
  }

  lemma CancelledMove(c: Config, s: State, i: nat)
    requires SlabOk(c, s) && Alive(c, s, i) && s.slab[i].Some? && s.slab[i].value in s.cancelled
    ensures var t := VuStep(c, s, i, Interrupted);
            || t.slab[i].None?
            || (&& t.slab == s.slab && t.cancelled == s.cancelled && SlabOk(c, t) && Alive(c, t, i)
                && ToClear(t.pcs[i]) < ToClear(s.pcs[i]))
  {
    hide Apply;
    VuKeepsSlab(c, s, i, Interrupted);
    Applied(c, s, i, VuMove(c, s, i, Interrupted));
  }

  /** A cancelled user need not finish its iteration: at most 3 moves, none of them the end of an
      iteration or of a pause, take it off the slab. */
  lemma {:induction false} CancelledUserLeaves(c: Config, events: seq<Event>, i: nat) returns (moves: seq<Choice>)
    requires Alive(c, Run(c, events), i)
    requires Run(c, events).slab[i].Some? && Run(c, events).slab[i].value in Run(c, events).cancelled
    ensures |moves| <= ToClear(Run(c, events).pcs[i]) <= 3 && forall k :: 0 <= k < |moves| ==> moves[k] == Interrupted
    ensures Run(c, events + Own(i, moves)).slab[i] == None
    decreases ToClear(Run(c, events).pcs[i])
  {
    hide Run, VuStep;
    var s := Run(c, events);
    SlabHolds(c, events);
    CancelledMove(c, s, i);
    var after := events + [Vu(i, Interrupted)];
    OwnFirst(c, events, i, Interrupted, []);
    moves := [Interrupted];
    assert after + Own(i, []) == after;
    if Run(c, after).slab[i].Some? {
      var rest := CancelledUserLeaves(c, after, i);
      OwnFirst(c, events, i, Interrupted, rest);
      moves := [Interrupted] + rest;
    }
  }

  /** How many moves a user is away from its end once the deadline has passed or the run is cancelled. */
  function ToEnd(pc: Pc, late: bool): nat {
    match pc
    case Done(_) => 0
    case ClearThen(_) => 1
    case Waiting => 1
    case ParkCancel => if late then 2 else 1
    case ParkDeadline => if late then 1 else 7
    case ParkDesired => if late then 4 else 6
    case BuildClient => if late then 3 else 2
    case Activate => if late then 3 else 5
    case HeadDeadline => if late then 2 else 4
    case HeadToken => if late then 6 else 3
    case HeadDesired => if late then 5 else 4
    case Iterating => if late then 2 else 3
    case Gate => if late then 5 else 4
    case Pacing => if late then 2 else 3
    case Clear => if late then 4 else 2
    case AfterClear => if late then 3 else 1
    case NotSpawned => 8
  }

  predicate Over(c: Config, s: State) {
    s.clock >= c.deadline || s.runCancelled
  }

  lemma OverMoveLeads(c: Config, s: State, i: nat)
    requires Shaped(c, s) && i < c.Max() && s.pcs[i] != NotSpawned && !s.pcs[i].Done? && Over(c, s)
    ensures var late := s.clock >= c.deadline;
            var m := VuMove(c, s, i, if late then Late else Interrupted);
            && !m.Stay? && Target(m) != NotSpawned && ToEnd(Target(m), late) < ToEnd(s.pcs[i], late)
            && (s.pcs[i].ClearThen? ==> Target(m) == Done(s.pcs[i].outcome))
            && (!s.pcs[i].ClearThen? && (Target(m).ClearThen? || Target(m).Done?) ==>
                  && (!s.runCancelled ==> Target(m).outcome == Finished)
                  && (!late ==> Target(m).outcome == Aborted))
  {
  }

  lemma OverMove(c: Config, s: State, i: nat)
    requires SlabOk(c, s) && i < c.Max() && s.pcs[i] != NotSpawned && !s.pcs[i].Done? && Over(c, s)
    ensures var late := s.clock >= c.deadline;
            var t := VuStep(c, s, i, if late then Late else Interrupted);
            && SlabOk(c, t) && t.clock == s.clock && t.runCancelled == s.runCancelled && t.pcs[i] != NotSpawned
            && ToEnd(t.pcs[i], late) < ToEnd(s.pcs[i], late)
            && (s.pcs[i].ClearThen? ==> t.pcs[i] == Done(s.pcs[i].outcome))
            && (!s.pcs[i].ClearThen? && (t.pcs[i].ClearThen? || t.pcs[i].Done?) ==>
                  && (!s.runCancelled ==> t.pcs[i].outcome == Finished)
                  && (!late ==> t.pcs[i].outcome == Aborted))
  {
    hide SlabOk, Apply, VuMove, ToEnd, Target;
    TokensAreFresh(c, s);
    var choice := if s.clock >= c.deadline then Late else Interrupted;
    VuKeepsSlab(c, s, i, choice);
    OverMoveLeads(c, s, i);
    Applied(c, s, i, VuMove(c, s, i, choice));
  }

  /** Once the deadline has passed or the run is cancelled, every spawned user ends within 7 moves of its
      own, without finishing an iteration or a pause: well if the run is not cancelled, aborted if it is
      and the deadline has not passed. */
  lemma {:induction false} OverUserEnds(c: Config, events: seq<Event>, i: nat) returns (moves: seq<Choice>)
    requires i < c.Max() && Run(c, events).pcs[i] != NotSpawned && Over(c, Run(c, events))
    ensures |moves| <= ToEnd(Run(c, events).pcs[i], Run(c, events).clock >= c.deadline) <= 7
    ensures forall k :: 0 <= k < |moves| ==> moves[k] == Late || moves[k] == Interrupted
    ensures var s, t := Run(c, events), Run(c, events + Own(i, moves));
            && t.pcs[i].Done?
            && (s.pcs[i].Done? || s.pcs[i].ClearThen? ==> t.pcs[i].outcome == s.pcs[i].outcome)
            && (!s.pcs[i].Done? && !s.pcs[i].ClearThen? ==>
                  && (!s.runCancelled ==> t.pcs[i].outcome == Finished)
                  && (s.clock < c.deadline ==> t.pcs[i].outcome == Aborted))
    decreases ToEnd(Run(c, events).pcs[i], Run(c, events).clock >= c.deadline)
  {
    hide Run, VuStep, SlabOk;
    var s := Run(c, events);
    moves := [];
    assert events + Own(i, []) == events;
    if !s.pcs[i].Done? {
      SlabHolds(c, events);
      OverMove(c, s, i);
      var choice := if s.clock >= c.deadline then Late else Interrupted;
      OwnFirst(c, events, i, choice, []);
      var rest := OverUserEnds(c, events + [Vu(i, choice)], i);
      OwnFirst(c, events, i, choice, rest);
      moves := [choice] + rest;
    }
  }

  // ---------------------------------------------------------------------------------------
  // The tick's own loops

  /** A cancellation token: cancelling it is idempotent. */
  class Token {
    var cancelled: bool

    constructor ()
      ensures !cancelled
    {
      cancelled := false;
    }

    method Cancel()
      modifies this
      ensures cancelled
    {
      cancelled := true;
    }
  }

  function Entry(tok: Token?): Option<nat> {
    if tok == null then None else Some(0)
  }

  /** An entry below `limit` holds `tok` and has to be cancelled in this tick. */
  ghost predicate Hit(slab: seq<Token?>, since: seq<Option<real>>, tok: Token, limit: nat, desired: nat, spawned: nat,
                      cap: real, now: real)
    requires |slab| == |since|
  {
    exists j :: 0 <= j < |slab| && j < limit && slab[j] == tok
                && Expired(Entry(slab[j]), since[j], j, desired, spawned, cap, now)
  }

  /** The immediate pass: exactly the tokens held past the desired count become cancelled. */
  method CancelBeyond(slab: array<Token?>, desired: nat)
    modifies set i | 0 <= i < slab.Length :: slab[i]
    ensures forall i :: 0 <= i < slab.Length && slab[i] != null ==>
                          slab[i].cancelled == (old(slab[i].cancelled) || Held(slab[..], slab[i], desired, slab.Length))
  {
    ghost var entries := slab[..];
    var index := desired;
    while index < slab.Length
      invariant desired <= index && (desired <= slab.Length ==> index <= slab.Length)
      invariant forall i :: 0 <= i < slab.Length && slab[i] != null ==>
                              slab[i].cancelled == (old(slab[i].cancelled) || Held(entries, slab[i], desired, index))
    {
      var tok := slab[index];
      assert forall t: Token :: t in entries ==>
               Held(entries, t, desired, index + 1) == (Held(entries, t, desired, index) || entries[index] == t);
      if tok != null {
        tok.Cancel();
      }
      index := index + 1;
    }
  }

  /** An entry from `from` up to `to` holds the token. */
  ghost predicate Held(slab: seq<Token?>, tok: Token, from: nat, to: nat) {
    exists j :: from <= j < to && j < |slab| && slab[j] == tok
  }

  /** One graceful retirement pass: every timer moves as `Timer` says, and exactly the tokens of
      expired entries become cancelled. */
  method RetireExpired(slab: array<Token?>, retireSince: array<Option<real>>, desired: nat, spawned: nat, cap: real,
                       now: real)
    requires slab.Length == retireSince.Length && spawned <= slab.Length
    modifies retireSince, set i | 0 <= i < slab.Length :: slab[i]
    ensures forall i :: 0 <= i < slab.Length ==>
                          retireSince[i] == Timer(Entry(slab[i]), old(retireSince[i]), i, desired, spawned, now)
    ensures forall i :: 0 <= i < slab.Length && slab[i] != null ==>
                          slab[i].cancelled == (old(slab[i].cancelled)
                                                || Hit(slab[..], old(retireSince[..]), slab[i], slab.Length, desired,
                                                       spawned, cap, now))
  {
    CancelExpired(slab, retireSince, desired, spawned, cap, now);
    var k := 0;
    while k < desired && k < retireSince.Length
      invariant 0 <= k <= retireSince.Length && k <= desired
      invariant forall i :: 0 <= i < slab.Length ==>
                              retireSince[i] == if i < k then None
                                                else if desired <= i < spawned then
                                                    Timer(Entry(slab[i]), old(retireSince[i]), i, desired, spawned, now)
                                                else old(retireSince[i])
      modifies retireSince
    {
      retireSince[k] := None;
      k := k + 1;
    }
  }

  /** The first loop of the pass, over the spawned indexes past the desired count. */
  method CancelExpired(slab: array<Token?>, retireSince: array<Option<real>>, desired: nat, spawned: nat, cap: real,
                       now: real)
    requires slab.Length == retireSince.Length && spawned <= slab.Length
    modifies retireSince, set i | 0 <= i < slab.Length :: slab[i]
    ensures forall i :: 0 <= i < slab.Length ==>
                          retireSince[i] == if desired <= i < spawned then
                              Timer(Entry(slab[i]), old(retireSince[i]), i, desired, spawned, now)
                                            else old(retireSince[i])
    ensures forall i :: 0 <= i < slab.Length && slab[i] != null ==>
                          slab[i].cancelled == (old(slab[i].cancelled)
                                                || Hit(slab[..], old(retireSince[..]), slab[i], slab.Length, desired,
                                                       spawned, cap, now))
  {
    ghost var entries, before := slab[..], retireSince[..];
    var index := desired;
    while index < spawned
      invariant desired <= index && (desired <= spawned ==> index <= spawned)
      invariant forall i :: 0 <= i < slab.Length ==>
                              retireSince[i] == if desired <= i < index
                                  && i < spawned then Timer(Entry(slab[i]), before[i], i, desired, spawned, now)
                                                else before[i]
      invariant forall i :: 0 <= i < slab.Length && slab[i] != null ==>
                              slab[i].cancelled == (old(slab[i].cancelled)
                                                    || Hit(entries, before, slab[i], index, desired, spawned, cap, now))
    {
      var tok := slab[index];
      HitGrows(entries, before, index, desired, spawned, cap, now);
      if tok != null {
        match retireSince[index]
        case None => retireSince[index] := Some(now);
        case Some(t0) =>
          if now - t0 >= cap {
            tok.Cancel();
          }
      } else {
        retireSince[index] := None;
      }
      index := index + 1;
    }
    HitWithin(entries, before, index, desired, spawned, cap, now);
  }

  lemma HitGrows(slab: seq<Token?>, since: seq<Option<real>>, index: nat, desired: nat, spawned: nat, cap: real,
                 now: real)
    requires |slab| == |since| && index < |slab|
    ensures forall tok: Token :: tok in slab ==>
              Hit(slab, since, tok, index + 1, desired, spawned, cap, now)
              == (Hit(slab, since, tok, index, desired, spawned, cap, now)
                  || (slab[index] == tok
                      && Expired(Entry(slab[index]), since[index], index, desired, spawned, cap, now)))
  {
    forall tok: Token | tok in slab
      ensures Hit(slab, since, tok, index + 1, desired, spawned, cap, now)
           == (Hit(slab, since, tok, index, desired, spawned, cap, now)
               || (slab[index] == tok && Expired(Entry(slab[index]), since[index], index, desired, spawned, cap, now)))
    {
    }
  }

  lemma HitWithin(slab: seq<Token?>, since: seq<Option<real>>, index: nat, desired: nat, spawned: nat, cap: real,
                  now: real)
    requires |slab| == |since| && spawned <= index && spawned <= |slab|
    ensures forall tok: Token :: tok in slab ==>
              Hit(slab, since, tok, index, desired, spawned, cap, now)
                  == Hit(slab, since, tok, |slab|, desired, spawned, cap, now)
  {
  }
}
