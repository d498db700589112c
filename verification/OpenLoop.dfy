/** The open-loop scheduler: a fixed pool of reusable client slots, arrivals fired at scheduled
    times, and arrivals dropped when no slot is free.

    The scheduler loop and the tasks it spawns interleave; a run is a sequence of events, each
    one turn of the loop or the completion of one arrival.  Times are seconds since the run started.
 */
module OpenLoop {
  import opened Options
  import opened RateCurve
  import opened ArrivalSchedules

  /** How attempt times are chosen: a fixed interval, or the inverse of an arrival curve. */
  datatype Pace = FixedRate(interval: real) | Curve(at: nat -> Option<real>)

  datatype Config = Config(slots: nat, duration: real, pace: Pace)

  datatype State = State(free: seq<nat>, held: set<nat>, tick: nat, fired: nat, dropped: nat, next: real, done: bool)

  /** One turn of the loop reads the clock at the loop head and again before attempting; `stop`
      is a cancellation or exhaustion seen at the head, `woken` a cancellation during the wait. */
  datatype Event = Turn(head: real, now: real, stop: bool, woken: bool) | Complete(slot: nat)

  /** `at(k)` is the scheduled time of attempt `k`: the moment `k + 1/2` arrivals have accumulated. */
  ghost predicate IsInverse(at: nat -> Option<real>, stages: seq<Stage>) {
    forall k: nat :: Answers(Lambda(stages), k as real + 0.5, at(k))
  }

  /** Every curve has such a schedule. */
  ghost function Inverse(stages: seq<Stage>, sqrt: real -> real): (at: nat -> Option<real>)
    requires IsSqrt(sqrt)
    ensures IsInverse(at, stages)
  {
    (k: nat) => AttemptTime(stages, sqrt, k)
  }

  ghost predicate IsAttemptTime(stages: seq<Stage>, k: nat, r: Option<real>) {
    Answers(Lambda(stages), k as real + 0.5, r)
  }

  ghost function AttemptTime(stages: seq<Stage>, sqrt: real -> real, k: nat): (r: Option<real>)
    ensures IsSqrt(sqrt) ==> Answers(Lambda(stages), k as real + 0.5, r)
  {
    if IsSqrt(sqrt) then
      AttemptTimeExists(stages, sqrt, k);
      var r :| IsAttemptTime(stages, k, r);
      r
    else None
  }

  lemma AttemptTimeExists(stages: seq<Stage>, sqrt: real -> real, k: nat)
    requires IsSqrt(sqrt)
    ensures exists r :: IsAttemptTime(stages, k, r)
  {
    var r := AnswerExists(stages, k as real + 0.5, sqrt, 0);
    assert IsAttemptTime(stages, k, r);
  }

  predicate Due(at: nat -> Option<real>, k: nat, limit: real) {
    at(k).Some? && at(k).value < limit
  }

  /** When attempt `k` is made; once no attempt is left before the deadline, the deadline. */
  function CurveTime(at: nat -> Option<real>, duration: real, k: nat): real {
    if Due(at, k, duration) then at(k).value else duration
  }

  function Range(n: nat): seq<nat> {
    seq(n, i requires 0 <= i => i)
  }

  function Init(c: Config): State {
    State(Range(c.slots), {}, 0, 0, 0, if c.pace.Curve? then CurveTime(c.pace.at, c.duration, 0) else 0.0, false)
  }

  /** After an attempt the schedule moves on, whether or not the attempt found a slot. */
  function Advance(c: Config, s: State): State {
    match c.pace
    case FixedRate(interval) => s.(next := s.next + interval)
    case Curve(at) => s.(tick := s.tick + 1, next := CurveTime(at, c.duration, s.tick + 1))
  }

  function Attempt(s: State): State {
    if s.free == [] then s.(dropped := s.dropped + 1)
    else s.(free := s.free[1..], held := s.held + {s.free[0]}, fired := s.fired + 1)
  }

  /** `Complete` returns a held slot to the back of the queue. */
  function Step(c: Config, s: State, e: Event): State {
    match e
    case Complete(slot) =>
      if slot in s.held then s.(free := s.free + [slot], held := s.held - {slot}) else s
    case Turn(head, now, stop, woken) =>
      if s.done then s
      else if stop || head >= c.duration then s.(done := true)
      else if now < s.next then s.(done := woken)
      else Advance(c, Attempt(s))
  }

  function Run(c: Config, events: seq<Event>): State {
    if events == [] then Init(c) else Step(c, Run(c, events[..|events| - 1]), events[|events| - 1])
  }

  // ---------------------------------------------------------------------------------------
  // The slot pool

  ghost predicate Distinct(q: seq<nat>) {
    forall i, j :: 0 <= i < j < |q| ==> q[i] != q[j]
  }

  /** The queue and the slots in flight partition the pool. */
  ghost predicate PoolOk(c: Config, s: State) {
    && Distinct(s.free)
    && (forall x: nat :: x in s.free ==> x !in s.held)
    && (forall x: nat :: x in s.free || x in s.held <==> x < c.slots)
  }

  lemma StepKeepsPool(c: Config, s: State, e: Event)
    requires PoolOk(c, s)
    ensures PoolOk(c, Step(c, s, e))
  {
    hide Attempt, PoolOk;
    AttemptKeepsPool(c, s);
    match e
    case Turn(_, _, _, _) =>
      var t := Step(c, s, e);
      assert (t.free == s.free && t.held == s.held) || (t.free == Attempt(s).free && t.held == Attempt(s).held);
      SamePool(c, s, t);
      SamePool(c, Attempt(s), t);
    case Complete(slot) => CompleteKeepsPool(c, s, slot);
  }

  lemma SamePool(c: Config, s: State, t: State)
    requires PoolOk(c, s)
    ensures t.free == s.free && t.held == s.held ==> PoolOk(c, t)
  {
  }

  lemma CompleteKeepsPool(c: Config, s: State, slot: nat)
    requires PoolOk(c, s)
    ensures PoolOk(c, Step(c, s, Complete(slot)))
  {
    if slot in s.held {
      assert slot !in s.free;
    }
  }

  lemma AttemptKeepsPool(c: Config, s: State)
    requires PoolOk(c, s)
    ensures PoolOk(c, Attempt(s))
  {
    if s.free != [] {
      var slot, rest := s.free[0], s.free[1..];
      assert s.free == [slot] + rest;
      forall x: nat
        ensures x in rest || x == slot <==> x in s.free
      {
      }
      assert slot !in rest;
    }
  }

  lemma {:induction false} RunKeepsPool(c: Config, events: seq<Event>)
    ensures PoolOk(c, Run(c, events))
  {
    if events == [] {
      var s := Init(c);
      forall x: nat | x < c.slots
        ensures x in s.free
      {
        assert s.free[x] == x;
      }
    } else {
      RunKeepsPool(c, events[..|events| - 1]);
      StepKeepsPool(c, Run(c, events[..|events| - 1]), events[|events| - 1]);
    }
  }

  lemma {:induction false} DistinctLength(q: seq<nat>, bound: nat)
    requires Distinct(q) && forall x: nat :: x in q ==> x < bound
    ensures |q| <= bound
    decreases bound
  {
    assert q == [] || q[0] in q;
    if bound > 0 && bound - 1 in q {
      var i :| 0 <= i < |q| && q[i] == bound - 1;
      var rest := q[..i] + q[i + 1..];
      forall x: nat | x in rest
        ensures x < bound - 1
      {
        var j :| 0 <= j < |rest| && rest[j] == x;
        var k := if j < i then j else j + 1;
        assert x == q[k] && q[k] in q && q[k] != q[i];
      }
      DistinctLength(rest, bound - 1);
    } else if bound > 0 {
      DistinctLength(q, bound - 1);
    }
  }

  lemma {:induction false} SetInRange(held: set<nat>, bound: nat)
    requires forall x: nat :: x in held ==> x < bound
    ensures |held| <= bound
    decreases bound
  {
    if bound == 0 {
      assert held == {};
    } else {
      SetInRange(held - {bound - 1}, bound - 1);
    }
  }

  /** In every reachable state: never more arrivals in flight than slots; room in the queue for
      every slot in flight, so returning one never fails; the slot an attempt takes belongs to no
      arrival in flight; and an attempt is dropped exactly when every slot is in flight. */
  lemma PoolIsSafe(c: Config, events: seq<Event>)
    ensures var s := Run(c, events);
            && |s.held| <= c.slots
            && (forall slot :: slot in s.held ==> |s.free| < c.slots)
            && (s.free != [] ==> s.free[0] !in s.held && s.free[0] < c.slots)
            && (s.free == [] <==> forall slot: nat :: slot < c.slots ==> slot in s.held)
            && (Attempt(s).dropped > s.dropped <==> forall slot: nat :: slot < c.slots ==> slot in s.held)
  {
    var s := Run(c, events);
    RunKeepsPool(c, events);
    SetInRange(s.held, c.slots);
    forall slot | slot in s.held
      ensures |s.free| < c.slots
    {
      var q := s.free + [slot];
      assert slot !in s.free;
      DistinctLength(q, c.slots);
    }
    if s.free != [] {
      assert s.free[0] in s.free;
    }
  }

  /** The slots taken by the attempts of a run, in order. */
  function Acquired(c: Config, events: seq<Event>): seq<nat> {
    if events == [] then []
    else
      var front := events[..|events| - 1];
      var s, t := Run(c, front), Run(c, events);
      Acquired(c, front) + if t.fired > s.fired && s.free != [] then [s.free[0]] else []
  }

  /** The slots that have been free: all of the pool, in order, then those given back, in order. */
  function Freed(c: Config, events: seq<Event>): seq<nat> {
    if events == [] then seq(c.slots, i requires 0 <= i => i)
    else
      var front, e := events[..|events| - 1], events[|events| - 1];
      Freed(c, front) + if e.Complete? && e.slot in Run(c, front).held then [e.slot] else []
  }

  /** Slots are used in the order in which they became free: at any time the slots that have been free
      are those taken so far, in their order, followed by the queue. */
  lemma {:induction false} SlotsAreUsedInOrder(c: Config, events: seq<Event>)
    ensures var s := Run(c, events);
            Freed(c, events) == Acquired(c, events) + s.free && |Acquired(c, events)| == s.fired
    decreases |events|
  {
    hide Step;
    if events != [] {
      var front, e := events[..|events| - 1], events[|events| - 1];
      var s, t := Run(c, front), Run(c, events);
      SlotsAreUsedInOrder(c, front);
      StepUsesQueue(c, s, e);
      var given := if e.Complete? && e.slot in s.held then [e.slot] else [];
      var taken := if t.fired > s.fired && s.free != [] then [s.free[0]] else [];
      Requeue(Freed(c, front), Acquired(c, front), s.free, given, taken, t.free);
    }
  }

  lemma StepUsesQueue(c: Config, s: State, e: Event)
    ensures var t := Step(c, s, e);
            var given := if e.Complete? && e.slot in s.held then [e.slot] else [];
            var taken := if t.fired > s.fired && s.free != [] then [s.free[0]] else [];
            s.free + given == taken + t.free && t.fired == s.fired + |taken|
  {
  }

  lemma Requeue(freed: seq<nat>, acquired: seq<nat>, free: seq<nat>, given: seq<nat>, taken: seq<nat>, free': seq<nat>)
    requires freed == acquired + free && free + given == taken + free'
    ensures freed + given == (acquired + taken) + free'
  {
    assert freed + given == acquired + (free + given) == acquired + (taken + free');
  }

  // ---------------------------------------------------------------------------------------
  // How many attempts fall before a limit

  /** Exactly `n` attempts are scheduled before `limit`. */
  ghost predicate IsCount(at: nat -> Option<real>, limit: real, n: nat) {
    (forall k: nat :: Due(at, k, limit) <==> k < n)
  }

  lemma LaterNotDue(at: nat -> Option<real>, stages: seq<Stage>, limit: real, j: nat, k: nat)
    requires IsInverse(at, stages) && j <= k && Due(at, k, limit)
    ensures Due(at, j, limit)
  {
    var cum := Lambda(stages);
    LambdaMonotone(stages);
    assert Answers(cum, j as real + 0.5, at(j)) && Answers(cum, k as real + 0.5, at(k));
    var t := at(k).value;
    assert cum(t) == k as real + 0.5;
    assert at(j).None? ==> cum(t) < j as real + 0.5;
    assert at(j).Some? && t < at(j).value ==> cum(t) < j as real + 0.5;
  }

  lemma CountExists(at: nat -> Option<real>, stages: seq<Stage>, limit: real, from: nat) returns (n: nat)
    requires IsInverse(at, stages) && limit >= 0.0
    requires forall k: nat :: k < from ==> Due(at, k, limit)
    requires from > 0 ==> from as real <= Lambda(stages)(limit) + 0.5
    ensures IsCount(at, limit, n)
    decreases (Lambda(stages)(limit) + 1.0).Floor - from
  {
    if Due(at, from, limit) {
      DueMeansAccumulated(at, stages, limit, from);
      n := CountExists(at, stages, limit, from + 1);
    } else {
      n := from;
      forall k: nat
        ensures Due(at, k, limit) <==> k < n
      {
        if k >= n && Due(at, k, limit) {
          LaterNotDue(at, stages, limit, n, k);
        }
      }
    }
  }

  lemma DueMeansAccumulated(at: nat -> Option<real>, stages: seq<Stage>, limit: real, k: nat)
    requires IsInverse(at, stages) && limit >= 0.0
    ensures Due(at, k, limit) ==> Lambda(stages)(limit) >= k as real + 0.5
    ensures !Due(at, k, limit) ==> Lambda(stages)(limit) <= k as real + 0.5
  {
    var cum := Lambda(stages);
    LambdaMonotone(stages);
    assert Answers(cum, k as real + 0.5, at(k));
    if at(k).Some? {
      assert at(k).value >= 0.0 && cum(at(k).value) == k as real + 0.5;
    }
  }

  /** The number of attempts scheduled before `limit` is the accumulated area, rounded. */
  lemma CountRoundsArea(at: nat -> Option<real>, stages: seq<Stage>, limit: real, n: nat)
    requires IsInverse(at, stages) && limit >= 0.0 && IsCount(at, limit, n)
    ensures n as real - 0.5 <= Lambda(stages)(limit) <= n as real + 0.5
  {
    DueMeansAccumulated(at, stages, limit, n);
    if n > 0 {
      DueMeansAccumulated(at, stages, limit, n - 1);
      assert Due(at, n - 1, limit);
    } else {
      LambdaMonotone(stages);
    }
  }

  // ---------------------------------------------------------------------------------------
  // Accounting over a run

  /** The clock of a run: its last reading. */
  function Clock(events: seq<Event>): real {
    if events == [] then 0.0
    else
      var e := events[|events| - 1];
      if e.Turn? then e.now else Clock(events[..|events| - 1])
  }

  /** The clock never runs backwards. */
  ghost predicate Timed(events: seq<Event>) {
    events == [] ||
    (var before, e := events[..|events| - 1], events[|events| - 1];
     Timed(before) && (e.Turn? ==> Clock(before) <= e.head <= e.now))
  }

  /** No attempt is made early, none is lost, and the next one is where the schedule puts it. */
  ghost predicate CurveOk(c: Config, s: State, clock: real)
    requires c.pace.Curve?
  {
    && s.tick == s.fired + s.dropped
    && s.next == CurveTime(c.pace.at, c.duration, s.tick)
    && forall k: nat :: k < s.tick ==> CurveTime(c.pace.at, c.duration, k) <= clock
  }

  lemma {:induction false} CurveAccounting(c: Config, events: seq<Event>)
    requires c.pace.Curve? && Timed(events)
    ensures CurveOk(c, Run(c, events), Clock(events))
  {
    if events != [] {
      CurveAccounting(c, events[..|events| - 1]);
    }
  }

  /** With a fixed rate the attempts are the multiples of the interval, none made early. */
  ghost predicate FixedOk(s: State, interval: real, clock: real) {
    var attempts := s.fired + s.dropped;
    && s.tick == 0
    && s.next == attempts as real * interval
    && (attempts > 0 ==> s.next - interval <= clock)
  }

  lemma {:induction false} FixedAccounting(c: Config, events: seq<Event>)
    requires c.pace.FixedRate? && Timed(events)
    ensures FixedOk(Run(c, events), c.pace.interval, Clock(events))
  {
    if events != [] {
      var before, e := events[..|events| - 1], events[|events| - 1];
      FixedAccounting(c, before);
      FixedStep(c, Run(c, before), e, Clock(before), Clock(events));
    }
  }

  lemma FixedStep(c: Config, s: State, e: Event, before: real, after: real)
    requires c.pace.FixedRate? && FixedOk(s, c.pace.interval, before) && before <= after
    requires e.Turn? ==> after == e.now
    ensures FixedOk(Step(c, s, e), c.pace.interval, after)
  {
    hide Step;
    StepAttempts(c, s, e);
    OneMoreInterval(s.fired + s.dropped, c.pace.interval);
  }

  lemma StepAttempts(c: Config, s: State, e: Event)
    requires c.pace.FixedRate?
    ensures var t := Step(c, s, e);
            && t.tick == s.tick
            && ((t.fired + t.dropped == s.fired + s.dropped && t.next == s.next)
                || (&& e.Turn? && s.next <= e.now
                    && t.fired + t.dropped == s.fired + s.dropped + 1 && t.next == s.next + c.pace.interval))
  {
  }

  lemma OneMoreInterval(n: nat, i: real)
    ensures n as real * i + i == (n + 1) as real * i
  {
  }

  /** At most one attempt more than the schedule holds before the deadline is ever made, and
      that one only if the clock passes the deadline inside a turn. */
  lemma {:induction false} AttemptsBounded(c: Config, events: seq<Event>, n: nat)
    requires c.pace.Curve? && Timed(events) && IsCount(c.pace.at, c.duration, n)
    ensures var s := Run(c, events);
            && s.fired + s.dropped <= n + 1
            && (s.fired + s.dropped == n + 1 ==> Clock(events) >= c.duration)
  {
    CurveAccounting(c, events);
    if events != [] {
      var before := events[..|events| - 1];
      AttemptsBounded(c, before, n);
      CurveAccounting(c, before);
    }
  }

  lemma AttemptsInOrder(at: nat -> Option<real>, stages: seq<Stage>, j: nat, k: nat)
    requires IsInverse(at, stages) && j <= k && at(k).Some?
    ensures at(j).Some? && 0.0 <= at(j).value <= at(k).value
  {
    LaterNotDue(at, stages, at(k).value + 1.0, j, k);
    assert Answers(Lambda(stages), j as real + 0.5, at(j));
    if at(j).value > at(k).value {
      LaterNotDue(at, stages, at(j).value, j, k);
    }
  }

  /** `k` turns, each at the time its attempt is scheduled for. */
  function Punctual(at: nat -> Option<real>, k: nat): seq<Event> {
    if k == 0 || at(k - 1).None? then []
    else Punctual(at, k - 1) + [Turn(at(k - 1).value, at(k - 1).value, false, false)]
  }

  lemma {:induction false} PunctualRun(c: Config, stages: seq<Stage>, k: nat)
    requires c.pace.Curve? && IsInverse(c.pace.at, stages) && forall j: nat :: j < k ==> Due(c.pace.at, j, c.duration)
    ensures var s, events := Run(c, Punctual(c.pace.at, k)), Punctual(c.pace.at, k);
            && Timed(events) && !s.done && s.fired + s.dropped == k
            && Clock(events) == if k == 0 then 0.0 else c.pace.at(k - 1).value
    decreases k
  {
    hide Step, IsInverse;
    if k > 0 {
      var at, before := c.pace.at, Punctual(c.pace.at, k - 1);
      PunctualRun(c, stages, k - 1);
      assert Due(at, k - 1, c.duration);
      AttemptsInOrder(at, stages, if k > 1 then k - 2 else 0, k - 1);
      CurveAccounting(c, before);
      var e := Turn(at(k - 1).value, at(k - 1).value, false, false);
      assert Punctual(at, k) == before + [e] && (before + [e])[..|before|] == before;
      PunctualTurn(c, Run(c, before), e);
    }
  }

  lemma PunctualTurn(c: Config, s: State, e: Event)
    requires c.pace.Curve? && !s.done && e.Turn? && e.head < c.duration && s.next <= e.now && !e.stop
    ensures var t := Step(c, s, e); !t.done && t.fired + t.dropped == s.fired + s.dropped + 1
  {
  }

  /** The bound is met: whatever the curve, some run makes the one attempt more, in a turn whose clock
      crosses the deadline. */
  lemma BoundIsAttained(c: Config, stages: seq<Stage>, n: nat) returns (events: seq<Event>)
    requires c.pace.Curve? && IsInverse(c.pace.at, stages) && c.duration > 0.0 && IsCount(c.pace.at, c.duration, n)
    ensures Timed(events) && Run(c, events).fired + Run(c, events).dropped == n + 1
  {
    var before := Punctual(c.pace.at, n);
    hide Step, IsInverse;
    PunctualRun(c, stages, n);
    CurveAccounting(c, before);
    assert n > 0 ==> Due(c.pace.at, n - 1, c.duration);
    var e := Turn(Clock(before), c.duration, false, false);
    events := before + [e];
    assert events[..|before|] == before;
    PunctualTurn(c, Run(c, before), e);
  }

  /** Every attempt of a curve run is accounted for, and their number follows the curve: never
      more than 3/2 above the area under it. */
  lemma AttemptsFollowArea(c: Config, stages: seq<Stage>, events: seq<Event>)
    requires c.pace.Curve? && IsInverse(c.pace.at, stages) && c.duration >= 0.0 && Timed(events)
    ensures var s := Run(c, events);
            (s.fired + s.dropped) as real <= Lambda(stages)(c.duration) + 1.5
  {
    var n := CountExists(c.pace.at, stages, c.duration, 0);
    CountRoundsArea(c.pace.at, stages, c.duration, n);
    AttemptsBounded(c, events, n);
  }

  /** A turn that finds the schedule exhausted before the deadline makes no attempt. */
  lemma NothingAfterTheCurve(c: Config, events: seq<Event>, n: nat, e: Event)
    requires c.pace.Curve? && Timed(events + [e]) && IsCount(c.pace.at, c.duration, n)
    requires e.Turn? && e.now < c.duration && Run(c, events).tick >= n
    ensures Run(c, events + [e]).fired == Run(c, events).fired
    ensures Run(c, events + [e]).dropped == Run(c, events).dropped
  {
    assert (events + [e])[..|events|] == events;
    CurveAccounting(c, events);
  }

  lemma {:induction false} DoneStays(c: Config, events: seq<Event>, more: seq<Event>)
    requires Run(c, events).done
    ensures var s, t := Run(c, events), Run(c, events + more);
            t.done && t.fired == s.fired && t.dropped == s.dropped
    decreases |more|
  {
    if more == [] {
      assert events + more == events;
    } else {
      assert (events + more)[..|events + more| - 1] == events + more[..|more| - 1];
      DoneStays(c, events, more[..|more| - 1]);
    }
  }

  /** A turn that finds a stop or the deadline at its head, or is woken by a cancellation before its
      attempt is due, makes no attempt, and no later turn does. */
  lemma NothingAfterStop(c: Config, events: seq<Event>, e: Event, more: seq<Event>)
    requires e.Turn? && (e.stop || e.head >= c.duration || (e.woken && e.now < Run(c, events).next))
    ensures var s, t := Run(c, events), Run(c, events + [e] + more);
            t.done && t.fired == s.fired && t.dropped == s.dropped
  {
    assert (events + [e])[..|events|] == events;
    DoneStays(c, events + [e], more);
  }

  // ---------------------------------------------------------------------------------------
  // The loop's own variables

  class Scheduler {
    const slots: nat
    const duration: real
    const interval: real
    ghost const c: Config

    var free: seq<nat>
    var tick: nat
    var arrivals: nat
    var dropped: nat
    var next: real
    var done: bool
    var schedule: ArrivalSchedule?
    ghost var held: set<nat>

    ghost predicate Valid()
      reads this, schedule
    {
      && c.slots == slots && c.duration == duration
      && match c.pace
         case FixedRate(i) => schedule == null && interval == i
         case Curve(at) =>
           && schedule != null && schedule.Valid()
           && IsInverse(at, schedule.stages)
           && schedule.queries > 0 && schedule.last == tick as real + 0.5
    }

    ghost function Abs(): State
      reads this
    {
      State(free, held, tick, arrivals, dropped, next, done)
    }

    /** Pre-loads the queue with every slot; an absent or zero pool size means one slot. */
    constructor (maxInFlight: Option<nat>, duration: real, interval: real, stages: Option<seq<Stage>>,
                 ghost at: nat -> Option<real>, sqrt: real -> real)
      requires IsSqrt(sqrt)
      requires stages.Some? ==> IsInverse(at, stages.value)
      ensures Valid()
      ensures c == Config(if maxInFlight.Some? && maxInFlight.value > 1 then maxInFlight.value else 1, duration,
                          if stages.Some? then Curve(at) else FixedRate(interval))
      ensures Abs() == Init(c)
      ensures schedule == null || fresh(schedule)
    {
      var m := if maxInFlight.Some? && maxInFlight.value > 1 then maxInFlight.value else 1;
      var q: seq<nat> := [];
      for i := 0 to m
        invariant q == Range(i)
      {
        q := q + [i];
      }
      var first := 0.0;
      var curve: ArrivalSchedule? := null;
      if stages.Some? {
        curve := new ArrivalSchedule(stages.value);
        first := CurveNext(curve, 0, duration, at, sqrt);
      }
      this.slots, this.duration, this.interval := m, duration, interval;
      this.c := Config(m, duration, if stages.Some? then Curve(at) else FixedRate(interval));
      this.free, this.held, this.tick, this.arrivals, this.dropped := q, {}, 0, 0, 0;
      this.next, this.done, this.schedule := first, false, curve;
    }

    /** The time of attempt `k`, asked of the schedule. */
    static method CurveNext(schedule: ArrivalSchedule, k: nat, duration: real, ghost at: nat -> Option<real>,
                            sqrt: real -> real)
      returns (next: real)
      requires schedule.Valid() && IsSqrt(sqrt) && IsInverse(at, schedule.stages)
      requires schedule.queries > 0 ==> schedule.last <= k as real + 0.5
      modifies schedule
      ensures schedule.Valid() && schedule.stages == old(schedule.stages)
      ensures schedule.queries > 0 && schedule.last == k as real + 0.5
      ensures next == CurveTime(at, duration, k)
    {
      var r := schedule.TimeAt(k as real + 0.5, sqrt);
      assert Answers(Lambda(schedule.stages), k as real + 0.5, at(k));
      AnswersAgree(Lambda(schedule.stages), k as real + 0.5, r, at(k));
      next := if r.Some? && r.value < duration then r.value else duration;
    }

    /** One turn of the scheduler loop. */
    method Turn(head: real, now: real, stop: bool, woken: bool, sqrt: real -> real)
      requires Valid() && IsSqrt(sqrt)
      modifies this, schedule
      ensures Valid() && schedule == old(schedule)
      ensures Abs() == Step(c, old(Abs()), Event.Turn(head, now, stop, woken))
    {
      hide IsInverse, CurveTime, ArrivalSchedule.Valid;
      if done {
        return;
      }
      if stop || head >= duration {
        done := true;
        return;
      }
      if now < next {
        done := woken;
        return;
      }
      if free != [] {
        var slot := free[0];
        free, held := free[1..], held + {slot};
        arrivals := arrivals + 1;
      } else {
        dropped := dropped + 1;
      }
      if schedule == null {
        next := next + interval;
      } else {
        tick := tick + 1;
        var curve := schedule;
        var t := CurveNext(curve, tick, duration, c.pace.at, sqrt);
        next := t;
      }
    }

    /** An arrival ends, on any path, and its guard returns the slot. */
    method Complete(slot: nat)
      requires Valid() && slot in held
      modifies this
      ensures Valid() && schedule == old(schedule)
      ensures Abs() == Step(c, old(Abs()), Event.Complete(slot))
    {
      free, held := free + [slot], held - {slot};
    }
  }
}
