/** The metric aggregator of a run: windows and counters that are filled by requests and drained by
    the flusher. */
module Aggregators {
  import opened Options
  import opened Tallies

  /** The bucket of every loop index at or above the cap: the largest 32-bit number. */
  const LoopOverflow: nat := 0xFFFF_FFFF

  datatype ErrorKind =
    | ConnectRefused | ConnectionReset | ConnectTimeout | Timeout | Dns | Tls | LocalPortExhaustion | Other

  datatype Gauge = Gauge(desired: nat, actual: nat)

  /** Everything that can happen to an aggregator; a drain without a bound takes everything. */
  datatype Event =
    | Recorded(step: string, latency: nat, status: nat, isError: bool, index: Option<nat>, now: int)
    | Decided(step: string, branch: string)
    | Failed(step: string, kind: ErrorKind)
    | Grouped(step: string, branch: string, latency: nat)
    | Phased(step: string, phase: string, latency: nat)
    | Gauged(second: int, gauge: Gauge)
    | WindowsDrained(upTo: Option<int>)
    | LoopsDrained
    | DecisionsDrained
    | FailuresDrained
    | GroupsDrained
    | PhasesDrained
    | GaugesDrained(upTo: Option<int>)

  /** Latencies are brought into the range of the histogram: 1 microsecond to 60 seconds. */
  function Clamped(latency: nat): nat {
    if latency < 1 then 1 else if latency > 60_000_000 then 60_000_000 else latency
  }

  function OneRequest(latency: nat, status: nat, isError: bool): Tally {
    Tally(1, if isError then 1 else 0, multiset{status}, multiset{Clamped(latency)})
  }

  function OneSample(latency: nat): Tally {
    Tally(1, 0, multiset{}, multiset{Clamped(latency)})
  }

  function OneCount(isError: bool): Tally {
    Tally(1, if isError then 1 else 0, multiset{}, multiset{})
  }

  function Bucket(index: nat, cap: nat): nat {
    if index < cap then index else LoopOverflow
  }

  predicate Before(second: int, upTo: Option<int>) {
    upTo.None? || second < upTo.value
  }

  // ---------------------------------------------------------------------------------------
  // What the events mean for each table

  function WindowOp(ev: Event): seq<Op<(string, int)>> {
    match ev
    case Recorded(step, latency, status, isError, _, now) => [Put((step, now), OneRequest(latency, status, isError))]
    case WindowsDrained(upTo) => [Take(EndedBefore(upTo))]
    case _ => []
  }

  function LoopOp(ev: Event, cap: nat): seq<Op<(string, nat)>> {
    match ev
    case Recorded(step, _, _, isError, Some(i), _) => if cap > 0 then
        [Put((step, Bucket(i, cap)), OneCount(isError))] else []
    case LoopsDrained => [Take(_ => true)]
    case _ => []
  }

  function DecisionOp(ev: Event): seq<Op<(string, string)>> {
    match ev
    case Decided(step, branch) => [Put((step, branch), OneCount(false))]
    case DecisionsDrained => [Take(_ => true)]
    case _ => []
  }

  function FailureOp(ev: Event): seq<Op<(string, ErrorKind)>> {
    match ev
    case Failed(step, kind) => [Put((step, kind), OneCount(false))]
    case FailuresDrained => [Take(_ => true)]
    case _ => []
  }

  function GroupOp(ev: Event): seq<Op<(string, string)>> {
    match ev
    case Grouped(step, branch, latency) => [Put((step, branch), OneSample(latency))]
    case GroupsDrained => [Take(_ => true)]
    case _ => []
  }

  function PhaseOp(ev: Event): seq<Op<(string, string)>> {
    match ev
    case Phased(step, phase, latency) => [Put((step, phase), OneSample(latency))]
    case PhasesDrained => [Take(_ => true)]
    case _ => []
  }

  /** Of the gauges only the seconds matter here: a later sample of the same second replaces the
      earlier one. */
  function GaugeOp(ev: Event): seq<Op<int>> {
    match ev
    case Gauged(second, _) => [Put(second, Zero)]
    case GaugesDrained(upTo) => [Take((k: int) => Before(k, upTo))]
    case _ => []
  }

  function WindowOps(log: seq<Event>): seq<Op<(string, int)>> {
    if log == [] then [] else WindowOps(log[..|log| - 1]) + WindowOp(log[|log| - 1])
  }

  function LoopOps(log: seq<Event>, cap: nat): seq<Op<(string, nat)>> {
    if log == [] then [] else LoopOps(log[..|log| - 1], cap) + LoopOp(log[|log| - 1], cap)
  }

  function DecisionOps(log: seq<Event>): seq<Op<(string, string)>> {
    if log == [] then [] else DecisionOps(log[..|log| - 1]) + DecisionOp(log[|log| - 1])
  }

  function FailureOps(log: seq<Event>): seq<Op<(string, ErrorKind)>> {
    if log == [] then [] else FailureOps(log[..|log| - 1]) + FailureOp(log[|log| - 1])
  }

  function GroupOps(log: seq<Event>): seq<Op<(string, string)>> {
    if log == [] then [] else GroupOps(log[..|log| - 1]) + GroupOp(log[|log| - 1])
  }

  function PhaseOps(log: seq<Event>): seq<Op<(string, string)>> {
    if log == [] then [] else PhaseOps(log[..|log| - 1]) + PhaseOp(log[|log| - 1])
  }

  function GaugeOps(log: seq<Event>): seq<Op<int>> {
    if log == [] then [] else GaugeOps(log[..|log| - 1]) + GaugeOp(log[|log| - 1])
  }

  function GaugesAfter(gauges: map<int, Gauge>, ev: Event): map<int, Gauge> {
    match ev
    case Gauged(second, gauge) => gauges[second := gauge]
    case GaugesDrained(upTo) => map s | s in gauges && !Before(s, upTo) :: gauges[s]
    case _ => gauges
  }

  /** The gauges held: the last sample of every second since that second was drained. */
  function Gauges(log: seq<Event>): map<int, Gauge> {
    if log == [] then map[] else GaugesAfter(Gauges(log[..|log| - 1]), log[|log| - 1])
  }

  function AfterOps<K>(held: Table<K>, ops: seq<Op<K>>): Table<K> {
    if ops == [] then held else After(held, ops[0])
  }

  lemma HeldAfterOps<K(!new)>(ops: seq<Op<K>>, more: seq<Op<K>>)
    requires |more| <= 1
    ensures Held(ops + more) == AfterOps(Held(ops), more)
  {
    if more == [] {
      assert ops + more == ops;
    } else {
      assert more == [more[0]];
      HeldAfter(ops, more[0]);
    }
  }

  datatype Tables = Tables(
    windows: Table<(string, int)>,
    loops: Table<(string, nat)>,
    decisions: Table<(string, string)>,
    failures: Table<(string, ErrorKind)>,
    groups: Table<(string, string)>,
    phases: Table<(string, string)>,
    gauges: map<int, Gauge>
  )

  /** The tables a history of events leaves. */
  function TablesOf(log: seq<Event>, cap: nat): Tables {
    Tables(Held(WindowOps(log)), Held(LoopOps(log, cap)), Held(DecisionOps(log)), Held(FailureOps(log)),
           Held(GroupOps(log)), Held(PhaseOps(log)), Gauges(log))
  }

  function TablesAfter(t: Tables, ev: Event, cap: nat): Tables {
    Tables(AfterOps(t.windows, WindowOp(ev)), AfterOps(t.loops, LoopOp(ev, cap)), AfterOps(t.decisions, DecisionOp(ev)),
           AfterOps(t.failures, FailureOp(ev)), AfterOps(t.groups, GroupOp(ev)), AfterOps(t.phases, PhaseOp(ev)),
           GaugesAfter(t.gauges, ev))
  }

  lemma OneMoreEvent(log: seq<Event>, ev: Event, cap: nat)
    ensures TablesOf(log + [ev], cap) == TablesAfter(TablesOf(log, cap), ev, cap)
  {
    hide Held, AfterOps, GaugesAfter;
    assert (log + [ev])[..|log|] == log;
    HeldAfterOps(WindowOps(log), WindowOp(ev));
    HeldAfterOps(LoopOps(log, cap), LoopOp(ev, cap));
    HeldAfterOps(DecisionOps(log), DecisionOp(ev));
    HeldAfterOps(FailureOps(log), FailureOp(ev));
    HeldAfterOps(GroupOps(log), GroupOp(ev));
    HeldAfterOps(PhaseOps(log), PhaseOp(ev));
  }

  // ---------------------------------------------------------------------------------------
  // The aggregator

  /** Removes the entries with the given keys and returns them; the order in which a hash map gives
      up its entries is not part of the model. */
  method RemoveKeys<K(==), V>(t: map<K, V>, keys: set<K>) returns (taken: map<K, V>, left: map<K, V>)
    requires keys <= t.Keys
    ensures taken == map k | k in keys :: t[k]
    ensures left == t - keys
  {
    taken, left := map[], t;
    var todo := keys;
    while todo != {}
      invariant todo <= keys
      invariant taken == map k | k in keys - todo :: t[k]
      invariant left == t - (keys - todo)
      decreases |todo|
    {
      var k :| k in todo;
      taken := taken[k := left[k]];
      left := left - {k};
      todo := todo - {k};
    }
  }

  function EndedBefore(upTo: Option<int>): ((string, int)) -> bool {
    (k: (string, int)) => Before(k.1, upTo)
  }

  lemma WindowsOut(log: seq<Event>, upTo: Option<int>, cap: nat)
    ensures Out(WindowOps(log + [WindowsDrained(upTo)]))
            == Out(WindowOps(log)) + [Taken(TablesOf(log, cap).windows, EndedBefore(upTo))]
  {
    hide Out, Held, LoopOps, DecisionOps, FailureOps, GroupOps, PhaseOps, Gauges;
    var ops, op := WindowOps(log), Take(EndedBefore(upTo));
    WindowOpsLast(log, WindowsDrained(upTo));
    OutAfter(ops, op);
  }

  lemma WindowOpsLast(log: seq<Event>, ev: Event)
    ensures WindowOps(log + [ev]) == WindowOps(log) + WindowOp(ev)
  {
    assert (log + [ev])[..|log|] == log;
  }

  lemma LoopsOut(log: seq<Event>, cap: nat)
    ensures Out(LoopOps(log + [LoopsDrained], cap)) == Out(LoopOps(log, cap)) + [TablesOf(log, cap).loops]
  {
    hide Out, Held;
    assert (log + [LoopsDrained])[..|log|] == log;
    OutAfter(LoopOps(log, cap), LoopOp(LoopsDrained, cap)[0]);
    assert Taken(TablesOf(log, cap).loops, LoopOp(LoopsDrained, cap)[0].which) == TablesOf(log, cap).loops;
  }

  lemma GaugesOut(log: seq<Event>, upTo: Option<int>)
    ensures var out, gauges := Out(GaugeOps(log + [GaugesDrained(upTo)])), Gauges(log);
            && out != [] && out[..|out| - 1] == Out(GaugeOps(log))
            && out[|out| - 1].Keys == set s | s in gauges && Before(s, upTo)
  {
    var ev := GaugesDrained(upTo);
    assert (log + [ev])[..|log|] == log;
    OutAfter(GaugeOps(log), GaugeOp(ev)[0]);
    GaugeSeconds(log);
  }

  class Aggregator {
    var windows: Table<(string, int)>
    var loopCounts: Table<(string, nat)>
    const loopCap: nat
    var decisions: Table<(string, string)>
    var failures: Table<(string, ErrorKind)>
    var groups: Table<(string, string)>
    var phases: Table<(string, string)>
    var gauges: map<int, Gauge>
    ghost var log: seq<Event>

    /** The tables are what the history of events makes of them. */
    ghost predicate Valid()
      reads this
    {
      Tables(windows, loopCounts, decisions, failures, groups, phases, gauges) == TablesOf(log, loopCap)
    }

    constructor (loopCap: nat)
      ensures Valid() && log == [] && this.loopCap == loopCap
    {
      this.loopCap := loopCap;
      windows, loopCounts, decisions, failures, groups, phases, gauges, log := map[], map[], map[], map[], map[],
          map[], map[], [];
    }

    ghost method Note(ev: Event)
      modifies this`log
      ensures log == old(log) + [ev]
      ensures TablesOf(log, loopCap) == TablesAfter(TablesOf(old(log), loopCap), ev, loopCap)
    {
      OneMoreEvent(log, ev, loopCap);
      log := log + [ev];
    }

    method Record(step: string, latency: nat, status: nat, isError: bool, index: Option<nat>, now: int)
      requires Valid()
      modifies this
      ensures Valid() && log == old(log) + [Recorded(step, latency, status, isError, index, now)]
    {
      hide TablesOf, Add;
      windows := Add(windows, (step, now), OneRequest(latency, status, isError));
      if loopCap > 0 && index.Some? {
        var bucket := if index.value < loopCap then index.value else LoopOverflow;
        loopCounts := Add(loopCounts, (step, bucket), OneCount(isError));
      }
      Note(Recorded(step, latency, status, isError, index, now));
    }

    method RecordBranch(step: string, branch: string)
      requires Valid()
      modifies this
      ensures Valid() && log == old(log) + [Decided(step, branch)]
    {
      hide TablesOf, Add;
      decisions := Add(decisions, (step, branch), OneCount(false));
      Note(Decided(step, branch));
    }

    method RecordErrorKind(step: string, kind: ErrorKind)
      requires Valid()
      modifies this
      ensures Valid() && log == old(log) + [Failed(step, kind)]
    {
      hide TablesOf, Add;
      failures := Add(failures, (step, kind), OneCount(false));
      Note(Failed(step, kind));
    }

    method RecordGroup(step: string, branch: string, latency: nat)
      requires Valid()
      modifies this
      ensures Valid() && log == old(log) + [Grouped(step, branch, latency)]
    {
      hide TablesOf, Add;
      groups := Add(groups, (step, branch), OneSample(latency));
      Note(Grouped(step, branch, latency));
    }

    method RecordPhase(step: string, phase: string, latency: nat)
      requires Valid()
      modifies this
      ensures Valid() && log == old(log) + [Phased(step, phase, latency)]
    {
      hide TablesOf, Add;
      phases := Add(phases, (step, phase), OneSample(latency));
      Note(Phased(step, phase, latency));
    }

    method RecordActiveVu(second: int, desired: nat, actual: nat)
      requires Valid()
      modifies this
      ensures Valid() && log == old(log) + [Gauged(second, Gauge(desired, actual))]
    {
      hide TablesOf, Add;
      gauges := gauges[second := Gauge(desired, actual)];
      Note(Gauged(second, Gauge(desired, actual)));
    }

    /** Drains the windows before `upTo`, or all of them. */
    method DrainWindows(upTo: Option<int>) returns (drained: Table<(string, int)>)
      requires Valid()
      modifies this
      ensures Valid() && log == old(log) + [WindowsDrained(upTo)]
      ensures drained == map k | k in old(windows) && Before(k.1, upTo) :: old(windows)[k]
      ensures Out(WindowOps(log)) == Out(WindowOps(old(log))) + [drained]
    {
      hide TablesOf, Out, WindowOps;
      var keys := set k | k in windows && Before(k.1, upTo);
      ghost var before := windows;
      drained, windows := RemoveKeys(windows, keys);
      var ev := WindowsDrained(upTo);
      assert windows == Left(before, EndedBefore(upTo)) && drained == Taken(before, EndedBefore(upTo));
      WindowsOut(log, upTo, loopCap);
      Note(ev);
    }

    method DrainLoopDeltas() returns (drained: Table<(string, nat)>)
      requires Valid()
      modifies this
      ensures Valid() && log == old(log) + [LoopsDrained] && drained == old(loopCounts) && loopCounts == map[]
      ensures Out(LoopOps(log, loopCap)) == Out(LoopOps(old(log), loopCap)) + [drained]
    {
      hide TablesOf, Add, Out, LoopOps;
      drained, loopCounts := loopCounts, map[];
      LoopsOut(log, loopCap);
      Note(LoopsDrained);
    }

    method DrainBranchDeltas() returns (drained: Table<(string, string)>)
      requires Valid()
      modifies this
      ensures Valid() && log == old(log) + [DecisionsDrained] && drained == old(decisions) && decisions == map[]
    {
      hide TablesOf, Add;
      drained, decisions := decisions, map[];
      Note(DecisionsDrained);
    }

    method DrainErrorKindDeltas() returns (drained: Table<(string, ErrorKind)>)
      requires Valid()
      modifies this
      ensures Valid() && log == old(log) + [FailuresDrained] && drained == old(failures) && failures == map[]
    {
      hide TablesOf, Add;
      drained, failures := failures, map[];
      Note(FailuresDrained);
    }

    method DrainGroupDeltas() returns (drained: Table<(string, string)>)
      requires Valid()
      modifies this
      ensures Valid() && log == old(log) + [GroupsDrained] && drained == old(groups) && groups == map[]
    {
      hide TablesOf, Add;
      drained, groups := groups, map[];
      Note(GroupsDrained);
    }

    method DrainPhaseDeltas() returns (drained: Table<(string, string)>)
      requires Valid()
      modifies this
      ensures Valid() && log == old(log) + [PhasesDrained] && drained == old(phases) && phases == map[]
    {
      hide TablesOf, Add;
      drained, phases := phases, map[];
      Note(PhasesDrained);
    }

    /** Drains the gauges of the seconds before `upTo`, or all of them. */
    method DrainActiveVu(upTo: Option<int>) returns (drained: map<int, Gauge>)
      requires Valid()
      modifies this
      ensures Valid() && log == old(log) + [GaugesDrained(upTo)]
      ensures drained == map s | s in old(gauges) && Before(s, upTo) :: old(gauges)[s]
      ensures var out := Out(GaugeOps(log));
              && out != [] && out[..|out| - 1] == Out(GaugeOps(old(log)))
              && out[|out| - 1].Keys == drained.Keys
    {
      hide Out, Held, GaugeOps, Gauges, WindowOps, LoopOps, DecisionOps, FailureOps, GroupOps, PhaseOps;
      var keys := set s | s in gauges && Before(s, upTo);
      drained, gauges := RemoveKeys(gauges, keys);
      GaugesOut(log, upTo);
      Note(GaugesDrained(upTo));
    }
  }

  // ---------------------------------------------------------------------------------------
  // Conservation

  /** What the requests of a step in one second add up to. */
  function RequestsIn(log: seq<Event>, step: string, second: int): Tally {
    if log == [] then Zero
    else
      var before := RequestsIn(log[..|log| - 1], step, second);
      match log[|log| - 1]
      case Recorded(s, latency, status, isError, _, now) =>
        if s == step && now == second then Plus(before, OneRequest(latency, status, isError)) else before
      case _ => before
  }

  lemma RecordedAppend<K(!new)>(ops: seq<Op<K>>, more: seq<Op<K>>, k: K)
    requires |more| <= 1
    ensures Tallies.Recorded(ops + more, k)
         == if more != [] && more[0].Put? && more[0].key == k then Plus(Tallies.Recorded(ops, k), more[0].tally)
             else Tallies.Recorded(ops, k)
  {
    if more == [] {
      assert ops + more == ops;
    } else {
      assert (ops + more)[..|ops|] == ops;
    }
  }

  lemma {:induction false} WindowsRecordRequests(log: seq<Event>, step: string, second: int)
    ensures Tallies.Recorded(WindowOps(log), (step, second)) == RequestsIn(log, step, second)
    decreases |log|
  {
    if log != [] {
      WindowsRecordRequests(log[..|log| - 1], step, second);
      RecordedAppend(WindowOps(log[..|log| - 1]), WindowOp(log[|log| - 1]), (step, second));
    }
  }

  /** Over any interleaving of records and drains: for every step and second, the drained windows
      and the held window add up — in requests, errors, status codes and samples — to exactly the
      requests recorded for that step in that second. */
  lemma WindowsAreConserved(log: seq<Event>, step: string, second: int)
    ensures Plus(TotalOut(Out(WindowOps(log)), (step, second)), At(Held(WindowOps(log)), (step, second)))
            == RequestsIn(log, step, second)
  {
    Conservation(WindowOps(log), (step, second));
    WindowsRecordRequests(log, step, second);
  }

  lemma NothingPut<K(!new)>(ops: seq<Op<K>>, k: K)
    requires ops == []
    ensures Tallies.Recorded(ops, k) == Zero
  {
  }

  // What the decisions, send failures, groups and phases of a step add up to.

  function DecisionsIn(log: seq<Event>, step: string, branch: string): Tally {
    if log == [] then Zero
    else
      var before, ev := DecisionsIn(log[..|log| - 1], step, branch), log[|log| - 1];
      if ev.Decided? && ev.step == step && ev.branch == branch then Plus(before, OneCount(false)) else before
  }

  lemma {:induction false} DecisionsAreRecorded(log: seq<Event>, step: string, branch: string)
    ensures Tallies.Recorded(DecisionOps(log), (step, branch)) == DecisionsIn(log, step, branch)
    decreases |log|
  {
    hide Plus, Tallies.Recorded;
    if log == [] {
      NothingPut(DecisionOps(log), (step, branch));
    } else {
      DecisionsAreRecorded(log[..|log| - 1], step, branch);
      RecordedAppend(DecisionOps(log[..|log| - 1]), DecisionOp(log[|log| - 1]), (step, branch));
    }
  }

  function FailuresIn(log: seq<Event>, step: string, kind: ErrorKind): Tally {
    if log == [] then Zero
    else
      var before, ev := FailuresIn(log[..|log| - 1], step, kind), log[|log| - 1];
      if ev.Failed? && ev.step == step && ev.kind == kind then Plus(before, OneCount(false)) else before
  }

  lemma {:induction false} FailuresAreRecorded(log: seq<Event>, step: string, kind: ErrorKind)
    ensures Tallies.Recorded(FailureOps(log), (step, kind)) == FailuresIn(log, step, kind)
    decreases |log|
  {
    hide Plus, Tallies.Recorded;
    if log == [] {
      NothingPut(FailureOps(log), (step, kind));
    } else {
      FailuresAreRecorded(log[..|log| - 1], step, kind);
      RecordedAppend(FailureOps(log[..|log| - 1]), FailureOp(log[|log| - 1]), (step, kind));
    }
  }

  function GroupsIn(log: seq<Event>, step: string, branch: string): Tally {
    if log == [] then Zero
    else
      var before, ev := GroupsIn(log[..|log| - 1], step, branch), log[|log| - 1];
      if ev.Grouped? && ev.step == step && ev.branch == branch then Plus(before, OneSample(ev.latency)) else before
  }

  lemma {:induction false} GroupsAreRecorded(log: seq<Event>, step: string, branch: string)
    ensures Tallies.Recorded(GroupOps(log), (step, branch)) == GroupsIn(log, step, branch)
    decreases |log|
  {
    hide Plus, Tallies.Recorded;
    if log == [] {
      NothingPut(GroupOps(log), (step, branch));
    } else {
      GroupsAreRecorded(log[..|log| - 1], step, branch);
      RecordedAppend(GroupOps(log[..|log| - 1]), GroupOp(log[|log| - 1]), (step, branch));
    }
  }

  function PhasesIn(log: seq<Event>, step: string, phase: string): Tally {
    if log == [] then Zero
    else
      var before, ev := PhasesIn(log[..|log| - 1], step, phase), log[|log| - 1];
      if ev.Phased? && ev.step == step && ev.phase == phase then Plus(before, OneSample(ev.latency)) else before
  }

  lemma {:induction false} PhasesAreRecorded(log: seq<Event>, step: string, phase: string)
    ensures Tallies.Recorded(PhaseOps(log), (step, phase)) == PhasesIn(log, step, phase)
    decreases |log|
  {
    hide Plus, Tallies.Recorded;
    if log == [] {
      NothingPut(PhaseOps(log), (step, phase));
    } else {
      PhasesAreRecorded(log[..|log| - 1], step, phase);
      RecordedAppend(PhaseOps(log[..|log| - 1]), PhaseOp(log[|log| - 1]), (step, phase));
    }
  }

  /** The drained and held counters of a step equal its recorded decisions and send failures, and
      its drained and held group and phase samples the recorded ones. */
  lemma CountersAreConserved(log: seq<Event>, step: string, name: string, kind: ErrorKind)
    ensures Plus(TotalOut(Out(DecisionOps(log)), (step, name)), At(Held(DecisionOps(log)), (step, name)))
         == DecisionsIn(log, step, name)
    ensures Plus(TotalOut(Out(FailureOps(log)), (step, kind)), At(Held(FailureOps(log)), (step, kind)))
         == FailuresIn(log, step, kind)
    ensures Plus(TotalOut(Out(GroupOps(log)), (step, name)), At(Held(GroupOps(log)), (step, name)))
         == GroupsIn(log, step, name)
    ensures Plus(TotalOut(Out(PhaseOps(log)), (step, name)), At(Held(PhaseOps(log)), (step, name)))
         == PhasesIn(log, step, name)
  {
    hide Held, Out, Tallies.Recorded, DecisionsIn, FailuresIn, GroupsIn, PhasesIn;
    Conservation(DecisionOps(log), (step, name));
    Conservation(FailureOps(log), (step, kind));
    Conservation(GroupOps(log), (step, name));
    Conservation(PhaseOps(log), (step, name));
    DecisionsAreRecorded(log, step, name);
    FailuresAreRecorded(log, step, kind);
    GroupsAreRecorded(log, step, name);
    PhasesAreRecorded(log, step, name);
  }

  // ---------------------------------------------------------------------------------------
  // Loop buckets

  /** How many requests of a step were made in a loop round with the given bucket. */
  function RoundsIn(log: seq<Event>, step: string, cap: nat, bucket: nat): Tally {
    if log == [] then Zero
    else
      var before := RoundsIn(log[..|log| - 1], step, cap, bucket);
      var ev := log[|log| - 1];
      if InBucket(ev, step, cap, bucket) then Plus(before, OneCount(ev.isError)) else before
  }

  predicate InBucket(ev: Event, step: string, cap: nat, bucket: nat) {
    ev.Recorded? && ev.step == step && ev.index.Some?
    && if bucket < cap then ev.index.value == bucket else bucket == LoopOverflow && cap <= ev.index.value
  }

  lemma NothingRecorded(step: string, cap: nat, bucket: nat)
    ensures Tallies.Recorded<(string, nat)>([], (step, bucket)) == Zero == RoundsIn([], step, cap, bucket)
  {
  }

  lemma {:induction false} LoopsRecordRounds(log: seq<Event>, step: string, cap: nat, bucket: nat)
    requires 0 < cap <= LoopOverflow
    ensures Tallies.Recorded(LoopOps(log, cap), (step, bucket)) == RoundsIn(log, step, cap, bucket)
    decreases |log|
  {
    hide Tallies.Recorded, RoundsIn, Plus;
    if log == [] {
      NothingRecorded(step, cap, bucket);
    } else {
      LoopsRecordRounds(log[..|log| - 1], step, cap, bucket);
      RoundsOneMore(log, step, cap, bucket);
      RecordedAppend(LoopOps(log[..|log| - 1], cap), LoopOp(log[|log| - 1], cap), (step, bucket));
    }
  }

  /** A bucket below the cap counts exactly the requests with that loop index, and the overflow
      bucket exactly those at or above the cap: no index below the cap ever collides with it. */
  lemma LoopBucketsAreConserved(log: seq<Event>, step: string, cap: nat, bucket: nat)
    requires 0 < cap <= LoopOverflow
    ensures Plus(TotalOut(Out(LoopOps(log, cap)), (step, bucket)), At(Held(LoopOps(log, cap)), (step, bucket)))
         == RoundsIn(log, step, cap, bucket)
  {
    Conservation(LoopOps(log, cap), (step, bucket));
    LoopsRecordRounds(log, step, cap, bucket);
  }

  /** The requests of a step made inside a loop. */
  function IndexedIn(log: seq<Event>, step: string): Tally {
    if log == [] then Zero
    else
      var before := IndexedIn(log[..|log| - 1], step);
      match log[|log| - 1]
      case Recorded(s, _, _, isError, Some(i), _) => if s == step then Plus(before, OneCount(isError)) else before
      case _ => before
  }

  /** The sum over the buckets below `n`. */
  function BucketsBelow(log: seq<Event>, step: string, cap: nat, n: nat): Tally {
    if n == 0 then Zero else Plus(BucketsBelow(log, step, cap, n - 1), RoundsIn(log, step, cap, n - 1))
  }

  lemma RoundsOneMore(log: seq<Event>, step: string, cap: nat, bucket: nat)
    requires log != []
    ensures RoundsIn(log, step, cap, bucket)
         == var ev, before := log[|log| - 1], RoundsIn(log[..|log| - 1], step, cap, bucket);
            if InBucket(ev, step, cap, bucket) then Plus(before, OneCount(ev.isError)) else before
  {
  }

  lemma {:induction false} BucketsOneMore(log: seq<Event>, step: string, cap: nat, n: nat)
    requires log != [] && n <= cap
    ensures var ev, front := log[|log| - 1], log[..|log| - 1];
            BucketsBelow(log, step, cap, n)
            == if ev.Recorded? && ev.step == step && ev.index.Some? && ev.index.value < n
               then Plus(BucketsBelow(front, step, cap, n), OneCount(ev.isError)) else BucketsBelow(front, step, cap, n)
    decreases n
  {
    hide Plus, RoundsIn;
    if n > 0 {
      BucketsOneMore(log, step, cap, n - 1);
      RoundsOneMore(log, step, cap, n - 1);
      var ev, front := log[|log| - 1], log[..|log| - 1];
      if ev.Recorded? {
        PlusLaws(BucketsBelow(front, step, cap, n - 1), RoundsIn(front, step, cap, n - 1), OneCount(ev.isError));
        PlusLaws(BucketsBelow(front, step, cap, n - 1), OneCount(ev.isError), RoundsIn(front, step, cap, n - 1));
      }
    }
  }

  /** The buckets of a step, the overflow bucket included, add up to all its requests with an index. */
  lemma {:induction false} BucketsSumToIndexed(log: seq<Event>, step: string, cap: nat)
    requires 0 < cap <= LoopOverflow
    ensures Plus(BucketsBelow(log, step, cap, cap), RoundsIn(log, step, cap, LoopOverflow)) == IndexedIn(log, step)
    decreases |log|
  {
    hide Plus, RoundsIn, BucketsBelow;
    if log == [] {
      NoBuckets(log, step, cap, cap);
      NothingRecorded(step, cap, LoopOverflow);
      PlusLaws(Zero, Zero, Zero);
    } else {
      var ev, front := log[|log| - 1], log[..|log| - 1];
      BucketsSumToIndexed(front, step, cap);
      BucketsOneMore(log, step, cap, cap);
      RoundsOneMore(log, step, cap, LoopOverflow);
      if ev.Recorded? {
        PlusLaws(BucketsBelow(front, step, cap, cap), RoundsIn(front, step, cap, LoopOverflow), OneCount(ev.isError));
      }
    }
  }

  lemma {:induction false} NoBuckets(log: seq<Event>, step: string, cap: nat, n: nat)
    requires log == []
    ensures BucketsBelow(log, step, cap, n) == Zero
    decreases n
  {
    if n > 0 {
      NoBuckets(log, step, cap, n - 1);
    }
  }

  // ---------------------------------------------------------------------------------------
  // The sums, counted event by event

  function Count(log: seq<Event>, p: Event -> bool): nat {
    if log == [] then 0 else Count(log[..|log| - 1], p) + if p(log[|log| - 1]) then 1 else 0
  }

  predicate IsRequest(ev: Event, step: string, second: int) {
    ev.Recorded? && ev.step == step && ev.now == second
  }

  /** The sample a latency in microseconds leaves: itself, within 1 microsecond and 60 seconds. */
  predicate Leaves(latency: nat, sample: nat) {
    if latency < 1 then sample == 1 else if latency <= 60_000_000 then sample == latency else sample == 60_000_000
  }

  /** The requests of a step in a second: how many, how many in error, how many with each status and how
      many with each latency. */
  lemma {:induction false} RequestsAreCounted(log: seq<Event>, step: string, second: int, status: nat, sample: nat)
    ensures var t := RequestsIn(log, step, second);
            && t.count == Count(log, ev => IsRequest(ev, step, second))
            && t.errors == Count(log, ev => IsRequest(ev, step, second) && ev.isError)
            && t.statuses[status] == Count(log, ev => IsRequest(ev, step, second) && ev.status == status)
            && t.samples[sample] == Count(log, ev => IsRequest(ev, step, second) && Leaves(ev.latency, sample))
    decreases |log|
  {
    if log != [] {
      RequestsAreCounted(log[..|log| - 1], step, second, status, sample);
    }
  }

  /** The same for the rounds of a loop. */
  lemma {:induction false} RoundsAreCounted(log: seq<Event>, step: string, cap: nat, bucket: nat)
    ensures var t := RoundsIn(log, step, cap, bucket);
            && t.count == Count(log, ev => InBucket(ev, step, cap, bucket))
            && t.errors == Count(log, ev => InBucket(ev, step, cap, bucket) && ev.isError)
    decreases |log|
  {
    if log != [] {
      RoundsAreCounted(log[..|log| - 1], step, cap, bucket);
    }
  }

  /** The same for decisions and send failures. */
  lemma {:induction false} CountersAreCounted(log: seq<Event>, step: string, name: string, kind: ErrorKind)
    ensures DecisionsIn(log, step, name).count == Count(log, ev => ev == Decided(step, name))
    ensures FailuresIn(log, step, kind).count == Count(log, ev => ev == Failed(step, kind))
    decreases |log|
  {
    if log != [] {
      CountersAreCounted(log[..|log| - 1], step, name, kind);
    }
  }

  /** The same for groups and phases. */
  lemma {:induction false} SamplesAreCounted(log: seq<Event>, step: string, name: string, sample: nat)
    ensures GroupsIn(log, step, name).samples[sample]
         == Count(log, (ev: Event) =>
                   ev.Grouped? && ev.step == step && ev.branch == name && Leaves(ev.latency, sample))
    ensures PhasesIn(log, step, name).samples[sample]
         == Count(log, (ev: Event) =>
                   ev.Phased? && ev.step == step && ev.phase == name && Leaves(ev.latency, sample))
    decreases |log|
  {
    if log != [] {
      SamplesAreCounted(log[..|log| - 1], step, name, sample);
    }
  }

  /** Event `i` is the last sample of the second, and no drain has taken it. */
  predicate LastSample(log: seq<Event>, second: int, i: nat) {
    && i < |log| && log[i].Gauged? && log[i].second == second
    && forall j :: i < j < |log| ==>
                     !(log[j].Gauged? && log[j].second == second)
                     && !(log[j].GaugesDrained? && (log[j].upTo.None? || second < log[j].upTo.value))
  }

  lemma LastSampleOneMore(log: seq<Event>, second: int, i: nat)
    requires log != []
    ensures var ev, front := log[|log| - 1], log[..|log| - 1];
            LastSample(log, second, i)
            <==> if i == |log| - 1 then ev.Gauged? && ev.second == second
                 else && LastSample(front, second, i) && !(ev.Gauged? && ev.second == second)
                      && !(ev.GaugesDrained? && (ev.upTo.None? || second < ev.upTo.value))
  {
    var front := log[..|log| - 1];
    assert forall j :: 0 <= j < |front| ==> front[j] == log[j];
  }

  /** The gauge held for a second is its last sample since that second was drained; there is none if
      there is no such sample. */
  lemma {:induction false} GaugeIsLastSample(log: seq<Event>, second: int)
    ensures forall i: nat :: LastSample(log, second, i) ==>
                               second in Gauges(log) && Gauges(log)[second] == log[i].gauge
    ensures second in Gauges(log) ==> exists i: nat :: LastSample(log, second, i)
    decreases |log|
  {
    if log != [] {
      hide LastSample;
      var front, last := log[..|log| - 1], |log| - 1;
      GaugeIsLastSample(front, second);
      LastSampleOneMore(log, second, last);
      forall i: nat | LastSample(log, second, i)
        ensures i < |log| && log[i].Gauged? && second in Gauges(log) && Gauges(log)[second] == log[i].gauge
      {
        LastSampleOneMore(log, second, i);
        SampleInRange(front, second, i);
      }
      if second in Gauges(log) && !LastSample(log, second, last) {
        var i: nat :| LastSample(front, second, i);
        LastSampleOneMore(log, second, i);
        SampleInRange(front, second, i);
      }
    }
  }

  lemma SampleInRange(log: seq<Event>, second: int, i: nat)
    ensures LastSample(log, second, i) ==> i < |log| && log[i].Gauged?
  {
  }

  // ---------------------------------------------------------------------------------------
  // Every window is emitted once

  /** In the order in which events reach the aggregator, no request is stamped with a second that an
      earlier drain has closed, and nothing is recorded after a drain of everything. */
  ghost predicate StampsFollowDrains(log: seq<Event>) {
    forall i, j :: 0 <= i < j < |log| && log[i].WindowsDrained? && log[j].Recorded? ==> !Before(log[j].now, log[i].upTo)
  }

  /** This is so because a request is stamped while the aggregator is locked: if `at(i)` is the second
      in which event `i` holds the lock, requests carry just that second, a drain a bound read at
      that second or earlier, and no request comes after a drain of everything. */
  lemma StampedUnderLock(log: seq<Event>, at: nat -> int)
    requires forall i, j :: 0 <= i < j < |log| ==> at(i) <= at(j)
    requires forall i :: 0 <= i < |log| && log[i].Recorded? ==> log[i].now == at(i)
    requires forall i :: 0 <= i < |log| && log[i].WindowsDrained? ==>
                           log[i].upTo.Some? ==> log[i].upTo.value <= at(i)
    requires forall i, j :: 0 <= i < j < |log| && log[i].WindowsDrained? && log[i].upTo.None? ==> !log[j].Recorded?
    ensures StampsFollowDrains(log)
  {
  }

  ghost predicate ClosedBefore(log: seq<Event>, second: int) {
    exists i :: 0 <= i < |log| && log[i].WindowsDrained? && Before(second, log[i].upTo)
  }

  lemma {:induction false} EmittedWindowsAreClosed(log: seq<Event>, k: (string, int))
    requires Times(Out(WindowOps(log)), k) > 0
    ensures ClosedBefore(log, k.1)
    decreases |log|
  {
    if log != [] {
      var ev, front := log[|log| - 1], log[..|log| - 1];
      if WindowOp(ev) == [] {
        assert WindowOps(log) == WindowOps(front);
      } else {
        TimesOneMore(WindowOps(front), WindowOp(ev)[0], k);
      }
      if Times(Out(WindowOps(front)), k) > 0 {
        EmittedWindowsAreClosed(front, k);
        var i :| 0 <= i < |front| && front[i].WindowsDrained? && Before(k.1, front[i].upTo);
        assert log[i] == front[i];
      }
    }
  }

  lemma {:induction false} NoLateRequest(log: seq<Event>)
    requires StampsFollowDrains(log)
    ensures NoLatePut(WindowOps(log))
    decreases |log|
  {
    if log != [] {
      var ev, front := log[|log| - 1], log[..|log| - 1];
      NoLateRequest(front);
      if WindowOp(ev) == [] {
        assert WindowOps(log) == WindowOps(front);
      } else {
        NoLatePutOneMore(WindowOps(front), WindowOp(ev)[0]);
        if ev.Recorded? && Times(Out(WindowOps(front)), (ev.step, ev.now)) > 0 {
          EmittedWindowsAreClosed(front, (ev.step, ev.now));
        }
      }
    }
  }

  /** Under the lock discipline each window of a step and second is emitted at most once, the final
      drain included: the flusher never splits a second over two batches. */
  lemma WindowsAreEmittedOnce(log: seq<Event>)
    requires StampsFollowDrains(log)
    ensures TakenOnce(Out(WindowOps(log + [WindowsDrained(None)])))
  {
    var ev := WindowsDrained(None);
    NoLateRequest(log);
    assert (log + [ev])[..|log|] == log;
    TakenOnceIffNoLatePut(WindowOps(log), WindowOp(ev)[0].which);
  }

  // ---------------------------------------------------------------------------------------
  // Active-VU gauges

  /** The seconds with a gauge are those the ledger of gauges holds. */
  lemma {:induction false} GaugeSeconds(log: seq<Event>)
    ensures Gauges(log).Keys == Held(GaugeOps(log)).Keys
    decreases |log|
  {
    if log != [] {
      var ev, front := log[|log| - 1], log[..|log| - 1];
      GaugeSeconds(front);
      if GaugeOp(ev) == [] {
        assert GaugeOps(log) == GaugeOps(front);
      } else {
        HeldAfter(GaugeOps(front), GaugeOp(ev)[0]);
      }
    }
  }

  /** The event drains the gauge of this second. */
  predicate DrainsGauge(ev: Event, second: int) {
    ev.GaugesDrained? && Before(second, ev.upTo)
  }

  predicate IsGauge(ev: Event, second: int) {
    ev.Gauged? && ev.second == second
  }

  /** A gauge of this second has been recorded, and not drained since. */
  ghost predicate GaugeWaits(log: seq<Event>, second: int) {
    exists i :: 0 <= i < |log| && IsGauge(log[i], second) && forall d :: i < d < |log| ==> !DrainsGauge(log[d], second)
  }

  /** A gauge of this second has been recorded and then drained. */
  ghost predicate GaugeLeft(log: seq<Event>, second: int) {
    exists i, d :: 0 <= i < d < |log| && IsGauge(log[i], second) && DrainsGauge(log[d], second)
  }

  lemma GaugeWaitsOneMore(log: seq<Event>, second: int)
    requires log != []
    ensures var ev, front := log[|log| - 1], log[..|log| - 1];
            GaugeWaits(log, second) <==> IsGauge(ev, second) || (GaugeWaits(front, second) && !DrainsGauge(ev, second))
  {
    var ev, last := log[|log| - 1], |log| - 1;
    var front := log[..last];
    assert IsGauge(ev, second) ==> GaugeWaits(log, second);
    if GaugeWaits(front, second) && !DrainsGauge(ev, second) {
      var i :| 0 <= i < |front| && IsGauge(front[i], second) && forall d :: i < d < |front| ==>
          !DrainsGauge(front[d], second);
      assert IsGauge(log[i], second);
      assert forall d :: i < d < |log| ==> !DrainsGauge(log[d], second) by {
        forall d | i < d < |log| ensures !DrainsGauge(log[d], second) {
          assert d < last ==> log[d] == front[d];
        }
      }
    }
    if GaugeWaits(log, second) && !IsGauge(ev, second) {
      var i :| 0 <= i < |log| && IsGauge(log[i], second) && forall d :: i < d < |log| ==> !DrainsGauge(log[d], second);
      assert IsGauge(front[i], second);
      assert forall d :: i < d < |front| ==> front[d] == log[d];
    }
  }

  lemma GaugeLeftOneMore(log: seq<Event>, second: int)
    requires log != []
    ensures var ev, front := log[|log| - 1], log[..|log| - 1];
            GaugeLeft(log, second)
            <==> GaugeLeft(front, second) || (GaugeWaits(front, second) && DrainsGauge(ev, second))
  {
    var ev, last := log[|log| - 1], |log| - 1;
    var front := log[..last];
    if GaugeLeft(front, second) {
      var i, d :| 0 <= i < d < |front| && IsGauge(front[i], second) && DrainsGauge(front[d], second);
      assert IsGauge(log[i], second) && DrainsGauge(log[d], second);
    }
    if GaugeWaits(front, second) && DrainsGauge(ev, second) {
      var i :| 0 <= i < |front| && IsGauge(front[i], second) && forall d :: i < d < |front| ==>
          !DrainsGauge(front[d], second);
      assert IsGauge(log[i], second) && DrainsGauge(log[last], second);
    }
    if GaugeLeft(log, second) && !GaugeLeft(front, second) {
      var i, d :| 0 <= i < d < |log| && IsGauge(log[i], second) && DrainsGauge(log[d], second);
      assert d == last by {
        assert forall e :: 0 <= e < |front| ==> front[e] == log[e];
      }
      assert IsGauge(front[i], second) && forall e :: i < e < |front| ==> !DrainsGauge(front[e], second);
    }
  }

  /** What the ledger holds and has put out, read off the log. */
  lemma {:induction false} GaugesInLog(log: seq<Event>, second: int)
    ensures second in Held(GaugeOps(log)) <==> GaugeWaits(log, second)
    ensures Times(Out(GaugeOps(log)), second) > 0 <==> GaugeLeft(log, second)
    decreases |log|
  {
    hide GaugeWaits, GaugeLeft, Held, Times, Out, GaugeOps;
    if log == [] {
      NothingInLog(log, second);
    } else {
      var ev, front := log[|log| - 1], log[..|log| - 1];
      GaugesInLog(front, second);
      GaugeWaitsOneMore(log, second);
      GaugeLeftOneMore(log, second);
      GaugeOpsLast(log);
      if GaugeOp(ev) == [] {
        assert GaugeOps(front) + [] == GaugeOps(front);
      } else {
        assert GaugeOp(ev) == [GaugeOp(ev)[0]];
        HeldAfter(GaugeOps(front), GaugeOp(ev)[0]);
        TimesOneMore(GaugeOps(front), GaugeOp(ev)[0], second);
      }
    }
  }

  lemma GaugeOpsLast(log: seq<Event>)
    requires log != []
    ensures GaugeOps(log) == GaugeOps(log[..|log| - 1]) + GaugeOp(log[|log| - 1])
  {
  }

  lemma NothingInLog(log: seq<Event>, second: int)
    requires log == []
    ensures !GaugeWaits(log, second) && !GaugeLeft(log, second)
    ensures second !in Held(GaugeOps(log)) && Times(Out(GaugeOps(log)), second) == 0
  {
  }

  /** No gauge is recorded for a second of which an earlier gauge has been drained. */
  ghost predicate NoLateGauge(log: seq<Event>) {
    forall j :: 0 <= j < |log| && log[j].Gauged? ==> !GaugeLeft(log[..j], log[j].second)
  }

  lemma NoLateGaugeOneMore(log: seq<Event>)
    requires log != []
    ensures var ev, front := log[|log| - 1], log[..|log| - 1];
            NoLateGauge(log) <==> NoLateGauge(front) && (ev.Gauged? ==> !GaugeLeft(front, ev.second))
  {
    hide GaugeLeft;
    var front := log[..|log| - 1];
    assert forall j :: 0 <= j < |front| ==> front[..j] == log[..j] && front[j] == log[j];
    if NoLateGauge(log) {
      forall j | 0 <= j < |front| && front[j].Gauged?
        ensures !GaugeLeft(front[..j], front[j].second)
      {
        assert !GaugeLeft(log[..j], log[j].second);
      }
    }
  }

  lemma {:induction false} NoLateGaugeIsNoLatePut(log: seq<Event>)
    ensures NoLateGauge(log) <==> NoLatePut(GaugeOps(log))
    decreases |log|
  {
    hide NoLateGauge, GaugeLeft, Times;
    if log == [] {
      NoEventsNoLateGauge(log);
    } else {
      var ev, front := log[|log| - 1], log[..|log| - 1];
      NoLateGaugeIsNoLatePut(front);
      NoLateGaugeOneMore(log);
      if GaugeOp(ev) == [] {
        assert GaugeOps(log) == GaugeOps(front);
      } else {
        NoLatePutOneMore(GaugeOps(front), GaugeOp(ev)[0]);
        if ev.Gauged? {
          GaugesInLog(front, ev.second);
        }
      }
    }
  }

  lemma NoEventsNoLateGauge(log: seq<Event>)
    requires log == []
    ensures NoLateGauge(log) && NoLatePut(GaugeOps(log))
  {
  }

  /** Each second's gauge is emitted at most once, the final drain included, exactly when the log has
      no gauge, then a drain past its second, then another gauge of that second. */
  lemma GaugesAreEmittedOnceIff(log: seq<Event>)
    ensures TakenOnce(Out(GaugeOps(log + [GaugesDrained(None)]))) <==> NoLateGauge(log)
  {
    var ev := GaugesDrained(None);
    NoLateGaugeIsNoLatePut(log);
    assert (log + [ev])[..|log|] == log;
    TakenOnceIffNoLatePut(GaugeOps(log), GaugeOp(ev)[0].which);
  }

  /** What the clock allows: `at[i]` is the second in which event `i` holds the lock.  The supervisor
      reads the second of a gauge, and the flusher the bound of a drain, before they wait for the
      lock; one supervisor takes the gauges, one after the other, and none after the final drain. */
  ghost predicate ClockAllows(log: seq<Event>, at: seq<int>) {
    && |at| == |log|
    && (forall i, j :: 0 <= i < j < |log| ==> at[i] <= at[j])
    && (forall i :: 0 <= i < |log| && log[i].Gauged? ==> log[i].second <= at[i])
    && (forall i, j :: 0 <= i < j < |log| && log[i].Gauged? && log[j].Gauged? ==> log[i].second <= log[j].second)
    && (forall d :: 0 <= d < |log| && log[d].GaugesDrained? && log[d].upTo.Some? ==> log[d].upTo.value <= at[d])
    && (forall d, j :: 0 <= d < j < |log| && log[d].GaugesDrained? && log[d].upTo.None? ==> !log[j].Gauged?)
  }

  /** Were gauges stamped while the aggregator is locked, as requests are, none would be late. */
  lemma GaugesStampedUnderLock(log: seq<Event>, at: seq<int>)
    requires ClockAllows(log, at)
    requires forall i :: 0 <= i < |log| && log[i].Gauged? ==> log[i].second == at[i]
    ensures NoLateGauge(log)
  {
    forall j | 0 <= j < |log| && log[j].Gauged?
      ensures !GaugeLeft(log[..j], log[j].second)
    {
      var before, s := log[..j], log[j].second;
      forall d | 0 <= d < |before|
        ensures !DrainsGauge(before[d], s)
      {
        assert before[d] == log[d] && at[d] <= at[j];
      }
    }
  }

  /** As it is, a second can be emitted twice: its first gauge is drained while the supervisor, which
      has read the same second once more, still waits for the lock. */
  lemma LateGaugeIsEmittedTwice(g: Gauge, h: Gauge)
    ensures var log := [Gauged(9, g), GaugesDrained(Some(10)), Gauged(9, h)];
            ClockAllows(log, [9, 10, 10]) && !NoLateGauge(log) && !TakenOnce(Out(GaugeOps(log + [GaugesDrained(None)])))
  {
    var log := [Gauged(9, g), GaugesDrained(Some(10)), Gauged(9, h)];
    hide GaugeOps, Out, Times, Held;
    var before := log[..2];
    assert IsGauge(before[0], 9) && DrainsGauge(before[1], 9);
    assert log[2].Gauged? && GaugeLeft(log[..2], log[2].second);
    GaugesAreEmittedOnceIff(log);
  }
}
