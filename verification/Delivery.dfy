/** From the requests of all workers to the report: what is recorded is reported, once. */
module Delivery {
  import opened Options
  import opened Tallies
  import opened Aggregators
  import opened Reports

  /** The row a worker delivers for one of its windows. */
  function RowFor(k: (string, int), t: Tally, worker: string): Row {
    Row(k.1, k.0, worker, t.count, t.errors, t.statuses, Some(t.samples))
  }

  /** The rows of one batch of windows, in whatever order the hash map gives them. */
  ghost function RowsOf(t: Table<(string, int)>, worker: string): seq<Row>
    decreases |t|
  {
    if t == map[] then []
    else
      var k :| k in t;
      assert |t - {k}| < |t| by {
        assert (t - {k}).Keys == t.Keys - {k};
      }
      [RowFor(k, t[k], worker)] + RowsOf(t - {k}, worker)
  }

  ghost function RowsOfAll(out: seq<Table<(string, int)>>, worker: string): seq<Row> {
    if out == [] then [] else RowsOfAll(out[..|out| - 1], worker) + RowsOf(out[|out| - 1], worker)
  }

  /** A worker's events, closed by the final drain. */
  function Closed(log: seq<Event>): seq<Event> {
    log + [WindowsDrained(None)]
  }

  /** All rows of all workers; worker `i` is named `names[i]`. */
  ghost function AllRows(logs: seq<seq<Event>>, names: seq<string>): seq<Row>
    requires |logs| == |names|
    decreases |logs|
  {
    if logs == [] then []
    else AllRows(logs[..|logs| - 1], names[..|logs| - 1]) + RowsOfAll(Out(WindowOps(Closed(logs[|logs| - 1]))),
                                                                      names[|logs| - 1])
  }

  /** The requests all workers made for a step in a second. */
  function AllRequestsIn(logs: seq<seq<Event>>, step: string, second: int): Tally {
    if logs == [] then Zero else Plus(AllRequestsIn(logs[..|logs| - 1], step, second),
                                      RequestsIn(logs[|logs| - 1], step, second))
  }

  /** What the rows hold for a window. */
  function InWindow(rows: seq<Row>, step: string, second: int): Tally {
    Total(Where(rows, WindowOf, (second, step)), TallyOf)
  }

  lemma InWindowOneMore(rows: seq<Row>, r: Row, step: string, second: int)
    ensures InWindow(rows + [r], step, second)
         == if WindowOf(r) == (second, step) then Plus(InWindow(rows, step, second), TallyOf(r))
             else InWindow(rows, step, second)
  {
    hide Plus;
    assert (rows + [r])[..|rows|] == rows;
    TotalOneMore(Where(rows, WindowOf, (second, step)), r, TallyOf);
    assert Where(rows, WindowOf, (second, step)) + [] == Where(rows, WindowOf, (second, step));
  }

  lemma {:induction false} InWindowAppend(a: seq<Row>, b: seq<Row>, step: string, second: int)
    ensures InWindow(a + b, step, second) == Plus(InWindow(a, step, second), InWindow(b, step, second))
    decreases |b|
  {
    hide InWindow;
    if b == [] {
      assert a + b == a;
      NoRowsInWindow(step, second);
      PlusLaws(InWindow(a, step, second), Zero, Zero);
    } else {
      var front, last := b[..|b| - 1], b[|b| - 1];
      InWindowAppend(a, front, step, second);
      assert a + b == (a + front) + [last] && b == front + [last];
      InWindowOneMore(a + front, last, step, second);
      InWindowOneMore(front, last, step, second);
      PlusLaws(InWindow(a, step, second), InWindow(front, step, second), TallyOf(last));
    }
  }

  lemma NoRowsInWindow(step: string, second: int)
    ensures InWindow([], step, second) == Zero
  {
  }

  lemma {:induction false} RowsHoldTable(t: Table<(string, int)>, worker: string, step: string, second: int)
    ensures InWindow(RowsOf(t, worker), step, second) == At(t, (step, second))
    decreases |t|
  {
    hide InWindow, Plus;
    NoRowsInWindow(step, second);
    if t != map[] {
      var k :| k in t && RowsOf(t, worker) == [RowFor(k, t[k], worker)] + RowsOf(t - {k}, worker);
      var first := [RowFor(k, t[k], worker)];
      assert (t - {k}).Keys == t.Keys - {k};
      RowsHoldTable(t - {k}, worker, step, second);
      InWindowAppend(first, RowsOf(t - {k}, worker), step, second);
      assert [] + first == first;
      InWindowOneMore([], first[0], step, second);
      PlusLaws(At(t, k), At(t - {k}, (step, second)), Zero);
      PlusLaws(At(t - {k}, (step, second)), Zero, Zero);
      assert TallyOf(first[0]) == t[k];
    }
  }

  lemma {:induction false} RowsHoldTables(out: seq<Table<(string, int)>>, worker: string, step: string, second: int)
    ensures InWindow(RowsOfAll(out, worker), step, second) == TotalOut(out, (step, second))
    decreases |out|
  {
    hide InWindow, Plus;
    if out == [] {
      NoRowsInWindow(step, second);
    } else {
      var front, last := out[..|out| - 1], out[|out| - 1];
      RowsHoldTables(front, worker, step, second);
      RowsHoldTable(last, worker, step, second);
      InWindowAppend(RowsOfAll(front, worker), RowsOf(last, worker), step, second);
    }
  }

  /** After the final drain nothing is left behind. */
  lemma ClosedTotal(log: seq<Event>, step: string, second: int)
    ensures TotalOut(Out(WindowOps(Closed(log))), (step, second)) == RequestsIn(log, step, second)
  {
    hide TotalOut, Out, RequestsIn, WindowOps, Held;
    var ev, k := WindowsDrained(None), (step, second);
    WindowsAreConserved(Closed(log), step, second);
    WindowOpsLast(log, ev);
    HeldAfter(WindowOps(log), WindowOp(ev)[0]);
    assert At(Held(WindowOps(Closed(log))), k) == Zero;
    PlusLaws(TotalOut(Out(WindowOps(Closed(log))), k), Zero, Zero);
    RequestsInClosed(log, step, second);
  }

  lemma RequestsInClosed(log: seq<Event>, step: string, second: int)
    ensures RequestsIn(Closed(log), step, second) == RequestsIn(log, step, second)
  {
    assert Closed(log)[..|log|] == log;
  }

  lemma {:induction false} AllRowsHold(logs: seq<seq<Event>>, names: seq<string>, step: string, second: int)
    requires |logs| == |names|
    ensures InWindow(AllRows(logs, names), step, second) == AllRequestsIn(logs, step, second)
    decreases |logs|
  {
    hide InWindow, Plus, RowsOfAll, RequestsIn, Out, TotalOut;
    if logs == [] {
      NoRowsInWindow(step, second);
    } else {
      var last := |logs| - 1;
      AllRowsHold(logs[..last], names[..last], step, second);
      ClosedTotal(logs[last], step, second);
      RowsHoldTables(Out(WindowOps(Closed(logs[last]))), names[last], step, second);
      InWindowAppend(AllRows(logs[..last], names[..last]), RowsOfAll(Out(WindowOps(Closed(logs[last]))), names[last]),
                     step, second);
    }
  }

  // ---------------------------------------------------------------------------------------
  // Steps and the overall result

  /** The requests of a run, or of one of its steps. */
  function Requests(log: seq<Event>, step: Option<string>): Tally {
    if log == [] then Zero
    else
      var before := Requests(log[..|log| - 1], step);
      match log[|log| - 1]
      case Recorded(s, latency, status, isError, _, _) =>
        if step == None || step == Some(s) then Plus(before, OneRequest(latency, status, isError)) else before
      case _ => before
  }

  /** The events of all workers, one worker after the other. */
  function Events(logs: seq<seq<Event>>): seq<Event> {
    if logs == [] then [] else Events(logs[..|logs| - 1]) + logs[|logs| - 1]
  }

  lemma {:induction false} RequestsInAppend(a: seq<Event>, b: seq<Event>, step: string, second: int)
    ensures RequestsIn(a + b, step, second) == Plus(RequestsIn(a, step, second), RequestsIn(b, step, second))
    decreases |b|
  {
    hide Plus, OneRequest;
    if b == [] {
      assert a + b == a;
      PlusLaws(RequestsIn(a, step, second), Zero, Zero);
    } else {
      var front, last := b[..|b| - 1], b[|b| - 1];
      assert (a + b)[..|a + b| - 1] == a + front && (a + b)[|a + b| - 1] == last;
      RequestsInAppend(a, front, step, second);
      if last.Recorded? {
        PlusLaws(RequestsIn(a, step, second), RequestsIn(front, step, second),
                 OneRequest(last.latency, last.status, last.isError));
      }
    }
  }

  lemma {:induction false} RequestsOfAllWorkers(logs: seq<seq<Event>>, step: string, second: int)
    ensures RequestsIn(Events(logs), step, second) == AllRequestsIn(logs, step, second)
    decreases |logs|
  {
    hide RequestsIn, Plus;
    if logs == [] {
      NoRequests(step, second);
    } else {
      RequestsOfAllWorkers(logs[..|logs| - 1], step, second);
      RequestsInAppend(Events(logs[..|logs| - 1]), logs[|logs| - 1], step, second);
    }
  }

  lemma NoRequests(step: string, second: int)
    ensures RequestsIn([], step, second) == Zero
  {
  }

  /** The windows the requests themselves make up. */
  function Ideal(log: seq<Event>): Table<(int, string)> {
    if log == [] then map[]
    else
      var before := Ideal(log[..|log| - 1]);
      match log[|log| - 1]
      case Recorded(s, latency, status, isError, _, now) => Add(before, (now, s), OneRequest(latency, status, isError))
      case _ => before
  }

  lemma {:induction false} IdealWindow(log: seq<Event>, step: string, second: int)
    ensures At(Ideal(log), (second, step)) == RequestsIn(log, step, second)
    decreases |log|
  {
    hide Plus, OneRequest;
    if log != [] {
      IdealWindow(log[..|log| - 1], step, second);
    }
  }

  lemma {:induction false} IdealSums(log: seq<Event>, step: string)
    ensures SumOver(WindowsOfStep(Ideal(log), step), Ideal(log)) == Requests(log, Some(step))
    ensures Sum(Ideal(log)) == Requests(log, None)
    decreases |log|
  {
    hide Plus, OneRequest, Sum;
    if log == [] {
      NoWindows();
    } else {
      var front, ev := log[..|log| - 1], log[|log| - 1];
      IdealSums(front, step);
      if ev.Recorded? {
        var x := OneRequest(ev.latency, ev.status, ev.isError);
        SumAdd(Ideal(front), (ev.now, ev.step), x);
        WindowAdds(Ideal(front), Row(ev.now, ev.step, "", x.count, x.errors, x.statuses, Some(x.samples)), step);
      }
    }
  }

  lemma NoWindows()
    ensures Sum<(int, string)>(map[]) == Zero
  {
  }

  /** Two tables that agree at every key have the same sums. */
  lemma SameSums(t: Table<(int, string)>, u: Table<(int, string)>, step: string)
    requires forall k :: At(t, k) == At(u, k)
    ensures Sum(t) == Sum(u) && SumOver(WindowsOfStep(t, step), t) == SumOver(WindowsOfStep(u, step), u)
  {
    hide Plus, SumOver;
    var all, some := t.Keys + u.Keys, WindowsOfStep(t, step) + WindowsOfStep(u, step);
    SumSuperset(t.Keys, all, t);
    SumSuperset(u.Keys, all, u);
    SumCongruence(all, t, u);
    SumSuperset(WindowsOfStep(t, step), some, t);
    SumSuperset(WindowsOfStep(u, step), some, u);
    SumCongruence(some, t, u);
  }

  /** End to end: if every batch a worker drains reaches the store, in any order and mixed with the
      batches of any other workers, then the report holds for each step and second exactly the
      requests, errors, status codes and samples recorded by all workers, however often and
      whenever their aggregators were drained; and so it does for each step and overall. */
  lemma EveryRequestIsReportedOnce(logs: seq<seq<Event>>, names: seq<string>, rows: seq<Row>, step: string, second: int)
    requires |logs| == |names| && multiset(rows) == multiset(AllRows(logs, names))
    ensures At(ReportOf(rows).windows, (second, step)) == AllRequestsIn(logs, step, second)
    ensures At(ReportOf(rows).steps, step) == Requests(Events(logs), Some(step))
    ensures ReportOf(rows).overall == Requests(Events(logs), None)
  {
    hide AllRows, AllRequestsIn, Group, Total, SumOver, Sum;
    WindowIsReported(logs, names, rows, step, second);
    var r, ideal := ReportOf(rows), Ideal(Events(logs));
    forall k
      ensures At(r.windows, k) == At(ideal, k)
    {
      WindowIsReported(logs, names, rows, k.1, k.0);
      RequestsOfAllWorkers(logs, k.1, k.0);
      IdealWindow(Events(logs), k.1, k.0);
    }
    SameSums(r.windows, ideal, step);
    IdealSums(Events(logs), step);
    StepIsSumOfWindows(rows, step);
    OverallIsSum(rows);
  }

  lemma WindowIsReported(logs: seq<seq<Event>>, names: seq<string>, rows: seq<Row>, step: string, second: int)
    requires |logs| == |names| && multiset(rows) == multiset(AllRows(logs, names))
    ensures At(ReportOf(rows).windows, (second, step)) == AllRequestsIn(logs, step, second)
  {
    hide AllRows, AllRequestsIn, Group, Total, Where;
    ReportOfPermutation(rows, AllRows(logs, names));
    GroupIsTotal(AllRows(logs, names), WindowOf, TallyOf, (second, step));
    AllRowsHold(logs, names, step, second);
  }

  // ---------------------------------------------------------------------------------------
  // Workers

  lemma {:induction false} NoStatusesTotal(rows: seq<Row>)
    ensures Total(rows, WorkerTally) == NoStatuses(Total(rows, TallyOf))
    decreases |rows|
  {
    hide Plus, NoStatuses, TallyOf, WorkerTally;
    NoStatusesPlus(Zero, Zero);
    if rows != [] {
      var front, last := rows[..|rows| - 1], rows[|rows| - 1];
      NoStatusesTotal(front);
      NoStatusesPlus(Total(front, TallyOf), TallyOf(last));
      NoStatusesOfRow(last);
    }
  }

  /** The rows of one worker, among those with a worker id. */
  function RowsBy(rows: seq<Row>, worker: string): seq<Row> {
    Where(Named(rows), WorkerOf, worker)
  }

  lemma {:induction false} RowsByAppend(a: seq<Row>, b: seq<Row>, worker: string)
    ensures RowsBy(a + b, worker) == RowsBy(a, worker) + RowsBy(b, worker)
    decreases |b|
  {
    hide RowsBy;
    if b == [] {
      assert a + b == a;
      RowsByNothing(worker);
    } else {
      var front, last := b[..|b| - 1], b[|b| - 1];
      RowsByAppend(a, front, worker);
      assert a + b == (a + front) + [last] && b == front + [last];
      RowsByOneMore(a + front, last, worker);
      RowsByOneMore(front, last, worker);
    }
  }

  lemma RowsByNothing(worker: string)
    ensures RowsBy([], worker) == []
  {
  }

  lemma RowsByOneMore(rows: seq<Row>, r: Row, worker: string)
    ensures RowsBy(rows + [r], worker)
         == RowsBy(rows, worker) + if r.worker != "" && r.worker == worker then [r] else []
  {
    NamedOneMore(rows, r);
    if r.worker != "" {
      assert (Named(rows) + [r])[..|Named(rows)|] == Named(rows);
    }
  }

  lemma {:induction false} RowsByOneWorker(rows: seq<Row>, name: string, worker: string)
    requires name != "" && forall i :: 0 <= i < |rows| ==> rows[i].worker == name
    ensures RowsBy(rows, worker) == if name == worker then rows else []
    decreases |rows|
  {
    hide RowsBy;
    if rows == [] {
      RowsByNothing(worker);
    } else {
      var front, last := rows[..|rows| - 1], rows[|rows| - 1];
      RowsByOneWorker(front, name, worker);
      assert rows == front + [last];
      RowsByOneMore(front, last, worker);
    }
  }

  lemma {:induction false} BatchIsNamed(t: Table<(string, int)>, worker: string)
    ensures forall i :: 0 <= i < |RowsOf(t, worker)| ==> RowsOf(t, worker)[i].worker == worker
    decreases |t|
  {
    if t != map[] {
      var k :| k in t && RowsOf(t, worker) == [RowFor(k, t[k], worker)] + RowsOf(t - {k}, worker);
      assert (t - {k}).Keys == t.Keys - {k};
      BatchIsNamed(t - {k}, worker);
    }
  }

  lemma {:induction false} BatchesAreNamed(out: seq<Table<(string, int)>>, worker: string)
    ensures forall i :: 0 <= i < |RowsOfAll(out, worker)| ==> RowsOfAll(out, worker)[i].worker == worker
    decreases |out|
  {
    if out != [] {
      BatchesAreNamed(out[..|out| - 1], worker);
      BatchIsNamed(out[|out| - 1], worker);
    }
  }

  /** All rows worker `k` delivers. */
  ghost function Delivered(logs: seq<seq<Event>>, names: seq<string>, k: nat): seq<Row>
    requires k < |logs| == |names|
  {
    RowsOfAll(Out(WindowOps(Closed(logs[k]))), names[k])
  }

  ghost predicate DistinctNames(names: seq<string>) {
    (forall i :: 0 <= i < |names| ==> names[i] != "") && forall i, j :: 0 <= i < j < |names| ==> names[i] != names[j]
  }

  lemma AllRowsLast(logs: seq<seq<Event>>, names: seq<string>)
    requires |logs| == |names| > 0
    ensures var last := |logs| - 1;
            AllRows(logs, names) == AllRows(logs[..last], names[..last]) + Delivered(logs, names, last)
  {
  }

  lemma DeliveredBefore(logs: seq<seq<Event>>, names: seq<string>, k: nat)
    requires k < |logs| - 1 && |logs| == |names|
    ensures Delivered(logs[..|logs| - 1], names[..|logs| - 1], k) == Delivered(logs, names, k)
  {
  }

  lemma DeliveredIsNamed(logs: seq<seq<Event>>, names: seq<string>, k: nat, worker: string)
    requires k < |logs| == |names| && names[k] != ""
    ensures RowsBy(Delivered(logs, names, k), worker) == if names[k] == worker then Delivered(logs, names, k) else []
  {
    hide RowsBy, RowsOfAll, Out, WindowOps;
    BatchesAreNamed(Out(WindowOps(Closed(logs[k]))), names[k]);
    RowsByOneWorker(Delivered(logs, names, k), names[k], worker);
  }

  lemma {:induction false} RowsOfStranger(logs: seq<seq<Event>>, names: seq<string>, worker: string)
    requires |logs| == |names| && DistinctNames(names) && worker !in names
    ensures RowsBy(AllRows(logs, names), worker) == []
    decreases |logs|
  {
    hide RowsBy;
    if logs == [] {
      RowsByNothing(worker);
    } else {
      var last := |logs| - 1;
      AllRowsLast(logs, names);
      RowsOfStranger(logs[..last], names[..last], worker);
      RowsByAppend(AllRows(logs[..last], names[..last]), Delivered(logs, names, last), worker);
      DeliveredIsNamed(logs, names, last, worker);
    }
  }

  lemma {:induction false} RowsOfWorker(logs: seq<seq<Event>>, names: seq<string>, k: nat)
    requires k < |logs| == |names| && DistinctNames(names)
    ensures RowsBy(AllRows(logs, names), names[k]) == Delivered(logs, names, k)
    decreases |logs|
  {
    hide RowsBy, AllRows, Delivered;
    var last := |logs| - 1;
    AllRowsLast(logs, names);
    RowsByAppend(AllRows(logs[..last], names[..last]), Delivered(logs, names, last), names[k]);
    DeliveredIsNamed(logs, names, last, names[k]);
    if k == last {
      RowsOfStranger(logs[..last], names[..last], names[k]);
      assert [] + Delivered(logs, names, k) == Delivered(logs, names, k);
    } else {
      RowsOfWorker(logs[..last], names[..last], k);
      DeliveredBefore(logs, names, k);
      assert Delivered(logs, names, k) + [] == Delivered(logs, names, k);
    }
  }

  /** What one worker delivers adds up to its own requests. */
  lemma DeliveredTotal(logs: seq<seq<Event>>, names: seq<string>, k: nat)
    requires k < |logs| == |names|
    ensures Total(Delivered(logs, names, k), TallyOf) == Requests(logs[k], None)
  {
    hide RowsOfAll, Out, WindowOps, Requests, Total, ReportOf;
    var one, name := [logs[k]], [names[k]];
    assert one[..0] == [] && name[..0] == [];
    assert AllRows(one, name) == [] + Delivered(logs, names, k) == Delivered(logs, names, k);
    assert Events(one) == [] + logs[k] == logs[k];
    EveryRequestIsReportedOnce(one, name, AllRows(one, name), "", 0);
    OverallIsTotal(AllRows(one, name));
  }

  lemma OverallIsTotal(rows: seq<Row>)
    ensures ReportOf(rows).overall == Total(rows, TallyOf)
  {
  }

  /** A worker that made requests has delivered rows under its name. */
  lemma BusyWorkerIsNamed(logs: seq<seq<Event>>, names: seq<string>, k: nat)
    requires k < |logs| == |names| && DistinctNames(names) && Requests(logs[k], None).count > 0
    ensures names[k] in Workers(AllRows(logs, names))
  {
    hide RowsOfAll, Requests, AllRows;
    DeliveredTotal(logs, names, k);
    RowsOfWorker(logs, names, k);
    var rows := AllRows(logs, names);
    assert RowsBy(rows, names[k]) != [];
    SomeRowBy(rows, names[k]);
  }

  lemma {:induction false} SomeRowBy(rows: seq<Row>, worker: string)
    requires RowsBy(rows, worker) != []
    ensures worker in Workers(rows)
    decreases |rows|
  {
    hide RowsBy;
    if rows == [] {
      RowsByNothing(worker);
    } else {
      var front, last := rows[..|rows| - 1], rows[|rows| - 1];
      assert rows == front + [last];
      RowsByOneMore(front, last, worker);
      if RowsBy(front, worker) != [] {
        SomeRowBy(front, worker);
        var i :| 0 <= i < |front| && front[i].worker != "" && front[i].worker == worker;
        assert rows[i] == front[i];
      } else {
        assert rows[|rows| - 1] == last;
      }
    }
  }

  /** With two or more workers that made requests, the report holds for every worker exactly the
      requests, errors and samples that worker recorded. */
  lemma EveryWorkerIsReported(logs: seq<seq<Event>>, names: seq<string>, rows: seq<Row>, i: nat, j: nat, k: nat)
    requires |logs| == |names| && DistinctNames(names) && multiset(rows) == multiset(AllRows(logs, names))
    requires i < j < |logs| && Requests(logs[i], None).count > 0 && Requests(logs[j], None).count > 0
    requires k < |logs|
    ensures At(ReportOf(rows).workers, names[k]) == NoStatuses(Requests(logs[k], None))
  {
    hide AllRows, Requests, Group, Total, Where, Named, Workers;
    var all := AllRows(logs, names);
    ReportOfPermutation(rows, all);
    BusyWorkerIsNamed(logs, names, i);
    BusyWorkerIsNamed(logs, names, j);
    TwoAreTwo(Workers(all), names[i], names[j]);
    GroupIsTotal(Named(all), WorkerOf, WorkerTally, names[k]);
    RowsOfWorker(logs, names, k);
    NoStatusesTotal(Delivered(logs, names, k));
    DeliveredTotal(logs, names, k);
  }

  lemma TwoAreTwo(s: set<string>, x: string, y: string)
    requires x in s && y in s && x != y
    ensures |s| >= 2
  {
    assert {x, y} <= s;
    var rest := s - {x, y};
    assert s == rest + {x, y} && |s| == |rest| + |{x, y}|;
  }
}
