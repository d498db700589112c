/** The report of a run: every metric row is added to its window, its step, its worker and the total. */
module Reports {
  import opened Options
  import opened Tallies

  /** A stored row; `samples` is none when the histogram blob cannot be decoded. */
  datatype Row = Row(second: int, step: string, worker: string, count: nat, errors: nat, statuses: multiset<nat>,
                     samples: Option<multiset<nat>>)

  datatype Report = Report(windows: Table<(int, string)>, steps: Table<string>, workers: Table<string>, overall: Tally)

  function TallyOf(r: Row): Tally {
    Tally(r.count, r.errors, r.statuses, if r.samples.Some? then r.samples.value else multiset{})
  }

  /** Worker rows of the report carry no status codes. */
  function WorkerTally(r: Row): Tally {
    TallyOf(r).(statuses := multiset{})
  }

  function WindowOf(r: Row): (int, string) {
    (r.second, r.step)
  }

  function StepOf(r: Row): string {
    r.step
  }

  function WorkerOf(r: Row): string {
    r.worker
  }

  // ---------------------------------------------------------------------------------------
  // Grouping rows

  /** Adds the rows one after the other to the entries of their keys. */
  function Group<K(==)>(rows: seq<Row>, key: Row -> K, value: Row -> Tally): Table<K> {
    if rows == [] then map[] else Add(Group(rows[..|rows| - 1], key, value), key(rows[|rows| - 1]),
                                      value(rows[|rows| - 1]))
  }

  function Total(rows: seq<Row>, value: Row -> Tally): Tally {
    if rows == [] then Zero else Plus(Total(rows[..|rows| - 1], value), value(rows[|rows| - 1]))
  }

  /** The rows of one key, in order. */
  function Where<K(==)>(rows: seq<Row>, key: Row -> K, k: K): seq<Row> {
    if rows == [] then []
    else Where(rows[..|rows| - 1], key, k) + if key(rows[|rows| - 1]) == k then [rows[|rows| - 1]] else []
  }

  lemma TotalOneMore(rows: seq<Row>, r: Row, value: Row -> Tally)
    ensures Total(rows + [r], value) == Plus(Total(rows, value), value(r))
  {
    assert (rows + [r])[..|rows|] == rows;
  }

  /** An entry holds exactly the total of the rows with its key, and only such keys have entries. */
  lemma {:induction false} GroupIsTotal<K(!new)>(rows: seq<Row>, key: Row -> K, value: Row -> Tally, k: K)
    ensures At(Group(rows, key, value), k) == Total(Where(rows, key, k), value)
    ensures k in Group(rows, key, value) <==> Where(rows, key, k) != []
    decreases |rows|
  {
    hide Plus;
    if rows != [] {
      var front, last := rows[..|rows| - 1], rows[|rows| - 1];
      GroupIsTotal(front, key, value, k);
      TotalOneMore(Where(front, key, k), last, value);
      assert Where(front, key, k) + [] == Where(front, key, k);
    }
  }

  /** The entries of any grouping add up to the total of all rows. */
  lemma {:induction false} GroupSums<K(!new)>(rows: seq<Row>, key: Row -> K, value: Row -> Tally)
    ensures Sum(Group(rows, key, value)) == Total(rows, value)
    decreases |rows|
  {
    if rows != [] {
      var front, last := rows[..|rows| - 1], rows[|rows| - 1];
      GroupSums(front, key, value);
      SumAdd(Group(front, key, value), key(last), value(last));
    }
  }

  // ---------------------------------------------------------------------------------------
  // The report

  function Workers(rows: seq<Row>): set<string> {
    set i | 0 <= i < |rows| && rows[i].worker != "" :: rows[i].worker
  }

  function Named(rows: seq<Row>): seq<Row> {
    if rows == [] then [] else Named(rows[..|rows| - 1]) + if rows[|rows| - 1].worker != "" then [rows[|rows| - 1]]
        else []
  }

  function Unnamed(rows: seq<Row>): seq<Row> {
    Where(rows, WorkerOf, "")
  }

  function ReportOf(rows: seq<Row>): Report {
    Report(Group(rows, WindowOf, TallyOf), Group(rows, StepOf, TallyOf),
           if |Workers(rows)| >= 2 then Group(Named(rows), WorkerOf, WorkerTally) else map[],
           Total(rows, TallyOf))
  }

  method MultiWorker(rows: seq<Row>) returns (r: bool)
    ensures r <==> |Workers(rows)| >= 2
  {
    var seen: set<string> := {};
    for i := 0 to |rows|
      invariant seen == set j | 0 <= j < i && rows[j].worker != "" :: rows[j].worker
    {
      if rows[i].worker != "" {
        seen := seen + {rows[i].worker};
      }
    }
    return |seen| >= 2;
  }

  /** One pass over the rows. */
  method BuildReport(rows: seq<Row>) returns (r: Report)
    ensures r == ReportOf(rows)
  {
    hide Group, Total, Named, Plus, Add, Workers;
    var multiWorker := MultiWorker(rows);
    var windows: Table<(int, string)>, steps: Table<string>, workers: Table<string> := map[], map[], map[];
    var count: nat, errors: nat, statuses: multiset<nat>, samples: multiset<nat> := 0, 0, multiset{}, multiset{};
    NoRows();
    assert rows[..0] == [];
    for i := 0 to |rows|
      invariant windows == Group(rows[..i], WindowOf, TallyOf)
      invariant steps == Group(rows[..i], StepOf, TallyOf)
      invariant workers == if multiWorker then Group(Named(rows[..i]), WorkerOf, WorkerTally) else map[]
      invariant Tally(count, errors, statuses, samples) == Total(rows[..i], TallyOf)
    {
      var row := rows[i];
      OneMoreRow(rows[..i], row);
      assert rows[..i + 1] == rows[..i] + [row];
      windows := Add(windows, WindowOf(row), TallyOf(row));
      if multiWorker && row.worker != "" {
        workers := Add(workers, row.worker, WorkerTally(row));
      }
      CountRow(count, errors, statuses, samples, row);
      if row.samples.Some? {
        samples := samples + row.samples.value;
      }
      count, errors, statuses := count + row.count, errors + row.errors, statuses + row.statuses;
      steps := Add(steps, row.step, TallyOf(row));
    }
    assert rows[..|rows|] == rows;
    r := Report(windows, steps, workers, Tally(count, errors, statuses, samples));
  }

  lemma CountRow(count: nat, errors: nat, statuses: multiset<nat>, samples: multiset<nat>, r: Row)
    ensures Plus(Tally(count, errors, statuses, samples), TallyOf(r))
         == Tally(count + r.count, errors + r.errors, statuses + r.statuses,
                  if r.samples.Some? then samples + r.samples.value else samples)
  {
  }

  lemma NoRows()
    ensures Group([], WindowOf, TallyOf) == map[] && Group([], StepOf, TallyOf) == map[]
    ensures Named([]) == [] && Group([], WorkerOf, WorkerTally) == map[] && Total([], TallyOf) == Zero
  {
  }

  lemma GroupOneMore<K(!new)>(rows: seq<Row>, r: Row, key: Row -> K, value: Row -> Tally)
    ensures Group(rows + [r], key, value) == Add(Group(rows, key, value), key(r), value(r))
  {
    assert (rows + [r])[..|rows|] == rows;
  }

  lemma OneMoreRow(rows: seq<Row>, r: Row)
    ensures Group(rows + [r], WindowOf, TallyOf) == Add(Group(rows, WindowOf, TallyOf), WindowOf(r), TallyOf(r))
    ensures Group(rows + [r], StepOf, TallyOf) == Add(Group(rows, StepOf, TallyOf), StepOf(r), TallyOf(r))
    ensures Group(Named(rows + [r]), WorkerOf, WorkerTally)
         == if r.worker == "" then Group(Named(rows), WorkerOf, WorkerTally)
            else Add(Group(Named(rows), WorkerOf, WorkerTally), WorkerOf(r), WorkerTally(r))
    ensures Total(rows + [r], TallyOf) == Plus(Total(rows, TallyOf), TallyOf(r))
  {
    GroupOneMore(rows, r, WindowOf, TallyOf);
    GroupOneMore(rows, r, StepOf, TallyOf);
    GroupOneMore(Named(rows), r, WorkerOf, WorkerTally);
    TotalOneMore(rows, r, TallyOf);
    NamedOneMore(rows, r);
  }

  lemma NamedOneMore(rows: seq<Row>, r: Row)
    ensures Named(rows + [r]) == if r.worker == "" then Named(rows) else Named(rows) + [r]
  {
    assert (rows + [r])[..|rows|] == rows;
  }

  /** Conservation: the overall requests, errors, status codes and samples are the sum over the
      windows and the sum over the steps. */
  lemma OverallIsSum(rows: seq<Row>)
    ensures var r := ReportOf(rows); r.overall == Sum(r.windows) == Sum(r.steps)
  {
    GroupSums(rows, WindowOf, TallyOf);
    GroupSums(rows, StepOf, TallyOf);
  }

  function NoStatuses(t: Tally): Tally {
    t.(statuses := multiset{})
  }

  lemma NoStatusesPlus(a: Tally, b: Tally)
    ensures NoStatuses(Plus(a, b)) == Plus(NoStatuses(a), NoStatuses(b)) && NoStatuses(Zero) == Zero == Plus(Zero, Zero)
  {
  }

  lemma NoStatusesOfRow(r: Row)
    ensures NoStatuses(TallyOf(r)) == WorkerTally(r)
  {
  }

  lemma UnnamedOneMore(rows: seq<Row>, r: Row)
    ensures Unnamed(rows + [r]) == if r.worker == "" then Unnamed(rows) + [r] else Unnamed(rows)
  {
    assert (rows + [r])[..|rows|] == rows;
  }

  lemma {:induction false} NamedAndUnnamed(rows: seq<Row>)
    ensures NoStatuses(Total(rows, TallyOf)) == Plus(Total(Named(rows), WorkerTally), Total(Unnamed(rows), WorkerTally))
    decreases |rows|
  {
    hide Plus, Total, Named, Unnamed, NoStatuses;
    if rows == [] {
      NobodyNamed(rows);
    } else {
      var front, last := rows[..|rows| - 1], rows[|rows| - 1];
      NamedAndUnnamed(front);
      OneMoreOfEither(front, last);
      assert rows == front + [last];
    }
  }

  lemma NobodyNamed(rows: seq<Row>)
    requires rows == []
    ensures NoStatuses(Total(rows, TallyOf)) == Plus(Total(Named(rows), WorkerTally), Total(Unnamed(rows), WorkerTally))
  {
    NoStatusesPlus(Zero, Zero);
  }

  lemma OneMoreOfEither(rows: seq<Row>, r: Row)
    requires NoStatuses(Total(rows, TallyOf)) == Plus(Total(Named(rows), WorkerTally),
                                                      Total(Unnamed(rows), WorkerTally))
    ensures NoStatuses(Total(rows + [r], TallyOf)) == Plus(Total(Named(rows + [r]), WorkerTally),
                                                           Total(Unnamed(rows + [r]), WorkerTally))
  {
    hide Plus, Total, Named, Unnamed, NoStatuses, TallyOf, WorkerTally;
    TotalOneMore(rows, r, TallyOf);
    NamedOneMore(rows, r);
    UnnamedOneMore(rows, r);
    NoStatusesPlus(Total(rows, TallyOf), TallyOf(r));
    NoStatusesOfRow(r);
    TotalOneMore(Named(rows), r, WorkerTally);
    TotalOneMore(Unnamed(rows), r, WorkerTally);
    PlusLaws(Total(Named(rows), WorkerTally), Total(Unnamed(rows), WorkerTally), WorkerTally(r));
  }

  lemma {:induction false} NoEmptyNoUnnamed(rows: seq<Row>)
    requires forall i :: 0 <= i < |rows| ==> rows[i].worker != ""
    ensures Unnamed(rows) == []
    decreases |rows|
  {
    if rows != [] {
      NoEmptyNoUnnamed(rows[..|rows| - 1]);
    }
  }

  /** With two or more workers, the workers and the rows without a worker id add up to the overall
      requests, errors and samples; so the workers alone do when every row has a worker id.  With
      fewer workers there is no breakdown. */
  lemma WorkersSum(rows: seq<Row>)
    ensures var r := ReportOf(rows);
            if |Workers(rows)| < 2 then r.workers == map[]
            else && NoStatuses(r.overall) == Plus(Sum(r.workers), Total(Unnamed(rows), WorkerTally))
                 && ((forall i :: 0 <= i < |rows| ==> rows[i].worker != "") ==> NoStatuses(r.overall) == Sum(r.workers))
  {
    NamedAndUnnamed(rows);
    GroupSums(Named(rows), WorkerOf, WorkerTally);
    PlusLaws(Sum(ReportOf(rows).workers), Zero, Zero);
    if forall i :: 0 <= i < |rows| ==> rows[i].worker != "" {
      NoEmptyNoUnnamed(rows);
    }
  }

  // ---------------------------------------------------------------------------------------
  // The order of the rows does not matter

  lemma {:induction false} TotalRemove(rows: seq<Row>, i: nat, value: Row -> Tally)
    requires i < |rows|
    ensures Total(rows, value) == Plus(Total(rows[..i] + rows[i + 1..], value), value(rows[i]))
    decreases |rows|
  {
    var front, last := rows[..|rows| - 1], rows[|rows| - 1];
    if i == |rows| - 1 {
      assert rows[..i] + rows[i + 1..] == front;
    } else {
      TotalRemove(front, i, value);
      assert rows[..i] + rows[i + 1..] == (front[..i] + front[i + 1..]) + [last];
      TotalOneMore(front[..i] + front[i + 1..], last, value);
      PlusLaws(Total(front[..i] + front[i + 1..], value), value(rows[i]), value(last));
    }
  }

  lemma {:induction false} TotalOfPermutation(a: seq<Row>, b: seq<Row>, value: Row -> Tally)
    requires multiset(a) == multiset(b)
    ensures Total(a, value) == Total(b, value)
    decreases |a|
  {
    hide Total;
    if a == [] {
      assert |b| == |multiset(b)| == 0;
    } else {
      var front, last := a[..|a| - 1], a[|a| - 1];
      assert a == front + [last];
      assert last in multiset(a);
      var i :| 0 <= i < |b| && b[i] == last;
      var rest := b[..i] + b[i + 1..];
      assert b == b[..i] + [last] + b[i + 1..];
      assert multiset(rest) == multiset(b) - multiset{last} == multiset(front);
      TotalOfPermutation(front, rest, value);
      TotalRemove(b, i, value);
      TotalOneMore(front, last, value);
    }
  }

  lemma {:induction false} WhereIsFilter<K(!new)>(rows: seq<Row>, key: Row -> K, k: K, r: Row)
    ensures multiset(Where(rows, key, k))[r] == if key(r) == k then multiset(rows)[r] else 0
    decreases |rows|
  {
    if rows != [] {
      assert rows == rows[..|rows| - 1] + [rows[|rows| - 1]];
      WhereIsFilter(rows[..|rows| - 1], key, k, r);
    }
  }

  lemma {:induction false} NamedIsFilter(rows: seq<Row>, r: Row)
    ensures multiset(Named(rows))[r] == if r.worker != "" then multiset(rows)[r] else 0
    decreases |rows|
  {
    if rows != [] {
      assert rows == rows[..|rows| - 1] + [rows[|rows| - 1]];
      NamedIsFilter(rows[..|rows| - 1], r);
    }
  }

  lemma GroupOfPermutation<K(!new)>(a: seq<Row>, b: seq<Row>, key: Row -> K, value: Row -> Tally)
    requires multiset(a) == multiset(b)
    ensures Group(a, key, value) == Group(b, key, value)
  {
    hide Group, Total, Where;
    var s, t := Group(a, key, value), Group(b, key, value);
    forall k
      ensures (k in s <==> k in t) && At(s, k) == At(t, k)
    {
      forall r
        ensures multiset(Where(a, key, k))[r] == multiset(Where(b, key, k))[r]
      {
        WhereIsFilter(a, key, k, r);
        WhereIsFilter(b, key, k, r);
      }
      assert multiset(Where(a, key, k)) == multiset(Where(b, key, k));
      assert |Where(a, key, k)| == |multiset(Where(a, key, k))|;
      assert |Where(b, key, k)| == |multiset(Where(b, key, k))|;
      TotalOfPermutation(Where(a, key, k), Where(b, key, k), value);
      GroupIsTotal(a, key, value, k);
      GroupIsTotal(b, key, value, k);
    }
    assert forall k :: k in s ==> s[k] == At(s, k);
    assert forall k :: k in t ==> t[k] == At(t, k);
  }

  /** The report depends only on the multiset of rows: neither their order nor the order in which
      workers delivered them matters. */
  lemma ReportOfPermutation(a: seq<Row>, b: seq<Row>)
    requires multiset(a) == multiset(b)
    ensures ReportOf(a) == ReportOf(b)
  {
    hide Group, Total, Named, Workers;
    GroupOfPermutation(a, b, WindowOf, TallyOf);
    GroupOfPermutation(a, b, StepOf, TallyOf);
    TotalOfPermutation(a, b, TallyOf);
    forall r
      ensures multiset(Named(a))[r] == multiset(Named(b))[r]
    {
      NamedIsFilter(a, r);
      NamedIsFilter(b, r);
    }
    assert multiset(Named(a)) == multiset(Named(b));
    GroupOfPermutation(Named(a), Named(b), WorkerOf, WorkerTally);
    WorkersOfPermutation(a, b);
  }

  lemma WorkersOfPermutation(a: seq<Row>, b: seq<Row>)
    requires multiset(a) == multiset(b)
    ensures Workers(a) == Workers(b)
  {
    assert forall i :: 0 <= i < |a| ==> a[i] in multiset(a);
    assert forall i :: 0 <= i < |b| ==> b[i] in multiset(b);
  }

  // ---------------------------------------------------------------------------------------
  // Neither does the split of a window over rows

  /** The windows of one step. */
  function WindowsOfStep(t: Table<(int, string)>, step: string): set<(int, string)> {
    set k | k in t && k.1 == step
  }

  /** A step is the sum of its windows, and has an entry exactly when it has a window. */
  lemma {:induction false} StepIsSumOfWindows(rows: seq<Row>, step: string)
    ensures var windows, steps := Group(rows, WindowOf, TallyOf), Group(rows, StepOf, TallyOf);
            && At(steps, step) == SumOver(WindowsOfStep(windows, step), windows)
            && (step in steps <==> WindowsOfStep(windows, step) != {})
    decreases |rows|
  {
    hide Plus;
    if rows != [] {
      var front, last := rows[..|rows| - 1], rows[|rows| - 1];
      StepIsSumOfWindows(front, step);
      WindowAdds(Group(front, WindowOf, TallyOf), last, step);
    }
  }

  lemma WindowAdds(t: Table<(int, string)>, r: Row, step: string)
    ensures var u, keys := Add(t, WindowOf(r), TallyOf(r)), WindowsOfStep(t, step);
            && SumOver(WindowsOfStep(u, step), u) == (if r.step == step then Plus(SumOver(keys, t), TallyOf(r))
                                                      else SumOver(keys, t))
            && (WindowsOfStep(u, step) != {} <==> r.step == step || keys != {})
  {
    hide Plus, TallyOf;
    var k, keys := WindowOf(r), WindowsOfStep(t, step);
    var u := Add(t, k, TallyOf(r));
    if r.step == step {
      assert WindowsOfStep(u, step) == keys + {k};
      assert k in WindowsOfStep(u, step);
      SumOverAdd(keys + {k}, t, k, TallyOf(r));
      SumSuperset(keys, keys + {k}, t);
    } else {
      assert WindowsOfStep(u, step) == keys;
      SumOverAdd(keys, t, k, TallyOf(r));
    }
  }

  /** Two lists of rows with the same windows, whatever rows make them up, give the same windows, the
      same steps and the same overall result: how workers split the requests does not matter. */
  lemma ReportOfSameWindows(a: seq<Row>, b: seq<Row>)
    requires forall k :: Total(Where(a, WindowOf, k), TallyOf) == Total(Where(b, WindowOf, k), TallyOf)
    requires forall k :: Where(a, WindowOf, k) == [] <==> Where(b, WindowOf, k) == []
    ensures var r, s := ReportOf(a), ReportOf(b); r.windows == s.windows && r.steps == s.steps && r.overall == s.overall
  {
    hide Group, Total, Where;
    var r, s := ReportOf(a), ReportOf(b);
    SameTables(a, b, WindowOf);
    OverallIsSum(a);
    OverallIsSum(b);
    forall step
      ensures (step in r.steps <==> step in s.steps) && At(r.steps, step) == At(s.steps, step)
    {
      StepIsSumOfWindows(a, step);
      StepIsSumOfWindows(b, step);
    }
    assert forall k :: k in r.steps ==> r.steps[k] == At(r.steps, k);
    assert forall k :: k in s.steps ==> s.steps[k] == At(s.steps, k);
  }

  lemma SameTables<K(!new)>(a: seq<Row>, b: seq<Row>, key: Row -> K)
    requires forall k :: Total(Where(a, key, k), TallyOf) == Total(Where(b, key, k), TallyOf)
    requires forall k :: Where(a, key, k) == [] <==> Where(b, key, k) == []
    ensures Group(a, key, TallyOf) == Group(b, key, TallyOf)
  {
    hide Group, Total, Where;
    var s, t := Group(a, key, TallyOf), Group(b, key, TallyOf);
    forall k
      ensures (k in s <==> k in t) && At(s, k) == At(t, k)
    {
      GroupIsTotal(a, key, TallyOf, k);
      GroupIsTotal(b, key, TallyOf, k);
    }
    assert forall k :: k in s ==> s[k] == At(s, k);
    assert forall k :: k in t ==> t[k] == At(t, k);
  }
}
