/** The trace interpreter: one sequential, lenient pass with a request budget. */
module Traces {
  import opened Options
  import opened Templates
  import opened Requests
  import opened Scenarios
  import opened Conditions
  import opened ReqGens
  import opened Iterations

  datatype Opts = Opts(maxRequests: nat, applyThink: bool)

  /** Whether the wall clock has passed the deadline, at each look. */
  type Clock = seq<nat> -> bool

  /** What a trace reports.  `trouble` is not reported: it tells whether the request had an unclosed
      marker or a cast its text does not fit, which a trace passes over. */
  datatype Row =
    | HttpRow(id: string, loop: Option<nat>, request: Request, unbound: seq<string>, extracted: map<string, string>,
              buildError: bool, error: bool, trouble: bool)
    | IfRow(id: string, loop: Option<nat>, branch: Label, unbound: seq<string>)

  /** `st` is the state of the scenario; the rest is shared by everything the pass does. */
  datatype Pass = Pass(st: St, rows: seq<Row>, requests: nat, truncated: bool)

  /** A trace always runs as virtual user 0. */
  function TraceContext(e: Env, s: St, loop: Option<nat>): Context {
    ContextOf(e, s, loop).(vuId := 0)
  }

  // ---------------------------------------------------------------------------------------
  // Names a condition shows that have no value

  function IfUnbound(s: Step, ctx: Context): seq<string>
    requires s.If?
  {
    Dedup(MissingIn(IfTexts(s), ctx), {})
  }

  // ---------------------------------------------------------------------------------------
  // The interpreter

  /** Builds the request leniently and always sends it; a bad header stops extraction only. */
  function TraceHttp(e: Env, h: HttpStep, p: Pass, loop: Option<nat>, opts: Opts, late: Clock, here: seq<nat>,
                     think: bool): (r: Pass)
    requires WellFormed(e, p.st.gen)
    ensures WellFormed(e, r.st.gen)
  {
    var s1 := RefreshFor(e, p.st, h.id);
    var ctx := TraceContext(e, s1, loop);
    var t := BuildTraced(h.request, ctx, e.lib);
    var bad := t.badHeader.Some?;
    var (values, error) := if bad then (map[], true) else Extracted(e, h, e.respond(h, t.sent));
    var row := HttpRow(h.id, loop, t.sent, t.unbound, values, bad, error, RequestTrouble(h.request, ctx, e.lib));
    Pass(Commit(e, s1.(sent := s1.sent + [t.sent]), values, Extraction),
         p.rows + [row],
         p.requests + 1,
         p.truncated || (opts.applyThink && (h.think || think) && late(here + [0])))
  }

  function TraceSteps(e: Env, steps: seq<Step>, p: Pass, loop: Option<nat>, opts: Opts, late: Clock, path: seq<nat>,
                      think: bool): (r: Pass)
    requires WellFormed(e, p.st.gen)
    ensures WellFormed(e, r.st.gen)
    decreases steps, 0, 0
  {
    if steps == [] || p.truncated then p
    else
      var here := path + [|steps|];
      if p.requests >= opts.maxRequests || late(here) then p.(truncated := true)
      else TraceSteps(e, steps[1..], TraceStep(e, steps[0], p, loop, opts, late, here, think), loop, opts, late, path,
                      think)
  }

  function TraceStep(e: Env, step: Step, p: Pass, loop: Option<nat>, opts: Opts, late: Clock, here: seq<nat>,
                     think: bool): (r: Pass)
    requires WellFormed(e, p.st.gen)
    ensures WellFormed(e, r.st.gen)
    decreases step, 0, 0
  {
    match step
    case Http(h) => TraceHttp(e, h, p, loop, opts, late, here, think)
    case Loop(_, repeat, body) => TraceLoop(e, body, p, 0, repeat, opts, late, here, think)
    case If(id, _, _, _, _) =>
      var ctx := TraceContext(e, p.st, loop);
      var sel := Select(step, ctx, e.oracle);
      var row := IfRow(id, loop, sel.branch, IfUnbound(step, ctx));
      TraceSteps(e, sel.steps, p.(rows := p.rows + [row]), loop, opts, late, here, think)
    case Parallel(_, branches) =>
      var (gens, g) := ForkAll(e, p.st.gen, |branches|);
      TraceBranches(e, branches, gens, p.st, p.(st := p.st.(gen := g)), loop, opts, late, here)
  }

  function TraceLoop(e: Env, body: seq<Step>, p: Pass, i: nat, repeat: nat, opts: Opts, late: Clock, here: seq<nat>,
                     think: bool): (r: Pass)
    requires WellFormed(e, p.st.gen)
    ensures WellFormed(e, r.st.gen)
    decreases body, 1, repeat - i
  {
    if i >= repeat then p
    else if p.truncated || p.requests >= opts.maxRequests || late(here + [i]) then p.(truncated := true)
    else
      var q := TraceSteps(e, body, p, Some(i), opts, late, here + [i], think);
      if q.truncated then q else TraceLoop(e, body, q, i + 1, repeat, opts, late, here, think)
  }

  /** Branches run one after the other, each from the entry state, and each is merged right after
      it ends, even when the budget cut it short. */
  function TraceBranches(e: Env, branches: seq<Branch>, gens: seq<Option<Gen>>, entry: St, p: Pass, loop: Option<nat>,
                         opts: Opts, late: Clock, here: seq<nat>): (r: Pass)
    requires WellFormed(e, p.st.gen) && |gens| == |branches| && forall k :: 0 <= k < |gens| ==> WellFormed(e, gens[k])
    ensures WellFormed(e, r.st.gen)
    decreases branches, 0, 0
  {
    if branches == [] || p.truncated then p
    else
      var q := TraceSteps(e, branches[0].steps, p.(st := Enter(entry, gens[0])), loop, opts, late,
                          here + [|branches|], false);
      TraceBranches(e, branches[1..], gens[1..], entry, q.(st := MergeBranch(e, p.st, branches[0], q.st)), loop, opts,
                    late, here)
  }

  // ---------------------------------------------------------------------------------------
  // The budget

  function HttpRows(rows: seq<Row>): nat {
    if rows == [] then 0 else HttpRows(rows[..|rows| - 1]) + if rows[|rows| - 1].HttpRow? then 1 else 0
  }

  lemma HttpRowsOneMore(rows: seq<Row>, row: Row)
    ensures HttpRows(rows + [row]) == HttpRows(rows) + if row.HttpRow? then 1 else 0
  {
    assert (rows + [row])[..|rows|] == rows;
  }

  /** How a pass may go on: rows are only appended, one Http row and one sent request for each unit
      of the budget, the budget is never exceeded, and nothing happens once it is truncated. */
  ghost predicate Grows(p: Pass, q: Pass, opts: Opts) {
    && p.rows <= q.rows
    && HttpRows(q.rows) - HttpRows(p.rows) == q.requests - p.requests == |q.st.sent| - |p.st.sent|
    && p.requests <= q.requests
    && (p.requests <= opts.maxRequests ==> q.requests <= opts.maxRequests)
    && (p.truncated ==> q == p)
  }

  lemma {:induction false} StepsGrow(e: Env, steps: seq<Step>, p: Pass, loop: Option<nat>, opts: Opts, late: Clock,
                                     path: seq<nat>, think: bool)
    requires WellFormed(e, p.st.gen)
    ensures Grows(p, TraceSteps(e, steps, p, loop, opts, late, path, think), opts)
    decreases steps, 0, 0
  {
    if steps != [] && !p.truncated {
      var here := path + [|steps|];
      if p.requests < opts.maxRequests && !late(here) {
        StepGrows(e, steps[0], p, loop, opts, late, here, think);
        StepsGrow(e, steps[1..], TraceStep(e, steps[0], p, loop, opts, late, here, think), loop, opts, late, path,
                  think);
      }
    }
  }

  lemma {:induction false} StepGrows(e: Env, step: Step, p: Pass, loop: Option<nat>, opts: Opts, late: Clock,
                                     here: seq<nat>, think: bool)
    requires WellFormed(e, p.st.gen) && !p.truncated && p.requests < opts.maxRequests
    ensures Grows(p, TraceStep(e, step, p, loop, opts, late, here, think), opts)
    decreases step, 0, 0
  {
    match step
    case Http(h) =>
      var q := TraceHttp(e, h, p, loop, opts, late, here, think);
      HttpRowsOneMore(p.rows, q.rows[|p.rows|]);
    case Loop(_, repeat, body) => LoopGrows(e, body, p, 0, repeat, opts, late, here, think);
    case If(id, _, _, _, _) =>
      var ctx := TraceContext(e, p.st, loop);
      var sel := Select(step, ctx, e.oracle);
      var row := IfRow(id, loop, sel.branch, IfUnbound(step, ctx));
      HttpRowsOneMore(p.rows, row);
      StepsGrow(e, sel.steps, p.(rows := p.rows + [row]), loop, opts, late, here, think);
    case Parallel(_, branches) =>
      var (gens, g) := ForkAll(e, p.st.gen, |branches|);
      BranchesGrow(e, branches, gens, p.st, p.(st := p.st.(gen := g)), loop, opts, late, here);
  }

  lemma {:induction false} LoopGrows(e: Env, body: seq<Step>, p: Pass, i: nat, repeat: nat, opts: Opts, late: Clock,
                                     here: seq<nat>, think: bool)
    requires WellFormed(e, p.st.gen)
    ensures Grows(p, TraceLoop(e, body, p, i, repeat, opts, late, here, think), opts)
    decreases body, 1, repeat - i
  {
    if i < repeat && !(p.truncated || p.requests >= opts.maxRequests || late(here + [i])) {
      StepsGrow(e, body, p, Some(i), opts, late, here + [i], think);
      var q := TraceSteps(e, body, p, Some(i), opts, late, here + [i], think);
      if !q.truncated {
        LoopGrows(e, body, q, i + 1, repeat, opts, late, here, think);
      }
    }
  }

  lemma {:induction false} BranchesGrow(e: Env, branches: seq<Branch>, gens: seq<Option<Gen>>, entry: St, p: Pass,
                                        loop: Option<nat>, opts: Opts, late: Clock, here: seq<nat>)
    requires WellFormed(e, p.st.gen) && |gens| == |branches| && forall k :: 0 <= k < |gens| ==> WellFormed(e, gens[k])
    ensures Grows(p, TraceBranches(e, branches, gens, entry, p, loop, opts, late, here), opts)
    decreases branches, 0, 0
  {
    if branches != [] && !p.truncated {
      var p0 := p.(st := Enter(entry, gens[0]));
      StepsGrow(e, branches[0].steps, p0, loop, opts, late, here + [|branches|], false);
      var q := TraceSteps(e, branches[0].steps, p0, loop, opts, late, here + [|branches|], false);
      BranchesGrow(e, branches[1..], gens[1..], entry, q.(st := MergeBranch(e, p.st, branches[0], q.st)), loop, opts,
                   late, here);
    }
  }
}
