/** The trace interpreter in the form it has, and the pass over several seeded rows. */
module Tracers {
  import opened Options
  import opened Templates
  import opened Requests
  import opened Scenarios
  import opened Conditions
  import opened ReqGens
  import opened Iterations
  import opened Traces
  import opened VirtualUsers

  /** What the passes of a trace share: the rows of the current pass and the budget used so far. */
  class TraceState {
    var rows: seq<Row>
    var requests: nat
    var truncated: bool

    constructor ()
      ensures rows == [] && requests == 0 && !truncated
    {
      rows, requests, truncated := [], 0, false;
    }
  }

  ghost function PassOf(e: Env, v: Vars, t: TraceState): (p: Pass)
    requires v.Valid(e)
    reads v, v.Repr, t
    ensures WellFormed(e, p.st.gen)
  {
    Pass(v.Abs(e), t.rows, t.requests, t.truncated)
  }

  method RunHttp(e: Env, h: HttpStep, v: Vars, loop: Option<nat>, opts: Opts, late: Clock, t: TraceState,
                 here: seq<nat>, think: bool)
    requires v.Valid(e) && t !in v.Repr
    modifies v.Repr, t
    ensures v.Valid(e) && PassOf(e, v, t) == TraceHttp(e, h, old(PassOf(e, v, t)), loop, opts, late, here, think)
  {
    hide BuildTraced, RequestTrouble, Extracted, Iterations.Commit, RefreshFor;
    v.Refresh(e, h.id);
    var ctx := Context(v.vars, e.env, 0, e.iterId, loop);
    var b := BuildTraced(h.request, ctx, e.lib);
    var bad := b.badHeader.Some?;
    ghost var s1 := v.Abs(e);
    v.sent := v.sent + [b.sent];
    assert v.Valid(e) && v.Abs(e) == s1.(sent := s1.sent + [b.sent]);
    var (values, error) := if bad then (map[], true) else Extracted(e, h, e.respond(h, b.sent));
    v.Commit(e, values, Extraction);
    t.requests := t.requests + 1;
    t.rows := t.rows + [HttpRow(h.id, loop, b.sent, b.unbound, values, bad, error,
                                RequestTrouble(h.request, ctx, e.lib))];
    if opts.applyThink && (h.think || think) {
      if late(here + [0]) {
        t.truncated := true;
      }
    }
  }

  method RunSteps(e: Env, steps: seq<Step>, v: Vars, loop: Option<nat>, opts: Opts, late: Clock, t: TraceState,
                  path: seq<nat>, think: bool)
    requires v.Valid(e) && t !in v.Repr
    modifies v.Repr, t
    ensures v.Valid(e) && PassOf(e, v, t) == TraceSteps(e, steps, old(PassOf(e, v, t)), loop, opts, late, path, think)
    decreases steps, 0, 0
  {
    hide TraceStep;
    ghost var whole := TraceSteps(e, steps, PassOf(e, v, t), loop, opts, late, path, think);
    var i := 0;
    while i < |steps|
      invariant 0 <= i <= |steps|
      invariant v.Valid(e)
      invariant whole == TraceSteps(e, steps[i..], PassOf(e, v, t), loop, opts, late, path, think)
    {
      assert steps[i..][0] == steps[i] && steps[i..][1..] == steps[i + 1..];
      var here := path + [|steps| - i];
      if t.truncated {
        return;
      }
      if t.requests >= opts.maxRequests || late(here) {
        t.truncated := true;
        return;
      }
      RunStep(e, steps[i], v, loop, opts, late, t, here, think);
      i := i + 1;
    }
  }

  method RunStep(e: Env, step: Step, v: Vars, loop: Option<nat>, opts: Opts, late: Clock, t: TraceState,
                 here: seq<nat>, think: bool)
    requires v.Valid(e) && t !in v.Repr
    modifies v.Repr, t
    ensures v.Valid(e) && PassOf(e, v, t) == TraceStep(e, step, old(PassOf(e, v, t)), loop, opts, late, here, think)
    decreases step, 0, 0
  {
    match step
    case Http(h) => RunHttp(e, h, v, loop, opts, late, t, here, think);
    case Loop(_, repeat, body) => RunLoop(e, body, v, repeat, opts, late, t, here, think);
    case If(id, _, _, _, _) =>
      var ctx := Context(v.vars, e.env, 0, e.iterId, loop);
      var sel := SelectBranch(step, ctx, e.oracle);
      t.rows := t.rows + [IfRow(id, loop, sel.branch, IfUnbound(step, ctx))];
      RunSteps(e, sel.steps, v, loop, opts, late, t, here, think);
    case Parallel(_, branches) => RunBranches(e, branches, v, loop, opts, late, t, here);
  }

  method RunLoop(e: Env, body: seq<Step>, v: Vars, repeat: nat, opts: Opts, late: Clock, t: TraceState,
                 here: seq<nat>, think: bool)
    requires v.Valid(e) && t !in v.Repr
    modifies v.Repr, t
    ensures v.Valid(e) && PassOf(e, v, t) == TraceLoop(e, body, old(PassOf(e, v, t)), 0, repeat, opts, late, here,
                                                       think)
    decreases body, 1, 0
  {
    ghost var whole := TraceLoop(e, body, PassOf(e, v, t), 0, repeat, opts, late, here, think);
    for i := 0 to repeat
      invariant v.Valid(e)
      invariant whole == TraceLoop(e, body, PassOf(e, v, t), i, repeat, opts, late, here, think)
    {
      if t.truncated || t.requests >= opts.maxRequests || late(here + [i]) {
        t.truncated := true;
        return;
      }
      RunSteps(e, body, v, Some(i), opts, late, t, here + [i], think);
      if t.truncated {
        return;
      }
    }
  }

  method RunBranches(e: Env, branches: seq<Branch>, v: Vars, loop: Option<nat>, opts: Opts, late: Clock,
                     t: TraceState, here: seq<nat>)
    requires v.Valid(e) && t !in v.Repr
    modifies v.Repr, t
    ensures v.Valid(e)
    ensures var p := old(PassOf(e, v, t));
            var (forks, g) := ForkAll(e, p.st.gen, |branches|);
            PassOf(e, v, t) == TraceBranches(e, branches, forks, p.st, p.(st := p.st.(gen := g)), loop, opts, late,
                                             here)
    decreases branches, 1, 0
  {
    hide TraceSteps, ForkAll, MergeBranch, TraceBranches;
    ghost var was := v.Abs(e);
    ghost var (forks, g) := ForkAll(e, was.gen, |branches|);
    var entry := v.vars;
    var gens := ForkGens(e, v, |branches|);
    ghost var whole := TraceBranches(e, branches, forks, was, PassOf(e, v, t), loop, opts, late, here);
    for k := 0 to |branches|
      invariant v.Valid(e)
      invariant whole == TraceBranches(e, branches[k..], forks[k..], was, PassOf(e, v, t), loop, opts, late, here)
      invariant forall j :: k <= j < |branches| ==> Forked(e, v.gen, gens[j]) && AbsOf(gens[j]) == forks[j]
    {
      assert branches[k..][0] == branches[k] && branches[k..][1..] == branches[k + 1..];
      assert forks[k..][0] == forks[k] && forks[k..][1..] == forks[k + 1..];
      BranchesStep(e, branches[k..], forks[k..], was, PassOf(e, v, t), loop, opts, late, here);
      if t.truncated {
        return;
      }
      RunBranch(e, branches[k], gens[k], v, entry, was, loop, opts, late, t, here + [|branches| - k]);
    }
    BranchesNone(e, was, PassOf(e, v, t), loop, opts, late, here);
  }

  lemma BranchesNone(e: Env, entry: St, p: Pass, loop: Option<nat>, opts: Opts, late: Clock, here: seq<nat>)
    requires WellFormed(e, p.st.gen)
    ensures TraceBranches(e, [], [], entry, p, loop, opts, late, here) == p
  {
  }

  lemma BranchesStep(e: Env, branches: seq<Branch>, gens: seq<Option<Gen>>, entry: St, p: Pass, loop: Option<nat>,
                     opts: Opts, late: Clock, here: seq<nat>)
    requires WellFormed(e, p.st.gen) && branches != [] && |gens| == |branches| && forall k :: 0 <= k < |gens| ==>
             WellFormed(e, gens[k])
    ensures var q := TraceSteps(e, branches[0].steps, p.(st := Enter(entry, gens[0])), loop, opts, late,
                                here + [|branches|], false);
            TraceBranches(e, branches, gens, entry, p, loop, opts, late, here)
            == if p.truncated then p
               else TraceBranches(e, branches[1..], gens[1..], entry,
                                  q.(st := MergeBranch(e, p.st, branches[0], q.st)), loop, opts, late, here)
  {
    hide TraceSteps;
  }

  /** Runs one branch and merges it, whether or not the budget cut it short. */
  method RunBranch(e: Env, b: Branch, gen: ReqGen?, v: Vars, entry: map<string, string>, ghost was: St,
                   loop: Option<nat>, opts: Opts, late: Clock, t: TraceState, path: seq<nat>)
    requires v.Valid(e) && t !in v.Repr && was.vars == entry
    requires gen != null ==> gen.Valid() && gen.plan == e.plan && gen !in v.Repr && gen.dead !in v.Repr
    modifies v.Repr, t, if gen != null then {gen, gen.dead} else {}
    ensures v.Valid(e)
    ensures var p := old(PassOf(e, v, t));
            var q := TraceSteps(e, b.steps, p.(st := Enter(was, old(AbsOf(gen)))), loop, opts, late, path, false);
            PassOf(e, v, t) == q.(st := MergeBranch(e, p.st, b, q.st))
    decreases b, 1, 0
  {
    hide TraceSteps, MergeBranch;
    var child := new Vars(entry, gen, was.log, []);
    RunSteps(e, b.steps, child, loop, opts, late, t, path, false);
    v.Merge(e, b, child.vars, child.Abs(e));
  }

  // ---------------------------------------------------------------------------------------
  // Several rows

  /** What stays the same over the rows: the scenario, and what the generators and the clock give
      for each row. */
  datatype Job = Job(e: Env, steps: seq<Step>, think: bool, opts: Opts,
                     declared: nat -> map<string, string>, seed: nat -> Option<Rng>, late: nat -> Clock)

  datatype RowTrace = RowTrace(index: nat, rows: seq<Row>, finalVars: map<string, string>, truncated: bool)

  /** The pass over row `k` when `used` requests of the budget are gone. */
  function RowPass(j: Job, k: nat, row: map<string, string>, used: nat): Pass
    requires j.e.plan.Valid()
  {
    var e := j.e.(iterId := k);
    TraceSteps(e, j.steps, Pass(Start(e, j.declared(k), j.seed(k), [row]), [], used, false), None, j.opts, j.late(k),
               [], j.think)
  }

  method TraceOnce(j: Job, k: nat, index: nat, row: map<string, string>, t: TraceState) returns (r: RowTrace)
    requires j.e.plan.Valid()
    modifies t
    ensures var p := RowPass(j, k, row, old(t.requests));
            r == RowTrace(index, p.rows, p.st.vars, p.truncated) && t.requests == p.requests
  {
    hide TraceSteps, Start;
    var e := j.e.(iterId := k);
    t.rows, t.truncated := [], false;
    var v := StartRow(e, j.declared(k), j.seed(k), row);
    RunSteps(e, j.steps, v, None, j.opts, j.late(k), t, [], j.think);
    r := RowTrace(index, t.rows, v.vars, t.truncated);
  }

  method StartRow(e: Env, declared: map<string, string>, seed: Option<Rng>, row: map<string, string>) returns (v: Vars)
    requires e.plan.Valid()
    ensures v.Valid(e) && fresh(v.Repr) && v.Abs(e) == Start(e, declared, seed, [row])
  {
    hide Start, WellFormed;
    var gen: ReqGen? := null;
    if seed.Some? {
      gen := new ReqGen.New(e.plan, seed.value);
    }
    OneRow(row);
    var stop;
    v, stop := StartIteration(e, declared, gen, [Some(row)]);
  }

  lemma OneRow(row: map<string, string>)
    ensures None !in [Some(row)] && Picked([Some(row)]) == [row]
  {
    PickedOneMore([], row);
    assert [] + [Some(row)] == [Some(row)] && [] + [row] == [row] && Picked([]) == [];
  }

  function Sent(out: seq<RowTrace>): nat {
    if out == [] then 0 else Sent(out[..|out| - 1]) + HttpRows(out[|out| - 1].rows)
  }

  /** The traces are those of the first rows in their order, each run with what the earlier ones
      left of the budget. */
  ghost predicate InOrder(j: Job, rows: seq<(nat, map<string, string>)>, out: seq<RowTrace>)
    requires j.e.plan.Valid()
  {
    |out| <= |rows| && forall k :: 0 <= k < |out| ==> TraceAt(j, rows, out, k)
  }

  ghost predicate TraceAt(j: Job, rows: seq<(nat, map<string, string>)>, out: seq<RowTrace>, k: nat)
    requires j.e.plan.Valid() && k < |out| <= |rows|
  {
    var p := RowPass(j, k, rows[k].1, Sent(out[..k]));
    out[k] == RowTrace(rows[k].0, p.rows, p.st.vars, p.truncated)
  }

  /** Traces the rows one by one within one budget.  The traces returned are an in-order prefix of
      the rows; the requests sent are the Http rows returned and never exceed the budget; only the
      last trace can be cut short; and `truncated` is false exactly when every row has been traced
      to its end. */
  method TraceRows(j: Job, rows: seq<(nat, map<string, string>)>, lateBefore: nat -> bool)
    returns (out: seq<RowTrace>, truncated: bool)
    requires j.e.plan.Valid()
    ensures InOrder(j, rows, out) && Sent(out) <= j.opts.maxRequests
    ensures forall k :: 0 <= k < |out| - 1 ==> !out[k].truncated
    ensures !truncated <==> |out| == |rows| && forall k :: 0 <= k < |out| ==> !out[k].truncated
    ensures truncated && |out| < |rows| && (out == [] || !out[|out| - 1].truncated) ==>
              Sent(out) == j.opts.maxRequests || lateBefore(|out|)
  {
    out := [];
    var t := new TraceState();
    for k := 0 to |rows|
      invariant fresh(t) && |out| == k && InOrder(j, rows, out)
      invariant Sent(out) == t.requests <= j.opts.maxRequests
      invariant forall i :: 0 <= i < k ==> !out[i].truncated
    {
      if t.requests >= j.opts.maxRequests || lateBefore(k) {
        return out, true;
      }
      var r := TraceOnce(j, k, rows[k].0, rows[k].1, t);
      OneMoreRow(j, rows, out, r);
      out := out + [r];
      if r.truncated {
        return out, true;
      }
    }
    truncated := false;
  }

  lemma OneMoreRow(j: Job, rows: seq<(nat, map<string, string>)>, out: seq<RowTrace>, r: RowTrace)
    requires j.e.plan.Valid() && InOrder(j, rows, out) && |out| < |rows| && Sent(out) <= j.opts.maxRequests
    requires var p := RowPass(j, |out|, rows[|out|].1, Sent(out));
             r == RowTrace(rows[|out|].0, p.rows, p.st.vars, p.truncated)
    ensures InOrder(j, rows, out + [r])
    ensures Sent(out + [r]) == RowPass(j, |out|, rows[|out|].1, Sent(out)).requests <= j.opts.maxRequests
  {
    hide RowPass;
    var out' := out + [r];
    assert out'[..|out|] == out;
    forall k | 0 <= k < |out'|
      ensures TraceAt(j, rows, out', k)
    {
      if k < |out| {
        assert out'[..k] == out[..k] && TraceAt(j, rows, out, k);
      }
    }
    RowGrows(j, |out|, rows[|out|].1, Sent(out));
  }

  lemma RowGrows(j: Job, k: nat, row: map<string, string>, used: nat)
    requires j.e.plan.Valid() && used <= j.opts.maxRequests
    ensures var p := RowPass(j, k, row, used); p.requests <= j.opts.maxRequests && HttpRows(p.rows) == p.requests - used
  {
    var e := j.e.(iterId := k);
    StepsGrow(e, j.steps, Pass(Start(e, j.declared(k), j.seed(k), [row]), [], used, false), None, j.opts, j.late(k),
              [], j.think);
  }
}
