/** The two interpreters agree: a trace shows what a load run does. */
module Agreement {
  import opened Options
  import opened Templates
  import opened Requests
  import opened Scenarios
  import opened Conditions
  import opened ReqGens
  import opened Iterations
  import opened LoadRuns
  import opened Traces
  import opened UserIds
  import opened Budgets

  // ---------------------------------------------------------------------------------------
  // From a load run to its trace

  /** The pass `q` reached from `p` is not cut short and holds the state of the load run. */
  ghost predicate Matches(p: Pass, q: Pass, o: Outcome) {
    o.Done? && q.st == o.st && !q.truncated && q.requests == p.requests + |o.st.sent| - |p.st.sent|
  }

  ghost predicate NeverLate(late: Clock) {
    forall path :: !late(path)
  }

  /** The budget meets the need of the run. */
  predicate Enough(opts: Opts, p: Pass, need: nat) {
    need == 0 || p.requests + need <= opts.maxRequests
  }

  /** With enough budget the pass shows the run to its end; otherwise it is cut short. */
  ghost predicate Shows(p: Pass, q: Pass, o: Outcome, opts: Opts, need: nat) {
    if Enough(opts, p, need) then Matches(p, q, o) else q.truncated
  }

  lemma User0HttpAgrees(e: Env, h: HttpStep, p: Pass, loop: Option<nat>, sig: Signals, opts: Opts, late: Clock,
                        here: seq<nat>, think: bool)
    requires WellFormed(e, p.st.gen) && e.vuId == 0 && NeverLate(late) && !p.truncated
    requires GoesOn(ExecHttp(e, h, p.st, loop, sig, here, think))
    ensures Matches(p, TraceHttp(e, h, p, loop, opts, late, here, think), ExecHttp(e, h, p.st, loop, sig, here, think))
  {
    hide Build, BuildTraced, RequestTrouble;
    BuildsAgree(h.request, ContextOf(e, RefreshFor(e, p.st, h.id), loop), e.lib);
  }

  /** A load run of user 0 that goes on to its end, and its trace. */
  lemma {:induction false} User0StepsAgree(e: Env, steps: seq<Step>, p: Pass, loop: Option<nat>, sig: Signals,
                                           opts: Opts, late: Clock, path: seq<nat>, think: bool)
    requires WellFormed(e, p.st.gen) && e.vuId == 0 && NeverLate(late) && !p.truncated
    requires GoesOn(ExecSteps(e, steps, p.st, loop, sig, path, think))
    ensures Shows(p, TraceSteps(e, steps, p, loop, opts, late, path, think),
                  ExecSteps(e, steps, p.st, loop, sig, path, think), opts,
                  NeedOfSteps(e, steps, p.st, loop, sig, path, think))
    decreases steps, 0, 0
  {
    hide ExecStep, TraceStep, NeedOfStep;
    if steps != [] {
      var here := path + [|steps|];
      if p.requests < opts.maxRequests {
        User0StepAgrees(e, steps[0], p, loop, sig, opts, late, here, think);
        var q := TraceStep(e, steps[0], p, loop, opts, late, here, think);
        if !q.truncated {
          User0StepsAgree(e, steps[1..], q, loop, sig, opts, late, path, think);
        }
      }
    }
  }

  lemma {:induction false} User0StepAgrees(e: Env, step: Step, p: Pass, loop: Option<nat>, sig: Signals, opts: Opts,
                                           late: Clock, here: seq<nat>, think: bool)
    requires WellFormed(e, p.st.gen) && e.vuId == 0 && NeverLate(late) && !p.truncated
    requires GoesOn(ExecStep(e, step, p.st, loop, sig, here, think))
    ensures Shows(p, TraceStep(e, step, p, loop, opts, late, here, think),
                  ExecStep(e, step, p.st, loop, sig, here, think), opts,
                  NeedOfStep(e, step, p.st, loop, sig, here, think))
    decreases step, 0, 0
  {
    hide ExecSteps, TraceSteps, NeedOfSteps, ExecLoop, TraceLoop, NeedOfLoop, ExecHttp, TraceHttp;
    match step
    case Http(h) => User0HttpAgrees(e, h, p, loop, sig, opts, late, here, think);
    case Loop(_, repeat, body) => User0LoopAgrees(e, body, p, 0, repeat, sig, opts, late, here, think);
    case If(id, _, _, _, _) =>
      var ctx := TraceContext(e, p.st, loop);
      var sel := Select(step, ctx, e.oracle);
      var row := IfRow(id, loop, sel.branch, IfUnbound(step, ctx));
      User0StepsAgree(e, sel.steps, p.(rows := p.rows + [row]), loop, sig, opts, late, here, think);
    case Parallel(_, branches) =>
      var (gens, g) := ForkAll(e, p.st.gen, |branches|);
      User0BranchesAgree(e, branches, gens, p.st, p.(st := p.st.(gen := g)), loop, sig, opts, late, here, Continue);
  }

  lemma {:induction false} User0LoopAgrees(e: Env, body: seq<Step>, p: Pass, i: nat, repeat: nat, sig: Signals,
                                           opts: Opts, late: Clock, here: seq<nat>, think: bool)
    requires WellFormed(e, p.st.gen) && e.vuId == 0 && NeverLate(late) && !p.truncated
    requires GoesOn(ExecLoop(e, body, p.st, i, repeat, sig, here, think))
    ensures Shows(p, TraceLoop(e, body, p, i, repeat, opts, late, here, think),
                  ExecLoop(e, body, p.st, i, repeat, sig, here, think), opts,
                  NeedOfLoop(e, body, p.st, i, repeat, sig, here, think))
    decreases body, 1, repeat - i
  {
    hide ExecSteps, TraceSteps, NeedOfSteps;
    if i < repeat && p.requests < opts.maxRequests {
      User0StepsAgree(e, body, p, Some(i), sig, opts, late, here + [i], think);
      var q := TraceSteps(e, body, p, Some(i), opts, late, here + [i], think);
      if !q.truncated {
        User0LoopAgrees(e, body, q, i + 1, repeat, sig, opts, late, here, think);
      }
    }
  }

  lemma {:induction false} User0BranchesAgree(e: Env, branches: seq<Branch>, gens: seq<Option<Gen>>, entry: St,
                                              p: Pass, loop: Option<nat>, sig: Signals, opts: Opts, late: Clock,
                                              here: seq<nat>, worst: Flow)
    requires WellFormed(e, p.st.gen) && e.vuId == 0 && NeverLate(late) && !p.truncated
    requires |gens| == |branches| && forall k :: 0 <= k < |gens| ==> WellFormed(e, gens[k])
    requires GoesOn(MergeAll(e, p.st, branches, ExecBranches(e, branches, entry, gens, loop, sig, here), worst))
    ensures Shows(p, TraceBranches(e, branches, gens, entry, p, loop, opts, late, here),
                  MergeAll(e, p.st, branches, ExecBranches(e, branches, entry, gens, loop, sig, here), worst), opts,
                  NeedOfBranches(e, branches, entry, gens, loop, sig, here))
    decreases branches, 0, 0
  {
    hide ExecSteps, TraceSteps, NeedOfSteps, Expose;
    if branches != [] {
      var runs := ExecBranches(e, branches, entry, gens, loop, sig, here);
      AllGoOn(e, p.st, branches, runs, worst);
      var p0, s1 := p.(st := Enter(entry, gens[0])), MergeBranch(e, p.st, branches[0], runs[0].st);
      FirstBranch(e, branches, entry, gens, loop, sig, here);
      assert runs[1..] == ExecBranches(e, branches[1..], entry, gens[1..], loop, sig, here);
      assert MergeAll(e, p.st, branches, runs, worst)
          == MergeAll(e, s1, branches[1..], runs[1..], Worse(worst, runs[0].flow));
      User0StepsAgree(e, branches[0].steps, p0, loop, sig, opts, late, here + [|branches|], false);
      var q := TraceSteps(e, branches[0].steps, p0, loop, opts, late, here + [|branches|], false);
      if !q.truncated {
        User0BranchesAgree(e, branches[1..], gens[1..], entry, q.(st := s1), loop, sig, opts, late, here,
                           Worse(worst, runs[0].flow));
      }
    }
  }

  // ---------------------------------------------------------------------------------------
  // From a trace to the load run

  ghost predicate AlwaysGo(sig: Signals) {
    forall path :: sig(path) == Go
  }

  predicate CleanRow(row: Row) {
    row.HttpRow? ==> row.unbound == [] && !row.buildError && !row.trouble
  }

  ghost predicate Clean(rows: seq<Row>) {
    forall k :: 0 <= k < |rows| ==> CleanRow(rows[k])
  }

  /** What a complete trace tells about the load run from the same state. */
  ghost predicate Tells(q: Pass, o: Outcome) {
    !q.truncated ==> if Clean(q.rows) then o == Done(Continue, q.st) else o.Failed?
  }

  lemma HttpTellsUser0(e: Env, h: HttpStep, p: Pass, loop: Option<nat>, sig: Signals, opts: Opts, late: Clock,
                       here: seq<nat>, think: bool)
    requires WellFormed(e, p.st.gen) && e.vuId == 0 && AlwaysGo(sig) && Clean(p.rows)
    ensures Tells(TraceHttp(e, h, p, loop, opts, late, here, think), ExecHttp(e, h, p.st, loop, sig, here, think))
  {
    hide Build, BuildTraced, RequestTrouble;
    BuildsAgree(h.request, ContextOf(e, RefreshFor(e, p.st, h.id), loop), e.lib);
    var q := TraceHttp(e, h, p, loop, opts, late, here, think);
    assert Clean(q.rows) <==> CleanRow(q.rows[|p.rows|]);
  }

  /** What a complete trace tells about a load run of user 0. */
  lemma {:induction false} TraceTellsUser0(e: Env, steps: seq<Step>, p: Pass, loop: Option<nat>, sig: Signals,
                                           opts: Opts, late: Clock, path: seq<nat>, think: bool)
    requires WellFormed(e, p.st.gen) && e.vuId == 0 && AlwaysGo(sig) && Clean(p.rows)
    ensures Tells(TraceSteps(e, steps, p, loop, opts, late, path, think),
                  ExecSteps(e, steps, p.st, loop, sig, path, think))
    decreases steps, 0, 0
  {
    hide ExecStep, TraceStep;
    if steps != [] && !p.truncated {
      var here := path + [|steps|];
      if p.requests < opts.maxRequests && !late(here) {
        StepTellsUser0(e, steps[0], p, loop, sig, opts, late, here, think);
        var q := TraceStep(e, steps[0], p, loop, opts, late, here, think);
        StepsGrow(e, steps[1..], q, loop, opts, late, path, think);
        if Clean(q.rows) {
          TraceTellsUser0(e, steps[1..], q, loop, sig, opts, late, path, think);
        }
      }
    }
  }

  lemma {:induction false} StepTellsUser0(e: Env, step: Step, p: Pass, loop: Option<nat>, sig: Signals, opts: Opts,
                                          late: Clock, here: seq<nat>, think: bool)
    requires WellFormed(e, p.st.gen) && e.vuId == 0 && AlwaysGo(sig) && Clean(p.rows)
    ensures Tells(TraceStep(e, step, p, loop, opts, late, here, think), ExecStep(e, step, p.st, loop, sig, here, think))
    decreases step, 0, 0
  {
    match step
    case Http(h) => HttpTellsUser0(e, h, p, loop, sig, opts, late, here, think);
    case Loop(_, repeat, body) => LoopTellsUser0(e, body, p, 0, repeat, sig, opts, late, here, think);
    case If(id, _, _, _, _) =>
      var ctx := TraceContext(e, p.st, loop);
      var sel := Select(step, ctx, e.oracle);
      var row := IfRow(id, loop, sel.branch, IfUnbound(step, ctx));
      TraceTellsUser0(e, sel.steps, p.(rows := p.rows + [row]), loop, sig, opts, late, here, think);
    case Parallel(_, branches) =>
      var (gens, g) := ForkAll(e, p.st.gen, |branches|);
      BranchesTellUser0(e, branches, gens, p.st, p.(st := p.st.(gen := g)), loop, sig, opts, late, here);
  }

  lemma {:induction false} LoopTellsUser0(e: Env, body: seq<Step>, p: Pass, i: nat, repeat: nat, sig: Signals,
                                          opts: Opts, late: Clock, here: seq<nat>, think: bool)
    requires WellFormed(e, p.st.gen) && e.vuId == 0 && AlwaysGo(sig) && Clean(p.rows)
    ensures Tells(TraceLoop(e, body, p, i, repeat, opts, late, here, think),
                  ExecLoop(e, body, p.st, i, repeat, sig, here, think))
    decreases body, 1, repeat - i
  {
    hide ExecSteps, TraceSteps;
    if i < repeat && !(p.truncated || p.requests >= opts.maxRequests || late(here + [i])) {
      TraceTellsUser0(e, body, p, Some(i), sig, opts, late, here + [i], think);
      var q := TraceSteps(e, body, p, Some(i), opts, late, here + [i], think);
      LoopGrows(e, body, q, i + 1, repeat, opts, late, here, think);
      if !q.truncated && Clean(q.rows) {
        LoopTellsUser0(e, body, q, i + 1, repeat, sig, opts, late, here, think);
      }
    }
  }

  lemma {:induction false} BranchesTellUser0(e: Env, branches: seq<Branch>, gens: seq<Option<Gen>>, entry: St,
                                             p: Pass, loop: Option<nat>, sig: Signals, opts: Opts, late: Clock,
                                             here: seq<nat>)
    requires WellFormed(e, p.st.gen) && e.vuId == 0 && AlwaysGo(sig) && Clean(p.rows)
    requires |gens| == |branches| && forall k :: 0 <= k < |gens| ==> WellFormed(e, gens[k])
    ensures Tells(TraceBranches(e, branches, gens, entry, p, loop, opts, late, here),
                  MergeAll(e, p.st, branches, ExecBranches(e, branches, entry, gens, loop, sig, here), Continue))
    decreases branches, 0, 0
  {
    hide ExecSteps, TraceSteps, Expose;
    if branches != [] && !p.truncated {
      var runs := ExecBranches(e, branches, entry, gens, loop, sig, here);
      var p0 := p.(st := Enter(entry, gens[0]));
      assert runs[1..] == ExecBranches(e, branches[1..], entry, gens[1..], loop, sig, here);
      TraceTellsUser0(e, branches[0].steps, p0, loop, sig, opts, late, here + [|branches|], false);
      var q := TraceSteps(e, branches[0].steps, p0, loop, opts, late, here + [|branches|], false);
      var q' := q.(st := MergeBranch(e, p.st, branches[0], q.st));
      BranchesGrow(e, branches[1..], gens[1..], entry, q', loop, opts, late, here);
      if Clean(q.rows) {
        BranchesTellUser0(e, branches[1..], gens[1..], entry, q', loop, sig, opts, late, here);
      }
    }
  }

  // ---------------------------------------------------------------------------------------
  // Any user, any iteration

  /** Load and trace agree: if a run of the load interpreter, by any user in any iteration, goes on
      to its end, then a trace from the same state is cut short exactly when its budget does not meet
      the run's need; and otherwise it ends in the same state — the same variables, the same dead set
      and generator state, the same requests sent — although the one merges parallel branches after
      all have run and the other after each.  The trace runs as user 0 in iteration `row`; that does
      not show unless the tree spells `${vu_id}` or `${iter_id}` and the numbers differ. */
  lemma StepsAgree(e: Env, row: nat, steps: seq<Step>, p: Pass, loop: Option<nat>, sig: Signals, opts: Opts,
                   late: Clock, path: seq<nat>, think: bool)
    requires WellFormed(e, p.st.gen) && NeverLate(late) && StepsIndifferent(e, 0, row, steps) && !p.truncated
    requires GoesOn(ExecSteps(e, steps, p.st, loop, sig, path, think))
    ensures Shows(p, TraceSteps(As(e, 0, row), steps, p, loop, opts, late, path, think),
                  ExecSteps(e, steps, p.st, loop, sig, path, think), opts,
                  NeedOfSteps(As(e, 0, row), steps, p.st, loop, sig, path, think))
  {
    hide ExecSteps, TraceSteps, NeedOfSteps, TreeSpells;
    StepsIgnoreIds(e, 0, row, steps, p.st, loop, sig, path, think);
    User0StepsAgree(As(e, 0, row), steps, p, loop, sig, opts, late, path, think);
  }

  /** A budget of one request more than the run sends is always enough; a budget of just the requests
      it sends is enough if the last step is a request. */
  lemma EnoughBudget(e: Env, row: nat, steps: seq<Step>, p: Pass, loop: Option<nat>, sig: Signals, opts: Opts,
                     path: seq<nat>, think: bool)
    requires WellFormed(e, p.st.gen) && StepsIndifferent(e, 0, row, steps)
    requires GoesOn(ExecSteps(e, steps, p.st, loop, sig, path, think))
    ensures var all := p.requests + Grown(ExecSteps(e, steps, p.st, loop, sig, path, think), p.st);
            var endsInRequest := steps != [] && steps[|steps| - 1].Http?;
            all < opts.maxRequests || (endsInRequest && all <= opts.maxRequests)
            ==> Enough(opts, p, NeedOfSteps(As(e, 0, row), steps, p.st, loop, sig, path, think))
  {
    hide ExecSteps, NeedOfSteps, TreeSpells;
    StepsIgnoreIds(e, 0, row, steps, p.st, loop, sig, path, think);
    StepsNeedLittle(As(e, 0, row), steps, p.st, loop, sig, path, think);
    if steps != [] && steps[|steps| - 1].Http? {
      EndingInRequest(As(e, 0, row), steps, p.st, loop, sig, path, think);
    }
  }

  /** A trace tells what the load does: if it is not cut short, then a load run, by any user in any
      iteration, that meets neither the deadline nor a cancellation goes on to its end in the very
      same state exactly when every request of the trace found all its variables, had sendable
      headers and no trouble; otherwise it fails to build a request. */
  lemma TraceTellsLoad(e: Env, row: nat, steps: seq<Step>, p: Pass, loop: Option<nat>, sig: Signals, opts: Opts,
                       late: Clock, path: seq<nat>, think: bool)
    requires WellFormed(e, p.st.gen) && AlwaysGo(sig) && Clean(p.rows) && StepsIndifferent(e, 0, row, steps)
    ensures Tells(TraceSteps(As(e, 0, row), steps, p, loop, opts, late, path, think),
                  ExecSteps(e, steps, p.st, loop, sig, path, think))
  {
    hide ExecSteps, TraceSteps, TreeSpells;
    StepsIgnoreIds(e, 0, row, steps, p.st, loop, sig, path, think);
    TraceTellsUser0(As(e, 0, row), steps, p, loop, sig, opts, late, path, think);
  }

  /** A tree with one request whose address is `${vu_id}`. */
  function NamesItsUser(): seq<Step> {
    [Http(HttpStep("h", Request(Get, "${vu_id}", [], NoBody), [], [], false))]
  }

  lemma VuIdText(ctx: Context)
    ensures RenderText("${vu_id}", ctx) == Ok(Text.Decimal(ctx.vuId))
            && CollectText("${vu_id}", ctx) == Text.Decimal(ctx.vuId)
  {
    hide Tokens, SystemName;
    VuIdToken();
    var ts := [System("vu_id")];
    assert ts[1..] == [];
    assert Strict([], ctx) == Ok("") && Lenient([], ctx) == "";
    var v := Text.Decimal(ctx.vuId);
    assert v + "" == v;
  }

  lemma VuIdRequest(ctx: Context, lib: Library)
    ensures var req, vu := NamesItsUser()[0].http.request, Text.Decimal(ctx.vuId);
            && Build(req, ctx, lib) == Ok(Request(Get, vu, [], NoBody))
            && BuildTraced(req, ctx, lib) == Traced(Request(Get, vu, [], NoBody), [], None)
            && !RequestTrouble(req, ctx, lib)
  {
    hide Tokens;
    VuIdText(ctx);
    BuildsAgree(NamesItsUser()[0].http.request, ctx, lib);
  }

  lemma OneHttpStep(e: Env, h: HttpStep, p: Pass, sig: Signals, opts: Opts, late: Clock)
    requires WellFormed(e, p.st.gen) && AlwaysGo(sig) && NeverLate(late) && !h.think
    requires !p.truncated && p.requests < opts.maxRequests
    ensures ExecSteps(e, [Http(h)], p.st, None, sig, [], false) == ExecHttp(e, h, p.st, None, sig, [1], false)
    ensures TraceSteps(e, [Http(h)], p, None, opts, late, [], false) == TraceHttp(e, h, p, None, opts, late, [1], false)
  {
    hide ExecHttp, TraceHttp;
    var steps := [Http(h)];
    assert steps[1..] == [] && [] + [1] == [1];
    var o, q := ExecHttp(e, h, p.st, None, sig, [1], false), TraceHttp(e, h, p, None, opts, late, [1], false);
    assert ExecStep(e, steps[0], p.st, None, sig, [1], false) == o;
    assert TraceStep(e, steps[0], p, None, opts, late, [1], false) == q;
    HttpContinues(e, h, p, sig, [1]);
    assert GoesOn(o) ==> ExecSteps(e, [], o.st, None, sig, [], false) == o;
    assert TraceSteps(e, [], q, None, opts, late, [], false) == q;
  }

  lemma HttpContinues(e: Env, h: HttpStep, p: Pass, sig: Signals, here: seq<nat>)
    requires WellFormed(e, p.st.gen) && !h.think
    ensures var o := ExecHttp(e, h, p.st, None, sig, here, false); o.Done? ==> o.flow == Continue
  {
    hide Build;
  }

  /** Where the tree spells `${vu_id}`, user 1 sends another request than the trace shows, though
      the trace is clean. */
  lemma AnotherUserMayDiffer(e: Env, p: Pass, sig: Signals, opts: Opts, late: Clock)
    requires WellFormed(e, p.st.gen) && AlwaysGo(sig) && NeverLate(late)
    requires e.vuId == 1 && p.st.sent == [] && !p.truncated && p.requests < opts.maxRequests
    ensures var o := ExecSteps(e, NamesItsUser(), p.st, None, sig, [], false);
            var q := TraceSteps(As(e, 0, e.iterId), NamesItsUser(), p, None, opts, late, [], false);
            && GoesOn(o) && !q.truncated && |q.rows| == |p.rows| + 1 && CleanRow(q.rows[|p.rows|])
            && o.st.sent == [Request(Get, "1", [], NoBody)] && q.st.sent == [Request(Get, "0", [], NoBody)]
  {
    hide ExecSteps, TraceSteps, Build, BuildTraced, RequestTrouble, Extracted;
    var h, f := NamesItsUser()[0].http, As(e, 0, e.iterId);
    OneHttpStep(e, h, p, sig, opts, late);
    OneHttpStep(f, h, p, sig, opts, late);
    VuIdRequest(ContextOf(e, RefreshFor(e, p.st, h.id), None), e.lib);
    VuIdRequest(TraceContext(f, RefreshFor(f, p.st, h.id), None), e.lib);
  }
}
