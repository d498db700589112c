/** What of the user and the iteration shows in a run: nothing, unless a text spells `${vu_id}` or
    `${iter_id}`. */
module UserIds {
  import opened Options
  import opened Templates
  import opened Requests
  import opened Scenarios
  import opened Conditions
  import opened ReqGens
  import opened Iterations
  import opened LoadRuns

  /** Some rendered field of a request, or some condition, anywhere in the tree spells `${name}`. */
  predicate TreeSpells(steps: seq<Step>, name: string)
    decreases steps, 0
  {
    exists k :: 0 <= k < |steps| && StepSpells(steps[k], name)
  }

  predicate StepSpells(step: Step, name: string)
    decreases step, 0
  {
    match step
    case Http(h) => SpelledIn(RequestTexts(h.request), name)
    case Loop(_, _, body) => TreeSpells(body, name)
    case If(_, _, thn, elifs, els) =>
      || SpelledIn(IfTexts(step), name)
      || TreeSpells(thn, name)
      || (exists k :: 0 <= k < |elifs| && TreeSpells(elifs[k].thn, name))
      || TreeSpells(els, name)
    case Parallel(_, branches) => exists k :: 0 <= k < |branches| && TreeSpells(branches[k].steps, name)
  }

  /** The same run by user `vu` in iteration `iter`. */
  function As(e: Env, vu: nat, iter: nat): Env {
    e.(vuId := vu, iterId := iter)
  }

  /** The user is `vu` already, or its number is not spelled; and the same for the iteration. */
  predicate Indifferent(e: Env, vu: nat, iter: nat, spellsVu: bool, spellsIter: bool) {
    (e.vuId == vu || !spellsVu) && (e.iterId == iter || !spellsIter)
  }

  predicate StepsIndifferent(e: Env, vu: nat, iter: nat, steps: seq<Step>) {
    Indifferent(e, vu, iter, TreeSpells(steps, "vu_id"), TreeSpells(steps, "iter_id"))
  }

  predicate StepIndifferent(e: Env, vu: nat, iter: nat, step: Step) {
    Indifferent(e, vu, iter, StepSpells(step, "vu_id"), StepSpells(step, "iter_id"))
  }

  lemma HeadAndTail(steps: seq<Step>, name: string)
    requires steps != []
    ensures TreeSpells(steps, name) <==> StepSpells(steps[0], name) || TreeSpells(steps[1..], name)
  {
    assert forall k :: 0 <= k < |steps[1..]| ==> steps[1..][k] == steps[k + 1];
    if k :| 0 <= k < |steps| && StepSpells(steps[k], name) {
      assert k > 0 ==> steps[1..][k - 1] == steps[k];
    }
    if k :| 0 <= k < |steps[1..]| && StepSpells(steps[1..][k], name) {
      assert steps[k + 1] == steps[1..][k];
    }
  }

  // ---------------------------------------------------------------------------------------
  // What does not look at the ids at all

  lemma {:induction false} ExtractsIgnoreIds(e: Env, vu: nat, iter: nat, extract: seq<Extract>, facts: string,
                                             done: map<string, string>)
    ensures ExtractsOnto(As(e, vu, iter), extract, facts, done) == ExtractsOnto(e, extract, facts, done)
    decreases |extract|
  {
    if extract != [] {
      match e.extract(extract[0].rule, facts)
      case None =>
      case Some(v) => ExtractsIgnoreIds(e, vu, iter, extract[1..], facts, done[extract[0].name := v]);
    }
  }

  lemma ExtractedIgnoresIds(e: Env, vu: nat, iter: nat, h: HttpStep, r: Response)
    ensures Extracted(As(e, vu, iter), h, r) == Extracted(e, h, r)
  {
    if r.Answer? {
      ExtractsIgnoreIds(e, vu, iter, h.extract, r.facts, map[]);
    }
  }

  lemma {:induction false} ForkIgnoresIds(e: Env, vu: nat, iter: nat, g: Option<Gen>, n: nat)
    requires WellFormed(e, g)
    ensures ForkAll(As(e, vu, iter), g, n) == ForkAll(e, g, n)
    decreases n
  {
    if n > 0 {
      ForkIgnoresIds(e, vu, iter, if g.None? then g else Some(g.value.(rng := e.src.fork(g.value.rng).1)), n - 1);
    }
  }

  lemma {:induction false} ExposeIgnoresIds(e: Env, vu: nat, iter: nat, s: St, branch: string, names: seq<string>,
                                            vars: map<string, string>)
    requires WellFormed(e, s.gen)
    ensures Expose(As(e, vu, iter), s, branch, names, vars) == Expose(e, s, branch, names, vars)
    decreases |names|
  {
    if names != [] {
      var s' := if names[0] in vars then Commit(e, s, map[Exposed(branch, names[0]) := vars[names[0]]], Merge) else s;
      ExposeIgnoresIds(e, vu, iter, s', branch, names[1..], vars);
    }
  }

  lemma {:induction false} MergeIgnoresIds(e: Env, vu: nat, iter: nat, s: St, branches: seq<Branch>,
                                           runs: seq<Outcome>, worst: Flow)
    requires WellFormed(e, s.gen) && |runs| == |branches|
    ensures MergeAll(As(e, vu, iter), s, branches, runs, worst) == MergeAll(e, s, branches, runs, worst)
    decreases |runs|
  {
    if runs != [] && runs[0].Done? {
      var b, st := branches[0], runs[0].st;
      ExposeIgnoresIds(e, vu, iter, s.(sent := s.sent + st.sent), b.name, OutputNames(b.steps), st.vars);
      MergeIgnoresIds(e, vu, iter, MergeBranch(e, s, b, st), branches[1..], runs[1..], Worse(worst, runs[0].flow));
    }
  }

  // ---------------------------------------------------------------------------------------
  // The run

  lemma HttpIgnoresIds(e: Env, vu: nat, iter: nat, h: HttpStep, s: St, loop: Option<nat>, sig: Signals,
                       here: seq<nat>, think: bool)
    requires WellFormed(e, s.gen) && StepIndifferent(e, vu, iter, Http(h))
    ensures ExecHttp(As(e, vu, iter), h, s, loop, sig, here, think) == ExecHttp(e, h, s, loop, sig, here, think)
  {
    hide Build, BuildTraced, SpelledIn, RequestTexts, Extracted;
    var s1 := RefreshFor(e, s, h.id);
    RequestSeesSpelledIds(h.request, ContextOf(e, s1, loop), vu, iter, e.lib);
    match Build(h.request, ContextOf(e, s1, loop), e.lib)
    case Err(_) =>
    case Ok(request) => ExtractedIgnoresIds(e, vu, iter, h, e.respond(h, request));
  }

  /** A run of a tree is the same for every user if the tree does not spell `${vu_id}`, and the same
      in every iteration if it does not spell `${iter_id}`. */
  lemma {:induction false} StepsIgnoreIds(e: Env, vu: nat, iter: nat, steps: seq<Step>, s: St, loop: Option<nat>,
                                          sig: Signals, path: seq<nat>, think: bool)
    requires WellFormed(e, s.gen) && StepsIndifferent(e, vu, iter, steps)
    ensures ExecSteps(As(e, vu, iter), steps, s, loop, sig, path, think)
            == ExecSteps(e, steps, s, loop, sig, path, think)
    decreases steps, 0, 0
  {
    hide StepSpells;
    if steps != [] {
      var here := path + [|steps|];
      HeadAndTail(steps, "vu_id");
      HeadAndTail(steps, "iter_id");
      if sig(here) == Go {
        StepIgnoresIds(e, vu, iter, steps[0], s, loop, sig, here, think);
        var o := ExecStep(e, steps[0], s, loop, sig, here, think);
        if GoesOn(o) {
          StepsIgnoreIds(e, vu, iter, steps[1..], o.st, loop, sig, path, think);
        }
      }
    }
  }

  lemma {:induction false} StepIgnoresIds(e: Env, vu: nat, iter: nat, step: Step, s: St, loop: Option<nat>,
                                          sig: Signals, here: seq<nat>, think: bool)
    requires WellFormed(e, s.gen) && StepIndifferent(e, vu, iter, step)
    ensures ExecStep(As(e, vu, iter), step, s, loop, sig, here, think) == ExecStep(e, step, s, loop, sig, here, think)
    decreases step, 0, 0
  {
    match step
    case Http(h) => HttpIgnoresIds(e, vu, iter, h, s, loop, sig, here, think);
    case Loop(_, repeat, body) => LoopIgnoresIds(e, vu, iter, body, s, 0, repeat, sig, here, think);
    case If(_, _, _, _, _) =>
      var ctx := ContextOf(e, s, loop);
      UnspelledIdsAreSame(IfTexts(step), ctx, vu, iter);
      SelectSeesValues(step, ctx, ctx.(vuId := vu, iterId := iter), e.oracle);
      StepsIgnoreIds(e, vu, iter, Select(step, ctx, e.oracle).steps, s, loop, sig, here, think);
    case Parallel(_, branches) =>
      ForkIgnoresIds(e, vu, iter, s.gen, |branches|);
      var (gens, g) := ForkAll(e, s.gen, |branches|);
      BranchesIgnoreIds(e, vu, iter, branches, s, gens, loop, sig, here);
      MergeIgnoresIds(e, vu, iter, s.(gen := g), branches, ExecBranches(e, branches, s, gens, loop, sig, here),
                      Continue);
  }

  lemma {:induction false} LoopIgnoresIds(e: Env, vu: nat, iter: nat, body: seq<Step>, s: St, i: nat, repeat: nat,
                                          sig: Signals, here: seq<nat>, think: bool)
    requires WellFormed(e, s.gen) && StepsIndifferent(e, vu, iter, body)
    ensures ExecLoop(As(e, vu, iter), body, s, i, repeat, sig, here, think)
            == ExecLoop(e, body, s, i, repeat, sig, here, think)
    decreases body, 1, repeat - i
  {
    hide TreeSpells;
    if i < repeat && sig(here + [i]) == Go {
      StepsIgnoreIds(e, vu, iter, body, s, Some(i), sig, here + [i], think);
      var o := ExecSteps(e, body, s, Some(i), sig, here + [i], think);
      if GoesOn(o) {
        LoopIgnoresIds(e, vu, iter, body, o.st, i + 1, repeat, sig, here, think);
      }
    }
  }

  lemma {:induction false} BranchesIgnoreIds(e: Env, vu: nat, iter: nat, branches: seq<Branch>, entry: St,
                                             gens: seq<Option<Gen>>, loop: Option<nat>, sig: Signals, here: seq<nat>)
    requires |gens| == |branches| && forall k :: 0 <= k < |gens| ==> WellFormed(e, gens[k])
    requires forall k :: 0 <= k < |gens| ==> WellFormed(As(e, vu, iter), gens[k])
    requires forall k :: 0 <= k < |branches| ==> StepsIndifferent(e, vu, iter, branches[k].steps)
    ensures ExecBranches(As(e, vu, iter), branches, entry, gens, loop, sig, here)
            == ExecBranches(e, branches, entry, gens, loop, sig, here)
    decreases branches, 0, 0
  {
    hide TreeSpells;
    if branches != [] {
      StepsIgnoreIds(e, vu, iter, branches[0].steps, Enter(entry, gens[0]), loop, sig, here + [|branches|], false);
      BranchesIgnoreIds(e, vu, iter, branches[1..], entry, gens[1..], loop, sig, here);
    }
  }
}
