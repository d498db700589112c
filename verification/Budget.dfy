/** How large the request budget of a trace must be to show a load run to its end. */
module Budgets {
  import opened Options
  import opened Templates
  import opened Requests
  import opened Scenarios
  import opened Conditions
  import opened ReqGens
  import opened Iterations
  import opened LoadRuns

  /** How many requests a run that goes on has added. */
  function Grown(o: Outcome, s: St): nat
    requires o.Done? ==> |s.sent| <= |o.st.sent|
  {
    if o.Done? then |o.st.sent| - |s.sent| else 0
  }

  function Max(a: nat, b: nat): nat {
    if a > b then a else b
  }

  /** What is needed for a part, after which `grown` requests more have been sent, and then for the
      `rest`; nothing is needed where the budget is not looked at. */
  function Then(part: nat, grown: nat, rest: nat): nat {
    if rest == 0 then part else Max(part, grown + rest)
  }

  /** A trace looks at its budget before every step and every round of a loop.  The need of a run is
      one more than the requests already sent at the last such look, and 0 if there is none. */
  function NeedOfSteps(e: Env, steps: seq<Step>, s: St, loop: Option<nat>, sig: Signals, path: seq<nat>, think: bool)
    : nat
    requires WellFormed(e, s.gen)
    decreases steps, 0, 0
  {
    if steps == [] then 0
    else
      var here := path + [|steps|];
      var o := ExecStep(e, steps[0], s, loop, sig, here, think);
      var first := Max(1, NeedOfStep(e, steps[0], s, loop, sig, here, think));
      if o.Done? then Then(first, Grown(o, s), NeedOfSteps(e, steps[1..], o.st, loop, sig, path, think)) else first
  }

  function NeedOfStep(e: Env, step: Step, s: St, loop: Option<nat>, sig: Signals, here: seq<nat>, think: bool): nat
    requires WellFormed(e, s.gen)
    decreases step, 0, 0
  {
    match step
    case Http(_) => 0
    case Loop(_, repeat, body) => NeedOfLoop(e, body, s, 0, repeat, sig, here, think)
    case If(_, _, _, _, _) =>
      var taken := Select(step, ContextOf(e, s, loop), e.oracle).steps;
      NeedOfSteps(e, taken, s, loop, sig, here, think)
    case Parallel(_, branches) => NeedOfBranches(e, branches, s, ForkAll(e, s.gen, |branches|).0, loop, sig, here)
  }

  function NeedOfLoop(e: Env, body: seq<Step>, s: St, i: nat, repeat: nat, sig: Signals, here: seq<nat>, think: bool)
    : nat
    requires WellFormed(e, s.gen)
    decreases body, 1, repeat - i
  {
    if i >= repeat then 0
    else
      var o := ExecSteps(e, body, s, Some(i), sig, here + [i], think);
      var first := Max(1, NeedOfSteps(e, body, s, Some(i), sig, here + [i], think));
      if o.Done? then Then(first, Grown(o, s), NeedOfLoop(e, body, o.st, i + 1, repeat, sig, here, think)) else first
  }

  function NeedOfBranches(e: Env, branches: seq<Branch>, entry: St, gens: seq<Option<Gen>>, loop: Option<nat>,
                          sig: Signals, here: seq<nat>): nat
    requires |gens| == |branches| && forall k :: 0 <= k < |gens| ==> WellFormed(e, gens[k])
    decreases branches, 0, 0
  {
    if branches == [] then 0
    else
      var s, path := Enter(entry, gens[0]), here + [|branches|];
      var o := ExecSteps(e, branches[0].steps, s, loop, sig, path, false);
      Then(NeedOfSteps(e, branches[0].steps, s, loop, sig, path, false), Grown(o, s),
           NeedOfBranches(e, branches[1..], entry, gens[1..], loop, sig, here))
  }

  // ---------------------------------------------------------------------------------------
  // Bounds of the need

  /** The requests all branches have sent. */
  function SentBy(runs: seq<Outcome>): nat {
    if runs == [] then 0 else (if runs[0].Done? then |runs[0].st.sent| else 0) + SentBy(runs[1..])
  }

  lemma {:induction false} MergedSends(e: Env, s: St, branches: seq<Branch>, runs: seq<Outcome>, worst: Flow)
    requires WellFormed(e, s.gen) && |runs| == |branches|
    ensures var o := MergeAll(e, s, branches, runs, worst); o.Done? ==> |o.st.sent| == |s.sent| + SentBy(runs)
    decreases |runs|
  {
    if runs != [] && runs[0].Done? {
      MergedSends(e, MergeBranch(e, s, branches[0], runs[0].st), branches[1..], runs[1..], Worse(worst, runs[0].flow));
    }
  }

  /** A run never needs more than one more than the requests it sends. */
  lemma {:induction false} StepsNeedLittle(e: Env, steps: seq<Step>, s: St, loop: Option<nat>, sig: Signals,
                                           path: seq<nat>, think: bool)
    requires WellFormed(e, s.gen) && GoesOn(ExecSteps(e, steps, s, loop, sig, path, think))
    ensures NeedOfSteps(e, steps, s, loop, sig, path, think)
            <= Grown(ExecSteps(e, steps, s, loop, sig, path, think), s) + 1
    decreases steps, 0, 0
  {
    if steps != [] {
      var here := path + [|steps|];
      StepNeedsLittle(e, steps[0], s, loop, sig, here, think);
      StepsNeedLittle(e, steps[1..], ExecStep(e, steps[0], s, loop, sig, here, think).st, loop, sig, path, think);
    }
  }

  lemma {:induction false} StepNeedsLittle(e: Env, step: Step, s: St, loop: Option<nat>, sig: Signals, here: seq<nat>,
                                           think: bool)
    requires WellFormed(e, s.gen) && GoesOn(ExecStep(e, step, s, loop, sig, here, think))
    ensures NeedOfStep(e, step, s, loop, sig, here, think) <= Grown(ExecStep(e, step, s, loop, sig, here, think), s) + 1
    decreases step, 0, 0
  {
    match step
    case Http(_) =>
    case Loop(_, repeat, body) => LoopNeedsLittle(e, body, s, 0, repeat, sig, here, think);
    case If(_, _, _, _, _) =>
      StepsNeedLittle(e, Select(step, ContextOf(e, s, loop), e.oracle).steps, s, loop, sig, here, think);
    case Parallel(_, branches) =>
      var (gens, g) := ForkAll(e, s.gen, |branches|);
      var runs := ExecBranches(e, branches, s, gens, loop, sig, here);
      MergedSends(e, s.(gen := g), branches, runs, Continue);
      AllGoOn(e, s.(gen := g), branches, runs, Continue);
      BranchesNeedLittle(e, branches, s, gens, loop, sig, here);
  }

  lemma {:induction false} LoopNeedsLittle(e: Env, body: seq<Step>, s: St, i: nat, repeat: nat, sig: Signals,
                                           here: seq<nat>, think: bool)
    requires WellFormed(e, s.gen) && GoesOn(ExecLoop(e, body, s, i, repeat, sig, here, think))
    ensures NeedOfLoop(e, body, s, i, repeat, sig, here, think)
            <= Grown(ExecLoop(e, body, s, i, repeat, sig, here, think), s) + 1
    decreases body, 1, repeat - i
  {
    if i < repeat {
      StepsNeedLittle(e, body, s, Some(i), sig, here + [i], think);
      var o := ExecSteps(e, body, s, Some(i), sig, here + [i], think);
      LoopNeedsLittle(e, body, o.st, i + 1, repeat, sig, here, think);
    }
  }

  lemma {:induction false} AllGoOn(e: Env, s: St, branches: seq<Branch>, runs: seq<Outcome>, worst: Flow)
    requires WellFormed(e, s.gen) && |runs| == |branches| && GoesOn(MergeAll(e, s, branches, runs, worst))
    ensures worst == Continue && forall k :: 0 <= k < |runs| ==> GoesOn(runs[k])
    decreases |runs|
  {
    if runs != [] && runs[0].Done? {
      AllGoOn(e, MergeBranch(e, s, branches[0], runs[0].st), branches[1..], runs[1..], Worse(worst, runs[0].flow));
    }
  }

  lemma {:induction false} BranchesNeedLittle(e: Env, branches: seq<Branch>, entry: St, gens: seq<Option<Gen>>,
                                              loop: Option<nat>, sig: Signals, here: seq<nat>)
    requires |gens| == |branches| && forall k :: 0 <= k < |gens| ==> WellFormed(e, gens[k])
    requires forall k :: 0 <= k < |branches| ==> GoesOn(ExecBranches(e, branches, entry, gens, loop, sig, here)[k])
    ensures NeedOfBranches(e, branches, entry, gens, loop, sig, here)
            <= SentBy(ExecBranches(e, branches, entry, gens, loop, sig, here)) + 1
    decreases branches, 0, 0
  {
    hide ExecSteps, NeedOfSteps;
    if branches != [] {
      var runs := ExecBranches(e, branches, entry, gens, loop, sig, here);
      assert GoesOn(runs[0]);
      assert runs[1..] == ExecBranches(e, branches[1..], entry, gens[1..], loop, sig, here);
      assert forall k :: 0 <= k < |runs[1..]| ==> runs[1..][k] == runs[k + 1];
      StepsNeedLittle(e, branches[0].steps, Enter(entry, gens[0]), loop, sig, here + [|branches|], false);
      BranchesNeedLittle(e, branches[1..], entry, gens[1..], loop, sig, here);
    }
  }

  lemma RequestNeedsNothing(e: Env, step: Step, s: St, loop: Option<nat>, sig: Signals, here: seq<nat>, think: bool)
    requires WellFormed(e, s.gen) && step.Http?
    ensures NeedOfStep(e, step, s, loop, sig, here, think) == 0
    ensures var o := ExecStep(e, step, s, loop, sig, here, think); o.Done? ==> Grown(o, s) == 1
  {
    hide Build;
  }

  /** A run whose last step is a request needs no more than the requests it sends. */
  lemma {:induction false} EndingInRequest(e: Env, steps: seq<Step>, s: St, loop: Option<nat>, sig: Signals,
                                           path: seq<nat>, think: bool)
    requires WellFormed(e, s.gen) && GoesOn(ExecSteps(e, steps, s, loop, sig, path, think))
    requires steps != [] && steps[|steps| - 1].Http?
    ensures 1 <= NeedOfSteps(e, steps, s, loop, sig, path, think)
              <= Grown(ExecSteps(e, steps, s, loop, sig, path, think), s)
    decreases |steps|
  {
    hide NeedOfStep, ExecStep;
    var here := path + [|steps|];
    var o := ExecStep(e, steps[0], s, loop, sig, here, think);
    if |steps| == 1 {
      assert steps[1..] == [];
      RequestNeedsNothing(e, steps[0], s, loop, sig, here, think);
    } else {
      StepNeedsLittle(e, steps[0], s, loop, sig, here, think);
      EndingInRequest(e, steps[1..], o.st, loop, sig, path, think);
    }
  }
}
