/** The load interpreter: what one iteration of a virtual user does with a tree of steps. */
module LoadRuns {
  import opened Options
  import opened Templates
  import opened Requests
  import opened Scenarios
  import opened Conditions
  import opened ReqGens
  import opened Iterations

  /** What the clock and the cancellation token say when they are looked at. */
  datatype Signal = Go | Late | Cancelled

  /** Every look has its own place in the tree, so concurrent branches see independent answers. */
  type Signals = seq<nat> -> Signal

  datatype Flow = Continue | DeadlineReached | Aborted

  datatype Outcome = Done(flow: Flow, st: St) | Failed(error: RenderError)

  function FlowOf(s: Signal): Flow {
    match s
    case Go => Continue
    case Late => DeadlineReached
    case Cancelled => Aborted
  }

  function Worse(f: Flow, g: Flow): Flow {
    if f.Aborted? || g.Aborted? then Aborted
    else if f.DeadlineReached? || g.DeadlineReached? then DeadlineReached
    else Continue
  }

  /** The outcome lets the iteration go on. */
  predicate GoesOn(o: Outcome) {
    o.Done? && o.flow.Continue?
  }

  ghost predicate Sound(e: Env, o: Outcome, s: St) {
    o.Done? ==> WellFormed(e, o.st.gen) && (o.st.gen.Some? <==> s.gen.Some?) && |s.sent| <= |o.st.sent|
  }

  /** Builds the request strictly, sends it, and writes what it extracts; then thinks. */
  function ExecHttp(e: Env, h: HttpStep, s: St, loop: Option<nat>, sig: Signals, here: seq<nat>, think: bool)
    : (o: Outcome)
    requires WellFormed(e, s.gen)
    ensures Sound(e, o, s)
  {
    var s1 := RefreshFor(e, s, h.id);
    match Build(h.request, ContextOf(e, s1, loop), e.lib)
    case Err(x) => Failed(x)
    case Ok(request) => Receive(e, h, request, s1.(sent := s1.sent + [request]), sig, here, think)
  }

  /** What happens when the answer to a request is in. */
  function Receive(e: Env, h: HttpStep, request: Request, s: St, sig: Signals, here: seq<nat>, think: bool)
    : (o: Outcome)
    requires WellFormed(e, s.gen)
    ensures Sound(e, o, s)
  {
    var values := Extracted(e, h, e.respond(h, request)).0;
    Done(if h.think || think then FlowOf(sig(here + [0])) else Continue, Commit(e, s, values, Extraction))
  }

  function ExecSteps(e: Env, steps: seq<Step>, s: St, loop: Option<nat>, sig: Signals, path: seq<nat>, think: bool)
    : (o: Outcome)
    requires WellFormed(e, s.gen)
    ensures Sound(e, o, s)
    decreases steps, 0, 0
  {
    if steps == [] then Done(Continue, s)
    else
      var here := path + [|steps|];
      if sig(here) != Go then Done(FlowOf(sig(here)), s)
      else
        var o := ExecStep(e, steps[0], s, loop, sig, here, think);
        if GoesOn(o) then ExecSteps(e, steps[1..], o.st, loop, sig, path, think) else o
  }

  function ExecStep(e: Env, step: Step, s: St, loop: Option<nat>, sig: Signals, here: seq<nat>, think: bool)
    : (o: Outcome)
    requires WellFormed(e, s.gen)
    ensures Sound(e, o, s)
    decreases step, 0, 0
  {
    match step
    case Http(h) => ExecHttp(e, h, s, loop, sig, here, think)
    case Loop(_, repeat, body) => ExecLoop(e, body, s, 0, repeat, sig, here, think)
    case If(_, _, _, _, _) =>
      var taken := Select(step, ContextOf(e, s, loop), e.oracle).steps;
      ExecSteps(e, taken, s, loop, sig, here, think)
    case Parallel(_, branches) =>
      var (gens, g) := ForkAll(e, s.gen, |branches|);
      MergeAll(e, s.(gen := g), branches, ExecBranches(e, branches, s, gens, loop, sig, here), Continue)
  }

  /** The rounds of a loop from round `i` on. */
  function ExecLoop(e: Env, body: seq<Step>, s: St, i: nat, repeat: nat, sig: Signals, here: seq<nat>, think: bool)
    : (o: Outcome)
    requires WellFormed(e, s.gen)
    ensures Sound(e, o, s)
    decreases body, 1, repeat - i
  {
    if i >= repeat then Done(Continue, s)
    else if sig(here + [i]) != Go then Done(FlowOf(sig(here + [i])), s)
    else
      var o := ExecSteps(e, body, s, Some(i), sig, here + [i], think);
      if GoesOn(o) then ExecLoop(e, body, o.st, i + 1, repeat, sig, here, think) else o
  }

  /** Every branch runs from the entry state, on its own; the default think time does not apply. */
  function ExecBranches(e: Env, branches: seq<Branch>, entry: St, gens: seq<Option<Gen>>, loop: Option<nat>,
                        sig: Signals, here: seq<nat>): (runs: seq<Outcome>)
    requires |gens| == |branches| && forall k :: 0 <= k < |gens| ==> WellFormed(e, gens[k])
    ensures |runs| == |branches|
    ensures forall k :: 0 <= k < |runs| ==> Sound(e, runs[k], Enter(entry, gens[k]))
    decreases branches, 0, 0
  {
    if branches == [] then []
    else [ExecSteps(e, branches[0].steps, Enter(entry, gens[0]), loop, sig, here + [|branches|], false)]
         + ExecBranches(e, branches[1..], entry, gens[1..], loop, sig, here)
  }

  /** Merges finished branches in their declared order; the first failure wins, else the worst flow. */
  function MergeAll(e: Env, s: St, branches: seq<Branch>, runs: seq<Outcome>, worst: Flow): (o: Outcome)
    requires WellFormed(e, s.gen) && |runs| == |branches|
    ensures Sound(e, o, s)
    decreases |runs|
  {
    if runs == [] then Done(worst, s)
    else match runs[0]
         case Failed(x) => Failed(x)
         case Done(flow, st) => MergeAll(e, MergeBranch(e, s, branches[0], st), branches[1..], runs[1..],
                                         Worse(worst, flow))
  }

  // ---------------------------------------------------------------------------------------
  // Provenance over the whole tree

  lemma HttpKeepsProvenance(e: Env, h: HttpStep, s: St, loop: Option<nat>, sig: Signals, here: seq<nat>, think: bool)
    requires Provenance(e, s)
    ensures var o := ExecHttp(e, h, s, loop, sig, here, think); o.Done? ==> Provenance(e, o.st)
  {
    RefreshKeepsProvenance(e, s, h.id);
    var s1 := RefreshFor(e, s, h.id);
    match Build(h.request, ContextOf(e, s1, loop), e.lib)
    case Err(_) =>
    case Ok(request) =>
      CommitKeepsProvenance(e, s1.(sent := s1.sent + [request]), Extracted(e, h, e.respond(h, request)).0, Extraction);
  }

  /** Wherever a run stops — at its end, at the deadline or cancelled, at any of its looks — a
      per-request variable is dead exactly when a dataset row, an extraction or a merge wrote its
      value last. */
  lemma {:induction false} StepsKeepProvenance(e: Env, steps: seq<Step>, s: St, loop: Option<nat>, sig: Signals,
                                               path: seq<nat>, think: bool)
    requires Provenance(e, s)
    ensures var o := ExecSteps(e, steps, s, loop, sig, path, think); o.Done? ==> Provenance(e, o.st)
    decreases steps, 0, 0
  {
    if steps != [] {
      var here := path + [|steps|];
      if sig(here) == Go {
        StepKeepsProvenance(e, steps[0], s, loop, sig, here, think);
        var o := ExecStep(e, steps[0], s, loop, sig, here, think);
        if GoesOn(o) {
          StepsKeepProvenance(e, steps[1..], o.st, loop, sig, path, think);
        }
      }
    }
  }

  lemma {:induction false} StepKeepsProvenance(e: Env, step: Step, s: St, loop: Option<nat>, sig: Signals,
                                               here: seq<nat>, think: bool)
    requires Provenance(e, s)
    ensures var o := ExecStep(e, step, s, loop, sig, here, think); o.Done? ==> Provenance(e, o.st)
    decreases step, 0, 0
  {
    match step
    case Http(h) => HttpKeepsProvenance(e, h, s, loop, sig, here, think);
    case Loop(_, repeat, body) => LoopKeepsProvenance(e, body, s, 0, repeat, sig, here, think);
    case If(_, _, _, _, _) =>
      StepsKeepProvenance(e, Select(step, ContextOf(e, s, loop), e.oracle).steps, s, loop, sig, here, think);
    case Parallel(_, branches) =>
      var (gens, g) := ForkAll(e, s.gen, |branches|);
      MergeKeepsProvenance(e, s.(gen := g), branches, ExecBranches(e, branches, s, gens, loop, sig, here), Continue);
  }

  lemma {:induction false} LoopKeepsProvenance(e: Env, body: seq<Step>, s: St, i: nat, repeat: nat, sig: Signals,
                                               here: seq<nat>, think: bool)
    requires Provenance(e, s)
    ensures var o := ExecLoop(e, body, s, i, repeat, sig, here, think); o.Done? ==> Provenance(e, o.st)
    decreases body, 1, repeat - i
  {
    if i < repeat && sig(here + [i]) == Go {
      StepsKeepProvenance(e, body, s, Some(i), sig, here + [i], think);
      var o := ExecSteps(e, body, s, Some(i), sig, here + [i], think);
      if GoesOn(o) {
        LoopKeepsProvenance(e, body, o.st, i + 1, repeat, sig, here, think);
      }
    }
  }

  lemma {:induction false} MergeKeepsProvenance(e: Env, s: St, branches: seq<Branch>, runs: seq<Outcome>, worst: Flow)
    requires Provenance(e, s) && |runs| == |branches|
    ensures var o := MergeAll(e, s, branches, runs, worst); o.Done? ==> Provenance(e, o.st)
    decreases |runs|
  {
    if runs != [] && runs[0].Done? {
      ExposeKeepsProvenance(e, s.(sent := s.sent + runs[0].st.sent), branches[0].name, OutputNames(branches[0].steps),
                            runs[0].st.vars);
      MergeKeepsProvenance(e, MergeBranch(e, s, branches[0], runs[0].st), branches[1..], runs[1..],
                           Worse(worst, runs[0].flow));
    }
  }

  // ---------------------------------------------------------------------------------------
  // What a parallel step does to its parent

  /** Whether the generator state takes the per-request variable `n` for dead. */
  predicate DeadIn(e: Env, g: Option<Gen>, n: string)
    requires g.Some? ==> |g.value.dead| == |e.plan.names|
  {
    g.Some? && exists i :: 0 <= i < |e.plan.names| && e.plan.names[i] == n && g.value.dead[i]
  }

  predicate Tracked(e: Env, s: St, n: string) {
    s.gen.Some? && n in e.plan.names
  }

  lemma CommitAt(e: Env, s: St, values: map<string, string>, writer: Writer, n: string)
    requires WellFormed(e, s.gen)
    ensures var r := Commit(e, s, values, writer);
            if n in values then n in r.vars && r.vars[n] == values[n] && (Tracked(e, s, n) ==> DeadIn(e, r.gen, n))
            else Same(r.vars, s.vars, n) && (DeadIn(e, r.gen, n) <==> DeadIn(e, s.gen, n))
  {
    var r := Commit(e, s, values, writer);
    if s.gen.Some? {
      assert forall i :: 0 <= i < |e.plan.names| ==> (r.gen.value.dead[i]
                                                      <==> s.gen.value.dead[i] || e.plan.names[i] in values);
    }
  }

  lemma ExposedKey(branch: string, name: string, key: string)
    ensures key == Exposed(branch, name) <==> branch + "." <= key && key[|branch| + 1..] == name
  {
    var prefix := branch + ".";
    if prefix <= key {
      assert key == prefix + key[|prefix|..];
    }
  }

  /** `r` is `s` with the key written to `value`, or untouched at the key. */
  ghost predicate WritesAt(e: Env, s: St, r: St, key: string, value: Option<string>)
    requires WellFormed(e, s.gen) && WellFormed(e, r.gen)
  {
    if value.Some? then key in r.vars && r.vars[key] == value.value && (Tracked(e, s, key) ==> DeadIn(e, r.gen, key))
    else Same(r.vars, s.vars, key) && (DeadIn(e, r.gen, key) <==> DeadIn(e, s.gen, key))
  }

  function OfferedIn(branch: string, names: seq<string>, vars: map<string, string>, key: string): Option<string> {
    var prefix := branch + ".";
    if prefix <= key && key[|prefix|..] in names && key[|prefix|..] in vars then Some(vars[key[|prefix|..]]) else None
  }

  lemma {:induction false} ExposeAt(e: Env, s: St, branch: string, names: seq<string>, vars: map<string, string>,
                                    key: string)
    requires WellFormed(e, s.gen)
    ensures WritesAt(e, s, Expose(e, s, branch, names, vars), key, OfferedIn(branch, names, vars, key))
    decreases |names|
  {
    if names != [] {
      var n := names[0];
      ExposedKey(branch, n, key);
      assert forall x :: x in names <==> x == n || x in names[1..];
      if n in vars {
        var values := map[Exposed(branch, n) := vars[n]];
        var s' := Commit(e, s, values, Merge);
        CommitAt(e, s, values, Merge, key);
        ExposeAt(e, s', branch, names[1..], vars, key);
      } else {
        ExposeAt(e, s, branch, names[1..], vars, key);
      }
    }
  }

  /** What the branches offer for a key: the last branch that offers anything wins. */
  function LastOffer(branches: seq<Branch>, runs: seq<Outcome>, key: string): Option<string>
    requires |branches| == |runs|
    decreases |runs|
  {
    if runs == [] then None
    else
      var later := LastOffer(branches[1..], runs[1..], key);
      if later.Some? then later
      else if runs[0].Done? then OfferedIn(branches[0].name, OutputNames(branches[0].steps), runs[0].st.vars, key)
      else None
  }

  lemma {:induction false} MergeWrites(e: Env, s: St, branches: seq<Branch>, runs: seq<Outcome>, worst: Flow,
                                       key: string)
    requires WellFormed(e, s.gen) && |runs| == |branches|
    ensures var o := MergeAll(e, s, branches, runs, worst);
            o.Done? ==> WritesAt(e, s, o.st, key, LastOffer(branches, runs, key))
    decreases |runs|
  {
    if runs != [] && runs[0].Done? {
      var b, st := branches[0], runs[0].st;
      ExposeAt(e, s.(sent := s.sent + st.sent), b.name, OutputNames(b.steps), st.vars, key);
      MergeWrites(e, MergeBranch(e, s, b, st), branches[1..], runs[1..], Worse(worst, runs[0].flow), key);
    }
  }

  lemma FirstBranch(e: Env, branches: seq<Branch>, entry: St, gens: seq<Option<Gen>>, loop: Option<nat>, sig: Signals,
                    here: seq<nat>)
    requires |branches| == |gens| > 0 && forall j :: 0 <= j < |gens| ==> WellFormed(e, gens[j])
    ensures ExecBranches(e, branches, entry, gens, loop, sig, here)
         == [ExecSteps(e, branches[0].steps, Enter(entry, gens[0]), loop, sig, here + [|branches|], false)]
            + ExecBranches(e, branches[1..], entry, gens[1..], loop, sig, here)
  {
    hide ExecSteps;
  }

  /** A branch's run is a function of the state at the entry of the step alone: the other branches,
      their writes and their order do not matter. */
  lemma {:induction false} BranchesAreIsolated(e: Env, branches: seq<Branch>, entry: St, gens: seq<Option<Gen>>,
                                               loop: Option<nat>, sig: Signals, here: seq<nat>, k: nat)
    requires k < |branches| == |gens| && forall j :: 0 <= j < |gens| ==> WellFormed(e, gens[j])
    ensures ExecBranches(e, branches, entry, gens, loop, sig, here)[k]
         == ExecSteps(e, branches[k].steps, Enter(entry, gens[k]), loop, sig, here + [|branches| - k], false)
    decreases k
  {
    hide ExecSteps, ExecBranches, Enter;
    FirstBranch(e, branches, entry, gens, loop, sig, here);
    if k > 0 {
      BranchesAreIsolated(e, branches[1..], entry, gens[1..], loop, sig, here, k - 1);
    }
  }

  /** Branches start with the history and the dead set of their parent, so provenance holds inside
      every branch as well. */
  lemma BranchKeepsProvenance(e: Env, branches: seq<Branch>, entry: St, loop: Option<nat>, sig: Signals,
                              here: seq<nat>, k: nat)
    requires Provenance(e, entry) && k < |branches|
    ensures var run := ExecBranches(e, branches, entry, ForkAll(e, entry.gen, |branches|).0, loop, sig, here)[k];
            run.Done? ==> Provenance(e, run.st)
  {
    var gens := ForkAll(e, entry.gen, |branches|).0;
    BranchesAreIsolated(e, branches, entry, gens, loop, sig, here, k);
    StepsKeepProvenance(e, branches[k].steps, Enter(entry, gens[k]), loop, sig, here + [|branches| - k], false);
  }

  /** A parallel step writes exactly the keys `branch.name` its branches offer, each with the value
      of the last branch in declared order that offers it, and marks those dead; every other
      variable of the parent, and every other dead flag, is as before the step. */
  lemma ParallelWritesOnlyOffers(e: Env, step: Step, s: St, loop: Option<nat>, sig: Signals, here: seq<nat>,
                                 think: bool, key: string)
    requires WellFormed(e, s.gen) && step.Parallel?
    ensures var o := ExecStep(e, step, s, loop, sig, here, think);
            var runs := ExecBranches(e, step.branches, s, ForkAll(e, s.gen, |step.branches|).0, loop, sig, here);
            o.Done? ==> WritesAt(e, s, o.st, key, LastOffer(step.branches, runs, key))
  {
    var (gens, g) := ForkAll(e, s.gen, |step.branches|);
    var s' := s.(gen := g);
    MergeWrites(e, s', step.branches, ExecBranches(e, step.branches, s, gens, loop, sig, here), Continue, key);
  }
}
