/** The load interpreter in the form it has: variables and generator state updated in place. */
module VirtualUsers {
  import opened Options
  import opened Templates
  import opened Requests
  import opened Scenarios
  import opened Conditions
  import opened ReqGens
  import opened Iterations
  import opened LoadRuns

  /** The variables and the generator state of one iteration or branch. */
  class Vars {
    var vars: map<string, string>
    const gen: ReqGen?
    ghost var log: seq<Write>
    ghost var sent: seq<Request>

    ghost const Repr: set<object?>

    ghost predicate Valid(e: Env)
      reads this, Repr
    {
      && this in Repr
      && (gen != null ==> gen in Repr && gen.dead in Repr && gen.Valid() && gen.plan == e.plan)
      && e.plan.Valid()
    }

    ghost function Abs(e: Env): (s: St)
      requires Valid(e)
      reads this, Repr
      ensures WellFormed(e, s.gen)
    {
      St(vars, if gen != null then Some(gen.Abs()) else None, log, sent)
    }

    constructor (vars: map<string, string>, gen: ReqGen?, ghost log: seq<Write>, ghost sent: seq<Request>)
      ensures this.gen == gen && this.vars == vars && this.log == log && this.sent == sent
      ensures Repr == {this} + if gen != null then {gen, gen.dead} else {}
    {
      this.vars, this.gen, this.log, this.sent := vars, gen, log, sent;
      this.Repr := {this} + if gen != null then {gen, gen.dead} else {};
    }

    method Refresh(e: Env, id: string)
      requires Valid(e)
      modifies Repr
      ensures Valid(e) && Abs(e) == RefreshFor(e, old(Abs(e)), id)
    {
      if gen != null {
        ghost var before := gen.Abs();
        vars := gen.Refresh(e.src, id, vars);
        log := log + [Write(Overwrite(map[], RefreshGen(e.src, e.plan, before, id).writes), Writer.Refresh)];
      }
    }

    method Commit(e: Env, values: map<string, string>, ghost writer: Writer)
      requires Valid(e)
      modifies Repr
      ensures Valid(e) && Abs(e) == Iterations.Commit(e, old(Abs(e)), values, writer)
    {
      if gen != null {
        gen.MarkWritten(values.Keys);
      }
      vars := vars + values;
      log := log + [Write(values, writer)];
    }

    /** Copies what a finished branch exposes. */
    method Merge(e: Env, b: Branch, done: map<string, string>, ghost st: St)
      requires Valid(e) && st.vars == done
      modifies Repr
      ensures Valid(e) && Abs(e) == MergeBranch(e, old(Abs(e)), b, st)
    {
      var names := OutputNames(b.steps);
      ghost var was := Abs(e);
      sent := sent + st.sent;
      var k := 0;
      while k < |names|
        invariant 0 <= k <= |names|
        invariant Valid(e)
        invariant MergeBranch(e, was, b, st) == Expose(e, Abs(e), b.name, names[k..], done)
      {
        assert names[k..][0] == names[k] && names[k..][1..] == names[k + 1..];
        if names[k] in done {
          Commit(e, map[Exposed(b.name, names[k]) := done[names[k]]], Writer.Merge);
        }
        k := k + 1;
      }
    }
  }

  /** What a branch leaves behind. */
  datatype Leftover = Leftover(flow: Flow, vars: map<string, string>)

  /** The result of a run, and the state it left in `v`, are those of the specification. */
  ghost predicate Ran(e: Env, v: Vars, r: Result<Flow, RenderError>, o: Outcome)
    requires v.Valid(e)
    reads v, v.Repr
  {
    match r
    case Ok(flow) => o == Done(flow, v.Abs(e))
    case Err(x) => o == Failed(x)
  }

  method ExecuteHttp(e: Env, h: HttpStep, v: Vars, loop: Option<nat>, sig: Signals, here: seq<nat>, think: bool)
    returns (r: Result<Flow, RenderError>)
    requires v.Valid(e)
    modifies v.Repr
    ensures v.Valid(e) && Ran(e, v, r, ExecHttp(e, h, old(v.Abs(e)), loop, sig, here, think))
  {
    v.Refresh(e, h.id);
    var built := BuildRequest(h.request, Context(v.vars, e.env, e.vuId, e.iterId, loop), e.lib);
    match built
    case Err(x) => return Err(x);
    case Ok(request) =>
      v.sent := v.sent + [request];
      v.Commit(e, Extracted(e, h, e.respond(h, request)).0, Extraction);
      if h.think || think {
        return Ok(FlowOf(sig(here + [0])));
      }
      return Ok(Continue);
  }

  method ExecuteSteps(e: Env, steps: seq<Step>, v: Vars, loop: Option<nat>, sig: Signals, path: seq<nat>, think: bool)
    returns (r: Result<Flow, RenderError>)
    requires v.Valid(e)
    modifies v.Repr
    ensures v.Valid(e) && Ran(e, v, r, ExecSteps(e, steps, old(v.Abs(e)), loop, sig, path, think))
    decreases steps, 0, 0
  {
    ghost var whole := ExecSteps(e, steps, v.Abs(e), loop, sig, path, think);
    var i := 0;
    while i < |steps|
      invariant 0 <= i <= |steps|
      invariant v.Valid(e)
      invariant whole == ExecSteps(e, steps[i..], v.Abs(e), loop, sig, path, think)
    {
      var here := path + [|steps| - i];
      assert steps[i..][0] == steps[i] && steps[i..][1..] == steps[i + 1..];
      if sig(here) != Go {
        return Ok(FlowOf(sig(here)));
      }
      r := ExecuteStep(e, steps[i], v, loop, sig, here, think);
      if r.Err? || r.value != Continue {
        return;
      }
      i := i + 1;
    }
    return Ok(Continue);
  }

  method ExecuteStep(e: Env, step: Step, v: Vars, loop: Option<nat>, sig: Signals, here: seq<nat>, think: bool)
    returns (r: Result<Flow, RenderError>)
    requires v.Valid(e)
    modifies v.Repr
    ensures v.Valid(e) && Ran(e, v, r, ExecStep(e, step, old(v.Abs(e)), loop, sig, here, think))
    decreases step, 0, 0
  {
    match step
    case Http(h) => r := ExecuteHttp(e, h, v, loop, sig, here, think);
    case Loop(_, repeat, body) =>
      ghost var whole := ExecLoop(e, body, v.Abs(e), 0, repeat, sig, here, think);
      for i := 0 to repeat
        invariant v.Valid(e)
        invariant whole == ExecLoop(e, body, v.Abs(e), i, repeat, sig, here, think)
      {
        if sig(here + [i]) != Go {
          return Ok(FlowOf(sig(here + [i])));
        }
        r := ExecuteSteps(e, body, v, Some(i), sig, here + [i], think);
        if r.Err? || r.value != Continue {
          return;
        }
      }
      return Ok(Continue);
    case If(_, _, _, _, _) =>
      var sel := SelectBranch(step, Context(v.vars, e.env, e.vuId, e.iterId, loop), e.oracle);
      r := ExecuteSteps(e, sel.steps, v, loop, sig, here, think);
    case Parallel(_, branches) => r := ExecuteParallel(e, branches, v, loop, sig, here);
  }

  ghost function AbsOf(g: ReqGen?): Option<Gen>
    reads g, if g != null then {g.dead} else {}
  {
    if g != null then Some(g.Abs()) else None
  }

  twostate predicate Forked(e: Env, parent: ReqGen?, new g: ReqGen?)
    reads g
  {
    (g != null <==> parent != null) && (g != null ==> fresh(g) && fresh(g.dead) && g.Valid() && g.plan == e.plan)
  }

  /** No two generator states share an object. */
  ghost predicate Apart(gens: seq<ReqGen?>) {
    forall j, k :: 0 <= j < k < |gens| && gens[j] != null && gens[k] != null ==>
        gens[j] != gens[k] && gens[j].dead != gens[k].dead
  }

  /** All the generator states of the branches, before any of them is used. */
  method ForkGens(e: Env, v: Vars, n: nat) returns (gens: seq<ReqGen?>)
    requires v.Valid(e)
    modifies v.Repr
    ensures v.Valid(e) && |gens| == n && Apart(gens)
    ensures forall k :: 0 <= k < n ==> Forked(e, v.gen, gens[k])
    ensures var (forks, g) := ForkAll(e, old(v.Abs(e)).gen, n);
            v.Abs(e) == old(v.Abs(e)).(gen := g) && forall k :: 0 <= k < n ==> AbsOf(gens[k]) == forks[k]
  {
    gens := [];
    ghost var was := v.Abs(e);
    ghost var all := ForkAll(e, was.gen, n);
    for k := 0 to n
      invariant v.Valid(e) && |gens| == k && Apart(gens)
      invariant forall j :: 0 <= j < k ==> Forked(e, v.gen, gens[j]) && AbsOf(gens[j]) == all.0[j]
      invariant v.Abs(e) == was.(gen := v.Abs(e).gen)
      invariant all.0[k..] == ForkAll(e, v.Abs(e).gen, n - k).0 && all.1 == ForkAll(e, v.Abs(e).gen, n - k).1
    {
      if v.gen == null {
        gens := gens + [null];
      } else {
        var child := v.gen.Fork(e.src);
        gens := gens + [child];
      }
    }
  }

  method ExecuteParallel(e: Env, branches: seq<Branch>, v: Vars, loop: Option<nat>, sig: Signals, here: seq<nat>)
    returns (r: Result<Flow, RenderError>)
    requires v.Valid(e)
    modifies v.Repr
    ensures v.Valid(e)
    ensures var was := old(v.Abs(e));
            var (forks, g) := ForkAll(e, was.gen, |branches|);
            var runs := ExecBranches(e, branches, was, forks, loop, sig, here);
            Ran(e, v, r, MergeAll(e, was.(gen := g), branches, runs, Continue))
    decreases branches, 1, 0
  {
    hide ExecSteps, ExecBranches, MergeAll, ForkAll;
    ghost var was := v.Abs(e);
    ghost var (forks, g) := ForkAll(e, was.gen, |branches|);
    ghost var runs := ExecBranches(e, branches, was, forks, loop, sig, here);
    var gens := ForkGens(e, v, |branches|);
    var results: seq<Result<Leftover, RenderError>> := [];
    for k := 0 to |branches|
      invariant v.Valid(e) && v.Abs(e) == was.(gen := g)
      invariant |results| == k && forall j :: 0 <= j < k ==> LeftBy(results[j], runs[j])
      invariant forall j :: k <= j < |branches| ==> Forked(e, v.gen, gens[j]) && AbsOf(gens[j]) == forks[j]
    {
      BranchesAreIsolated(e, branches, was, forks, loop, sig, here, k);
      var left := ExecuteBranch(e, branches[k], gens[k], v.vars, was.log, loop, sig, here + [|branches| - k]);
      results := results + [left];
    }
    r := MergeResults(e, branches, v, results, runs);
  }

  /** Runs one branch on a copy of the entry variables. */
  method ExecuteBranch(e: Env, b: Branch, gen: ReqGen?, entry: map<string, string>, ghost log: seq<Write>,
                       loop: Option<nat>, sig: Signals, path: seq<nat>)
    returns (r: Result<Leftover, RenderError>)
    requires e.plan.Valid() && (gen != null ==> gen.Valid() && gen.plan == e.plan)
    modifies if gen != null then {gen, gen.dead} else {}
    ensures LeftBy(r, ExecSteps(e, b.steps, St(entry, old(AbsOf(gen)), log, []), loop, sig, path, false))
    decreases b, 1, 0
  {
    var v := new Vars(entry, gen, log, []);
    var flow := ExecuteSteps(e, b.steps, v, loop, sig, path, false);
    match flow
    case Ok(f) => return Ok(Leftover(f, v.vars));
    case Err(x) => return Err(x);
  }

  ghost predicate LeftBy(r: Result<Leftover, RenderError>, o: Outcome) {
    match r
    case Ok(l) => o.Done? && o.flow == l.flow && o.st.vars == l.vars
    case Err(x) => o == Failed(x)
  }

  method MergeResults(e: Env, branches: seq<Branch>, v: Vars, results: seq<Result<Leftover, RenderError>>,
                      ghost runs: seq<Outcome>)
    returns (r: Result<Flow, RenderError>)
    requires v.Valid(e) && |results| == |runs| == |branches|
    requires forall k :: 0 <= k < |results| ==> LeftBy(results[k], runs[k])
    modifies v.Repr
    ensures v.Valid(e) && Ran(e, v, r, MergeAll(e, old(v.Abs(e)), branches, runs, Continue))
  {
    ghost var whole := MergeAll(e, v.Abs(e), branches, runs, Continue);
    var aborted, deadlineHit := false, false;
    for k := 0 to |branches|
      invariant v.Valid(e)
      invariant whole == MergeAll(e, v.Abs(e), branches[k..], runs[k..], if aborted then Aborted
                                  else if deadlineHit then DeadlineReached else Continue)
    {
      assert branches[k..][0] == branches[k] && branches[k..][1..] == branches[k + 1..];
      assert runs[k..][0] == runs[k] && runs[k..][1..] == runs[k + 1..];
      match results[k]
      case Err(x) => return Err(x);
      case Ok(left) =>
        match left.flow {
          case Continue =>
          case DeadlineReached => deadlineHit := true;
          case Aborted => aborted := true;
        }
        v.Merge(e, branches[k], left.vars, runs[k].st);
    }
    return Ok(if aborted then Aborted else if deadlineHit then DeadlineReached else Continue);
  }

  /** Starts an iteration from the declared values and the rows the datasets select; a dataset that
      has none left stops the user, and what it has injected so far is dropped. */
  method StartIteration(e: Env, seeds: map<string, string>, gen: ReqGen?, picks: seq<Option<map<string, string>>>)
    returns (v: Vars, stop: bool)
    requires e.plan.Valid()
    requires gen != null ==> gen.Valid() && gen.plan == e.plan && gen.Abs().dead == seq(|e.plan.names|, _ => false)
    modifies if gen != null then {gen, gen.dead} else {}
    ensures stop <==> None in picks
    ensures v.Valid(e) && fresh(v) && v.gen == gen && v.Repr == {v} + if gen != null then {gen, gen.dead} else {}
    ensures !stop ==> v.Abs(e) == Start(e, seeds, if gen != null then Some(old(gen.rng)) else None, Picked(picks))
  {
    v := new Vars(seeds, gen, [Write(seeds, Seed)], []);
    ghost var seed := if gen != null then Some(gen.rng) else None;
    for k := 0 to |picks|
      invariant v.Valid(e) && None !in picks[..k] && v.gen == gen
                && v.Repr == {v} + if gen != null then {gen, gen.dead} else {}
      invariant v.Abs(e) == Start(e, seeds, seed, Picked(picks[..k]))
    {
      assert picks[..k + 1] == picks[..k] + [picks[k]];
      match picks[k]
      case None =>
        assert picks[k] in picks;
        return v, true;
      case Some(row) =>
        PickedOneMore(picks[..k], row);
        v.Commit(e, row, Dataset);
    }
    assert picks[..|picks|] == picks;
    stop := false;
  }

  function Picked(picks: seq<Option<map<string, string>>>): seq<map<string, string>> {
    if picks == [] then []
    else Picked(picks[..|picks| - 1]) + if picks[|picks| - 1].Some? then [picks[|picks| - 1].value] else []
  }

  lemma PickedOneMore(picks: seq<Option<map<string, string>>>, row: map<string, string>)
    ensures Picked(picks + [Some(row)]) == Picked(picks) + [row]
    ensures (Picked(picks) + [row])[..|Picked(picks)|] == Picked(picks)
  {
    assert (picks + [Some(row)])[..|picks|] == picks;
  }
}
