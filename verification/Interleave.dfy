/** The load interpreter as it runs: tasks that advance one small step at a time, with the branches
    of a parallel step interleaved in any order.  Every schedule ends, and ends alike. */
module Interleaving {
  import opened Options
  import opened Templates
  import opened Requests
  import opened Scenarios
  import opened Conditions
  import opened ReqGens
  import opened Iterations
  import opened LoadRuns

  /** What is left of a list of steps, or of a loop, that has been entered. */
  datatype Frame =
    | StepsFrame(steps: seq<Step>, loop: Option<nat>, path: seq<nat>, think: bool)
    | LoopFrame(body: seq<Step>, i: nat, repeat: nat, here: seq<nat>, loopThink: bool)

  /** `InFlight` waits for an answer; `Joining` waits for all its branches. */
  datatype Task =
    | Running(frames: seq<Frame>, st: St)
    | InFlight(h: HttpStep, request: Request, at: seq<nat>, slow: bool, frames: seq<Frame>, st: St)
    | Joining(branches: seq<Branch>, children: seq<Task>, frames: seq<Frame>, st: St)
    | Ended(outcome: Outcome)

  ghost predicate TaskOk(e: Env, t: Task)
    decreases t
  {
    match t
    case Running(_, st) => WellFormed(e, st.gen)
    case InFlight(_, _, _, _, _, st) => WellFormed(e, st.gen)
    case Joining(branches, children, _, st) =>
      WellFormed(e, st.gen) && |branches| == |children| && forall k :: 0 <= k < |children| ==> TaskOk(e, children[k])
    case Ended(o) => o.Done? ==> WellFormed(e, o.st.gen)
  }

  function Settle(o: Outcome, frames: seq<Frame>): Task {
    if GoesOn(o) then Running(frames, o.st) else Ended(o)
  }

  function Children(branches: seq<Branch>, entry: St, gens: seq<Option<Gen>>, loop: Option<nat>, here: seq<nat>)
    : seq<Task>
    requires |gens| == |branches|
  {
    seq(|branches|, k requires 0 <= k < |branches| =>
      Running([StepsFrame(branches[k].steps, loop, here + [|branches| - k], false)], Enter(entry, gens[k])))
  }

  /** Enters the first step of a list; a request is built and sent, its answer still to come. */
  function EnterStep(e: Env, step: Step, s: St, loop: Option<nat>, here: seq<nat>, think: bool, rest: seq<Frame>): Task
    requires WellFormed(e, s.gen)
  {
    match step
    case Http(h) =>
      var s1 := RefreshFor(e, s, h.id);
      (match Build(h.request, ContextOf(e, s1, loop), e.lib)
       case Err(x) => Ended(Failed(x))
       case Ok(request) => InFlight(h, request, here, think, rest, s1.(sent := s1.sent + [request])))
    case Loop(_, repeat, body) => Running([LoopFrame(body, 0, repeat, here, think)] + rest, s)
    case If(_, _, _, _, _) =>
      var taken := Select(step, ContextOf(e, s, loop), e.oracle).steps;
      Running([StepsFrame(taken, loop, here, think)] + rest, s)
    case Parallel(_, branches) =>
      var (gens, g) := ForkAll(e, s.gen, |branches|);
      Joining(branches, Children(branches, s, gens, loop, here), rest, s.(gen := g))
  }

  function AdvanceFrame(e: Env, f: Frame, rest: seq<Frame>, s: St, sig: Signals): Task
    requires WellFormed(e, s.gen)
  {
    match f
    case StepsFrame(steps, loop, path, think) =>
      if steps == [] then Running(rest, s)
      else
        var here := path + [|steps|];
        if sig(here) != Go then Ended(Done(FlowOf(sig(here)), s))
        else EnterStep(e, steps[0], s, loop, here, think, [StepsFrame(steps[1..], loop, path, think)] + rest)
    case LoopFrame(body, i, repeat, here, think) =>
      if i >= repeat then Running(rest, s)
      else if sig(here + [i]) != Go then Ended(Done(FlowOf(sig(here + [i])), s))
      else Running([StepsFrame(body, Some(i), here + [i], think), LoopFrame(body, i + 1, repeat, here, think)] + rest,
                   s)
  }

  /** The outcomes of tasks that have all ended. */
  function Outcomes(ts: seq<Task>): (r: seq<Outcome>)
    requires forall k :: 0 <= k < |ts| ==> ts[k].Ended?
    ensures |r| == |ts| && forall k :: 0 <= k < |r| ==> r[k] == ts[k].outcome
  {
    seq(|ts|, k requires 0 <= k < |ts| => ts[k].outcome)
  }

  /** One step of the schedule: the choice says which branch moves, at every level of nesting.  A
      choice that names no branch able to move changes nothing. */
  function Advance(e: Env, t: Task, sig: Signals, choice: seq<nat>): Task
    requires TaskOk(e, t)
    decreases t
  {
    match t
    case Running(frames, st) =>
      if frames == [] then Ended(Done(Continue, st)) else AdvanceFrame(e, frames[0], frames[1..], st, sig)
    case InFlight(h, request, here, think, frames, st) => Settle(Receive(e, h, request, st, sig, here, think), frames)
    case Joining(branches, children, frames, st) =>
      if forall k :: 0 <= k < |children| ==> children[k].Ended? then
        Settle(MergeAll(e, st, branches, Outcomes(children), Continue), frames)
      else if choice != [] && choice[0] < |children| then
        t.(children := children[choice[0] := Advance(e, children[choice[0]], sig, choice[1..])])
      else t
    case Ended(_) => t
  }

  // ---------------------------------------------------------------------------------------
  // What a task will come to

  function ResumeFrame(e: Env, f: Frame, s: St, sig: Signals): (o: Outcome)
    requires WellFormed(e, s.gen)
    ensures Sound(e, o, s)
  {
    match f
    case StepsFrame(steps, loop, path, think) => ExecSteps(e, steps, s, loop, sig, path, think)
    case LoopFrame(body, i, repeat, here, think) => ExecLoop(e, body, s, i, repeat, sig, here, think)
  }

  function Resume(e: Env, frames: seq<Frame>, o: Outcome, sig: Signals): (r: Outcome)
    requires o.Done? ==> WellFormed(e, o.st.gen)
    ensures r.Done? ==> WellFormed(e, r.st.gen)
    decreases |frames|
  {
    if !GoesOn(o) || frames == [] then o else Resume(e, frames[1..], ResumeFrame(e, frames[0], o.st, sig), sig)
  }

  /** The outcome the sequential interpreter gives for what is left of `t`. */
  function Meaning(e: Env, t: Task, sig: Signals): (r: Outcome)
    requires TaskOk(e, t)
    ensures r.Done? ==> WellFormed(e, r.st.gen)
    decreases t
  {
    match t
    case Running(frames, st) => Resume(e, frames, Done(Continue, st), sig)
    case InFlight(h, request, here, think, frames, st) =>
      Resume(e, frames, Receive(e, h, request, st, sig, here, think), sig)
    case Joining(branches, children, frames, st) =>
      var runs := seq(|children|, k requires 0 <= k < |children| => Meaning(e, children[k], sig));
      Resume(e, frames, MergeAll(e, st, branches, runs, Continue), sig)
    case Ended(o) => o
  }

  lemma ResumePush(e: Env, f: Frame, rest: seq<Frame>, o: Outcome, sig: Signals)
    requires o.Done? ==> WellFormed(e, o.st.gen)
    ensures Resume(e, [f] + rest, o, sig) == if GoesOn(o) then Resume(e, rest, ResumeFrame(e, f, o.st, sig), sig) else o
  {
    hide ResumeFrame;
    assert ([f] + rest)[1..] == rest;
  }

  lemma ResumeStops(e: Env, frames: seq<Frame>, o: Outcome, sig: Signals)
    requires o.Done? ==> WellFormed(e, o.st.gen)
    ensures !GoesOn(o) ==> Resume(e, frames, o, sig) == o
  {
  }

  lemma MeaningOfOneFrame(e: Env, f: Frame, s: St, sig: Signals)
    requires WellFormed(e, s.gen)
    ensures Meaning(e, Running([f], s), sig) == ResumeFrame(e, f, s, sig)
  {
    hide ResumeFrame;
    ResumePush(e, f, [], Done(Continue, s), sig);
    assert [f] + [] == [f];
  }

  lemma ForkKeepsMeaning(e: Env, branches: seq<Branch>, s: St, loop: Option<nat>, here: seq<nat>, rest: seq<Frame>,
                         sig: Signals)
    requires WellFormed(e, s.gen)
    ensures var (gens, g) := ForkAll(e, s.gen, |branches|);
            var t := Joining(branches, Children(branches, s, gens, loop, here), rest, s.(gen := g));
            var runs := ExecBranches(e, branches, s, gens, loop, sig, here);
            TaskOk(e, t) && Meaning(e, t, sig) == Resume(e, rest, MergeAll(e, t.st, branches, runs, Continue), sig)
  {
    hide MergeAll, ExecBranches;
    var (gens, g) := ForkAll(e, s.gen, |branches|);
    var t := Joining(branches, Children(branches, s, gens, loop, here), rest, s.(gen := g));
    var runs := ExecBranches(e, branches, s, gens, loop, sig, here);
    forall k | 0 <= k < |branches|
      ensures TaskOk(e, t.children[k]) && Meaning(e, t.children[k], sig) == runs[k]
    {
      MeaningOfOneFrame(e, StepsFrame(branches[k].steps, loop, here + [|branches| - k], false), Enter(s, gens[k]), sig);
      BranchesAreIsolated(e, branches, s, gens, loop, sig, here, k);
    }
    assert seq(|t.children|, k requires 0 <= k < |t.children| => Meaning(e, t.children[k], sig)) == runs;
  }

  lemma EnterKeepsMeaning(e: Env, step: Step, s: St, loop: Option<nat>, here: seq<nat>, think: bool, rest: seq<Frame>,
                          sig: Signals)
    requires WellFormed(e, s.gen)
    ensures var t := EnterStep(e, step, s, loop, here, think, rest);
            TaskOk(e, t) && Meaning(e, t, sig) == Resume(e, rest, ExecStep(e, step, s, loop, sig, here, think), sig)
  {
    hide Resume, Build, MergeAll, ExecBranches;
    match step
    case Http(h) => ResumeStops(e, rest, ExecHttp(e, h, s, loop, sig, here, think), sig);
    case Loop(_, repeat, body) => ResumePush(e, LoopFrame(body, 0, repeat, here, think), rest, Done(Continue, s), sig);
    case If(_, _, _, _, _) =>
      var taken := Select(step, ContextOf(e, s, loop), e.oracle).steps;
      ResumePush(e, StepsFrame(taken, loop, here, think), rest, Done(Continue, s), sig);
    case Parallel(_, branches) => ForkKeepsMeaning(e, branches, s, loop, here, rest, sig);
  }

  lemma FrameKeepsMeaning(e: Env, f: Frame, rest: seq<Frame>, s: St, sig: Signals)
    requires WellFormed(e, s.gen)
    ensures var t := AdvanceFrame(e, f, rest, s, sig);
            TaskOk(e, t) && Meaning(e, t, sig) == Resume(e, rest, ResumeFrame(e, f, s, sig), sig)
  {
    hide ExecStep, EnterStep;
    match f
    case StepsFrame(steps, loop, path, think) =>
      var here := path + [|steps|];
      if steps != [] && sig(here) == Go {
        var next := StepsFrame(steps[1..], loop, path, think);
        EnterKeepsMeaning(e, steps[0], s, loop, here, think, [next] + rest, sig);
        ResumePush(e, next, rest, ExecStep(e, steps[0], s, loop, sig, here, think), sig);
      }
    case LoopFrame(body, i, repeat, here, think) =>
      if i < repeat && sig(here + [i]) == Go {
        var first, next := StepsFrame(body, Some(i), here + [i], think), LoopFrame(body, i + 1, repeat, here, think);
        ResumePush(e, first, [next] + rest, Done(Continue, s), sig);
        ResumePush(e, next, rest, ExecSteps(e, body, s, Some(i), sig, here + [i], think), sig);
        assert [first] + ([next] + rest) == [first, next] + rest;
      }
  }

  /** No step of any schedule changes what `t` will come to. */
  lemma {:induction false} AdvanceKeepsMeaning(e: Env, t: Task, sig: Signals, choice: seq<nat>)
    requires TaskOk(e, t)
    ensures var t' := Advance(e, t, sig, choice); TaskOk(e, t') && Meaning(e, t', sig) == Meaning(e, t, sig)
    decreases t
  {
    match t
    case Running(frames, st) =>
      if frames != [] {
        FrameKeepsMeaning(e, frames[0], frames[1..], st, sig);
      }
    case InFlight(h, request, here, think, frames, st) =>
    case Joining(branches, children, frames, st) =>
      var meanings := seq(|children|, k requires 0 <= k < |children| => Meaning(e, children[k], sig));
      if forall k :: 0 <= k < |children| ==> children[k].Ended? {
        assert meanings == Outcomes(children);
      } else if choice != [] && choice[0] < |children| {
        AdvanceKeepsMeaning(e, children[choice[0]], sig, choice[1..]);
        var children' := Advance(e, t, sig, choice).children;
        assert meanings == seq(|children'|, k requires 0 <= k < |children'| => Meaning(e, children'[k], sig));
      }
    case Ended(_) =>
  }

  function RunAll(e: Env, t: Task, sig: Signals, schedule: seq<seq<nat>>): Task
    requires TaskOk(e, t)
    decreases |schedule|
  {
    if schedule == [] then t
    else
      AdvanceKeepsMeaning(e, t, sig, schedule[0]);
      RunAll(e, Advance(e, t, sig, schedule[0]), sig, schedule[1..])
  }

  function Init(steps: seq<Step>, s: St, loop: Option<nat>, path: seq<nat>, think: bool): Task {
    Running([StepsFrame(steps, loop, path, think)], s)
  }

  lemma {:induction false} RunKeepsMeaning(e: Env, t: Task, sig: Signals, schedule: seq<seq<nat>>)
    requires TaskOk(e, t)
    ensures var t' := RunAll(e, t, sig, schedule); TaskOk(e, t') && Meaning(e, t', sig) == Meaning(e, t, sig)
    decreases |schedule|
  {
    if schedule != [] {
      AdvanceKeepsMeaning(e, t, sig, schedule[0]);
      RunKeepsMeaning(e, Advance(e, t, sig, schedule[0]), sig, schedule[1..]);
    }
  }

  // ---------------------------------------------------------------------------------------
  // Every schedule ends

  function LoopCost(body: nat, rounds: nat): nat {
    if rounds == 0 then 1 else 1 + body + LoopCost(body, rounds - 1)
  }

  /** How many small steps a list of steps takes at most. */
  function Cost(steps: seq<Step>): (r: nat)
    ensures r >= 1
    decreases steps, 0
  {
    if steps == [] then 1 else StepCost(steps[0]) + Cost(steps[1..])
  }

  function StepCost(step: Step): nat
    decreases step, 0
  {
    match step
    case Http(_) => 2
    case Loop(_, repeat, body) => 1 + LoopCost(Cost(body), repeat)
    case If(_, _, thn, elifs, els) => 1 + Cost(thn) + ElifCost(elifs) + Cost(els)
    case Parallel(_, branches) => 3 + BranchCost(branches)
  }

  function ElifCost(elifs: seq<Elif>): nat
    decreases elifs, 0
  {
    if elifs == [] then 0 else Cost(elifs[0].thn) + ElifCost(elifs[1..])
  }

  function BranchCost(branches: seq<Branch>): nat
    decreases branches, 0
  {
    if branches == [] then 0 else 1 + Cost(branches[0].steps) + BranchCost(branches[1..])
  }

  function FrameWork(f: Frame): nat {
    match f
    case StepsFrame(steps, _, _, _) => Cost(steps)
    case LoopFrame(body, i, repeat, _, _) => LoopCost(Cost(body), if i < repeat then repeat - i else 0)
  }

  function FramesWork(frames: seq<Frame>): nat {
    if frames == [] then 0 else FrameWork(frames[0]) + FramesWork(frames[1..])
  }

  /** A bound on the steps a task can still make. */
  function Work(t: Task): nat
    decreases t
  {
    match t
    case Running(frames, _) => 1 + FramesWork(frames)
    case InFlight(_, _, _, _, frames, _) => 2 + FramesWork(frames)
    case Joining(_, children, frames, _) => 2 + WorkOfAll(children) + FramesWork(frames)
    case Ended(_) => 0
  }

  function WorkOfAll(ts: seq<Task>): nat
    decreases ts
  {
    if ts == [] then 0 else Work(ts[0]) + WorkOfAll(ts[1..])
  }

  lemma {:induction false} WorkOfUpdate(ts: seq<Task>, k: nat, t: Task)
    requires k < |ts|
    ensures WorkOfAll(ts[k := t]) + Work(ts[k]) == WorkOfAll(ts) + Work(t)
    decreases k
  {
    if k == 0 {
      assert ts[0 := t][1..] == ts[1..];
    } else {
      assert ts[k := t][1..] == ts[1..][k - 1 := t];
      WorkOfUpdate(ts[1..], k - 1, t);
    }
  }

  lemma {:induction false} WorkOfChildren(branches: seq<Branch>, entry: St, gens: seq<Option<Gen>>, loop: Option<nat>,
                                          here: seq<nat>)
    requires |gens| == |branches|
    ensures WorkOfAll(Children(branches, entry, gens, loop, here)) == BranchCost(branches)
    decreases |branches|
  {
    hide Cost;
    if branches != [] {
      var cs := Children(branches, entry, gens, loop, here);
      assert cs[1..] == Children(branches[1..], entry, gens[1..], loop, here);
      WorkOfChildren(branches[1..], entry, gens[1..], loop, here);
      var first := StepsFrame(branches[0].steps, loop, here + [|branches|], false);
      FramesPush(first, []);
      assert cs[0] == Running([first], Enter(entry, gens[0])) && [first] + [] == [first];
      assert FramesWork([]) == 0;
    }
  }

  lemma {:induction false} ElifWithinCost(elifs: seq<Elif>, k: nat)
    requires k < |elifs|
    ensures Cost(elifs[k].thn) <= ElifCost(elifs)
    decreases k
  {
    hide Cost;
    if k > 0 {
      ElifWithinCost(elifs[1..], k - 1);
    }
  }

  lemma FramesPush(f: Frame, rest: seq<Frame>)
    ensures FramesWork([f] + rest) == FrameWork(f) + FramesWork(rest)
  {
    assert ([f] + rest)[1..] == rest;
  }

  lemma EnterWorks(e: Env, step: Step, s: St, loop: Option<nat>, here: seq<nat>, think: bool, rest: seq<Frame>)
    requires WellFormed(e, s.gen)
    ensures Work(EnterStep(e, step, s, loop, here, think, rest)) <= StepCost(step) + FramesWork(rest)
  {
    match step
    case Http(h) =>
    case Loop(_, repeat, body) => FramesPush(LoopFrame(body, 0, repeat, here, think), rest);
    case If(_, cond, thn, elifs, els) =>
      var ctx := ContextOf(e, s, loop);
      var taken := Select(step, ctx, e.oracle).steps;
      FramesPush(StepsFrame(taken, loop, here, think), rest);
      var k := FirstElif(elifs, ctx, e.oracle);
      if k < |elifs| {
        ElifWithinCost(elifs, k);
      }
    case Parallel(_, branches) => WorkOfChildren(branches, s, ForkAll(e, s.gen, |branches|).0, loop, here);
  }

  lemma FrameWorks(e: Env, f: Frame, rest: seq<Frame>, s: St, sig: Signals)
    requires WellFormed(e, s.gen)
    ensures Work(AdvanceFrame(e, f, rest, s, sig)) < 1 + FrameWork(f) + FramesWork(rest)
  {
    hide EnterStep;
    match f
    case StepsFrame(steps, loop, path, think) =>
      if steps != [] {
        var next := StepsFrame(steps[1..], loop, path, think);
        FramesPush(next, rest);
        EnterWorks(e, steps[0], s, loop, path + [|steps|], think, [next] + rest);
      }
    case LoopFrame(body, i, repeat, here, think) =>
      if i < repeat {
        var first, next := StepsFrame(body, Some(i), here + [i], think), LoopFrame(body, i + 1, repeat, here, think);
        FramesPush(first, [next] + rest);
        FramesPush(next, rest);
        assert [first] + ([next] + rest) == [first, next] + rest;
      }
  }

  /** Every step that changes a task uses up some of its work. */
  lemma {:induction false} AdvanceWorks(e: Env, t: Task, sig: Signals, choice: seq<nat>)
    requires TaskOk(e, t)
    ensures var t' := Advance(e, t, sig, choice); t' == t || Work(t') < Work(t)
    decreases t
  {
    match t
    case Running(frames, st) =>
      if frames != [] {
        FrameWorks(e, frames[0], frames[1..], st, sig);
      }
    case InFlight(h, request, here, think, frames, st) =>
    case Joining(branches, children, frames, st) =>
      if !(forall k :: 0 <= k < |children| ==> children[k].Ended?) && choice != [] && choice[0] < |children| {
        AdvanceWorks(e, children[choice[0]], sig, choice[1..]);
        WorkOfUpdate(children, choice[0], Advance(e, children[choice[0]], sig, choice[1..]));
      }
    case Ended(_) =>
  }

  /** A task that has not ended can always move. */
  lemma {:induction false} SomeChoiceMoves(e: Env, t: Task, sig: Signals) returns (choice: seq<nat>)
    requires TaskOk(e, t) && !t.Ended?
    ensures Advance(e, t, sig, choice) != t
    decreases t
  {
    choice := [];
    match t
    case Running(frames, st) =>
      if frames != [] {
        FrameWorks(e, frames[0], frames[1..], st, sig);
      }
    case InFlight(_, _, _, _, _, _) =>
    case Joining(_, children, _, _) =>
      if k :| 0 <= k < |children| && !children[k].Ended? {
        var deeper := SomeChoiceMoves(e, children[k], sig);
        choice := [k] + deeper;
        assert choice[1..] == deeper;
        assert Advance(e, t, sig, choice).children[k] != children[k];
      }
  }

  /** How many steps of a schedule change anything. */
  function Moves(e: Env, t: Task, sig: Signals, schedule: seq<seq<nat>>): nat
    requires TaskOk(e, t)
    decreases |schedule|
  {
    if schedule == [] then 0
    else
      AdvanceKeepsMeaning(e, t, sig, schedule[0]);
      var t' := Advance(e, t, sig, schedule[0]);
      (if t' == t then 0 else 1) + Moves(e, t', sig, schedule[1..])
  }

  /** No schedule moves more often than the cost of the steps allows. */
  lemma {:induction false} MovesAreBounded(e: Env, t: Task, sig: Signals, schedule: seq<seq<nat>>)
    requires TaskOk(e, t)
    ensures Moves(e, t, sig, schedule) + Work(RunAll(e, t, sig, schedule)) <= Work(t)
    decreases |schedule|
  {
    if schedule != [] {
      AdvanceKeepsMeaning(e, t, sig, schedule[0]);
      AdvanceWorks(e, t, sig, schedule[0]);
      MovesAreBounded(e, Advance(e, t, sig, schedule[0]), sig, schedule[1..]);
    }
  }

  /** From any point of any schedule the run can be brought to its end. */
  lemma {:induction false} RunCanEnd(e: Env, t: Task, sig: Signals) returns (schedule: seq<seq<nat>>)
    requires TaskOk(e, t)
    ensures RunAll(e, t, sig, schedule).Ended?
    decreases Work(t)
  {
    schedule := [];
    if !t.Ended? {
      var choice := SomeChoiceMoves(e, t, sig);
      AdvanceKeepsMeaning(e, t, sig, choice);
      AdvanceWorks(e, t, sig, choice);
      var later := RunCanEnd(e, Advance(e, t, sig, choice), sig);
      schedule := [choice] + later;
      assert schedule[1..] == later;
    }
  }

  /** Concurrency does not show: whatever order the branches move in, a run that has ended has ended
      with the outcome of the sequential interpreter; no run moves more often than the cost of its
      steps allows; and a run that has not ended can always be brought to its end. */
  lemma EveryScheduleAgrees(e: Env, steps: seq<Step>, s: St, loop: Option<nat>, sig: Signals, path: seq<nat>,
                            think: bool, schedule: seq<seq<nat>>)
    returns (rest: seq<seq<nat>>)
    requires WellFormed(e, s.gen)
    ensures var t, init := RunAll(e, Init(steps, s, loop, path, think), sig, schedule),
            Init(steps, s, loop, path, think);
            && (t.Ended? ==> t.outcome == ExecSteps(e, steps, s, loop, sig, path, think))
            && Moves(e, init, sig, schedule) <= 1 + Cost(steps)
            && TaskOk(e, t) && RunAll(e, t, sig, rest) == Ended(ExecSteps(e, steps, s, loop, sig, path, think))
  {
    hide ExecSteps;
    var init := Init(steps, s, loop, path, think);
    RunKeepsMeaning(e, init, sig, schedule);
    MeaningOfOneFrame(e, init.frames[0], s, sig);
    MovesAreBounded(e, init, sig, schedule);
    FramesPush(init.frames[0], []);
    assert init.frames == [init.frames[0]] + [] && FramesWork([]) == 0;
    var t := RunAll(e, init, sig, schedule);
    rest := RunCanEnd(e, t, sig);
    RunKeepsMeaning(e, t, sig, rest);
  }
}
