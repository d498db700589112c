/** What a run does to its variables and sends to the network, said without the interpreter's own
    functions. */
module Effects {
  import opened Options
  import opened Templates
  import opened Requests
  import opened Scenarios
  import opened Conditions
  import opened ReqGens
  import opened Iterations
  import opened LoadRuns
  import opened Traces
  import opened Renderings

  // ---------------------------------------------------------------------------------------
  // What a response writes

  /** Extraction `k` is the last that writes the variable. */
  predicate LastNamed(extract: seq<Extract>, k: nat, n: string) {
    k < |extract| && extract[k].name == n && forall j :: k < j < |extract| ==> extract[j].name != n
  }

  predicate Names(extract: seq<Extract>, n: string) {
    exists k :: 0 <= k < |extract| && extract[k].name == n
  }

  predicate AllYield(e: Env, extract: seq<Extract>, facts: string) {
    forall k :: 0 <= k < |extract| ==> e.extract(extract[k].rule, facts).Some?
  }

  /** The answer meets every assertion, and every extraction rule yields. */
  predicate Accepted(e: Env, h: HttpStep, r: Response) {
    && r.Answer? && (forall k :: 0 <= k < |h.statuses| ==> h.statuses[k] == r.status)
    && AllYield(e, h.extract, r.facts)
  }

  /** An accepted response writes to each declared name what its last rule yields, and to no other; a
      response that is not accepted writes nothing. */
  ghost predicate Writes(e: Env, h: HttpStep, r: Response, before: map<string, string>, after: map<string, string>) {
    if Accepted(e, h, r) then
      forall n :: (forall k: nat :: LastNamed(h.extract, k, n) ==>
                                      n in after && Some(after[n]) == e.extract(h.extract[k].rule, r.facts))
                  && (!Names(h.extract, n) ==> Same(after, before, n))
    else after == before
  }

  lemma NamesSplit(extract: seq<Extract>, n: string)
    requires extract != []
    ensures Names(extract, n) <==> extract[0].name == n || Names(extract[1..], n)
    ensures forall k: nat :: LastNamed(extract, k + 1, n) <==> LastNamed(extract[1..], k, n)
    ensures LastNamed(extract, 0, n) <==> extract[0].name == n && !Names(extract[1..], n)
  {
    var rest := extract[1..];
    assert forall k :: 0 <= k < |rest| ==> rest[k] == extract[k + 1];
    assert forall k :: 1 <= k < |extract| ==> extract[k] == rest[k - 1];
  }

  lemma {:induction false} ExtractsAre(e: Env, extract: seq<Extract>, facts: string, done: map<string, string>,
                                       n: string)
    ensures var r := ExtractsOnto(e, extract, facts, done);
            && (r.Some? <==> AllYield(e, extract, facts))
            && (r.Some? ==>
                  && (forall k: nat :: LastNamed(extract, k, n) ==>
                                         n in r.value && Some(r.value[n]) == e.extract(extract[k].rule, facts))
                  && (!Names(extract, n) ==> Same(r.value, done, n)))
    decreases |extract|
  {
    hide LastNamed, Names;
    if extract == [] {
      NothingNamed(n);
    } else {
      var rest := extract[1..];
      NamesSplit(extract, n);
      assert AllYield(e, extract, facts) <==> e.extract(extract[0].rule, facts).Some? && AllYield(e, rest, facts) by {
        assert forall k :: 1 <= k < |extract| ==> extract[k] == rest[k - 1];
        assert forall k :: 0 <= k < |rest| ==> rest[k] == extract[k + 1];
      }
      match e.extract(extract[0].rule, facts)
      case None =>
      case Some(v) =>
        ExtractsAre(e, rest, facts, done[extract[0].name := v], n);
        forall k: nat | LastNamed(extract, k, n) && ExtractsOnto(e, extract, facts, done).Some?
          ensures var r := ExtractsOnto(e, extract, facts, done).value;
                  k < |extract| && n in r && Some(r[n]) == e.extract(extract[k].rule, facts)
        {
          InRange(extract, k, n);
          if k > 0 {
            assert LastNamed(rest, k - 1, n) by {
              assert k == (k - 1) + 1;
            }
          }
        }
    }
  }

  lemma NothingNamed(n: string)
    ensures !Names([], n) && forall k: nat :: !LastNamed([], k, n)
  {
  }

  lemma InRange(extract: seq<Extract>, k: nat, n: string)
    requires LastNamed(extract, k, n)
    ensures k < |extract| && extract[k].name == n
  {
  }

  lemma ExtractsWrite(e: Env, extract: seq<Extract>, facts: string)
    ensures var r := Extracts(e, extract, facts);
            && (r.Some? <==> AllYield(e, extract, facts))
            && (r.Some? ==>
                  forall n :: (n in r.value <==> Names(extract, n))
                              && forall k: nat :: LastNamed(extract, k, n) ==>
                                   n in r.value && Some(r.value[n]) == e.extract(extract[k].rule, facts))
  {
    hide Names, ExtractsOnto, AllYield;
    ExtractsAre(e, extract, facts, map[], "");
    forall n
      ensures var r := Extracts(e, extract, facts);
              r.Some? ==> (n in r.value <==> Names(extract, n))
                          && forall k: nat :: LastNamed(extract, k, n) ==>
                               n in r.value && Some(r.value[n]) == e.extract(extract[k].rule, facts)
    {
      ExtractsAre(e, extract, facts, map[], n);
      SomeLast(extract, n);
    }
  }

  /** What the interpreters extract, in these terms. */
  lemma ExtractedWrites(e: Env, h: HttpStep, r: Response, before: map<string, string>)
    ensures var (values, error) := Extracted(e, h, r);
            && Writes(e, h, r, before, before + values) && (error <==> !Accepted(e, h, r))
            && (error ==> values == map[])
            && (!error ==> forall n :: n in values <==> Names(h.extract, n))
  {
    hide Names, Extracts, AllYield;
    if r.Answer? {
      ExtractsWrite(e, h.extract, r.facts);
    }
    assert before + map[] == before;
  }

  lemma {:induction false} SomeLast(extract: seq<Extract>, n: string)
    ensures Names(extract, n) ==> exists k: nat :: LastNamed(extract, k, n)
    decreases |extract|
  {
    if extract != [] {
      hide LastNamed, Names;
      NamesSplit(extract, n);
      SomeLast(extract[1..], n);
      if k: nat :| LastNamed(extract[1..], k, n) {
        assert LastNamed(extract, k + 1, n);
      }
    }
  }

  // ---------------------------------------------------------------------------------------
  // What a request step does

  /** The names that were dead stay dead, and those an accepted response wrote die. */
  ghost predicate Dies(e: Env, h: HttpStep, r: Response, before: Option<Gen>, after: Option<Gen>)
    requires WellFormed(e, before) && WellFormed(e, after)
  {
    && (before.Some? <==> after.Some?)
    && (before.Some? ==>
          && after.value.rng == before.value.rng
          && forall i :: 0 <= i < |e.plan.names| ==>
                           (after.value.dead[i]
                            <==> before.value.dead[i] || (Accepted(e, h, r) && Names(h.extract, e.plan.names[i]))))
  }

  /** A request step of a load run: it fails exactly if its request cannot be built from the refreshed
      variables.  Otherwise it sends that one request, and its response writes the declared names of an
      accepted answer and nothing else. */
  lemma HttpEffect(e: Env, h: HttpStep, s: St, loop: Option<nat>, sig: Signals, here: seq<nat>, think: bool)
    requires WellFormed(e, s.gen)
    ensures var s1, o := RefreshFor(e, s, h.id), ExecHttp(e, h, s, loop, sig, here, think);
            match Build(h.request, ContextOf(e, s1, loop), e.lib)
            case Err(x) => o == Failed(x)
            case Ok(request) =>
              && o.Done? && o.st.sent == s.sent + [request]
              && Writes(e, h, e.respond(h, request), s1.vars, o.st.vars)
              && Dies(e, h, e.respond(h, request), s1.gen, o.st.gen)
              && (o.flow.Continue? <==> (h.think || think) ==> sig(here + [0]) == Go)
  {
    hide Build, Extracted, Writes, Accepted, Names, RefreshFor;
    var s1 := RefreshFor(e, s, h.id);
    RefreshSendsNothing(e, s, h.id);
    match Build(h.request, ContextOf(e, s1, loop), e.lib)
    case Err(_) =>
    case Ok(request) => ExtractedWrites(e, h, e.respond(h, request), s1.vars);
  }

  lemma RefreshSendsNothing(e: Env, s: St, id: string)
    requires WellFormed(e, s.gen)
    ensures RefreshFor(e, s, id).sent == s.sent
  {
  }

  /** The same step of a trace always sends; an answer to a request with a header missing writes
      nothing.  The row shows the step, the loop index, the request, the names without a value, what
      was written and whether something went wrong. */
  lemma TraceEffect(e: Env, h: HttpStep, p: Pass, loop: Option<nat>, opts: Opts, late: Clock, here: seq<nat>,
                    think: bool)
    requires WellFormed(e, p.st.gen)
    ensures var s1, q := RefreshFor(e, p.st, h.id), TraceHttp(e, h, p, loop, opts, late, here, think);
            var t := BuildTraced(h.request, TraceContext(e, s1, loop), e.lib);
            var response := if t.badHeader.Some? then SendFailed else e.respond(h, t.sent);
            && q.st.sent == p.st.sent + [t.sent] && q.requests == p.requests + 1
            && Writes(e, h, response, s1.vars, q.st.vars) && Dies(e, h, response, s1.gen, q.st.gen)
            && |q.rows| == |p.rows| + 1 && q.rows[..|p.rows|] == p.rows
            && var row := q.rows[|p.rows|];
               && row.HttpRow? && row.id == h.id && row.loop == loop && row.request == t.sent
               && row.unbound == t.unbound && (row.buildError <==> t.badHeader.Some?)
               && (row.error <==> !Accepted(e, h, response)) && Writes(e, h, response, map[], row.extracted)
  {
    hide BuildTraced, Extracted, Writes, Accepted, Names, RefreshFor, RequestTrouble;
    var s1 := RefreshFor(e, p.st, h.id);
    RefreshSendsNothing(e, p.st, h.id);
    var t := BuildTraced(h.request, TraceContext(e, s1, loop), e.lib);
    var response := if t.badHeader.Some? then SendFailed else e.respond(h, t.sent);
    NothingFromFailure(e, h);
    ExtractedWrites(e, h, response, s1.vars);
    ExtractedWrites(e, h, response, map[]);
    assert map[] + Extracted(e, h, response).0 == Extracted(e, h, response).0;
  }

  lemma NothingFromFailure(e: Env, h: HttpStep)
    ensures Extracted(e, h, SendFailed) == (map[], true)
  {
  }

  // ---------------------------------------------------------------------------------------
  // What a refresh draws

  /** The values are drawn one after the other, each from the state the one before left. */
  ghost predicate Chain(src: Source, dead: seq<bool>, targets: seq<nat>, states: seq<Rng>)
    requires forall k :: 0 <= k < |targets| ==> targets[k] < |dead|
  {
    && |states| == |targets| + 1
    && forall k :: 0 <= k < |targets| ==>
                     states[k + 1] == if dead[targets[k]] then states[k] else src.draw(targets[k], states[k]).1
  }

  lemma {:induction false} DrawsAreAChain(src: Source, plan: Plan, dead: seq<bool>, targets: seq<nat>, rng: Rng,
                                          vars: map<string, string>) returns (states: seq<Rng>)
    requires plan.Valid() && |dead| == |plan.names| && forall k :: 0 <= k < |targets| ==> targets[k] < |dead|
    requires forall j, k :: 0 <= j < k < |targets| ==> targets[j] != targets[k]
    ensures var d := Draw(src, plan, dead, targets, rng);
            && Chain(src, dead, targets, states) && states[0] == rng && d.rng == states[|targets|]
            && forall k :: 0 <= k < |targets| && !dead[targets[k]] ==>
                             var n, w := plan.names[targets[k]], Overwrite(vars, d.writes);
                             n in w && w[n] == src.draw(targets[k], states[k]).0
    decreases |targets|
  {
    if targets == [] {
      states := [rng];
    } else {
      var i, rest := targets[0], targets[1..];
      var (v, rng') := if dead[i] then ("", rng) else src.draw(i, rng);
      var vars' := if dead[i] then vars else vars[plan.names[i] := v];
      var d, d' := Draw(src, plan, dead, targets, rng), Draw(src, plan, dead, rest, rng');
      assert forall k :: 0 <= k < |rest| ==> rest[k] == targets[k + 1];
      var tail := DrawsAreAChain(src, plan, dead, rest, rng', vars');
      states := [rng] + tail;
      assert Overwrite(vars, d.writes) == Overwrite(vars', d'.writes) by {
        assert !dead[i] ==> d.writes[1..] == d'.writes;
      }
      RefreshTouchesOnlyLiveTargets(src, plan, dead, rest, rng', vars', plan.names[i]);
      forall k | 0 <= k < |targets|
        ensures states[k + 1] == if dead[targets[k]] then states[k] else src.draw(targets[k], states[k]).1
        ensures var n, w := plan.names[targets[k]], Overwrite(vars, d.writes);
                !dead[targets[k]] ==> n in w && w[n] == src.draw(targets[k], states[k]).0
      {
        assert k > 0 ==> targets[k] == rest[k - 1] && states[k] == tail[k - 1];
      }
    }
  }

  /** Before a request every live target of its step takes a value drawn for it, in the order of the
      plan, each from the generator state the one before left; every other variable and every dead flag
      stays. */
  lemma RefreshDraws(e: Env, s: St, id: string) returns (states: seq<Rng>)
    requires WellFormed(e, s.gen) && s.gen.Some? && InOrder(e.plan)
    ensures var g, targets, s1 := s.gen.value, e.plan.Targets(id), RefreshFor(e, s, id);
            && Chain(e.src, g.dead, targets, states) && states[0] == g.rng
            && s1.gen == Some(Gen(g.dead, states[|targets|]))
            && (forall k :: 0 <= k < |targets| && !g.dead[targets[k]] ==>
                              var n := e.plan.names[targets[k]];
                              n in s1.vars && s1.vars[n] == e.src.draw(targets[k], states[k]).0)
            && forall n :: (forall k :: 0 <= k < |targets| && e.plan.names[targets[k]] == n ==> g.dead[targets[k]]) ==>
                             Same(s1.vars, s.vars, n)
  {
    hide Draw, Overwrite, Chain;
    var g, targets := s.gen.value, e.plan.Targets(id);
    states := DrawsAreAChain(e.src, e.plan, g.dead, targets, g.rng, s.vars);
    forall n | forall k :: 0 <= k < |targets| && e.plan.names[targets[k]] == n ==> g.dead[targets[k]]
      ensures Same(RefreshFor(e, s, id).vars, s.vars, n)
    {
      RefreshTouchesOnlyLiveTargets(e.src, e.plan, g.dead, targets, g.rng, s.vars, n);
    }
  }

  /** Branches get generator states of their own, seeded one after the other from the parent's, each
      with the parent's dead flags. */
  lemma {:induction false} ForksAreAChain(e: Env, g: Option<Gen>, n: nat) returns (states: seq<Rng>)
    requires WellFormed(e, g) && g.Some?
    ensures var (gens, after) := ForkAll(e, g, n);
            && |states| == n + 1 && states[0] == g.value.rng
            && (forall k :: 0 <= k < n ==>
                              && gens[k] == Some(Gen(g.value.dead, e.src.fork(states[k]).0))
                              && states[k + 1] == e.src.fork(states[k]).1)
            && after == Some(Gen(g.value.dead, states[n]))
    decreases n
  {
    if n == 0 {
      states := [g.value.rng];
    } else {
      var (_, rng) := e.src.fork(g.value.rng);
      var tail := ForksAreAChain(e, Some(g.value.(rng := rng)), n - 1);
      states := [g.value.rng] + tail;
      assert forall k :: 1 <= k < n + 1 ==> states[k] == tail[k - 1];
    }
  }

  // ---------------------------------------------------------------------------------------
  // What a condition shows in a trace

  /** The first row an `if` adds to a trace shows the branch whose condition holds first, and, each once,
      exactly the names that have no value in some text of its conditions. */
  lemma IfRowShows(e: Env, step: Step, p: Pass, loop: Option<nat>, opts: Opts, late: Clock, here: seq<nat>,
                   think: bool, n: string)
    requires WellFormed(e, p.st.gen) && step.If? && !p.truncated && p.requests < opts.maxRequests
    ensures var q := TraceStep(e, step, p, loop, opts, late, here, think);
            && |p.rows| < |q.rows| && p.rows == q.rows[..|p.rows|]
            && var row, ctx := q.rows[|p.rows|], TraceContext(e, p.st, loop);
               && row.IfRow? && row.id == step.id && row.loop == loop
               && (row.branch == Then <==> EvalCondition(step.cond, ctx, e.oracle))
               && (forall k :: row.branch == ElifAt(k)
                               <==> !EvalCondition(step.cond, ctx, e.oracle)
                                    && IsFirstElif(step.elifs, ctx, e.oracle, k))
               && (row.branch == NoBranch ==> step.els == []) && (row.branch == Else ==> step.els != [])
               && (n in row.unbound
                   <==> exists i :: 0 <= i < |IfTexts(step)| && n in Missing(IfTexts(step)[i], ctx))
               && forall i, j :: 0 <= i < j < |row.unbound| ==> row.unbound[i] != row.unbound[j]
  {
    hide TraceSteps, EvalCondition, IfTexts, Missing, MissingIn, Dedup;
    var ctx := TraceContext(e, p.st, loop);
    var sel := Select(step, ctx, e.oracle);
    var row := IfRow(step.id, loop, sel.branch, IfUnbound(step, ctx));
    StepsGrow(e, sel.steps, p.(rows := p.rows + [row]), loop, opts, late, here, think);
    DedupKeepsNames(MissingIn(IfTexts(step), ctx), {}, n);
    MissingInTexts(IfTexts(step), ctx, n);
  }

  // ---------------------------------------------------------------------------------------
  // What a tree of steps can do

  /** The request is built for step `h` from some state of the run. */
  ghost predicate BuildsFrom(e: Env, h: HttpStep, s: St, loop: Option<nat>, r: Result<Request, RenderError>) {
    WellFormed(e, s.gen) && Build(h.request, ContextOf(e, RefreshFor(e, s, h.id), loop), e.lib) == r
  }

  ghost predicate BuiltBy(e: Env, https: seq<HttpStep>, r: Result<Request, RenderError>) {
    exists h, s, loop :: h in https && BuildsFrom(e, h, s, loop, r)
  }

  /** Every request sent since, and the failure if there is one, comes from building the request of one of
      these steps. */
  ghost predicate SendsOnly(e: Env, https: seq<HttpStep>, s: St, o: Outcome) {
    match o
    case Failed(x) => BuiltBy(e, https, Err(x))
    case Done(_, t) =>
      s.sent <= t.sent && forall k :: |s.sent| <= k < |t.sent| ==> BuiltBy(e, https, Ok(t.sent[k]))
  }

  /** Every extraction since writes only these names. */
  ghost predicate ExtractsOnly(names: seq<string>, s: St, o: Outcome) {
    o.Done? ==>
      && s.log <= o.st.log
      && forall k, n :: |s.log| <= k < |o.st.log| && o.st.log[k].writer == Extraction && n in o.st.log[k].values ==>
                          n in names
  }

  ghost predicate StaysWithin(e: Env, https: seq<HttpStep>, names: seq<string>, s: St, o: Outcome) {
    SendsOnly(e, https, s, o) && ExtractsOnly(names, s, o)
  }

  lemma Wider(e: Env, https: seq<HttpStep>, more: seq<HttpStep>, names: seq<string>, names': seq<string>, s: St,
              o: Outcome)
    requires StaysWithin(e, https, names, s, o)
    requires (forall h :: h in https ==> h in more) && (forall n :: n in names ==> n in names')
    ensures StaysWithin(e, more, names', s, o)
  {
    hide BuildsFrom;
  }

  lemma AndThen(e: Env, https: seq<HttpStep>, names: seq<string>, s: St, first: Outcome, second: Outcome)
    requires first.Done? && StaysWithin(e, https, names, s, first) && StaysWithin(e, https, names, first.st, second)
    ensures StaysWithin(e, https, names, s, second)
  {
    hide BuiltBy;
  }

  lemma {:induction false} NamesAreIn(extract: seq<Extract>, n: string)
    ensures n in ExtractNames(extract) <==> Names(extract, n)
  {
    if extract != [] {
      hide Names;
      NamesSplit(extract, n);
      NamesAreIn(extract[1..], n);
    } else {
      NothingNamed(n);
    }
  }

  lemma HttpStaysWithin(e: Env, h: HttpStep, s: St, loop: Option<nat>, sig: Signals, here: seq<nat>, think: bool)
    requires WellFormed(e, s.gen)
    ensures StaysWithin(e, [h], ExtractNames(h.extract), s, ExecHttp(e, h, s, loop, sig, here, think))
  {
    hide Build, Extracted, Accepted, Names, BuiltBy, Draw, Overwrite, Writes;
    var s1, o := RefreshFor(e, s, h.id), ExecHttp(e, h, s, loop, sig, here, think);
    RefreshSendsNothing(e, s, h.id);
    var r := Build(h.request, ContextOf(e, s1, loop), e.lib);
    BuiltHere(e, h, s, loop);
    if r.Ok? {
      ExtractedWrites(e, h, e.respond(h, r.value), s1.vars);
      forall n
        ensures n in ExtractNames(h.extract) <==> Names(h.extract, n)
      {
        NamesAreIn(h.extract, n);
      }
    }
  }

  lemma BuiltHere(e: Env, h: HttpStep, s: St, loop: Option<nat>)
    requires WellFormed(e, s.gen)
    ensures BuiltBy(e, [h], Build(h.request, ContextOf(e, RefreshFor(e, s, h.id), loop), e.lib))
  {
    assert BuildsFrom(e, h, s, loop, Build(h.request, ContextOf(e, RefreshFor(e, s, h.id), loop), e.lib));
  }

  /** The parts of a list of steps. */
  lemma FirstIsPart(steps: seq<Step>)
    requires steps != []
    ensures HttpSteps(steps) == HttpSteps([steps[0]]) + HttpSteps(steps[1..])
    ensures OutputNames(steps) == OutputNames([steps[0]]) + OutputNames(steps[1..])
  {
    HttpStepsSplit(steps, steps[0], steps[1..]);
    OutputNamesSplit(steps, steps[0], steps[1..]);
  }

  lemma HttpStepsSplit(steps: seq<Step>, first: Step, rest: seq<Step>)
    requires steps == [first] + rest
    ensures HttpSteps(steps) == HttpSteps([first]) + HttpSteps(rest)
  {
    hide ElifHttpSteps, BranchHttpSteps;
    assert steps[1..] == rest && [first][1..] == [] && HttpSteps([]) == [];
    match first
    case Http(_) =>
    case Loop(_, _, _) =>
    case If(_, _, _, _, _) =>
    case Parallel(_, _) =>
  }

  lemma OutputNamesSplit(steps: seq<Step>, first: Step, rest: seq<Step>)
    requires steps == [first] + rest
    ensures OutputNames(steps) == OutputNames([first]) + OutputNames(rest)
  {
    hide ElifNames, ExtractNames;
    assert steps[1..] == rest && [first][1..] == [] && OutputNames([]) == [];
  }

  lemma {:induction false} ElifIsPart(elifs: seq<Elif>, k: nat)
    requires k < |elifs|
    ensures forall h :: h in HttpSteps(elifs[k].thn) ==> h in ElifHttpSteps(elifs)
    ensures forall n :: n in OutputNames(elifs[k].thn) ==> n in ElifNames(elifs)
    decreases k
  {
    hide HttpSteps, OutputNames;
    if k > 0 {
      ElifIsPart(elifs[1..], k - 1);
    }
  }

  lemma SelectedIsPart(step: Step, ctx: Context, o: Oracle)
    requires step.If?
    ensures var taken := Select(step, ctx, o).steps;
            && (forall h :: h in HttpSteps(taken) ==> h in HttpSteps([step]))
            && (forall n :: n in OutputNames(taken) ==> n in OutputNames([step]))
  {
    hide EvalCondition;
    assert [step][1..] == [] && HttpSteps([]) == [] && OutputNames([]) == [];
    if !EvalCondition(step.cond, ctx, o) {
      var k := FirstElif(step.elifs, ctx, o);
      if k < |step.elifs| {
        ElifIsPart(step.elifs, k);
      }
    }
  }

  lemma {:induction false} BranchIsPart(branches: seq<Branch>, k: nat)
    requires k < |branches|
    ensures forall h :: h in HttpSteps(branches[k].steps) ==> h in BranchHttpSteps(branches)
    decreases k
  {
    hide HttpSteps;
    if k > 0 {
      BranchIsPart(branches[1..], k - 1);
    }
  }

  lemma {:induction false} ExposeOnlyMerges(e: Env, s: St, branch: string, names: seq<string>,
                                            vars: map<string, string>)
    requires WellFormed(e, s.gen)
    ensures var r := Expose(e, s, branch, names, vars);
            s.log <= r.log && forall k :: |s.log| <= k < |r.log| ==> r.log[k].writer == Merge
    decreases |names|
  {
    if names != [] {
      var s' := if names[0] in vars then Commit(e, s, map[Exposed(branch, names[0]) := vars[names[0]]], Merge) else s;
      ExposeOnlyMerges(e, s', branch, names[1..], vars);
    }
  }

  lemma MergeBranchStaysWithin(e: Env, https: seq<HttpStep>, s: St, b: Branch, start: St, run: Outcome)
    requires WellFormed(e, s.gen) && run.Done? && start.sent == [] && SendsOnly(e, https, start, run)
    ensures StaysWithin(e, https, [], s, Done(Continue, MergeBranch(e, s, b, run.st)))
  {
    hide BuiltBy, Expose, OutputNames;
    var s1 := s.(sent := s.sent + run.st.sent);
    ExposeOnlyMerges(e, s1, b.name, OutputNames(b.steps), run.st.vars);
    var t := MergeBranch(e, s, b, run.st);
    assert forall k :: |s.sent| <= k < |t.sent| ==> t.sent[k] == run.st.sent[k - |s.sent|];
  }

  lemma {:induction false} MergeStaysWithin(e: Env, https: seq<HttpStep>, s: St, branches: seq<Branch>,
                                            starts: seq<St>, runs: seq<Outcome>, worst: Flow)
    requires WellFormed(e, s.gen) && |runs| == |branches| == |starts|
    requires forall k :: 0 <= k < |runs| ==> starts[k].sent == [] && SendsOnly(e, https, starts[k], runs[k])
    ensures StaysWithin(e, https, [], s, MergeAll(e, s, branches, runs, worst))
    decreases |runs|
  {
    hide SendsOnly, ExtractsOnly, MergeBranch;
    if runs == [] {
      NothingDone(e, https, [], s, worst);
    } else if runs[0].Failed? {
      FailedAs(e, https, starts[0], s, runs[0]);
    } else {
      var s' := MergeBranch(e, s, branches[0], runs[0].st);
      MergeBranchStaysWithin(e, https, s, branches[0], starts[0], runs[0]);
      MergeStaysWithin(e, https, s', branches[1..], starts[1..], runs[1..], Worse(worst, runs[0].flow));
      AndThen(e, https, [], s, Done(Continue, s'), MergeAll(e, s, branches, runs, worst));
    }
  }

  lemma NothingDone(e: Env, https: seq<HttpStep>, names: seq<string>, s: St, flow: Flow)
    ensures StaysWithin(e, https, names, s, Done(flow, s))
  {
  }

  lemma FailedAs(e: Env, https: seq<HttpStep>, start: St, s: St, o: Outcome)
    requires o.Failed? && SendsOnly(e, https, start, o)
    ensures StaysWithin(e, https, [], s, o)
  {
  }

  /** A run sends only requests of the steps in the tree, wherever they are nested, and fails only on one
      of them; and its own extractions, those of nested parallel steps aside, write only the names a
      branch of these steps exposes. */
  lemma {:induction false} StepsStayWithin(e: Env, steps: seq<Step>, s: St, loop: Option<nat>, sig: Signals,
                                           path: seq<nat>, think: bool)
    requires WellFormed(e, s.gen)
    ensures StaysWithin(e, HttpSteps(steps), OutputNames(steps), s, ExecSteps(e, steps, s, loop, sig, path, think))
    decreases steps, 0, 0
  {
    hide StaysWithin, HttpSteps, OutputNames, ExecStep;
    var https, names, here := HttpSteps(steps), OutputNames(steps), path + [|steps|];
    if steps == [] || sig(here) != Go {
      NothingDone(e, https, names, s, ExecSteps(e, steps, s, loop, sig, path, think).flow);
    } else {
      FirstIsPart(steps);
      StepStaysWithin(e, steps[0], s, loop, sig, here, think);
      var o := ExecStep(e, steps[0], s, loop, sig, here, think);
      Wider(e, HttpSteps([steps[0]]), https, OutputNames([steps[0]]), names, s, o);
      if GoesOn(o) {
        var o' := ExecSteps(e, steps[1..], o.st, loop, sig, path, think);
        StepsStayWithin(e, steps[1..], o.st, loop, sig, path, think);
        Wider(e, HttpSteps(steps[1..]), https, OutputNames(steps[1..]), names, o.st, o');
        AndThen(e, https, names, s, o, o');
      }
    }
  }

  lemma {:induction false} StepStaysWithin(e: Env, step: Step, s: St, loop: Option<nat>, sig: Signals, here: seq<nat>,
                                           think: bool)
    requires WellFormed(e, s.gen)
    ensures StaysWithin(e, HttpSteps([step]), OutputNames([step]), s, ExecStep(e, step, s, loop, sig, here, think))
    decreases step, 1, 0
  {
    hide StaysWithin, ExecSteps, ExecLoop, ExecHttp, MergeAll, ExecBranches;
    assert [step][1..] == [] && HttpSteps([]) == [] && OutputNames([]) == [];
    match step
    case Http(h) =>
      HttpStaysWithin(e, h, s, loop, sig, here, think);
      assert HttpSteps([step]) == [h] && OutputNames([step]) == ExtractNames(h.extract);
    case Loop(_, repeat, body) =>
      LoopStaysWithin(e, body, s, 0, repeat, sig, here, think);
      assert HttpSteps([step]) == HttpSteps(body) && OutputNames([step]) == OutputNames(body);
    case If(_, _, _, _, _) =>
      var taken := Select(step, ContextOf(e, s, loop), e.oracle).steps;
      SelectedIsPart(step, ContextOf(e, s, loop), e.oracle);
      StepsStayWithin(e, taken, s, loop, sig, here, think);
      Wider(e, HttpSteps(taken), HttpSteps([step]), OutputNames(taken), OutputNames([step]), s,
            ExecSteps(e, taken, s, loop, sig, here, think));
    case Parallel(_, _) => ParallelStaysWithin(e, step, s, loop, sig, here, think);
  }

  lemma {:induction false} ParallelStaysWithin(e: Env, step: Step, s: St, loop: Option<nat>, sig: Signals,
                                               here: seq<nat>, think: bool)
    requires WellFormed(e, s.gen) && step.Parallel?
    ensures StaysWithin(e, HttpSteps([step]), OutputNames([step]), s, ExecStep(e, step, s, loop, sig, here, think))
    decreases step, 0, 0
  {
    hide StaysWithin, ExecSteps, MergeAll, ExecBranches;
    assert [step][1..] == [] && HttpSteps([]) == [] && OutputNames([]) == [];
    var branches := step.branches;
    var (gens, g) := ForkAll(e, s.gen, |branches|);
    var starts := seq(|branches|, k requires 0 <= k < |branches| => Enter(s, gens[k]));
    var runs := ExecBranches(e, branches, s, gens, loop, sig, here);
    assert HttpSteps([step]) == BranchHttpSteps(branches) && OutputNames([step]) == [];
    forall k | 0 <= k < |runs|
      ensures SendsOnly(e, HttpSteps([step]), starts[k], runs[k])
    {
      BranchesAreIsolated(e, branches, s, gens, loop, sig, here, k);
      StepsStayWithin(e, branches[k].steps, starts[k], loop, sig, here + [|branches| - k], false);
      BranchIsPart(branches, k);
      SendsMore(e, HttpSteps(branches[k].steps), HttpSteps([step]), OutputNames(branches[k].steps), starts[k],
                runs[k]);
    }
    MergeStaysWithin(e, HttpSteps([step]), s.(gen := g), branches, starts, runs, Continue);
    SameLogAndSent(e, HttpSteps([step]), s, g, ExecStep(e, step, s, loop, sig, here, think));
  }

  lemma SendsMore(e: Env, https: seq<HttpStep>, more: seq<HttpStep>, names: seq<string>, s: St, o: Outcome)
    requires StaysWithin(e, https, names, s, o) && forall h :: h in https ==> h in more
    ensures SendsOnly(e, more, s, o)
  {
    Wider(e, https, more, names, names, s, o);
  }

  lemma SameLogAndSent(e: Env, https: seq<HttpStep>, s: St, g: Option<Gen>, o: Outcome)
    requires StaysWithin(e, https, [], s.(gen := g), o)
    ensures StaysWithin(e, https, [], s, o)
  {
  }

  lemma {:induction false} LoopStaysWithin(e: Env, body: seq<Step>, s: St, i: nat, repeat: nat, sig: Signals,
                                           here: seq<nat>, think: bool)
    requires WellFormed(e, s.gen)
    ensures StaysWithin(e, HttpSteps(body), OutputNames(body), s, ExecLoop(e, body, s, i, repeat, sig, here, think))
    decreases body, 1, repeat - i
  {
    hide StaysWithin, ExecSteps, HttpSteps, OutputNames;
    if i >= repeat || sig(here + [i]) != Go {
      NothingDone(e, HttpSteps(body), OutputNames(body), s, ExecLoop(e, body, s, i, repeat, sig, here, think).flow);
    } else {
      StepsStayWithin(e, body, s, Some(i), sig, here + [i], think);
      var o := ExecSteps(e, body, s, Some(i), sig, here + [i], think);
      if GoesOn(o) {
        LoopStaysWithin(e, body, o.st, i + 1, repeat, sig, here, think);
        AndThen(e, HttpSteps(body), OutputNames(body), s, o, ExecLoop(e, body, o.st, i + 1, repeat, sig, here, think));
      }
    }
  }

  // ---------------------------------------------------------------------------------------
  // What a branch extracts reaches its parent

  lemma {:induction false} InReplay(log: seq<Write>, q: nat, n: string)
    requires q < |log| && n in log[q].values
    ensures n in Replay(log)
    decreases |log|
  {
    if q < |log| - 1 {
      InReplay(log[..|log| - 1], q, n);
    }
  }

  lemma {:induction false} LastOfferFrom(branches: seq<Branch>, runs: seq<Outcome>, key: string, k: nat)
    requires k < |runs| == |branches| && runs[k].Done?
    requires OfferedIn(branches[k].name, OutputNames(branches[k].steps), runs[k].st.vars, key).Some?
    ensures LastOffer(branches, runs, key).Some?
    ensures (forall j :: k < j < |runs| && runs[j].Done? ==>
                           OfferedIn(branches[j].name, OutputNames(branches[j].steps), runs[j].st.vars, key).None?) ==>
              LastOffer(branches, runs, key)
              == OfferedIn(branches[k].name, OutputNames(branches[k].steps), runs[k].st.vars, key)
    decreases |runs|
  {
    hide OfferedIn, OutputNames;
    if k > 0 {
      LastOfferFrom(branches[1..], runs[1..], key, k - 1);
    } else {
      NothingOffered(branches[1..], runs[1..], key);
    }
  }

  lemma {:induction false} NothingOffered(branches: seq<Branch>, runs: seq<Outcome>, key: string)
    requires |runs| == |branches|
    ensures (forall j :: 0 <= j < |runs| && runs[j].Done? ==>
                           OfferedIn(branches[j].name, OutputNames(branches[j].steps), runs[j].st.vars, key).None?) ==>
              LastOffer(branches, runs, key).None?
    decreases |runs|
  {
    hide OfferedIn, OutputNames;
    if runs != [] {
      NothingOffered(branches[1..], runs[1..], key);
    }
  }

  /** Whatever a branch extracts, at any depth outside a nested parallel step, its parent has after the
      parallel step under the branch's name, unless a later branch writes the same key. */
  lemma ExtractionsAreExposed(e: Env, step: Step, s: St, loop: Option<nat>, sig: Signals, here: seq<nat>, think: bool,
                              k: nat, q: nat, n: string)
    requires Provenance(e, s) && step.Parallel? && k < |step.branches|
    requires var runs := ExecBranches(e, step.branches, s, ForkAll(e, s.gen, |step.branches|).0, loop, sig, here);
             && runs[k].Done? && |s.log| <= q < |runs[k].st.log|
             && runs[k].st.log[q].writer == Extraction && n in runs[k].st.log[q].values
    ensures var runs := ExecBranches(e, step.branches, s, ForkAll(e, s.gen, |step.branches|).0, loop, sig, here);
            var o, key := ExecStep(e, step, s, loop, sig, here, think), Exposed(step.branches[k].name, n);
            o.Done? ==>
              && n in runs[k].st.vars && key in o.st.vars
              && ((forall j :: k < j < |runs| && runs[j].Done? ==>
                                 OfferedIn(step.branches[j].name, OutputNames(step.branches[j].steps), runs[j].st.vars,
                                           key).None?) ==>
                    o.st.vars[key] == runs[k].st.vars[n])
  {
    hide ExecStep, ExecSteps, ExecBranches, OutputNames, LastOffer, ForkAll, Replay, LastWriter;
    var branches := step.branches;
    var gens := ForkAll(e, s.gen, |branches|).0;
    var runs := ExecBranches(e, branches, s, gens, loop, sig, here);
    var key := Exposed(branches[k].name, n);
    BranchesAreIsolated(e, branches, s, gens, loop, sig, here, k);
    StepsStayWithin(e, branches[k].steps, Enter(s, gens[k]), loop, sig, here + [|branches| - k], false);
    BranchKeepsProvenance(e, branches, s, loop, sig, here, k);
    InReplay(runs[k].st.log, q, n);
    ExposedKey(branches[k].name, n, key);
    LastOfferFrom(branches, runs, key, k);
    ParallelWritesOnlyOffers(e, step, s, loop, sig, here, think, key);
  }

  // ---------------------------------------------------------------------------------------
  // Rounds and stops

  /** Step `k` of the list was told to go on, and led from its state to the next. */
  ghost predicate RanStep(e: Env, steps: seq<Step>, states: seq<St>, k: nat, loop: Option<nat>, sig: Signals,
                          path: seq<nat>, think: bool)
    requires k < |steps| < |states|
  {
    var look := path + [|steps| - k];
    && WellFormed(e, states[k].gen) && sig(look) == Go
    && ExecStep(e, steps[k], states[k], loop, sig, look, think) == Done(Continue, states[k + 1])
  }

  /** A list of steps that goes on to its end was told to go on before every step, and has run each, in
      order, from the state the one before left. */
  lemma {:induction false} StepsRun(e: Env, steps: seq<Step>, s: St, loop: Option<nat>, sig: Signals, path: seq<nat>,
                                    think: bool) returns (states: seq<St>)
    requires WellFormed(e, s.gen) && GoesOn(ExecSteps(e, steps, s, loop, sig, path, think))
    ensures |states| == |steps| + 1 && states[0] == s
    ensures states[|steps|] == ExecSteps(e, steps, s, loop, sig, path, think).st
    ensures forall k :: 0 <= k < |steps| ==> RanStep(e, steps, states, k, loop, sig, path, think)
    decreases |steps|
  {
    hide ExecStep;
    states := [s];
    if steps != [] {
      var o := ExecStep(e, steps[0], s, loop, sig, path + [|steps|], think);
      var later := steps[1..];
      var rest := StepsRun(e, later, o.st, loop, sig, path, think);
      states := [s] + rest;
      forall k | 0 <= k < |steps|
        ensures RanStep(e, steps, states, k, loop, sig, path, think)
      {
        if k > 0 {
          assert RanStep(e, later, rest, k - 1, loop, sig, path, think);
          assert states[k] == rest[k - 1] && states[k + 1] == rest[k] && steps[k] == later[k - 1];
          assert |steps| - k == |later| - (k - 1);
        }
      }
    }
  }

  /** The round with index `i` was told to go on, and led from `s` to `t`. */
  ghost predicate RanRound(e: Env, body: seq<Step>, i: nat, s: St, t: St, sig: Signals, here: seq<nat>, think: bool) {
    && WellFormed(e, s.gen) && sig(here + [i]) == Go
    && ExecSteps(e, body, s, Some(i), sig, here + [i], think) == Done(Continue, t)
  }

  /** A loop that goes on has run its body once for each index, in order, each round from the state the
      one before left. */
  lemma {:induction false} LoopRuns(e: Env, body: seq<Step>, s: St, i: nat, repeat: nat, sig: Signals, here: seq<nat>,
                                    think: bool) returns (states: seq<St>)
    requires WellFormed(e, s.gen) && i <= repeat && GoesOn(ExecLoop(e, body, s, i, repeat, sig, here, think))
    ensures |states| == repeat - i + 1 && states[0] == s
    ensures states[repeat - i] == ExecLoop(e, body, s, i, repeat, sig, here, think).st
    ensures forall k :: 0 <= k < repeat - i ==>
                          RanRound(e, body, i + k, states[k], states[k + 1], sig, here, think)
    decreases repeat - i
  {
    hide ExecSteps;
    states := [s];
    if i < repeat {
      var o := ExecSteps(e, body, s, Some(i), sig, here + [i], think);
      var rest := LoopRuns(e, body, o.st, i + 1, repeat, sig, here, think);
      states := [s] + rest;
      forall k | 0 <= k < repeat - i
        ensures RanRound(e, body, i + k, states[k], states[k + 1], sig, here, think)
      {
        if k > 0 {
          assert RanRound(e, body, i + 1 + (k - 1), rest[k - 1], rest[k], sig, here, think);
          assert i + 1 + (k - 1) == i + k;
        }
      }
    }
  }

  predicate AnyFlow(runs: seq<Outcome>, flow: Flow) {
    exists k :: 0 <= k < |runs| && runs[k].Done? && runs[k].flow == flow
  }

  lemma AnyFlowSplit(runs: seq<Outcome>, flow: Flow)
    requires runs != []
    ensures AnyFlow(runs, flow) <==> (runs[0].Done? && runs[0].flow == flow) || AnyFlow(runs[1..], flow)
  {
    var rest := runs[1..];
    assert forall k :: 0 <= k < |rest| ==> rest[k] == runs[k + 1];
    assert forall k :: 1 <= k < |runs| ==> runs[k] == rest[k - 1];
  }

  /** Merging ends aborted if some branch was aborted, else at the deadline if some branch met it, else it
      goes on; it fails exactly if some branch failed. */
  lemma {:induction false} WorstBranchWins(e: Env, s: St, branches: seq<Branch>, runs: seq<Outcome>, worst: Flow)
    requires WellFormed(e, s.gen) && |runs| == |branches|
    ensures var o := MergeAll(e, s, branches, runs, worst);
            && (o.Failed? <==> exists k :: 0 <= k < |runs| && runs[k].Failed?)
            && (o.Done? ==>
                  && (o.flow == Aborted <==> worst == Aborted || AnyFlow(runs, Aborted))
                  && (o.flow == Continue
                      <==> worst == Continue && !AnyFlow(runs, Aborted) && !AnyFlow(runs, DeadlineReached)))
    decreases |runs|
  {
    hide MergeBranch, AnyFlow;
    if runs == [] {
      NoFlow();
    } else if runs[0].Done? {
      var rest := runs[1..];
      AnyFlowSplit(runs, Aborted);
      AnyFlowSplit(runs, DeadlineReached);
      WorstBranchWins(e, MergeBranch(e, s, branches[0], runs[0].st), branches[1..], rest, Worse(worst, runs[0].flow));
      if k :| 0 <= k < |rest| && rest[k].Failed? {
        assert runs[k + 1].Failed?;
      }
      if k :| 0 <= k < |runs| && runs[k].Failed? {
        assert rest[k - 1].Failed?;
      }
    }
  }

  lemma NoFlow()
    ensures forall flow :: !AnyFlow([], flow)
  {
  }

  /** A run that stops was told to. */
  ghost predicate Caused(sig: Signals, o: Outcome) {
    o.Done? ==>
      && (o.flow == DeadlineReached ==> exists path :: sig(path) == Late)
      && (o.flow == Aborted ==> exists path :: sig(path) == Cancelled)
  }

  /** A run ends at the deadline only if some look found it late, and aborted only if some look found it
      cancelled; so a run that is always told to go on ends at its end, or fails to build a request. */
  lemma {:induction false} StopsHaveCauses(e: Env, steps: seq<Step>, s: St, loop: Option<nat>, sig: Signals,
                                           path: seq<nat>, think: bool)
    requires WellFormed(e, s.gen)
    ensures Caused(sig, ExecSteps(e, steps, s, loop, sig, path, think))
    decreases steps, 0, 0
  {
    hide ExecStep;
    if steps != [] {
      var here := path + [|steps|];
      if sig(here) == Go {
        StepStopHasCause(e, steps[0], s, loop, sig, here, think);
        var o := ExecStep(e, steps[0], s, loop, sig, here, think);
        if GoesOn(o) {
          StopsHaveCauses(e, steps[1..], o.st, loop, sig, path, think);
        }
      }
    }
  }

  lemma {:induction false} StepStopHasCause(e: Env, step: Step, s: St, loop: Option<nat>, sig: Signals, here: seq<nat>,
                                            think: bool)
    requires WellFormed(e, s.gen)
    ensures Caused(sig, ExecStep(e, step, s, loop, sig, here, think))
    decreases step, 0, 0
  {
    hide ExecSteps, ExecLoop, MergeAll, ExecBranches;
    match step
    case Http(h) => HttpEffect(e, h, s, loop, sig, here, think);
    case Loop(_, repeat, body) => LoopStopHasCause(e, body, s, 0, repeat, sig, here, think);
    case If(_, _, _, _, _) =>
      StopsHaveCauses(e, Select(step, ContextOf(e, s, loop), e.oracle).steps, s, loop, sig, here, think);
    case Parallel(_, branches) =>
      var (gens, g) := ForkAll(e, s.gen, |branches|);
      var runs := ExecBranches(e, branches, s, gens, loop, sig, here);
      forall k | 0 <= k < |runs|
        ensures Caused(sig, runs[k])
      {
        BranchesAreIsolated(e, branches, s, gens, loop, sig, here, k);
        StopsHaveCauses(e, branches[k].steps, Enter(s, gens[k]), loop, sig, here + [|branches| - k], false);
      }
      WorstBranchWins(e, s.(gen := g), branches, runs, Continue);
  }

  lemma {:induction false} LoopStopHasCause(e: Env, body: seq<Step>, s: St, i: nat, repeat: nat, sig: Signals,
                                            here: seq<nat>, think: bool)
    requires WellFormed(e, s.gen)
    ensures Caused(sig, ExecLoop(e, body, s, i, repeat, sig, here, think))
    decreases body, 1, repeat - i
  {
    hide ExecSteps;
    if i < repeat && sig(here + [i]) == Go {
      StopsHaveCauses(e, body, s, Some(i), sig, here + [i], think);
      var o := ExecSteps(e, body, s, Some(i), sig, here + [i], think);
      if GoesOn(o) {
        LoopStopHasCause(e, body, o.st, i + 1, repeat, sig, here, think);
      }
    }
  }
}
