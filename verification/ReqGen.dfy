/** Generated variables that are re-evaluated before each request that shows them. */
module ReqGens {
  import opened Options
  import opened Templates
  import opened Requests
  import opened Scenarios

  /** A declared variable: a text, or a generator evaluated per iteration or per request. */
  datatype VarDecl = Static(text: string) | Generated(perRequest: bool)

  datatype Variable = Variable(name: string, decl: VarDecl)

  /** The state code of a random generator. */
  type Rng = nat

  /** The random source: evaluating generator `i` and seeding a child both advance the state. */
  datatype Source = Source(draw: (nat, Rng) -> (string, Rng), fork: Rng -> (Rng, Rng))

  /** `names` are the per-request variables; `byStep` the indexes to re-evaluate before each step. */
  datatype Plan = Plan(names: seq<string>, byStep: map<string, seq<nat>>) {
    function Targets(id: string): seq<nat> {
      if id in byStep then byStep[id] else []
    }

    ghost predicate Valid() {
      && (forall i, j :: 0 <= i < j < |names| ==> names[i] != names[j])
      && (forall id, k :: id in byStep && 0 <= k < |byStep[id]| ==> byStep[id][k] < |names|)
    }
  }

  ghost predicate DistinctNames(variables: seq<Variable>) {
    forall i, j :: 0 <= i < j < |variables| ==> variables[i].name != variables[j].name
  }

  /** The declared names that are re-evaluated per request, in order. */
  function PerRequestNames(variables: seq<Variable>): seq<string> {
    if variables == [] then []
    else (if variables[0].decl.Generated? && variables[0].decl.perRequest then [variables[0].name] else [])
         + PerRequestNames(variables[1..])
  }

  ghost predicate Declared(variables: seq<Variable>, n: string) {
    exists k :: 0 <= k < |variables| && variables[k].name == n
  }

  lemma DeclaredSplit(variables: seq<Variable>, n: string)
    requires variables != []
    ensures Declared(variables, n) <==> variables[0].name == n || Declared(variables[1..], n)
  {
    if k :| 0 <= k < |variables| && variables[k].name == n {
      assert k > 0 ==> variables[1..][k - 1].name == n;
    }
    if k :| 0 <= k < |variables[1..]| && variables[1..][k].name == n {
      assert variables[k + 1].name == n;
    }
  }

  lemma {:induction false} PerRequestNamesDistinct(variables: seq<Variable>)
    requires DistinctNames(variables)
    ensures var names := PerRequestNames(variables);
            && (forall i, j :: 0 <= i < j < |names| ==> names[i] != names[j])
            && (forall n :: n in names ==> Declared(variables, n))
  {
    if variables != [] {
      var rest, names := PerRequestNames(variables[1..]), PerRequestNames(variables);
      assert DistinctNames(variables[1..]) && !Declared(variables[1..], variables[0].name) by {
        assert forall i :: 0 <= i < |variables[1..]| ==> variables[1..][i] == variables[i + 1];
      }
      PerRequestNamesDistinct(variables[1..]);
      forall n | n in names
        ensures Declared(variables, n)
      {
        DeclaredSplit(variables, n);
      }
      assert variables[0].name !in rest;
      assert forall i :: 0 <= i < |rest| ==> rest[i] in rest;
    }
  }

  /** The steps with this id that spell the name with index `i`. */
  predicate Spells(https: seq<HttpStep>, names: seq<string>, id: string, i: nat) {
    exists k :: 0 <= k < |https| && https[k].id == id && i in Refs(https[k].request, names)
  }

  /** What the plan must hold: for every id, the union over all steps with that id. */
  ghost predicate Covers(plan: Plan, https: seq<HttpStep>) {
    forall id, i: nat :: i in plan.Targets(id) <==> Spells(https, plan.names, id, i)
  }

  /** Each step re-evaluates its names once each, in their declared order. */
  ghost predicate InOrder(plan: Plan) {
    forall id, j, k :: id in plan.byStep && 0 <= j < k < |plan.byStep[id]| ==> plan.byStep[id][j] < plan.byStep[id][k]
  }

  /** The plan of a scenario; none without per-request variables. */
  method BuildPlan(variables: seq<Variable>, steps: seq<Step>) returns (r: Option<Plan>)
    requires DistinctNames(variables)
    ensures r.Some? <==> PerRequestNames(variables) != []
    ensures r.Some? ==> r.value.Valid() && r.value.names == PerRequestNames(variables)
    ensures r.Some? ==> Covers(r.value, HttpSteps(steps)) && InOrder(r.value)
  {
    var names: seq<string> := [];
    var k := |variables|;
    while k > 0
      invariant 0 <= k <= |variables|
      invariant names == PerRequestNames(variables[k..])
    {
      k := k - 1;
      assert variables[k..][0] == variables[k] && variables[k..][1..] == variables[k + 1..];
      names := (if variables[k].decl.Generated? && variables[k].decl.perRequest then [variables[k].name]
                else []) + names;
    }
    assert variables[0..] == variables;
    if names == [] {
      return None;
    }
    PerRequestNamesDistinct(variables);
    hide Refs;
    var index := IndexOf(names);
    var https := HttpSteps(steps);
    var union: map<string, set<nat>> := map[];
    for h := 0 to |https|
      invariant Unions(union, https[..h], names)
    {
      var refs := RequestFlowRefs(https[h].request, names, index);
      UnionStep(union, https, names, h);
      if refs != [] {
        union := AddAll(union, https[h].id, refs);
      }
    }
    assert https[..|https|] == https;
    r := Some(Plan(names, map id | id in union :: Ascending(union[id], |names|)));
    UnionsCover(union, https, r.value);
  }

  function AddAll(union: map<string, set<nat>>, id: string, refs: seq<nat>): map<string, set<nat>> {
    union[id := (if id in union then union[id] else {}) + set i | i in refs]
  }

  ghost predicate Has(union: map<string, set<nat>>, id: string, i: nat) {
    id in union && i in union[id]
  }

  ghost predicate Unions(union: map<string, set<nat>>, https: seq<HttpStep>, names: seq<string>) {
    && (forall id, i: nat :: Has(union, id, i) <==> Spells(https, names, id, i))
    && (forall id, i: nat :: Has(union, id, i) ==> i < |names|)
  }

  lemma UnionStep(union: map<string, set<nat>>, https: seq<HttpStep>, names: seq<string>, h: nat)
    requires h < |https| && Unions(union, https[..h], names)
    ensures var refs := Refs(https[h].request, names);
            Unions(if refs == [] then union else AddAll(union, https[h].id, refs), https[..h + 1], names)
  {
    hide Spells, Refs;
    var refs := Refs(https[h].request, names);
    var union' := if refs == [] then union else AddAll(union, https[h].id, refs);
    RefsInRange(https[h].request, names);
    forall id, i: nat
      ensures Has(union', id, i) <==> Spells(https[..h + 1], names, id, i)
      ensures Has(union', id, i) ==> i < |names|
    {
      SpellsOneMore(https, names, h, id, i);
      assert Has(union, id, i) <==> Spells(https[..h], names, id, i);
    }
  }

  lemma UnionsCover(union: map<string, set<nat>>, https: seq<HttpStep>, plan: Plan)
    requires Unions(union, https, plan.names)
    requires plan.byStep == map id | id in union :: Ascending(union[id], |plan.names|)
    requires forall i, j :: 0 <= i < j < |plan.names| ==> plan.names[i] != plan.names[j]
    ensures plan.Valid() && Covers(plan, https) && InOrder(plan)
  {
    hide Spells;
    forall id, i: nat
      ensures i in plan.Targets(id) <==> Spells(https, plan.names, id, i)
    {
      assert Has(union, id, i) <==> Spells(https, plan.names, id, i);
      if id in union {
        AscendingMembers(union[id], |plan.names|);
      }
    }
    forall id, k | id in plan.byStep && 0 <= k < |plan.byStep[id]|
      ensures plan.byStep[id][k] < |plan.names|
    {
      AscendingMembers(union[id], |plan.names|);
      assert plan.byStep[id][k] in plan.byStep[id];
    }
    forall id, j, k | id in plan.byStep && 0 <= j < k < |plan.byStep[id]|
      ensures plan.byStep[id][j] < plan.byStep[id][k]
    {
      AscendingMembers(union[id], |plan.names|);
    }
  }

  method IndexOf(names: seq<string>) returns (index: map<string, nat>)
    requires forall i, j :: 0 <= i < j < |names| ==> names[i] != names[j]
    ensures forall n :: n in index <==> n in names
    ensures forall n :: n in index ==> index[n] < |names| && names[index[n]] == n
  {
    index := map[];
    for i := 0 to |names|
      invariant forall n :: n in index <==> n in names[..i]
      invariant forall n :: n in index ==> index[n] < i && names[index[n]] == n
    {
      assert names[..i + 1] == names[..i] + [names[i]];
      index := index[names[i] := i];
    }
    assert names[..|names|] == names;
  }

  lemma SpellsOneMore(https: seq<HttpStep>, names: seq<string>, h: nat, id: string, i: nat)
    requires h < |https|
    ensures Spells(https[..h + 1], names, id, i)
            <==> Spells(https[..h], names, id, i) || (https[h].id == id && i in Refs(https[h].request, names))
  {
    hide Refs;
    var more, less := https[..h + 1], https[..h];
    if k :| 0 <= k < |less| && less[k].id == id && i in Refs(less[k].request, names) {
      assert more[k] == less[k];
    }
    if https[h].id == id && i in Refs(https[h].request, names) {
      assert more[h] == https[h];
    }
    if k :| 0 <= k < |more| && more[k].id == id && i in Refs(more[k].request, names) {
      assert k < h ==> less[k] == more[k];
    }
  }

  lemma RefsInRange(req: Request, names: seq<string>)
    ensures forall i :: i in Refs(req, names) ==> i < |names|
  {
    var found := MissingIn(RequestTexts(req), AnalysisContext(names));
    AscendingMembers(set j | 0 <= j < |names| && names[j] in found, |names|);
  }

  // ---------------------------------------------------------------------------------------
  // The state of one iteration or branch

  /** `dead[i]` stops the re-evaluation of `names[i]`: its value was written by someone else. */
  datatype Gen = Gen(dead: seq<bool>, rng: Rng)

  function MarkedDead(plan: Plan, dead: seq<bool>, keys: set<string>): seq<bool>
    requires |dead| == |plan.names|
  {
    seq(|dead|, i requires 0 <= i < |dead| => dead[i] || plan.names[i] in keys)
  }

  function Mark(plan: Plan, g: Gen, keys: set<string>): Gen
    requires |g.dead| == |plan.names|
  {
    g.(dead := MarkedDead(plan, g.dead, keys))
  }

  /** The drawn values, in the order of the targets, and the generator state after them. */
  datatype Drawn = Drawn(writes: seq<(string, string)>, rng: Rng)

  function Draw(src: Source, plan: Plan, dead: seq<bool>, targets: seq<nat>, rng: Rng): Drawn
    requires |dead| == |plan.names| && forall k :: 0 <= k < |targets| ==> targets[k] < |plan.names|
  {
    if targets == [] then Drawn([], rng)
    else if dead[targets[0]] then Draw(src, plan, dead, targets[1..], rng)
    else
      var (v, rng') := src.draw(targets[0], rng);
      var rest := Draw(src, plan, dead, targets[1..], rng');
      Drawn([(plan.names[targets[0]], v)] + rest.writes, rest.rng)
  }

  function Overwrite(vars: map<string, string>, writes: seq<(string, string)>): map<string, string>
    decreases |writes|
  {
    if writes == [] then vars else Overwrite(vars[writes[0].0 := writes[0].1], writes[1..])
  }

  function RefreshGen(src: Source, plan: Plan, g: Gen, id: string): Drawn
    requires plan.Valid() && |g.dead| == |plan.names|
  {
    Draw(src, plan, g.dead, plan.Targets(id), g.rng)
  }

  class ReqGen {
    const plan: Plan
    const dead: array<bool>
    var rng: Rng

    ghost predicate Valid()
      reads this
    {
      plan.Valid() && dead.Length == |plan.names|
    }

    ghost function Abs(): Gen
      reads this, dead
    {
      Gen(dead[..], rng)
    }

    /** A fresh state: everything alive, seeded from the parent generator. */
    constructor New(plan: Plan, seed: Rng)
      requires plan.Valid()
      ensures Valid() && this.plan == plan && fresh(dead)
      ensures Abs() == Gen(seq(|plan.names|, _ => false), seed)
    {
      this.plan := plan;
      this.rng := seed;
      this.dead := new bool[|plan.names|](_ => false);
    }

    /** A state for a branch: the dead set copied, a seed of its own. */
    constructor Copy(plan: Plan, dead: array<bool>, seed: Rng)
      requires plan.Valid() && dead.Length == |plan.names|
      ensures Valid() && this.plan == plan && fresh(this.dead)
      ensures Abs() == Gen(dead[..], seed)
    {
      var copy := new bool[dead.Length](i requires 0 <= i < dead.Length reads dead => dead[i]);
      this.plan := plan;
      this.rng := seed;
      this.dead := copy;
      new;
      assert this.dead[..] == dead[..];
    }

    /** Marks the variables among the written keys as dead. */
    method MarkWritten(keys: set<string>)
      requires Valid()
      modifies dead
      ensures Abs() == Mark(plan, old(Abs()), keys)
    {
      var i := 0;
      while i < dead.Length
        invariant 0 <= i <= dead.Length
        invariant forall j :: 0 <= j < i ==> dead[j] == (old(dead[j]) || plan.names[j] in keys)
        invariant forall j :: i <= j < dead.Length ==> dead[j] == old(dead[j])
      {
        if plan.names[i] in keys {
          dead[i] := true;
        }
        i := i + 1;
      }
      assert dead[..] == MarkedDead(plan, old(dead[..]), keys);
    }

    /** Re-evaluates the live targets of a step and overwrites their values. */
    method Refresh(src: Source, id: string, vars: map<string, string>) returns (vars': map<string, string>)
      requires Valid()
      modifies this`rng
      ensures var d := RefreshGen(src, plan, old(Abs()), id);
              vars' == Overwrite(vars, d.writes) && Abs() == old(Abs()).(rng := d.rng)
    {
      var targets := plan.Targets(id);
      vars' := vars;
      ghost var before, start := dead[..], rng;
      ghost var whole := Draw(src, plan, before, targets, rng);
      ghost var done: seq<(string, string)> := [];
      var k := 0;
      while k < |targets|
        invariant 0 <= k <= |targets|
        invariant dead[..] == before
        invariant var rest := Draw(src, plan, before, targets[k..], rng);
                  whole.rng == rest.rng && Overwrite(vars, whole.writes) == Overwrite(vars', rest.writes)
      {
        var i := targets[k];
        ghost var rest := Draw(src, plan, before, targets[k..], rng);
        assert targets[k..][0] == i && targets[k..][1..] == targets[k + 1..];
        if !dead[i] {
          var (v, rng') := src.draw(i, rng);
          assert rest.writes[0] == (plan.names[i], v) && rest.writes[1..]
                 == Draw(src, plan, before, targets[k + 1..], rng').writes;
          rng := rng';
          vars' := vars'[plan.names[i] := v];
        }
        k := k + 1;
      }
    }

    /** A branch's own state; the seed is drawn from this generator. */
    method Fork(src: Source) returns (child: ReqGen)
      requires Valid()
      modifies this`rng
      ensures child.Valid() && fresh(child) && fresh(child.dead) && child.plan == plan
      ensures var (seed, rest) := src.fork(old(rng));
              child.Abs() == Gen(old(dead[..]), seed) && Abs() == old(Abs()).(rng := rest)
    {
      var (seed, rest) := src.fork(rng);
      rng := rest;
      child := new ReqGen.Copy(plan, dead, seed);
    }
  }

  // ---------------------------------------------------------------------------------------
  // Why refreshing the targets is enough

  /** The maps agree except on per-request variables outside the targets of the step. */
  ghost predicate AgreeButNonTargets(plan: Plan, id: string, v: map<string, string>, w: map<string, string>) {
    forall n :: (forall i :: 0 <= i < |plan.names| && plan.names[i] == n ==> i in plan.Targets(id)) ==>
                  Same(v, w, n)
  }

  /** Non-interference: whatever values the per-request variables outside the step's targets hold,
      the request, its errors and its trace are the same. */
  lemma NonTargetsInvisible(plan: Plan, steps: seq<Step>, h: HttpStep, ctx: Context, w: map<string, string>,
                            lib: Library)
    requires Covers(plan, HttpSteps(steps)) && h in HttpSteps(steps)
    requires AgreeButNonTargets(plan, h.id, ctx.vars, w)
    ensures var ctx' := ctx.(vars := w);
            Build(h.request, ctx, lib) == Build(h.request, ctx', lib)
            && BuildTraced(h.request, ctx, lib) == BuildTraced(h.request, ctx', lib)
  {
    var https := HttpSteps(steps);
    var k :| 0 <= k < |https| && https[k] == h;
    forall n | n in RequestNames(h.request)
      ensures Same(ctx.vars, w, n)
    {
      forall i | 0 <= i < |plan.names| && plan.names[i] == n
        ensures i in plan.Targets(h.id)
      {
        RefsExact(h.request, plan.names, i);
        assert https[k].id == h.id && i in Refs(https[k].request, plan.names);
        assert Spells(https, plan.names, h.id, i);
      }
    }
    RequestSeesOnly(h.request, ctx, w, lib);
  }

  /** The variables after every live per-request variable with a `fresh` index has taken its value
      from `values`. */
  function WithValues(plan: Plan, dead: seq<bool>, vars: map<string, string>, values: nat -> string,
                      isFresh: nat -> bool): map<string, string>
    requires |dead| == |plan.names|
    requires forall i, j :: 0 <= i < j < |plan.names| ==> plan.names[i] != plan.names[j]
  {
    vars + map i | 0 <= i < |plan.names| && isFresh(i) && !dead[i] :: plan.names[i] := values(i)
  }

  lemma WithValuesAt(plan: Plan, dead: seq<bool>, vars: map<string, string>, values: nat -> string,
                     isFresh: nat -> bool, i: nat)
    requires plan.Valid() && |dead| == |plan.names| && i < |plan.names|
    ensures var n, w := plan.names[i], WithValues(plan, dead, vars, values, isFresh);
            if isFresh(i) && !dead[i] then n in w && w[n] == values(i)
            else Same(w, vars, n)
  {
  }

  lemma WithValuesElsewhere(plan: Plan, dead: seq<bool>, vars: map<string, string>, values: nat -> string,
                            isFresh: nat -> bool, n: string)
    requires plan.Valid() && |dead| == |plan.names| && n !in plan.names
    ensures var w := WithValues(plan, dead, vars, values, isFresh);
            Same(w, vars, n)
  {
  }

  /** Refreshing only the targets of a step gives the same request as refreshing every live
      per-request variable with the same drawn values. */
  lemma SelectiveRefreshIsEnough(plan: Plan, steps: seq<Step>, h: HttpStep, dead: seq<bool>, ctx: Context,
                                 values: nat -> string, lib: Library)
    requires plan.Valid() && |dead| == |plan.names|
    requires Covers(plan, HttpSteps(steps)) && h in HttpSteps(steps)
    ensures var some := WithValues(plan, dead, ctx.vars, values, i => i in plan.Targets(h.id));
            var every := WithValues(plan, dead, ctx.vars, values, i => true);
            && Build(h.request, ctx.(vars := some), lib) == Build(h.request, ctx.(vars := every), lib)
            && BuildTraced(h.request, ctx.(vars := some), lib) == BuildTraced(h.request, ctx.(vars := every), lib)
  {
    hide Build, BuildTraced, Covers, WithValues;
    var isTarget: nat -> bool, all: nat -> bool := i => i in plan.Targets(h.id), i => true;
    var some := WithValues(plan, dead, ctx.vars, values, isTarget);
    var every := WithValues(plan, dead, ctx.vars, values, all);
    forall n | forall i :: 0 <= i < |plan.names| && plan.names[i] == n ==> i in plan.Targets(h.id)
      ensures Same(some, every, n)
    {
      if n in plan.names {
        var i :| 0 <= i < |plan.names| && plan.names[i] == n;
        WithValuesAt(plan, dead, ctx.vars, values, isTarget, i);
        WithValuesAt(plan, dead, ctx.vars, values, all, i);
      } else {
        WithValuesElsewhere(plan, dead, ctx.vars, values, isTarget, n);
        WithValuesElsewhere(plan, dead, ctx.vars, values, all, n);
      }
    }
    assert AgreeButNonTargets(plan, h.id, some, every);
    NonTargetsInvisible(plan, steps, h, ctx.(vars := some), every, lib);
    assert ctx.(vars := some).(vars := every) == ctx.(vars := every);
  }

  /** A refresh changes no variable but the live targets of the step. */
  lemma {:induction false} RefreshTouchesOnlyLiveTargets(src: Source, plan: Plan, dead: seq<bool>, targets: seq<nat>,
                                                         rng: Rng, vars: map<string, string>, n: string)
    requires |dead| == |plan.names| && forall k :: 0 <= k < |targets| ==> targets[k] < |plan.names|
    requires forall k :: 0 <= k < |targets| && plan.names[targets[k]] == n ==> dead[targets[k]]
    ensures var w := Overwrite(vars, Draw(src, plan, dead, targets, rng).writes);
            Same(w, vars, n)
    decreases |targets|
  {
    if targets != [] {
      var i := targets[0];
      assert forall k :: 0 <= k < |targets[1..]| ==> targets[1..][k] == targets[k + 1];
      if dead[i] {
        RefreshTouchesOnlyLiveTargets(src, plan, dead, targets[1..], rng, vars, n);
      } else {
        var (v, rng') := src.draw(i, rng);
        var d := Draw(src, plan, dead, targets, rng);
        assert d.writes[1..] == Draw(src, plan, dead, targets[1..], rng').writes;
        RefreshTouchesOnlyLiveTargets(src, plan, dead, targets[1..], rng', vars[plan.names[i] := v], n);
      }
    }
  }
}
