/** The state of one iteration: its variables, its generator state, and who wrote what. */
module Iterations {
  import opened Options
  import opened Templates
  import opened Requests
  import opened Scenarios
  import opened Conditions
  import opened ReqGens

  /** What the network answers: nothing, a status whose body could not be read, or a full answer. */
  datatype Response = SendFailed | BodyFailed(status: nat) | Answer(status: nat, facts: string)

  /** Everything fixed during an iteration.  `respond` is the network; `extract` applies a rule. */
  datatype Env = Env(
    lib: Library,
    respond: (HttpStep, Request) -> Response,
    extract: (string, string) -> Option<string>,
    src: Source,
    oracle: Oracle,
    plan: Plan,
    env: map<string, string>,
    vuId: nat,
    iterId: nat
  )

  datatype Writer = Seed | Dataset | Refresh | Extraction | Merge

  /** One write to the variables. */
  datatype Write = Write(values: map<string, string>, writer: Writer)

  /** `log` is the history of writes; it decides nothing. */
  datatype St = St(vars: map<string, string>, gen: Option<Gen>, log: seq<Write>, sent: seq<Request>)

  function ContextOf(e: Env, s: St, loop: Option<nat>): Context {
    Context(s.vars, e.env, e.vuId, e.iterId, loop)
  }

  ghost predicate WellFormed(e: Env, g: Option<Gen>) {
    e.plan.Valid() && (g.Some? ==> |g.value.dead| == |e.plan.names|)
  }

  /** Writes from outside the generators stop the re-evaluation of the names they hit. */
  function Commit(e: Env, s: St, values: map<string, string>, writer: Writer): (r: St)
    requires WellFormed(e, s.gen)
    ensures WellFormed(e, r.gen) && (r.gen.Some? <==> s.gen.Some?)
  {
    s.(vars := s.vars + values,
       gen := if s.gen.Some? then Some(Mark(e.plan, s.gen.value, values.Keys)) else None,
       log := s.log + [Write(values, writer)])
  }

  function RefreshFor(e: Env, s: St, id: string): (r: St)
    requires WellFormed(e, s.gen)
    ensures WellFormed(e, r.gen) && (r.gen.Some? <==> s.gen.Some?)
  {
    if s.gen.None? then s
    else
      var d := RefreshGen(e.src, e.plan, s.gen.value, id);
      s.(vars := Overwrite(s.vars, d.writes),
         gen := Some(s.gen.value.(rng := d.rng)),
         log := s.log + [Write(Overwrite(map[], d.writes), Refresh)])
  }

  /** One generator state per branch, all taken before any branch runs. */
  function ForkAll(e: Env, g: Option<Gen>, n: nat): (r: (seq<Option<Gen>>, Option<Gen>))
    requires WellFormed(e, g)
    ensures |r.0| == n && WellFormed(e, r.1) && (r.1.Some? <==> g.Some?)
    ensures forall k :: 0 <= k < n ==> WellFormed(e, r.0[k]) && (r.0[k].Some? <==> g.Some?)
    ensures g.Some? ==> r.1.value.dead == g.value.dead && forall k :: 0 <= k < n ==> r.0[k].value.dead == g.value.dead
    decreases n
  {
    if n == 0 then ([], g)
    else if g.None? then
      var rest := ForkAll(e, g, n - 1);
      ([None] + rest.0, rest.1)
    else
      var (seed, rng) := e.src.fork(g.value.rng);
      var rest := ForkAll(e, Some(g.value.(rng := rng)), n - 1);
      ([Some(Gen(g.value.dead, seed))] + rest.0, rest.1)
  }

  /** The state in which a branch starts: the entry variables, a generator of its own. */
  function Enter(s: St, g: Option<Gen>): St {
    s.(gen := g, sent := [])
  }

  // ---------------------------------------------------------------------------------------
  // Extraction

  /** Extractions in order; the first failure leaves nothing. */
  function Extracts(e: Env, extract: seq<Extract>, facts: string): Option<map<string, string>> {
    ExtractsOnto(e, extract, facts, map[])
  }

  function ExtractsOnto(e: Env, extract: seq<Extract>, facts: string, done: map<string, string>)
    : Option<map<string, string>> {
    if extract == [] then Some(done)
    else match e.extract(extract[0].rule, facts)
         case None => None
         case Some(v) => ExtractsOnto(e, extract[1..], facts, done[extract[0].name := v])
  }

  /** The variables a response yields and whether the step is in error; nothing is extracted from
      a failed send, an unread body, a failed assertion, or together with a failed rule. */
  function Extracted(e: Env, h: HttpStep, r: Response): (map<string, string>, bool) {
    match r
    case SendFailed => (map[], true)
    case BodyFailed(_) => (map[], true)
    case Answer(status, facts) =>
      if exists k :: 0 <= k < |h.statuses| && h.statuses[k] != status then (map[], true)
      else match Extracts(e, h.extract, facts)
           case None => (map[], true)
           case Some(values) => (values, false)
  }

  lemma {:induction false} ExtractsOnlyDeclared(e: Env, extract: seq<Extract>, facts: string, done: map<string, string>)
    ensures var r := ExtractsOnto(e, extract, facts, done);
            r.Some? ==> r.value.Keys <= done.Keys + set n | n in ExtractNames(extract)
    decreases |extract|
  {
    if extract != [] {
      match e.extract(extract[0].rule, facts)
      case None =>
      case Some(v) => ExtractsOnlyDeclared(e, extract[1..], facts, done[extract[0].name := v]);
    }
  }

  // ---------------------------------------------------------------------------------------
  // Exposing what a branch produced

  /** The key under which a branch exposes a variable. */
  function Exposed(branch: string, name: string): string {
    branch + "." + name
  }

  /** Copies the named variables of a finished branch, one by one, under its name. */
  function Expose(e: Env, s: St, branch: string, names: seq<string>, vars: map<string, string>): (r: St)
    requires WellFormed(e, s.gen)
    ensures WellFormed(e, r.gen) && (r.gen.Some? <==> s.gen.Some?) && r.sent == s.sent
    decreases |names|
  {
    if names == [] then s
    else Expose(e, if names[0] in vars then Commit(e, s, map[Exposed(branch, names[0]) := vars[names[0]]], Merge)
                else s,
                branch, names[1..], vars)
  }

  /** What the parent's state is after a branch has been merged into it. */
  function MergeBranch(e: Env, s: St, b: Branch, done: St): (r: St)
    requires WellFormed(e, s.gen)
    ensures WellFormed(e, r.gen) && (r.gen.Some? <==> s.gen.Some?) && r.sent == s.sent + done.sent
  {
    Expose(e, s.(sent := s.sent + done.sent), b.name, OutputNames(b.steps), done.vars)
  }

  // ---------------------------------------------------------------------------------------
  // Provenance

  /** The last write of a variable. */
  function LastWriter(log: seq<Write>, n: string): Option<Writer> {
    if log == [] then None
    else if n in log[|log| - 1].values then Some(log[|log| - 1].writer)
    else LastWriter(log[..|log| - 1], n)
  }

  /** The variables a history of writes produces. */
  function Replay(log: seq<Write>): map<string, string> {
    if log == [] then map[] else Replay(log[..|log| - 1]) + log[|log| - 1].values
  }

  predicate Foreign(w: Option<Writer>) {
    w == Some(Dataset) || w == Some(Extraction) || w == Some(Merge)
  }

  /** A per-request variable is dead exactly when its current value was last written by a dataset
      row, an extraction or a merge; and the variables are what the history says. */
  ghost predicate Provenance(e: Env, s: St) {
    && WellFormed(e, s.gen)
    && s.vars == Replay(s.log)
    && (s.gen.Some? ==> forall i :: 0 <= i < |e.plan.names| ==>
                                      (s.gen.value.dead[i] <==> Foreign(LastWriter(s.log, e.plan.names[i]))))
  }

  lemma LogOneMore(log: seq<Write>, w: Write, n: string)
    ensures Replay(log + [w]) == Replay(log) + w.values
    ensures LastWriter(log + [w], n) == if n in w.values then Some(w.writer) else LastWriter(log, n)
  {
    assert (log + [w])[..|log|] == log;
  }

  lemma CommitKeepsProvenance(e: Env, s: St, values: map<string, string>, writer: Writer)
    requires Provenance(e, s) && Foreign(Some(writer))
    ensures Provenance(e, Commit(e, s, values, writer))
  {
    var s' := Commit(e, s, values, writer);
    LogOneMore(s.log, Write(values, writer), "");
    forall i | s.gen.Some? && 0 <= i < |e.plan.names|
      ensures s.gen.Some? ==> (s'.gen.value.dead[i] <==> Foreign(LastWriter(s'.log, e.plan.names[i])))
    {
      LogOneMore(s.log, Write(values, writer), e.plan.names[i]);
    }
  }

  lemma {:induction false} OverwriteIsUnion(vars: map<string, string>, writes: seq<(string, string)>)
    ensures Overwrite(vars, writes) == vars + Overwrite(map[], writes)
    decreases |writes|
  {
    if writes != [] {
      var (n, v) := writes[0];
      OverwriteIsUnion(vars[n := v], writes[1..]);
      OverwriteIsUnion(map[n := v], writes[1..]);
      assert Overwrite(map[], writes) == Overwrite(map[n := v], writes[1..]);
    }
  }

  /** What a refresh draws: values of live per-request variables only. */
  lemma {:induction false} DrawnAreLive(e: Env, dead: seq<bool>, targets: seq<nat>, rng: Rng, n: string)
    requires e.plan.Valid() && |dead| == |e.plan.names| && forall k :: 0 <= k < |targets| ==>
             targets[k] < |e.plan.names|
    requires n in Overwrite(map[], Draw(e.src, e.plan, dead, targets, rng).writes)
    ensures exists i :: 0 <= i < |dead| && e.plan.names[i] == n && !dead[i]
    decreases |targets|
  {
    if forall i :: 0 <= i < |dead| && e.plan.names[i] == n ==> dead[i] {
      RefreshTouchesOnlyLiveTargets(e.src, e.plan, dead, targets, rng, map[], n);
    }
  }

  lemma RefreshKeepsProvenance(e: Env, s: St, id: string)
    requires Provenance(e, s)
    ensures Provenance(e, RefreshFor(e, s, id))
  {
    hide Overwrite, Draw, Replay, LastWriter;
    if s.gen.Some? {
      var g, s' := s.gen.value, RefreshFor(e, s, id);
      var d := RefreshGen(e.src, e.plan, g, id);
      var w := Write(Overwrite(map[], d.writes), Refresh);
      OverwriteIsUnion(s.vars, d.writes);
      LogOneMore(s.log, w, "");
      forall i | 0 <= i < |e.plan.names|
        ensures g.dead[i] <==> Foreign(LastWriter(s'.log, e.plan.names[i]))
      {
        LogOneMore(s.log, w, e.plan.names[i]);
        if e.plan.names[i] in w.values {
          DrawnAreLive(e, g.dead, e.plan.Targets(id), g.rng, e.plan.names[i]);
        }
      }
    }
  }

  /** A refresh leaves every value alone that a dataset row, an extraction or a merge wrote last. */
  lemma RefreshSparesForeignValues(e: Env, s: St, id: string, n: string)
    requires Provenance(e, s) && Foreign(LastWriter(s.log, n))
    ensures var s' := RefreshFor(e, s, id);
            Same(s'.vars, s.vars, n)
            && LastWriter(s'.log, n) == LastWriter(s.log, n)
  {
    if s.gen.Some? {
      var g := s.gen.value;
      var d := RefreshGen(e.src, e.plan, g, id);
      LogOneMore(s.log, Write(Overwrite(map[], d.writes), Refresh), n);
      RefreshTouchesOnlyLiveTargets(e.src, e.plan, g.dead, e.plan.Targets(id), g.rng, s.vars, n);
      if n in Overwrite(map[], d.writes) {
        DrawnAreLive(e, g.dead, e.plan.Targets(id), g.rng, n);
      }
    }
  }

  lemma {:induction false} ExposeKeepsProvenance(e: Env, s: St, branch: string, names: seq<string>,
                                                 vars: map<string, string>)
    requires Provenance(e, s)
    ensures Provenance(e, Expose(e, s, branch, names, vars))
    decreases |names|
  {
    if names != [] {
      if names[0] in vars {
        var values := map[Exposed(branch, names[0]) := vars[names[0]]];
        CommitKeepsProvenance(e, s, values, Merge);
        ExposeKeepsProvenance(e, Commit(e, s, values, Merge), branch, names[1..], vars);
      } else {
        ExposeKeepsProvenance(e, s, branch, names[1..], vars);
      }
    }
  }

  // ---------------------------------------------------------------------------------------
  // The start of an iteration

  /** The declared variables, a fresh generator state, then the dataset rows in their order. */
  function Start(e: Env, seeds: map<string, string>, seed: Option<Rng>, rows: seq<map<string, string>>): (r: St)
    requires e.plan.Valid()
    ensures WellFormed(e, r.gen)
  {
    if rows == [] then
      St(seeds, if seed.Some? then Some(Gen(seq(|e.plan.names|, _ => false), seed.value))
         else None, [Write(seeds, Seed)], [])
    else Commit(e, Start(e, seeds, seed, rows[..|rows| - 1]), rows[|rows| - 1], Dataset)
  }

  lemma {:induction false} StartHasProvenance(e: Env, seeds: map<string, string>, seed: Option<Rng>,
                                              rows: seq<map<string, string>>)
    requires e.plan.Valid()
    ensures Provenance(e, Start(e, seeds, seed, rows)) && Start(e, seeds, seed, rows).sent == []
  {
    if rows == [] {
      var log := [Write(seeds, Seed)];
      assert log[..0] == [];
      assert Replay(log) == Replay([]) + seeds == seeds;
      assert forall n :: !Foreign(LastWriter(log, n)) by {
        forall n ensures !Foreign(LastWriter(log, n)) {
          LogOneMore([], log[0], n);
        }
      }
    } else {
      StartHasProvenance(e, seeds, seed, rows[..|rows| - 1]);
      CommitKeepsProvenance(e, Start(e, seeds, seed, rows[..|rows| - 1]), rows[|rows| - 1], Dataset);
    }
  }

  /** The rows combined into one, later rows first. */
  function Combined(rows: seq<map<string, string>>): map<string, string> {
    if rows == [] then map[] else Combined(rows[..|rows| - 1]) + rows[|rows| - 1]
  }

  /** After the start the dataset has won over the declared values, and exactly its columns are dead. */
  lemma {:induction false} StartIs(e: Env, seeds: map<string, string>, seed: Option<Rng>,
                                   rows: seq<map<string, string>>)
    requires e.plan.Valid()
    ensures var s := Start(e, seeds, seed, rows);
            && s.vars == seeds + Combined(rows)
            && (s.gen.Some? <==> seed.Some?)
            && (seed.Some? ==> s.gen.value.rng == seed.value
                               && forall i :: 0 <= i < |e.plan.names| ==>
                                   s.gen.value.dead[i] == (e.plan.names[i] in Combined(rows)))
  {
    if rows != [] {
      var front, last := rows[..|rows| - 1], rows[|rows| - 1];
      StartIs(e, seeds, seed, front);
      UnionAssoc(seeds, Combined(front), last);
      UnionKeys(Combined(front), last);
    }
  }

  lemma UnionAssoc(a: map<string, string>, b: map<string, string>, c: map<string, string>)
    ensures (a + b) + c == a + (b + c)
  {
  }

  lemma UnionKeys(a: map<string, string>, b: map<string, string>)
    ensures forall n :: n in a + b <==> n in a || n in b
  {
  }

  /** A trace is given the combined row: it starts with the same variables and the same dead set as
      a load iteration that takes the rows one after the other. */
  lemma StartFromCombined(e: Env, seeds: map<string, string>, seed: Option<Rng>, rows: seq<map<string, string>>)
    requires e.plan.Valid()
    ensures var a, b := Start(e, seeds, seed, rows), Start(e, seeds, seed, [Combined(rows)]);
            a.vars == b.vars && a.gen == b.gen
  {
    var one := [Combined(rows)];
    var a, b := Start(e, seeds, seed, rows), Start(e, seeds, seed, one);
    StartIs(e, seeds, seed, rows);
    StartIs(e, seeds, seed, one);
    assert one[..0] == [] && Combined(one) == Combined(rows);
    if seed.Some? {
      assert a.gen.value.dead == b.gen.value.dead;
    }
  }
}
