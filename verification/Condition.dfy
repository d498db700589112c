/** Conditions of `if` steps: their value, the branch they select, and the explanation a trace shows. */
module Conditions {
  import opened Options
  import opened Text
  import opened Templates
  import opened Requests
  import opened Scenarios

  /** Number parsing and regular expressions are outside the model: `order` compares two texts that
      both parse as ordered numbers, and `matches` is false for an invalid pattern. */
  datatype Oracle = Oracle(order: (string, string) -> Option<int>, matches: (string, string) -> bool)

  function Value(s: string, ctx: Context): string {
    Lenient(Tokens(s), ctx)
  }

  function EvalCompare(left: string, op: CompareOp, right: Option<string>, ctx: Context, o: Oracle): bool {
    var l := Value(left, ctx);
    var r := if right.Some? then Value(right.value, ctx) else "";
    match op
    case Exists => l != ""
    case Empty => l == ""
    case Eq => l == r
    case Ne => l != r
    case Contains => r == "" || Text.Contains(l, r)
    case Matches => o.matches(r, l)
    case Lt => o.order(l, r).Some? && o.order(l, r).value < 0
    case Gt => o.order(l, r).Some? && o.order(l, r).value > 0
    case Lte => o.order(l, r).Some? && o.order(l, r).value <= 0
    case Gte => o.order(l, r).Some? && o.order(l, r).value >= 0
  }

  /** How the operators relate: `exists` and `empty`, and `eq` and `ne`, are complements; `contains` holds
      exactly if the right text occurs in the left; and for texts that compare as numbers `lt`, `gt` and
      neither are the three cases, while for others all four comparisons are false. */
  lemma CompareLaws(left: string, right: string, ctx: Context, o: Oracle)
    ensures var holds := (op: CompareOp) => EvalCompare(left, op, Some(right), ctx, o);
            var l, r := Value(left, ctx), Value(right, ctx);
            && (holds(Exists) <==> !holds(Empty)) && (holds(Empty) <==> |l| == 0)
            && (holds(Eq) <==> !holds(Ne)) && (holds(Eq) <==> l == r)
            && (holds(CompareOp.Contains) <==> exists k :: 0 <= k <= |l| && r <= l[k..])
            && (holds(Lt) ==> !holds(Gt) && holds(Lte) && !holds(Gte))
            && (holds(Gt) ==> !holds(Lt) && holds(Gte) && !holds(Lte))
            && (o.order(l, r).Some? ==> (holds(Lte) <==> !holds(Gt)) && (holds(Gte) <==> !holds(Lt)))
            && (o.order(l, r).None? ==> !holds(Lt) && !holds(Gt) && !holds(Lte) && !holds(Gte))
            && (o.order(l, r) == Some(0) <==> holds(Lte) && holds(Gte))
  {
    hide Value;
    var l, r := Value(left, ctx), Value(right, ctx);
    if r == "" {
      assert r <= l[0..];
    } else {
      FindIsFirst(l, r);
    }
  }

  /** Comparing the other way round, if the order of numbers is antisymmetric. */
  lemma CompareSwaps(left: string, right: string, ctx: Context, o: Oracle)
    requires forall a, b :: match o.order(a, b)
                            case None => o.order(b, a).None?
                            case Some(x) => o.order(b, a) == Some(-x)
    ensures var swapped := (op: CompareOp) => EvalCompare(right, op, Some(left), ctx, o);
            && EvalCompare(left, Lt, Some(right), ctx, o) == swapped(Gt)
            && EvalCompare(left, Lte, Some(right), ctx, o) == swapped(Gte)
            && EvalCompare(left, Eq, Some(right), ctx, o) == swapped(Eq)
  {
  }

  predicate EvalCondition(c: Condition, ctx: Context, o: Oracle) {
    match c
    case All(cs) => forall i :: 0 <= i < |cs| ==> EvalCondition(cs[i], ctx, o)
    case Any(cs) => exists i :: 0 <= i < |cs| && EvalCondition(cs[i], ctx, o)
    case Compare(left, op, right) => EvalCompare(left, op, right, ctx, o)
  }

  // ---------------------------------------------------------------------------------------
  // The deciding leaf

  datatype Leaf = Leaf(left: string, op: CompareOp, right: Option<string>)

  predicate LeafHolds(leaf: Leaf, ctx: Context, o: Oracle) {
    EvalCompare(leaf.left, leaf.op, leaf.right, ctx, o)
  }

  /** The first condition with the given value, else the first condition; none for an empty group. */
  function Pick(cs: seq<Condition>, wanted: bool, ctx: Context, o: Oracle): (r: Option<Condition>)
    ensures r.Some? ==> r.value in cs
  {
    if cs == [] then None
    else if FirstWith(cs, wanted, ctx, o) < |cs| then Some(cs[FirstWith(cs, wanted, ctx, o)])
    else Some(cs[0])
  }

  function FirstWith(cs: seq<Condition>, wanted: bool, ctx: Context, o: Oracle): (k: nat)
    ensures k <= |cs|
    ensures k < |cs| ==> EvalCondition(cs[k], ctx, o) == wanted
    ensures forall i :: 0 <= i < k ==> EvalCondition(cs[i], ctx, o) != wanted
  {
    if cs == [] || EvalCondition(cs[0], ctx, o) == wanted then 0
    else
      var k := FirstWith(cs[1..], wanted, ctx, o);
      assert forall i :: 1 <= i < 1 + k ==> cs[i] == cs[1..][i - 1];
      1 + k
  }

  /** A false `all` is decided by its first false part, a true `any` by its first true part, and
      the other groups by their first part. */
  function DecidingLeaf(c: Condition, ctx: Context, o: Oracle): Option<Leaf> {
    match c
    case Compare(left, op, right) => Some(Leaf(left, op, right))
    case All(cs) =>
      (match Pick(cs, false, ctx, o)
       case None => None
       case Some(d) => DecidingLeaf(d, ctx, o))
    case Any(cs) =>
      (match Pick(cs, true, ctx, o)
       case None => None
       case Some(d) => DecidingLeaf(d, ctx, o))
  }

  lemma PickDecides(c: Condition, ctx: Context, o: Oracle)
    requires !c.Compare?
    ensures var cs := if c.All? then c.all else c.any;
            var d := Pick(cs, c.Any?, ctx, o);
            d.Some? ==> EvalCondition(d.value, ctx, o) == EvalCondition(c, ctx, o)
  {
    var cs := if c.All? then c.all else c.any;
    var k := FirstWith(cs, c.Any?, ctx, o);
    if cs != [] {
      if k < |cs| {
        assert EvalCondition(cs[k], ctx, o) == c.Any?;
      } else {
        assert EvalCondition(cs[0], ctx, o) != c.Any?;
      }
    }
  }

  /** Whenever there is a deciding leaf, its own truth is the truth of the whole condition, at any
      nesting; there is none exactly when the chain of picks ends in an empty group. */
  lemma {:induction false} LeafDecides(c: Condition, ctx: Context, o: Oracle)
    ensures var leaf := DecidingLeaf(c, ctx, o);
            leaf.Some? ==> LeafHolds(leaf.value, ctx, o) == EvalCondition(c, ctx, o)
    decreases c
  {
    if !c.Compare? {
      var cs := if c.All? then c.all else c.any;
      var d := Pick(cs, c.Any?, ctx, o);
      if d.Some? {
        PickDecides(c, ctx, o);
        LeafDecides(d.value, ctx, o);
      }
    }
  }

  /** The chain of picks from `c` reaches an empty group. */
  predicate ReachesEmpty(c: Condition, ctx: Context, o: Oracle) {
    match c
    case Compare(_, _, _) => false
    case All(cs) => cs == [] || (var d := Pick(cs, false, ctx, o); d.Some? && ReachesEmpty(d.value, ctx, o))
    case Any(cs) => cs == [] || (var d := Pick(cs, true, ctx, o); d.Some? && ReachesEmpty(d.value, ctx, o))
  }

  lemma {:induction false} NoLeafIffEmpty(c: Condition, ctx: Context, o: Oracle)
    ensures DecidingLeaf(c, ctx, o) == None <==> ReachesEmpty(c, ctx, o)
    decreases c
  {
    if !c.Compare? {
      var d := Pick(if c.All? then c.all else c.any, c.Any?, ctx, o);
      if d.Some? {
        NoLeafIffEmpty(d.value, ctx, o);
      }
    }
  }

  // ---------------------------------------------------------------------------------------
  // Selecting a branch

  datatype Label = Then | ElifAt(index: nat) | Else | NoBranch

  datatype Selection = Selection(steps: seq<Step>, branch: Label)

  function FirstElif(elifs: seq<Elif>, ctx: Context, o: Oracle): (k: nat)
    ensures k <= |elifs|
    ensures k < |elifs| ==> EvalCondition(elifs[k].cond, ctx, o)
    ensures forall i :: 0 <= i < k ==> !EvalCondition(elifs[i].cond, ctx, o)
  {
    if elifs == [] || EvalCondition(elifs[0].cond, ctx, o) then 0
    else
      var k := FirstElif(elifs[1..], ctx, o);
      assert forall i :: 1 <= i < 1 + k ==> elifs[i] == elifs[1..][i - 1];
      1 + k
  }

  /** The steps an `if` takes, and the label of the decision. */
  function Select(s: Step, ctx: Context, o: Oracle): Selection
    requires s.If?
  {
    if EvalCondition(s.cond, ctx, o) then Selection(s.thn, Then)
    else
      var k := FirstElif(s.elifs, ctx, o);
      if k < |s.elifs| then Selection(s.elifs[k].thn, ElifAt(k))
      else Selection(s.els, if s.els == [] then NoBranch else Else)
  }

  /** Elif `k` is the first whose condition holds. */
  ghost predicate IsFirstElif(elifs: seq<Elif>, ctx: Context, o: Oracle, k: nat) {
    k < |elifs| && EvalCondition(elifs[k].cond, ctx, o)
    && forall i :: 0 <= i < k ==> !EvalCondition(elifs[i].cond, ctx, o)
  }

  /** Takes the first branch whose condition holds, else the else steps, under the label of that branch. */
  method SelectBranch(s: Step, ctx: Context, o: Oracle) returns (r: Selection)
    requires s.If?
    ensures r == Select(s, ctx, o)
    ensures r.branch == Then <==> EvalCondition(s.cond, ctx, o)
    ensures r.branch == Then ==> r.steps == s.thn
    ensures forall k :: r.branch == ElifAt(k) <==> !EvalCondition(s.cond, ctx, o) && IsFirstElif(s.elifs, ctx, o, k)
    ensures r.branch.ElifAt? ==> r.branch.index < |s.elifs| && r.steps == s.elifs[r.branch.index].thn
    ensures r.branch == Else || r.branch == NoBranch ==> r.steps == s.els && (r.branch == NoBranch <==> s.els == [])
  {
    if EvalCondition(s.cond, ctx, o) {
      return Selection(s.thn, Then);
    }
    r := if s.els == [] then Selection(s.els, NoBranch) else Selection(s.els, Else);
    for j := 0 to |s.elifs|
      invariant forall i :: 0 <= i < j ==> !EvalCondition(s.elifs[i].cond, ctx, o)
    {
      if EvalCondition(s.elifs[j].cond, ctx, o) {
        assert FirstElif(s.elifs, ctx, o) == j;
        return Selection(s.elifs[j].thn, ElifAt(j));
      }
    }
  }

  datatype Explained = Explained(branch: Label, passed: bool, leaf: Option<Leaf>)

  /** The `k`-th condition an `if` tries, and its label. */
  function Tried(s: Step, k: nat): (Label, Condition)
    requires s.If? && k <= |s.elifs|
  {
    if k == 0 then (Then, s.cond) else (ElifAt(k - 1), s.elifs[k - 1].cond)
  }

  /** Explains the conditions in order, up to and including the first that holds.  The explanation
      refines the selection: only its last entry can have passed, and that entry's label is the
      branch taken; if it did not pass, everything was tried and no condition branch is taken. */
  method ExplainBranches(s: Step, ctx: Context, o: Oracle) returns (out: seq<Explained>)
    requires s.If?
    ensures 0 < |out| <= |s.elifs| + 1
    ensures forall i :: 0 <= i < |out| ==>
                          var (branch, cond) := Tried(s, i);
                          out[i] == Explained(branch, EvalCondition(cond, ctx, o), DecidingLeaf(cond, ctx, o))
    ensures forall i :: 0 <= i < |out| - 1 ==> !out[i].passed
    ensures out[|out| - 1].passed ==> Select(s, ctx, o).branch == out[|out| - 1].branch
    ensures !out[|out| - 1].passed ==>
              |out| == |s.elifs| + 1 && (Select(s, ctx, o).branch == Else || Select(s, ctx, o).branch == NoBranch)
    ensures forall i :: 0 <= i < |out| && out[i].leaf.Some? ==> LeafHolds(out[i].leaf.value, ctx, o) == out[i].passed
  {
    out := [];
    for k := 0 to |s.elifs| + 1
      invariant |out| == k
      invariant forall i :: 0 <= i < k ==>
                              var (branch, cond) := Tried(s, i);
                              out[i] == Explained(branch, EvalCondition(cond, ctx, o), DecidingLeaf(cond, ctx, o))
                                  && !out[i].passed
      invariant forall i :: 0 <= i < k && out[i].leaf.Some? ==> LeafHolds(out[i].leaf.value, ctx, o) == out[i].passed
    {
      var (branch, cond) := Tried(s, k);
      var passed := EvalCondition(cond, ctx, o);
      LeafDecides(cond, ctx, o);
      out := out + [Explained(branch, passed, DecidingLeaf(cond, ctx, o))];
      if passed {
        SelectTried(s, ctx, o, k);
        return;
      }
    }
    NothingTried(s, ctx, o);
  }

  lemma SelectTried(s: Step, ctx: Context, o: Oracle, k: nat)
    requires s.If? && k <= |s.elifs| && EvalCondition(Tried(s, k).1, ctx, o)
    requires forall i :: 0 <= i < k ==> !EvalCondition(Tried(s, i).1, ctx, o)
    ensures Select(s, ctx, o).branch == Tried(s, k).0
  {
    if k > 0 {
      assert !EvalCondition(Tried(s, 0).1, ctx, o);
      forall i | 0 <= i < k - 1
        ensures !EvalCondition(s.elifs[i].cond, ctx, o)
      {
        assert !EvalCondition(Tried(s, i + 1).1, ctx, o);
      }
      assert FirstElif(s.elifs, ctx, o) == k - 1;
    }
  }

  lemma NothingTried(s: Step, ctx: Context, o: Oracle)
    requires s.If? && forall i :: 0 <= i <= |s.elifs| ==> !EvalCondition(Tried(s, i).1, ctx, o)
    ensures Select(s, ctx, o).branch == Else || Select(s, ctx, o).branch == NoBranch
  {
    assert !EvalCondition(Tried(s, 0).1, ctx, o);
    forall i | 0 <= i < |s.elifs|
      ensures !EvalCondition(s.elifs[i].cond, ctx, o)
    {
      assert !EvalCondition(Tried(s, i + 1).1, ctx, o);
    }
  }

  // ---------------------------------------------------------------------------------------
  // Which texts a decision renders

  /** The texts of a condition that decide it; `exists` and `empty` have no right-hand side. */
  function ConditionTexts(c: Condition): seq<string>
    decreases c, 0
  {
    match c
    case All(cs) => TextsOfConditions(cs)
    case Any(cs) => TextsOfConditions(cs)
    case Compare(left, op, right) => [left] + if op.Exists? || op.Empty? || right.None? then [] else [right.value]
  }

  function TextsOfConditions(cs: seq<Condition>): seq<string>
    decreases cs
  {
    if cs == [] then [] else ConditionTexts(cs[0]) + TextsOfConditions(cs[1..])
  }

  function TextsOfElifs(elifs: seq<Elif>): seq<string> {
    if elifs == [] then [] else ConditionTexts(elifs[0].cond) + TextsOfElifs(elifs[1..])
  }

  function IfTexts(s: Step): seq<string>
    requires s.If?
  {
    ConditionTexts(s.cond) + TextsOfElifs(s.elifs)
  }

  lemma {:induction false} TextsOfConditionAt(cs: seq<Condition>, k: nat, c: Context, d: Context)
    requires k < |cs| && SameOn(TextsOfConditions(cs), c, d)
    ensures SameOn(ConditionTexts(cs[k]), c, d)
    decreases k
  {
    hide SameOn, ConditionTexts;
    SameOnAppend(ConditionTexts(cs[0]), TextsOfConditions(cs[1..]), c, d);
    if k > 0 {
      TextsOfConditionAt(cs[1..], k - 1, c, d);
    }
  }

  lemma CompareSeesValues(left: string, op: CompareOp, right: Option<string>, c: Context, d: Context, o: Oracle)
    requires SameOn(ConditionTexts(Compare(left, op, right)), c, d)
    ensures EvalCompare(left, op, right, c, o) == EvalCompare(left, op, right, d, o)
  {
    hide Tokens;
    var texts := ConditionTexts(Compare(left, op, right));
    assert texts[0] == left;
    OnlyValuesMatter(Tokens(left), c, d);
    if !(op.Exists? || op.Empty? || right.None?) {
      assert texts[1] == right.value;
      OnlyValuesMatter(Tokens(right.value), c, d);
    }
  }

  /** Two contexts that give the same values to the tokens of a condition decide it alike. */
  lemma {:induction false} ConditionSeesValues(cond: Condition, c: Context, d: Context, o: Oracle)
    requires SameOn(ConditionTexts(cond), c, d)
    ensures EvalCondition(cond, c, o) == EvalCondition(cond, d, o)
    decreases cond
  {
    hide EvalCompare, SameOn, Tokens, TextsOfConditions;
    match cond
    case Compare(left, op, right) => CompareSeesValues(left, op, right, c, d, o);
    case All(cs) =>
      forall k | 0 <= k < |cs| ensures EvalCondition(cs[k], c, o) == EvalCondition(cs[k], d, o) {
        TextsOfConditionAt(cs, k, c, d);
        ConditionSeesValues(cs[k], c, d, o);
      }
    case Any(cs) =>
      forall k | 0 <= k < |cs| ensures EvalCondition(cs[k], c, o) == EvalCondition(cs[k], d, o) {
        TextsOfConditionAt(cs, k, c, d);
        ConditionSeesValues(cs[k], c, d, o);
      }
  }

  lemma {:induction false} FirstElifSeesValues(elifs: seq<Elif>, c: Context, d: Context, o: Oracle)
    requires SameOn(TextsOfElifs(elifs), c, d)
    ensures FirstElif(elifs, c, o) == FirstElif(elifs, d, o)
  {
    if elifs != [] {
      SameOnAppend(ConditionTexts(elifs[0].cond), TextsOfElifs(elifs[1..]), c, d);
      ConditionSeesValues(elifs[0].cond, c, d, o);
      FirstElifSeesValues(elifs[1..], c, d, o);
    }
  }

  /** They take the same branch. */
  lemma SelectSeesValues(s: Step, c: Context, d: Context, o: Oracle)
    requires s.If? && SameOn(IfTexts(s), c, d)
    ensures Select(s, c, o) == Select(s, d, o)
  {
    SameOnAppend(ConditionTexts(s.cond), TextsOfElifs(s.elifs), c, d);
    ConditionSeesValues(s.cond, c, d, o);
    FirstElifSeesValues(s.elifs, c, d, o);
  }
}
