/** What an allowlisted path selects, said by locations: a node is in the result exactly if its location
    matches the segments one by one. */
module JsonPathMatch {
  import opened Text
  import opened JsonValues
  import opened JsonPaths
  import opened JsonPathEval

  /** `w` is the child of `v` at the step. */
  ghost predicate IsChild(v: Json, step: Step, w: Json) {
    match step
    case Pos(i) => v.Array? && i < |v.items| && v.items[i] == w
    case Key(key) => v.Object? && Member(key, w) in v.members
  }

  /** `w` is what `v` has at the location. */
  ghost predicate AtPath(v: Json, path: seq<Step>, w: Json)
    decreases |path|
  {
    if path == [] then w == v else exists u :: IsChild(v, path[0], u) && AtPath(u, path[1..], w)
  }

  /** The segment takes the child of `v` at the step; a negative index counts from the end. */
  predicate Takes(body: Body, unquote: seq<QuotedChar> -> string, v: Json, step: Step)
    requires ValidSegment(Segment(false, body))
  {
    match body
    case Name(name) => step == Key(name)
    case Wild => true
    case InBrackets(AnyChild) => true
    case InBrackets(Quoted(_, content)) => step == Key(unquote(content))
    case InBrackets(Index(negative, digits)) =>
      var d := DecimalValue(digits);
      v.Array? && step.Pos? && step.index == if negative && d > 0 then |v.items| - d else d
  }

  /** `x` lies `k` steps down the location, and the segment takes its child `u` that lies next. */
  ghost predicate TakenAt(seg: Segment, unquote: seq<QuotedChar> -> string, v: Json, path: seq<Step>, k: nat, x: Json,
                          u: Json)
    requires ValidSegment(seg)
  {
    && k < |path| && AtPath(v, path[..k], x) && IsChild(x, path[k], u) && Takes(seg.body, unquote, x, path[k])
    && (seg.descend || k == 0)
  }

  /** The location leads from `v` to `w` by the segments: each takes one step, and one with `..` any number
      of steps before it. */
  ghost predicate Matches(segs: seq<Segment>, unquote: seq<QuotedChar> -> string, v: Json, path: seq<Step>, w: Json)
    requires forall i :: 0 <= i < |segs| ==> ValidSegment(segs[i])
    decreases |segs|
  {
    if segs == [] then path == [] && w == v
    else exists k: nat, x, u ::
           TakenAt(segs[0], unquote, v, path, k, x, u) && Matches(segs[1..], unquote, u, path[k + 1..], w)
  }

  // ---------------------------------------------------------------------------------------
  // Members of the node lists

  /** `n` lies below `m` by the location `path`. */
  predicate Leads(m: Node, path: seq<Step>, n: Node) {
    n.path == m.path + path
  }

  lemma InChildren(m: Node, n: Node)
    ensures n in Children(m) <==> exists step :: Leads(m, [step], n) && IsChild(m.value, step, n.value)
  {
    var kids := Kids(m.value);
    if n in Children(m) {
      var i :| 0 <= i < |kids| && ChildOf(m, kids[i]) == n;
      assert Leads(m, [kids[i].step], n) && IsChild(m.value, kids[i].step, n.value);
    }
    if step :| Leads(m, [step], n) && IsChild(m.value, step, n.value) {
      match step
      case Pos(i) => assert ChildOf(m, kids[i]) == n && Children(m)[i] == n;
      case Key(key) =>
        var i :| 0 <= i < |m.value.members| && m.value.members[i] == Member(key, n.value);
        assert ChildOf(m, kids[i]) == n && Children(m)[i] == n;
    }
  }

  lemma {:induction false} FindKeyFinds(members: seq<Member>, key: string)
    ensures var k := FindKey(members, key);
            (forall i :: 0 <= i < k ==> members[i].key != key) && (k < |members| ==> members[k].key == key)
  {
    if members != [] && members[0].key != key {
      FindKeyFinds(members[1..], key);
    }
  }

  /** A name or index selector takes exactly the child its step names. */
  lemma InSelected(body: Body, unquote: seq<QuotedChar> -> string, m: Node, n: Node)
    requires ValidSegment(Segment(false, body)) && WellFormed(m.value)
    ensures n in Select(SelectorOf(body, unquote), m)
            <==> exists step :: Leads(m, [step], n) && IsChild(m.value, step, n.value)
                                && Takes(body, unquote, m.value, step)
  {
    InChildren(m, n);
    var sel := SelectorOf(body, unquote);
    if !sel.All? {
      var k, kids := Position(m.value, sel), Kids(m.value);
      if m.value.Object? && sel.ByName? {
        FindKeyFinds(m.value.members, sel.name);
      }
      forall step
        ensures IsChild(m.value, step, n.value) && Takes(body, unquote, m.value, step)
                <==> k < |kids| && kids[k] == Kid(step, n.value)
      {
        OnlyStep(body, unquote, m.value, step, n.value);
      }
      if k < |kids| {
        assert n == Children(m)[k] <==> Leads(m, [kids[k].step], n) && n.value == kids[k].value;
      }
    }
  }

  predicate StepOf(sel: Selector, v: Json, step: Step) {
    match sel
    case All => true
    case ByName(name) => step == Key(name)
    case ByIndex(i) => v.Array? && step.Pos? && step.index == if i >= 0 then i else |v.items| + i
  }

  lemma TakesStep(body: Body, unquote: seq<QuotedChar> -> string, v: Json, step: Step)
    requires ValidSegment(Segment(false, body))
    ensures Takes(body, unquote, v, step) <==> StepOf(SelectorOf(body, unquote), v, step)
  {
    hide DecimalValue;
  }

  lemma OnlyMember(members: seq<Member>, name: string, w: Json)
    requires forall i, j :: 0 <= i < j < |members| ==> members[i].key != members[j].key
    ensures var k := FindKey(members, name); Member(name, w) in members <==> k < |members| && members[k].value == w
  {
    hide FindKey;
    FindKeyFinds(members, name);
    var k := FindKey(members, name);
    if i :| 0 <= i < |members| && members[i] == Member(name, w) {
      assert i == k;
    }
    assert k < |members| && members[k].value == w ==> members[k] == Member(name, w);
  }

  lemma DistinctKeys(v: Json)
    requires WellFormed(v) && v.Object?
    ensures forall i, j :: 0 <= i < j < |v.members| ==> v.members[i].key != v.members[j].key
  {
  }

  lemma OnlyStep(body: Body, unquote: seq<QuotedChar> -> string, v: Json, step: Step, w: Json)
    requires ValidSegment(Segment(false, body)) && WellFormed(v) && !SelectorOf(body, unquote).All?
    ensures var k, kids := Position(v, SelectorOf(body, unquote)), Kids(v);
            IsChild(v, step, w) && Takes(body, unquote, v, step) <==> k < |kids| && kids[k] == Kid(step, w)
  {
    hide SelectorOf, Takes, FindKey, WellFormed;
    var sel := SelectorOf(body, unquote);
    TakesStep(body, unquote, v, step);
    if v.Object? && sel.ByName? {
      DistinctKeys(v);
      FindKeyFinds(v.members, sel.name);
      OnlyMember(v.members, sel.name, w);
    }
  }

  lemma {:induction false} InSelectAll(sel: Selector, ns: seq<Node>, n: Node)
    ensures n in SelectAll(sel, ns) <==> exists i :: 0 <= i < |ns| && n in Select(sel, ns[i])
  {
    hide Select;
    if ns != [] {
      var rest := ns[1..];
      InSelectAll(sel, rest, n);
      if i :| 0 <= i < |rest| && n in Select(sel, rest[i]) {
        assert n in Select(sel, ns[i + 1]);
      }
      if i :| 0 <= i < |ns| && n in Select(sel, ns[i]) {
        assert i > 0 ==> n in Select(sel, rest[i - 1]);
      }
    }
  }

  lemma {:induction false} InVisitAll(ns: seq<Node>, n: Node)
    ensures n in VisitAll(ns) <==> exists i :: 0 <= i < |ns| && n in Visit(ns[i])
  {
    hide Visit;
    if ns != [] {
      var rest := ns[1..];
      InVisitAll(rest, n);
      if i :| 0 <= i < |rest| && n in Visit(rest[i]) {
        assert n in Visit(ns[i + 1]);
      }
      if i :| 0 <= i < |ns| && n in Visit(ns[i]) {
        assert i > 0 ==> n in Visit(rest[i - 1]);
      }
    }
  }

  /** `n` is `m` or lies below it, where the tree has it. */
  ghost predicate Under(m: Node, n: Node) {
    exists path :: Leads(m, path, n) && AtPath(m.value, path, n.value)
  }

  lemma UnderKid(m: Node, k: int, path: seq<Step>, n: Node)
    requires BelowKid(m, Kids(m.value), k, path, n)
    ensures Under(m, n)
  {
    var kid := Kids(m.value)[k];
    var longer := [kid.step] + path;
    assert longer[1..] == path;
    KidIsChild(m.value, k);
    assert Leads(m, longer, n) && AtPath(m.value, longer, n.value);
  }

  lemma UnderSplit(m: Node, n: Node)
    requires Under(m, n) && n != m
    ensures exists k, path :: BelowKid(m, Kids(m.value), k, path, n)
  {
    var path :| Leads(m, path, n) && AtPath(m.value, path, n.value);
    assert path != [] by {
      assert m.path + [] == m.path;
    }
    var u :| IsChild(m.value, path[0], u) && AtPath(u, path[1..], n.value);
    var k := KidOf(m.value, path[0], u);
    assert path == [path[0]] + path[1..];
    assert BelowKid(m, Kids(m.value), k, path[1..], n);
  }

  /** The nodes visited from `m` are exactly those that lie under it. */
  lemma {:induction false} InVisit(m: Node, n: Node)
    ensures n in Visit(m) <==> Under(m, n)
    decreases m.value, 1, 0
  {
    hide VisitKids, BelowKid, Under;
    InVisitKids(m, Kids(m.value), n);
    if n == m {
      UnderItself(m);
    } else if Under(m, n) {
      UnderSplit(m, n);
    }
    if k, path :| BelowKid(m, Kids(m.value), k, path, n) {
      UnderKid(m, k, path, n);
    }
  }

  lemma UnderItself(m: Node)
    ensures Under(m, m)
  {
    assert m.path + [] == m.path;
    assert Leads(m, [], m) && AtPath(m.value, [], m.value);
  }

  ghost predicate BelowKid(m: Node, kids: seq<Kid>, k: int, path: seq<Step>, n: Node) {
    0 <= k < |kids| && Leads(ChildOf(m, kids[k]), path, n) && AtPath(kids[k].value, path, n.value)
  }

  lemma KidIsChild(v: Json, k: nat)
    requires k < |Kids(v)|
    ensures IsChild(v, Kids(v)[k].step, Kids(v)[k].value)
  {
  }

  lemma KidOf(v: Json, step: Step, u: Json) returns (k: nat)
    requires IsChild(v, step, u)
    ensures k < |Kids(v)| && Kids(v)[k] == Kid(step, u)
  {
    match step
    case Pos(i) => k := i;
    case Key(key) => k :| 0 <= k < |v.members| && v.members[k] == Member(key, u);
  }

  lemma {:induction false} InVisitKids(m: Node, kids: seq<Kid>, n: Node)
    requires forall i :: 0 <= i < |kids| ==> kids[i].value < m.value
    ensures n in VisitKids(m, kids) <==> exists k, path :: BelowKid(m, kids, k, path, n)
    decreases m.value, 0, |kids|
  {
    hide Visit;
    if kids != [] {
      var rest := kids[1..];
      InVisit(ChildOf(m, kids[0]), n);
      InVisitKids(m, rest, n);
      if path :| Leads(ChildOf(m, kids[0]), path, n) && AtPath(kids[0].value, path, n.value) {
        assert BelowKid(m, kids, 0, path, n);
      }
      if k, path :| BelowKid(m, rest, k, path, n) {
        assert BelowKid(m, kids, k + 1, path, n);
      }
      if k, path :| BelowKid(m, kids, k, path, n) {
        assert k > 0 ==> BelowKid(m, rest, k - 1, path, n);
      }
    }
  }

  lemma ChildWellFormed(v: Json, step: Step, w: Json)
    requires WellFormed(v) && IsChild(v, step, w)
    ensures WellFormed(w)
  {
    var k := KidOf(v, step, w);
    KidsDistinct(v);
  }

  lemma {:induction false} WellFormedBelow(v: Json, path: seq<Step>, w: Json)
    requires WellFormed(v) && AtPath(v, path, w)
    ensures WellFormed(w)
    decreases |path|
  {
    if path != [] {
      var u :| IsChild(v, path[0], u) && AtPath(u, path[1..], w);
      ChildWellFormed(v, path[0], u);
      WellFormedBelow(u, path[1..], w);
    }
  }

  // ---------------------------------------------------------------------------------------
  // One segment

  /** Node `i` of the list leads to `y` by the segment. */
  ghost predicate Reaches(seg: Segment, unquote: seq<QuotedChar> -> string, ns: seq<Node>, i: int, path: seq<Step>,
                          x: Json, y: Node)
    requires ValidSegment(seg)
  {
    && 0 <= i < |ns| && path != [] && Leads(ns[i], path, y)
    && TakenAt(seg, unquote, ns[i].value, path, |path| - 1, x, y.value)
  }

  lemma ReachedByNode(seg: Segment, unquote: seq<QuotedChar> -> string, ns: seq<Node>, i: int, path: seq<Step>,
                      x: Json, y: Node)
    requires ValidSegment(seg) && AllWellFormed(ns) && Reaches(seg, unquote, ns, i, path, x, y)
    ensures y in EvalSegment(seg, unquote, ns)
  {
    hide Select, SelectorOf, Takes, Visit, VisitAll, SelectAll, AtPath, IsChild;
    var k, sel := |path| - 1, SelectorOf(seg.body, unquote);
    var from := if seg.descend then VisitAll(ns) else ns;
    var node := Node(ns[i].path + path[..k], x);
    assert path == path[..k] + [path[k]];
    assert Leads(ns[i], path[..k], node) && Leads(node, [path[k]], y);
    WellFormedBelow(ns[i].value, path[..k], x);
    InSelected(seg.body, unquote, node, y);
    assert y in Select(sel, node);
    assert node in from by {
      if seg.descend {
        assert Under(ns[i], node);
        InVisit(ns[i], node);
        InVisitAll(ns, node);
      } else {
        NoWay(ns[i].value, x);
        assert path[..k] == [] && ns[i].path + [] == ns[i].path;
        assert node == ns[i];
      }
    }
    InSelectAll(sel, from, y);
  }

  lemma NoWay(v: Json, w: Json)
    ensures AtPath(v, [], w) <==> w == v
  {
  }

  lemma NodeReached(seg: Segment, unquote: seq<QuotedChar> -> string, ns: seq<Node>, y: Node)
    requires ValidSegment(seg) && AllWellFormed(ns) && y in EvalSegment(seg, unquote, ns)
    ensures WellFormed(y.value) && exists i, path, x :: Reaches(seg, unquote, ns, i, path, x, y)
  {
    hide Select, SelectorOf, Takes, Visit, VisitAll, SelectAll, AtPath, IsChild, Leads, Reaches;
    var sel := SelectorOf(seg.body, unquote);
    var from := if seg.descend then VisitAll(ns) else ns;
    InSelectAll(sel, from, y);
    var j :| 0 <= j < |from| && y in Select(sel, from[j]);
    var node := from[j];
    var i, before := Origin(seg, ns, node);
    WellFormedBelow(ns[i].value, before, node.value);
    InSelected(seg.body, unquote, node, y);
    var step :| Leads(node, [step], y) && IsChild(node.value, step, y.value)
                && Takes(seg.body, unquote, node.value, step);
    ChildWellFormed(node.value, step, y.value);
    OneStepMore(seg, unquote, ns, i, before, node, step, y);
  }

  lemma OneStepMore(seg: Segment, unquote: seq<QuotedChar> -> string, ns: seq<Node>, i: nat, before: seq<Step>,
                    node: Node, step: Step, y: Node)
    requires ValidSegment(seg) && i < |ns| && Leads(ns[i], before, node) && Leads(node, [step], y)
    requires AtPath(ns[i].value, before, node.value) && IsChild(node.value, step, y.value)
    requires Takes(seg.body, unquote, node.value, step) && (seg.descend || before == [])
    ensures Reaches(seg, unquote, ns, i, before + [step], node.value, y)
  {
    hide Takes, AtPath, IsChild;
    var path := before + [step];
    assert path[..|before|] == before;
    LeadsOn(ns[i], before, node, [step], y);
  }

  lemma LeadsOn(m: Node, path: seq<Step>, node: Node, more: seq<Step>, n: Node)
    requires Leads(m, path, node) && Leads(node, more, n)
    ensures Leads(m, path + more, n)
  {
  }

  lemma Origin(seg: Segment, ns: seq<Node>, node: Node) returns (i: nat, before: seq<Step>)
    requires node in if seg.descend then VisitAll(ns) else ns
    ensures i < |ns| && Leads(ns[i], before, node) && AtPath(ns[i].value, before, node.value)
    ensures !seg.descend ==> before == []
  {
    hide Visit, VisitAll, AtPath;
    if seg.descend {
      InVisitAll(ns, node);
      i :| 0 <= i < |ns| && node in Visit(ns[i]);
      InVisit(ns[i], node);
      before :| Leads(ns[i], before, node) && AtPath(ns[i].value, before, node.value);
    } else {
      i :| 0 <= i < |ns| && ns[i] == node;
      before := [];
      NoWay(node.value, node.value);
      assert node.path + [] == node.path;
    }
  }

  // ---------------------------------------------------------------------------------------
  // All segments

  /** Node `i` of the list leads to `n` by all segments. */
  ghost predicate Arrives(segs: seq<Segment>, unquote: seq<QuotedChar> -> string, ns: seq<Node>, i: int,
                          path: seq<Step>, n: Node)
    requires forall i :: 0 <= i < |segs| ==> ValidSegment(segs[i])
  {
    0 <= i < |ns| && Leads(ns[i], path, n) && Matches(segs, unquote, ns[i].value, path, n.value)
  }

  lemma {:induction false} InEval(segs: seq<Segment>, unquote: seq<QuotedChar> -> string, ns: seq<Node>, n: Node)
    requires (forall i :: 0 <= i < |segs| ==> ValidSegment(segs[i])) && AllWellFormed(ns)
    ensures n in Eval(segs, unquote, ns) <==> exists i, path :: Arrives(segs, unquote, ns, i, path, n)
    decreases |segs|
  {
    hide EvalSegment;
    if segs == [] {
      NothingLeft(segs, unquote, ns, n);
    } else {
      var seg, rest, once := segs[0], segs[1..], EvalSegment(segs[0], unquote, ns);
      forall y | y in once
        ensures WellFormed(y.value)
      {
        NodeReached(seg, unquote, ns, y);
      }
      assert AllWellFormed(once);
      InEval(rest, unquote, once, n);
      if j, after :| Arrives(rest, unquote, once, j, after, n) {
        ArrivesFirst(segs, unquote, ns, once[j], j, after, n);
      }
      if i, path :| Arrives(segs, unquote, ns, i, path, n) {
        var j, after := ArrivesLater(segs, unquote, ns, i, path, n);
      }
    }
  }

  lemma NothingLeft(segs: seq<Segment>, unquote: seq<QuotedChar> -> string, ns: seq<Node>, n: Node)
    requires segs == []
    ensures n in ns <==> exists i, path :: Arrives(segs, unquote, ns, i, path, n)
  {
    if i :| 0 <= i < |ns| && ns[i] == n {
      assert n.path + [] == n.path;
      assert Arrives(segs, unquote, ns, i, [], n);
    }
    if i, path :| Arrives(segs, unquote, ns, i, path, n) {
      assert ns[i].path + [] == ns[i].path && ns[i] == n;
    }
  }

  lemma ArrivesFirst(segs: seq<Segment>, unquote: seq<QuotedChar> -> string, ns: seq<Node>, y: Node, j: int,
                     after: seq<Step>, n: Node)
    requires segs != [] && (forall i :: 0 <= i < |segs| ==> ValidSegment(segs[i])) && AllWellFormed(ns)
    requires var once := EvalSegment(segs[0], unquote, ns);
             0 <= j < |once| && once[j] == y && Arrives(segs[1..], unquote, once, j, after, n)
    ensures exists i, path :: Arrives(segs, unquote, ns, i, path, n)
  {
    hide EvalSegment, Takes, AtPath, IsChild;
    assert y in EvalSegment(segs[0], unquote, ns);
    NodeReached(segs[0], unquote, ns, y);
    var i, path, x :| Reaches(segs[0], unquote, ns, i, path, x, y);
    var whole, k := path + after, |path| - 1;
    assert whole[..k] == path[..k] && whole[k] == path[k] && whole[k + 1..] == after;
    assert TakenAt(segs[0], unquote, ns[i].value, whole, k, x, y.value);
    assert Leads(ns[i], whole, n);
    assert Arrives(segs, unquote, ns, i, whole, n);
  }

  lemma ArrivesLater(segs: seq<Segment>, unquote: seq<QuotedChar> -> string, ns: seq<Node>, i: int, path: seq<Step>,
                     n: Node) returns (j: int, after: seq<Step>)
    requires segs != [] && (forall i :: 0 <= i < |segs| ==> ValidSegment(segs[i])) && AllWellFormed(ns)
    requires Arrives(segs, unquote, ns, i, path, n)
    ensures Arrives(segs[1..], unquote, EvalSegment(segs[0], unquote, ns), j, after, n)
  {
    hide EvalSegment, Matches, TakenAt, AtPath;
    var once := EvalSegment(segs[0], unquote, ns);
    var k, x, u := FirstMatch(segs, unquote, ns[i].value, path, n.value);
    var first := path[..k + 1];
    after := path[k + 1..];
    var y := Node(ns[i].path + first, u);
    assert path == first + after;
    TakenSooner(segs[0], unquote, ns[i].value, path, k, x, u);
    ReachedByNode(segs[0], unquote, ns, i, first, x, y);
    j :| 0 <= j < |once| && once[j] == y;
    assert Leads(y, after, n);
  }

  lemma FirstMatch(segs: seq<Segment>, unquote: seq<QuotedChar> -> string, v: Json, path: seq<Step>, w: Json)
    returns (k: nat, x: Json, u: Json)
    requires segs != [] && (forall i :: 0 <= i < |segs| ==> ValidSegment(segs[i])) && Matches(segs, unquote, v, path, w)
    ensures TakenAt(segs[0], unquote, v, path, k, x, u) && k < |path|
            && Matches(segs[1..], unquote, u, path[k + 1..], w)
  {
    k, x, u :| TakenAt(segs[0], unquote, v, path, k, x, u) && Matches(segs[1..], unquote, u, path[k + 1..], w);
  }

  lemma TakenSooner(seg: Segment, unquote: seq<QuotedChar> -> string, v: Json, path: seq<Step>, k: nat, x: Json,
                    u: Json)
    requires ValidSegment(seg) && TakenAt(seg, unquote, v, path, k, x, u)
    ensures k < |path| && TakenAt(seg, unquote, v, path[..k + 1], k, x, u)
  {
    hide Takes, AtPath, IsChild;
    assert path[..k + 1][..k] == path[..k];
  }

  /** Completeness and soundness of evaluation: for every path the recogniser accepts, the result holds
      exactly the nodes whose location matches the path's segments. */
  lemma AcceptedPathsSelectMatches(path: string, unquote: seq<QuotedChar> -> string, v: Json, location: seq<Step>,
                                   w: Json)
    requires InGrammar(path) && WellFormed(v)
    ensures path != "" && Parse(path[1..], false).Some?
    ensures var segs := Parse(path[1..], false).value;
            && (forall i :: 0 <= i < |segs| ==> ValidSegment(segs[i]))
            && (Node(location, w) in Eval(segs, unquote, [Root(v)]) <==> Matches(segs, unquote, v, location, w))
  {
    hide Eval, Matches;
    GrammarIsParse(path);
    ParseSound(path[1..], false);
    var segs, ns, n := Parse(path[1..], false).value, [Root(v)], Node(location, w);
    InEval(segs, unquote, ns, n);
    assert Root(v).path + location == location;
    if Matches(segs, unquote, v, location, w) {
      assert Arrives(segs, unquote, ns, 0, location, n);
    }
    if i, p :| Arrives(segs, unquote, ns, i, p, n) {
      assert Root(v).path + p == p;
    }
  }
}
