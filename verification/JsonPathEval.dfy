/** Evaluation of allowlisted paths on JSON trees, after sections 2.3.1, 2.3.2, 2.3.3, 2.5.1 and
    2.5.2 of RFC 9535, and why such an evaluation never repeats a node. */
module JsonPathEval {
  import opened Text
  import opened JsonValues
  import opened JsonPaths

  /** One step from a node to a child. */
  datatype Step = Key(key: string) | Pos(index: nat)

  /** A node of the tree: its location below the root, and its value. */
  datatype Node = Node(path: seq<Step>, value: Json)

  datatype Selector = All | ByName(name: string) | ByIndex(index: int)

  datatype Kid = Kid(step: Step, value: Json)

  /** The children of a value: array elements in order, object members in their order. */
  function Kids(v: Json): (r: seq<Kid>)
    ensures forall i :: 0 <= i < |r| ==> r[i].value < v
  {
    match v
    case Array(items) => seq(|items|, i requires 0 <= i < |items| => Kid(Pos(i), items[i]))
    case Object(members) => seq(|members|, i requires 0 <= i < |members| => Kid(Key(members[i].key), members[i].value))
    case _ => []
  }

  function ChildOf(n: Node, kid: Kid): Node {
    Node(n.path + [kid.step], kid.value)
  }

  function Children(n: Node): (r: seq<Node>)
    ensures |r| == |Kids(n.value)|
  {
    seq(|Kids(n.value)|, i requires 0 <= i < |Kids(n.value)| => ChildOf(n, Kids(n.value)[i]))
  }

  /** The index of the child a name or index selects, or the number of children if there is none. */
  function Position(v: Json, sel: Selector): (k: nat)
    requires !sel.All?
    ensures k <= |Kids(v)|
  {
    match v
    case Object(members) => if sel.ByName? then FindKey(members, sel.name) else |Kids(v)|
    case Array(items) =>
      if sel.ByName? then |Kids(v)|
      else
        var k := if sel.index >= 0 then sel.index else |items| + sel.index;
        if 0 <= k < |items| then k else |items|
    case _ => |Kids(v)|
  }

  function FindKey(members: seq<Member>, key: string): (k: nat)
    ensures k <= |members|
  {
    if members == [] || members[0].key == key then 0 else 1 + FindKey(members[1..], key)
  }

  /** The children a selector takes from one node. */
  function Select(sel: Selector, n: Node): seq<Node> {
    if sel.All? then Children(n)
    else
      var k := Position(n.value, sel);
      if k < |Children(n)| then [Children(n)[k]] else []
  }

  function SelectAll(sel: Selector, ns: seq<Node>): seq<Node> {
    if ns == [] then [] else Select(sel, ns[0]) + SelectAll(sel, ns[1..])
  }

  /** A node and all its descendants, each before its own descendants. */
  function Visit(n: Node): seq<Node>
    decreases n.value, 1, 0
  {
    [n] + VisitKids(n, Kids(n.value))
  }

  function VisitKids(n: Node, kids: seq<Kid>): seq<Node>
    requires forall i :: 0 <= i < |kids| ==> kids[i].value < n.value
    decreases n.value, 0, |kids|
  {
    if kids == [] then [] else Visit(ChildOf(n, kids[0])) + VisitKids(n, kids[1..])
  }

  function VisitAll(ns: seq<Node>): seq<Node> {
    if ns == [] then [] else Visit(ns[0]) + VisitAll(ns[1..])
  }

  /** What a valid segment selects; `unquote` resolves the escapes of a quoted name. */
  function SelectorOf(body: Body, unquote: seq<QuotedChar> -> string): Selector
    requires ValidSegment(Segment(false, body))
  {
    match body
    case Name(name) => ByName(name)
    case Wild => All
    case InBrackets(AnyChild) => All
    case InBrackets(Quoted(_, content)) => ByName(unquote(content))
    case InBrackets(Index(negative, digits)) =>
      ByIndex(if negative then 0 - DecimalValue(digits) else DecimalValue(digits))
  }

  function EvalSegment(seg: Segment, unquote: seq<QuotedChar> -> string, ns: seq<Node>): seq<Node>
    requires ValidSegment(seg)
  {
    SelectAll(SelectorOf(seg.body, unquote), if seg.descend then VisitAll(ns) else ns)
  }

  /** The node list after all segments, from the node list `ns`. */
  function Eval(segs: seq<Segment>, unquote: seq<QuotedChar> -> string, ns: seq<Node>): seq<Node>
    requires forall i :: 0 <= i < |segs| ==> ValidSegment(segs[i])
  {
    if segs == [] then ns else Eval(segs[1..], unquote, EvalSegment(segs[0], unquote, ns))
  }

  function Root(v: Json): Node {
    Node([], v)
  }

  // ---------------------------------------------------------------------------------------
  // Node lists without repetition

  ghost predicate Distinct(ns: seq<Node>) {
    forall i, j :: 0 <= i < j < |ns| ==> ns[i].path != ns[j].path
  }

  ghost predicate AllWellFormed(ns: seq<Node>) {
    forall i :: 0 <= i < |ns| ==> WellFormed(ns[i].value)
  }

  ghost predicate SameDepth(ns: seq<Node>, depth: nat) {
    forall i :: 0 <= i < |ns| ==> |ns[i].path| == depth
  }

  /** `p` lies at or below the location `q`. */
  predicate Below(p: seq<Step>, q: seq<Step>) {
    q <= p
  }

  function ParentPath(p: seq<Step>): seq<Step>
    requires p != []
  {
    p[..|p| - 1]
  }

  lemma KidsDistinct(v: Json)
    requires WellFormed(v)
    ensures forall i, j :: 0 <= i < j < |Kids(v)| ==> Kids(v)[i].step != Kids(v)[j].step
    ensures forall i :: 0 <= i < |Kids(v)| ==> WellFormed(Kids(v)[i].value)
  {
  }

  lemma SelectDistinct(sel: Selector, n: Node)
    requires WellFormed(n.value)
    ensures var r := Select(sel, n);
            && Distinct(r) && AllWellFormed(r)
            && forall i :: 0 <= i < |r| ==> r[i].path != [] && ParentPath(r[i].path) == n.path
  {
    KidsDistinct(n.value);
    var c := Children(n);
    forall i | 0 <= i < |c|
      ensures c[i].path != [] && ParentPath(c[i].path) == n.path && c[i].path[|n.path|] == Kids(n.value)[i].step
      ensures WellFormed(c[i].value)
    {
    }
  }

  /** `p` is the location of a child of a node of `ns`. */
  ghost predicate HasParentIn(p: seq<Step>, ns: seq<Node>) {
    p != [] && exists k :: 0 <= k < |ns| && ns[k].path == ParentPath(p)
  }

  ghost predicate ParentsIn(r: seq<Node>, ns: seq<Node>) {
    forall i :: 0 <= i < |r| ==> HasParentIn(r[i].path, ns)
  }

  lemma DistinctConcat(a: seq<Node>, b: seq<Node>)
    requires Distinct(a) && Distinct(b)
    requires forall i, j :: 0 <= i < |a| && 0 <= j < |b| ==> a[i].path != b[j].path
    ensures Distinct(a + b)
  {
  }

  /** Children of distinct nodes are distinct: a child's location determines its parent. */
  lemma {:induction false} SelectAllDistinct(sel: Selector, ns: seq<Node>)
    requires Distinct(ns) && AllWellFormed(ns)
    ensures var r := SelectAll(sel, ns); Distinct(r) && AllWellFormed(r) && ParentsIn(r, ns)
    decreases |ns|
  {
    if ns != [] {
      var first, rest := Select(sel, ns[0]), SelectAll(sel, ns[1..]);
      SelectDistinct(sel, ns[0]);
      SelectAllDistinct(sel, ns[1..]);
      forall i | 0 <= i < |rest|
        ensures HasParentIn(rest[i].path, ns) && ParentPath(rest[i].path) != ns[0].path
      {
        assert HasParentIn(rest[i].path, ns[1..]);
        var k :| 0 <= k < |ns[1..]| && ns[1..][k].path == ParentPath(rest[i].path);
        assert ns[k + 1].path == ParentPath(rest[i].path);
      }
      forall i | 0 <= i < |first|
        ensures HasParentIn(first[i].path, ns)
      {
        assert ns[0].path == ParentPath(first[i].path);
      }
      DistinctConcat(first, rest);
    }
  }

  lemma {:induction false} SelectAllDepth(sel: Selector, ns: seq<Node>, depth: nat)
    requires SameDepth(ns, depth)
    ensures SameDepth(SelectAll(sel, ns), depth + 1)
  {
    if ns != [] {
      SelectAllDepth(sel, ns[1..], depth);
    }
  }

  /** The subtree of a node: distinct locations, all below the node's own. */
  lemma {:induction false} VisitDistinct(n: Node)
    requires WellFormed(n.value)
    ensures var r := Visit(n);
            Distinct(r) && AllWellFormed(r) && forall i :: 0 <= i < |r| ==> Below(r[i].path, n.path)
    decreases n.value, 1, 0
  {
    KidsDistinct(n.value);
    VisitKidsDistinct(n, Kids(n.value));
    var r, below := Visit(n), VisitKids(n, Kids(n.value));
    forall i, j | 0 <= i < j < |r|
      ensures r[i].path != r[j].path
    {
      assert r[j] == below[j - 1];
      assert i > 0 ==> r[i] == below[i - 1];
    }
  }

  lemma {:induction false} VisitKidsDistinct(n: Node, kids: seq<Kid>)
    requires forall i :: 0 <= i < |kids| ==> kids[i].value < n.value && WellFormed(kids[i].value)
    requires forall i, j :: 0 <= i < j < |kids| ==> kids[i].step != kids[j].step
    ensures var r := VisitKids(n, kids);
            && Distinct(r) && AllWellFormed(r)
            && forall i :: 0 <= i < |r| ==>
                 |r[i].path| > |n.path| && Below(r[i].path, n.path)
                 && exists k :: 0 <= k < |kids| && r[i].path[|n.path|] == kids[k].step
    decreases n.value, 0, |kids|
  {
    hide Visit;
    if kids != [] {
      var child := ChildOf(n, kids[0]);
      var first, rest := Visit(child), VisitKids(n, kids[1..]);
      VisitDistinct(child);
      VisitKidsDistinct(n, kids[1..]);
      var r := VisitKids(n, kids);
      forall i | 0 <= i < |first|
        ensures |first[i].path| > |n.path| && Below(first[i].path, n.path) && first[i].path[|n.path|] == kids[0].step
      {
        assert child.path <= first[i].path;
        assert child.path[|n.path|] == kids[0].step;
      }
      forall i | 0 <= i < |rest|
        ensures rest[i].path[|n.path|] != kids[0].step
        ensures exists k :: 0 <= k < |kids| && rest[i].path[|n.path|] == kids[k].step
      {
        var k :| 0 <= k < |kids[1..]| && rest[i].path[|n.path|] == kids[1..][k].step;
        assert kids[k + 1].step == kids[1..][k].step;
      }
      forall i | 0 <= i < |r|
        ensures |r[i].path| > |n.path| && Below(r[i].path, n.path)
        ensures exists k :: 0 <= k < |kids| && r[i].path[|n.path|] == kids[k].step
        ensures WellFormed(r[i].value)
      {
        if i < |first| {
          assert r[i] == first[i];
        } else {
          assert r[i] == rest[i - |first|];
        }
      }
      DistinctConcat(first, rest);
    }
  }

  /** Subtrees of distinct nodes at one depth do not overlap. */
  lemma {:induction false} VisitAllDistinct(ns: seq<Node>, depth: nat)
    requires Distinct(ns) && AllWellFormed(ns) && SameDepth(ns, depth)
    ensures var r := VisitAll(ns);
            && Distinct(r) && AllWellFormed(r)
            && forall i :: 0 <= i < |r| ==> exists k :: 0 <= k < |ns| && Below(r[i].path, ns[k].path)
    decreases |ns|
  {
    hide Visit;
    if ns != [] {
      var first, rest := Visit(ns[0]), VisitAll(ns[1..]);
      VisitDistinct(ns[0]);
      VisitAllDistinct(ns[1..], depth);
      var r := VisitAll(ns);
      forall i | 0 <= i < |rest|
        ensures !Below(rest[i].path, ns[0].path)
        ensures exists k :: 0 <= k < |ns| && Below(rest[i].path, ns[k].path)
      {
        var k :| 0 <= k < |ns[1..]| && Below(rest[i].path, ns[1..][k].path);
        assert ns[k + 1] == ns[1..][k];
        OnePrefix(rest[i].path, ns[0].path, ns[k + 1].path);
      }
      forall i | 0 <= i < |r|
        ensures exists k :: 0 <= k < |ns| && Below(r[i].path, ns[k].path)
        ensures WellFormed(r[i].value)
      {
        if i < |first| {
          assert r[i] == first[i] && Below(first[i].path, ns[0].path);
        } else {
          assert r[i] == rest[i - |first|];
        }
      }
      DistinctConcat(first, rest);
    }
  }

  lemma OnePrefix(p: seq<Step>, q: seq<Step>, q': seq<Step>)
    requires |q| == |q'| && q != q'
    ensures !(Below(p, q) && Below(p, q'))
  {
    assert q <= p ==> q == p[..|q|];
    assert q' <= p ==> q' == p[..|q'|];
  }

  lemma {:induction false} EvalDistinct(segs: seq<Segment>, unquote: seq<QuotedChar> -> string, ns: seq<Node>,
                                        descended: bool, depth: nat)
    requires forall i :: 0 <= i < |segs| ==> ValidSegment(segs[i])
    requires Descents(segs) <= if descended then 0 else 1
    requires Distinct(ns) && AllWellFormed(ns) && (!descended ==> SameDepth(ns, depth))
    ensures Distinct(Eval(segs, unquote, ns))
    decreases |segs|
  {
    if segs != [] {
      var sel := SelectorOf(segs[0].body, unquote);
      var from := if segs[0].descend then VisitAll(ns) else ns;
      if segs[0].descend {
        VisitAllDistinct(ns, depth);
      } else if !descended {
        SelectAllDepth(sel, ns, depth);
      }
      SelectAllDistinct(sel, from);
      EvalDistinct(segs[1..], unquote, SelectAll(sel, from), descended || segs[0].descend, depth + 1);
    }
  }

  // ---------------------------------------------------------------------------------------
  // Node lists stay inside the tree

  ghost predicate Inside(ns: seq<Node>, tree: seq<Node>) {
    forall i :: 0 <= i < |ns| ==> ns[i] in tree
  }

  /** Every node list of the tree is closed under taking children. */
  ghost predicate Closed(tree: seq<Node>) {
    forall n :: n in tree ==> Inside(Children(n), tree)
  }

  lemma {:induction false} VisitClosed(n: Node)
    ensures n in Visit(n) && Closed(Visit(n))
    decreases n.value, 1, 0
  {
    var kids, below := Kids(n.value), VisitKids(n, Kids(n.value));
    VisitKidsClosed(n, kids);
    assert Visit(n)[0] == n;
    forall m | m in Visit(n)
      ensures Inside(Children(m), Visit(n))
    {
      if m == n {
        forall i | 0 <= i < |kids|
          ensures Children(n)[i] in Visit(n)
        {
          assert ChildOf(n, kids[i]) in below;
        }
      } else {
        assert m in below;
        assert Inside(Children(m), below);
      }
    }
  }

  lemma {:induction false} VisitKidsClosed(n: Node, kids: seq<Kid>)
    requires forall i :: 0 <= i < |kids| ==> kids[i].value < n.value
    ensures Closed(VisitKids(n, kids))
    ensures forall i :: 0 <= i < |kids| ==> ChildOf(n, kids[i]) in VisitKids(n, kids)
    decreases n.value, 0, |kids|
  {
    if kids != [] {
      var first, rest := Visit(ChildOf(n, kids[0])), VisitKids(n, kids[1..]);
      VisitClosed(ChildOf(n, kids[0]));
      VisitKidsClosed(n, kids[1..]);
      forall i | 0 <= i < |kids|
        ensures ChildOf(n, kids[i]) in VisitKids(n, kids)
      {
        if i > 0 {
          assert kids[i] == kids[1..][i - 1];
        }
      }
      forall m | m in VisitKids(n, kids)
        ensures Inside(Children(m), VisitKids(n, kids))
      {
        if m in first {
          assert Inside(Children(m), first);
        } else {
          assert m in rest && Inside(Children(m), rest);
        }
      }
    }
  }

  lemma {:induction false} VisitInside(n: Node, tree: seq<Node>)
    requires n in tree && Closed(tree)
    ensures Inside(Visit(n), tree)
    decreases n.value, 1, 0
  {
    var kids := Kids(n.value);
    forall i | 0 <= i < |kids|
      ensures ChildOf(n, kids[i]) in tree
    {
      assert Inside(Children(n), tree) && Children(n)[i] == ChildOf(n, kids[i]);
    }
    VisitKidsInside(n, kids, tree);
  }

  lemma {:induction false} VisitKidsInside(n: Node, kids: seq<Kid>, tree: seq<Node>)
    requires forall i :: 0 <= i < |kids| ==> kids[i].value < n.value && ChildOf(n, kids[i]) in tree
    requires Closed(tree)
    ensures Inside(VisitKids(n, kids), tree)
    decreases n.value, 0, |kids|
  {
    if kids != [] {
      VisitInside(ChildOf(n, kids[0]), tree);
      VisitKidsInside(n, kids[1..], tree);
    }
  }

  lemma {:induction false} VisitAllInside(ns: seq<Node>, tree: seq<Node>)
    requires Inside(ns, tree) && Closed(tree)
    ensures Inside(VisitAll(ns), tree)
  {
    if ns != [] {
      VisitInside(ns[0], tree);
      VisitAllInside(ns[1..], tree);
    }
  }

  lemma {:induction false} SelectAllInside(sel: Selector, ns: seq<Node>, tree: seq<Node>)
    requires Inside(ns, tree) && Closed(tree)
    ensures Inside(SelectAll(sel, ns), tree)
  {
    if ns != [] {
      assert Inside(Children(ns[0]), tree);
      SelectAllInside(sel, ns[1..], tree);
    }
  }

  lemma {:induction false} EvalInside(segs: seq<Segment>, unquote: seq<QuotedChar> -> string, ns: seq<Node>,
                                      tree: seq<Node>)
    requires forall i :: 0 <= i < |segs| ==> ValidSegment(segs[i])
    requires Inside(ns, tree) && Closed(tree)
    ensures Inside(Eval(segs, unquote, ns), tree)
    decreases |segs|
  {
    if segs != [] {
      VisitAllInside(ns, tree);
      SelectAllInside(SelectorOf(segs[0].body, unquote), if segs[0].descend then VisitAll(ns) else ns, tree);
      EvalInside(segs[1..], unquote, EvalSegment(segs[0], unquote, ns), tree);
    }
  }

  /** A list without repetition inside another list is no longer than that list. */
  lemma {:induction false} DistinctInside(ns: seq<Node>, tree: seq<Node>)
    requires Distinct(ns) && Inside(ns, tree)
    ensures |ns| <= |tree|
    decreases |ns|
  {
    if ns != [] {
      var k :| 0 <= k < |tree| && tree[k] == ns[0];
      var less := tree[..k] + tree[k + 1..];
      forall i | 0 <= i < |ns[1..]|
        ensures ns[1..][i] in less
      {
        var j :| 0 <= j < |tree| && tree[j] == ns[i + 1];
        assert j != k;
        assert less[if j < k then j else j - 1] == tree[j];
      }
      DistinctInside(ns[1..], less);
    }
  }

  // ---------------------------------------------------------------------------------------
  // The number of nodes of a tree

  function Size(v: Json): nat
    decreases v, 1, 0
  {
    1 + SizeKids(v, Kids(v))
  }

  function SizeKids(v: Json, kids: seq<Kid>): nat
    requires forall i :: 0 <= i < |kids| ==> kids[i].value < v
    decreases v, 0, |kids|
  {
    if kids == [] then 0 else Size(kids[0].value) + SizeKids(v, kids[1..])
  }

  lemma {:induction false} VisitSize(n: Node)
    ensures |Visit(n)| == Size(n.value)
    decreases n.value, 1, 0
  {
    VisitKidsSize(n, Kids(n.value));
  }

  lemma {:induction false} VisitKidsSize(n: Node, kids: seq<Kid>)
    requires forall i :: 0 <= i < |kids| ==> kids[i].value < n.value
    ensures |VisitKids(n, kids)| == SizeKids(n.value, kids)
    decreases n.value, 0, |kids|
  {
    if kids != [] {
      VisitSize(ChildOf(n, kids[0]));
      VisitKidsSize(n, kids[1..]);
    }
  }

  // ---------------------------------------------------------------------------------------
  // The justification of the allowlist

  lemma {:induction false} PrefixDescents(segs: seq<Segment>, k: nat)
    requires k <= |segs|
    ensures Descents(segs[..k]) <= Descents(segs)
  {
    if k > 0 {
      assert segs[..k][0] == segs[0] && segs[..k][1..] == segs[1..][..k - 1];
      PrefixDescents(segs[1..], k - 1);
    }
  }

  lemma {:induction false} DescentAt(segs: seq<Segment>, k: nat)
    requires k < |segs| && segs[k].descend && Descents(segs) <= 1
    ensures Descents(segs[..k]) == 0
    decreases k
  {
    if k > 0 {
      assert segs[..k][0] == segs[0] && segs[..k][1..] == segs[1..][..k - 1];
      SomeDescent(segs[1..], k - 1);
      DescentAt(segs[1..], k - 1);
    }
  }

  lemma {:induction false} SomeDescent(segs: seq<Segment>, k: nat)
    requires k < |segs| && segs[k].descend
    ensures Descents(segs) >= 1
    decreases k
  {
    if k > 0 {
      SomeDescent(segs[1..], k - 1);
    }
  }

  /** Without a descent all nodes stay at one depth. */
  lemma {:induction false} EvalDepth(segs: seq<Segment>, unquote: seq<QuotedChar> -> string, ns: seq<Node>, depth: nat)
    requires forall i :: 0 <= i < |segs| ==> ValidSegment(segs[i])
    requires Descents(segs) == 0 && Distinct(ns) && AllWellFormed(ns) && SameDepth(ns, depth)
    ensures var r := Eval(segs, unquote, ns); Distinct(r) && AllWellFormed(r) && SameDepth(r, depth + |segs|)
    decreases |segs|
  {
    if segs != [] {
      var sel := SelectorOf(segs[0].body, unquote);
      SelectAllDepth(sel, ns, depth);
      SelectAllDistinct(sel, ns);
      EvalDepth(segs[1..], unquote, SelectAll(sel, ns), depth + 1);
    }
  }

  /** Some nodes of a tree, each at most once. */
  ghost predicate Bounded(ns: seq<Node>, v: Json) {
    Distinct(ns) && |ns| <= Size(v)
  }

  /** For every path the recogniser accepts and every JSON tree, the node list after every segment
      has no repetition, so it is never longer than the tree has nodes; and if the next segment
      descends, so do the nodes it visits. */
  lemma AcceptedPathsNeverRepeat(path: string, unquote: seq<QuotedChar> -> string, v: Json, k: nat)
    requires InGrammar(path) && WellFormed(v)
    ensures path != "" && Parse(path[1..], false).Some?
    ensures var segs := Parse(path[1..], false).value;
            (forall i :: 0 <= i < |segs| ==> ValidSegment(segs[i]))
            && (k <= |segs| ==> Bounded(Eval(segs[..k], unquote, [Root(v)]), v))
            && (k < |segs| && segs[k].descend ==> Bounded(VisitAll(Eval(segs[..k], unquote, [Root(v)])), v))
  {
    GrammarIsParse(path);
    ParseSound(path[1..], false);
    var segs := Parse(path[1..], false).value;
    if k <= |segs| {
      PrefixDescents(segs, k);
      SomeNodesAreBounded(segs, unquote, v, k);
    }
  }

  lemma SomeNodesAreBounded(segs: seq<Segment>, unquote: seq<QuotedChar> -> string, v: Json, k: nat)
    requires WellFormed(v) && k <= |segs| && Descents(segs) <= 1 && Descents(segs[..k]) <= 1
    requires forall i :: 0 <= i < |segs| ==> ValidSegment(segs[i])
    ensures var ns := Eval(segs[..k], unquote, [Root(v)]);
            Bounded(ns, v) && (k < |segs| && segs[k].descend ==> Bounded(VisitAll(ns), v))
  {
    var ns, tree := Eval(segs[..k], unquote, [Root(v)]), Visit(Root(v));
    VisitClosed(Root(v));
    VisitSize(Root(v));
    EvalInside(segs[..k], unquote, [Root(v)], tree);
    EvalDistinct(segs[..k], unquote, [Root(v)], false, 0);
    DistinctInside(ns, tree);
    if k < |segs| && segs[k].descend {
      DescentAt(segs, k);
      EvalDepth(segs[..k], unquote, [Root(v)], 0);
      VisitAllDistinct(ns, k);
      VisitAllInside(ns, tree);
      DistinctInside(VisitAll(ns), tree);
    }
  }

  const Nested: Json := Array([Array([Array([Array([])])])])

  /** The only child of a one-element array. */
  function OnlyChild(n: Node, kid: Json): Node {
    Node(n.path + [Pos(0)], kid)
  }

  lemma {:induction false} ChainStep(n: Node, kid: Json)
    requires n.value == Array([kid])
    ensures Select(All, n) == [OnlyChild(n, kid)]
    ensures Visit(n) == [n] + Visit(OnlyChild(n, kid))
  {
    assert Kids(n.value) == [Kid(Pos(0), kid)];
    assert VisitKids(n, Kids(n.value)[1..]) == [];
  }

  /** The nodes of four nested arrays, outermost first. */
  lemma {:induction false} NestedNodes(v1: Json, v2: Json, v3: Json) returns (a: Node, b: Node, c: Node)
    requires Nested == Array([v1]) && v1 == Array([v2]) && v2 == Array([v3]) && v3 == Array([])
    ensures Visit(Root(Nested)) == [Root(Nested)] + [a, b, c]
    ensures Visit(a) == [a, b, c] && Visit(b) == [b, c] && Visit(c) == [c]
    ensures Select(All, Root(Nested)) == [a] && Select(All, a) == [b] && Select(All, b) == [c] && Select(All, c) == []
  {
    a := OnlyChild(Root(Nested), v1);
    b := OnlyChild(a, v2);
    c := OnlyChild(b, v3);
    ChainStep(Root(Nested), v1);
    ChainStep(a, v2);
    ChainStep(b, v3);
    assert Visit(c) == [c] && Select(All, c) == [];
  }

  /** A second descent does repeat: in four nested arrays, `$..*..*` selects the innermost twice. */
  lemma {:induction false} TwoDescentsRepeat(unquote: seq<QuotedChar> -> string)
    ensures var star := Segment(true, Wild);
            !Distinct(Eval([star, star], unquote, [Root(Nested)]))
  {
    var a, b, c := NestedNodes(Array([Array([Array([])])]), Array([Array([])]), Array([]));
    FirstDescent(Root(Nested), a, b, c);
    SecondDescent(a, b, c);
    var twice := [b, c, c];
    TwoSegments(Segment(true, Wild), unquote, [Root(Nested)], [a, b, c], twice);
    assert twice[1].path == twice[2].path;
  }

  lemma {:induction false} TwoSegments(seg: Segment, unquote: seq<QuotedChar> -> string, ns: seq<Node>,
                                       once: seq<Node>, twice: seq<Node>)
    requires seg == Segment(true, Wild)
    requires SelectAll(All, VisitAll(ns)) == once && SelectAll(All, VisitAll(once)) == twice
    ensures Eval([seg, seg], unquote, ns) == twice
  {
    assert [seg, seg][1..] == [seg] && [seg][1..] == [];
    assert EvalSegment(seg, unquote, ns) == once && EvalSegment(seg, unquote, once) == twice;
    assert Eval([seg], unquote, once) == twice;
  }

  lemma {:induction false} SelectAllAppend(sel: Selector, x: seq<Node>, y: seq<Node>)
    ensures SelectAll(sel, x + y) == SelectAll(sel, x) + SelectAll(sel, y)
  {
    hide Select;
    if x == [] {
      assert x + y == y;
    } else {
      assert (x + y)[1..] == x[1..] + y;
      SelectAllAppend(sel, x[1..], y);
    }
  }

  lemma {:induction false} Chain(a: Node, b: Node, c: Node)
    requires Select(All, a) == [b] && Select(All, b) == [c] && Select(All, c) == []
    ensures SelectAll(All, [c]) == [] && SelectAll(All, [b, c]) == [c] && SelectAll(All, [a, b, c]) == [b, c]
  {
    assert [c][1..] == [] && [b, c][1..] == [c] && [a, b, c][1..] == [b, c];
  }

  lemma {:induction false} FirstDescent(r: Node, a: Node, b: Node, c: Node)
    requires Visit(r) == [r] + [a, b, c]
    requires Select(All, r) == [a] && Select(All, a) == [b] && Select(All, b) == [c] && Select(All, c) == []
    ensures SelectAll(All, VisitAll([r])) == [a, b, c]
  {
    assert [r][1..] == [];
    assert VisitAll([r]) == [r] + [a, b, c];
    SelectAllAppend(All, [r], [a, b, c]);
    assert SelectAll(All, [r]) == [a];
    Chain(a, b, c);
  }

  lemma {:induction false} SecondDescent(a: Node, b: Node, c: Node)
    requires Visit(a) == [a, b, c] && Visit(b) == [b, c] && Visit(c) == [c]
    requires Select(All, a) == [b] && Select(All, b) == [c] && Select(All, c) == []
    ensures SelectAll(All, VisitAll([a, b, c])) == [b, c, c]
  {
    assert [c][1..] == [] && [b, c][1..] == [c] && [a, b, c][1..] == [b, c];
    assert VisitAll([c]) == [c];
    assert VisitAll([b, c]) == [b, c] + [c];
    assert VisitAll([a, b, c]) == [a, b, c] + ([b, c] + [c]);
    SelectAllAppend(All, [a, b, c], [b, c] + [c]);
    SelectAllAppend(All, [b, c], [c]);
    Chain(a, b, c);
  }
}
