/** What a rendered request contains: casts yield JSON values of their kind, and a request is rendered
    field by field and leaf by leaf. */
module Renderings {
  import opened Options
  import opened Text
  import opened JsonValues
  import opened Templates
  import opened Requests
  import opened Substitutions

  // ---------------------------------------------------------------------------------------
  // Casts

  predicate NoBraces(s: string) {
    '{' !in s && '}' !in s
  }

  lemma NoneFound(s: string, needle: string)
    requires needle != "" && needle[0] !in s
    ensures Find(s, needle).None?
  {
    FindIsFirst(s, needle);
    forall k | 0 <= k <= |s|
      ensures !(needle <= s[k..])
    {
      assert k < |s| ==> s[k..][0] == s[k];
    }
  }

  lemma LastColon(a: string, b: string)
    requires ':' !in b
    ensures FindLast(a + ":" + b, ':') == Some(|a|)
  {
    FindLastIs(a + ":" + b, ':', |a|);
  }

  lemma FindLastIs(s: string, c: char, k: nat)
    requires k < |s| && s[k] == c && forall j :: k < j < |s| ==> s[j] != c
    ensures FindLast(s, c) == Some(k)
  {
    hide FindLast;
    assert s[k] in s;
  }

  /** A string leaf that is a single token with a cast. */
  function CastText(l: string, n: string, r: string, x: string, keyword: string, y: string): string {
    "{{" + ((l + n + r) + ":" + (x + keyword + y)) + "}}"
  }

  lemma CastIsRead(l: string, n: string, r: string, x: string, keyword: string, y: string, cast: Cast)
    requires Blank(l) && Blank(r) && Blank(x) && Blank(y) && Bare(n) && NoBraces(n)
    requires CastOf(keyword) == Some(cast)
    ensures ParseCastLeaf(CastText(l, n, r, x, keyword, y)) == Some(CastLeaf("{{" + n + "}}", cast))
  {
    hide Find, FindLast, Trim, Blank, Bare;
    var name, kind := l + n + r, x + keyword + y;
    var inner := name + ":" + kind;
    PadsHaveNoMarks(l);
    PadsHaveNoMarks(r);
    PadsHaveNoMarks(x);
    PadsHaveNoMarks(y);
    SingleMarked(inner);
    NoneFound(inner, "{{");
    NoneFound(inner, "}}");
    LastColon(name, kind);
    assert inner[|name| + 1..] == kind && inner[..|name|] == name;
    KeywordsAreBare(keyword);
    TrimPads(x, keyword, y);
    TrimPads(l, n, r);
  }

  lemma PadsHaveNoMarks(s: string)
    requires Blank(s)
    ensures NoBraces(s) && ':' !in s
  {
    assert !IsSpace('{') && !IsSpace('}') && !IsSpace(':');
  }

  lemma KeywordsAreBare(keyword: string)
    requires CastOf(keyword).Some?
    ensures Bare(keyword) && NoBraces(keyword) && ':' !in keyword
  {
  }

  lemma SingleMarked(inner: string)
    ensures var s := "{{" + inner + "}}"; Trim(s) == s && SingleToken(s, "{{", "}}") == Some(inner)
  {
    hide Trim;
    var s, tail := "{{" + inner + "}}", inner + "}}";
    assert !IsSpace('{') && !IsSpace('}');
    TrimPads("", s, "");
    assert "" + s + "" == s;
    assert s[2..] == tail && tail[..|inner|] == inner && tail[|inner|..] == "}}";
  }

  lemma BareTokenValue(n: string, ctx: Context)
    requires NoBraces(n) && Bare(n)
    ensures RenderText("{{" + n + "}}", ctx) == if n in ctx.vars then Ok(ctx.vars[n])
                                                else Err(Template(UnknownVar(n)))
    ensures n in ctx.vars ==> CollectText("{{" + n + "}}", ctx) == ctx.vars[n]
  {
    hide Tokens, Strict, Lenient, Unbound;
    var s := "{{" + n + "}}";
    assert "" + "{{" + ("" + n + "") + "}}" + "" == s;
    PlainRendersItself("", ctx);
    FlowSubstitution("", "", n, "", "", ctx);
    if n in ctx.vars {
      assert "" + ctx.vars[n] + "" == ctx.vars[n];
    }
  }

  /** A leaf `{{n:cast}}` with `n` bound: a str cast is the text of the value, a bool cast the JSON
      true or false it spells, a num cast the number it parses to, and a json cast any value it
      parses to.  Otherwise a load run fails and a trace keeps the text. */
  lemma CastYields(l: string, n: string, r: string, x: string, keyword: string, y: string, ctx: Context, lib: Library)
    requires Blank(l) && Blank(r) && Blank(x) && Blank(y) && Bare(n) && NoBraces(n) && n in ctx.vars
    requires keyword == "str" || keyword == "num" || keyword == "bool" || keyword == "json"
    ensures var leaf, v := Str(CastText(l, n, r, x, keyword, y)), ctx.vars[n];
            && (keyword == "str" ==> Casts(leaf, Some(Str(v)), v, ctx, lib))
            && (keyword == "bool" && v == "true" ==> Casts(leaf, Some(Bool(true)), v, ctx, lib))
            && (keyword == "bool" && v == "false" ==> Casts(leaf, Some(Bool(false)), v, ctx, lib))
            && (keyword == "bool" && v != "true" && v != "false" ==> Casts(leaf, None, v, ctx, lib))
            && (keyword == "num" && lib.parseJson(v).Some? && lib.parseJson(v).value.Number? ==>
                  Casts(leaf, lib.parseJson(v), v, ctx, lib))
            && (keyword == "num" && !(lib.parseJson(v).Some? && lib.parseJson(v).value.Number?) ==>
                  Casts(leaf, None, v, ctx, lib))
            && (keyword == "json" ==> Casts(leaf, lib.parseJson(v), v, ctx, lib))
  {
    hide ParseCastLeaf, RenderText, CollectText;
    CastIsRead(l, n, r, x, keyword, y, CastOf(keyword).value);
    BareTokenValue(n, ctx);
  }

  /** The leaf becomes `json`; if there is none, strict rendering fails and collecting keeps `text`. */
  ghost predicate Casts(leaf: Json, json: Option<Json>, text: string, ctx: Context, lib: Library) {
    && CollectJson(leaf, ctx, lib) == (if json.Some? then json.value else Str(text))
    && if json.Some? then RenderJson(leaf, ctx, lib) == Ok(json.value)
       else RenderJson(leaf, ctx, lib).Err? && RenderJson(leaf, ctx, lib).error.CastFailed?
  }

  /** A leaf that does not begin with a marker, or has no colon, has no cast: it stays a string, whatever
      its text looks like. */
  lemma OtherLeavesAreStrings(s: string, ctx: Context, lib: Library)
    requires (!("{{" <= Trim(s)) && !("${" <= Trim(s))) || ':' !in s
    ensures RenderJson(Str(s), ctx, lib)
         == match Strict(Tokens(s), ctx) case Ok(t) => Ok(Str(t)) case Err(e) => Err(Template(e))
    ensures CollectJson(Str(s), ctx, lib) == Str(Lenient(Tokens(s), ctx))
  {
    hide Tokens, Find, Trim;
    var a, b := TrimIsPart(s);
    assert ':' !in s ==> ':' !in Trim(s);
    assert ParseCastLeaf(s).None?;
  }

  // ---------------------------------------------------------------------------------------
  // Leaf by leaf

  /** `w` has the shape, the keys and the other values of `v`, and stands in the relation at every
      string leaf. */
  ghost predicate Leafwise(v: Json, w: Json, leaf: (string, Json) -> bool)
    decreases v, 0
  {
    match v
    case Str(s) => leaf(s, w)
    case Array(items) => w.Array? && ItemsLeafwise(items, w.items, leaf)
    case Object(members) => w.Object? && MembersLeafwise(members, w.members, leaf)
    case _ => w == v
  }

  ghost predicate ItemsLeafwise(items: seq<Json>, r: seq<Json>, leaf: (string, Json) -> bool)
    decreases items
  {
    |r| == |items| && forall i :: 0 <= i < |items| ==> Leafwise(items[i], r[i], leaf)
  }

  ghost predicate MembersLeafwise(members: seq<Member>, r: seq<Member>, leaf: (string, Json) -> bool)
    decreases members
  {
    && |r| == |members|
    && forall i :: 0 <= i < |members| ==>
                     r[i].key == members[i].key && Leafwise(members[i].value, r[i].value, leaf)
  }

  lemma ItemsSplit(items: seq<Json>, r: seq<Json>, leaf: (string, Json) -> bool)
    ensures items == [] || r == [] ==> (ItemsLeafwise(items, r, leaf) <==> items == r)
    ensures items != [] && r != [] ==>
              (ItemsLeafwise(items, r, leaf)
               <==> Leafwise(items[0], r[0], leaf) && ItemsLeafwise(items[1..], r[1..], leaf))
  {
    hide Leafwise;
    if items != [] && r != [] {
      var rest, r' := items[1..], r[1..];
      assert forall i :: 0 <= i < |rest| ==> rest[i] == items[i + 1];
      assert forall i :: 0 <= i < |r'| ==> r'[i] == r[i + 1];
      assert forall i :: 1 <= i < |items| ==> items[i] == rest[i - 1];
      assert forall i :: 1 <= i < |r| ==> r[i] == r'[i - 1];
    }
  }

  lemma MembersSplit(members: seq<Member>, r: seq<Member>, leaf: (string, Json) -> bool)
    ensures members == [] || r == [] ==> (MembersLeafwise(members, r, leaf) <==> members == r)
    ensures members != [] && r != [] ==>
              (MembersLeafwise(members, r, leaf)
               <==> r[0].key == members[0].key && Leafwise(members[0].value, r[0].value, leaf)
                    && MembersLeafwise(members[1..], r[1..], leaf))
  {
    hide Leafwise;
    if members != [] && r != [] {
      var rest, r' := members[1..], r[1..];
      assert forall i :: 0 <= i < |rest| ==> rest[i] == members[i + 1];
      assert forall i :: 0 <= i < |r'| ==> r'[i] == r[i + 1];
      assert forall i :: 1 <= i < |members| ==> members[i] == rest[i - 1];
      assert forall i :: 1 <= i < |r| ==> r[i] == r'[i - 1];
    }
  }

  function StrictLeaf(ctx: Context, lib: Library): (string, Json) -> bool {
    (s, w) => RenderJson(Str(s), ctx, lib) == Ok(w)
  }

  function CollectedLeaf(ctx: Context, lib: Library): (string, Json) -> bool {
    (s, w) => CollectJson(Str(s), ctx, lib) == w
  }

  /** A body is rendered strictly to `w` exactly if each of its string leaves is rendered to the value
      `w` has in its place, and nothing else differs. */
  lemma {:induction false} JsonIsLeafwise(v: Json, w: Json, ctx: Context, lib: Library)
    ensures RenderJson(v, ctx, lib) == Ok(w) <==> Leafwise(v, w, StrictLeaf(ctx, lib))
    decreases v, 0
  {
    hide ItemsLeafwise, MembersLeafwise, RenderItems, RenderMembers, RenderLeaf;
    match v
    case Array(items) =>
      if w.Array? {
        ItemsAreLeafwise(items, w.items, ctx, lib);
      }
    case Object(members) =>
      if w.Object? {
        MembersAreLeafwise(members, w.members, ctx, lib);
      }
    case _ =>
  }

  lemma {:induction false} ItemsAreLeafwise(items: seq<Json>, r: seq<Json>, ctx: Context, lib: Library)
    ensures RenderItems(items, ctx, lib) == Ok(r) <==> ItemsLeafwise(items, r, StrictLeaf(ctx, lib))
    decreases items
  {
    hide Leafwise, ItemsLeafwise, StrictLeaf, RenderJson;
    ItemsSplit(items, r, StrictLeaf(ctx, lib));
    if items != [] && r != [] {
      JsonIsLeafwise(items[0], r[0], ctx, lib);
      ItemsAreLeafwise(items[1..], r[1..], ctx, lib);
      assert r == [r[0]] + r[1..];
    }
  }

  lemma {:induction false} MembersAreLeafwise(members: seq<Member>, r: seq<Member>, ctx: Context, lib: Library)
    ensures RenderMembers(members, ctx, lib) == Ok(r) <==> MembersLeafwise(members, r, StrictLeaf(ctx, lib))
    decreases members
  {
    hide Leafwise, MembersLeafwise, StrictLeaf, RenderJson;
    MembersSplit(members, r, StrictLeaf(ctx, lib));
    if members != [] && r != [] {
      JsonIsLeafwise(members[0].value, r[0].value, ctx, lib);
      MembersAreLeafwise(members[1..], r[1..], ctx, lib);
      assert r == [r[0]] + r[1..];
    }
  }

  /** The collecting renderer gives every leaf its value, or its text, in its place. */
  lemma {:induction false} CollectedIsLeafwise(v: Json, ctx: Context, lib: Library)
    ensures Leafwise(v, CollectJson(v, ctx, lib), CollectedLeaf(ctx, lib))
    decreases v, 0
  {
    hide ItemsLeafwise, MembersLeafwise;
    match v
    case Array(items) => CollectedItems(items, ctx, lib);
    case Object(members) => CollectedMembers(members, ctx, lib);
    case _ =>
  }

  lemma {:induction false} CollectedItems(items: seq<Json>, ctx: Context, lib: Library)
    ensures ItemsLeafwise(items, CollectItems(items, ctx, lib), CollectedLeaf(ctx, lib))
    decreases items
  {
    hide Leafwise, ItemsLeafwise, CollectedLeaf, CollectJson;
    var r := CollectItems(items, ctx, lib);
    ItemsSplit(items, r, CollectedLeaf(ctx, lib));
    if items != [] {
      CollectedIsLeafwise(items[0], ctx, lib);
      CollectedItems(items[1..], ctx, lib);
      assert r[1..] == CollectItems(items[1..], ctx, lib);
    }
  }

  lemma {:induction false} CollectedMembers(members: seq<Member>, ctx: Context, lib: Library)
    ensures MembersLeafwise(members, CollectMembers(members, ctx, lib), CollectedLeaf(ctx, lib))
    decreases members
  {
    hide Leafwise, MembersLeafwise, CollectedLeaf, CollectJson;
    var r := CollectMembers(members, ctx, lib);
    MembersSplit(members, r, CollectedLeaf(ctx, lib));
    if members != [] {
      CollectedIsLeafwise(members[0].value, ctx, lib);
      CollectedMembers(members[1..], ctx, lib);
      assert r[1..] == CollectMembers(members[1..], ctx, lib);
    }
  }

  // ---------------------------------------------------------------------------------------
  // Field by field

  /** The keys stay, and every value is rendered strictly. */
  ghost predicate FieldsRendered(fields: seq<Field>, r: seq<Field>, ctx: Context) {
    |r| == |fields| && forall i :: 0 <= i < |fields| ==> FieldRendered(fields[i], r[i], ctx)
  }

  predicate FieldRendered(f: Field, r: Field, ctx: Context) {
    r.key == f.key && Strict(Tokens(f.value), ctx) == Ok(r.value)
  }

  predicate Sendable(f: Field, lib: Library) {
    lib.validName(f.key) && lib.validValue(f.value)
  }

  ghost predicate AllSendable(fields: seq<Field>, lib: Library) {
    forall i :: 0 <= i < |fields| ==> Sendable(fields[i], lib)
  }

  lemma FieldsSplit(fields: seq<Field>, r: seq<Field>, ctx: Context, lib: Library)
    requires fields != [] && r != []
    ensures FieldsRendered(fields, r, ctx)
            <==> FieldRendered(fields[0], r[0], ctx) && FieldsRendered(fields[1..], r[1..], ctx)
    ensures AllSendable(r, lib) <==> Sendable(r[0], lib) && AllSendable(r[1..], lib)
  {
    hide FieldRendered, Sendable;
    var rest, r' := fields[1..], r[1..];
    assert forall i :: 0 <= i < |rest| ==> rest[i] == fields[i + 1];
    assert forall i :: 0 <= i < |r'| ==> r'[i] == r[i + 1];
    assert forall i :: 1 <= i < |fields| ==> fields[i] == rest[i - 1];
    assert forall i :: 1 <= i < |r| ==> r[i] == r'[i - 1];
  }

  lemma NoFields(fields: seq<Field>, r: seq<Field>, ctx: Context, lib: Library)
    requires fields == [] || r == []
    ensures FieldsRendered(fields, r, ctx) <==> fields == r
    ensures r == [] ==> AllSendable(r, lib)
  {
  }

  lemma {:induction false} FormIsFieldwise(fields: seq<Field>, r: seq<Field>, ctx: Context, lib: Library)
    ensures RenderFields(fields, ctx) == Ok(r) <==> FieldsRendered(fields, r, ctx)
    decreases |fields|
  {
    hide Strict, Tokens, FieldsRendered, AllSendable;
    if fields == [] || r == [] {
      NoFields(fields, r, ctx, lib);
    } else {
      FieldsSplit(fields, r, ctx, lib);
      FormIsFieldwise(fields[1..], r[1..], ctx, lib);
      assert r == [r[0]] + r[1..];
    }
  }

  lemma {:induction false} HeadersAreFieldwise(fields: seq<Field>, r: seq<Field>, ctx: Context, lib: Library)
    ensures RenderHeaders(fields, ctx, lib) == Ok(r) <==> FieldsRendered(fields, r, ctx) && AllSendable(r, lib)
    decreases |fields|
  {
    hide Strict, Tokens, FieldsRendered, AllSendable;
    if fields == [] || r == [] {
      NoFields(fields, r, ctx, lib);
    } else {
      FieldsSplit(fields, r, ctx, lib);
      HeadersAreFieldwise(fields[1..], r[1..], ctx, lib);
      assert r == [r[0]] + r[1..];
    }
  }

  ghost predicate BodyRendered(body: Body, r: Body, ctx: Context, lib: Library) {
    match body
    case NoBody => r.NoBody?
    case JsonBody(v) => r.JsonBody? && Leafwise(v, r.json, StrictLeaf(ctx, lib))
    case FormBody(fields) => r.FormBody? && FieldsRendered(fields, r.fields, ctx)
    case RawBody(text) => r.RawBody? && Strict(Tokens(text), ctx) == Ok(r.text)
  }

  /** The request a load run sends: the same method, and the url, every header, and every field or leaf
      of the body rendered strictly in its place; all headers can be sent.  If there is no such
      request, none is built. */
  lemma BuildIsFieldwise(req: Request, q: Request, ctx: Context, lib: Library)
    ensures Build(req, ctx, lib) == Ok(q)
            <==> && q.verb == req.verb && Strict(Tokens(req.url), ctx) == Ok(q.url)
                 && FieldsRendered(req.headers, q.headers, ctx) && AllSendable(q.headers, lib)
                 && BodyRendered(req.body, q.body, ctx, lib)
  {
    hide Strict, Tokens, FieldsRendered, AllSendable, Leafwise, RenderJson, RenderFields, RenderHeaders;
    HeadersAreFieldwise(req.headers, q.headers, ctx, lib);
    match req.body
    case NoBody =>
    case JsonBody(v) =>
      if q.body.JsonBody? {
        JsonIsLeafwise(v, q.body.json, ctx, lib);
      }
    case FormBody(fields) =>
      if q.body.FormBody? {
        FormIsFieldwise(fields, q.body.fields, ctx, lib);
      }
    case RawBody(_) =>
  }

  // ---------------------------------------------------------------------------------------
  // What a trace sends and reports

  /** The headers a trace sends are those it can send; the first of the others is its error. */
  lemma {:induction false} SentHeaders(fields: seq<Field>, lib: Library, f: Field)
    ensures f in SendableHeaders(fields, lib) <==> f in fields && Sendable(f, lib)
    ensures match FirstBadHeader(fields, lib)
            case None => forall i :: 0 <= i < |fields| ==> Sendable(fields[i], lib)
            case Some(key) => exists i: nat :: IsFirstBad(fields, lib, i) && fields[i].key == key
    decreases |fields|
  {
    hide Sendable;
    if fields != [] {
      var rest := fields[1..];
      SentHeaders(rest, lib, f);
      assert Sendable(fields[0], lib) <==> lib.validName(fields[0].key) && lib.validValue(fields[0].value) by {
        SendableIs(fields[0], lib);
      }
      assert forall i :: 1 <= i < |fields| ==> fields[i] == rest[i - 1];
      if Sendable(fields[0], lib) && FirstBadHeader(fields, lib).Some? {
        var i: nat :| IsFirstBad(rest, lib, i) && rest[i].key == FirstBadHeader(rest, lib).value;
        assert IsFirstBad(fields, lib, i + 1);
      } else if !Sendable(fields[0], lib) {
        assert IsFirstBad(fields, lib, 0);
      }
    }
  }

  lemma SendableIs(f: Field, lib: Library)
    ensures Sendable(f, lib) <==> lib.validName(f.key) && lib.validValue(f.value)
  {
  }

  ghost predicate IsFirstBad(fields: seq<Field>, lib: Library, i: nat) {
    i < |fields| && !Sendable(fields[i], lib) && forall j :: 0 <= j < i ==> Sendable(fields[j], lib)
  }

  lemma {:induction false} DedupKeepsNames(names: seq<string>, seen: set<string>, n: string)
    ensures n in Dedup(names, seen) <==> n in names && n !in seen
    ensures forall i, j :: 0 <= i < j < |Dedup(names, seen)| ==> Dedup(names, seen)[i] != Dedup(names, seen)[j]
    decreases |names|
  {
    if names != [] {
      if names[0] in seen {
        DedupKeepsNames(names[1..], seen, n);
      } else {
        var r, more := Dedup(names[1..], seen + {names[0]}), seen + {names[0]};
        DedupKeepsNames(names[1..], more, n);
        DedupKeepsNames(names[1..], more, names[0]);
        assert forall j :: 0 <= j < |r| ==> r[j] in r;
      }
    }
  }

  lemma {:induction false} MissingInTexts(texts: seq<string>, ctx: Context, n: string)
    ensures n in MissingIn(texts, ctx) <==> exists i :: 0 <= i < |texts| && n in Missing(texts[i], ctx)
  {
    hide Missing;
    if texts != [] {
      var rest := texts[1..];
      MissingInTexts(rest, ctx, n);
      assert forall i :: 1 <= i < |texts| ==> texts[i] == rest[i - 1];
      if i :| 0 <= i < |rest| && n in Missing(rest[i], ctx) {
        assert n in Missing(texts[i + 1], ctx);
      }
    }
  }

  /** A trace reports, each once, exactly the names that have no value in some rendered text. */
  lemma UnboundIsExact(req: Request, ctx: Context, lib: Library, n: string)
    ensures var t := BuildTraced(req, ctx, lib);
            && (n in t.unbound
                <==> exists i :: 0 <= i < |RequestTexts(req)| && n in Missing(RequestTexts(req)[i], ctx))
            && forall i, j :: 0 <= i < j < |t.unbound| ==> t.unbound[i] != t.unbound[j]
  {
    hide RequestTexts, Missing, MissingIn, Dedup;
    DedupKeepsNames(MissingIn(RequestTexts(req), ctx), {}, n);
    MissingInTexts(RequestTexts(req), ctx, n);
  }
}
