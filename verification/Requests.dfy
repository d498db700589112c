/** Building a request from its templates: the strict build of a load run, the collecting build of
    a trace, and the analysis that finds which variables a request can show. */
module Requests {
  import opened Options
  import opened Text
  import opened JsonValues
  import opened Templates

  // ---------------------------------------------------------------------------------------
  // Casts in JSON bodies

  datatype Cast = ToStr | ToNum | ToBool | ToJson

  datatype CastLeaf = CastLeaf(bare: string, cast: Cast)

  function StripPrefix(s: string, p: string): Option<string> {
    if p <= s then Some(s[|p|..]) else None
  }

  function StripSuffix(s: string, p: string): Option<string> {
    if |p| <= |s| && s[|s| - |p|..] == p then Some(s[..|s| - |p|]) else None
  }

  /** The inside of the single token that `t` is made of, if it is one. */
  function SingleToken(t: string, open: string, close: string): Option<string> {
    match StripPrefix(t, open)
    case None => None
    case Some(x) => StripSuffix(x, close)
  }

  function CastOf(keyword: string): Option<Cast> {
    if keyword == "str" then Some(ToStr)
    else if keyword == "num" then Some(ToNum)
    else if keyword == "bool" then Some(ToBool)
    else if keyword == "json" then Some(ToJson)
    else None
  }

  /** Splits a pure single token that ends in a cast keyword into the bare token and the cast. */
  function ParseCastLeaf(s: string): Option<CastLeaf> {
    var t := Trim(s);
    match SingleToken(t, "{{", "}}")
    case Some(inner) =>
      if Contains(inner, "{{") || Contains(inner, "}}") then None else SplitCast("{{", inner, "}}")
    case None =>
      match SingleToken(t, "${", "}")
      case Some(inner) =>
        if '{' in inner || '}' in inner || '$' in inner then None else SplitCast("${", inner, "}")
      case None => None
  }

  function SplitCast(open: string, inner: string, close: string): Option<CastLeaf> {
    match FindLast(inner, ':')
    case None => None
    case Some(k) =>
      match CastOf(Trim(inner[k + 1..]))
      case None => None
      case Some(cast) => Some(CastLeaf(open + Trim(inner[..k]) + close, cast))
  }

  lemma {:induction false} FindSplit(name: string)
    requires Find(name, "}}").None?
    ensures Find(name + "}}", "}}") == Some(if name != "" && name[|name| - 1] == '}' then |name| - 1 else |name|)
    decreases |name|
  {
    var s := name + "}}";
    if name == "" {
      assert s == "}}";
    } else {
      assert s[1..] == name[1..] + "}}";
      if |name| >= 2 {
        assert !("}}" <= name);
        assert !("}}" <= s);
        FindSplit(name[1..]);
      } else if name[0] == '}' {
        assert "}}" <= s;
      } else {
        assert !("}}" <= s);
        FindSplit("");
        assert name[1..] == "";
      }
    }
  }

  /** The bare token of a cast, with a name free of `}}`, is read back as that one token exactly
      when the name does not end in a brace. */
  lemma BareTokenIsOneToken(name: string)
    requires Find(name, "}}").None?
    ensures Tokens("{{" + name + "}}") == [Flow(name)] <==> name == "" || name[|name| - 1] != '}'
  {
    hide Tokens, Find;
    var s, t := "{{" + name + "}}", name + "}}";
    assert s[2..] == t;
    FindSplit(name);
    var e := if name != "" && name[|name| - 1] == '}' then |name| - 1 else |name|;
    TokenFirstIn(s, true, e);
    assert Tokens(s)[0] == Flow(t[..e]);
    if e == |name| {
      assert t[..e] == name && t[e + 2..] == "";
      NoTokens();
    }
  }

  lemma EnvTokenIsOneToken(name: string)
    requires '}' !in name
    ensures Tokens("${" + name + "}") == [System(name)]
  {
    hide Tokens, Find;
    var s, t := "${" + name + "}", name + "}";
    assert s[2..] == t;
    FindIsFirst(t, "}");
    assert t[|name|..] == "}";
    assert forall j :: 0 <= j < |name| ==> t[j..][0] == name[j];
    TokenFirstIn(s, false, |name|);
    assert t[..|name|] == name && t[|name| + 1..] == "";
    NoTokens();
  }

  /** The bare token of every cast leaf: in the `${ }` form always one token, in the `{{ }}` form one
      token exactly when the name does not end in a brace. */
  lemma CastLeafIsOneToken(s: string) returns (name: string)
    requires ParseCastLeaf(s).Some?
    ensures var bare, flow := ParseCastLeaf(s).value.bare, SingleToken(Trim(s), "{{", "}}").Some?;
            && (flow ==> bare == "{{" + name + "}}"
                         && (Tokens(bare) == [Flow(name)] <==> name == "" || name[|name| - 1] != '}'))
            && (!flow ==> bare == "${" + name + "}" && Tokens(bare) == [System(name)])
  {
    hide Tokens, Find, Trim;
    var t := Trim(s);
    var flow := SingleToken(t, "{{", "}}");
    var inner := if flow.Some? then flow.value else SingleToken(t, "${", "}").value;
    var k := FindLast(inner, ':').value;
    name := Trim(inner[..k]);
    var a, b := TrimIsPart(inner[..k]);
    assert name == inner[a..b];
    if flow.Some? {
      FindInPart(inner, "}}", a, b);
      BareTokenIsOneToken(name);
    } else {
      EnvTokenIsOneToken(name);
    }
  }

  lemma NoTokens()
    ensures Tokens("") == []
  {
  }

  /** Parts of the outside world: the JSON parser and the validity of HTTP header names and values. */
  datatype Library = Library(
    parseJson: string -> Option<Json>,
    validName: string -> bool,
    validValue: string -> bool
  )

  function Coerce(cast: Cast, r: string, lib: Library): Option<Json> {
    match cast
    case ToStr => Some(Str(r))
    case ToNum => (match lib.parseJson(r) case Some(Number(text)) => Some(Number(text)) case _ => None)
    case ToBool => if r == "true" then Some(Bool(true)) else if r == "false" then Some(Bool(false)) else None
    case ToJson => lib.parseJson(r)
  }

  /** The text of a string leaf that is handed to the renderer. */
  function LeafText(s: string): string {
    match ParseCastLeaf(s)
    case Some(leaf) => leaf.bare
    case None => s
  }

  function LeafCast(s: string): Cast {
    match ParseCastLeaf(s)
    case Some(leaf) => leaf.cast
    case None => ToStr
  }

  // ---------------------------------------------------------------------------------------
  // Rendering JSON

  datatype RenderError = Template(e: TemplateError) | CastFailed(text: string, cast: Cast,
                                                                 value: string) | BadHeader(name: string)

  function RenderText(s: string, ctx: Context): Result<string, RenderError> {
    match Strict(Tokens(s), ctx)
    case Ok(t) => Ok(t)
    case Err(e) => Err(Template(e))
  }

  function CollectText(s: string, ctx: Context): string {
    Lenient(Tokens(s), ctx)
  }

  function Missing(s: string, ctx: Context): seq<string> {
    Unbound(Tokens(s), ctx)
  }

  function RenderLeaf(s: string, ctx: Context, lib: Library): Result<Json, RenderError> {
    match RenderText(LeafText(s), ctx)
    case Err(e) => Err(e)
    case Ok(r) =>
      match Coerce(LeafCast(s), r, lib)
      case Some(v) => Ok(v)
      case None => Err(CastFailed(LeafText(s), LeafCast(s), r))
  }

  function CollectLeaf(s: string, ctx: Context, lib: Library): Json {
    var r := CollectText(LeafText(s), ctx);
    match Coerce(LeafCast(s), r, lib)
    case Some(v) => v
    case None => Str(r)
  }

  function RenderJson(v: Json, ctx: Context, lib: Library): Result<Json, RenderError>
    decreases v, 0
  {
    match v
    case Str(s) => RenderLeaf(s, ctx, lib)
    case Array(items) =>
      (match RenderItems(items, ctx, lib)
       case Ok(r) => Ok(Array(r))
       case Err(e) => Err(e))
    case Object(members) =>
      (match RenderMembers(members, ctx, lib)
       case Ok(r) => Ok(Object(r))
       case Err(e) => Err(e))
    case _ => Ok(v)
  }

  function RenderItems(items: seq<Json>, ctx: Context, lib: Library): Result<seq<Json>, RenderError>
    decreases items
  {
    if items == [] then Ok([])
    else match RenderJson(items[0], ctx, lib)
         case Err(e) => Err(e)
         case Ok(first) =>
           match RenderItems(items[1..], ctx, lib)
           case Err(e) => Err(e)
           case Ok(rest) => Ok([first] + rest)
  }

  /** Keys are kept; only values are rendered. */
  function RenderMembers(members: seq<Member>, ctx: Context, lib: Library): Result<seq<Member>, RenderError>
    decreases members
  {
    if members == [] then Ok([])
    else match RenderJson(members[0].value, ctx, lib)
         case Err(e) => Err(e)
         case Ok(first) =>
           match RenderMembers(members[1..], ctx, lib)
           case Err(e) => Err(e)
           case Ok(rest) => Ok([Member(members[0].key, first)] + rest)
  }

  /** The collecting sibling: never fails; a failed cast leaves the rendered string. */
  function CollectJson(v: Json, ctx: Context, lib: Library): Json
    decreases v, 0
  {
    match v
    case Str(s) => CollectLeaf(s, ctx, lib)
    case Array(items) => Array(CollectItems(items, ctx, lib))
    case Object(members) => Object(CollectMembers(members, ctx, lib))
    case _ => v
  }

  function CollectItems(items: seq<Json>, ctx: Context, lib: Library): seq<Json>
    decreases items
  {
    if items == [] then [] else [CollectJson(items[0], ctx, lib)] + CollectItems(items[1..], ctx, lib)
  }

  function CollectMembers(members: seq<Member>, ctx: Context, lib: Library): seq<Member>
    decreases members
  {
    if members == [] then []
    else [Member(members[0].key, CollectJson(members[0].value, ctx, lib))] + CollectMembers(members[1..], ctx, lib)
  }

  /** The texts of a value handed to the renderer, in order. */
  function Texts(v: Json): seq<string>
    decreases v, 0
  {
    match v
    case Str(s) => [LeafText(s)]
    case Array(items) => TextsOfItems(items)
    case Object(members) => TextsOfMembers(members)
    case _ => []
  }

  function TextsOfItems(items: seq<Json>): seq<string>
    decreases items
  {
    if items == [] then [] else Texts(items[0]) + TextsOfItems(items[1..])
  }

  function TextsOfMembers(members: seq<Member>): seq<string>
    decreases members
  {
    if members == [] then [] else Texts(members[0].value) + TextsOfMembers(members[1..])
  }

  /** What the collecting renderer adds to its sink while it renders these texts. */
  function MissingIn(texts: seq<string>, ctx: Context): seq<string> {
    if texts == [] then [] else Missing(texts[0], ctx) + MissingIn(texts[1..], ctx)
  }

  lemma {:induction false} MissingInAppend(a: seq<string>, b: seq<string>, ctx: Context)
    ensures MissingIn(a + b, ctx) == MissingIn(a, ctx) + MissingIn(b, ctx)
  {
    if a == [] {
      assert a + b == b;
    } else {
      assert (a + b)[1..] == a[1..] + b;
      MissingInAppend(a[1..], b, ctx);
    }
  }

  /** A leaf the strict renderer refuses for a reason the collecting one does not collect: an
      unclosed marker, or a cast its text does not fit. */
  predicate LeafTrouble(s: string, ctx: Context, lib: Library) {
    HasUnclosed(Tokens(LeafText(s))) || Coerce(LeafCast(s), CollectText(LeafText(s), ctx), lib).None?
  }

  predicate Trouble(v: Json, ctx: Context, lib: Library)
    decreases v, 0
  {
    match v
    case Str(s) => LeafTrouble(s, ctx, lib)
    case Array(items) => exists i :: 0 <= i < |items| && Trouble(items[i], ctx, lib)
    case Object(members) => exists i :: 0 <= i < |members| && Trouble(members[i].value, ctx, lib)
    case _ => false
  }

  lemma {:induction false} TextAgrees(s: string, ctx: Context)
    ensures RenderText(s, ctx).Ok? <==> Missing(s, ctx) == [] && !HasUnclosed(Tokens(s))
    ensures RenderText(s, ctx).Ok? ==> RenderText(s, ctx).value == CollectText(s, ctx)
    ensures forall n :: RenderText(s, ctx) == Err(Template(UnknownVar(n))) ==>
            Missing(s, ctx) != [] && Missing(s, ctx)[0] == n
  {
    StrictFromCollecting(Tokens(s), ctx);
  }

  /** What a strict result says about the collecting one. */
  ghost predicate Agrees<T>(strict: Result<T, RenderError>, collected: T, missing: seq<string>, trouble: bool) {
    && (strict.Ok? <==> missing == [] && !trouble)
    && (strict.Ok? ==> strict.value == collected)
    && (forall n :: strict == Err(Template(UnknownVar(n))) ==> missing != [] && missing[0] == n)
  }

  /** Over whole JSON bodies: strict rendering succeeds exactly when collecting collects nothing and
      no leaf is in trouble, and then both produce the same value; and an unknown variable is the
      first name collected. */
  lemma {:induction false} JsonAgrees(v: Json, ctx: Context, lib: Library)
    ensures Agrees(RenderJson(v, ctx, lib), CollectJson(v, ctx, lib), MissingIn(Texts(v), ctx), Trouble(v, ctx, lib))
    decreases v, 0
  {
    match v
    case Str(s) =>
      TextAgrees(LeafText(s), ctx);
      assert Texts(v)[1..] == [];
    case Array(items) => ItemsAgree(items, ctx, lib);
    case Object(members) => MembersAgree(members, ctx, lib);
    case _ =>
  }

  lemma {:induction false} ItemsAgree(items: seq<Json>, ctx: Context, lib: Library)
    ensures Agrees(RenderItems(items, ctx, lib), CollectItems(items, ctx, lib), MissingIn(TextsOfItems(items), ctx),
                   exists i :: 0 <= i < |items| && Trouble(items[i], ctx, lib))
    decreases items
  {
    if items != [] {
      var rest := items[1..];
      JsonAgrees(items[0], ctx, lib);
      ItemsAgree(rest, ctx, lib);
      MissingInAppend(Texts(items[0]), TextsOfItems(rest), ctx);
      if i :| 0 <= i < |rest| && Trouble(rest[i], ctx, lib) {
        assert items[i + 1] == rest[i];
      }
      if i :| 0 < i < |items| && Trouble(items[i], ctx, lib) {
        assert rest[i - 1] == items[i];
      }
    }
  }

  lemma {:induction false} MembersAgree(members: seq<Member>, ctx: Context, lib: Library)
    ensures Agrees(RenderMembers(members, ctx, lib), CollectMembers(members, ctx, lib),
                   MissingIn(TextsOfMembers(members), ctx),
                   exists i :: 0 <= i < |members| && Trouble(members[i].value, ctx, lib))
    decreases members
  {
    if members != [] {
      var rest := members[1..];
      JsonAgrees(members[0].value, ctx, lib);
      MembersAgree(rest, ctx, lib);
      MissingInAppend(Texts(members[0].value), TextsOfMembers(rest), ctx);
      if i :| 0 <= i < |rest| && Trouble(rest[i].value, ctx, lib) {
        assert members[i + 1] == rest[i];
      }
      if i :| 0 < i < |members| && Trouble(members[i].value, ctx, lib) {
        assert rest[i - 1] == members[i];
      }
    }
  }

  // ---------------------------------------------------------------------------------------
  // Requests

  datatype Method = Get | Post | Put | Patch | Delete | Head | Options

  datatype Field = Field(key: string, value: string)

  datatype Body = NoBody | JsonBody(json: Json) | FormBody(fields: seq<Field>) | RawBody(text: string)

  /** A request as authored, with templates, and as sent, rendered. */
  datatype Request = Request(verb: Method, url: string, headers: seq<Field>, body: Body)

  function RenderFields(fields: seq<Field>, ctx: Context): Result<seq<Field>, RenderError> {
    if fields == [] then Ok([])
    else match RenderText(fields[0].value, ctx)
         case Err(e) => Err(e)
         case Ok(v) =>
           match RenderFields(fields[1..], ctx)
           case Err(e) => Err(e)
           case Ok(rest) => Ok([Field(fields[0].key, v)] + rest)
  }

  function CollectFields(fields: seq<Field>, ctx: Context): seq<Field> {
    if fields == [] then []
    else [Field(fields[0].key, CollectText(fields[0].value, ctx))] + CollectFields(fields[1..], ctx)
  }

  /** Headers are rendered and validated one after the other. */
  function RenderHeaders(fields: seq<Field>, ctx: Context, lib: Library): Result<seq<Field>, RenderError> {
    if fields == [] then Ok([])
    else match RenderText(fields[0].value, ctx)
         case Err(e) => Err(e)
         case Ok(v) =>
           if !lib.validName(fields[0].key) || !lib.validValue(v) then Err(BadHeader(fields[0].key))
           else match RenderHeaders(fields[1..], ctx, lib)
                case Err(e) => Err(e)
                case Ok(rest) => Ok([Field(fields[0].key, v)] + rest)
  }

  /** A trace skips the headers it cannot send. */
  function SendableHeaders(fields: seq<Field>, lib: Library): seq<Field> {
    if fields == [] then []
    else (if lib.validName(fields[0].key) && lib.validValue(fields[0].value) then [fields[0]] else [])
         + SendableHeaders(fields[1..], lib)
  }

  /** The first header a trace cannot send; it becomes the row's error. */
  function FirstBadHeader(fields: seq<Field>, lib: Library): Option<string> {
    if fields == [] then None
    else if lib.validName(fields[0].key) && lib.validValue(fields[0].value) then FirstBadHeader(fields[1..], lib)
    else Some(fields[0].key)
  }

  function RenderBody(body: Body, ctx: Context, lib: Library): Result<Body, RenderError> {
    match body
    case NoBody => Ok(NoBody)
    case JsonBody(v) => (match RenderJson(v, ctx, lib) case Ok(r) => Ok(JsonBody(r)) case Err(e) => Err(e))
    case FormBody(fields) => (match RenderFields(fields, ctx) case Ok(r) => Ok(FormBody(r)) case Err(e) => Err(e))
    case RawBody(text) => (match RenderText(text, ctx) case Ok(r) => Ok(RawBody(r)) case Err(e) => Err(e))
  }

  function CollectBody(body: Body, ctx: Context, lib: Library): Body {
    match body
    case NoBody => NoBody
    case JsonBody(v) => JsonBody(CollectJson(v, ctx, lib))
    case FormBody(fields) => FormBody(CollectFields(fields, ctx))
    case RawBody(text) => RawBody(CollectText(text, ctx))
  }

  /** The request a load run sends, or why it cannot be built. */
  function Build(req: Request, ctx: Context, lib: Library): Result<Request, RenderError> {
    match RenderText(req.url, ctx)
    case Err(e) => Err(e)
    case Ok(url) =>
      match RenderHeaders(req.headers, ctx, lib)
      case Err(e) => Err(e)
      case Ok(headers) =>
        match RenderBody(req.body, ctx, lib)
        case Err(e) => Err(e)
        case Ok(body) => Ok(Request(req.verb, url, headers, body))
  }

  /** The request a trace sends, the names it found no value for, and its build error. */
  datatype Traced = Traced(sent: Request, unbound: seq<string>, badHeader: Option<string>)

  function BuildTraced(req: Request, ctx: Context, lib: Library): Traced {
    var headers := CollectFields(req.headers, ctx);
    Traced(Request(req.verb, CollectText(req.url, ctx), SendableHeaders(headers, lib), CollectBody(req.body, ctx, lib)),
           Dedup(MissingIn(RequestTexts(req), ctx), {}),
           FirstBadHeader(headers, lib))
  }

  /** Keeps the first occurrence of every name. */
  function Dedup(names: seq<string>, seen: set<string>): seq<string> {
    if names == [] then []
    else if names[0] in seen then Dedup(names[1..], seen)
    else [names[0]] + Dedup(names[1..], seen + {names[0]})
  }

  function Values(fields: seq<Field>): seq<string> {
    if fields == [] then [] else [fields[0].value] + Values(fields[1..])
  }

  function BodyTexts(body: Body): seq<string> {
    match body
    case NoBody => []
    case JsonBody(v) => Texts(v)
    case FormBody(fields) => Values(fields)
    case RawBody(text) => [text]
  }

  /** Every text of a request that is rendered, in the order of rendering. */
  function RequestTexts(req: Request): seq<string> {
    [req.url] + Values(req.headers) + BodyTexts(req.body)
  }

  predicate AnyUnclosed(texts: seq<string>) {
    texts != [] && (HasUnclosed(Tokens(texts[0])) || AnyUnclosed(texts[1..]))
  }

  predicate BodyTrouble(body: Body, ctx: Context, lib: Library) {
    if body.JsonBody? then Trouble(body.json, ctx, lib) else AnyUnclosed(BodyTexts(body))
  }

  /** What no trace reports but a load run refuses: an unclosed marker, or a cast that does not fit. */
  predicate RequestTrouble(req: Request, ctx: Context, lib: Library) {
    AnyUnclosed([req.url]) || AnyUnclosed(Values(req.headers)) || BodyTrouble(req.body, ctx, lib)
  }

  lemma {:induction false} FieldsAgree(fields: seq<Field>, ctx: Context)
    ensures RenderFields(fields, ctx).Ok? <==> MissingIn(Values(fields), ctx) == [] && !AnyUnclosed(Values(fields))
    ensures RenderFields(fields, ctx).Ok? ==> RenderFields(fields, ctx).value == CollectFields(fields, ctx)
  {
    if fields != [] {
      TextAgrees(fields[0].value, ctx);
      FieldsAgree(fields[1..], ctx);
      assert Values(fields)[1..] == Values(fields[1..]);
    }
  }

  lemma {:induction false} HeadersAgree(fields: seq<Field>, ctx: Context, lib: Library)
    ensures var collected, r := CollectFields(fields, ctx), RenderHeaders(fields, ctx, lib);
            && (r.Ok? <==> MissingIn(Values(fields), ctx) == [] && !AnyUnclosed(Values(fields))
                           && FirstBadHeader(collected, lib) == None)
            && (r.Ok? ==> r.value == collected == SendableHeaders(collected, lib))
  {
    if fields != [] {
      TextAgrees(fields[0].value, ctx);
      HeadersAgree(fields[1..], ctx, lib);
      assert Values(fields)[1..] == Values(fields[1..]);
      assert CollectFields(fields, ctx)[1..] == CollectFields(fields[1..], ctx);
    }
  }

  lemma BodyAgrees(body: Body, ctx: Context, lib: Library)
    ensures RenderBody(body, ctx, lib).Ok? <==> MissingIn(BodyTexts(body), ctx) == [] && !BodyTrouble(body, ctx, lib)
    ensures RenderBody(body, ctx, lib).Ok? ==> RenderBody(body, ctx, lib).value == CollectBody(body, ctx, lib)
  {
    match body
    case NoBody =>
    case JsonBody(v) => JsonAgrees(v, ctx, lib);
    case FormBody(fields) => FieldsAgree(fields, ctx);
    case RawBody(text) =>
      TextAgrees(text, ctx);
      OneText(text, ctx);
  }

  lemma OneText(text: string, ctx: Context)
    ensures MissingIn([text], ctx) == Missing(text, ctx)
    ensures AnyUnclosed([text]) <==> HasUnclosed(Tokens(text))
  {
    assert [text][1..] == [];
    assert MissingIn([], ctx) == [] && !AnyUnclosed([]);
  }

  lemma DedupEmpty(names: seq<string>)
    ensures Dedup(names, {}) == [] <==> names == []
  {
  }

  /** A load run can build a request exactly when a trace of it finds no name unbound and no bad
      header and no text is in trouble; and then both send the same request. */
  lemma BuildsAgree(req: Request, ctx: Context, lib: Library)
    ensures var t := BuildTraced(req, ctx, lib);
            && (Build(req, ctx, lib).Ok? <==> t.unbound == [] && t.badHeader == None && !RequestTrouble(req, ctx, lib))
            && (Build(req, ctx, lib).Ok? ==> t.sent == Build(req, ctx, lib).value)
  {
    TextAgrees(req.url, ctx);
    HeadersAgree(req.headers, ctx, lib);
    BodyAgrees(req.body, ctx, lib);
    MissingInAppend([req.url] + Values(req.headers), BodyTexts(req.body), ctx);
    MissingInAppend([req.url], Values(req.headers), ctx);
    OneText(req.url, ctx);
    DedupEmpty(MissingIn(RequestTexts(req), ctx));
  }

  /** Builds the request step by step, rendering every template strictly. */
  method BuildRequest(req: Request, ctx: Context, lib: Library) returns (r: Result<Request, RenderError>)
    ensures r == Build(req, ctx, lib)
  {
    var url := RenderStrictly(req.url, ctx);
    if url.Err? {
      return Err(url.error);
    }
    var headers: seq<Field> := [];
    PrependNone(RenderHeaders(req.headers, ctx, lib));
    assert req.headers[0..] == req.headers;
    for i := 0 to |req.headers|
      invariant RenderHeaders(req.headers, ctx, lib) == PrependFields(headers,
                                                                      RenderHeaders(req.headers[i..], ctx, lib))
    {
      var h := req.headers[i];
      assert req.headers[i..][0] == h && req.headers[i..][1..] == req.headers[i + 1..];
      var v := RenderStrictly(h.value, ctx);
      if v.Err? {
        return Err(v.error);
      }
      if !lib.validName(h.key) || !lib.validValue(v.value) {
        return Err(BadHeader(h.key));
      }
      PrependField(headers, Field(h.key, v.value), RenderHeaders(req.headers[i + 1..], ctx, lib));
      headers := headers + [Field(h.key, v.value)];
    }
    assert headers + [] == headers;
    match req.body
    case NoBody => return Ok(Request(req.verb, url.value, headers, NoBody));
    case JsonBody(v) =>
      match RenderJson(v, ctx, lib) {
        case Ok(json) => return Ok(Request(req.verb, url.value, headers, JsonBody(json)));
        case Err(e) => return Err(e);
      }
    case FormBody(fields) =>
      var form := RenderForm(fields, ctx);
      match form {
        case Ok(rendered) => return Ok(Request(req.verb, url.value, headers, FormBody(rendered)));
        case Err(e) => return Err(e);
      }
    case RawBody(text) =>
      var raw := RenderStrictly(text, ctx);
      match raw {
        case Ok(rendered) => return Ok(Request(req.verb, url.value, headers, RawBody(rendered)));
        case Err(e) => return Err(e);
      }
  }

  method RenderStrictly(s: string, ctx: Context) returns (r: Result<string, RenderError>)
    ensures r == RenderText(s, ctx)
  {
    var t, _ := RenderInner(s, ctx, StrictMode);
    match t
    case Ok(v) => return Ok(v);
    case Err(e) => return Err(Template(e));
  }

  method RenderForm(fields: seq<Field>, ctx: Context) returns (r: Result<seq<Field>, RenderError>)
    ensures r == RenderFields(fields, ctx)
  {
    var rendered: seq<Field> := [];
    PrependNone(RenderFields(fields, ctx));
    assert fields[0..] == fields;
    for i := 0 to |fields|
      invariant RenderFields(fields, ctx) == PrependFields(rendered, RenderFields(fields[i..], ctx))
    {
      assert fields[i..][0] == fields[i] && fields[i..][1..] == fields[i + 1..];
      var v := RenderStrictly(fields[i].value, ctx);
      if v.Err? {
        return Err(v.error);
      }
      PrependField(rendered, Field(fields[i].key, v.value), RenderFields(fields[i + 1..], ctx));
      rendered := rendered + [Field(fields[i].key, v.value)];
    }
    assert rendered + [] == rendered;
    return Ok(rendered);
  }

  function PrependFields(done: seq<Field>, r: Result<seq<Field>, RenderError>): Result<seq<Field>, RenderError> {
    match r
    case Ok(rest) => Ok(done + rest)
    case Err(e) => Err(e)
  }

  lemma PrependNone(r: Result<seq<Field>, RenderError>)
    ensures PrependFields([], r) == r
  {
    if r.Ok? {
      assert [] + r.value == r.value;
    }
  }

  lemma PrependField(done: seq<Field>, f: Field, r: Result<seq<Field>, RenderError>)
    ensures PrependFields(done, PrependFields([f], r)) == PrependFields(done + [f], r)
  {
    if r.Ok? {
      assert done + ([f] + r.value) == done + [f] + r.value;
    }
  }

  // ---------------------------------------------------------------------------------------
  // Which variables a request can show

  /** The names that some rendered text of the request spells as `{{name}}`. */
  function NamesIn(texts: seq<string>): set<string> {
    if texts == [] then {} else FlowNames(Tokens(texts[0])) + NamesIn(texts[1..])
  }

  function RequestNames(req: Request): set<string> {
    NamesIn(RequestTexts(req))
  }

  /** The context of the analysis: no variables, the sought names as environment, inside a loop. */
  function AnalysisContext(names: seq<string>): Context {
    Context(map[], map n | n in names :: "", 0, 0, Some(0))
  }

  function Ascending(hit: set<nat>, n: nat): seq<nat> {
    if n == 0 then [] else Ascending(hit, n - 1) + if n - 1 in hit then [n - 1] else []
  }

  lemma {:induction false} AscendingMembers(hit: set<nat>, n: nat)
    ensures forall i: nat :: i in Ascending(hit, n) <==> i < n && i in hit
    ensures forall i, j :: 0 <= i < j < |Ascending(hit, n)| ==> Ascending(hit, n)[i] < Ascending(hit, n)[j]
  {
    if n > 0 {
      AscendingMembers(hit, n - 1);
      var a := Ascending(hit, n - 1);
      assert forall i :: 0 <= i < |a| ==> a[i] in a;
    }
  }

  /** The indexes of the names the collecting renderer finds without a value. */
  function Refs(req: Request, names: seq<string>): seq<nat> {
    var found := MissingIn(RequestTexts(req), AnalysisContext(names));
    Ascending(set i | 0 <= i < |names| && names[i] in found, |names|)
  }

  /** One pass over the collected names, looking each up in the index. */
  method RequestFlowRefs(req: Request, names: seq<string>, index: map<string, nat>) returns (refs: seq<nat>)
    requires forall i, j :: 0 <= i < j < |names| ==> names[i] != names[j]
    requires forall n :: n in index <==> n in names
    requires forall n :: n in index ==> index[n] < |names| && names[index[n]] == n
    ensures refs == Refs(req, names)
  {
    hide MissingIn, RequestTexts, AnalysisContext;
    var unbound := MissingIn(RequestTexts(req), AnalysisContext(names));
    var hit: set<nat> := {};
    for k := 0 to |unbound|
      invariant hit == set i | 0 <= i < |names| && names[i] in unbound[..k]
    {
      ghost var before := hit;
      assert unbound[..k + 1] == unbound[..k] + [unbound[k]];
      if unbound[k] in index {
        hit := hit + {index[unbound[k]]};
        assert forall i :: 0 <= i < |names| && names[i] == unbound[k] ==> i == index[unbound[k]];
      }
    }
    assert unbound[..|unbound|] == unbound;
    refs := [];
    for n := 0 to |names|
      invariant refs == Ascending(hit, n)
    {
      if n in hit {
        refs := refs + [n];
      } else {
        assert refs + [] == refs;
      }
    }
  }

  lemma {:induction false} FoundIffSpelled(texts: seq<string>, names: seq<string>, n: string)
    requires n in names
    ensures n in MissingIn(texts, AnalysisContext(names)) <==> n in NamesIn(texts)
  {
    if texts != [] {
      UnclosedIsLast(texts[0]);
      CollectingFindsFlowNames(Tokens(texts[0]), AnalysisContext(names), n);
      FoundIffSpelled(texts[1..], names, n);
    }
  }

  /** The analysis is exact: index `i` is returned exactly when some rendered text of the request
      spells `{{names[i]}}`; indexes come in increasing order. */
  lemma RefsExact(req: Request, names: seq<string>, i: nat)
    requires i < |names|
    ensures i in Refs(req, names) <==> names[i] in RequestNames(req)
    ensures forall j, k :: 0 <= j < k < |Refs(req, names)| ==> Refs(req, names)[j] < Refs(req, names)[k]
  {
    var found := MissingIn(RequestTexts(req), AnalysisContext(names));
    AscendingMembers(set j | 0 <= j < |names| && names[j] in found, |names|);
    FoundIffSpelled(RequestTexts(req), names, names[i]);
  }

  // ---------------------------------------------------------------------------------------
  // Non-interference

  /** Every text has the same tokens' values in both contexts. */
  ghost predicate SameOn(texts: seq<string>, c: Context, d: Context) {
    forall i :: 0 <= i < |texts| ==> SameValues(Tokens(texts[i]), c, d)
  }

  lemma SameOnAppend(a: seq<string>, b: seq<string>, c: Context, d: Context)
    requires SameOn(a + b, c, d)
    ensures SameOn(a, c, d) && SameOn(b, c, d)
  {
    assert forall i :: 0 <= i < |a| ==> a[i] == (a + b)[i];
    assert forall i :: 0 <= i < |b| ==> b[i] == (a + b)[|a| + i];
  }

  lemma TextSeesOnly(s: string, c: Context, d: Context)
    requires SameValues(Tokens(s), c, d)
    ensures RenderText(s, c) == RenderText(s, d) && CollectText(s, c) == CollectText(s, d)
            && Missing(s, c) == Missing(s, d)
  {
    OnlyValuesMatter(Tokens(s), c, d);
  }

  lemma {:induction false} MissingSeesOnly(texts: seq<string>, c: Context, d: Context)
    requires SameOn(texts, c, d)
    ensures MissingIn(texts, c) == MissingIn(texts, d)
  {
    if texts != [] {
      TextSeesOnly(texts[0], c, d);
      MissingSeesOnly(texts[1..], c, d);
    }
  }

  lemma {:induction false} JsonSeesOnly(v: Json, c: Context, d: Context, lib: Library)
    requires SameOn(Texts(v), c, d)
    ensures RenderJson(v, c, lib) == RenderJson(v, d, lib) && CollectJson(v, c, lib) == CollectJson(v, d, lib)
    decreases v, 0
  {
    match v
    case Str(s) =>
      assert Texts(v)[0] == LeafText(s);
      TextSeesOnly(LeafText(s), c, d);
    case Array(items) => ItemsSeeOnly(items, c, d, lib);
    case Object(members) => MembersSeeOnly(members, c, d, lib);
    case _ =>
  }

  lemma {:induction false} ItemsSeeOnly(items: seq<Json>, c: Context, d: Context, lib: Library)
    requires SameOn(TextsOfItems(items), c, d)
    ensures RenderItems(items, c, lib) == RenderItems(items, d, lib)
            && CollectItems(items, c, lib) == CollectItems(items, d, lib)
    decreases items
  {
    if items != [] {
      SameOnAppend(Texts(items[0]), TextsOfItems(items[1..]), c, d);
      JsonSeesOnly(items[0], c, d, lib);
      ItemsSeeOnly(items[1..], c, d, lib);
    }
  }

  lemma {:induction false} MembersSeeOnly(members: seq<Member>, c: Context, d: Context, lib: Library)
    requires SameOn(TextsOfMembers(members), c, d)
    ensures RenderMembers(members, c, lib) == RenderMembers(members, d, lib)
    ensures CollectMembers(members, c, lib) == CollectMembers(members, d, lib)
    decreases members
  {
    if members != [] {
      SameOnAppend(Texts(members[0].value), TextsOfMembers(members[1..]), c, d);
      JsonSeesOnly(members[0].value, c, d, lib);
      MembersSeeOnly(members[1..], c, d, lib);
    }
  }

  lemma {:induction false} FieldsSeeOnly(fields: seq<Field>, c: Context, d: Context, lib: Library)
    requires SameOn(Values(fields), c, d)
    ensures RenderFields(fields, c) == RenderFields(fields, d)
    ensures CollectFields(fields, c) == CollectFields(fields, d)
    ensures RenderHeaders(fields, c, lib) == RenderHeaders(fields, d, lib)
  {
    if fields != [] {
      assert Values(fields)[1..] == Values(fields[1..]) && Values(fields)[0] == fields[0].value;
      TextSeesOnly(fields[0].value, c, d);
      FieldsSeeOnly(fields[1..], c, d, lib);
    }
  }

  lemma BodySeesOnly(body: Body, c: Context, d: Context, lib: Library)
    requires SameOn(BodyTexts(body), c, d)
    ensures RenderBody(body, c, lib) == RenderBody(body, d, lib)
            && CollectBody(body, c, lib) == CollectBody(body, d, lib)
  {
    match body
    case NoBody =>
    case JsonBody(v) => JsonSeesOnly(v, c, d, lib);
    case FormBody(fields) => FieldsSeeOnly(fields, c, d, lib);
    case RawBody(text) =>
      assert BodyTexts(body)[0] == text;
      TextSeesOnly(text, c, d);
  }

  /** Two contexts that give the same values to the tokens of a request give the same request, the
      same error and the same trace. */
  lemma RequestSeesValues(req: Request, c: Context, d: Context, lib: Library)
    requires SameOn(RequestTexts(req), c, d)
    ensures Build(req, c, lib) == Build(req, d, lib) && BuildTraced(req, c, lib) == BuildTraced(req, d, lib)
  {
    SameOnAppend([req.url] + Values(req.headers), BodyTexts(req.body), c, d);
    SameOnAppend([req.url], Values(req.headers), c, d);
    assert [req.url][0] == req.url;
    TextSeesOnly(req.url, c, d);
    FieldsSeeOnly(req.headers, c, d, lib);
    BodySeesOnly(req.body, c, d, lib);
    MissingSeesOnly(RequestTexts(req), c, d);
  }

  lemma {:induction false} NamesOfText(texts: seq<string>, i: nat)
    requires i < |texts|
    ensures FlowNames(Tokens(texts[i])) <= NamesIn(texts)
    decreases i
  {
    if i > 0 {
      NamesOfText(texts[1..], i - 1);
    }
  }

  /** Two variable maps that agree on the names a request spells give the same request, the same
      error and the same trace. */
  lemma RequestSeesOnly(req: Request, ctx: Context, w: map<string, string>, lib: Library)
    requires AgreeOn(ctx.vars, w, RequestNames(req))
    ensures var ctx' := ctx.(vars := w);
            Build(req, ctx, lib) == Build(req, ctx', lib) && BuildTraced(req, ctx, lib) == BuildTraced(req, ctx', lib)
  {
    hide Build, BuildTraced, RequestTexts;
    var texts := RequestTexts(req);
    forall i | 0 <= i < |texts|
      ensures SameValues(Tokens(texts[i]), ctx, ctx.(vars := w))
    {
      NamesOfText(texts, i);
      AgreeingVarsGiveSameValues(Tokens(texts[i]), ctx, w);
    }
    RequestSeesValues(req, ctx, ctx.(vars := w), lib);
  }

  /** Some text spells `${name}`. */
  predicate SpelledIn(texts: seq<string>, name: string) {
    exists i :: 0 <= i < |texts| && SpellsSystem(Tokens(texts[i]), name)
  }

  lemma UnspelledIdsAreSame(texts: seq<string>, ctx: Context, vu: nat, iter: nat)
    requires ctx.vuId == vu || !SpelledIn(texts, "vu_id")
    requires ctx.iterId == iter || !SpelledIn(texts, "iter_id")
    ensures SameOn(texts, ctx, ctx.(vuId := vu, iterId := iter))
  {
    hide Tokens, SpellsSystem, SameValues;
    forall i | 0 <= i < |texts|
      ensures SameValues(Tokens(texts[i]), ctx, ctx.(vuId := vu, iterId := iter))
    {
      UnspelledIdsGiveSameValues(Tokens(texts[i]), ctx, vu, iter);
    }
  }

  /** A request that does not spell `${vu_id}` is the same for every user, and one that does not
      spell `${iter_id}` is the same in every iteration. */
  lemma RequestSeesSpelledIds(req: Request, ctx: Context, vu: nat, iter: nat, lib: Library)
    requires ctx.vuId == vu || !SpelledIn(RequestTexts(req), "vu_id")
    requires ctx.iterId == iter || !SpelledIn(RequestTexts(req), "iter_id")
    ensures var ctx' := ctx.(vuId := vu, iterId := iter);
            Build(req, ctx, lib) == Build(req, ctx', lib) && BuildTraced(req, ctx, lib) == BuildTraced(req, ctx', lib)
  {
    hide Build, BuildTraced, SpelledIn, SameOn;
    UnspelledIdsAreSame(RequestTexts(req), ctx, vu, iter);
    RequestSeesValues(req, ctx, ctx.(vuId := vu, iterId := iter), lib);
  }
}
