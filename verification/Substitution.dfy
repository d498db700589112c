/** What a rendered template contains: the values its tokens stand for, in their places. */
module Substitutions {
  import opened Options
  import opened Text
  import opened Templates

  // ---------------------------------------------------------------------------------------
  // Cutting a template

  /** The text can be followed by anything without changing how it is read: it leaves no marker open
      and does not end in the first half of one. */
  predicate Complete(a: string) {
    !HasUnclosed(Tokens(a)) && EndsClean(a)
  }

  predicate EndsClean(a: string) {
    a == "" || (a[|a| - 1] != '{' && a[|a| - 1] != '$')
  }

  /** The text has no marker in it. */
  predicate Plain(v: string) {
    forall i :: 0 <= i < |v| ==> MarkerAt(v, i).None?
  }

  lemma {:induction false} FindAppend(s: string, x: string, needle: string)
    requires needle != "" && Find(s, needle).Some?
    ensures Find(s + x, needle) == Find(s, needle)
    decreases |s|
  {
    assert needle <= s <==> |s| >= |needle| && (s + x)[..|needle|] == needle;
    if !(needle <= s) {
      assert (s + x)[1..] == s[1..] + x;
      FindAppend(s[1..], x, needle);
    }
  }

  /** A marked token at the front stays the first token whatever follows it. */
  lemma MarkedFirst(double: bool, inner: string, rest: string)
    requires Find(inner + Closer(double), Closer(double)) == Some(|inner|)
    ensures var s := Opener(double) + inner + Closer(double) + rest;
            Opens(s, double) && Tokens(s) == [MarkedToken(double, inner)] + Tokens(rest)
  {
    hide Find, Tokens;
    var s, tail := Opener(double) + inner + Closer(double) + rest, inner + Closer(double) + rest;
    assert s == Opener(double) + tail && s[2..] == tail;
    FindAppend(inner + Closer(double), rest, Closer(double));
    TokenFirstIn(s, double, |inner|);
    assert tail[..|inner|] == inner && tail[|inner| + |Closer(double)|..] == rest;
  }

  function Opener(double: bool): string {
    if double then "{{" else "${"
  }

  /** Reading a complete text and reading what follows it are independent. */
  lemma {:induction false} TokensAppend(a: string, x: string)
    requires Complete(a)
    ensures Tokens(a + x) == Tokens(a) + Tokens(x)
    decreases |a|
  {
    hide Find, Tokens;
    if a == "" {
      assert a + x == x;
      NothingLeft(a);
    } else if MarkerAt(a, 0).Some? {
      MarkedAppend(a, x, MarkerAt(a, 0).value);
    } else {
      assert (a + x)[0..] == a + x && a[0..] == a && (a + x)[1..] == a[1..] + x;
      LiteralAt(a, 0);
      assert MarkerAt(a + x, 0).None?;
      LiteralAt(a + x, 0);
      assert HasUnclosed(Tokens(a)) <==> HasUnclosed(Tokens(a[1..])) by {
        assert ([Literal(a[0])] + Tokens(a[1..]))[1..] == Tokens(a[1..]);
      }
      TokensAppend(a[1..], x);
    }
  }

  lemma {:induction false} MarkedAppend(a: string, x: string, double: bool)
    requires a != "" && Complete(a) && Opens(a, double)
    ensures Tokens(a + x) == Tokens(a) + Tokens(x)
    decreases |a|, 0
  {
    hide Find, Tokens;
    var close := Closer(double);
    match Find(a[2..], close)
    case None =>
      NoCloser(a, double);
      assert false;
    case Some(e) =>
      FindAppend(a[2..], x, close);
      assert (a + x)[2..] == a[2..] + x && Opens(a + x, double);
      TokenFirstIn(a, double, e);
      TokenFirstIn(a + x, double, e);
      var rest := a[2..][e + |close|..];
      assert (a[2..] + x)[..e] == a[2..][..e] && (a[2..] + x)[e + |close|..] == rest + x;
      var t := MarkedToken(double, a[2..][..e]);
      assert ([t] + Tokens(rest))[1..] == Tokens(rest);
      TokensAppend(rest, x);
  }

  // ---------------------------------------------------------------------------------------
  // White space around a name

  predicate Blank(s: string) {
    forall i :: 0 <= i < |s| ==> IsSpace(s[i])
  }

  /** Nothing of the name is trimmed. */
  predicate Bare(n: string) {
    n == "" || (!IsSpace(n[0]) && !IsSpace(n[|n| - 1]))
  }

  lemma {:induction false} TrimStartPad(l: string, x: string)
    requires Blank(l) && (x == "" || !IsSpace(x[0]))
    ensures TrimStart(l + x) == x
    decreases |l|
  {
    if l == "" {
      assert l + x == x;
    } else {
      assert (l + x)[1..] == l[1..] + x;
      TrimStartPad(l[1..], x);
    }
  }

  lemma {:induction false} TrimEndPad(x: string, r: string)
    requires Blank(r) && (x == "" || !IsSpace(x[|x| - 1]))
    ensures TrimEnd(x + r) == x
    decreases |r|
  {
    if r == "" {
      assert x + r == x;
    } else {
      assert (x + r)[..|x + r| - 1] == x + r[..|r| - 1];
      TrimEndPad(x, r[..|r| - 1]);
    }
  }

  lemma TrimPads(l: string, n: string, r: string)
    requires Blank(l) && Blank(r) && Bare(n)
    ensures Trim(l + n + r) == n
  {
    if n == "" {
      assert l + n + r == (l + r) + "";
      TrimStartPad(l + r, "");
    } else {
      assert l + n + r == l + (n + r);
      TrimStartPad(l, n + r);
      TrimEndPad(n, r);
    }
  }

  // ---------------------------------------------------------------------------------------
  // What is put in the place of a token

  lemma {:induction false} RenderAppend(ts: seq<Token>, us: seq<Token>, ctx: Context)
    requires !HasUnclosed(ts)
    ensures Lenient(ts + us, ctx) == Lenient(ts, ctx) + Lenient(us, ctx)
    ensures Unbound(ts + us, ctx) == Unbound(ts, ctx) + Unbound(us, ctx)
    ensures HasUnclosed(ts + us) <==> HasUnclosed(us)
    decreases |ts|
  {
    hide Lenient, Unbound, HasUnclosed, TextOf, MissingOf;
    ClosedFirst(ts, ctx);
    if ts == [] {
      assert ts + us == us;
    } else {
      var t, rest := ts[0], ts[1..];
      assert ts == [t] + rest && ts + us == [t] + (rest + us);
      TokenFirst(t, rest, ctx);
      RenderAppend(rest, us, ctx);
      TokenFirst(t, rest + us, ctx);
      Regroup(Lenient(ts + us, ctx), TextOf(t, ctx), Lenient(rest, ctx), Lenient(us, ctx), Lenient(rest + us, ctx));
      Regroup(Unbound(ts + us, ctx), MissingOf(t, ctx), Unbound(rest, ctx), Unbound(us, ctx), Unbound(rest + us, ctx));
    }
  }

  lemma ClosedFirst(ts: seq<Token>, ctx: Context)
    requires !HasUnclosed(ts)
    ensures if ts == [] then Lenient(ts, ctx) == "" && Unbound(ts, ctx) == [] else !ts[0].Unclosed?
  {
  }

  /** In every mode, `s` renders as `a`, then the text `v`, then `b`; the names without a value are
      those of `a`, then `missing`, then those of `b`. */
  ghost predicate Inserted(s: string, a: string, v: string, missing: seq<string>, b: string, ctx: Context) {
    && Lenient(Tokens(s), ctx) == Lenient(Tokens(a), ctx) + v + Lenient(Tokens(b), ctx)
    && Unbound(Tokens(s), ctx) == Unbound(Tokens(a), ctx) + missing + Unbound(Tokens(b), ctx)
    && Strict(Tokens(s), ctx)
       == match Strict(Tokens(a), ctx)
          case Err(e) => Err(e)
          case Ok(x) => if missing != [] then Err(UnknownVar(missing[0])) else Prepend(x + v, Strict(Tokens(b), ctx))
  }

  lemma TokensInserted(s: string, a: string, ts: seq<Token>, b: string, ctx: Context)
    requires !HasUnclosed(Tokens(a)) && !HasUnclosed(ts) && Tokens(s) == Tokens(a) + (ts + Tokens(b))
    ensures Inserted(s, a, Lenient(ts, ctx), Unbound(ts, ctx), b, ctx)
  {
    hide Tokens, Strict, Lenient, Unbound;
    RenderAppend(Tokens(a), ts + Tokens(b), ctx);
    RenderAppend(ts, Tokens(b), ctx);
    StrictFromCollecting(Tokens(s), ctx);
    StrictFromCollecting(Tokens(a), ctx);
    StrictFromCollecting(Tokens(b), ctx);
    Assoc(Lenient(Tokens(a), ctx), Lenient(ts, ctx), Lenient(Tokens(b), ctx));
  }

  lemma TokenInserted(a: string, double: bool, inner: string, b: string, ctx: Context)
    requires Complete(a) && Find(inner + Closer(double), Closer(double)) == Some(|inner|)
    ensures var t := MarkedToken(double, inner);
            Inserted(a + Opener(double) + inner + Closer(double) + b, a, Lenient([t], ctx), Unbound([t], ctx), b, ctx)
  {
    hide Tokens, Find, Lenient, Unbound, Inserted;
    var marked := Opener(double) + inner + Closer(double) + b;
    MarkedFirst(double, inner, b);
    TokensAppend(a, marked);
    assert a + Opener(double) + inner + Closer(double) + b == a + marked;
    TokensInserted(a + marked, a, [MarkedToken(double, inner)], b, ctx);
  }

  lemma ClosesAtEnd(inner: string, double: bool)
    requires '}' !in inner
    ensures Find(inner + Closer(double), Closer(double)) == Some(|inner|)
  {
    hide Find;
    var s, close := inner + Closer(double), Closer(double);
    FindIsFirst(s, close);
    assert s[|inner|..] == close;
    assert forall j :: 0 <= j < |inner| ==> s[j..][0] == inner[j];
  }

  /** `{{n}}`, with or without white space around the name, is replaced by the value of `n`, which is
      not scanned again; without a value it vanishes and `n` is reported. */
  lemma FlowSubstitution(a: string, l: string, n: string, r: string, b: string, ctx: Context)
    requires Complete(a) && Blank(l) && Blank(r) && Bare(n) && '}' !in n
    ensures var s := a + "{{" + (l + n + r) + "}}" + b;
            if n in ctx.vars then Inserted(s, a, ctx.vars[n], [], b, ctx) else Inserted(s, a, "", [n], b, ctx)
  {
    hide Tokens, Find, Inserted, Trim;
    var inner := l + n + r;
    assert !IsSpace('}');
    ClosesAtEnd(inner, true);
    TrimPads(l, n, r);
    TokenInserted(a, true, inner, b, ctx);
    OneToken(MarkedToken(true, inner), ctx);
  }

  lemma OneToken(t: Token, ctx: Context)
    requires !t.Unclosed?
    ensures Lenient([t], ctx) == TextOf(t, ctx) && Unbound([t], ctx) == MissingOf(t, ctx)
  {
    TokenFirst(t, [], ctx);
    assert [t] + [] == [t] && TextOf(t, ctx) + "" == TextOf(t, ctx) && MissingOf(t, ctx) + [] == MissingOf(t, ctx);
  }

  /** The inside of `${ }`: a name, and perhaps a default after `:-`. */
  function WithDefault(l: string, n: string, r: string, default: Option<string>): string {
    match default
    case None => l + n + r
    case Some(d) => l + n + r + (":-" + d)
  }

  predicate BuiltIn(n: string) {
    n == "vu_id" || n == "iter_id" || n == "loop_index"
  }

  /** `${n}`, with or without a default: the three built-in names give their numbers whatever the
      environment and the default say; for every other name the environment comes first and the
      default, taken literally, second. */
  lemma SystemSubstitution(a: string, l: string, n: string, r: string, default: Option<string>, b: string,
                           ctx: Context)
    requires Complete(a) && Blank(l) && Blank(r) && Bare(n) && '}' !in n && !Contains(n, ":-")
    requires default.Some? ==> '}' !in default.value
    ensures var s := a + "${" + WithDefault(l, n, r, default) + "}" + b;
            && (n == "vu_id" ==> Inserted(s, a, Decimal(ctx.vuId), [], b, ctx))
            && (n == "iter_id" ==> Inserted(s, a, Decimal(ctx.iterId), [], b, ctx))
            && (n == "loop_index" && ctx.loopIndex.Some? ==>
                  Inserted(s, a, Decimal(ctx.loopIndex.value), [], b, ctx))
            && (n == "loop_index" && ctx.loopIndex.None? ==> Inserted(s, a, "", [n], b, ctx))
            && (!BuiltIn(n) && n in ctx.env ==> Inserted(s, a, ctx.env[n], [], b, ctx))
            && (!BuiltIn(n) && n !in ctx.env && default.Some? ==> Inserted(s, a, default.value, [], b, ctx))
            && (!BuiltIn(n) && n !in ctx.env && default.None? ==> Inserted(s, a, "", [n], b, ctx))
  {
    hide Tokens, Find, Inserted, SystemName, SystemDefault;
    var inner := WithDefault(l, n, r, default);
    assert !IsSpace('}');
    ClosesAtEnd(inner, false);
    NameAndDefault(l, n, r, default);
    TokenInserted(a, false, inner, b, ctx);
    OneToken(MarkedToken(false, inner), ctx);
  }

  lemma NameAndDefault(l: string, n: string, r: string, default: Option<string>)
    requires Blank(l) && Blank(r) && Bare(n) && !Contains(n, ":-")
    ensures var inner := WithDefault(l, n, r, default); SystemName(inner) == n && SystemDefault(inner) == default
  {
    hide Find, Trim;
    var name, inner := l + n + r, WithDefault(l, n, r, default);
    TrimPads(l, n, r);
    NoDash(l, n, r);
    FindIsFirst(inner, ":-");
    if default.Some? {
      assert inner[|name|..] == ":-" + default.value;
      forall j | 0 <= j < |name|
        ensures !(":-" <= inner[j..])
      {
        if j + 1 < |name| {
          assert inner[j..][..2] == name[j..][..2];
        } else {
          assert inner[j..][1] == ':';
        }
      }
      assert inner[..|name|] == name && inner[|name| + 2..] == default.value;
    }
  }

  lemma NoDash(l: string, n: string, r: string)
    requires Blank(l) && Blank(r) && !Contains(n, ":-")
    ensures forall j :: 0 <= j <= |l + n + r| ==> !(":-" <= (l + n + r)[j..])
  {
    hide Find;
    var name := l + n + r;
    FindIsFirst(n, ":-");
    assert !IsSpace(':') && !IsSpace('-');
    forall j | 0 <= j <= |name|
      ensures !(":-" <= name[j..])
    {
      if |l| <= j && j + 1 < |l| + |n| {
        assert n[j - |l|..][..2] == name[j..][..2];
      } else if j + 1 < |name| {
        assert name[j..][0] == name[j] && name[j..][1] == name[j + 1];
        assert IsSpace(name[j]) || IsSpace(name[j + 1]);
      }
    }
  }

  // ---------------------------------------------------------------------------------------
  // Substitution as replacement

  /** A text without a marker renders as itself in every mode. */
  lemma {:induction false} PlainRendersItself(v: string, ctx: Context)
    requires Plain(v)
    ensures Lenient(Tokens(v), ctx) == v && Unbound(Tokens(v), ctx) == [] && !HasUnclosed(Tokens(v))
    ensures Strict(Tokens(v), ctx) == Ok(v)
    decreases |v|
  {
    hide Tokens, Strict;
    if v == "" {
      NothingLeft(v);
    } else {
      assert v[0..] == v;
      assert MarkerAt(v, 0).None?;
      LiteralAt(v, 0);
      forall i | 0 <= i < |v[1..]|
        ensures MarkerAt(v[1..], i).None?
      {
        assert MarkerAt(v, i + 1).None?;
      }
      PlainRendersItself(v[1..], ctx);
      TokenFirst(Literal(v[0]), Tokens(v[1..]), ctx);
    }
    StrictFromCollecting(Tokens(v), ctx);
  }

  /** Putting a text without markers in the place of the token gives the same rendering. */
  lemma PlainInserted(a: string, v: string, b: string, ctx: Context)
    requires Complete(a) && Plain(v) && EndsClean(v)
    ensures Inserted(a + v + b, a, v, [], b, ctx)
  {
    hide Tokens, Inserted, Lenient, Unbound, Plain;
    PlainRendersItself(v, ctx);
    Assoc(a, v, b);
    TokensAppend(a, v + b);
    TokensAppend(v, b);
    TokensInserted(a + v + b, a, Tokens(v), b, ctx);
  }

  ghost predicate RenderAlike(s: string, t: string, ctx: Context) {
    && Strict(Tokens(s), ctx) == Strict(Tokens(t), ctx) && Lenient(Tokens(s), ctx) == Lenient(Tokens(t), ctx)
    && Unbound(Tokens(s), ctx) == Unbound(Tokens(t), ctx)
  }

  /** Rendering a template is rendering the text in which the token is replaced by its value. */
  lemma SubstitutionIsReplacement(a: string, l: string, n: string, r: string, b: string, ctx: Context)
    requires Complete(a) && Blank(l) && Blank(r) && Bare(n) && '}' !in n
    requires n in ctx.vars && Plain(ctx.vars[n]) && EndsClean(ctx.vars[n])
    ensures RenderAlike(a + "{{" + (l + n + r) + "}}" + b, a + ctx.vars[n] + b, ctx)
  {
    hide Tokens, Plain, Strict, Lenient, Unbound;
    FlowSubstitution(a, l, n, r, b, ctx);
    PlainInserted(a, ctx.vars[n], b, ctx);
  }

  /** An opening marker that is never closed: strict rendering refuses the template, unless an earlier
      name has no value; the other modes copy everything from it on. */
  lemma UnclosedIsCopied(a: string, double: bool, b: string, ctx: Context)
    requires Complete(a) && !Contains(b, Closer(double))
    ensures var ts, us := Tokens(a + (Opener(double) + b)), Tokens(a);
            && Lenient(ts, ctx) == Lenient(us, ctx) + (Opener(double) + b) && Unbound(ts, ctx) == Unbound(us, ctx)
            && Strict(ts, ctx) == if Strict(us, ctx).Err? then Strict(us, ctx) else Err(Malformed)
  {
    hide Tokens, Find, Strict;
    var open := Opener(double) + b;
    assert open[2..] == b;
    NoCloser(open, double);
    TokensAppend(a, open);
    RenderAppend(Tokens(a), [Unclosed(open)], ctx);
    StrictFromCollecting(Tokens(a + open), ctx);
    StrictFromCollecting(Tokens(a), ctx);
    assert Unbound(Tokens(a), ctx) + [] == Unbound(Tokens(a), ctx);
  }
}
