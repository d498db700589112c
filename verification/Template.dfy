/** Substitution of `{{var}}` and `${NAME}` tokens, in its strict, lenient and collecting modes. */
module Templates {
  import opened Options
  import opened Text

  datatype Context = Context(
    vars: map<string, string>,
    env: map<string, string>,
    vuId: nat,
    iterId: nat,
    loopIndex: Option<nat>
  )

  datatype TemplateError = UnknownVar(name: string) | Malformed

  // ---------------------------------------------------------------------------------------
  // The tokens of a template

  /** A character taken literally, the inside of a `{{ }}` or of a `${ }`, or everything from an
      opening marker that is never closed. */
  datatype Token = Literal(c: char) | Flow(inner: string) | System(inner: string) | Unclosed(text: string)

  function Tokens(s: string): seq<Token>
    decreases |s|
  {
    if s == "" then []
    else if "{{" <= s then
      match Find(s[2..], "}}")
      case None => [Unclosed(s)]
      case Some(e) => [Flow(s[2..][..e])] + Tokens(s[2..][e + 2..])
    else if "${" <= s then
      match Find(s[2..], "}")
      case None => [Unclosed(s)]
      case Some(e) => [System(s[2..][..e])] + Tokens(s[2..][e + 1..])
    else [Literal(s[0])] + Tokens(s[1..])
  }

  function Source(t: Token): string {
    match t
    case Literal(c) => [c]
    case Flow(inner) => "{{" + inner + "}}"
    case System(inner) => "${" + inner + "}"
    case Unclosed(text) => text
  }

  function Sources(ts: seq<Token>): string {
    if ts == [] then "" else Source(ts[0]) + Sources(ts[1..])
  }

  /** A marked token is cut out of the text between its marker and its closer. */
  lemma MarkedSource(open: string, inner: string, close: string, rest: string, s: string)
    requires open <= s && s[|open|..] == inner + (close + rest)
    ensures s == (open + inner + close) + rest
  {
    Assoc(open, inner, close + rest);
    Assoc(open + inner, close, rest);
    assert s == open + s[|open|..];
  }

  lemma CutAt(s: string, needle: string, k: nat)
    requires k + |needle| <= |s| && needle <= s[k..]
    ensures s == s[..k] + (needle + s[k + |needle|..])
  {
    assert s == s[..k] + s[k..];
    assert s[k..] == needle + s[k..][|needle|..];
    assert s[k..][|needle|..] == s[k + |needle|..];
  }

  /** Tokens lose nothing: written back, they are the template. */
  lemma {:induction false} TokensCoverSource(s: string)
    ensures Sources(Tokens(s)) == s
    decreases |s|
  {
    hide Find, Tokens;
    if s == "" {
      NothingToCover(s);
    } else {
      var ts := Tokens(s);
      TokensStep(s);
      if "{{" <= s {
        match Find(s[2..], "}}")
        case None => UnclosedSource(s);
        case Some(e) =>
          FindIsFirst(s[2..], "}}");
          CutAt(s[2..], "}}", e);
          MarkedSource("{{", s[2..][..e], "}}", s[2..][e + 2..], s);
          TokensCoverSource(s[2..][e + 2..]);
          assert ts[1..] == Tokens(s[2..][e + 2..]);
      } else if "${" <= s {
        match Find(s[2..], "}")
        case None => UnclosedSource(s);
        case Some(e) =>
          FindIsFirst(s[2..], "}");
          CutAt(s[2..], "}", e);
          MarkedSource("${", s[2..][..e], "}", s[2..][e + 1..], s);
          TokensCoverSource(s[2..][e + 1..]);
          assert ts[1..] == Tokens(s[2..][e + 1..]);
      } else {
        TokensCoverSource(s[1..]);
        assert ts[1..] == Tokens(s[1..]);
        assert s == [s[0]] + s[1..];
      }
    }
  }

  lemma NothingToCover(s: string)
    requires s == ""
    ensures Sources(Tokens(s)) == s
  {
  }

  /** The first token of a text, and where the rest begins. */
  lemma TokensStep(s: string)
    requires s != ""
    ensures "{{" <= s ==> Tokens(s) == match Find(s[2..], "}}")
                                       case None => [Unclosed(s)]
                                       case Some(e) => [Flow(s[2..][..e])] + Tokens(s[2..][e + 2..])
    ensures !("{{" <= s) && "${" <= s ==> Tokens(s) == match Find(s[2..], "}")
                                                       case None => [Unclosed(s)]
                                                       case Some(e) => [System(s[2..][..e])] + Tokens(s[2..][e + 1..])
    ensures !("{{" <= s) && !("${" <= s) ==> Tokens(s) == [Literal(s[0])] + Tokens(s[1..])
  {
    hide Find;
  }

  lemma UnclosedSource(s: string)
    ensures Sources([Unclosed(s)]) == s
  {
    assert [Unclosed(s)][1..] == [];
  }

  // ---------------------------------------------------------------------------------------
  // The value of a token

  function SystemName(inner: string): string {
    match Find(inner, ":-")
    case Some(p) => Trim(inner[..p])
    case None => Trim(inner)
  }

  function SystemDefault(inner: string): Option<string> {
    match Find(inner, ":-")
    case Some(p) => Some(inner[p + 2..])
    case None => None
  }

  /** The engine supplies three names itself; a default is ignored for them. */
  function SystemValue(inner: string, ctx: Context): Option<string> {
    var name := SystemName(inner);
    if name == "vu_id" then Some(Decimal(ctx.vuId))
    else if name == "iter_id" then Some(Decimal(ctx.iterId))
    else if name == "loop_index" then
      match ctx.loopIndex
      case Some(i) => Some(Decimal(i))
      case None => None
    else if name in ctx.env then Some(ctx.env[name])
    else SystemDefault(inner)
  }

  function FlowValue(inner: string, ctx: Context): Option<string> {
    if Trim(inner) in ctx.vars then Some(ctx.vars[Trim(inner)]) else None
  }

  function NameOf(t: Token): string
    requires t.Flow? || t.System?
  {
    if t.Flow? then Trim(t.inner) else SystemName(t.inner)
  }

  function ValueOf(t: Token, ctx: Context): Option<string>
    requires t.Flow? || t.System?
  {
    if t.Flow? then FlowValue(t.inner, ctx) else SystemValue(t.inner, ctx)
  }

  // ---------------------------------------------------------------------------------------
  // What each mode means

  function Prepend(s: string, r: Result<string, TemplateError>): Result<string, TemplateError> {
    match r
    case Ok(t) => Ok(s + t)
    case Err(e) => Err(e)
  }

  /** Strict: the first token without a value, or the first unclosed marker, is an error. */
  function Strict(ts: seq<Token>, ctx: Context): Result<string, TemplateError> {
    if ts == [] then Ok("")
    else match ts[0]
         case Literal(c) => Prepend([c], Strict(ts[1..], ctx))
         case Unclosed(_) => Err(Malformed)
         case _ =>
           match ValueOf(ts[0], ctx)
           case Some(v) => Prepend(v, Strict(ts[1..], ctx))
           case None => Err(UnknownVar(NameOf(ts[0])))
  }

  /** Lenient: tokens without a value vanish, an unclosed marker is copied and ends the text. */
  function Lenient(ts: seq<Token>, ctx: Context): string {
    if ts == [] then ""
    else match ts[0]
         case Literal(c) => [c] + Lenient(ts[1..], ctx)
         case Unclosed(text) => text
         case _ =>
           match ValueOf(ts[0], ctx)
           case Some(v) => v + Lenient(ts[1..], ctx)
           case None => Lenient(ts[1..], ctx)
  }

  /** The names of the tokens without a value, in order. */
  function Unbound(ts: seq<Token>, ctx: Context): seq<string> {
    if ts == [] then []
    else match ts[0]
         case Literal(_) => Unbound(ts[1..], ctx)
         case Unclosed(_) => []
         case _ => (if ValueOf(ts[0], ctx).None? then [NameOf(ts[0])] else []) + Unbound(ts[1..], ctx)
  }

  predicate HasUnclosed(ts: seq<Token>) {
    ts != [] && (ts[0].Unclosed? || HasUnclosed(ts[1..]))
  }

  /** Strict rendering in terms of collecting: the first collected name is its error; with none
      collected an unclosed marker is; otherwise both render the same text. */
  lemma {:induction false} StrictFromCollecting(ts: seq<Token>, ctx: Context)
    ensures Strict(ts, ctx) == if Unbound(ts, ctx) != [] then Err(UnknownVar(Unbound(ts, ctx)[0]))
                               else if HasUnclosed(ts) then Err(Malformed)
                               else Ok(Lenient(ts, ctx))
    decreases |ts|
  {
    if ts != [] {
      StrictFromCollecting(ts[1..], ctx);
    }
  }

  /** Three renderers, one meaning: strict rendering succeeds exactly when collecting renders the
      same text, collects nothing and meets no unclosed marker; it reports an unknown variable
      exactly when that name is the first collected; and it reports a malformed template exactly
      when an unclosed marker is met with nothing collected before it. */
  lemma StrictIsCleanCollecting(input: string, ctx: Context, s: string, n: string)
    ensures var ts := Tokens(input);
            && (Strict(ts, ctx) == Ok(s) <==> Lenient(ts, ctx) == s && Unbound(ts, ctx) == [] && !HasUnclosed(ts))
            && (Strict(ts, ctx) == Err(UnknownVar(n)) <==> Unbound(ts, ctx) != [] && Unbound(ts, ctx)[0] == n)
            && (Strict(ts, ctx) == Err(Malformed) <==> Unbound(ts, ctx) == [] && HasUnclosed(ts))
  {
    StrictFromCollecting(Tokens(input), ctx);
  }

  // ---------------------------------------------------------------------------------------
  // Which variables a template can see

  function FlowNames(ts: seq<Token>): set<string> {
    set i | 0 <= i < |ts| && ts[i].Flow? :: Trim(ts[i].inner)
  }

  /** The two maps hold the same value, or none, for the name. */
  predicate Same(v: map<string, string>, w: map<string, string>, n: string) {
    (n in v <==> n in w) && (n in v ==> v[n] == w[n])
  }

  ghost predicate AgreeOn(v: map<string, string>, w: map<string, string>, names: set<string>) {
    forall n :: n in names ==> Same(v, w, n)
  }

  /** Every token of the template has the same value, or none, in both contexts. */
  ghost predicate SameValues(ts: seq<Token>, c: Context, d: Context) {
    forall i :: 0 <= i < |ts| && (ts[i].Flow? || ts[i].System?) ==> ValueOf(ts[i], c) == ValueOf(ts[i], d)
  }

  /** No mode of rendering sees more of a context than the values of the template's tokens. */
  lemma {:induction false} OnlyValuesMatter(ts: seq<Token>, c: Context, d: Context)
    requires SameValues(ts, c, d)
    ensures Strict(ts, c) == Strict(ts, d) && Lenient(ts, c) == Lenient(ts, d) && Unbound(ts, c) == Unbound(ts, d)
    decreases |ts|
  {
    if ts != [] {
      assert forall i :: 0 <= i < |ts[1..]| ==> ts[1..][i] == ts[i + 1];
      OnlyValuesMatter(ts[1..], c, d);
    }
  }

  lemma AgreeingVarsGiveSameValues(ts: seq<Token>, ctx: Context, w: map<string, string>)
    requires AgreeOn(ctx.vars, w, FlowNames(ts))
    ensures SameValues(ts, ctx, ctx.(vars := w))
  {
    forall i | 0 <= i < |ts| && (ts[i].Flow? || ts[i].System?)
      ensures ValueOf(ts[i], ctx) == ValueOf(ts[i], ctx.(vars := w))
    {
      assert ts[i].Flow? ==> Trim(ts[i].inner) in FlowNames(ts);
    }
  }

  /** Two variable maps that agree on the names the template spells give the same text. */
  lemma OnlyFlowNamesMatter(ts: seq<Token>, ctx: Context, w: map<string, string>)
    requires AgreeOn(ctx.vars, w, FlowNames(ts))
    ensures var ctx' := ctx.(vars := w);
            Strict(ts, ctx) == Strict(ts, ctx') && Lenient(ts, ctx) == Lenient(ts, ctx')
                && Unbound(ts, ctx) == Unbound(ts, ctx')
  {
    AgreeingVarsGiveSameValues(ts, ctx, w);
    OnlyValuesMatter(ts, ctx, ctx.(vars := w));
  }

  /** The template spells `${name}`, with or without a default. */
  predicate SpellsSystem(ts: seq<Token>, name: string) {
    exists i :: 0 <= i < |ts| && ts[i].System? && SystemName(ts[i].inner) == name
  }

  /** The user and the iteration show only where `${vu_id}` and `${iter_id}` are spelled. */
  lemma UnspelledIdsGiveSameValues(ts: seq<Token>, ctx: Context, vu: nat, iter: nat)
    requires ctx.vuId == vu || !SpellsSystem(ts, "vu_id")
    requires ctx.iterId == iter || !SpellsSystem(ts, "iter_id")
    ensures SameValues(ts, ctx, ctx.(vuId := vu, iterId := iter))
  {
  }

  /** With no variables, the given names in the environment and a loop index, collecting finds
      a given name exactly where a `{{ }}` token spells it. */
  lemma {:induction false} CollectingFindsFlowNames(ts: seq<Token>, ctx: Context, n: string)
    requires ctx.vars == map[] && n in ctx.env && ctx.loopIndex.Some?
    requires forall i :: 0 <= i < |ts| - 1 ==> !ts[i].Unclosed?
    ensures n in Unbound(ts, ctx) <==> n in FlowNames(ts)
    decreases |ts|
  {
    if ts != [] {
      var rest := ts[1..];
      assert forall i :: 0 <= i < |rest| ==> rest[i] == ts[i + 1];
      CollectingFindsFlowNames(rest, ctx, n);
      assert n in FlowNames(ts) <==> (ts[0].Flow? && Trim(ts[0].inner) == n) || n in FlowNames(rest) by {
        if ts[0].Flow? && Trim(ts[0].inner) == n {
          assert n in FlowNames(ts);
        }
        if i :| 0 <= i < |rest| && rest[i].Flow? && Trim(rest[i].inner) == n {
          assert ts[i + 1].Flow? && Trim(ts[i + 1].inner) == n;
        }
      }
      if ts[0].Unclosed? {
        assert rest == [];
      }
    }
  }

  lemma {:induction false} UnclosedIsLast(s: string)
    ensures forall i :: 0 <= i < |Tokens(s)| - 1 ==> !Tokens(s)[i].Unclosed?
    decreases |s|
  {
    if s != "" {
      if "{{" <= s {
        match Find(s[2..], "}}")
        case None =>
        case Some(e) => UnclosedIsLast(s[2..][e + 2..]);
      } else if "${" <= s {
        match Find(s[2..], "}")
        case None =>
        case Some(e) => UnclosedIsLast(s[2..][e + 1..]);
      } else {
        UnclosedIsLast(s[1..]);
      }
    }
  }

  // ---------------------------------------------------------------------------------------
  // The scanner

  datatype Mode = StrictMode | LenientMode | CollectMode

  function Outcome(mode: Mode, ts: seq<Token>, ctx: Context): Result<string, TemplateError> {
    if mode.StrictMode? then Strict(ts, ctx) else Ok(Lenient(ts, ctx))
  }

  /** `done` has been produced, `seen` names had no value, and `rest` remains to be read. */
  ghost predicate Progress(input: string, ctx: Context, done: string, seen: seq<string>, rest: string) {
    && Lenient(Tokens(input), ctx) == done + Lenient(Tokens(rest), ctx)
    && Unbound(Tokens(input), ctx) == seen + Unbound(Tokens(rest), ctx)
    && (HasUnclosed(Tokens(input)) <==> HasUnclosed(Tokens(rest)))
  }

  function TextOf(t: Token, ctx: Context): string
    requires !t.Unclosed?
  {
    if t.Literal? then [t.c] else match ValueOf(t, ctx) case Some(v) => v case None => ""
  }

  function MissingOf(t: Token, ctx: Context): seq<string>
    requires !t.Unclosed?
  {
    if t.Literal? || ValueOf(t, ctx).Some? then [] else [NameOf(t)]
  }

  lemma TokenFirst(t: Token, tail: seq<Token>, ctx: Context)
    requires !t.Unclosed?
    ensures Lenient([t] + tail, ctx) == TextOf(t, ctx) + Lenient(tail, ctx)
    ensures Unbound([t] + tail, ctx) == MissingOf(t, ctx) + Unbound(tail, ctx)
    ensures HasUnclosed([t] + tail) <==> HasUnclosed(tail)
  {
    assert ([t] + tail)[1..] == tail;
  }

  lemma Regroup<T>(all: seq<T>, done: seq<T>, head: seq<T>, tail: seq<T>, old_: seq<T>)
    requires all == done + old_ && old_ == head + tail
    ensures all == (done + head) + tail
  {
  }

  lemma Step(input: string, ctx: Context, done: string, seen: seq<string>, rest: string, t: Token, rest': string)
    requires Progress(input, ctx, done, seen, rest)
    requires Tokens(rest) == [t] + Tokens(rest') && !t.Unclosed?
    ensures Progress(input, ctx, done + TextOf(t, ctx), seen + MissingOf(t, ctx), rest')
  {
    var tail := Tokens(rest');
    TokenFirst(t, tail, ctx);
    Regroup(Lenient(Tokens(input), ctx), done, TextOf(t, ctx), Lenient(tail, ctx), Lenient(Tokens(rest), ctx));
    Regroup(Unbound(Tokens(input), ctx), seen, MissingOf(t, ctx), Unbound(tail, ctx), Unbound(Tokens(rest), ctx));
  }

  /** The scan has found how everything ends. */
  lemma Finish(input: string, ctx: Context, done: string, seen: seq<string>, rest: string)
    requires Progress(input, ctx, done, seen, rest)
    requires rest == "" || Tokens(rest) == [Unclosed(rest)]
    ensures Lenient(Tokens(input), ctx) == done + rest && Unbound(Tokens(input), ctx) == seen
    ensures Strict(Tokens(input), ctx) == if seen != [] then Err(UnknownVar(seen[0]))
                                          else if rest != "" then Err(Malformed) else Ok(done)
  {
    StrictFromCollecting(Tokens(input), ctx);
    assert seen + [] == seen && done + "" == done;
  }

  lemma FirstMissing(input: string, ctx: Context, done: string, seen: seq<string>, rest: string)
    requires Progress(input, ctx, done, seen, rest) && seen != []
    ensures Strict(Tokens(input), ctx) == Err(UnknownVar(seen[0]))
  {
    StrictFromCollecting(Tokens(input), ctx);
  }

  lemma UnclosedAt(input: string, ctx: Context, i: nat, double: bool, out: string, seen: seq<string>)
    requires i + 2 <= |input| && Opens(input[i..], double) && Find(input[i + 2..], Closer(double)).None?
    requires Progress(input, ctx, out, seen, input[i..])
    ensures Lenient(Tokens(input), ctx) == out + input[i..] && Unbound(Tokens(input), ctx) == seen
    ensures seen == [] ==> Strict(Tokens(input), ctx) == Err(Malformed)
  {
    DropDrop(input, i, 2);
    NoCloser(input[i..], double);
    Finish(input, ctx, out, seen, input[i..]);
  }

  lemma StepAt(input: string, ctx: Context, i: nat, double: bool, e: nat, out: string, seen: seq<string>)
    requires i + 2 <= |input| && Opens(input[i..], double) && Find(input[i + 2..], Closer(double)) == Some(e)
    requires Progress(input, ctx, out, seen, input[i..])
    ensures var t, next := MarkedToken(double, input[i + 2..][..e]), i + 2 + e + |Closer(double)|;
            next <= |input| && Progress(input, ctx, out + TextOf(t, ctx), seen + MissingOf(t, ctx), input[next..])
    ensures var t := MarkedToken(double, input[i + 2..][..e]);
            seen == [] && ValueOf(t, ctx).None? ==> Strict(Tokens(input), ctx) == Err(UnknownVar(NameOf(t)))
  {
    hide Progress, Tokens, Lenient, Unbound, Strict;
    var next := i + 2 + e + |Closer(double)|;
    DropDrop(input, i, 2);
    DropDrop(input, i + 2, e + |Closer(double)|);
    TokenFirstIn(input[i..], double, e);
    var t := MarkedToken(double, input[i + 2..][..e]);
    Step(input, ctx, out, seen, input[i..], t, input[next..]);
    if seen == [] && ValueOf(t, ctx).None? {
      FirstMissing(input, ctx, out + TextOf(t, ctx), seen + MissingOf(t, ctx), input[next..]);
    }
  }

  /** The token at position `i`, whose literal run has been flushed to `out`: either it ends the
      scan with a result, or its value is appended and the scan goes on at `next`. */
  method Substitute(input: string, ctx: Context, mode: Mode, i: nat, double: bool, out: string, names: seq<string>,
                    ghost seen: seq<string>)
    returns (ended: bool, r: Result<string, TemplateError>, out': string, names': seq<string>, next: nat,
             ghost seen': seq<string>)
    requires i + 2 <= |input| && Opens(input[i..], double)
    requires Progress(input, ctx, out, seen, input[i..])
    requires names == (if mode.CollectMode? then seen else []) && (mode.StrictMode? ==> seen == [])
    ensures i < next <= |input|
    ensures ended ==> r == Outcome(mode, Tokens(input), ctx)
                      && names' == if mode.CollectMode? then Unbound(Tokens(input), ctx) else []
    ensures !ended ==> Progress(input, ctx, out', seen', input[next..])
                       && names' == (if mode.CollectMode? then seen' else []) && (mode.StrictMode? ==> seen' == [])
  {
    hide Progress, Tokens, Lenient, Unbound, Strict;
    ended, r, out', names', next, seen' := false, Ok(""), out, names, |input|, seen;
    var tail := input[i + 2..];
    match Find(tail, Closer(double))
    case None =>
      UnclosedAt(input, ctx, i, double, out, seen);
      ended, r := true, if mode.StrictMode? then Err(Malformed) else Ok(out + input[i..]);
    case Some(e) =>
      var t := MarkedToken(double, tail[..e]);
      next := i + 2 + e + |Closer(double)|;
      StepAt(input, ctx, i, double, e, out, seen);
      seen' := seen + MissingOf(t, ctx);
      out' := out + TextOf(t, ctx);
      if ValueOf(t, ctx).None? {
        if mode.StrictMode? {
          ended, r := true, Err(UnknownVar(NameOf(t)));
        } else if mode.CollectMode? {
          names' := names + [NameOf(t)];
        }
      }
  }

  /** The renderer: one scan over the input that copies literal runs and substitutes tokens. */
  method RenderInner(input: string, ctx: Context, mode: Mode)
    returns (r: Result<string, TemplateError>, names: seq<string>)
    ensures r == Outcome(mode, Tokens(input), ctx)
    ensures names == if mode.CollectMode? then Unbound(Tokens(input), ctx) else []
  {
    hide Tokens, Lenient, Unbound, Strict;
    var out := "";
    ghost var seen: seq<string> := [];
    names := [];
    var i, litStart := 0, 0;
    assert input[0..] == input;
    while i < |input|
      invariant 0 <= litStart <= i <= |input|
      invariant Progress(input, ctx, out + input[litStart..i], seen, input[i..])
      invariant names == if mode.CollectMode? then seen else []
      invariant mode.StrictMode? ==> seen == []
      decreases |input| - i
    {
      var marker := MarkerAt(input, i);
      if marker.Some? {
        var ended;
        ended, r, out, names, i, seen := Substitute(input, ctx, mode, i, marker.value, out + input[litStart..i],
                                                    names, seen);
        if ended {
          return;
        }
        litStart := i;
        assert out + input[litStart..i] == out;
      } else {
        LiteralStep(input, ctx, out, seen, litStart, i);
        i := i + 1;
      }
    }
    Finish(input, ctx, out + input[litStart..i], seen, input[i..]);
    assert input[litStart..] == input[litStart..i] && out + input[litStart..i] + "" == out + input[litStart..i];
    return Ok(out + input[litStart..]), names;
  }

  lemma LiteralStep(input: string, ctx: Context, out: string, seen: seq<string>, litStart: nat, i: nat)
    requires litStart <= i < |input| && MarkerAt(input, i).None?
    requires Progress(input, ctx, out + input[litStart..i], seen, input[i..])
    ensures Progress(input, ctx, out + input[litStart..i + 1], seen, input[i + 1..])
  {
    LiteralAt(input, i);
    Step(input, ctx, out + input[litStart..i], seen, input[i..], Literal(input[i]), input[i + 1..]);
    assert out + input[litStart..i] + [input[i]] == out + input[litStart..i + 1];
    assert seen + [] == seen;
  }

  /** Whether an opening marker stands at position `i`, and if so whether it is a double brace. */
  function MarkerAt(input: string, i: nat): (r: Option<bool>)
    requires i < |input|
    ensures r == Some(true) <==> "{{" <= input[i..]
    ensures r == Some(false) <==> "${" <= input[i..]
  {
    if i + 1 < |input| && input[i] == '{' && input[i + 1] == '{' then Some(true)
    else if i + 1 < |input| && input[i] == '$' && input[i + 1] == '{' then Some(false)
    else None
  }

  lemma DropDrop(s: string, i: nat, k: nat)
    requires i + k <= |s|
    ensures s[i..][k..] == s[i + k..]
  {
  }

  predicate Opens(s: string, double: bool) {
    if double then "{{" <= s else "${" <= s
  }

  function Closer(double: bool): string {
    if double then "}}" else "}"
  }

  function MarkedToken(double: bool, inner: string): Token {
    if double then Flow(inner) else System(inner)
  }

  lemma NoCloser(s: string, double: bool)
    requires Opens(s, double) && Find(s[2..], Closer(double)).None?
    ensures Tokens(s) == [Unclosed(s)]
  {
    assert !double ==> s[0] == '$';
  }

  lemma TokenFirstIn(s: string, double: bool, e: nat)
    requires Opens(s, double) && Find(s[2..], Closer(double)) == Some(e)
    ensures Tokens(s) == [MarkedToken(double, s[2..][..e])] + Tokens(s[2..][e + |Closer(double)|..])
  {
    hide Tokens, Find;
    TokensStep(s);
    assert !double ==> s[0] == '$';
  }

  lemma LiteralAt(input: string, i: nat)
    requires i < |input| && MarkerAt(input, i).None?
    ensures Tokens(input[i..]) == [Literal(input[i])] + Tokens(input[i + 1..])
  {
    assert input[i..][1..] == input[i + 1..];
  }

  lemma VuIdToken()
    ensures Tokens("${vu_id}") == [System("vu_id")] && SystemName("vu_id") == "vu_id"
  {
    hide Tokens, Find, SystemName;
    var s, t := "${vu_id}", "vu_id}";
    assert s[2..] == t;
    FindBrace(t);
    TokenFirstIn(s, false, 5);
    assert t[..5] == "vu_id" && t[6..] == "";
    NothingLeft(t[6..]);
    NoDefault();
  }

  lemma FindBrace(t: string)
    requires |t| == 6 && t[5] == '}' && forall j :: 0 <= j < 5 ==> t[j] != '}'
    ensures Find(t, "}") == Some(5)
  {
    hide Find;
    FindIsFirst(t, "}");
    assert t[5..] == "}" && forall j :: 0 <= j < 5 ==> t[j..][0] == t[j];
  }

  lemma NothingLeft(s: string)
    requires s == ""
    ensures Tokens(s) == []
  {
  }

  lemma NoDefault()
    ensures SystemName("vu_id") == "vu_id"
  {
    FindIsFirst("vu_id", ":-");
    assert Trim("vu_id") == "vu_id";
  }
}
