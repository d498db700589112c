/** The allowlist of JSONPath expressions that are safe to evaluate unattended: its grammar, the
    hand-written recogniser, and their agreement. */
module JsonPaths {
  import opened Options
  import opened Text

  /** One character of a quoted name: itself, or any character after a backslash. */
  datatype QuotedChar = Plain(c: char) | Escape(c: char)

  datatype Bracket = AnyChild | Quoted(quote: char, content: seq<QuotedChar>) | Index(negative: bool, digits: string)

  datatype Body = Name(name: string) | Wild | InBrackets(bracket: Bracket)

  /** A child segment, or with `descend` the segment after `..`. */
  datatype Segment = Segment(descend: bool, body: Body)

  // ---------------------------------------------------------------------------------------
  // The grammar

  predicate IsNameFirst(c: char) {
    'a' <= c <= 'z' || 'A' <= c <= 'Z' || c == '_' || c >= '\U{80}'
  }

  predicate IsNameChar(c: char) {
    IsNameFirst(c) || IsDigit(c)
  }

  predicate IsName(s: string) {
    s != "" && IsNameFirst(s[0]) && forall i :: 0 <= i < |s| ==> IsNameChar(s[i])
  }

  predicate IsQuote(c: char) {
    c == '\'' || c == '"'
  }

  predicate ValidQuoted(quote: char, content: seq<QuotedChar>) {
    forall i :: 0 <= i < |content| ==> content[i].Escape? || (content[i].c != quote && content[i].c != '\\')
  }

  predicate ValidBracket(b: Bracket) {
    match b
    case AnyChild => true
    case Quoted(quote, content) => IsQuote(quote) && ValidQuoted(quote, content)
    case Index(_, digits) => digits != "" && forall i :: 0 <= i < |digits| ==> IsDigit(digits[i])
  }

  predicate ValidSegment(seg: Segment) {
    match seg.body
    case Name(name) => IsName(name)
    case Wild => true
    case InBrackets(b) => ValidBracket(b)
  }

  function Descents(segs: seq<Segment>): nat {
    if segs == [] then 0 else (if segs[0].descend then 1 else 0) + Descents(segs[1..])
  }

  /** What the grammar derives: valid segments, with at most one descent in the whole path. */
  predicate ValidPath(segs: seq<Segment>) {
    (forall i :: 0 <= i < |segs| ==> ValidSegment(segs[i])) && Descents(segs) <= 1
  }

  function PrintQuoted(content: seq<QuotedChar>): string {
    if content == [] then ""
    else (if content[0].Escape? then ['\\', content[0].c] else [content[0].c]) + PrintQuoted(content[1..])
  }

  function PrintBracket(b: Bracket): string {
    match b
    case AnyChild => "*"
    case Quoted(quote, content) => [quote] + PrintQuoted(content) + [quote]
    case Index(negative, digits) => (if negative then "-" else "") + digits
  }

  function PrintBody(body: Body): string {
    match body
    case Name(name) => name
    case Wild => "*"
    case InBrackets(b) => "[" + PrintBracket(b) + "]"
  }

  function PrintSegment(seg: Segment): string {
    (if seg.descend then ".." else if seg.body.InBrackets? then "" else ".") + PrintBody(seg.body)
  }

  function PrintSegments(segs: seq<Segment>): string {
    if segs == [] then "" else PrintSegment(segs[0]) + PrintSegments(segs[1..])
  }

  /** The language of the allowlist. */
  ghost predicate InGrammar(path: string) {
    exists segs :: ValidPath(segs) && path == "$" + PrintSegments(segs)
  }

  // ---------------------------------------------------------------------------------------
  // Reading the grammar left to right

  datatype Read<T> = Read(item: T, rest: string) | Reject

  function NameLength(s: string): (n: nat)
    ensures n <= |s|
  {
    if s == "" || !IsNameChar(s[0]) then 0 else 1 + NameLength(s[1..])
  }

  function DigitsLength(s: string): (n: nat)
    ensures n <= |s|
  {
    if s == "" || !IsDigit(s[0]) then 0 else 1 + DigitsLength(s[1..])
  }

  function ReadName(s: string): Read<Body> {
    if s == "" || !IsNameFirst(s[0]) then Reject
    else Read(Name(s[..NameLength(s)]), s[NameLength(s)..])
  }

  /** Reads up to and including the closing quote. */
  function ReadQuoted(quote: char, s: string): Read<seq<QuotedChar>> {
    if s == "" then Reject
    else if s[0] == '\\' then
      if |s| == 1 then Reject
      else match ReadQuoted(quote, s[2..])
           case Read(content, rest) => Read([Escape(s[1])] + content, rest)
           case Reject => Reject
    else if s[0] == quote then Read([], s[1..])
    else match ReadQuoted(quote, s[1..])
         case Read(content, rest) => Read([Plain(s[0])] + content, rest)
         case Reject => Reject
  }

  function ReadDigits(negative: bool, s: string): Read<Bracket> {
    var n := DigitsLength(s);
    if n == 0 then Reject else Read(Index(negative, s[..n]), s[n..])
  }

  /** Reads what stands between the brackets. */
  function ReadSelector(s: string): Read<Bracket> {
    if s == "" then Reject
    else if s[0] == '*' then Read(AnyChild, s[1..])
    else if IsQuote(s[0]) then
      match ReadQuoted(s[0], s[1..])
      case Read(content, rest) => Read(Quoted(s[0], content), rest)
      case Reject => Reject
    else if s[0] == '-' then ReadDigits(true, s[1..])
    else ReadDigits(false, s)
  }

  /** Reads what follows an opening bracket, through the closing one. */
  function ReadBracket(s: string): Read<Body> {
    match ReadSelector(s)
    case Read(b, rest) => if rest != "" && rest[0] == ']' then Read(InBrackets(b), rest[1..]) else Reject
    case Reject => Reject
  }

  function ReadBody(s: string, brackets: bool): Read<Body> {
    if s == "" then Reject
    else if s[0] == '*' then Read(Wild, s[1..])
    else if s[0] == '[' && brackets then ReadBracket(s[1..])
    else ReadName(s)
  }

  function ReadSegment(s: string): Read<Segment>
    requires s != ""
  {
    var descend := |s| >= 2 && s[0] == '.' && s[1] == '.';
    var body := if descend then ReadBody(s[2..], true)
                else if s[0] == '.' then ReadBody(s[1..], false)
                else if s[0] == '[' then ReadBracket(s[1..])
                else Reject;
    match body
    case Read(b, rest) => Read(Segment(descend, b), rest)
    case Reject => Reject
  }

  /** The segments of a path after the `$`; none if the text is outside the grammar. */
  function Parse(s: string, descended: bool): Option<seq<Segment>>
    decreases |s|
  {
    if s == "" then Some([])
    else match ReadSegment(s)
         case Reject => None
         case Read(seg, rest) =>
           ReadShortens(s);
           if seg.descend && descended then None
           else match Parse(rest, descended || seg.descend)
                case None => None
                case Some(segs) => Some([seg] + segs)
  }

  // ---------------------------------------------------------------------------------------
  // What is read is what was written

  lemma {:induction false} NameLengthSpan(s: string)
    ensures forall i :: 0 <= i < NameLength(s) ==> IsNameChar(s[i])
    ensures NameLength(s) < |s| ==> !IsNameChar(s[NameLength(s)])
  {
    if s != "" && IsNameChar(s[0]) {
      NameLengthSpan(s[1..]);
      forall i | 0 <= i < NameLength(s)
        ensures IsNameChar(s[i])
      {
        assert i > 0 ==> s[i] == s[1..][i - 1];
      }
    }
  }

  lemma {:induction false} DigitsLengthSpan(s: string)
    ensures forall i :: 0 <= i < DigitsLength(s) ==> IsDigit(s[i])
    ensures DigitsLength(s) < |s| ==> !IsDigit(s[DigitsLength(s)])
  {
    if s != "" && IsDigit(s[0]) {
      DigitsLengthSpan(s[1..]);
      forall i | 0 <= i < DigitsLength(s)
        ensures IsDigit(s[i])
      {
        assert i > 0 ==> s[i] == s[1..][i - 1];
      }
    }
  }

  lemma {:induction false} QuotedSound(quote: char, s: string)
    requires ReadQuoted(quote, s).Read?
    ensures var r := ReadQuoted(quote, s);
            ValidQuoted(quote, r.item) && s == PrintQuoted(r.item) + ([quote] + r.rest) && |r.rest| < |s|
    decreases |s|
  {
    var r := ReadQuoted(quote, s);
    if s[0] == '\\' {
      QuotedSound(quote, s[2..]);
      QuotedStep(Escape(s[1]), ReadQuoted(quote, s[2..]).item);
      assert s == [s[0], s[1]] + s[2..];
      Assoc([s[0], s[1]], PrintQuoted(r.item[1..]), [quote] + r.rest);
    } else if s[0] == quote {
      assert s == [] + ([quote] + s[1..]);
    } else {
      QuotedSound(quote, s[1..]);
      QuotedStep(Plain(s[0]), ReadQuoted(quote, s[1..]).item);
      assert s == [s[0]] + s[1..];
      Assoc([s[0]], PrintQuoted(r.item[1..]), [quote] + r.rest);
    }
  }

  lemma QuotedStep(c: QuotedChar, content: seq<QuotedChar>)
    ensures ([c] + content)[1..] == content
    ensures PrintQuoted([c] + content) == (if c.Escape? then ['\\', c.c] else [c.c]) + PrintQuoted(content)
  {
  }

  lemma DigitsSound(negative: bool, s: string)
    requires ReadDigits(negative, s).Read?
    ensures var r := ReadDigits(negative, s);
            && r.item.Index? && r.item.negative == negative && ValidBracket(r.item)
            && s == r.item.digits + r.rest && |r.rest| < |s|
  {
    DigitsLengthSpan(s);
  }

  lemma QuotedSelectorSound(s: string)
    requires s != "" && IsQuote(s[0]) && ReadQuoted(s[0], s[1..]).Read?
    ensures var r := ReadSelector(s);
            r.Read? && ValidBracket(r.item) && s == PrintBracket(r.item) + r.rest && |r.rest| < |s|
  {
    hide ReadQuoted, PrintQuoted;
    var t := ReadQuoted(s[0], s[1..]);
    QuotedSound(s[0], s[1..]);
    var q, body := [s[0]], PrintQuoted(t.item);
    assert s == q + s[1..];
    Assoc(q, body, q + t.rest);
    Assoc(q + body, q, t.rest);
  }

  lemma SelectorSound(s: string)
    requires ReadSelector(s).Read?
    ensures var r := ReadSelector(s);
            ValidBracket(r.item) && s == PrintBracket(r.item) + r.rest && |r.rest| < |s|
  {
    hide ReadQuoted, ReadDigits;
    var r := ReadSelector(s);
    assert s == [s[0]] + s[1..];
    if s[0] == '*' {
    } else if IsQuote(s[0]) {
      QuotedSelectorSound(s);
    } else if s[0] == '-' {
      DigitsSound(true, s[1..]);
      Assoc("-", r.item.digits, r.rest);
    } else {
      DigitsSound(false, s);
    }
  }

  lemma BracketSound(s: string)
    requires ReadBracket(s).Read?
    ensures var r := ReadBracket(s);
            && r.item.InBrackets? && ValidBracket(r.item.bracket)
            && "[" + s == PrintBody(r.item) + r.rest && |r.rest| < |s|
  {
    var r, t := ReadBracket(s), ReadSelector(s);
    SelectorSound(s);
    assert t.rest == "]" + r.rest;
    var body := PrintBracket(t.item);
    Assoc("[", body, "]" + r.rest);
    Assoc("[" + body, "]", r.rest);
  }

  lemma BodySound(s: string, brackets: bool)
    requires ReadBody(s, brackets).Read?
    ensures var r := ReadBody(s, brackets);
            && ValidSegment(Segment(true, r.item)) && s == PrintBody(r.item) + r.rest && |r.rest| < |s|
            && (r.item.InBrackets? ==> brackets)
  {
    assert s == [s[0]] + s[1..];
    if s[0] == '*' {
    } else if s[0] == '[' && brackets {
      BracketSound(s[1..]);
    } else {
      NameLengthSpan(s);
    }
  }

  lemma SegmentSound(s: string)
    requires s != "" && ReadSegment(s).Read?
    ensures var r := ReadSegment(s);
            ValidSegment(r.item) && s == PrintSegment(r.item) + r.rest && |r.rest| < |s|
  {
    var r := ReadSegment(s);
    if r.item.descend {
      BodySound(s[2..], true);
      assert s == ".." + s[2..];
      Assoc("..", PrintBody(r.item.body), r.rest);
    } else if s[0] == '.' {
      BodySound(s[1..], false);
      assert s == "." + s[1..];
      Assoc(".", PrintBody(r.item.body), r.rest);
    } else {
      BracketSound(s[1..]);
      assert s == "[" + s[1..];
      assert PrintSegment(r.item) == PrintBody(r.item.body);
    }
  }

  lemma ReadShortens(s: string)
    requires s != ""
    ensures ReadSegment(s).Read? ==> |ReadSegment(s).rest| < |s|
  {
    if ReadSegment(s).Read? {
      SegmentSound(s);
    }
  }

  /** Every accepted text is the print of a derivation. */
  lemma {:induction false} ParseSound(s: string, descended: bool)
    ensures Parse(s, descended).Some? ==>
              var segs := Parse(s, descended).value;
              && s == PrintSegments(segs)
              && (forall i :: 0 <= i < |segs| ==> ValidSegment(segs[i]))
              && Descents(segs) <= if descended then 0 else 1
    decreases |s|
  {
    if s != "" && Parse(s, descended).Some? {
      var r := ReadSegment(s);
      SegmentSound(s);
      ParseSound(r.rest, descended || r.item.descend);
      var segs := Parse(s, descended).value;
      assert segs[0] == r.item && segs[1..] == Parse(r.rest, descended || r.item.descend).value;
    }
  }

  // ---------------------------------------------------------------------------------------
  // What is written is what is read

  lemma {:induction false} NameLengthOf(name: string, rest: string)
    requires forall i :: 0 <= i < |name| ==> IsNameChar(name[i])
    requires rest == "" || !IsNameChar(rest[0])
    ensures NameLength(name + rest) == |name|
  {
    if name == "" {
      assert name + rest == rest;
    } else {
      assert (name + rest)[1..] == name[1..] + rest;
      NameLengthOf(name[1..], rest);
    }
  }

  lemma {:induction false} DigitsLengthOf(digits: string, rest: string)
    requires forall i :: 0 <= i < |digits| ==> IsDigit(digits[i])
    requires rest == "" || !IsDigit(rest[0])
    ensures DigitsLength(digits + rest) == |digits|
  {
    if digits == "" {
      assert digits + rest == rest;
    } else {
      assert (digits + rest)[1..] == digits[1..] + rest;
      DigitsLengthOf(digits[1..], rest);
    }
  }

  lemma {:induction false} QuotedComplete(quote: char, content: seq<QuotedChar>, rest: string)
    requires IsQuote(quote) && ValidQuoted(quote, content)
    ensures ReadQuoted(quote, PrintQuoted(content) + [quote] + rest) == Read(content, rest)
    decreases |content|
  {
    if content == [] {
      var s := [] + [quote] + rest;
      assert s[0] == quote && s[1..] == rest;
    } else {
      hide ReadQuoted;
      var c, after := content[0], content[1..];
      var body, tail := PrintQuoted(after), PrintQuoted(after) + [quote] + rest;
      QuotedComplete(quote, after, rest);
      var head := if c.Escape? then ['\\', c.c] else [c.c];
      Assoc(head, body, [quote]);
      Assoc(head, body + [quote], rest);
      ReadQuotedOne(quote, c, tail);
      assert content == [c] + after;
    }
  }

  lemma ReadQuotedOne(quote: char, c: QuotedChar, tail: string)
    requires IsQuote(quote) && ValidQuoted(quote, [c]) && ReadQuoted(quote, tail).Read?
    ensures ReadQuoted(quote, (if c.Escape? then ['\\', c.c] else [c.c]) + tail)
         == Read([c] + ReadQuoted(quote, tail).item, ReadQuoted(quote, tail).rest)
  {
    assert [c][0] == c;
    if c.Escape? {
      assert (['\\', c.c] + tail)[2..] == tail;
    } else {
      assert ([c.c] + tail)[1..] == tail;
    }
  }

  lemma DigitsComplete(negative: bool, digits: string, rest: string)
    requires ValidBracket(Index(negative, digits)) && (rest == "" || !IsDigit(rest[0]))
    ensures ReadDigits(negative, digits + rest) == Read(Index(negative, digits), rest)
  {
    DigitsLengthOf(digits, rest);
    var t := digits + rest;
    assert t[..|digits|] == digits && t[|digits|..] == rest;
  }

  lemma IndexSelectorComplete(negative: bool, digits: string, rest: string)
    requires ValidBracket(Index(negative, digits)) && rest != "" && rest[0] == ']'
    ensures ReadSelector(PrintBracket(Index(negative, digits)) + rest) == Read(Index(negative, digits), rest)
  {
    hide ReadDigits, ReadQuoted;
    DigitsComplete(negative, digits, rest);
    var t := digits + rest;
    if negative {
      Assoc("-", digits, rest);
      assert ("-" + t)[1..] == t;
    } else {
      assert "" + digits == digits;
      assert t[0] == digits[0];
    }
  }

  lemma SelectorComplete(b: Bracket, rest: string)
    requires ValidBracket(b) && rest != "" && rest[0] == ']'
    ensures ReadSelector(PrintBracket(b) + rest) == Read(b, rest)
  {
    hide ReadDigits, ReadQuoted;
    match b
    case AnyChild => assert ("*" + rest)[1..] == rest;
    case Quoted(quote, content) => QuotedSelectorComplete(quote, content, rest);
    case Index(negative, digits) => IndexSelectorComplete(negative, digits, rest);
  }

  lemma QuotedSelectorComplete(quote: char, content: seq<QuotedChar>, rest: string)
    requires IsQuote(quote) && ValidQuoted(quote, content)
    ensures ReadSelector(PrintBracket(Quoted(quote, content)) + rest) == Read(Quoted(quote, content), rest)
  {
    QuotedComplete(quote, content, rest);
    var body := PrintQuoted(content) + [quote] + rest;
    assert PrintBracket(Quoted(quote, content)) + rest == [quote] + body;
    assert ([quote] + body)[1..] == body;
  }

  lemma BracketComplete(b: Bracket, rest: string)
    requires ValidBracket(b)
    ensures ReadBracket(PrintBracket(b) + ("]" + rest)) == Read(InBrackets(b), rest)
  {
    SelectorComplete(b, "]" + rest);
    assert ("]" + rest)[1..] == rest;
  }

  lemma BracketBody(b: Bracket, rest: string)
    ensures PrintBody(InBrackets(b)) + rest == "[" + (PrintBracket(b) + ("]" + rest))
    ensures (PrintBody(InBrackets(b)) + rest)[1..] == PrintBracket(b) + ("]" + rest)
  {
    Assoc("[" + PrintBracket(b), "]", rest);
    Assoc("[", PrintBracket(b), "]" + rest);
    var t := PrintBracket(b) + ("]" + rest);
    assert ("[" + t)[1..] == t;
  }

  /** What follows a segment never continues a name. */
  predicate EndsName(rest: string) {
    rest == "" || !IsNameChar(rest[0])
  }

  lemma NameComplete(name: string, rest: string)
    requires IsName(name) && EndsName(rest)
    ensures ReadName(name + rest) == Read(Name(name), rest)
    ensures (name + rest)[0] == name[0]
  {
    NameLengthOf(name, rest);
    var t := name + rest;
    assert t[..|name|] == name && t[|name|..] == rest;
  }

  lemma BodyComplete(body: Body, rest: string)
    requires ValidSegment(Segment(true, body)) && EndsName(rest)
    ensures ReadBody(PrintBody(body) + rest, true) == Read(body, rest)
    ensures !body.InBrackets? ==> ReadBody(PrintBody(body) + rest, false) == Read(body, rest)
  {
    match body
    case Name(name) => NameComplete(name, rest);
    case Wild => assert ("*" + rest)[1..] == rest;
    case InBrackets(b) =>
      BracketComplete(b, rest);
      BracketBody(b, rest);
  }

  lemma SegmentComplete(seg: Segment, rest: string)
    requires ValidSegment(seg) && EndsName(rest)
    ensures PrintSegment(seg) + rest != ""
    ensures ReadSegment(PrintSegment(seg) + rest) == Read(seg, rest)
  {
    var body := PrintBody(seg.body) + rest;
    BodyComplete(seg.body, rest);
    if seg.descend {
      Assoc("..", PrintBody(seg.body), rest);
      assert (".." + body)[2..] == body;
    } else if seg.body.InBrackets? {
      BracketComplete(seg.body.bracket, rest);
      BracketBody(seg.body.bracket, rest);
      assert "" + PrintBody(seg.body) == PrintBody(seg.body);
      assert PrintSegment(seg) + rest == body;
    } else {
      Assoc(".", PrintBody(seg.body), rest);
      assert ("." + body)[1..] == body;
      assert body[0] == PrintBody(seg.body)[0];
      assert PrintBody(seg.body)[0] != '.';
    }
  }

  lemma PrintEndsName(segs: seq<Segment>)
    ensures EndsName(PrintSegments(segs))
  {
    if segs != [] {
      assert PrintSegment(segs[0])[0] == '.' || PrintSegment(segs[0])[0] == '[';
      assert PrintSegments(segs)[0] == PrintSegment(segs[0])[0];
    }
  }

  /** Every derivation is accepted, and read back as itself. */
  lemma {:induction false} ParseComplete(segs: seq<Segment>, descended: bool)
    requires forall i :: 0 <= i < |segs| ==> ValidSegment(segs[i])
    requires Descents(segs) <= if descended then 0 else 1
    ensures Parse(PrintSegments(segs), descended) == Some(segs)
    decreases |segs|
  {
    if segs != [] {
      var seg, rest := segs[0], PrintSegments(segs[1..]);
      PrintEndsName(segs[1..]);
      SegmentComplete(seg, rest);
      ParseComplete(segs[1..], descended || seg.descend);
      assert [seg] + segs[1..] == segs;
    }
  }

  // ---------------------------------------------------------------------------------------
  // The recogniser

  /** A peekable character stream. */
  class CharStream {
    const text: string
    var pos: nat

    ghost predicate Valid()
      reads this
    {
      pos <= |text|
    }

    /** What is still to come. */
    ghost function Rest(): string
      reads this
      requires Valid()
    {
      text[pos..]
    }

    constructor (text: string)
      ensures Valid() && this.text == text && Rest() == text
    {
      this.text, this.pos := text, 0;
    }

    function Peek(): (r: Option<char>)
      reads this
      requires Valid()
      ensures r == if Rest() == "" then None else Some(Rest()[0])
    {
      if pos == |text| then None else Some(text[pos])
    }

    method Next() returns (r: Option<char>)
      requires Valid()
      modifies this
      ensures Valid()
      ensures old(Rest()) == "" ==> r == None && Rest() == ""
      ensures old(Rest()) != "" ==> r == Some(old(Rest())[0]) && Rest() == old(Rest())[1..]
    {
      if pos == |text| {
        return None;
      }
      r := Some(text[pos]);
      pos := pos + 1;
    }

    /** A member name that starts with the character already taken. */
    method SimpleName(first: char) returns (ok: bool)
      requires Valid()
      modifies this
      ensures Valid()
      ensures var r := ReadName([first] + old(Rest()));
              ok == r.Read? && (ok ==> Rest() == r.rest)
    {
      ghost var before := Rest();
      var s := [first] + before;
      if !IsNameFirst(first) {
        return false;
      }
      assert s[1..] == before;
      var c := Peek();
      while c.Some? && IsNameChar(c.value)
        invariant Valid() && c == Peek()
        invariant |Rest()| <= |before| && Rest() == before[|before| - |Rest()|..]
        invariant NameLength(before) == |before| - |Rest()| + NameLength(Rest())
        decreases |Rest()|
      {
        var _ := Next();
        c := Peek();
      }
      assert NameLength(s) == 1 + NameLength(before);
      return true;
    }

    /** A bracket's content after its opening bracket, through the closing one. */
    method SimpleBracket() returns (ok: bool)
      requires Valid()
      modifies this
      ensures Valid()
      ensures var r := ReadBracket(old(Rest()));
              ok == r.Read? && (ok ==> Rest() == r.rest)
    {
      ghost var before := Rest();
      var c := Next();
      match c
      case None => return false;
      case Some(c) =>
        if c == '*' {
        } else if IsQuote(c) {
          var closed := SkipQuoted(c);
          if !closed {
            return false;
          }
        } else if c == '-' || IsDigit(c) {
          var digits := SkipDigits();
          assert c != '-' ==> DigitsLength(before) == 1 + digits;
          if c == '-' && digits == 0 {
            return false;
          }
        } else {
          return false;
        }
      var close := Next();
      return close == Some(']');
    }

    /** Skips and counts decimal digits. */
    method SkipDigits() returns (digits: nat)
      requires Valid()
      modifies this
      ensures Valid()
      ensures digits == DigitsLength(old(Rest())) && Rest() == old(Rest())[digits..]
    {
      digits := 0;
      var c := Peek();
      while c.Some? && IsDigit(c.value)
        invariant Valid() && c == Peek()
        invariant digits <= |old(Rest())| && Rest() == old(Rest())[digits..]
        invariant DigitsLength(old(Rest())) == digits + DigitsLength(Rest())
        decreases |Rest()|
      {
        var _ := Next();
        digits := digits + 1;
        c := Peek();
      }
    }

    /** Skips a quoted name through its closing quote. */
    method SkipQuoted(quote: char) returns (closed: bool)
      requires Valid() && IsQuote(quote)
      modifies this
      ensures Valid()
      ensures var r := ReadQuoted(quote, old(Rest()));
              closed == r.Read? && (closed ==> Rest() == r.rest)
    {
      while true
        invariant Valid()
        invariant ReadQuoted(quote, old(Rest())).Read? <==> ReadQuoted(quote, Rest()).Read?
        invariant ReadQuoted(quote, Rest()).Read? ==>
                    ReadQuoted(quote, old(Rest())).rest == ReadQuoted(quote, Rest()).rest
        decreases |Rest()|
      {
        ghost var here := Rest();
        var c := Next();
        match c
        case None => return false;
        case Some(c) =>
          if c == '\\' {
            var escaped := Next();
            if escaped.None? {
              return false;
            }
            assert here[1..][1..] == here[2..];
          } else if c == quote {
            return true;
          }
      }
    }
  }

  /** One segment whose first character `c` has been taken; a second descent is refused. */
  method SimpleSegment(it: CharStream, c: char, descended: bool) returns (ok: bool, descended': bool)
    requires it.Valid()
    modifies it
    ensures it.Valid()
    ensures var r := ReadSegment([c] + old(it.Rest()));
            && (ok <==> r.Read? && !(r.item.descend && descended))
            && (ok ==> it.Rest() == r.rest && descended' == (descended || r.item.descend))
  {
    ghost var s := [c] + it.Rest();
    assert s[1..] == it.Rest();
    ok, descended' := false, descended;
    if c == '.' && it.Peek() == Some('.') {
      var _ := it.Next();
      assert s[2..] == it.Rest();
      if descended {
        return;
      }
      descended' := true;
      ok := SimpleBody(it, true);
    } else if c == '.' {
      ok := SimpleBody(it, false);
    } else if c == '[' {
      ok := it.SimpleBracket();
    }
  }

  /** What follows the dots: a wildcard, a name, or after `..` also a bracket. */
  method SimpleBody(it: CharStream, brackets: bool) returns (ok: bool)
    requires it.Valid()
    modifies it
    ensures it.Valid()
    ensures var r := ReadBody(old(it.Rest()), brackets);
            (ok <==> r.Read?) && (ok ==> it.Rest() == r.rest)
  {
    ghost var t := it.Rest();
    var d := it.Next();
    match d
    case None => return false;
    case Some(d) =>
      if d == '*' {
        return true;
      } else if d == '[' && brackets {
        ok := it.SimpleBracket();
      } else {
        assert [d] + it.Rest() == t;
        ok := it.SimpleName(d);
      }
  }

  /** The segments after the `$`, until the text ends. */
  method SimpleSegments(it: CharStream) returns (ok: bool)
    requires it.Valid()
    modifies it
    ensures it.Valid()
    ensures ok <==> Parse(old(it.Rest()), false).Some?
  {
    hide Parse, ReadSegment;
    ghost var s := it.Rest();
    var descended := false;
    var c := it.Next();
    while c.Some?
      invariant it.Valid()
      invariant if c.None? then s == "" else s == [c.value] + it.Rest()
      invariant Parse(old(it.Rest()), false).Some? <==> Parse(s, descended).Some?
      decreases |s|
    {
      ParseStep(s, descended);
      var ok;
      ok, descended := SimpleSegment(it, c.value, descended);
      if !ok {
        return false;
      }
      s := it.Rest();
      c := it.Next();
    }
    ParseEnd(descended);
    return true;
  }

  /** The recogniser accepts exactly the texts the grammar derives. */
  method JsonPathIsSimple(path: string) returns (ok: bool)
    ensures ok <==> InGrammar(path)
  {
    GrammarIsParse(path);
    var it := new CharStream(path);
    var start := it.Next();
    if start != Some('$') {
      return false;
    }
    ok := SimpleSegments(it);
  }

  lemma ParseEnd(descended: bool)
    ensures Parse("", descended) == Some([])
  {
  }

  lemma ParseStep(s: string, descended: bool)
    requires s != ""
    ensures var r := ReadSegment(s);
            && (r.Read? ==> |r.rest| < |s|)
            && (Parse(s, descended).Some?
                <==> r.Read? && !(r.item.descend && descended) && Parse(r.rest, descended || r.item.descend).Some?)
  {
    ReadShortens(s);
  }

  lemma GrammarIsParse(path: string)
    ensures InGrammar(path) <==> path != "" && path[0] == '$' && Parse(path[1..], false).Some?
  {
    if path != "" && path[0] == '$' && Parse(path[1..], false).Some? {
      ParseSound(path[1..], false);
      assert path == "$" + path[1..];
    }
    if segs :| ValidPath(segs) && path == "$" + PrintSegments(segs) {
      ParseComplete(segs, false);
      assert path[1..] == PrintSegments(segs);
    }
  }
}
