/** The position list of a pick generator, and the generator itself. */
module Positions {
  import opened Options
  import opened Text

  const MaxLength: nat := 1000
  const MaxBytes: nat := 4096

  predicate IsAsciiSpace(c: char) {
    c == ' ' || c == '\t' || c == '\n' || c == '\U{C}' || c == '\r'
  }

  function TrimAsciiStart(s: string): string {
    if s != "" && IsAsciiSpace(s[0]) then TrimAsciiStart(s[1..]) else s
  }

  function TrimAsciiEnd(s: string): string {
    if s != "" && IsAsciiSpace(s[|s| - 1]) then TrimAsciiEnd(s[..|s| - 1]) else s
  }

  function TrimAscii(s: string): string {
    TrimAsciiEnd(TrimAsciiStart(s))
  }

  /** The length limit counts UTF-8 bytes. */
  function Utf8Length(s: string): nat {
    if s == "" then 0
    else Utf8Length(s[..|s| - 1])
         + var c := s[|s| - 1] as int; if c < 0x80 then 1 else if c < 0x800 then 2 else if c < 0x1_0000 then 3 else 4
  }

  /** One to four decimal digits, with white space around them. */
  function ParseNumber(raw: string): Option<nat> {
    var s := TrimAscii(raw);
    if s == "" || |s| > 4 || !AllDigits(s) then None else Some(DecimalValue(s))
  }

  /** The pieces between commas; a text without a comma is one piece. */
  function Split(s: string): (r: seq<string>)
    ensures |r| > 0
  {
    if s == "" then [""]
    else
      var rest := Split(s[1..]);
      if s[0] == ',' then [""] + rest else [[s[0]] + rest[0]] + rest[1..]
  }

  function IndexOfDash(s: string): (r: Option<nat>)
    ensures r.Some? ==> r.value < |s|
  {
    if s == "" then None
    else if s[0] == '-' then Some(0)
    else match IndexOfDash(s[1..])
         case None => None
         case Some(k) => Some(k + 1)
  }

  datatype Range = Range(lo: nat, hi: nat)

  datatype Problem = Unreadable | Backwards | OutOfRange

  datatype PositionsError = BadLength | TooLong | BadItem(number: nat, problem: Problem)

  function ParseItem(raw: string, length: nat): Result<Range, Problem> {
    var item := TrimAscii(raw);
    var (a, b) := match IndexOfDash(item)
                  case Some(k) => (ParseNumber(item[..k]), ParseNumber(item[k + 1..]))
                  case None => (ParseNumber(item), ParseNumber(item));
    if a.None? || b.None? then Err(Unreadable)
    else if a.value > b.value then Err(Backwards)
    else if a.value < 1 || b.value > length then Err(OutOfRange)
    else Ok(Range(a.value, b.value))
  }

  /** Some item that can be read covers the position. */
  predicate Covers(items: seq<string>, length: nat, p: nat) {
    exists i :: 0 <= i < |items| && var r := ParseItem(items[i], length); r.Ok? && r.value.lo <= p <= r.value.hi
  }

  function FirstBad(items: seq<string>, length: nat): (k: nat)
    ensures k <= |items|
    ensures k < |items| ==> ParseItem(items[k], length).Err?
    ensures forall i :: 0 <= i < k ==> ParseItem(items[i], length).Ok?
  {
    if items == [] || ParseItem(items[0], length).Err? then 0
    else
      var k := FirstBad(items[1..], length);
      assert forall i :: 1 <= i < 1 + k ==> items[i] == items[1..][i - 1];
      1 + k
  }

  /** The covered positions up to `n`, in order. */
  function Enumerate(items: seq<string>, length: nat, n: nat): seq<nat> {
    if n == 0 then [] else Enumerate(items, length, n - 1) + if Covers(items, length, n) then [n] else []
  }

  /** The positions a text denotes; the first item that is not in order is the error. */
  function Denoted(text: string, length: nat): Result<seq<nat>, PositionsError> {
    if length < 1 || length > MaxLength then Err(BadLength)
    else if Utf8Length(text) > MaxBytes then Err(TooLong)
    else if TrimAscii(text) == "" then Ok([])
    else
      var items := Split(text);
      var k := FirstBad(items, length);
      if k < |items| then Err(BadItem(k + 1, ParseItem(items[k], length).error))
          else Ok(Enumerate(items, length, length))
  }

  /** Marks the positions of every item in an array and collects the marked ones. */
  method ParsePositions(text: string, length: nat) returns (r: Result<seq<nat>, PositionsError>)
    ensures r == Denoted(text, length)
  {
    hide ParseItem, Covers, Enumerate, TrimAscii, Utf8Length, Split, FirstBad;
    if length < 1 || length > MaxLength {
      return Err(BadLength);
    }
    if Utf8Length(text) > MaxBytes {
      return Err(TooLong);
    }
    if TrimAscii(text) == "" {
      return Ok([]);
    }
    var mark := new bool[length](_ => false);
    var bad := MarkItems(mark, Split(text), length);
    match bad
    case Some(e) => return Err(e);
    case None =>
      var found := Collect(mark, Split(text), length);
      return Ok(found);
  }

  /** Marks what the items cover, up to the first item that is not in order. */
  method MarkItems(mark: array<bool>, items: seq<string>, length: nat) returns (bad: Option<PositionsError>)
    requires mark.Length == length && forall p :: 0 <= p < length ==> !mark[p]
    modifies mark
    ensures var k := FirstBad(items, length);
            if k < |items| then bad == Some(BadItem(k + 1, ParseItem(items[k], length).error))
            else bad == None && Marked(mark, items, length)
  {
    hide ParseItem, Covers, FirstBad;
    NoItemCovers(length);
    for i := 0 to |items|
      invariant forall j :: 0 <= j < i ==> ParseItem(items[j], length).Ok?
      invariant Marked(mark, items[..i], length)
    {
      var item := ParseItem(items[i], length);
      if item.Err? {
        FirstBadAt(items, length, i);
        return Some(BadItem(i + 1, item.error));
      }
      ItemInRange(items[i], length);
      MarkRange(mark, item.value, items[..i], length);
      forall p: nat | 0 <= p < length
        ensures mark[p] <==> Covers(items[..i + 1], length, p + 1)
      {
        CoversOneMore(items, length, i, p + 1);
      }
    }
    assert items[..|items|] == items;
    FirstBadAt(items, length, |items|);
    return None;
  }

  lemma FirstBadAt(items: seq<string>, length: nat, i: nat)
    requires i <= |items| && forall j :: 0 <= j < i ==> ParseItem(items[j], length).Ok?
    requires i < |items| ==> ParseItem(items[i], length).Err?
    ensures FirstBad(items, length) == i
  {
  }

  lemma NoItemCovers(length: nat)
    ensures forall p: nat :: !Covers([], length, p)
  {
  }

  lemma ItemInRange(item: string, length: nat)
    ensures var r := ParseItem(item, length); r.Ok? ==> 1 <= r.value.lo <= r.value.hi <= length
  {
  }

  /** The marked positions, in order. */
  method Collect(mark: array<bool>, items: seq<string>, length: nat) returns (found: seq<nat>)
    requires Marked(mark, items, length)
    ensures found == Enumerate(items, length, length)
  {
    hide Covers;
    found := [];
    for p := 0 to length
      invariant found == Enumerate(items, length, p)
    {
      if mark[p] {
        found := found + [p + 1];
      } else {
        assert found + [] == found;
      }
    }
  }

  ghost predicate Marked(mark: array<bool>, items: seq<string>, length: nat)
    reads mark
  {
    mark.Length == length && forall p :: 0 <= p < length ==> (mark[p] <==> Covers(items, length, p + 1))
  }

  lemma CoversOneMore(items: seq<string>, length: nat, i: nat, p: nat)
    requires i < |items|
    ensures var r := ParseItem(items[i], length);
            Covers(items[..i + 1], length, p)
            <==> Covers(items[..i], length, p) || (r.Ok? && r.value.lo <= p <= r.value.hi)
  {
    hide ParseItem;
    var more, less := items[..i + 1], items[..i];
    assert forall j :: 0 <= j < i ==> more[j] == less[j];
    assert more[i] == items[i];
    if Covers(less, length, p) {
      var j :| 0 <= j < |less| && var r := ParseItem(less[j], length); r.Ok? && r.value.lo <= p <= r.value.hi;
      assert more[j] == less[j];
    }
  }

  method MarkRange(mark: array<bool>, r: Range, ghost before: seq<string>, length: nat)
    requires Marked(mark, before, length) && 1 <= r.lo <= r.hi <= length
    modifies mark
    ensures forall p :: 0 <= p < length ==> (mark[p] <==> Covers(before, length, p + 1) || r.lo <= p + 1 <= r.hi)
  {
    for p := r.lo to r.hi + 1
      invariant forall q :: 0 <= q < length ==> (mark[q] <==> Covers(before, length, q + 1) || r.lo <= q + 1 < p)
    {
      mark[p - 1] := true;
    }
  }

  predicate Increasing(c: seq<nat>) {
    forall i, j :: 0 <= i < j < |c| ==> c[i] < c[j]
  }

  lemma {:induction false} EnumerateIsUnion(items: seq<string>, length: nat, n: nat)
    ensures var c := Enumerate(items, length, n);
            Increasing(c) && forall p: nat :: p in c <==> 1 <= p <= n && Covers(items, length, p)
  {
    hide Covers;
    if n > 0 {
      EnumerateIsUnion(items, length, n - 1);
      var c := Enumerate(items, length, n - 1);
      assert forall i :: 0 <= i < |c| ==> c[i] in c;
    }
  }

  /** A readable text denotes, in strictly increasing order, exactly the union of the ranges it
      writes, all of them positions of the array; an error names the first item in trouble. */
  lemma DenotedIsUnion(text: string, length: nat)
    ensures var r, items := Denoted(text, length), Split(text);
            && (r.Ok? && TrimAscii(text) != "" ==>
                  && Increasing(r.value)
                  && forall p: nat :: p in r.value <==> Covers(items, length, p) && 1 <= p <= length)
            && (r.Ok? && TrimAscii(text) == "" ==> r.value == [])
            && (r.Ok? ==> Increasing(r.value) && forall i :: 0 <= i < |r.value| ==> 1 <= r.value[i] <= length)
            && (r == Err(BadLength) <==> length < 1 || length > MaxLength)
            && (r == Err(TooLong) <==> 1 <= length <= MaxLength && Utf8Length(text) > MaxBytes)
            && (r.Err? && r.error.BadItem? ==>
                  1 <= r.error.number <= |items| && ParseItem(items[r.error.number - 1], length) == Err(r.error.problem)
                  && forall i :: 0 <= i < r.error.number - 1 ==> ParseItem(items[i], length).Ok?)
  {
    hide ParseItem, Covers, Enumerate, TrimAscii;
    var r := Denoted(text, length);
    if r.Ok? && TrimAscii(text) != "" {
      EnumerateIsUnion(Split(text), length, length);
      assert forall i :: 0 <= i < |r.value| ==> r.value[i] in r.value;
    }
  }

  // ---------------------------------------------------------------------------------------
  // What a written list means

  predicate Blank(s: string) {
    forall i :: 0 <= i < |s| ==> IsAsciiSpace(s[i])
  }

  /** A position or a range of positions as written, with white space around its numbers. */
  datatype Entry =
    | Single(before: string, number: nat, after: string)
    | Span(before: string, lo: nat, afterLo: string, beforeHi: string, hi: nat, after: string)
  {
    predicate Spaced() {
      Blank(before) && Blank(after) && (Span? ==> Blank(afterLo) && Blank(beforeHi))
    }

    function First(): nat {
      if Single? then number else lo
    }

    function Last(): nat {
      if Single? then number else hi
    }

    predicate Covers(p: nat) {
      First() <= p <= Last()
    }

    predicate Fits(length: nat) {
      1 <= First() <= Last() <= length
    }

    function Written(): string {
      if Single? then before + Decimal(number) + after
      else (before + Decimal(lo) + afterLo) + "-" + (beforeHi + Decimal(hi) + after)
    }
  }

  function WrittenAll(entries: seq<Entry>): (r: seq<string>)
    ensures |r| == |entries| && forall i :: 0 <= i < |r| ==> r[i] == entries[i].Written()
  {
    if entries == [] then [] else [entries[0].Written()] + WrittenAll(entries[1..])
  }

  /** The items with commas between them. */
  function Join(items: seq<string>): string {
    if items == [] then "" else if |items| == 1 then items[0] else items[0] + ("," + Join(items[1..]))
  }

  lemma {:induction false} SplitAppend(a: string, s: string)
    requires ',' !in a
    ensures Split(a + s) == [a + Split(s)[0]] + Split(s)[1..]
    decreases |a|
  {
    if a == "" {
      assert a + s == s && a + Split(s)[0] == Split(s)[0];
    } else {
      assert (a + s)[1..] == a[1..] + s;
      SplitAppend(a[1..], s);
      assert [a[0]] + (a[1..] + Split(s)[0]) == a + Split(s)[0];
    }
  }

  lemma SplitOne(item: string)
    requires ',' !in item
    ensures Split(item) == [item]
  {
    SplitAppend(item, "");
    assert item + "" == item && item + Split("")[0] == item && Split("")[1..] == [];
  }

  lemma SplitComma(item: string, rest: string)
    requires ',' !in item
    ensures Split(item + ("," + rest)) == [item] + Split(rest)
  {
    SplitAppend(item, "," + rest);
    assert ("," + rest)[1..] == rest && item + "" == item;
  }

  lemma {:induction false} SplitJoined(items: seq<string>)
    requires items != [] && forall i :: 0 <= i < |items| ==> ',' !in items[i]
    ensures Split(Join(items)) == items
    decreases |items|
  {
    hide Split;
    assert items == [items[0]] + items[1..];
    if |items| == 1 {
      SplitOne(items[0]);
    } else {
      SplitComma(items[0], Join(items[1..]));
      SplitJoined(items[1..]);
    }
  }

  lemma {:induction false} TrimStartPad(l: string, x: string)
    requires Blank(l) && x != "" && !IsAsciiSpace(x[0])
    ensures TrimAsciiStart(l + x) == x
    decreases |l|
  {
    if l == "" {
      assert l + x == x;
    } else {
      assert (l + x)[1..] == l[1..] + x;
      TrimStartPad(l[1..], x);
    }
  }

  lemma {:induction false} TrimEndPad(x: string, r: string)
    requires Blank(r) && x != "" && !IsAsciiSpace(x[|x| - 1])
    ensures TrimAsciiEnd(x + r) == x
    decreases |r|
  {
    if r == "" {
      assert x + r == x;
    } else {
      assert (x + r)[..|x + r| - 1] == x + r[..|r| - 1];
      TrimEndPad(x, r[..|r| - 1]);
    }
  }

  lemma TrimPads(l: string, x: string, r: string)
    requires Blank(l) && Blank(r) && x != "" && !IsAsciiSpace(x[0]) && !IsAsciiSpace(x[|x| - 1])
    ensures TrimAscii(l + x + r) == x
  {
    assert l + x + r == l + (x + r);
    TrimStartPad(l, x + r);
    TrimEndPad(x, r);
  }

  lemma {:induction false} DashAt(a: string, b: string)
    requires '-' !in a
    ensures IndexOfDash(a + "-" + b) == Some(|a|)
    decreases |a|
  {
    var s := a + "-" + b;
    if a != "" {
      assert s[1..] == a[1..] + "-" + b;
      DashAt(a[1..], b);
    }
  }

  lemma {:induction false} NoDash(s: string)
    requires '-' !in s
    ensures IndexOfDash(s) == None
  {
    if s != "" {
      NoDash(s[1..]);
    }
  }

  lemma NumberIsRead(l: string, n: nat, r: string)
    requires Blank(l) && Blank(r)
    ensures ParseNumber(l + Decimal(n) + r) == if n <= 9999 then Some(n) else None
  {
    hide TrimAscii, Decimal;
    DigitCount(n);
    ValueOfDecimal(n);
    TrimPads(l, Decimal(n), r);
  }

  lemma DigitCount(n: nat)
    ensures |Decimal(n)| <= 4 <==> n <= 9999
  {
    if n <= 9999 {
      Digits(n);
    } else {
      assert |Decimal(n)| == |Decimal(n / 10)| + 1 && |Decimal(n / 10)| == |Decimal(n / 10 / 10)| + 1;
      assert |Decimal(n / 10 / 10)| == |Decimal(n / 10 / 10 / 10)| + 1;
      assert |Decimal(n / 10 / 10 / 10)| == |Decimal(n / 10 / 10 / 10 / 10)| + 1;
    }
  }

  /** Why an entry is refused: a number has more than four digits, the range runs backwards, or it leaves
      the array. */
  function Complaint(entry: Entry): Problem {
    if entry.First() > 9999 || entry.Last() > 9999 then Unreadable
    else if entry.First() > entry.Last() then Backwards
    else OutOfRange
  }

  /** The item is read as the entry. */
  ghost predicate ItemIs(item: string, entry: Entry, length: nat) {
    ParseItem(item, length)
    == if entry.Fits(length) then Ok(Range(entry.First(), entry.Last())) else Err(Complaint(entry))
  }

  lemma SingleIsRead(entry: Entry, length: nat)
    requires entry.Single? && entry.Spaced() && length <= MaxLength
    ensures ItemIs(entry.Written(), entry, length)
  {
    hide TrimAscii, ParseNumber, Decimal, Blank;
    var n := Decimal(entry.number);
    TrimPads(entry.before, n, entry.after);
    NoDash(n);
    BlankNothing();
    NumberIsRead("", entry.number, "");
    assert "" + n + "" == n;
  }

  lemma SpanIsRead(entry: Entry, length: nat)
    requires entry.Span? && entry.Spaced() && length <= MaxLength
    ensures ItemIs(entry.Written(), entry, length)
  {
    hide TrimAscii, ParseNumber, Decimal, Blank, IndexOfDash;
    var lo, hi := Decimal(entry.lo), Decimal(entry.hi);
    var left, right := lo + entry.afterLo, entry.beforeHi + hi;
    var item := left + "-" + right;
    SpanText(entry.before, lo, entry.afterLo, entry.beforeHi, hi, entry.after);
    TrimPads(entry.before, item, entry.after);
    BlankHasNoDash(entry.afterLo);
    DashAt(left, right);
    BlankNothing();
    NumberIsRead("", entry.lo, entry.afterLo);
    NumberIsRead(entry.beforeHi, entry.hi, "");
    assert "" + lo + entry.afterLo == left && entry.beforeHi + hi + "" == right;
    assert item[..|left|] == left && item[|left| + 1..] == right;
  }

  lemma SpanText(before: string, lo: string, afterLo: string, beforeHi: string, hi: string, after: string)
    ensures (before + lo + afterLo) + "-" + (beforeHi + hi + after)
         == before + ((lo + afterLo) + "-" + (beforeHi + hi)) + after
  {
  }

  lemma BlankNothing()
    ensures Blank("")
  {
  }

  lemma BlankHasNoDash(s: string)
    requires Blank(s)
    ensures '-' !in s
  {
  }

  /** The characters of written entries. */
  predicate Legible(s: string) {
    forall i :: 0 <= i < |s| ==> IsAsciiSpace(s[i]) || IsDigit(s[i]) || s[i] == '-'
  }

  lemma WrittenIsLegible(entry: Entry)
    requires entry.Spaced()
    ensures Legible(entry.Written()) && exists i :: 0 <= i < |entry.Written()| && IsDigit(entry.Written()[i])
  {
    hide Decimal;
    assert IsDigit(entry.Written()[|entry.before|]);
  }

  lemma {:induction false} JoinedIsAscii(items: seq<string>)
    requires forall i :: 0 <= i < |items| ==> Legible(items[i])
    ensures forall i :: 0 <= i < |Join(items)| ==> Join(items)[i] < '\U{80}'
    ensures items != [] ==> items[0] <= Join(items)
    decreases |items|
  {
    if |items| > 1 {
      JoinedIsAscii(items[1..]);
    }
  }

  lemma {:induction false} AsciiLength(s: string)
    requires forall i :: 0 <= i < |s| ==> s[i] < '\U{80}'
    ensures Utf8Length(s) == |s|
  {
    if s != "" {
      AsciiLength(s[..|s| - 1]);
    }
  }

  lemma {:induction false} TrimStartKeeps(s: string, k: nat) returns (j: nat)
    requires k < |s| && !IsAsciiSpace(s[k])
    ensures j < |TrimAsciiStart(s)| && TrimAsciiStart(s)[j] == s[k]
    decreases |s|
  {
    j := k;
    if IsAsciiSpace(s[0]) {
      j := TrimStartKeeps(s[1..], k - 1);
    }
  }

  lemma {:induction false} TrimEndKeeps(s: string, k: nat)
    requires k < |s| && !IsAsciiSpace(s[k])
    ensures TrimAsciiEnd(s) != ""
    decreases |s|
  {
    if IsAsciiSpace(s[|s| - 1]) {
      TrimEndKeeps(s[..|s| - 1], k);
    }
  }

  predicate CoveredBy(entries: seq<Entry>, p: nat) {
    exists i :: 0 <= i < |entries| && entries[i].Covers(p)
  }

  /** Entry `k` is the first that is not a range of the array. */
  predicate FirstMisfit(entries: seq<Entry>, length: nat, k: nat) {
    k < |entries| && !entries[k].Fits(length) && forall i :: 0 <= i < k ==> entries[i].Fits(length)
  }

  /** The items are read as the entries. */
  ghost predicate ReadAs(items: seq<string>, entries: seq<Entry>, length: nat) {
    |items| == |entries| && forall i :: 0 <= i < |items| ==> ItemIs(items[i], entries[i], length)
  }

  /** Every written entry is read as the range it names, or refused for its complaint. */
  lemma ItemsAreRead(entries: seq<Entry>, length: nat)
    requires length <= MaxLength && forall i :: 0 <= i < |entries| ==> entries[i].Spaced()
    ensures ReadAs(WrittenAll(entries), entries, length)
    ensures forall i :: 0 <= i < |entries| ==> Legible(WrittenAll(entries)[i])
  {
    hide ItemIs, Legible, WrittenAll;
    forall i | 0 <= i < |entries|
      ensures Legible(entries[i].Written()) && ItemIs(entries[i].Written(), entries[i], length)
    {
      WrittenIsLegible(entries[i]);
      if entries[i].Single? {
        SingleIsRead(entries[i], length);
      } else {
        SpanIsRead(entries[i], length);
      }
    }
  }

  lemma LegibleHasNoComma(items: seq<string>)
    requires forall i :: 0 <= i < |items| ==> Legible(items[i])
    ensures forall i :: 0 <= i < |items| ==> ',' !in items[i]
  {
  }

  /** A comma list of entries, wherever white space stands, denotes in increasing order exactly the
      positions its entries cover; if some entry is no range of the array, the first such entry is the
      error. */
  lemma WrittenListIsRead(entries: seq<Entry>, length: nat)
    requires 1 <= length <= MaxLength && entries != []
    requires forall i :: 0 <= i < |entries| ==> entries[i].Spaced()
    requires |Join(WrittenAll(entries))| <= MaxBytes
    ensures var r := Denoted(Join(WrittenAll(entries)), length);
            && ((forall i :: 0 <= i < |entries| ==> entries[i].Fits(length)) ==>
                  r.Ok? && Increasing(r.value) && forall p: nat :: p in r.value <==> CoveredBy(entries, p))
            && forall k: nat :: FirstMisfit(entries, length, k) ==> r == Err(BadItem(k + 1, Complaint(entries[k])))
  {
    hide TrimAscii, ParseItem, Split, Utf8Length, Join, Enumerate, FirstBad, Legible, WrittenAll, Complaint, ReadAs,
         CoveredBy;
    var items, text := WrittenAll(entries), Join(WrittenAll(entries));
    ItemsAreRead(entries, length);
    LegibleHasNoComma(items);
    JoinedIsAscii(items);
    AsciiLength(text);
    SplitJoined(items);
    NotBlank(entries, text);
    if forall i :: 0 <= i < |entries| ==> entries[i].Fits(length) {
      FittingIsRead(items, entries, length);
      EnumerateIsUnion(items, length, length);
    }
    forall k: nat | FirstMisfit(entries, length, k)
      ensures Denoted(text, length) == Err(BadItem(k + 1, Complaint(entries[k])))
    {
      MisfitIsBad(items, entries, length, k);
    }
  }

  lemma MisfitIsBad(items: seq<string>, entries: seq<Entry>, length: nat, k: nat)
    requires ReadAs(items, entries, length) && FirstMisfit(entries, length, k)
    ensures FirstBad(items, length) == k < |items| && ParseItem(items[k], length) == Err(Complaint(entries[k]))
  {
    hide ParseItem, FirstBad, Complaint;
    assert ItemIs(items[k], entries[k], length);
    assert forall i :: 0 <= i < k ==> ItemIs(items[i], entries[i], length) && ParseItem(items[i], length).Ok?;
  }

  lemma FittingIsRead(items: seq<string>, entries: seq<Entry>, length: nat)
    requires ReadAs(items, entries, length) && forall i :: 0 <= i < |entries| ==> entries[i].Fits(length)
    ensures FirstBad(items, length) == |items|
    ensures forall p: nat :: Covers(items, length, p) <==> CoveredBy(entries, p)
    ensures forall p: nat :: CoveredBy(entries, p) ==> 1 <= p <= length
  {
    hide ParseItem, FirstBad, Complaint;
    assert forall i :: 0 <= i < |items| ==> ItemIs(items[i], entries[i], length) && ParseItem(items[i], length).Ok?;
    forall p: nat
      ensures Covers(items, length, p) <==> CoveredBy(entries, p)
    {
      if i :| 0 <= i < |entries| && entries[i].Covers(p) {
        assert ItemIs(items[i], entries[i], length);
      }
    }
  }

  lemma NotBlank(entries: seq<Entry>, text: string)
    requires entries != [] && entries[0].Spaced() && entries[0].Written() <= text
    ensures TrimAscii(text) != ""
  {
    WrittenIsLegible(entries[0]);
    var w := entries[0].Written();
    var i :| 0 <= i < |w| && IsDigit(w[i]);
    assert text[i] == w[i];
    var j := TrimStartKeeps(text, i);
    TrimEndKeeps(TrimAsciiStart(text), j);
  }

  // ---------------------------------------------------------------------------------------
  // Printing and reading back

  function Print(c: seq<nat>): string {
    if c == [] then ""
    else if |c| == 1 then Decimal(c[0])
    else Decimal(c[0]) + "," + Print(c[1..])
  }

  /** How many characters a comma list of the positions up to `n` takes, with a comma after each. */
  function Budget(n: nat): nat {
    if n < 10 then 2 * n else if n < 100 then 18 + 3 * (n - 9) else if n < 1000 then 288 + 4 * (n - 99)
        else 3888 + 5 * (n - 999)
  }

  lemma Digits(n: nat)
    requires n <= 9999
    ensures |Decimal(n)| == if n < 10 then 1 else if n < 100 then 2 else if n < 1000 then 3 else 4
  {
    assert n >= 10 ==> |Decimal(n)| == |Decimal(n / 10)| + 1;
    assert n >= 100 ==> |Decimal(n / 10)| == |Decimal(n / 10 / 10)| + 1;
    assert n >= 1000 ==> |Decimal(n / 10 / 10)| == |Decimal(n / 10 / 10 / 10)| + 1;
  }

  /** The text of an increasing list with entries above `low` and up to `high`. */
  lemma {:induction false} PrintedLength(c: seq<nat>, low: nat, high: nat)
    requires c != [] && Increasing(c) && low < c[0] && c[|c| - 1] <= high <= MaxLength
    ensures |Print(c)| + 1 <= Budget(high) - Budget(low)
    decreases |c|
  {
    assert forall i :: 0 <= i < |c| ==> c[i] <= c[|c| - 1];
    Digits(c[0]);
    if |c| > 1 {
      PrintedLength(c[1..], c[0], high);
    }
  }

  function UpTo(n: nat): seq<nat> {
    if n == 0 then [] else UpTo(n - 1) + [n]
  }

  lemma {:induction false} PrintOneMore(c: seq<nat>, n: nat)
    ensures Print(c + [n]) == if c == [] then Decimal(n) else Print(c) + "," + Decimal(n)
    decreases |c|
  {
    hide Decimal;
    if |c| > 1 {
      assert (c + [n])[1..] == c[1..] + [n];
      PrintOneMore(c[1..], n);
      assert Decimal(c[0]) + "," + (Print(c[1..]) + "," + Decimal(n))
             == (Decimal(c[0]) + "," + Print(c[1..])) + "," + Decimal(n);
    } else if |c| == 1 {
      assert (c + [n])[1..] == [n];
    }
  }

  /** The bound is met: the full list of `n` positions takes exactly its budget, less one comma. */
  lemma {:induction false} FullListLength(n: nat)
    requires 1 <= n <= MaxLength
    ensures |Print(UpTo(n))| == Budget(n) - 1
    decreases n
  {
    Digits(n);
    PrintOneMore(UpTo(n - 1), n);
    if n > 1 {
      FullListLength(n - 1);
      assert UpTo(n - 1) != [];
    }
  }

  lemma LongestText(c: seq<nat>)
    requires Increasing(c) && forall i :: 0 <= i < |c| ==> 1 <= c[i] <= MaxLength
    ensures |Print(c)| <= 3892 == |Print(UpTo(MaxLength))|
  {
    if c != [] {
      PrintedLength(c, 0, MaxLength);
    }
    FullListLength(MaxLength);
  }

  lemma {:induction false} PrintedCharacters(c: seq<nat>)
    ensures forall i :: 0 <= i < |Print(c)| ==> IsDigit(Print(c)[i]) || Print(c)[i] == ','
    ensures c != [] ==> Print(c) != "" && IsDigit(Print(c)[0])
    decreases |c|
  {
    if |c| > 1 {
      PrintedCharacters(c[1..]);
    }
  }

  lemma {:induction false} ValueOfDecimal(n: nat)
    ensures AllDigits(Decimal(n)) && DecimalValue(Decimal(n)) == n
    decreases n
  {
    var s := Decimal(n);
    if n < 10 {
      assert s[..|s| - 1] == "";
    } else {
      ValueOfDecimal(n / 10);
      assert s[..|s| - 1] == Decimal(n / 10);
    }
  }

  /** Two increasing lists with the same entries are equal. */
  lemma {:induction false} IncreasingIsUnique(a: seq<nat>, b: seq<nat>)
    requires Increasing(a) && Increasing(b) && forall p :: p in a <==> p in b
    ensures a == b
    decreases |a|
  {
    assert |b| > 0 ==> b[0] in b;
    if a != [] {
      assert a[0] in b && b[0] in a;
      var a', b' := a[1..], b[1..];
      assert forall i :: 0 <= i < |a'| ==> a'[i] == a[i + 1];
      assert forall i :: 0 <= i < |b'| ==> b'[i] == b[i + 1];
      assert a[0] == b[0];
      forall p
        ensures p in a' <==> p in b'
      {
        assert p in a' <==> p in a && p != a[0];
        assert p in b' <==> p in b && p != b[0];
      }
      IncreasingIsUnique(a', b');
    }
  }

  lemma {:induction false} PrintIsJoin(c: seq<nat>)
    ensures Print(c) == Join(WrittenAll(Singles(c)))
    decreases |c|
  {
    hide Decimal;
    if c != [] {
      var first := Decimal(c[0]);
      assert "" + first + "" == first;
      assert Singles(c)[1..] == Singles(c[1..]) && Singles(c)[0] == Single("", c[0], "");
      PrintIsJoin(c[1..]);
    }
  }

  function Singles(c: seq<nat>): seq<Entry> {
    seq(|c|, i requires 0 <= i < |c| => Single("", c[i], ""))
  }

  /** Every list of candidates can be written as a comma list, and is read back as itself; no such
      text comes near the limit. */
  lemma PrintedListIsReadBack(c: seq<nat>, length: nat)
    requires 1 <= length <= MaxLength && Increasing(c) && forall i :: 0 <= i < |c| ==> 1 <= c[i] <= length
    ensures Denoted(Print(c), length) == Ok(c)
  {
    hide Denoted, Print, UpTo, Join, WrittenAll, CoveredBy, Decimal;
    if c == [] {
      NothingPrinted(length);
    } else {
      LongestText(c);
      PrintIsJoin(c);
      WrittenListIsRead(Singles(c), length);
      var r := Denoted(Print(c), length).value;
      SinglesCover(c);
      IncreasingIsUnique(r, c);
    }
  }

  lemma SinglesCover(c: seq<nat>)
    ensures forall p: nat :: CoveredBy(Singles(c), p) <==> p in c
  {
    forall p: nat
      ensures CoveredBy(Singles(c), p) <==> p in c
    {
      if i :| 0 <= i < |c| && c[i] == p {
        assert Singles(c)[i].Covers(p);
      }
    }
  }

  lemma NothingPrinted(length: nat)
    requires 1 <= length <= MaxLength
    ensures Denoted(Print([]), length) == Ok([])
  {
  }

  // ---------------------------------------------------------------------------------------
  // The pick generator

  datatype PickArray = PickArray(length: nat, min: nat, max: nat, candidates: seq<nat>)

  datatype PickError = NoLength | LengthOutOfRange | NoBounds | NegativeMin | MinAboveMax | MaxAboveLength
    | BadPositions(e: PositionsError) | NoCandidates | TooFewCandidates

  function AllPositions(n: nat): (c: seq<nat>)
    ensures |c| == n && forall i :: 0 <= i < n ==> c[i] == i + 1
  {
    seq(n, i => i + 1)
  }

  /** Checks the parameters of a pick generator. */
  function BuildPick(length: Option<nat>, min: Option<int>, max: Option<int>, positions: Option<string>)
    : Result<PickArray, PickError> {
    if length.None? then Err(NoLength)
    else if length.value < 1 || length.value > MaxLength then Err(LengthOutOfRange)
    else if min.None? || max.None? then Err(NoBounds)
    else if min.value < 0 then Err(NegativeMin)
    else if min.value > max.value then Err(MinAboveMax)
    else if max.value > length.value then Err(MaxAboveLength)
    else match (if positions.Some? then Denoted(positions.value, length.value) else Ok(AllPositions(length.value)))
         case Err(e) => Err(BadPositions(e))
         case Ok(c) =>
           if c == [] then Err(NoCandidates)
           else if min.value > |c| then Err(TooFewCandidates)
           else Ok(PickArray(length.value, min.value, max.value, c))
  }

  ghost predicate Usable(g: PickArray) {
    && 1 <= |g.candidates| && g.min <= |g.candidates| && g.min <= g.max <= g.length
    && Increasing(g.candidates) && forall i :: 0 <= i < |g.candidates| ==> 1 <= g.candidates[i] <= g.length
  }

  /** What the checks establish for every generator they let through. */
  lemma BuiltPickIsUsable(length: Option<nat>, min: Option<int>, max: Option<int>, positions: Option<string>)
    ensures var r := BuildPick(length, min, max, positions); r.Ok? ==> Usable(r.value)
  {
    if positions.Some? && length.Some? {
      DenotedIsUnion(positions.value, length.value);
    }
  }

  /** Exactly these parameters pass, with these candidates: the positions a given text denotes, in order,
      or all positions of the array. */
  lemma BuiltExactlyIf(length: Option<nat>, min: Option<int>, max: Option<int>, positions: Option<string>, g: PickArray)
    ensures BuildPick(length, min, max, positions) == Ok(g)
            <==> && length == Some(g.length) && min == Some(g.min) && max == Some(g.max)
                 && 1 <= g.length <= MaxLength && g.min <= g.max <= g.length
                 && 1 <= |g.candidates| && g.min <= |g.candidates|
                 && if positions.Some? then Denoted(positions.value, g.length) == Ok(g.candidates)
                    else |g.candidates| == g.length && forall i :: 0 <= i < g.length ==> g.candidates[i] == i + 1
  {
    hide Denoted;
    if positions.None? && length == Some(g.length) && |g.candidates| == g.length
       && forall i :: 0 <= i < g.length ==> g.candidates[i] == i + 1 {
      assert g.candidates == AllPositions(g.length);
    }
  }

  /** The range from which the number of picks is drawn. */
  function PickRange(g: PickArray): (r: (nat, nat)) {
    var hi := if g.max < |g.candidates| then g.max else |g.candidates|;
    (if g.min < hi then g.min else hi, hi)
  }

  /** The number of picks is any that keeps the bounds and does not exceed the candidates, and only such. */
  lemma EveryCountIsInRange(g: PickArray, k: nat)
    requires Usable(g)
    ensures PickRange(g).0 <= k <= PickRange(g).1 <==> g.min <= k <= g.max && k <= |g.candidates|
    ensures PickRange(g).0 <= PickRange(g).1
  {
  }

  /** The indexes of the picked cells. */
  function Picked(out: seq<bool>): set<nat> {
    set i | 0 <= i < |out| && out[i]
  }

  /** The sample picks the position. */
  predicate Hit(g: PickArray, sample: seq<nat>, position: nat) {
    exists i :: 0 <= i < |sample| && sample[i] < |g.candidates| && g.candidates[sample[i]] == position
  }

  lemma HitOneMore(g: PickArray, sample: seq<nat>, i: nat)
    requires Usable(g) && i < |sample| && (forall j :: 0 <= j < |sample| ==> sample[j] < |g.candidates|)
    requires forall j, k :: 0 <= j < k < |sample| ==> sample[j] != sample[k]
    ensures !Hit(g, sample[..i], g.candidates[sample[i]])
    ensures forall p: nat :: Hit(g, sample[..i + 1], p) <==> Hit(g, sample[..i], p) || p == g.candidates[sample[i]]
  {
    var more, less := sample[..i + 1], sample[..i];
    forall p: nat
      ensures Hit(g, more, p) <==> Hit(g, less, p) || p == g.candidates[sample[i]]
    {
      assert more[i] == sample[i] && forall j :: 0 <= j < i ==> more[j] == less[j];
      if Hit(g, less, p) {
        var j :| 0 <= j < |less| && less[j] < |g.candidates| && g.candidates[less[j]] == p;
        assert more[j] == less[j];
      }
    }
  }

  lemma PickOne(before: seq<bool>, p: nat)
    requires p < |before| && !before[p]
    ensures |Picked(before[p := true])| == |Picked(before)| + 1
  {
    assert Picked(before[p := true]) == Picked(before) + {p};
  }

  lemma NothingPicked(g: PickArray, out: seq<bool>)
    requires forall p :: 0 <= p < |out| ==> !out[p]
    ensures |Picked(out)| == 0 && forall p: nat :: !Hit(g, [], p)
  {
    assert Picked(out) == {};
  }

  lemma HitsAreCandidates(g: PickArray, sample: seq<nat>)
    ensures forall p: nat :: Hit(g, sample, p) ==> p in g.candidates
  {
  }

  /** Draws `k` of the candidates: `sample` stands for the random sample, `k` distinct indexes below
      the number of candidates.  The sample can always be taken; the array has between `min` and
      the smaller of `max` and the number of candidates picked cells, all at candidate positions. */
  method EvalPickArray(g: PickArray, k: nat, sample: seq<nat>) returns (out: array<bool>)
    requires Usable(g)
    requires PickRange(g).0 <= k <= PickRange(g).1
    requires |sample| == k && (forall i :: 0 <= i < k ==> sample[i] < |g.candidates|)
    requires forall i, j :: 0 <= i < j < k ==> sample[i] != sample[j]
    ensures fresh(out) && out.Length == g.length
    ensures |Picked(out[..])| == k
    ensures g.min <= k <= g.max && k <= |g.candidates|
    ensures forall p :: 0 <= p < g.length && out[p] ==> p + 1 in g.candidates
    ensures forall p :: 0 <= p < g.length ==> (out[p] <==> Hit(g, sample, p + 1))
  {
    hide Hit, Picked;
    out := new bool[g.length](_ => false);
    NothingPicked(g, out[..]);
    for i := 0 to k
      invariant |Picked(out[..])| == i
      invariant forall p :: 0 <= p < g.length ==> (out[p] <==> Hit(g, sample[..i], p + 1))
    {
      var p := g.candidates[sample[i]] - 1;
      ghost var before := out[..];
      HitOneMore(g, sample, i);
      assert !before[p];
      out[p] := true;
      assert out[..] == before[p := true];
      PickOne(before, p);
    }
    assert sample[..k] == sample;
    HitsAreCandidates(g, sample);
  }
}
