/** Text helpers.  Strings are sequences of Unicode scalar values; every delimiter the engine
    searches for is a single-byte character, so byte offsets and character offsets cut alike. */
module Text {
  import opened Options

  /** Characters with the Unicode property White_Space. */
  predicate IsSpace(c: char) {
    || '\U{9}' <= c <= '\U{D}' || c == ' ' || c == '\U{85}' || c == '\U{A0}' || c == '\U{1680}'
    || '\U{2000}' <= c <= '\U{200A}' || c == '\U{2028}' || c == '\U{2029}' || c == '\U{202F}'
    || c == '\U{205F}' || c == '\U{3000}'
  }

  function TrimStart(s: string): string {
    if s != "" && IsSpace(s[0]) then TrimStart(s[1..]) else s
  }

  function TrimEnd(s: string): string {
    if s != "" && IsSpace(s[|s| - 1]) then TrimEnd(s[..|s| - 1]) else s
  }

  function Trim(s: string): string {
    TrimEnd(TrimStart(s))
  }

  /** The first position at which `needle` starts. */
  function Find(s: string, needle: string): (r: Option<nat>)
    requires needle != ""
    ensures r.Some? ==> r.value + |needle| <= |s|
  {
    if |s| < |needle| then None
    else if needle <= s then Some(0)
    else match Find(s[1..], needle)
         case None => None
         case Some(k) => Some(k + 1)
  }

  /** `Find` finds an occurrence, misses none before it, and fails only if there is none. */
  lemma {:induction false} FindIsFirst(s: string, needle: string)
    requires needle != ""
    ensures match Find(s, needle)
            case Some(k) => needle <= s[k..] && forall j :: 0 <= j < k ==> !(needle <= s[j..])
            case None => forall j :: 0 <= j <= |s| ==> !(needle <= s[j..])
    decreases |s|
  {
    assert s[0..] == s;
    if |s| >= |needle| && !(needle <= s) {
      FindIsFirst(s[1..], needle);
      assert forall j :: 1 <= j <= |s| ==> s[j..] == s[1..][j - 1..];
    }
  }

  predicate Contains(s: string, needle: string)
    requires needle != ""
  {
    Find(s, needle).Some?
  }

  /** What does not occur in a text does not occur in a part of it. */
  lemma FindInPart(s: string, needle: string, a: nat, b: nat)
    requires needle != "" && a <= b <= |s| && Find(s, needle).None?
    ensures Find(s[a..b], needle).None?
  {
    FindIsFirst(s, needle);
    FindIsFirst(s[a..b], needle);
    forall k | 0 <= k <= b - a
      ensures s[a..b][k..] <= s[a + k..]
    {
    }
  }

  lemma {:induction false} TrimEndIsPart(s: string) returns (b: nat)
    ensures b <= |s| && TrimEnd(s) == s[..b]
    decreases |s|
  {
    b := |s|;
    if s != "" && IsSpace(s[|s| - 1]) {
      b := TrimEndIsPart(s[..|s| - 1]);
      assert s[..|s| - 1][..b] == s[..b];
    }
  }

  lemma {:induction false} TrimStartIsPart(s: string) returns (a: nat)
    ensures a <= |s| && TrimStart(s) == s[a..]
    decreases |s|
  {
    a := 0;
    if s != "" && IsSpace(s[0]) {
      a := TrimStartIsPart(s[1..]);
      assert s[1..][a..] == s[a + 1..];
      a := a + 1;
    }
  }

  /** Trimming leaves a part of the text. */
  lemma TrimIsPart(s: string) returns (a: nat, b: nat)
    ensures a <= b <= |s| && Trim(s) == s[a..b]
  {
    a := TrimStartIsPart(s);
    var n := TrimEndIsPart(s[a..]);
    b := a + n;
    assert s[a..][..n] == s[a..b];
  }

  /** The last position of a character. */
  function FindLast(s: string, c: char): (r: Option<nat>)
    ensures r.Some? ==> r.value < |s| && s[r.value] == c && forall j :: r.value < j < |s| ==> s[j] != c
    ensures r.None? ==> c !in s
  {
    if s == "" then None
    else if s[|s| - 1] == c then Some(|s| - 1)
    else FindLast(s[..|s| - 1], c)
  }

  predicate IsDigit(c: char) {
    '0' <= c <= '9'
  }

  predicate AllDigits(s: string) {
    forall i :: 0 <= i < |s| ==> IsDigit(s[i])
  }

  /** The number a text of digits denotes. */
  function DecimalValue(s: string): nat
    requires AllDigits(s)
  {
    if s == "" then 0 else 10 * DecimalValue(s[..|s| - 1]) + (s[|s| - 1] as int - '0' as int)
  }

  /** Decimal notation. */
  function Decimal(n: nat): (s: string)
    ensures s != "" && forall i :: 0 <= i < |s| ==> '0' <= s[i] <= '9'
  {
    if n < 10 then [(n + 48) as char] else Decimal(n / 10) + [(n % 10 + 48) as char]
  }

  lemma Assoc(a: string, b: string, c: string)
    ensures (a + b) + c == a + (b + c)
  {
  }
}
