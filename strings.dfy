/** String helpers the two programs get from their platforms: trimming,
    decimal rendering of numbers and lower-casing. */
module Strings {

  /** Characters JavaScript's `String.prototype.trim` removes: WhiteSpace
      (tab, vertical tab, form feed, space, no-break space, byte order mark,
      category Zs) and LineTerminator (LF, CR, LS, PS). */
  predicate IsJsSpace(c: char)
  {
    || '\t' <= c <= '\r'
    || c == ' ' || c == '\U{00A0}' || c == '\U{1680}'
    || '\U{2000}' <= c <= '\U{200A}'
    || c == '\U{2028}' || c == '\U{2029}' || c == '\U{202F}' || c == '\U{205F}'
    || c == '\U{3000}' || c == '\U{FEFF}'
  }

  /** Characters Python's `str.strip()` removes (those for which `str.isspace()`
      holds): unlike JavaScript it includes the information separators
      U+001C..U+001F and NEL U+0085, and excludes the byte order mark. */
  predicate IsPySpace(c: char)
  {
    || '\t' <= c <= '\r'
    || '\U{001C}' <= c <= ' '
    || c == '\U{0085}' || c == '\U{00A0}' || c == '\U{1680}'
    || '\U{2000}' <= c <= '\U{200A}'
    || c == '\U{2028}' || c == '\U{2029}' || c == '\U{202F}' || c == '\U{205F}'
    || c == '\U{3000}'
  }

  /** `s` without its leading characters satisfying `space`. */
  function TrimStart(s: string, space: char -> bool): (r: string)
    ensures |r| <= |s| && r == s[|s| - |r|..]
    ensures forall i :: 0 <= i < |s| - |r| ==> space(s[i])
    ensures r != [] ==> !space(r[0])
  {
    if s != [] && space(s[0]) then TrimStart(s[1..], space) else s
  }

  /** `s` without its trailing characters satisfying `space`. */
  function TrimEnd(s: string, space: char -> bool): (r: string)
    ensures |r| <= |s| && r == s[..|r|]
    ensures forall i :: |r| <= i < |s| ==> space(s[i])
    ensures r != [] ==> !space(r[|r| - 1])
  {
    if s != [] && space(s[|s| - 1]) then TrimEnd(s[..|s| - 1], space) else s
  }

  /** The number of white space characters `s` begins with. */
  function LeadingSpace(s: string, space: char -> bool): (n: nat)
    ensures n <= |s|
    ensures forall i :: 0 <= i < n ==> space(s[i])
    ensures n < |s| ==> !space(s[n])
  {
    if s != [] && space(s[0]) then 1 + LeadingSpace(s[1..], space) else 0
  }

  /** `TrimStart` drops exactly the leading white space. */
  lemma {:induction false} LeadingSpaceTrimmed(s: string, space: char -> bool)
    ensures TrimStart(s, space) == s[LeadingSpace(s, space)..]
  {
    if s != [] && space(s[0]) {
      LeadingSpaceTrimmed(s[1..], space);
    }
  }

  /** `s` without leading and trailing characters satisfying `space`: what is left
      neither starts nor ends with one, and it is empty exactly when every
      character of `s` satisfies `space`. */
  function Trim(s: string, space: char -> bool): (r: string)
    ensures r != [] ==> !space(r[0]) && !space(r[|r| - 1])
    ensures r == [] <==> forall i :: 0 <= i < |s| ==> space(s[i])
  {
    var front := TrimStart(s, space);
    var r := TrimEnd(front, space);
    assert r == [] ==> front == [];
    r
  }

  /** `r` is the piece of `s` that starts at index `k` and leaves only
      characters satisfying `space` behind it. */
  predicate PieceFrom(s: string, k: nat, r: string, space: char -> bool)
  {
    && k + |r| <= |s|
    && r == s[k..k + |r|]
    && forall i :: k + |r| <= i < |s| ==> space(s[i])
  }

  /** Trimming keeps the piece of `s` that follows its leading white space,
      and drops only white space after that piece. With `Trim`'s own
      contract this pins the result down: the piece starts at the first
      character that is not white space and ends at the last one. */
  lemma TrimIsSlice(s: string, space: char -> bool)
    ensures PieceFrom(s, LeadingSpace(s, space), Trim(s, space), space)
  {
    TrimEndOfTrimStart(s, space);
  }

  /** The same for the two passes `Trim` makes, the leading white space first. */
  lemma TrimEndOfTrimStart(s: string, space: char -> bool)
    ensures PieceFrom(s, LeadingSpace(s, space), TrimEnd(TrimStart(s, space), space), space)
  {
    var k, front := LeadingSpace(s, space), TrimStart(s, space);
    var r := TrimEnd(front, space);
    LeadingSpaceTrimmed(s, space);
    PieceOfSuffix(s, k, front, r, space);
  }

  /** A prefix `r` of the suffix `front` of `s`, with only white space
      behind it in `front`, is a piece of `s` with only white space behind it. */
  lemma PieceOfSuffix(s: string, k: nat, front: string, r: string, space: char -> bool)
    requires k <= |s| && front == s[k..]
    requires |r| <= |front| && r == front[..|r|]
    requires forall i :: |r| <= i < |front| ==> space(front[i])
    ensures PieceFrom(s, k, r, space)
  {
    forall i | k + |r| <= i < |s|
      ensures space(s[i])
    {
      assert s[i] == front[i - k];
    }
  }

  /** A string whose ends are not `space` is left as it is. */
  lemma TrimUntouched(s: string, space: char -> bool)
    requires s != [] ==> !space(s[0]) && !space(s[|s| - 1])
    ensures Trim(s, space) == s
  {
    assert TrimStart(s, space) == s;
  }

  /** Trimming twice trims no more than trimming once. */
  lemma TrimIdempotent(s: string, space: char -> bool)
    ensures Trim(Trim(s, space), space) == Trim(s, space)
  {
    TrimUntouched(Trim(s, space), space);
  }

  /** JavaScript's `s.trim()`. */
  function JsTrim(s: string): string
  {
    Trim(s, IsJsSpace)
  }

  /** Python's `s.strip()`. */
  function PyStrip(s: string): string
  {
    Trim(s, IsPySpace)
  }

  predicate IsDigit(c: char)
  {
    '0' <= c <= '9'
  }

  /** Decimal rendering of a natural number, as `${n}` or `str(n)` print it. */
  function Decimal(n: nat): (r: string)
    ensures r != [] && forall i :: 0 <= i < |r| ==> IsDigit(r[i])
  {
    if n < 10 then [('0' as int + n) as char]
    else Decimal(n / 10) + [('0' as int + n % 10) as char]
  }

  /** Reads a string of decimal digits back as a number. */
  function ParseDecimal(s: string): nat
    requires forall i :: 0 <= i < |s| ==> IsDigit(s[i])
  {
    if s == [] then 0
    else
      assert IsDigit(s[|s| - 1]);
      ParseDecimal(s[..|s| - 1]) * 10 + (s[|s| - 1] as int - '0' as int)
  }

  /** Different numbers render differently: reading the rendering gives the number back. */
  lemma {:induction false} DecimalRoundTrip(n: nat)
    ensures ParseDecimal(Decimal(n)) == n
  {
    if n >= 10 {
      var d := Decimal(n);
      assert d[..|d| - 1] == Decimal(n / 10);
      DecimalRoundTrip(n / 10);
    }
  }

  /** ASCII lower-casing of one character. */
  function LowerChar(c: char): char
  {
    if 'A' <= c <= 'Z' then (c as int + 32) as char else c
  }

  /** ASCII lower-casing of a string. */
  function Lower(s: string): string
  {
    seq(|s|, i requires 0 <= i < |s| => LowerChar(s[i]))
  }
}
