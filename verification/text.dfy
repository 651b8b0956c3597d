/**
 * String helpers shared by the backend and the frontend models: Ruby's
 * `strip` and `downcase` (over ASCII), JavaScript's number-to-string,
 * `padStart(2, '0')`, `Number(...)` over digit strings, `split` and `join`.
 */
module Text {

  /** ASCII `[[:space:]]`: space, \t, \n, \v, \f and \r. */
  predicate IsSpace(c: char) {
    c == ' ' || (9 <= c as int <= 13)
  }

  /** The characters Ruby's `String#strip` removes: NUL and the ASCII spaces. */
  predicate IsStripSpace(c: char) {
    IsSpace(c) || c as int == 0
  }

  /**
   * Unicode `[[:space:]]` (the White_Space property): the ASCII spaces, NEL,
   * no-break space, the ogham space mark, the typographic spaces U+2000 to
   * U+200A, the line and paragraph separators, the narrow no-break space, the
   * medium mathematical space and the ideographic space U+3000.
   */
  predicate IsWhiteSpace(c: char) {
    var n := c as int;
    IsSpace(c) || n == 0x85 || n == 0xA0 || n == 0x1680 || (0x2000 <= n <= 0x200A)
    || n == 0x2028 || n == 0x2029 || n == 0x202F || n == 0x205F || n == 0x3000
  }

  /** Rails `blank?` on a string (`/\A[[:space:]]*\z/`): empty or Unicode whitespace only. */
  predicate IsBlank(s: string) {
    forall i :: 0 <= i < |s| ==> IsWhiteSpace(s[i])
  }

  /** Leading whitespace removed (Ruby `lstrip`). */
  function TrimLeft(s: string): (r: string)
    ensures |r| <= |s| && r == s[|s| - |r|..]
    ensures r == [] || !IsStripSpace(r[0])
    ensures forall i :: 0 <= i < |s| - |r| ==> IsStripSpace(s[i])
  {
    if s != [] && IsStripSpace(s[0]) then TrimLeft(s[1..]) else s
  }

  /** Trailing whitespace removed (Ruby `rstrip`). */
  function TrimRight(s: string): (r: string)
    ensures |r| <= |s| && r == s[..|r|]
    ensures r == [] || !IsStripSpace(r[|r| - 1])
    ensures forall i :: |r| <= i < |s| ==> IsStripSpace(s[i])
  {
    if s != [] && IsStripSpace(s[|s| - 1]) then TrimRight(s[..|s| - 1]) else s
  }

  /** Ruby `strip`: leading and trailing whitespace removed. */
  function Strip(s: string): string {
    TrimRight(TrimLeft(s))
  }

  /** `strip` leaves no whitespace at either end. */
  lemma StripEnds(s: string)
    ensures var r := Strip(s);
      r == [] || (!IsStripSpace(r[0]) && !IsStripSpace(r[|r| - 1]))
  {
    var l := TrimLeft(s);
    var r := TrimRight(l);
    if r != [] {
      assert r[0] == l[0];
    }
  }

  /** A string with no whitespace at either end is left alone by `strip`. */
  lemma StripNoop(s: string)
    requires s == [] || (!IsStripSpace(s[0]) && !IsStripSpace(s[|s| - 1]))
    ensures Strip(s) == s
  {
  }

  predicate IsUpper(c: char) { 'A' <= c <= 'Z' }

  /** ASCII lower-casing of one character. */
  function Lower(c: char): (r: char)
    ensures !IsUpper(r)
    ensures IsStripSpace(r) <==> IsStripSpace(c)
  {
    if IsUpper(c) then (c as int + 32) as char else c
  }

  /** Lower-casing a lower-case character changes nothing. */
  lemma LowerIdempotent(c: char)
    ensures Lower(Lower(c)) == Lower(c)
  {
  }

  /** Ruby `downcase`, restricted to ASCII letters. */
  function Downcase(s: string): (r: string)
    ensures |r| == |s|
    ensures forall i :: 0 <= i < |r| ==> r[i] == Lower(s[i])
  {
    seq(|s|, i requires 0 <= i < |s| => Lower(s[i]))
  }

  /** Downcasing twice is downcasing once. */
  lemma DowncaseIdempotent(s: string)
    ensures Downcase(Downcase(s)) == Downcase(s)
  {
    forall i | 0 <= i < |s|
      ensures Downcase(Downcase(s))[i] == Downcase(s)[i]
    {
      LowerIdempotent(s[i]);
    }
  }

  predicate IsDigit(c: char) { '0' <= c <= '9' }

  predicate AllDigits(s: string) { forall i :: 0 <= i < |s| ==> IsDigit(s[i]) }

  function DigitChar(d: nat): (c: char)
    requires d < 10
    ensures IsDigit(c)
  {
    ('0' as int + d) as char
  }

  /** JavaScript `String(n)` for a non-negative integer: decimal digits, no leading zeros. */
  function NatToString(n: nat): (r: string)
    decreases n
  {
    if n < 10 then [DigitChar(n)] else NatToString(n / 10) + [DigitChar(n % 10)]
  }

  /** JavaScript `String(i)` (or a template literal) for an integer. */
  function IntToString(i: int): string {
    if i < 0 then "-" + NatToString(-i) else NatToString(i)
  }

  /** JavaScript `Number(s)` on a string of decimal digits (the empty string gives 0). */
  function DigitsValue(s: string): nat
    requires AllDigits(s)
  {
    if s == [] then 0 else DigitsValue(s[..|s| - 1]) * 10 + (s[|s| - 1] as int - '0' as int)
  }

  /** Printing a natural number and reading it back gives the number. */
  lemma {:induction false} NatToStringRoundTrip(n: nat)
    ensures AllDigits(NatToString(n))
    ensures DigitsValue(NatToString(n)) == n
    decreases n
  {
    if n >= 10 {
      NatToStringRoundTrip(n / 10);
      var s := NatToString(n);
      assert s[..|s| - 1] == NatToString(n / 10);
    }
  }

  /** The number of decimal digits grows with the number. */
  lemma {:induction false} NatToStringLength(n: nat)
    ensures n < 10 <==> |NatToString(n)| == 1
    ensures 10 <= n < 100 ==> |NatToString(n)| == 2
    ensures 100 <= n < 1000 ==> |NatToString(n)| == 3
    ensures n < 1000 ==> |NatToString(n)| <= 3
    ensures 1000 <= n < 10000 ==> |NatToString(n)| == 4
    ensures 10000 <= n ==> |NatToString(n)| >= 5
    decreases n
  {
    if n >= 10 {
      NatToStringLength(n / 10);
    }
  }

  /** JavaScript `String(n).padStart(2, '0')`. */
  function Pad2(n: nat): (r: string)
    ensures n < 100 ==> |r| == 2
    ensures AllDigits(r) && DigitsValue(r) == n
  {
    NatToStringRoundTrip(n);
    NatToStringLength(n);
    if n < 10 then
      var r := "0" + NatToString(n);
      assert r[..1] == "0";
      r
    else NatToString(n)
  }

  /** JavaScript `s.split(sep)` for a one-character separator. */
  function Split(s: string, sep: char): (parts: seq<string>)
    ensures |parts| >= 1
  {
    if s == [] then [[]]
    else
      var rest := Split(s[1..], sep);
      if s[0] == sep then [[]] + rest else [[s[0]] + rest[0]] + rest[1..]
  }

  /** A piece without the separator, then the separator, comes out of `split` as one part. */
  lemma {:induction false} SplitAfter(a: string, sep: char, rest: string)
    requires sep !in a
    ensures Split(a + [sep] + rest, sep) == [a] + Split(rest, sep)
  {
    if a != [] {
      assert (a + [sep] + rest)[1..] == a[1..] + [sep] + rest;
      SplitAfter(a[1..], sep, rest);
      assert [a[0]] + a[1..] == a;
    } else {
      assert (a + [sep] + rest)[1..] == rest;
    }
  }

  /** A string without the separator is split into itself alone. */
  lemma {:induction false} SplitNone(a: string, sep: char)
    requires sep !in a
    ensures Split(a, sep) == [a]
  {
    if a != [] {
      SplitNone(a[1..], sep);
      assert [a[0]] + a[1..] == a;
    }
  }

  /** JavaScript `parts.join(sep)`. */
  function Join(parts: seq<string>, sep: char): string {
    if |parts| == 0 then ""
    else if |parts| == 1 then parts[0]
    else parts[0] + [sep] + Join(parts[1..], sep)
  }

  /** Joining non-empty lists of separator-free parts is undone by `split`. */
  lemma {:induction false} SplitJoin(parts: seq<string>, sep: char)
    requires |parts| >= 1
    requires forall i :: 0 <= i < |parts| ==> sep !in parts[i]
    ensures Split(Join(parts, sep), sep) == parts
  {
    if |parts| == 1 {
      SplitNone(parts[0], sep);
    } else {
      SplitJoin(parts[1..], sep);
      SplitAfter(parts[0], sep, Join(parts[1..], sep));
    }
  }
}
