/** The parts of the C library's formatted I/O that the chat wire format relies
    on: `isspace` in the "C" locale, `%i` rendering (sprintf) and scanning
    (sscanf), the `%s` token and the `%W[^\n]` scanset. Only decimal `%i`
    input is covered: a leading `0` (octal) or `0x` (hexadecimal) prefix and
    values outside the range of a 32-bit `int` are outside the model and scan
    as "no match". */
module CFormat {
  import opened Wrappers

  /** `isspace` in the "C" locale: space, \t, \n, \v, \f, \r. */
  predicate IsSpace(c: char) {
    c == ' ' || c == '\t' || c == '\n' || c == '\U{B}' || c == '\U{C}' || c == '\r'
  }

  predicate IsDigit(c: char) { '0' <= c <= '9' }

  /** The character classes the conversions scan over. */
  datatype CharClass = Space | NonSpace | NonNewline | Digit

  predicate InClass(c: char, k: CharClass) {
    match k
    case Space => IsSpace(c)
    case NonSpace => !IsSpace(c)
    case NonNewline => c != '\n'
    case Digit => IsDigit(c)
  }

  predicate AllSpace(s: string) { forall i :: 0 <= i < |s| ==> IsSpace(s[i]) }

  predicate NoSpace(s: string) { forall i :: 0 <= i < |s| ==> !IsSpace(s[i]) }

  predicate NoNewline(s: string) { forall i :: 0 <= i < |s| ==> s[i] != '\n' }

  predicate AllDigits(s: string) { forall i :: 0 <= i < |s| ==> IsDigit(s[i]) }

  const INT_MIN: int := -0x8000_0000
  const INT_MAX: int := 0x7FFF_FFFF

  /** The values a C `int` holds on the platforms the program targets. */
  predicate IsInt32(x: int) { INT_MIN <= x <= INT_MAX }

  /** The number of values a C `int` holds. */
  const INT_RANGE: int := 0x1_0000_0000

  /** A product computed in C `int` arithmetic: the value congruent to the
      exact one that a 32-bit two's-complement `int` holds. Negating
      INT_MIN is the one case the program can reach, and it yields INT_MIN. */
  function Wrap32(x: int): (r: int)
    ensures IsInt32(r)
    ensures (r - x) % INT_RANGE == 0
    ensures IsInt32(x) ==> r == x
  {
    (x - INT_MIN) % INT_RANGE + INT_MIN
  }

  /** `-1 * x` on a C `int`: the exact negation, except for INT_MIN, whose
      negation does not fit and comes back as INT_MIN. */
  function Negate32(x: int): (r: int)
    ensures IsInt32(x) ==> IsInt32(r)
    ensures INT_MIN < x ==> r + x == 0
  {
    if x == INT_MIN then INT_MIN else -x
  }

  /** Negation as above is the exact negation wrapped into a 32-bit `int`. */
  lemma NegateWraps(x: int)
    requires IsInt32(x)
    ensures Negate32(x) == Wrap32(-x)
  {
  }

  function DigitChar(d: nat): (c: char)
    requires d < 10
    ensures IsDigit(c)
  {
    ('0' as int + d) as char
  }

  function DigitValue(c: char): (d: nat)
    requires IsDigit(c)
    ensures d < 10
  {
    c as int - '0' as int
  }

  /** The value of a string of decimal digits, most significant digit first. */
  function DecimalValue(s: string): nat
    requires AllDigits(s)
  {
    if s == [] then 0 else DecimalValue(s[..|s| - 1]) * 10 + DigitValue(s[|s| - 1])
  }

  function Pow10(k: nat): nat {
    if k == 0 then 1 else 10 * Pow10(k - 1)
  }

  /** `%i` rendering of a non-negative value: decimal digits without sign
      and without a leading zero; reading the digits back gives the value. */
  function NatToDecimal(n: nat): (s: string)
    ensures |s| >= 1 && AllDigits(s)
    ensures DecimalValue(s) == n
    ensures s[0] == '0' ==> n == 0 && |s| == 1
    decreases n
  {
    if n < 10 then
      [DigitChar(n)]
    else
      var high := NatToDecimal(n / 10);
      var s := high + [DigitChar(n % 10)];
      assert s[..|s| - 1] == high;
      s
  }

  lemma {:induction false} DecimalLength(n: nat, k: nat)
    requires 1 <= k && n < Pow10(k)
    ensures |NatToDecimal(n)| <= k
    decreases k
  {
    if n >= 10 {
      DecimalLength(n / 10, k - 1);
    }
  }

  /** `sprintf("%i", x)`. */
  function IntToDecimal(x: int): (s: string)
    ensures |s| >= 1 && (s[0] == '-' <==> x < 0)
  {
    if x < 0 then "-" + NatToDecimal(-x) else NatToDecimal(x)
  }

  /** An `int` renders in at most 11 characters: a sign and ten digits. */
  lemma IntToDecimalLength(x: int)
    requires IsInt32(x)
    ensures |IntToDecimal(x)| <= 11
  {
    assert Pow10(10) == 10_000_000_000;
    DecimalLength(if x < 0 then -x else x, 10);
  }

  /** Splits `s` before its first character outside the class `k`: the
      longest prefix made only of characters of class `k`, and what follows it. */
  function Span(s: string, k: CharClass): (r: (string, string))
    ensures r.0 + r.1 == s
    ensures forall i :: 0 <= i < |r.0| ==> InClass(r.0[i], k)
    ensures r.1 == [] || !InClass(r.1[0], k)
  {
    if s != [] && InClass(s[0], k) then
      var t := Span(s[1..], k);
      var r := ([s[0]] + t.0, t.1);
      assert r.0 + r.1 == [s[0]] + (t.0 + t.1);
      assert forall i :: 1 <= i < |r.0| ==> r.0[i] == t.0[i - 1];
      r
    else
      ([], s)
  }

  /** The split `Span` makes is the only one with its three properties. */
  lemma {:induction false} SpanOf(a: string, b: string, k: CharClass)
    requires forall i :: 0 <= i < |a| ==> InClass(a[i], k)
    requires b == [] || !InClass(b[0], k)
    ensures Span(a + b, k) == (a, b)
  {
    if a != [] {
      assert (a + b)[0] == a[0] && InClass(a[0], k);
      assert (a + b)[1..] == a[1..] + b;
      SpanOf(a[1..], b, k);
      assert Span(a + b, k) == ([a[0]] + Span(a[1..] + b, k).0, Span(a[1..] + b, k).1);
      assert [a[0]] + a[1..] == a;
    } else {
      assert a + b == b;
    }
  }

  /** The whitespace skip of a " " directive, and of `%i` and `%s` before
      they read. */
  function SkipSpace(s: string): (r: string)
    ensures r == [] || !IsSpace(r[0])
  {
    Span(s, Space).1
  }

  lemma SkipSpaceOf(ws: string, s: string)
    requires AllSpace(ws)
    requires s == [] || !IsSpace(s[0])
    ensures SkipSpace(ws + s) == s
  {
    SpanOf(ws, s, Space);
  }

  /** `%W[^\n]`: at most `width` characters up to, not including, the first
      newline. */
  function SpanLine(s: string, width: nat): (r: (string, string))
    ensures r.0 + r.1 == s
    ensures |r.0| <= width && NoNewline(r.0)
    ensures |r.0| == width || r.1 == [] || r.1[0] == '\n'
  {
    var t := Span(s, NonNewline);
    if |t.0| <= width then
      t
    else
      assert t.0[..width] + (t.0[width..] + t.1) == s;
      (t.0[..width], t.0[width..] + t.1)
  }

  lemma SpanLineOf(line: string, tail: string, width: nat)
    requires NoNewline(line) && |line| <= width
    requires |line| == width || tail == [] || tail[0] == '\n'
    ensures SpanLine(line + tail, width).0 == line
  {
    if tail == [] || tail[0] == '\n' {
      SpanOf(line, tail, NonNewline);
    } else {
      var a := Span(tail, NonNewline);
      assert line + tail == (line + a.0) + a.1;
      SpanOf(line + a.0, a.1, NonNewline);
      assert (line + a.0)[..width] == line;
    }
  }

  /** A scanned value and the input left after it. */
  datatype Scanned<+T> = Scanned(value: T, rest: string)

  /** `%i` reads `0...` as octal and `0x...` as hexadecimal. */
  predicate RadixPrefix(digits: string, rest: string)
    requires digits != []
  {
    digits[0] == '0' && (|digits| > 1 || (rest != [] && (rest[0] == 'x' || rest[0] == 'X')))
  }

  /** The digits of `%i` after the sign: the longest run of decimal digits
      and its value. None when there is no digit, or when the digits carry
      an octal or hexadecimal prefix. */
  function ScanDigits(u: string): (r: Option<Scanned<nat>>)
    ensures r.Some? ==> r.value.rest == [] || !IsDigit(r.value.rest[0])
  {
    var t := Span(u, Digit);
    if t.0 == [] || RadixPrefix(t.0, t.1) then None else Some(Scanned(DecimalValue(t.0), t.1))
  }

  /** A character that cannot continue a `%i` number, or the end of input. */
  predicate EndsNumber(rest: string) {
    rest == [] || (!IsDigit(rest[0]) && rest[0] != 'x' && rest[0] != 'X')
  }

  lemma ScanDigitsOf(n: nat, rest: string)
    requires EndsNumber(rest)
    ensures ScanDigits(NatToDecimal(n) + rest) == Some(Scanned(n, rest))
  {
    SpanOf(NatToDecimal(n), rest, Digit);
  }

  /** `%i` after its whitespace skip: an optional sign, then the digits.
      None when the digits do not scan or the value does not fit an `int`. */
  function ScanSigned(t: string): (r: Option<Scanned<int>>)
    ensures r.Some? ==> IsInt32(r.value.value)
    ensures r.Some? ==> r.value.rest == [] || !IsDigit(r.value.rest[0])
  {
    var signed := t != [] && (t[0] == '-' || t[0] == '+');
    match ScanDigits(if signed then t[1..] else t)
    case None => None
    case Some(d) =>
      var v: int := if signed && t[0] == '-' then 0 - d.value else d.value;
      if IsInt32(v) then Some(Scanned(v, d.rest)) else None
  }

  /** `%i` on decimal input: optional whitespace, an optional sign, then the
      digits. */
  function ScanInt(s: string): (r: Option<Scanned<int>>)
    ensures r.Some? ==> IsInt32(r.value.value)
    ensures r.Some? ==> r.value.rest == [] || !IsDigit(r.value.rest[0])
  {
    ScanSigned(SkipSpace(s))
  }

  /** A minus sign followed by the digits of a magnitude scans to its
      negation. */
  lemma ScanSignedMinus(t: string, n: nat, rest: string)
    requires 1 <= n <= -INT_MIN && EndsNumber(rest)
    requires t != [] && t[0] == '-' && t[1..] == NatToDecimal(n) + rest
    ensures ScanSigned(t) == Some(Scanned(0 - n, rest))
  {
    ScanDigitsOf(n, rest);
  }

  /** The text of a negative value is a minus sign and the digits of its
      magnitude. */
  lemma NegativeText(x: int, rest: string)
    requires x < 0
    ensures (IntToDecimal(x) + rest)[0] == '-'
    ensures (IntToDecimal(x) + rest)[1..] == NatToDecimal(-x) + rest
  {
    assert IntToDecimal(x) == "-" + NatToDecimal(-x);
  }

  /** The text `%i` rendered for a value scans back to it. */
  lemma ScanSignedOf(x: int, rest: string)
    requires IsInt32(x) && EndsNumber(rest)
    ensures ScanSigned(IntToDecimal(x) + rest) == Some(Scanned(x, rest))
  {
    if x < 0 {
      NegativeText(x, rest);
      ScanSignedMinus(IntToDecimal(x) + rest, -x, rest);
    } else {
      var t := IntToDecimal(x) + rest;
      assert t == NatToDecimal(x) + rest;
      ScanDigitsOf(x, rest);
      assert t[0] == NatToDecimal(x)[0] && IsDigit(t[0]);
    }
  }

  /** `%i` reads back what `sprintf("%i")` wrote, after any leading
      whitespace, when the next character does not extend the number. */
  lemma ScanIntOf(ws: string, x: int, rest: string)
    requires AllSpace(ws) && IsInt32(x) && EndsNumber(rest)
    ensures ScanInt(ws + (IntToDecimal(x) + rest)) == Some(Scanned(x, rest))
  {
    SkipSpaceOf(ws, IntToDecimal(x) + rest);
    ScanSignedOf(x, rest);
  }
}
