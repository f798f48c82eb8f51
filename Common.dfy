/** Stand-ins for the pieces of the .NET base library the core relies on:
    nullable values, thrown exceptions as results, Unicode white space,
    case folding, UTF-8 and decimal formatting of integers. */
module Common {

  /** A nullable reference: None is C#'s null. */
  datatype Option<+T> = None | Some(value: T)

  /** The .NET exception types the core throws itself. */
  datatype Thrown =
    | ArgumentNull(paramName: string)
    | ArgumentOutOfRange(paramName: string)
    | Argument(message: string)
    | NullReference
    | InvalidOperation(message: string)

  /** An operation that either returns a value or throws. */
  datatype Result<+T> = Success(value: T) | Failure(error: Thrown)

  // ---------------------------------------------------------------------------
  // White space and blank strings
  // ---------------------------------------------------------------------------

  /** The characters for which char.IsWhiteSpace holds (and which `\s` matches
      in a .NET regular expression): the Unicode separators Zs, Zl and Zp plus
      U+0009 to U+000D and U+0085. */
  predicate IsWhiteSpace(c: char)
  {
    ('\t' <= c <= '\r') || c == ' ' || c == '\U{85}' || c == '\U{A0}' || c == '\U{1680}'
    || ('\U{2000}' <= c <= '\U{200A}') || c == '\U{2028}' || c == '\U{2029}'
    || c == '\U{202F}' || c == '\U{205F}' || c == '\U{3000}'
  }

  /** string.IsNullOrWhiteSpace. */
  predicate IsNullOrWhiteSpace(s: Option<string>)
  {
    s.None? || forall i :: 0 <= i < |s.value| ==> IsWhiteSpace(s.value[i])
  }

  /** string.IsNullOrEmpty. */
  predicate IsNullOrEmpty(s: Option<string>)
  {
    s.None? || s.value == ""
  }

  // ---------------------------------------------------------------------------
  // Case folding (culture tables are not modelled: ASCII letters only)
  // ---------------------------------------------------------------------------

  function FoldChar(c: char): (d: char)
    ensures !('A' <= d <= 'Z')
    ensures 'a' <= c <= 'z' ==> d == c
  {
    if 'A' <= c <= 'Z' then (c as int + 32) as char else c
  }

  /** ToLowerInvariant, and the key of every ignore-case comparison. */
  function Fold(s: string): (r: string)
    ensures |r| == |s|
    ensures forall i :: 0 <= i < |s| ==> r[i] == FoldChar(s[i])
  {
    seq(|s|, i requires 0 <= i < |s| => FoldChar(s[i]))
  }

  lemma {:induction false} FoldIdempotent(s: string)
    ensures Fold(Fold(s)) == Fold(s)
  {
    var f := Fold(s);
    assert forall i :: 0 <= i < |f| ==> FoldChar(f[i]) == f[i];
  }

  /** Folding leaves a text without upper-case ASCII letters as it is. */
  lemma FoldNoUpper(s: string)
    requires forall i :: 0 <= i < |s| ==> !('A' <= s[i] <= 'Z')
    ensures Fold(s) == s
  {
  }

  /** `sub` occurs in `s` at position i. */
  predicate OccursAt(s: string, sub: string, i: int)
  {
    0 <= i <= |s| - |sub| && s[i..i + |sub|] == sub
  }

  /** Ordinal substring test, string.Contains. */
  predicate ContainsSubstring(s: string, sub: string)
  {
    exists i | 0 <= i <= |s| - |sub| :: OccursAt(s, sub, i)
  }

  /** A C# long. */
  newtype int64 = x: int | -0x8000_0000_0000_0000 <= x < 0x8000_0000_0000_0000

  /** Two's-complement wrap-around to 64 bits. */
  function Wrap64(x: int): (r: int64)
    ensures -0x8000_0000_0000_0000 <= x < 0x8000_0000_0000_0000 ==> r as int == x
  {
    ((x + 0x8000_0000_0000_0000) % 0x1_0000_0000_0000_0000 - 0x8000_0000_0000_0000) as int64
  }

  /** Wrapping after each step is wrapping once at the end. */
  lemma Wrap64Step(x: int)
    ensures Wrap64(Wrap64(x) as int + 1) == Wrap64(x + 1)
  {
    var m := 0x1_0000_0000_0000_0000;
    var h := 0x8000_0000_0000_0000;
    var q := (x + h) / m;
    assert x + h == m * q + (x + h) % m;
    assert Wrap64(x) as int + 1 + h == (x + h) % m + 1;
    assert x + 1 + h == m * q + ((x + h) % m + 1);
  }

  /** Fewer than 2^64 steps apart, two counts wrap to different values. */
  lemma Wrap64Distinct(i: int, j: int)
    requires 0 < j - i < 0x1_0000_0000_0000_0000
    ensures Wrap64(i) != Wrap64(j)
  {
    var m := 0x1_0000_0000_0000_0000;
    var h := 0x8000_0000_0000_0000;
    assert i + h == m * ((i + h) / m) + (i + h) % m;
    assert j + h == m * ((j + h) / m) + (j + h) % m;
  }

  // ---------------------------------------------------------------------------
  // UTF-8 (RFC 3629); a char is a Unicode scalar value
  // ---------------------------------------------------------------------------

  newtype byte = x: int | 0 <= x < 256

  /** A C# int. */
  newtype int32 = x: int | -0x8000_0000 <= x < 0x8000_0000

  /** Two's-complement wrap-around of an unbounded integer to 32 bits: the
      value C#'s unchecked int arithmetic produces. */
  function Wrap32(x: int): (r: int32)
    ensures (r as int - x) % 0x1_0000_0000 == 0
    ensures -0x8000_0000 <= x < 0x8000_0000 ==> r as int == x
  {
    var m := x % 0x1_0000_0000;
    (if m < 0x8000_0000 then m else m - 0x1_0000_0000) as int32
  }

  /** The UTF-8 encoding of one scalar value: one to four bytes. */
  function CharUtf8(c: char): (r: seq<byte>)
    ensures 1 <= |r| <= 4
    ensures (|r| == 1) <==> (c as int < 0x80)
  {
    var n := c as int;
    if n < 0x80 then [n as byte]
    else if n < 0x800 then [(0xC0 + n / 64) as byte, (0x80 + n % 64) as byte]
    else if n < 0x10000 then
      [(0xE0 + n / 4096) as byte, (0x80 + (n / 64) % 64) as byte, (0x80 + n % 64) as byte]
    else
      [(0xF0 + n / 262144) as byte, (0x80 + (n / 4096) % 64) as byte,
       (0x80 + (n / 64) % 64) as byte, (0x80 + n % 64) as byte]
  }

  /** Encoding.UTF8.GetBytes. */
  function Utf8(s: string): (r: seq<byte>)
    ensures |r| >= |s|
  {
    if s == [] then [] else CharUtf8(s[0]) + Utf8(s[1..])
  }

  lemma {:induction false} Utf8Append(a: string, b: string)
    ensures Utf8(a + b) == Utf8(a) + Utf8(b)
  {
    if a == [] {
      assert a + b == b;
    } else {
      assert (a + b)[1..] == a[1..] + b;
      Utf8Append(a[1..], b);
    }
  }

  /** The encoding of a prefix is a prefix of the encoding. */
  lemma Utf8Prefix(s: string, k: nat)
    requires k <= |s|
    ensures Utf8(s[..k]) <= Utf8(s)
    ensures |Utf8(s[..k])| <= |Utf8(s)|
  {
    assert s == s[..k] + s[k..];
    Utf8Append(s[..k], s[k..]);
  }

  /** The UTF-8 replacement character, U+FFFD. */
  const ReplacementChar: char := '\U{FFFD}'

  // ---------------------------------------------------------------------------
  // Decimal formatting of integers
  // ---------------------------------------------------------------------------

  function DigitChar(d: nat): (c: char)
    requires d < 10
    ensures '0' <= c <= '9'
  {
    ('0' as int + d) as char
  }

  predicate IsDigits(s: string)
  {
    forall i :: 0 <= i < |s| ==> '0' <= s[i] <= '9'
  }

  /** The number a string of decimal digits denotes. */
  function DigitsValue(s: string): nat
    requires IsDigits(s)
  {
    if s == [] then 0 else DigitsValue(s[..|s| - 1]) * 10 + (s[|s| - 1] as int - '0' as int)
  }

  /** The shortest decimal form of n, as n.ToString() writes it. */
  function NatDecimal(n: nat): (r: string)
    ensures IsDigits(r) && |r| >= 1
  {
    if n < 10 then [DigitChar(n)] else NatDecimal(n / 10) + [DigitChar(n % 10)]
  }

  lemma {:induction false} NatDecimalValue(n: nat)
    ensures DigitsValue(NatDecimal(n)) == n
  {
    var r := NatDecimal(n);
    if n >= 10 {
      NatDecimalValue(n / 10);
      assert r[..|r| - 1] == NatDecimal(n / 10);
    }
  }

  /** long.ToString(): an optional minus sign, then the decimal digits. */
  function IntDecimal(n: int): (r: string)
    ensures |r| >= 1
    ensures '|' !in r
  {
    if n < 0 then "-" + NatDecimal(-n) else NatDecimal(n)
  }

  /** int.Parse of what IntDecimal writes. */
  function ParseIntDecimal(s: string): int
    requires |s| >= 1 && (s[0] == '-' ==> IsDigits(s[1..])) && (s[0] != '-' ==> IsDigits(s))
  {
    if s[0] == '-' then 0 - DigitsValue(s[1..]) as int else DigitsValue(s)
  }

  lemma IntDecimalRoundTrip(n: int)
    ensures ParseIntDecimal(IntDecimal(n)) == n
  {
    var r := IntDecimal(n);
    if n < 0 {
      assert r[1..] == NatDecimal(-n);
      NatDecimalValue(-n);
    } else {
      NatDecimalValue(n);
    }
  }

  /** Decimal formatting is injective, so a number can be read back from it. */
  lemma IntDecimalInjective(m: int, n: int)
    requires IntDecimal(m) == IntDecimal(n)
    ensures m == n
  {
    IntDecimalRoundTrip(m);
    IntDecimalRoundTrip(n);
  }

  function Pow10(w: nat): (p: nat)
    ensures p >= 1
  {
    if w == 0 then 1 else 10 * Pow10(w - 1)
  }

  /** The low w decimal digits of n, zero-padded to exactly w characters
      (the "D<w>" format of a number below 10^w). */
  function FixedDigits(n: nat, w: nat): (r: string)
    ensures |r| == w && IsDigits(r)
  {
    if w == 0 then [] else FixedDigits(n / 10, w - 1) + [DigitChar(n % 10)]
  }

  lemma {:induction false} FixedDigitsValue(n: nat, w: nat)
    requires n < Pow10(w)
    ensures DigitsValue(FixedDigits(n, w)) == n
  {
    if w > 0 {
      var r := FixedDigits(n, w);
      FixedDigitsValue(n / 10, w - 1);
      assert r[..|r| - 1] == FixedDigits(n / 10, w - 1);
    }
  }

  function Zeros(k: nat): (r: string)
    ensures |r| == k && forall i :: 0 <= i < k ==> r[i] == '0'
  {
    if k == 0 then [] else Zeros(k - 1) + "0"
  }

  /** n.ToString("D<w>"): the decimal digits, padded with zeros on the left to at least w. */
  function PadDecimal(n: nat, w: nat): string
  {
    var d := NatDecimal(n);
    if |d| < w then Zeros(w - |d|) + d else d
  }

  lemma {:induction false} FixedDigitsOfZero(k: nat)
    ensures FixedDigits(0, k) == Zeros(k)
  {
    if k > 0 {
      FixedDigitsOfZero(k - 1);
    }
  }

  /** Below 10^w (and for w at least one), the padded form is exactly w digits. */
  lemma {:induction false} PadDecimalIsFixed(n: nat, w: nat)
    requires w >= 1 && n < Pow10(w)
    ensures PadDecimal(n, w) == FixedDigits(n, w)
  {
    if n < 10 {
      FixedDigitsOfZero(w - 1);
      assert n / 10 == 0 && n % 10 == n;
    } else {
      PadDecimalIsFixed(n / 10, w - 1);
      var d := NatDecimal(n / 10);
      assert NatDecimal(n) == d + [DigitChar(n % 10)];
      if |d| + 1 < w {
        assert PadDecimal(n, w) == Zeros(w - 1 - |d|) + d + [DigitChar(n % 10)];
      }
    }
  }

  /** Ordinal (code point by code point) strict order on strings. */
  predicate LexLess(a: string, b: string)
  {
    exists k :: 0 <= k < |a| && k < |b| && a[..k] == b[..k] && a[k] < b[k]
  }

  /** For equal widths, numeric order of the values is ordinal order of the texts. */
  lemma {:induction false} FixedDigitsOrder(m: nat, n: nat, w: nat)
    requires m < n < Pow10(w)
    ensures LexLess(FixedDigits(m, w), FixedDigits(n, w))
  {
    var a, b := FixedDigits(m, w), FixedDigits(n, w);
    assert w > 0;
    if m / 10 < n / 10 {
      FixedDigitsOrder(m / 10, n / 10, w - 1);
      var a', b' := FixedDigits(m / 10, w - 1), FixedDigits(n / 10, w - 1);
      var k :| 0 <= k < |a'| && k < |b'| && a'[..k] == b'[..k] && a'[k] < b'[k];
      assert a[..k] == a'[..k] && b[..k] == b'[..k];
      assert a[k] == a'[k] && b[k] == b'[k];
    } else {
      assert m / 10 == n / 10 && m % 10 < n % 10;
      var k := w - 1;
      assert a[..k] == b[..k];
      assert a[k] == DigitChar(m % 10) && b[k] == DigitChar(n % 10);
    }
  }
}
