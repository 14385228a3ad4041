/**
  The text formatting the poster relies on, written out over `string`:
  Python's `str(n)` for a non-negative integer, the zero-padded `'%0Nd'`,
  the eight-digit lower-case `'%08x'`, the 32-bit mask `& (2**32 - 1)`,
  and one-argument `%`-interpolation of a subject template.
  Each rendering comes with the parser it is the inverse of.
*/
module Formats {
  import opened Results

  const CRLF: string := "\r\n"

  // ---------------------------------------------------------------------
  // Decimal numbers

  predicate IsDigit(c: char) { '0' <= c <= '9' }

  predicate AllDigits(s: string) { forall i :: 0 <= i < |s| ==> IsDigit(s[i]) }

  function DigitChar(d: nat): (c: char)
    requires d < 10
    ensures IsDigit(c)
  {
    ('0' as int + d) as char
  }

  function DigitValue(c: char): nat
    requires IsDigit(c)
  {
    c as int - '0' as int
  }

  /** Python's `str(n)` (equivalently `'%d' % n`) for n >= 0. */
  function Decimal(n: nat): (s: string)
    ensures 1 <= |s| && AllDigits(s)
    ensures n > 0 ==> s[0] != '0'
    ensures n < 10 <==> |s| == 1
  {
    if n < 10 then [DigitChar(n)] else Decimal(n / 10) + [DigitChar(n % 10)]
  }

  /** The value of a run of decimal digits, most significant first; leading zeros are allowed. */
  function DigitsValue(s: string): nat
    requires AllDigits(s)
  {
    if s == [] then 0 else DigitsValue(s[..|s| - 1]) * 10 + DigitValue(s[|s| - 1])
  }

  /** Reads back a decimal number: a non-empty run of digits. */
  function ParseDecimal(s: string): (r: Option<nat>)
    ensures r.Some? <==> s != [] && AllDigits(s)
  {
    if s != [] && AllDigits(s) then Some(DigitsValue(s)) else None
  }

  lemma {:induction false} DecimalRoundTrip(n: nat)
    ensures ParseDecimal(Decimal(n)) == Some(n)
  {
    if n >= 10 {
      DecimalRoundTrip(n / 10);
      var s := Decimal(n);
      assert s[..|s| - 1] == Decimal(n / 10);
      assert DigitValue(s[|s| - 1]) == n % 10;
      assert DigitsValue(s) == (n / 10) * 10 + n % 10;
    } else {
      assert DigitValue(DigitChar(n)) == n;
      assert Decimal(n)[..0] == [];
    }
  }

  /** A larger number never has fewer decimal digits. */
  lemma {:induction false} DecimalLengthMonotone(n: nat, m: nat)
    requires n <= m
    ensures |Decimal(n)| <= |Decimal(m)|
  {
    if n >= 10 {
      DecimalLengthMonotone(n / 10, m / 10);
    }
  }

  // ---------------------------------------------------------------------
  // Zero padding: '%0Nd'

  function Zeros(k: nat): (z: string)
    ensures |z| == k && forall i :: 0 <= i < k ==> z[i] == '0'
  {
    if k == 0 then [] else Zeros(k - 1) + ['0']
  }

  /** Left-pads `s` with '0' up to `width` characters; longer strings are left alone. */
  function ZeroPad(s: string, width: nat): (r: string)
    ensures |r| == if |s| < width then width else |s|
    ensures r[|r| - |s|..] == s
    ensures forall i :: 0 <= i < |r| - |s| ==> r[i] == '0'
  {
    if |s| < width then Zeros(width - |s|) + s else s
  }

  /** Python's `('%%0%sd' % width) % n` for n >= 0. */
  function PaddedDecimal(n: nat, width: nat): (r: string)
    ensures AllDigits(r) && |r| == if |Decimal(n)| < width then width else |Decimal(n)|
  {
    ZeroPad(Decimal(n), width)
  }

  lemma {:induction false} LeadingZerosValue(k: nat, s: string)
    requires AllDigits(s)
    ensures AllDigits(Zeros(k) + s)
    ensures DigitsValue(Zeros(k) + s) == DigitsValue(s)
  {
    if s == [] {
      assert Zeros(k) + s == Zeros(k);
      if k > 0 {
        assert Zeros(k)[..k - 1] == Zeros(k - 1) + s;
        LeadingZerosValue(k - 1, s);
      }
    } else {
      var t := Zeros(k) + s;
      assert t[..|t| - 1] == Zeros(k) + s[..|s| - 1];
      LeadingZerosValue(k, s[..|s| - 1]);
    }
  }

  /** A zero-padded number reads back as the number, whatever the width. */
  lemma PaddedDecimalRoundTrip(n: nat, width: nat)
    ensures ParseDecimal(PaddedDecimal(n, width)) == Some(n)
  {
    DecimalRoundTrip(n);
    var s := Decimal(n);
    if |s| < width {
      LeadingZerosValue(width - |s|, s);
    }
  }

  /**
    All numbers 1..k padded to the width of `str(k)` have that same width,
    so the file numbers of one directory line up.
  */
  lemma PaddedDecimalWidth(n: nat, k: nat)
    requires n <= k
    ensures |PaddedDecimal(n, |Decimal(k)|)| == |Decimal(k)|
    ensures AllDigits(PaddedDecimal(n, |Decimal(k)|))
  {
    DecimalLengthMonotone(n, k);
    ZeroPadDigits(Decimal(n), |Decimal(k)|);
  }

  /** Padding a run of digits to at least its own length gives a run of digits of exactly that width. */
  lemma ZeroPadDigits(s: string, w: nat)
    requires |s| <= w && AllDigits(s)
    ensures |ZeroPad(s, w)| == w && AllDigits(ZeroPad(s, w))
  {
    if |s| < w {
      LeadingZerosValue(w - |s|, s);
    }
  }

  // ---------------------------------------------------------------------
  // Hexadecimal: '%08x' and the 32-bit mask

  const TWO_TO_32: nat := 0x1_0000_0000

  /** Python's `x & (2**32 - 1)`: the low 32 bits of an arbitrary-precision integer. */
  function Mask32(x: int): (r: nat)
    ensures r < TWO_TO_32
    ensures 0 <= x < TWO_TO_32 ==> r == x
    ensures -0x8000_0000 <= x < 0 ==> r == x + TWO_TO_32
    ensures (x - r) % TWO_TO_32 == 0
  {
    x % TWO_TO_32
  }

  predicate IsHexDigit(c: char) { '0' <= c <= '9' || 'a' <= c <= 'f' }

  function HexChar(d: nat): (c: char)
    requires d < 16
    ensures IsHexDigit(c)
  {
    if d < 10 then ('0' as int + d) as char else ('a' as int + (d - 10)) as char
  }

  function HexValue(c: char): nat
    requires IsHexDigit(c)
  {
    if c <= '9' then c as int - '0' as int else c as int - 'a' as int + 10
  }

  function Pow16(k: nat): nat
  {
    if k == 0 then 1 else 16 * Pow16(k - 1)
  }

  /** The last `k` hexadecimal digits of `x`, most significant first, lower case. */
  function HexDigits(x: nat, k: nat): (s: string)
    ensures |s| == k && forall i :: 0 <= i < k ==> IsHexDigit(s[i])
  {
    if k == 0 then [] else HexDigits(x / 16, k - 1) + [HexChar(x % 16)]
  }

  /** Python's `'%08x' % x` for a value already masked to 32 bits. */
  function Hex8(x: nat): (r: string)
    requires x < TWO_TO_32
    ensures |r| == 8 && forall i :: 0 <= i < 8 ==> IsHexDigit(r[i])
  {
    HexDigits(x, 8)
  }

  function HexDigitsValue(s: string): nat
    requires forall i :: 0 <= i < |s| ==> IsHexDigit(s[i])
  {
    if s == [] then 0 else HexDigitsValue(s[..|s| - 1]) * 16 + HexValue(s[|s| - 1])
  }

  /** Reads back exactly eight lower-case hexadecimal digits. */
  function ParseHex8(s: string): (r: Option<nat>)
    ensures r.Some? <==> |s| == 8 && forall i :: 0 <= i < 8 ==> IsHexDigit(s[i])
  {
    if |s| == 8 && forall i :: 0 <= i < 8 ==> IsHexDigit(s[i]) then Some(HexDigitsValue(s)) else None
  }

  lemma {:induction false} HexDigitsRoundTrip(x: nat, k: nat)
    requires x < Pow16(k)
    ensures HexDigitsValue(HexDigits(x, k)) == x
  {
    if k > 0 {
      HexDigitsRoundTrip(x / 16, k - 1);
      var s := HexDigits(x, k);
      assert s[..k - 1] == HexDigits(x / 16, k - 1);
      assert HexValue(s[k - 1]) == x % 16;
    }
  }

  lemma Hex8RoundTrip(x: nat)
    requires x < TWO_TO_32
    ensures ParseHex8(Hex8(x)) == Some(x)
  {
    assert Pow16(8) == TWO_TO_32;
    HexDigitsRoundTrip(x, 8);
  }

  // ---------------------------------------------------------------------
  // One-argument %-interpolation: `template % (arg)`

  /** How Python's `%` operator refuses a template (TypeError or ValueError). */
  datatype FormatError =
    | IncompleteFormat            // a lone '%' at the end
    | UnsupportedFormat(c: char)  // a conversion this model does not render
    | NotEnoughArguments          // a second conversion with only one argument
    | NotAllConverted             // the argument was never used

  /**
    `t % (x)` where `arg` is the text of x: "%%" stands for '%', and "%s" or
    "%d" take the one argument; `used` says whether it has been taken.
  */
  function Interpolate(t: string, arg: string, used: bool): Result<string, FormatError>
    decreases |t|
  {
    if t == [] then
      (if used then Ok([]) else Err(NotAllConverted))
    else if t[0] != '%' then
      Prepend([t[0]], Interpolate(t[1..], arg, used))
    else if |t| == 1 then
      Err(IncompleteFormat)
    else if t[1] == '%' then
      Prepend("%", Interpolate(t[2..], arg, used))
    else if t[1] == 's' || t[1] == 'd' then
      (if used then Err(NotEnoughArguments) else Prepend(arg, Interpolate(t[2..], arg, true)))
    else
      Err(UnsupportedFormat(t[1]))
  }

  function Prepend(p: string, r: Result<string, FormatError>): Result<string, FormatError>
  {
    match r
    case Ok(s) => Ok(p + s)
    case Err(e) => Err(e)
  }

  lemma PrependNothing(r: Result<string, FormatError>)
    ensures Prepend([], r) == r
  {
    if r.Ok? {
      assert [] + r.value == r.value;
    }
  }

  lemma PrependPrepend(a: string, b: string, r: Result<string, FormatError>)
    ensures Prepend(a, Prepend(b, r)) == Prepend(a + b, r)
  {
    if r.Ok? {
      assert a + (b + r.value) == (a + b) + r.value;
    }
  }

  /** Doubles every '%', so that the text survives interpolation unchanged. */
  function Escape(s: string): (r: string)
    ensures '%' !in s ==> r == s
  {
    if s == [] then [] else (if s[0] == '%' then "%%" else [s[0]]) + Escape(s[1..])
  }

  /** Text without '%' passes through interpolation literally. */
  lemma {:induction false} InterpolateLiteral(lit: string, rest: string, arg: string, used: bool)
    requires '%' !in lit
    ensures Interpolate(lit + rest, arg, used) == Prepend(lit, Interpolate(rest, arg, used))
  {
    if lit == [] {
      assert lit + rest == rest;
      PrependNothing(Interpolate(rest, arg, used));
    } else {
      var t := lit + rest;
      assert lit[0] in lit;
      assert t[0] == lit[0] != '%';
      assert t[1..] == lit[1..] + rest;
      assert forall c :: c in lit[1..] ==> c in lit;
      InterpolateLiteral(lit[1..], rest, arg, used);
      PrependPrepend([lit[0]], lit[1..], Interpolate(rest, arg, used));
      assert [lit[0]] + lit[1..] == lit;
    }
  }

  /** Escaped text comes out of interpolation as the original text. */
  lemma {:induction false} InterpolateEscaped(s: string, rest: string, arg: string, used: bool)
    ensures Interpolate(Escape(s) + rest, arg, used) == Prepend(s, Interpolate(rest, arg, used))
  {
    if s == [] {
      assert Escape(s) + rest == rest;
      PrependNothing(Interpolate(rest, arg, used));
    } else {
      var tail := Escape(s[1..]) + rest;
      InterpolateEscaped(s[1..], rest, arg, used);
      PrependPrepend([s[0]], s[1..], Interpolate(rest, arg, used));
      assert [s[0]] + s[1..] == s;
      if s[0] == '%' {
        var t := "%%" + tail;
        assert Escape(s) + rest == t;
        assert t[0] == '%' && t[1] == '%' && t[2..] == tail;
      } else {
        var t := [s[0]] + tail;
        assert Escape(s) + rest == t;
        assert t[0] == s[0] && t[1..] == tail;
      }
    }
  }

  /** A "%s" slot takes the argument; the rest must then hold no further slot. */
  lemma InterpolateSlot(rest: string, arg: string)
    ensures Interpolate("%s" + rest, arg, false) == Prepend(arg, Interpolate(rest, arg, true))
  {
    assert ("%s" + rest)[2..] == rest;
  }
}
