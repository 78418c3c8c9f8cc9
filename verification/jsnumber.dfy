/** JavaScript numbers as the application uses them, with exact reals in
    place of IEEE doubles: the special values `Infinity`, `-Infinity` and
    `NaN` that division by zero and failed parses produce, `Math.round`,
    `Math.abs`, `parseFloat`, `Number(string)` and the decimal rendering of
    integers in template strings. */
module JsNumber {
  import opened JsText

  datatype Num = Finite(v: real) | PosInf | NegInf | NaN {
    /** JavaScript truthiness: `0` and `NaN` are falsy. */
    predicate Truthy() {
      (Finite? && v != 0.0) || PosInf? || NegInf?
    }
  }

  /** `x < c` against a finite bound: never true of `NaN`. */
  predicate LessThan(x: Num, c: real) {
    (x.Finite? && x.v < c) || x.NegInf?
  }

  /** `x <= c` against a finite bound: never true of `NaN`. */
  predicate AtMost(x: Num, c: real) {
    (x.Finite? && x.v <= c) || x.NegInf?
  }

  /** Unary minus. */
  function Neg(x: Num): (r: Num)
    ensures r.NaN? <==> x.NaN?
    ensures x.Finite? ==> r.Finite? && r.v + x.v == 0.0
    ensures x.PosInf? <==> r.NegInf?
  {
    match x
    case Finite(v) => Finite(-v)
    case PosInf => NegInf
    case NegInf => PosInf
    case NaN => NaN
  }

  /** `Math.abs`. */
  function Abs(x: Num): (r: Num)
    ensures r.NaN? <==> x.NaN?
    ensures x.Finite? ==> r.Finite? && r.v >= 0.0 && (r.v == x.v || r.v == -x.v)
    ensures !x.Finite? && !x.NaN? ==> r.PosInf?
  {
    match x
    case Finite(v) => Finite(if v < 0.0 then -v else v)
    case NaN => NaN
    case _ => PosInf
  }

  /** `a / b` on two finite operands: division by zero yields a signed
      infinity, or `NaN` for `0 / 0`. */
  function Div(a: real, b: real): (r: Num)
    ensures b != 0.0 ==> r.Finite? && r.v * b == a
    ensures b == 0.0 ==> !r.Finite?
    ensures r.NaN? <==> a == 0.0 && b == 0.0
    ensures r.PosInf? <==> b == 0.0 && a > 0.0
  {
    if b != 0.0 then Finite(a / b)
    else if a > 0.0 then PosInf
    else if a < 0.0 then NegInf
    else NaN
  }

  /** `part / whole * 100` for a positive whole, between 0 and 100 when
      `part` is between 0 and `whole`. */
  function Percent(part: real, whole: real): (r: real)
    requires whole > 0.0
    ensures part >= 0.0 ==> r >= 0.0
    ensures part <= whole ==> r <= 100.0
  {
    PercentBounds(part, whole);
    part / whole * 100.0
  }

  /** The percentage is the `r` with `r` percent of `whole` equal to `part`. */
  lemma PercentOfWhole(part: real, whole: real)
    requires whole > 0.0
    ensures Percent(part, whole) * whole == 100.0 * part
  {
    PercentBounds(part, whole);
  }

  lemma PercentBounds(part: real, whole: real)
    requires whole > 0.0
    ensures part / whole * whole == part
    ensures part >= 0.0 ==> part / whole >= 0.0
    ensures part <= whole ==> part / whole <= 1.0
  {
    if part >= 0.0 { DivNonNegative(part, whole); }
    if part <= whole { DivAtMostOne(part, whole); }
  }

  lemma DivAtMostOne(a: real, b: real)
    requires b > 0.0 && a <= b
    ensures a / b <= 1.0
  {
    assert a / b * b == a;
  }

  /** `x * k` for a positive finite factor. */
  function Scale(x: Num, k: real): (r: Num)
    requires k > 0.0
    ensures x.Finite? ==> r.Finite? && r.v / k == x.v
    ensures !x.Finite? ==> r == x
  {
    match x
    case Finite(v) => Finite(v * k)
    case _ => x
  }

  /** `b + x` with a finite left operand. */
  function AddTo(b: real, x: Num): (r: Num)
    ensures x.Finite? ==> r.Finite? && r.v - b == x.v
    ensures !x.Finite? ==> r == x
  {
    match x
    case Finite(v) => Finite(b + v)
    case _ => x
  }

  /** `Math.round`: the nearest integer, halves rounding up. */
  function Round(x: Num): (r: Num)
    ensures x.Finite? ==> r.Finite? && r.v == r.v.Floor as real
    ensures x.Finite? ==> x.v - 0.5 < r.v <= x.v + 0.5
    ensures !x.Finite? ==> r == x
  {
    match x
    case Finite(v) => Finite((v + 0.5).Floor as real)
    case _ => x
  }

  /** An integer is its own rounding. */
  lemma RoundInteger(n: int)
    ensures Round(Finite(n as real)) == Finite(n as real)
  {
    var k := (n as real + 0.5).Floor;
    assert k as real <= n as real + 0.5 < k as real + 1.0;
    assert k <= n && n <= k;
  }

  // ---------------------------------------------------------------------
  // Decimal digits
  // ---------------------------------------------------------------------

  function Pow10(n: nat): (r: nat)
    ensures r >= 1
  {
    if n == 0 then 1 else 10 * Pow10(n - 1)
  }

  function DigitValue(c: char): (d: nat)
    requires IsDigit(c)
    ensures d < 10
  {
    c as int - '0' as int
  }

  function DigitChar(d: nat): (c: char)
    requires d < 10
    ensures IsDigit(c) && DigitValue(c) == d
  {
    ('0' as int + d) as char
  }

  /** The value of a string of decimal digits, most significant first. */
  function DigitsValue(s: string): (n: nat)
    requires AllDigits(s)
    ensures n < Pow10(|s|)
  {
    if |s| == 0 then 0
    else DigitsValue(s[..|s| - 1]) * 10 + DigitValue(s[|s| - 1])
  }

  lemma DigitsValueAppend(s: string, c: char)
    requires AllDigits(s) && IsDigit(c)
    ensures AllDigits(s + [c])
    ensures DigitsValue(s + [c]) == DigitsValue(s) * 10 + DigitValue(c)
  {
    assert (s + [c])[..|s|] == s;
  }

  /** The shortest decimal rendering of a natural number, as `String(n)` gives it. */
  function NatToString(n: nat): (s: string)
    ensures |s| > 0 && AllDigits(s)
    ensures |s| > 1 ==> s[0] != '0'
    decreases n
  {
    if n < 10 then [DigitChar(n)] else NatToString(n / 10) + [DigitChar(n % 10)]
  }

  /** Reading back the rendering of `n` gives `n`. */
  lemma {:induction false} NatToStringValue(n: nat)
    ensures DigitsValue(NatToString(n)) == n
    decreases n
  {
    if n >= 10 {
      NatToStringValue(n / 10);
      DigitsValueAppend(NatToString(n / 10), DigitChar(n % 10));
    }
  }

  /** A digit string without a leading zero is the rendering of its value. */
  lemma {:induction false} NatToStringOfValue(s: string)
    requires |s| > 0 && AllDigits(s) && (|s| > 1 ==> s[0] != '0')
    ensures NatToString(DigitsValue(s)) == s
    decreases |s|
  {
    var n := DigitsValue(s);
    if |s| == 1 {
      assert n == DigitValue(s[0]);
      assert [DigitChar(n)] == s;
    } else {
      var p := s[..|s| - 1];
      LeadingDigitBound(p);
      assert n >= 10;
      assert n / 10 == DigitsValue(p) && n % 10 == DigitValue(s[|s| - 1]);
      NatToStringOfValue(p);
      assert s == p + [s[|s| - 1]];
    }
  }

  /** A digit string with a non-zero first digit is at least 1. */
  lemma {:induction false} LeadingDigitBound(s: string)
    requires |s| > 0 && AllDigits(s) && s[0] != '0'
    ensures DigitsValue(s) >= 1
    decreases |s|
  {
    if |s| > 1 {
      LeadingDigitBound(s[..|s| - 1]);
    }
  }

  /** `${n}` for an integer `n`. */
  function IntToString(n: int): (s: string)
    ensures |s| > 0
    ensures n >= 0 <==> IsDigit(s[0])
    ensures n < 0 ==> s[0] == '-'
  {
    if n < 0 then "-" + NatToString(-n) else NatToString(n)
  }

  // ---------------------------------------------------------------------
  // Decimal literal scanner shared by parseFloat and Number
  // ---------------------------------------------------------------------

  /** Length of the leading run of digits. */
  function DigitRun(s: string): (n: nat)
    ensures n <= |s|
    ensures AllDigits(s[..n])
    ensures n < |s| ==> !IsDigit(s[n])
  {
    if |s| > 0 && IsDigit(s[0]) then 1 + DigitRun(s[1..]) else 0
  }

  lemma DigitRunAll(s: string)
    requires AllDigits(s)
    ensures DigitRun(s) == |s|
  {
  }

  lemma DivBelowOne(a: real, b: real)
    requires 0.0 <= a < b
    ensures 0.0 <= a / b < 1.0
  {
    assert a / b * b == a;
  }

  lemma MulNonNegative(a: real, b: real)
    requires a >= 0.0 && b >= 0.0
    ensures a * b >= 0.0
  {
  }

  /** `m * 10^e` for any integer exponent. */
  function Exp10(m: real, e: int): (r: real)
    ensures e == 0 ==> r == m
    ensures m >= 0.0 ==> r >= 0.0
  {
    if e >= 0 && m >= 0.0 then
      MulNonNegative(m, Pow10(e) as real);
      m * Pow10(e) as real
    else if e >= 0 then
      m * Pow10(e) as real
    else if m >= 0.0 then
      DivNonNegative(m, Pow10(-e) as real);
      m / Pow10(-e) as real
    else
      m / Pow10(-e) as real
  }

  lemma DivNonNegative(a: real, b: real)
    requires a >= 0.0 && b > 0.0
    ensures a / b >= 0.0
  {
    assert a / b * b == a;
  }

  /** `d.f` read as a decimal: `f` contributes `f / 10^|f|`. */
  function DecimalValue(d: string, f: string): (r: real)
    requires AllDigits(d) && AllDigits(f)
    ensures DigitsValue(d) as real <= r < DigitsValue(d) as real + 1.0
    ensures f == "" ==> r == DigitsValue(d) as real
  {
    DivBelowOne(DigitsValue(f) as real, Pow10(|f|) as real);
    DigitsValue(d) as real + DigitsValue(f) as real / Pow10(|f|) as real
  }

  /** The result of scanning a decimal literal at the front of a string: its
      value and the number of characters it spans. */
  datatype Scan = NoNumber | Scanned(value: Num, len: nat)

  /** An exponent part (`e` or `E`, an optional sign, at least one digit):
      its value and length, or `(0, 0)` when there is none. */
  function ScanExponent(s: string): (r: (int, nat))
    ensures r.1 <= |s|
    ensures r.1 == 0 ==> r.0 == 0
    ensures |s| == 0 || s[0] !in "eE" ==> r == (0, 0)
  {
    if |s| == 0 || s[0] !in "eE" then (0, 0)
    else
      var signLen := if |s| > 1 && s[1] in "+-" then 1 else 0;
      var k := DigitRun(s[1 + signLen..]);
      if k == 0 then (0, 0)
      else
        var e: int := DigitsValue(s[1 + signLen..][..k]);
        (if signLen == 1 && s[1] == '-' then -e else e, 1 + signLen + k)
  }

  /** The fraction digits after the integer digits ending at `i`: the digit
      run after a '.', or nothing when no '.' follows. */
  function FractionDigits(s: string, i: nat): (f: string)
    requires i <= |s|
    ensures AllDigits(f)
    ensures |f| > 0 ==> i < |s| && s[i] == '.' && i + 1 + |f| <= |s|
    ensures i == |s| || s[i] != '.' ==> f == ""
  {
    if i < |s| && s[i] == '.' then s[i + 1..][..DigitRun(s[i + 1..])] else ""
  }

  /** Length of the digits, '.' and fraction digits at the front of `s`. */
  function MantissaLength(s: string): (n: nat)
    ensures DigitRun(s) <= n <= |s|
    ensures n == DigitRun(s) <==> DigitRun(s) == |s| || s[DigitRun(s)] != '.'
  {
    var i := DigitRun(s);
    if i < |s| && s[i] == '.' then i + 1 + |FractionDigits(s, i)| else i
  }

  /** A finite unsigned literal at the front of `s`: digits with an optional
      fraction and exponent, at least one digit before the exponent. */
  function ScanFinite(s: string): (r: Scan)
    ensures r.Scanned? ==> 0 < r.len <= |s| && r.value.Finite? && r.value.v >= 0.0
    ensures |s| > 0 && !IsDigit(s[0]) && s[0] != '.' ==> r.NoNumber?
  {
    var i := DigitRun(s);
    var f := FractionDigits(s, i);
    if i == 0 && |f| == 0 then NoNumber
    else
      var len := MantissaLength(s);
      var ex := ScanExponent(s[len..]);
      Scanned(Finite(Exp10(DecimalValue(s[..i], f), ex.0)), len + ex.1)
  }

  /** The longest prefix of `s` that is an unsigned decimal literal:
      `Infinity` or a finite literal. */
  function ScanUnsigned(s: string): (r: Scan)
    ensures r.Scanned? ==> 0 < r.len <= |s| && !r.value.NaN? && !r.value.NegInf?
    ensures r.Scanned? && r.value.Finite? ==> r.value.v >= 0.0
    ensures |s| > 0 && IsDigit(s[0]) ==> r == ScanFinite(s)
    ensures |s| > 0 && !IsDigit(s[0]) && s[0] !in ".I" ==> r.NoNumber?
  {
    if StartsWith(s, "Infinity") then Scanned(PosInf, 8) else ScanFinite(s)
  }

  /** An optional sign followed by an unsigned literal. */
  function ScanSigned(s: string): (r: Scan)
    ensures r.Scanned? ==> 0 < r.len <= |s| && !r.value.NaN?
    ensures |s| > 0 && IsDigit(s[0]) ==> r == ScanFinite(s)
    ensures |s| > 0 && !IsDigit(s[0]) && s[0] !in ".I+-" ==> r.NoNumber?
  {
    if |s| > 0 && s[0] in "+-" then
      match ScanUnsigned(s[1..])
      case NoNumber => NoNumber
      case Scanned(v, n) => Scanned(if s[0] == '-' then Neg(v) else v, n + 1)
    else ScanUnsigned(s)
  }

  /** `parseFloat(s)`: leading white space is skipped and the longest
      decimal-literal prefix is read; `NaN` when there is none. */
  function ParseFloat(s: string): (r: Num)
    ensures AllSpace(s) ==> r.NaN?
    ensures var t := TrimStart(s); |t| > 0 && !IsDigit(t[0]) && t[0] !in ".I+-" ==> r.NaN?
  {
    match ScanSigned(TrimStart(s))
    case NoNumber => NaN
    case Scanned(v, _) => v
  }

  // ---------------------------------------------------------------------
  // Binary, octal and hexadecimal integer literals
  // ---------------------------------------------------------------------

  /** The radix that the letter after a leading `0` names: `x` for 16, `o`
      for 8, `b` for 2, either case; 0 for any other character. */
  function PrefixRadix(c: char): (r: nat)
    ensures r == 0 || r == 2 || r == 8 || r == 16
    ensures IsDigit(c) || c == '.' || c in "eE" ==> r == 0
  {
    if c in "xX" then 16 else if c in "oO" then 8 else if c in "bB" then 2 else 0
  }

  /** The value of a digit or hexadecimal letter, -1 for anything else. */
  function HexDigitValue(c: char): (d: int)
    ensures -1 <= d < 16
    ensures IsDigit(c) ==> d == DigitValue(c)
  {
    if IsDigit(c) then DigitValue(c)
    else if 'a' <= c <= 'f' then c as int - 'a' as int + 10
    else if 'A' <= c <= 'F' then c as int - 'A' as int + 10
    else -1
  }

  predicate IsRadixDigit(c: char, radix: nat) {
    0 <= HexDigitValue(c) < radix
  }

  predicate AllRadixDigits(s: string, radix: nat) {
    forall i :: 0 <= i < |s| ==> IsRadixDigit(s[i], radix)
  }

  /** The value of a run of digits in base `radix`, most significant first. */
  function RadixValue(s: string, radix: nat): (n: nat)
    requires AllRadixDigits(s, radix)
  {
    if |s| == 0 then 0
    else RadixValue(s[..|s| - 1], radix) * radix + HexDigitValue(s[|s| - 1])
  }

  /** A trimmed text that starts with `0x`, `0o` or `0b` (either case). */
  predicate HasRadixPrefix(t: string) {
    |t| >= 2 && t[0] == '0' && PrefixRadix(t[1]) > 0
  }

  /** A whole prefixed literal: at least one digit of the named radix after
      the prefix, and nothing else; `NaN` otherwise. */
  function RadixLiteral(t: string): (r: Num)
    requires HasRadixPrefix(t)
    ensures r.NaN? <==> !(|t| > 2 && AllRadixDigits(t[2..], PrefixRadix(t[1])))
    ensures r.Finite? ==> r.v >= 0.0
  {
    var radix, ds := PrefixRadix(t[1]), t[2..];
    if |ds| > 0 && AllRadixDigits(ds, radix) then Finite(RadixValue(ds, radix) as real) else NaN
  }

  /** `Number(s)`: after trimming, the empty string is 0; an unsigned `0x`,
      `0o` or `0b` literal reads in its radix; anything else that is not one
      whole decimal literal is `NaN`. */
  function ToNumber(s: string): (r: Num)
    ensures IsBlank(s) ==> r == Finite(0.0)
    ensures var t := Trim(s); |t| > 0 && !IsDigit(t[0]) && t[0] !in ".I+-" ==> r.NaN?
    ensures var t := Trim(s); HasRadixPrefix(t) ==>
      (r.NaN? <==> !(|t| > 2 && AllRadixDigits(t[2..], PrefixRadix(t[1]))))
  {
    TrimmedNumber(Trim(s))
  }

  /** `Number` on a text already trimmed. */
  function TrimmedNumber(t: string): (r: Num)
    ensures t == "" ==> r == Finite(0.0)
    ensures |t| > 0 && !IsDigit(t[0]) && t[0] !in ".I+-" ==> r.NaN?
    ensures HasRadixPrefix(t) ==> r == RadixLiteral(t)
    ensures t != "" && !HasRadixPrefix(t) && ScanSigned(t).Scanned? && ScanSigned(t).len == |t|
      ==> r == ScanSigned(t).value
  {
    if t == "" then Finite(0.0)
    else if HasRadixPrefix(t) then RadixLiteral(t)
    else
      match ScanSigned(t)
      case NoNumber => NaN
      case Scanned(v, n) => if n == |t| then v else NaN
  }

  /** A digit of any radix is not white space. */
  lemma RadixDigitNotSpace(c: char, radix: nat)
    requires IsRadixDigit(c, radix)
    ensures !IsSpace(c)
  {
  }

  /** The lowest digit character for a value below 16. */
  function RadixDigitChar(d: nat): (c: char)
    requires d < 16
    ensures HexDigitValue(c) == d
  {
    if d < 10 then ('0' as int + d) as char else ('a' as int + d - 10) as char
  }

  /** The digits of `n` in base `radix`, most significant first: the rendering
      `n.toString(radix)` gives. */
  function RadixDigits(n: nat, radix: nat): (s: string)
    requires radix == 2 || radix == 8 || radix == 16
    ensures |s| > 0 && AllRadixDigits(s, radix)
  {
    if n < radix then [RadixDigitChar(n)]
    else RadixDigits(n / radix, radix) + [RadixDigitChar(n % radix)]
  }

  /** Reading the digits of `n` back in the same radix gives `n`. */
  lemma {:induction false} RadixDigitsRoundTrip(n: nat, radix: nat)
    requires radix == 2 || radix == 8 || radix == 16
    ensures RadixValue(RadixDigits(n, radix), radix) == n
  {
    var s := RadixDigits(n, radix);
    if n >= radix {
      RadixDigitsRoundTrip(n / radix, radix);
      assert s[..|s| - 1] == RadixDigits(n / radix, radix);
    }
  }

  /** A leading `0` before a radix letter scans, as a decimal literal, as
      the single digit 0. */
  lemma ScanRadixPrefix(t: string)
    requires HasRadixPrefix(t)
    ensures ScanSigned(t) == Scanned(Finite(0.0), 1)
  {
    assert t == "0" + t[1..];
    ScanFiniteDigits("0", t[1..]);
  }

  /** `Number` reads a prefix followed by digits of its radix as the value
      of those digits. */
  lemma PrefixedDigitsNumber(letter: char, ds: string)
    requires PrefixRadix(letter) > 0
    requires |ds| > 0 && AllRadixDigits(ds, PrefixRadix(letter))
    ensures ToNumber(['0', letter] + ds) == Finite(RadixValue(ds, PrefixRadix(letter)) as real)
  {
    var t := ['0', letter] + ds;
    assert t[2..] == ds;
    assert t[|t| - 1] == ds[|ds| - 1];
    RadixDigitNotSpace(ds[|ds| - 1], PrefixRadix(letter));
    TrimNoEdgeSpace(t);
    assert TrimmedNumber(t) == RadixLiteral(t);
  }

  /** `Number("0x" + digits)` and its octal and binary forms read the
      integer the digits spell in that radix. */
  lemma PrefixedLiteralNumber(n: nat, letter: char)
    requires PrefixRadix(letter) > 0
    ensures ToNumber(['0', letter] + RadixDigits(n, PrefixRadix(letter))) == Finite(n as real)
  {
    PrefixedDigitsNumber(letter, RadixDigits(n, PrefixRadix(letter)));
    RadixDigitsRoundTrip(n, PrefixRadix(letter));
  }

  /** `Number("0x0C")` is twelve: a zero digit after the prefix is kept as
      a leading zero. */
  lemma HexTwelve()
    ensures ToNumber("0x0C") == Finite(12.0)
  {
    var t := "0x0C";
    assert t[0] == '0' && t[|t| - 1] == 'C';
    TrimNoEdgeSpace(t);
    assert t[2..] == "0C";
    assert "0C"[..1] == "0";
    assert RadixValue("0", 16) == 0;
  }

  /** After a sign, a prefixed literal scans only as far as its leading 0. */
  lemma SignedRadixScan(sign: char, t: string)
    requires sign in "+-" && HasRadixPrefix(t)
    ensures ScanSigned([sign] + t).Scanned? && ScanSigned([sign] + t).len == 2
  {
    var s := [sign] + t;
    assert s[1..] == t;
    ScanRadixPrefix(t);
    assert ScanUnsigned(t) == ScanFinite(t);
  }

  /** A sign in front of a prefixed literal makes it unreadable: `Number`
      accepts the prefixes only unsigned. */
  lemma SignedPrefixIsNaN(sign: char, letter: char, ds: string)
    requires sign in "+-" && PrefixRadix(letter) > 0
    requires |ds| > 0 && AllRadixDigits(ds, PrefixRadix(letter))
    ensures ToNumber([sign, '0', letter] + ds).NaN?
  {
    var t := ['0', letter] + ds;
    var s := [sign] + t;
    assert s == [sign, '0', letter] + ds;
    SignedRadixScan(sign, t);
    assert s[|s| - 1] == ds[|ds| - 1];
    RadixDigitNotSpace(ds[|ds| - 1], PrefixRadix(letter));
    TrimNoEdgeSpace(s);
    assert !HasRadixPrefix(s);
    assert TrimmedNumber(s).NaN?;
  }

  // ---------------------------------------------------------------------
  // Properties of the parsers on the inputs the application produces
  // ---------------------------------------------------------------------

  /** A digit string followed by a character that cannot continue a literal
      scans as exactly those digits. */
  lemma ScanFiniteDigits(d: string, x: string)
    requires |d| > 0 && AllDigits(d)
    requires |x| == 0 || (!IsDigit(x[0]) && x[0] !in ".eE")
    ensures ScanFinite(d + x) == Scanned(Finite(DigitsValue(d) as real), |d|)
  {
    var s := d + x;
    DigitRunPrefixDigits(d, x);
    assert s[..|d|] == d;
    assert s[|d|..] == x;
    assert FractionDigits(s, |d|) == "";
    assert MantissaLength(s) == |d|;
  }

  /** A string that starts with a digit is its own leading-space trim and
      scans as a finite literal. */
  lemma ParseFloatStartsWithDigit(s: string)
    requires |s| > 0 && IsDigit(s[0])
    ensures ScanFinite(s).Scanned?
    ensures ParseFloat(s) == ScanFinite(s).value
  {
    assert TrimStart(s) == s;
    assert DigitRun(s) > 0;
    var sc := ScanSigned(s);
    assert sc == ScanFinite(s);
  }

  /** A digit string followed by a character that cannot continue a literal
      parses to the value of the digits. */
  lemma ParseFloatDigits(d: string, x: string)
    requires |d| > 0 && AllDigits(d)
    requires |x| == 0 || (!IsDigit(x[0]) && x[0] !in ".eE")
    ensures ParseFloat(d + x) == Finite(DigitsValue(d) as real)
  {
    ScanFiniteDigits(d, x);
    ParseFloatStartsWithDigit(d + x);
  }

  lemma DigitRunPrefixDigits(d: string, x: string)
    requires AllDigits(d)
    requires |x| == 0 || !IsDigit(x[0])
    ensures DigitRun(d + x) == |d|
    decreases |d|
  {
    if |d| == 0 {
      assert d + x == x;
    } else {
      assert (d + x)[1..] == d[1..] + x;
      DigitRunPrefixDigits(d[1..], x);
    }
  }

  /** `d.f` followed by something that cannot continue the literal scans as
      the decimal `d.f`. */
  lemma ScanFiniteDecimal(d: string, f: string, x: string)
    requires |d| > 0 && AllDigits(d) && AllDigits(f)
    requires |x| == 0 || (!IsDigit(x[0]) && x[0] !in "eE")
    ensures ScanFinite(d + "." + f + x) == Scanned(Finite(DecimalValue(d, f)), |d| + 1 + |f|)
  {
    var s := d + "." + f + x;
    var rest := "." + f + x;
    assert s == d + rest;
    DigitRunPrefixDigits(d, rest);
    assert s[..|d|] == d;
    DecimalMantissa(s, d, f, x);
    assert s[|d| + 1 + |f|..] == x;
  }

  lemma DecimalMantissa(s: string, d: string, f: string, x: string)
    requires s == d + "." + f + x && DigitRun(s) == |d| && AllDigits(f)
    requires |x| == 0 || !IsDigit(x[0])
    ensures FractionDigits(s, |d|) == f && MantissaLength(s) == |d| + 1 + |f|
  {
    assert s[|d|] == '.';
    assert s[|d| + 1..] == f + x;
    FractionAfterDot(s, |d|, f, x);
  }

  lemma FractionAfterDot(s: string, i: nat, f: string, x: string)
    requires i < |s| && s[i] == '.' && AllDigits(f)
    requires s[i + 1..] == f + x
    requires |x| == 0 || !IsDigit(x[0])
    ensures FractionDigits(s, i) == f
  {
    var t := s[i + 1..];
    DigitRunPrefixDigits(f, x);
    assert t[..|f|] == f;
  }

  /** `parseFloat("d.f")` for digit strings `d` (non-empty) and `f`, followed by
      something that cannot continue the literal. */
  lemma ParseFloatDecimal(d: string, f: string, x: string)
    requires |d| > 0 && AllDigits(d) && AllDigits(f)
    requires |x| == 0 || (!IsDigit(x[0]) && x[0] !in "eE")
    ensures ParseFloat(d + "." + f + x) == Finite(DecimalValue(d, f))
  {
    ScanFiniteDecimal(d, f, x);
    ParseFloatStartsWithDigit(d + "." + f + x);
  }

  /** The rendering of an integer scans, sign included, as that integer
      over its whole length. */
  lemma ScanIntToString(n: int)
    ensures ScanSigned(IntToString(n)) == Scanned(Finite(n as real), |IntToString(n)|)
  {
    var m: nat := if n < 0 then -n else n;
    var d := NatToString(m);
    NatToStringValue(m);
    assert d + "" == d;
    ScanFiniteDigits(d, "");
    if n < 0 {
      var s := "-" + d;
      assert s[1..] == d;
      assert ScanUnsigned(d) == ScanFinite(d);
    }
  }

  /** The rendering of an integer parses back to it under both `parseFloat`
      and `Number`. */
  lemma IntToStringParses(n: int)
    ensures ParseFloat(IntToString(n)) == Finite(n as real)
    ensures ToNumber(IntToString(n)) == Finite(n as real)
  {
    IntToStringParseFloat(n);
    IntToStringNumber(n);
  }

  lemma IntToStringParseFloat(n: int)
    ensures ParseFloat(IntToString(n)) == Finite(n as real)
  {
    var s := IntToString(n);
    ScanIntToString(n);
    assert TrimStart(s) == s by {
      IntToStringChars(n, 0);
    }
  }

  lemma IntToStringNumber(n: int)
    ensures ToNumber(IntToString(n)) == Finite(n as real)
  {
    var s := IntToString(n);
    ScanIntToString(n);
    IntToStringChars(n, 0);
    IntToStringChars(n, |s| - 1);
    TrimNoEdgeSpace(s);
    WholeLiteral(s);
  }

  /** A non-empty run of decimal digits reads as its decimal value; leading
      zeros do not make it octal. */
  lemma DigitsNumber(d: string)
    requires |d| > 0 && AllDigits(d)
    ensures ToNumber(d) == Finite(DigitsValue(d) as real)
  {
    assert d + "" == d;
    ScanFiniteDigits(d, "");
    RadixDigitNotSpace(d[0], 10);
    RadixDigitNotSpace(d[|d| - 1], 10);
    TrimNoEdgeSpace(d);
    WholeLiteral(d);
  }

  /** A trimmed text that scans over its whole length is that number. */
  lemma WholeLiteral(s: string)
    requires s != "" && Trim(s) == s
    requires ScanSigned(s).Scanned? && ScanSigned(s).len == |s|
    ensures ToNumber(s) == ScanSigned(s).value
  {
    if HasRadixPrefix(s) {
      ScanRadixPrefix(s);
    }
  }

  /** Different integers render differently. */
  lemma IntToStringInjective(a: int, b: int)
    requires IntToString(a) == IntToString(b)
    ensures a == b
  {
    IntToStringParses(a);
    IntToStringParses(b);
  }

  /** The rendering of an integer is a sign and digits. */
  lemma IntToStringChars(n: int, i: nat)
    requires i < |IntToString(n)|
    ensures IntToString(n)[i] == '-' || IsDigit(IntToString(n)[i])
  {
    if n < 0 && i > 0 {
      assert IntToString(n)[i] == NatToString(-n)[i - 1];
    }
  }
}
