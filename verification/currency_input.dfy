/** The money field of the payment form: what it reads out of typed or
    pasted text (Brazilian `1.234,56`, US `1234.56`, thousands `1.234`), how
    it renders a value in the Brazilian style, and the display it keeps
    between the two. */
module CurrencyInput {
  import opened JsText
  import opened JsNumber

  /** The characters the reading keeps: digits, dots and commas. */
  predicate AmountChar(c: char) {
    IsDigit(c) || c == '.' || c == ','
  }

  predicate AllAmount(s: string) {
    forall i :: 0 <= i < |s| ==> AmountChar(s[i])
  }

  predicate DigitsAndDots(s: string) {
    forall i :: 0 <= i < |s| ==> IsDigit(s[i]) || s[i] == '.'
  }

  /** `s.replace(c, '')` with a one-character pattern: the first `c` goes. */
  function RemoveFirst(s: string, c: char): (r: string)
    ensures c in s ==> |r| == |s| - 1
    ensures c !in s ==> r == s
    ensures forall x :: x in r ==> x in s
  {
    if |s| == 0 then ""
    else if s[0] == c then s[1..]
    else [s[0]] + RemoveFirst(s[1..], c)
  }

  /** Every character of `r` occurs in `s`, whose characters are all amount
      characters. */
  lemma AllAmountWithin(s: string, r: string)
    requires AllAmount(s)
    requires forall x :: x in r ==> x in s
    ensures AllAmount(r)
  {
    forall i | 0 <= i < |r|
      ensures AmountChar(r[i])
    {
      assert r[i] in s;
    }
  }

  /** The text the reading hands to `parseFloat`, after the characters that
      are not amount characters are gone: with a comma, the dots are
      thousands separators and the first comma is the decimal point; with
      only dots, more than one dot or one dot followed by more than two
      digits means thousands separators; otherwise the text stays. */
  function Normalize(cleaned: string): (r: string)
    requires AllAmount(cleaned)
    ensures AllAmount(r)
    ensures ',' in cleaned ==> '.' !in RemoveAll(cleaned, '.') && r == ReplaceFirst(RemoveAll(cleaned, '.'), ',', '.')
    ensures ',' !in cleaned && '.' !in cleaned ==> r == cleaned
  {
    if ',' in cleaned then
      var noDots := RemoveAll(cleaned, '.');
      AllAmountWithin(cleaned, noDots);
      ReplaceFirstAmount(noDots, ',', '.');
      ReplaceFirst(noDots, ',', '.')
    else if '.' in cleaned then
      if CountChar(cleaned, '.') > 1 then
        AllAmountWithin(cleaned, RemoveAll(cleaned, '.'));
        RemoveAll(cleaned, '.')
      else
        var parts := Split(cleaned, '.');
        if |parts[1]| > 2 then
          AllAmountWithin(cleaned, RemoveFirst(cleaned, '.'));
          RemoveFirst(cleaned, '.')
        else cleaned
    else cleaned
  }

  lemma {:induction false} ReplaceFirstAmount(s: string, c: char, d: char)
    requires AllAmount(s) && AmountChar(d)
    ensures AllAmount(ReplaceFirst(s, c, d))
  {
    if |s| > 0 && s[0] != c {
      ReplaceFirstAmount(s[1..], c, d);
    }
  }

  /** The end of the reading: `parseFloat`, with `NaN` read as 0. On amount
      characters `parseFloat` gives `NaN` or a finite number, so testing for
      a finite number is the source's test for `NaN`. */
  function ReadAmount(n: string): (r: real)
    ensures AllAmount(n) ==> r >= 0.0
    ensures AllAmount(n) && (forall i :: 0 <= i < |n| ==> !IsDigit(n[i])) ==> r == 0.0
  {
    AmountParses(n);
    var parsed := ParseFloat(n);
    if parsed.Finite? then parsed.v else 0.0
  }

  /** `parseFromBRL`: the empty text is 0; otherwise the normalized amount
      characters are read by `parseFloat`, and a text that does not start a
      number reads as 0. The reading is never negative: a minus sign is not
      an amount character. */
  function ParseFromBRL(str: string): (r: real)
    ensures r >= 0.0
    ensures str == "" ==> r == 0.0
    ensures (forall i :: 0 <= i < |str| ==> !IsDigit(str[i])) ==> r == 0.0
  {
    if str == "" then 0.0
    else
      var cleaned := KeepOnly(str, AmountChar);
      NoDigitsNormalized(str, cleaned, Normalize(cleaned));
      ReadAmount(Normalize(cleaned))
  }

  /** The normalized text of a text without digits has no digits either. */
  lemma NoDigitsNormalized(str: string, cleaned: string, n: string)
    requires cleaned == KeepOnly(str, AmountChar) && AllAmount(cleaned) && n == Normalize(cleaned)
    ensures (forall i :: 0 <= i < |str| ==> !IsDigit(str[i])) ==> forall i :: 0 <= i < |n| ==> !IsDigit(n[i])
  {
    if forall i :: 0 <= i < |str| ==> !IsDigit(str[i]) {
      forall i | 0 <= i < |n|
        ensures !IsDigit(n[i])
      {
        NormalizeChars(cleaned, n[i]);
      }
    }
  }

  /** Every character of the normalized text was in the text, or is the '.'
      a comma became. */
  lemma NormalizeChars(cleaned: string, x: char)
    requires AllAmount(cleaned)
    requires x in Normalize(cleaned)
    ensures x in cleaned || x == '.'
  {
    if ',' in cleaned {
      ReplaceFirstChars(RemoveAll(cleaned, '.'), ',', '.', x);
    }
  }

  lemma {:induction false} ReplaceFirstChars(s: string, c: char, d: char, x: char)
    requires x in ReplaceFirst(s, c, d)
    ensures x in s || x == d
  {
    if |s| > 0 && s[0] != c && x != s[0] {
      ReplaceFirstChars(s[1..], c, d, x);
    }
  }

  /** `parseFloat` on amount characters: a non-negative number, or `NaN`
      when no digit comes before the first non-digit-non-dot character; in
      particular `NaN` when there is no digit at all. */
  lemma AmountParses(s: string)
    ensures AllAmount(s) ==> ParseFloat(s).NaN? || (ParseFloat(s).Finite? && ParseFloat(s).v >= 0.0)
    ensures AllAmount(s) && (forall i :: 0 <= i < |s| ==> !IsDigit(s[i])) ==> ParseFloat(s).NaN?
  {
    if |s| > 0 && AllAmount(s) {
      TrimStartNoLead(s);
      assert !StartsWith(s, "Infinity") by {
        assert s[0] != 'I';
      }
      if forall i :: 0 <= i < |s| ==> !IsDigit(s[i]) {
        assert DigitRun(s) == 0;
        assert s[1..] == [] || !IsDigit(s[1..][0]);
        assert FractionDigits(s, 0) == "";
      }
    }
  }

  // ---------------------------------------------------------------------
  // What the reading gives on the shapes the field expects
  // ---------------------------------------------------------------------

  /** Two texts with the same amount characters read the same: currency
      symbols, spaces and signs are ignored. */
  lemma {:induction false} SameAmountCharsSameValue(s: string, t: string)
    requires KeepOnly(s, AmountChar) == KeepOnly(t, AmountChar)
    ensures ParseFromBRL(s) == ParseFromBRL(t)
  {
    if s == "" || t == "" {
      KeepOnlyEmpty(s, t);
    }
  }

  /** When one side is empty its amount characters are none, and the other
      reads as 0 as well. */
  lemma KeepOnlyEmpty(s: string, t: string)
    requires KeepOnly(s, AmountChar) == KeepOnly(t, AmountChar)
    requires s == "" || t == ""
    ensures ParseFromBRL(s) == 0.0 && ParseFromBRL(t) == 0.0
  {
    var k := KeepOnly(s, AmountChar);
    assert k == "";
    assert Normalize(k) == "";
    AmountParses("");
  }

  lemma {:induction false} KeepOnlyAppend(a: string, b: string, keep: char -> bool)
    ensures KeepOnly(a + b, keep) == KeepOnly(a, keep) + KeepOnly(b, keep)
  {
    if |a| == 0 {
      assert a + b == b;
    } else {
      assert (a + b)[1..] == a[1..] + b;
      KeepOnlyAppend(a[1..], b, keep);
    }
  }

  lemma {:induction false} KeepOnlyNone(s: string, keep: char -> bool)
    requires forall i :: 0 <= i < |s| ==> !keep(s[i])
    ensures KeepOnly(s, keep) == ""
  {
    if |s| > 0 {
      KeepOnlyNone(s[1..], keep);
    }
  }

  /** Text around the amount that has no digit, dot or comma in it, such as
      `R$ ` before it, does not change the reading. */
  lemma DecorationIgnored(p: string, s: string, q: string)
    requires forall i :: 0 <= i < |p| ==> !AmountChar(p[i])
    requires forall i :: 0 <= i < |q| ==> !AmountChar(q[i])
    ensures ParseFromBRL(p + s + q) == ParseFromBRL(s)
  {
    KeepOnlyAppend(p + s, q, AmountChar);
    KeepOnlyAppend(p, s, AmountChar);
    KeepOnlyNone(p, AmountChar);
    KeepOnlyNone(q, AmountChar);
    assert KeepOnly(p + s + q, AmountChar) == KeepOnly(s, AmountChar);
    SameAmountCharsSameValue(p + s + q, s);
  }

  /** The reading of text made of amount characters only starts from the
      text itself. */
  lemma AmountText(s: string)
    requires s != "" && AllAmount(s)
    ensures ParseFromBRL(s) == ReadAmount(Normalize(s))
  {
    KeepOnlyAll(s, AmountChar);
  }

  /** `parseFloat` reads `d.f` as the decimal it writes. */
  lemma ReadDecimal(d: string, f: string)
    requires |d| > 0 && AllDigits(d) && AllDigits(f)
    ensures ReadAmount(d + "." + f) == DecimalValue(d, f)
  {
    ParseFloatDecimal(d, f, "");
    assert d + "." + f + "" == d + "." + f;
  }

  /** `parseFloat` reads a digit string as the whole number it writes. */
  lemma ReadDigits(d: string)
    requires |d| > 0 && AllDigits(d)
    ensures ReadAmount(d) == DigitsValue(d) as real
  {
    ParseFloatDigits(d, "");
    assert d + "" == d;
  }

  /** `a,f` with `a` digits and dots and `f` digits is amount characters with
      a comma. */
  lemma BrazilianChars(a: string, f: string)
    requires DigitsAndDots(a) && AllDigits(f)
    ensures var s := a + "," + f; s != "" && AllAmount(s) && ',' in s
  {
    var s := a + "," + f;
    assert s[|a|] == ',';
    assert forall i :: 0 <= i < |a| ==> s[i] == a[i];
    assert forall i :: |a| < i < |s| ==> s[i] == f[i - |a| - 1];
  }

  /** The Brazilian style: digits grouped by dots, a comma and the cents,
      reads as the decimal the digits make. */
  lemma BrazilianAmount(a: string, f: string)
    requires |a| > 0 && IsDigit(a[0]) && DigitsAndDots(a)
    requires AllDigits(f)
    ensures AllDigits(RemoveAll(a, '.'))
    ensures ParseFromBRL(a + "," + f) == DecimalValue(RemoveAll(a, '.'), f)
  {
    var d := RemoveAll(a, '.');
    RemoveDotsDigits(a);
    BrazilianChars(a, f);
    AmountText(a + "," + f);
    CleanBrazilian(a, f);
    ReadDecimal(d, f);
  }

  /** Digits with two or more dots and no comma are a whole amount grouped
      in thousands: every dot goes. */
  lemma ThousandsAmount(a: string)
    requires |a| > 0 && IsDigit(a[0]) && DigitsAndDots(a)
    requires CountChar(a, '.') > 1
    ensures AllDigits(RemoveAll(a, '.'))
    ensures ParseFromBRL(a) == DigitsValue(RemoveAll(a, '.')) as real
  {
    var d := RemoveAll(a, '.');
    RemoveDotsDigits(a);
    CountCharZero(a, '.');
    assert AllAmount(a);
    assert ',' !in a;
    assert Normalize(a) == d;
    AmountText(a);
    ReadDigits(d);
  }

  /** One dot followed by at most two digits is a decimal point: `1234.56`
      reads as 1234.56. */
  lemma UsAmount(d: string, f: string)
    requires |d| > 0 && AllDigits(d) && AllDigits(f) && |f| <= 2
    ensures ParseFromBRL(d + "." + f) == DecimalValue(d, f)
  {
    var s := OneDot(d, f);
    assert Normalize(s) == s;
    AmountText(s);
    ReadDecimal(d, f);
  }

  /** One dot followed by more than two digits is a thousands separator:
      `1.234` reads as 1234. */
  lemma SingleThousandsDot(d: string, f: string)
    requires |d| > 0 && AllDigits(d) && AllDigits(f) && |f| > 2
    ensures AllDigits(d + f)
    ensures ParseFromBRL(d + "." + f) == DigitsValue(d + f) as real
  {
    var s := OneDot(d, f);
    DotRemoved(d, f);
    assert Normalize(s) == d + f;
    AmountText(s);
    DigitsConcat(d, f);
    ReadDigits(d + f);
  }

  lemma {:induction false} DotRemoved(d: string, f: string)
    requires '.' !in d
    ensures RemoveFirst(d + "." + f, '.') == d + f
  {
    var s := d + "." + f;
    if |d| > 0 {
      assert s[0] == d[0] && s[0] != '.';
      assert s[1..] == d[1..] + "." + f;
      DotRemoved(d[1..], f);
      assert d + f == [d[0]] + (d[1..] + f);
    } else {
      assert s == "." + f;
      assert s[1..] == f;
    }
  }

  lemma DigitsConcat(d: string, f: string)
    requires AllDigits(d) && AllDigits(f)
    ensures AllDigits(d + f)
  {
    assert forall i :: 0 <= i < |d| ==> (d + f)[i] == d[i];
    assert forall i :: |d| <= i < |d| + |f| ==> (d + f)[i] == f[i - |d|];
  }

  /** `d.f` with digit strings on both sides: amount characters, no comma,
      one dot, and the split at it gives `d` and `f`. */
  lemma OneDot(d: string, f: string) returns (s: string)
    requires AllDigits(d) && AllDigits(f)
    ensures s == d + "." + f
    ensures AllAmount(s) && s != "" && ',' !in s && '.' in s
    ensures CountChar(s, '.') == 1
    ensures Split(s, '.') == [d, f]
  {
    s := d + "." + f;
    assert s[|d|] == '.';
    assert forall i :: 0 <= i < |d| ==> s[i] == d[i];
    assert forall i :: |d| < i < |s| ==> s[i] == f[i - |d| - 1];
    assert '.' !in d && '.' !in f;
    assert s == d + ['.'] + f;
    SplitCons(d, f, '.');
    SplitNone(f, '.');
    CountCharAppend(d + ['.'], f, '.');
    CountCharAppend(d, ['.'], '.');
    CountCharZero(d, '.');
    CountCharZero(f, '.');
  }

  // ---------------------------------------------------------------------
  // Rendering: `toLocaleString('pt-BR')` with exactly two fraction digits
  // ---------------------------------------------------------------------

  /** Digits grouped in threes from the right, separated by dots. */
  function GroupThousands(s: string): (r: string)
    requires |s| > 0 && AllDigits(s)
    ensures |r| > 0 && r[0] == s[0] && DigitsAndDots(r)
    ensures RemoveAll(r, '.') == s
    decreases |s|
  {
    if |s| <= 3 then
      RemoveAllAbsent(s, '.');
      s
    else
      var head := s[..|s| - 3];
      var tail := s[|s| - 3..];
      var g := GroupThousands(head);
      GroupStep(g, tail);
      assert head + tail == s;
      g + "." + tail
  }

  /** One more group of digits after a dot. */
  lemma GroupStep(g: string, tail: string)
    requires |g| > 0 && DigitsAndDots(g) && AllDigits(tail)
    ensures var r := g + "." + tail;
      r[0] == g[0] && DigitsAndDots(r) && RemoveAll(r, '.') == RemoveAll(g, '.') + tail
  {
    GroupChars(g, tail);
    GroupDotsRemoved(g, tail);
    assert (g + "." + tail)[0] == g[0];
  }

  lemma GroupChars(g: string, tail: string)
    requires DigitsAndDots(g) && AllDigits(tail)
    ensures DigitsAndDots(g + "." + tail)
  {
    var r := g + "." + tail;
    forall i | 0 <= i < |r|
      ensures IsDigit(r[i]) || r[i] == '.'
    {
      if i < |g| {
        assert r[i] == g[i];
      } else if i > |g| {
        assert r[i] == tail[i - |g| - 1];
      }
    }
  }

  lemma GroupDotsRemoved(g: string, tail: string)
    requires AllDigits(tail)
    ensures RemoveAll(g + "." + tail, '.') == RemoveAll(g, '.') + tail
  {
    RemoveAllAppend(g, ".", '.');
    DotRemovedAll();
    assert RemoveAll(g + ".", '.') == RemoveAll(g, '.') + "";
    assert RemoveAll(g, '.') + "" == RemoveAll(g, '.');
    RemoveAllAppend(g + ".", tail, '.');
    RemoveAllAbsent(tail, '.');
  }

  lemma DotRemovedAll()
    ensures RemoveAll(".", '.') == ""
  {
    assert "."[1..] == "";
  }

  /** A number of cents rounded from a value, halves away from zero as
      `Intl.NumberFormat` rounds by default. */
  function RoundCents(x: real): (n: int)
    ensures x >= 0.0 ==> n >= 0
    ensures x < 0.0 ==> n <= 0
    ensures x >= 0.005 ==> n >= 1
    ensures (n as real - 0.5) <= x * 100.0 <= (n as real + 0.5)
  {
    if x >= 0.0 then (x * 100.0 + 0.5).Floor else -((-x * 100.0 + 0.5).Floor)
  }

  /** A whole number of cents is its own rounding. */
  lemma RoundWholeCents(n: int)
    ensures RoundCents(n as real / 100.0) == n
  {
    assert n as real / 100.0 * 100.0 == n as real;
    assert (n as real + 0.5).Floor == n;
    assert (-(n as real) + 0.5).Floor == -n;
  }

  /** The two digits of a number of cents below 100. */
  function TwoDigits(k: nat): (r: string)
    requires k < 100
    ensures |r| == 2 && AllDigits(r) && DigitsValue(r) == k
  {
    var r := [DigitChar(k / 10), DigitChar(k % 10)];
    assert r[..1][..0] == "";
    r
  }

  /** The pt-BR rendering of a number of cents: a minus sign when negative,
      the units grouped by dots, a comma and exactly two cent digits. */
  function FormatCents(n: int): (r: string)
    ensures |r| > 0
    ensures n >= 0 ==> IsDigit(r[0])
    ensures n < 0 ==> r[0] == '-'
  {
    var m: nat := if n < 0 then -n else n;
    (if n < 0 then "-" else "") + UnsignedCents(m)
  }

  /** `formatToBRL`: `NaN` and zero show as the empty field; a finite value
      is rendered rounded to cents; the infinities show as the sign and `∞`. */
  function FormatToBRL(x: Num): (r: string)
    ensures r == "" <==> x.NaN? || x == Finite(0.0)
  {
    match x
    case NaN => ""
    case Finite(v) => if v == 0.0 then "" else FormatCents(RoundCents(v))
    case PosInf => "∞"
    case NegInf => "-∞"
  }

  /** The rendering without its sign: grouped units, a comma, two cent
      digits. */
  function UnsignedCents(m: nat): (r: string)
  {
    GroupThousands(NatToString(m / 100)) + "," + TwoDigits(m % 100)
  }

  /** Units and cents put back together. */
  lemma CentsValue(m: nat, units: string, c: string)
    requires units == NatToString(m / 100) && c == TwoDigits(m % 100)
    ensures DecimalValue(units, c) == m as real / 100.0
  {
    var q, k := m / 100, m % 100;
    NatToStringValue(q);
    assert Pow10(2) == 100;
    assert DecimalValue(units, c) == q as real + k as real / 100.0;
    assert m == q * 100 + k;
    assert m as real == q as real * 100.0 + k as real;
  }

  /** The unsigned rendering of `m` cents reads as `m / 100`. */
  lemma UnsignedCentsParses(m: nat)
    ensures ParseFromBRL(UnsignedCents(m)) == m as real / 100.0
  {
    var units := NatToString(m / 100);
    var g := GroupThousands(units);
    var c := TwoDigits(m % 100);
    BrazilianAmount(g, c);
    CentsValue(m, units, c);
  }

  /** Reading a rendered number of cents gives back its magnitude: the sign
      is not an amount character. */
  lemma FormatCentsParses(n: int)
    ensures ParseFromBRL(FormatCents(n)) == (if n < 0 then -n else n) as real / 100.0
  {
    var m: nat := if n < 0 then -n else n;
    var sign := if n < 0 then "-" else "";
    assert FormatCents(n) == sign + UnsignedCents(m) + "";
    DecorationIgnored(sign, UnsignedCents(m), "");
    UnsignedCentsParses(m);
  }

  /** A value in whole cents survives being rendered and read back, up to
      its sign; a non-negative one survives exactly. */
  lemma FormatThenParse(n: int)
    ensures ParseFromBRL(FormatToBRL(Finite(n as real / 100.0))) == (if n < 0 then -n else n) as real / 100.0
  {
    if n != 0 {
      FormatWholeCents(n);
      FormatCentsParses(n);
    } else {
      assert n as real / 100.0 == 0.0;
    }
  }

  /** A non-zero value in whole cents renders as those cents. */
  lemma FormatWholeCents(n: int)
    requires n != 0
    ensures FormatToBRL(Finite(n as real / 100.0)) == FormatCents(n)
  {
    var v := n as real / 100.0;
    assert v != 0.0 by {
      assert v * 100.0 == n as real;
    }
    RoundWholeCents(n);
  }

  // ---------------------------------------------------------------------
  // The field
  // ---------------------------------------------------------------------

  /** What the field shows. */
  datatype Field = Field(display: string)

  /** `handleChange`: the field shows what was typed and the reading goes to
      the parent; an empty field sends 0, which is also what the reading of
      the empty text is. */
  function HandleChange(input: string): (r: (Field, real))
    ensures r.0.display == input
    ensures r.1 == ParseFromBRL(input)
    ensures r.1 >= 0.0
  {
    if input == "" then (Field(""), 0.0) else (Field(input), ParseFromBRL(input))
  }

  /** `handleBlur`, and the effect run when the parent's value changes: the
      field shows the rendering of the parent's value. */
  function ShowValue(value: Num): (f: Field)
    ensures f.display == "" <==> value.NaN? || value == Finite(0.0)
  {
    Field(FormatToBRL(value))
  }

  /** A Brazilian amount typed with two cent digits is sent to the parent,
      rendered back when the field loses focus, and read again as the same
      value. */
  lemma TypedCentsSurviveBlur(a: string, f: string)
    requires |a| > 0 && IsDigit(a[0]) && DigitsAndDots(a)
    requires |f| == 2 && AllDigits(f)
    ensures var sent := HandleChange(a + "," + f).1;
      ParseFromBRL(ShowValue(Finite(sent)).display) == sent
  {
    var n := TypedCents(a, f);
    BlurKeepsCents(n);
    assert Finite(HandleChange(a + "," + f).1) == Finite(n as real / 100.0);
  }

  /** The amount `a,f` typed with two cent digits is a whole number of
      cents. */
  lemma TypedCents(a: string, f: string) returns (n: nat)
    requires |a| > 0 && IsDigit(a[0]) && DigitsAndDots(a)
    requires |f| == 2 && AllDigits(f)
    ensures HandleChange(a + "," + f).1 == n as real / 100.0
  {
    BrazilianAmount(a, f);
    var d := RemoveAll(a, '.');
    n := DigitsValue(d) * 100 + DigitsValue(f);
    TwoPlaces(d, f);
  }

  /** After a value in whole cents is sent to the parent, the field shows
      its rendering when it loses focus, and reading that rendering gives
      the same value: leaving the field does not change the amount.
      `TypedCents` gives the inputs whose reading is in whole cents. */
  lemma BlurKeepsCents(n: nat)
    ensures ParseFromBRL(ShowValue(Finite(n as real / 100.0)).display) == n as real / 100.0
  {
    FormatThenParse(n);
  }

  /** `d.f` with two fraction digits is a whole number of cents. */
  lemma TwoPlaces(d: string, f: string)
    requires AllDigits(d) && AllDigits(f) && |f| == 2
    ensures DecimalValue(d, f) == (DigitsValue(d) * 100 + DigitsValue(f)) as real / 100.0
  {
    assert Pow10(2) == 100;
  }

  /** Once the field has rendered a non-negative value of at least half a
      cent, reading it and rendering again shows the same text: the display
      is stable. (A smaller one shows `0,00`, which reads as 0 and then shows
      as the empty field.) */
  lemma DisplayStable(v: real)
    requires v == 0.0 || v >= 0.005
    ensures var shown := ShowValue(Finite(v)).display;
      ShowValue(Finite(ParseFromBRL(shown))).display == shown
  {
    var shown := ShowValue(Finite(v)).display;
    if v == 0.0 {
      assert shown == "";
      assert ParseFromBRL(shown) == 0.0;
    } else {
      var n := RoundCents(v);
      assert shown == FormatCents(n);
      StableCents(n);
    }
  }

  lemma StableCents(n: int)
    requires n >= 1
    ensures ShowValue(Finite(ParseFromBRL(FormatCents(n)))).display == FormatCents(n)
  {
    PositiveCentsParse(n);
    ShowCents(n);
    assert Finite(ParseFromBRL(FormatCents(n))) == Finite(n as real / 100.0);
  }

  lemma PositiveCentsParse(n: int)
    requires n >= 1
    ensures ParseFromBRL(FormatCents(n)) == n as real / 100.0
  {
    FormatCentsParses(n);
  }

  /** A positive whole number of cents shows as its rendering. */
  lemma ShowCents(n: int)
    requires n >= 1
    ensures ShowValue(Finite(n as real / 100.0)).display == FormatCents(n)
  {
    RoundWholeCents(n);
  }
}
