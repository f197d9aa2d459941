/** A finite float as Python spells it: python.go `pythonFloatRepr`, from the
    sign, the shortest digits and the exponent. */
module FloatRepr {
  import opened Decimals
  import opened JsonPrint

  /** What formatting yields: `d.ddd` with its digits run together, times a
      power of ten. */
  datatype Shortest = Shortest(negative: bool, digits: string, exp: int)

  predicate Valid(f: Shortest) {
    Unsigned(f.digits)
  }

  function Zeros(n: nat): (s: string)
    ensures |s| == n && AllDigits(s)
  {
    seq(n, _ => '0')
  }

  /** `formatExponent`: a sign and at least two digits. */
  function FormatExponent(exp: int): string {
    var size := if exp < 0 then -exp else exp;
    [if exp < 0 then '-' else '+'] + (if size < 10 then "0" else "") + Show(size)
  }

  /** Where the decimal point falls: the value is 0.digits times ten to this. */
  function Point(f: Shortest): int {
    if f.digits == "0" then 1 else f.exp + 1
  }

  function Mantissa(digits: string): string
    requires digits != ""
  {
    digits[..1] + (if |digits| > 1 then "." + digits[1..] else "")
  }

  function Layout(f: Shortest): string
    requires Valid(f)
  {
    var digits, decpt := f.digits, Point(f);
    if decpt <= -4 || decpt > 16 then
      Mantissa(digits) + "e" + FormatExponent(decpt - 1)
    else if decpt <= 0 then "0." + Zeros(-decpt) + digits
    else if decpt >= |digits| then digits + Zeros(decpt - |digits|) + ".0"
    else digits[..decpt] + "." + digits[decpt..]
  }

  function Repr(f: Shortest): string
    requires Valid(f)
  {
    (if f.negative then "-" else "") + Layout(f)
  }

  // ── what decimal text is worth ────────────────────────────────────────

  function Ten(n: int): real {
    if n >= 0 then Pow(n) as real else 1.0 / Pow(-n) as real
  }

  function Size(d: nat, p: int): real {
    d as real * Ten(p)
  }

  function Signed(negative: bool, size: real): real {
    if negative then -size else size
  }

  /** The value of the digits, their exponent applied. */
  function Worth(f: Shortest): real
    requires Valid(f)
  {
    Signed(f.negative, Size(Decimal(f.digits), Point(f) - |f.digits|))
  }

  /** Decimal text taken apart: [-]whole[.fraction][e(+|-)power]. */
  datatype Numeral = Numeral(negative: bool, whole: string, fraction: string, power: int)

  function Unsign(t: string): string {
    if t != "" && t[0] == '-' then t[1..] else t
  }

  function AfterWhole(t: string): string {
    t[Digits(t)..]
  }

  function Fraction(u: string): string {
    if u != "" && u[0] == '.' then u[1..1 + Digits(u[1..])] else ""
  }

  function AfterFraction(u: string): string {
    if u != "" && u[0] == '.' then u[1 + Digits(u[1..])..] else u
  }

  function Power(w: string): int {
    if |w| > 1 && w[0] == 'e' && AllDigits(w[2..]) then
      if w[1] == '-' then -(Decimal(w[2..]) as int) else Decimal(w[2..])
    else 0
  }

  function Parse(t: string): Numeral {
    var u := Unsign(t);
    var v := AfterWhole(u);
    Numeral(t != "" && t[0] == '-', u[..Digits(u)], Fraction(v), Power(AfterFraction(v)))
  }

  predicate Digital(n: Numeral) {
    AllDigits(n.whole + n.fraction)
  }

  function Value(n: Numeral): real
    requires Digital(n)
  {
    Signed(n.negative, Size(Decimal(n.whole + n.fraction), n.power - |n.fraction|))
  }

  // ── the four layouts, read back ───────────────────────────────────────

  lemma {:induction false} DigitsStop(d: string, rest: string)
    requires AllDigits(d) && (rest == "" || !IsDigit(rest[0]))
    ensures Digits(d + rest) == |d|
    ensures (d + rest)[..|d|] == d && (d + rest)[|d|..] == rest
  {
    if d == "" {
      assert d + rest == rest;
    } else {
      assert (d + rest)[1..] == d[1..] + rest;
      DigitsStop(d[1..], rest);
    }
  }

  /** Text without a sign, put together from its parts, comes apart again. */
  lemma ParsePlain(whole: string, fraction: string, tail: string)
    requires AllDigits(whole) && whole != "" && AllDigits(fraction)
    requires tail == "" || tail[0] == 'e'
    ensures Parse(whole + (['.'] + fraction + tail)) == Numeral(false, whole, fraction, Power(tail))
  {
    var v := ['.'] + fraction + tail;
    DigitsStop(whole, v);
    DigitsStop(fraction, tail);
    assert v[1..] == fraction + tail;
    assert v[1..1 + |fraction|] == v[1..][..|fraction|];
    assert v[1 + |fraction|..] == v[1..][|fraction|..];
  }

  lemma ParseWhole(whole: string, tail: string)
    requires AllDigits(whole) && whole != "" && tail != "" && tail[0] == 'e'
    ensures Parse(whole + tail) == Numeral(false, whole, "", Power(tail))
  {
    DigitsStop(whole, tail);
  }

  lemma ExponentBack(exp: int)
    ensures var w := "e" + FormatExponent(exp);
      w[0] == 'e' && Power(w) == exp && Exponent(w)
  {
    var size := if exp < 0 then -exp else exp;
    var w := "e" + FormatExponent(exp);
    assert w[2..] == (if size < 10 then "0" else "") + Show(size);
    PaddedBack(size, w[2..]);
    DigitsStop(w[2..], "");
    assert w[2..] + "" == w[2..];
  }

  lemma PaddedBack(size: nat, digits: string)
    requires digits == (if size < 10 then "0" else "") + Show(size)
    ensures digits != "" && AllDigits(digits) && Decimal(digits) == size
  {
    ShowBack(size);
    if size < 10 {
      assert "0"[..0] == "";
      DecimalJoin("0", Show(size));
    } else {
      assert digits == Show(size);
    }
  }

  lemma {:induction false} ZerosWorthless(n: nat)
    ensures Decimal(Zeros(n)) == 0
  {
    if n > 0 {
      ZerosWorthless(n - 1);
      assert Zeros(n)[..n - 1] == Zeros(n - 1);
    }
  }

  /** One more zero before the point, one place after it: the same value. */
  lemma PaddedOnce(d: nat, k: nat)
    ensures Size(d * Pow(k + 1), -1) == Size(d, k)
  {
    assert Pow(k + 1) == 10 * Pow(k) && Pow(1) == 10 * Pow(0);
    Tenth(d, Pow(k));
  }

  lemma Tenth(d: nat, p: nat)
    ensures (d * (10 * p)) as real * (1.0 / 10.0) == d as real * p as real
  {
    assert d * (10 * p) == 10 * (d * p);
    assert (10 * (d * p)) as real == 10.0 * (d * p) as real;
    assert (d * p) as real == d as real * p as real;
  }

  // ── the parts each layout writes ──────────────────────────────────────

  /** The parts each layout writes, its sign aside. */
  function Parts(f: Shortest): Numeral
    requires Valid(f)
  {
    var digits, decpt := f.digits, Point(f);
    if decpt <= -4 || decpt > 16 then Numeral(false, digits[..1], digits[1..], decpt - 1)
    else if decpt <= 0 then Numeral(false, "0", Zeros(-decpt) + digits, 0)
    else if decpt >= |digits| then Numeral(false, digits + Zeros(decpt - |digits|), "0", 0)
    else Numeral(false, digits[..decpt], digits[decpt..], 0)
  }

  lemma MantissaParses(digits: string, tail: string)
    requires AllDigits(digits) && digits != "" && tail != "" && tail[0] == 'e'
    ensures Parse(Mantissa(digits) + tail) == Numeral(false, digits[..1], digits[1..], Power(tail))
  {
    if |digits| > 1 {
      ParsePlain(digits[..1], digits[1..], tail);
      Dotted(digits[..1], digits[1..], tail);
    } else {
      ParseWhole(digits, tail);
      assert digits[..1] == digits && digits[1..] == "" && Mantissa(digits) == digits;
    }
  }

  lemma Shifted(a: string, b: string)
    ensures a + "e" + b == a + ("e" + b)
  {}

  lemma ScientificParses(f: Shortest)
    requires Valid(f) && (Point(f) <= -4 || Point(f) > 16)
    ensures Parse(Layout(f)) == Parts(f)
  {
    var exponent := FormatExponent(Point(f) - 1);
    ExponentBack(Point(f) - 1);
    MantissaParses(f.digits, "e" + exponent);
    Shifted(Mantissa(f.digits), exponent);
  }

  lemma Dotted(whole: string, fraction: string, tail: string)
    ensures whole + ("." + fraction) + tail == whole + (['.'] + fraction + tail)
    ensures whole + "." + fraction == whole + (['.'] + fraction + "")
  {}

  /** The fixed layouts write their parts around a point. */
  lemma FixedText(f: Shortest)
    requires Valid(f) && -4 < Point(f) <= 16
    ensures Layout(f) == Parts(f).whole + (['.'] + Parts(f).fraction + "")
  {
    var whole, fraction := Parts(f).whole, Parts(f).fraction;
    Dotted(whole, fraction, "");
    if 0 < Point(f) < |f.digits| {
      assert Layout(f) == whole + "." + fraction;
    } else if Point(f) <= 0 {
      assert Layout(f) == "0" + (['.'] + fraction + "");
    } else {
      assert Layout(f) == whole + (['.'] + fraction + "");
    }
  }

  lemma FixedDigits(f: Shortest)
    requires Valid(f) && -4 < Point(f) <= 16
    ensures AllDigits(Parts(f).whole) && Parts(f).whole != "" && AllDigits(Parts(f).fraction)
  {}

  lemma LayoutParses(f: Shortest)
    requires Valid(f)
    ensures Parse(Layout(f)) == Parts(f)
  {
    if -4 < Point(f) <= 16 {
      FixedText(f);
      FixedDigits(f);
      ParsePlain(Parts(f).whole, Parts(f).fraction, "");
    } else {
      ScientificParses(f);
    }
  }

  lemma SmallWorth(digits: string, zeros: nat)
    requires AllDigits(digits)
    ensures AllDigits("0" + (Zeros(zeros) + digits))
    ensures Decimal("0" + (Zeros(zeros) + digits)) == Decimal(digits)
  {
    assert "0" + (Zeros(zeros) + digits) == Zeros(zeros + 1) + digits;
    ZerosWorthless(zeros + 1);
    DecimalJoin(Zeros(zeros + 1), digits);
  }

  lemma LargeWorth(digits: string, zeros: nat)
    requires AllDigits(digits)
    ensures AllDigits(digits + Zeros(zeros) + "0")
    ensures Decimal(digits + Zeros(zeros) + "0") == Decimal(digits) * Pow(zeros + 1)
  {
    assert digits + Zeros(zeros) + "0" == digits + Zeros(zeros + 1);
    ZerosWorthless(zeros + 1);
    DecimalJoin(digits, Zeros(zeros + 1));
  }

  /** A split of the digits is worth what they are, the point moved back. */
  lemma SplitWorth(f: Shortest, n: Numeral)
    requires Valid(f) && !f.negative && !n.negative && n.whole + n.fraction == f.digits
    requires n.power - |n.fraction| == Point(f) - |f.digits|
    ensures Digital(n) && Value(n) == Worth(f)
  {}

  lemma SmallPartsWorth(f: Shortest)
    requires Valid(f) && !f.negative && -4 < Point(f) <= 0
    ensures Digital(Parts(f)) && Value(Parts(f)) == Worth(f)
  {
    SmallWorth(f.digits, -Point(f));
  }

  lemma LargePartsWorth(f: Shortest)
    requires Valid(f) && !f.negative && |f.digits| <= Point(f) <= 16
    ensures Digital(Parts(f)) && Value(Parts(f)) == Worth(f)
  {
    LargeWorth(f.digits, Point(f) - |f.digits|);
    PaddedOnce(Decimal(f.digits), Point(f) - |f.digits|);
  }

  lemma PartsWorth(f: Shortest)
    requires Valid(f) && !f.negative
    ensures Digital(Parts(f)) && Value(Parts(f)) == Worth(f)
  {
    var digits, decpt := f.digits, Point(f);
    if decpt <= -4 || decpt > 16 {
      assert digits[..1] + digits[1..] == digits;
      SplitWorth(f, Parts(f));
    } else if decpt <= 0 {
      SmallPartsWorth(f);
    } else if decpt >= |digits| {
      LargePartsWorth(f);
    } else {
      assert digits[..decpt] + digits[decpt..] == digits;
      SplitWorth(f, Parts(f));
    }
  }

  lemma LayoutUnsigned(f: Shortest)
    requires Valid(f)
    ensures Layout(f) != "" && Layout(f)[0] != '-'
  {}

  lemma Negated(f: Shortest, n: Numeral)
    requires Valid(f) && !f.negative && !n.negative && Digital(n) && Value(n) == Worth(f)
    ensures Value(n.(negative := true)) == Worth(f.(negative := true))
  {}

  /** The layout keeps the decimal value, whichever of the four it is. */
  lemma ReprKeepsValue(f: Shortest)
    requires Valid(f)
    ensures Digital(Parse(Repr(f))) && Value(Parse(Repr(f))) == Worth(f)
  {
    if f.negative {
      NegativeKeepsValue(f.(negative := false));
      assert f.(negative := false).(negative := true) == f;
    } else {
      PositiveKeepsValue(f);
    }
  }

  lemma PositiveKeepsValue(f: Shortest)
    requires Valid(f) && !f.negative
    ensures Digital(Parse(Repr(f))) && Value(Parse(Repr(f))) == Worth(f)
  {
    LayoutParses(f);
    PartsWorth(f);
    assert Repr(f) == Layout(f);
  }

  lemma NegativeKeepsValue(f: Shortest)
    requires Valid(f) && !f.negative
    ensures var g := f.(negative := true);
      Digital(Parse(Repr(g))) && Value(Parse(Repr(g))) == Worth(g)
  {
    LayoutParses(f);
    PartsWorth(f);
    LayoutUnsigned(f);
    SameLayout(f);
    SignParses(Layout(f));
    Negated(f, Parts(f));
  }

  lemma SameLayout(f: Shortest)
    requires Valid(f)
    ensures Repr(f.(negative := true)) == "-" + Layout(f)
  {}

  lemma SignParses(t: string)
    requires t != "" && t[0] != '-'
    ensures Parse("-" + t) == Parse(t).(negative := true)
  {
    assert ("-" + t)[1..] == t;
  }

  // ── which layout, and what it cannot be mistaken for ──────────────────

  /** isIntegerLiteral: no point and no exponent. */
  predicate IsIntegerLiteral(literal: string) {
    forall i | 0 <= i < |literal| :: literal[i] != '.' && literal[i] != 'e' && literal[i] != 'E'
  }

  lemma ReprShape(f: Shortest)
    requires Valid(f)
    ensures !IsIntegerLiteral(Repr(f))
    ensures 'e' !in Repr(f) <==> -4 < Point(f) <= 16
  {
    if -4 < Point(f) <= 16 {
      ReprFixed(f);
    } else {
      ReprMarked(f, Mantissa(f.digits), FormatExponent(Point(f) - 1));
    }
  }

  lemma ReprMarked(f: Shortest, head: string, exponent: string)
    requires Valid(f) && Layout(f) == head + "e" + exponent
    ensures !IsIntegerLiteral(Repr(f)) && 'e' in Repr(f)
  {
    var sign := if f.negative then "-" else "";
    Marked(sign + head, "e" + exponent, 'e');
    assert Repr(f) == sign + head + ("e" + exponent);
  }

  lemma ReprFixed(f: Shortest)
    requires Valid(f) && -4 < Point(f) <= 16
    ensures !IsIntegerLiteral(Repr(f)) && 'e' !in Repr(f)
  {
    var sign := if f.negative then "-" else "";
    var digits, decpt := f.digits, Point(f);
    var whole, fraction := Parts(f).whole, Parts(f).fraction;
    assert Layout(f) == whole + ("." + fraction);
    assert Repr(f) == sign + whole + ("." + fraction);
    Fixed(sign, whole, fraction);
  }

  lemma Marked(head: string, tail: string, mark: char)
    requires tail != "" && tail[0] == mark && (mark == '.' || mark == 'e')
    ensures mark in head + tail && !IsIntegerLiteral(head + tail)
  {
    assert (head + tail)[|head|] == mark;
  }

  lemma Fixed(sign: string, whole: string, fraction: string)
    requires (sign == "" || sign == "-") && AllDigits(whole) && AllDigits(fraction)
    ensures 'e' !in sign + whole + ("." + fraction)
    ensures !IsIntegerLiteral(sign + whole + ("." + fraction))
  {
    Marked(sign + whole, "." + fraction, '.');
  }
}
