/** What a number literal is, as section 6 of RFC 8259 spells it. */
module JsonNumbers {
  import opened Decimals
  import opened JsonPrint
  import FloatRepr

  predicate Whole(s: string) {
    s != "" && AllDigits(s) && (s[0] == '0' ==> |s| == 1)
  }

  predicate FractionText(s: string) {
    s == "" || (|s| > 1 && s[0] == '.' && AllDigits(s[1..]))
  }

  ghost predicate ExponentText(s: string) {
    s == "" || exists mark, sign, digits :: Marked(s, mark, sign, digits)
  }

  predicate Marked(s: string, mark: char, sign: string, digits: string) {
    && s == [mark] + sign + digits && (mark == 'e' || mark == 'E')
    && (sign == "" || sign == "+" || sign == "-") && digits != "" && AllDigits(digits)
  }

  ghost predicate Parts(s: string, sign: string, whole: string, fraction: string, power: string) {
    && s == sign + (whole + (fraction + power)) && (sign == "" || sign == "-")
    && Whole(whole) && FractionText(fraction) && ExponentText(power)
  }

  lemma {:induction false} AllCounted(s: string)
    ensures Digits(s) == |s| <==> AllDigits(s)
    ensures AllDigits(s[..Digits(s)])
    ensures Digits(s) < |s| ==> !IsDigit(s[Digits(s)])
  {
    if s != "" && IsDigit(s[0]) {
      AllCounted(s[1..]);
      assert s[..Digits(s)] == [s[0]] + s[1..][..Digits(s[1..])];
    }
  }

  lemma ExponentSplit(s: string)
    requires s != "" && Exponent(s)
    ensures ExponentText(s)
  {
    var sign := if |s| > 1 && (s[1] == '+' || s[1] == '-') then [s[1]] else "";
    var digits := s[1 + |sign|..];
    AllCounted(digits);
    assert s == [s[0]] + sign + digits;
    assert Marked(s, s[0], sign, digits);
  }

  lemma ExponentMade(mark: char, sign: string, digits: string, s: string)
    requires Marked(s, mark, sign, digits)
    ensures Exponent(s)
  {
    AllCounted(digits);
    if sign == "" {
      assert s[1..] == digits;
    } else {
      assert s[1] == sign[0] && s[2..] == digits;
    }
  }

  lemma ExponentIff(s: string)
    ensures Exponent(s) <==> ExponentText(s)
  {
    if s != "" && Exponent(s) {
      ExponentSplit(s);
    }
    if s != "" && ExponentText(s) {
      var mark, sign, digits :| Marked(s, mark, sign, digits);
      ExponentMade(mark, sign, digits, s);
    }
  }

  lemma FractionOf(s: string) returns (fraction: string, power: string)
    requires FractionAndExponent(s)
    ensures s == fraction + power && FractionText(fraction) && ExponentText(power)
  {
    if s != "" && s[0] == '.' {
      var n := Digits(s[1..]);
      AllCounted(s[1..]);
      fraction, power := s[..1 + n], s[1 + n..];
      assert fraction[1..] == s[1..][..n];
    } else {
      fraction, power := "", s;
    }
    ExponentIff(power);
  }

  lemma FractionBack(fraction: string, power: string)
    requires FractionText(fraction) && ExponentText(power)
    ensures FractionAndExponent(fraction + power)
    ensures fraction + power == "" || !IsDigit((fraction + power)[0])
  {
    var s := fraction + power;
    ExponentIff(power);
    ExponentHead(power);
    if fraction != "" {
      assert s[1..] == fraction[1..] + power;
      FloatRepr.DigitsStop(fraction[1..], power);
      assert s[1 + |fraction[1..]|..] == power;
    } else {
      assert s == power;
    }
  }

  lemma ExponentHead(power: string)
    requires ExponentText(power)
    ensures power == "" || power[0] == 'e' || power[0] == 'E'
  {
    if power != "" {
      var mark, sign, digits :| Marked(power, mark, sign, digits);
    }
  }

  lemma LiteralSplit(s: string) returns (sign: string, whole: string, fraction: string, power: string)
    requires NumberLiteral(s)
    ensures Parts(s, sign, whole, fraction, power)
  {
    sign := if s != "" && s[0] == '-' then "-" else "";
    var unsigned := s[|sign|..];
    var n := Digits(unsigned);
    AllCounted(unsigned);
    whole := unsigned[..n];
    fraction, power := FractionOf(unsigned[n..]);
    Rejoined(s, sign, unsigned, n);
  }

  lemma Rejoined(s: string, sign: string, unsigned: string, n: nat)
    requires sign <= s && unsigned == s[|sign|..] && n <= |unsigned|
    ensures s == sign + (unsigned[..n] + unsigned[n..])
  {}

  lemma LiteralMade(s: string, sign: string, whole: string, fraction: string, power: string)
    requires Parts(s, sign, whole, fraction, power)
    ensures NumberLiteral(s)
  {
    var rest := fraction + power;
    var unsigned := whole + rest;
    FractionBack(fraction, power);
    FloatRepr.DigitsStop(whole, rest);
    assert unsigned[0] == whole[0];
    if sign == "" {
      assert s == unsigned;
    } else {
      assert s[0] == '-' && s[1..] == unsigned;
    }
  }

  /** A sign, a whole number without leading zeros, a fraction and an exponent. */
  lemma NumberLiteralIff(s: string)
    ensures NumberLiteral(s) <==> exists sign, whole, fraction, power :: Parts(s, sign, whole, fraction, power)
  {
    if NumberLiteral(s) {
      var sign, whole, fraction, power := LiteralSplit(s);
    }
    if sign, whole, fraction, power :| Parts(s, sign, whole, fraction, power) {
      LiteralMade(s, sign, whole, fraction, power);
    }
  }
}
