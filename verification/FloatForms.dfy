/** A float's spelling in literal terms: the digits it takes, when it is fixed, and
    what it is worth. */
module FloatForms {
  import opened Decimals
  import opened FloatRepr

  /** Digits of which only a lone zero starts with zero. */
  lemma ValidIff(f: Shortest)
    ensures Valid(f) <==>
      f.digits != "" && (forall c | c in f.digits :: c in "0123456789") && (f.digits[0] == '0' ==> f.digits == "0")
  {
    forall c ensures '0' <= c <= '9' <==> c in "0123456789" {}
    assert forall c | c in f.digits :: exists i :: 0 <= i < |f.digits| && f.digits[i] == c;
    assert forall i | 0 <= i < |f.digits| :: f.digits[i] in f.digits;
    assert f.digits != "" && f.digits[0] == '0' && |f.digits| == 1 ==> f.digits == "0";
  }

  lemma IntegerIff(literal: string)
    ensures IsIntegerLiteral(literal) <==> forall c | c in ".eE" :: c !in literal
  {
    assert ".eE"[0] in ".eE" && ".eE"[1] in ".eE" && ".eE"[2] in ".eE";
    forall i | 0 <= i < |literal| ensures literal[i] in literal {}
  }

  /** Fixed notation is for powers of ten from -4 to 15, and for zero. */
  lemma FixedIff(f: Shortest)
    requires Valid(f)
    ensures 'e' !in Repr(f) <==> f.digits == "0" || -4 <= f.exp <= 15
  {
    ReprShape(f);
  }

  /** The digits, the point after the first of them, times ten to the exponent. */
  function Meant(f: Shortest): real
    requires Valid(f)
  {
    var size := Decimal(f.digits) as real * Ten(f.exp - (|f.digits| - 1));
    if f.negative then -size else size
  }

  /** What is written is worth that. */
  lemma ReprValue(f: Shortest)
    requires Valid(f)
    ensures Digital(Parse(Repr(f))) && Value(Parse(Repr(f))) == Meant(f)
  {
    ReprKeepsValue(f);
    WorthIsMeant(f);
  }

  lemma WorthIsMeant(f: Shortest)
    requires Valid(f)
    ensures Worth(f) == Meant(f)
  {
    var p := f.exp - (|f.digits| - 1);
    if f.digits == "0" {
      ZeroWorth();
      NoSize(Point(f) - |f.digits|);
      NoSize(p);
    } else {
      assert Point(f) - |f.digits| == p;
    }
  }

  lemma ZeroWorth()
    ensures AllDigits("0") && Decimal("0") == 0
  {
    assert "0"[..0] == "";
  }

  lemma NoSize(p: int)
    ensures Size(0, p) == 0.0
  {}
}
