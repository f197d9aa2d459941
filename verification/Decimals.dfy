/** Decimal digits: what a digit string is worth, and how a figure is spelled. */
module Decimals {
  import opened Options

  predicate AllDigits(s: string) {
    forall i | 0 <= i < |s| :: '0' <= s[i] <= '9'
  }

  function Decimal(s: string): nat
    requires AllDigits(s)
  {
    if s == "" then 0
    else 10 * Decimal(s[..|s| - 1]) + (s[|s| - 1] as int - '0' as int)
  }

  function Pow(n: nat): (p: nat)
    ensures p > 0
  {
    if n == 0 then 1 else 10 * Pow(n - 1)
  }

  lemma DecimalSnoc(s: string, front: string, last: char)
    requires AllDigits(s) && s == front + [last]
    ensures AllDigits(front) && Decimal(s) == 10 * Decimal(front) + (last as int - '0' as int)
  {
    assert s[..|s| - 1] == front && s[|s| - 1] == last;
  }

  lemma DigitsJoin(a: string, b: string)
    requires AllDigits(a) && AllDigits(b)
    ensures AllDigits(a + b)
  {}

  /** A figure followed by zeros. */
  function Shifted(x: int, n: nat): int {
    if n == 0 then x else 10 * Shifted(x, n - 1)
  }

  lemma {:induction false} ShiftedIs(x: int, n: nat)
    ensures Shifted(x, n) == x * Pow(n)
  {
    if n > 0 {
      ShiftedIs(x, n - 1);
      Carry(x, Pow(n - 1));
    }
  }

  lemma Carry(x: int, p: int)
    ensures 10 * (x * p) == x * (10 * p)
  {}

  lemma {:induction false} JoinShifts(a: string, b: string)
    requires AllDigits(a) && AllDigits(b) && AllDigits(a + b)
    ensures Decimal(a + b) == Shifted(Decimal(a), |b|) + Decimal(b)
    decreases |b|
  {
    if b == "" {
      assert a + b == a;
    } else {
      var front, last := b[..|b| - 1], b[|b| - 1];
      assert b == front + [last] && a + b == (a + front) + [last];
      DecimalSnoc(a + b, a + front, last);
      DecimalSnoc(b, front, last);
      JoinShifts(a, front);
    }
  }

  lemma DecimalJoin(a: string, b: string)
    requires AllDigits(a) && AllDigits(b)
    ensures AllDigits(a + b) && Decimal(a + b) == Decimal(a) * Pow(|b|) + Decimal(b)
  {
    DigitsJoin(a, b);
    JoinShifts(a, b);
    ShiftedIs(Decimal(a), |b|);
  }

  // ── one spelling ──────────────────────────────────────────────────────

  /** A whole number without leading zeros. */
  predicate Unsigned(s: string) {
    s != "" && AllDigits(s) && (s[0] == '0' ==> |s| == 1)
  }

  lemma {:induction false} DecimalPositive(s: string)
    requires AllDigits(s) && s != "" && s[0] != '0'
    ensures Decimal(s) > 0
  {
    if |s| > 1 {
      DecimalPositive(s[..|s| - 1]);
    }
  }

  lemma {:induction false} DigitsDetermined(a: string, b: string)
    requires AllDigits(a) && AllDigits(b) && Decimal(a) == Decimal(b)
    requires (a != "" ==> a[0] != '0') && (b != "" ==> b[0] != '0')
    ensures a == b
  {
    if a == "" || b == "" {
      if a != "" { DecimalPositive(a); }
      if b != "" { DecimalPositive(b); }
    } else {
      var m, n := |a| - 1, |b| - 1;
      assert Decimal(a[..m]) == Decimal(a) / 10 && Decimal(b[..n]) == Decimal(b) / 10;
      DigitsDetermined(a[..m], b[..n]);
      assert a == a[..m] + [a[m]] && b == b[..n] + [b[n]];
    }
  }

  lemma ZeroLeads(s: string)
    requires Unsigned(s)
    ensures s[0] == '0' <==> Decimal(s) == 0
  {
    if s[0] == '0' {
      assert s[..0] == "";
    } else {
      DecimalPositive(s);
    }
  }

  /** Without leading zeros the digits are determined by the figure. */
  lemma UnsignedDetermined(a: string, b: string)
    requires Unsigned(a) && Unsigned(b) && Decimal(a) == Decimal(b)
    ensures a == b
  {
    ZeroLeads(a);
    ZeroLeads(b);
    if a[0] != '0' {
      DigitsDetermined(a, b);
    }
  }

  /** strconv.Itoa, of what is not negative. */
  function Show(n: nat): string {
    var digit := ('0' as int + n % 10) as char;
    if n < 10 then [digit] else Show(n / 10) + [digit]
  }

  lemma {:induction false} ShowBack(n: nat)
    ensures Unsigned(Show(n)) && Decimal(Show(n)) == n
  {
    var digit := ('0' as int + n % 10) as char;
    if n < 10 {
      assert Show(n)[..0] == "";
    } else {
      ShowBack(n / 10);
      ZeroLeads(Show(n / 10));
      assert Show(n)[..|Show(n)| - 1] == Show(n / 10);
    }
  }

  // ── signed 64-bit, as strconv.ParseInt(s, 10, 64) reads it ────────────

  function ParseInt(s: string): Option<int> {
    var negative := s != "" && s[0] == '-';
    var digits := if s != "" && (s[0] == '-' || s[0] == '+') then s[1..] else s;
    if digits == "" || !AllDigits(digits) then None
    else
      var n := if negative then -(Decimal(digits) as int) else Decimal(digits);
      if -0x8000_0000_0000_0000 <= n < 0x8000_0000_0000_0000 then Some(n) else None
  }
}
