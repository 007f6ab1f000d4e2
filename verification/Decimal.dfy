/** Canonical unsigned decimals of the wire: the strings `0|[1-9][0-9]{0,19}`. */
module Decimal {
  import opened Strings

  const ZERO: Unit := 48
  const MAX_DIGITS := 20
  const MAX_UINT64: nat := 18446744073709551615

  /** The result of comparing two sequences; `Incomparable` is the source's NaN. */
  datatype Order = Before | Same | After | Incomparable

  predicate Digits(s: Str) {
    forall i :: 0 <= i < |s| ==> 48 <= s[i] <= 57
  }

  predicate Canonical(s: Str) {
    1 <= |s| <= MAX_DIGITS && Digits(s) && (s[0] != ZERO || |s| == 1)
  }

  function Pow10(n: nat): (p: nat)
    ensures p >= 1
  {
    if n == 0 then 1 else 10 * Pow10(n - 1)
  }

  /** The number a digit string denotes. */
  function Value(s: Str): nat
    requires Digits(s)
  {
    if |s| == 0 then 0 else (s[0] - 48) * Pow10(|s| - 1) + Value(s[1..])
  }

  /** The number a canonical string denotes, as a total function. */
  function Num(s: Str): nat {
    if Canonical(s) then Value(s) else 0
  }

  /** The comparison the source makes: by length, then as strings. No number is built. */
  function CompareSequence(left: Str, right: Str): Order {
    if !Canonical(left) || !Canonical(right) then Incomparable
    else if |left| != |right| then if |left| < |right| then Before else After
    else if Less(left, right) then Before
    else if Less(right, left) then After
    else Same
  }

  lemma MulNonNegative(k: nat, p: nat)
    ensures k * p >= 0
  {
  }

  lemma {:induction false} ValueBound(s: Str)
    requires Digits(s)
    ensures Value(s) < Pow10(|s|)
  {
    if |s| != 0 {
      ValueBound(s[1..]);
      AtMostNine(s[0] - 48, Pow10(|s| - 1));
    }
  }

  lemma AtMostNine(d: nat, p: nat)
    requires d <= 9
    ensures d * p <= 9 * p
  {
    var k: nat := 9 - d;
    MulNonNegative(k, p);
    assert 9 * p == (d + k) * p == d * p + k * p;
  }

  lemma {:induction false} PowMonotone(m: nat, n: nat)
    requires m <= n
    ensures Pow10(m) <= Pow10(n)
    decreases n
  {
    if m < n {
      PowMonotone(m, n - 1);
    }
  }

  /** A leading digit outweighs every digit string after it. */
  lemma LeadingDigit(x: nat, y: nat, u: nat, v: nat, p: nat)
    requires x < y && u < p
    ensures x * p + u < y * p + v
  {
    var k: nat := y - x - 1;
    calc {
      y * p;
      (x + 1 + k) * p;
      x * p + p + k * p;
    >= { MulNonNegative(k, p); }
      x * p + p;
    }
  }

  /** A longer canonical string denotes a larger number. */
  lemma LongerIsLarger(a: Str, b: Str)
    requires Canonical(a) && Canonical(b) && |a| < |b|
    ensures Value(a) < Value(b)
  {
    ValueBound(a);
    PowMonotone(|a|, |b| - 1);
    LeadingDigit(0, b[0] - 48, Value(a), Value(b[1..]), Pow10(|b| - 1));
  }

  /** Among digit strings of one length the string order is the numeric order. */
  lemma {:induction false} SameLengthOrder(a: Str, b: Str)
    requires Digits(a) && Digits(b) && |a| == |b|
    ensures Less(a, b) <==> Value(a) < Value(b)
    ensures a == b <==> Value(a) == Value(b)
  {
    if |a| != 0 {
      SameLengthOrder(a[1..], b[1..]);
      assert a == [a[0]] + a[1..] && b == [b[0]] + b[1..];
      var x, y, p := a[0] - 48, b[0] - 48, Pow10(|a| - 1);
      ValueBound(a[1..]);
      ValueBound(b[1..]);
      var u, v := Value(a[1..]), Value(b[1..]);
      if x < y {
        LeadingDigit(x, y, u, v, p);
      } else if y < x {
        LeadingDigit(y, x, v, u, p);
      }
    }
  }

  /** The comparison decides exactly the numeric order, and is NaN exactly off the canonical strings. */
  lemma CompareIsNumeric(left: Str, right: Str)
    ensures CompareSequence(left, right) == Incomparable <==> !(Canonical(left) && Canonical(right))
    ensures Canonical(left) && Canonical(right) ==>
              && (CompareSequence(left, right) == Before <==> Num(left) < Num(right))
              && (CompareSequence(left, right) == Same <==> Num(left) == Num(right))
              && (CompareSequence(left, right) == After <==> Num(left) > Num(right))
              && (left == right <==> Num(left) == Num(right))
  {
    if Canonical(left) && Canonical(right) {
      if |left| < |right| {
        LongerIsLarger(left, right);
      } else if |right| < |left| {
        LongerIsLarger(right, left);
      } else {
        SameLengthOrder(left, right);
        SameLengthOrder(right, left);
      }
    }
  }

  /** The decimal a number prints as. */
  function Render(n: nat): (s: Str)
    ensures |s| >= 1 && Digits(s) && (s[0] != ZERO || |s| == 1)
  {
    if n < 10 then [48 + n] else Render(n / 10) + [48 + n % 10]
  }

  lemma {:induction false} ValueSnoc(s: Str, d: Unit)
    requires Digits(s) && 48 <= d <= 57
    ensures Value(s + [d]) == 10 * Value(s) + (d - 48)
  {
    var t := s + [d];
    if |s| == 0 {
      assert t == [d];
      assert Value(t) == (d - 48) * 1 + Value(t[1..]);
    } else {
      assert t[1..] == s[1..] + [d];
      ValueSnoc(s[1..], d);
      var x, p := s[0] - 48, Pow10(|s| - 1);
      assert Value(s) == x * p + Value(s[1..]);
      assert Value(t) == x * Pow10(|s|) + Value(t[1..]);
      TenTimes(x, p);
      assert Pow10(|s|) == 10 * p;
      hide Pow10, Value;
    }
  }

  lemma TenTimes(x: nat, p: nat)
    ensures x * (10 * p) == 10 * (x * p)
  {
  }

  /** Printing then reading gives the number back, so distinct numbers print differently. */
  lemma {:induction false} RenderValue(n: nat)
    ensures Value(Render(n)) == n
  {
    if n >= 10 {
      RenderValue(n / 10);
      ValueSnoc(Render(n / 10), 48 + n % 10);
    } else {
      assert Value(Render(n)) == n * Pow10(0) + Value(Render(n)[1..]);
    }
  }

  lemma {:induction false} RenderLength(n: nat, k: nat)
    requires k >= 1 && n < Pow10(k)
    ensures |Render(n)| <= k
    decreases k
  {
    if n >= 10 {
      assert Pow10(k) == 10 * Pow10(k - 1);
      assert Pow10(0) == 1;
      RenderLength(n / 10, k - 1);
    }
  }

  lemma FiveZeros(n: nat)
    ensures Pow10(n + 5) == 100000 * Pow10(n)
  {
    assert Pow10(n + 5) == 10 * Pow10(n + 4) == 100 * Pow10(n + 3);
    assert Pow10(n + 3) == 10 * Pow10(n + 2) == 100 * Pow10(n + 1);
  }

  /** Every 64-bit number prints as a canonical decimal of at most 20 digits. */
  lemma RenderCanonical(n: nat)
    requires n <= MAX_UINT64
    ensures Canonical(Render(n)) && Num(Render(n)) == n
  {
    RenderValue(n);
    assert Pow10(0) == 1;
    FiveZeros(0);
    FiveZeros(5);
    FiveZeros(10);
    FiveZeros(15);
    RenderLength(n, 20);
  }

  lemma RenderInjective(m: nat, n: nat)
    requires Render(m) == Render(n)
    ensures m == n
  {
    RenderValue(m);
    RenderValue(n);
  }
}
