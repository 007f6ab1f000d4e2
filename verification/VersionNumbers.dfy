/** When a number written in JSON is the version 1 of a note: the double nearest to it is 1
    (extension/coordination-notes.ts). */
module VersionNumbers {
  import opened Strings
  import opened Json
  import opened JsonLexis
  import opened Notes
  import Decimal

  // --- The real number a text denotes ---

  /** The number digits denote, the last one counting ones. */
  function Amount(s: Str): int {
    if s == [] then 0 else Amount(s[..|s| - 1]) * 10 + (s[|s| - 1] as int - 48)
  }

  function Ten(k: nat): (t: real)
    ensures t > 0.0
  {
    if k == 0 then 1.0 else 10.0 * Ten(k - 1)
  }

  /** A number times a power of ten. */
  function Scaled(x: real, k: int): real {
    if k >= 0 then x * Ten(k) else x / Ten(-k)
  }

  /** The digits behind the point. */
  function Behind(f: Str): Str {
    if f == [] then [] else f[1..]
  }

  /** The power of ten an exponent gives. */
  function Power(e: Str): int {
    if |e| < 2 then 0 else if e[1] == 45 then -Amount(e[2..]) else if e[1] == 43 then Amount(e[2..]) else Amount(e[1..])
  }

  /** What a number without its sign denotes. */
  function Magnitude(whole: Str, f: Str, e: Str): real {
    Scaled(Amount(whole) as real + Scaled(Amount(Behind(f)) as real, -|Behind(f)|), Power(e))
  }

  predicate AllDigits(s: Str) {
    forall i :: 0 <= i < |s| ==> 48 <= s[i] <= 57
  }

  // --- Digits ---

  lemma {:induction false} AmountIsValue(s: Str)
    requires AllDigits(s)
    ensures Decimal.Digits(s) && Amount(s) == Decimal.Value(s)
    decreases |s|
  {
    if s != [] {
      var t := s[..|s| - 1];
      AmountIsValue(t);
      Decimal.ValueSnoc(t, s[|s| - 1]);
      assert s == t + [s[|s| - 1]];
    }
  }

  lemma {:induction false} AmountJoined(a: Str, b: Str, t: real)
    requires t == Ten(|b|)
    ensures Amount(a + b) as real == Amount(a) as real * t + Amount(b) as real
    decreases |b|
  {
    hide *;
    if b == [] {
      assert a + b == a;
      Nothing(Amount(a) as real, t);
    } else {
      var c, d := b[..|b| - 1], b[|b| - 1];
      assert (a + b)[..|a + b| - 1] == a + c && (a + b)[|a + b| - 1] == d;
      AmountLast(a + b);
      AmountLast(b);
      AmountJoined(a, c, Ten(|c|));
      TenMore(|c|);
      TenTimes(Amount(a) as real, Amount(c) as real, d as real - 48.0, Ten(|c|), t, Amount(a + c) as real);
    }
  }

  lemma Nothing(x: real, t: real)
    requires t == Ten(0)
    ensures x == x * t + Amount([]) as real
  {
  }

  lemma AmountLast(s: Str)
    requires s != []
    ensures Amount(s) as real == Amount(s[..|s| - 1]) as real * 10.0 + (s[|s| - 1] as real - 48.0)
  {
  }

  lemma TenMore(k: nat)
    ensures Ten(k + 1) == 10.0 * Ten(k)
  {
  }

  lemma TenTimes(x: real, y: real, d: real, small: real, large: real, joined: real)
    requires joined == x * small + y && large == 10.0 * small
    ensures joined * 10.0 + d == x * large + (y * 10.0 + d)
  {
  }

  lemma {:induction false} TenIsPow(k: nat)
    ensures Ten(k) == Decimal.Pow10(k) as real
  {
    if k != 0 {
      TenIsPow(k - 1);
    }
  }

  lemma {:induction false} TenSum(m: nat, n: nat, a: real, b: real, t: real)
    requires a == Ten(m) && b == Ten(n) && t == Ten(m + n)
    ensures t == a * b
    decreases m
  {
    if m != 0 {
      TenSum(m - 1, n, Ten(m - 1), b, Ten(m - 1 + n));
      Grouped(10.0, Ten(m - 1), b);
    }
  }

  lemma Grouped(x: real, y: real, z: real)
    ensures x * (y * z) == (x * y) * z
  {
  }

  // --- Moving the point ---

  lemma PointMoved(w: real, d: real, n: nat, k: int, t: real)
    requires t == Ten(n)
    ensures Scaled(w + Scaled(d, -(n as int)), k) == Scaled(w * t + d, k - n)
  {
    hide *;
    var q := Scaled(d, -(n as int));
    Down(d, n, t);
    Over(w, d, t, q);
    Moved(w + q, w * t + d, n, k, t);
  }

  lemma Moved(x: real, y: real, n: nat, k: int, t: real)
    requires t == Ten(n) && x * t == y
    ensures Scaled(x, k) == Scaled(y, k - n)
  {
    hide *;
    if k >= n {
      MovedUp(x, y, n, k, t, Ten(k - n), Ten(k));
    } else if k >= 0 {
      MovedIn(x, y, n, k, t, Ten(k), Ten(n - k));
    } else {
      MovedDown(x, y, n, k, t, Ten(-k), Ten(n - k));
    }
  }

  lemma MovedUp(x: real, y: real, n: nat, k: nat, t: real, a: real, b: real)
    requires k >= n && t == Ten(n) && a == Ten(k - n) && b == Ten(k) && x * t == y
    ensures Scaled(x, k) == Scaled(y, k - n)
  {
    hide *;
    TenSum(n, k - n, t, a, b);
    Up(x, k, b);
    Up(y, k - n, a);
    Raised(x, t, a, b, y);
  }

  lemma MovedIn(x: real, y: real, n: nat, k: nat, t: real, a: real, b: real)
    requires k <= n && t == Ten(n) && a == Ten(k) && b == Ten(n - k) && x * t == y
    ensures Scaled(x, k) == Scaled(y, k - n)
  {
    hide *;
    TenSum(k, n - k, a, b, t);
    Up(x, k, a);
    Down(y, n - k, b);
    Lowered(x, a, b, t, y);
  }

  lemma MovedDown(x: real, y: real, n: nat, k: int, t: real, a: real, b: real)
    requires k <= 0 && t == Ten(n) && a == Ten(-k) && b == Ten(n - k) && x * t == y
    ensures Scaled(x, k) == Scaled(y, k - n)
  {
    hide *;
    TenSum(n, -k, t, a, b);
    Down(x, -k, a);
    Down(y, n - k, b);
    Shared(x, t, a, b, y);
  }

  lemma Up(x: real, k: nat, t: real)
    requires t == Ten(k)
    ensures Scaled(x, k) == x * t
  {
  }

  lemma Down(x: real, k: nat, t: real)
    requires t == Ten(k)
    ensures t > 0.0 && Scaled(x, -(k as int)) == x / t
  {
  }

  lemma Over(w: real, d: real, t: real, q: real)
    requires t > 0.0 && q == d / t
    ensures (w + q) * t == w * t + d
  {
    assert q * t == d;
  }

  lemma Raised(x: real, a: real, b: real, t: real, y: real)
    requires x * a == y && t == a * b
    ensures x * t == y * b
  {
    Grouped(x, a, b);
  }

  lemma Lowered(x: real, a: real, b: real, t: real, y: real)
    requires b > 0.0 && t == a * b && x * t == y
    ensures x * a == y / b
  {
    Grouped(x, a, b);
    Undone(x * a, b);
  }

  lemma Shared(x: real, a: real, b: real, t: real, y: real)
    requires a > 0.0 && b > 0.0 && t == a * b && x * a == y
    ensures t > 0.0 && x / b == y / t
  {
    var q := x / b;
    assert q * b == x;
    Grouped(q, b, a);
    assert t == b * a;
    assert q * t == y;
    Undone(q, t);
  }

  lemma Undone(x: real, t: real)
    requires t > 0.0
    ensures (x * t) / t == x
  {
  }

  // --- Reading ---

  lemma PowerRead(e: Str)
    requires Exponent(e)
    ensures ExponentOf(e) == Power(e)
  {
    if e != [] {
      var d := if e[1] == 43 || e[1] == 45 then e[2..] else e[1..];
      RunAll(d);
      AmountIsValue(d);
      assert d[..|d|] == d;
      assert RunValue(d) == Amount(d);
    }
  }

  lemma ReadParts(text: Str, sign: Str, whole: Str, f: Str, e: Str)
    requires NumberOf(text, sign, whole, f, e)
    ensures ReadNumber(text) == Scientific(sign == [45], whole + Behind(f), Power(e) - |Behind(f)|)
  {
    hide DigitRun, Exponent, Fraction;
    var t := whole + (f + e);
    SignFirst(text, sign, t, whole, f, e);
    PowerRead(e);
    WholeFirst(whole, f, e);
    FractionFirst(whole, f, e);
    hide Power, ExponentOf, Behind;
  }

  lemma WholeFirst(whole: Str, f: Str, e: Str)
    requires Whole(whole) && Fraction(f) && Exponent(e)
    ensures var t := whole + (f + e);
      DigitRun(t) == |whole| <= |t| && t[..|whole|] == whole && t[|whole|..] == f + e
  {
    FractionWritten(f, e);
    RunStops(whole, f + e);
    hide DigitRun, Exponent, Fraction, IsFraction;
  }

  lemma FractionFirst(whole: Str, f: Str, e: Str)
    requires Fraction(f) && Exponent(e)
    ensures var t := whole + (f + e); var n := |whole|;
      if f == [] then (n < |t| ==> t[n] != 46) && t[n..] == e && whole + Behind(f) == whole && Behind(f) == []
      else n < |t| && t[n] == 46
           && (var rest := t[n + 1..];
               DigitRun(rest) == |Behind(f)| <= |rest| && rest[..|Behind(f)|] == Behind(f) && rest[|Behind(f)|..] == e)
  {
    ExponentStart(e);
    hide Exponent;
    var t := whole + (f + e);
    if f == [] {
      assert f + e == e && t[|whole|..] == e;
    } else {
      RunStops(f[1..], e);
      assert t[|whole| + 1..] == f[1..] + e;
      hide DigitRun;
    }
  }

  lemma ExponentStart(e: Str)
    requires Exponent(e)
    ensures e != [] ==> !(48 <= e[0] <= 57) && e[0] != 46
  {
  }

  // --- The version ---

  lemma NearestReal(a: nat, b: nat)
    requires b > 0
    ensures NearestIsOne(a, b) <==> 18014398509481983.0 / 18014398509481984.0 <= a as real / b as real <= 9007199254740993.0 / 9007199254740992.0
  {
    var x, y := a as real, b as real;
    AtLeast(18014398509481983.0, 18014398509481984.0, x, y);
    AtLeast(x, y, 9007199254740993.0, 9007199254740992.0);
  }

  lemma AtLeast(p: real, q: real, a: real, b: real)
    requires q > 0.0 && b > 0.0
    ensures p * b <= q * a <==> p / q <= a / b
  {
    var x, y := p / q, a / b;
    assert x * q == p && y * b == a;
    Grouped(q, x, b);
    Grouped(q, y, b);
    assert p * b == (q * x) * b == (x * b) * q && q * a == (q * y) * b == (y * b) * q;
    Ordered(x, y, b);
    Ordered(x * b, y * b, q);
  }

  lemma Ordered(p: real, q: real, y: real)
    requires y > 0.0
    ensures p <= q <==> p * y <= q * y
  {
  }

  /** A version written as a number is accepted exactly when it is not negative and the double nearest to what it denotes is
      1: at least 1 - 1/2^54 and at most 1 + 1/2^53. */
  lemma VersionMeans(text: Str, sign: Str, whole: Str, f: Str, e: Str)
    requires NumberOf(text, sign, whole, f, e)
    ensures var v := Magnitude(whole, f, e);
      IsOne(text) <==> sign == [] && 1.0 - 1.0 / 18014398509481984.0 <= v <= 1.0 + 1.0 / 9007199254740992.0
  {
    hide *;
    var digits, k := whole + Behind(f), Power(e) - |Behind(f)|;
    ReadParts(text, sign, whole, f, e);
    NumberDigits(text, sign, whole, f, e);
    AmountIsValue(digits);
    MagnitudeMoved(whole, f, e);
    OneIs(text, sign == [45], digits, k);
    OneScaled(Decimal.Value(digits), k);
  }

  lemma MagnitudeMoved(whole: Str, f: Str, e: Str)
    ensures Magnitude(whole, f, e) == Scaled(Amount(whole + Behind(f)) as real, Power(e) - |Behind(f)|)
  {
    hide *;
    var w, d, n := Amount(whole) as real, Amount(Behind(f)) as real, |Behind(f)|;
    var t := Ten(n);
    MagnitudeIs(whole, f, e);
    AmountJoined(whole, Behind(f), t);
    PointMoved(w, d, n, Power(e), t);
    Same(w * t + d, Amount(whole + Behind(f)) as real, Power(e) - n);
  }

  lemma Same(x: real, y: real, k: int)
    requires x == y
    ensures Scaled(x, k) == Scaled(y, k)
  {
  }

  lemma MagnitudeIs(whole: Str, f: Str, e: Str)
    ensures Magnitude(whole, f, e) == Scaled(Amount(whole) as real + Scaled(Amount(Behind(f)) as real, -|Behind(f)|), Power(e))
  {
  }

  /** The double nearest to m times a power of ten is 1. */
  predicate NearOne(m: nat, k: int) {
    if k >= 0 then
      Decimal.MulNonNegative(m, Decimal.Pow10(k));
      NearestIsOne(m * Decimal.Pow10(k), 1)
    else NearestIsOne(m, Decimal.Pow10(-k))
  }

  lemma OneIs(text: Str, negative: bool, digits: Str, k: int)
    requires ReadNumber(text) == Scientific(negative, digits, k) && Decimal.Digits(digits)
    ensures IsOne(text) <==> !negative && NearOne(Decimal.Value(digits), k)
  {
    hide ReadNumber, Decimal.Value, NearestIsOne, Decimal.Pow10;
  }

  lemma NumberDigits(text: Str, sign: Str, whole: Str, f: Str, e: Str)
    requires NumberOf(text, sign, whole, f, e)
    ensures AllDigits(whole + Behind(f)) && (sign == [] <==> sign != [45])
  {
    DigitsRead(whole, f);
    hide AllDigits, Behind, Whole, Fraction, Exponent;
  }

  lemma DigitsRead(whole: Str, f: Str)
    requires Whole(whole) && Fraction(f)
    ensures AllDigits(whole + Behind(f))
  {
  }

  lemma OneScaled(m: nat, k: int)
    ensures NearOne(m, k) <==> 1.0 - 1.0 / 18014398509481984.0 <= Scaled(m as real, k) <= 1.0 + 1.0 / 9007199254740992.0
  {
    if k >= 0 {
      TenIsPow(k);
      NearestReal(m * Decimal.Pow10(k), 1);
      Product(m, Decimal.Pow10(k));
    } else {
      TenIsPow(-k);
      NearestReal(m, Decimal.Pow10(-k));
    }
    hide Ten, NearestIsOne;
  }

  lemma Product(a: nat, b: nat)
    ensures (a * b) as real == a as real * b as real
  {
  }
}
