/** JavaScript strings as sequences of UTF-16 code units, ordered as `<` orders them. */
module Strings {

  type Unit = u: int | 0 <= u < 0x1_0000
  type Str = seq<Unit>

  const QUOTE: Unit := 0x22

  /** The language's `<` on strings: lexicographic by code unit. */
  predicate Less(a: Str, b: Str) {
    |b| != 0 && (|a| == 0 || a[0] < b[0] || (a[0] == b[0] && Less(a[1..], b[1..])))
  }

  lemma {:induction false} LessTransitive(a: Str, b: Str, c: Str)
    requires Less(a, b) && Less(b, c)
    ensures Less(a, c)
  {
    if |a| != 0 && a[0] == b[0] == c[0] {
      LessTransitive(a[1..], b[1..], c[1..]);
    }
  }

  lemma {:induction false} LessAsymmetric(a: Str, b: Str)
    requires Less(a, b)
    ensures !Less(b, a) && a != b
  {
    if |a| != 0 && a[0] == b[0] {
      LessAsymmetric(a[1..], b[1..]);
    }
  }

  lemma {:induction false} LessTotal(a: Str, b: Str)
    ensures Less(a, b) || a == b || Less(b, a)
  {
    if |a| != 0 && |b| != 0 && a[0] == b[0] {
      LessTotal(a[1..], b[1..]);
      assert a == [a[0]] + a[1..] && b == [b[0]] + b[1..];
    }
  }

  /** How many leading code units two strings share. */
  function CommonLength(a: Str, b: Str): (n: nat)
    ensures n <= |a| && n <= |b| && forall i :: 0 <= i < n ==> a[i] == b[i]
    ensures n == |a| || n == |b| || a[n] != b[n]
  {
    if |a| == 0 || |b| == 0 || a[0] != b[0] then 0
    else CommonLength(a[1..], b[1..]) + 1
  }

  predicate HexDigit(u: Unit) {
    48 <= u <= 57 || 65 <= u <= 70 || 97 <= u <= 102
  }

  /** The identifier pattern: hexadecimal digits in groups of 8, 4, 4, 4 and 12. */
  predicate IsUuid(s: Str) {
    |s| == 36 && forall i :: 0 <= i < 36 ==> if i in {8, 13, 18, 23} then s[i] == 45 else HexDigit(s[i])
  }
}
