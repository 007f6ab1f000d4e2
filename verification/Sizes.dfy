/** Bounds on the UTF-8 size of text assembled from well-formed pieces. */
module Sizes {
  import opened Strings
  import opened Utf8

  /** A well-formed piece of text and a bound on its bytes. */
  predicate Sized(s: Str, n: nat) {
    WellFormed(s) && Utf8Length(s) <= n
  }

  lemma SizedMeans(s: Str, n: nat)
    requires Sized(s, n)
    ensures Utf8Length(s) <= n
  {
  }

  lemma SizedAscii(s: Str)
    requires IsAscii(s)
    ensures Sized(s, |s|) && Utf8Length(s) == |s|
  {
    AsciiFormed(s);
    AsciiLength(s);
  }

  lemma SizedJoin(a: Str, m: nat, b: Str, n: nat)
    requires Sized(a, m) && Sized(b, n)
    ensures Sized(a + b, m + n)
  {
    FormedAppend(a, b);
  }

  lemma Looser(s: Str, m: nat, n: nat)
    requires Sized(s, m) && m <= n
    ensures Sized(s, n)
  {
  }

  lemma AsciiJoin(a: Str, b: Str)
    requires IsAscii(a) && IsAscii(b)
    ensures IsAscii(a + b)
  {
  }
}
