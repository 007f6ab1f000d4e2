/** The size of a JavaScript string in UTF-8, as TextEncoder counts it: a surrogate pair is four bytes
    and a lone surrogate is replaced by U+FFFD, three bytes. */
module Utf8 {
  import opened Strings

  predicate High(u: Unit) {
    0xD800 <= u < 0xDC00
  }

  predicate Low(u: Unit) {
    0xDC00 <= u < 0xE000
  }

  /** The string starts with a surrogate pair. */
  predicate Pair(s: Str) {
    |s| >= 2 && High(s[0]) && Low(s[1])
  }

  function UnitLength(u: Unit): (n: nat)
    ensures 1 <= n <= 3
  {
    if u < 0x80 then 1 else if u < 0x800 then 2 else 3
  }

  function Utf8Length(s: Str): nat {
    if |s| == 0 then 0
    else if Pair(s) then 4 + Utf8Length(s[2..])
    else UnitLength(s[0]) + Utf8Length(s[1..])
  }

  /** Cutting here splits no surrogate pair. */
  predicate Seam(a: Str, b: Str) {
    |a| == 0 || |b| == 0 || !(High(a[|a| - 1]) && Low(b[0]))
  }

  /** Sizes add up where no pair is split. */
  lemma {:induction false} Utf8Append(a: Str, b: Str)
    requires Seam(a, b)
    ensures Utf8Length(a + b) == Utf8Length(a) + Utf8Length(b)
    decreases |a|
  {
    var s := a + b;
    if |a| == 0 {
      assert s == b;
    } else if Pair(a) {
      assert s[2..] == a[2..] + b;
      Utf8Append(a[2..], b);
    } else {
      assert s[1..] == a[1..] + b;
      Utf8Append(a[1..], b);
    }
  }

  /** No lone surrogates: the source's `isUnicode`. */
  predicate WellFormed(s: Str) {
    |s| == 0 || (if Pair(s) then WellFormed(s[2..]) else !High(s[0]) && !Low(s[0]) && WellFormed(s[1..]))
  }

  /** The number of code points, `[...s].length`. */
  function CodePoints(s: Str): nat {
    if |s| == 0 then 0 else if Pair(s) then 1 + CodePoints(s[2..]) else 1 + CodePoints(s[1..])
  }

  predicate IsAscii(s: Str) {
    forall i :: 0 <= i < |s| ==> s[i] < 0x80
  }

  lemma {:induction false} AsciiLength(s: Str)
    requires IsAscii(s)
    ensures Utf8Length(s) == |s|
  {
    if |s| != 0 {
      AsciiLength(s[1..]);
    }
  }

  lemma {:induction false} AsciiFormed(s: Str)
    requires IsAscii(s)
    ensures WellFormed(s)
  {
    if |s| != 0 {
      AsciiFormed(s[1..]);
    }
  }

  /** Well-formed strings join into one, and their sizes add up. */
  lemma {:induction false} FormedAppend(a: Str, b: Str)
    requires WellFormed(a) && WellFormed(b)
    ensures WellFormed(a + b) && Utf8Length(a + b) == Utf8Length(a) + Utf8Length(b)
    decreases |a|
  {
    var s := a + b;
    if |a| == 0 {
      assert s == b;
    } else if Pair(a) {
      FormedAppend(a[2..], b);
      PairFirst(a, s);
      assert s[2..] == a[2..] + b;
    } else {
      FormedAppend(a[1..], b);
      assert s[1..] == a[1..] + b;
    }
  }

  lemma PairFirst(a: Str, s: Str)
    requires Pair(a) && |s| >= |a| && s[0] == a[0] && s[1] == a[1]
    ensures WellFormed(s) == WellFormed(s[2..]) && Utf8Length(s) == 4 + Utf8Length(s[2..])
  {
  }

  lemma {:induction false} UnitsFit(s: Str)
    ensures |s| <= Utf8Length(s)
    decreases |s|
  {
    if |s| != 0 {
      if Pair(s) {
        UnitsFit(s[2..]);
      } else {
        UnitsFit(s[1..]);
      }
    }
  }

  /** The code units of ASCII source text; anything else, which no caller writes, becomes a question mark. */
  function Units(text: string): (s: Str)
    ensures |s| == |text| && IsAscii(s)
    ensures forall i :: 0 <= i < |text| && text[i] as int < 128 ==> s[i] == text[i] as int
  {
    seq(|text|, i requires 0 <= i < |text| => if text[i] as int < 128 then text[i] as int else 63)
  }
}
