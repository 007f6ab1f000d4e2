/** The code points of a text, their UTF-16 code units (RFC 2781) and their bytes (RFC 3629): what the sizes of texts count. */
module Utf8Points {
  import opened Options
  import opened Strings
  import opened Utf8

  /** A code point that is no surrogate. */
  predicate IsPoint(p: int) {
    0 <= p < 0xD800 || 0xE000 <= p <= 0x10_FFFF
  }

  /** The code points of a text; a lone surrogate counts as U+FFFD. */
  function Points(s: Str): (ps: seq<int>)
    ensures forall i :: 0 <= i < |ps| ==> IsPoint(ps[i])
  {
    if s == [] then []
    else if Pair(s) then [0x1_0000 + (s[0] - 0xD800) * 0x400 + (s[1] - 0xDC00)] + Points(s[2..])
    else [if 0xD800 <= s[0] < 0xE000 then 0xFFFD else s[0]] + Points(s[1..])
  }

  /** The code units of code points, section 2.1 of RFC 2781. */
  function UnitsOf(p: int): Str
    requires IsPoint(p)
  {
    if p < 0x1_0000 then [p] else [0xD800 + (p - 0x1_0000) / 0x400, 0xDC00 + (p - 0x1_0000) % 0x400]
  }

  function Units16(ps: seq<int>): Str
    requires forall i :: 0 <= i < |ps| ==> IsPoint(ps[i])
  {
    if ps == [] then [] else UnitsOf(ps[0]) + Units16(ps[1..])
  }

  /** The bytes of code points, section 3 of RFC 3629. */
  function BytesOf(p: int): (b: seq<int>)
    requires IsPoint(p)
    ensures |b| >= 1
  {
    if p < 0x80 then [p]
    else if p < 0x800 then [0xC0 + p / 64, 0x80 + p % 64]
    else if p < 0x1_0000 then [0xE0 + p / 64 / 64, 0x80 + p / 64 % 64, 0x80 + p % 64]
    else [0xF0 + p / 64 / 64 / 64, 0x80 + p / 64 / 64 % 64, 0x80 + p / 64 % 64, 0x80 + p % 64]
  }

  function Encoded(ps: seq<int>): seq<int>
    requires forall i :: 0 <= i < |ps| ==> IsPoint(ps[i])
  {
    if ps == [] then [] else BytesOf(ps[0]) + Encoded(ps[1..])
  }

  /** How many bytes a first byte announces. */
  function Announced(b: int): nat {
    if b < 0x80 then 1 else if b < 0xE0 then 2 else if b < 0xF0 then 3 else 4
  }

  /** What the bytes of one code point carry: the low bits of the first and six of every other. */
  function Carried(b: seq<int>): int
    requires |b| >= 1
    decreases |b|
  {
    if |b| == 1 then b[0]
    else Carried(b[..|b| - 1]) * 64 + (b[|b| - 1] - 0x80)
  }

  function Lead(n: nat): int {
    if n == 2 then 0xC0 * 64 else if n == 3 then 0xE0 * 4096 else if n == 4 then 0xF0 * 262144 else 0
  }

  /** Reading bytes back, code point by code point. */
  function Decoded(b: seq<int>): Option<seq<int>>
    decreases |b|
  {
    if b == [] then Some([])
    else
      var n := Announced(b[0]);
      if n > |b| then None
      else
        match Decoded(b[n..])
        case None => None
        case Some(ps) => Some([Carried(b[..n]) - Lead(n)] + ps)
  }

  lemma PointBack(p: int)
    requires IsPoint(p)
    ensures Announced(BytesOf(p)[0]) == |BytesOf(p)| && Carried(BytesOf(p)) - Lead(|BytesOf(p)|) == p
  {
    var b, q := BytesOf(p), p / 64;
    assert p == 64 * q + p % 64 && q == 64 * (q / 64) + q % 64;
    if |b| == 2 {
      TwoCarry(b[0], b[1]);
    } else if |b| == 3 {
      ThreeCarry(b[0], b[1], b[2]);
    } else if |b| == 4 {
      assert b[..3] == [b[0], b[1], b[2]];
      ThreeCarry(b[0], b[1], b[2]);
    }
  }

  lemma TwoCarry(x: int, y: int)
    ensures Carried([x, y]) == x * 64 + (y - 0x80)
  {
    assert [x, y][..1] == [x];
  }

  lemma ThreeCarry(x: int, y: int, z: int)
    ensures Carried([x, y, z]) == (x * 64 + (y - 0x80)) * 64 + (z - 0x80)
  {
    assert [x, y, z][..2] == [x, y];
    TwoCarry(x, y);
  }

  lemma {:induction false} EncodedReadsBack(ps: seq<int>)
    requires forall i :: 0 <= i < |ps| ==> IsPoint(ps[i])
    ensures Decoded(Encoded(ps)) == Some(ps)
  {
    if ps != [] {
      var b, rest := BytesOf(ps[0]), Encoded(ps[1..]);
      PointBack(ps[0]);
      EncodedReadsBack(ps[1..]);
      assert (b + rest)[..|b|] == b && (b + rest)[|b|..] == rest;
      assert ps == [ps[0]] + ps[1..];
      hide BytesOf, Carried, Lead, Announced;
    }
  }

  lemma {:induction false} SizeIsEncoded(s: Str)
    ensures Utf8Length(s) == |Encoded(Points(s))| && CodePoints(s) == |Points(s)|
    decreases |s|
  {
    if s != [] {
      SizeIsEncoded(if Pair(s) then s[2..] else s[1..]);
      var p := Points(s)[0];
      assert Points(s)[1..] == Points(if Pair(s) then s[2..] else s[1..]);
      assert |BytesOf(p)| == if Pair(s) then 4 else UnitLength(s[0]);
      hide BytesOf, UnitLength, IsPoint;
    }
  }

  lemma {:induction false} FormedReadsBack(s: Str)
    ensures WellFormed(s) <==> Units16(Points(s)) == s
    decreases |s|
  {
    if s != [] {
      var more := if Pair(s) then s[2..] else s[1..];
      FormedReadsBack(more);
      var p := Points(s)[0];
      assert Points(s)[1..] == Points(more);
      if Pair(s) {
        assert UnitsOf(p) == s[..2] && s == s[..2] + s[2..];
        Unprefixed(s[..2], Units16(Points(more)), more);
      } else {
        assert s == s[..1] + s[1..];
        if 0xD800 <= s[0] < 0xE000 {
          assert Units16(Points(s))[0] == 0xFFFD;
        } else {
          assert UnitsOf(p) == s[..1];
          Unprefixed(s[..1], Units16(Points(more)), more);
        }
      }
    }
  }

  lemma Unprefixed(a: Str, b: Str, c: Str)
    ensures a + b == a + c <==> b == c
  {
    assert (a + b)[|a|..] == b && (a + c)[|a|..] == c;
  }

  /** The size of a text is the number of bytes of its code points in UTF-8, which read back as these code points; the text
      is well-formed exactly when they give its code units back. */
  lemma SizeMeans(s: Str)
    ensures Utf8Length(s) == |Encoded(Points(s))| && CodePoints(s) == |Points(s)|
    ensures Decoded(Encoded(Points(s))) == Some(Points(s))
    ensures WellFormed(s) <==> Units16(Points(s)) == s
  {
    SizeIsEncoded(s);
    EncodedReadsBack(Points(s));
    FormedReadsBack(s);
  }
}
