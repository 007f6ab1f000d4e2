/** Bytes, and the bytes of ASCII text. */
module Bytes {

  type byte = b: int | 0 <= b < 256

  const LF: byte := 10
  const CR: byte := 13
  const SPACE: byte := 32
  const COLON: byte := 58

  function Ascii(s: string): (bytes: seq<byte>)
    requires forall i :: 0 <= i < |s| ==> s[i] as int < 128
    ensures |bytes| == |s|
  {
    seq(|s|, i requires 0 <= i < |s| => s[i] as int)
  }

  predicate IsTerminator(b: byte) {
    b == LF || b == CR
  }

  /** No line terminator inside. */
  predicate Unbroken(s: seq<byte>) {
    forall i :: 0 <= i < |s| ==> !IsTerminator(s[i])
  }

  predicate UnbrokenTo(s: seq<byte>, n: nat)
    requires n <= |s|
  {
    forall i :: 0 <= i < n ==> !IsTerminator(s[i])
  }

  /** Where the first line of `s` ends: the index of its first CR or LF, or the length. */
  function LineEnd(s: seq<byte>): (n: nat)
    ensures n <= |s| && UnbrokenTo(s, n)
    ensures n < |s| ==> IsTerminator(s[n])
  {
    if |s| == 0 || IsTerminator(s[0]) then 0
    else LineEnd(s[1..]) + 1
  }

  /** The terminator's width: CRLF is one terminator of two bytes. */
  function TerminatorWidth(s: seq<byte>, n: nat): (w: nat)
    requires n < |s| && IsTerminator(s[n])
    ensures 1 <= w <= 2 && n + w <= |s|
  {
    if s[n] == CR && n + 1 < |s| && s[n + 1] == LF then 2 else 1
  }

  lemma {:induction false} LineEndAfter(a: seq<byte>, b: seq<byte>)
    requires Unbroken(a)
    ensures LineEnd(a + b) == |a| + LineEnd(b)
  {
    if |a| == 0 {
      assert a + b == b;
    } else {
      assert (a + b)[1..] == a[1..] + b;
      LineEndAfter(a[1..], b);
    }
  }

  /** The first occurrence of a byte, or the length. */
  function IndexOf(s: seq<byte>, b: byte): (n: nat)
    ensures n <= |s|
    ensures forall i :: 0 <= i < n ==> s[i] != b
    ensures n < |s| ==> s[n] == b
  {
    if |s| == 0 || s[0] == b then 0 else 1 + IndexOf(s[1..], b)
  }

  // --- Event-stream lines and chunks ---

  /** What stands before a line's first colon. */
  function FieldName(text: seq<byte>): seq<byte> {
    text[..IndexOf(text, COLON)]
  }

  /** What stands after it, less one leading space. */
  function FieldValue(text: seq<byte>): (v: seq<byte>)
    ensures |v| + |FieldName(text)| <= |text|
  {
    var colon := IndexOf(text, COLON);
    if colon == |text| then []
    else if colon + 1 < |text| && text[colon + 1] == SPACE then text[colon + 2..]
    else text[colon + 1..]
  }

  /** The values joined by LF. */
  function Join(values: seq<seq<byte>>): seq<byte> {
    if |values| == 0 then [] else if |values| == 1 then values[0] else values[0] + [LF] + Join(values[1..])
  }

  /** The chunks of a stream put together. */
  function Concat(chunks: seq<seq<byte>>): seq<byte> {
    if |chunks| == 0 then [] else chunks[0] + Concat(chunks[1..])
  }
}
