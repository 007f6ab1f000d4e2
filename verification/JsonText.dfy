/** `JSON.stringify` on strings. */
module JsonText {
  import opened Strings
  import opened Utf8

  const BACKSLASH: Unit := 0x5C

  function HexCharacter(n: nat): (u: Unit)
    requires n < 16
    ensures u < 0x80 && u != QUOTE && u != BACKSLASH
  {
    if n < 10 then 48 + n else 87 + n
  }

  function HexEscape(u: Unit): (s: Str)
    ensures |s| == 6 && IsAscii(s)
  {
    [BACKSLASH, 0x75, HexCharacter(u / 4096), HexCharacter(u / 256 % 16), HexCharacter(u / 16 % 16), HexCharacter(u % 16)]
  }

  /** How one code unit that is not part of a surrogate pair is written. */
  function EscapeUnit(u: Unit): (s: Str)
    ensures 1 <= |s| <= 6
    ensures u >= 0x80 && !High(u) && !Low(u) ==> s == [u]
    ensures u < 0x80 || High(u) || Low(u) ==> IsAscii(s)
    ensures 0x20 <= u < 0x80 ==> |s| <= 2
  {
    if u == QUOTE || u == BACKSLASH then [BACKSLASH, u]
    else if u == 8 then [BACKSLASH, 0x62]
    else if u == 9 then [BACKSLASH, 0x74]
    else if u == 10 then [BACKSLASH, 0x6E]
    else if u == 12 then [BACKSLASH, 0x66]
    else if u == 13 then [BACKSLASH, 0x72]
    else if u < 0x20 || High(u) || Low(u) then HexEscape(u)
    else [u]
  }

  function Escape(s: Str): Str {
    if |s| == 0 then []
    else if Pair(s) then s[..2] + Escape(s[2..])
    else EscapeUnit(s[0]) + Escape(s[1..])
  }

  function Quote(s: Str): Str {
    [QUOTE] + Escape(s) + [QUOTE]
  }

  predicate NoControls(s: Str) {
    forall i :: 0 <= i < |s| ==> s[i] >= 0x20
  }

  lemma {:induction false} PrintableEscapeLength(s: Str)
    requires forall i :: 0 <= i < |s| ==> 0x20 <= s[i] < 0x7F
    ensures IsAscii(Escape(s)) && |Escape(s)| <= 2 * |s|
  {
    if |s| != 0 {
      PrintableEscapeLength(s[1..]);
    }
  }

  /** What JSON.stringify writes for a string is well-formed and at most six bytes a unit. */
  lemma {:induction false} EscapeBound(s: Str)
    ensures WellFormed(Escape(s)) && Utf8Length(Escape(s)) <= 6 * |s|
    decreases |s|
  {
    if |s| == 0 {
    } else if Pair(s) {
      EscapeBound(s[2..]);
      PairFormed(s);
      hide WellFormed, Utf8Length;
      FormedAppend(s[..2], Escape(s[2..]));
    } else {
      EscapeBound(s[1..]);
      UnitBound(s[0]);
      hide WellFormed, Utf8Length, EscapeUnit;
      FormedAppend(EscapeUnit(s[0]), Escape(s[1..]));
    }
  }

  lemma PairFormed(s: Str)
    requires Pair(s)
    ensures WellFormed(s[..2]) && Utf8Length(s[..2]) == 4
  {
  }

  lemma UnitBound(u: Unit)
    ensures WellFormed(EscapeUnit(u)) && Utf8Length(EscapeUnit(u)) <= 6
  {
    if u < 0x80 || High(u) || Low(u) {
      AsciiFormed(EscapeUnit(u));
      AsciiLength(EscapeUnit(u));
    } else {
      assert EscapeUnit(u) == [u];
    }
  }

  /** A string without control characters or lone surrogates grows to at most four bytes a code point. */
  lemma {:induction false} EscapeLength(s: Str)
    requires WellFormed(s) && NoControls(s)
    ensures Utf8Length(Escape(s)) <= 4 * CodePoints(s)
    decreases |s|
  {
    if |s| == 0 {
    } else if Pair(s) {
      EscapeLength(s[2..]);
      EscapeBound(s[2..]);
      PairFormed(s);
      hide WellFormed, Utf8Length;
      FormedAppend(s[..2], Escape(s[2..]));
    } else {
      EscapeLength(s[1..]);
      EscapeBound(s[1..]);
      PlainUnitBound(s[0]);
      UnitBound(s[0]);
      hide WellFormed, Utf8Length, EscapeUnit;
      FormedAppend(EscapeUnit(s[0]), Escape(s[1..]));
    }
  }

  lemma PlainUnitBound(u: Unit)
    requires u >= 0x20 && !High(u) && !Low(u)
    ensures Utf8Length(EscapeUnit(u)) <= 3
  {
    if u < 0x80 {
      AsciiLength(EscapeUnit(u));
    } else {
      assert EscapeUnit(u) == [u];
    }
  }
}
