/** JSON string literals (RFC 8259, section 7): what a body between quotes decodes to, and where a literal ends. */
module JsonStrings {
  import opened Options
  import opened Strings
  import opened Utf8
  import opened JsonText

  function HexValue(u: Unit): (n: nat)
    requires HexDigit(u)
    ensures n < 16
  {
    if u <= 57 then u - 48 else if u <= 70 then u - 55 else u - 87
  }

  function SimpleEscape(u: Unit): Option<Unit> {
    if u == QUOTE || u == BACKSLASH || u == 0x2F then Some(u)
    else if u == 0x62 then Some(8)
    else if u == 0x66 then Some(12)
    else if u == 0x6E then Some(10)
    else if u == 0x72 then Some(13)
    else if u == 0x74 then Some(9)
    else None
  }

  /** The units one escape or plain unit takes, and the unit it stands for. */
  datatype Piece = Piece(size: nat, code: Unit) | Malformed

  function FirstPiece(raw: Str): (p: Piece)
    requires |raw| != 0
    ensures p.Piece? ==> 1 <= p.size <= |raw|
  {
    if raw[0] == QUOTE || raw[0] < 0x20 then Malformed
    else if raw[0] != BACKSLASH then Piece(1, raw[0])
    else if |raw| < 2 then Malformed
    else if raw[1] == 0x75 then
      if |raw| >= 6 && HexDigit(raw[2]) && HexDigit(raw[3]) && HexDigit(raw[4]) && HexDigit(raw[5])
      then Piece(6, 4096 * HexValue(raw[2]) + 256 * HexValue(raw[3]) + 16 * HexValue(raw[4]) + HexValue(raw[5]))
      else Malformed
    else
      match SimpleEscape(raw[1])
      case Some(u) => Piece(2, u)
      case None => Malformed
  }

  /** What the body of a string literal stands for, if it is one. */
  function Decode(raw: Str): Option<Str> {
    if |raw| == 0 then Some([])
    else
      match FirstPiece(raw)
      case Malformed => None
      case Piece(size, code) =>
        match Decode(raw[size..])
        case None => None
        case Some(rest) => Some([code] + rest)
  }

  /** The string a literal's body spells; empty for a body that is none. */
  function Spelled(raw: Str): Str {
    if Decode(raw).Some? then Decode(raw).value else []
  }

  predicate LineTerminator(u: Unit) {
    u == 10 || u == 13 || u == 0x2028 || u == 0x2029
  }

  /** Where the scanner's pattern closes a literal whose opening quote was just read; the length when it never does. */
  function Closing(s: Str): (n: nat)
    ensures n <= |s| && (n < |s| ==> s[n] == QUOTE)
  {
    if |s| == 0 || s[0] == QUOTE then 0
    else if s[0] != BACKSLASH then 1 + Closing(s[1..])
    else if |s| >= 2 && !LineTerminator(s[1]) then 2 + Closing(s[2..])
    else |s|
  }

  /** A well-formed body is closed exactly at its closing quote. */
  lemma {:induction false} ClosingFinds(raw: Str, k: Str)
    requires Decode(raw).Some?
    ensures Closing(raw + ([QUOTE] + k)) == |raw|
  {
    var s := raw + ([QUOTE] + k);
    if |raw| != 0 {
      var size := FirstPiece(raw).size;
      var rest := raw[size..];
      assert s[size..] == rest + ([QUOTE] + k);
      ClosingFinds(rest, k);
      SkipPiece(raw, s);
    }
  }

  lemma SkipPiece(raw: Str, s: Str)
    requires |raw| != 0 && FirstPiece(raw).Piece? && |raw| <= |s| && s[..|raw|] == raw
    ensures Closing(s) == FirstPiece(raw).size + Closing(s[FirstPiece(raw).size..])
  {
    var size := FirstPiece(raw).size;
    PieceShape(raw);
    hide FirstPiece, HexDigit;
    assert forall i :: 0 <= i < size ==> s[i] == raw[i];
    if size == 6 {
      FourHexDigits(s[2..]);
      assert s[2..][4..] == s[6..];
    }
  }

  lemma PieceShape(raw: Str)
    requires |raw| != 0 && FirstPiece(raw).Piece?
    ensures var n := FirstPiece(raw).size;
      if n == 1 then raw[0] != QUOTE && raw[0] != BACKSLASH
      else
        && (n == 2 || n == 6) && n <= |raw| && raw[0] == BACKSLASH && !LineTerminator(raw[1])
        && (n == 6 ==> HexDigit(raw[2]) && HexDigit(raw[3]) && HexDigit(raw[4]) && HexDigit(raw[5]))
  {
  }

  lemma FourHexDigits(s: Str)
    requires |s| >= 4 && HexDigit(s[0]) && HexDigit(s[1]) && HexDigit(s[2]) && HexDigit(s[3])
    ensures Closing(s) == 4 + Closing(s[4..])
  {
    assert s[1..][1..] == s[2..] && s[2..][1..] == s[3..] && s[3..][1..] == s[4..];
    assert Closing(s) == 1 + Closing(s[1..]);
    assert Closing(s[1..]) == 1 + Closing(s[2..]);
    assert Closing(s[2..]) == 1 + Closing(s[3..]);
  }

  // --- What JSON.stringify writes decodes back ---

  lemma HexReadsBack(n: nat)
    requires n < 16
    ensures HexDigit(HexCharacter(n)) && HexValue(HexCharacter(n)) == n
  {
  }

  lemma HexDigitsAre(u: Unit)
    ensures 4096 * (u / 4096) + 256 * (u / 256 % 16) + 16 * (u / 16 % 16) + u % 16 == u
  {
    Quotient(u);
    Quotient(u / 16);
    Quotient(u / 256);
    NestedQuotients(u);
  }

  lemma Quotient(n: nat)
    ensures n % 16 == n - 16 * (n / 16)
  {
  }

  lemma NestedQuotients(u: nat)
    ensures u / 16 / 16 == u / 256 && u / 256 / 16 == u / 4096
  {
  }

  lemma EscapeUnitReads(u: Unit, rest: Str)
    ensures FirstPiece(EscapeUnit(u) + rest) == Piece(|EscapeUnit(u)|, u)
  {
    var s := EscapeUnit(u) + rest;
    if EscapeUnit(u) == HexEscape(u) {
      HexReadsBack(u / 4096);
      HexReadsBack(u / 256 % 16);
      HexReadsBack(u / 16 % 16);
      HexReadsBack(u % 16);
      HexDigitsAre(u);
    }
  }

  lemma DecodeOne(s: Str, e: Str, rest: Str)
    requires |s| != 0 && |e| >= 1 && FirstPiece(e + rest) == Piece(|e|, s[0]) && Decode(rest) == Some(s[1..])
    ensures Decode(e + rest) == Some(s)
  {
    hide FirstPiece;
    assert (e + rest)[|e|..] == rest;
    assert [s[0]] + s[1..] == s;
  }

  lemma PlainPiece(u: Unit, rest: Str)
    requires u >= 0x20 && u != QUOTE && u != BACKSLASH
    ensures FirstPiece([u] + rest) == Piece(1, u)
  {
  }

  lemma DecodePair(s: Str, rest: Str)
    requires Pair(s) && Decode(rest) == Some(s[2..])
    ensures Decode(s[..2] + rest) == Some(s)
  {
    hide FirstPiece, Decode;
    PlainPiece(s[1], rest);
    DecodeOne(s[1..], [s[1]], rest);
    PlainPiece(s[0], [s[1]] + rest);
    DecodeOne(s, [s[0]], [s[1]] + rest);
    assert s[..2] + rest == [s[0]] + ([s[1]] + rest);
  }

  /** Reading what was escaped gives the string back, lone surrogates included. */
  lemma {:induction false} DecodeEscape(s: Str)
    ensures Decode(Escape(s)) == Some(s)
    decreases |s|
  {
    if |s| == 0 {
    } else if Pair(s) {
      DecodeEscape(s[2..]);
      DecodePair(s, Escape(s[2..]));
    } else {
      DecodeEscape(s[1..]);
      EscapeUnitReads(s[0], Escape(s[1..]));
      hide EscapeUnit, Decode, FirstPiece;
      DecodeOne(s, EscapeUnit(s[0]), Escape(s[1..]));
    }
  }
}
