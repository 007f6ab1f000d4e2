/** The words of JSON as RFC 8259 gives them: white space and punctuation (section 2), literal names (section 3), numbers
    (section 6) and strings (section 7), and how the language's `JSON.stringify` escapes. The model reads exactly these. */
module JsonLexis {
  import opened Options
  import opened Strings
  import opened Utf8
  import opened JsonText
  import opened JsonStrings
  import opened Json

  // --- White space, punctuation, names ---

  lemma Punctuation(u: Unit)
    ensures Blank(u) <==> u in Units(" \t\n\r")
    ensures Units(",:[]{}-+.") == [COMMA, COLON, OPEN_LIST, CLOSE_LIST, OPEN_OBJECT, CLOSE_OBJECT, MINUS, PLUS, POINT]
  {
    var s := Units(" \t\n\r");
    assert s == [0x20, 9, 10, 13];
  }

  lemma LiteralNames(s: Str)
    ensures IsScalar(s) && !IsNumber(s) <==> s in {Units("true"), Units("false"), Units("null")}
  {
    hide IsNumber;
    assert TRUE_TEXT == Units("true") && FALSE_TEXT == Units("false") && NULL_TEXT == Units("null");
    NamesAreNoNumbers();
  }

  lemma NamesAreNoNumbers()
    ensures !IsNumber(TRUE_TEXT) && !IsNumber(FALSE_TEXT) && !IsNumber(NULL_TEXT)
  {
  }

  // --- Numbers ---

  predicate SomeDigits(s: Str) {
    |s| >= 1 && forall i :: 0 <= i < |s| ==> 48 <= s[i] <= 57
  }

  /** `0`, or digits that do not begin with it. */
  predicate Whole(s: Str) {
    s == [48] || (SomeDigits(s) && s[0] != 48)
  }

  predicate Fraction(s: Str) {
    s == [] || (s[0] == 46 && SomeDigits(s[1..]))
  }

  predicate Exponent(s: Str) {
    s == [] || (s[0] in {101, 69} && (SomeDigits(s[1..]) || (|s| > 1 && s[1] in {43, 45} && SomeDigits(s[2..]))))
  }

  lemma {:induction false} RunAll(s: Str)
    ensures DigitRun(s) == |s| <==> forall i :: 0 <= i < |s| ==> 48 <= s[i] <= 57
  {
    if s != [] {
      RunAll(s[1..]);
      assert forall i :: 1 <= i < |s| ==> s[i] == s[1..][i - 1];
    }
  }

  lemma {:induction false} RunStops(d: Str, rest: Str)
    requires (forall i :: 0 <= i < |d| ==> 48 <= d[i] <= 57) && (rest == [] || !(48 <= rest[0] <= 57))
    ensures DigitRun(d + rest) == |d|
  {
    if d == [] {
      assert d + rest == rest;
    } else {
      assert (d + rest)[1..] == d[1..] + rest;
      RunStops(d[1..], rest);
    }
  }

  lemma {:induction false} RunEnds(s: Str)
    ensures DigitRun(s) < |s| ==> !(48 <= s[DigitRun(s)] <= 57)
  {
    if s != [] && Digit(s[0]) {
      RunEnds(s[1..]);
    }
  }

  lemma ExponentExactly(s: Str)
    ensures IsExponent(s) <==> Exponent(s)
  {
    if s != [] {
      RunAll(s[1..]);
      if |s| > 1 {
        RunAll(s[2..]);
      }
    }
    hide DigitRun;
  }

  ghost predicate FractionOf(s: Str, f: Str, e: Str) {
    Fraction(f) && Exponent(e) && s == f + e
  }

  lemma FractionParts(s: Str) returns (f: Str, e: Str)
    requires IsFraction(s)
    ensures FractionOf(s, f, e)
  {
    hide Exponent, IsExponent;
    if s != [] && s[0] == 46 {
      var n := DigitRun(s[1..]);
      f, e := s[..1 + n], s[1 + n..];
      assert s[1..][n..] == e;
      assert f[1..] == s[1..][..n];
    } else {
      f, e := [], s;
    }
    ExponentExactly(e);
  }

  lemma FractionWritten(f: Str, e: Str)
    requires Fraction(f) && Exponent(e)
    ensures IsFraction(f + e) && (f + e == [] || !(48 <= (f + e)[0] <= 57))
  {
    ExponentExactly(e);
    if f == [] {
      assert f + e == e;
    } else {
      RunStops(f[1..], e);
      assert (f + e)[1..] == f[1..] + e && (f + e)[|f|..] == e;
    }
  }

  ghost predicate NumberOf(s: Str, sign: Str, whole: Str, f: Str, e: Str) {
    (sign == [] || sign == [45]) && Whole(whole) && Fraction(f) && Exponent(e) && s == sign + whole + f + e
  }

  /** A number is a sign or none, a whole part, and perhaps a fraction and an exponent. */
  lemma NumberExactly(s: Str)
    ensures IsNumber(s) <==> exists sign, whole, f, e :: NumberOf(s, sign, whole, f, e)
  {
    hide *;
    if IsNumber(s) {
      var sign, whole, f, e := NumberParts(s);
    }
    forall sign, whole, f, e | NumberOf(s, sign, whole, f, e) ensures IsNumber(s) {
      NumberWritten(s, sign, whole, f, e);
    }
  }

  lemma NumberParts(s: Str) returns (sign: Str, whole: Str, f: Str, e: Str)
    requires IsNumber(s)
    ensures NumberOf(s, sign, whole, f, e)
  {
    hide IsFraction, Fraction, Exponent;
    sign := if s != [] && s[0] == 45 then [45] else [];
    var t := s[|sign|..];
    var n := DigitRun(t);
    f, e := FractionParts(t[n..]);
    whole := t[..n];
    WholeRun(t);
    assert t == whole + t[n..] && s == sign + t;
    assert s == sign + whole + f + e by { Joined(s, sign, t, whole, f, e); }
  }

  lemma Joined(s: Str, sign: Str, t: Str, whole: Str, f: Str, e: Str)
    requires s == sign + t && t == whole + (f + e)
    ensures s == sign + whole + f + e
  {
  }

  lemma WholeRun(t: Str)
    requires DigitRun(t) >= 1 && (t[0] == 48 ==> DigitRun(t) == 1)
    ensures Whole(t[..DigitRun(t)])
  {
    var n := DigitRun(t);
    assert n == 1 ==> t[..n] == [t[0]];
  }

  lemma NumberWritten(s: Str, sign: Str, whole: Str, f: Str, e: Str)
    requires NumberOf(s, sign, whole, f, e)
    ensures IsNumber(s)
  {
    var rest := f + e;
    FractionWritten(f, e);
    hide IsFraction, Fraction, Exponent;
    var t := whole + rest;
    RunStops(whole, rest);
    SignFirst(s, sign, t, whole, f, e);
    assert t[|whole|..] == rest && t[0] == whole[0] && whole[0] != 45;
  }

  lemma SignFirst(s: Str, sign: Str, t: Str, whole: Str, f: Str, e: Str)
    requires s == sign + whole + f + e && t == whole + (f + e) && whole != [] && (sign == [] || sign == [45])
    ensures s[|sign|..] == t && (sign == [] ==> s == t && s[0] == whole[0]) && (sign == [45] ==> s[0] == 45)
  {
  }

  // --- String bodies ---

  /** One piece of a string's body: a unit as it is, a two-unit escape, or four hexadecimal digits. */
  datatype Part = Plain(unit: Unit) | Short(letter: Unit) | Hex(a: Unit, b: Unit, c: Unit, d: Unit)

  function PartText(p: Part): Str {
    match p
    case Plain(u) => [u]
    case Short(letter) => [92, letter]
    case Hex(a, b, c, d) => [92, 117, a, b, c, d]
  }

  function DigitOf(u: Unit): nat {
    if 48 <= u <= 57 then u - 48 else if 97 <= u <= 102 then u - 87 else if 65 <= u <= 70 then u - 55 else 0
  }

  predicate IsHex(u: Unit) {
    48 <= u <= 57 || 97 <= u <= 102 || 65 <= u <= 70
  }

  /** The two-unit escapes and what they stand for. */
  const SHORTS: map<Unit, Unit> := map[34 := 34, 92 := 92, 47 := 47, 98 := 8, 102 := 12, 110 := 10, 114 := 13, 116 := 9]

  predicate IsPart(p: Part) {
    match p
    case Plain(u) => u >= 32 && u != 34 && u != 92
    case Short(letter) => letter in SHORTS
    case Hex(a, b, c, d) => IsHex(a) && IsHex(b) && IsHex(c) && IsHex(d)
  }

  function PartUnit(p: Part): int
    requires IsPart(p)
  {
    match p
    case Plain(u) => u
    case Short(letter) => SHORTS[letter]
    case Hex(a, b, c, d) => ((DigitOf(a) * 16 + DigitOf(b)) * 16 + DigitOf(c)) * 16 + DigitOf(d)
  }

  function PartsText(ps: seq<Part>): Str {
    if ps == [] then [] else PartText(ps[0]) + PartsText(ps[1..])
  }

  /** The parts stand for these units, one each. */
  ghost predicate StandFor(ps: seq<Part>, s: Str) {
    |ps| == |s| && forall i :: 0 <= i < |ps| ==> IsPart(ps[i]) && PartUnit(ps[i]) == s[i]
  }

  lemma PieceOf(p: Part, rest: Str)
    requires IsPart(p)
    ensures 0 <= PartUnit(p) < 0x1_0000 && FirstPiece(PartText(p) + rest) == Piece(|PartText(p)|, PartUnit(p))
  {
    if p.Hex? {
      HexPiece(p.a, p.b, p.c, p.d, rest);
    } else if p.Short? {
      ShortPiece(p.letter, rest);
    }
    hide SHORTS, HexValue, DigitOf;
  }

  lemma ShortPiece(letter: Unit, rest: Str)
    requires letter in SHORTS
    ensures FirstPiece([92, letter] + rest) == Piece(2, SHORTS[letter])
  {
    var raw := [92, letter] + rest;
    assert raw[0] == 92 && raw[1] == letter;
  }

  lemma HexPiece(a: Unit, b: Unit, c: Unit, d: Unit, rest: Str)
    requires IsHex(a) && IsHex(b) && IsHex(c) && IsHex(d)
    ensures var n := ((DigitOf(a) * 16 + DigitOf(b)) * 16 + DigitOf(c)) * 16 + DigitOf(d);
      0 <= n < 0x1_0000 && FirstPiece([92, 117, a, b, c, d] + rest) == Piece(6, n)
  {
    var raw := [92, 117, a, b, c, d] + rest;
    assert raw[0] == 92 && raw[1] == 117 && raw[2] == a && raw[3] == b && raw[4] == c && raw[5] == d;
    assert DigitOf(a) == HexValue(a) && DigitOf(b) == HexValue(b) && DigitOf(c) == HexValue(c) && DigitOf(d) == HexValue(d);
    hide DigitOf, HexValue, SimpleEscape;
  }

  lemma PartAt(raw: Str) returns (p: Part)
    requires raw != [] && FirstPiece(raw).Piece?
    ensures IsPart(p) && PartUnit(p) == FirstPiece(raw).code && PartText(p) == raw[..FirstPiece(raw).size]
  {
    if raw[0] != 92 {
      p := Plain(raw[0]);
    } else if raw[1] == 117 {
      p := Hex(raw[2], raw[3], raw[4], raw[5]);
      assert raw[..6] == [raw[0], raw[1], raw[2], raw[3], raw[4], raw[5]];
    } else {
      p := Short(raw[1]);
    }
  }

  lemma {:induction false} PartsDecode(ps: seq<Part>, s: Str)
    requires StandFor(ps, s)
    ensures Decode(PartsText(ps)) == Some(s)
  {
    hide FirstPiece, PartUnit, IsPart;
    if ps != [] {
      PieceOf(ps[0], PartsText(ps[1..]));
      PartsDecode(ps[1..], s[1..]);
      var text := PartText(ps[0]);
      assert |text| != 0;
      assert (text + PartsText(ps[1..]))[|text|..] == PartsText(ps[1..]);
      assert s == [s[0]] + s[1..];
    }
  }

  lemma {:induction false} DecodedParts(raw: Str) returns (ps: seq<Part>)
    requires Decode(raw).Some?
    ensures PartsText(ps) == raw && StandFor(ps, Decode(raw).value)
    decreases |raw|
  {
    hide FirstPiece, PartText, PartUnit, IsPart;
    if raw == [] {
      ps := [];
    } else {
      var first := PartAt(raw);
      var n := FirstPiece(raw).size;
      var more := DecodedParts(raw[n..]);
      ps := [first] + more;
      assert ps[1..] == more && raw == raw[..n] + raw[n..];
    }
  }

  /** A body spells a string exactly when it is cut into parts that stand for its units. */
  lemma BodyExactly(raw: Str, s: Str)
    ensures Decode(raw) == Some(s) <==> exists ps :: PartsText(ps) == raw && StandFor(ps, s)
  {
    hide Decode, PartsText, StandFor;
    if Decode(raw).Some? {
      var ps := DecodedParts(raw);
    }
    forall ps | PartsText(ps) == raw && StandFor(ps, s) ensures Decode(raw) == Some(s) {
      PartsDecode(ps, s);
    }
  }

  // --- How strings are written ---

  /** One unit in `JSON.stringify`'s own form: the short escape where there is one other than for a slash, lower-case
      hexadecimal for the other control units and for lone surrogates, and otherwise as it is. */
  lemma UnitWritten(u: Unit)
    ensures var text := EscapeUnit(u);
      if u in {34, 92, 8, 9, 10, 12, 13} then exists letter :: letter in SHORTS && SHORTS[letter] == u && letter != 47 && text == [92, letter]
      else if u < 32 || 0xD800 <= u < 0xE000 then
        && |text| == 6 && text[..2] == [92, 117] && (forall i :: 2 <= i < 6 ==> 48 <= text[i] <= 57 || 97 <= text[i] <= 102)
        && ((DigitOf(text[2]) * 16 + DigitOf(text[3])) * 16 + DigitOf(text[4])) * 16 + DigitOf(text[5]) == u
      else text == [u]
  {
    if u in {34, 92, 8, 9, 10, 12, 13} {
      var letter := if u == 34 || u == 92 then u else if u == 8 then 98 else if u == 9 then 116 else if u == 10 then 110 else if u == 12 then 102 else 114;
      assert EscapeUnit(u) == [92, letter] && SHORTS[letter] == u;
    } else if u < 32 || 0xD800 <= u < 0xE000 {
      HexDigitsOf(u);
    }
  }

  lemma HexDigitsOf(u: Unit)
    ensures var text := HexEscape(u);
      ((DigitOf(text[2]) * 16 + DigitOf(text[3])) * 16 + DigitOf(text[4])) * 16 + DigitOf(text[5]) == u
  {
    DigitBack(u / 4096);
    DigitBack(u / 256 % 16);
    DigitBack(u / 16 % 16);
    DigitBack(u % 16);
    NestedQuotients(u);
    hide HexCharacter, DigitOf;
  }

  lemma DigitBack(n: nat)
    requires n < 16
    ensures DigitOf(HexCharacter(n)) == n
  {
  }

  /** A string is written unit by unit, surrogate pairs as they are. */
  lemma {:induction false} TextWritten(s: Str)
    ensures s == [] ==> Escape(s) == []
    ensures s != [] && Pair(s) ==> Escape(s) == s[..2] + Escape(s[2..])
    ensures s != [] && !Pair(s) ==> Escape(s) == EscapeUnit(s[0]) + Escape(s[1..])
  {
  }
}
