/** Every note the codec encodes decodes to the same note and body. */
module NotesRoundTrip {
  import opened Options
  import opened Strings
  import opened Utf8
  import opened JsonText
  import opened JsonStrings
  import opened Json
  import opened JsonReading
  import opened WireJson
  import opened Notes

  // --- Replacing the two separators in a whole text replaces them in its strings ---

  lemma {:induction false} ReplaceAppend(a: Str, b: Str)
    ensures Replace(a + b) == Replace(a) + Replace(b)
  {
    if |a| == 0 {
      assert a + b == b;
    } else {
      assert (a + b)[1..] == a[1..] + b;
      ReplaceAppend(a[1..], b);
    }
  }

  predicate NoSeparators(s: Str) {
    forall i :: 0 <= i < |s| ==> s[i] != 0x2028 && s[i] != 0x2029
  }

  lemma {:induction false} ReplaceIdle(s: Str)
    requires NoSeparators(s)
    ensures Replace(s) == s
  {
    if |s| != 0 {
      ReplaceIdle(s[1..]);
      assert [s[0]] + s[1..] == s;
    }
  }

  /** A fixed part of the text passes through. */
  lemma ReplacePast(a: Str, k: Str)
    requires NoSeparators(a)
    ensures Replace(a + k) == a + Replace(k)
  {
    ReplaceAppend(a, k);
    ReplaceIdle(a);
  }

  function Replaced(v: Value): Value {
    match v
    case Text(raw) => Text(Replace(raw))
    case List(es) => List(ReplacedElements(es))
    case Object(ms) => Object(ReplacedMembers(ms))
    case _ => v
  }

  function ReplacedElement(e: Element): Element {
    Element(e.before, Replaced(e.value), e.after)
  }

  function ReplacedElements(es: Elements): Elements {
    match es
    case Last(e) => Last(ReplacedElement(e))
    case More(e, rest) => More(ReplacedElement(e), ReplacedElements(rest))
  }

  function ReplacedMember(m: Member): Member {
    Member(m.before, Replace(m.key), m.mid, ReplacedElement(m.element))
  }

  function ReplacedMembers(ms: Members): Members {
    match ms
    case LastMember(m) => LastMember(ReplacedMember(m))
    case MoreMembers(m, others) => MoreMembers(ReplacedMember(m), ReplacedMembers(others))
  }

  lemma BlankHasNone(b: Str)
    requires IsBlank(b)
    ensures NoSeparators(b)
  {
  }

  lemma ScalarHasNone(s: Str)
    requires IsScalar(s)
    ensures NoSeparators(s)
  {
    ScalarIsRun(s);
    hide IsScalar;
    assert forall i :: 0 <= i < |s| ==> ScalarUnit(s[i]);
  }

  lemma {:induction false} ReplaceWrite(v: Value, k: Str)
    requires Valid(v)
    ensures Replace(Write(v, k)) == Write(Replaced(v), Replace(k))
    decreases v, 0
  {
    hide Replace, IsScalar, Decode;
    match v
    case Scalar(text) =>
      ScalarHasNone(text);
      ReplacePast(text, k);
    case Text(raw) =>
      ReplacePast([QUOTE], raw + ([QUOTE] + k));
      ReplaceAppend(raw, [QUOTE] + k);
      ReplacePast([QUOTE], k);
    case EmptyList(blank) => ReplaceEmpty(OPEN_LIST, blank, CLOSE_LIST, k);
    case List(es) =>
      ReplacePast([OPEN_LIST], WriteElements(es, k));
      ReplaceWriteElements(es, k);
    case EmptyObject(blank) => ReplaceEmpty(OPEN_OBJECT, blank, CLOSE_OBJECT, k);
    case Object(ms) =>
      ReplacePast([OPEN_OBJECT], WriteMembers(ms, k));
      ReplaceWriteMembers(ms, k);
  }

  lemma ReplaceEmpty(open: Unit, blank: Str, close: Unit, k: Str)
    requires IsBlank(blank) && open < 0x80 && close < 0x80
    ensures Replace([open] + (blank + ([close] + k))) == [open] + (blank + ([close] + Replace(k)))
  {
    hide Replace;
    BlankHasNone(blank);
    ReplacePast([open], blank + ([close] + k));
    ReplacePast(blank, [close] + k);
    ReplacePast([close], k);
  }

  lemma {:induction false} ReplaceWriteElement(e: Element, k: Str)
    requires ValidElement(e)
    ensures Replace(WriteElement(e, k)) == WriteElement(ReplacedElement(e), Replace(k))
    decreases e, 1
  {
    hide Replace, Write, Valid, Replaced;
    BlankHasNone(e.before);
    BlankHasNone(e.after);
    ReplacePast(e.before, Write(e.value, e.after + k));
    ReplaceWrite(e.value, e.after + k);
    ReplacePast(e.after, k);
  }

  lemma {:induction false} ReplaceWriteElements(es: Elements, k: Str)
    requires ValidElements(es)
    ensures Replace(WriteElements(es, k)) == WriteElements(ReplacedElements(es), Replace(k))
    decreases es, 2
  {
    hide Replace, WriteElement, ValidElement, ReplacedElement;
    match es
    case Last(e) =>
      ReplaceWriteElement(e, [CLOSE_LIST] + k);
      ReplacePast([CLOSE_LIST], k);
    case More(e, rest) =>
      ReplaceWriteElement(e, [COMMA] + WriteElements(rest, k));
      ReplacePast([COMMA], WriteElements(rest, k));
      ReplaceWriteElements(rest, k);
  }

  lemma {:induction false} ReplaceWriteMember(m: Member, k: Str)
    requires ValidMember(m)
    ensures Replace(WriteMember(m, k)) == WriteMember(ReplacedMember(m), Replace(k))
    decreases m, 2
  {
    hide Replace, WriteElement, ValidElement, ReplacedElement, Decode;
    BlankHasNone(m.before);
    BlankHasNone(m.mid);
    var w := WriteElement(m.element, k);
    ReplacePast(m.before, [QUOTE] + (m.key + ([QUOTE] + (m.mid + ([COLON] + w)))));
    ReplacePast([QUOTE], m.key + ([QUOTE] + (m.mid + ([COLON] + w))));
    ReplaceAppend(m.key, [QUOTE] + (m.mid + ([COLON] + w)));
    ReplacePast([QUOTE], m.mid + ([COLON] + w));
    ReplacePast(m.mid, [COLON] + w);
    ReplacePast([COLON], w);
    ReplaceWriteElement(m.element, k);
  }

  lemma {:induction false} ReplaceWriteMembers(ms: Members, k: Str)
    requires ValidMembers(ms)
    ensures Replace(WriteMembers(ms, k)) == WriteMembers(ReplacedMembers(ms), Replace(k))
    decreases ms, 3
  {
    hide Replace, WriteMember, ValidMember, ReplacedMember;
    match ms
    case LastMember(m) =>
      ReplaceWriteMember(m, [CLOSE_OBJECT] + k);
      ReplacePast([CLOSE_OBJECT], k);
    case MoreMembers(m, others) =>
      ReplaceWriteMember(m, [COMMA] + WriteMembers(others, k));
      ReplacePast([COMMA], WriteMembers(others, k));
      ReplaceWriteMembers(others, k);
  }

  // --- Strings survive escaping and replacing ---

  lemma ReplaceUnit(u: Unit)
    ensures Replace(EscapeUnit(u)) == if u == 0x2028 || u == 0x2029 then HexEscape(u) else EscapeUnit(u)
  {
    var none: Str := [];
    if u == 0x2028 || u == 0x2029 {
      assert EscapeUnit(u) == [u] && [u][1..] == none;
    } else {
      ReplaceIdle(EscapeUnit(u));
    }
  }

  lemma HexEscapeReads(u: Unit, rest: Str)
    ensures FirstPiece(HexEscape(u) + rest) == Piece(6, u)
  {
    HexReadsBack(u / 4096);
    HexReadsBack(u / 256 % 16);
    HexReadsBack(u / 16 % 16);
    HexReadsBack(u % 16);
    HexDigitsAre(u);
    hide HexCharacter, HexValue, HexDigit;
  }

  lemma ReplacedUnitReads(u: Unit, rest: Str)
    ensures var e := Replace(EscapeUnit(u)); |e| >= 1 && FirstPiece(e + rest) == Piece(|e|, u)
  {
    ReplaceUnit(u);
    hide FirstPiece, EscapeUnit, HexEscape, Replace;
    if u == 0x2028 || u == 0x2029 {
      HexEscapeReads(u, rest);
    } else {
      EscapeUnitReads(u, rest);
    }
  }

  lemma {:induction false} DecodeReplaced(s: Str)
    ensures Decode(Replace(Escape(s))) == Some(s)
    decreases |s|
  {
    hide Replace, Decode, EscapeUnit;
    if |s| == 0 {
      DecodeNothing();
    } else if Pair(s) {
      DecodeReplaced(s[2..]);
      ReplacePast(s[..2], Escape(s[2..]));
      DecodePair(s, Replace(Escape(s[2..])));
    } else {
      DecodeReplaced(s[1..]);
      ReplaceAppend(EscapeUnit(s[0]), Escape(s[1..]));
      var e, rest := Replace(EscapeUnit(s[0])), Replace(Escape(s[1..]));
      ReplacedUnitReads(s[0], rest);
      DecodeOne(s, e, rest);
    }
  }

  lemma DecodeNothing()
    ensures Decode(Replace([])) == Some([])
  {
  }

  /** Escaping and replacing leave no lone surrogate in the text. */
  lemma {:induction false} EscapedIsFormed(s: Str)
    ensures WellFormed(Replace(Escape(s)))
    decreases |s|
  {
    if |s| == 0 {
    } else if Pair(s) {
      EscapedIsFormed(s[2..]);
      ReplacePast(s[..2], Escape(s[2..]));
      hide Escape, Replace;
      FormedAppend(s[..2], Replace(Escape(s[2..])));
    } else {
      EscapedIsFormed(s[1..]);
      ReplaceAppend(EscapeUnit(s[0]), Escape(s[1..]));
      UnitIsFormed(s[0]);
      hide Replace, WellFormed;
      FormedAppend(Replace(EscapeUnit(s[0])), Replace(Escape(s[1..])));
    }
  }

  lemma UnitIsFormed(u: Unit)
    ensures WellFormed(Replace(EscapeUnit(u)))
  {
    ReplaceUnit(u);
    if u < 0x80 || High(u) || Low(u) {
      AsciiFormed(EscapeUnit(u));
    } else if u == 0x2028 || u == 0x2029 {
      AsciiFormed(HexEscape(u));
    } else {
      assert EscapeUnit(u) == [u];
    }
  }
}
