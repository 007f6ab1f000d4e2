/** Decoding undoes encoding for every note and body the encoder accepts. */
module NotesCodec {
  import opened Options
  import opened Strings
  import Decimal
  import opened Utf8
  import opened Whitespace
  import opened JsonText
  import opened JsonStrings
  import opened Json
  import opened JsonReading
  import opened WireJson
  import opened Notes
  import opened NotesRoundTrip

  // --- The text of a tree whose literals are well-formed is well-formed ---

  predicate Formed(v: Value) {
    match v
    case Text(raw) => WellFormed(raw)
    case List(es) => FormedElements(es)
    case Object(ms) => FormedMembers(ms)
    case _ => true
  }

  predicate FormedElements(es: Elements) {
    Formed(es.element.value) && (es.More? ==> FormedElements(es.rest))
  }

  predicate FormedMembers(ms: Members) {
    WellFormed(ms.member.key) && Formed(ms.member.element.value) && (ms.MoreMembers? ==> FormedMembers(ms.others))
  }

  lemma FormedPast(a: Str, k: Str)
    requires IsAscii(a) && WellFormed(k)
    ensures WellFormed(a + k)
  {
    AsciiFormed(a);
    FormedAppend(a, k);
  }

  lemma {:induction false} WriteFormed(v: Value, k: Str)
    requires Valid(v) && Formed(v) && WellFormed(k)
    ensures WellFormed(Write(v, k))
    decreases v, 0
  {
    hide WellFormed, IsScalar, Decode;
    match v
    case Scalar(text) =>
      ScalarIsRun(text);
      FormedPast(text, k);
    case Text(raw) =>
      FormedPast([QUOTE], k);
      FormedAppend(raw, [QUOTE] + k);
      FormedPast([QUOTE], raw + ([QUOTE] + k));
    case EmptyList(blank) => EmptyFormed(OPEN_LIST, blank, CLOSE_LIST, k);
    case List(es) =>
      WriteElementsFormed(es, k);
      FormedPast([OPEN_LIST], WriteElements(es, k));
    case EmptyObject(blank) => EmptyFormed(OPEN_OBJECT, blank, CLOSE_OBJECT, k);
    case Object(ms) =>
      WriteMembersFormed(ms, k);
      FormedPast([OPEN_OBJECT], WriteMembers(ms, k));
  }

  lemma EmptyFormed(open: Unit, blank: Str, close: Unit, k: Str)
    requires IsBlank(blank) && open < 0x80 && close < 0x80 && WellFormed(k)
    ensures WellFormed([open] + (blank + ([close] + k)))
  {
    hide WellFormed;
    FormedPast([close], k);
    FormedPast(blank, [close] + k);
    FormedPast([open], blank + ([close] + k));
  }

  lemma {:induction false} WriteElementFormed(e: Element, k: Str)
    requires ValidElement(e) && Formed(e.value) && WellFormed(k)
    ensures WellFormed(WriteElement(e, k))
    decreases e, 1
  {
    hide WellFormed, Write, Valid, Formed;
    FormedPast(e.after, k);
    WriteFormed(e.value, e.after + k);
    FormedPast(e.before, Write(e.value, e.after + k));
  }

  lemma {:induction false} WriteElementsFormed(es: Elements, k: Str)
    requires ValidElements(es) && FormedElements(es) && WellFormed(k)
    ensures WellFormed(WriteElements(es, k))
    decreases es, 2
  {
    hide WellFormed, WriteElement, ValidElement, Formed;
    if es.Last? {
      FormedPast([CLOSE_LIST], k);
      WriteElementFormed(es.element, [CLOSE_LIST] + k);
    } else {
      WriteElementsFormed(es.rest, k);
      FormedPast([COMMA], WriteElements(es.rest, k));
      WriteElementFormed(es.element, [COMMA] + WriteElements(es.rest, k));
    }
  }

  lemma {:induction false} WriteMemberFormed(m: Member, k: Str)
    requires ValidMember(m) && WellFormed(m.key) && Formed(m.element.value) && WellFormed(k)
    ensures WellFormed(WriteMember(m, k))
    decreases m, 2
  {
    hide WellFormed, WriteElement, ValidElement, Formed, Decode;
    WriteElementFormed(m.element, k);
    var w := WriteElement(m.element, k);
    FormedPast([COLON], w);
    FormedPast(m.mid, [COLON] + w);
    FormedPast([QUOTE], m.mid + ([COLON] + w));
    FormedAppend(m.key, [QUOTE] + (m.mid + ([COLON] + w)));
    FormedPast([QUOTE], m.key + ([QUOTE] + (m.mid + ([COLON] + w))));
    FormedPast(m.before, [QUOTE] + (m.key + ([QUOTE] + (m.mid + ([COLON] + w)))));
  }

  lemma {:induction false} WriteMembersFormed(ms: Members, k: Str)
    requires ValidMembers(ms) && FormedMembers(ms) && WellFormed(k)
    ensures WellFormed(WriteMembers(ms, k))
    decreases ms, 3
  {
    hide WellFormed, WriteMember, ValidMember, Formed;
    if ms.LastMember? {
      FormedPast([CLOSE_OBJECT], k);
      WriteMemberFormed(ms.member, [CLOSE_OBJECT] + k);
    } else {
      WriteMembersFormed(ms.others, k);
      FormedPast([COMMA], WriteMembers(ms.others, k));
      WriteMemberFormed(ms.member, [COMMA] + WriteMembers(ms.others, k));
    }
  }

  // --- The trees the encoder builds ---

  /** A tree that is JSON, stays so once replaced, and passes the wire check then. */
  ghost predicate Fine(v: Value) {
    Valid(v) && Valid(Replaced(v)) && Sound(Replaced(v)) && Formed(Replaced(v))
  }

  lemma SpelledBack(s: Str)
    ensures Decode(Escape(s)).Some? && Decode(Replace(Escape(s))) == Some(s)
    ensures Spelled(Replace(Escape(s))) == s && WellFormed(Replace(Escape(s)))
  {
    DecodeEscape(s);
    DecodeReplaced(s);
    EscapedIsFormed(s);
    hide Escape, Replace, Decode, WellFormed;
  }

  lemma FineText(s: Str)
    requires WellFormed(s)
    ensures Fine(StringOf(s))
  {
    hide Escape, Replace, Decode, WellFormed;
    SpelledBack(s);
  }

  ghost predicate FineElements(es: Elements) {
    ValidElements(es) && ValidElements(ReplacedElements(es)) && SoundElements(ReplacedElements(es)) && FormedElements(ReplacedElements(es))
  }

  lemma {:induction false} FineList(items: seq<Str>)
    requires |items| != 0 && forall i :: 0 <= i < |items| ==> WellFormed(items[i])
    ensures FineElements(ListOf(items)) && Texts(ReplacedElements(ListOf(items))) == Some(items)
  {
    FineText(items[0]);
    SpelledBack(items[0]);
    hide Escape, Replace, Decode, WellFormed, Spelled;
    assert IsBlank([]);
    var e := Element([], StringOf(items[0]), []);
    assert ValidElement(e) && ValidElement(ReplacedElement(e));
    hide StringOf, Sound, Formed, ValidElement;
    if |items| == 1 {
      assert items == [items[0]] && ListOf(items) == Last(e);
    } else {
      FineList(items[1..]);
      assert items == [items[0]] + items[1..];
    }
  }

  function Names(fields: seq<(Str, Value)>): seq<Str> {
    if |fields| == 0 then [] else [fields[0].0] + Names(fields[1..])
  }

  function ReplacedFields(fields: seq<(Str, Value)>): seq<(Str, Value)> {
    if |fields| == 0 then [] else [(fields[0].0, Replaced(fields[0].1))] + ReplacedFields(fields[1..])
  }

  ghost predicate FineMembers(ms: Members) {
    ValidMembers(ms) && ValidMembers(ReplacedMembers(ms)) && SoundMembers(ReplacedMembers(ms)) && FormedMembers(ReplacedMembers(ms))
  }

  ghost predicate FineFields(fields: seq<(Str, Value)>) {
    forall i :: 0 <= i < |fields| ==> WellFormed(fields[i].0) && Fine(fields[i].1)
  }

  lemma {:induction false} ObjectFields(fields: seq<(Str, Value)>)
    requires |fields| != 0 && FineFields(fields)
    ensures var ms := ObjectOf(fields);
      && FineMembers(ms) && Fields(ReplacedMembers(ms)) == ReplacedFields(fields)
      && DecodedKeys(ReplacedMembers(ms)) == Names(fields)
  {
    assert WellFormed(fields[0].0) && Fine(fields[0].1);
    SpelledBack(fields[0].0);
    MemberIsFine(fields[0]);
    hide Escape, Replace, Decode, WellFormed, Spelled, Fine, MemberOf, ValidMember, Formed, Sound;
    var ms := ObjectOf(fields);
    assert ms.member == MemberOf(fields[0]);
    if |fields| == 1 {
      var none: seq<(Str, Value)> := [];
      assert fields[1..] == none;
    } else {
      ObjectFields(fields[1..]);
    }
  }

  lemma MemberIsFine(field: (Str, Value))
    requires WellFormed(field.0) && Fine(field.1)
    ensures var m := MemberOf(field); var r := ReplacedMember(m);
      && ValidMember(m) && ValidMember(r) && Spelled(r.key) == field.0 && r.element.value == Replaced(field.1)
      && WellFormed(Spelled(r.key)) && WellFormed(r.key) && Sound(r.element.value) && Formed(r.element.value)
  {
    SpelledBack(field.0);
    hide Escape, Replace, Decode, WellFormed, Spelled, Valid, Formed, Sound, Replaced;
    assert IsBlank([]);
  }

  /** An object with distinct names is fine and reads back field by field. */
  lemma FineObject(fields: seq<(Str, Value)>)
    requires |fields| != 0 && FineFields(fields) && NoRepeats(Names(fields))
    ensures Fine(Object(ObjectOf(fields)))
    ensures FieldsOf(Replaced(Object(ObjectOf(fields)))) == Some(ReplacedFields(fields))
  {
    hide ObjectOf, NoRepeats, FineFields, Fields, DecodedKeys;
    ObjectFields(fields);
    var v := Object(ObjectOf(fields));
    assert Replaced(v) == Object(ReplacedMembers(ObjectOf(fields)));
  }

  // --- Names ---

  lemma NamesFormed()
    ensures WellFormed(KIND) && WellFormed(OWNER) && WellFormed(ARTIFACT) && WellFormed(CHECKPOINT)
    ensures WellFormed(REPLY_TO) && WellFormed(EVIDENCE) && WellFormed(CHANNEL) && WellFormed(FROM) && WellFormed(ID)
    ensures WellFormed(VERSION) && WellFormed(NOTE) && WellFormed(BODY)
  {
    hide WellFormed;
    AsciiFormed(KIND);
    AsciiFormed(OWNER);
    AsciiFormed(ARTIFACT);
    AsciiFormed(CHECKPOINT);
    AsciiFormed(REPLY_TO);
    AsciiFormed(EVIDENCE);
    AsciiFormed(CHANNEL);
    AsciiFormed(FROM);
    AsciiFormed(ID);
    AsciiFormed(VERSION);
    AsciiFormed(NOTE);
    AsciiFormed(BODY);
  }

  lemma NamesDiffer()
    ensures |KIND| == 4 && |OWNER| == 5 && |ARTIFACT| == 8 && |CHECKPOINT| == 10 && |REPLY_TO| == 7 && |EVIDENCE| == 8
    ensures |CHANNEL| == 7 && |FROM| == 4 && |ID| == 2 && |VERSION| == 7 && |NOTE| == 4 && |BODY| == 4 && NOTE != BODY
  {
    var note, body := "note", "body";
    assert Units(note)[0] == note[0] as int && Units(body)[0] == body[0] as int;
  }

  lemma KindsDiffer()
    ensures |REQUEST_TEXT| == 7 && |ACCEPT_TEXT| == 6 && |DECLINE_TEXT| == 7 && |BLOCKED_TEXT| == 7
    ensures |COMPLETION_TEXT| == 10 && |DECISION_TEXT| == 8
    ensures REQUEST_TEXT != DECLINE_TEXT && REQUEST_TEXT != BLOCKED_TEXT && DECLINE_TEXT != BLOCKED_TEXT
    ensures forall kind :: WellFormed(ReplyText(kind))
    ensures WellFormed(REQUEST_TEXT) && WellFormed(COMPLETION_TEXT) && WellFormed(DECISION_TEXT)
  {
    hide WellFormed;
    var request, decline, blocked := "request", "decline", "blocked";
    assert Units(request)[0] == request[0] as int && Units(decline)[0] == decline[0] as int && Units(blocked)[0] == blocked[0] as int;
    AsciiFormed(REQUEST_TEXT);
    AsciiFormed(ACCEPT_TEXT);
    AsciiFormed(DECLINE_TEXT);
    AsciiFormed(BLOCKED_TEXT);
    AsciiFormed(COMPLETION_TEXT);
    AsciiFormed(DECISION_TEXT);
    hide Units;
    forall kind ensures WellFormed(ReplyText(kind)) {
      match kind case Accept => case Decline => case Blocked =>
    }
  }

  // --- Fields ---

  lemma {:induction false} ReplacedAre(fields: seq<(Str, Value)>)
    ensures |ReplacedFields(fields)| == |fields| == |Names(fields)|
    ensures forall i :: 0 <= i < |fields| ==> ReplacedFields(fields)[i] == (fields[i].0, Replaced(fields[i].1))
    ensures forall i :: 0 <= i < |fields| ==> Names(fields)[i] == fields[i].0
  {
    hide Replaced;
    if |fields| != 0 {
      ReplacedAre(fields[1..]);
    }
  }

  lemma {:induction false} GetAt(fields: seq<(Str, Value)>, i: nat)
    requires i < |fields| && forall j :: 0 <= j < i ==> fields[j].0 != fields[i].0
    ensures Get(fields, fields[i].0) == Some(fields[i].1)
  {
    if i != 0 {
      assert fields[0].0 != fields[i].0;
      GetAt(fields[1..], i - 1);
    }
  }

  ghost predicate DistinctNames(fields: seq<(Str, Value)>) {
    forall i, j :: 0 <= i < j < |fields| ==> fields[i].0 != fields[j].0
  }

  /** What an object reads back as, by name. */
  lemma ObjectBack(fields: seq<(Str, Value)>)
    requires |fields| != 0 && FineFields(fields) && DistinctNames(fields)
    ensures Fine(Object(ObjectOf(fields)))
    ensures var v := Replaced(Object(ObjectOf(fields)));
      && FieldsOf(v).Some? && var f := FieldsOf(v).value;
      && |f| == |fields| && forall i :: 0 <= i < |fields| ==> Get(f, fields[i].0) == Some(Replaced(fields[i].1))
  {
    hide FineFields, ObjectOf, Replaced, FieldsOf, Fine;
    ReplacedAre(fields);
    var names := Names(fields);
    hide Names, ReplacedFields;
    forall i, j | 0 <= i < j < |names| ensures names[i] != names[j] {
      assert fields[i].0 != fields[j].0;
    }
    FineObject(fields);
    var f := ReplacedFields(fields);
    forall i | 0 <= i < |fields| ensures Get(f, fields[i].0) == Some(Replaced(fields[i].1)) {
      assert f[i] == (fields[i].0, Replaced(fields[i].1));
      GetAt(f, i);
    }
  }

  lemma ThreeFields(a: (Str, Value), b: (Str, Value), c: (Str, Value))
    requires WellFormed(a.0) && WellFormed(b.0) && WellFormed(c.0) && Fine(a.1) && Fine(b.1) && Fine(c.1)
    requires a.0 != b.0 && a.0 != c.0 && b.0 != c.0
    ensures var v := Object(ObjectOf([a, b, c]));
      && Fine(v) && FieldsOf(Replaced(v)).Some? && var f := FieldsOf(Replaced(v)).value;
      && |f| == 3 && Get(f, a.0) == Some(Replaced(a.1)) && Get(f, b.0) == Some(Replaced(b.1)) && Get(f, c.0) == Some(Replaced(c.1))
  {
    hide WellFormed, Fine, ObjectOf, Replaced, FieldsOf, Get;
    var fields := [a, b, c];
    ObjectBack(fields);
    assert fields[0] == a && fields[1] == b && fields[2] == c;
  }

  lemma FourFields(a: (Str, Value), b: (Str, Value), c: (Str, Value), d: (Str, Value))
    requires WellFormed(a.0) && WellFormed(b.0) && WellFormed(c.0) && WellFormed(d.0)
    requires Fine(a.1) && Fine(b.1) && Fine(c.1) && Fine(d.1)
    requires a.0 != b.0 && a.0 != c.0 && a.0 != d.0 && b.0 != c.0 && b.0 != d.0 && c.0 != d.0
    ensures var v := Object(ObjectOf([a, b, c, d]));
      && Fine(v) && FieldsOf(Replaced(v)).Some? && var f := FieldsOf(Replaced(v)).value;
      && |f| == 4 && Get(f, a.0) == Some(Replaced(a.1)) && Get(f, b.0) == Some(Replaced(b.1))
      && Get(f, c.0) == Some(Replaced(c.1)) && Get(f, d.0) == Some(Replaced(d.1))
  {
    hide WellFormed, Fine, ObjectOf, Replaced, FieldsOf, Get;
    var fields := [a, b, c, d];
    ObjectBack(fields);
    assert fields[0] == a && fields[1] == b && fields[2] == c && fields[3] == d;
  }

  lemma TextBack(f: seq<(Str, Value)>, name: Str, s: Str)
    requires Get(f, name) == Some(Replaced(StringOf(s)))
    ensures GetText(f, name) == Some(s)
  {
    SpelledBack(s);
    hide Escape, Replace, Spelled, Get, WellFormed, Decode;
  }

  lemma UuidFormed(s: Str)
    requires IsUuid(s) || IsChannel(s)
    ensures WellFormed(s)
  {
    AsciiFormed(s);
  }

  lemma ReferenceFields(r: Reference)
    requires IsReference(r)
    ensures Fine(ReferenceJson(r)) && FieldsOf(Replaced(ReferenceJson(r))).Some?
    ensures var f := FieldsOf(Replaced(ReferenceJson(r))).value;
      && |f| == 3 && Get(f, CHANNEL) == Some(Replaced(StringOf(r.channel)))
      && Get(f, FROM) == Some(Replaced(StringOf(r.from))) && Get(f, ID) == Some(Replaced(StringOf(r.id)))
  {
    NamesFormed();
    NamesDiffer();
    UuidFormed(r.channel);
    UuidFormed(r.from);
    UuidFormed(r.id);
    hide WellFormed, Fine, StringOf, IsReference, ObjectOf, Replaced, FieldsOf, Get, Units;
    FineText(r.channel);
    FineText(r.from);
    FineText(r.id);
    ThreeFields((CHANNEL, StringOf(r.channel)), (FROM, StringOf(r.from)), (ID, StringOf(r.id)));
  }

  lemma ReferenceBack(r: Reference)
    requires IsReference(r)
    ensures Fine(ReferenceJson(r)) && ParseReference(Some(Replaced(ReferenceJson(r)))) == Some(r)
  {
    hide Fine, ReferenceJson, StringOf, IsReference, Replaced, FieldsOf, Get, GetText;
    ReferenceFields(r);
    var f := FieldsOf(Replaced(ReferenceJson(r))).value;
    TextBack(f, CHANNEL, r.channel);
    TextBack(f, FROM, r.from);
    TextBack(f, ID, r.id);
  }

  lemma EvidenceBack(e: seq<Str>)
    requires IsEvidence(e)
    ensures Fine(List(ListOf(e))) && ParseEvidence(Some(Replaced(List(ListOf(e))))) == Some(e)
  {
    assert forall i :: 0 <= i < |e| ==> IsScalarText(e[i]) ==> WellFormed(e[i]);
    hide IsScalarText, WellFormed, ListOf, Texts;
    FineList(e);
    assert Replaced(List(ListOf(e))) == List(ReplacedElements(ListOf(e)));
  }

  // --- Notes ---

  lemma RequestFields(n: Note)
    requires IsNote(n) && n.Request?
    ensures Fine(NoteJson(n)) && FieldsOf(Replaced(NoteJson(n))).Some?
    ensures var f := FieldsOf(Replaced(NoteJson(n))).value;
      && |f| == 4 && Get(f, KIND) == Some(Replaced(StringOf(REQUEST_TEXT))) && Get(f, OWNER) == Some(Replaced(StringOf(n.owner)))
      && Get(f, ARTIFACT) == Some(Replaced(StringOf(n.artifact))) && Get(f, CHECKPOINT) == Some(Replaced(StringOf(n.checkpoint)))
  {
    NamesFormed();
    NamesDiffer();
    KindsDiffer();
    UuidFormed(n.owner);
    hide WellFormed, Fine, StringOf, ObjectOf, Replaced, FieldsOf, Get, Units, IsUuid;
    FineText(REQUEST_TEXT);
    FineText(n.owner);
    FineText(n.artifact);
    FineText(n.checkpoint);
    FourFields((KIND, StringOf(REQUEST_TEXT)), (OWNER, StringOf(n.owner)), (ARTIFACT, StringOf(n.artifact)),
               (CHECKPOINT, StringOf(n.checkpoint)));
  }

  lemma ReplyFields(n: Note)
    requires IsNote(n) && n.Reply?
    ensures Fine(NoteJson(n)) && FieldsOf(Replaced(NoteJson(n))).Some?
    ensures var f := FieldsOf(Replaced(NoteJson(n))).value;
      && |f| == 2 && Get(f, KIND) == Some(Replaced(StringOf(ReplyText(n.kind))))
      && Get(f, REPLY_TO) == Some(Replaced(ReferenceJson(n.replyTo)))
  {
    NamesFormed();
    NamesDiffer();
    KindsDiffer();
    hide WellFormed, Fine, StringOf, ObjectOf, Replaced, FieldsOf, Get, Units, ReplyText, ReferenceJson;
    FineText(ReplyText(n.kind));
    ReferenceBack(n.replyTo);
    var fields := NoteFields(n);
    assert fields[0].0 == KIND && fields[1].0 == REPLY_TO;
    ObjectBack(fields);
  }

  lemma CompletionFields(n: Note)
    requires IsNote(n) && n.Completion?
    ensures Fine(NoteJson(n)) && FieldsOf(Replaced(NoteJson(n))).Some?
    ensures var f := FieldsOf(Replaced(NoteJson(n))).value;
      && |f| == 3 && Get(f, KIND) == Some(Replaced(StringOf(COMPLETION_TEXT)))
      && Get(f, REPLY_TO) == Some(Replaced(ReferenceJson(n.replyTo)))
      && Get(f, EVIDENCE) == Some(Replaced(List(ListOf(n.evidence))))
  {
    NamesFormed();
    NamesDiffer();
    KindsDiffer();
    hide WellFormed, Fine, StringOf, ObjectOf, ListOf, Replaced, FieldsOf, Get, Units, ReferenceJson, ParseReference, ParseEvidence;
    FineText(COMPLETION_TEXT);
    ReferenceBack(n.replyTo);
    EvidenceBack(n.evidence);
    ThreeFields((KIND, StringOf(COMPLETION_TEXT)), (REPLY_TO, ReferenceJson(n.replyTo)), (EVIDENCE, List(ListOf(n.evidence))));
  }

  lemma DecisionFields(n: Note)
    requires IsNote(n) && n.Decision?
    ensures Fine(NoteJson(n)) && FieldsOf(Replaced(NoteJson(n))).Some?
    ensures var f := FieldsOf(Replaced(NoteJson(n))).value;
      && |f| == 2 && Get(f, KIND) == Some(Replaced(StringOf(DECISION_TEXT)))
      && Get(f, EVIDENCE) == Some(Replaced(List(ListOf(n.evidence))))
  {
    NamesFormed();
    NamesDiffer();
    KindsDiffer();
    hide WellFormed, Fine, StringOf, ObjectOf, ListOf, Replaced, FieldsOf, Get, Units, ParseEvidence;
    FineText(DECISION_TEXT);
    EvidenceBack(n.evidence);
    var fields := NoteFields(n);
    assert fields[0].0 == KIND && fields[1].0 == EVIDENCE;
    ObjectBack(fields);
  }

  lemma NoteBack(n: Note)
    requires IsNote(n)
    ensures Fine(NoteJson(n)) && ParseNote(Some(Replaced(NoteJson(n)))) == Some(n)
  {
    KindsDiffer();
    hide Fine, NoteJson, StringOf, ListOf, Replaced, FieldsOf, Get, GetText, Units, ReferenceJson, ParseReference, ParseEvidence,
      WellFormed;
    match n {
      case Request(owner, artifact, checkpoint) =>
        RequestFields(n);
        var f := FieldsOf(Replaced(NoteJson(n))).value;
        TextBack(f, KIND, REQUEST_TEXT);
        TextBack(f, OWNER, owner);
        TextBack(f, ARTIFACT, artifact);
        TextBack(f, CHECKPOINT, checkpoint);
      case Reply(kind, replyTo) =>
        ReplyFields(n);
        TextBack(FieldsOf(Replaced(NoteJson(n))).value, KIND, ReplyText(kind));
        ReferenceBack(replyTo);
      case Completion(replyTo, evidence) =>
        CompletionFields(n);
        TextBack(FieldsOf(Replaced(NoteJson(n))).value, KIND, COMPLETION_TEXT);
        ReferenceBack(replyTo);
        EvidenceBack(evidence);
      case Decision(evidence) =>
        DecisionFields(n);
        TextBack(FieldsOf(Replaced(NoteJson(n))).value, KIND, DECISION_TEXT);
        EvidenceBack(evidence);
    }
  }

  // --- The envelope ---

  lemma FineOne()
    ensures Fine(Scalar(ONE)) && Replaced(Scalar(ONE)) == Scalar(ONE) && IsNumber(ONE)
  {
    var none: Str := [];
    assert ONE[1..] == none;
    assert DigitRun(ONE) == 1 && IsNumber(ONE);
  }

  lemma OneIsOne()
    ensures IsOne(ONE)
  {
    assert IsNumber(ONE) by { FineOne(); }
    WholeVersion(ONE);
  }

  /** A version spelled with digits alone is 1 only as the text `1`. */
  lemma WholeVersion(text: Str)
    requires IsNumber(text) && DigitRun(text) == |text|
    ensures IsOne(text) <==> text == ONE
  {
    assert text[..|text|] == text && text[|text|..] == [];
    var r := ReadNumber(text);
    assert r == Scientific(false, text, 0);
    assert Decimal.Digits(text) by {
      assert forall i :: 0 <= i < |text| ==> Digit(text[i]);
    }
    var m := Decimal.Value(text);
    assert Decimal.Pow10(0) == 1 && m * 1 == m;
    assert NearestIsOne(m, 1) <==> m == 1;
    WholeValue(text);
  }

  lemma WholeValue(s: Str)
    requires |s| >= 1 && Decimal.Digits(s) && (s[0] == 48 ==> |s| == 1)
    ensures Decimal.Value(s) == 1 <==> s == ONE
  {
    var d, p: nat := s[0] - 48, Decimal.Pow10(|s| - 1);
    if |s| == 1 {
      assert s[1..] == [] && Decimal.Value(s[1..]) == 0 && d * 1 == d;
      assert s == [s[0]];
    } else {
      assert p == 10 * Decimal.Pow10(|s| - 2);
      Decimal.MulNonNegative(d - 1, p);
      assert d * p == (d - 1) * p + p;
    }
  }

  lemma EnvelopeFields(n: Note, body: Str)
    requires IsNote(n) && WellFormed(body)
    ensures Fine(EnvelopeJson(n, body)) && FieldsOf(Replaced(EnvelopeJson(n, body))).Some?
    ensures var f := FieldsOf(Replaced(EnvelopeJson(n, body))).value;
      && |f| == 3 && Get(f, VERSION) == Some(Scalar(ONE)) && Get(f, NOTE) == Some(Replaced(NoteJson(n)))
      && Get(f, BODY) == Some(Replaced(StringOf(body)))
  {
    NamesFormed();
    NamesDiffer();
    hide WellFormed, Fine, StringOf, ObjectOf, Replaced, FieldsOf, Get, Units, NoteJson, ParseNote, IsNote;
    FineOne();
    FineText(body);
    NoteBack(n);
    ThreeFields((VERSION, Scalar(ONE)), (NOTE, NoteJson(n)), (BODY, StringOf(body)));
  }

  lemma EnvelopeBack(n: Note, body: Str)
    requires IsNote(n) && IsScope(body)
    ensures Fine(EnvelopeJson(n, body)) && ParseEnvelope(Replaced(EnvelopeJson(n, body))) == Some(Decoding(n, body))
  {
    FineOne();
    OneIsOne();
    hide Fine, EnvelopeJson, StringOf, Replaced, FieldsOf, Get, GetText, NoteJson, ParseNote, IsNote, WellFormed, IsOne, IsNumber;
    EnvelopeFields(n, body);
    TextBack(FieldsOf(Replaced(EnvelopeJson(n, body))).value, BODY, body);
    NoteBack(n);
  }

  lemma EncodedText(n: Note, body: Str)
    requires IsNote(n) && IsScope(body)
    ensures var v := Replaced(EnvelopeJson(n, body));
      && Replace(Write(EnvelopeJson(n, body), [])) == WriteDocument(Element([], v, []))
      && Fine(EnvelopeJson(n, body)) && WellFormed(WriteDocument(Element([], v, [])))
  {
    var v := EnvelopeJson(n, body);
    hide EnvelopeJson, Write, Valid, Sound, Formed, Replaced, IsNote, IsScope, WellFormed, FieldsOf;
    assert WellFormed(body) by { ScopeFormed(body); }
    EnvelopeFields(n, body);
    ReplaceWrite(v, []);
    assert Replace([]) == [];
    assert WellFormed([]) by { AsciiFormed([]); }
    WriteFormed(Replaced(v), []);
    var none: Str := [];
    assert none + none == none;
    assert WriteDocument(Element([], Replaced(v), [])) == Write(Replaced(v), []);
  }

  lemma ScopeFormed(s: Str)
    requires IsScope(s)
    ensures WellFormed(s)
  {
  }

  /** The codec's law: what encodes decodes to the same note and body. */
  lemma DecodeUndoesEncode(body: Str, n: Note)
    requires EncodeNote(body, n).Some?
    ensures DecodeNote(EncodeNote(body, n).value) == Some(Decoding(n, body))
  {
    hide Write, Utf8Length, Trim, Replace, EnvelopeJson, IsNote, IsScope, ParseEnvelope, Valid, Sound, Formed, Replaced, WellFormed,
      Units, Decoded;
    EncodedText(n, body);
    var v := Replaced(EnvelopeJson(n, body));
    var doc := Element([], v, []);
    var text := EncodeNote(body, n).value;
    var rest := WriteDocument(doc);
    assert text == PREFIX + rest && text[|PREFIX|..] == rest;
    AsciiPrefix();
    FormedPast(PREFIX, rest);
    FlatScanIsTree(rest, doc);
    EnvelopeBack(n, body);
  }

  lemma AsciiPrefix()
    ensures IsAscii(PREFIX)
  {
  }
}
