/** The line written for a channel message (extension/channels.ts): every message of a valid page has a line short
    enough to be shown, so a read of a page with messages always shows at least one. */
module ChannelLines {
  import opened Options
  import opened Strings
  import opened Decimal
  import opened Utf8
  import opened JsonText
  import opened JsonStrings
  import opened Json
  import opened JsonReading
  import opened WireJson
  import opened Notes
  import opened NotesRoundTrip
  import NotesCodec
  import opened Sizes
  import opened ChannelText

  const MAX_BODY_BYTES: nat := 4096
  const OPERATOR_ID: Str := Units("00000000-0000-4000-8000-000000000001")
  const OPERATOR: Str := Units("Operator")
  const SEQUENCE: Str := Units("sequence")
  const REFERENCE: Str := Units("reference")
  const DISPLAY_NAME: Str := Units("displayName")
  const REPORTED_CLAIM: Str := Units("reportedClaim")
  const SAY: Str := Units("say")
  const STATUS: Str := Units("status")

  datatype Post = Post(seqno: Str, ref: Reference, status: bool, body: Str)

  /** What the schema of one message of a page asks; that a body is not empty plays no part. */
  predicate IsPost(p: Post) {
    Canonical(p.seqno) && IsReference(p.ref) && Utf8Length(p.body) <= MAX_BODY_BYTES
  }

  /** The claim a body decodes to, unless the page is shown raw. */
  function Claim(p: Post, raw: bool): Option<Decoding> {
    if raw then None else DecodeNote(p.body)
  }

  function NameFields(from: Str): seq<(Str, Value)> {
    if from == OPERATOR_ID then [(DISPLAY_NAME, StringOf(OPERATOR))] else []
  }

  function BodyFields(body: Str, claim: Option<Decoding>): seq<(Str, Value)>
    requires claim.Some? ==> IsNote(claim.value.note)
  {
    if claim.Some? then [(BODY, StringOf(claim.value.body)), (REPORTED_CLAIM, NoteJson(claim.value.note))]
    else [(BODY, StringOf(body))]
  }

  function LeadFields(p: Post): seq<(Str, Value)> {
    [(SEQUENCE, StringOf(p.seqno)), (KIND, StringOf(if p.status then STATUS else SAY)), (FROM, StringOf(p.ref.from)),
     (REFERENCE, ReferenceJson(p.ref))]
  }

  function LineJson(p: Post, claim: Option<Decoding>): Value
    requires claim.Some? ==> IsNote(claim.value.note)
  {
    Object(ObjectOf(LeadFields(p) + NameFields(p.ref.from) + BodyFields(p.body, claim)))
  }

  function Line(p: Post, raw: bool): Str {
    var claim := Claim(p, raw);
    ClaimIsNote(p, raw);
    Replace(Write(LineJson(p, claim), []))
  }

  // --- What a body decodes to is a note and a body no longer than the text ---

  lemma ParsedIsNote(v: Option<Value>)
    requires ParseNote(v).Some?
    ensures IsNote(ParseNote(v).value)
  {
    hide IsUuid, IsScalarText, IsEvidence, FieldsOf, Get, GetText, ExactKeys, IsReference, Texts;
  }

  lemma ClaimIsNote(p: Post, raw: bool)
    ensures var claim := Claim(p, raw); claim.Some? ==> IsNote(claim.value.note)
  {
    hide IsNote, ParseNote, WellFormed, Utf8Length, Decoded, FieldsOf, Get, GetText, ExactKeys, IsScope, Units;
    if Claim(p, raw).Some? {
      var e := Decoded(p.body[|PREFIX|..]).value;
      ParsedIsNote(Get(FieldsOf(e.value).value, NOTE));
    }
  }

  lemma {:induction false} DecodeShortens(raw: Str)
    requires Decode(raw).Some?
    ensures |Decode(raw).value| <= |raw|
  {
    hide FirstPiece;
    if |raw| != 0 {
      DecodeShortens(raw[FirstPiece(raw).size..]);
    }
  }

  /** A field's literal is part of the object's text. */
  lemma {:induction false} FieldWithin(ms: Members, k: Str, name: Str)
    requires Get(Fields(ms), name).Some? && Get(Fields(ms), name).value.Text?
    ensures |Get(Fields(ms), name).value.raw| <= |WriteMembers(ms, k)|
    decreases ms
  {
    hide Spelled;
    var t := if ms.LastMember? then [CLOSE_OBJECT] + k else [COMMA] + WriteMembers(ms.others, k);
    assert WriteMembers(ms, k) == WriteMember(ms.member, t);
    var w := WriteElement(ms.member.element, t);
    assert |w| <= |WriteMember(ms.member, t)|;
    ElementWithin(ms.member.element, t);
    if Spelled(ms.member.key) != name {
      assert Fields(ms)[1..] == Fields(ms.others);
      FieldWithin(ms.others, k, name);
    }
  }

  lemma ElementWithin(e: Element, t: Str)
    ensures e.value.Text? ==> |e.value.raw| <= |WriteElement(e, t)|
    ensures |t| <= |WriteElement(e, t)|
  {
    WriteGrows(e.value, e.after + t);
  }

  lemma {:induction false} WriteGrows(v: Value, k: Str)
    ensures |k| <= |Write(v, k)|
    decreases v, 0
  {
    match v
    case List(es) => ElementsGrow(es, k);
    case Object(ms) => MembersGrow(ms, k);
    case _ =>
  }

  lemma {:induction false} ElementsGrow(es: Elements, k: Str)
    ensures |k| <= |WriteElements(es, k)|
    decreases es, 1
  {
    var t := if es.Last? then [CLOSE_LIST] + k else [COMMA] + WriteElements(es.rest, k);
    WriteGrows(es.element.value, es.element.after + t);
    if es.More? {
      ElementsGrow(es.rest, k);
    }
  }

  lemma {:induction false} MembersGrow(ms: Members, k: Str)
    ensures |k| <= |WriteMembers(ms, k)|
    decreases ms, 1
  {
    var t := if ms.LastMember? then [CLOSE_OBJECT] + k else [COMMA] + WriteMembers(ms.others, k);
    WriteGrows(ms.member.element.value, ms.member.element.after + t);
    assert WriteMembers(ms, k) == WriteMember(ms.member, t);
    assert |WriteElement(ms.member.element, t)| <= |WriteMember(ms.member, t)|;
    if ms.MoreMembers? {
      MembersGrow(ms.others, k);
    }
  }

  /** A decoded body is no longer than the text it was decoded from. */
  lemma ClaimShortens(text: Str)
    requires DecodeNote(text).Some?
    ensures |DecodeNote(text).value.body| <= |text|
  {
    hide ParseNote, WellFormed, Utf8Length, Decoded, ExactKeys, IsScope, Units, Write, WriteMembers, Get, Fields, Spelled, Valid, Sound;
    var rest := text[|PREFIX|..];
    var e := Decoded(rest).value;
    FlatScanIsTree(rest, e);
    var f := FieldsOf(e.value).value;
    var found := Get(f, BODY);
    assert found.Some? && found.value.Text?;
    SpelledShort(found.value.raw);
    WrittenWithin(e, found.value.raw);
  }

  lemma SpelledShort(raw: Str)
    ensures |Spelled(raw)| <= |raw|
  {
    if Decode(raw).Some? {
      DecodeShortens(raw);
    }
  }

  lemma WrittenWithin(e: Element, raw: Str)
    requires FieldsOf(e.value).Some? && Get(FieldsOf(e.value).value, BODY) == Some(Text(raw))
    ensures |raw| <= |WriteDocument(e)|
  {
    hide WriteMembers, Get, Fields, Units;
    if e.value.Object? {
      FieldWithin(e.value.members, e.after + [], BODY);
      assert |Write(e.value, e.after + [])| <= |WriteDocument(e)|;
    } else {
      assert Get([], BODY) == None by { NothingThere(BODY); }
    }
  }

  lemma NothingThere(name: Str)
    ensures Get([], name) == None
  {
  }

  // --- The size of written trees ---

  /** Written onto any text, the value adds at most `n` bytes. */
  ghost predicate Light(v: Value, n: nat) {
    forall k, m: nat {:trigger Write(Replaced(v), k), Sized(k, m)} :: Sized(k, m) ==> Sized(Write(Replaced(v), k), n + m)
  }

  lemma WriteLight(v: Value, n: nat, k: Str, m: nat)
    requires Light(v, n) && Sized(k, m)
    ensures Sized(Write(Replaced(v), k), n + m)
  {
  }

  lemma LightMore(v: Value, n: nat, more: nat)
    requires Light(v, n) && n <= more
    ensures Light(v, more)
  {
    forall k, m: nat | Sized(k, m)
      ensures Sized(Write(Replaced(v), k), more + m)
    {
      WriteLight(v, n, k, m);
      Looser(Write(Replaced(v), k), n + m, more + m);
    }
  }

  /** An escaped and re-escaped string takes at most six bytes a unit. */
  lemma {:induction false} ReplacedBound(s: Str)
    ensures Sized(Replace(Escape(s)), 6 * |s|)
    decreases |s|
  {
    if |s| == 0 {
    } else if Pair(s) {
      ReplacedBound(s[2..]);
      ReplacePast(s[..2], Escape(s[2..]));
      PairFormed(s);
      hide Escape, Replace, WellFormed, Utf8Length;
      SizedJoin(s[..2], 4, Replace(Escape(s[2..])), 6 * |s[2..]|);
      Looser(Replace(Escape(s)), 4 + 6 * |s[2..]|, 6 * |s|);
    } else {
      ReplacedBound(s[1..]);
      ReplaceAppend(EscapeUnit(s[0]), Escape(s[1..]));
      ReplacedUnitBound(s[0]);
      hide Replace, WellFormed, Utf8Length, Sized;
      SizedJoin(Replace(EscapeUnit(s[0])), 6, Replace(Escape(s[1..])), 6 * |s[1..]|);
    }
  }

  lemma ReplacedUnitBound(u: Unit)
    ensures Sized(Replace(EscapeUnit(u)), 6)
  {
    ReplaceUnit(u);
    UnitBound(u);
    if u == 0x2028 || u == 0x2029 {
      SizedAscii(HexEscape(u));
    }
  }

  lemma MarkFits(u: Unit)
    requires u < 0x80
    ensures Sized([u], 1)
  {
    SizedAscii([u]);
  }

  lemma QuotedFits(raw: Str, n: nat, k: Str, m: nat)
    requires Sized(raw, n) && Sized(k, m)
    ensures Sized([QUOTE] + (raw + ([QUOTE] + k)), n + 2 + m)
  {
    MarkFits(QUOTE);
    hide Sized;
    SizedJoin([QUOTE], 1, k, m);
    SizedJoin(raw, n, [QUOTE] + k, 1 + m);
    SizedJoin([QUOTE], 1, raw + ([QUOTE] + k), n + (1 + m));
  }

  lemma LightText(s: Str)
    ensures Light(StringOf(s), 6 * |s| + 2)
  {
    ReplacedBound(s);
    hide Sized, Escape, Replace;
    forall k, m: nat | Sized(k, m)
      ensures Sized(Write(Replaced(StringOf(s)), k), 6 * |s| + 2 + m)
    {
      QuotedFits(Replace(Escape(s)), 6 * |s|, k, m);
    }
  }

  lemma LightShort(s: Str, units: nat)
    requires |s| <= units
    ensures Light(StringOf(s), 6 * units + 2)
  {
    hide Light;
    LightText(s);
    LightMore(StringOf(s), 6 * |s| + 2, 6 * units + 2);
  }

  ghost predicate LightFields(fields: seq<(Str, Value)>, ws: seq<nat>) {
    |fields| == |ws| && forall i :: 0 <= i < |fields| ==> Light(fields[i].1, ws[i])
  }

  /** Names, marks and values together. */
  function Weight(fields: seq<(Str, Value)>, ws: seq<nat>): nat
    requires |fields| == |ws|
  {
    if |fields| == 0 then 0 else 6 * |fields[0].0| + 4 + ws[0] + Weight(fields[1..], ws[1..])
  }

  lemma {:induction false} WeightAppend(a: seq<(Str, Value)>, x: seq<nat>, b: seq<(Str, Value)>, y: seq<nat>)
    requires |a| == |x| && |b| == |y|
    ensures Weight(a + b, x + y) == Weight(a, x) + Weight(b, y)
  {
    if |a| == 0 {
      assert a + b == b && x + y == y;
    } else {
      WeightAppend(a[1..], x[1..], b, y);
      assert (a + b)[1..] == a[1..] + b && (x + y)[1..] == x[1..] + y;
    }
  }

  lemma SizedMember(field: (Str, Value), w: nat, t: Str, m: nat)
    requires Light(field.1, w) && Sized(t, m)
    ensures Sized(WriteMember(ReplacedMember(MemberOf(field)), t), 6 * |field.0| + 3 + w + m)
  {
    var value := Write(Replaced(field.1), t);
    assert [] + t == t;
    WriteLight(field.1, w, t, m);
    ReplacedBound(field.0);
    MarkFits(COLON);
    hide Sized, Escape, Replace, Write;
    SizedJoin([COLON], 1, value, w + m);
    QuotedFits(Replace(Escape(field.0)), 6 * |field.0|, [COLON] + value, 1 + (w + m));
    assert WriteElement(Element([], Replaced(field.1), []), t) == value;
    assert WriteMember(ReplacedMember(MemberOf(field)), t)
        == [QUOTE] + (Replace(Escape(field.0)) + ([QUOTE] + ([COLON] + value)));
  }

  lemma {:induction false} SizedMembers(fields: seq<(Str, Value)>, ws: seq<nat>, k: Str, m: nat)
    requires |fields| != 0 && LightFields(fields, ws) && Sized(k, m)
    ensures Sized(WriteMembers(ReplacedMembers(ObjectOf(fields)), k), Weight(fields, ws) + m)
  {
    hide Sized, Light, WriteMember;
    if |fields| == 1 {
      assert Weight(fields[1..], ws[1..]) == 0;
      assert MarkSized(CLOSE_OBJECT) by { MarkFits(CLOSE_OBJECT); }
      SizedJoin([CLOSE_OBJECT], 1, k, m);
      SizedMember(fields[0], ws[0], [CLOSE_OBJECT] + k, 1 + m);
    } else {
      SizedMembers(fields[1..], ws[1..], k, m);
      var rest := WriteMembers(ReplacedMembers(ObjectOf(fields[1..])), k);
      assert MarkSized(COMMA) by { MarkFits(COMMA); }
      SizedJoin([COMMA], 1, rest, Weight(fields[1..], ws[1..]) + m);
      SizedMember(fields[0], ws[0], [COMMA] + rest, 1 + (Weight(fields[1..], ws[1..]) + m));
    }
  }

  predicate MarkSized(u: Unit) {
    Sized([u], 1)
  }

  lemma LightObject(fields: seq<(Str, Value)>, ws: seq<nat>)
    requires |fields| != 0 && LightFields(fields, ws)
    ensures Light(Object(ObjectOf(fields)), Weight(fields, ws) + 1)
  {
    MarkFits(OPEN_OBJECT);
    hide Sized, LightFields, WriteMembers, Weight;
    var v := Object(ObjectOf(fields));
    forall k, m: nat | Sized(k, m)
      ensures Sized(Write(Replaced(v), k), Weight(fields, ws) + 1 + m)
    {
      SizedMembers(fields, ws, k, m);
      SizedJoin([OPEN_OBJECT], 1, WriteMembers(ReplacedMembers(ObjectOf(fields)), k), Weight(fields, ws) + m);
    }
  }

  // --- The values a line holds ---

  lemma TwoWeights(a: (Str, Value), b: (Str, Value), x: nat, y: nat)
    ensures Weight([a, b], [x, y]) == 6 * (|a.0| + |b.0|) + 8 + x + y
    ensures Weight([a], [x]) == 6 * |a.0| + 4 + x
  {
    assert [a, b][1..] == [b] && [x, y][1..] == [y];
    assert Weight([b], [y]) == 6 * |b.0| + 4 + y;
  }

  lemma LightReference(r: Reference)
    requires IsReference(r)
    ensures Light(ReferenceJson(r), 721)
  {
    var fields := [(CHANNEL, StringOf(r.channel)), (FROM, StringOf(r.from)), (ID, StringOf(r.id))];
    var ws: seq<nat> := [194, 218, 218];
    assert |CHANNEL| == 7 && |FROM| == 4 && |ID| == 2;
    hide Light, StringOf, Units, IsUuid;
    assert |r.channel| <= 32 && |r.from| == 36 && |r.id| == 36 by { UuidLength(r.from); UuidLength(r.id); }
    LightShort(r.channel, 32);
    LightShort(r.from, 36);
    LightShort(r.id, 36);
    assert LightFields(fields, ws);
    TwoWeights(fields[0], fields[1], 194, 218);
    TwoWeights(fields[2], fields[2], 218, 218);
    assert fields == fields[..2] + [fields[2]] && ws == [194, 218] + [218] && fields[..2] == [fields[0], fields[1]];
    WeightAppend([fields[0], fields[1]], [194, 218], [fields[2]], [218]);
    LightObject(fields, ws);
  }

  lemma UuidLength(s: Str)
    requires IsUuid(s)
    ensures |s| == 36
  {
  }

  lemma ScalarLength(s: Str)
    requires IsScalarText(s)
    ensures |s| <= MAX_SCALAR_BYTES
  {
    UnitsFit(s);
  }

  lemma {:induction false} SizedItems(items: seq<Str>, k: Str, m: nat)
    requires |items| != 0 && Sized(k, m) && forall i :: 0 <= i < |items| ==> |items[i]| <= MAX_SCALAR_BYTES
    ensures Sized(WriteElements(ReplacedElements(ListOf(items)), k), 3075 * |items| + m)
  {
    var v := StringOf(items[0]);
    LightShort(items[0], MAX_SCALAR_BYTES);
    if |items| == 1 {
      MarkFits(CLOSE_LIST);
      hide Sized;
      var t := [CLOSE_LIST] + k;
      SizedJoin([CLOSE_LIST], 1, k, m);
      WriteLight(v, 3074, t, 1 + m);
      ItemWritten(v, t);
    } else {
      SizedItems(items[1..], k, m);
      MarkFits(COMMA);
      hide Sized;
      var rest := WriteElements(ReplacedElements(ListOf(items[1..])), k);
      var t := [COMMA] + rest;
      SizedJoin([COMMA], 1, rest, 3075 * |items[1..]| + m);
      WriteLight(v, 3074, t, 1 + (3075 * |items[1..]| + m));
      ItemWritten(v, t);
    }
  }

  lemma ItemWritten(v: Value, t: Str)
    ensures WriteElement(ReplacedElement(Element([], v, [])), t) == Write(Replaced(v), t)
  {
    assert [] + t == t;
    assert [] + Write(Replaced(v), t) == Write(Replaced(v), t);
  }

  lemma LightEvidence(e: seq<Str>)
    requires IsEvidence(e)
    ensures Light(List(ListOf(e)), 12301)
  {
    forall i | 0 <= i < |e|
      ensures |e[i]| <= MAX_SCALAR_BYTES
    {
      ScalarLength(e[i]);
    }
    MarkFits(OPEN_LIST);
    hide Sized, IsScalarText, WriteElements;
    var v := List(ListOf(e));
    forall k, m: nat | Sized(k, m)
      ensures Sized(Write(Replaced(v), k), 12301 + m)
    {
      SizedItems(e, k, m);
      var w := WriteElements(ReplacedElements(ListOf(e)), k);
      SizedJoin([OPEN_LIST], 1, w, 3075 * |e| + m);
      Looser([OPEN_LIST] + w, 1 + (3075 * |e| + m), 12301 + m);
    }
  }

  lemma LightTwo(a: (Str, Value), x: nat, b: (Str, Value), y: nat)
    requires Light(a.1, x) && Light(b.1, y)
    ensures Light(Object(ObjectOf([a, b])), 6 * (|a.0| + |b.0|) + 9 + x + y)
  {
    hide Light, ObjectOf, Weight;
    assert LightFields([a, b], [x, y]);
    TwoWeights(a, b, x, y);
    LightObject([a, b], [x, y]);
  }

  lemma LightThree(a: (Str, Value), x: nat, b: (Str, Value), y: nat, c: (Str, Value), z: nat)
    requires Light(a.1, x) && Light(b.1, y) && Light(c.1, z)
    ensures Light(Object(ObjectOf([a, b, c])), 6 * (|a.0| + |b.0| + |c.0|) + 13 + x + y + z)
  {
    hide Light, ObjectOf, Weight;
    assert LightFields([a, b, c], [x, y, z]);
    TwoWeights(a, b, x, y);
    TwoWeights(c, c, z, z);
    WeightAppend([a, b], [x, y], [c], [z]);
    assert [a, b] + [c] == [a, b, c] && [x, y] + [z] == [x, y, z];
    LightObject([a, b, c], [x, y, z]);
  }

  lemma LightFour(a: (Str, Value), x: nat, b: (Str, Value), y: nat, c: (Str, Value), z: nat, d: (Str, Value), w: nat)
    requires Light(a.1, x) && Light(b.1, y) && Light(c.1, z) && Light(d.1, w)
    ensures LightFields([a, b, c, d], [x, y, z, w])
    ensures Weight([a, b, c, d], [x, y, z, w]) == 6 * (|a.0| + |b.0| + |c.0| + |d.0|) + 16 + x + y + z + w
    ensures Light(Object(ObjectOf([a, b, c, d])), 6 * (|a.0| + |b.0| + |c.0| + |d.0|) + 17 + x + y + z + w)
  {
    hide Light, ObjectOf, Weight;
    assert LightFields([a, b, c, d], [x, y, z, w]);
    TwoWeights(a, b, x, y);
    TwoWeights(c, d, z, w);
    WeightAppend([a, b], [x, y], [c, d], [z, w]);
    assert [a, b] + [c, d] == [a, b, c, d] && [x, y] + [z, w] == [x, y, z, w];
    LightObject([a, b, c, d], [x, y, z, w]);
  }

  lemma NameLengths()
    ensures |KIND| == 4 && |OWNER| == 5 && |ARTIFACT| == 8 && |CHECKPOINT| == 10 && |REPLY_TO| == 7 && |EVIDENCE| == 8
    ensures |FROM| == 4 && |BODY| == 4 && |SEQUENCE| == 8 && |REFERENCE| == 9 && |DISPLAY_NAME| == 11 && |REPORTED_CLAIM| == 13
    ensures |OPERATOR| == 8 && |SAY| <= 6 && |STATUS| <= 6
    ensures |REQUEST_TEXT| <= 10 && |COMPLETION_TEXT| <= 10 && |DECISION_TEXT| <= 10 && forall kind :: |ReplyText(kind)| <= 10
  {
  }

  /** The kind of a note, one of six short words. */
  lemma LightKind(word: Str)
    requires |word| <= 10
    ensures Light(StringOf(word), 62)
  {
    LightShort(word, 10);
  }

  lemma LightRequest(n: Note)
    requires IsNote(n) && n.Request?
    ensures Light(NoteJson(n), 13211)
  {
    NameLengths();
    UuidLength(n.owner);
    ScalarLength(n.artifact);
    ScalarLength(n.checkpoint);
    hide Light, Units, ObjectOf, IsUuid, IsScalarText, StringOf;
    LightKind(REQUEST_TEXT);
    LightShort(n.owner, 36);
    LightShort(n.artifact, 512);
    LightShort(n.checkpoint, 512);
    LightFour((KIND, StringOf(REQUEST_TEXT)), 62, (OWNER, StringOf(n.owner)), 218, (ARTIFACT, StringOf(n.artifact)), 3074,
              (CHECKPOINT, StringOf(n.checkpoint)), 3074);
    LightMore(NoteJson(n), 6607, 13211);
  }

  lemma LightReply(n: Note)
    requires IsNote(n) && (n.Reply? || n.Completion?)
    ensures Light(NoteJson(n), 13211)
  {
    NameLengths();
    hide Light, Units, ObjectOf, IsScalarText, IsReference, ReplyText, StringOf, ReferenceJson;
    LightReference(n.replyTo);
    if n.Reply? {
      LightKind(ReplyText(n.kind));
      LightTwo((KIND, StringOf(ReplyText(n.kind))), 62, (REPLY_TO, ReferenceJson(n.replyTo)), 721);
      LightMore(NoteJson(n), 858, 13211);
    } else {
      LightKind(COMPLETION_TEXT);
      LightEvidence(n.evidence);
      LightThree((KIND, StringOf(COMPLETION_TEXT)), 62, (REPLY_TO, ReferenceJson(n.replyTo)), 721,
                 (EVIDENCE, List(ListOf(n.evidence))), 12301);
    }
  }

  lemma LightDecision(n: Note)
    requires IsNote(n) && n.Decision?
    ensures Light(NoteJson(n), 13211)
  {
    NameLengths();
    hide Light, Units, ObjectOf, IsScalarText, StringOf;
    LightKind(DECISION_TEXT);
    LightEvidence(n.evidence);
    LightTwo((KIND, StringOf(DECISION_TEXT)), 62, (EVIDENCE, List(ListOf(n.evidence))), 12301);
    LightMore(NoteJson(n), 12444, 13211);
  }

  /** A note takes at most 13211 bytes. */
  lemma LightNote(n: Note)
    requires IsNote(n)
    ensures Light(NoteJson(n), 13211)
  {
    hide Light, NoteJson, IsNote;
    match n {
      case Request(_, _, _) => LightRequest(n);
      case Reply(_, _) => LightReply(n);
      case Completion(_, _) => LightReply(n);
      case Decision(_) => LightDecision(n);
    }
  }

  // --- The line ---

  lemma LightLead(p: Post)
    requires IsPost(p)
    ensures LightFields(LeadFields(p), [122, 38, 218, 721]) && Weight(LeadFields(p), [122, 38, 218, 721]) == 1265
  {
    NameLengths();
    UuidLength(p.ref.from);
    var kind := if p.status then STATUS else SAY;
    hide Light, Units, Utf8Length, IsUuid, IsReference, IsChannel, LightFields, Weight;
    assert |p.seqno| <= 20;
    LightShort(p.seqno, 20);
    LightShort(kind, 6);
    LightShort(p.ref.from, 36);
    LightReference(p.ref);
    LightFour((SEQUENCE, StringOf(p.seqno)), 122, (KIND, StringOf(kind)), 38, (FROM, StringOf(p.ref.from)), 218,
              (REFERENCE, ReferenceJson(p.ref)), 721);
  }

  /** What follows the lead: at most a display name, the body and the claim. */
  lemma LightTail(p: Post, claim: Option<Decoding>) returns (ws: seq<nat>)
    requires |p.body| <= MAX_BODY_BYTES
    requires claim.Some? ==> IsNote(claim.value.note) && |claim.value.body| <= MAX_BODY_BYTES
    ensures var fields := NameFields(p.ref.from) + BodyFields(p.body, claim);
      |fields| == |ws| && LightFields(fields, ws) && Weight(fields, ws) <= 38500
  {
    NameLengths();
    hide Light, Units, IsNote, Weight;
    var names: seq<nat>, bodies: seq<nat> := [], [24578];
    LightShort(OPERATOR, 8);
    var name := (DISPLAY_NAME, StringOf(OPERATOR));
    TwoWeights(name, name, 50, 50);
    if p.ref.from == OPERATOR_ID {
      names := [50];
    } else {
      NoWeight();
    }
    if claim.Some? {
      bodies := [24578, 13211];
      LightShort(claim.value.body, 4096);
      LightNote(claim.value.note);
      TwoWeights((BODY, StringOf(claim.value.body)), (REPORTED_CLAIM, NoteJson(claim.value.note)), 24578, 13211);
    } else {
      LightShort(p.body, 4096);
      TwoWeights((BODY, StringOf(p.body)), (BODY, StringOf(p.body)), 24578, 24578);
    }
    ws := names + bodies;
    WeightAppend(NameFields(p.ref.from), names, BodyFields(p.body, claim), bodies);
  }

  lemma NoWeight()
    ensures Weight([], []) == 0
  {
  }

  lemma FieldsJoin(a: seq<(Str, Value)>, x: seq<nat>, b: seq<(Str, Value)>, y: seq<nat>)
    requires LightFields(a, x) && LightFields(b, y)
    ensures LightFields(a + b, x + y)
  {
  }

  lemma LightLine(p: Post, claim: Option<Decoding>)
    requires IsPost(p) && |p.body| <= MAX_BODY_BYTES
    requires claim.Some? ==> IsNote(claim.value.note) && |claim.value.body| <= MAX_BODY_BYTES
    ensures Light(LineJson(p, claim), 45000)
  {
    hide Light, LightFields, Weight, IsNote, LeadFields, NameFields, BodyFields, ObjectOf, IsPost;
    LightLead(p);
    var ws := LightTail(p, claim);
    var lead, tail := LeadFields(p), NameFields(p.ref.from) + BodyFields(p.body, claim);
    var leadWeights: seq<nat> := [122, 38, 218, 721];
    assert lead + tail == LeadFields(p) + NameFields(p.ref.from) + BodyFields(p.body, claim);
    LeadLength(p);
    FieldsJoin(lead, leadWeights, tail, ws);
    WeightAppend(lead, leadWeights, tail, ws);
    LightObject(lead + tail, leadWeights + ws);
    LightMore(LineJson(p, claim), Weight(lead + tail, leadWeights + ws) + 1, 45000);
  }

  /** Every message of a valid page, decoded or raw, has a well-formed line of at most 45000 bytes. */
  lemma LineFits(p: Post, raw: bool)
    requires IsPost(p)
    ensures Sized(Line(p, raw), 45000)
  {
    var claim := Claim(p, raw);
    ClaimIsNote(p, raw);
    UnitsFit(p.body);
    hide DecodeNote, Light, LineJson, IsNote, Utf8Length, WellFormed, Write, Replace, Replaced, IsReference, Canonical, Sized;
    if claim.Some? {
      ClaimShortens(p.body);
    }
    LightLine(p, claim);
    NothingFits();
    WriteLight(LineJson(p, claim), 45000, [], 0);
    LineIsTree(p, claim);
  }

  lemma LeadLength(p: Post)
    ensures |LeadFields(p)| == 4
  {
  }

  lemma NothingFits()
    ensures Sized([], 0)
  {
  }

  lemma ValidText(s: Str)
    ensures Valid(StringOf(s))
  {
    DecodeEscape(s);
  }

  lemma {:induction false} ValidObject(fields: seq<(Str, Value)>)
    requires |fields| != 0 && forall i :: 0 <= i < |fields| ==> Valid(fields[i].1)
    ensures ValidMembers(ObjectOf(fields))
  {
    hide Decode, Escape, Valid;
    DecodeEscape(fields[0].0);
    assert IsBlank([]) && Valid(fields[0].1);
    assert ValidMember(MemberOf(fields[0]));
    if |fields| > 1 {
      ValidObject(fields[1..]);
    }
  }

  lemma LineIsTree(p: Post, claim: Option<Decoding>)
    requires IsReference(p.ref) && (claim.Some? ==> IsNote(claim.value.note))
    ensures Replace(Write(LineJson(p, claim), [])) == Write(Replaced(LineJson(p, claim)), [])
  {
    hide Units, Write, Replace, IsNote, IsReference, ReferenceJson, NoteJson, StringOf, Decode;
    NotesCodec.ReferenceBack(p.ref);
    ValidText(p.seqno);
    ValidText(if p.status then STATUS else SAY);
    ValidText(p.ref.from);
    ValidText(OPERATOR);
    ValidText(p.body);
    if claim.Some? {
      NotesCodec.NoteBack(claim.value.note);
      ValidText(claim.value.body);
    }
    var fields := LeadFields(p) + NameFields(p.ref.from) + BodyFields(p.body, claim);
    assert forall i :: 0 <= i < |fields| ==> Valid(fields[i].1);
    ValidObject(fields);
    ReplaceWrite(LineJson(p, claim), []);
    ReplaceNothing();
  }

  lemma ReplaceNothing()
    ensures Replace([]) == []
  {
  }

  // --- Whole pages ---

  function Rows(posts: seq<Post>, raw: bool): (rows: seq<Row>)
    ensures |rows| == |posts|
    ensures forall i :: 0 <= i < |posts| ==> rows[i] == Row(posts[i].seqno, Line(posts[i], raw))
  {
    seq(|posts|, i requires 0 <= i < |posts| => Row(posts[i].seqno, Line(posts[i], raw)))
  }

  /** For every valid page, decoded or raw: the text is within 48 KiB, and unless the page is empty at least its first
      message is shown and the boundary is the sequence of the last one shown. */
  lemma ValidPageAdvances(posts: seq<Post>, raw: bool, metadata: Str, earlier: bool, reset: bool, caughtUp: bool)
    requires |posts| <= 32 && WellFormed(metadata)
    requires forall p :: p in posts ==> Canonical(p.seqno) && IsReference(p.ref) && Utf8Length(p.body) <= 4096
    ensures var f := Format(Rows(posts, raw), metadata, earlier, reset, caughtUp);
      && Sized(f.text, 49152)
      && if posts == [] then f.shown == 0 && f.returnedThrough == None
         else 1 <= f.shown <= |posts| && f.returnedThrough == Some(posts[f.shown - 1].seqno)
  {
    hide Line, WellFormed, Utf8Length, Preamble, Reserve, Ending, Lines;
    var rows := Rows(posts, raw);
    forall i | 0 <= i < |rows|
      ensures ValidRow(rows[i]) && Utf8Length(rows[i].line) <= 45000
    {
      assert posts[i] in posts;
      LineFits(posts[i], raw);
    }
    hide ValidRow, Sized, IsPost;
    FormattedFits(rows, metadata, earlier, reset, caughtUp);
    if posts != [] {
      FirstIsShown(rows, metadata, earlier, reset, caughtUp);
    }
  }
}
