/** Which coordination notes are written and which texts are read as notes, told by the rules for their fields
    (extension/coordination-notes.ts). */
module NotesOutcomes {
  import opened Options
  import opened Strings
  import opened Utf8
  import opened Whitespace
  import opened JsonText
  import opened JsonStrings
  import opened Json
  import opened WireJson
  import opened Notes

  // --- The rules ---

  /** Something besides white space, and no lone surrogate. */
  ghost predicate Speaks(s: Str) {
    (exists i :: 0 <= i < |s| && !Space(s[i])) && WellFormed(s)
  }

  ghost predicate ShortText(s: Str) {
    Speaks(s) && Utf8Length(s) <= 512
  }

  /** A lower-case letter, then up to 31 letters, digits and hyphens. */
  predicate ChannelName(s: Str) {
    && 1 <= |s| <= 32 && 97 <= s[0] <= 122
    && forall i :: 0 <= i < |s| ==> 97 <= s[i] <= 122 || 48 <= s[i] <= 57 || s[i] == 45
  }

  predicate Points(r: Reference) {
    ChannelName(r.channel) && IsUuid(r.from) && IsUuid(r.id)
  }

  ghost predicate SomeEvidence(e: seq<Str>) {
    1 <= |e| <= 4 && forall i :: 0 <= i < |e| ==> ShortText(e[i])
  }

  ghost predicate NoteRule(n: Note) {
    match n
    case Request(owner, artifact, checkpoint) => IsUuid(owner) && ShortText(artifact) && ShortText(checkpoint)
    case Reply(_, replyTo) => Points(replyTo)
    case Completion(replyTo, evidence) => Points(replyTo) && SomeEvidence(evidence)
    case Decision(evidence) => SomeEvidence(evidence)
  }

  lemma ScopeExactly(s: Str)
    ensures IsScope(s) <==> Speaks(s)
  {
    hide WellFormed, Space;
    var before, after := EveryTextHasBare(s);
    if Trim(s) != [] {
      assert s[|before|] == Trim(s)[0];
    } else {
      assert forall i :: 0 <= i < |s| ==> s[i] == if i < |before| then before[i] else after[i - |before|];
    }
    hide Trim;
  }

  lemma ShortExactly(s: Str)
    ensures IsScalarText(s) <==> ShortText(s)
  {
    ScopeExactly(s);
    hide IsScope, Speaks, Utf8Length;
  }

  lemma EvidenceExactly(e: seq<Str>)
    ensures IsEvidence(e) <==> SomeEvidence(e)
  {
    hide IsScalarText, ShortText;
    forall i | 0 <= i < |e| ensures IsScalarText(e[i]) <==> ShortText(e[i]) {
      ShortExactly(e[i]);
    }
  }

  lemma NoteExactly(n: Note)
    ensures IsNote(n) <==> NoteRule(n)
  {
    hide IsScalarText, ShortText, IsEvidence, SomeEvidence;
    match n
    case Request(_, artifact, checkpoint) =>
      ShortExactly(artifact);
      ShortExactly(checkpoint);
    case Reply(_, _) =>
    case Completion(_, evidence) => EvidenceExactly(evidence);
    case Decision(evidence) => EvidenceExactly(evidence);
  }

  // --- Writing ---

  /** A note is written exactly when its body says something, its fields follow the rules and the envelope takes at most
      4096 bytes: the mark, a line feed, and the envelope's JSON with the two line separators escaped. */
  lemma EncodedExactly(body: Str, n: Note)
    ensures EncodeNote(body, n).Some? <==>
            Speaks(body) && NoteRule(n) && IsNote(n)
            && Utf8Length(Units("SWITCHBOARD_COORDINATION_V1") + [10] + Replace(Write(EnvelopeJson(n, body), []))) <= 4096
    ensures EncodeNote(body, n).Some? ==>
              IsNote(n) && EncodeNote(body, n).value
                           == Units("SWITCHBOARD_COORDINATION_V1") + [10] + Replace(Write(EnvelopeJson(n, body), []))
  {
    ScopeExactly(body);
    NoteExactly(n);
    hide IsScope, Speaks, IsNote, NoteRule, Utf8Length, Replace, Write;
  }

  function TextOf(s: Str): Value {
    Text(Escape(s))
  }

  /** The fields written, with their names and in their order. */
  lemma WrittenFields(n: Note, body: Str)
    requires IsNote(n)
    ensures EnvelopeJson(n, body)
            == Object(ObjectOf([(Units("version"), Scalar([49])), (Units("note"), Object(ObjectOf(NoteFields(n)))), (Units("body"), TextOf(body))]))
    ensures NoteFields(n) ==
            match n
            case Request(owner, artifact, checkpoint) =>
              [(Units("kind"), TextOf(Units("request"))), (Units("owner"), TextOf(owner)), (Units("artifact"), TextOf(artifact)),
               (Units("checkpoint"), TextOf(checkpoint))]
            case Reply(kind, replyTo) =>
              [(Units("kind"), TextOf(Units(match kind case Accept => "accept" case Decline => "decline" case Blocked => "blocked"))),
               (Units("replyTo"), ReferenceJson(replyTo))]
            case Completion(replyTo, evidence) =>
              [(Units("kind"), TextOf(Units("completion"))), (Units("replyTo"), ReferenceJson(replyTo)), (Units("evidence"), List(ListOf(evidence)))]
            case Decision(evidence) => [(Units("kind"), TextOf(Units("decision"))), (Units("evidence"), List(ListOf(evidence)))]
  {
    hide IsNote, Escape, Units;
  }

  lemma WrittenReference(r: Reference)
    ensures ReferenceJson(r)
            == Object(ObjectOf([(Units("channel"), TextOf(r.channel)), (Units("from"), TextOf(r.from)), (Units("id"), TextOf(r.id))]))
  {
    hide Escape, Units;
  }

  /** Only the two line separators are escaped a second time. */
  lemma {:induction false} SeparatorsEscaped(s: Str)
    ensures 0x2028 !in Replace(s) && 0x2029 !in Replace(s)
    ensures 0x2028 !in s && 0x2029 !in s ==> Replace(s) == s
  {
    if s != [] {
      SeparatorsEscaped(s[1..]);
      assert s == [s[0]] + s[1..];
    }
  }

  // --- Reading ---

  /** The first field of a name holds this value. */
  ghost predicate Has(fields: seq<(Str, Value)>, name: Str, v: Value) {
    exists i :: 0 <= i < |fields| && fields[i] == (name, v) && forall j :: 0 <= j < i ==> fields[j].0 != name
  }

  ghost predicate HasText(fields: seq<(Str, Value)>, name: Str, s: Str) {
    exists raw :: Has(fields, name, Text(raw)) && Spelled(raw) == s
  }

  /** An object of exactly the channel, sender and message of what it points at. */
  ghost predicate ReferenceMeans(v: Value, r: Reference) {
    && FieldsOf(v).Some?
    && var f := FieldsOf(v).value;
    && |f| == 3 && HasText(f, Units("channel"), r.channel) && HasText(f, Units("from"), r.from) && HasText(f, Units("id"), r.id) && Points(r)
  }

  function Items(es: Elements): seq<Value> {
    [es.element.value] + if es.More? then Items(es.rest) else []
  }

  ghost predicate Spell(items: seq<Value>, e: seq<Str>) {
    |items| == |e| && forall i :: 0 <= i < |e| ==> items[i].Text? && Spelled(items[i].raw) == e[i]
  }

  ghost predicate EvidenceMeans(v: Value, e: seq<Str>) {
    v.List? && Spell(Items(v.elements), e) && SomeEvidence(e)
  }

  ghost predicate HasReference(fields: seq<(Str, Value)>, r: Reference) {
    exists v :: Has(fields, Units("replyTo"), v) && ReferenceMeans(v, r)
  }

  ghost predicate HasEvidence(fields: seq<(Str, Value)>, e: seq<Str>) {
    exists v :: Has(fields, Units("evidence"), v) && EvidenceMeans(v, e)
  }

  /** An object of exactly the fields its kind calls for. */
  ghost predicate NoteMeans(v: Value, n: Note) {
    && FieldsOf(v).Some?
    && var f := FieldsOf(v).value; var kind := Units("kind");
    match n
    case Request(owner, artifact, checkpoint) =>
      && |f| == 4 && HasText(f, kind, Units("request")) && HasText(f, Units("owner"), owner)
      && HasText(f, Units("artifact"), artifact) && HasText(f, Units("checkpoint"), checkpoint) && NoteRule(n)
    case Reply(Accept, replyTo) => |f| == 2 && HasText(f, kind, Units("accept")) && HasReference(f, replyTo)
    case Reply(Decline, replyTo) => |f| == 2 && HasText(f, kind, Units("decline")) && HasReference(f, replyTo)
    case Reply(Blocked, replyTo) => |f| == 2 && HasText(f, kind, Units("blocked")) && HasReference(f, replyTo)
    case Completion(replyTo, evidence) =>
      |f| == 3 && HasText(f, kind, Units("completion")) && HasReference(f, replyTo) && HasEvidence(f, evidence)
    case Decision(evidence) => |f| == 2 && HasText(f, kind, Units("decision")) && HasEvidence(f, evidence)
  }

  /** An object of exactly a version, a number equal to one, a note and a body that says something. */
  ghost predicate EnvelopeMeans(v: Value, d: Decoding) {
    && FieldsOf(v).Some?
    && var f := FieldsOf(v).value;
    && |f| == 3 && Speaks(d.body) && HasText(f, Units("body"), d.body)
    && VersionOne(f) && HasNote(f, d.note)
  }

  lemma {:induction false} GetExactly(fields: seq<(Str, Value)>, name: Str, v: Value)
    ensures Get(fields, name) == Some(v) <==> Has(fields, name, v)
  {
    if fields != [] {
      var rest := fields[1..];
      GetExactly(rest, name, v);
      if Has(fields, name, v) {
        var i :| 0 <= i < |fields| && fields[i] == (name, v) && forall j :: 0 <= j < i ==> fields[j].0 != name;
        if i > 0 {
          assert fields[0].0 != name;
          assert rest[i - 1] == (name, v) && forall j :: 0 <= j < i - 1 ==> rest[j].0 != name;
        }
      }
      if fields[0].0 != name && Has(rest, name, v) {
        var i :| 0 <= i < |rest| && rest[i] == (name, v) && forall j :: 0 <= j < i ==> rest[j].0 != name;
        assert fields[i + 1] == (name, v);
        assert forall j :: 0 <= j < i + 1 ==> fields[j].0 != name;
      }
      if fields[0].0 == name && fields[0].1 == v {
        assert fields[0] == (name, v);
      }
    }
  }

  lemma TextExactly(fields: seq<(Str, Value)>, name: Str, s: Str)
    ensures GetText(fields, name) == Some(s) <==> HasText(fields, name, s)
  {
    hide Spelled, Get, Has;
    var v := Get(fields, name);
    if v.Some? {
      GetExactly(fields, name, v.value);
    }
    forall raw | Has(fields, name, Text(raw)) ensures Get(fields, name) == Some(Text(raw)) {
      GetExactly(fields, name, Text(raw));
    }
  }

  lemma GivenExactly(fields: seq<(Str, Value)>, name: Str)
    ensures forall s :: GetText(fields, name) == Some(s) <==> HasText(fields, name, s)
    ensures forall v :: Get(fields, name) == Some(v) <==> Has(fields, name, v)
    ensures GetText(fields, name).Some? ==> Get(fields, name).Some?
  {
    forall s ensures GetText(fields, name) == Some(s) <==> HasText(fields, name, s) {
      TextExactly(fields, name, s);
    }
    forall v ensures Get(fields, name) == Some(v) <==> Has(fields, name, v) {
      GetExactly(fields, name, v);
    }
  }

  lemma ReferenceExactly(v: Value, r: Reference)
    ensures ParseReference(Some(v)) == Some(r) <==> ReferenceMeans(v, r)
  {
    if FieldsOf(v).Some? {
      var f := FieldsOf(v).value;
      GivenExactly(f, Units("channel"));
      GivenExactly(f, Units("from"));
      GivenExactly(f, Units("id"));
      ThreeKeys(f, CHANNEL, FROM, ID);
      hide Units, GetText, Get, HasText, Has, ExactKeys, FieldsOf, IsUuid;
    }
  }

  lemma ThreeKeys(f: seq<(Str, Value)>, a: Str, b: Str, c: Str)
    ensures ExactKeys(f, [a, b, c]) <==> |f| == 3 && Get(f, a).Some? && Get(f, b).Some? && Get(f, c).Some?
  {
    hide Get;
    var names := [a, b, c];
    assert names[0] == a && names[1] == b && names[2] == c;
  }

  lemma TwoKeys(f: seq<(Str, Value)>, a: Str, b: Str)
    ensures ExactKeys(f, [a, b]) <==> |f| == 2 && Get(f, a).Some? && Get(f, b).Some?
  {
    hide Get;
    var names := [a, b];
    assert names[0] == a && names[1] == b;
  }

  lemma FourKeys(f: seq<(Str, Value)>, a: Str, b: Str, c: Str, d: Str)
    ensures ExactKeys(f, [a, b, c, d]) <==> |f| == 4 && Get(f, a).Some? && Get(f, b).Some? && Get(f, c).Some? && Get(f, d).Some?
  {
    hide Get;
    var names := [a, b, c, d];
    assert names[0] == a && names[1] == b && names[2] == c && names[3] == d;
  }

  lemma SpellFirst(v: Value, items: seq<Value>, e: seq<Str>)
    ensures Spell([v] + items, e) <==> e != [] && v.Text? && Spelled(v.raw) == e[0] && Spell(items, e[1..])
  {
    hide Spelled;
    var all := [v] + items;
    if e != [] {
      assert forall i :: 0 <= i < |items| ==> all[i + 1] == items[i];
      assert forall i :: 0 <= i < |e| - 1 ==> e[1..][i] == e[i + 1];
      if Spell(all, e) {
        assert all[0] == v;
        forall i | 0 <= i < |e| - 1 ensures items[i].Text? && Spelled(items[i].raw) == e[1..][i] {
          assert all[i + 1].Text? && Spelled(all[i + 1].raw) == e[i + 1];
        }
      }
    }
  }

  lemma NothingSpelled(e: seq<Str>)
    ensures Spell([], e) <==> e == []
  {
  }

  lemma {:induction false} TextsExactly(es: Elements, e: seq<Str>)
    ensures Texts(es) == Some(e) <==> Spell(Items(es), e)
    decreases es
  {
    hide Spelled, Spell;
    var v := es.element.value;
    if es.More? {
      SpellFirst(v, Items(es.rest), e);
      if e != [] {
        TextsExactly(es.rest, e[1..]);
        assert e == [e[0]] + e[1..];
      }
      if Texts(es.rest).Some? && v.Text? {
        assert ([Spelled(v.raw)] + Texts(es.rest).value)[1..] == Texts(es.rest).value;
      }
    } else {
      SpellFirst(v, [], e);
      assert [v] + [] == Items(es);
      if e != [] {
        NothingSpelled(e[1..]);
        assert e[1..] == [] <==> e == [e[0]];
      }
    }
  }

  lemma EvidenceRead(v: Value, e: seq<Str>)
    ensures ParseEvidence(Some(v)) == Some(e) <==> EvidenceMeans(v, e)
  {
    EvidenceExactly(e);
    if v.List? {
      TextsExactly(v.elements, e);
    }
    hide IsEvidence, SomeEvidence, Texts, Items, Spell;
  }

  lemma KindsApart()
    ensures REQUEST_TEXT == Units("request") && COMPLETION_TEXT == Units("completion") && DECISION_TEXT == Units("decision")
    ensures ACCEPT_TEXT == Units("accept") && DECLINE_TEXT == Units("decline") && BLOCKED_TEXT == Units("blocked")
    ensures ReplyKindOf(REQUEST_TEXT) == None && ReplyKindOf(COMPLETION_TEXT) == None && ReplyKindOf(DECISION_TEXT) == None
    ensures ReplyKindOf(ACCEPT_TEXT) == Some(Accept) && ReplyKindOf(DECLINE_TEXT) == Some(Decline) && ReplyKindOf(BLOCKED_TEXT) == Some(Blocked)
    ensures REQUEST_TEXT != COMPLETION_TEXT && REQUEST_TEXT != DECISION_TEXT && COMPLETION_TEXT != DECISION_TEXT
    ensures REPLY_TO == Units("replyTo") && EVIDENCE == Units("evidence") && KIND == Units("kind")
    ensures OWNER == Units("owner") && ARTIFACT == Units("artifact") && CHECKPOINT == Units("checkpoint")
  {
    assert |REQUEST_TEXT| == 7 && |ACCEPT_TEXT| == 6 && |DECLINE_TEXT| == 7 && |BLOCKED_TEXT| == 7;
    assert |COMPLETION_TEXT| == 10 && |DECISION_TEXT| == 8;
    assert REQUEST_TEXT[0] != DECLINE_TEXT[0] && REQUEST_TEXT[0] != BLOCKED_TEXT[0] && DECLINE_TEXT[0] != BLOCKED_TEXT[0];
  }

  lemma ReplyKinds(text: Str, kind: ReplyKind)
    ensures ReplyKindOf(text) == Some(kind) <==> text == ReplyText(kind)
  {
    KindsApart();
    hide Units;
  }

  /** One kind of note at a time. */
  lemma RequestParsed(v: Value, n: Note)
    requires n.Request? && FieldsOf(v).Some?
    ensures var f := FieldsOf(v).value;
      ParseNote(Some(v)) == Some(n) <==>
      && GetText(f, KIND) == Some(REQUEST_TEXT) && ExactKeys(f, [KIND, OWNER, ARTIFACT, CHECKPOINT]) && GetText(f, OWNER) == Some(n.owner)
      && GetText(f, ARTIFACT) == Some(n.artifact) && GetText(f, CHECKPOINT) == Some(n.checkpoint) && IsNote(n)
  {
    hide Units, GetText, Get, ExactKeys, FieldsOf, IsNote, ReplyKindOf, ParseReference, ParseEvidence;
    KindsApart();
    hide REQUEST_TEXT, COMPLETION_TEXT, DECISION_TEXT, KIND, OWNER, ARTIFACT, CHECKPOINT, ACCEPT_TEXT, DECLINE_TEXT, BLOCKED_TEXT;
  }

  lemma RequestRead(v: Value, n: Note)
    requires n.Request?
    ensures ParseNote(Some(v)) == Some(n) <==> NoteMeans(v, n)
  {
    hide Units, GetText, Get, HasText, Has, ExactKeys, FieldsOf, IsNote, NoteRule;
    if FieldsOf(v).Some? {
      var f := FieldsOf(v).value;
      RequestParsed(v, n);
      KindsApart();
      hide ParseNote, ReplyKindOf, REQUEST_TEXT, COMPLETION_TEXT, DECISION_TEXT, KIND, OWNER, ARTIFACT, CHECKPOINT;
      NoteExactly(n);
      FourKeys(f, KIND, OWNER, ARTIFACT, CHECKPOINT);
      TextGiven(f, KIND, REQUEST_TEXT);
      TextGiven(f, OWNER, n.owner);
      TextGiven(f, ARTIFACT, n.artifact);
      TextGiven(f, CHECKPOINT, n.checkpoint);
    }
  }

  lemma TextGiven(fields: seq<(Str, Value)>, name: Str, s: Str)
    ensures GetText(fields, name) == Some(s) <==> HasText(fields, name, s)
    ensures GetText(fields, name) == Some(s) ==> Get(fields, name).Some?
  {
    TextExactly(fields, name, s);
  }

  lemma ReferenceGiven(f: seq<(Str, Value)>, r: Reference)
    ensures ParseReference(Get(f, REPLY_TO)) == Some(r) <==> HasReference(f, r)
    ensures ParseReference(Get(f, REPLY_TO)) == Some(r) ==> Get(f, REPLY_TO).Some?
  {
    GivenExactly(f, REPLY_TO);
    KindsApart();
    var v := Get(f, REPLY_TO);
    if v.Some? {
      ReferenceExactly(v.value, r);
    }
    hide ReferenceMeans, Has, Get, Units, REPLY_TO, ParseReference;
    assert v == None ==> ParseReference(v) == None by { NoReference(); }
  }

  lemma NoReference()
    ensures ParseReference(None) == None && ParseEvidence(None) == None
  {
  }

  lemma EvidenceGiven(f: seq<(Str, Value)>, e: seq<Str>)
    ensures ParseEvidence(Get(f, EVIDENCE)) == Some(e) <==> HasEvidence(f, e)
    ensures ParseEvidence(Get(f, EVIDENCE)) == Some(e) ==> Get(f, EVIDENCE).Some?
  {
    GivenExactly(f, EVIDENCE);
    KindsApart();
    var v := Get(f, EVIDENCE);
    if v.Some? {
      EvidenceRead(v.value, e);
    }
    hide EvidenceMeans, Has, Get, Units, EVIDENCE, ParseEvidence;
    assert v == None ==> ParseEvidence(v) == None by { NoReference(); }
  }

  lemma ReplyParsed(v: Value, n: Note)
    requires n.Reply? && FieldsOf(v).Some?
    ensures var f := FieldsOf(v).value;
      ParseNote(Some(v)) == Some(n) <==>
      && GetText(f, KIND) == Some(ReplyText(n.kind)) && ExactKeys(f, [KIND, REPLY_TO])
      && ParseReference(Get(f, REPLY_TO)) == Some(n.replyTo)
  {
    hide Units, GetText, Get, ExactKeys, FieldsOf, IsNote, ParseReference, ParseEvidence;
    KindsApart();
    if GetText(FieldsOf(v).value, KIND).Some? {
      ReplyKinds(GetText(FieldsOf(v).value, KIND).value, n.kind);
    }
    hide REQUEST_TEXT, COMPLETION_TEXT, DECISION_TEXT, KIND, REPLY_TO, ACCEPT_TEXT, DECLINE_TEXT, BLOCKED_TEXT, ReplyKindOf, Checked;
    assert ReplyKindOf(ReplyText(n.kind)) == Some(n.kind);
  }

  lemma ReplyRead(v: Value, n: Note)
    requires n.Reply?
    ensures ParseNote(Some(v)) == Some(n) <==> NoteMeans(v, n)
  {
    hide Units, GetText, Get, HasText, Has, ExactKeys, FieldsOf, IsNote, NoteRule, HasReference, ParseReference;
    if FieldsOf(v).Some? {
      var f := FieldsOf(v).value;
      ReplyParsed(v, n);
      KindsApart();
      hide ParseNote, ReplyKindOf, REQUEST_TEXT, COMPLETION_TEXT, DECISION_TEXT, KIND, REPLY_TO, ACCEPT_TEXT, DECLINE_TEXT, BLOCKED_TEXT;
      TwoKeys(f, KIND, REPLY_TO);
      TextGiven(f, KIND, ReplyText(n.kind));
      ReferenceGiven(f, n.replyTo);
    }
  }

  lemma CompletionRead(v: Value, n: Note)
    requires n.Completion?
    ensures ParseNote(Some(v)) == Some(n) <==> NoteMeans(v, n)
  {
    if FieldsOf(v).Some? {
      var f := FieldsOf(v).value;
      KindsApart();
      GivenExactly(f, KIND);
      ReferenceGiven(f, n.replyTo);
      EvidenceGiven(f, n.evidence);
      ThreeKeys(f, KIND, REPLY_TO, EVIDENCE);
      hide Units, GetText, Get, HasText, Has, ExactKeys, FieldsOf, HasReference, HasEvidence, ReplyKindOf, ParseReference, ParseEvidence,
        REQUEST_TEXT, COMPLETION_TEXT, DECISION_TEXT, KIND, REPLY_TO, EVIDENCE;
    }
  }

  lemma DecisionRead(v: Value, n: Note)
    requires n.Decision?
    ensures ParseNote(Some(v)) == Some(n) <==> NoteMeans(v, n)
  {
    if FieldsOf(v).Some? {
      var f := FieldsOf(v).value;
      KindsApart();
      GivenExactly(f, KIND);
      EvidenceGiven(f, n.evidence);
      TwoKeys(f, KIND, EVIDENCE);
      hide Units, GetText, Get, HasText, Has, ExactKeys, FieldsOf, HasReference, HasEvidence, ReplyKindOf, ParseReference, ParseEvidence,
        REQUEST_TEXT, COMPLETION_TEXT, DECISION_TEXT, KIND, EVIDENCE;
    }
  }

  /** A value is read as a note exactly when it is an object of just that note's fields. */
  lemma NoteRead(v: Value, n: Note)
    ensures ParseNote(Some(v)) == Some(n) <==> NoteMeans(v, n)
  {
    hide ParseNote, NoteMeans;
    match n
    case Request(_, _, _) => RequestRead(v, n);
    case Reply(_, _) => ReplyRead(v, n);
    case Completion(_, _) => CompletionRead(v, n);
    case Decision(_) => DecisionRead(v, n);
  }

  lemma EnvelopeParsed(v: Value, d: Decoding)
    requires FieldsOf(v).Some?
    ensures var f := FieldsOf(v).value; var number := Get(f, VERSION);
      ParseEnvelope(v) == Some(d) <==>
      && ExactKeys(f, [VERSION, NOTE, BODY]) && number.Some? && number.value.Scalar? && IsNumber(number.value.text) && IsOne(number.value.text)
      && GetText(f, BODY) == Some(d.body) && ParseNote(Get(f, NOTE)) == Some(d.note) && IsScope(d.body)
  {
    hide Units, GetText, Get, ExactKeys, FieldsOf, ParseNote, IsScope, IsNumber, IsOne, VERSION, NOTE, BODY;
  }

  ghost predicate VersionOne(f: seq<(Str, Value)>) {
    exists number :: Has(f, Units("version"), Scalar(number)) && IsNumber(number) && IsOne(number)
  }

  ghost predicate HasNote(f: seq<(Str, Value)>, n: Note) {
    exists v :: Has(f, Units("note"), v) && NoteMeans(v, n)
  }

  lemma VersionGiven(f: seq<(Str, Value)>)
    ensures var number := Get(f, VERSION);
      VersionOne(f) <==> number.Some? && number.value.Scalar? && IsNumber(number.value.text) && IsOne(number.value.text)
  {
    assert VERSION == Units("version");
    GivenExactly(f, VERSION);
    hide Units, Get, Has, IsNumber, IsOne, VERSION;
  }

  lemma NoteGiven(f: seq<(Str, Value)>, n: Note)
    ensures ParseNote(Get(f, NOTE)) == Some(n) <==> HasNote(f, n)
    ensures ParseNote(Get(f, NOTE)) == Some(n) ==> Get(f, NOTE).Some?
  {
    assert NOTE == Units("note");
    GivenExactly(f, NOTE);
    assert ParseNote(None) == None;
    hide Units, Get, Has, ParseNote, NoteMeans, NOTE;
    if Get(f, NOTE).Some? {
      NoteRead(Get(f, NOTE).value, n);
    }
  }

  lemma EnvelopeRead(v: Value, d: Decoding)
    ensures ParseEnvelope(v) == Some(d) <==> EnvelopeMeans(v, d)
  {
    assert BODY == Units("body");
    hide Units, GetText, Get, HasText, ExactKeys, FieldsOf, ParseNote, HasNote, VersionOne, IsScope, Speaks, IsNumber, IsOne, VERSION, NOTE, BODY;
    if FieldsOf(v).Some? {
      var f := FieldsOf(v).value;
      EnvelopeParsed(v, d);
      hide ParseEnvelope;
      ThreeKeys(f, VERSION, NOTE, BODY);
      VersionGiven(f);
      NoteGiven(f, d.note);
      TextGiven(f, BODY, d.body);
      ScopeExactly(d.body);
    }
  }

  /** A text is read as a note and a body exactly when it is well-formed, begins with the mark and a line feed, takes at
      most 4096 bytes, and the rest is JSON, with no repeated key and no lone surrogate, of their envelope. */
  lemma DecodedExactly(text: Str, d: Decoding)
    ensures var mark := Units("SWITCHBOARD_COORDINATION_V1") + [10];
      DecodeNote(text) == Some(d) <==>
      WellFormed(text) && mark <= text && Utf8Length(text) <= 4096
      && exists e :: Decoded(text[|mark|..]) == Some(e) && EnvelopeMeans(e.value, d)
  {
    var mark := Units("SWITCHBOARD_COORDINATION_V1") + [10];
    assert PREFIX == mark;
    if mark <= text && Decoded(text[|mark|..]).Some? {
      EnvelopeRead(Decoded(text[|mark|..]).value.value, d);
    }
    hide Decoded, WellFormed, Utf8Length, Units, ParseEnvelope, EnvelopeMeans, PREFIX;
  }
}
