/** The coordination-note codec (extension/coordination-notes.ts). */
module Notes {
  import opened Options
  import opened Strings
  import Decimal
  import opened Utf8
  import opened Whitespace
  import opened JsonText
  import opened JsonStrings
  import opened Json
  import opened JsonReading
  import opened WireJson

  const PREFIX: Str := Units("SWITCHBOARD_COORDINATION_V1") + [10]
  const MAX_ENVELOPE_BYTES: nat := 4096
  const MAX_SCALAR_BYTES: nat := 512
  const MAX_EVIDENCE: nat := 4

  datatype Reference = Reference(channel: Str, from: Str, id: Str)
  datatype ReplyKind = Accept | Decline | Blocked
  datatype Note =
    | Request(owner: Str, artifact: Str, checkpoint: Str)
    | Reply(kind: ReplyKind, replyTo: Reference)
    | Completion(replyTo: Reference, evidence: seq<Str>)
    | Decision(evidence: seq<Str>)

  // --- What a note must be ---

  predicate IsScope(s: Str) {
    |Trim(s)| != 0 && WellFormed(s)
  }

  predicate IsScalarText(s: Str) {
    IsScope(s) && Utf8Length(s) <= MAX_SCALAR_BYTES
  }

  predicate IsChannel(s: Str) {
    1 <= |s| <= 32 && 97 <= s[0] <= 122 && forall i :: 0 <= i < |s| ==> 97 <= s[i] <= 122 || 48 <= s[i] <= 57 || s[i] == 45
  }

  predicate IsReference(r: Reference) {
    IsChannel(r.channel) && IsUuid(r.from) && IsUuid(r.id)
  }

  predicate IsEvidence(e: seq<Str>) {
    1 <= |e| <= MAX_EVIDENCE && forall i :: 0 <= i < |e| ==> IsScalarText(e[i])
  }

  predicate IsNote(n: Note) {
    match n
    case Request(owner, artifact, checkpoint) => IsUuid(owner) && IsScalarText(artifact) && IsScalarText(checkpoint)
    case Reply(_, replyTo) => IsReference(replyTo)
    case Completion(replyTo, evidence) => IsReference(replyTo) && IsEvidence(evidence)
    case Decision(evidence) => IsEvidence(evidence)
  }

  // --- JSON.stringify, then the two separators escaped ---

  function Replace(s: Str): Str {
    if |s| == 0 then []
    else (if s[0] == 0x2028 || s[0] == 0x2029 then HexEscape(s[0]) else [s[0]]) + Replace(s[1..])
  }

  function StringOf(s: Str): Value {
    Text(Escape(s))
  }

  function MemberOf(field: (Str, Value)): Member {
    Member([], Escape(field.0), [], Element([], field.1, []))
  }

  function ObjectOf(fields: seq<(Str, Value)>): Members
    requires |fields| != 0
  {
    if |fields| == 1 then LastMember(MemberOf(fields[0])) else MoreMembers(MemberOf(fields[0]), ObjectOf(fields[1..]))
  }

  function ListOf(items: seq<Str>): Elements
    requires |items| != 0
  {
    var e := Element([], StringOf(items[0]), []);
    if |items| == 1 then Last(e) else More(e, ListOf(items[1..]))
  }

  const KIND: Str := Units("kind")
  const OWNER: Str := Units("owner")
  const ARTIFACT: Str := Units("artifact")
  const CHECKPOINT: Str := Units("checkpoint")
  const REPLY_TO: Str := Units("replyTo")
  const EVIDENCE: Str := Units("evidence")
  const CHANNEL: Str := Units("channel")
  const FROM: Str := Units("from")
  const ID: Str := Units("id")
  const VERSION: Str := Units("version")
  const NOTE: Str := Units("note")
  const BODY: Str := Units("body")

  const REQUEST_TEXT: Str := Units("request")
  const ACCEPT_TEXT: Str := Units("accept")
  const DECLINE_TEXT: Str := Units("decline")
  const BLOCKED_TEXT: Str := Units("blocked")
  const COMPLETION_TEXT: Str := Units("completion")
  const DECISION_TEXT: Str := Units("decision")
  const ONE: Str := [49]

  function ReplyText(kind: ReplyKind): Str {
    match kind case Accept => ACCEPT_TEXT case Decline => DECLINE_TEXT case Blocked => BLOCKED_TEXT
  }

  function ReferenceJson(r: Reference): Value {
    Object(ObjectOf([(CHANNEL, StringOf(r.channel)), (FROM, StringOf(r.from)), (ID, StringOf(r.id))]))
  }

  function NoteFields(n: Note): seq<(Str, Value)>
    requires IsNote(n)
  {
    match n
    case Request(owner, artifact, checkpoint) =>
      [(KIND, StringOf(REQUEST_TEXT)), (OWNER, StringOf(owner)), (ARTIFACT, StringOf(artifact)),
       (CHECKPOINT, StringOf(checkpoint))]
    case Reply(kind, replyTo) => [(KIND, StringOf(ReplyText(kind))), (REPLY_TO, ReferenceJson(replyTo))]
    case Completion(replyTo, evidence) =>
      [(KIND, StringOf(COMPLETION_TEXT)), (REPLY_TO, ReferenceJson(replyTo)), (EVIDENCE, List(ListOf(evidence)))]
    case Decision(evidence) => [(KIND, StringOf(DECISION_TEXT)), (EVIDENCE, List(ListOf(evidence)))]
  }

  function NoteJson(n: Note): Value
    requires IsNote(n)
  {
    Object(ObjectOf(NoteFields(n)))
  }

  function EnvelopeJson(n: Note, body: Str): Value
    requires IsNote(n)
  {
    Object(ObjectOf([(VERSION, Scalar(ONE)), (NOTE, NoteJson(n)), (BODY, StringOf(body))]))
  }

  function EncodeNote(body: Str, n: Note): Option<Str> {
    if !IsScope(body) || !IsNote(n) then None
    else
      var encoded := PREFIX + Replace(Write(EnvelopeJson(n, body), []));
      if Utf8Length(encoded) > MAX_ENVELOPE_BYTES then None else Some(encoded)
  }

  // --- Reading ---

  /** The fields of an object in order; the wire check has already refused repeated names. */
  function Fields(ms: Members): seq<(Str, Value)> {
    [(Spelled(ms.member.key), ms.member.element.value)] + (if ms.MoreMembers? then Fields(ms.others) else [])
  }

  function FieldsOf(v: Value): Option<seq<(Str, Value)>> {
    if v.Object? then Some(Fields(v.members)) else if v.EmptyObject? then Some([]) else None
  }

  function Get(fields: seq<(Str, Value)>, name: Str): Option<Value> {
    if |fields| == 0 then None else if fields[0].0 == name then Some(fields[0].1) else Get(fields[1..], name)
  }

  function GetText(fields: seq<(Str, Value)>, name: Str): Option<Str> {
    match Get(fields, name)
    case Some(Text(raw)) => Some(Spelled(raw))
    case _ => None
  }

  predicate ExactKeys(fields: seq<(Str, Value)>, names: seq<Str>) {
    |fields| == |names| && forall i :: 0 <= i < |names| ==> Get(fields, names[i]).Some?
  }

  function ParseReference(v: Option<Value>): Option<Reference> {
    if v.None? || FieldsOf(v.value).None? then None
    else
      var f := FieldsOf(v.value).value;
      if !ExactKeys(f, [CHANNEL, FROM, ID]) then None
      else
        match (GetText(f, CHANNEL), GetText(f, FROM), GetText(f, ID))
        case (Some(channel), Some(from), Some(id)) =>
          var r := Reference(channel, from, id);
          if IsReference(r) then Some(r) else None
        case _ => None
  }

  function Texts(es: Elements): Option<seq<Str>> {
    var v := es.element.value;
    if !v.Text? then None
    else if es.Last? then Some([Spelled(v.raw)])
    else
      match Texts(es.rest)
      case Some(rest) => Some([Spelled(v.raw)] + rest)
      case None => None
  }

  function ParseEvidence(v: Option<Value>): Option<seq<Str>> {
    match v
    case Some(List(es)) =>
      (match Texts(es)
       case Some(items) => if IsEvidence(items) then Some(items) else None
       case None => None)
    case _ => None
  }

  function ReplyKindOf(text: Str): Option<ReplyKind> {
    if text == ACCEPT_TEXT then Some(Accept)
    else if text == DECLINE_TEXT then Some(Decline)
    else if text == BLOCKED_TEXT then Some(Blocked)
    else None
  }

  function Checked(n: Note): Option<Note> {
    if IsNote(n) then Some(n) else None
  }

  function ParseNote(v: Option<Value>): Option<Note> {
    if v.None? || FieldsOf(v.value).None? then None
    else
      var f := FieldsOf(v.value).value;
      match GetText(f, KIND)
      case None => None
      case Some(kind) =>
        if kind == REQUEST_TEXT then
          if !ExactKeys(f, [KIND, OWNER, ARTIFACT, CHECKPOINT]) then None
          else
            (match (GetText(f, OWNER), GetText(f, ARTIFACT), GetText(f, CHECKPOINT))
             case (Some(owner), Some(artifact), Some(checkpoint)) => Checked(Request(owner, artifact, checkpoint))
             case _ => None)
        else if ReplyKindOf(kind).Some? then
          if !ExactKeys(f, [KIND, REPLY_TO]) then None
          else
            (match ParseReference(Get(f, REPLY_TO))
             case Some(replyTo) => Some(Reply(ReplyKindOf(kind).value, replyTo))
             case None => None)
        else if kind == COMPLETION_TEXT then
          if !ExactKeys(f, [KIND, REPLY_TO, EVIDENCE]) then None
          else
            (match (ParseReference(Get(f, REPLY_TO)), ParseEvidence(Get(f, EVIDENCE)))
             case (Some(replyTo), Some(evidence)) => Some(Completion(replyTo, evidence))
             case _ => None)
        else if kind == DECISION_TEXT then
          if !ExactKeys(f, [KIND, EVIDENCE]) then None
          else
            (match ParseEvidence(Get(f, EVIDENCE))
             case Some(evidence) => Some(Decision(evidence))
             case None => None)
        else None
  }

  // --- The version, a JSON number ---

  /** A number text as a sign, digits without their point, and a power of ten. */
  datatype Scientific = Scientific(negative: bool, digits: Str, exponent: int)

  function ExponentOf(s: Str): int {
    if |s| < 2 || !(s[0] == 0x65 || s[0] == 0x45) then 0
    else if s[1] == MINUS then -(RunValue(s[2..]) as int)
    else if s[1] == PLUS then RunValue(s[2..])
    else RunValue(s[1..])
  }

  function RunValue(s: Str): nat {
    var n := DigitRun(s);
    assert Decimal.Digits(s[..n]) by {
      assert forall i :: 0 <= i < n ==> s[..n][i] == s[i] && Digit(s[i]);
    }
    Decimal.Value(s[..n])
  }

  function ReadNumber(text: Str): (r: Scientific)
    ensures forall i :: 0 <= i < |r.digits| ==> Digit(r.digits[i])
  {
    var negative := |text| != 0 && text[0] == MINUS;
    var t := if negative then text[1..] else text;
    var n := DigitRun(t);
    if n < |t| && t[n] == POINT then
      var fraction := t[n + 1..];
      var f := DigitRun(fraction);
      Scientific(negative, t[..n] + fraction[..f], ExponentOf(fraction[f..]) - f)
    else Scientific(negative, t[..n], ExponentOf(t[n..]))
  }

  /** The double nearest to a/b is 1: no further below it than half the gap there, no further above than half that gap,
      and at both halves the even neighbour is 1 itself. */
  predicate NearestIsOne(a: nat, b: nat) {
    18014398509481983 * b <= 18014398509481984 * a && 9007199254740992 * a <= 9007199254740993 * b
  }

  /** `value.version === 1` for a version spelled by this number text. */
  predicate IsOne(text: Str) {
    var r := ReadNumber(text);
    assert Decimal.Digits(r.digits) by {
      assert forall i :: 0 <= i < |r.digits| ==> Digit(r.digits[i]);
    }
    var m := Decimal.Value(r.digits);
    && !r.negative
    && if r.exponent >= 0 then NearestIsOne(m * Decimal.Pow10(r.exponent), 1) else NearestIsOne(m, Decimal.Pow10(-r.exponent))
  }

  datatype Decoding = Decoding(note: Note, body: Str)

  function ParseEnvelope(v: Value): Option<Decoding> {
    if FieldsOf(v).None? then None
    else
      var f := FieldsOf(v).value;
      if !ExactKeys(f, [VERSION, NOTE, BODY]) then None
      else
        match Get(f, VERSION)
        case Some(Scalar(text)) =>
          if !IsNumber(text) || !IsOne(text) then None
          else
            (match (GetText(f, BODY), ParseNote(Get(f, NOTE)))
             case (Some(body), Some(note)) => if IsScope(body) then Some(Decoding(note, body)) else None
             case _ => None)
        case _ => None
  }

  function DecodeNote(text: Str): Option<Decoding> {
    if !WellFormed(text) || !(PREFIX <= text) || Utf8Length(text) > MAX_ENVELOPE_BYTES then None
    else
      match Decoded(text[|PREFIX|..])
      case None => None
      case Some(e) => ParseEnvelope(e.value)
  }
}
