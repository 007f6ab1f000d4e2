/** JSON texts (RFC 8259): a tree with its white space, the text it writes and the parser that reads it back. */
module Json {
  import opened Options
  import opened Strings
  import opened JsonText
  import opened JsonStrings

  const COMMA: Unit := 0x2C
  const COLON: Unit := 0x3A
  const OPEN_LIST: Unit := 0x5B
  const CLOSE_LIST: Unit := 0x5D
  const OPEN_OBJECT: Unit := 0x7B
  const CLOSE_OBJECT: Unit := 0x7D
  const MINUS: Unit := 0x2D
  const PLUS: Unit := 0x2B
  const POINT: Unit := 0x2E

  /** A text as a tree: every literal and all white space are kept as written. */
  datatype Value =
    | Scalar(text: Str)
    | Text(raw: Str)
    | EmptyList(blank: Str)
    | List(elements: Elements)
    | EmptyObject(blank: Str)
    | Object(members: Members)
  datatype Element = Element(before: Str, value: Value, after: Str)
  datatype Elements = Last(element: Element) | More(element: Element, rest: Elements)
  datatype Member = Member(before: Str, key: Str, mid: Str, element: Element)
  datatype Members = LastMember(member: Member) | MoreMembers(member: Member, others: Members)

  // --- Writing, each part onto the text that follows it ---

  function Write(v: Value, k: Str): Str {
    match v
    case Scalar(text) => text + k
    case Text(raw) => [QUOTE] + (raw + ([QUOTE] + k))
    case EmptyList(blank) => [OPEN_LIST] + (blank + ([CLOSE_LIST] + k))
    case List(elements) => [OPEN_LIST] + WriteElements(elements, k)
    case EmptyObject(blank) => [OPEN_OBJECT] + (blank + ([CLOSE_OBJECT] + k))
    case Object(members) => [OPEN_OBJECT] + WriteMembers(members, k)
  }

  function WriteElement(e: Element, k: Str): Str {
    e.before + Write(e.value, e.after + k)
  }

  function WriteElements(es: Elements, k: Str): Str {
    match es
    case Last(e) => WriteElement(e, [CLOSE_LIST] + k)
    case More(e, rest) => WriteElement(e, [COMMA] + WriteElements(rest, k))
  }

  function WriteMember(m: Member, k: Str): Str {
    m.before + ([QUOTE] + (m.key + ([QUOTE] + (m.mid + ([COLON] + WriteElement(m.element, k))))))
  }

  function WriteMembers(ms: Members, k: Str): Str {
    match ms
    case LastMember(m) => WriteMember(m, [CLOSE_OBJECT] + k)
    case MoreMembers(m, others) => WriteMember(m, [COMMA] + WriteMembers(others, k))
  }

  // --- The grammar ---

  predicate Blank(u: Unit) {
    u == 0x20 || u == 9 || u == 10 || u == 13
  }

  predicate IsBlank(s: Str) {
    forall i :: 0 <= i < |s| ==> Blank(s[i])
  }

  predicate Digit(u: Unit) {
    48 <= u <= 57
  }

  function DigitRun(s: Str): (n: nat)
    ensures n <= |s| && forall i :: 0 <= i < n ==> Digit(s[i])
  {
    if |s| == 0 || !Digit(s[0]) then 0 else 1 + DigitRun(s[1..])
  }

  predicate IsExponent(s: Str) {
    |s| == 0 ||
    ((s[0] == 0x65 || s[0] == 0x45) &&
     var digits := if |s| > 1 && (s[1] == PLUS || s[1] == MINUS) then s[2..] else s[1..];
     |digits| >= 1 && DigitRun(digits) == |digits|)
  }

  predicate IsFraction(s: Str) {
    if |s| != 0 && s[0] == POINT then var n := DigitRun(s[1..]); n >= 1 && IsExponent(s[1 + n..]) else IsExponent(s)
  }

  predicate IsNumber(s: Str) {
    var t := if |s| != 0 && s[0] == MINUS then s[1..] else s;
    var n := DigitRun(t);
    n >= 1 && (t[0] == 48 ==> n == 1) && IsFraction(t[n..])
  }

  const TRUE_TEXT: Str := [0x74, 0x72, 0x75, 0x65]
  const FALSE_TEXT: Str := [0x66, 0x61, 0x6C, 0x73, 0x65]
  const NULL_TEXT: Str := [0x6E, 0x75, 0x6C, 0x6C]

  predicate IsScalar(s: Str) {
    s == TRUE_TEXT || s == FALSE_TEXT || s == NULL_TEXT || IsNumber(s)
  }

  predicate Valid(v: Value) {
    match v
    case Scalar(text) => IsScalar(text)
    case Text(raw) => Decode(raw).Some?
    case EmptyList(blank) => IsBlank(blank)
    case List(elements) => ValidElements(elements)
    case EmptyObject(blank) => IsBlank(blank)
    case Object(members) => ValidMembers(members)
  }

  predicate ValidElement(e: Element) {
    IsBlank(e.before) && Valid(e.value) && IsBlank(e.after)
  }

  predicate ValidElements(es: Elements) {
    ValidElement(es.element) && (es.More? ==> ValidElements(es.rest))
  }

  predicate ValidMember(m: Member) {
    IsBlank(m.before) && Decode(m.key).Some? && IsBlank(m.mid) && ValidElement(m.element)
  }

  predicate ValidMembers(ms: Members) {
    ValidMember(ms.member) && (ms.MoreMembers? ==> ValidMembers(ms.others))
  }

  // --- Scalars are runs of their own units ---

  predicate ScalarUnit(u: Unit) {
    Digit(u) || 65 <= u <= 90 || 97 <= u <= 122 || u == MINUS || u == PLUS || u == POINT
  }

  predicate ScalarRun(s: Str) {
    forall i :: 0 <= i < |s| ==> ScalarUnit(s[i])
  }

  lemma ExponentRun(s: Str)
    requires IsExponent(s)
    ensures ScalarRun(s)
  {
    if |s| != 0 {
      var k := if |s| > 1 && (s[1] == PLUS || s[1] == MINUS) then 2 else 1;
      forall i | k <= i < |s| ensures Digit(s[i]) {
        assert s[i] == s[k..][i - k];
      }
    }
  }

  lemma RunsJoin(a: Str, b: Str)
    requires ScalarRun(a) && ScalarRun(b)
    ensures ScalarRun(a + b)
  {
  }

  lemma FractionRun(s: Str)
    requires IsFraction(s)
    ensures ScalarRun(s)
  {
    hide IsExponent, ScalarRun;
    if |s| != 0 && s[0] == POINT {
      var n := DigitRun(s[1..]);
      DigitsRun(s[1..][..n]);
      PointRun();
      ExponentRun(s[1 + n..]);
      hide DigitRun;
      RunsJoin([POINT], s[1..][..n]);
      RunsJoin([POINT] + s[1..][..n], s[1 + n..]);
      assert s == [POINT] + s[1..][..n] + s[1 + n..];
    } else {
      ExponentRun(s);
    }
  }

  lemma PointRun()
    ensures ScalarRun([POINT])
  {
  }

  lemma DigitsRun(s: Str)
    requires forall i :: 0 <= i < |s| ==> Digit(s[i])
    ensures ScalarRun(s)
  {
  }

  lemma ScalarIsRun(s: Str)
    requires IsScalar(s)
    ensures |s| != 0 && ScalarRun(s)
  {
    if IsNumber(s) {
      var m := if s[0] == MINUS then 1 else 0;
      var t := s[m..];
      var n := DigitRun(t);
      FractionRun(t[n..]);
      hide IsFraction;
      forall i | m <= i < |s| ensures ScalarUnit(s[i]) {
        if i < m + n {
          assert s[i] == t[i - m];
        } else {
          assert s[i] == t[n..][i - m - n];
        }
      }
    }
  }

  // --- Reading ---

  function BlankRun(s: Str): (n: nat)
    ensures n <= |s| && (forall i :: 0 <= i < n ==> Blank(s[i])) && (n < |s| ==> !Blank(s[n]))
  {
    if |s| == 0 || !Blank(s[0]) then 0
    else BlankRun(s[1..]) + 1
  }

  function UnitRun(s: Str): (n: nat)
    ensures n <= |s| && (forall i :: 0 <= i < n ==> ScalarUnit(s[i])) && (n < |s| ==> !ScalarUnit(s[n]))
  {
    if |s| == 0 || !ScalarUnit(s[0]) then 0
    else UnitRun(s[1..]) + 1
  }

  datatype Read<+T> = Read(value: T, rest: Str) | Failed

  function ParseString(s: Str): (r: Read<Str>)
    ensures r.Read? ==> |r.rest| < |s|
  {
    if |s| == 0 || s[0] != QUOTE then Failed
    else
      var n := Closing(s[1..]);
      if n == |s[1..]| || Decode(s[1..][..n]).None? then Failed
      else Read(s[1..][..n], s[1..][n + 1..])
  }

  function Parse(s: Str): (r: Read<Value>)
    ensures r.Read? ==> |r.rest| < |s|
    decreases |s|, 0
  {
    if |s| == 0 then Failed
    else if s[0] == QUOTE then
      match ParseString(s)
      case Failed => Failed
      case Read(raw, rest) => Read(Text(raw), rest)
    else if s[0] == OPEN_LIST then
      var n := BlankRun(s[1..]);
      var t := s[1..][n..];
      if |t| != 0 && t[0] == CLOSE_LIST then Read(EmptyList(s[1..][..n]), t[1..])
      else
        match ParseElements(s[1..])
        case Failed => Failed
        case Read(es, rest) => Read(List(es), rest)
    else if s[0] == OPEN_OBJECT then
      var n := BlankRun(s[1..]);
      var t := s[1..][n..];
      if |t| != 0 && t[0] == CLOSE_OBJECT then Read(EmptyObject(s[1..][..n]), t[1..])
      else
        match ParseMembers(s[1..])
        case Failed => Failed
        case Read(ms, rest) => Read(Object(ms), rest)
    else
      var n := UnitRun(s);
      if n != 0 && IsScalar(s[..n]) then Read(Scalar(s[..n]), s[n..]) else Failed
  }

  function ParseElement(s: Str): (r: Read<Element>)
    ensures r.Read? ==> |r.rest| < |s|
    decreases |s|, 1
  {
    var b := BlankRun(s);
    match Parse(s[b..])
    case Failed => Failed
    case Read(v, t) =>
      var a := BlankRun(t);
      Read(Element(s[..b], v, t[..a]), t[a..])
  }

  function ParseElements(s: Str): (r: Read<Elements>)
    ensures r.Read? ==> |r.rest| < |s|
    decreases |s|, 2
  {
    match ParseElement(s)
    case Failed => Failed
    case Read(e, t) =>
      if |t| == 0 then Failed
      else if t[0] == CLOSE_LIST then Read(Last(e), t[1..])
      else if t[0] != COMMA then Failed
      else
        match ParseElements(t[1..])
        case Failed => Failed
        case Read(rest, u) => Read(More(e, rest), u)
  }

  function ParseMember(s: Str): (r: Read<Member>)
    ensures r.Read? ==> |r.rest| < |s|
    decreases |s|, 2
  {
    var b := BlankRun(s);
    match ParseString(s[b..])
    case Failed => Failed
    case Read(key, t) =>
      var m := BlankRun(t);
      var u := t[m..];
      if |u| == 0 || u[0] != COLON then Failed
      else
        match ParseElement(u[1..])
        case Failed => Failed
        case Read(e, rest) => Read(Member(s[..b], key, t[..m], e), rest)
  }

  function ParseMembers(s: Str): (r: Read<Members>)
    ensures r.Read? ==> |r.rest| < |s|
    decreases |s|, 3
  {
    match ParseMember(s)
    case Failed => Failed
    case Read(m, t) =>
      if |t| == 0 then Failed
      else if t[0] == CLOSE_OBJECT then Read(LastMember(m), t[1..])
      else if t[0] != COMMA then Failed
      else
        match ParseMembers(t[1..])
        case Failed => Failed
        case Read(others, u) => Read(MoreMembers(m, others), u)
  }

  /** `JSON.parse`: one value with white space around it and nothing else. */
  function ParseDocument(s: Str): Option<Element> {
    match ParseElement(s)
    case Failed => None
    case Read(e, rest) => if |rest| == 0 then Some(e) else None
  }

  function WriteDocument(e: Element): Str {
    WriteElement(e, [])
  }
}
