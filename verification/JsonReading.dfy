/** The parser and the writer of JSON texts undo each other, so a text has one tree or none. */
module JsonReading {
  import opened Options
  import opened Strings
  import opened JsonText
  import opened JsonStrings
  import opened Json

  // --- Runs ---

  lemma {:induction false} BlankRunOf(b: Str, t: Str)
    requires IsBlank(b) && (|t| == 0 || !Blank(t[0]))
    ensures BlankRun(b + t) == |b| && (b + t)[..|b|] == b && (b + t)[|b|..] == t
  {
    if |b| != 0 {
      assert (b + t)[1..] == b[1..] + t;
      BlankRunOf(b[1..], t);
    } else {
      assert b + t == t;
    }
  }

  lemma {:induction false} UnitRunOf(b: Str, t: Str)
    requires ScalarRun(b) && (|t| == 0 || !ScalarUnit(t[0]))
    ensures UnitRun(b + t) == |b| && (b + t)[..|b|] == b && (b + t)[|b|..] == t
  {
    if |b| != 0 {
      assert (b + t)[1..] == b[1..] + t;
      UnitRunOf(b[1..], t);
    } else {
      assert b + t == t;
    }
  }

  /** What follows an element: the end, a comma or a closing bracket. */
  predicate Ends(k: Str) {
    |k| == 0 || k[0] == COMMA || k[0] == CLOSE_LIST || k[0] == CLOSE_OBJECT
  }

  predicate Delimited(k: Str) {
    Ends(k) || Blank(k[0])
  }

  lemma AfterIsDelimited(after: Str, k: Str)
    requires IsBlank(after) && Ends(k)
    ensures Delimited(after + k)
  {
    if |after| == 0 {
      assert after + k == k;
    }
  }

  lemma Starts(v: Value, k: Str)
    requires Valid(v)
    ensures var w := Write(v, k); |w| != 0 && !Blank(w[0]) && w[0] != CLOSE_LIST && w[0] != CLOSE_OBJECT
  {
    if v.Scalar? {
      ScalarIsRun(v.text);
      assert ScalarUnit(v.text[0]);
    }
  }

  lemma ReadString(raw: Str, k: Str)
    requires Decode(raw).Some?
    ensures ParseString([QUOTE] + (raw + ([QUOTE] + k))) == Read(raw, k)
  {
    var body := raw + ([QUOTE] + k);
    var s := [QUOTE] + body;
    assert s[1..] == body;
    ClosingFinds(raw, k);
    hide Decode, Closing;
    assert body[..|raw|] == raw && body[|raw| + 1..] == k;
  }

  lemma ReadScalar(text: Str, k: Str)
    requires IsScalar(text) && Delimited(k)
    ensures Parse(text + k) == Read(Scalar(text), k)
  {
    ScalarIsRun(text);
    hide IsScalar;
    assert ScalarUnit(text[0]);
    UnitRunOf(text, k);
  }

  lemma ReadEmpty(open: Unit, blank: Str, close: Unit, k: Str)
    requires IsBlank(blank)
    requires (open == OPEN_LIST && close == CLOSE_LIST) || (open == OPEN_OBJECT && close == CLOSE_OBJECT)
    ensures Parse([open] + (blank + ([close] + k))) ==
            Read(if open == OPEN_LIST then EmptyList(blank) else EmptyObject(blank), k)
  {
    var t := blank + ([close] + k);
    var s := [open] + t;
    assert s[1..] == t;
    BlankRunOf(blank, [close] + k);
    assert ([close] + k)[1..] == k;
  }

  // --- Written, then read ---

  lemma {:induction false} ReadsBack(v: Value, k: Str)
    requires Valid(v) && Delimited(k)
    ensures Parse(Write(v, k)) == Read(v, k)
    decreases v, 0
  {
    hide IsScalar, Decode, Closing;
    match v
    case Scalar(text) => ReadScalar(text, k);
    case Text(raw) =>
      ReadString(raw, k);
      assert Write(v, k)[0] == QUOTE;
    case EmptyList(blank) => ReadEmpty(OPEN_LIST, blank, CLOSE_LIST, k);
    case List(es) => ReadsBackList(es, k);
    case EmptyObject(blank) => ReadEmpty(OPEN_OBJECT, blank, CLOSE_OBJECT, k);
    case Object(ms) => ReadsBackObject(ms, k);
  }

  lemma {:induction false} ReadsBackList(es: Elements, k: Str)
    requires ValidElements(es)
    ensures Parse([OPEN_LIST] + WriteElements(es, k)) == Read(List(es), k)
    decreases es, 3
  {
    ReadsBackElements(es, k);
    var w := WriteElements(es, k);
    var e := es.element;
    var more := if es.Last? then [CLOSE_LIST] + k else [COMMA] + WriteElements(es.rest, k);
    assert w == e.before + Write(e.value, e.after + more);
    Starts(e.value, e.after + more);
    BlankRunOf(e.before, Write(e.value, e.after + more));
    hide Write, WriteElements, ParseElements, Valid;
    assert ([OPEN_LIST] + w)[1..] == w;
  }

  lemma {:induction false} ReadsBackObject(ms: Members, k: Str)
    requires ValidMembers(ms)
    ensures Parse([OPEN_OBJECT] + WriteMembers(ms, k)) == Read(Object(ms), k)
    decreases ms, 3
  {
    ReadsBackMembers(ms, k);
    var w := WriteMembers(ms, k);
    var tail := MembersStart(ms, k);
    BlankRunOf(ms.member.before, tail);
    hide WriteMembers, ParseMembers, ValidMembers, Parse, BlankRun;
    ObjectStep(w, ms, k);
  }

  lemma ObjectStep(w: Str, ms: Members, k: Str)
    requires ParseMembers(w) == Read(ms, k)
    requires BlankRun(w) < |w| && w[BlankRun(w)] != CLOSE_OBJECT
    ensures Parse([OPEN_OBJECT] + w) == Read(Object(ms), k)
  {
    hide ParseMembers, BlankRun, ParseElements, ParseString, UnitRun, IsScalar, IsBlank;
    assert ([OPEN_OBJECT] + w)[1..] == w;
  }

  lemma MembersStart(ms: Members, k: Str) returns (tail: Str)
    requires ValidMembers(ms)
    ensures IsBlank(ms.member.before) && WriteMembers(ms, k) == ms.member.before + tail && |tail| != 0 && tail[0] == QUOTE
  {
    hide Decode, WriteElement, ValidElement;
    var m := ms.member;
    var more := if ms.LastMember? then [CLOSE_OBJECT] + k else [COMMA] + WriteMembers(ms.others, k);
    tail := [QUOTE] + (m.key + ([QUOTE] + (m.mid + ([COLON] + WriteElement(m.element, more)))));
  }

  lemma {:induction false} ReadsBackElement(e: Element, k: Str)
    requires ValidElement(e) && Ends(k)
    ensures ParseElement(WriteElement(e, k)) == Read(e, k)
    decreases e, 1
  {
    var t := e.after + k;
    AfterIsDelimited(e.after, k);
    ReadsBack(e.value, t);
    Starts(e.value, t);
    hide Write, Parse, Valid;
    BlankRunOf(e.before, Write(e.value, t));
    BlankRunOf(e.after, k);
  }

  lemma {:induction false} ReadsBackElements(es: Elements, k: Str)
    requires ValidElements(es)
    ensures ParseElements(WriteElements(es, k)) == Read(es, k)
    decreases es, 2
  {
    hide WriteElement, ParseElement, ValidElement;
    var more := if es.Last? then [CLOSE_LIST] + k else [COMMA] + WriteElements(es.rest, k);
    ReadsBackElement(es.element, more);
    if es.Last? {
      assert more[1..] == k;
    } else {
      ReadsBackElements(es.rest, k);
      assert more[1..] == WriteElements(es.rest, k);
    }
  }

  lemma {:induction false} ReadsBackMember(m: Member, k: Str)
    requires ValidMember(m) && Ends(k)
    ensures ParseMember(WriteMember(m, k)) == Read(m, k)
    decreases m, 2
  {
    ReadsBackElement(m.element, k);
    hide WriteElement, ParseElement, ValidElement, Decode;
    var w := WriteElement(m.element, k);
    var u := [COLON] + w;
    var t := m.mid + u;
    var q := [QUOTE] + (m.key + ([QUOTE] + t));
    ReadString(m.key, t);
    hide ParseString;
    BlankRunOf(m.before, q);
    BlankRunOf(m.mid, u);
    assert u[1..] == w;
  }

  lemma {:induction false} ReadsBackMembers(ms: Members, k: Str)
    requires ValidMembers(ms)
    ensures ParseMembers(WriteMembers(ms, k)) == Read(ms, k)
    decreases ms, 2
  {
    hide WriteMember, ParseMember, ValidMember;
    var more := if ms.LastMember? then [CLOSE_OBJECT] + k else [COMMA] + WriteMembers(ms.others, k);
    ReadsBackMember(ms.member, more);
    if ms.LastMember? {
      assert more[1..] == k;
    } else {
      ReadsBackMembers(ms.others, k);
      assert more[1..] == WriteMembers(ms.others, k);
    }
  }

  // --- Read, then written ---

  lemma RunSplit(s: Str, n: nat)
    requires n <= |s|
    ensures s == s[..n] + s[n..]
  {
  }

  lemma StringWritten(s: Str)
    requires ParseString(s).Read?
    ensures var r := ParseString(s); Decode(r.value).Some? && s == [QUOTE] + (r.value + ([QUOTE] + r.rest))
  {
    hide Decode;
    var t := s[1..];
    var n := Closing(t);
    hide Closing;
    assert s == [s[0]] + t;
    assert t == t[..n] + ([t[n]] + t[n + 1..]);
  }

  lemma EmptyWritten(s: Str, n: nat)
    requires |s| != 0 && n < |s[1..]|
    ensures s == [s[0]] + (s[1..][..n] + ([s[1..][n..][0]] + s[1..][n..][1..]))
  {
    var t := s[1..];
    assert s == [s[0]] + t;
    assert t == t[..n] + t[n..];
    assert t[n..] == [t[n..][0]] + t[n..][1..];
  }

  lemma {:induction false} Written(s: Str)
    requires Parse(s).Read?
    ensures Valid(Parse(s).value) && Write(Parse(s).value, Parse(s).rest) == s
    decreases |s|, 0
  {
    hide Decode, IsScalar, Closing;
    if s[0] == QUOTE {
      StringWritten(s);
    } else if s[0] == OPEN_LIST {
      WrittenList(s);
    } else if s[0] == OPEN_OBJECT {
      WrittenObject(s);
    }
  }

  lemma BlanksFirst(s: Str)
    ensures IsBlank(s[..BlankRun(s)])
  {
  }

  lemma {:induction false} WrittenList(s: Str)
    requires |s| != 0 && s[0] == OPEN_LIST && Parse(s).Read?
    ensures Valid(Parse(s).value) && Write(Parse(s).value, Parse(s).rest) == s
    decreases |s[1..]|, 3
  {
    hide Decode, IsScalar, ParseElements, ParseMembers, ParseString, UnitRun, BlankRun, IsBlank, WriteElements, ValidElements;
    var t := s[1..];
    var n := BlankRun(t);
    BlanksFirst(t);
    if n < |t| && t[n..][0] == CLOSE_LIST {
      EmptyWritten(s, n);
    } else {
      WrittenElements(t);
      assert s == [s[0]] + t;
    }
  }

  lemma {:induction false} WrittenObject(s: Str)
    requires |s| != 0 && s[0] == OPEN_OBJECT && Parse(s).Read?
    ensures Valid(Parse(s).value) && Write(Parse(s).value, Parse(s).rest) == s
    decreases |s[1..]|, 4
  {
    hide Decode, IsScalar, ParseElements, ParseMembers, ParseString, UnitRun, BlankRun, IsBlank, WriteMembers, ValidMembers;
    var t := s[1..];
    var n := BlankRun(t);
    BlanksFirst(t);
    if n < |t| && t[n..][0] == CLOSE_OBJECT {
      EmptyWritten(s, n);
    } else {
      WrittenMembers(t);
      assert s == [s[0]] + t;
    }
  }

  lemma {:induction false} WrittenElement(s: Str)
    requires ParseElement(s).Read?
    ensures ValidElement(ParseElement(s).value) && WriteElement(ParseElement(s).value, ParseElement(s).rest) == s
    decreases |s|, 1
  {
    hide Parse, Write, Valid;
    var b := BlankRun(s);
    Written(s[b..]);
    var t := Parse(s[b..]).rest;
    RunSplit(s, b);
    RunSplit(t, BlankRun(t));
  }

  lemma {:induction false} WrittenElements(s: Str)
    requires ParseElements(s).Read?
    ensures ValidElements(ParseElements(s).value) && WriteElements(ParseElements(s).value, ParseElements(s).rest) == s
    decreases |s|, 2
  {
    hide ParseElement, WriteElement, ValidElement;
    WrittenElement(s);
    var t := ParseElement(s).rest;
    assert t == [t[0]] + t[1..];
    if t[0] == COMMA {
      WrittenElements(t[1..]);
    }
  }

  lemma {:induction false} WrittenMember(s: Str)
    requires ParseMember(s).Read?
    ensures ValidMember(ParseMember(s).value) && WriteMember(ParseMember(s).value, ParseMember(s).rest) == s
    decreases |s|, 2
  {
    hide ParseString, ParseElement, WriteElement, ValidElement, Decode;
    var b := BlankRun(s);
    StringWritten(s[b..]);
    var t := ParseString(s[b..]).rest;
    var m := BlankRun(t);
    var u := t[m..];
    WrittenElement(u[1..]);
    RunSplit(s, b);
    MidWritten(t, m);
  }

  lemma MidWritten(t: Str, m: nat)
    requires m < |t| && t[m] == COLON
    ensures t == t[..m] + ([COLON] + t[m..][1..])
  {
  }

  lemma {:induction false} WrittenMembers(s: Str)
    requires ParseMembers(s).Read?
    ensures ValidMembers(ParseMembers(s).value) && WriteMembers(ParseMembers(s).value, ParseMembers(s).rest) == s
    decreases |s|, 3
  {
    hide ParseMember, WriteMember, ValidMember;
    WrittenMember(s);
    var t := ParseMember(s).rest;
    assert t == [t[0]] + t[1..];
    if t[0] == COMMA {
      WrittenMembers(t[1..]);
    }
  }

  /** A text is accepted exactly when some tree writes it, and that tree is what it is read as. */
  lemma ParseIsInverse(text: Str, e: Element)
    ensures ParseDocument(text) == Some(e) <==> ValidElement(e) && WriteDocument(e) == text
  {
    if ValidElement(e) && WriteDocument(e) == text {
      ReadsBackElement(e, []);
    }
    if ParseElement(text).Read? {
      WrittenElement(text);
    }
    hide ParseElement, WriteElement, ValidElement;
  }
}
