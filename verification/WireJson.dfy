/** The wire's JSON check (extension/protocol.ts, hub/priv/dashboard/protocol.js): one flat pass over the tokens of a
    text already known to be JSON decides what the tree says about repeated keys and lone surrogates. */
module WireJson {
  import opened Options
  import opened Strings
  import opened Utf8
  import opened Whitespace
  import opened JsonText
  import opened JsonStrings
  import opened Json
  import opened JsonReading

  /** The keys seen so far in each open object; nothing for a list. */
  type Stack = seq<Option<set<Str>>>

  /** `/^\s*:/` */
  predicate NextIsColon(s: Str) {
    var t := TrimStart(s);
    |t| != 0 && t[0] == COLON
  }

  function Popped(stack: Stack): Stack {
    if |stack| == 0 then stack else stack[..|stack| - 1]
  }

  predicate AcceptsKey(stack: Stack, key: Str) {
    |stack| != 0 && stack[|stack| - 1].Some? && key !in stack[|stack| - 1].value
  }

  function WithKey(stack: Stack, key: Str): Stack
    requires AcceptsKey(stack, key)
  {
    Popped(stack) + [Some(stack[|stack| - 1].value + {key})]
  }

  /** The verdict of the pass over the rest of the text. */
  predicate Scan(s: Str, stack: Stack)
    decreases |s|
  {
    if |s| == 0 then true
    else if s[0] == QUOTE && Closing(s[1..]) < |s| - 1 then
      var n := Closing(s[1..]);
      ScanString(s[1..][..n], s[1..][n + 1..], stack)
    else if s[0] == OPEN_OBJECT then Scan(s[1..], stack + [Some({})])
    else if s[0] == OPEN_LIST then Scan(s[1..], stack + [None])
    else if s[0] == CLOSE_OBJECT || s[0] == CLOSE_LIST then Scan(s[1..], Popped(stack))
    else Scan(s[1..], stack)
  }

  predicate ScanString(raw: Str, rest: Str, stack: Stack)
    decreases |rest| + 1
  {
    match Decode(raw)
    case None => false
    case Some(text) =>
      WellFormed(text) &&
      if NextIsColon(rest) then AcceptsKey(stack, text) && Scan(rest, WithKey(stack, text)) else Scan(rest, stack)
  }

  /** The pass as the loop it is. */
  method CheckTokens(text: Str) returns (ok: bool)
    ensures ok == Scan(text, [])
  {
    hide NextIsColon, WellFormed, Decode, Closing, AcceptsKey;
    var rest := text;
    var containers: Stack := [];
    while |rest| != 0
      invariant Scan(text, []) == Scan(rest, containers)
      decreases |rest|
    {
      var tail := rest[1..];
      if rest[0] == QUOTE && Closing(tail) < |tail| {
        var n := Closing(tail);
        match Decode(tail[..n])
        case None => return false;
        case Some(key) =>
          if !WellFormed(key) { return false; }
          rest := tail[n + 1..];
          if NextIsColon(rest) {
            if !AcceptsKey(containers, key) { return false; }
            containers := WithKey(containers, key);
          }
      } else {
        if rest[0] == OPEN_OBJECT {
          containers := containers + [Some({})];
        } else if rest[0] == OPEN_LIST {
          containers := containers + [None];
        } else if rest[0] == CLOSE_OBJECT || rest[0] == CLOSE_LIST {
          containers := Popped(containers);
        }
        rest := tail;
      }
    }
    ok := true;
  }

  method DecodeWireJson(text: Str) returns (r: Option<Element>)
    ensures r == Decoded(text)
  {
    r := ParseDocument(text);
    if r.Some? {
      var ok := CheckTokens(text);
      if !ok { r := None; }
    }
  }

  function Decoded(text: Str): Option<Element> {
    if ParseDocument(text).Some? && Scan(text, []) then ParseDocument(text) else None
  }

  // --- What the tree says ---

  function DecodedKeys(ms: Members): seq<Str> {
    [Spelled(ms.member.key)] + (if ms.MoreMembers? then DecodedKeys(ms.others) else [])
  }

  ghost predicate NoRepeats(keys: seq<Str>) {
    forall i, j :: 0 <= i < j < |keys| ==> keys[i] != keys[j]
  }

  /** No object at any depth repeats a key, and no key or string has a lone surrogate. */
  ghost predicate Sound(v: Value) {
    match v
    case Text(raw) => WellFormed(Spelled(raw))
    case List(elements) => SoundElements(elements)
    case Object(members) => NoRepeats(DecodedKeys(members)) && SoundMembers(members)
    case _ => true
  }

  ghost predicate SoundElements(es: Elements) {
    Sound(es.element.value) && (es.More? ==> SoundElements(es.rest))
  }

  ghost predicate SoundMembers(ms: Members) {
    && WellFormed(Spelled(ms.member.key)) && Sound(ms.member.element.value)
    && (ms.MoreMembers? ==> SoundMembers(ms.others))
  }

  // --- The pass over what a tree writes ---

  predicate Quiet(s: Str) {
    forall i :: 0 <= i < |s| ==>
      s[i] != QUOTE && s[i] != OPEN_OBJECT && s[i] != OPEN_LIST && s[i] != CLOSE_OBJECT && s[i] != CLOSE_LIST
  }

  lemma {:induction false} ScanQuiet(s: Str, k: Str, stack: Stack)
    requires Quiet(s)
    ensures Scan(s + k, stack) == Scan(k, stack)
  {
    if |s| == 0 {
      assert s + k == k;
    } else {
      assert (s + k)[1..] == s[1..] + k;
      ScanQuiet(s[1..], k, stack);
    }
  }

  lemma ScanMark(u: Unit, k: Str, stack: Stack)
    requires u != QUOTE
    ensures Scan([u] + k, stack) ==
            Scan(k, if u == OPEN_OBJECT then stack + [Some({})] else if u == OPEN_LIST then stack + [None]
                    else if u == CLOSE_OBJECT || u == CLOSE_LIST then Popped(stack) else stack)
  {
    assert ([u] + k)[1..] == k;
  }

  lemma ScanLiteral(raw: Str, k: Str, stack: Stack)
    requires Decode(raw).Some?
    ensures Scan([QUOTE] + (raw + ([QUOTE] + k)), stack) == ScanString(raw, k, stack)
  {
    var t := raw + ([QUOTE] + k);
    assert ([QUOTE] + t)[1..] == t;
    ClosingFinds(raw, k);
    hide Decode, Closing, ScanString;
    assert t[..|raw|] == raw && t[|raw| + 1..] == k;
  }

  lemma {:induction false} BlankIsTrimmed(b: Str, k: Str)
    requires IsBlank(b)
    ensures TrimStart(b + k) == TrimStart(k)
  {
    if |b| == 0 {
      assert b + k == k;
    } else {
      assert (b + k)[1..] == b[1..] + k;
      BlankIsTrimmed(b[1..], k);
    }
  }

  lemma EndsNoColon(after: Str, k: Str)
    requires IsBlank(after) && Ends(k)
    ensures !NextIsColon(after + k)
  {
    BlankIsTrimmed(after, k);
  }

  lemma BlankQuiet(b: Str)
    requires IsBlank(b)
    ensures Quiet(b)
  {
  }

  /** No key is among those seen, and none repeats. */
  ghost predicate NewKeys(ms: Members, seen: set<Str>) {
    var key := Spelled(ms.member.key);
    key !in seen && (ms.MoreMembers? ==> NewKeys(ms.others, seen + {key}))
  }

  ghost predicate Unseen(keys: seq<Str>, seen: set<Str>) {
    forall i :: 0 <= i < |keys| ==> keys[i] !in seen
  }

  lemma {:induction false} NewKeysMean(ms: Members, seen: set<Str>)
    ensures NewKeys(ms, seen) <==> NoRepeats(DecodedKeys(ms)) && Unseen(DecodedKeys(ms), seen)
  {
    hide Spelled, NoRepeats, Unseen;
    var key := Spelled(ms.member.key);
    if ms.MoreMembers? {
      var tail := DecodedKeys(ms.others);
      NewKeysMean(ms.others, seen + {key});
      ConsRepeats(key, tail);
      ConsUnseen(key, tail, seen);
      assert DecodedKeys(ms) == [key] + tail;
    } else {
      OneKey(key);
      ConsUnseen(key, [], seen);
      assert DecodedKeys(ms) == [key] + [];
    }
  }

  lemma ConsUnseen(key: Str, tail: seq<Str>, seen: set<Str>)
    ensures Unseen([key] + tail, seen) <==> key !in seen && Unseen(tail, seen)
    ensures Unseen(tail, seen + {key}) <==> Unseen(tail, seen) && forall i :: 0 <= i < |tail| ==> tail[i] != key
    ensures Unseen([], seen)
  {
    var all := [key] + tail;
    assert all[0] == key;
    assert forall i :: 0 <= i < |tail| ==> all[i + 1] == tail[i];
    assert forall i :: 0 < i < |all| ==> all[i] == tail[i - 1];
  }

  lemma OneKey(key: Str)
    ensures NoRepeats([key]) && NoRepeats([key] + [])
  {
  }

  lemma ConsRepeats(key: Str, tail: seq<Str>)
    ensures NoRepeats([key] + tail) <==> NoRepeats(tail) && forall i :: 0 <= i < |tail| ==> tail[i] != key
  {
    var all := [key] + tail;
    if NoRepeats(all) {
      forall i, j | 0 <= i < j < |tail| ensures tail[i] != tail[j] {
        assert all[i + 1] == tail[i] && all[j + 1] == tail[j];
      }
      forall i | 0 <= i < |tail| ensures tail[i] != key {
        assert all[i + 1] == tail[i] && all[0] == key;
      }
    }
  }

  lemma {:induction false} ScanValue(v: Value, k: Str, stack: Stack)
    requires Valid(v) && !NextIsColon(k)
    ensures Scan(Write(v, k), stack) <==> Sound(v) && Scan(k, stack)
    decreases v, 0
  {
    hide NextIsColon, WellFormed, Decode, Closing, IsScalar, Scan;
    match v
    case Scalar(text) =>
      ScalarIsRun(text);
      ScanQuiet(text, k, stack);
    case Text(raw) => ScanLiteral(raw, k, stack);
    case EmptyList(blank) => ScanEmpty(OPEN_LIST, blank, CLOSE_LIST, k, stack);
    case List(es) =>
      ScanMark(OPEN_LIST, WriteElements(es, k), stack);
      ScanElements(es, k, stack);
    case EmptyObject(blank) => ScanEmpty(OPEN_OBJECT, blank, CLOSE_OBJECT, k, stack);
    case Object(ms) =>
      ScanMark(OPEN_OBJECT, WriteMembers(ms, k), stack);
      ScanMembers(ms, k, stack, {});
      NewKeysMean(ms, {});
      hide NewKeys, NoRepeats, SoundMembers;
  }

  lemma ScanEmpty(open: Unit, blank: Str, close: Unit, k: Str, stack: Stack)
    requires IsBlank(blank)
    requires (open == OPEN_LIST && close == CLOSE_LIST) || (open == OPEN_OBJECT && close == CLOSE_OBJECT)
    ensures Scan([open] + (blank + ([close] + k)), stack) == Scan(k, stack)
  {
    hide Scan;
    var inner := stack + [if open == OPEN_LIST then None else Some({})];
    ScanMark(open, blank + ([close] + k), stack);
    BlankQuiet(blank);
    ScanQuiet(blank, [close] + k, inner);
    ScanMark(close, k, inner);
    assert Popped(inner) == stack;
  }

  lemma {:induction false} ScanElement(e: Element, k: Str, stack: Stack)
    requires ValidElement(e) && Ends(k)
    ensures Scan(WriteElement(e, k), stack) <==> Sound(e.value) && Scan(k, stack)
    decreases e, 1
  {
    EndsNoColon(e.after, k);
    ScanValue(e.value, e.after + k, stack);
    hide Scan, Write, Sound;
    BlankQuiet(e.before);
    BlankQuiet(e.after);
    ScanQuiet(e.before, Write(e.value, e.after + k), stack);
    ScanQuiet(e.after, k, stack);
  }

  lemma {:induction false} ScanElements(es: Elements, k: Str, stack: Stack)
    requires ValidElements(es)
    ensures Scan(WriteElements(es, k), stack + [None]) <==> SoundElements(es) && Scan(k, stack)
    decreases es, 2
  {
    hide Scan, WriteElement, ValidElement, Sound;
    var inner := stack + [None];
    if es.Last? {
      ScanElement(es.element, [CLOSE_LIST] + k, inner);
      ScanMark(CLOSE_LIST, k, inner);
      assert Popped(inner) == stack;
    } else {
      var more := WriteElements(es.rest, k);
      ScanElement(es.element, [COMMA] + more, inner);
      ScanMark(COMMA, more, inner);
      ScanElements(es.rest, k, stack);
    }
  }

  /** One member of an object whose keys so far are `seen`. */
  lemma {:induction false} ScanMember(m: Member, k: Str, stack: Stack, seen: set<Str>)
    requires ValidMember(m) && Ends(k)
    ensures var key := Spelled(m.key);
      Scan(WriteMember(m, k), stack + [Some(seen)]) <==>
        key !in seen && WellFormed(key) && Sound(m.element.value) && Scan(k, stack + [Some(seen + {key})])
    decreases m, 2
  {
    var key := Spelled(m.key);
    hide Scan, WriteElement, ValidElement, Sound, WellFormed, Decode;
    var inner := stack + [Some(seen)];
    var after := [COLON] + WriteElement(m.element, k);
    var t := m.mid + after;
    BlankQuiet(m.before);
    ScanQuiet(m.before, [QUOTE] + (m.key + ([QUOTE] + t)), inner);
    ScanLiteral(m.key, t, inner);
    BlankIsTrimmed(m.mid, after);
    assert TrimStart(after) == after;
    assert Popped(inner) == stack;
    if AcceptsKey(inner, key) {
      var next := stack + [Some(seen + {key})];
      assert WithKey(inner, key) == next;
      BlankQuiet(m.mid);
      ScanQuiet(m.mid, after, next);
      ScanMark(COLON, WriteElement(m.element, k), next);
      ScanElement(m.element, k, next);
    }
  }

  lemma {:induction false} ScanMembers(ms: Members, k: Str, stack: Stack, seen: set<Str>)
    requires ValidMembers(ms)
    ensures Scan(WriteMembers(ms, k), stack + [Some(seen)]) <==> NewKeys(ms, seen) && SoundMembers(ms) && Scan(k, stack)
    decreases ms, 3
  {
    hide Scan, WriteMember, Sound, WellFormed, Decode;
    var key := Spelled(ms.member.key);
    var inner := stack + [Some(seen + {key})];
    if ms.LastMember? {
      ScanMember(ms.member, [CLOSE_OBJECT] + k, stack, seen);
      ScanMark(CLOSE_OBJECT, k, inner);
      assert Popped(inner) == stack;
    } else {
      var more := WriteMembers(ms.others, k);
      ScanMember(ms.member, [COMMA] + more, stack, seen);
      ScanMark(COMMA, more, inner);
      ScanMembers(ms.others, k, stack, seen + {key});
    }
  }

  // --- The theorem ---

  /** A text decodes exactly when it is JSON whose tree repeats no key at any depth and holds no lone surrogate, and
      then it decodes to that tree. */
  lemma FlatScanIsTree(text: Str, e: Element)
    ensures Decoded(text) == Some(e) <==> ValidElement(e) && WriteDocument(e) == text && Sound(e.value)
  {
    ParseIsInverse(text, e);
    if ValidElement(e) && WriteDocument(e) == text {
      hide ParseDocument, Scan;
      ScanElement(e, [], []);
      assert Scan([], []) by { ScanNothing(); }
    }
    hide ParseDocument, Scan, WriteElement, Sound;
  }

  lemma ScanNothing()
    ensures Scan([], [])
  {
  }
}
