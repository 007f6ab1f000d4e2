/** What the event-stream parser makes of a written frame: which calls it causes and when it is refused, told from the
    lines and not from the parser's own reading of them (extension/sse.ts). */
module SseFrames {
  import opened Bytes
  import opened FieldLines
  import S = Sse

  const EVENT := Ascii("event")
  const DATA := Ascii("data")

  predicate KnownEvent(name: seq<byte>) {
    || name == Ascii("message") || name == Ascii("presence_snapshot") || name == Ascii("presence_delta")
    || name == Ascii("presence_reset") || name == Ascii("operator_update")
  }

  /** Surroundings that read every line and accept every call. */
  ghost predicate Willing(h: S.Host) {
    (forall s :: h.utf8(s)) && forall c :: h.answer(c)
  }

  function Activities(n: nat): seq<S.Call> {
    seq(n, _ => S.ActivityCall)
  }

  /** The frame being read after some of its lines. */
  function AfterLines(a: S.Assembly, lines: seq<Line>): S.Assembly {
    var values := ValuesOf(lines, DATA);
    S.Assembly(LastOr(ValuesOf(lines, EVENT), a.event), a.hasData || values != [], a.data + S.Terminated(values), false,
               a.calls + Activities(Comments(lines)))
  }

  lemma FieldNames()
    ensures EVENT == S.EVENT_FIELD && DATA == S.DATA_FIELD && EVENT != DATA
  {
    assert EVENT[0] != DATA[0];
  }

  lemma OneLine(h: S.Host, a: S.Assembly, l: Line)
    requires S.Framed(a) && !a.leading && WellWritten(l) && Willing(h) && |a.data| + |Written(l)| <= S.MAX_BYTES
    ensures S.CompleteLine(h, a, Written(l)) == S.Completed(AfterLines(a, [l]), false)
  {
    FieldNames();
    var line := Written(l);
    var none: seq<Line> := [];
    assert [l][1..] == none && ValuesOf(none, EVENT) == [] && ValuesOf(none, DATA) == [] && Comments(none) == 0;
    assert S.Stripped(a, line) == line;
    if l.Comment? {
      assert S.Terminated([]) == [] && a.data + [] == a.data;
      assert Activities(1) == [S.ActivityCall];
    } else {
      ReadBack(l);
      assert line[0] == l.name[0] && line[0] != 58;
      S.DataBufferSuffices(h, a, line);
      assert Activities(0) == [] && a.calls + [] == a.calls;
      if l.name == DATA {
        OneTerminated(Value(l));
        assert a.data + Value(l) + [10] == a.data + (Value(l) + [10]);
      } else {
        assert S.Terminated([]) == [] && a.data + [] == a.data;
      }
    }
  }

  lemma OneTerminated(value: seq<byte>)
    ensures S.Terminated([value]) == value + [10]
  {
    var none: seq<seq<byte>> := [];
    assert [value][1..] == none && S.Terminated(none) == [];
  }

  lemma Compose(a: S.Assembly, lines: seq<Line>)
    requires lines != []
    ensures AfterLines(AfterLines(a, [lines[0]]), lines[1..]) == AfterLines(a, lines)
  {
    ComposeData(a.data, lines);
    ComposeCalls(a.calls, lines);
    var none: seq<Line> := [];
    assert [lines[0]][1..] == none && ValuesOf(none, EVENT) == [];
    hide Activities, S.Terminated, Value;
  }

  lemma ComposeData(data: seq<byte>, lines: seq<Line>)
    requires lines != []
    ensures var d, e := ValuesOf([lines[0]], DATA), ValuesOf(lines[1..], DATA);
      ValuesOf(lines, DATA) == d + e && data + S.Terminated(d) + S.Terminated(e) == data + S.Terminated(d + e)
  {
    var none: seq<Line> := [];
    assert [lines[0]][1..] == none && ValuesOf(none, DATA) == [];
    hide S.Terminated;
    var d, e := ValuesOf([lines[0]], DATA), ValuesOf(lines[1..], DATA);
    S.TerminatedAppend(d, e);
    assert data + S.Terminated(d) + S.Terminated(e) == data + (S.Terminated(d) + S.Terminated(e));
  }

  lemma ComposeCalls(calls: seq<S.Call>, lines: seq<Line>)
    requires lines != []
    ensures calls + Activities(Comments([lines[0]])) + Activities(Comments(lines[1..])) == calls + Activities(Comments(lines))
  {
    var none: seq<Line> := [];
    assert [lines[0]][1..] == none && Comments(none) == 0;
    var x, y := Activities(Comments([lines[0]])), Activities(Comments(lines[1..]));
    assert calls + x + y == calls + (x + y);
    assert x + y == Activities(Comments(lines));
  }

  lemma DataGrows(h: S.Host, a: S.Assembly, l: Line)
    requires S.Framed(a) && !a.leading && WellWritten(l) && Willing(h) && |a.data| + |Written(l)| <= S.MAX_BYTES
    ensures S.Framed(AfterLines(a, [l])) && |AfterLines(a, [l]).data| <= |a.data| + |Written(l)|
  {
    OneLine(h, a, l);
    hide AfterLines;
  }

  /** The lines of a frame are read one by one, however they end. */
  lemma {:induction false} LinesRead(h: S.Host, a: S.Assembly, lines: seq<Line>, end: seq<byte>, rest: seq<byte>, raw: nat)
    requires S.Framed(a) && !a.leading && AllWritten(lines) && Willing(h) && IsEnd(end) && Follows(end, rest)
    requires |a.data| <= raw && raw + |WriteLines(lines, end)| <= S.MAX_BYTES
    ensures S.Framed(AfterLines(a, lines)) && |AfterLines(a, lines).data| <= raw + |WriteLines(lines, end)|
    ensures S.Batch(h, WriteLines(lines, end) + rest, a, raw)
            == S.Batch(h, rest, AfterLines(a, lines), raw + |WriteLines(lines, end)|)
    decreases |lines|
  {
    hide *;
    if lines == [] {
      NoLines(a, lines, end, rest);
    } else {
      var l, more := lines[0], lines[1..];
      var line, after := Written(l), WriteLines(more, end) + rest;
      WriteFirst(lines, end, rest);
      LinesFollow(more, end, rest);
      EndWidth(end, after);
      S.BatchFirstLine(h, line, |end|, end + after, a, raw);
      OneLine(h, a, l);
      DataGrows(h, a, l);
      NotLeading(a, l);
      LinesRead(h, AfterLines(a, [l]), more, end, rest, raw + |line| + |end|);
      Compose(a, lines);
    }
  }

  lemma NoLines(a: S.Assembly, lines: seq<Line>, end: seq<byte>, rest: seq<byte>)
    requires lines == [] && !a.leading
    ensures AfterLines(a, lines) == a && WriteLines(lines, end) == [] && WriteLines(lines, end) + rest == rest
  {
    assert S.Terminated([]) == [] && a.data + [] == a.data;
    assert Activities(0) == [] && a.calls + [] == a.calls;
  }

  lemma NotLeading(a: S.Assembly, l: Line)
    ensures !AfterLines(a, [l]).leading
  {
  }

  /** What a frame comes to: nothing said, a call with the last event name (or `message`) and the data values joined by
      LF, or a refusal. */
  datatype Outcome = Quiet | Says(call: S.Call) | Refuses

  function Meaning(h: S.Host, lines: seq<Line>): Outcome {
    var values, name := ValuesOf(lines, DATA), LastOr(ValuesOf(lines, EVENT), []);
    var event := if name == [] then Ascii("message") else name;
    if values == [] then if name == [] then Quiet else Refuses
    else if KnownEvent(event) && h.payload(event, Join(values)) then Says(S.FrameCall(event, Join(values)))
    else Refuses
  }

  /** The blank line after a frame's lines. */
  lemma BlankLine(h: S.Host, calls: seq<S.Call>, lines: seq<Line>)
    requires Willing(h) && S.Framed(AfterLines(Between(calls), lines))
    ensures var b := AfterLines(Between(calls), lines);
      S.CompleteLine(h, b, []) ==
      match Meaning(h, lines)
      case Quiet => S.Completed(Between(b.calls), true)
      case Says(call) => S.Completed(Between(b.calls + [call, S.ActivityCall]), true)
      case Refuses => S.Failed(b.calls)
  {
    var a := Between(calls);
    var b := AfterLines(a, lines);
    var values := ValuesOf(lines, DATA);
    assert [] + S.Terminated(values) == S.Terminated(values);
    assert S.Stripped(b, []) == [];
    var event := if b.event == [] then Ascii("message") else b.event;
    assert KnownEvent(event) <==> event in S.EVENTS;
    if values != [] {
      S.TerminatedIsJoin(values);
      assert b.data[..|b.data| - 1] == Join(values);
      var call := S.FrameCall(event, Join(values));
      assert b.calls + [call] + [S.ActivityCall] == b.calls + [call, S.ActivityCall];
    }
  }

  /** Between frames. */
  function Between(calls: seq<S.Call>): S.Assembly {
    S.Assembly([], false, [], false, calls)
  }

  /** A written frame makes one activity call for each comment and then what its lines mean, and reading goes on behind
      it; a refused frame ends the stream with the calls made so far. */
  lemma WrittenFrame(h: S.Host, calls: seq<S.Call>, lines: seq<Line>, end: seq<byte>, rest: seq<byte>)
    requires Willing(h) && AllWritten(lines) && IsEnd(end) && Follows(end, rest)
    requires |WriteLines(lines, end)| + |end| <= S.MAX_BYTES
    ensures var heard := calls + Activities(Comments(lines));
      S.Batch(h, WriteLines(lines, end) + end + rest, Between(calls), 0) ==
      match Meaning(h, lines)
      case Quiet => S.Batch(h, rest, Between(heard), 0)
      case Says(call) => S.Batch(h, rest, Between(heard + [call, S.ActivityCall]), 0)
      case Refuses => S.Verdict(false, heard)
  {
    hide *;
    var a, blank := Between(calls), end + rest;
    FrameShape(calls, lines, end, rest);
    EndWidth(end, rest);
    LinesRead(h, a, lines, end, blank, 0);
    S.BatchFirstLine(h, [], |end|, blank, AfterLines(a, lines), |WriteLines(lines, end)|);
    BlankLine(h, calls, lines);
  }

  lemma FrameShape(calls: seq<S.Call>, lines: seq<Line>, end: seq<byte>, rest: seq<byte>)
    requires IsEnd(end)
    ensures var blank := end + rest; var a := Between(calls);
      && WriteLines(lines, end) + end + rest == WriteLines(lines, end) + blank && [] + blank == blank && Unbroken([])
      && Follows(end, blank) && S.Framed(a) && !a.leading && a.calls == calls && a.data == [] && 1 <= |end| <= 2
      && AfterLines(a, lines).calls == calls + Activities(Comments(lines))
  {
    hide WriteLines, Comments, ValuesOf, Activities;
  }

  // --- Refusals by the surroundings, and the first line ---

  /** A line is refused exactly when it is not UTF-8, its data overruns the buffer, or it is a comment whose activity
      call is refused; the calls made stay made. */
  lemma LineFailsExactly(h: S.Host, a: S.Assembly, l: Line)
    requires S.Framed(a) && !a.leading && WellWritten(l)
    ensures var r := S.CompleteLine(h, a, Written(l));
      && (r.Failed? <==> || !h.utf8(Written(l))
                         || (l.Comment? && !h.answer(a.calls + [S.ActivityCall]))
                         || (!l.Comment? && l.name == DATA && |a.data| + |Value(l)| + 1 > 1048576))
      && (r.Failed? ==> r.calls == if h.utf8(Written(l)) && l.Comment? then a.calls + [S.ActivityCall] else a.calls)
  {
    FieldNames();
    assert S.Stripped(a, Written(l)) == Written(l);
    if !l.Comment? {
      ReadBack(l);
      assert Written(l)[0] == l.name[0] && l.name[0] != 58;
    }
  }

  /** A blank line is refused exactly when its frame has a name but no data, an unknown name, a payload that is not the
      event's, or a refused call; the frame call comes before the activity call. */
  lemma BlankFailsExactly(h: S.Host, a: S.Assembly)
    requires S.Framed(a) && !a.leading && h.utf8([])
    ensures var r := S.CompleteLine(h, a, []);
      if a.data == [] then
        && (r.Failed? <==> a.event != []) && (r.Failed? ==> r.calls == a.calls)
      else
        var event := if a.event == [] then Ascii("message") else a.event;
        var bytes := a.data[..|a.data| - 1];
        var shown := a.calls + [S.FrameCall(event, bytes)];
        && (r.Failed? <==> !KnownEvent(event) || !h.payload(event, bytes) || !h.answer(shown) || !h.answer(shown + [S.ActivityCall]))
        && (r.Failed? ==> r.calls == if !KnownEvent(event) || !h.payload(event, bytes) then a.calls
                                     else if !h.answer(shown) then shown else shown + [S.ActivityCall])
  {
    assert S.Stripped(a, []) == [];
    var event := if a.event == [] then Ascii("message") else a.event;
    assert KnownEvent(event) <==> event in S.EVENTS;
  }

  /** A byte-order mark is dropped from the first line and from no other. */
  lemma FirstLineOnly(h: S.Host, a: S.Assembly, line: seq<byte>)
    requires S.Framed(a) && h.utf8(line) && h.utf8([0xEF, 0xBB, 0xBF] + line)
    ensures S.CompleteLine(h, a.(leading := true), [0xEF, 0xBB, 0xBF] + line) == S.CompleteLine(h, a.(leading := false), line)
    ensures !([0xEF, 0xBB, 0xBF] <= line) ==>
              S.CompleteLine(h, a.(leading := true), line) == S.CompleteLine(h, a.(leading := false), line)
    ensures line != [] && line[0] != 58 && 58 in line ==>
              S.CompleteLine(h, a.(leading := false), [0xEF, 0xBB, 0xBF] + line) == S.Completed(a.(leading := false), false)
  {
    var marked := [0xEF, 0xBB, 0xBF] + line;
    assert marked[3..] == line;
    FieldNames();
    assert FieldName(marked) != [] ==> FieldName(marked)[0] == 0xEF;
    assert EVENT[0] != 0xEF && DATA[0] != 0xEF;
    hide S.Dispatch, FieldValue;
  }
}
