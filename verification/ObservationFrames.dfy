/** What the observation-stream parser makes of a written frame: which effects it causes or which code it fails with, told
    from the lines and not from the parser's own reading of them (hub/priv/dashboard/operator-stream.js). */
module ObservationFrames {
  import opened Options
  import opened Bytes
  import opened FieldLines
  import EventPages
  import O = Observation

  const EVENT := Ascii("event")
  const DATA := Ascii("data")

  // --- The fields of a frame ---

  /** A line that is no comment and names neither an event nor data. */
  predicate Foreign(lines: seq<Line>) {
    exists i :: 0 <= i < |lines| && !lines[i].Comment? && lines[i].name != EVENT && lines[i].name != DATA
  }

  /** An event name given after one that was not empty. */
  predicate Renamed(events: seq<seq<byte>>) {
    exists i :: 0 <= i < |events| - 1 && events[i] != []
  }

  function Lines(lines: seq<Line>): (r: seq<seq<byte>>)
    ensures |r| == |lines|
  {
    if lines == [] then [] else [Written(lines[0])] + Lines(lines[1..])
  }

  lemma FieldNames()
    ensures EVENT == O.EVENT_FIELD && DATA == O.DATA_FIELD && EVENT != DATA
  {
    assert EVENT[0] != DATA[0];
  }

  lemma {:induction false} StaysMalformed(lines: seq<seq<byte>>)
    ensures O.ReadLines(O.Malformed, lines) == O.Malformed
    decreases |lines|
  {
    if |lines| != 0 {
      StaysMalformed(lines[1..]);
    }
  }

  /** Reading a frame's lines fails exactly on a foreign line or a second event name, and otherwise gives the last event
      name, all the data values and whether there was a comment. */
  lemma {:induction false} FieldsRead(f: O.Fields, lines: seq<Line>)
    requires f.Fields? && AllWritten(lines)
    ensures var r := O.ReadLines(f, Lines(lines)); var events := ValuesOf(lines, EVENT);
      && (r.Malformed? <==> Foreign(lines) || Renamed([f.event] + events))
      && (r.Fields? ==> r == O.Fields(LastOr(events, f.event), f.data + ValuesOf(lines, DATA), f.comment || Comments(lines) > 0))
    decreases |lines|
  {
    FieldNames();
    if lines == [] {
      assert f.data + [] == f.data;
    } else {
      hide *;
      var l, more := lines[0], lines[1..];
      LinesFirst(lines);
      LineRead(f, l);
      ReadFirst(f, lines);
      ForeignFirst(lines);
      ValuesFirst(lines, EVENT);
      ValuesFirst(lines, DATA);
      CommentsFirst(lines);
      RenamedFirst(f.event, lines);
      var g := O.ReadLine(f, Written(l));
      if g.Malformed? {
        StaysMalformed(Lines(more));
      } else {
        FieldsRead(g, more);
        assert f.data + ValuesOf([l], DATA) + ValuesOf(more, DATA) == f.data + (ValuesOf([l], DATA) + ValuesOf(more, DATA));
        NamesFirst(f, l, more);
      }
    }
  }

  lemma LinesFirst(lines: seq<Line>)
    requires lines != [] && AllWritten(lines)
    ensures WellWritten(lines[0]) && AllWritten(lines[1..])
  {
  }

  lemma ReadFirst(f: O.Fields, lines: seq<Line>)
    requires lines != []
    ensures O.ReadLines(f, Lines(lines)) == O.ReadLines(O.ReadLine(f, Written(lines[0])), Lines(lines[1..]))
  {
    assert Lines(lines)[0] == Written(lines[0]) && Lines(lines)[1..] == Lines(lines[1..]);
    hide O.ReadLine, Written;
  }

  lemma NamesFirst(f: O.Fields, l: Line, more: seq<Line>)
    requires f.Fields?
    ensures var first := ValuesOf([l], EVENT);
      && f.data + ValuesOf([l], DATA) == (if !l.Comment? && l.name == DATA then f.data + [Value(l)] else f.data)
      && LastOr(first, f.event) == (if !l.Comment? && l.name == EVENT then Value(l) else f.event)
      && LastOr(ValuesOf(more, EVENT), LastOr(first, f.event)) == LastOr(first + ValuesOf(more, EVENT), f.event)
  {
    ValuesFirst([l], EVENT);
    ValuesFirst([l], DATA);
    var none: seq<Line> := [];
    assert [l][1..] == none && ValuesOf(none, EVENT) == [] && ValuesOf(none, DATA) == [];
  }

  lemma LineRead(f: O.Fields, l: Line)
    requires f.Fields? && WellWritten(l)
    ensures var g := O.ReadLine(f, Written(l));
      if l.Comment? then g == f.(comment := true)
      else if l.name == EVENT then if f.event != [] then g.Malformed? else g == f.(event := Value(l))
      else if l.name == DATA then g == f.(data := f.data + [Value(l)])
      else g.Malformed?
  {
    FieldNames();
    if !l.Comment? {
      ReadBack(l);
      assert Written(l)[0] == l.name[0] && l.name[0] != 58;
    }
  }

  lemma ForeignFirst(lines: seq<Line>)
    requires lines != []
    ensures Foreign(lines) <==> Foreign([lines[0]]) || Foreign(lines[1..])
    ensures Foreign([lines[0]]) <==> !lines[0].Comment? && lines[0].name != EVENT && lines[0].name != DATA
  {
    assert Foreign([lines[0]]) ==> Foreign(lines);
    if Foreign(lines[1..]) {
      var i :| 0 <= i < |lines[1..]| && !lines[1..][i].Comment? && lines[1..][i].name != EVENT && lines[1..][i].name != DATA;
      assert lines[i + 1] == lines[1..][i];
    }
    if Foreign(lines) {
      var i :| 0 <= i < |lines| && !lines[i].Comment? && lines[i].name != EVENT && lines[i].name != DATA;
      assert i > 0 ==> lines[1..][i - 1] == lines[i];
    }
    assert !lines[0].Comment? && lines[0].name != EVENT && lines[0].name != DATA ==> Foreign([lines[0]]) by {
      assert [lines[0]][0] == lines[0];
    }
  }

  lemma CommentsFirst(lines: seq<Line>)
    requires lines != []
    ensures Comments(lines) == (if lines[0].Comment? then 1 else 0) + Comments(lines[1..])
  {
  }

  lemma ValuesFirst(lines: seq<Line>, name: seq<byte>)
    requires lines != []
    ensures ValuesOf(lines, name) == ValuesOf([lines[0]], name) + ValuesOf(lines[1..], name)
    ensures ValuesOf([lines[0]], name) == if !lines[0].Comment? && lines[0].name == name then [Value(lines[0])] else []
  {
    var none: seq<Line> := [];
    assert [lines[0]][1..] == none && ValuesOf(none, name) == [];
  }

  lemma RenamedBefore(x: seq<byte>, events: seq<seq<byte>>)
    ensures Renamed([x] + events) <==> (x != [] && events != []) || Renamed(events)
  {
    var a := [x] + events;
    if Renamed(a) {
      var i :| 0 <= i < |a| - 1 && a[i] != [];
      assert i > 0 ==> events[i - 1] == a[i];
    }
    if Renamed(events) {
      var i :| 0 <= i < |events| - 1 && events[i] != [];
      assert a[i + 1] == events[i];
    }
    assert x != [] && events != [] ==> a[0] != [] && 0 < |a| - 1;
  }

  /** The first line's own name, if it gives one, takes the place of an empty one and may follow no other. */
  lemma RenamedFirst(event: seq<byte>, lines: seq<Line>)
    requires lines != []
    ensures var l, more := lines[0], ValuesOf(lines[1..], EVENT);
      Renamed([event] + ValuesOf(lines, EVENT)) <==>
      if !l.Comment? && l.name == EVENT then event != [] || Renamed([Value(l)] + more) else Renamed([event] + more)
  {
    ValuesFirst(lines, EVENT);
    hide ValuesOf, Renamed, Value;
    var l, more := lines[0], ValuesOf(lines[1..], EVENT);
    if !l.Comment? && l.name == EVENT {
      RenamedBefore(event, [Value(l)] + more);
    } else {
      assert [] + more == more;
    }
  }

  // --- The bytes of a frame ---

  lemma {:induction false} SplitWritten(lines: seq<Line>, end: seq<byte>)
    requires AllWritten(lines) && IsEnd(end)
    ensures O.SplitLines(WriteLines(lines, end) + end) == Lines(lines) + [[], []]
    decreases |lines|
  {
    hide *;
    if lines == [] {
      SplitEnd(lines, end);
    } else {
      var line, more := Written(lines[0]), lines[1..];
      var after := WriteLines(more, end) + end;
      WrittenFirst(lines, end);
      SplitFirst(line, end, after);
      SplitWritten(more, end);
      assert [line] + (Lines(more) + [[], []]) == [line] + Lines(more) + [[], []];
    }
  }

  lemma WrittenFirst(lines: seq<Line>, end: seq<byte>)
    requires lines != [] && AllWritten(lines) && IsEnd(end)
    ensures var line, more := Written(lines[0]), lines[1..]; var after := WriteLines(more, end) + end;
      && Unbroken(line) && AllWritten(more) && Lines(lines) == [line] + Lines(more)
      && WriteLines(lines, end) + end == line + (end + after)
      && IsTerminator((end + after)[0]) && TerminatorWidth(end + after, 0) == |end|
  {
    hide *;
    var line, more := Written(lines[0]), lines[1..];
    WriteFirst(lines, end, end);
    FirstLine(lines);
    EndFollows(more, end);
    EndWidth(end, WriteLines(more, end) + end);
  }

  lemma FirstLine(lines: seq<Line>)
    requires lines != []
    ensures Lines(lines) == [Written(lines[0])] + Lines(lines[1..])
  {
    hide Written;
  }

  lemma EndFollows(lines: seq<Line>, end: seq<byte>)
    requires AllWritten(lines) && IsEnd(end)
    ensures Follows(end, WriteLines(lines, end) + end)
  {
    assert Follows(end, end);
    hide AllWritten, WriteLines;
    LinesFollow(lines, end, end);
  }

  lemma SplitEnd(lines: seq<Line>, end: seq<byte>)
    requires lines == [] && IsEnd(end)
    ensures O.SplitLines(WriteLines(lines, end) + end) == Lines(lines) + [[], []]
  {
    assert WriteLines(lines, end) + end == end;
    assert LineEnd(end) == 0 && TerminatorWidth(end, 0) == |end|;
    assert end[|end|..] == [] && O.SplitLines([]) == [[]];
  }

  lemma SplitFirst(line: seq<byte>, end: seq<byte>, after: seq<byte>)
    requires Unbroken(line) && IsEnd(end) && IsTerminator((end + after)[0]) && TerminatorWidth(end + after, 0) == |end|
    ensures O.SplitLines(line + (end + after)) == [line] + O.SplitLines(after)
  {
    EndAt(line, end, after);
    hide LineEnd, TerminatorWidth, Unbroken, IsTerminator, IsEnd;
  }

  lemma {:induction false} BlankIgnored(f: O.Fields, lines: seq<seq<byte>>)
    ensures O.ReadLines(f, lines + [[], []]) == O.ReadLines(f, lines)
    decreases |lines|
  {
    if |lines| == 0 {
      var two: seq<seq<byte>>, one: seq<seq<byte>>, none: seq<seq<byte>> := [[], []], [[]], [];
      assert lines + two == two && two[1..] == one && one[1..] == none;
    } else {
      assert (lines + [[], []])[1..] == lines[1..] + [[], []];
      BlankIgnored(O.ReadLine(f, lines[0]), lines[1..]);
    }
  }

  lemma {:induction false} FrameEndsAfter(lines: seq<Line>, end: seq<byte>, rest: seq<byte>)
    requires AllWritten(lines) && IsEnd(end) && Follows(end, rest)
    ensures O.FrameEnd(WriteLines(lines, end) + end + rest, 0) == Some(|WriteLines(lines, end) + end|)
    decreases |lines|
  {
    hide O.FrameEnd, Written, WellWritten, Unbroken;
    EndWidth(end, rest);
    if lines == [] {
      assert WriteLines(lines, end) + end + rest == [] + (end + rest);
      assert Unbroken([]) by { NothingUnbroken(); }
      FrameEndFirst([], end, rest);
    } else {
      hide *;
      var line, more := Written(lines[0]), lines[1..];
      var after := WriteLines(more, end) + end + rest;
      WriteFirst(lines, end, end);
      WriteFirst(lines, end, end + rest);
      assert WriteLines(more, end) + (end + rest) == after;
      assert WriteLines(lines, end) + end + rest == WriteLines(lines, end) + (end + rest);
      LinesFollow(more, end, end + rest);
      FrameEndsAfter(more, end, rest);
      FrameEndFirst(line, end, after);
    }
  }

  lemma NothingUnbroken()
    ensures Unbroken([])
  {
  }

  lemma FrameEndFirst(line: seq<byte>, end: seq<byte>, after: seq<byte>)
    requires Unbroken(line) && IsEnd(end) && Follows(end, after)
    ensures O.FrameEnd(line + (end + after), 0) ==
            if line == [] then Some(|end|)
            else match O.FrameEnd(after, 0) case None => None case Some(n) => Some(|line| + |end| + n)
  {
    hide O.FrameEnd, Unbroken, Follows, IsEnd;
    EndWidth(end, after);
    EndAt(line, end, after);
    O.WithinLine(line + (end + after), 0);
    hide LineEnd, TerminatorWidth;
  }

  /** Where the first line of a stream ends, how long its ending is and what follows. */
  lemma EndAt(line: seq<byte>, end: seq<byte>, after: seq<byte>)
    requires Unbroken(line) && end != [] && IsTerminator((end + after)[0]) && TerminatorWidth(end + after, 0) == |end|
    ensures var s := line + (end + after);
      LineEnd(s) == |line| < |s| && IsTerminator(s[|line|]) && TerminatorWidth(s, |line|) == |end|
      && s[..|line|] == line && s[|line| + |end|..] == after
  {
    LineEndAfter(line, end + after);
    assert LineEnd(end + after) == 0;
    hide LineEnd, Unbroken;
    WidthAfter(line, end + after);
  }

  lemma WidthAfter(line: seq<byte>, rest: seq<byte>)
    requires rest != [] && IsTerminator(rest[0])
    ensures IsTerminator((line + rest)[|line|]) && TerminatorWidth(line + rest, |line|) == TerminatorWidth(rest, 0)
  {
  }

  // --- What a frame comes to ---

  /** A page that may be shown: accepted by itself, and of the same epoch and from where the last one ended. */
  ghost predicate Showable(h: O.Host, s: O.Shown, page: EventPages.Page) {
    && EventPages.Accepted(page, h.cursor, None)
    && (s.previous.Some? ==> page.epoch == s.previous.value.epoch && page.fromSequence == s.previous.value.toSequence)
  }

  /** The frame's event name; none when a line is foreign or a name is given twice. */
  ghost predicate Named(lines: seq<Line>, name: seq<byte>) {
    !Foreign(lines) && !Renamed(ValuesOf(lines, EVENT)) && LastOr(ValuesOf(lines, EVENT), []) == name
  }

  lemma DispatchWritten(h: O.Host, s: O.Shown, lines: seq<Line>, end: seq<byte>)
    requires AllWritten(lines) && IsEnd(end) && h.utf8(WriteLines(lines, end) + end)
    ensures var events := ValuesOf(lines, EVENT);
      O.Dispatch(h, s, WriteLines(lines, end) + end) ==
      O.Act(h, s, if Foreign(lines) || Renamed(events) then O.Malformed
                  else O.Fields(LastOr(events, []), ValuesOf(lines, DATA), Comments(lines) > 0))
  {
    hide O.Act, O.ReadLines, O.SplitLines, Foreign, Lines, WriteLines;
    SplitWritten(lines, end);
    BlankIgnored(O.Fields([], [], false), Lines(lines));
    FieldsRead(O.Fields([], [], false), lines);
    assert [] + ValuesOf(lines, DATA) == ValuesOf(lines, DATA);
    EmptyFirst(ValuesOf(lines, EVENT));
  }

  lemma EmptyFirst(events: seq<seq<byte>>)
    ensures Renamed([[]] + events) <==> Renamed(events)
  {
    var a := [[]] + events;
    if Renamed(a) {
      var i :| 0 <= i < |a| - 1 && a[i] != [];
      assert events[i - 1] == a[i];
    }
    if Renamed(events) {
      var i :| 0 <= i < |events| - 1 && events[i] != [];
      assert a[i + 1] == events[i];
    }
  }

  /** What a frame causes: what is shown afterwards, or the code of a failure. */
  datatype Outcome = Shows(shown: O.Shown) | Fails(code: O.Code)

  /** A frame of comments is activity. An update notice is activity and an update. An observation is activity and its
      page, when the page is accepted and continues the last one; an accepted page that does not, and a reset notice, fail
      as lost history. Everything else fails the schema. */
  ghost function Meaning(h: O.Host, s: O.Shown, lines: seq<Line>): Outcome {
    var payload := Join(ValuesOf(lines, DATA));
    if Named(lines, []) && ValuesOf(lines, DATA) == [] && Comments(lines) > 0 then Shows(s.(effects := s.effects + [O.Activity]))
    else if Named(lines, Ascii("update")) && h.update(payload) then Shows(s.(effects := s.effects + [O.Activity, O.Update]))
    else if Named(lines, Ascii("reset")) && h.reset(payload) then Fails(O.History)
    else if Named(lines, Ascii("observation")) && h.page(payload).Some? then
      var page := h.page(payload).value;
      if Showable(h, s, page) then Shows(O.Shown(Some(page), s.effects + [O.Activity, O.PageShown(page)]))
      else Fails(if EventPages.Accepted(page, h.cursor, None) then O.History else O.Schema)
    else Fails(O.Schema)
  }

  lemma ActMeans(h: O.Host, s: O.Shown, lines: seq<Line>)
    ensures var events := ValuesOf(lines, EVENT);
      var f := if Foreign(lines) || Renamed(events) then O.Malformed
               else O.Fields(LastOr(events, []), ValuesOf(lines, DATA), Comments(lines) > 0);
      var m := Meaning(h, s, lines);
      O.Act(h, s, f) == if m.Shows? then O.Went(m.shown) else O.Refused(m.code)
  {
    Distinct();
    hide Foreign, Renamed, ValuesOf, Join, EventPages.Accepted, Comments;
  }

  /** A written frame of at most 524288 bytes is cut off whole and causes what its lines mean. */
  lemma WrittenFrame(h: O.Host, s: O.Shown, lines: seq<Line>, end: seq<byte>, rest: seq<byte>)
    requires AllWritten(lines) && IsEnd(end) && Follows(end, rest)
    requires h.utf8(WriteLines(lines, end) + end) && |WriteLines(lines, end) + end| <= 524288
    ensures O.Batch(h, s, [], 0, WriteLines(lines, end) + end + rest) ==
            var m := Meaning(h, s, lines);
            if m.Shows? then O.Batch(h, m.shown, [], 0, rest) else O.Verdict(s, Some(m.code))
  {
    hide *;
    var frame := WriteLines(lines, end) + end;
    FrameEndsAfter(lines, end, rest);
    DispatchWritten(h, s, lines, end);
    ActMeans(h, s, lines);
    FirstFrame(h, s, frame, rest);
  }

  /** A longer frame fails on its size, whatever it holds. */
  lemma LongFrame(h: O.Host, s: O.Shown, lines: seq<Line>, end: seq<byte>, rest: seq<byte>)
    requires AllWritten(lines) && IsEnd(end) && Follows(end, rest) && |WriteLines(lines, end) + end| > 524288
    ensures O.Batch(h, s, [], 0, WriteLines(lines, end) + end + rest) == O.Verdict(s, Some(O.Limit))
  {
    FrameEndsAfter(lines, end, rest);
    hide O.FrameEnd, O.Dispatch, WriteLines;
  }

  lemma FirstFrame(h: O.Host, s: O.Shown, frame: seq<byte>, rest: seq<byte>)
    requires O.FrameEnd(frame + rest, 0) == Some(|frame|) && |frame| <= 524288
    ensures O.Batch(h, s, [], 0, frame + rest) ==
            var d := O.Dispatch(h, s, frame);
            if d.Went? then O.Batch(h, d.shown, [], 0, rest) else O.Verdict(s, Some(d.code))
  {
    hide O.FrameEnd, O.Dispatch;
    assert (frame + rest)[..|frame|] == frame && (frame + rest)[|frame|..] == rest && [] + frame == frame;
  }

  lemma Distinct()
    ensures var u, r, o := Ascii("update"), Ascii("reset"), Ascii("observation");
      u == O.UPDATE && r == O.RESET && o == O.OBSERVATION && u != r && r != o && o != u && u != [] && r != [] && o != []
  {
    assert Ascii("update")[0] != Ascii("reset")[0] && Ascii("reset")[0] != Ascii("observation")[0];
    assert Ascii("observation")[0] != Ascii("update")[0];
  }
}
