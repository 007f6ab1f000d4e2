/** The incremental event-stream parser (extension/sse.ts) and the batch reading it refines. */
module Sse {
  import opened Bytes

  const MAX_BYTES: nat := 1048576
  const BOM: seq<byte> := [0xEF, 0xBB, 0xBF]
  const EVENT_FIELD := Ascii("event")
  const DATA_FIELD := Ascii("data")
  const MESSAGE := Ascii("message")
  const EVENTS := {MESSAGE, Ascii("presence_snapshot"), Ascii("presence_delta"), Ascii("presence_reset"), Ascii("operator_update")}

  /** The callbacks the parser has made, oldest first. */
  datatype Call = FrameCall(event: seq<byte>, data: seq<byte>) | ActivityCall

  /** What the parser asks of its surroundings: UTF-8 validity, the payload schema of an event, and
      whether a callback accepts, given every call so far. */
  datatype Host = Host(utf8: seq<byte> -> bool, payload: (seq<byte>, seq<byte>) -> bool, answer: seq<Call> -> bool)

  /** The frame being assembled and the calls made. */
  datatype Assembly = Assembly(event: seq<byte>, hasData: bool, data: seq<byte>, leading: bool, calls: seq<Call>)

  const EMPTY := Assembly([], false, [], true, [])

  datatype LineResult = Failed(calls: seq<Call>) | Completed(next: Assembly, endedFrame: bool)

  function Stripped(a: Assembly, line: seq<byte>): seq<byte> {
    if a.leading && BOM <= line then line[3..] else line
  }

  function Dispatch(h: Host, a: Assembly): LineResult
    requires Framed(a)
  {
    if !a.hasData then
      if a.event != [] then Failed(a.calls) else Completed(a, true)
    else
      var event := if a.event == [] then MESSAGE else a.event;
      if event !in EVENTS then Failed(a.calls) else
      var bytes := a.data[..|a.data| - 1];
      if !h.payload(event, bytes) then Failed(a.calls) else
      var shown := a.calls + [FrameCall(event, bytes)];
      if !h.answer(shown) then Failed(shown) else
      var active := shown + [ActivityCall];
      if !h.answer(active) then Failed(active)
      else Completed(Assembly([], false, [], a.leading, active), true)
  }

  function TakeField(a: Assembly, text: seq<byte>): LineResult {
    var name, value := FieldName(text), FieldValue(text);
    if name == EVENT_FIELD then Completed(a.(event := value), false)
    else if name == DATA_FIELD then
      if |a.data| + |value| + 1 > MAX_BYTES then Failed(a.calls)
      else Completed(a.(data := a.data + value + [LF], hasData := true), false)
    else Completed(a, false)
  }

  /** The frame buffer holds data exactly when a data line was read. */
  predicate Framed(a: Assembly) {
    a.hasData <==> |a.data| != 0
  }

  /** What one complete line does. The frame's data never outgrows the line bytes it came from. */
  function CompleteLine(h: Host, a: Assembly, line: seq<byte>): (r: LineResult)
    requires Framed(a)
    ensures r.Completed? ==> Framed(r.next) && |r.next.data| <= |a.data| + |line| && !r.next.leading
    ensures r.Completed? && r.endedFrame ==> r.next.event == [] && r.next.data == []
  {
    if !h.utf8(line) then Failed(a.calls) else
    var text := Stripped(a, line);
    var b := a.(leading := false);
    if text == [] then Dispatch(h, b)
    else if text[0] == COLON then
      var active := b.calls + [ActivityCall];
      if h.answer(active) then Completed(b.(calls := active), false) else Failed(active)
    else TakeField(b, text)
  }

  // --- The batch reading: split at CRLF, CR or LF, frame by frame ---

  datatype Verdict = Verdict(accepted: bool, calls: seq<Call>)

  /** Reads a whole closed stream line by line. `raw` counts the bytes of the current frame's earlier
      lines, terminators included. */
  function Batch(h: Host, input: seq<byte>, a: Assembly, raw: nat): Verdict
    requires Framed(a)
    decreases |input|
  {
    var n := LineEnd(input);
    if n == |input| then Verdict(input == [] && raw <= MAX_BYTES && !a.hasData && a.event == [], a.calls)
    else
      var w := TerminatorWidth(input, n);
      if raw + n + w > MAX_BYTES then Verdict(false, a.calls)
      else match CompleteLine(h, a, input[..n])
        case Failed(calls) => Verdict(false, calls)
        case Completed(b, ended) => Batch(h, input[n + w..], b, if ended then 0 else raw + n + w)
  }

  // --- The byte automaton ---

  datatype Pending = NoCR | PendingCR(completed: bool, endedFrame: bool)

  datatype Machine = Live(frame: Assembly, line: seq<byte>, raw: nat, pending: Pending) | Stopped(calls: seq<Call>)

  const START := Live(EMPTY, [], 0, NoCR)

  /** What the parser's counters keep. In particular no buffer index is ever out of range. */
  predicate Sound(m: Machine) {
    m.Live? ==>
      && Framed(m.frame) && Unbroken(m.line)
      && |m.frame.data| + |m.line| <= m.raw <= MAX_BYTES
      && (m.pending.PendingCR? ==> if m.pending.completed then m.line == [] && m.raw < MAX_BYTES else m.raw == MAX_BYTES)
      && (m.pending.PendingCR? && m.pending.endedFrame ==> m.pending.completed && m.frame.data == [])
  }

  /** The line a held-back CR ended, once the next byte or the end of input is known. */
  function Resolve(h: Host, m: Machine, raw: nat): (r: Machine)
    requires Sound(m) && m.Live? && m.pending.PendingCR? && m.raw <= raw <= MAX_BYTES
    ensures Sound(r) && (r.Live? ==> r.pending.NoCR?)
  {
    if m.pending.completed then
      Live(m.frame, [], if m.pending.endedFrame then 0 else raw, NoCR)
    else match CompleteLine(h, m.frame, m.line)
      case Failed(calls) => Stopped(calls)
      case Completed(b, ended) => Live(b, [], if ended then 0 else raw, NoCR)
  }

  function Plain(h: Host, m: Machine, b: byte): (r: Machine)
    requires Sound(m) && (m.Live? ==> m.pending.NoCR?)
    ensures Sound(r)
  {
    if m.Stopped? then m
    else if m.raw + 1 > MAX_BYTES then Stopped(m.frame.calls)
    else if b == CR then
      if m.raw + 1 < MAX_BYTES then
        match CompleteLine(h, m.frame, m.line)
        case Failed(calls) => Stopped(calls)
        case Completed(f, ended) => Live(f, [], m.raw + 1, PendingCR(true, ended))
      else Live(m.frame, m.line, m.raw + 1, PendingCR(false, false))
    else if b == LF then
      match CompleteLine(h, m.frame, m.line)
      case Failed(calls) => Stopped(calls)
      case Completed(f, ended) => Live(f, [], if ended then 0 else m.raw + 1, NoCR)
    else Live(m.frame, m.line + [b], m.raw + 1, NoCR)
  }

  function Step(h: Host, m: Machine, b: byte): (r: Machine)
    requires Sound(m)
    ensures Sound(r)
  {
    if m.Stopped? || m.pending.NoCR? then Plain(h, m, b)
    else if b == LF then
      if m.raw + 1 > MAX_BYTES then Stopped(m.frame.calls) else Resolve(h, m, m.raw + 1)
    else Plain(h, Resolve(h, m, m.raw), b)
  }

  function Run(h: Host, m: Machine, input: seq<byte>): (r: Machine)
    requires Sound(m)
    ensures Sound(r)
    decreases |input|
  {
    if |input| == 0 then m else Run(h, Step(h, m, input[0]), input[1..])
  }

  function Settle(h: Host, m: Machine): (r: Machine)
    requires Sound(m)
    ensures Sound(r) && (r.Live? ==> r.pending.NoCR?)
  {
    if m.Live? && m.pending.PendingCR? then Resolve(h, m, m.raw) else m
  }

  /** End of input. */
  function Finish(h: Host, m: Machine): Verdict
    requires Sound(m)
  {
    match Settle(h, m)
    case Stopped(calls) => Verdict(false, calls)
    case Live(f, line, _, _) => Verdict(line == [] && !f.hasData && f.event == [], f.calls)
  }

  // --- Refinement ---

  /** Chunk boundaries have no meaning: feeding two chunks is feeding their concatenation. */
  lemma {:induction false} RunSplit(h: Host, m: Machine, a: seq<byte>, b: seq<byte>)
    requires Sound(m)
    ensures Run(h, m, a + b) == Run(h, Run(h, m, a), b)
    decreases |a|
  {
    if |a| == 0 {
      assert a + b == b;
    } else {
      assert (a + b)[1..] == a[1..] + b;
      RunSplit(h, Step(h, m, a[0]), a[1..], b);
    }
  }

  lemma {:induction false} RunStopped(h: Host, m: Machine, input: seq<byte>)
    requires m.Stopped?
    ensures Run(h, m, input) == m
    decreases |input|
  {
    if |input| != 0 {
      RunStopped(h, m, input[1..]);
    }
  }

  /** The batch reading of a stream whose first line is known. */
  lemma BatchFirstLine(h: Host, line: seq<byte>, w: nat, rest: seq<byte>, a: Assembly, raw: nat)
    requires Framed(a) && Unbroken(line) && 1 <= w <= |rest| && IsTerminator(rest[0])
    requires w == TerminatorWidth(rest, 0)
    ensures Batch(h, line + rest, a, raw) ==
            if raw + |line| + w > MAX_BYTES then Verdict(false, a.calls)
            else match CompleteLine(h, a, line)
              case Failed(calls) => Verdict(false, calls)
              case Completed(b, ended) => Batch(h, rest[w..], b, if ended then 0 else raw + |line| + w)
  {
    FirstLineShape(line, w, rest);
    hide CompleteLine, LineEnd, Unbroken, TerminatorWidth;
  }

  lemma FirstLineShape(line: seq<byte>, w: nat, rest: seq<byte>)
    requires Unbroken(line) && 1 <= w <= |rest| && IsTerminator(rest[0]) && w == TerminatorWidth(rest, 0)
    ensures var input := line + rest;
      && LineEnd(input) == |line| && input[..|line|] == line && IsTerminator(input[|line|])
      && TerminatorWidth(input, |line|) == w && input[|line| + w..] == rest[w..]
  {
    LineEndAfter(line, rest);
    assert LineEnd(rest) == 0;
    hide LineEnd, Unbroken;
  }

  /** A line too long for the frame limit fails the batch reading whatever follows. */
  lemma BatchTooLong(h: Host, line: seq<byte>, rest: seq<byte>, a: Assembly, raw: nat)
    requires Framed(a) && Unbroken(line) && raw + |line| == MAX_BYTES && |rest| != 0
    ensures Batch(h, line + rest, a, raw) == Verdict(false, a.calls)
  {
    LineEndAfter(line, rest);
  }

  /** Input that ends inside a line is accepted only if nothing was begun. */
  lemma BatchUnfinished(h: Host, line: seq<byte>, a: Assembly, raw: nat)
    requires Framed(a) && Unbroken(line)
    ensures Batch(h, line, a, raw) == Verdict(line == [] && raw <= MAX_BYTES && !a.hasData && a.event == [], a.calls)
  {
    LineEndAfter(line, []);
    assert line + [] == line;
  }

  lemma PlainStopped(h: Host, m: Machine, b: byte)
    requires m.Stopped?
    ensures Plain(h, m, b) == m
  {
  }

  /** The batch verdict of what follows a machine's state, for a machine with no CR held back. */
  ghost function Remaining(h: Host, m: Machine, input: seq<byte>): Verdict
    requires Sound(m) && (m.Live? ==> m.pending.NoCR?)
  {
    match m
    case Stopped(calls) => Verdict(false, calls)
    case Live(f, line, raw, _) => Batch(h, line + input, f, raw - |line|)
  }

  lemma RemainingAtEnd(h: Host, m: Machine)
    requires Sound(m) && (m.Live? ==> m.pending.NoCR?)
    ensures Finish(h, m) == Remaining(h, m, [])
  {
    hide CompleteLine, Batch;
    if m.Live? {
      BatchUnfinished(h, m.line, m.frame, m.raw - |m.line|);
      assert m.line + [] == m.line;
    }
  }

  /** One byte other than CR keeps the verdict. */
  lemma RemainingStep(h: Host, m: Machine, b: byte, rest: seq<byte>)
    requires Sound(m) && (m.Live? ==> m.pending.NoCR?) && b != CR
    ensures var next := Step(h, m, b);
      (next.Live? ==> next.pending.NoCR?) && Remaining(h, next, rest) == Remaining(h, m, [b] + rest)
  {
    hide CompleteLine, Batch, LineEnd;
    if m.Live? {
      var next := Step(h, m, b);
      var base, input := m.raw - |m.line|, [b] + rest;
      if m.raw + 1 > MAX_BYTES {
        BatchTooLong(h, m.line, input, m.frame, base);
      } else if b == LF {
        BatchFirstLine(h, m.line, 1, input, m.frame, base);
        assert input[1..] == rest && [] + rest == rest;
      } else {
        assert m.line + input == (m.line + [b]) + rest;
      }
    }
  }

  /** A CR followed by the end of input. */
  lemma RemainingLastCR(h: Host, m: Machine)
    requires Sound(m) && m.Live? && m.pending.NoCR?
    ensures Finish(h, Step(h, m, CR)) == Remaining(h, m, [CR])
  {
    hide CompleteLine, Batch, LineEnd;
    var base := m.raw - |m.line|;
    if m.raw + 1 > MAX_BYTES {
      BatchTooLong(h, m.line, [CR], m.frame, base);
    } else {
      BatchFirstLine(h, m.line, 1, [CR], m.frame, base);
      var r := CompleteLine(h, m.frame, m.line);
      if r.Completed? {
        BatchUnfinished(h, [], r.next, if r.endedFrame then 0 else m.raw + 1);
        assert [CR][1..] == [];
      }
    }
  }

  /** A CRLF is one terminator, although its line may already have been completed at the CR. */
  lemma RemainingCRLF(h: Host, m: Machine, rest: seq<byte>)
    requires Sound(m) && m.Live? && m.pending.NoCR?
    ensures var next := Step(h, Step(h, m, CR), LF);
      (next.Live? ==> next.pending.NoCR?) && Remaining(h, next, rest) == Remaining(h, m, [CR, LF] + rest)
  {
    hide CompleteLine, Batch, LineEnd;
    var base, input := m.raw - |m.line|, [CR, LF] + rest;
    if m.raw + 1 > MAX_BYTES {
      BatchTooLong(h, m.line, input, m.frame, base);
    } else {
      BatchFirstLine(h, m.line, 2, input, m.frame, base);
      assert input[2..] == rest && [] + rest == rest;
    }
  }

  /** A CR not followed by LF ends its line alone. */
  lemma RemainingCR(h: Host, m: Machine, b: byte, rest: seq<byte>)
    requires Sound(m) && m.Live? && m.pending.NoCR? && b != LF
    ensures var held := Step(h, m, CR);
      var next := Settle(h, held);
      && Step(h, held, b) == Step(h, next, b)
      && Remaining(h, next, [b] + rest) == Remaining(h, m, [CR, b] + rest)
  {
    hide CompleteLine, Batch, LineEnd;
    var base, input := m.raw - |m.line|, [CR, b] + rest;
    if m.raw + 1 > MAX_BYTES {
      BatchTooLong(h, m.line, input, m.frame, base);
    } else {
      BatchFirstLine(h, m.line, 1, input, m.frame, base);
      assert input[1..] == [b] + rest && [] + ([b] + rest) == [b] + rest;
    }
  }

  /** The automaton at any point, run to the end, agrees with the batch reading of its partial line and
      the remaining input. */
  lemma {:induction false} MachineIsBatch(h: Host, m: Machine, input: seq<byte>)
    requires Sound(m) && (m.Live? ==> m.pending.NoCR?)
    ensures Finish(h, Run(h, m, input)) == Remaining(h, m, input)
    decreases |input|
  {
    hide CompleteLine, Batch, Finish, Remaining, Step, Settle;
    if |input| == 0 {
      RemainingAtEnd(h, m);
    } else if m.Stopped? {
      RunStopped(h, m, input);
      FinishStopped(h, m, input);
    } else {
      var b, rest := input[0], input[1..];
      if b != CR {
        assert input == [b] + rest;
        RemainingStep(h, m, b, rest);
        MachineIsBatch(h, Step(h, m, b), rest);
      } else if |rest| == 0 {
        assert input == [CR];
        RemainingLastCR(h, m);
      } else {
        var c, tail := rest[0], rest[1..];
        assert input == [CR, c] + tail;
        if c == LF {
          RemainingCRLF(h, m, tail);
          MachineIsBatch(h, Step(h, Step(h, m, CR), LF), tail);
        } else {
          RemainingCR(h, m, c, tail);
          var held := Step(h, m, CR);
          var next := Settle(h, held);
          assert rest == [c] + tail;
          assert Run(h, held, rest) == Run(h, next, rest);
          MachineIsBatch(h, next, rest);
        }
      }
    }
  }

  lemma FinishStopped(h: Host, m: Machine, input: seq<byte>)
    requires m.Stopped?
    ensures Finish(h, m) == Remaining(h, m, input)
  {
  }

  function RunChunks(h: Host, m: Machine, chunks: seq<seq<byte>>): (r: Machine)
    requires Sound(m)
    ensures Sound(r)
    decreases |chunks|
  {
    if |chunks| == 0 then m else RunChunks(h, Run(h, m, chunks[0]), chunks[1..])
  }

  lemma {:induction false} ChunksAreTheirConcatenation(h: Host, m: Machine, chunks: seq<seq<byte>>)
    requires Sound(m)
    ensures RunChunks(h, m, chunks) == Run(h, m, Concat(chunks))
    decreases |chunks|
  {
    if |chunks| != 0 {
      RunSplit(h, m, chunks[0], Concat(chunks[1..]));
      ChunksAreTheirConcatenation(h, Run(h, m, chunks[0]), chunks[1..]);
    }
  }

  /** For every stream and every chunking: the calls made and the final verdict are the batch reading's. */
  lemma StreamIsBatch(h: Host, chunks: seq<seq<byte>>)
    ensures Finish(h, RunChunks(h, START, chunks)) == Batch(h, Concat(chunks), EMPTY, 0)
  {
    hide CompleteLine, Batch, Finish, Run;
    ChunksAreTheirConcatenation(h, START, chunks);
    MachineIsBatch(h, START, Concat(chunks));
    assert [] + Concat(chunks) == Concat(chunks);
  }

  // --- What a frame means ---

  /** The values of the lines that carry one field, in order. */
  function FieldValues(lines: seq<seq<byte>>, name: seq<byte>): seq<seq<byte>> {
    if |lines| == 0 then []
    else (if FieldName(lines[0]) == name then [FieldValue(lines[0])] else []) + FieldValues(lines[1..], name)
  }

  /** Every value followed by LF, as the data buffer holds them. */
  function Terminated(values: seq<seq<byte>>): seq<byte> {
    if |values| == 0 then [] else values[0] + [LF] + Terminated(values[1..])
  }

  lemma {:induction false} TerminatedIsJoin(values: seq<seq<byte>>)
    requires |values| != 0
    ensures Terminated(values) == Join(values) + [LF]
  {
    if |values| == 1 {
      assert Terminated(values[1..]) == [];
    } else {
      TerminatedIsJoin(values[1..]);
    }
  }

  function ReadLines(h: Host, a: Assembly, lines: seq<seq<byte>>): (r: LineResult)
    requires Framed(a)
    ensures r.Completed? ==> Framed(r.next)
    decreases |lines|
  {
    if |lines| == 0 then Completed(a, false)
    else match CompleteLine(h, a, lines[0])
      case Failed(calls) => Failed(calls)
      case Completed(b, _) => ReadLines(h, b, lines[1..])
  }

  function LastOr(values: seq<seq<byte>>, default: seq<byte>): seq<byte> {
    if |values| == 0 then default else values[|values| - 1]
  }

  lemma LineMeaning(h: Host, a: Assembly, line: seq<byte>)
    requires Framed(a) && !a.leading && line != [] && CompleteLine(h, a, line).Completed?
    ensures var b := CompleteLine(h, a, line).next;
      && b.event == LastOr(FieldValues([line], EVENT_FIELD), a.event)
      && b.data == a.data + Terminated(FieldValues([line], DATA_FIELD))
      && !b.leading
  {
    assert FieldValues([line][1..], EVENT_FIELD) == [] && FieldValues([line][1..], DATA_FIELD) == [];
    assert EVENT_FIELD[0] != DATA_FIELD[0];
    if line[0] == COLON {
      assert FieldName(line) == [];
    }
    var v := FieldValue(line);
    assert Terminated([v]) == v + [LF] + Terminated([v][1..]) && Terminated([v][1..]) == [];
    assert a.data + v + [LF] == a.data + (v + [LF]);
  }

  lemma {:induction false} TerminatedAppend(x: seq<seq<byte>>, y: seq<seq<byte>>)
    ensures Terminated(x + y) == Terminated(x) + Terminated(y)
  {
    if |x| == 0 {
      assert x + y == y;
    } else {
      assert (x + y)[1..] == x[1..] + y;
      TerminatedAppend(x[1..], y);
    }
  }

  lemma {:induction false} LinesMeaning(h: Host, a: Assembly, lines: seq<seq<byte>>)
    requires Framed(a) && !a.leading && ReadLines(h, a, lines).Completed?
    requires forall i :: 0 <= i < |lines| ==> lines[i] != []
    ensures var b := ReadLines(h, a, lines).next;
      && b.event == LastOr(FieldValues(lines, EVENT_FIELD), a.event)
      && b.data == a.data + Terminated(FieldValues(lines, DATA_FIELD))
      && !b.leading
    decreases |lines|
  {
    if |lines| != 0 {
      var line, rest := lines[0], lines[1..];
      LineMeaning(h, a, line);
      hide CompleteLine, FieldValues, Terminated, LastOr;
      var b := CompleteLine(h, a, line).next;
      LinesMeaning(h, b, rest);
      EventsCompose(lines, a.event);
      DataCompose(lines, a.data);
    }
  }

  lemma EventsCompose(lines: seq<seq<byte>>, event: seq<byte>)
    requires |lines| != 0
    ensures LastOr(FieldValues(lines[1..], EVENT_FIELD), LastOr(FieldValues([lines[0]], EVENT_FIELD), event))
            == LastOr(FieldValues(lines, EVENT_FIELD), event)
  {
    SplitFirst(lines, EVENT_FIELD);
  }

  lemma DataCompose(lines: seq<seq<byte>>, data: seq<byte>)
    requires |lines| != 0
    ensures data + Terminated(FieldValues([lines[0]], DATA_FIELD)) + Terminated(FieldValues(lines[1..], DATA_FIELD))
            == data + Terminated(FieldValues(lines, DATA_FIELD))
  {
    hide FieldValues, Terminated;
    var first, more := FieldValues([lines[0]], DATA_FIELD), FieldValues(lines[1..], DATA_FIELD);
    SplitFirst(lines, DATA_FIELD);
    TerminatedAppend(first, more);
    assert data + Terminated(first) + Terminated(more) == data + (Terminated(first) + Terminated(more));
  }

  lemma SplitFirst(lines: seq<seq<byte>>, name: seq<byte>)
    requires |lines| != 0
    ensures FieldValues(lines, name) == FieldValues([lines[0]], name) + FieldValues(lines[1..], name)
  {
    var none: seq<seq<byte>> := [];
    assert [lines[0]][1..] == none;
    assert FieldValues(none, name) == [];
  }

  /** A frame's blank line dispatches its last event name (or `message`) with all its data values joined
      by LF, and no frame without data is ever dispatched. */
  lemma FrameMeaning(h: Host, calls: seq<Call>, lines: seq<seq<byte>>)
    requires forall i :: 0 <= i < |lines| ==> lines[i] != []
    requires ReadLines(h, Assembly([], false, [], false, calls), lines).Completed?
    requires var b := ReadLines(h, Assembly([], false, [], false, calls), lines).next;
      CompleteLine(h, b, []).Completed?
    ensures var b := ReadLines(h, Assembly([], false, [], false, calls), lines).next;
      var values := FieldValues(lines, DATA_FIELD);
      var name := LastOr(FieldValues(lines, EVENT_FIELD), []);
      && CompleteLine(h, b, []).endedFrame
      && (values == [] ==> name == [] && CompleteLine(h, b, []).next.calls == b.calls)
      && (values != [] ==> CompleteLine(h, b, []).next.calls
                           == b.calls + [FrameCall(if name == [] then MESSAGE else name, Join(values)), ActivityCall])
  {
    var a := Assembly([], false, [], false, calls);
    LinesMeaning(h, a, lines);
    var b := ReadLines(h, a, lines).next;
    var values := FieldValues(lines, DATA_FIELD);
    assert [] + Terminated(values) == Terminated(values);
    if values != [] {
      TerminatedIsJoin(values);
      assert b.data[..|b.data| - 1] == Join(values);
      assert Stripped(b, []) == [];
      var active := b.calls + [FrameCall(if b.event == [] then MESSAGE else b.event, Join(values))] + [ActivityCall];
      assert active == b.calls + [FrameCall(if b.event == [] then MESSAGE else b.event, Join(values)), ActivityCall];
    }
  }

  /** The data buffer's own limit never refuses a field: the frame limit on raw bytes is always the
      first to be reached. */
  lemma DataBufferSuffices(h: Host, a: Assembly, line: seq<byte>)
    requires Framed(a) && |a.data| + |line| <= MAX_BYTES && h.utf8(line)
    requires var text := Stripped(a, line); text != [] && text[0] != COLON
    ensures CompleteLine(h, a, line).Completed?
  {
    var text := Stripped(a, line);
    assert FieldName(text) == DATA_FIELD ==> |FieldName(text)| == 4;
  }

  // --- The parser object ---

  class Parser {
    const host: Host
    const line: array<byte>
    const data: array<byte>
    var lineBytes: nat
    var rawBytes: nat
    var dataBytes: nat
    var event: seq<byte>
    var hasData: bool
    var leading: bool
    var stopped: bool
    var pendingCR: Pending
    var calls: seq<Call>

    /** The buffers' sizes; every index the parser writes lies below them. */
    predicate Shaped()
      reads this
    {
      line.Length == MAX_BYTES && data.Length == MAX_BYTES && line != data
      && lineBytes <= MAX_BYTES && dataBytes <= MAX_BYTES
    }

    predicate Valid()
      reads this, line, data
    {
      Shaped() && Sound(State())
    }

    function Frame(): Assembly
      requires Shaped()
      reads this, data
    {
      Assembly(event, hasData, data[..dataBytes], leading, calls)
    }

    function State(): Machine
      requires Shaped()
      reads this, line, data
    {
      if stopped then Stopped(calls) else Live(Frame(), line[..lineBytes], rawBytes, pendingCR)
    }

    constructor (host: Host)
      ensures Valid() && this.host == host && State() == START && fresh(line) && fresh(data)
    {
      this.host := host;
      line := new byte[MAX_BYTES](_ => 0);
      data := new byte[MAX_BYTES](_ => 0);
      lineBytes, rawBytes, dataBytes := 0, 0, 0;
      event, hasData, leading, stopped := [], false, true, false;
      pendingCR, calls := NoCR, [];
    }

    method CompleteBufferedLine() returns (ended: bool)
      requires Shaped() && !stopped && Framed(Frame()) && dataBytes + lineBytes <= MAX_BYTES
      modifies this`lineBytes, this`dataBytes, this`event, this`hasData, this`leading, this`stopped, this`calls, data
      ensures Shaped()
      ensures match CompleteLine(host, old(Frame()), old(line[..lineBytes]))
              case Failed(made) => stopped && calls == made
              case Completed(next, e) => !stopped && Frame() == next && lineBytes == 0 && ended == e
    {
      hide FieldName, FieldValue;
      var text := line[..lineBytes];
      ended := false;
      if !host.utf8(text) {
        stopped := true;
        return;
      }
      lineBytes := 0;
      if leading {
        leading := false;
        if BOM <= text {
          text := text[3..];
        }
      }
      if text == [] {
        DispatchBuffered();
        return !stopped;
      }
      if text[0] == COLON {
        calls := calls + [ActivityCall];
        stopped := !host.answer(calls);
        return;
      }
      var field, value := FieldName(text), FieldValue(text);
      if field == EVENT_FIELD {
        event := value;
      } else if field == DATA_FIELD {
        AppendData(value);
      }
    }

    method DispatchBuffered()
      requires Shaped() && !stopped && Framed(Frame())
      modifies this`dataBytes, this`event, this`hasData, this`stopped, this`calls
      ensures Shaped()
      ensures match Dispatch(host, old(Frame()))
              case Failed(made) => stopped && calls == made
              case Completed(next, _) => !stopped && Frame() == next
    {
      if hasData {
        if event == [] {
          event := MESSAGE;
        }
        var bytes := data[..dataBytes - 1];
        assert bytes == data[..dataBytes][..dataBytes - 1];
        if event !in EVENTS || !host.payload(event, bytes) {
          stopped := true;
          return;
        }
        calls := calls + [FrameCall(event, bytes)];
        if !host.answer(calls) {
          stopped := true;
          return;
        }
        calls := calls + [ActivityCall];
        if !host.answer(calls) {
          stopped := true;
          return;
        }
      } else if event != [] {
        stopped := true;
        return;
      }
      event, hasData, dataBytes := [], false, 0;
    }

    method AppendData(value: seq<byte>)
      requires Shaped() && !stopped
      modifies this`dataBytes, this`hasData, this`stopped, data
      ensures Shaped()
      ensures if old(dataBytes) + |value| + 1 > MAX_BYTES then stopped
              else !stopped && hasData && data[..dataBytes] == old(data[..dataBytes]) + value + [LF]
    {
      if dataBytes + |value| + 1 > data.Length {
        stopped := true;
        return;
      }
      forall i | 0 <= i < |value| {
        data[dataBytes + i] := value[i];
      }
      data[dataBytes + |value|] := LF;
      dataBytes, hasData := dataBytes + |value| + 1, true;
    }

    method ResolveCR()
      requires Shaped() && !stopped && pendingCR.PendingCR? && rawBytes <= MAX_BYTES
      requires exists r :: 0 <= r <= rawBytes && Sound(Live(Frame(), line[..lineBytes], r, pendingCR))
      modifies this, data
      ensures Shaped()
      ensures forall r :: 0 <= r <= old(rawBytes) && Sound(Live(old(Frame()), old(line[..lineBytes]), r, old(pendingCR))) ==>
                State() == Resolve(host, Live(old(Frame()), old(line[..lineBytes]), r, old(pendingCR)), old(rawBytes))
    {
      var cr := pendingCR;
      pendingCR := NoCR;
      var ended := cr.endedFrame;
      if !cr.completed {
        ended := CompleteBufferedLine();
        if stopped {
          return;
        }
      }
      if ended {
        rawBytes := 0;
      }
    }

    /** One byte of a chunk. */
    method Consume(b: byte)
      requires Valid() && !stopped
      modifies this, line, data
      ensures Valid() && State() == Step(host, old(State()), b)
    {
      hide CompleteLine, Resolve, Plain;
      if pendingCR.PendingCR? {
        if b == LF {
          rawBytes := rawBytes + 1;
          if rawBytes > MAX_BYTES {
            stopped := true;
            return;
          }
          assert Sound(Live(Frame(), line[..lineBytes], old(rawBytes), pendingCR));
          ResolveCR();
          return;
        }
        assert Sound(Live(Frame(), line[..lineBytes], old(rawBytes), pendingCR));
        ResolveCR();
        if stopped {
          PlainStopped(host, State(), b);
          return;
        }
      }
      ConsumePlain(b);
    }

    /** One byte when no CR is held back. */
    method ConsumePlain(b: byte)
      requires Valid() && !stopped && pendingCR.NoCR?
      modifies this, line, data
      ensures Valid() && State() == Plain(host, old(State()), b)
    {
      hide CompleteLine;
      rawBytes := rawBytes + 1;
      if rawBytes > MAX_BYTES {
        stopped := true;
        return;
      }
      if b == CR {
        var completed, ended := rawBytes < MAX_BYTES, false;
        if completed {
          ended := CompleteBufferedLine();
          if stopped {
            return;
          }
        }
        pendingCR := PendingCR(completed, ended);
      } else if b == LF {
        var ended := CompleteBufferedLine();
        if stopped {
          return;
        }
        if ended {
          rawBytes := 0;
        }
      } else {
        line[lineBytes] := b;
        lineBytes := lineBytes + 1;
      }
    }

    method Push(chunk: seq<byte>) returns (ok: bool)
      requires Valid()
      modifies this, line, data
      ensures Valid() && State() == Run(host, old(State()), chunk)
      ensures ok == !stopped
    {
      var i := 0;
      assert chunk[0..] == chunk;
      while i < |chunk| && !stopped
        invariant 0 <= i <= |chunk| && Valid()
        invariant Run(host, old(State()), chunk) == Run(host, State(), chunk[i..])
      {
        assert chunk[i..][0] == chunk[i] && chunk[i..][1..] == chunk[i + 1..];
        Consume(chunk[i]);
        i := i + 1;
      }
      if stopped {
        RunStopped(host, State(), chunk[i..]);
      }
      ok := !stopped;
    }

    method End() returns (ok: bool)
      requires Valid()
      modifies this, line, data
      ensures Valid() && stopped
      ensures Verdict(ok, calls) == Finish(host, old(State()))
    {
      if stopped {
        return false;
      }
      if pendingCR.PendingCR? {
        assert Sound(Live(Frame(), line[..lineBytes], rawBytes, pendingCR));
        ResolveCR();
        if stopped {
          return false;
        }
      }
      ok := lineBytes == 0 && !hasData && event == [];
      stopped := true;
    }
  }
}
