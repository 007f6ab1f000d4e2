/** The observation-stream parser (hub/priv/dashboard/operator-stream.js): frames cut at blank lines, and pages that
    continue one another. */
module Observation {
  import opened Options
  import opened Bytes
  import opened EventPages
  import Strings
  import Decimal

  const MAX_FRAME: nat := 524288
  const EVENT_FIELD := Ascii("event")
  const DATA_FIELD := Ascii("data")
  const UPDATE := Ascii("update")
  const RESET := Ascii("reset")
  const OBSERVATION := Ascii("observation")

  /** The codes the parser fails with, and the decoder's own error, which carries none, for a frame that is not UTF-8. */
  datatype Code = Limit | Schema | History | Transport | Undecodable

  datatype Effect = Activity | Update | PageShown(page: Page)

  /** What the parser asks of its surroundings: UTF-8 validity, whether a payload is an update or a reset notice, the
      page a payload decodes to, and the cursor encoding. */
  datatype Host = Host(utf8: seq<byte> -> bool, update: seq<byte> -> bool, reset: seq<byte> -> bool,
                       page: seq<byte> -> Option<Page>, cursor: (Strings.Str, Strings.Str) -> Strings.Str)

  // --- One frame ---

  function SplitLines(s: seq<byte>): seq<seq<byte>>
    decreases |s|
  {
    var n := LineEnd(s);
    if n == |s| then [s] else [s[..n]] + SplitLines(s[n + TerminatorWidth(s, n)..])
  }

  datatype Fields = Fields(event: seq<byte>, data: seq<seq<byte>>, comment: bool) | Malformed

  function ReadLine(f: Fields, line: seq<byte>): Fields {
    if f.Malformed? || |line| == 0 then f
    else if line[0] == COLON then f.(comment := true)
    else if FieldName(line) == EVENT_FIELD then if f.event != [] then Malformed else f.(event := FieldValue(line))
    else if FieldName(line) == DATA_FIELD then f.(data := f.data + [FieldValue(line)])
    else Malformed
  }

  function ReadLines(f: Fields, lines: seq<seq<byte>>): Fields
    decreases |lines|
  {
    if |lines| == 0 then f else ReadLines(ReadLine(f, lines[0]), lines[1..])
  }

  /** What is known between frames: the last page shown, and everything shown. */
  datatype Shown = Shown(previous: Option<Page>, effects: seq<Effect>)

  datatype Dispatched = Went(shown: Shown) | Refused(code: Code)

  predicate Continues(previous: Option<Page>, page: Page) {
    previous.Some? ==> page.epoch == previous.value.epoch && page.fromSequence == previous.value.toSequence
  }

  function ShowPage(h: Host, s: Shown, data: seq<byte>): Dispatched {
    match h.page(data)
    case None => Refused(Schema)
    case Some(page) =>
      if !Accepted(page, h.cursor, None) then Refused(Schema)
      else if !Continues(s.previous, page) then Refused(History)
      else Went(Shown(Some(page), s.effects + [Activity, PageShown(page)]))
  }

  function Act(h: Host, s: Shown, f: Fields): Dispatched {
    if f.Malformed? then Refused(Schema)
    else if f.event == [] && f.data == [] && f.comment then Went(s.(effects := s.effects + [Activity]))
    else
      var data := Join(f.data);
      if f.event == UPDATE then
        if h.update(data) then Went(s.(effects := s.effects + [Activity, Update])) else Refused(Schema)
      else if f.event == RESET then Refused(if h.reset(data) then History else Schema)
      else if f.event == OBSERVATION then ShowPage(h, s, data)
      else Refused(Schema)
  }

  function Dispatch(h: Host, s: Shown, frame: seq<byte>): Dispatched {
    if !h.utf8(frame) then Refused(Undecodable) else Act(h, s, ReadLines(Fields([], [], false), SplitLines(frame)))
  }

  // --- The batch reading: cut after every blank line ---

  /** The bytes up to and including the terminator of the first blank line, given how long the current line already
      is; nothing when no blank line ends. */
  function FrameEnd(s: seq<byte>, line: nat): (n: Option<nat>)
    ensures n.Some? ==> 1 <= n.value <= |s|
    decreases |s|
  {
    if |s| == 0 then None
    else if !IsTerminator(s[0]) then
      match FrameEnd(s[1..], line + 1)
      case None => None
      case Some(n) => Some(1 + n)
    else
      var w := TerminatorWidth(s, 0);
      if line == 0 then Some(w)
      else
        match FrameEnd(s[w..], 0)
        case None => None
        case Some(n) => Some(w + n)
  }

  /** What a closed stream comes to: everything shown, and the failure if any. */
  datatype Verdict = Verdict(shown: Shown, failure: Option<Code>)

  /** Reads the rest of a closed stream, `frame` being the begun frame and `line` the bytes in its last line. */
  function Batch(h: Host, s: Shown, frame: seq<byte>, line: nat, input: seq<byte>): Verdict
    decreases |input|
  {
    match FrameEnd(input, line)
    case None =>
      if |frame| + |input| > MAX_FRAME then Verdict(s, Some(Limit))
      else if |frame| + |input| != 0 then Verdict(s, Some(Transport))
      else Verdict(s, None)
    case Some(n) =>
      if |frame| + n > MAX_FRAME then Verdict(s, Some(Limit))
      else
        match Dispatch(h, s, frame + input[..n])
        case Refused(code) => Verdict(s, Some(code))
        case Went(next) => Batch(h, next, [], 0, input[n..])
  }

  // --- The byte automaton ---

  datatype Machine = Open(shown: Shown, frame: seq<byte>, line: nat, cr: bool, pending: bool) | Broken(shown: Shown, code: Code)

  const BEGIN := Open(Shown(None, []), [], 0, false, false)

  /** What the counters keep: no write past the buffer, and a held-back CR is the last byte of a non-empty frame. */
  predicate Sound(m: Machine) {
    m.Open? ==> |m.frame| <= MAX_FRAME && m.line <= |m.frame| && (m.cr ==> m.line == 0 && |m.frame| != 0 && m.frame[|m.frame| - 1] == CR)
  }

  function Cut(h: Host, m: Machine): (r: Machine)
    requires m.Open?
    ensures Sound(r) && (r.Open? ==> !r.cr && r.frame == [])
  {
    match Dispatch(h, m.shown, m.frame)
    case Refused(code) => Broken(m.shown, code)
    case Went(next) => Open(next, [], 0, false, false)
  }

  function Append(m: Machine, b: byte): (r: Machine)
    requires m.Open? && Sound(m) && !m.cr
    ensures Sound(r)
  {
    if |m.frame| + 1 > MAX_FRAME then Broken(m.shown, Limit) else m.(frame := m.frame + [b])
  }

  function Plain(h: Host, m: Machine, b: byte): (r: Machine)
    requires Sound(m) && (m.Open? ==> !m.cr)
    ensures Sound(r)
  {
    if m.Broken? then m
    else
      var a := Append(m, b);
      if a.Broken? then a
      else if b == CR then a.(pending := m.line == 0, line := 0, cr := true)
      else if b == LF then if m.line == 0 then Cut(h, a) else a.(line := 0)
      else a.(line := m.line + 1)
  }

  /** The frame a held-back CR ended, if its line was blank. */
  function Settle(h: Host, m: Machine): (r: Machine)
    requires Sound(m) && m.Open? && m.cr
    ensures Sound(r) && (r.Open? ==> !r.cr)
  {
    if m.pending then Cut(h, m.(cr := false)) else m.(cr := false)
  }

  function Step(h: Host, m: Machine, b: byte): (r: Machine)
    requires Sound(m)
    ensures Sound(r)
  {
    if m.Broken? || !m.cr then Plain(h, m, b)
    else if b == LF then
      var a := Append(m.(cr := false), b);
      if a.Open? && m.pending then Cut(h, a) else a
    else Plain(h, Settle(h, m), b)
  }

  function Run(h: Host, m: Machine, input: seq<byte>): (r: Machine)
    requires Sound(m)
    ensures Sound(r)
    decreases |input|
  {
    if |input| == 0 then m else Run(h, Step(h, m, input[0]), input[1..])
  }

  function Finish(h: Host, m: Machine): Verdict
    requires Sound(m)
  {
    if m.Broken? then Verdict(m.shown, Some(m.code))
    else if m.cr && m.pending then
      var c := Cut(h, m);
      if c.Broken? then Verdict(c.shown, Some(c.code)) else Verdict(c.shown, None)
    else if |m.frame| != 0 then Verdict(m.shown, Some(Transport))
    else Verdict(m.shown, None)
  }

  // --- Refinement ---

  /** The batch verdict of what follows a state with no CR held back. */
  function Remaining(h: Host, m: Machine, input: seq<byte>): Verdict
    requires Sound(m) && (m.Open? ==> !m.cr)
  {
    if m.Broken? then Verdict(m.shown, Some(m.code)) else Batch(h, m.shown, m.frame, m.line, input)
  }

  lemma AtEnd(h: Host, m: Machine)
    requires Sound(m) && (m.Open? ==> !m.cr)
    ensures Finish(h, m) == Remaining(h, m, [])
  {
  }

  /** One byte that does not end a frame stays in the frame. */
  lemma BatchKeeps(h: Host, s: Shown, frame: seq<byte>, line: nat, first: seq<byte>, next: nat, rest: seq<byte>)
    requires |first| != 0
    requires FrameEnd(first + rest, line) ==
             (match FrameEnd(rest, next) case None => None case Some(n) => Some(|first| + n))
    ensures Batch(h, s, frame, line, first + rest) == Batch(h, s, frame + first, next, rest)
  {
    hide Dispatch, FrameEnd;
    var input := first + rest;
    var e := FrameEnd(rest, next);
    if e.Some? {
      var n := e.value;
      assert input[..|first| + n] == first + rest[..n];
      assert frame + (first + rest[..n]) == (frame + first) + rest[..n];
      assert input[|first| + n..] == rest[n..];
    }
  }

  /** A blank line ends the frame. */
  lemma BatchCuts(h: Host, m: Machine, first: seq<byte>, rest: seq<byte>)
    requires m.Open? && |first| != 0 && |m.frame| + |first| <= MAX_FRAME
    requires FrameEnd(first + rest, m.line) == Some(|first|)
    ensures var c := Cut(h, m.(frame := m.frame + first));
      Batch(h, m.shown, m.frame, m.line, first + rest) == Remaining(h, c, rest)
  {
    hide Dispatch, FrameEnd;
    var input := first + rest;
    assert input[..|first|] == first && input[|first|..] == rest;
  }

  lemma BatchTooLong(h: Host, s: Shown, frame: seq<byte>, line: nat, input: seq<byte>, n: nat)
    requires FrameEnd(input, line) == None || FrameEnd(input, line).value >= n
    requires n <= |input| && |frame| + n > MAX_FRAME
    ensures Batch(h, s, frame, line, input) == Verdict(s, Some(Limit))
  {
  }

  lemma PlainStep(h: Host, m: Machine, b: byte, rest: seq<byte>)
    requires Sound(m) && m.Open? && !m.cr && b != CR
    ensures var next := Step(h, m, b);
      (next.Open? ==> !next.cr) && Remaining(h, next, rest) == Remaining(h, m, [b] + rest)
  {
    var input := [b] + rest;
    assert input[1..] == rest;
    FirstByte(b, rest, m.line);
    hide Dispatch, FrameEnd, Batch;
    if |m.frame| + 1 > MAX_FRAME {
      BatchTooLong(h, m.shown, m.frame, m.line, input, 1);
    } else if b == LF && m.line == 0 {
      BatchCuts(h, m, [b], rest);
      assert Append(m, b) == m.(frame := m.frame + [b]);
    } else {
      BatchKeeps(h, m.shown, m.frame, m.line, [b], if b == LF then 0 else m.line + 1, rest);
    }
  }

  lemma FirstByte(b: byte, rest: seq<byte>, line: nat)
    requires b != CR
    ensures FrameEnd([b] + rest, line) ==
            if b == LF && line == 0 then Some(1)
            else match FrameEnd(rest, if b == LF then 0 else line + 1) case None => None case Some(n) => Some(1 + n)
  {
    assert ([b] + rest)[1..] == rest;
  }

  /** A CR, alone or with its LF. */
  lemma Terminator(first: seq<byte>, rest: seq<byte>, line: nat)
    requires (first == [CR] && (|rest| == 0 || rest[0] != LF)) || first == [CR, LF]
    ensures FrameEnd(first + rest, line) ==
            if line == 0 then Some(|first|)
            else match FrameEnd(rest, 0) case None => None case Some(n) => Some(|first| + n)
  {
    var s := first + rest;
    assert s[|first|..] == rest && TerminatorWidth(s, 0) == |first|;
  }

  lemma CrlfStep(h: Host, m: Machine, rest: seq<byte>)
    requires Sound(m) && m.Open? && !m.cr
    ensures var next := Step(h, Step(h, m, CR), LF);
      (next.Open? ==> !next.cr) && Remaining(h, next, rest) == Remaining(h, m, [CR, LF] + rest)
  {
    Terminator([CR, LF], rest, m.line);
    hide Dispatch, FrameEnd, Batch;
    var input := [CR, LF] + rest;
    if |m.frame| + 2 > MAX_FRAME {
      BatchTooLong(h, m.shown, m.frame, m.line, input, 2);
    } else {
      assert m.frame + [CR] + [LF] == m.frame + [CR, LF];
      if m.line == 0 {
        BatchCuts(h, m, [CR, LF], rest);
      } else {
        BatchKeeps(h, m.shown, m.frame, m.line, [CR, LF], 0, rest);
      }
    }
  }

  /** A CR with anything but LF after it, or with nothing. */
  lemma CrStep(h: Host, m: Machine, rest: seq<byte>)
    requires Sound(m) && m.Open? && !m.cr && (|rest| == 0 || rest[0] != LF)
    ensures var held := Step(h, m, CR);
      if held.Broken? then Remaining(h, m, [CR] + rest) == Verdict(held.shown, Some(held.code))
      else held.cr && Remaining(h, m, [CR] + rest) == Remaining(h, Settle(h, held), rest)
  {
    Terminator([CR], rest, m.line);
    hide Dispatch, FrameEnd, Batch;
    var input := [CR] + rest;
    if |m.frame| + 1 > MAX_FRAME {
      BatchTooLong(h, m.shown, m.frame, m.line, input, 1);
    } else if m.line == 0 {
      BatchCuts(h, m, [CR], rest);
    } else {
      BatchKeeps(h, m.shown, m.frame, m.line, [CR], 0, rest);
    }
  }

  lemma HeldAtEnd(h: Host, m: Machine)
    requires Sound(m) && m.Open? && m.cr
    ensures Finish(h, m) == Remaining(h, Settle(h, m), [])
  {
    hide Dispatch;
    AtEnd(h, Settle(h, m));
    assert m.pending ==> Cut(h, m.(cr := false)) == Cut(h, m);
  }

  lemma {:induction false} RunBroken(h: Host, m: Machine, input: seq<byte>)
    requires m.Broken?
    ensures Run(h, m, input) == m
    decreases |input|
  {
    if |input| != 0 {
      RunBroken(h, m, input[1..]);
    }
  }

  lemma SettledStep(h: Host, m: Machine, b: byte)
    requires Sound(m) && m.Open? && m.cr && b != LF
    ensures Step(h, m, b) == Step(h, Settle(h, m), b)
  {
    hide Cut, Append;
  }

  /** The automaton at any point, run to the end, agrees with the batch reading of what is left. */
  lemma {:induction false} MachineIsBatch(h: Host, m: Machine, input: seq<byte>)
    requires Sound(m) && (m.Open? ==> !m.cr)
    ensures Finish(h, Run(h, m, input)) == Remaining(h, m, input)
    decreases |input|
  {
    hide Dispatch, Batch, Finish, Remaining, Step, Settle, Sound;
    if |input| == 0 {
      AtEnd(h, m);
    } else if m.Broken? {
      RunBroken(h, m, input);
      BrokenFinish(h, m, input);
    } else {
      var b, rest := input[0], input[1..];
      assert input == [b] + rest;
      if b != CR {
        PlainStep(h, m, b, rest);
        MachineIsBatch(h, Step(h, m, b), rest);
      } else if |rest| != 0 && rest[0] == LF {
        var tail := rest[1..];
        assert input == [CR, LF] + tail;
        CrlfStep(h, m, tail);
        MachineIsBatch(h, Step(h, Step(h, m, CR), LF), tail);
      } else {
        CrStep(h, m, rest);
        HeldRun(h, m, rest);
        var held := Step(h, m, CR);
        if held.Open? {
          if |rest| == 0 {
            HeldAtEnd(h, held);
          } else {
            MachineIsBatch(h, Settle(h, held), rest);
          }
        }
      }
    }
  }

  lemma BrokenFinish(h: Host, m: Machine, input: seq<byte>)
    requires m.Broken?
    ensures Finish(h, m) == Remaining(h, m, input) == Verdict(m.shown, Some(m.code))
  {
  }

  /** A held-back CR before anything but LF. */
  lemma HeldRun(h: Host, m: Machine, rest: seq<byte>)
    requires Sound(m) && m.Open? && !m.cr && (|rest| == 0 || rest[0] != LF)
    ensures var held := Step(h, m, CR);
      && (held.Broken? ==> Finish(h, Run(h, held, rest)) == Verdict(held.shown, Some(held.code)))
      && (held.Open? && |rest| != 0 ==> held.cr && Run(h, held, rest) == Run(h, Settle(h, held), rest))
  {
    hide Dispatch, Settle;
    var held := Step(h, m, CR);
    if held.Broken? {
      RunBroken(h, held, rest);
    } else if |rest| != 0 {
      SettledStep(h, held, rest[0]);
    }
  }

  function RunChunks(h: Host, m: Machine, chunks: seq<seq<byte>>): (r: Machine)
    requires Sound(m)
    ensures Sound(r)
    decreases |chunks|
  {
    if |chunks| == 0 then m else RunChunks(h, Run(h, m, chunks[0]), chunks[1..])
  }

  lemma {:induction false} RunSplit(h: Host, m: Machine, a: seq<byte>, b: seq<byte>)
    requires Sound(m)
    ensures Run(h, m, a + b) == Run(h, Run(h, m, a), b)
    decreases |a|
  {
    if |a| == 0 {
      assert a + b == b;
    } else {
      assert (a + b)[1..] == a[1..] + b;
      RunSplit(h, Step(h, m, a[0]), a[1..], b);
    }
  }

  lemma {:induction false} ChunksAreTheirConcatenation(h: Host, m: Machine, chunks: seq<seq<byte>>)
    requires Sound(m)
    ensures RunChunks(h, m, chunks) == Run(h, m, Concat(chunks))
    decreases |chunks|
  {
    if |chunks| != 0 {
      RunSplit(h, m, chunks[0], Concat(chunks[1..]));
      ChunksAreTheirConcatenation(h, Run(h, m, chunks[0]), chunks[1..]);
    }
  }

  /** For every stream and every chunking, what is shown and the verdict are those of the batch reading. */
  lemma StreamIsBatch(h: Host, chunks: seq<seq<byte>>)
    ensures Finish(h, RunChunks(h, BEGIN, chunks)) == Batch(h, BEGIN.shown, [], 0, Concat(chunks))
  {
    hide Dispatch, Batch, Finish, Run;
    ChunksAreTheirConcatenation(h, BEGIN, chunks);
    MachineIsBatch(h, BEGIN, Concat(chunks));
  }

  // --- Where frames end, line by line ---

  /** The same cut told by whole lines: everything up to the first empty line, terminators included. */
  function LinesToBlank(s: seq<byte>): (n: Option<nat>)
    decreases |s|
  {
    var i := LineEnd(s);
    if i == |s| then None
    else
      var w := TerminatorWidth(s, i);
      if i == 0 then Some(w)
      else
        match LinesToBlank(s[i + w..])
        case None => None
        case Some(n) => Some(i + w + n)
  }

  lemma {:induction false} WithinLine(s: seq<byte>, line: nat)
    ensures var i := LineEnd(s);
      FrameEnd(s, line) ==
        if i == |s| then None
        else
          var w := TerminatorWidth(s, i);
          if line + i == 0 then Some(w)
          else match FrameEnd(s[i + w..], 0) case None => None case Some(n) => Some(i + w + n)
    decreases |s|
  {
    hide UnbrokenTo;
    var i := LineEnd(s);
    if |s| != 0 && !IsTerminator(s[0]) {
      var t := s[1..];
      WithinLine(t, line + 1);
      if i < |s| {
        SameTerminator(s, i);
      }
    }
  }

  lemma SameTerminator(s: seq<byte>, i: nat)
    requires 0 < i < |s| && IsTerminator(s[i])
    ensures TerminatorWidth(s[1..], i - 1) == TerminatorWidth(s, i)
    ensures s[1..][i - 1 + TerminatorWidth(s, i)..] == s[i + TerminatorWidth(s, i)..]
  {
  }

  /** A frame ends exactly at its first blank line, whichever of CRLF, CR and LF end its lines. */
  lemma {:induction false} FramesEndAtBlankLines(s: seq<byte>)
    ensures FrameEnd(s, 0) == LinesToBlank(s)
    decreases |s|
  {
    hide FrameEnd;
    WithinLine(s, 0);
    var i := LineEnd(s);
    if i < |s| && i != 0 {
      FramesEndAtBlankLines(s[i + TerminatorWidth(s, i)..]);
    }
  }

  // --- Continuity ---

  function PagesOf(effects: seq<Effect>): seq<Page> {
    if |effects| == 0 then []
    else
      var last := effects[|effects| - 1];
      PagesOf(effects[..|effects| - 1]) + (if last.PageShown? then [last.page] else [])
  }

  ghost predicate Linked(h: Host, s: Shown) {
    var pages := PagesOf(s.effects);
    Continuous(pages, h.cursor) && s.previous == if |pages| == 0 then None else Some(pages[|pages| - 1])
  }

  lemma PagesSnoc(effects: seq<Effect>, e: Effect)
    ensures PagesOf(effects + [e]) == PagesOf(effects) + (if e.PageShown? then [e.page] else [])
  {
    assert (effects + [e])[..|effects|] == effects;
  }

  lemma LinkQuiet(h: Host, s: Shown, e: Effect)
    requires Linked(h, s) && !e.PageShown?
    ensures Linked(h, s.(effects := s.effects + [e]))
  {
    PagesSnoc(s.effects, e);
    hide Continuous;
    assert PagesOf(s.effects + [e]) == PagesOf(s.effects);
  }

  lemma LinkPage(h: Host, s: Shown, page: Page)
    requires Linked(h, s) && Accepted(page, h.cursor, None) && Continues(s.previous, page)
    ensures Linked(h, Shown(Some(page), s.effects + [PageShown(page)]))
  {
    hide Accepted;
    PagesSnoc(s.effects, PageShown(page));
    hide PagesOf;
    var pages := PagesOf(s.effects);
    var longer := pages + [page];
    forall i | 0 <= i < |longer| ensures Accepted(longer[i], h.cursor, None) {
    }
    forall i | 0 < i < |longer| ensures longer[i].epoch == longer[i - 1].epoch && longer[i].fromSequence == longer[i - 1].toSequence {
      if i < |pages| {
        assert longer[i] == pages[i] && longer[i - 1] == pages[i - 1];
      }
    }
  }

  lemma ActLinks(h: Host, s: Shown, f: Fields)
    requires Linked(h, s) && Act(h, s, f).Went?
    ensures Linked(h, Act(h, s, f).shown)
  {
    hide Linked, Accepted, Continues, Join;
    LinkQuiet(h, s, Activity);
    var active := s.(effects := s.effects + [Activity]);
    LinkQuiet(h, active, Update);
    assert s.effects + [Activity] + [Update] == s.effects + [Activity, Update];
    var data := Join(f.data);
    match h.page(data)
    case None =>
    case Some(page) =>
      assert s.effects + [Activity] + [PageShown(page)] == s.effects + [Activity, PageShown(page)];
      if Accepted(page, h.cursor, None) && Continues(s.previous, page) {
        LinkPage(h, active, page);
      }
  }

  lemma {:induction false} BatchLinks(h: Host, s: Shown, frame: seq<byte>, line: nat, input: seq<byte>)
    requires Linked(h, s)
    ensures Linked(h, Batch(h, s, frame, line, input).shown)
    decreases |input|
  {
    hide Linked, Act, FrameEnd;
    var e := FrameEnd(input, line);
    if e.Some? && |frame| + e.value <= MAX_FRAME {
      var whole := frame + input[..e.value];
      if Dispatch(h, s, whole).Went? {
        ActLinks(h, s, ReadLines(Fields([], [], false), SplitLines(whole)));
        BatchLinks(h, Dispatch(h, s, whole).shown, [], 0, input[e.value..]);
      }
    }
  }

  /** Over every stream and chunking, whatever the verdict: all events shown are of one epoch and numbered
      consecutively, none missing and none twice. */
  lemma ShownEventsAreConsecutive(h: Host, chunks: seq<seq<byte>>)
    ensures var pages := PagesOf(Finish(h, RunChunks(h, BEGIN, chunks)).shown.effects);
      && Continuous(pages, h.cursor)
      && (|pages| != 0 ==> Consecutive(Events(pages), pages[0].epoch, Decimal.Num(pages[0].fromSequence) + 1))
  {
    hide Continuous, Consecutive, Finish, RunChunks, Batch;
    StreamIsBatch(h, chunks);
    FirstLink(h);
    BatchLinks(h, BEGIN.shown, [], 0, Concat(chunks));
    var pages := PagesOf(Finish(h, RunChunks(h, BEGIN, chunks)).shown.effects);
    if |pages| != 0 {
      ContinuousEvents(pages, h.cursor);
    }
  }

  lemma FirstLink(h: Host)
    ensures Linked(h, BEGIN.shown)
  {
  }

  // --- The parser object ---

  class Parser {
    const host: Host
    const buffer: array<byte>
    var used: nat
    var lineLength: nat
    var cr: bool
    var pending: bool
    var previous: Option<Page>
    var effects: seq<Effect>
    var failure: Option<Code>

    /** Every index the parser writes lies inside its buffer. */
    predicate Shaped()
      reads this
    {
      buffer.Length == MAX_FRAME && used <= MAX_FRAME
    }

    function Progress(): Shown
      reads this
    {
      Shown(previous, effects)
    }

    function State(): Machine
      requires Shaped()
      reads this, buffer
    {
      if failure.Some? then Broken(Progress(), failure.value) else Open(Progress(), buffer[..used], lineLength, cr, pending)
    }

    predicate Valid()
      reads this, buffer
    {
      Shaped() && Sound(State())
    }

    constructor (host: Host)
      ensures Valid() && this.host == host && State() == BEGIN && fresh(buffer)
    {
      this.host := host;
      buffer := new byte[MAX_FRAME](_ => 0);
      used, lineLength, cr, pending := 0, 0, false, false;
      previous, effects, failure := None, [], None;
    }

    method Keep(b: byte)
      requires Valid() && failure.None? && !cr
      modifies this`used, this`failure, buffer
      ensures Valid() && State() == Append(old(State()), b)
    {
      if used >= buffer.Length {
        failure := Some(Limit);
        return;
      }
      buffer[used] := b;
      used := used + 1;
      assert buffer[..used] == old(buffer[..used]) + [b];
    }

    method DispatchFrame()
      requires Shaped() && failure.None?
      modifies this`used, this`lineLength, this`cr, this`pending, this`previous, this`effects, this`failure
      ensures Valid() && State() == Cut(host, old(State()))
    {
      hide ReadLines, SplitLines, Join, Accepted;
      var frame := buffer[..used];
      used, lineLength, cr, pending := 0, 0, false, false;
      if !host.utf8(frame) {
        failure := Some(Undecodable);
        return;
      }
      var fields := ReadLines(Fields([], [], false), SplitLines(frame));
      if fields.Malformed? {
        failure := Some(Schema);
        return;
      }
      if fields.event == [] && fields.data == [] && fields.comment {
        effects := effects + [Activity];
        return;
      }
      var data := Join(fields.data);
      if fields.event == UPDATE {
        if !host.update(data) {
          failure := Some(Schema);
          return;
        }
        effects := effects + [Activity, Update];
        return;
      }
      if fields.event == RESET {
        failure := Some(if host.reset(data) then History else Schema);
        return;
      }
      if fields.event != OBSERVATION {
        failure := Some(Schema);
        return;
      }
      var page := host.page(data);
      if page.None? {
        failure := Some(Schema);
        return;
      }
      var ok := DecodeEventPage(page.value, host.cursor, None);
      if !ok {
        failure := Some(Schema);
        return;
      }
      if previous.Some? && (page.value.epoch != previous.value.epoch || page.value.fromSequence != previous.value.toSequence) {
        failure := Some(History);
        return;
      }
      previous := page;
      effects := effects + [Activity, PageShown(page.value)];
    }

    method Consume(b: byte)
      requires Valid() && failure.None?
      modifies this, buffer
      ensures Valid() && State() == Step(host, old(State()), b)
    {
      hide Dispatch;
      if cr {
        cr := false;
        if b == LF {
          Keep(b);
          if failure.None? && pending {
            DispatchFrame();
          }
          return;
        }
        if pending {
          DispatchFrame();
          if failure.Some? {
            return;
          }
        }
      }
      Keep(b);
      if failure.Some? {
        return;
      }
      if b == CR {
        pending := lineLength == 0;
        lineLength := 0;
        cr := true;
      } else if b == LF {
        if lineLength == 0 {
          DispatchFrame();
        } else {
          lineLength := 0;
        }
      } else {
        lineLength := lineLength + 1;
      }
    }

    method Push(chunk: seq<byte>) returns (ok: bool)
      requires Valid()
      modifies this, buffer
      ensures Valid() && State() == Run(host, old(State()), chunk)
      ensures ok == failure.None?
    {
      hide Step;
      var i := 0;
      assert chunk[0..] == chunk;
      while i < |chunk| && failure.None?
        invariant 0 <= i <= |chunk| && Valid()
        invariant Run(host, old(State()), chunk) == Run(host, State(), chunk[i..])
      {
        assert chunk[i..][0] == chunk[i] && chunk[i..][1..] == chunk[i + 1..];
        Consume(chunk[i]);
        i := i + 1;
      }
      if failure.Some? {
        RunBroken(host, State(), chunk[i..]);
      }
      ok := failure.None?;
    }

    method End() returns (verdict: Verdict)
      requires Valid()
      modifies this
      ensures verdict == Finish(host, old(State()))
    {
      hide Dispatch;
      if failure.None? {
        if cr && pending {
          DispatchFrame();
        } else if used != 0 {
          failure := Some(Transport);
        }
      }
      verdict := Verdict(Progress(), failure);
    }
  }
}
