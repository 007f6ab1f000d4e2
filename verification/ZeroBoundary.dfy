/** Exactly when a new-mode read is bound to go on from its stored boundary: over every honest run after it is begun,
    whatever is posted, answered or dropped in between. */
module ZeroBoundary {
  import opened Options
  import opened Strings
  import opened Decimal
  import opened Channels
  import opened ChannelReads
  import opened GapFree

  /** The most messages a recent tail holds (docs/protocol.md). */
  const TAIL: nat := 32

  function JournalOf(w: Reader, epoch: Str): Journal {
    if epoch in w.journals then w.journals[epoch] else []
  }

  function TicketOf(w: Reader, channel: Str): Ticket
    requires Begin(w.state, channel, New).Some?
  {
    Begin(w.state, channel, New).value.1
  }

  /** The read's page, if it was answered from the boundary's epoch, is what follows the boundary or a prefix of it. */
  ghost predicate GoesOn(r: Reader, t: Ticket, epoch: Str, after: Str) {
    t in r.given && !r.given[t].reset && r.given[t].page.epoch == epoch ==>
      && epoch in r.journals && IsJournal(r.journals[epoch]) && Canonical(after)
      && ForwardDelta(r.given[t].page.messages, r.journals[epoch], after)
  }

  /** A new-mode read begun now goes on from the boundary in every honest run from here. */
  ghost predicate AlwaysGoesOn(w: Reader, channel: Str, epoch: Str, after: Str)
    requires Begin(w.state, channel, New).Some?
  {
    forall ops: seq<Op> :: HonestRun(w, channel, [Ask(channel, New)] + ops) ==>
      GoesOn(Run(w, channel, [Ask(channel, New)] + ops), TicketOf(w, channel), epoch, after)
  }

  /** No two messages will ever be in the journal: it holds the one message of the last sequence there is. */
  ghost predicate Exhausted(j: Journal) {
    |j| == 1 && Num(j[0].seqno) == Pow10(MAX_DIGITS) - 1
  }

  // --- From a nonzero boundary ---

  /** A read of the channel that asked from a nonzero boundary: what it was given without a reset follows that boundary. */
  ghost predicate Following(w: Reader, channel: Str, t: Ticket) {
    && t.channel == channel && t in w.asked && w.asked[t].after != NONE && Canonical(w.asked[t].after)
    && (t in w.given && !w.given[t].reset ==> FollowsAsked(w, t))
  }

  ghost predicate FollowsAsked(w: Reader, t: Ticket)
    requires t in w.given && t in w.asked
  {
    var page := w.given[t].page;
    && Canonical(w.asked[t].after) && page.epoch in w.journals && IsJournal(w.journals[page.epoch])
    && ForwardDelta(page.messages, w.journals[page.epoch], w.asked[t].after)
  }

  lemma FollowsFrame(w: Reader, r: Reader, t: Ticket)
    requires t in w.given && t in w.asked && t in r.given && t in r.asked
    requires r.given[t] == w.given[t] && r.asked[t] == w.asked[t] && r.journals == w.journals && FollowsAsked(w, t)
    ensures FollowsAsked(r, t)
  {
  }

  lemma PostKeepsFollowing(w: Reader, channel: Str, epoch: Str, m: Message, t: Ticket)
    requires t in w.given && t in w.asked && FollowsAsked(w, t) && Honest(w, channel, Post(epoch, m))
    ensures FollowsAsked(Apply(w, channel, Post(epoch, m)), t)
  {
    var page := w.given[t].page;
    if page.epoch == epoch {
      var j := w.journals[epoch];
      DeltaGrows(page.messages, j, m, w.asked[t].after);
    }
  }

  /** What follows a boundary still does once the journal has grown. */
  lemma DeltaGrows(messages: seq<Message>, j: Journal, m: Message, after: Str)
    requires IsJournal(j) && IsJournal(j + [m]) && Canonical(after) && ForwardDelta(messages, j, after)
    ensures ForwardDelta(messages, j + [m], after)
  {
    hide Num;
    var u := Upto(j, Num(after));
    var g := j + [m];
    if u == |j| {
      assert messages == [];
    } else {
      assert forall i :: 0 <= i < |j| ==> g[i] == j[i];
      assert Num(g[u].seqno) < Num(g[|j|].seqno);
      UptoUnique(g, Num(after), u);
      assert g[u..] == j[u..] + [m];
    }
  }

  lemma AnswerFollows(w: Reader, channel: Str, t: Ticket, primary: Page)
    requires Honest(w, channel, Answer(t, primary)) && t in w.asked && t !in w.given && t.channel == channel
    requires w.asked[t].after != NONE && Canonical(w.asked[t].after) && t in Apply(w, channel, Answer(t, primary)).given
    ensures FollowsAsked(Apply(w, channel, Answer(t, primary)), t)
  {
    hide Canonical, Lookup, Release, Note, Segment, ForwardDelta, AssessPrimary, IsJournal;
  }

  /** A step leaves a ticket alone: what it asked, what it was given, and all journals unless it posts; only the
      ticket's own answer gives it a page without a reset. */
  ghost predicate Leaves(w: Reader, r: Reader, op: Op, t: Ticket)
    requires t in w.asked
  {
    && t in r.asked && r.asked[t] == w.asked[t]
    && (!op.Post? ==> r.journals == w.journals)
    && (t in w.given ==> t in r.given && r.given[t] == w.given[t])
    && (t in r.given && t !in w.given && !r.given[t].reset ==> op.Answer? && op.ticket == t)
  }

  lemma AnswerLeaves(w: Reader, channel: Str, op: Op, t: Ticket)
    requires t in w.asked && (op.Answer? || op.Tail?)
    ensures Leaves(w, Apply(w, channel, op), op, t)
  {
    hide AssessPrimary, AssessTail, Note, Release;
  }

  lemma AskLeaves(w: Reader, channel: Str, op: Op, t: Ticket)
    requires t in w.asked && op.Ask?
    requires Begin(w.state, op.channel, op.mode).Some? ==> Begin(w.state, op.channel, op.mode).value.1 != t
    ensures Leaves(w, Apply(w, channel, op), op, t)
  {
    hide Begin, ReadAfter;
  }

  lemma StepLeaves(w: Reader, channel: Str, op: Op, t: Ticket)
    requires Tickets(w) && t in w.asked
    ensures Leaves(w, Apply(w, channel, op), op, t)
  {
    if op.Ask? && Begin(w.state, op.channel, op.mode).Some? {
      AskIsFresh(w, op.channel, op.mode);
    }
    hide Tickets, Begin, ApplyShow, Release, Invalidate, EmptyState;
    match op {
      case Ask(_, _) => AskLeaves(w, channel, op, t);
      case Answer(_, _) => AnswerLeaves(w, channel, op, t);
      case Tail(_, _) => AnswerLeaves(w, channel, op, t);
      case Show(u, shown) =>
        if u in w.asked && u in w.given {
          ShowLeaves(w, channel, u, shown);
        }
      case _ =>
    }
  }

  lemma ShowLeaves(w: Reader, channel: Str, t: Ticket, shown: nat)
    requires t in w.asked && t in w.given
    ensures var r := ApplyShow(w, channel, t, shown); r.asked == w.asked && r.given == w.given && r.journals == w.journals
  {
    hide Commit, Release, Lookup, Boundary, Prefix, Continues;
  }

  lemma StepFollows(w: Reader, channel: Str, op: Op, t: Ticket)
    requires Tickets(w) && Following(w, channel, t) && Honest(w, channel, op)
    ensures Following(Apply(w, channel, op), channel, t) && Apply(w, channel, op).asked[t] == w.asked[t]
  {
    hide Tickets, Honest, Apply, Canonical, FollowsAsked;
    var r := Apply(w, channel, op);
    StepLeaves(w, channel, op, t);
    if t in r.given && !r.given[t].reset {
      if t !in w.given {
        AnswerFollows(w, channel, t, op.primary);
      } else if op.Post? {
        PostKeepsFollowing(w, channel, op.epoch, op.message, t);
      } else {
        FollowsFrame(w, r, t);
      }
    }
  }

  lemma {:induction false} RunFollows(w: Reader, channel: Str, ops: seq<Op>, t: Ticket)
    requires Sound(w, channel) && Following(w, channel, t) && HonestRun(w, channel, ops)
    ensures Following(Run(w, channel, ops), channel, t) && Run(w, channel, ops).asked[t] == w.asked[t]
    decreases |ops|
  {
    hide Apply, Honest, Following, Tickets, Reading, Covered, Anchored, Journals;
    if |ops| != 0 {
      StepFollows(w, channel, ops[0], t);
      assert Following(w, channel, t) ==> t in w.asked by { FollowingAsked(w, channel, t); }
      StepSound(w, channel, ops[0]);
      RunFollows(Apply(w, channel, ops[0]), channel, ops[1..], t);
    }
  }

  lemma FollowingAsked(w: Reader, channel: Str, t: Ticket)
    requires Following(w, channel, t)
    ensures t in w.asked
  {
  }

  // --- From boundary 0 ---

  /** `count` messages numbered on from `n`. */
  function Numbered(n: nat, count: nat): (ms: seq<Message>)
    ensures |ms| == count && forall i :: 0 <= i < count ==> ms[i] == Message(Render(n + 1 + i), [], [], 0)
  {
    seq(count, i requires 0 <= i < count => Message(Render(n + 1 + i), [], [], 0))
  }

  function Last(j: Journal): nat {
    if |j| == 0 then 0 else Num(j[|j| - 1].seqno)
  }

  lemma RenderFits(n: nat)
    requires n < Pow10(MAX_DIGITS)
    ensures Canonical(Render(n)) && Num(Render(n)) == n
  {
    RenderLength(n, MAX_DIGITS);
    RenderValue(n);
  }

  lemma NoneIsZero()
    ensures Canonical(NONE) && Num(NONE) == 0
  {
    assert NONE[1..] == [];
    assert Value(NONE[1..]) == 0;
  }

  /** A journal goes on with the next numbers as long as there are any. */
  lemma JournalGrows(j: Journal, count: nat)
    requires IsJournal(j) && Last(j) + count < Pow10(MAX_DIGITS)
    ensures IsJournal(j + Numbered(Last(j), count))
    ensures count != 0 ==> Last(j + Numbered(Last(j), count)) == Last(j) + count
  {
    var ms := Numbered(Last(j), count);
    forall i | 0 <= i < count
      ensures Canonical(ms[i].seqno) && Num(ms[i].seqno) == Last(j) + 1 + i
    {
      RenderFits(Last(j) + 1 + i);
    }
    NoneIsZero();
    hide Num, Canonical, Numbered;
    assert forall i :: 0 <= i < |j| ==> Num(j[i].seqno) <= Last(j);
    JournalsJoin(j, ms);
  }

  /** Journals join when every number of the second is above all of the first. */
  lemma JournalsJoin(j: Journal, ms: seq<Message>)
    requires IsJournal(j) && (forall i :: 0 <= i < |j| ==> Num(j[i].seqno) <= Last(j))
    requires forall i :: 0 <= i < |ms| ==> Canonical(ms[i].seqno) && Num(ms[i].seqno) == Last(j) + 1 + i
    ensures IsJournal(j + ms) && (|ms| != 0 ==> Last(j + ms) == Last(j) + |ms|)
  {
    NoneIsZero();
    hide Num, Canonical, Last;
    var g := j + ms;
    forall a, b | 0 <= a < b < |g|
      ensures Num(g[a].seqno) < Num(g[b].seqno)
    {
      if b >= |j| {
        assert g[b] == ms[b - |j|];
        if a < |j| {
          assert g[a] == j[a];
        } else {
          assert g[a] == ms[a - |j|];
        }
      }
    }
    forall i | 0 <= i < |g|
      ensures g[i].seqno != NONE && Canonical(g[i].seqno)
    {
      if i >= |j| {
        assert g[i] == ms[i - |j|];
      }
    }
    assert Last(g) == if |g| == 0 then 0 else Num(g[|g| - 1].seqno) by { LastIs(g); }
    if |ms| != 0 {
      assert g[|g| - 1] == ms[|ms| - 1];
    }
  }

  lemma LastIs(j: Journal)
    ensures Last(j) == if |j| == 0 then 0 else Num(j[|j| - 1].seqno)
  {
  }

  function Posts(epoch: Str, ms: seq<Message>): (ops: seq<Op>)
    ensures |ops| == |ms| && forall i :: 0 <= i < |ms| ==> ops[i] == Post(epoch, ms[i])
  {
    seq(|ms|, i requires 0 <= i < |ms| => Post(epoch, ms[i]))
  }

  lemma {:induction false} RunAppend(w: Reader, channel: Str, a: seq<Op>, b: seq<Op>)
    ensures Run(w, channel, a + b) == Run(Run(w, channel, a), channel, b)
    ensures HonestRun(w, channel, a + b) <==> HonestRun(w, channel, a) && HonestRun(Run(w, channel, a), channel, b)
    decreases |a|
  {
    hide Apply, Honest;
    if |a| == 0 {
      assert a + b == b;
    } else {
      assert (a + b)[0] == a[0] && (a + b)[1..] == a[1..] + b;
      RunAppend(Apply(w, channel, a[0]), channel, a[1..], b);
    }
  }

  lemma RunOne(w: Reader, channel: Str, op: Op)
    ensures Run(w, channel, [op]) == Apply(w, channel, op)
    ensures HonestRun(w, channel, [op]) <==> Honest(w, channel, op)
  {
    hide Apply, Honest;
    assert [op][1..] == [];
    assert Run(Apply(w, channel, op), channel, []) == Apply(w, channel, op);
    assert HonestRun(Apply(w, channel, op), channel, []);
  }

  /** Posting what continues a journal is honest and adds exactly that. */
  lemma {:induction false} RunPosts(w: Reader, channel: Str, epoch: Str, ms: seq<Message>)
    requires IsJournal(JournalOf(w, epoch) + ms)
    ensures HonestRun(w, channel, Posts(epoch, ms))
    ensures Run(w, channel, Posts(epoch, ms)) == if |ms| == 0 then w else w.(journals := w.journals[epoch := JournalOf(w, epoch) + ms])
    decreases |ms|
  {
    if |ms| != 0 {
      var ops := Posts(epoch, ms);
      var r := Apply(w, channel, ops[0]);
      PostOne(w, channel, epoch, ms);
      hide IsJournal, Apply, Honest, JournalOf;
      assert ops[1..] == Posts(epoch, ms[1..]);
      RunPosts(r, channel, epoch, ms[1..]);
    }
  }

  lemma PostOne(w: Reader, channel: Str, epoch: Str, ms: seq<Message>)
    requires |ms| != 0 && IsJournal(JournalOf(w, epoch) + ms)
    ensures var r := Apply(w, channel, Post(epoch, ms[0])); var j := JournalOf(w, epoch);
      && Honest(w, channel, Post(epoch, ms[0])) && JournalOf(r, epoch) + ms[1..] == j + ms
      && (|ms| == 1 ==> r == w.(journals := w.journals[epoch := j + ms]))
      && r.(journals := r.journals[epoch := j + ms]) == w.(journals := w.journals[epoch := j + ms])
  {
    var j := JournalOf(w, epoch);
    JournalPrefix(j + ms, |j| + 1);
    assert (j + ms)[..|j| + 1] == j + [ms[0]];
    hide IsJournal, Begin, ApplyAnswer, ApplyTail, ApplyShow, Release, ReadAfter;
    assert j + [ms[0]] + ms[1..] == j + ms;
    assert |ms| == 1 ==> j + [ms[0]] == j + ms;
    assert w.journals[epoch := j + [ms[0]]][epoch := j + ms] == w.journals[epoch := j + ms];
  }

  lemma JournalPrefix(j: Journal, k: nat)
    requires IsJournal(j) && k <= |j|
    ensures IsJournal(j[..k])
  {
  }

  lemma NothingUptoNone(j: Journal)
    requires IsJournal(j)
    ensures Canonical(NONE) && Upto(j, Num(NONE)) == 0 && j[0..] == j
  {
    NoneIsZero();
    forall i | 0 <= i < |j|
      ensures Num(j[i].seqno) > 0
    {
      CompareIsNumeric(j[i].seqno, NONE);
    }
    UptoUnique(j, 0, 0);
  }

  // --- The read as it is begun and answered ---

  lemma Begun(w: Reader, channel: Str)
    requires Sound(w, channel) && Begin(w.state, channel, New).Some? && Lookup(w.state.checkpoints, channel).Some?
    ensures var a, t := Apply(w, channel, Ask(channel, New)), TicketOf(w, channel);
      var c := Lookup(w.state.checkpoints, channel).value;
      && Sound(a, channel) && Canonical(c.after)
      && t.channel == channel && t in a.asked && a.asked[t] == Asked(New, c.after) && t !in a.given && t !in a.observed
      && Live(a.state, t) && a.state.busy[channel].mode == New
      && a.state.checkpoints == w.state.checkpoints && a.journals == w.journals
  {
    AskIsFresh(w, channel, New);
    LookupCanonical(w.state.checkpoints, channel);
    StepSound(w, channel, Ask(channel, New));
    hide Sound, Lookup, Canonical;
    assert Tickets(w) by { SoundTickets(w, channel); }
    hide WellFormed;
  }

  lemma SoundTickets(w: Reader, channel: Str)
    requires Sound(w, channel)
    ensures Tickets(w) && Journals(w)
  {
  }

  /** Beginning the read and then anything. */
  lemma AfterAsk(w: Reader, channel: Str, ops: seq<Op>)
    ensures var a := Apply(w, channel, Ask(channel, New));
      && Run(w, channel, [Ask(channel, New)] + ops) == Run(a, channel, ops)
      && (HonestRun(w, channel, [Ask(channel, New)] + ops) <==> HonestRun(a, channel, ops))
  {
    RunAppend(w, channel, [Ask(channel, New)], ops);
    RunOne(w, channel, Ask(channel, New));
    assert Honest(w, channel, Ask(channel, New));
  }

  lemma NonzeroGoesOn(w: Reader, channel: Str)
    requires Sound(w, channel) && Begin(w.state, channel, New).Some?
    requires var c := Lookup(w.state.checkpoints, channel); c.Some? && c.value.after != NONE
    ensures var c := Lookup(w.state.checkpoints, channel).value; AlwaysGoesOn(w, channel, c.epoch, c.after)
  {
    var c, t := Lookup(w.state.checkpoints, channel).value, TicketOf(w, channel);
    var a := Apply(w, channel, Ask(channel, New));
    Begun(w, channel);
    assert Following(a, channel, t);
    hide Sound, Lookup, Begin, Apply, Following;
    forall ops: seq<Op> | HonestRun(w, channel, [Ask(channel, New)] + ops)
      ensures GoesOn(Run(w, channel, [Ask(channel, New)] + ops), t, c.epoch, c.after)
    {
      AfterAsk(w, channel, ops);
      RunFollows(a, channel, ops, t);
      FollowingGoesOn(Run(a, channel, ops), channel, t, c.epoch, c.after);
    }
  }

  lemma FollowingGoesOn(r: Reader, channel: Str, t: Ticket, epoch: Str, after: Str)
    requires Following(r, channel, t) && r.asked[t].after == after
    ensures GoesOn(r, t, epoch, after)
  {
  }

  // --- A journal that cannot grow ---

  /** The journal still holds its one message, and the read was given all of it or nothing. */
  ghost predicate Stuck(r: Reader, channel: Str, t: Ticket, epoch: Str, j: Journal) {
    && t.channel == channel && t in r.asked && epoch in r.journals && r.journals[epoch] == j
    && (t in r.given && r.given[t].page.epoch == epoch && !r.given[t].reset ==> r.given[t].page.messages in {[], j})
  }

  lemma NoNextNumber(j: Journal, m: Message)
    requires Exhausted(j) && IsJournal(j)
    ensures !IsJournal(j + [m])
  {
    if Canonical(m.seqno) {
      ValueBound(m.seqno);
      PowMonotone(|m.seqno|, MAX_DIGITS);
    }
    hide Pow10, Canonical;
    assert (j + [m])[0] == j[0] && (j + [m])[1] == m;
  }

  lemma SegmentOfOne(messages: seq<Message>, j: Journal)
    requires Segment(messages, j) && |j| == 1
    ensures messages in {[], j}
  {
    var a, b :| 0 <= a <= b <= |j| && messages == j[a..b];
    assert j[0..1] == j;
    assert a == b ==> messages == [];
  }

  lemma StepStuck(w: Reader, channel: Str, op: Op, t: Ticket, epoch: Str, j: Journal)
    requires Tickets(w) && Stuck(w, channel, t, epoch, j) && Exhausted(j) && IsJournal(j) && Honest(w, channel, op)
    ensures Stuck(Apply(w, channel, op), channel, t, epoch, j)
  {
    StepLeaves(w, channel, op, t);
    var r := Apply(w, channel, op);
    match op {
      case Post(e, m) =>
        if e == epoch {
          NoNextNumber(j, m);
        }
      case Answer(u, primary) =>
        if u == t && primary.epoch == epoch {
          SegmentOfOne(primary.messages, j);
        }
        hide Tickets, IsJournal, AssessPrimary, AssessTail, Note, Release, Segment, Exhausted;
        AnsweredIs(w, channel, u, primary);
      case _ => hide Tickets, IsJournal, Apply, Honest;
    }
  }

  lemma AnsweredIs(w: Reader, channel: Str, t: Ticket, primary: Page)
    ensures var r := Apply(w, channel, Answer(t, primary)); t in r.given && t !in w.given ==> r.given[t].page == primary
  {
    hide AssessPrimary, Note, Release;
  }

  lemma {:induction false} RunStuck(w: Reader, channel: Str, ops: seq<Op>, t: Ticket, epoch: Str, j: Journal)
    requires Sound(w, channel) && Stuck(w, channel, t, epoch, j) && Exhausted(j) && IsJournal(j) && HonestRun(w, channel, ops)
    ensures Stuck(Run(w, channel, ops), channel, t, epoch, j)
    decreases |ops|
  {
    hide Apply, Honest, Stuck, Exhausted, IsJournal, Sound;
    if |ops| != 0 {
      SoundTickets(w, channel);
      StepStuck(w, channel, ops[0], t, epoch, j);
      StepSound(w, channel, ops[0]);
      RunStuck(Apply(w, channel, ops[0]), channel, ops[1..], t, epoch, j);
    }
  }

  lemma ExhaustedGoesOn(w: Reader, channel: Str, epoch: Str)
    requires Sound(w, channel) && Begin(w.state, channel, New).Some?
    requires Lookup(w.state.checkpoints, channel) == Some(Checkpoint(epoch, NONE)) && Exhausted(JournalOf(w, epoch))
    ensures AlwaysGoesOn(w, channel, epoch, NONE)
  {
    var t, j := TicketOf(w, channel), JournalOf(w, epoch);
    var a := Apply(w, channel, Ask(channel, New));
    Begun(w, channel);
    SoundTickets(w, channel);
    assert epoch in w.journals && IsJournal(j) && Stuck(a, channel, t, epoch, j);
    NothingUptoNone(j);
    hide Sound, Lookup, Begin, Apply, Stuck, IsJournal, Exhausted, Upto, Num;
    forall ops: seq<Op> | HonestRun(w, channel, [Ask(channel, New)] + ops)
      ensures GoesOn(Run(w, channel, [Ask(channel, New)] + ops), t, epoch, NONE)
    {
      AfterAsk(w, channel, ops);
      RunStuck(a, channel, ops, t, epoch, j);
      StuckGoesOn(Run(a, channel, ops), channel, t, epoch, j);
    }
  }

  lemma StuckGoesOn(r: Reader, channel: Str, t: Ticket, epoch: Str, j: Journal)
    requires Stuck(r, channel, t, epoch, j) && IsJournal(j)
    ensures GoesOn(r, t, epoch, NONE)
  {
    NothingUptoNone(j);
    hide Upto, Num, Ordered;
  }

  // --- Passing over messages ---

  /** Messages posted while the read waits, and then the hub's answer. */
  lemma PostedAndAnswered(w: Reader, channel: Str, epoch: Str, ms: seq<Message>, page: Page)
    requires Sound(w, channel) && Begin(w.state, channel, New).Some?
    requires Lookup(w.state.checkpoints, channel) == Some(Checkpoint(epoch, NONE))
    requires var j := JournalOf(w, epoch) + ms;
      IsJournal(j) && |j| != 0 && page.epoch == epoch && |page.messages| != 0 && Segment(page.messages, j) && Ordered(page.messages)
    ensures var a, t := Apply(w, channel, Ask(channel, New)), TicketOf(w, channel);
      var ops := Posts(epoch, ms) + [Answer(t, page)];
      var r := Run(a, channel, ops);
      && HonestRun(a, channel, ops)
      && r == a.(journals := a.journals[epoch := JournalOf(w, epoch) + ms], state := Note(a.state, t, page),
                 given := a.given[t := Delivered(page, false)])
      && Sound(r, channel)
  {
    var a, t := Apply(w, channel, Ask(channel, New)), TicketOf(w, channel);
    Begun(w, channel);
    assert JournalOf(a, epoch) == JournalOf(w, epoch);
    hide Sound, Begin, Lookup, Segment, IsJournal;
    RunPosts(a, channel, epoch, ms);
    RunAppend(a, channel, Posts(epoch, ms), [Answer(t, page)]);
    var b := Run(a, channel, Posts(epoch, ms));
    assert b == a.(journals := a.journals[epoch := JournalOf(w, epoch) + ms]) by {
      if |ms| == 0 {
        assert JournalOf(w, epoch) + ms == JournalOf(w, epoch) == a.journals[epoch];
        assert a.journals == a.journals[epoch := a.journals[epoch]];
      }
    }
    hide Posts, Run, HonestRun, JournalOf, Live;
    RunOne(b, channel, Answer(t, page));
    RunSound(a, channel, Posts(epoch, ms));
    AnswerIsHonest(b, channel, t, page, JournalOf(w, epoch) + ms);
    hide Apply, Honest;
    StepSound(b, channel, Answer(t, page));
    AnswerDelivers(b, channel, t, page);
  }

  lemma AnswerIsHonest(b: Reader, channel: Str, t: Ticket, page: Page, j: Journal)
    requires Sound(b, channel) && t in b.asked && b.asked[t].after == NONE
    requires page.epoch in b.journals && b.journals[page.epoch] == j && Segment(page.messages, j)
    ensures Honest(b, channel, Answer(t, page))
  {
    SoundTickets(b, channel);
    hide Segment, Canonical;
  }

  lemma AnswerDelivers(b: Reader, channel: Str, t: Ticket, page: Page)
    requires t in b.asked && b.asked[t] == Asked(New, NONE) && t !in b.given && t !in b.observed && t.channel == channel
    requires Live(b.state, t) && Ordered(page.messages)
    requires Lookup(b.state.checkpoints, channel) == Some(Checkpoint(page.epoch, NONE))
    ensures Apply(b, channel, Answer(t, page)) == b.(state := Note(b.state, t, page), given := b.given[t := Delivered(page, false)])
  {
    hide Ordered, Lookup, Live, Note;
  }

  lemma ZeroPassesOver(w: Reader, channel: Str, epoch: Str)
    requires Sound(w, channel) && Begin(w.state, channel, New).Some?
    requires Lookup(w.state.checkpoints, channel) == Some(Checkpoint(epoch, NONE)) && !Exhausted(JournalOf(w, epoch))
    ensures !AlwaysGoesOn(w, channel, epoch, NONE)
  {
    var ms := TwoMessages(w, channel, epoch);
    var j := JournalOf(w, epoch) + ms;
    var page := Page(epoch, channel, NONE, NONE, Complete, true, j[|j| - 1..]);
    hide Sound, Begin, Lookup, Exhausted, Run, HonestRun, JournalOf, IsJournal, GoesOn, Posts;
    PassedOver(w, channel, epoch, ms, page);
    var ops := Posts(epoch, ms) + [Answer(TicketOf(w, channel), page)];
    assert HonestRun(w, channel, [Ask(channel, New)] + ops);
  }

  /** Posts after which the journal holds two messages at least. */
  lemma TwoMessages(w: Reader, channel: Str, epoch: Str) returns (ms: seq<Message>)
    requires Sound(w, channel) && !Exhausted(JournalOf(w, epoch))
    ensures IsJournal(JournalOf(w, epoch) + ms) && |JournalOf(w, epoch) + ms| >= 2
  {
    var j := JournalOf(w, epoch);
    var count := if |j| >= 2 then 0 else 2 - |j|;
    assert IsJournal(j) by { JournalIs(w, channel, epoch); }
    hide Sound, Num, Pow10, IsJournal, Last, JournalOf, Numbered, Exhausted;
    RoomForTwo(j);
    JournalGrows(j, count);
    ms := Numbered(Last(j), count);
  }

  lemma PassedOver(w: Reader, channel: Str, epoch: Str, ms: seq<Message>, page: Page)
    requires Sound(w, channel) && Begin(w.state, channel, New).Some?
    requires Lookup(w.state.checkpoints, channel) == Some(Checkpoint(epoch, NONE))
    requires var j := JournalOf(w, epoch) + ms; IsJournal(j) && |j| >= 2 && page.epoch == epoch && page.messages == j[|j| - 1..]
    ensures var t := TicketOf(w, channel); var ops := [Ask(channel, New)] + (Posts(epoch, ms) + [Answer(t, page)]);
      HonestRun(w, channel, ops) && !GoesOn(Run(w, channel, ops), t, epoch, NONE)
  {
    var t, j := TicketOf(w, channel), JournalOf(w, epoch) + ms;
    var ops := Posts(epoch, ms) + [Answer(t, page)];
    TailIsSegment(j, 1);
    hide Sound, Begin, Lookup, Apply, Run, HonestRun, JournalOf, IsJournal, Segment, Ordered, Posts, Note, GoesOn;
    PostedAndAnswered(w, channel, epoch, ms, page);
    AfterAsk(w, channel, ops);
    TailDoesNotGoOn(Run(w, channel, [Ask(channel, New)] + ops), t, epoch, j);
  }

  lemma TailDoesNotGoOn(r: Reader, t: Ticket, epoch: Str, j: Journal)
    requires IsJournal(j) && |j| >= 2 && epoch in r.journals && r.journals[epoch] == j
    requires t in r.given && !r.given[t].reset && r.given[t].page.epoch == epoch && r.given[t].page.messages == j[|j| - 1..]
    ensures !GoesOn(r, t, epoch, NONE)
  {
    NothingUptoNone(j);
    FirstIsNotLast(j);
    hide Upto, Num, Ordered;
    assert j[|j| - 1..][0] == j[|j| - 1];
  }

  lemma FirstIsNotLast(j: Journal)
    requires IsJournal(j) && |j| >= 2
    ensures j[0] != j[|j| - 1]
  {
  }

  lemma JournalIs(w: Reader, channel: Str, epoch: Str)
    requires Sound(w, channel)
    ensures IsJournal(JournalOf(w, epoch))
  {
    SoundTickets(w, channel);
  }

  lemma LastFits(j: Journal)
    requires IsJournal(j)
    ensures Last(j) < Pow10(MAX_DIGITS)
  {
    if |j| != 0 {
      var s := j[|j| - 1].seqno;
      ValueBound(s);
      PowMonotone(|s|, MAX_DIGITS);
    }
  }

  lemma RoomForTwo(j: Journal)
    requires IsJournal(j) && !Exhausted(j)
    ensures Last(j) + (if |j| >= 2 then 0 else 2 - |j|) < Pow10(MAX_DIGITS)
  {
    LastFits(j);
    if |j| == 0 {
      PowMonotone(1, MAX_DIGITS);
      assert Pow10(1) == 10;
    }
  }

  lemma TailIsSegment(j: Journal, n: nat)
    requires IsJournal(j) && n <= |j|
    ensures Segment(j[|j| - n..], j) && Ordered(j[|j| - n..])
  {
    hide Num, Canonical;
    assert j[|j| - n..] == j[|j| - n..|j|];
  }

  /** The exact condition, over every honest run: a new-mode read begun at a stored boundary is bound to go on from it if
      and only if the boundary is nonzero. The one exception is a journal no second message can ever join. */
  lemma GoesOnIffNonzero(w: Reader, channel: Str)
    requires Sound(w, channel) && Begin(w.state, channel, New).Some? && Lookup(w.state.checkpoints, channel).Some?
    ensures var c := Lookup(w.state.checkpoints, channel).value;
      AlwaysGoesOn(w, channel, c.epoch, c.after) <==> c.after != NONE || Exhausted(JournalOf(w, c.epoch))
  {
    hide Sound, Begin, Lookup, AlwaysGoesOn, Exhausted;
    var c := Lookup(w.state.checkpoints, channel).value;
    assert c.after == NONE ==> Some(c) == Some(Checkpoint(c.epoch, NONE));
    if c.after != NONE {
      NonzeroGoesOn(w, channel);
    } else if Exhausted(JournalOf(w, c.epoch)) {
      ExhaustedGoesOn(w, channel, c.epoch);
    } else {
      ZeroPassesOver(w, channel, c.epoch);
    }
  }

  /** From boundary 0, whatever the journal holds when the read is begun, a hub that always serves the newest 32 messages
      can be overtaken by posts: its answer is shown whole and committed, and the boundary moves past a message that no
      read returned. */
  lemma ZeroBoundarySkips(w: Reader, channel: Str, epoch: Str) returns (ops: seq<Op>)
    requires Sound(w, channel) && Begin(w.state, channel, New).Some?
    requires Lookup(w.state.checkpoints, channel) == Some(Checkpoint(epoch, NONE))
    requires |JournalOf(w, epoch)| > TAIL || Last(JournalOf(w, epoch)) + (TAIL + 1 - |JournalOf(w, epoch)|) < Pow10(MAX_DIGITS)
    ensures HonestRun(w, channel, [Ask(channel, New)] + ops)
    ensures var r, t := Run(w, channel, [Ask(channel, New)] + ops), TicketOf(w, channel);
      && epoch in r.journals && t in r.given && JournalOf(w, epoch) <= r.journals[epoch]
      && var j := r.journals[epoch];
      && |j| > TAIL && r.given[t].page.messages == j[|j| - TAIL..] && j[0] !in r.given[t].page.messages
      && Lookup(r.state.checkpoints, channel) == Some(Checkpoint(epoch, j[|j| - 1].seqno)) && r.returned == []
  {
    hide Sound, Begin, Lookup, Apply, Last, Pow10, Run, HonestRun, JournalOf, IsJournal, Posts;
    var t := TicketOf(w, channel);
    var ms := TailAndMore(w, channel, epoch);
    var g := JournalOf(w, epoch) + ms;
    assert JournalOf(w, epoch) <= g;
    var page := Page(epoch, channel, NONE, NONE, Complete, true, g[|g| - TAIL..]);
    var asking := Posts(epoch, ms) + [Answer(t, page)];
    ops := asking + [Show(t, TAIL)];
    FirstIsNotInTail(g, TAIL);
    Skipped(w, channel, epoch, ms, page);
    AfterAsk(w, channel, ops);
  }

  /** The run after the read is begun: the posts, the newest 32 messages as the answer, and all of them shown. */
  lemma Skipped(w: Reader, channel: Str, epoch: Str, ms: seq<Message>, page: Page)
    requires Sound(w, channel) && Begin(w.state, channel, New).Some?
    requires Lookup(w.state.checkpoints, channel) == Some(Checkpoint(epoch, NONE))
    requires var j := JournalOf(w, epoch) + ms; IsJournal(j) && |j| > TAIL && page.epoch == epoch && page.messages == j[|j| - TAIL..]
    ensures var a, t := Apply(w, channel, Ask(channel, New)), TicketOf(w, channel);
      var j := JournalOf(w, epoch) + ms;
      var ops := Posts(epoch, ms) + [Answer(t, page)] + [Show(t, TAIL)];
      var r := Run(a, channel, ops);
      && HonestRun(a, channel, ops) && epoch in r.journals && r.journals[epoch] == j
      && t in r.given && r.given[t].page == page && r.returned == []
      && Lookup(r.state.checkpoints, channel) == Some(Checkpoint(epoch, j[|j| - 1].seqno))
  {
    var a, t, j := Apply(w, channel, Ask(channel, New)), TicketOf(w, channel), JournalOf(w, epoch) + ms;
    var asking := Posts(epoch, ms) + [Answer(t, page)];
    var b := Run(a, channel, asking);
    AnsweredReads(w, channel, epoch, ms, page);
    hide Sound, Begin, Lookup, Apply, Run, HonestRun, JournalOf, IsJournal, Posts, Answered;
    RunAppend(a, channel, asking, [Show(t, TAIL)]);
    RunOne(b, channel, Show(t, TAIL));
    assert Honest(b, channel, Show(t, TAIL));
    SkipShown(b, channel, t, page);
    assert page.messages[TAIL - 1] == j[|j| - 1];
  }

  /** The read of the channel was answered with a full tail, from boundary 0. */
  ghost predicate Answered(b: Reader, channel: Str, t: Ticket, page: Page) {
    && t in b.asked && t in b.given && b.asked[t] == Asked(New, NONE) && b.given[t] == Delivered(page, false)
    && t.channel == channel && Live(b.state, t) && b.state.busy[channel].epoch == Some(page.epoch)
    && b.state.busy[channel].sequences == Sequences(page) && |page.messages| == TAIL
    && WellFormed(b.state) && Lookup(b.state.checkpoints, channel) == Some(Checkpoint(page.epoch, NONE))
    && Canonical(page.messages[TAIL - 1].seqno) && page.messages[TAIL - 1].seqno != NONE
  }

  lemma AnsweredReads(w: Reader, channel: Str, epoch: Str, ms: seq<Message>, page: Page)
    requires Sound(w, channel) && Begin(w.state, channel, New).Some?
    requires Lookup(w.state.checkpoints, channel) == Some(Checkpoint(epoch, NONE))
    requires var j := JournalOf(w, epoch) + ms; IsJournal(j) && |j| > TAIL && page.epoch == epoch && page.messages == j[|j| - TAIL..]
    ensures var a, t := Apply(w, channel, Ask(channel, New)), TicketOf(w, channel);
      var ops := Posts(epoch, ms) + [Answer(t, page)];
      var b := Run(a, channel, ops);
      && HonestRun(a, channel, ops) && Answered(b, channel, t, page)
      && epoch in b.journals && b.journals[epoch] == JournalOf(w, epoch) + ms
  {
    var a, t, j := Apply(w, channel, Ask(channel, New)), TicketOf(w, channel), JournalOf(w, epoch) + ms;
    LastOfTail(j, page.messages);
    Begun(w, channel);
    TailIsSegment(j, TAIL);
    NotedRead(a.state, t, page);
    hide Sound, Begin, Lookup, Apply, Run, HonestRun, Live, WellFormed, JournalOf, IsJournal, Segment, Ordered, Posts, Note, Sequences, Canonical;
    PostedAndAnswered(w, channel, epoch, ms, page);
    SoundWell(Run(a, channel, Posts(epoch, ms) + [Answer(t, page)]), channel);
  }

  lemma LastOfTail(j: Journal, messages: seq<Message>)
    requires IsJournal(j) && |j| > TAIL && messages == j[|j| - TAIL..]
    ensures |messages| == TAIL && Canonical(messages[TAIL - 1].seqno) && messages[TAIL - 1].seqno != NONE
  {
    assert messages[TAIL - 1] == j[|j| - 1];
  }

  /** Posts after which the journal holds more than a tail. */
  lemma TailAndMore(w: Reader, channel: Str, epoch: Str) returns (ms: seq<Message>)
    requires Sound(w, channel)
    requires |JournalOf(w, epoch)| > TAIL || Last(JournalOf(w, epoch)) + (TAIL + 1 - |JournalOf(w, epoch)|) < Pow10(MAX_DIGITS)
    ensures IsJournal(JournalOf(w, epoch) + ms) && |JournalOf(w, epoch) + ms| > TAIL
  {
    var j := JournalOf(w, epoch);
    var count := if |j| > TAIL then 0 else TAIL + 1 - |j|;
    assert IsJournal(j) by { JournalIs(w, channel, epoch); }
    hide Sound, Num, Pow10, IsJournal, Last, JournalOf, Numbered;
    LastFits(j);
    JournalGrows(j, count);
    ms := Numbered(Last(j), count);
  }

  lemma SoundWell(w: Reader, channel: Str)
    requires Sound(w, channel)
    ensures WellFormed(w.state)
  {
  }

  lemma FirstIsNotInTail(j: Journal, n: nat)
    requires IsJournal(j) && n < |j|
    ensures j[0] !in j[|j| - n..]
  {
  }

  lemma NotedRead(s: ReadState, t: Ticket, page: Page)
    requires Live(s, t)
    ensures var r := Note(s, t, page);
      && Live(r, t) && r.busy[t.channel].epoch == Some(page.epoch) && r.busy[t.channel].sequences == Sequences(page)
      && r.checkpoints == s.checkpoints
  {
  }

  lemma SkipShown(b: Reader, channel: Str, t: Ticket, page: Page)
    requires Answered(b, channel, t, page)
    ensures var r := Apply(b, channel, Show(t, TAIL));
      && r.journals == b.journals && r.given == b.given && r.returned == [] && t in r.given && r.given[t].page == page
      && Lookup(r.state.checkpoints, channel) == Some(Checkpoint(page.epoch, page.messages[TAIL - 1].seqno))
  {
    var last := page.messages[TAIL - 1].seqno;
    NoneIsZero();
    CompareIsNumeric(last, NONE);
    assert last == Sequences(page)[TAIL - 1];
    StoredLookup(b.state.checkpoints, channel, Checkpoint(page.epoch, last), channel);
    hide Canonical, Lookup, Stored, Num, CompareSequence, Distinct, Sequences;
  }
}
