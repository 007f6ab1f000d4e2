/** Reading moves on: what an honest hub answers can always be shown and committed, and repeated reads reach the end of
    the journal. */
module ReadProgress {
  import opened Options
  import opened Strings
  import opened Decimal
  import opened Channels
  import opened ChannelReads
  import opened GapFree
  import opened ReadOutcomes
  import opened ZeroBoundary

  /** A live read that goes on from its boundary may show any nonempty prefix: the commit is accepted, the boundary
      becomes the last record shown, and the records are returned. */
  lemma ShowAdvances(w: Reader, channel: Str, t: Ticket, shown: nat)
    requires Sound(w, channel) && t in w.asked && t in w.given && t.channel == channel && Live(w.state, t) && Continues(w, channel, t)
    requires w.state.busy[channel].epoch.Some? && shown > 0 && |w.given[t].page.messages| > 0
    ensures var page := w.given[t].page;
      var k := if shown < |page.messages| then shown else |page.messages|;
      var r := ApplyShow(w, channel, t, shown);
      && Accepts(w, t, shown) && r.returned == w.returned + page.messages[..k] && r.series == w.series
      && Lookup(r.state.checkpoints, channel) == Some(Checkpoint(page.epoch, page.messages[k - 1].seqno))
  {
    hide Sound, Commit, Release, Lookup, WellFormed, ForwardDelta, Num, Canonical, GivenFits, IsJournal, Sequences, Covered, Anchored, Live,
      ApplyShow, Upto, Ordered;
    var page := w.given[t].page;
    var k := if shown < |page.messages| then shown else |page.messages|;
    SoundParts(w, channel);
    ContinuedDelta(w, channel, t);
    var c := Lookup(w.state.checkpoints, channel);
    assert c.Some?;
    NotedEpoch(w, channel, t);
    PrefixCommits(w, channel, t, k);
    assert Boundary(page, shown) == Some(page.messages[k - 1].seqno);
    ShowStores(w, channel, t, shown);
    ShownIsContinued(w, channel, t, shown);
  }

  lemma NotedEpoch(w: Reader, channel: Str, t: Ticket)
    requires Sound(w, channel) && t in w.given && t.channel == channel && Live(w.state, t) && w.state.busy[channel].epoch.Some?
    ensures w.state.busy[channel].epoch == Some(w.given[t].page.epoch) && w.state.busy[channel].sequences == Sequences(w.given[t].page)
  {
    LiveGiven(w, channel, t);
    hide Sound, Live, Lookup, Segment, ForwardDelta, IsJournal, Sequences;
  }

  lemma PrefixCommits(w: Reader, channel: Str, t: Ticket, k: nat)
    requires WellFormed(w.state) && t in w.given && t.channel == channel && Live(w.state, t)
    requires var page := w.given[t].page; var c := Lookup(w.state.checkpoints, channel);
      && w.state.busy[channel].epoch == Some(page.epoch) && w.state.busy[channel].sequences == Sequences(page)
      && c.Some? && page.epoch in w.journals && IsJournal(w.journals[page.epoch]) && Canonical(c.value.after)
      && ForwardDelta(page.messages, w.journals[page.epoch], c.value.after) && 0 < k <= |page.messages|
    ensures var page := w.given[t].page; Commit(w.state, t, page.epoch, Some(page.messages[k - 1].seqno)).1
  {
    var page := w.given[t].page;
    var c := Lookup(w.state.checkpoints, channel).value;
    var n := page.messages[k - 1].seqno;
    DeltaIsLater(page.messages, w.journals[page.epoch], c.after, k - 1);
    assert Sequences(page)[k - 1] == n;
    assert Committable(w.state.busy[channel], page.epoch, Some(n), Some(c));
    CommitsExactly(w.state, t, page.epoch, Some(n));
  }

  lemma ShownIsContinued(w: Reader, channel: Str, t: Ticket, shown: nat)
    requires t in w.asked && t in w.given && t.channel == channel && Accepts(w, t, shown) && Continues(w, channel, t)
    ensures ApplyShow(w, channel, t, shown).series == w.series
  {
    hide Commit, Release, Lookup, Boundary, Continues;
  }

  /** What follows a boundary is numbered above it. */
  lemma DeltaIsLater(messages: seq<Message>, j: Journal, after: Str, i: nat)
    requires IsJournal(j) && Canonical(after) && ForwardDelta(messages, j, after) && i < |messages|
    ensures Canonical(messages[i].seqno) && messages[i].seqno != NONE && Num(messages[i].seqno) > Num(after)
  {
    hide Num, Canonical;
    var u := Upto(j, Num(after));
    assert messages[i] == j[u..][i] == j[u + i];
  }

  // --- A whole read ---

  /** The channel can be read on: it has a nonzero boundary, no read of it is busy and one can begin. */
  ghost predicate Readable(w: Reader, channel: Str) {
    && Sound(w, channel) && Begin(w.state, channel, New).Some?
    && Lookup(w.state.checkpoints, channel).Some? && Lookup(w.state.checkpoints, channel).value.after != NONE
  }

  function ReadOps(t: Ticket, channel: Str, page: Page, shown: nat): seq<Op> {
    [Ask(channel, New), Answer(t, page), Show(t, shown)]
  }

  /** One whole read, answered with something: it is honest, its records are returned and the boundary moves to the last
      one shown; nothing else of the channel is left behind. */
  lemma ReadAdvances(w: Reader, channel: Str, page: Page, shown: nat)
    requires Readable(w, channel) && shown > 0 && |page.messages| > 0
    requires var c := Lookup(w.state.checkpoints, channel).value;
      && page.epoch == c.epoch && c.epoch in w.journals && IsJournal(w.journals[c.epoch]) && Canonical(c.after)
      && ForwardDelta(page.messages, w.journals[c.epoch], c.after)
    ensures var ops := ReadOps(TicketOf(w, channel), channel, page, shown);
      var k := if shown < |page.messages| then shown else |page.messages|;
      var r := Run(w, channel, ops);
      && HonestRun(w, channel, ops) && Sound(r, channel) && r.journals == w.journals && r.returned == w.returned + page.messages[..k]
      && Lookup(r.state.checkpoints, channel) == Some(Checkpoint(page.epoch, page.messages[k - 1].seqno))
      && r.state.busy == w.state.busy && r.state.nextRequest == w.state.nextRequest + 1
  {
    var t := TicketOf(w, channel);
    var ops := ReadOps(t, channel, page, shown);
    var a := Apply(w, channel, ops[0]);
    var b := Apply(a, channel, ops[1]);
    assert ops[0] == Ask(channel, New) && ops[1] == Answer(t, page) && ops[2] == Show(t, shown);
    hide *;
    ReadAnswered(w, channel, page);
    AlwaysHonest(w, b, channel, t, shown);
    ReadShown(w, b, channel, t, page, shown);
    RunThree(w, channel, ops);
  }

  lemma AlwaysHonest(w: Reader, b: Reader, channel: Str, t: Ticket, shown: nat)
    ensures Honest(w, channel, Ask(channel, New)) && Honest(b, channel, Show(t, shown))
  {
  }

  /** The read between its answer and its showing, beside the reader it was begun from. */
  ghost predicate Answered(w: Reader, b: Reader, channel: Str, t: Ticket, page: Page) {
    && Sound(b, channel) && t in b.asked && t in b.given && b.given[t] == Delivered(page, false) && t.channel == channel
    && Live(b.state, t) && Continues(b, channel, t) && b.state.busy[channel].epoch.Some?
    && b.journals == w.journals && b.returned == w.returned
    && b.state.busy - {channel} == w.state.busy && b.state.nextRequest == w.state.nextRequest + 1
  }

  lemma ReadAnswered(w: Reader, channel: Str, page: Page)
    requires Readable(w, channel)
    requires var c := Lookup(w.state.checkpoints, channel).value;
      && page.epoch == c.epoch && c.epoch in w.journals && IsJournal(w.journals[c.epoch]) && Canonical(c.after)
      && ForwardDelta(page.messages, w.journals[c.epoch], c.after)
    ensures var t := TicketOf(w, channel);
      var a := Apply(w, channel, Ask(channel, New));
      && Honest(a, channel, Answer(t, page)) && Answered(w, Apply(a, channel, Answer(t, page)), channel, t, page)
  {
    var t := TicketOf(w, channel);
    var c := Lookup(w.state.checkpoints, channel).value;
    var a := Apply(w, channel, Ask(channel, New));
    Begun(w, channel);
    DeltaIsSegment(page.messages, w.journals[c.epoch], c.after);
    AskedIs(w, channel);
    hide Sound, Begin, Lookup, Apply, Live, WellFormed, IsJournal, Segment, ForwardDelta, Ordered, Sequences, Canonical, Note, Continues, Honest;
    DeltaAnswered(a, channel, t, page, c);
    StepSound(a, channel, Answer(t, page));
    NotedRead(a.state, t, page);
    NotedBusy(a.state, t, page);
    ContinuesNow(Apply(a, channel, Answer(t, page)), channel, t);
  }

  lemma AnsweredParts(w: Reader, b: Reader, channel: Str, t: Ticket, page: Page, shown: nat)
    requires Answered(w, b, channel, t, page)
    ensures && Sound(b, channel) && WellFormed(b.state) && t in b.asked && t in b.given && b.given[t] == Delivered(page, false)
            && t.channel == channel && Live(b.state, t) && Continues(b, channel, t) && b.state.busy[channel].epoch.Some?
            && b.journals == w.journals && b.returned == w.returned && b.state.busy - {channel} == w.state.busy
            && b.state.nextRequest == w.state.nextRequest + 1 && Honest(b, channel, Show(t, shown))
  {
    hide Sound, Live, Continues, WellFormed;
    SoundWell(b, channel);
  }

  lemma ReadShown(w: Reader, b: Reader, channel: Str, t: Ticket, page: Page, shown: nat)
    requires Answered(w, b, channel, t, page) && shown > 0 && |page.messages| > 0
    ensures var k := if shown < |page.messages| then shown else |page.messages|;
      var r := Apply(b, channel, Show(t, shown));
      && Sound(r, channel) && r.journals == w.journals && r.returned == w.returned + page.messages[..k]
      && Lookup(r.state.checkpoints, channel) == Some(Checkpoint(page.epoch, page.messages[k - 1].seqno))
      && r.state.busy == w.state.busy && r.state.nextRequest == w.state.nextRequest + 1
  {
    hide *;
    AnsweredParts(w, b, channel, t, page, shown);
    ShownEnds(b, channel, t, page, shown);
    StepSound(b, channel, Show(t, shown));
    ShowAdvances(b, channel, t, shown);
  }

  lemma ContinuesNow(b: Reader, channel: Str, t: Ticket)
    requires t in b.asked && t in b.given && b.asked[t].mode == New && b.asked[t].after != NONE && !b.given[t].reset
    requires Lookup(b.state.checkpoints, channel).Some?
    ensures Continues(b, channel, t)
  {
  }

  lemma AskedIs(w: Reader, channel: Str)
    requires Sound(w, channel) && Begin(w.state, channel, New).Some?
    ensures var a := Apply(w, channel, Ask(channel, New));
      && channel !in w.state.busy && a.state.busy - {channel} == w.state.busy && channel in a.state.busy
      && a.state.nextRequest == w.state.nextRequest + 1 && a.returned == w.returned && WellFormed(a.state) && Journals(a)
  {
    hide Sound, Lookup, Tickets, Reading, Covered, Anchored, ReadAfter;
    StepSound(w, channel, Ask(channel, New));
    SoundTickets(Apply(w, channel, Ask(channel, New)), channel);
    SoundWell(Apply(w, channel, Ask(channel, New)), channel);
    hide WellFormed, Journals;
    var a := Apply(w, channel, Ask(channel, New));
    assert a.state.busy - {channel} == w.state.busy;
  }

  lemma DeltaIsSegment(messages: seq<Message>, j: Journal, after: Str)
    requires IsJournal(j) && Canonical(after) && ForwardDelta(messages, j, after)
    ensures Segment(messages, j) && Ordered(messages)
  {
    hide Num, Canonical;
    var u := Upto(j, Num(after));
    assert messages == j[u..][..|messages|] == j[u..u + |messages|];
  }

  /** The honest answer is delivered without a reset. */
  lemma DeltaAnswered(a: Reader, channel: Str, t: Ticket, page: Page, c: Checkpoint)
    requires t in a.asked && a.asked[t] == Asked(New, c.after) && t !in a.given && t !in a.observed && t.channel == channel
    requires Live(a.state, t) && Lookup(a.state.checkpoints, channel) == Some(c) && page.epoch == c.epoch && Ordered(page.messages)
    requires Journals(a) && c.epoch in a.journals && IsJournal(a.journals[c.epoch]) && Segment(page.messages, a.journals[c.epoch])
    requires Canonical(c.after) && ForwardDelta(page.messages, a.journals[c.epoch], c.after)
    ensures Honest(a, channel, Answer(t, page))
    ensures Apply(a, channel, Answer(t, page)) == a.(state := Note(a.state, t, page), given := a.given[t := Delivered(page, false)])
  {
    hide Ordered, Lookup, Live, Note, Segment, ForwardDelta, Canonical;
  }

  lemma ShownEnds(b: Reader, channel: Str, t: Ticket, page: Page, shown: nat)
    requires WellFormed(b.state) && t in b.asked && t in b.given && t.channel == channel && Live(b.state, t)
    ensures var r := Apply(b, channel, Show(t, shown));
      && r == ApplyShow(b, channel, t, shown) && r.journals == b.journals
      && r.state.busy == b.state.busy - {channel} && r.state.nextRequest == b.state.nextRequest
  {
    hide Commit, Lookup, WellFormed, Boundary, Prefix, Continues;
    var given := b.given[t].page;
    CommitReleases(b.state, t, given.epoch, Boundary(given, shown));
    CommitOnlyRemoves(b.state, t, given.epoch, Boundary(given, shown));
    ReleasesExactly(b.state, t);
  }

  lemma NotedBusy(s: ReadState, t: Ticket, page: Page)
    requires Live(s, t)
    ensures var r := Note(s, t, page); r.busy - {t.channel} == s.busy - {t.channel} && r.nextRequest == s.nextRequest
  {
  }

  lemma RunThree(w: Reader, channel: Str, ops: seq<Op>)
    requires |ops| == 3
    ensures var a := Apply(w, channel, ops[0]); var b := Apply(a, channel, ops[1]);
      && Run(w, channel, ops) == Apply(b, channel, ops[2])
      && (HonestRun(w, channel, ops) <==> Honest(w, channel, ops[0]) && Honest(a, channel, ops[1]) && Honest(b, channel, ops[2]))
  {
    hide Apply, Honest;
    RunAppend(w, channel, [ops[0]], [ops[1], ops[2]]);
    RunOne(w, channel, ops[0]);
    var a := Apply(w, channel, ops[0]);
    RunAppend(a, channel, [ops[1]], [ops[2]]);
    RunOne(a, channel, ops[1]);
    RunOne(Apply(a, channel, ops[1]), channel, ops[2]);
    assert [ops[0]] + [ops[1], ops[2]] == ops && [ops[1]] + [ops[2]] == [ops[1], ops[2]];
  }

  // --- Repeated reads ---

  /** Between reads: the channel's boundary in the journal of its epoch, and no read of it busy. */
  ghost predicate Resting(w: Reader, channel: Str, j: Journal, epoch: Str, after: Str) {
    && Sound(w, channel) && channel !in w.state.busy && |w.state.busy| < MAX_TRACKED_READS
    && Lookup(w.state.checkpoints, channel) == Some(Checkpoint(epoch, after)) && after != NONE && Canonical(after)
    && epoch in w.journals && w.journals[epoch] == j && IsJournal(j)
  }

  /** What is left of the journal after a boundary. */
  ghost function Left(j: Journal, after: Str): Journal
    requires Ordered(j)
  {
    j[Upto(j, Num(after))..]
  }

  /** The page of the next messages, 32 at most. */
  ghost function NextPage(j: Journal, channel: Str, epoch: Str, after: Str): Page
    requires Ordered(j)
  {
    var left := Left(j, after);
    Page(epoch, channel, NONE, NONE, Complete, true, if |left| < TAIL then left else left[..TAIL])
  }

  lemma NextIsDelta(j: Journal, channel: Str, epoch: Str, after: Str)
    requires IsJournal(j) && Canonical(after) && |Left(j, after)| != 0
    ensures var page := NextPage(j, channel, epoch, after); var n := |page.messages|;
      && page.epoch == epoch && 0 < n <= |Left(j, after)| && page.messages == Left(j, after)[..n] && ForwardDelta(page.messages, j, after)
      && var last := page.messages[n - 1].seqno;
      last == Left(j, after)[n - 1].seqno && last != NONE && Canonical(last) && Left(j, last) == Left(j, after)[n..]
  {
    hide Num, Canonical, Upto;
    var u := Upto(j, Num(after));
    var n := |NextPage(j, channel, epoch, after).messages|;
    assert j[u..][..n] == j[u..u + n] && j[u..][n - 1] == j[u + n - 1];
    UptoOwn(j, u + n - 1);
    assert j[u + n..] == j[u..][n..];
  }

  lemma RestingReads(w: Reader, channel: Str, j: Journal, epoch: Str, after: Str)
    requires Resting(w, channel, j, epoch, after) && w.state.nextRequest < MAX_SAFE_INTEGER
    ensures && Readable(w, channel) && Canonical(after) && IsJournal(j) && Ordered(j) && epoch in w.journals && w.journals[epoch] == j
            && Begin(w.state, channel, New).Some?
            && Lookup(w.state.checkpoints, channel) == Some(Checkpoint(epoch, after))
  {
    hide Sound, Lookup, Canonical, Ordered;
    BeginsExactly(w.state, channel, New);
  }

  lemma RestsAgain(w: Reader, r: Reader, channel: Str, j: Journal, epoch: Str, after: Str, last: Str)
    requires Resting(w, channel, j, epoch, after) && Sound(r, channel) && r.journals == w.journals && r.state.busy == w.state.busy
    requires Lookup(r.state.checkpoints, channel) == Some(Checkpoint(epoch, last)) && last != NONE && Canonical(last)
    ensures Resting(r, channel, j, epoch, last)
  {
    hide Sound, Lookup, Canonical, Ordered;
  }

  /** One whole read answered with that page shows all of it. */
  lemma NextRead(w: Reader, channel: Str, j: Journal, epoch: Str, after: Str)
    requires Resting(w, channel, j, epoch, after) && |Left(j, after)| != 0 && w.state.nextRequest < MAX_SAFE_INTEGER
    ensures var page := NextPage(j, channel, epoch, after); var n := |page.messages|;
      var ops := ReadOps(TicketOf(w, channel), channel, page, n); var r := Run(w, channel, ops);
      && HonestRun(w, channel, ops) && 0 < n <= |Left(j, after)| && Resting(r, channel, j, epoch, Left(j, after)[n - 1].seqno)
      && r.journals == w.journals && r.state.nextRequest == w.state.nextRequest + 1 && r.returned == w.returned + Left(j, after)[..n]
      && Left(j, Left(j, after)[n - 1].seqno) == Left(j, after)[n..]
  {
    hide *;
    RestingReads(w, channel, j, epoch, after);
    NextIsDelta(j, channel, epoch, after);
    var page := NextPage(j, channel, epoch, after);
    var n := |page.messages|;
    ReadAdvances(w, channel, page, n);
    assert page.messages[..n] == page.messages;
    RestsAgain(w, Run(w, channel, ReadOps(TicketOf(w, channel), channel, page, n)), channel, j, epoch, after, page.messages[n - 1].seqno);
  }

  /** Repeated whole reads, each answered with the next 32 messages at most, return the rest of the journal and leave the
      boundary at its end. */
  lemma {:induction false} ReadsReachTheEnd(w: Reader, channel: Str, j: Journal, epoch: Str, after: Str) returns (ops: seq<Op>)
    requires Resting(w, channel, j, epoch, after) && w.state.nextRequest + |Left(j, after)| <= MAX_SAFE_INTEGER
    ensures HonestRun(w, channel, ops)
    ensures var r := Run(w, channel, ops);
      && r.journals == w.journals && r.returned == w.returned + Left(j, after)
      && Resting(r, channel, j, epoch, if Left(j, after) == [] then after else j[|j| - 1].seqno)
    decreases |Left(j, after)|
  {
    hide *;
    RestsOrdered(w, channel, j, epoch, after);
    if |Left(j, after)| == 0 {
      ops := [];
      NoOps(w, channel);
      assert w.returned + [] == w.returned;
    } else {
      var left := Left(j, after);
      RestingReads(w, channel, j, epoch, after);
      LeftEnds(j, after);
      var n := |NextPage(j, channel, epoch, after).messages|;
      var first := ReadOps(TicketOf(w, channel), channel, NextPage(j, channel, epoch, after), n);
      NextRead(w, channel, j, epoch, after);
      var more := ReadsReachTheEnd(Run(w, channel, first), channel, j, epoch, left[n - 1].seqno);
      ops := first + more;
      RunAppend(w, channel, first, more);
      assert left[..n] + left[n..] == left;
      assert w.returned + left[..n] + left[n..] == w.returned + left;
      assert left[n..] == [] ==> left[n - 1] == left[|left| - 1];
    }
  }

  lemma RestsOrdered(w: Reader, channel: Str, j: Journal, epoch: Str, after: Str)
    requires Resting(w, channel, j, epoch, after)
    ensures Ordered(j)
  {
    hide Sound, Lookup, Canonical, Ordered;
  }

  lemma NoOps(w: Reader, channel: Str)
    ensures Run(w, channel, []) == w && HonestRun(w, channel, [])
  {
    hide Apply, Honest;
  }

  lemma LeftEnds(j: Journal, after: Str)
    requires Ordered(j) && |Left(j, after)| != 0
    ensures |j| != 0 && Left(j, after)[|Left(j, after)| - 1] == j[|j| - 1]
  {
    hide Num, Ordered;
  }
}
