/** Successive `mode:new` reads of one channel return its journal without gaps or repeats
    (extension/channel-read-state.ts, extension/runtime.ts, extension/tools.ts). */
module GapFree {
  import opened Options
  import opened Strings
  import opened Decimal
  import opened Channels
  import opened ChannelReads

  // --- The hub: one append-only journal per epoch ---

  type Journal = seq<Message>

  ghost predicate IsJournal(j: Journal) {
    Ordered(j) && forall i :: 0 <= i < |j| ==> j[i].seqno != NONE
  }

  /** How many messages have a sequence up to `n`. */
  ghost function Upto(j: Journal, n: nat): (k: nat)
    requires Ordered(j)
    ensures k <= |j|
    ensures forall i :: 0 <= i < k ==> Num(j[i].seqno) <= n
    ensures forall i :: k <= i < |j| ==> Num(j[i].seqno) > n
  {
    if |j| == 0 then 0
    else
      var last := |j| - 1;
      if Num(j[last].seqno) <= n then
        |j|
      else
        assert j[..last] + [j[last]] == j;
        Upto(j[..last], n)
  }

  lemma UptoUnique(j: Journal, n: nat, k: nat)
    requires Ordered(j) && k <= |j|
    requires forall i :: 0 <= i < k ==> Num(j[i].seqno) <= n
    requires forall i :: k <= i < |j| ==> Num(j[i].seqno) > n
    ensures Upto(j, n) == k
  {
    hide Num;
    var r := Upto(j, n);
    assert r < |j| ==> Num(j[r].seqno) > n;
    assert k < |j| ==> Num(j[k].seqno) > n;
  }

  /** The message at an index is the last one up to its own sequence. */
  lemma UptoOwn(j: Journal, i: nat)
    requires Ordered(j) && i < |j|
    ensures Upto(j, Num(j[i].seqno)) == i + 1
  {
    hide Num, Upto, Canonical;
    var n := Num(j[i].seqno);
    forall k | 0 <= k < i + 1 ensures Num(j[k].seqno) <= n {
      assert k == i || Num(j[k].seqno) < Num(j[i].seqno);
    }
    forall k | i + 1 <= k < |j| ensures Num(j[k].seqno) > n {
      assert Num(j[i].seqno) < Num(j[k].seqno);
    }
    UptoUnique(j, n, i + 1);
  }

  /** A sequence some message of the journal carries. */
  ghost predicate Carried(j: Journal, s: Str) {
    exists i :: 0 <= i < |j| && j[i].seqno == s
  }

  /** Later messages do not move the boundary of an earlier one. */
  lemma UptoAppend(j: Journal, m: Message, s: Str)
    requires Ordered(j) && Ordered(j + [m]) && Carried(j, s)
    ensures Canonical(s) && Upto(j + [m], Num(s)) == Upto(j, Num(s)) && Carried(j + [m], s)
  {
    var i :| 0 <= i < |j| && j[i].seqno == s;
    UptoOwn(j, i);
    assert (j + [m])[i] == j[i];
    UptoOwn(j + [m], i);
  }

  ghost predicate Segment(messages: seq<Message>, j: Journal) {
    exists a, b :: 0 <= a <= b <= |j| && messages == j[a..b]
  }

  /** What follows a boundary, or a prefix of it: the hub's forward delta. */
  ghost predicate ForwardDelta(messages: seq<Message>, j: Journal, after: Str)
    requires Ordered(j) && Canonical(after)
  {
    messages <= j[Upto(j, Num(after))..]
  }

  // --- The reader ---

  datatype Asked = Asked(mode: Mode, after: Str)

  datatype Delivered = Delivered(page: Page, reset: bool)

  /** The runtime's read state with, for each ticket, what it asked, the epoch whose tail it fetches after an epoch
      change, and what it was given; and for the watched channel the number of the current series of reads, the
      boundary it started from and the records it returned. */
  datatype Reader = Reader(nonce: nat, state: ReadState, asked: map<Ticket, Asked>, observed: map<Ticket, Str>,
                           given: map<Ticket, Delivered>, journals: map<Str, Journal>,
                           series: nat, base: Str, returned: seq<Message>)

  datatype Op =
    | Post(epoch: Str, message: Message)
    | Ask(channel: Str, mode: Mode)
    | Answer(ticket: Ticket, primary: Page)
    | Tail(ticket: Ticket, tail: Page)
    | Show(ticket: Ticket, shown: nat)
    | Abandon(ticket: Ticket)
    | Drop
    | Replace

  /** The answer to a read's request: the page is delivered, or the tail is fetched after an epoch change, or the
      ticket is given back. */
  function ApplyAnswer(w: Reader, t: Ticket, primary: Page): Reader
    requires t in w.asked
  {
    match AssessPrimary(w.state, t, w.asked[t].mode, primary)
    case Fail => w.(state := Release(w.state, t))
    case Deliver(reset) => w.(state := Note(w.state, t, primary), given := w.given[t := Delivered(primary, reset)])
    case Refetch => w.(observed := w.observed[t := primary.epoch])
  }

  /** The answer to the tail request, which other steps may have preceded. */
  function ApplyTail(w: Reader, t: Ticket, tail: Page): Reader
    requires t in w.observed
  {
    match AssessTail(w.state, t, tail, w.observed[t])
    case Deliver(_) => w.(state := Note(w.state, t, tail), given := w.given[t := Delivered(tail, true)])
    case _ => w.(state := Release(w.state, t))
  }

  /** The boundary of a shown prefix; the tool commits it, or an empty page, and nothing else. */
  function Boundary(page: Page, shown: nat): Option<Str> {
    var k := if shown < |page.messages| then shown else |page.messages|;
    if k == 0 then None else Some(page.messages[k - 1].seqno)
  }

  function Prefix(page: Page, shown: nat): seq<Message> {
    if shown < |page.messages| then page.messages[..shown] else page.messages
  }

  /** A read of `channel` that goes on from the stored boundary rather than starting a new series. */
  predicate Continues(w: Reader, channel: Str, t: Ticket)
    requires t in w.asked && t in w.given
  {
    && w.asked[t].mode == New && w.asked[t].after != NONE && !w.given[t].reset
    && Lookup(w.state.checkpoints, channel).Some?
  }

  function ApplyShow(w: Reader, channel: Str, t: Ticket, shown: nat): Reader
    requires t in w.asked && t in w.given
  {
    var page := w.given[t].page;
    var through := Boundary(page, shown);
    if through.None? && |page.messages| != 0 then w.(state := Release(w.state, t))
    else
      var (s, ok) := Commit(w.state, t, page.epoch, through);
      var next := w.(state := Release(s, t));
      if !ok || t.channel != channel then next
      else if Continues(w, channel, t) then next.(returned := w.returned + Prefix(page, shown))
      else
        var c := Lookup(s.checkpoints, channel);
        next.(series := w.series + 1, base := if c.Some? then c.value.after else NONE, returned := [])
  }

  function Apply(w: Reader, channel: Str, op: Op): Reader {
    match op
    case Post(epoch, m) =>
      w.(journals := w.journals[epoch := (if epoch in w.journals then w.journals[epoch] else []) + [m]])
    case Ask(c, mode) =>
      var r := Begin(w.state, c, mode);
      if r.None? then w
      else w.(state := r.value.0, asked := w.asked[r.value.1 := Asked(mode, ReadAfter(r.value.0, c, mode, true))])
    case Answer(t, primary) => if t !in w.asked || t in w.observed || t in w.given then w else ApplyAnswer(w, t, primary)
    case Tail(t, tail) => if t !in w.observed || t in w.given then w else ApplyTail(w, t, tail)
    case Show(t, shown) => if t !in w.asked || t !in w.given then w else ApplyShow(w, channel, t, shown)
    case Abandon(t) => w.(state := Release(w.state, t))
    case Drop => w.(nonce := w.nonce + 1, state := Invalidate(w.state, w.nonce + 1))
    case Replace => w.(nonce := w.nonce + 1, state := EmptyState(w.nonce + 1))
  }

  /** An honest hub: journals only grow, in order; a read from a boundary gets what follows it, as many
      records as the hub likes; a read without one gets any window. No claim is made about other channels. */
  ghost predicate Honest(w: Reader, channel: Str, op: Op) {
    match op
    case Post(epoch, m) => IsJournal((if epoch in w.journals then w.journals[epoch] else []) + [m])
    case Answer(t, primary) =>
      t in w.asked && t.channel == channel ==>
        && Journals(w) && primary.epoch in w.journals && Segment(primary.messages, w.journals[primary.epoch])
        && (w.asked[t].after != NONE && Canonical(w.asked[t].after) ==>
              ForwardDelta(primary.messages, w.journals[primary.epoch], w.asked[t].after))
    case Tail(t, tail) =>
      t in w.asked && t.channel == channel ==> tail.epoch in w.journals && Segment(tail.messages, w.journals[tail.epoch])
    case _ => true
  }

  // --- The invariant ---

  ghost predicate Tickets(w: Reader) {
    && WellFormed(w.state) && w.state.context == w.nonce
    && (forall t :: t in w.asked ==> t.context <= w.nonce && (t.context == w.nonce ==> t.request <= w.state.nextRequest))
    && (forall c :: c in w.state.busy ==> w.state.busy[c].ticket in w.asked)
    && (forall t :: t in w.given ==> t in w.asked) && (forall t :: t in w.observed ==> t in w.asked)
  }

  /** What is known about the live read of the watched channel. */
  ghost predicate Reading(w: Reader, channel: Str) {
    channel in w.state.busy ==>
      var b := w.state.busy[channel];
      var t := b.ticket;
      var c := Lookup(w.state.checkpoints, channel);
      && t in w.asked && b.mode == w.asked[t].mode
      && (b.mode == New && c.Some? ==> w.asked[t].after == c.value.after)
      && (b.epoch.None? ==> t !in w.given)
      && (b.epoch.Some? ==> t in w.given && GivenFits(w, channel, t))
  }

  ghost predicate GivenFits(w: Reader, channel: Str, t: Ticket)
    requires t in w.asked && t in w.given && channel in w.state.busy
  {
    var b := w.state.busy[channel];
    var page := w.given[t].page;
    var c := Lookup(w.state.checkpoints, channel);
    && b.epoch == Some(page.epoch) && b.sequences == Sequences(page)
    && page.epoch in w.journals && IsJournal(w.journals[page.epoch])
    && Segment(page.messages, w.journals[page.epoch])
    && (b.mode == New && c.Some? && c.value.after != NONE && !w.given[t].reset ==>
          && c.value.epoch == page.epoch && Canonical(c.value.after)
          && ForwardDelta(page.messages, w.journals[page.epoch], c.value.after))
  }

  /** The records returned since the series began are the journal from its start to the checkpoint. */
  ghost predicate Covered(w: Reader, channel: Str) {
    var c := Lookup(w.state.checkpoints, channel);
    c.Some? && c.value.after != NONE ==>
      && c.value.epoch in w.journals
      && var j := w.journals[c.value.epoch];
      && IsJournal(j) && Carried(j, c.value.after) && Carried(j, w.base)
      && Canonical(w.base) && Canonical(c.value.after)
      && Upto(j, Num(w.base)) <= Upto(j, Num(c.value.after))
      && w.returned == j[Upto(j, Num(w.base))..Upto(j, Num(c.value.after))]
  }

  /** Only a series that started at no boundary is at no boundary. */
  ghost predicate Anchored(w: Reader, channel: Str) {
    var c := Lookup(w.state.checkpoints, channel);
    c.Some? && c.value.after == NONE ==> w.base == NONE
  }

  ghost predicate Journals(w: Reader) {
    forall e :: e in w.journals ==> IsJournal(w.journals[e])
  }

  ghost predicate Sound(w: Reader, channel: Str) {
    Tickets(w) && Journals(w) && Reading(w, channel) && Covered(w, channel) && Anchored(w, channel)
  }

  // --- One lemma per step ---

  lemma LiveTicket(w: Reader, t: Ticket)
    requires Tickets(w)
    ensures Live(w.state, t) <==> t.channel in w.state.busy && w.state.busy[t.channel].ticket == t
  {
  }

  /** Coverage depends on the journals, the log and the checkpoint only. */
  lemma CoveredFrame(w: Reader, r: Reader, channel: Str)
    requires Covered(w, channel) && r.journals == w.journals && r.base == w.base && r.returned == w.returned
    requires Lookup(r.state.checkpoints, channel) in {None, Lookup(w.state.checkpoints, channel)}
    ensures Covered(r, channel)
    ensures Anchored(w, channel) ==> Anchored(r, channel)
  {
  }

  /** So does what is known of a delivered page, with the channel's own read. */
  lemma GivenFrame(w: Reader, r: Reader, channel: Str)
    requires channel in w.state.busy && channel in r.state.busy && r.state.busy[channel] == w.state.busy[channel]
    requires var t := w.state.busy[channel].ticket;
      && t in w.asked && t in w.given && t in r.asked && t in r.given && r.given[t] == w.given[t]
      && GivenFits(w, channel, t)
    requires r.journals == w.journals
    requires Lookup(r.state.checkpoints, channel) in {None, Lookup(w.state.checkpoints, channel)}
    ensures GivenFits(r, channel, w.state.busy[channel].ticket)
  {
  }

  ghost function Grown(w: Reader, epoch: Str, m: Message): Reader {
    w.(journals := w.journals[epoch := (if epoch in w.journals then w.journals[epoch] else []) + [m]])
  }

  lemma PostKeepsCovered(w: Reader, channel: Str, epoch: Str, m: Message)
    requires Journals(w) && Covered(w, channel) && Journals(Grown(w, epoch, m))
    ensures Covered(Grown(w, epoch, m), channel)
  {
    hide Num, Upto, Lookup;
    var c := Lookup(w.state.checkpoints, channel);
    if c.Some? && c.value.after != NONE && c.value.epoch == epoch {
      var j := w.journals[epoch];
      UptoAppend(j, m, c.value.after);
      UptoAppend(j, m, w.base);
    }
  }

  lemma PostKeepsGiven(w: Reader, channel: Str, epoch: Str, m: Message, t: Ticket)
    requires Journals(w) && Covered(w, channel) && Journals(Grown(w, epoch, m))
    requires channel in w.state.busy && t in w.asked && t in w.given && GivenFits(w, channel, t)
    ensures GivenFits(Grown(w, epoch, m), channel, t)
  {
    hide Num, Upto, Lookup, Sequences, Ordered;
    var page := w.given[t].page;
    if page.epoch == epoch {
      var j := w.journals[epoch];
      SegmentAppend(page.messages, j, m);
      var c := Lookup(w.state.checkpoints, channel);
      if c.Some? && c.value.after != NONE && c.value.epoch == epoch {
        UptoAppend(j, m, c.value.after);
        var u := Upto(j, Num(c.value.after));
        assert (j + [m])[u..] == j[u..] + [m];
      }
    }
  }

  lemma PostSound(w: Reader, channel: Str, epoch: Str, m: Message)
    requires Sound(w, channel) && Honest(w, channel, Post(epoch, m))
    ensures Sound(Apply(w, channel, Post(epoch, m)), channel)
  {
    hide WellFormed, Lookup, GivenFits, Covered, IsJournal;
    assert Journals(Grown(w, epoch, m));
    PostKeepsCovered(w, channel, epoch, m);
    if channel in w.state.busy && w.state.busy[channel].epoch.Some? {
      PostKeepsGiven(w, channel, epoch, m, w.state.busy[channel].ticket);
    }
  }

  lemma SegmentAppend(messages: seq<Message>, j: Journal, m: Message)
    requires Segment(messages, j)
    ensures Segment(messages, j + [m])
  {
    var a, b :| 0 <= a <= b <= |j| && messages == j[a..b];
    assert (j + [m])[a..b] == j[a..b];
  }

  /** A ticket handed out now was never handed out before. */
  lemma AskIsFresh(w: Reader, c: Str, mode: Mode)
    requires Tickets(w) && Begin(w.state, c, mode).Some?
    ensures Begin(w.state, c, mode).value.1 !in w.asked
  {
    hide WellFormed;
  }

  lemma AskKeepsTickets(w: Reader, channel: Str, c: Str, mode: Mode)
    requires Tickets(w) && Begin(w.state, c, mode).Some?
    ensures Tickets(Apply(w, channel, Ask(c, mode)))
  {
    BeginMeaning(w.state, c, mode);
    hide WellFormed, Lookup;
  }

  lemma AskKeepsReading(w: Reader, channel: Str, c: Str, mode: Mode)
    requires Tickets(w) && Reading(w, channel) && Begin(w.state, c, mode).Some?
    ensures Reading(Apply(w, channel, Ask(c, mode)), channel)
  {
    AskIsFresh(w, c, mode);
    hide WellFormed, Lookup, GivenFits;
    var next := Apply(w, channel, Ask(c, mode));
    if c != channel && channel in w.state.busy && w.state.busy[channel].epoch.Some? {
      GivenFrame(w, next, channel);
    }
  }

  lemma AskSound(w: Reader, channel: Str, c: Str, mode: Mode)
    requires Sound(w, channel)
    ensures Sound(Apply(w, channel, Ask(c, mode)), channel)
  {
    hide WellFormed, Lookup, GivenFits, Covered, IsJournal, Reading, Tickets;
    if Begin(w.state, c, mode).Some? {
      AskKeepsTickets(w, channel, c, mode);
      AskKeepsReading(w, channel, c, mode);
      CoveredFrame(w, Apply(w, channel, Ask(c, mode)), channel);
    }
  }

  lemma ReleaseOnlyRemoves(s: ReadState, t: Ticket)
    requires WellFormed(s)
    ensures var r := Release(s, t);
      && WellFormed(r) && r.context == s.context && r.nextRequest == s.nextRequest && r.checkpoints == s.checkpoints
      && (forall c :: c in r.busy ==> c in s.busy && r.busy[c] == s.busy[c])
  {
    var r := Release(s, t);
    assert r.busy.Keys <= s.busy.Keys;
    SubsetSize(r.busy.Keys, s.busy.Keys);
  }

  /** Removing reads, and at worst losing the watched channel's checkpoint, keeps everything known. */
  lemma ShrinkSound(w: Reader, r: Reader, channel: Str)
    requires Sound(w, channel)
    requires r == w.(state := r.state)
    requires WellFormed(r.state) && r.state.context == w.state.context && r.state.nextRequest == w.state.nextRequest
    requires forall c :: c in r.state.busy ==> c in w.state.busy && r.state.busy[c] == w.state.busy[c]
    requires Lookup(r.state.checkpoints, channel) in {None, Lookup(w.state.checkpoints, channel)}
    ensures Sound(r, channel)
  {
    hide WellFormed, Lookup, GivenFits, Covered;
    CoveredFrame(w, r, channel);
    if channel in r.state.busy && r.state.busy[channel].epoch.Some? {
      GivenFrame(w, r, channel);
    }
  }

  lemma AbandonSound(w: Reader, channel: Str, t: Ticket)
    requires Sound(w, channel)
    ensures Sound(w.(state := Release(w.state, t)), channel)
  {
    ReleaseOnlyRemoves(w.state, t);
    ShrinkSound(w, w.(state := Release(w.state, t)), channel);
  }

  lemma DropSound(w: Reader, channel: Str, s: ReadState)
    requires Sound(w, channel) && s.context == w.nonce + 1 && s.checkpoints == [] && s.busy == map[]
    ensures Sound(w.(nonce := w.nonce + 1, state := s), channel)
  {
    assert Lookup([], channel) == None;
  }

  /** The state after noting a page under a live ticket. */
  lemma NoteOnlyNotes(s: ReadState, t: Ticket, page: Page)
    requires WellFormed(s) && Live(s, t)
    ensures var r := Note(s, t, page);
      && WellFormed(r) && r.context == s.context && r.nextRequest == s.nextRequest && r.checkpoints == s.checkpoints
      && s.busy[t.channel].ticket == t
      && r.busy == s.busy[t.channel := BusyRead(t, s.busy[t.channel].mode, Some(page.epoch), Sequences(page))]
      && (forall c :: c in s.busy && c != t.channel ==> s.busy[c].ticket != t)
  {
    var r := Note(s, t, page);
    assert s.busy[t.channel].ticket == t;
    assert r.busy.Keys == s.busy.Keys;
    assert forall c :: c in s.busy ==> r.busy[c].ticket == s.busy[c].ticket;
    hide Sequences;
  }

  ghost function Handed(w: Reader, t: Ticket, d: Delivered): Reader {
    w.(state := Note(w.state, t, d.page), given := w.given[t := d])
  }

  /** What an honest answer assessed as deliverable is. */
  ghost predicate Fits(w: Reader, channel: Str, t: Ticket, d: Delivered)
    requires t in w.asked
  {
    var c := Lookup(w.state.checkpoints, channel);
    && d.page.epoch in w.journals && IsJournal(w.journals[d.page.epoch])
    && Segment(d.page.messages, w.journals[d.page.epoch])
    && (w.asked[t].mode == New && c.Some? && c.value.after != NONE && !d.reset ==>
          && c.value.epoch == d.page.epoch && Canonical(c.value.after)
          && ForwardDelta(d.page.messages, w.journals[d.page.epoch], c.value.after))
  }

  lemma HandedSound(w: Reader, channel: Str, t: Ticket, d: Delivered)
    requires Sound(w, channel) && t in w.asked && Live(w.state, t)
    requires t.channel == channel ==> Fits(w, channel, t, d)
    ensures Sound(Handed(w, t, d), channel)
  {
    hide WellFormed, Lookup, Covered, Sequences, IsJournal, Segment, ForwardDelta, Reading, Fits;
    NoteOnlyNotes(w.state, t, d.page);
    hide Note;
    var r := Handed(w, t, d);
    CoveredFrame(w, r, channel);
    HandedKeepsReading(w, channel, t, d);
  }

  lemma HandedKeepsReading(w: Reader, channel: Str, t: Ticket, d: Delivered)
    requires Sound(w, channel) && t in w.asked && Live(w.state, t)
    requires t.channel == channel ==> Fits(w, channel, t, d)
    ensures Reading(Handed(w, t, d), channel)
  {
    hide WellFormed, Lookup, Covered, Note, Sequences, Segment, ForwardDelta, Anchored, IsJournal;
    NoteOnlyNotes(w.state, t, d.page);
    var r := Handed(w, t, d);
    if t.channel != channel && channel in w.state.busy && w.state.busy[channel].epoch.Some? {
      GivenFrame(w, r, channel);
    }
  }

  lemma PrimaryFits(w: Reader, channel: Str, t: Ticket, primary: Page)
    requires Sound(w, channel) && t in w.asked && t.channel == channel && Live(w.state, t)
    requires Honest(w, channel, Answer(t, primary))
    requires AssessPrimary(w.state, t, w.asked[t].mode, primary).Deliver?
    ensures Fits(w, channel, t, Delivered(primary, AssessPrimary(w.state, t, w.asked[t].mode, primary).reset))
  {
    var c := Lookup(w.state.checkpoints, channel);
    LiveTicket(w, t);
    if c.Some? {
      LookupCanonical(w.state.checkpoints, channel);
    }
    hide WellFormed, Covered, Segment, ForwardDelta, Ordered, Lookup;
  }

  lemma AnswerSound(w: Reader, channel: Str, t: Ticket, primary: Page)
    requires Sound(w, channel) && Honest(w, channel, Answer(t, primary))
    ensures Sound(Apply(w, channel, Answer(t, primary)), channel)
  {
    hide WellFormed, Lookup, Covered, Segment, ForwardDelta, Ordered, Reading, Note, Release;
    if t in w.asked && t !in w.observed && t !in w.given {
      AbandonSound(w, channel, t);
      var a := AssessPrimary(w.state, t, w.asked[t].mode, primary);
      if a.Deliver? {
        if t.channel == channel {
          PrimaryFits(w, channel, t, primary);
        }
        HandedSound(w, channel, t, Delivered(primary, a.reset));
      } else if a.Refetch? {
        ObservedSound(w, channel, t, primary.epoch);
      }
    }
  }

  /** Waiting for the tail changes nothing that is known. */
  lemma ObservedSound(w: Reader, channel: Str, t: Ticket, epoch: Str)
    requires Sound(w, channel) && t in w.asked
    ensures Sound(w.(observed := w.observed[t := epoch]), channel)
  {
    hide WellFormed, Lookup;
    var r := w.(observed := w.observed[t := epoch]);
    CoveredFrame(w, r, channel);
    if channel in w.state.busy && w.state.busy[channel].epoch.Some? {
      GivenFrame(w, r, channel);
    }
    hide Covered, GivenFits;
  }

  lemma TailSound(w: Reader, channel: Str, t: Ticket, tail: Page)
    requires Sound(w, channel) && Honest(w, channel, Tail(t, tail))
    ensures Sound(Apply(w, channel, Tail(t, tail)), channel)
  {
    hide WellFormed, Lookup, Covered, Segment, ForwardDelta, Ordered, Reading, Note, Release;
    if t in w.observed && t !in w.given {
      AbandonSound(w, channel, t);
      if AssessTail(w.state, t, tail, w.observed[t]).Deliver? {
        HandedSound(w, channel, t, Delivered(tail, true));
      }
    }
  }

  /** The state after a tool commit and release: the read is gone, other reads are untouched. */
  lemma CommitAndRelease(s: ReadState, t: Ticket, epoch: Str, through: Option<Str>, channel: Str)
    requires WellFormed(s)
    ensures var r := Release(Commit(s, t, epoch, through).0, t);
      && WellFormed(r) && r.context == s.context && r.nextRequest == s.nextRequest
      && r.checkpoints == Commit(s, t, epoch, through).0.checkpoints
      && (forall c :: c in r.busy ==> c in s.busy && r.busy[c] == s.busy[c])
      && (Live(s, t) ==> t.channel !in r.busy)
      && (channel != t.channel ==> Lookup(r.checkpoints, channel) in {None, Lookup(s.checkpoints, channel)})
  {
    CommitKeepsWellFormed(s, t, epoch, through, channel);
    CommitOnlyRemoves(s, t, epoch, through);
    CommitSpends(s, t, epoch, through);
    ReleaseOnlyRemoves(Commit(s, t, epoch, through).0, t);
    hide Commit, Lookup;
    var r := Release(Commit(s, t, epoch, through).0, t);
    assert t.channel in r.busy ==> r.busy[t.channel] == s.busy[t.channel];
  }

  /** The page a live ticket of the watched channel was given. */
  lemma LiveGiven(w: Reader, channel: Str, t: Ticket)
    requires Sound(w, channel) && t.channel == channel && Live(w.state, t) && t in w.given
    requires w.state.busy[channel].epoch.Some?
    ensures t in w.asked && w.state.busy[channel].ticket == t && GivenFits(w, channel, t)
    ensures w.state.busy[channel].mode == w.asked[t].mode
    ensures w.asked[t].mode == New && Lookup(w.state.checkpoints, channel).Some? ==>
              w.asked[t].after == Lookup(w.state.checkpoints, channel).value.after
  {
    LiveTicket(w, t);
    hide GivenFits, Lookup, WellFormed, Covered;
  }

  /** A prefix of a forward delta, appended, extends the covered slice of the journal. */
  lemma DeltaExtends(j: Journal, base: Str, after: Str, messages: seq<Message>, k: nat)
    requires IsJournal(j) && Canonical(base) && Canonical(after) && ForwardDelta(messages, j, after)
    requires 0 < k <= |messages| && Upto(j, Num(base)) <= Upto(j, Num(after))
    ensures var b := messages[k - 1].seqno;
      && Canonical(b) && Carried(j, b)
      && Upto(j, Num(base)) <= Upto(j, Num(b))
      && j[Upto(j, Num(base))..Upto(j, Num(after))] + messages[..k] == j[Upto(j, Num(base))..Upto(j, Num(b))]
  {
    hide Num, Upto;
    var u, v := Upto(j, Num(after)), Upto(j, Num(base));
    assert messages[k - 1] == j[u..][k - 1] == j[u + k - 1];
    UptoOwn(j, u + k - 1);
    assert messages[..k] == j[u..u + k];
    assert j[v..u] + j[u..u + k] == j[v..u + k];
  }

  lemma SegmentCarried(messages: seq<Message>, j: Journal, i: nat)
    requires Segment(messages, j) && IsJournal(j) && i < |messages|
    ensures Carried(j, messages[i].seqno) && Canonical(messages[i].seqno)
  {
    var a, b :| 0 <= a <= b <= |j| && messages == j[a..b];
    assert j[a + i] == messages[i];
  }

  /** A continuing read extends the series: its shown prefix is appended and coverage moves with the
      checkpoint. */
  lemma ShowContinues(w: Reader, channel: Str, t: Ticket, shown: nat)
    requires Sound(w, channel) && t in w.asked && t in w.given && t.channel == channel
    requires var page := w.given[t].page;
      Commit(w.state, t, page.epoch, Boundary(page, shown)).1 && Continues(w, channel, t)
      && !(Boundary(page, shown).None? && |page.messages| != 0)
    ensures Covered(ApplyShow(w, channel, t, shown), channel) && Anchored(ApplyShow(w, channel, t, shown), channel)
  {
    hide Sound, Commit, Release, Lookup, WellFormed, Num, Upto, Sequences, ForwardDelta, Segment, IsJournal, Live;
    var page := w.given[t].page;
    var through := Boundary(page, shown);
    SoundParts(w, channel);
    CommitBoundary(w.state, t, page.epoch, through);
    LiveGiven(w, channel, t);
    ContinuedDelta(w, channel, t);
    var k := if shown < |page.messages| then shown else |page.messages|;
    var r := ApplyShow(w, channel, t, shown);
    ShowStores(w, channel, t, shown);
    hide ApplyShow, Continues, Covered, GivenFits;
    ExtendedCover(w, r, channel, page, k);
    var c := Lookup(w.state.checkpoints, channel).value;
    assert c.after != NONE;
    if k == 0 {
      StillAnchored(w, r, channel);
    }
  }

  lemma StillAnchored(w: Reader, r: Reader, channel: Str)
    requires Anchored(w, channel) && r.base == w.base
    requires Lookup(r.state.checkpoints, channel) == Lookup(w.state.checkpoints, channel)
    ensures Anchored(r, channel)
  {
  }

  /** What showing a prefix of a continuing read leaves: the records appended and the checkpoint at their end. */
  lemma ShowStores(w: Reader, channel: Str, t: Ticket, shown: nat)
    requires t in w.asked && t in w.given && t.channel == channel && WellFormed(w.state)
    requires var page := w.given[t].page;
      Commit(w.state, t, page.epoch, Boundary(page, shown)).1 && Continues(w, channel, t)
      && !(Boundary(page, shown).None? && |page.messages| != 0)
      && Lookup(w.state.checkpoints, channel).value.epoch == page.epoch
    ensures var r, page := ApplyShow(w, channel, t, shown), w.given[t].page;
      var k := if shown < |page.messages| then shown else |page.messages|;
      && r.journals == w.journals && r.base == w.base && r.returned == w.returned + page.messages[..k]
      && (k > 0 ==> page.messages[k - 1].seqno != NONE)
      && Lookup(r.state.checkpoints, channel) ==
         if k == 0 then Lookup(w.state.checkpoints, channel) else Some(Checkpoint(page.epoch, page.messages[k - 1].seqno))
  {
    hide Commit, Release, Lookup, WellFormed, Sequences, Live;
    var page := w.given[t].page;
    var through := Boundary(page, shown);
    CommitBoundary(w.state, t, page.epoch, through);
    CommitAndRelease(w.state, t, page.epoch, through, channel);
    var k := if shown < |page.messages| then shown else |page.messages|;
    assert Prefix(page, shown) == page.messages[..k];
  }

  /** Moving the checkpoint to the end of a shown prefix of the forward delta keeps coverage. */
  lemma ExtendedCover(w: Reader, r: Reader, channel: Str, page: Page, k: nat)
    requires Covered(w, channel) && Lookup(w.state.checkpoints, channel).Some?
    requires var c := Lookup(w.state.checkpoints, channel).value;
      && c.after != NONE && c.epoch == page.epoch && page.epoch in w.journals && IsJournal(w.journals[page.epoch])
      && Canonical(c.after) && ForwardDelta(page.messages, w.journals[page.epoch], c.after)
    requires k <= |page.messages|
    requires r.journals == w.journals && r.base == w.base && r.returned == w.returned + page.messages[..k]
    requires Lookup(r.state.checkpoints, channel) ==
      if k == 0 then Lookup(w.state.checkpoints, channel) else Some(Checkpoint(page.epoch, page.messages[k - 1].seqno))
    ensures Covered(r, channel)
  {
    hide Lookup, Num, Upto, IsJournal, ForwardDelta;
    if k == 0 {
      assert r.returned == w.returned;
    } else {
      DeltaExtends(w.journals[page.epoch], w.base, Lookup(w.state.checkpoints, channel).value.after, page.messages, k);
    }
  }

  lemma ContinuedDelta(w: Reader, channel: Str, t: Ticket)
    requires Sound(w, channel) && t in w.asked && t in w.given && t.channel == channel
    requires Live(w.state, t) && w.state.busy[channel].epoch.Some? && Continues(w, channel, t)
    ensures var page := w.given[t].page;
      var c := Lookup(w.state.checkpoints, channel).value;
      && c.after != NONE && c.epoch == page.epoch && Canonical(c.after)
      && page.epoch in w.journals && IsJournal(w.journals[page.epoch])
      && ForwardDelta(page.messages, w.journals[page.epoch], c.after)
      && w.state.busy[channel].sequences == Sequences(page)
  {
    LiveGiven(w, channel, t);
    hide Lookup, WellFormed, Sequences, ForwardDelta, Segment, Covered, Reading, Tickets;
  }

  /** Any other accepted read starts a new series at the boundary it stored. */
  lemma ShowStarts(w: Reader, channel: Str, t: Ticket, shown: nat)
    requires Sound(w, channel) && t in w.asked && t in w.given && t.channel == channel
    requires var page := w.given[t].page;
      Commit(w.state, t, page.epoch, Boundary(page, shown)).1 && !Continues(w, channel, t)
      && !(Boundary(page, shown).None? && |page.messages| != 0)
    ensures Covered(ApplyShow(w, channel, t, shown), channel) && Anchored(ApplyShow(w, channel, t, shown), channel)
  {
    var page := w.given[t].page;
    var through := Boundary(page, shown);
    CommitBoundary(w.state, t, page.epoch, through);
    CommitAndRelease(w.state, t, page.epoch, through, channel);
    LiveGiven(w, channel, t);
    hide Commit, Release, Lookup, WellFormed, Num, Upto, Sequences, ForwardDelta, Segment;
    if through.Some? {
      var k := if shown < |page.messages| then shown else |page.messages|;
      SegmentCarried(page.messages, w.journals[page.epoch], k - 1);
    }
  }

  lemma SoundParts(w: Reader, channel: Str)
    requires Sound(w, channel)
    ensures WellFormed(w.state) && Covered(w, channel) && Anchored(w, channel)
  {
  }

  lemma ShowSound(w: Reader, channel: Str, t: Ticket, shown: nat)
    requires Sound(w, channel) && t in w.asked && t in w.given
    ensures Sound(ApplyShow(w, channel, t, shown), channel)
  {
    var page := w.given[t].page;
    var through := Boundary(page, shown);
    if through.None? && |page.messages| != 0 {
      AbandonSound(w, channel, t);
    } else {
      CommitAndRelease(w.state, t, page.epoch, through, channel);
      CommitBoundary(w.state, t, page.epoch, through);
      hide Commit, Release, Lookup, WellFormed, Covered, Reading, Continues, Live;
      var s := Release(Commit(w.state, t, page.epoch, through).0, t);
      if !Commit(w.state, t, page.epoch, through).1 || t.channel != channel {
        ShrinkSound(w, w.(state := s), channel);
      } else {
        ShowSpent(w, channel, t, shown);
        if Continues(w, channel, t) {
          ShowContinues(w, channel, t, shown);
        } else {
          ShowStarts(w, channel, t, shown);
        }
      }
    }
  }

  lemma EndedRead(w: Reader, r: Reader, channel: Str)
    requires Tickets(w) && Journals(w)
    requires r.asked == w.asked && r.observed == w.observed && r.given == w.given
    requires r.journals == w.journals && r.nonce == w.nonce
    requires WellFormed(r.state) && r.state.context == w.state.context && r.state.nextRequest == w.state.nextRequest
    requires forall c :: c in r.state.busy ==> c in w.state.busy && r.state.busy[c] == w.state.busy[c]
    requires channel !in r.state.busy
    ensures Tickets(r) && Journals(r) && Reading(r, channel)
  {
    hide WellFormed, Lookup, GivenFits, IsJournal;
  }

  lemma ShowSpent(w: Reader, channel: Str, t: Ticket, shown: nat)
    requires Sound(w, channel) && t in w.asked && t in w.given && t.channel == channel
    requires var page := w.given[t].page;
      Commit(w.state, t, page.epoch, Boundary(page, shown)).1 && !(Boundary(page, shown).None? && |page.messages| != 0)
    ensures var r := ApplyShow(w, channel, t, shown); Tickets(r) && Journals(r) && Reading(r, channel)
  {
    hide Commit, Release, Lookup, WellFormed, Covered, Reading, Continues, Live, Journals, Anchored;
    var page := w.given[t].page;
    var through := Boundary(page, shown);
    CommitAndRelease(w.state, t, page.epoch, through, channel);
    CommitBoundary(w.state, t, page.epoch, through);
    EndedRead(w, ApplyShow(w, channel, t, shown), channel);
  }

  lemma StepSound(w: Reader, channel: Str, op: Op)
    requires Sound(w, channel) && Honest(w, channel, op)
    ensures Sound(Apply(w, channel, op), channel)
  {
    hide Sound, ApplyShow, ApplyAnswer, ApplyTail, Begin, Release, ReadAfter;
    match op
    case Post(epoch, m) => PostSound(w, channel, epoch, m);
    case Ask(c, mode) => AskSound(w, channel, c, mode);
    case Answer(t, primary) => AnswerSound(w, channel, t, primary);
    case Tail(t, tail) => TailSound(w, channel, t, tail);
    case Show(t, shown) =>
      if t in w.asked && t in w.given {
        ShowSound(w, channel, t, shown);
      }
    case Abandon(t) => AbandonSound(w, channel, t);
    case Drop =>
      SoundContext(w, channel);
      DropSound(w, channel, Invalidate(w.state, w.nonce + 1));
    case Replace =>
      SoundContext(w, channel);
      DropSound(w, channel, EmptyState(w.nonce + 1));
  }

  lemma SoundContext(w: Reader, channel: Str)
    requires Sound(w, channel)
    ensures w.state.context == w.nonce
  {
  }

  // --- Runs ---

  /** A fresh runtime over any journals. */
  lemma StartSound(journals: map<Str, Journal>, channel: Str)
    requires forall e :: e in journals ==> IsJournal(journals[e])
    ensures Sound(Reader(1, EmptyState(1), map[], map[], map[], journals, 0, NONE, []), channel)
  {
    assert Lookup([], channel) == None;
  }

  function Run(w: Reader, channel: Str, ops: seq<Op>): Reader
    decreases |ops|
  {
    if |ops| == 0 then w else Run(Apply(w, channel, ops[0]), channel, ops[1..])
  }

  ghost predicate HonestRun(w: Reader, channel: Str, ops: seq<Op>)
    decreases |ops|
  {
    |ops| != 0 ==> Honest(w, channel, ops[0]) && HonestRun(Apply(w, channel, ops[0]), channel, ops[1..])
  }

  lemma {:induction false} RunSound(w: Reader, channel: Str, ops: seq<Op>)
    requires Sound(w, channel) && HonestRun(w, channel, ops)
    ensures Sound(Run(w, channel, ops), channel)
    decreases |ops|
  {
    if |ops| != 0 {
      StepSound(w, channel, ops[0]);
      RunSound(Apply(w, channel, ops[0]), channel, ops[1..]);
    }
  }

  /** A shown prefix is committed: there is a boundary to commit or an empty page, and the commit is accepted. */
  predicate Accepts(w: Reader, t: Ticket, shown: nat)
    requires t in w.given
  {
    var page := w.given[t].page;
    && !(Boundary(page, shown).None? && |page.messages| != 0)
    && Commit(w.state, t, page.epoch, Boundary(page, shown)).1
  }

  /** A step ends the channel's series of reads: another one begins, or the stored boundary is gone. */
  ghost predicate Restarts(w: Reader, channel: Str, op: Op) {
    Apply(w, channel, op).series != w.series || Lookup(Apply(w, channel, op).state.checkpoints, channel).None?
  }

  /** What ends a series is exactly what a caller can see: a lost boundary, or an accepted read of the channel that was
      recent, reset, or asked from no boundary. */
  lemma RestartsExactlyWhen(w: Reader, channel: Str, op: Op)
    ensures Restarts(w, channel, op) <==>
            || Lookup(Apply(w, channel, op).state.checkpoints, channel).None?
            || (op.Show? && op.ticket in w.asked && op.ticket in w.given && op.ticket.channel == channel
                && Accepts(w, op.ticket, op.shown) && !Continues(w, channel, op.ticket))
  {
    hide Commit, Release, Lookup, Begin, Note, AssessPrimary, AssessTail, Boundary, Prefix, Continues;
  }

  /** From one state of a series to a later one: the same epoch and start, and the records returned in between are the
      journal between the two boundaries. */
  ghost predicate Extends(w: Reader, r: Reader, channel: Str) {
    var c, d := Lookup(w.state.checkpoints, channel), Lookup(r.state.checkpoints, channel);
    && c.Some? && d.Some? && d.value.epoch == c.value.epoch && r.base == w.base && d.value.after != NONE
    && c.value.epoch in r.journals && IsJournal(r.journals[c.value.epoch])
    && Canonical(c.value.after) && Canonical(d.value.after)
    && var j := r.journals[c.value.epoch];
    && Upto(j, Num(c.value.after)) <= Upto(j, Num(d.value.after))
    && r.returned == w.returned + j[Upto(j, Num(c.value.after))..Upto(j, Num(d.value.after))]
  }

  /** Every honest step that does not restart the series extends it, in its own epoch. */
  lemma SeriesExtends(w: Reader, channel: Str, op: Op)
    requires Sound(w, channel) && Honest(w, channel, op) && !Restarts(w, channel, op)
    requires var c := Lookup(w.state.checkpoints, channel); c.Some? && c.value.after != NONE
    ensures Extends(w, Apply(w, channel, op), channel)
  {
    var r := Apply(w, channel, op);
    StepSound(w, channel, op);
    RestartsExactlyWhen(w, channel, op);
    if op.Show? && op.ticket in w.asked && op.ticket in w.given && op.ticket.channel == channel && Accepts(w, op.ticket, op.shown) {
      ShownExtends(w, channel, op.ticket, op.shown);
    } else {
      BoundaryStays(w, channel, op);
      hide Apply, Lookup, Restarts, Tickets, Reading, Honest, Upto, Num;
      StaysExtends(w, r, channel);
    }
  }

  lemma StaysExtends(w: Reader, r: Reader, channel: Str)
    requires Covered(r, channel) && r.base == w.base && r.returned == w.returned
    requires Lookup(r.state.checkpoints, channel) == Lookup(w.state.checkpoints, channel)
    requires var c := Lookup(w.state.checkpoints, channel); c.Some? && c.value.after != NONE
    ensures Extends(w, r, channel)
  {
    hide Lookup, Upto, Num;
    var c := Lookup(w.state.checkpoints, channel).value;
    var j := r.journals[c.epoch];
    assert j[Upto(j, Num(c.after))..Upto(j, Num(c.after))] == [];
  }

  /** Any other step leaves the boundary and what was returned alone. */
  lemma BoundaryStays(w: Reader, channel: Str, op: Op)
    requires Sound(w, channel) && !Restarts(w, channel, op) && Lookup(w.state.checkpoints, channel).Some?
    requires !(op.Show? && op.ticket in w.asked && op.ticket in w.given && op.ticket.channel == channel && Accepts(w, op.ticket, op.shown))
    ensures var r := Apply(w, channel, op);
      && r.base == w.base && r.returned == w.returned
      && Lookup(r.state.checkpoints, channel) == Lookup(w.state.checkpoints, channel)
  {
    SoundParts(w, channel);
    assert Lookup([], channel) == None;
    hide Sound, WellFormed, Apply, Lookup, ApplyShow, Accepts;
    if op.Show? {
      assert Apply(w, channel, op) == ShowStep(w, channel, op) by { ShowIs(w, channel, op); }
      if op.ticket in w.asked && op.ticket in w.given {
        ShowElsewhere(w, channel, op.ticket, op.shown);
      }
    } else {
      QuietStep(w, channel, op);
    }
  }

  function ShowStep(w: Reader, channel: Str, op: Op): Reader
    requires op.Show?
  {
    if op.ticket in w.asked && op.ticket in w.given then ApplyShow(w, channel, op.ticket, op.shown) else w
  }

  lemma ShowIs(w: Reader, channel: Str, op: Op)
    requires op.Show?
    ensures Apply(w, channel, op) == ShowStep(w, channel, op)
  {
    hide ApplyShow;
  }

  /** No step but a show touches the log, and a checkpoint goes only with all the others. */
  lemma QuietStep(w: Reader, channel: Str, op: Op)
    requires !op.Show?
    ensures var r := Apply(w, channel, op);
      && r.base == w.base && r.returned == w.returned && r.series == w.series
      && (r.state.checkpoints == w.state.checkpoints || r.state.checkpoints == [])
  {
    hide AssessPrimary, AssessTail, ReadAfter, ApplyShow;
  }

  /** Showing another channel's page, or a prefix that is not committed, leaves the channel's boundary or evicts it. */
  lemma ShowElsewhere(w: Reader, channel: Str, t: Ticket, shown: nat)
    requires WellFormed(w.state) && t in w.asked && t in w.given
    requires t.channel != channel || !Accepts(w, t, shown)
    ensures var r := ApplyShow(w, channel, t, shown);
      && r.base == w.base && r.returned == w.returned && r.series == w.series
      && Lookup(r.state.checkpoints, channel) in {None, Lookup(w.state.checkpoints, channel)}
  {
    var page := w.given[t].page;
    CommitAndRelease(w.state, t, page.epoch, Boundary(page, shown), channel);
    CommitBoundary(w.state, t, page.epoch, Boundary(page, shown));
    hide Commit, Lookup, WellFormed, Boundary;
  }

  lemma ShownExtends(w: Reader, channel: Str, t: Ticket, shown: nat)
    requires Sound(w, channel) && t in w.asked && t in w.given && t.channel == channel && Accepts(w, t, shown)
    requires Continues(w, channel, t)
    requires var c := Lookup(w.state.checkpoints, channel); c.Some? && c.value.after != NONE
    ensures Extends(w, ApplyShow(w, channel, t, shown), channel)
  {
    hide Sound, Commit, Release, Lookup, WellFormed, Num, Upto, Sequences, ForwardDelta, Segment, IsJournal, Live;
    var page := w.given[t].page;
    SoundParts(w, channel);
    CommitBoundary(w.state, t, page.epoch, Boundary(page, shown));
    LiveGiven(w, channel, t);
    ContinuedDelta(w, channel, t);
    ShowStores(w, channel, t, shown);
    var k := if shown < |page.messages| then shown else |page.messages|;
    hide ApplyShow, Continues, Covered, GivenFits, Boundary;
    PrefixExtends(w, ApplyShow(w, channel, t, shown), channel, page, k);
  }

  /** Appending a prefix of what follows the boundary and moving the boundary to its end extends the series. */
  lemma PrefixExtends(w: Reader, r: Reader, channel: Str, page: Page, k: nat)
    requires var c := Lookup(w.state.checkpoints, channel);
      && c.Some? && c.value.after != NONE && c.value.epoch == page.epoch
      && page.epoch in w.journals && IsJournal(w.journals[page.epoch])
      && Canonical(c.value.after) && ForwardDelta(page.messages, w.journals[page.epoch], c.value.after)
    requires k <= |page.messages| && (k > 0 ==> page.messages[k - 1].seqno != NONE)
    requires r.journals == w.journals && r.base == w.base && r.returned == w.returned + page.messages[..k]
    requires Lookup(r.state.checkpoints, channel) ==
      if k == 0 then Lookup(w.state.checkpoints, channel) else Some(Checkpoint(page.epoch, page.messages[k - 1].seqno))
    ensures Extends(w, r, channel)
  {
    hide Lookup, Num, Upto, Ordered, ForwardDelta;
    var after := Lookup(w.state.checkpoints, channel).value.after;
    var j := w.journals[page.epoch];
    assert Upto(j, Num(after)) <= |j| && j[Upto(j, Num(after))..Upto(j, Num(after))] == [];
    if k == 0 {
      assert page.messages[..k] == [];
    } else {
      DeltaExtends(j, after, after, page.messages, k);
    }
  }

  ghost predicate Uninterrupted(w: Reader, channel: Str, ops: seq<Op>)
    decreases |ops|
  {
    |ops| != 0 ==> !Restarts(w, channel, ops[0]) && Uninterrupted(Apply(w, channel, ops[0]), channel, ops[1..])
  }

  lemma {:induction false} SeriesKept(w: Reader, channel: Str, ops: seq<Op>)
    requires Sound(w, channel) && HonestRun(w, channel, ops) && Uninterrupted(w, channel, ops)
    requires var c := Lookup(w.state.checkpoints, channel); c.Some? && c.value.after != NONE
    ensures var r := Run(w, channel, ops); var d := Lookup(r.state.checkpoints, channel);
      r.base == w.base && d.Some? && d.value.after != NONE && d.value.epoch == Lookup(w.state.checkpoints, channel).value.epoch
    decreases |ops|
  {
    hide Apply, Lookup, Sound, Honest, Restarts, Upto, Num;
    if |ops| != 0 {
      SeriesExtends(w, channel, ops[0]);
      StepSound(w, channel, ops[0]);
      SeriesKept(Apply(w, channel, ops[0]), channel, ops[1..]);
    }
  }

  /** Gap-free reading. Start from a stored nonzero boundary. Let any readers of any channels begin, fail,
      cancel, show prefixes and commit in any order while the journal grows. As long as the boundary is
      not lost and no read restarts from elsewhere, the records the committed reads showed are, in order,
      exactly the journal of the boundary's epoch after that boundary up to the current one. */
  lemma GapFreeReading(w: Reader, channel: Str, ops: seq<Op>)
    requires Sound(w, channel) && HonestRun(w, channel, ops) && Uninterrupted(w, channel, ops)
    requires Lookup(w.state.checkpoints, channel).Some?
    requires w.base == Lookup(w.state.checkpoints, channel).value.after && w.base != NONE && w.returned == []
    ensures var r := Run(w, channel, ops);
      var c := Lookup(r.state.checkpoints, channel);
      && c.Some? && c.value.epoch == Lookup(w.state.checkpoints, channel).value.epoch
      && c.value.epoch in r.journals && IsJournal(r.journals[c.value.epoch])
      && var j := r.journals[c.value.epoch];
      && Carried(j, w.base) && Carried(j, c.value.after)
      && Upto(j, Num(w.base)) <= Upto(j, Num(c.value.after))
      && r.returned == j[Upto(j, Num(w.base))..Upto(j, Num(c.value.after))]
  {
    RunSound(w, channel, ops);
    SeriesKept(w, channel, ops);
    hide Lookup, Num, Upto, Run, Tickets, Reading;
  }
}
