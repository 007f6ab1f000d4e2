/** Every interleaving of ticket holders, invalidations and run replacements
    (extension/channel-read-state.ts driven by extension/runtime.ts). */
module Fencing {
  import opened Options
  import opened Strings
  import opened Channels
  import opened ChannelReads

  datatype Accepted = Accepted(ticket: Ticket, epoch: Str, through: Option<Str>)

  /** The runtime's read state, its context nonce, and the history: tickets handed out, the page last
      noted under each, and the commits accepted. */
  datatype World = World(nonce: nat, state: ReadState, issued: set<Ticket>, noted: map<Ticket, Page>, accepted: seq<Accepted>)

  const START := World(1, EmptyState(1), {}, map[], [])

  /** One call by any holder of any ticket ever handed out, at any time; `Drop` is an invalidation and
      `Replace` a new run. */
  datatype Op =
    | OpBegin(channel: Str, mode: Mode)
    | OpNote(ticket: Ticket, page: Page)
    | OpCommit(ticket: Ticket, epoch: Str, through: Option<Str>)
    | OpRelease(ticket: Ticket)
    | Drop
    | Replace

  function Apply(w: World, op: Op): World {
    match op
    case OpBegin(channel, mode) =>
      var r := Begin(w.state, channel, mode);
      if r.None? then w else w.(state := r.value.0, issued := w.issued + {r.value.1})
    case OpNote(t, page) =>
      if t !in w.issued then w
      else w.(state := Note(w.state, t, page), noted := if Live(w.state, t) then w.noted[t := page] else w.noted)
    case OpCommit(t, epoch, through) =>
      if t !in w.issued then w
      else
        var (s, ok) := Commit(w.state, t, epoch, through);
        w.(state := s, accepted := if ok then w.accepted + [Accepted(t, epoch, through)] else w.accepted)
    case OpRelease(t) => if t !in w.issued then w else w.(state := Release(w.state, t))
    case Drop => w.(nonce := w.nonce + 1, state := Invalidate(w.state, w.nonce + 1))
    case Replace => w.(nonce := w.nonce + 1, state := EmptyState(w.nonce + 1))
  }

  ghost predicate Issued(w: World) {
    && WellFormed(w.state) && w.state.context == w.nonce
    && (forall t :: t in w.issued ==> t.context <= w.nonce && (t.context == w.nonce ==> t.request <= w.state.nextRequest))
    && (forall c :: c in w.state.busy ==> w.state.busy[c].ticket in w.issued)
    && (forall t :: t in w.noted ==> t in w.issued)
  }

  /** What a channel's read knows is the page last noted under its ticket. */
  ghost predicate Noted(w: World) {
    forall c :: c in w.state.busy ==>
      var b := w.state.busy[c];
      if b.epoch.None? then b.ticket !in w.noted && b.sequences == []
      else b.ticket in w.noted && b.epoch == Some(w.noted[b.ticket].epoch) && b.sequences == Sequences(w.noted[b.ticket])
  }

  ghost predicate Spent(w: World) {
    && (forall i :: 0 <= i < |w.accepted| ==> w.accepted[i].ticket in w.issued && !Live(w.state, w.accepted[i].ticket))
    && (forall i, j :: 0 <= i < j < |w.accepted| ==> w.accepted[i].ticket != w.accepted[j].ticket)
  }

  /** Every accepted boundary came from the page last noted under its ticket. */
  ghost predicate Grounded(w: World) {
    forall i :: 0 <= i < |w.accepted| ==>
      var a := w.accepted[i];
      && a.ticket in w.noted && a.epoch == w.noted[a.ticket].epoch
      && (if a.through.Some? then a.through.value in Sequences(w.noted[a.ticket]) else w.noted[a.ticket].messages == [])
  }

  ghost predicate Fenced(w: World) {
    Issued(w) && Noted(w) && Spent(w) && Grounded(w)
  }

  lemma LiveIsBusy(w: World, t: Ticket)
    requires Issued(w)
    ensures Live(w.state, t) <==> t.channel in w.state.busy && w.state.busy[t.channel].ticket == t
  {
  }

  lemma BeginKeepsIssued(w: World, channel: Str, mode: Mode)
    requires Issued(w)
    ensures Issued(Apply(w, OpBegin(channel, mode)))
  {
    BeginMeaning(w.state, channel, mode);
    hide WellFormed, Live;
  }

  lemma BeginKeepsNoted(w: World, channel: Str, mode: Mode)
    requires Issued(w) && Noted(w)
    ensures Noted(Apply(w, OpBegin(channel, mode)))
  {
    hide WellFormed, Sequences;
  }

  lemma BeginKeepsSpent(w: World, channel: Str, mode: Mode)
    requires Issued(w) && Spent(w)
    ensures Spent(Apply(w, OpBegin(channel, mode)))
  {
    hide WellFormed;
    var v := Apply(w, OpBegin(channel, mode));
    forall i | 0 <= i < |v.accepted| ensures v.accepted[i].ticket in v.issued && !Live(v.state, v.accepted[i].ticket) {
      assert v.accepted[i] == w.accepted[i];
    }
  }

  lemma BeginFenced(w: World, channel: Str, mode: Mode)
    requires Fenced(w)
    ensures Fenced(Apply(w, OpBegin(channel, mode)))
  {
    BeginKeepsIssued(w, channel, mode);
    BeginKeepsNoted(w, channel, mode);
    BeginKeepsSpent(w, channel, mode);
    hide Issued, Noted, Spent, Begin;
  }

  lemma NoteKeepsWellFormed(s: ReadState, t: Ticket, page: Page)
    requires WellFormed(s)
    ensures WellFormed(Note(s, t, page))
    ensures forall u :: Live(Note(s, t, page), u) <==> Live(s, u)
  {
    if Live(s, t) {
      assert s.busy[t.channel].ticket == t;
      var r := Note(s, t, page);
      assert r.busy.Keys == s.busy.Keys;
      assert forall c :: c in s.busy ==> r.busy[c].ticket == s.busy[c].ticket;
    }
  }

  lemma NoteKeepsNoted(w: World, t: Ticket, page: Page)
    requires Issued(w) && Noted(w) && t in w.issued && Live(w.state, t)
    ensures Noted(Apply(w, OpNote(t, page)))
  {
    LiveIsBusy(w, t);
    var r := Apply(w, OpNote(t, page));
    forall c | c in r.state.busy && c != t.channel
      ensures r.state.busy[c].ticket != t && r.state.busy[c] == w.state.busy[c]
    {
      assert w.state.busy[c].ticket.channel == c;
    }
  }

  lemma NoteKeepsIssued(w: World, t: Ticket, page: Page)
    requires Fenced(w) && t in w.issued && Live(w.state, t)
    ensures Issued(Apply(w, OpNote(t, page))) && Spent(Apply(w, OpNote(t, page)))
  {
    hide WellFormed, Noted, Grounded, Sequences, Note;
    NoteKeepsWellFormed(w.state, t, page);
    NoteKeepsTickets(w.state, t, page);
    hide Live;
  }

  lemma NoteKeepsTickets(s: ReadState, t: Ticket, page: Page)
    requires WellFormed(s)
    ensures var r := Note(s, t, page);
      && r.context == s.context && r.nextRequest == s.nextRequest
      && forall c :: c in r.busy ==> c in s.busy && r.busy[c].ticket == s.busy[c].ticket
  {
    hide Sequences;
  }

  lemma NoteKeepsGrounded(w: World, t: Ticket, page: Page)
    requires Fenced(w) && t in w.issued && Live(w.state, t)
    ensures Grounded(Apply(w, OpNote(t, page)))
  {
    hide WellFormed, Noted, Issued, Sequences;
    assert forall i :: 0 <= i < |w.accepted| ==> w.accepted[i].ticket != t;
  }

  lemma NoteFenced(w: World, t: Ticket, page: Page)
    requires Fenced(w)
    ensures Fenced(Apply(w, OpNote(t, page)))
  {
    hide WellFormed, Note, Sequences;
    if t in w.issued {
      if Live(w.state, t) {
        NoteKeepsNoted(w, t, page);
        NoteKeepsIssued(w, t, page);
        NoteKeepsGrounded(w, t, page);
      } else {
        StaleTicketIsInert(w.state, t, page, [], None);
      }
    }
  }

  /** Reads may end early without harm. */
  ghost predicate Fewer(w: World, v: World) {
    && v.nonce == w.nonce && v.state.context == w.state.context && v.state.nextRequest == w.state.nextRequest
    && v.issued == w.issued && v.noted == w.noted && WellFormed(v.state)
    && (forall c :: c in v.state.busy ==> c in w.state.busy && v.state.busy[c] == w.state.busy[c])
  }

  lemma FewerKeeps(w: World, v: World)
    requires Issued(w) && Noted(w) && Fewer(w, v)
    ensures Issued(v) && Noted(v)
  {
    hide WellFormed, Sequences;
  }

  lemma FewerStaySpent(w: World, v: World)
    requires Spent(w) && Fewer(w, v) && v.accepted == w.accepted
    ensures Spent(v)
  {
    hide WellFormed;
  }

  lemma ReleaseFenced(w: World, t: Ticket)
    requires Fenced(w)
    ensures Fenced(Apply(w, OpRelease(t)))
  {
    hide WellFormed, Issued, Noted, Spent, Grounded;
    var v := Apply(w, OpRelease(t));
    IssuedWellFormed(w);
    ReleaseKeepsWellFormed(w.state, t);
    ReleaseFewer(w, t);
    hide Release;
    FewerKeeps(w, v);
    FewerStaySpent(w, v);
    SameGrounds(w, v);
  }

  lemma IssuedWellFormed(w: World)
    requires Issued(w)
    ensures WellFormed(w.state)
  {
  }

  lemma ReleaseFewer(w: World, t: Ticket)
    requires WellFormed(Release(w.state, t)) && WellFormed(w.state)
    ensures Fewer(w, Apply(w, OpRelease(t)))
  {
    hide WellFormed;
  }

  lemma CommitKeepsIssued(w: World, t: Ticket, epoch: Str, through: Option<Str>)
    requires Fenced(w) && t in w.issued
    ensures Issued(Apply(w, OpCommit(t, epoch, through))) && Noted(Apply(w, OpCommit(t, epoch, through)))
  {
    hide Commit, WellFormed, Sequences, Issued, Noted, Spent, Grounded;
    IssuedWellFormed(w);
    CommitKeepsWellFormed(w.state, t, epoch, through, t.channel);
    CommitOnlyRemoves(w.state, t, epoch, through);
    FewerKeeps(w, Apply(w, OpCommit(t, epoch, through)));
  }

  lemma CommitKeepsSpent(w: World, t: Ticket, epoch: Str, through: Option<Str>)
    requires Fenced(w) && t in w.issued
    ensures Spent(Apply(w, OpCommit(t, epoch, through)))
  {
    CommitOnlyRemoves(w.state, t, epoch, through);
    CommitSpends(w.state, t, epoch, through);
    CommitBoundary(w.state, t, epoch, through);
    hide Commit, WellFormed, Sequences, Noted, Grounded, Lookup, Issued;
    var v := Apply(w, OpCommit(t, epoch, through));
    forall i | 0 <= i < |w.accepted| ensures !Live(v.state, w.accepted[i].ticket) {
      assert !Live(w.state, w.accepted[i].ticket);
    }
  }

  lemma CommitKeepsGrounded(w: World, t: Ticket, epoch: Str, through: Option<Str>)
    requires Fenced(w) && t in w.issued
    ensures Grounded(Apply(w, OpCommit(t, epoch, through)))
  {
    CommitBoundary(w.state, t, epoch, through);
    if Commit(w.state, t, epoch, through).1 {
      NotedLive(w, t);
      hide Commit, WellFormed, Noted, Spent, Issued, Lookup;
      assert |Sequences(w.noted[t])| == |w.noted[t].messages|;
    }
  }

  lemma CommitFenced(w: World, t: Ticket, epoch: Str, through: Option<Str>)
    requires Fenced(w)
    ensures Fenced(Apply(w, OpCommit(t, epoch, through)))
  {
    if t in w.issued {
      CommitKeepsIssued(w, t, epoch, through);
      CommitKeepsSpent(w, t, epoch, through);
      CommitKeepsGrounded(w, t, epoch, through);
    }
  }

  lemma NotedLive(w: World, t: Ticket)
    requires Issued(w) && Noted(w) && Live(w.state, t) && w.state.busy[t.channel].epoch.Some?
    ensures t in w.noted && w.state.busy[t.channel].epoch == Some(w.noted[t].epoch)
    ensures w.state.busy[t.channel].sequences == Sequences(w.noted[t])
  {
    LiveIsBusy(w, t);
  }

  lemma DropFenced(w: World)
    requires Fenced(w)
    ensures Fenced(Apply(w, Drop)) && Fenced(Apply(w, Replace))
  {
    EmptiedFenced(w, Apply(w, Drop));
    EmptiedFenced(w, Apply(w, Replace));
  }

  lemma EmptiedFenced(w: World, v: World)
    requires Fenced(w) && v.nonce == w.nonce + 1 && v.state.context == v.nonce && v.state.busy == map[] && v.state.checkpoints == []
    requires v.issued == w.issued && v.noted == w.noted && v.accepted == w.accepted
    ensures Fenced(v)
  {
    hide Grounded, Sequences;
    EmptyWellFormed(v.state);
    hide WellFormed;
    assert forall i :: 0 <= i < |w.accepted| ==> !Live(v.state, w.accepted[i].ticket);
    hide Live;
    assert Grounded(v) by { SameGrounds(w, v); }
  }

  lemma SameGrounds(w: World, v: World)
    requires Grounded(w) && v.noted == w.noted && v.accepted == w.accepted
    ensures Grounded(v)
  {
    hide Sequences;
  }

  lemma EmptyWellFormed(s: ReadState)
    requires s.busy == map[] && s.checkpoints == []
    ensures WellFormed(s)
  {
  }

  function Run(w: World, ops: seq<Op>): World
    decreases |ops|
  {
    if |ops| == 0 then w else Run(Apply(w, ops[0]), ops[1..])
  }

  lemma {:induction false} RunFenced(w: World, ops: seq<Op>)
    requires Fenced(w)
    ensures Fenced(Run(w, ops))
    decreases |ops|
  {
    if |ops| != 0 {
      match ops[0] {
        case OpBegin(channel, mode) => BeginFenced(w, channel, mode);
        case OpNote(t, page) => NoteFenced(w, t, page);
        case OpCommit(t, epoch, through) => CommitFenced(w, t, epoch, through);
        case OpRelease(t) => ReleaseFenced(w, t);
        case Drop => DropFenced(w);
        case Replace => DropFenced(w);
      }
      RunFenced(Apply(w, ops[0]), ops[1..]);
    }
  }

  /** Over every interleaving: a channel has at most one live ticket, no ticket is accepted twice, an
      accepted ticket is never live again, and each accepted boundary is a sequence of the page last
      noted under its ticket, in that page's epoch. */
  lemma TicketsAreFenced(ops: seq<Op>)
    ensures var w := Run(START, ops);
      && (forall t, u :: Live(w.state, t) && Live(w.state, u) && t.channel == u.channel ==> t == u)
      && (forall i, j :: 0 <= i < j < |w.accepted| ==> w.accepted[i].ticket != w.accepted[j].ticket)
      && (forall i :: 0 <= i < |w.accepted| ==> !Live(w.state, w.accepted[i].ticket))
      && Grounded(w)
  {
    RunFenced(START, ops);
    var w := Run(START, ops);
    forall t, u | Live(w.state, t) && Live(w.state, u) && t.channel == u.channel ensures t == u {
      LiveIsBusy(w, t);
      LiveIsBusy(w, u);
    }
  }
}
