/** Ticketed channel reads (extension/channel-read-state.ts) and their fencing. */
module ChannelReads {
  import opened Options
  import opened Strings
  import opened Decimal
  import opened Channels

  const MAX_CHECKPOINTS: nat := 128
  const MAX_TRACKED_READS: nat := 128
  const MAX_SAFE_INTEGER: nat := 9007199254740991

  datatype Mode = Recent | New

  datatype Checkpoint = Checkpoint(epoch: Str, after: Str)

  datatype Ticket = Ticket(channel: Str, context: nat, request: nat)

  datatype BusyRead = BusyRead(ticket: Ticket, mode: Mode, epoch: Option<Str>, sequences: seq<Str>)

  datatype Entry = Entry(channel: Str, checkpoint: Checkpoint)

  /** `checkpoints` keeps the insertion order that eviction follows. */
  datatype ReadState = ReadState(context: nat, nextRequest: nat, checkpoints: seq<Entry>, busy: map<Str, BusyRead>)

  // --- Checkpoints, oldest first ---

  function Lookup(entries: seq<Entry>, channel: Str): Option<Checkpoint> {
    if |entries| == 0 then None
    else if entries[0].channel == channel then Some(entries[0].checkpoint)
    else Lookup(entries[1..], channel)
  }

  function Without(entries: seq<Entry>, channel: Str): seq<Entry> {
    if |entries| == 0 then []
    else (if entries[0].channel == channel then [] else [entries[0]]) + Without(entries[1..], channel)
  }

  predicate Distinct(entries: seq<Entry>) {
    forall i, j :: 0 <= i < j < |entries| ==> entries[i].channel != entries[j].channel
  }

  /** Moves the channel to the newest place and evicts the oldest entries over the limit. */
  function Stored(entries: seq<Entry>, channel: Str, checkpoint: Checkpoint): seq<Entry> {
    var all := Without(entries, channel) + [Entry(channel, checkpoint)];
    if |all| > MAX_CHECKPOINTS then all[|all| - MAX_CHECKPOINTS..] else all
  }

  method StoreCheckpoint(entries: seq<Entry>, channel: Str, checkpoint: Checkpoint) returns (r: seq<Entry>)
    ensures r == Stored(entries, channel, checkpoint)
  {
    var all := Without(entries, channel) + [Entry(channel, checkpoint)];
    r := all;
    while |r| > MAX_CHECKPOINTS
      invariant |r| <= |all| && r == all[|all| - |r|..]
      invariant |r| >= MAX_CHECKPOINTS || r == all
    {
      r := r[1..];
    }
  }

  lemma {:induction false} WithoutLookup(entries: seq<Entry>, channel: Str, other: Str)
    ensures Lookup(Without(entries, channel), other) == if other == channel then None else Lookup(entries, other)
    ensures Distinct(entries) ==> Distinct(Without(entries, channel))
    ensures forall i :: 0 <= i < |Without(entries, channel)| ==>
              Without(entries, channel)[i] in entries && Without(entries, channel)[i].channel != channel
  {
    if |entries| != 0 {
      var rest := entries[1..];
      WithoutLookup(rest, channel, other);
      var kept := Without(rest, channel);
      DistinctTail(entries);
      hide Distinct;
      if entries[0].channel != channel {
        assert Without(entries, channel) == [entries[0]] + kept;
        forall j | Distinct(entries) && 0 <= j < |kept| ensures kept[j].channel != entries[0].channel {
          var k :| 0 <= k < |rest| && rest[k] == kept[j];
        }
        DistinctCons(entries[0], kept);
      } else {
        assert Without(entries, channel) == kept;
      }
    }
  }

  lemma DistinctTail(entries: seq<Entry>)
    requires |entries| != 0
    ensures Distinct(entries) ==> Distinct(entries[1..]) && forall k :: 0 <= k < |entries[1..]| ==> entries[1..][k].channel != entries[0].channel
  {
    if Distinct(entries) {
      var rest := entries[1..];
      forall i, j | 0 <= i < j < |rest| ensures rest[i].channel != rest[j].channel {
        assert rest[i] == entries[i + 1] && rest[j] == entries[j + 1];
      }
      forall k | 0 <= k < |rest| ensures rest[k].channel != entries[0].channel {
        assert rest[k] == entries[k + 1];
      }
    }
  }

  lemma DistinctCons(e: Entry, kept: seq<Entry>)
    ensures Distinct(kept) && (forall j :: 0 <= j < |kept| ==> kept[j].channel != e.channel) ==> Distinct([e] + kept)
  {
  }

  lemma {:induction false} LookupAppend(entries: seq<Entry>, e: Entry, other: Str)
    ensures Lookup(entries + [e], other) ==
            if Lookup(entries, other).Some? then Lookup(entries, other)
            else if e.channel == other then Some(e.checkpoint) else None
  {
    if |entries| == 0 {
      assert entries + [e] == [e];
    } else {
      assert (entries + [e])[1..] == entries[1..] + [e];
      LookupAppend(entries[1..], e, other);
    }
  }

  /** Dropping old entries loses checkpoints but never changes one. */
  lemma {:induction false} LookupSuffix(entries: seq<Entry>, k: nat, other: Str)
    requires Distinct(entries) && k <= |entries|
    ensures Lookup(entries[k..], other) in {None, Lookup(entries, other)}
    ensures k < |entries| && entries[|entries| - 1].channel == other ==> Lookup(entries[k..], other) == Lookup(entries, other)
  {
    if k != 0 {
      var rest := entries[1..];
      DistinctTail(entries);
      LookupSuffix(rest, k - 1, other);
      assert rest[k - 1..] == entries[k..];
      if entries[0].channel == other {
        LookupAbsent(rest, other);
        if Lookup(rest, other).Some? {
          LookupFound(rest, other);
        }
        assert k < |entries| ==> entries[|entries| - 1] == rest[|rest| - 1];
      }
    }
  }

  lemma {:induction false} LookupFound(entries: seq<Entry>, channel: Str)
    requires Lookup(entries, channel).Some?
    ensures exists i :: 0 <= i < |entries| && entries[i].channel == channel
  {
    if entries[0].channel != channel {
      LookupFound(entries[1..], channel);
      var i :| 0 <= i < |entries[1..]| && entries[1..][i].channel == channel;
      assert entries[i + 1].channel == channel;
    }
  }

  lemma {:induction false} LookupAbsent(entries: seq<Entry>, channel: Str)
    requires forall i :: 0 <= i < |entries| ==> entries[i].channel != channel
    ensures Lookup(entries, channel) == None
  {
    if |entries| != 0 {
      LookupAbsent(entries[1..], channel);
    }
  }

  /** Storing one channel's checkpoint sets it, and at worst evicts another channel's. */
  lemma StoredLookup(entries: seq<Entry>, channel: Str, checkpoint: Checkpoint, other: Str)
    requires Distinct(entries)
    ensures var r := Stored(entries, channel, checkpoint);
      && Distinct(r) && |r| <= MAX_CHECKPOINTS
      && Lookup(r, channel) == Some(checkpoint)
      && (other != channel ==> Lookup(r, other) in {None, Lookup(entries, other)})
  {
    var kept := Without(entries, channel);
    WithoutLookup(entries, channel, other);
    WithoutLookup(entries, channel, channel);
    var e := Entry(channel, checkpoint);
    var all := kept + [e];
    LookupAppend(kept, e, other);
    LookupAppend(kept, e, channel);
    assert Distinct(all);
    hide Lookup, Without, Distinct;
    var k := if |all| > MAX_CHECKPOINTS then |all| - MAX_CHECKPOINTS else 0;
    assert all[0..] == all;
    LookupSuffix(all, k, other);
    LookupSuffix(all, k, channel);
    assert Stored(entries, channel, checkpoint) == all[k..];
  }

  // --- Transitions ---

  function EmptyState(context: nat): ReadState {
    ReadState(context, 0, [], map[])
  }

  function Invalidate(s: ReadState, context: nat): ReadState {
    ReadState(context, s.nextRequest, [], map[])
  }

  function Begin(s: ReadState, channel: Str, mode: Mode): Option<(ReadState, Ticket)> {
    if channel in s.busy || |s.busy| >= MAX_TRACKED_READS || s.nextRequest >= MAX_SAFE_INTEGER then None
    else
      var ticket := Ticket(channel, s.context, s.nextRequest + 1);
      Some((s.(nextRequest := s.nextRequest + 1, busy := s.busy[channel := BusyRead(ticket, mode, None, [])]), ticket))
  }

  function Release(s: ReadState, t: Ticket): ReadState {
    if t.channel in s.busy && s.busy[t.channel].ticket.context == t.context && s.busy[t.channel].ticket.request == t.request
    then s.(busy := s.busy - {t.channel}) else s
  }

  function ReadAfter(s: ReadState, channel: Str, mode: Mode, tracked: bool): Str {
    if !tracked || mode != New then NONE
    else match Lookup(s.checkpoints, channel) case None => NONE case Some(c) => c.after
  }

  predicate Live(s: ReadState, t: Ticket) {
    && t.context == s.context && t.channel in s.busy
    && s.busy[t.channel].ticket.context == t.context && s.busy[t.channel].ticket.request == t.request
  }

  datatype Assessment = Deliver(reset: bool) | Refetch | Fail

  /** The assessment of the first page a tracked read receives. */
  function AssessPrimary(s: ReadState, t: Ticket, mode: Mode, page: Page): Assessment {
    if !Live(s, t) || !Ordered(page.messages) then Fail
    else match Lookup(s.checkpoints, t.channel)
      case None => Deliver(false)
      case Some(c) =>
        if mode == New && c.after != NONE && page.epoch != c.epoch then Refetch else Deliver(page.epoch != c.epoch)
  }

  function AssessTail(s: ReadState, t: Ticket, page: Page, observedEpoch: Str): Assessment {
    if !Live(s, t) || !Ordered(page.messages) || page.epoch != observedEpoch then Fail else Deliver(true)
  }

  function Sequences(page: Page): (s: seq<Str>)
    ensures |s| == |page.messages| && forall i :: 0 <= i < |s| ==> s[i] == page.messages[i].seqno
  {
    seq(|page.messages|, i requires 0 <= i < |page.messages| => page.messages[i].seqno)
  }

  function Note(s: ReadState, t: Ticket, page: Page): ReadState {
    if !Live(s, t) then s
    else s.(busy := s.busy[t.channel := BusyRead(t, s.busy[t.channel].mode, Some(page.epoch), Sequences(page))])
  }

  predicate Behind(previous: Option<Checkpoint>, epoch: Str, boundary: Str) {
    previous.Some? && previous.value.epoch == epoch && CompareSequence(boundary, previous.value.after) == Before
  }

  function Commit(s: ReadState, t: Ticket, epoch: Str, through: Option<Str>): (ReadState, bool) {
    if !Live(s, t) then (s, false) else
    var delivered := s.busy[t.channel];
    var released := Release(s, t);
    if delivered.epoch != Some(epoch) then (released, false) else
    var previous := Lookup(released.checkpoints, t.channel);
    match through
    case None =>
      if |delivered.sequences| != 0 then (released, false)
      else if previous.Some? && previous.value.epoch == epoch then (released, true)
      else (released.(checkpoints := Stored(released.checkpoints, t.channel, Checkpoint(epoch, NONE))), true)
    case Some(boundary) =>
      if !Canonical(boundary) || boundary == NONE || boundary !in delivered.sequences
         || (Behind(previous, epoch, boundary) && delivered.mode != Recent)
      then (released, false)
      else if previous == Some(Checkpoint(epoch, boundary)) then (released, true)
      else (released.(checkpoints := Stored(released.checkpoints, t.channel, Checkpoint(epoch, boundary))), true)
  }

  /** What every transition keeps. */
  ghost predicate WellFormed(s: ReadState) {
    && Distinct(s.checkpoints) && |s.checkpoints| <= MAX_CHECKPOINTS
    && |s.busy| <= MAX_TRACKED_READS
    && (forall c :: c in s.busy ==>
          && s.busy[c].ticket.channel == c && s.busy[c].ticket.context == s.context
          && 1 <= s.busy[c].ticket.request <= s.nextRequest)
    && (forall c, d :: c in s.busy && d in s.busy && s.busy[c].ticket.request == s.busy[d].ticket.request ==> c == d)
    && (forall i :: 0 <= i < |s.checkpoints| ==> Canonical(s.checkpoints[i].checkpoint.after))
  }

  /** A ticket that is no longer live changes nothing and is never accepted. */
  lemma StaleTicketIsInert(s: ReadState, t: Ticket, page: Page, epoch: Str, through: Option<Str>)
    requires WellFormed(s) && !Live(s, t)
    ensures Note(s, t, page) == s && Release(s, t) == s && Commit(s, t, epoch, through) == (s, false)
    ensures AssessPrimary(s, t, New, page) == Fail && AssessTail(s, t, page, epoch) == Fail
  {
  }

  /** A live ticket is spent by a commit, accepted or not. */
  lemma CommitSpends(s: ReadState, t: Ticket, epoch: Str, through: Option<Str>)
    requires WellFormed(s)
    ensures !Live(Commit(s, t, epoch, through).0, t)
  {
  }

  /** A commit touches no other channel's read. */
  lemma CommitOnlyRemoves(s: ReadState, t: Ticket, epoch: Str, through: Option<Str>)
    ensures var r := Commit(s, t, epoch, through).0;
      && r.context == s.context && r.nextRequest == s.nextRequest
      && (forall c :: c in r.busy ==> c in s.busy && r.busy[c] == s.busy[c])
  {
  }

  lemma ReleaseKeepsWellFormed(s: ReadState, t: Ticket)
    requires WellFormed(s)
    ensures WellFormed(Release(s, t))
  {
    var r := Release(s, t);
    assert r.busy.Keys <= s.busy.Keys;
    SubsetSize(r.busy.Keys, s.busy.Keys);
  }

  function CommittedCheckpoint(epoch: Str, through: Option<Str>): Checkpoint {
    Checkpoint(epoch, if through.Some? then through.value else NONE)
  }

  /** A commit at most releases the read and stores one checkpoint. */
  lemma CommitShape(s: ReadState, t: Ticket, epoch: Str, through: Option<Str>)
    ensures var r := Commit(s, t, epoch, through).0;
      var stored := CommittedCheckpoint(epoch, through);
      && r.(checkpoints := s.checkpoints) in {s, Release(s, t)}
      && (r.checkpoints == s.checkpoints || (Canonical(stored.after) && r.checkpoints == Stored(s.checkpoints, t.channel, stored)))
  {
    hide Stored, Lookup, CompareSequence;
  }

  lemma CheckpointsReplaced(s: ReadState, r: ReadState)
    requires WellFormed(s) && r.(checkpoints := s.checkpoints) == s
    requires Distinct(r.checkpoints) && |r.checkpoints| <= MAX_CHECKPOINTS
    requires forall i :: 0 <= i < |r.checkpoints| ==> Canonical(r.checkpoints[i].checkpoint.after)
    ensures WellFormed(r)
  {
    hide Distinct, Canonical;
  }

  lemma CommitKeepsWellFormed(s: ReadState, t: Ticket, epoch: Str, through: Option<Str>, other: Str)
    requires WellFormed(s)
    ensures var r := Commit(s, t, epoch, through).0;
      && WellFormed(r)
      && (other != t.channel ==> Lookup(r.checkpoints, other) in {None, Lookup(s.checkpoints, other)})
  {
    CommitShape(s, t, epoch, through);
    ReleaseKeepsWellFormed(s, t);
    var r := Commit(s, t, epoch, through).0;
    var stored := CommittedCheckpoint(epoch, through);
    hide Commit, CommittedCheckpoint, Stored, Lookup, Canonical;
    if r.checkpoints != s.checkpoints {
      StoredLookup(s.checkpoints, t.channel, stored, other);
      StoredCanonical(s.checkpoints, t.channel, stored);
    }
    var base := r.(checkpoints := s.checkpoints);
    assert WellFormed(base);
    hide Release, Distinct;
    CheckpointsReplaced(base, r);
  }

  lemma SubsetSize<T>(a: set<T>, b: set<T>)
    requires a <= b
    ensures |a| <= |b|
  {
    assert b == a + (b - a);
  }

  /** What an accepted commit did: it stored a sequence of the page last noted under the live ticket, in
      that page's epoch, or it completed an empty page. A refused one changed no checkpoint. */
  lemma CommitBoundary(s: ReadState, t: Ticket, epoch: Str, through: Option<Str>)
    requires WellFormed(s)
    ensures var (r, accepted) := Commit(s, t, epoch, through);
      var before, after := Lookup(s.checkpoints, t.channel), Lookup(r.checkpoints, t.channel);
      && (!accepted ==> r.checkpoints == s.checkpoints)
      && (accepted ==> Live(s, t) && s.busy[t.channel].epoch == Some(epoch) && after.Some? && after.value.epoch == epoch)
      && (accepted && through.Some? ==> through.value in s.busy[t.channel].sequences && Canonical(through.value)
                                        && through.value != NONE && after == Some(Checkpoint(epoch, through.value)))
      && (accepted && through.None? ==> s.busy[t.channel].sequences == []
                                        && after == if before.Some? && before.value.epoch == epoch then before
                                                    else Some(Checkpoint(epoch, NONE)))
  {
    hide CompareSequence;
    if Live(s, t) {
      StoredLookup(s.checkpoints, t.channel, Checkpoint(epoch, if through.Some? then through.value else NONE), t.channel);
    }
    hide Stored, Lookup;
  }

  /** No accepted new-mode commit moves a checkpoint back within an epoch. */
  lemma CommitNeverBack(s: ReadState, t: Ticket, epoch: Str, through: Option<Str>)
    requires WellFormed(s)
    requires Commit(s, t, epoch, through).1 && s.busy[t.channel].mode == New
    requires var before := Lookup(s.checkpoints, t.channel); before.Some? && before.value.epoch == epoch
    ensures var before, after := Lookup(s.checkpoints, t.channel), Lookup(Commit(s, t, epoch, through).0.checkpoints, t.channel);
      && after.Some? && Canonical(before.value.after) && Canonical(after.value.after)
      && Num(before.value.after) <= Num(after.value.after)
  {
    LookupCanonical(s.checkpoints, t.channel);
    CommitBoundary(s, t, epoch, through);
    var before := Lookup(s.checkpoints, t.channel);
    if through.Some? {
      CompareIsNumeric(through.value, before.value.after);
      hide Stored, Lookup, CompareSequence, Num;
      assert !Behind(before, epoch, through.value);
    }
  }

  lemma {:induction false} LookupCanonical(entries: seq<Entry>, channel: Str)
    requires Lookup(entries, channel).Some?
    requires forall i :: 0 <= i < |entries| ==> Canonical(entries[i].checkpoint.after)
    ensures Canonical(Lookup(entries, channel).value.after)
  {
    if entries[0].channel != channel {
      LookupCanonical(entries[1..], channel);
    }
  }

  lemma StoredCanonical(entries: seq<Entry>, channel: Str, c: Checkpoint)
    requires forall i :: 0 <= i < |entries| ==> Canonical(entries[i].checkpoint.after)
    requires Canonical(c.after)
    ensures forall i :: 0 <= i < |Stored(entries, channel, c)| ==> Canonical(Stored(entries, channel, c)[i].checkpoint.after)
  {
    WithoutLookup(entries, channel, channel);
    var kept := Without(entries, channel);
    forall i | 0 <= i < |kept| ensures Canonical(kept[i].checkpoint.after) {
      assert kept[i] in entries;
    }
  }

  lemma BeginMeaning(s: ReadState, channel: Str, mode: Mode)
    requires WellFormed(s)
    ensures var r := Begin(s, channel, mode);
      r.Some? ==> WellFormed(r.value.0) && Live(r.value.0, r.value.1) && !Live(s, r.value.1)
                  && r.value.1 == Ticket(channel, s.context, s.nextRequest + 1)
                  && r.value.0.checkpoints == s.checkpoints
  {
  }
}
