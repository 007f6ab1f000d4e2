/** What each step of a ticketed read does, told from the state alone: when it is allowed, and everything it leaves. */
module ReadOutcomes {
  import opened Options
  import opened Strings
  import opened Decimal
  import opened Channels
  import opened ChannelReads

  // --- Beginning, releasing, noting ---

  /** A read begins exactly when its channel has none, fewer than 128 are busy and the request numbers last. */
  lemma BeginsExactly(s: ReadState, channel: Str, mode: Mode)
    ensures Begin(s, channel, mode).Some? <==> channel !in s.busy && |s.busy| < 128 && s.nextRequest < 9007199254740991
    ensures Begin(s, channel, mode).Some? ==>
              var (r, t) := Begin(s, channel, mode).value;
              && t == Ticket(channel, s.context, s.nextRequest + 1) && r.nextRequest == t.request && r.context == s.context
              && r.checkpoints == s.checkpoints && r.busy.Keys == s.busy.Keys + {channel}
              && r.busy[channel].ticket == t && r.busy[channel].mode == mode && r.busy[channel].epoch == None && r.busy[channel].sequences == []
              && forall c :: c in s.busy ==> r.busy[c] == s.busy[c]
  {
  }

  /** A live ticket's release ends its read and no other. */
  lemma ReleasesExactly(s: ReadState, t: Ticket)
    requires WellFormed(s) && Live(s, t)
    ensures var r := Release(s, t);
      && t.channel !in r.busy && r.context == s.context && r.nextRequest == s.nextRequest && r.checkpoints == s.checkpoints
      && r.busy.Keys == s.busy.Keys - {t.channel} && forall c :: c in r.busy ==> r.busy[c] == s.busy[c]
  {
  }

  /** Noting a page under a live ticket records its epoch and its sequences, and nothing else changes. */
  lemma NotesExactly(s: ReadState, t: Ticket, page: Page)
    requires WellFormed(s) && Live(s, t)
    ensures var r := Note(s, t, page);
      && r.context == s.context && r.nextRequest == s.nextRequest && r.checkpoints == s.checkpoints
      && r.busy.Keys == s.busy.Keys && (forall c :: c in s.busy && c != t.channel ==> r.busy[c] == s.busy[c])
      && r.busy[t.channel].ticket == t && r.busy[t.channel].mode == s.busy[t.channel].mode
      && r.busy[t.channel].epoch == Some(page.epoch) && |r.busy[t.channel].sequences| == |page.messages|
      && forall i :: 0 <= i < |page.messages| ==> r.busy[t.channel].sequences[i] == page.messages[i].seqno
  {
  }

  /** An invalidation drops every checkpoint and read but never reuses a request number. */
  lemma InvalidatesAll(s: ReadState, context: nat, t: Ticket)
    requires context != s.context && t.context == s.context
    ensures var r := Invalidate(s, context);
      r.checkpoints == [] && r.busy == map[] && r.nextRequest == s.nextRequest && r.context == context && !Live(r, t)
  {
  }

  /** Only a tracked new-mode read asks from its channel's boundary. */
  lemma AsksFrom(s: ReadState, channel: Str, mode: Mode, tracked: bool)
    ensures var c := Lookup(s.checkpoints, channel);
      ReadAfter(s, channel, mode, tracked) == if tracked && mode == New && c.Some? then c.value.after else NONE
  {
  }

  // --- Assessing ---

  /** A first page is refused exactly when its ticket is dead or it is unordered; its tail is fetched exactly when a new
      read goes on from a nonzero boundary of another epoch; it is a reset exactly when it is of another epoch. */
  lemma AssessesExactly(s: ReadState, t: Ticket, mode: Mode, page: Page)
    ensures var a, c := AssessPrimary(s, t, mode, page), Lookup(s.checkpoints, t.channel);
      var foreign := c.Some? && c.value.epoch != page.epoch;
      && (a == Fail <==> !Live(s, t) || !Ordered(page.messages))
      && (a == Refetch <==> Live(s, t) && Ordered(page.messages) && foreign && mode == New && c.value.after != NONE)
      && (a == Deliver(true) <==> Live(s, t) && Ordered(page.messages) && foreign && (mode == Recent || c.value.after == NONE))
      && (a == Deliver(false) <==> Live(s, t) && Ordered(page.messages) && !foreign)
  {
  }

  lemma AssessesTailExactly(s: ReadState, t: Ticket, page: Page, observed: Str)
    ensures AssessTail(s, t, page, observed)
            == if Live(s, t) && Ordered(page.messages) && page.epoch == observed then Deliver(true) else Fail
  {
  }

  // --- Committing ---

  /** Whether a boundary may be committed to a read of this mode, epoch and page over this checkpoint. */
  predicate Committable(b: BusyRead, epoch: Str, through: Option<Str>, c: Option<Checkpoint>) {
    && b.epoch == Some(epoch)
    && match through
       case None => b.sequences == []
       case Some(n) =>
         && Canonical(n) && n != NONE && n in b.sequences
         && (b.mode == Recent || c.None? || c.value.epoch != epoch || Num(n) >= Num(c.value.after))
  }

  /** A commit is accepted exactly when its ticket is live and its boundary committable: an empty page, or a sequence of
      the noted page that, for a new read, is not before the boundary of the same epoch. */
  lemma CommitsExactly(s: ReadState, t: Ticket, epoch: Str, through: Option<Str>)
    requires WellFormed(s)
    ensures Commit(s, t, epoch, through).1 <==>
            Live(s, t) && Committable(s.busy[t.channel], epoch, through, Lookup(s.checkpoints, t.channel))
  {
    if Live(s, t) && through.Some? && Canonical(through.value) && Lookup(s.checkpoints, t.channel).Some? {
      LookupCanonical(s.checkpoints, t.channel);
      CompareIsNumeric(through.value, Lookup(s.checkpoints, t.channel).value.after);
    }
    hide Canonical, Num, Lookup, Stored, CompareSequence;
  }

  /** Accepted or not, a live ticket's commit ends its read and no other; a dead ticket's changes nothing. */
  lemma CommitReleases(s: ReadState, t: Ticket, epoch: Str, through: Option<Str>)
    requires WellFormed(s)
    ensures var r := Commit(s, t, epoch, through).0;
      && (!Live(s, t) ==> r == s)
      && (Live(s, t) ==> r.busy == Release(s, t).busy && t.channel !in r.busy)
      && (!Commit(s, t, epoch, through).1 ==> r.checkpoints == s.checkpoints)
  {
    hide Canonical, Num, Lookup, Stored, CompareSequence;
  }

  // --- Which checkpoints last ---

  lemma {:induction false} WithoutAbsent(entries: seq<Entry>, channel: Str)
    requires forall i :: 0 <= i < |entries| ==> entries[i].channel != channel
    ensures Without(entries, channel) == entries
  {
    if |entries| != 0 {
      WithoutAbsent(entries[1..], channel);
      assert entries == [entries[0]] + entries[1..];
    }
  }

  lemma {:induction false} WithoutShorter(entries: seq<Entry>, channel: Str)
    ensures |Without(entries, channel)| <= |entries|
    ensures (exists i :: 0 <= i < |entries| && entries[i].channel == channel) ==> |Without(entries, channel)| < |entries|
  {
    if |entries| != 0 {
      WithoutShorter(entries[1..], channel);
      if i :| 1 <= i < |entries| && entries[i].channel == channel {
        assert entries[1..][i - 1].channel == channel;
      }
    }
  }

  /** No checkpoint is lost while there is room; a new channel beyond the 128th costs exactly the oldest. */
  lemma EvictsOldest(entries: seq<Entry>, channel: Str, checkpoint: Checkpoint, other: Str)
    requires Distinct(entries) && |entries| <= 128 && other != channel
    ensures var r := Stored(entries, channel, checkpoint);
      var full := |entries| == 128 && Lookup(entries, channel).None?;
      Lookup(r, other) == if full && entries[0].channel == other then None else Lookup(entries, other)
  {
    var kept := Without(entries, channel);
    var e := Entry(channel, checkpoint);
    WithoutLookup(entries, channel, other);
    WithoutShorter(entries, channel);
    LookupAppend(kept, e, other);
    if Lookup(entries, channel).Some? {
      LookupFound(entries, channel);
      assert |kept + [e]| <= 128;
      assert (kept + [e])[0..] == kept + [e];
    } else {
      AbsentEverywhere(entries, channel);
      WithoutAbsent(entries, channel);
      if |entries| == 128 {
        assert (kept + [e])[1..] == entries[1..] + [e];
        LookupAppend(entries[1..], e, other);
        if entries[0].channel == other {
          DistinctTail(entries);
          LookupAbsent(entries[1..], other);
        }
      } else {
        assert (kept + [e])[0..] == kept + [e];
      }
    }
  }

  lemma {:induction false} AbsentEverywhere(entries: seq<Entry>, channel: Str)
    requires Lookup(entries, channel).None?
    ensures forall i :: 0 <= i < |entries| ==> entries[i].channel != channel
  {
    if |entries| != 0 {
      AbsentEverywhere(entries[1..], channel);
    }
  }

  /** Where an entry stands among the others. */
  ghost predicate InOrder(r: seq<Entry>, entries: seq<Entry>) {
    forall i, j :: 0 <= i < j < |r| ==> Precedes(entries, r[i], r[j])
  }

  ghost predicate Precedes(entries: seq<Entry>, a: Entry, b: Entry) {
    exists i, j :: 0 <= i < j < |entries| && entries[i] == a && entries[j] == b
  }

  lemma {:induction false} WithoutOrder(entries: seq<Entry>, channel: Str)
    ensures InOrder(Without(entries, channel), entries)
    ensures forall x :: x in Without(entries, channel) ==> x in entries
  {
    if |entries| != 0 {
      var rest := Without(entries[1..], channel);
      WithoutOrder(entries[1..], channel);
      var r := Without(entries, channel);
      forall i, j | 0 <= i < j < |r|
        ensures Precedes(entries, r[i], r[j])
      {
        var d := if entries[0].channel == channel then 0 else 1;
        assert r[j] == rest[j - d];
        if d == 1 && i == 0 {
          assert r[j] in entries[1..];
          var k :| 0 <= k < |entries[1..]| && entries[1..][k] == r[j];
          assert entries[0] == r[0] && entries[k + 1] == r[j];
        } else {
          assert r[i] == rest[i - d] && Precedes(entries[1..], rest[i - d], rest[j - d]);
          var a, b :| 0 <= a < b < |entries[1..]| && entries[1..][a] == r[i] && entries[1..][b] == r[j];
          assert entries[a + 1] == r[i] && entries[b + 1] == r[j];
        }
      }
    }
  }

  /** The stored checkpoint is the newest and the others keep their order. */
  lemma StoresNewest(entries: seq<Entry>, channel: Str, checkpoint: Checkpoint)
    ensures var r := Stored(entries, channel, checkpoint);
      |r| != 0 && r[|r| - 1] == Entry(channel, checkpoint) && InOrder(r[..|r| - 1], entries)
  {
    var kept := Without(entries, channel);
    WithoutOrder(entries, channel);
    var r := Stored(entries, channel, checkpoint);
    var others := r[..|r| - 1];
    forall i, j | 0 <= i < j < |others|
      ensures Precedes(entries, others[i], others[j])
    {
      var d := |kept| + 1 - |r|;
      assert others[i] == kept[i + d] && others[j] == kept[j + d];
    }
  }
}
