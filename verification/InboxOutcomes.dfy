/** What each mailbox operation does, told from the mailbox and the mail alone (extension/inbox.ts). */
module InboxOutcomes {
  import opened Options
  import opened Strings
  import opened SendKinds
  import opened Decimal
  import opened Utf8
  import opened Inbox
  import opened Batches

  // --- Receiving ---

  function Remembered(s: State, mono: int): set<(Str, Str)> {
    set k | k in s.dedup && s.dedup[k] > mono
  }

  /** All 32 records still wait for delivery. */
  predicate Crowded(s: State) {
    |s.records| >= 32 && forall i :: 0 <= i < |s.records| ==> s.records[i].handling == PendingContext
  }

  /** Mail becomes a record unless it is remembered, too much is remembered, the receipts are used up or every record
      still waits. */
  predicate Admits(s: State, mail: Mail, mono: int) {
    && (mail.from, mail.id) !in Remembered(s, mono) && |Remembered(s, mono)| < 4096 && s.nextReceipt.Some? && !Crowded(s)
  }

  lemma LiveIsRemembered(s: State, mono: int)
    ensures Unexpired(s.dedup, mono).Keys == Remembered(s, mono) && |Unexpired(s.dedup, mono)| == |Remembered(s, mono)|
  {
    assert Unexpired(s.dedup, mono).Keys == Remembered(s, mono);
  }

  lemma CrowdedExactly(s: State)
    ensures Crowded(s) <==> |s.records| >= 32 && FirstSettled(s.records) == |s.records|
  {
  }

  /** What admitted mail leaves: the next receipt's record, unread and at the end. A notice waits for delivery. Control
      mail is discarded exactly when control is off or the slot is held, and is injected otherwise. */
  lemma AdmittedMail(s: State, mail: Mail, mono: int, wall: int, allowControl: bool)
    requires Admits(s, mail, mono)
    ensures var r := Receive(s, mail, mono, wall, allowControl).state; var n := |r.records|; var k := s.nextReceipt.value;
      && n != 0 && r.records[n - 1].mail == mail && r.records[n - 1].key == Render(k) && !r.records[n - 1].humanRead
      && r.records[n - 1].receivedAt == wall && r.records[n - 1].receivedMono == mono
      && (r.records[n - 1].handling == PendingContext <==> mail.kind == Notice)
      && (r.records[n - 1].handling == Discarded <==> mail.kind != Notice && (!allowControl || s.pendingControl.Some?))
      && (r.records[n - 1].handling == InjectionAttempted <==> mail.kind != Notice && allowControl && s.pendingControl.None?)
      && r.nextReceipt == (if k == 18446744073709551615 then None else Some(k + 1))
  {
    LiveIsRemembered(s, mono);
    CrowdedExactly(s);
    hide Content, Render, FirstSettled, Unexpired, Remembered;
  }

  /** The history makes room by losing its oldest record that no longer waits, and only when it holds 32. */
  lemma HistoryAfter(s: State, mail: Mail, mono: int, wall: int, allowControl: bool)
    requires Admits(s, mail, mono)
    ensures var r := Receive(s, mail, mono, wall, allowControl).state; var n := |r.records|;
      if |s.records| < 32 then n != 0 && r.records[..n - 1] == s.records
      else exists i :: 0 <= i < |s.records| && OldestSettled(s.records, i) && n != 0
                       && r.records[..n - 1] == s.records[..i] + s.records[i + 1..]
  {
    LiveIsRemembered(s, mono);
    CrowdedExactly(s);
    var i := FirstSettled(s.records);
    assert i < |s.records| ==> OldestSettled(s.records, i);
    hide Content, Render, FirstSettled, Unexpired, Remembered, NewRecord;
  }

  predicate OldestSettled(records: seq<Record>, i: nat) {
    && i < |records| && records[i].handling != PendingContext
    && forall j :: 0 <= j < i ==> records[j].handling == PendingContext
  }

  /** A control is handed out exactly for admitted control mail, when control is on and the slot free; it carries the
      mail's kind and the new record's key and frame, and holds the slot. Nothing else changes the slot. */
  lemma ControlHandedOut(s: State, mail: Mail, mono: int, wall: int, allowControl: bool)
    ensures var r := Receive(s, mail, mono, wall, allowControl);
      && (r.control.Some? <==> Admits(s, mail, mono) && mail.kind != Notice && allowControl && s.pendingControl.None?)
      && (r.control.Some? ==>
            var n := |r.state.records|;
            && n != 0 && r.control.value.kind == mail.kind && r.control.value.key == r.state.records[n - 1].key
            && r.control.value.text == Content(r.state.records[n - 1]))
      && r.state.pendingControl == if r.control.Some? then r.control else s.pendingControl
  {
    LiveIsRemembered(s, mono);
    CrowdedExactly(s);
    hide Content, Render, FirstSettled, Unexpired, Remembered;
  }

  /** Mail that is not admitted changes nothing but what is remembered. */
  lemma RefusedMail(s: State, mail: Mail, mono: int, wall: int, allowControl: bool)
    requires !Admits(s, mail, mono)
    ensures var r := Receive(s, mail, mono, wall, allowControl).state;
      r.records == s.records && r.nextReceipt == s.nextReceipt && r.pendingControl == s.pendingControl
  {
    LiveIsRemembered(s, mono);
    CrowdedExactly(s);
    hide Content, Render, FirstSettled, Unexpired, Remembered;
  }

  /** What is remembered afterwards: what still was, and this mail for two minutes unless it was already or 4096 are. */
  lemma RememberedAfter(s: State, mail: Mail, mono: int, wall: int, allowControl: bool)
    ensures var r := Receive(s, mail, mono, wall, allowControl).state.dedup;
      var wire := (mail.from, mail.id);
      var added := wire !in Remembered(s, mono) && |Remembered(s, mono)| < 4096;
      && r.Keys == Remembered(s, mono) + (if added then {wire} else {})
      && forall k :: k in r ==> r[k] == if added && k == wire then mono + 120000 else s.dedup[k]
  {
    LiveIsRemembered(s, mono);
    DedupAfter(s, mail, mono, wall, allowControl);
    hide Receive;
  }

  lemma DedupAfter(s: State, mail: Mail, mono: int, wall: int, allowControl: bool)
    ensures var live := Unexpired(s.dedup, mono); var wire := (mail.from, mail.id);
      Receive(s, mail, mono, wall, allowControl).state.dedup
      == if wire in live || |live| >= 4096 then live else live[wire := mono + 120000]
  {
    hide Content, Render, FirstSettled, NewRecord, Unexpired;
  }

  /** The warnings: the first reason for refusing mail that is not a repeat, or for admitted mail that an unread record
      was lost and why its control was discarded. */
  lemma WarningsGiven(s: State, mail: Mail, mono: int, wall: int, allowControl: bool)
    ensures var w := Receive(s, mail, mono, wall, allowControl).warnings;
      var lostUnread := |s.records| >= 32 && exists i :: 0 <= i < |s.records| && OldestSettled(s.records, i) && !s.records[i].humanRead;
      if (mail.from, mail.id) in Remembered(s, mono) then w == []
      else if |Remembered(s, mono)| >= 4096 then w == [DedupCapacity]
      else if s.nextReceipt.None? then w == [ReceiptCapacity]
      else if Crowded(s) then w == [InboxCapacity]
      else w == (if lostUnread then [UnreadEviction] else [])
                + (if mail.kind == Notice then [] else if !allowControl then [ControlDisabled]
                   else if s.pendingControl.Some? then [ControlPending] else [])
  {
    LiveIsRemembered(s, mono);
    CrowdedExactly(s);
    SettledOnce(s.records);
    hide Content, Render, FirstSettled, Unexpired, Remembered;
  }

  lemma SettledOnce(records: seq<Record>)
    ensures var i := FirstSettled(records);
      && (i < |records| ==> OldestSettled(records, i)) && forall j :: 0 <= j < |records| && OldestSettled(records, j) ==> j == i
  {
  }

  // --- Taking, claiming, reading, echoing ---

  function BodyBytes(rs: seq<Record>): nat {
    if |rs| == 0 then 0 else Utf8Length(rs[0].mail.body) + BodyBytes(rs[1..])
  }

  /** As many of the records as their bodies leave room for, in order. */
  ghost predicate LongestFit(taken: seq<Record>, waiting: seq<Record>, body: nat) {
    && taken <= waiting && body + BodyBytes(taken) <= 16384
    && (|taken| < |waiting| ==> body + BodyBytes(taken) + Utf8Length(waiting[|taken|].mail.body) > 16384)
  }

  lemma LongestWith(r: Record, taken: seq<Record>, waiting: seq<Record>, body: nat)
    requires LongestFit(taken, waiting, body + Utf8Length(r.mail.body))
    ensures LongestFit([r] + taken, [r] + waiting, body)
  {
    FirstBody(r, taken);
    hide Utf8Length, BodyBytes;
    assert |taken| < |waiting| ==> ([r] + waiting)[|taken| + 1] == waiting[|taken|];
  }

  lemma {:induction false} LongestByBody(rs: seq<Record>, body: nat)
    requires body <= 16384
    ensures LongestFit(SelectByBody(rs, body), Pending(rs), body)
  {
    hide Utf8Length, LongestFit;
    if |rs| == 0 || (rs[0].handling.PendingContext? && body + Utf8Length(rs[0].mail.body) > 16384) {
      StopsHere(rs, body);
    } else if !rs[0].handling.PendingContext? {
      LongestByBody(rs[1..], body);
      assert Pending(rs) == Pending(rs[1..]);
    } else {
      var size := Utf8Length(rs[0].mail.body);
      LongestByBody(rs[1..], body + size);
      LongestWith(rs[0], SelectByBody(rs[1..], body + size), Pending(rs[1..]), body);
    }
  }

  lemma StopsHere(rs: seq<Record>, body: nat)
    requires body <= 16384 && (|rs| == 0 || (rs[0].handling.PendingContext? && body + Utf8Length(rs[0].mail.body) > 16384))
    ensures LongestFit(SelectByBody(rs, body), Pending(rs), body)
  {
    hide Utf8Length;
  }

  lemma FirstBody(r: Record, rs: seq<Record>)
    ensures BodyBytes([r] + rs) == Utf8Length(r.mail.body) + BodyBytes(rs)
  {
    hide Utf8Length;
    assert ([r] + rs)[1..] == rs;
  }

  /** A batch is the longest front part of the waiting records whose bodies take 16384 bytes together. */
  lemma BatchIsLongest(s: State)
    requires Ready(s)
    ensures LongestFit(Taken(s), Pending(s.records), 0)
  {
    hide Utf8Length, Select, Deliverable, SelectByBody, Pending, LongestFit;
    BatchLimitNeverBinds(s);
    LongestByBody(s.records, 0);
  }

  /** Taking a batch marks its records attempted and changes nothing else. */
  lemma BatchMarked(s: State)
    requires Ready(s)
    ensures var r := AfterTake(s);
      && |r.records| == |s.records| && r.pendingControl == s.pendingControl && r.nextReceipt == s.nextReceipt && r.dedup == s.dedup
      && forall i :: 0 <= i < |s.records| ==>
           r.records[i] == if s.records[i] in Taken(s) then s.records[i].(handling := ContextAttempted) else s.records[i]
  {
    var taken, keys := Taken(s), Keys(Taken(s));
    KeysAre(taken);
    AttemptExcludes(s.records, keys);
    hide Taken, Select, Pending, Attempt, Keys, Deliverable, Excluding;
    forall i | 0 <= i < |s.records| ensures s.records[i].key in keys <==> s.records[i] in taken {
      TakenKey(s, i);
    }
  }

  lemma TakenKey(s: State, i: nat)
    requires Ready(s) && i < |s.records|
    ensures s.records[i].key in Keys(Taken(s)) <==> s.records[i] in Taken(s)
  {
    var taken, keys := Taken(s), Keys(Taken(s));
    SelectIsPrefix(s.records, 0, 0);
    KeysAre(taken);
    hide Taken, Select, Pending, Keys, Deliverable;
    if s.records[i].key in keys {
      var j :| 0 <= j < |keys| && keys[j] == s.records[i].key;
      assert taken[j] == Pending(s.records)[j];
      var k :| 0 <= k < |s.records| && s.records[k] == taken[j];
    }
    if s.records[i] in taken {
      var j :| 0 <= j < |taken| && taken[j] == s.records[i];
      assert keys[j] == taken[j].key;
    }
  }

  /** A batch is delivered through the slot when it is free and something waits; its key is the first record's. */
  lemma ClaimedDelivery(s: State)
    ensures var (r, control) := Claim(s);
      && (control.Some? <==> s.pendingControl.None? && Taken(s) != [])
      && (control.None? ==> r == s)
      && (control.Some? ==> control.value.kind == Prompt && control.value.key == Taken(s)[0].key
                            && control.value.text == Contents(Taken(s)) && r.pendingControl == control
                            && r.records == AfterTake(s).records && r.nextReceipt == s.nextReceipt && r.dedup == s.dedup)
  {
    hide Contents, Select, Attempt;
  }

  /** Marking reads exactly the records of one key and changes nothing else. */
  lemma MarkedRead(s: State, key: Str)
    ensures var r := MarkRead(s, key);
      && |r.records| == |s.records| && r.pendingControl == s.pendingControl && r.nextReceipt == s.nextReceipt && r.dedup == s.dedup
      && forall i :: 0 <= i < |s.records| ==>
           && r.records[i].humanRead == (s.records[i].humanRead || s.records[i].key == key)
           && r.records[i].(humanRead := false) == s.records[i].(humanRead := false)
  {
  }

  /** Only the held text frees the slot. */
  lemma EchoedText(s: State, text: Str)
    ensures var r := Consume(s, text);
      && (r.pendingControl.None? <==> s.pendingControl.None? || s.pendingControl.value.text == text)
      && (r.pendingControl.Some? ==> r.pendingControl == s.pendingControl)
      && r.records == s.records && r.nextReceipt == s.nextReceipt && r.dedup == s.dedup
  {
  }
}
