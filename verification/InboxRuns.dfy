/** Whole runs of the mailbox: conservation of notices, spacing of repeated mail and the single delivery slot. */
module InboxRuns {
  import opened Options
  import opened Strings
  import opened SendKinds
  import opened Decimal
  import opened Utf8
  import opened JsonText
  import opened Inbox
  import opened Batches

  /** The mailbox beside what was seen of it: every record it accepted, the keys its batches delivered, the
      controls it emitted and the texts that released its slot. */
  datatype World = World(state: State, now: int, kept: seq<Record>, delivered: seq<Str>,
                         emitted: seq<Control>, released: seq<Str>)

  datatype Step =
    | Arrive(mail: Mail, mono: int, wall: int, allowControl: bool)
    | TakeBatch
    | ClaimDelivery
    | Read(key: Str)
    | Echo(text: Str)

  function Start(now: int): World {
    World(INITIAL, now, [], [], [], [])
  }

  function Emission(c: Option<Control>): seq<Control> {
    if c.Some? then [c.value] else []
  }

  function After(w: World, step: Step): World {
    match step
    case Arrive(mail, mono, wall, allowControl) =>
      var r := Receive(w.state, mail, mono, wall, allowControl);
      var n := |r.state.records|;
      w.(state := r.state, now := mono, emitted := w.emitted + Emission(r.control),
         kept := if r.state.nextReceipt != w.state.nextReceipt && n != 0 then w.kept + [r.state.records[n - 1]] else w.kept)
    case TakeBatch => w.(state := AfterTake(w.state), delivered := w.delivered + Keys(Taken(w.state)))
    case ClaimDelivery =>
      var (state, control) := Claim(w.state);
      w.(state := state, emitted := w.emitted + Emission(control),
         delivered := if control.Some? then w.delivered + Keys(Taken(w.state)) else w.delivered)
    case Read(key) => w.(state := MarkRead(w.state, key))
    case Echo(text) =>
      var state := Consume(w.state, text);
      w.(state := state, released := if state != w.state then w.released + [text] else w.released)
  }

  /** What the caller owes: transport-valid mail and a clock that does not run back. */
  predicate Admissible(w: World, step: Step) {
    step.Arrive? ==> ValidMail(step.mail) && step.mono >= w.now
  }

  predicate AllAdmissible(w: World, steps: seq<Step>)
    decreases |steps|
  {
    |steps| == 0 || (Admissible(w, steps[0]) && AllAdmissible(After(w, steps[0]), steps[1..]))
  }

  function Run(w: World, steps: seq<Step>): World
    decreases |steps|
  {
    if |steps| == 0 then w else Run(After(w, steps[0]), steps[1..])
  }

  // --- The invariant ---

  function Wire(r: Record): (Str, Str) {
    (r.mail.from, r.mail.id)
  }

  predicate Issued(key: Str, count: nat) {
    Canonical(key) && 1 <= Num(key) <= count && key == Render(Num(key))
  }

  /** The receipts of the accepted records are 1, 2, 3, ..., and the counter stops instead of wrapping. */
  ghost predicate Numbered(w: World) {
    && |w.kept| <= MAX_UINT64
    && w.state.nextReceipt == (if |w.kept| == MAX_UINT64 then None else Some(|w.kept| + 1))
    && forall i :: 0 <= i < |w.kept| ==> w.kept[i].key == Render(i + 1)
  }

  ghost predicate Held(rs: seq<Record>, count: nat) {
    && |rs| <= MAX_RECORDS
    && (forall i :: 0 <= i < |rs| ==> ValidMail(rs[i].mail) && Issued(rs[i].key, count))
    && (forall i, j :: 0 <= i < j < |rs| ==> Num(rs[i].key) < Num(rs[j].key))
  }

  /** Delivered, then still pending: exactly the accepted notices in the order they arrived. */
  ghost predicate Conserved(w: World) {
    w.delivered + Keys(Pending(w.state.records)) == Keys(Pending(w.kept))
  }

  /** Two accepted records of one sender's message are at least two minutes apart. */
  ghost predicate Spaced(kept: seq<Record>) {
    forall i, j :: 0 <= i < j < |kept| && Wire(kept[i]) == Wire(kept[j]) ==> kept[j].receivedMono >= kept[i].receivedMono + DEDUP_MS
  }

  ghost predicate Remembers(w: World) {
    forall i :: 0 <= i < |w.kept| && w.kept[i].receivedMono + DEDUP_MS > w.now ==>
      Wire(w.kept[i]) in w.state.dedup && w.state.dedup[Wire(w.kept[i])] >= w.kept[i].receivedMono + DEDUP_MS
  }

  /** Emissions and exact-text releases alternate, and the slot holds the emission not yet released. */
  ghost predicate OneSlot(w: World) {
    && |w.released| <= |w.emitted| <= |w.released| + 1
    && (forall i :: 0 <= i < |w.released| ==> w.released[i] == w.emitted[i].text)
    && w.state.pendingControl == (if |w.emitted| == |w.released| then None else Some(w.emitted[|w.emitted| - 1]))
  }

  /** A control's text names its receipt before anything a peer wrote. */
  predicate Named(c: Control) {
    LEAD + c.key + [QUOTE] <= c.text
  }

  ghost predicate Fresh(w: World) {
    && (forall i :: 0 <= i < |w.emitted| ==>
          Issued(w.emitted[i].key, |w.kept|) && Named(w.emitted[i]) && w.emitted[i].key !in Keys(Pending(w.state.records)))
    && (forall i, j :: 0 <= i < j < |w.emitted| ==> w.emitted[i].key != w.emitted[j].key)
  }

  ghost predicate Good(w: World) {
    Numbered(w) && Held(w.state.records, |w.kept|) && Conserved(w) && Spaced(w.kept) && Remembers(w) && OneSlot(w) && Fresh(w)
  }

  // --- Keys ---

  lemma HeldIsReady(rs: seq<Record>, count: nat)
    requires Held(rs, count)
    ensures DistinctKeys(rs) && forall i :: 0 <= i < |rs| ==> Deliverable(rs[i])
  {
    hide ValidMail, Num;
    forall i, j | 0 <= i < j < |rs| ensures rs[i].key != rs[j].key {
      assert Num(rs[i].key) < Num(rs[j].key);
    }
    forall i | 0 <= i < |rs| ensures Deliverable(rs[i]) {
      assert Issued(rs[i].key, count);
    }
  }

  lemma IssuedGrows(key: Str, m: nat, n: nat)
    requires Issued(key, m) && m <= n
    ensures Issued(key, n)
  {
  }

  lemma NextIsNew(key: Str, count: nat)
    requires Issued(key, count) && count < MAX_UINT64
    ensures key != Render(count + 1) && Issued(Render(count + 1), count + 1) && Num(key) < Num(Render(count + 1))
  {
    RenderCanonical(count + 1);
  }

  lemma ConcatThree(parts: seq<Str>)
    requires |parts| >= 3
    ensures Concat(parts) == parts[0] + (parts[1] + (parts[2] + Concat(parts[3..])))
  {
    assert parts[1..][1..] == parts[2..] && parts[2..][1..] == parts[3..];
    assert Concat(parts[2..]) == parts[2] + Concat(parts[3..]);
    assert Concat(parts[1..]) == parts[1] + Concat(parts[2..]);
  }

  lemma LeadsWith(lead: Str, key: Str, mark: Str, x: Str)
    requires |mark| != 0 && mark[0] == QUOTE
    ensures lead + key + [QUOTE] <= lead + (key + (mark + x))
  {
  }

  lemma StillLeads(p: Str, s: Str, more: Str)
    requires p <= s
    ensures p <= s + more
  {
  }

  lemma ContentNamed(r: Record, kind: Kind, rest: Str)
    requires DigitKey(r.key)
    ensures Named(Control(r.key, kind, Content(r) + rest))
  {
    PlainEscape(r.key);
    KindMark();
    hide ValidMail, Units, KindText, Escape, Concat;
    var parts := HeaderParts(r);
    ConcatThree(parts);
    var p := LEAD + r.key + [QUOTE];
    LeadsWith(LEAD, r.key, parts[2], Concat(parts[3..]));
    hide HeaderParts;
    StillLeads(p, Concat(parts), Escape(r.mail.senderHost));
    StillLeads(p, Concat(parts) + Escape(r.mail.senderHost), Units("\",\"label\":\""));
    hide HeaderStart;
    StillLeads(p, HeaderStart(r), Escape(r.mail.senderLabel));
    StillLeads(p, HeaderStart(r) + Escape(r.mail.senderLabel), HEADER_END);
    hide Header;
    StillLeads(p, Header(r), r.mail.body);
    StillLeads(p, Header(r) + r.mail.body, FOOTER);
    hide Content;
    StillLeads(p, Content(r), rest);
  }

  lemma KindMark()
    ensures var mark := Units("\",\"kind\":\""); |mark| >= 1 && mark[0] == QUOTE
  {
    var mark := "\",\"kind\":\"";
    assert Units(mark)[0] == QUOTE;
  }

  function LeadingDigits(s: Str): Str {
    if |s| == 0 || !(48 <= s[0] <= 57) then [] else [s[0]] + LeadingDigits(s[1..])
  }

  lemma {:induction false} DigitsThenQuote(a: Str, x: Str)
    requires Digits(a)
    ensures LeadingDigits(a + [QUOTE] + x) == a
  {
    var s := a + [QUOTE] + x;
    if |a| != 0 {
      assert s[1..] == a[1..] + [QUOTE] + x;
      DigitsThenQuote(a[1..], x);
    }
  }

  /** Equal texts name one receipt. */
  lemma TextNamesKey(c: Control, d: Control)
    requires Named(c) && Named(d) && Digits(c.key) && Digits(d.key) && c.text == d.text
    ensures c.key == d.key
  {
    var n := |LEAD|;
    var t := c.text[n..];
    assert t == c.key + [QUOTE] + t[|c.key| + 1..];
    assert t == d.key + [QUOTE] + t[|d.key| + 1..];
    DigitsThenQuote(c.key, t[|c.key| + 1..]);
    DigitsThenQuote(d.key, t[|d.key| + 1..]);
  }

  // --- Arrivals ---

  /** The history a new record is appended to: unchanged, or without its oldest settled record. */
  ghost predicate Room(before: seq<Record>, kept: seq<Record>) {
    && |kept| < MAX_RECORDS
    && (kept == before || exists i :: 0 <= i < |before| && !before[i].handling.PendingContext? && kept == before[..i] + before[i + 1..])
  }

  /** An arrival either leaves records, slot and receipts alone, or appends exactly one record. */
  lemma Arrival(s: State, mail: Mail, mono: int, wall: int, allowControl: bool) returns (kept: seq<Record>)
    requires |s.records| <= MAX_RECORDS
    ensures var r := Receive(s, mail, mono, wall, allowControl);
      if r.state.nextReceipt == s.nextReceipt then
        r.state.records == s.records && r.state.pendingControl == s.pendingControl && r.control == None
      else
        && s.nextReceipt.Some? && Room(s.records, kept)
        && r.state.records == kept + [NewRecord(s, mail, mono, wall, allowControl)]
  {
    hide Render, Content, Unexpired;
    var evicted := FirstSettled(s.records);
    kept := if |s.records| < MAX_RECORDS || evicted == |s.records| then s.records
            else s.records[..evicted] + s.records[evicted + 1..];
  }

  lemma ArrivalControl(s: State, mail: Mail, mono: int, wall: int, allowControl: bool)
    ensures var r := Receive(s, mail, mono, wall, allowControl);
      r.state.nextReceipt != s.nextReceipt ==>
        && s.nextReceipt.Some?
        && r.state.nextReceipt == (if s.nextReceipt.value == MAX_UINT64 then None else Some(s.nextReceipt.value + 1))
        && var record := NewRecord(s, mail, mono, wall, allowControl);
        && r.control == (if record.handling.InjectionAttempted? then Some(Control(record.key, mail.kind, Content(record))) else None)
        && r.state.pendingControl == (if r.control.Some? then r.control else s.pendingControl)
        && (r.control.Some? ==> s.pendingControl.None?)
  {
    hide Render, Content, Unexpired;
  }

  lemma ArrivalDedup(s: State, mail: Mail, mono: int, wall: int, allowControl: bool)
    ensures var r := Receive(s, mail, mono, wall, allowControl);
      && (forall k :: k in s.dedup && s.dedup[k] > mono && k != (mail.from, mail.id) ==>
            k in r.state.dedup && r.state.dedup[k] == s.dedup[k])
      && ((mail.from, mail.id) in s.dedup && s.dedup[(mail.from, mail.id)] > mono ==>
            r.state.dedup == Unexpired(s.dedup, mono) && r.state.nextReceipt == s.nextReceipt)
      && (r.state.nextReceipt != s.nextReceipt ==>
            (mail.from, mail.id) in r.state.dedup && r.state.dedup[(mail.from, mail.id)] == mono + DEDUP_MS)
  {
    hide Render, Content;
  }

  lemma CutSettled(a: seq<Record>, r: Record, b: seq<Record>)
    requires !r.handling.PendingContext?
    ensures Pending(a + [r] + b) == Pending(a + b)
  {
    PendingOne(r);
    hide Pending;
    PendingConcat(a, b);
    PendingConcat(a + [r], b);
    PendingConcat(a, [r]);
  }

  lemma RoomKeepsPending(before: seq<Record>, kept: seq<Record>)
    requires Room(before, kept)
    ensures Pending(kept) == Pending(before)
  {
    if kept != before {
      var i :| 0 <= i < |before| && !before[i].handling.PendingContext? && kept == before[..i] + before[i + 1..];
      hide Room, Pending;
      assert before == before[..i] + [before[i]] + before[i + 1..];
      CutSettled(before[..i], before[i], before[i + 1..]);
    }
  }

  lemma RoomKeepsHeld(before: seq<Record>, kept: seq<Record>, count: nat)
    requires Room(before, kept) && Held(before, count)
    ensures Held(kept, count) && |kept| < MAX_RECORDS
  {
    hide ValidMail, Issued, Num;
    if kept != before {
      var i :| 0 <= i < |before| && !before[i].handling.PendingContext? && kept == before[..i] + before[i + 1..];
      forall j | 0 <= j < |kept| ensures kept[j] == before[if j < i then j else j + 1] {
      }
    }
  }

  lemma AppendHeld(kept: seq<Record>, r: Record, count: nat)
    requires Held(kept, count) && |kept| < MAX_RECORDS && count < MAX_UINT64
    requires ValidMail(r.mail) && r.key == Render(count + 1)
    ensures Held(kept + [r], count + 1)
  {
    hide ValidMail;
    RenderCanonical(count + 1);
    forall i | 0 <= i < |kept| ensures Issued(kept[i].key, count + 1) && Num(kept[i].key) < Num(r.key) {
      assert Issued(kept[i].key, count);
      NextIsNew(kept[i].key, count);
    }
    var rs := kept + [r];
    hide Issued, Num;
    forall i, j | 0 <= i < j < |rs| ensures Num(rs[i].key) < Num(rs[j].key) {
      assert rs[i] == kept[i];
    }
  }

  // --- One step ---

  lemma AppendPending(rs: seq<Record>, r: Record)
    ensures Keys(Pending(rs + [r])) == Keys(Pending(rs)) + (if r.handling.PendingContext? then [r.key] else [])
  {
    PendingConcat(rs, [r]);
    PendingOne(r);
    KeysConcat(Pending(rs), Pending([r]));
    hide Pending;
    var none: seq<Record> := [];
    assert [r][1..] == none;
  }

  /** How an arrival that was accepted shows in the world. */
  ghost predicate Accepts(w: World, v: World, kept: seq<Record>, r: Record) {
    && w.state.nextReceipt.Some? && r.key == Render(w.state.nextReceipt.value)
    && v.state.nextReceipt == (if w.state.nextReceipt.value == MAX_UINT64 then None else Some(w.state.nextReceipt.value + 1))
    && Room(w.state.records, kept) && v.state.records == kept + [r] && v.kept == w.kept + [r]
  }

  lemma ArrivalShape(w: World, step: Step) returns (kept: seq<Record>, r: Record)
    requires step.Arrive? && |w.state.records| <= MAX_RECORDS
    ensures var v := After(w, step);
      && v.delivered == w.delivered
      && (if v.kept == w.kept then v.state.records == w.state.records && v.state.nextReceipt == w.state.nextReceipt
          else Accepts(w, v, kept, r) && r.mail == step.mail)
  {
    kept := Arrival(w.state, step.mail, step.mono, step.wall, step.allowControl);
    ArrivalControl(w.state, step.mail, step.mono, step.wall, step.allowControl);
    hide Receive, Render, Room;
    if w.state.nextReceipt.Some? {
      r := NewRecord(w.state, step.mail, step.mono, step.wall, step.allowControl);
    } else {
      r := Record(step.mail, [], 0, 0, false, Discarded);
    }
    assert |w.kept + [r]| != |w.kept|;
  }

  lemma AcceptsConserves(w: World, v: World, kept: seq<Record>, r: Record)
    requires Accepts(w, v, kept, r) && Conserved(w) && v.delivered == w.delivered
    ensures Conserved(v)
  {
    RoomKeepsPending(w.state.records, kept);
    hide Room, Keys, Pending, Render;
    AppendPending(kept, r);
    AppendPending(w.kept, r);
  }

  lemma AcceptsNumbers(w: World, v: World, kept: seq<Record>, r: Record)
    requires Accepts(w, v, kept, r) && Numbered(w)
    ensures Numbered(v)
  {
    hide Room, Render;
  }

  lemma AcceptsHolds(w: World, v: World, kept: seq<Record>, r: Record)
    requires Accepts(w, v, kept, r) && Numbered(w) && Held(w.state.records, |w.kept|) && ValidMail(r.mail)
    ensures Held(v.state.records, |v.kept|)
  {
    hide Room, Render, Held, ValidMail;
    RoomKeepsHeld(w.state.records, kept, |w.kept|);
    AppendHeld(kept, r, |w.kept|);
  }

  lemma ArrivePreservesRecords(w: World, step: Step)
    requires step.Arrive? && Admissible(w, step)
    requires Numbered(w) && Held(w.state.records, |w.kept|) && Conserved(w) && |w.state.records| <= MAX_RECORDS
    ensures var v := After(w, step); Numbered(v) && Held(v.state.records, |v.kept|) && Conserved(v)
  {
    hide ValidMail, Render, Keys, Pending, Accepts, Held, Numbered, Conserved;
    var kept, r := ArrivalShape(w, step);
    var v := After(w, step);
    assert Admissible(w, step) ==> ValidMail(step.mail);
    hide After, Admissible;
    if v.kept != w.kept {
      AcceptsConserves(w, v, kept, r);
      AcceptsNumbers(w, v, kept, r);
      AcceptsHolds(w, v, kept, r);
    } else {
      SameRecords(w, v);
    }
  }

  lemma SameRecords(w: World, v: World)
    requires v.kept == w.kept && v.state.records == w.state.records && v.state.nextReceipt == w.state.nextReceipt
    requires v.delivered == w.delivered && Numbered(w) && Conserved(w)
    ensures Numbered(v) && Conserved(v)
  {
    hide Render, Keys, Pending;
  }

  lemma ArrivePreservesSpacing(w: World, step: Step)
    requires step.Arrive? && Admissible(w, step)
    requires |w.state.records| <= MAX_RECORDS && Spaced(w.kept) && Remembers(w)
    ensures var v := After(w, step); Spaced(v.kept) && Remembers(v)
  {
    var kept := Arrival(w.state, step.mail, step.mono, step.wall, step.allowControl);
    ArrivalDedup(w.state, step.mail, step.mono, step.wall, step.allowControl);
    hide Receive, ValidMail, Render, Room;
    var v := After(w, step);
    var wire := (step.mail.from, step.mail.id);
    forall i | 0 <= i < |w.kept| && Wire(w.kept[i]) == wire && v.state.nextReceipt != w.state.nextReceipt
      ensures w.kept[i].receivedMono + DEDUP_MS <= step.mono
    {
    }
    assert v.kept == w.kept || (|v.kept| == |w.kept| + 1 && v.kept[..|w.kept|] == w.kept
                                && Wire(v.kept[|w.kept|]) == wire && v.kept[|w.kept|].receivedMono == step.mono);
    forall i | 0 <= i < |v.kept| && v.kept[i].receivedMono + DEDUP_MS > v.now
      ensures Wire(v.kept[i]) in v.state.dedup && v.state.dedup[Wire(v.kept[i])] >= v.kept[i].receivedMono + DEDUP_MS
    {
      if i < |w.kept| {
        assert v.kept[i] == w.kept[i];
      }
    }
  }

  lemma PendingIssued(rs: seq<Record>, count: nat)
    requires Held(rs, count)
    ensures forall k :: k in Keys(Pending(rs)) ==> Issued(k, count)
  {
    hide ValidMail, Issued, Num;
    KeysAre(Pending(rs));
    forall k | k in Keys(Pending(rs)) ensures Issued(k, count) {
      var i :| 0 <= i < |Keys(Pending(rs))| && Keys(Pending(rs))[i] == k;
      assert Pending(rs)[i] in rs;
    }
  }

  /** An emission whose receipt was never emitted and no longer waits keeps the emissions fresh. */
  lemma EmitKeepsFresh(w: World, v: World, c: Control)
    requires Fresh(w) && |w.kept| <= |v.kept| && v.emitted == w.emitted + [c]
    requires Issued(c.key, |v.kept|) && Named(c) && c.key !in Keys(Pending(v.state.records))
    requires forall i :: 0 <= i < |w.emitted| ==>
               w.emitted[i].key != c.key && w.emitted[i].key !in Keys(Pending(v.state.records))
    ensures Fresh(v)
  {
    hide Named, Num, Render, Keys, Pending, Canonical;
    var n := |w.emitted|;
    assert forall i :: 0 <= i < n ==> v.emitted[i] == w.emitted[i];
    forall i | 0 <= i <= n
      ensures Issued(v.emitted[i].key, |v.kept|) && Named(v.emitted[i]) && v.emitted[i].key !in Keys(Pending(v.state.records))
    {
      if i < n {
        IssuedGrows(w.emitted[i].key, |w.kept|, |v.kept|);
      }
    }
  }

  lemma SameEmissionsStayFresh(w: World, v: World)
    requires Fresh(w) && |w.kept| <= |v.kept| && v.emitted == w.emitted
    requires forall i :: 0 <= i < |w.emitted| ==> w.emitted[i].key !in Keys(Pending(v.state.records))
    ensures Fresh(v)
  {
    hide Named, Num, Render, Keys, Pending, Canonical;
    forall i | 0 <= i < |v.emitted| ensures Issued(v.emitted[i].key, |v.kept|) {
      assert Issued(w.emitted[i].key, |w.kept|);
      IssuedGrows(w.emitted[i].key, |w.kept|, |v.kept|);
    }
  }

  lemma ArrivalSlot(w: World, step: Step)
    requires step.Arrive? && |w.state.records| <= MAX_RECORDS
    ensures var v := After(w, step);
      && v.released == w.released
      && (v.kept == w.kept ==> v.emitted == w.emitted && v.state.pendingControl == w.state.pendingControl)
      && (v.kept != w.kept ==>
            && w.state.nextReceipt.Some?
            && var r := v.kept[|v.kept| - 1];
            && (r.handling.InjectionAttempted? ==>
                  && w.state.pendingControl.None?
                  && var c := Control(r.key, r.mail.kind, Content(r));
                  && v.emitted == w.emitted + [c] && v.state.pendingControl == Some(c))
            && (!r.handling.InjectionAttempted? ==> v.emitted == w.emitted && v.state.pendingControl == w.state.pendingControl))
  {
    var kept := Arrival(w.state, step.mail, step.mono, step.wall, step.allowControl);
    ArrivalControl(w.state, step.mail, step.mono, step.wall, step.allowControl);
    hide Receive, Render, Room, Content;
    var v := After(w, step);
    assert w.emitted + [] == w.emitted;
  }

  lemma ArrivePreservesOneSlot(w: World, step: Step)
    requires step.Arrive? && |w.state.records| <= MAX_RECORDS && OneSlot(w)
    ensures OneSlot(After(w, step))
  {
    ArrivalSlot(w, step);
    hide After, Content;
  }

  lemma AcceptsStaysFresh(w: World, v: World, kept: seq<Record>, r: Record, c: Option<Control>)
    requires Accepts(w, v, kept, r) && Numbered(w) && Held(w.state.records, |w.kept|) && Fresh(w)
    requires v.emitted == w.emitted + Emission(c)
    requires c.Some? ==> !r.handling.PendingContext? && c.value.key == r.key && Named(c.value)
    ensures Fresh(v)
  {
    hide Named, Held, Keys, Pending, Num, Render, Canonical;
    RoomKeepsPending(w.state.records, kept);
    hide Room;
    AppendPending(kept, r);
    PendingIssued(w.state.records, |w.kept|);
    var n := |w.kept|;
    assert r.key == Render(n + 1) && Issued(r.key, n + 1) by {
      RenderCanonical(n + 1);
    }
    forall i | 0 <= i < |w.emitted|
      ensures w.emitted[i].key != r.key && w.emitted[i].key !in Keys(Pending(v.state.records))
    {
      NextIsNew(w.emitted[i].key, n);
    }
    if c.Some? {
      forall k | k in Keys(Pending(w.state.records)) ensures k != r.key {
        NextIsNew(k, n);
      }
      EmitKeepsFresh(w, v, c.value);
    } else {
      assert v.emitted == w.emitted;
      SameEmissionsStayFresh(w, v);
    }
  }

  lemma ArrivePreservesFresh(w: World, step: Step)
    requires step.Arrive? && |w.state.records| <= MAX_RECORDS && Admissible(w, step)
    requires Numbered(w) && Held(w.state.records, |w.kept|) && Fresh(w)
    ensures Fresh(After(w, step))
  {
    var kept, r := ArrivalShape(w, step);
    ArrivalSlot(w, step);
    var v := After(w, step);
    hide After, Held, Render, Content, Room, Keys, Pending;
    if v.kept == w.kept {
      hide Issued, Named;
      SameEmissionsStayFresh(w, v);
    } else {
      var c := if r.handling.InjectionAttempted? then Some(Control(r.key, r.mail.kind, Content(r))) else None;
      RenderCanonical(w.state.nextReceipt.value);
      ContentNamed(r, r.mail.kind, []);
      assert Content(r) + [] == Content(r);
      assert v.emitted == w.emitted + Emission(c);
      hide Fresh, Issued, Named;
      AcceptsStaysFresh(w, v, kept, r, c);
    }
  }

  // --- Batches ---

  lemma TakePreservesHeld(s: State, count: nat)
    requires Held(s.records, count)
    ensures Held(AfterTake(s).records, count)
  {
    hide ValidMail, Issued, Num, Taken;
    if Taken(s) != [] {
      AttemptExcludes(s.records, Keys(Taken(s)));
      hide Keys, Attempt;
      var after := AfterTake(s).records;
      forall i | 0 <= i < |after| ensures after[i].key == s.records[i].key && after[i].mail == s.records[i].mail {
      }
    }
  }

  lemma TakeMovesKeys(s: State, count: nat)
    requires Held(s.records, count)
    ensures Keys(Pending(s.records)) == Keys(Taken(s)) + Keys(Pending(AfterTake(s).records))
  {
    HeldIsReady(s.records, count);
    hide Held, Pending, Taken, AfterTake, Keys;
    TakeSplitsPending(s);
    KeysConcat(Taken(s), Pending(AfterTake(s).records));
  }

  lemma TakeMovesDelivery(delivered: seq<Str>, s: State, count: nat)
    requires Held(s.records, count)
    ensures delivered + Keys(Taken(s)) + Keys(Pending(AfterTake(s).records)) == delivered + Keys(Pending(s.records))
  {
    hide Held, Pending, Taken, AfterTake, Keys;
    TakeMovesKeys(s, count);
  }

  lemma TakePreserves(w: World)
    requires Good(w)
    ensures Good(After(w, TakeBatch))
  {
    var v := After(w, TakeBatch);
    hide Held, Pending, Taken, Keys, Attempt, Fresh;
    TakePreservesHeld(w.state, |w.kept|);
    TakeMovesDelivery(w.delivered, w.state, |w.kept|);
    TakeStaysFresh(w, v);
  }

  lemma TakeStaysFresh(w: World, v: World)
    requires Fresh(w) && Held(w.state.records, |w.kept|) && v.kept == w.kept && v.emitted == w.emitted
    requires v.state.records == AfterTake(w.state).records
    ensures Fresh(v)
  {
    hide Held, Pending, Taken, AfterTake, Keys, Named, Issued;
    TakeMovesKeys(w.state, |w.kept|);
    SameEmissionsStayFresh(w, v);
  }

  lemma FirstTaken(s: State, count: nat)
    requires Held(s.records, count) && Taken(s) != []
    ensures var key := Taken(s)[0].key;
      && Issued(key, count) && key in Keys(Pending(s.records)) && key !in Keys(Pending(AfterTake(s).records))
      && Named(Control(key, Prompt, Contents(Taken(s))))
  {
    HeldIsReady(s.records, count);
    PendingIssued(s.records, count);
    PendingDistinct(s.records);
    TakeSplitsPending(s);
    hide Held, Pending, Taken, AfterTake, Named, Issued, Contents, Keys, Deliverable;
    var taken, rest := Taken(s), Pending(AfterTake(s).records);
    FirstOfSplit(Pending(s.records), taken, rest);
    FirstNamed(taken, count);
  }

  lemma FirstOfSplit(p: seq<Record>, taken: seq<Record>, rest: seq<Record>)
    requires DistinctKeys(p) && p == taken + rest && |taken| != 0
    ensures taken[0].key in Keys(p) && taken[0].key !in Keys(rest)
  {
    KeysAre(p);
    KeysAre(rest);
    hide Keys;
    assert p[0] == taken[0] && Keys(p)[0] == taken[0].key;
    forall i | 0 <= i < |rest| ensures Keys(rest)[i] != taken[0].key {
      assert rest[i] == p[|taken| + i];
    }
  }

  lemma FirstNamed(taken: seq<Record>, count: nat)
    requires |taken| != 0 && Issued(taken[0].key, count)
    ensures Named(Control(taken[0].key, Prompt, Contents(taken)))
  {
    hide Content, Named, Num, Render;
    ContentNamed(taken[0], Prompt, Contents(taken[1..]));
  }

  lemma ClaimPreserves(w: World)
    requires Good(w)
    ensures Good(After(w, ClaimDelivery))
  {
    var v := After(w, ClaimDelivery);
    hide Held, Pending, Keys, Attempt, Taken, Contents, Fresh, Named, Issued;
    if w.state.pendingControl.Some? || Taken(w.state) == [] {
      assert w.emitted + [] == w.emitted;
      assert v == w;
    } else {
      var c := Control(Taken(w.state)[0].key, Prompt, Contents(Taken(w.state)));
      assert v.emitted == w.emitted + [c];
      TakePreservesHeld(w.state, |w.kept|);
      TakeMovesDelivery(w.delivered, w.state, |w.kept|);
      ClaimStaysFresh(w, v, c);
    }
  }

  lemma ClaimStaysFresh(w: World, v: World, c: Control)
    requires Fresh(w) && Held(w.state.records, |w.kept|) && Taken(w.state) != []
    requires c == Control(Taken(w.state)[0].key, Prompt, Contents(Taken(w.state)))
    requires v.kept == w.kept && v.emitted == w.emitted + [c] && v.state.records == AfterTake(w.state).records
    ensures Fresh(v)
  {
    FirstTaken(w.state, |w.kept|);
    TakeMovesKeys(w.state, |w.kept|);
    hide Held, Pending, Taken, AfterTake, Keys, Named, Issued, Contents;
    EmitKeepsFresh(w, v, c);
  }

  // --- Reading and echoes ---

  predicate SameMail(a: Record, b: Record) {
    a.key == b.key && a.mail == b.mail && a.handling == b.handling
  }

  ghost predicate SameMails(rs: seq<Record>, marked: seq<Record>) {
    |rs| == |marked| && forall i :: 0 <= i < |rs| ==> SameMail(rs[i], marked[i])
  }

  lemma {:induction false} SameMailsSamePending(rs: seq<Record>, marked: seq<Record>)
    requires SameMails(rs, marked)
    ensures Keys(Pending(marked)) == Keys(Pending(rs))
  {
    if |rs| != 0 {
      assert SameMails(rs[1..], marked[1..]);
      SameMailsSamePending(rs[1..], marked[1..]);
      assert SameMail(rs[0], marked[0]);
      var p, q := Pending(rs[1..]), Pending(marked[1..]);
      hide SameMails, Pending;
      assert Keys([rs[0]] + p) == [rs[0].key] + Keys(p) by {
        assert ([rs[0]] + p)[1..] == p;
      }
      assert Keys([marked[0]] + q) == [marked[0].key] + Keys(q) by {
        assert ([marked[0]] + q)[1..] == q;
      }
      PendingCons(rs);
      PendingCons(marked);
    }
  }

  lemma PendingCons(rs: seq<Record>)
    requires |rs| != 0
    ensures Pending(rs) == if rs[0].handling.PendingContext? then [rs[0]] + Pending(rs[1..]) else Pending(rs[1..])
  {
  }

  lemma SameMailsStayHeld(rs: seq<Record>, marked: seq<Record>, count: nat)
    requires SameMails(rs, marked) && Held(rs, count)
    ensures Held(marked, count)
  {
    hide ValidMail, Issued, Num;
    forall i | 0 <= i < |rs| ensures marked[i].key == rs[i].key && marked[i].mail == rs[i].mail {
      assert SameMail(rs[i], marked[i]);
    }
  }

  lemma ReadPreserves(w: World, key: Str)
    requires Good(w)
    ensures Good(After(w, Read(key)))
  {
    hide Held, Pending, Keys, Issued, Named, SameMails;
    var v := After(w, Read(key));
    MarkReadSameMails(w.state, key);
    hide MarkRead;
    SameMailsSamePending(w.state.records, v.state.records);
    SameMailsStayHeld(w.state.records, v.state.records, |w.kept|);
    ReadStaysFresh(w, v);
    hide Fresh, Spaced, Remembers, OneSlot;
    OnlyRecordsRead(w, v);
  }

  lemma MarkReadSameMails(s: State, key: Str)
    ensures SameMails(s.records, MarkRead(s, key).records)
    ensures MarkRead(s, key) == s.(records := MarkRead(s, key).records)
  {
  }

  lemma ReadStaysFresh(w: World, v: World)
    requires Fresh(w) && v.emitted == w.emitted && v.kept == w.kept
    requires Keys(Pending(v.state.records)) == Keys(Pending(w.state.records))
    ensures Fresh(v)
  {
    hide Keys, Pending, Issued, Named;
  }

  lemma OnlyRecordsRead(w: World, v: World)
    requires v == w.(state := w.state.(records := v.state.records)) && Remembers(w) && OneSlot(w)
    ensures Remembers(v) && OneSlot(v)
  {
  }

  lemma EchoPreserves(w: World, text: Str)
    requires Good(w)
    ensures Good(After(w, Echo(text)))
  {
    hide Held, Pending, Keys, Issued, Named;
  }

  lemma ArrivePreserves(w: World, step: Step)
    requires step.Arrive? && Admissible(w, step) && Good(w)
    ensures Good(After(w, step))
  {
    assert |w.state.records| <= MAX_RECORDS;
    hide After, Admissible, Numbered, Held, Conserved, Spaced, Remembers, OneSlot, Fresh;
    ArrivePreservesRecords(w, step);
    ArrivePreservesSpacing(w, step);
    ArrivePreservesOneSlot(w, step);
    ArrivePreservesFresh(w, step);
  }

  lemma StepPreserves(w: World, step: Step)
    requires Good(w) && Admissible(w, step)
    ensures Good(After(w, step))
  {
    hide Good, After, Admissible;
    match step
    case Arrive(_, _, _, _) => ArrivePreserves(w, step);
    case TakeBatch => TakePreserves(w);
    case ClaimDelivery => ClaimPreserves(w);
    case Read(key) => ReadPreserves(w, key);
    case Echo(text) => EchoPreserves(w, text);
  }

  lemma {:induction false} RunPreserves(w: World, steps: seq<Step>)
    requires Good(w) && AllAdmissible(w, steps)
    ensures Good(Run(w, steps))
    decreases |steps|
  {
    hide Good, After, Admissible;
    if |steps| != 0 {
      StepPreserves(w, steps[0]);
      RunPreserves(After(w, steps[0]), steps[1..]);
    }
  }

  // --- The theorems, over every run ---

  lemma EveryRunIsGood(now: int, steps: seq<Step>)
    requires AllAdmissible(Start(now), steps)
    ensures Good(Run(Start(now), steps))
  {
    StartIsGood(now);
    hide Good, Run, AllAdmissible, Start;
    RunPreserves(Start(now), steps);
  }

  lemma StartIsGood(now: int)
    ensures Good(Start(now))
  {
    hide ValidMail, Render, Named, Issued, Wire;
    assert Keys(Pending([])) == [];
    hide Keys, Pending;
  }

  /** All emitted texts differ. */
  lemma EmittedTextsDiffer(w: World, i: nat, j: nat)
    requires Good(w) && i < j < |w.emitted|
    ensures w.emitted[i].text != w.emitted[j].text
  {
    hide Numbered, Held, Conserved, Spaced, Remembers, OneSlot, Named, Num, Render;
    assert Issued(w.emitted[i].key, |w.kept|) && Issued(w.emitted[j].key, |w.kept|);
    assert w.emitted[i].key != w.emitted[j].key;
    if w.emitted[i].text == w.emitted[j].text {
      TextNamesKey(w.emitted[i], w.emitted[j]);
    }
  }

  /** A late echo of an earlier control never frees a newer one: only the latest emission's text frees the slot. */
  lemma OnlyLatestEchoReleases(w: World, i: nat)
    requires Good(w) && i < |w.emitted|
    ensures Consume(w.state, w.emitted[i].text) != w.state <==> i == |w.emitted| - 1 && w.state.pendingControl.Some?
  {
    if i < |w.emitted| - 1 {
      EmittedTextsDiffer(w, i, |w.emitted| - 1);
    }
    hide Numbered, Held, Conserved, Spaced, Remembers, Fresh;
  }

  /** Every run leaves a mailbox whose repeated batches deliver exactly what it still owes. */
  lemma RunsDrain(w: World)
    requires Good(w)
    ensures Ready(w.state)
    ensures w.delivered + Keys(Joined(Drain(w.state, |w.state.records|))) == Keys(Pending(w.kept))
  {
    HeldIsReady(w.state.records, |w.kept|);
    hide Numbered, Spaced, Remembers, OneSlot, Fresh, Deliverable, Drain, Joined, Keys, Pending;
    BatchesDrain(w.state, |w.state.records|);
  }
}
