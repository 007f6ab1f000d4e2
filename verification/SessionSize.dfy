/** A served page always fits the transport: the bytes kept in reserve cover everything beside the records. */
module SessionSize {
  import opened Options
  import opened Strings
  import opened Decimal
  import opened Utf8
  import opened JsonText
  import opened Sizes
  import opened SessionText
  import opened SessionPaging
  import opened SessionRuns

  lemma SizedQuote(s: Str)
    ensures Sized(Quote(s), 6 * |s| + 2)
  {
    EscapeBound(s);
    SizedAscii([QUOTE]);
    hide Escape, WellFormed, Utf8Length;
    FormedAppend([QUOTE], Escape(s));
    FormedAppend([QUOTE] + Escape(s), [QUOTE]);
  }

  function ShortName(s: Option<Str>): nat {
    if s.Some? then |s.value| else 0
  }

  lemma SizedOptional(s: Option<Str>)
    ensures Sized(OptionalJson(s), 6 * ShortName(s) + 4)
  {
    hide Sized, Quote, Units;
    if s.Some? {
      SizedQuote(s.value);
      Looser(Quote(s.value), 6 * |s.value| + 2, 6 * |s.value| + 4);
    } else {
      assert |NULL_MARK| == 4;
      SizedAscii(NULL_MARK);
    }
  }

  function TotalCharge(rs: seq<Record>): nat {
    if |rs| == 0 then 0 else Charge(rs[0]) + TotalCharge(rs[1..])
  }

  lemma {:induction false} SizedRecords(rs: seq<Record>)
    ensures Sized(RecordsJson(rs), TotalCharge(rs))
  {
    if |rs| == 0 {
      SizedAscii([]);
    } else {
      RecordJsonSize(rs[0]);
      hide RecordJson, WellFormed, Utf8Length, Units;
      if |rs| > 1 {
        SizedRecords(rs[1..]);
        assert |COMMA_MARK| == 1;
        SizedAscii(COMMA_MARK);
        SizedJoin(COMMA_MARK, 1, RecordsJson(rs[1..]), TotalCharge(rs[1..]));
        SizedJoin(RecordJson(rs[0]), Charge(rs[0]) - 1, COMMA_MARK + RecordsJson(rs[1..]), 1 + TotalCharge(rs[1..]));
      }
    }
  }

  lemma SizedTail(p: Page)
    requires p.omitted < 10000
    ensures Sized(TailJson(p), 40)
  {
    assert Pow10(4) == 10000;
    RenderLength(p.omitted, 4);
    var last := Units(if p.truncated then "true}" else "false}");
    assert |last| <= 6 && |OMITTED_MARK| == 12 && |TRUNCATED_MARK| == 13;
    hide Sized, Units, Render;
    SizedAscii(last);
    SizedAscii(OMITTED_MARK);
    SizedAscii(TRUNCATED_MARK);
    SizedAscii(Render(p.omitted));
    SizedJoin(TRUNCATED_MARK, 13, last, |last|);
    SizedJoin(Render(p.omitted), |Render(p.omitted)|, TRUNCATED_MARK + last, 13 + |last|);
    SizedJoin(OMITTED_MARK, 12, Render(p.omitted) + (TRUNCATED_MARK + last), |Render(p.omitted)| + 13 + |last|);
    Looser(TailJson(p), 12 + |Render(p.omitted)| + 13 + |last|, 40);
  }

  lemma MarkSizes()
    ensures Sized(PAGE_START, 32) && Sized(LEAF_MARK, 10) && Sized(NEXT_MARK, 14) && Sized(RECORDS_MARK, 12)
  {
    assert |PAGE_START| == 31 && |LEAF_MARK| == 10 && |NEXT_MARK| == 14 && |RECORDS_MARK| == 12;
    hide Sized, Units;
    SizedAscii(PAGE_START);
    SizedAscii(LEAF_MARK);
    SizedAscii(NEXT_MARK);
    SizedAscii(RECORDS_MARK);
    Looser(PAGE_START, 31, 32);
  }

  lemma PageSize(p: Page)
    requires p.omitted < 10000
    ensures Utf8Length(PageJson(p)) <= TotalCharge(p.records) + 6 * (|p.sessionId| + ShortName(p.leafId) + ShortName(p.nextLeafId)) + 160
  {
    SizedTail(p);
    SizedRecords(p.records);
    MarkSizes();
    SizedQuote(p.sessionId);
    SizedOptional(p.leafId);
    SizedOptional(p.nextLeafId);
    hide Sized, Quote, OptionalJson, RecordsJson, TailJson, TotalCharge, ShortName, Utf8Length, Units;
    var n := TotalCharge(p.records) + 40;
    var s := RecordsJson(p.records) + TailJson(p);
    SizedJoin(RecordsJson(p.records), TotalCharge(p.records), TailJson(p), 40);
    SizedJoin(RECORDS_MARK, 12, s, n);
    s, n := RECORDS_MARK + s, n + 12;
    SizedJoin(OptionalJson(p.nextLeafId), 6 * ShortName(p.nextLeafId) + 4, s, n);
    s, n := OptionalJson(p.nextLeafId) + s, n + 6 * ShortName(p.nextLeafId) + 4;
    SizedJoin(NEXT_MARK, 14, s, n);
    s, n := NEXT_MARK + s, n + 14;
    SizedJoin(OptionalJson(p.leafId), 6 * ShortName(p.leafId) + 4, s, n);
    s, n := OptionalJson(p.leafId) + s, n + 6 * ShortName(p.leafId) + 4;
    SizedJoin(LEAF_MARK, 10, s, n);
    s, n := LEAF_MARK + s, n + 10;
    SizedJoin(Quote(p.sessionId), 6 * |p.sessionId| + 2, s, n);
    s, n := Quote(p.sessionId) + s, n + 6 * |p.sessionId| + 2;
    SizedJoin(PAGE_START, 32, s, n);
    SizedMeans(PAGE_START + s, n + 32);
  }

  // --- What a walk has charged ---

  lemma {:induction false} ChargeAppend(a: seq<Record>, b: seq<Record>)
    ensures TotalCharge(a + b) == TotalCharge(a) + TotalCharge(b)
  {
    hide Charge;
    if |a| == 0 {
      assert a + b == b;
    } else {
      assert (a + b)[1..] == a[1..] + b;
      ChargeAppend(a[1..], b);
    }
  }

  lemma {:induction false} ChargeReversed(rs: seq<Record>)
    ensures TotalCharge(Reversed(rs)) == TotalCharge(rs)
  {
    hide Charge;
    if |rs| != 0 {
      ChargeReversed(rs[1..]);
      ChargeAppend(Reversed(rs[1..]), [rs[0]]);
      var none: seq<Record> := [];
      assert [rs[0]][1..] == none;
      assert TotalCharge([rs[0]]) == Charge(rs[0]) + TotalCharge(none);
    }
  }

  ghost predicate Charged(w: Walk) {
    w.used == TotalCharge(w.records) && w.used <= PAGE_BUDGET && w.omitted <= w.scanned <= MAX_SCANNED
  }

  lemma PassedCharged(w: Walk, entry: Entry, item: Projected, here: Str)
    requires Charged(w) && w.scanned < MAX_SCANNED
    requires item.record.Some? ==> w.used + Charge(item.record.value) <= PAGE_BUDGET
    ensures Charged(Passed(w, entry, item, here))
  {
    hide Charge;
    if item.record.Some? {
      var r := item.record.value;
      ChargeAppend(w.records, [r]);
      var none: seq<Record> := [];
      assert [r][1..] == none;
      assert TotalCharge([r]) == Charge(r) + TotalCharge(none);
    }
  }

  lemma {:induction false} WalkedCharged(entries: Entries, limit: nat, w: Walk, clock: nat -> int, expires: int)
    requires Charged(w)
    ensures var r := Walked(entries, limit, w, clock, expires);
      r.Done? ==> TotalCharge(r.walk.records) <= PAGE_BUDGET && r.walk.omitted <= MAX_SCANNED + 1
    decreases MAX_SCANNED - w.scanned
  {
    hide Project, Charge, TotalCharge;
    if w.next.Some? && w.scanned < MAX_SCANNED && |w.records| < limit && !EndsAt(entries, w.next.value) {
      var entry := entries[w.next.value];
      var item := Project(entry.id, entry.body);
      if !(item.record.Some? && w.used + Charge(item.record.value) > PAGE_BUDGET) {
        PassedCharged(w, entry, item, w.next.value);
        hide Passed;
        WalkedCharged(entries, limit, Passed(w, entry, item, w.next.value), clock, expires);
      }
    }
  }

  /** A page always fits the transport while the session's identifiers are short. */
  lemma PageAlwaysFits(handles: Handles, c: Context, q: Request)
    requires Usable(handles, c, q) && WalkOf(handles, c, q).Done?
    requires |c.sessionId| <= 400 && |q.issued| <= 400 && ShortName(RootOf(handles, c, q)) <= 400
    ensures Utf8Length(PageJson(PageOf(handles, c, q, WalkOf(handles, c, q).walk))) <= PAGE_BYTES
  {
    hide Walked, PageJson, Utf8Length, RootOf, NextOf, ExpiryOf, Usable;
    var w := WalkOf(handles, c, q).walk;
    var p := PageOf(handles, c, q, w);
    assert Charged(Fresh(NextOf(handles, c, q)));
    WalkedCharged(c.entries, Limit(q.limit), Fresh(NextOf(handles, c, q)), q.clock, ExpiryOf(handles, q));
    ChargeReversed(w.records);
    PageSize(p);
  }

  /** No read is ever refused for the size of its page while the session's identifiers are short. */
  lemma ReadNeverTooLarge(handles: Handles, c: Context, q: Request)
    requires |c.sessionId| <= 400 && |q.issued| <= 400 && ShortName(RootOf(handles, c, q)) <= 400
    ensures Answer(handles, c, q).1 != Refused(PageTooLarge)
  {
    hide PageJson, PageOf, RootOf, NextOf, Live, Walked;
    if Usable(handles, c, q) && WalkOf(handles, c, q).Done? {
      PageAlwaysFits(handles, c, q);
    } else if Usable(handles, c, q) {
      WalkProblems(c.entries, Limit(q.limit), Fresh(NextOf(handles, c, q)), q.clock, ExpiryOf(handles, q));
    }
  }

  lemma {:induction false} WalkProblems(entries: Entries, limit: nat, w: Walk, clock: nat -> int, expires: int)
    ensures Walked(entries, limit, w, clock, expires) != Failed(PageTooLarge)
    decreases MAX_SCANNED - w.scanned
  {
    hide Project, Charge;
    if w.next.Some? && w.scanned < MAX_SCANNED && |w.records| < limit && !EndsAt(entries, w.next.value) {
      var entry := entries[w.next.value];
      WalkProblems(entries, limit, Passed(w, entry, Project(entry.id, entry.body), w.next.value), clock, expires);
    }
  }
}
