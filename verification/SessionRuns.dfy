/** Pages reached through handles lose nothing and end. */
module SessionRuns {
  import opened Options
  import opened Strings
  import opened Utf8
  import opened JsonText
  import opened SessionText
  import opened SessionPaging

  // --- The ancestry, as one walk without limits ---

  /** The identifiers from an entry to the end of its ancestry: a root, a missing entry or a compaction. */
  predicate IsChain(entries: Entries, next: Option<Str>, chain: seq<Str>)
    decreases |chain|
  {
    match next
    case None => |chain| == 0
    case Some(id) =>
      && |chain| != 0 && chain[0] == id
      && if EndsAt(entries, id) then |chain| == 1 else IsChain(entries, entries[id].parent, chain[1..])
  }

  function RecordsOf(entries: Entries, chain: seq<Str>): seq<Record> {
    if |chain| == 0 || EndsAt(entries, chain[0]) then []
    else
      var item := Project(entries[chain[0]].id, entries[chain[0]].body);
      (if item.record.Some? then [item.record.value] else []) + RecordsOf(entries, chain[1..])
  }

  function OmittedOf(entries: Entries, chain: seq<Str>): nat {
    if |chain| == 0 then 0
    else if EndsAt(entries, chain[0]) then 1
    else (if Project(entries[chain[0]].id, entries[chain[0]].body).record.Some? then 0 else 1) + OmittedOf(entries, chain[1..])
  }

  // --- One page takes the front of the ancestry ---

  ghost predicate Splits(entries: Entries, w: Walk, chain: seq<Str>, v: Walk, rest: seq<Str>) {
    && IsChain(entries, v.next, rest)
    && v.records + RecordsOf(entries, rest) == w.records + RecordsOf(entries, chain)
    && v.omitted + OmittedOf(entries, rest) == w.omitted + OmittedOf(entries, chain)
    && |rest| <= |chain| && rest == chain[|chain| - |rest|..]
  }

  lemma StepSplits(entries: Entries, w: Walk, chain: seq<Str>)
    requires IsChain(entries, w.next, chain) && w.next.Some? && !EndsAt(entries, w.next.value)
    ensures var entry := entries[w.next.value];
      Splits(entries, w, chain, Passed(w, entry, Project(entry.id, entry.body), w.next.value), chain[1..])
  {
    hide Project, Charge;
    var entry := entries[w.next.value];
    var item := Project(entry.id, entry.body);
    if item.record.Some? {
      assert w.records + ([item.record.value] + RecordsOf(entries, chain[1..]))
          == (w.records + [item.record.value]) + RecordsOf(entries, chain[1..]);
    } else {
      assert RecordsOf(entries, chain) == RecordsOf(entries, chain[1..]);
    }
  }

  lemma {:induction false} WalkSplits(entries: Entries, limit: nat, w: Walk, clock: nat -> int, expires: int, chain: seq<Str>)
    returns (rest: seq<Str>)
    requires IsChain(entries, w.next, chain) && Walked(entries, limit, w, clock, expires).Done?
    ensures Splits(entries, w, chain, Walked(entries, limit, w, clock, expires).walk, rest)
    decreases MAX_SCANNED - w.scanned
  {
    if w.next.None? || w.scanned >= MAX_SCANNED || |w.records| >= limit {
      rest := chain;
    } else if EndsAt(entries, w.next.value) {
      rest := [];
    } else {
      var entry := entries[w.next.value];
      var item := Project(entry.id, entry.body);
      hide Project, Charge;
      if item.record.Some? && w.used + Charge(item.record.value) > PAGE_BUDGET {
        rest := chain;
      } else {
        StepSplits(entries, w, chain);
        var v := Passed(w, entry, item, w.next.value);
        hide RecordsOf, OmittedOf, Passed;
        rest := WalkSplits(entries, limit, v, clock, expires, chain[1..]);
      }
    }
  }

  // --- A finite ancestry never repeats, so no page refuses it ---

  lemma {:induction false} ChainIsUnique(entries: Entries, next: Option<Str>, a: seq<Str>, b: seq<Str>)
    requires IsChain(entries, next, a) && IsChain(entries, next, b)
    ensures a == b
    decreases |a|
  {
    if next.Some? {
      if EndsAt(entries, next.value) {
        assert a == [next.value] && b == [next.value];
      } else {
        ChainIsUnique(entries, entries[next.value].parent, a[1..], b[1..]);
        assert a == [next.value] + a[1..] && b == [next.value] + b[1..];
      }
    }
  }

  lemma {:induction false} ChainSuffix(entries: Entries, next: Option<Str>, chain: seq<Str>, i: nat)
    requires IsChain(entries, next, chain) && i < |chain|
    ensures IsChain(entries, Some(chain[i]), chain[i..])
    decreases |chain|
  {
    if i != 0 {
      ChainSuffix(entries, entries[chain[0]].parent, chain[1..], i - 1);
      assert chain[1..][i - 1..] == chain[i..];
    } else {
      assert chain[0..] == chain;
    }
  }

  lemma ChainNeverRepeats(entries: Entries, next: Option<Str>, chain: seq<Str>, i: nat, j: nat)
    requires IsChain(entries, next, chain) && i < j < |chain|
    ensures chain[i] != chain[j]
  {
    ChainSuffix(entries, next, chain, i);
    ChainSuffix(entries, next, chain, j);
    assert |chain[i..]| != |chain[j..]|;
    if chain[i] == chain[j] {
      ChainIsUnique(entries, Some(chain[i]), chain[i..], chain[j..]);
    }
  }

  lemma {:induction false} NeverInvalid(entries: Entries, limit: nat, w: Walk, clock: nat -> int, expires: int, chain: seq<Str>)
    requires IsChain(entries, w.next, chain) && forall i :: 0 <= i < |chain| ==> chain[i] !in w.seen
    ensures Walked(entries, limit, w, clock, expires) != Failed(InvalidAncestry)
    decreases MAX_SCANNED - w.scanned
  {
    hide Project, Charge;
    if w.next.Some? && w.scanned < MAX_SCANNED && |w.records| < limit && !EndsAt(entries, w.next.value) {
      var entry := entries[w.next.value];
      var v := Passed(w, entry, Project(entry.id, entry.body), w.next.value);
      forall i | 0 <= i < |chain[1..]| ensures chain[1..][i] !in v.seen {
        ChainNeverRepeats(entries, w.next, chain, 0, i + 1);
      }
      hide Passed;
      NeverInvalid(entries, limit, v, clock, expires, chain[1..]);
    }
  }

  // --- Progress ---

  /** The one kind of entry a fresh page cannot pass. */
  predicate Oversized(entries: Entries, id: Str) {
    !EndsAt(entries, id) && var item := Project(entries[id].id, entries[id].body);
    item.record.Some? && Charge(item.record.value) > PAGE_BUDGET
  }

  /** A served page leaves the traversal where it was exactly when it starts at a record larger than the page budget. */
  lemma StuckIffOversized(entries: Entries, limit: nat, clock: nat -> int, expires: int, chain: seq<Str>) returns (rest: seq<Str>)
    requires |chain| != 0 && IsChain(entries, Some(chain[0]), chain) && limit >= 1
    requires Walked(entries, limit, Fresh(Some(chain[0])), clock, expires).Done?
    ensures var v := Walked(entries, limit, Fresh(Some(chain[0])), clock, expires).walk;
      && Splits(entries, Fresh(Some(chain[0])), chain, v, rest)
      && (Oversized(entries, chain[0]) <==> v.next == Some(chain[0]))
      && (Oversized(entries, chain[0]) <==> |rest| == |chain|)
  {
    var w := Fresh(Some(chain[0]));
    var end := Walked(entries, limit, w, clock, expires).walk;
    if Oversized(entries, chain[0]) {
      rest := WalkSplits(entries, limit, w, clock, expires, chain);
      hide Project, Charge;
      ChainIsUnique(entries, end.next, rest, chain);
    } else {
      rest := Advances(entries, limit, clock, expires, chain);
      hide Walked, Oversized;
      if end.next == Some(chain[0]) {
        ChainIsUnique(entries, end.next, rest, chain);
      }
    }
  }

  lemma Advances(entries: Entries, limit: nat, clock: nat -> int, expires: int, chain: seq<Str>) returns (rest: seq<Str>)
    requires |chain| != 0 && IsChain(entries, Some(chain[0]), chain) && limit >= 1 && !Oversized(entries, chain[0])
    requires Walked(entries, limit, Fresh(Some(chain[0])), clock, expires).Done?
    ensures Splits(entries, Fresh(Some(chain[0])), chain, Walked(entries, limit, Fresh(Some(chain[0])), clock, expires).walk, rest)
    ensures |rest| < |chain|
  {
    var w := Fresh(Some(chain[0]));
    if EndsAt(entries, chain[0]) {
      rest := WalkSplits(entries, limit, w, clock, expires, chain);
    } else {
      var entry := entries[chain[0]];
      var v := Passed(w, entry, Project(entry.id, entry.body), chain[0]);
      assert Walked(entries, limit, w, clock, expires) == Walked(entries, limit, v, clock, expires);
      StepSplits(entries, w, chain);
      hide Walked, Project, Charge, Passed, RecordsOf, OmittedOf, IsChain;
      rest := WalkSplits(entries, limit, v, clock, expires, chain[1..]);
      assert chain[1..][|chain[1..]| - |rest|..] == chain[|chain| - |rest|..];
    }
  }

  lemma {:induction false} EscapeGrows(s: Str)
    ensures |s| <= |Escape(s)|
    decreases |s|
  {
    if |s| != 0 {
      EscapeGrows(if Pair(s) then s[2..] else s[1..]);
    }
  }

  /** An identifier as long as the page budget, on an entry that says one letter. */
  function LongId(): Str {
    seq(PAGE_BUDGET, i => 97)
  }

  function LongEntries(): Entries {
    map[LongId() := Entry(LongId(), None, Spoken(User, Plain([97])))]
  }

  /** A failing input: a page that starts at that entry is served without it and goes on where it started. */
  lemma LongIdStuck(limit: nat, clock: nat -> int, expires: int)
    requires limit >= 1 && clock(0) < expires
    ensures Oversized(LongEntries(), LongId())
    ensures var r := Walked(LongEntries(), limit, Fresh(Some(LongId())), clock, expires);
      r.Done? && r.walk.next == Some(LongId()) && r.walk.records == []
  {
    OneLetterShown();
    var r := Record(LongId(), User, [97]);
    LongProjected();
    LongCharge(r);
    hide Charge, Project, LongId;
    LongWalk(limit, clock, expires, r);
  }

  lemma LongProjected()
    ensures Project(LongId(), Spoken(User, Plain([97]))).record == Some(Record(LongId(), User, [97]))
  {
    OneLetterShown();
    hide ContentShown, LongId;
  }

  lemma LongWalk(limit: nat, clock: nat -> int, expires: int, r: Record)
    requires limit >= 1 && clock(0) < expires && Charge(r) > PAGE_BUDGET
    requires Project(LongId(), Spoken(User, Plain([97]))).record == Some(r)
    ensures Oversized(LongEntries(), LongId())
    ensures var w := Walked(LongEntries(), limit, Fresh(Some(LongId())), clock, expires);
      w.Done? && w.walk.next == Some(LongId()) && w.walk.records == []
  {
    hide Charge, Project, LongId;
  }

  lemma OneLetterShown()
    ensures ContentShown(Plain([97])) == Shown([97], false)
  {
    assert FirstChar([97]) == [97] && CharBytes([97]) == 1;
    assert [97][1..] == [] && Prefix([], MAX_TEXT - 1) == [];
  }

  lemma LongCharge(r: Record)
    requires |r.entryId| >= PAGE_BUDGET
    ensures Charge(r) > PAGE_BUDGET
  {
    EscapeGrows(r.entryId);
    UnitsFit(RecordJson(r));
    hide Escape, Utf8Length, RoleText;
  }

  // --- Every record fits ---

  lemma RecordJsonSize(r: Record)
    ensures WellFormed(RecordJson(r))
    ensures Utf8Length(RecordJson(r)) <= 6 * |r.entryId| + 6 * |r.text| + 120
  {
    hide Escape, WellFormed, Utf8Length;
    EscapeBound(r.entryId);
    EscapeBound(RoleText(r.role));
    EscapeBound(r.text);
    var id, role, text := Escape(r.entryId), Escape(RoleText(r.role)), Escape(r.text);
    var end := RECORD_END;
    MarkSize(RECORD_ID);
    MarkSize(RECORD_ROLE);
    MarkSize(RECORD_TEXT);
    MarkSize(RECORD_END);
    assert |RECORD_ID| == 12 && |RECORD_ROLE| == 10 && |RECORD_TEXT| == 10 && |RECORD_END| == 2;
    hide RoleText, Units, IsAscii;
    FormedAppend(RECORD_ID, id);
    FormedAppend(RECORD_ID + id, RECORD_ROLE);
    FormedAppend(RECORD_ID + id + RECORD_ROLE, role);
    FormedAppend(RECORD_ID + id + RECORD_ROLE + role, RECORD_TEXT);
    FormedAppend(RECORD_ID + id + RECORD_ROLE + role + RECORD_TEXT, text);
    FormedAppend(RECORD_ID + id + RECORD_ROLE + role + RECORD_TEXT + text, end);
  }

  lemma MarkSize(s: Str)
    requires IsAscii(s)
    ensures WellFormed(s) && Utf8Length(s) == |s|
  {
    AsciiFormed(s);
    AsciiLength(s);
  }

  /** No entry with an identifier of at most 64000 units is oversized, whatever it holds. */
  lemma ShortIdsFit(entries: Entries, id: Str)
    requires id in entries ==> |entries[id].id| <= 64000
    ensures !Oversized(entries, id)
  {
    hide Utf8Length, RecordJson;
    if !EndsAt(entries, id) && Project(entries[id].id, entries[id].body).record.Some? {
      var r := Project(entries[id].id, entries[id].body).record.value;
      RecordBounded(entries[id].id, entries[id].body);
      UnitsFit(r.text);
      RecordJsonSize(r);
    }
  }

  // --- Whole traversals ---

  /** A traversal as the caller makes it: each read asks for the handle the page before returned, every read is served
      and the last page returns none. The session's leaf may move meanwhile; its entries do not. */
  ghost predicate Traversal(entries: Entries, handles: Handles, contexts: seq<Context>, requests: seq<Request>, pages: seq<Page>)
    decreases |pages|
  {
    && |pages| != 0 && |contexts| == |pages| == |requests| && contexts[0].entries == entries
    && var (after, reply) := Answer(handles, contexts[0], requests[0]);
    && reply == Served(pages[0])
    && if pages[0].nextLeafId.None? then |pages| == 1
       else |pages| > 1 && requests[1].handle == pages[0].nextLeafId
            && Traversal(entries, after, contexts[1..], requests[1..], pages[1..])
  }

  function Chronological(pages: seq<Page>): seq<Record> {
    if |pages| == 0 then [] else Chronological(pages[1..]) + pages[0].records
  }

  function TotalOmitted(pages: seq<Page>): nat {
    if |pages| == 0 then 0 else pages[0].omitted + TotalOmitted(pages[1..])
  }

  lemma {:induction false} ReversedAppend(a: seq<Record>, b: seq<Record>)
    ensures Reversed(a + b) == Reversed(b) + Reversed(a)
  {
    if |a| == 0 {
      assert a + b == b;
    } else {
      assert (a + b)[1..] == a[1..] + b;
      ReversedAppend(a[1..], b);
    }
  }

  /** What a served page says, and where its handle goes on. */
  lemma ServedPage(handles: Handles, c: Context, q: Request) returns (w: Walk)
    requires Answer(handles, c, q).1.Served?
    ensures WalkOf(handles, c, q) == Done(w) && Answer(handles, c, q).1.page == PageOf(handles, c, q, w)
    ensures w.next.Some? ==>
              var after := Answer(handles, c, q).0;
              q.issued in after && after[q.issued].next == w.next.value
  {
    hide Walked, Reversed;
    w := WalkOf(handles, c, q).walk;
  }

  /** The first page takes the front of the ancestry, and the next read goes on with the rest. */
  lemma FirstPage(entries: Entries, handles: Handles, contexts: seq<Context>, requests: seq<Request>, pages: seq<Page>,
                  chain: seq<Str>) returns (w: Walk, rest: seq<Str>)
    requires Traversal(entries, handles, contexts, requests, pages) && |contexts| != 0 && |requests| != 0
    requires IsChain(entries, NextOf(handles, contexts[0], requests[0]), chain)
    ensures pages[0].records == Reversed(w.records) && pages[0].omitted == w.omitted
    ensures RecordsOf(entries, chain) == w.records + RecordsOf(entries, rest)
    ensures OmittedOf(entries, chain) == w.omitted + OmittedOf(entries, rest)
    ensures WalkOf(handles, contexts[0], requests[0]) == Done(w) && IsChain(entries, w.next, rest)
    ensures contexts[0].entries == entries && |rest| <= |chain| && rest == chain[|chain| - |rest|..]
    ensures if w.next.None? then |pages| == 1
            else var after := Answer(handles, contexts[0], requests[0]).0;
              && |pages| > 1 && |contexts| > 1 && |requests| > 1 && NextOf(after, contexts[1], requests[1]) == w.next
              && Traversal(entries, after, contexts[1..], requests[1..], pages[1..])
  {
    var c, q := contexts[0], requests[0];
    w := ServedPage(handles, c, q);
    hide Answer, Walked, IsChain, RecordsOf, OmittedOf, Reversed;
    var start := Fresh(NextOf(handles, c, q));
    rest := WalkSplits(entries, Limit(q.limit), start, q.clock, ExpiryOf(handles, q), chain);
    assert start.records + RecordsOf(entries, chain) == RecordsOf(entries, chain);
  }

  lemma {:induction false} TraversalIsAncestry(entries: Entries, handles: Handles, contexts: seq<Context>, requests: seq<Request>,
                                               pages: seq<Page>, chain: seq<Str>)
    requires Traversal(entries, handles, contexts, requests, pages) && |contexts| != 0 && |requests| != 0
    requires IsChain(entries, NextOf(handles, contexts[0], requests[0]), chain)
    ensures Chronological(pages) == Reversed(RecordsOf(entries, chain))
    ensures TotalOmitted(pages) == OmittedOf(entries, chain)
    decreases |pages|
  {
    hide Answer, Traversal, IsChain, RecordsOf, OmittedOf, Reversed, NextOf;
    var w, rest := FirstPage(entries, handles, contexts, requests, pages, chain);
    ReversedAppend(w.records, RecordsOf(entries, rest));
    if w.next.None? {
      EndOfChain(entries, rest);
      assert pages[1..] == [];
    } else {
      var after := Answer(handles, contexts[0], requests[0]).0;
      TraversalIsAncestry(entries, after, contexts[1..], requests[1..], pages[1..], rest);
    }
  }

  lemma EndOfChain(entries: Entries, rest: seq<Str>)
    requires IsChain(entries, None, rest)
    ensures rest == [] && RecordsOf(entries, rest) == [] && OmittedOf(entries, rest) == 0 && Reversed([]) == []
  {
  }

  /** Lossless paging: whatever the page limits, the pages joined in reverse order are the whole ancestry from the
      leaf at the first read, in chronological order, with the same number omitted. */
  lemma PagingIsLossless(entries: Entries, handles: Handles, contexts: seq<Context>, requests: seq<Request>, pages: seq<Page>,
                  chain: seq<Str>)
    requires Traversal(entries, handles, contexts, requests, pages) && |contexts| != 0 && |requests| != 0
    requires requests[0].handle.None?
    requires IsChain(entries, contexts[0].leafId, chain)
    ensures Chronological(pages) == Reversed(RecordsOf(entries, chain))
    ensures TotalOmitted(pages) == OmittedOf(entries, chain)
  {
    TraversalIsAncestry(entries, handles, contexts, requests, pages, chain);
  }

  /** Every page but an empty first one shortens what is left, so a traversal has no more pages than entries. */
  lemma {:induction false} TraversalEnds(entries: Entries, handles: Handles, contexts: seq<Context>, requests: seq<Request>,
                                         pages: seq<Page>, chain: seq<Str>)
    requires Traversal(entries, handles, contexts, requests, pages) && |contexts| != 0 && |requests| != 0
    requires IsChain(entries, NextOf(handles, contexts[0], requests[0]), chain)
    requires forall i :: 0 <= i < |chain| ==> !Oversized(entries, chain[i])
    ensures |pages| <= if |chain| == 0 then 1 else |chain|
    decreases |pages|
  {
    hide Answer, Traversal, IsChain, RecordsOf, OmittedOf, Reversed, NextOf, WalkOf, Oversized;
    var w, rest := FirstPage(entries, handles, contexts, requests, pages, chain);
    if w.next.Some? {
      var after := Answer(handles, contexts[0], requests[0]).0;
      FirstPageAdvances(entries, handles, contexts[0], requests[0], chain, w, rest);
      assert forall i :: 0 <= i < |rest| ==> rest[i] == chain[|chain| - |rest| + i];
      TraversalEnds(entries, after, contexts[1..], requests[1..], pages[1..], rest);
    }
  }

  lemma FirstPageAdvances(entries: Entries, handles: Handles, c: Context, q: Request, chain: seq<Str>, w: Walk, rest: seq<Str>)
    requires c.entries == entries && IsChain(entries, NextOf(handles, c, q), chain)
    requires WalkOf(handles, c, q) == Done(w) && w.next.Some? && IsChain(entries, w.next, rest)
    requires forall i :: 0 <= i < |chain| ==> !Oversized(entries, chain[i])
    ensures 0 < |rest| < |chain|
  {
    var next := NextOf(handles, c, q);
    assert next.Some?;
    assert chain[0] == next.value;
    hide Walked, Oversized, NextOf;
    var advanced := Advances(entries, Limit(q.limit), q.clock, ExpiryOf(handles, q), chain);
    ChainIsUnique(entries, w.next, rest, advanced);
  }
}
