/** What a cached channel window is after any page, told from the earlier window and the page alone
    (extension/channel-read-state.ts). */
module CacheWindows {
  import opened Options
  import opened Strings
  import opened Decimal
  import opened Utf8
  import opened Channels
  import opened OperatorCache

  // --- Which messages a window holds ---

  /** An earlier message the page leaves in place: not sent again, not outside the page's retained range and younger than
      a day. */
  ghost predicate Stays(m: Message, earlier: seq<Message>, page: Page, now: nat) {
    && m in earlier && (forall i :: 0 <= i < |page.messages| ==> page.messages[i].seqno != m.seqno)
    && (page.retainedFrom != NONE ==> Num(m.seqno) >= Num(page.retainedFrom))
    && (page.retainedTo != NONE ==> Num(m.seqno) <= Num(page.retainedTo))
    && m.postedAt + 86400 > now
  }

  /** The page's messages and the earlier ones that stay, in order of their numbers. */
  ghost predicate Merged(whole: seq<Message>, earlier: seq<Message>, page: Page, now: nat) {
    Ordered(whole) && forall m :: m in whole <==> m in page.messages || Stays(m, earlier, page, now)
  }

  function TotalBytes(ms: seq<Message>): nat {
    if ms == [] then 0 else TotalBytes(ms[..|ms| - 1]) + Utf8Length(ms[|ms| - 1].body)
  }

  predicate Within(ms: seq<Message>, limits: Limits) {
    |ms| <= limits.messages && TotalBytes(ms) <= limits.bytes
  }

  /** The newest messages, as many as both limits allow. */
  ghost predicate Newest(kept: seq<Message>, whole: seq<Message>, limits: Limits) {
    && |kept| <= |whole| && kept == whole[|whole| - |kept|..] && Within(kept, limits)
    && forall k :: 0 <= k < |whole| - |kept| ==> !Within(whole[k..], limits)
  }

  predicate Distinct(ms: seq<Message>) {
    forall i, j :: 0 <= i < j < |ms| ==> ms[i].seqno != ms[j].seqno
  }

  lemma {:induction false} KeptMembers(ms: seq<Message>, page: Page, now: nat)
    requires Canonical(page.retainedFrom) && Canonical(page.retainedTo) && AllCanonical(ms)
    ensures forall m :: m in Kept(ms, page, now) <==> Stays(m, ms, page, now)
  {
    if ms != [] {
      var m := ms[0];
      KeptMembers(ms[1..], page, now);
      CompareIsNumeric(m.seqno, page.retainedFrom);
      CompareIsNumeric(page.retainedTo, m.seqno);
      hide Canonical, Num, CompareSequence, AllCanonical;
      assert Retained(m, page, now) <==> Stays(m, ms, page, now);
      forall x ensures Stays(x, ms, page, now) <==> (x == m && Retained(m, page, now)) || Stays(x, ms[1..], page, now) {
        assert x in ms <==> x == m || x in ms[1..];
      }
    }
  }

  lemma {:induction false} KeptDistinct(ms: seq<Message>, page: Page, now: nat)
    requires Distinct(ms)
    ensures Distinct(Kept(ms, page, now)) && forall m :: m in Kept(ms, page, now) ==> m in ms && !Incoming(m, page)
  {
    if ms != [] {
      var rest := ms[1..];
      KeptDistinct(rest, page, now);
      var k := Kept(rest, page, now);
      hide Retained, Incoming;
      forall i | 0 <= i < |k| ensures k[i].seqno != ms[0].seqno {
        assert k[i] in rest;
        var j :| 0 <= j < |rest| && rest[j] == k[i];
        assert ms[j + 1] == k[i];
      }
    }
  }

  lemma DistinctAppend(a: seq<Message>, b: seq<Message>)
    requires Distinct(a) && Distinct(b) && forall i, j :: 0 <= i < |a| && 0 <= j < |b| ==> a[i].seqno != b[j].seqno
    ensures Distinct(a + b)
  {
  }

  lemma OrderedDistinct(ms: seq<Message>)
    requires Ordered(ms)
    ensures Distinct(ms)
  {
    hide Num, Canonical;
    forall i, j | 0 <= i < j < |ms| ensures ms[i].seqno != ms[j].seqno {
      assert Num(ms[i].seqno) < Num(ms[j].seqno);
    }
  }

  lemma {:induction false} InsertDistinct(m: Message, ms: seq<Message>)
    requires Distinct(ms) && forall i :: 0 <= i < |ms| ==> ms[i].seqno != m.seqno
    ensures Distinct(Insert(m, ms)) && forall x :: x in Insert(m, ms) <==> x == m || x in ms
  {
    hide CompareSequence;
    if ms != [] && CompareSequence(ms[0].seqno, m.seqno) == Before {
      var rest := ms[1..];
      InsertDistinct(m, rest);
      var r := Insert(m, rest);
      forall i | 0 <= i < |r| ensures r[i].seqno != ms[0].seqno {
        assert r[i] in r;
        if r[i] != m {
          var j :| 0 <= j < |rest| && rest[j] == r[i];
          assert ms[j + 1] == r[i];
        }
      }
      assert Insert(m, ms) == [ms[0]] + r;
    }
  }

  lemma {:induction false} SortDistinct(ms: seq<Message>)
    requires Distinct(ms)
    ensures Distinct(SortBySequence(ms)) && forall x :: x in SortBySequence(ms) <==> x in ms
  {
    if ms != [] {
      SortDistinct(ms[1..]);
      var sorted := SortBySequence(ms[1..]);
      forall i | 0 <= i < |sorted| ensures sorted[i].seqno != ms[0].seqno {
        assert sorted[i] in ms[1..];
      }
      hide Insert, SortBySequence;
      InsertDistinct(ms[0], sorted);
    }
  }

  lemma SortedOrdered(ms: seq<Message>)
    requires Distinct(ms) && AllCanonical(ms)
    ensures Ordered(SortBySequence(ms)) && Unique(SortBySequence(ms)) == SortBySequence(ms)
  {
    var sorted := SortBySequence(ms);
    SortAscending(ms);
    SortDistinct(ms);
    hide SortBySequence, Num, Canonical, Unique;
    forall i, j | 0 <= i < j < |sorted| ensures Num(sorted[i].seqno) < Num(sorted[j].seqno) {
      CompareIsNumeric(sorted[i].seqno, sorted[j].seqno);
    }
    OrderedUnique(sorted);
  }

  /** Before the limits, a window over an ordered earlier one is exactly the page and what stays. */
  lemma PruneMerges(earlier: seq<Message>, page: Page, now: nat, limits: Limits) returns (whole: seq<Message>)
    requires Ordered(earlier) && Ordered(page.messages) && Canonical(page.retainedFrom) && Canonical(page.retainedTo)
    ensures Merged(whole, earlier, page, now) && Prune(earlier, page, now, limits) == Longest(whole, limits)
  {
    var kept := Kept(earlier, page, now);
    OrderedDistinct(earlier);
    OrderedDistinct(page.messages);
    KeptDistinct(earlier, page, now);
    KeptMembers(earlier, page, now);
    KeptCanonical(earlier, page, now);
    forall i, j | 0 <= i < |kept| && 0 <= j < |page.messages| ensures kept[i].seqno != page.messages[j].seqno {
      assert kept[i] in kept;
    }
    assert AllCanonical(kept + page.messages);
    hide Num, Canonical, Kept, Stays, Longest, Ordered, Unique;
    DistinctAppend(kept, page.messages);
    hide Distinct, AllCanonical;
    SortedOrdered(kept + page.messages);
    SortDistinct(kept + page.messages);
    whole := SortBySequence(kept + page.messages);
  }

  lemma {:induction false} BytesAreTotal(ms: seq<Message>)
    ensures Bytes(ms) == TotalBytes(ms)
    decreases |ms|
  {
    if ms != [] {
      var n := |ms| - 1;
      BytesAreTotal(ms[..n]);
      assert ms == ms[..n] + [ms[n]];
      BytesAppend(ms[..n], [ms[n]]);
      OneBytes(ms[n]);
    }
  }

  lemma OneBytes(m: Message)
    ensures Bytes([m]) == Utf8Length(m.body)
  {
    hide Utf8Length;
    assert [m][1..] == [];
  }

  lemma LongestIsNewest(whole: seq<Message>, limits: Limits)
    ensures Newest(Longest(whole, limits), whole, limits)
  {
    hide TotalBytes, Bytes;
    var kept := Longest(whole, limits);
    LongestIsSuffix(whole, limits);
    BytesAreTotal(kept);
    forall k | 0 <= k < |whole| - |kept| ensures !Within(whole[k..], limits) {
      BytesAreTotal(whole[k..]);
      if Within(whole[k..], limits) {
        LongestIsLongest(whole, limits, k);
      }
    }
  }

  // --- The stored window ---

  /** The window cached before for the page's own epoch. */
  function Earlier(cache: Cache, name: Str, page: Page): Option<StoredPage> {
    if (cache.epoch in {None, Some([]), Some(page.epoch)}) && name in cache.pages then Some(cache.pages[name]) else None
  }

  /** What a page starts from: the earlier window, or nothing after a gap or for an empty journal. */
  function Start(cache: Cache, name: Str, page: Page): seq<Message> {
    var earlier := Earlier(cache, name, page);
    if page.coverage == Gap || EmptyJournal(page) || earlier == None then [] else earlier.value.page.messages
  }

  lemma PruneOwn(page: Page, now: nat, limits: Limits)
    ensures Prune(page.messages, page, now, limits) == Prune([], page, now, limits)
  {
    KeptIncoming(page.messages, page, now);
    hide Longest, Unique, SortBySequence;
  }

  /** The stored messages are the newest of the page's and those that stay. */
  lemma WindowHolds(cache: Cache, name: Str, page: Page, now: nat, limits: Limits) returns (whole: seq<Message>)
    requires ApplyPage(cache, name, page, now, limits).Some? && Bounded(cache, limits)
    requires Canonical(page.retainedFrom) && Canonical(page.retainedTo)
    ensures Merged(whole, Start(cache, name, page), page, now)
    ensures var r := ApplyPage(cache, name, page, now, limits).value;
      name in r.pages && Newest(r.pages[name].page.messages, whole, limits)
  {
    NoneOrdered();
    PruneOwn(page, now, limits);
    hide Prune, Merged, Newest, Ordered, CachedPage;
    whole := PruneMerges(Start(cache, name, page), page, now, limits);
    LongestIsNewest(whole, limits);
    assert ApplyPage(cache, name, page, now, limits).value.pages[name].page.messages == Prune(Start(cache, name, page), page, now, limits) by {
      StoredIs(cache, name, page, now, limits);
    }
  }

  lemma StoredIs(cache: Cache, name: Str, page: Page, now: nat, limits: Limits)
    requires ApplyPage(cache, name, page, now, limits).Some?
    ensures ApplyPage(cache, name, page, now, limits).value.pages[name].page.messages == Prune(Start(cache, name, page), page, now, limits)
  {
    PruneOwn(page, now, limits);
    assert Cached(Based(cache, page), name) == Earlier(cache, name, page);
    hide Prune, Ordered, Based, Earlier;
    assert name in ApplyPage(cache, name, page, now, limits).value.pages;
  }

  /** The stored fields follow from the stored messages: their first and last numbers, whether earlier and later ones are
      retained, and the cursors to them; the epoch, channel and retained range are the page's. */
  lemma StoredFields(cache: Cache, name: Str, page: Page, now: nat, limits: Limits)
    requires ApplyPage(cache, name, page, now, limits).Some? && Bounded(cache, limits)
    requires Canonical(page.retainedFrom) && Canonical(page.retainedTo)
    ensures var r := ApplyPage(cache, name, page, now, limits).value;
      && name in r.pages && r.epoch == Some(page.epoch)
      && var s := r.pages[name]; var ms := s.page.messages; var n := |ms|;
      && s.page.epoch == page.epoch && s.page.channel == page.channel
      && s.page.retainedFrom == page.retainedFrom && s.page.retainedTo == page.retainedTo
      && s.fromSequence == (if n == 0 then NONE else ms[0].seqno) && s.toSequence == (if n == 0 then NONE else ms[n - 1].seqno)
      && (s.earlier <==> page.retainedFrom != NONE && s.fromSequence != NONE && Num(page.retainedFrom) < Num(s.fromSequence))
      && (s.page.caughtUp <==> if n == 0 then page.messages == [] && page.caughtUp
                               else page.retainedTo == NONE || Num(s.toSequence) >= Num(page.retainedTo))
      && s.nextCursor == (if s.page.caughtUp then None else Some(s.toSequence))
      && s.earlierCursor == (if s.earlier then Some(s.fromSequence) else None)
  {
    ApplyBounded(cache, name, page, now, limits, name);
    var s := ApplyPage(cache, name, page, now, limits).value.pages[name];
    var ms := s.page.messages;
    if |ms| != 0 {
      CompareIsNumeric(page.retainedFrom, ms[0].seqno);
      CompareIsNumeric(ms[|ms| - 1].seqno, page.retainedTo);
    }
    hide Prune, Num, Canonical, CompareSequence, Fits;
  }

  /** A window has a gap exactly when its page says so, or when it goes on from an earlier one that had a gap or from
      which nothing is left although the journal holds something; without a gap it is empty exactly when it has no
      messages. */
  lemma StoredCoverage(cache: Cache, name: Str, page: Page, now: nat, limits: Limits)
    requires ApplyPage(cache, name, page, now, limits).Some?
    ensures var s := ApplyPage(cache, name, page, now, limits).value.pages[name].page;
      var earlier := Earlier(cache, name, page);
      var holds := page.retainedFrom != NONE || page.retainedTo != NONE;
      && (s.coverage == Gap <==>
            || page.coverage == Gap
            || (!EmptyJournal(page) && earlier.Some? && (earlier.value.page.coverage == Gap || (s.messages == [] && holds))))
      && (s.coverage != Gap ==> (s.coverage == Empty <==> s.messages == []))
  {
    hide Prune, Ordered;
  }

  /** The next background page is asked for after the last message kept; an empty journal forgets where, and a window
      without messages leaves it. */
  lemma StoredAfter(cache: Cache, name: Str, page: Page, now: nat, limits: Limits)
    requires ApplyPage(cache, name, page, now, limits).Some?
    ensures var r := ApplyPage(cache, name, page, now, limits).value; var s := r.pages[name];
      var kept := cache.epoch in {None, Some([]), Some(page.epoch)} && name in cache.after;
      if EmptyJournal(page) then name !in r.after
      else if s.toSequence != NONE then name in r.after && r.after[name] == s.toSequence
      else (name in r.after <==> kept) && (kept ==> r.after[name] == cache.after[name])
  {
    hide Prune, Ordered;
  }

  /** A page is refused exactly when it is out of order or of another channel. */
  lemma RefusedExactly(cache: Cache, name: Str, page: Page, now: nat, limits: Limits)
    ensures ApplyPage(cache, name, page, now, limits) == None <==> !Ordered(page.messages) || page.channel != name
  {
    hide Prune, Ordered, CachedPage;
  }
}
