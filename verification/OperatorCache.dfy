/** The bounded background cache of recent channel windows (extension/channel-read-state.ts). */
module OperatorCache {
  import opened Options
  import opened Strings
  import opened Decimal
  import opened Utf8
  import opened Channels

  const MESSAGE_LIMIT: nat := 24
  const BYTE_LIMIT: nat := 33554432
  const RETENTION_SECONDS: nat := 86400
  const MAX_BODY_BYTES: nat := 4096

  datatype Limits = Limits(messages: nat, bytes: nat)

  function BodyBytes(m: Message): nat {
    Utf8Length(m.body)
  }

  function Bytes(ms: seq<Message>): nat {
    if |ms| == 0 then 0 else BodyBytes(ms[0]) + Bytes(ms[1..])
  }

  // --- Retention, order, uniqueness ---

  predicate Incoming(m: Message, page: Page) {
    exists i :: 0 <= i < |page.messages| && page.messages[i].seqno == m.seqno
  }

  /** The filter on what is already cached. Incoming messages never pass through it. */
  predicate Retained(m: Message, page: Page, now: nat) {
    && !Incoming(m, page)
    && !(page.retainedFrom != NONE && CompareSequence(m.seqno, page.retainedFrom) == Before)
    && !(page.retainedTo != NONE && CompareSequence(page.retainedTo, m.seqno) == Before)
    && !(m.postedAt + RETENTION_SECONDS <= now)
    && Canonical(m.seqno)
  }

  function Kept(ms: seq<Message>, page: Page, now: nat): seq<Message> {
    if |ms| == 0 then []
    else (if Retained(ms[0], page, now) then [ms[0]] else []) + Kept(ms[1..], page, now)
  }

  /** Stable insertion, the order of a stable sort by sequence. */
  function Insert(m: Message, ms: seq<Message>): seq<Message> {
    if |ms| != 0 && CompareSequence(ms[0].seqno, m.seqno) == Before then [ms[0]] + Insert(m, ms[1..])
    else [m] + ms
  }

  function SortBySequence(ms: seq<Message>): seq<Message> {
    if |ms| == 0 then [] else Insert(ms[0], SortBySequence(ms[1..]))
  }

  /** Of neighbours with one sequence the later one stays. */
  function Unique(ms: seq<Message>): seq<Message> {
    if |ms| == 0 then []
    else
      var front := Unique(ms[..|ms| - 1]);
      var m := ms[|ms| - 1];
      if |front| != 0 && front[|front| - 1].seqno == m.seqno then front[..|front| - 1] + [m] else front + [m]
  }

  predicate AllCanonical(ms: seq<Message>) {
    forall i :: 0 <= i < |ms| ==> Canonical(ms[i].seqno)
  }

  predicate Ascending(ms: seq<Message>) {
    forall i, j :: 0 <= i < j < |ms| ==> Num(ms[i].seqno) <= Num(ms[j].seqno)
  }

  lemma {:induction false} KeptCanonical(ms: seq<Message>, page: Page, now: nat)
    ensures AllCanonical(Kept(ms, page, now))
  {
    if |ms| != 0 {
      KeptCanonical(ms[1..], page, now);
    }
  }

  lemma {:induction false} InsertAscending(m: Message, ms: seq<Message>)
    requires AllCanonical(ms) && Ascending(ms) && Canonical(m.seqno)
    ensures AllCanonical(Insert(m, ms)) && Ascending(Insert(m, ms))
    ensures forall x :: x in Insert(m, ms) <==> x == m || x in ms
  {
    hide Canonical, Num, CompareSequence;
    if |ms| != 0 {
      CompareIsNumeric(ms[0].seqno, m.seqno);
      if CompareSequence(ms[0].seqno, m.seqno) == Before {
        var rest := ms[1..];
        InsertAscending(m, rest);
        var r := Insert(m, rest);
        forall x | x in r ensures Num(ms[0].seqno) <= Num(x.seqno) {
          if x != m {
            var k :| 0 <= k < |rest| && rest[k] == x;
            assert ms[k + 1] == x;
          }
        }
        ConsAscending(ms[0], r);
        assert Insert(m, ms) == [ms[0]] + r;
        assert ms == [ms[0]] + rest;
      } else {
        assert Num(m.seqno) <= Num(ms[0].seqno);
        ConsAscending(m, ms);
      }
    }
  }

  lemma ConsAscending(m: Message, ms: seq<Message>)
    requires AllCanonical(ms) && Ascending(ms) && Canonical(m.seqno)
    requires forall x :: x in ms ==> Num(m.seqno) <= Num(x.seqno)
    ensures AllCanonical([m] + ms) && Ascending([m] + ms)
  {
    hide Canonical, Num;
    assert forall k :: 0 <= k < |ms| ==> ms[k] in ms;
  }

  lemma {:induction false} SortAscending(ms: seq<Message>)
    requires AllCanonical(ms)
    ensures AllCanonical(SortBySequence(ms)) && Ascending(SortBySequence(ms))
    ensures forall x :: x in SortBySequence(ms) <==> x in ms
  {
    hide Canonical, Num;
    if |ms| != 0 {
      SortAscending(ms[1..]);
      InsertAscending(ms[0], SortBySequence(ms[1..]));
      assert ms == [ms[0]] + ms[1..];
    }
  }

  lemma OrderedSnoc(front: seq<Message>, m: Message)
    requires Ordered(front) && Canonical(m.seqno) && (|front| != 0 ==> Num(front[|front| - 1].seqno) < Num(m.seqno))
    ensures Ordered(front + [m])
  {
    hide Canonical, Num;
  }

  lemma OrderedReplaceLast(front: seq<Message>, m: Message)
    requires Ordered(front) && |front| != 0 && front[|front| - 1].seqno == m.seqno
    ensures Ordered(front[..|front| - 1] + [m])
  {
    hide Canonical, Num;
  }

  lemma AscendingNeighbours(ms: seq<Message>, n: nat)
    requires AllCanonical(ms) && Ascending(ms) && n < |ms|
    ensures Canonical(ms[n].seqno) && AllCanonical(ms[..n]) && Ascending(ms[..n])
    ensures n != 0 ==> ms[n - 1].seqno == ms[n].seqno || Num(ms[n - 1].seqno) < Num(ms[n].seqno)
  {
    if n != 0 {
      CompareIsNumeric(ms[n - 1].seqno, ms[n].seqno);
    }
    hide Canonical, Num;
  }

  lemma {:induction false} UniqueOrdered(ms: seq<Message>)
    requires AllCanonical(ms) && Ascending(ms)
    ensures Ordered(Unique(ms))
    ensures |ms| != 0 ==> |Unique(ms)| != 0 && Unique(ms)[|Unique(ms)| - 1] == ms[|ms| - 1]
  {
    if |ms| == 0 {
    } else {
      hide Canonical, Num, Ordered, AllCanonical, Ascending;
      var n := |ms| - 1;
      AscendingNeighbours(ms, n);
      UniqueOrdered(ms[..n]);
      var front := Unique(ms[..n]);
      if n == 0 {
        assert ms[..n] == [] && front == [];
        NoneOrdered();
        OrderedSnoc(front, ms[n]);
      } else if front[|front| - 1].seqno == ms[n].seqno {
        OrderedReplaceLast(front, ms[n]);
      } else {
        OrderedSnoc(front, ms[n]);
      }
    }
  }

  lemma NoneOrdered()
    ensures Ordered([])
  {
  }

  lemma {:induction false} OrderedSorts(ms: seq<Message>)
    requires Ordered(ms)
    ensures SortBySequence(ms) == ms
  {
    hide Canonical, Num;
    if |ms| != 0 {
      OrderedSorts(ms[1..]);
      if |ms| > 1 {
        CompareIsNumeric(ms[1].seqno, ms[0].seqno);
      }
    }
  }

  lemma OrderedNeighbours(ms: seq<Message>, n: nat)
    requires Ordered(ms) && n < |ms|
    ensures Ordered(ms[..n]) && (n != 0 ==> ms[n - 1].seqno != ms[n].seqno)
  {
    hide Canonical, Num;
    assert n != 0 ==> Num(ms[n - 1].seqno) < Num(ms[n].seqno);
  }

  lemma {:induction false} OrderedUnique(ms: seq<Message>)
    requires Ordered(ms)
    ensures Unique(ms) == ms
  {
    hide Ordered;
    if |ms| != 0 {
      var n := |ms| - 1;
      OrderedNeighbours(ms, n);
      OrderedUnique(ms[..n]);
      assert ms == ms[..n] + [ms[n]];
    }
  }

  // --- The limits ---

  predicate Fits(ms: seq<Message>, limits: Limits) {
    |ms| <= limits.messages && Bytes(ms) <= limits.bytes
  }

  /** The longest suffix within both limits. */
  function Longest(ms: seq<Message>, limits: Limits): seq<Message> {
    if |ms| == 0 || Fits(ms, limits) then ms else Longest(ms[1..], limits)
  }

  lemma {:induction false} LongestIsSuffix(ms: seq<Message>, limits: Limits)
    ensures Fits(Longest(ms, limits), limits)
    ensures |Longest(ms, limits)| <= |ms| && Longest(ms, limits) == ms[|ms| - |Longest(ms, limits)|..]
  {
    hide BodyBytes;
    if |ms| != 0 && !Fits(ms, limits) {
      LongestIsSuffix(ms[1..], limits);
    }
  }

  lemma {:induction false} BytesSuffix(ms: seq<Message>, k: nat)
    requires k <= |ms|
    ensures Bytes(ms[k..]) <= Bytes(ms)
  {
    if k != 0 {
      BytesSuffix(ms[1..], k - 1);
      assert ms[1..][k - 1..] == ms[k..];
    }
  }

  lemma {:induction false} LongestIsLongest(ms: seq<Message>, limits: Limits, k: nat)
    requires k <= |ms| && Fits(ms[k..], limits)
    ensures |ms[k..]| <= |Longest(ms, limits)|
  {
    if k != 0 && !Fits(ms, limits) {
      assert ms[1..][k - 1..] == ms[k..];
      LongestIsLongest(ms[1..], limits, k - 1);
    } else if k == 0 {
      assert ms[0..] == ms;
    }
  }

  lemma {:induction false} BytesAppend(x: seq<Message>, y: seq<Message>)
    ensures Bytes(x + y) == Bytes(x) + Bytes(y)
  {
    if |x| == 0 {
      assert x + y == y;
    } else {
      assert (x + y)[1..] == x[1..] + y;
      BytesAppend(x[1..], y);
    }
  }

  /** Trimming early loses nothing that trimming late would keep. */
  lemma {:induction false} LongestAbsorbs(x: seq<Message>, y: seq<Message>, limits: Limits)
    ensures Longest(Longest(x, limits) + y, limits) == Longest(x + y, limits)
  {
    if |x| != 0 && !Fits(x, limits) {
      BytesAppend(x, y);
      assert (x + y)[1..] == x[1..] + y;
      LongestAbsorbs(x[1..], y, limits);
    }
  }

  function Prune(messages: seq<Message>, page: Page, now: nat, limits: Limits): seq<Message> {
    Longest(Unique(SortBySequence(Kept(messages, page, now) + page.messages)), limits)
  }

  /** `pruneMessages` with its two loops: collapse equal neighbours, then drop the oldest until both
      limits hold. */
  method PruneMessages(messages: seq<Message>, page: Page, now: nat, limits: Limits) returns (r: seq<Message>)
    ensures r == Prune(messages, page, now, limits)
  {
    var ordered := SortBySequence(Kept(messages, page, now) + page.messages);
    r := [];
    for i := 0 to |ordered|
      invariant r == Unique(ordered[..i])
    {
      assert ordered[..i + 1][..i] == ordered[..i];
      if |r| != 0 && r[|r| - 1].seqno == ordered[i].seqno {
        r := r[..|r| - 1] + [ordered[i]];
      } else {
        r := r + [ordered[i]];
      }
    }
    assert ordered[..|ordered|] == ordered;
    r := DropOldest(r, limits);
  }

  method DropOldest(ms: seq<Message>, limits: Limits) returns (r: seq<Message>)
    ensures r == Longest(ms, limits)
  {
    r := ms;
    var bytes := Bytes(ms);
    while |r| > limits.messages || (|r| > 1 && bytes > limits.bytes)
      invariant bytes == Bytes(r) && Longest(ms, limits) == Longest(r, limits)
      decreases |r|
    {
      bytes := bytes - BodyBytes(r[0]);
      r := r[1..];
    }
    if |r| == 1 && bytes > limits.bytes {
      assert Longest(r, limits) == Longest(r[1..], limits) == [];
      r := r[1..];
    }
  }

  /** Whatever was cached and whatever page arrives, the result is strictly ordered and within both limits. */
  lemma PruneBounded(messages: seq<Message>, page: Page, now: nat, limits: Limits)
    requires Ordered(page.messages)
    ensures Ordered(Prune(messages, page, now, limits)) && Fits(Prune(messages, page, now, limits), limits)
  {
    hide Num, Canonical, Kept, SortBySequence, Unique, Longest, Fits;
    var all := Kept(messages, page, now) + page.messages;
    KeptCanonical(messages, page, now);
    assert AllCanonical(all);
    hide Ordered, AllCanonical, Ascending;
    SortAscending(all);
    var unique := Unique(SortBySequence(all));
    LongestIsSuffix(unique, limits);
    UniqueOrdered(SortBySequence(all));
    OrderedSuffix(unique, |unique| - |Longest(unique, limits)|);
  }

  lemma OrderedSuffix(ms: seq<Message>, k: nat)
    requires Ordered(ms) && k <= |ms|
    ensures Ordered(ms[k..])
  {
    hide Num, Canonical;
  }

  // --- Incremental equals batch ---

  /** What lies at or above a retention floor. */
  function Above(ms: seq<Message>, floor: nat): seq<Message> {
    if |ms| == 0 || Num(ms[0].seqno) >= floor then ms else Above(ms[1..], floor)
  }

  lemma {:induction false} AboveTwice(ms: seq<Message>, f: nat, g: nat)
    requires f <= g
    ensures Above(Above(ms, f), g) == Above(ms, g)
  {
    hide Num;
    if |ms| != 0 && Num(ms[0].seqno) < f {
      AboveTwice(ms[1..], f, g);
    }
  }

  lemma {:induction false} AboveLongest(x: seq<Message>, floor: nat, limits: Limits)
    requires Ordered(x)
    ensures Above(Longest(x, limits), floor) == Longest(Above(x, floor), limits)
  {
    hide Num, Canonical;
    if |x| != 0 {
      if Fits(x, limits) {
        AboveIsSuffix(x, floor);
        BytesSuffix(x, |x| - |Above(x, floor)|);
      } else if Num(x[0].seqno) >= floor {
        LongestIsSuffix(x, limits);
        AboveAll(Longest(x, limits), x, floor);
      } else {
        AboveLongest(x[1..], floor, limits);
      }
    }
  }

  lemma {:induction false} AboveIsSuffix(x: seq<Message>, floor: nat)
    ensures |Above(x, floor)| <= |x| && Above(x, floor) == x[|x| - |Above(x, floor)|..]
  {
    hide Num;
    if |x| != 0 && Num(x[0].seqno) < floor {
      AboveIsSuffix(x[1..], floor);
    }
  }

  lemma AboveAll(suffix: seq<Message>, x: seq<Message>, floor: nat)
    requires Ordered(x) && |x| != 0 && Num(x[0].seqno) >= floor
    requires |suffix| <= |x| && suffix == x[|x| - |suffix|..]
    ensures Above(suffix, floor) == suffix && Above(x, floor) == x
  {
    hide Num, Canonical;
    if |suffix| != 0 && |suffix| < |x| {
      assert Num(x[0].seqno) < Num(x[|x| - |suffix|].seqno);
    }
  }

  lemma {:induction false} AboveAppend(x: seq<Message>, y: seq<Message>, floor: nat)
    requires forall i :: 0 <= i < |y| ==> Num(y[i].seqno) >= floor
    ensures Above(x + y, floor) == Above(x, floor) + y
  {
    hide Num;
    if |x| == 0 {
      assert x + y == y;
    } else if Num(x[0].seqno) < floor {
      assert (x + y)[1..] == x[1..] + y;
      AboveAppend(x[1..], y, floor);
    }
  }

  predicate EmptyJournal(page: Page) {
    |page.messages| == 0 && page.retainedFrom == NONE && page.retainedTo == NONE
  }

  /** The retention floor once a page is applied; a page without one leaves it where it was. */
  function Floor(page: Page, floor: nat): nat {
    if page.retainedFrom == NONE then floor else Num(page.retainedFrom)
  }

  /** Nothing cached is past its age or newer than the journal's end. What was trimmed before does not matter. */
  ghost predicate Fresh(cached: seq<Message>, page: Page, now: nat) {
    forall i :: 0 <= i < |cached| ==>
      && cached[i].postedAt + RETENTION_SECONDS > now
      && (page.retainedTo == NONE || Num(cached[i].seqno) <= Num(page.retainedTo))
  }

  /** A page that continues what was applied: its records follow all of them and lie above its retention floor, which
      does not go down, and what is still cached is fresh. */
  ghost predicate Continues(applied: seq<Message>, floor: nat, page: Page, now: nat, limits: Limits) {
    && Ordered(applied + page.messages)
    && Canonical(page.retainedFrom) && Canonical(page.retainedTo)
    && page.coverage != Gap && !EmptyJournal(page)
    && floor <= Floor(page, floor)
    && (forall i :: 0 <= i < |page.messages| ==> Num(page.messages[i].seqno) >= Floor(page, floor))
    && Fresh(Longest(Above(applied, floor), limits), page, now)
  }

  /** On fresh messages before the page, the filter is exactly the page's retention floor. */
  lemma {:induction false} KeptIsAbove(ms: seq<Message>, page: Page, now: nat)
    requires Ordered(ms + page.messages) && Fresh(ms, page, now) && Canonical(page.retainedFrom) && Canonical(page.retainedTo)
    ensures Kept(ms, page, now) == if page.retainedFrom == NONE then ms else Above(ms, Num(page.retainedFrom))
  {
    hide Num, Canonical;
    if |ms| != 0 {
      var m, rest, all := ms[0], ms[1..], ms + page.messages;
      assert rest + page.messages == all[1..];
      assert all[0] == m && Canonical(all[0].seqno);
      KeptIsAbove(rest, page, now);
      assert !Incoming(m, page) by {
        forall i | 0 <= i < |page.messages| ensures page.messages[i].seqno != m.seqno {
          assert all[|ms| + i] == page.messages[i];
        }
      }
      CompareIsNumeric(m.seqno, page.retainedFrom);
      CompareIsNumeric(page.retainedTo, m.seqno);
      assert [m] + rest == ms;
      if page.retainedFrom != NONE && Num(m.seqno) >= Num(page.retainedFrom) {
        if |rest| != 0 {
          assert all[1] == rest[0] && Num(all[0].seqno) < Num(all[1].seqno);
        }
        assert Above(rest, Num(page.retainedFrom)) == rest;
      }
    }
  }

  /** What is cached is a suffix of what was applied, at or above the floor. */
  lemma CachedIs(applied: seq<Message>, floor: nat, page: Page, limits: Limits)
    requires Ordered(applied + page.messages)
    ensures var base, cached := Above(applied, floor), Longest(Above(applied, floor), limits);
      && Ordered(base) && Ordered(cached + page.messages) && Above(cached, floor) == cached
  {
    AboveIsSuffix(applied, floor);
    hide Num, Canonical, Above, Longest;
    var base, all := Above(applied, floor), applied + page.messages;
    LongestIsSuffix(base, limits);
    var cached := Longest(base, limits);
    assert cached + page.messages == all[|applied| - |cached|..];
    OrderedSuffix(all, |applied| - |cached|);
    assert base + page.messages == all[|applied| - |base|..];
    OrderedSuffix(all, |applied| - |base|);
    OrderedPrefix(base, page.messages);
    hide Ordered;
    AboveTwice(applied, floor, floor);
    AboveLongest(base, floor, limits);
  }

  lemma OrderedPrefix(a: seq<Message>, b: seq<Message>)
    requires Ordered(a + b)
    ensures Ordered(a)
  {
    hide Num, Canonical;
    assert forall i :: 0 <= i < |a| ==> (a + b)[i] == a[i];
  }

  /** Nothing is reordered or merged: pruning a suffix of what was applied trims it at the floor, appends
      the page, and trims to the limits. */
  lemma PruneContinues(cached: seq<Message>, floor: nat, page: Page, now: nat, limits: Limits)
    requires Ordered(cached + page.messages) && Fresh(cached, page, now) && Above(cached, floor) == cached
    requires Canonical(page.retainedFrom) && Canonical(page.retainedTo)
    ensures Prune(cached, page, now, limits) == Longest(Above(cached, Floor(page, floor)) + page.messages, limits)
  {
    KeptIsAbove(cached, page, now);
    hide Fresh, Ordered, Canonical, SortBySequence, Unique, Longest;
    var kept := Above(cached, Floor(page, floor));
    AboveIsSuffix(cached, Floor(page, floor));
    var ms := kept + page.messages;
    assert kept == if page.retainedFrom == NONE then cached else Above(cached, Num(page.retainedFrom));
    hide Num, Canonical, Above, Kept, Longest, Ordered, Fresh, SortBySequence, Unique, Floor;
    assert ms == (cached + page.messages)[|cached| - |kept|..];
    OrderedSuffix(cached + page.messages, |cached| - |kept|);
    OrderedSorts(ms);
    OrderedUnique(ms);
  }

  /** One step: pruning the cached suffix with a continuing page gives the suffix of everything applied. */
  lemma PruneIsBatch(applied: seq<Message>, floor: nat, page: Page, now: nat, limits: Limits)
    requires Continues(applied, floor, page, now, limits)
    ensures Prune(Longest(Above(applied, floor), limits), page, now, limits)
            == Longest(Above(applied + page.messages, Floor(page, floor)), limits)
  {
    var g := Floor(page, floor);
    assert floor <= g && forall i :: 0 <= i < |page.messages| ==> Num(page.messages[i].seqno) >= g;
    CachedIs(applied, floor, page, limits);
    hide Num, Canonical, Prune, Above, Longest, Ordered, Fresh, Floor;
    var base := Above(applied, floor);
    PruneContinues(Longest(base, limits), floor, page, now, limits);
    AboveLongest(base, g, limits);
    AboveTwice(applied, floor, g);
    LongestAbsorbs(Above(applied, g), page.messages, limits);
    AboveAppend(applied, page.messages, g);
  }

  // --- The cache ---

  /** A cached window: the page as stored, with the fields recomputed from what was kept. */
  datatype StoredPage = StoredPage(page: Page, fromSequence: Str, toSequence: Str, earlier: bool,
                                   nextCursor: Option<Str>, earlierCursor: Option<Str>)

  datatype Cache = Cache(epoch: Option<Str>, pages: map<Str, StoredPage>, after: map<Str, Str>)

  const EMPTY := Cache(None, map[], map[])

  function CachedPage(page: Page, messages: seq<Message>, coverage: Coverage): StoredPage {
    var from := if |messages| == 0 then NONE else messages[0].seqno;
    var to := if |messages| == 0 then NONE else messages[|messages| - 1].seqno;
    var earlier := from != NONE && page.retainedFrom != NONE && CompareSequence(page.retainedFrom, from) == Before;
    var caughtUp :=
      if |messages| == 0 then |page.messages| == 0 && page.caughtUp
      else page.retainedTo == NONE || CompareSequence(to, page.retainedTo) in {Same, After};
    StoredPage(page.(messages := messages, coverage := coverage, caughtUp := caughtUp), from, to, earlier,
               if caughtUp then None else Some(to), if earlier then Some(from) else None)
  }

  /** The kept messages and their coverage, given the window cached before. */
  function Window(previous: Option<StoredPage>, page: Page, now: nat, limits: Limits): (seq<Message>, Coverage) {
    var history := page.retainedFrom != NONE || page.retainedTo != NONE;
    if EmptyJournal(page) || page.coverage == Gap || previous.None? then
      var start := if page.coverage == Gap || EmptyJournal(page) then [] else page.messages;
      var ms := Prune(start, page, now, limits);
      (ms, if page.coverage == Gap then Gap else if |ms| == 0 then Empty else Complete)
    else
      var ms := Prune(previous.value.page.messages, page, now, limits);
      if |page.messages| == 0 then
        (ms, if |ms| == 0 && history then Gap else if |ms| == 0 then Empty
             else if previous.value.page.coverage == Gap then Gap else Complete)
      else
        (ms, if previous.value.page.coverage == Gap then Gap else if |ms| == 0 && history then Gap
             else if |ms| == 0 then Empty else Complete)
  }

  predicate SameEpoch(cache: Cache, page: Page) {
    cache.epoch.None? || cache.epoch.value == [] || cache.epoch.value == page.epoch
  }

  function Based(cache: Cache, page: Page): Cache {
    if SameEpoch(cache, page) then cache.(epoch := Some(page.epoch)) else Cache(Some(page.epoch), map[], map[])
  }

  function Cached(cache: Cache, name: Str): Option<StoredPage> {
    if name in cache.pages then Some(cache.pages[name]) else None
  }

  function CachedAfter(cache: Cache, name: Str): Str {
    if name in cache.after then cache.after[name] else NONE
  }

  /** `None` when the page is refused. */
  function ApplyPage(cache: Cache, name: Str, page: Page, now: nat, limits: Limits): Option<Cache> {
    if !Ordered(page.messages) || page.channel != name then None else
    var base := Based(cache, page);
    var (messages, coverage) := Window(Cached(base, name), page, now, limits);
    var stored := CachedPage(page, messages, coverage);
    Some(base.(pages := base.pages[name := stored],
               after := if EmptyJournal(page) then base.after - {name}
                        else if stored.toSequence != NONE then base.after[name := stored.toSequence] else base.after))
  }

  /** `applyOperatorCache`: the copied records are updated in place. */
  method ApplyOperatorCache(cache: Cache, name: Str, page: Page, now: nat, limits: Limits) returns (r: Option<Cache>)
    ensures r == ApplyPage(cache, name, page, now, limits)
  {
    hide Prune, CachedPage;
    var ordered := MessagesOrdered(page.messages);
    if !ordered || page.channel != name {
      return None;
    }
    var base := Based(cache, page);
    var pages, after := base.pages, base.after;
    var previous := Cached(base, name);
    var history := page.retainedFrom != NONE || page.retainedTo != NONE;
    var messages, coverage;
    if EmptyJournal(page) || page.coverage == Gap || previous.None? {
      messages := PruneMessages(if page.coverage == Gap || EmptyJournal(page) then [] else page.messages, page, now, limits);
      coverage := if page.coverage == Gap then Gap else if |messages| == 0 then Empty else Complete;
    } else {
      messages := PruneMessages(previous.value.page.messages, page, now, limits);
      if |page.messages| == 0 {
        if |messages| == 0 && history {
          coverage := Gap;
        } else if |messages| == 0 {
          coverage := Empty;
        } else {
          coverage := if previous.value.page.coverage == Gap then Gap else Complete;
        }
      } else {
        coverage := if previous.value.page.coverage == Gap then Gap else if |messages| == 0 && history then Gap
                    else if |messages| == 0 then Empty else Complete;
      }
    }
    var stored := CachedPage(page, messages, coverage);
    pages := pages[name := stored];
    if EmptyJournal(page) {
      after := after - {name};
    } else if stored.toSequence != NONE {
      after := after[name := stored.toSequence];
    }
    r := Some(Cache(base.epoch, pages, after));
  }

  /** Every cached window is strictly ordered and within both limits. */
  ghost predicate Bounded(cache: Cache, limits: Limits) {
    forall name :: name in cache.pages ==>
      Ordered(cache.pages[name].page.messages) && Fits(cache.pages[name].page.messages, limits)
  }

  /** Unconditionally, for any pages from anyone: the bounds hold, and another channel's window and cursor
      change only by being dropped with their epoch. */
  lemma ApplyBounded(cache: Cache, name: Str, page: Page, now: nat, limits: Limits, other: Str)
    requires Bounded(cache, limits) && ApplyPage(cache, name, page, now, limits).Some?
    ensures var r := ApplyPage(cache, name, page, now, limits).value;
      && Bounded(r, limits)
      && (other != name ==>
            && Cached(r, other) == (if SameEpoch(cache, page) then Cached(cache, other) else None)
            && CachedAfter(r, other) == (if SameEpoch(cache, page) then CachedAfter(cache, other) else NONE))
  {
    hide Prune, Ordered, Fits;
    var previous := Cached(Based(cache, page), name);
    PruneBounded([], page, now, limits);
    PruneBounded(page.messages, page, now, limits);
    if previous.Some? {
      PruneBounded(previous.value.page.messages, page, now, limits);
    }
  }

  // --- Whole runs ---

  datatype Step = Step(page: Page, now: nat)

  function ApplySteps(cache: Cache, name: Str, steps: seq<Step>, limits: Limits): Cache
    decreases |steps|
  {
    if |steps| == 0 then cache
    else
      var r := ApplyPage(cache, name, steps[0].page, steps[0].now, limits);
      ApplySteps(if r.Some? then r.value else cache, name, steps[1..], limits)
  }

  function Everything(steps: seq<Step>): seq<Message> {
    if |steps| == 0 then [] else steps[0].page.messages + Everything(steps[1..])
  }

  /** Consecutive slices of one channel's journal in one epoch. */
  ghost predicate Consecutive(applied: seq<Message>, floor: nat, epoch: Str, name: Str, steps: seq<Step>, limits: Limits)
    decreases |steps|
  {
    |steps| != 0 ==>
      var page := steps[0].page;
      && page.epoch == epoch && page.channel == name
      && Continues(applied, floor, page, steps[0].now, limits)
      && Consecutive(applied + page.messages, Floor(page, floor), epoch, name, steps[1..], limits)
  }

  /** The retention floor after all the slices. */
  function LastFloor(floor: nat, steps: seq<Step>): nat
    decreases |steps|
  {
    if |steps| == 0 then floor else LastFloor(Floor(steps[0].page, floor), steps[1..])
  }

  ghost predicate Holds(cache: Cache, name: Str, epoch: Str, messages: seq<Message>) {
    cache.epoch == Some(epoch) && name in cache.pages && cache.pages[name].page.messages == messages
  }

  lemma ContinuesOrdered(applied: seq<Message>, floor: nat, page: Page, now: nat, limits: Limits)
    requires Continues(applied, floor, page, now, limits)
    ensures Ordered(page.messages) && !EmptyJournal(page)
  {
    hide Num, Canonical;
    assert forall i :: 0 <= i < |page.messages| ==> page.messages[i] == (applied + page.messages)[|applied| + i];
  }

  lemma StepHolds(cache: Cache, name: Str, epoch: Str, applied: seq<Message>, floor: nat, page: Page, now: nat, limits: Limits)
    requires Holds(cache, name, epoch, Longest(Above(applied, floor), limits))
    requires page.epoch == epoch && page.channel == name && Continues(applied, floor, page, now, limits)
    ensures var r := ApplyPage(cache, name, page, now, limits);
      r.Some? && Holds(r.value, name, epoch, Longest(Above(applied + page.messages, Floor(page, floor)), limits))
  {
    hide Prune, Num, Canonical, Above, Longest, Ordered, EmptyJournal, Fresh, Floor;
    PruneIsBatch(applied, floor, page, now, limits);
    ContinuesOrdered(applied, floor, page, now, limits);
    assert page.coverage != Gap;
    hide Continues;
  }

  lemma {:induction false} StepsHold(cache: Cache, name: Str, epoch: Str, applied: seq<Message>, floor: nat, steps: seq<Step>, limits: Limits)
    requires Holds(cache, name, epoch, Longest(Above(applied, floor), limits))
    requires Consecutive(applied, floor, epoch, name, steps, limits)
    ensures Holds(ApplySteps(cache, name, steps, limits), name, epoch,
                  Longest(Above(applied + Everything(steps), LastFloor(floor, steps)), limits))
    decreases |steps|
  {
    hide Num, Canonical, Above, Longest, ApplyPage, Continues, Holds, Floor;
    if |steps| == 0 {
      assert applied + [] == applied;
    } else {
      var page := steps[0].page;
      StepHolds(cache, name, epoch, applied, floor, page, steps[0].now, limits);
      StepsHold(ApplyPage(cache, name, page, steps[0].now, limits).value, name, epoch, applied + page.messages,
                Floor(page, floor), steps[1..], limits);
      assert applied + page.messages + Everything(steps[1..]) == applied + Everything(steps);
    }
  }

  lemma {:induction false} KeptIncoming(ms: seq<Message>, page: Page, now: nat)
    requires forall i :: 0 <= i < |ms| ==> Incoming(ms[i], page)
    ensures Kept(ms, page, now) == []
  {
    if |ms| != 0 {
      KeptIncoming(ms[1..], page, now);
    }
  }

  /** A channel's first window in an epoch is the page itself, trimmed to the limits. */
  lemma FirstHolds(cache: Cache, name: Str, page: Page, now: nat, limits: Limits)
    requires Cached(Based(cache, page), name).None? && page.channel == name && Continues([], 0, page, now, limits)
    ensures var r := ApplyPage(cache, name, page, now, limits);
      r.Some? && Holds(r.value, name, page.epoch, Longest(Above(page.messages, Floor(page, 0)), limits))
  {
    hide Num, Canonical, Prune, Above, Longest, Ordered, Floor;
    ContinuesOrdered([], 0, page, now, limits);
    FirstPrune(page, now, limits);
  }

  lemma FirstPrune(page: Page, now: nat, limits: Limits)
    requires Continues([], 0, page, now, limits)
    ensures Prune(page.messages, page, now, limits) == Longest(Above(page.messages, Floor(page, 0)), limits)
  {
    hide Num, Canonical;
    ContinuesOrdered([], 0, page, now, limits);
    KeptIncoming(page.messages, page, now);
    assert [] + page.messages == page.messages;
    OrderedSorts(page.messages);
    OrderedUnique(page.messages);
    hide Kept, SortBySequence, Unique, Longest;
    assert Above(page.messages, Floor(page, 0)) == page.messages;
  }

  /** Incremental equals batch: after any number of consecutive slices, the cached window is the longest
      suffix, within both limits, of everything applied that the journal still retains. */
  lemma IncrementalIsBatch(cache: Cache, name: Str, steps: seq<Step>, limits: Limits)
    requires |steps| != 0 && Cached(Based(cache, steps[0].page), name).None?
    requires Consecutive([], 0, steps[0].page.epoch, name, steps, limits)
    ensures Holds(ApplySteps(cache, name, steps, limits), name, steps[0].page.epoch,
                  Longest(Above(Everything(steps), LastFloor(0, steps)), limits))
  {
    hide Num, Canonical, Above, Longest, ApplyPage, Continues, Holds, Floor;
    var page := steps[0].page;
    FirstHolds(cache, name, page, steps[0].now, limits);
    assert [] + page.messages == page.messages;
    var r := ApplyPage(cache, name, page, steps[0].now, limits).value;
    StepsHold(r, name, page.epoch, page.messages, Floor(page, 0), steps[1..], limits);
  }

  lemma {:induction false} BodiesAreSmall(ms: seq<Message>)
    requires forall i :: 0 <= i < |ms| ==> BodyBytes(ms[i]) <= MAX_BODY_BYTES
    ensures Bytes(ms) <= MAX_BODY_BYTES * |ms|
  {
    if |ms| != 0 {
      BodiesAreSmall(ms[1..]);
    }
  }

  /** With bodies the wire admits, the default byte limit never decides what the default message limit
      would keep. */
  lemma ByteLimitNeverBinds(ms: seq<Message>)
    requires forall i :: 0 <= i < |ms| ==> BodyBytes(ms[i]) <= 4096
    ensures Limits(MESSAGE_LIMIT, BYTE_LIMIT) == Limits(24, 33554432)
    ensures Longest(ms, Limits(MESSAGE_LIMIT, BYTE_LIMIT)) == if |ms| <= 24 then ms else ms[|ms| - 24..]
  {
    hide Longest, BodyBytes, Bytes;
    var k := if |ms| <= MESSAGE_LIMIT then 0 else |ms| - MESSAGE_LIMIT;
    BodiesAreSmall(ms[k..]);
    LongestIsSuffix(ms, Limits(MESSAGE_LIMIT, BYTE_LIMIT));
    LongestIsLongest(ms, Limits(MESSAGE_LIMIT, BYTE_LIMIT), k);
  }
}
