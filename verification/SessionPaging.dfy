/** Pages of a session's ancestry behind issued handles (extension/operator-session-projection.ts). */
module SessionPaging {
  import opened Options
  import opened Strings
  import opened Decimal
  import opened Utf8
  import opened JsonText
  import opened SessionText

  const MAX_SCANNED: nat := 2048
  const MAX_RECORDS: nat := 64
  const MAX_HANDLES: nat := 32
  const HANDLE_MS: nat := 30000
  const PAGE_BYTES: nat := 524288
  const PAGE_BUDGET: nat := 516096

  datatype Entry = Entry(id: Str, parent: Option<Str>, body: Body)

  /** The session's entries by identifier; an absent one reads as missing. */
  type Entries = map<Str, Entry>

  datatype Cursor = Cursor(sessionId: Str, generation: Str, root: Option<Str>, next: Str, expires: int)

  type Handles = map<Str, Cursor>

  datatype Page = Page(sessionId: Str, leafId: Option<Str>, nextLeafId: Option<Str>, records: seq<Record>, omitted: nat, truncated: bool)

  datatype Problem = ExpiredHandle | ExpiredTraversal | InvalidAncestry | CursorCapacity | PageTooLarge

  datatype Reply = Served(page: Page) | Refused(problem: Problem)

  // --- The size of what is served ---

  const RECORD_ID: Str := Units("{\"entryId\":\"")
  const RECORD_ROLE: Str := Units("\",\"role\":\"")
  const RECORD_TEXT: Str := Units("\",\"text\":\"")
  const RECORD_END: Str := Units("\"}")

  function RecordJson(r: Record): Str {
    RECORD_ID + Escape(r.entryId) + RECORD_ROLE + Escape(RoleText(r.role)) + RECORD_TEXT + Escape(r.text) + RECORD_END
  }

  function Charge(r: Record): nat {
    Utf8Length(RecordJson(r)) + 1
  }

  // --- One page ---

  /** The walk so far: records newest first, and where it goes on. */
  datatype Walk = Walk(records: seq<Record>, omitted: nat, truncated: bool, used: nat, scanned: nat, seen: set<Str>, next: Option<Str>)

  datatype Outcome = Done(walk: Walk) | Failed(problem: Problem)

  function Fresh(next: Option<Str>): Walk {
    Walk([], 0, false, 0, 0, {}, next)
  }

  function Limit(requested: int): (n: nat)
    ensures 1 <= n <= MAX_RECORDS
  {
    if requested < 1 then 1 else if requested > MAX_RECORDS then MAX_RECORDS else requested
  }

  predicate EndsAt(entries: Entries, id: Str) {
    id !in entries || entries[id].body.Compaction?
  }

  function Passed(w: Walk, entry: Entry, item: Projected, here: Str): Walk {
    w.(records := if item.record.Some? then w.records + [item.record.value] else w.records,
       omitted := if item.record.Some? then w.omitted else w.omitted + 1,
       used := if item.record.Some? then w.used + Charge(item.record.value) else w.used,
       truncated := w.truncated || item.truncated, next := entry.parent, scanned := w.scanned + 1, seen := w.seen + {here})
  }

  /** `clock(n)` is the reading taken before the entry scanned after `n` others. */
  function Walked(entries: Entries, limit: nat, w: Walk, clock: nat -> int, expires: int): Outcome
    decreases MAX_SCANNED - w.scanned
  {
    if w.next.None? || w.scanned >= MAX_SCANNED || |w.records| >= limit then Done(w)
    else if clock(w.scanned) >= expires then Failed(ExpiredTraversal)
    else if w.next.value in w.seen then Failed(InvalidAncestry)
    else if EndsAt(entries, w.next.value) then
      Done(w.(truncated := true, omitted := w.omitted + 1, next := None, seen := w.seen + {w.next.value}))
    else
      var entry := entries[w.next.value];
      var item := Project(entry.id, entry.body);
      if item.record.Some? && w.used + Charge(item.record.value) > PAGE_BUDGET
      then Done(w.(truncated := true, seen := w.seen + {w.next.value}))
      else Walked(entries, limit, Passed(w, entry, item, w.next.value), clock, expires)
  }

  method WalkLoop(entries: Entries, limit: nat, start: Walk, clock: nat -> int, expires: int) returns (r: Outcome)
    ensures r == Walked(entries, limit, start, clock, expires)
  {
    hide Project, Charge;
    var w := start;
    while w.next.Some? && w.scanned < MAX_SCANNED && |w.records| < limit
      invariant Walked(entries, limit, start, clock, expires) == Walked(entries, limit, w, clock, expires)
      decreases MAX_SCANNED - w.scanned
    {
      if clock(w.scanned) >= expires {
        return Failed(ExpiredTraversal);
      }
      var here := w.next.value;
      if here in w.seen {
        return Failed(InvalidAncestry);
      }
      if EndsAt(entries, here) {
        return Done(w.(truncated := true, omitted := w.omitted + 1, next := None, seen := w.seen + {here}));
      }
      var entry := entries[here];
      var item := Project(entry.id, entry.body);
      if item.record.Some? && w.used + Charge(item.record.value) > PAGE_BUDGET {
        return Done(w.(truncated := true, seen := w.seen + {here}));
      }
      w := Passed(w, entry, item, here);
    }
    r := Done(w);
  }

  function Reversed(rs: seq<Record>): seq<Record> {
    if |rs| == 0 then [] else Reversed(rs[1..]) + [rs[0]]
  }

  // --- Reading through handles ---

  // --- A page as it is sent ---

  const COMMA_MARK: Str := Units(",")
  const PAGE_START: Str := Units("{\"schemaVersion\":1,") + Units("\"sessionId\":")
  const LEAF_MARK: Str := Units(",\"leafId\":")
  const NEXT_MARK: Str := Units(",\"nextLeafId\":")
  const RECORDS_MARK: Str := Units(",\"records\":[")
  const OMITTED_MARK: Str := Units("],\"omitted\":")
  const TRUNCATED_MARK: Str := Units(",\"truncated\":")
  const NULL_MARK: Str := Units("null")

  function RecordsJson(rs: seq<Record>): Str {
    if |rs| == 0 then []
    else if |rs| == 1 then RecordJson(rs[0])
    else RecordJson(rs[0]) + (COMMA_MARK + RecordsJson(rs[1..]))
  }

  function OptionalJson(s: Option<Str>): Str {
    if s.Some? then Quote(s.value) else NULL_MARK
  }

  function TailJson(p: Page): Str {
    OMITTED_MARK + (Render(p.omitted) + (TRUNCATED_MARK + Units(if p.truncated then "true}" else "false}")))
  }

  function PageJson(p: Page): Str {
    PAGE_START + (Quote(p.sessionId) + (LEAF_MARK + (OptionalJson(p.leafId) + (NEXT_MARK + (OptionalJson(p.nextLeafId)
    + (RECORDS_MARK + (RecordsJson(p.records) + TailJson(p))))))))
  }

  /** The last check of a read. */
  predicate TooLarge(p: Page) {
    Utf8Length(PageJson(p)) > PAGE_BYTES
  }

  /** What the caller's session is at the time of a read. */
  datatype Context = Context(sessionId: Str, leafId: Option<Str>, entries: Entries)

  datatype Request = Request(generation: Str, handle: Option<Str>, limit: int, now: int, clock: nat -> int, issued: Str)

  function Live(handles: Handles, now: int): Handles {
    map h | h in handles && handles[h].expires > now :: handles[h]
  }

  predicate Usable(handles: Handles, c: Context, q: Request) {
    q.handle.Some? ==>
      && q.handle.value in Live(handles, q.now)
      && handles[q.handle.value].sessionId == c.sessionId && handles[q.handle.value].generation == q.generation
  }

  function RootOf(handles: Handles, c: Context, q: Request): Option<Str> {
    if q.handle.Some? && q.handle.value in handles then handles[q.handle.value].root else c.leafId
  }

  function NextOf(handles: Handles, c: Context, q: Request): Option<Str> {
    if q.handle.Some? && q.handle.value in handles then Some(handles[q.handle.value].next) else c.leafId
  }

  function ExpiryOf(handles: Handles, q: Request): int {
    if q.handle.Some? && q.handle.value in handles then handles[q.handle.value].expires else q.now + HANDLE_MS
  }

  function WalkOf(handles: Handles, c: Context, q: Request): Outcome {
    Walked(c.entries, Limit(q.limit), Fresh(NextOf(handles, c, q)), q.clock, ExpiryOf(handles, q))
  }

  function PageOf(handles: Handles, c: Context, q: Request, w: Walk): Page {
    Page(c.sessionId, RootOf(handles, c, q), if w.next.Some? then Some(q.issued) else None, Reversed(w.records), w.omitted, w.truncated)
  }

  /** The reply, and the handles afterwards. The size check comes after the handle was stored. */
  function Answer(handles: Handles, c: Context, q: Request): (Handles, Reply) {
    var live := Live(handles, q.now);
    if !Usable(handles, c, q) then (live, Refused(ExpiredHandle))
    else
      match WalkOf(handles, c, q)
      case Failed(p) => (live, Refused(p))
      case Done(w) =>
        if w.next.Some? && |live| >= MAX_HANDLES then (live, Refused(CursorCapacity))
        else
          var page := PageOf(handles, c, q, w);
          var stored := if w.next.None? then live
                        else live[q.issued := Cursor(c.sessionId, q.generation, RootOf(handles, c, q), w.next.value, ExpiryOf(handles, q))];
          (stored, if TooLarge(page) then Refused(PageTooLarge) else Served(page))
  }

  class SessionProjection {
    var handles: Handles

    constructor ()
      ensures handles == map[]
    {
      handles := map[];
    }

    method Clear()
      modifies this
      ensures handles == map[]
    {
      handles := map[];
    }

    method Read(c: Context, q: Request) returns (r: Reply)
      modifies this
      ensures (handles, r) == Answer(old(handles), c, q)
    {
      hide Walked, Project, Charge;
      handles := Live(handles, q.now);
      var root, next, expires := c.leafId, c.leafId, q.now + HANDLE_MS;
      if q.handle.Some? {
        if q.handle.value !in handles {
          return Refused(ExpiredHandle);
        }
        var cursor := handles[q.handle.value];
        if cursor.sessionId != c.sessionId || cursor.generation != q.generation {
          return Refused(ExpiredHandle);
        }
        root, next, expires := cursor.root, Some(cursor.next), cursor.expires;
      }
      var outcome := WalkLoop(c.entries, Limit(q.limit), Fresh(next), q.clock, expires);
      match outcome
      case Failed(p) => return Refused(p);
      case Done(w) =>
        var nextLeafId := None;
        if w.next.Some? {
          if |handles| >= MAX_HANDLES {
            return Refused(CursorCapacity);
          }
          handles := handles[q.issued := Cursor(c.sessionId, q.generation, root, w.next.value, expires)];
          nextLeafId := Some(q.issued);
        }
        var page := Page(c.sessionId, root, nextLeafId, Reversed(w.records), w.omitted, w.truncated);
        r := if TooLarge(page) then Refused(PageTooLarge) else Served(page);
    }
  }
}
