/** Pages of operator events (hub/priv/dashboard/operator-events.js). */
module EventPages {
  import opened Options
  import opened Strings
  import opened Decimal

  const MAX_EVENTS: nat := 128

  /** An event as received; `valid` is the verdict of its field-by-field schema, its epoch and sequence included. */
  datatype Event = Event(epoch: Str, sequence: Str, eventId: Str, valid: bool)

  datatype Coverage = LiveCoverage | Truncated | Empty

  datatype Page = Page(epoch: Str, fromSequence: Str, toSequence: Str, retainedFrom: Str, coverage: Coverage, caughtUp: bool,
                       nextCursor: Option<Str>, events: seq<Event>)

  predicate Uint64(s: Str) {
    Canonical(s) && Num(s) <= MAX_UINT64
  }

  predicate CoverageFits(p: Page) {
    match p.coverage
    case Empty => |p.events| == 0 && Num(p.retainedFrom) == Num(p.toSequence) && p.caughtUp
    case LiveCoverage => Num(p.retainedFrom) == 1
    case Truncated => Num(p.retainedFrom) > 1
  }

  /** The checks before the events are looked at. `cursor` stands for the injective cursor encoding; a page asked for
      with a cursor must start there, and a first page may start anywhere. */
  predicate HeaderFits(p: Page, cursor: (Str, Str) -> Str, requested: Option<Str>) {
    && (requested.Some? ==> cursor(p.epoch, p.fromSequence) == requested.value)
    && IsUuid(p.epoch) && Uint64(p.fromSequence) && Uint64(p.toSequence) && Uint64(p.retainedFrom) && |p.events| <= MAX_EVENTS
    && Num(p.fromSequence) <= Num(p.toSequence) && Num(p.toSequence) - Num(p.fromSequence) == |p.events|
    && Num(p.retainedFrom) <= Num(p.fromSequence) + 1 && CoverageFits(p)
    && (if p.caughtUp then p.nextCursor == None
        else |p.events| != 0 && p.nextCursor == Some(cursor(p.epoch, p.toSequence)))
  }

  /** Every event is valid, of the page's epoch, numbered one after another, and none appears twice. */
  predicate EventsFit(p: Page) {
    && (forall i :: 0 <= i < |p.events| ==>
          p.events[i].valid && p.events[i].epoch == p.epoch && Num(p.events[i].sequence) == Num(p.fromSequence) + i + 1)
    && (forall i, j :: 0 <= i < j < |p.events| ==> p.events[i].eventId != p.events[j].eventId)
  }

  predicate Accepted(p: Page, cursor: (Str, Str) -> Str, requested: Option<Str>) {
    HeaderFits(p, cursor, requested) && EventsFit(p)
  }

  method DecodeEventPage(p: Page, cursor: (Str, Str) -> Str, requested: Option<Str>) returns (ok: bool)
    ensures ok <==> Accepted(p, cursor, requested)
  {
    hide Num, Canonical, IsUuid;
    if !HeaderFits(p, cursor, requested) {
      return false;
    }
    hide HeaderFits;
    var seen: set<Str> := {};
    var i := 0;
    while i < |p.events|
      invariant 0 <= i <= |p.events|
      invariant forall j :: 0 <= j < i ==>
                  p.events[j].valid && p.events[j].epoch == p.epoch && Num(p.events[j].sequence) == Num(p.fromSequence) + j + 1
      invariant forall j, k :: 0 <= j < k < i ==> p.events[j].eventId != p.events[k].eventId
      invariant forall id :: id in seen <==> exists j :: 0 <= j < i && p.events[j].eventId == id
    {
      var e := p.events[i];
      if !e.valid || e.epoch != p.epoch || Num(e.sequence) != Num(p.fromSequence) + i + 1 || e.eventId in seen {
        return false;
      }
      seen := seen + {e.eventId};
      i := i + 1;
    }
    ok := true;
  }

  // --- Pages in sequence ---

  /** Each page starts where the one before ended, in one epoch. */
  ghost predicate Continuous(pages: seq<Page>, cursor: (Str, Str) -> Str) {
    && (forall i :: 0 <= i < |pages| ==> Accepted(pages[i], cursor, None))
    && (forall i :: 0 < i < |pages| ==> pages[i].epoch == pages[i - 1].epoch && pages[i].fromSequence == pages[i - 1].toSequence)
  }

  function Events(pages: seq<Page>): seq<Event> {
    if |pages| == 0 then [] else Events(pages[..|pages| - 1]) + pages[|pages| - 1].events
  }

  /** Events of one epoch, numbered consecutively from `first`. */
  ghost predicate Consecutive(events: seq<Event>, epoch: Str, first: nat) {
    forall i :: 0 <= i < |events| ==> events[i].epoch == epoch && Num(events[i].sequence) == first + i
  }

  lemma {:induction false} ContinuousEvents(pages: seq<Page>, cursor: (Str, Str) -> Str)
    requires Continuous(pages, cursor) && |pages| != 0
    ensures Consecutive(Events(pages), pages[0].epoch, Num(pages[0].fromSequence) + 1)
    ensures pages[|pages| - 1].epoch == pages[0].epoch
    ensures |Events(pages)| == Num(pages[|pages| - 1].toSequence) - Num(pages[0].fromSequence)
  {
    hide Num, IsUuid, Uint64, CoverageFits;
    var n := |pages| - 1;
    var last, before := pages[n], pages[..n];
    assert Accepted(last, cursor, None);
    if n == 0 {
      assert Events(before) == [];
      assert Events(pages) == last.events;
    } else {
      assert pages[n].epoch == pages[n - 1].epoch && pages[n].fromSequence == pages[n - 1].toSequence;
      assert Continuous(before, cursor) by {
        forall i | 0 < i < |before| ensures before[i].epoch == before[i - 1].epoch && before[i].fromSequence == before[i - 1].toSequence {
          assert pages[i].epoch == pages[i - 1].epoch;
        }
      }
      ContinuousEvents(before, cursor);
    }
  }

  /** A page accepted for the cursor of another page's end starts where that page ended, when cursors tell sequences apart. */
  lemma RequestedContinues(before: Page, next: Page, cursor: (Str, Str) -> Str)
    requires forall a, b, c, d :: cursor(a, b) == cursor(c, d) ==> a == c && b == d
    requires Accepted(before, cursor, None) && before.nextCursor.Some? && Accepted(next, cursor, before.nextCursor)
    ensures Continuous([before, next], cursor)
  {
    hide Num, Canonical, IsUuid, CoverageFits, EventsFit;
    assert cursor(next.epoch, next.fromSequence) == cursor(before.epoch, before.toSequence);
  }
}
