/** Which pages of operator events are accepted, told by writing them (hub/priv/dashboard/operator-events.js). */
module EventOutcomes {
  import opened Options
  import opened Strings
  import opened Decimal
  import opened EventPages

  /** A page after sequence `from` of a journal that begins at `first`. */
  function WrittenPage(epoch: Str, from: nat, first: nat, coverage: Coverage, caughtUp: bool, events: seq<Event>, cursor: (Str, Str) -> Str): Page {
    var to := Render(from + |events|);
    Page(epoch, Render(from), to, Render(first), coverage, caughtUp, if caughtUp then None else Some(cursor(epoch, to)), events)
  }

  /** Valid events of the epoch, numbered one after another from the one after `from`, none twice. */
  ghost predicate Numbered(epoch: Str, from: nat, events: seq<Event>) {
    && (forall i :: 0 <= i < |events| ==> events[i].valid && events[i].epoch == epoch && Num(events[i].sequence) == from + i + 1)
    && forall i, j :: 0 <= i < j < |events| ==> events[i].eventId != events[j].eventId
  }

  /** What a page claims of its journal: all of it since the first event, the rest of a longer one, or nothing left. */
  predicate Covers(coverage: Coverage, first: nat, to: nat, events: seq<Event>, caughtUp: bool) {
    match coverage
    case LiveCoverage => first == 1
    case Truncated => first >= 2
    case Empty => events == [] && first == to && caughtUp
  }

  ghost predicate Writable(p: Page, from: nat, first: nat, cursor: (Str, Str) -> Str, requested: Option<Str>) {
    && IsUuid(p.epoch) && |p.events| <= 128 && first <= from + 1
    && from + |p.events| < 0x1_0000_0000_0000_0000 && first < 0x1_0000_0000_0000_0000
    && (p.events == [] ==> p.caughtUp) && Covers(p.coverage, first, from + |p.events|, p.events, p.caughtUp)
    && Numbered(p.epoch, from, p.events) && requested in {None, Some(cursor(p.epoch, Render(from)))}
    && p == WrittenPage(p.epoch, from, first, p.coverage, p.caughtUp, p.events, cursor)
  }

  lemma RenderNum(s: Str)
    requires Canonical(s) && Num(s) < 0x1_0000_0000_0000_0000
    ensures Render(Num(s)) == s
  {
    RenderCanonical(Num(s));
    CompareIsNumeric(Render(Num(s)), s);
  }

  /** A page is accepted exactly when it is written for some place of some journal, and from the cursor asked for if one
      was. */
  lemma AcceptedExactly(p: Page, cursor: (Str, Str) -> Str, requested: Option<Str>)
    ensures Accepted(p, cursor, requested) <==> exists from: nat, first: nat :: Writable(p, from, first, cursor, requested)
  {
    hide Num, Canonical, IsUuid, Render;
    if Accepted(p, cursor, requested) {
      var from, first := Num(p.fromSequence), Num(p.retainedFrom);
      RenderNum(p.fromSequence);
      RenderNum(p.toSequence);
      RenderNum(p.retainedFrom);
      assert Writable(p, from, first, cursor, requested);
    }
    forall from: nat, first: nat | Writable(p, from, first, cursor, requested) ensures Accepted(p, cursor, requested) {
      RenderCanonical(from);
      RenderCanonical(from + |p.events|);
      RenderCanonical(first);
    }
  }
}
