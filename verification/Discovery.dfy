/** Two independently written traversals of the discovery pages: the client's loop
    (extension/client.ts) and the dashboard's stage (hub/priv/dashboard/protocol.js). */
module Discovery {
  import opened Options
  import opened Strings
  import opened Fleet

  const PAGE_BYTES: nat := 1048576
  const STAGE_BYTES: nat := 268435456
  const MAX_AGENTS: nat := 5000
  const PAGE_RECORDS: nat := 128

  /** A continuation: base64url of `snapshotId:page`, an injective encoding. */
  datatype Cursor = Cursor(snapshotId: Str, page: nat)

  datatype DiscoveryPage = DiscoveryPage(epoch: Str, revision: Str, snapshotId: Str, capturedAt: nat, page: nat,
                                         total: nat, agents: seq<PublicAgent>, nextCursor: Option<Cursor>)

  /** The page schema both sides check before they look at the traversal. */
  predicate IsPage(p: DiscoveryPage) {
    && p.total <= MAX_AGENTS && |p.agents| <= PAGE_RECORDS && Ascending(p.agents)
    && (forall i :: 0 <= i < |p.agents| ==> p.agents[i].agentId != [])
    && (p.nextCursor.Some? ==> p.nextCursor.value == Cursor(p.snapshotId, p.page + 1))
  }

  predicate SameSnapshot(a: DiscoveryPage, b: DiscoveryPage) {
    a.epoch == b.epoch && a.revision == b.revision && a.snapshotId == b.snapshotId
    && a.capturedAt == b.capturedAt && a.total == b.total
  }

  function LastId(agents: seq<PublicAgent>): Str {
    if |agents| == 0 then [] else agents[|agents| - 1].agentId
  }

  // --- The dashboard's stage ---

  datatype StageState = StageState(first: Option<DiscoveryPage>, pageNumber: nat, byteCount: nat, previous: Str,
                                   finished: bool, agents: seq<PublicAgent>, cursors: set<Cursor>)

  const NO_PAGES := StageState(None, 0, 0, [], false, [], {})

  predicate StageAdmits(s: StageState, p: DiscoveryPage, raw: nat) {
    && raw <= PAGE_BYTES && s.byteCount + raw <= STAGE_BYTES
    && !s.finished && IsPage(p) && p.page == s.pageNumber
    && (s.first.Some? ==> SameSnapshot(p, s.first.value))
    && !(|p.agents| != 0 && s.previous != [] && !Less(s.previous, p.agents[0].agentId))
    && |s.agents| + |p.agents| <= p.total
    && (p.nextCursor.Some? ==> |p.agents| != 0 && |s.agents| + |p.agents| < p.total && p.nextCursor.value !in s.cursors)
    && (p.nextCursor.None? ==> |s.agents| + |p.agents| == p.total)
  }

  function Staged(s: StageState, p: DiscoveryPage, raw: nat): StageState {
    StageState(if s.first.Some? then s.first else Some(p), s.pageNumber + 1, s.byteCount + raw,
               if |p.agents| != 0 then LastId(p.agents) else s.previous, p.nextCursor.None?,
               s.agents + p.agents, if p.nextCursor.Some? then s.cursors + {p.nextCursor.value} else s.cursors)
  }

  /** The stage object. A refused page leaves it exactly as it was. */
  class Stage {
    var first: Option<DiscoveryPage>
    var pageNumber: nat
    var byteCount: nat
    var previous: Str
    var finished: bool
    var agents: seq<PublicAgent>
    var cursors: set<Cursor>

    function State(): StageState
      reads this
    {
      StageState(first, pageNumber, byteCount, previous, finished, agents, cursors)
    }

    constructor ()
      ensures State() == NO_PAGES
    {
      first, pageNumber, byteCount, previous, finished, agents, cursors := None, 0, 0, [], false, [], {};
    }

    method Add(p: DiscoveryPage, raw: nat) returns (ok: bool)
      modifies this
      ensures ok == StageAdmits(old(State()), p, raw)
      ensures State() == if ok then Staged(old(State()), p, raw) else old(State())
    {
      if raw > PAGE_BYTES || byteCount + raw > STAGE_BYTES {
        return false;
      }
      if finished || !IsPage(p) || p.page != pageNumber {
        return false;
      }
      if first.Some? && !SameSnapshot(p, first.value) {
        return false;
      }
      if |p.agents| != 0 && previous != [] && !Less(previous, p.agents[0].agentId) {
        return false;
      }
      if |agents| + |p.agents| > p.total {
        return false;
      }
      if p.nextCursor.Some? && (|p.agents| == 0 || |agents| + |p.agents| >= p.total || p.nextCursor.value in cursors) {
        return false;
      }
      if p.nextCursor.None? && |agents| + |p.agents| != p.total {
        return false;
      }
      if first.None? {
        first := Some(p);
      }
      agents := agents + p.agents;
      if |p.agents| != 0 {
        previous := LastId(p.agents);
      }
      byteCount := byteCount + raw;
      pageNumber := pageNumber + 1;
      if p.nextCursor.Some? {
        cursors := cursors + {p.nextCursor.value};
      } else {
        finished := true;
      }
      ok := true;
    }
  }

  /** One response: a page and the bytes it took. */
  datatype Response = Response(page: DiscoveryPage, raw: nat)

  /** The stage fed until it finishes; `None` if a page is refused or the responses run out. */
  function StageAll(s: StageState, responses: seq<Response>): Option<seq<PublicAgent>>
    decreases |responses|
  {
    if |responses| == 0 then None else
    var r := responses[0];
    if !StageAdmits(s, r.page, r.raw) then None else
    var next := Staged(s, r.page, r.raw);
    if next.finished then Some(next.agents) else StageAll(next, responses[1..])
  }

  // --- The client's loop ---

  datatype Walk = Walk(first: Option<DiscoveryPage>, cursors: set<Cursor>, bytes: nat, pageIndex: nat, agents: seq<PublicAgent>)

  const UNWALKED := Walk(None, {}, 0, 0, [])

  predicate WalkAdmits(w: Walk, p: DiscoveryPage, raw: nat) {
    && w.bytes <= STAGE_BYTES && raw <= PAGE_BYTES && raw <= STAGE_BYTES - w.bytes && IsPage(p)
    && p.page == w.pageIndex && (w.first.Some? ==> SameSnapshot(w.first.value, p))
    && !(|w.agents| != 0 && |p.agents| != 0 && !Less(LastId(w.agents), p.agents[0].agentId))
    && |w.agents| + |p.agents| <= p.total && |w.agents| + |p.agents| <= MAX_AGENTS
    && (p.nextCursor.Some? ==>
          |p.agents| != 0 && |w.agents| + |p.agents| < p.total && p.nextCursor.value !in w.cursors)
    && (p.nextCursor.None? ==>
          |w.agents| + |p.agents| == p.total && !(w.pageIndex + 1 > 1 && |p.agents| == 0))
  }

  function Walked(w: Walk, p: DiscoveryPage, raw: nat): Walk {
    Walk(if w.first.Some? then w.first else Some(p), if p.nextCursor.Some? then w.cursors + {p.nextCursor.value} else w.cursors,
         w.bytes + raw, w.pageIndex + 1, w.agents + p.agents)
  }

  function WalkAll(w: Walk, responses: seq<Response>): Option<seq<PublicAgent>>
    decreases |responses|
  {
    if |responses| == 0 then None else
    var r := responses[0];
    if !WalkAdmits(w, r.page, r.raw) then None else
    var next := Walked(w, r.page, r.raw);
    if r.page.nextCursor.None? then Some(next.agents) else WalkAll(next, responses[1..])
  }

  /** `listAgents`, deadlines aside: the responses are what the hub answers in turn. */
  method ListAgents(responses: seq<Response>) returns (r: Option<seq<PublicAgent>>)
    ensures r == WalkAll(UNWALKED, responses)
  {
    var agents: seq<PublicAgent>, first: Option<DiscoveryPage>, cursors: set<Cursor> := [], None, {};
    var bytes: nat, pageIndex: nat := 0, 0;
    assert responses[0..] == responses;
    while pageIndex < |responses|
      invariant pageIndex <= |responses|
      invariant WalkAll(UNWALKED, responses) == WalkAll(Walk(first, cursors, bytes, pageIndex, agents), responses[pageIndex..])
      invariant bytes <= STAGE_BYTES
    {
      var page, raw := responses[pageIndex].page, responses[pageIndex].raw;
      if raw > PAGE_BYTES || raw > STAGE_BYTES - bytes || !IsPage(page) {
        return None;
      }
      bytes := bytes + raw;
      if page.page != pageIndex || (first.Some? && !SameSnapshot(first.value, page)) {
        return None;
      }
      pageIndex := pageIndex + 1;
      if first.None? {
        first := Some(page);
      }
      if |agents| != 0 && |page.agents| != 0 && !Less(LastId(agents), page.agents[0].agentId) {
        return None;
      }
      if |agents| + |page.agents| > page.total || |agents| + |page.agents| > MAX_AGENTS {
        return None;
      }
      agents := agents + page.agents;
      if page.nextCursor.Some? {
        if |page.agents| == 0 || |agents| >= page.total || page.nextCursor.value in cursors {
          return None;
        }
        cursors := cursors + {page.nextCursor.value};
      } else {
        if |agents| != page.total || (pageIndex > 1 && |page.agents| == 0) {
          return None;
        }
        return Some(agents);
      }
    }
    return None;
  }

  // --- Agreement ---

  /** What an unfinished stage knows. */
  ghost predicate Valid(s: StageState) {
    && !s.finished && s.byteCount <= STAGE_BYTES
    && Ascending(s.agents) && s.previous == LastId(s.agents)
    && (forall i :: 0 <= i < |s.agents| ==> s.agents[i].agentId != [])
    && (s.pageNumber == 0 <==> s.first.None?)
    && (s.pageNumber == 0 ==> s.agents == [])
    && (s.first.Some? ==> IsPage(s.first.value) && |s.agents| < s.first.value.total)
    && (forall c :: c in s.cursors ==> c.page <= s.pageNumber)
    && s.pageNumber <= |s.agents|
  }

  function AsWalk(s: StageState): Walk {
    Walk(s.first, s.cursors, s.byteCount, s.pageNumber, s.agents)
  }

  /** The two checks only the client makes, and the repeated-cursor check both make, never decide. */
  lemma ExtraChecksAreIdle(s: StageState, p: DiscoveryPage, raw: nat)
    requires Valid(s) && IsPage(p) && p.page == s.pageNumber
    ensures p.nextCursor.Some? ==> p.nextCursor.value !in s.cursors
    ensures |s.agents| + |p.agents| <= p.total ==> |s.agents| + |p.agents| <= MAX_AGENTS
    ensures (s.first.Some? ==> SameSnapshot(p, s.first.value)) && |s.agents| + |p.agents| == p.total && |p.agents| == 0
            ==> s.pageNumber == 0
  {
  }

  lemma AdmitTogether(s: StageState, p: DiscoveryPage, raw: nat)
    requires Valid(s)
    ensures StageAdmits(s, p, raw) <==> WalkAdmits(AsWalk(s), p, raw)
    ensures StageAdmits(s, p, raw) ==> AsWalk(Staged(s, p, raw)) == Walked(AsWalk(s), p, raw)
  {
    if IsPage(p) && p.page == s.pageNumber {
      ExtraChecksAreIdle(s, p, raw);
    }
    assert s.previous != [] <==> |s.agents| != 0;
  }

  lemma StagedValid(s: StageState, p: DiscoveryPage, raw: nat)
    requires Valid(s) && StageAdmits(s, p, raw)
    ensures var r := Staged(s, p, raw);
      && Ascending(r.agents) && (r.finished ==> |r.agents| == p.total)
      && (!r.finished ==> Valid(r))
  {
    AscendingAppend(s.agents, p.agents);
  }

  /** On every sequence of responses the two traversals accept or refuse together, and return the same
      list: strictly ascending and exactly as long as announced. */
  lemma {:induction false} TraversalsAgree(s: StageState, responses: seq<Response>)
    requires Valid(s)
    ensures StageAll(s, responses) == WalkAll(AsWalk(s), responses)
    ensures StageAll(s, responses).Some? ==> Ascending(StageAll(s, responses).value)
    decreases |responses|
  {
    if |responses| != 0 {
      var r := responses[0];
      AdmitTogether(s, r.page, r.raw);
      if StageAdmits(s, r.page, r.raw) {
        StagedValid(s, r.page, r.raw);
        if r.page.nextCursor.Some? {
          TraversalsAgree(Staged(s, r.page, r.raw), responses[1..]);
        }
      }
    }
  }

  // --- What an accepted traversal is ---

  function Flatten(responses: seq<Response>): seq<PublicAgent> {
    if |responses| == 0 then [] else responses[0].page.agents + Flatten(responses[1..])
  }

  function TotalBytes(responses: seq<Response>): nat {
    if |responses| == 0 then 0 else responses[0].raw + TotalBytes(responses[1..])
  }

  /** A complete pagination of one snapshot, from page `n` on after `before` agents: consecutive page
      numbers, one identity, only the last page without a continuation, and no page empty unless it is the
      only one. */
  ghost predicate Pagination(responses: seq<Response>, n: nat, first: Option<DiscoveryPage>) {
    && |responses| != 0
    && (forall i :: 0 <= i < |responses| ==>
          var p := responses[i].page;
          && IsPage(p) && responses[i].raw <= PAGE_BYTES && p.page == n + i
          && SameSnapshot(p, if first.Some? then first.value else responses[0].page)
          && (p.nextCursor.None? <==> i == |responses| - 1)
          && (n + |responses| > 1 ==> |p.agents| != 0))
  }

  lemma PaginationRest(responses: seq<Response>, n: nat, first: Option<DiscoveryPage>)
    requires |responses| > 1
    ensures Pagination(responses, n, first) <==>
            && Pagination(responses[1..], n + 1, if first.Some? then first else Some(responses[0].page))
            && var p := responses[0].page;
            && IsPage(p) && responses[0].raw <= PAGE_BYTES && p.page == n && (first.Some? ==> SameSnapshot(p, first.value))
            && p.nextCursor.Some? && |p.agents| != 0
  {
    var rest := responses[1..];
    var f := if first.Some? then first else Some(responses[0].page);
    assert forall i :: 0 <= i < |rest| ==> rest[i] == responses[i + 1];
    if Pagination(responses, n, first) {
      assert responses[0].page.nextCursor.Some?;
      assert Pagination(rest, n + 1, f);
    }
    if Pagination(rest, n + 1, f) && IsPage(responses[0].page) && responses[0].raw <= PAGE_BYTES && responses[0].page.page == n
       && (first.Some? ==> SameSnapshot(responses[0].page, first.value))
       && responses[0].page.nextCursor.Some? && |responses[0].page.agents| != 0 {
      forall i | 0 <= i < |responses|
        ensures var p := responses[i].page;
          && IsPage(p) && responses[i].raw <= PAGE_BYTES && p.page == n + i
          && SameSnapshot(p, if first.Some? then first.value else responses[0].page)
          && (p.nextCursor.None? <==> i == |responses| - 1)
          && (n + |responses| > 1 ==> |p.agents| != 0)
      {
        if i > 0 {
          assert responses[i] == rest[i - 1];
        }
      }
    }
  }

  lemma AscendingParts(a: seq<PublicAgent>, b: seq<PublicAgent>)
    requires Ascending(a + b)
    ensures Ascending(a) && Ascending(b)
    ensures |a| != 0 && |b| != 0 ==> Less(LastId(a), b[0].agentId)
  {
    var s := a + b;
    forall i | 0 < i < |a| ensures Less(a[i - 1].agentId, a[i].agentId) {
      assert s[i - 1] == a[i - 1] && s[i] == a[i];
    }
    forall i | 0 < i < |b| ensures Less(b[i - 1].agentId, b[i].agentId) {
      assert s[|a| + i - 1] == b[i - 1] && s[|a| + i] == b[i];
    }
    if |a| != 0 && |b| != 0 {
      assert s[|a| - 1] == a[|a| - 1] && s[|a|] == b[0];
    }
  }

  /** The responses complete what is staged: a pagination within the byte limits, ascending throughout and of the
      announced total. */
  ghost predicate Complete(s: StageState, responses: seq<Response>) {
    && Pagination(responses, s.pageNumber, s.first)
    && s.byteCount + TotalBytes(responses) <= STAGE_BYTES
    && Ascending(s.agents + Flatten(responses))
    && |s.agents| + |Flatten(responses)| == responses[0].page.total
  }

  /** Every complete pagination is accepted, using every response. */
  lemma {:induction false} CompleteIsAccepted(s: StageState, responses: seq<Response>)
    requires Valid(s) && Complete(s, responses)
    ensures StageAll(s, responses) == Some(s.agents + Flatten(responses))
    decreases |responses|
  {
    var r, rest := responses[0], responses[1..];
    var p := r.page;
    assert s.agents + Flatten(responses) == (s.agents + p.agents) + Flatten(rest);
    AscendingParts(s.agents + p.agents, Flatten(rest));
    AscendingParts(s.agents, p.agents);
    if |responses| == 1 {
      assert Flatten(rest) == [] && TotalBytes(rest) == 0;
      assert s.agents + p.agents + [] == s.agents + p.agents;
    } else {
      PaginationRest(responses, s.pageNumber, s.first);
      FlattenNonempty(rest, s.pageNumber + 1, if s.first.Some? then s.first else Some(p));
      assert StageAdmits(s, p, r.raw) by {
        ExtraChecksAreIdle(s, p, r.raw);
      }
      StagedValid(s, p, r.raw);
      assert SameSnapshot(rest[0].page, p);
      CompleteIsAccepted(Staged(s, p, r.raw), rest);
    }
  }

  lemma {:induction false} FlattenNonempty(responses: seq<Response>, n: nat, first: Option<DiscoveryPage>)
    requires Pagination(responses, n, first)
    ensures n + |responses| > 1 ==> |Flatten(responses)| != 0
  {
    var r := responses[0];
    assert r.page.page == n;
    assert n + |responses| > 1 ==> |r.page.agents| != 0;
  }

  lemma {:induction false} AcceptedIsComplete(s: StageState, responses: seq<Response>) returns (n: nat)
    requires Valid(s) && StageAll(s, responses).Some?
    ensures 0 < n <= |responses| && Complete(s, responses[..n])
    ensures StageAll(s, responses) == Some(s.agents + Flatten(responses[..n]))
    decreases |responses|
  {
    hide Ascending, IsPage;
    var r, rest := responses[0], responses[1..];
    var p := r.page;
    StagedValid(s, p, r.raw);
    var next := Staged(s, p, r.raw);
    if p.nextCursor.None? {
      n := 1;
      assert responses[..1] == [r];
      OneResponse(r);
      assert n + s.pageNumber > 1 ==> |p.agents| != 0 by {
        ExtraChecksAreIdle(s, p, r.raw);
      }
    } else {
      var m := AcceptedIsComplete(next, rest);
      n := m + 1;
      var used := responses[..n];
      assert used[1..] == rest[..m] && used[0] == r;
      PaginationRest(used, s.pageNumber, s.first);
      assert s.agents + Flatten(used) == (s.agents + p.agents) + Flatten(rest[..m]);
    }
  }

  lemma OneResponse(r: Response)
    ensures Flatten([r]) == r.page.agents && TotalBytes([r]) == r.raw
  {
    var none: seq<Response> := [];
    assert [r][1..] == none;
    assert Flatten(none) == [];
    assert r.page.agents + [] == r.page.agents;
  }

  /** The client's traversal succeeds exactly on a complete pagination (whatever the hub would have
      answered afterwards), and so does the dashboard's; both return its records in order. */
  lemma TraversalIsPagination(responses: seq<Response>, agents: seq<PublicAgent>)
    ensures WalkAll(UNWALKED, responses) == StageAll(NO_PAGES, responses)
    ensures WalkAll(UNWALKED, responses) == Some(agents) <==>
            exists n :: 0 < n <= |responses| && Complete(NO_PAGES, responses[..n]) && agents == Flatten(responses[..n])
  {
    TraversalsAgree(NO_PAGES, responses);
    assert AsWalk(NO_PAGES) == UNWALKED;
    if StageAll(NO_PAGES, responses).Some? {
      var n := AcceptedIsComplete(NO_PAGES, responses);
      assert [] + Flatten(responses[..n]) == Flatten(responses[..n]);
    }
    forall n | 0 < n <= |responses| && Complete(NO_PAGES, responses[..n])
      ensures StageAll(NO_PAGES, responses) == Some(Flatten(responses[..n]))
    {
      CompleteIsAccepted(NO_PAGES, responses[..n]);
      assert [] + Flatten(responses[..n]) == Flatten(responses[..n]);
      StageAllPrefix(NO_PAGES, responses, n);
    }
  }

  /** A traversal that has ended asks for no further page. */
  lemma {:induction false} StageAllPrefix(s: StageState, responses: seq<Response>, n: nat)
    requires n <= |responses| && StageAll(s, responses[..n]).Some?
    ensures StageAll(s, responses) == StageAll(s, responses[..n])
    decreases n
  {
    var next := Staged(s, responses[0].page, responses[0].raw);
    assert responses[..n][1..] == responses[1..][..n - 1];
    if !next.finished {
      StageAllPrefix(next, responses[1..], n - 1);
    }
  }

  /** Every traversal ends: after as many pages as there may be agents, a further page is never asked for. */
  lemma {:induction false} TraversalEnds(s: StageState, asked: seq<Response>, more: seq<Response>)
    requires Valid(s) && s.pageNumber + |asked| >= MAX_AGENTS
    ensures StageAll(s, asked + more) == StageAll(s, asked)
    decreases |asked|
  {
    if |asked| != 0 {
      var r := asked[0];
      assert (asked + more)[1..] == asked[1..] + more;
      if StageAdmits(s, r.page, r.raw) {
        StagedValid(s, r.page, r.raw);
        if r.page.nextCursor.Some? {
          TraversalEnds(Staged(s, r.page, r.raw), asked[1..], more);
        }
      }
    }
  }
}
