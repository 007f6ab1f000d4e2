/** Which answers a discovery traversal accepts, told by writing them: the pages of one captured list, cut anywhere
    (extension/client.ts, hub/priv/dashboard/protocol.js). */
module DiscoveryPages {
  import opened Options
  import opened Strings
  import opened Fleet
  import opened Discovery

  /** What all pages of one capture share. */
  datatype Capture = Capture(epoch: Str, revision: Str, snapshotId: Str, capturedAt: nat)

  /** Page `i` of `n`: every page but the last names the next one. */
  function WrittenPage(c: Capture, total: nat, i: nat, n: nat, part: seq<PublicAgent>): DiscoveryPage {
    DiscoveryPage(c.epoch, c.revision, c.snapshotId, c.capturedAt, i, total, part,
                  if i + 1 == n then None else Some(Cursor(c.snapshotId, i + 1)))
  }

  function Joined(parts: seq<seq<PublicAgent>>): seq<PublicAgent> {
    if parts == [] then [] else parts[0] + Joined(parts[1..])
  }

  /** A list the hub may hold: at most 5000 agents, ascending, each with an identifier. */
  ghost predicate Listable(agents: seq<PublicAgent>) {
    |agents| <= 5000 && Ascending(agents) && forall i :: 0 <= i < |agents| ==> agents[i].agentId != []
  }

  /** A list cut into parts of at most 128 agents, none of them empty unless the whole list is. */
  ghost predicate CutInto(agents: seq<PublicAgent>, parts: seq<seq<PublicAgent>>) {
    && |parts| != 0 && Joined(parts) == agents
    && forall i :: 0 <= i < |parts| ==> |parts[i]| <= 128 && (|parts| == 1 || parts[i] != [])
  }

  /** The first answers are the written pages of a list, each of at most 1 MiB and together at most 256 MiB. */
  ghost predicate AnswersWith(responses: seq<Response>, c: Capture, agents: seq<PublicAgent>, parts: seq<seq<PublicAgent>>) {
    && |parts| <= |responses| && TotalBytes(responses[..|parts|]) <= 268435456
    && forall i :: 0 <= i < |parts| ==>
         responses[i].raw <= 1048576 && responses[i].page == WrittenPage(c, |agents|, i, |parts|, parts[i])
  }

  function Parts(responses: seq<Response>): (parts: seq<seq<PublicAgent>>)
    ensures |parts| == |responses| && forall i :: 0 <= i < |parts| ==> parts[i] == responses[i].page.agents
  {
    seq(|responses|, i requires 0 <= i < |responses| => responses[i].page.agents)
  }

  lemma {:induction false} JoinedIsFlatten(responses: seq<Response>)
    ensures Joined(Parts(responses)) == Flatten(responses)
  {
    if responses != [] {
      assert Parts(responses)[1..] == Parts(responses[1..]);
      JoinedIsFlatten(responses[1..]);
    }
  }

  /** Every part of an ascending list is ascending, and its agents are the list's. */
  lemma {:induction false} PartsAscend(parts: seq<seq<PublicAgent>>, i: nat)
    requires Ascending(Joined(parts)) && i < |parts|
    ensures Ascending(parts[i]) && forall a :: a in parts[i] ==> a in Joined(parts)
  {
    AscendingParts(parts[0], Joined(parts[1..]));
    hide Ascending;
    if i > 0 {
      PartsAscend(parts[1..], i - 1);
    }
  }

  lemma WrittenIsComplete(responses: seq<Response>, c: Capture, agents: seq<PublicAgent>, parts: seq<seq<PublicAgent>>)
    requires Listable(agents) && CutInto(agents, parts) && AnswersWith(responses, c, agents, parts)
    ensures Complete(NO_PAGES, responses[..|parts|]) && Flatten(responses[..|parts|]) == agents
  {
    var used := responses[..|parts|];
    assert Parts(used) == parts;
    JoinedIsFlatten(used);
    assert [] + agents == agents;
    forall i | 0 <= i < |used|
      ensures var p := used[i].page;
        && IsPage(p) && used[i].raw <= PAGE_BYTES && p.page == i && SameSnapshot(p, used[0].page)
        && (p.nextCursor.None? <==> i == |used| - 1) && (|used| > 1 ==> |p.agents| != 0)
    {
      assert used[i] == responses[i] && used[0] == responses[0];
      PartsAscend(parts, i);
      hide Ascending, Joined, Flatten;
      forall k | 0 <= k < |parts[i]| ensures parts[i][k].agentId != [] {
        assert parts[i][k] in agents;
      }
    }
    hide IsPage, SameSnapshot;
    assert Pagination(used, 0, None);
  }

  lemma CompleteIsWritten(responses: seq<Response>, n: nat) returns (c: Capture, parts: seq<seq<PublicAgent>>)
    requires 0 < n <= |responses| && Complete(NO_PAGES, responses[..n])
    ensures var agents := Flatten(responses[..n]);
      Listable(agents) && CutInto(agents, parts) && AnswersWith(responses, c, agents, parts)
  {
    var used := responses[..n];
    var first := used[0].page;
    c := Capture(first.epoch, first.revision, first.snapshotId, first.capturedAt);
    parts := Parts(used);
    JoinedIsFlatten(used);
    var agents := Flatten(used);
    assert [] + agents == agents;
    forall i | 0 <= i < n
      ensures responses[i].raw <= 1048576 && responses[i].page == WrittenPage(c, |agents|, i, n, parts[i])
      ensures |parts[i]| <= 128 && (n == 1 || parts[i] != [])
    {
      assert used[i] == responses[i];
    }
    AgentsNamed(used);
    assert used == responses[..|parts|];
  }

  lemma {:induction false} AgentsNamed(used: seq<Response>)
    requires forall i :: 0 <= i < |used| ==> IsPage(used[i].page)
    ensures forall i :: 0 <= i < |Flatten(used)| ==> Flatten(used)[i].agentId != []
  {
    hide Ascending;
    if used != [] {
      assert forall i :: 0 <= i < |used[1..]| ==> used[1..][i] == used[i + 1];
      AgentsNamed(used[1..]);
    }
  }

  /** Both traversals return a list exactly when it may be listed and the answers begin with its pages, cut anywhere:
      whatever is written is read back, and nothing else is accepted. */
  lemma ReadBackExactly(responses: seq<Response>, agents: seq<PublicAgent>)
    ensures WalkAll(UNWALKED, responses) == Some(agents) <==>
            Listable(agents) && exists c, parts :: CutInto(agents, parts) && AnswersWith(responses, c, agents, parts)
    ensures StageAll(NO_PAGES, responses) == WalkAll(UNWALKED, responses)
  {
    TraversalIsPagination(responses, agents);
    hide Complete, Listable, CutInto, AnswersWith, WalkAll, StageAll;
    if WalkAll(UNWALKED, responses) == Some(agents) {
      var n :| 0 < n <= |responses| && Complete(NO_PAGES, responses[..n]) && agents == Flatten(responses[..n]);
      var c, parts := CompleteIsWritten(responses, n);
    }
    if Listable(agents) {
      forall c, parts | CutInto(agents, parts) && AnswersWith(responses, c, agents, parts)
        ensures WalkAll(UNWALKED, responses) == Some(agents)
      {
        PartsCount(responses, c, agents, parts);
        WrittenIsComplete(responses, c, agents, parts);
      }
    }
  }

  lemma PartsCount(responses: seq<Response>, c: Capture, agents: seq<PublicAgent>, parts: seq<seq<PublicAgent>>)
    requires CutInto(agents, parts) && AnswersWith(responses, c, agents, parts)
    ensures 0 < |parts| <= |responses|
  {
  }
}
