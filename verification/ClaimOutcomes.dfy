/** Where each message of a window goes, told from the message and its note, and in which order groups stand
    (extension/coordination-notes.ts). */
module ClaimOutcomes {
  import opened Options
  import opened Strings
  import opened Notes
  import opened Claims

  /** A request that is its own group's target. */
  predicate RequestOf(m: Message, ref: Reference) {
    m.ref == Some(ref) && m.note.Some? && m.note.value.Request?
  }

  /** A reply or a completion that names the target. */
  predicate AnswerTo(m: Message, ref: Reference) {
    m.ref.Some? && m.note.Some? && (m.note.value.Reply? || m.note.value.Completion?) && m.note.value.replyTo == ref
  }

  predicate Ascending(s: seq<nat>) {
    forall i, j :: 0 <= i < j < |s| ==> s[i] < s[j]
  }

  /** The positions listed are exactly those of the messages wanted, in the window's order. */
  ghost predicate Lists(at: seq<nat>, messages: seq<Message>, wanted: Message -> bool) {
    Ascending(at) && forall k: nat :: k in at <==> k < |messages| && wanted(messages[k])
  }

  lemma PlacedAt(messages: seq<Message>, p: Placement, wanted: Message -> bool)
    requires forall m :: wanted(m) <==> Place(m) == p
    ensures Lists(At(messages, |messages|, p), messages, wanted)
  {
    AtIsExact(messages, |messages|, p);
    hide At, Place;
  }

  /** Free text is what has no note or no reference of its own; decisions stand by themselves; every group holds exactly
      the requests that are its target and the replies and completions that name it, and each target has a group. */
  lemma SortedMeans(messages: seq<Message>)
    ensures var s := SortFirst(messages, |messages|);
      && Lists(s.free, messages, (m: Message) => m.note.None? || m.ref.None?)
      && Lists(s.decisions, messages, (m: Message) => m.ref.Some? && m.note.Some? && m.note.value.Decision?)
      && (forall g :: 0 <= g < |s.groups| ==>
            && Lists(s.groups[g].requests, messages, (m: Message) => RequestOf(m, s.groups[g].ref))
            && Lists(s.groups[g].responses, messages, (m: Message) => AnswerTo(m, s.groups[g].ref)))
      && (forall g, h :: 0 <= g < h < |s.groups| ==> s.groups[g].ref != s.groups[h].ref)
  {
    var s := SortFirst(messages, |messages|);
    SortingIsExact(messages, |messages|);
    hide Lists, SortFirst, At, Place;
    PlacedAlone(messages);
    forall g | 0 <= g < |s.groups|
      ensures Lists(s.groups[g].requests, messages, (m: Message) => RequestOf(m, s.groups[g].ref))
      ensures Lists(s.groups[g].responses, messages, (m: Message) => AnswerTo(m, s.groups[g].ref))
    {
      PlacedInGroup(messages, s.groups[g].ref);
    }
  }

  lemma PlacedAlone(messages: seq<Message>)
    ensures Lists(At(messages, |messages|, ToFree), messages, (m: Message) => m.note.None? || m.ref.None?)
    ensures Lists(At(messages, |messages|, ToDecision), messages, (m: Message) => m.ref.Some? && m.note.Some? && m.note.value.Decision?)
  {
    hide Lists, At;
    PlacedAt(messages, ToFree, (m: Message) => m.note.None? || m.ref.None?);
    PlacedAt(messages, ToDecision, (m: Message) => m.ref.Some? && m.note.Some? && m.note.value.Decision?);
  }

  lemma PlacedInGroup(messages: seq<Message>, ref: Reference)
    ensures Lists(At(messages, |messages|, ToRequest(ref)), messages, (m: Message) => RequestOf(m, ref))
    ensures Lists(At(messages, |messages|, ToResponse(ref)), messages, (m: Message) => AnswerTo(m, ref))
  {
    hide Lists, At;
    PlacedAt(messages, ToRequest(ref), (m: Message) => RequestOf(m, ref));
    PlacedAt(messages, ToResponse(ref), (m: Message) => AnswerTo(m, ref));
  }

  // --- The order of the groups ---

  /** A message that makes or joins the target's group. */
  predicate Mentions(m: Message, ref: Reference) {
    RequestOf(m, ref) || AnswerTo(m, ref)
  }

  /** The first message that does. */
  ghost predicate FirstMention(messages: seq<Message>, ref: Reference, k: nat) {
    k < |messages| && Mentions(messages[k], ref) && forall i :: 0 <= i < k ==> !Mentions(messages[i], ref)
  }

  ghost predicate Mentioned(messages: seq<Message>, ref: Reference) {
    exists k :: FirstMention(messages, ref, k)
  }

  ghost predicate ByFirstMention(messages: seq<Message>, groups: seq<Group>) {
    && (forall g :: 0 <= g < |groups| ==> Mentioned(messages, groups[g].ref))
    && forall g, h, i: nat, j: nat :: 0 <= g < h < |groups| && FirstMention(messages, groups[g].ref, i) && FirstMention(messages, groups[h].ref, j) ==> i < j
  }

  ghost predicate NoneMention(messages: seq<Message>, ref: Reference) {
    forall i :: 0 <= i < |messages| ==> !Mentions(messages[i], ref)
  }

  lemma PlaceMentions(m: Message, ref: Reference)
    ensures Mentions(m, ref) <==> Place(m) == ToRequest(ref) || Place(m) == ToResponse(ref)
  {
  }

  lemma FirstStays(messages: seq<Message>, m: Message, ref: Reference, k: nat)
    requires FirstMention(messages, ref, k)
    ensures forall j: nat :: FirstMention(messages + [m], ref, j) <==> j == k
  {
    hide Mentions;
    forall j: nat ensures FirstMention(messages + [m], ref, j) <==> j == k {
      assert (messages + [m])[k] == messages[k];
      assert j < |messages| ==> (messages + [m])[j] == messages[j];
    }
  }

  lemma FirstNow(messages: seq<Message>, m: Message, ref: Reference)
    requires Mentions(m, ref) && NoneMention(messages, ref)
    ensures forall j: nat :: FirstMention(messages + [m], ref, j) <==> j == |messages|
  {
    hide Mentions;
    assert (messages + [m])[|messages|] == m;
    assert forall i :: 0 <= i < |messages| ==> (messages + [m])[i] == messages[i];
  }

  /** One message more: the groups' targets stay as they were, or a first mention adds its target at the end. */
  lemma OrderStep(before: seq<Message>, m: Message, had: seq<Group>, now: seq<Group>)
    requires ByFirstMention(before, had) && |had| <= |now| && forall g :: 0 <= g < |had| ==> now[g].ref == had[g].ref
    requires |now| == |had| || (|now| == |had| + 1 && Mentions(m, now[|had|].ref)
                                && NoneMention(before, now[|had|].ref))
    ensures ByFirstMention(before + [m], now)
  {
    hide Mentions, FirstMention;
    forall g | 0 <= g < |now| ensures Mentioned(before + [m], now[g].ref) {
      var k := OneFirst(before, m, had, now, g);
    }
    forall g, h, i: nat, j: nat | 0 <= g < h < |now| && FirstMention(before + [m], now[g].ref, i) && FirstMention(before + [m], now[h].ref, j)
      ensures i < j
    {
      var k := OneFirst(before, m, had, now, g);
      var l := OneFirst(before, m, had, now, h);
      assert i == k && j == l;
      assert g < |had| && (h < |had| ==> k < l);
    }
  }

  lemma OneFirst(before: seq<Message>, m: Message, had: seq<Group>, now: seq<Group>, g: nat) returns (k: nat)
    requires ByFirstMention(before, had) && |had| <= |now| && forall g :: 0 <= g < |had| ==> now[g].ref == had[g].ref
    requires |now| == |had| || (|now| == |had| + 1 && Mentions(m, now[|had|].ref)
                                && NoneMention(before, now[|had|].ref))
    requires g < |now|
    ensures FirstMention(before + [m], now[g].ref, k) && forall j: nat :: FirstMention(before + [m], now[g].ref, j) ==> j == k
    ensures if g < |had| then k < |before| && FirstMention(before, had[g].ref, k) else k == |before|
  {
    hide Mentions;
    if g < |had| {
      k :| FirstMention(before, had[g].ref, k);
      FirstStays(before, m, now[g].ref, k);
      assert k < |before|;
    } else {
      k := |before|;
      FirstNow(before, m, now[g].ref);
    }
    hide FirstMention;
  }

  lemma Unmentioned(messages: seq<Message>, n: nat, s: Sorted, ref: Reference)
    requires n <= |messages| && Exact(messages, n, s) && Find(s.groups, ref) == |s.groups|
    ensures NoneMention(messages[..n], ref)
  {
    assert At(messages, n, ToRequest(ref)) == [] && At(messages, n, ToResponse(ref)) == [];
    hide Exact, At, Place, Mentions;
    AtIsExact(messages, n, ToRequest(ref));
    AtIsExact(messages, n, ToResponse(ref));
    forall i: nat | i < n ensures !Mentions(messages[..n][i], ref) {
      PlaceMentions(messages[i], ref);
      assert i !in At(messages, n, ToRequest(ref)) && i !in At(messages, n, ToResponse(ref));
    }
  }

  /** Groups stand in the order of the first message that mentions their target. */
  lemma {:induction false} GroupsInOrder(messages: seq<Message>, n: nat)
    requires n <= |messages|
    ensures ByFirstMention(messages[..n], SortFirst(messages, n).groups)
  {
    hide *;
    if n == 0 {
      NoGroups(messages);
    } else {
      GroupsInOrder(messages, n - 1);
      var had, now := SortFirst(messages, n - 1).groups, SortFirst(messages, n).groups;
      assert messages[..n] == messages[..n - 1] + [messages[n - 1]];
      GroupsGrow(messages, n);
      if |now| > |had| {
        NewTarget(messages, n);
      }
      OrderStep(messages[..n - 1], messages[n - 1], had, now);
    }
  }

  lemma NoGroups(messages: seq<Message>)
    ensures ByFirstMention(messages[..0], SortFirst(messages, 0).groups)
  {
  }

  lemma NewTarget(messages: seq<Message>, n: nat)
    requires 0 < n <= |messages|
    requires var had, now, p := SortFirst(messages, n - 1).groups, SortFirst(messages, n).groups, Place(messages[n - 1]);
      |now| == |had| + 1 && (p.ToRequest? || p.ToResponse?) && now[|had|].ref == p.ref && Find(had, p.ref) == |had|
    ensures var had, now := SortFirst(messages, n - 1).groups, SortFirst(messages, n).groups;
      Mentions(messages[n - 1], now[|had|].ref) && NoneMention(messages[..n - 1], now[|had|].ref)
  {
    hide *;
    SortingIsExact(messages, n - 1);
    Unmentioned(messages, n - 1, SortFirst(messages, n - 1), Place(messages[n - 1]).ref);
    PlaceMentions(messages[n - 1], Place(messages[n - 1]).ref);
  }

  lemma GroupsGrow(messages: seq<Message>, n: nat)
    requires 0 < n <= |messages|
    ensures var had, now, p := SortFirst(messages, n - 1).groups, SortFirst(messages, n).groups, Place(messages[n - 1]);
      && |had| <= |now| <= |had| + 1 && (forall g :: 0 <= g < |had| ==> now[g].ref == had[g].ref)
      && (|now| > |had| ==> (p.ToRequest? || p.ToResponse?) && now[|had|].ref == p.ref && Find(had, p.ref) == |had|)
  {
    var s, p := SortFirst(messages, n - 1), Place(messages[n - 1]);
    if p.ToRequest? || p.ToResponse? {
      WithShape(s.groups, p.ref);
    }
    hide Place, Find, With;
  }
}
