/** Sorting a window's messages into request groups, decisions and free text (extension/coordination-notes.ts). */
module Claims {
  import opened Options
  import opened Strings
  import opened Notes

  /** A message with its reference, if it has one, and the note its body decodes to, if it does. */
  datatype Message = Message(ref: Option<Reference>, note: Option<Note>)

  datatype Placement = ToRequest(ref: Reference) | ToResponse(ref: Reference) | ToDecision | ToFree

  /** A request belongs to its own reference, a reply to the one it answers. */
  function Place(m: Message): Placement {
    if m.note.None? || m.ref.None? then ToFree
    else
      match m.note.value
      case Request(_, _, _) => ToRequest(m.ref.value)
      case Decision(_) => ToDecision
      case Reply(_, replyTo) => ToResponse(replyTo)
      case Completion(replyTo, _) => ToResponse(replyTo)
  }

  /** The positions of one target's request claims and of the replies to it. */
  datatype Group = Group(ref: Reference, requests: seq<nat>, responses: seq<nat>)

  datatype Sorted = Sorted(groups: seq<Group>, decisions: seq<nat>, free: seq<nat>)

  function Find(groups: seq<Group>, ref: Reference): (g: nat)
    ensures g <= |groups| && (g < |groups| ==> groups[g].ref == ref)
    ensures forall i :: 0 <= i < g ==> groups[i].ref != ref
  {
    if |groups| == 0 || groups[0].ref == ref then 0 else 1 + Find(groups[1..], ref)
  }

  /** The groups with one for `ref`, made if it is new. */
  function With(groups: seq<Group>, ref: Reference): (r: seq<Group>)
    ensures Find(groups, ref) < |r| && r[Find(groups, ref)].ref == ref
  {
    if Find(groups, ref) < |groups| then groups else groups + [Group(ref, [], [])]
  }

  function Added(s: Sorted, p: Placement, i: nat): Sorted {
    match p
    case ToFree => s.(free := s.free + [i])
    case ToDecision => s.(decisions := s.decisions + [i])
    case ToRequest(ref) =>
      var gs, g := With(s.groups, ref), Find(s.groups, ref);
      s.(groups := gs[g := gs[g].(requests := gs[g].requests + [i])])
    case ToResponse(ref) =>
      var gs, g := With(s.groups, ref), Find(s.groups, ref);
      s.(groups := gs[g := gs[g].(responses := gs[g].responses + [i])])
  }

  function SortFirst(messages: seq<Message>, n: nat): Sorted
    requires n <= |messages|
  {
    if n == 0 then Sorted([], [], []) else Added(SortFirst(messages, n - 1), Place(messages[n - 1]), n - 1)
  }

  ghost predicate Indexed(byKey: map<Reference, nat>, groups: seq<Group>) {
    forall ref :: if ref in byKey then Find(groups, ref) == byKey[ref] < |groups| else Find(groups, ref) == |groups|
  }

  lemma IndexedGrows(byKey: map<Reference, nat>, groups: seq<Group>, ref: Reference)
    requires Indexed(byKey, groups) && ref !in byKey
    ensures Indexed(byKey[ref := |groups|], groups + [Group(ref, [], [])])
  {
    forall r ensures Find(groups + [Group(ref, [], [])], r) ==
                     if Find(groups, r) < |groups| then Find(groups, r) else if r == ref then |groups| else |groups| + 1 {
      FindSnoc(groups, Group(ref, [], []), r);
    }
  }

  lemma {:induction false} FindSnoc(groups: seq<Group>, g: Group, ref: Reference)
    ensures Find(groups + [g], ref) ==
            if Find(groups, ref) < |groups| then Find(groups, ref) else if ref == g.ref then |groups| else |groups| + 1
  {
    if |groups| != 0 {
      assert (groups + [g])[1..] == groups[1..] + [g];
      FindSnoc(groups[1..], g, ref);
    }
  }

  lemma {:induction false} FindSame(a: seq<Group>, b: seq<Group>, ref: Reference)
    requires |a| == |b| && forall i :: 0 <= i < |a| ==> a[i].ref == b[i].ref
    ensures Find(a, ref) == Find(b, ref)
  {
    if |a| != 0 {
      assert a[0].ref == b[0].ref;
      FindSame(a[1..], b[1..], ref);
    }
  }

  /** One pass with a table of the groups made so far. */
  method SortMessages(messages: seq<Message>) returns (groups: seq<Group>, decisions: seq<nat>, free: seq<nat>)
    ensures Sorted(groups, decisions, free) == SortFirst(messages, |messages|)
    ensures Claimed(groups) + |decisions| + |free| == |messages|
  {
    hide Find, With, Place, Claimed;
    groups, decisions, free := [], [], [];
    var byKey: map<Reference, nat> := map[];
    NothingIndexed();
    var i := 0;
    while i < |messages|
      invariant 0 <= i <= |messages|
      invariant Sorted(groups, decisions, free) == SortFirst(messages, i) && Indexed(byKey, groups)
    {
      hide Indexed;
      var place := Place(messages[i]);
      match place {
        case ToFree => free := free + [i];
        case ToDecision => decisions := decisions + [i];
        case ToRequest(ref) =>
          var g: nat;
          groups, byKey, g := GroupFor(groups, byKey, ref);
          var next := groups[g := groups[g].(requests := groups[g].requests + [i])];
          IndexedSame(byKey, groups, next);
          groups := next;
        case ToResponse(ref) =>
          var g: nat;
          groups, byKey, g := GroupFor(groups, byKey, ref);
          var next := groups[g := groups[g].(responses := groups[g].responses + [i])];
          IndexedSame(byKey, groups, next);
          groups := next;
      }
      i := i + 1;
    }
    EveryMessageOnce(messages, |messages|);
  }

  lemma NothingIndexed()
    ensures Indexed(map[], [])
  {
  }

  lemma IndexedSame(byKey: map<Reference, nat>, a: seq<Group>, b: seq<Group>)
    requires Indexed(byKey, a) && |a| == |b| && forall i :: 0 <= i < |a| ==> a[i].ref == b[i].ref
    ensures Indexed(byKey, b)
  {
    forall ref ensures Find(a, ref) == Find(b, ref) {
      FindSame(a, b, ref);
    }
  }

  method GroupFor(groups: seq<Group>, byKey: map<Reference, nat>, ref: Reference)
    returns (gs: seq<Group>, keys: map<Reference, nat>, g: nat)
    requires Indexed(byKey, groups)
    ensures gs == With(groups, ref) && Indexed(keys, gs) && g == Find(groups, ref) && g < |gs| && gs[g].ref == ref
  {
    if ref in byKey {
      return groups, byKey, byKey[ref];
    }
    IndexedGrows(byKey, groups, ref);
    gs, keys, g := groups + [Group(ref, [], [])], byKey[ref := |groups|], |groups|;
  }

  // --- Every message in exactly one place ---

  /** The positions before `n` whose message is placed at `p`, ascending. */
  function At(messages: seq<Message>, n: nat, p: Placement): seq<nat>
    requires n <= |messages|
  {
    if n == 0 then [] else At(messages, n - 1, p) + (if Place(messages[n - 1]) == p then [n - 1] else [])
  }

  lemma {:induction false} AtIsExact(messages: seq<Message>, n: nat, p: Placement)
    requires n <= |messages|
    ensures forall k: nat :: k in At(messages, n, p) <==> k < n && Place(messages[k]) == p
    ensures forall i, j :: 0 <= i < j < |At(messages, n, p)| ==> At(messages, n, p)[i] < At(messages, n, p)[j]
  {
    hide Place;
    if n != 0 {
      AtIsExact(messages, n - 1, p);
      var before, all := At(messages, n - 1, p), At(messages, n, p);
      assert forall i :: 0 <= i < |before| ==> before[i] in before && all[i] == before[i];
    }
  }

  lemma AtStep(messages: seq<Message>, n: nat, p: Placement)
    requires 0 < n <= |messages|
    ensures At(messages, n, p) == if Place(messages[n - 1]) == p then At(messages, n - 1, p) + [n - 1] else At(messages, n - 1, p)
  {
    hide Place;
    assert At(messages, n - 1, p) + [] == At(messages, n - 1, p);
  }

  /** The groups, decisions and free text are exactly the messages placed there, in order, one group to a target. */
  ghost predicate Exact(messages: seq<Message>, n: nat, s: Sorted)
    requires n <= |messages|
  {
    && s.free == At(messages, n, ToFree) && s.decisions == At(messages, n, ToDecision)
    && (forall g :: 0 <= g < |s.groups| ==>
          s.groups[g].requests == At(messages, n, ToRequest(s.groups[g].ref))
          && s.groups[g].responses == At(messages, n, ToResponse(s.groups[g].ref)))
    && (forall ref :: Find(s.groups, ref) == |s.groups| ==> At(messages, n, ToRequest(ref)) == [] && At(messages, n, ToResponse(ref)) == [])
    && (forall g, k :: 0 <= g < k < |s.groups| ==> s.groups[g].ref != s.groups[k].ref)
  }

  lemma WithFinds(groups: seq<Group>, added: Reference, ref: Reference)
    ensures var gs := With(groups, added);
      Find(gs, ref) == |gs| ==> Find(groups, ref) == |groups| && ref != added
  {
    FindSnoc(groups, Group(added, [], []), ref);
  }

  lemma ExactRequest(messages: seq<Message>, n: nat, s: Sorted)
    requires 0 < n <= |messages| && Exact(messages, n - 1, s) && Place(messages[n - 1]).ToRequest?
    ensures Exact(messages, n, Added(s, Place(messages[n - 1]), n - 1))
  {
    hide Place, Find, With;
    var p := Place(messages[n - 1]);
    var v := Added(s, p, n - 1);
    var gs, g := With(s.groups, p.ref), Find(s.groups, p.ref);
    WithShape(s.groups, p.ref);
    forall ref | Find(v.groups, ref) == |v.groups|
      ensures At(messages, n, ToRequest(ref)) == [] && At(messages, n, ToResponse(ref)) == []
    {
      FindSame(gs, v.groups, ref);
      WithFinds(s.groups, p.ref, ref);
    }
  }

  lemma ExactResponse(messages: seq<Message>, n: nat, s: Sorted)
    requires 0 < n <= |messages| && Exact(messages, n - 1, s) && Place(messages[n - 1]).ToResponse?
    ensures Exact(messages, n, Added(s, Place(messages[n - 1]), n - 1))
  {
    hide Place, Find, With;
    var p := Place(messages[n - 1]);
    var v := Added(s, p, n - 1);
    var gs, g := With(s.groups, p.ref), Find(s.groups, p.ref);
    WithShape(s.groups, p.ref);
    forall ref | Find(v.groups, ref) == |v.groups|
      ensures At(messages, n, ToRequest(ref)) == [] && At(messages, n, ToResponse(ref)) == []
    {
      FindSame(gs, v.groups, ref);
      WithFinds(s.groups, p.ref, ref);
    }
  }

  lemma WithShape(groups: seq<Group>, ref: Reference)
    ensures var gs, g := With(groups, ref), Find(groups, ref);
      && (g < |groups| ==> gs == groups && groups[g].ref == ref)
      && (g >= |groups| ==> gs == groups + [Group(ref, [], [])] && g == |groups| && forall i :: 0 <= i < |groups| ==> groups[i].ref != ref)
  {
  }

  lemma {:induction false} SortingIsExact(messages: seq<Message>, n: nat)
    requires n <= |messages|
    ensures Exact(messages, n, SortFirst(messages, n))
  {
    if n != 0 {
      SortingIsExact(messages, n - 1);
      var s := SortFirst(messages, n - 1);
      match Place(messages[n - 1]) {
        case ToRequest(_) => ExactRequest(messages, n, s);
        case ToResponse(_) => ExactResponse(messages, n, s);
        case _ => ExactOther(messages, n, s);
      }
    }
  }

  lemma ExactOther(messages: seq<Message>, n: nat, s: Sorted)
    requires 0 < n <= |messages| && Exact(messages, n - 1, s)
    requires Place(messages[n - 1]).ToFree? || Place(messages[n - 1]).ToDecision?
    ensures Exact(messages, n, Added(s, Place(messages[n - 1]), n - 1))
  {
    forall p ensures At(messages, n, p) == if Place(messages[n - 1]) == p then At(messages, n - 1, p) + [n - 1] else At(messages, n - 1, p) {
      AtStep(messages, n, p);
    }
    hide Place, Find, At;
    var v := Added(s, Place(messages[n - 1]), n - 1);
    assert v.groups == s.groups;
  }

  function Claimed(groups: seq<Group>): nat {
    if |groups| == 0 then 0 else |groups[0].requests| + |groups[0].responses| + Claimed(groups[1..])
  }

  function Placed(s: Sorted): nat {
    Claimed(s.groups) + |s.decisions| + |s.free|
  }

  lemma {:induction false} ClaimedUpdate(groups: seq<Group>, g: nat, next: Group)
    requires g < |groups|
    ensures Claimed(groups[g := next])
            == Claimed(groups) - |groups[g].requests| - |groups[g].responses| + |next.requests| + |next.responses|
  {
    if g == 0 {
      assert groups[0 := next][1..] == groups[1..];
    } else {
      ClaimedUpdate(groups[1..], g - 1, next);
      assert groups[g := next][1..] == groups[1..][g - 1 := next];
    }
  }

  lemma {:induction false} ClaimedSnoc(groups: seq<Group>, ref: Reference)
    ensures Claimed(groups + [Group(ref, [], [])]) == Claimed(groups)
  {
    if |groups| == 0 {
      var none: seq<Group> := [];
      assert (groups + [Group(ref, [], [])])[1..] == none;
    } else {
      assert (groups + [Group(ref, [], [])])[1..] == groups[1..] + [Group(ref, [], [])];
      ClaimedSnoc(groups[1..], ref);
    }
  }

  lemma AddedCounts(s: Sorted, p: Placement, i: nat)
    ensures Placed(Added(s, p, i)) == Placed(s) + 1
  {
    hide Find;
    if p.ToRequest? || p.ToResponse? {
      var gs, g := With(s.groups, p.ref), Find(s.groups, p.ref);
      ClaimedSnoc(s.groups, p.ref);
      ClaimedUpdate(gs, g, Added(s, p, i).groups[g]);
    }
  }

  /** Nothing is lost and nothing counted twice: the places hold as many claims as there are messages. */
  lemma {:induction false} EveryMessageOnce(messages: seq<Message>, n: nat)
    requires n <= |messages|
    ensures Placed(SortFirst(messages, n)) == n
  {
    if n != 0 {
      EveryMessageOnce(messages, n - 1);
      AddedCounts(SortFirst(messages, n - 1), Place(messages[n - 1]), n - 1);
    }
  }
}
