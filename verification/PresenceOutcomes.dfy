/** What each presence event does, told from the state and the event alone: when it is refused, what an accepted one
    leaves, and how a reset is followed by a new capture (extension/presence.ts). */
module PresenceOutcomes {
  import opened Options
  import opened Strings
  import opened Decimal
  import opened Fleet
  import opened Presence

  // --- When an event is accepted ---

  /** The identifiers a delta leaves: the published ones without the removed, and the upserted. */
  function IdsAfter(agents: seq<PublicAgent>, changes: seq<Change>): set<Str> {
    var removed := set i | 0 <= i < |changes| && changes[i].Remove? :: changes[i].agentId;
    var upserted := set i | 0 <= i < |changes| && changes[i].Upsert? :: changes[i].agent.agentId;
    Ids(agents) - removed + upserted
  }

  /** A part that carries on the capture being staged, or begins one. */
  ghost predicate FollowsStage(s: State, c: Chunk, now: real) {
    match s.staging
    case None => c.chunk == 0
    case Some(g) =>
      && c.chunk == g.nextChunk && g.startedAt <= now < g.startedAt + 30000.0
      && c == g.snapshot.(chunk := c.chunk, agents := c.agents, final := c.final)
  }

  /** A revision as the wire writes it: a canonical decimal of 64 bits. */
  predicate IsRevisionText(s: Str) {
    Canonical(s) && Value(s) <= 18446744073709551615
  }

  /** A part of a capture in its turn: of this epoch, not older than what is published, within the limits, in ascending
      order with what is staged, and final exactly when it completes the announced total. */
  ghost predicate ChunkAdmitted(s: State, c: Chunk, size: nat, now: real)
    requires Valid(s)
  {
    var joined := match s.staging case Some(g) => g.agents + c.agents case None => c.agents;
    var bytes := match s.staging case Some(g) => g.bytes case None => 0;
    && s.awaitingSnapshot && s.epoch in {None, Some(c.epoch)} && FollowsStage(s, c, now)
    && IsRevisionText(c.revision) && (s.revision.Some? ==> Value(s.revision.value) <= Value(c.revision))
    && c.total <= 5000 && |c.agents| <= 128 && Ascending(joined) && bytes + 33 + size <= 268435456
    && if c.final then |joined| == c.total && (c.agents == [] ==> c.chunk == 0)
       else c.agents != [] && |joined| < c.total
  }

  ghost predicate DeltaAdmitted(s: State, p: Payload)
    requires Valid(s) && p.Delta?
  {
    && !s.awaitingSnapshot && s.epoch == Some(p.epoch) && s.revision == Some(p.fromRevision) && IsRevisionText(p.toRevision)
    && Value(p.fromRevision) <= Value(p.toRevision) <= Value(p.fromRevision) + 128
    && |p.changes| <= Value(p.toRevision) - Value(p.fromRevision)
    && (p.changes == [] ==> p.caughtUp && Value(p.toRevision) == Value(p.fromRevision))
    && (forall i, j :: 0 <= i < j < |p.changes| ==> ChangedId(p.changes[i]) != ChangedId(p.changes[j]))
    && |IdsAfter(s.agents, p.changes)| <= 5000
  }

  ghost predicate Admitted(s: State, e: Event, now: Clock)
    requires Valid(s)
  {
    && now.Finite? && e.size <= 1048576
    && match e.payload
       case Undecodable => false
       case Reset(epoch) => s.epoch in {None, Some(epoch)}
       case Snapshot(c) => ChunkAdmitted(s, c, e.size, now.ms)
       case Delta(_, _, _, _, _) => DeltaAdmitted(s, e.payload)
  }

  /** An event is refused exactly when it is not admitted; a refusal asks for a reconnect, is stale, drops what was
      staged and leaves everything published. A replica that asks for a reconnect takes nothing more. */
  lemma RefusedExactly(s: State, e: Event, now: Clock)
    requires Valid(s)
    ensures var r := Reduce(s, e, now);
      && (s.reconnect ==> r == s)
      && (!s.reconnect ==> (r.reconnect <==> !Admitted(s, e, now)))
      && (!s.reconnect && r.reconnect ==> r.status == Stale && r.staging == None && r.epoch == s.epoch && r.revision == s.revision
                                          && r.agents == s.agents && r.awaitingSnapshot == s.awaitingSnapshot)
  {
    hide IsRevision, Ascending, Value, ReduceSnapshot, ReduceDelta, ChunkAdmitted, DeltaAdmitted, Valid;
    if !s.reconnect && now.Finite? && e.size <= 1048576 {
      match e.payload
      case Snapshot(c) => ChunkRefused(s, c, e.size, now.ms);
      case Delta(_, _, _, _, _) => DeltaRefused(s, e.payload);
      case Reset(epoch) => assert s.epoch in {None, Some(epoch)} <==> !(s.epoch.Some? && s.epoch.value != epoch);
      case Undecodable =>
    }
  }

  lemma AscendingParts(a: seq<PublicAgent>, b: seq<PublicAgent>)
    requires Ascending(a)
    ensures Ascending(a + b) <==> Ascending(b) && (|a| != 0 && |b| != 0 ==> Less(a[|a| - 1].agentId, b[0].agentId))
  {
    hide Less;
    if Ascending(a + b) {
      forall i | 0 < i < |b| ensures Less(b[i - 1].agentId, b[i].agentId) {
        assert (a + b)[|a| + i] == b[i] && (a + b)[|a| + i - 1] == b[i - 1];
      }
      if |a| != 0 && |b| != 0 {
        assert (a + b)[|a| - 1] == a[|a| - 1] && (a + b)[|a|] == b[0];
      }
    } else if Ascending(b) && (|a| != 0 && |b| != 0 ==> Less(a[|a| - 1].agentId, b[0].agentId)) {
      AscendingAppend(a, b);
    }
  }

  lemma ChunkRefused(s: State, c: Chunk, size: nat, now: real)
    requires Valid(s) && !s.reconnect
    ensures var r := ReduceSnapshot(s, c, size, now);
      && (r.reconnect <==> !ChunkAdmitted(s, c, size, now)) && (r.reconnect ==> r == s.(staging := None, status := Stale, reconnect := true))
  {
    AscendingParts(Staged(s), c.agents);
    hide Ascending, IsRevision, Value, Less;
    assert s.staging.Some? ==> ValidStaging(s, s.staging.value);
  }

  lemma DeltaRefused(s: State, p: Payload)
    requires Valid(s) && !s.reconnect && p.Delta?
    ensures var r := ReduceDelta(s, p);
      && (r.reconnect <==> !DeltaAdmitted(s, p)) && (r.reconnect ==> r == s.(staging := None, status := Stale, reconnect := true))
  {
    var m := ById(s.agents);
    DistinctChangesApply(m, {}, p.changes);
    if ApplyChanges(m, {}, p.changes).Some? {
      KeysAfter(s.agents, p.changes);
      assert ApplyChanges(m, {}, p.changes).value.Keys == IdsAfter(s.agents, p.changes);
    }
    hide Ascending, IsRevision, Value, ById, ApplyChanges, SortById, IdsAfter, ChangedId;
  }

  // --- What an accepted event leaves ---

  /** A reset keeps what is published and waits for a new capture from its start. */
  lemma ResetMeans(s: State, epoch: Str, size: nat, now: Clock)
    requires Valid(s) && !s.reconnect && Admitted(s, Event(Reset(epoch), size), now)
    ensures var r := Reduce(s, Event(Reset(epoch), size), now);
      && r.epoch == Some(epoch) && r.status == Stale && r.staging == None && r.awaitingSnapshot && !r.reconnect
      && r.agents == s.agents && r.revision == s.revision
  {
  }

  /** A part that is not final is only staged; the final one publishes everything staged and itself. */
  lemma ChunkMeans(s: State, c: Chunk, size: nat, now: real)
    requires Valid(s) && !s.reconnect && Admitted(s, Event(Snapshot(c), size), Finite(now))
    ensures var r := Reduce(s, Event(Snapshot(c), size), Finite(now));
      var joined := match s.staging case Some(g) => g.agents + c.agents case None => c.agents;
      && r.epoch == Some(c.epoch) && r.status == Synchronizing && !r.reconnect
      && (c.final ==> r.agents == joined && r.revision == Some(c.revision) && r.staging == None && !r.awaitingSnapshot)
      && (!c.final ==> r.agents == s.agents && r.revision == s.revision && r.awaitingSnapshot && r.staging.Some?
                       && r.staging.value.snapshot == c && r.staging.value.agents == joined
                       && r.staging.value.nextChunk == c.chunk + 1
                       && r.staging.value.bytes == (match s.staging case Some(g) => g.bytes case None => 0) + 33 + size
                       && r.staging.value.startedAt == match s.staging case Some(g) => g.startedAt case None => now)
  {
    RefusedExactly(s, Event(Snapshot(c), size), Finite(now));
    hide Ascending, IsRevision, Value, Less, Valid, ChunkAdmitted;
    assert [] + c.agents == c.agents;
  }

  /** What a delta does to one identifier: its own change decides it, and without one it stays. */
  lemma {:induction false} ChangesExact(m: map<Str, PublicAgent>, seen: set<Str>, changes: seq<Change>)
    requires Keyed(m) && ApplyChanges(m, seen, changes).Some?
    ensures var r := ApplyChanges(m, seen, changes).value;
      && (forall i :: 0 <= i < |changes| ==>
            match changes[i]
            case Upsert(a) => a.agentId in r && r[a.agentId] == a
            case Remove(id) => id !in r)
      && forall id :: Untouched(changes, id) ==> (id in m <==> id in r) && (id in m ==> r[id] == m[id])
    decreases |changes|
  {
    if |changes| != 0 {
      var c, rest := changes[0], changes[1..];
      var next := ApplyChange(m, c);
      DistinctChangesApply(next, seen + {ChangedId(c)}, rest);
      ChangesExact(next, seen + {ChangedId(c)}, rest);
      assert Untouched(rest, ChangedId(c));
      forall id | Untouched(changes, id) ensures Untouched(rest, id) && id != ChangedId(c) {
        assert changes[0] == c;
        forall i | 0 <= i < |rest| ensures ChangedId(rest[i]) != id {
          assert rest[i] == changes[i + 1];
        }
      }
      assert forall i :: 0 < i < |changes| ==> changes[i] == rest[i - 1];
    }
  }

  ghost predicate Untouched(changes: seq<Change>, id: Str) {
    forall i :: 0 <= i < |changes| ==> ChangedId(changes[i]) != id
  }

  lemma {:induction false} ByIdExact(agents: seq<PublicAgent>)
    requires Ascending(agents)
    ensures ById(agents).Keys == Ids(agents)
    ensures forall a :: a in agents <==> a.agentId in ById(agents) && ById(agents)[a.agentId] == a
  {
    forall a | a in agents ensures a.agentId in ById(agents) && ById(agents)[a.agentId] == a {
      var i :| 0 <= i < |agents| && agents[i] == a;
      var b := ById(agents)[a.agentId];
      var j :| 0 <= j < |agents| && agents[j] == b;
      AscendingDistinct(agents, i, j);
    }
    forall id | id in ById(agents) ensures id in Ids(agents) {
      var i :| 0 <= i < |agents| && agents[i] == ById(agents)[id];
    }
  }

  lemma KeysAfter(agents: seq<PublicAgent>, changes: seq<Change>)
    requires Ascending(agents) && ApplyChanges(ById(agents), {}, changes).Some?
    ensures ApplyChanges(ById(agents), {}, changes).value.Keys == IdsAfter(agents, changes)
  {
    var m := ById(agents);
    var r := ApplyChanges(m, {}, changes).value;
    ByIdExact(agents);
    ChangesExact(m, {}, changes);
    hide ApplyChanges, ById, Ascending, Ids;
    forall id ensures id in r <==> id in IdsAfter(agents, changes) {
      if !Untouched(changes, id) {
        var i :| 0 <= i < |changes| && ChangedId(changes[i]) == id;
        DistinctAt(m, changes, i);
      }
    }
  }

  lemma DistinctAt(m: map<Str, PublicAgent>, changes: seq<Change>, i: nat)
    requires Keyed(m) && ApplyChanges(m, {}, changes).Some? && i < |changes|
    ensures forall j :: 0 <= j < |changes| && ChangedId(changes[j]) == ChangedId(changes[i]) ==> j == i
  {
    DistinctChangesApply(m, {}, changes);
    hide ApplyChanges;
  }

  lemma SortedHas(m: map<Str, PublicAgent>, a: PublicAgent)
    requires Keyed(m)
    ensures a in SortById(m) <==> a.agentId in m && m[a.agentId] == a
  {
    var s := SortById(m);
    if a.agentId in m && m[a.agentId] == a {
      AscendingCount(s);
      assert Ids(s) <= m.Keys;
      SubsetOfSameSize(Ids(s), m.Keys);
      var i :| 0 <= i < |s| && s[i].agentId == a.agentId;
      assert s[i] == a;
    }
  }

  /** An accepted delta publishes, in order, exactly the records it upserts and the earlier ones it does not touch. */
  lemma DeltaMeans(s: State, p: Payload, size: nat, now: Clock)
    requires Valid(s) && !s.reconnect && p.Delta? && Admitted(s, Event(p, size), now)
    ensures var r := Reduce(s, Event(p, size), now);
      && r.epoch == s.epoch && r.revision == Some(p.toRevision) && r.staging == None && !r.reconnect && !r.awaitingSnapshot
      && r.status == (if p.caughtUp then Current else Synchronizing) && Ascending(r.agents)
      && forall a :: a in r.agents <==> Upsert(a) in p.changes || (a in s.agents && Untouched(p.changes, a.agentId))
  {
    RefusedExactly(s, Event(p, size), now);
    var m := ById(s.agents);
    var r := Reduce(s, Event(p, size), now);
    DeltaCommits(s, p);
    var after := ApplyChanges(m, {}, p.changes).value;
    ByIdExact(s.agents);
    ChangesExact(m, {}, p.changes);
    hide Valid, Admitted, Reduce, ReduceDelta, ApplyChanges, ById, SortById, Ascending, IsRevision, Value;
    forall a ensures a in r.agents <==> Upsert(a) in p.changes || (a in s.agents && Untouched(p.changes, a.agentId)) {
      SortedHas(after, a);
      if !Untouched(p.changes, a.agentId) {
        var i :| 0 <= i < |p.changes| && ChangedId(p.changes[i]) == a.agentId;
        DistinctAt(m, p.changes, i);
      }
    }
  }

  lemma DeltaCommits(s: State, p: Payload)
    requires Valid(s) && !s.reconnect && p.Delta? && !ReduceDelta(s, p).reconnect
    ensures var m := ApplyChanges(ById(s.agents), {}, p.changes); var r := ReduceDelta(s, p);
      && m.Some? && r.agents == SortById(m.value) && r.revision == Some(p.toRevision) && Ascending(r.agents)
      && r.status == (if p.caughtUp then Current else Synchronizing)
      && r.epoch == s.epoch && r.staging == None && !r.awaitingSnapshot
  {
    hide ApplyChanges, ById, SortById, Ascending, IsRevision, Value, Valid;
  }

  // --- A reset and the capture after it ---

  /** Between a reset and the final part of a capture nothing changes what is published. */
  lemma {:induction false} AwaitingHolds(s: State, trace: seq<(Event, Clock)>)
    requires Valid(s) && s.awaitingSnapshot
    requires forall i :: 0 <= i < |trace| && trace[i].0.payload.Snapshot? ==> !trace[i].0.payload.part.final
    ensures var r := Run(s, trace); r.agents == s.agents && r.revision == s.revision && r.awaitingSnapshot
    decreases |trace|
  {
    if |trace| != 0 {
      var (e, now) := trace[0];
      ReduceKeepsValid(s, e, now);
      StillAwaiting(s, e, now);
      assert forall i :: 0 <= i < |trace[1..]| ==> trace[1..][i] == trace[i + 1];
      AwaitingHolds(Reduce(s, e, now), trace[1..]);
    }
  }

  lemma StillAwaiting(s: State, e: Event, now: Clock)
    requires Valid(s) && s.awaitingSnapshot && (e.payload.Snapshot? ==> !e.payload.part.final)
    ensures var r := Reduce(s, e, now); r.awaitingSnapshot && r.agents == s.agents && r.revision == s.revision
  {
    hide Ascending, IsRevision, Value, ApplyChanges, Less;
  }

  /** From every state that has not given up, an admitted reset and then an undisturbed capture of its epoch, at no
      earlier revision and cut anywhere, publish exactly that capture. */
  lemma ResetThenCapture(s: State, epoch: Str, size: nat, now: Clock,
                         parts: seq<Chunk>, agents: seq<PublicAgent>, sizes: seq<nat>, times: seq<real>)
    requires Valid(s) && !s.reconnect && s.epoch in {None, Some(epoch)} && now.Finite? && size <= 1048576
    requires Chunked(parts, agents) && |parts| == |sizes| && Timely(sizes, times) && parts[0].epoch == epoch
    requires s.revision.Some? ==> Value(s.revision.value) <= Value(parts[0].revision)
    ensures var r := Run(s, [(Event(Reset(epoch), size), now)] + Deliveries(parts, sizes, times));
      && r.agents == agents && r.revision == Some(parts[0].revision) && r.epoch == Some(epoch)
      && r.status == Synchronizing && r.staging == None && !r.reconnect && !r.awaitingSnapshot
  {
    var e := Event(Reset(epoch), size);
    var trace := [(e, now)] + Deliveries(parts, sizes, times);
    ReduceKeepsValid(s, e, now);
    ResetMeans(s, epoch, size, now);
    hide Valid, Chunked, Timely, Reduce, IsRevision, Value, Admitted;
    assert trace[0] == (e, now);
    assert trace[1..] == Deliveries(parts, sizes, times);
    SnapshotCommits(Reduce(s, e, now), parts, agents, sizes, times);
  }

  /** A capture's charge is the canonical frame of each part. */
  lemma ChargedFrames(sizes: seq<nat>, data: string)
    requires |sizes| != 0 && |data| == sizes[|sizes| - 1]
    ensures Charge(sizes) == Charge(sizes[..|sizes| - 1]) + |SnapshotFrame(data)|
  {
  }

  function SnapshotFrame(data: string): string {
    "event: presence_snapshot\ndata: " + data + "\n\n"
  }
}
