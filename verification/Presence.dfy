/** The presence replica: one connection's view of the fleet, reduced event by event
    (extension/presence.ts). */
module Presence {
  import opened Options
  import opened Strings
  import opened Decimal
  import opened Fleet

  const MAX_AGENTS := 5000
  const MAX_PAGE_RECORDS := 128
  const MAX_DISCOVERY_BYTES := 1048576
  const MAX_STAGE_BYTES := 268435456
  const DISCOVERY_LIFETIME_MS := 30000.0

  predicate IsRevision(s: Str) {
    Canonical(s) && Value(s) <= MAX_UINT64
  }

  datatype Chunk = Chunk(epoch: Str, revision: Str, snapshotId: Str, capturedAt: nat, chunk: nat, total: nat,
                         agents: seq<PublicAgent>, final: bool)

  datatype Change = Upsert(agent: PublicAgent) | Remove(agentId: Str)

  function ChangedId(c: Change): Str {
    match c case Upsert(a) => a.agentId case Remove(id) => id
  }

  /** An event's data after decoding. `Undecodable` covers bad JSON, wrong keys or field types,
      malformed identifiers and unknown event names. */
  datatype Payload =
    | Reset(epoch: Str)
    | Snapshot(part: Chunk)
    | Delta(epoch: Str, fromRevision: Str, toRevision: Str, caughtUp: bool, changes: seq<Change>)
    | Undecodable

  datatype Event = Event(payload: Payload, size: nat)

  /** A monotonic clock reading; the source rejects NaN and the infinities. */
  datatype Clock = Finite(ms: real) | NotFinite

  datatype Status = Stale | Synchronizing | Current

  datatype Staging = Staging(snapshot: Chunk, agents: seq<PublicAgent>, nextChunk: nat, bytes: nat, startedAt: real)

  datatype State = State(status: Status, reconnect: bool, epoch: Option<Str>, revision: Option<Str>,
                         agents: seq<PublicAgent>, staging: Option<Staging>, awaitingSnapshot: bool)

  const INITIAL := State(Stale, false, None, None, [], None, true)

  function Invalid(s: State): State {
    s.(staging := None, status := Stale, reconnect := true)
  }

  /** The schema of one snapshot part. */
  predicate IsSnapshotPart(c: Chunk) {
    IsRevision(c.revision) && c.total <= MAX_AGENTS && |c.agents| <= MAX_PAGE_RECORDS && Ascending(c.agents)
  }

  predicate SameSnapshot(a: Chunk, b: Chunk) {
    a.epoch == b.epoch && a.revision == b.revision && a.snapshotId == b.snapshotId
    && a.capturedAt == b.capturedAt && a.total == b.total
  }

  /** The staging charge of a snapshot event: its canonical framing and its data. */
  function EncodedBytes(size: nat): nat {
    33 + size
  }

  predicate Continues(s: State, c: Chunk, now: real)
    requires IsSnapshotPart(c)
    requires s.revision.Some? ==> IsRevision(s.revision.value)
  {
    && s.awaitingSnapshot
    && (s.epoch.Some? ==> s.epoch.value == c.epoch)
    && (s.revision.Some? ==> Value(s.revision.value) <= Value(c.revision))
    && c.chunk == (if s.staging.Some? then s.staging.value.nextChunk else 0)
    && (s.staging.Some? ==>
          && SameSnapshot(s.staging.value.snapshot, c)
          && s.staging.value.startedAt <= now
          && now - s.staging.value.startedAt < DISCOVERY_LIFETIME_MS)
  }

  function Staged(s: State): seq<PublicAgent> {
    if s.staging.Some? then s.staging.value.agents else []
  }

  function ReduceSnapshot(s: State, c: Chunk, size: nat, now: real): State
    requires s.revision.Some? ==> IsRevision(s.revision.value)
  {
    if !IsSnapshotPart(c) || !Continues(s, c, now) then Invalid(s) else
    var previous := Staged(s);
    var bytes := (if s.staging.Some? then s.staging.value.bytes else 0) + EncodedBytes(size);
    if || bytes > MAX_STAGE_BYTES
       || |previous| + |c.agents| > c.total
       || (|previous| != 0 && |c.agents| != 0 && !Less(previous[|previous| - 1].agentId, c.agents[0].agentId))
    then Invalid(s) else
    var agents := previous + c.agents;
    if c.final then
      if |agents| != c.total || (c.chunk > 0 && |c.agents| == 0) then Invalid(s)
      else s.(epoch := Some(c.epoch), revision := Some(c.revision), agents := agents, staging := None,
              status := Synchronizing, awaitingSnapshot := false)
    else if |c.agents| == 0 || |agents| >= c.total then Invalid(s)
    else s.(epoch := Some(c.epoch), status := Synchronizing,
            staging := Some(Staging(c, agents, c.chunk + 1, bytes,
                                    if s.staging.Some? then s.staging.value.startedAt else now)))
  }

  /** A delta's changes applied in order to a keyed map; a repeated identifier spoils the whole delta. */
  function ApplyChanges(m: map<Str, PublicAgent>, seen: set<Str>, changes: seq<Change>): (r: Option<map<Str, PublicAgent>>)
    requires Keyed(m)
    ensures r.Some? ==> Keyed(r.value)
    decreases |changes|
  {
    if |changes| == 0 then Some(m) else
    var id := ChangedId(changes[0]);
    if id in seen then None
    else ApplyChanges(ApplyChange(m, changes[0]), seen + {id}, changes[1..])
  }

  function ApplyChange(m: map<Str, PublicAgent>, c: Change): (r: map<Str, PublicAgent>)
    requires Keyed(m)
    ensures Keyed(r)
  {
    match c
    case Upsert(a) => m[a.agentId := a]
    case Remove(id) => m - {id}
  }

  /** Everything the source checks about a delta before it applies the changes. */
  predicate DeltaFits(s: State, p: Payload)
    requires p.Delta?
  {
    && !s.awaitingSnapshot && s.staging.None? && s.revision.Some?
    && s.epoch == Some(p.epoch)
    && IsRevision(p.fromRevision) && IsRevision(p.toRevision)
    && s.revision == Some(p.fromRevision)
    && |p.changes| <= MAX_PAGE_RECORDS
    && var span := Value(p.toRevision) - Value(p.fromRevision);
    && 0 <= span <= MAX_PAGE_RECORDS && |p.changes| <= span
    && (if span == 0 then p.caughtUp else |p.changes| != 0)
  }

  function Commit(s: State, p: Payload, m: map<Str, PublicAgent>): State
    requires p.Delta? && Keyed(m)
  {
    if |m| > MAX_AGENTS then Invalid(s)
    else s.(revision := Some(p.toRevision), agents := SortById(m), status := if p.caughtUp then Current else Synchronizing)
  }

  function ReduceDelta(s: State, p: Payload): State
    requires p.Delta?
  {
    if !DeltaFits(s, p) then Invalid(s) else
    var m := ApplyChanges(ById(s.agents), {}, p.changes);
    if m.None? then Invalid(s) else Commit(s, p, m.value)
  }

  function ReduceReset(s: State, epoch: Str): State {
    if s.epoch.Some? && s.epoch.value != epoch then Invalid(s)
    else s.(epoch := Some(epoch), staging := None, status := Stale, awaitingSnapshot := true)
  }

  function Reduce(s: State, e: Event, now: Clock): State
    requires s.revision.Some? ==> IsRevision(s.revision.value)
  {
    if s.reconnect then s
    else if now.NotFinite? || e.size > MAX_DISCOVERY_BYTES then Invalid(s)
    else match e.payload
      case Undecodable => Invalid(s)
      case Reset(epoch) => ReduceReset(s, epoch)
      case Snapshot(c) => ReduceSnapshot(s, c, e.size, now.ms)
      case Delta(_, _, _, _, _) => ReduceDelta(s, e.payload)
  }

  /** The reducer in the source's form: the delta branch updates a local map and set in a loop. */
  method ReducePresence(s: State, e: Event, now: Clock) returns (r: State)
    requires s.revision.Some? ==> IsRevision(s.revision.value)
    ensures r == Reduce(s, e, now)
  {
    if s.reconnect {
      return s;
    }
    if now.NotFinite? || e.size > MAX_DISCOVERY_BYTES || !e.payload.Delta? {
      return Reduce(s, e, now);
    }
    var p := e.payload;
    if !DeltaFits(s, p) {
      return Invalid(s);
    }
    var agents, seen := ById(s.agents), {};
    for i := 0 to |p.changes|
      invariant Keyed(agents)
      invariant ApplyChanges(ById(s.agents), {}, p.changes) == ApplyChanges(agents, seen, p.changes[i..])
    {
      var change := p.changes[i];
      assert p.changes[i..][0] == change && p.changes[i..][1..] == p.changes[i + 1..];
      var id;
      match change {
        case Upsert(a) =>
          id := a.agentId;
          agents := agents[id := a];
        case Remove(agentId) =>
          id := agentId;
          agents := agents - {id};
      }
      if id in seen {
        return Invalid(s);
      }
      seen := seen + {id};
    }
    r := Commit(s, p, agents);
  }

  // --- What every event keeps, whoever sent it ---

  ghost predicate Valid(s: State) {
    && (s.revision.Some? ==> IsRevision(s.revision.value) && s.epoch.Some?)
    && (s.revision.None? ==> s.agents == [])
    && Ascending(s.agents) && |s.agents| <= MAX_AGENTS
    && (s.status == Current ==> s.revision.Some? && !s.awaitingSnapshot)
    && (s.staging.Some? ==> s.awaitingSnapshot && ValidStaging(s, s.staging.value))
  }

  ghost predicate ValidStaging(s: State, g: Staging)
    requires s.revision.Some? ==> IsRevision(s.revision.value)
  {
    && IsSnapshotPart(g.snapshot)
    && s.epoch == Some(g.snapshot.epoch)
    && Ascending(g.agents) && 0 < |g.agents| < g.snapshot.total
    && g.nextChunk == g.snapshot.chunk + 1
    && g.bytes <= MAX_STAGE_BYTES
    && (s.revision.Some? ==> Value(s.revision.value) <= Value(g.snapshot.revision))
  }

  /** What a step may do to the epoch and the revision. */
  ghost predicate Advances(s: State, r: State)
    requires Valid(s) && Valid(r)
  {
    && (s.epoch.Some? ==> r.epoch == s.epoch)
    && (s.revision.Some? ==> r.revision.Some? && Value(s.revision.value) <= Value(r.revision.value))
  }

  lemma SnapshotKeepsValid(s: State, c: Chunk, size: nat, now: real)
    requires Valid(s)
    ensures Valid(ReduceSnapshot(s, c, size, now)) && Advances(s, ReduceSnapshot(s, c, size, now))
  {
    var previous := Staged(s);
    if IsSnapshotPart(c) && Continues(s, c, now)
       && (|previous| == 0 || |c.agents| == 0 || Less(previous[|previous| - 1].agentId, c.agents[0].agentId)) {
      AscendingAppend(previous, c.agents);
    }
  }

  lemma DeltaKeepsValid(s: State, p: Payload)
    requires Valid(s) && p.Delta?
    ensures Valid(ReduceDelta(s, p)) && Advances(s, ReduceDelta(s, p))
  {
  }

  /** Sortedness, the size limit, the epoch and the revision order survive every event, honest or not. */
  lemma ReduceKeepsValid(s: State, e: Event, now: Clock)
    requires Valid(s)
    ensures Valid(Reduce(s, e, now)) && Advances(s, Reduce(s, e, now))
  {
    hide Ascending, IsSnapshotPart, ReduceSnapshot, ReduceDelta, Value;
    match e.payload
    case Snapshot(c) =>
      if now.Finite? {
        SnapshotKeepsValid(s, c, e.size, now.ms);
      }
    case Delta(_, _, _, _, _) => DeltaKeepsValid(s, e.payload);
    case _ =>
  }

  /** A snapshot becomes visible only whole: published agents and revision change only when the
      final chunk completes the announced total, or by a delta applied to the published revision. */
  lemma StagingIsInvisible(s: State, e: Event, now: Clock)
    requires Valid(s)
    requires var r := Reduce(s, e, now); r.agents != s.agents || r.revision != s.revision
    ensures var r := Reduce(s, e, now);
      && r.staging.None? && !r.awaitingSnapshot && r.revision.Some?
      && (e.payload.Snapshot? || e.payload.Delta?)
      && (e.payload.Snapshot? ==> e.payload.part.final && |r.agents| == e.payload.part.total
                                  && r.agents == Staged(s) + e.payload.part.agents
                                  && r.revision == Some(e.payload.part.revision))
      && (e.payload.Delta? ==> s.revision == Some(e.payload.fromRevision)
                               && r.revision == Some(e.payload.toRevision))
  {
    SnapshotOrDelta(s, e, now);
    hide Valid, Ascending, ReduceSnapshot, ReduceDelta;
    match e.payload
    case Snapshot(c) => SnapshotVisible(s, c, e.size, now.ms);
    case Delta(_, _, _, _, _) => DeltaVisible(s, e.payload);
    case _ =>
  }

  lemma SnapshotOrDelta(s: State, e: Event, now: Clock)
    requires s.revision.Some? ==> IsRevision(s.revision.value)
    requires var r := Reduce(s, e, now); r.agents != s.agents || r.revision != s.revision
    ensures e.payload.Snapshot? || e.payload.Delta?
    ensures now.Finite?
    ensures e.payload.Snapshot? ==> Reduce(s, e, now) == ReduceSnapshot(s, e.payload.part, e.size, now.ms)
    ensures e.payload.Delta? ==> Reduce(s, e, now) == ReduceDelta(s, e.payload)
  {
    hide ReduceSnapshot, ReduceDelta, IsRevision;
  }

  lemma SnapshotVisible(s: State, c: Chunk, size: nat, now: real)
    requires s.revision.Some? ==> IsRevision(s.revision.value)
    requires var r := ReduceSnapshot(s, c, size, now); r.agents != s.agents || r.revision != s.revision
    ensures var r := ReduceSnapshot(s, c, size, now);
      && r.staging.None? && !r.awaitingSnapshot && r.revision == Some(c.revision)
      && c.final && |r.agents| == c.total && r.agents == Staged(s) + c.agents
  {
    hide IsSnapshotPart, Less, Continues, IsRevision;
  }

  lemma DeltaVisible(s: State, p: Payload)
    requires p.Delta? && (s.revision.Some? ==> IsRevision(s.revision.value))
    requires var r := ReduceDelta(s, p); r.agents != s.agents || r.revision != s.revision
    ensures var r := ReduceDelta(s, p);
      && r.staging.None? && !r.awaitingSnapshot
      && s.revision == Some(p.fromRevision) && r.revision == Some(p.toRevision)
  {
    hide ApplyChanges, ById, SortById, IsRevision;
  }

  // --- Replica correctness against an honest hub ---

  /** What each hub incarnation held at each revision: epoch to the rosters in revision order. */
  type Hubs = map<Str, seq<Roster>>

  /** The changes lead from one roster to another, each touched identifier by its last operation. */
  ghost predicate Leads(before: Roster, after: Roster, changes: seq<Change>) {
    && (forall i :: 0 <= i < |changes| ==>
          match changes[i]
          case Upsert(a) => a.agentId in after && after[a.agentId] == a.profile
          case Remove(id) => id !in after)
    && forall id :: (forall i :: 0 <= i < |changes| ==> ChangedId(changes[i]) != id) ==>
         (id in before <==> id in after) && (id in before ==> before[id] == after[id])
  }

  ghost predicate AtRevision(hubs: Hubs, epoch: Str, revision: Str) {
    epoch in hubs && IsRevision(revision) && Value(revision) < |hubs[epoch]|
  }

  ghost function RosterAt(hubs: Hubs, epoch: Str, revision: Str): Roster
    requires AtRevision(hubs, epoch, revision)
  {
    hubs[epoch][Value(revision)]
  }

  /** An event some honest hub sent at some time, possibly lost before or delivered again later.
      Corrupt events are allowed: they carry no claim. */
  ghost predicate Honest(hubs: Hubs, e: Event) {
    match e.payload
    case Undecodable => true
    case Reset(_) => true
    case Snapshot(c) =>
      IsSnapshotPart(c) ==>
        && AtRevision(hubs, c.epoch, c.revision)
        && c.total == |RosterAt(hubs, c.epoch, c.revision)|
        && True(c.agents, RosterAt(hubs, c.epoch, c.revision))
    case Delta(epoch, f, t, _, changes) =>
      IsRevision(f) && IsRevision(t) ==>
        && AtRevision(hubs, epoch, f) && AtRevision(hubs, epoch, t)
        && Leads(RosterAt(hubs, epoch, f), RosterAt(hubs, epoch, t), changes)
  }

  /** The published agents are the hub's roster at the published revision. */
  ghost predicate Replica(hubs: Hubs, s: State) {
    && (s.revision.Some? ==>
          && s.epoch.Some?
          && AtRevision(hubs, s.epoch.value, s.revision.value)
          && Mirrors(s.agents, RosterAt(hubs, s.epoch.value, s.revision.value)))
    && (s.staging.Some? ==>
          var c := s.staging.value.snapshot;
          && AtRevision(hubs, c.epoch, c.revision)
          && c.total == |RosterAt(hubs, c.epoch, c.revision)|
          && True(s.staging.value.agents, RosterAt(hubs, c.epoch, c.revision)))
  }

  /** Applying a leading delta to a map that mirrors the older roster gives the newer one. */
  lemma {:induction false} ChangesApplied(m: map<Str, PublicAgent>, seen: set<Str>, changes: seq<Change>, after: Roster)
    requires Keyed(m)
    requires ApplyChanges(m, seen, changes).Some?
    requires forall i :: 0 <= i < |changes| ==>
      match changes[i]
      case Upsert(a) => a.agentId in after && after[a.agentId] == a.profile
      case Remove(id) => id !in after
    requires forall id :: (forall i :: 0 <= i < |changes| ==> ChangedId(changes[i]) != id) ==>
      (id in m <==> id in after) && (id in m ==> m[id].profile == after[id])
    ensures var r := ApplyChanges(m, seen, changes).value;
      r.Keys == after.Keys && forall id :: id in r ==> r[id].profile == after[id]
    decreases |changes|
  {
    if |changes| == 0 {
      assert forall id :: id in m <==> id in after;
    } else {
      var c := changes[0];
      var next := ApplyChange(m, c);
      var rest := changes[1..];
      forall id | forall i :: 0 <= i < |rest| ==> ChangedId(rest[i]) != id
        ensures (id in next <==> id in after) && (id in next ==> next[id].profile == after[id])
      {
        if id != ChangedId(c) {
          assert forall i :: 0 <= i < |changes| ==> ChangedId(changes[i]) != id by {
            forall i | 0 <= i < |changes| ensures ChangedId(changes[i]) != id {
              if i > 0 {
                assert changes[i] == rest[i - 1];
              }
            }
          }
        }
      }
      assert forall i :: 0 <= i < |rest| ==> rest[i] == changes[i + 1];
      ChangesApplied(next, seen + {ChangedId(c)}, rest, after);
    }
  }

  lemma ReduceKeepsReplica(hubs: Hubs, s: State, e: Event, now: Clock)
    requires Valid(s) && Replica(hubs, s) && Honest(hubs, e)
    ensures Replica(hubs, Reduce(s, e, now))
  {
    if !s.reconnect && now.Finite? && e.size <= MAX_DISCOVERY_BYTES {
      match e.payload
      case Snapshot(c) =>
        SnapshotKeepsReplica(hubs, s, e, now.ms);
      case Delta(_, _, _, _, _) =>
        DeltaKeepsReplica(hubs, s, e.payload);
      case _ =>
    }
  }

  lemma SnapshotKeepsReplica(hubs: Hubs, s: State, e: Event, now: real)
    requires Valid(s) && Replica(hubs, s) && Honest(hubs, e) && e.payload.Snapshot?
    ensures Replica(hubs, ReduceSnapshot(s, e.payload.part, e.size, now))
  {
    var c := e.payload.part;
    var r := ReduceSnapshot(s, c, e.size, now);
    if r != Invalid(s) {
      var roster := RosterAt(hubs, c.epoch, c.revision);
      var previous := Staged(s);
      AscendingAppend(previous, c.agents);
      assert True(previous + c.agents, roster);
      if c.final {
        CountedIsWhole(previous + c.agents, roster);
      }
    }
  }

  /** One leading delta, applied to agents that mirror the older roster. */
  lemma DeltaMirrors(agents: seq<PublicAgent>, changes: seq<Change>, before: Roster, after: Roster)
    requires Mirrors(agents, before) && Leads(before, after, changes)
    requires ApplyChanges(ById(agents), {}, changes).Some?
    ensures Mirrors(SortById(ApplyChanges(ById(agents), {}, changes).value), after)
  {
    var m := ById(agents);
    MirrorsMap(agents, before);
    forall id | forall i :: 0 <= i < |changes| ==> ChangedId(changes[i]) != id
      ensures (id in m <==> id in after) && (id in m ==> m[id].profile == after[id])
    {
      assert (id in before <==> id in after) && (id in before ==> before[id] == after[id]);
    }
    ChangesApplied(m, {}, changes, after);
    SortMirrors(ApplyChanges(m, {}, changes).value, after);
  }

  lemma CommitKeepsReplica(hubs: Hubs, s: State, p: Payload, m: map<Str, PublicAgent>)
    requires Valid(s) && Replica(hubs, s) && p.Delta? && Keyed(m) && s.staging.None?
    requires s.epoch == Some(p.epoch) && AtRevision(hubs, p.epoch, p.toRevision)
    requires Mirrors(SortById(m), RosterAt(hubs, p.epoch, p.toRevision))
    ensures Replica(hubs, Commit(s, p, m))
  {
    if |m| > MAX_AGENTS {
      assert Commit(s, p, m) == Invalid(s);
    } else {
      var r := Commit(s, p, m);
      assert r.epoch == s.epoch && r.revision == Some(p.toRevision) && r.staging.None? && r.agents == SortById(m);
    }
  }

  lemma DeltaKeepsReplica(hubs: Hubs, s: State, p: Payload)
    requires Valid(s) && Replica(hubs, s) && p.Delta? && Honest(hubs, Event(p, 0))
    ensures Replica(hubs, ReduceDelta(s, p))
  {
    hide Ascending, ApplyChanges, ById, Mirrors, Leads, Value;
    if DeltaFits(s, p) {
      var m := ApplyChanges(ById(s.agents), {}, p.changes);
      if m.Some? {
        DeltaMirrors(s.agents, p.changes, RosterAt(hubs, p.epoch, p.fromRevision), RosterAt(hubs, p.epoch, p.toRevision));
        CommitKeepsReplica(hubs, s, p, m.value);
      }
    }
  }

  function Run(s: State, trace: seq<(Event, Clock)>): (r: State)
    requires Valid(s)
    ensures Valid(r)
    decreases |trace|
  {
    if |trace| == 0 then s
    else
      ReduceKeepsValid(s, trace[0].0, trace[0].1);
      Run(Reduce(s, trace[0].0, trace[0].1), trace[1..])
  }

  /** Replica correctness: however the honest hubs' events were dropped, repeated, reordered or mixed
      with corrupt ones, the published agents are the hub's roster at the published revision. */
  lemma {:induction false} ReplicaCorrect(hubs: Hubs, s: State, trace: seq<(Event, Clock)>)
    requires Valid(s) && Replica(hubs, s)
    requires forall i :: 0 <= i < |trace| ==> Honest(hubs, trace[i].0)
    ensures Replica(hubs, Run(s, trace))
    decreases |trace|
  {
    if |trace| != 0 {
      ReduceKeepsValid(s, trace[0].0, trace[0].1);
      ReduceKeepsReplica(hubs, s, trace[0].0, trace[0].1);
      ReplicaCorrect(hubs, Reduce(s, trace[0].0, trace[0].1), trace[1..]);
    }
  }

  /** Over a whole run the revision never decreases and the epoch never changes once set. */
  lemma {:induction false} RunMonotone(s: State, trace: seq<(Event, Clock)>)
    requires Valid(s)
    ensures Advances(s, Run(s, trace))
    decreases |trace|
  {
    if |trace| != 0 {
      ReduceKeepsValid(s, trace[0].0, trace[0].1);
      RunMonotone(Reduce(s, trace[0].0, trace[0].1), trace[1..]);
    }
  }

  // --- An undisturbed snapshot is accepted ---

  function Flatten(parts: seq<Chunk>): seq<PublicAgent> {
    if |parts| == 0 then [] else Flatten(parts[..|parts| - 1]) + parts[|parts| - 1].agents
  }

  function Charge(sizes: seq<nat>): nat {
    if |sizes| == 0 then 0 else Charge(sizes[..|sizes| - 1]) + EncodedBytes(sizes[|sizes| - 1])
  }

  /** The chunks of one capture, in order: numbered from zero, only the last one final, and none empty
      unless the whole capture is. */
  ghost predicate Chunked(parts: seq<Chunk>, agents: seq<PublicAgent>) {
    && |parts| != 0 && Ascending(agents) && Flatten(parts) == agents
    && forall i :: 0 <= i < |parts| ==>
         && IsSnapshotPart(parts[i]) && SameSnapshot(parts[0], parts[i])
         && parts[i].chunk == i && parts[i].total == |agents|
         && (parts[i].final <==> i == |parts| - 1)
         && (|parts| == 1 || |parts[i].agents| != 0)
  }

  /** Within the byte limits and the snapshot's lifetime. */
  ghost predicate Timely(sizes: seq<nat>, times: seq<real>) {
    && |sizes| == |times| && Charge(sizes) <= MAX_STAGE_BYTES
    && forall i :: 0 <= i < |sizes| ==>
         sizes[i] <= MAX_DISCOVERY_BYTES && times[0] <= times[i] < times[0] + DISCOVERY_LIFETIME_MS
  }

  function Deliveries(parts: seq<Chunk>, sizes: seq<nat>, times: seq<real>): seq<(Event, Clock)>
    requires |parts| == |sizes| == |times|
  {
    seq(|parts|, i requires 0 <= i < |parts| => (Event(Snapshot(parts[i]), sizes[i]), Finite(times[i])))
  }

  lemma {:induction false} FlattenPrefix(parts: seq<Chunk>, k: nat)
    requires k <= |parts|
    ensures Flatten(parts[..k]) <= Flatten(parts)
    decreases |parts|
  {
    if k == |parts| {
      assert parts[..k] == parts;
    } else {
      assert parts[..|parts| - 1][..k] == parts[..k];
      FlattenPrefix(parts[..|parts| - 1], k);
    }
  }

  lemma {:induction false} ChargePrefix(sizes: seq<nat>, k: nat)
    requires k <= |sizes|
    ensures Charge(sizes[..k]) <= Charge(sizes)
    decreases |sizes|
  {
    if k == |sizes| {
      assert sizes[..k] == sizes;
    } else {
      assert sizes[..|sizes| - 1][..k] == sizes[..k];
      ChargePrefix(sizes[..|sizes| - 1], k);
    }
  }

  /** The state after the first `k` chunks of an undisturbed snapshot. */
  ghost function Partway(s: State, parts: seq<Chunk>, sizes: seq<nat>, times: seq<real>, k: nat): State
    requires |parts| == |sizes| == |times| && k <= |parts| && |parts| != 0
  {
    if k == 0 then s
    else if k == |parts| then
      s.(epoch := Some(parts[0].epoch), revision := Some(parts[0].revision), agents := Flatten(parts),
         staging := None, status := Synchronizing, awaitingSnapshot := false)
    else
      s.(epoch := Some(parts[0].epoch), status := Synchronizing,
         staging := Some(Staging(parts[k - 1], Flatten(parts[..k]), k, Charge(sizes[..k]), times[0])))
  }

  lemma ChunkAccepted(s: State, parts: seq<Chunk>, agents: seq<PublicAgent>, sizes: seq<nat>, times: seq<real>, k: nat)
    requires Valid(s) && !s.reconnect && s.awaitingSnapshot && s.staging.None?
    requires Chunked(parts, agents) && |parts| == |sizes| && Timely(sizes, times) && k < |parts|
    requires s.epoch.Some? ==> s.epoch.value == parts[0].epoch
    requires s.revision.Some? ==> Value(s.revision.value) <= Value(parts[0].revision)
    ensures ReduceSnapshot(Partway(s, parts, sizes, times, k), parts[k], sizes[k], times[k])
            == Partway(s, parts, sizes, times, k + 1)
  {
    var c, at := parts[k], Partway(s, parts, sizes, times, k);
    var previous := Flatten(parts[..k]);
    NextChunk(parts, agents, k);
    NextCharge(sizes, k);
    Joins(parts, agents, k);
    ChunkContinues(s, parts, agents, sizes, times, k);
    assert IsSnapshotPart(c) && c.total == |agents| && (c.final <==> k + 1 == |parts|) && c.chunk == k;
    assert |parts| > 1 ==> |c.agents| != 0;
    assert c.epoch == parts[0].epoch && c.revision == parts[0].revision;
    assert Charge(sizes) <= MAX_STAGE_BYTES;
    assert k != 0 ==> at.staging.Some? && at.staging.value.startedAt == times[0];
    assert Flatten(parts) == agents && parts[..|parts|] == parts;
    hide Valid, Chunked, Timely, IsSnapshotPart, Continues, Flatten, Charge, Less;
    assert k == 0 ==> previous == [] by { NoChunks(parts, sizes); }
    assert k == 0 ==> Charge(sizes[..k]) == 0 by { NoChunks(parts, sizes); }
  }

  lemma NoChunks(parts: seq<Chunk>, sizes: seq<nat>)
    ensures Flatten(parts[..0]) == [] && Charge(sizes[..0]) == 0
  {
  }

  /** One more chunk of a capture: what is staged grows by it and stays a proper part until the last. */
  lemma NextChunk(parts: seq<Chunk>, agents: seq<PublicAgent>, k: nat)
    requires Chunked(parts, agents) && k < |parts|
    ensures Flatten(parts[..k + 1]) == Flatten(parts[..k]) + parts[k].agents
    ensures Flatten(parts[..k + 1]) <= agents
    ensures k + 1 < |parts| ==> |Flatten(parts[..k + 1])| < |agents|
  {
    hide IsSnapshotPart, Ascending, SameSnapshot;
    assert parts[..k + 1][..k] == parts[..k];
    FlattenPrefix(parts, k + 1);
    if k + 1 < |parts| {
      assert parts[..k + 2][..k + 1] == parts[..k + 1];
      FlattenPrefix(parts, k + 2);
      assert Flatten(parts[..k + 2]) == Flatten(parts[..k + 1]) + parts[k + 1].agents;
      assert |parts[k + 1].agents| != 0;
    }
  }

  lemma NextCharge(sizes: seq<nat>, k: nat)
    requires k < |sizes|
    ensures Charge(sizes[..k + 1]) == Charge(sizes[..k]) + EncodedBytes(sizes[k]) && Charge(sizes[..k + 1]) <= Charge(sizes)
  {
    assert sizes[..k + 1][..k] == sizes[..k];
    ChargePrefix(sizes, k + 1);
  }

  /** Neighbouring chunks join in ascending order. */
  lemma Joins(parts: seq<Chunk>, agents: seq<PublicAgent>, k: nat)
    requires Chunked(parts, agents) && k < |parts|
    ensures var previous := Flatten(parts[..k]);
      |previous| != 0 && |parts[k].agents| != 0 ==> Less(previous[|previous| - 1].agentId, parts[k].agents[0].agentId)
  {
    NextChunk(parts, agents, k);
    hide IsSnapshotPart, SameSnapshot, Flatten, Less;
    var previous, c := Flatten(parts[..k]), parts[k];
    if |previous| != 0 && |c.agents| != 0 {
      var n := |previous|;
      assert (previous + c.agents)[n - 1] == previous[n - 1] && (previous + c.agents)[n] == c.agents[0];
      assert agents[n - 1] == previous[n - 1] && agents[n] == c.agents[0];
      assert Less(agents[n - 1].agentId, agents[n].agentId);
    }
  }

  lemma ChunkContinues(s: State, parts: seq<Chunk>, agents: seq<PublicAgent>, sizes: seq<nat>, times: seq<real>, k: nat)
    requires Valid(s) && !s.reconnect && s.awaitingSnapshot && s.staging.None?
    requires Chunked(parts, agents) && |parts| == |sizes| && Timely(sizes, times) && k < |parts|
    requires s.epoch.Some? ==> s.epoch.value == parts[0].epoch
    requires s.revision.Some? ==> Value(s.revision.value) <= Value(parts[0].revision)
    ensures IsSnapshotPart(parts[k]) && Continues(Partway(s, parts, sizes, times, k), parts[k], times[k])
  {
    hide Ascending, Flatten, Charge, Value, EncodedBytes;
    assert SameSnapshot(parts[0], parts[k]);
    assert k > 0 ==> SameSnapshot(parts[0], parts[k - 1]) && parts[k - 1].chunk == k - 1;
    assert times[0] <= times[k] < times[0] + DISCOVERY_LIFETIME_MS;
  }

  lemma {:induction false} SnapshotRemainder(s: State, parts: seq<Chunk>, agents: seq<PublicAgent>, sizes: seq<nat>, times: seq<real>, k: nat)
    requires Valid(s) && !s.reconnect && s.awaitingSnapshot && s.staging.None?
    requires Chunked(parts, agents) && |parts| == |sizes| && Timely(sizes, times) && k <= |parts|
    requires s.epoch.Some? ==> s.epoch.value == parts[0].epoch
    requires s.revision.Some? ==> Value(s.revision.value) <= Value(parts[0].revision)
    requires Valid(Partway(s, parts, sizes, times, k))
    ensures Run(Partway(s, parts, sizes, times, k), Deliveries(parts, sizes, times)[k..])
            == Partway(s, parts, sizes, times, |parts|)
    decreases |parts| - k
  {
    var trace := Deliveries(parts, sizes, times);
    if k < |parts| {
      var at := Partway(s, parts, sizes, times, k);
      ChunkAccepted(s, parts, agents, sizes, times, k);
      assert trace[k..][0] == (Event(Snapshot(parts[k]), sizes[k]), Finite(times[k]));
      assert trace[k..][1..] == trace[k + 1..];
      assert Reduce(at, trace[k].0, trace[k].1) == Partway(s, parts, sizes, times, k + 1);
      ReduceKeepsValid(at, trace[k].0, trace[k].1);
      SnapshotRemainder(s, parts, agents, sizes, times, k + 1);
    }
  }

  /** Every undisturbed capture of at most 5000 agents, cut anywhere, is published whole. */
  lemma SnapshotCommits(s: State, parts: seq<Chunk>, agents: seq<PublicAgent>, sizes: seq<nat>, times: seq<real>)
    requires Valid(s) && !s.reconnect && s.awaitingSnapshot && s.staging.None?
    requires Chunked(parts, agents) && |parts| == |sizes| && Timely(sizes, times)
    requires s.epoch.Some? ==> s.epoch.value == parts[0].epoch
    requires s.revision.Some? ==> Value(s.revision.value) <= Value(parts[0].revision)
    ensures var r := Run(s, Deliveries(parts, sizes, times));
      && r.agents == agents && r.revision == Some(parts[0].revision) && r.epoch == Some(parts[0].epoch)
      && r.status == Synchronizing && r.staging == None && !r.reconnect && !r.awaitingSnapshot
  {
    assert Deliveries(parts, sizes, times)[0..] == Deliveries(parts, sizes, times);
    SnapshotRemainder(s, parts, agents, sizes, times, 0);
  }

  /** The changes apply exactly when no identifier repeats. */
  lemma {:induction false} DistinctChangesApply(m: map<Str, PublicAgent>, seen: set<Str>, changes: seq<Change>)
    requires Keyed(m)
    ensures ApplyChanges(m, seen, changes).Some? <==>
            && (forall i :: 0 <= i < |changes| ==> ChangedId(changes[i]) !in seen)
            && (forall i, j :: 0 <= i < j < |changes| ==> ChangedId(changes[i]) != ChangedId(changes[j]))
    decreases |changes|
  {
    if |changes| != 0 {
      var id, rest := ChangedId(changes[0]), changes[1..];
      var next := seen + {id};
      if id !in seen {
        DistinctChangesApply(ApplyChange(m, changes[0]), next, rest);
        if ApplyChanges(m, seen, changes).Some? {
          forall i | 0 <= i < |changes| ensures ChangedId(changes[i]) !in seen {
            if i > 0 {
              assert ChangedId(rest[i - 1]) !in next;
            }
          }
          forall i, j | 0 <= i < j < |changes| ensures ChangedId(changes[i]) != ChangedId(changes[j]) {
            assert ChangedId(rest[j - 1]) !in next;
            if i > 0 {
              assert ChangedId(rest[i - 1]) != ChangedId(rest[j - 1]);
            }
          }
        }
      }
    }
  }

  /** An honest delta that continues the published revision is never refused, and its commit publishes
      the hub's newer roster. */
  lemma DeltaTracks(hubs: Hubs, s: State, p: Payload, size: nat, now: real)
    requires Valid(s) && Replica(hubs, s) && !s.reconnect && size <= MAX_DISCOVERY_BYTES
    requires p.Delta? && DeltaFits(s, p) && Honest(hubs, Event(p, size))
    requires forall i, j :: 0 <= i < j < |p.changes| ==> ChangedId(p.changes[i]) != ChangedId(p.changes[j])
    requires |RosterAt(hubs, p.epoch, p.toRevision)| <= MAX_AGENTS
    ensures var r := Reduce(s, Event(p, size), Finite(now));
      && !r.reconnect && r.revision == Some(p.toRevision)
      && Mirrors(r.agents, RosterAt(hubs, p.epoch, p.toRevision))
      && r.status == if p.caughtUp then Current else Synchronizing
  {
    hide ApplyChanges, ById, Leads, Value, Ascending;
    var m := ById(s.agents);
    var after := RosterAt(hubs, p.epoch, p.toRevision);
    DistinctChangesApply(m, {}, p.changes);
    DeltaMirrors(s.agents, p.changes, RosterAt(hubs, p.epoch, p.fromRevision), after);
    var next := ApplyChanges(m, {}, p.changes).value;
    MirrorsSize(SortById(next), after);
    assert Reduce(s, Event(p, size), Finite(now)) == Commit(s, p, next);
  }

  /** The theorem for a new connection. */
  lemma FreshReplicaCorrect(hubs: Hubs, trace: seq<(Event, Clock)>)
    requires forall i :: 0 <= i < |trace| ==> Honest(hubs, trace[i].0)
    ensures var r := Run(INITIAL, trace);
      && Valid(r)
      && (r.revision.Some? ==>
            && r.epoch.Some? && AtRevision(hubs, r.epoch.value, r.revision.value)
            && Mirrors(r.agents, RosterAt(hubs, r.epoch.value, r.revision.value)))
  {
    ReplicaCorrect(hubs, INITIAL, trace);
  }
}
