/** Completion values (extension/commands.ts) and the target they resolve to (extension/protocol.ts). */
module Completion {
  import opened Strings
  import opened SendKinds
  import opened Utf8
  import opened Whitespace
  import opened Prefixes
  import opened Tell

  datatype Agent = Agent(agentId: Str, host: Str, title: Str)

  function Ids(agents: seq<Agent>): seq<Str> {
    seq(|agents|, i requires 0 <= i < |agents| => agents[i].agentId)
  }

  function Where(agents: seq<Agent>, keep: Agent -> bool): seq<Agent> {
    if |agents| == 0 then [] else (if keep(agents[0]) then [agents[0]] else []) + Where(agents[1..], keep)
  }

  predicate Includes(s: Str, needle: Str) {
    StartsWith(s, needle) || (|s| != 0 && Includes(s[1..], needle))
  }

  datatype Problem = EmptyTarget | SelfTarget | AmbiguousId | AmbiguousPrefix | AmbiguousHost | AmbiguousLabel | NoMatch

  datatype Resolution = Found(agent: Agent) | Unresolved(problem: Problem, candidates: seq<Agent>)

  /** The first tier with a candidate decides. */
  function Tier(candidates: seq<Agent>, ambiguous: Problem, otherwise: Resolution): Resolution {
    if |candidates| == 1 then Found(candidates[0])
    else if |candidates| > 1 then Unresolved(ambiguous, candidates)
    else otherwise
  }

  predicate HasPrefix(a: Agent, q: Str, lower: Str -> Str) {
    StartsWith(lower(a.agentId), lower(q))
  }

  function ResolveTarget(query: Str, agents: seq<Agent>, selfId: Str, lower: Str -> Str): Resolution {
    var q := Trim(query);
    var pool := Where(agents, (a: Agent) => a.agentId != selfId);
    if |q| == 0 then Unresolved(EmptyTarget, [])
    else if lower(q) == lower(selfId) then Unresolved(SelfTarget, [])
    else
      var labels := Tier(Where(pool, (a: Agent) => Includes(lower(a.title), lower(q))), AmbiguousLabel, Unresolved(NoMatch, []));
      var hosts := Tier(Where(pool, (a: Agent) => a.host == q), AmbiguousHost, labels);
      var prefixes := if |q| < MIN_PREFIX then hosts
                      else Tier(Where(pool, (a: Agent) => HasPrefix(a, q, lower)), AmbiguousPrefix, hosts);
      Tier(Where(pool, (a: Agent) => a.agentId == q), AmbiguousId, prefixes)
  }

  datatype Item = Item(value: Str, agent: Agent)

  predicate Offered(q: Str, a: Agent, lower: Str -> Str) {
    |q| == 0 || StartsWith(lower(a.agentId), q) || StartsWith(lower(a.host), q) || Includes(lower(a.title), q)
  }

  /** The agents offered, in the order of the population: every match but oneself. */
  function OfferedTo(q: Str, agents: seq<Agent>, selfId: Str, lower: Str -> Str): (offered: seq<Agent>)
    ensures forall a :: a in offered <==> a in agents && a.agentId != selfId && Offered(q, a, lower)
  {
    if |agents| == 0 then []
    else
      var n := |agents| - 1;
      assert agents == agents[..n] + [agents[n]];
      OfferedTo(q, agents[..n], selfId, lower)
      + (if agents[n].agentId != selfId && Offered(q, agents[n], lower) then [agents[n]] else [])
  }

  /** The items offered for what was typed: one for every agent offered, in order, with its shortest unique prefix. */
  method CompletionItems(prefix: Str, agents: seq<Agent>, selfId: Str, lower: Str -> Str) returns (items: seq<Item>)
    requires forall i :: 0 <= i < |agents| ==> |agents[i].agentId| <= |lower(agents[i].agentId)|
    ensures var offered := OfferedTo(lower(Trim(prefix)), agents, selfId, lower);
      && |items| == |offered|
      && forall k :: 0 <= k < |items| ==>
           items[k] == Item(ShortestUniquePrefix(offered[k].agentId, Ids(agents), lower), offered[k])
  {
    hide ShortestUniquePrefix, Offered, Trim;
    var q := lower(Trim(prefix));
    var prefixes := UniquePrefixes(Ids(agents), lower);
    items := [];
    var i := 0;
    while i < |agents|
      invariant 0 <= i <= |agents| && |items| == |OfferedTo(q, agents[..i], selfId, lower)|
      invariant var offered := OfferedTo(q, agents[..i], selfId, lower);
        forall k :: 0 <= k < |items| ==>
          items[k] == Item(ShortestUniquePrefix(offered[k].agentId, Ids(agents), lower), offered[k])
    {
      var a := agents[i];
      assert agents[..i + 1][..i] == agents[..i] && agents[..i + 1][i] == a;
      if a.agentId != selfId && Offered(q, a, lower) {
        assert Ids(agents)[i] == a.agentId;
        items := items + [Item(prefixes[a.agentId], a)];
      }
      i := i + 1;
    }
    assert agents[..|agents|] == agents;
  }

  // --- Case ---

  function AsciiLower(s: Str): (r: Str)
    ensures |r| == |s|
  {
    seq(|s|, i requires 0 <= i < |s| => if 65 <= s[i] <= 90 then s[i] + 32 else s[i])
  }

  /** What the proofs need of `toLowerCase`: on ASCII it is the usual mapping. */
  ghost predicate LowersAscii(lower: Str -> Str) {
    forall s: Str :: IsAscii(s) ==> lower(s) == AsciiLower(s)
  }

  /** Identifiers that stay distinct when case is ignored. */
  ghost predicate DistinctIds(agents: seq<Agent>, lower: Str -> Str) {
    && (forall i :: 0 <= i < |agents| ==> IsUuid(agents[i].agentId))
    && (forall i, j :: 0 <= i < j < |agents| ==> lower(agents[i].agentId) != lower(agents[j].agentId))
  }

  lemma UuidAscii(id: Str)
    requires IsUuid(id)
    ensures IsAscii(id) && forall i :: 0 <= i < |id| ==> !Space(id[i]) && id[i] != QUOTE
    ensures id[0] != DASH
  {
  }

  // --- The value offered ---

  /** Identifiers as a snapshot has them: distinct as they are written. */
  ghost predicate ExactIds(agents: seq<Agent>) {
    && (forall i :: 0 <= i < |agents| ==> IsUuid(agents[i].agentId))
    && (forall i, j :: 0 <= i < j < |agents| ==> agents[i].agentId != agents[j].agentId)
  }

  /** A completion value is a prefix of at least eight units that no id spelled otherwise starts with. */
  lemma ValueExcludes(agents: seq<Agent>, i: nat, lower: Str -> Str) returns (n: nat)
    requires LowersAscii(lower) && i < |agents| && forall j :: 0 <= j < |agents| ==> IsUuid(agents[j].agentId)
    ensures MIN_PREFIX <= n <= 36 == |agents[i].agentId| == |lower(agents[i].agentId)|
    ensures ShortestUniquePrefix(agents[i].agentId, Ids(agents), lower) == agents[i].agentId[..n]
    ensures forall j :: 0 <= j < |agents| && lower(agents[j].agentId) != lower(agents[i].agentId) ==>
              !StartsWith(lower(agents[j].agentId), lower(agents[i].agentId)[..n])
  {
    var agentId := agents[i].agentId;
    UuidAscii(agentId);
    var id, all := lower(agentId), Lowered(Ids(agents), lower);
    LoweredAre(Ids(agents), lower);
    assert |id| == 36;
    forall j | 0 <= j < |agents| ensures all[j] == lower(agents[j].agentId) && |all[j]| == 36 {
      UuidAscii(agents[j].agentId);
    }
    hide IsUuid, Lowered, AsciiLower, LowersAscii;
    SearchIsLeast(id, all, MIN_PREFIX);
    hide SearchFrom;
    n := SearchFrom(id, all, MIN_PREFIX);
    WholeIdIsUnique(id, all);
    assert n <= 36;
    forall j | 0 <= j < |agents| && lower(agents[j].agentId) != id ensures !StartsWith(lower(agents[j].agentId), id[..n]) {
      assert all[j] != id;
    }
  }

  /** A completion value is a prefix of at least eight units that no other agent's id starts with. */
  lemma ValueIsUnique(agents: seq<Agent>, i: nat, lower: Str -> Str) returns (n: nat)
    requires LowersAscii(lower) && DistinctIds(agents, lower) && i < |agents|
    ensures MIN_PREFIX <= n <= 36
    ensures ShortestUniquePrefix(agents[i].agentId, Ids(agents), lower) == agents[i].agentId[..n]
    ensures forall j :: 0 <= j < |agents| && j != i ==> !StartsWith(lower(agents[j].agentId), lower(agents[i].agentId)[..n])
  {
    hide IsUuid, LowersAscii, ShortestUniquePrefix, StartsWith;
    n := ValueExcludes(agents, i, lower);
  }

  lemma WholeIdIsUnique(id: Str, all: seq<Str>)
    requires |id| == 36 && forall j :: 0 <= j < |all| ==> |all[j]| == 36
    ensures !Shared(id, all, 36)
  {
    forall j | 0 <= j < |all| && StartsWith(all[j], id[..36]) ensures all[j] == id {
      assert all[j][..36] == all[j] && id[..36] == id;
    }
  }

  // --- Resolution ---

  lemma {:induction false} WhereNone(agents: seq<Agent>, keep: Agent -> bool)
    requires forall i :: 0 <= i < |agents| ==> !keep(agents[i])
    ensures Where(agents, keep) == []
  {
    if |agents| != 0 {
      WhereNone(agents[1..], keep);
    }
  }

  lemma {:induction false} WhereOne(agents: seq<Agent>, keep: Agent -> bool, i: nat)
    requires i < |agents| && forall j :: 0 <= j < |agents| ==> (keep(agents[j]) <==> j == i)
    ensures Where(agents, keep) == [agents[i]]
  {
    if i == 0 {
      WhereNone(agents[1..], keep);
    } else {
      assert !keep(agents[0]);
      WhereOne(agents[1..], keep, i - 1);
    }
  }

  lemma {:induction false} WhereTwice(agents: seq<Agent>, first: Agent -> bool, second: Agent -> bool, both: Agent -> bool)
    requires forall a :: both(a) <==> first(a) && second(a)
    ensures Where(Where(agents, first), second) == Where(agents, both)
  {
    if |agents| != 0 {
      WhereTwice(agents[1..], first, second, both);
      var rest := Where(agents[1..], first);
      if first(agents[0]) {
        var all := [agents[0]] + rest;
        assert Where(agents, first) == all && all[0] == agents[0] && all[1..] == rest;
      } else {
        assert Where(agents, first) == rest;
      }
    }
  }

  lemma {:induction false} TrimIdle(s: Str)
    requires |s| != 0 && forall i :: 0 <= i < |s| ==> !Space(s[i])
    ensures Trim(s) == s
  {
  }

  lemma LowerPrefix(id: Str, n: nat, lower: Str -> Str)
    requires LowersAscii(lower) && IsAscii(id) && n <= |id|
    ensures lower(id[..n]) == lower(id)[..n] && |lower(id)| == |id|
  {
    assert IsAscii(id[..n]);
    assert AsciiLower(id[..n]) == AsciiLower(id)[..n];
  }

  lemma PoolFinds(agents: seq<Agent>, selfId: Str, keep: Agent -> bool, i: nat)
    requires i < |agents| && agents[i].agentId != selfId
    requires forall j :: 0 <= j < |agents| ==> (keep(agents[j]) <==> j == i)
    ensures Where(Where(agents, (a: Agent) => a.agentId != selfId), keep) == [agents[i]]
  {
    var other := (a: Agent) => a.agentId != selfId;
    var both := (a: Agent) => other(a) && keep(a);
    WhereTwice(agents, other, keep, both);
    WhereOne(agents, both, i);
  }

  lemma PoolMisses(agents: seq<Agent>, selfId: Str, keep: Agent -> bool)
    requires forall j :: 0 <= j < |agents| ==> !keep(agents[j])
    ensures Where(Where(agents, (a: Agent) => a.agentId != selfId), keep) == []
  {
    var other := (a: Agent) => a.agentId != selfId;
    var both := (a: Agent) => other(a) && keep(a);
    WhereTwice(agents, other, keep, both);
    WhereNone(agents, both);
  }

  lemma SameIdSameAgent(agents: seq<Agent>, i: nat, j: nat, lower: Str -> Str)
    requires DistinctIds(agents, lower) && i < |agents| && j < |agents|
    ensures agents[i].agentId == agents[j].agentId <==> i == j
  {
    hide IsUuid;
  }

  /** A unique prefix of one agent's id resolves to that agent. */
  lemma UniquePrefixResolves(agents: seq<Agent>, i: nat, n: nat, selfId: Str, lower: Str -> Str)
    requires LowersAscii(lower) && DistinctIds(agents, lower) && IsUuid(selfId)
    requires i < |agents| && lower(agents[i].agentId) != lower(selfId) && MIN_PREFIX <= n <= 36
    requires forall j :: 0 <= j < |agents| && j != i ==> !StartsWith(lower(agents[j].agentId), lower(agents[i].agentId)[..n])
    ensures ResolveTarget(agents[i].agentId[..n], agents, selfId, lower) == Found(agents[i])
  {
    var id := agents[i].agentId;
    var q := id[..n];
    UuidAscii(id);
    UuidAscii(selfId);
    TrimIdle(q);
    LowerPrefix(id, n, lower);
    LowerPrefix(selfId, 36, lower);
    if n == 36 {
      assert q == id;
      forall j | 0 <= j < |agents| && agents[j].agentId == q ensures j == i {
        SameIdSameAgent(agents, i, j, lower);
      }
      PoolFinds(agents, selfId, (a: Agent) => a.agentId == q, i);
    } else {
      forall j | 0 <= j < |agents| ensures agents[j].agentId != q {
        assert IsUuid(agents[j].agentId);
      }
      PoolMisses(agents, selfId, (a: Agent) => a.agentId == q);
      PoolFinds(agents, selfId, (a: Agent) => HasPrefix(a, q, lower), i);
    }
  }

  /** Every completion value, typed with any delivery flag before it and any body after it, is parsed as that target
      and resolves to exactly the agent it was offered for. */
  lemma CompletionRoundTrip(agents: seq<Agent>, i: nat, selfId: Str, lower: Str -> Str, kind: Kind, body: Str)
    requires LowersAscii(lower) && DistinctIds(agents, lower) && IsUuid(selfId)
    requires i < |agents| && lower(agents[i].agentId) != lower(selfId)
    requires |Trim(TrimStart(body))| != 0 && Utf8Length(TrimStart(body)) <= MAX_BODY_BYTES
    ensures var value := ShortestUniquePrefix(agents[i].agentId, Ids(agents), lower);
      && Meaning(KindPrefix(kind) + (value + [BLANK] + body)) == Parsed(kind, value, TrimStart(body))
      && ResolveTarget(value, agents, selfId, lower) == Found(agents[i])
  {
    hide ShortestUniquePrefix, LowersAscii, DistinctIds, ResolveTarget, Meaning, KindPrefix, IsUuid, Trim, Utf8Length;
    var n := ValueIsUnique(agents, i, lower);
    IdIsUuid(agents, i, lower);
    var value := agents[i].agentId[..n];
    UniquePrefixResolves(agents, i, n, selfId, lower);
    PrefixWordlike(agents[i].agentId, n);
    hide Wordlike;
    TypedLine(kind, value, body);
  }

  lemma {:induction false} WhereKeeps(agents: seq<Agent>, keep: Agent -> bool, i: nat)
    requires i < |agents| && keep(agents[i])
    ensures agents[i] in Where(agents, keep)
  {
    if i != 0 {
      WhereKeeps(agents[1..], keep, i - 1);
    }
  }

  /** Two agents a query keeps leave at least two candidates. */
  lemma PoolIsAmbiguous(agents: seq<Agent>, selfId: Str, keep: Agent -> bool, i: nat, j: nat)
    requires i < |agents| && j < |agents| && agents[i].agentId != agents[j].agentId && keep(agents[i]) && keep(agents[j])
    requires agents[i].agentId != selfId && agents[j].agentId != selfId
    ensures |Where(Where(agents, (a: Agent) => a.agentId != selfId), keep)| >= 2
  {
    var other := (a: Agent) => a.agentId != selfId;
    var both := (a: Agent) => other(a) && keep(a);
    WhereTwice(agents, other, keep, both);
    WhereKeeps(agents, both, i);
    WhereKeeps(agents, both, j);
  }

  /** The exact condition, for identifiers that are only distinct as written: a completion value resolves to its agent
      if and only if no other agent's id is the same when case is ignored, or the value is the whole identifier. */
  lemma ResolvesIffDistinct(agents: seq<Agent>, i: nat, selfId: Str, lower: Str -> Str)
    requires LowersAscii(lower) && ExactIds(agents) && IsUuid(selfId)
    requires i < |agents| && lower(agents[i].agentId) != lower(selfId)
    ensures var value := ShortestUniquePrefix(agents[i].agentId, Ids(agents), lower);
      ResolveTarget(value, agents, selfId, lower) == Found(agents[i]) <==>
        |value| == 36 || forall j :: 0 <= j < |agents| && j != i ==> lower(agents[j].agentId) != lower(agents[i].agentId)
  {
    var id := agents[i].agentId;
    var n := ValueExcludes(agents, i, lower);
    var q := id[..n];
    QueryIs(agents, i, n, selfId, lower);
    hide ShortestUniquePrefix, LowersAscii, IsUuid, Space, Trim;
    if n == 36 {
      PoolFinds(agents, selfId, (a: Agent) => a.agentId == q, i);
    } else {
      PoolMisses(agents, selfId, (a: Agent) => a.agentId == q);
      var keep := (a: Agent) => HasPrefix(a, q, lower);
      if j :| 0 <= j < |agents| && j != i && lower(agents[j].agentId) == lower(id) {
        PoolIsAmbiguous(agents, selfId, keep, i, j);
      } else {
        PoolFinds(agents, selfId, keep, i);
      }
    }
  }

  /** An identifier of one letter throughout. */
  function OneLetter(letter: Unit): (id: Str)
    requires HexDigit(letter)
    ensures IsUuid(id)
  {
    seq(36, i requires 0 <= i < 36 => if i in {8, 13, 18, 23} then 45 else letter)
  }

  /** A failing input: two agents whose identifiers differ only in case are offered the same eight units, and these
      resolve to neither. */
  lemma CaseTwinsFail(selfId: Str, lower: Str -> Str)
    requires LowersAscii(lower) && IsUuid(selfId) && lower(selfId) != lower(OneLetter(97))
    ensures var twins := [Agent(OneLetter(97), [], []), Agent(OneLetter(65), [], [])];
      forall i :: 0 <= i < 2 ==>
        var value := ShortestUniquePrefix(twins[i].agentId, Ids(twins), lower);
        |value| == MIN_PREFIX && ResolveTarget(value, twins, selfId, lower) != Found(twins[i])
  {
    var small, big := OneLetter(97), OneLetter(65);
    var twins := [Agent(small, [], []), Agent(big, [], [])];
    UuidAscii(small);
    UuidAscii(big);
    assert AsciiLower(small) == AsciiLower(big);
    assert lower(small) == lower(big) && small[0] != big[0];
    forall i | 0 <= i < 2
      ensures |ShortestUniquePrefix(twins[i].agentId, Ids(twins), lower)| == MIN_PREFIX
    {
      TwinPrefix(twins, i, lower);
    }
    assert ExactIds(twins);
    hide ShortestUniquePrefix, ResolveTarget, LowersAscii, AsciiLower, IsUuid, OneLetter;
    forall i | 0 <= i < 2
      ensures ResolveTarget(ShortestUniquePrefix(twins[i].agentId, Ids(twins), lower), twins, selfId, lower) != Found(twins[i])
    {
      ResolvesIffDistinct(twins, i, selfId, lower);
      assert lower(twins[1 - i].agentId) == lower(twins[i].agentId);
    }
  }

  /** With no other spelling about, eight units are unique. */
  lemma TwinPrefix(agents: seq<Agent>, i: nat, lower: Str -> Str)
    requires i < |agents| && |agents[i].agentId| == |lower(agents[i].agentId)| == 36
    requires forall j :: 0 <= j < |agents| ==> lower(agents[j].agentId) == lower(agents[i].agentId)
    ensures |ShortestUniquePrefix(agents[i].agentId, Ids(agents), lower)| == MIN_PREFIX
  {
    var id, all := lower(agents[i].agentId), Lowered(Ids(agents), lower);
    LoweredAre(Ids(agents), lower);
    assert forall j :: 0 <= j < |all| ==> all[j] == lower(agents[j].agentId);
    assert !Shared(id, all, MIN_PREFIX);
  }

  /** What a prefix of an agent's identifier is as a query. */
  lemma QueryIs(agents: seq<Agent>, i: nat, n: nat, selfId: Str, lower: Str -> Str)
    requires LowersAscii(lower) && ExactIds(agents) && IsUuid(selfId) && i < |agents| && MIN_PREFIX <= n <= 36
    ensures var q := agents[i].agentId[..n];
      && |agents[i].agentId| == 36 && Trim(q) == q && lower(q) == lower(agents[i].agentId)[..n]
      && |lower(agents[i].agentId)| == 36 && |lower(selfId)| == 36 && |lower(q)| == n
      && (n == 36 ==> q == agents[i].agentId)
      && (forall j :: 0 <= j < |agents| ==> (agents[j].agentId == q <==> n == 36 && j == i))
  {
    var id := agents[i].agentId;
    UuidAscii(id);
    UuidAscii(selfId);
    TrimIdle(id[..n]);
    LowerPrefix(id, n, lower);
    LowerPrefix(selfId, 36, lower);
    forall j | 0 <= j < |agents| ensures agents[j].agentId == id[..n] <==> n == 36 && j == i {
      assert IsUuid(agents[j].agentId);
    }
  }

  lemma IdIsUuid(agents: seq<Agent>, i: nat, lower: Str -> Str)
    requires DistinctIds(agents, lower) && i < |agents|
    ensures IsUuid(agents[i].agentId) && |agents[i].agentId| == 36
  {
  }

  lemma PrefixWordlike(id: Str, n: nat)
    requires IsUuid(id) && 0 < n <= 36
    ensures Wordlike(id[..n])
  {
    UuidAscii(id);
    hide IsUuid, Space;
    var value := id[..n];
    assert forall k :: 0 <= k < n ==> value[k] == id[k];
  }

  predicate Wordlike(value: Str) {
    |value| != 0 && value[0] != DASH && forall k :: 0 <= k < |value| ==> !Space(value[k]) && value[k] != QUOTE
  }

  lemma UnquotedTarget(value: Str, body: Str)
    requires Wordlike(value)
    ensures ReadTarget(value + ([BLANK] + body)) == Target(value, [BLANK] + body)
  {
    BlankIsSpace();
    var rest := value + ([BLANK] + body);
    hide Space;
    WordStops(value, [BLANK] + body);
    hide Word;
    assert rest[..1][0] == value[0];
    assert rest[|value|..] == [BLANK] + body;
  }

  lemma TypedLine(kind: Kind, value: Str, body: Str)
    requires Wordlike(value)
    requires |Trim(TrimStart(body))| != 0 && Utf8Length(TrimStart(body)) <= MAX_BODY_BYTES
    ensures Meaning(KindPrefix(kind) + (value + [BLANK] + body)) == Parsed(kind, value, TrimStart(body))
  {
    hide Utf8Length, Trim, ReadFlags, KindPrefix, ReadTarget, TrimStart, Space;
    var rest := value + ([BLANK] + body);
    assert value + [BLANK] + body == rest;
    SpaceTrimmed(body);
    PlainWord(value, rest);
    LineFlags(kind, rest);
    UnquotedTarget(value, body);
    hide Wordlike;
  }

  lemma SpaceTrimmed(body: Str)
    ensures TrimStart([BLANK] + body) == TrimStart(body)
  {
    BlankIsSpace();
    assert ([BLANK] + body)[1..] == body;
  }

  lemma PlainWord(value: Str, rest: Str)
    requires Wordlike(value) && |rest| != 0 && rest[0] == value[0]
    ensures Plain(rest)
  {
    hide Space;
    assert !Space(value[0]);
  }
}
