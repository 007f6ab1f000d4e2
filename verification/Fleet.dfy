/** Public agent records, their order by exact identifier, and the fleets they describe. */
module Fleet {
  import opened Strings

  /** A public record. `profile` stands for every field except the identifier and the wall-clock
      time of the last heartbeat, which the hub refreshes without a new revision. */
  datatype PublicAgent = PublicAgent(agentId: Str, profile: Str, updatedAt: nat)

  /** The hub's routing-relevant state at one revision: identifier to profile. */
  type Roster = map<Str, Str>

  /** Strictly ascending by identifier: the order a snapshot, a page and a published list have. */
  predicate Ascending(agents: seq<PublicAgent>) {
    forall i :: 0 < i < |agents| ==> Less(agents[i - 1].agentId, agents[i].agentId)
  }

  lemma {:induction false} AscendingPairs(agents: seq<PublicAgent>, i: nat, j: nat)
    requires Ascending(agents) && i < j < |agents|
    ensures Less(agents[i].agentId, agents[j].agentId)
    decreases j
  {
    if i < j - 1 {
      AscendingPairs(agents, i, j - 1);
      LessTransitive(agents[i].agentId, agents[j - 1].agentId, agents[j].agentId);
    }
  }

  lemma AscendingDistinct(agents: seq<PublicAgent>, i: nat, j: nat)
    requires Ascending(agents) && i < |agents| && j < |agents| && agents[i].agentId == agents[j].agentId
    ensures i == j
  {
    if i < j {
      AscendingPairs(agents, i, j);
      LessAsymmetric(agents[i].agentId, agents[j].agentId);
    } else if j < i {
      AscendingPairs(agents, j, i);
      LessAsymmetric(agents[j].agentId, agents[i].agentId);
    }
  }

  lemma AscendingAppend(a: seq<PublicAgent>, b: seq<PublicAgent>)
    requires Ascending(a) && Ascending(b)
    requires |a| != 0 && |b| != 0 ==> Less(a[|a| - 1].agentId, b[0].agentId)
    ensures Ascending(a + b)
  {
    var s := a + b;
    forall i | 0 < i < |s| ensures Less(s[i - 1].agentId, s[i].agentId) {
      if i > |a| {
        assert s[i - 1] == b[i - 1 - |a|] && s[i] == b[i - |a|];
      }
    }
  }

  /** Every record is one the hub holds. */
  ghost predicate True(agents: seq<PublicAgent>, roster: Roster) {
    forall i :: 0 <= i < |agents| ==> agents[i].agentId in roster && roster[agents[i].agentId] == agents[i].profile
  }

  /** The records are exactly the hub's. */
  ghost predicate Mirrors(agents: seq<PublicAgent>, roster: Roster) {
    True(agents, roster) && forall id :: id in roster ==> Holds(agents, id)
  }

  ghost predicate Holds(agents: seq<PublicAgent>, id: Str) {
    exists i :: 0 <= i < |agents| && agents[i].agentId == id
  }

  function Ids(agents: seq<PublicAgent>): set<Str> {
    set i | 0 <= i < |agents| :: agents[i].agentId
  }

  lemma {:induction false} AscendingCount(agents: seq<PublicAgent>)
    requires Ascending(agents)
    ensures |Ids(agents)| == |agents|
  {
    if |agents| != 0 {
      var n := |agents| - 1;
      var front := agents[..n];
      AscendingCount(front);
      if agents[n].agentId in Ids(front) {
        var i :| 0 <= i < n && front[i].agentId == agents[n].agentId;
        AscendingDistinct(agents, i, n);
        assert false;
      }
      assert Ids(agents) == Ids(front) + {agents[n].agentId} by {
        forall id | id in Ids(agents) ensures id in Ids(front) + {agents[n].agentId} {
          var i :| 0 <= i < |agents| && agents[i].agentId == id;
          if i < n {
            assert front[i] == agents[i];
          }
        }
        forall id | id in Ids(front) ensures id in Ids(agents) {
          var i :| 0 <= i < n && front[i].agentId == id;
          assert agents[i] == front[i];
        }
      }
    }
  }

  lemma SubsetOfSameSize<T>(a: set<T>, b: set<T>)
    requires a <= b && |a| == |b|
    ensures a == b
  {
    assert b == a + (b - a);
    assert |b - a| == 0;
  }

  /** The counting argument: a strictly ascending list of as many true records as the hub has
      agents is the hub's whole state. */
  lemma CountedIsWhole(agents: seq<PublicAgent>, roster: Roster)
    requires Ascending(agents) && True(agents, roster) && |agents| == |roster|
    ensures Mirrors(agents, roster)
  {
    AscendingCount(agents);
    assert Ids(agents) <= roster.Keys;
    SubsetOfSameSize(Ids(agents), roster.Keys);
    forall id | id in roster ensures Holds(agents, id) {
      assert id in Ids(agents);
    }
  }

  /** An ascending list of true records is no longer than the roster. */
  lemma MirrorsSize(agents: seq<PublicAgent>, roster: Roster)
    requires Ascending(agents) && True(agents, roster)
    ensures |agents| <= |roster|
  {
    AscendingCount(agents);
    var ids, keys := Ids(agents), roster.Keys;
    assert ids <= keys;
    assert keys == ids + (keys - ids);
  }

  lemma {:induction false} LeastExists(ids: set<Str>)
    requires ids != {}
    ensures exists k :: k in ids && forall j :: j in ids ==> j == k || Less(k, j)
  {
    hide Less;
    var x :| x in ids;
    if ids == {x} {
      assert x in ids;
    } else {
      var rest := ids - {x};
      LeastExists(rest);
      var k :| k in rest && forall j :: j in rest ==> j == k || Less(k, j);
      LessTotal(x, k);
      var m := if Less(x, k) then x else k;
      forall j | j in ids ensures j == m || Less(m, j) {
        if Less(x, k) && j != x && j != k {
          LessTransitive(x, k, j);
        }
      }
    }
  }

  lemma LeastUnique(ids: set<Str>, a: Str, b: Str)
    requires a in ids && forall j :: j in ids ==> j == a || Less(a, j)
    requires b in ids && forall j :: j in ids ==> j == b || Less(b, j)
    ensures a == b
  {
    if a != b {
      LessAsymmetric(a, b);
    }
  }

  function Least(ids: set<Str>): (k: Str)
    requires ids != {}
    ensures k in ids && forall j :: j in ids ==> j == k || Less(k, j)
  {
    LeastExists(ids);
    assert forall a, b | && a in ids && b in ids
                         && (forall j :: j in ids ==> j == a || Less(a, j))
                         && (forall j :: j in ids ==> j == b || Less(b, j)) :: a == b by {
      forall a, b | && a in ids && b in ids
                    && (forall j :: j in ids ==> j == a || Less(a, j))
                    && (forall j :: j in ids ==> j == b || Less(b, j))
        ensures a == b
      {
        LeastUnique(ids, a, b);
      }
    }
    var k :| k in ids && forall j :: j in ids ==> j == k || Less(k, j);
    k
  }

  /** Records keyed by their own identifier. */
  predicate Keyed(m: map<Str, PublicAgent>) {
    forall id :: id in m ==> m[id].agentId == id
  }

  lemma OneFewer(m: map<Str, PublicAgent>, k: Str)
    requires k in m
    ensures |m| == |m - {k}| + 1
  {
    var rest := m - {k};
    assert m.Keys == rest.Keys + {k};
  }

  lemma LeastFirst(m: map<Str, PublicAgent>, k: Str, rest: seq<PublicAgent>)
    requires Keyed(m) && k in m && forall j :: j in m.Keys ==> j == k || Less(k, j)
    requires Ascending(rest) && forall i :: 0 <= i < |rest| ==> rest[i].agentId in m - {k}
    ensures Ascending([m[k]] + rest)
  {
    var s := [m[k]] + rest;
    forall i | 0 < i < |s| ensures Less(s[i - 1].agentId, s[i].agentId) {
      if i == 1 {
        assert rest[0].agentId in m.Keys;
      } else {
        assert s[i - 1] == rest[i - 2] && s[i] == rest[i - 1];
      }
    }
  }

  /** `[...m.values()].sort(byId)`, taking the least identifier first. */
  function SortById(m: map<Str, PublicAgent>): (s: seq<PublicAgent>)
    requires Keyed(m)
    ensures |s| == |m|
    ensures Ascending(s)
    ensures forall i :: 0 <= i < |s| ==> s[i].agentId in m && m[s[i].agentId] == s[i]
    decreases |m|
  {
    if m == map[] then [] else
      var k := Least(m.Keys);
      OneFewer(m, k);
      var rest := SortById(m - {k});
      LeastFirst(m, k, rest);
      [m[k]] + rest
  }

  function ById(agents: seq<PublicAgent>): (m: map<Str, PublicAgent>)
    ensures Keyed(m)
    ensures forall id :: id in m ==> m[id] in agents
    ensures forall i :: 0 <= i < |agents| ==> agents[i].agentId in m
  {
    if |agents| == 0 then map[]
    else ById(agents[..|agents| - 1])[agents[|agents| - 1].agentId := agents[|agents| - 1]]
  }

  /** Sorting the values of a keyed map publishes exactly the map. */
  lemma SortMirrors(m: map<Str, PublicAgent>, roster: Roster)
    requires Keyed(m) && m.Keys == roster.Keys
    requires forall id :: id in m ==> m[id].profile == roster[id]
    ensures Mirrors(SortById(m), roster)
  {
    var s := SortById(m);
    AscendingCount(s);
    assert Ids(s) <= m.Keys;
    SubsetOfSameSize(Ids(s), m.Keys);
    forall id | id in roster ensures Holds(s, id) {
      assert id in Ids(s);
    }
  }

  lemma MirrorsMap(agents: seq<PublicAgent>, roster: Roster)
    requires Mirrors(agents, roster)
    ensures ById(agents).Keys == roster.Keys
    ensures forall id :: id in roster ==> id in ById(agents) && ById(agents)[id].profile == roster[id]
  {
    var m := ById(agents);
    forall id | id in m ensures id in roster && m[id].profile == roster[id] {
      var i :| 0 <= i < |agents| && agents[i] == m[id];
    }
    forall id | id in roster ensures id in m {
      assert Holds(agents, id);
    }
  }
}
