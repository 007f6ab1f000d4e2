/** Shortest unique agent-id prefixes: the quadratic definition (extension/protocol.ts) and the sorted-neighbour
    form (extension/commands.ts). `lower` stands for the language's `toLowerCase`. */
module Prefixes {
  import opened Strings

  const MIN_PREFIX: nat := 8

  /** `slice(0, n)`, which clamps. */
  function Slice(s: Str, n: nat): Str {
    if n < |s| then s[..n] else s
  }

  predicate StartsWith(s: Str, p: Str) {
    |p| <= |s| && s[..|p|] == p
  }

  function Lowered(ids: seq<Str>, lower: Str -> Str): seq<Str> {
    if |ids| == 0 then [] else [lower(ids[0])] + Lowered(ids[1..], lower)
  }

  lemma {:induction false} LoweredAre(ids: seq<Str>, lower: Str -> Str)
    ensures |Lowered(ids, lower)| == |ids|
    ensures forall i :: 0 <= i < |ids| ==> Lowered(ids, lower)[i] == lower(ids[i])
  {
    if |ids| != 0 {
      LoweredAre(ids[1..], lower);
    }
  }

  // --- The definition ---

  /** Some other id starts with the first `n` units of `id`. */
  predicate Shared(id: Str, all: seq<Str>, n: nat)
    requires n <= |id|
  {
    exists i :: 0 <= i < |all| && all[i] != id && StartsWith(all[i], id[..n])
  }

  function SearchFrom(id: Str, all: seq<Str>, n: nat): nat
    decreases |id| - n
  {
    if n > |id| then n else if Shared(id, all, n) then SearchFrom(id, all, n + 1) else n
  }

  /** The search finds the least length from `n` on that no other id shares. */
  lemma {:induction false} SearchIsLeast(id: Str, all: seq<Str>, n: nat)
    ensures var m := SearchFrom(id, all, n);
      && m >= n
      && (m <= |id| ==> !Shared(id, all, m))
      && (forall k :: n <= k < m && k <= |id| ==> Shared(id, all, k))
    decreases |id| - n
  {
    hide Shared;
    if n <= |id| && Shared(id, all, n) {
      SearchIsLeast(id, all, n + 1);
    }
  }

  function ShortestUniquePrefix(agentId: Str, ids: seq<Str>, lower: Str -> Str): Str {
    var id := lower(agentId);
    var n := SearchFrom(id, Lowered(ids, lower), MIN_PREFIX);
    if n <= |id| then Slice(agentId, n) else agentId
  }

  method ShortestUnique(agentId: Str, ids: seq<Str>, lower: Str -> Str) returns (p: Str)
    ensures p == ShortestUniquePrefix(agentId, ids, lower)
  {
    var id := lower(agentId);
    var others := Lowered(ids, lower);
    var n := MIN_PREFIX;
    while n <= |id|
      invariant SearchFrom(id, others, MIN_PREFIX) == SearchFrom(id, others, n)
    {
      var shared := SomeOther(id, others, n);
      if !shared {
        return Slice(agentId, n);
      }
      n := n + 1;
    }
    p := agentId;
  }

  method SomeOther(id: Str, all: seq<Str>, n: nat) returns (r: bool)
    requires n <= |id|
    ensures r <==> Shared(id, all, n)
  {
    var i := 0;
    while i < |all|
      invariant 0 <= i <= |all|
      invariant forall j :: 0 <= j < i ==> all[j] == id || !StartsWith(all[j], id[..n])
    {
      if all[i] != id && StartsWith(all[i], id[..n]) {
        return true;
      }
      i := i + 1;
    }
    r := false;
  }

  // --- Sorted distinct ids ---

  ghost predicate Sorted(ids: seq<Str>) {
    forall i, j :: 0 <= i < j < |ids| ==> Less(ids[i], ids[j])
  }

  function Insert(id: Str, ids: seq<Str>): seq<Str> {
    if |ids| == 0 then [id]
    else if id == ids[0] then ids
    else if Less(id, ids[0]) then [id] + ids
    else [ids[0]] + Insert(id, ids[1..])
  }

  /** The distinct ids in ascending order. */
  function SortDistinct(ids: seq<Str>): seq<Str> {
    if |ids| == 0 then [] else Insert(ids[0], SortDistinct(ids[1..]))
  }

  lemma {:induction false} InsertSorts(id: Str, ids: seq<Str>)
    requires Sorted(ids)
    ensures Sorted(Insert(id, ids))
    ensures forall x :: x in Insert(id, ids) <==> x == id || x in ids
  {
    if |ids| != 0 && id != ids[0] {
      assert ids == [ids[0]] + ids[1..];
      LessTotal(id, ids[0]);
      if Less(id, ids[0]) {
        var r := [id] + ids;
        forall i, j | 0 <= i < j < |r| ensures Less(r[i], r[j]) {
          if i == 0 && j > 1 {
            assert Less(ids[0], ids[j - 1]);
            LessTransitive(id, ids[0], ids[j - 1]);
          }
        }
      } else {
        InsertSorts(id, ids[1..]);
        var t := Insert(id, ids[1..]);
        forall j | 0 <= j < |t| ensures Less(ids[0], t[j]) {
          assert t[j] in t;
          if t[j] != id {
            var k :| 0 <= k < |ids[1..]| && ids[1..][k] == t[j];
            assert Less(ids[0], ids[k + 1]);
          }
        }
      }
    }
  }

  lemma {:induction false} SortDistinctSorts(ids: seq<Str>)
    ensures Sorted(SortDistinct(ids))
    ensures forall x :: x in SortDistinct(ids) <==> x in ids
  {
    if |ids| != 0 {
      SortDistinctSorts(ids[1..]);
      InsertSorts(ids[0], SortDistinct(ids[1..]));
      assert ids == [ids[0]] + ids[1..];
    }
  }

  // --- The nearest neighbours share the longest prefix ---

  predicate AtMost(a: Str, b: Str) {
    a == b || Less(a, b)
  }

  /** What two strings share, every string between them shares. */
  lemma {:induction false} Between(a: Str, b: Str, c: Str)
    requires AtMost(a, b) && AtMost(b, c)
    ensures CommonLength(a, c) <= CommonLength(b, c) && CommonLength(a, c) <= CommonLength(a, b)
  {
    if |a| != 0 && |c| != 0 && a[0] == c[0] {
      assert |b| != 0 && b[0] == a[0];
      assert AtMost(a[1..], b[1..]) && AtMost(b[1..], c[1..]);
      Between(a[1..], b[1..], c[1..]);
    }
  }

  lemma {:induction false} CommonSymmetric(a: Str, b: Str)
    ensures CommonLength(a, b) == CommonLength(b, a)
  {
    if |a| != 0 && |b| != 0 && a[0] == b[0] {
      CommonSymmetric(a[1..], b[1..]);
    }
  }

  lemma {:induction false} StartsWithCommon(s: Str, id: Str, n: nat)
    requires n <= |id|
    ensures StartsWith(s, id[..n]) <==> CommonLength(s, id) >= n
  {
    if n != 0 && |s| != 0 && s[0] == id[0] {
      StartsWithCommon(s[1..], id[1..], n - 1);
      var p := id[..n];
      assert id[1..][..n - 1] == p[1..];
      if n <= |s| {
        assert s[..n] == [s[0]] + s[1..][..n - 1];
        assert p == [id[0]] + p[1..];
      }
    } else if n != 0 && |s| != 0 {
      assert CommonLength(s, id) == 0;
      if n <= |s| {
        assert s[..n][0] == s[0] && id[..n][0] == id[0];
      }
    }
  }

  function Max(a: nat, b: nat): nat {
    if a > b then a else b
  }

  /** One more than what the id shares with either neighbour in the sorted list, and at least eight. */
  function NeighbourLength(ids: seq<Str>, i: nat): nat
    requires i < |ids|
  {
    var before := if i == 0 then 0 else CommonLength(ids[i], ids[i - 1]);
    var after := if i + 1 == |ids| then 0 else CommonLength(ids[i], ids[i + 1]);
    Max(MIN_PREFIX, Max(1 + before, 1 + after))
  }

  lemma NeighboursShareMost(ids: seq<Str>, i: nat, j: nat)
    requires Sorted(ids) && i < |ids| && j < |ids| && i != j
    ensures CommonLength(ids[j], ids[i]) < NeighbourLength(ids, i)
  {
    if j < i {
      Between(ids[j], ids[i - 1], ids[i]);
      CommonSymmetric(ids[i - 1], ids[i]);
    } else {
      CommonSymmetric(ids[j], ids[i]);
      Between(ids[i], ids[i + 1], ids[j]);
    }
  }

  /** Some other id shares `n` units exactly when a neighbour does. */
  lemma SharedIsNeighbourly(ids: seq<Str>, i: nat, n: nat)
    requires Sorted(ids) && i < |ids| && MIN_PREFIX <= n <= |ids[i]|
    ensures Shared(ids[i], ids, n) <==> n < NeighbourLength(ids, i)
  {
    var id := ids[i];
    if Shared(id, ids, n) {
      var j :| 0 <= j < |ids| && ids[j] != id && StartsWith(ids[j], id[..n]);
      StartsWithCommon(ids[j], id, n);
      NeighboursShareMost(ids, i, j);
    }
    if n < NeighbourLength(ids, i) {
      if i != 0 && n <= CommonLength(id, ids[i - 1]) {
        NeighbourShares(ids, i, i - 1, n);
      } else {
        NeighbourShares(ids, i, i + 1, n);
      }
    }
  }

  lemma NeighbourShares(ids: seq<Str>, i: nat, j: nat, n: nat)
    requires Sorted(ids) && i < |ids| && j < |ids| && i != j && n <= CommonLength(ids[i], ids[j])
    ensures Shared(ids[i], ids, n)
  {
    CommonSymmetric(ids[i], ids[j]);
    StartsWithCommon(ids[j], ids[i], n);
    if i < j {
      LessAsymmetric(ids[i], ids[j]);
    } else {
      LessAsymmetric(ids[j], ids[i]);
    }
  }

  lemma {:induction false} SearchStops(ids: seq<Str>, i: nat, n: nat)
    requires Sorted(ids) && i < |ids| && MIN_PREFIX <= n <= NeighbourLength(ids, i)
    ensures var m := SearchFrom(ids[i], ids, n);
      if NeighbourLength(ids, i) <= |ids[i]| then m == NeighbourLength(ids, i) else m > |ids[i]|
    decreases NeighbourLength(ids, i) - n
  {
    if n <= |ids[i]| {
      SharedIsNeighbourly(ids, i, n);
      if n < NeighbourLength(ids, i) {
        SearchStops(ids, i, n + 1);
      }
    }
  }

  lemma {:induction false} SameMembersSameSearch(id: Str, a: seq<Str>, b: seq<Str>, n: nat)
    requires forall x :: x in a <==> x in b
    ensures SearchFrom(id, a, n) == SearchFrom(id, b, n)
    decreases |id| - n
  {
    if n <= |id| {
      SameMembersSameShared(id, a, b, n);
      SameMembersSameSearch(id, a, b, n + 1);
    }
  }

  lemma SameMembersSameShared(id: Str, a: seq<Str>, b: seq<Str>, n: nat)
    requires n <= |id| && forall x :: x in a <==> x in b
    ensures Shared(id, a, n) <==> Shared(id, b, n)
  {
    if Shared(id, a, n) {
      var i :| 0 <= i < |a| && a[i] != id && StartsWith(a[i], id[..n]);
      assert a[i] in b;
    }
    if Shared(id, b, n) {
      var i :| 0 <= i < |b| && b[i] != id && StartsWith(b[i], id[..n]);
      assert b[i] in a;
    }
  }

  /** The neighbour length gives the shortest unique prefix. */
  lemma NeighbourLengthIsShortest(agentId: Str, ids: seq<Str>, lower: Str -> Str, i: nat)
    requires |agentId| <= |lower(agentId)|
    requires var sorted := SortDistinct(Lowered(ids, lower)); i < |sorted| && sorted[i] == lower(agentId)
    ensures Slice(agentId, NeighbourLength(SortDistinct(Lowered(ids, lower)), i)) == ShortestUniquePrefix(agentId, ids, lower)
  {
    var all := Lowered(ids, lower);
    var sorted := SortDistinct(all);
    SortDistinctSorts(all);
    SearchStops(sorted, i, MIN_PREFIX);
    SameMembersSameSearch(lower(agentId), all, sorted, MIN_PREFIX);
  }

  // --- The fast form ---

  method Lcp(a: Str, b: Str) returns (n: nat)
    ensures n == CommonLength(a, b)
  {
    n := 0;
    while n < |a| && n < |b| && a[n] == b[n]
      invariant n <= |a| && n <= |b|
      invariant CommonLength(a, b) == n + CommonLength(a[n..], b[n..])
    {
      assert a[n..][1..] == a[n + 1..] && b[n..][1..] == b[n + 1..];
      n := n + 1;
    }
  }

  lemma SortedDistinct(ids: seq<Str>)
    requires Sorted(ids)
    ensures forall i, j :: 0 <= i < j < |ids| ==> ids[i] != ids[j]
  {
    forall i, j | 0 <= i < j < |ids| ensures ids[i] != ids[j] {
      LessAsymmetric(ids[i], ids[j]);
    }
  }

  method LengthAmongNeighbours(sorted: seq<Str>, i: nat) returns (n: nat)
    requires i < |sorted|
    ensures n == NeighbourLength(sorted, i)
  {
    hide CommonLength;
    var before, after := 0, 0;
    if i > 0 { before := Lcp(sorted[i], sorted[i - 1]); }
    if i + 1 < |sorted| { after := Lcp(sorted[i], sorted[i + 1]); }
    n := Max(MIN_PREFIX, Max(1 + before, 1 + after));
  }

  predicate Measured(lengths: map<Str, nat>, sorted: seq<Str>, j: nat)
    requires j < |sorted|
  {
    sorted[j] in lengths && lengths[sorted[j]] == NeighbourLength(sorted, j)
  }

  lemma MeasuredStays(lengths: map<Str, nat>, sorted: seq<Str>, i: nat, j: nat, n: nat)
    requires i < |sorted| && j < |sorted| && sorted[i] != sorted[j] && Measured(lengths, sorted, j)
    ensures Measured(lengths[sorted[i] := n], sorted, j)
  {
    hide NeighbourLength;
  }

  method NeighbourLengths(sorted: seq<Str>) returns (lengths: map<Str, nat>)
    requires Sorted(sorted)
    ensures forall j :: 0 <= j < |sorted| ==> Measured(lengths, sorted, j)
  {
    SortedDistinct(sorted);
    lengths := map[];
    var i := 0;
    while i < |sorted|
      invariant 0 <= i <= |sorted|
      invariant forall j :: 0 <= j < i ==> Measured(lengths, sorted, j)
    {
      hide Sorted, Less, CommonLength, NeighbourLength;
      var n := LengthAmongNeighbours(sorted, i);
      ghost var before := lengths;
      lengths := lengths[sorted[i] := n];
      assert Measured(lengths, sorted, i);
      hide Measured;
      forall j | 0 <= j < i ensures Measured(lengths, sorted, j) {
        MeasuredStays(before, sorted, i, j, n);
      }
      i := i + 1;
    }
  }

  method UniquePrefixes(ids: seq<Str>, lower: Str -> Str) returns (prefixes: map<Str, Str>)
    requires forall i :: 0 <= i < |ids| ==> |ids[i]| <= |lower(ids[i])|
    ensures forall id :: id in prefixes <==> id in ids
    ensures forall id :: id in prefixes ==> prefixes[id] == ShortestUniquePrefix(id, ids, lower)
  {
    hide Lowered, SortDistinct, NeighbourLength, ShortestUniquePrefix, Slice;
    var sorted := SortDistinct(Lowered(ids, lower));
    SortDistinctSorts(Lowered(ids, lower));
    LoweredAre(ids, lower);
    var lengths := NeighbourLengths(sorted);
    hide Sorted;
    prefixes := map[];
    var k := 0;
    while k < |ids|
      invariant 0 <= k <= |ids|
      invariant forall id :: id in prefixes ==> id in ids && prefixes[id] == ShortestUniquePrefix(id, ids, lower)
      invariant forall j :: 0 <= j < k ==> ids[j] in prefixes
    {
      var id := lower(ids[k]);
      assert id == Lowered(ids, lower)[k] && id in sorted;
      ghost var j :| 0 <= j < |sorted| && sorted[j] == id;
      NeighbourLengthIsShortest(ids[k], ids, lower, j);
      assert Measured(lengths, sorted, j);
      prefixes := prefixes[ids[k] := Slice(ids[k], lengths[id])];
      k := k + 1;
    }
  }
}
