/** Which agent a typed target means, tier by tier, told from the population alone (extension/protocol.ts). */
module TargetTiers {
  import opened Strings
  import opened Whitespace
  import opened Completion

  // --- Lists of agents ---

  /** The listed agents are exactly the wanted ones, at these places of the population and in its order. */
  ghost predicate ListedAt(at: seq<nat>, listed: seq<Agent>, agents: seq<Agent>, wanted: Agent -> bool) {
    && |at| == |listed|
    && (forall k :: 0 <= k < |at| ==> at[k] < |agents| && listed[k] == agents[at[k]])
    && (forall j, k :: 0 <= j < k < |at| ==> at[j] < at[k])
    && forall i :: 0 <= i < |agents| ==> (wanted(agents[i]) <==> i in at)
  }

  ghost predicate Lists(listed: seq<Agent>, agents: seq<Agent>, wanted: Agent -> bool) {
    exists at :: ListedAt(at, listed, agents, wanted)
  }

  lemma {:induction false} WhereLast(agents: seq<Agent>, a: Agent, keep: Agent -> bool)
    ensures Where(agents + [a], keep) == Where(agents, keep) + (if keep(a) then [a] else [])
  {
    if agents == [] {
      assert [a][1..] == [] && agents + [a] == [a];
    } else {
      assert (agents + [a])[1..] == agents[1..] + [a];
      WhereLast(agents[1..], a, keep);
    }
  }

  lemma ListedLast(at: seq<nat>, listed: seq<Agent>, agents: seq<Agent>, a: Agent, wanted: Agent -> bool)
    requires ListedAt(at, listed, agents, wanted)
    ensures if wanted(a) then ListedAt(at + [|agents|], listed + [a], agents + [a], wanted)
            else ListedAt(at, listed, agents + [a], wanted)
  {
    var all, more := agents + [a], at + [|agents|];
    forall i | 0 <= i < |all| ensures wanted(all[i]) <==> i in if wanted(a) then more else at {
      if i < |agents| {
        assert all[i] == agents[i];
      } else {
        assert more[|at|] == i;
      }
    }
  }

  lemma {:induction false} WhereListed(agents: seq<Agent>, keep: Agent -> bool) returns (at: seq<nat>)
    ensures ListedAt(at, Where(agents, keep), agents, keep)
    decreases |agents|
  {
    if agents == [] {
      at := [];
    } else {
      hide *;
      var n := |agents| - 1;
      assert agents == agents[..n] + [agents[n]];
      at := WhereListed(agents[..n], keep);
      WhereLast(agents[..n], agents[n], keep);
      ListedLast(at, Where(agents[..n], keep), agents[..n], agents[n], keep);
      if keep(agents[n]) {
        at := at + [n];
      } else {
        assert Where(agents[..n], keep) + [] == Where(agents[..n], keep);
      }
    }
  }

  /** One wanted agent, and only one. */
  predicate Only(agents: seq<Agent>, wanted: Agent -> bool, i: nat) {
    i < |agents| && forall j :: 0 <= j < |agents| ==> (wanted(agents[j]) <==> j == i)
  }

  predicate Some(agents: seq<Agent>, wanted: Agent -> bool) {
    exists i :: 0 <= i < |agents| && wanted(agents[i])
  }

  /** A tier's answer: its only agent, or all of them in order when there are several. */
  ghost predicate Answers(r: Resolution, agents: seq<Agent>, wanted: Agent -> bool, ambiguous: Problem) {
    && (forall i: nat :: Only(agents, wanted, i) ==> r == Found(agents[i]))
    && ((forall i: nat :: !Only(agents, wanted, i)) ==>
          r.Unresolved? && r.problem == ambiguous && Lists(r.candidates, agents, wanted))
  }

  lemma NoneListed(at: seq<nat>, listed: seq<Agent>, agents: seq<Agent>, wanted: Agent -> bool)
    requires ListedAt(at, listed, agents, wanted)
    ensures listed == [] <==> !Some(agents, wanted)
  {
    if listed != [] {
      assert at[0] in at;
    }
  }

  lemma OneListed(at: seq<nat>, listed: seq<Agent>, agents: seq<Agent>, wanted: Agent -> bool)
    requires ListedAt(at, listed, agents, wanted) && |listed| == 1
    ensures |at| == 1 && Only(agents, wanted, at[0]) && listed[0] == agents[at[0]]
    ensures forall i: nat :: Only(agents, wanted, i) ==> i == at[0]
  {
    assert at[0] in at;
  }

  lemma SeveralListed(at: seq<nat>, listed: seq<Agent>, agents: seq<Agent>, wanted: Agent -> bool)
    requires ListedAt(at, listed, agents, wanted) && |listed| > 1
    ensures forall i: nat :: !Only(agents, wanted, i)
  {
    assert at[0] in at && at[1] in at && at[0] < at[1];
    assert wanted(agents[at[0]]) && wanted(agents[at[1]]);
  }

  lemma TierAnswers(agents: seq<Agent>, wanted: Agent -> bool, ambiguous: Problem, otherwise: Resolution)
    ensures var r := Tier(Where(agents, wanted), ambiguous, otherwise);
      && (Some(agents, wanted) ==> Answers(r, agents, wanted, ambiguous))
      && (!Some(agents, wanted) ==> r == otherwise)
  {
    hide ListedAt, Only, Some, Where;
    var c := Where(agents, wanted);
    var at := WhereListed(agents, wanted);
    assert Lists(c, agents, wanted);
    hide Lists;
    NoneListed(at, c, agents, wanted);
    if |c| == 1 {
      OneListed(at, c, agents, wanted);
    } else if |c| > 1 {
      SeveralListed(at, c, agents, wanted);
    }
  }

  /** Leaving oneself out first and then keeping is keeping the others. */
  lemma PoolTier(agents: seq<Agent>, selfId: Str, keep: Agent -> bool, wanted: Agent -> bool, ambiguous: Problem, otherwise: Resolution)
    requires forall a :: wanted(a) <==> a.agentId != selfId && keep(a)
    ensures var r := Tier(Where(Where(agents, (a: Agent) => a.agentId != selfId), keep), ambiguous, otherwise);
      && (Some(agents, wanted) ==> Answers(r, agents, wanted, ambiguous))
      && (!Some(agents, wanted) ==> r == otherwise)
  {
    WhereTwice(agents, (a: Agent) => a.agentId != selfId, keep, wanted);
    TierAnswers(agents, wanted, ambiguous, otherwise);
  }

  // --- The tiers of a target ---

  predicate ById(a: Agent, q: Str, selfId: Str) {
    a.agentId != selfId && a.agentId == q
  }

  predicate ByPrefix(a: Agent, q: Str, selfId: Str, lower: Str -> Str) {
    a.agentId != selfId && lower(q) <= lower(a.agentId)
  }

  predicate ByHost(a: Agent, q: Str, selfId: Str) {
    a.agentId != selfId && a.host == q
  }

  /** The label holds the query somewhere, ignoring case. */
  ghost predicate ByLabel(a: Agent, q: Str, selfId: Str, lower: Str -> Str) {
    a.agentId != selfId && exists before, after :: lower(a.title) == before + lower(q) + after
  }

  lemma {:induction false} IncludesExactly(s: Str, needle: Str)
    ensures Includes(s, needle) <==> exists before, after :: s == before + needle + after
  {
    if Includes(s, needle) {
      if |needle| <= |s| && s[..|needle|] == needle {
        assert s == [] + needle + s[|needle|..];
      } else {
        IncludesExactly(s[1..], needle);
        var before, after :| s[1..] == before + needle + after;
        Unbefore(s, before, needle, after);
        assert s == ([s[0]] + before) + needle + after;
      }
    } else if before, after :| s == before + needle + after {
      Before(before, needle, after);
      if before != [] {
        IncludesExactly(s[1..], needle);
      }
    }
  }

  lemma Unbefore(s: Str, before: Str, needle: Str, after: Str)
    requires s != [] && s[1..] == before + needle + after
    ensures s == ([s[0]] + before) + needle + after
  {
    assert s == [s[0]] + s[1..];
  }

  lemma Before(before: Str, needle: Str, after: Str)
    ensures var s := before + needle + after;
      if before == [] then |needle| <= |s| && s[..|needle|] == needle else s[1..] == before[1..] + needle + after
  {
  }

  /** What a target means. Nothing typed and one's own identifier, in any case, mean nobody. Otherwise the first of these
      that any other agent meets decides: the identifier is the query; it begins with the query of at least eight units,
      ignoring case; the host is the query; the label holds the query, ignoring case. One such agent is the target; of
      several all are named, in their order. */
  lemma TargetMeans(query: Str, agents: seq<Agent>, selfId: Str, lower: Str -> Str)
    ensures var q := Trim(query); var r := ResolveTarget(query, agents, selfId, lower);
      var id, prefix := (a: Agent) => ById(a, q, selfId), (a: Agent) => ByPrefix(a, q, selfId, lower);
      var host, named := (a: Agent) => ByHost(a, q, selfId), (a: Agent) => ByLabel(a, q, selfId, lower);
      if q == [] then r == Unresolved(EmptyTarget, [])
      else if lower(q) == lower(selfId) then r == Unresolved(SelfTarget, [])
      else if Some(agents, id) then Answers(r, agents, id, AmbiguousId)
      else if |q| >= 8 && Some(agents, prefix) then Answers(r, agents, prefix, AmbiguousPrefix)
      else if Some(agents, host) then Answers(r, agents, host, AmbiguousHost)
      else if Some(agents, named) then Answers(r, agents, named, AmbiguousLabel)
      else r == Unresolved(NoMatch, [])
  {
    var q := Trim(query);
    if q != [] && lower(q) != lower(selfId) {
      var pool := Where(agents, (a: Agent) => a.agentId != selfId);
      var id, prefix := (a: Agent) => ById(a, q, selfId), (a: Agent) => ByPrefix(a, q, selfId, lower);
      var host, named := (a: Agent) => ByHost(a, q, selfId), (a: Agent) => ByLabel(a, q, selfId, lower);
      var labels := Tier(Where(pool, (a: Agent) => Includes(lower(a.title), lower(q))), AmbiguousLabel, Unresolved(NoMatch, []));
      var hosts := Tier(Where(pool, (a: Agent) => a.host == q), AmbiguousHost, labels);
      var prefixes := Tier(Where(pool, (a: Agent) => HasPrefix(a, q, lower)), AmbiguousPrefix, hosts);
      LabelTier(q, agents, selfId, lower);
      PoolTier(agents, selfId, (a: Agent) => a.host == q, host, AmbiguousHost, labels);
      PoolTier(agents, selfId, (a: Agent) => HasPrefix(a, q, lower), prefix, AmbiguousPrefix, hosts);
      PoolTier(agents, selfId, (a: Agent) => a.agentId == q, id, AmbiguousId, if |q| < 8 then hosts else prefixes);
      hide Some, Answers, Where, Tier, Includes, HasPrefix, Trim, ByLabel;
    }
  }

  lemma LabelTier(q: Str, agents: seq<Agent>, selfId: Str, lower: Str -> Str)
    ensures var named := (a: Agent) => ByLabel(a, q, selfId, lower);
      var r := Tier(Where(Where(agents, (a: Agent) => a.agentId != selfId), (a: Agent) => Includes(lower(a.title), lower(q))),
                    AmbiguousLabel, Unresolved(NoMatch, []));
      && (Some(agents, named) ==> Answers(r, agents, named, AmbiguousLabel))
      && (!Some(agents, named) ==> r == Unresolved(NoMatch, []))
  {
    var keep := (a: Agent) => Includes(lower(a.title), lower(q));
    forall a ensures ByLabel(a, q, selfId, lower) <==> a.agentId != selfId && keep(a) {
      IncludesExactly(lower(a.title), lower(q));
    }
    PoolTier(agents, selfId, keep, (a: Agent) => ByLabel(a, q, selfId, lower), AmbiguousLabel, Unresolved(NoMatch, []));
  }

  // --- What is offered ---

  /** Another agent whose identifier or host begins with what was typed, or whose label holds it, ignoring case. */
  ghost predicate Suits(a: Agent, q: Str, selfId: Str, lower: Str -> Str) {
    a.agentId != selfId && (q <= lower(a.agentId) || q <= lower(a.host) || exists before, after :: lower(a.title) == before + q + after)
  }

  lemma SuitsExactly(a: Agent, q: Str, selfId: Str, lower: Str -> Str)
    ensures Suits(a, q, selfId, lower) <==> a.agentId != selfId && Offered(q, a, lower)
  {
    IncludesExactly(lower(a.title), q);
    hide Includes;
  }

  /** Completion offers exactly the agents that suit, in the order of the population. */
  lemma {:induction false} OfferedMeans(q: Str, agents: seq<Agent>, selfId: Str, lower: Str -> Str) returns (at: seq<nat>)
    ensures ListedAt(at, OfferedTo(q, agents, selfId, lower), agents, (a: Agent) => Suits(a, q, selfId, lower))
    decreases |agents|
  {
    var suits := (a: Agent) => Suits(a, q, selfId, lower);
    if agents == [] {
      at := [];
    } else {
      var n := |agents| - 1;
      assert agents == agents[..n] + [agents[n]];
      at := OfferedMeans(q, agents[..n], selfId, lower);
      SuitsExactly(agents[n], q, selfId, lower);
      hide ListedAt, Offered, Suits;
      ListedLast(at, OfferedTo(q, agents[..n], selfId, lower), agents[..n], agents[n], suits);
      if suits(agents[n]) {
        at := at + [n];
      } else {
        assert OfferedTo(q, agents[..n], selfId, lower) + [] == OfferedTo(q, agents[..n], selfId, lower);
      }
    }
  }
}
