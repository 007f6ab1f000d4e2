/** What a brief holds and in which order, which form each item gets, and what is left when nothing fits, told from the
    groups, the texts and the budget alone (extension/coordination-notes.ts). */
module BriefOutcomes {
  import opened Options
  import opened Strings
  import opened Utf8
  import opened Notes
  import opened Claims
  import opened Brief

  // --- Which items there are ---

  /** Groups with both sides come before those with requests only, and these before the rest. */
  function Standing(g: Group): nat {
    if g.requests != [] && g.responses != [] then 0 else if g.requests != [] then 1 else 2
  }

  /** The ranked groups are all the groups, each once, by standing and then in their own order. */
  ghost predicate RankedAt(at: seq<nat>, ranked: seq<Group>, groups: seq<Group>) {
    && |at| == |ranked| == |groups|
    && (forall k :: 0 <= k < |at| ==> at[k] < |groups| && ranked[k] == groups[at[k]])
    && forall j, k :: 0 <= j < k < |at| ==>
         Standing(ranked[j]) < Standing(ranked[k]) || (Standing(ranked[j]) == Standing(ranked[k]) && at[j] < at[k])
  }

  /** The groups of one standing, with their places. */
  ghost predicate SomeAt(at: seq<nat>, some: seq<Group>, groups: seq<Group>, rank: nat) {
    && |at| == |some|
    && (forall k :: 0 <= k < |at| ==> at[k] < |groups| && some[k] == groups[at[k]] && Standing(some[k]) == rank)
    && forall j, k :: 0 <= j < k < |at| ==> at[j] < at[k]
  }

  lemma {:induction false} OfRankLast(groups: seq<Group>, g: Group, rank: nat)
    ensures OfRank(groups + [g], rank) == OfRank(groups, rank) + (if Rank(g) == rank then [g] else [])
  {
    hide Rank;
    if groups == [] {
      assert [g][1..] == [] && groups + [g] == [g];
    } else {
      assert (groups + [g])[1..] == groups[1..] + [g];
      OfRankLast(groups[1..], g, rank);
    }
  }

  lemma SomeLast(at: seq<nat>, some: seq<Group>, groups: seq<Group>, g: Group, rank: nat)
    requires SomeAt(at, some, groups, rank)
    ensures if Standing(g) == rank then SomeAt(at + [|groups|], some + [g], groups + [g], rank) else SomeAt(at, some, groups + [g], rank)
  {
    hide Standing;
    assert forall i :: 0 <= i < |groups| ==> (groups + [g])[i] == groups[i];
  }

  lemma {:induction false} OfRankAt(groups: seq<Group>, rank: nat) returns (at: seq<nat>)
    ensures SomeAt(at, OfRank(groups, rank), groups, rank)
    decreases |groups|
  {
    if groups == [] {
      at := [];
    } else {
      var n := |groups| - 1;
      var g := groups[n];
      assert groups == groups[..n] + [g];
      assert Rank(g) == Standing(g);
      hide *;
      at := OfRankAt(groups[..n], rank);
      OfRankLast(groups[..n], g, rank);
      SomeLast(at, OfRank(groups[..n], rank), groups[..n], g, rank);
      if Standing(g) == rank {
        at := at + [n];
      } else {
        assert OfRank(groups[..n], rank) + [] == OfRank(groups[..n], rank);
      }
    }
  }

  lemma {:induction false} RanksSplit(groups: seq<Group>)
    ensures |OfRank(groups, 0)| + |OfRank(groups, 1)| + |OfRank(groups, 2)| == |groups|
  {
    if groups != [] {
      RanksSplit(groups[1..]);
    }
  }

  /** Groups by standing, all of them after one, and then in their own order. */
  ghost predicate InRankOrder(at: seq<nat>, some: seq<Group>, groups: seq<Group>, after: int) {
    && |at| == |some|
    && (forall k :: 0 <= k < |at| ==> at[k] < |groups| && some[k] == groups[at[k]] && Standing(some[k]) > after)
    && forall j, k :: 0 <= j < k < |at| ==>
         Standing(some[j]) < Standing(some[k]) || (Standing(some[j]) == Standing(some[k]) && at[j] < at[k])
  }

  lemma RankFirst(a: seq<nat>, x: seq<Group>, b: seq<nat>, y: seq<Group>, groups: seq<Group>, rank: nat)
    requires SomeAt(a, x, groups, rank) && InRankOrder(b, y, groups, rank)
    ensures InRankOrder(a + b, x + y, groups, rank as int - 1)
  {
    hide Standing;
    var at, some := a + b, x + y;
    forall k | 0 <= k < |at| ensures at[k] < |groups| && some[k] == groups[at[k]] && Standing(some[k]) >= rank {
      if k < |a| {
        assert some[k] == x[k] && at[k] == a[k];
      } else {
        assert some[k] == y[k - |a|] && at[k] == b[k - |a|];
      }
    }
    forall j, k | 0 <= j < k < |at|
      ensures Standing(some[j]) < Standing(some[k]) || (Standing(some[j]) == Standing(some[k]) && at[j] < at[k])
    {
      assert j < |a| ==> some[j] == x[j] && at[j] == a[j];
      assert k < |a| ==> some[k] == x[k] && at[k] == a[k];
      assert j >= |a| ==> some[j] == y[j - |a|] && at[j] == b[j - |a|];
      assert k >= |a| ==> some[k] == y[k - |a|] && at[k] == b[k - |a|];
    }
  }

  lemma RankedOrder(groups: seq<Group>) returns (at: seq<nat>)
    ensures RankedAt(at, Ranked(groups), groups)
  {
    hide *;
    var x, y, z := OfRank(groups, 0), OfRank(groups, 1), OfRank(groups, 2);
    var a := OfRankAt(groups, 0);
    var b := OfRankAt(groups, 1);
    var c := OfRankAt(groups, 2);
    NothingRanked(groups);
    RankFirst(c, z, [], [], groups, 2);
    assert c + [] == c && z + [] == z;
    RankFirst(b, y, c, z, groups, 1);
    RankFirst(a, x, b + c, y + z, groups, 0);
    at := a + (b + c);
    RankedIs(groups);
    OrderRanks(at, x + (y + z), groups);
  }

  lemma RankedIs(groups: seq<Group>)
    ensures Ranked(groups) == OfRank(groups, 0) + (OfRank(groups, 1) + OfRank(groups, 2)) && |Ranked(groups)| == |groups|
  {
    RanksSplit(groups);
    hide OfRank;
  }

  lemma NothingRanked(groups: seq<Group>)
    ensures InRankOrder([], [], groups, 2)
  {
  }

  lemma OrderRanks(at: seq<nat>, ranked: seq<Group>, groups: seq<Group>)
    requires InRankOrder(at, ranked, groups, -1) && |ranked| == |groups|
    ensures RankedAt(at, ranked, groups)
  {
    hide Standing;
  }

  /** Some message of the window is what the reference points at. */
  predicate PointedAt(messages: seq<Message>, ref: Reference) {
    exists i :: 0 <= i < |messages| && messages[i].ref == Some(ref)
  }

  /** A group's category: both sides; requests only; or responses only, to a message of the window or to none of it. */
  lemma CategoryMeans(messages: seq<Message>, g: Group)
    ensures var c := CategoryOf(g, g.ref in InWindow(messages));
      && (c == CompleteGroups <==> g.requests != [] && g.responses != [])
      && (c == RequestsWithoutResponse <==> g.requests != [] && g.responses == [])
      && (c == NonRequestTargets <==> g.requests == [] && PointedAt(messages, g.ref))
      && (c == OutsideWindowResponses <==> g.requests == [] && !PointedAt(messages, g.ref))
  {
  }

  /** The items: the ranked groups with their categories, then the decisions, then the free texts, each in its order. */
  lemma ItemsMean(messages: seq<Message>) returns (at: seq<nat>)
    ensures var s := SortFirst(messages, |messages|); var items := ItemsOf(messages);
      var n, d := |s.groups|, |s.groups| + |s.decisions|;
      && RankedAt(at, Ranked(s.groups), s.groups) && |items| == d + |s.free|
      && (forall i :: 0 <= i < n ==> items[i] == Item(CategoryOf(s.groups[at[i]], s.groups[at[i]].ref in InWindow(messages)), OfGroup(s.groups[at[i]])))
      && (forall i :: n <= i < d ==> items[i] == Item(Decisions, OfDecision(s.decisions[i - n])))
      && forall i :: d <= i < |items| ==> items[i] == Item(FreeText, OfText(s.free[i - d]))
  {
    var s := SortFirst(messages, |messages|);
    at := RankedOrder(s.groups);
    GroupItemsAre(Ranked(s.groups), InWindow(messages));
    OthersAre(s.decisions);
    OthersAre(s.free);
    hide SortFirst, Ranked, CategoryOf, InWindow, GroupItems, DecisionItems, TextItems, Standing;
  }

  lemma {:induction false} OthersAre(ds: seq<nat>)
    ensures |DecisionItems(ds)| == |ds| == |TextItems(ds)|
    ensures forall i :: 0 <= i < |ds| ==> DecisionItems(ds)[i] == Item(Decisions, OfDecision(ds[i])) && TextItems(ds)[i] == Item(FreeText, OfText(ds[i]))
  {
    if ds != [] {
      OthersAre(ds[1..]);
    }
  }

  // --- The text ---

  /** Joining puts a line feed before every line but the first. */
  lemma {:induction false} JoinedLast(lines: seq<Str>, line: Str)
    ensures Joined([line]) == line && (lines != [] ==> Joined(lines + [line]) == Joined(lines) + [10] + line)
  {
    if |lines| == 1 {
      assert (lines + [line])[1..] == [line];
    } else if lines != [] {
      assert (lines + [line])[1..] == lines[1..] + [line];
      JoinedLast(lines[1..], line);
      assert lines[0] + ([10] + (Joined(lines[1..]) + [10] + line)) == lines[0] + ([10] + Joined(lines[1..])) + [10] + line;
    }
  }

  /** A group's line is its head, its requests, and its responses beside its first request, as a JSON object's fields. */
  lemma GroupText(h: Host, category: Category, ref: Reference, requests: seq<nat>, responses: seq<nat>, form: Form)
    ensures GroupLine(h, category, ref, requests, responses, form) ==
            h.head(category, ref) + Units(",\"requestClaims\":[") + Separated(RequestTexts(h, requests, form))
            + Units("],\"responses\":[")
            + Separated(ResponseTexts(h, responses, if requests == [] then None else Some(requests[0]), form)) + Units("]}")
  {
    ListedIs(RequestTexts(h, requests, form));
    var first := if |requests| == 0 then None else Some(requests[0]);
    ListedIs(ResponseTexts(h, responses, first, form));
    hide Listed, Separated, Units, RequestTexts, ResponseTexts;
    Grouped(h.head(category, ref), REQUESTS_MARK, Separated(RequestTexts(h, requests, form)), RESPONSES_MARK,
            Separated(ResponseTexts(h, responses, first, form)), GROUP_END);
  }

  lemma Grouped(a: Str, b: Str, c: Str, d: Str, e: Str, f: Str)
    ensures a + (b + (c + (d + (e + f)))) == a + b + c + d + e + f
  {
  }

  /** Texts with commas between them. */
  function Separated(texts: seq<Str>): Str {
    if texts == [] then []
    else if |texts| == 1 then texts[0]
    else Separated(texts[..|texts| - 1]) + [44] + texts[|texts| - 1]
  }

  lemma {:induction false} ListedIs(texts: seq<Str>)
    ensures Listed(texts) == Separated(texts)
    decreases |texts|
  {
    if |texts| > 1 {
      ListedIs(texts[..|texts| - 1]);
      ListedLast(texts[..|texts| - 1], texts[|texts| - 1]);
      assert texts == texts[..|texts| - 1] + [texts[|texts| - 1]];
    }
  }

  lemma {:induction false} ListedLast(texts: seq<Str>, text: Str)
    requires texts != []
    ensures Listed(texts + [text]) == Listed(texts) + [44] + text
  {
    if |texts| == 1 {
      assert (texts + [text])[1..] == [text];
    } else {
      assert (texts + [text])[1..] == texts[1..] + [text];
      ListedLast(texts[1..], text);
      assert texts[0] + ([44] + (Listed(texts[1..]) + [44] + text)) == texts[0] + ([44] + Listed(texts[1..])) + [44] + text;
    }
  }

  // --- What is chosen ---

  /** The text of a brief with these lines and counts, in bytes, is within the limit. */
  predicate Room(h: Host, cap: nat, lines: seq<Str>, omitted: Counts, excerpts: nat) {
    Utf8Length(Joined([h.preface, h.coverage, h.storage, h.ledger] + lines + [h.footer(omitted, excerpts)])) <= cap
  }

  /** An item's category counts one omission fewer. */
  function OneFewer(omitted: Counts, c: Category): Counts {
    match c
    case CompleteGroups => omitted[0 := omitted[0] - 1]
    case RequestsWithoutResponse => omitted[1 := omitted[1] - 1]
    case OutsideWindowResponses => omitted[2 := omitted[2] - 1]
    case NonRequestTargets => omitted[3 := omitted[3] - 1]
    case Decisions => omitted[4 := omitted[4] - 1]
    case FreeText => omitted[5 := omitted[5] - 1]
  }

  /** A selection with one more line; a line of an excerpt counts as one only when it differs from the whole. */
  function WithLine(h: Host, s: Selection, item: Item, i: nat, form: Form): Selection {
    var line := Render(h, item, form);
    Selection(s.chosen + [Choice(i, form)], s.lines + [line], OneFewer(s.omitted, item.category),
              if form == Whole || line == Render(h, item, Whole) then s.excerpts else s.excerpts + 1)
  }

  /** Items are considered in order, each in its whole form, then in 256 bytes, then in 64; the first form that leaves the
      text within the limit is taken, and without one the item stays omitted. */
  lemma ConsideredExactly(h: Host, cap: nat, items: seq<Item>, i: nat)
    requires i < |items|
    ensures SelectFirst(h, cap, items, 0) == Selection([], [], Totals(items), 0)
    ensures var s, r := SelectFirst(h, cap, items, i), SelectFirst(h, cap, items, i + 1);
      var whole, excerpt, short := WithLine(h, s, items[i], i, Whole), WithLine(h, s, items[i], i, Excerpt), WithLine(h, s, items[i], i, ShortExcerpt);
      r == if Room(h, cap, whole.lines, whole.omitted, whole.excerpts) then whole
           else if Room(h, cap, excerpt.lines, excerpt.omitted, excerpt.excerpts) then excerpt
           else if Room(h, cap, short.lines, short.omitted, short.excerpts) then short
           else s
  {
    var s := SelectFirst(h, cap, items, i);
    WithLineIs(h, items, s, i, Whole);
    WithLineIs(h, items, s, i, Excerpt);
    WithLineIs(h, items, s, i, ShortExcerpt);
    hide Including, WithLine, Joined, Utf8Length, Totals;
  }

  lemma WithLineIs(h: Host, items: seq<Item>, s: Selection, i: nat, form: Form)
    requires i < |items|
    ensures Including(h, items, s, i, form) == WithLine(h, s, items[i], i, form)
  {
    hide Render;
  }

  /** The totals: how many items there are of each category, in the order of the counts. */
  lemma {:induction false} TotalsCount(items: seq<Item>, item: Item)
    ensures forall k :: 0 <= k < 6 ==> Totals(items + [item])[k] - Totals(items)[k] == if OneFewer(Totals(items), item.category)[k] < Totals(items)[k] then 1 else 0
    ensures Totals([]) == [0, 0, 0, 0, 0, 0]
  {
    forall k | 0 <= k < 6 ensures CountOf(items + [item], k) == CountOf(items, k) + if Slot(item.category) == k then 1 else 0 {
      CountLast(items, item, k);
    }
    hide CountOf;
    assert CountOf([], 0) == CountOf([], 1) == CountOf([], 2) == CountOf([], 3) == CountOf([], 4) == CountOf([], 5) == 0 by { NoneCounted(); }
  }

  lemma NoneCounted()
    ensures forall k :: CountOf([], k) == 0
  {
  }

  lemma {:induction false} CountLast(items: seq<Item>, item: Item, slot: nat)
    ensures CountOf(items + [item], slot) == CountOf(items, slot) + if Slot(item.category) == slot then 1 else 0
  {
    hide Slot;
    if items == [] {
      assert [item][1..] == [] && items + [item] == [item];
    } else {
      assert (items + [item])[1..] == items[1..] + [item];
      CountLast(items[1..], item, slot);
    }
  }

  // --- The whole brief ---

  /** The limit: the budget when it is a whole number the language holds exactly, and otherwise 49152 bytes. */
  lemma CapMeans(budget: Option<int>)
    ensures Cap(budget) == match budget
                           case None => 49152
                           case Some(n) => if 0 <= n < 0x20_0000_0000_0000 then n else 49152
  {
  }

  /** A brief with nothing chosen decides: if it fits, the selection is the brief; if not, the first of these that fits:
      the preface, the coverage and the footer; the preface; the coverage; nothing. */
  lemma BriefMeans(h: Host, messages: seq<Message>, budget: Option<int>)
    ensures var items, cap := ItemsOf(messages), Cap(budget); var totals := Totals(items);
      var least := h.preface + [10] + h.coverage + [10] + h.footer(totals, 0);
      TextOf(h, BriefOf(h, messages, budget)) ==
      if Room(h, cap, [], totals, 0) then
        var s := SelectFirst(h, cap, items, |items|);
        Joined([h.preface, h.coverage, h.storage, h.ledger] + s.lines + [h.footer(s.omitted, s.excerpts)])
      else if Utf8Length(least) <= cap then least
      else if Utf8Length(h.preface) <= cap then h.preface
      else if Utf8Length(h.coverage) <= cap then h.coverage
      else []
  {
    var totals := Totals(ItemsOf(messages));
    ThreeJoined(h.preface, h.coverage, h.footer(totals, 0));
    hide ItemsOf, Totals, SelectFirst, Joined, Utf8Length;
  }

  lemma ThreeJoined(a: Str, b: Str, c: Str)
    ensures Joined([a, b, c]) == a + [10] + b + [10] + c
  {
    JoinedLast([a], b);
    JoinedLast([a, b], c);
    assert [a] + [b] == [a, b] && [a, b] + [c] == [a, b, c];
    hide Joined;
    JoinedLast([], a);
  }
}
