/** The bounded brief of a window's claims (extension/coordination-notes.ts). */
module Brief {
  import opened Options
  import opened Strings
  import opened Utf8
  import opened Notes
  import opened Claims
  import SessionText

  const MAX_BRIEF_BYTES: nat := 49152

  datatype Category = CompleteGroups | RequestsWithoutResponse | OutsideWindowResponses | NonRequestTargets | Decisions | FreeText

  /** What a line is about. */
  datatype Subject = OfGroup(group: Group) | OfDecision(message: nat) | OfText(message: nat)

  datatype Item = Item(category: Category, subject: Subject)

  /** Whole text, or excerpts of at most 256 or 64 bytes. */
  datatype Form = Whole | Excerpt | ShortExcerpt

  type Counts = c: seq<int> | |c| == 6 witness [0, 0, 0, 0, 0, 0]

  function Slot(c: Category): (i: nat)
    ensures i < 6
  {
    match c
    case CompleteGroups => 0
    case RequestsWithoutResponse => 1
    case OutsideWindowResponses => 2
    case NonRequestTargets => 3
    case Decisions => 4
    case FreeText => 5
  }

  /** What surrounds the lines, and how the parts of a line are written: a group's relation and reference, one request
      claim, one response claim beside the group's first request, whose owner it is compared with, a decision, a free text. */
  datatype Host = Host(preface: Str, coverage: Str, storage: Str, ledger: Str, footer: (Counts, nat) -> Str,
                       head: (Category, Reference) -> Str, request: (nat, Form) -> Str, response: (nat, Option<nat>, Form) -> Str,
                       decision: (nat, Form) -> Str, text: (nat, Form) -> Str)

  // --- Items, groups with both sides first ---

  function Rank(g: Group): nat {
    if |g.requests| > 0 && |g.responses| > 0 then 0 else if |g.requests| > 0 then 1 else 2
  }

  function OfRank(groups: seq<Group>, rank: nat): seq<Group> {
    if |groups| == 0 then [] else (if Rank(groups[0]) == rank then [groups[0]] else []) + OfRank(groups[1..], rank)
  }

  /** Ranked first, then in the order the groups were made: what the stable sort leaves. */
  function Ranked(groups: seq<Group>): seq<Group> {
    OfRank(groups, 0) + (OfRank(groups, 1) + OfRank(groups, 2))
  }

  function CategoryOf(g: Group, inWindow: bool): Category {
    if |g.requests| > 0 && |g.responses| > 0 then CompleteGroups
    else if |g.requests| > 0 then RequestsWithoutResponse
    else if inWindow then NonRequestTargets
    else OutsideWindowResponses
  }

  function InWindow(messages: seq<Message>): set<Reference> {
    set i | 0 <= i < |messages| && messages[i].ref.Some? :: messages[i].ref.value
  }

  function GroupItems(groups: seq<Group>, window: set<Reference>): seq<Item> {
    if |groups| == 0 then []
    else [Item(CategoryOf(groups[0], groups[0].ref in window), OfGroup(groups[0]))] + GroupItems(groups[1..], window)
  }

  function DecisionItems(ds: seq<nat>): seq<Item> {
    if |ds| == 0 then [] else [Item(Decisions, OfDecision(ds[0]))] + DecisionItems(ds[1..])
  }

  function TextItems(fs: seq<nat>): seq<Item> {
    if |fs| == 0 then [] else [Item(FreeText, OfText(fs[0]))] + TextItems(fs[1..])
  }

  function ItemsOf(messages: seq<Message>): seq<Item> {
    var s := SortFirst(messages, |messages|);
    GroupItems(Ranked(s.groups), InWindow(messages)) + (DecisionItems(s.decisions) + TextItems(s.free))
  }

  // --- Choosing what fits ---

  /** An item taken, and the form it was written in. */
  datatype Choice = Choice(item: nat, form: Form)

  datatype Selection = Selection(chosen: seq<Choice>, lines: seq<Str>, omitted: Counts, excerpts: nat)

  function Joined(lines: seq<Str>): Str {
    if |lines| == 0 then [] else if |lines| == 1 then lines[0] else lines[0] + ([10] + Joined(lines[1..]))
  }

  function Assembled(h: Host, lines: seq<Str>, omitted: Counts, excerpts: nat): Str {
    Joined([h.preface, h.coverage, h.storage, h.ledger] + lines + [h.footer(omitted, excerpts)])
  }

  predicate Fits(h: Host, cap: nat, s: Selection) {
    Utf8Length(Assembled(h, s.lines, s.omitted, s.excerpts)) <= cap
  }

  // --- Lines ---

  const REQUESTS_MARK: Str := Units(",\"requestClaims\":[")
  const RESPONSES_MARK: Str := Units("],\"responses\":[")
  const GROUP_END: Str := Units("]}")

  function Listed(texts: seq<Str>): Str {
    if |texts| == 0 then [] else if |texts| == 1 then texts[0] else texts[0] + ([44] + Listed(texts[1..]))
  }

  function RequestTexts(h: Host, requests: seq<nat>, form: Form): seq<Str> {
    seq(|requests|, i requires 0 <= i < |requests| => h.request(requests[i], form))
  }

  function ResponseTexts(h: Host, responses: seq<nat>, first: Option<nat>, form: Form): seq<Str> {
    seq(|responses|, i requires 0 <= i < |responses| => h.response(responses[i], first, form))
  }

  /** A group's line lists its request claims and then its responses; the category fixes the relation it is headed with. */
  function GroupLine(h: Host, category: Category, ref: Reference, requests: seq<nat>, responses: seq<nat>, form: Form): Str {
    var first := if |requests| == 0 then None else Some(requests[0]);
    h.head(category, ref) + (REQUESTS_MARK + (Listed(RequestTexts(h, requests, form))
    + (RESPONSES_MARK + (Listed(ResponseTexts(h, responses, first, form)) + GROUP_END))))
  }

  function Render(h: Host, item: Item, form: Form): Str {
    match item.subject
    case OfGroup(g) => GroupLine(h, item.category, g.ref, g.requests, g.responses, form)
    case OfDecision(m) => h.decision(m, form)
    case OfText(m) => h.text(m, form)
  }

  function Marked(h: Host, item: Item, form: Form): bool {
    form != Whole && Render(h, item, form) != Render(h, item, Whole)
  }

  /** The selection with one more item; its category's omissions go down by one. */
  function Including(h: Host, items: seq<Item>, s: Selection, i: nat, form: Form): Selection
    requires i < |items|
  {
    var slot := Slot(items[i].category);
    Selection(s.chosen + [Choice(i, form)], s.lines + [Render(h, items[i], form)],
              s.omitted[slot := s.omitted[slot] - 1], s.excerpts + (if Marked(h, items[i], form) then 1 else 0))
  }

  /** The first form that fits, if any. */
  function Considered(h: Host, cap: nat, items: seq<Item>, s: Selection, i: nat): Selection
    requires i < |items|
  {
    if Fits(h, cap, Including(h, items, s, i, Whole)) then Including(h, items, s, i, Whole)
    else if Fits(h, cap, Including(h, items, s, i, Excerpt)) then Including(h, items, s, i, Excerpt)
    else if Fits(h, cap, Including(h, items, s, i, ShortExcerpt)) then Including(h, items, s, i, ShortExcerpt)
    else s
  }

  function CountOf(items: seq<Item>, slot: nat): nat {
    if |items| == 0 then 0 else (if Slot(items[0].category) == slot then 1 else 0) + CountOf(items[1..], slot)
  }

  function Totals(items: seq<Item>): Counts {
    [CountOf(items, 0), CountOf(items, 1), CountOf(items, 2), CountOf(items, 3), CountOf(items, 4), CountOf(items, 5)]
  }

  function Chosen(items: seq<Item>, chosen: seq<Choice>, slot: nat): nat {
    if |chosen| == 0 then 0
    else
      var c := chosen[|chosen| - 1].item;
      Chosen(items, chosen[..|chosen| - 1], slot) + (if c < |items| && Slot(items[c].category) == slot then 1 else 0)
  }

  /** In every category selected and omitted make the total, one line to a choice, and no item is chosen twice or out
      of order. */
  ghost predicate Conserved(items: seq<Item>, n: nat, s: Selection) {
    && (forall slot :: 0 <= slot < 6 ==> Chosen(items, s.chosen, slot) + s.omitted[slot] == CountOf(items, slot))
    && |s.lines| == |s.chosen|
    && (forall k :: 0 <= k < |s.chosen| ==> s.chosen[k].item < n)
    && (forall j, k :: 0 <= j < k < |s.chosen| ==> s.chosen[j].item < s.chosen[k].item)
  }

  /** Besides, whatever is still to come counts as omitted. */
  ghost predicate Balanced(items: seq<Item>, n: nat, s: Selection)
    requires n <= |items|
  {
    Conserved(items, n, s) && forall slot :: 0 <= slot < 6 ==> s.omitted[slot] >= CountOf(items[n..], slot)
  }

  lemma IncludingBalances(h: Host, items: seq<Item>, s: Selection, n: nat, form: Form)
    requires n < |items| && Balanced(items, n, s)
    ensures Balanced(items, n + 1, Including(h, items, s, n, form))
  {
    hide Slot, Marked;
    var v := Including(h, items, s, n, form);
    assert v.chosen[..|s.chosen|] == s.chosen;
    assert items[n..][0] == items[n] && items[n..][1..] == items[n + 1..];
  }

  lemma SkippingBalances(items: seq<Item>, s: Selection, n: nat)
    requires n < |items| && Balanced(items, n, s)
    ensures Balanced(items, n + 1, s)
  {
    hide Slot;
    assert items[n..][0] == items[n] && items[n..][1..] == items[n + 1..];
  }

  lemma ConsideredBalances(h: Host, cap: nat, items: seq<Item>, s: Selection, n: nat)
    requires n < |items| && Balanced(items, n, s)
    ensures Balanced(items, n + 1, Considered(h, cap, items, s, n))
  {
    hide Balanced, Including, Fits, Slot;
    IncludingBalances(h, items, s, n, Whole);
    IncludingBalances(h, items, s, n, Excerpt);
    IncludingBalances(h, items, s, n, ShortExcerpt);
    SkippingBalances(items, s, n);
  }

  /** The selection after the first `n` items were considered in order. */
  function SelectFirst(h: Host, cap: nat, items: seq<Item>, n: nat): Selection
    requires n <= |items|
  {
    if n == 0 then Selection([], [], Totals(items), 0)
    else Considered(h, cap, items, SelectFirst(h, cap, items, n - 1), n - 1)
  }

  lemma {:induction false} SelectionBalances(h: Host, cap: nat, items: seq<Item>, n: nat)
    requires n <= |items|
    ensures Balanced(items, n, SelectFirst(h, cap, items, n))
  {
    hide Balanced, Considered, Totals;
    if n == 0 {
      StartBalanced(items);
    } else {
      SelectionBalances(h, cap, items, n - 1);
      ConsideredBalances(h, cap, items, SelectFirst(h, cap, items, n - 1), n - 1);
    }
  }

  lemma StartBalanced(items: seq<Item>)
    ensures Balanced(items, 0, Selection([], [], Totals(items), 0))
  {
    assert items[0..] == items;
  }

  // --- The brief ---

  datatype Brief = Full(selection: Selection) | Minimal(text: Str) | Nothing

  function TextOf(h: Host, b: Brief): Str {
    match b
    case Full(s) => Assembled(h, s.lines, s.omitted, s.excerpts)
    case Minimal(text) => text
    case Nothing => []
  }

  function Cap(budget: Option<int>): nat {
    if budget.Some? && 0 <= budget.value <= 9007199254740991 then budget.value else MAX_BRIEF_BYTES
  }

  function Shortest(h: Host, cap: nat, totals: Counts): Brief {
    var minimal := Joined([h.preface, h.coverage, h.footer(totals, 0)]);
    if Utf8Length(minimal) <= cap then Minimal(minimal)
    else if Utf8Length(h.preface) <= cap then Minimal(h.preface)
    else if Utf8Length(h.coverage) <= cap then Minimal(h.coverage)
    else Nothing
  }

  /** The brief as a function of the page. */
  function BriefOf(h: Host, messages: seq<Message>, budget: Option<int>): Brief {
    var items, cap := ItemsOf(messages), Cap(budget);
    if Fits(h, cap, Selection([], [], Totals(items), 0)) then Full(SelectFirst(h, cap, items, |items|))
    else Shortest(h, cap, Totals(items))
  }

  method FormatBrief(h: Host, messages: seq<Message>, budget: Option<int>) returns (b: Brief)
    ensures b == BriefOf(h, messages, budget)
  {
    hide Including, Fits, Shortest, Render, Totals, Ranked, GroupItems, DecisionItems, TextItems, InWindow, SortFirst;
    var cap := Cap(budget);
    var groups, decisions, free := SortMessages(messages);
    var items := GroupItems(Ranked(groups), InWindow(messages)) + (DecisionItems(decisions) + TextItems(free));
    hide ItemsOf;
    assert items == ItemsOf(messages) by { ItemsAre(messages); }
    var s := Selection([], [], Totals(items), 0);
    if !Fits(h, cap, s) {
      return Shortest(h, cap, Totals(items));
    }
    var i := 0;
    while i < |items|
      invariant 0 <= i <= |items| && s == SelectFirst(h, cap, items, i)
    {
      var whole := Including(h, items, s, i, Whole);
      var excerpt := Including(h, items, s, i, Excerpt);
      var short := Including(h, items, s, i, ShortExcerpt);
      if Fits(h, cap, whole) {
        s := whole;
      } else if Fits(h, cap, excerpt) {
        s := excerpt;
      } else if Fits(h, cap, short) {
        s := short;
      }
      i := i + 1;
    }
    b := Full(s);
  }

  lemma ItemsAre(messages: seq<Message>)
    ensures var s := SortFirst(messages, |messages|);
      ItemsOf(messages) == GroupItems(Ranked(s.groups), InWindow(messages)) + (DecisionItems(s.decisions) + TextItems(s.free))
  {
  }

  // --- The theorems ---

  lemma {:induction false} SelectionFits(h: Host, cap: nat, items: seq<Item>, n: nat)
    requires n <= |items| && Fits(h, cap, Selection([], [], Totals(items), 0))
    ensures Fits(h, cap, SelectFirst(h, cap, items, n))
  {
    hide Fits, Including, Totals, Slot;
    if n != 0 {
      SelectionFits(h, cap, items, n - 1);
    }
  }

  /** For every page and every budget the brief is at most the budget in bytes. */
  lemma BriefIsBounded(h: Host, messages: seq<Message>, budget: Option<int>)
    ensures Utf8Length(TextOf(h, BriefOf(h, messages, budget))) <= Cap(budget)
  {
    var items, cap := ItemsOf(messages), Cap(budget);
    hide ItemsOf, Totals, Joined, Cap;
    if Fits(h, cap, Selection([], [], Totals(items), 0)) {
      SelectionFits(h, cap, items, |items|);
    }
  }

  /** Every full brief conserves its items, and no omitted count is negative. */
  lemma BriefConserves(h: Host, messages: seq<Message>, budget: Option<int>)
    requires BriefOf(h, messages, budget).Full?
    ensures var s, items := BriefOf(h, messages, budget).selection, ItemsOf(messages);
      Conserved(items, |items|, s) && forall slot :: 0 <= slot < 6 ==> s.omitted[slot] >= 0
  {
    var items := ItemsOf(messages);
    hide ItemsOf, Slot, SelectFirst, Totals, Fits, Conserved, Cap;
    SelectionBalances(h, Cap(budget), items, |items|);
  }

  /** An item is left out only when none of its forms fitted after the items chosen before it. */
  lemma {:induction false} OmittedOnlyWithoutRoom(h: Host, cap: nat, items: seq<Item>, n: nat, i: nat, form: Form)
    requires i < n <= |items|
    requires forall k :: 0 <= k < |SelectFirst(h, cap, items, n).chosen| ==> SelectFirst(h, cap, items, n).chosen[k].item != i
    ensures var before := SelectFirst(h, cap, items, i);
      !Fits(h, cap, Including(h, items, before, i, form))
  {
    hide Fits, Totals, Slot, Balanced;
    var before := SelectFirst(h, cap, items, n - 1);
    var after := SelectFirst(h, cap, items, n);
    if i == n - 1 {
      ConsideredTakes(h, cap, items, before, i);
    } else {
      assert forall k :: 0 <= k < |before.chosen| ==> after.chosen[k] == before.chosen[k];
      OmittedOnlyWithoutRoom(h, cap, items, n - 1, i, form);
    }
  }

  lemma ConsideredTakes(h: Host, cap: nat, items: seq<Item>, s: Selection, i: nat)
    requires i < |items|
    ensures var r := Considered(h, cap, items, s, i);
      if Fits(h, cap, Including(h, items, s, i, Whole)) || Fits(h, cap, Including(h, items, s, i, Excerpt))
         || Fits(h, cap, Including(h, items, s, i, ShortExcerpt))
      then |r.chosen| != 0 && r.chosen[|r.chosen| - 1].item == i
      else r == s
  {
    hide Fits, Slot, Marked;
  }

  // --- Items and claims ---

  lemma {:induction false} RankCounts(groups: seq<Group>, rank: nat, g: Group)
    ensures multiset(OfRank(groups, rank))[g] == if Rank(g) == rank then multiset(groups)[g] else 0
  {
    hide Rank;
    if |groups| != 0 {
      RankCounts(groups[1..], rank, g);
      assert groups == [groups[0]] + groups[1..];
    }
  }

  /** Ranking only reorders the groups. */
  lemma RankedPermutes(groups: seq<Group>)
    ensures multiset(Ranked(groups)) == multiset(groups)
  {
    hide OfRank;
    forall g ensures multiset(Ranked(groups))[g] == multiset(groups)[g] {
      RankCounts(groups, 0, g);
      RankCounts(groups, 1, g);
      RankCounts(groups, 2, g);
    }
  }

  lemma {:induction false} GroupItemsAre(groups: seq<Group>, window: set<Reference>)
    ensures |GroupItems(groups, window)| == |groups|
    ensures forall i :: 0 <= i < |groups| ==>
              GroupItems(groups, window)[i] == Item(CategoryOf(groups[i], groups[i].ref in window), OfGroup(groups[i]))
  {
    if |groups| != 0 {
      GroupItemsAre(groups[1..], window);
    }
  }

  lemma {:induction false} OtherItemsAre(ds: seq<nat>)
    ensures |DecisionItems(ds)| == |ds| == |TextItems(ds)|
    ensures forall i :: 0 <= i < |ds| ==> DecisionItems(ds)[i].subject == OfDecision(ds[i]) && TextItems(ds)[i].subject == OfText(ds[i])
  {
    if |ds| != 0 {
      OtherItemsAre(ds[1..]);
    }
  }

  lemma RankedMember(groups: seq<Group>, i: nat)
    requires i < |Ranked(groups)|
    ensures Ranked(groups)[i] in groups
  {
    hide Ranked;
    RankedPermutes(groups);
    assert Ranked(groups)[i] in multiset(Ranked(groups));
  }

  lemma GroupOfItem(messages: seq<Message>, i: nat)
    requires i < |ItemsOf(messages)| && ItemsOf(messages)[i].subject.OfGroup?
    ensures ItemsOf(messages)[i].subject.group in SortFirst(messages, |messages|).groups
  {
    var s := SortFirst(messages, |messages|);
    var ranked := Ranked(s.groups);
    GroupItemsAre(ranked, InWindow(messages));
    OtherItemsAre(s.decisions);
    OtherItemsAre(s.free);
    ItemsAre(messages);
    hide SortFirst, CategoryOf, InWindow, Ranked, ItemsOf, GroupItems, DecisionItems, TextItems;
    assert i < |ranked|;
    RankedMember(s.groups, i);
  }

  /** A group's item holds every request and every response of its target in the window, in order. */
  lemma GroupItemIsWhole(messages: seq<Message>, i: nat)
    requires i < |ItemsOf(messages)| && ItemsOf(messages)[i].subject.OfGroup?
    ensures var g := ItemsOf(messages)[i].subject.group;
      && g.requests == At(messages, |messages|, ToRequest(g.ref))
      && g.responses == At(messages, |messages|, ToResponse(g.ref))
  {
    GroupOfItem(messages, i);
    hide ItemsOf, SortFirst, At, Find;
    SortingIsExact(messages, |messages|);
  }

  /** Every line is its chosen item, written in the chosen form. */
  ghost predicate Rendered(h: Host, items: seq<Item>, s: Selection) {
    |s.lines| == |s.chosen| && forall k :: 0 <= k < |s.chosen| ==>
      s.chosen[k].item < |items| && s.lines[k] == Render(h, items[s.chosen[k].item], s.chosen[k].form)
  }

  lemma {:induction false} SelectionRenders(h: Host, cap: nat, items: seq<Item>, n: nat)
    requires n <= |items|
    ensures Rendered(h, items, SelectFirst(h, cap, items, n))
  {
    hide Fits, Render;
    if n != 0 {
      SelectionRenders(h, cap, items, n - 1);
    }
  }

  /** The line of a group in a brief lists, in order, every request for its target in the window and every response to
      it, each written in the line's form. */
  lemma GroupLineIsWhole(h: Host, messages: seq<Message>, budget: Option<int>, k: nat)
    requires BriefOf(h, messages, budget).Full? && k < |BriefOf(h, messages, budget).selection.chosen|
    requires var choice := BriefOf(h, messages, budget).selection.chosen[k];
      choice.item < |ItemsOf(messages)| && ItemsOf(messages)[choice.item].subject.OfGroup?
    ensures var s := BriefOf(h, messages, budget).selection;
      var item := ItemsOf(messages)[s.chosen[k].item];
      var ref := item.subject.group.ref;
      && k < |s.lines|
      && s.lines[k] == GroupLine(h, item.category, ref, At(messages, |messages|, ToRequest(ref)), At(messages, |messages|, ToResponse(ref)),
                                 s.chosen[k].form)
  {
    hide ItemsOf, At, Fits, GroupLine, SelectFirst, Totals;
    var items := ItemsOf(messages);
    SelectionRenders(h, Cap(budget), items, |items|);
    GroupItemIsWhole(messages, BriefOf(h, messages, budget).selection.chosen[k].item);
  }

  /** One item for every group, decision and free text. */
  lemma ItemsCoverEverything(messages: seq<Message>)
    ensures var s := SortFirst(messages, |messages|);
      |ItemsOf(messages)| == |s.groups| + |s.decisions| + |s.free|
  {
    var s := SortFirst(messages, |messages|);
    hide SortFirst;
    GroupItemsAre(Ranked(s.groups), InWindow(messages));
    OtherItemsAre(s.decisions);
    OtherItemsAre(s.free);
    RankedPermutes(s.groups);
    hide Ranked;
    assert |multiset(Ranked(s.groups))| == |Ranked(s.groups)|;
  }

  // --- Excerpts ---

  function FirstPiece(s: Str): (piece: Str)
    requires |s| != 0
    ensures 1 <= |piece| <= |s|
  {
    if Pair(s) then s[..2] else s[..1]
  }

  /** An excerpt of well-formed text is its longest prefix of whole code points within the limit. */
  method TakePrefix(value: Str, maxBytes: nat) returns (out: Str)
    requires WellFormed(value)
    ensures out == SessionText.Prefix(value, maxBytes)
  {
    hide Utf8Length, WellFormed, SessionText.Prefix, FirstPiece;
    var used, i := 0, 0;
    out := [];
    assert value[0..] == value;
    while i < |value|
      invariant 0 <= i <= |value| && used <= maxBytes && WellFormed(value[i..])
      invariant SessionText.Prefix(value, maxBytes) == out + SessionText.Prefix(value[i..], maxBytes - used)
    {
      var piece := FirstPiece(value[i..]);
      var size := Utf8Length(piece);
      PrefixStep(value[i..], maxBytes - used);
      if used + size > maxBytes {
        assert out + [] == out;
        return;
      }
      assert value[i..][|piece|..] == value[i + |piece|..];
      ghost var rest := SessionText.Prefix(value[i + |piece|..], maxBytes - used - size);
      assert out + (piece + rest) == (out + piece) + rest;
      out, used, i := out + piece, used + size, i + |piece|;
    }
    PrefixOfNothing(maxBytes - used);
    assert value[i..] == [] && out + [] == out;
  }

  lemma PrefixOfNothing(room: nat)
    ensures SessionText.Prefix([], room) == []
  {
  }

  lemma PrefixStep(s: Str, room: nat)
    requires |s| != 0 && WellFormed(s)
    ensures var piece := FirstPiece(s);
      && WellFormed(s[|piece|..])
      && SessionText.Prefix(s, room) == if Utf8Length(piece) > room then []
                                        else piece + SessionText.Prefix(s[|piece|..], room - Utf8Length(piece))
  {
    var piece := FirstPiece(s);
    assert piece == SessionText.FirstChar(s);
    SessionText.CharLength(piece, []);
    assert piece + [] == piece;
  }
}
