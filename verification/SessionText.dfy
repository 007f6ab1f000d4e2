/** What a session entry shows (extension/operator-session-projection.ts): bounded previews and their records. */
module SessionText {
  import opened Options
  import opened Strings
  import opened Utf8
  import opened JsonText

  const MAX_TEXT: nat := 16384
  const MAX_BLOCKS: nat := 128
  const MAX_TOOL_NAME: nat := 256
  const REPLACEMENT: Unit := 0xFFFD

  datatype Shown = Shown(text: Str, truncated: bool)

  /** The next code point: how many units it takes, and what is shown for it. */
  function FirstChar(s: Str): (c: Str)
    requires |s| != 0
    ensures 1 <= |c| <= 2 && |c| <= |s|
  {
    if Pair(s) then s[..2] else if High(s[0]) || Low(s[0]) then [REPLACEMENT] else [s[0]]
  }

  function CharBytes(c: Str): nat {
    if Pair(c) then 4 else if |c| == 0 then 0 else UnitLength(c[0])
  }

  /** The longest run of whole code points that fits, with lone surrogates replaced. */
  function Prefix(s: Str, room: nat): Str {
    if |s| == 0 then []
    else
      var c := FirstChar(s);
      if CharBytes(c) > room then [] else c + Prefix(s[|c|..], room - CharBytes(c))
  }

  function Preview(s: Str, maximum: nat): Shown {
    var text := Prefix(s, maximum);
    Shown(text, |text| < |s|)
  }

  method PreviewLoop(s: Str, maximum: nat) returns (r: Shown)
    ensures r == Preview(s, maximum)
  {
    hide CharBytes, FirstChar;
    var text: Str := [];
    var used, consumed := 0, 0;
    while consumed < |s|
      invariant consumed <= |s| && used <= maximum && |text| == consumed
      invariant Prefix(s, maximum) == text + Prefix(s[consumed..], maximum - used)
    {
      var c := FirstChar(s[consumed..]);
      var bytes := CharBytes(c);
      if used + bytes > maximum {
        break;
      }
      assert s[consumed..][|c|..] == s[consumed + |c|..];
      ghost var rest := Prefix(s[consumed + |c|..], maximum - used - bytes);
      assert text + (c + rest) == (text + c) + rest;
      text, used, consumed := text + c, used + bytes, consumed + |c|;
    }
    r := Shown(text, consumed < |s|);
  }

  lemma CharLength(c: Str, rest: Str)
    requires (Pair(c) && |c| == 2) || (|c| == 1 && !High(c[0]) && !Low(c[0]))
    ensures Utf8Length(c + rest) == CharBytes(c) + Utf8Length(rest)
    ensures WellFormed(rest) ==> WellFormed(c + rest)
  {
    assert (c + rest)[|c|..] == rest;
  }

  /** A preview is at most its limit in bytes, never longer than its source, and has no lone surrogate. */
  lemma {:induction false} PrefixBounded(s: Str, room: nat)
    ensures Utf8Length(Prefix(s, room)) <= room && |Prefix(s, room)| <= |s| && WellFormed(Prefix(s, room))
    decreases |s|
  {
    if |s| != 0 {
      var c := FirstChar(s);
      if CharBytes(c) <= room {
        PrefixBounded(s[|c|..], room - CharBytes(c));
        CharLength(c, Prefix(s[|c|..], room - CharBytes(c)));
      }
    }
  }

  /** The first code point of well-formed text is shown as it is. */
  lemma FormedHead(s: Str)
    requires |s| != 0 && WellFormed(s)
    ensures var c := FirstChar(s);
      && ((Pair(c) && |c| == 2) || (|c| == 1 && !High(c[0]) && !Low(c[0])))
      && s == c + s[|c|..] && WellFormed(s[|c|..]) && Utf8Length(s) == CharBytes(c) + Utf8Length(s[|c|..])
  {
  }

  /** Text without lone surrogates that fits is shown whole; a cut preview left no room for the next code point. */
  lemma {:induction false} PrefixIsLongest(s: Str, room: nat)
    requires WellFormed(s)
    ensures Prefix(s, room) <= s
    ensures var n := |Prefix(s, room)|; n < |s| ==> Utf8Length(Prefix(s, room)) + CharBytes(FirstChar(s[n..])) > room
    ensures Utf8Length(s) <= room ==> Prefix(s, room) == s
    decreases |s|
  {
    assert Utf8Length([]) == 0;
    hide Utf8Length, WellFormed, FirstChar, CharBytes;
    if |s| != 0 {
      FormedHead(s);
      var c := FirstChar(s);
      var rest := s[|c|..];
      if CharBytes(c) <= room {
        var p := Prefix(rest, room - CharBytes(c));
        PrefixIsLongest(rest, room - CharBytes(c));
        CharLength(c, p);
        assert s[|c + p|..] == rest[|p|..];
      }
    }
  }

  // --- Content ---

  /** A text block may lack its text; every other block is left out. */
  datatype Block = TextBlock(text: Option<Str>) | OtherBlock

  datatype Content = Plain(text: Str) | Blocks(blocks: seq<Block>) | Unreadable

  function BlockShown(b: Block, room: nat): Shown {
    match b
    case TextBlock(Some(s)) => Preview(s, room)
    case TextBlock(None) => Shown([], false)
    case OtherBlock => Shown([], true)
  }

  /** Blocks joined until the room is used up. */
  function Joined(blocks: seq<Block>, text: Str, truncated: bool): Shown {
    if |blocks| == 0 then Shown(text, truncated)
    else
      var used := Utf8Length(text);
      var part := BlockShown(blocks[0], if used < MAX_TEXT then MAX_TEXT - used else 0);
      Joined(blocks[1..], text + part.text, truncated || part.truncated)
  }

  function ContentShown(c: Content): Shown {
    match c
    case Plain(s) => Preview(s, MAX_TEXT)
    case Blocks(bs) => Joined(if |bs| > MAX_BLOCKS then bs[..MAX_BLOCKS] else bs, [], |bs| > MAX_BLOCKS)
    case Unreadable => Shown([], true)
  }

  /** `content` over its blocks as the loop it is. */
  method JoinBlocks(blocks: seq<Block>) returns (r: Shown)
    ensures r == ContentShown(Blocks(blocks))
  {
    hide Utf8Length, BlockShown;
    var kept := if |blocks| > MAX_BLOCKS then blocks[..MAX_BLOCKS] else blocks;
    var text: Str, truncated := [], |blocks| > MAX_BLOCKS;
    var i := 0;
    assert kept[0..] == kept;
    while i < |kept|
      invariant 0 <= i <= |kept|
      invariant Joined(kept, [], |blocks| > MAX_BLOCKS) == Joined(kept[i..], text, truncated)
    {
      assert kept[i..][0] == kept[i] && kept[i..][1..] == kept[i + 1..];
      var used := Utf8Length(text);
      var part := BlockShown(kept[i], if used < MAX_TEXT then MAX_TEXT - used else 0);
      text, truncated := text + part.text, truncated || part.truncated;
      i := i + 1;
    }
    r := Shown(text, truncated);
  }

  lemma {:induction false} JoinedBounded(blocks: seq<Block>, text: Str, truncated: bool)
    requires WellFormed(text) && Utf8Length(text) <= MAX_TEXT
    ensures var r := Joined(blocks, text, truncated).text; Utf8Length(r) <= MAX_TEXT && WellFormed(r)
  {
    if |blocks| != 0 {
      var room := if Utf8Length(text) < MAX_TEXT then MAX_TEXT - Utf8Length(text) else 0;
      var part := BlockShown(blocks[0], room);
      if blocks[0].TextBlock? && blocks[0].text.Some? {
        PrefixBounded(blocks[0].text.value, room);
      }
      FormedAppend(text, part.text);
      hide Utf8Length, WellFormed, BlockShown;
      JoinedBounded(blocks[1..], text + part.text, truncated || part.truncated);
    }
  }

  lemma ContentBounded(c: Content)
    ensures Utf8Length(ContentShown(c).text) <= MAX_TEXT
  {
    match c
    case Plain(s) => PrefixBounded(s, MAX_TEXT);
    case Blocks(bs) => JoinedBounded(if |bs| > MAX_BLOCKS then bs[..MAX_BLOCKS] else bs, [], |bs| > MAX_BLOCKS);
    case Unreadable =>
  }

  // --- Records ---

  datatype Role = User | Assistant | Custom | ToolSummary

  function RoleText(r: Role): (s: Str)
    ensures |s| <= 12 && IsAscii(s)
  {
    match r
    case User => Units("user")
    case Assistant => Units("assistant")
    case Custom => Units("custom")
    case ToolSummary => Units("tool-summary")
  }

  datatype Record = Record(entryId: Str, role: Role, text: Str)

  datatype Body =
    | Compaction
    | Spoken(role: Role, content: Content)
    | ToolResult(name: Option<Str>, failed: bool)
    | OtherMessage
    | OtherEntry

  datatype Projected = Projected(record: Option<Record>, truncated: bool)

  const TOOL_LEAD: Str := Units("Tool ")
  const TOOL_FAILED: Str := Units(": reported error. Raw arguments ") + Units("and output omitted.")
  const TOOL_RETURNED: Str := Units(": returned. Raw arguments ") + Units("and output omitted.")

  function ToolText(name: Option<Str>, failed: bool): Str {
    TOOL_LEAD + (if name.Some? then Preview(name.value, MAX_TOOL_NAME).text else []) + (if failed then TOOL_FAILED else TOOL_RETURNED)
  }

  function Project(id: Str, body: Body): Projected {
    match body
    case Spoken(role, content) =>
      var shown := ContentShown(content);
      Projected(if |shown.text| == 0 then None else Some(Record(id, role, shown.text)), shown.truncated)
    case ToolResult(name, failed) => Projected(Some(Record(id, ToolSummary, ToolText(name, failed))), true)
    case OtherEntry => Projected(None, false)
    case _ => Projected(None, true)
  }

  lemma ToolTextBounded(name: Option<Str>, failed: bool)
    ensures Utf8Length(ToolText(name, failed)) <= MAX_TEXT
  {
    var inner := if name.Some? then Preview(name.value, MAX_TOOL_NAME).text else [];
    if name.Some? {
      PrefixBounded(name.value, MAX_TOOL_NAME);
    }
    var end := if failed then TOOL_FAILED else TOOL_RETURNED;
    AsciiLength(TOOL_LEAD);
    AsciiLength(end);
    assert |TOOL_LEAD| == 5 && |end| <= 60;
    hide Preview, Utf8Length;
    Utf8Append(TOOL_LEAD, inner);
    Utf8Append(TOOL_LEAD + inner, end);
  }

  /** Every record's text is at most 16384 bytes. */
  lemma RecordBounded(id: Str, body: Body)
    ensures Project(id, body).record.Some? ==> Utf8Length(Project(id, body).record.value.text) <= MAX_TEXT
  {
    hide Utf8Length, ContentShown, ToolText;
    match body
    case Spoken(_, content) => ContentBounded(content);
    case ToolResult(name, failed) => ToolTextBounded(name, failed);
    case _ =>
  }
}
