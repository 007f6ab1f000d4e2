/** What a session record shows of its entry, told from the entry alone (extension/operator-session-projection.ts). */
module SessionContents {
  import opened Options
  import opened Strings
  import opened Utf8
  import opened SessionText

  /** A text with every lone surrogate replaced by U+FFFD. */
  function Cleaned(s: Str): (r: Str)
    ensures |r| == |s|
  {
    if s == [] then []
    else if |s| > 1 && 0xD800 <= s[0] < 0xDC00 <= s[1] < 0xE000 then s[..2] + Cleaned(s[2..])
    else [if 0xD800 <= s[0] < 0xE000 then 0xFFFD else s[0]] + Cleaned(s[1..])
  }

  lemma {:induction false} CleanedFormed(s: Str)
    ensures WellFormed(Cleaned(s))
  {
    if s != [] {
      if |s| > 1 && 0xD800 <= s[0] < 0xDC00 <= s[1] < 0xE000 {
        CleanedFormed(s[2..]);
        CharLength(s[..2], Cleaned(s[2..]));
      } else {
        CleanedFormed(s[1..]);
        CharLength([if 0xD800 <= s[0] < 0xE000 then 0xFFFD else s[0]], Cleaned(s[1..]));
      }
    }
  }

  lemma CleanedFirst(s: Str)
    requires s != []
    ensures var c := FirstChar(s); Cleaned(s) == c + Cleaned(s[|c|..]) && FirstChar(Cleaned(s)) == c
  {
    var c := FirstChar(s);
    if Pair(s) {
      assert Cleaned(s)[..2] == s[..2];
    } else if |s| > 1 {
      assert Cleaned(s)[1..] == Cleaned(s[1..]);
    }
  }

  /** Showing a text is showing it cleaned. */
  lemma {:induction false} PrefixCleaned(s: Str, room: nat)
    ensures Prefix(s, room) == Prefix(Cleaned(s), room)
    decreases |s|
  {
    if s != [] {
      var c := FirstChar(s);
      CleanedFirst(s);
      assert Cleaned(s)[|c|..] == Cleaned(s[|c|..]);
      hide CharBytes, FirstChar, Cleaned;
      if CharBytes(c) <= room {
        PrefixCleaned(s[|c|..], room - CharBytes(c));
      }
    }
  }

  /** The part of a text shown in some room: all of the cleaned text if it fits, and otherwise its start, cut where the
      next code point does not fit. */
  ghost predicate ShownOf(part: Str, s: Str, room: nat) {
    && part <= Cleaned(s) && Utf8Length(part) <= room && (Utf8Length(Cleaned(s)) <= room ==> part == Cleaned(s))
    && (|part| < |s| ==> Utf8Length(part) + CharBytes(FirstChar(Cleaned(s)[|part|..])) > room)
  }

  lemma PreviewMeans(s: Str, room: nat)
    ensures ShownOf(Preview(s, room).text, s, room) && (Preview(s, room).truncated <==> |Preview(s, room).text| < |s|)
  {
    PrefixCleaned(s, room);
    CleanedFormed(s);
    PrefixIsLongest(Cleaned(s), room);
    PrefixBounded(s, room);
  }

  // --- Blocks ---

  /** The text of a block; a text block without text, and every other block, has none. */
  function TextOf(b: Block): Str {
    if b.TextBlock? && b.text.Some? then b.text.value else []
  }

  function Flatten(parts: seq<Str>): Str {
    if parts == [] then [] else Flatten(parts[..|parts| - 1]) + parts[|parts| - 1]
  }

  /** One part for each block, in order: what is shown of its text in the room the parts before it leave of 16384 bytes. */
  ghost predicate PartsOf(parts: seq<Str>, blocks: seq<Block>) {
    && |parts| == |blocks|
    && forall i :: 0 <= i < |parts| ==>
         Utf8Length(Flatten(parts[..i])) <= 16384 && ShownOf(parts[i], TextOf(blocks[i]), 16384 - Utf8Length(Flatten(parts[..i])))
  }

  /** A block is left out, or its text is cut. */
  predicate Short(b: Block, part: Str) {
    b.OtherBlock? || |part| < |TextOf(b)|
  }

  lemma BlockMeans(b: Block, room: nat)
    ensures var r := BlockShown(b, room); ShownOf(r.text, TextOf(b), room) && (r.truncated <==> Short(b, r.text))
  {
    if b.TextBlock? && b.text.Some? {
      PreviewMeans(b.text.value, room);
    }
  }

  lemma FlattenLast(parts: seq<Str>, part: Str)
    ensures Flatten(parts + [part]) == Flatten(parts) + part
  {
    assert (parts + [part])[..|parts|] == parts;
  }

  lemma PartsLast(parts: seq<Str>, blocks: seq<Block>, part: Str, b: Block)
    requires PartsOf(parts, blocks) && Utf8Length(Flatten(parts)) <= 16384
    requires ShownOf(part, TextOf(b), 16384 - Utf8Length(Flatten(parts)))
    ensures PartsOf(parts + [part], blocks + [b])
  {
    hide ShownOf, Utf8Length, Flatten, TextOf;
    var more, all := parts + [part], blocks + [b];
    forall i | 0 <= i < |more|
      ensures Utf8Length(Flatten(more[..i])) <= 16384 && ShownOf(more[i], TextOf(all[i]), 16384 - Utf8Length(Flatten(more[..i])))
    {
      if i < |parts| {
        assert more[..i] == parts[..i] && more[i] == parts[i] && all[i] == blocks[i];
      } else {
        assert more[..i] == parts;
      }
    }
  }

  lemma {:induction false} JoinedMeans(done: seq<Block>, parts: seq<Str>, rest: seq<Block>, truncated: bool) returns (all: seq<Str>)
    requires PartsOf(parts, done) && WellFormed(Flatten(parts)) && Utf8Length(Flatten(parts)) <= 16384
    requires truncated <==> exists i :: 0 <= i < |parts| && Short(done[i], parts[i])
    ensures PartsOf(all, done + rest) && Joined(rest, Flatten(parts), truncated).text == Flatten(all)
    ensures Joined(rest, Flatten(parts), truncated).truncated <==> exists i :: 0 <= i < |all| && Short((done + rest)[i], all[i])
    decreases |rest|
  {
    hide *;
    if rest == [] {
      all := parts;
      assert done + rest == done;
      JoinedNone(Flatten(parts), truncated);
    } else {
      var b, room := rest[0], 16384 - Utf8Length(Flatten(parts));
      var part := BlockShown(b, room);
      BlockMeans(b, room);
      PartsLast(parts, done, part.text, b);
      FlattenLast(parts, part.text);
      PartFormed(b, room);
      FormedAppend(Flatten(parts), part.text);
      LengthOf(parts, done);
      ShortLast(done, parts, b, part.text);
      assert (done + [b]) + rest[1..] == done + rest;
      JoinedFirst(rest, Flatten(parts), truncated);
      all := JoinedMeans(done + [b], parts + [part.text], rest[1..], truncated || part.truncated);
    }
  }

  lemma LengthOf(parts: seq<Str>, blocks: seq<Block>)
    requires PartsOf(parts, blocks)
    ensures |parts| == |blocks|
  {
  }

  lemma JoinedNone(text: Str, truncated: bool)
    ensures Joined([], text, truncated) == Shown(text, truncated)
  {
  }

  lemma JoinedFirst(blocks: seq<Block>, text: Str, truncated: bool)
    requires blocks != [] && Utf8Length(text) <= 16384
    ensures var part := BlockShown(blocks[0], 16384 - Utf8Length(text));
      Joined(blocks, text, truncated) == Joined(blocks[1..], text + part.text, truncated || part.truncated)
  {
    hide Utf8Length, BlockShown;
  }

  lemma PartFormed(b: Block, room: nat)
    ensures WellFormed(BlockShown(b, room).text) && Utf8Length(BlockShown(b, room).text) <= room
  {
    if b.TextBlock? && b.text.Some? {
      PrefixBounded(b.text.value, room);
    }
  }

  lemma ShortLast(done: seq<Block>, parts: seq<Str>, b: Block, part: Str)
    requires |parts| == |done|
    ensures (exists i :: 0 <= i < |parts + [part]| && Short((done + [b])[i], (parts + [part])[i]))
            <==> (exists i :: 0 <= i < |parts| && Short(done[i], parts[i])) || Short(b, part)
  {
    hide Short;
    var all, more := done + [b], parts + [part];
    if i :| 0 <= i < |parts| && Short(done[i], parts[i]) {
      assert Short(all[i], more[i]);
    }
    assert all[|done|] == b && more[|parts|] == part;
    if i :| 0 <= i < |more| && Short(all[i], more[i]) {
      assert i < |parts| ==> Short(done[i], parts[i]);
    }
  }

  /** Content in blocks shows, in order, what fits of each of its first 128 blocks, and is marked truncated exactly when
      there are more blocks, one is not text, or a text is cut. */
  lemma BlocksMean(blocks: seq<Block>) returns (parts: seq<Str>)
    ensures var kept := if |blocks| > 128 then blocks[..128] else blocks; var r := ContentShown(Blocks(blocks));
      && PartsOf(parts, kept) && r.text == Flatten(parts)
      && (r.truncated <==> |blocks| > 128 || exists i :: 0 <= i < |parts| && Short(kept[i], parts[i]))
  {
    var kept := if |blocks| > 128 then blocks[..128] else blocks;
    assert ContentShown(Blocks(blocks)) == Joined(kept, [], |blocks| > 128);
    NothingJoined();
    hide *;
    parts := JoinedMeans([], [], kept, false);
    assert [] + kept == kept;
    JoinedTruncated(kept, [], |blocks| > 128);
  }

  lemma NothingJoined()
    ensures PartsOf([], []) && Flatten([]) == [] && WellFormed([]) && Utf8Length([]) == 0
  {
  }

  lemma {:induction false} JoinedTruncated(blocks: seq<Block>, text: Str, truncated: bool)
    ensures Joined(blocks, text, truncated).text == Joined(blocks, text, false).text
    ensures Joined(blocks, text, truncated).truncated <==> truncated || Joined(blocks, text, false).truncated
    decreases |blocks|
  {
    hide Utf8Length, BlockShown;
    if blocks != [] {
      var used := Utf8Length(text);
      var part := BlockShown(blocks[0], if used < MAX_TEXT then MAX_TEXT - used else 0);
      JoinedTruncated(blocks[1..], text + part.text, truncated || part.truncated);
      JoinedTruncated(blocks[1..], text + part.text, part.truncated);
    }
  }

  // --- Entries ---

  /** What a message's content shows: a plain text in 16384 bytes, its blocks, or nothing. */
  lemma ContentMeans(c: Content)
    ensures c.Plain? ==> ShownOf(ContentShown(c).text, c.text, 16384)
                         && (ContentShown(c).truncated <==> |ContentShown(c).text| < |c.text|)
    ensures c.Unreadable? ==> ContentShown(c).text == [] && ContentShown(c).truncated
  {
    if c.Plain? {
      PreviewMeans(c.text, 16384);
    }
  }

  /** Spoken content becomes a record of its role exactly when it shows something; a tool result always becomes a summary
      that names the tool, in 256 bytes, and whether it failed; a compaction and any other message become none and mark the
      page truncated, and any other entry becomes none. */
  lemma EntryMeans(id: Str, body: Body)
    ensures var r := Project(id, body);
      match body
      case Spoken(role, content) =>
        && (r.record.Some? <==> ContentShown(content).text != []) && (r.truncated <==> ContentShown(content).truncated)
        && (r.record.Some? ==> r.record.value.entryId == id && r.record.value.role == role
                               && r.record.value.text == ContentShown(content).text)
      case ToolResult(name, failed) =>
        && r.truncated && r.record.Some? && r.record.value.entryId == id && r.record.value.role == ToolSummary
        && exists shown :: ToolNamed(shown, name)
             && r.record.value.text == Units("Tool ") + shown + Units(if failed then ": reported error. Raw arguments and output omitted."
                                                                      else ": returned. Raw arguments and output omitted.")
      case OtherEntry => r.record.None? && !r.truncated
      case _ => r.record.None? && r.truncated
  {
    if body.ToolResult? {
      var shown := if body.name.Some? then Preview(body.name.value, MAX_TOOL_NAME).text else [];
      if body.name.Some? {
        PreviewMeans(body.name.value, 256);
      }
      ToolWords();
      assert ToolNamed(shown, body.name);
      hide Preview, ContentShown, ToolNamed, Units;
    }
    hide ContentShown;
  }

  ghost predicate ToolNamed(shown: Str, name: Option<Str>) {
    if name.Some? then ShownOf(shown, name.value, 256) else shown == []
  }

  lemma ToolWords()
    ensures TOOL_LEAD == Units("Tool ")
    ensures TOOL_FAILED == Units(": reported error. Raw arguments and output omitted.")
    ensures TOOL_RETURNED == Units(": returned. Raw arguments and output omitted.")
  {
    FailedWords();
    ReturnedWords();
    hide Units, TOOL_FAILED, TOOL_RETURNED;
  }

  lemma FailedWords()
    ensures TOOL_FAILED == Units(": reported error. Raw arguments and output omitted.")
  {
    hide Units;
    UnitsJoin(": reported error. Raw arguments ", "and output omitted.");
    assert ": reported error. Raw arguments " + "and output omitted." == ": reported error. Raw arguments and output omitted.";
  }

  lemma ReturnedWords()
    ensures TOOL_RETURNED == Units(": returned. Raw arguments and output omitted.")
  {
    hide Units;
    UnitsJoin(": returned. Raw arguments ", "and output omitted.");
    assert ": returned. Raw arguments " + "and output omitted." == ": returned. Raw arguments and output omitted.";
  }

  lemma UnitsJoin(a: string, b: string)
    ensures Units(a + b) == Units(a) + Units(b)
  {
  }
}
