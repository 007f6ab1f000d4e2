/** What each part of a tell command means, told from how it is written, and which command is refused for which reason
    (extension/protocol.ts). */
module TellOutcomes {
  import opened Strings
  import opened SendKinds
  import opened Utf8
  import opened Whitespace
  import opened Tell
  import Prefixes

  /** A word: no white space in it. */
  predicate IsWord(w: Str) {
    forall i :: 0 <= i < |w| ==> !Space(w[i])
  }

  /** What may stand after a word: nothing, or something that begins with white space. */
  predicate Apart(rest: Str) {
    rest == [] || Space(rest[0])
  }

  /** A command with its leading white space gone. */
  predicate Begun(s: Str) {
    s == [] || !Space(s[0])
  }

  const DASHES: Str := [45, 45]

  lemma GapTrimmed(gap: Str, rest: Str)
    requires AllSpace(gap) && Begun(rest)
    ensures TrimStart(gap + rest) == rest
  {
    StartTrimmed(gap, rest);
  }

  /** A leading word that begins with two dashes is a flag. Two dashes alone end the flags; `--prompt` and `--steer` give
      the kind, once; every other is refused. Anything else is no flag. */
  lemma FlagMeans(kind: Kind, word: Str, gap: Str, rest: Str)
    requires IsWord(word) && AllSpace(gap) && Begun(rest) && Apart(gap + rest)
    ensures var r := ReadFlags(word + (gap + rest), kind);
      if !(DASHES <= word) then r == Flags(kind, word + (gap + rest))
      else if word == DASHES then r == Flags(kind, rest)
      else if word != Units("--prompt") && word != Units("--steer") then r == BadFlag(UnknownFlag)
      else if kind != Notice then r == BadFlag(TwoFlags)
      else r == ReadFlags(rest, if word == Units("--prompt") then Prompt else Steer)
  {
    var s := word + (gap + rest);
    WordStops(word, gap + rest);
    GapTrimmed(gap, rest);
    assert s[|word|..] == gap + rest;
    FlagsDiffer();
    DashesFirst(word, gap + rest);
    hide Space, Word, TrimStart;
  }

  /** Two dashes before a text are two dashes before its first word. */
  lemma DashesFirst(word: Str, after: Str)
    requires Apart(after) && IsWord(word)
    ensures Prefixes.StartsWith(word + after, FLAG) <==> DASHES <= word
  {
    var s := word + after;
    assert FLAG == DASHES;
    if |word| == 1 && |s| >= 2 {
      assert s[..2][1] == s[1] == after[0];
    } else if word == [] && |s| >= 2 {
      assert s[..2][0] == s[0] == after[0];
    } else if |s| >= 2 {
      assert s[..2] == word[..2];
    }
  }

  /** A quoted target is what stands between two quotes, followed by white space or nothing; an unquoted one is a word
      without quotes. */
  lemma QuotedMeans(target: Str, after: Str)
    requires QUOTE !in target
    ensures ReadTarget([QUOTE] + target) == BadTarget(UnclosedQuote)
    ensures ReadTarget([QUOTE] + target + [QUOTE] + after) == if Apart(after) then Target(target, after) else BadTarget(SpaceAfterQuote)
  {
    hide Space;
    var open, s := [QUOTE] + target, [QUOTE] + target + [QUOTE] + after;
    assert open[..1] == [QUOTE] && s[..1] == [QUOTE];
    var end := IndexOf(open, QUOTE, 1);
    assert forall i :: 1 <= i < |open| ==> open[i] == target[i - 1];
    var at := 1 + |target|;
    forall i | 1 <= i < at ensures s[i] != QUOTE {
      assert s[i] == target[i - 1];
    }
    IndexOfIs(s, QUOTE, 1, at);
    assert s[1..at] == target && s[at + 1..] == after;
    assert after != [] ==> s[at + 1] == after[0];
  }

  lemma WordMeans(word: Str, after: Str)
    requires IsWord(word) && Apart(after) && (word != [] ==> word[0] != QUOTE)
    ensures ReadTarget(word + after) == if QUOTE in word then BadTarget(InvalidQuoting) else Target(word, after)
  {
    var s := word + after;
    WordStops(word, after);
    assert s[|word|..] == after;
    QuoteIsNoSpace();
    assert s != [] ==> s[0] != QUOTE;
    if s != [] {
      assert s[..1][0] == s[0];
    }
    hide Space, Word;
  }

  lemma QuoteIsNoSpace()
    ensures !Space(QUOTE)
  {
  }

  /** The body is the rest without the white space before it; white space after it is kept. A command without a target,
      with a body that is all white space, or with one of more than 16384 bytes is refused, in this order. */
  lemma BodyMeans(kind: Kind, target: Str, gap: Str, body: Str)
    requires AllSpace(gap) && Begun(body)
    ensures Finish(kind, target, gap + body) ==
            if target == [] then Refused(NoTarget)
            else if body == [] then Refused(NoBody)
            else if Utf8Length(body) > 16384 then Refused(TooLarge)
            else Parsed(kind, target, body)
  {
    GapTrimmed(gap, body);
    hide Space, TrimStart, Utf8Length;
    if body == [] {
      EmptyTrim();
    } else {
      BegunTrim(body);
    }
  }

  lemma BegunTrim(body: Str)
    requires body != [] && Begun(body)
    ensures Trim(body) != []
  {
    EndLeaves(body);
  }

  lemma {:induction false} EndLeaves(s: Str)
    requires s != [] && Begun(s)
    ensures TrimEnd(s) != []
    decreases |s|
  {
    hide Space;
    if Space(s[|s| - 1]) {
      EndLeaves(s[..|s| - 1]);
    }
  }

  /** A whole command: white space, at most one flag, the target and the body. */
  lemma CommandMeans(lead: Str, flag: Str, gap: Str, rest: Str, target: Str, after: Str)
    requires AllSpace(lead) && AllSpace(gap) && gap != [] && (flag == Units("--prompt") || flag == Units("--steer"))
    requires Begun(rest) && !(DASHES <= rest) && ReadTarget(rest) == Target(target, after)
    ensures Meaning(lead + rest) == Finish(Notice, target, after)
    ensures Meaning(lead + (flag + (gap + rest))) == Finish(if flag == Units("--prompt") then Prompt else Steer, target, after)
  {
    GapTrimmed(lead, rest);
    FlagIsWord(flag);
    GapTrimmed(lead, flag + (gap + rest));
    assert Apart(gap + rest);
    FlagMeans(Notice, flag, gap, rest);
    NoFlagLeft(rest);
    hide Space, TrimStart, ReadTarget, Finish, Units;
    FlagsDiffer();
    assert PROMPT_FLAG == Units("--prompt") && STEER_FLAG == Units("--steer");
  }

  lemma FlagIsWord(flag: Str)
    requires flag == Units("--prompt") || flag == Units("--steer")
    ensures IsWord(flag) && DASHES <= flag && flag != DASHES && flag != []
  {
    FlagText(flag);
    assert flag[..2] == DASHES;
  }

  lemma NoFlagLeft(rest: Str)
    requires !(DASHES <= rest)
    ensures forall kind :: ReadFlags(rest, kind) == Flags(kind, rest)
  {
    assert Prefixes.StartsWith(rest, FLAG) ==> DASHES <= rest;
  }
}
