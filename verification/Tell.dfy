/** The tell command line and the choice of its target (extension/protocol.ts). */
module Tell {
  import opened Options
  import opened Strings
  import opened SendKinds
  import opened Utf8
  import opened Whitespace
  import opened Prefixes

  const MAX_BODY_BYTES: nat := 16384
  const DASH: Unit := 45
  const BLANK: Unit := 32

  /** `match(/^\S+/)`. */
  function Word(s: Str): (w: Str)
    ensures |w| <= |s| && s[..|w|] == w
    ensures forall i :: 0 <= i < |w| ==> !Space(w[i])
    ensures |w| < |s| ==> Space(s[|w|])
  {
    if |s| == 0 || Space(s[0]) then []
    else
      var t := Word(s[1..]);
      assert s[..|t| + 1] == [s[0]] + s[1..][..|t|];
      [s[0]] + t
  }

  function IndexOf(s: Str, u: Unit, from: nat): (n: nat)
    requires from <= |s|
    ensures from <= n <= |s| && (n < |s| ==> s[n] == u)
    ensures forall i :: from <= i < n ==> s[i] != u
    decreases |s| - from
  {
    if from == |s| || s[from] == u then from else IndexOf(s, u, from + 1)
  }

  const FLAG: Str := [DASH, DASH]
  const PROMPT_FLAG: Str := Units("--prompt")
  const STEER_FLAG: Str := Units("--steer")

  datatype TellError = UnknownFlag | TwoFlags | UnclosedQuote | SpaceAfterQuote | InvalidQuoting | NoTarget | NoBody | TooLarge

  datatype Parsed = Parsed(kind: Kind, target: Str, body: Str) | Refused(error: TellError)

  datatype Flags = Flags(kind: Kind, rest: Str) | BadFlag(error: TellError)

  function ReadFlags(rest: Str, kind: Kind): Flags
    decreases |rest|
  {
    if !StartsWith(rest, FLAG) || |Word(rest)| == 0 then Flags(kind, rest)
    else
      var flag := Word(rest);
      var next := TrimStart(rest[|flag|..]);
      if flag == FLAG then Flags(kind, next)
      else if flag != PROMPT_FLAG && flag != STEER_FLAG then BadFlag(UnknownFlag)
      else if kind != Notice then BadFlag(TwoFlags)
      else ReadFlags(next, if flag == PROMPT_FLAG then Prompt else Steer)
  }

  datatype Target = Target(target: Str, rest: Str) | BadTarget(error: TellError)

  function ReadTarget(rest: Str): Target {
    if StartsWith(rest, [QUOTE]) then
      var end := IndexOf(rest, QUOTE, 1);
      if end == |rest| then BadTarget(UnclosedQuote)
      else if end + 1 < |rest| && !Space(rest[end + 1]) then BadTarget(SpaceAfterQuote)
      else Target(rest[1..end], rest[end + 1..])
    else
      var word := Word(rest);
      if QUOTE in word then BadTarget(InvalidQuoting) else Target(word, rest[|word|..])
  }

  function Finish(kind: Kind, target: Str, rest: Str): Parsed {
    var body := TrimStart(rest);
    if |target| == 0 then Refused(NoTarget)
    else if |Trim(body)| == 0 then Refused(NoBody)
    else if Utf8Length(body) > MAX_BODY_BYTES then Refused(TooLarge)
    else Parsed(kind, target, body)
  }

  function AfterFlags(flags: Flags): Parsed {
    match flags
    case BadFlag(e) => Refused(e)
    case Flags(kind, rest) =>
      match ReadTarget(rest)
      case BadTarget(e) => Refused(e)
      case Target(target, after) => Finish(kind, target, after)
  }

  /** What a command line means. */
  function Meaning(input: Str): Parsed {
    AfterFlags(ReadFlags(TrimStart(input), Notice))
  }

  method ParseTell(input: Str) returns (r: Parsed)
    ensures r == Meaning(input)
  {
    hide Word, TrimStart, ReadTarget, Finish, PROMPT_FLAG, STEER_FLAG;
    var rest := TrimStart(input);
    var kind := Notice;
    while StartsWith(rest, FLAG)
      invariant Meaning(input) == AfterFlags(ReadFlags(rest, kind))
      decreases |rest|
    {
      var flag := Word(rest);
      WordAfterDashes(rest);
      rest := TrimStart(rest[|flag|..]);
      if flag == FLAG {
        break;
      }
      if flag != PROMPT_FLAG && flag != STEER_FLAG {
        return Refused(UnknownFlag);
      }
      if kind != Notice {
        return Refused(TwoFlags);
      }
      kind := if flag == PROMPT_FLAG then Prompt else Steer;
    }
    var target := ReadTarget(rest);
    match target
    case BadTarget(e) => r := Refused(e);
    case Target(t, after) => r := Finish(kind, t, after);
  }

  lemma WordAfterDashes(rest: Str)
    requires StartsWith(rest, FLAG)
    ensures |Word(rest)| >= 2
  {
    assert rest[..2][0] == rest[0] && rest[..2][1] == rest[1];
  }

  // --- Every accepted command has a canonical line that means the same ---

  function KindPrefix(kind: Kind): Str {
    match kind case Notice => [] case Prompt => PROMPT_FLAG + [BLANK] case Steer => STEER_FLAG + [BLANK]
  }

  function Line(kind: Kind, target: Str, body: Str): Str {
    KindPrefix(kind) + ([QUOTE] + target + [QUOTE, BLANK] + body)
  }

  predicate Sendable(target: Str, body: Str) {
    && |target| != 0 && QUOTE !in target
    && |body| != 0 && !Space(body[0]) && |Trim(body)| != 0 && Utf8Length(body) <= MAX_BODY_BYTES
  }

  lemma {:induction false} WordStops(w: Str, rest: Str)
    requires forall i :: 0 <= i < |w| ==> !Space(w[i])
    requires |rest| != 0 ==> Space(rest[0])
    ensures Word(w + rest) == w
  {
    if |w| != 0 {
      assert (w + rest)[1..] == w[1..] + rest;
      WordStops(w[1..], rest);
    } else {
      assert w + rest == rest;
    }
  }

  lemma TrimStartIdle(s: Str)
    requires |s| != 0 && !Space(s[0])
    ensures TrimStart(s) == s && TrimStart([BLANK] + s) == s
  {
    assert ([BLANK] + s)[1..] == s;
  }

  lemma {:induction false} IndexOfIs(s: Str, u: Unit, from: nat, at: nat)
    requires from <= at < |s| && s[at] == u && forall i :: from <= i < at ==> s[i] != u
    ensures IndexOf(s, u, from) == at
    decreases |s| - from
  {
    if from != at {
      IndexOfIs(s, u, from + 1, at);
    }
  }

  lemma QuotedTarget(target: Str, body: Str)
    requires Sendable(target, body)
    ensures ReadTarget([QUOTE] + target + [QUOTE, BLANK] + body) == Target(target, [BLANK] + body)
  {
    hide Utf8Length, Trim, Space;
    var s := [QUOTE] + target + [QUOTE, BLANK] + body;
    assert s[..1] == [QUOTE];
    var at := 1 + |target|;
    forall i | 1 <= i < at ensures s[i] != QUOTE {
      assert s[i] == target[i - 1];
    }
    IndexOfIs(s, QUOTE, 1, at);
    assert s[at + 1] == BLANK && Space(BLANK) by { BlankIsSpace(); }
    assert s[1..at] == target && s[at + 1..] == [BLANK] + body;
  }

  lemma BlankIsSpace()
    ensures Space(BLANK)
  {
  }

  /** The text after the flags starts with neither a dash nor white space. */
  predicate Plain(rest: Str) {
    |rest| != 0 && rest[0] != DASH && !Space(rest[0])
  }

  lemma FlagRead(flag: Str, kind: Kind, rest: Str)
    requires (flag == PROMPT_FLAG && kind == Prompt) || (flag == STEER_FLAG && kind == Steer)
    requires Plain(rest)
    ensures ReadFlags(flag + [BLANK] + rest, Notice) == Flags(kind, rest)
  {
    var s := flag + [BLANK] + rest;
    FlagText(flag);
    WordStops(flag, [BLANK] + rest);
    assert s == flag + ([BLANK] + rest);
    assert s[|flag|..] == [BLANK] + rest;
    TrimStartIdle(rest);
    NoFlag(rest);
    assert StartsWith(s, FLAG) by {
      assert s[..2] == flag[..2];
    }
    hide Word, TrimStart, Space;
    FlagsDiffer();
    assert ReadFlags(rest, kind) == Flags(kind, rest);
  }

  lemma FlagsDiffer()
    ensures PROMPT_FLAG != STEER_FLAG && PROMPT_FLAG != FLAG && STEER_FLAG != FLAG
  {
    assert |PROMPT_FLAG| == 8 && |STEER_FLAG| == 7 && |FLAG| == 2;
  }

  lemma NoFlag(rest: Str)
    requires Plain(rest)
    ensures !StartsWith(rest, FLAG)
  {
    if |rest| >= 2 {
      assert rest[..2][0] == rest[0];
    }
  }

  lemma FlagText(flag: Str)
    requires flag == PROMPT_FLAG || flag == STEER_FLAG
    ensures |flag| > 2 && flag[..2] == FLAG && forall i :: 0 <= i < |flag| ==> !Space(flag[i])
  {
    var prompt, steer := "--prompt", "--steer";
    assert forall i :: 0 <= i < |prompt| ==> prompt[i] as int == 45 || 97 <= prompt[i] as int <= 122;
    assert forall i :: 0 <= i < |steer| ==> steer[i] as int == 45 || 97 <= steer[i] as int <= 122;
    assert prompt[0] == prompt[1] == '-' && steer[0] == steer[1] == '-';
  }

  /** The line written for a kind, target and body is read back as exactly those. */
  lemma TellRoundTrip(kind: Kind, target: Str, body: Str)
    requires Sendable(target, body)
    ensures Meaning(Line(kind, target, body)) == Parsed(kind, target, body)
  {
    var quoted := [QUOTE] + target + [QUOTE, BLANK] + body;
    QuotedTarget(target, body);
    TrimStartIdle(body);
    LineFlags(kind, quoted);
    hide ReadFlags, ReadTarget, KindPrefix, Trim, Utf8Length, Space, TrimStart;
  }

  lemma LineFlags(kind: Kind, quoted: Str)
    requires Plain(quoted)
    ensures ReadFlags(TrimStart(KindPrefix(kind) + quoted), Notice) == Flags(kind, quoted)
  {
    var line := KindPrefix(kind) + quoted;
    match kind {
      case Notice =>
        assert line == quoted;
        NoFlag(quoted);
      case Prompt =>
        FlagText(PROMPT_FLAG);
        FlagRead(PROMPT_FLAG, Prompt, quoted);
      case Steer =>
        FlagText(STEER_FLAG);
        FlagRead(STEER_FLAG, Steer, quoted);
    }
  }

  /** Exactly the sendable targets and bodies are ever accepted, under each kind. */
  lemma AcceptedIffSendable(kind: Kind, target: Str, body: Str)
    ensures Sendable(target, body) <==> exists input :: Meaning(input) == Parsed(kind, target, body)
  {
    if Sendable(target, body) {
      TellRoundTrip(kind, target, body);
    }
    forall input | Meaning(input) == Parsed(kind, target, body) ensures Sendable(target, body) {
      AcceptedSendable(input);
    }
  }

  lemma AcceptedSendable(input: Str)
    requires Meaning(input).Parsed?
    ensures Sendable(Meaning(input).target, Meaning(input).body)
  {
    hide Word, IndexOf, Utf8Length, Space, ReadFlags, TrimStart, TrimEnd;
    var flags := ReadFlags(TrimStart(input), Notice);
    var t := ReadTarget(flags.rest);
    var body := TrimStart(t.rest);
    if |body| == 0 {
      EmptyTrim();
    }
  }

  lemma EmptyTrim()
    ensures Trim([]) == []
  {
  }
}
