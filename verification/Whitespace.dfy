/** White space and trimming in the language's own terms. */
module Whitespace {
  import opened Strings

  /** White space as the language's patterns and `trim` count it. */
  predicate Space(u: Unit) {
    9 <= u <= 13 || u == 32 || u == 0xA0 || u == 0x1680 || 0x2000 <= u <= 0x200A
    || u == 0x2028 || u == 0x2029 || u == 0x202F || u == 0x205F || u == 0x3000 || u == 0xFEFF
  }

  function TrimStart(s: Str): (r: Str)
    ensures |r| <= |s| && (|r| != 0 ==> !Space(r[0]))
  {
    if |s| != 0 && Space(s[0]) then TrimStart(s[1..]) else s
  }

  function TrimEnd(s: Str): Str {
    if |s| != 0 && Space(s[|s| - 1]) then TrimEnd(s[..|s| - 1]) else s
  }

  function Trim(s: Str): Str {
    TrimEnd(TrimStart(s))
  }

  ghost predicate AllSpace(s: Str) {
    forall i :: 0 <= i < |s| ==> Space(s[i])
  }

  lemma {:induction false} StartTrimmed(before: Str, s: Str)
    requires AllSpace(before) && (s != [] ==> !Space(s[0]))
    ensures TrimStart(before + s) == s
  {
    hide Space;
    if before == [] {
      assert before + s == s;
    } else {
      assert (before + s)[1..] == before[1..] + s;
      StartTrimmed(before[1..], s);
    }
  }

  lemma {:induction false} EndTrimmed(s: Str, after: Str)
    requires AllSpace(after) && (s != [] ==> !Space(s[|s| - 1]))
    ensures TrimEnd(s + after) == s
  {
    hide Space;
    if after == [] {
      assert s + after == s;
    } else {
      var n := |after| - 1;
      assert (s + after)[..|s + after| - 1] == s + after[..n];
      EndTrimmed(s, after[..n]);
    }
  }

  lemma {:induction false} StartSplit(s: Str) returns (before: Str)
    ensures AllSpace(before) && s == before + TrimStart(s)
  {
    if s != [] && Space(s[0]) {
      var more := StartSplit(s[1..]);
      before := [s[0]] + more;
      assert s == [s[0]] + s[1..];
    } else {
      before := [];
    }
  }

  lemma {:induction false} EndSplit(s: Str) returns (after: Str)
    ensures AllSpace(after) && s == TrimEnd(s) + after && (TrimEnd(s) != [] ==> !Space(TrimEnd(s)[|TrimEnd(s)| - 1]))
    ensures s != [] && TrimEnd(s) != [] ==> TrimEnd(s)[0] == s[0]
  {
    if s != [] && Space(s[|s| - 1]) {
      var n := |s| - 1;
      var less := EndSplit(s[..n]);
      after := less + [s[n]];
      assert s == s[..n] + [s[n]];
    } else {
      after := [];
    }
  }

  /** The white space and line terminators of ECMAScript (sections 12.2 and 12.3), one by one. */
  lemma SpacesAre(u: Unit)
    ensures Space(u) <==> u in [9, 11, 12, 0xFEFF] || u in [10, 13, 0x2028, 0x2029]
                          || u in [32, 0xA0, 0x1680, 0x202F, 0x205F, 0x3000]
                          || u in [0x2000, 0x2001, 0x2002, 0x2003, 0x2004, 0x2005, 0x2006, 0x2007, 0x2008, 0x2009, 0x200A]
  {
  }

  /** Text without white space at its ends. */
  ghost predicate Bare(s: Str) {
    s != [] ==> !Space(s[0]) && !Space(s[|s| - 1])
  }

  /** Trimming takes away exactly the white space around a bare text, which every text has inside. */
  lemma Trimmed(before: Str, s: Str, after: Str)
    requires AllSpace(before) && Bare(s) && AllSpace(after)
    ensures Trim(before + s + after) == s
  {
    hide Space;
    if s == [] {
      assert before + s + after == (before + after) + [];
      StartTrimmed(before + after, []);
    } else {
      assert before + s + after == before + (s + after);
      StartTrimmed(before, s + after);
      EndTrimmed(s, after);
    }
  }

  lemma EveryTextHasBare(s: Str) returns (before: Str, after: Str)
    ensures AllSpace(before) && Bare(Trim(s)) && AllSpace(after) && s == before + Trim(s) + after
  {
    before := StartSplit(s);
    after := EndSplit(TrimStart(s));
    hide Space, AllSpace, TrimStart, TrimEnd;
    Together(before, Trim(s), after);
  }

  lemma Together(before: Str, s: Str, after: Str)
    ensures before + (s + after) == before + s + after
  {
  }
}
