/** The lines of an event stream as they are written: comments, and field names with or without a value. Every line is
    written in exactly one of these ways, and each is read back as it was written. */
module FieldLines {
  import opened Bytes

  datatype Line =
    | Comment(text: seq<byte>)
    | Bare(name: seq<byte>)
    | Spaced(name: seq<byte>, value: seq<byte>)
    | Tight(name: seq<byte>, value: seq<byte>)

  function Written(l: Line): seq<byte> {
    match l
    case Comment(text) => [58] + text
    case Bare(name) => name
    case Spaced(name, value) => name + [58, 32] + value
    case Tight(name, value) => name + [58] + value
  }

  /** A name is not empty and has no colon; a value written right after the colon does not begin with a space. */
  predicate WellWritten(l: Line) {
    && Unbroken(Written(l))
    && (!l.Comment? ==> l.name != [] && 58 !in l.name)
    && (l.Tight? ==> l.value == [] || l.value[0] != 32)
  }

  function Value(l: Line): seq<byte>
    requires !l.Comment?
  {
    if l.Bare? then [] else l.value
  }

  lemma {:induction false} IndexOfWritten(name: seq<byte>, rest: seq<byte>)
    requires 58 !in name
    ensures IndexOf(name + [58] + rest, 58) == |name|
  {
    var s := name + [58] + rest;
    if name != [] {
      assert s[1..] == name[1..] + [58] + rest;
      IndexOfWritten(name[1..], rest);
    }
  }

  /** A field line gives back its name and its value: after the colon and one space, after the colon alone, or none. */
  lemma ReadBack(l: Line)
    requires WellWritten(l) && !l.Comment?
    ensures FieldName(Written(l)) == l.name && FieldValue(Written(l)) == Value(l)
  {
    var s := Written(l);
    match l
    case Bare(name) =>
    case Spaced(name, value) =>
      assert s == name + [58] + ([32] + value);
      IndexOfWritten(name, [32] + value);
      assert s[..|name|] == name && s[|name| + 2..] == value;
    case Tight(name, value) =>
      IndexOfWritten(name, value);
      assert s[..|name|] == name && s[|name| + 1..] == value;
  }

  /** Every nonempty line is written in one of these ways. */
  lemma EveryLineIsWritten(line: seq<byte>) returns (l: Line)
    requires Unbroken(line) && line != []
    ensures WellWritten(l) && Written(l) == line
  {
    var n := IndexOf(line, 58);
    var name := line[..n];
    if n == 0 {
      l := Comment(line[1..]);
      assert line == [58] + line[1..];
    } else if n == |line| {
      l := Bare(line);
    } else if n + 1 < |line| && line[n + 1] == 32 {
      l := Spaced(name, line[n + 2..]);
      assert line == name + [58, 32] + line[n + 2..];
    } else {
      l := Tight(name, line[n + 1..]);
      assert line == name + [58] + line[n + 1..];
    }
  }

  // --- Several lines ---

  /** One of the three ways to end a line. */
  predicate IsEnd(end: seq<byte>) {
    end == [10] || end == [13] || end == [13, 10]
  }

  /** What stands after a line does not change how it ends: no LF right after a lone CR. */
  predicate Follows(end: seq<byte>, rest: seq<byte>) {
    end == [13] ==> rest == [] || rest[0] != 10
  }

  function WriteLines(lines: seq<Line>, end: seq<byte>): seq<byte> {
    if lines == [] then [] else Written(lines[0]) + end + WriteLines(lines[1..], end)
  }

  predicate AllWritten(lines: seq<Line>) {
    forall i :: 0 <= i < |lines| ==> WellWritten(lines[i])
  }

  lemma LinesFollow(lines: seq<Line>, end: seq<byte>, rest: seq<byte>)
    requires AllWritten(lines) && IsEnd(end) && Follows(end, rest)
    ensures Follows(end, WriteLines(lines, end) + rest)
  {
    if lines != [] {
      var line := Written(lines[0]);
      assert WellWritten(lines[0]) && line != [];
      assert (WriteLines(lines, end) + rest)[0] == line[0];
    }
  }

  lemma WriteFirst(lines: seq<Line>, end: seq<byte>, rest: seq<byte>)
    requires lines != [] && AllWritten(lines) && IsEnd(end)
    ensures var line, more := Written(lines[0]), WriteLines(lines[1..], end);
      && WriteLines(lines, end) + rest == line + (end + (more + rest)) && |WriteLines(lines, end)| == |line| + |end| + |more|
      && WellWritten(lines[0]) && AllWritten(lines[1..]) && Unbroken(line) && line != [] && 1 <= |end|
  {
    assert WellWritten(lines[0]);
    Regrouped(Written(lines[0]), end, WriteLines(lines[1..], end), rest);
    hide Written, Unbroken, WellWritten;
  }

  lemma Regrouped(line: seq<byte>, end: seq<byte>, more: seq<byte>, rest: seq<byte>)
    ensures line + end + more + rest == line + (end + (more + rest))
  {
  }

  lemma EndWidth(end: seq<byte>, rest: seq<byte>)
    requires IsEnd(end) && Follows(end, rest)
    ensures IsTerminator((end + rest)[0]) && TerminatorWidth(end + rest, 0) == |end| && (end + rest)[|end|..] == rest
  {
  }

  /** The values of the lines with one name, in order. */
  function ValuesOf(lines: seq<Line>, name: seq<byte>): seq<seq<byte>> {
    if lines == [] then []
    else (if !lines[0].Comment? && lines[0].name == name then [Value(lines[0])] else []) + ValuesOf(lines[1..], name)
  }

  function Comments(lines: seq<Line>): nat {
    if lines == [] then 0 else (if lines[0].Comment? then 1 else 0) + Comments(lines[1..])
  }

  function LastOr(values: seq<seq<byte>>, default: seq<byte>): seq<byte> {
    if values == [] then default else values[|values| - 1]
  }
}
