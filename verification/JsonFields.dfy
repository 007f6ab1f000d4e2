/** Objects of plain fields, written out and read back. */
module JsonFields {
  import opened Options
  import opened Strings
  import opened JsonText
  import opened JsonStrings
  import opened Json
  import opened Notes

  predicate Plain(v: Value) {
    v.Scalar? || v.Text?
  }

  function Shown(v: Value): Str
    requires Plain(v)
  {
    if v.Scalar? then v.text else [QUOTE] + v.raw + [QUOTE]
  }

  function Mark(name: Str): Str {
    [QUOTE] + name + [QUOTE, COLON]
  }

  predicate AllPlain(fields: seq<(Str, Value)>) {
    forall i :: 0 <= i < |fields| ==> Plain(fields[i].1)
  }

  /** The fields one after another, with their names before and a comma between. */
  function FieldsText(fields: seq<(Str, Value)>, k: Str): Str
    requires fields != [] && AllPlain(fields)
  {
    Mark(Escape(fields[0].0)) + (Shown(fields[0].1)
    + if |fields| == 1 then [CLOSE_OBJECT] + k else [COMMA] + FieldsText(fields[1..], k))
  }

  lemma NothingBefore(s: Str)
    ensures [] + s == s
  {
  }

  lemma ValueWritten(v: Value, k: Str)
    requires Plain(v)
    ensures WriteElement(Element([], v, []), k) == Shown(v) + k
  {
    NothingBefore(k);
    NothingBefore(Write(v, k));
    if v.Text? {
      assert [QUOTE] + (v.raw + ([QUOTE] + k)) == [QUOTE] + v.raw + [QUOTE] + k;
    }
  }

  lemma MemberWritten(field: (Str, Value), k: Str)
    requires Plain(field.1)
    ensures WriteMember(MemberOf(field), k) == Mark(Escape(field.0)) + (Shown(field.1) + k)
  {
    hide Escape, Shown;
    var name, rest := Escape(field.0), Shown(field.1) + k;
    ValueWritten(field.1, k);
    hide WriteElement;
    NothingBefore([COLON] + rest);
    var all := [QUOTE] + (name + ([QUOTE] + ([COLON] + rest)));
    NothingBefore(all);
    MarkJoined(name, rest);
  }

  lemma MarkJoined(name: Str, rest: Str)
    ensures [QUOTE] + (name + ([QUOTE] + ([COLON] + rest))) == Mark(name) + rest
  {
  }

  lemma {:induction false} FieldsWritten(fields: seq<(Str, Value)>, k: Str)
    requires fields != [] && AllPlain(fields)
    ensures WriteMembers(ObjectOf(fields), k) == FieldsText(fields, k)
  {
    hide Escape, WriteMember, Mark, MemberOf, Shown;
    assert Plain(fields[0].1);
    if |fields| == 1 {
      MemberWritten(fields[0], [CLOSE_OBJECT] + k);
    } else {
      assert AllPlain(fields[1..]);
      FieldsWritten(fields[1..], k);
      MemberWritten(fields[0], [COMMA] + FieldsText(fields[1..], k));
    }
  }

  /** Reading the fields of a written object gives them back, names and all. */
  lemma {:induction false} FieldsBack(fields: seq<(Str, Value)>)
    requires fields != []
    ensures Fields(ObjectOf(fields)) == fields
  {
    DecodeEscape(fields[0].0);
    hide Escape, Decode;
    if |fields| == 1 {
      assert fields == [fields[0]] + [];
    } else {
      FieldsBack(fields[1..]);
      assert fields == [fields[0]] + fields[1..];
    }
  }

  predicate Letters(s: Str) {
    forall i :: 0 <= i < |s| ==> 65 <= s[i] <= 90 || 97 <= s[i] <= 122
  }

  lemma {:induction false} LettersPlain(s: Str)
    requires Letters(s)
    ensures Escape(s) == s
  {
    if s != [] {
      LettersPlain(s[1..]);
      assert s == [s[0]] + s[1..];
    }
  }

  lemma OneField(fs: seq<(Str, Value)>)
    requires |fs| > 1 && AllPlain(fs)
    ensures AllPlain(fs[1..])
    ensures FieldsText(fs, [])
            == Mark(Escape(fs[0].0)) + (Shown(fs[0].1) + ([COMMA] + FieldsText(fs[1..], [])))
  {
    hide Mark, Shown, Escape, Plain;
  }

  lemma LastField(f: (Str, Value))
    requires Plain(f.1)
    ensures FieldsText([f], []) == Mark(Escape(f.0)) + (Shown(f.1) + [CLOSE_OBJECT])
  {
    hide Mark, Shown, Escape;
    assert [CLOSE_OBJECT] + [] == [CLOSE_OBJECT];
  }

  lemma {:induction false} FieldsOnto(fields: seq<(Str, Value)>, k: Str)
    requires fields != [] && AllPlain(fields)
    ensures FieldsText(fields, k) == FieldsText(fields, []) + k
  {
    hide Mark, Escape, Shown, Plain;
    if |fields| == 1 {
      assert Mark(Escape(fields[0].0)) + (Shown(fields[0].1) + ([CLOSE_OBJECT] + k))
             == Mark(Escape(fields[0].0)) + (Shown(fields[0].1) + ([CLOSE_OBJECT] + [])) + k;
    } else {
      assert AllPlain(fields[1..]);
      FieldsOnto(fields[1..], k);
      var t := FieldsText(fields[1..], []);
      assert Mark(Escape(fields[0].0)) + (Shown(fields[0].1) + ([COMMA] + (t + k)))
             == Mark(Escape(fields[0].0)) + (Shown(fields[0].1) + ([COMMA] + t)) + k;
    }
  }

  // --- Fields of any values ---

  function ObjectText(fields: seq<(Str, Value)>, k: Str): Str
    requires fields != []
  {
    Mark(Escape(fields[0].0))
    + Write(fields[0].1, if |fields| == 1 then [CLOSE_OBJECT] + k else [COMMA] + ObjectText(fields[1..], k))
  }

  lemma AnyMemberWritten(field: (Str, Value), k: Str)
    ensures WriteMember(MemberOf(field), k) == Mark(Escape(field.0)) + Write(field.1, k)
  {
    hide Escape;
    var name, rest := Escape(field.0), Write(field.1, k);
    NothingBefore(k);
    NothingBefore(rest);
    assert WriteElement(Element([], field.1, []), k) == rest;
    hide WriteElement, Write;
    NothingBefore([COLON] + rest);
    NothingBefore([QUOTE] + (name + ([QUOTE] + ([COLON] + rest))));
    MarkJoined(name, rest);
  }

  lemma {:induction false} ObjectWritten(fields: seq<(Str, Value)>, k: Str)
    requires fields != []
    ensures WriteMembers(ObjectOf(fields), k) == ObjectText(fields, k)
  {
    hide Escape, WriteMember, Mark, MemberOf, Write;
    if |fields| == 1 {
      AnyMemberWritten(fields[0], [CLOSE_OBJECT] + k);
    } else {
      ObjectWritten(fields[1..], k);
      AnyMemberWritten(fields[0], [COMMA] + ObjectText(fields[1..], k));
    }
  }

  lemma OneOfMany(fields: seq<(Str, Value)>, k: Str)
    requires |fields| > 1
    ensures ObjectText(fields, k) == Mark(Escape(fields[0].0)) + Write(fields[0].1, [COMMA] + ObjectText(fields[1..], k))
  {
    hide Mark, Write, Escape;
  }

  lemma OnlyOne(field: (Str, Value), k: Str)
    ensures ObjectText([field], k) == Mark(Escape(field.0)) + Write(field.1, [CLOSE_OBJECT] + k)
  {
    hide Mark, Write, Escape;
  }

  lemma PlainWritten(v: Value, k: Str)
    requires Plain(v)
    ensures Write(v, k) == Shown(v) + k
  {
    ValueWritten(v, k);
    NothingBefore(k);
    NothingBefore(Write(v, k));
  }
}
