/** What a notice batch takes: the oldest pending records and nothing else, never stopped by the batch limit. */
module Batches {
  import opened Options
  import opened Strings
  import opened Decimal
  import opened Utf8
  import opened JsonText
  import opened Inbox

  function Pending(rs: seq<Record>): (p: seq<Record>)
    ensures |p| <= |rs|
    ensures forall i :: 0 <= i < |p| ==> p[i] in rs && p[i].handling.PendingContext?
  {
    if |rs| == 0 then []
    else (if rs[0].handling.PendingContext? then [rs[0]] else []) + Pending(rs[1..])
  }

  lemma {:induction false} PendingConcat(a: seq<Record>, b: seq<Record>)
    ensures Pending(a + b) == Pending(a) + Pending(b)
  {
    if |a| == 0 {
      assert a + b == b;
    } else {
      assert (a + b)[1..] == a[1..] + b;
      PendingConcat(a[1..], b);
    }
  }

  lemma PendingOne(r: Record)
    ensures Pending([r]) == if r.handling.PendingContext? then [r] else []
  {
    var none: seq<Record> := [];
    assert [r][1..] == none;
  }

  lemma {:induction false} KeysConcat(a: seq<Record>, b: seq<Record>)
    ensures Keys(a + b) == Keys(a) + Keys(b)
  {
    if |a| == 0 {
      assert a + b == b;
    } else {
      assert (a + b)[1..] == a[1..] + b;
      KeysConcat(a[1..], b);
    }
  }

  lemma {:induction false} KeysAre(rs: seq<Record>)
    ensures |Keys(rs)| == |rs|
    ensures forall i :: 0 <= i < |rs| ==> Keys(rs)[i] == rs[i].key
  {
    if |rs| != 0 {
      KeysAre(rs[1..]);
    }
  }

  ghost predicate DistinctKeys(rs: seq<Record>) {
    forall i, j :: 0 <= i < j < |rs| ==> rs[i].key != rs[j].key
  }

  // --- A batch is a prefix of the pending records ---

  lemma {:induction false} SelectIsPrefix(rs: seq<Record>, body: nat, content: nat)
    ensures Select(rs, body, content) <= Pending(rs)
  {
    hide Overhead, Utf8Length;
    if |rs| != 0 && rs[0].handling.PendingContext? {
      var size, overhead := Utf8Length(rs[0].mail.body), Overhead(rs[0]);
      SelectIsPrefix(rs[1..], body + size, content + size + overhead);
    } else if |rs| != 0 {
      SelectIsPrefix(rs[1..], body, content);
    }
  }

  function Excluding(rs: seq<Record>, keys: seq<Str>): seq<Record> {
    if |rs| == 0 then []
    else (if rs[0].key in keys then [] else [rs[0]]) + Excluding(rs[1..], keys)
  }

  lemma {:induction false} AttemptExcludes(rs: seq<Record>, keys: seq<Str>)
    ensures Pending(Attempt(rs, keys)) == Excluding(Pending(rs), keys)
    ensures |Attempt(rs, keys)| == |rs|
    ensures forall i :: 0 <= i < |rs| ==>
              Attempt(rs, keys)[i] == if rs[i].key in keys then rs[i].(handling := ContextAttempted) else rs[i]
  {
    if |rs| != 0 {
      AttemptExcludes(rs[1..], keys);
      var p, tail := Pending(rs[1..]), Attempt(rs[1..], keys);
      var first := if rs[0].key in keys then rs[0].(handling := ContextAttempted) else rs[0];
      assert Attempt(rs, keys) == [first] + tail;
      if rs[0].handling.PendingContext? {
        assert Pending(rs) == [rs[0]] + p && ([rs[0]] + p)[1..] == p;
        assert Excluding(Pending(rs), keys) == (if rs[0].key in keys then [] else [rs[0]]) + Excluding(p, keys);
      } else {
        assert Pending(rs) == p;
      }
      assert ([first] + tail)[1..] == tail;
      assert Pending([first] + tail) == (if first.handling.PendingContext? then [first] else []) + Pending(tail);
    }
  }

  lemma {:induction false} ExcludingAll(rs: seq<Record>, keys: seq<Str>)
    requires forall i :: 0 <= i < |rs| ==> rs[i].key in keys
    ensures Excluding(rs, keys) == []
  {
    if |rs| != 0 {
      ExcludingAll(rs[1..], keys);
    }
  }

  lemma {:induction false} ExcludingNone(rs: seq<Record>, keys: seq<Str>)
    requires forall i :: 0 <= i < |rs| ==> rs[i].key !in keys
    ensures Excluding(rs, keys) == rs
  {
    if |rs| != 0 {
      ExcludingNone(rs[1..], keys);
    }
  }

  lemma {:induction false} ExcludingConcat(a: seq<Record>, b: seq<Record>, keys: seq<Str>)
    ensures Excluding(a + b, keys) == Excluding(a, keys) + Excluding(b, keys)
  {
    if |a| == 0 {
      assert a + b == b;
    } else {
      assert (a + b)[1..] == a[1..] + b;
      ExcludingConcat(a[1..], b, keys);
    }
  }

  lemma {:induction false} PendingDistinct(rs: seq<Record>)
    requires DistinctKeys(rs)
    ensures DistinctKeys(Pending(rs))
  {
    if |rs| != 0 {
      var rest := rs[1..];
      assert DistinctKeys(rest) by {
        forall i, j | 0 <= i < j < |rest| ensures rest[i].key != rest[j].key {
          assert rest[i] == rs[i + 1] && rest[j] == rs[j + 1];
        }
      }
      PendingDistinct(rest);
      var p := Pending(rest);
      forall j | 0 <= j < |p| ensures p[j].key != rs[0].key {
        assert p[j] in rest;
        var k :| 0 <= k < |rest| && rest[k] == p[j];
        assert rs[k + 1] == p[j];
      }
      if rs[0].handling.PendingContext? {
        assert Pending(rs) == [rs[0]] + p;
      } else {
        assert Pending(rs) == p;
      }
    }
  }

  /** Taking a batch removes exactly that batch from the front of the pending records. */
  lemma TakeSplitsPending(s: State)
    requires DistinctKeys(s.records)
    ensures Pending(s.records) == Taken(s) + Pending(AfterTake(s).records)
  {
    hide Select, Pending, Attempt, Keys, Excluding;
    var p, taken := Pending(s.records), Taken(s);
    SelectIsPrefix(s.records, 0, 0);
    assert p == taken + p[|taken|..];
    if taken != [] {
      AttemptExcludes(s.records, Keys(taken));
      PendingDistinct(s.records);
      ExcludingTaken(p, taken, p[|taken|..]);
    }
  }

  lemma ExcludingTaken(p: seq<Record>, taken: seq<Record>, rest: seq<Record>)
    requires DistinctKeys(p) && p == taken + rest
    ensures Excluding(p, Keys(taken)) == rest
  {
    KeysAre(taken);
    hide Excluding, Keys;
    ExcludingConcat(taken, rest, Keys(taken));
    forall i | 0 <= i < |taken| ensures taken[i].key in Keys(taken) {
      assert Keys(taken)[i] == taken[i].key;
    }
    ExcludingAll(taken, Keys(taken));
    forall i | 0 <= i < |rest| ensures rest[i].key !in Keys(taken) {
      assert rest[i] == p[|taken| + i];
      forall j | 0 <= j < |Keys(taken)| ensures Keys(taken)[j] != rest[i].key {
        assert taken[j] == p[j];
      }
    }
    ExcludingNone(rest, Keys(taken));
  }

  // --- Which limit stops a batch ---

  predicate Deliverable(r: Record) {
    ValidMail(r.mail) && DigitKey(r.key)
  }

  /** The batch when only the bytes of the bodies are limited. */
  function SelectByBody(rs: seq<Record>, body: nat): seq<Record> {
    if |rs| == 0 then []
    else if !rs[0].handling.PendingContext? then SelectByBody(rs[1..], body)
    else if body + Utf8Length(rs[0].mail.body) > MAX_BODY_BYTES then []
    else [rs[0]] + SelectByBody(rs[1..], body + Utf8Length(rs[0].mail.body))
  }

  lemma {:induction false} OnlyBodiesLimit(rs: seq<Record>, body: nat, content: nat, taken: nat)
    requires forall i :: 0 <= i < |rs| ==> Deliverable(rs[i])
    requires taken + |rs| <= MAX_RECORDS && body <= MAX_BODY_BYTES && content <= body + MAX_OVERHEAD_BYTES * taken
    ensures Select(rs, body, content) == SelectByBody(rs, body)
  {
    if |rs| != 0 {
      assert Deliverable(rs[0]);
      OverheadFits(rs[0]);
      assert Utf8Length(rs[0].mail.body) <= MAX_BODY_BYTES;
      hide Overhead, Utf8Length, Deliverable, ValidMail, DigitKey;
      var size, overhead := Utf8Length(rs[0].mail.body), Overhead(rs[0]);
      if !rs[0].handling.PendingContext? {
        OnlyBodiesLimit(rs[1..], body, content, taken);
      } else if body + size <= MAX_BODY_BYTES {
        OnlyBodiesLimit(rs[1..], body + size, content + size + overhead, taken + 1);
      }
    }
  }

  /** Neither the overhead limit nor the batch limit ever stops a batch: 32 * 2048 + 16384 == 81920. */
  lemma BatchLimitNeverBinds(s: State)
    requires |s.records| <= MAX_RECORDS && forall i :: 0 <= i < |s.records| ==> Deliverable(s.records[i])
    ensures Taken(s) == SelectByBody(s.records, 0)
  {
    OnlyBodiesLimit(s.records, 0, 0, 0);
  }

  lemma {:induction false} FirstIsTaken(rs: seq<Record>)
    requires forall i :: 0 <= i < |rs| ==> Deliverable(rs[i])
    requires Pending(rs) != []
    ensures SelectByBody(rs, 0) != []
  {
    hide Utf8Length, WellFormed, NoControls, CodePoints;
    assert Deliverable(rs[0]);
    if !rs[0].handling.PendingContext? {
      FirstIsTaken(rs[1..]);
    }
  }

  /** Batches taken until nothing is pending. */
  function Drain(s: State, fuel: nat): seq<seq<Record>>
    decreases fuel
  {
    if fuel == 0 || Taken(s) == [] then [] else [Taken(s)] + Drain(AfterTake(s), fuel - 1)
  }

  function Joined(batches: seq<seq<Record>>): seq<Record> {
    if |batches| == 0 then [] else batches[0] + Joined(batches[1..])
  }

  ghost predicate Ready(s: State) {
    |s.records| <= MAX_RECORDS && DistinctKeys(s.records) && forall i :: 0 <= i < |s.records| ==> Deliverable(s.records[i])
  }

  lemma TakeKeepsReady(s: State)
    requires Ready(s)
    ensures Ready(AfterTake(s))
  {
    hide Taken, Keys, ValidMail, DigitKey;
    if Taken(s) != [] {
      AttemptExcludes(s.records, Keys(Taken(s)));
      var after := AfterTake(s).records;
      forall i | 0 <= i < |after| ensures Deliverable(after[i]) {
        assert Deliverable(s.records[i]);
        assert after[i].mail == s.records[i].mail && after[i].key == s.records[i].key;
      }
    }
  }

  /** A batch over a non-empty queue takes at least one record. */
  lemma BatchProgress(s: State)
    requires Ready(s)
    ensures Taken(s) == [] <==> Pending(s.records) == []
  {
    hide SelectByBody, Select, Deliverable;
    BatchLimitNeverBinds(s);
    SelectIsPrefix(s.records, 0, 0);
    if Pending(s.records) != [] {
      FirstIsTaken(s.records);
    }
  }

  /** Repeated batches deliver every pending record once, in order, in at most as many batches as records. */
  lemma {:induction false} BatchesDrain(s: State, fuel: nat)
    requires Ready(s) && fuel >= |Pending(s.records)|
    ensures Joined(Drain(s, fuel)) == Pending(s.records)
    decreases fuel
  {
    assert DistinctKeys(s.records);
    hide Taken, AfterTake, Ready;
    BatchProgress(s);
    if fuel != 0 && Taken(s) != [] {
      TakeSplitsPending(s);
      TakeKeepsReady(s);
      BatchesDrain(AfterTake(s), fuel - 1);
      var batches := Drain(s, fuel);
      assert batches[1..] == Drain(AfterTake(s), fuel - 1);
    }
  }

  // --- The accounting is the size of the text ---

  lemma EndsInNewline()
    ensures |HEADER_END| != 0 && HEADER_END[|HEADER_END| - 1] == 10
    ensures |FOOTER| != 0 && FOOTER[0] == 10 && FOOTER[|FOOTER| - 1] == 10
  {
    var last := "\n<peer-text>\n";
    assert Units(last)[|last| - 1] == 10;
  }

  lemma ContentSize(r: Record)
    ensures Utf8Length(Content(r)) == Utf8Length(r.mail.body) + Overhead(r)
    ensures |Content(r)| != 0 && Content(r)[|Content(r)| - 1] == 10
  {
    hide Utf8Length, HeaderStart, Escape;
    var header, body := Header(r), r.mail.body;
    EndsInNewline();
    assert header[|header| - 1] == 10;
    hide Header;
    Utf8Append(header, FOOTER);
    Utf8Append(body, FOOTER);
    Utf8Append(header, body + FOOTER);
    assert Content(r) == header + (body + FOOTER);
  }

  function Cost(r: Record): nat {
    Utf8Length(r.mail.body) + Overhead(r)
  }

  function TotalCost(rs: seq<Record>): nat {
    if |rs| == 0 then 0 else Cost(rs[0]) + TotalCost(rs[1..])
  }

  lemma {:induction false} ContentsSize(rs: seq<Record>)
    ensures Utf8Length(Contents(rs)) == TotalCost(rs)
  {
    if |rs| != 0 {
      ContentSize(rs[0]);
      hide Content, Overhead, Utf8Length;
      ContentsSize(rs[1..]);
      Utf8Append(Content(rs[0]), Contents(rs[1..]));
    }
  }

  lemma {:induction false} SelectedCost(rs: seq<Record>, body: nat, content: nat)
    requires content <= MAX_BATCH_BYTES
    ensures content + TotalCost(Select(rs, body, content)) <= MAX_BATCH_BYTES
  {
    hide Overhead, Utf8Length;
    if |rs| != 0 && !rs[0].handling.PendingContext? {
      SelectedCost(rs[1..], body, content);
    } else if |rs| != 0 {
      var size, overhead := Utf8Length(rs[0].mail.body), Overhead(rs[0]);
      if body + size <= MAX_BODY_BYTES && overhead <= MAX_OVERHEAD_BYTES && content + size + overhead <= MAX_BATCH_BYTES {
        var rest := Select(rs[1..], body + size, content + size + overhead);
        SelectedCost(rs[1..], body + size, content + size + overhead);
        assert Select(rs, body, content) == [rs[0]] + rest;
        assert ([rs[0]] + rest)[1..] == rest;
      }
    }
  }

  /** Every batch's text is within the batch limit, counted in the bytes of the whole text. */
  lemma BatchFits(s: State)
    ensures Utf8Length(Contents(Taken(s))) <= 81920
  {
    hide Select;
    SelectedCost(s.records, 0, 0);
    ContentsSize(Taken(s));
  }
}
