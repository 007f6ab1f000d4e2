/** What one step of a session walk and one read do, and the JSON whose size they are charged, told from the entries and
    the request (extension/operator-session-projection.ts). */
module SessionOutcomes {
  import opened Options
  import opened Strings
  import opened Decimal
  import opened Utf8
  import opened JsonText
  import opened SessionText
  import opened SessionPaging
  import J = Json
  import Notes
  import JsonFields

  // --- One entry ---

  /** Where a walk stops without looking at an entry: at the end, after 2048 entries or with enough records. */
  predicate Stops(w: Walk, limit: nat) {
    w.next == None || w.scanned >= 2048 || |w.records| >= limit
  }

  /** A walk goes on entry by entry: the clock is read before each, an entry met before is no ancestry, an absent entry
      and a compaction end it as one more omission, a record that would pass 516096 bytes stops it before its entry, and
      every other entry is passed. */
  lemma StepMeans(entries: Entries, limit: nat, w: Walk, clock: nat -> int, expires: int)
    ensures var r := Walked(entries, limit, w, clock, expires);
      if Stops(w, limit) then r == Done(w)
      else
        var id := w.next.value;
        if clock(w.scanned) >= expires then r == Failed(ExpiredTraversal)
        else if id in w.seen then r == Failed(InvalidAncestry)
        else if id !in entries || entries[id].body == Compaction then
          r.Done? && r.walk.truncated && r.walk.omitted == w.omitted + 1 && r.walk.next == None && r.walk.records == w.records
        else
          var item := Project(entries[id].id, entries[id].body);
          if item.record.Some? && w.used + Utf8Length(RecordJson(item.record.value)) + 1 > 516096 then
            r.Done? && r.walk.truncated && r.walk.next == w.next && r.walk.records == w.records && r.walk.omitted == w.omitted
          else exists v :: PassedTo(w, v, id, entries[id].parent, item) && r == Walked(entries, limit, v, clock, expires)
  {
    hide Project, Utf8Length, RecordJson;
    if w.next.Some? && w.next.value in entries {
      var entry := entries[w.next.value];
      assert PassedTo(w, Passed(w, entry, Project(entry.id, entry.body), w.next.value), w.next.value, entry.parent, Project(entry.id, entry.body));
    }
  }

  /** The walk past an entry: its record added and charged, or one more omission; on to its parent. */
  ghost predicate PassedTo(w: Walk, v: Walk, id: Str, parent: Option<Str>, item: Projected) {
    && v.next == parent && v.scanned == w.scanned + 1 && v.seen == w.seen + {id} && (v.truncated <==> w.truncated || item.truncated)
    && match item.record
       case Some(record) =>
         v.records == w.records + [record] && v.omitted == w.omitted && v.used == w.used + Utf8Length(RecordJson(record)) + 1
       case None => v.records == w.records && v.omitted == w.omitted + 1 && v.used == w.used
  }

  // --- One read ---

  /** A handle may be used by its own session and generation until it expires. */
  predicate MayUse(handles: Handles, c: Context, q: Request) {
    q.handle.Some? ==>
      && q.handle.value in handles && handles[q.handle.value].expires > q.now
      && handles[q.handle.value].sessionId == c.sessionId && handles[q.handle.value].generation == q.generation
  }

  /** What a read walks from: the leaf for 30 seconds, or what its handle holds. */
  function Start(handles: Handles, c: Context, q: Request): Cursor
    requires MayUse(handles, c, q) && (q.handle.None? ==> c.leafId.Some?)
  {
    if q.handle.Some? then handles[q.handle.value] else Cursor(c.sessionId, q.generation, c.leafId, c.leafId.value, q.now + 30000)
  }

  function Clamped(limit: int): nat {
    if limit < 1 then 1 else if limit < 64 then limit else 64
  }

  /** The handles that have not expired. */
  function Kept(handles: Handles, now: int): Handles {
    map h | h in handles && handles[h].expires > now :: handles[h]
  }

  /** Without a usable handle a read is refused; every read forgets the expired handles. */
  lemma ReadRefused(handles: Handles, c: Context, q: Request)
    ensures Answer(handles, c, q) == (Kept(handles, q.now), Refused(ExpiredHandle)) <== !MayUse(handles, c, q)
  {
    assert Live(handles, q.now) == Kept(handles, q.now);
    hide WalkOf, PageOf, TooLarge;
  }

  /** A session without a leaf gives an empty page. */
  lemma ReadNothing(handles: Handles, c: Context, q: Request)
    requires q.handle.None? && c.leafId.None?
    ensures Answer(handles, c, q) == (Kept(handles, q.now), Sized(Page(c.sessionId, None, None, [], 0, false)))
  {
    assert Live(handles, q.now) == Kept(handles, q.now);
    assert WalkOf(handles, c, q) == Done(Fresh(None));
    hide PageJson, Utf8Length;
  }

  /** The walk decides: its failure, no room for a 33rd handle when it goes on, or the page, its records oldest first, with
      a handle to where it goes on, which expires when the traversal does. A page of more than 524288 bytes is refused
      after its handle was stored. */
  lemma ReadMeans(handles: Handles, c: Context, q: Request)
    requires MayUse(handles, c, q) && (q.handle.None? ==> c.leafId.Some?)
    ensures var live, start := Kept(handles, q.now), Start(handles, c, q);
      var o := Walked(c.entries, Clamped(q.limit), Walk([], 0, false, 0, 0, {}, Some(start.next)), q.clock, start.expires);
      Answer(handles, c, q) ==
      if o.Failed? then (live, Refused(o.problem))
      else if o.walk.next.Some? && |live| >= 32 then (live, Refused(CursorCapacity))
      else (if o.walk.next.None? then live
            else live[q.issued := Cursor(c.sessionId, q.generation, start.root, o.walk.next.value, start.expires)],
            Sized(Page(c.sessionId, start.root, if o.walk.next.None? then None else Some(q.issued), Backwards(o.walk.records),
                       o.walk.omitted, o.walk.truncated)))
  {
    WalkIs(handles, c, q);
    AnswerIs(handles, c, q);
    var o := WalkOf(handles, c, q);
    if o.Done? {
      BackwardsIs(o.walk.records);
    }
    hide Walked, Answer, WalkOf, Kept, PageJson, Utf8Length, Reversed, Backwards;
  }

  lemma WalkIs(handles: Handles, c: Context, q: Request)
    requires MayUse(handles, c, q) && (q.handle.None? ==> c.leafId.Some?)
    ensures var start := Start(handles, c, q);
      && WalkOf(handles, c, q)
         == Walked(c.entries, Clamped(q.limit), Walk([], 0, false, 0, 0, {}, Some(start.next)), q.clock, start.expires)
      && RootOf(handles, c, q) == start.root && ExpiryOf(handles, q) == start.expires
  {
    assert Limit(q.limit) == Clamped(q.limit);
    assert Fresh(NextOf(handles, c, q)) == Walk([], 0, false, 0, 0, {}, Some(Start(handles, c, q).next));
    hide Walked;
  }

  lemma AnswerIs(handles: Handles, c: Context, q: Request)
    requires MayUse(handles, c, q)
    ensures var live, o := Kept(handles, q.now), WalkOf(handles, c, q);
      Answer(handles, c, q) ==
      if o.Failed? then (live, Refused(o.problem))
      else if o.walk.next.Some? && |live| >= 32 then (live, Refused(CursorCapacity))
      else (if o.walk.next.None? then live
            else live[q.issued := Cursor(c.sessionId, q.generation, RootOf(handles, c, q), o.walk.next.value, ExpiryOf(handles, q))],
            Sized(Page(c.sessionId, RootOf(handles, c, q), if o.walk.next.None? then None else Some(q.issued), Reversed(o.walk.records),
                       o.walk.omitted, o.walk.truncated)))
  {
    assert Live(handles, q.now) == Kept(handles, q.now);
    assert Usable(handles, c, q);
    hide WalkOf, RootOf, ExpiryOf, PageJson, Utf8Length, Reversed, Live, Kept, Usable;
  }

  function Sized(page: Page): Reply {
    if Utf8Length(PageJson(page)) > 524288 then Refused(PageTooLarge) else Served(page)
  }

  function Backwards(rs: seq<Record>): seq<Record> {
    seq(|rs|, i requires 0 <= i < |rs| => rs[|rs| - 1 - i])
  }

  lemma {:induction false} BackwardsIs(rs: seq<Record>)
    ensures Reversed(rs) == Backwards(rs)
  {
    if rs != [] {
      BackwardsIs(rs[1..]);
      var b := Backwards(rs[1..]) + [rs[0]];
      assert |b| == |rs|;
      forall i | 0 <= i < |rs| ensures b[i] == Backwards(rs)[i] {
      }
    }
  }

  // --- What is charged ---

  function RoleName(role: Role): Str {
    match role
    case User => Units("user")
    case Assistant => Units("assistant")
    case Custom => Units("custom")
    case ToolSummary => Units("tool-summary")
  }

  function TextOf(s: Str): J.Value {
    J.Text(Escape(s))
  }

  function RecordFields(r: Record): seq<(Str, J.Value)> {
    [(Units("entryId"), TextOf(r.entryId)), (Units("role"), TextOf(RoleName(r.role))), (Units("text"), TextOf(r.text))]
  }

  lemma RoleIs(role: Role)
    ensures RoleText(role) == RoleName(role)
  {
    hide Units;
  }

  lemma MarkId()
    ensures RECORD_ID == [J.OPEN_OBJECT] + JsonFields.Mark(Escape(Units("entryId"))) + [QUOTE]
  {
    MarkIdName();
    hide Escape;
  }

  lemma MarkIdName()
    ensures Escape(Units("entryId")) == Units("entryId")
  {
    JsonFields.LettersPlain(Units("entryId"));
  }

  lemma MarkRole()
    ensures RECORD_ROLE == [QUOTE] + [J.COMMA] + JsonFields.Mark(Escape(Units("role"))) + [QUOTE]
  {
    MarkRoleName();
    hide Escape;
  }

  lemma MarkRoleName()
    ensures Escape(Units("role")) == Units("role")
  {
    JsonFields.LettersPlain(Units("role"));
  }

  lemma MarkText()
    ensures RECORD_TEXT == [QUOTE] + [J.COMMA] + JsonFields.Mark(Escape(Units("text"))) + [QUOTE]
  {
    MarkTextName();
    hide Escape;
  }

  lemma MarkTextName()
    ensures Escape(Units("text")) == Units("text")
  {
    JsonFields.LettersPlain(Units("text"));
  }

  lemma ThreeFields(fs: seq<(Str, J.Value)>)
    requires |fs| == 3 && JsonFields.AllPlain(fs)
    ensures JsonFields.Plain(fs[0].1) && JsonFields.Plain(fs[1].1) && JsonFields.Plain(fs[2].1)
    ensures JsonFields.FieldsText(fs, []) ==
            JsonFields.Mark(Escape(fs[0].0)) + (JsonFields.Shown(fs[0].1) + ([J.COMMA] + (JsonFields.Mark(Escape(fs[1].0)) + (JsonFields.Shown(fs[1].1)
            + ([J.COMMA] + (JsonFields.Mark(Escape(fs[2].0)) + (JsonFields.Shown(fs[2].1) + [J.CLOSE_OBJECT])))))))
  {
    hide JsonFields.Mark, JsonFields.Shown, Escape, JsonFields.Plain;
    JsonFields.OneField(fs[1..]);
    JsonFields.OneField(fs);
    assert fs[1..][1..] == fs[2..] && fs[2..] == [fs[2]];
    JsonFields.LastField(fs[2]);
    hide JsonFields.FieldsText;
  }

  /** The ways the two texts put their pieces together. */
  lemma Together(open: Str, m0: Str, a: Str, m1: Str, b: Str, m2: Str, c: Str, close: Str)
    ensures var q, comma := [QUOTE], [J.COMMA];
      open + (m0 + ((q + a + q) + (comma + (m1 + ((q + b + q) + (comma + (m2 + ((q + c + q) + close))))))))
      == (open + m0 + q) + a + (q + comma + m1 + q) + b + (q + comma + m2 + q) + c + (q + close)
  {
  }

  /** A record is charged the size of its JSON, an object of its entry, role and text, and one byte. */
  lemma ChargeMeans(r: Record)
    ensures RecordJson(r) == J.Write(J.Object(Notes.ObjectOf(RecordFields(r))), [])
    ensures Charge(r) == Utf8Length(J.Write(J.Object(Notes.ObjectOf(RecordFields(r))), [])) + 1
  {
    var fs := RecordFields(r);
    FieldsAre(r);
    hide *;
    ThreeFields(fs);
    JsonFields.FieldsWritten(fs, []);
    RecordText(r);
    WriteIs(r);
    ChargeIs(r);
  }

  lemma ChargeIs(r: Record)
    ensures Charge(r) == Utf8Length(RecordJson(r)) + 1
  {
    hide Utf8Length, RecordJson;
  }

  lemma WriteIs(r: Record)
    ensures RecordFields(r) != []
    ensures J.Write(J.Object(Notes.ObjectOf(RecordFields(r))), []) == [J.OPEN_OBJECT] + J.WriteMembers(Notes.ObjectOf(RecordFields(r)), [])
  {
    hide Notes.ObjectOf, J.WriteMembers, Units, Escape;
  }

  lemma FieldsAre(r: Record)
    ensures var fs := RecordFields(r);
      && |fs| == 3 && JsonFields.AllPlain(fs) && fs[0] == (Units("entryId"), TextOf(r.entryId))
      && fs[1] == (Units("role"), TextOf(RoleName(r.role))) && fs[2] == (Units("text"), TextOf(r.text))
      && JsonFields.Shown(TextOf(r.entryId)) == [QUOTE] + Escape(r.entryId) + [QUOTE]
      && JsonFields.Shown(TextOf(RoleName(r.role))) == [QUOTE] + Escape(RoleName(r.role)) + [QUOTE]
      && JsonFields.Shown(TextOf(r.text)) == [QUOTE] + Escape(r.text) + [QUOTE]
  {
    hide Units, Escape, RoleName;
  }

  lemma RecordText(r: Record)
    ensures var q, id, role, text := [QUOTE], Escape(r.entryId), Escape(RoleName(r.role)), Escape(r.text);
      RecordJson(r) == [J.OPEN_OBJECT] + (JsonFields.Mark(Escape(Units("entryId"))) + ((q + id + q) + ([J.COMMA] + (JsonFields.Mark(Escape(Units("role")))
                       + ((q + role + q) + ([J.COMMA] + (JsonFields.Mark(Escape(Units("text"))) + ((q + text + q) + [J.CLOSE_OBJECT]))))))))
  {
    MarkId();
    MarkRole();
    MarkText();
    RoleIs(r.role);
    assert RECORD_END == [QUOTE] + [J.CLOSE_OBJECT];
    hide Units, Escape, JsonFields.Mark, RECORD_ID, RECORD_ROLE, RECORD_TEXT, RECORD_END, RoleText, RoleName;
    Together([J.OPEN_OBJECT], JsonFields.Mark(Escape(Units("entryId"))), Escape(r.entryId), JsonFields.Mark(Escape(Units("role"))),
             Escape(RoleName(r.role)), JsonFields.Mark(Escape(Units("text"))), Escape(r.text), [J.CLOSE_OBJECT]);
  }

  // --- What a page's size is measured on ---

  function RecordValue(r: Record): J.Value {
    J.Object(Notes.ObjectOf(RecordFields(r)))
  }

  function ElementsOf(rs: seq<Record>): J.Elements
    requires rs != []
  {
    var e := J.Element([], RecordValue(rs[0]), []);
    if |rs| == 1 then J.Last(e) else J.More(e, ElementsOf(rs[1..]))
  }

  function RecordList(rs: seq<Record>): J.Value {
    if rs == [] then J.EmptyList([]) else J.List(ElementsOf(rs))
  }

  function OptionalText(s: Option<Str>): J.Value {
    if s.Some? then TextOf(s.value) else J.Scalar(Units("null"))
  }

  /** The fields of a page, in their order. */
  function PageFields(p: Page): seq<(Str, J.Value)> {
    [(Units("schemaVersion"), J.Scalar(Units("1"))), (Units("sessionId"), TextOf(p.sessionId)), (Units("leafId"), OptionalText(p.leafId)),
     (Units("nextLeafId"), OptionalText(p.nextLeafId)), (Units("records"), RecordList(p.records)), (Units("omitted"), J.Scalar(Render(p.omitted))),
     (Units("truncated"), J.Scalar(if p.truncated then Units("true") else Units("false")))]
  }

  lemma RecordOnto(r: Record, k: Str)
    ensures J.Write(RecordValue(r), k) == RecordJson(r) + k
  {
    var fs := RecordFields(r);
    FieldsAre(r);
    ChargeMeans(r);
    hide RecordFields, RecordJson, Notes.ObjectOf, J.WriteMembers, JsonFields.FieldsText, JsonFields.AllPlain, Units, Escape;
    JsonFields.FieldsWritten(fs, k);
    JsonFields.FieldsWritten(fs, []);
    JsonFields.FieldsOnto(fs, k);
    assert [J.OPEN_OBJECT] + (JsonFields.FieldsText(fs, []) + k) == [J.OPEN_OBJECT] + JsonFields.FieldsText(fs, []) + k;
  }

  lemma {:induction false} ListWritten(rs: seq<Record>, k: Str)
    requires rs != []
    ensures J.WriteElements(ElementsOf(rs), k) == RecordsJson(rs) + ([J.CLOSE_LIST] + k)
  {
    hide RecordJson, RecordValue, J.Write;
    assert COMMA_MARK == [J.COMMA];
    hide COMMA_MARK;
    if |rs| == 1 {
      ElementWritten(rs[0], [J.CLOSE_LIST] + k);
    } else {
      ListWritten(rs[1..], k);
      var t := RecordsJson(rs[1..]) + ([J.CLOSE_LIST] + k);
      ElementWritten(rs[0], [J.COMMA] + t);
      assert RecordJson(rs[0]) + ([J.COMMA] + t) == RecordJson(rs[0]) + ([J.COMMA] + RecordsJson(rs[1..])) + ([J.CLOSE_LIST] + k);
    }
  }

  lemma ElementWritten(r: Record, k: Str)
    ensures J.WriteElement(J.Element([], RecordValue(r), []), k) == RecordJson(r) + k
  {
    JsonFields.NothingBefore(k);
    RecordOnto(r, k);
    JsonFields.NothingBefore(RecordJson(r) + k);
    hide RecordJson, RecordValue, J.Write;
  }

  lemma RecordsWritten(rs: seq<Record>, k: Str)
    ensures J.Write(RecordList(rs), k) == [J.OPEN_LIST] + (RecordsJson(rs) + ([J.CLOSE_LIST] + k))
  {
    if rs != [] {
      ListWritten(rs, k);
    }
    hide J.WriteElements, ElementsOf, RecordJson;
  }

  lemma MarkStart()
    ensures PAGE_START == [J.OPEN_OBJECT] + JsonFields.Mark(Escape(Units("schemaVersion"))) + Units("1")
                          + [J.COMMA] + JsonFields.Mark(Escape(Units("sessionId")))
  {
    VersionName();
    SessionName();
    StartText();
    hide Escape, Units;
  }

  lemma VersionName()
    ensures Escape(Units("schemaVersion")) == Units("schemaVersion")
  {
    JsonFields.LettersPlain(Units("schemaVersion"));
  }

  lemma SessionName()
    ensures Escape(Units("sessionId")) == Units("sessionId")
  {
    JsonFields.LettersPlain(Units("sessionId"));
  }

  lemma StartText()
    ensures PAGE_START == [J.OPEN_OBJECT] + JsonFields.Mark(Units("schemaVersion")) + Units("1") + [J.COMMA] + JsonFields.Mark(Units("sessionId"))
  {
    FirstText();
    SecondText();
    hide Units;
  }

  lemma FirstText()
    ensures Units("{\"schemaVersion\":1,") == [J.OPEN_OBJECT] + JsonFields.Mark(Units("schemaVersion")) + Units("1") + [J.COMMA]
  {
  }

  lemma SecondText()
    ensures Units("\"sessionId\":") == JsonFields.Mark(Units("sessionId"))
  {
  }

  lemma MarkLeaf()
    ensures LEAF_MARK == [J.COMMA] + JsonFields.Mark(Escape(Units("leafId")))
  {
    MarkLeafName();
    MarkLeafText();
    hide Escape, Units, LEAF_MARK;
  }

  lemma MarkLeafName()
    ensures Escape(Units("leafId")) == Units("leafId")
  {
    JsonFields.LettersPlain(Units("leafId"));
  }

  lemma MarkLeafText()
    ensures LEAF_MARK == [J.COMMA] + JsonFields.Mark(Units("leafId"))
  {
  }

  lemma MarkNext()
    ensures NEXT_MARK == [J.COMMA] + JsonFields.Mark(Escape(Units("nextLeafId")))
  {
    MarkNextName();
    MarkNextText();
    hide Escape, Units, NEXT_MARK;
  }

  lemma MarkNextName()
    ensures Escape(Units("nextLeafId")) == Units("nextLeafId")
  {
    JsonFields.LettersPlain(Units("nextLeafId"));
  }

  lemma MarkNextText()
    ensures NEXT_MARK == [J.COMMA] + JsonFields.Mark(Units("nextLeafId"))
  {
  }

  lemma MarkOmitted()
    ensures OMITTED_MARK == [J.CLOSE_LIST] + [J.COMMA] + JsonFields.Mark(Escape(Units("omitted")))
  {
    MarkOmittedName();
    MarkOmittedText();
    hide Escape, Units, OMITTED_MARK;
  }

  lemma MarkOmittedName()
    ensures Escape(Units("omitted")) == Units("omitted")
  {
    JsonFields.LettersPlain(Units("omitted"));
  }

  lemma MarkOmittedText()
    ensures OMITTED_MARK == [J.CLOSE_LIST] + [J.COMMA] + JsonFields.Mark(Units("omitted"))
  {
  }

  lemma MarkTruncated()
    ensures TRUNCATED_MARK == [J.COMMA] + JsonFields.Mark(Escape(Units("truncated")))
  {
    MarkTruncatedName();
    MarkTruncatedText();
    hide Escape, Units, TRUNCATED_MARK;
  }

  lemma MarkTruncatedName()
    ensures Escape(Units("truncated")) == Units("truncated")
  {
    JsonFields.LettersPlain(Units("truncated"));
  }

  lemma MarkTruncatedText()
    ensures TRUNCATED_MARK == [J.COMMA] + JsonFields.Mark(Units("truncated"))
  {
  }

  lemma MarkRecords()
    ensures RECORDS_MARK == [J.COMMA] + JsonFields.Mark(Escape(Units("records"))) + [J.OPEN_LIST]
  {
    MarkRecordsName();
    MarkRecordsText();
    hide Escape, Units, RECORDS_MARK;
  }

  lemma MarkRecordsName()
    ensures Escape(Units("records")) == Units("records")
  {
    JsonFields.LettersPlain(Units("records"));
  }

  lemma MarkRecordsText()
    ensures RECORDS_MARK == [J.COMMA] + JsonFields.Mark(Units("records")) + [J.OPEN_LIST]
  {
  }

  lemma EndTexts(truncated: bool)
    ensures Units(if truncated then "true}" else "false}") == Units(if truncated then "true" else "false") + [J.CLOSE_OBJECT]
    ensures NULL_MARK == Units("null")
  {
  }

  // --- A page, field by field from the last ---

  lemma FieldOf(p: Page, i: nat)
    requires i < 7
    ensures |PageFields(p)| == 7 && |PageFields(p)[i..]| == 7 - i && PageFields(p)[i..][0] == PageFields(p)[i]
    ensures i < 6 ==> PageFields(p)[i..][1..] == PageFields(p)[i + 1..]
    ensures i == 6 ==> PageFields(p)[i..] == [PageFields(p)[6]]
  {
    hide Units, TextOf, OptionalText, RecordList, Render;
  }

  lemma TextShown(s: Str, k: Str)
    ensures J.Write(TextOf(s), k) == Quote(s) + k
  {
    hide Escape;
    JsonFields.PlainWritten(TextOf(s), k);
  }

  lemma OptionalShown(s: Option<Str>, k: Str)
    ensures J.Write(OptionalText(s), k) == OptionalJson(s) + k
  {
    EndTexts(true);
    hide Units, TextOf, Quote, NULL_MARK;
    if s.Some? {
      TextShown(s.value, k);
    } else {
      JsonFields.PlainWritten(OptionalText(s), k);
    }
  }

  function Rest(p: Page, i: nat): Str
    requires i < 7
  {
    FieldOf(p, i);
    JsonFields.ObjectText(PageFields(p)[i..], [])
  }

  lemma RestOn(p: Page, i: nat)
    requires i < 6
    ensures |PageFields(p)| == 7
    ensures Rest(p, i) == JsonFields.Mark(Escape(PageFields(p)[i].0)) + J.Write(PageFields(p)[i].1, [J.COMMA] + Rest(p, i + 1))
  {
    FieldOf(p, i);
    FieldOf(p, i + 1);
    hide PageFields, JsonFields.Mark, Escape, J.Write;
    JsonFields.OneOfMany(PageFields(p)[i..], []);
    hide JsonFields.ObjectText;
  }

  lemma Fields(p: Page)
    ensures var fs := PageFields(p);
      && fs[0] == (Units("schemaVersion"), J.Scalar(Units("1"))) && fs[1] == (Units("sessionId"), TextOf(p.sessionId))
      && fs[2] == (Units("leafId"), OptionalText(p.leafId)) && fs[3] == (Units("nextLeafId"), OptionalText(p.nextLeafId))
      && fs[4] == (Units("records"), RecordList(p.records)) && fs[5] == (Units("omitted"), J.Scalar(Render(p.omitted)))
      && fs[6] == (Units("truncated"), J.Scalar(if p.truncated then Units("true") else Units("false")))
  {
    hide Units, TextOf, OptionalText, RecordList, Render;
  }

  lemma Regrouped(c: Str, m: Str, v: Str, rest: Str)
    ensures c + (m + (v + rest)) == (c + m) + (v + rest)
  {
  }

  lemma RestTruncated(p: Page)
    ensures [J.COMMA] + Rest(p, 6) == TRUNCATED_MARK + Units(if p.truncated then "true}" else "false}")
  {
    var m, v := JsonFields.Mark(Escape(Units("truncated"))), Units(if p.truncated then "true" else "false");
    LastField(p);
    MarkTruncated();
    EndTexts(p.truncated);
    hide *;
    Regrouped([J.COMMA], m, v, [J.CLOSE_OBJECT]);
  }

  lemma LastField(p: Page)
    ensures Rest(p, 6)
            == JsonFields.Mark(Escape(Units("truncated"))) + (Units(if p.truncated then "true" else "false") + [J.CLOSE_OBJECT])
  {
    FieldOf(p, 6);
    Fields(p);
    var field := PageFields(p)[6];
    JsonFields.OnlyOne(field, []);
    JsonFields.PlainWritten(field.1, [J.CLOSE_OBJECT] + []);
    hide PageFields, JsonFields.Mark, JsonFields.ObjectText, Escape, J.Write, Units;
    assert [J.CLOSE_OBJECT] + [] == [J.CLOSE_OBJECT];
  }

  lemma RestOmitted(p: Page)
    ensures [J.CLOSE_LIST] + ([J.COMMA] + Rest(p, 5)) == TailJson(p)
  {
    RestTruncated(p);
    RestOn(p, 5);
    Fields(p);
    CountShown(p.omitted, [J.COMMA] + Rest(p, 6));
    MarkOmitted();
    TailIs(p);
    hide *;
    Closed([J.CLOSE_LIST], [J.COMMA], JsonFields.Mark(Escape(Units("omitted"))), Render(p.omitted), [J.COMMA] + Rest(p, 6));
  }

  lemma Closed(close: Str, c: Str, m: Str, v: Str, rest: Str)
    ensures close + (c + (m + (v + rest))) == (close + c + m) + (v + rest)
  {
  }

  lemma CountShown(n: nat, k: Str)
    ensures J.Write(J.Scalar(Render(n)), k) == Render(n) + k
  {
    JsonFields.PlainWritten(J.Scalar(Render(n)), k);
    hide J.Write, Render;
  }

  lemma TailIs(p: Page)
    ensures TailJson(p) == OMITTED_MARK + (Render(p.omitted) + (TRUNCATED_MARK + Units(if p.truncated then "true}" else "false}")))
  {
    hide OMITTED_MARK, TRUNCATED_MARK, Units, Render;
  }

  lemma RestRecords(p: Page)
    ensures [J.COMMA] + Rest(p, 4) == RECORDS_MARK + (RecordsJson(p.records) + TailJson(p))
  {
    RestOmitted(p);
    RestOn(p, 4);
    Fields(p);
    RecordsWritten(p.records, [J.COMMA] + Rest(p, 5));
    MarkRecords();
    hide *;
    Listed([J.COMMA], JsonFields.Mark(Escape(Units("records"))), [J.OPEN_LIST], RecordsJson(p.records),
           [J.CLOSE_LIST] + ([J.COMMA] + Rest(p, 5)));
  }

  lemma Listed(c: Str, m: Str, open: Str, v: Str, rest: Str)
    ensures c + (m + (open + (v + rest))) == (c + m + open) + (v + rest)
  {
  }

  lemma RestNext(p: Page)
    ensures [J.COMMA] + Rest(p, 3) == NEXT_MARK + (OptionalJson(p.nextLeafId) + ([J.COMMA] + Rest(p, 4)))
  {
    RestOn(p, 3);
    Fields(p);
    OptionalShown(p.nextLeafId, [J.COMMA] + Rest(p, 4));
    MarkNext();
    hide *;
    Regrouped([J.COMMA], JsonFields.Mark(Escape(Units("nextLeafId"))), OptionalJson(p.nextLeafId), [J.COMMA] + Rest(p, 4));
  }

  lemma RestLeaf(p: Page)
    ensures [J.COMMA] + Rest(p, 2) == LEAF_MARK + (OptionalJson(p.leafId) + ([J.COMMA] + Rest(p, 3)))
  {
    RestOn(p, 2);
    Fields(p);
    OptionalShown(p.leafId, [J.COMMA] + Rest(p, 3));
    MarkLeaf();
    hide *;
    Regrouped([J.COMMA], JsonFields.Mark(Escape(Units("leafId"))), OptionalJson(p.leafId), [J.COMMA] + Rest(p, 3));
  }

  lemma Opened(open: Str, m: Str, v: Str, c: Str, n: Str, w: Str, rest: Str)
    ensures open + (m + (v + (c + (n + (w + rest))))) == (open + m + v + c + n) + (w + rest)
  {
  }

  lemma RestStart(p: Page)
    ensures [J.OPEN_OBJECT] + Rest(p, 0) == PAGE_START + (Quote(p.sessionId) + ([J.COMMA] + Rest(p, 2)))
  {
    RestOn(p, 0);
    RestOn(p, 1);
    Fields(p);
    VersionShown([J.COMMA] + Rest(p, 1));
    TextShown(p.sessionId, [J.COMMA] + Rest(p, 2));
    MarkStart();
    hide *;
    Opened([J.OPEN_OBJECT], JsonFields.Mark(Escape(Units("schemaVersion"))), Units("1"), [J.COMMA],
           JsonFields.Mark(Escape(Units("sessionId"))), Quote(p.sessionId), [J.COMMA] + Rest(p, 2));
  }

  lemma VersionShown(k: Str)
    ensures J.Write(J.Scalar(Units("1")), k) == Units("1") + k
  {
    JsonFields.PlainWritten(J.Scalar(Units("1")), k);
  }

  /** The size of a page is that of its JSON: an object of its fields in order, the records a list of objects. */
  lemma PageMeans(p: Page)
    ensures PageJson(p) == J.Write(J.Object(Notes.ObjectOf(PageFields(p))), [])
  {
    RestStart(p);
    RestLeaf(p);
    RestNext(p);
    RestRecords(p);
    PageWritten(p);
    hide Rest, PageFields, J.Write, Notes.ObjectOf, Quote, OptionalJson, RecordsJson, TailJson, PAGE_START, LEAF_MARK, NEXT_MARK, RECORDS_MARK;
  }

  lemma PageWritten(p: Page)
    ensures J.Write(J.Object(Notes.ObjectOf(PageFields(p))), []) == [J.OPEN_OBJECT] + Rest(p, 0)
  {
    FieldOf(p, 0);
    assert PageFields(p)[0..] == PageFields(p) != [];
    hide PageFields, JsonFields.ObjectText;
    ObjectOpens(PageFields(p));
    hide J.Write, Notes.ObjectOf;
  }

  lemma ObjectOpens(fields: seq<(Str, J.Value)>)
    requires fields != []
    ensures J.Write(J.Object(Notes.ObjectOf(fields)), []) == [J.OPEN_OBJECT] + JsonFields.ObjectText(fields, [])
  {
    JsonFields.ObjectWritten(fields, []);
    hide Notes.ObjectOf, J.WriteMembers, JsonFields.ObjectText;
  }
}
