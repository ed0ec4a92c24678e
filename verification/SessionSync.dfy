/** What one sync of one session log computes: the rows a stretch of lines
    contributes, the record a parse hands to the writer, and the database a
    write leaves. */
module SessionSync {
  import opened Options
  import opened LogLines
  import opened KeyedTables

  /** EDIT_PARSER_VERSION: rows written by an older parser are rebuilt. */
  const PARSER_VERSION: nat := 4

  /** The code outside this model: the JSON reader and the timestamp, token,
      hashline and result classifiers, all functions of their text. */
  datatype Reader = Reader(
    decode: seq<byte> -> Event,
    tokens: string -> nat,
    inputLength: string -> nat,
    sections: string -> seq<string>,
    successful: string -> bool,
    warnings: string -> seq<string>)

  datatype Block =
    | ToolCall(callId: string, name: string, args: string, input: string)
    | Thinking(thinking: string)
    | Text(text: string)
    | OtherBlock

  /** One line of the log. `Raises` is a line the parser does not survive, such
      as a JSON value that is not an object. */
  datatype Event =
    | Blank
    | Malformed
    | Raises
    | Other
    | Session(ts: int, uuid: Option<string>, version: Option<int>, title: Option<string>, cwd: Option<string>)
    | Assistant(ts: int, content: seq<Block>)
    | ToolResult(ts: int, callId: string, name: string, text: string, isError: bool)
    | User(ts: int, text: string)

  datatype Meta = Meta(
    uuid: Option<string>, version: Option<int>, title: Option<string>, cwd: Option<string>, startedAt: Option<int>)

  const NO_META := Meta(None, None, None, None, None)

  function CoalesceField<T>(new_: Option<T>, old_: Option<T>): Option<T> {
    if new_.Some? then new_ else old_
  }

  /** COALESCE(excluded.x, ss_sessions.x) on each metadata column. */
  function Coalesce(new_: Meta, old_: Meta): Meta {
    Meta(CoalesceField(new_.uuid, old_.uuid), CoalesceField(new_.version, old_.version),
         CoalesceField(new_.title, old_.title), CoalesceField(new_.cwd, old_.cwd),
         CoalesceField(new_.startedAt, old_.startedAt))
  }

  // ---------- Rows ----------

  datatype CallRow = CallRow(tool: string, rawTool: string, ts: int, args: string, argTokens: nat)
  datatype ResultRow = ResultRow(tool: string, rawTool: string, ts: int, text: string, tokens: nat, isError: bool)
  datatype AssistantRow = AssistantRow(
    ts: int, text: Option<string>, thinking: Option<string>, textTokens: nat, thinkingTokens: nat)
  datatype UserRow = UserRow(ts: int, text: string, tokens: nat)
  datatype SectionRow = SectionRow(seqNo: nat, section: string, parser: nat)

  /** What a tool call says of an edit, and what its result says. */
  datatype Stub = Stub(seqNo: nat, ts: int, inputLength: nat)
  datatype Outcome = Outcome(success: bool, warnings: seq<string>)
  datatype EditRow = EditRow(
    seqNo: nat, ts: int, inputLength: nat, success: Option<bool>, warnings: seq<string>, parser: nat)

  function MergeStub(old_: Option<EditRow>, s: Stub): EditRow {
    match old_
    case None => EditRow(s.seqNo, s.ts, s.inputLength, None, [], PARSER_VERSION)
    case Some(e) => e.(seqNo := s.seqNo, ts := s.ts, inputLength := s.inputLength, parser := PARSER_VERSION)
  }

  function MergeOutcome(old_: Option<EditRow>, o: Outcome): EditRow {
    match old_
    case None => EditRow(0, 0, 0, Some(o.success), o.warnings, PARSER_VERSION)
    case Some(e) => e.(success := Some(o.success), warnings := o.warnings, parser := PARSER_VERSION)
  }

  /** The rows gathered from a stretch of lines, in order. */
  datatype Batch = Batch(
    calls: Rows<CallRow>, results: Rows<ResultRow>, assistants: Rows<AssistantRow>, users: Rows<UserRow>,
    stubs: Rows<Stub>, outcomes: Rows<Outcome>, sections: Rows<SectionRow>, meta: Meta)

  const EMPTY_BATCH := Batch([], [], [], [], [], [], [], NO_META)

  function Plus(a: Batch, b: Batch): Batch {
    Batch(a.calls + b.calls, a.results + b.results, a.assistants + b.assistants, a.users + b.users,
          a.stubs + b.stubs, a.outcomes + b.outcomes, a.sections + b.sections, Coalesce(b.meta, a.meta))
  }

  lemma PlusAssociative(a: Batch, b: Batch, c: Batch)
    ensures Plus(Plus(a, b), c) == Plus(a, Plus(b, c))
  {
  }

  lemma PlusMessages(a: Batch, rows: Rows<AssistantRow>)
    ensures Plus(a, EMPTY_BATCH.(assistants := rows)) == a.(assistants := a.assistants + rows)
  {
    PlusUnit(a);
  }

  lemma PlusUsers(a: Batch, rows: Rows<UserRow>)
    ensures Plus(a, EMPTY_BATCH.(users := rows)) == a.(users := a.users + rows)
  {
    PlusUnit(a);
  }

  lemma PlusUnit(a: Batch)
    ensures Plus(a, EMPTY_BATCH) == a == Plus(EMPTY_BATCH, a)
  {
  }

  // ---------- Ingestion of one line ----------

  function ToolName(raw: string): string {
    if raw == "" then "<unknown>" else raw
  }

  function SectionRows(file: string, callId: string, seqNo: nat, sections: seq<string>): Rows<SectionRow> {
    seq(|sections|, i requires 0 <= i < |sections| =>
      (Key(file, callId, i), SectionRow(seqNo, sections[i], PARSER_VERSION)))
  }

  function BlockBatch(r: Reader, file: string, seqNo: nat, ts: int, b: Block): Batch {
    match b
    case ToolCall(id, name, args, input) =>
      var key := Key(file, id, seqNo);
      var calls := [(key, CallRow(ToolName(name), name, ts, args, r.tokens(args)))];
      if ToolName(name) == "edit" then
        EMPTY_BATCH.(calls := calls,
                     stubs := [(Key(file, id, 0), Stub(seqNo, ts, r.inputLength(input)))],
                     sections := SectionRows(file, id, seqNo, r.sections(input)))
      else
        EMPTY_BATCH.(calls := calls)
    case _ => EMPTY_BATCH
  }

  function ContentBatch(r: Reader, file: string, seqNo: nat, ts: int, content: seq<Block>): Batch {
    if content == [] then EMPTY_BATCH
    else Plus(ContentBatch(r, file, seqNo, ts, content[..|content| - 1]),
              BlockBatch(r, file, seqNo, ts, content[|content| - 1]))
  }

  function TextParts(content: seq<Block>): seq<string> {
    if content == [] then [] else
    var last := content[|content| - 1];
    TextParts(content[..|content| - 1]) + if last.Text? && last.text != "" then [last.text] else []
  }

  function ThinkingParts(content: seq<Block>): seq<string> {
    if content == [] then [] else
    var last := content[|content| - 1];
    ThinkingParts(content[..|content| - 1]) + if last.Thinking? && last.thinking != "" then [last.thinking] else []
  }

  function JoinLines(parts: seq<string>): string {
    if |parts| == 0 then "" else
    if |parts| == 1 then parts[0] else parts[0] + "\n" + JoinLines(parts[1..])
  }

  function Blob(parts: seq<string>): Option<string> {
    if parts == [] then None else Some(JoinLines(parts))
  }

  function BlobTokens(r: Reader, blob: Option<string>): nat {
    match blob
    case None => 0
    case Some(s) => r.tokens(s)
  }

  function MessageRows(r: Reader, file: string, seqNo: nat, ts: int, texts: seq<string>, thoughts: seq<string>): Rows<AssistantRow> {
    var text, thinking := Blob(texts), Blob(thoughts);
    if text.None? && thinking.None? then []
    else [(Key(file, "", seqNo), AssistantRow(ts, text, thinking, BlobTokens(r, text), BlobTokens(r, thinking)))]
  }

  function MessageBatch(r: Reader, file: string, seqNo: nat, ts: int, content: seq<Block>): Batch {
    EMPTY_BATCH.(assistants := MessageRows(r, file, seqNo, ts, TextParts(content), ThinkingParts(content)))
  }

  function ResultBatch(r: Reader, file: string, seqNo: nat, ts: int, id: string, name: string, text: string, isError: bool): Batch {
    var tool := ToolName(name);
    var success := r.successful(text);
    EMPTY_BATCH.(
      results := [(Key(file, id, seqNo), ResultRow(tool, name, ts, text, r.tokens(text), isError))],
      outcomes := if tool == "edit"
                  then [(Key(file, id, 0), Outcome(success, if success then r.warnings(text) else []))]
                  else [])
  }

  /** The rows and metadata one line contributes. */
  function Ingest(r: Reader, file: string, seqNo: nat, ev: Event): Batch {
    match ev
    case Session(ts, uuid, version, title, cwd) =>
      if seqNo == 0
      then EMPTY_BATCH.(meta := Meta(uuid, version, title, cwd, if ts == 0 then None else Some(ts)))
      else EMPTY_BATCH
    case Assistant(ts, content) =>
      Plus(ContentBatch(r, file, seqNo, ts, content), MessageBatch(r, file, seqNo, ts, content))
    case ToolResult(ts, id, name, text, isError) => ResultBatch(r, file, seqNo, ts, id, name, text, isError)
    case User(ts, text) =>
      if text == "" then EMPTY_BATCH
      else EMPTY_BATCH.(users := [(Key(file, "", seqNo), UserRow(ts, text, r.tokens(text)))])
    case _ => EMPTY_BATCH
  }

  /** The rows of consecutive lines, the first of them numbered `seqNo`. */
  function BatchOf(r: Reader, file: string, lines: seq<seq<byte>>, seqNo: nat): Batch {
    if lines == [] then EMPTY_BATCH
    else Plus(BatchOf(r, file, lines[..|lines| - 1], seqNo),
              Ingest(r, file, seqNo + |lines| - 1, r.decode(lines[|lines| - 1])))
  }

  predicate Parses(r: Reader, lines: seq<seq<byte>>) {
    forall i :: 0 <= i < |lines| ==> !r.decode(lines[i]).Raises?
  }

  lemma BatchSnoc(r: Reader, file: string, lines: seq<seq<byte>>, last: seq<byte>, seqNo: nat, at: nat)
    requires at == seqNo + |lines|
    ensures BatchOf(r, file, lines + [last], seqNo) == Plus(BatchOf(r, file, lines, seqNo), Ingest(r, file, at, r.decode(last)))
  {
    assert (lines + [last])[..|lines|] == lines;
    assert seqNo + |lines + [last]| - 1 == at;
  }

  lemma AppendSnoc(a: seq<seq<byte>>, b: seq<seq<byte>>) returns (front: seq<seq<byte>>, last: seq<byte>)
    requires b != []
    ensures b == front + [last] && a + b == (a + front) + [last]
  {
    front, last := b[..|b| - 1], b[|b| - 1];
  }

  /** A stretch of lines may be ingested in two parts. */
  lemma {:induction false} BatchAppend(r: Reader, file: string, a: seq<seq<byte>>, b: seq<seq<byte>>, seqNo: nat, next: nat)
    requires next == seqNo + |a|
    ensures BatchOf(r, file, a + b, seqNo) == Plus(BatchOf(r, file, a, seqNo), BatchOf(r, file, b, next))
    decreases |b|
  {
    if b == [] {
      assert a + b == a;
      PlusUnit(BatchOf(r, file, a, seqNo));
    } else {
      var front, last := AppendSnoc(a, b);
      BatchAppend(r, file, a, front, seqNo, next);
      var at := next + |front|;
      BatchSnoc(r, file, a + front, last, seqNo, at);
      BatchSnoc(r, file, front, last, next, at);
      PlusAssociative(BatchOf(r, file, a, seqNo), BatchOf(r, file, front, next), Ingest(r, file, at, r.decode(last)));
    }
  }

  // ---------- One parse and one write ----------

  datatype Stat = Stat(size: nat, mtime: int)

  datatype Records = Records(file: string, full: bool, rows: Batch, stat: Stat, offset: nat, lines: nat)

  function Tail(content: seq<byte>, offset: nat): seq<byte> {
    if offset <= |content| then content[offset..] else []
  }

  /** What a parse returns; None when a line raises. */
  function Parse(r: Reader, file: string, stat: Stat, content: seq<byte>, offset: nat, seqNo: nat, full: bool): Option<Records> {
    var tail := Tail(content, offset);
    var lines := SplitLines(tail);
    if Parses(r, lines)
    then Some(Records(file, full, BatchOf(r, file, lines, seqNo), stat, offset + |tail|, seqNo + |lines|))
    else None
  }

  datatype SessionRow = SessionRow(meta: Meta, stat: Stat, offset: nat, lines: nat, lastSynced: int, parser: nat)

  datatype Tables = Tables(
    calls: map<Key, CallRow>, results: map<Key, ResultRow>, assistants: map<Key, AssistantRow>,
    users: map<Key, UserRow>, edits: map<Key, EditRow>, sections: map<Key, SectionRow>)

  const EMPTY_TABLES := Tables(map[], map[], map[], map[], map[], map[])

  datatype Database = Database(tables: Tables, sessions: map<string, SessionRow>)

  /** The rows of one session file. */
  function View(t: Tables, file: string): Tables {
    Tables(FileRows(t.calls, file), FileRows(t.results, file), FileRows(t.assistants, file),
           FileRows(t.users, file), FileRows(t.edits, file), FileRows(t.sections, file))
  }

  function Without(t: Tables, file: string): Tables {
    Tables(DeleteFile(t.calls, file), DeleteFile(t.results, file), DeleteFile(t.assistants, file),
           DeleteFile(t.users, file), DeleteFile(t.edits, file), DeleteFile(t.sections, file))
  }

  /** The upserts of one batch, statement by statement. */
  function Insert(t: Tables, b: Batch): Tables {
    Tables(ApplyAll(t.calls, b.calls, Replace<CallRow>),
           ApplyAll(t.results, b.results, Replace<ResultRow>),
           ApplyAll(t.assistants, b.assistants, Replace<AssistantRow>),
           ApplyAll(t.users, b.users, Replace<UserRow>),
           ApplyAll(ApplyAll(t.edits, b.stubs, MergeStub), b.outcomes, MergeOutcome),
           ApplyAll(t.sections, b.sections, Replace<SectionRow>))
  }

  function OldMeta(db: Database, file: string): Meta {
    if file in db.sessions then db.sessions[file].meta else NO_META
  }

  /** One write: the session row itself is never deleted, so its metadata is
      merged even on a rebuild. */
  function Write(db: Database, rec: Records, now: int): Database {
    var base := if rec.full then Without(db.tables, rec.file) else db.tables;
    Database(
      Insert(base, rec.rows),
      db.sessions[rec.file := SessionRow(Coalesce(rec.rows.meta, OldMeta(db, rec.file)), rec.stat,
                                         rec.offset, rec.lines, now, PARSER_VERSION)])
  }

  // ---------- Laws of batches ----------

  /** Inserting two batches in turn is inserting their sum, although the
      statements of the two are interleaved differently. */
  lemma InsertPlus(t: Tables, a: Batch, b: Batch)
    ensures Insert(Insert(t, a), b) == Insert(t, Plus(a, b))
  {
    ApplyAppend(t.calls, a.calls, b.calls, Replace<CallRow>);
    ApplyAppend(t.results, a.results, b.results, Replace<ResultRow>);
    ApplyAppend(t.assistants, a.assistants, b.assistants, Replace<AssistantRow>);
    ApplyAppend(t.users, a.users, b.users, Replace<UserRow>);
    ApplyAppend(t.sections, a.sections, b.sections, Replace<SectionRow>);
    EditsPlus(t.edits, a.stubs, a.outcomes, b.stubs, b.outcomes);
  }

  lemma EditsPlus(t: map<Key, EditRow>, s1: Rows<Stub>, o1: Rows<Outcome>, s2: Rows<Stub>, o2: Rows<Outcome>)
    ensures
      ApplyAll(ApplyAll(ApplyAll(ApplyAll(t, s1, MergeStub), o1, MergeOutcome), s2, MergeStub), o2, MergeOutcome)
      == ApplyAll(ApplyAll(t, s1 + s2, MergeStub), o1 + o2, MergeOutcome)
  {
    var t1 := ApplyAll(t, s1, MergeStub);
    assert Independent(MergeStub, MergeOutcome);
    ApplyExchange(t1, s2, o1, MergeStub, MergeOutcome);
    ApplyAppend(t, s1, s2, MergeStub);
    ApplyAppend(ApplyAll(t1, s2, MergeStub), o1, o2, MergeOutcome);
  }

  ghost predicate BatchOfFile(b: Batch, file: string) {
    AllOf(b.calls, file) && AllOf(b.results, file) && AllOf(b.assistants, file) && AllOf(b.users, file) &&
    AllOf(b.stubs, file) && AllOf(b.outcomes, file) && AllOf(b.sections, file)
  }

  lemma {:induction false} ContentBatchLocal(r: Reader, file: string, seqNo: nat, ts: int, content: seq<Block>)
    ensures BatchOfFile(ContentBatch(r, file, seqNo, ts, content), file)
    decreases |content|
  {
    if content != [] {
      ContentBatchLocal(r, file, seqNo, ts, content[..|content| - 1]);
    }
  }

  lemma PlusLocal(a: Batch, b: Batch, file: string)
    requires BatchOfFile(a, file) && BatchOfFile(b, file)
    ensures BatchOfFile(Plus(a, b), file)
  {
  }

  lemma IngestLocal(r: Reader, file: string, seqNo: nat, ev: Event)
    ensures BatchOfFile(Ingest(r, file, seqNo, ev), file)
  {
    match ev {
      case Assistant(ts, content) => ContentBatchLocal(r, file, seqNo, ts, content);
      case _ =>
    }
  }

  lemma {:induction false} BatchLocal(r: Reader, file: string, lines: seq<seq<byte>>, seqNo: nat)
    ensures BatchOfFile(BatchOf(r, file, lines, seqNo), file)
    decreases |lines|
  {
    if lines != [] {
      BatchLocal(r, file, lines[..|lines| - 1], seqNo);
      IngestLocal(r, file, seqNo + |lines| - 1, r.decode(lines[|lines| - 1]));
      PlusLocal(BatchOf(r, file, lines[..|lines| - 1], seqNo),
                Ingest(r, file, seqNo + |lines| - 1, r.decode(lines[|lines| - 1])), file);
    }
  }

  /** A batch of one file changes that file's rows alone, and as if there were
      no other. */
  lemma InsertLocal(t: Tables, b: Batch, file: string)
    requires BatchOfFile(b, file)
    ensures View(Insert(t, b), file) == Insert(View(t, file), b)
    ensures forall other :: other != file ==> View(Insert(t, b), other) == View(t, other)
  {
    ApplyLocal(t.calls, b.calls, Replace<CallRow>, file);
    ApplyLocal(t.results, b.results, Replace<ResultRow>, file);
    ApplyLocal(t.assistants, b.assistants, Replace<AssistantRow>, file);
    ApplyLocal(t.users, b.users, Replace<UserRow>, file);
    ApplyLocal(t.edits, b.stubs, MergeStub, file);
    ApplyLocal(ApplyAll(t.edits, b.stubs, MergeStub), b.outcomes, MergeOutcome, file);
    ApplyLocal(t.sections, b.sections, Replace<SectionRow>, file);
  }

  lemma DeleteView<V>(table: map<Key, V>, file: string, other: string)
    ensures FileRows(DeleteFile(table, file), other) == if other == file then map[] else FileRows(table, other)
  {
  }

  lemma WithoutView(t: Tables, file: string, other: string)
    ensures View(Without(t, file), other) == if other == file then EMPTY_TABLES else View(t, other)
  {
    DeleteView(t.calls, file, other);
    DeleteView(t.results, file, other);
    DeleteView(t.assistants, file, other);
    DeleteView(t.users, file, other);
    DeleteView(t.edits, file, other);
    DeleteView(t.sections, file, other);
  }

  // ---------- Edit rows, independently of any order of statements ----------

  function LastOf<R>(rows: Rows<R>, k: Key): Option<R>
    decreases |rows|
  {
    if rows == [] then None else
    if rows[|rows| - 1].0 == k then Some(rows[|rows| - 1].1) else LastOf(rows[..|rows| - 1], k)
  }

  /** The row of a call: the columns of its last stub, or zeros, beside those
      of its last outcome, or null. */
  function EditRowOf(stub: Option<Stub>, outcome: Option<Outcome>): Option<EditRow> {
    if stub.None? && outcome.None? then None else
    var s, o := stub.GetOr(Stub(0, 0, 0)), outcome.GetOr(Outcome(false, []));
    Some(EditRow(s.seqNo, s.ts, s.inputLength, if outcome.None? then None else Some(o.success), o.warnings, PARSER_VERSION))
  }

  lemma {:induction false} StubRow(stubs: Rows<Stub>, k: Key)
    ensures Get(ApplyAll(map[], stubs, MergeStub), k) == EditRowOf(LastOf(stubs, k), None)
    decreases |stubs|
  {
    if stubs != [] {
      StubRow(stubs[..|stubs| - 1], k);
    }
  }

  /** Whatever the batching, an edit row pairs the last stub with the last
      outcome of its call. */
  lemma {:induction false} EditRowMeaning(stubs: Rows<Stub>, outcomes: Rows<Outcome>, k: Key)
    ensures Get(ApplyAll(ApplyAll(map[], stubs, MergeStub), outcomes, MergeOutcome), k)
         == EditRowOf(LastOf(stubs, k), LastOf(outcomes, k))
    decreases |outcomes|
  {
    if outcomes == [] {
      StubRow(stubs, k);
    } else {
      EditRowMeaning(stubs, outcomes[..|outcomes| - 1], k);
    }
  }
}
