/** What the tables hold of a log, told from its lines alone: which line and
    which block each row comes from. */
module LogContents {
  import opened Options
  import opened LogLines
  import opened KeyedTables
  import opened SessionSync
  import opened SyncRows

  // ---------- Rows by key ----------

  lemma {:induction false} ReplaceKeepsLast<R>(rows: Rows<R>, k: Key)
    ensures Get(ApplyAll(map[], rows, Replace<R>), k) == LastOf(rows, k)
    decreases |rows|
  {
    if rows != [] {
      ReplaceKeepsLast(rows[..|rows| - 1], k);
    }
  }

  function Either<R>(later: Option<R>, earlier: Option<R>): Option<R> {
    if later.Some? then later else earlier
  }

  lemma {:induction false} LastOfAppend<R>(a: Rows<R>, b: Rows<R>, k: Key)
    ensures LastOf(a + b, k) == Either(LastOf(b, k), LastOf(a, k))
    decreases |b|
  {
    if b == [] {
      assert a + b == a;
    } else {
      var front, last := b[..|b| - 1], b[|b| - 1];
      assert (a + b)[..|a + b| - 1] == a + front;
      LastOfAppend(a, front, k);
    }
  }

  lemma LastOfOne<R>(key: Key, row: R, k: Key)
    ensures LastOf([(key, row)], k) == if key == k then Some(row) else None
  {
    assert [(key, row)][..0] == [];
  }

  // ---------- The reference: lines and blocks ----------

  /** The user row of a line. */
  function UserOf(r: Reader, ev: Event): Option<UserRow> {
    match ev
    case User(ts, text) => if text == "" then None else Some(UserRow(ts, text, r.tokens(text)))
    case _ => None
  }

  /** The result row of a line, for a call id. */
  function ResultOf(r: Reader, ev: Event, id: string): Option<ResultRow> {
    match ev
    case ToolResult(ts, callId, name, text, isError) =>
      if callId == id then Some(ResultRow(ToolName(name), name, ts, text, r.tokens(text), isError)) else None
    case _ => None
  }

  /** A block of a message with something in it. */
  predicate Speaks(b: Block) {
    (b.Text? && b.text != "") || (b.Thinking? && b.thinking != "")
  }

  predicate Speaking(content: seq<Block>) {
    exists j :: 0 <= j < |content| && Speaks(content[j])
  }

  /** The row of an assistant's message: its non-empty texts and thoughts. */
  function MessageOf(r: Reader, ev: Event): Option<AssistantRow> {
    match ev
    case Assistant(ts, content) =>
      if Speaking(content) then
        var text, thinking := Blob(TextParts(content)), Blob(ThinkingParts(content));
        Some(AssistantRow(ts, text, thinking, BlobTokens(r, text), BlobTokens(r, thinking)))
      else None
    case _ => None
  }

  /** The last tool call of an id among the blocks that `wants` accepts. */
  function LastCallIn(content: seq<Block>, id: string, wants: Block -> bool): Option<Block> {
    if content == [] then None
    else
      var last := content[|content| - 1];
      if last.ToolCall? && last.callId == id && wants(last) then Some(last)
      else LastCallIn(content[..|content| - 1], id, wants)
  }

  /** A tool call found in a log, with the number and time of its line. */
  datatype Found = Found(line: nat, ts: int, block: Block)

  function CallAt(ev: Event, line: nat, id: string, wants: Block -> bool): Option<Found> {
    match ev
    case Assistant(ts, content) =>
      (match LastCallIn(content, id, wants)
       case None => None
       case Some(b) => Some(Found(line, ts, b)))
    case _ => None
  }

  /** The last such tool call of a log. */
  function LastCall(r: Reader, lines: seq<seq<byte>>, id: string, wants: Block -> bool): Option<Found> {
    if lines == [] then None
    else
      var at := |lines| - 1;
      Either(CallAt(r.decode(lines[at]), at, id, wants), LastCall(r, lines[..at], id, wants))
  }

  function OutcomeAt(r: Reader, ev: Event, id: string): Option<Outcome> {
    match ev
    case ToolResult(ts, callId, name, text, isError) =>
      if callId == id && name == "edit"
      then Some(Outcome(r.successful(text), if r.successful(text) then r.warnings(text) else []))
      else None
    case _ => None
  }

  /** What the last result of an edit says. */
  function LastOutcome(r: Reader, lines: seq<seq<byte>>, id: string): Option<Outcome> {
    if lines == [] then None
    else Either(OutcomeAt(r, r.decode(lines[|lines| - 1]), id), LastOutcome(r, lines[..|lines| - 1], id))
  }

  function Stubbed(r: Reader, found: Option<Found>): Option<Stub> {
    match found
    case Some(Found(line, ts, b)) => if b.ToolCall? then Some(Stub(line, ts, r.inputLength(b.input))) else None
    case None => None
  }

  /** The number of sections of an edit goes past `idx`. */
  function HasSection(r: Reader, idx: nat): Block -> bool {
    (b: Block) => b.ToolCall? && b.name == "edit" && idx < |r.sections(b.input)|
  }

  function IsEdit(): Block -> bool {
    (b: Block) => b.ToolCall? && b.name == "edit"
  }

  function AnyCall(): Block -> bool {
    (b: Block) => true
  }

  function CallOf(r: Reader, found: Option<Found>): Option<CallRow> {
    match found
    case Some(Found(line, ts, b)) =>
      if b.ToolCall? then Some(CallRow(ToolName(b.name), b.name, ts, b.args, r.tokens(b.args))) else None
    case None => None
  }

  function SectionOf(r: Reader, found: Option<Found>, idx: nat): Option<SectionRow> {
    match found
    case Some(Found(line, _, b)) =>
      if b.ToolCall? && idx < |r.sections(b.input)|
      then Some(SectionRow(line, r.sections(b.input)[idx], PARSER_VERSION)) else None
    case None => None
  }

  // ---------- One line ----------

  lemma EditByName(name: string)
    ensures ToolName(name) == "edit" <==> name == "edit"
  {
    assert |"<unknown>"| == 9 && |"edit"| == 4;
  }

  lemma {:induction false} ContentIsCalls(r: Reader, file: string, at: nat, ts: int, content: seq<Block>)
    ensures
      var b := ContentBatch(r, file, at, ts, content);
      b.users == [] && b.results == [] && b.assistants == [] && b.outcomes == []
    decreases |content|
  {
    if content != [] {
      ContentIsCalls(r, file, at, ts, content[..|content| - 1]);
    }
  }

  lemma SpeaksSnoc(content: seq<Block>)
    requires content != []
    ensures Speaking(content) <==> Speaking(content[..|content| - 1]) || Speaks(content[|content| - 1])
  {
    var front := content[..|content| - 1];
    if Speaking(front) {
      var j :| 0 <= j < |front| && Speaks(front[j]);
      assert Speaks(content[j]);
    }
    if Speaking(content) {
      var j :| 0 <= j < |content| && Speaks(content[j]);
      assert j < |front| ==> Speaks(front[j]);
    }
  }

  lemma {:induction false} PartsSpeak(content: seq<Block>)
    ensures TextParts(content) != [] || ThinkingParts(content) != [] <==> Speaking(content)
    decreases |content|
  {
    if content != [] {
      PartsSpeak(content[..|content| - 1]);
      SpeaksSnoc(content);
    }
  }

  lemma {:induction false} ContentCalls(r: Reader, file: string, at: nat, ts: int, content: seq<Block>, k: Key)
    ensures LastOf(ContentBatch(r, file, at, ts, content).calls, k)
         == if k.file == file && k.n == at then CallOf(r, CallAt(Assistant(ts, content), at, k.call, AnyCall())) else None
    decreases |content|
  {
    if content != [] {
      var front, b := content[..|content| - 1], content[|content| - 1];
      ContentCalls(r, file, at, ts, front, k);
      LastOfAppend(ContentBatch(r, file, at, ts, front).calls, BlockBatch(r, file, at, ts, b).calls, k);
      if b.ToolCall? {
        LastOfOne(Key(file, b.callId, at), CallRow(ToolName(b.name), b.name, ts, b.args, r.tokens(b.args)), k);
      }
    }
  }

  lemma {:induction false} ContentStubs(r: Reader, file: string, at: nat, ts: int, content: seq<Block>, k: Key)
    ensures LastOf(ContentBatch(r, file, at, ts, content).stubs, k)
         == if k.file == file && k.n == 0 then Stubbed(r, CallAt(Assistant(ts, content), at, k.call, IsEdit())) else None
    decreases |content|
  {
    if content != [] {
      var front, b := content[..|content| - 1], content[|content| - 1];
      ContentStubs(r, file, at, ts, front, k);
      LastOfAppend(ContentBatch(r, file, at, ts, front).stubs, BlockBatch(r, file, at, ts, b).stubs, k);
      if b.ToolCall? {
        EditByName(b.name);
        LastOfOne(Key(file, b.callId, 0), Stub(at, ts, r.inputLength(b.input)), k);
      }
    }
  }

  lemma {:induction false} SectionRowsAre(file: string, id: string, at: nat, sections: seq<string>, k: Key)
    ensures LastOf(SectionRows(file, id, at, sections), k)
         == if k.file == file && k.call == id && k.n < |sections| then Some(SectionRow(at, sections[k.n], PARSER_VERSION)) else None
    decreases |sections|
  {
    if sections != [] {
      var front, all := sections[..|sections| - 1], SectionRows(file, id, at, sections);
      SectionRowsAre(file, id, at, front, k);
      assert all[..|all| - 1] == SectionRows(file, id, at, front);
    }
  }

  lemma BlockSections(r: Reader, file: string, at: nat, ts: int, b: Block, k: Key)
    ensures LastOf(BlockBatch(r, file, at, ts, b).sections, k)
         == if k.file == file && b.ToolCall? && b.callId == k.call && HasSection(r, k.n)(b)
            then SectionOf(r, Some(Found(at, ts, b)), k.n) else None
  {
    if b.ToolCall? {
      EditByName(b.name);
      SectionRowsAre(file, b.callId, at, r.sections(b.input), k);
    }
  }

  lemma {:induction false} ContentSections(r: Reader, file: string, at: nat, ts: int, content: seq<Block>, k: Key)
    ensures LastOf(ContentBatch(r, file, at, ts, content).sections, k)
         == if k.file == file then SectionOf(r, CallAt(Assistant(ts, content), at, k.call, HasSection(r, k.n)), k.n) else None
    decreases |content|
  {
    if content != [] {
      var front, b := content[..|content| - 1], content[|content| - 1];
      ContentSections(r, file, at, ts, front, k);
      LastOfAppend(ContentBatch(r, file, at, ts, front).sections, BlockBatch(r, file, at, ts, b).sections, k);
      BlockSections(r, file, at, ts, b, k);
    }
  }

  lemma LineUsers(r: Reader, file: string, at: nat, ev: Event, k: Key)
    ensures LastOf(Ingest(r, file, at, ev).users, k) == if k == Key(file, "", at) then UserOf(r, ev) else None
  {
    match ev
    case Assistant(ts, content) => ContentIsCalls(r, file, at, ts, content);
    case User(ts, text) => LastOfOne(Key(file, "", at), UserRow(ts, text, r.tokens(text)), k);
    case _ =>
  }

  lemma LineResults(r: Reader, file: string, at: nat, ev: Event, k: Key)
    ensures LastOf(Ingest(r, file, at, ev).results, k)
         == if k.file == file && k.n == at then ResultOf(r, ev, k.call) else None
  {
    match ev
    case Assistant(ts, content) => ContentIsCalls(r, file, at, ts, content);
    case ToolResult(ts, id, name, text, isError) =>
      LastOfOne(Key(file, id, at), ResultRow(ToolName(name), name, ts, text, r.tokens(text), isError), k);
    case _ =>
  }

  lemma LineMessages(r: Reader, file: string, at: nat, ev: Event, k: Key)
    ensures LastOf(Ingest(r, file, at, ev).assistants, k) == if k == Key(file, "", at) then MessageOf(r, ev) else None
  {
    match ev
    case Assistant(ts, content) =>
      ContentIsCalls(r, file, at, ts, content);
      PartsSpeak(content);
      var text, thinking := Blob(TextParts(content)), Blob(ThinkingParts(content));
      LastOfOne(Key(file, "", at), AssistantRow(ts, text, thinking, BlobTokens(r, text), BlobTokens(r, thinking)), k);
      LastOfAppend(ContentBatch(r, file, at, ts, content).assistants, MessageBatch(r, file, at, ts, content).assistants, k);
    case _ =>
  }

  lemma LineOutcomes(r: Reader, file: string, at: nat, ev: Event, k: Key)
    ensures LastOf(Ingest(r, file, at, ev).outcomes, k)
         == if k.file == file && k.n == 0 then OutcomeAt(r, ev, k.call) else None
  {
    match ev
    case Assistant(ts, content) => ContentIsCalls(r, file, at, ts, content);
    case ToolResult(ts, id, name, text, isError) =>
      EditByName(name);
      LastOfOne(Key(file, id, 0), Outcome(r.successful(text), if r.successful(text) then r.warnings(text) else []), k);
    case _ =>
  }

  lemma LineCalls(r: Reader, file: string, at: nat, ev: Event, k: Key)
    ensures LastOf(Ingest(r, file, at, ev).calls, k)
         == if k.file == file && k.n == at then CallOf(r, CallAt(ev, at, k.call, AnyCall())) else None
  {
    if ev.Assistant? {
      ContentCalls(r, file, at, ev.ts, ev.content, k);
      PlusNoCalls(ContentBatch(r, file, at, ev.ts, ev.content), MessageBatch(r, file, at, ev.ts, ev.content));
    }
  }

  lemma PlusNoCalls(a: Batch, b: Batch)
    requires b.calls == [] && b.stubs == [] && b.sections == []
    ensures Plus(a, b).calls == a.calls && Plus(a, b).stubs == a.stubs && Plus(a, b).sections == a.sections
  {
  }

  lemma LineStubs(r: Reader, file: string, at: nat, ev: Event, k: Key)
    ensures LastOf(Ingest(r, file, at, ev).stubs, k)
         == if k.file == file && k.n == 0 then Stubbed(r, CallAt(ev, at, k.call, IsEdit())) else None
  {
    if ev.Assistant? {
      ContentStubs(r, file, at, ev.ts, ev.content, k);
      PlusNoCalls(ContentBatch(r, file, at, ev.ts, ev.content), MessageBatch(r, file, at, ev.ts, ev.content));
    }
  }

  lemma LineSections(r: Reader, file: string, at: nat, ev: Event, k: Key)
    ensures LastOf(Ingest(r, file, at, ev).sections, k)
         == if k.file == file then SectionOf(r, CallAt(ev, at, k.call, HasSection(r, k.n)), k.n) else None
  {
    if ev.Assistant? {
      ContentSections(r, file, at, ev.ts, ev.content, k);
      PlusNoCalls(ContentBatch(r, file, at, ev.ts, ev.content), MessageBatch(r, file, at, ev.ts, ev.content));
    }
  }

  // ---------- All lines ----------

  /** The rows of the lines before the last, and those of the last. */
  lemma BatchLast(r: Reader, file: string, lines: seq<seq<byte>>)
    requires lines != []
    ensures
      var at := |lines| - 1;
      BatchOf(r, file, lines, 0) == Plus(BatchOf(r, file, lines[..at], 0), Ingest(r, file, at, r.decode(lines[at])))
  {
    var at := |lines| - 1;
    BatchSnoc(r, file, lines[..at], lines[at], 0, at);
    assert lines == lines[..at] + [lines[at]];
  }

  /** The rows of a table kept by line number, given what each line contributes. */
  lemma {:induction false} UsersOfLines(r: Reader, file: string, lines: seq<seq<byte>>, k: Key)
    ensures LastOf(BatchOf(r, file, lines, 0).users, k)
         == if k.file == file && k.call == "" && k.n < |lines| then UserOf(r, r.decode(lines[k.n])) else None
    decreases |lines|
  {
    if lines != [] {
      var at := |lines| - 1;
      UsersOfLines(r, file, lines[..at], k);
      BatchLast(r, file, lines);
      LineUsers(r, file, at, r.decode(lines[at]), k);
      LastOfAppend(BatchOf(r, file, lines[..at], 0).users, Ingest(r, file, at, r.decode(lines[at])).users, k);
    }
  }

  lemma {:induction false} MessagesOfLines(r: Reader, file: string, lines: seq<seq<byte>>, k: Key)
    ensures LastOf(BatchOf(r, file, lines, 0).assistants, k)
         == if k.file == file && k.call == "" && k.n < |lines| then MessageOf(r, r.decode(lines[k.n])) else None
    decreases |lines|
  {
    if lines != [] {
      var at := |lines| - 1;
      MessagesOfLines(r, file, lines[..at], k);
      BatchLast(r, file, lines);
      LineMessages(r, file, at, r.decode(lines[at]), k);
      LastOfAppend(BatchOf(r, file, lines[..at], 0).assistants, Ingest(r, file, at, r.decode(lines[at])).assistants, k);
    }
  }

  lemma {:induction false} ResultsOfLines(r: Reader, file: string, lines: seq<seq<byte>>, k: Key)
    ensures LastOf(BatchOf(r, file, lines, 0).results, k)
         == if k.file == file && k.n < |lines| then ResultOf(r, r.decode(lines[k.n]), k.call) else None
    decreases |lines|
  {
    if lines != [] {
      var at := |lines| - 1;
      ResultsOfLines(r, file, lines[..at], k);
      BatchLast(r, file, lines);
      LineResults(r, file, at, r.decode(lines[at]), k);
      LastOfAppend(BatchOf(r, file, lines[..at], 0).results, Ingest(r, file, at, r.decode(lines[at])).results, k);
    }
  }

  lemma {:induction false} CallsOfLines(r: Reader, file: string, lines: seq<seq<byte>>, k: Key)
    ensures LastOf(BatchOf(r, file, lines, 0).calls, k)
         == if k.file == file && k.n < |lines| then CallOf(r, CallAt(r.decode(lines[k.n]), k.n, k.call, AnyCall())) else None
    decreases |lines|
  {
    if lines != [] {
      var at := |lines| - 1;
      CallsOfLines(r, file, lines[..at], k);
      BatchLast(r, file, lines);
      LineCalls(r, file, at, r.decode(lines[at]), k);
      LastOfAppend(BatchOf(r, file, lines[..at], 0).calls, Ingest(r, file, at, r.decode(lines[at])).calls, k);
    }
  }

  lemma {:induction false} StubsOfLines(r: Reader, file: string, lines: seq<seq<byte>>, k: Key)
    ensures LastOf(BatchOf(r, file, lines, 0).stubs, k)
         == if k.file == file && k.n == 0 then Stubbed(r, LastCall(r, lines, k.call, IsEdit())) else None
    decreases |lines|
  {
    if lines != [] {
      var at := |lines| - 1;
      StubsOfLines(r, file, lines[..at], k);
      BatchLast(r, file, lines);
      LineStubs(r, file, at, r.decode(lines[at]), k);
      LastOfAppend(BatchOf(r, file, lines[..at], 0).stubs, Ingest(r, file, at, r.decode(lines[at])).stubs, k);
      FoundIsWanted(r.decode(lines[at]), at, k.call, IsEdit());
    }
  }

  lemma {:induction false} SectionsOfLines(r: Reader, file: string, lines: seq<seq<byte>>, k: Key)
    ensures LastOf(BatchOf(r, file, lines, 0).sections, k)
         == if k.file == file then SectionOf(r, LastCall(r, lines, k.call, HasSection(r, k.n)), k.n) else None
    decreases |lines|
  {
    if lines != [] {
      var at := |lines| - 1;
      SectionsOfLines(r, file, lines[..at], k);
      BatchLast(r, file, lines);
      LineSections(r, file, at, r.decode(lines[at]), k);
      LastOfAppend(BatchOf(r, file, lines[..at], 0).sections, Ingest(r, file, at, r.decode(lines[at])).sections, k);
      FoundIsWanted(r.decode(lines[at]), at, k.call, HasSection(r, k.n));
    }
  }

  lemma {:induction false} OutcomesOfLines(r: Reader, file: string, lines: seq<seq<byte>>, k: Key)
    ensures LastOf(BatchOf(r, file, lines, 0).outcomes, k)
         == if k.file == file && k.n == 0 then LastOutcome(r, lines, k.call) else None
    decreases |lines|
  {
    if lines != [] {
      var at := |lines| - 1;
      OutcomesOfLines(r, file, lines[..at], k);
      BatchLast(r, file, lines);
      LineOutcomes(r, file, at, r.decode(lines[at]), k);
      LastOfAppend(BatchOf(r, file, lines[..at], 0).outcomes, Ingest(r, file, at, r.decode(lines[at])).outcomes, k);
    }
  }

  /** A call found is one of the blocks: a tool call of that id, accepted. */
  lemma FoundIsWanted(ev: Event, line: nat, id: string, wants: Block -> bool)
    ensures
      var found := CallAt(ev, line, id, wants);
      found.Some? ==> found.value.block.ToolCall? && wants(found.value.block)
  {
    if ev.Assistant? {
      LastCallExactly(ev.content, id, wants);
    }
  }

  /** The last accepted tool call of an id: no later block is one, and there is
      none exactly when no block is one. */
  lemma {:induction false} LastCallExactly(content: seq<Block>, id: string, wants: Block -> bool)
    ensures
      match LastCallIn(content, id, wants)
      case None => forall j :: 0 <= j < |content| ==> !CallWanted(content[j], id, wants)
      case Some(b) =>
        exists j :: 0 <= j < |content| && content[j] == b && CallWanted(b, id, wants)
                 && forall later :: j < later < |content| ==> !CallWanted(content[later], id, wants)
    decreases |content|
  {
    if content != [] {
      var n := |content| - 1;
      LastCallExactly(content[..n], id, wants);
      if CallWanted(content[n], id, wants) {
        assert content[n] == content[n];
      } else if LastCallIn(content[..n], id, wants).Some? {
        var b := LastCallIn(content, id, wants).value;
        var j :| 0 <= j < n && content[..n][j] == b && CallWanted(b, id, wants)
              && forall later :: j < later < n ==> !CallWanted(content[..n][later], id, wants);
        assert content[j] == b;
        assert forall later :: j < later < n ==> content[..n][later] == content[later];
      }
    }
  }

  predicate CallWanted(b: Block, id: string, wants: Block -> bool) {
    b.ToolCall? && b.callId == id && wants(b)
  }

  /** Line `i` of the log is such a call, in block `j` of its message. */
  predicate CalledAt(r: Reader, lines: seq<seq<byte>>, id: string, wants: Block -> bool, i: nat, j: nat) {
    && i < |lines| && r.decode(lines[i]).Assistant?
    && var content := r.decode(lines[i]).content;
       j < |content| && CallWanted(content[j], id, wants)
  }

  ghost predicate CalledIn(r: Reader, lines: seq<seq<byte>>, id: string, wants: Block -> bool, i: nat) {
    exists j :: CalledAt(r, lines, id, wants, i, j)
  }

  lemma CalledLine(r: Reader, lines: seq<seq<byte>>, id: string, wants: Block -> bool, i: nat)
    requires i < |lines|
    ensures CallAt(r.decode(lines[i]), i, id, wants).Some? <==> CalledIn(r, lines, id, wants, i)
  {
    var ev := r.decode(lines[i]);
    if ev.Assistant? {
      LastCallExactly(ev.content, id, wants);
      if CallAt(ev, i, id, wants).Some? {
        var b := CallAt(ev, i, id, wants).value.block;
        var j :| 0 <= j < |ev.content| && ev.content[j] == b && CallWanted(b, id, wants);
        assert CalledAt(r, lines, id, wants, i, j);
      }
    }
  }

  /** The call found last: it is the one its line ends with, no later line has
      one, and none is found exactly when no line has one. */
  lemma {:induction false} LastCallOfLog(r: Reader, lines: seq<seq<byte>>, id: string, wants: Block -> bool)
    ensures
      match LastCall(r, lines, id, wants)
      case None => forall i :: 0 <= i < |lines| ==> !CalledIn(r, lines, id, wants, i)
      case Some(f) =>
        && f.line < |lines| && Some(f) == CallAt(r.decode(lines[f.line]), f.line, id, wants)
        && CalledIn(r, lines, id, wants, f.line)
        && forall i :: f.line < i < |lines| ==> !CalledIn(r, lines, id, wants, i)
    decreases |lines|
  {
    if lines != [] {
      var at := |lines| - 1;
      LastCallOfLog(r, lines[..at], id, wants);
      CalledLine(r, lines, id, wants, at);
      forall i | 0 <= i < at ensures CalledIn(r, lines[..at], id, wants, i) <==> CalledIn(r, lines, id, wants, i) {
        CalledLine(r, lines[..at], id, wants, i);
        CalledLine(r, lines, id, wants, i);
      }
    }
  }

  predicate AnsweredIn(r: Reader, lines: seq<seq<byte>>, id: string, i: nat) {
    && i < |lines| && r.decode(lines[i]).ToolResult?
    && r.decode(lines[i]).callId == id && r.decode(lines[i]).name == "edit"
  }

  /** Line `i` is the last that answers an edit of this id. */
  ghost predicate LastAnsweredIn(r: Reader, lines: seq<seq<byte>>, id: string, i: nat) {
    AnsweredIn(r, lines, id, i) && forall later :: i < later < |lines| ==> !AnsweredIn(r, lines, id, later)
  }

  lemma AnsweredLine(r: Reader, lines: seq<seq<byte>>, id: string, i: nat)
    requires i < |lines|
    ensures OutcomeAt(r, r.decode(lines[i]), id).Some? <==> AnsweredIn(r, lines, id, i)
  {
  }

  lemma AnsweredBefore(r: Reader, lines: seq<seq<byte>>, id: string, i: nat)
    requires lines != [] && !AnsweredIn(r, lines, id, |lines| - 1)
    ensures LastAnsweredIn(r, lines[..|lines| - 1], id, i) ==> LastAnsweredIn(r, lines, id, i)
  {
    var front := lines[..|lines| - 1];
    assert forall k: nat :: k < |front| ==> (AnsweredIn(r, front, id, k) <==> AnsweredIn(r, lines, id, k));
  }

  lemma {:induction false} LastOutcomeOfLog(r: Reader, lines: seq<seq<byte>>, id: string)
    ensures
      match LastOutcome(r, lines, id)
      case None => forall i :: 0 <= i < |lines| ==> !AnsweredIn(r, lines, id, i)
      case Some(o) => exists i: nat :: LastAnsweredIn(r, lines, id, i) && OutcomeAt(r, r.decode(lines[i]), id) == Some(o)
    decreases |lines|
  {
    if lines != [] {
      var at := |lines| - 1;
      var front := lines[..at];
      LastOutcomeOfLog(r, front, id);
      AnsweredLine(r, lines, id, at);
      if OutcomeAt(r, r.decode(lines[at]), id).Some? {
        assert LastAnsweredIn(r, lines, id, at);
      } else if LastOutcome(r, front, id).Some? {
        var i: nat :| LastAnsweredIn(r, front, id, i) && OutcomeAt(r, r.decode(front[i]), id) == LastOutcome(r, front, id);
        AnsweredBefore(r, lines, id, i);
      } else {
        assert forall i: nat :: i < at ==> (AnsweredIn(r, front, id, i) <==> AnsweredIn(r, lines, id, i));
      }
    }
  }

  // ---------- What a rebuild holds ----------

  lemma EmptyWithout(file: string)
    ensures Without(EMPTY_TABLES, file) == EMPTY_TABLES
  {
    assert DeleteFile<CallRow>(map[], file) == map[] && DeleteFile<ResultRow>(map[], file) == map[];
    assert DeleteFile<AssistantRow>(map[], file) == map[] && DeleteFile<UserRow>(map[], file) == map[];
    assert DeleteFile<EditRow>(map[], file) == map[] && DeleteFile<SectionRow>(map[], file) == map[];
  }

  lemma RebuiltFrom(r: Reader, file: string, content: seq<byte>, stat: Stat, now: int)
    requires Parses(r, SplitLines(content))
    ensures
      var rebuilt := Rebuild(r, file, content, stat, now);
      rebuilt.Some? && rebuilt.value.tables == Insert(EMPTY_TABLES, BatchOf(r, file, SplitLines(content), 0))
  {
    assert Tail(content, 0) == content;
    EmptyWithout(file);
  }

  /** Every row of a rebuilt log, by its key: user and assistant messages by the
      number of their line, calls and results by line and call id. */
  lemma RebuiltMessages(r: Reader, file: string, content: seq<byte>, stat: Stat, now: int, k: Key)
    requires Parses(r, SplitLines(content))
    ensures Rebuild(r, file, content, stat, now).Some?
    ensures
      var lines, t := SplitLines(content), Rebuild(r, file, content, stat, now).value.tables;
      if k.file == file && k.n < |lines| then
        var ev := r.decode(lines[k.n]);
        && Get(t.users, k) == (if k.call == "" then UserOf(r, ev) else None)
        && Get(t.assistants, k) == (if k.call == "" then MessageOf(r, ev) else None)
        && Get(t.results, k) == ResultOf(r, ev, k.call)
        && Get(t.calls, k) == CallOf(r, CallAt(ev, k.n, k.call, AnyCall()))
      else k !in t.users && k !in t.assistants && k !in t.results && k !in t.calls
  {
    var b := BatchOf(r, file, SplitLines(content), 0);
    RebuiltFrom(r, file, content, stat, now);
    ReplaceKeepsLast(b.users, k);
    ReplaceKeepsLast(b.assistants, k);
    ReplaceKeepsLast(b.results, k);
    ReplaceKeepsLast(b.calls, k);
    UsersOfLines(r, file, SplitLines(content), k);
    MessagesOfLines(r, file, SplitLines(content), k);
    ResultsOfLines(r, file, SplitLines(content), k);
    CallsOfLines(r, file, SplitLines(content), k);
  }

  /** ... and edits and their sections by call id alone: an edit pairs its last
      call with its last result, a section is that of the last call that has it. */
  lemma RebuiltEdits(r: Reader, file: string, content: seq<byte>, stat: Stat, now: int, k: Key)
    requires Parses(r, SplitLines(content))
    ensures Rebuild(r, file, content, stat, now).Some?
    ensures
      var lines, t := SplitLines(content), Rebuild(r, file, content, stat, now).value.tables;
      && Get(t.edits, k) == (if k.file == file && k.n == 0
                             then EditRowOf(Stubbed(r, LastCall(r, lines, k.call, IsEdit())), LastOutcome(r, lines, k.call))
                             else None)
      && Get(t.sections, k) == (if k.file == file then SectionOf(r, LastCall(r, lines, k.call, HasSection(r, k.n)), k.n) else None)
  {
    var b := BatchOf(r, file, SplitLines(content), 0);
    RebuiltFrom(r, file, content, stat, now);
    EditRowMeaning(b.stubs, b.outcomes, k);
    ReplaceKeepsLast(b.sections, k);
    StubsOfLines(r, file, SplitLines(content), k);
    OutcomesOfLines(r, file, SplitLines(content), k);
    SectionsOfLines(r, file, SplitLines(content), k);
  }

  /** Which rows there are, told by the lines and blocks of the log. */
  lemma RebuiltKeys(r: Reader, file: string, content: seq<byte>, stat: Stat, now: int, id: string, i: nat)
    requires Parses(r, SplitLines(content)) && i < |SplitLines(content)|
    ensures Rebuild(r, file, content, stat, now).Some?
    ensures
      var lines, t := SplitLines(content), Rebuild(r, file, content, stat, now).value.tables;
      var ev := r.decode(lines[i]);
      && (Key(file, "", i) in t.users <==> ev.User? && ev.text != "")
      && (Key(file, "", i) in t.assistants <==> ev.Assistant? && Speaking(ev.content))
      && (Key(file, id, i) in t.results <==> ev.ToolResult? && ev.callId == id)
      && (Key(file, id, i) in t.calls <==> CalledIn(r, lines, id, AnyCall(), i))
  {
    RebuiltMessages(r, file, content, stat, now, Key(file, "", i));
    RebuiltMessages(r, file, content, stat, now, Key(file, id, i));
    CalledLine(r, SplitLines(content), id, AnyCall(), i);
    FoundIsWanted(r.decode(SplitLines(content)[i]), i, id, AnyCall());
  }

  lemma RebuiltEditKeys(r: Reader, file: string, content: seq<byte>, stat: Stat, now: int, id: string, idx: nat)
    requires Parses(r, SplitLines(content))
    ensures Rebuild(r, file, content, stat, now).Some?
    ensures
      var lines, t := SplitLines(content), Rebuild(r, file, content, stat, now).value.tables;
      && (Key(file, id, 0) in t.edits <==>
            exists i :: 0 <= i < |lines| && (CalledIn(r, lines, id, IsEdit(), i) || AnsweredIn(r, lines, id, i)))
      && (Key(file, id, idx) in t.sections <==>
            exists i :: 0 <= i < |lines| && CalledIn(r, lines, id, HasSection(r, idx), i))
  {
    var lines := SplitLines(content);
    RebuiltEdits(r, file, content, stat, now, Key(file, id, 0));
    RebuiltEdits(r, file, content, stat, now, Key(file, id, idx));
    LastCallOfLog(r, lines, id, IsEdit());
    LastCallOfLog(r, lines, id, HasSection(r, idx));
    LastOutcomeOfLog(r, lines, id);
    EditsFound(r, lines, id, IsEdit());
    EditsFound(r, lines, id, HasSection(r, idx));
  }

  lemma EditsFound(r: Reader, lines: seq<seq<byte>>, id: string, wants: Block -> bool)
    ensures
      var found := LastCall(r, lines, id, wants);
      found.Some? ==> found.value.block.ToolCall? && wants(found.value.block)
  {
    LastCallOfLog(r, lines, id, wants);
    if LastCall(r, lines, id, wants).Some? {
      var f := LastCall(r, lines, id, wants).value;
      FoundIsWanted(r.decode(lines[f.line]), f.line, id, wants);
    }
  }

  function MetaOf(ev: Event): Meta {
    match ev
    case Session(ts, uuid, version, title, cwd) => Meta(uuid, version, title, cwd, if ts == 0 then None else Some(ts))
    case _ => NO_META
  }

  /** The session row of a rebuilt log: metadata of its first line, and how far it
      was read. */
  lemma RebuiltSession(r: Reader, file: string, content: seq<byte>, stat: Stat, now: int)
    requires Parses(r, SplitLines(content))
    ensures
      var rebuilt, lines := Rebuild(r, file, content, stat, now), SplitLines(content);
      && rebuilt.Some? && file in rebuilt.value.sessions
      && rebuilt.value.sessions[file]
         == SessionRow(if lines == [] then NO_META else MetaOf(r.decode(lines[0])), stat, |content|, |lines|, now, PARSER_VERSION)
  {
    assert Tail(content, 0) == content;
    MetaOfLines(r, file, SplitLines(content));
    CoalesceNothing(BatchOf(r, file, SplitLines(content), 0).meta);
  }

  lemma {:induction false} MetaOfLines(r: Reader, file: string, lines: seq<seq<byte>>)
    ensures BatchOf(r, file, lines, 0).meta == if lines == [] then NO_META else MetaOf(r.decode(lines[0]))
    decreases |lines|
  {
    if lines != [] {
      var at := |lines| - 1;
      MetaOfLines(r, file, lines[..at]);
      BatchLast(r, file, lines);
      if at > 0 {
        IngestMeta(r, file, at, r.decode(lines[at]));
      } else if r.decode(lines[0]).Assistant? {
        ContentHasNoMeta(r, file, 0, r.decode(lines[0]).ts, r.decode(lines[0]).content);
      }
    }
  }

  // ---------- The texts of a message ----------

  /** The parts of a message are its non-empty texts, and nothing else. */
  lemma {:induction false} PartsAre(content: seq<Block>, part: string)
    ensures part in TextParts(content) <==> part != "" && exists b :: b in content && b.Text? && b.text == part
    ensures part in ThinkingParts(content) <==> part != "" && exists b :: b in content && b.Thinking? && b.thinking == part
    decreases |content|
  {
    if content != [] {
      var front, last := content[..|content| - 1], content[|content| - 1];
      PartsAre(front, part);
      assert content == front + [last];
    }
  }

  /** ... put together with a line end before each but the first. */
  lemma {:induction false} JoinedLast(parts: seq<string>, last: string)
    requires parts != []
    ensures JoinLines(parts + [last]) == JoinLines(parts) + "\n" + last
    decreases |parts|
  {
    if |parts| == 1 {
      assert (parts + [last])[1..] == [last];
    } else {
      assert (parts + [last])[1..] == parts[1..] + [last];
      JoinedLast(parts[1..], last);
      assert parts[0] + "\n" + (JoinLines(parts[1..]) + "\n" + last) == parts[0] + "\n" + JoinLines(parts[1..]) + "\n" + last;
    }
  }
}
