/** The parser and the writer as they run: records gathered line by line, and
    tables updated statement by statement, each proved against the functions
    of SessionSync. */
module SessionIngest {
  import opened Options
  import opened LogLines
  import opened KeyedTables
  import opened SessionSync

  class SessionRecords {
    var toolCalls: Rows<CallRow>
    var toolResults: Rows<ResultRow>
    var assistantMsgs: Rows<AssistantRow>
    var userMsgs: Rows<UserRow>
    var editCalls: Rows<Stub>
    var editCallResults: Rows<Outcome>
    var editSections: Rows<SectionRow>
    var sessionMeta: Meta
    const file: string
    const fullRebuild: bool
    const stat: Stat
    var finalOffset: nat
    var finalLineCount: nat

    constructor (file: string, fullRebuild: bool, stat: Stat)
      ensures this.file == file && this.fullRebuild == fullRebuild && this.stat == stat
      ensures Gathered() == EMPTY_BATCH
    {
      this.file, this.fullRebuild, this.stat := file, fullRebuild, stat;
      toolCalls, toolResults, assistantMsgs, userMsgs := [], [], [], [];
      editCalls, editCallResults, editSections := [], [], [];
      sessionMeta, finalOffset, finalLineCount := NO_META, 0, 0;
    }

    ghost function Gathered(): Batch
      reads this
    {
      Batch(toolCalls, toolResults, assistantMsgs, userMsgs, editCalls, editCallResults, editSections, sessionMeta)
    }

    ghost function Contents(): Records
      reads this
    {
      Records(file, fullRebuild, Gathered(), stat, finalOffset, finalLineCount)
    }

    method IngestEditCall(r: Reader, seqNo: nat, ts: int, callId: string, input: string)
      modifies this`editCalls, this`editSections
      ensures editCalls == old(editCalls) + [(Key(file, callId, 0), Stub(seqNo, ts, r.inputLength(input)))]
      ensures editSections == old(editSections) + SectionRows(file, callId, seqNo, r.sections(input))
    {
      editCalls := editCalls + [(Key(file, callId, 0), Stub(seqNo, ts, r.inputLength(input)))];
      var sections := r.sections(input);
      ghost var all := SectionRows(file, callId, seqNo, sections);
      for idx := 0 to |sections|
        invariant editSections == old(editSections) + all[..idx]
        invariant editCalls == old(editCalls) + [(Key(file, callId, 0), Stub(seqNo, ts, r.inputLength(input)))]
      {
        editSections := editSections + [(Key(file, callId, idx), SectionRow(seqNo, sections[idx], PARSER_VERSION))];
        assert all[..idx + 1] == all[..idx] + [all[idx]];
      }
      assert all[..|sections|] == all;
    }

    method IngestBlock(r: Reader, seqNo: nat, ts: int, b: Block)
      modifies this`toolCalls, this`editCalls, this`editSections
      ensures Gathered() == Plus(old(Gathered()), BlockBatch(r, file, seqNo, ts, b))
    {
      if b.ToolCall? {
        var tool := ToolName(b.name);
        toolCalls := toolCalls + [(Key(file, b.callId, seqNo), CallRow(tool, b.name, ts, b.args, r.tokens(b.args)))];
        if tool == "edit" {
          IngestEditCall(r, seqNo, ts, b.callId, b.input);
        }
      }
    }

    method IngestContent(r: Reader, seqNo: nat, ts: int, content: seq<Block>)
      returns (textParts: seq<string>, thinkingParts: seq<string>)
      modifies this`toolCalls, this`editCalls, this`editSections
      ensures Gathered() == Plus(old(Gathered()), ContentBatch(r, file, seqNo, ts, content))
      ensures textParts == TextParts(content) && thinkingParts == ThinkingParts(content)
    {
      textParts, thinkingParts := [], [];
      ghost var before, sum := Gathered(), EMPTY_BATCH;
      PlusUnit(before);
      for i := 0 to |content|
        invariant sum == ContentBatch(r, file, seqNo, ts, content[..i])
        invariant Gathered() == Plus(before, sum)
        invariant textParts == TextParts(content[..i]) && thinkingParts == ThinkingParts(content[..i])
      {
        var b := content[i];
        assert content[..i + 1][..i] == content[..i];
        IngestBlock(r, seqNo, ts, b);
        PlusAssociative(before, sum, BlockBatch(r, file, seqNo, ts, b));
        sum := Plus(sum, BlockBatch(r, file, seqNo, ts, b));
        if b.Thinking? && b.thinking != "" {
          thinkingParts := thinkingParts + [b.thinking];
        } else if b.Text? && b.text != "" {
          textParts := textParts + [b.text];
        }
      }
      assert content[..|content|] == content;
    }

    method IngestAssistant(r: Reader, seqNo: nat, ts: int, content: seq<Block>)
      modifies this`toolCalls, this`editCalls, this`editSections, this`assistantMsgs
      ensures Gathered() == Plus(Plus(old(Gathered()), ContentBatch(r, file, seqNo, ts, content)),
                                 MessageBatch(r, file, seqNo, ts, content))
    {
      var textParts, thinkingParts := IngestContent(r, seqNo, ts, content);
      var text, thinking := Blob(textParts), Blob(thinkingParts);
      ghost var gathered := Gathered();
      PlusUnit(gathered);
      if text.Some? || thinking.Some? {
        var row := AssistantRow(ts, text, thinking, BlobTokens(r, text), BlobTokens(r, thinking));
        PlusMessages(gathered, [(Key(file, "", seqNo), row)]);
        assistantMsgs := assistantMsgs + [(Key(file, "", seqNo), row)];
      }
    }

    method IngestToolResult(r: Reader, seqNo: nat, ts: int, callId: string, name: string, text: string, isError: bool)
      modifies this`toolResults, this`editCallResults
      ensures Gathered() == Plus(old(Gathered()), ResultBatch(r, file, seqNo, ts, callId, name, text, isError))
    {
      var tool := ToolName(name);
      toolResults := toolResults + [(Key(file, callId, seqNo), ResultRow(tool, name, ts, text, r.tokens(text), isError))];
      if tool == "edit" {
        var success := r.successful(text);
        var warnings := if success then r.warnings(text) else [];
        editCallResults := editCallResults + [(Key(file, callId, 0), Outcome(success, warnings))];
      }
    }

    /** One line of the log that does not raise. `sessionMeta` is overwritten,
        as only the first line can set it. */
    method IngestLine(r: Reader, seqNo: nat, ev: Event)
      requires seqNo == 0 ==> sessionMeta == NO_META
      modifies this
      ensures Gathered() == Plus(old(Gathered()), Ingest(r, file, seqNo, ev))
      ensures finalOffset == old(finalOffset) && finalLineCount == old(finalLineCount)
    {
      PlusUnit(Gathered());
      match ev
      case Session(ts, uuid, version, title, cwd) =>
        if seqNo == 0 {
          sessionMeta := Meta(uuid, version, title, cwd, if ts == 0 then None else Some(ts));
        }
      case Assistant(ts, content) =>
        IngestAssistant(r, seqNo, ts, content);
        PlusAssociative(old(Gathered()), ContentBatch(r, file, seqNo, ts, content), MessageBatch(r, file, seqNo, ts, content));
      case ToolResult(ts, callId, name, text, isError) =>
        IngestToolResult(r, seqNo, ts, callId, name, text, isError);
      case User(ts, text) =>
        if text != "" {
          PlusUsers(Gathered(), [(Key(file, "", seqNo), UserRow(ts, text, r.tokens(text)))]);
          userMsgs := userMsgs + [(Key(file, "", seqNo), UserRow(ts, text, r.tokens(text)))];
        }
      case _ =>
    }
  }

  /** The loop over the lines of a log; false when a line raises. */
  method ParseLines(r: Reader, records: SessionRecords, text: seq<byte>, startingSeq: nat)
    returns (ok: bool, offset: nat, count: nat)
    requires records.Gathered() == EMPTY_BATCH
    modifies records
    ensures ok <==> Parses(r, SplitLines(text))
    ensures ok ==> offset == |text| && count == |SplitLines(text)|
    ensures ok ==> records.Gathered() == BatchOf(r, records.file, SplitLines(text), startingSeq)
  {
    var rest, file := text, records.file;
    ok, offset, count := true, 0, 0;
    ghost var front: seq<seq<byte>> := [];
    assert SplitLines(text) == front + SplitLines(rest);
    while rest != []
      invariant ok && count == |front| && SplitLines(text) == front + SplitLines(rest)
      invariant offset + |rest| == |text|
      invariant Parses(r, front)
      invariant records.Gathered() == BatchOf(r, file, front, startingSeq)
      decreases |rest|
    {
      var raw := rest[..LineLength(rest)];
      LineStep(r, front, raw, rest);
      offset := offset + |raw|;
      var ev := r.decode(raw);
      if ev.Raises? {
        return false, offset, count;
      }
      IngestNext(r, records, front, raw, startingSeq, startingSeq + count, ev);
      front := front + [raw];
      count := count + 1;
      rest := rest[|raw|..];
    }
    assert front + [] == front;
  }

  /** Reads the log from an offset to its end; null when a line raises. */
  method ParseFile(r: Reader, file: string, stat: Stat, content: seq<byte>, startingOffset: nat, startingSeq: nat, fullRebuild: bool)
    returns (rec: SessionRecords?)
    ensures rec == null <==> Parse(r, file, stat, content, startingOffset, startingSeq, fullRebuild).None?
    ensures rec != null ==>
      fresh(rec) && rec.Contents() == Parse(r, file, stat, content, startingOffset, startingSeq, fullRebuild).value
  {
    var records := new SessionRecords(file, fullRebuild, stat);
    var ok, read, count := ParseLines(r, records, Tail(content, startingOffset), startingSeq);
    if !ok {
      return null;
    }
    records.finalOffset, records.finalLineCount := startingOffset + read, startingSeq + count;
    rec := records;
  }

  method IngestNext(r: Reader, records: SessionRecords, ghost front: seq<seq<byte>>, ghost raw: seq<byte>,
                    ghost startingSeq: nat, seqNo: nat, ev: Event)
    requires ev == r.decode(raw) && seqNo == startingSeq + |front|
    requires records.Gathered() == BatchOf(r, records.file, front, startingSeq)
    modifies records
    ensures records.Gathered() == BatchOf(r, records.file, front + [raw], startingSeq)
  {
    BatchSnoc(r, records.file, front, raw, startingSeq, seqNo);
    records.IngestLine(r, seqNo, ev);
  }

  /** One turn of the loop: the next raw line is the next line of all. */
  lemma LineStep(r: Reader, front: seq<seq<byte>>, raw: seq<byte>, rest: seq<byte>)
    requires rest != [] && raw == rest[..LineLength(rest)]
    ensures front + SplitLines(rest) == front + [raw] + SplitLines(rest[|raw|..])
    ensures Parses(r, front) && !r.decode(raw).Raises? ==> Parses(r, front + [raw])
    ensures r.decode(raw).Raises? ==> !Parses(r, front + SplitLines(rest))
  {
    OneLineOver(front, raw, SplitLines(rest[|raw|..]));
    ParsesStep(r, front, raw, SplitLines(rest[|raw|..]));
  }

  lemma OneLineOver(front: seq<seq<byte>>, raw: seq<byte>, later: seq<seq<byte>>)
    ensures front + ([raw] + later) == front + [raw] + later
  {
  }

  lemma ParsesStep(r: Reader, front: seq<seq<byte>>, raw: seq<byte>, later: seq<seq<byte>>)
    ensures Parses(r, front) && !r.decode(raw).Raises? ==> Parses(r, front + [raw])
    ensures r.decode(raw).Raises? ==> !Parses(r, front + [raw] + later)
  {
    assert (front + [raw] + later)[|front|] == raw;
  }

  class StatsDatabase {
    var toolCalls: map<Key, CallRow>
    var toolResults: map<Key, ResultRow>
    var assistantMsgs: map<Key, AssistantRow>
    var userMsgs: map<Key, UserRow>
    var editCalls: map<Key, EditRow>
    var editSections: map<Key, SectionRow>
    var sessions: map<string, SessionRow>

    ghost function Contents(): Database
      reads this
    {
      Database(Tables(toolCalls, toolResults, assistantMsgs, userMsgs, editCalls, editSections), sessions)
    }

    /** Writes one record in one transaction. */
    method WriteRecords(rec: SessionRecords, now: int)
      modifies this
      ensures Contents() == Write(old(Contents()), rec.Contents(), now)
    {
      var file := rec.file;
      if rec.fullRebuild {
        toolCalls, toolResults := DeleteFile(toolCalls, file), DeleteFile(toolResults, file);
        assistantMsgs, userMsgs := DeleteFile(assistantMsgs, file), DeleteFile(userMsgs, file);
        editCalls, editSections := DeleteFile(editCalls, file), DeleteFile(editSections, file);
      }
      toolCalls := ExecuteMany(toolCalls, rec.toolCalls, Replace<CallRow>);
      toolResults := ExecuteMany(toolResults, rec.toolResults, Replace<ResultRow>);
      assistantMsgs := ExecuteMany(assistantMsgs, rec.assistantMsgs, Replace<AssistantRow>);
      userMsgs := ExecuteMany(userMsgs, rec.userMsgs, Replace<UserRow>);
      editCalls := ExecuteMany(editCalls, rec.editCalls, MergeStub);
      editCalls := ExecuteMany(editCalls, rec.editCallResults, MergeOutcome);
      editSections := ExecuteMany(editSections, rec.editSections, Replace<SectionRow>);
      var before := if file in sessions then sessions[file].meta else NO_META;
      sessions := sessions[file := SessionRow(
        Coalesce(rec.sessionMeta, before), rec.stat, rec.finalOffset, rec.finalLineCount, now, PARSER_VERSION)];
    }
  }
}
