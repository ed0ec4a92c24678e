/** What reads and writes of one log do to its rows: reading on from a line end,
    rebuilding, and where the two differ. */
module SyncRows {
  import opened Options
  import opened LogLines
  import opened KeyedTables
  import opened SessionSync

  // ---------- The reference: one full rebuild ----------

  const EMPTY_DATABASE := Database(EMPTY_TABLES, map[])

  /** The database after syncing a file with this content from nothing. */
  function Rebuild(r: Reader, file: string, content: seq<byte>, stat: Stat, now: int): Option<Database> {
    match Parse(r, file, stat, content, 0, 0, true)
    case None => None
    case Some(rec) => Some(Write(EMPTY_DATABASE, rec, now))
  }

  function AllRows(r: Reader, file: string, content: seq<byte>): Batch {
    BatchOf(r, file, SplitLines(content), 0)
  }

  /** A session row describes a prefix of the log that ended at a line end. */
  ghost predicate Describes(r: Reader, file: string, row: SessionRow, content: seq<byte>) {
    && row.offset <= |content|
    && row.stat.size <= row.offset
    && row.parser <= PARSER_VERSION
    && var prefix := content[..row.offset];
       && EndsAtLineEnd(prefix)
       && Parses(r, SplitLines(prefix))
       && row.lines == |SplitLines(prefix)|
       && row.meta == AllRows(r, file, prefix).meta
  }

  /** Two databases hold the same for a file, up to when it was looked at. */
  ghost predicate SameFor(file: string, a: Database, b: Database) {
    && View(a.tables, file) == View(b.tables, file)
    && file in a.sessions && file in b.sessions
    && var x, y := a.sessions[file], b.sessions[file];
       x.meta == y.meta && x.offset == y.offset && x.lines == y.lines && x.parser == y.parser
  }

  // ---------- Reading on ----------

  lemma PrefixStable(content: seq<byte>, bytes: seq<byte>, from: nat, to: nat)
    requires from <= to <= |content|
    ensures (content + bytes)[from..to] == content[from..to]
    ensures (content + bytes)[..to] == content[..to]
  {
  }

  lemma DescribesLonger(r: Reader, file: string, row: SessionRow, content: seq<byte>, bytes: seq<byte>)
    requires Describes(r, file, row, content)
    ensures Describes(r, file, row, content + bytes) && (content + bytes)[..row.offset] == content[..row.offset]
  {
    PrefixStable(content, bytes, 0, row.offset);
  }

  lemma CutAtOffset(content: seq<byte>, offset: nat, to: nat)
    requires offset <= to <= |content|
    ensures content[..to] == content[..offset] + content[offset..to]
  {
  }

  lemma TailSlice(content: seq<byte>, offset: nat)
    requires offset <= |content|
    ensures content[offset..|content|] == Tail(content, offset) && offset + |Tail(content, offset)| == |content|
    ensures content[..|content|] == content
  {
  }

  lemma ParsesAppend(r: Reader, a: seq<seq<byte>>, b: seq<seq<byte>>)
    requires Parses(r, a) && Parses(r, b)
    ensures Parses(r, a + b)
  {
  }

  lemma ParsesSuffix(r: Reader, a: seq<seq<byte>>, b: seq<seq<byte>>)
    requires Parses(r, a + b)
    ensures Parses(r, b)
  {
    forall i | 0 <= i < |b| ensures !r.decode(b[i]).Raises? {
      assert (a + b)[|a| + i] == b[i];
    }
  }

  lemma ParseOfRest(r: Reader, file: string, stat: Stat, content: seq<byte>, offset: nat, lines: nat, full: bool)
    requires offset <= |content|
    ensures content[..|content|] == content
    ensures
      var parsed := Parse(r, file, stat, content, offset, lines, full);
      var rest := SplitLines(content[offset..|content|]);
      parsed.Some? ==>
        && Parses(r, rest)
        && parsed.value == Records(file, full, BatchOf(r, file, rest, lines), stat, |content|, lines + |rest|)
  {
    TailSlice(content, offset);
  }

  lemma CoalesceNothing(m: Meta)
    ensures Coalesce(m, NO_META) == m
  {
  }

  lemma {:induction false} ContentHasNoMeta(r: Reader, file: string, seqNo: nat, ts: int, content: seq<Block>)
    ensures ContentBatch(r, file, seqNo, ts, content).meta == NO_META
    decreases |content|
  {
    if content != [] {
      ContentHasNoMeta(r, file, seqNo, ts, content[..|content| - 1]);
    }
  }

  lemma IngestMeta(r: Reader, file: string, seqNo: nat, ev: Event)
    requires seqNo > 0
    ensures Ingest(r, file, seqNo, ev).meta == NO_META
  {
    if ev.Assistant? {
      ContentHasNoMeta(r, file, seqNo, ev.ts, ev.content);
    }
  }

  /** The metadata of a log is settled by its first line. */
  lemma {:induction false} LaterLinesHaveNoMeta(r: Reader, file: string, lines: seq<seq<byte>>, seqNo: nat)
    requires seqNo > 0
    ensures BatchOf(r, file, lines, seqNo).meta == NO_META
    decreases |lines|
  {
    if lines != [] {
      LaterLinesHaveNoMeta(r, file, lines[..|lines| - 1], seqNo);
      IngestMeta(r, file, seqNo + |lines| - 1, r.decode(lines[|lines| - 1]));
    }
  }

  lemma MetaOfExtension(r: Reader, file: string, a: seq<seq<byte>>, b: seq<seq<byte>>)
    ensures
      var first, later := BatchOf(r, file, a, 0).meta, BatchOf(r, file, b, |a|).meta;
      Coalesce(Coalesce(later, first), first) == Coalesce(later, first)
  {
    if a != [] {
      LaterLinesHaveNoMeta(r, file, b, |a|);
    }
  }

  /** Reading on from a line end adds exactly the later lines. */
  lemma RowsOfExtension(r: Reader, file: string, prefix: seq<byte>, more: seq<byte>)
    requires EndsAtLineEnd(prefix)
    ensures SplitLines(prefix + more) == SplitLines(prefix) + SplitLines(more)
    ensures AllRows(r, file, prefix + more)
         == Plus(AllRows(r, file, prefix), BatchOf(r, file, SplitLines(more), |SplitLines(prefix)|))
    ensures Coalesce(AllRows(r, file, prefix + more).meta, AllRows(r, file, prefix).meta)
         == AllRows(r, file, prefix + more).meta
  {
    SplitAppend(prefix, more);
    BatchAppend(r, file, SplitLines(prefix), SplitLines(more), 0, |SplitLines(prefix)|);
    MetaOfExtension(r, file, SplitLines(prefix), SplitLines(more));
  }

  /** Metadata stored for a prefix never contradicts that of a longer one. */
  lemma MetaSurvives(r: Reader, file: string, row: SessionRow, content: seq<byte>, to: nat)
    requires Describes(r, file, row, content)
    requires row.offset <= to <= |content|
    ensures Coalesce(AllRows(r, file, content[..to]).meta, row.meta) == AllRows(r, file, content[..to]).meta
  {
    var prefix, more := content[..row.offset], content[row.offset..to];
    assert content[..to] == prefix + more;
    RowsOfExtension(r, file, prefix, more);
  }

  lemma RowsReadOn(r: Reader, file: string, before: seq<byte>, more: seq<byte>, all: seq<byte>, lines: nat, rows: Batch)
    requires all == before + more && EndsAtLineEnd(before) && lines == |SplitLines(before)|
    requires Parses(r, SplitLines(before)) && Parses(r, SplitLines(more)) && rows == BatchOf(r, file, SplitLines(more), lines)
    ensures BatchOfFile(rows, file) && Parses(r, SplitLines(all))
    ensures |SplitLines(all)| == lines + |SplitLines(more)|
    ensures Plus(AllRows(r, file, before), rows) == AllRows(r, file, all)
  {
    RowsOfExtension(r, file, before, more);
    ParsesAppend(r, SplitLines(before), SplitLines(more));
    BatchLocal(r, file, SplitLines(more), lines);
  }

  /** The rows of a stretch read on from where a session row stopped. */
  lemma ResumedRead(r: Reader, file: string, row: SessionRow, content: seq<byte>, to: nat, rows: Batch)
    requires Describes(r, file, row, content) && row.offset <= to <= |content|
    requires Parses(r, SplitLines(content[row.offset..to]))
    requires rows == BatchOf(r, file, SplitLines(content[row.offset..to]), row.lines)
    ensures BatchOfFile(rows, file) && Parses(r, SplitLines(content[..to]))
    ensures |SplitLines(content[..to])| == row.lines + |SplitLines(content[row.offset..to])|
    ensures Plus(AllRows(r, file, content[..row.offset]), rows) == AllRows(r, file, content[..to])
  {
    CutAtOffset(content, row.offset, to);
    RowsReadOn(r, file, content[..row.offset], content[row.offset..to], content[..to], row.lines, rows);
  }

  // ---------- What a write leaves ----------

  /** A rebuild stores the rows of what it read, whatever was there before. */
  lemma TablesAfterRebuild(db: Database, rec: Records, now: int, other: string)
    requires rec.full && BatchOfFile(rec.rows, rec.file)
    ensures View(Write(db, rec, now).tables, other)
         == if other == rec.file then Insert(EMPTY_TABLES, rec.rows) else View(db.tables, other)
  {
    InsertLocal(Without(db.tables, rec.file), rec.rows, rec.file);
    WithoutView(db.tables, rec.file, other);
  }

  /** A resumed sync leaves the rows one insertion of everything would leave. */
  lemma TablesAfterResume(db: Database, rec: Records, now: int, read: Batch, other: string)
    requires !rec.full && BatchOfFile(rec.rows, rec.file)
    requires View(db.tables, rec.file) == Insert(EMPTY_TABLES, read)
    ensures View(Write(db, rec, now).tables, other)
         == if other == rec.file then Insert(EMPTY_TABLES, Plus(read, rec.rows)) else View(db.tables, other)
  {
    InsertLocal(db.tables, rec.rows, rec.file);
    InsertPlus(EMPTY_TABLES, read, rec.rows);
  }

  // ---------- Where equality ends ----------

  /** A resumed sync counts the lines a rebuild would exactly when the earlier
      read stopped at a line end, or nothing was appended since. */
  lemma ResumedLineCount(r: Reader, file: string, stat: Stat, read: seq<byte>, more: seq<byte>)
    requires Parses(r, SplitLines(read)) && Parses(r, SplitLines(more)) && Parses(r, SplitLines(read + more))
    ensures
      var first := Parse(r, file, stat, read, 0, 0, true).value;
      var resumed := Parse(r, file, stat, read + more, first.offset, first.lines, false);
      var rebuilt := Parse(r, file, stat, read + more, 0, 0, true);
      && resumed.Some? && rebuilt.Some? && resumed.value.offset == rebuilt.value.offset
      && (resumed.value.lines == rebuilt.value.lines <==> EndsAtLineEnd(read) || more == [])
  {
    assert Tail(read, 0) == read && Tail(read + more, 0) == read + more;
    assert Tail(read + more, |read|) == more;
    LineCountAdditive(read, more);
  }

  /** Every metadata column the new log leaves empty was empty before. */
  predicate MetaCovers(new_: Meta, old_: Meta) {
    && (new_.uuid.Some? || old_.uuid.None?) && (new_.version.Some? || old_.version.None?)
    && (new_.title.Some? || old_.title.None?) && (new_.cwd.Some? || old_.cwd.None?)
    && (new_.startedAt.Some? || old_.startedAt.None?)
  }

  /** A full rebuild of any log, rewritten ones included, replaces all of its
      rows, but it forgets the old metadata only where the new log sets it:
      the session row is merged, not deleted. */
  lemma RebuildOfRewrittenLog(db: Database, rec: Records, now: int)
    requires rec.full && BatchOfFile(rec.rows, rec.file)
    ensures View(Write(db, rec, now).tables, rec.file) == View(Write(EMPTY_DATABASE, rec, now).tables, rec.file)
    ensures Write(db, rec, now).sessions[rec.file].meta == Write(EMPTY_DATABASE, rec, now).sessions[rec.file].meta
        <==> MetaCovers(rec.rows.meta, OldMeta(db, rec.file))
  {
    TablesAfterRebuild(db, rec, now, rec.file);
    TablesAfterRebuild(EMPTY_DATABASE, rec, now, rec.file);
    CoalesceNothing(rec.rows.meta);
  }

  /** A title that survives the rebuild of a log without one. */
  lemma StaleTitleExample()
    ensures
      var old_ := SessionRow(NO_META.(title := Some("draft")), Stat(1, 0), 1, 1, 0, PARSER_VERSION);
      var rec := Records("a.jsonl", true, EMPTY_BATCH, Stat(0, 1), 0, 0);
      && Write(Database(EMPTY_TABLES, map["a.jsonl" := old_]), rec, 0).sessions["a.jsonl"].meta.title == Some("draft")
      && Write(EMPTY_DATABASE, rec, 0).sessions["a.jsonl"].meta.title == None
  {
  }
}
