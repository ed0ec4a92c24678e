/** Syncs of append-only session logs as a state machine. Appends, decisions,
    stats, reads and writes of any number of files interleave freely, and every
    step keeps what is stored of a file in line with a prefix of it. */
module SyncMachine {
  import opened Options
  import opened LogLines
  import opened KeyedTables
  import opened SessionSync
  import opened SyncRows

  datatype File = File(content: seq<byte>, mtime: int)

  /** Where the sync of one file has got to. */
  datatype Job =
    | Decided(full: bool, offset: nat, lines: nat)
    | Statted(full: bool, offset: nat, lines: nat, stat: Stat)
    | Parsed(rec: Records)

  datatype World = World(files: map<string, File>, db: Database, jobs: map<string, Job>)

  datatype Step =
    | Append(file: string, bytes: seq<byte>, mtime: int)
    | Decide(file: string, force: bool)
    | StatFile(file: string)
    | ReadFile(file: string)
    | WriteFile(file: string, now: int)
    | Abandon(file: string)

  /** Skip (None), or the full-rebuild flag with the offset and line to start at. */
  function DecideAction(stat: Option<Stat>, prev: Option<SessionRow>, force: bool): Option<(bool, nat, nat)> {
    if stat.None? then None
    else if force || prev.None? then Some((true, 0, 0))
    else
      var now, before := stat.value, prev.value;
      if before.parser < PARSER_VERSION then Some((true, 0, 0))
      else if now.size == before.stat.size && now.mtime <= before.stat.mtime then None
      else if now.size < before.offset then Some((true, 0, 0))
      else if now.size == before.offset && now.mtime > before.stat.mtime then Some((true, 0, 0))
      else Some((false, before.offset, before.lines))
  }

  function StatOf(w: World, file: string): Option<Stat> {
    if file in w.files then Some(Stat(|w.files[file].content|, w.files[file].mtime)) else None
  }

  function SessionOf(w: World, file: string): Option<SessionRow> {
    if file in w.db.sessions then Some(w.db.sessions[file]) else None
  }

  function Content(w: World, file: string): seq<byte> {
    if file in w.files then w.files[file].content else []
  }

  /** One step; a step that is not enabled changes nothing. A read is taken
      only when the content ends at a line end. */
  function Next(r: Reader, w: World, step: Step): World {
    match step
    case Append(file, bytes, mtime) =>
      w.(files := w.files[file := File(Content(w, file) + bytes, mtime)])
    case Decide(file, force) =>
      if file in w.jobs then w else (
      match DecideAction(StatOf(w, file), SessionOf(w, file), force)
      case None => w
      case Some((full, offset, lines)) => w.(jobs := w.jobs[file := Decided(full, offset, lines)]))
    case StatFile(file) =>
      if file !in w.jobs || !w.jobs[file].Decided? then w
      else if file !in w.files then w.(jobs := w.jobs - {file})
      else
        var j := w.jobs[file];
        w.(jobs := w.jobs[file := Statted(j.full, j.offset, j.lines, StatOf(w, file).value)])
    case ReadFile(file) =>
      if file !in w.jobs || !w.jobs[file].Statted? || !EndsAtLineEnd(Content(w, file)) then w
      else
        var j := w.jobs[file];
        (match Parse(r, file, j.stat, Content(w, file), j.offset, j.lines, j.full)
         case None => w.(jobs := w.jobs - {file})
         case Some(rec) => w.(jobs := w.jobs[file := Parsed(rec)]))
    case WriteFile(file, now) =>
      if file !in w.jobs || !w.jobs[file].Parsed? then w
      else w.(db := Write(w.db, w.jobs[file].rec, now), jobs := w.jobs - {file})
    case Abandon(file) =>
      w.(jobs := w.jobs - {file})
  }

  function Run(r: Reader, w: World, steps: seq<Step>): World
    decreases |steps|
  {
    if steps == [] then w else Next(r, Run(r, w, steps[..|steps| - 1]), steps[|steps| - 1])
  }

  // ---------- The invariant ----------

  /** A stored row describes a prefix of the log, and rows of the current parser
      are those of that prefix. */
  ghost predicate Synced(r: Reader, w: World, file: string) {
    file in w.db.sessions ==>
      var row := w.db.sessions[file];
      && Describes(r, file, row, Content(w, file))
      && (row.parser == PARSER_VERSION ==>
            View(w.db.tables, file) == Insert(EMPTY_TABLES, AllRows(r, file, Content(w, file)[..row.offset])))
  }

  /** A job that resumes starts where the stored row stopped. */
  ghost predicate StartsRight(w: World, file: string, full: bool, offset: nat, lines: nat) {
    if full then offset == 0 && lines == 0
    else
      && file in w.db.sessions
      && w.db.sessions[file].parser == PARSER_VERSION
      && offset == w.db.sessions[file].offset
      && lines == w.db.sessions[file].lines
  }

  ghost predicate RecordRight(r: Reader, w: World, file: string, rec: Records) {
    var start := if rec.full then 0 else if file in w.db.sessions then w.db.sessions[file].offset else 0;
    var before := if rec.full then 0 else if file in w.db.sessions then w.db.sessions[file].lines else 0;
    && rec.file == file
    && StartsRight(w, file, rec.full, start, before)
    && start <= rec.offset <= |Content(w, file)|
    && (file in w.db.sessions ==> w.db.sessions[file].offset <= rec.offset)
    && rec.stat.size <= rec.offset
    && EndsAtLineEnd(Content(w, file)[..rec.offset])
    && var lines := SplitLines(Content(w, file)[start..rec.offset]);
       && Parses(r, lines)
       && rec.rows == BatchOf(r, file, lines, before)
       && rec.lines == before + |lines|
  }

  ghost predicate JobRight(r: Reader, w: World, file: string) {
    file in w.jobs ==>
      match w.jobs[file]
      case Decided(full, offset, lines) => StartsRight(w, file, full, offset, lines)
      case Statted(full, offset, lines, stat) =>
        StartsRight(w, file, full, offset, lines) && stat.size <= |Content(w, file)|
      case Parsed(rec) => RecordRight(r, w, file, rec)
  }

  ghost predicate FileRight(r: Reader, w: World, file: string) {
    Synced(r, w, file) && JobRight(r, w, file)
  }

  ghost predicate Inv(r: Reader, w: World) {
    forall file :: FileRight(r, w, file)
  }

  // ---------- Every step keeps it ----------

  lemma AppendKeeps(r: Reader, w: World, file: string, bytes: seq<byte>, mtime: int)
    requires FileRight(r, w, file)
    ensures FileRight(r, Next(r, w, Append(file, bytes, mtime)), file)
  {
    var w' := Next(r, w, Append(file, bytes, mtime));
    LongerSynced(r, w, w', file, bytes);
    LongerJob(r, w, w', file, bytes);
  }

  /** The log of one file has grown, and nothing else changed. */
  ghost predicate Longer(w: World, w': World, file: string, bytes: seq<byte>) {
    w'.db == w.db && w'.jobs == w.jobs && Content(w', file) == Content(w, file) + bytes
  }

  lemma LongerSynced(r: Reader, w: World, w': World, file: string, bytes: seq<byte>)
    requires Longer(w, w', file, bytes) && Synced(r, w, file)
    ensures Synced(r, w', file)
  {
    if file in w.db.sessions {
      DescribesLonger(r, file, w.db.sessions[file], Content(w, file), bytes);
    }
  }

  lemma LongerJob(r: Reader, w: World, w': World, file: string, bytes: seq<byte>)
    requires Longer(w, w', file, bytes) && JobRight(r, w, file)
    ensures JobRight(r, w', file)
  {
    if file in w.jobs && w.jobs[file].Parsed? {
      var rec := w.jobs[file].rec;
      PrefixStable(Content(w, file), bytes, if rec.full then 0 else w.db.sessions[file].offset, rec.offset);
    }
  }

  lemma ReadRecord(r: Reader, w: World, file: string, stat: Stat, offset: nat, lines: nat, full: bool)
    requires Synced(r, w, file) && StartsRight(w, file, full, offset, lines)
    requires stat.size <= |Content(w, file)| && EndsAtLineEnd(Content(w, file))
    ensures
      var parsed := Parse(r, file, stat, Content(w, file), offset, lines, full);
      parsed.Some? ==> RecordRight(r, w, file, parsed.value)
  {
    ParseOfRest(r, file, stat, Content(w, file), offset, lines, full);
  }

  lemma ReadKeeps(r: Reader, w: World, file: string)
    requires FileRight(r, w, file)
    ensures FileRight(r, Next(r, w, ReadFile(file)), file)
  {
    var w' := Next(r, w, ReadFile(file));
    if file in w.jobs && w.jobs[file].Statted? && EndsAtLineEnd(Content(w, file)) {
      var j := w.jobs[file];
      ReadRecord(r, w, file, j.stat, j.offset, j.lines, j.full);
      var parsed := Parse(r, file, j.stat, Content(w, file), j.offset, j.lines, j.full);
      if parsed.Some? {
        RecordFrame(r, w, w', file, parsed.value);
      }
    }
  }

  lemma RecordFrame(r: Reader, w: World, w': World, file: string, rec: Records)
    requires w'.files == w.files && w'.db == w.db
    requires RecordRight(r, w, file, rec)
    ensures RecordRight(r, w', file, rec)
  {
  }

  /** What a parsed record describes, taken with what is already stored. */
  lemma WhatIsRead(r: Reader, w: World, file: string) returns (read: Batch)
    requires FileRight(r, w, file)
    requires file in w.jobs && w.jobs[file].Parsed?
    ensures
      var rec := w.jobs[file].rec;
      var prefix := Content(w, file)[..rec.offset];
      && BatchOfFile(rec.rows, file)
      && Parses(r, SplitLines(prefix))
      && rec.lines == |SplitLines(prefix)|
      && (rec.full ==> rec.rows == AllRows(r, file, prefix))
      && (!rec.full ==>
            && View(w.db.tables, file) == Insert(EMPTY_TABLES, read)
            && file in w.db.sessions && read.meta == w.db.sessions[file].meta
            && Plus(read, rec.rows) == AllRows(r, file, prefix))
  {
    var rec, content := w.jobs[file].rec, Content(w, file);
    var prefix := content[..rec.offset];
    if rec.full {
      assert content[0..rec.offset] == prefix;
      BatchLocal(r, file, SplitLines(prefix), 0);
      read := EMPTY_BATCH;
    } else {
      var row := w.db.sessions[file];
      ResumedRead(r, file, row, content, rec.offset, rec.rows);
      read := AllRows(r, file, content[..row.offset]);
    }
  }

  lemma MetaAfterWrite(r: Reader, w: World, file: string)
    requires FileRight(r, w, file)
    requires file in w.jobs && w.jobs[file].Parsed?
    ensures
      var rec := w.jobs[file].rec;
      Coalesce(rec.rows.meta, OldMeta(w.db, file)) == AllRows(r, file, Content(w, file)[..rec.offset]).meta
  {
    var rec := w.jobs[file].rec;
    var read := WhatIsRead(r, w, file);
    if !rec.full {
      assert Plus(read, rec.rows).meta == Coalesce(rec.rows.meta, read.meta);
    } else if file in w.db.sessions {
      MetaSurvives(r, file, w.db.sessions[file], Content(w, file), rec.offset);
    } else {
      CoalesceNothing(rec.rows.meta);
    }
  }

  lemma WriteKeeps(r: Reader, w: World, file: string, now: int)
    requires FileRight(r, w, file)
    ensures FileRight(r, Next(r, w, WriteFile(file, now)), file)
  {
    if file in w.jobs && w.jobs[file].Parsed? {
      var rec := w.jobs[file].rec;
      var read := WhatIsRead(r, w, file);
      MetaAfterWrite(r, w, file);
      if rec.full {
        TablesAfterRebuild(w.db, rec, now, file);
      } else {
        TablesAfterResume(w.db, rec, now, read, file);
      }
    }
  }

  /** What is right of a file depends on nothing of other files. */
  lemma FileFrame(r: Reader, w: World, w': World, file: string)
    requires FileRight(r, w, file)
    requires Content(w', file) == Content(w, file) && SessionOf(w', file) == SessionOf(w, file)
    requires View(w'.db.tables, file) == View(w.db.tables, file)
    requires file in w'.jobs ==> file in w.jobs && w'.jobs[file] == w.jobs[file]
    ensures FileRight(r, w', file)
  {
    if file in w.db.sessions {
      assert w'.db.sessions[file] == SessionOf(w, file).value;
    } else {
      assert SessionOf(w', file) == None;
    }
  }

  /** A step of one file leaves every other file as it was. */
  lemma OthersUntouched(r: Reader, w: World, step: Step, other: string)
    requires other != step.file
    requires FileRight(r, w, step.file)
    ensures
      var w' := Next(r, w, step);
      && View(w'.db.tables, other) == View(w.db.tables, other)
      && SessionOf(w', other) == SessionOf(w, other)
      && Content(w', other) == Content(w, other)
      && (other in w'.jobs <==> other in w.jobs) && (other in w.jobs ==> w'.jobs[other] == w.jobs[other])
  {
    if step.WriteFile? && step.file in w.jobs && w.jobs[step.file].Parsed? {
      WriteLeavesOthers(r, w, step.file, step.now, other);
    }
  }

  lemma WriteLeavesOthers(r: Reader, w: World, file: string, now: int, other: string)
    requires other != file && FileRight(r, w, file)
    requires file in w.jobs && w.jobs[file].Parsed?
    ensures View(Write(w.db, w.jobs[file].rec, now).tables, other) == View(w.db.tables, other)
    ensures w.jobs[file].rec.file == file
  {
    var rec := w.jobs[file].rec;
    var read := WhatIsRead(r, w, file);
    if rec.full {
      TablesAfterRebuild(w.db, rec, now, other);
    } else {
      TablesAfterResume(w.db, rec, now, read, other);
    }
  }

  lemma StepKeeps(r: Reader, w: World, step: Step)
    requires Inv(r, w)
    ensures Inv(r, Next(r, w, step))
  {
    var w' := Next(r, w, step);
    assert FileRight(r, w, step.file);
    forall file ensures FileRight(r, w', file) {
      assert FileRight(r, w, file);
      if file != step.file {
        OthersUntouched(r, w, step, file);
        FileFrame(r, w, w', file);
      } else {
        StepKeepsOwn(r, w, step);
      }
    }
  }

  lemma StepKeepsOwn(r: Reader, w: World, step: Step)
    requires FileRight(r, w, step.file)
    ensures FileRight(r, Next(r, w, step), step.file)
  {
    match step {
      case Append(file, bytes, mtime) => AppendKeeps(r, w, file, bytes, mtime);
      case Decide(_, _) =>
      case StatFile(_) =>
      case ReadFile(file) => ReadKeeps(r, w, file);
      case WriteFile(file, now) => WriteKeeps(r, w, file, now);
      case Abandon(_) =>
    }
  }
}
