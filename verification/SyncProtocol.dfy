/** What runs of syncs over append-only session logs lead to: the database never
    differs from one full rebuild of what was read, skips are sound, and a quiet
    sync catches up. */
module SyncProtocol {
  import opened Options
  import opened LogLines
  import opened KeyedTables
  import opened SessionSync
  import opened SyncRows
  import opened SyncMachine

  lemma {:induction false} RunKeeps(r: Reader, w: World, steps: seq<Step>)
    requires Inv(r, w)
    ensures Inv(r, Run(r, w, steps))
    decreases |steps|
  {
    if steps != [] {
      RunKeeps(r, w, steps[..|steps| - 1]);
      StepKeeps(r, Run(r, w, steps[..|steps| - 1]), steps[|steps| - 1]);
    }
  }

  /** In every reachable world the database equals, file by file, one full
      rebuild of the bytes read so far. The world may start with rows of an
      older parser, which are kept only until the next sync of their file. */
  lemma IncrementalIsRebuild(r: Reader, w0: World, steps: seq<Step>, file: string, stat: Stat, now: int)
    requires Inv(r, w0)
    ensures
      var w := Run(r, w0, steps);
      file in w.db.sessions && w.db.sessions[file].parser == PARSER_VERSION ==>
        var read := w.db.sessions[file].offset;
        read <= |Content(w, file)| &&
        var rebuilt := Rebuild(r, file, Content(w, file)[..read], stat, now);
        rebuilt.Some? && SameFor(file, w.db, rebuilt.value)
  {
    RunKeeps(r, w0, steps);
    var w := Run(r, w0, steps);
    assert FileRight(r, w, file);
    if file in w.db.sessions && w.db.sessions[file].parser == PARSER_VERSION {
      RebuildOfSynced(r, w, file, stat, now);
    }
  }

  ghost predicate AllCurrent(w: World) {
    forall file :: file in w.db.sessions ==> w.db.sessions[file].parser == PARSER_VERSION
  }

  lemma {:induction false} RunsStayCurrent(r: Reader, w: World, steps: seq<Step>)
    requires AllCurrent(w)
    ensures AllCurrent(Run(r, w, steps))
    decreases |steps|
  {
    if steps != [] {
      RunsStayCurrent(r, w, steps[..|steps| - 1]);
    }
  }

  /** From an empty database on, whatever a file's row says was read is what the
      database holds. */
  lemma IncrementalFromEmpty(r: Reader, files: map<string, File>, steps: seq<Step>, file: string, stat: Stat, now: int)
    ensures
      var w := Run(r, World(files, EMPTY_DATABASE, map[]), steps);
      file in w.db.sessions ==>
        var read := w.db.sessions[file].offset;
        read <= |Content(w, file)| &&
        var rebuilt := Rebuild(r, file, Content(w, file)[..read], stat, now);
        rebuilt.Some? && SameFor(file, w.db, rebuilt.value)
  {
    var w0 := World(files, EMPTY_DATABASE, map[]);
    EmptyDatabaseIsSynced(r, files);
    RunsStayCurrent(r, w0, steps);
    IncrementalIsRebuild(r, w0, steps, file, stat, now);
  }

  lemma RebuildOfSynced(r: Reader, w: World, file: string, stat: Stat, now: int)
    requires Synced(r, w, file)
    requires file in w.db.sessions && w.db.sessions[file].parser == PARSER_VERSION
    ensures
      var rebuilt := Rebuild(r, file, Content(w, file)[..w.db.sessions[file].offset], stat, now);
      rebuilt.Some? && SameFor(file, w.db, rebuilt.value)
  {
    var row := w.db.sessions[file];
    var prefix := Content(w, file)[..row.offset];
    var rec := Parse(r, file, stat, prefix, 0, 0, true).value;
    assert Tail(prefix, 0) == prefix;
    BatchLocal(r, file, SplitLines(prefix), 0);
    TablesAfterRebuild(EMPTY_DATABASE, rec, now, file);
    CoalesceNothing(rec.rows.meta);
  }

  /** The runs that start with no statistics at all are among those. */
  lemma EmptyDatabaseIsSynced(r: Reader, files: map<string, File>)
    ensures Inv(r, World(files, EMPTY_DATABASE, map[]))
  {
  }

  /** A skipped file has nothing left to read: its rows are those of a full
      rebuild of the whole file, even if it grew between an earlier stat and
      the read that followed. */
  lemma SkipIsSound(r: Reader, w: World, file: string)
    requires Inv(r, w) && file in w.files
    requires DecideAction(StatOf(w, file), SessionOf(w, file), false) == None
    ensures file in w.db.sessions && w.db.sessions[file].parser == PARSER_VERSION
    ensures w.db.sessions[file].offset == |Content(w, file)|
  {
    assert FileRight(r, w, file);
  }

  lemma RunAppend(r: Reader, w: World, steps: seq<Step>, step: Step)
    ensures Run(r, w, steps + [step]) == Next(r, Run(r, w, steps), step)
  {
    assert (steps + [step])[..|steps|] == steps;
  }

  /** The four steps of one sync of a file. */
  function SyncSteps(file: string, force: bool, now: int): seq<Step> {
    [Decide(file, force)] + [StatFile(file)] + [ReadFile(file)] + [WriteFile(file, now)]
  }

  lemma SyncUnrolled(r: Reader, w: World, file: string, force: bool, now: int)
    ensures
      Run(r, w, SyncSteps(file, force, now))
      == Next(r, Next(r, Next(r, Next(r, w, Decide(file, force)), StatFile(file)), ReadFile(file)), WriteFile(file, now))
  {
    var d, s, a := Decide(file, force), StatFile(file), ReadFile(file);
    assert [] + [d] == [d];
    RunAppend(r, w, [], d);
    RunAppend(r, w, [d], s);
    RunAppend(r, w, [d] + [s], a);
    RunAppend(r, w, [d] + [s] + [a], WriteFile(file, now));
  }

  lemma QuietSyncReaches(r: Reader, w: World, file: string, force: bool, now: int)
    requires Inv(r, w) && file in w.files && file !in w.jobs
    requires EndsAtLineEnd(Content(w, file)) && Parses(r, SplitLines(Content(w, file)))
    ensures
      var w' := Run(r, w, SyncSteps(file, force, now));
      && w'.files == w.files
      && file in w'.db.sessions && w'.db.sessions[file].parser == PARSER_VERSION
      && w'.db.sessions[file].offset == |Content(w, file)|
  {
    SyncUnrolled(r, w, file, force, now);
    var w1 := Next(r, w, Decide(file, force));
    assert FileRight(r, w, file);
    if file !in w1.jobs {
      SkipIsSound(r, w, file);
    } else {
      StepKeeps(r, w, Decide(file, force));
      JobReadsToEnd(r, w1, file, now);
    }
  }

  /** One sync with no append in between reads the file to its end, and leaves
      what a rebuild of the whole file would. */
  lemma QuietSyncCatchesUp(r: Reader, w: World, file: string, force: bool, now: int)
    requires Inv(r, w) && file in w.files && file !in w.jobs
    requires EndsAtLineEnd(Content(w, file)) && Parses(r, SplitLines(Content(w, file)))
    ensures
      var w' := Run(r, w, SyncSteps(file, force, now));
      && w'.files == w.files
      && file in w'.db.sessions && w'.db.sessions[file].parser == PARSER_VERSION
      && w'.db.sessions[file].offset == |Content(w, file)|
      && var rebuilt := Rebuild(r, file, Content(w, file), StatOf(w, file).value, now);
         rebuilt.Some? && SameFor(file, w'.db, rebuilt.value)
  {
    var w' := Run(r, w, SyncSteps(file, force, now));
    QuietSyncReaches(r, w, file, force, now);
    RunKeeps(r, w, SyncSteps(file, force, now));
    assert FileRight(r, w', file);
    RebuildOfSynced(r, w', file, StatOf(w, file).value, now);
    assert Content(w, file)[..|Content(w, file)|] == Content(w, file);
  }

  // ---------- What a sync does to a file, whatever is stored ----------

  /** The row of a file does not let a sync skip it or read on: it is missing, of
      an older parser, or the log is shorter than what was read, or was touched
      since without getting longer. */
  predicate NeedsRebuild(stat: Stat, row: Option<SessionRow>) {
    || row.None? || row.value.parser < PARSER_VERSION
    || (!(stat.size == row.value.stat.size && stat.mtime <= row.value.stat.mtime)
        && (stat.size < row.value.offset || (stat.size == row.value.offset && stat.mtime > row.value.stat.mtime)))
  }

  /** A forced sync, or one that needs to, rebuilds the file: whatever was stored,
      its rows are those of the whole log, and its session row is of this sync. */
  lemma RebuildingSync(r: Reader, w: World, file: string, force: bool, now: int)
    requires file in w.files && file !in w.jobs
    requires EndsAtLineEnd(Content(w, file)) && Parses(r, SplitLines(Content(w, file)))
    requires force || NeedsRebuild(StatOf(w, file).value, SessionOf(w, file))
    ensures
      var w' := Run(r, w, SyncSteps(file, force, now));
      var rebuilt := Rebuild(r, file, Content(w, file), StatOf(w, file).value, now);
      && rebuilt.Some? && View(w'.db.tables, file) == View(rebuilt.value.tables, file)
      && file in w'.db.sessions
      && w'.db.sessions[file] == rebuilt.value.sessions[file].(meta := w'.db.sessions[file].meta)
      && w'.db.sessions[file].stat == StatOf(w, file).value && w'.db.sessions[file].lastSynced == now
      && w'.files == w.files && w'.jobs == w.jobs
  {
    SyncUnrolled(r, w, file, force, now);
    WholeLogParses(r, w, file);
    var rec := Parse(r, file, StatOf(w, file).value, Content(w, file), 0, 0, true).value;
    RebuildIsDecided(r, w, file, force);
    RebuildIsParsed(r, w, file, rec);
    RebuildIsWritten(r, w, w.(jobs := w.jobs[file := Parsed(rec)]), file, rec, now);
  }

  lemma RebuildIsParsed(r: Reader, w: World, file: string, rec: Records)
    requires file in w.files && EndsAtLineEnd(Content(w, file))
    requires Parse(r, file, StatOf(w, file).value, Content(w, file), 0, 0, true) == Some(rec)
    ensures
      var decided := w.(jobs := w.jobs[file := Decided(true, 0, 0)]);
      Next(r, Next(r, decided, StatFile(file)), ReadFile(file)) == w.(jobs := w.jobs[file := Parsed(rec)])
  {
    var decided := w.(jobs := w.jobs[file := Decided(true, 0, 0)]);
    var statted := w.(jobs := w.jobs[file := Statted(true, 0, 0, StatOf(w, file).value)]);
    assert Next(r, decided, StatFile(file)) == statted;
    assert statted.jobs[file := Parsed(rec)] == w.jobs[file := Parsed(rec)];
  }

  lemma WholeLogParses(r: Reader, w: World, file: string)
    requires file in w.files && Parses(r, SplitLines(Content(w, file)))
    ensures
      var parsed := Parse(r, file, StatOf(w, file).value, Content(w, file), 0, 0, true);
      && parsed.Some? && parsed.value.full && parsed.value.file == file && BatchOfFile(parsed.value.rows, file)
      && parsed.value.stat == StatOf(w, file).value
  {
    assert Tail(Content(w, file), 0) == Content(w, file);
    BatchLocal(r, file, SplitLines(Content(w, file)), 0);
  }

  lemma RebuildIsDecided(r: Reader, w: World, file: string, force: bool)
    requires file in w.files && file !in w.jobs
    requires force || NeedsRebuild(StatOf(w, file).value, SessionOf(w, file))
    ensures Next(r, w, Decide(file, force)) == w.(jobs := w.jobs[file := Decided(true, 0, 0)])
  {
  }

  lemma RebuildIsWritten(r: Reader, w: World, parsed: World, file: string, rec: Records, now: int)
    requires file !in w.jobs && parsed == w.(jobs := w.jobs[file := Parsed(rec)])
    requires rec.full && rec.file == file && BatchOfFile(rec.rows, file)
    ensures
      var w', rebuilt := Next(r, parsed, WriteFile(file, now)), Write(EMPTY_DATABASE, rec, now);
      && View(w'.db.tables, file) == View(rebuilt.tables, file)
      && file in w'.db.sessions && w'.db.sessions[file] == rebuilt.sessions[file].(meta := w'.db.sessions[file].meta)
      && w'.db.sessions[file].stat == rec.stat && w'.db.sessions[file].lastSynced == now
      && w'.files == w.files && w'.jobs == w.jobs
  {
    assert w.jobs[file := Parsed(rec)] - {file} == w.jobs;
    RebuildOfRewrittenLog(w.db, rec, now);
  }

  /** The row of a file tells that nothing has changed since it was written. */
  predicate UpToDate(w: World, file: string) {
    && file in w.files && file in w.db.sessions
    && w.db.sessions[file].parser >= PARSER_VERSION
    && w.db.sessions[file].stat.size == StatOf(w, file).value.size
    && StatOf(w, file).value.mtime <= w.db.sessions[file].stat.mtime
  }

  /** An unforced sync of a file changes nothing at all exactly when the file is
      not there or its row is up to date. */
  lemma IdleExactly(r: Reader, w: World, file: string, now: int)
    requires file !in w.jobs
    ensures Next(r, w, Decide(file, false)) == w <==> file !in w.files || UpToDate(w, file)
    ensures file !in w.files || UpToDate(w, file) ==> Run(r, w, SyncSteps(file, false, now)) == w
  {
    SyncUnrolled(r, w, file, false, now);
    var d := Next(r, w, Decide(file, false));
    if d == w {
      NoJobNoChange(r, w, file, now);
    } else {
      assert file in d.jobs;
    }
  }

  lemma NoJobNoChange(r: Reader, w: World, file: string, now: int)
    requires file !in w.jobs
    ensures Next(r, w, StatFile(file)) == w && Next(r, w, ReadFile(file)) == w && Next(r, w, WriteFile(file, now)) == w
  {
  }

  /** Syncing a file that was not touched since a sync changes nothing. */
  lemma RepeatedSyncIsIdle(r: Reader, w: World, file: string, force: bool, now: int, later: int)
    requires Inv(r, w) && file in w.files && file !in w.jobs
    requires EndsAtLineEnd(Content(w, file)) && Parses(r, SplitLines(Content(w, file)))
    ensures
      var w' := Run(r, w, SyncSteps(file, force, now));
      Run(r, w', SyncSteps(file, false, later)) == w'
  {
    SyncUnrolled(r, w, file, force, now);
    var w1 := Next(r, w, Decide(file, force));
    assert FileRight(r, w, file);
    if file in w1.jobs {
      StepKeeps(r, w, Decide(file, force));
      JobReadsToEnd(r, w1, file, now);
    }
    IdleExactly(r, Run(r, w, SyncSteps(file, force, now)), file, later);
  }

  lemma RowOfWholeLog(r: Reader, w: World, file: string)
    requires Inv(r, w) && file in w.db.sessions && w.db.sessions[file].offset == |Content(w, file)|
    ensures w.db.sessions[file].lines == |SplitLines(Content(w, file))| && w.db.sessions[file].stat.size <= |Content(w, file)|
  {
    assert FileRight(r, w, file);
    assert Content(w, file)[..|Content(w, file)|] == Content(w, file);
  }

  lemma GrownPastRow(stat: Stat, row: SessionRow, length: nat)
    requires row.parser == PARSER_VERSION && row.offset == length && row.stat.size <= length < stat.size
    ensures DecideAction(Some(stat), Some(row), false) == Some((false, length, row.lines))
  {
  }

  /** The sync of a log that was read to its end and has grown since reads on
      from exactly there: at the old length and the old number of lines. */
  lemma GrownLogIsReadOn(r: Reader, w: World, file: string, bytes: seq<byte>, mtime: int)
    requires Inv(r, w) && file !in w.jobs && bytes != []
    requires file in w.db.sessions && w.db.sessions[file].parser == PARSER_VERSION
    requires w.db.sessions[file].offset == |Content(w, file)|
    ensures
      var w' := Next(r, Next(r, w, Append(file, bytes, mtime)), Decide(file, false));
      file in w'.jobs && w'.jobs[file] == Decided(false, |Content(w, file)|, |SplitLines(Content(w, file))|)
  {
    RowOfWholeLog(r, w, file);
    var grown := |Content(w, file) + bytes|;
    assert StatOf(Next(r, w, Append(file, bytes, mtime)), file) == Some(Stat(grown, mtime));
    GrownPastRow(Stat(grown, mtime), w.db.sessions[file], |Content(w, file)|);
  }

  /** A decided job, run without interruption, reads to the end. */
  lemma JobReadsToEnd(r: Reader, w: World, file: string, now: int)
    requires Inv(r, w) && file in w.files && file in w.jobs && w.jobs[file].Decided?
    requires EndsAtLineEnd(Content(w, file)) && Parses(r, SplitLines(Content(w, file)))
    ensures
      var w' := Next(r, Next(r, Next(r, w, StatFile(file)), ReadFile(file)), WriteFile(file, now));
      && w'.files == w.files && w'.jobs == w.jobs - {file}
      && file in w'.db.sessions && w'.db.sessions[file].parser == PARSER_VERSION
      && w'.db.sessions[file].offset == |Content(w, file)|
      && w'.db.sessions[file].stat == StatOf(w, file).value && w'.db.sessions[file].lastSynced == now
  {
    TailParses(r, w, file);
    var w1 := Next(r, w, StatFile(file));
    assert Content(w1, file) == Content(w, file);
    var w2 := Next(r, w1, ReadFile(file));
    assert w2.jobs[file].rec.offset == |Content(w, file)|;
  }

  lemma MoreParses(r: Reader, prefix: seq<byte>, more: seq<byte>)
    requires EndsAtLineEnd(prefix) && Parses(r, SplitLines(prefix + more))
    ensures Parses(r, SplitLines(more))
  {
    SplitAppend(prefix, more);
    ParsesSuffix(r, SplitLines(prefix), SplitLines(more));
  }

  lemma RestParses(r: Reader, content: seq<byte>, offset: nat)
    requires offset <= |content| && EndsAtLineEnd(content[..offset]) && Parses(r, SplitLines(content))
    ensures Parses(r, SplitLines(content[offset..]))
  {
    assert content == content[..offset] + content[offset..];
    MoreParses(r, content[..offset], content[offset..]);
  }

  lemma JobStartsAtLineEnd(r: Reader, w: World, file: string)
    requires Inv(r, w) && file in w.jobs && w.jobs[file].Decided?
    ensures w.jobs[file].offset <= |Content(w, file)| && EndsAtLineEnd(Content(w, file)[..w.jobs[file].offset])
  {
    assert FileRight(r, w, file);
  }

  /** Whatever a decision starts from, the rest of a file that parses parses. */
  lemma TailParses(r: Reader, w: World, file: string)
    requires Inv(r, w) && file in w.jobs && w.jobs[file].Decided?
    requires EndsAtLineEnd(Content(w, file)) && Parses(r, SplitLines(Content(w, file)))
    ensures w.jobs[file].offset <= |Content(w, file)|
    ensures Parses(r, SplitLines(Tail(Content(w, file), w.jobs[file].offset)))
  {
    JobStartsAtLineEnd(r, w, file);
    RestParses(r, Content(w, file), w.jobs[file].offset);
  }
}
