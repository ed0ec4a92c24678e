# Verified models of the session, shell and CI tooling

Several parts of the repository are modelled, each with the properties it is relied on for, proved
for all inputs (Dafny 4.11).

- **Session sync** (`LogLines`, `KeyedTables`, `SessionSync`, `SessionIngest`, `LogContents`,
  `SyncRows`, `SyncMachine`, `SyncProtocol`). An append-only log is followed by a database. A sync
  decides (skip, resume from a byte offset, rebuild), stats, reads and writes as separate steps, and
  logs grow between any two of them. The main result is that, after any run, what the database holds
  of a file is what one rebuild of the bytes read so far would store; `LogContents` tells those rows
  line by line.
- **getopts** (`Decimal`, `Getopts`, `GetoptsWords`). The builtin keeps its position in three shell
  variables. A loop of calls is shown to emit what a one-shot recursive parse of the argument list
  emits, and to leave OPTIND at the first operand; every argument list is written from options and
  read back so.
- **read** (`IfsSplit`, `ReadVariables`, `ReadLine`, `PlainLines`). The flag-driven IFS splitter is
  shown to be "trim, collapse, cut"; the event-driven line reader is shown to be "tokenise, then
  cut".
- **Interval coverage** (`Sorting`, `Intervals`, `ReadOptimizer`, `ReadDelivery`, `ReadConfig`,
  `ReadReturns`). Interval lists are canonical, hence unique for the lines they denote; the two
  replay simulations and the Pareto frontier build on that.
- **CI planning** (`CiPaths`, `CiPlanner`, `CiPlans`, `CiKinds`, `CiCoverage`, `CiGaps`). The
  dependents worklist computes a least closed set; the two planners build keyed task maps with
  exactly the keys described without them, and never plan a consumer of the native addon without a
  native build; `CiKinds` tells the plan from the names of the changed paths, and `CiCoverage` says
  when the plan of a push covers that of a pull request.
- **mapfile** (`Mapfile`). Reading array entries byte by byte is "take the selected lines"; the
  lines conserve the input.
- **Tool logs** (`ToolLog`, `ToolPairs`). Calls are paired with their results over many logs up to a
  limit; no call is lost or made up.
- **Longest repeat** (`LongestRepeat`), **reservoir sampling** (`Reservoir`) and the **edit boundary
  parser** (`TextLines`, `EditBoundary`, `EditRoles`).

Code that changes state step by step is modelled by methods and classes whose contracts give the
whole new state as a function of the old one (`Parse`, `Write`, `Execute`, `ReadSpec`, `Fields`,
`Add`, `Take`, ...); the lemmas are about those functions.

## Where the code and its description differ

The code was followed in each case. The condition under which the described behaviour holds is a
lemma, in both directions.

- The last field of an IFS split can be empty (`a,,` with a comma in IFS): `LastFieldEmptyExactly`.
- The last variable of `read` is its field exactly when no separator ends the line; with a comma in
  IFS, `read a b` of `x,y,` leaves `y,` in `b`: `VariablesHold`, `TrailingSeparatorExample`.
- `read -n 0` behaves as `read -n 1`: `LimitIsPrefix`.
- Setting OPTIND to 1 does not restart getopts when 1 is also the recorded value and a cluster of
  options is still open: `WritingOptind`, `RestartIgnoredExample`.
- A full rebuild deletes a file's rows but not its session row, whose metadata columns are merged, so
  metadata of an earlier content of the file can survive: `RebuildOfRewrittenLog`,
  `StaleTitleExample`.
- A sync that reads a log while its last line is torn counts that line twice: `ResumedLineCount`.
- `find_longest_repeat` is described as finding a repeat of at least the minimal length whenever one
  exists; it only considers maximal repeats: `QualifiesExactly`, `ShorterRepeatMissed`.
- A selector for line 0 can add an interval that ends before it starts, after which the coverage list
  is no longer canonical until line 1 is covered: `DeliveredProper`, `StepCanonicalExactly`,
  `CoverageCanonical`, `ZeroStartExample`. Lines asked for from line 0 on are never all covered:
  `ReplayLosesNothing`.
- A selector whose end lies before its start (`:10-5`) reaches `merge_intervals` as a reversed
  interval, which can stay in the merged list though it denotes no line: `MergedSound`,
  `MergeOfSameLines`, `ReversedExample`.
- A push is meant to run the broader suite, but leaves out tasks that a pull request with the same
  changes runs: the root check for a root file that is no script, the tests of scripts, the planner's
  own tests: `PushCoversExactly`, `RootFileAlone`, `SelectorTestAlone`, `TurboExample`.
- A call without an end that the line cap cuts short is not counted as truncated:
  `OpenDeliversRequested`.
- Entries read by `mapfile` put together are the input exactly when no control byte ends a line:
  `EntriesRoundTrip`.
- The limit on tool invocations is looked at after each one: a limit below 1 yields one, and where
  results count, an answered call can exceed the limit by one: `LimitRespectedExactly`,
  `CallLimitRespected`, `LimitExamples`.
- A call is yielded exactly once, unless its id is used again while it is open: `EachCallOnce`.
- Text escaped character by character reads back, except when the delimiter is the backslash or a
  control character that is an event of its own: `EscapeRoundTrip`.

## Model

| member | source | states |
|---|---|---|
| SyncProtocol.IncrementalIsRebuild | scripts/session-stats/sync.py:766-882 | After any run of appends, decisions, stats, reads and writes over any files, what is stored for a file whose row the current parser wrote (rows, metadata, byte offset, line count) is that of one full rebuild of the bytes read so far |
| SyncProtocol.IncrementalFromEmpty | scripts/session-stats/sync.py:766-882 | The same for every stored file, whatever its row says, when the run starts from an empty database |
| SyncMachine.StepKeeps | scripts/session-stats/sync.py:498-582 | Every step, also an append between stat and read, keeps the invariant that stored rows describe a prefix ending at a line end and that pending jobs fit what is stored |
| SyncProtocol.RunKeeps | scripts/session-stats/sync.py:926-1008 | The invariant holds after every finite interleaving of steps on all files |
| SyncProtocol.EmptyDatabaseIsSynced | scripts/session-stats/sync.py:757-763 | Any files with an empty database satisfy the invariant, so every run may start there |
| SyncProtocol.SkipIsSound | scripts/session-stats/sync.py:907-917 | A skip is decided only when the stored row is of the current parser and reaches the very end of the file |
| SyncProtocol.QuietSyncCatchesUp | scripts/session-stats/sync.py:898-923 | One undisturbed sync of a log that ends at a line end, whatever is decided, leaves of the file what a rebuild of its whole content would, its row of the current parser and at the end of the file |
| SyncProtocol.RebuildingSync | scripts/session-stats/sync.py:907-917 | A forced sync, or one of a file whose row is missing, of another parser, ahead of the file or older at the same size, leaves the rows of a rebuild of the whole log over any database, with the current stat and the time of this sync |
| SyncProtocol.IdleExactly | scripts/session-stats/sync.py:907-923 | An unforced sync decides nothing exactly when the file is gone or its row is of the current parser, at its size and no older, and then changes nothing at all |
| SyncProtocol.RepeatedSyncIsIdle | scripts/session-stats/sync.py:898-923 | Syncing a file again that was not touched since a sync, forced or not, changes nothing |
| SyncProtocol.GrownLogIsReadOn | scripts/session-stats/sync.py:907-923 | A log read to its end that has grown since is read on from exactly its old length and its old number of lines |
| SyncProtocol.JobReadsToEnd | scripts/session-stats/sync.py:498-582 | A decided job, however long ago it was decided, reads up to the end of the log as it is when read |
| SyncProtocol.TailParses | scripts/session-stats/sync.py:531-536 | A resumed job starts inside the log and at a line boundary, so it decodes only lines of the whole log |
| SyncMachine.OthersUntouched | scripts/session-stats/sync.py:771-777 | A step on one file leaves the rows, session row, content and job of every other file exactly as they were |
| SyncRows.RowsOfExtension | scripts/session-stats/sync.py:530-571 | Parsing on from a line end yields exactly the rows that a parse of the whole adds, with the same sequence numbers and metadata |
| SyncRows.TablesAfterRebuild | scripts/session-stats/sync.py:771-845 | A rebuild stores the rows it read as into empty tables, whatever was stored before, and leaves other files alone |
| SyncRows.TablesAfterResume | scripts/session-stats/sync.py:779-845 | A resumed write leaves the tables that one insertion of old and new rows together would leave |
| SyncRows.ResumedLineCount | scripts/session-stats/sync.py:574-575 | Resuming gives a rebuild's byte offset always, and its line count exactly when the first read stopped at a line end or nothing followed |
| SyncRows.RebuildOfRewrittenLog | scripts/session-stats/sync.py:846-876 | A rebuild always gives the rows of a fresh database, and its metadata exactly when every column stored before is set again |
| SyncRows.StaleTitleExample | scripts/session-stats/sync.py:859-863 | A title stored before survives a rebuild from a log that no longer has one |
| SessionSync.InsertPlus | scripts/session-stats/sync.py:779-845 | Writing two batches one after the other equals writing them as one batch |
| SessionSync.EditsPlus | scripts/session-stats/sync.py:810-833 | Stub and result upserts of edit calls give the same rows under any batching |
| SessionSync.EditRowMeaning | scripts/session-stats/sync.py:810-833 | An edit row pairs the last stub with the last result of its call, zeros or null standing for a missing one, in any order of arrival |
| SessionSync.BatchAppend | scripts/session-stats/sync.py:530-571 | The rows of a stretch of lines are those of its two parts, the second numbered on from the first |
| SessionSync.BatchLocal | scripts/session-stats/sync.py:590-743 | Every row a parse yields carries the file it was read from |
| SessionSync.InsertLocal | scripts/session-stats/sync.py:779-845 | Writing one file's batch acts on that file's rows as if there were no others, and on no others |
| SessionSync.WithoutView | scripts/session-stats/sync.py:771-777 | The deletions of a rebuild remove all rows of the file and none of another |
| KeyedTables.ApplyAppend | scripts/session-stats/sync.py:779-822 | Upserting two lists of rows in turn equals upserting their concatenation |
| KeyedTables.ApplyExchange | scripts/session-stats/sync.py:810-833 | Upserts of two kinds that commute on single rows commute on whole lists |
| KeyedTables.ApplyLocal | scripts/session-stats/sync.py:779-822 | Rows of one file change the table only at that file, and as in the table restricted to it |
| KeyedTables.ExecuteMany | scripts/session-stats/sync.py:779-787 | The row by row upsert loop yields the table of the specification |
| LogLines.SplitAppend | scripts/session-stats/sync.py:534-535 | The lines of a log read in two goes are those of the whole, when the first stopped at a line end |
| LogLines.LineCountAdditive | scripts/session-stats/sync.py:534-571 | Line counts add up over two reads exactly when the first stopped at a line end or the second found nothing |
| SessionIngest.ParseFile | scripts/session-stats/sync.py:498-582 | The parser returns a fresh record that holds exactly the specified rows, offset and line count, or null exactly when a line raises |
| LogContents.RebuiltKeys | scripts/session-stats/sync.py:547-743 | A rebuilt log has a user row for exactly the lines that are user messages with text, an assistant row for those with a non-empty text or thinking block, a result row for each line that answers the id, a call row for each line that makes the call |
| LogContents.RebuiltMessages | scripts/session-stats/sync.py:547-743 | What those rows hold, by line number and call id: the text, its tokens and its time, the texts joined in order, the name, text and error flag, the call made last in the line |
| LogContents.RebuiltEditKeys | scripts/session-stats/sync.py:646-730 | There is an edit row exactly for the ids that some line calls or answers an edit with, and a section row exactly for the sections of those calls |
| LogContents.RebuiltEdits | scripts/session-stats/sync.py:646-730 | An edit row pairs the last call of an edit with the last answer to it, and a section is that of the last call that has it, wherever in the log they stand |
| LogContents.RebuiltSession | scripts/session-stats/sync.py:549-582 | The session row has the metadata of the first line alone, the bytes and lines of the whole log and the time of the sync |
| LogContents.LastCallExactly | scripts/session-stats/sync.py:604-632 | The call taken from a message is the last block of it that is such a call |
| LogContents.LastCallOfLog | scripts/session-stats/sync.py:604-632 | The call taken from a log is the one of the last line that makes it; none exactly when no line does |
| LogContents.LastOutcomeOfLog | scripts/session-stats/sync.py:713-730 | The answer taken from a log is the one of the last line that answers the edit; none exactly when no line does |
| LogContents.PartsAre | scripts/session-stats/sync.py:590-603 | The parts of a message are exactly its non-empty texts, and likewise for its thinking |
| SessionIngest.ParseLines | scripts/session-stats/sync.py:528-575 | The loop over the lines gathers exactly the rows of the lines and reaches the end, unless a line raises |
| SessionIngest.SessionRecords.IngestLine | scripts/session-stats/sync.py:547-571 | One line adds its rows to the record lists and nothing else, metadata coming from line 0 alone |
| SessionIngest.SessionRecords.IngestContent | scripts/session-stats/sync.py:590-632 | The loop over the blocks of an assistant message appends the rows of its tool calls and collects its texts in order |
| SessionIngest.SessionRecords.IngestAssistant | scripts/session-stats/sync.py:590-644 | An assistant message adds the rows of its blocks, then its own row if it has any text |
| SessionIngest.SessionRecords.IngestToolResult | scripts/session-stats/sync.py:713-730 | A tool result adds its row, and an outcome if it answers an edit |
| SessionIngest.StatsDatabase.WriteRecords | scripts/session-stats/sync.py:766-882 | A write turns the database into the specified one: rows deleted on a rebuild, upserted in order, session row merged |
| Getopts.LoopIsScan | crates/brush-builtins-vendored/src/getopts.rs:102-267 | From any state of the variables, calling getopts until it fails emits exactly the options and arguments of a one-shot parse from that position, and OPTIND ends just before the first operand |
| Getopts.FreshLoopIsScan | crates/brush-builtins-vendored/src/getopts.rs:102-267 | From a fresh start the loop emits the parse of the whole argument list |
| GetoptsWords.LoopReadsBack | crates/brush-builtins-vendored/src/getopts.rs:102-307 | Over words written from flags, options with values attached, separate or missing, and then operands, a loop reports exactly what was written, in order: known flags as themselves, unknown ones and a missing value as an error in the mode the leading colon asks for; OPTIND ends at the operands, past a `--` |
| GetoptsWords.EveryListIsWritten | crates/brush-builtins-vendored/src/getopts.rs:163-307 | Every argument list is written so, in words that the option string gives the same meaning; so the result above holds of all of them |
| GetoptsWords.ScanFlags | crates/brush-builtins-vendored/src/getopts.rs:206-267 | A run of flags in a word is reported flag by flag, and the rest of the word is read on |
| Getopts.OperandsStart | crates/brush-builtins-vendored/src/getopts.rs:169-197 | What is left as operands is empty, starts with a word that is no option, or follows a `--` |
| Getopts.CallStep | crates/brush-builtins-vendored/src/getopts.rs:102-154 | A successful call reports the next option of the one-shot parse and gets lexicographically closer to the end; a failing one reports `?` at the operands |
| Getopts.ParseStep | crates/brush-builtins-vendored/src/getopts.rs:163-267 | One parse step emits the head of what remains and leaves the position of the rest |
| Getopts.AfterUpdate | crates/brush-builtins-vendored/src/getopts.rs:330-378 | The shell variables read back what was written to them: OPTIND, its record, the option and OPTARG |
| Getopts.CallKeepsRange | crates/brush-builtins-vendored/src/getopts.rs:163-267 | After every call OPTIND is in 1..len+1 and equals its record, and a saved index points into the current argument |
| Getopts.WritingOptind | crates/brush-builtins-vendored/src/getopts.rs:126-138 | Writing OPTIND acts as a fresh start there exactly when the value differs from the recorded one or no cluster is open |
| Getopts.RestartIgnoredExample | crates/brush-builtins-vendored/src/getopts.rs:126-138 | OPTIND=1 inside `-ab` is ignored: the next call reports `b` |
| Getopts.DefsAtColon | crates/brush-builtins-vendored/src/getopts.rs:61-69 | A colon gives an argument to the option just defined for the first time, and to no other |
| Getopts.DefsAtKnown | crates/brush-builtins-vendored/src/getopts.rs:71-78 | A repeated option letter changes no definition and shields the first one from a colon |
| Getopts.DefsAtNew | crates/brush-builtins-vendored/src/getopts.rs:71-74 | A new option letter is defined without an argument |
| Getopts.ParseOptionSpec | crates/brush-builtins-vendored/src/getopts.rs:55-82 | The loop over the option string yields, for each letter, whether its first mention is followed by a colon, and silence exactly for a leading colon |
| Getopts.Shell.ResolveOptionArgument | crates/brush-builtins-vendored/src/getopts.rs:275-307 | The argument is the rest of the word, else the next word, else an error in the mode asked for |
| Getopts.Shell.ParseNext | crates/brush-builtins-vendored/src/getopts.rs:163-267 | One parse changes the saved index and nothing else, and yields the specified result |
| Getopts.Shell.Update | crates/brush-builtins-vendored/src/getopts.rs:330-378 | The variables written, and OPTARG unset when there is no argument |
| Getopts.Shell.Getopts | crates/brush-builtins-vendored/src/getopts.rs:102-154 | A call turns the shell's variables into those of the specification, over explicit or positional arguments |
| Decimal.ParseBack | crates/brush-builtins-vendored/src/getopts.rs:118-133 | A number written in decimal is read back by the signed 32-bit and the unsigned 64-bit parse when in range |
| IfsSplit.UnlimitedSplit | crates/brush-builtins-vendored/src/read.rs:687-756 | Without a limit the split is: trim IFS whitespace, collapse its runs, cut at each IFS character, drop an empty last piece |
| IfsSplit.AllFieldsAreSplit | crates/brush-builtins-vendored/src/read.rs:703-756 | Field by field reading of a trimmed line equals collapsing and cutting it |
| IfsSplit.SplitKeepsSolid | crates/brush-builtins-vendored/src/read.rs:687-756 | The fields joined together are the non-IFS characters of the line, all of them and in order |
| IfsSplit.LastFieldEmptyExactly | crates/brush-builtins-vendored/src/read.rs:750-756 | The last field is empty exactly when the trimmed line ends in two separators |
| IfsSplit.LimitedSplit | crates/brush-builtins-vendored/src/read.rs:721-745 | With limit n there are at most n fields, all but the n-th as without a limit, the whole split when it has fewer, and an n-th is a verbatim suffix of the trimmed line |
| IfsSplit.LargeLimit | crates/brush-builtins-vendored/src/read.rs:701-722 | A limit above the length of the line is no limit |
| IfsSplit.SplitLineByIfs | crates/brush-builtins-vendored/src/read.rs:687-756 | The splitter computes the declarative split for every line, IFS and limit |
| IfsSplit.SplitTrimmed | crates/brush-builtins-vendored/src/read.rs:702-756 | The loop over the characters with its three flags computes the field by field reading, a limit of 0 acting as 1 |
| ReadVariables.ReadJoinsNothing | crates/brush-builtins-vendored/src/read.rs:196-231 | The last variable never receives two fields joined: the values are the fields, then empty strings |
| ReadVariables.VariablesHold | crates/brush-builtins-vendored/src/read.rs:196-270 | Of n variables each but the last holds its field of the unlimited split, or nothing where there are too few; the last holds a verbatim suffix of the trimmed line that splits into the fields left, or its field where one is left, which it equals exactly when no separator ends the line; without splitting the first holds the line and the others nothing |
| ReadVariables.LastVariable | crates/brush-builtins-vendored/src/read.rs:252-270 | The text left for the last variable, split on its own, gives the fields that were left, but for an empty one it starts with |
| ReadVariables.LastSplitsOn | crates/brush-builtins-vendored/src/read.rs:721-745 | The last field of a limited split starts with no IFS whitespace and splits into what the unlimited split has from there on |
| ReadVariables.OneField | crates/brush-builtins-vendored/src/read.rs:721-745 | A text that is one field is that field exactly when no separator ends it |
| ReadVariables.TrailingSeparatorExample | crates/brush-builtins-vendored/src/read.rs:721-745 | With a comma in IFS, two variables get `x` and `y,` of `x,y,` |
| ReadVariables.AssignedLast | crates/brush-builtins-vendored/src/read.rs:206-224 | The last assignment to a repeated name counts |
| ReadVariables.BuildArrayFields | crates/brush-builtins-vendored/src/read.rs:234-250 | An array gets all the fields of the unlimited split, which hold the non-IFS characters of the line in order, or the whole line |
| ReadVariables.ReadShell.AssignToNamedVariables | crates/brush-builtins-vendored/src/read.rs:196-231 | Every name that is not repeated later holds what its place among the names gives it of the unlimited split, and variables that are not named keep their value |
| ReadLine.ReadLineWithReader | crates/brush-builtins-vendored/src/read.rs:469-565 | The event loop refines the two-pass reading: resolve escapes, cut at the first plain delimiter, drop escaped delimiters and plain control characters, stop at the limit |
| ReadLine.EscapeRoundTrip | crates/brush-builtins-vendored/src/read.rs:512-547 | A text written with every character escaped reads back without its delimiters, for every delimiter, with the exact result where the delimiter is a backslash or an event |
| ReadLine.WithoutAbsent | crates/brush-builtins-vendored/src/read.rs:517-522 | Dropping the delimiters changes nothing exactly when there are none, so the round trip is then the identity |
| PlainLines.PlainReadsBack | crates/brush-builtins-vendored/src/read.rs:469-565 | A text without escapes, events and delimiters, then the delimiter, reads back as its visible characters, for every delimiter and with or without escapes |
| PlainLines.KeptAll | crates/brush-builtins-vendored/src/read.rs:549-552 | Such a text reads back as it is exactly when it has no control characters but white space |
| ReadLine.LimitIsPrefix | crates/brush-builtins-vendored/src/read.rs:524-562 | On ASCII input a limit returns the first characters of the unlimited result, a limit of 0 acting as 1 |
| ReadLine.LimitedLonger | crates/brush-builtins-vendored/src/read.rs:556-562 | Once the limit is reached, no later input changes the line |
| Mapfile.ReadEntries | crates/brush-builtins-vendored/src/mapfile.rs:118-176 | The nested loops yield the lines after the skipped ones, up to the maximum, each with its delimiter stripped if asked for |
| Mapfile.ReadLine | crates/brush-builtins-vendored/src/mapfile.rs:136-155 | The inner loop reads one line and consumes exactly its bytes and the control byte that ended it |
| Mapfile.LinesKeepVisible | crates/brush-builtins-vendored/src/mapfile.rs:135-173 | The lines put together are the input without the control bytes that end lines, up to the first that ends an empty line |
| Mapfile.EntriesRoundTrip | crates/brush-builtins-vendored/src/mapfile.rs:118-176 | Without options the entries put together are the input exactly when no control byte ends a line in it |
| Mapfile.LineEndsAtDelimiter | crates/brush-builtins-vendored/src/mapfile.rs:166-168 | A stripped line holds no delimiter, and stripping removes nothing but the one at its end |
| Intervals.CanonicalUnique | scripts/session-stats/read_optimizer.py:261-278 | Two canonical lists of the same lines are equal |
| Intervals.AddInterval | scripts/session-stats/read_optimizer.py:261-278 | Adding an interval keeps the list canonical and denotes exactly the lines of both |
| Intervals.AddSound | scripts/session-stats/read_optimizer.py:261-278 | The same of the specification the loop is proved to compute |
| Intervals.Merge | scripts/session-stats/optimize_read_config.py:146-157 | Sorting and sweeping yields a list of the lines of the input; it is canonical exactly when every reversed interval is absorbed, and always when there is none |
| Intervals.MergeOfSameLines | scripts/session-stats/analyze_selector_reads.py:111-123 | For any two lists of the same lines, one of them settled, merging gives the same list exactly when the other is settled too; order, overlap and repetition of the input play no part |
| Intervals.MergedSound | scripts/session-stats/analyze_selector_reads.py:111-123 | For every list, reversed intervals included, merging keeps the lines, and is canonical exactly when each reversed interval meets one that starts before it and reaches at least the line before it, or starts with it where it ends just before its start |
| Intervals.SweepCanonical | scripts/session-stats/analyze_selector_reads.py:117-122 | The same for the sweep from any point on |
| Intervals.ReversedExample | scripts/session-stats/analyze_selector_reads.py:111-123 | The reversed interval (10, 5) stays in the list beside (1, 3), which denotes the same lines alone |
| Intervals.AddAllIsMerge | scripts/session-stats/read_optimizer.py:261-278 | Adding intervals one by one, in any order, gives the list of merging them at once |
| Intervals.IsCovered | scripts/session-stats/read_optimizer.py:251-258 | On a canonical list the scan with its early exit decides whether every line of the target is covered |
| Intervals.InOneIsCovers | scripts/session-stats/optimize_read_config.py:160-164 | On a canonical list, covered line by line is the same as contained in one interval |
| Intervals.Contained | scripts/session-stats/optimize_read_config.py:160-164 | The scan decides containment in one interval |
| Intervals.Subtract | scripts/session-stats/optimize_read_config.py:167-183 | The pieces left are disjoint, in order, and hold exactly the lines of the range that no interval holds |
| Intervals.CutEach | scripts/session-stats/optimize_read_config.py:170-182 | One pass of the subtraction cuts one interval out of every piece |
| ReadOptimizer.CoverageCanonical | scripts/session-stats/read_optimizer.py:316-427 | For all calls the selector parser makes, the coverage of a group is canonical exactly when every call delivers lines or some call that is paid for delivers line 1 |
| ReadOptimizer.StepCanonicalExactly | scripts/session-stats/read_optimizer.py:364-394 | One call leaves a canonical coverage canonical exactly when it delivers lines or line 1 is covered already |
| ReadOptimizer.ScanReached | scripts/session-stats/read_optimizer.py:251-258 | On every coverage a replay reaches, canonical or not, the scan decides whether every line of the target is covered; a target from line 0 never is |
| ReadOptimizer.PaidPlusSkipped | scripts/session-stats/read_optimizer.py:316-427 | Paid and skipped calls add up to all calls |
| ReadOptimizer.ReplayLosesNothing | scripts/session-stats/read_optimizer.py:316-427 | With no truncation reported and the default within the cap, the lines an explicit or default call asked for end up covered exactly when it starts at line 1 or later, whatever the other calls of its group ask for |
| ReadOptimizer.NothingLost | scripts/session-stats/read_optimizer.py:316-427 | The same within one group, for a call at any position |
| ReadOptimizer.DeliversRequested | scripts/session-stats/read_optimizer.py:231-248 | A call not counted as truncated delivers every line it asked for |
| ReadOptimizer.OpenDeliversRequested | scripts/session-stats/read_optimizer.py:372-377 | A call without an end is never counted as truncated, and delivers what it asked for exactly when the page and its leading context fit the cap |
| ReadOptimizer.DeliveredProper | scripts/session-stats/read_optimizer.py:231-248 | What is delivered is a proper interval exactly when the call does not start at line 0 with next to nothing asked for; otherwise it is the interval (1, 0) |
| ReadOptimizer.ZeroStartExample | scripts/session-stats/read_optimizer.py:231-248 | Line 0 alone asked for (`:0-0`) makes the coverage improper under every configuration without trailing context |
| ReadOptimizer.ReplayCalls | scripts/session-stats/read_optimizer.py:346-394 | The loop over the calls of a group yields the specified coverage and counters |
| ReadOptimizer.ReplayAll | scripts/session-stats/read_optimizer.py:316-427 | The counters are the sums over the groups |
| ReadOptimizer.Pareto | scripts/session-stats/read_optimizer.py:446-457 | The frontier rises in tokens and falls in calls, its members are eligible and undominated, and each eligible result is weakly dominated by a member |
| ReadOptimizer.MembersUndominated | scripts/session-stats/read_optimizer.py:446-457 | On a staircase that answers all results, no result dominates a member |
| ReadDelivery.DeliveredExactly | scripts/session-stats/read_optimizer.py:231-248 | Line by line: a call delivers exactly the lines from its leading context on to its end and trailing context, or to a page from its start, as many as the cap at most |
| ReadDelivery.DeliveredFromZero | scripts/session-stats/read_optimizer.py:231-248 | A call from line 0 delivers the lines from 1 to its end and trailing context, or one less than a page, as many as the cap at most |
| ReadDelivery.PaidExactly | scripts/session-stats/read_optimizer.py:377-384 | An answer is charged its lines at the rate of the call, or a quarter of the byte budget if that is less, and is counted as limited exactly then |
| ReadDelivery.TruncatedExactly | scripts/session-stats/read_optimizer.py:371-376 | A call is counted as truncated exactly when it names both ends, fills the cap, and would not fit it with the context of both sides |
| ReadDelivery.CoverageExactly | scripts/session-stats/read_optimizer.py:347-395 | The coverage of a group holds exactly the lines that its calls paid for deliver |
| ReadDelivery.SkippedExactly | scripts/session-stats/read_optimizer.py:363-369 | A call is skipped exactly when it is not the first of its group, asks for lines, and each of them was delivered by an earlier call that was paid for |
| ReadConfig.ReplaySound | scripts/session-stats/optimize_read_config.py:371-415 | The chunks of phase two are disjoint, within the cap, and hold exactly the observed lines that phase one left uncovered; the final coverage is canonical and holds both |
| ReadConfig.ChunksTotal | scripts/session-stats/optimize_read_config.py:403-414 | The chunks together are as long as there are lines missing |
| ReadConfig.PhaseOneIsUnion | scripts/session-stats/optimize_read_config.py:389-402 | Phase one covers exactly the union of what its calls return, skipped or not |
| ReadConfig.PhaseOneCanonical | scripts/session-stats/optimize_read_config.py:389-402 | The coverage of phase one is canonical |
| ReadConfig.GapsSound | scripts/session-stats/optimize_read_config.py:403-407 | The gaps are disjoint and hold exactly the needed lines not covered |
| ReadConfig.ChunksOfSound | scripts/session-stats/optimize_read_config.py:357-368 | Chunking keeps exactly the lines of the gaps, without overlap |
| ReadConfig.FinalSound | scripts/session-stats/optimize_read_config.py:408-414 | Merging chunk after chunk into the coverage stays canonical and adds exactly the gaps |
| ReadConfig.LengthIsCount | scripts/session-stats/optimize_read_config.py:403-414 | The summed length of disjoint intervals is the number of lines in them |
| ReadConfig.EffectiveReturned | scripts/session-stats/optimize_read_config.py:315-343 | What a call is taken to return is never an empty or reversed range |
| ReadReturns.ReturnedExactly | scripts/session-stats/optimize_read_config.py:315-343 | Line by line: a call returns its first line, and a later one exactly when the call asks for it (a bare path a page, a range its end or a page, a raw read the file), the file has it, and the lines up to it fit the caps |
| ReadReturns.ReturnsOrNot | scripts/session-stats/optimize_read_config.py:315-343 | A call returns nothing exactly when its intent has no lines; every other one asks for some |
| ReadReturns.CapIsLargest | scripts/session-stats/optimize_read_config.py:338-340 | The cap of a call is the largest number of lines within the line cap that is one or fits the byte cap |
| ReadReturns.ObservedAre | scripts/session-stats/optimize_read_config.py:390-391 | A line was observed exactly when the footer of some call reported it |
| ReadReturns.BareChargeIsPage | scripts/session-stats/optimize_read_config.py:390-402 | In a replay a bare call is charged for exactly the lines of the default page that the file has and that fit the caps, so for a page at most |
| ReadReturns.PaidOnce | scripts/session-stats/optimize_read_config.py:397-402 | No two charges of phase one are for the same lines |
| ReadReturns.BareReadsPayOnce | scripts/session-stats/optimize_read_config.py:397-402 | However often a path is read bare, whatever is read in between, at most one of the reads is charged |
| ReadReturns.BareReadsCharge | scripts/session-stats/optimize_read_config.py:389-402 | Bare reads alone, one or many, are charged once, for the lines of one page |
| ReadReturns.BarePageCost | scripts/session-stats/optimize_read_config.py:346-354 | A page read bare costs its lines at the rate of the file, or at 0.35 of it where the file is long enough for the summarizer |
| ReadReturns.PhaseTwoCost | scripts/session-stats/optimize_read_config.py:403-415 | Whatever phase one covered and charged and whatever the cap, phase two adds the number of needed lines not covered at the full rate of the file, never at the summarizer's |
| ReadConfig.PerCallCap | scripts/session-stats/optimize_read_config.py:359-361 | The cap of a call is between one line and the line cap |
| ReadConfig.ChunkRange | scripts/session-stats/optimize_read_config.py:357-368 | The loop yields consecutive chunks of the capped length |
| ReadConfig.ReplayPhaseOne | scripts/session-stats/optimize_read_config.py:385-402 | Phase one charges the roundtrip overhead once for each call kept |
| ReadConfig.FillGaps | scripts/session-stats/optimize_read_config.py:408-414 | Phase two charges each chunk once and merges it into the coverage |
| ReadConfig.ReplayPair | scripts/session-stats/optimize_read_config.py:371-415 | The total is the cost of the chunks kept plus the overhead exactly as often as chunks are kept |
| CiPlanner.ExpandWithDependents | scripts/ci-dev-affected.ts:694-710 | The worklist ends with the least set that holds the touched packages and everything that depends on a member; each member is selected once, and put in the queue exactly once over the run |
| CiPlanner.SelectDependents | scripts/ci-dev-affected.ts:699-707 | One round selects and queues every direct dependent not yet selected, each once, and nothing outside the least closed set |
| CiPlanner.LeastClosedMonotone | scripts/ci-dev-affected.ts:694-710 | More touched packages give more affected ones, and the affected set is unique |
| CiPlanner.TargetedMonotone | scripts/ci-dev-affected.ts:510-602 | Adding changed paths never removes a task from the pull request plan, and so their order does not matter |
| CiPlanner.FullWorkspaceMonotone | scripts/ci-dev-affected.ts:724-745 | Adding paths never leaves full-workspace mode, across the exception for package.json with release harness files |
| CiPlanner.TargetedNative | scripts/ci-dev-affected.ts:635-640 | A pull request plan with a task that needs the native addon has a native build |
| CiPlanner.WorkspaceOfIsLawful | scripts/ci-dev-affected.ts:614-633 | The facts the planner reads off paths and packages satisfy what the planning lemmas assume |
| CiPaths.OnlyPackageJsonIsHarness | scripts/ci-dev-affected.ts:724-755 | Among the paths that force full-workspace mode only package.json may belong to the release harness |
| CiPlans.PlanTargetedTasks | scripts/ci-dev-affected.ts:510-602 | The plan built path by path has exactly the keys asked for, each once and with its one task; what those are is `CiKinds.PlanPullRequest` |
| CiKinds.PlanPullRequest | scripts/ci-dev-affected.ts:510-602 | The plan told from the names of the changed paths: a task is there exactly when some path brings it or, for the root check and tests, the whole workspace is run; the native build exactly when the whole workspace is run or a planned task loads the addon; each key once, package and web tasks in their directories |
| CiKinds.LanguagesPlanned | scripts/ci-dev-affected.ts:538-556 | Both tasks of Python, of the web client and of Rust, and the install test, are planned exactly when a changed path is of that kind and of no earlier one |
| CiKinds.CiPlanned | scripts/ci-dev-affected.ts:529-537 | The YAML parse is planned exactly for a workflow, the self-test and dry run exactly for a workflow or a harness script |
| CiKinds.TestPlanned | scripts/ci-dev-affected.ts:558-564 | A test file is planned exactly when some changed ordinary path is that test, or is a source it is named after in its package or directory |
| CiKinds.SourceGetsItsTest | scripts/ci-dev-affected.ts:614-627 | A changed source file `base.ts` (or tsx, js, jsx, mts, cts) has every `base.test.ts` or `base.test.tsx` of its package planned |
| CiKinds.PackagePlanned | scripts/ci-dev-affected.ts:566-570 | A package is checked exactly when it has a check script and a changed ordinary path with no test of its own lies in it |
| CiKinds.SmokesPlanned | scripts/ci-dev-affected.ts:571-576 | The CLI and wrapper smokes are planned exactly for such paths in the folders they are about |
| CiKinds.ReleasePlanned | scripts/ci-dev-affected.ts:577-580 | So are the release checks |
| CiKinds.RootPlanned | scripts/ci-dev-affected.ts:521-525 | The root tests are planned exactly when the whole workspace is run, the root check also for code outside the packages that no test is named after |
| CiKinds.RunsAllExactly | scripts/ci-dev-affected.ts:516-517 | The whole workspace is run exactly for a configuration file other than package.json, or for package.json beside a path that is no part of a release |
| CiKinds.PathAsks | scripts/ci-dev-affected.ts:527-589 | What one path asks for, read the other way round: for each key, the paths that bring it |
| CiKinds.CratesAreRust | scripts/ci-dev-affected.ts:548-552 | Every path below `crates/` that is no document is of the Rust kind |
| CiKinds.PythonFolder | scripts/ci-dev-affected.ts:538-542 | Every path below `python/robogjc/` that is no document, and not of the web client or the assets, is of the Python kind |
| CiKinds.WebFolder | scripts/ci-dev-affected.ts:543-547 | Every path of the web client that is no document is of the web kind |
| CiKinds.WorkflowFolder | scripts/ci-dev-affected.ts:529-533 | Every path below `.github/workflows/` that is no document is of the workflow kind |
| CiKinds.PushLanguages | scripts/ci-dev-affected.ts:469-483 | A push runs the tasks of a language exactly when some changed path, documents included, is of it, unless the deep interview alone changed |
| CiPlans.PlanTasks | scripts/ci-dev-affected.ts:410-496 | The push plan has exactly the described keys over the least closed set of affected packages, each once |
| CiPlans.PushNative | scripts/ci-dev-affected.ts:410-496 | A push plan with a task that needs the native addon has a native build |
| CiCoverage.PushCoversExactly | scripts/ci-dev-affected.ts:97-101 | The push plan runs all that the pull-request plan of the same changes runs, native builds aside, exactly when no relevant path leaves a gap, a condition on the flags, the owners and the tests of the paths |
| CiCoverage.RunsTestExactly | scripts/ci-dev-affected.ts:410-496 | A push runs a test file exactly when its package is affected or all are run and has a test script, or the file is one of those with a task of their own whose flag is raised |
| CiCoverage.PackagePathCovered | scripts/ci-dev-affected.ts:442-455 | A source file of a package with a test script leaves no gap in a plan that looks at packages |
| CiCoverage.WorkspaceOfIsConsistent | scripts/ci-dev-affected.ts:628-633 | The facts the planners read off paths and packages hang together as the coverage results assume |
| CiGaps.TurboExample | scripts/ci-dev-affected.ts:584-588 | For `turbo.json` changed alone the pull request runs the root check and the push does not |
| CiCoverage.RootFileAlone | scripts/ci-dev-affected.ts:584-588 | For a file of no package that is no script, changed alone, the pull request runs the root check and the push does not |
| CiCoverage.SelectorTestAlone | scripts/ci-dev-affected.ts:534-537 | For a CI script that is no workflow harness file, as the planner's own tests are, changed alone, the pull request runs those tests and the push does not |
| CiPlans.TaskMap.Add | scripts/ci-dev-affected.ts:667-671 | A task is added once, at the end, unless its key is taken |
| CiPlans.TaskMap.EnsureNativeBuild | scripts/ci-dev-affected.ts:635-640 | A native build is added exactly when one is needed and none is there |
| CiPlans.AddPath | scripts/ci-dev-affected.ts:527-589 | One changed path adds exactly its tasks, and notes the self-test and YAML tasks it asks for; what those are is `CiKinds.PathAsks` |
| CiPlans.TouchedAre | scripts/ci-dev-affected.ts:690-692 | The touched packages are exactly those whose directory holds a changed path |
| CiPlans.EachTaskRunsOnce | scripts/ci-dev-affected.ts:214-283 | The native-build job and the matrix shards together run every planned task exactly once |
| LongestRepeat.FindLongestRepeat | scripts/session-stats/sync.py:352-371 | The result starts a maximal non-overlapping repeat that is long and meaningful enough, the longest of all such, the earliest start among equals; none means there is none |
| LongestRepeat.ExtensionMaximal | scripts/session-stats/sync.py:362-364 | Extending line by line ends at the longest non-overlapping repeat of the two starts |
| LongestRepeat.QualifiesExactly | scripts/session-stats/sync.py:365-369 | A repeat that is long enough is considered exactly when the maximal one of its starts is meaningful enough |
| LongestRepeat.MeaningfulBlock | scripts/session-stats/sync.py:367-369 | Where every line is meaningful, every repeat that is long enough is considered |
| LongestRepeat.ShorterRepeatMissed | scripts/session-stats/sync.py:352-371 | A block with a meaningful repeat of four lines in which nothing is found |
| Reservoir.EachItemIsFair | scripts/tool_io.py:118-134 | Of all ways to draw the indices, exactly the fraction size / n keeps any given one of the first n items |
| Reservoir.SlotsDistinct | scripts/tool_io.py:132-134 | The sample never holds one position of the stream twice |
| Reservoir.Sample | scripts/tool_io.py:118-134 | The sample has min(size, seen) items and all of them were fed in |
| Reservoir.ReservoirSample.Add | scripts/tool_io.py:125-134 | Adding an item keeps the sample that of the whole stream fed so far, and draws an index only when full |
| Reservoir.SampleReservoir | scripts/tool_io.py:282-286 | Sampling a stream yields the sample its drawn indices determine |
| ToolLog.IterToolInvocations | scripts/tool_io.py:154-230 | The generator yields, over all logs in turn, what the reference pairs, cut at the limit |
| ToolLog.CutSound | scripts/tool_io.py:218-221 | The limit keeps a prefix, never empty when there is anything, that is as heavy as the limit or everything, and whose front alone is lighter |
| ToolLog.LimitRespectedExactly | scripts/tool_io.py:218-230 | What is yielded stays within the limit exactly when the limit is at least 1 and no answered call, counting twice, comes when one more is due; from a limit of 1 on it never exceeds it by more than one |
| ToolLog.CallLimitRespected | scripts/tool_io.py:371-374 | Counting calls, what is yielded stays within the limit exactly when the limit is at least 1 |
| ToolLog.LimitExamples | scripts/tool_io.py:218-230 | A limit of 0 lets one call through; counting results, a limit of 1 lets an answered call through, which counts twice |
| ToolLog.LeftIsOpen | scripts/tool_io.py:189-206 | The calls waiting are exactly those whose last event is the call itself, each id once |
| ToolLog.CallsConserved | scripts/tool_io.py:163-230 | Every call is answered once, still waiting, or replaced by a later call of its id, and no call is made up |
| ToolLog.EachCallOnce | scripts/tool_io.py:163-230 | With unanswered calls included a log yields each call once exactly when no id is used again while open |
| ToolPairs.PairsYielded | scripts/tool_io.py:163-217 | A log yields a call with a result exactly when the result is the first event of the call's id after it, among the wanted calls and results |
| ToolPairs.OpenYielded | scripts/tool_io.py:223-230 | A log yields a call without a result exactly when that is asked for and the call is the last event of its id |
| ToolPairs.EventsAre | scripts/tool_io.py:163-206 | The events paired are exactly the calls and results of the log whose tool is wanted |
| ToolPairs.YieldedAsMade | scripts/tool_io.py:163-230 | With unanswered calls included and no id used again while open, a log yields each call of a wanted tool as often as its messages make it, and no other call |
| ToolLog.TakeResult | scripts/tool_io.py:200-217 | A wanted result takes the open call of its id out of the waiting ones and yields the pair, or nothing when there is none |
| ToolLog.PutCalls | scripts/tool_io.py:178-197 | The wanted calls of a message join the waiting ones in order, replacing calls of the same id in place |
| EditBoundary.ParseEditBoundary | scripts/session-stats/harmony_backtest.py:422-523 | The pass over the line spans yields the boundary of the specification |
| EditBoundary.ParseLine | scripts/session-stats/harmony_backtest.py:432-510 | One line acts on the flags, the parsed end and the sections as specified |
| EditBoundary.KeptIsLongest | scripts/session-stats/harmony_backtest.py:422-523 | What the parsed end keeps is the longest prefix of whole lines that reads to its end with no insertion left open |
| EditBoundary.ReparseKept | scripts/session-stats/harmony_backtest.py:422-523 | The kept text is made of whole lines, is accepted when read again with the same parsed end, and has the same sections less an operation left open |
| EditBoundary.SameOpCount | scripts/session-stats/harmony_backtest.py:512-514 | Reading the kept text again counts the same operations exactly when no insertion was left open |
| EditBoundary.InsertionsKeepPayload | scripts/session-stats/harmony_backtest.py:490-498 | Every insertion line in the kept text is followed there by a line of payload |
| EditBoundary.AppendKeeps | scripts/session-stats/harmony_backtest.py:422-523 | Text appended after a complete line never lowers the parsed end, and the kept text stays kept |
| EditBoundary.CutIsSafe | scripts/session-stats/harmony_backtest.py:546-559 | The tail is cut exactly when the longest well-formed prefix holds the start of no leak; the cut text is that prefix |
| EditRoles.AcceptedExactly | scripts/session-stats/harmony_backtest.py:432-510 | Lines are read to their end exactly when none is out of place after the lines before it, told without the parser's flags: after an insertion only payload, an operation only in a section, in an operation every line that starts with no operation character is payload |
| EditRoles.SectionsExactly | scripts/session-stats/harmony_backtest.py:462-508 | The last section has the file of the last header and counts the operations, the payload and the deleted lines after it; the sections before it are those of the lines before |
| EditRoles.RoleStep | scripts/session-stats/harmony_backtest.py:432-510 | A line keeps the parser's flags in step with what the lines were read as, and moves the parsed end unless it is an insertion or an error |
| TextLines.SplitAppend | scripts/session-stats/harmony_backtest.py:292-303 | Lines of a text continued after a complete line end, not inside a carriage return and line feed, are the lines of its parts |
| TextLines.SplitPrefix | scripts/session-stats/harmony_backtest.py:292-303 | Cutting a text at a line end keeps exactly the lines before it |

## Left out

- Session sync: SQLite, transactions and file access; each database write is one step, as the source commits it. Row ids, entry ids, model and provider columns, columns derived from the path, tokenizer and schema version.
- Session sync: token counts are a function of the text (`Reader.tokens`); the source fills them in one final pass, the model where the row is made.
- Session sync: the edit sections of a call, the success and the warnings of a result are functions of the text (`Reader`); `parse_hashline_input` and `duplicated_anchors` are not modelled.
- IncrementalIsRebuild: in the runs a log is only appended to and read when it ends at a line end, as the equality needs; `ResumedLineCount` and `RebuildOfRewrittenLog` say what happens otherwise.
- Session sync: two syncs of one file at a time, and the deletion of files.
- getopts: diagnostics and OPTERR, readonly or array variables, variable scopes, option strings given as anything but characters. The target variable must differ from the variables that hold the state, arguments are no longer than 2^64 - 1, and there are fewer than 2^31 - 1 of them, so that OPTIND fits its 32 bits.
- read: terminal settings, prompts, timeouts as durations, cancellation, bytes that form no character, the REPLY variable and setting array variables.
- SplitLineByIfs: the line must be shorter than 2^64 - 1 characters, since no limit is written as that limit.
- LimitIsPrefix: ASCII input whose unlimited result has a text; the limit counts encoded bytes for other characters.
- mapfile: entries are bytes, not lossily decoded text; assigning them to the array, origins and callbacks are not modelled.
- Interval coverage: token and cost counts are reals instead of floating point; `candidate_grid`, the choice of a recommendation and the tables of `analyze` are not modelled.
- ReplayCalls: the counters split by the kind of a group's first call, and whether that call covers all later ones, are not in the tally.
- ReplayAll: the same counters and the group counts.
- ReplaySound: only for a line cap of at least 1; the source loops for ever otherwise.
- CI planning: task keys are tagged values and not strings, descriptions and commands are fixed by the key, affected packages are not sorted; git, environment variables, reading manifests and running commands are not modelled.
- PlanTasks: the push plan is not monotone in the changed paths by design, so nothing of the kind is stated.
- PushCoversExactly: which task stands for which is taken from the commands: the same command, the root check for a package's check, and a package's or the root test run for its test files.
- Longest repeat: the test for a meaningful line is any predicate, so the number of characters it asks for is not fixed.
- Reservoir: the generator is the list of indices it draws; that it draws them uniformly is not modelled.
- Edit boundary: how a line is recognised is any classifier with insertion lines apart from headers (`Lawful`); the older edit format is a function of the text, and the search for leak signals a list of positions.
- Tool logs: reading files and JSON, thinking text, timestamps, path hints and result details; a log is the list of its messages' calls and results.
