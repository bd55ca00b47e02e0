# Royells: storage, migration and media-inspection core

A Dafny model of the self-contained algorithms of the Royells bot's adapters, with proofs of what
they promise over all inputs and all runs. `dafny verify dfyconfig.toml` checks the project.

| part | files | what is proved |
|---|---|---|
| SQL lexers | `SqlTokens`, `SqlLexers`, `SqlLaws`, `SqlQuotes` | Both character machines compute a token-level reference. Translated text lexes to a stated image of the source's tokens, cutting at top-level semicolons and stripping move no token boundary, and the second translation that the adapter makes changes nothing exactly when a script has no top-level `??`. What opens and ends a literal, comment or dollar-quoted body is stated in the characters themselves, for every way a text can begin. |
| MP4 readers | `Mp4Boxes`, `Mp4Parser`, `Mp4Exact`, `Mp4RoundTrip`, `Mp4TopLevel`, `IsoValidator`, `Mp4Agreement`, `Mp4Places`, `Mp4Files`, `Mp4Examples` | The bounded three-level parser ends without a warning exactly on the movie boxes an unbounded, stateless reference reads in full within the limits, and then reports what the reference reports. Written movies read back, and so do written files of any size, with the exact conditions under which the bounded probe calls them complete. The worker's validator is characterised exactly and agrees with the probe on the movie box. Where the probe's movie box stands, and when it is the file's own, is stated exactly. |
| Migrations | `MigrationScripts`, `MigrationText`, `MigrationLoader`, `MigrationLedger`, `MigrationProtocol`, `MigrationSafety`, `MigrationPrefix`, `MigrationRace`, `MigrationManager` | Over every interleaving of upgraders and downgraders with crashes anywhere the dirty marker is a mutex and rows tell the truth about the schema. Which sets of runners can leave a gap in the applied versions is decided exactly. One runner's upgrade and downgrade are computed exactly, failing scripts included, and undo each other. Include expansion refuses exactly the scripts without a finite expansion inside the root, its result is stated in lines, and what loading accepts is stated on the files. |
| Leased queue | `LeasedQueue`, `QueueRuns`, `QueueHistory` | The table is a function of the log of outcomes, every column of it and every lease in plain times; leases exclude, stale workers are shut out, draining is sorted and complete. |
| JSON store and journal | `JsonStore`, `JsonCrashes`, `JsonRevisions`, `MigrationJournal`, `JournalHistory` | Every save is atomic at every crash point, over whole runs; revisions grow over the lives of any number of processes, with the exact exceptions; the journal's file says what the log of its operations says. |
| Smaller machines | `ReplayWindow`, `NestedTransactions` with `TransactionLaws`, `LogicalBackup`, `ServiceContainer`, `BatchWriter` | A whole-run theorem each: sliding window, stack of snapshots, backup round trip, topological creation and closing, conservation and order of rows. |

Code that changes things step by step is modelled by classes and loops, each proved to compute a
function of its inputs and the old state; the promises are then proved about those functions.
Engine calls, renames and unlinks are single atomic steps that may be the last one before a crash;
clocks, temporary file names and failures are parameters.

## What the proofs found

Each of these is stated with the exact condition under which it happens, for all inputs, and where the
condition alone does not show one, with an input.

- A top-level `??` is written as `?` by the first translation and as `%s` by the second one, so the
  escape does not reach the database in migration scripts (`SqlLaws.StatementsAreStable`,
  `SqlLaws.EscapeIsLost`).
- A movie box whose size is left open is measured against the head window and not the file. Where it runs
  past the window it is reported whole exactly when the part inside the window reads in full: a movie that
  is cut between two of its boxes is complete and without a warning (`Mp4Places.CutMovieReported`,
  `Mp4Files.OpenMoovCutSilently`, `Mp4Examples.SmallestOpenMovie`).
- A file longer than the probe with its movie box at the end is complete only when the head scan happens to
  stop less than eight bytes before the end of its window or at its box limit. Otherwise the media box that
  runs past the window makes it incomplete, although duration and sizes are found
  (`Mp4Files.TailRoundTrip`, `Mp4Examples.LateMovieIncomplete`).
- For a movie box found by the head scan `moov_at_end` is right exactly when the box is the first thing
  in the file or does not end it; in a recognised file it is never true (`Mp4Places.HeadMoovAtEnd`,
  `Mp4Examples.SmallestLastMovie`).
- A complete inspection may rest on bytes inside other data that read as a movie box, when the head scan
  finds none (`Mp4Places.TailMoovIsOwn`, `Mp4Examples.StrayMovieBox`).
- Of the statements of a script that begin with BEGIN, START, COMMIT, END, ROLLBACK or ABORT all reach the
  database inside the runner's transaction but those that are BEGIN or COMMIT and nothing else, comments
  included (`MigrationScripts.ControlSent`, `MigrationScripts.SentControls`). So a COMMIT behind a comment
  does, and so does COMMIT WORK (`MigrationScripts.HiddenCommit`, `MigrationScripts.CommitWork`).
- An edited down script is not noticed by `verify` as long as it does not become blank
  or stop being so (`MigrationLoader.EditsSeen`).
- Upgrades and downgrades that run side by side can leave a gap in the applied versions, with every row
  clean, exactly when one goes up past a version that the other goes down below without an irreversible
  version in its way (`MigrationRace.GapExactly`); both may return normally
  (`MigrationRace.BothReturn`, `MigrationRace.RaceLeavesGap`).
- `save` over an unreadable primary and a readable previous file loses both in a crash between the two
  renames, and in no other case; `delete` is not crash-atomic where there is a previous file; the names
  `x` and `x.previous` share a file (`JsonCrashes.CrashBetweenRenames`, `DeleteIsNotAtomic`,
  `SharedFiles`).
- A save whose directory sync raises has put its file in place all the same, and the next save of that
  process repeats the revision exactly when the process knew one before; a process that saves without
  restoring after a crash between the renames starts again at one (`JsonRevisions.RepeatedRevision`,
  `JsonRevisions.UnreadRevision`).
- A COMMIT or ROLLBACK of the outermost transaction that raises lets go of the lock and leaves the
  depth at one; no other thread can begin until the transaction is ended, and ending it again raises
  although it succeeds (`TransactionLaws.CommitKeeps`, `RollbackKeeps`, `StuckThread`, `LateCommit`).
- Queue ownership goes by worker name, and `peek` does not see expired reservations
  (`QueueRuns.OnlyTheHolderWorks`, `QueueRuns.SameNameAcks`, `QueueRuns.PeekMissesExpired`).
- The replay guard admits a signed request twice in some run exactly when the time to live is below twice
  the skew, one second more and the lag between the freshness check and the claim; the defaults, 600 and
  300 seconds, are below it even without a lag (`ReplayWindow.TwiceExactly`).
- `restore` counts and inserts rows that stand behind the footer, which the checksum does not cover; the
  footer may stand anywhere behind the header (`LogicalBackup.DigestCoversRows`,
  `LogicalBackup.FooterAnywhere`, `LogicalBackup.RowBehindFooter`).

## Model

| member | source | states |
|---|---|---|
| SqlTokens.ThroughIsFirst | royells_v20_postgres/sql.py:91-113 | A comment or dollar-quoted body of the reference ends at the first occurrence of its closing delimiter, or with the text where there is none. |
| SqlLexers.TranslateQmark | royells_v20_postgres/sql.py:21-114 | The six-state translator equals the rendering of the reference tokens, for every text. |
| SqlLexers.SplitSqlStatements | royells_v20_postgres/sql.py:117-188 | The splitter equals the stripped, non-empty segments between the top-level semicolons of the translated text. |
| SqlLexers.TranslateNormal | royells_v20_postgres/sql.py:37-72 | Outside literals the translator makes the shared move of both machines, and writes something else only for question marks. |
| SqlLexers.TranslateInside | royells_v20_postgres/sql.py:73-113 | Inside literals and comments it copies, and closes where the shared move closes. |
| SqlLexers.SplitNormal | royells_v20_postgres/sql.py:129-151 | The splitter's moves outside literals are the same shared moves, so its state agrees with the translator's. |
| SqlLexers.SplitInside | royells_v20_postgres/sql.py:159-184 | And so are its moves inside them. |
| SqlLaws.RelexTranslated | royells_v20_postgres/sql.py:66-70 | Lexing translated text gives exactly the stated image of the source's tokens, neighbouring escapes included. |
| SqlLaws.TranslateKeepsOpaqueTokens | royells_v20_postgres/sql.py:21-114 | Every literal, quoted identifier, comment and dollar-quoted body survives translation, in order. |
| SqlLaws.TranslateFixpoint | royells_v20_postgres/sql.py:66-71 | The translator leaves a text alone exactly when it has no top-level question mark. |
| SqlLaws.TranslateTwice | royells_v20_postgres/adapter.py:368-369 | Translating twice equals translating once exactly when there is no top-level `??`. |
| SqlLaws.SegmentsJoin | royells_v20_postgres/sql.py:152-158 | The segments joined by `;` are the text they were cut from. |
| SqlLaws.CuttingKeepsTokens | royells_v20_postgres/sql.py:126-184 | Cutting moves no token boundary: the segments' tokens, with `;` between, are the text's tokens, and none holds a top-level `;`. |
| SqlLaws.StripKeeps | royells_v20_postgres/sql.py:153-185 | Stripping a segment, even inside an unfinished comment or literal, keeps its top-level markers. |
| SqlLaws.StatementsAreSingle | royells_v20_postgres/sql.py:117-188 | Every statement is not empty, is trimmed, and splits into the one translation of itself. |
| SqlLaws.StatementsAreStable | royells_v20_postgres/migrations.py:152-158 | All statements split into just themselves, and are left alone by the translation in execute, exactly when the script has no top-level `??`. |
| SqlLaws.EscapeIsLost | royells_v20_postgres/adapter.py:537-542 | The smallest script that shows it: an escaped question mark ends as a bind parameter. |
| SqlQuotes.DollarBody | royells_v20_postgres/sql.py:58-65 | Two dollar signs with letters, digits, underscores or nothing between them open a body that ends with the next occurrence of the same tag, or with the text: it is neither changed nor cut, and what follows is read afresh. |
| SqlQuotes.DollarStatement | royells_v20_postgres/sql.py:144-182 | Such a body is one statement and is left as it is, whatever semicolons and question marks it holds. |
| SqlQuotes.Quoted | royells_v20_postgres/sql.py:48-90 | Text between single or double quotes runs to the first quote that is not doubled, or to the end, and is kept in the same way. |
| SqlQuotes.LineComment | royells_v20_postgres/sql.py:38-42 | So does a comment behind two dashes, to the end of its line. |
| SqlQuotes.BlockComment | royells_v20_postgres/sql.py:43-47 | And one behind a slash and a star, to the first star and slash after them. |
| SqlQuotes.Ordinary | royells_v20_postgres/sql.py:58-71 | Every other character stands for itself: a dash before no dash, a slash before no star, a dollar sign behind which no tag is finished. |
| SqlQuotes.Questions | royells_v20_postgres/sql.py:66-70 | A question mark is written as `%s`, two of them as `?`, and neither ends a statement. |
| SqlQuotes.Semicolon | royells_v20_postgres/sql.py:152-158 | A semicolon outside of all these ends the statement. |
| SqlQuotes.StripOf | royells_v20_postgres/sql.py:153 | Stripping takes the blanks of a written-out list of twenty-nine from both ends and nothing else. |
| SqlQuotes.PlainStatement | royells_v20_postgres/sql.py:117-188 | Of a statement of plain text the blanks around it go; the statements behind its semicolon follow in order, and a blank one is none. |
| Mp4Parser.BoxHeader | royells_compute_helper.py:623-634 | A header depends on nothing outside its window; size 0 means the rest of the window, size 1 a 64-bit size. |
| Mp4Parser.Mp4State.ParseMvhd | royells_compute_helper.py:760-783 | The new state for every payload: both versions, short payloads, unknown versions and a zero timescale. |
| Mp4Parser.Mp4State.ParseTkhd | royells_compute_helper.py:786-800 | Size or none, and the warning, for every payload. |
| Mp4Parser.Mp4State.ParseHdlr | royells_compute_helper.py:803-808 | Handler or none, and the warning, for every payload. |
| Mp4Parser.Mp4State.ParseMdiaHandler | royells_compute_helper.py:727-757 | Result and state are a function of the bytes of the mdia payload and the shared state alone. |
| Mp4Parser.Mp4State.ParseTrak | royells_compute_helper.py:683-724 | The same for a track; the last tkhd wins, the last mdia with a handler wins, and a track that ends early adds no size. |
| Mp4Parser.Mp4State.ParseMoovChildren | royells_compute_helper.py:646-680 | The same for the children of the movie box, with the box budget shared by all three loops. |
| Mp4Parser.Mp4State.ParseMoov | royells_compute_helper.py:637-643 | A byte string that is not exactly one moov box is refused with a warning. |
| Mp4Exact.MoovKeeps | royells_compute_helper.py:646-680 | On every byte string the box count stays at or below the limit, warnings only grow, and an incomplete parse has warned. |
| Mp4Exact.MdiaExact | royells_compute_helper.py:727-757 | No warning exactly when the payload is tiled, every hdlr is readable and the boxes fit the budget; then handler and state are the reference's. |
| Mp4Exact.TrakExact | royells_compute_helper.py:683-724 | The same for a track, nested mdia boxes and the nesting limit included. |
| Mp4Exact.MoovExact | royells_compute_helper.py:646-680 | The same for the movie box. |
| Mp4Exact.ParserExact | royells_compute_helper.py:637-757 | The whole parser warns of nothing exactly when the unbounded reference reads the movie box within the limits, and then its duration, sizes and box count are the reference's; it never truncates silently. |
| Mp4Exact.ParserFrame | royells_compute_helper.py:637-757 | Warnings given before do not change what is read, and are never lost. |
| Mp4RoundTrip.TileEncoded | royells_compute_helper.py:623-634 | Any boxes, written in 32-bit, 64-bit or to-the-end form, tile their encoding. |
| Mp4RoundTrip.MovieRoundTrip | royells_compute_helper.py:637-808 | A written movie (versions 0 and 1, other boxes anywhere) parses without a warning exactly when it is within the box budget and the nesting limit, and then to its own duration ratio and the sizes of its `vide` tracks in order. |
| Mp4TopLevel.ScanHeadTopLevel | royells_compute_helper.py:551-586 | Brand, movie box and the partial flag of the head scan, for every head. |
| Mp4TopLevel.FindTailMoov | royells_compute_helper.py:589-620 | Box, end flag and warning of the search, for every tail. |
| Mp4TopLevel.TailIsFirst | royells_compute_helper.py:599-619 | The search ends at the first position whose bytes announce a movie box that lies inside the file and is too large or inside the tail; it gives the box unless it is too large, and nothing where there is no such position. |
| Mp4TopLevel.TailLastWarning | royells_compute_helper.py:598-620 | Where there is none, the warning is that of the last position that gives one. |
| Mp4TopLevel.BrandExactly | royells_compute_helper.py:811-818 | Four printable ASCII bytes are a brand, such as `isom` and `qt` with two blanks; anything else is none. |
| Mp4TopLevel.WindowsExactly | royells_compute_helper.py:544-548 | A file within the bound is read whole; otherwise head and tail share the bound out evenly, the tail having the odd byte. |
| Mp4TopLevel.ProbeEndsEarly | royells_compute_helper.py:486-498 | Fewer than eight bytes are complete and nothing; a failed or short read is incomplete, and its warning says which. |
| Mp4TopLevel.Distinct | royells_compute_helper.py:821-826 | No duplicates, and exactly the values given. |
| Mp4TopLevel.DeduplicateDimensions | royells_compute_helper.py:821-826 | The sizes in the order of their first occurrence. |
| Mp4TopLevel.InspectMp4 | royells_compute_helper.py:479-541 | The whole inspection record, for every file, all limits, and reads that fail or come back short. |
| IsoValidator.InspectIsoBmff | royells_v21_micro_workers.py:600-680 | The validator's whole report, for every file. |
| IsoValidator.ValidatedExactly | royells_v21_micro_workers.py:601-609 | Valid exactly when the file is tiled by at most 512 ASCII-typed boxes with ftyp, mdat and moov or moof; indeterminate exactly when 512 parse and bytes are left. |
| Mp4Agreement.InspectionIsSound | royells_compute_helper.py:529-541 | A recognised file is complete exactly when nothing was warned about, and only after a movie box inside the file was read in full; duration and sizes are then the reference's. |
| Mp4Agreement.LocatedMoov | royells_compute_helper.py:500-516 | The movie box handed to the parser is a slice of the file and announces its own length. |
| Mp4Agreement.ScannersAgree | royells_v21_micro_workers.py:600-680 | Where the validator says valid, the probe that sees the whole file takes exactly the first moov box and finds one exactly when the validator did. |
| Mp4Agreement.HeadInFile | royells_compute_helper.py:551-586 | The movie box seen through a head window is the file's first one exactly when its size field is not zero or the window is the whole file. |
| Mp4Places.HeadMoovAtEnd | royells_compute_helper.py:524-525 | Where the head-found movie box stands in the file, and that `moov_at_end` says whether it ends the file exactly when it is the first thing in the file or does not end it; in a recognised file it says no. |
| Mp4Places.LocatedWhere | royells_compute_helper.py:500-516 | A movie box that is not found by the head scan stands in the tail at the place the search ends at. |
| Mp4Places.TailMoovIsOwn | royells_compute_helper.py:589-620 | The box of the tail search is the first top-level movie box of the file exactly when that box begins in the tail and nothing before it there reads as one. |
| Mp4Places.HeadMoovIsOwn | royells_compute_helper.py:551-586 | The box of the head scan stands where the file's own first movie box does, and is that box exactly when its size is written out or the window is the whole file. |
| Mp4Places.HeadComplete | royells_compute_helper.py:518-529 | A recognised file whose movie box the head scan finds is complete exactly when the bytes of that box inside the window are within the parser limit and read in full by the reference. |
| Mp4Places.CutMovieReported | royells_compute_helper.py:568-584 | It is complete although that is not its whole movie box exactly when, besides, the size of the box was left open and the window ends before the file does. |
| Mp4Files.FileRoundTrip | royells_compute_helper.py:479-541 | A written file of any size, with any boxes in any forms and its movie box inside the head window: its brand, and that it is complete with the movie's duration and sizes exactly when the scan comes as far as the movie and that is within the limits. |
| Mp4Files.HeadBehind | royells_compute_helper.py:565-586 | What the head scan makes of a written file whose movie box it does not reach: it ends early exactly where a box that it may visit is cut off with eight or more bytes in the window. |
| Mp4Files.TailRoundTrip | royells_compute_helper.py:500-541 | A written file longer than the probe with its movie box in the tail: duration, sizes and end flag are the movie's, and it is complete exactly when besides the head scan did not end early. |
| Mp4Files.LastMovieNotAtEnd | royells_compute_helper.py:524-525 | Every written file within the probe that ends with its movie box is reported not to, unless it is nothing else. |
| Mp4Files.OpenMoovCutSilently | royells_compute_helper.py:568-584 | Written files whose open movie box runs past the window that ends between two of its boxes: complete, with the part's duration and sizes, exactly when the part is within the limits. |
| Mp4Examples.SmallestOpenMovie | royells_compute_helper.py:632-633 | A movie of one second so reported complete and without a duration. |
| Mp4Examples.SmallestLastMovie | royells_compute_helper.py:524-525 | Twenty bytes that end with their movie box and are reported not to. |
| Mp4Examples.LateMovieIncomplete | royells_compute_helper.py:497-529 | A file of 81 bytes with its movie behind the media data: the duration is found, and it is incomplete. |
| Mp4Examples.StrayMovieBox | royells_compute_helper.py:589-620 | A file without a movie box whose inspection is complete and without warnings. |
| MigrationScripts.ReadScript | royells_v20_postgres/migrations.py:84-109 | The expansion with the record of files under way, its errors in the order of the code; it terminates for every directory. |
| MigrationScripts.ReadExactly | royells_v20_postgres/migrations.py:87-94 | A script is read exactly when no chain of includes from it leaves the root, meets a missing file or comes back to a file on the chain. |
| MigrationScripts.ReadsTheUnfolding | royells_v20_postgres/migrations.py:92-109 | It is read to a text exactly when the unlimited replacement of include lines, which keeps no record, ends with that text. |
| MigrationText.IncludeExactly | royells_v20_postgres/migrations.py:97-104 | A line is an include line exactly when `\ir` or `\i` and a blank stand behind nothing but blanks and something that is no blank follows. |
| MigrationText.IncludeNamed | royells_v20_postgres/migrations.py:99-100 | The file it includes: blanks around the name go, then quotes around it. |
| MigrationText.TextIsItsLines | royells_v20_postgres/migrations.py:95-108 | Cut at its newlines the text of a file is its lines, with the lines of each included text in the place of its include line, and an empty piece at the end. |
| MigrationText.PlainFile | royells_v20_postgres/migrations.py:95-108 | A file without an include line is read as it stands. |
| MigrationScripts.ExecuteScript | royells_v20_postgres/migrations.py:152-158 | What reaches the driver and the number of statements reported, for every script. |
| MigrationText.LeftOut | royells_v20_postgres/migrations.py:155-157 | What is left out are the statements that spell BEGIN or COMMIT in letters of either case, blanks aside; every other reaches the driver in its place. |
| MigrationScripts.SentAsSplit | royells_v20_postgres/migrations.py:152-158 | The statements reach the database as they were split exactly when the script has no top-level `??`; no bare BEGIN or COMMIT does, not even one that translation made. |
| MigrationScripts.RecognisedExactly | royells_v20_postgres/migrations.py:155-156 | Of the statements that come to BEGIN or COMMIT in the database, the code recognises exactly those without a comment. |
| MigrationScripts.VerbTranslated | royells_v20_postgres/adapter.py:368-369 | The translation in execute changes no word that a statement begins with. |
| MigrationScripts.ControlSent | royells_v20_postgres/migrations.py:152-158 | A statement that begins with BEGIN, START, COMMIT, END, ROLLBACK or ABORT is dropped exactly when it is BEGIN or COMMIT and has neither another word nor a comment with it; otherwise its translation is sent. |
| MigrationScripts.SentControls | royells_v20_postgres/migrations.py:152-158 | And what is sent and begins with such a word is the translation of one of those. |
| MigrationScripts.CommitWork | royells_v20_postgres/migrations.py:155-156 | COMMIT WORK is sent. |
| MigrationScripts.HiddenBoundaries | royells_v20_postgres/migrations.py:152-158 | Of the statements that come to the bare word BEGIN or COMMIT exactly those with a comment are sent. |
| MigrationScripts.SendsBoundary | royells_v20_postgres/migrations.py:152-158 | A script sends such a bare word exactly when one of its statements comes to one and is not recognised. |
| MigrationScripts.HiddenCommit | royells_v20_postgres/migrations.py:155-156 | The smallest family: a COMMIT on the line below a comment is sent as it stands. |
| MigrationLoader.Group | royells_v20_postgres/migrations.py:51-58 | Reads every migration file or fails with the first that cannot be read; of two files for one side the later stands. |
| MigrationLoader.Listed | royells_v20_postgres/migrations.py:59-75 | One migration for each group, in the order of versions, exactly when every group has an up script. |
| MigrationLoader.Load | royells_v20_postgres/migrations.py:50-82 | Which of the four errors is raised, or the migrations, by conditions on the files alone; the result is contiguous. |
| MigrationLoader.LoadedStands | royells_v20_postgres/migrations.py:55-75 | A loaded migration has the number, the name and the texts of its own files, the last of a side, and an empty down script without a down file. |
| MigrationLoader.FileIsLoaded | royells_v20_postgres/migrations.py:58-59 | Every file belongs to a loaded migration. |
| MigrationLoader.RecordExactly | royells_v20_postgres/migrations.py:30-32 | A migration is reversible exactly when its down script holds a character that is no blank. |
| MigrationLoader.EditsSeen | royells_v20_postgres/migrations.py:181-205 | After an edit of the files verify accepts exactly when every applied version keeps its name, its expanded up script and whether it can be reversed. |
| MigrationLedger.MarkingExactly | royells_v20_postgres/migrations.py:218-372 | The marker put by the first transaction is found by the second one, which makes a clean row of it or removes it; what each raises, for any row. |
| MigrationSafety.StepKeeps | royells_v20_postgres/migrations.py:207-379 | Every step of every runner, crashes and script failures included, keeps the invariant of markers and schema. |
| MigrationSafety.MarkerIsAMutex | royells_v20_postgres/migrations.py:215-300 | In every run at most one live runner has marked a version and not finished it; a clean row's script is fully in effect, an absent row's fully absent. |
| MigrationSafety.MarkerIsNeverLost | royells_v20_postgres/migrations.py:262-282 | The second transaction never finds its marker missing or changed. |
| MigrationSafety.StopOrphans | royells_v20_postgres/migrations.py:215-217 | A runner that dies or fails after marking a version leaves a dirty row nobody owns. |
| MigrationSafety.LaterUpgradesStandStill | royells_v20_postgres/migrations.py:181-188 | Such a row stays, and no upgrader that starts later marks a version or runs a script. |
| MigrationSafety.VisitsExactly | royells_v20_postgres/migrations.py:211-213 | An upgrader visits exactly its local versions up to the target, ascending. |
| MigrationSafety.ReturnsVerified | royells_v20_postgres/migrations.py:301-302 | An upgrader of any run returns only where every row is clean and that of one of its own migrations. |
| MigrationPrefix.UpgradesKeepPrefix | royells_v20_postgres/migrations.py:207-302 | With upgraders of one set of migrations the applied versions are at every moment a prefix of the local ones. |
| MigrationRace.GapExactly | royells_v20_postgres/migrations.py:207-379 | For any runners of one set of migrations from verified rows without a gap: some run with crashes and failures anywhere has a gap exactly when some local version, not the last, lies below an upgrader's target and above a downgrader's, and it and all applied ones above it are reversible; and then a run has one with all rows clean. |
| MigrationRace.OneDirectionLeavesNoGap | royells_v20_postgres/migrations.py:207-379 | Upgraders alone and downgraders alone never leave a gap. |
| MigrationRace.BothReturn | royells_v20_postgres/migrations.py:207-379 | Where the two cross and every version above the downgrader's target that is or gets applied is reversible, both may return normally, verification included, and leave the gap. |
| MigrationRace.RaceLeavesGap | royells_v20_postgres/migrations.py:304-379 | The smallest such race: two of three versions applied, one runner goes up and one down to one. |
| MigrationManager.Manager.Verify | royells_v20_postgres/migrations.py:181-205 | Nothing wrong exactly when every row is clean and matches its local migration; otherwise the first version that is wrong and what is. |
| MigrationManager.FaultExactly | royells_v20_postgres/migrations.py:183-205 | Each of the five faults exactly, by the row and the local migration, in their order. |
| MigrationManager.Manager.Upgrade | royells_v20_postgres/migrations.py:207-302 | From verified rows it returns exactly the missing versions up to the target and leaves them applied and verified; where a script fails, the versions before it are applied and its marker stays dirty; from other rows it raises what verify does and changes nothing. |
| MigrationManager.Manager.Downgrade | royells_v20_postgres/migrations.py:304-379 | Rows, schema, versions removed and whether it raised, for any rows, with scripts that fail. |
| MigrationManager.DowngradedExactly | royells_v20_postgres/migrations.py:304-379 | A downgrade raises exactly when an applied version above the target is not local, irreversible, dirty or of another checksum; it removes exactly the versions above all such and above the target, the greatest first, and leaves the other rows. |
| MigrationManager.KeysDescend | royells_v20_postgres/migrations.py:308 | The versions a downgrade visits come with the greatest first. |
| MigrationManager.KeysDescending | royells_v20_postgres/migrations.py:308 | The versions a downgrade visits are exactly the applied ones. |
| MigrationManager.MissingExactly | royells_v20_postgres/migrations.py:210-242 | The versions an upgrade returns are ascending and are exactly the local ones up to the target that were not applied. |
| MigrationManager.SecondUpgradeIsEmpty | royells_v20_postgres/migrations.py:207-302 | A second upgrade returns nothing and changes nothing. |
| MigrationManager.DowngradeUndoesUpgrade | royells_v20_postgres/migrations.py:304-379 | Upgrading to a version and downgrading to k leaves the rows and the schema of upgrading to k, where each down script undoes its up script. |
| LeasedQueue.Queue.ClaimAny | royells_v20_core/adapters/sqlite_queue.py:110-174 | dequeue takes one of the first eligible rows in the order of the query, or nothing exactly when none is eligible. |
| LeasedQueue.Queue.ClaimOne | royells_v20_core/adapters/sqlite_queue.py:139-174 | reserve succeeds exactly on a pending available row or an expired reservation, and leases it. |
| LeasedQueue.Queue.Enqueue | royells_v20_core/adapters/sqlite_queue.py:203-231 | An id that is present is left alone. |
| LeasedQueue.Queue.Peek | royells_v20_core/adapters/sqlite_queue.py:259-274 | A first pending row, or nothing exactly when none is pending. |
| LeasedQueue.Queue.Ack | royells_v20_core/adapters/sqlite_queue.py:281-295 | Deletes and returns true exactly when the row is reserved, by the named worker if one is named. |
| LeasedQueue.Queue.Release | royells_v20_core/adapters/sqlite_queue.py:345-376 | nack and retry: back to pending under the same condition, with the delay. |
| LeasedQueue.Queue.Heartbeat | royells_v20_core/adapters/sqlite_queue.py:446-472 | Extends the lease exactly for the worker named on it. |
| LeasedQueue.Queue.Clear | royells_v20_core/adapters/sqlite_queue.py:402-411 | Empties the queue and counts what was there. |
| QueueRuns.TableIsItsLog | royells_v20_core/adapters/sqlite_queue.py:123-172 | In every run an item is present from its insertion to an ack or clear, its lease is the last one given and not taken back, and attempts is the number of claims since insertion. |
| QueueRuns.LeaseExcludes | royells_v20_core/adapters/sqlite_queue.py:124-151 | While an item's latest lease runs no claim of it succeeds. |
| QueueRuns.OnlyTheHolderWorks | royells_v20_core/adapters/sqlite_queue.py:281-376 | ack, nack and heartbeat succeed exactly for the worker named on the latest lease, and otherwise change nothing. |
| QueueRuns.ReclaimShutsOut | royells_v20_core/adapters/sqlite_queue.py:446-472 | After another worker's claim nothing the old worker does takes effect until it claims again. |
| QueueRuns.ReserveMatchesDequeue | royells_v20_core/adapters/sqlite_queue.py:139-151 | With a clock that does not run back, reserve succeeds exactly on the items dequeue may choose from. |
| QueueRuns.DrainIsSorted | royells_v20_core/adapters/sqlite_queue.py:134-135 | Dequeues at one instant return distinct eligible items; priorities never rise along them, and among equals neither availability nor, that being equal too, creation falls. |
| QueueRuns.DrainIsComplete | royells_v20_core/adapters/sqlite_queue.py:152-154 | When no more is got they have returned all of them. |
| QueueRuns.PeekMissesExpired | royells_v20_core/adapters/sqlite_queue.py:264-272 | peek finds nothing where dequeue would exactly when every eligible item is an expired reservation. |
| QueueRuns.SameNameAcks | royells_v20_core/adapters/sqlite_queue.py:282-286 | A run in which a process acknowledges the lease of another of the same name. |
| QueueHistory.LeaseLasts | royells_v20_core/adapters/sqlite_queue.py:118-151 | In every run a lease lasts for the time asked for and a second at least: until then no claim of the item succeeds, and from then on reserve does, and dequeue may choose it if the clock does not run back. |
| QueueHistory.WaitingIsClaimable | royells_v20_core/adapters/sqlite_queue.py:124-151 | An item put in or put back can be claimed, and be seen by peek, exactly from its time on. |
| QueueHistory.InsertedColumns | royells_v20_core/adapters/sqlite_queue.py:215-229 | Payload, priority and creation time are those of the insertion until the item is removed. |
| QueueHistory.InsertedAvailability | royells_v20_core/adapters/sqlite_queue.py:215-229 | Until it is first released it is available at the time it was inserted for, without an error. |
| QueueHistory.ReleasedAvailability | royells_v20_core/adapters/sqlite_queue.py:352-369 | Then at the time of its last release and the delay, no delay being negative, with the first thousand characters of the error. |
| QueueHistory.LastUpdate | royells_v20_core/adapters/sqlite_queue.py:155-163 | Its last update is the last outcome that concerned it. |
| QueueHistory.UnnamedWork | royells_v20_core/adapters/sqlite_queue.py:281-295 | Without a worker's name ack and nack succeed exactly while some lease has not been taken back. |
| JsonStore.JsonRuntime.AtomicWrite | royells_v20_core/adapters/json_runtime.py:93-124 | The directory after every number of steps of the write, for a process that dies there and for one that raises and unlinks its temporary file. |
| JsonStore.JsonRuntime.Save | royells_v20_core/adapters/json_runtime.py:154-167 | The revision written and remembered, and the directory, at every crash point, the sync of the directory included. |
| JsonStore.JsonRuntime.Restore | royells_v20_core/adapters/json_runtime.py:180-196 | Primary if readable, else previous if readable, else an error if there is a file; and the revision remembered. |
| JsonStore.JsonRuntime.Delete | royells_v20_core/adapters/json_runtime.py:169-175 | The directory after every number of unlinks, and the revision forgotten. |
| JsonStore.NamesExactly | royells_v20_core/adapters/json_runtime.py:23 | Which names are accepted; their files lie in the directory itself. |
| JsonStore.RestoredExactly | royells_v20_core/adapters/json_runtime.py:126-196 | What restoring gives, by what the two files of the name hold: a good envelope its payload and revision, a document without one itself under revision zero. |
| JsonCrashes.AttemptIsAtomic | royells_v20_core/adapters/json_runtime.py:112-118 | At every step of a save, restoring gives the state before it or, after the last rename, the new one. |
| JsonCrashes.RestoreAfterCrashes | royells_v20_core/adapters/json_runtime.py:93-143 | Over every run of saves cut off anywhere, restoring gives the last save that got to its last rename, never an error or a mixture. |
| JsonCrashes.PreviousGeneration | royells_v20_core/adapters/json_runtime.py:180-196 | After a completed save, losing the primary alone gives the generation before back. |
| JsonCrashes.CrashBetweenRenames | royells_v20_core/adapters/json_runtime.py:114-116 | On any directory, a crash between the renames loses the state exactly when the primary was unreadable and the previous file readable. |
| JsonCrashes.DeleteIsNotAtomic | royells_v20_core/adapters/json_runtime.py:172-174 | A delete cut off in the middle brings the previous generation back exactly when there is one. |
| JsonCrashes.SharedFiles | royells_v20_core/adapters/json_runtime.py:55-59 | Two names share a file exactly when one is the other with `.previous` behind it. |
| JsonCrashes.SaveLeavesOthers | royells_v20_core/adapters/json_runtime.py:93-124 | A save leaves the state of every name that shares no file with it alone. |
| JsonCrashes.NewestKeepsOrder | royells_v20_core/adapters/json_runtime.py:187-191 | A save above every revision on disk leaves the files in order wherever it is cut off. |
| JsonCrashes.RevisionsRestart | royells_v20_core/adapters/json_runtime.py:157-161 | A process that saves without restoring after a crash between the renames starts at one again. |
| JsonRevisions.RevisionsRise | royells_v20_core/adapters/json_runtime.py:154-191 | Over the lives of any number of processes that restore before they save, with saves cut off or failing anywhere, the files stay in order and each process knows of every revision on disk. |
| JsonRevisions.EverySaveIsNewest | royells_v20_core/adapters/json_runtime.py:154-167 | So every save of such a run writes a revision above every revision on disk. |
| JsonRevisions.RepeatedRevision | royells_v20_core/adapters/json_runtime.py:116-120 | After a save that fails once its file is in place the next one repeats the revision exactly when the process knew one before. |
| JsonRevisions.UnreadRevision | royells_v20_core/adapters/json_runtime.py:157-161 | The revision of a process that has not restored is above all on disk exactly when there is a primary or no numbered previous file. |
| MigrationJournal.Journal.LoadAll | royells_v20_core/migration.py:35-43 | The stored document, empty where there is none, an error where it is unreadable or of another shape. |
| MigrationJournal.Journal.Apply | royells_v20_core/migration.py:50-123 | The directory after any operation stopped at any step, and what it returns or raises; one that raises before its save writes nothing. |
| MigrationJournal.AppliedAtomically | royells_v20_core/migration.py:45-48 | Stopped anywhere, an operation leaves the document before or after it, under a revision above all on disk, whatever the process knew. |
| MigrationJournal.Journal.ListOpen | royells_v20_core/migration.py:130-137 | Exactly the entries whose status is running. |
| MigrationJournal.JournalRun | royells_v20_core/migration.py:45-123 | Over every run of any number of processes the directory holds the document that the operations which got to their last rename make. |
| MigrationJournal.OpenEntriesSurvive | royells_v20_core/migration.py:104-137 | An open entry stays open in every run in which it is not itself completed. |
| JournalHistory.EntryIsItsLog | royells_v20_core/migration.py:50-123 | Over every run the file says of an entry its last begin, the mismatches and metadata added since in order, the status of the last complete since and running without one, and cursor and counts of the last checkpoint since. |
| JournalHistory.FileHoldsBegun | royells_v20_core/migration.py:50-69 | It holds exactly the entries that it held at first or that were begun. |
| JournalHistory.EntryUntouched | royells_v20_core/migration.py:80-123 | An entry on which nothing took effect is unchanged. |
| JournalHistory.OpenIsItsLog | royells_v20_core/migration.py:130-137 | An entry is open exactly when the last begin or complete of it was a begin. |
| MigrationJournal.JournalFile | royells_v20_core/migration.py:27-43 | The name of the journal's file. |
| ReplayWindow.ReplayGuard.Claim | royells_compute_helper_service.py:275-286 | Accepts exactly when the id is not among the unexpired entries and there is room; expired entries go. |
| ReplayWindow.ClaimIsTheWindowTest | royells_compute_helper_service.py:275-286 | That is the sliding-window test over the whole history of accepted ids. |
| ReplayWindow.AcceptedOnce | royells_compute_helper_service.py:471-487 | Two acceptances of one signed request bound the time to live by twice the skew, a second and the lag between check and claim. |
| ReplayWindow.AcceptedTwice | royells_compute_helper_service.py:471-487 | For every time to live below that, any skew and any lag some run accepts a request twice. |
| ReplayWindow.TwiceExactly | royells_compute_helper_service.py:275-286 | So some run accepts some request twice exactly below that bound. |
| NestedTransactions.SQLiteAdapter.Begin | royells_v20_core/adapters/sqlite_database.py:94-110 | Lock, depth and engine state after begin, raising or not; the lock is needed at depth zero only. |
| NestedTransactions.SQLiteAdapter.Commit | royells_v20_core/adapters/sqlite_database.py:112-136 | The same for commit. |
| NestedTransactions.SQLiteAdapter.Rollback | royells_v20_core/adapters/sqlite_database.py:138-163 | The same for rollback, with a RELEASE that raises after the ROLLBACK TO. |
| NestedTransactions.SQLiteAdapter.Execute | royells_v20_core/adapters/sqlite_database.py:178-183 | Queries, changes and definitions, raising or not: a change opens an implicit transaction where none is open. |
| NestedTransactions.LatestSavepoint | royells_v20_core/adapters/sqlite_database.py:126-153 | ROLLBACK TO and RELEASE act on the latest savepoint of a name, whatever others have it. |
| NestedTransactions.UnknownSavepoint | royells_v20_core/adapters/sqlite_database.py:126-163 | A name that no open savepoint has is an error. |
| TransactionLaws.CommitKeeps | royells_v20_core/adapters/sqlite_database.py:125-136 | commit keeps lock, depth and savepoints in step except exactly when the outermost COMMIT raises. |
| TransactionLaws.RollbackKeeps | royells_v20_core/adapters/sqlite_database.py:149-163 | The same for rollback; where only the RELEASE raises the state is rolled back and the depth stays. |
| TransactionLaws.StuckThread | royells_v20_core/adapters/sqlite_database.py:125-136 | After the outermost COMMIT has raised no other thread can begin; the thread itself can end the transaction without the lock, which puts things right and raises. |
| TransactionLaws.LateCommit | royells_v20_core/adapters/sqlite_database.py:125-136 | Where another thread is inside by then, such a commit makes that thread's writes durable. |
| TransactionLaws.OneThreadInside | royells_v20_core/adapters/sqlite_database.py:94-163 | Over every interleaving at most one thread has depth above zero and it holds the lock. |
| TransactionLaws.RunsAsMeant | royells_v20_core/adapters/sqlite_database.py:165-176 | Nested blocks are a stack of snapshots: a rolled-back block leaves the state at its own begin, and nothing around it changes. |
| TransactionLaws.OutermostIsAtomic | royells_v20_core/adapters/sqlite_database.py:165-176 | Inner commits become durable only at the outermost commit, all at once. |
| TransactionLaws.BareChange | royells_v20_core/adapters/sqlite_database.py:114-148 | Outside every transaction a bare rollback drops a change, a bare commit makes it durable, and a transaction cannot begin before one of them. |
| TransactionLaws.BareFailure | royells_v20_core/adapters/sqlite_database.py:178-183 | A change that fails leaves nothing to commit; a definition is durable without a commit. |
| LogicalBackup.Backup | royells_v20_postgres/adapter.py:548-623 | The file written, for any database and batch size. |
| LogicalBackup.VerifyBackup | royells_v20_postgres/adapter.py:634-671 | The footer's counts exactly when header, digest and manifest are right. |
| LogicalBackup.Restore | royells_v20_postgres/adapter.py:690-764 | Commits exactly the acceptable files, with every row of the file in order and the counts of the footer, for any batch size; otherwise changes nothing. |
| LogicalBackup.RestoreUndoesBackup | royells_v20_postgres/adapter.py:582-764 | Restoring a backup gives every table back row for row, accepted exactly when each table's rows have the same columns, at least one and named by identifiers. |
| LogicalBackup.FooterAnywhere | royells_v20_postgres/adapter.py:634-764 | The same wherever the footer stands behind the header, with its digest over the lines before it. |
| LogicalBackup.DigestCoversRows | royells_v20_postgres/adapter.py:640-647 | The digest covers every row that is restored exactly when no row stands behind the first footer. |
| LogicalBackup.RowBehindFooter | royells_v20_postgres/adapter.py:728-758 | The smallest accepted file with a row behind its footer. |
| LogicalBackup.KeysAscend | royells_v20_postgres/adapter.py:595-605 | The columns of a row are written in ascending order, each once. |
| LogicalBackup.IdentifiersExactly | royells_v20_postgres/sql.py:10-18 | Which names can be inserted into. |
| ServiceContainer.Container.Resolve | royells_v20_core/container.py:110-121 | On an acyclic graph it succeeds exactly when everything needed is registered and does not raise, lets each factory return at most once in the life of the container, keeps the creation order duplicate-free and topological, and keeps every instance. |
| ServiceContainer.Container.RegisterInstance | royells_v20_core/container.py:92-105 | Registers once, before closing, and keeps the order sound. |
| ServiceContainer.Container.RegisterFactory | royells_v20_core/container.py:97-105 | The same for a factory. |
| ServiceContainer.Container.Close | royells_v20_core/container.py:126-147 | Visits the instances backwards, each once, and leaves an empty container that refuses every call. |
| ServiceContainer.ClosesBackwards | royells_v20_core/container.py:130-135 | With distinct instances every one is visited exactly once, in the reverse of the creation order. |
| ServiceContainer.DependentsCloseFirst | royells_v20_core/container.py:131 | And a service before everything it was built from. |
| BatchWriter.PostgresBatchWriter.Add | royells_v20_postgres/batch_writer.py:37-43 | Appends, or refuses exactly when the queue is full. |
| BatchWriter.PostgresBatchWriter.Flush | royells_v20_postgres/batch_writer.py:45-63 | Writes one batch, or puts it back in front. |
| BatchWriter.RowsAreConserved | royells_v20_postgres/batch_writer.py:45-63 | With any number of flushers and any failures every row occurs as often as it was accepted. |
| BatchWriter.PendingIsBounded | royells_v20_postgres/batch_writer.py:39-61 | Waiting and in-flight rows never exceed max_pending and one batch for each flusher. |
| BatchWriter.OneFlusherKeepsOrder | royells_v20_postgres/batch_writer.py:37-63 | With one flusher written, in-flight and waiting rows are always the accepted rows in order. |

## Left out

- Telegram, HTTP, Redis, the main bot and the legacy bridge objects: not part of this model.
- File, SQLite and PostgreSQL calls: a transaction commits or aborts as a whole, a rename or unlink is one step, savepoints follow the named-stack rule.
- SHA-256, HMAC, gzip and JSON text: the digest of a text is the text, a record is its own line, and a payload is what decoding gives; objects whose only key is `__bytes_hex__` are excluded.
- Durations stay a pair of integers; the division to a float is not modelled.
- IsoValidator.InspectIsoBmff: the error texts are an enumeration without the box type in them, a missing `moov/moof` is written as `moov`, and the branch for a header shorter than the file's own size is not reachable and left out.
- MigrationManager.Manager.Upgrade: nothing runs beside it and it does not die; MigrationProtocol has both.
- MigrationRace.GapExactly: all runners have the same migrations.
- MigrationLoader.Load: file names come taken apart, and migrations of one version are listed in any order before they are refused.
- MigrationScripts.Effective: comments are those of the lexer, which does not nest block comments as PostgreSQL does, and blanks those of str.strip; PREPARE TRANSACTION is not among the commands.
- MigrationScripts.ReadScript: paths come resolved, a file that cannot be read or decoded is one that is not there, and a file comes as its lines.
- The advisory lock and the row lock of a script transaction are one lock; a waiting transaction is a step that is not enabled.
- LeasedQueue.Queue.ClaimAny: the polling of dequeue around it and payload decoding errors are left out.
- JsonStore.JsonRuntime.Save: names are taken as already stripped, and `lock`, `unlock` and `heartbeat` are left out.
- MigrationJournal.Journal.Apply: timestamps of entries are left out.
- NestedTransactions.SQLiteAdapter.Begin: a thread that waits for the lock is a call not yet made; connecting and disconnecting are left out.
- LogicalBackup.Restore: the reset of identity sequences and key constraints between tables are left out.
- ServiceContainer.Container.Resolve: a factory is the list of keys it resolves, and whether it then raises; resolving a cycle, which does not terminate, is excluded by the rank.
- Configuration parsing, dashboards, health reports, metrics, loggers and priority tables: lookups and plumbing that would only add easy members.
