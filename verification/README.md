# Verification of the leaderboard service

A Dafny model of the leaderboard service's core: the versioned ranking store in
PostgreSQL and Redis, the event bus, ranking, diff, export and import, file sync,
and keyset pagination. `dafny verify dfyconfig.toml` checks all of it.

## What is modelled

**The two stores under concurrency** (`StoreModel`, `StoreInvariants`,
`StoreCapture`, `StoreTheorems`, `StoreFates`, `StoreTables`, `Realtime`). One board is a state machine whose
steps are the round trips of the calls: each Redis command or MULTI block, each
statement of a transaction, each commit. Any number of calls interleave step by
step, and every call may fail at every step. PostgreSQL's board and entry row
locks, unique and foreign keys decide when a step may happen. Redis keys are maps;
a history records every write, every set a RENAME moved, and what became of writes
that are in no set any more. The class `RealtimeBoard` has the keys and the tables
as fields; each of its step methods is proved to be the machine's step, and
`Submit`, `Snapshot` and `Clear` run them in the source's order. `StoreTables` ties
the machine's commits to the tables below.

**The event bus** (`StreamModel`, `StreamTheorems`, `EventBus`). Each atomic
operation on the connection counter and each critical section of the two locks is
a step of any number of callers. The class `EventBus` has the bus's fields and the
same two layers of methods.

**Ranking** (`Floats`, `Ordering`, `Ranking`). A score is its 64 bits: equality is on
the bits, ranking on an order key, which `Floats` proves to be the order of the
numbers the bits stand for. `ROW_NUMBER()` is the
rank in a strictly ordered set; `ORDER BY` is a stable sort.

**One board's tables** (`Tables`, `Appending`, `Versions`, `Scores`, `Boards`). A `Database`
holds the committed rows; a `Transaction` is a copy that is written back at
commit, so that dropping it is the rollback. `versions::create` is given the board
row its caller read earlier, which may be stale by the time of the lock.

**Diff and history** (`Diff`), **export and import** (`Export`, `Import`,
`RoundTrip`), **file sync** (`Sync`, `SyncTheorems`, `SyncRuns`), **pagination** (`Cursor`,
`Pagination`). A walk over pages is a sequence of pages, each read from whatever
the table was at that moment.

Things the proofs settled about the code:

- A clearing snapshot that hits a limit after its RENAME deletes the renamed keys,
  so those scores are lost. One that ends between RENAME and commit in any other way
  (a crash or database error, a missing entry, `realtime.rs:318-324`, or a clean-up
  Redis does not answer after a refusal) leaves them under a key with a fresh uuid
  that nothing reads again, so they are lost as well. `EveryFateHasItsCause` shows
  there is no third way, and `EveryWriteIsInOnePlace` that nothing else goes missing.
- On a scored board an explicit position in a file is compared with the derived
  rank (`execute.rs:340-344`), so a file with a position that is not the rank adds
  a version on every run. `SyncIsIdempotent` gives the exact condition. It also
  shows that a file which gives one slug two names never settles either: each run
  compares with the rows read before its loop and flips the entry.
- The sync stores a file's new direction before it looks at the entries
  (`execute.rs:129-166`). A run that then makes no version, because the file has no
  entries or the run fails, leaves the latest version in the old order, and later
  runs of the file do not notice, just as when `boards::update` changed the
  direction. `SyncKeepsRanking` gives the exact condition, `StaleRanking` an input.
- On a tiered board an explicit position that is taken out of the file is not
  noticed (`execute.rs:353-354`). `NoChangeIsSound` gives the exact condition,
  `RemovedPositionIsMissed` an input.
- `import_board` says it applies the same cross-field constraints as
  `boards::create` (`export.rs:219`); it does not check the tier configuration, nor
  the sort direction of boards that are not scored. The model follows the code.
- The debounce map's keys are channel keys except between the two removals of a
  prune, which hold the channels lock.

## Model

| member | source | states |
|---|---|---|
| `StoreTheorems.InvStep` | crates/riley-leaderboards-core/src/repo/realtime.rs:27-386 | every step of every call (submit, both snapshots, create, entry and board updates, entry delete, clear, aborts) keeps the whole invariant of the two stores |
| `StoreTheorems.HistoryIsImmutable` | crates/riley-leaderboards-core/src/repo/entries.rs:144-179 | over any run, with an entry delete racing version creates and despite ON DELETE CASCADE, later version histories extend earlier ones row for row |
| `StoreTheorems.PlacedEntriesExist` | crates/riley-leaderboards-core/migrations/001_initial_schema.sql:41-50 | every placement of every committed version refers to an entry that still exists, in every reachable state |
| `StoreInvariants.CascadeSpares` | crates/riley-leaderboards-core/migrations/001_initial_schema.sql:41-50 | the cascade of an entry without placements removes nothing |
| `StoreTheorems.VersionsAreNumbered` | crates/riley-leaderboards-core/src/repo/versions.rs:57-63 | each committed number is one more than the largest at its commit and numbers are distinct; on a board never imported they are 1..n in commit order |
| `StoreInvariants.NumberIsNew` | crates/riley-leaderboards-core/src/repo/versions.rs:65-76 | under the board lock the computed number never violates UNIQUE (board_id, version_number) |
| `StoreTheorems.VersionLimitHolds` | crates/riley-leaderboards-core/src/repo/realtime.rs:239-254 | if every caller passes limit m, no interleaving commits more than m versions |
| `StoreFates.EveryFateHasItsCause` | crates/riley-leaderboards-core/src/repo/realtime.rs:182-361 | over any run: a renamed set is captured exactly if its own call committed, dropped exactly if its own refused call deleted it, stranded under a key nobody will read exactly if its call ended between RENAME and commit in any other way (abort, missing entry, unanswered clean-up); until one of these it belongs to a call in progress, and no two of them happen |
| `StoreFates.FateStep` | crates/riley-leaderboards-core/src/repo/realtime.rs:182-361 | step by step: each of the three fates is final, and only the owner's deciding step brings it about |
| `StoreFates.RenamePends` | crates/riley-leaderboards-core/src/repo/realtime.rs:193-224 | a RENAME of a non-empty working set always leaves it with its call: the name key is there too, so the second RENAME cannot fail and strand it |
| `StoreFates.DroppedOnlyByLimits` | crates/riley-leaderboards-core/src/repo/realtime.rs:239-280 | over any run: a score was dropped if and only if a clean-up deleted the set it was in after max_versions or max_entries had stood in the way of that set |
| `StoreFates.RefusedOnlyByLimits` | crates/riley-leaderboards-core/src/repo/realtime.rs:239-280 | in every reachable state: a snapshot that has renamed its keys is refused by the version limit at its count or by the entry limit at its read, never for being empty |
| `StoreFates.RefusedExactly` | crates/riley-leaderboards-core/src/repo/realtime.rs:239-280 | a call is turned down exactly at its count, when the version limit is reached, or at its read, when a snapshot finds nothing or more rows than the entry limit; a create by the first alone |
| `StoreFates.EveryWriteIsAccounted` | crates/riley-leaderboards-core/src/repo/realtime.rs:60-70 | each score written to Redis is at all times in the working set, in the set of a snapshot in progress, in a committed version or left behind in a stranded key, or was overwritten by a later one of its slug, dropped because of a limit, or cleared |
| `StoreFates.EveryWriteIsInOnePlace` | crates/riley-leaderboards-core/src/repo/realtime.rs:60-361 | conservation: on a board that clears on snapshot each score is in exactly one of those places, in any interleaving and whatever fails |
| `StoreTables.CreateIsAtomic` | crates/riley-leaderboards-core/src/repo/versions.rs:12-156 | a create that commits after any interleaving leaves the tables as `Versions.Created` makes them from the tables at the commit, with every entry there and the limit kept: concurrent creates are serial |
| `StoreTables.SnapshotIsAtomic` | crates/riley-leaderboards-core/src/repo/scores.rs:67-190 | a snapshot of the staged scores that commits after any interleaving appends to the tables at the commit the ranked version of the staging table it read |
| `StoreTables.SnapshotHolds` | crates/riley-leaderboards-core/src/repo/scores.rs:67-190 | and when nobody submitted in between, that is the contract of `Scores.Snapshot` |
| `StoreTables.UpdateEntryMatches` | crates/riley-leaderboards-core/src/repo/entries.rs:96-142 | the machine's entry update leaves the tables as `entries::update` does |
| `StoreTables.CreateEntryMatches` | crates/riley-leaderboards-core/src/repo/entries.rs:7-31 | its entry insert leaves them as `entries::create` does |
| `StoreTables.SubmitMatches` | crates/riley-leaderboards-core/src/repo/scores.rs:11-61 | its staged submit leaves them as `scores::submit` does |
| `StoreTables.UpdateBoardMatches` | crates/riley-leaderboards-core/src/repo/boards.rs:140-235 | its board update changes the ranking direction and nothing else |
| `StoreTables.DeleteEntryMatches` | crates/riley-leaderboards-core/src/repo/entries.rs:144-179 | in every reachable state its entry delete takes one entry and its staged score, as `entries::delete` does, and its cascade no placement |
| `StoreTheorems.CapturedAtMostOnce` | crates/riley-leaderboards-core/src/repo/realtime.rs:182-229 | on a board that always clears on snapshot no written score is in two committed versions, in any interleaving |
| `StoreTheorems.SnapshotIsIsolated` | crates/riley-leaderboards-core/src/repo/realtime.rs:182-262 | the slugs and scores of a committed clearing snapshot are exactly the working set its RENAME moved, whatever runs between RENAME, read and commit |
| `StoreTheorems.LiveSlugsHaveNames` | crates/riley-leaderboards-core/src/repo/realtime.rs:64-70 | in every reachable state each slug of the working sorted set is a field of the working name hash, also after score-key-only and half-failed renames |
| `StoreTheorems.CommittedPositions` | crates/riley-leaderboards-core/src/repo/realtime.rs:339-340 | the positions a clearing snapshot commits are the ranks of the set it renamed |
| `RealtimeClass.RealtimeBoard.Submit` | crates/riley-leaderboards-core/src/repo/realtime.rs:27-73 | alone: refuses exactly a board that is not realtime and a score that is not finite, a bad slug or a bad name, writing nothing; otherwise the slug has an entry of that name, new or with its id and metadata as they were, and exactly that member and name are set |
| `RealtimeClass.RealtimeBoard.RenameKeys` | crates/riley-leaderboards-core/src/repo/realtime.rs:209-224 | is the machine's RENAME step: both keys or the score key alone, with the other command's failure not undone |
| `RealtimeClass.RealtimeBoard.ReadCells` | crates/riley-leaderboards-core/src/repo/realtime.rs:256-262 | the read lists every member of the set once, in some order |
| `RealtimeClass.RealtimeBoard.Snapshot` | crates/riley-leaderboards-core/src/repo/realtime.rs:169-366 | alone: success exactly within the limits and with all entries known; it appends one version with the next number, the caller's note and metadata and exactly the set, ranked; the reply lists each of its rows once with its entry's slug and name, by position, a missing one last, then by the bytes of the name; a refusal of a clearing snapshot loses the set, a missing entry or an unanswered clean-up leaves it in the snapshot key |
| `RealtimeClass.RealtimeBoard.DeleteSnapKeys` | crates/riley-leaderboards-core/src/repo/realtime.rs:145-157 | is the machine's clean-up step: the snapshot key goes if Redis answers and stays if not, and nothing else in Redis or PostgreSQL changes |
| `RealtimeClass.RealtimeBoard.Clear` | crates/riley-leaderboards-core/src/repo/realtime.rs:369-386 | is the machine's clear step: both working keys become empty |
| `Floats.OrderIsNumeric` | crates/riley-leaderboards-core/src/repo/versions.rs:293-303 | bit patterns are ordered as the numbers they stand for: sign, exponent and fraction of IEEE 754 binary64, both zeros equal, NaN above everything |
| `Floats.TiesAreEqual` | crates/riley-leaderboards-core/src/repo/realtime.rs:88-99 | two scores tie exactly when neither number is less than the other |
| `Ranking.LexIsBytewise` | crates/riley-leaderboards-core/src/repo/realtime.rs:88-99 | of two members the smaller one has a smaller byte where they first differ, or ends there |
| `Ranking.DerivedFollowsScores` | crates/riley-leaderboards-core/src/repo/versions.rs:282-313 | positions are distinct and follow the scores as numbers in the board's direction, scoreless rows last, entry id breaking ties |
| `Ranking.DerivedIsOnto` | crates/riley-leaderboards-core/src/repo/versions.rs:293-305 | every number 1..n is given to a row of the version |
| `Ranking.DerivedIsCanonical` | crates/riley-leaderboards-core/src/repo/versions.rs:282-313 | any numbering of the version's rows into 1..n that follows that order, leaving other versions' rows alone, is the table this update writes |
| `Ranking.DerivedIgnoresRowOrder` | crates/riley-leaderboards-core/src/repo/versions.rs:293-303 | a row gets the same position whatever the insertion order of the rows |
| `Tables.Transaction.DeriveScoredPositions` | crates/riley-leaderboards-core/src/repo/versions.rs:282-313 | sorting and numbering the version's rows one by one leaves every row of the table at its rank and every row of another version as it was |
| `Ranking.LatestIsRanking` | crates/riley-leaderboards-core/src/repo/realtime.rs:79-142 | row k of the live standings is a scored slug with its own score, its name or else its slug, and position k + 1; every row before it has a better score as a number in the board's direction, or an equal one and a member that is smaller byte by byte if ascending, larger if descending |
| `Ranking.LatestIsComplete` | crates/riley-leaderboards-core/src/repo/realtime.rs:87-129 | every member of the sorted set has a row in the live standings |
| `Ranking.LiveMatchesFrozen` | crates/riley-leaderboards-core/src/repo/realtime.rs:88-129 | live ranking (ties by member) and snapshot ranking (ties by entry id) give each equal-score group the same block of positions, right after all better scores |
| `Ranking.LiveEqualsFrozenWithoutTies` | crates/riley-leaderboards-core/src/repo/realtime.rs:88-129 | an entry whose score nobody shares has the same live and frozen position |
| `Versions.ValidatePlacements` | crates/riley-leaderboards-core/src/repo/versions.rs:433-531 | succeeds exactly when the list is not empty, slugs are distinct, positions are at least 1, and the rule of the board type holds: distinct positions, given or by place in the list; finite scores; tiers that the configuration has |
| `Versions.NextNumber` | crates/riley-leaderboards-core/src/repo/versions.rs:57-63 | greater than every number in the table, and one above one of them unless there are none |
| `Versions.Create` | crates/riley-leaderboards-core/src/repo/versions.rs:12-156 | commits exactly when both validations, the limit and all entry lookups pass, and then adds one version with the next number and its rows and nothing else; the reply is that version: on ordered and tiered boards item i has the input's slug i, its entry's name and the row now stored for it, on scored boards each input slug once with its stored row, by tier, position and name; any failure leaves the database as it was |
| `Versions.ReplyAnswers` | crates/riley-leaderboards-core/src/repo/versions.rs:107-155 | the specified reply is that answer, field by field |
| `Versions.CreatedHolds` | crates/riley-leaderboards-core/src/repo/versions.rs:107-148 | the new version has one row for each input placement, with its score, tier and metadata, and its position: the given one, the place in the list on an ordered board, on a scored board 1..n following the scores as numbers |
| `Appending.AppendedNumbers` | crates/riley-leaderboards-core/src/repo/versions.rs:282-313 | on a scored board the rows of a new version are numbered 1..n, distinctly, a better score as a number lower, ties by entry id, scoreless rows last |
| `Versions.CreatedStandings` | crates/riley-leaderboards-core/src/repo/versions.rs:107-148 | the new version holds each input placement under its slug with its final position: explicit or list place on ordered boards, the rank on scored boards |
| `Versions.CreatedStandingsOnly` | crates/riley-leaderboards-core/src/repo/versions.rs:107-141 | the new version holds exactly the input's slugs |
| `Versions.CreatedKeepsVersions` | crates/riley-leaderboards-core/src/repo/versions.rs:65-150 | every earlier version is fetched exactly as before, row order included |
| `Versions.CreatedIsWellFormed` | crates/riley-leaderboards-core/migrations/001_initial_schema.sql:31-50 | a created version keeps all primary, unique and foreign keys |
| `Appending.AppendedIsRanked` | crates/riley-leaderboards-core/src/repo/versions.rs:143-148 | on a scored board each position of a new version is the frozen rank of its score among the version's scores |
| `Tables.FetchIsStandings` | crates/riley-leaderboards-core/src/repo/versions.rs:255-271 | the fetched list has each placed slug exactly once, with its row and its current name |
| `Tables.FetchIsSorted` | crates/riley-leaderboards-core/src/repo/versions.rs:272-274 | no row of the fetched list stands before one with a lower place of its tier in the configuration, or with the same and a lower position, or with both the same and a name that is smaller byte by byte; a missing tier or position stands last |
| `Tables.RowOrderIsTotal` | crates/riley-leaderboards-core/src/repo/versions.rs:272-274 | tier order, position and name with NULLs last is a total preorder |
| `Diff.Diff` | crates/riley-leaderboards-core/src/repo/versions.rs:335-426 | fails with not-found exactly when a version is missing; otherwise the four lists, built in one pass over each version, have exactly the slugs they should with both rows' positions, scores and tiers, in the order of the fetched lists |
| `Diff.Partition` | crates/riley-leaderboards-core/src/repo/versions.rs:357-416 | added, removed, moved and unchanged name each slug of the two versions exactly once: added is in the second only, removed in the first only, moved exactly when position, score bits or tier differ |
| `Diff.VersionsDiffer` | crates/riley-leaderboards-core/src/repo/versions.rs:335-426 | applying a diff to the first version gives the second, and its reverse applied to the second gives the first, on position, score and tier |
| `Diff.ReverseUndoes` | crates/riley-leaderboards-core/src/repo/versions.rs:357-416 | the diff read backwards undoes itself without looking at the versions |
| `Diff.ReverseIsDiff` | crates/riley-leaderboards-core/src/repo/versions.rs:335-426 | swapping the versions gives the reversed diff: the same added and removed lists swapped, the same moved and unchanged entries up to order |
| `Diff.DiffsCompose` | crates/riley-leaderboards-core/src/repo/versions.rs:335-426 | the patches of two consecutive diffs compose to one that does what the direct diff does |
| `Diff.HistoryIsStandings` | crates/riley-leaderboards-core/src/repo/entries.rs:189-212 | an entry's uncut history has an item for exactly the versions that place it, with its row and metadata there |
| `Diff.HistoryAscends` | crates/riley-leaderboards-core/src/repo/entries.rs:198-207 | the history ascends by version number without repeats, and a limit only cuts its end |
| `Diff.MovedIffHistoryDiffers` | crates/riley-leaderboards-core/src/repo/versions.rs:376-392 | an entry is in moved exactly when its history has items for both versions and they differ |
| `Export.BatchRefinesFetch` | crates/riley-leaderboards-core/src/repo/export.rs:97-128 | grouping the one batch query by version gives each version the list its own query gives, row for row |
| `Export.GroupByVersion` | crates/riley-leaderboards-core/src/repo/export.rs:121-128 | the one-pass grouping collects, per version id, exactly its rows in batch order |
| `Export.ExportBoard` | crates/riley-leaderboards-core/src/repo/export.rs:91-146 | exports the board's columns and each version once, ascending, with its fetched list |
| `Import.ImportBoard` | crates/riley-leaderboards-core/src/repo/export.rs:161-343 | fails exactly in the listed cases with the error of the first failing check, writing nothing; otherwise only the new board is added, rebuilt from the export, and the reply lists its version numbers, ascending |
| `Import.CollectNames` | crates/riley-leaderboards-core/src/repo/export.rs:265-270 | an entry gets the name it was seen with last: in the last placement of its slug in the last version that has one |
| `Import.InsertEntries` | crates/riley-leaderboards-core/src/repo/export.rs:272-288 | any insertion order creates one entry per name, with distinct ids, or fails when a slug or name is invalid |
| `RoundTrip.RebuiltRestores` | crates/riley-leaderboards-core/src/repo/export.rs:290-333 | each imported version holds exactly what its export says, and on scored boards is ranked anew under the board's direction |
| `RoundTrip.ExportImports` | crates/riley-leaderboards-core/src/repo/export.rs:161-288 | an export whose versions pass validation is imported wherever its slug is free, and refused for exactly the remaining reasons |
| `RoundTrip.ImportRestores` | crates/riley-leaderboards-core/src/repo/export.rs:91-343 | export then import restores columns, numbers, notes, metadata and placements by slug, with equal positions on ordered and tiered boards |
| `RoundTrip.GroupsKeepPositions` | crates/riley-leaderboards-core/src/repo/export.rs:328-332 | if a scored version was ranked under the current direction, import gives each equal-score group the same set of positions |
| `RoundTrip.UntiedKeepsPosition` | crates/riley-leaderboards-core/src/repo/export.rs:328-332 | an entry whose score nobody shares gets its position back |
| `RoundTrip.PositionsComeBack` | crates/riley-leaderboards-core/src/repo/export.rs:328-332 | of any scored version, ranked or not: a position comes back if and only if it is the rank of the score under the current direction with ties broken by the ids of the copy |
| `RoundTrip.UntiedComesBack` | crates/riley-leaderboards-core/src/repo/export.rs:328-332 | without ties all positions come back if and only if the version was the ranking under the current direction |
| `Scores.Submit` | crates/riley-leaderboards-core/src/repo/scores.rs:11-61 | refuses exactly boards that are not accumulative and scored, scores that are not finite, bad slugs and bad names; otherwise the entry has the name, its id and metadata as they were if it was there, and its staged score is this one, and nothing else changes |
| `Scores.SubmitStages` | crates/riley-leaderboards-core/src/repo/scores.rs:32-56 | a submission replaces the staged score of its own slug and of no other |
| `Scores.ReadStaged` | crates/riley-leaderboards-core/src/repo/scores.rs:110-119 | the read has every staged score once, in some order |
| `Scores.Snapshot` | crates/riley-leaderboards-core/src/repo/scores.rs:67-190 | succeeds exactly within the limits on a non-empty staging table; the new version has the next number and one row for each staged score, numbered 1..n by the scores as numbers, ties by entry id; staging table and earlier versions stay as they were |
| `Boards.DeleteEntry` | crates/riley-leaderboards-core/src/repo/entries.rs:144-179 | refused exactly when the entry is unknown or any version places it; otherwise only the entry and its staged score go, and no placement does |
| `Boards.UnplacedCascade` | crates/riley-leaderboards-core/migrations/001_initial_schema.sql:41-50 | deleting an entry without placements cascades to no placement row |
| `Boards.CreateEntry` | crates/riley-leaderboards-core/src/repo/entries.rs:7-31 | refused exactly for a bad slug or name, then for a slug that is taken; otherwise the entry is added under an id no other has, and nothing else changes |
| `Boards.EntryUpdate` | crates/riley-leaderboards-core/src/repo/entries.rs:96-142 | a given field has the given value, metadata can be set to null, an absent field and the id stay, and nothing else changes |
| `Core.ValidSlugIs` | crates/riley-leaderboards-core/src/repo/mod.rs:14-57 | a slug is valid exactly if it has 1 to 128 characters with codes of a-z, 0-9 or the hyphen and no hyphen at either end, a name if it has 1 to 256 |
| `Boards.CreateBoard` | crates/riley-leaderboards-core/src/repo/boards.rs:7-59 | accepts exactly a valid slug and name, a known type and direction, tiers on tiered boards, descending order unless scored, and flags that go together; then, if the slug is free, adds the board with empty tables |
| `Boards.ValidateTierConfig` | crates/riley-leaderboards-core/src/repo/boards.rs:278-326 | accepts exactly a list that is not empty, with distinct keys and every position from -2147483648 to 2147483647 |
| `Boards.Update` | crates/riley-leaderboards-core/src/repo/boards.rs:140-235 | refuses a bad name or direction, then an unknown slug with not-found; otherwise accepts exactly the changes that keep the cross-field rules, and then each given field has the given value and each absent one, with slug, type and accumulative, stays |
| `Sync.PlacementsChanged` | crates/riley-leaderboards-core/src/sync/execute.rs:323-372 | the scan with early returns says changed exactly when lengths differ or some proposal has no row or a different one |
| `Sync.SyncBoard` | crates/riley-leaderboards-core/src/sync/execute.rs:71-320 | an accumulative file is skipped and changes nothing; otherwise the database and the reply are those of the specification, whose results follow, errors included |
| `SyncTheorems.EntriesSettle` | crates/riley-leaderboards-core/src/sync/execute.rs:204-249 | after the loop every entry of a file that does not contradict itself is in the table as the file has it, and other entries are untouched |
| `SyncTheorems.DiffersIs` | crates/riley-leaderboards-core/src/sync/execute.rs:323-372 | no change means the slug sets are equal, by counting, and every compared field is equal |
| `SyncTheorems.CreatedIsUnchanged` | crates/riley-leaderboards-core/src/sync/execute.rs:336-352 | a version compared with its own input shows no difference, unless a scored board was given an explicit position that is not the rank |
| `SyncTheorems.SyncReflectsFile` | crates/riley-leaderboards-core/src/sync/execute.rs:115-313 | after any successful run of a file with entries and distinct slugs, the board row, the entries and the newest version are the file's: name, direction, tiers numbered from 1, metadata; each entry's name and metadata; slugs, scores, tiers, metadata and every position the file or its order decides, whether or not a version was created |
| `SyncRuns.ChangedConfigForces` | crates/riley-leaderboards-core/src/sync/execute.rs:129-313 | a successful run of a file with entries makes exactly one version, with the next number, the file's metadata and the run's note, whenever the stored direction or the stored tiers (key, place and label) are not the file's |
| `SyncRuns.MadeVersion` | crates/riley-leaderboards-core/src/sync/execute.rs:258-313 | a run that reports a version added exactly that one behind the others, with the next number; it reports it as the first exactly if its number is 1 |
| `SyncRuns.EntrylessRun` | crates/riley-leaderboards-core/src/sync/execute.rs:115-200 | a successful run of a file without entries brings the board row up to date, changes no other table and replies no change |
| `SyncRuns.ValidFileSucceeds` | crates/riley-leaderboards-core/src/sync/execute.rs:71-313 | a file that is valid for a board of its type is never refused, and is published as version 1 if the board is new or has no version |
| `SyncRuns.FailedRunKeeps` | crates/riley-leaderboards-core/src/sync/execute.rs:115-320 | a run that fails, with a file that is valid for a board of its type, is not undone: the board row is the file's, the entries before the first bad one are written, and the versions are as they were |
| `SyncRuns.SyncKeepsRanking` | crates/riley-leaderboards-core/src/sync/execute.rs:115-313 | for every run, failed, skipped or entry-less ones included, from a ranked start: the newest version is still the ranking under the board's direction if and only if the stored direction did not change, or a version was made, or there is none or the board is new or not scored, or the version is ranked in the file's direction too |
| `SyncRuns.TurnedIsMissed` | crates/riley-leaderboards-core/src/sync/execute.rs:129-204 | on any published scored board: after the direction is turned by `boards::update` or by a run of the turned file without entries, the run of the turned file replies no change and keeps the old version, stale unless that is ranked both ways |
| `SyncRuns.OneDirection` | crates/riley-leaderboards-core/src/repo/versions.rs:282-313 | a version with two different scores is ranked in one direction at most |
| `SyncRuns.StaleRanking` | crates/riley-leaderboards-core/src/sync/execute.rs:193-200 | a concrete file with scores 1 and 2: published, turned without its entries, then turned with them; the last two runs reply no change over a stale ranking |
| `SyncTheorems.RerunAfterVersion` | crates/riley-leaderboards-core/src/sync/execute.rs:115-313 | after a run that created a version, the next run of the file writes nothing and replies no change if and only if the board is not scored or every explicit position is the rank; otherwise it adds another version |
| `SyncRuns.SyncIsIdempotent` | crates/riley-leaderboards-core/src/sync/execute.rs:115-313 | after any successful run, the next run of the file writes nothing if and only if the file does not give one slug two names or metadata and, when the first run made a version of a scored board, every explicit position is the rank |
| `SyncTheorems.NoChangeIsSound` | crates/riley-leaderboards-core/src/sync/execute.rs:323-372 | when no change is detected the slugs are the latest version's, and the version that would be created equals it if and only if the board is ordered, or scored with the latest numbered under the current direction (entries without a score last), or no tiered entry dropped a position |
| `SyncTheorems.DerivedIsRanked` | crates/riley-leaderboards-core/src/repo/versions.rs:282-313 | with a score on every row, that numbering is the frozen ranking |
| `SyncRuns.FirstSyncCreates` | crates/riley-leaderboards-core/src/sync/execute.rs:168-313 | a valid file of a new board is published by its first run as version 1 |
| `SyncRuns.NeverSettles` | crates/riley-leaderboards-core/src/sync/execute.rs:340-344 | a file with an explicit position that is not the rank adds exactly one version on every later run, for ever |
| `SyncRuns.ExplicitPositionRepeats` | crates/riley-leaderboards-core/src/sync/execute.rs:340-344 | a concrete such file: n + 1 versions after n + 1 runs, for every n |
| `SyncRuns.UnpositionedIsMissed` | crates/riley-leaderboards-core/src/sync/execute.rs:353-354 | on any published tiered board: after positions are taken out of the file its run replies no change, while the newest version keeps a position that a new version would not have |
| `SyncRuns.RemovedPositionIsMissed` | crates/riley-leaderboards-core/src/sync/execute.rs:353-354 | a concrete file with position 1, then without it |
| `Cursor.EffectiveLimit` | crates/riley-leaderboards-core/src/models.rs:390-394 | 50 when absent, the request's own value when it is between 1 and 200, otherwise the bound it is beyond |
| `Cursor.CursorRoundTrip` | crates/riley-leaderboards-core/src/models.rs:397-428 | decoding an encoded cursor gives back the timestamp and id |
| `Cursor.TimestampRoundTrip` | crates/riley-leaderboards-core/src/models.rs:425-428 | the timestamp's text parses back and has no comma |
| `Cursor.UuidRoundTrip` | crates/riley-leaderboards-core/src/models.rs:425-428 | the id's text parses back |
| `Cursor.CursorText` | crates/riley-leaderboards-core/src/models.rs:425-428 | the cursor character by character: date, T, time, a fraction of three or six digits if there is one, the UTC offset, a comma, and the id in five groups of hexadecimal digits |
| `Cursor.NoCommaIsRefused` | crates/riley-leaderboards-core/src/models.rs:401-406 | a cursor without a comma is a validation error |
| `Cursor.CursorsAreDistinct` | crates/riley-leaderboards-core/src/models.rs:425-428 | different keys have different cursors |
| `Pagination.PageIs` | crates/riley-leaderboards-core/src/repo/entries.rs:51-84 | a page has at most the limit of rows, each one left after the cursor, in order: ascending, the earlier created_at first (year, month, day, hour, minute, second, microsecond), at equal times the smaller id, descending the reverse; without a next cursor nothing is left, with one it is the last item's and all other rows lie after it |
| `Pagination.PrecedesIsListed` | crates/riley-leaderboards-core/src/repo/entries.rs:51-71 | the order of the pages is that order of timestamps and ids, in both directions |
| `Pagination.ListedPage` | crates/riley-leaderboards-core/src/repo/entries.rs:43-85 | a caller gets that page for the key its cursor holds, and a validation error exactly when the cursor does not decode |
| `Pagination.NoRowTwice` | crates/riley-leaderboards-core/src/repo/entries.rs:43-85 | following next_cursor while rows come and go, timestamps and ids go strictly forward, or strictly backward if descending, so no row is returned twice |
| `Pagination.NothingIsMissed` | crates/riley-leaderboards-core/src/repo/boards.rs:69-108 | a finished walk returned every row that was in the table throughout |
| `Pagination.StillWalkIsListing` | crates/riley-leaderboards-core/src/repo/boards.rs:69-108 | on a still table a finished walk's pages are the whole table, each row once and in that order, it has max(1, ceil(n / limit)) pages, and no walk is longer |
| `StreamTheorems.InvStep` | crates/riley-leaderboards-api/src/sse.rs:73-196 | every atomic operation and critical section keeps the EventBus invariants |
| `StreamTheorems.ConnectionsAreCapped` | crates/riley-leaderboards-api/src/sse.rs:77-84 | granted guards never exceed the cap, and the counter is guards plus attempts in flight, hence the number of guards when none are |
| `StreamTheorems.ReceiversAreAttached` | crates/riley-leaderboards-api/src/sse.rs:86-94 | in every reachable state each live receiver is attached to the sender registered for its board, and debounce keys are channel keys whenever no prune is between its two removals |
| `StreamTheorems.SendReachesBoard` | crates/riley-leaderboards-api/src/sse.rs:106-122 | a send reaches every live receiver of the board, once, and nobody else |
| `StreamTheorems.MissedPublishHasNoReceiver` | crates/riley-leaderboards-api/src/sse.rs:135-137 | a publisher that finds no channel had no receiver to reach |
| `StreamTheorems.PruneSparesReceivers` | crates/riley-leaderboards-api/src/sse.rs:165-174 | pruning removes only a channel without receivers |
| `StreamTheorems.ScoresAreDebounced` | crates/riley-leaderboards-api/src/sse.rs:139-149 | any two score events one receiver gets carry accepted times at least debounce_ms apart, also with clocks read before the lock and with prunes elsewhere |
| `EventBusClass.EventBus.Subscribe` | crates/riley-leaderboards-api/src/sse.rs:73-103 | alone: refuses exactly at the cap and then leaves the counter as it was; otherwise one more connection, attached to the board's channel |
| `EventBusClass.EventBus.PublishVersion` | crates/riley-leaderboards-api/src/sse.rs:106-122 | alone: every live receiver of the board gets the event once; a channel nobody listens to is removed with its debounce entry, and nothing else of the registry changes |
| `EventBusClass.EventBus.PublishScore` | crates/riley-leaderboards-api/src/sse.rs:126-162 | alone: false exactly when the board has a channel and a last time, and fewer than debounce_ms milliseconds have passed since, changing nothing; otherwise the board's receivers get the event, the time is noted, and a channel nobody listens to is removed with its debounce entry |
| `EventBusClass.EventBus.Prune` | crates/riley-leaderboards-api/src/sse.rs:165-174 | removes channel and debounce entry exactly when no live receiver is subscribed to the board |
| `EventBusClass.EventBus.ReleaseGuard` | crates/riley-leaderboards-api/src/sse.rs:191-196 | is the machine's step that gives one connection back |
| `EventBusClass.EventBus.CloseReceiver` | crates/riley-leaderboards-api/src/sse.rs:92-103 | is the machine's step that detaches a receiver when its stream ends |

## Left out

- HTTP routes, authentication, webhooks, git, file parsing, metrics, configuration and migrations running: plumbing around the modelled calls.
- Collections, references, board summaries and `since`: easy members.
- Board deletion, and Redis `clear` other than as a step that empties both working keys into a bucket of its own.
- One board per store machine and one board per transaction; boards do not share rows.
- The store machine is more liberal than PostgreSQL in one respect: inserting an entry does not wait for the board's FOR UPDATE lock, so it allows more interleavings. An upsert, `entries::update`, `entries::create`, `boards::update` and `scores::submit` are one step each.
- Redis and tokio internals: MULTI and RENAME are atomic, a failing command of a MULTI does not undo the others, and a broadcast reaches every receiver; a lagging receiver that loses messages reads a part of what the model records.
- The store machine's `versions::create` takes any input; the checks of the input are in `Versions.ValidatePlacements`.
- IEEE arithmetic, 32-bit overflow of positions and version numbers, and timestamps beyond year 9999.
- String lengths are in characters, while the source counts bytes of names; slugs are ASCII in both. Names sort by code point rather than by the database's collation.
- `tier_config` is a parsed list of tiers; JSON of another shape, and TOML to JSON conversion of metadata, are outside the model. Metadata is an opaque value with equality.
- `Cursor.ParseTimestamp` and `ParseUuid` accept the spellings that encoding produces; chrono and uuid accept more on input.
- Entries without a placement, and entry metadata, are not in an export, so `RoundTrip.ImportRestores` says nothing about them.
- RealtimeClass.RealtimeBoard.Snapshot: states the outcome for a call that runs alone; what holds when other calls interleave is in StoreTheorems.
- RealtimeClass.RealtimeBoard.Submit: states the outcome for a call that runs alone, as above.
- EventBusClass.EventBus.Subscribe: states the outcome for a call that runs alone; so do PublishVersion and PublishScore. What holds under interleaving is in StreamTheorems.
- Scores.Snapshot: takes the board type of the row its caller read to be that of the locked row, since a board's type never changes.
- Versions.Create: the call runs in one piece against the committed rows; its steps interleaved with other calls are in the store machine.
- Sync.SyncBoard: the whole run has the database to itself.
- Boards.ValidateTierConfig: takes a parsed list of tiers; that JSON of another shape is refused is not modelled.
