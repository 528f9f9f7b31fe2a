/** `execute.rs`: one board file brought into the database. */
module Sync {
  import opened Core
  import opened Tables
  import opened Appending
  import opened Versions
  import opened Diff
  import opened Boards

  datatype ParsedTier = ParsedTier(key: string, tierLabel: Option<string>)

  datatype ParsedEntry = ParsedEntry(
    slug: Slug,
    name: string,
    position: Option<int>,
    score: Option<Float64>,
    tier: Option<string>,
    metadata: Option<Json>)

  /** board.toml and rankings.toml. */
  datatype BoardFile = BoardFile(
    slug: Slug,
    name: string,
    boardType: BoardType,
    sortDirection: Direction,
    accumulative: bool,
    tiers: seq<ParsedTier>,
    metadata: Option<Json>,
    entries: seq<ParsedEntry>,
    versionMetadata: Option<Json>)

  datatype SyncAction =
    | VersionCreated(number: int)
    | VersionAdded(number: int)
    | NoChange
    | Skipped

  // ------------------------------------------------------------------ the board

  /** Tiers are numbered from 1; no tiers is no configuration. */
  function TierConfigOf(tiers: seq<ParsedTier>): Option<TierConfig> {
    if tiers == [] then None
    else Some(TierConfig(seq(|tiers|, i requires 0 <= i < |tiers| =>
      Tier(tiers[i].key, i + 1, tiers[i].tierLabel))))
  }

  function BoardOf(file: BoardFile): Board {
    Board(file.slug, file.name, file.boardType, file.sortDirection, TierConfigOf(file.tiers),
          file.metadata, false, false, false)
  }

  function NullableOf<T>(v: Option<T>): Nullable<T> {
    match v
    case Some(x) => Value(x)
    case None => Null
  }

  /** The fields of the file that differ from the board. */
  function BoardChange(b: Board, file: BoardFile): UpdateBoard {
    UpdateBoard(
      if b.name != file.name then Some(file.name) else None,
      if b.sortDirection != file.sortDirection then Some(file.sortDirection) else None,
      if b.tierConfig != TierConfigOf(file.tiers) then NullableOf(TierConfigOf(file.tiers)) else Absent,
      if b.metadata != file.metadata then NullableOf(file.metadata) else Absent,
      None, None)
  }

  /** The board has the file's name, direction, tiers and metadata. */
  predicate BoardMatches(b: Board, file: BoardFile) {
    && b.name == file.name && b.sortDirection == file.sortDirection
    && b.tierConfig == TierConfigOf(file.tiers) && b.metadata == file.metadata
  }

  predicate RankingConfigChanged(b: Board, file: BoardFile) {
    b.sortDirection != file.sortDirection || b.tierConfig != TierConfigOf(file.tiers)
  }

  // ------------------------------------------------------------------ the entries

  predicate EntryMatches(row: EntryRow, e: ParsedEntry) {
    row.name == e.name && row.metadata == e.metadata
  }

  function EntryChange(row: EntryRow, e: ParsedEntry): UpdateEntry {
    UpdateEntry(if row.name != e.name then Some(e.name) else None,
                if row.metadata != e.metadata then NullableOf(e.metadata) else Absent)
  }

  /** Why one entry of the file is refused: `existing` was read before the loop. */
  function EntryError(existing: map<Slug, EntryRow>, t: Tables, e: ParsedEntry): Option<Error> {
    if e.slug !in existing then
      (if !ValidSlug(e.slug) || !ValidName(e.name) then Some(Validation)
       else if e.slug in t.entries then Some(Conflict)
       else None)
    else if EntryMatches(existing[e.slug], e) then None
    else if existing[e.slug].name != e.name && !ValidName(e.name) then Some(Validation)
    else if e.slug !in t.entries then Some(NotFound)
    else None
  }

  /** One entry created, updated or left. */
  function EntryStep(existing: map<Slug, EntryRow>, t: Tables, e: ParsedEntry): Tables
    requires EntryError(existing, t, e).None?
  {
    if e.slug !in existing then WithEntry(t, e.slug, e.name, e.metadata)
    else if EntryMatches(existing[e.slug], e) then t
    else WithUpdate(t, e.slug, EntryChange(existing[e.slug], e))
  }

  /** How far the loop over the entries got, and why it stopped, if it did. */
  datatype Progress = Progress(t: Tables, error: Option<Error>)

  function SyncEntries(existing: map<Slug, EntryRow>, t: Tables, es: seq<ParsedEntry>): Progress {
    if es == [] then Progress(t, None)
    else
      var before := SyncEntries(existing, t, es[..|es| - 1]);
      if before.error.Some? then before
      else
        var error := EntryError(existing, before.t, es[|es| - 1]);
        if error.Some? then Progress(before.t, error)
        else Progress(EntryStep(existing, before.t, es[|es| - 1]), None)
  }

  // ------------------------------------------------------------- change detection

  function PlacementOf(e: ParsedEntry): CreatePlacement {
    CreatePlacement(e.slug, e.position, e.score, e.tier, e.metadata)
  }

  function PlacementsOf(es: seq<ParsedEntry>): (r: seq<CreatePlacement>)
    ensures |r| == |es|
  {
    seq(|es|, i requires 0 <= i < |es| => PlacementOf(es[i]))
  }

  /** An explicit position is compared as it is, an implicit one only on ordered boards. */
  predicate PositionDiffers(boardType: BoardType, row: Placement, p: CreatePlacement, i: int) {
    if p.position.Some? then row.position != p.position
    else boardType.Ordered? && row.position != Some(i + 1)
  }

  predicate RowDiffers(boardType: BoardType, row: Placement, p: CreatePlacement, i: int) {
    || PositionDiffers(boardType, row, p, i)
    || !ScoresEqual(row.score, p.score)
    || row.tier != p.tier
    || row.metadata != p.metadata
  }

  predicate Differs(boardType: BoardType, current: seq<PlacementWithEntry>, proposed: seq<CreatePlacement>) {
    || |current| != |proposed|
    || exists i :: 0 <= i < |proposed| && ProposalDiffers(boardType, BySlug(current), proposed, i)
  }

  predicate ProposalDiffers(
    boardType: BoardType, current: map<Slug, PlacementWithEntry>, proposed: seq<CreatePlacement>, i: nat)
    requires i < |proposed|
  {
    var slug := proposed[i].entrySlug;
    slug !in current || RowDiffers(boardType, current[slug].placement, proposed[i], i)
  }

  /** `placements_changed`. */
  method PlacementsChanged(boardType: BoardType, current: seq<PlacementWithEntry>, proposed: seq<CreatePlacement>)
    returns (changed: bool)
    ensures changed <==> Differs(boardType, current, proposed)
  {
    if |current| != |proposed| {
      return true;
    }
    var currentMap := BySlug(current);
    for idx := 0 to |proposed|
      invariant forall i | 0 <= i < idx :: !ProposalDiffers(boardType, currentMap, proposed, i)
    {
      var p := proposed[idx];
      if p.entrySlug !in currentMap {
        assert ProposalDiffers(boardType, currentMap, proposed, idx);
        return true;
      }
      var row := currentMap[p.entrySlug].placement;
      assert ProposalDiffers(boardType, currentMap, proposed, idx) <==> RowDiffers(boardType, row, p, idx);
      if p.position.Some? {
        if row.position != p.position {
          return true;
        }
      } else if boardType.Ordered? {
        if row.position != Some(idx + 1) {
          return true;
        }
      }
      if !ScoresEqual(row.score, p.score) || row.tier != p.tier || row.metadata != p.metadata {
        return true;
      }
    }
    return false;
  }

  // --------------------------------------------------------------------- the sync

  /** The board's rows afterwards (None: still no such board), and the reply. */
  datatype Outcome = Outcome(t: Option<Tables>, result: Result<SyncAction>)

  function InputOf(file: BoardFile, note: string): CreateVersion {
    CreateVersion(Some(note), file.versionMetadata, PlacementsOf(file.entries))
  }

  predicate NeedsVersion(t: Tables, file: BoardFile, forced: bool)
    requires WellFormed(t)
  {
    || forced
    || t.versions == []
    || Differs(t.board.boardType, FetchPlacements(t, Newest(t.versions).id), PlacementsOf(file.entries))
  }

  predicate Creatable(t: Tables, ps: seq<CreatePlacement>) {
    !t.board.accumulative && Acceptable(t.board, ps) && AllFound(t.entries, ps)
  }

  /** The last part: compare with the latest version, and create one if needed. */
  function SyncVersion(t: Tables, file: BoardFile, note: string, forced: bool): (o: Outcome)
    requires WellFormed(t)
    ensures o.t.Some?
  {
    var input := InputOf(file, note);
    if !NeedsVersion(t, file, forced) then Outcome(Some(t), Success(NoChange))
    else if !Creatable(t, input.placements) then Outcome(Some(t), Failure(Validation))
    else
      var n := NextNumber(t.versions);
      Outcome(Some(Created(t, input)), Success(if n == 1 then VersionCreated(n) else VersionAdded(n)))
  }

  /** The entries, then the version. */
  function SyncRows(t: Tables, file: BoardFile, note: string, forced: bool): (o: Outcome)
    requires WellFormed(t)
    ensures o.t.Some?
  {
    if file.entries == [] then Outcome(Some(t), Success(NoChange))
    else
      SyncKeepsKeys(t.entries, t, file.entries);
      var synced := SyncEntries(t.entries, t, file.entries);
      if synced.error.Some? then Outcome(Some(synced.t), Failure(synced.error.value))
      else SyncVersion(synced.t, file, note, forced)
  }

  /** The board row created or brought up to date; whether that changes the ranking. */
  datatype Prepared = Prepared(t: Tables, rankingChanged: bool)

  function BoardStep(t: Option<Tables>, file: BoardFile): Result<Prepared> {
    match t
    case None =>
      if CanCreateBoard(BoardOf(file)) then Success(Prepared(NewBoard(BoardOf(file)), false)) else Failure(Validation)
    case Some(t) =>
      if BoardMatches(t.board, file) then Success(Prepared(t, false))
      else if !CanUpdate(t.board, BoardChange(t.board, file)) then Failure(Validation)
      else Success(Prepared(t.(board := BoardAfter(t.board, BoardChange(t.board, file))),
                            RankingConfigChanged(t.board, file)))
  }

  lemma BoardStepKeepsKeys(t: Option<Tables>, file: BoardFile)
    requires t.Some? ==> WellFormed(t.value)
    ensures BoardStep(t, file).Success? ==> WellFormed(BoardStep(t, file).value.t)
  {
    if t.Some? && CanUpdate(t.value.board, BoardChange(t.value.board, file)) {
      BoardKeepsKeys(t.value, BoardAfter(t.value.board, BoardChange(t.value.board, file)));
    }
  }

  /** `sync_board`. */
  function SyncFile(t: Option<Tables>, file: BoardFile, note: string): Outcome
    requires t.Some? ==> WellFormed(t.value)
  {
    if file.accumulative then Outcome(t, Success(Skipped))
    else
      BoardStepKeepsKeys(t, file);
      var prepared := BoardStep(t, file);
      if prepared.Failure? then Outcome(t, Failure(prepared.error))
      else SyncRows(prepared.value.t, file, note, prepared.value.rankingChanged)
  }

  lemma StepKeepsKeys(existing: map<Slug, EntryRow>, t: Tables, e: ParsedEntry)
    requires WellFormed(t) && EntryError(existing, t, e).None?
    ensures WellFormed(EntryStep(existing, t, e))
  {
    if e.slug !in existing {
      EntryKeepsKeys(t, e.slug, e.name, e.metadata);
    } else if !EntryMatches(existing[e.slug], e) {
      UpdateKeepsKeys(t, e.slug, EntryChange(existing[e.slug], e));
    }
  }

  lemma {:induction false} SyncKeepsKeys(existing: map<Slug, EntryRow>, t: Tables, es: seq<ParsedEntry>)
    requires WellFormed(t)
    ensures WellFormed(SyncEntries(existing, t, es).t)
  {
    if es != [] {
      var n := |es| - 1;
      SyncKeepsKeys(existing, t, es[..n]);
      var before := SyncEntries(existing, t, es[..n]);
      if before.error.None? && EntryError(existing, before.t, es[n]).None? {
        StepKeepsKeys(existing, before.t, es[n]);
      }
    }
  }

  /** One iteration of the loop over the file's entries. */
  method SyncEntry(db: Database, slug: Slug, existing: map<Slug, EntryRow>, e: ParsedEntry) returns (r: Result<()>)
    requires db.Valid() && slug in db.boards
    modifies db
    ensures db.Valid()
    ensures var t := old(db.boards)[slug];
            && (r.Failure? <==> EntryError(existing, t, e).Some?)
            && (r.Failure? ==> Some(r.error) == EntryError(existing, t, e) && db.boards == old(db.boards))
            && (r.Success? ==> db.boards == old(db.boards)[slug := EntryStep(existing, t, e)])
  {
    if e.slug !in existing {
      r := CreateEntry(db, slug, e.slug, e.name, e.metadata);
      return;
    }
    var row := existing[e.slug];
    if row.name != e.name || row.metadata != e.metadata {
      var u := UpdateEntry(if row.name != e.name then Some(e.name) else None,
                           if row.metadata != e.metadata then NullableOf(e.metadata) else Absent);
      r := EntryUpdate(db, slug, e.slug, u);
      return;
    }
    return Success(());
  }

  method SyncAllEntries(db: Database, slug: Slug, es: seq<ParsedEntry>) returns (r: Result<()>)
    requires db.Valid() && slug in db.boards
    modifies db
    ensures db.Valid()
    ensures var synced := SyncEntries(old(db.boards)[slug].entries, old(db.boards)[slug], es);
            && db.boards == old(db.boards)[slug := synced.t]
            && r == if synced.error.Some? then Failure(synced.error.value) else Success(())
  {
    ghost var t := db.boards[slug];
    ghost var boards := db.boards;
    var existing := db.boards[slug].entries;
    assert db.boards == boards[slug := t];
    hide WellFormed, EntryError, EntryStep;
    for i := 0 to |es|
      invariant db.Valid()
      invariant db.boards == boards[slug := SyncEntries(existing, t, es[..i]).t]
      invariant SyncEntries(existing, t, es[..i]).error.None?
    {
      ghost var before := SyncEntries(existing, t, es[..i]).t;
      SyncOneMore(existing, t, es, i);
      var synced := SyncEntry(db, slug, existing, es[i]);
      hide SyncEntries;
      if synced.Failure? {
        StaysFailed(existing, t, es, i + 1);
        return Failure(synced.error);
      }
      SetTwice(boards, slug, before, EntryStep(existing, before, es[i]));
    }
    assert es[..|es|] == es;
    return Success(());
  }

  lemma SetTwice(m: map<Slug, Tables>, slug: Slug, a: Tables, b: Tables)
    ensures m[slug := a][slug := b] == m[slug := b]
  {
  }

  lemma SyncOneMore(existing: map<Slug, EntryRow>, t: Tables, es: seq<ParsedEntry>, i: nat)
    requires i < |es| && SyncEntries(existing, t, es[..i]).error.None?
    ensures var before := SyncEntries(existing, t, es[..i]).t;
            var after := SyncEntries(existing, t, es[..i + 1]);
            && after.error == EntryError(existing, before, es[i])
            && after.t == if after.error.Some? then before else EntryStep(existing, before, es[i])
  {
    assert es[..i + 1][..i] == es[..i];
  }

  lemma {:induction false} StaysFailed(existing: map<Slug, EntryRow>, t: Tables, es: seq<ParsedEntry>, i: nat)
    requires i <= |es| && SyncEntries(existing, t, es[..i]).error.Some?
    ensures SyncEntries(existing, t, es) == SyncEntries(existing, t, es[..i])
    decreases |es|
  {
    if i == |es| {
      assert es[..i] == es;
    } else {
      var n := |es| - 1;
      assert es[..n][..i] == es[..i];
      StaysFailed(existing, t, es[..n], i);
    }
  }

  /** From the comparison with the latest version to the end. */
  method SyncLatest(db: Database, file: BoardFile, note: string, forced: bool) returns (r: Result<SyncAction>)
    requires db.Valid() && file.slug in db.boards
    modifies db
    ensures db.Valid()
    ensures var o := SyncVersion(old(db.boards)[file.slug], file, note, forced);
            r == o.result && db.boards == old(db.boards)[file.slug := o.t.value]
  {
    var t := db.boards[file.slug];
    var placements := PlacementsOf(file.entries);
    var needsVersion := true;
    if !forced {
      var latest := GetLatest(t);
      if latest.Success? {
        needsVersion := PlacementsChanged(t.board.boardType, latest.value.placements, placements);
      }
    }
    if !needsVersion {
      return Success(NoChange);
    }
    hide WellFormed, Differs, Acceptable, Created, NextNumber;
    r := CreateFromFile(db, t.board, CreateVersion(Some(note), file.versionMetadata, placements));
  }

  /** The new version, and how it is reported. */
  method CreateFromFile(db: Database, board: Board, input: CreateVersion) returns (r: Result<SyncAction>)
    requires db.Valid() && board.slug in db.boards && db.boards[board.slug].board == board
    modifies db
    ensures db.Valid()
    ensures var t := old(db.boards)[board.slug];
            && (r.Success? <==> Creatable(t, input.placements))
            && (r.Failure? ==> r.error == Validation && db.boards == old(db.boards))
            && (r.Success? ==>
                  && db.boards == old(db.boards)[board.slug := Created(t, input)]
                  && var n := NextNumber(t.versions);
                     r.value == if n == 1 then VersionCreated(n) else VersionAdded(n))
  {
    ghost var t := db.boards[board.slug];
    AcceptableIsValid(board, input.placements);
    hide WellFormed, Acceptable, IsValid, HoldsInput, ListsRows, IsNextNumber, NextNumber;
    var created := Create(db, board, input, None);
    if created.Failure? {
      return Failure(created.error);
    }
    AppendedParts(t, NewVersion(t, input), NewRows(t, t.nextId, input.placements));
    assert created.value.version == NewVersion(t, input);
    var number := created.value.version.number;
    return Success(if number == 1 then VersionCreated(number) else VersionAdded(number));
  }

  /** The row the database has for the file's board. */
  ghost function RowsFor(boards: map<Slug, Tables>, slug: Slug): Option<Tables> {
    if slug in boards then Some(boards[slug]) else None
  }

  method PrepareBoard(db: Database, file: BoardFile) returns (r: Result<bool>)
    requires db.Valid()
    modifies db
    ensures db.Valid()
    ensures var step := BoardStep(RowsFor(old(db.boards), file.slug), file);
            && (r.Failure? <==> step.Failure?)
            && (r.Failure? ==> r.error == step.error && db.boards == old(db.boards))
            && (r.Success? ==> r.value == step.value.rankingChanged
                               && db.boards == old(db.boards)[file.slug := step.value.t])
  {
    var tierConfig := TierConfigOf(file.tiers);
    if file.slug !in db.boards {
      var _ :- CreateBoard(db, BoardOf(file));
      return Success(false);
    }
    var b := db.boards[file.slug].board;
    hide WellFormed, CanUpdate;
    var rankingConfigChanged := b.sortDirection != file.sortDirection || b.tierConfig != tierConfig;
    if b.name != file.name || rankingConfigChanged || b.metadata != file.metadata {
      var _ :- Update(db, file.slug, BoardChange(b, file));
    }
    return Success(rankingConfigChanged);
  }

  method SyncBoard(db: Database, file: BoardFile, note: string) returns (r: Result<SyncAction>)
    requires db.Valid()
    modifies db
    ensures db.Valid()
    ensures var o := SyncFile(RowsFor(old(db.boards), file.slug), file, note);
            && r == o.result
            && db.boards == if o.t.Some? then old(db.boards)[file.slug := o.t.value] else old(db.boards)
    ensures file.accumulative ==> r == Success(Skipped) && db.boards == old(db.boards)
  {
    if file.accumulative {
      return Success(Skipped);
    }
    hide WellFormed, BoardStep, SyncEntries, SyncVersion;
    ghost var boards := db.boards;
    var rankingConfigChanged :- PrepareBoard(db, file);
    if file.entries == [] {
      return Success(NoChange);
    }
    r := SyncEntriesAndVersion(db, file, note, rankingConfigChanged);
    SetTwice(boards, file.slug, BoardStep(RowsFor(boards, file.slug), file).value.t, db.boards[file.slug]);
  }

  method SyncEntriesAndVersion(db: Database, file: BoardFile, note: string, forced: bool)
    returns (r: Result<SyncAction>)
    requires db.Valid() && file.slug in db.boards && file.entries != []
    modifies db
    ensures db.Valid()
    ensures var o := SyncRows(old(db.boards)[file.slug], file, note, forced);
            && r == o.result
            && db.boards == old(db.boards)[file.slug := o.t.value]
  {
    hide WellFormed, SyncEntries, SyncVersion;
    ghost var boards := db.boards;
    var _ :- SyncAllEntries(db, file.slug, file.entries);
    ghost var t := db.boards[file.slug];
    r := SyncLatest(db, file, note, forced);
    SetTwice(boards, file.slug, t, db.boards[file.slug]);
  }
}
