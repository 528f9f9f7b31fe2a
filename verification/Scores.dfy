/** `scores.rs`: the staging table of accumulative boards, and its snapshots. */
module Scores {
  import opened Core
  import opened Floats
  import opened Ranking
  import opened Tables
  import opened Appending
  import opened Versions

  datatype SnapshotLimits = SnapshotLimits(maxVersions: Option<int>, maxEntries: Option<nat>)

  // ------------------------------------------------------------------- submit

  /** The entry's id: its own, or the next one. */
  function EntryFor(t: Tables, slug: Slug): EntryId {
    if slug in t.entries then t.entries[slug].id else t.nextId
  }

  /** The board after a submission: the entry exists under the new name with its
      metadata as it was, and its score is the last one submitted. */
  function Submitted(t: Tables, slug: Slug, name: string, score: Float64): Tables {
    var id := EntryFor(t, slug);
    t.(entries := t.entries[slug := if slug in t.entries then t.entries[slug].(name := name)
                                    else EntryRow(id, name, None)],
       accumulated := t.accumulated[id := score],
       nextId := if slug in t.entries then t.nextId else t.nextId + 1)
  }

  lemma SubmittedIsWellFormed(t: Tables, slug: Slug, name: string, score: Float64)
    requires WellFormed(t) && ValidSlug(slug) && ValidName(name)
    ensures WellFormed(Submitted(t, slug, name, score))
  {
    var t' := Submitted(t, slug, name, score);
    forall id | HasId(t.entries, id) || id == EntryFor(t, slug) ensures HasId(t'.entries, id) {
      if id == EntryFor(t, slug) {
        assert t'.entries[slug].id == id;
      } else {
        var s :| s in t.entries && t.entries[s].id == id;
        assert t'.entries[s].id == id;
      }
    }
  }

  /** The entry is there under the new name, with its id and metadata if it was there
      before, and its staged score is this one; nothing else changes. */
  ghost predicate IsSubmitted(t: Tables, t': Tables, slug: Slug, name: string, score: Float64) {
    && slug in t'.entries && t'.entries[slug].name == name
    && (if slug in t.entries
        then t'.entries[slug].id == t.entries[slug].id && t'.entries[slug].metadata == t.entries[slug].metadata
        else !HasId(t.entries, t'.entries[slug].id) && t'.entries[slug].metadata == None)
    && t'.accumulated == t.accumulated[t'.entries[slug].id := score]
    && (forall s: Slug | s != slug :: s in t'.entries <==> s in t.entries)
    && (forall s: Slug | s != slug && s in t.entries :: t'.entries[s] == t.entries[s])
    && t'.board == t.board && t'.versions == t.versions && t'.placements == t.placements
  }

  lemma SubmittedIs(t: Tables, slug: Slug, name: string, score: Float64)
    requires EntriesOk(t)
    ensures IsSubmitted(t, Submitted(t, slug, name, score), slug, name, score)
  {
  }

  /** `submit`. */
  method Submit(db: Database, board: Board, slug: Slug, name: string, score: Float64) returns (r: Result<Float64>)
    requires db.Valid()
    modifies db
    ensures db.Valid()
    ensures r == if !board.accumulative || !board.boardType.Scored? || Exponent(score) >= 2047
                    || !IsSlug(slug) || !(0 < |name| < 257) then Failure(Validation)
                 else if board.slug !in old(db.boards) then Failure(Error.Database)
                 else Success(score)
    ensures r.Success? ==>
              board.slug in db.boards
              && IsSubmitted(old(db.boards)[board.slug], db.boards[board.slug], slug, name, score)
    ensures db.boards ==
            if r.Success? then old(db.boards)[board.slug := Submitted(old(db.boards)[board.slug], slug, name, score)]
            else old(db.boards)
  {
    ValidSlugIs(slug);
    ValidSlugIs(name);
    NaNIs(score);
    hide IsSlug;
    if !board.accumulative || !board.boardType.Scored? {
      return Failure(Validation);
    }
    if !IsFinite(score) || !ValidSlug(slug) || !ValidName(name) {
      return Failure(Validation);
    }
    if board.slug !in db.boards {
      return Failure(Error.Database);
    }
    var tx := new Transaction(db.boards[board.slug]);
    SubmittedIsWellFormed(db.boards[board.slug], slug, name, score);
    SubmittedIs(db.boards[board.slug], slug, name, score);
    hide WellFormed, ValidSlug, ValidName, IsFinite, IsSubmitted;
    Stage(tx, slug, name, score);
    db.boards := db.boards[board.slug := tx.View()];
    return Success(score);
  }

  /** The two upserts of the transaction. */
  method Stage(tx: Transaction, slug: Slug, name: string, score: Float64)
    modifies tx
    ensures tx.View() == Submitted(old(tx.View()), slug, name, score)
  {
    var id := tx.nextId;
    if slug in tx.entries {
      id := tx.entries[slug].id;
      tx.entries := tx.entries[slug := tx.entries[slug].(name := name)];
    } else {
      var inserted := tx.InsertEntry(slug, name, None);
    }
    tx.accumulated := tx.accumulated[id := score];
  }

  /** What the staging table says, slug by slug. */
  ghost function Staged(t: Tables): map<Slug, Float64> {
    map slug | slug in t.entries && t.entries[slug].id in t.accumulated :: t.accumulated[t.entries[slug].id]
  }

  /** A submission replaces the score of its own slug and no other. */
  lemma SubmitStages(t: Tables, slug: Slug, name: string, score: Float64)
    requires WellFormed(t)
    ensures Staged(Submitted(t, slug, name, score)) == Staged(t)[slug := score]
  {
    hide Submitted, Staged;
    var after := Staged(Submitted(t, slug, name, score));
    forall s: Slug
      ensures s in after <==> s == slug || s in Staged(t)
      ensures s in after ==> after[s] == if s == slug then score else Staged(t)[s]
    {
      StagedAfter(t, slug, name, score, s);
    }
    hide *;
    OneReplaced(Staged(t), after, slug, score);
  }

  lemma OneReplaced(before: map<Slug, Float64>, after: map<Slug, Float64>, slug: Slug, score: Float64)
    requires forall s :: s in after <==> s == slug || s in before
    requires forall s | s in after :: after[s] == if s == slug then score else before[s]
    ensures after == before[slug := score]
  {
  }

  lemma StagedAfter(t: Tables, slug: Slug, name: string, score: Float64, s: Slug)
    requires EntriesOk(t)
    ensures var after := Staged(Submitted(t, slug, name, score));
            && (s in after <==> s == slug || s in Staged(t))
            && (s in after ==> after[s] == if s == slug then score else Staged(t)[s])
  {
    if s in t.entries && s != slug {
      assert t.entries[s].id != EntryFor(t, slug);
    }
  }

  // ----------------------------------------------------------------- snapshot

  /** The rows to insert: each staged score once, without a position. */
  ghost predicate ListsStaged(rows: seq<Placement>, v: VersionId, accumulated: map<EntryId, Float64>) {
    && (forall i | 0 <= i < |rows| ::
          && rows[i].entryId in accumulated
          && rows[i] == Placement(v, rows[i].entryId, None, Some(accumulated[rows[i].entryId]), None, None))
    && (forall i, j | 0 <= i < j < |rows| :: rows[i].entryId != rows[j].entryId)
    && (forall e | e in accumulated :: exists i :: 0 <= i < |rows| && rows[i].entryId == e)
  }

  /** The SELECT over the staging table, in whatever order it comes. */
  method ReadStaged(v: VersionId, accumulated: map<EntryId, Float64>) returns (rows: seq<Placement>)
    ensures ListsStaged(rows, v, accumulated) && |rows| == |accumulated|
  {
    rows := [];
    var todo := accumulated.Keys;
    ghost var seen: map<EntryId, Float64> := map[];
    while todo != {}
      invariant todo <= accumulated.Keys && seen == accumulated - todo
      invariant ListsStaged(rows, v, seen) && |rows| + |todo| == |accumulated|
      decreases todo
    {
      var e :| e in todo;
      OneMoreStaged(rows, v, seen, e, accumulated[e]);
      rows := rows + [Placement(v, e, None, Some(accumulated[e]), None, None)];
      seen := seen[e := accumulated[e]];
      todo := todo - {e};
      assert seen == accumulated - todo;
    }
    assert accumulated - todo == accumulated;
  }

  lemma OneMoreStaged(rows: seq<Placement>, v: VersionId, m: map<EntryId, Float64>, e: EntryId, score: Float64)
    requires ListsStaged(rows, v, m) && e !in m
    ensures ListsStaged(rows + [Placement(v, e, None, Some(score), None, None)], v, m[e := score])
  {
    var more, m' := rows + [Placement(v, e, None, Some(score), None, None)], m[e := score];
    forall f | f in m' ensures exists i :: 0 <= i < |more| && more[i].entryId == f {
      if f == e {
        assert more[|rows|].entryId == f;
      } else {
        var i :| 0 <= i < |rows| && rows[i].entryId == f;
        assert more[i].entryId == f;
      }
    }
  }

  function NextVersion(t: Tables, note: Option<string>, metadata: Option<Json>): Version {
    Version(t.nextId, NextNumber(t.versions), note, metadata)
  }

  lemma NextVersionIs(t: Tables, note: Option<string>, metadata: Option<Json>)
    ensures var version := NextVersion(t, note, metadata);
            && version.id == t.nextId && IsNextNumber(t.versions, version.number)
            && version.note == note && version.metadata == metadata
  {
  }

  lemma StagedRowsFit(t: Tables, rows: seq<Placement>)
    requires WellFormed(t) && ListsStaged(rows, t.nextId, t.accumulated)
    ensures RowsFit(t, rows)
  {
  }

  /** The new version: exactly the staged scores, ranked under the board's direction;
      the staging table and every other version stay as they were. */
  ghost predicate HoldsStaged(t: Tables, t': Tables, version: Version) {
    && WellFormed(t') && t'.board == t.board && t'.entries == t.entries && t'.accumulated == t.accumulated
    && t'.versions == t.versions + [version]
    && ScoresOf(Standings(t', version.id)) == Staged(t)
    && Standings(t', version.id).Keys == Staged(t).Keys
    && RankedUnder(t', version.id, t.board.sortDirection)
    && NumbersScores(t.board.sortDirection, Standings(t', version.id))
    && forall w | w != version.id :: Standings(t', w) == Standings(t, w)
  }

  lemma SnapshotHoldsStaged(t: Tables, version: Version, rows: seq<Placement>)
    requires WellFormed(t) && t.board.boardType.Scored? && VersionFits(t, version)
    requires ListsStaged(rows, t.nextId, t.accumulated)
    ensures HoldsStaged(t, Appended(t, version, rows), version)
  {
    StagedRowsFit(t, rows);
    assert forall i | 0 <= i < |rows| :: rows[i].score.Some?;
    assert version.id == t.nextId;
    hide Appended, WellFormed, RowsFit, VersionFits, RankedUnder, Standings, Staged, ListsStaged, ScoresOf,
      NumbersScores;
    AppendedNumbers(t, version, rows);
    var t' := Appended(t, version, rows);
    AppendedIsWellFormed(t, version, rows);
    AppendedIsRanked(t, version, rows);
    AppendedParts(t, version, rows);
    forall w | w != version.id ensures Standings(t', w) == Standings(t, w) {
      AppendedKeepsStandings(t, version, rows, w);
    }
    forall slug ensures slug in Standings(t', t.nextId) <==> slug in Staged(t)
                ensures slug in Standings(t', t.nextId) ==> Standings(t', t.nextId)[slug].score == Some(Staged(t)[slug])
    {
      SnapshotRow(t, version, rows, slug);
    }
    ScoresAre(Standings(t', t.nextId), Staged(t));
  }

  lemma ScoresAre(rows: map<Slug, Placement>, scores: map<Slug, Float64>)
    requires forall slug :: slug in rows <==> slug in scores
    requires forall slug | slug in rows :: rows[slug].score == Some(scores[slug])
    ensures rows.Keys == scores.Keys && ScoresOf(rows) == scores
  {
  }

  lemma SnapshotRow(t: Tables, version: Version, rows: seq<Placement>, slug: Slug)
    requires WellFormed(t) && t.board.boardType.Scored? && VersionFits(t, version)
    requires ListsStaged(rows, t.nextId, t.accumulated) && RowsFit(t, rows)
    ensures var s := Standings(Appended(t, version, rows), t.nextId);
            && (slug in s <==> slug in Staged(t))
            && (slug in s ==> s[slug].score == Some(Staged(t)[slug]))
  {
    if slug in Staged(t) {
      var i :| 0 <= i < |rows| && rows[i].entryId == t.entries[slug].id;
      AppendedStandings(t, version, rows, i);
      JoinedIs(t.entries, slug, rows[i]);
    }
    if slug in Standings(Appended(t, version, rows), t.nextId) {
      var i := AppendedStandingsOnly(t, version, rows, slug);
    }
  }

  /** `snapshot`, under the board lock. A board's type never changes, so the row read
      under the lock has the type that the caller's has. */
  method Snapshot(
    db: Database, board: Board, note: Option<string>, metadata: Option<Json>, limits: SnapshotLimits)
    returns (r: Result<VersionWithPlacements>)
    requires db.Valid() && (board.slug in db.boards ==> db.boards[board.slug].board.boardType == board.boardType)
    modifies db
    ensures db.Valid()
    ensures r.Failure? ==>
              && db.boards == old(db.boards)
              && r.error == if board.accumulative && board.boardType.Scored? && board.slug !in old(db.boards)
                            then Error.Database else Validation
    ensures r.Success? <==>
              && board.accumulative && board.boardType.Scored? && board.slug in old(db.boards)
              && var t := old(db.boards)[board.slug];
                 && |t.accumulated| > 0
                 && (limits.maxVersions.Some? ==> |t.versions| < limits.maxVersions.value)
                 && (limits.maxEntries.Some? ==> |t.accumulated| <= limits.maxEntries.value)
    ensures r.Success? ==>
              var t := old(db.boards)[board.slug];
              && board.slug in db.boards
              && db.boards == old(db.boards)[board.slug := db.boards[board.slug]]
              && r.value.version.id == t.nextId && IsNextNumber(t.versions, r.value.version.number)
              && r.value.version.note == note && r.value.version.metadata == metadata
              && HoldsStaged(t, db.boards[board.slug], r.value.version)
              && r.value.placements == FetchPlacements(db.boards[board.slug], r.value.version.id)
  {
    if !board.accumulative || !board.boardType.Scored? {
      return Failure(Validation);
    }
    if board.slug !in db.boards {
      return Failure(Error.Database);
    }
    hide WellFormed, ListsStaged, HoldsStaged, IsNextNumber, NextVersion;
    var t := db.boards[board.slug];
    NextVersionIs(t, note, metadata);
    if limits.maxVersions.Some? && |t.versions| >= limits.maxVersions.value {
      return Failure(Validation);
    }
    var rows := ReadStaged(t.nextId, t.accumulated);
    if rows == [] || (limits.maxEntries.Some? && |rows| > limits.maxEntries.value) {
      return Failure(Validation);
    }
    var placed := Store(db, board.slug, rows, note, metadata);
    return Success(placed);
  }

  /** From the version row to the commit. */
  method Store(db: Database, slug: Slug, rows: seq<Placement>, note: Option<string>, metadata: Option<Json>)
    returns (placed: VersionWithPlacements)
    requires db.Valid() && slug in db.boards && db.boards[slug].board.boardType.Scored?
    requires ListsStaged(rows, db.boards[slug].nextId, db.boards[slug].accumulated)
    modifies db
    ensures db.Valid() && slug in db.boards
    ensures db.boards == old(db.boards)[slug := db.boards[slug]]
    ensures placed.version == NextVersion(old(db.boards)[slug], note, metadata)
    ensures HoldsStaged(old(db.boards)[slug], db.boards[slug], placed.version)
    ensures placed.placements == FetchPlacements(db.boards[slug], placed.version.id)
  {
    hide WellFormed, ListsStaged, HoldsStaged, Appended, NextVersion, VersionFits;
    var t := db.boards[slug];
    var tx := new Transaction(t);
    var version := WriteStaged(tx, t, rows, note, metadata);
    SnapshotHoldsStaged(t, version, rows);
    StoredIsReadable(t, tx.View(), version);
    db.boards := db.boards[slug := tx.View()];
    placed := VersionWithPlacements(version, FetchPlacements(tx.View(), version.id));
  }

  lemma StoredIsReadable(t: Tables, t': Tables, version: Version)
    requires HoldsStaged(t, t', version)
    ensures WellFormed(t') && t'.board == t.board
    ensures UniqueIds(t'.entries) && EntriesExist(t'.entries, t'.placements)
  {
  }

  /** The version row, the placements and their positions. */
  method WriteStaged(
    tx: Transaction, ghost t: Tables, rows: seq<Placement>, note: Option<string>, metadata: Option<Json>)
    returns (version: Version)
    requires WellFormed(t) && tx.View() == t && t.board.boardType.Scored?
    requires ListsStaged(rows, t.nextId, t.accumulated)
    modifies tx
    ensures version == NextVersion(t, note, metadata) && VersionFits(t, version)
    ensures tx.View() == Appended(t, version, rows)
  {
    var inserted := tx.InsertVersion(NextNumber(tx.versions), note, metadata);
    version := inserted.value;
    StagedRowsFit(t, rows);
    RowsStayUnique(t, rows, version.id);
    hide WellFormed, ListsStaged, UniqueEntries, RowsFit;
    InsertRows(tx, t, version, rows);
    tx.DeriveScoredPositions(version.id);
  }

  method InsertRows(tx: Transaction, ghost t: Tables, version: Version, rows: seq<Placement>)
    requires WellFormed(t) && VersionFits(t, version) && RowsFit(t, rows)
    requires tx.View() == t.(versions := t.versions + [version], nextId := t.nextId + 1)
    modifies tx`placements
    ensures tx.placements == t.placements + rows
  {
    hide WellFormed, VersionFits, RowsFit, HasId, HasRow, IsVersion;
    for i := 0 to |rows|
      invariant tx.placements == t.placements + rows[..i]
    {
      RowIsFree(t, version, rows, i);
      assert rows[..i + 1] == rows[..i] + [rows[i]];
      var placed := tx.InsertPlacement(rows[i]);
    }
    assert rows[..|rows|] == rows;
  }
}
