/** Runs of the file sync one after another: what the ranking and the comparison
    carry over from one run to the next. */
module SyncRuns {
  import opened Core
  import opened Floats
  import opened Ordering
  import opened Ranking
  import opened Tables
  import opened Appending
  import opened Versions
  import opened Boards
  import opened Sync
  import opened SyncTheorems

  // ------------------------------------------------------- the ranking stays current

  /** The newest version of a scored board is the ranking under the board's direction. */
  ghost predicate LatestRanked(t: Tables) {
    t.board.boardType.Scored? && t.versions != [] ==>
      RankedUnder(t, Newest(t.versions).id, t.board.sortDirection)
  }

  lemma IdsKeptStandings(t: Tables, t': Tables, v: VersionId)
    requires WellFormed(t) && IdsKept(t, t')
    ensures Standings(t', v) == Standings(t, v)
  {
    forall slug | slug in t'.entries && slug !in t.entries
      ensures !HasRow(t.placements, v, t'.entries[slug].id)
    {
      forall i | 0 <= i < |t.placements| ensures t.placements[i].entryId < t.nextId {
        assert HasId(t.entries, t.placements[i].entryId);
      }
    }
    hide WellFormed;
    assert Standings(t', v).Keys == Standings(t, v).Keys;
  }

  lemma IdsKeptRanking(t: Tables, t': Tables, v: VersionId, dir: Direction)
    requires WellFormed(t) && IdsKept(t, t')
    ensures RankedUnder(t', v, dir) <==> RankedUnder(t, v, dir)
  {
    IdsKeptStandings(t, t', v);
    var s := Standings(t, v);
    FrozenOnScores(ScoresOf(s), IdsOf(t.entries), IdsOf(t'.entries));
  }

  lemma FrozenOnScores(scores: map<Slug, Float64>, ids: map<Slug, EntryId>, ids': map<Slug, EntryId>)
    requires scores.Keys <= ids.Keys && scores.Keys <= ids'.Keys
    requires forall slug | slug in scores :: ids[slug] == ids'[slug]
    ensures Frozen(scores, ids) == Frozen(scores, ids')
  {
  }

  /** A run that creates no version keeps the versions and their rankings, and gives
      the board the file's direction unless it stops before the entries. */
  lemma Unversioned(t: Tables, file: BoardFile, note: string)
    requires WellFormed(t) && !MakesVersion(SyncFile(Some(t), file, note).result)
    ensures SyncFile(Some(t), file, note).t.Some?
    ensures var t' := SyncFile(Some(t), file, note).t.value;
            && t'.versions == t.versions && t'.board.boardType == t.board.boardType
            && (t'.board.sortDirection == t.board.sortDirection || t'.board.sortDirection == file.sortDirection)
            && forall v, dir :: RankedUnder(t', v, dir) <==> RankedUnder(t, v, dir)
  {
    BoardStepKeepsKeys(Some(t), file);
    if file.accumulative || BoardStep(Some(t), file).Failure? {
    } else {
      var start := BoardStep(Some(t), file).value.t;
      var forced := BoardStep(Some(t), file).value.rankingChanged;
      RowsUnversioned(start, file, note, forced);
      hide WellFormed, SyncRows, RankedUnder, SyncEntries;
      forall v, dir ensures RankedUnder(start, v, dir) <==> RankedUnder(t, v, dir) {
        SameRanking(t, start, v, dir);
      }
    }
  }

  lemma SameRanking(t: Tables, t': Tables, v: VersionId, dir: Direction)
    requires t'.entries == t.entries && t'.placements == t.placements
    ensures RankedUnder(t', v, dir) <==> RankedUnder(t, v, dir)
  {
    assert Standings(t', v) == Standings(t, v);
  }

  lemma RowsUnversioned(t: Tables, file: BoardFile, note: string, forced: bool)
    requires WellFormed(t) && !MakesVersion(SyncRows(t, file, note, forced).result)
    ensures var t' := SyncRows(t, file, note, forced).t.value;
            && t'.versions == t.versions && t'.board == t.board
            && forall v, dir :: RankedUnder(t', v, dir) <==> RankedUnder(t, v, dir)
  {
    hide WellFormed, RankedUnder, SyncEntries, NeedsVersion, Creatable, Created, UniqueIds, EntriesExist, AllFound;
    if file.entries != [] {
      SyncKeepsKeys(t.entries, t, file.entries);
      SyncKeepsIds(t.entries, t, file.entries);
      var t' := SyncEntries(t.entries, t, file.entries).t;
      forall v, dir ensures RankedUnder(t', v, dir) <==> RankedUnder(t, v, dir) {
        IdsKeptRanking(t, t', v, dir);
      }
    }
  }

  predicate MakesVersion(r: Result<SyncAction>) {
    r.Success? && (r.value.VersionCreated? || r.value.VersionAdded?)
  }

  /** A run that creates a version leaves it ranked under the board's direction. */
  lemma VersionedIsRanked(t: Option<Tables>, file: BoardFile, note: string)
    requires t.Some? ==> WellFormed(t.value)
    requires MakesVersion(SyncFile(t, file, note).result)
    ensures SyncFile(t, file, note).t.Some? && LatestRanked(SyncFile(t, file, note).t.value)
  {
    var mid := FirstRun(t, file, note);
    CreatedLatestRanked(mid, InputOf(file, note));
  }

  /** A run on a slug without a board makes no version or leaves a ranked one. */
  lemma NewIsRanked(file: BoardFile, note: string)
    ensures var o := SyncFile(None, file, note); o.t.Some? ==> LatestRanked(o.t.value)
  {
    if MakesVersion(SyncFile(None, file, note).result) {
      VersionedIsRanked(None, file, note);
    } else if !file.accumulative && BoardStep(None, file).Success? {
      BoardStepKeepsKeys(None, file);
      RowsUnversioned(BoardStep(None, file).value.t, file, note, false);
    }
  }

  /** Exactly when the newest version is still the ranking under the board's direction
      after a run, whatever its outcome: unless the run changed the stored direction
      of a scored board with versions and then made none (no entries in the file, or a
      failure on the way), and the newest version is not ranked that way too. */
  lemma SyncKeepsRanking(t: Option<Tables>, file: BoardFile, note: string)
    requires t.Some? ==> WellFormed(t.value) && LatestRanked(t.value)
    ensures var o := SyncFile(t, file, note);
            o.t.Some? ==>
              (LatestRanked(o.t.value) <==>
               || t.None?
               || !t.value.board.boardType.Scored?
               || t.value.versions == []
               || o.t.value.board.sortDirection == t.value.board.sortDirection
               || MakesVersion(o.result)
               || RankedUnder(t.value, Newest(t.value.versions).id, file.sortDirection))
  {
    var o := SyncFile(t, file, note);
    if t.None? {
      NewIsRanked(file, note);
    } else if MakesVersion(o.result) {
      VersionedIsRanked(t, file, note);
    } else {
      Unversioned(t.value, file, note);
      hide SyncFile, WellFormed, RankedUnder;
    }
  }

  lemma CreatedLatestRanked(t: Tables, input: CreateVersion)
    requires Placeable(t, input.placements) && Acceptable(t.board, input.placements)
    ensures LatestRanked(Created(t, input))
  {
    NewestIsCreated(t, input);
    if t.board.boardType.Scored? {
      forall i | 0 <= i < |input.placements| ensures input.placements[i].score.Some? {
        assert HasFiniteScore(input.placements[i]);
      }
      CreatedIsRanked(t, input);
    }
  }

  // ----------------------------------------------------------- the second run

  /** The names that a run accepted are valid, and their entries are there. */
  lemma {:induction false} EntriesAccepted(existing: map<Slug, EntryRow>, t: Tables, es: seq<ParsedEntry>)
    requires WellFormed(t) && existing == t.entries && SyncEntries(existing, t, es).error.None?
    ensures forall i | 0 <= i < |es| :: ValidName(es[i].name) && es[i].slug in SyncEntries(existing, t, es).t.entries
    ensures existing.Keys <= SyncEntries(existing, t, es).t.entries.Keys
  {
    if es != [] {
      var n := |es| - 1;
      hide ValidSlug, ValidName;
      assert forall slug | slug in existing :: ValidName(existing[slug].name);
      hide WellFormed;
      EntriesAccepted(existing, t, es[..n]);
      forall i | 0 <= i < |es|
        ensures ValidName(es[i].name) && es[i].slug in SyncEntries(existing, t, es).t.entries
      {
        assert i < n ==> es[..n][i] == es[i];
      }
    }
  }

  /** With every entry there and every name valid the loop cannot fail. */
  lemma {:induction false} EntriesPass(existing: map<Slug, EntryRow>, t: Tables, es: seq<ParsedEntry>)
    requires existing == t.entries
    requires forall i | 0 <= i < |es| :: ValidName(es[i].name) && es[i].slug in existing
    ensures SyncEntries(existing, t, es).error.None?
    ensures SyncEntries(existing, t, es).t.entries.Keys == existing.Keys
  {
    if es != [] {
      hide ValidName;
      EntriesPass(existing, t, es[..|es| - 1]);
    }
  }

  /** An entry of the file that is not in the table as the file has it changes the
      table: a later entry with its slug may set another value, but not the old one. */
  lemma {:induction false} UnsettledWrites(existing: map<Slug, EntryRow>, t: Tables, es: seq<ParsedEntry>, i: nat)
    requires existing == t.entries && i < |es| && !Settled(existing, es[i])
    requires forall j | 0 <= j < |es| :: ValidName(es[j].name) && es[j].slug in existing
    ensures var after := SyncEntries(existing, t, es).t.entries;
            && es[i].slug in after
            && (es[i].name != existing[es[i].slug].name ==> after[es[i].slug].name != existing[es[i].slug].name)
            && (es[i].metadata != existing[es[i].slug].metadata ==>
                  after[es[i].slug].metadata != existing[es[i].slug].metadata)
  {
    var n := |es| - 1;
    hide ValidName;
    EntriesPass(existing, t, es);
    EntriesPass(existing, t, es[..n]);
    if i < n {
      UnsettledWrites(existing, t, es[..n], i);
    }
  }

  /** What a second run of the file does to the entries: nothing, exactly when the
      file does not contradict itself. */
  lemma RerunEntries(t: Tables, t1: Tables, es: seq<ParsedEntry>)
    requires WellFormed(t) && SyncEntries(t.entries, t, es).error.None?
    requires t1.entries == SyncEntries(t.entries, t, es).t.entries
    ensures SyncEntries(t1.entries, t1, es).error.None?
    ensures Consistent(es) ==> SyncEntries(t1.entries, t1, es).t == t1
    ensures !Consistent(es) ==> SyncEntries(t1.entries, t1, es).t.entries != t1.entries
  {
    EntriesAccepted(t.entries, t, es);
    EntriesPass(t1.entries, t1, es);
    hide WellFormed, ValidName, EntryStep, EntryError;
    if Consistent(es) {
      EntriesSettle(t, es);
      SettledStay(t1, es);
    } else {
      var i, j :| 0 <= i < j < |es| && es[i].slug == es[j].slug
                  && !(es[i].name == es[j].name && es[i].metadata == es[j].metadata);
      var k := if Settled(t1.entries, es[i]) then j else i;
      UnsettledWrites(t1.entries, t1, es, k);
    }
  }

  /** Where a successful run with entries stands when it comes to the comparison. */
  lemma AtComparison(t: Option<Tables>, file: BoardFile, note: string)
    returns (start: Tables, mid: Tables, forced: bool)
    requires t.Some? ==> WellFormed(t.value)
    requires !file.accumulative && file.entries != [] && SyncFile(t, file, note).result.Success?
    ensures WellFormed(start) && WellFormed(mid) && BoardMatches(mid.board, file)
    ensures SyncEntries(start.entries, start, file.entries) == Progress(mid, None)
    ensures SyncFile(t, file, note) == SyncVersion(mid, file, note, forced)
  {
    BoardStepMatches(t, file);
    BoardStepKeepsKeys(t, file);
    start, forced := BoardStep(t, file).value.t, BoardStep(t, file).value.rankingChanged;
    SyncKeepsKeys(start.entries, start, file.entries);
    SyncKeepsIds(start.entries, start, file.entries);
    mid := SyncEntries(start.entries, start, file.entries).t;
  }

  /** A board without its own version to compare with: the board row and the entries
      decide alone. */
  lemma RerunRows(start: Tables, mid: Tables, file: BoardFile, note: string)
    requires WellFormed(start) && WellFormed(mid) && BoardMatches(mid.board, file)
    requires !file.accumulative && file.entries != []
    requires SyncEntries(start.entries, start, file.entries) == Progress(mid, None)
    requires !NeedsVersion(mid, file, false)
    ensures var again := SyncFile(Some(mid), file, note);
            && (Consistent(file.entries) ==> again == Outcome(Some(mid), Success(NoChange)))
            && (!Consistent(file.entries) ==> again.t != Some(mid))
  {
    RerunEntries(start, mid, file.entries);
    SyncKeepsKeys(mid.entries, mid, file.entries);
    hide WellFormed, SyncEntries, Consistent, NeedsVersion, Creatable;
    assert SyncFile(Some(mid), file, note) == SyncRows(mid, file, note, false);
  }

  /** The file settles: it does not contradict itself, and if it makes a version of a
      scored board, its explicit positions are the ranks of its scores. */
  ghost predicate Settles(t: Tables, file: BoardFile, made: bool) {
    && Consistent(file.entries)
    && (made && t.board.boardType.Scored? ==>
          ExplicitAreRanks(t.entries, t.board.sortDirection, PlacementsOf(file.entries)))
  }

  /** After any successful run the next run of the same file writes nothing if and only
      if the file settles; files of accumulative boards are skipped both times. */
  lemma SyncIsIdempotent(t: Option<Tables>, file: BoardFile, note: string, note': string)
    requires t.Some? ==> WellFormed(t.value)
    requires SyncFile(t, file, note).result.Success?
    ensures var o := SyncFile(t, file, note);
            && (o.t.Some? ==> WellFormed(o.t.value))
            && var again := SyncFile(o.t, file, note');
               if file.accumulative then again == Outcome(o.t, Success(Skipped))
               else
                 && o.t.Some?
                 && (again.t == o.t <==> Settles(o.t.value, file, MakesVersion(o.result)))
                 && (again.t == o.t ==> again.result == Success(NoChange))
  {
    var o := SyncFile(t, file, note);
    if file.accumulative {
    } else if MakesVersion(o.result) {
      CreatedOnce(t, file, note);
      PlacedOnce(file.entries);
      RerunAfterVersion(t, file, note, note');
      if MakesVersion(SyncFile(o.t, file, note').result) {
        AddedVersionShows(o.t, file, note');
      }
    } else if file.entries == [] {
      BoardStepKeepsKeys(t, file);
      BoardStepMatches(t, file);
    } else {
      var start, mid, forced := AtComparison(t, file, note);
      hide SyncFile, WellFormed, SyncEntries, Settled;
      assert o == SyncVersion(mid, file, note, forced);
      assert !NeedsVersion(mid, file, forced);
      RerunRows(start, mid, file, note');
    }
  }

  lemma CreatedOnce(t: Option<Tables>, file: BoardFile, note: string)
    requires t.Some? ==> WellFormed(t.value)
    requires MakesVersion(SyncFile(t, file, note).result)
    ensures DistinctSlugs(PlacementsOf(file.entries))
  {
    var mid := FirstRun(t, file, note);
  }

  lemma AddedVersionShows(t: Option<Tables>, file: BoardFile, note: string)
    requires t.Some? && WellFormed(t.value)
    requires MakesVersion(SyncFile(t, file, note).result)
    ensures SyncFile(t, file, note).t != t
  {
    var mid := FirstRun(t, file, note);
    assert |Created(mid, InputOf(file, note)).versions| == |mid.versions| + 1;
    hide SyncFile, Created, UpToDate;
  }

  // --------------------------------------------- what forces a version, and what it is

  /** What a run that makes a version adds to the board's versions, and how it replies:
      as created if it is number 1, as updated otherwise. */
  ghost predicate AddsVersion(before: seq<Version>, after: seq<Version>, file: BoardFile, note: string, r: SyncAction) {
    && |after| == |before| + 1 && after[..|before|] == before
    && var version := after[|before|];
       && IsNextNumber(before, version.number)
       && version.note == Some(note) && version.metadata == file.versionMetadata
       && r == if version.number == 1 then SyncAction.VersionCreated(version.number)
               else SyncAction.VersionAdded(version.number)
  }

  /** The table that the version was added to, and the reply. */
  lemma VersionSource(t: Option<Tables>, file: BoardFile, note: string) returns (synced: Tables)
    requires t.Some? ==> WellFormed(t.value)
    requires MakesVersion(SyncFile(t, file, note).result)
    ensures AllFound(synced.entries, PlacementsOf(file.entries))
    ensures SyncFile(t, file, note).t == Some(Created(synced, InputOf(file, note)))
    ensures synced.versions == if t.Some? then t.value.versions else []
    ensures var n := NextNumber(synced.versions);
            SyncFile(t, file, note).result.value
            == if n == 1 then SyncAction.VersionCreated(n) else SyncAction.VersionAdded(n)
  {
    BoardStepKeepsKeys(t, file);
    var start := BoardStep(t, file).value.t;
    if t.Some? {
      BoardStepKeepsRows(t, file);
    }
    SyncKeepsKeys(start.entries, start, file.entries);
    SyncKeepsIds(start.entries, start, file.entries);
    synced := SyncEntries(start.entries, start, file.entries).t;
    hide SyncEntries, WellFormed, SyncVersion;
    assert SyncFile(t, file, note) == SyncVersion(synced, file, note, BoardStep(t, file).value.rankingChanged);
    hide *;
    SyncedReply(synced, file, note, BoardStep(t, file).value.rankingChanged);
  }

  lemma SyncedReply(t: Tables, file: BoardFile, note: string, forced: bool)
    requires WellFormed(t) && MakesVersion(SyncVersion(t, file, note, forced).result)
    ensures AllFound(t.entries, PlacementsOf(file.entries))
    ensures SyncVersion(t, file, note, forced).t == Some(Created(t, InputOf(file, note)))
    ensures var n := NextNumber(t.versions);
            SyncVersion(t, file, note, forced).result.value
            == if n == 1 then SyncAction.VersionCreated(n) else SyncAction.VersionAdded(n)
  {
    hide WellFormed, Acceptable, NeedsVersion, NextNumber, Appended;
  }

  lemma MadeVersion(t: Option<Tables>, file: BoardFile, note: string)
    requires t.Some? ==> WellFormed(t.value)
    requires MakesVersion(SyncFile(t, file, note).result)
    ensures SyncFile(t, file, note).t.Some?
    ensures AddsVersion(if t.Some? then t.value.versions else [], SyncFile(t, file, note).t.value.versions,
                        file, note, SyncFile(t, file, note).result.value)
  {
    hide SyncFile, WellFormed, NewRows, Appended;
    var synced := VersionSource(t, file, note);
    var input := InputOf(file, note);
    AppendedParts(synced, NewVersion(synced, input), NewRows(synced, synced.nextId, input.placements));
  }

  /** When the file has another sort direction or other tiers than the board, a
      successful run makes exactly one version, even if no entry changed. */
  lemma ChangedConfigForces(t: Tables, file: BoardFile, note: string)
    requires WellFormed(t) && !file.accumulative && |file.entries| > 0
    requires t.board.sortDirection != file.sortDirection || !HasTiers(t.board.tierConfig, file.tiers)
    requires SyncFile(Some(t), file, note).result.Success?
    ensures var o := SyncFile(Some(t), file, note);
            && o.t.Some? && (o.result.value.VersionCreated? || o.result.value.VersionAdded?)
            && AddsVersion(t.versions, o.t.value.versions, file, note, o.result.value)
  {
    TiersAre(t.board.tierConfig, file.tiers);
    BoardStepKeepsKeys(Some(t), file);
    var start := BoardStep(Some(t), file).value.t;
    assert BoardStep(Some(t), file).value.rankingChanged;
    SyncKeepsKeys(start.entries, start, file.entries);
    hide BoardStep, SyncEntries, WellFormed, HasTiers, Creatable, AddsVersion;
    assert MakesVersion(SyncFile(Some(t), file, note).result);
    MadeVersion(Some(t), file, note);
  }

  /** A run of a file without entries only brings the board row up to date. */
  lemma EntrylessRun(t: Option<Tables>, file: BoardFile, note: string)
    requires t.Some? ==> WellFormed(t.value)
    requires !file.accumulative && file.entries == [] && SyncFile(t, file, note).result.Success?
    ensures var o := SyncFile(t, file, note);
            && o.result == Success(NoChange) && o.t.Some? && BoardShows(t, o.t.value.board, file)
            && o.t.value == (if t.Some? then t.value else Tables(o.t.value.board, map[], [], [], map[], 0)).(
                              board := o.t.value.board)
  {
    BoardStepKeepsKeys(t, file);
    BoardStepShows(t, file);
    if t.Some? {
      BoardStepKeepsRows(t, file);
    }
  }

  // ---------------------------------------------------------------- a valid file

  predicate ValidEntries(es: seq<ParsedEntry>) {
    DistinctEntries(es) && forall i | 0 <= i < |es| :: ValidSlug(es[i].slug) && ValidName(es[i].name)
  }

  lemma ValidEntryPasses(existing: map<Slug, EntryRow>, t: Tables, e: ParsedEntry)
    requires ValidSlug(e.slug) && ValidName(e.name) && (e.slug in existing <==> e.slug in t.entries)
    ensures EntryError(existing, t, e).None?
    ensures var t' := EntryStep(existing, t, e);
            t'.entries.Keys == t.entries.Keys + {e.slug} && t'.board == t.board && t'.versions == t.versions
  {
  }

  lemma LastMentioned(es: seq<ParsedEntry>, slug: Slug)
    requires es != []
    ensures Mentions(es, slug) <==> Mentions(es[..|es| - 1], slug) || slug == es[|es| - 1].slug
  {
    if Mentions(es[..|es| - 1], slug) {
      var i :| 0 <= i < |es| - 1 && es[..|es| - 1][i].slug == slug;
      assert es[i].slug == slug;
    }
  }

  lemma {:induction false} ValidEntriesPass(t: Tables, es: seq<ParsedEntry>)
    requires ValidEntries(es)
    ensures SyncEntries(t.entries, t, es).error.None?
    ensures forall slug ::
              slug in SyncEntries(t.entries, t, es).t.entries <==> slug in t.entries || Mentions(es, slug)
    ensures var t' := SyncEntries(t.entries, t, es).t; t'.board == t.board && t'.versions == t.versions
  {
    if es != [] {
      var n := |es| - 1;
      ValidEntriesPass(t, es[..n]);
      assert !Mentions(es[..n], es[n].slug);
      hide ValidSlug, ValidName, EntryError, EntryStep, Mentions;
      ValidEntryPasses(t.entries, SyncEntries(t.entries, t, es[..n]).t, es[n]);
      forall slug ensures Mentions(es, slug) <==> Mentions(es[..n], slug) || slug == es[n].slug {
        LastMentioned(es, slug);
      }
    }
  }

  /** Valid rows always get their version, if one is needed. */
  lemma ValidRowsSucceed(t: Tables, file: BoardFile, note: string, forced: bool)
    requires WellFormed(t) && !t.board.accumulative && ValidEntries(file.entries)
    requires Acceptable(t.board, PlacementsOf(file.entries))
    ensures SyncRows(t, file, note, forced).result.Success?
    ensures t.versions == [] ==> SyncRows(t, file, note, forced).result == Success(VersionCreated(1))
  {
    ValidEntriesPass(t, file.entries);
    SyncKeepsKeys(t.entries, t, file.entries);
    var mid := SyncEntries(t.entries, t, file.entries).t;
    forall i | 0 <= i < |file.entries| ensures PlacementsOf(file.entries)[i].entrySlug in mid.entries {
      assert Mentions(file.entries, file.entries[i].slug);
    }
    hide SyncEntries, WellFormed, Acceptable, ValidEntries, Created, Differs;
    assert PlacementsOf(file.entries) != [];
    assert t.versions == [] ==> NextNumber(mid.versions) == 1;
  }

  /** What `boards::create` would accept is accepted as a change of a board of its type. */
  lemma ValidBoardSteps(t: Tables, file: BoardFile)
    requires WellFormed(t) && CanCreateBoard(BoardOf(file))
    requires t.board.boardType == file.boardType && !t.board.accumulative
    requires t.board.boardType.Scored? || t.board.sortDirection == Desc
    ensures BoardStep(Some(t), file).Success?
    ensures var t' := BoardStep(Some(t), file).value.t;
            t'.board.boardType == file.boardType && !t'.board.accumulative && t'.versions == t.versions
  {
  }

  /** A file that is valid for a board of its type is never refused; it is published,
      as version 1 if the board is new or has no version. */
  lemma ValidFileSucceeds(t: Option<Tables>, file: BoardFile, note: string)
    requires t.Some? ==>
               && WellFormed(t.value) && t.value.board.boardType == file.boardType && !t.value.board.accumulative
               && (t.value.board.boardType.Scored? || t.value.board.sortDirection == Desc)
    requires !file.accumulative && IsNewBoard(BoardOf(file)) && IsValid(BoardOf(file), PlacementsOf(file.entries))
    requires forall i | 0 <= i < |file.entries| :: IsSlug(file.entries[i].slug) && 0 < |file.entries[i].name| < 257
    ensures SyncFile(t, file, note).result.Success?
    ensures t.None? || t.value.versions == [] ==> SyncFile(t, file, note).result == Success(VersionCreated(1))
  {
    CanCreateIs(BoardOf(file));
    AcceptableIsValid(BoardOf(file), PlacementsOf(file.entries));
    forall i | 0 <= i < |file.entries| ensures ValidSlug(file.entries[i].slug) && ValidName(file.entries[i].name) {
      ValidSlugIs(file.entries[i].slug);
      ValidSlugIs(file.entries[i].name);
    }
    PlacedDistinct(file.entries);
    hide IsNewBoard, IsValid, IsSlug, ValidSlug, ValidName;
    if t.None? {
      FirstSyncCreates(file, note);
    } else {
      ValidFileUpdates(t.value, file, note);
    }
  }

  lemma OneEntryWritten(existing: map<Slug, EntryRow>, t: Tables, e: ParsedEntry, other: ParsedEntry)
    requires EntryError(existing, t, e).None? && other.slug != e.slug && Settled(t.entries, other)
    ensures Settled(EntryStep(existing, t, e).entries, other)
  {
  }

  /** The entries before the first bad one are written, whatever comes after them. */
  lemma {:induction false} PrefixIsWritten(t: Tables, es: seq<ParsedEntry>, n: nat, i: nat)
    requires i < n <= |es| && DistinctEntries(es) && ValidEntries(es[..n])
    ensures Settled(SyncEntries(t.entries, t, es).t.entries, es[i])
    decreases |es|
  {
    var m := |es| - 1;
    if n == |es| {
      assert es[..n] == es;
      ValidEntriesPass(t, es);
      EntriesSettle(t, es);
    } else {
      assert es[..m][..n] == es[..n] && es[..m][i] == es[i];
      PrefixIsWritten(t, es[..m], n, i);
      var before := SyncEntries(t.entries, t, es[..m]);
      hide ValidEntries, Settled, EntryStep, EntryError;
      if before.error.None? && EntryError(t.entries, before.t, es[m]).None? {
        OneEntryWritten(t.entries, before.t, es[m], es[i]);
      }
    }
  }

  /** A failed run is not undone: the board row is the file's, the entries before the
      first bad one are written, and the versions are as they were. */
  lemma FailedRunKeeps(t: Option<Tables>, file: BoardFile, note: string, n: nat)
    requires t.Some? ==>
               && WellFormed(t.value) && t.value.board.boardType == file.boardType && !t.value.board.accumulative
               && (t.value.board.boardType.Scored? || t.value.board.sortDirection == Desc)
    requires !file.accumulative && IsNewBoard(BoardOf(file)) && SyncFile(t, file, note).result.Failure?
    requires n <= |file.entries| && DistinctEntries(file.entries)
    requires forall i | 0 <= i < n :: IsSlug(file.entries[i].slug) && 0 < |file.entries[i].name| < 257
    ensures SyncFile(t, file, note).t.Some?
    ensures var t' := SyncFile(t, file, note).t.value;
            && BoardShows(t, t'.board, file)
            && (forall i | 0 <= i < n :: Settled(t'.entries, file.entries[i]))
            && t'.versions == if t.Some? then t.value.versions else []
  {
    CanCreateIs(BoardOf(file));
    forall i | 0 <= i < n ensures ValidSlug(file.entries[i].slug) && ValidName(file.entries[i].name) {
      ValidSlugIs(file.entries[i].slug);
      ValidSlugIs(file.entries[i].name);
    }
    hide IsNewBoard, IsSlug, ValidSlug, ValidName;
    if t.Some? {
      ValidBoardSteps(t.value, file);
    }
    BoardStepKeepsKeys(t, file);
    BoardStepShows(t, file);
    var start := BoardStep(t, file).value.t;
    assert start.versions == if t.Some? then t.value.versions else [];
    hide BoardStep, BoardShows, CanCreateBoard;
    FailedRowsKeep(start, file, note, BoardStep(t, file).value.rankingChanged, n);
  }

  lemma FailedRowsKeep(start: Tables, file: BoardFile, note: string, forced: bool, n: nat)
    requires WellFormed(start) && SyncRows(start, file, note, forced).result.Failure?
    requires n <= |file.entries| && DistinctEntries(file.entries) && ValidEntries(file.entries[..n])
    ensures var t' := SyncRows(start, file, note, forced).t.value;
            && t'.board == start.board && t'.versions == start.versions
            && forall i | 0 <= i < n :: Settled(t'.entries, file.entries[i])
  {
    SyncKeepsKeys(start.entries, start, file.entries);
    SyncKeepsIds(start.entries, start, file.entries);
    forall i | 0 <= i < n ensures Settled(SyncEntries(start.entries, start, file.entries).t.entries, file.entries[i]) {
      PrefixIsWritten(start, file.entries, n, i);
    }
    hide SyncEntries, WellFormed, NeedsVersion, Creatable, Settled, ValidEntries;
  }

  lemma PlacedDistinct(es: seq<ParsedEntry>)
    requires DistinctSlugs(PlacementsOf(es))
    ensures DistinctEntries(es)
  {
    forall i, j | 0 <= i < j < |es| ensures es[i].slug != es[j].slug {
      assert PlacementsOf(es)[i].entrySlug != PlacementsOf(es)[j].entrySlug;
    }
  }

  lemma ValidFileUpdates(t: Tables, file: BoardFile, note: string)
    requires WellFormed(t) && t.board.boardType == file.boardType && !t.board.accumulative
    requires t.board.boardType.Scored? || t.board.sortDirection == Desc
    requires !file.accumulative && CanCreateBoard(BoardOf(file)) && ValidEntries(file.entries)
    requires Acceptable(BoardOf(file), PlacementsOf(file.entries))
    ensures SyncFile(Some(t), file, note).result.Success?
    ensures t.versions == [] ==> SyncFile(Some(t), file, note).result == Success(VersionCreated(1))
  {
    ValidBoardSteps(t, file);
    BoardStepKeepsKeys(Some(t), file);
    BoardStepMatches(Some(t), file);
    var start := BoardStep(Some(t), file).value.t;
    assert Acceptable(start.board, PlacementsOf(file.entries));
    hide BoardStep, SyncRows, WellFormed, Acceptable, ValidEntries, CanCreateBoard;
    ValidRowsSucceed(start, file, note, BoardStep(Some(t), file).value.rankingChanged);
  }

  /** A valid file of a new board is published at once, as version 1. */
  lemma FirstSyncCreates(file: BoardFile, note: string)
    requires !file.accumulative && CanCreateBoard(BoardOf(file)) && ValidEntries(file.entries)
    requires Acceptable(BoardOf(file), PlacementsOf(file.entries))
    ensures SyncFile(None, file, note).result == Success(VersionCreated(1))
  {
    var start := NewBoard(BoardOf(file));
    BoardStepKeepsKeys(None, file);
    assert BoardStep(None, file) == Success(Prepared(start, false));
    ValidRowsSucceed(start, file, note, false);
    hide BoardStep, SyncRows, WellFormed, Acceptable, ValidEntries, CanCreateBoard;
  }

  // -------------------------------------------------- a direction that was turned

  /** The board after `boards::update` was given another direction. */
  function Turned(t: Tables, dir: Direction): Tables {
    t.(board := BoardAfter(t.board, UpdateBoard(None, Some(dir), Absent, Absent, None, None)))
  }

  /** The board is up to date, and the file is turned around. Whether the direction is
      changed by `boards::update`, or by a run of the turned file without its entries,
      the run of the turned file itself sees no change. */
  lemma TurnedIsMissed(t: Tables, file: BoardFile, dir: Direction, note: string)
    requires UpToDate(t, file) && t.board.boardType.Scored? && !NeedsVersion(t, file, false)
    requires !dir.OtherDirection? && dir != file.sortDirection
    ensures WellFormed(Turned(t, dir))
    ensures CanUpdate(t.board, UpdateBoard(None, Some(dir), Absent, Absent, None, None))
    ensures var file' := file.(sortDirection := dir);
            && SyncFile(Some(t), file'.(entries := []), note) == Outcome(Some(Turned(t, dir)), Success(NoChange))
            && SyncFile(Some(Turned(t, dir)), file', note) == Outcome(Some(Turned(t, dir)), Success(NoChange))
    ensures LatestRanked(Turned(t, dir)) <==> RankedUnder(t, Newest(t.versions).id, dir)
  {
    var t', file' := Turned(t, dir), file.(sortDirection := dir);
    BoardKeepsKeys(t, t'.board);
    TurnedBoard(t, file, dir);
    SameRanking(t, t', Newest(t.versions).id, dir);
    hide WellFormed, LatestRanked, CanUpdate, BoardAfter;
    assert UpToDate(t', file');
    SecondRunCompares(t', file', note);
    assert FetchPlacements(t', Newest(t.versions).id) == FetchPlacements(t, Newest(t.versions).id);
  }

  lemma TurnedBoard(t: Tables, file: BoardFile, dir: Direction)
    requires WellFormed(t) && BoardMatches(t.board, file) && t.board.boardType.Scored?
    requires !dir.OtherDirection? && dir != file.sortDirection
    ensures CanUpdate(t.board, UpdateBoard(None, Some(dir), Absent, Absent, None, None))
    ensures BoardStep(Some(t), file.(sortDirection := dir)) == Success(Prepared(Turned(t, dir), true))
    ensures BoardStep(Some(t), file.(sortDirection := dir, entries := [])) == Success(Prepared(Turned(t, dir), true))
    ensures BoardMatches(Turned(t, dir).board, file.(sortDirection := dir)) && BoardOk(Turned(t, dir).board)
  {
  }

  lemma FrozenByScore(scores: map<Slug, Float64>, ids: map<Slug, EntryId>, dir: Direction, a: Slug, b: Slug)
    requires scores.Keys <= ids.Keys && a in scores && b in scores && Better(dir, scores[a], scores[b])
    requires forall x, y | x in ids && y in ids && x != y :: ids[x] != ids[y]
    ensures FrozenRank(scores, ids, dir, a) < FrozenRank(scores, ids, dir, b)
  {
    var f := Frozen(scores, ids);
    var items := Image(f, scores.Keys);
    assert f[a] in items && f[b] in items;
    ItemOrderIsStrict(dir, items);
    RankMonotone(ItemOrder(dir), items, f[a], f[b]);
    hide Rank, Frozen, Image;
  }

  lemma FrozenFollows(t: Tables, v: VersionId, dir: Direction, a: Slug, b: Slug)
    requires UniqueIds(t.entries) && RankedUnder(t, v, dir)
    requires a in Standings(t, v) && b in Standings(t, v)
    requires Better(dir, Standings(t, v)[a].score.value, Standings(t, v)[b].score.value)
    ensures Standings(t, v)[a].position.value < Standings(t, v)[b].position.value
  {
    hide FrozenRank, Better;
    FrozenByScore(ScoresOf(Standings(t, v)), IdsOf(t.entries), dir, a, b);
  }

  /** A version with two different scores is ranked in one direction at most. */
  lemma OneDirection(t: Tables, v: VersionId, a: Slug, b: Slug)
    requires UniqueIds(t.entries) && a in Standings(t, v) && b in Standings(t, v)
    requires Standings(t, v)[a].score.Some? && Standings(t, v)[b].score.Some?
    requires Less(Standings(t, v)[a].score.value, Standings(t, v)[b].score.value)
    ensures !(RankedUnder(t, v, Asc) && RankedUnder(t, v, Desc))
  {
    OrderIsNumeric(Standings(t, v)[a].score.value, Standings(t, v)[b].score.value);
    hide Standings, RankedUnder, OrderKey, Less;
    if RankedUnder(t, v, Asc) && RankedUnder(t, v, Desc) {
      FrozenFollows(t, v, Asc, a, b);
      FrozenFollows(t, v, Desc, b, a);
      assert false;
    }
  }

  /** Scores 1.0 and 2.0. */
  function TwoScores(dir: Direction): BoardFile {
    BoardFile("b", "B", Scored, dir, false, [], None,
              [ParsedEntry("a", "A", None, Some(0x3FF0_0000_0000_0000), None, None),
               ParsedEntry("c", "C", None, Some(0x4000_0000_0000_0000), None, None)], None)
  }

  lemma TwoScoresValid()
    ensures var file := TwoScores(Desc);
            && CanCreateBoard(BoardOf(file)) && ValidEntries(file.entries)
            && Acceptable(BoardOf(file), PlacementsOf(file.entries))
            && forall i | 0 <= i < |PlacementsOf(file.entries)| :: PlacementsOf(file.entries)[i].position.None?
  {
    var file := TwoScores(Desc);
    var ps := PlacementsOf(file.entries);
    assert ps == [CreatePlacement("a", None, Some(0x3FF0_0000_0000_0000), None, None),
                  CreatePlacement("c", None, Some(0x4000_0000_0000_0000), None, None)];
    assert file.entries[0].slug == "a" && file.entries[1].slug == "c" && "a"[0] != "c"[0];
    assert HasFiniteScore(ps[0]) && HasFiniteScore(ps[1]);
  }

  /** After the first sync of a file without positions there is nothing left to do. */
  lemma PublishedIsQuiet(file: BoardFile, note: string)
    requires !file.accumulative && CanCreateBoard(BoardOf(file)) && ValidEntries(file.entries)
    requires Acceptable(BoardOf(file), PlacementsOf(file.entries))
    requires file.boardType.Scored? ==>
               forall i | 0 <= i < |PlacementsOf(file.entries)| :: PlacementsOf(file.entries)[i].position.None?
    ensures var o := SyncFile(None, file, note);
            && o.result == Success(VersionCreated(1)) && o.t.Some?
            && UpToDate(o.t.value, file) && !NeedsVersion(o.t.value, file, false)
            && o.t.value.board.boardType == file.boardType
  {
    FirstSyncCreates(file, note);
    hide ValidEntries, Acceptable, CanCreateBoard, SyncEntries, ValidSlug, ValidName;
    var mid := FirstRun(None, file, note);
    CreatedIsUpToDate(mid, file, note);
    NewBoardType(file, note);
    RerunAfterVersion(None, file, note, note);
    var t := SyncFile(None, file, note).t.value;
    SecondRunCompares(t, file, note);
    hide SyncFile, Created, UpToDate, NeedsVersion, Rank;
    assert t.entries == mid.entries && AllFound(t.entries, PlacementsOf(file.entries));
  }

  lemma NewBoardType(file: BoardFile, note: string)
    ensures var o := SyncFile(None, file, note); o.t.Some? ==> o.t.value.board.boardType == file.boardType
  {
    if !file.accumulative && BoardStep(None, file).Success? {
      BoardStepKeepsKeys(None, file);
      var start := BoardStep(None, file).value.t;
      SyncKeepsIds(start.entries, start, file.entries);
    }
  }

  lemma TwoScoresPublished(note: string)
    ensures var o := SyncFile(None, TwoScores(Desc), note);
            && o.result == Success(VersionCreated(1)) && o.t.Some?
            && UpToDate(o.t.value, TwoScores(Desc)) && !NeedsVersion(o.t.value, TwoScores(Desc), false)
            && o.t.value.board.boardType.Scored?
  {
    hide SyncFile, UpToDate, NeedsVersion, Acceptable, ValidEntries, CanCreateBoard, PlacementsOf;
    TwoScoresValid();
    PublishedIsQuiet(TwoScores(Desc), note);
  }

  lemma TwoScoresShown(note: string)
    requires SyncFile(None, TwoScores(Desc), note).result.Success? && SyncFile(None, TwoScores(Desc), note).t.Some?
    ensures var t := SyncFile(None, TwoScores(Desc), note).t.value;
            && t.versions != [] && t.board.sortDirection == Desc && t.board.boardType.Scored?
            && var s := Standings(t, Newest(t.versions).id);
               && "a" in s && s["a"].score == Some(0x3FF0_0000_0000_0000)
               && "c" in s && s["c"].score == Some(0x4000_0000_0000_0000)
  {
    var file := TwoScores(Desc);
    var ps := PlacementsOf(file.entries);
    assert file.entries[0].slug == "a" && file.entries[1].slug == "c" && "a"[0] != "c"[0];
    SyncReflectsFile(None, file, note);
    TwoScoresPublished(note);
    hide SyncFile, Standings, UpToDate;
    assert ps[0].entrySlug == "a" && ps[1].entrySlug == "c";
  }

  lemma OneIsLess()
    ensures Less(0x3FF0_0000_0000_0000, 0x4000_0000_0000_0000)
  {
    OrderIsNumeric(0x3FF0_0000_0000_0000, 0x4000_0000_0000_0000);
    hide Less;
  }

  /** A published board, then its file turned around without entries, then the turned
      file: the last run replies "no change" over a ranking in the old direction. */
  lemma StaleRanking(note: string)
    ensures var first := SyncFile(None, TwoScores(Desc), note);
            && first.result == Success(VersionCreated(1)) && first.t.Some? && WellFormed(first.t.value)
            && var second := SyncFile(first.t, TwoScores(Asc).(entries := []), note);
               && second == Outcome(Some(Turned(first.t.value, Asc)), Success(NoChange))
               && WellFormed(second.t.value)
               && SyncFile(second.t, TwoScores(Asc), note) == Outcome(second.t, Success(NoChange))
               && LatestRanked(first.t.value) && !LatestRanked(second.t.value)
               && CanUpdate(first.t.value.board, UpdateBoard(None, Some(Asc), Absent, Absent, None, None))
  {
    TwoScoresPublished(note);
    var t := SyncFile(None, TwoScores(Desc), note).t.value;
    TurnedIsMissed(t, TwoScores(Desc), Asc, note);
    NewIsRanked(TwoScores(Desc), note);
    TwoScoresShown(note);
    OneIsLess();
    hide SyncFile, UpToDate, WellFormed, Turned, RankedUnder, CanUpdate, NeedsVersion, Less;
    OneDirection(t, Newest(t.versions).id, "a", "c");
  }

  // --------------------------------------------- a position taken out of the file

  /** The file without the positions of its entries. */
  function Unpositioned(file: BoardFile): BoardFile {
    file.(entries := seq(|file.entries|, i requires 0 <= i < |file.entries| => file.entries[i].(position := None)))
  }

  lemma UnpositionedSame(t: Tables, file: BoardFile, m: map<Slug, Placement>)
    requires t.board.boardType.Tiered? && SameAs(t.board.boardType, m, PlacementsOf(file.entries))
    ensures SameAs(t.board.boardType, m, PlacementsOf(Unpositioned(file).entries))
  {
    var ps, qs := PlacementsOf(file.entries), PlacementsOf(Unpositioned(file).entries);
    forall i | 0 <= i < |ps|
      ensures qs[i].entrySlug == ps[i].entrySlug
      ensures ps[i].entrySlug in m && !RowDiffers(t.board.boardType, m[ps[i].entrySlug], qs[i], i)
    {
      assert !RowDiffers(t.board.boardType, m[ps[i].entrySlug], ps[i], i);
    }
    hide RowDiffers;
    assert SlugsOf(qs) == SlugsOf(ps);
  }

  lemma UnpositionedSlugs(file: BoardFile)
    ensures var ps, qs := PlacementsOf(file.entries), PlacementsOf(Unpositioned(file).entries);
            && |qs| == |ps| && (forall i | 0 <= i < |ps| :: qs[i].entrySlug == ps[i].entrySlug)
            && (DistinctSlugs(ps) ==> DistinctSlugs(qs))
  {
  }

  lemma UnpositionedMatches(t: Tables, file: BoardFile)
    requires UpToDate(t, file)
    ensures UpToDate(t, Unpositioned(file))
  {
    hide WellFormed;
    var es := Unpositioned(file).entries;
    forall i | 0 <= i < |es| ensures Settled(t.entries, es[i]) {
      assert Settled(t.entries, file.entries[i]);
    }
  }

  lemma UnpositionedCompares(t: Tables, file: BoardFile)
    requires WellFormed(t) && t.board.boardType.Tiered? && DistinctSlugs(PlacementsOf(file.entries))
    requires !NeedsVersion(t, file, false)
    ensures t.versions != [] && !NeedsVersion(t, Unpositioned(file), false)
    ensures SameAs(t.board.boardType, Standings(t, Newest(t.versions).id), PlacementsOf(file.entries))
    ensures Standings(t, Newest(t.versions).id).Keys <= t.entries.Keys
  {
    var latest := Newest(t.versions).id;
    var m := Standings(t, latest);
    FetchIsStandings(t, latest);
    hide WellFormed, Standings, SameAs, Differs, DistinctSlugs;
    UnpositionedSlugs(file);
    DiffersIs(t.board.boardType, FetchPlacements(t, latest), m, PlacementsOf(file.entries));
    DiffersIs(t.board.boardType, FetchPlacements(t, latest), m, PlacementsOf(Unpositioned(file).entries));
    UnpositionedSame(t, file, m);
    PlacedAreEntries(t, latest);
  }

  lemma PlacedAreEntries(t: Tables, v: VersionId)
    ensures Standings(t, v).Keys <= t.entries.Keys
  {
  }

  /** A tiered board is up to date, and positions are taken out of its file: the run
      sees no change, and the newest version keeps the positions that a new version
      would not have. */
  lemma UnpositionedIsMissed(t: Tables, file: BoardFile, note: string, i: nat)
    requires UpToDate(t, file) && t.board.boardType.Tiered? && DistinctSlugs(PlacementsOf(file.entries))
    requires !NeedsVersion(t, file, false) && i < |file.entries| && file.entries[i].position.Some?
    ensures SyncFile(Some(t), Unpositioned(file), note) == Outcome(Some(t), Success(NoChange))
    ensures var slug := file.entries[i].slug;
            var input := InputOf(Unpositioned(file), note);
            && AllFound(t.entries, input.placements)
            && var latest, would := Standings(t, Newest(t.versions).id), Standings(Created(t, input), t.nextId);
               && slug in latest && latest[slug].position == file.entries[i].position
               && slug in would && would[slug].position == None
  {
    UnpositionedMatches(t, file);
    hide WellFormed, Standings, SameAs, Differs, DistinctSlugs, NeedsVersion, Created, Creatable, SyncFile;
    UnpositionedCompares(t, file);
    UnpositionedSlugs(file);
    SecondRunCompares(t, Unpositioned(file), note);
    UnpositionedRow(t, file, Standings(t, Newest(t.versions).id), InputOf(Unpositioned(file), note), i);
  }

  lemma UnpositionedRow(t: Tables, file: BoardFile, m: map<Slug, Placement>, input: CreateVersion, i: nat)
    requires WellFormed(t) && t.board.boardType.Tiered? && i < |file.entries| && file.entries[i].position.Some?
    requires SameAs(t.board.boardType, m, PlacementsOf(file.entries)) && m.Keys <= t.entries.Keys
    requires input.placements == PlacementsOf(Unpositioned(file).entries) && DistinctSlugs(input.placements)
    ensures AllFound(t.entries, input.placements)
    ensures var slug := file.entries[i].slug;
            && slug in m && m[slug].position == file.entries[i].position
            && slug in Standings(Created(t, input), t.nextId)
            && Standings(Created(t, input), t.nextId)[slug].position == None
  {
    var ps := PlacementsOf(file.entries);
    forall j | 0 <= j < |ps| ensures input.placements[j].entrySlug in t.entries {
      assert ps[j].entrySlug in m;
    }
    CreatedStandings(t, input, i);
    assert !RowDiffers(t.board.boardType, m[ps[i].entrySlug], ps[i], i);
    hide Created, Standings, WellFormed, DistinctSlugs;
  }

  /** One entry of one tier, with or without a position. */
  function GoldFile(position: Option<int>): BoardFile {
    BoardFile("b", "B", Tiered, Desc, false, [ParsedTier("gold", None)], None,
              [ParsedEntry("a", "A", position, None, Some("gold"), None)], None)
  }

  lemma GoldFileValid()
    ensures var file := GoldFile(Some(1));
            && CanCreateBoard(BoardOf(file)) && ValidEntries(file.entries)
            && Acceptable(BoardOf(file), PlacementsOf(file.entries))
            && DistinctSlugs(PlacementsOf(file.entries)) && Unpositioned(file) == GoldFile(None)
  {
    var file := GoldFile(Some(1));
    var ps := PlacementsOf(file.entries);
    assert ps == [CreatePlacement("a", Some(1), None, Some("gold"), None)];
    var tiers := TierConfigOf(file.tiers).value.tiers;
    assert tiers == [Tier("gold", 1, None)];
    assert tiers[0].key == "gold";
    assert ps[0].tier == Some("gold");
    assert HasTier(TierConfigOf(file.tiers), ps[0]);
    assert Unpositioned(file).entries == GoldFile(None).entries;
  }

  /** A published position of a tiered board, then the file without it: "no change",
      while the newest version still has the position and a new one would not. */
  lemma RemovedPositionIsMissed(note: string)
    ensures var first := SyncFile(None, GoldFile(Some(1)), note);
            && first.result == Success(VersionCreated(1)) && first.t.Some? && WellFormed(first.t.value)
            && var t := first.t.value;
               var input := InputOf(GoldFile(None), note);
               && SyncFile(first.t, GoldFile(None), note) == Outcome(first.t, Success(NoChange))
               && t.versions != [] && AllFound(t.entries, input.placements)
               && var latest, would := Standings(t, Newest(t.versions).id), Standings(Created(t, input), t.nextId);
                  && "a" in latest && latest["a"].position == Some(1)
                  && "a" in would && would["a"].position == None
  {
    hide SyncFile, UpToDate, NeedsVersion, Acceptable, ValidEntries, CanCreateBoard, DistinctSlugs, WellFormed, Created,
      Standings, PlacementsOf, Unpositioned;
    GoldFileValid();
    PublishedIsQuiet(GoldFile(Some(1)), note);
    var t := SyncFile(None, GoldFile(Some(1)), note).t.value;
    UpToDateFacts(t, GoldFile(Some(1)));
    UnpositionedIsMissed(t, GoldFile(Some(1)), note, 0);
  }

  lemma UpToDateFacts(t: Tables, file: BoardFile)
    requires UpToDate(t, file) && !NeedsVersion(t, file, false)
    ensures WellFormed(t) && t.versions != []
  {
  }

  // ------------------------------------------------------- a file that never settles

  /** A run that made a version of a scored board whose file has a position that is
      not the rank; `t` is the table before it. */
  ghost predicate Restless(t: Option<Tables>, file: BoardFile, note: string) {
    && (t.Some? ==> WellFormed(t.value))
    && MakesVersion(SyncFile(t, file, note).result)
    && var o := SyncFile(t, file, note);
       && o.t.Some? && o.t.value.board.boardType.Scored?
       && !ExplicitAreRanks(o.t.value.entries, o.t.value.board.sortDirection, PlacementsOf(file.entries))
  }

  /** Then the next run is such a run too, and adds exactly one version. */
  lemma StaysRestless(t: Option<Tables>, file: BoardFile, note: string)
    requires Restless(t, file, note)
    ensures var o := SyncFile(t, file, note);
            && Restless(o.t, file, note)
            && SyncFile(o.t, file, note).result.value.VersionAdded?
            && |SyncFile(o.t, file, note).t.value.versions| == |o.t.value.versions| + 1
  {
    RerunAfterVersion(t, file, note, note);
    var o := SyncFile(t, file, note);
    var mid := FirstRun(t, file, note);
    CreatedIsUpToDate(mid, file, note);
    SecondRunCompares(o.t.value, file, note);
    hide SyncFile, NeedsVersion, Creatable, UpToDate, ExplicitAreRanks, WellFormed;
  }

  /** The table after n runs of the file. */
  ghost function Reruns(t: Option<Tables>, file: BoardFile, note: string, n: nat): (r: Option<Tables>)
    requires t.Some? ==> WellFormed(t.value)
    ensures r.Some? ==> WellFormed(r.value)
  {
    if n == 0 then t
    else
      SyncKeepsTables(Reruns(t, file, note, n - 1), file, note);
      SyncFile(Reruns(t, file, note, n - 1), file, note).t
  }

  lemma SyncKeepsTables(t: Option<Tables>, file: BoardFile, note: string)
    requires t.Some? ==> WellFormed(t.value)
    ensures SyncFile(t, file, note).t.Some? ==> WellFormed(SyncFile(t, file, note).t.value)
  {
    BoardStepKeepsKeys(t, file);
    if MakesVersion(SyncFile(t, file, note).result) {
      var mid := FirstRun(t, file, note);
      CreatedIsUpToDate(mid, file, note);
    } else if !file.accumulative && BoardStep(t, file).Success? {
      var start := BoardStep(t, file).value.t;
      SyncKeepsKeys(start.entries, start, file.entries);
    }
  }

  /** Every later run adds one more version, for ever. */
  lemma {:induction false} NeverSettles(t: Option<Tables>, file: BoardFile, note: string, n: nat)
    requires Restless(t, file, note)
    ensures Restless(Reruns(t, file, note, n), file, note)
    ensures var r := Reruns(t, file, note, n + 1);
            r.Some? && |r.value.versions| == |SyncFile(t, file, note).t.value.versions| + n
  {
    hide Restless, SyncFile, WellFormed;
    RestlessMakes(t, file, note);
    if n > 0 {
      NeverSettles(t, file, note, n - 1);
      StaysRestless(Reruns(t, file, note, n - 1), file, note);
      RestlessMakes(Reruns(t, file, note, n), file, note);
    }
  }

  lemma RestlessMakes(t: Option<Tables>, file: BoardFile, note: string)
    requires Restless(t, file, note)
    ensures t.Some? ==> WellFormed(t.value)
    ensures SyncFile(t, file, note).t.Some?
  {
  }

  /** One entry on a scored board, given position 2. */
  function RestlessFile(): BoardFile {
    BoardFile("b", "B", Scored, Desc, false, [], None,
              [ParsedEntry("a", "A", Some(2), Some(0), None, None)], None)
  }

  lemma RestlessFileValid()
    ensures var file := RestlessFile();
            && CanCreateBoard(BoardOf(file)) && ValidEntries(file.entries)
            && Acceptable(BoardOf(file), PlacementsOf(file.entries))
            && PlacementsOf(file.entries) == [CreatePlacement("a", Some(2), Some(0), None, None)]
  {
    var file := RestlessFile();
    var ps := PlacementsOf(file.entries);
    assert ps == [CreatePlacement("a", Some(2), Some(0), None, None)];
    assert HasFiniteScore(ps[0]);
  }

  /** Published once, the file adds a version on every later run: after n more runs
      there are n more versions. */
  lemma ExplicitPositionRepeats(note: string, n: nat)
    ensures SyncFile(None, RestlessFile(), note).result == Success(VersionCreated(1))
    ensures var r := Reruns(None, RestlessFile(), note, n + 1); r.Some? && |r.value.versions| == n + 1
  {
    var file := RestlessFile();
    hide Acceptable, ValidEntries, CanCreateBoard, WellFormed;
    RestlessFileValid();
    FirstSyncCreates(file, note);
    var mid := FirstRun(None, file, note);
    NewBoardType(file, note);
    NewBoardVersions(file, note);
    RankOfOne(mid.entries, PlacementsOf(file.entries));
    hide SyncFile, Creatable, UpToDate, ExplicitAreRanks, Reruns;
    assert Restless(None, file, note);
    NeverSettles(None, file, note, n);
  }

  lemma RankOfOne(entries: map<Slug, EntryRow>, ps: seq<CreatePlacement>)
    requires AllFound(entries, ps) && |ps| == 1 && ps[0].position == Some(2)
    ensures !ExplicitAreRanks(entries, Desc, ps)
  {
    assert ProposedItems(entries, ps) == {ItemFor(entries, ps[0])};
    RankBounds(ItemOrder(Desc), ProposedItems(entries, ps), ItemFor(entries, ps[0]));
  }

  /** The first version of a new board is its only one. */
  lemma NewBoardVersions(file: BoardFile, note: string)
    requires SyncFile(None, file, note).result == Success(VersionCreated(1))
    ensures SyncFile(None, file, note).t.Some? && |SyncFile(None, file, note).t.value.versions| == 1
  {
    BoardStepKeepsKeys(None, file);
    var start := BoardStep(None, file).value.t;
    SyncKeepsKeys(start.entries, start, file.entries);
    SyncKeepsIds(start.entries, start, file.entries);
    hide WellFormed, Acceptable, AllFound;
  }
}
