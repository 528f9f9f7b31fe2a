/** Export then import restores the board. */
module RoundTrip {
  import opened Core
  import opened Ordering
  import opened Ranking
  import opened Tables
  import opened Appending
  import opened Versions
  import opened Export
  import opened Import

  ghost predicate Places(v: VersionExport, slug: Slug) {
    exists i :: 0 <= i < |v.placements| && v.placements[i].entrySlug == slug
  }

  /** Version w of the board holds what v says; on a scored board it is ranked anew. */
  ghost predicate Restored(t: Tables, w: VersionId, v: VersionExport) {
    var s := Standings(t, w);
    && (forall slug :: slug in s <==> Places(v, slug))
    && (forall i | 0 <= i < |v.placements| && v.placements[i].entrySlug in s ::
          Holds(t.board, s[v.placements[i].entrySlug], v.placements[i]))
    && (t.board.boardType.Scored? ==> RankedUnder(t, w, t.board.sortDirection))
  }

  predicate Holds(board: Board, row: Placement, p: PlacementExport) {
    && row.score == p.score && row.tier == p.tier && row.metadata == p.metadata
    && (!board.boardType.Scored? ==> row.position == p.position)
  }

  predicate Importable(board: Board, versions: seq<VersionExport>) {
    && NumbersValid(versions)
    && forall i | 0 <= i < |versions| :: Acceptable(board, CreatesOf(versions[i].placements))
  }

  /** What the import wrote for each version. */
  lemma {:induction false} RebuiltRestores(t: Tables, versions: seq<VersionExport>, k: nat)
    requires WellFormed(t) && t.versions == [] && AllVersionsKnown(t.entries, versions)
    requires Importable(t.board, versions)
    ensures WellFormed(Rebuilt(t, versions))
    ensures forall i | 0 <= i < |versions| :: Rebuilt(t, versions).versions[i].number == versions[i].number
    ensures k < |versions| ==>
              var w := Rebuilt(t, versions).versions[k];
              && w == Version(w.id, versions[k].number, versions[k].note, versions[k].metadata)
              && Restored(Rebuilt(t, versions), w.id, versions[k])
  {
    if versions != [] {
      var n := |versions| - 1;
      var before := Rebuilt(t, versions[..n]);
      var v := versions[n];
      assert forall i | 0 <= i < n :: versions[..n][i] == versions[i];
      RebuiltRestores(t, versions[..n], k);
      LastFits(t, versions);
      AppendedIsWellFormed(before, ImportVersion(before, v), ImportRows(before, v.placements));
      if k < n {
        EarlierStaysRestored(before, v, before.versions[k].id, versions[k]);
      } else if k == n {
        LastIsRestored(before, v);
      }
    }
  }

  /** The next version fits: its rows and its number are new. */
  ghost predicate NextFits(before: Tables, v: VersionExport) {
    && WellFormed(before) && AllKnown(before.entries, v.placements)
    && Acceptable(before.board, CreatesOf(v.placements))
    && v.number > 0 && IsNewNumber(before.versions, v.number)
  }

  lemma LastFits(t: Tables, versions: seq<VersionExport>)
    requires WellFormed(t) && t.versions == [] && AllVersionsKnown(t.entries, versions)
    requires Importable(t.board, versions) && versions != []
    requires var n := |versions| - 1;
             && WellFormed(Rebuilt(t, versions[..n]))
             && forall i | 0 <= i < n :: Rebuilt(t, versions[..n]).versions[i].number == versions[i].number
    ensures var n := |versions| - 1;
            var before := Rebuilt(t, versions[..n]);
            && NextFits(before, versions[n])
            && RowsFit(before, ImportRows(before, versions[n].placements))
            && VersionFits(before, ImportVersion(before, versions[n]))
  {
    var n := |versions| - 1;
    ImportRowsFit(Rebuilt(t, versions[..n]), versions[n]);
  }

  lemma EarlierStaysRestored(before: Tables, v: VersionExport, w: VersionId, earlier: VersionExport)
    requires NextFits(before, v) && Restored(before, w, earlier) && IsVersion(before.versions, w)
    ensures Restored(Appended(before, ImportVersion(before, v), ImportRows(before, v.placements)), w, earlier)
  {
    ImportRowsFit(before, v);
    AppendedKeepsStandings(before, ImportVersion(before, v), ImportRows(before, v.placements), w);
    hide NextFits, Standings, RowsFit;
  }

  lemma LastIsRestored(before: Tables, v: VersionExport)
    requires NextFits(before, v)
    ensures Restored(Appended(before, ImportVersion(before, v), ImportRows(before, v.placements)), before.nextId, v)
  {
    var t := Appended(before, ImportVersion(before, v), ImportRows(before, v.placements));
    forall slug ensures slug in Standings(t, before.nextId) <==> Places(v, slug) {
      LastPlaces(before, v, slug);
    }
    forall i | 0 <= i < |v.placements|
      ensures v.placements[i].entrySlug in Standings(t, before.nextId)
      ensures Holds(t.board, Standings(t, before.nextId)[v.placements[i].entrySlug], v.placements[i])
    {
      LastHolds(before, v, i);
    }
    LastIsRanked(before, v);
    hide NextFits, Appended, Standings, RankedUnder, Places;
  }

  lemma LastHolds(before: Tables, v: VersionExport, i: nat)
    requires NextFits(before, v) && i < |v.placements|
    ensures var s := Standings(Appended(before, ImportVersion(before, v), ImportRows(before, v.placements)),
                               before.nextId);
            var p := v.placements[i];
            p.entrySlug in s && Holds(before.board, s[p.entrySlug], p)
  {
    var rows := ImportRows(before, v.placements);
    ImportRowsFit(before, v);
    AppendedStandings(before, ImportVersion(before, v), rows, i);
    JoinedIs(before.entries, v.placements[i].entrySlug, rows[i]);
    hide Appended, Standings, RowsFit, Rank;
  }

  lemma LastPlaces(before: Tables, v: VersionExport, slug: Slug)
    requires NextFits(before, v)
    ensures slug in Standings(Appended(before, ImportVersion(before, v), ImportRows(before, v.placements)),
                              before.nextId)
            <==> Places(v, slug)
  {
    var rows := ImportRows(before, v.placements);
    var s := Standings(Appended(before, ImportVersion(before, v), rows), before.nextId);
    ImportRowsFit(before, v);
    if slug in s {
      var i := AppendedStandingsOnly(before, ImportVersion(before, v), rows, slug);
      assert v.placements[i].entrySlug == slug;
    }
    if Places(v, slug) {
      var i :| 0 <= i < |v.placements| && v.placements[i].entrySlug == slug;
      LastHolds(before, v, i);
    }
  }

  lemma LastIsRanked(before: Tables, v: VersionExport)
    requires NextFits(before, v)
    ensures before.board.boardType.Scored? ==>
              RankedUnder(Appended(before, ImportVersion(before, v), ImportRows(before, v.placements)),
                          before.nextId, before.board.sortDirection)
  {
    var rows := ImportRows(before, v.placements);
    ImportRowsFit(before, v);
    if before.board.boardType.Scored? {
      forall i | 0 <= i < |rows| ensures rows[i].score.Some? {
        assert HasFiniteScore(CreatesOf(v.placements)[i]);
      }
      AppendedIsRanked(before, ImportVersion(before, v), rows);
    }
  }

  // ------------------------------------------------------------ the round trip

  /** The same version in two databases: entry ids may differ, nothing else on
      ordered and tiered boards; on scored boards the copy is ranked anew. */
  ghost predicate SameVersion(t: Tables, w: Version, t': Tables, w': Version) {
    var s, s' := Standings(t, w.id), Standings(t', w'.id);
    && w.number == w'.number && w.note == w'.note && w.metadata == w'.metadata
    && s.Keys == s'.Keys
    && (forall slug | slug in s ::
          && s[slug].score == s'[slug].score && s[slug].tier == s'[slug].tier
          && s[slug].metadata == s'[slug].metadata
          && (!t.board.boardType.Scored? ==> s[slug].position == s'[slug].position))
    && (t.board.boardType.Scored? ==> RankedUnder(t', w'.id, t.board.sortDirection))
  }

  lemma ExportPlaces(t: Tables, w: Version, slug: Slug)
    requires WellFormed(t)
    ensures slug in Standings(t, w.id) <==> Places(VersionExportOf(t, w), slug)
    ensures var ps := VersionExportOf(t, w).placements;
            forall i | 0 <= i < |ps| ::
              && ps[i].entrySlug in Standings(t, w.id)
              && var row := Standings(t, w.id)[ps[i].entrySlug];
                 ps[i].position == row.position && ps[i].score == row.score
                 && ps[i].tier == row.tier && ps[i].metadata == row.metadata
  {
    FetchIsStandings(t, w.id);
    var list := FetchPlacements(t, w.id);
    var ps := VersionExportOf(t, w).placements;
    assert forall i | 0 <= i < |list| :: ps[i] == ExportRow(list[i]);
    hide FetchPlacements, Standings;
    if slug in Standings(t, w.id) {
      var i :| 0 <= i < |list| && list[i].entrySlug == slug;
      assert ps[i].entrySlug == slug;
    }
  }

  lemma RestoredIsSame(t: Tables, w: Version, t': Tables, w': Version)
    requires WellFormed(t) && t'.board == t.board
    requires w'.number == w.number && w'.note == w.note && w'.metadata == w.metadata
    requires Restored(t', w'.id, VersionExportOf(t, w))
    ensures SameVersion(t, w, t', w')
  {
    var v := VersionExportOf(t, w);
    forall slug ensures slug in Standings(t, w.id) <==> Places(v, slug) {
      ExportPlaces(t, w, slug);
    }
    ExportPlaces(t, w, "");
    hide Standings, VersionExportOf, WellFormed;
    var s, s' := Standings(t, w.id), Standings(t', w'.id);
    forall slug | slug in s
      ensures s[slug].score == s'[slug].score && s[slug].tier == s'[slug].tier
      ensures s[slug].metadata == s'[slug].metadata
      ensures !t.board.boardType.Scored? ==> s[slug].position == s'[slug].position
    {
      assert Places(v, slug);
      var i :| 0 <= i < |v.placements| && v.placements[i].entrySlug == slug;
      assert Holds(t.board, s'[slug], v.placements[i]);
    }
  }

  lemma ExportNumbers(t: Tables, e: BoardExport)
    requires WellFormed(t) && IsExport(t, e)
    ensures NumbersValid(e.versions)
  {
    forall i | 0 <= i < |e.versions| ensures e.versions[i].number > 0 {
      assert e.versions[i] in e.versions;
    }
  }

  lemma SortedIsImportable(e: BoardExport)
    requires NumbersValid(e.versions) && VersionsAcceptable(e)
    ensures Importable(e.board, SortBy(OldestFirst(), e.versions))
  {
    var sorted := SortBy(OldestFirst(), e.versions);
    SortKeepsElements(OldestFirst(), e.versions);
    SortKeepsNumbers(e.versions);
    forall i | 0 <= i < |sorted| ensures Acceptable(e.board, CreatesOf(sorted[i].placements)) {
      assert sorted[i] in e.versions;
    }
  }

  /** Every exported entry is an entry of the board, under its current name. */
  lemma ExportNames(t: Tables, e: BoardExport)
    requires WellFormed(t) && IsExport(t, e)
    ensures forall v, p | v in e.versions && p in v.placements ::
              p.entrySlug in t.entries && p.entryName == t.entries[p.entrySlug].name
  {
    forall v, p | v in e.versions && p in v.placements
      ensures p.entrySlug in t.entries && p.entryName == t.entries[p.entrySlug].name
    {
      var w :| w in t.versions && v == VersionExportOf(t, w);
      FetchIsStandings(t, w.id);
      var i :| 0 <= i < |v.placements| && v.placements[i] == p;
      assert p == ExportRow(FetchPlacements(t, w.id)[i]);
    }
  }

  lemma {:induction false} NamesInAre(ps: seq<PlacementExport>, entries: map<Slug, EntryRow>)
    requires forall p | p in ps :: p.entrySlug in entries && p.entryName == entries[p.entrySlug].name
    ensures forall slug | slug in NamesIn(ps) :: slug in entries && NamesIn(ps)[slug] == entries[slug].name
  {
    if ps != [] {
      NamesInAre(ps[..|ps| - 1], entries);
      assert ps[|ps| - 1] in ps;
    }
  }

  lemma {:induction false} LastNamesAre(versions: seq<VersionExport>, entries: map<Slug, EntryRow>)
    requires forall v, p | v in versions && p in v.placements ::
               p.entrySlug in entries && p.entryName == entries[p.entrySlug].name
    ensures forall slug | slug in LastNames(versions) ::
              slug in entries && LastNames(versions)[slug] == entries[slug].name
  {
    if versions != [] {
      var n := |versions| - 1;
      assert versions[n] in versions;
      LastNamesAre(versions[..n], entries);
      NamesInAre(versions[n].placements, entries);
    }
  }

  /** An export whose versions pass validation is imported wherever its slug is free. */
  lemma ExportImports(t: Tables, e: BoardExport, taken: set<Slug>)
    requires WellFormed(t) && IsExport(t, e)
    ensures ImportError(e, taken) ==
            if !VersionsAcceptable(e) then Some(Validation)
            else if t.board.slug in taken then Some(Conflict) else None
  {
    ExportNumbers(t, e);
    ExportNames(t, e);
    LastNamesAre(e.versions, t.entries);
  }

  lemma ImportedEntries(t: Tables, e: BoardExport, t': Tables)
    requires WellFormed(t) && IsExport(t, e) && IsImport(e, t')
    ensures WellFormed(Bare(e.board, t'.entries))
    ensures forall slug | slug in t'.entries ::
              slug in t.entries && t'.entries[slug].name == t.entries[slug].name
  {
    ExportNames(t, e);
    LastNamesAre(e.versions, t.entries);
  }

  /** Export, then import: the board's columns come back, and so does every version. */
  lemma ImportRestores(t: Tables, e: BoardExport, t': Tables, w: Version) returns (w': Version)
    requires WellFormed(t) && IsExport(t, e) && VersionsAcceptable(e) && IsImport(e, t') && w in t.versions
    ensures WellFormed(t') && t'.board == t.board && |t'.versions| == |t.versions|
    ensures w' in t'.versions && SameVersion(t, w, t', w')
  {
    var sorted := SortBy(OldestFirst(), e.versions);
    var v := VersionExportOf(t, w);
    SortKeepsElements(OldestFirst(), e.versions);
    ExportNumbers(t, e);
    SortedIsImportable(e);
    ImportedEntries(t, e, t');
    var k :| 0 <= k < |sorted| && sorted[k] == v;
    hide IsExport, WellFormed, Importable, SortBy;
    RebuiltRestores(Bare(e.board, t'.entries), sorted, k);
    w' := t'.versions[k];
    RestoredIsSame(t, w, t', w');
  }

  // --------------------------------------------------- positions on scored boards

  /** The block of an equal-score group does not depend on the entry ids. */
  lemma SameBlocks(
    scores: map<Slug, Float64>, ids: map<Slug, EntryId>, ids': map<Slug, EntryId>,
    dir: Direction, key: int, k: int)
    requires scores.Keys <= ids.Keys && Injective(ids) && scores.Keys <= ids'.Keys && Injective(ids')
    ensures (exists slug :: slug in Group(scores, key) && FrozenRank(scores, ids, dir, slug) == k)
            <==> (exists slug :: slug in Group(scores, key) && FrozenRank(scores, ids', dir, slug) == k)
  {
    FrozenBlock(scores, ids, dir, key, k);
    FrozenBlock(scores, ids', dir, key, k);
    hide FrozenRank, Group, Ahead;
  }

  /** The rows with these scores are numbered by their frozen ranks. */
  ghost predicate NumberedBy(rows: map<Slug, Placement>, ids: map<Slug, EntryId>, dir: Direction) {
    forall slug | slug in rows ::
      && rows[slug].score.Some? && slug in ids && ScoresOf(rows).Keys <= ids.Keys
      && rows[slug].position == Some(FrozenRank(ScoresOf(rows), ids, dir, slug))
  }

  /** Some entry of the group has position k. */
  ghost predicate HasPosition(rows: map<Slug, Placement>, group: set<Slug>, k: int) {
    exists slug :: slug in group && slug in rows && rows[slug].position == Some(k)
  }

  lemma RankedIsNumbered(t: Tables, v: VersionId, dir: Direction)
    requires RankedUnder(t, v, dir)
    ensures NumberedBy(Standings(t, v), IdsOf(t.entries), dir)
  {
    hide FrozenRank;
  }

  lemma NumberedBlocks(
    rows: map<Slug, Placement>, rows': map<Slug, Placement>, ids: map<Slug, EntryId>, ids': map<Slug, EntryId>,
    dir: Direction, key: int, k: int)
    requires NumberedBy(rows, ids, dir) && NumberedBy(rows', ids', dir) && ScoresOf(rows) == ScoresOf(rows')
    requires ScoresOf(rows).Keys <= ids.Keys && ScoresOf(rows).Keys <= ids'.Keys && rows.Keys == rows'.Keys
    requires Injective(ids) && Injective(ids')
    ensures HasPosition(rows, Group(ScoresOf(rows), key), k) <==> HasPosition(rows', Group(ScoresOf(rows), key), k)
  {
    SameBlocks(ScoresOf(rows), ids, ids', dir, key, k);
    hide FrozenRank, Injective;
    var scores := ScoresOf(rows);
    forall slug | slug in Group(scores, key)
      ensures rows[slug].position == Some(k) <==> FrozenRank(scores, ids, dir, slug) == k
      ensures rows'[slug].position == Some(k) <==> FrozenRank(scores, ids', dir, slug) == k
    {
    }
    hide NumberedBy, Group;
  }

  lemma UntiedRows(
    rows: map<Slug, Placement>, rows': map<Slug, Placement>, ids: map<Slug, EntryId>, ids': map<Slug, EntryId>,
    dir: Direction, slug: Slug)
    requires NumberedBy(rows, ids, dir) && NumberedBy(rows', ids', dir) && ScoresOf(rows) == ScoresOf(rows')
    requires ScoresOf(rows).Keys <= ids.Keys && ScoresOf(rows).Keys <= ids'.Keys && rows.Keys == rows'.Keys
    requires Injective(ids) && Injective(ids') && slug in ScoresOf(rows)
    requires Group(ScoresOf(rows), OrderKey(ScoresOf(rows)[slug])) == {slug}
    ensures rows'[slug].position == rows[slug].position
  {
    var key := OrderKey(ScoresOf(rows)[slug]);
    assert rows[slug].position.Some?;
    hide NumberedBy, Injective, OrderKey;
    var k := rows[slug].position.value;
    NumberedBlocks(rows, rows', ids, ids', dir, key, k);
    hide Group, ScoresOf;
    assert HasPosition(rows, {slug}, k);
  }

  lemma ScoredSlugsHaveIds(t: Tables, v: VersionId)
    ensures ScoresOf(Standings(t, v)).Keys <= IdsOf(t.entries).Keys
  {
  }

  /** What the two databases agree on, as far as ranking is concerned. */
  ghost predicate SameContest(t: Tables, w: Version, t': Tables, w': Version) {
    var s, s' := Standings(t, w.id), Standings(t', w'.id);
    var ids, ids' := IdsOf(t.entries), IdsOf(t'.entries);
    && NumberedBy(s, ids, t.board.sortDirection) && NumberedBy(s', ids', t.board.sortDirection)
    && ScoresOf(s) == ScoresOf(s') && s.Keys == s'.Keys
    && ScoresOf(s).Keys <= ids.Keys && ScoresOf(s).Keys <= ids'.Keys
    && Injective(ids) && Injective(ids')
  }

  lemma RankedContest(t: Tables, w: Version, t': Tables, w': Version)
    requires WellFormed(t) && WellFormed(t') && t.board.boardType.Scored? && SameVersion(t, w, t', w')
    requires RankedUnder(t, w.id, t.board.sortDirection)
    ensures SameContest(t, w, t', w')
  {
    IdsInjective(t.entries);
    IdsInjective(t'.entries);
    hide WellFormed, RankedUnder, NumberedBy, Injective, Standings, ScoresOf, IdsOf;
    RankedIsNumbered(t, w.id, t.board.sortDirection);
    RankedIsNumbered(t', w'.id, t.board.sortDirection);
    ScoredSlugsHaveIds(t, w.id);
    ScoredSlugsHaveIds(t', w'.id);
    SameScores(Standings(t, w.id), Standings(t', w'.id));
  }

  lemma IdsInjective(entries: map<Slug, EntryRow>)
    requires UniqueIds(entries)
    ensures Injective(IdsOf(entries))
  {
  }

  /** If the version was the ranking under the current direction, the copy gives
      each equal-score group the same positions... */
  lemma GroupsKeepPositions(t: Tables, w: Version, t': Tables, w': Version, key: int, k: int)
    requires WellFormed(t) && WellFormed(t') && t.board.boardType.Scored? && SameVersion(t, w, t', w')
    requires RankedUnder(t, w.id, t.board.sortDirection)
    ensures var s, s' := Standings(t, w.id), Standings(t', w'.id);
            var group := Group(ScoresOf(s), key);
            HasPosition(s, group, k) <==> HasPosition(s', group, k)
  {
    RankedContest(t, w, t', w');
    hide WellFormed, RankedUnder, NumberedBy, Injective, Standings, SameVersion, Group, ScoresOf;
    NumberedBlocks(Standings(t, w.id), Standings(t', w'.id), IdsOf(t.entries), IdsOf(t'.entries),
                   t.board.sortDirection, key, k);
  }

  /** ...so an entry that shares its score with no other gets its position back. */
  lemma UntiedKeepsPosition(t: Tables, w: Version, t': Tables, w': Version, slug: Slug)
    requires WellFormed(t) && WellFormed(t') && t.board.boardType.Scored? && SameVersion(t, w, t', w')
    requires RankedUnder(t, w.id, t.board.sortDirection) && slug in ScoresOf(Standings(t, w.id))
    requires var scores := ScoresOf(Standings(t, w.id));
             Group(scores, OrderKey(scores[slug])) == {slug}
    ensures Standings(t', w'.id)[slug].position == Standings(t, w.id)[slug].position
  {
    RankedContest(t, w, t', w');
    hide WellFormed, RankedUnder, NumberedBy, Injective, Standings, SameVersion, Group;
    UntiedRows(Standings(t, w.id), Standings(t', w'.id), IdsOf(t.entries), IdsOf(t'.entries),
               t.board.sortDirection, slug);
  }

  ghost predicate SamePositions(s: map<Slug, Placement>, s': map<Slug, Placement>) {
    s.Keys == s'.Keys && forall slug | slug in s :: s[slug].position == s'[slug].position
  }

  /** Exactly when the positions of a scored version come back, ranked or not: when
      they are the ranks of its scores under the current direction with ties broken by
      the ids of the copy; and for one entry, when its own position is. */
  lemma PositionsComeBack(t: Tables, w: Version, t': Tables, w': Version)
    requires WellFormed(t) && WellFormed(t') && t.board.boardType.Scored? && SameVersion(t, w, t', w')
    ensures var s, s' := Standings(t, w.id), Standings(t', w'.id);
            var scores, ids := ScoresOf(s), IdsOf(t'.entries);
            && scores.Keys == s.Keys == s'.Keys && s.Keys <= ids.Keys
            && (SamePositions(s, s') <==> NumberedBy(s, ids, t.board.sortDirection))
            && forall slug | slug in s ::
                 (s'[slug].position == s[slug].position
                  <==> s[slug].position == Some(FrozenRank(scores, ids, t.board.sortDirection, slug)))
  {
    var s, s' := Standings(t, w.id), Standings(t', w'.id);
    RankedIsNumbered(t', w'.id, t.board.sortDirection);
    ScoredSlugsHaveIds(t', w'.id);
    hide WellFormed, RankedUnder, Standings, FrozenRank, IdsOf;
    forall slug | slug in s ensures s[slug].score.Some? {
      assert slug in s';
    }
    hide NumberedBy;
    SameScores(s, s');
    NumberedAgree(s, s', IdsOf(t'.entries), t.board.sortDirection);
  }

  lemma NumberedAgree(s: map<Slug, Placement>, s': map<Slug, Placement>, ids: map<Slug, EntryId>, dir: Direction)
    requires s.Keys == s'.Keys && ScoresOf(s) == ScoresOf(s') && NumberedBy(s', ids, dir)
    requires forall slug | slug in s :: s[slug].score.Some?
    ensures ScoresOf(s).Keys == s.Keys && s.Keys <= ids.Keys
    ensures SamePositions(s, s') <==> NumberedBy(s, ids, dir)
    ensures forall slug | slug in s ::
              (s'[slug].position == s[slug].position
               <==> s[slug].position == Some(FrozenRank(ScoresOf(s), ids, dir, slug)))
  {
    hide FrozenRank;
  }

  ghost predicate Untied(scores: map<Slug, Float64>) {
    forall slug | slug in scores :: Group(scores, OrderKey(scores[slug])) == {slug}
  }

  /** Without ties: exactly when the version was the ranking under the current direction. */
  lemma UntiedComesBack(t: Tables, w: Version, t': Tables, w': Version)
    requires WellFormed(t) && WellFormed(t') && t.board.boardType.Scored? && SameVersion(t, w, t', w')
    requires Untied(ScoresOf(Standings(t, w.id)))
    ensures SamePositions(Standings(t, w.id), Standings(t', w'.id))
            <==> RankedUnder(t, w.id, t.board.sortDirection)
  {
    var s := Standings(t, w.id);
    var scores, ids, ids', dir := ScoresOf(s), IdsOf(t.entries), IdsOf(t'.entries), t.board.sortDirection;
    PositionsComeBack(t, w, t', w');
    ScoredSlugsHaveIds(t, w.id);
    IdsInjective(t.entries);
    IdsInjective(t'.entries);
    hide WellFormed, Standings, FrozenRank, IdsOf, ScoresOf, Injective, SameVersion, SamePositions, Untied;
    forall slug | slug in s ensures FrozenRank(scores, ids, dir, slug) == FrozenRank(scores, ids', dir, slug) {
      UntiedRank(scores, ids, ids', dir, slug);
    }
  }

  lemma UntiedRank(
    scores: map<Slug, Float64>, ids: map<Slug, EntryId>, ids': map<Slug, EntryId>, dir: Direction, slug: Slug)
    requires scores.Keys <= ids.Keys && Injective(ids) && scores.Keys <= ids'.Keys && Injective(ids')
    requires Untied(scores) && slug in scores
    ensures FrozenRank(scores, ids, dir, slug) == FrozenRank(scores, ids', dir, slug)
  {
    var key := OrderKey(scores[slug]);
    assert Group(scores, key) == {slug};
    hide FrozenRank, Injective, Group, Untied, OrderKey;
    SameBlocks(scores, ids, ids', dir, key, FrozenRank(scores, ids, dir, slug));
    assert slug in Group(scores, key);
  }
}
