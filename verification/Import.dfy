/** `export.rs`, second half: `import_board`, and the round trip with the export. */
module Import {
  import opened Core
  import opened Ordering
  import opened Ranking
  import opened Tables
  import opened Appending
  import opened Versions
  import opened Export

  datatype ImportResult = ImportResult(boardSlug: Slug, versionNumbers: seq<int>)

  function CreateOf(p: PlacementExport): CreatePlacement {
    CreatePlacement(p.entrySlug, p.position, p.score, p.tier, p.metadata)
  }

  function CreatesOf(ps: seq<PlacementExport>): (r: seq<CreatePlacement>)
    ensures |r| == |ps|
    ensures forall i | 0 <= i < |ps| ::
              && r[i].entrySlug == ps[i].entrySlug && r[i].position == ps[i].position && r[i].score == ps[i].score
              && r[i].tier == ps[i].tier && r[i].metadata == ps[i].metadata
  {
    seq(|ps|, i requires 0 <= i < |ps| => CreateOf(ps[i]))
  }

  // ------------------------------------------------------------------- entries

  function NamesIn(ps: seq<PlacementExport>): map<Slug, string> {
    if ps == [] then map[]
    else
      var p := ps[|ps| - 1];
      NamesIn(ps[..|ps| - 1])[p.entrySlug := p.entryName]
  }

  /** Every entry of the export, with the name it was seen with last. */
  function LastNames(versions: seq<VersionExport>): map<Slug, string> {
    if versions == [] then map[]
    else
      LastNames(versions[..|versions| - 1]) + NamesIn(versions[|versions| - 1].placements)
  }

  predicate SeenIn(ps: seq<PlacementExport>, slug: Slug) {
    exists k :: 0 <= k < |ps| && ps[k].entrySlug == slug
  }

  predicate LastIn(ps: seq<PlacementExport>, slug: Slug, name: string) {
    exists k :: 0 <= k < |ps| && ps[k].entrySlug == slug && ps[k].entryName == name
                && forall l | k < l < |ps| :: ps[l].entrySlug != slug
  }

  /** The slug's last placement, in the order of the export, has this name. */
  predicate LastSeen(versions: seq<VersionExport>, slug: Slug, name: string) {
    exists i :: 0 <= i < |versions| && LastIn(versions[i].placements, slug, name)
                && forall j | i < j < |versions| :: !SeenIn(versions[j].placements, slug)
  }

  lemma {:induction false} NamesInIs(ps: seq<PlacementExport>, slug: Slug)
    ensures slug in NamesIn(ps) <==> SeenIn(ps, slug)
    ensures slug in NamesIn(ps) ==> LastIn(ps, slug, NamesIn(ps)[slug])
  {
    if ps != [] {
      var n := |ps| - 1;
      NamesInIs(ps[..n], slug);
      if ps[n].entrySlug != slug && slug in NamesIn(ps) {
        var k :| 0 <= k < n && ps[..n][k].entrySlug == slug && ps[..n][k].entryName == NamesIn(ps)[slug]
                 && forall l | k < l < n :: ps[..n][l].entrySlug != slug;
        assert ps[k] == ps[..n][k];
        forall l | k < l < |ps| ensures ps[l].entrySlug != slug {
          assert l < n ==> ps[l] == ps[..n][l];
        }
      }
      if k :| 0 <= k < |ps| && ps[k].entrySlug == slug {
        assert k < n ==> ps[..n][k] == ps[k];
      }
    }
  }

  lemma {:induction false} LastNamesIs(versions: seq<VersionExport>, slug: Slug)
    ensures slug in LastNames(versions) <==> exists i :: 0 <= i < |versions| && SeenIn(versions[i].placements, slug)
    ensures slug in LastNames(versions) ==> LastSeen(versions, slug, LastNames(versions)[slug])
  {
    if versions != [] {
      var n := |versions| - 1;
      LastNamesIs(versions[..n], slug);
      NamesInIs(versions[n].placements, slug);
      hide NamesIn, SeenIn, LastIn;
      if slug in LastNames(versions[..n]) && !SeenIn(versions[n].placements, slug) {
        var i :| 0 <= i < n && LastIn(versions[..n][i].placements, slug, LastNames(versions)[slug])
                 && forall j | i < j < n :: !SeenIn(versions[..n][j].placements, slug);
        assert versions[..n][i] == versions[i];
        forall j | i < j < |versions| ensures !SeenIn(versions[j].placements, slug) {
          assert j < n ==> versions[..n][j] == versions[j];
        }
      }
      if i :| 0 <= i < |versions| && SeenIn(versions[i].placements, slug) {
        assert i < n ==> versions[..n][i] == versions[i];
      }
      if i :| 0 <= i < n && SeenIn(versions[..n][i].placements, slug) {
        assert versions[..n][i] == versions[i];
      }
    }
  }

  /** Each slug of the export with its last name. */
  ghost predicate NamesAre(versions: seq<VersionExport>, names: map<Slug, string>) {
    && (forall slug :: slug in names <==> exists i :: 0 <= i < |versions| && SeenIn(versions[i].placements, slug))
    && (forall slug | slug in names :: LastSeen(versions, slug, names[slug]))
  }

  lemma LastNamesAreNames(versions: seq<VersionExport>)
    ensures NamesAre(versions, LastNames(versions))
  {
    hide LastNames, SeenIn, LastSeen;
    forall slug
      ensures slug in LastNames(versions) <==> exists i :: 0 <= i < |versions| && SeenIn(versions[i].placements, slug)
      ensures slug in LastNames(versions) ==> LastSeen(versions, slug, LastNames(versions)[slug])
    {
      LastNamesIs(versions, slug);
    }
  }

  predicate NamesValid(names: map<Slug, string>) {
    forall slug | slug in names :: ValidSlug(slug) && ValidName(names[slug])
  }

  // -------------------------------------------------------------- what succeeds

  predicate VersionsAcceptable(e: BoardExport) {
    forall i | 0 <= i < |e.versions| :: Acceptable(e.board, CreatesOf(e.versions[i].placements))
  }

  predicate NumbersValid(versions: seq<VersionExport>) {
    && (forall i | 0 <= i < |versions| :: versions[i].number > 0)
    && (forall i, j | 0 <= i < j < |versions| :: versions[i].number != versions[j].number)
  }

  /** The first check that fails. */
  function ImportError(e: BoardExport, taken: set<Slug>): Option<Error> {
    if !VersionsAcceptable(e) || !BoardOk(e.board) then Some(Validation)
    else if e.board.slug in taken then Some(Conflict)
    else if !NamesValid(LastNames(e.versions)) then Some(Validation)
    else if !NumbersValid(e.versions) then Some(Error.Database)
    else None
  }

  // ------------------------------------------------------------ what is written

  function ImportRow(t: Tables, p: PlacementExport): Placement
    requires p.entrySlug in t.entries
  {
    Placement(t.nextId, t.entries[p.entrySlug].id, p.position, p.score, p.tier, p.metadata)
  }

  function ImportRows(t: Tables, ps: seq<PlacementExport>): (r: seq<Placement>)
    requires AllKnown(t.entries, ps)
    ensures |r| == |ps|
  {
    seq(|ps|, i requires 0 <= i < |ps| => ImportRow(t, ps[i]))
  }

  predicate AllKnown(entries: map<Slug, EntryRow>, ps: seq<PlacementExport>) {
    forall i | 0 <= i < |ps| :: ps[i].entrySlug in entries
  }

  function ImportVersion(t: Tables, v: VersionExport): Version {
    Version(t.nextId, v.number, v.note, v.metadata)
  }

  /** The board with versions added one after the other. */
  function Rebuilt(t: Tables, versions: seq<VersionExport>): (r: Tables)
    requires forall i | 0 <= i < |versions| :: AllKnown(t.entries, versions[i].placements)
    ensures r.board == t.board && r.entries == t.entries
    ensures |r.versions| == |t.versions| + |versions| && r.nextId == t.nextId + |versions|
  {
    if versions == [] then t
    else
      var v := versions[|versions| - 1];
      var before := Rebuilt(t, versions[..|versions| - 1]);
      Appended(before, ImportVersion(before, v), ImportRows(before, v.placements))
  }

  /** The board and its entries, before the first version. */
  function Bare(board: Board, entries: map<Slug, EntryRow>): Tables {
    Tables(board, entries, [], [], map[], |entries|)
  }

  ghost predicate EntriesFrom(entries: map<Slug, EntryRow>, names: map<Slug, string>) {
    && entries.Keys == names.Keys && UniqueIds(entries)
    && forall slug | slug in entries ::
         entries[slug].name == names[slug] && entries[slug].metadata == None && entries[slug].id < |entries|
  }

  /** The whole board that an import leaves: ids are free, everything else is fixed. */
  ghost predicate IsImport(e: BoardExport, t: Tables) {
    && EntriesFrom(t.entries, LastNames(e.versions))
    && AllVersionsKnown(t.entries, SortBy(OldestFirst(), e.versions))
    && t == Rebuilt(Bare(e.board, t.entries), SortBy(OldestFirst(), e.versions))
  }

  ghost predicate AllVersionsKnown(entries: map<Slug, EntryRow>, versions: seq<VersionExport>) {
    forall i | 0 <= i < |versions| :: AllKnown(entries, versions[i].placements)
  }

  // --------------------------------------------------------------- import_board

  method CheckVersions(e: BoardExport) returns (r: Result<()>)
    ensures r == if VersionsAcceptable(e) then Success(()) else Failure(Validation)
  {
    for i := 0 to |e.versions|
      invariant forall k | 0 <= k < i :: Acceptable(e.board, CreatesOf(e.versions[k].placements))
    {
      var checked := ValidatePlacements(e.board, CreatesOf(e.versions[i].placements));
      if checked.Failure? {
        return Failure(Validation);
      }
    }
    return Success(());
  }

  /** The inner loop. */
  method CollectFrom(before: map<Slug, string>, ps: seq<PlacementExport>) returns (names: map<Slug, string>)
    ensures names == before + NamesIn(ps)
  {
    names := before;
    for k := 0 to |ps|
      invariant names == before + NamesIn(ps[..k])
    {
      assert ps[..k + 1][..k] == ps[..k];
      names := names[ps[k].entrySlug := ps[k].entryName];
    }
    assert ps[..|ps|] == ps;
  }

  /** entry_names. */
  method CollectNames(versions: seq<VersionExport>) returns (names: map<Slug, string>)
    ensures names == LastNames(versions) && NamesAre(versions, names)
  {
    LastNamesAreNames(versions);
    hide NamesAre;
    names := map[];
    for i := 0 to |versions|
      invariant names == LastNames(versions[..i])
    {
      assert versions[..i + 1][..i] == versions[..i];
      hide LastSeen, SeenIn;
      names := CollectFrom(names, versions[i].placements);
    }
    assert versions[..|versions|] == versions;
  }

  /** One entry for each name, in any order. */
  method InsertEntries(tx: Transaction, names: map<Slug, string>) returns (r: Result<()>)
    requires tx.entries == map[] && tx.nextId == 0
    modifies tx`entries, tx`nextId
    ensures r == if NamesValid(names) then Success(()) else Failure(Validation)
    ensures r.Success? ==> EntriesFrom(tx.entries, names) && tx.nextId == |tx.entries|
  {
    var todo := names.Keys;
    while todo != {}
      invariant todo <= names.Keys && tx.nextId == |tx.entries|
      invariant EntriesFrom(tx.entries, Without(names, todo)) && NamesValid(Without(names, todo))
    {
      var slug :| slug in todo;
      if !ValidSlug(slug) || !ValidName(names[slug]) {
        return Failure(Validation);
      }
      EntryAdded(tx.entries, names, todo, slug);
      NamesGrow(names, todo, slug);
      hide EntriesFrom, NamesValid, Without;
      var id := tx.InsertEntry(slug, names[slug], None);
      todo := todo - {slug};
    }
    assert Without(names, todo) == names;
    return Success(());
  }

  ghost function Without(names: map<Slug, string>, todo: set<Slug>): map<Slug, string> {
    map slug | slug in names && slug !in todo :: names[slug]
  }

  lemma NamesGrow(names: map<Slug, string>, todo: set<Slug>, slug: Slug)
    requires slug in todo && todo <= names.Keys
    requires NamesValid(Without(names, todo)) && ValidSlug(slug) && ValidName(names[slug])
    ensures NamesValid(Without(names, todo - {slug}))
  {
  }

  lemma EntryAdded(entries: map<Slug, EntryRow>, names: map<Slug, string>, todo: set<Slug>, slug: Slug)
    requires slug in todo && todo <= names.Keys && EntriesFrom(entries, Without(names, todo))
    ensures slug !in entries
    ensures var grown := entries[slug := EntryRow(|entries|, names[slug], None)];
            EntriesFrom(grown, Without(names, todo - {slug})) && |grown| == |entries| + 1
  {
    var row := EntryRow(|entries|, names[slug], None);
    assert slug !in Without(names, todo);
    assert Without(names, todo - {slug}) == Without(names, todo)[slug := names[slug]];
    hide Without;
    FromGrows(entries, Without(names, todo), slug, names[slug]);
    GrownCard(entries, slug, row);
  }

  lemma FromGrows(entries: map<Slug, EntryRow>, names: map<Slug, string>, slug: Slug, name: string)
    requires EntriesFrom(entries, names) && slug !in names
    ensures EntriesFrom(entries[slug := EntryRow(|entries|, name, None)], names[slug := name])
  {
    var row := EntryRow(|entries|, name, None);
    assert slug !in entries;
    NewIdIsUnique(entries, slug, row);
    GrownCard(entries, slug, row);
    hide UniqueIds;
  }

  lemma NewIdIsUnique(entries: map<Slug, EntryRow>, slug: Slug, row: EntryRow)
    requires UniqueIds(entries) && slug !in entries
    requires forall other | other in entries :: entries[other].id < row.id
    ensures UniqueIds(entries[slug := row])
  {
  }

  lemma GrownCard(entries: map<Slug, EntryRow>, slug: Slug, row: EntryRow)
    requires slug !in entries
    ensures |entries[slug := row]| == |entries| + 1
  {
    assert entries[slug := row].Keys == entries.Keys + {slug};
  }

  /** INSERT versions and placements of one version, and its positions. */
  method ImportOne(tx: Transaction, v: VersionExport) returns (r: Result<()>)
    requires WellFormed(tx.View()) && AllKnown(tx.entries, v.placements) && DistinctSlugs(CreatesOf(v.placements))
    modifies tx`versions, tx`placements, tx`nextId
    ensures r == if v.number > 0 && IsNewNumber(old(tx.versions), v.number)
                 then Success(()) else Failure(Error.Database)
    ensures r.Success? ==>
              var t := old(tx.View());
              tx.View() == Appended(t, ImportVersion(t, v), ImportRows(t, v.placements)) && WellFormed(tx.View())
  {
    ghost var t := tx.View();
    ghost var rows := ImportRows(t, v.placements);
    var inserted := tx.InsertVersion(v.number, v.note, v.metadata);
    if inserted.Failure? {
      return Failure(Error.Database);
    }
    var version := inserted.value;
    ImportRowsFit(t, v);
    AppendedIsWellFormed(t, version, rows);
    RowsStayUnique(t, rows, version.id);
    hide WellFormed, RowsFit, UniqueEntries;
    ImportPlacements(tx, t, version, v.placements);
    if tx.board.boardType.Scored? {
      tx.DeriveScoredPositions(version.id);
    }
    return Success(());
  }

  lemma ImportRowIsReady(t: Tables, version: Version, ps: seq<PlacementExport>, i: nat)
    requires WellFormed(t) && AllKnown(t.entries, ps) && RowsFit(t, ImportRows(t, ps)) && VersionFits(t, version)
    requires i < |ps|
    ensures ps[i].entrySlug in t.entries
    ensures var rows := ImportRows(t, ps);
            var p := ps[i];
            && rows[i] == Placement(version.id, t.entries[p.entrySlug].id, p.position, p.score, p.tier, p.metadata)
            && rows[..i + 1] == rows[..i] + [rows[i]]
            && HasId(t.entries, rows[i].entryId) && IsVersion(t.versions + [version], version.id)
            && !HasRow(t.placements + rows[..i], version.id, rows[i].entryId)
  {
    RowIsFree(t, version, ImportRows(t, ps), i);
  }

  method ImportPlacements(tx: Transaction, ghost t: Tables, version: Version, ps: seq<PlacementExport>)
    requires WellFormed(t) && AllKnown(t.entries, ps) && RowsFit(t, ImportRows(t, ps)) && VersionFits(t, version)
    requires tx.View() == t.(versions := t.versions + [version], nextId := t.nextId + 1)
    modifies tx`placements
    ensures tx.placements == t.placements + ImportRows(t, ps)
  {
    ghost var rows := ImportRows(t, ps);
    for i := 0 to |ps|
      invariant tx.placements == t.placements + rows[..i]
    {
      ImportRowIsReady(t, version, ps, i);
      hide WellFormed, RowsFit, HasRow, HasId, IsVersion, ImportRows, VersionFits;
      var p := ps[i];
      var row := Placement(version.id, tx.entries[p.entrySlug].id, p.position, p.score, p.tier, p.metadata);
      var placed := tx.InsertPlacement(row);
    }
    assert rows[..|ps|] == rows;
  }

  lemma ImportRowsFit(t: Tables, v: VersionExport)
    requires WellFormed(t) && AllKnown(t.entries, v.placements) && DistinctSlugs(CreatesOf(v.placements))
    ensures RowsFit(t, ImportRows(t, v.placements))
  {
    var rows := ImportRows(t, v.placements);
    forall i, j | 0 <= i < j < |rows| ensures rows[i].entryId != rows[j].entryId {
      assert CreatesOf(v.placements)[i].entrySlug != CreatesOf(v.placements)[j].entrySlug;
    }
  }

  function NumberKey(): VersionExport -> int {
    (v: VersionExport) => v.number
  }

  /** Sorting neither makes nor removes a repeated number. */
  lemma SortKeepsNumbers(versions: seq<VersionExport>)
    ensures NumbersValid(SortBy(OldestFirst(), versions)) <==> NumbersValid(versions)
  {
    var sorted := SortBy(OldestFirst(), versions);
    SortKeepsElements(OldestFirst(), versions);
    assert (forall v | v in versions :: v.number > 0) <==> (forall v | v in sorted :: v.number > 0);
    assert forall s: seq<VersionExport> ::
        NumbersValid(s) <==> (forall v | v in s :: v.number > 0) && DistinctBy(NumberKey(), s);
    if NumbersValid(sorted) {
      SortWasDistinct(OldestFirst(), NumberKey(), versions);
    }
    if NumbersValid(versions) {
      SortKeepsDistinct(OldestFirst(), NumberKey(), versions);
    }
  }

  lemma RebuiltNext(t: Tables, versions: seq<VersionExport>, i: nat)
    requires i < |versions| && AllVersionsKnown(t.entries, versions)
    ensures var before := Rebuilt(t, versions[..i]);
            Rebuilt(t, versions[..i + 1])
            == Appended(before, ImportVersion(before, versions[i]), ImportRows(before, versions[i].placements))
  {
    assert versions[..i + 1][..i] == versions[..i];
  }

  /** The loop over the sorted versions. */
  method RebuildAll(tx: Transaction, versions: seq<VersionExport>) returns (r: Result<()>)
    requires WellFormed(tx.View()) && tx.versions == [] && AllVersionsKnown(tx.entries, versions)
    requires forall i | 0 <= i < |versions| :: DistinctSlugs(CreatesOf(versions[i].placements))
    modifies tx`versions, tx`placements, tx`nextId
    ensures r == if NumbersValid(versions) then Success(()) else Failure(Error.Database)
    ensures r.Success? ==> tx.View() == Rebuilt(old(tx.View()), versions) && WellFormed(tx.View())
  {
    ghost var t := tx.View();
    assert Rebuilt(t, versions[..0]) == t;
    hide WellFormed, Appended, DistinctSlugs, AllKnown, Rebuilt, NumbersValid, IsNewNumber;
    NoNumbers(versions);
    for i := 0 to |versions|
      invariant WellFormed(tx.View()) && tx.View() == Rebuilt(t, versions[..i])
      invariant NumbersValid(versions[..i]) && SameNumbers(tx.versions, versions[..i])
    {
      RebuiltNext(t, versions, i);
      NumbersNext(tx.versions, versions, i);
      var imported := ImportOne(tx, versions[i]);
      if imported.Failure? {
        return Failure(Error.Database);
      }
    }
    assert versions[..|versions|] == versions;
    return Success(());
  }

  predicate SameNumbers(rows: seq<Version>, versions: seq<VersionExport>) {
    |rows| == |versions| && forall k | 0 <= k < |rows| :: rows[k].number == versions[k].number
  }

  lemma NoNumbers(versions: seq<VersionExport>)
    ensures NumbersValid(versions[..0]) && SameNumbers([], versions[..0])
  {
  }

  /** The INSERT of the next version succeeds exactly if the numbers so far are valid. */
  lemma NumbersNext(rows: seq<Version>, versions: seq<VersionExport>, i: nat)
    requires i < |versions| && NumbersValid(versions[..i]) && SameNumbers(rows, versions[..i])
    ensures NumbersValid(versions[..i + 1])
            <==> versions[i].number > 0 && IsNewNumber(rows, versions[i].number)
    ensures NumbersValid(versions) ==> NumbersValid(versions[..i + 1])
    ensures forall w: Version | w.number == versions[i].number :: SameNumbers(rows + [w], versions[..i + 1])
  {
    var prefix := versions[..i + 1];
    assert forall k | 0 <= k < i :: rows[k].number == versions[..i][k].number == prefix[k].number;
    assert prefix[i] == versions[i];
  }

  /** The checks that need no database: every version's placements, then the board. */
  ghost predicate IsImportable(e: BoardExport) {
    && (forall i | 0 <= i < |e.versions| :: IsValid(e.board, CreatesOf(e.versions[i].placements)))
    && IsSlug(e.board.slug) && 0 < |e.board.name| < 257
    && (e.board.boardType == Ordered || e.board.boardType == Scored || e.board.boardType == Tiered)
    && (e.board.sortDirection == Asc || e.board.sortDirection == Desc)
    && (e.board.accumulative ==> e.board.boardType == Scored)
    && (e.board.realtime ==> e.board.accumulative && e.board.boardType == Scored)
    && (e.board.clearOnSnapshot ==> e.board.realtime)
  }

  /** Every entry's slug, and the name it was seen with last, are valid. */
  ghost predicate NamesGood(versions: seq<VersionExport>) {
    forall slug, name | LastSeen(versions, slug, name) :: IsSlug(slug) && 0 < |name| < 257
  }

  lemma {:induction false} LastInSame(ps: seq<PlacementExport>, slug: Slug, a: string, b: string)
    requires LastIn(ps, slug, a) && LastIn(ps, slug, b)
    ensures a == b
  {
    var k :| 0 <= k < |ps| && ps[k].entrySlug == slug && ps[k].entryName == a
             && forall l | k < l < |ps| :: ps[l].entrySlug != slug;
    var m :| 0 <= m < |ps| && ps[m].entrySlug == slug && ps[m].entryName == b
             && forall l | m < l < |ps| :: ps[l].entrySlug != slug;
    assert k == m;
  }

  lemma LastSeenSame(versions: seq<VersionExport>, slug: Slug, a: string, b: string)
    requires LastSeen(versions, slug, a) && LastSeen(versions, slug, b)
    ensures a == b
  {
    var i :| 0 <= i < |versions| && LastIn(versions[i].placements, slug, a)
             && forall j | i < j < |versions| :: !SeenIn(versions[j].placements, slug);
    var m :| 0 <= m < |versions| && LastIn(versions[m].placements, slug, b)
             && forall j | m < j < |versions| :: !SeenIn(versions[j].placements, slug);
    assert SeenIn(versions[i].placements, slug) && SeenIn(versions[m].placements, slug);
    assert i == m;
    LastInSame(versions[i].placements, slug, a, b);
  }

  lemma NamesValidIsGood(versions: seq<VersionExport>)
    ensures NamesValid(LastNames(versions)) <==> NamesGood(versions)
  {
    LastNamesAreNames(versions);
    var names := LastNames(versions);
    forall slug: Slug ensures ValidSlug(slug) <==> IsSlug(slug) {
      ValidSlugIs(slug);
    }
    hide LastNames, ValidSlug, IsSlug, LastSeen;
    forall slug, name | LastSeen(versions, slug, name) ensures slug in names && names[slug] == name {
      LastSeenIsSeen(versions, slug, name);
      LastSeenSame(versions, slug, names[slug], name);
    }
  }

  lemma LastSeenIsSeen(versions: seq<VersionExport>, slug: Slug, name: string)
    requires LastSeen(versions, slug, name)
    ensures exists i :: 0 <= i < |versions| && SeenIn(versions[i].placements, slug)
  {
    var i :| 0 <= i < |versions| && LastIn(versions[i].placements, slug, name)
             && forall j | i < j < |versions| :: !SeenIn(versions[j].placements, slug);
    assert SeenIn(versions[i].placements, slug);
  }

  lemma ImportableIs(e: BoardExport)
    ensures VersionsAcceptable(e) && BoardOk(e.board) <==> IsImportable(e)
  {
    forall i | 0 <= i < |e.versions|
      ensures Acceptable(e.board, CreatesOf(e.versions[i].placements))
              <==> IsValid(e.board, CreatesOf(e.versions[i].placements))
    {
      AcceptableIsValid(e.board, CreatesOf(e.versions[i].placements));
    }
    ValidSlugIs(e.board.slug);
    ValidSlugIs(e.board.name);
    hide Acceptable, IsValid, ValidSlug, ValidName, IsSlug, CreatesOf;
  }

  method ImportBoard(db: Database, e: BoardExport) returns (r: Result<ImportResult>)
    requires db.Valid()
    modifies db
    ensures db.Valid()
    ensures r.Success? <==>
              && IsImportable(e) && e.board.slug !in old(db.boards) && NamesGood(e.versions)
              && (forall i | 0 <= i < |e.versions| :: e.versions[i].number > 0)
              && (forall i, j | 0 <= i < j < |e.versions| :: e.versions[i].number != e.versions[j].number)
    ensures r.Failure? ==>
              r.error == if !IsImportable(e) then Validation
                         else if e.board.slug in old(db.boards) then Conflict
                         else if !NamesGood(e.versions) then Validation else Error.Database
    ensures r.Failure? ==> db.boards == old(db.boards)
    ensures r.Success? ==>
              && e.board.slug in db.boards && IsImport(e, db.boards[e.board.slug])
              && db.boards == old(db.boards)[e.board.slug := db.boards[e.board.slug]]
              && r.value.boardSlug == e.board.slug
              && Ascends(r.value.versionNumbers)
              && multiset(r.value.versionNumbers) == multiset(NumbersOf(e.versions))
  {
    ImportableIs(e);
    NamesValidIsGood(e.versions);
    hide IsImportable, NamesGood, VersionsAcceptable, BoardOk, NamesValid, WellFormed, IsImport;
    r := ImportChecked(db, e);
    if r.Success? {
      NumbersAscend(e.versions);
    }
  }

  ghost predicate Ascends(numbers: seq<int>) {
    forall i, j | 0 <= i < j < |numbers| :: numbers[i] < numbers[j]
  }

  lemma {:induction false} InsertNumbers(x: VersionExport, versions: seq<VersionExport>)
    ensures multiset(NumbersOf(Insert(OldestFirst(), x, versions))) == multiset([x.number] + NumbersOf(versions))
  {
    if versions == [] {
      assert NumbersOf([x]) == [x.number] + NumbersOf(versions);
    } else if OldestFirst()(x, versions[0]) {
      assert NumbersOf([x] + versions) == [x.number] + NumbersOf(versions);
    } else {
      InsertNumbers(x, versions[1..]);
      HeadNumber(versions);
      HeadNumber(Insert(OldestFirst(), x, versions));
    }
  }

  lemma HeadNumber(versions: seq<VersionExport>)
    requires versions != []
    ensures NumbersOf(versions) == [versions[0].number] + NumbersOf(versions[1..])
  {
  }

  lemma {:induction false} SortedNumbers(versions: seq<VersionExport>)
    ensures multiset(NumbersOf(SortBy(OldestFirst(), versions))) == multiset(NumbersOf(versions))
  {
    if versions == [] {
    } else {
      SortedNumbers(versions[1..]);
      HeadNumber(versions);
      InsertNumbers(versions[0], SortBy(OldestFirst(), versions[1..]));
    }
  }

  lemma NumbersAscend(versions: seq<VersionExport>)
    requires NumbersValid(versions)
    ensures Ascends(NumbersOf(SortBy(OldestFirst(), versions)))
    ensures multiset(NumbersOf(SortBy(OldestFirst(), versions))) == multiset(NumbersOf(versions))
  {
    var sorted := SortBy(OldestFirst(), versions);
    SortedNumbers(versions);
    SortKeepsNumbers(versions);
    SortIsSorted(OldestFirst(), versions);
    forall i, j | 0 <= i < j < |sorted| ensures sorted[i].number < sorted[j].number {
      assert OldestFirst()(sorted[i], sorted[j]);
    }
  }

  /** The transaction. */
  method RebuildBoard(e: BoardExport) returns (r: Result<Tables>)
    requires BoardOk(e.board) && VersionsAcceptable(e)
    ensures r.Success? <==> NamesValid(LastNames(e.versions)) && NumbersValid(e.versions)
    ensures r.Failure? ==> r.error == if NamesValid(LastNames(e.versions)) then Error.Database else Validation
    ensures r.Success? ==> WellFormed(r.value) && IsImport(e, r.value) && r.value.board == e.board
  {
    var tx := new Transaction(Tables(e.board, map[], [], [], map[], 0));
    hide VersionsAcceptable, NamesValid, NumbersValid, LastNames, BoardOk;
    var names := CollectNames(e.versions);
    var created := InsertEntries(tx, names);
    if created.Failure? {
      return Failure(Validation);
    }
    var sorted := SortBy(OldestFirst(), e.versions);
    BareIsWellFormed(e, tx.entries, names);
    SortKeepsNumbers(e.versions);
    hide WellFormed, EntriesFrom, AllVersionsKnown, DistinctSlugs, Rebuilt, SortBy, CreatesOf, NamesAre;
    assert tx.View() == Bare(e.board, tx.entries);
    var rebuilt := RebuildAll(tx, sorted);
    if rebuilt.Failure? {
      return Failure(Error.Database);
    }
    return Success(tx.View());
  }

  /** The checks, and the transaction if they pass. */
  method ImportChecked(db: Database, e: BoardExport) returns (r: Result<ImportResult>)
    requires db.Valid()
    modifies db
    ensures db.Valid()
    ensures r.Failure? <==> ImportError(e, old(db.boards).Keys).Some?
    ensures r.Failure? ==> db.boards == old(db.boards) && Some(r.error) == ImportError(e, old(db.boards).Keys)
    ensures r.Success? ==>
              && e.board.slug in db.boards && IsImport(e, db.boards[e.board.slug])
              && db.boards == old(db.boards)[e.board.slug := db.boards[e.board.slug]]
              && r.value.boardSlug == e.board.slug
              && r.value.versionNumbers == NumbersOf(SortBy(OldestFirst(), e.versions))
  {
    var checked := CheckVersions(e);
    if checked.Failure? || !BoardOk(e.board) {
      return Failure(Validation);
    }
    if e.board.slug in db.boards {
      return Failure(Conflict);
    }
    hide VersionsAcceptable, IsImport, NamesValid, NumbersValid, WellFormed;
    var rebuilt :- RebuildBoard(e);
    db.boards := db.boards[e.board.slug := rebuilt];
    return Success(ImportResult(e.board.slug, NumbersOf(SortBy(OldestFirst(), e.versions))));
  }

  function NumbersOf(versions: seq<VersionExport>): (r: seq<int>)
    ensures |r| == |versions|
  {
    seq(|versions|, i requires 0 <= i < |versions| => versions[i].number)
  }

  lemma {:induction false} NamesInAll(ps: seq<PlacementExport>)
    ensures forall i | 0 <= i < |ps| :: ps[i].entrySlug in NamesIn(ps)
  {
    if ps != [] {
      NamesInAll(ps[..|ps| - 1]);
      forall i | 0 <= i < |ps| - 1 ensures ps[i].entrySlug in NamesIn(ps) {
        assert ps[..|ps| - 1][i] == ps[i];
      }
    }
  }

  lemma {:induction false} LastNamesAll(versions: seq<VersionExport>)
    ensures forall v, p | v in versions && p in v.placements :: p.entrySlug in LastNames(versions)
  {
    if versions != [] {
      var n := |versions| - 1;
      LastNamesAll(versions[..n]);
      NamesInAll(versions[n].placements);
      forall v, p | v in versions && p in v.placements ensures p.entrySlug in LastNames(versions) {
        assert v in versions[..n] || v == versions[n];
      }
    }
  }

  /** Every entry lookup of the import succeeds. */
  lemma BareIsWellFormed(e: BoardExport, entries: map<Slug, EntryRow>, names: map<Slug, string>)
    requires names == LastNames(e.versions) && EntriesFrom(entries, names) && NamesValid(names)
    requires BoardOk(e.board) && VersionsAcceptable(e)
    ensures WellFormed(Bare(e.board, entries))
    ensures var sorted := SortBy(OldestFirst(), e.versions);
            && AllVersionsKnown(entries, sorted)
            && forall i | 0 <= i < |sorted| :: DistinctSlugs(CreatesOf(sorted[i].placements))
  {
    var sorted := SortBy(OldestFirst(), e.versions);
    SortKeepsElements(OldestFirst(), e.versions);
    LastNamesAll(e.versions);
    forall i | 0 <= i < |sorted|
      ensures AllKnown(entries, sorted[i].placements) && DistinctSlugs(CreatesOf(sorted[i].placements))
    {
      assert sorted[i] in e.versions;
      var k :| 0 <= k < |e.versions| && e.versions[k] == sorted[i];
      assert Acceptable(e.board, CreatesOf(e.versions[k].placements));
    }
  }
}
