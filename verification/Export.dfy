/** `export.rs`, first half: one query for all versions, grouped in one pass. */
module Export {
  import opened Core
  import opened Ordering
  import opened Tables

  datatype PlacementExport = PlacementExport(
    entrySlug: Slug,
    entryName: string,
    position: Option<int>,
    score: Option<Float64>,
    tier: Option<string>,
    metadata: Option<Json>)

  datatype VersionExport = VersionExport(
    number: int, note: Option<string>, metadata: Option<Json>, placements: seq<PlacementExport>)

  /** The board's own columns are exported as they are. */
  datatype BoardExport = BoardExport(board: Board, versions: seq<VersionExport>)

  function ExportRow(p: PlacementWithEntry): PlacementExport {
    PlacementExport(p.entrySlug, p.entryName,
                    p.placement.position, p.placement.score, p.placement.tier, p.placement.metadata)
  }

  function ExportRows(rows: seq<PlacementWithEntry>): (r: seq<PlacementExport>)
    ensures |r| == |rows|
  {
    seq(|rows|, i requires 0 <= i < |rows| => ExportRow(rows[i]))
  }

  // -------------------------------------------------------------- batch query

  function NumberOf(versions: seq<Version>, v: VersionId): int {
    if IsVersion(versions, v) then VersionById(versions, v).number else 0
  }

  /** ORDER BY v.version_number, tier order, position, name. */
  predicate BatchLe(t: Tables, a: PlacementWithEntry, b: PlacementWithEntry) {
    var na, nb := NumberOf(t.versions, a.placement.versionId), NumberOf(t.versions, b.placement.versionId);
    na < nb || (na == nb && RowLe(t.board.tierConfig, a, b))
  }

  function BatchOrder(t: Tables): (PlacementWithEntry, PlacementWithEntry) -> bool {
    (a: PlacementWithEntry, b: PlacementWithEntry) => BatchLe(t, a, b)
  }

  /** The one query for all versions. */
  function AllPlacements(t: Tables): seq<PlacementWithEntry>
    requires UniqueIds(t.entries) && EntriesExist(t.entries, t.placements)
  {
    SortBy(BatchOrder(t), Join(t.entries, t.placements))
  }

  function InVersion(v: VersionId): PlacementWithEntry -> bool {
    (p: PlacementWithEntry) => p.placement.versionId == v
  }

  lemma BatchOrderIsTotal(t: Tables)
    ensures TotalPreorder(BatchOrder(t))
  {
    var le := RowOrder(t.board.tierConfig);
    RowOrderIsTotal(t.board.tierConfig);
    forall x: PlacementWithEntry, y: PlacementWithEntry ensures BatchLe(t, x, y) || BatchLe(t, y, x) {
      assert le(x, y) || le(y, x);
    }
    forall x: PlacementWithEntry, y: PlacementWithEntry, z: PlacementWithEntry
      | BatchLe(t, x, y) && BatchLe(t, y, z)
      ensures BatchLe(t, x, z)
    {
      assert le(x, y) && le(y, z) ==> le(x, z);
    }
  }

  lemma {:induction false} FilterJoin(entries: map<Slug, EntryRow>, rows: seq<Placement>, v: VersionId)
    requires UniqueIds(entries) && EntriesExist(entries, rows)
    ensures EntriesExist(entries, RowsOf(rows, v))
    ensures Filter(InVersion(v), Join(entries, rows)) == Join(entries, RowsOf(rows, v))
  {
    RowsExist(entries, rows, v);
    if rows != [] {
      assert EntriesExist(entries, rows[1..]);
      FilterJoin(entries, rows[1..], v);
      assert Join(entries, rows)[1..] == Join(entries, rows[1..]);
    }
  }

  /** Grouping the batch gives each version the list that its own query gives. */
  lemma BatchRefinesFetch(t: Tables, v: VersionId)
    requires UniqueIds(t.entries) && EntriesExist(t.entries, t.placements)
    ensures Filter(InVersion(v), AllPlacements(t)) == FetchPlacements(t, v)
  {
    BatchOrderIsTotal(t);
    FilterJoin(t.entries, t.placements, v);
    assert AgreeOn(BatchOrder(t), RowOrder(t.board.tierConfig), InVersion(v));
    FilterSort(BatchOrder(t), RowOrder(t.board.tierConfig), InVersion(v), Join(t.entries, t.placements));
  }

  // ------------------------------------------------------------------ grouping

  type Groups = map<VersionId, seq<PlacementExport>>

  ghost predicate Grouped(groups: Groups, rows: seq<PlacementWithEntry>) {
    && (forall v | v in groups :: groups[v] == ExportRows(Filter(InVersion(v), rows)))
    && (forall v | v !in groups :: Filter(InVersion(v), rows) == [])
  }

  /** placements_by_version. */
  method GroupByVersion(rows: seq<PlacementWithEntry>) returns (groups: Groups)
    ensures Grouped(groups, rows)
  {
    groups := map[];
    for i := 0 to |rows|
      invariant Grouped(groups, rows[..i])
    {
      var v := rows[i].placement.versionId;
      var group := if v in groups then groups[v] else [];
      GroupedSnoc(groups, rows, i);
      groups := groups[v := group + [ExportRow(rows[i])]];
    }
    assert rows[..|rows|] == rows;
  }

  lemma GroupedSnoc(groups: Groups, rows: seq<PlacementWithEntry>, i: nat)
    requires i < |rows| && Grouped(groups, rows[..i])
    ensures var v := rows[i].placement.versionId;
            var group := if v in groups then groups[v] else [];
            Grouped(groups[v := group + [ExportRow(rows[i])]], rows[..i + 1])
  {
    var x := rows[i];
    assert rows[..i + 1] == rows[..i] + [x];
    forall w ensures Filter(InVersion(w), rows[..i + 1])
                     == Filter(InVersion(w), rows[..i]) + if x.placement.versionId == w then [x] else []
    {
      FilterAppend(InVersion(w), rows[..i], [x]);
    }
  }

  // -------------------------------------------------------------------- export

  function VersionExportOf(t: Tables, w: Version): VersionExport
    requires UniqueIds(t.entries) && EntriesExist(t.entries, t.placements)
  {
    VersionExport(w.number, w.note, w.metadata, ExportRows(FetchPlacements(t, w.id)))
  }

  ghost predicate Ascending(versions: seq<VersionExport>) {
    forall i, j | 0 <= i < j < |versions| :: versions[i].number < versions[j].number
  }

  /** The board, and each of its versions once, ascending, with the list that
      `fetch_placements` gives for it. */
  ghost predicate IsExport(t: Tables, e: BoardExport)
    requires UniqueIds(t.entries) && EntriesExist(t.entries, t.placements)
  {
    && e.board == t.board
    && |e.versions| == |t.versions|
    && Ascending(e.versions)
    && (forall x | x in e.versions :: exists w :: w in t.versions && x == VersionExportOf(t, w))
    && (forall w | w in t.versions :: VersionExportOf(t, w) in e.versions)
  }

  function NewestFirst(): (Version, Version) -> bool {
    (a: Version, b: Version) => a.number >= b.number
  }

  function OldestFirst(): (VersionExport, VersionExport) -> bool {
    (a: VersionExport, b: VersionExport) => a.number <= b.number
  }

  method ExportBoard(db: Database, slug: Slug) returns (r: Result<BoardExport>)
    requires db.Valid()
    ensures slug !in db.boards ==> r == Failure(NotFound)
    ensures slug in db.boards ==> r.Success? && IsExport(db.boards[slug], r.value)
  {
    if slug !in db.boards {
      return Failure(NotFound);
    }
    var t := db.boards[slug];
    var versions := SortBy(NewestFirst(), t.versions);
    SortKeepsDistinct(NewestFirst(), (w: Version) => w.id, t.versions);
    var groups := GroupByVersion(AllPlacements(t));
    var exports := ExportVersions(t, versions, groups);
    var sorted := SortBy(OldestFirst(), exports);
    ExportIsComplete(t, versions, exports, sorted);
    return Success(BoardExport(t.board, sorted));
  }

  /** The map over the versions; each takes its group out. */
  method ExportVersions(ghost t: Tables, versions: seq<Version>, groups: Groups) returns (exports: seq<VersionExport>)
    requires UniqueIds(t.entries) && EntriesExist(t.entries, t.placements)
    requires Grouped(groups, AllPlacements(t)) && DistinctBy((w: Version) => w.id, versions)
    ensures |exports| == |versions|
    ensures forall i | 0 <= i < |versions| :: exports[i] == VersionExportOf(t, versions[i])
  {
    exports := [];
    var left := groups;
    for i := 0 to |versions|
      invariant |exports| == i
      invariant forall k | 0 <= k < i :: exports[k] == VersionExportOf(t, versions[k])
      invariant forall k | i <= k < |versions| ::
                  (versions[k].id in left <==> versions[k].id in groups)
                  && (versions[k].id in groups ==> left[versions[k].id] == groups[versions[k].id])
    {
      var w := versions[i];
      var placements := if w.id in left then left[w.id] else [];
      BatchRefinesFetch(t, w.id);
      exports := exports + [VersionExport(w.number, w.note, w.metadata, placements)];
      left := left - {w.id};
      forall k | i < k < |versions| ensures versions[k].id != w.id {
        assert ((w: Version) => w.id)(versions[i]) != ((w: Version) => w.id)(versions[k]);
      }
    }
  }

  lemma {:induction false} ExportIsComplete(
    t: Tables, versions: seq<Version>, exports: seq<VersionExport>, sorted: seq<VersionExport>)
    requires WellFormed(t) && versions == SortBy(NewestFirst(), t.versions)
    requires |exports| == |versions|
    requires forall i | 0 <= i < |versions| :: exports[i] == VersionExportOf(t, versions[i])
    requires sorted == SortBy(OldestFirst(), exports)
    ensures IsExport(t, BoardExport(t.board, sorted))
  {
    SortKeepsElements(NewestFirst(), t.versions);
    SortKeepsElements(OldestFirst(), exports);
    SortKeepsDistinct(NewestFirst(), (w: Version) => w.number, t.versions);
    assert DistinctBy((x: VersionExport) => x.number, exports);
    SortKeepsDistinct(OldestFirst(), (x: VersionExport) => x.number, exports);
    SortIsSorted(OldestFirst(), exports);
    forall i, j | 0 <= i < j < |sorted| ensures sorted[i].number < sorted[j].number {
      assert OldestFirst()(sorted[i], sorted[j]);
    }
    forall x | x in sorted ensures exists w :: w in t.versions && x == VersionExportOf(t, w) {
      var k :| 0 <= k < |exports| && exports[k] == x;
      assert versions[k] in t.versions;
    }
    forall w | w in t.versions ensures VersionExportOf(t, w) in sorted {
      var k :| 0 <= k < |versions| && versions[k] == w;
      assert exports[k] in sorted;
    }
  }
}
