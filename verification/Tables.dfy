/** The rows of one board, their keys, and the queries that read them. */
module Tables {
  import opened Core
  import opened Ordering
  import opened Ranking

  datatype Version = Version(id: VersionId, number: int, note: Option<string>, metadata: Option<Json>)

  /** `placements` is in heap order; `accumulated` is the staging table of scores, one
      per entry. `nextId` is above every id in use. */
  datatype Tables = Tables(
    board: Board,
    entries: map<Slug, EntryRow>,
    versions: seq<Version>,
    placements: seq<Placement>,
    accumulated: map<EntryId, Float64>,
    nextId: nat)

  datatype PlacementWithEntry = PlacementWithEntry(placement: Placement, entrySlug: Slug, entryName: string)

  datatype VersionWithPlacements = VersionWithPlacements(
    version: Version, placements: seq<PlacementWithEntry>)

  // ------------------------------------------------------------------- keys

  ghost predicate UniqueIds(entries: map<Slug, EntryRow>) {
    forall a, b | a in entries && b in entries && a != b :: entries[a].id != entries[b].id
  }

  predicate HasId(entries: map<Slug, EntryRow>, id: EntryId) {
    exists slug :: slug in entries && entries[slug].id == id
  }

  ghost predicate EntriesOk(t: Tables) {
    && UniqueIds(t.entries)
    && forall slug | slug in t.entries ::
         t.entries[slug].id < t.nextId && ValidSlug(slug) && ValidName(t.entries[slug].name)
  }

  /** Primary key, UNIQUE (board_id, version_number), CHECK (version_number > 0). */
  ghost predicate VersionsOk(t: Tables) {
    && (forall i | 0 <= i < |t.versions| :: t.versions[i].id < t.nextId && t.versions[i].number > 0)
    && (forall i, j | 0 <= i < j < |t.versions| ::
          t.versions[i].id != t.versions[j].id && t.versions[i].number != t.versions[j].number)
  }

  predicate IsVersion(versions: seq<Version>, v: VersionId) {
    exists i :: 0 <= i < |versions| && versions[i].id == v
  }

  /** The foreign keys into entries. */
  ghost predicate EntriesExist(entries: map<Slug, EntryRow>, rows: seq<Placement>) {
    forall i | 0 <= i < |rows| :: HasId(entries, rows[i].entryId)
  }

  /** The foreign keys, and UNIQUE (version_id, entry_id). */
  ghost predicate PlacementsOk(t: Tables) {
    && EntriesExist(t.entries, t.placements)
    && (forall i | 0 <= i < |t.placements| :: IsVersion(t.versions, t.placements[i].versionId))
    && (forall v :: UniqueEntries(t.placements, v))
  }

  ghost predicate AccumulatedOk(t: Tables) {
    forall e | e in t.accumulated :: HasId(t.entries, e)
  }

  /** The CHECK constraints on boards, and what every writer of boards validates. */
  predicate BoardOk(b: Board) {
    && ValidSlug(b.slug) && ValidName(b.name)
    && !b.boardType.OtherType? && !b.sortDirection.OtherDirection?
    && (b.accumulative ==> b.boardType.Scored?)
    && (b.realtime ==> b.accumulative)
    && (b.clearOnSnapshot ==> b.realtime)
  }

  ghost predicate WellFormed(t: Tables) {
    BoardOk(t.board) && EntriesOk(t) && VersionsOk(t) && PlacementsOk(t) && AccumulatedOk(t)
  }

  // ------------------------------------------------------------------ joins

  function SlugOf(entries: map<Slug, EntryRow>, id: EntryId): (slug: Slug)
    requires UniqueIds(entries) && HasId(entries, id)
    ensures slug in entries && entries[slug].id == id
  {
    var slug :| slug in entries && entries[slug].id == id;
    slug
  }

  /** JOIN entries e ON e.id = p.entry_id, for one row. */
  function Joined(entries: map<Slug, EntryRow>, p: Placement): PlacementWithEntry
    requires UniqueIds(entries) && HasId(entries, p.entryId)
  {
    var slug := SlugOf(entries, p.entryId);
    PlacementWithEntry(p, slug, entries[slug].name)
  }

  lemma JoinedIs(entries: map<Slug, EntryRow>, slug: Slug, p: Placement)
    requires UniqueIds(entries) && slug in entries && entries[slug].id == p.entryId
    ensures HasId(entries, p.entryId)
    ensures Joined(entries, p) == PlacementWithEntry(p, slug, entries[slug].name)
  {
    assert HasId(entries, p.entryId);
  }

  function Join(entries: map<Slug, EntryRow>, rows: seq<Placement>): (r: seq<PlacementWithEntry>)
    requires UniqueIds(entries) && EntriesExist(entries, rows)
    ensures |r| == |rows| && forall i | 0 <= i < |r| :: r[i] == Joined(entries, rows[i])
  {
    seq(|rows|, i requires 0 <= i < |rows| => Joined(entries, rows[i]))
  }

  /** JOIN versions v ON v.id = p.version_id. */
  function VersionById(versions: seq<Version>, v: VersionId): (r: Version)
    requires IsVersion(versions, v)
    ensures r in versions && r.id == v
  {
    if versions[0].id == v then versions[0] else VersionById(versions[1..], v)
  }

  // --------------------------------------------------------------- ORDER BY

  const LAST: int := 2147483647

  /** The first tier with the row's key. */
  function TierOrd(tiers: seq<Tier>, key: string): Option<int> {
    if tiers == [] then None
    else if tiers[0].key == key then Some(tiers[0].position)
    else TierOrd(tiers[1..], key)
  }

  function TierRank(config: Option<TierConfig>, tier: Option<string>): int {
    match (config, tier)
    case (Some(c), Some(key)) => TierOrd(c.tiers, key).GetOr(LAST)
    case _ => LAST
  }

  /** ORDER BY tier order, position (both with NULL as LAST), name. */
  predicate RowLe(config: Option<TierConfig>, a: PlacementWithEntry, b: PlacementWithEntry) {
    var ta, tb := TierRank(config, a.placement.tier), TierRank(config, b.placement.tier);
    var pa, pb := a.placement.position.GetOr(LAST), b.placement.position.GetOr(LAST);
    ta < tb || (ta == tb && (pa < pb || (pa == pb && !LexLess(b.entryName, a.entryName))))
  }

  function RowOrder(config: Option<TierConfig>): (PlacementWithEntry, PlacementWithEntry) -> bool {
    (a: PlacementWithEntry, b: PlacementWithEntry) => RowLe(config, a, b)
  }

  lemma RowOrderIsTotal(config: Option<TierConfig>)
    ensures TotalPreorder(RowOrder(config))
  {
    forall x: PlacementWithEntry, y: PlacementWithEntry ensures RowLe(config, x, y) || RowLe(config, y, x) {
      LexTotal(x.entryName, y.entryName);
    }
    forall x: PlacementWithEntry, y: PlacementWithEntry, z: PlacementWithEntry
      | RowLe(config, x, y) && RowLe(config, y, z)
      ensures RowLe(config, x, z)
    {
      if !LexLess(y.entryName, x.entryName) && !LexLess(z.entryName, y.entryName) {
        NamesTransitive(x.entryName, y.entryName, z.entryName);
      }
    }
  }

  // ------------------------------------------------------------------ fetch

  function OfVersion(v: VersionId): Placement -> bool {
    (p: Placement) => p.versionId == v
  }

  function RowsOf(rows: seq<Placement>, v: VersionId): seq<Placement> {
    Filter(OfVersion(v), rows)
  }

  lemma RowsExist(entries: map<Slug, EntryRow>, rows: seq<Placement>, v: VersionId)
    requires EntriesExist(entries, rows)
    ensures EntriesExist(entries, RowsOf(rows, v))
  {
    var f := RowsOf(rows, v);
    FilterKeeps(OfVersion(v), rows);
    forall i | 0 <= i < |f| ensures HasId(entries, f[i].entryId) {
      assert f[i] in rows;
    }
  }

  /** `fetch_placements`. */
  function FetchPlacements(t: Tables, v: VersionId): seq<PlacementWithEntry>
    requires UniqueIds(t.entries) && EntriesExist(t.entries, t.placements)
  {
    RowsExist(t.entries, t.placements, v);
    SortBy(RowOrder(t.board.tierConfig), Join(t.entries, RowsOf(t.placements, v)))
  }

  // -------------------------------------------------------------- standings

  predicate HasRow(rows: seq<Placement>, v: VersionId, e: EntryId) {
    exists i :: 0 <= i < |rows| && rows[i].versionId == v && rows[i].entryId == e
  }

  ghost function RowFor(rows: seq<Placement>, v: VersionId, e: EntryId): (p: Placement)
    requires HasRow(rows, v, e)
    ensures p in rows && p.versionId == v && p.entryId == e
  {
    var i :| 0 <= i < |rows| && rows[i].versionId == v && rows[i].entryId == e;
    rows[i]
  }

  lemma RowForIs(rows: seq<Placement>, v: VersionId, p: Placement)
    requires UniqueEntries(rows, v) && p in rows && p.versionId == v
    ensures HasRow(rows, v, p.entryId) && RowFor(rows, v, p.entryId) == p
  {
    var i :| 0 <= i < |rows| && rows[i] == p;
    assert HasRow(rows, v, p.entryId);
    var q := RowFor(rows, v, p.entryId);
    var j :| 0 <= j < |rows| && rows[j] == q;
    assert i == j;
  }

  /** A version as the mapping it stands for: each placed slug with its row. */
  ghost function Standings(t: Tables, v: VersionId): map<Slug, Placement> {
    map slug | slug in t.entries && HasRow(t.placements, v, t.entries[slug].id)
      :: RowFor(t.placements, v, t.entries[slug].id)
  }

  /** The list has each slug of the mapping once, with its row. */
  ghost predicate Lists(list: seq<PlacementWithEntry>, rows: map<Slug, Placement>) {
    && (forall i | 0 <= i < |list| ::
          list[i].entrySlug in rows && list[i].placement == rows[list[i].entrySlug])
    && (forall i, j | 0 <= i < j < |list| :: list[i].entrySlug != list[j].entrySlug)
    && (forall slug | slug in rows :: exists i :: 0 <= i < |list| && list[i].entrySlug == slug)
  }

  ghost predicate Named(list: seq<PlacementWithEntry>, entries: map<Slug, EntryRow>) {
    forall i | 0 <= i < |list| ::
      list[i].entrySlug in entries && list[i].entryName == entries[list[i].entrySlug].name
  }

  lemma {:induction false} FilterUnique(rows: seq<Placement>, v: VersionId)
    requires UniqueEntries(rows, v)
    ensures var f := RowsOf(rows, v);
            forall i, j | 0 <= i < j < |f| :: f[i].entryId != f[j].entryId
  {
    if rows != [] {
      FilterUnique(rows[1..], v);
      FilterKeeps(OfVersion(v), rows[1..]);
      var g := RowsOf(rows[1..], v);
      forall k | 0 <= k < |g| && rows[0].versionId == v ensures g[k].entryId != rows[0].entryId {
        assert g[k] in rows[1..];
        var j :| 0 <= j < |rows[1..]| && rows[1..][j] == g[k];
        assert rows[j + 1] == g[k];
      }
    }
  }

  function EntrySlugOf(): PlacementWithEntry -> Slug {
    (p: PlacementWithEntry) => p.entrySlug
  }

  /** What `fetch_placements` returns: the version's standings, under current names. */
  lemma FetchIsStandings(t: Tables, v: VersionId)
    requires WellFormed(t)
    ensures Lists(FetchPlacements(t, v), Standings(t, v))
    ensures Named(FetchPlacements(t, v), t.entries)
  {
    var le := RowOrder(t.board.tierConfig);
    var joined := JoinedRows(t, v);
    JoinedIsStandings(t, v);
    assert FetchPlacements(t, v) == SortBy(le, joined);
    SortKeepsListing(le, joined, Standings(t, v), t.entries);
  }

  /** n is the position of the first tier of the configuration with this key, and
      2147483647 without such a tier, without a key or without a configuration. */
  ghost predicate TierStands(config: Option<TierConfig>, key: Option<string>, n: int) {
    var tiers := if config.Some? then config.value.tiers else [];
    || (n == 2147483647 && (key.None? || forall k | 0 <= k < |tiers| :: tiers[k].key != key.value))
    || (key.Some? && exists k :: 0 <= k < |tiers| && tiers[k].key == key.value && n == tiers[k].position
                                 && forall m | 0 <= m < k :: tiers[m].key != key.value)
  }

  /** The position, or 2147483647 without one. */
  predicate PositionStands(position: Option<int>, n: int) {
    n == if position.Some? then position.value else 2147483647
  }

  /** a may come before b: by tier, then by position, then by the bytes of the name. */
  ghost predicate MayPrecede(config: Option<TierConfig>, a: PlacementWithEntry, b: PlacementWithEntry) {
    exists m, n, p, q ::
      && TierStands(config, a.placement.tier, m) && TierStands(config, b.placement.tier, n)
      && PositionStands(a.placement.position, p) && PositionStands(b.placement.position, q)
      && (m < n || (m == n && (p < q || (p == q && !BytesBefore(b.entryName, a.entryName)))))
  }

  lemma {:induction false} TierOrdIs(tiers: seq<Tier>, key: string)
    ensures match TierOrd(tiers, key)
            case None => forall k | 0 <= k < |tiers| :: tiers[k].key != key
            case Some(n) => exists k :: 0 <= k < |tiers| && tiers[k].key == key && n == tiers[k].position
                                        && forall m | 0 <= m < k :: tiers[m].key != key
  {
    if tiers != [] && tiers[0].key != key {
      TierOrdIs(tiers[1..], key);
      if TierOrd(tiers[1..], key).Some? {
        var k :| 0 <= k < |tiers[1..]| && tiers[1..][k].key == key
                 && TierOrd(tiers, key).value == tiers[1..][k].position
                 && forall m | 0 <= m < k :: tiers[1..][m].key != key;
        assert tiers[k + 1] == tiers[1..][k];
        forall m | 0 <= m < k + 1 ensures tiers[m].key != key {
          assert m > 0 ==> tiers[m] == tiers[1..][m - 1];
        }
      } else {
        forall k | 0 <= k < |tiers| ensures tiers[k].key != key {
          assert k > 0 ==> tiers[k] == tiers[1..][k - 1];
        }
      }
    }
  }

  lemma TierRankStands(config: Option<TierConfig>, key: Option<string>)
    ensures TierStands(config, key, TierRank(config, key))
  {
    if config.Some? && key.Some? {
      TierOrdIs(config.value.tiers, key.value);
    }
  }

  lemma RowLeMayPrecede(config: Option<TierConfig>, a: PlacementWithEntry, b: PlacementWithEntry)
    requires RowLe(config, a, b)
    ensures MayPrecede(config, a, b)
  {
    TierRankStands(config, a.placement.tier);
    TierRankStands(config, b.placement.tier);
    LexIsBytewise(b.entryName, a.entryName);
    var p, q := a.placement.position.GetOr(LAST), b.placement.position.GetOr(LAST);
    assert PositionStands(a.placement.position, p) && PositionStands(b.placement.position, q);
    hide TierStands, TierRank, BytesBefore, LexLess;
  }

  /** The fetched list is in the query's order. */
  lemma FetchIsSorted(t: Tables, v: VersionId)
    requires UniqueIds(t.entries) && EntriesExist(t.entries, t.placements)
    ensures var list := FetchPlacements(t, v);
            forall i, j | 0 <= i < j < |list| :: MayPrecede(t.board.tierConfig, list[i], list[j])
  {
    var le, list := RowOrder(t.board.tierConfig), FetchPlacements(t, v);
    RowOrderIsTotal(t.board.tierConfig);
    SortIsSorted(le, JoinedRows(t, v));
    hide RowLe, MayPrecede;
    forall i, j | 0 <= i < j < |list| ensures MayPrecede(t.board.tierConfig, list[i], list[j]) {
      assert le(list[i], list[j]);
      RowLeMayPrecede(t.board.tierConfig, list[i], list[j]);
    }
  }

  function JoinedRows(t: Tables, v: VersionId): seq<PlacementWithEntry>
    requires UniqueIds(t.entries) && EntriesExist(t.entries, t.placements)
  {
    RowsExist(t.entries, t.placements, v);
    Join(t.entries, RowsOf(t.placements, v))
  }

  lemma JoinedIsStandings(t: Tables, v: VersionId)
    requires WellFormed(t)
    ensures Lists(JoinedRows(t, v), Standings(t, v)) && Named(JoinedRows(t, v), t.entries)
  {
    var rows := RowsOf(t.placements, v);
    var joined := JoinedRows(t, v);
    FilterKeeps(OfVersion(v), t.placements);
    FilterUnique(t.placements, v);
    forall i, j | 0 <= i < j < |joined| ensures joined[i].entrySlug != joined[j].entrySlug {
      assert rows[i].entryId != rows[j].entryId;
    }
    forall i | 0 <= i < |joined|
      ensures joined[i].entrySlug in Standings(t, v)
      ensures joined[i].placement == Standings(t, v)[joined[i].entrySlug]
    {
      assert rows[i] in t.placements;
      StandingIs(t, v, rows[i]);
    }
    JoinedIsComplete(t, v);
  }

  lemma StandingIs(t: Tables, v: VersionId, p: Placement)
    requires WellFormed(t) && p in t.placements && p.versionId == v
    ensures HasId(t.entries, p.entryId)
    ensures var slug := SlugOf(t.entries, p.entryId);
            slug in Standings(t, v) && Standings(t, v)[slug] == p
  {
    RowForIs(t.placements, v, p);
  }

  lemma JoinedIsComplete(t: Tables, v: VersionId)
    requires WellFormed(t)
    ensures forall slug | slug in Standings(t, v) ::
              exists i :: 0 <= i < |JoinedRows(t, v)| && JoinedRows(t, v)[i].entrySlug == slug
  {
    var rows := RowsOf(t.placements, v);
    var joined := JoinedRows(t, v);
    FilterKeeps(OfVersion(v), t.placements);
    forall slug | slug in Standings(t, v) ensures exists i :: 0 <= i < |joined| && joined[i].entrySlug == slug {
      var p := Standings(t, v)[slug];
      assert p in rows;
      var k :| 0 <= k < |rows| && rows[k] == p;
      assert joined[k] == Joined(t.entries, p) && joined[k].entrySlug == slug;
    }
  }

  lemma SortKeepsListing(
    le: (PlacementWithEntry, PlacementWithEntry) -> bool, list: seq<PlacementWithEntry>,
    rows: map<Slug, Placement>, entries: map<Slug, EntryRow>)
    requires Lists(list, rows) && Named(list, entries)
    ensures Lists(SortBy(le, list), rows) && Named(SortBy(le, list), entries)
  {
    var sorted := SortBy(le, list);
    SortKeepsElements(le, list);
    SortKeepsDistinct(le, EntrySlugOf(), list);
    forall i | 0 <= i < |sorted|
      ensures sorted[i].entrySlug in rows && sorted[i].placement == rows[sorted[i].entrySlug]
      ensures sorted[i].entrySlug in entries && sorted[i].entryName == entries[sorted[i].entrySlug].name
    {
      assert sorted[i] in list;
    }
    forall slug | slug in rows ensures exists i :: 0 <= i < |sorted| && sorted[i].entrySlug == slug {
      var k :| 0 <= k < |list| && list[k].entrySlug == slug;
      assert list[k] in sorted;
    }
    forall i, j | 0 <= i < j < |sorted| ensures sorted[i].entrySlug != sorted[j].entrySlug {
      assert EntrySlugOf()(sorted[i]) != EntrySlugOf()(sorted[j]);
    }
  }

  // ------------------------------------------------------------ ROW_NUMBER()

  predicate IsNewNumber(versions: seq<Version>, number: int) {
    forall i | 0 <= i < |versions| :: versions[i].number != number
  }

  function Items(rows: seq<Placement>): (r: seq<Item>)
    ensures |r| == |rows|
  {
    seq(|rows|, i requires 0 <= i < |rows| => ItemOf(rows[i]))
  }

  /** The version's rows from best to worst. */
  function Ranked(dir: Direction, rows: seq<Placement>, v: VersionId): seq<Item> {
    SortBy(ItemSortOrder(dir), Items(RowsOf(rows, v)))
  }

  /** SET position = n WHERE the row is the version's row for that entry. */
  function WithPosition(rows: seq<Placement>, v: VersionId, e: EntryId, n: int): (r: seq<Placement>)
    ensures |r| == |rows|
  {
    seq(|rows|, i requires 0 <= i < |rows| =>
      if rows[i].versionId == v && rows[i].entryId == e then rows[i].(position := Some(n)) else rows[i])
  }

  /** The rows whose items are in `done` have their rank. */
  ghost predicate Updated(
    dir: Direction, rows: seq<Placement>, v: VersionId, done: seq<Item>, now: seq<Placement>)
  {
    && |now| == |rows|
    && forall i | 0 <= i < |rows| ::
         now[i] == if rows[i].versionId == v && ItemOf(rows[i]) in done
                   then rows[i].(position := Some(PositionOf(dir, rows, rows[i]))) else rows[i]
  }

  lemma ItemSortOrderIsTotal(dir: Direction)
    ensures TotalPreorder(ItemSortOrder(dir))
  {
  }

  lemma RankedCovers(dir: Direction, rows: seq<Placement>, v: VersionId)
    ensures Elements(Ranked(dir, rows, v)) == ItemsOf(rows, v)
    ensures forall i | 0 <= i < |rows| && rows[i].versionId == v :: ItemOf(rows[i]) in Ranked(dir, rows, v)
  {
    var kept := RowsOf(rows, v);
    var ranked := Ranked(dir, rows, v);
    FilterKeeps(OfVersion(v), rows);
    SortKeepsElements(ItemSortOrder(dir), Items(kept));
    forall x ensures x in Items(kept) <==> x in ItemsOf(rows, v) {
      if x in ItemsOf(rows, v) {
        var p :| p in rows && p.versionId == v && ItemOf(p) == x;
        var k :| 0 <= k < |kept| && kept[k] == p;
        assert Items(kept)[k] == x;
      }
    }
    forall i | 0 <= i < |rows| && rows[i].versionId == v ensures ItemOf(rows[i]) in ranked {
      assert rows[i] in rows;
    }
  }

  lemma RankedIsRanking(dir: Direction, rows: seq<Placement>, v: VersionId)
    requires UniqueEntries(rows, v)
    ensures var ranked := Ranked(dir, rows, v);
            forall k | 0 <= k < |ranked| ::
              ranked[k] in ItemsOf(rows, v) && Rank(ItemOrder(dir), ItemsOf(rows, v), ranked[k]) == k + 1
  {
    var kept := RowsOf(rows, v);
    var ranked := Ranked(dir, rows, v);
    RankedCovers(dir, rows, v);
    FilterUnique(rows, v);
    UniqueItems(rows, v);
    ItemOrderIsStrict(dir, ItemsOf(rows, v));
    ItemSortOrderIsTotal(dir);
    SortIsSorted(ItemSortOrder(dir), Items(kept));
    SortKeepsDistinct(ItemSortOrder(dir), (x: Item) => x.entryId, Items(kept));
    forall k | 0 <= k < |ranked| ensures ranked[k] in ItemsOf(rows, v) {
      assert ranked[k] in Elements(ranked);
    }
    forall i, j | 0 <= i < j < |ranked| ensures ItemLt(dir, ranked[i], ranked[j]) {
      assert ItemSortOrder(dir)(ranked[i], ranked[j]);
      assert ranked[i].entryId != ranked[j].entryId;
    }
    forall k | 0 <= k < |ranked| ensures Rank(ItemOrder(dir), ItemsOf(rows, v), ranked[k]) == k + 1 {
      SortedIndexIsRank(ItemOrder(dir), ranked, k);
    }
  }

  lemma UpdateKeeps(dir: Direction, rows: seq<Placement>, v: VersionId, k: nat, now: seq<Placement>)
    requires UniqueEntries(rows, v) && k < |Ranked(dir, rows, v)|
    requires var ranked := Ranked(dir, rows, v);
             exists before :: Updated(dir, rows, v, ranked[..k], before)
                              && now == WithPosition(before, v, ranked[k].entryId, k + 1)
    ensures Updated(dir, rows, v, Ranked(dir, rows, v)[..k + 1], now)
  {
    var ranked := Ranked(dir, rows, v);
    RankedIsRanking(dir, rows, v);
    UniqueItems(rows, v);
    assert ranked[..k + 1] == ranked[..k] + [ranked[k]];
    forall i | 0 <= i < |rows| && rows[i].versionId == v && rows[i].entryId == ranked[k].entryId
      ensures ItemOf(rows[i]) == ranked[k]
    {
      assert rows[i] in rows;
      assert ItemOf(rows[i]) in ItemsOf(rows, v);
    }
  }

  // --------------------------------------------------------------- database

  /** The committed rows, board by board. */
  class Database {
    var boards: map<Slug, Tables>

    ghost predicate Valid()
      reads this
    {
      forall slug | slug in boards :: WellFormed(boards[slug]) && boards[slug].board.slug == slug
    }

    constructor ()
      ensures Valid() && boards == map[]
    {
      boards := map[];
    }
  }

  /** A transaction's view of one board. Dropping it without writing the view back
      to the database is the rollback. */
  class Transaction {
    const board: Board
    var entries: map<Slug, EntryRow>
    var versions: seq<Version>
    var placements: seq<Placement>
    var accumulated: map<EntryId, Float64>
    var nextId: nat

    function View(): Tables
      reads this
    {
      Tables(board, entries, versions, placements, accumulated, nextId)
    }

    constructor (t: Tables)
      ensures View() == t
    {
      board, entries, versions := t.board, t.entries, t.versions;
      placements, accumulated, nextId := t.placements, t.accumulated, t.nextId;
    }

    method InsertEntry(slug: Slug, name: string, metadata: Option<Json>) returns (r: Result<EntryId>)
      modifies this`entries, this`nextId
      ensures r == if slug in old(entries) then Failure(Error.Database) else Success(old(nextId))
      ensures r.Failure? ==> View() == old(View())
      ensures r.Success? ==>
                View() == old(View()).(entries := old(entries)[slug := EntryRow(r.value, name, metadata)],
                                       nextId := old(nextId) + 1)
    {
      if slug in entries {
        return Failure(Error.Database);
      }
      entries := entries[slug := EntryRow(nextId, name, metadata)];
      nextId := nextId + 1;
      return Success(nextId - 1);
    }

    method InsertVersion(number: int, note: Option<string>, metadata: Option<Json>) returns (r: Result<Version>)
      modifies this`versions, this`nextId
      ensures r == if number > 0 && IsNewNumber(old(versions), number)
                   then Success(Version(old(nextId), number, note, metadata)) else Failure(Error.Database)
      ensures r.Failure? ==> View() == old(View())
      ensures r.Success? ==>
                View() == old(View()).(versions := old(versions) + [r.value], nextId := old(nextId) + 1)
    {
      if number <= 0 || !IsNewNumber(versions, number) {
        return Failure(Error.Database);
      }
      var version := Version(nextId, number, note, metadata);
      versions := versions + [version];
      nextId := nextId + 1;
      return Success(version);
    }

    method InsertPlacement(p: Placement) returns (r: Result<()>)
      modifies this`placements
      ensures r == if IsVersion(versions, p.versionId) && HasId(entries, p.entryId)
                      && !HasRow(old(placements), p.versionId, p.entryId)
                   then Success(()) else Failure(Error.Database)
      ensures placements == if r.Success? then old(placements) + [p] else old(placements)
    {
      if !IsVersion(versions, p.versionId) || !HasId(entries, p.entryId)
         || HasRow(placements, p.versionId, p.entryId) {
        return Failure(Error.Database);
      }
      placements := placements + [p];
      return Success(());
    }

    /** `derive_scored_positions`: sort the version's rows, number them, and update
        each one from the list. */
    method DeriveScoredPositions(v: VersionId)
      requires UniqueEntries(placements, v)
      modifies this`placements
      ensures placements == Derived(board.sortDirection, old(placements), v)
    {
      var rows := placements;
      var ranked := Ranked(board.sortDirection, rows, v);
      RankedIsRanking(board.sortDirection, rows, v);
      for k := 0 to |ranked|
        invariant Updated(board.sortDirection, rows, v, ranked[..k], placements)
      {
        placements := WithPosition(placements, v, ranked[k].entryId, k + 1);
        UpdateKeeps(board.sortDirection, rows, v, k, placements);
      }
      assert ranked[..|ranked|] == ranked;
      RankedCovers(board.sortDirection, rows, v);
    }
  }
}
