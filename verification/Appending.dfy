/** Adding a version to a board: what it keeps, and what the new version reads as. */
module Appending {
  import opened Core
  import opened Ordering
  import opened Ranking
  import opened Tables

  /** The board after a version with these rows is committed. */
  function Appended(t: Tables, version: Version, rows: seq<Placement>): Tables {
    var all := t.placements + rows;
    t.(versions := t.versions + [version],
       placements := if t.board.boardType.Scored? then Derived(t.board.sortDirection, all, version.id) else all,
       nextId := t.nextId + 1)
  }

  /** Rows for the next version, one for each of some entries. */
  ghost predicate RowsFit(t: Tables, rows: seq<Placement>) {
    && EntriesExist(t.entries, rows)
    && (forall i | 0 <= i < |rows| :: rows[i].versionId == t.nextId)
    && (forall i, j | 0 <= i < j < |rows| :: rows[i].entryId != rows[j].entryId)
  }

  ghost predicate VersionFits(t: Tables, version: Version) {
    version.id == t.nextId && version.number > 0 && IsNewNumber(t.versions, version.number)
  }

  lemma AppendedParts(t: Tables, version: Version, rows: seq<Placement>)
    ensures var t' := Appended(t, version, rows);
            && t'.board == t.board && t'.entries == t.entries && t'.accumulated == t.accumulated
            && t'.versions == t.versions + [version]
  {
  }

  /** Ids are never reused, so no row has the id of a version still to come. */
  lemma RowsAreOlder(t: Tables)
    requires VersionsOk(t) && PlacementsOk(t)
    ensures forall i | 0 <= i < |t.placements| :: t.placements[i].versionId < t.nextId
  {
    forall i | 0 <= i < |t.placements| ensures t.placements[i].versionId < t.nextId {
      assert IsVersion(t.versions, t.placements[i].versionId);
    }
  }

  lemma RowsStayUnique(t: Tables, rows: seq<Placement>, v: VersionId)
    requires VersionsOk(t) && PlacementsOk(t) && RowsFit(t, rows)
    ensures UniqueEntries(t.placements + rows, v)
  {
    RowsAreOlder(t);
    var all := t.placements + rows;
    assert UniqueEntries(t.placements, v);
    forall i, j | 0 <= i < j < |all| && all[i].versionId == v == all[j].versionId
      ensures all[i].entryId != all[j].entryId
    {
      if i >= |t.placements| {
        assert all[i] == rows[i - |t.placements|];
      }
    }
  }

  /** Inserting row i of a new version cannot violate a key. */
  lemma RowIsFree(t: Tables, version: Version, rows: seq<Placement>, i: nat)
    requires WellFormed(t) && VersionFits(t, version) && RowsFit(t, rows) && i < |rows|
    ensures HasId(t.entries, rows[i].entryId) && IsVersion(t.versions + [version], rows[i].versionId)
    ensures !HasRow(t.placements + rows[..i], rows[i].versionId, rows[i].entryId)
  {
    RowsAreOlder(t);
    var now := t.placements + rows[..i];
    forall k | 0 <= k < |now| && now[k].versionId == t.nextId ensures now[k].entryId != rows[i].entryId {
      assert now[k] == rows[k - |t.placements|];
    }
    assert (t.versions + [version])[|t.versions|].id == t.nextId;
  }

  /** Every key of the schema holds again. */
  lemma AppendedIsWellFormed(t: Tables, version: Version, rows: seq<Placement>)
    requires WellFormed(t) && VersionFits(t, version) && RowsFit(t, rows)
    ensures WellFormed(Appended(t, version, rows))
  {
    var t' := Appended(t, version, rows);
    var all := t.placements + rows;
    assert forall i | 0 <= i < |all| ::
        t'.placements[i].versionId == all[i].versionId && t'.placements[i].entryId == all[i].entryId;
    forall v ensures UniqueEntries(t'.placements, v) {
      RowsStayUnique(t, rows, v);
    }
    assert t'.versions[|t.versions|].id == t.nextId;
    forall v | IsVersion(t.versions, v) ensures IsVersion(t'.versions, v) {
      var i :| 0 <= i < |t.versions| && t.versions[i].id == v;
      assert t'.versions[i].id == v;
    }
  }

  // ------------------------------------------------------------- old versions

  /** Numbering one version leaves the rows of another alone. */
  lemma {:induction false} DerivedSparesOthers(
    before: seq<Placement>, after: seq<Placement>, v: VersionId, w: VersionId)
    requires v != w && |before| == |after|
    requires forall i | 0 <= i < |before| ::
               before[i].versionId == after[i].versionId && (before[i].versionId != v ==> before[i] == after[i])
    ensures RowsOf(after, w) == RowsOf(before, w)
  {
    if before != [] {
      DerivedSparesOthers(before[1..], after[1..], v, w);
    }
  }

  lemma AppendedKeepsRows(t: Tables, version: Version, rows: seq<Placement>, w: VersionId)
    requires RowsFit(t, rows) && version.id == t.nextId && w != t.nextId
    ensures RowsOf(Appended(t, version, rows).placements, w) == RowsOf(t.placements, w)
  {
    FilterAppend(OfVersion(w), t.placements, rows);
    FilterNone(OfVersion(w), rows);
    DerivedSparesOthers(t.placements + rows, Appended(t, version, rows).placements, t.nextId, w);
  }

  /** Every earlier version reads exactly as before. */
  lemma AppendedKeepsVersions(t: Tables, version: Version, rows: seq<Placement>, w: VersionId)
    requires WellFormed(t) && VersionFits(t, version) && RowsFit(t, rows) && w != t.nextId
    ensures WellFormed(Appended(t, version, rows))
    ensures FetchPlacements(Appended(t, version, rows), w) == FetchPlacements(t, w)
  {
    AppendedIsWellFormed(t, version, rows);
    AppendedKeepsRows(t, version, rows, w);
    hide WellFormed, PlacementsOk, EntriesOk, VersionsOk;
  }

  lemma AppendedKeepsStandings(t: Tables, version: Version, rows: seq<Placement>, w: VersionId)
    requires WellFormed(t) && VersionFits(t, version) && RowsFit(t, rows) && w != t.nextId
    ensures Standings(Appended(t, version, rows), w) == Standings(t, w)
  {
    var t' := Appended(t, version, rows);
    AppendedIsWellFormed(t, version, rows);
    AppendedKeepsRows(t, version, rows, w);
    SameRowsSameStandings(t, t', w);
  }

  lemma SameRowsSameStandings(t: Tables, t': Tables, w: VersionId)
    requires WellFormed(t) && WellFormed(t') && t.entries == t'.entries
    requires RowsOf(t.placements, w) == RowsOf(t'.placements, w)
    ensures Standings(t, w) == Standings(t', w)
  {
    FilterKeeps(OfVersion(w), t.placements);
    FilterKeeps(OfVersion(w), t'.placements);
    var s, s' := Standings(t, w), Standings(t', w);
    forall slug | slug in s ensures slug in s' && s'[slug] == s[slug] {
      assert s[slug] in RowsOf(t.placements, w);
      RowForIs(t'.placements, w, s[slug]);
    }
    forall slug | slug in s' ensures slug in s {
      assert s'[slug] in RowsOf(t'.placements, w);
      RowForIs(t.placements, w, s'[slug]);
    }
  }

  // -------------------------------------------------------------- new version

  /** A row as the version ends up with it. */
  function FinalRow(t: Tables, rows: seq<Placement>, i: nat): Placement
    requires i < |rows|
  {
    if t.board.boardType.Scored?
    then rows[i].(position :=
      Some(Rank(ItemOrder(t.board.sortDirection), ItemsOf(rows, t.nextId), ItemOf(rows[i]))))
    else rows[i]
  }

  lemma NewItemsOf(t: Tables, rows: seq<Placement>)
    requires VersionsOk(t) && PlacementsOk(t)
    ensures ItemsOf(t.placements + rows, t.nextId) == ItemsOf(rows, t.nextId)
  {
    RowsAreOlder(t);
    var all := t.placements + rows;
    forall p | p in rows ensures p in all {
      var i :| 0 <= i < |rows| && rows[i] == p;
      assert all[|t.placements| + i] == p;
    }
  }

  lemma FinalRowAt(t: Tables, version: Version, rows: seq<Placement>, i: nat)
    requires VersionsOk(t) && PlacementsOk(t) && version.id == t.nextId && RowsFit(t, rows) && i < |rows|
    ensures Appended(t, version, rows).placements[|t.placements| + i] == FinalRow(t, rows, i)
  {
    NewItemsOf(t, rows);
    hide Rank, ItemsOf;
  }

  /** The new version has each row, under its entry's slug... */
  lemma AppendedStandings(t: Tables, version: Version, rows: seq<Placement>, i: nat)
    requires WellFormed(t) && VersionFits(t, version) && RowsFit(t, rows) && i < |rows|
    ensures HasId(t.entries, rows[i].entryId)
    ensures var s := Standings(Appended(t, version, rows), t.nextId);
            var slug := SlugOf(t.entries, rows[i].entryId);
            slug in s && s[slug] == FinalRow(t, rows, i)
  {
    var t' := Appended(t, version, rows);
    AppendedIsWellFormed(t, version, rows);
    FinalRowAt(t, version, rows, i);
    hide Rank, ItemsOf, Appended;
    var row := t'.placements[|t.placements| + i];
    StandingIs(t', t.nextId, row);
  }

  /** ...and nothing else. */
  lemma AppendedStandingsOnly(t: Tables, version: Version, rows: seq<Placement>, slug: Slug) returns (i: nat)
    requires WellFormed(t) && VersionFits(t, version) && RowsFit(t, rows)
    requires slug in Standings(Appended(t, version, rows), t.nextId)
    ensures slug in t.entries && i < |rows| && rows[i].entryId == t.entries[slug].id
  {
    var all := Appended(t, version, rows).placements;
    AppendedIds(t, version, rows);
    RowsAreOlder(t);
    assert HasRow(all, t.nextId, t.entries[slug].id);
    hide Appended, Standings, WellFormed, HasRow, RowsFit;
    var k := IndexOfRow(all, t.nextId, t.entries[slug].id);
    i := k - |t.placements|;
  }

  lemma IndexOfRow(rows: seq<Placement>, v: VersionId, e: EntryId) returns (k: nat)
    requires HasRow(rows, v, e)
    ensures k < |rows| && rows[k].versionId == v && rows[k].entryId == e
  {
    k :| 0 <= k < |rows| && rows[k].versionId == v && rows[k].entryId == e;
  }

  /** Deriving positions changes no id. */
  lemma AppendedIds(t: Tables, version: Version, rows: seq<Placement>)
    ensures var all := Appended(t, version, rows).placements;
            && |all| == |t.placements| + |rows|
            && (forall k | 0 <= k < |t.placements| ::
                  all[k].versionId == t.placements[k].versionId && all[k].entryId == t.placements[k].entryId)
            && (forall k | |t.placements| <= k < |all| ::
                  all[k].versionId == rows[k - |t.placements|].versionId
                  && all[k].entryId == rows[k - |t.placements|].entryId)
  {
  }

  // ------------------------------------------------------- positions and numbers

  /** Positions 1 to n that rise exactly as the rows get worse. */
  ghost predicate NumbersScores(dir: Direction, rows: map<Slug, Placement>) {
    && (forall a | a in rows :: rows[a].position.Some? && 1 <= rows[a].position.value <= |rows|)
    && (forall a, b | a in rows && b in rows && a != b ::
          rows[a].position.value < rows[b].position.value <==> Outranks(dir, rows[a], rows[b]))
  }

  /** Ranks among the new rows are positions in the order of the numbers. */
  lemma RanksNumber(t: Tables, rows: seq<Placement>, i: nat, j: nat)
    requires RowsFit(t, rows) && t.board.boardType.Scored? && i < |rows| && j < |rows|
    ensures var a, b := FinalRow(t, rows, i), FinalRow(t, rows, j);
            && 1 <= a.position.value <= |rows|
            && (i != j ==> (a.position.value < b.position.value <==> Outranks(t.board.sortDirection, a, b)))
  {
    var dir := t.board.sortDirection;
    var items := ItemsOf(rows, t.nextId);
    assert UniqueEntries(rows, t.nextId);
    UniqueItems(rows, t.nextId);
    ItemOrderIsStrict(dir, items);
    assert rows[i] in rows && rows[j] in rows;
    assert ItemOf(rows[i]) in items && ItemOf(rows[j]) in items;
    ItemsCount(rows, t.nextId);
    RankBounds(ItemOrder(dir), items, ItemOf(rows[i]));
    RankMonotone(ItemOrder(dir), items, ItemOf(rows[i]), ItemOf(rows[j]));
    hide Rank, ItemsOf, RowsFit, ItemLt, Outranks;
    ItemsOutrank(dir, rows[i], rows[j]);
    SameContest(dir, rows[i], rows[j], FinalRow(t, rows, i), FinalRow(t, rows, j));
  }

  lemma SameContest(dir: Direction, a: Placement, b: Placement, a': Placement, b': Placement)
    requires a'.score == a.score && a'.entryId == a.entryId && b'.score == b.score && b'.entryId == b.entryId
    ensures Outranks(dir, a', b') <==> Outranks(dir, a, b)
  {
  }

  lemma {:induction false} ItemsCount(rows: seq<Placement>, v: VersionId)
    ensures |ItemsOf(rows, v)| <= |rows|
  {
    if rows != [] {
      var n := |rows| - 1;
      ItemsCount(rows[..n], v);
      assert ItemsOf(rows, v) <= ItemsOf(rows[..n], v) + {ItemOf(rows[n])} by {
        forall p | p in rows ensures p in rows[..n] || p == rows[n] {
        }
      }
      SubsetCard(ItemsOf(rows, v), ItemsOf(rows[..n], v) + {ItemOf(rows[n])});
    }
  }

  lemma FinalIsNumbered(t: Tables, rows: seq<Placement>, i: nat)
    requires i < |rows| && t.board.boardType.Scored?
    ensures FinalRow(t, rows, i).position.Some?
  {
  }

  /** Where a slug of the new version is among its rows. */
  lemma AppendedIndex(t: Tables, version: Version, rows: seq<Placement>, slug: Slug) returns (i: nat)
    requires WellFormed(t) && VersionFits(t, version) && RowsFit(t, rows)
    requires slug in Standings(Appended(t, version, rows), t.nextId)
    ensures slug in t.entries && i < |rows| && rows[i].entryId == t.entries[slug].id
    ensures Standings(Appended(t, version, rows), t.nextId)[slug] == FinalRow(t, rows, i)
    ensures HasId(t.entries, rows[i].entryId) && SlugOf(t.entries, rows[i].entryId) == slug
  {
    i := AppendedStandingsOnly(t, version, rows, slug);
    AppendedStandings(t, version, rows, i);
    JoinedIs(t.entries, slug, rows[i]);
  }

  lemma AppendedCount(t: Tables, version: Version, rows: seq<Placement>)
    requires WellFormed(t) && VersionFits(t, version) && RowsFit(t, rows)
    ensures |Standings(Appended(t, version, rows), t.nextId)| == |rows|
  {
    var s := Standings(Appended(t, version, rows), t.nextId);
    forall i | 0 <= i < |rows|
      ensures HasId(t.entries, rows[i].entryId) && SlugOf(t.entries, rows[i].entryId) in s
    {
      AppendedStandings(t, version, rows, i);
    }
    var slugs := seq(|rows|, i requires 0 <= i < |rows| => SlugOf(t.entries, rows[i].entryId));
    DistinctCard(slugs);
    forall slug | slug in s ensures slug in Elements(slugs) {
      var i := AppendedIndex(t, version, rows, slug);
      assert slugs[i] == slug;
    }
    hide Appended, Standings, WellFormed, RowsFit, VersionFits;
    assert s.Keys == Elements(slugs);
  }

  /** The positions of a new version of a scored board, in terms of the numbers. */
  lemma AppendedNumbers(t: Tables, version: Version, rows: seq<Placement>)
    requires WellFormed(t) && VersionFits(t, version) && RowsFit(t, rows) && t.board.boardType.Scored?
    ensures NumbersScores(t.board.sortDirection, Standings(Appended(t, version, rows), t.nextId))
  {
    var s := Standings(Appended(t, version, rows), t.nextId);
    hide Appended, Standings, WellFormed, FinalRow, Outranks, RowsFit, VersionFits;
    AppendedCount(t, version, rows);
    forall a, b | a in s && b in s
      ensures s[a].position.Some? && 1 <= s[a].position.value <= |s|
      ensures s[b].position.Some?
      ensures a != b ==>
                (s[a].position.value < s[b].position.value <==> Outranks(t.board.sortDirection, s[a], s[b]))
    {
      var i := AppendedIndex(t, version, rows, a);
      var j := AppendedIndex(t, version, rows, b);
      RanksNumber(t, rows, i, j);
      FinalIsNumbered(t, rows, i);
      FinalIsNumbered(t, rows, j);
    }
  }

  // ------------------------------------------------------------------- ranking

  ghost function ScoresOf(rows: map<Slug, Placement>): map<Slug, Float64> {
    map slug | slug in rows && rows[slug].score.Some? :: rows[slug].score.value
  }

  lemma SameScores(a: map<Slug, Placement>, b: map<Slug, Placement>)
    requires a.Keys == b.Keys && forall slug | slug in a :: a[slug].score == b[slug].score
    ensures ScoresOf(a) == ScoresOf(b)
  {
  }

  /** Every entry of the version has a score, and its position is its rank. */
  ghost predicate RankedUnder(t: Tables, v: VersionId, dir: Direction) {
    var s := Standings(t, v);
    forall slug | slug in s ::
      && s[slug].score.Some?
      && s[slug].position == Some(FrozenRank(ScoresOf(s), IdsOf(t.entries), dir, slug))
  }

  /** On a scored board a version is ranked under the direction of the moment. */
  lemma AppendedIsRanked(t: Tables, version: Version, rows: seq<Placement>)
    requires WellFormed(t) && VersionFits(t, version) && RowsFit(t, rows)
    requires t.board.boardType.Scored? && forall i | 0 <= i < |rows| :: rows[i].score.Some?
    ensures RankedUnder(Appended(t, version, rows), t.nextId, t.board.sortDirection)
  {
    var t' := Appended(t, version, rows);
    var s := Standings(t', t.nextId);
    forall slug | slug in s
      ensures s[slug].score.Some?
      ensures exists i :: 0 <= i < |rows| && rows[i].entryId == t.entries[slug].id && s[slug] == FinalRow(t, rows, i)
    {
      var i := AppendedStandingsOnly(t, version, rows, slug);
      AppendedStandings(t, version, rows, i);
      JoinedIs(t.entries, slug, rows[i]);
    }
    ItemsAreFrozen(t, version, rows);
    hide Appended, RowsFit, Rank;
  }

  lemma ItemsAreFrozen(t: Tables, version: Version, rows: seq<Placement>)
    requires WellFormed(t) && VersionFits(t, version) && RowsFit(t, rows)
    requires forall i | 0 <= i < |rows| :: rows[i].score.Some?
    ensures var s := Standings(Appended(t, version, rows), t.nextId);
            && ScoresOf(s).Keys == s.Keys
            && ItemsOf(rows, t.nextId) == Image(Frozen(ScoresOf(s), IdsOf(t.entries)), s.Keys)
  {
    var s := Standings(Appended(t, version, rows), t.nextId);
    forall slug | slug in s
      ensures s[slug].score.Some?
      ensures Item(t.entries[slug].id, s[slug].score) in ItemsOf(rows, t.nextId)
    {
      var i := AppendedStandingsOnly(t, version, rows, slug);
      AppendedStandings(t, version, rows, i);
      JoinedIs(t.entries, slug, rows[i]);
      assert rows[i] in rows;
    }
    forall x | x in ItemsOf(rows, t.nextId)
      ensures exists slug :: slug in s && x == Item(t.entries[slug].id, s[slug].score)
    {
      var p :| p in rows && p.versionId == t.nextId && ItemOf(p) == x;
      var i :| 0 <= i < |rows| && rows[i] == p;
      AppendedStandings(t, version, rows, i);
      var slug := SlugOf(t.entries, p.entryId);
      assert slug in s && x == Item(t.entries[slug].id, s[slug].score);
    }
    hide Appended, RowsFit, HasRow, WellFormed;
    var f := Frozen(ScoresOf(s), IdsOf(t.entries));
    assert forall slug | slug in s :: f[slug] == Item(t.entries[slug].id, s[slug].score);
  }
}
