/** What the file sync promises: a second run changes nothing, and "no change"
    means that nothing would have changed; and exactly when either fails. */
module SyncTheorems {
  import opened Core
  import opened Ordering
  import opened Ranking
  import opened Tables
  import opened Appending
  import opened Versions
  import opened Diff
  import opened Sync

  // ------------------------------------------------------------------- entries

  predicate DistinctEntries(es: seq<ParsedEntry>) {
    forall i, j | 0 <= i < j < |es| :: es[i].slug != es[j].slug
  }

  /** Entries of the file with one slug have one name and one metadata. */
  predicate Consistent(es: seq<ParsedEntry>) {
    forall i, j | 0 <= i < j < |es| && es[i].slug == es[j].slug ::
      es[i].name == es[j].name && es[i].metadata == es[j].metadata
  }

  predicate Settled(entries: map<Slug, EntryRow>, e: ParsedEntry) {
    e.slug in entries && entries[e.slug].name == e.name && entries[e.slug].metadata == e.metadata
  }

  predicate Mentions(es: seq<ParsedEntry>, slug: Slug) {
    exists i :: 0 <= i < |es| && es[i].slug == slug
  }

  predicate SameEntry(a: map<Slug, EntryRow>, b: map<Slug, EntryRow>, slug: Slug) {
    (slug in a <==> slug in b) && (slug in a ==> a[slug] == b[slug])
  }

  /** The file's entries are in, the others are as they were, and so are the other tables. */
  ghost predicate EntriesSynced(t: Tables, t': Tables, es: seq<ParsedEntry>) {
    && t' == t.(entries := t'.entries, nextId := t'.nextId)
    && (forall i | 0 <= i < |es| :: Settled(t'.entries, es[i]))
    && (forall slug :: Mentions(es, slug) || SameEntry(t.entries, t'.entries, slug))
  }

  lemma StepSettles(existing: map<Slug, EntryRow>, t: Tables, e: ParsedEntry)
    requires EntryError(existing, t, e).None?
    requires e.slug in existing ==>
               e.slug in t.entries && (t.entries[e.slug] == existing[e.slug] || Settled(t.entries, e))
    ensures EntriesSynced(t, EntryStep(existing, t, e), [e])
  {
    var t' := EntryStep(existing, t, e);
    assert [e][0].slug == e.slug;
    assert Mentions([e], e.slug);
    forall slug | slug != e.slug ensures SameEntry(t.entries, t'.entries, slug) {
    }
  }

  lemma SyncedTwice(t: Tables, mid: Tables, t': Tables, es: seq<ParsedEntry>, e: ParsedEntry)
    requires EntriesSynced(t, mid, es) && EntriesSynced(mid, t', [e]) && Consistent(es + [e])
    ensures EntriesSynced(t, t', es + [e])
  {
    var all := es + [e];
    assert forall i | 0 <= i < |es| :: all[i] == es[i];
    assert forall slug :: Mentions([e], slug) <==> slug == e.slug by {
      assert [e][0].slug == e.slug;
    }
    forall i | 0 <= i < |all| ensures Settled(t'.entries, all[i]) {
      assert [e][0] == e && Settled(t'.entries, e);
      if i < |es| && all[i].slug != e.slug {
        assert SameEntry(mid.entries, t'.entries, all[i].slug);
      } else {
        assert all[|es|] == e && all[i].name == e.name && all[i].metadata == e.metadata;
      }
    }
    forall slug ensures Mentions(all, slug) || SameEntry(t.entries, t'.entries, slug) {
      assert all[|es|] == e;
      if Mentions(es, slug) {
        var i :| 0 <= i < |es| && es[i].slug == slug;
        assert all[i].slug == slug;
      } else if slug != e.slug {
        assert SameEntry(t.entries, mid.entries, slug) && SameEntry(mid.entries, t'.entries, slug);
      }
    }
  }

  /** When the loop comes to an entry, its row is as it was or already as the file has it. */
  lemma LastIsReady(a: map<Slug, EntryRow>, b: map<Slug, EntryRow>, es: seq<ParsedEntry>)
    requires es != [] && Consistent(es)
    requires var n := |es| - 1;
             && (forall i | 0 <= i < n :: Settled(b, es[..n][i]))
             && (Mentions(es[..n], es[n].slug) || SameEntry(a, b, es[n].slug))
    ensures var e := es[|es| - 1];
            e.slug in a ==> e.slug in b && (b[e.slug] == a[e.slug] || Settled(b, e))
  {
    var n := |es| - 1;
    if Mentions(es[..n], es[n].slug) {
      var i :| 0 <= i < n && es[..n][i].slug == es[n].slug;
      assert Settled(b, es[..n][i]) && es[..n][i] == es[i];
    }
  }

  /** After the loop every entry of the file is in the table as the file has it. */
  lemma {:induction false} EntriesSettle(t: Tables, es: seq<ParsedEntry>)
    requires Consistent(es) && SyncEntries(t.entries, t, es).error.None?
    ensures EntriesSynced(t, SyncEntries(t.entries, t, es).t, es)
  {
    if es != [] {
      hide EntryStep, EntryError, EntryMatches;
      var n := |es| - 1;
      var before := SyncEntries(t.entries, t, es[..n]);
      EntriesSettle(t, es[..n]);
      assert es[..n] + [es[n]] == es;
      LastIsReady(t.entries, before.t.entries, es);
      StepSettles(t.entries, before.t, es[n]);
      hide EntriesSynced;
      SyncedTwice(t, before.t, EntryStep(t.entries, before.t, es[n]), es[..n], es[n]);
    }
  }

  /** Settled entries are left alone. */
  lemma {:induction false} SettledStay(t: Tables, es: seq<ParsedEntry>)
    requires forall i | 0 <= i < |es| :: Settled(t.entries, es[i])
    ensures SyncEntries(t.entries, t, es) == Progress(t, None)
  {
    if es != [] {
      SettledStay(t, es[..|es| - 1]);
    }
  }

  // ------------------------------------------------------------- the comparison

  function SlugsOf(ps: seq<CreatePlacement>): set<Slug> {
    set i | 0 <= i < |ps| :: ps[i].entrySlug
  }

  lemma SlugsCount(ps: seq<CreatePlacement>)
    requires DistinctSlugs(ps)
    ensures |SlugsOf(ps)| == |ps|
  {
    var slugs := seq(|ps|, i requires 0 <= i < |ps| => ps[i].entrySlug);
    DistinctCard(slugs);
    forall slug | slug in SlugsOf(ps) ensures slug in Elements(slugs) {
      var i :| 0 <= i < |ps| && ps[i].entrySlug == slug;
      assert slugs[i] == slug;
    }
    assert Elements(slugs) == SlugsOf(ps);
  }

  /** The file's placements are the version's, as far as they are compared. */
  ghost predicate SameAs(boardType: BoardType, m: map<Slug, Placement>, ps: seq<CreatePlacement>) {
    && m.Keys == SlugsOf(ps)
    && forall i | 0 <= i < |ps| :: ps[i].entrySlug in m && !RowDiffers(boardType, m[ps[i].entrySlug], ps[i], i)
  }

  /** What `placements_changed` decides; equal lengths make equal slug sets. */
  lemma DiffersIs(
    boardType: BoardType, list: seq<PlacementWithEntry>, m: map<Slug, Placement>, ps: seq<CreatePlacement>)
    requires Lists(list, m) && DistinctSlugs(ps)
    ensures !Differs(boardType, list, ps) <==> SameAs(boardType, m, ps)
  {
    ListCount(list, m);
    SlugsCount(ps);
    BySlugIs(list, m);
    var b := BySlug(list);
    hide Lists, DistinctSlugs, BySlug, ProposalDiffers, SlugsOf;
    if SameAs(boardType, m, ps) {
      SameMeansNoDifference(boardType, b, m, ps);
    }
    if |list| == |ps| && forall i | 0 <= i < |ps| :: !ProposalDiffers(boardType, b, ps, i) {
      NoDifferenceMeansSame(boardType, b, m, ps);
    }
    hide SameAs;
  }

  lemma SameMeansNoDifference(
    boardType: BoardType, b: map<Slug, PlacementWithEntry>, m: map<Slug, Placement>, ps: seq<CreatePlacement>)
    requires b.Keys == m.Keys && forall slug | slug in m :: b[slug].placement == m[slug]
    requires SameAs(boardType, m, ps)
    ensures forall i | 0 <= i < |ps| :: !ProposalDiffers(boardType, b, ps, i)
  {
  }

  lemma NoDifferenceMeansSame(
    boardType: BoardType, b: map<Slug, PlacementWithEntry>, m: map<Slug, Placement>, ps: seq<CreatePlacement>)
    requires b.Keys == m.Keys && forall slug | slug in m :: b[slug].placement == m[slug]
    requires |m.Keys| == |SlugsOf(ps)|
    requires forall i | 0 <= i < |ps| :: !ProposalDiffers(boardType, b, ps, i)
    ensures SameAs(boardType, m, ps)
  {
    forall i | 0 <= i < |ps|
      ensures ps[i].entrySlug in m && !RowDiffers(boardType, m[ps[i].entrySlug], ps[i], i)
    {
      assert !ProposalDiffers(boardType, b, ps, i);
    }
    SubsetCard(SlugsOf(ps), m.Keys);
  }

  lemma NewestIsCreated(t: Tables, input: CreateVersion)
    requires AllFound(t.entries, input.placements)
    ensures Newest(Created(t, input).versions) == NewVersion(t, input)
  {
    var versions := Created(t, input).versions;
    assert versions[|t.versions|] == NewVersion(t, input);
    var k :| 0 <= k < |versions| && versions[k] == Newest(versions);
  }

  // ---------------------------------------------------------------- idempotence

  function ItemFor(entries: map<Slug, EntryRow>, p: CreatePlacement): Item
    requires p.entrySlug in entries
  {
    Item(entries[p.entrySlug].id, p.score)
  }

  function ProposedItems(entries: map<Slug, EntryRow>, ps: seq<CreatePlacement>): set<Item>
    requires AllFound(entries, ps)
  {
    set i | 0 <= i < |ps| :: ItemFor(entries, ps[i])
  }

  /** Every explicit position is the rank that the scores give the entry anyway. */
  ghost predicate ExplicitAreRanks(entries: map<Slug, EntryRow>, dir: Direction, ps: seq<CreatePlacement>) {
    && AllFound(entries, ps)
    && forall i | 0 <= i < |ps| && ps[i].position.Some? ::
         ps[i].position.value == Rank(ItemOrder(dir), ProposedItems(entries, ps), ItemFor(entries, ps[i]))
  }

  lemma NewRowItems(t: Tables, ps: seq<CreatePlacement>)
    requires AllFound(t.entries, ps)
    ensures ItemsOf(NewRows(t, t.nextId, ps), t.nextId) == ProposedItems(t.entries, ps)
  {
    var rows := NewRows(t, t.nextId, ps);
    forall i | 0 <= i < |ps| ensures ItemFor(t.entries, ps[i]) in ItemsOf(rows, t.nextId) {
      assert rows[i] in rows && ItemOf(rows[i]) == ItemFor(t.entries, ps[i]);
    }
  }

  /** A stored row against the proposal it was created from. */
  lemma OwnRowDiffers(t: Tables, ps: seq<CreatePlacement>, i: nat)
    requires AllFound(t.entries, ps) && i < |ps| && !t.board.boardType.OtherType?
    ensures var row := FinalRow(t, NewRows(t, t.nextId, ps), i);
            RowDiffers(t.board.boardType, row, ps[i], i) <==>
            && t.board.boardType.Scored? && ps[i].position.Some?
            && ps[i].position.value
               != Rank(ItemOrder(t.board.sortDirection), ProposedItems(t.entries, ps), ItemFor(t.entries, ps[i]))
  {
    NewRowItems(t, ps);
    hide Rank, ItemsOf, ProposedItems;
  }

  /** A version just created, compared with its own input: no difference, unless a
      scored board was given an explicit position that is not the rank. */
  lemma CreatedIsUnchanged(t: Tables, input: CreateVersion)
    requires Placeable(t, input.placements) && !t.board.boardType.OtherType?
    ensures WellFormed(Created(t, input))
    ensures Differs(t.board.boardType, FetchPlacements(Created(t, input), t.nextId), input.placements) <==>
            t.board.boardType.Scored? && !ExplicitAreRanks(t.entries, t.board.sortDirection, input.placements)
  {
    var ps := input.placements;
    var m := Standings(Created(t, input), t.nextId);
    CreatedIsWellFormed(t, input);
    FetchIsStandings(Created(t, input), t.nextId);
    DiffersIs(t.board.boardType, FetchPlacements(Created(t, input), t.nextId), m, ps);
    forall slug ensures slug in m <==> slug in SlugsOf(ps) {
      CreatedStandingsOnly(t, input, slug);
    }
    forall i | 0 <= i < |ps|
      ensures ps[i].entrySlug in m && m[ps[i].entrySlug] == FinalRow(t, NewRows(t, t.nextId, ps), i)
    {
      CreatedStandings(t, input, i);
    }
    hide Differs, Created, FetchPlacements, Standings, WellFormed, FinalRow, NewRows;
    assert m.Keys == SlugsOf(ps);
    OwnRowsDiffer(t, m, ps);
  }

  lemma OwnRowsDiffer(t: Tables, m: map<Slug, Placement>, ps: seq<CreatePlacement>)
    requires AllFound(t.entries, ps) && !t.board.boardType.OtherType? && m.Keys == SlugsOf(ps)
    requires forall i | 0 <= i < |ps| ::
               ps[i].entrySlug in m && m[ps[i].entrySlug] == FinalRow(t, NewRows(t, t.nextId, ps), i)
    ensures SameAs(t.board.boardType, m, ps) <==>
            (t.board.boardType.Scored? ==> ExplicitAreRanks(t.entries, t.board.sortDirection, ps))
  {
    forall i | 0 <= i < |ps|
      ensures RowDiffers(t.board.boardType, m[ps[i].entrySlug], ps[i], i) <==>
              && t.board.boardType.Scored? && ps[i].position.Some?
              && ps[i].position.value
                 != Rank(ItemOrder(t.board.sortDirection), ProposedItems(t.entries, ps), ItemFor(t.entries, ps[i]))
    {
      OwnRowDiffers(t, ps, i);
    }
    hide RowDiffers, Rank, ProposedItems, FinalRow, NewRows;
  }

  /** A board that a run of the file has just brought up to date. */
  ghost predicate UpToDate(t: Tables, file: BoardFile) {
    && WellFormed(t) && BoardMatches(t.board, file) && !file.accumulative
    && file.entries != []
    && forall i | 0 <= i < |file.entries| :: Settled(t.entries, file.entries[i])
  }

  /** The second run gets to the comparison without writing anything. */
  lemma SecondRunCompares(t: Tables, file: BoardFile, note: string)
    requires UpToDate(t, file)
    ensures SyncFile(Some(t), file, note) == SyncVersion(t, file, note, false)
  {
    SettledStay(t, file.entries);
  }

  lemma BoardStepMatches(t: Option<Tables>, file: BoardFile)
    requires BoardStep(t, file).Success?
    ensures BoardMatches(BoardStep(t, file).value.t.board, file)
  {
  }

  /** The loop over the entries gives no entry another id, and no new entry an old one. */
  ghost predicate IdsKept(t: Tables, t': Tables) {
    && t'.board == t.board && t'.versions == t.versions && t'.placements == t.placements && t.nextId <= t'.nextId
    && (forall slug | slug in t.entries :: slug in t'.entries && t'.entries[slug].id == t.entries[slug].id)
    && (forall slug | slug in t'.entries && slug !in t.entries :: t.nextId <= t'.entries[slug].id)
  }

  lemma {:induction false} SyncKeepsIds(existing: map<Slug, EntryRow>, t: Tables, es: seq<ParsedEntry>)
    ensures IdsKept(t, SyncEntries(existing, t, es).t)
  {
    if es != [] {
      var n := |es| - 1;
      SyncKeepsIds(existing, t, es[..n]);
      var before := SyncEntries(existing, t, es[..n]);
      if before.error.None? && EntryError(existing, before.t, es[n]).None? {
        assert IdsKept(before.t, EntryStep(existing, before.t, es[n]));
      }
    }
  }

  lemma BoardStepKeepsRows(t: Option<Tables>, file: BoardFile)
    requires t.Some? && BoardStep(t, file).Success?
    ensures BoardStep(t, file).value.t == t.value.(board := BoardStep(t, file).value.t.board)
  {
  }

  /** Where a run that created a version was just before it did. */
  lemma FirstRun(t: Option<Tables>, file: BoardFile, note: string) returns (mid: Tables)
    requires t.Some? ==> WellFormed(t.value)
    requires SyncFile(t, file, note).result.Success?
    requires SyncFile(t, file, note).result.value.VersionCreated? || SyncFile(t, file, note).result.value.VersionAdded?
    ensures UpToDate(mid, file) && Creatable(mid, PlacementsOf(file.entries))
    ensures SyncFile(t, file, note).t == Some(Created(mid, InputOf(file, note)))
    ensures t.Some? ==> mid.versions == t.value.versions
  {
    BoardStepMatches(t, file);
    BoardStepKeepsKeys(t, file);
    var start := BoardStep(t, file).value.t;
    SyncKeepsKeys(start.entries, start, file.entries);
    SyncKeepsIds(start.entries, start, file.entries);
    mid := SyncEntries(start.entries, start, file.entries).t;
    assert SyncFile(t, file, note) == SyncVersion(mid, file, note, BoardStep(t, file).value.rankingChanged);
    if t.Some? {
      BoardStepKeepsRows(t, file);
    }
    hide BoardStep, SyncEntries, WellFormed;
    var ps := PlacementsOf(file.entries);
    assert DistinctSlugs(ps);
    PlacedOnce(file.entries);
    EntriesSettle(start, file.entries);
  }

  lemma PlacedOnce(es: seq<ParsedEntry>)
    requires DistinctSlugs(PlacementsOf(es))
    ensures Consistent(es)
  {
    forall i, j | 0 <= i < j < |es| ensures es[i].slug != es[j].slug {
      assert PlacementsOf(es)[i].entrySlug != PlacementsOf(es)[j].entrySlug;
    }
  }

  lemma CreatedIsUpToDate(mid: Tables, file: BoardFile, note: string)
    requires UpToDate(mid, file) && Creatable(mid, PlacementsOf(file.entries))
    ensures UpToDate(Created(mid, InputOf(file, note)), file)
  {
    CreatedIsWellFormed(mid, InputOf(file, note));
  }

  /** After a run that created a version, the next run of the same file writes
      nothing if and only if the board is not scored or every explicit position is
      the rank; otherwise it adds yet another version. */
  lemma RerunAfterVersion(t: Option<Tables>, file: BoardFile, note: string, note': string)
    requires t.Some? ==> WellFormed(t.value)
    requires SyncFile(t, file, note).result.Success?
    requires SyncFile(t, file, note).result.value.VersionCreated? || SyncFile(t, file, note).result.value.VersionAdded?
    ensures var o := SyncFile(t, file, note);
            && o.t.Some? && WellFormed(o.t.value)
            && var again := SyncFile(o.t, file, note');
               var b := o.t.value.board;
               if b.boardType.Scored?
                  && !ExplicitAreRanks(o.t.value.entries, b.sortDirection, PlacementsOf(file.entries))
               then again.result.Success? && again.result.value.VersionAdded?
               else again == Outcome(o.t, Success(NoChange))
  {
    var mid := FirstRun(t, file, note);
    var input := InputOf(file, note);
    var t1 := Created(mid, input);
    CreatedIsUpToDate(mid, file, note);
    SecondRunCompares(t1, file, note');
    NewestIsCreated(mid, input);
    CreatedIsUnchanged(mid, input);
    hide SyncFile, Differs, FetchPlacements, WellFormed, ExplicitAreRanks, Acceptable;
    assert t1.versions != [] && t1.board == mid.board && t1.entries == mid.entries;
    assert t1.versions[|mid.versions|].number < NextNumber(t1.versions);
  }

  // ------------------------------------------------------------------ soundness

  /** The two versions agree on every entry's position, score, tier and metadata. */
  ghost predicate SameStandings(a: map<Slug, Placement>, b: map<Slug, Placement>) {
    && a.Keys == b.Keys
    && forall slug | slug in a ::
         && a[slug].position == b[slug].position && a[slug].score == b[slug].score
         && a[slug].tier == b[slug].tier && a[slug].metadata == b[slug].metadata
  }

  /** What a version's rows are ranked on. */
  ghost function VersionItems(t: Tables, v: VersionId): set<Item> {
    var s := Standings(t, v);
    set slug | slug in s :: Item(t.entries[slug].id, s[slug].score)
  }

  /** The version's positions are the ranks that `derive_scored_positions` gives, rows
      without a score included. */
  ghost predicate DerivedUnder(t: Tables, v: VersionId, dir: Direction) {
    var s := Standings(t, v);
    forall slug | slug in s ::
      s[slug].position == Some(Rank(ItemOrder(dir), VersionItems(t, v), Item(t.entries[slug].id, s[slug].score)))
  }

  /** With a score on every row, that is the frozen ranking of the scores. */
  lemma DerivedIsRanked(t: Tables, v: VersionId, dir: Direction)
    requires forall slug | slug in Standings(t, v) :: Standings(t, v)[slug].score.Some?
    ensures DerivedUnder(t, v, dir) <==> RankedUnder(t, v, dir)
  {
    var s := Standings(t, v);
    var f := Frozen(ScoresOf(s), IdsOf(t.entries));
    assert ScoresOf(s).Keys == s.Keys;
    forall slug | slug in s ensures f[slug] == Item(t.entries[slug].id, s[slug].score) {
    }
    hide Standings, Rank, ItemOrder;
    assert VersionItems(t, v) == Image(f, s.Keys);
  }

  /** When the comparison misses nothing: on scored boards, if the latest version is
      the ranking under the direction of now; on tiered ones, if no entry of the
      file leaves out a position that the latest version has. */
  ghost predicate MissesNothing(t: Tables, latest: VersionId, ps: seq<CreatePlacement>) {
    match t.board.boardType
    case Ordered => true
    case Scored => DerivedUnder(t, latest, t.board.sortDirection)
    case _ =>
      forall i | 0 <= i < |ps| && ps[i].position.None? && ps[i].entrySlug in Standings(t, latest) ::
        Standings(t, latest)[ps[i].entrySlug].position.None?
  }

  lemma CreatedKeys(t: Tables, input: CreateVersion)
    requires Placeable(t, input.placements)
    ensures Standings(Created(t, input), t.nextId).Keys == SlugsOf(input.placements)
  {
    forall slug ensures slug in Standings(Created(t, input), t.nextId) <==> slug in SlugsOf(input.placements) {
      CreatedStandingsOnly(t, input, slug);
    }
  }

  /** Score, tier and metadata of the version that would be created are those of the latest. */
  lemma UnchangedRow(t: Tables, input: CreateVersion, m: map<Slug, Placement>, i: nat)
    requires Placeable(t, input.placements) && SameAs(t.board.boardType, m, input.placements)
    requires i < |input.placements|
    ensures var p := input.placements[i];
            var s := Standings(Created(t, input), t.nextId);
            && p.entrySlug in s && p.entrySlug in m
            && s[p.entrySlug].score == m[p.entrySlug].score
            && s[p.entrySlug].tier == m[p.entrySlug].tier
            && s[p.entrySlug].metadata == m[p.entrySlug].metadata
            && (t.board.boardType.Ordered? ==> s[p.entrySlug].position == m[p.entrySlug].position)
            && (!t.board.boardType.Ordered? && !t.board.boardType.Scored? ==>
                  (s[p.entrySlug].position == m[p.entrySlug].position
                   <==> (p.position.None? ==> m[p.entrySlug].position.None?)))
  {
    CreatedStandings(t, input, i);
    hide Created, Standings, Placeable, Rank, ItemsOf;
  }

  lemma CreatedIsRanked(t: Tables, input: CreateVersion)
    requires Placeable(t, input.placements) && t.board.boardType.Scored?
    requires forall i | 0 <= i < |input.placements| :: input.placements[i].score.Some?
    ensures RankedUnder(Created(t, input), t.nextId, t.board.sortDirection)
  {
    NewRowsFit(t, input);
    AppendedIsRanked(t, NewVersion(t, input), NewRows(t, t.nextId, input.placements));
  }

  lemma CreatedIsDerived(t: Tables, input: CreateVersion)
    requires Placeable(t, input.placements) && t.board.boardType.Scored?
    ensures DerivedUnder(Created(t, input), t.nextId, t.board.sortDirection)
  {
    var ps := input.placements;
    var s := Standings(Created(t, input), t.nextId);
    CreatedKeys(t, input);
    NewRowItems(t, ps);
    forall i | 0 <= i < |ps|
      ensures ps[i].entrySlug in s && s[ps[i].entrySlug].score == ps[i].score
      ensures s[ps[i].entrySlug].position
              == Some(Rank(ItemOrder(t.board.sortDirection), ProposedItems(t.entries, ps), ItemFor(t.entries, ps[i])))
    {
      CreatedStandings(t, input, i);
    }
    assert Created(t, input).entries == t.entries;
    hide Created, Standings, Placeable, Rank, NewRows, ItemsOf;
    CreatedItems(t.entries, s, ps);
  }

  lemma CreatedItems(entries: map<Slug, EntryRow>, s: map<Slug, Placement>, ps: seq<CreatePlacement>)
    requires AllFound(entries, ps) && s.Keys == SlugsOf(ps)
    requires forall i | 0 <= i < |ps| :: ps[i].entrySlug in s && s[ps[i].entrySlug].score == ps[i].score
    ensures forall slug | slug in s :: slug in entries
    ensures (set slug | slug in s :: Item(entries[slug].id, s[slug].score)) == ProposedItems(entries, ps)
  {
    forall i | 0 <= i < |ps|
      ensures ItemFor(entries, ps[i]) == Item(entries[ps[i].entrySlug].id, s[ps[i].entrySlug].score)
    {
    }
  }

  /** Two versions with the same scores and ids, one of them ranked: the positions
      agree if and only if the other is ranked too. */
  lemma DerivedAgree(t: Tables, v: VersionId, t': Tables, v': VersionId, dir: Direction)
    requires t.entries == t'.entries && DerivedUnder(t', v', dir)
    requires var s, s' := Standings(t, v), Standings(t', v');
             s.Keys == s'.Keys && forall slug | slug in s :: s[slug].score == s'[slug].score
    ensures DerivedUnder(t, v, dir) <==>
            forall slug | slug in Standings(t, v) ::
              Standings(t, v)[slug].position == Standings(t', v')[slug].position
  {
    assert VersionItems(t, v) == VersionItems(t', v');
    hide Rank, VersionItems;
  }

  /** If `placements_changed` says no, the slugs are the latest version's, and the
      version that `create` would store equals the latest one exactly when the
      comparison misses nothing. */
  lemma NoChangeIsSound(t: Tables, input: CreateVersion)
    requires WellFormed(t) && t.versions != [] && DistinctSlugs(input.placements)
    requires !Differs(t.board.boardType, FetchPlacements(t, Newest(t.versions).id), input.placements)
    ensures var latest := Newest(t.versions).id;
            && Standings(t, latest).Keys == SlugsOf(input.placements)
            && AllFound(t.entries, input.placements)
            && (SameStandings(Standings(Created(t, input), t.nextId), Standings(t, latest))
                <==> MissesNothing(t, latest, input.placements))
  {
    var latest := Newest(t.versions).id;
    var m := Standings(t, latest);
    FetchIsStandings(t, latest);
    DiffersIs(t.board.boardType, FetchPlacements(t, latest), m, input.placements);
    forall i | 0 <= i < |input.placements| ensures input.placements[i].entrySlug in t.entries {
      assert input.placements[i].entrySlug in m;
    }
    WouldBeIs(t, input, latest);
  }

  lemma WouldBeIs(t: Tables, input: CreateVersion, latest: VersionId)
    requires Placeable(t, input.placements)
    requires SameAs(t.board.boardType, Standings(t, latest), input.placements)
    ensures SameStandings(Standings(Created(t, input), t.nextId), Standings(t, latest))
            <==> MissesNothing(t, latest, input.placements)
  {
    var ps := input.placements;
    var s, m := Standings(Created(t, input), t.nextId), Standings(t, latest);
    CreatedKeys(t, input);
    forall slug | slug in m
      ensures slug in s && s[slug].score == m[slug].score && s[slug].tier == m[slug].tier
      ensures s[slug].metadata == m[slug].metadata
      ensures t.board.boardType.Ordered? ==> s[slug].position == m[slug].position
    {
      var i :| 0 <= i < |ps| && ps[i].entrySlug == slug;
      UnchangedRow(t, input, m, i);
    }
    if t.board.boardType.Scored? {
      CreatedIsDerived(t, input);
      DerivedAgree(t, latest, Created(t, input), t.nextId, t.board.sortDirection);
      hide DerivedUnder, Standings, Created, Placeable, SameAs;
    } else {
      forall i | 0 <= i < |ps|
        ensures ps[i].entrySlug in m && ps[i].entrySlug in s
        ensures !t.board.boardType.Ordered? ==>
                  (s[ps[i].entrySlug].position == m[ps[i].entrySlug].position
                   <==> (ps[i].position.None? ==> m[ps[i].entrySlug].position.None?))
      {
        UnchangedRow(t, input, m, i);
      }
      hide DerivedUnder, Standings, Created, Placeable, RowDiffers;
      TieredAgree(m, s, ps, t.board.boardType);
    }
  }

  lemma TieredAgree(m: map<Slug, Placement>, s: map<Slug, Placement>, ps: seq<CreatePlacement>, boardType: BoardType)
    requires m.Keys == SlugsOf(ps) == s.Keys
    requires forall i | 0 <= i < |ps| ::
               ps[i].entrySlug in m && ps[i].entrySlug in s
               && (!boardType.Ordered? ==>
                     (s[ps[i].entrySlug].position == m[ps[i].entrySlug].position
                      <==> (ps[i].position.None? ==> m[ps[i].entrySlug].position.None?)))
    ensures !boardType.Ordered? ==>
              ((forall slug | slug in m :: s[slug].position == m[slug].position) <==>
               forall i | 0 <= i < |ps| && ps[i].position.None? && ps[i].entrySlug in m ::
                 m[ps[i].entrySlug].position.None?)
  {
  }

  // ------------------------------------------------ what a successful run leaves

  /** Where a successful run stands when it comes to the comparison. */
  lemma ToComparison(t: Option<Tables>, file: BoardFile, note: string) returns (mid: Tables)
    requires t.Some? ==> WellFormed(t.value)
    requires !file.accumulative && file.entries != [] && Consistent(file.entries)
    requires SyncFile(t, file, note).result.Success?
    ensures BoardStep(t, file).Success? && WellFormed(BoardStep(t, file).value.t)
    ensures mid == SyncEntries(BoardStep(t, file).value.t.entries, BoardStep(t, file).value.t, file.entries).t
    ensures UpToDate(mid, file)
    ensures SyncFile(t, file, note) == SyncVersion(mid, file, note, BoardStep(t, file).value.rankingChanged)
  {
    BoardStepMatches(t, file);
    BoardStepKeepsKeys(t, file);
    var start := BoardStep(t, file).value.t;
    SyncKeepsKeys(start.entries, start, file.entries);
    mid := SyncEntries(start.entries, start, file.entries).t;
    assert SyncFile(t, file, note) == SyncVersion(mid, file, note, BoardStep(t, file).value.rankingChanged);
    hide BoardStep, SyncEntries, WellFormed, SyncVersion;
    EntriesSettle(start, file.entries);
  }

  /** The version is the file: its slugs, scores, tiers and metadata, and every
      position that the file or the list order decides. */
  ghost predicate Reflects(boardType: BoardType, m: map<Slug, Placement>, ps: seq<CreatePlacement>) {
    && m.Keys == SlugsOf(ps)
    && forall i | 0 <= i < |ps| :: ps[i].entrySlug in m && ReflectsOne(boardType, m[ps[i].entrySlug], ps[i], i)
  }

  predicate ReflectsOne(boardType: BoardType, row: Placement, p: CreatePlacement, i: int) {
    && row.score == p.score && row.tier == p.tier && row.metadata == p.metadata
    && (boardType.Ordered? ==> row.position == Some(Resolved(p, i)))
    && (boardType.Tiered? && p.position.Some? ==> row.position == p.position)
  }

  lemma SameReflects(boardType: BoardType, m: map<Slug, Placement>, ps: seq<CreatePlacement>)
    requires SameAs(boardType, m, ps)
    ensures Reflects(boardType, m, ps)
  {
  }

  lemma CreatedReflects(t: Tables, input: CreateVersion)
    requires Placeable(t, input.placements)
    ensures Reflects(t.board.boardType, Standings(Created(t, input), t.nextId), input.placements)
  {
    CreatedKeys(t, input);
    forall i | 0 <= i < |input.placements|
      ensures var s := Standings(Created(t, input), t.nextId);
              var p := input.placements[i];
              p.entrySlug in s && ReflectsOne(t.board.boardType, s[p.entrySlug], p, i)
    {
      CreatedStandings(t, input, i);
      hide Created, Standings, Placeable, Rank, ItemsOf;
    }
  }

  /** The configuration has the file's tiers, numbered from 1; none if there are none. */
  predicate HasTiers(config: Option<TierConfig>, tiers: seq<ParsedTier>) {
    && (|tiers| == 0 <==> config.None?)
    && (config.Some? ==>
          && |config.value.tiers| == |tiers|
          && forall i | 0 <= i < |tiers| ::
               && config.value.tiers[i].key == tiers[i].key
               && config.value.tiers[i].position == i + 1
               && config.value.tiers[i].tierLabel == tiers[i].tierLabel)
  }

  lemma TiersAre(config: Option<TierConfig>, tiers: seq<ParsedTier>)
    ensures HasTiers(config, tiers) <==> config == TierConfigOf(tiers)
  {
    if HasTiers(config, tiers) && config.Some? {
      forall i | 0 <= i < |tiers| ensures config.value.tiers[i] == TierConfigOf(tiers).value.tiers[i] {
      }
      assert config.value.tiers == TierConfigOf(tiers).value.tiers;
    }
  }

  /** The board has what the file says about it; the rest is as it was, or as a new
      board of the file's slug and type has it. */
  predicate BoardShows(before: Option<Tables>, b: Board, file: BoardFile) {
    && b.name == file.name && b.sortDirection == file.sortDirection
    && HasTiers(b.tierConfig, file.tiers) && b.metadata == file.metadata
    && match before
       case None => b.slug == file.slug && b.boardType == file.boardType
                    && !b.accumulative && !b.realtime && !b.clearOnSnapshot
       case Some(t) => b.slug == t.board.slug && b.boardType == t.board.boardType
                       && b.accumulative == t.board.accumulative && b.realtime == t.board.realtime
                       && b.clearOnSnapshot == t.board.clearOnSnapshot
  }

  lemma BoardStepShows(t: Option<Tables>, file: BoardFile)
    requires BoardStep(t, file).Success?
    ensures BoardShows(t, BoardStep(t, file).value.t.board, file)
  {
    TiersAre(BoardStep(t, file).value.t.board.tierConfig, file.tiers);
    hide HasTiers;
  }

  lemma RowsKeepBoard(t: Tables, file: BoardFile, note: string, forced: bool)
    requires WellFormed(t)
    ensures SyncRows(t, file, note, forced).t.value.board == t.board
  {
    if file.entries != [] {
      SyncKeepsIds(t.entries, t, file.entries);
      SyncKeepsKeys(t.entries, t, file.entries);
      hide WellFormed, SyncEntries, NeedsVersion, Creatable;
    }
  }

  /** One entry of the file, as the version has it. */
  predicate EntryShows(boardType: BoardType, row: Placement, e: ParsedEntry, i: int) {
    && row.score == e.score && row.tier == e.tier && row.metadata == e.metadata
    && (boardType == Ordered ==> row.position == Some(if e.position.Some? then e.position.value else i + 1))
    && (boardType == Tiered && e.position.Some? ==> row.position == e.position)
  }

  /** The version has exactly the file's entries. */
  ghost predicate VersionShows(boardType: BoardType, rows: map<Slug, Placement>, es: seq<ParsedEntry>) {
    && |rows| == |es|
    && forall i | 0 <= i < |es| :: es[i].slug in rows && EntryShows(boardType, rows[es[i].slug], es[i], i)
  }

  lemma ReflectsShows(boardType: BoardType, rows: map<Slug, Placement>, es: seq<ParsedEntry>)
    requires Reflects(boardType, rows, PlacementsOf(es)) && DistinctEntries(es)
    ensures VersionShows(boardType, rows, es)
  {
    var ps := PlacementsOf(es);
    assert forall i | 0 <= i < |es| :: ps[i].entrySlug == es[i].slug;
    assert DistinctSlugs(ps);
    SlugsCount(ps);
    assert |rows.Keys| == |rows|;
    forall i | 0 <= i < |es| ensures es[i].slug in rows && EntryShows(boardType, rows[es[i].slug], es[i], i) {
      assert ReflectsOne(boardType, rows[ps[i].entrySlug], ps[i], i);
    }
  }

  /** After a successful run the board, its entries and its newest version are the
      file's, whether or not the run had to create that version. */
  lemma SyncReflectsFile(t: Option<Tables>, file: BoardFile, note: string)
    requires t.Some? ==> WellFormed(t.value)
    requires !file.accumulative && file.entries != [] && DistinctEntries(file.entries)
    requires SyncFile(t, file, note).result.Success?
    ensures SyncFile(t, file, note).t.Some?
    ensures var t' := SyncFile(t, file, note).t.value;
            && BoardShows(t, t'.board, file)
            && (forall i | 0 <= i < |file.entries| :: Settled(t'.entries, file.entries[i]))
            && UpToDate(t', file) && t'.versions != []
            && Reflects(t'.board.boardType, Standings(t', Newest(t'.versions).id), PlacementsOf(file.entries))
            && VersionShows(t'.board.boardType, Standings(t', Newest(t'.versions).id), file.entries)
  {
    var mid := ToComparison(t, file, note);
    var forced := BoardStep(t, file).value.rankingChanged;
    BoardStepShows(t, file);
    RowsKeepBoard(BoardStep(t, file).value.t, file, note, forced);
    hide SyncEntries, Reflects, SyncRows;
    ComparisonReflects(mid, file, note, forced);
    hide SyncFile, BoardStep, VersionShows, BoardShows;
    var t' := SyncFile(t, file, note).t.value;
    ReflectsShows(t'.board.boardType, Standings(t', Newest(t'.versions).id), file.entries);
  }

  lemma ComparisonReflects(mid: Tables, file: BoardFile, note: string, forced: bool)
    requires UpToDate(mid, file) && DistinctEntries(file.entries)
    requires SyncVersion(mid, file, note, forced).result.Success?
    ensures var t' := SyncVersion(mid, file, note, forced).t.value;
            && UpToDate(t', file) && t'.versions != []
            && Reflects(t'.board.boardType, Standings(t', Newest(t'.versions).id), PlacementsOf(file.entries))
  {
    var ps := PlacementsOf(file.entries);
    assert forall i | 0 <= i < |ps| :: ps[i].entrySlug == file.entries[i].slug;
    assert DistinctSlugs(ps);
    if NeedsVersion(mid, file, forced) {
      var input := InputOf(file, note);
      CreatedIsUpToDate(mid, file, note);
      NewestIsCreated(mid, input);
      CreatedReflects(mid, input);
      hide Created, Standings, Reflects, UpToDate, Acceptable;
    } else {
      var latest := Newest(mid.versions).id;
      FetchIsStandings(mid, latest);
      DiffersIs(mid.board.boardType, FetchPlacements(mid, latest), Standings(mid, latest), ps);
      SameReflects(mid.board.boardType, Standings(mid, latest), ps);
    }
  }
}
