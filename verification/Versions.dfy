/** `versions.rs`: what a version accepts, and what `create` writes. */
module Versions {
  import opened Core
  import opened Floats
  import opened Ordering
  import opened Ranking
  import opened Tables
  import opened Appending

  datatype CreatePlacement = CreatePlacement(
    entrySlug: Slug,
    position: Option<int>,
    score: Option<Float64>,
    tier: Option<string>,
    metadata: Option<Json>)

  datatype CreateVersion = CreateVersion(
    note: Option<string>, metadata: Option<Json>, placements: seq<CreatePlacement>)

  // ------------------------------------------------------------- validation

  predicate DistinctSlugs(ps: seq<CreatePlacement>) {
    forall i, j | 0 <= i < j < |ps| :: ps[i].entrySlug != ps[j].entrySlug
  }

  predicate PositionsPositive(ps: seq<CreatePlacement>) {
    forall i | 0 <= i < |ps| && ps[i].position.Some? :: ps[i].position.value >= 1
  }

  /** An explicit position, or the place in the list. */
  function Resolved(p: CreatePlacement, i: int): int {
    p.position.GetOr(i + 1)
  }

  predicate PositionsDistinct(ps: seq<CreatePlacement>) {
    forall i, j | 0 <= i < j < |ps| :: Resolved(ps[i], i) != Resolved(ps[j], j)
  }

  predicate HasFiniteScore(p: CreatePlacement) {
    p.score.Some? && IsFinite(p.score.value)
  }

  predicate HasTier(config: Option<TierConfig>, p: CreatePlacement) {
    && p.tier.Some?
    && (config.Some? ==>
          exists k :: 0 <= k < |config.value.tiers| && config.value.tiers[k].key == p.tier.value)
  }

  /** What a version of the board may hold. */
  predicate Acceptable(board: Board, ps: seq<CreatePlacement>) {
    && ps != [] && DistinctSlugs(ps) && PositionsPositive(ps)
    && match board.boardType
       case Ordered => PositionsDistinct(ps)
       case Scored => forall i | 0 <= i < |ps| :: HasFiniteScore(ps[i])
       case Tiered => forall i | 0 <= i < |ps| :: HasTier(board.tierConfig, ps[i])
       case OtherType(_) => true
  }

  /** The tier is one of the configuration's keys, if there is a configuration. */
  ghost predicate IsTierOf(config: Option<TierConfig>, tier: Option<string>) {
    && tier.Some?
    && (config.Some? ==> exists k :: 0 <= k < |config.value.tiers| && config.value.tiers[k].key == tier.value)
  }

  /** The rule of the board's type: positions, given or by place in the list, are
      distinct on ordered boards; scores are finite numbers on scored boards; tiers
      are known on tiered boards. */
  ghost predicate FollowsType(board: Board, ps: seq<CreatePlacement>) {
    && (board.boardType.Ordered? ==>
          forall i, j | 0 <= i < j < |ps| ::
            (if ps[i].position.Some? then ps[i].position.value else i + 1)
            != (if ps[j].position.Some? then ps[j].position.value else j + 1))
    && (board.boardType.Scored? ==>
          forall i | 0 <= i < |ps| :: ps[i].score.Some? && Exponent(ps[i].score.value) < 2047)
    && (board.boardType.Tiered? ==> forall i | 0 <= i < |ps| :: IsTierOf(board.tierConfig, ps[i].tier))
  }

  /** What `validate_placements` lets through. */
  ghost predicate IsValid(board: Board, ps: seq<CreatePlacement>) {
    && |ps| > 0
    && (forall i, j | 0 <= i < j < |ps| :: ps[i].entrySlug != ps[j].entrySlug)
    && (forall i | 0 <= i < |ps| && ps[i].position.Some? :: ps[i].position.value >= 1)
    && FollowsType(board, ps)
  }

  lemma AcceptableIsValid(board: Board, ps: seq<CreatePlacement>)
    ensures Acceptable(board, ps) <==> IsValid(board, ps)
  {
    forall i | 0 <= i < |ps| && ps[i].score.Some?
      ensures IsFinite(ps[i].score.value) <==> Exponent(ps[i].score.value) < 2047
    {
      NaNIs(ps[i].score.value);
    }
    hide IsFinite, Exponent;
    if Acceptable(board, ps) && board.boardType.Ordered? {
      forall i, j | 0 <= i < j < |ps|
        ensures (if ps[i].position.Some? then ps[i].position.value else i + 1)
                != (if ps[j].position.Some? then ps[j].position.value else j + 1)
      {
        assert Resolved(ps[i], i) != Resolved(ps[j], j);
      }
    }
    assert forall i | 0 <= i < |ps| :: HasTier(board.tierConfig, ps[i]) <==> IsTierOf(board.tierConfig, ps[i].tier);
    assert board.boardType.Scored? ==>
        ((forall i | 0 <= i < |ps| :: HasFiniteScore(ps[i]))
         <==> forall i | 0 <= i < |ps| :: ps[i].score.Some? && Exponent(ps[i].score.value) < 2047);
    hide HasTier, IsTierOf, HasFiniteScore;
  }

  /** `validate_placements`. */
  method ValidatePlacements(board: Board, ps: seq<CreatePlacement>) returns (r: Result<()>)
    ensures r == if Acceptable(board, ps) then Success(()) else Failure(Validation)
    ensures r.Success? <==> IsValid(board, ps)
  {
    AcceptableIsValid(board, ps);
    hide IsValid;
    r := CheckPlacements(board, ps);
  }

  /** The checks, in order. */
  method CheckPlacements(board: Board, ps: seq<CreatePlacement>) returns (r: Result<()>)
    ensures r == if Acceptable(board, ps) then Success(()) else Failure(Validation)
  {
    if ps == [] {
      return Failure(Validation);
    }
    var seenSlugs: set<Slug> := {};
    for i := 0 to |ps|
      invariant seenSlugs == set k | 0 <= k < i :: ps[k].entrySlug
      invariant DistinctSlugs(ps[..i])
    {
      if ps[i].entrySlug in seenSlugs {
        return Failure(Validation);
      }
      seenSlugs := seenSlugs + {ps[i].entrySlug};
    }
    assert ps[..|ps|] == ps;
    for i := 0 to |ps|
      invariant PositionsPositive(ps[..i])
    {
      if ps[i].position.Some? && ps[i].position.value < 1 {
        return Failure(Validation);
      }
    }
    r := ValidateByType(board, ps);
  }

  /** The match on the board's type in `validate_placements`. */
  method ValidateByType(board: Board, ps: seq<CreatePlacement>) returns (r: Result<()>)
    requires ps != [] && DistinctSlugs(ps) && PositionsPositive(ps)
    ensures r == if Acceptable(board, ps) then Success(()) else Failure(Validation)
  {
    match board.boardType {
      case Ordered =>
        var seenPositions: set<int> := {};
        for i := 0 to |ps|
          invariant seenPositions == set k | 0 <= k < i :: Resolved(ps[k], k)
          invariant forall j, k | 0 <= j < k < i :: Resolved(ps[j], j) != Resolved(ps[k], k)
        {
          var resolved := ps[i].position.GetOr(i + 1);
          if resolved in seenPositions {
            return Failure(Validation);
          }
          seenPositions := seenPositions + {resolved};
        }
      case Scored =>
        for i := 0 to |ps|
          invariant forall k | 0 <= k < i :: HasFiniteScore(ps[k])
        {
          match ps[i].score {
            case None => return Failure(Validation);
            case Some(s) =>
              if !IsFinite(s) {
                return Failure(Validation);
              }
          }
        }
      case Tiered =>
        for i := 0 to |ps|
          invariant forall k | 0 <= k < i :: HasTier(board.tierConfig, ps[k])
        {
          if ps[i].tier.None? {
            return Failure(Validation);
          }
          if board.tierConfig.Some? {
            var known := Contains(board.tierConfig.value.tiers, ps[i].tier.value);
            if !known {
              return Failure(Validation);
            }
          }
        }
      case OtherType(_) =>
    }
    return Success(());
  }

  method Contains(tiers: seq<Tier>, key: string) returns (found: bool)
    ensures found <==> exists k :: 0 <= k < |tiers| && tiers[k].key == key
  {
    for k := 0 to |tiers|
      invariant forall j | 0 <= j < k :: tiers[j].key != key
    {
      if tiers[k].key == key {
        return true;
      }
    }
    return false;
  }

  // ----------------------------------------------------------------- create

  /** COALESCE(MAX(version_number), 0) + 1. */
  function NextNumber(versions: seq<Version>): (n: int)
    ensures forall i | 0 <= i < |versions| :: versions[i].number < n
    ensures versions == [] ==> n == 1
    ensures versions != [] ==> exists i :: 0 <= i < |versions| && versions[i].number + 1 == n
  {
    if versions == [] then 1
    else
      var last := versions[|versions| - 1].number + 1;
      var rest := NextNumber(versions[..|versions| - 1]);
      if |versions| == 1 || last > rest then last else rest
  }

  predicate AllFound(entries: map<Slug, EntryRow>, ps: seq<CreatePlacement>) {
    forall i | 0 <= i < |ps| :: ps[i].entrySlug in entries
  }

  function StoredPosition(board: Board, p: CreatePlacement, i: int): Option<int> {
    if board.boardType.Ordered? then Some(Resolved(p, i)) else p.position
  }

  function NewRow(t: Tables, v: VersionId, p: CreatePlacement, i: int): Placement
    requires p.entrySlug in t.entries
  {
    Placement(v, t.entries[p.entrySlug].id, StoredPosition(t.board, p, i), p.score, p.tier, p.metadata)
  }

  /** The rows inserted for a version, before positions are derived. */
  function NewRows(t: Tables, v: VersionId, ps: seq<CreatePlacement>): (r: seq<Placement>)
    requires AllFound(t.entries, ps)
    ensures |r| == |ps| && EntriesExist(t.entries, r)
  {
    seq(|ps|, i requires 0 <= i < |ps| => NewRow(t, v, ps[i], i))
  }

  function NewVersion(t: Tables, input: CreateVersion): Version {
    Version(t.nextId, NextNumber(t.versions), input.note, input.metadata)
  }

  /** The board after a version is committed. */
  function Created(t: Tables, input: CreateVersion): Tables
    requires AllFound(t.entries, input.placements)
  {
    Appended(t, NewVersion(t, input), NewRows(t, t.nextId, input.placements))
  }

  /** Whether `create` commits: both validations, the limit, and known entries. */
  predicate CanCreate(boards: map<Slug, Tables>, stale: Board, input: CreateVersion, maxVersions: Option<int>) {
    && !stale.accumulative && Acceptable(stale, input.placements)
    && stale.slug in boards
    && var t := boards[stale.slug];
       && (maxVersions.Some? ==> |t.versions| < maxVersions.value)
       && Acceptable(t.board, input.placements)
       && AllFound(t.entries, input.placements)
  }

  /** The placements name different entries of the board. */
  ghost predicate Placeable(t: Tables, ps: seq<CreatePlacement>) {
    WellFormed(t) && AllFound(t.entries, ps) && DistinctSlugs(ps)
  }

  lemma NewRowsFit(t: Tables, input: CreateVersion)
    requires Placeable(t, input.placements)
    ensures RowsFit(t, NewRows(t, t.nextId, input.placements))
    ensures VersionFits(t, NewVersion(t, input))
  {
  }

  /** Creating a version keeps every key of the schema. */
  lemma CreatedIsWellFormed(t: Tables, input: CreateVersion)
    requires Placeable(t, input.placements)
    ensures WellFormed(Created(t, input))
  {
    NewRowsFit(t, input);
    AppendedIsWellFormed(t, NewVersion(t, input), NewRows(t, t.nextId, input.placements));
  }

  /** Versions are immutable: every earlier version reads exactly as before. */
  lemma CreatedKeepsVersions(t: Tables, input: CreateVersion, w: VersionId)
    requires Placeable(t, input.placements) && w != t.nextId
    ensures WellFormed(Created(t, input))
    ensures FetchPlacements(Created(t, input), w) == FetchPlacements(t, w)
  {
    NewRowsFit(t, input);
    AppendedKeepsVersions(t, NewVersion(t, input), NewRows(t, t.nextId, input.placements), w);
  }

  /** The new version's standings are the input, slug by slug, with final positions... */
  lemma CreatedStandings(t: Tables, input: CreateVersion, i: nat)
    requires Placeable(t, input.placements) && i < |input.placements|
    ensures var slug := input.placements[i].entrySlug;
            var s := Standings(Created(t, input), t.nextId);
            slug in s && s[slug] == FinalRow(t, NewRows(t, t.nextId, input.placements), i)
  {
    var rows := NewRows(t, t.nextId, input.placements);
    NewRowsFit(t, input);
    AppendedStandings(t, NewVersion(t, input), rows, i);
    JoinedIs(t.entries, input.placements[i].entrySlug, rows[i]);
  }

  /** ...and nothing else. */
  lemma CreatedStandingsOnly(t: Tables, input: CreateVersion, slug: Slug)
    requires Placeable(t, input.placements)
    ensures slug in Standings(Created(t, input), t.nextId)
            <==> exists i :: 0 <= i < |input.placements| && input.placements[i].entrySlug == slug
  {
    NewRowsFit(t, input);
    if slug in Standings(Created(t, input), t.nextId) {
      var i := AppendedStandingsOnly(t, NewVersion(t, input), NewRows(t, t.nextId, input.placements), slug);
      assert input.placements[i].entrySlug == slug;
    }
    forall i | 0 <= i < |input.placements|
      ensures input.placements[i].entrySlug in Standings(Created(t, input), t.nextId)
    {
      CreatedStandings(t, input, i);
    }
  }

  /** The reply: for scored boards the rows are read back, otherwise they are in input order. */
  function Reply(t: Tables, input: CreateVersion): VersionWithPlacements
    requires Placeable(t, input.placements)
  {
    var t' := Created(t, input);
    CreatedIsWellFormed(t, input);
    VersionWithPlacements(
      t'.versions[|t.versions|],
      if t.board.boardType.Scored? then FetchPlacements(t', t.nextId)
      else Join(t.entries, NewRows(t, t.nextId, input.placements)))
  }

  // -------------------------------------------------- what a create must leave

  /** The stored row of the i-th placement, but for the position on scored boards. */
  predicate StoresAt(t: Tables, row: Placement, p: CreatePlacement, i: int) {
    && row.versionId == t.nextId
    && p.entrySlug in t.entries && row.entryId == t.entries[p.entrySlug].id
    && row.score == p.score && row.tier == p.tier && row.metadata == p.metadata
    && (t.board.boardType.Ordered? ==> row.position == Some(if p.position.Some? then p.position.value else i + 1))
    && (!t.board.boardType.Ordered? && !t.board.boardType.Scored? ==> row.position == p.position)
  }

  /** The new version has the input's slugs, each with its row, and on scored boards
      the positions that the scores give. */
  ghost predicate HoldsInput(t: Tables, t': Tables, ps: seq<CreatePlacement>) {
    var rows := Standings(t', t.nextId);
    && |rows| == |ps|
    && (forall i | 0 <= i < |ps| :: ps[i].entrySlug in rows && StoresAt(t, rows[ps[i].entrySlug], ps[i], i))
    && (t.board.boardType.Scored? ==> NumbersScores(t.board.sortDirection, rows))
  }

  /** Everything but the new version is as it was. */
  ghost predicate OnlyAdds(t: Tables, t': Tables, version: Version) {
    && t'.board == t.board && t'.entries == t.entries && t'.accumulated == t.accumulated
    && t'.versions == t.versions + [version]
    && forall w | w != version.id :: Standings(t', w) == Standings(t, w)
  }

  /** The next number: 1, or one more than the largest. */
  ghost predicate IsNextNumber(versions: seq<Version>, n: int) {
    && (forall i | 0 <= i < |versions| :: versions[i].number < n)
    && (if versions == [] then n == 1 else exists i :: 0 <= i < |versions| && n == versions[i].number + 1)
  }

  /** The version's stored rows under the entries' names: in the input's order, and on
      scored boards in the order of a fetch. */
  ghost predicate ListsRows(
    t: Tables, rows: map<Slug, Placement>, ps: seq<CreatePlacement>, list: seq<PlacementWithEntry>)
  {
    && |list| == |ps|
    && (forall i | 0 <= i < |list| ::
          && list[i].entrySlug in rows && list[i].placement == rows[list[i].entrySlug]
          && list[i].entrySlug in t.entries && list[i].entryName == t.entries[list[i].entrySlug].name)
    && (forall i, j | 0 <= i < j < |list| :: list[i].entrySlug != list[j].entrySlug)
    && (!t.board.boardType.Scored? ==> forall i | 0 <= i < |list| :: list[i].entrySlug == ps[i].entrySlug)
    && (t.board.boardType.Scored? ==>
          forall i, j | 0 <= i < j < |list| :: MayPrecede(t.board.tierConfig, list[i], list[j]))
  }

  /** The reply is the version that was added, with its rows. */
  ghost predicate Answers(t: Tables, t': Tables, input: CreateVersion, r: VersionWithPlacements) {
    && OnlyAdds(t, t', r.version)
    && r.version.id == t.nextId && IsNextNumber(t.versions, r.version.number)
    && r.version.note == input.note && r.version.metadata == input.metadata
    && ListsRows(t, Standings(t', t.nextId), input.placements, r.placements)
  }

  lemma CreatedStores(t: Tables, input: CreateVersion, i: nat)
    requires Placeable(t, input.placements) && i < |input.placements|
    ensures var slug := input.placements[i].entrySlug;
            var rows := Standings(Created(t, input), t.nextId);
            slug in rows && StoresAt(t, rows[slug], input.placements[i], i)
  {
    CreatedStandings(t, input, i);
    hide Created, Standings, Placeable, Rank, ItemsOf;
  }

  lemma CreatedCount(t: Tables, input: CreateVersion)
    requires Placeable(t, input.placements)
    ensures |Standings(Created(t, input), t.nextId)| == |input.placements|
  {
    NewRowsFit(t, input);
    AppendedCount(t, NewVersion(t, input), NewRows(t, t.nextId, input.placements));
  }

  lemma CreatedNumbers(t: Tables, input: CreateVersion)
    requires Placeable(t, input.placements) && t.board.boardType.Scored?
    ensures NumbersScores(t.board.sortDirection, Standings(Created(t, input), t.nextId))
  {
    NewRowsFit(t, input);
    AppendedNumbers(t, NewVersion(t, input), NewRows(t, t.nextId, input.placements));
  }

  lemma CreatedHolds(t: Tables, input: CreateVersion)
    requires Placeable(t, input.placements)
    ensures HoldsInput(t, Created(t, input), input.placements)
  {
    var rows := Standings(Created(t, input), t.nextId);
    CreatedCount(t, input);
    forall i | 0 <= i < |input.placements|
      ensures input.placements[i].entrySlug in rows
      ensures StoresAt(t, rows[input.placements[i].entrySlug], input.placements[i], i)
    {
      CreatedStores(t, input, i);
    }
    if t.board.boardType.Scored? {
      CreatedNumbers(t, input);
    }
    hide Created, Standings, Placeable, StoresAt, NumbersScores;
  }

  lemma CreatedOnlyAdds(t: Tables, input: CreateVersion)
    requires Placeable(t, input.placements)
    ensures OnlyAdds(t, Created(t, input), NewVersion(t, input))
  {
    NewRowsFit(t, input);
    var rows := NewRows(t, t.nextId, input.placements);
    AppendedParts(t, NewVersion(t, input), rows);
    hide Appended, NewRows, Standings, RowsFit, VersionFits;
    forall w | w != t.nextId ensures Standings(Created(t, input), w) == Standings(t, w) {
      AppendedKeepsStandings(t, NewVersion(t, input), rows, w);
    }
  }

  lemma JoinedReply(t: Tables, input: CreateVersion, i: nat)
    requires Placeable(t, input.placements) && !t.board.boardType.Scored? && i < |input.placements|
    ensures var rows := NewRows(t, t.nextId, input.placements);
            var slug := input.placements[i].entrySlug;
            var s := Standings(Created(t, input), t.nextId);
            && slug in s
            && Joined(t.entries, rows[i]) == PlacementWithEntry(s[slug], slug, t.entries[slug].name)
  {
    CreatedStandings(t, input, i);
    JoinedIs(t.entries, input.placements[i].entrySlug, NewRows(t, t.nextId, input.placements)[i]);
    hide Created, Standings;
  }

  lemma JoinListsRows(t: Tables, input: CreateVersion)
    requires Placeable(t, input.placements) && !t.board.boardType.Scored?
    ensures ListsRows(t, Standings(Created(t, input), t.nextId), input.placements,
                      Join(t.entries, NewRows(t, t.nextId, input.placements)))
  {
    var ps := input.placements;
    var s := Standings(Created(t, input), t.nextId);
    var list := Join(t.entries, NewRows(t, t.nextId, ps));
    forall i | 0 <= i < |ps|
      ensures ps[i].entrySlug in s && ps[i].entrySlug in t.entries
      ensures list[i] == PlacementWithEntry(s[ps[i].entrySlug], ps[i].entrySlug, t.entries[ps[i].entrySlug].name)
    {
      JoinedReply(t, input, i);
    }
    assert DistinctSlugs(ps);
    hide Created, Standings, WellFormed, NewRows, Join, MayPrecede;
  }

  lemma Readable(t: Tables)
    requires WellFormed(t)
    ensures UniqueIds(t.entries) && EntriesExist(t.entries, t.placements)
  {
  }

  lemma FetchListsRows(t: Tables, input: CreateVersion)
    requires Placeable(t, input.placements) && t.board.boardType.Scored?
    ensures WellFormed(Created(t, input))
    ensures ListsRows(t, Standings(Created(t, input), t.nextId), input.placements,
                      FetchPlacements(Created(t, input), t.nextId))
  {
    hide WellFormed, Standings, FetchPlacements, MayPrecede, NewRows, Appended;
    CreatedIsWellFormed(t, input);
    var t' := Created(t, input);
    AppendedParts(t, NewVersion(t, input), NewRows(t, t.nextId, input.placements));
    Readable(t');
    hide Created;
    FetchIsStandings(t', t.nextId);
    FetchIsSorted(t', t.nextId);
    CreatedCount(t, input);
    ListCount(FetchPlacements(t', t.nextId), Standings(t', t.nextId));
  }

  /** The specified reply is that answer. */
  lemma ReplyAnswers(t: Tables, input: CreateVersion)
    requires Placeable(t, input.placements)
    ensures Answers(t, Created(t, input), input, Reply(t, input))
  {
    CreatedOnlyAdds(t, input);
    hide Created, Standings, WellFormed, FetchPlacements, NewRows, Join, ListsRows;
    if t.board.boardType.Scored? {
      FetchListsRows(t, input);
    } else {
      JoinListsRows(t, input);
    }
  }

  lemma ListCount(list: seq<PlacementWithEntry>, rows: map<Slug, Placement>)
    requires Lists(list, rows)
    ensures |list| == |rows|
  {
    var slugs := seq(|list|, i requires 0 <= i < |list| => list[i].entrySlug);
    DistinctCard(slugs);
    forall slug | slug in rows ensures slug in Elements(slugs) {
      var i :| 0 <= i < |list| && list[i].entrySlug == slug;
      assert slugs[i] == slug;
    }
    assert Elements(slugs) == rows.Keys;
  }

  /** `create`. The board row that the caller read may be stale by the time of the lock. */
  method Create(db: Database, stale: Board, input: CreateVersion, maxVersions: Option<int>)
    returns (r: Result<VersionWithPlacements>)
    requires db.Valid()
    modifies db
    ensures db.Valid()
    ensures r.Success? <==>
              && !stale.accumulative && IsValid(stale, input.placements)
              && stale.slug in old(db.boards)
              && var t := old(db.boards)[stale.slug];
                 && (maxVersions.Some? ==> |t.versions| < maxVersions.value)
                 && IsValid(t.board, input.placements)
                 && forall i | 0 <= i < |input.placements| :: input.placements[i].entrySlug in t.entries
    ensures r.Failure? ==>
              && db.boards == old(db.boards)
              && r.error == if !stale.accumulative && IsValid(stale, input.placements)
                               && stale.slug !in old(db.boards) then Error.Database else Validation
    ensures r.Success? ==>
              var t := old(db.boards)[stale.slug];
              && AllFound(t.entries, input.placements)
              && db.boards == old(db.boards)[stale.slug := Created(t, input)]
              && HoldsInput(t, db.boards[stale.slug], input.placements)
              && Answers(t, db.boards[stale.slug], input, r.value)
  {
    AcceptableIsValid(stale, input.placements);
    if stale.slug in db.boards {
      AcceptableIsValid(db.boards[stale.slug].board, input.placements);
    }
    ghost var boards := db.boards;
    hide IsValid, HoldsInput, Answers;
    r := CreateVersionRow(db, stale, input, maxVersions);
    hide Acceptable, WellFormed, Created, Reply;
    if r.Success? {
      CreatedHolds(boards[stale.slug], input);
      ReplyAnswers(boards[stale.slug], input);
    }
  }

  method CreateVersionRow(db: Database, stale: Board, input: CreateVersion, maxVersions: Option<int>)
    returns (r: Result<VersionWithPlacements>)
    requires db.Valid()
    modifies db
    ensures db.Valid()
    ensures r.Success? <==> CanCreate(old(db.boards), stale, input, maxVersions)
    ensures r.Failure? ==>
              && db.boards == old(db.boards)
              && r.error == if !stale.accumulative && Acceptable(stale, input.placements)
                               && stale.slug !in old(db.boards) then Error.Database else Validation
    ensures r.Success? ==>
              var t := old(db.boards)[stale.slug];
              && Placeable(t, input.placements)
              && db.boards == old(db.boards)[stale.slug := Created(t, input)] && r.value == Reply(t, input)
  {
    if stale.accumulative {
      return Failure(Validation);
    }
    var _ :- ValidatePlacements(stale, input.placements);
    if stale.slug !in db.boards {
      return Failure(Error.Database);
    }
    ghost var t := db.boards[stale.slug];
    var tx := new Transaction(db.boards[stale.slug]);
    if maxVersions.Some? && |tx.versions| >= maxVersions.value {
      return Failure(Validation);
    }
    var _ :- ValidatePlacements(tx.board, input.placements);
    var placed := Place(tx, t, input);
    if placed.Failure? {
      return placed;
    }
    db.boards := db.boards[stale.slug := tx.View()];
    CreatedIsWellFormed(t, input);
    return placed;
  }

  /** From the version row to the derived positions, inside the transaction. */
  method Place(tx: Transaction, ghost t: Tables, input: CreateVersion) returns (r: Result<VersionWithPlacements>)
    requires WellFormed(t) && tx.View() == t && DistinctSlugs(input.placements)
    modifies tx
    ensures r.Success? <==> AllFound(t.entries, input.placements)
    ensures r.Failure? ==> r.error == Validation
    ensures r.Success? ==> tx.View() == Created(t, input) && r.value == Reply(t, input)
  {
    var inserted := tx.InsertVersion(NextNumber(tx.versions), input.note, input.metadata);
    var version := inserted.value;
    for i := 0 to |input.placements|
      invariant AllFound(t.entries, input.placements[..i])
    {
      if input.placements[i].entrySlug !in tx.entries {
        return Failure(Validation);
      }
    }
    assert input.placements[..|input.placements|] == input.placements;
    var placements := PlaceAll(tx, t, version, input.placements);
    CreatedIsWellFormed(t, input);
    if tx.board.boardType.Scored? {
      NewRowsFit(t, input);
      RowsStayUnique(t, NewRows(t, version.id, input.placements), version.id);
      tx.DeriveScoredPositions(version.id);
      placements := FetchPlacements(tx.View(), version.id);
    }
    return Success(VersionWithPlacements(version, placements));
  }

  /** The loop that inserts the placements and collects the reply. */
  method PlaceAll(tx: Transaction, ghost t: Tables, version: Version, ps: seq<CreatePlacement>)
    returns (placements: seq<PlacementWithEntry>)
    requires Placeable(t, ps)
    requires tx.View() == t.(versions := t.versions + [version], nextId := t.nextId + 1)
    requires VersionFits(t, version)
    modifies tx`placements
    ensures tx.placements == t.placements + NewRows(t, version.id, ps)
    ensures placements == Join(t.entries, NewRows(t, version.id, ps))
  {
    placements := [];
    ghost var rows := NewRows(t, version.id, ps);
    for i := 0 to |ps|
      invariant tx.placements == t.placements + rows[..i]
      invariant placements == Join(t.entries, rows)[..i]
    {
      var placed := PlaceOne(tx, t, version, ps, i);
      placements := placements + [placed];
    }
    assert rows[..|ps|] == rows;
  }

  /** One iteration: position, INSERT ... RETURNING. */
  method PlaceOne(tx: Transaction, ghost t: Tables, version: Version, ps: seq<CreatePlacement>, i: nat)
    returns (placed: PlacementWithEntry)
    requires Placeable(t, ps) && i < |ps|
    requires tx.board == t.board && tx.entries == t.entries && tx.versions == t.versions + [version]
    requires VersionFits(t, version) && tx.placements == t.placements + NewRows(t, version.id, ps)[..i]
    modifies tx`placements
    ensures tx.placements == t.placements + NewRows(t, version.id, ps)[..i + 1]
    ensures placed == Join(t.entries, NewRows(t, version.id, ps))[i]
  {
    RowIsReady(t, version, ps, i);
    hide WellFormed, DistinctSlugs, HasId, HasRow, IsVersion, Joined, Join, NewRows, VersionFits;
    var p := ps[i];
    var entry := tx.entries[p.entrySlug];
    var position := p.position;
    if tx.board.boardType.Ordered? {
      position := Some(p.position.GetOr(i + 1));
    }
    var row := Placement(version.id, entry.id, position, p.score, p.tier, p.metadata);
    var inserted := tx.InsertPlacement(row);
    placed := PlacementWithEntry(row, p.entrySlug, entry.name);
  }

  /** What one iteration relies on. */
  lemma RowIsReady(t: Tables, version: Version, ps: seq<CreatePlacement>, i: nat)
    requires Placeable(t, ps) && VersionFits(t, version) && i < |ps|
    ensures var rows := NewRows(t, version.id, ps);
            && rows[i] == NewRow(t, version.id, ps[i], i) && rows[..i + 1] == rows[..i] + [rows[i]]
            && HasId(t.entries, rows[i].entryId) && IsVersion(t.versions + [version], version.id)
            && !HasRow(t.placements + rows[..i], version.id, rows[i].entryId)
            && UniqueIds(t.entries)
            && Join(t.entries, rows)[i]
               == PlacementWithEntry(rows[i], ps[i].entrySlug, t.entries[ps[i].entrySlug].name)
  {
    var rows := NewRows(t, version.id, ps);
    assert RowsFit(t, rows);
    RowIsFree(t, version, rows, i);
    JoinedIs(t.entries, ps[i].entrySlug, rows[i]);
  }

  // ------------------------------------------------------------------ reads

  predicate HasNumber(versions: seq<Version>, n: int) {
    exists i :: 0 <= i < |versions| && versions[i].number == n
  }

  function VersionAt(versions: seq<Version>, n: int): (v: Version)
    requires HasNumber(versions, n)
    ensures v in versions && v.number == n
  {
    if versions[0].number == n then versions[0] else VersionAt(versions[1..], n)
  }

  /** `get_by_number`. */
  function GetByNumber(t: Tables, n: int): Result<VersionWithPlacements>
    requires WellFormed(t)
  {
    if !HasNumber(t.versions, n) then Failure(NotFound)
    else
      var version := VersionAt(t.versions, n);
      Success(VersionWithPlacements(version, FetchPlacements(t, version.id)))
  }

  /** ORDER BY version_number DESC LIMIT 1. */
  function Newest(versions: seq<Version>): (v: Version)
    requires versions != []
    ensures v in versions
    ensures forall i | 0 <= i < |versions| :: versions[i].number <= v.number
  {
    if |versions| == 1 then versions[0]
    else
      var rest := Newest(versions[1..]);
      if versions[0].number > rest.number then versions[0] else rest
  }

  /** `get_latest`. */
  function GetLatest(t: Tables): Result<VersionWithPlacements>
    requires WellFormed(t)
  {
    if t.versions == [] then Failure(NotFound)
    else
      var version := Newest(t.versions);
      Success(VersionWithPlacements(version, FetchPlacements(t, version.id)))
  }
}
