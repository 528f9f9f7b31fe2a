/** `boards.rs` and `entries.rs`: creating and updating the rows that the file
    sync keeps in step with its files. */
module Boards {
  import opened Core
  import opened Ordering
  import opened Tables

  datatype Nullable<+T> = Absent | Null | Value(value: T) {
    function Apply(old': Option<T>): Option<T> {
      match this
      case Absent => old'
      case Null => None
      case Value(v) => Some(v)
    }
  }

  datatype UpdateBoard = UpdateBoard(
    name: Option<string>,
    sortDirection: Option<Direction>,
    tierConfig: Nullable<TierConfig>,
    metadata: Nullable<Json>,
    realtime: Option<bool>,
    clearOnSnapshot: Option<bool>)

  datatype UpdateEntry = UpdateEntry(name: Option<string>, metadata: Nullable<Json>)

  // ------------------------------------------------------------- tier config

  const I32_MIN: int := -2147483648
  const I32_MAX: int := 2147483647

  predicate TierConfigOk(config: Option<TierConfig>) {
    && config.Some?
    && var tiers := config.value.tiers;
       && tiers != []
       && (forall i, j | 0 <= i < j < |tiers| :: tiers[i].key != tiers[j].key)
       && (forall i | 0 <= i < |tiers| :: I32_MIN <= tiers[i].position <= I32_MAX)
  }

  /** A configuration with tiers, no key twice, positions of 32 bits. */
  ghost predicate TiersValid(config: Option<TierConfig>) {
    && config.Some? && |config.value.tiers| > 0
    && (forall i, j | 0 <= i < j < |config.value.tiers| :: config.value.tiers[i].key != config.value.tiers[j].key)
    && (forall i | 0 <= i < |config.value.tiers| ::
          -2147483648 <= config.value.tiers[i].position < 2147483648)
  }

  /** `validate_tier_config`. */
  method ValidateTierConfig(config: Option<TierConfig>) returns (r: Result<()>)
    ensures r == if TierConfigOk(config) then Success(()) else Failure(Validation)
    ensures r.Success? <==> TiersValid(config)
  {
    if config.None? || config.value.tiers == [] {
      return Failure(Validation);
    }
    var tiers := config.value.tiers;
    var seenKeys: set<string> := {};
    for i := 0 to |tiers|
      invariant seenKeys == set k | 0 <= k < i :: tiers[k].key
      invariant forall j, k | 0 <= j < k < i :: tiers[j].key != tiers[k].key
      invariant forall k | 0 <= k < i :: I32_MIN <= tiers[k].position <= I32_MAX
    {
      if tiers[i].key in seenKeys {
        return Failure(Validation);
      }
      seenKeys := seenKeys + {tiers[i].key};
      if !(I32_MIN <= tiers[i].position <= I32_MAX) {
        return Failure(Validation);
      }
    }
    return Success(());
  }

  // ------------------------------------------------------------------ boards

  predicate CanCreateBoard(b: Board) {
    && BoardOk(b)
    && (b.boardType.Tiered? ==> TierConfigOk(b.tierConfig))
    && (!b.boardType.Scored? ==> b.sortDirection == Desc)
  }

  function NewBoard(b: Board): Tables {
    Tables(b, map[], [], [], map[], 0)
  }

  /** Flags that go together on a board of this type. */
  predicate FlagsAgree(scored: bool, accumulative: bool, realtime: bool, clearOnSnapshot: bool) {
    && (accumulative ==> scored)
    && (realtime ==> accumulative && scored)
    && (clearOnSnapshot ==> realtime)
  }

  /** What `boards::create` accepts. */
  ghost predicate IsNewBoard(b: Board) {
    && IsSlug(b.slug) && 0 < |b.name| < 257
    && (b.boardType == Ordered || b.boardType == Scored || b.boardType == Tiered)
    && (b.sortDirection == Asc || b.sortDirection == Desc)
    && (b.boardType != Scored ==> b.sortDirection == Desc)
    && (b.boardType == Tiered ==> TiersValid(b.tierConfig))
    && FlagsAgree(b.boardType == Scored, b.accumulative, b.realtime, b.clearOnSnapshot)
  }

  lemma CanCreateIs(b: Board)
    ensures CanCreateBoard(b) <==> IsNewBoard(b)
  {
    ValidSlugIs(b.slug);
    ValidSlugIs(b.name);
    hide ValidSlug, ValidName, IsSlug;
  }

  /** `boards::create`. */
  method CreateBoard(db: Database, b: Board) returns (r: Result<Board>)
    requires db.Valid()
    modifies db
    ensures db.Valid()
    ensures r == if !CanCreateBoard(b) then Failure(Validation)
                 else if b.slug in old(db.boards) then Failure(Conflict)
                 else Success(b)
    ensures db.boards == if r.Success? then old(db.boards)[b.slug := NewBoard(b)] else old(db.boards)
    ensures r == if !IsNewBoard(b) then Failure(Validation)
                 else if b.slug in old(db.boards) then Failure(Conflict)
                 else Success(b)
    ensures r.Success? ==> db.boards[b.slug] == Tables(b, map[], [], [], map[], 0)
  {
    CanCreateIs(b);
    hide IsNewBoard;
    if !BoardOk(b) {
      return Failure(Validation);
    }
    if b.boardType.Tiered? {
      var _ :- ValidateTierConfig(b.tierConfig);
    }
    if !b.boardType.Scored? && b.sortDirection != Desc {
      return Failure(Validation);
    }
    if b.slug in db.boards {
      return Failure(Conflict);
    }
    db.boards := db.boards[b.slug := NewBoard(b)];
    return Success(b);
  }

  /** Whether `boards::update` accepts the change. */
  predicate CanUpdate(b: Board, u: UpdateBoard) {
    var realtime := u.realtime.GetOr(b.realtime);
    && (u.name.Some? ==> ValidName(u.name.value))
    && (u.sortDirection.Some? ==> !u.sortDirection.value.OtherDirection? && b.boardType.Scored?)
    && (b.boardType.Tiered? ==>
          !u.tierConfig.Null? && (u.tierConfig.Value? ==> TierConfigOk(Some(u.tierConfig.value))))
    && (realtime ==> b.accumulative && b.boardType.Scored?)
    && (u.clearOnSnapshot.GetOr(b.clearOnSnapshot) ==> realtime)
  }

  function BoardAfter(b: Board, u: UpdateBoard): Board {
    b.(name := u.name.GetOr(b.name),
       sortDirection := u.sortDirection.GetOr(b.sortDirection),
       tierConfig := u.tierConfig.Apply(b.tierConfig),
       metadata := u.metadata.Apply(b.metadata),
       realtime := u.realtime.GetOr(b.realtime),
       clearOnSnapshot := u.clearOnSnapshot.GetOr(b.clearOnSnapshot))
  }

  /** What `boards::update` checks before it looks for the board. */
  predicate ChangeOk(u: UpdateBoard) {
    && (u.name.Some? ==> ValidName(u.name.value))
    && (u.sortDirection.Some? ==> !u.sortDirection.value.OtherDirection?)
  }

  /** A field that is given has the given value, one that is not stays as it was. */
  predicate Given<T(==)>(field: Option<T>, before: T, after: T) {
    after == if field.Some? then field.value else before
  }

  predicate GivenNullable<T(==)>(field: Nullable<T>, before: Option<T>, after: Option<T>) {
    && (field.Absent? ==> after == before)
    && (field.Null? ==> after == None)
    && (field.Value? ==> after == Some(field.value))
  }

  /** The board after the change, field by field. */
  predicate IsChanged(b: Board, u: UpdateBoard, after: Board) {
    && after.slug == b.slug && after.boardType == b.boardType && after.accumulative == b.accumulative
    && Given(u.name, b.name, after.name)
    && Given(u.sortDirection, b.sortDirection, after.sortDirection)
    && GivenNullable(u.tierConfig, b.tierConfig, after.tierConfig)
    && GivenNullable(u.metadata, b.metadata, after.metadata)
    && Given(u.realtime, b.realtime, after.realtime)
    && Given(u.clearOnSnapshot, b.clearOnSnapshot, after.clearOnSnapshot)
  }

  /** What is wrong with a change whatever the board. */
  predicate IsMalformed(u: UpdateBoard) {
    || (u.name.Some? && !(0 < |u.name.value| < 257))
    || (u.sortDirection.Some? && u.sortDirection.value != Asc && u.sortDirection.value != Desc)
  }

  /** What is wrong with it for this board. */
  ghost predicate Clashes(b: Board, u: UpdateBoard) {
    var realtime := if u.realtime.Some? then u.realtime.value else b.realtime;
    var clears := if u.clearOnSnapshot.Some? then u.clearOnSnapshot.value else b.clearOnSnapshot;
    || (u.sortDirection.Some? && b.boardType != Scored)
    || (b.boardType == Tiered && u.tierConfig.Null?)
    || (b.boardType == Tiered && u.tierConfig.Value? && !TiersValid(Some(u.tierConfig.value)))
    || (realtime && !(b.accumulative && b.boardType == Scored))
    || (clears && !realtime)
  }

  lemma MalformedIs(u: UpdateBoard)
    ensures ChangeOk(u) <==> !IsMalformed(u)
  {
    if u.name.Some? {
      ValidSlugIs(u.name.value);
    }
  }

  lemma CanUpdateIs(b: Board, u: UpdateBoard)
    ensures ChangeOk(u) <==> !IsMalformed(u)
    ensures ChangeOk(u) ==> (CanUpdate(b, u) <==> !Clashes(b, u))
    ensures IsChanged(b, u, BoardAfter(b, u))
  {
    if u.name.Some? {
      ValidSlugIs(u.name.value);
    }
    hide ValidSlug, ValidName, IsSlug;
  }

  /** `boards::update`. */
  method Update(db: Database, slug: Slug, u: UpdateBoard) returns (r: Result<Board>)
    requires db.Valid()
    modifies db
    ensures db.Valid()
    ensures r.Failure? ==>
              r.error == if !IsMalformed(u) && slug !in old(db.boards) then NotFound else Validation
    ensures r.Success? <==>
              !IsMalformed(u) && slug in old(db.boards) && !Clashes(old(db.boards)[slug].board, u)
    ensures r.Success? ==> IsChanged(old(db.boards)[slug].board, u, r.value)
    ensures r == if !ChangeOk(u) then Failure(Validation)
                 else if slug !in old(db.boards) then Failure(NotFound)
                 else if CanUpdate(old(db.boards)[slug].board, u)
                 then Success(BoardAfter(old(db.boards)[slug].board, u)) else Failure(Validation)
    ensures db.boards == if r.Success? then old(db.boards)[slug := old(db.boards)[slug].(board := r.value)]
                         else old(db.boards)
  {
    if slug in db.boards {
      CanUpdateIs(db.boards[slug].board, u);
    } else {
      MalformedIs(u);
    }
    hide EntriesOk, VersionsOk, PlacementsOk, ValidSlug, ValidName, TierConfigOk, IsMalformed, Clashes, IsChanged,
      TiersValid;
    if u.name.Some? && !ValidName(u.name.value) {
      return Failure(Validation);
    }
    if u.sortDirection.Some? && u.sortDirection.value.OtherDirection? {
      return Failure(Validation);
    }
    if slug !in db.boards {
      return Failure(NotFound);
    }
    var b := db.boards[slug].board;
    if u.sortDirection.Some? && !b.boardType.Scored? {
      return Failure(Validation);
    }
    if b.boardType.Tiered? {
      match u.tierConfig {
        case Value(config) =>
          var _ :- ValidateTierConfig(Some(config));
        case Null => return Failure(Validation);
        case Absent =>
      }
    }
    var realtime := u.realtime.GetOr(b.realtime);
    var clearOnSnapshot := u.clearOnSnapshot.GetOr(b.clearOnSnapshot);
    if realtime && !(b.accumulative && b.boardType.Scored?) {
      return Failure(Validation);
    }
    if clearOnSnapshot && !realtime {
      return Failure(Validation);
    }
    BoardKeepsKeys(db.boards[slug], BoardAfter(b, u));
    db.boards := db.boards[slug := db.boards[slug].(board := BoardAfter(b, u))];
    return Success(BoardAfter(b, u));
  }

  lemma BoardKeepsKeys(t: Tables, b: Board)
    requires WellFormed(t) && BoardOk(b)
    ensures WellFormed(t.(board := b))
  {
  }

  // ----------------------------------------------------------------- entries

  function WithEntry(t: Tables, slug: Slug, name: string, metadata: Option<Json>): Tables {
    t.(entries := t.entries[slug := EntryRow(t.nextId, name, metadata)], nextId := t.nextId + 1)
  }

  /** The entry is there, under an id of its own; nothing else changes. */
  ghost predicate IsEntryAdded(t: Tables, t': Tables, slug: Slug, name: string, metadata: Option<Json>) {
    && slug in t'.entries && t'.entries[slug].name == name && t'.entries[slug].metadata == metadata
    && !HasId(t.entries, t'.entries[slug].id)
    && t' == t.(entries := t.entries[slug := t'.entries[slug]], nextId := t'.nextId)
  }

  /** The entry has the given fields; its id, its other fields and all else stay. */
  ghost predicate IsEntryChanged(t: Tables, t': Tables, slug: Slug, u: UpdateEntry) {
    && slug in t.entries && slug in t'.entries && t'.entries[slug].id == t.entries[slug].id
    && Given(u.name, t.entries[slug].name, t'.entries[slug].name)
    && GivenNullable(u.metadata, t.entries[slug].metadata, t'.entries[slug].metadata)
    && t' == t.(entries := t.entries[slug := t'.entries[slug]])
  }

  lemma EntryWritesAre(t: Tables, slug: Slug, name: string, metadata: Option<Json>, u: UpdateEntry)
    requires EntriesOk(t)
    ensures slug !in t.entries ==> IsEntryAdded(t, WithEntry(t, slug, name, metadata), slug, name, metadata)
    ensures slug in t.entries ==> IsEntryChanged(t, WithUpdate(t, slug, u), slug, u)
  {
  }

  /** `entries::create`. */
  method CreateEntry(db: Database, board: Slug, slug: Slug, name: string, metadata: Option<Json>)
    returns (r: Result<()>)
    requires db.Valid() && board in db.boards
    modifies db
    ensures db.Valid()
    ensures r == if !ValidSlug(slug) || !ValidName(name) then Failure(Validation)
                 else if slug in old(db.boards)[board].entries then Failure(Conflict)
                 else Success(())
    ensures r.Success? <==> IsSlug(slug) && 0 < |name| < 257 && slug !in old(db.boards)[board].entries
    ensures db.boards ==
            if r.Success? then old(db.boards)[board := WithEntry(old(db.boards)[board], slug, name, metadata)]
            else old(db.boards)
    ensures r.Success? ==> IsEntryAdded(old(db.boards)[board], db.boards[board], slug, name, metadata)
  {
    ValidSlugIs(slug);
    ValidSlugIs(name);
    EntryWritesAre(db.boards[board], slug, name, metadata, UpdateEntry(None, Absent));
    hide IsSlug, IsEntryAdded;
    if !ValidSlug(slug) || !ValidName(name) {
      return Failure(Validation);
    }
    if slug in db.boards[board].entries {
      return Failure(Conflict);
    }
    EntryKeepsKeys(db.boards[board], slug, name, metadata);
    db.boards := db.boards[board := WithEntry(db.boards[board], slug, name, metadata)];
    return Success(());
  }

  lemma EntryKeepsKeys(t: Tables, slug: Slug, name: string, metadata: Option<Json>)
    requires WellFormed(t) && ValidSlug(slug) && ValidName(name) && slug !in t.entries
    ensures WellFormed(WithEntry(t, slug, name, metadata))
  {
    var t' := WithEntry(t, slug, name, metadata);
    forall id | HasId(t.entries, id) ensures HasId(t'.entries, id) {
      var s :| s in t.entries && t.entries[s].id == id;
      assert t'.entries[s].id == id;
    }
  }

  function UpdatedEntry(e: EntryRow, u: UpdateEntry): EntryRow {
    e.(name := u.name.GetOr(e.name), metadata := u.metadata.Apply(e.metadata))
  }

  /** `entries::update`. */
  method EntryUpdate(db: Database, board: Slug, slug: Slug, u: UpdateEntry) returns (r: Result<()>)
    requires db.Valid() && board in db.boards
    modifies db
    ensures db.Valid()
    ensures r == if u.name.Some? && !ValidName(u.name.value) then Failure(Validation)
                 else if slug !in old(db.boards)[board].entries then Failure(NotFound)
                 else Success(())
    ensures db.boards ==
            if r.Success? then old(db.boards)[board := WithUpdate(old(db.boards)[board], slug, u)]
            else old(db.boards)
    ensures r.Success? ==> IsEntryChanged(old(db.boards)[board], db.boards[board], slug, u)
  {
    EntryWritesAre(db.boards[board], slug, "", None, u);
    hide IsEntryChanged;
    if u.name.Some? && !ValidName(u.name.value) {
      return Failure(Validation);
    }
    if slug !in db.boards[board].entries {
      return Failure(NotFound);
    }
    UpdateKeepsKeys(db.boards[board], slug, u);
    db.boards := db.boards[board := WithUpdate(db.boards[board], slug, u)];
    return Success(());
  }

  function WithUpdate(t: Tables, slug: Slug, u: UpdateEntry): Tables
    requires slug in t.entries
  {
    t.(entries := t.entries[slug := UpdatedEntry(t.entries[slug], u)])
  }

  lemma UpdateKeepsKeys(t: Tables, slug: Slug, u: UpdateEntry)
    requires WellFormed(t) && slug in t.entries && (u.name.Some? ==> ValidName(u.name.value))
    ensures WellFormed(WithUpdate(t, slug, u))
  {
    var t' := WithUpdate(t, slug, u);
    forall id | HasId(t.entries, id) ensures HasId(t'.entries, id) {
      var s :| s in t.entries && t.entries[s].id == id;
      assert t'.entries[s].id == id;
    }
  }

  predicate IsPlaced(t: Tables, e: EntryId) {
    exists i :: 0 <= i < |t.placements| && t.placements[i].entryId == e
  }

  /** DELETE FROM entries, with ON DELETE CASCADE to placements and staged scores. */
  function Without(t: Tables, slug: Slug): Tables
    requires slug in t.entries
  {
    var e := t.entries[slug].id;
    t.(entries := t.entries - {slug},
       placements := Filter((p: Placement) => p.entryId != e, t.placements),
       accumulated := t.accumulated - {e})
  }

  /** Without placements the cascade removes none, so no version changes. */
  lemma UnplacedCascade(t: Tables, slug: Slug)
    requires WellFormed(t) && slug in t.entries && !IsPlaced(t, t.entries[slug].id)
    ensures Without(t, slug).placements == t.placements
    ensures WellFormed(Without(t, slug))
  {
    var e := t.entries[slug].id;
    var t' := Without(t, slug);
    FilterAll((p: Placement) => p.entryId != e, t.placements);
    forall id | HasId(t.entries, id) && id != e ensures HasId(t'.entries, id) {
      var s :| s in t.entries && t.entries[s].id == id;
      assert t'.entries[s].id == id;
    }
  }

  /** `entries::delete`: refused while any version places the entry, so that no
      version ever loses a row. */
  method DeleteEntry(db: Database, board: Slug, slug: Slug) returns (r: Result<()>)
    requires db.Valid() && board in db.boards
    modifies db
    ensures db.Valid()
    ensures var t := old(db.boards)[board];
            r == if slug !in t.entries then Failure(NotFound)
                 else if exists i :: 0 <= i < |t.placements| && t.placements[i].entryId == t.entries[slug].id
                 then Failure(Conflict) else Success(())
    ensures r.Failure? ==> db.boards == old(db.boards)
    ensures r.Success? ==>
              var t := old(db.boards)[board];
              db.boards == old(db.boards)[board := t.(
                entries := t.entries - {slug}, accumulated := t.accumulated - {t.entries[slug].id})]
  {
    if slug !in db.boards[board].entries {
      return Failure(NotFound);
    }
    var t := db.boards[board];
    if IsPlaced(t, t.entries[slug].id) {
      return Failure(Conflict);
    }
    UnplacedCascade(t, slug);
    hide WellFormed;
    db.boards := db.boards[board := Without(t, slug)];
    return Success(());
  }
}
