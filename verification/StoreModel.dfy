/** One board in two stores, PostgreSQL and Redis, as a machine whose steps are
    the round trips of `versions.rs`, `scores.rs`, `realtime.rs`, `entries.rs`
    and `boards.rs`. Any number of calls interleave step by step; every call can
    fail at every step. */
module StoreModel {
  import opened Core
  import opened Ordering
  import opened Ranking

  type Tid = nat
  type SnapId = nat
  type WriteId = nat

  /** A member of the Redis sorted set, with the write that put it there. */
  datatype Cell = Cell(score: Float64, write: WriteId)

  datatype WriteRecord = WriteRecord(slug: Slug, score: Float64)

  /** A placement row; `write` remembers which Redis write it came from, if any. */
  datatype Row = Row(
    entryId: EntryId,
    position: Option<int>,
    score: Option<Float64>,
    tier: Option<string>,
    metadata: Option<Json>,
    write: Option<WriteId>)

  /** Where a version's rows come from. */
  datatype Origin = FromInput | FromAccumulated | FromWorkingSet | FromSnapshotKey(key: SnapId)

  datatype VersionRow = VersionRow(
    number: int, note: Option<string>, metadata: Option<Json>, rows: seq<Row>, origin: Origin)

  /** What the caller of a version-writing call passes along. */
  datatype Request = Request(
    maxVersions: Option<int>, maxEntries: Option<int>, note: Option<string>, metadata: Option<Json>)

  /** A row to insert, before its entry is resolved. */
  datatype Proposal = Proposal(
    slug: Slug,
    known: Option<EntryId>,
    position: Option<int>,
    score: Option<Float64>,
    tier: Option<string>,
    metadata: Option<Json>,
    write: Option<WriteId>)

  /** A version-writing transaction: `versions::create` (FromInput),
      `scores::snapshot` (FromAccumulated) or `realtime::snapshot`. */
  datatype Tx = Tx(origin: Origin, input: seq<Proposal>, request: Request)

  /** Where a call stands between two round trips. */
  datatype Pc =
    | Idle
    | SubmitEntry(slug: Slug, name: string, score: Float64)
    | SubmitScore(slug: Slug, name: string, score: Float64)
    | SnapScores(request: Request)
    | SnapNames(request: Request)
    | SnapRename(request: Request, both: bool)
    | WantLock(tx: Tx)
    | Locked(tx: Tx)
    | Counted(tx: Tx)
    | ReadDone(tx: Tx, proposals: seq<Proposal>)
    | Numbered(tx: Tx, proposals: seq<Proposal>, number: int)
    | Inserted(tx: Tx, proposals: seq<Proposal>, number: int)
    | Placing(tx: Tx, number: int, todo: seq<Row>, done: seq<Row>)
    | Refused(tx: Tx)
    | Cleanup(tx: Tx)
    | DeleteLocked(entry: EntryId)
    | DeleteCounted(entry: EntryId)

  /** PostgreSQL. `slugOf` remembers every entry id ever used. */
  datatype Pg = Pg(
    scored: bool,
    direction: Direction,
    entries: map<Slug, EntryRow>,
    versions: seq<VersionRow>,
    accumulated: map<EntryId, Float64>,
    slugOf: map<EntryId, Slug>)

  /** Redis: the working sorted set and name hash, and the snapshot keys. The last
      six fields are the history of the run: all writes, every set that a RENAME
      moved, and what became of writes that are in no set any more. */
  datatype Redis = Redis(
    work: map<Slug, Cell>,
    names: map<Slug, string>,
    snaps: map<SnapId, map<Slug, Cell>>,
    writes: seq<WriteRecord>,
    renamed: map<SnapId, map<Slug, Cell>>,
    overwritten: map<WriteId, WriteId>,
    dropped: set<WriteId>,
    cleared: set<WriteId>)

  /** `imported` is the number of versions the board started with. */
  datatype State = State(pg: Pg, redis: Redis, threads: map<Tid, Pc>, imported: nat)

  datatype Action =
    | StartSubmit(t: Tid, slug: Slug, name: string, score: Float64)
    | UpsertEntry(t: Tid, newId: EntryId)
    | WriteScore(t: Tid)
    | StartSnapshot(t: Tid, clear: bool, request: Request)
    | CheckScores(t: Tid)
    | CheckNames(t: Tid)
    | Rename(t: Tid, key: SnapId)
    | StartCreate(t: Tid, input: seq<Proposal>, request: Request)
    | StartAccumulated(t: Tid, request: Request)
    | LockBoard(t: Tid)
    | CountVersions(t: Tid)
    | ReadRows(t: Tid, proposals: seq<Proposal>)
    | NextNumber(t: Tid)
    | InsertVersion(t: Tid)
    | ResolveEntries(t: Tid)
    | InsertPlacement(t: Tid)
    | Commit(t: Tid)
    | DeleteSnapKeys(t: Tid, ok: bool)
    | Abort(t: Tid)
    | StartDelete(t: Tid, slug: Slug)
    | CountPlacements(t: Tid)
    | DeleteEntry(t: Tid)
    | UpdateEntry(slug: Slug, name: string, metadata: Option<Json>)
    | CreateEntry(slug: Slug, name: string, metadata: Option<Json>, newId: EntryId)
    | UpdateBoard(direction: Direction)
    | SubmitAccumulated(slug: Slug, name: string, score: Float64, newId: EntryId)
    | ClearKeys

  function At(s: State, t: Tid): Pc {
    if t in s.threads then s.threads[t] else Idle
  }

  // ------------------------------------------------------------------ locks

  /** SELECT * FROM boards ... FOR UPDATE, until the transaction ends. */
  predicate HoldsBoard(pc: Pc) {
    pc.Locked? || pc.Counted? || pc.ReadDone? || pc.Numbered? || pc.Inserted? || pc.Placing? || pc.Refused?
  }

  ghost predicate BoardFree(threads: map<Tid, Pc>) {
    forall t | t in threads :: !HoldsBoard(threads[t])
  }

  /** FOR UPDATE on an entry row (`entries::delete`). */
  predicate HoldsUpdate(pc: Pc, e: EntryId) {
    (pc.DeleteLocked? || pc.DeleteCounted?) && pc.entry == e
  }

  predicate HasEntry(rows: seq<Row>, e: EntryId) {
    exists j :: 0 <= j < |rows| && rows[j].entryId == e
  }

  /** FOR KEY SHARE on an entry row, taken by inserting a placement that refers to it. */
  predicate HoldsShare(pc: Pc, e: EntryId) {
    pc.Placing? && HasEntry(pc.done, e)
  }

  ghost predicate NoUpdateLock(threads: map<Tid, Pc>, e: EntryId) {
    forall t | t in threads :: !HoldsUpdate(threads[t], e)
  }

  ghost predicate NoEntryLock(threads: map<Tid, Pc>, e: EntryId) {
    NoUpdateLock(threads, e) && forall t | t in threads :: !HoldsShare(threads[t], e)
  }

  /** The entry is in the table: ids are never reused and slugs never change. */
  predicate Live(entries: map<Slug, EntryRow>, slugOf: map<EntryId, Slug>, e: EntryId) {
    e in slugOf && slugOf[e] in entries && entries[slugOf[e]].id == e
  }

  // ---------------------------------------------------------------- queries

  /** COALESCE(MAX(version_number), 0). */
  function MaxNumber(versions: seq<VersionRow>): int {
    if versions == [] then 0
    else
      var rest := MaxNumber(versions[..|versions| - 1]);
      var last := versions[|versions| - 1].number;
      if |versions| == 1 || last > rest then last else rest
  }

  /** ON DELETE CASCADE from entries to placements. */
  function Cascade(versions: seq<VersionRow>, e: EntryId): seq<VersionRow> {
    if versions == [] then []
    else
      [versions[0].(rows := Filter((r: Row) => r.entryId != e, versions[0].rows))]
      + Cascade(versions[1..], e)
  }

  function RowItem(r: Row): Item {
    Item(r.entryId, r.score)
  }

  function RowItems(rows: seq<Row>): set<Item> {
    set r | r in rows :: RowItem(r)
  }

  /** `derive_scored_positions` on the rows of the new version. */
  function RankedRows(dir: Direction, rows: seq<Row>): (r: seq<Row>)
    ensures |r| == |rows|
  {
    seq(|rows|, i requires 0 <= i < |rows| =>
      rows[i].(position := Some(Rank(ItemOrder(dir), RowItems(rows), RowItem(rows[i])))))
  }

  /** A read of the sorted set in any order: every member once. */
  ghost predicate ListsCells(ps: seq<Proposal>, m: map<Slug, Cell>) {
    && (forall i | 0 <= i < |ps| :: ProposalIs(ps[i], m))
    && (forall i, j | 0 <= i < j < |ps| :: ps[i].slug != ps[j].slug)
    && (forall slug | slug in m :: exists i :: 0 <= i < |ps| && ps[i].slug == slug)
  }

  predicate ProposalIs(p: Proposal, m: map<Slug, Cell>) {
    && p.slug in m && p.known == None
    && p.score == Some(m[p.slug].score) && p.write == Some(m[p.slug].write)
    && p.position == None && p.tier == None && p.metadata == None
  }

  ghost predicate ListsAccumulated(accumulated: map<EntryId, Float64>, ps: seq<Proposal>) {
    && (forall i | 0 <= i < |ps| ::
          && ps[i].known.Some? && ps[i].known.value in accumulated
          && ps[i].score == Some(accumulated[ps[i].known.value]) && ps[i].write == None
          && ps[i].position == None && ps[i].tier == None && ps[i].metadata == None)
    && (forall i, j | 0 <= i < j < |ps| :: ps[i].known != ps[j].known)
    && (forall e | e in accumulated :: exists i :: 0 <= i < |ps| && ps[i].known == Some(e))
  }

  /** What the transaction's read returns. */
  ghost predicate Reads(pg: Pg, redis: Redis, tx: Tx, ps: seq<Proposal>) {
    match tx.origin
    case FromInput => ps == tx.input && forall i | 0 <= i < |ps| :: ps[i].known == None && ps[i].write == None
    case FromAccumulated => ListsAccumulated(pg.accumulated, ps)
    case FromWorkingSet => ListsCells(ps, redis.work)
    case FromSnapshotKey(k) => ListsCells(ps, if k in redis.snaps then redis.snaps[k] else map[])
  }

  predicate OverLimit(versions: seq<VersionRow>, tx: Tx) {
    tx.request.maxVersions.Some? && |versions| >= tx.request.maxVersions.value
  }

  /** No rows, or more than the limit: checked by the two snapshots. */
  predicate TooFewOrMany(tx: Tx, n: int) {
    !tx.origin.FromInput?
    && (n == 0 || (tx.request.maxEntries.Some? && n > tx.request.maxEntries.value))
  }

  /** A proposal finds its entry. */
  predicate Resolvable(entries: map<Slug, EntryRow>, p: Proposal) {
    p.known.Some? || p.slug in entries
  }

  predicate AllResolvable(entries: map<Slug, EntryRow>, ps: seq<Proposal>) {
    forall i | 0 <= i < |ps| :: Resolvable(entries, ps[i])
  }

  function Resolved(entries: map<Slug, EntryRow>, p: Proposal): Row
    requires Resolvable(entries, p)
  {
    Row(if p.known.Some? then p.known.value else entries[p.slug].id,
        p.position, p.score, p.tier, p.metadata, p.write)
  }

  function ResolvedAll(entries: map<Slug, EntryRow>, ps: seq<Proposal>): (r: seq<Row>)
    requires AllResolvable(entries, ps)
    ensures |r| == |ps|
  {
    seq(|ps|, i requires 0 <= i < |ps| => Resolved(entries, ps[i]))
  }

  ghost predicate IsPlaced(versions: seq<VersionRow>, e: EntryId) {
    exists i :: 0 <= i < |versions| && HasEntry(versions[i].rows, e)
  }

  /** UNIQUE (board_id, version_number). */
  ghost predicate IsNewNumber(versions: seq<VersionRow>, number: int) {
    forall i | 0 <= i < |versions| :: versions[i].number != number
  }

  function WritesOf(m: map<Slug, Cell>): set<WriteId> {
    set slug | slug in m :: m[slug].write
  }

  // ------------------------------------------------------------------ steps

  /** Steps of a call; the others are whole statements of other endpoints. */
  predicate HasCaller(a: Action) {
    !a.UpdateEntry? && !a.CreateEntry? && !a.UpdateBoard? && !a.SubmitAccumulated? && !a.ClearKeys?
  }

  /** Steps that read the stores but change only the call's own position. */
  predicate IsLocal(a: Action) {
    a.StartSubmit? || a.StartSnapshot? || a.CheckScores? || a.CheckNames? || a.StartCreate?
    || a.StartAccumulated? || a.LockBoard? || a.CountVersions? || a.ReadRows? || a.NextNumber?
    || a.InsertVersion? || a.ResolveEntries? || a.InsertPlacement? || a.Abort? || a.StartDelete?
    || a.CountPlacements?
  }

  /** Where the caller must be. */
  predicate PcReady(pc: Pc, a: Action) {
    match a
    case StartSubmit(_, slug, name, score) =>
      pc == Idle && IsFinite(score) && ValidSlug(slug) && ValidName(name)
    case UpsertEntry(_, _) => pc.SubmitEntry?
    case WriteScore(_) => pc.SubmitScore?
    case StartSnapshot(_, _, _) => pc == Idle
    case CheckScores(_) => pc.SnapScores?
    case CheckNames(_) => pc.SnapNames?
    case Rename(_, _) => pc.SnapRename?
    case StartCreate(_, _, _) => pc == Idle
    case StartAccumulated(_, _) => pc == Idle
    case LockBoard(_) => pc.WantLock?
    case CountVersions(_) => pc.Locked?
    case ReadRows(_, _) => pc.Counted?
    case NextNumber(_) => pc.ReadDone?
    case InsertVersion(_) => pc.Numbered?
    case ResolveEntries(_) => pc.Inserted?
    case InsertPlacement(_) => pc.Placing? && pc.todo != []
    case Commit(_) => pc.Placing? && pc.todo == []
    case DeleteSnapKeys(_, _) => pc.Refused? || pc.Cleanup?
    case Abort(_) => true
    case StartDelete(_, _) => pc == Idle
    case CountPlacements(_) => pc.DeleteLocked?
    case DeleteEntry(_) => pc.DeleteCounted?
    case _ => true
  }

  predicate CanUpsert(pg: Pg, slug: Slug, newId: EntryId) {
    slug in pg.entries || newId !in pg.slugOf
  }

  /** Keys of PostgreSQL: primary, unique and foreign. */
  ghost predicate PgReady(pg: Pg, pc: Pc, a: Action)
    requires PcReady(pc, a)
  {
    match a
    case UpsertEntry(_, newId) => CanUpsert(pg, pc.slug, newId)
    case InsertVersion(_) => IsNewNumber(pg.versions, pc.number)
    case InsertPlacement(_) =>
      Live(pg.entries, pg.slugOf, pc.todo[0].entryId) && !HasEntry(pc.done, pc.todo[0].entryId)
    case StartDelete(_, slug) => slug in pg.entries
    case DeleteEntry(_) => Live(pg.entries, pg.slugOf, pc.entry)
    case UpdateEntry(slug, _, _) => slug in pg.entries
    case CreateEntry(slug, _, _, newId) => slug !in pg.entries && newId !in pg.slugOf
    case SubmitAccumulated(slug, _, score, newId) => IsFinite(score) && CanUpsert(pg, slug, newId)
    case _ => true
  }

  /** Row locks: a statement waits until no other transaction excludes it. */
  ghost predicate LocksFree(pg: Pg, threads: map<Tid, Pc>, pc: Pc, a: Action)
    requires PcReady(pc, a) && PgReady(pg, pc, a)
  {
    match a
    case UpsertEntry(_, _) => pc.slug in pg.entries ==> NoUpdateLock(threads, pg.entries[pc.slug].id)
    case LockBoard(_) => BoardFree(threads)
    case InsertPlacement(_) => NoUpdateLock(threads, pc.todo[0].entryId)
    case StartDelete(_, slug) => NoEntryLock(threads, pg.entries[slug].id)
    case UpdateEntry(slug, _, _) => NoEntryLock(threads, pg.entries[slug].id)
    case UpdateBoard(_) => BoardFree(threads)
    case SubmitAccumulated(slug, _, _, _) =>
      slug in pg.entries ==> NoUpdateLock(threads, pg.entries[slug].id)
    case _ => true
  }

  ghost predicate Enabled(s: State, a: Action) {
    var pc := if HasCaller(a) then At(s, a.t) else Idle;
    && PcReady(pc, a) && PgReady(s.pg, pc, a) && LocksFree(s.pg, s.threads, pc, a)
    && (a.Rename? ==> a.key !in s.redis.renamed)
    && (a.ReadRows? ==> Reads(s.pg, s.redis, pc.tx, a.proposals))
  }

  /** Where the caller stands after the step. */
  ghost function Next(pg: Pg, redis: Redis, pc: Pc, a: Action): Pc
    requires HasCaller(a) && PcReady(pc, a) && PgReady(pg, pc, a)
  {
    match a
    case StartSubmit(t, slug, name, score) => SubmitEntry(slug, name, score)
    case UpsertEntry(t, newId) => SubmitScore(pc.slug, pc.name, pc.score)
    case WriteScore(t) => Idle
    case StartSnapshot(t, clear, request) =>
      if clear then SnapScores(request) else WantLock(Tx(FromWorkingSet, [], request))
    case CheckScores(t) => if redis.work == map[] then Idle else SnapNames(pc.request)
    case CheckNames(t) => SnapRename(pc.request, redis.names != map[])
    case Rename(t, key) =>
      // a failing command ends the call, even when the other one succeeded
      if redis.work == map[] || (pc.both && redis.names == map[]) then Idle
      else WantLock(Tx(FromSnapshotKey(key), [], pc.request))
    case StartCreate(t, input, request) => WantLock(Tx(FromInput, input, request))
    case StartAccumulated(t, request) => WantLock(Tx(FromAccumulated, [], request))
    case LockBoard(t) => Locked(pc.tx)
    case CountVersions(t) => if OverLimit(pg.versions, pc.tx) then Refused(pc.tx) else Counted(pc.tx)
    case ReadRows(t, ps) => if TooFewOrMany(pc.tx, |ps|) then Refused(pc.tx) else ReadDone(pc.tx, ps)
    case NextNumber(t) => Numbered(pc.tx, pc.proposals, MaxNumber(pg.versions) + 1)
    case InsertVersion(t) => Inserted(pc.tx, pc.proposals, pc.number)
    case ResolveEntries(t) =>
      if AllResolvable(pg.entries, pc.proposals)
      then Placing(pc.tx, pc.number, ResolvedAll(pg.entries, pc.proposals), [])
      else Idle
    case InsertPlacement(t) => pc.(todo := pc.todo[1..], done := pc.done + [pc.todo[0]])
    case Commit(t) => Cleanup(pc.tx)
    case DeleteSnapKeys(t, ok) => Idle
    case Abort(t) => Idle
    case StartDelete(t, slug) => DeleteLocked(pg.entries[slug].id)
    case CountPlacements(t) => if IsPlaced(pg.versions, pc.entry) then Idle else DeleteCounted(pc.entry)
    case DeleteEntry(t) => Idle
  }

  /** PostgreSQL after the step. */
  ghost function PgWritten(pg: Pg, pc: Pc, a: Action): Pg
    requires PcReady(pc, a) && PgReady(pg, pc, a)
  {
    match a
    case UpsertEntry(t, newId) => Upserted(pg, pc.slug, pc.name, newId)
    case Commit(t) => pg.(versions := pg.versions + [NewVersion(pg, pc)])
    case DeleteEntry(t) =>
      pg.(entries := pg.entries - {pg.slugOf[pc.entry]},
          versions := Cascade(pg.versions, pc.entry),
          accumulated := pg.accumulated - {pc.entry})
    case UpdateEntry(slug, name, metadata) =>
      pg.(entries := pg.entries[slug := pg.entries[slug].(name := name, metadata := metadata)])
    case CreateEntry(slug, name, metadata, newId) =>
      pg.(entries := pg.entries[slug := EntryRow(newId, name, metadata)], slugOf := pg.slugOf[newId := slug])
    case UpdateBoard(direction) => pg.(direction := direction)
    case SubmitAccumulated(slug, name, score, newId) =>
      var id := if slug in pg.entries then pg.entries[slug].id else newId;
      Upserted(pg.(accumulated := pg.accumulated[id := score]), slug, name, newId)
    case _ => pg
  }

  /** INSERT ... ON CONFLICT (board_id, slug) DO UPDATE SET name. */
  function Upserted(pg: Pg, slug: Slug, name: string, newId: EntryId): Pg {
    if slug in pg.entries then pg.(entries := pg.entries[slug := pg.entries[slug].(name := name)])
    else pg.(entries := pg.entries[slug := EntryRow(newId, name, None)], slugOf := pg.slugOf[newId := slug])
  }

  /** The version row and its placements, as they become visible at commit. */
  function NewVersion(pg: Pg, pc: Pc): VersionRow
    requires pc.Placing?
  {
    VersionRow(pc.number, pc.tx.request.note, pc.tx.request.metadata,
               if pg.scored then RankedRows(pg.direction, pc.done) else pc.done, pc.tx.origin)
  }

  /** Redis after the step. */
  function RedisWritten(redis: Redis, pc: Pc, a: Action): Redis
    requires PcReady(pc, a)
  {
    match a
    case WriteScore(t) => ScoreWritten(redis, pc)
    case Rename(t, key) => Renamed(redis, pc, key)
    case DeleteSnapKeys(t, ok) => KeysDeleted(redis, pc, ok)
    case ClearKeys => redis.(work := map[], names := map[], cleared := redis.cleared + WritesOf(redis.work))
    case _ => redis
  }

  /** MULTI; ZADD; HSET; EXEC. */
  function ScoreWritten(redis: Redis, pc: Pc): Redis
    requires pc.SubmitScore?
  {
    var w := |redis.writes|;
    redis.(
      work := redis.work[pc.slug := Cell(pc.score, w)],
      names := redis.names[pc.slug := pc.name],
      writes := redis.writes + [WriteRecord(pc.slug, pc.score)],
      overwritten := if pc.slug in redis.work then redis.overwritten[redis.work[pc.slug].write := w]
                     else redis.overwritten)
  }

  /** RENAME of the score key, alone or in a transaction with the name key. A
      failing command of a Redis transaction does not undo the others. */
  function Renamed(redis: Redis, pc: Pc, key: SnapId): Redis
    requires pc.SnapRename?
  {
    var moved := redis.work != map[];
    redis.(
      work := map[],
      names := if pc.both then map[] else redis.names,
      snaps := if moved then redis.snaps[key := redis.work] else redis.snaps,
      renamed := if moved then redis.renamed[key := redis.work] else redis.renamed)
  }

  /** `delete_snap_keys`, best effort; after a refusal it drops what the keys held. */
  function KeysDeleted(redis: Redis, pc: Pc, ok: bool): Redis
    requires pc.Refused? || pc.Cleanup?
  {
    if ok && pc.tx.origin.FromSnapshotKey? && pc.tx.origin.key in redis.snaps then
      var k := pc.tx.origin.key;
      redis.(
        snaps := redis.snaps - {k},
        dropped := if pc.Refused? then redis.dropped + WritesOf(redis.snaps[k]) else redis.dropped)
    else redis
  }

  ghost function Apply(s: State, a: Action): State
    requires Enabled(s, a)
  {
    if HasCaller(a) then
      var pc := At(s, a.t);
      State(PgWritten(s.pg, pc, a), RedisWritten(s.redis, pc, a),
            s.threads[a.t := Next(s.pg, s.redis, pc, a)], s.imported)
    else State(PgWritten(s.pg, Idle, a), RedisWritten(s.redis, Idle, a), s.threads, s.imported)
  }

  // ------------------------------------------------------------------- runs

  /** A run is a list of actions, each enabled where it happens. */
  ghost predicate Legal(s: State, run: seq<Action>)
    decreases |run|
  {
    run == [] || (Enabled(s, run[0]) && Legal(Apply(s, run[0]), run[1..]))
  }

  ghost function Exec(s: State, run: seq<Action>): State
    requires Legal(s, run)
    decreases |run|
  {
    if run == [] then s else Exec(Apply(s, run[0]), run[1..])
  }

  /** A board before any call: possibly imported, with distinct positive version
      numbers; nothing in Redis. */
  ghost predicate Initial(s: State) {
    && s.threads == map[]
    && s.redis == Redis(map[], map[], map[], [], map[], map[], {}, {})
    && s.imported == |s.pg.versions|
    && (forall slug | slug in s.pg.entries ::
          s.pg.entries[slug].id in s.pg.slugOf && s.pg.slugOf[s.pg.entries[slug].id] == slug)
    && (forall i | 0 <= i < |s.pg.versions| ::
          s.pg.versions[i].number > 0 && s.pg.versions[i].origin == FromInput
          && forall j | 0 <= j < |s.pg.versions[i].rows| ::
               Live(s.pg.entries, s.pg.slugOf, s.pg.versions[i].rows[j].entryId)
               && s.pg.versions[i].rows[j].write == None)
    && (forall i, j | 0 <= i < j < |s.pg.versions| ::
          s.pg.versions[i].number != s.pg.versions[j].number)
    && (forall e | e in s.pg.accumulated :: Live(s.pg.entries, s.pg.slugOf, e))
  }
}
