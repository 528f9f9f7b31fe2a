/** PostgreSQL's side of the two-store machine: locks, foreign keys and version
    numbers, as every step keeps them. */
module StoreInvariants {
  import opened Core
  import opened Ordering
  import opened StoreModel

  type Threads = map<Tid, Pc>
  type Entries = map<Slug, EntryRow>
  type SlugOf = map<EntryId, Slug>

  /** The position the step starts from. */
  function From(s: State, a: Action): Pc {
    if HasCaller(a) then At(s, a.t) else Idle
  }

  lemma Effects(s: State, a: Action)
    requires Enabled(s, a)
    ensures var pc := From(s, a);
            && PcReady(pc, a) && PgReady(s.pg, pc, a) && LocksFree(s.pg, s.threads, pc, a)
            && Apply(s, a).pg == PgWritten(s.pg, pc, a)
            && Apply(s, a).redis == RedisWritten(s.redis, pc, a)
            && Apply(s, a).threads ==
                 (if HasCaller(a) then s.threads[a.t := Next(s.pg, s.redis, pc, a)] else s.threads)
            && Apply(s, a).imported == s.imported
  {
    hide Next, PgWritten, RedisWritten, PcReady, PgReady, LocksFree;
  }

  // --------------------------------------------------------- the board lock

  /** At most one transaction holds the board row. */
  ghost predicate BoardInv(threads: Threads) {
    forall t, u | t in threads && u in threads :: HoldsBoard(threads[t]) && HoldsBoard(threads[u]) ==> t == u
  }

  /** Only LockBoard takes the lock. */
  lemma BoardHolder(pg: Pg, redis: Redis, pc: Pc, a: Action)
    requires HasCaller(a) && PcReady(pc, a) && PgReady(pg, pc, a) && HoldsBoard(Next(pg, redis, pc, a))
    ensures HoldsBoard(pc) || a.LockBoard?
  {
  }

  /** While one transaction holds the board, no other is past the lock. */
  lemma OthersWait(threads: Threads, t: Tid)
    requires BoardInv(threads) && t in threads && HoldsBoard(threads[t])
    ensures forall u | u in threads && u != t :: !PastCount(threads[u]) && !HasNumber(threads[u])
  {
    forall u | u in threads && u != t ensures !HoldsBoard(threads[u]) {
    }
  }

  lemma BoardSet(threads: Threads, t: Tid, pc: Pc)
    requires BoardInv(threads)
    requires HoldsBoard(pc) ==> (t in threads && HoldsBoard(threads[t])) || BoardFree(threads)
    ensures BoardInv(threads[t := pc])
  {
  }

  lemma BoardStep(s: State, a: Action)
    requires Enabled(s, a) && BoardInv(s.threads)
    ensures BoardInv(Apply(s, a).threads)
  {
    Effects(s, a);
    assert a.LockBoard? ==> BoardFree(s.threads);
    hide Enabled, Apply, Next, LocksFree, PgReady, PcReady, PgWritten, RedisWritten;
    if HasCaller(a) {
      var pc := Next(s.pg, s.redis, From(s, a), a);
      if HoldsBoard(pc) {
        BoardHolder(s.pg, s.redis, From(s, a), a);
      }
      BoardSet(s.threads, a.t, pc);
    }
  }

  // ------------------------------------------------------------ entry locks

  /** FOR UPDATE excludes every other lock on the entry. */
  ghost predicate LockInv(threads: Threads) {
    forall t, u, e | t in threads && u in threads && HoldsUpdate(threads[t], e) ::
      !HoldsShare(threads[u], e) && (HoldsUpdate(threads[u], e) ==> t == u)
  }

  /** What the caller's new position locks, it held before or could lock. */
  ghost predicate LocksAllowed(threads: Threads, was: Pc, pc: Pc) {
    && (forall e | HoldsShare(pc, e) :: HoldsShare(was, e) || NoUpdateLock(threads, e))
    && (forall e | HoldsUpdate(pc, e) :: HoldsUpdate(was, e) || NoEntryLock(threads, e))
  }

  lemma LockSet(threads: Threads, t: Tid, pc: Pc)
    requires LockInv(threads) && LocksAllowed(threads, if t in threads then threads[t] else Idle, pc)
    ensures LockInv(threads[t := pc])
  {
    hide HasEntry;
    var was := if t in threads then threads[t] else Idle;
    assert forall e :: HoldsUpdate(pc, e) ==> !HoldsShare(pc, e);
    assert t !in threads ==> forall e :: !HoldsUpdate(was, e) && !HoldsShare(was, e);
    hide HoldsUpdate, HoldsShare;
    var after := threads[t := pc];
    forall u, v, e | u in after && v in after && HoldsUpdate(after[u], e)
      ensures !HoldsShare(after[v], e) && (HoldsUpdate(after[v], e) ==> u == v)
    {
      if u == t {
        assert HoldsUpdate(was, e) || NoEntryLock(threads, e);
      }
    }
  }

  lemma PlaceLocks(s: State, t: Tid)
    requires Enabled(s, InsertPlacement(t))
    ensures LocksAllowed(s.threads, At(s, t), Next(s.pg, s.redis, At(s, t), InsertPlacement(t)))
  {
    var was := At(s, t);
    var pc := Next(s.pg, s.redis, was, InsertPlacement(t));
    forall e | HoldsShare(pc, e) ensures HoldsShare(was, e) || NoUpdateLock(s.threads, e) {
      var j :| 0 <= j < |pc.done| && pc.done[j].entryId == e;
      assert j < |was.done| ==> was.done[j].entryId == e;
    }
  }

  lemma OtherLocks(s: State, a: Action)
    requires Enabled(s, a) && HasCaller(a) && !a.InsertPlacement?
    ensures LocksAllowed(s.threads, At(s, a.t), Next(s.pg, s.redis, At(s, a.t), a))
  {
    hide Resolvable, PgWritten, RedisWritten;
  }

  lemma LockStep(s: State, a: Action)
    requires Enabled(s, a) && LockInv(s.threads)
    ensures LockInv(Apply(s, a).threads)
  {
    Effects(s, a);
    if HasCaller(a) {
      if a.InsertPlacement? {
        PlaceLocks(s, a.t);
      } else {
        OtherLocks(s, a);
      }
      hide *;
      LockSet(s.threads, a.t, Next(s.pg, s.redis, At(s, a.t), a));
    }
  }

  // ------------------------------------------------------------- foreign keys

  ghost predicate IdsInv(entries: Entries, slugOf: SlugOf) {
    forall slug | slug in entries :: entries[slug].id in slugOf && slugOf[entries[slug].id] == slug
  }

  ghost predicate RowsLive(entries: Entries, slugOf: SlugOf, rows: seq<Row>) {
    forall j | 0 <= j < |rows| :: Live(entries, slugOf, rows[j].entryId)
  }

  ghost predicate VersionsLive(entries: Entries, slugOf: SlugOf, versions: seq<VersionRow>) {
    forall i | 0 <= i < |versions| :: RowsLive(entries, slugOf, versions[i].rows)
  }

  ghost predicate AccumulatedLive(entries: Entries, slugOf: SlugOf, accumulated: map<EntryId, Float64>) {
    forall e | e in accumulated :: Live(entries, slugOf, e)
  }

  ghost predicate PcLive(entries: Entries, slugOf: SlugOf, pc: Pc) {
    && (pc.Placing? ==> RowsLive(entries, slugOf, pc.done))
    && (pc.DeleteLocked? || pc.DeleteCounted? ==> Live(entries, slugOf, pc.entry))
  }

  ghost predicate ThreadsLive(entries: Entries, slugOf: SlugOf, threads: Threads) {
    forall t | t in threads :: PcLive(entries, slugOf, threads[t])
  }

  /** Between its count and its delete, `entries::delete` has a row no version uses. */
  ghost predicate CountInv(versions: seq<VersionRow>, threads: Threads) {
    forall t | t in threads && threads[t].DeleteCounted? :: !IsPlaced(versions, threads[t].entry)
  }

  /** Every placement, committed or pending, refers to an existing entry. */
  ghost predicate EntryInv(pg: Pg, threads: Threads) {
    && IdsInv(pg.entries, pg.slugOf)
    && VersionsLive(pg.entries, pg.slugOf, pg.versions)
    && AccumulatedLive(pg.entries, pg.slugOf, pg.accumulated)
    && ThreadsLive(pg.entries, pg.slugOf, threads)
    && LockInv(threads)
    && CountInv(pg.versions, threads)
  }

  lemma {:induction false} CascadeSpares(versions: seq<VersionRow>, e: EntryId)
    requires !IsPlaced(versions, e)
    ensures Cascade(versions, e) == versions
  {
    if versions != [] {
      FilterSpares(versions[0].rows, e);
      forall i | 0 <= i < |versions[1..]| ensures !HasEntry(versions[1..][i].rows, e) {
        assert !HasEntry(versions[i + 1].rows, e);
      }
      CascadeSpares(versions[1..], e);
    }
  }

  lemma {:induction false} FilterSpares(rows: seq<Row>, e: EntryId)
    requires !HasEntry(rows, e)
    ensures Filter((r: Row) => r.entryId != e, rows) == rows
  {
    if rows != [] {
      assert rows[0].entryId != e;
      forall j | 0 <= j < |rows[1..]| ensures rows[1..][j].entryId != e {
        assert rows[1..][j] == rows[j + 1];
      }
      FilterSpares(rows[1..], e);
    }
  }

  /** The only write to committed versions is a commit that appends one: the
      cascade of an entry delete never finds a placement. */
  lemma VersionsAfter(s: State, a: Action)
    requires Enabled(s, a) && CountInv(s.pg.versions, s.threads)
    ensures Apply(s, a).pg.versions ==
            if a.Commit? then s.pg.versions + [NewVersion(s.pg, At(s, a.t))] else s.pg.versions
  {
    Effects(s, a);
    if a.DeleteEntry? {
      CascadeSpares(s.pg.versions, At(s, a.t).entry);
    }
    hide Cascade, Next, RedisWritten, Apply, Enabled, LocksFree;
  }

  /** A live entry stays live unless this step deletes it. */
  lemma LiveKept(pg: Pg, pc: Pc, a: Action)
    requires PcReady(pc, a) && PgReady(pg, pc, a) && IdsInv(pg.entries, pg.slugOf)
    ensures var pg' := PgWritten(pg, pc, a);
            && (forall e | Live(pg.entries, pg.slugOf, e) && !(a.DeleteEntry? && pc.entry == e) ::
                  Live(pg'.entries, pg'.slugOf, e))
            && IdsInv(pg'.entries, pg'.slugOf)
            && (forall e | e in pg.slugOf :: e in pg'.slugOf && pg'.slugOf[e] == pg.slugOf[e])
  {
    hide Cascade;
  }

  lemma AccumulatedStep(pg: Pg, pc: Pc, a: Action)
    requires PcReady(pc, a) && PgReady(pg, pc, a) && IdsInv(pg.entries, pg.slugOf)
    requires AccumulatedLive(pg.entries, pg.slugOf, pg.accumulated)
    ensures var pg' := PgWritten(pg, pc, a);
            AccumulatedLive(pg'.entries, pg'.slugOf, pg'.accumulated)
  {
    hide Cascade;
  }

  /** A commit changes nothing of its rows but the position. */
  lemma CommitRows(pg: Pg, pc: Pc)
    requires pc.Placing?
    ensures var rows := NewVersion(pg, pc).rows;
            && |rows| == |pc.done|
            && forall j | 0 <= j < |rows| :: rows[j] == pc.done[j].(position := rows[j].position)
  {
  }

  lemma VersionsLiveStep(s: State, a: Action)
    requires Enabled(s, a) && EntryInv(s.pg, s.threads)
    ensures VersionsLive(Apply(s, a).pg.entries, Apply(s, a).pg.slugOf, Apply(s, a).pg.versions)
  {
    Effects(s, a);
    VersionsAfter(s, a);
    LiveKept(s.pg, From(s, a), a);
    if a.Commit? {
      CommitRows(s.pg, At(s, a.t));
      assert PcLive(s.pg.entries, s.pg.slugOf, s.threads[a.t]);
    }
    if a.DeleteEntry? {
      assert !IsPlaced(s.pg.versions, s.threads[a.t].entry);
    }
    var pg' := Apply(s, a).pg;
    hide Apply, Enabled, Live, NewVersion, PgReady, LocksFree, PgWritten, RedisWritten, Next;
    forall i, j | 0 <= i < |pg'.versions| && 0 <= j < |pg'.versions[i].rows|
      ensures Live(pg'.entries, pg'.slugOf, pg'.versions[i].rows[j].entryId)
    {
      if i < |s.pg.versions| {
        assert RowsLive(s.pg.entries, s.pg.slugOf, s.pg.versions[i].rows);
        assert a.DeleteEntry? ==> !HasEntry(s.pg.versions[i].rows, s.threads[a.t].entry);
      }
    }
  }

  lemma CallerLive(pg: Pg, redis: Redis, pc: Pc, a: Action)
    requires HasCaller(a) && PcReady(pc, a) && PgReady(pg, pc, a)
    requires IdsInv(pg.entries, pg.slugOf) && PcLive(pg.entries, pg.slugOf, pc)
    ensures PcLive(pg.entries, pg.slugOf, Next(pg, redis, pc, a))
    ensures a.DeleteEntry? ==> Next(pg, redis, pc, a) == Idle
  {
    hide Resolvable, AllResolvable;
  }

  /** A step that deletes no entry in use by the position keeps it live. */
  lemma PcLiveKept(pg: Pg, from: Pc, a: Action, pc: Pc)
    requires PcReady(from, a) && PgReady(pg, from, a)
    requires IdsInv(pg.entries, pg.slugOf) && PcLive(pg.entries, pg.slugOf, pc)
    requires a.DeleteEntry? ==> !HoldsShare(pc, from.entry) && !HoldsUpdate(pc, from.entry)
    ensures var pg' := PgWritten(pg, from, a); PcLive(pg'.entries, pg'.slugOf, pc)
  {
    LiveKept(pg, from, a);
    hide PgReady, PgWritten, Live;
  }

  lemma ThreadsLiveStep(s: State, a: Action)
    requires Enabled(s, a) && EntryInv(s.pg, s.threads)
    ensures ThreadsLive(Apply(s, a).pg.entries, Apply(s, a).pg.slugOf, Apply(s, a).threads)
  {
    Effects(s, a);
    var s' := Apply(s, a);
    var from := From(s, a);
    if HasCaller(a) {
      assert PcLive(s.pg.entries, s.pg.slugOf, from);
      CallerLive(s.pg, s.redis, from, a);
    }
    assert a.DeleteEntry? ==> HoldsUpdate(s.threads[a.t], from.entry);
    hide Apply, Enabled, Next, PgWritten, RedisWritten, Live, PgReady, LocksFree;
    forall t | t in s'.threads ensures PcLive(s'.pg.entries, s'.pg.slugOf, s'.threads[t]) {
      if HasCaller(a) && t == a.t {
        PcLiveKept(s.pg, from, a, s'.threads[t]);
      } else {
        assert PcLive(s.pg.entries, s.pg.slugOf, s.threads[t]);
        PcLiveKept(s.pg, from, a, s.threads[t]);
      }
    }
  }

  lemma CallerCounted(pg: Pg, redis: Redis, pc: Pc, a: Action)
    requires HasCaller(a) && PcReady(pc, a) && PgReady(pg, pc, a)
    ensures Next(pg, redis, pc, a).DeleteCounted? ==>
              (a.CountPlacements? && !IsPlaced(pg.versions, Next(pg, redis, pc, a).entry))
    ensures a.Commit? ==> pc.Placing? && !Next(pg, redis, pc, a).DeleteCounted?
  {
  }

  lemma {:induction false} CommitCounts(versions: seq<VersionRow>, v: VersionRow, pc: Pc, e: EntryId)
    requires !IsPlaced(versions, e) && pc.Placing? && !HoldsShare(pc, e)
    requires |v.rows| == |pc.done| && forall j | 0 <= j < |v.rows| :: v.rows[j].entryId == pc.done[j].entryId
    ensures !IsPlaced(versions + [v], e)
  {
    assert !HasEntry(v.rows, e) by {
      forall j | 0 <= j < |v.rows| ensures v.rows[j].entryId != e {
        assert pc.done[j].entryId == v.rows[j].entryId;
      }
    }
    forall i | 0 <= i < |versions + [v]| ensures !HasEntry((versions + [v])[i].rows, e) {
      if i < |versions| {
        assert !HasEntry(versions[i].rows, e);
      }
    }
  }

  lemma CountStep(s: State, a: Action)
    requires Enabled(s, a) && EntryInv(s.pg, s.threads)
    ensures CountInv(Apply(s, a).pg.versions, Apply(s, a).threads)
  {
    Effects(s, a);
    VersionsAfter(s, a);
    var s' := Apply(s, a);
    var from := From(s, a);
    if HasCaller(a) {
      CallerCounted(s.pg, s.redis, from, a);
    }
    hide Apply, Enabled, Next, PgWritten, RedisWritten, PgReady, LocksFree, IsPlaced;
    forall t | t in s'.threads && s'.threads[t].DeleteCounted?
      ensures !IsPlaced(s'.pg.versions, s'.threads[t].entry)
    {
      if a.Commit? {
        var e := s'.threads[t].entry;
        assert HoldsUpdate(s.threads[t], e) && !HoldsShare(s.threads[a.t], e);
        CommitRows(s.pg, from);
        CommitCounts(s.pg.versions, NewVersion(s.pg, from), from, e);
      }
    }
  }

  lemma EntryStep(s: State, a: Action)
    requires Enabled(s, a) && EntryInv(s.pg, s.threads)
    ensures EntryInv(Apply(s, a).pg, Apply(s, a).threads)
  {
    Effects(s, a);
    LiveKept(s.pg, From(s, a), a);
    VersionsLiveStep(s, a);
    AccumulatedStep(s.pg, From(s, a), a);
    ThreadsLiveStep(s, a);
    LockStep(s, a);
    CountStep(s, a);
    hide Apply, Enabled, PgWritten, RedisWritten, Next, PgReady, LocksFree;
  }

  // -------------------------------------------------------- version numbers

  /** From the first version written here on, each number is one more than the
      largest before it. */
  ghost predicate Sequential(imported: nat, versions: seq<VersionRow>) {
    && imported <= |versions|
    && forall i | imported <= i < |versions| :: versions[i].number == MaxNumber(versions[..i]) + 1
  }

  ghost predicate DistinctNumbers(versions: seq<VersionRow>) {
    && (forall i | 0 <= i < |versions| :: versions[i].number > 0)
    && (forall i, j | 0 <= i < j < |versions| :: versions[i].number != versions[j].number)
  }

  predicate HasNumber(pc: Pc) {
    pc.Numbered? || pc.Inserted? || pc.Placing?
  }

  ghost predicate NumbersAssigned(versions: seq<VersionRow>, threads: Threads) {
    forall t | t in threads && HasNumber(threads[t]) :: threads[t].number == MaxNumber(versions) + 1
  }

  ghost predicate NumberInv(s: State) {
    && Sequential(s.imported, s.pg.versions)
    && DistinctNumbers(s.pg.versions)
    && NumbersAssigned(s.pg.versions, s.threads)
  }

  lemma {:induction false} MaxIsLargest(versions: seq<VersionRow>)
    requires forall i | 0 <= i < |versions| :: versions[i].number > 0
    ensures forall i | 0 <= i < |versions| :: versions[i].number <= MaxNumber(versions)
    ensures versions != [] ==> exists i :: 0 <= i < |versions| && versions[i].number == MaxNumber(versions)
    ensures MaxNumber(versions) >= 0
  {
    if versions != [] {
      var n := |versions| - 1;
      MaxIsLargest(versions[..n]);
      forall i | 0 <= i < n ensures versions[i].number <= MaxNumber(versions[..n]) {
        assert versions[i] == versions[..n][i];
      }
      if MaxNumber(versions) != versions[n].number {
        var i :| 0 <= i < n && versions[..n][i].number == MaxNumber(versions[..n]);
        assert versions[i].number == MaxNumber(versions);
      }
    }
  }

  lemma AppendNumber(imported: nat, versions: seq<VersionRow>, v: VersionRow)
    requires Sequential(imported, versions) && DistinctNumbers(versions)
    requires v.number == MaxNumber(versions) + 1
    ensures Sequential(imported, versions + [v]) && DistinctNumbers(versions + [v])
  {
    MaxIsLargest(versions);
    var after := versions + [v];
    assert after[..|versions|] == versions;
    forall i | imported <= i < |after| ensures after[i].number == MaxNumber(after[..i]) + 1 {
      if i < |versions| {
        assert after[..i] == versions[..i];
      }
    }
  }

  lemma CallerNumber(pg: Pg, redis: Redis, pc: Pc, a: Action)
    requires HasCaller(a) && PcReady(pc, a) && PgReady(pg, pc, a)
    requires HasNumber(pc) ==> pc.number == MaxNumber(pg.versions) + 1
    ensures HasNumber(Next(pg, redis, pc, a)) ==>
              Next(pg, redis, pc, a).number == MaxNumber(pg.versions) + 1
    ensures a.Commit? ==> HoldsBoard(pc) && HasNumber(pc) && NewVersion(pg, pc).number == pc.number
                          && !HasNumber(Next(pg, redis, pc, a))
  {
    hide MaxNumber;
  }

  lemma NumberStep(s: State, a: Action)
    requires Enabled(s, a) && NumberInv(s) && BoardInv(s.threads) && EntryInv(s.pg, s.threads)
    ensures NumberInv(Apply(s, a))
  {
    Effects(s, a);
    VersionsAfter(s, a);
    var s' := Apply(s, a);
    var from := From(s, a);
    if HasCaller(a) {
      CallerNumber(s.pg, s.redis, from, a);
    }
    hide Apply, Enabled, Next, PgWritten, RedisWritten, PgReady, LocksFree, NewVersion, MaxNumber;
    if a.Commit? {
      AppendNumber(s.imported, s.pg.versions, NewVersion(s.pg, from));
      OthersWait(s.threads, a.t);
    }
  }

  /** INSERT INTO versions never violates UNIQUE (board_id, version_number). */
  lemma NumberIsNew(s: State, t: Tid)
    requires NumberInv(s) && t in s.threads && s.threads[t].Numbered?
    ensures IsNewNumber(s.pg.versions, s.threads[t].number)
  {
    MaxIsLargest(s.pg.versions);
  }

  // ----------------------------------------------------------- version limit

  /** The limit a call carries. */
  function RequestOf(pc: Pc): Option<Request> {
    if pc.SnapScores? || pc.SnapNames? || pc.SnapRename? then Some(pc.request)
    else if pc.WantLock? || HoldsBoard(pc) || pc.Cleanup? then Some(pc.tx.request)
    else None
  }

  /** Every call in progress was given the limit m. */
  ghost predicate CallersPass(threads: Threads, m: int) {
    forall t | t in threads && RequestOf(threads[t]).Some? :: RequestOf(threads[t]).value.maxVersions == Some(m)
  }

  predicate PastCount(pc: Pc) {
    pc.Counted? || pc.ReadDone? || pc.Numbered? || pc.Inserted? || pc.Placing?
  }

  ghost predicate LimitInv(s: State, m: int) {
    && |s.pg.versions| <= m
    && forall t | t in s.threads && PastCount(s.threads[t]) :: |s.pg.versions| < m
  }

  lemma CallerPastCount(pg: Pg, redis: Redis, pc: Pc, a: Action, m: int)
    requires HasCaller(a) && PcReady(pc, a) && PgReady(pg, pc, a) && PastCount(Next(pg, redis, pc, a))
    requires RequestOf(pc).Some? ==> RequestOf(pc).value.maxVersions == Some(m)
    ensures PastCount(pc) || |pg.versions| < m
    ensures !a.Commit?
  {
  }

  lemma LimitStep(s: State, a: Action, m: int)
    requires Enabled(s, a) && BoardInv(s.threads) && EntryInv(s.pg, s.threads)
    requires CallersPass(s.threads, m) && LimitInv(s, m)
    ensures LimitInv(Apply(s, a), m)
  {
    Effects(s, a);
    VersionsAfter(s, a);
    var s' := Apply(s, a);
    var from := From(s, a);
    if HasCaller(a) {
      if PastCount(Next(s.pg, s.redis, from, a)) {
        CallerPastCount(s.pg, s.redis, from, a, m);
      }
    }
    assert a.Commit? ==> PastCount(from) && HoldsBoard(from);
    hide Apply, Enabled, Next, PgWritten, RedisWritten, PgReady, PcReady, LocksFree, NewVersion;
    if a.Commit? {
      OthersWait(s.threads, a.t);
    }
  }
}
