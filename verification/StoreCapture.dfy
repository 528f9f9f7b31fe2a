/** The Redis side of the two-store machine: what becomes of every score that is
    written, and what a committed snapshot contains. */
module StoreCapture {
  import opened Core
  import opened Ordering
  import opened StoreModel
  import opened StoreInvariants

  type Snaps = map<SnapId, map<Slug, Cell>>

  // ------------------------------------------------------------------ names

  /** Every live scored slug has a live name. */
  ghost predicate NamesInv(redis: Redis) {
    redis.work.Keys <= redis.names.Keys
  }

  lemma NamesStep(redis: Redis, pc: Pc, a: Action)
    requires PcReady(pc, a) && NamesInv(redis)
    ensures NamesInv(RedisWritten(redis, pc, a))
  {
  }

  // ------------------------------------------------------------ write records

  ghost predicate CellsLogged(writes: seq<WriteRecord>, m: map<Slug, Cell>) {
    forall slug | slug in m ::
      m[slug].write < |writes| && writes[m[slug].write] == WriteRecord(slug, m[slug].score)
  }

  /** No write is in both sets. */
  ghost predicate Disjoint(m: map<Slug, Cell>, n: map<Slug, Cell>) {
    forall slug | slug in m && slug in n :: m[slug].write != n[slug].write
  }

  /** A write is in at most one set ever renamed, and in none while it is in the
      working set; a snapshot key holds what was renamed to it. */
  ghost predicate SetsInv(redis: Redis) {
    && CellsLogged(redis.writes, redis.work)
    && (forall k | k in redis.renamed :: CellsLogged(redis.writes, redis.renamed[k]))
    && (forall k | k in redis.renamed :: Disjoint(redis.renamed[k], redis.work))
    && (forall k, l | k in redis.renamed && l in redis.renamed && k != l ::
          Disjoint(redis.renamed[k], redis.renamed[l]))
    && (forall k | k in redis.snaps :: k in redis.renamed && redis.snaps[k] == redis.renamed[k])
  }

  lemma SetsStep(redis: Redis, pc: Pc, a: Action)
    requires PcReady(pc, a) && SetsInv(redis)
    requires a.Rename? ==> a.key !in redis.renamed
    ensures SetsInv(RedisWritten(redis, pc, a))
  {
    if a.WriteScore? {
      SetsAfterWrite(redis, pc);
    } else if a.Rename? {
      SetsAfterRename(redis, pc, a.key);
    } else if a.DeleteSnapKeys? {
    }
  }

  lemma SetsAfterWrite(redis: Redis, pc: Pc)
    requires pc.SubmitScore? && SetsInv(redis)
    ensures SetsInv(ScoreWritten(redis, pc))
  {
    var after := ScoreWritten(redis, pc);
    forall k | k in redis.renamed ensures Disjoint(redis.renamed[k], after.work) {
      assert CellsLogged(redis.writes, redis.renamed[k]) && Disjoint(redis.renamed[k], redis.work);
    }
    forall k | k in redis.renamed ensures CellsLogged(after.writes, redis.renamed[k]) {
      assert CellsLogged(redis.writes, redis.renamed[k]);
    }
  }

  lemma SetsAfterRename(redis: Redis, pc: Pc, key: SnapId)
    requires pc.SnapRename? && SetsInv(redis) && key !in redis.renamed
    ensures SetsInv(Renamed(redis, pc, key))
  {
    forall k | k in redis.renamed ensures Disjoint(redis.work, redis.renamed[k]) {
      assert Disjoint(redis.renamed[k], redis.work);
    }
  }

  // --------------------------------------------------------- snapshot keys

  predicate HasTx(pc: Pc) {
    pc.WantLock? || HoldsBoard(pc) || pc.Cleanup?
  }

  /** The snapshot key that a call renamed and must deal with. */
  function KeyOf(pc: Pc): Option<SnapId> {
    if HasTx(pc) && pc.tx.origin.FromSnapshotKey? then Some(pc.tx.origin.key) else None
  }

  ghost predicate KeyCommitted(versions: seq<VersionRow>, k: SnapId) {
    exists i :: 0 <= i < |versions| && versions[i].origin == FromSnapshotKey(k)
  }

  ghost predicate KeyPc(renamed: Snaps, snaps: Snaps, versions: seq<VersionRow>, pc: Pc) {
    KeyOf(pc).Some? ==>
      var k := KeyOf(pc).value;
      && k in renamed
      && if pc.Cleanup? then KeyCommitted(versions, k) else k in snaps && !KeyCommitted(versions, k)
  }

  /** No two calls have the same key. */
  ghost predicate OwnInv(threads: Threads) {
    forall t, u | t in threads && u in threads && t != u && KeyOf(threads[t]).Some? ::
      KeyOf(threads[t]) != KeyOf(threads[u])
  }

  /** No two versions come from the same key. */
  ghost predicate OriginInv(renamed: Snaps, versions: seq<VersionRow>) {
    && (forall i | 0 <= i < |versions| && versions[i].origin.FromSnapshotKey? ::
          versions[i].origin.key in renamed)
    && (forall i, j | 0 <= i < j < |versions| && versions[i].origin.FromSnapshotKey? ::
          versions[i].origin != versions[j].origin)
  }

  ghost predicate KeyInv(redis: Redis, versions: seq<VersionRow>, threads: Threads) {
    && (forall t | t in threads :: KeyPc(redis.renamed, redis.snaps, versions, threads[t]))
    && OwnInv(threads)
    && OriginInv(redis.renamed, versions)
  }

  /** A key is new at its RENAME and stays with the call to the end. */
  lemma CallerKey(pg: Pg, redis: Redis, pc: Pc, a: Action)
    requires HasCaller(a) && PcReady(pc, a) && PgReady(pg, pc, a) && !a.Rename?
    ensures var pc' := Next(pg, redis, pc, a);
            && (KeyOf(pc').Some? ==> KeyOf(pc') == KeyOf(pc) && !a.DeleteSnapKeys?)
            && (KeyOf(pc').Some? ==> (pc'.Cleanup? <==> a.Commit?) && !pc.Cleanup?)
            && (a.Commit? ==> pc.Placing? && pc' == Cleanup(pc.tx) && NewVersion(pg, pc).origin == pc.tx.origin)
  {
    hide PgReady, AllResolvable, OverLimit, MaxNumber, IsPlaced, TooFewOrMany;
  }

  lemma RenamedKey(pg: Pg, redis: Redis, pc: Pc, a: Action)
    requires a.Rename? && PcReady(pc, a) && PgReady(pg, pc, a)
    ensures var pc' := Next(pg, redis, pc, a);
            KeyOf(pc').Some? ==> KeyOf(pc') == Some(a.key) && redis.work != map[] && !pc'.Cleanup?
  {
  }

  /** What a step leaves of the renamed sets and the snapshot keys. */
  lemma KeysAfter(redis: Redis, pc: Pc, a: Action)
    requires PcReady(pc, a)
    ensures var r := RedisWritten(redis, pc, a);
            && (if a.Rename? && redis.work != map[]
                then r.renamed == redis.renamed[a.key := redis.work] && r.snaps == redis.snaps[a.key := redis.work]
                else r.renamed == redis.renamed)
            && (!a.Rename? && !a.DeleteSnapKeys? ==> r.snaps == redis.snaps)
            && (a.Rename? && redis.work == map[] ==> r.snaps == redis.snaps)
            && (a.DeleteSnapKeys? ==>
                  r.snaps == redis.snaps
                  || (KeyOf(pc).Some? && r.snaps == redis.snaps - {KeyOf(pc).value}))
  {
    hide WritesOf;
  }

  lemma CommittedAfter(versions: seq<VersionRow>, v: VersionRow, k: SnapId)
    ensures KeyCommitted(versions + [v], k) <==> KeyCommitted(versions, k) || v.origin == FromSnapshotKey(k)
  {
    var after := versions + [v];
    if v.origin == FromSnapshotKey(k) {
      assert after[|versions|] == v;
    }
    if KeyCommitted(versions, k) {
      var i :| 0 <= i < |versions| && versions[i].origin == FromSnapshotKey(k);
      assert after[i].origin == FromSnapshotKey(k);
    }
  }

  lemma OwnStep(s: State, a: Action)
    requires Enabled(s, a) && KeyInv(s.redis, s.pg.versions, s.threads)
    ensures OwnInv(Apply(s, a).threads)
  {
    assert a.Rename? ==> a.key !in s.redis.renamed;
    assert KeyOf(Idle) == None;
    hide Apply, Enabled, Next, PgWritten, RedisWritten, PgReady, PcReady, LocksFree, KeyOf, KeyCommitted, NewVersion,
      OriginInv;
    Effects(s, a);
    if HasCaller(a) {
      var from := From(s, a);
      if a.Rename? {
        RenamedKey(s.pg, s.redis, from, a);
      } else {
        CallerKey(s.pg, s.redis, from, a);
      }
      var pc := Apply(s, a).threads[a.t];
      forall u | u in s.threads && u != a.t && KeyOf(pc).Some? ensures KeyOf(s.threads[u]) != KeyOf(pc) {
        assert KeyPc(s.redis.renamed, s.redis.snaps, s.pg.versions, s.threads[u]);
      }
    }
  }

  /** A call that did not move keeps its key: nobody else deletes or commits it. */
  lemma OthersKeep(s: State, a: Action, t: Tid)
    requires Enabled(s, a) && EntryInv(s.pg, s.threads) && KeyInv(s.redis, s.pg.versions, s.threads)
    requires t in s.threads && !(HasCaller(a) && t == a.t)
    ensures KeyPc(Apply(s, a).redis.renamed, Apply(s, a).redis.snaps, Apply(s, a).pg.versions, s.threads[t])
  {
    Effects(s, a);
    VersionsAfter(s, a);
    var from := From(s, a);
    assert a.Rename? ==> a.key !in s.redis.renamed;
    KeysAfter(s.redis, from, a);
    assert KeyPc(s.redis.renamed, s.redis.snaps, s.pg.versions, s.threads[t]);
    if a.Commit? {
      CallerKey(s.pg, s.redis, from, a);
      assert from.tx.origin.FromSnapshotKey? ==> KeyOf(from) == Some(from.tx.origin.key);
      if KeyOf(s.threads[t]).Some? {
        CommittedAfter(s.pg.versions, NewVersion(s.pg, from), KeyOf(s.threads[t]).value);
      }
    }
    assert KeyOf(Idle) == None;
    hide Apply, Enabled, Next, PgWritten, RedisWritten, PgReady, PcReady, LocksFree, KeyOf, KeyCommitted, NewVersion,
      EntryInv, OriginInv;
  }

  lemma CallerKeeps(s: State, a: Action)
    requires Enabled(s, a) && EntryInv(s.pg, s.threads) && KeyInv(s.redis, s.pg.versions, s.threads)
    requires HasCaller(a)
    ensures KeyPc(Apply(s, a).redis.renamed, Apply(s, a).redis.snaps, Apply(s, a).pg.versions,
                  Apply(s, a).threads[a.t])
  {
    Effects(s, a);
    VersionsAfter(s, a);
    var from := From(s, a);
    KeysAfter(s.redis, from, a);
    assert KeyPc(s.redis.renamed, s.redis.snaps, s.pg.versions, from);
    if a.Rename? {
      RenamedKey(s.pg, s.redis, from, a);
      RenamedIsUncommitted(s, a);
    } else {
      CallerKey(s.pg, s.redis, from, a);
      if a.Commit? && KeyOf(from).Some? {
        CommittedAfter(s.pg.versions, NewVersion(s.pg, from), KeyOf(from).value);
      }
    }
    hide Apply, Enabled, Next, PgWritten, RedisWritten, PgReady, PcReady, LocksFree, KeyCommitted, NewVersion,
      EntryInv, OriginInv;
  }

  lemma RenamedIsUncommitted(s: State, a: Action)
    requires Enabled(s, a) && a.Rename? && OriginInv(s.redis.renamed, s.pg.versions)
    ensures !KeyCommitted(s.pg.versions, a.key)
  {
    assert a.key !in s.redis.renamed;
  }

  lemma OriginStep(s: State, a: Action)
    requires Enabled(s, a) && EntryInv(s.pg, s.threads) && KeyInv(s.redis, s.pg.versions, s.threads)
    ensures OriginInv(Apply(s, a).redis.renamed, Apply(s, a).pg.versions)
  {
    Effects(s, a);
    VersionsAfter(s, a);
    var from := From(s, a);
    KeysAfter(s.redis, from, a);
    if a.Commit? {
      CallerKey(s.pg, s.redis, from, a);
      assert KeyPc(s.redis.renamed, s.redis.snaps, s.pg.versions, s.threads[a.t]);
    }
    hide Apply, Enabled, Next, PgWritten, RedisWritten, PgReady, PcReady, LocksFree, NewVersion, EntryInv;
  }

  lemma KeyStep(s: State, a: Action)
    requires Enabled(s, a) && EntryInv(s.pg, s.threads) && KeyInv(s.redis, s.pg.versions, s.threads)
    ensures KeyInv(Apply(s, a).redis, Apply(s, a).pg.versions, Apply(s, a).threads)
  {
    Effects(s, a);
    OwnStep(s, a);
    OriginStep(s, a);
    var s' := Apply(s, a);
    hide Apply, Enabled, Next, PgWritten, RedisWritten, PgReady, LocksFree, KeyPc, OwnInv, OriginInv, EntryInv;
    forall t | t in s'.threads ensures KeyPc(s'.redis.renamed, s'.redis.snaps, s'.pg.versions, s'.threads[t]) {
      if HasCaller(a) && t == a.t {
        CallerKeeps(s, a);
      } else {
        OthersKeep(s, a, t);
      }
    }
  }

  // ------------------------------------------------- contents of a snapshot

  /** The slug behind an entry id. */
  function SlugAt(slugOf: SlugOf, r: Row): Slug {
    if r.entryId in slugOf then slugOf[r.entryId] else ""
  }

  predicate RowMirrors(slugOf: SlugOf, r: Row, m: map<Slug, Cell>) {
    && r.entryId in slugOf && SlugAt(slugOf, r) in m
    && r.score == Some(m[SlugAt(slugOf, r)].score)
    && r.write == Some(m[SlugAt(slugOf, r)].write)
  }

  ghost predicate HasSlug(slugOf: SlugOf, rows: seq<Row>, slug: Slug) {
    exists j :: 0 <= j < |rows| && SlugAt(slugOf, rows[j]) == slug
  }

  /** The rows hold exactly the slugs and scores of m, each once. */
  ghost predicate Mirrors(slugOf: SlugOf, rows: seq<Row>, m: map<Slug, Cell>) {
    && (forall j | 0 <= j < |rows| :: RowMirrors(slugOf, rows[j], m))
    && (forall i, j | 0 <= i < j < |rows| :: SlugAt(slugOf, rows[i]) != SlugAt(slugOf, rows[j]))
    && (forall slug | slug in m :: HasSlug(slugOf, rows, slug))
  }

  ghost predicate CapturePc(slugOf: SlugOf, renamed: Snaps, pc: Pc) {
    KeyOf(pc).Some? ==>
      && KeyOf(pc).value in renamed
      && var m := renamed[KeyOf(pc).value];
      && (pc.ReadDone? || pc.Numbered? || pc.Inserted? ==> ListsCells(pc.proposals, m))
      && (pc.Placing? ==> Mirrors(slugOf, pc.done + pc.todo, m))
  }

  ghost predicate CaptureVersion(slugOf: SlugOf, renamed: Snaps, v: VersionRow) {
    v.origin.FromSnapshotKey? ==>
      v.origin.key in renamed && Mirrors(slugOf, v.rows, renamed[v.origin.key])
  }

  /** What a call will commit, and what a version holds, is the renamed set. */
  ghost predicate CaptureInv(slugOf: SlugOf, renamed: Snaps, versions: seq<VersionRow>, threads: Threads) {
    && (forall t | t in threads :: CapturePc(slugOf, renamed, threads[t]))
    && (forall i | 0 <= i < |versions| :: CaptureVersion(slugOf, renamed, versions[i]))
  }

  lemma ResolveMirrors(entries: Entries, slugOf: SlugOf, ps: seq<Proposal>, m: map<Slug, Cell>)
    requires IdsInv(entries, slugOf) && ListsCells(ps, m) && AllResolvable(entries, ps)
    ensures Mirrors(slugOf, ResolvedAll(entries, ps), m)
  {
    var rows := ResolvedAll(entries, ps);
    forall j | 0 <= j < |ps| ensures RowMirrors(slugOf, rows[j], m) && SlugAt(slugOf, rows[j]) == ps[j].slug {
      assert Resolvable(entries, ps[j]) && ProposalIs(ps[j], m);
    }
    forall slug | slug in m ensures HasSlug(slugOf, rows, slug) {
      var i :| 0 <= i < |ps| && ps[i].slug == slug;
      assert SlugAt(slugOf, rows[i]) == slug;
    }
  }

  /** Ids are never reused, so what was mirrored stays mirrored; positions are irrelevant. */
  lemma MirrorsKept(slugOf: SlugOf, slugOf': SlugOf, rows: seq<Row>, rows': seq<Row>, m: map<Slug, Cell>)
    requires Mirrors(slugOf, rows, m)
    requires forall e | e in slugOf :: e in slugOf' && slugOf'[e] == slugOf[e]
    requires |rows'| == |rows|
    requires forall j | 0 <= j < |rows| :: rows'[j] == rows[j].(position := rows'[j].position)
    ensures Mirrors(slugOf', rows', m)
  {
    forall j | 0 <= j < |rows|
      ensures RowMirrors(slugOf', rows'[j], m) && SlugAt(slugOf', rows'[j]) == SlugAt(slugOf, rows[j])
    {
      assert RowMirrors(slugOf, rows[j], m);
    }
    hide RowMirrors, SlugAt;
    forall slug | slug in m ensures HasSlug(slugOf', rows', slug) {
      var j :| 0 <= j < |rows| && SlugAt(slugOf, rows[j]) == slug;
      assert SlugAt(slugOf', rows'[j]) == slug;
    }
  }

  lemma CapturePcKept(slugOf: SlugOf, slugOf': SlugOf, renamed: Snaps, renamed': Snaps, pc: Pc)
    requires CapturePc(slugOf, renamed, pc)
    requires forall e | e in slugOf :: e in slugOf' && slugOf'[e] == slugOf[e]
    requires forall k | k in renamed :: k in renamed' && renamed'[k] == renamed[k]
    ensures CapturePc(slugOf', renamed', pc)
  {
    if KeyOf(pc).Some? && pc.Placing? {
      MirrorsKept(slugOf, slugOf', pc.done + pc.todo, pc.done + pc.todo, renamed[KeyOf(pc).value]);
    }
  }

  /** The caller's next position, with the stores as they were. */
  lemma CallerCaptures(s: State, a: Action)
    requires Enabled(s, a) && HasCaller(a) && !a.Rename?
    requires IdsInv(s.pg.entries, s.pg.slugOf) && SetsInv(s.redis)
    requires KeyInv(s.redis, s.pg.versions, s.threads)
    requires CaptureInv(s.pg.slugOf, s.redis.renamed, s.pg.versions, s.threads)
    ensures CapturePc(s.pg.slugOf, s.redis.renamed, Next(s.pg, s.redis, At(s, a.t), a))
  {
    var from := At(s, a.t);
    Effects(s, a);
    CallerKey(s.pg, s.redis, from, a);
    assert CapturePc(s.pg.slugOf, s.redis.renamed, from);
    assert KeyPc(s.redis.renamed, s.redis.snaps, s.pg.versions, from);
    if a.ReadRows? && KeyOf(from).Some? {
      assert ListsCells(a.proposals, s.redis.snaps[KeyOf(from).value]);
    }
    hide Enabled, Apply, CaptureInv, KeyInv, PgWritten, RedisWritten;
    PositionCaptures(s.pg, s.redis, from, a);
  }

  lemma PositionCaptures(pg: Pg, redis: Redis, from: Pc, a: Action)
    requires HasCaller(a) && !a.Rename? && PcReady(from, a) && PgReady(pg, from, a)
    requires IdsInv(pg.entries, pg.slugOf)
    requires CapturePc(pg.slugOf, redis.renamed, from)
    requires a.ReadRows? && KeyOf(from).Some? ==>
               ListsCells(a.proposals, redis.renamed[KeyOf(from).value])
    requires var pc := Next(pg, redis, from, a); KeyOf(pc).Some? ==> KeyOf(pc) == KeyOf(from)
    ensures CapturePc(pg.slugOf, redis.renamed, Next(pg, redis, from, a))
  {
    var pc := Next(pg, redis, from, a);
    if a.ReadRows? {
      ReadKeeps(pg, redis, from, a);
    } else if a.ResolveEntries? {
      ResolveNext(pg, redis, from, a);
      if pc.Placing? && KeyOf(from).Some? {
        ResolveMirrors(pg.entries, pg.slugOf, from.proposals, redis.renamed[KeyOf(from).value]);
        assert pc.done + pc.todo == pc.todo;
      }
    } else if a.InsertPlacement? {
      PlaceNext(pg, redis, from, a);
    } else {
      OtherNext(pg, redis, from, a);
    }
    hide Next, PgReady, PcReady, Mirrors, ListsCells, IdsInv;
  }

  lemma ReadKeeps(pg: Pg, redis: Redis, pc: Pc, a: Action)
    requires a.ReadRows? && PcReady(pc, a) && PgReady(pg, pc, a)
    ensures var pc' := Next(pg, redis, pc, a);
            (pc'.ReadDone? && pc'.proposals == a.proposals) || pc'.Refused?
  {
  }

  lemma ResolveNext(pg: Pg, redis: Redis, pc: Pc, a: Action)
    requires a.ResolveEntries? && PcReady(pc, a) && PgReady(pg, pc, a)
    ensures var pc' := Next(pg, redis, pc, a);
            if AllResolvable(pg.entries, pc.proposals)
            then pc' == Placing(pc.tx, pc.number, ResolvedAll(pg.entries, pc.proposals), [])
            else pc' == Idle
  {
  }

  lemma PlaceNext(pg: Pg, redis: Redis, pc: Pc, a: Action)
    requires a.InsertPlacement? && PcReady(pc, a) && PgReady(pg, pc, a)
    ensures var pc' := Next(pg, redis, pc, a);
            pc'.Placing? && pc'.tx == pc.tx && pc'.done + pc'.todo == pc.done + pc.todo
  {
    assert pc.todo == [pc.todo[0]] + pc.todo[1..];
  }

  lemma OtherNext(pg: Pg, redis: Redis, pc: Pc, a: Action)
    requires HasCaller(a) && PcReady(pc, a) && PgReady(pg, pc, a)
    requires !a.ReadRows? && !a.ResolveEntries? && !a.InsertPlacement?
    ensures var pc' := Next(pg, redis, pc, a);
            && !pc'.ReadDone? && !pc'.Placing?
            && (pc'.Numbered? || pc'.Inserted? ==>
                  (pc.ReadDone? || pc.Numbered?) && pc'.proposals == pc.proposals)
  {
    hide PgReady, AllResolvable, OverLimit, MaxNumber, IsPlaced, TooFewOrMany;
  }

  lemma RenamedKept(s: State, a: Action)
    requires Enabled(s, a)
    ensures forall k | k in s.redis.renamed ::
              k in Apply(s, a).redis.renamed && Apply(s, a).redis.renamed[k] == s.redis.renamed[k]
  {
    Effects(s, a);
    KeysAfter(s.redis, From(s, a), a);
    assert a.Rename? ==> a.key !in s.redis.renamed;
    hide Apply, Next, PgWritten, RedisWritten, PgReady, PcReady, LocksFree;
  }

  lemma CaptureThread(s: State, a: Action, t: Tid)
    requires Enabled(s, a) && EntryInv(s.pg, s.threads) && SetsInv(s.redis)
    requires KeyInv(s.redis, s.pg.versions, s.threads)
    requires CaptureInv(s.pg.slugOf, s.redis.renamed, s.pg.versions, s.threads)
    requires t in Apply(s, a).threads
    ensures CapturePc(Apply(s, a).pg.slugOf, Apply(s, a).redis.renamed, Apply(s, a).threads[t])
  {
    Effects(s, a);
    var from := From(s, a);
    LiveKept(s.pg, from, a);
    RenamedKept(s, a);
    if HasCaller(a) && t == a.t {
      if a.Rename? {
        RenamedKey(s.pg, s.redis, from, a);
        RenameNext(s.pg, s.redis, from, a);
        KeysAfter(s.redis, from, a);
      } else {
        CallerCaptures(s, a);
      }
    } else {
      assert CapturePc(s.pg.slugOf, s.redis.renamed, s.threads[t]);
    }
    var s' := Apply(s, a);
    hide *;
    if !(HasCaller(a) && t == a.t && a.Rename?) {
      CapturePcKept(s.pg.slugOf, s'.pg.slugOf, s.redis.renamed, s'.redis.renamed, s'.threads[t]);
    } else {
      IdleCaptures(s'.pg.slugOf, s'.redis.renamed, s'.threads[t]);
    }
  }

  lemma IdleCaptures(slugOf: SlugOf, renamed: Snaps, pc: Pc)
    requires pc.Idle? || pc.WantLock?
    requires KeyOf(pc).Some? ==> KeyOf(pc).value in renamed
    ensures CapturePc(slugOf, renamed, pc)
  {
  }

  lemma CaptureStep(s: State, a: Action)
    requires Enabled(s, a) && EntryInv(s.pg, s.threads) && SetsInv(s.redis)
    requires KeyInv(s.redis, s.pg.versions, s.threads)
    requires CaptureInv(s.pg.slugOf, s.redis.renamed, s.pg.versions, s.threads)
    ensures CaptureInv(Apply(s, a).pg.slugOf, Apply(s, a).redis.renamed, Apply(s, a).pg.versions, Apply(s, a).threads)
  {
    CaptureVersions(s, a);
    var s' := Apply(s, a);
    hide Apply, Enabled, CaptureVersion, CapturePc, EntryInv, SetsInv, KeyInv;
    forall t | t in s'.threads ensures CapturePc(s'.pg.slugOf, s'.redis.renamed, s'.threads[t]) {
      CaptureThread(s, a, t);
    }
  }

  lemma RenameNext(pg: Pg, redis: Redis, pc: Pc, a: Action)
    requires a.Rename? && PcReady(pc, a) && PgReady(pg, pc, a)
    ensures Next(pg, redis, pc, a).Idle? || Next(pg, redis, pc, a).WantLock?
  {
  }

  lemma CaptureVersions(s: State, a: Action)
    requires Enabled(s, a) && EntryInv(s.pg, s.threads)
    requires KeyInv(s.redis, s.pg.versions, s.threads)
    requires CaptureInv(s.pg.slugOf, s.redis.renamed, s.pg.versions, s.threads)
    ensures var s' := Apply(s, a);
            forall i | 0 <= i < |s'.pg.versions| ::
              CaptureVersion(s'.pg.slugOf, s'.redis.renamed, s'.pg.versions[i])
  {
    Effects(s, a);
    VersionsAfter(s, a);
    var s' := Apply(s, a);
    var from := From(s, a);
    LiveKept(s.pg, from, a);
    KeysAfter(s.redis, from, a);
    assert a.Rename? ==> a.key !in s.redis.renamed;
    if a.Commit? {
      CommitRows(s.pg, from);
      CallerKey(s.pg, s.redis, from, a);
      assert CapturePc(s.pg.slugOf, s.redis.renamed, from);
      assert from.done + from.todo == from.done;
    }
    hide Apply, Enabled, Next, PgWritten, RedisWritten, PgReady, PcReady, LocksFree, NewVersion, EntryInv, Mirrors;
    forall i | 0 <= i < |s'.pg.versions| && s'.pg.versions[i].origin.FromSnapshotKey?
      ensures CaptureVersion(s'.pg.slugOf, s'.redis.renamed, s'.pg.versions[i])
    {
      var v := s'.pg.versions[i];
      if i < |s.pg.versions| {
        assert CaptureVersion(s.pg.slugOf, s.redis.renamed, v);
        MirrorsKept(s.pg.slugOf, s'.pg.slugOf, v.rows, v.rows, s.redis.renamed[v.origin.key]);
      } else {
        MirrorsKept(s.pg.slugOf, s'.pg.slugOf, from.done, v.rows, s.redis.renamed[v.origin.key]);
      }
    }
  }

  // ----------------------------------------------- what became of each write

  predicate InSet(m: map<Slug, Cell>, slug: Slug, w: WriteId) {
    slug in m && m[slug].write == w
  }

  ghost predicate InSomeSet(sets: Snaps, slug: Slug, w: WriteId) {
    exists k :: k in sets && InSet(sets[k], slug, w)
  }

  predicate RowsCapture(rows: seq<Row>, w: WriteId) {
    exists j :: 0 <= j < |rows| && rows[j].write == Some(w)
  }

  ghost predicate Captured(versions: seq<VersionRow>, w: WriteId) {
    exists i :: 0 <= i < |versions| && RowsCapture(versions[i].rows, w)
  }

  /** In the working set, in a snapshot key, in a committed version, overwritten,
      dropped by a refusal, or deleted with the board. */
  ghost predicate Accounted(redis: Redis, versions: seq<VersionRow>, w: WriteId)
    requires w < |redis.writes|
  {
    var slug := redis.writes[w].slug;
    InSet(redis.work, slug, w) || InSomeSet(redis.snaps, slug, w) || Captured(versions, w)
    || w in redis.overwritten || w in redis.dropped || w in redis.cleared
  }

  /** Overwritten means: by a later write of the same slug. */
  ghost predicate OverwrittenLater(redis: Redis) {
    forall w | w in redis.overwritten ::
      w < redis.overwritten[w] < |redis.writes|
      && redis.writes[w].slug == redis.writes[redis.overwritten[w]].slug
  }

  ghost predicate AccountInv(redis: Redis, versions: seq<VersionRow>) {
    && (forall w: WriteId | w < |redis.writes| :: Accounted(redis, versions, w))
    && OverwrittenLater(redis)
  }

  lemma CapturedKept(versions: seq<VersionRow>, v: VersionRow, w: WriteId)
    requires Captured(versions, w)
    ensures Captured(versions + [v], w)
  {
    var i :| 0 <= i < |versions| && RowsCapture(versions[i].rows, w);
    assert (versions + [v])[i] == versions[i];
  }

  /** A committed key holds nothing that its version does not. */
  lemma KeyIsCaptured(
    slugOf: SlugOf, renamed: Snaps, versions: seq<VersionRow>, k: SnapId, slug: Slug, w: WriteId)
    requires KeyCommitted(versions, k) && k in renamed && InSet(renamed[k], slug, w)
    requires forall i | 0 <= i < |versions| :: CaptureVersion(slugOf, renamed, versions[i])
    ensures Captured(versions, w)
  {
    var i :| 0 <= i < |versions| && versions[i].origin == FromSnapshotKey(k);
    var rows := versions[i].rows;
    assert CaptureVersion(slugOf, renamed, versions[i]);
    MirroredIsCaptured(slugOf, rows, renamed[k], slug, w);
  }

  lemma MirroredIsCaptured(slugOf: SlugOf, rows: seq<Row>, m: map<Slug, Cell>, slug: Slug, w: WriteId)
    requires Mirrors(slugOf, rows, m) && InSet(m, slug, w)
    ensures RowsCapture(rows, w)
  {
    assert HasSlug(slugOf, rows, slug);
    var j :| 0 <= j < |rows| && SlugAt(slugOf, rows[j]) == slug;
    assert RowMirrors(slugOf, rows[j], m);
  }

  lemma AccountWrite(redis: Redis, versions: seq<VersionRow>, pc: Pc, w: WriteId)
    requires pc.SubmitScore? && SetsInv(redis) && w <= |redis.writes|
    requires w < |redis.writes| ==> Accounted(redis, versions, w)
    ensures Accounted(ScoreWritten(redis, pc), versions, w)
  {
  }

  lemma AccountRename(redis: Redis, versions: seq<VersionRow>, pc: Pc, key: SnapId, w: WriteId)
    requires pc.SnapRename? && SetsInv(redis) && key !in redis.renamed && w < |redis.writes|
    requires Accounted(redis, versions, w)
    ensures Accounted(Renamed(redis, pc, key), versions, w)
  {
    var r := Renamed(redis, pc, key);
    var slug := redis.writes[w].slug;
    if InSet(redis.work, slug, w) {
      assert InSet(r.snaps[key], slug, w);
    } else if InSomeSet(redis.snaps, slug, w) {
      var k :| k in redis.snaps && InSet(redis.snaps[k], slug, w);
      assert k in r.snaps && InSet(r.snaps[k], slug, w);
    }
  }

  lemma AccountDelete(s: State, t: Tid, ok: bool, w: WriteId)
    requires Enabled(s, DeleteSnapKeys(t, ok)) && SetsInv(s.redis)
    requires KeyInv(s.redis, s.pg.versions, s.threads)
    requires CaptureInv(s.pg.slugOf, s.redis.renamed, s.pg.versions, s.threads)
    requires w < |s.redis.writes| && Accounted(s.redis, s.pg.versions, w)
    ensures Accounted(KeysDeleted(s.redis, At(s, t), ok), s.pg.versions, w)
  {
    var pc := At(s, t);
    var r := KeysDeleted(s.redis, pc, ok);
    var slug := s.redis.writes[w].slug;
    assert KeyPc(s.redis.renamed, s.redis.snaps, s.pg.versions, pc);
    if InSomeSet(s.redis.snaps, slug, w) {
      var k :| k in s.redis.snaps && InSet(s.redis.snaps[k], slug, w);
      if k in r.snaps {
        assert InSet(r.snaps[k], slug, w);
      } else if pc.Cleanup? {
        KeyIsCaptured(s.pg.slugOf, s.redis.renamed, s.pg.versions, k, slug, w);
      } else {
        assert w in WritesOf(s.redis.snaps[k]);
      }
    }
  }

  lemma AccountClear(redis: Redis, versions: seq<VersionRow>, w: WriteId)
    requires w < |redis.writes| && Accounted(redis, versions, w)
    ensures Accounted(RedisWritten(redis, Idle, ClearKeys), versions, w)
  {
    var slug := redis.writes[w].slug;
    if InSet(redis.work, slug, w) {
      assert w in WritesOf(redis.work);
    }
  }

  lemma AccountStep(s: State, a: Action, w: WriteId)
    requires Enabled(s, a) && EntryInv(s.pg, s.threads) && SetsInv(s.redis)
    requires KeyInv(s.redis, s.pg.versions, s.threads)
    requires CaptureInv(s.pg.slugOf, s.redis.renamed, s.pg.versions, s.threads)
    requires AccountInv(s.redis, s.pg.versions)
    requires w < |Apply(s, a).redis.writes|
    ensures Accounted(Apply(s, a).redis, Apply(s, a).pg.versions, w)
  {
    Effects(s, a);
    VersionsAfter(s, a);
    var from := From(s, a);
    assert w < |s.redis.writes| ==> Accounted(s.redis, s.pg.versions, w);
    assert a.Rename? ==> a.key !in s.redis.renamed;
    if a.WriteScore? {
      AccountWrite(s.redis, s.pg.versions, from, w);
    } else if a.Rename? {
      AccountRename(s.redis, s.pg.versions, from, a.key, w);
    } else if a.DeleteSnapKeys? {
      AccountDelete(s, a.t, a.ok, w);
    } else if a.ClearKeys? {
      AccountClear(s.redis, s.pg.versions, w);
    } else if a.Commit? && Captured(s.pg.versions, w) {
      CapturedKept(s.pg.versions, NewVersion(s.pg, from), w);
    }
    hide Apply, Enabled, Next, PgWritten, PgReady, LocksFree, NewVersion, EntryInv, KeyInv, CaptureInv, SetsInv;
  }

  lemma OverwrittenStep(redis: Redis, pc: Pc, a: Action)
    requires PcReady(pc, a) && SetsInv(redis) && OverwrittenLater(redis)
    ensures OverwrittenLater(RedisWritten(redis, pc, a))
  {
    hide WritesOf;
  }

  // --------------------------------------------------------------- refusals

  ghost predicate NonEmptyKeys(redis: Redis) {
    forall k | k in redis.snaps :: redis.snaps[k] != map[]
  }

  lemma NonEmptyStep(s: State, a: Action)
    requires Enabled(s, a) && NonEmptyKeys(s.redis)
    ensures NonEmptyKeys(Apply(s, a).redis)
  {
    Effects(s, a);
    KeysAfter(s.redis, From(s, a), a);
    hide Apply, Enabled, Next, PgWritten, RedisWritten, PgReady, PcReady, LocksFree;
  }

  /** The version limit or the entry limit of the call stands in the way of set m. */
  predicate LimitReached(versions: seq<VersionRow>, m: map<Slug, Cell>, request: Request) {
    || (request.maxVersions.Some? && |versions| >= request.maxVersions.value)
    || (request.maxEntries.Some? && |m| > request.maxEntries.value)
  }

  ghost predicate RefusedPc(renamed: Snaps, versions: seq<VersionRow>, pc: Pc) {
    pc.Refused? && KeyOf(pc).Some? ==>
      KeyOf(pc).value in renamed && LimitReached(versions, renamed[KeyOf(pc).value], pc.tx.request)
  }

  /** A snapshot that renamed its keys was refused because of a limit. */
  ghost predicate RefusalInv(renamed: Snaps, versions: seq<VersionRow>, threads: Threads) {
    forall t | t in threads :: RefusedPc(renamed, versions, threads[t])
  }

  lemma ListedCount(ps: seq<Proposal>, m: map<Slug, Cell>)
    requires ListsCells(ps, m)
    ensures |ps| == |m|
  {
    var slugs := seq(|ps|, i requires 0 <= i < |ps| => ps[i].slug);
    DistinctCard(slugs);
    forall i | 0 <= i < |ps| ensures ps[i].slug in m {
      assert ProposalIs(ps[i], m);
    }
    forall slug | slug in m ensures slug in Elements(slugs) {
      var i :| 0 <= i < |ps| && ps[i].slug == slug;
      assert slugs[i] == slug;
    }
    assert Elements(slugs) == m.Keys;
  }

  lemma RefusedNext(pg: Pg, redis: Redis, pc: Pc, a: Action)
    requires HasCaller(a) && PcReady(pc, a) && PgReady(pg, pc, a) && Next(pg, redis, pc, a).Refused?
    ensures HasTx(pc) && Next(pg, redis, pc, a).tx == pc.tx && !pc.Cleanup?
    ensures (a.CountVersions? && OverLimit(pg.versions, pc.tx))
            || (a.ReadRows? && TooFewOrMany(pc.tx, |a.proposals|))
  {
    hide PgReady, AllResolvable, OverLimit, MaxNumber, IsPlaced, TooFewOrMany;
  }

  /** A clearing snapshot that has renamed is refused only by a limit: its set is
      never empty. */
  lemma RefusedByLimit(s: State, a: Action)
    requires Enabled(s, a) && HasCaller(a) && SetsInv(s.redis) && NonEmptyKeys(s.redis)
    requires KeyInv(s.redis, s.pg.versions, s.threads)
    requires KeyOf(At(s, a.t)).Some? && Next(s.pg, s.redis, At(s, a.t), a).Refused?
    ensures var k := KeyOf(At(s, a.t)).value;
            && k in s.redis.renamed && Next(s.pg, s.redis, At(s, a.t), a).tx == At(s, a.t).tx
            && LimitReached(s.pg.versions, s.redis.renamed[k], At(s, a.t).tx.request)
  {
    hide Apply, PgWritten, RedisWritten, LocksFree, OwnInv, OriginInv, CellsLogged, Disjoint, KeyCommitted, Next;
    var from := At(s, a.t);
    Effects(s, a);
    RefusedNext(s.pg, s.redis, from, a);
    assert KeyPc(s.redis.renamed, s.redis.snaps, s.pg.versions, from);
    if a.ReadRows? {
      var m := s.redis.snaps[KeyOf(from).value];
      ListedCount(a.proposals, m);
      assert m == s.redis.renamed[KeyOf(from).value] && m != map[];
    }
  }

  lemma CallerRefused(s: State, a: Action)
    requires Enabled(s, a) && HasCaller(a) && SetsInv(s.redis) && NonEmptyKeys(s.redis)
    requires KeyInv(s.redis, s.pg.versions, s.threads)
    ensures RefusedPc(s.redis.renamed, s.pg.versions, Apply(s, a).threads[a.t])
  {
    hide PgWritten, RedisWritten, LocksFree, SetsInv, NonEmptyKeys, KeyInv, LimitReached;
    Effects(s, a);
    var from := At(s, a.t);
    if Next(s.pg, s.redis, from, a).Refused? {
      RefusedNext(s.pg, s.redis, from, a);
      hide Next, PgReady;
      if KeyOf(from).Some? {
        RefusedByLimit(s, a);
      }
    }
  }

  lemma RefusalStep(s: State, a: Action)
    requires Enabled(s, a) && EntryInv(s.pg, s.threads) && SetsInv(s.redis) && NonEmptyKeys(s.redis)
    requires KeyInv(s.redis, s.pg.versions, s.threads)
    requires RefusalInv(s.redis.renamed, s.pg.versions, s.threads)
    ensures RefusalInv(Apply(s, a).redis.renamed, Apply(s, a).pg.versions, Apply(s, a).threads)
  {
    VersionsAfter(s, a);
    hide Apply, Enabled, Next, PgWritten, RedisWritten, PgReady, PcReady, LocksFree, NewVersion, EntryInv, KeyInv,
      SetsInv, NonEmptyKeys, KeyOf;
    Effects(s, a);
    RenamedKept(s, a);
    if HasCaller(a) {
      CallerRefused(s, a);
    }
  }
}
