/** The main results about the two stores, for every run of every mix of calls. */
module StoreTheorems {
  import opened Core
  import opened Ordering
  import opened Ranking
  import opened StoreModel
  import opened StoreInvariants
  import opened StoreCapture

  ghost predicate Inv(s: State) {
    && BoardInv(s.threads)
    && EntryInv(s.pg, s.threads)
    && NumberInv(s)
    && NamesInv(s.redis)
    && SetsInv(s.redis)
    && KeyInv(s.redis, s.pg.versions, s.threads)
    && CaptureInv(s.pg.slugOf, s.redis.renamed, s.pg.versions, s.threads)
    && AccountInv(s.redis, s.pg.versions)
    && NonEmptyKeys(s.redis)
    && RefusalInv(s.redis.renamed, s.pg.versions, s.threads)
  }

  lemma InitialInv(s: State)
    requires Initial(s)
    ensures Inv(s)
  {
    assert s.pg.versions[..|s.pg.versions|] == s.pg.versions;
  }

  lemma InvStep(s: State, a: Action)
    requires Inv(s) && Enabled(s, a)
    ensures Inv(Apply(s, a))
  {
    Effects(s, a);
    BoardStep(s, a);
    EntryStep(s, a);
    NumberStep(s, a);
    NamesStep(s.redis, From(s, a), a);
    assert a.Rename? ==> a.key !in s.redis.renamed;
    SetsStep(s.redis, From(s, a), a);
    KeyStep(s, a);
    CaptureStep(s, a);
    OverwrittenStep(s.redis, From(s, a), a);
    NonEmptyStep(s, a);
    RefusalStep(s, a);
    var s' := Apply(s, a);
    hide Apply, Enabled, BoardInv, EntryInv, NumberInv, NamesInv, SetsInv, KeyInv, CaptureInv, Accounted,
      NonEmptyKeys, RefusalInv,
      Next, PgWritten, RedisWritten, PgReady, PcReady, LocksFree;
    forall w: WriteId | w < |s'.redis.writes| ensures Accounted(s'.redis, s'.pg.versions, w) {
      AccountStep(s, a, w);
    }
  }

  lemma ScoredIsNamed(s: State)
    requires Inv(s)
    ensures s.redis.work != map[] ==> s.redis.names != map[]
  {
    if s.redis.work != map[] {
      var slug :| slug in s.redis.work;
      assert slug in s.redis.names;
    }
  }

  lemma IdsHold(s: State)
    requires Inv(s)
    ensures IdsInv(s.pg.entries, s.pg.slugOf)
  {
  }

  lemma {:induction false} InvRun(s: State, run: seq<Action>)
    requires Inv(s) && Legal(s, run)
    ensures Inv(Exec(s, run))
    decreases |run|
  {
    hide Inv, Enabled, Apply;
    if run != [] {
      InvStep(s, run[0]);
      InvRun(Apply(s, run[0]), run[1..]);
    }
  }

  lemma {:induction false} ExecConcat(s: State, first: seq<Action>, second: seq<Action>)
    requires Legal(s, first + second)
    ensures Legal(s, first) && Legal(Exec(s, first), second)
    ensures Exec(s, first + second) == Exec(Exec(s, first), second)
    decreases |first|
  {
    hide Enabled, Apply;
    if first == [] {
      assert first + second == second;
    } else {
      assert (first + second)[1..] == first[1..] + second;
      ExecConcat(Apply(s, first[0]), first[1..], second);
    }
  }

  // ---------------------------------------------------------- history stands

  lemma StepKeepsHistory(s: State, a: Action)
    requires Inv(s) && Enabled(s, a)
    ensures s.pg.versions <= Apply(s, a).pg.versions
  {
    VersionsAfter(s, a);
    hide Apply, Enabled;
  }

  /** No call, and no race between calls, changes or removes a committed version
      or any of its placements: later histories extend earlier ones. */
  lemma {:induction false} HistoryIsImmutable(s: State, run: seq<Action>)
    requires Inv(s) && Legal(s, run)
    ensures s.pg.versions <= Exec(s, run).pg.versions
    decreases |run|
  {
    hide Inv, Enabled, Apply;
    if run != [] {
      StepKeepsHistory(s, run[0]);
      InvStep(s, run[0]);
      HistoryIsImmutable(Apply(s, run[0]), run[1..]);
    }
  }

  /** Every placement of every version refers to an entry that still exists. */
  lemma PlacedEntriesExist(s: State, run: seq<Action>, i: nat, j: nat)
    requires Initial(s) && Legal(s, run)
    requires i < |Exec(s, run).pg.versions| && j < |Exec(s, run).pg.versions[i].rows|
    ensures var pg := Exec(s, run).pg; Live(pg.entries, pg.slugOf, pg.versions[i].rows[j].entryId)
  {
    InitialInv(s);
    InvRun(s, run);
    var pg := Exec(s, run).pg;
    assert RowsLive(pg.entries, pg.slugOf, pg.versions[i].rows);
  }

  // --------------------------------------------------------- version numbers

  lemma {:induction false} SequentialUpTo(versions: seq<VersionRow>, k: nat)
    requires Sequential(0, versions) && k <= |versions|
    ensures MaxNumber(versions[..k]) == k
    ensures forall i | 0 <= i < k :: versions[i].number == i + 1
  {
    if k > 0 {
      SequentialUpTo(versions, k - 1);
      assert versions[..k][..k - 1] == versions[..k - 1] && versions[..k][k - 1] == versions[k - 1];
    }
  }

  lemma SequentialFromOne(versions: seq<VersionRow>)
    requires Sequential(0, versions)
    ensures forall i | 0 <= i < |versions| :: versions[i].number == i + 1
  {
    SequentialUpTo(versions, |versions|);
  }

  lemma ExecKeepsImported(s: State, run: seq<Action>)
    requires Legal(s, run)
    ensures Exec(s, run).imported == s.imported
    decreases |run|
  {
    if run != [] {
      Effects(s, run[0]);
      hide Enabled, Apply;
      ExecKeepsImported(Apply(s, run[0]), run[1..]);
    }
  }

  /** Each number written is one more than the largest before it, and no two
      versions share a number; on a board that was not imported the numbers are
      1, 2, 3, ... in commit order. */
  lemma VersionsAreNumbered(s: State, run: seq<Action>)
    requires Initial(s) && Legal(s, run)
    ensures var versions := Exec(s, run).pg.versions;
            && Sequential(|s.pg.versions|, versions)
            && DistinctNumbers(versions)
            && (s.pg.versions == [] ==> forall i | 0 <= i < |versions| :: versions[i].number == i + 1)
  {
    InitialInv(s);
    InvRun(s, run);
    ExecKeepsImported(s, run);
    if s.pg.versions == [] {
      SequentialFromOne(Exec(s, run).pg.versions);
    }
  }

  /** The caller passes version limit m. */
  predicate Passes(a: Action, m: int) {
    a.StartSnapshot? || a.StartCreate? || a.StartAccumulated? ==> a.request.maxVersions == Some(m)
  }

  lemma CallerPasses(pg: Pg, redis: Redis, pc: Pc, a: Action, m: int)
    requires HasCaller(a) && PcReady(pc, a) && PgReady(pg, pc, a) && Passes(a, m)
    requires RequestOf(pc).Some? ==> RequestOf(pc).value.maxVersions == Some(m)
    ensures var pc' := Next(pg, redis, pc, a);
            RequestOf(pc').Some? ==> RequestOf(pc').value.maxVersions == Some(m)
  {
    hide PgReady, AllResolvable, OverLimit, MaxNumber, IsPlaced, TooFewOrMany;
  }

  lemma CallersStep(s: State, a: Action, m: int)
    requires Enabled(s, a) && Passes(a, m) && CallersPass(s.threads, m)
    ensures CallersPass(Apply(s, a).threads, m)
  {
    Effects(s, a);
    if HasCaller(a) {
      CallerPasses(s.pg, s.redis, At(s, a.t), a, m);
    }
    hide Apply, Enabled, Next, PgWritten, RedisWritten, PgReady, PcReady, LocksFree, RequestOf;
  }

  lemma {:induction false} LimitRun(s: State, run: seq<Action>, m: int)
    requires Inv(s) && Legal(s, run) && CallersPass(s.threads, m) && LimitInv(s, m)
    requires forall i | 0 <= i < |run| :: Passes(run[i], m)
    ensures LimitInv(Exec(s, run), m)
    decreases |run|
  {
    if run != [] {
      InvStep(s, run[0]);
      CallersStep(s, run[0], m);
      LimitStep(s, run[0], m);
      hide Inv, Enabled, Apply, CallersPass, LimitInv, Passes;
      LimitRun(Apply(s, run[0]), run[1..], m);
    }
  }

  /** The limit is never exceeded, whatever the interleaving, when every caller passes it. */
  lemma VersionLimitHolds(s: State, run: seq<Action>, m: int)
    requires Initial(s) && Legal(s, run) && |s.pg.versions| <= m
    requires forall i | 0 <= i < |run| :: Passes(run[i], m)
    ensures |Exec(s, run).pg.versions| <= m
  {
    InitialInv(s);
    LimitRun(s, run, m);
  }

  // ------------------------------------------------------ exactly-once capture

  /** Where a row with a write came from. */
  ghost predicate Sourced(rows: seq<Row>, origin: Origin) {
    forall j | 0 <= j < |rows| && rows[j].write.Some? :: origin.FromWorkingSet? || origin.FromSnapshotKey?
  }

  ghost predicate SourcedPc(pc: Pc) {
    && (pc.ReadDone? || pc.Numbered? || pc.Inserted? ==>
          forall j | 0 <= j < |pc.proposals| && pc.proposals[j].write.Some? ::
            pc.tx.origin.FromWorkingSet? || pc.tx.origin.FromSnapshotKey?)
    && (pc.Placing? ==> Sourced(pc.done, pc.tx.origin) && Sourced(pc.todo, pc.tx.origin))
  }

  /** No snapshot reads the working set without renaming it. */
  predicate NotWorking(pc: Pc) {
    HasTx(pc) ==> !pc.tx.origin.FromWorkingSet?
  }

  ghost predicate ClearingInv(threads: Threads, versions: seq<VersionRow>) {
    && (forall t | t in threads :: SourcedPc(threads[t]) && NotWorking(threads[t]))
    && (forall i | 0 <= i < |versions| ::
          Sourced(versions[i].rows, versions[i].origin) && !versions[i].origin.FromWorkingSet?)
  }

  /** The board clears on snapshot. */
  predicate Clears(a: Action) {
    a.StartSnapshot? ==> a.clear
  }

  lemma CallerClears(s: State, a: Action)
    requires Enabled(s, a) && HasCaller(a) && Clears(a) && NotWorking(At(s, a.t))
    ensures NotWorking(Next(s.pg, s.redis, At(s, a.t), a))
  {
    hide PgReady, AllResolvable, OverLimit, MaxNumber, IsPlaced, TooFewOrMany;
  }

  lemma CallerSourced(s: State, a: Action)
    requires Enabled(s, a) && HasCaller(a) && SourcedPc(At(s, a.t))
    ensures SourcedPc(Next(s.pg, s.redis, At(s, a.t), a))
  {
    var from := At(s, a.t);
    Effects(s, a);
    assert a.ReadRows? ==> Reads(s.pg, s.redis, from.tx, a.proposals);
    if a.ReadRows? {
      ReadKeeps(s.pg, s.redis, from, a);
    } else if a.ResolveEntries? {
      ResolveNext(s.pg, s.redis, from, a);
    } else if a.InsertPlacement? {
      PlaceSourced(s.pg, s.redis, from, a);
    } else {
      OtherNext(s.pg, s.redis, from, a);
      if Next(s.pg, s.redis, from, a).Numbered? || Next(s.pg, s.redis, from, a).Inserted? {
        OriginNext(s.pg, s.redis, from, a);
      }
    }
    hide Enabled, Apply, PgReady, PcReady, LocksFree, PgWritten, RedisWritten;
  }

  lemma PlaceSourced(pg: Pg, redis: Redis, pc: Pc, a: Action)
    requires a.InsertPlacement? && PcReady(pc, a) && PgReady(pg, pc, a) && SourcedPc(pc)
    ensures SourcedPc(Next(pg, redis, pc, a))
  {
  }

  lemma OriginNext(pg: Pg, redis: Redis, pc: Pc, a: Action)
    requires HasCaller(a) && PcReady(pc, a) && PgReady(pg, pc, a)
    requires Next(pg, redis, pc, a).Numbered? || Next(pg, redis, pc, a).Inserted?
    ensures HasTx(pc) && Next(pg, redis, pc, a).tx == pc.tx
  {
    hide PgReady, AllResolvable, OverLimit, MaxNumber, IsPlaced, TooFewOrMany;
  }

  lemma CommittedSource(s: State, a: Action)
    requires Enabled(s, a) && a.Commit? && SourcedPc(At(s, a.t)) && NotWorking(At(s, a.t))
    ensures var v := NewVersion(s.pg, At(s, a.t)); Sourced(v.rows, v.origin) && !v.origin.FromWorkingSet?
  {
    var from := At(s, a.t);
    CommitRows(s.pg, from);
    CallerKey(s.pg, s.redis, from, a);
    hide Apply, Enabled, Next, PgWritten, RedisWritten, PgReady, LocksFree;
  }

  lemma ClearingThreads(s: State, a: Action)
    requires Enabled(s, a) && Clears(a)
    requires forall t | t in s.threads :: SourcedPc(s.threads[t]) && NotWorking(s.threads[t])
    ensures forall t | t in Apply(s, a).threads ::
              SourcedPc(Apply(s, a).threads[t]) && NotWorking(Apply(s, a).threads[t])
  {
    assert SourcedPc(Idle) && NotWorking(Idle);
    hide Apply, Enabled, Next, PgWritten, RedisWritten, PgReady, PcReady, LocksFree, SourcedPc, NotWorking;
    Effects(s, a);
    if HasCaller(a) {
      CallerClears(s, a);
      CallerSourced(s, a);
    }
  }

  lemma ClearingStep(s: State, a: Action)
    requires Inv(s) && Enabled(s, a) && Clears(a) && ClearingInv(s.threads, s.pg.versions)
    ensures ClearingInv(Apply(s, a).threads, Apply(s, a).pg.versions)
  {
    VersionsAfter(s, a);
    ClearingThreads(s, a);
    assert SourcedPc(Idle) && NotWorking(Idle);
    if a.Commit? {
      CommittedSource(s, a);
    }
    hide Apply, Enabled, Inv, NewVersion, SourcedPc, Sourced, NotWorking, LocksFree, PgReady, PcReady;
  }

  lemma {:induction false} ClearingRun(s: State, run: seq<Action>)
    requires Inv(s) && Legal(s, run) && ClearingInv(s.threads, s.pg.versions)
    requires forall i | 0 <= i < |run| :: Clears(run[i])
    ensures ClearingInv(Exec(s, run).threads, Exec(s, run).pg.versions)
    decreases |run|
  {
    if run != [] {
      InvStep(s, run[0]);
      ClearingStep(s, run[0]);
      hide Inv, Enabled, Apply, ClearingInv, Clears;
      ClearingRun(Apply(s, run[0]), run[1..]);
    }
  }

  /** Two versions committed by clearing snapshots share no write. */
  lemma SnapshotsAreDisjoint(s: State, i: nat, j: nat, w: WriteId)
    requires Inv(s) && i < j < |s.pg.versions|
    requires s.pg.versions[i].origin.FromSnapshotKey? && s.pg.versions[j].origin.FromSnapshotKey?
    requires RowsCapture(s.pg.versions[i].rows, w)
    ensures !RowsCapture(s.pg.versions[j].rows, w)
  {
    var k, l := s.pg.versions[i].origin.key, s.pg.versions[j].origin.key;
    assert CaptureVersion(s.pg.slugOf, s.redis.renamed, s.pg.versions[i]);
    assert CaptureVersion(s.pg.slugOf, s.redis.renamed, s.pg.versions[j]);
    assert Disjoint(s.redis.renamed[k], s.redis.renamed[l]);
    CapturedIsMirrored(s.pg.slugOf, s.pg.versions[i].rows, s.redis.renamed[k], s.redis.writes, w);
    if RowsCapture(s.pg.versions[j].rows, w) {
      CapturedIsMirrored(s.pg.slugOf, s.pg.versions[j].rows, s.redis.renamed[l], s.redis.writes, w);
      assert false;
    }
  }

  lemma CapturedIsMirrored(
    slugOf: SlugOf, rows: seq<Row>, m: map<Slug, Cell>, writes: seq<WriteRecord>, w: WriteId)
    requires Mirrors(slugOf, rows, m) && CellsLogged(writes, m) && RowsCapture(rows, w)
    ensures w < |writes| && InSet(m, writes[w].slug, w)
  {
    var j :| 0 <= j < |rows| && rows[j].write == Some(w);
    assert RowMirrors(slugOf, rows[j], m);
  }

  /** On a board that clears on snapshot no score is captured twice. */
  lemma CapturedAtMostOnce(s: State, run: seq<Action>, i: nat, j: nat, w: WriteId)
    requires Initial(s) && Legal(s, run)
    requires forall n | 0 <= n < |run| :: Clears(run[n])
    requires i < j < |Exec(s, run).pg.versions|
    ensures !(RowsCapture(Exec(s, run).pg.versions[i].rows, w) && RowsCapture(Exec(s, run).pg.versions[j].rows, w))
  {
    InitialInv(s);
    InvRun(s, run);
    ClearingRun(s, run);
    var versions := Exec(s, run).pg.versions;
    assert Sourced(versions[i].rows, versions[i].origin) && Sourced(versions[j].rows, versions[j].origin);
    if RowsCapture(versions[i].rows, w) && RowsCapture(versions[j].rows, w) {
      SnapshotsAreDisjoint(Exec(s, run), i, j, w);
      assert false;
    }
  }

  // -------------------------------------------------------- snapshot isolation

  lemma {:induction false} RenamedStays(s: State, run: seq<Action>, k: SnapId)
    requires Legal(s, run) && k in s.redis.renamed
    ensures k in Exec(s, run).redis.renamed && Exec(s, run).redis.renamed[k] == s.redis.renamed[k]
    decreases |run|
  {
    if run != [] {
      RenamedKept(s, run[0]);
      hide Enabled, Apply;
      RenamedStays(Apply(s, run[0]), run[1..], k);
    }
  }

  /** The version that a clearing snapshot commits holds exactly the working set
      at the instant of its RENAME, whatever runs before and after it. */
  lemma SnapshotIsIsolated(
    s: State, before: seq<Action>, t: Tid, key: SnapId, after: seq<Action>, i: nat)
    requires Initial(s) && Legal(s, before + [Rename(t, key)] + after)
    requires var end := Exec(s, before + [Rename(t, key)] + after);
             i < |end.pg.versions| && end.pg.versions[i].origin == FromSnapshotKey(key)
    requires Legal(s, before) && Exec(s, before).redis.work != map[]
    ensures var end := Exec(s, before + [Rename(t, key)] + after);
            Mirrors(end.pg.slugOf, end.pg.versions[i].rows, Exec(s, before).redis.work)
  {
    var whole := before + [Rename(t, key)] + after;
    var end := Exec(s, whole);
    InitialInv(s);
    InvRun(s, whole);
    ExecConcat(s, before + [Rename(t, key)], after);
    ExecConcat(s, before, [Rename(t, key)]);
    var here := Exec(s, before);
    var next := Apply(here, Rename(t, key));
    assert Exec(here, [Rename(t, key)]) == next by {
      assert [Rename(t, key)][1..] == [];
      assert Exec(next, []) == next;
    }
    assert CaptureVersion(end.pg.slugOf, end.redis.renamed, end.pg.versions[i]);
    Effects(here, Rename(t, key));
    KeysAfter(here.redis, At(here, t), Rename(t, key));
    RenamedStays(next, after, key);
  }

  // ------------------------------------------------------------------- names

  /** Every live scored slug has a live name, in every reachable state. */
  lemma LiveSlugsHaveNames(s: State, run: seq<Action>)
    requires Initial(s) && Legal(s, run)
    ensures Exec(s, run).redis.work.Keys <= Exec(s, run).redis.names.Keys
  {
    InitialInv(s);
    InvRun(s, run);
  }

  // --------------------------------------------------------------- positions

  function ScoresOf(m: map<Slug, Cell>): map<Slug, Float64> {
    map slug | slug in m :: m[slug].score
  }

  /** The positions a clearing snapshot commits are the frozen ranking of the set
      it renamed, so they agree with the live standings of that set as
      Ranking.LiveMatchesFrozen says. */
  lemma CommittedPositions(s: State, t: Tid, j: nat)
    requires Inv(s) && Enabled(s, Commit(t)) && s.pg.scored && KeyOf(At(s, t)).Some?
    requires j < |At(s, t).done|
    ensures var m := s.redis.renamed[KeyOf(At(s, t)).value];
            var row := NewVersion(s.pg, At(s, t)).rows[j];
            && m.Keys <= s.pg.entries.Keys
            && SlugAt(s.pg.slugOf, row) in m
            && row.position
               == Some(FrozenRank(ScoresOf(m), IdsOf(s.pg.entries), s.pg.direction, SlugAt(s.pg.slugOf, row)))
  {
    var pc := At(s, t);
    var m := s.redis.renamed[KeyOf(pc).value];
    assert CapturePc(s.pg.slugOf, s.redis.renamed, pc);
    assert pc.done + pc.todo == pc.done;
    assert PcLive(s.pg.entries, s.pg.slugOf, pc);
    hide Inv, Enabled;
    RowsAreFrozen(s.pg.entries, s.pg.slugOf, pc.done, m);
    assert RowMirrors(s.pg.slugOf, pc.done[j], m);
    var slug := SlugAt(s.pg.slugOf, pc.done[j]);
    assert RowItem(pc.done[j]) == Frozen(ScoresOf(m), IdsOf(s.pg.entries))[slug];
  }

  lemma RowsAreFrozen(entries: Entries, slugOf: SlugOf, rows: seq<Row>, m: map<Slug, Cell>)
    requires Mirrors(slugOf, rows, m) && RowsLive(entries, slugOf, rows)
    ensures m.Keys <= entries.Keys
    ensures forall j | 0 <= j < |rows| :: SlugAt(slugOf, rows[j]) in m
              && RowItem(rows[j]) == Frozen(ScoresOf(m), IdsOf(entries))[SlugAt(slugOf, rows[j])]
    ensures RowItems(rows) == Image(Frozen(ScoresOf(m), IdsOf(entries)), ScoresOf(m).Keys)
  {
    forall slug | slug in m ensures slug in entries {
      assert HasSlug(slugOf, rows, slug);
      var j :| 0 <= j < |rows| && SlugAt(slugOf, rows[j]) == slug;
      assert RowMirrors(slugOf, rows[j], m) && Live(entries, slugOf, rows[j].entryId);
    }
    var f := Frozen(ScoresOf(m), IdsOf(entries));
    forall j | 0 <= j < |rows| ensures SlugAt(slugOf, rows[j]) in m && RowItem(rows[j]) == f[SlugAt(slugOf, rows[j])] {
      assert RowMirrors(slugOf, rows[j], m) && Live(entries, slugOf, rows[j].entryId);
    }
    forall x | x in Image(f, ScoresOf(m).Keys) ensures x in RowItems(rows) {
      var slug :| slug in m && f[slug] == x;
      assert HasSlug(slugOf, rows, slug);
      var j :| 0 <= j < |rows| && SlugAt(slugOf, rows[j]) == slug;
      assert rows[j] in rows;
    }
  }
}
