/** The machine of the two stores against the tables of `Versions` and `Scores`: each
    commit of the machine does to the tables what the call does when it runs in one
    piece, so the results about the tables hold of every interleaving. */
module StoreTables {
  import opened Core
  import opened Ordering
  import opened Ranking
  import opened StoreModel
  import opened StoreInvariants
  import opened StoreCapture
  import opened StoreTheorems
  import A = Appending
  import B = Boards
  import S = Scores
  import T = Tables
  import V = Versions

  // ------------------------------------------------------------ the same tables

  predicate RowIs(r: Row, p: Placement) {
    && r.entryId == p.entryId && r.position == p.position && r.score == p.score
    && r.tier == p.tier && r.metadata == p.metadata
  }

  predicate RowsAre(rows: seq<Row>, ps: seq<Placement>) {
    |rows| == |ps| && forall i | 0 <= i < |rows| :: RowIs(rows[i], ps[i])
  }

  predicate VersionIs(v: VersionRow, t: T.Tables, version: T.Version) {
    && v.number == version.number && v.note == version.note && v.metadata == version.metadata
    && RowsAre(v.rows, T.RowsOf(t.placements, version.id))
  }

  ghost predicate Matches(pg: Pg, t: T.Tables) {
    && (pg.scored <==> t.board.boardType.Scored?) && pg.direction == t.board.sortDirection
    && pg.entries == t.entries && pg.accumulated == t.accumulated
    && |pg.versions| == |t.versions|
    && forall i | 0 <= i < |pg.versions| :: VersionIs(pg.versions[i], t, t.versions[i])
  }

  // ------------------------------------------------------------------- a commit

  function Finals(t: T.Tables, rows: seq<Placement>): (r: seq<Placement>)
    ensures |r| == |rows| && forall i | 0 <= i < |rows| :: r[i] == A.FinalRow(t, rows, i)
  {
    seq(|rows|, i requires 0 <= i < |rows| => A.FinalRow(t, rows, i))
  }

  lemma AppendedRows(t: T.Tables, version: T.Version, rows: seq<Placement>)
    requires T.WellFormed(t) && A.VersionFits(t, version) && A.RowsFit(t, rows)
    ensures T.RowsOf(A.Appended(t, version, rows).placements, t.nextId) == Finals(t, rows)
  {
    var all := A.Appended(t, version, rows).placements;
    A.RowsAreOlder(t);
    forall i | 0 <= i < |rows| ensures all[|t.placements| + i] == A.FinalRow(t, rows, i) {
      A.FinalRowAt(t, version, rows, i);
    }
    assert forall i | 0 <= i < |t.placements| :: all[i] == t.placements[i];
    assert forall i | 0 <= i < |rows| :: A.FinalRow(t, rows, i).versionId == t.nextId;
    hide A.Appended, A.FinalRow, T.WellFormed, A.VersionFits, A.RowsFit;
    assert all == t.placements + Finals(t, rows);
    FilterAppend(T.OfVersion(t.nextId), t.placements, Finals(t, rows));
    FilterNone(T.OfVersion(t.nextId), t.placements);
    FilterAll(T.OfVersion(t.nextId), Finals(t, rows));
  }

  lemma SameItems(done: seq<Row>, rows: seq<Placement>, v: VersionId)
    requires RowsAre(done, rows) && forall i | 0 <= i < |rows| :: rows[i].versionId == v
    ensures RowItems(done) == ItemsOf(rows, v)
  {
    forall i | 0 <= i < |rows| ensures RowItem(done[i]) == ItemOf(rows[i]) {
      assert RowIs(done[i], rows[i]);
    }
    forall x | x in RowItems(done) ensures x in ItemsOf(rows, v) {
      var r :| r in done && RowItem(r) == x;
      var i :| 0 <= i < |done| && done[i] == r;
      assert rows[i] in rows;
    }
    forall x | x in ItemsOf(rows, v) ensures x in RowItems(done) {
      var p :| p in rows && p.versionId == v && ItemOf(p) == x;
      var i :| 0 <= i < |rows| && rows[i] == p;
      assert done[i] in done;
    }
  }

  /** Both models rank alike. */
  lemma CommittedRows(pg: Pg, t: T.Tables, pc: Pc, rows: seq<Placement>)
    requires Matches(pg, t) && pc.Placing? && RowsAre(pc.done, rows) && A.RowsFit(t, rows)
    ensures RowsAre(NewVersion(pg, pc).rows, Finals(t, rows))
  {
    SameItems(pc.done, rows, t.nextId);
    forall i | 0 <= i < |rows| ensures RowIs(NewVersion(pg, pc).rows[i], A.FinalRow(t, rows, i)) {
      assert RowIs(pc.done[i], rows[i]);
    }
  }

  /** The commit of rows is the appended version with those rows. */
  lemma CommitAppends(pg: Pg, t: T.Tables, pc: Pc, rows: seq<Placement>)
    requires Matches(pg, t) && T.WellFormed(t) && pc.Placing? && RowsAre(pc.done, rows)
    requires A.RowsFit(t, rows) && pc.number == V.NextNumber(t.versions)
    ensures var version := T.Version(t.nextId, pc.number, pc.tx.request.note, pc.tx.request.metadata);
            && A.VersionFits(t, version)
            && Matches(pg.(versions := pg.versions + [NewVersion(pg, pc)]), A.Appended(t, version, rows))
  {
    var version := T.Version(t.nextId, pc.number, pc.tx.request.note, pc.tx.request.metadata);
    var t' := A.Appended(t, version, rows);
    var v := NewVersion(pg, pc);
    AppendedRows(t, version, rows);
    CommittedRows(pg, t, pc, rows);
    A.AppendedParts(t, version, rows);
    hide A.Appended, Finals, A.RowsFit, RowsAre, T.RowsOf;
    forall i | 0 <= i < |t'.versions| ensures VersionIs((pg.versions + [v])[i], t', t'.versions[i]) {
      if i < |t.versions| {
        assert VersionIs(pg.versions[i], t, t.versions[i]);
        A.AppendedKeepsRows(t, version, rows, t.versions[i].id);
      }
    }
  }

  lemma {:induction false} SameMax(versions: seq<VersionRow>, others: seq<T.Version>)
    requires |versions| == |others| && forall i | 0 <= i < |versions| :: versions[i].number == others[i].number
    ensures V.NextNumber(others) == MaxNumber(versions) + 1
  {
    if versions != [] {
      SameMax(versions[..|versions| - 1], others[..|others| - 1]);
    }
  }

  // ------------------------------------------- a call keeps what its read returned

  predicate RowFollows(slugOf: SlugOf, r: Row, p: Proposal) {
    && (if p.known.Some? then r.entryId == p.known.value else r.entryId in slugOf && slugOf[r.entryId] == p.slug)
    && r.position == p.position && r.score == p.score && r.tier == p.tier && r.metadata == p.metadata
  }

  predicate RowsFollow(slugOf: SlugOf, rows: seq<Row>, ps: seq<Proposal>) {
    |rows| == |ps| && forall i | 0 <= i < |rows| :: RowFollows(slugOf, rows[i], ps[i])
  }

  /** Between its read and its commit the call carries exactly ps. */
  predicate Carries(slugOf: SlugOf, ps: seq<Proposal>, pc: Pc) {
    && (pc.ReadDone? || pc.Numbered? || pc.Inserted? ==> pc.proposals == ps)
    && (pc.Placing? ==> RowsFollow(slugOf, pc.done + pc.todo, ps))
  }

  lemma ResolveFollows(entries: Entries, slugOf: SlugOf, ps: seq<Proposal>)
    requires IdsInv(entries, slugOf) && AllResolvable(entries, ps)
    ensures RowsFollow(slugOf, ResolvedAll(entries, ps), ps)
  {
    forall i | 0 <= i < |ps| ensures RowFollows(slugOf, ResolvedAll(entries, ps)[i], ps[i]) {
      assert Resolvable(entries, ps[i]);
    }
  }

  /** The caller's next position, with the tables as they were. */
  lemma CallerCarries(pg: Pg, redis: Redis, pc: Pc, a: Action, ps: seq<Proposal>)
    requires HasCaller(a) && PcReady(pc, a) && PgReady(pg, pc, a) && !a.ReadRows?
    requires IdsInv(pg.entries, pg.slugOf) && Carries(pg.slugOf, ps, pc)
    ensures Carries(pg.slugOf, ps, Next(pg, redis, pc, a))
  {
    if a.ResolveEntries? {
      ResolveNext(pg, redis, pc, a);
      if AllResolvable(pg.entries, pc.proposals) {
        ResolveFollows(pg.entries, pg.slugOf, ps);
        assert [] + ResolvedAll(pg.entries, ps) == ResolvedAll(pg.entries, ps);
      }
    } else if a.InsertPlacement? {
      PlaceNext(pg, redis, pc, a);
    } else {
      OtherNext(pg, redis, pc, a);
    }
    hide Next, PgReady, PcReady, IdsInv, RowsFollow, ResolvedAll, AllResolvable;
  }

  lemma CarriesKept(slugOf: SlugOf, slugOf': SlugOf, ps: seq<Proposal>, pc: Pc)
    requires Carries(slugOf, ps, pc)
    requires forall e | e in slugOf :: e in slugOf' && slugOf'[e] == slugOf[e]
    ensures Carries(slugOf', ps, pc)
  {
    if pc.Placing? {
      var rows := pc.done + pc.todo;
      forall i | 0 <= i < |rows| ensures RowFollows(slugOf', rows[i], ps[i]) {
        assert RowFollows(slugOf, rows[i], ps[i]);
      }
    }
  }

  lemma CarriesStep(s: State, a: Action, t: Tid, ps: seq<Proposal>)
    requires Inv(s) && Enabled(s, a) && !(a.ReadRows? && a.t == t)
    requires Carries(s.pg.slugOf, ps, At(s, t))
    ensures Carries(Apply(s, a).pg.slugOf, ps, At(Apply(s, a), t))
  {
    assert IdsInv(s.pg.entries, s.pg.slugOf);
    hide Inv, Enabled, Apply, Carries, Next, PgWritten, RedisWritten, LocksFree;
    Effects(s, a);
    LiveKept(s.pg, From(s, a), a);
    if HasCaller(a) && a.t == t {
      CallerCarries(s.pg, s.redis, At(s, t), a, ps);
    }
    CarriesKept(s.pg.slugOf, Apply(s, a).pg.slugOf, ps, At(Apply(s, a), t));
  }

  lemma {:induction false} CarriesRun(s: State, run: seq<Action>, t: Tid, ps: seq<Proposal>)
    requires Inv(s) && Legal(s, run) && Carries(s.pg.slugOf, ps, At(s, t))
    requires forall i | 0 <= i < |run| :: !(run[i].ReadRows? && run[i].t == t)
    ensures Carries(Exec(s, run).pg.slugOf, ps, At(Exec(s, run), t))
    decreases |run|
  {
    hide Inv, Enabled, Apply, Carries, At;
    if run != [] {
      CarriesStep(s, run[0], t, ps);
      InvStep(s, run[0]);
      CarriesRun(Apply(s, run[0]), run[1..], t, ps);
    }
  }

  // ------------------------------------------------------------ single statements

  lemma SameVersions(pg: Pg, t: T.Tables, pg': Pg, t': T.Tables)
    requires Matches(pg, t) && pg'.versions == pg.versions && pg'.scored == pg.scored
    requires t'.versions == t.versions && t'.placements == t.placements
    requires t'.board.boardType == t.board.boardType && pg'.direction == t'.board.sortDirection
    requires pg'.entries == t'.entries && pg'.accumulated == t'.accumulated
    ensures Matches(pg', t')
  {
    hide RowsAre;
    forall i | 0 <= i < |pg'.versions| ensures VersionIs(pg'.versions[i], t', t'.versions[i]) {
      assert VersionIs(pg.versions[i], t, t.versions[i]);
    }
  }

  /** UPDATE entries: what `Boards.EntryUpdate` writes. */
  lemma UpdateEntryMatches(s: State, a: Action, t: T.Tables, metadata: B.Nullable<Json>)
    requires Enabled(s, a) && a.UpdateEntry? && Matches(s.pg, t)
    requires metadata == if a.metadata.Some? then B.Value(a.metadata.value) else B.Null
    ensures a.slug in t.entries
    ensures Matches(Apply(s, a).pg, B.WithUpdate(t, a.slug, B.UpdateEntry(Some(a.name), metadata)))
  {
    SameVersions(s.pg, t, Apply(s, a).pg, B.WithUpdate(t, a.slug, B.UpdateEntry(Some(a.name), metadata)));
  }

  /** INSERT INTO entries: what `Boards.CreateEntry` writes. */
  lemma CreateEntryMatches(s: State, a: Action, t: T.Tables)
    requires Enabled(s, a) && a.CreateEntry? && Matches(s.pg, t) && a.newId == t.nextId
    ensures a.slug !in t.entries && Matches(Apply(s, a).pg, B.WithEntry(t, a.slug, a.name, a.metadata))
  {
    SameVersions(s.pg, t, Apply(s, a).pg, B.WithEntry(t, a.slug, a.name, a.metadata));
  }

  /** A staged submit: what `Scores.Submit` writes. */
  lemma SubmitMatches(s: State, a: Action, t: T.Tables)
    requires Enabled(s, a) && a.SubmitAccumulated? && Matches(s.pg, t) && a.newId == t.nextId
    ensures Matches(Apply(s, a).pg, S.Submitted(t, a.slug, a.name, a.score))
  {
    SameVersions(s.pg, t, Apply(s, a).pg, S.Submitted(t, a.slug, a.name, a.score));
  }

  /** The ranking direction of the board row. */
  lemma UpdateBoardMatches(s: State, a: Action, t: T.Tables)
    requires Enabled(s, a) && a.UpdateBoard? && Matches(s.pg, t)
    ensures Matches(Apply(s, a).pg, t.(board := t.board.(sortDirection := a.direction)))
  {
    SameVersions(s.pg, t, Apply(s, a).pg, t.(board := t.board.(sortDirection := a.direction)));
  }

  /** In every reachable state a delete takes one entry and its staged score, as
      `Boards.DeleteEntry` does: its cascade finds no placement. */
  lemma DeleteEntryMatches(s: State, run: seq<Action>, t: Tid, tables: T.Tables)
    requires Initial(s) && Legal(s, run) && Enabled(Exec(s, run), Action.DeleteEntry(t))
    requires Matches(Exec(s, run).pg, tables)
    ensures var e := At(Exec(s, run), t).entry;
            exists slug :: slug in tables.entries && tables.entries[slug].id == e
              && Matches(Apply(Exec(s, run), Action.DeleteEntry(t)).pg,
                         tables.(entries := tables.entries - {slug}, accumulated := tables.accumulated - {e}))
  {
    InitialInv(s);
    InvRun(s, run);
    hide Initial, Legal, Exec;
    DeleteNow(Exec(s, run), t, tables);
  }

  lemma DeleteNow(here: State, t: Tid, tables: T.Tables)
    requires Inv(here) && Enabled(here, Action.DeleteEntry(t)) && Matches(here.pg, tables)
    ensures var e := At(here, t).entry;
            exists slug :: slug in tables.entries && tables.entries[slug].id == e
              && Matches(Apply(here, Action.DeleteEntry(t)).pg,
                         tables.(entries := tables.entries - {slug}, accumulated := tables.accumulated - {e}))
  {
    var slug := DeletesOne(here, t);
    var e := At(here, t).entry;
    hide Inv, Enabled, Apply;
    SameVersions(here.pg, tables, Apply(here, Action.DeleteEntry(t)).pg,
                 tables.(entries := tables.entries - {slug}, accumulated := tables.accumulated - {e}));
  }

  lemma DeletesOne(here: State, t: Tid) returns (slug: Slug)
    requires Inv(here) && Enabled(here, Action.DeleteEntry(t))
    ensures var e := At(here, t).entry;
            && slug in here.pg.entries && here.pg.entries[slug].id == e
            && Apply(here, Action.DeleteEntry(t)).pg
               == here.pg.(entries := here.pg.entries - {slug}, accumulated := here.pg.accumulated - {e})
  {
    assert t in here.threads && CountInv(here.pg.versions, here.threads);
    hide Inv;
    CascadeSpares(here.pg.versions, At(here, t).entry);
    slug := here.pg.slugOf[At(here, t).entry];
  }

  // ------------------------------------------------------------- versions::create

  ghost predicate InputPc(slugOf: SlugOf, pc: Pc) {
    HasTx(pc) && pc.tx.origin.FromInput? ==> Carries(slugOf, pc.tx.input, pc)
  }

  /** Every create carries its input, and counted fewer versions than its limit. */
  ghost predicate CreateInv(pg: Pg, threads: Threads) {
    forall t | t in threads ::
      InputPc(pg.slugOf, threads[t]) && (PastCount(threads[t]) ==> !OverLimit(pg.versions, threads[t].tx))
  }

  lemma TxNext(pg: Pg, redis: Redis, pc: Pc, a: Action)
    requires HasCaller(a) && PcReady(pc, a) && PgReady(pg, pc, a)
    ensures var pc' := Next(pg, redis, pc, a);
            && (HasTx(pc') && !pc'.WantLock? ==> HasTx(pc) && pc'.tx == pc.tx)
            && (PastCount(pc') ==> PastCount(pc) || !OverLimit(pg.versions, pc.tx))
            && (a.Commit? ==> HoldsBoard(pc) && !PastCount(pc'))
  {
    hide PgReady, AllResolvable, OverLimit, MaxNumber, IsPlaced, TooFewOrMany;
  }

  lemma ReadsInput(s: State, a: Action)
    requires Enabled(s, a) && a.ReadRows?
    ensures var pc := Next(s.pg, s.redis, At(s, a.t), a);
            At(s, a.t).tx.origin.FromInput? && HasTx(pc) ==>
              Carries(s.pg.slugOf, At(s, a.t).tx.input, pc) && pc.tx == At(s, a.t).tx
  {
    hide LocksFree, TooFewOrMany;
  }

  lemma CallerInput(s: State, a: Action)
    requires Inv(s) && Enabled(s, a) && HasCaller(a) && InputPc(s.pg.slugOf, At(s, a.t))
    ensures InputPc(s.pg.slugOf, Next(s.pg, s.redis, At(s, a.t), a))
  {
    var from := At(s, a.t);
    IdsHold(s);
    hide Inv, Apply, PgWritten, RedisWritten, LocksFree, Next, Enabled, PgReady, RowsFollow, PcReady, Reads, IdsInv,
      Carries;
    Effects(s, a);
    TxNext(s.pg, s.redis, from, a);
    var pc := Next(s.pg, s.redis, from, a);
    if pc.WantLock? {
      WaitingCarries(s.pg.slugOf, pc);
    } else if a.ReadRows? {
      ReadsInput(s, a);
    } else if HasTx(from) && from.tx.origin.FromInput? {
      CallerCarries(s.pg, s.redis, from, a, from.tx.input);
    }
  }

  lemma WaitingCarries(slugOf: SlugOf, pc: Pc)
    requires pc.WantLock?
    ensures InputPc(slugOf, pc)
  {
  }

  lemma CreateStep(s: State, a: Action)
    requires Inv(s) && Enabled(s, a) && CreateInv(s.pg, s.threads)
    ensures CreateInv(Apply(s, a).pg, Apply(s, a).threads)
  {
    hide Inv, Enabled, Apply, Next, PgWritten, RedisWritten, LocksFree, Carries, NewVersion, PgReady, PcReady;
    var s' := Apply(s, a);
    Effects(s, a);
    CreateEffects(s, a);
    assert InputPc(s.pg.slugOf, Idle) && !PastCount(Idle);
    if HasCaller(a) {
      CallerInput(s, a);
      TxNext(s.pg, s.redis, At(s, a.t), a);
    }
    forall t | t in s'.threads
      ensures InputPc(s'.pg.slugOf, s'.threads[t])
      ensures PastCount(s'.threads[t]) ==> !OverLimit(s'.pg.versions, s'.threads[t].tx)
    {
      var pc := s'.threads[t];
      if HasTx(pc) && pc.tx.origin.FromInput? {
        CarriesKept(s.pg.slugOf, s'.pg.slugOf, pc.tx.input, pc);
      }
    }
  }

  /** What a step does to the versions and the ids, and to whom it can matter. */
  lemma CreateEffects(s: State, a: Action)
    requires Inv(s) && Enabled(s, a)
    ensures forall e | e in s.pg.slugOf :: e in Apply(s, a).pg.slugOf && Apply(s, a).pg.slugOf[e] == s.pg.slugOf[e]
    ensures !a.Commit? ==> Apply(s, a).pg.versions == s.pg.versions
    ensures a.Commit? ==> forall u | u in s.threads && u != a.t :: !PastCount(s.threads[u])
  {
    VersionsAfter(s, a);
    Effects(s, a);
    LiveKept(s.pg, From(s, a), a);
    if a.Commit? {
      OthersWait(s.threads, a.t);
    }
    hide Inv, Enabled, Apply, Next, PgWritten, RedisWritten, LocksFree, NewVersion, PgReady, PcReady;
  }

  lemma {:induction false} CreateRun(s: State, run: seq<Action>)
    requires Inv(s) && Legal(s, run) && CreateInv(s.pg, s.threads)
    ensures CreateInv(Exec(s, run).pg, Exec(s, run).threads)
    decreases |run|
  {
    hide Inv, Enabled, Apply, CreateInv;
    if run != [] {
      CreateStep(s, run[0]);
      InvStep(s, run[0]);
      CreateRun(Apply(s, run[0]), run[1..]);
    }
  }

  /** The rows that a create asks for, in the machine's terms. */
  function ProposalsOf(board: Board, ps: seq<V.CreatePlacement>): seq<Proposal> {
    seq(|ps|, i requires 0 <= i < |ps| =>
      Proposal(ps[i].entrySlug, None, V.StoredPosition(board, ps[i], i), ps[i].score, ps[i].tier, ps[i].metadata, None))
  }

  lemma CarriedRows(pg: Pg, t: T.Tables, rows: seq<Row>, ps: seq<V.CreatePlacement>)
    requires Matches(pg, t) && RowsFollow(pg.slugOf, rows, ProposalsOf(t.board, ps))
    requires RowsLive(pg.entries, pg.slugOf, rows)
    ensures V.AllFound(t.entries, ps) && RowsAre(rows, V.NewRows(t, t.nextId, ps))
  {
    forall i | 0 <= i < |ps|
      ensures ps[i].entrySlug in t.entries && t.entries[ps[i].entrySlug].id == rows[i].entryId
    {
      assert RowFollows(pg.slugOf, rows[i], ProposalsOf(t.board, ps)[i]);
      assert Live(pg.entries, pg.slugOf, rows[i].entryId);
    }
    forall i | 0 <= i < |ps| ensures RowIs(rows[i], V.NewRow(t, t.nextId, ps[i], i)) {
      assert RowFollows(pg.slugOf, rows[i], ProposalsOf(t.board, ps)[i]);
    }
  }

  lemma CommitsNext(s: State, t: Tid)
    requires Inv(s) && Enabled(s, Commit(t))
    ensures var pc := At(s, t);
            && t in s.threads && pc.Placing? && pc.todo == [] && RowsLive(s.pg.entries, s.pg.slugOf, pc.done)
            && pc.number == MaxNumber(s.pg.versions) + 1
            && Apply(s, Commit(t)).pg == s.pg.(versions := s.pg.versions + [NewVersion(s.pg, pc)])
  {
    assert t in s.threads;
    assert PcLive(s.pg.entries, s.pg.slugOf, s.threads[t]);
    assert NumbersAssigned(s.pg.versions, s.threads);
    hide Inv, NewVersion, MaxNumber, Next, RedisWritten;
    Effects(s, Commit(t));
  }

  /** A create that commits, after any interleaving, does to the tables of that
      moment exactly what `Versions.Create` does to them in one piece, and would
      have been allowed to: the limit holds and every entry is there. */
  lemma CreateIsAtomic(s: State, run: seq<Action>, t: Tid, tables: T.Tables, input: V.CreateVersion)
    requires Initial(s) && Legal(s, run) && Enabled(Exec(s, run), Commit(t))
    requires var here := Exec(s, run);
             && Matches(here.pg, tables) && T.WellFormed(tables)
             && At(here, t).tx.origin == FromInput
             && At(here, t).tx.input == ProposalsOf(tables.board, input.placements)
             && At(here, t).tx.request.note == input.note && At(here, t).tx.request.metadata == input.metadata
    requires V.DistinctSlugs(input.placements)
    ensures V.AllFound(tables.entries, input.placements)
    ensures var max := At(Exec(s, run), t).tx.request.maxVersions; max.Some? ==> |tables.versions| < max.value
    ensures Matches(Apply(Exec(s, run), Commit(t)).pg, V.Created(tables, input))
  {
    InitialInv(s);
    InvRun(s, run);
    CreateRun(s, run);
    var here := Exec(s, run);
    hide Initial, Legal, Exec;
    CreateNow(here, t, tables, input);
  }

  lemma CreateNow(here: State, t: Tid, tables: T.Tables, input: V.CreateVersion)
    requires Inv(here) && CreateInv(here.pg, here.threads) && Enabled(here, Commit(t))
    requires Matches(here.pg, tables) && T.WellFormed(tables)
    requires At(here, t).tx.origin == FromInput && At(here, t).tx.input == ProposalsOf(tables.board, input.placements)
    requires At(here, t).tx.request.note == input.note && At(here, t).tx.request.metadata == input.metadata
    requires V.DistinctSlugs(input.placements)
    ensures V.AllFound(tables.entries, input.placements)
    ensures var max := At(here, t).tx.request.maxVersions; max.Some? ==> |tables.versions| < max.value
    ensures Matches(Apply(here, Commit(t)).pg, V.Created(tables, input))
  {
    CommitsNext(here, t);
    var pc := At(here, t);
    assert InputPc(here.pg.slugOf, here.threads[t]) && !OverLimit(here.pg.versions, here.threads[t].tx);
    assert pc.done + pc.todo == pc.done;
    hide Inv, CreateInv, Enabled, Apply, NewVersion, MaxNumber, T.WellFormed, Matches;
    CarriedRows(here.pg, tables, pc.done, input.placements);
    V.NewRowsFit(tables, input);
    SameNumbers(here.pg, tables);
    CommitAppends(here.pg, tables, pc, V.NewRows(tables, tables.nextId, input.placements));
  }

  lemma SameNumbers(pg: Pg, t: T.Tables)
    requires Matches(pg, t)
    ensures |pg.versions| == |t.versions| && V.NextNumber(t.versions) == MaxNumber(pg.versions) + 1
  {
    forall i | 0 <= i < |pg.versions| ensures pg.versions[i].number == t.versions[i].number {
      assert VersionIs(pg.versions[i], t, t.versions[i]);
    }
    SameMax(pg.versions, t.versions);
  }

  // ------------------------------------------------------------- scores::snapshot

  /** The staged scores as rows of the next version. */
  function StagedRows(v: VersionId, rows: seq<Row>): (r: seq<Placement>)
    ensures |r| == |rows|
  {
    seq(|rows|, i requires 0 <= i < |rows| =>
      Placement(v, rows[i].entryId, rows[i].position, rows[i].score, rows[i].tier, rows[i].metadata))
  }

  lemma StagedRow(slugOf: SlugOf, r: Row, p: Proposal)
    requires RowFollows(slugOf, r, p)
    ensures p.known.Some? ==> p.known.value == r.entryId
    ensures r.position == p.position && r.score == p.score && r.tier == p.tier && r.metadata == p.metadata
  {
  }

  lemma StagedAreListed(
    slugOf: SlugOf, v: VersionId, rows: seq<Row>, ps: seq<Proposal>, accumulated: map<EntryId, Float64>)
    requires ListsAccumulated(accumulated, ps) && RowsFollow(slugOf, rows, ps)
    ensures S.ListsStaged(StagedRows(v, rows), v, accumulated)
  {
    hide RowFollows;
    forall i | 0 <= i < |rows|
      ensures ps[i].known == Some(rows[i].entryId) && rows[i].entryId in accumulated
      ensures StagedRows(v, rows)[i]
              == Placement(v, rows[i].entryId, None, Some(accumulated[rows[i].entryId]), None, None)
    {
      assert RowFollows(slugOf, rows[i], ps[i]);
      StagedRow(slugOf, rows[i], ps[i]);
    }
    forall i, j | 0 <= i < j < |rows| ensures StagedRows(v, rows)[i].entryId != StagedRows(v, rows)[j].entryId {
      assert ps[i].known != ps[j].known;
    }
    forall e | e in accumulated ensures exists i :: 0 <= i < |rows| && StagedRows(v, rows)[i].entryId == e {
      var i :| 0 <= i < |ps| && ps[i].known == Some(e);
      assert StagedRows(v, rows)[i].entryId == e;
    }
  }

  lemma StagedFit(pg: Pg, t: T.Tables, rows: seq<Row>, accumulated: map<EntryId, Float64>)
    requires Matches(pg, t) && RowsLive(pg.entries, pg.slugOf, rows)
    requires S.ListsStaged(StagedRows(t.nextId, rows), t.nextId, accumulated)
    ensures A.RowsFit(t, StagedRows(t.nextId, rows))
  {
    forall i | 0 <= i < |rows| ensures T.HasId(t.entries, rows[i].entryId) {
      assert Live(pg.entries, pg.slugOf, rows[i].entryId);
    }
  }

  /** What a commit of the staged scores leaves, given the staging table at its read. */
  ghost predicate Snapshotted(t: T.Tables, pg': Pg, request: Request, accumulated: map<EntryId, Float64>) {
    var version := S.NextVersion(t, request.note, request.metadata);
    exists rows: seq<Placement> ::
      && S.ListsStaged(rows, t.nextId, accumulated)
      && A.RowsFit(t, rows)
      && Matches(pg', A.Appended(t, version, rows))
  }

  lemma SnapshotTables(pg: Pg, t: T.Tables, pc: Pc, ps: seq<Proposal>, accumulated: map<EntryId, Float64>)
    requires pc.Placing? && RowsFollow(pg.slugOf, pc.done, ps) && RowsLive(pg.entries, pg.slugOf, pc.done)
    requires pc.number == MaxNumber(pg.versions) + 1 && ListsAccumulated(accumulated, ps)
    requires Matches(pg, t) && T.WellFormed(t)
    ensures Snapshotted(t, pg.(versions := pg.versions + [NewVersion(pg, pc)]), pc.tx.request, accumulated)
  {
    hide NewVersion, MaxNumber, T.WellFormed, Matches, ListsAccumulated, S.ListsStaged, A.RowsFit, RowsFollow, RowsLive,
      A.Appended, A.VersionFits;
    var rows := StagedRows(t.nextId, pc.done);
    StagedAreListed(pg.slugOf, t.nextId, pc.done, ps, accumulated);
    StagedFit(pg, t, pc.done, accumulated);
    SameNumbers(pg, t);
    hide StagedRows;
    CommitAppends(pg, t, pc, rows);
  }

  lemma SnapshotNow(here: State, t: Tid, tables: T.Tables, ps: seq<Proposal>, accumulated: map<EntryId, Float64>)
    requires Inv(here) && Enabled(here, Commit(t)) && Carries(here.pg.slugOf, ps, At(here, t))
    requires ListsAccumulated(accumulated, ps) && Matches(here.pg, tables) && T.WellFormed(tables)
    ensures Snapshotted(tables, Apply(here, Commit(t)).pg, At(here, t).tx.request, accumulated)
  {
    hide Inv, Enabled, Apply, NewVersion, MaxNumber, T.WellFormed, Matches, ListsAccumulated, RowsFollow, RowsLive,
      Snapshotted;
    CommitsNext(here, t);
    var pc := At(here, t);
    assert pc.done + pc.todo == pc.done;
    SnapshotTables(here.pg, tables, pc, ps, accumulated);
  }

  /** A snapshot of the staged scores that commits, after any interleaving, appends
      to the tables of that moment the version that `Scores.Snapshot` appends for the
      staging table it read. */
  lemma SnapshotIsAtomic(
    s: State, before: seq<Action>, t: Tid, ps: seq<Proposal>, after: seq<Action>, tables: T.Tables)
    requires Initial(s) && Legal(s, before + [ReadRows(t, ps)] + after) && Legal(s, before)
    requires forall i | 0 <= i < |after| :: !(after[i].ReadRows? && after[i].t == t)
    requires At(Exec(s, before), t).Counted? && At(Exec(s, before), t).tx.origin == FromAccumulated
    requires var end := Exec(s, before + [ReadRows(t, ps)] + after);
             Enabled(end, Commit(t)) && Matches(end.pg, tables) && T.WellFormed(tables)
    ensures var end := Exec(s, before + [ReadRows(t, ps)] + after);
            Snapshotted(tables, Apply(end, Commit(t)).pg, At(end, t).tx.request, Exec(s, before).pg.accumulated)
  {
    var a := ReadRows(t, ps);
    var here := Exec(s, before);
    InitialInv(s);
    InvRun(s, before);
    ExecConcat(s, before + [a], after);
    ExecConcat(s, before, [a]);
    SingleStep(here, a);
    InvStep(here, a);
    ReadsStaged(here, a);
    var next := Apply(here, a);
    hide Inv, Initial, Legal, Enabled, Apply, Carries, Snapshotted, Matches, T.WellFormed, ListsAccumulated;
    CarriesRun(next, after, t, ps);
    InvRun(next, after);
    SnapshotNow(Exec(next, after), t, tables, ps, here.pg.accumulated);
  }

  lemma SingleStep(s: State, a: Action)
    requires Legal(s, [a])
    ensures Enabled(s, a) && Exec(s, [a]) == Apply(s, a)
  {
    assert [a][1..] == [];
    assert Exec(Apply(s, a), []) == Apply(s, a);
    hide Enabled, Apply;
  }

  lemma ReadsStaged(s: State, a: Action)
    requires Enabled(s, a) && a.ReadRows? && At(s, a.t).tx.origin == FromAccumulated
    ensures ListsAccumulated(s.pg.accumulated, a.proposals)
    ensures Carries(Apply(s, a).pg.slugOf, a.proposals, At(Apply(s, a), a.t))
  {
    hide LocksFree, TooFewOrMany, ListsAccumulated;
  }

  /** When nobody submitted in between, that is the contract of `Scores.Snapshot`. */
  lemma SnapshotHolds(t: T.Tables, pg': Pg, request: Request)
    requires T.WellFormed(t) && t.board.boardType.Scored? && Snapshotted(t, pg', request, t.accumulated)
    ensures var version := S.NextVersion(t, request.note, request.metadata);
            exists t' :: Matches(pg', t') && S.HoldsStaged(t, t', version)
  {
    var version := S.NextVersion(t, request.note, request.metadata);
    var rows: seq<Placement> :| S.ListsStaged(rows, t.nextId, t.accumulated) && A.RowsFit(t, rows)
                                && Matches(pg', A.Appended(t, version, rows));
    assert A.VersionFits(t, version);
    S.SnapshotHoldsStaged(t, version, rows);
  }
}
