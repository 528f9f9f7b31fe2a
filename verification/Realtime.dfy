/** `realtime.rs` as a class over the Redis keys and the board's tables. Every round
    trip is one method, proved to be the machine's step, so whatever order any
    number of calls take them in, the StoreTheorems hold. Below them `submit`,
    `snapshot` and `clear` run the steps in the source's order. */
module RealtimeClass {
  import opened Core
  import opened Floats
  import opened Ordering
  import opened Ranking
  import opened StoreModel
  import opened StoreInvariants
  import opened StoreCapture
  import opened StoreTheorems

  /** No other call is between two round trips. */
  predicate Alone(threads: map<Tid, Pc>, t: Tid) {
    forall u | u in threads && u != t :: threads[u] == Idle
  }

  class RealtimeBoard {
    // {prefix}:board:{slug}:scores, :entries, and the keys of snapshots in progress
    var scores: map<Slug, Cell>
    var names: map<Slug, string>
    var snaps: map<SnapId, map<Slug, Cell>>
    // the board's rows in PostgreSQL
    var pg: Pg
    // history
    var writes: seq<WriteRecord>
    ghost var renamed: map<SnapId, map<Slug, Cell>>
    ghost var overwritten: map<WriteId, WriteId>
    ghost var dropped: set<WriteId>
    ghost var cleared: set<WriteId>
    ghost var threads: map<Tid, Pc>
    ghost const imported: nat

    ghost function View(): State
      reads this
    {
      State(pg, Redis(scores, names, snaps, writes, renamed, overwritten, dropped, cleared), threads, imported)
    }

    constructor (pg: Pg)
      requires Initial(State(pg, Redis(map[], map[], map[], [], map[], map[], {}, {}), map[], |pg.versions|))
      ensures Initial(View()) && Inv(View()) && this.pg == pg
    {
      this.pg := pg;
      scores, names, snaps, writes := map[], map[], map[], [];
      renamed, overwritten, dropped, cleared := map[], map[], {}, {};
      threads, imported := map[], |pg.versions|;
      new;
      InitialInv(View());
    }

    /** A step that changes nothing but where the call stands. */
    ghost method Local(a: Action)
      requires Inv(View()) && Enabled(View(), a) && IsLocal(a) && HasCaller(a)
      modifies this`threads
      ensures View() == Apply(old(View()), a) && Inv(View())
      ensures threads == old(threads)[a.t := Next(pg, View().redis, At(old(View()), a.t), a)]
    {
      Effects(View(), a);
      LocalWritesNothing(View(), a);
      InvStep(View(), a);
      hide Inv, Enabled, Apply, Next, PgReady, PcReady, LocksFree, PgWritten, RedisWritten;
      threads := threads[a.t := Next(pg, View().redis, At(View(), a.t), a)];
    }

    // ---------------------------------------------------------------- submit

    /** INSERT INTO entries ... ON CONFLICT DO UPDATE. */
    method UpsertEntry(ghost t: Tid, slug: Slug, name: string, newId: EntryId)
      requires Inv(View()) && Enabled(View(), Action.UpsertEntry(t, newId))
      requires At(View(), t).slug == slug && At(View(), t).name == name
      modifies this`pg, this`threads
      ensures View() == Apply(old(View()), Action.UpsertEntry(t, newId)) && Inv(View())
      ensures pg == Upserted(old(pg), slug, name, newId)
      ensures threads == old(threads)[t := SubmitScore(slug, name, At(old(View()), t).score)]
    {
      hide Inv;
      ghost var a := Action.UpsertEntry(t, newId);
      Effects(View(), a);
      SubmitSteps(View(), a);
      InvStep(View(), a);
      hide *;
      pg := Upserted(pg, slug, name, newId);
      threads := threads[t := SubmitScore(slug, name, At(View(), t).score)];
    }

    /** MULTI; ZADD; HSET; EXEC. */
    method WriteScore(ghost t: Tid, slug: Slug, name: string, score: Float64)
      requires Inv(View()) && Enabled(View(), Action.WriteScore(t))
      requires At(View(), t) == SubmitScore(slug, name, score)
      modifies this`scores, this`names, this`writes, this`overwritten, this`threads
      ensures View() == Apply(old(View()), Action.WriteScore(t)) && Inv(View())
      ensures scores == old(scores)[slug := Cell(score, |old(writes)|)]
      ensures names == old(names)[slug := name] && writes == old(writes) + [WriteRecord(slug, score)]
      ensures threads == old(threads)[t := Idle]
    {
      hide Inv;
      ghost var a := Action.WriteScore(t);
      Effects(View(), a);
      SubmitSteps(View(), a);
      InvStep(View(), a);
      hide Enabled, Apply, Next, PgReady, PcReady, LocksFree, PgWritten, RedisWritten;
      if slug in scores {
        overwritten := overwritten[scores[slug].write := |writes|];
      }
      scores := scores[slug := Cell(score, |writes|)];
      names := names[slug := name];
      writes := writes + [WriteRecord(slug, score)];
      threads := threads[t := Idle];
    }

    /** `submit`, with nothing in between its round trips; `realtime` is the flag of
        the board row the caller read. */
    method Submit(ghost t: Tid, realtime: bool, slug: Slug, name: string, score: Float64, newId: EntryId)
      returns (r: Result<()>)
      requires Inv(View()) && At(View(), t) == Idle && Alone(threads, t) && CanUpsert(pg, slug, newId)
      modifies this
      ensures Inv(View()) && At(View(), t) == Idle && Alone(threads, t)
      ensures r.Success? <==> realtime && Exponent(score) < 2047 && IsSlug(slug) && 0 < |name| < 257
      ensures r.Failure? ==> r.error == Validation && pg == old(pg)
      ensures r.Success? ==> IsUpsert(old(pg), pg, slug, name, newId)
      ensures scores == if r.Success? then old(scores)[slug := Cell(score, |old(writes)|)] else old(scores)
      ensures names == if r.Success? then old(names)[slug := name] else old(names)
      ensures snaps == old(snaps)
    {
      if !realtime {
        return Failure(Validation);
      }
      NaNIs(score);
      ValidSlugIs(slug);
      ValidSlugIs(name);
      UpsertIs(pg, slug, name, newId);
      hide IsSlug, Exponent, Fraction, IsUpsert;
      if !IsFinite(score) || !ValidSlug(slug) || !ValidName(name) {
        return Failure(Validation);
      }
      hide Inv, Enabled, Next, Upserted;
      ghost var start := StartSubmit(t, slug, name, score);
      SubmitReady(View(), t, start);
      Local(start);
      hide IsFinite, ValidSlug, ValidName;
      SubmitChecked(t, slug, name, score, newId);
      return Success(());
    }

    /** The two writes of a checked submit. */
    method SubmitChecked(ghost t: Tid, slug: Slug, name: string, score: Float64, newId: EntryId)
      requires Inv(View()) && At(View(), t) == SubmitEntry(slug, name, score)
      requires Alone(threads, t) && CanUpsert(pg, slug, newId)
      modifies this
      ensures Inv(View()) && At(View(), t) == Idle && Alone(threads, t)
      ensures pg == Upserted(old(pg), slug, name, newId)
      ensures scores == old(scores)[slug := Cell(score, |old(writes)|)] && names == old(names)[slug := name]
      ensures snaps == old(snaps)
    {
      hide Inv, Apply, Enabled, Next, Upserted;
      SubmitReady(View(), t, Action.UpsertEntry(t, newId));
      UpsertEntry(t, slug, name, newId);
      SubmitReady(View(), t, Action.WriteScore(t));
      WriteScore(t, slug, name, score);
    }

    // -------------------------------------------------------------- snapshot

    /** RENAME of the score key, with the name key or without it. */
    method RenameKeys(ghost t: Tid, request: Request, both: bool, key: SnapId) returns (renamedBoth: bool)
      requires Inv(View()) && Enabled(View(), Action.Rename(t, key)) && At(View(), t) == SnapRename(request, both)
      modifies this`scores, this`names, this`snaps, this`renamed, this`threads
      ensures View() == Apply(old(View()), Action.Rename(t, key)) && Inv(View())
      ensures scores == map[] && names == if both then map[] else old(names)
      ensures snaps == if old(scores) != map[] then old(snaps)[key := old(scores)] else old(snaps)
      ensures renamedBoth == (old(scores) != map[] && (both ==> old(names) != map[]))
      ensures threads
              == old(threads)[t := if renamedBoth then WantLock(Tx(FromSnapshotKey(key), [], request)) else Idle]
    {
      hide Inv;
      ghost var a := Action.Rename(t, key);
      Effects(View(), a);
      RenameStep(View(), a);
      InvStep(View(), a);
      hide *;
      renamedBoth := scores != map[] && (!both || names != map[]);
      if scores != map[] {
        snaps := snaps[key := scores];
        renamed := renamed[key := scores];
      }
      scores := map[];
      if both {
        names := map[];
      }
      threads := threads[t := if renamedBoth then WantLock(Tx(FromSnapshotKey(key), [], request)) else Idle];
    }

    /** EXISTS of the score key, then of the name key. */
    method KeysExist(ghost t: Tid, request: Request) returns (exist: bool)
      requires Inv(View()) && At(View(), t) == SnapScores(request) && Alone(threads, t)
      modifies this`threads
      ensures Inv(View()) && Alone(threads, t)
      ensures exist == (scores != map[])
      ensures At(View(), t) == if exist then SnapRename(request, names != map[]) else Idle
    {
      hide Inv, Enabled, Apply;
      LocalReady(View(), CheckScores(t));
      Local(CheckScores(t));
      if scores == map[] {
        return false;
      }
      LocalReady(View(), CheckNames(t));
      Local(CheckNames(t));
      return true;
    }

    /** EXISTS, EXISTS, RENAME: the working keys set aside; false when there are none. */
    method Detach(ghost t: Tid, request: Request, key: SnapId) returns (detached: bool)
      requires Inv(View()) && At(View(), t) == SnapScores(request) && Alone(threads, t) && key !in renamed
      modifies this`scores, this`names, this`snaps, this`renamed, this`threads
      ensures Inv(View()) && Alone(threads, t)
      ensures detached == (old(scores) != map[])
      ensures scores == map[]
      ensures names == if detached then map[] else old(names)
      ensures snaps == if detached then old(snaps)[key := old(scores)] else old(snaps)
      ensures At(View(), t) == if detached then WantLock(Tx(FromSnapshotKey(key), [], request)) else Idle
    {
      hide Inv, Enabled, Apply;
      ScoredIsNamed(View());
      var exist := KeysExist(t, request);
      if !exist {
        return false;
      }
      RenameReady(View(), t, key);
      detached := RenameKeys(t, request, true, key);
    }

    /** SELECT ... FOR UPDATE and the version limit. */
    method Admit(ghost t: Tid, tx: Tx) returns (admitted: bool)
      requires Inv(View()) && At(View(), t) == WantLock(tx) && Alone(threads, t)
      modifies this`threads
      ensures Inv(View()) && Alone(threads, t)
      ensures admitted == !OverLimit(pg.versions, tx)
      ensures At(View(), t) == if admitted then Counted(tx) else Refused(tx)
    {
      hide Inv, Enabled, Apply;
      LocalReady(View(), LockBoard(t));
      Local(LockBoard(t));
      LocalReady(View(), CountVersions(t));
      Local(CountVersions(t));
      admitted := !OverLimit(pg.versions, tx);
    }

    /** ZREVRANGE WITHSCORES; any order will do. */
    method ReadCells(m: map<Slug, Cell>) returns (ps: seq<Proposal>)
      ensures ListsCells(ps, m) && |ps| == |m|
    {
      ps := [];
      var todo := m.Keys;
      ghost var seen: map<Slug, Cell> := map[];
      while todo != {}
        invariant todo <= m.Keys && seen == m - todo && ListsCells(ps, seen) && |ps| + |todo| == |m|
        decreases todo
      {
        var slug :| slug in todo;
        var p := Proposal(slug, None, None, Some(m[slug].score), None, None, Some(m[slug].write));
        OneMoreCell(ps, seen, slug, m[slug], p);
        ps := ps + [p];
        seen := seen[slug := m[slug]];
        todo := todo - {slug};
        assert seen == m - todo;
      }
      assert m - todo == m;
    }

    /** The set that a transaction reads. */
    function Source(tx: Tx): map<Slug, Cell>
      reads this`scores, this`snaps
    {
      match tx.origin
      case FromSnapshotKey(k) => if k in snaps then snaps[k] else map[]
      case _ => scores
    }

    /** The read, the check that there is something, and the entry limit. */
    method Read(ghost t: Tid, tx: Tx) returns (ps: seq<Proposal>, accepted: bool)
      requires Inv(View()) && At(View(), t) == Counted(tx) && Alone(threads, t)
      requires tx.origin.FromWorkingSet? || tx.origin.FromSnapshotKey?
      modifies this`threads
      ensures Inv(View()) && Alone(threads, t)
      ensures ListsCells(ps, Source(tx)) && accepted == !TooFewOrMany(tx, |Source(tx)|)
      ensures At(View(), t) == if accepted then ReadDone(tx, ps) else Refused(tx)
    {
      hide Inv, Enabled, Apply;
      ps := ReadCells(Source(tx));
      LocalReady(View(), ReadRows(t, ps));
      Local(ReadRows(t, ps));
      accepted := !TooFewOrMany(tx, |ps|);
    }

    /** The next number and the version row; then all entries at once. */
    method Number(ghost t: Tid, tx: Tx, ghost ps: seq<Proposal>) returns (number: int)
      requires Inv(View()) && At(View(), t) == ReadDone(tx, ps) && Alone(threads, t)
      modifies this`threads
      ensures Inv(View()) && Alone(threads, t)
      ensures number == MaxNumber(pg.versions) + 1
      ensures At(View(), t) == Inserted(tx, ps, number)
    {
      hide Inv, Enabled, Apply;
      NextIsNew(View());
      number := MaxNumber(pg.versions) + 1;
      LocalReady(View(), NextNumber(t));
      Local(NextNumber(t));
      LocalReady(View(), Action.InsertVersion(t));
      Local(Action.InsertVersion(t));
    }

    /** The entry ids, all in one query; false when an entry is missing. */
    method Resolve(ghost t: Tid, tx: Tx, ps: seq<Proposal>, number: int, ghost m: map<Slug, Cell>)
      returns (rows: seq<Row>, found: bool)
      requires Inv(View()) && At(View(), t) == Inserted(tx, ps, number) && Alone(threads, t) && ListsCells(ps, m)
      modifies this`threads
      ensures Inv(View()) && Alone(threads, t)
      ensures found == (m.Keys <= pg.entries.Keys)
      ensures found ==> Mirrors(pg.slugOf, rows, m) && RowsLive(pg.entries, pg.slugOf, rows)
      ensures At(View(), t) == if found then Placing(tx, number, rows, []) else Idle
    {
      hide Inv, Enabled, Apply;
      IdsHold(View());
      ListedAreFound(pg.entries, ps, m);
      LocalReady(View(), ResolveEntries(t));
      Local(ResolveEntries(t));
      if !AllResolvable(pg.entries, ps) {
        return [], false;
      }
      ResolveMirrors(pg.entries, pg.slugOf, ps, m);
      return ResolvedAll(pg.entries, ps), true;
    }

    /** One INSERT for each member. */
    method InsertPlacements(ghost t: Tid, tx: Tx, number: int, rows: seq<Row>)
      requires Inv(View()) && At(View(), t) == Placing(tx, number, rows, []) && Alone(threads, t)
      requires RowsLive(pg.entries, pg.slugOf, rows) && DifferentEntries(rows)
      modifies this`threads
      ensures Inv(View()) && Alone(threads, t) && At(View(), t) == Placing(tx, number, [], rows)
    {
      hide Inv, RowsLive, DifferentEntries;
      assert rows[0..] == rows;
      for i := 0 to |rows|
        invariant Inv(View()) && Alone(threads, t)
        invariant At(View(), t) == Placing(tx, number, rows[i..], rows[..i])
      {
        InsertOne(t, tx, number, rows, i);
      }
      assert rows[|rows|..] == [] && rows[..|rows|] == rows;
    }

    /** One INSERT INTO placements. */
    ghost method InsertOne(t: Tid, tx: Tx, number: int, rows: seq<Row>, i: nat)
      requires Inv(View()) && Alone(threads, t) && i < |rows|
      requires At(View(), t) == Placing(tx, number, rows[i..], rows[..i])
      requires RowsLive(pg.entries, pg.slugOf, rows) && DifferentEntries(rows)
      modifies this`threads
      ensures Inv(View()) && Alone(threads, t)
      ensures At(View(), t) == Placing(tx, number, rows[i + 1..], rows[..i + 1])
    {
      RowIsFree(rows, i);
      assert rows[i..][0] == rows[i] && rows[i..][1..] == rows[i + 1..];
      assert rows[..i + 1] == rows[..i] + [rows[i]];
      hide Inv, Enabled, Apply;
      LocalReady(View(), Action.InsertPlacement(t));
      Local(Action.InsertPlacement(t));
    }

    /** Positions from the scores, and COMMIT. */
    method Finish(ghost t: Tid, tx: Tx, number: int, rows: seq<Row>)
      requires Inv(View()) && At(View(), t) == Placing(tx, number, [], rows) && Alone(threads, t)
      modifies this`pg, this`threads
      ensures Inv(View()) && Alone(threads, t) && At(View(), t) == Cleanup(tx)
      ensures View() == Apply(old(View()), Commit(t))
      ensures pg == old(pg).(versions := old(pg).versions
                + [VersionRow(number, tx.request.note, tx.request.metadata,
                              if old(pg).scored then RankedRows(old(pg).direction, rows) else rows, tx.origin)])
    {
      hide Inv;
      CommitReady(View(), t);
      Effects(View(), Commit(t));
      CommitStep(View(), t);
      InvStep(View(), Commit(t));
      hide *;
      var version := VersionRow(number, tx.request.note, tx.request.metadata,
                                if pg.scored then RankedRows(pg.direction, rows) else rows, tx.origin);
      pg := pg.(versions := pg.versions + [version]);
      threads := threads[t := Cleanup(tx)];
    }

    /** `delete_snap_keys`: its errors are ignored, so the keys stay when Redis does
        not answer. */
    method DeleteSnapKeys(ghost t: Tid, tx: Tx, answers: bool)
      requires Inv(View()) && Enabled(View(), Action.DeleteSnapKeys(t, answers)) && At(View(), t).tx == tx
      modifies this`snaps, this`dropped, this`threads
      ensures Inv(View()) && View() == Apply(old(View()), Action.DeleteSnapKeys(t, answers))
      ensures threads == old(threads)[t := Idle]
      ensures snaps == if answers && tx.origin.FromSnapshotKey? then old(snaps) - {tx.origin.key} else old(snaps)
    {
      hide Inv;
      ghost var a := Action.DeleteSnapKeys(t, answers);
      Effects(View(), a);
      DeleteStep(View(), a);
      InvStep(View(), a);
      hide *;
      if answers && tx.origin.FromSnapshotKey? {
        if tx.origin.key in snaps {
          dropped := if threads[t].Refused? then dropped + WritesOf(snaps[tx.origin.key]) else dropped;
        }
        snaps := snaps - {tx.origin.key};
      }
      threads := threads[t := Idle];
    }

    /** The clean-up of a call that was refused or has committed. */
    method CleanUp(ghost t: Tid, tx: Tx, answers: bool)
      requires Inv(View()) && Alone(threads, t)
      requires At(View(), t) == Refused(tx) || At(View(), t) == Cleanup(tx)
      modifies this`snaps, this`dropped, this`threads
      ensures Inv(View()) && Alone(threads, t) && At(View(), t) == Idle
      ensures snaps == if answers && tx.origin.FromSnapshotKey? then old(snaps) - {tx.origin.key} else old(snaps)
    {
      hide Inv, Enabled, Apply;
      DeleteReady(View(), Action.DeleteSnapKeys(t, answers));
      DeleteSnapKeys(t, tx, answers);
    }

    /** From the lock to the clean-up. */
    method WriteVersion(ghost t: Tid, tx: Tx, answers: bool) returns (r: Result<Reply>)
      requires Inv(View()) && At(View(), t) == WantLock(tx) && Alone(threads, t)
      requires tx.origin.FromWorkingSet? || tx.origin.FromSnapshotKey?
      modifies this`pg, this`snaps, this`dropped, this`threads
      ensures Inv(View()) && Alone(threads, t) && At(View(), t) == Idle
      ensures Recorded(old(pg), pg, old(Source(tx)), tx.request, r)
      ensures snaps == if answers && tx.origin.FromSnapshotKey? && r != Failure(Internal)
                       then old(snaps) - {tx.origin.key} else old(snaps)
    {
      hide Inv, Stored, Enabled, Apply;
      var admitted := Admit(t, tx);
      if !admitted {
        CleanUp(t, tx, answers);
        return Failure(Validation);
      }
      r := ReadAndStore(t, tx, answers);
    }

    /** From the read to the clean-up. */
    method ReadAndStore(ghost t: Tid, tx: Tx, answers: bool) returns (r: Result<Reply>)
      requires Inv(View()) && At(View(), t) == Counted(tx) && Alone(threads, t) && !OverLimit(pg.versions, tx)
      requires tx.origin.FromWorkingSet? || tx.origin.FromSnapshotKey?
      modifies this`pg, this`snaps, this`dropped, this`threads
      ensures Inv(View()) && Alone(threads, t) && At(View(), t) == Idle
      ensures Recorded(old(pg), pg, old(Source(tx)), tx.request, r)
      ensures snaps == if answers && tx.origin.FromSnapshotKey? && r != Failure(Internal)
                       then old(snaps) - {tx.origin.key} else old(snaps)
    {
      hide Inv, ListsCells, Stored, Enabled, Apply;
      ghost var m := Source(tx);
      assert |m| == 0 <==> m == map[];
      var ps, accepted := Read(t, tx);
      if !accepted {
        CleanUp(t, tx, answers);
        return Failure(Validation);
      }
      r := StoreVersion(t, tx, ps, answers, m);
    }

    /** From the number to the commit. */
    method StoreVersion(ghost t: Tid, tx: Tx, ps: seq<Proposal>, answers: bool, ghost m: map<Slug, Cell>)
      returns (r: Result<Reply>)
      requires Inv(View()) && At(View(), t) == ReadDone(tx, ps) && Alone(threads, t) && ListsCells(ps, m)
      modifies this`pg, this`snaps, this`dropped, this`threads
      ensures Inv(View()) && Alone(threads, t) && At(View(), t) == Idle
      ensures Stored(old(pg), pg, m, tx.request, r)
      ensures snaps == if answers && tx.origin.FromSnapshotKey? && r != Failure(Internal)
                       then old(snaps) - {tx.origin.key} else old(snaps)
    {
      hide Inv, ListsCells, Mirrors, RowsLive, Holds, Enabled, Apply;
      var number := Number(t, tx, ps);
      var rows, found := Resolve(t, tx, ps, number, m);
      if !found {
        return Failure(Internal);
      }
      var placements := CommitRows(t, tx, number, rows, answers, m);
      return Success(Reply(number, placements));
    }

    /** From the inserts to the commit, and the clean-up. */
    method CommitRows(
        ghost t: Tid, tx: Tx, number: int, rows: seq<Row>, answers: bool, ghost m: map<Slug, Cell>)
      returns (placements: seq<Shown>)
      requires Inv(View()) && At(View(), t) == Placing(tx, number, rows, []) && Alone(threads, t)
      requires Mirrors(pg.slugOf, rows, m) && RowsLive(pg.entries, pg.slugOf, rows)
      modifies this`pg, this`snaps, this`dropped, this`threads
      ensures Inv(View()) && Alone(threads, t) && At(View(), t) == Idle
      ensures Added(old(pg), pg, m, tx.request, Reply(number, placements))
      ensures snaps == if answers && tx.origin.FromSnapshotKey? then old(snaps) - {tx.origin.key} else old(snaps)
    {
      hide Inv, Holds, Mirrors, RankedRows, RowsLive, DifferentEntries, Apply, Enabled, Shows;
      RowsArePlaceable(pg.entries, pg.slugOf, rows, m);
      var ranked := if pg.scored then RankedRows(pg.direction, rows) else rows;
      RankedHolds(pg, VersionRow(number, tx.request.note, tx.request.metadata, ranked, tx.origin), rows, m);
      RankedLive(pg, rows);
      InsertPlacements(t, tx, number, rows);
      placements := SortBy(ShownOrder(), ShownRows(pg, ranked));
      SortShows(pg, ranked);
      Finish(t, tx, number, rows);
      CleanUp(t, tx, answers);
    }

    /** `snapshot`, with nothing in between its round trips. A clearing snapshot
        empties the working set whatever becomes of it afterwards: a refusal loses
        the scores, a missing entry strands them in the snapshot keys. */
    method Snapshot(ghost t: Tid, clear: bool, request: Request, key: SnapId, answers: bool)
      returns (r: Result<Reply>)
      requires Inv(View()) && At(View(), t) == Idle && Alone(threads, t) && key !in renamed && key !in snaps
      modifies this
      ensures Inv(View()) && Alone(threads, t) && At(View(), t) == Idle
      ensures Recorded(old(pg), pg, old(scores), request, r)
      ensures scores == if clear then map[] else old(scores)
      ensures snaps == if clear && old(scores) != map[] && (r == Failure(Internal) || !answers)
                       then old(snaps)[key := old(scores)] else old(snaps)
    {
      hide Inv, Enabled, Apply, Recorded;
      LocalReady(View(), StartSnapshot(t, clear, request));
      Local(StartSnapshot(t, clear, request));
      hide Next, PcReady;
      if clear {
        r := SnapshotAndClear(t, request, key, answers);
      } else {
        r := WriteVersion(t, Tx(FromWorkingSet, [], request), answers);
      }
    }

    method SnapshotAndClear(ghost t: Tid, request: Request, key: SnapId, answers: bool) returns (r: Result<Reply>)
      requires Inv(View()) && At(View(), t) == SnapScores(request) && Alone(threads, t)
      requires key !in renamed && key !in snaps
      modifies this
      ensures Inv(View()) && Alone(threads, t) && At(View(), t) == Idle
      ensures Recorded(old(pg), pg, old(scores), request, r)
      ensures scores == map[]
      ensures snaps == if old(scores) != map[] && (r == Failure(Internal) || !answers)
                       then old(snaps)[key := old(scores)] else old(snaps)
    {
      hide Inv, Recorded, Enabled, Apply;
      NothingRecorded(pg, request);
      var detached := Detach(t, request, key);
      if !detached {
        return Failure(Validation);
      }
      r := WriteVersion(t, Tx(FromSnapshotKey(key), [], request), answers);
      assert old(snaps)[key := old(scores)] - {key} == old(snaps);
    }

    /** `clear`. */
    method Clear()
      requires Inv(View())
      modifies this`scores, this`names, this`cleared
      ensures View() == Apply(old(View()), ClearKeys) && Inv(View())
      ensures scores == map[] && names == map[]
    {
      hide Inv;
      Effects(View(), ClearKeys);
      ClearStep(View());
      InvStep(View(), ClearKeys);
      hide *;
      cleared := cleared + WritesOf(scores);
      scores, names := map[], map[];
    }
  }

  /** The slug has an entry of that name, new or as it was otherwise; nothing else changes. */
  ghost predicate IsUpsert(before: Pg, after: Pg, slug: Slug, name: string, newId: EntryId) {
    && after == before.(entries := after.entries, slugOf := after.slugOf)
    && after.entries.Keys == before.entries.Keys + {slug}
    && after.entries[slug].name == name
    && (forall other | other in before.entries && other != slug :: after.entries[other] == before.entries[other])
    && (if slug in before.entries then
          && after.entries[slug].id == before.entries[slug].id
          && after.entries[slug].metadata == before.entries[slug].metadata
          && after.slugOf == before.slugOf
        else
          && after.entries[slug].id == newId && after.entries[slug].metadata == None
          && after.slugOf == before.slugOf[newId := slug])
  }

  lemma UpsertIs(pg: Pg, slug: Slug, name: string, newId: EntryId)
    ensures IsUpsert(pg, Upserted(pg, slug, name, newId), slug, name, newId)
  {
  }

  lemma LocalWritesNothing(s: State, a: Action)
    requires Enabled(s, a) && IsLocal(a)
    ensures PcReady(From(s, a), a) && PgReady(s.pg, From(s, a), a)
    ensures PgWritten(s.pg, From(s, a), a) == s.pg && RedisWritten(s.redis, From(s, a), a) == s.redis
  {
  }

  lemma SubmitSteps(s: State, a: Action)
    requires Enabled(s, a) && (a.UpsertEntry? || a.WriteScore?)
    ensures var pc := At(s, a.t);
            && PcReady(pc, a) && PgReady(s.pg, pc, a)
            && (a.UpsertEntry? ==>
                  && PgWritten(s.pg, pc, a) == Upserted(s.pg, pc.slug, pc.name, a.newId)
                  && RedisWritten(s.redis, pc, a) == s.redis
                  && Next(s.pg, s.redis, pc, a) == SubmitScore(pc.slug, pc.name, pc.score))
            && (a.WriteScore? ==>
                  && PgWritten(s.pg, pc, a) == s.pg
                  && RedisWritten(s.redis, pc, a) == ScoreWritten(s.redis, pc)
                  && Next(s.pg, s.redis, pc, a) == Idle)
  {
  }

  lemma ClearStep(s: State)
    requires Enabled(s, ClearKeys)
    ensures PgReady(s.pg, Idle, ClearKeys) && PgWritten(s.pg, Idle, ClearKeys) == s.pg
    ensures RedisWritten(s.redis, Idle, ClearKeys)
            == s.redis.(work := map[], names := map[], cleared := s.redis.cleared + WritesOf(s.redis.work))
  {
  }

  /** With no other call under way every step of a submit can be taken. */
  lemma SubmitReady(s: State, t: Tid, a: Action)
    requires Alone(s.threads, t) && (a.StartSubmit? || a.UpsertEntry? || a.WriteScore?) && a.t == t
    requires PcReady(At(s, t), a) && (a.UpsertEntry? ==> CanUpsert(s.pg, At(s, t).slug, a.newId))
    ensures Enabled(s, a)
    ensures a.StartSubmit? ==> Next(s.pg, s.redis, At(s, t), a) == SubmitEntry(a.slug, a.name, a.score)
  {
  }

  lemma RenameStep(s: State, a: Action)
    requires Enabled(s, a) && a.Rename?
    ensures var pc := At(s, a.t);
            && PcReady(pc, a) && PgReady(s.pg, pc, a) && PgWritten(s.pg, pc, a) == s.pg
            && RedisWritten(s.redis, pc, a) == s.redis.(
                 work := map[],
                 names := if pc.both then map[] else s.redis.names,
                 snaps := if s.redis.work != map[] then s.redis.snaps[a.key := s.redis.work] else s.redis.snaps,
                 renamed := if s.redis.work != map[] then s.redis.renamed[a.key := s.redis.work] else s.redis.renamed)
            && Next(s.pg, s.redis, pc, a) ==
               if s.redis.work != map[] && (pc.both ==> s.redis.names != map[])
               then WantLock(Tx(FromSnapshotKey(a.key), [], pc.request)) else Idle
  {
  }

  lemma CommitStep(s: State, t: Tid)
    requires Enabled(s, Commit(t))
    ensures var pc := At(s, t);
            && PcReady(pc, Commit(t)) && PgReady(s.pg, pc, Commit(t))
            && PgWritten(s.pg, pc, Commit(t)) == s.pg.(versions := s.pg.versions + [NewVersion(s.pg, pc)])
            && NewVersion(s.pg, pc)
               == VersionRow(pc.number, pc.tx.request.note, pc.tx.request.metadata,
                             if s.pg.scored then RankedRows(s.pg.direction, pc.done) else pc.done, pc.tx.origin)
            && RedisWritten(s.redis, pc, Commit(t)) == s.redis
            && Next(s.pg, s.redis, pc, Commit(t)) == Cleanup(pc.tx)
  {
  }

  lemma CommitReady(s: State, t: Tid)
    requires At(s, t).Placing? && At(s, t).todo == []
    ensures Enabled(s, Commit(t))
  {
  }

  lemma DeleteReady(s: State, a: Action)
    requires a.DeleteSnapKeys? && (At(s, a.t).Refused? || At(s, a.t).Cleanup?)
    ensures Enabled(s, a)
  {
  }

  lemma DeleteStep(s: State, a: Action)
    requires Enabled(s, a) && a.DeleteSnapKeys?
    ensures var pc := At(s, a.t);
            && PcReady(pc, a) && PgReady(s.pg, pc, a) && PgWritten(s.pg, pc, a) == s.pg
            && Next(s.pg, s.redis, pc, a) == Idle && a.t in s.threads
            && RedisWritten(s.redis, pc, a) ==
               if a.ok && pc.tx.origin.FromSnapshotKey? then
                 s.redis.(
                   snaps := s.redis.snaps - {pc.tx.origin.key},
                   dropped := if pc.Refused? && pc.tx.origin.key in s.redis.snaps
                              then s.redis.dropped + WritesOf(s.redis.snaps[pc.tx.origin.key]) else s.redis.dropped)
               else s.redis
  {
    var pc := At(s, a.t);
    if pc.tx.origin.FromSnapshotKey? && pc.tx.origin.key !in s.redis.snaps {
      assert s.redis.snaps - {pc.tx.origin.key} == s.redis.snaps;
    }
  }

  lemma RenameReady(s: State, t: Tid, key: SnapId)
    requires At(s, t).SnapRename? && key !in s.redis.renamed
    ensures Enabled(s, Action.Rename(t, key))
  {
  }

  /** With no other call under way, a local step only needs its caller and the keys. */
  lemma LocalReady(s: State, a: Action)
    requires HasCaller(a) && IsLocal(a) && !a.StartDelete? && Alone(s.threads, a.t)
    requires PcReady(At(s, a.t), a) && PgReady(s.pg, At(s, a.t), a)
    requires a.ReadRows? ==> Reads(s.pg, s.redis, At(s, a.t).tx, a.proposals)
    ensures Enabled(s, a)
  {
  }

  lemma NextIsNew(s: State)
    requires Inv(s)
    ensures IsNewNumber(s.pg.versions, MaxNumber(s.pg.versions) + 1)
  {
    assert NumberInv(s);
    MaxIsLargest(s.pg.versions);
  }

  lemma OneMoreCell(ps: seq<Proposal>, m: map<Slug, Cell>, slug: Slug, cell: Cell, p: Proposal)
    requires ListsCells(ps, m) && slug !in m
    requires p == Proposal(slug, None, None, Some(cell.score), None, None, Some(cell.write))
    ensures ListsCells(ps + [p], m[slug := cell])
  {
    var qs, m' := ps + [p], m[slug := cell];
    forall s | s in m' ensures exists i :: 0 <= i < |qs| && qs[i].slug == s {
      if s == slug {
        assert qs[|ps|].slug == s;
      } else {
        var i :| 0 <= i < |ps| && ps[i].slug == s;
        assert qs[i].slug == s;
      }
    }
    forall i | 0 <= i < |qs| ensures ProposalIs(qs[i], m') {
      assert i < |ps| ==> ProposalIs(ps[i], m);
    }
  }

  lemma RowsArePlaceable(entries: Entries, slugOf: SlugOf, rows: seq<Row>, m: map<Slug, Cell>)
    requires Mirrors(slugOf, rows, m)
    ensures DifferentEntries(rows)
  {
  }

  ghost predicate DifferentEntries(rows: seq<Row>) {
    forall i, j | 0 <= i < j < |rows| :: rows[i].entryId != rows[j].entryId
  }

  lemma RowIsFree(rows: seq<Row>, i: nat)
    requires i < |rows| && DifferentEntries(rows)
    ensures !HasEntry(rows[..i], rows[i].entryId)
  {
  }

  lemma ListedAreFound(entries: Entries, ps: seq<Proposal>, m: map<Slug, Cell>)
    requires ListsCells(ps, m)
    ensures AllResolvable(entries, ps) <==> m.Keys <= entries.Keys
  {
    if AllResolvable(entries, ps) {
      forall slug | slug in m ensures slug in entries {
        var i :| 0 <= i < |ps| && ps[i].slug == slug;
        assert ProposalIs(ps[i], m) && Resolvable(entries, ps[i]);
      }
    }
    if m.Keys <= entries.Keys {
      forall i | 0 <= i < |ps| ensures Resolvable(entries, ps[i]) {
        assert ProposalIs(ps[i], m);
      }
    }
  }

  /** Whether a snapshot of set m is refused by a check or a limit. */
  predicate Refuses(pg: Pg, m: map<Slug, Cell>, request: Request) {
    || m == map[]
    || (request.maxVersions.Some? && |pg.versions| >= request.maxVersions.value)
    || (request.maxEntries.Some? && |m| > request.maxEntries.value)
  }

  /** The version has exactly the slugs and scores of m; on a scored board each
      position is the frozen rank. */
  ghost predicate Holds(pg: Pg, version: VersionRow, m: map<Slug, Cell>) {
    && Mirrors(pg.slugOf, version.rows, m) && m.Keys <= pg.entries.Keys
    && (pg.scored ==> forall j | 0 <= j < |version.rows| ::
          && SlugAt(pg.slugOf, version.rows[j]) in m
          && version.rows[j].position
             == Some(FrozenRank(ScoresOf(m), IdsOf(pg.entries), pg.direction, SlugAt(pg.slugOf, version.rows[j]))))
  }

  /** A row of the reply, with its entry. */
  datatype Shown = Shown(row: Row, entrySlug: Slug, entryName: string)

  datatype Reply = Reply(number: int, placements: seq<Shown>)

  const LAST: int := 2147483647

  /** ORDER BY COALESCE(position, LAST), name. */
  predicate ShownLe(a: Shown, b: Shown) {
    var pa, pb := a.row.position.GetOr(LAST), b.row.position.GetOr(LAST);
    pa < pb || (pa == pb && !LexLess(b.entryName, a.entryName))
  }

  function ShownOrder(): (Shown, Shown) -> bool {
    (a: Shown, b: Shown) => ShownLe(a, b)
  }

  /** JOIN entries e ON e.id = p.entry_id. */
  function ShownRows(pg: Pg, rows: seq<Row>): (r: seq<Shown>)
    ensures |r| == |rows|
  {
    seq(|rows|, i requires 0 <= i < |rows| =>
      var slug := SlugAt(pg.slugOf, rows[i]);
      Shown(rows[i], slug, if slug in pg.entries then pg.entries[slug].name else ""))
  }

  /** Lower position first, a missing one as the largest integer; then by name. */
  ghost predicate StandsAfter(a: Shown, b: Shown) {
    var pa := if a.row.position.Some? then a.row.position.value else 2147483647;
    var pb := if b.row.position.Some? then b.row.position.value else 2147483647;
    pa > pb || (pa == pb && BytesBefore(b.entryName, a.entryName))
  }

  /** The list has each row once, with its entry's slug and name, and no row stands
      before one that it comes after. */
  ghost predicate Shows(pg: Pg, rows: seq<Row>, list: seq<Shown>) {
    && |list| == |rows|
    && (forall i | 0 <= i < |rows| :: exists k :: 0 <= k < |list| && list[k].row == rows[i])
    && (forall k | 0 <= k < |list| ::
          && list[k].row in rows && list[k].entrySlug in pg.entries
          && pg.entries[list[k].entrySlug].id == list[k].row.entryId
          && pg.entries[list[k].entrySlug].name == list[k].entryName)
    && (forall j, k | 0 <= j < k < |list| :: !StandsAfter(list[j], list[k]))
  }

  lemma ShownLeIs(a: Shown, b: Shown)
    ensures ShownLe(a, b) <==> !StandsAfter(a, b)
  {
    hide LexLess, BytesBefore;
    LexIsBytewise(b.entryName, a.entryName);
  }

  lemma RowIsShown(pg: Pg, rows: seq<Row>, i: nat)
    requires RowsLive(pg.entries, pg.slugOf, rows) && i < |rows|
    ensures var x := ShownRows(pg, rows)[i];
            && x.row == rows[i] && x.entrySlug in pg.entries
            && pg.entries[x.entrySlug].id == x.row.entryId && pg.entries[x.entrySlug].name == x.entryName
  {
    assert Live(pg.entries, pg.slugOf, rows[i].entryId);
  }

  lemma ListShowsRows(pg: Pg, rows: seq<Row>, list: seq<Shown>)
    requires RowsLive(pg.entries, pg.slugOf, rows)
    requires forall x :: x in list <==> x in ShownRows(pg, rows)
    ensures forall i | 0 <= i < |rows| :: exists k :: 0 <= k < |list| && list[k].row == rows[i]
    ensures forall k | 0 <= k < |list| ::
              && list[k].row in rows && list[k].entrySlug in pg.entries
              && pg.entries[list[k].entrySlug].id == list[k].row.entryId
              && pg.entries[list[k].entrySlug].name == list[k].entryName
  {
    var shown := ShownRows(pg, rows);
    forall i | 0 <= i < |rows| ensures shown[i].row == rows[i] && shown[i] in list {
      RowIsShown(pg, rows, i);
      assert shown[i] in shown;
    }
    hide ShownRows, RowsLive;
    forall k | 0 <= k < |list|
      ensures list[k].row in rows && list[k].entrySlug in pg.entries
      ensures pg.entries[list[k].entrySlug].id == list[k].row.entryId
      ensures pg.entries[list[k].entrySlug].name == list[k].entryName
    {
      assert list[k] in list;
      var i :| 0 <= i < |shown| && shown[i] == list[k];
      RowIsShown(pg, rows, i);
    }
  }

  lemma SortShows(pg: Pg, rows: seq<Row>)
    requires RowsLive(pg.entries, pg.slugOf, rows)
    ensures Shows(pg, rows, SortBy(ShownOrder(), ShownRows(pg, rows)))
  {
    var shown := ShownRows(pg, rows);
    var list := SortBy(ShownOrder(), shown);
    ShownOrderIsTotal();
    SortKeepsElements(ShownOrder(), shown);
    SortIsSorted(ShownOrder(), shown);
    hide SortBy, StandsAfter, ShownLe, RowsLive, ShownRows;
    ListShowsRows(pg, rows, list);
    forall j, k | 0 <= j < k < |list| ensures !StandsAfter(list[j], list[k]) {
      assert ShownOrder()(list[j], list[k]);
      ShownLeIs(list[j], list[k]);
    }
  }

  lemma ShownOrderIsTotal()
    ensures TotalPreorder(ShownOrder())
  {
    forall x: Shown, y: Shown ensures ShownLe(x, y) || ShownLe(y, x) {
      LexTotal(x.entryName, y.entryName);
    }
    forall x: Shown, y: Shown, z: Shown | ShownLe(x, y) && ShownLe(y, z) ensures ShownLe(x, z) {
      if !LexLess(y.entryName, x.entryName) && !LexLess(z.entryName, y.entryName) {
        NamesTransitive(x.entryName, y.entryName, z.entryName);
      }
    }
  }

  /** One more version, with the next number and the caller's note and metadata,
      that holds m; the reply is that version. */
  ghost predicate Added(before: Pg, after: Pg, m: map<Slug, Cell>, request: Request, reply: Reply) {
    && |after.versions| == |before.versions| + 1
    && var version := after.versions[|before.versions|];
       && after == before.(versions := before.versions + [version])
       && version.number == reply.number
       && version.note == request.note && version.metadata == request.metadata
       && Holds(before, version, m)
       && Shows(before, version.rows, reply.placements)
  }

  /** The version is added; or nothing is, for want of an entry. */
  ghost predicate Stored(before: Pg, after: Pg, m: map<Slug, Cell>, request: Request, r: Result<Reply>) {
    && (r.Success? <==> m.Keys <= before.entries.Keys)
    && (r.Failure? ==> after == before && r.error == Internal)
    && (r.Success? ==> r.value.number == MaxNumber(before.versions) + 1 && Added(before, after, m, request, r.value))
  }

  /** What a snapshot of m does to the tables, and what it replies. */
  ghost predicate Recorded(before: Pg, after: Pg, m: map<Slug, Cell>, request: Request, r: Result<Reply>) {
    if Refuses(before, m, request) then r == Failure(Validation) && after == before
    else Stored(before, after, m, request, r)
  }

  lemma NothingRecorded(pg: Pg, request: Request)
    ensures Recorded(pg, pg, map[], request, Failure(Validation))
  {
  }

  lemma RankedLive(pg: Pg, rows: seq<Row>)
    requires RowsLive(pg.entries, pg.slugOf, rows)
    ensures RowsLive(pg.entries, pg.slugOf, RankedRows(pg.direction, rows))
  {
    forall j | 0 <= j < |rows| ensures Live(pg.entries, pg.slugOf, RankedRows(pg.direction, rows)[j].entryId) {
      assert Live(pg.entries, pg.slugOf, rows[j].entryId);
    }
  }

  lemma RankedHolds(pg: Pg, version: VersionRow, rows: seq<Row>, m: map<Slug, Cell>)
    requires Mirrors(pg.slugOf, rows, m) && RowsLive(pg.entries, pg.slugOf, rows)
    requires version.rows == if pg.scored then RankedRows(pg.direction, rows) else rows
    ensures Holds(pg, version, m)
  {
    RowsAreFrozen(pg.entries, pg.slugOf, rows, m);
    if pg.scored {
      MirrorsKept(pg.slugOf, pg.slugOf, rows, version.rows, m);
      forall j | 0 <= j < |rows|
        ensures SlugAt(pg.slugOf, version.rows[j]) in m
        ensures version.rows[j].position
                == Some(FrozenRank(ScoresOf(m), IdsOf(pg.entries), pg.direction, SlugAt(pg.slugOf, version.rows[j])))
      {
        assert RowMirrors(pg.slugOf, version.rows[j], m);
        assert SlugAt(pg.slugOf, version.rows[j]) == SlugAt(pg.slugOf, rows[j]);
      }
    }
  }
}
