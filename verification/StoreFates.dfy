/** What becomes of every set that a clearing snapshot renames, and of every score
    in it: captured by a version, dropped because of a limit, or left behind in a
    key that nobody will read. */
module StoreFates {
  import opened Core
  import opened StoreModel
  import opened StoreInvariants
  import opened StoreCapture
  import opened StoreTheorems

  // ---------------------------------------------------------------- the fates

  datatype Fate = IsCaptured | IsDropped | IsStranded

  /** A call in progress has key k. */
  ghost predicate InFlight(threads: Threads, k: SnapId) {
    exists t :: t in threads && KeyOf(threads[t]) == Some(k)
  }

  /** A call in progress still has to deal with the set behind k. */
  ghost predicate Pending(s: State, k: SnapId) {
    InFlight(s.threads, k) && !KeyCommitted(s.pg.versions, k)
  }

  /** The key is there, under a name that only a finished call knew. */
  ghost predicate Stranded(s: State, k: SnapId) {
    k in s.redis.snaps && !InFlight(s.threads, k) && !KeyCommitted(s.pg.versions, k)
  }

  ghost predicate Lost(s: State, k: SnapId) {
    k in s.redis.renamed && k !in s.redis.snaps && !KeyCommitted(s.pg.versions, k)
  }

  ghost predicate HasFate(s: State, k: SnapId, fate: Fate) {
    match fate
    case IsCaptured => KeyCommitted(s.pg.versions, k)
    case IsDropped => Lost(s, k)
    case IsStranded => Stranded(s, k)
  }

  lemma OwnerHasKey(s: State, k: SnapId, t: Tid)
    requires Inv(s) && t in s.threads && KeyOf(s.threads[t]) == Some(k)
    ensures k in s.redis.renamed
    ensures s.threads[t].Cleanup? ==> KeyCommitted(s.pg.versions, k)
    ensures !s.threads[t].Cleanup? ==> k in s.redis.snaps && !KeyCommitted(s.pg.versions, k)
    ensures forall u | u in s.threads && KeyOf(s.threads[u]) == Some(k) :: u == t
  {
    assert KeyPc(s.redis.renamed, s.redis.snaps, s.pg.versions, s.threads[t]);
    hide BoardInv, EntryInv, NumberInv, NamesInv, SetsInv, CaptureInv, AccountInv, NonEmptyKeys, RefusalInv, KeyPc,
      OriginInv, KeyOf, KeyCommitted;
  }

  /** A renamed key is pending or has met exactly one of the three fates. */
  lemma OneFate(s: State, k: SnapId)
    requires Inv(s) && k in s.redis.renamed
    ensures Pending(s, k) <==> forall fate: Fate :: !HasFate(s, k, fate)
    ensures forall f, g | HasFate(s, k, f) && HasFate(s, k, g) :: f == g
  {
    hide Inv, KeyCommitted, KeyOf;
    if Pending(s, k) {
      var t :| t in s.threads && KeyOf(s.threads[t]) == Some(k);
      OwnerHasKey(s, k, t);
    } else {
      assert HasFate(s, k, IsCaptured) || HasFate(s, k, IsDropped) || HasFate(s, k, IsStranded);
    }
  }

  // ---------------------------------------------------------- how a key changes

  /** A key is committed by the commit of the call that has it, and by nothing else. */
  lemma CommittedNext(s: State, a: Action, k: SnapId)
    requires Inv(s) && Enabled(s, a)
    ensures KeyCommitted(Apply(s, a).pg.versions, k) <==>
            KeyCommitted(s.pg.versions, k) || (a.Commit? && KeyOf(At(s, a.t)) == Some(k))
  {
    VersionsAfter(s, a);
    if a.Commit? {
      Effects(s, a);
      CallerKey(s.pg, s.redis, At(s, a.t), a);
      CommittedAfter(s.pg.versions, NewVersion(s.pg, At(s, a.t)), k);
    }
    hide Inv, Enabled, Apply, NewVersion, PgReady, LocksFree, PcReady, KeyCommitted, Next, PgWritten, RedisWritten;
  }

  /** A RENAME of a non-empty set never strands it: both keys are there. */
  lemma RenamePends(s: State, t: Tid, k: SnapId)
    requires Inv(s) && Enabled(s, Rename(t, k)) && s.redis.work != map[]
    ensures Pending(Apply(s, Rename(t, k)), k)
    ensures Apply(s, Rename(t, k)).redis.renamed[k] == s.redis.work
  {
    var a := Rename(t, k);
    ScoredIsNamed(s);
    hide Inv, Enabled, Apply, Next, PgWritten, RedisWritten, PgReady, PcReady, LocksFree, KeyCommitted;
    RenamedNext(s, t, k);
    CommittedNext(s, a, k);
    RenamedIsFree(s, t, k);
    assert Apply(s, a).threads[t] == WantLock(Tx(FromSnapshotKey(k), [], At(s, t).request));
  }

  lemma RenamedNext(s: State, t: Tid, k: SnapId)
    requires Enabled(s, Rename(t, k)) && s.redis.work != map[] && s.redis.names != map[]
    ensures At(s, t).SnapRename?
    ensures Apply(s, Rename(t, k)).threads == s.threads[t := WantLock(Tx(FromSnapshotKey(k), [], At(s, t).request))]
    ensures Apply(s, Rename(t, k)).redis.renamed == s.redis.renamed[k := s.redis.work]
  {
    var a := Rename(t, k);
    Effects(s, a);
    RenamedToWait(s.pg, s.redis, At(s, t), a);
    hide Enabled, Apply, Next, PgWritten, RedisWritten, PgReady, LocksFree;
  }

  lemma RenamedIsFree(s: State, t: Tid, k: SnapId)
    requires Inv(s) && Enabled(s, Rename(t, k))
    ensures !KeyCommitted(s.pg.versions, k)
  {
    RenamedIsUncommitted(s, Rename(t, k));
  }

  lemma RenamedToWait(pg: Pg, redis: Redis, pc: Pc, a: Action)
    requires a.Rename? && PcReady(pc, a) && PgReady(pg, pc, a) && redis.work != map[] && redis.names != map[]
    ensures Next(pg, redis, pc, a) == WantLock(Tx(FromSnapshotKey(a.key), [], pc.request))
    ensures RedisWritten(redis, pc, a).renamed == redis.renamed[a.key := redis.work]
  {
  }

  /** The step ends the call without writing or deleting anything. */
  ghost predicate GivesUp(s: State, t: Tid, a: Action)
    requires Enabled(s, a)
  {
    || a == Abort(t)
    || a == DeleteSnapKeys(t, false)
    || (a == ResolveEntries(t) && !AllResolvable(s.pg.entries, At(s, t).proposals))
  }

  /** What the caller's step makes of its own key. */
  lemma CallerFate(pg: Pg, redis: Redis, pc: Pc, a: Action, k: SnapId)
    requires HasCaller(a) && PcReady(pc, a) && PgReady(pg, pc, a) && !a.Rename?
    requires KeyOf(pc) == Some(k) && !pc.Cleanup? && k in redis.snaps
    ensures KeyOf(Next(pg, redis, pc, a)) == (
              if a.Abort? || a.DeleteSnapKeys? || (a.ResolveEntries? && !AllResolvable(pg.entries, pc.proposals))
              then None else Some(k))
    ensures k in RedisWritten(redis, pc, a).snaps <==> !(a.DeleteSnapKeys? && a.ok)
    ensures a.Commit? ==> NewVersion(pg, pc).origin == FromSnapshotKey(k)
  {
    hide PgReady, AllResolvable, OverLimit, MaxNumber, IsPlaced, TooFewOrMany, WritesOf;
  }

  lemma NotRenaming(s: State, a: Action, k: SnapId)
    requires Enabled(s, a) && HasCaller(a) && KeyOf(At(s, a.t)) == Some(k)
    ensures PcReady(At(s, a.t), a) && !a.Rename?
  {
    hide PgReady, LocksFree, Reads;
  }

  lemma OnlyFlight(threads: Threads, t: Tid, pc: Pc, k: SnapId)
    requires forall u | u in threads && KeyOf(threads[u]) == Some(k) :: u == t
    ensures InFlight(threads[t := pc], k) <==> KeyOf(pc) == Some(k)
  {
    assert threads[t := pc][t] == pc;
  }

  lemma CallerAfter(s: State, a: Action, k: SnapId)
    requires Enabled(s, a) && HasCaller(a) && !a.Rename?
    requires KeyOf(At(s, a.t)) == Some(k) && !At(s, a.t).Cleanup? && k in s.redis.snaps
    ensures Apply(s, a).threads == s.threads[a.t := Apply(s, a).threads[a.t]]
    ensures k in Apply(s, a).redis.snaps <==> !(a.DeleteSnapKeys? && a.ok)
    ensures KeyOf(Apply(s, a).threads[a.t]) == Some(k) <==> !(a.DeleteSnapKeys? || GivesUp(s, a.t, a))
    ensures a.Commit? ==> !GivesUp(s, a.t, a)
  {
    Effects(s, a);
    CallerFate(s.pg, s.redis, At(s, a.t), a, k);
    hide Enabled, Apply, Next, PgWritten, RedisWritten, PgReady, PcReady, LocksFree, NewVersion, KeyOf, AllResolvable;
  }

  lemma OwnStepFate(s: State, a: Action, k: SnapId)
    requires Inv(s) && Enabled(s, a) && HasCaller(a)
    requires a.t in s.threads && KeyOf(s.threads[a.t]) == Some(k) && !s.threads[a.t].Cleanup?
    ensures KeyCommitted(Apply(s, a).pg.versions, k) <==> a.Commit?
    ensures k in Apply(s, a).redis.snaps <==> !(a.DeleteSnapKeys? && a.ok)
    ensures InFlight(Apply(s, a).threads, k) <==> !(a.DeleteSnapKeys? || GivesUp(s, a.t, a))
  {
    hide Inv, Enabled, Apply, Next, PgWritten, RedisWritten, PgReady, PcReady, LocksFree, KeyCommitted, NewVersion,
      KeyOf, AllResolvable, InFlight;
    OwnerHasKey(s, k, a.t);
    NotRenaming(s, a, k);
    CommittedNext(s, a, k);
    CallerAfter(s, a, k);
    OnlyFlight(s.threads, a.t, Apply(s, a).threads[a.t], k);
  }

  lemma OtherStepFate(s: State, a: Action, t: Tid, k: SnapId)
    requires Inv(s) && Enabled(s, a) && !(HasCaller(a) && a.t == t)
    requires t in s.threads && KeyOf(s.threads[t]) == Some(k) && !s.threads[t].Cleanup?
    ensures k in Apply(s, a).redis.snaps && !KeyCommitted(Apply(s, a).pg.versions, k)
    ensures InFlight(Apply(s, a).threads, k)
  {
    OthersKeep(s, a, t);
    Effects(s, a);
    hide Apply, Enabled, Inv, Next, PgWritten, RedisWritten, PgReady, PcReady, LocksFree, KeyCommitted;
    assert Apply(s, a).threads[t] == s.threads[t];
  }

  /** The owner's step that decides the fate of key k. */
  ghost predicate Ends(s: State, a: Action, k: SnapId, fate: Fate)
    requires Enabled(s, a)
  {
    && HasCaller(a) && KeyOf(At(s, a.t)) == Some(k) && !At(s, a.t).Cleanup?
    && match fate
       case IsCaptured => a.Commit?
       case IsDropped => a.DeleteSnapKeys? && a.ok
       case IsStranded => GivesUp(s, a.t, a)
  }

  lemma OwnerDecides(s: State, a: Action, t: Tid, k: SnapId)
    requires Inv(s) && Enabled(s, a)
    requires t in s.threads && KeyOf(s.threads[t]) == Some(k) && !s.threads[t].Cleanup?
    ensures var mine := HasCaller(a) && a.t == t;
            && k in Apply(s, a).redis.renamed
            && (KeyCommitted(Apply(s, a).pg.versions, k) <==> mine && a.Commit?)
            && (k in Apply(s, a).redis.snaps <==> !(mine && a.DeleteSnapKeys? && a.ok))
            && (InFlight(Apply(s, a).threads, k) <==> !(mine && (a.DeleteSnapKeys? || GivesUp(s, t, a))))
  {
    hide Inv, Enabled, Apply, InFlight, KeyCommitted, KeyOf, AllResolvable, GivesUp;
    OwnerHasKey(s, k, t);
    RenamedKept(s, a);
    if HasCaller(a) && a.t == t {
      OwnStepFate(s, a, k);
    } else {
      OtherStepFate(s, a, t, k);
    }
  }

  /** While a call has the key, only its own step decides. */
  lemma PendingStep(s: State, a: Action, t: Tid, k: SnapId, fate: Fate)
    requires Inv(s) && Enabled(s, a)
    requires t in s.threads && KeyOf(s.threads[t]) == Some(k) && !s.threads[t].Cleanup?
    ensures HasFate(Apply(s, a), k, fate) <==> Ends(s, a, k, fate)
  {
    OnlyOwner(s, a, t, k);
    hide Inv, Enabled, Apply, InFlight, KeyCommitted, KeyOf, AllResolvable;
    OwnerDecides(s, a, t, k);
  }

  lemma OnlyOwner(s: State, a: Action, t: Tid, k: SnapId)
    requires Inv(s) && Enabled(s, a) && t in s.threads && KeyOf(s.threads[t]) == Some(k)
    ensures HasCaller(a) && KeyOf(At(s, a.t)) == Some(k) ==> a.t == t
  {
    hide Inv, Enabled;
    OwnerHasKey(s, k, t);
    assert KeyOf(Idle) == None;
  }

  /** The key that the caller has after its step. */
  lemma NextKey(s: State, a: Action)
    requires Enabled(s, a) && HasCaller(a)
    ensures var key := KeyOf(Apply(s, a).threads[a.t]);
            key.Some? ==> key == KeyOf(At(s, a.t)) || (a.Rename? && key.value == a.key)
  {
    Effects(s, a);
    if a.Rename? {
      RenamedKey(s.pg, s.redis, At(s, a.t), a);
    } else {
      CallerKey(s.pg, s.redis, At(s, a.t), a);
    }
    hide Enabled, Apply, Next, PgWritten, RedisWritten, PgReady, PcReady, LocksFree, NewVersion, KeyOf;
  }

  /** Nobody touches a key that no call has. */
  lemma UnownedStep(s: State, a: Action, k: SnapId)
    requires Enabled(s, a) && k in s.redis.renamed && !InFlight(s.threads, k)
    ensures k in Apply(s, a).redis.snaps <==> k in s.redis.snaps
    ensures !InFlight(Apply(s, a).threads, k)
  {
    Effects(s, a);
    KeysAfter(s.redis, From(s, a), a);
    assert a.Rename? ==> a.key !in s.redis.renamed;
    assert KeyOf(Idle) == None;
    if HasCaller(a) {
      NextKey(s, a);
    }
    hide Enabled, Apply, Next, PgWritten, RedisWritten, PgReady, PcReady, LocksFree, KeyOf;
  }

  lemma CommittedKeeps(s: State, a: Action, k: SnapId)
    requires Inv(s) && Enabled(s, a) && KeyCommitted(s.pg.versions, k)
    ensures KeyCommitted(Apply(s, a).pg.versions, k)
    ensures !(HasCaller(a) && KeyOf(At(s, a.t)) == Some(k) && !At(s, a.t).Cleanup?)
  {
    hide Inv, Enabled, Apply, KeyCommitted;
    CommittedNext(s, a, k);
    assert KeyOf(Idle) == None;
    if HasCaller(a) && KeyOf(At(s, a.t)) == Some(k) {
      OwnerHasKey(s, k, a.t);
    }
  }

  lemma NotInFlight(s: State, a: Action, k: SnapId)
    requires HasCaller(a) && !InFlight(s.threads, k)
    ensures KeyOf(At(s, a.t)) != Some(k)
  {
  }

  /** A key that no call has to deal with keeps its fate. */
  lemma SettledStep(s: State, a: Action, k: SnapId, fate: Fate)
    requires Inv(s) && Enabled(s, a) && k in s.redis.renamed && !Pending(s, k)
    ensures HasFate(Apply(s, a), k, fate) <==> HasFate(s, k, fate)
    ensures !Ends(s, a, k, fate)
  {
    hide Inv, Enabled, Apply, KeyCommitted, KeyOf, GivesUp, InFlight;
    RenamedKept(s, a);
    if KeyCommitted(s.pg.versions, k) {
      CommittedKeeps(s, a, k);
    } else {
      CommittedNext(s, a, k);
      UnownedStep(s, a, k);
      if HasCaller(a) {
        NotInFlight(s, a, k);
      }
    }
  }

  lemma RenamedAfter(s: State, a: Action, k: SnapId)
    requires Enabled(s, a) && k !in s.redis.renamed && k in Apply(s, a).redis.renamed
    ensures a == Rename(a.t, k) && s.redis.work != map[]
  {
    Effects(s, a);
    KeysAfter(s.redis, From(s, a), a);
    hide Enabled, Apply, Next, PgWritten, RedisWritten, PgReady, PcReady, LocksFree;
  }

  /** A key that was not there before the step has no fate after it. */
  lemma FreshStep(s: State, a: Action, k: SnapId, fate: Fate)
    requires Inv(s) && Enabled(s, a) && k !in s.redis.renamed
    ensures !HasFate(s, k, fate) && !HasFate(Apply(s, a), k, fate)
    ensures !Ends(s, a, k, fate)
  {
    hide Inv, Enabled, Apply, KeyCommitted, KeyOf, GivesUp, HasFate, Pending;
    NoFate(s, k, fate);
    InvStep(s, a);
    if HasCaller(a) {
      FreshKey(s, a, k);
    }
    if k in Apply(s, a).redis.renamed {
      RenamedAfter(s, a, k);
      RenamePends(s, a.t, k);
      OneFate(Apply(s, a), k);
    } else {
      NoFate(Apply(s, a), k, fate);
    }
  }

  lemma FreshKey(s: State, a: Action, k: SnapId)
    requires Inv(s) && k !in s.redis.renamed && HasCaller(a)
    ensures KeyOf(At(s, a.t)) != Some(k)
  {
    assert KeyOf(Idle) == None;
    hide Inv;
    if KeyOf(At(s, a.t)) == Some(k) {
      OwnerHasKey(s, k, a.t);
    }
  }

  lemma NoFate(s: State, k: SnapId, fate: Fate)
    requires Inv(s) && k !in s.redis.renamed
    ensures !HasFate(s, k, fate)
  {
    assert OriginInv(s.redis.renamed, s.pg.versions) && SetsInv(s.redis);
    hide BoardInv, EntryInv, NumberInv, NamesInv, CaptureInv, AccountInv, NonEmptyKeys, RefusalInv, Inv;
  }

  /** Each fate is final, and has exactly one cause: a set is captured by the commit
      of its own call, dropped by the clean-up after its refusal, and stranded when
      its call ends between RENAME and commit in any other way. */
  lemma FateStep(s: State, a: Action, k: SnapId, fate: Fate)
    requires Inv(s) && Enabled(s, a)
    ensures HasFate(Apply(s, a), k, fate) <==> HasFate(s, k, fate) || Ends(s, a, k, fate)
  {
    hide Inv, Enabled, Apply, KeyCommitted, KeyOf, Ends, HasFate;
    if k !in s.redis.renamed {
      FreshStep(s, a, k, fate);
    } else if Pending(s, k) {
      var t :| t in s.threads && KeyOf(s.threads[t]) == Some(k);
      OwnerHasKey(s, k, t);
      PendingStep(s, a, t, k, fate);
      OneFate(s, k);
    } else {
      SettledStep(s, a, k, fate);
    }
  }

  // ------------------------------------------------------------------- over runs

  ghost predicate EndsAt(s: State, run: seq<Action>, i: nat, k: SnapId, fate: Fate)
    requires Legal(s, run)
  {
    i < |run| && Legal(s, run[..i]) && Enabled(Exec(s, run[..i]), run[i]) && Ends(Exec(s, run[..i]), run[i], k, fate)
  }

  lemma EndsLater(s: State, run: seq<Action>, i: nat, k: SnapId, fate: Fate)
    requires Legal(s, run) && run != []
    ensures EndsAt(Apply(s, run[0]), run[1..], i, k, fate) <==> EndsAt(s, run, i + 1, k, fate)
  {
    if i + 1 < |run| {
      assert run[..i + 1][0] == run[0] && run[..i + 1][1..] == run[1..][..i];
      assert run[1..][i] == run[i + 1];
    }
    hide Enabled, Apply, Ends;
  }

  lemma {:induction false} FateRun(s: State, run: seq<Action>, k: SnapId, fate: Fate)
    requires Inv(s) && Legal(s, run)
    ensures HasFate(Exec(s, run), k, fate) <==>
            HasFate(s, k, fate) || exists i :: EndsAt(s, run, i, k, fate)
    decreases |run|
  {
    hide Inv, Enabled, Apply, Ends, HasFate;
    if run != [] {
      var next := Apply(s, run[0]);
      FateStep(s, run[0], k, fate);
      InvStep(s, run[0]);
      FateRun(next, run[1..], k, fate);
      EndsFirst(s, run, k, fate);
      hide EndsAt, Legal, Exec;
      if i: nat :| EndsAt(next, run[1..], i, k, fate) {
        EndsLater(s, run, i, k, fate);
      }
      if i: nat :| EndsAt(s, run, i, k, fate) {
        if i > 0 {
          EndsLater(s, run, i - 1, k, fate);
        }
      }
    }
  }

  lemma EndsFirst(s: State, run: seq<Action>, k: SnapId, fate: Fate)
    requires Legal(s, run) && run != []
    ensures EndsAt(s, run, 0, k, fate) <==> Ends(s, run[0], k, fate)
  {
    hide Enabled, Apply, Ends;
    assert run[..0] == [];
  }

  /** From the start: what decided each fate. */
  lemma EveryFateHasItsCause(s: State, run: seq<Action>, k: SnapId, fate: Fate)
    requires Initial(s) && Legal(s, run)
    ensures HasFate(Exec(s, run), k, fate) <==> exists i :: EndsAt(s, run, i, k, fate)
    ensures k in Exec(s, run).redis.renamed ==>
              (Pending(Exec(s, run), k) <==> forall f: Fate :: !HasFate(Exec(s, run), k, f))
    ensures forall f | HasFate(Exec(s, run), k, fate) && HasFate(Exec(s, run), k, f) :: f == fate
  {
    InitialInv(s);
    NoFate(s, k, fate);
    FateRun(s, run, k, fate);
    InvRun(s, run);
    hide Inv, Legal, Exec, EndsAt, HasFate, Pending;
    if k in Exec(s, run).redis.renamed {
      OneFate(Exec(s, run), k);
    } else {
      NoFate(Exec(s, run), k, fate);
    }
  }

  // ----------------------------------------------------------- dropped writes

  ghost predicate LostIn(s: State, k: SnapId, w: WriteId) {
    Lost(s, k) && w in WritesOf(s.redis.renamed[k])
  }

  /** The dropped writes are those of the lost sets. */
  ghost predicate DroppedIs(s: State) {
    forall w: WriteId :: w in s.redis.dropped <==> exists k :: LostIn(s, k, w)
  }

  lemma DroppedNext(s: State, a: Action, w: WriteId)
    requires Inv(s) && Enabled(s, a)
    ensures w in Apply(s, a).redis.dropped <==>
            w in s.redis.dropped
            || exists k :: k in s.redis.renamed && Ends(s, a, k, IsDropped) && w in WritesOf(s.redis.renamed[k])
  {
    Effects(s, a);
    assert KeyOf(Idle) == None;
    DroppedAfter(s.redis, From(s, a), a);
    if a.DeleteSnapKeys? && a.t in s.threads && KeyOf(s.threads[a.t]).Some? {
      OwnerHasKey(s, KeyOf(s.threads[a.t]).value, a.t);
      assert SetsInv(s.redis);
    }
    hide Inv, Enabled, Apply, Next, PgWritten, RedisWritten, PgReady, PcReady, LocksFree, KeyOf, WritesOf, SetsInv;
  }

  lemma DroppedAfter(redis: Redis, pc: Pc, a: Action)
    requires PcReady(pc, a)
    ensures RedisWritten(redis, pc, a).dropped ==
            if a.DeleteSnapKeys? && a.ok && !pc.Cleanup? && KeyOf(pc).Some? && KeyOf(pc).value in redis.snaps
            then redis.dropped + WritesOf(redis.snaps[KeyOf(pc).value]) else redis.dropped
  {
    hide WritesOf;
  }

  lemma DroppedStep(s: State, a: Action)
    requires Inv(s) && Enabled(s, a) && DroppedIs(s)
    ensures DroppedIs(Apply(s, a))
  {
    var s' := Apply(s, a);
    RenamedKept(s, a);
    hide Inv, Enabled, Apply, Ends, WritesOf, KeyCommitted;
    forall w: WriteId ensures w in s'.redis.dropped <==> exists k :: LostIn(s', k, w) {
      DroppedNext(s, a, w);
      forall k ensures HasFate(s', k, IsDropped) <==> HasFate(s, k, IsDropped) || Ends(s, a, k, IsDropped) {
        FateStep(s, a, k, IsDropped);
      }
      LostNext(s, s', a, w);
    }
  }

  lemma LostNext(s: State, s': State, a: Action, w: WriteId)
    requires Enabled(s, a)
    requires forall k | k in s.redis.renamed :: k in s'.redis.renamed && s'.redis.renamed[k] == s.redis.renamed[k]
    requires forall k :: HasFate(s', k, IsDropped) <==> HasFate(s, k, IsDropped) || Ends(s, a, k, IsDropped)
    requires forall k :: Ends(s, a, k, IsDropped) ==> k in s.redis.renamed
    ensures (exists k :: LostIn(s', k, w)) <==>
            (exists k :: LostIn(s, k, w))
            || exists k :: k in s.redis.renamed && Ends(s, a, k, IsDropped) && w in WritesOf(s.redis.renamed[k])
  {
    hide Enabled, Ends, WritesOf;
    if k :| LostIn(s', k, w) {
      assert HasFate(s', k, IsDropped);
      assert HasFate(s, k, IsDropped) ==> LostIn(s, k, w);
    }
    if k :| LostIn(s, k, w) {
      assert HasFate(s, k, IsDropped);
      assert HasFate(s', k, IsDropped);
      assert LostIn(s', k, w);
    }
    if k :| k in s.redis.renamed && Ends(s, a, k, IsDropped) && w in WritesOf(s.redis.renamed[k]) {
      assert HasFate(s', k, IsDropped);
      assert LostIn(s', k, w);
    }
  }

  lemma {:induction false} DroppedRun(s: State, run: seq<Action>)
    requires Inv(s) && Legal(s, run) && DroppedIs(s)
    ensures DroppedIs(Exec(s, run))
    decreases |run|
  {
    hide Inv, Enabled, Apply, DroppedIs;
    if run != [] {
      InvStep(s, run[0]);
      DroppedStep(s, run[0]);
      DroppedRun(Apply(s, run[0]), run[1..]);
    }
  }

  /** At its clean-up the refused call finds its set, and a limit in the way of it. */
  ghost predicate DropsAt(s: State, run: seq<Action>, i: nat, k: SnapId, w: WriteId)
    requires Legal(s, run)
  {
    && EndsAt(s, run, i, k, IsDropped)
    && var here := Exec(s, run[..i]);
       && k in here.redis.snaps && w in WritesOf(here.redis.snaps[k])
       && At(here, run[i].t).Refused?
       && LimitReached(here.pg.versions, here.redis.snaps[k], At(here, run[i].t).tx.request)
  }

  lemma SnapsAreRenamed(s: State)
    requires Inv(s)
    ensures forall k | k in s.redis.snaps :: k in s.redis.renamed && s.redis.snaps[k] == s.redis.renamed[k]
  {
    assert SetsInv(s.redis);
    hide Inv, CellsLogged, Disjoint;
  }

  lemma RefusedThread(s: State, t: Tid)
    requires Inv(s)
    ensures RefusedPc(s.redis.renamed, s.pg.versions, At(s, t))
  {
    assert RefusalInv(s.redis.renamed, s.pg.versions, s.threads);
    hide Inv;
  }

  lemma RefusalHasReason(s: State, a: Action, k: SnapId)
    requires Inv(s) && Enabled(s, a) && Ends(s, a, k, IsDropped)
    ensures a.DeleteSnapKeys? && At(s, a.t).Refused?
    ensures k in s.redis.renamed && k in s.redis.snaps && s.redis.snaps[k] == s.redis.renamed[k]
    ensures LimitReached(s.pg.versions, s.redis.snaps[k], At(s, a.t).tx.request)
  {
    assert KeyOf(Idle) == None;
    SnapsAreRenamed(s);
    RefusedThread(s, a.t);
    hide Inv, LimitReached, PgReady, LocksFree, KeyOf, GivesUp;
    OwnerHasKey(s, k, a.t);
  }

  lemma SplitRun(s: State, run: seq<Action>, i: nat, k: SnapId)
    requires Legal(s, run) && i < |run|
    ensures Legal(s, run[..i]) && Enabled(Exec(s, run[..i]), run[i])
    ensures var here := Exec(s, run[..i]);
            k in here.redis.renamed ==>
              k in Exec(s, run).redis.renamed && Exec(s, run).redis.renamed[k] == here.redis.renamed[k]
  {
    assert run[..i] + run[i..] == run;
    ExecConcat(s, run[..i], run[i..]);
    assert run[i..][0] == run[i];
    if k in Exec(s, run[..i]).redis.renamed {
      RenamedStays(Exec(s, run[..i]), run[i..], k);
    }
    hide Enabled, Apply;
  }

  lemma EndsAtLimit(s: State, run: seq<Action>, i: nat, k: SnapId, w: WriteId)
    requires Inv(s) && Legal(s, run) && EndsAt(s, run, i, k, IsDropped)
    ensures k in Exec(s, run).redis.renamed
    ensures w in WritesOf(Exec(s, run).redis.renamed[k]) <==> DropsAt(s, run, i, k, w)
  {
    InvRun(s, run[..i]);
    hide Inv, Enabled, Apply, Ends, LimitReached, Legal, Exec, WritesOf;
    RefusalHasReason(Exec(s, run[..i]), run[i], k);
    SplitRun(s, run, i, k);
  }

  /** A score is dropped exactly when a snapshot that had renamed its set was refused
      by the version limit or the entry limit, and then deleted the set. */
  lemma DroppedOnlyByLimits(s: State, run: seq<Action>, w: WriteId)
    requires Initial(s) && Legal(s, run)
    ensures w in Exec(s, run).redis.dropped <==> exists i, k :: DropsAt(s, run, i, k, w)
  {
    InitialInv(s);
    assert DroppedIs(s);
    DroppedRun(s, run);
    hide Inv, Initial, Legal, Exec, Lost, WritesOf, EndsAt, DropsAt;
    if w in Exec(s, run).redis.dropped {
      var k :| LostIn(Exec(s, run), k, w);
      assert HasFate(Exec(s, run), k, IsDropped);
      EveryFateHasItsCause(s, run, k, IsDropped);
      var i: nat :| EndsAt(s, run, i, k, IsDropped);
      EndsAtLimit(s, run, i, k, w);
    }
    if i: nat, k :| DropsAt(s, run, i, k, w) {
      DropsEnd(s, run, i, k, w);
      EndsAtLimit(s, run, i, k, w);
      EveryFateHasItsCause(s, run, k, IsDropped);
      assert HasFate(Exec(s, run), k, IsDropped);
      assert LostIn(Exec(s, run), k, w);
    }
  }

  lemma DropsEnd(s: State, run: seq<Action>, i: nat, k: SnapId, w: WriteId)
    requires Legal(s, run) && DropsAt(s, run, i, k, w)
    ensures EndsAt(s, run, i, k, IsDropped)
  {
  }

  /** In every reachable state: a snapshot that has renamed its keys is refused by
      the version limit at its count or by the entry limit at its read, and never
      because there was nothing to read. */
  lemma RefusedOnlyByLimits(s: State, run: seq<Action>, a: Action)
    requires Initial(s) && Legal(s, run) && Enabled(Exec(s, run), a) && HasCaller(a)
    requires var here := Exec(s, run);
             KeyOf(At(here, a.t)).Some? && Next(here.pg, here.redis, At(here, a.t), a).Refused?
    ensures var here := Exec(s, run);
            var request := At(here, a.t).tx.request;
            var k := KeyOf(At(here, a.t)).value;
            || (a.CountVersions? && request.maxVersions.Some? && |here.pg.versions| >= request.maxVersions.value)
            || (a.ReadRows? && k in here.redis.renamed && |a.proposals| == |here.redis.renamed[k]|
                && request.maxEntries.Some? && |a.proposals| > request.maxEntries.value)
  {
    InitialInv(s);
    InvRun(s, run);
    hide Initial, Legal, Exec;
    RefusedNow(Exec(s, run), a);
  }

  /** Of every call: it is turned down at its count by the version limit, or at its
      read by the entry limit or for want of rows, and a create by the first alone. */
  lemma RefusedExactly(s: State, a: Action)
    requires Enabled(s, a) && HasCaller(a)
    ensures At(Apply(s, a), a.t).Refused? <==>
            || (a.CountVersions?
                && var max := At(s, a.t).tx.request.maxVersions; max.Some? && |s.pg.versions| >= max.value)
            || (a.ReadRows? && At(s, a.t).tx.origin != FromInput
                && var max := At(s, a.t).tx.request.maxEntries;
                   |a.proposals| == 0 || (max.Some? && |a.proposals| > max.value))
  {
    hide PgReady, LocksFree, PgWritten, RedisWritten;
    assert At(Apply(s, a), a.t) == Next(s.pg, s.redis, At(s, a.t), a);
  }

  lemma RefusedNow(s: State, a: Action)
    requires Inv(s) && Enabled(s, a) && HasCaller(a)
    requires KeyOf(At(s, a.t)).Some? && Next(s.pg, s.redis, At(s, a.t), a).Refused?
    ensures var request := At(s, a.t).tx.request;
            var k := KeyOf(At(s, a.t)).value;
            || (a.CountVersions? && request.maxVersions.Some? && |s.pg.versions| >= request.maxVersions.value)
            || (a.ReadRows? && k in s.redis.renamed && |a.proposals| == |s.redis.renamed[k]|
                && request.maxEntries.Some? && |a.proposals| > request.maxEntries.value)
  {
    var from := At(s, a.t);
    assert KeyPc(s.redis.renamed, s.redis.snaps, s.pg.versions, from);
    SnapsAreRenamed(s);
    assert NonEmptyKeys(s.redis);
    hide Inv, Apply, Next, PgWritten, RedisWritten, LocksFree, KeyCommitted;
    Effects(s, a);
    RefusedNext(s.pg, s.redis, from, a);
    if a.ReadRows? {
      ListedCount(a.proposals, s.redis.snaps[KeyOf(from).value]);
    }
  }

  // ------------------------------------------------------- where each score is

  datatype Place = Working | Waiting | InVersion | LeftBehind | Overwritten | Dropped | Cleared

  /** Where the score of write w is. */
  ghost predicate IsAt(s: State, w: WriteId, place: Place)
    requires w < |s.redis.writes|
  {
    var slug := s.redis.writes[w].slug;
    match place
    case Working => InSet(s.redis.work, slug, w)
    case Waiting => exists k :: k in s.redis.renamed && Pending(s, k) && InSet(s.redis.renamed[k], slug, w)
    case InVersion => Captured(s.pg.versions, w)
    case LeftBehind => exists k :: k in s.redis.renamed && Stranded(s, k) && InSet(s.redis.renamed[k], slug, w)
    case Overwritten => w in s.redis.overwritten
    case Dropped => w in s.redis.dropped
    case Cleared => w in s.redis.cleared
  }

  lemma KeyPlaces(s: State, w: WriteId, k: SnapId)
    requires Inv(s) && w < |s.redis.writes| && k in s.redis.snaps && InSet(s.redis.snaps[k], s.redis.writes[w].slug, w)
    ensures IsAt(s, w, Waiting) || IsAt(s, w, InVersion) || IsAt(s, w, LeftBehind)
  {
    assert SetsInv(s.redis);
    assert k in s.redis.renamed && s.redis.snaps[k] == s.redis.renamed[k];
    if KeyCommitted(s.pg.versions, k) {
      KeyIsCaptured(s.pg.slugOf, s.redis.renamed, s.pg.versions, k, s.redis.writes[w].slug, w);
    }
    hide Inv, SetsInv, KeyCommitted, InFlight, Captured, InSet;
  }

  /** No score ever written is out of sight: it is in the working set, on its way
      into a version, in a version, left behind, or it was overwritten by a later
      one, dropped because of a limit, or cleared. */
  lemma EveryWriteIsAccounted(s: State, run: seq<Action>, w: WriteId)
    requires Initial(s) && Legal(s, run) && w < |Exec(s, run).redis.writes|
    ensures exists place :: IsAt(Exec(s, run), w, place)
    ensures OverwrittenLater(Exec(s, run).redis)
  {
    InitialInv(s);
    InvRun(s, run);
    var end := Exec(s, run);
    assert Accounted(end.redis, end.pg.versions, w);
    hide Initial, Legal, Exec, Inv, InSet, Captured, Pending, Stranded;
    if InSomeSet(end.redis.snaps, end.redis.writes[w].slug, w) {
      var k :| k in end.redis.snaps && InSet(end.redis.snaps[k], end.redis.writes[w].slug, w);
      KeyPlaces(end, w, k);
    } else if InSet(end.redis.work, end.redis.writes[w].slug, w) {
      assert IsAt(end, w, Working);
    } else if Captured(end.pg.versions, w) {
      assert IsAt(end, w, InVersion);
    } else {
      assert IsAt(end, w, Overwritten) || IsAt(end, w, Dropped) || IsAt(end, w, Cleared);
    }
  }

  // ------------------------------------------------------------- exactly once

  ghost predicate InNoSet(redis: Redis, w: WriteId)
    requires w < |redis.writes|
  {
    var slug := redis.writes[w].slug;
    !InSet(redis.work, slug, w) && forall k | k in redis.renamed :: !InSet(redis.renamed[k], slug, w)
  }

  /** A write that was overwritten or cleared was never in a renamed set. */
  ghost predicate GoneInv(redis: Redis) {
    && (forall w | w in redis.overwritten :: w < |redis.writes| && w !in redis.cleared && InNoSet(redis, w))
    && (forall w | w in redis.cleared :: w < |redis.writes| && InNoSet(redis, w))
  }

  lemma GoneStep(redis: Redis, pc: Pc, a: Action)
    requires PcReady(pc, a) && SetsInv(redis) && GoneInv(redis)
    requires a.Rename? ==> a.key !in redis.renamed
    ensures GoneInv(RedisWritten(redis, pc, a))
  {
    if a.WriteScore? {
      GoneAfterWrite(redis, pc);
    } else if a.ClearKeys? {
      GoneAfterClear(redis);
    } else if a.Rename? {
    } else {
      KeysAfter(redis, pc, a);
      hide SetsInv, InSet, WritesOf;
    }
  }

  lemma GoneAfterWrite(redis: Redis, pc: Pc)
    requires pc.SubmitScore? && SetsInv(redis) && GoneInv(redis)
    ensures GoneInv(ScoreWritten(redis, pc))
  {
    var r := ScoreWritten(redis, pc);
    assert CellsLogged(redis.writes, redis.work);
    forall w | w in r.overwritten ensures w < |r.writes| && w !in r.cleared && InNoSet(r, w) {
      if w !in redis.overwritten {
        assert InSet(redis.work, pc.slug, w);
        forall k | k in r.renamed ensures !InSet(r.renamed[k], r.writes[w].slug, w) {
          assert Disjoint(redis.renamed[k], redis.work);
        }
      }
    }
  }

  lemma GoneAfterClear(redis: Redis)
    requires SetsInv(redis) && GoneInv(redis)
    ensures GoneInv(RedisWritten(redis, Idle, ClearKeys))
  {
    var r := RedisWritten(redis, Idle, ClearKeys);
    assert CellsLogged(redis.writes, redis.work);
    forall w | w in r.cleared ensures w < |r.writes| && InNoSet(r, w) {
      if w !in redis.cleared {
        var slug :| slug in redis.work && redis.work[slug].write == w;
        forall k | k in r.renamed ensures !InSet(r.renamed[k], r.writes[w].slug, w) {
          assert Disjoint(redis.renamed[k], redis.work);
        }
      }
    }
    forall w | w in r.overwritten ensures w !in r.cleared {
      assert InNoSet(redis, w);
    }
  }

  lemma {:induction false} GoneRun(s: State, run: seq<Action>)
    requires Inv(s) && Legal(s, run) && GoneInv(s.redis)
    ensures GoneInv(Exec(s, run).redis)
    decreases |run|
  {
    if run != [] {
      var a := run[0];
      Effects(s, a);
      assert SetsInv(s.redis) && (a.Rename? ==> a.key !in s.redis.renamed);
      InvStep(s, a);
      hide Inv, Enabled, Apply, GoneInv, Next, PgWritten, RedisWritten, PgReady, PcReady, LocksFree, SetsInv;
      GoneStep(s.redis, From(s, a), a);
      GoneRun(Apply(s, a), run[1..]);
    }
  }

  /** Places inside a renamed set, and the state of its key. */
  ghost predicate Explains(s: State, k: SnapId, place: Place) {
    match place
    case Waiting => Pending(s, k)
    case InVersion => KeyCommitted(s.pg.versions, k)
    case LeftBehind => Stranded(s, k)
    case Dropped => Lost(s, k)
    case _ => false
  }

  predicate OutOfSets(place: Place) {
    place.Working? || place.Overwritten? || place.Cleared?
  }

  lemma PlaceHasKey(s: State, w: WriteId, place: Place) returns (k: SnapId)
    requires Inv(s) && ClearingInv(s.threads, s.pg.versions) && DroppedIs(s)
    requires w < |s.redis.writes| && IsAt(s, w, place) && !OutOfSets(place)
    ensures k in s.redis.renamed && InSet(s.redis.renamed[k], s.redis.writes[w].slug, w) && Explains(s, k, place)
  {
    assert SetsInv(s.redis);
    var slug := s.redis.writes[w].slug;
    match place {
      case Waiting =>
        k :| k in s.redis.renamed && Pending(s, k) && InSet(s.redis.renamed[k], slug, w);
      case LeftBehind =>
        k :| k in s.redis.renamed && Stranded(s, k) && InSet(s.redis.renamed[k], slug, w);
      case InVersion =>
        k := CapturedHasKey(s, w);
      case Dropped =>
        k :| LostIn(s, k, w);
        assert CellsLogged(s.redis.writes, s.redis.renamed[k]);
        hide Inv, ClearingInv, DroppedIs, KeyCommitted;
    }
  }

  lemma CapturedHasKey(s: State, w: WriteId) returns (k: SnapId)
    requires Inv(s) && ClearingInv(s.threads, s.pg.versions) && Captured(s.pg.versions, w)
    requires w < |s.redis.writes|
    ensures k in s.redis.renamed && InSet(s.redis.renamed[k], s.redis.writes[w].slug, w)
    ensures KeyCommitted(s.pg.versions, k)
  {
    var i :| 0 <= i < |s.pg.versions| && RowsCapture(s.pg.versions[i].rows, w);
    var v := s.pg.versions[i];
    assert Sourced(v.rows, v.origin) && !v.origin.FromWorkingSet?;
    assert v.origin.FromSnapshotKey?;
    k := v.origin.key;
    assert CaptureVersion(s.pg.slugOf, s.redis.renamed, v);
    assert CellsLogged(s.redis.writes, s.redis.renamed[k]);
    hide Inv, ClearingInv, Mirrors, CellsLogged, RowsCapture;
    CapturedIsMirrored(s.pg.slugOf, v.rows, s.redis.renamed[k], s.redis.writes, w);
  }

  lemma SameKey(s: State, w: WriteId, k: SnapId, l: SnapId)
    requires Inv(s) && w < |s.redis.writes| && k in s.redis.renamed && l in s.redis.renamed
    requires InSet(s.redis.renamed[k], s.redis.writes[w].slug, w)
    requires InSet(s.redis.renamed[l], s.redis.writes[w].slug, w)
    ensures k == l && !InSet(s.redis.work, s.redis.writes[w].slug, w)
  {
    assert SetsInv(s.redis);
    assert Disjoint(s.redis.renamed[k], s.redis.work);
    assert k != l ==> Disjoint(s.redis.renamed[k], s.redis.renamed[l]);
    hide Inv, SetsInv;
  }

  lemma OnePlace(s: State, w: WriteId, p: Place, q: Place)
    requires Inv(s) && ClearingInv(s.threads, s.pg.versions) && DroppedIs(s) && GoneInv(s.redis)
    requires w < |s.redis.writes| && IsAt(s, w, p) && IsAt(s, w, q)
    ensures p == q
  {
    hide Inv, ClearingInv, DroppedIs, InSet, Captured, Pending, Stranded, KeyCommitted, Lost;
    if OutOfSets(p) && OutOfSets(q) {
    } else if OutOfSets(p) {
      var k := PlaceHasKey(s, w, q);
      SameKey(s, w, k, k);
    } else if OutOfSets(q) {
      var k := PlaceHasKey(s, w, p);
      SameKey(s, w, k, k);
    } else {
      var k := PlaceHasKey(s, w, p);
      var l := PlaceHasKey(s, w, q);
      SameKey(s, w, k, l);
      OneExplanation(s, k, p, q);
    }
  }

  lemma OneExplanation(s: State, k: SnapId, p: Place, q: Place)
    requires Inv(s) && k in s.redis.renamed && Explains(s, k, p) && Explains(s, k, q)
    ensures p == q
  {
    OneFate(s, k);
    hide Inv, Pending, Stranded, KeyCommitted, Lost;
    assert HasFate(s, k, IsCaptured) <==> KeyCommitted(s.pg.versions, k);
    assert HasFate(s, k, IsDropped) <==> Lost(s, k);
    assert HasFate(s, k, IsStranded) <==> Stranded(s, k);
  }

  /** Conservation: on a board that clears on snapshot, every score ever written is
      in exactly one place, whatever the interleaving and whatever fails. */
  lemma EveryWriteIsInOnePlace(s: State, run: seq<Action>, w: WriteId)
    requires Initial(s) && Legal(s, run) && w < |Exec(s, run).redis.writes|
    requires forall n | 0 <= n < |run| :: Clears(run[n])
    ensures exists place :: IsAt(Exec(s, run), w, place)
    ensures forall p, q | IsAt(Exec(s, run), w, p) && IsAt(Exec(s, run), w, q) :: p == q
  {
    EveryWriteIsAccounted(s, run, w);
    InitialInv(s);
    assert DroppedIs(s) && GoneInv(s.redis) && ClearingInv(s.threads, s.pg.versions);
    InvRun(s, run);
    ClearingRun(s, run);
    DroppedRun(s, run);
    GoneRun(s, run);
    hide Initial, Legal, Exec, Inv, ClearingInv, DroppedIs, GoneInv, IsAt, Clears;
    forall p, q | IsAt(Exec(s, run), w, p) && IsAt(Exec(s, run), w, q) ensures p == q {
      OnePlace(Exec(s, run), w, p, q);
    }
  }
}
