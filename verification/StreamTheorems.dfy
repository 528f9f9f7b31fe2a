/** What holds of the EventBus in every reachable state. */
module StreamTheorems {
  import opened Core
  import opened Ordering
  import opened StreamModel

  type Threads = map<Tid, Pc>

  // ----------------------------------------------------------- connection cap

  /** Has added one to the counter and not yet taken it back. */
  predicate Counted(pc: Pc) {
    pc.Rejected? || Granted(pc)
  }

  /** Was let in: a guard, or on the way to one. */
  predicate Granted(pc: Pc) {
    pc.Admitted? || pc.Attached? || HasGuard(pc)
  }

  predicate HasGuard(pc: Pc) {
    pc.Connected? || pc.GuardOnly?
  }

  function CountedTasks(threads: Threads): set<Tid> {
    set t | t in threads && Counted(threads[t])
  }

  function GrantedTasks(threads: Threads): set<Tid> {
    set t | t in threads && Granted(threads[t])
  }

  /** Live ConnectionGuards. */
  function Guards(threads: Threads): set<Tid> {
    set t | t in threads && HasGuard(threads[t])
  }

  /** Attempts between their fetch_add and their guard or their undo. */
  function InFlight(threads: Threads): set<Tid> {
    set t | t in threads && Counted(threads[t]) && !HasGuard(threads[t])
  }

  ghost predicate CapInv(s: State) {
    && s.bus.active == |CountedTasks(s.threads)|
    && |GrantedTasks(s.threads)| <= s.config.maxConnections
  }

  function One(b: bool): nat {
    if b then 1 else 0
  }

  lemma CountAfter(threads: Threads, t: Tid, pc: Pc)
    ensures |CountedTasks(threads[t := pc])|
            == |CountedTasks(threads)| - One(Counted(At(threads, t))) + One(Counted(pc))
  {
    var c := CountedTasks(threads);
    assert t in c <==> Counted(At(threads, t));
    assert CountedTasks(threads[t := pc]) == if Counted(pc) then c + {t} else c - {t};
  }

  lemma GrantsAfter(threads: Threads, t: Tid, pc: Pc)
    ensures |GrantedTasks(threads[t := pc])|
            == |GrantedTasks(threads)| - One(Granted(At(threads, t))) + One(Granted(pc))
  {
    var g := GrantedTasks(threads);
    assert t in g <==> Granted(At(threads, t));
    assert GrantedTasks(threads[t := pc]) == if Granted(pc) then g + {t} else g - {t};
  }

  /** Every step changes the counter exactly as it changes the caller's share of it. */
  lemma ShareStep(config: Config, bus: Bus, pc: Pc, a: Action)
    requires PcReady(pc, a) && (a.Undo? || a.DropGuard? ==> bus.active > 0)
    ensures BusAfter(config, bus, pc, a).active
            == bus.active - One(Counted(pc)) + One(Counted(Next(config, bus, pc, a)))
    ensures Granted(Next(config, bus, pc, a)) ==> Granted(pc) || bus.active < config.maxConnections
  {
  }

  lemma CapStep(s: State, a: Action)
    requires Enabled(s, a) && CapInv(s)
    ensures CapInv(Apply(s, a))
  {
    var pc := At(s.threads, a.t);
    var pc' := Next(s.config, s.bus, pc, a);
    ShareStep(s.config, s.bus, pc, a);
    CountAfter(s.threads, a.t, pc');
    GrantsAfter(s.threads, a.t, pc');
    SubsetCard(GrantedTasks(s.threads), CountedTasks(s.threads));
    hide Next, BusAfter, LogAfter;
  }

  // ------------------------------------------------------------------ locks

  /** A writer excludes readers and other writers. */
  ghost predicate LockInv(threads: Threads) {
    forall t, u | t in threads && u in threads && Writing(threads[t]) ::
      !Reading(threads[u]) && (Writing(threads[u]) ==> t == u)
  }

  lemma LockStep(s: State, a: Action)
    requires Enabled(s, a) && LockInv(s.threads)
    ensures LockInv(Apply(s, a).threads)
  {
    var pc := At(s.threads, a.t);
    var pc' := Next(s.config, s.bus, pc, a);
    assert Writing(pc') ==> NoLock(s.threads);
    assert Reading(pc') ==> Reading(pc) || NoWriter(s.threads);
    hide Next, BusAfter, LogAfter, PcReady, Ready;
  }

  // -------------------------------------------------------------- channels

  /** Every live receiver is attached to the sender registered for its board. */
  ghost predicate AttachedInv(bus: Bus) {
    forall r | r in bus.receivers ::
      bus.receivers[r].board in bus.channels && bus.channels[bus.receivers[r].board] == bus.receivers[r].chan
  }

  /** Boards do not share a channel, and channel ids are never reused. */
  ghost predicate ChannelInv(bus: Bus, log: Log) {
    && (forall b, c | b in bus.channels && c in bus.channels && b != c :: bus.channels[b] != bus.channels[c])
    && (forall b | b in bus.channels :: bus.channels[b] in log.accepted)
    && (forall r | r in bus.receivers :: r in log.inbox)
  }

  /** A publisher in its read section has the registered sender. */
  ghost predicate PublisherInv(bus: Bus, threads: Threads) {
    forall t | t in threads && Reading(threads[t]) ::
      threads[t].board in bus.channels && bus.channels[threads[t].board] == threads[t].chan
  }

  /** Debounce entries belong to registered channels, except the one being pruned. */
  ghost predicate KeysInv(bus: Bus, threads: Threads) {
    && (forall b | b in bus.lastScore && b !in bus.channels ::
          exists t :: t in threads && threads[t] == Pruning(b))
    && (forall t | t in threads && threads[t].Pruning? :: threads[t].board !in bus.channels)
  }

  ghost predicate RegistryInv(s: State) {
    && LockInv(s.threads)
    && AttachedInv(s.bus)
    && ChannelInv(s.bus, s.log)
    && PublisherInv(s.bus, s.threads)
    && KeysInv(s.bus, s.threads)
  }

  lemma AttachedStep(s: State, a: Action)
    requires Enabled(s, a) && RegistryInv(s)
    ensures AttachedInv(Apply(s, a).bus)
    ensures ChannelInv(Apply(s, a).bus, Apply(s, a).log)
  {
    var pc := At(s.threads, a.t);
    if a.PruneChannel? && Prunable(s.bus, pc.board) {
      forall r | r in s.bus.receivers ensures s.bus.receivers[r].board != pc.board {
        assert r !in ReceiversOf(s.bus.receivers, s.bus.channels[pc.board]);
      }
    }
    hide Next;
  }

  lemma ReaderNext(s: State, a: Action)
    requires Enabled(s, a) && PublisherInv(s.bus, s.threads)
    ensures var pc' := Next(s.config, s.bus, At(s.threads, a.t), a);
            Reading(pc') ==> (!a.Attach? && !a.PruneChannel?
              && pc'.board in s.bus.channels && s.bus.channels[pc'.board] == pc'.chan)
  {
  }

  /** What a step does to the registry. */
  lemma ChannelsAfter(s: State, a: Action)
    requires Enabled(s, a)
    ensures var pc := At(s.threads, a.t);
            var bus := Apply(s, a).bus;
            && (!a.Attach? && !a.PruneChannel? ==> bus.channels == s.bus.channels)
            && (a.Attach? || a.PruneChannel? ==> NoLock(s.threads))
            && (a.Attach? ==> bus.channels.Keys == s.bus.channels.Keys + {pc.board})
            && (a.PruneChannel? && Prunable(s.bus, pc.board) ==>
                  Next(s.config, s.bus, pc, a) == Pruning(pc.board)
                  && bus.channels == s.bus.channels - {pc.board})
            && (a.PruneChannel? && !Prunable(s.bus, pc.board) ==>
                  Next(s.config, s.bus, pc, a) == Idle && bus.channels == s.bus.channels)
            && (!a.Debounce? && !a.PruneDebounce? ==> bus.lastScore == s.bus.lastScore)
            && (a.PruneDebounce? ==> pc.Pruning? && bus.lastScore == s.bus.lastScore - {pc.board})
            && (a.Debounce? ==> pc.Timed? && bus.lastScore.Keys <= s.bus.lastScore.Keys + {pc.board})
            && (Next(s.config, s.bus, pc, a).Pruning? ==> a.PruneChannel?)
            && (pc.Pruning? ==> a.PruneDebounce?)
  {
    hide LogAfter;
  }

  lemma PublisherStep(s: State, a: Action)
    requires Enabled(s, a) && RegistryInv(s)
    ensures PublisherInv(Apply(s, a).bus, Apply(s, a).threads)
  {
    ReaderNext(s, a);
    ChannelsAfter(s, a);
    hide Next, BusAfter, LogAfter, PcReady, Ready;
  }

  lemma KeysStep(s: State, a: Action)
    requires Enabled(s, a) && RegistryInv(s)
    ensures KeysInv(Apply(s, a).bus, Apply(s, a).threads)
  {
    ChannelsAfter(s, a);
    var pc := At(s.threads, a.t);
    var s' := Apply(s, a);
    assert a.Debounce? ==> Reading(pc) && pc.board in s.bus.channels;
    hide Next, BusAfter, LogAfter, PcReady, Ready;
    forall b | b in s'.bus.lastScore && b !in s'.bus.channels
      ensures exists t :: t in s'.threads && s'.threads[t] == Pruning(b)
    {
      if b in s.bus.channels {
        assert a.PruneChannel? && s'.threads[a.t] == Pruning(b);
      } else {
        assert b in s.bus.lastScore;
        var t :| t in s.threads && s.threads[t] == Pruning(b);
        assert s'.threads[t] == Pruning(b);
      }
    }
    if a.Attach? {
      assert forall t | t in s.threads :: !Writing(s.threads[t]);
    }
  }

  lemma RegistryStep(s: State, a: Action)
    requires Enabled(s, a) && RegistryInv(s)
    ensures RegistryInv(Apply(s, a))
  {
    LockStep(s, a);
    AttachedStep(s, a);
    PublisherStep(s, a);
    KeysStep(s, a);
    hide Apply, Enabled, LockInv, AttachedInv, ChannelInv, PublisherInv, KeysInv;
  }

  // --------------------------------------------------------------- debouncing

  ghost predicate Spaced(stamps: set<nat>, gap: nat) {
    forall x, y | x in stamps && y in stamps && x < y :: x + gap <= y
  }

  function Gap(config: Config): nat {
    config.debounceMs * NANOS_PER_MILLI
  }

  /** The times accepted for a channel are a gap apart, and the board's debounce
      entry is the latest of them. */
  ghost predicate GapInv(config: Config, bus: Bus, log: Log) {
    && (forall c :: Spaced(Of(log.accepted, c), Gap(config)))
    && (forall b | b in bus.channels :: LatestKnown(bus, log, b))
  }

  ghost predicate LatestKnown(bus: Bus, log: Log, board: Slug)
    requires board in bus.channels
  {
    forall x | x in Of(log.accepted, bus.channels[board]) ::
      board in bus.lastScore && x <= bus.lastScore[board]
  }

  /** A time accepted and not yet sent belongs to one publisher. */
  ghost predicate Pending(log: Log, pc: Pc) {
    pc.Sending? ==>
      && (pc.delivery.event.ScoreUpdated? ==> pc.delivery.stamp.Some?)
      && (pc.delivery.stamp.Some? ==>
            pc.delivery.stamp.value in Of(log.accepted, pc.chan)
            && pc.delivery.stamp.value !in Of(log.sent, pc.chan))
  }

  predicate SameStamp(p: Pc, q: Pc) {
    p.Sending? && q.Sending? && p.chan == q.chan && p.delivery.stamp.Some? && p.delivery.stamp == q.delivery.stamp
  }

  ghost predicate PendingInv(log: Log, threads: Threads) {
    && (forall t | t in threads :: Pending(log, threads[t]))
    && (forall t, u | t in threads && u in threads && SameStamp(threads[t], threads[u]) :: t == u)
    && (forall c :: Of(log.sent, c) <= Of(log.accepted, c))
  }

  predicate Stamped(log: Log, r: RecvId, d: Delivery)
    requires r in log.chanOf
  {
    && (d.event.ScoreUpdated? ==> d.stamp.Some?)
    && (d.stamp.Some? ==> d.stamp.value in Of(log.sent, log.chanOf[r]))
  }

  /** Each receiver got each accepted time of its channel at most once. */
  ghost predicate InboxInv(log: Log) {
    && log.inbox.Keys == log.chanOf.Keys
    && (forall r, i | r in log.inbox && 0 <= i < |log.inbox[r]| :: Stamped(log, r, log.inbox[r][i]))
    && (forall r, i, j | r in log.inbox && 0 <= i < j < |log.inbox[r]| && log.inbox[r][i].stamp.Some? ::
          log.inbox[r][i].stamp != log.inbox[r][j].stamp)
  }

  ghost predicate ReceiverChannels(bus: Bus, log: Log) {
    forall r | r in bus.receivers :: r in log.chanOf && log.chanOf[r] == bus.receivers[r].chan
  }

  ghost predicate DebounceInv(s: State) {
    && GapInv(s.config, s.bus, s.log)
    && PendingInv(s.log, s.threads)
    && InboxInv(s.log)
    && ReceiverChannels(s.bus, s.log)
  }

  /** A time that is not too soon is a whole gap after the last one. */
  lemma NotTooSoon(config: Config, lastScore: map<Slug, nat>, board: Slug, now: nat)
    requires board in lastScore && !TooSoon(config, lastScore, board, now) && config.debounceMs > 0
    ensures lastScore[board] + Gap(config) <= now
  {
    var d := now - lastScore[board];
    assert d >= 0;
    assert d == (d / NANOS_PER_MILLI) * NANOS_PER_MILLI + d % NANOS_PER_MILLI;
  }

  lemma GapDebounce(config: Config, bus: Bus, log: Log, pc: Pc, a: Action)
    requires a.Debounce? && PcReady(pc, a) && config.debounceMs > 0
    requires pc.board in bus.channels && bus.channels[pc.board] == pc.chan
    requires forall b, c | b in bus.channels && c in bus.channels && b != c :: bus.channels[b] != bus.channels[c]
    requires GapInv(config, bus, log) && !TooSoon(config, bus.lastScore, pc.board, pc.now)
    ensures GapInv(config, BusAfter(config, bus, pc, a), LogAfter(config, bus, log, pc, a))
    ensures pc.now !in Of(log.accepted, pc.chan)
  {
    assert LatestKnown(bus, log, pc.board);
    if pc.board in bus.lastScore {
      NotTooSoon(config, bus.lastScore, pc.board, pc.now);
    }
    var was := Of(log.accepted, pc.chan);
    assert forall x | x in was :: x + Gap(config) <= pc.now;
    var bus' := BusAfter(config, bus, pc, a);
    var log' := LogAfter(config, bus, log, pc, a);
    assert Spaced(was, Gap(config));
    forall c ensures Spaced(Of(log'.accepted, c), Gap(config)) {
      assert Spaced(Of(log.accepted, c), Gap(config));
      if c != pc.chan {
        assert Of(log'.accepted, c) == Of(log.accepted, c);
      }
    }
    assert Of(log'.accepted, pc.chan) == was + {pc.now};
    assert bus'.channels == bus.channels && bus'.lastScore == bus.lastScore[pc.board := pc.now];
    forall b, x | b in bus'.channels && x in Of(log'.accepted, bus'.channels[b])
      ensures b in bus'.lastScore && x <= bus'.lastScore[b]
    {
      assert LatestKnown(bus, log, b);
      if b != pc.board {
        assert Of(log'.accepted, bus.channels[b]) == Of(log.accepted, bus.channels[b]);
      }
    }
  }

  lemma GapStep(s: State, a: Action)
    requires Enabled(s, a) && RegistryInv(s) && s.config.debounceMs > 0
    requires GapInv(s.config, s.bus, s.log)
    ensures GapInv(s.config, Apply(s, a).bus, Apply(s, a).log)
  {
    var pc := At(s.threads, a.t);
    if a.Debounce? && !TooSoon(s.config, s.bus.lastScore, pc.board, pc.now) {
      GapDebounce(s.config, s.bus, s.log, pc, a);
    } else {
      GapOther(s, a);
    }
  }

  lemma GapOther(s: State, a: Action)
    requires Enabled(s, a) && RegistryInv(s) && GapInv(s.config, s.bus, s.log)
    requires a.Debounce? ==> TooSoon(s.config, s.bus.lastScore, At(s.threads, a.t).board, At(s.threads, a.t).now)
    ensures GapInv(s.config, Apply(s, a).bus, Apply(s, a).log)
  {
    AcceptedAfter(s, a);
    ChannelsAfter(s, a);
    var s' := Apply(s, a);
    var pc := At(s.threads, a.t);
    assert a.PruneDebounce? ==> pc.board !in s.bus.channels;
    ChannelValues(s, a);
    assert a.Debounce? ==> s'.bus.lastScore == s.bus.lastScore;
    hide Apply, Enabled, Next, BusAfter, LogAfter, PcReady, Ready, LockInv, PublisherInv, AttachedInv;
    forall c ensures Spaced(Of(s'.log.accepted, c), Gap(s.config)) {
      assert Spaced(Of(s.log.accepted, c), Gap(s.config));
    }
    forall b | b in s'.bus.channels ensures LatestKnown(s'.bus, s'.log, b) {
      if b in s.bus.channels {
        assert LatestKnown(s.bus, s.log, b);
      }
    }
  }

  /** Without an accepted time no channel's set of times changes. */
  lemma AcceptedAfter(s: State, a: Action)
    requires Enabled(s, a)
    requires a.Debounce? ==> TooSoon(s.config, s.bus.lastScore, At(s.threads, a.t).board, At(s.threads, a.t).now)
    ensures forall c :: Of(Apply(s, a).log.accepted, c) == Of(s.log.accepted, c)
    ensures !a.Send? ==> Apply(s, a).log.sent == s.log.sent
  {
    hide BusAfter, Next;
  }

  /** A board keeps its channel; a new one has a channel without accepted times. */
  lemma ChannelValues(s: State, a: Action)
    requires Enabled(s, a)
    ensures forall b | b in Apply(s, a).bus.channels ::
              if b in s.bus.channels then Apply(s, a).bus.channels[b] == s.bus.channels[b]
              else Apply(s, a).bus.channels[b] !in s.log.accepted
  {
    hide LogAfter, Next;
  }

  lemma PendingSet(log: Log, log': Log, threads: Threads, t: Tid, pc: Pc)
    requires PendingInv(log, threads) && Pending(log', pc)
    requires forall c :: Of(log.accepted, c) <= Of(log'.accepted, c)
    requires forall c :: Of(log'.sent, c) <= Of(log'.accepted, c)
    requires forall u | u in threads && u != t && threads[u].Sending? && threads[u].delivery.stamp.Some? ::
               threads[u].delivery.stamp.value !in Of(log'.sent, threads[u].chan)
    requires forall u | u in threads && u != t :: !SameStamp(threads[u], pc) && !SameStamp(pc, threads[u])
    ensures PendingInv(log', threads[t := pc])
  {
    hide Of;
    forall u | u in threads && u != t ensures Pending(log', threads[u]) {
      assert Pending(log, threads[u]);
    }
  }

  lemma PendingDebounce(s: State, a: Action)
    requires Enabled(s, a) && RegistryInv(s) && s.config.debounceMs > 0 && DebounceInv(s)
    requires a.Debounce? && !TooSoon(s.config, s.bus.lastScore, At(s.threads, a.t).board, At(s.threads, a.t).now)
    ensures PendingInv(Apply(s, a).log, Apply(s, a).threads)
  {
    var pc := At(s.threads, a.t);
    GapDebounce(s.config, s.bus, s.log, pc, a);
    var log' := Apply(s, a).log;
    var pc' := Next(s.config, s.bus, pc, a);
    assert Of(s.log.sent, pc.chan) <= Of(s.log.accepted, pc.chan);
    assert Of(log'.accepted, pc.chan) == Of(s.log.accepted, pc.chan) + {pc.now};
    forall c ensures Of(s.log.accepted, c) <= Of(log'.accepted, c) && Of(log'.sent, c) <= Of(log'.accepted, c) {
      assert Of(s.log.sent, c) <= Of(s.log.accepted, c);
    }
    forall u | u in s.threads && u != a.t
      ensures !SameStamp(s.threads[u], pc') && !SameStamp(pc', s.threads[u])
    {
      assert Pending(s.log, s.threads[u]);
    }
    forall u | u in s.threads && u != a.t && s.threads[u].Sending? && s.threads[u].delivery.stamp.Some?
      ensures s.threads[u].delivery.stamp.value !in Of(log'.sent, s.threads[u].chan)
    {
      assert Pending(s.log, s.threads[u]);
    }
    PendingSet(s.log, log', s.threads, a.t, pc');
  }

  lemma PendingSend(s: State, a: Action)
    requires Enabled(s, a) && PendingInv(s.log, s.threads) && a.Send?
    ensures PendingInv(Apply(s, a).log, Apply(s, a).threads)
  {
    var pc := At(s.threads, a.t);
    var log' := Apply(s, a).log;
    assert Pending(s.log, pc);
    forall c ensures Of(s.log.accepted, c) <= Of(log'.accepted, c) && Of(log'.sent, c) <= Of(log'.accepted, c) {
      assert Of(s.log.sent, c) <= Of(s.log.accepted, c);
    }
    forall u | u in s.threads && u != a.t && s.threads[u].Sending? && s.threads[u].delivery.stamp.Some?
      ensures s.threads[u].delivery.stamp.value !in Of(log'.sent, s.threads[u].chan)
    {
      assert Pending(s.log, s.threads[u]) && !SameStamp(s.threads[u], pc);
    }
    PendingSet(s.log, log', s.threads, a.t, Sent(pc.board, pc.chan));
  }

  lemma PendingOther(s: State, a: Action)
    requires Enabled(s, a) && PendingInv(s.log, s.threads) && !a.Send? && s.config.debounceMs > 0
    requires a.Debounce? ==> TooSoon(s.config, s.bus.lastScore, At(s.threads, a.t).board, At(s.threads, a.t).now)
    ensures PendingInv(Apply(s, a).log, Apply(s, a).threads)
  {
    AcceptedAfter(s, a);
    UnstampedNext(s, a);
    var log' := Apply(s, a).log;
    forall c ensures Of(log'.sent, c) <= Of(log'.accepted, c) {
      assert Of(s.log.sent, c) <= Of(s.log.accepted, c);
    }
    hide Enabled, Next, BusAfter, LogAfter, PcReady, Ready, Of;
    forall u | u in s.threads && u != a.t && s.threads[u].Sending? && s.threads[u].delivery.stamp.Some?
      ensures s.threads[u].delivery.stamp.value !in Of(log'.sent, s.threads[u].chan)
    {
      assert Pending(s.log, s.threads[u]);
    }
    PendingSet(s.log, log', s.threads, a.t, Next(s.config, s.bus, At(s.threads, a.t), a));
  }

  lemma UnstampedNext(s: State, a: Action)
    requires Enabled(s, a) && !a.Send? && s.config.debounceMs > 0
    requires a.Debounce? ==> TooSoon(s.config, s.bus.lastScore, At(s.threads, a.t).board, At(s.threads, a.t).now)
    ensures var pc' := Next(s.config, s.bus, At(s.threads, a.t), a);
            pc'.Sending? ==> pc'.delivery.stamp == None && !pc'.delivery.event.ScoreUpdated?
  {
    hide BusAfter, LogAfter;
  }

  lemma InboxSend(log: Log, to: set<RecvId>, chan: ChanId, d: Delivery, log': Log)
    requires InboxInv(log)
    requires d.event.ScoreUpdated? ==> d.stamp.Some?
    requires d.stamp.Some? ==> d.stamp.value !in Of(log.sent, chan)
    requires forall r | r in to :: r in log.chanOf && log.chanOf[r] == chan
    requires log'.inbox == Broadcast(log.inbox, to, d) && log'.chanOf == log.chanOf
    requires log'.sent == if d.stamp.Some? then log.sent[chan := Of(log.sent, chan) + {d.stamp.value}] else log.sent
    ensures InboxInv(log')
  {
    forall c ensures Of(log.sent, c) <= Of(log'.sent, c) {
    }
    assert d.stamp.Some? ==> d.stamp.value in Of(log'.sent, chan);
    forall r, i | r in log'.inbox && 0 <= i < |log'.inbox[r]| ensures Stamped(log', r, log'.inbox[r][i]) {
      if i < |log.inbox[r]| {
        assert Stamped(log, r, log.inbox[r][i]);
      }
    }
    forall r, i, j | r in log'.inbox && 0 <= i < j < |log'.inbox[r]| && log'.inbox[r][i].stamp.Some?
      ensures log'.inbox[r][i].stamp != log'.inbox[r][j].stamp
    {
      assert Stamped(log, r, log.inbox[r][i]);
    }
  }

  lemma InboxStep(s: State, a: Action)
    requires Enabled(s, a) && RegistryInv(s) && DebounceInv(s)
    ensures InboxInv(Apply(s, a).log)
  {
    var pc := At(s.threads, a.t);
    if a.Send? {
      assert Pending(s.log, pc);
      InboxSend(s.log, ReceiversOf(s.bus.receivers, pc.chan), pc.chan, pc.delivery, Apply(s, a).log);
    } else {
      InboxOther(s, a);
    }
  }

  lemma InboxOther(s: State, a: Action)
    requires Enabled(s, a) && InboxInv(s.log) && !a.Send?
    ensures InboxInv(Apply(s, a).log)
  {
    var log' := Apply(s, a).log;
    assert log'.sent == s.log.sent;
    assert forall r | r in s.log.inbox ::
      r in log'.inbox && log'.inbox[r] == s.log.inbox[r] && log'.chanOf[r] == s.log.chanOf[r];
    assert forall r | r in log'.inbox && r !in s.log.inbox :: log'.inbox[r] == [];
    assert log'.inbox.Keys == log'.chanOf.Keys;
    hide Apply, Enabled, Of;
    forall r, i | r in log'.inbox && 0 <= i < |log'.inbox[r]| ensures Stamped(log', r, log'.inbox[r][i]) {
      assert Stamped(s.log, r, s.log.inbox[r][i]);
    }
  }

  lemma ReceiverChannelsStep(s: State, a: Action)
    requires Enabled(s, a) && RegistryInv(s) && ReceiverChannels(s.bus, s.log)
    ensures ReceiverChannels(Apply(s, a).bus, Apply(s, a).log)
  {
    hide Next;
  }

  lemma DebounceStep(s: State, a: Action)
    requires Enabled(s, a) && RegistryInv(s) && DebounceInv(s) && s.config.debounceMs > 0
    ensures DebounceInv(Apply(s, a))
  {
    GapStep(s, a);
    InboxStep(s, a);
    ReceiverChannelsStep(s, a);
    var pc := At(s.threads, a.t);
    if a.Send? {
      PendingSend(s, a);
    } else if a.Debounce? && !TooSoon(s.config, s.bus.lastScore, pc.board, pc.now) {
      PendingDebounce(s, a);
    } else {
      PendingOther(s, a);
    }
    hide Enabled, GapInv, PendingInv, InboxInv, ReceiverChannels, Next, BusAfter, LogAfter;
  }

  // ------------------------------------------------------------ all reachable states

  ghost predicate Inv(s: State) {
    CapInv(s) && RegistryInv(s) && (s.config.debounceMs > 0 ==> DebounceInv(s))
  }

  lemma NewInv(config: Config)
    ensures Inv(New(config))
  {
  }

  lemma InvStep(s: State, a: Action)
    requires Enabled(s, a) && Inv(s)
    ensures Inv(Apply(s, a))
  {
    CapStep(s, a);
    RegistryStep(s, a);
    if s.config.debounceMs > 0 {
      DebounceStep(s, a);
    }
    hide Enabled, CapInv, RegistryInv, DebounceInv, Next, BusAfter, LogAfter;
  }

  lemma {:induction false} InvRun(s: State, run: seq<Action>)
    requires Inv(s) && Legal(s, run)
    ensures Inv(Exec(s, run)) && Exec(s, run).config == s.config
    decreases |run|
  {
    if run != [] {
      InvStep(s, run[0]);
      assert Apply(s, run[0]).config == s.config;
      hide Inv, Enabled, Apply;
      InvRun(Apply(s, run[0]), run[1..]);
    }
  }

  /** Granted guards never exceed the cap, and the counter is guards plus attempts
      in flight: with none in flight it is the number of guards. */
  lemma ConnectionsAreCapped(config: Config, run: seq<Action>)
    requires Legal(New(config), run)
    ensures var s := Exec(New(config), run);
            && |Guards(s.threads)| <= config.maxConnections
            && s.bus.active == |Guards(s.threads)| + |InFlight(s.threads)|
            && (InFlight(s.threads) == {} ==> s.bus.active == |Guards(s.threads)|)
  {
    NewInv(config);
    InvRun(New(config), run);
    var s := Exec(New(config), run);
    SubsetCard(Guards(s.threads), GrantedTasks(s.threads));
    assert CountedTasks(s.threads) == Guards(s.threads) + InFlight(s.threads);
  }

  /** No live receiver is orphaned, and debounce entries belong to registered
      boards whenever no prune is half done. */
  lemma ReceiversAreAttached(config: Config, run: seq<Action>)
    requires Legal(New(config), run)
    ensures var s := Exec(New(config), run);
            && AttachedInv(s.bus)
            && (NoWriter(s.threads) ==> s.bus.lastScore.Keys <= s.bus.channels.Keys)
  {
    NewInv(config);
    InvRun(New(config), run);
    var s := Exec(New(config), run);
    forall b | NoWriter(s.threads) && b in s.bus.lastScore ensures b in s.bus.channels {
      assert forall t | t in s.threads :: !Writing(s.threads[t]);
    }
  }

  /** Whatever is sent to a board reaches every live receiver of the board, and
      only those. */
  lemma SendReachesBoard(config: Config, run: seq<Action>, t: Tid, r: RecvId)
    requires Legal(New(config), run) && Enabled(Exec(New(config), run), Send(t))
    requires r in Exec(New(config), run).log.inbox
    ensures var s := Exec(New(config), run);
            var pc := At(s.threads, t);
            Apply(s, Send(t)).log.inbox[r] ==
            if r in s.bus.receivers && s.bus.receivers[r].board == pc.board
            then s.log.inbox[r] + [pc.delivery] else s.log.inbox[r]
  {
    NewInv(config);
    InvRun(New(config), run);
    var s := Exec(New(config), run);
    var pc := At(s.threads, t);
    assert Reading(pc);
    if r in s.bus.receivers {
      assert s.bus.channels[s.bus.receivers[r].board] == s.bus.receivers[r].chan;
    }
  }

  /** A publisher that finds no channel has no one to send to. */
  lemma MissedPublishHasNoReceiver(config: Config, run: seq<Action>, board: Slug)
    requires Legal(New(config), run) && board !in Exec(New(config), run).bus.channels
    ensures forall r | r in Exec(New(config), run).bus.receivers ::
              Exec(New(config), run).bus.receivers[r].board != board
  {
    NewInv(config);
    InvRun(New(config), run);
  }

  /** Pruning removes only a channel without receivers. */
  lemma PruneSparesReceivers(config: Config, run: seq<Action>, a: Action)
    requires Legal(New(config), run) && Enabled(Exec(New(config), run), a)
    ensures var s := Exec(New(config), run);
            forall b | b in s.bus.channels && b !in Apply(s, a).bus.channels ::
              a.PruneChannel? && forall r | r in s.bus.receivers :: s.bus.receivers[r].board != b
  {
    NewInv(config);
    InvRun(New(config), run);
    var s := Exec(New(config), run);
    if a.PruneChannel? && Prunable(s.bus, At(s.threads, a.t).board) {
      var b := At(s.threads, a.t).board;
      forall r | r in s.bus.receivers ensures s.bus.receivers[r].board != b {
        assert r !in ReceiversOf(s.bus.receivers, s.bus.channels[b]);
      }
    }
    hide Next, LogAfter;
  }

  /** Any two score events that one receiver gets carry accepted times at least
      the debounce interval apart. */
  lemma ScoresAreDebounced(config: Config, run: seq<Action>, r: RecvId, i: nat, j: nat)
    requires Legal(New(config), run) && config.debounceMs > 0
    requires r in Exec(New(config), run).log.inbox
    requires i < j < |Exec(New(config), run).log.inbox[r]|
    requires Exec(New(config), run).log.inbox[r][i].event.ScoreUpdated?
    requires Exec(New(config), run).log.inbox[r][j].event.ScoreUpdated?
    ensures var x := Exec(New(config), run).log.inbox[r][i].stamp;
            var y := Exec(New(config), run).log.inbox[r][j].stamp;
            && x.Some? && y.Some?
            && (x.value + config.debounceMs * 1_000_000 <= y.value
                || y.value + config.debounceMs * 1_000_000 <= x.value)
  {
    NewInv(config);
    InvRun(New(config), run);
    var log := Exec(New(config), run).log;
    assert Stamped(log, r, log.inbox[r][i]) && Stamped(log, r, log.inbox[r][j]);
    var c := log.chanOf[r];
    assert Of(log.sent, c) <= Of(log.accepted, c) && Spaced(Of(log.accepted, c), Gap(config));
  }
}
