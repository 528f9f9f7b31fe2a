/** `EventBus` and `ConnectionGuard` of `sse.rs`. Every atomic operation and every
    critical section is one method, proved to be the machine's step, so whatever
    order any number of callers take them in, the StreamTheorems hold. Below them,
    the public methods run those steps in the source's order. */
module EventBusClass {
  import opened Core
  import opened StreamModel
  import opened StreamTheorems

  /** No other caller is inside a section of the channels lock. */
  predicate Alone(threads: map<Tid, Pc>, t: Tid) {
    forall u | u in threads && u != t :: !Writing(threads[u]) && !Reading(threads[u])
  }

  lemma AloneAfter(threads: map<Tid, Pc>, t: Tid, pc: Pc)
    ensures Alone(threads[t := pc], t) == Alone(threads, t)
    ensures Alone(threads, t) && !Reading(At(threads, t)) && !Writing(At(threads, t)) ==> NoLock(threads)
    ensures NoLock(threads) ==> Alone(threads, t)
    ensures Alone(threads, t) && !Writing(At(threads, t)) ==> NoWriter(threads)
  {
    var after := threads[t := pc];
    forall u | u in threads && u != t ensures after[u] == threads[u] {
    }
    if Alone(after, t) {
      forall u | u in threads && u != t ensures !Writing(threads[u]) && !Reading(threads[u]) {
        assert u in after;
      }
    }
  }

  /** Every live receiver of the board got the event, once; nobody else got anything. */
  ghost predicate Published(
    before: map<RecvId, seq<Delivery>>, after: map<RecvId, seq<Delivery>>,
    receivers: map<RecvId, Receiver>, board: Slug, d: Delivery)
  {
    && after.Keys == before.Keys && receivers.Keys <= before.Keys
    && forall r | r in before ::
         after[r] == if r in receivers && receivers[r].board == board then before[r] + [d] else before[r]
  }

  /** A publisher about to send holds the registered sender of its board, so its
      broadcast reaches the board's receivers. */
  lemma Reached(s: State, t: Tid)
    requires Inv(s) && At(s.threads, t).Sending?
    ensures var pc := At(s.threads, t);
            && pc.board in s.bus.channels && s.bus.channels[pc.board] == pc.chan
            && Published(s.log.inbox, Broadcast(s.log.inbox, ReceiversOf(s.bus.receivers, pc.chan), pc.delivery),
                         s.bus.receivers, pc.board, pc.delivery)
  {
    hide CapInv, DebounceInv;
    assert Reading(s.threads[t]);
  }

  /** Without a channel there is no receiver to reach. */
  lemma NobodyReached(s: State, board: Slug, d: Delivery)
    requires Inv(s) && board !in s.bus.channels
    ensures Published(s.log.inbox, s.log.inbox, s.bus.receivers, board, d)
  {
    hide CapInv, DebounceInv;
  }

  /** No live receiver is subscribed to the board. */
  predicate NobodyListens(receivers: map<RecvId, Receiver>, board: Slug) {
    forall r | r in receivers :: receivers[r].board != board
  }

  /** A channel goes exactly when its board has no receiver. */
  lemma PrunedIfNobodyListens(s: State, board: Slug)
    requires Inv(s)
    ensures Prunable(s.bus, board) <==> board in s.bus.channels && NobodyListens(s.bus.receivers, board)
  {
    hide CapInv, DebounceInv;
    if board in s.bus.channels {
      forall r | r in s.bus.receivers
        ensures s.bus.receivers[r].chan == s.bus.channels[board] <==> s.bus.receivers[r].board == board
      {
      }
      if Prunable(s.bus, board) {
        forall r | r in s.bus.receivers ensures s.bus.receivers[r].board != board {
          assert r !in ReceiversOf(s.bus.receivers, s.bus.channels[board]);
        }
      }
    }
  }

  /** The debounce window in nanoseconds: whole milliseconds, so exactly this long. */
  lemma WindowIs(config: Config, lastScore: map<Slug, nat>, board: Slug, now: nat)
    requires config.debounceMs > 0
    ensures TooSoon(config, lastScore, board, now)
            <==> board in lastScore && now < lastScore[board] + config.debounceMs * 1_000_000
  {
  }

  class EventBus {
    const config: Config
    var channels: map<Slug, ChanId>
    var activeConnections: nat
    var lastScoreEvent: map<Slug, nat>
    // the receivers behind tokio's receiver_count, and the clock
    var receivers: map<RecvId, Receiver>
    var clock: nat
    ghost var log: Log
    ghost var threads: map<Tid, Pc>

    ghost function View(): State
      reads this
    {
      State(config, Bus(channels, activeConnections, lastScoreEvent, receivers, clock), log, threads)
    }

    constructor (config: Config)
      ensures View() == New(config) && Inv(View())
    {
      this.config := config;
      channels, activeConnections, lastScoreEvent := map[], 0, map[];
      receivers, clock := map[], 0;
      log, threads := Log(map[], map[], map[], map[]), map[];
      new;
      NewInv(config);
    }

    // ------------------------------------------------------------- subscribe

    /** active_connections.fetch_add(1), and the test of the value it returned. */
    method Reserve(ghost t: Tid, board: Slug) returns (granted: bool)
      requires Inv(View()) && Enabled(View(), FetchAdd(t, board))
      modifies this
      ensures View() == Apply(old(View()), FetchAdd(t, board)) && Inv(View())
      ensures granted == (old(activeConnections) < config.maxConnections)
      ensures At(threads, t) == if granted then Admitted(board) else Rejected
    {
      hide Inv;
      InvStep(View(), FetchAdd(t, board));
      var prev := activeConnections;
      activeConnections := activeConnections + 1;
      granted := prev < config.maxConnections;
      threads := threads[t := if granted then Admitted(board) else Rejected];
    }

    /** The undo: active_connections.fetch_sub(1). */
    method Unreserve(ghost t: Tid)
      requires Inv(View()) && Enabled(View(), Undo(t))
      modifies this
      ensures View() == Apply(old(View()), Undo(t)) && Inv(View())
    {
      hide Inv;
      InvStep(View(), Undo(t));
      activeConnections := activeConnections - 1;
      threads := threads[t := Idle];
    }

    /** channels.write(): entry(board).or_insert_with(channel), then subscribe. */
    method Join(ghost t: Tid, board: Slug, newChan: ChanId, newRecv: RecvId)
      requires Inv(View()) && Enabled(View(), Attach(t, newChan, newRecv)) && At(threads, t) == Admitted(board)
      modifies this
      ensures View() == Apply(old(View()), Attach(t, newChan, newRecv)) && Inv(View())
    {
      hide Inv;
      InvStep(View(), Attach(t, newChan, newRecv));
      ghost var known := board in channels;
      if board !in channels {
        channels := channels[board := newChan];
      }
      receivers := receivers[newRecv := Receiver(board, channels[board])];
      log := log.(inbox := log.inbox[newRecv := []],
                  chanOf := log.chanOf[newRecv := channels[board]],
                  accepted := if known then log.accepted else log.accepted[newChan := {}]);
      threads := threads[t := Attached(newRecv)];
    }

    method HoldGuard(ghost t: Tid)
      requires Inv(View()) && Enabled(View(), MakeGuard(t))
      modifies this
      ensures View() == Apply(old(View()), MakeGuard(t)) && Inv(View())
    {
      hide Inv;
      InvStep(View(), MakeGuard(t));
      threads := threads[t := Connected(threads[t].recv)];
    }

    /** The stream drops its receiver. */
    method CloseReceiver(ghost t: Tid, recv: RecvId)
      requires Inv(View()) && Enabled(View(), DropReceiver(t)) && At(threads, t).recv == recv
      modifies this
      ensures View() == Apply(old(View()), DropReceiver(t)) && Inv(View())
    {
      hide Inv;
      InvStep(View(), DropReceiver(t));
      receivers := receivers - {recv};
      threads := threads[t := if threads[t].Connected? then GuardOnly else Idle];
    }

    /** ConnectionGuard::drop. */
    method ReleaseGuard(ghost t: Tid)
      requires Inv(View()) && Enabled(View(), DropGuard(t))
      modifies this
      ensures View() == Apply(old(View()), DropGuard(t)) && Inv(View())
    {
      hide Inv;
      InvStep(View(), DropGuard(t));
      activeConnections := activeConnections - 1;
      threads := threads[t := if threads[t].Connected? then ReceiverOnly(threads[t].recv) else Idle];
    }

    /** subscribe, with nothing in between its steps. */
    method Subscribe(ghost t: Tid, board: Slug, newChan: ChanId, newRecv: RecvId) returns (r: Result<RecvId>)
      requires Inv(View()) && At(threads, t) == Idle && NoLock(threads)
      requires newChan !in log.accepted && newRecv !in log.inbox
      modifies this
      ensures Inv(View())
      ensures r.Success? <==> old(activeConnections) < config.maxConnections
      ensures r.Failure? ==> r.error == ServiceUnavailable && View() == old(View()).(threads := threads)
                             && threads == old(threads)[t := Idle]
      ensures r.Success? ==>
                && r.value == newRecv && activeConnections == old(activeConnections) + 1
                && channels == old(channels)[board := if board in old(channels) then old(channels)[board] else newChan]
                && receivers == old(receivers)[newRecv := Receiver(board, channels[board])]
                && lastScoreEvent == old(lastScoreEvent) && threads == old(threads)[t := Connected(newRecv)]
    {
      hide Inv;
      var granted := Reserve(t, board);
      if !granted {
        Unreserve(t);
        return Failure(ServiceUnavailable);
      }
      Attend(t, board, newChan, newRecv);
      return Success(newRecv);
    }

    /** The receiver and the guard of an admitted caller. */
    method Attend(ghost t: Tid, board: Slug, newChan: ChanId, newRecv: RecvId)
      requires Inv(View()) && Enabled(View(), Attach(t, newChan, newRecv)) && At(threads, t) == Admitted(board)
      modifies this
      ensures Inv(View())
      ensures channels == old(channels)[board := if board in old(channels) then old(channels)[board] else newChan]
      ensures receivers == old(receivers)[newRecv := Receiver(board, channels[board])]
      ensures activeConnections == old(activeConnections) && lastScoreEvent == old(lastScoreEvent)
      ensures threads == old(threads)[t := Connected(newRecv)]
    {
      hide Inv;
      Join(t, board, newChan, newRecv);
      HoldGuard(t);
    }

    // --------------------------------------------------------------- publish

    ghost method Begin(t: Tid, board: Slug, event: Event)
      requires Inv(View()) && Enabled(View(), StartPublish(t, board, event))
      modifies this`threads
      ensures View() == Apply(old(View()), StartPublish(t, board, event)) && Inv(View())
      ensures At(threads, t) == WantRead(board, event) && Alone(threads, t) == old(Alone(threads, t))
    {
      hide Inv;
      AloneAfter(threads, t, Next(config, View().bus, At(threads, t), StartPublish(t, board, event)));
      InvStep(View(), StartPublish(t, board, event));
      threads := threads[t := WantRead(board, event)];
    }

    /** channels.read() and get(board). */
    method Find(ghost t: Tid, board: Slug, event: Event) returns (tx: Option<ChanId>)
      requires Inv(View()) && Enabled(View(), LookUp(t)) && At(threads, t) == WantRead(board, event)
      modifies this`threads
      ensures View() == Apply(old(View()), LookUp(t)) && Inv(View())
      ensures tx == if board in channels then Some(channels[board]) else None
      ensures Alone(threads, t) == old(Alone(threads, t))
      ensures At(threads, t) ==
              if tx.None? then Idle
              else if event.ScoreUpdated? && config.debounceMs > 0 then Found(board, tx.value, event)
              else Sending(board, tx.value, Delivery(event, None))
    {
      hide Inv;
      AloneAfter(threads, t, Next(config, View().bus, At(threads, t), LookUp(t)));
      InvStep(View(), LookUp(t));
      ghost var pc := Next(config, View().bus, threads[t], LookUp(t));
      tx := if board in channels then Some(channels[board]) else None;
      threads := threads[t := pc];
    }

    /** Instant::now(), before the debounce lock. */
    method Now(ghost t: Tid) returns (now: nat)
      requires Inv(View()) && Enabled(View(), ReadClock(t))
      modifies this`threads
      ensures View() == Apply(old(View()), ReadClock(t)) && Inv(View())
      ensures now == clock && Alone(threads, t) == old(Alone(threads, t))
      ensures var pc := old(At(threads, t)); At(threads, t) == Timed(pc.board, pc.chan, pc.event, now)
    {
      hide Inv;
      AloneAfter(threads, t, Next(config, View().bus, At(threads, t), ReadClock(t)));
      InvStep(View(), ReadClock(t));
      now := clock;
      threads := threads[t := Timed(threads[t].board, threads[t].chan, threads[t].event, now)];
    }

    /** last_score_event.write(): compare with the last time, then insert. */
    method Accept(ghost t: Tid, board: Slug, now: nat) returns (accepted: bool)
      requires Inv(View()) && Enabled(View(), Debounce(t))
      requires At(threads, t).board == board && At(threads, t).now == now
      modifies this`lastScoreEvent, this`log, this`threads
      ensures View() == Apply(old(View()), Debounce(t)) && Inv(View())
      ensures accepted == !TooSoon(config, old(lastScoreEvent), board, now)
      ensures Alone(threads, t) == old(Alone(threads, t))
      ensures !accepted ==> lastScoreEvent == old(lastScoreEvent) && log == old(log) && At(threads, t) == Idle
      ensures accepted ==>
                && lastScoreEvent == old(lastScoreEvent)[board := now] && log.inbox == old(log).inbox
                && var pc := old(At(threads, t));
                   At(threads, t) == Sending(board, pc.chan, Delivery(pc.event, Some(now)))
    {
      hide Inv;
      AloneAfter(threads, t, Next(config, View().bus, At(threads, t), Debounce(t)));
      InvStep(View(), Debounce(t));
      ghost var pc := threads[t];
      if board in lastScoreEvent && MillisSince(now, lastScoreEvent[board]) < config.debounceMs {
        threads := threads[t := Idle];
        return false;
      }
      lastScoreEvent := lastScoreEvent[board := now];
      log := log.(accepted := log.accepted[pc.chan := Of(log.accepted, pc.chan) + {now}]);
      threads := threads[t := Sending(board, pc.chan, Delivery(pc.event, Some(now)))];
      return true;
    }

    /** tx.send(event). */
    ghost method Deliver(t: Tid)
      requires Inv(View()) && Enabled(View(), Send(t))
      modifies this`log, this`threads
      ensures View() == Apply(old(View()), Send(t)) && Inv(View())
      ensures Alone(threads, t) == old(Alone(threads, t))
      ensures var pc := old(At(threads, t));
              && At(threads, t) == Sent(pc.board, pc.chan)
              && pc.board in channels && channels[pc.board] == pc.chan
              && Published(old(log).inbox, log.inbox, receivers, pc.board, pc.delivery)
    {
      Reached(View(), t);
      hide Inv, Published;
      AloneAfter(threads, t, Next(config, View().bus, At(threads, t), Send(t)));
      InvStep(View(), Send(t));
      var pc := threads[t];
      var d := pc.delivery;
      log := log.(inbox := Broadcast(log.inbox, ReceiversOf(receivers, pc.chan), d),
                  sent := if d.stamp.Some? then log.sent[pc.chan := Of(log.sent, pc.chan) + {d.stamp.value}]
                          else log.sent);
      threads := threads[t := Sent(pc.board, pc.chan)];
    }

    /** tx.receiver_count() == 0, and the end of the read section. */
    method IsDeserted(ghost t: Tid, chan: ChanId) returns (deserted: bool)
      requires Inv(View()) && Enabled(View(), CountReceivers(t)) && At(threads, t).chan == chan
      modifies this`threads
      ensures View() == Apply(old(View()), CountReceivers(t)) && Inv(View())
      ensures deserted == (ReceiversOf(receivers, chan) == {})
      ensures Alone(threads, t) == old(Alone(threads, t))
      ensures At(threads, t) == if deserted then WantPrune(old(At(threads, t)).board) else Idle
    {
      hide Inv;
      AloneAfter(threads, t, Next(config, View().bus, At(threads, t), CountReceivers(t)));
      InvStep(View(), CountReceivers(t));
      deserted := ReceiversOf(receivers, chan) == {};
      threads := threads[t := if deserted then WantPrune(threads[t].board) else Idle];
    }

    /** prune_channel: channels.write(), re-check, remove; then the debounce entry. */
    method Prune(ghost t: Tid, board: Slug)
      requires Inv(View()) && Enabled(View(), PruneChannel(t)) && At(threads, t) == WantPrune(board)
      modifies this
      ensures Inv(View())
      ensures var gone := board in old(channels) && NobodyListens(old(receivers), board);
              && channels == (if gone then old(channels) - {board} else old(channels))
              && lastScoreEvent == (if gone then old(lastScoreEvent) - {board} else old(lastScoreEvent))
      ensures At(threads, t) == Idle && Alone(threads, t) == old(Alone(threads, t)) && log == old(log)
      ensures activeConnections == old(activeConnections) && receivers == old(receivers) && clock == old(clock)
    {
      hide Inv, NobodyListens;
      PrunedIfNobodyListens(View(), board);
      AloneAfter(threads, t, Idle);
      InvStep(View(), PruneChannel(t));
      if board in channels && ReceiversOf(receivers, channels[board]) == {} {
        channels := channels - {board};
        threads := threads[t := Pruning(board)];
        assert View() == Apply(old(View()), PruneChannel(t));
        InvStep(View(), PruneDebounce(t));
        lastScoreEvent := lastScoreEvent - {board};
      }
      threads := threads[t := Idle];
    }

    /** tx.send and tx.receiver_count(), with nothing in between. */
    method SendAndCount(ghost t: Tid, board: Slug, chan: ChanId, ghost d: Delivery) returns (deserted: bool)
      requires Inv(View()) && Alone(threads, t) && At(threads, t) == Sending(board, chan, d)
      modifies this`log, this`threads
      ensures Inv(View()) && Alone(threads, t)
      ensures At(threads, t) == if deserted then WantPrune(board) else Idle
      ensures deserted == Prunable(View().bus, board)
      ensures Published(old(log).inbox, log.inbox, receivers, board, d)
    {
      hide Inv, Alone, NoLock, NoWriter, Apply, Published, ReceiversOf;
      Deliver(t);
      deserted := IsDeserted(t, chan);
    }

    /** The common end of both publishers: send, count, prune. */
    method Finish(ghost t: Tid, board: Slug, chan: ChanId, ghost d: Delivery)
      requires Inv(View()) && Alone(threads, t) && At(threads, t) == Sending(board, chan, d)
      modifies this
      ensures Inv(View()) && At(threads, t) == Idle && Alone(threads, t)
      ensures Published(old(log).inbox, log.inbox, receivers, board, d)
      ensures var gone := board in old(channels) && NobodyListens(old(receivers), board);
              && channels == (if gone then old(channels) - {board} else old(channels))
              && lastScoreEvent == (if gone then old(lastScoreEvent) - {board} else old(lastScoreEvent))
      ensures receivers == old(receivers) && activeConnections == old(activeConnections) && clock == old(clock)
    {
      hide Inv, Alone, NoLock, NoWriter, Published, Prunable, NobodyListens;
      PrunedIfNobodyListens(View(), board);
      var deserted := SendAndCount(t, board, chan, d);
      AloneAfter(threads, t, Idle);
      if deserted {
        Prune(t, board);
      }
    }

    /** The common start: the read lock and the board's channel. */
    method Open(ghost t: Tid, board: Slug, event: Event) returns (tx: Option<ChanId>)
      requires Inv(View()) && At(threads, t) == Idle && NoLock(threads)
      modifies this`threads
      ensures Inv(View()) && Alone(threads, t)
      ensures tx == if board in channels then Some(channels[board]) else None
      ensures At(threads, t) ==
              if tx.None? then Idle
              else if event.ScoreUpdated? && config.debounceMs > 0 then Found(board, tx.value, event)
              else Sending(board, tx.value, Delivery(event, None))
    {
      hide Inv, Alone, NoLock, NoWriter, Apply, Next, BusAfter, LogAfter;
      AloneAfter(threads, t, Idle);
      Begin(t, board, event);
      AloneAfter(threads, t, Idle);
      tx := Find(t, board, event);
    }

    /** publish_version, with nothing in between its steps: never debounced. */
    method PublishVersion(ghost t: Tid, board: Slug, number: int, note: Option<string>)
      requires Inv(View()) && At(threads, t) == Idle && NoLock(threads)
      modifies this
      ensures Inv(View()) && At(threads, t) == Idle && Alone(threads, t)
      ensures Published(old(log).inbox, log.inbox, receivers, board, Delivery(VersionCreated(number, note), None))
      ensures var gone := board in old(channels) && NobodyListens(old(receivers), board);
              && channels == (if gone then old(channels) - {board} else old(channels))
              && lastScoreEvent == (if gone then old(lastScoreEvent) - {board} else old(lastScoreEvent))
      ensures receivers == old(receivers) && activeConnections == old(activeConnections)
    {
      var event := VersionCreated(number, note);
      if board !in channels {
        NobodyReached(View(), board, Delivery(event, None));
      }
      hide Inv, Alone, NoLock, NoWriter, Published, NobodyListens;
      var tx := Open(t, board, event);
      if tx.Some? {
        Finish(t, board, tx.value, Delivery(event, None));
      }
    }

    /** publish_score, with nothing in between its steps: false exactly when the
        board has a channel and the event comes too soon after the last one. */
    method PublishScore(ghost t: Tid, board: Slug, slug: Slug, name: string, score: Float64) returns (sent: bool)
      requires Inv(View()) && At(threads, t) == Idle && NoLock(threads)
      modifies this
      ensures Inv(View()) && At(threads, t) == Idle && Alone(threads, t)
      ensures !sent <==>
                && board in old(channels) && config.debounceMs > 0 && board in old(lastScoreEvent)
                && old(clock) < old(lastScoreEvent)[board] + config.debounceMs * 1_000_000
      ensures !sent ==> channels == old(channels) && lastScoreEvent == old(lastScoreEvent) && log == old(log)
      ensures sent ==>
                Published(old(log).inbox, log.inbox, receivers, board,
                          Delivery(ScoreUpdated(slug, name, score),
                                   if config.debounceMs > 0 then Some(old(clock)) else None))
      ensures sent ==>
                var gone := board in old(channels) && NobodyListens(old(receivers), board);
                && channels == (if gone then old(channels) - {board} else old(channels))
                && lastScoreEvent ==
                   (if gone then old(lastScoreEvent) - {board}
                    else if board in old(channels) && config.debounceMs > 0
                    then old(lastScoreEvent)[board := old(clock)] else old(lastScoreEvent))
      ensures receivers == old(receivers) && activeConnections == old(activeConnections)
    {
      var event := ScoreUpdated(slug, name, score);
      ghost var d := Delivery(event, if config.debounceMs > 0 then Some(clock) else None);
      if board !in channels {
        NobodyReached(View(), board, d);
      }
      hide Inv, Alone, NoLock, NoWriter, Published, NobodyListens;
      var tx := Open(t, board, event);
      if tx.None? {
        return true;
      }
      sent := PublishFound(t, board, tx.value, event, d);
    }

    /** publish_score on a board that has a channel. */
    method PublishFound(ghost t: Tid, board: Slug, chan: ChanId, event: Event, ghost d: Delivery)
      returns (sent: bool)
      requires Inv(View()) && Alone(threads, t) && board in channels
      requires d == Delivery(event, if config.debounceMs > 0 then Some(clock) else None)
      requires At(threads, t) == if config.debounceMs > 0 then Found(board, chan, event) else Sending(board, chan, d)
      modifies this
      ensures Inv(View()) && At(threads, t) == Idle && Alone(threads, t)
      ensures !sent <==>
                && config.debounceMs > 0 && board in old(lastScoreEvent)
                && old(clock) < old(lastScoreEvent)[board] + config.debounceMs * 1_000_000
      ensures !sent ==> channels == old(channels) && lastScoreEvent == old(lastScoreEvent) && log == old(log)
      ensures sent ==>
                && Published(old(log).inbox, log.inbox, receivers, board, d)
                && channels == (if NobodyListens(old(receivers), board) then old(channels) - {board} else old(channels))
                && lastScoreEvent ==
                   (if NobodyListens(old(receivers), board) then old(lastScoreEvent) - {board}
                    else if config.debounceMs > 0 then old(lastScoreEvent)[board := old(clock)]
                    else old(lastScoreEvent))
      ensures receivers == old(receivers) && activeConnections == old(activeConnections)
    {
      hide Inv, Alone, NoLock, NoWriter, Published, TooSoon, NobodyListens;
      if config.debounceMs > 0 {
        WindowIs(config, lastScoreEvent, board, clock);
        sent := Admit(t, board, chan, event);
        if !sent {
          return;
        }
        assert old(lastScoreEvent)[board := clock] - {board} == old(lastScoreEvent) - {board};
      }
      Finish(t, board, chan, d);
      return true;
    }

    /** The debounce check of publish_score. */
    method Admit(ghost t: Tid, board: Slug, chan: ChanId, event: Event) returns (accepted: bool)
      requires Inv(View()) && Alone(threads, t) && At(threads, t) == Found(board, chan, event)
      modifies this`lastScoreEvent, this`log, this`threads
      ensures Inv(View())
      ensures accepted == !TooSoon(config, old(lastScoreEvent), board, clock)
      ensures Alone(threads, t)
      ensures !accepted ==> lastScoreEvent == old(lastScoreEvent) && log == old(log) && At(threads, t) == Idle
      ensures accepted ==>
                && lastScoreEvent == old(lastScoreEvent)[board := clock] && log.inbox == old(log).inbox
                && At(threads, t) == Sending(board, chan, Delivery(event, Some(clock)))
    {
      hide Inv, Alone, Apply, Next, BusAfter, LogAfter, TooSoon;
      var now := Now(t);
      accepted := Accept(t, board, now);
    }
  }
}
