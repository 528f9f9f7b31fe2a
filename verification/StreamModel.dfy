/** The EventBus as a machine: each step is one atomic operation or one critical
    section of `sse.rs`, taken by any of any number of callers. */
module StreamModel {
  import opened Core

  type Tid = nat
  type ChanId = nat
  type RecvId = nat

  datatype Event =
    | VersionCreated(number: int, note: Option<string>)
    | ScoreUpdated(slug: Slug, name: string, score: Float64)

  /** An event as a receiver gets it; a debounced one with its accepted time. */
  datatype Delivery = Delivery(event: Event, stamp: Option<nat>)

  datatype Receiver = Receiver(board: Slug, chan: ChanId)

  /** Time is in nanoseconds; `debounceMs` of 0 switches debouncing off. */
  datatype Config = Config(maxConnections: nat, debounceMs: nat)

  const NANOS_PER_MILLI: nat := 1_000_000

  /** The fields of EventBus, the receivers that are alive, and the clock. */
  datatype Bus = Bus(
    channels: map<Slug, ChanId>,
    active: nat,
    lastScore: map<Slug, nat>,
    receivers: map<RecvId, Receiver>,
    clock: nat)

  /** History: what was sent to each receiver (an upper bound of what a lagging
      one reads), its channel, and per channel the times accepted and sent. */
  datatype Log = Log(
    inbox: map<RecvId, seq<Delivery>>,
    chanOf: map<RecvId, ChanId>,
    accepted: map<ChanId, set<nat>>,
    sent: map<ChanId, set<nat>>)

  datatype Pc =
    | Idle
    // subscribe and the life of a connection
    | Rejected
    | Admitted(board: Slug)
    | Attached(recv: RecvId)
    | Connected(recv: RecvId)
    | GuardOnly
    | ReceiverOnly(recv: RecvId)
    // publish_version and publish_score
    | WantRead(board: Slug, event: Event)
    | Found(board: Slug, chan: ChanId, event: Event)
    | Timed(board: Slug, chan: ChanId, event: Event, now: nat)
    | Sending(board: Slug, chan: ChanId, delivery: Delivery)
    | Sent(board: Slug, chan: ChanId)
    | WantPrune(board: Slug)
    | Pruning(board: Slug)

  datatype State = State(config: Config, bus: Bus, log: Log, threads: map<Tid, Pc>)

  datatype Action =
    | FetchAdd(t: Tid, board: Slug)
    | Undo(t: Tid)
    | Attach(t: Tid, newChan: ChanId, newRecv: RecvId)
    | MakeGuard(t: Tid)
    | DropReceiver(t: Tid)
    | DropGuard(t: Tid)
    | StartPublish(t: Tid, board: Slug, event: Event)
    | LookUp(t: Tid)
    | ReadClock(t: Tid)
    | Debounce(t: Tid)
    | Send(t: Tid)
    | CountReceivers(t: Tid)
    | PruneChannel(t: Tid)
    | PruneDebounce(t: Tid)
    | Tick(t: Tid, now: nat)

  function At(threads: map<Tid, Pc>, t: Tid): Pc {
    if t in threads then threads[t] else Idle
  }

  // ------------------------------------------------------------------ locks

  /** Inside a read section of `channels`. */
  predicate Reading(pc: Pc) {
    pc.Found? || pc.Timed? || pc.Sending? || pc.Sent?
  }

  /** Inside a write section of `channels` that takes more than one step. */
  predicate Writing(pc: Pc) {
    pc.Pruning?
  }

  predicate NoWriter(threads: map<Tid, Pc>) {
    forall t | t in threads :: !Writing(threads[t])
  }

  predicate NoLock(threads: map<Tid, Pc>) {
    forall t | t in threads :: !Writing(threads[t]) && !Reading(threads[t])
  }

  // ------------------------------------------------------------------ steps

  function ReceiversOf(receivers: map<RecvId, Receiver>, chan: ChanId): set<RecvId> {
    set r | r in receivers && receivers[r].chan == chan
  }

  /** `duration_since` saturates at zero; `as_millis` truncates. */
  function MillisSince(now: nat, last: nat): nat {
    if now < last then 0 else (now - last) / NANOS_PER_MILLI
  }

  predicate TooSoon(config: Config, lastScore: map<Slug, nat>, board: Slug, now: nat) {
    board in lastScore && MillisSince(now, lastScore[board]) < config.debounceMs
  }

  predicate PcReady(pc: Pc, a: Action) {
    match a
    case FetchAdd(_, _) => pc.Idle?
    case Undo(_) => pc.Rejected?
    case Attach(_, _, _) => pc.Admitted?
    case MakeGuard(_) => pc.Attached?
    case DropReceiver(_) => pc.Connected? || pc.ReceiverOnly?
    case DropGuard(_) => pc.Connected? || pc.GuardOnly?
    case StartPublish(_, _, _) => pc.Idle?
    case LookUp(_) => pc.WantRead?
    case ReadClock(_) => pc.Found?
    case Debounce(_) => pc.Timed?
    case Send(_) => pc.Sending?
    case CountReceivers(_) => pc.Sent?
    case PruneChannel(_) => pc.WantPrune?
    case PruneDebounce(_) => pc.Pruning?
    case Tick(_, _) => pc.Idle?
  }

  predicate Ready(s: State, a: Action) {
    match a
    case Attach(_, newChan, newRecv) =>
      NoLock(s.threads) && newChan !in s.log.accepted && newRecv !in s.log.inbox
    case Undo(_) => s.bus.active > 0
    case DropGuard(_) => s.bus.active > 0
    case LookUp(_) => NoWriter(s.threads)
    case PruneChannel(_) => NoLock(s.threads)
    case Tick(_, now) => s.bus.clock <= now
    case _ => true
  }

  predicate Enabled(s: State, a: Action) {
    PcReady(At(s.threads, a.t), a) && Ready(s, a)
  }

  /** Where the caller stands after the step. */
  function Next(config: Config, bus: Bus, pc: Pc, a: Action): Pc
    requires PcReady(pc, a)
  {
    match a
    case FetchAdd(t, board) => if bus.active >= config.maxConnections then Rejected else Admitted(board)
    case Undo(t) => Idle
    case Attach(t, newChan, newRecv) => Attached(newRecv)
    case MakeGuard(t) => Connected(pc.recv)
    case DropReceiver(t) => if pc.Connected? then GuardOnly else Idle
    case DropGuard(t) => if pc.Connected? then ReceiverOnly(pc.recv) else Idle
    case StartPublish(t, board, event) => WantRead(board, event)
    case LookUp(t) =>
      if pc.board !in bus.channels then Idle
      else if pc.event.ScoreUpdated? && config.debounceMs > 0
      then Found(pc.board, bus.channels[pc.board], pc.event)
      else Sending(pc.board, bus.channels[pc.board], Delivery(pc.event, None))
    case ReadClock(t) => Timed(pc.board, pc.chan, pc.event, bus.clock)
    case Debounce(t) =>
      if TooSoon(config, bus.lastScore, pc.board, pc.now) then Idle
      else Sending(pc.board, pc.chan, Delivery(pc.event, Some(pc.now)))
    case Send(t) => Sent(pc.board, pc.chan)
    case CountReceivers(t) =>
      if ReceiversOf(bus.receivers, pc.chan) == {} then WantPrune(pc.board) else Idle
    case PruneChannel(t) => if Prunable(bus, pc.board) then Pruning(pc.board) else Idle
    case PruneDebounce(t) => Idle
    case Tick(t, now) => Idle
  }

  predicate Prunable(bus: Bus, board: Slug) {
    board in bus.channels && ReceiversOf(bus.receivers, bus.channels[board]) == {}
  }

  function BusAfter(config: Config, bus: Bus, pc: Pc, a: Action): Bus
    requires PcReady(pc, a)
    requires a.Undo? || a.DropGuard? ==> bus.active > 0
  {
    match a
    case FetchAdd(t, board) => bus.(active := bus.active + 1)
    case Undo(t) => bus.(active := bus.active - 1)
    case Attach(t, newChan, newRecv) =>
      var chan := if pc.board in bus.channels then bus.channels[pc.board] else newChan;
      bus.(channels := bus.channels[pc.board := chan],
           receivers := bus.receivers[newRecv := Receiver(pc.board, chan)])
    case DropReceiver(t) => bus.(receivers := bus.receivers - {pc.recv})
    case DropGuard(t) => bus.(active := bus.active - 1)
    case Debounce(t) =>
      if TooSoon(config, bus.lastScore, pc.board, pc.now) then bus
      else bus.(lastScore := bus.lastScore[pc.board := pc.now])
    case PruneChannel(t) =>
      if Prunable(bus, pc.board) then bus.(channels := bus.channels - {pc.board}) else bus
    case PruneDebounce(t) => bus.(lastScore := bus.lastScore - {pc.board})
    case Tick(t, now) => bus.(clock := now)
    case _ => bus
  }

  function LogAfter(config: Config, bus: Bus, log: Log, pc: Pc, a: Action): Log
    requires PcReady(pc, a)
  {
    match a
    case Attach(t, newChan, newRecv) =>
      var known := pc.board in bus.channels;
      log.(inbox := log.inbox[newRecv := []],
           chanOf := log.chanOf[newRecv := if known then bus.channels[pc.board] else newChan],
           accepted := if known then log.accepted else log.accepted[newChan := {}])
    case Debounce(t) =>
      if TooSoon(config, bus.lastScore, pc.board, pc.now) then log
      else log.(accepted := log.accepted[pc.chan := Of(log.accepted, pc.chan) + {pc.now}])
    case Send(t) =>
      log.(inbox := Broadcast(log.inbox, ReceiversOf(bus.receivers, pc.chan), pc.delivery),
           sent := if pc.delivery.stamp.Some?
                   then log.sent[pc.chan := Of(log.sent, pc.chan) + {pc.delivery.stamp.value}] else log.sent)
    case _ => log
  }

  function Of(m: map<ChanId, set<nat>>, chan: ChanId): set<nat> {
    if chan in m then m[chan] else {}
  }

  /** tx.send: every live receiver of the channel gets the event. */
  function Broadcast(inbox: map<RecvId, seq<Delivery>>, to: set<RecvId>, d: Delivery)
    : map<RecvId, seq<Delivery>>
  {
    map r | r in inbox :: if r in to then inbox[r] + [d] else inbox[r]
  }

  function Apply(s: State, a: Action): State
    requires Enabled(s, a)
  {
    var pc := At(s.threads, a.t);
    State(s.config,
          BusAfter(s.config, s.bus, pc, a),
          LogAfter(s.config, s.bus, s.log, pc, a),
          s.threads[a.t := Next(s.config, s.bus, pc, a)])
  }

  // ------------------------------------------------------------------- runs

  predicate Legal(s: State, run: seq<Action>)
    decreases |run|
  {
    run == [] || (Enabled(s, run[0]) && Legal(Apply(s, run[0]), run[1..]))
  }

  function Exec(s: State, run: seq<Action>): State
    requires Legal(s, run)
    decreases |run|
  {
    if run == [] then s else Exec(Apply(s, run[0]), run[1..])
  }

  /** `EventBus::new`. */
  function New(config: Config): State {
    State(config, Bus(map[], 0, map[], map[], 0), Log(map[], map[], map[], map[]), map[])
  }
}
