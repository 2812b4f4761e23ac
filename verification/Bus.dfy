/** The message bus as a step system: publishes in flight, subscribers with queues and duplicate filters. */
module Bus {
  import opened Json
  import opened Dedupe
  import Frame

  type SubId = nat
  type PubId = nat

  const DROP_TOPIC := "rlp/sys/drops"
  const ACTION_DECISION := 3006

  datatype Config = Config(queueCapacity: nat, dedupeCapacity: nat, dedupeMaxAgeMs: nat)
  const DEFAULTS := Config(1024, 65536, 30000)

  datatype Message = Message(header: Frame.Header, body: seq<Frame.byte>)

  function KeyOf(m: Message): Key {
    (m.header.traceId, m.header.msgId)
  }

  datatype PublisherKind = Ui | Tui | Agent
  /** `Cancelled` marks a call whose caller dropped it; nobody gets an answer. */
  datatype PublishError = Closed | Forbidden | MessageExpired | BadExpiry | BackpressureTimeout | Cancelled
  datatype PublishResult = PublishOk | PublishErr(error: PublishError)

  /** A message put on a subscriber's queue: a publication's message, or a drop notice. */
  datatype Push = Data(message: Message, publishedAt: nat) | Notice

  /** `pushed` and `lastReserve` are history: all pushes in order, and the time of the last reservation. */
  datatype Subscriber = Subscriber(
    topic: string, open: bool, cache: seq<Entry>, queue: seq<Push>, received: seq<Push>,
    pushed: seq<Push>, lastReserve: nat)

  /**
   * One call of publish. `todo` are the subscribers of the snapshot not finished yet; `holding` says that the
   * first of them has been reserved, `waiting` that the push in progress has found a full queue. `notices` are
   * drop-topic subscribers still to be notified, `pending` the reservations to roll back at the end. `snapshot`,
   * `closedCount` and `abandoned` are history.
   */
  datatype Publication = Publication(
    topic: string, message: Message, now: Frame.u64, emit: bool, snapshot: seq<SubId>, todo: seq<SubId>, holding: bool,
    waiting: bool, notices: seq<SubId>, pending: seq<SubId>, error: Option<PublishError>, closedCount: nat,
    abandoned: nat, result: Option<PublishResult>)

  datatype Metrics = Metrics(published: nat, delivered: nat, dropsTtl: nat, dropsDuplicate: nat, dropsBackpressure: nat)

  datatype Bus = Bus(
    closed: bool, topics: map<string, seq<SubId>>, subs: seq<Subscriber>, pubs: seq<Publication>,
    metrics: Metrics, deciders: set<PublisherKind>)

  datatype PushResult = Pushed | ChannelClosed | TimedOut

  datatype Event =
    | Begin(topic: string, message: Message, now: Frame.u64, emit: bool, kind: PublisherKind)
    | Reserve(p: PubId)
    | Wait(p: PubId)
    | Deliver(p: PubId, outcome: PushResult)
    | Notify(p: PubId, outcome: PushResult)
    | Rollback(p: PubId)
    | Finish(p: PubId)
    | Cancel(p: PubId)
    | Receive(x: SubId)
    | Subscribe(topic: string)
    | Unregister(x: SubId)
    | CloseReceiver(x: SubId)
    | Shutdown
    | Configure(kinds: set<PublisherKind>)

  function Listed(b: Bus, topic: string): seq<SubId> {
    if topic in b.topics then b.topics[topic] else []
  }

  function Minus(ids: seq<SubId>, x: SubId): seq<SubId> {
    if ids == [] then [] else (if ids[0] == x then [] else [ids[0]]) + Minus(ids[1..], x)
  }

  /** Removes a subscriber from a topic, and the topic with its last subscriber. */
  function Removed(topics: map<string, seq<SubId>>, topic: string, x: SubId): map<string, seq<SubId>> {
    if topic !in topics then topics
    else if Minus(topics[topic], x) == [] then topics - {topic}
    else topics[topic := Minus(topics[topic], x)]
  }

  function Rank(e: PublishError): nat {
    if e.BackpressureTimeout? then 2 else 1
  }

  function Worse(error: Option<PublishError>, other: PublishError): Option<PublishError> {
    if error.None? || Rank(other) > Rank(error.value) then Some(other) else error
  }

  function Idle(topic: string, m: Message, now: Frame.u64, emit: bool): Publication {
    Publication(topic, m, now, emit, [], [], false, false, [], [], None, 0, 0, None)
  }

  function Begun(b: Bus, topic: string, m: Message, now: Frame.u64, emit: bool, kind: PublisherKind): Bus {
    var p := Idle(topic, m, now, emit);
    if b.closed then b.(pubs := b.pubs + [p.(result := Some(PublishErr(Closed)))])
    else if m.header.schemaId == ACTION_DECISION && kind !in b.deciders then
      b.(pubs := b.pubs + [p.(result := Some(PublishErr(Forbidden)))])
    else
      match Frame.IsExpired(m.header, now)
      case Err(_) => b.(pubs := b.pubs + [p.(result := Some(PublishErr(BadExpiry)))])
      case Ok(true) =>
        b.(metrics := b.metrics.(dropsTtl := b.metrics.dropsTtl + 1),
           pubs := b.pubs + [p.(error := Some(MessageExpired), notices := if emit then Listed(b, DROP_TOPIC) else [])])
      case Ok(false) =>
        b.(metrics := b.metrics.(published := b.metrics.published + 1),
           pubs := b.pubs + [p.(snapshot := Listed(b, topic), todo := Listed(b, topic))])
  }

  /** Whether an accepted publication may take its next step, and which. */
  predicate Running(b: Bus, p: PubId) {
    p < |b.pubs| && b.pubs[p].result.None?
  }

  /** The subscriber a push is being made to: one to notify, or the one reserved. */
  function PushTarget(pub: Publication): Option<SubId> {
    if pub.notices != [] then Some(pub.notices[0])
    else if pub.holding && pub.todo != [] then Some(pub.todo[0])
    else None
  }

  /** A push can time out only after it has found the queue full. */
  predicate PushPossible(cfg: Config, s: Subscriber, waiting: bool, outcome: PushResult) {
    match outcome
    case Pushed => s.open && |s.queue| < cfg.queueCapacity
    case ChannelClosed => !s.open
    case TimedOut => s.open && waiting
  }

  predicate Enabled(cfg: Config, b: Bus, e: Event) {
    match e
    case Reserve(p) =>
      Running(b, p) && b.pubs[p].notices == [] && !b.pubs[p].holding && b.pubs[p].todo != [] && b.pubs[p].todo[0] < |b.subs|
    case Wait(p) =>
      Running(b, p) && PushTarget(b.pubs[p]).Some? && PushTarget(b.pubs[p]).value < |b.subs|
      && b.subs[PushTarget(b.pubs[p]).value].open && |b.subs[PushTarget(b.pubs[p]).value].queue| >= cfg.queueCapacity
    case Deliver(p, outcome) =>
      Running(b, p) && b.pubs[p].notices == [] && b.pubs[p].holding && b.pubs[p].todo != [] && b.pubs[p].todo[0] < |b.subs|
      && PushPossible(cfg, b.subs[b.pubs[p].todo[0]], b.pubs[p].waiting, outcome)
    case Notify(p, outcome) =>
      Running(b, p) && b.pubs[p].notices != [] && b.pubs[p].notices[0] < |b.subs|
      && PushPossible(cfg, b.subs[b.pubs[p].notices[0]], b.pubs[p].waiting, outcome)
    case Rollback(p) =>
      Running(b, p) && b.pubs[p].notices == [] && b.pubs[p].todo == [] && b.pubs[p].pending != []
      && b.pubs[p].pending[0] < |b.subs|
    case Finish(p) =>
      Running(b, p) && b.pubs[p].notices == [] && b.pubs[p].todo == [] && b.pubs[p].pending == []
    case Cancel(p) => Running(b, p) && (b.pubs[p].notices != [] || b.pubs[p].todo != [])
    case Receive(x) => x < |b.subs| && b.subs[x].open && b.subs[x].queue != []
    case Subscribe(_) => !b.closed
    case Unregister(x) => x < |b.subs|
    case CloseReceiver(x) => x < |b.subs|
    case _ => true
  }

  function PushTo(s: Subscriber, push: Push): Subscriber {
    s.(queue := s.queue + [push], pushed := s.pushed + [push])
  }

  function AfterReserve(cfg: Config, b: Bus, p: PubId): Bus
    requires Enabled(cfg, b, Reserve(p))
  {
    var pub := b.pubs[p];
    var x := pub.todo[0];
    var s := b.subs[x];
    var (fresh_, cache) := Reserved(s.cache, KeyOf(pub.message), pub.now, cfg.dedupeMaxAgeMs, cfg.dedupeCapacity);
    var b' := b.(subs := b.subs[x := s.(cache := cache, lastReserve := pub.now)]);
    if fresh_ then b'.(pubs := b.pubs[p := pub.(holding := true)])
    else
      b'.(metrics := b.metrics.(dropsDuplicate := b.metrics.dropsDuplicate + 1),
          pubs := b.pubs[p := pub.(todo := pub.todo[1..], notices := if pub.emit then Listed(b, DROP_TOPIC) else [])])
  }

  function AfterDeliver(cfg: Config, b: Bus, p: PubId, outcome: PushResult): Bus
    requires Enabled(cfg, b, Deliver(p, outcome))
  {
    var pub := b.pubs[p];
    var x := pub.todo[0];
    var next := pub.(todo := pub.todo[1..], holding := false, waiting := false);
    match outcome
    case Pushed =>
      b.(subs := b.subs[x := PushTo(b.subs[x], Data(pub.message, pub.now))], pubs := b.pubs[p := next],
         metrics := b.metrics.(delivered := b.metrics.delivered + 1))
    case ChannelClosed =>
      b.(topics := Removed(b.topics, pub.topic, x),
         pubs := b.pubs[p := next.(pending := pub.pending + [x], error := Worse(pub.error, Closed),
                                   closedCount := pub.closedCount + 1)])
    case TimedOut =>
      b.(metrics := b.metrics.(dropsBackpressure := b.metrics.dropsBackpressure + 1),
         pubs := b.pubs[p := next.(pending := pub.pending + [x], error := Worse(pub.error, BackpressureTimeout),
                                   notices := if pub.emit then Listed(b, DROP_TOPIC) else [])])
  }

  function AfterNotify(cfg: Config, b: Bus, p: PubId, outcome: PushResult): Bus
    requires Enabled(cfg, b, Notify(p, outcome))
  {
    var pub := b.pubs[p];
    var x := pub.notices[0];
    var b' := b.(pubs := b.pubs[p := pub.(notices := pub.notices[1..], waiting := false)]);
    match outcome
    case Pushed =>
      b'.(subs := b.subs[x := PushTo(b.subs[x], Notice)], metrics := b.metrics.(delivered := b.metrics.delivered + 1))
    case ChannelClosed => b'.(topics := Removed(b.topics, DROP_TOPIC, x))
    case TimedOut => b'
  }

  function AfterRollback(cfg: Config, b: Bus, p: PubId): Bus
    requires Enabled(cfg, b, Rollback(p))
  {
    var pub := b.pubs[p];
    var x := pub.pending[0];
    b.(subs := b.subs[x := b.subs[x].(cache := Without(b.subs[x].cache, KeyOf(pub.message)))],
       pubs := b.pubs[p := pub.(pending := pub.pending[1..])])
  }

  /** Dropping the call drops its reservations: the one in use and those kept for the end are rolled back. */
  function AfterCancel(cfg: Config, b: Bus, p: PubId): Bus
    requires Enabled(cfg, b, Cancel(p))
  {
    var pub := b.pubs[p];
    var held := if pub.holding && pub.todo != [] then [pub.todo[0]] else [];
    b.(pubs := b.pubs[p := pub.(todo := [], holding := false, waiting := false, notices := [], pending := pub.pending + held,
                                error := Some(Cancelled), abandoned := pub.abandoned + |pub.todo|)])
  }

  function Next(cfg: Config, b: Bus, e: Event): Bus
    requires Enabled(cfg, b, e)
  {
    match e
    case Begin(topic, m, now, emit, kind) => Begun(b, topic, m, now, emit, kind)
    case Reserve(p) => AfterReserve(cfg, b, p)
    case Wait(p) => b.(pubs := b.pubs[p := b.pubs[p].(waiting := true)])
    case Deliver(p, outcome) => AfterDeliver(cfg, b, p, outcome)
    case Notify(p, outcome) => AfterNotify(cfg, b, p, outcome)
    case Rollback(p) => AfterRollback(cfg, b, p)
    case Finish(p) =>
      var pub := b.pubs[p];
      b.(pubs := b.pubs[p := pub.(result := Some(if pub.error.Some? then PublishErr(pub.error.value) else PublishOk))])
    case Cancel(p) => AfterCancel(cfg, b, p)
    case Receive(x) =>
      var s := b.subs[x];
      b.(subs := b.subs[x := s.(received := s.received + [s.queue[0]], queue := s.queue[1..])])
    case Subscribe(topic) =>
      b.(subs := b.subs + [Subscriber(topic, true, [], [], [], [], 0)],
         topics := b.topics[topic := Listed(b, topic) + [|b.subs|]])
    case Unregister(x) => b.(topics := Removed(b.topics, b.subs[x].topic, x))
    case CloseReceiver(x) => b.(subs := b.subs[x := b.subs[x].(open := false)])
    case Shutdown => if b.closed then b else b.(closed := true, topics := map[])
    case Configure(kinds) => b.(deciders := kinds)
  }

  function Initial(): Bus {
    Bus(false, map[], [], [], Metrics(0, 0, 0, 0, 0), {Ui, Tui})
  }

  /** Every event of the run is enabled when it happens. */
  ghost predicate Possible(cfg: Config, b: Bus, run: seq<Event>)
    decreases run
  {
    run == [] || (Enabled(cfg, b, run[0]) && Possible(cfg, Next(cfg, b, run[0]), run[1..]))
  }

  ghost function Final(cfg: Config, b: Bus, run: seq<Event>): Bus
    requires Possible(cfg, b, run)
    decreases run
  {
    if run == [] then b else Final(cfg, Next(cfg, b, run[0]), run[1..])
  }
}
