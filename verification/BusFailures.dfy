/** Runs of the bus outside the hypotheses, each from the initial state, and what they end in. */
module BusFailures {
  import opened Json
  import opened Dedupe
  import opened Bus
  import opened BusRetry
  import Frame

  // ----- runs

  /** The states of a run, one more than its events. */
  ghost predicate Trace(cfg: Config, states: seq<Bus>, run: seq<Event>) {
    && |states| == |run| + 1
    && forall k :: 0 <= k < |run| ==> Goes(cfg, states[k], run[k], states[k + 1])
  }

  ghost predicate Goes(cfg: Config, b: Bus, e: Event, b': Bus) {
    Enabled(cfg, b, e) && Next(cfg, b, e) == b'
  }

  ghost predicate Leads(cfg: Config, b: Bus, run: seq<Event>, b': Bus) {
    Possible(cfg, b, run) && Final(cfg, b, run) == b'
  }

  lemma {:induction false} TraceLeads(cfg: Config, states: seq<Bus>, run: seq<Event>)
    requires Trace(cfg, states, run)
    ensures Leads(cfg, states[0], run, states[|run|])
    decreases run
  {
    if run != [] {
      assert Goes(cfg, states[0], run[0], states[1]);
      forall k | 0 <= k < |run[1..]| ensures Goes(cfg, states[1..][k], run[1..][k], states[1..][k + 1]) {
        assert Goes(cfg, states[k + 1], run[k + 1], states[k + 2]);
      }
      TraceLeads(cfg, states[1..], run[1..]);
    }
  }

  lemma {:induction false} LeadsOn(cfg: Config, b: Bus, first: seq<Event>, b': Bus, second: seq<Event>, b'': Bus)
    requires Leads(cfg, b, first, b') && Leads(cfg, b', second, b'')
    ensures Leads(cfg, b, first + second, b'')
    decreases first
  {
    if first == [] {
      assert first + second == second;
    } else {
      LeadsOn(cfg, Next(cfg, b, first[0]), first[1..], b', second, b'');
      assert (first + second)[1..] == first[1..] + second && (first + second)[0] == first[0];
    }
  }

  // ----- steps of publications to a topic with one subscriber

  /** A message the bus accepts at `now` from any publisher. */
  ghost predicate Live(m: Message, now: Frame.u64) {
    m.header.schemaId != ACTION_DECISION && Frame.IsExpired(m.header, now) == Frame.Ok(false)
  }

  /** The topic has one subscriber, which is the only one on the bus. */
  ghost predicate Sole(b: Bus, topic: string) {
    !b.closed && topic in b.topics && b.topics[topic] == [0] && |b.subs| == 1
  }

  /** A publication in progress at the only subscriber, or with nobody left to visit. */
  ghost function Publishing(topic: string, m: Message, now: Frame.u64, visiting: bool, holding: bool): Publication {
    Publication(topic, m, now, false, [0], if visiting then [0] else [], holding, false, [], [], None, 0, 0, None)
  }

  ghost function Ended(topic: string, m: Message, now: Frame.u64): Publication {
    Publishing(topic, m, now, false, false).(result := Some(PublishOk))
  }

  /** The bus with its subscriber replaced and publications added. */
  ghost function With(b: Bus, s: Subscriber, more: seq<Publication>, metrics: Metrics): Bus {
    b.(subs := [s], pubs := b.pubs + more, metrics := metrics)
  }

  lemma Begins(cfg: Config, b: Bus, s: Subscriber, more: seq<Publication>, metrics: Metrics, topic: string, m: Message, now: Frame.u64)
    requires Sole(b, topic) && Live(m, now)
    ensures Goes(cfg, With(b, s, more, metrics), Begin(topic, m, now, false, Agent),
                 With(b, s, more + [Publishing(topic, m, now, true, false)], metrics.(published := metrics.published + 1)))
  {
    assert b.pubs + more + [Publishing(topic, m, now, true, false)] == b.pubs + (more + [Publishing(topic, m, now, true, false)]);
  }

  /** Replacing the `i`-th publication added. */
  lemma Replaced(b: Bus, more: seq<Publication>, i: nat, pub: Publication)
    requires i < |more|
    ensures (b.pubs + more)[|b.pubs| + i] == more[i]
    ensures (b.pubs + more)[|b.pubs| + i := pub] == b.pubs + more[i := pub]
  {
  }

  lemma Reserves(cfg: Config, b: Bus, s: Subscriber, more: seq<Publication>, metrics: Metrics, i: nat, topic: string, m: Message, now: Frame.u64)
    requires i < |more| && more[i] == Publishing(topic, m, now, true, false)
    ensures var kept := Pruned(s.cache, now, cfg.dedupeMaxAgeMs);
            Goes(cfg, With(b, s, more, metrics), Event.Reserve(|b.pubs| + i),
                 if HasKey(kept, KeyOf(m)) then
                   With(b, s.(cache := kept, lastReserve := now), more[i := Publishing(topic, m, now, false, false)],
                        metrics.(dropsDuplicate := metrics.dropsDuplicate + 1))
                 else
                   With(b, s.(cache := Put(kept, KeyOf(m), now, cfg.dedupeCapacity), lastReserve := now),
                        more[i := Publishing(topic, m, now, true, true)], metrics))
  {
    Replaced(b, more, i, Publishing(topic, m, now, false, false));
    Replaced(b, more, i, Publishing(topic, m, now, true, true));
    assert [0][1..] == [];
  }

  lemma Pushes(cfg: Config, b: Bus, s: Subscriber, more: seq<Publication>, metrics: Metrics, i: nat, topic: string, m: Message, now: Frame.u64)
    requires i < |more| && more[i] == Publishing(topic, m, now, true, true)
    requires s.open && |s.queue| < cfg.queueCapacity
    ensures Goes(cfg, With(b, s, more, metrics), Deliver(|b.pubs| + i, Pushed),
                 With(b, PushTo(s, Data(m, now)), more[i := Publishing(topic, m, now, false, false)],
                      metrics.(delivered := metrics.delivered + 1)))
  {
    Replaced(b, more, i, Publishing(topic, m, now, false, false));
    assert [0][1..] == [];
  }

  lemma Finishes(cfg: Config, b: Bus, s: Subscriber, more: seq<Publication>, metrics: Metrics, i: nat)
    requires i < |more| && more[i].result.None? && more[i].notices == [] == more[i].todo && more[i].pending == []
    ensures var end := if more[i].error.Some? then PublishErr(more[i].error.value) else PublishOk;
            Goes(cfg, With(b, s, more, metrics), Finish(|b.pubs| + i), With(b, s, more[i := more[i].(result := Some(end))], metrics))
  {
    var end := if more[i].error.Some? then PublishErr(more[i].error.value) else PublishOk;
    Replaced(b, more, i, more[i].(result := Some(end)));
  }

  // ----- states in which messages have been delivered one after the other

  ghost function EntriesOf(sent: seq<Message>, at: nat): (entries: seq<Entry>)
    ensures |entries| == |sent| && forall k :: 0 <= k < |sent| ==> entries[k] == Entry(KeyOf(sent[k]), at)
  {
    seq(|sent|, k requires 0 <= k < |sent| => Entry(KeyOf(sent[k]), at))
  }

  ghost function PushesOf(sent: seq<Message>, at: nat): (pushes: seq<Push>)
    ensures |pushes| == |sent| && forall k :: 0 <= k < |sent| ==> pushes[k] == Data(sent[k], at)
  {
    seq(|sent|, k requires 0 <= k < |sent| => Data(sent[k], at))
  }

  ghost function CallsOf(topic: string, sent: seq<Message>, now: Frame.u64): (pubs: seq<Publication>)
    ensures |pubs| == |sent| && forall k :: 0 <= k < |sent| ==> pubs[k] == Ended(topic, sent[k], now)
  {
    seq(|sent|, k requires 0 <= k < |sent| => Ended(topic, sent[k], now))
  }

  /** One subscriber, which has been sent these messages at one time and has received none. */
  ghost function Sent(topic: string, sent: seq<Message>, now: Frame.u64): Bus {
    Bus(false, map[topic := [0]],
        [Subscriber(topic, true, EntriesOf(sent, now), PushesOf(sent, now), [], PushesOf(sent, now), if sent == [] then 0 else now)],
        CallsOf(topic, sent, now), Metrics(|sent|, |sent|, 0, 0, 0), {Ui, Tui})
  }

  ghost function Sending(topic: string, m: Message, now: Frame.u64, p: PubId): seq<Event> {
    [Begin(topic, m, now, false, Agent), Event.Reserve(p), Deliver(p, Pushed), Finish(p)]
  }

  /** Subscribing, then publishing the messages one by one. */
  ghost function SendAll(topic: string, sent: seq<Message>, now: Frame.u64): seq<Event> {
    if sent == [] then [Subscribe(topic)]
    else SendAll(topic, sent[..|sent| - 1], now) + Sending(topic, sent[|sent| - 1], now, |sent| - 1)
  }

  /** Live messages with keys of their own. */
  ghost predicate Various(sent: seq<Message>, now: Frame.u64) {
    && (forall k :: 0 <= k < |sent| ==> Live(sent[k], now))
    && (forall j, k :: 0 <= j < k < |sent| ==> KeyOf(sent[j]) != KeyOf(sent[k]))
  }

  /** The subscriber after one more delivered publish of a message that is no duplicate. */
  ghost function Got(cfg: Config, s: Subscriber, m: Message, now: Frame.u64): Subscriber {
    PushTo(s.(cache := Put(Pruned(s.cache, now, cfg.dedupeMaxAgeMs), KeyOf(m), now, cfg.dedupeCapacity), lastReserve := now),
           Data(m, now))
  }

  /** A publish that is no duplicate is delivered when the queue has room. */
  lemma Delivers(cfg: Config, b: Bus, topic: string, m: Message, now: Frame.u64)
    requires Sole(b, topic) && Live(m, now) && b.subs[0].open && |b.subs[0].queue| < cfg.queueCapacity
    requires !HasKey(Pruned(b.subs[0].cache, now, cfg.dedupeMaxAgeMs), KeyOf(m))
    ensures Leads(cfg, b, Sending(topic, m, now, |b.pubs|),
                  With(b, Got(cfg, b.subs[0], m, now), [Ended(topic, m, now)],
                       b.metrics.(published := b.metrics.published + 1, delivered := b.metrics.delivered + 1)))
  {
    var s, s2 := b.subs[0], Got(cfg, b.subs[0], m, now);
    var s1 := s.(cache := s2.cache, lastReserve := now);
    var mt := b.metrics.(published := b.metrics.published + 1);
    var mt' := mt.(delivered := b.metrics.delivered + 1);
    var pub, held, done := Publishing(topic, m, now, true, false), Publishing(topic, m, now, true, true), Publishing(topic, m, now, false, false);
    assert With(b, s, [], b.metrics) == b && [] + [pub] == [pub];
    Begins(cfg, b, s, [], b.metrics, topic, m, now);
    Reserves(cfg, b, s, [pub], mt, 0, topic, m, now);
    Pushes(cfg, b, s1, [held], mt, 0, topic, m, now);
    Finishes(cfg, b, s2, [done], mt', 0);
    assert [pub][0 := held] == [held] && [held][0 := done] == [done] && [done][0 := Ended(topic, m, now)] == [Ended(topic, m, now)];
    TraceLeads(cfg, [b, With(b, s, [pub], mt), With(b, s1, [held], mt), With(b, s2, [done], mt'), With(b, s2, [Ended(topic, m, now)], mt')],
               Sending(topic, m, now, |b.pubs|));
  }

  lemma NewKey(sent: seq<Message>, m: Message, now: Frame.u64, maxAge: nat)
    requires Various(sent + [m], now)
    ensures Live(m, now) && !HasKey(EntriesOf(sent, now), KeyOf(m)) && Pruned(EntriesOf(sent, now), now, maxAge) == EntriesOf(sent, now)
  {
    var all := sent + [m];
    assert all[|sent|] == m;
    forall k | 0 <= k < |sent| ensures KeyOf(sent[k]) != KeyOf(m) {
      assert all[k] == sent[k];
    }
  }

  /** One more message with a new key is delivered as long as queue and filter have room. */
  lemma SendsOne(cfg: Config, topic: string, sent: seq<Message>, m: Message, now: Frame.u64)
    requires Various(sent + [m], now) && |sent| < cfg.queueCapacity && |sent| < cfg.dedupeCapacity
    ensures Leads(cfg, Sent(topic, sent, now), Sending(topic, m, now, |sent|), Sent(topic, sent + [m], now))
  {
    NewKey(sent, m, now, cfg.dedupeMaxAgeMs);
    Delivers(cfg, Sent(topic, sent, now), topic, m, now);
    SentGrows(topic, sent, m, now);
  }

  lemma SentGrows(topic: string, sent: seq<Message>, m: Message, now: Frame.u64)
    ensures EntriesOf(sent + [m], now) == EntriesOf(sent, now) + [Entry(KeyOf(m), now)]
    ensures PushesOf(sent + [m], now) == PushesOf(sent, now) + [Data(m, now)]
    ensures CallsOf(topic, sent + [m], now) == CallsOf(topic, sent, now) + [Ended(topic, m, now)]
  {
  }

  /** From the initial state, any live messages with keys of their own can all be sent and wait in the queue. */
  lemma {:induction false} SendsAll(cfg: Config, topic: string, sent: seq<Message>, now: Frame.u64)
    requires Various(sent, now) && |sent| <= cfg.queueCapacity && |sent| <= cfg.dedupeCapacity
    ensures Leads(cfg, Initial(), SendAll(topic, sent, now), Sent(topic, sent, now))
  {
    if sent == [] {
      var b := Sent(topic, [], now);
      assert [] + [0] == [0];
      assert Goes(cfg, Initial(), Subscribe(topic), b);
      TraceLeads(cfg, [Initial(), b], [Subscribe(topic)]);
    } else {
      var before, last := sent[..|sent| - 1], sent[|sent| - 1];
      assert sent == before + [last];
      SendsAll(cfg, topic, before, now);
      SendsOne(cfg, topic, before, last, now);
      LeadsOn(cfg, Initial(), SendAll(topic, before, now), Sent(topic, before, now),
              Sending(topic, last, now, |before|), Sent(topic, sent, now));
    }
  }

  // ----- a message published again after its entry has aged out

  /** A delivered publish and a second one of the same message, delivered or refused as a duplicate. */
  ghost function Republish(topic: string, m: Message, first: Frame.u64, second: Frame.u64, aged: bool): seq<Event> {
    [Subscribe(topic)] + Sending(topic, m, first, 0)
    + if aged then Sending(topic, m, second, 1) else Refused(topic, m, second, 1)
  }

  /**
    * A delivered message published again while still live is delivered a second time exactly when more time than the
    * filter's window has passed: with a longer time to live, duplicate suppression ends before the message does.
    */
  lemma RepublishDelivers(cfg: Config, topic: string, m: Message, first: Frame.u64, second: Frame.u64)
    requires cfg.queueCapacity > 1 && cfg.dedupeCapacity > 0 && Live(m, first) && Live(m, second) && first <= second
    ensures var aged := second - first > cfg.dedupeMaxAgeMs;
            var run := Republish(topic, m, first, second, aged);
            && Possible(cfg, Initial(), run)
            && var b := Final(cfg, Initial(), run);
               && |b.subs| == 1 && |b.pubs| == 2 && b.pubs[1].result == Some(PublishOk)
               && b.subs[0].pushed == [Data(m, first)] + if aged then [Data(m, second)] else []
  {
    var aged, b := second - first > cfg.dedupeMaxAgeMs, Sent(topic, [m], first);
    SendsAll(cfg, topic, [m], first);
    assert SendAll(topic, [m], first) == [Subscribe(topic)] + Sending(topic, m, first, 0) by {
      assert [m][..0] == [] && SendAll(topic, [m][..0], first) == [Subscribe(topic)];
    }
    OneEntry(Entry(KeyOf(m), first), second, cfg.dedupeMaxAgeMs);
    assert EntriesOf([m], first) == [Entry(KeyOf(m), first)] && PushesOf([m], first) == [Data(m, first)];
    if aged {
      Delivers(cfg, b, topic, m, second);
      var end := With(b, Got(cfg, b.subs[0], m, second), [Ended(topic, m, second)], Metrics(2, 2, 0, 0, 0));
      LeadsOn(cfg, Initial(), SendAll(topic, [m], first), b, Sending(topic, m, second, 1), end);
    } else {
      var end := Refuses(cfg, b, topic, m, second);
      LeadsOn(cfg, Initial(), SendAll(topic, [m], first), b, Refused(topic, m, second, 1), end);
    }
  }

  /** A publish that is refused as a duplicate ends in Ok and pushes nothing. */
  lemma Refuses(cfg: Config, b: Bus, topic: string, m: Message, now: Frame.u64) returns (end: Bus)
    requires Sole(b, topic) && Live(m, now)
    requires HasKey(Pruned(b.subs[0].cache, now, cfg.dedupeMaxAgeMs), KeyOf(m))
    ensures Leads(cfg, b, Refused(topic, m, now, |b.pubs|), end)
    ensures |end.subs| == 1 && end.subs[0].pushed == b.subs[0].pushed
    ensures |end.pubs| == |b.pubs| + 1 && end.pubs[|b.pubs|].result == Some(PublishOk)
  {
    var s := b.subs[0];
    var s' := s.(cache := Pruned(s.cache, now, cfg.dedupeMaxAgeMs), lastReserve := now);
    var mt := b.metrics.(published := b.metrics.published + 1);
    var mt' := mt.(dropsDuplicate := mt.dropsDuplicate + 1);
    var pub, done := Publishing(topic, m, now, true, false), Publishing(topic, m, now, false, false);
    assert With(b, s, [], b.metrics) == b && [] + [pub] == [pub];
    Begins(cfg, b, s, [], b.metrics, topic, m, now);
    Reserves(cfg, b, s, [pub], mt, 0, topic, m, now);
    Finishes(cfg, b, s', [done], mt', 0);
    assert [pub][0 := done] == [done] && [done][0 := Ended(topic, m, now)] == [Ended(topic, m, now)];
    end := With(b, s', [Ended(topic, m, now)], mt');
    TraceLeads(cfg, [b, With(b, s, [pub], mt), With(b, s', [done], mt'), end],
               Refused(topic, m, now, |b.pubs|));
  }

  lemma OneEntry(e: Entry, now: nat, maxAge: nat)
    ensures Pruned([e], now, maxAge) == if Stale(e.at, now, maxAge) then [] else [e]
    ensures HasKey([e], e.key) && !HasKey([], e.key)
  {
    assert [e][0].key == e.key && [e][1..] == [];
  }

  /** A header of protocol version 0 with a time to live of one minute. */
  function Header60(msgId: Frame.u64): Frame.Header {
    Frame.Header(Frame.HEADER_VERSION, Frame.HEADER_LEN, 0, 0, 0, 0, 60000, 7, msgId)
  }

  /** With the server's own settings, a message that lives for a minute is delivered twice in 30.001 seconds. */
  lemma RepublishAtDefaults(topic: string)
    ensures var m := Message(Header60(1), []);
            var run := Republish(topic, m, 0, 30001, true);
            && Possible(DEFAULTS, Initial(), run)
            && |Final(DEFAULTS, Initial(), run).subs| == 1
            && Final(DEFAULTS, Initial(), run).subs[0].pushed == [Data(m, 0), Data(m, 30001)]
  {
    var m := Message(Header60(1), []);
    assert Live(m, 0) && Live(m, 30001);
    RepublishDelivers(DEFAULTS, topic, m, 0, 30001);
  }

  // ----- overlapping publishes of one message

  /** A publish that finds the queue full, another of the same message, and then the timeout of the first. */
  ghost function Overlap(topic: string, m: Message, now: Frame.u64, p: PubId): seq<Event> {
    Stuck(topic, m, now, p) + Refused(topic, m, now, p + 1) + Late(p)
  }

  ghost function Stuck(topic: string, m: Message, now: Frame.u64, p: PubId): seq<Event> {
    [Begin(topic, m, now, false, Agent), Event.Reserve(p), Wait(p)]
  }

  ghost function Refused(topic: string, m: Message, now: Frame.u64, p: PubId): seq<Event> {
    [Begin(topic, m, now, false, Agent), Event.Reserve(p), Finish(p)]
  }

  ghost function Late(p: PubId): seq<Event> {
    [Deliver(p, TimedOut), Event.Rollback(p), Finish(p)]
  }

  /** What is inserted last is fresh and stays. */
  lemma {:induction false} LastStays(entries: seq<Entry>, e: Entry, maxAge: nat)
    requires entries != [] && entries[|entries| - 1] == e
    ensures HasKey(Pruned(entries, e.at, maxAge), e.key)
  {
    if Stale(entries[0].at, e.at, maxAge) {
      LastStays(entries[1..], e, maxAge);
    } else {
      assert entries[|entries| - 1].key == e.key;
    }
  }

  lemma PutLast(entries: seq<Entry>, key: Key, at: nat, capacity: nat)
    ensures Put(entries, key, at, capacity) != [] && Put(entries, key, at, capacity)[|Put(entries, key, at, capacity)| - 1] == Entry(key, at)
  {
  }

  lemma Waits(cfg: Config, b: Bus, s: Subscriber, more: seq<Publication>, metrics: Metrics, i: nat, topic: string, m: Message, now: Frame.u64)
    requires i < |more| && more[i] == Publishing(topic, m, now, true, true) && s.open && |s.queue| >= cfg.queueCapacity
    ensures Goes(cfg, With(b, s, more, metrics), Wait(|b.pubs| + i), With(b, s, more[i := more[i].(waiting := true)], metrics))
  {
    Replaced(b, more, i, more[i].(waiting := true));
  }

  /** The rest of a publication that times out: its reservation is rolled back and it ends in an error. */
  ghost function TimedOutCall(topic: string, m: Message, now: Frame.u64, step: nat): Publication {
    var late := Publishing(topic, m, now, false, false).(error := Some(BackpressureTimeout));
    if step == 0 then late.(pending := [0])
    else if step == 1 then late
    else late.(result := Some(PublishErr(BackpressureTimeout)))
  }

  lemma TimesOut(cfg: Config, b: Bus, s: Subscriber, more: seq<Publication>, metrics: Metrics, i: nat, topic: string, m: Message, now: Frame.u64)
    requires i < |more| && more[i] == Publishing(topic, m, now, true, true).(waiting := true) && s.open
    ensures Goes(cfg, With(b, s, more, metrics), Deliver(|b.pubs| + i, TimedOut),
                 With(b, s, more[i := TimedOutCall(topic, m, now, 0)], metrics.(dropsBackpressure := metrics.dropsBackpressure + 1)))
  {
    Replaced(b, more, i, TimedOutCall(topic, m, now, 0));
    assert [0][1..] == [] && [] + [0] == [0];
  }

  lemma RollsBack(cfg: Config, b: Bus, s: Subscriber, more: seq<Publication>, metrics: Metrics, i: nat, topic: string, m: Message, now: Frame.u64)
    requires i < |more| && more[i] == TimedOutCall(topic, m, now, 0)
    ensures Goes(cfg, With(b, s, more, metrics), Event.Rollback(|b.pubs| + i),
                 With(b, s.(cache := Without(s.cache, KeyOf(m))), more[i := TimedOutCall(topic, m, now, 1)], metrics))
  {
    Replaced(b, more, i, TimedOutCall(topic, m, now, 1));
    assert [0][1..] == [];
  }

  /** The first call reserves the subscriber and finds its queue full. */
  lemma FirstWaits(cfg: Config, b: Bus, topic: string, m: Message, now: Frame.u64) returns (b': Bus)
    requires Sole(b, topic) && Live(m, now) && b.subs[0].open && |b.subs[0].queue| == cfg.queueCapacity
    requires !HasKey(Pruned(b.subs[0].cache, now, cfg.dedupeMaxAgeMs), KeyOf(m))
    ensures var s1 := b.subs[0].(cache := Put(Pruned(b.subs[0].cache, now, cfg.dedupeMaxAgeMs), KeyOf(m), now, cfg.dedupeCapacity), lastReserve := now);
            b' == With(b, s1, [Publishing(topic, m, now, true, true).(waiting := true)], b.metrics.(published := b.metrics.published + 1))
    ensures Leads(cfg, b, Stuck(topic, m, now, |b.pubs|), b')
  {
    var s := b.subs[0];
    var s1 := s.(cache := Put(Pruned(s.cache, now, cfg.dedupeMaxAgeMs), KeyOf(m), now, cfg.dedupeCapacity), lastReserve := now);
    var mt := b.metrics.(published := b.metrics.published + 1);
    var pub, held := Publishing(topic, m, now, true, false), Publishing(topic, m, now, true, true);
    assert With(b, s, [], b.metrics) == b && [] + [pub] == [pub];
    Begins(cfg, b, s, [], b.metrics, topic, m, now);
    Reserves(cfg, b, s, [pub], mt, 0, topic, m, now);
    Waits(cfg, b, s1, [held], mt, 0, topic, m, now);
    assert [pub][0 := held] == [held] && [held][0 := held.(waiting := true)] == [held.(waiting := true)];
    b' := With(b, s1, [held.(waiting := true)], mt);
    TraceLeads(cfg, [b, With(b, s, [pub], mt), With(b, s1, [held], mt), b'],
               Stuck(topic, m, now, |b.pubs|));
  }

  /** Meanwhile a second call is refused as a duplicate and ends in Ok. */
  lemma SecondRefused(cfg: Config, b: Bus, s: Subscriber, first: Publication, mt: Metrics, topic: string, m: Message, now: Frame.u64)
    returns (b': Bus)
    requires Sole(b, topic) && Live(m, now) && HasKey(Pruned(s.cache, now, cfg.dedupeMaxAgeMs), KeyOf(m))
    ensures b' == With(b, s.(cache := Pruned(s.cache, now, cfg.dedupeMaxAgeMs), lastReserve := now), [first, Ended(topic, m, now)],
                       mt.(published := mt.published + 1, dropsDuplicate := mt.dropsDuplicate + 1))
    ensures Leads(cfg, With(b, s, [first], mt), Refused(topic, m, now, |b.pubs| + 1), b')
  {
    var s' := s.(cache := Pruned(s.cache, now, cfg.dedupeMaxAgeMs), lastReserve := now);
    var mt1 := mt.(published := mt.published + 1);
    var mt2 := mt1.(dropsDuplicate := mt.dropsDuplicate + 1);
    var pub, done := Publishing(topic, m, now, true, false), Publishing(topic, m, now, false, false);
    Begins(cfg, b, s, [first], mt, topic, m, now);
    assert [first] + [pub] == [first, pub];
    Reserves(cfg, b, s, [first, pub], mt1, 1, topic, m, now);
    Finishes(cfg, b, s', [first, done], mt2, 1);
    assert [first, pub][1 := done] == [first, done] && [first, done][1 := Ended(topic, m, now)] == [first, Ended(topic, m, now)];
    b' := With(b, s', [first, Ended(topic, m, now)], mt2);
    TraceLeads(cfg, [With(b, s, [first], mt), With(b, s, [first, pub], mt1), With(b, s', [first, done], mt2), b'],
               Refused(topic, m, now, |b.pubs| + 1));
  }

  /** The first call's push times out and its reservation is rolled back. */
  lemma FirstTimesOut(cfg: Config, b: Bus, s: Subscriber, second: Publication, mt: Metrics, topic: string, m: Message, now: Frame.u64)
    returns (b': Bus)
    requires s.open
    ensures b' == With(b, s.(cache := Without(s.cache, KeyOf(m))), [TimedOutCall(topic, m, now, 2), second],
                       mt.(dropsBackpressure := mt.dropsBackpressure + 1))
    ensures Leads(cfg, With(b, s, [Publishing(topic, m, now, true, true).(waiting := true), second], mt), Late(|b.pubs|), b')
  {
    var late := Publishing(topic, m, now, true, true).(waiting := true);
    var c0, c1, c2 := TimedOutCall(topic, m, now, 0), TimedOutCall(topic, m, now, 1), TimedOutCall(topic, m, now, 2);
    var mt' := mt.(dropsBackpressure := mt.dropsBackpressure + 1);
    var s' := s.(cache := Without(s.cache, KeyOf(m)));
    TimesOut(cfg, b, s, [late, second], mt, 0, topic, m, now);
    RollsBack(cfg, b, s, [c0, second], mt', 0, topic, m, now);
    Finishes(cfg, b, s', [c1, second], mt', 0);
    assert [late, second][0 := c0] == [c0, second] && [c0, second][0 := c1] == [c1, second] && [c1, second][0 := c2] == [c2, second];
    b' := With(b, s', [c2, second], mt');
    TraceLeads(cfg, [With(b, s, [late, second], mt), With(b, s, [c0, second], mt'), With(b, s', [c1, second], mt'), b'],
               Late(|b.pubs|));
  }

  /**
    * Overlapping calls can return Ok with nothing delivered: the duplicate check trusts a reservation in flight, which
    * is rolled back when its push times out on a queue that was full all the time.
    */
  lemma OverlapLosesMessage(cfg: Config, b: Bus, topic: string, m: Message, now: Frame.u64)
    requires Sole(b, topic) && Live(m, now) && b.subs[0].open && |b.subs[0].queue| == cfg.queueCapacity
    requires !HasKey(Pruned(b.subs[0].cache, now, cfg.dedupeMaxAgeMs), KeyOf(m))
    ensures Possible(cfg, b, Overlap(topic, m, now, |b.pubs|))
    ensures var b', p := Final(cfg, b, Overlap(topic, m, now, |b.pubs|)), |b.pubs|;
            && |b'.pubs| == p + 2 && b'.pubs[p + 1] == Ended(topic, m, now) && b'.pubs[p].result == Some(PublishErr(BackpressureTimeout))
            && |b'.subs| == 1 && b'.subs[0].open && b'.subs[0].pushed == b.subs[0].pushed && b'.subs[0].queue == b.subs[0].queue
            && !HasKey(b'.subs[0].cache, KeyOf(m))
  {
    var s := b.subs[0];
    var p := |b.pubs|;
    var s1 := s.(cache := Put(Pruned(s.cache, now, cfg.dedupeMaxAgeMs), KeyOf(m), now, cfg.dedupeCapacity), lastReserve := now);
    var s2 := s1.(cache := Pruned(s1.cache, now, cfg.dedupeMaxAgeMs));
    var late := Publishing(topic, m, now, true, true).(waiting := true);
    PutLast(Pruned(s.cache, now, cfg.dedupeMaxAgeMs), KeyOf(m), now, cfg.dedupeCapacity);
    LastStays(s1.cache, Entry(KeyOf(m), now), cfg.dedupeMaxAgeMs);
    var mt := b.metrics.(published := b.metrics.published + 1);
    var b1 := FirstWaits(cfg, b, topic, m, now);
    var b2 := SecondRefused(cfg, b, s1, late, mt, topic, m, now);
    var b3 := FirstTimesOut(cfg, b, s2, Ended(topic, m, now), b2.metrics, topic, m, now);
    LeadsOn(cfg, b, Stuck(topic, m, now, p), b1, Refused(topic, m, now, p + 1), b2);
    LeadsOn(cfg, b, Stuck(topic, m, now, p) + Refused(topic, m, now, p + 1), b2, Late(p), b3);
    KeyGone(s2.cache, KeyOf(m));
  }

  lemma KeyGone(entries: seq<Entry>, key: Key)
    ensures !HasKey(Without(entries, key), key)
  {
    WithoutExact(entries, key);
    assert forall k :: 0 <= k < |Without(entries, key)| ==> Without(entries, key)[k] in Without(entries, key);
  }

  /** The call returned Ok to its caller, and the open subscriber it found was never sent the message. */
  ghost predicate OkButLost(b: Bus, p: PubId) {
    && p < |b.pubs| && b.pubs[p].result == Some(PublishOk) && b.pubs[p].snapshot == [0]
    && |b.subs| == 1 && b.subs[0].open && !Delivered(b, 0, KeyOf(b.pubs[p].message))
  }

  /**
    * From the initial state: as many messages as the queue holds are sent to the only subscriber, which receives none
    * of them, and then two publishes of another message overlap. One of them returns Ok, and nothing of it was sent.
    */
  lemma OverlapFromInitial(cfg: Config, topic: string, sent: seq<Message>, m: Message, now: Frame.u64)
    requires Various(sent + [m], now) && |sent| == cfg.queueCapacity <= cfg.dedupeCapacity
    ensures var run := SendAll(topic, sent, now) + Overlap(topic, m, now, |sent|);
            && Possible(cfg, Initial(), run)
            && var b := Final(cfg, Initial(), run);
               OkButLost(b, |sent| + 1) && b.pubs[|sent| + 1] == Ended(topic, m, now) && !HasKey(b.subs[0].cache, KeyOf(m))
  {
    var b := Sent(topic, sent, now);
    VariousBefore(sent, m, now);
    SendsAll(cfg, topic, sent, now);
    var end := OverlapWhenFull(cfg, topic, sent, m, now);
    LeadsOn(cfg, Initial(), SendAll(topic, sent, now), b, Overlap(topic, m, now, |sent|), end);
  }

  lemma OverlapWhenFull(cfg: Config, topic: string, sent: seq<Message>, m: Message, now: Frame.u64) returns (end: Bus)
    requires Various(sent + [m], now) && |sent| == cfg.queueCapacity
    ensures Leads(cfg, Sent(topic, sent, now), Overlap(topic, m, now, |sent|), end)
    ensures OkButLost(end, |sent| + 1) && end.pubs[|sent| + 1] == Ended(topic, m, now) && !HasKey(end.subs[0].cache, KeyOf(m))
  {
    var b := Sent(topic, sent, now);
    NewKey(sent, m, now, cfg.dedupeMaxAgeMs);
    OverlapLosesMessage(cfg, b, topic, m, now);
    end := Final(cfg, b, Overlap(topic, m, now, |sent|));
    NotAmong(sent, m, now);
  }

  lemma VariousBefore(sent: seq<Message>, m: Message, now: Frame.u64)
    requires Various(sent + [m], now)
    ensures Various(sent, now)
  {
    assert forall k :: 0 <= k < |sent| ==> (sent + [m])[k] == sent[k];
  }

  lemma NotAmong(sent: seq<Message>, m: Message, now: Frame.u64)
    requires Various(sent + [m], now)
    ensures forall k :: 0 <= k < |sent| ==> PushesOf(sent, now)[k].Data? && KeyOf(PushesOf(sent, now)[k].message) != KeyOf(m)
  {
    forall k | 0 <= k < |sent| ensures KeyOf(sent[k]) != KeyOf(m) {
      assert KeyOf((sent + [m])[k]) != KeyOf((sent + [m])[|sent|]);
    }
  }

  /** The server's own settings allow such a run. */
  lemma OverlapAtDefaults(topic: string)
    ensures exists sent: seq<Message>, m: Message ::
              && |sent| == DEFAULTS.queueCapacity && Various(sent + [m], 0)
              && var run := SendAll(topic, sent, 0) + Overlap(topic, m, 0, |sent|);
                 Possible(DEFAULTS, Initial(), run) && OkButLost(Final(DEFAULTS, Initial(), run), |sent| + 1)
  {
    var sent := seq(1024, k requires 0 <= k < 1024 => Message(Header60(k), []));
    var m := Message(Header60(1024), []);
    forall k | 0 <= k < 1025 ensures (sent + [m])[k] == Message(Header60(k), []) {
    }
    assert Various(sent + [m], 0);
    OverlapFromInitial(DEFAULTS, topic, sent, m, 0);
  }
}
