/** Who a publish reaches and what it answers, told from the events of a run alone. */
module BusCalls {
  import opened Json
  import opened Dedupe
  import opened Bus
  import opened BusSafety
  import opened BusRetry
  import Frame

  // ----- runs in parts

  lemma {:induction false} RunSplits(cfg: Config, b: Bus, first: seq<Event>, second: seq<Event>)
    requires Possible(cfg, b, first + second)
    ensures Possible(cfg, b, first) && Possible(cfg, Final(cfg, b, first), second)
    ensures Final(cfg, b, first + second) == Final(cfg, Final(cfg, b, first), second)
    decreases first
  {
    if first == [] {
      assert first + second == second;
    } else {
      assert (first + second)[1..] == first[1..] + second && (first + second)[0] == first[0];
      RunSplits(cfg, Next(cfg, b, first[0]), first[1..], second);
    }
  }

  /** How many subscriptions a run makes; the next one gets this number. */
  function Subscriptions(run: seq<Event>): nat {
    if run == [] then 0 else Subscriptions(run[..|run| - 1]) + if run[|run| - 1].Subscribe? then 1 else 0
  }

  /** How many calls of publish a run begins; the next one gets this number. */
  function Calls(run: seq<Event>): nat {
    if run == [] then 0 else Calls(run[..|run| - 1]) + if run[|run| - 1].Begin? then 1 else 0
  }

  lemma {:induction false} Numbered(cfg: Config, run: seq<Event>)
    requires Possible(cfg, Initial(), run)
    ensures |Final(cfg, Initial(), run).subs| == Subscriptions(run) && |Final(cfg, Initial(), run).pubs| == Calls(run)
  {
    if run != [] {
      var before, e := run[..|run| - 1], run[|run| - 1];
      assert run == before + [e];
      RunSplits(cfg, Initial(), before, [e]);
      Numbered(cfg, before);
      LastStep(cfg, Final(cfg, Initial(), before), e);
      StepNumbers(cfg, Final(cfg, Initial(), before), e);
    }
  }

  lemma LastStep(cfg: Config, b: Bus, e: Event)
    requires Possible(cfg, b, [e])
    ensures Enabled(cfg, b, e) && Final(cfg, b, [e]) == Next(cfg, b, e)
  {
    assert [e][1..] == [];
  }

  lemma StepNumbers(cfg: Config, b: Bus, e: Event)
    requires Enabled(cfg, b, e)
    ensures |Next(cfg, b, e).subs| == |b.subs| + if e.Subscribe? then 1 else 0
    ensures |Next(cfg, b, e).pubs| == |b.pubs| + if e.Begin? then 1 else 0
  {
    StepGrows(cfg, b, e);
  }

  // ----- who is listed

  /** The event takes subscriber `x` off its topic: it leaves, the bus shuts down, or a push to it finds it closed. */
  ghost predicate Evicts(cfg: Config, b: Bus, e: Event, x: SubId)
    requires Enabled(cfg, b, e)
  {
    match e
    case Unregister(y) => y == x
    case Shutdown => true
    case Deliver(p, outcome) => outcome.ChannelClosed? && b.pubs[p].todo[0] == x
    case Notify(p, outcome) => outcome.ChannelClosed? && b.pubs[p].notices[0] == x
    case _ => false
  }

  ghost predicate Stays(cfg: Config, b: Bus, run: seq<Event>, x: SubId)
    requires Possible(cfg, b, run)
    decreases run
  {
    run == [] || (!Evicts(cfg, b, run[0], x) && Stays(cfg, Next(cfg, b, run[0]), run[1..], x))
  }

  /** A subscriber that does not leave or close its receiver stays until the bus shuts down. */
  lemma {:induction false} OpenStays(cfg: Config, b: Bus, run: seq<Event>, x: SubId)
    requires Possible(cfg, b, run) && x < |b.subs| && b.subs[x].open
    requires Unregister(x) !in run && CloseReceiver(x) !in run && Shutdown !in run
    ensures Stays(cfg, b, run, x)
    decreases run
  {
    if run != [] {
      OpenStep(cfg, b, run[0], x);
      assert forall e :: e in run[1..] ==> e in run;
      OpenStays(cfg, Next(cfg, b, run[0]), run[1..], x);
    }
  }

  lemma OpenStep(cfg: Config, b: Bus, e: Event, x: SubId)
    requires Enabled(cfg, b, e) && x < |b.subs| && b.subs[x].open
    requires e != Unregister(x) && e != CloseReceiver(x) && e != Shutdown
    ensures !Evicts(cfg, b, e, x) && x < |Next(cfg, b, e).subs| && Next(cfg, b, e).subs[x].open
  {
  }

  ghost predicate Ascending(ids: seq<SubId>) {
    forall i, j :: 0 <= i < j < |ids| ==> ids[i] < ids[j]
  }

  /** Every topic lists subscribers of its own, in the order of their subscriptions. */
  ghost predicate WellListed(b: Bus) {
    forall t :: t in b.topics ==> ListedFor(b, t, b.topics[t])
  }

  ghost predicate ListedFor(b: Bus, t: string, ids: seq<SubId>) {
    Ascending(ids) && forall x :: x in ids ==> x < |b.subs| && b.subs[x].topic == t
  }

  lemma {:induction false} MinusKeeps(ids: seq<SubId>, x: SubId)
    requires Ascending(ids)
    ensures Ascending(Minus(ids, x)) && forall y :: y in Minus(ids, x) <==> y in ids && y != x
  {
    if ids != [] {
      MinusKeeps(ids[1..], x);
      var rest := Minus(ids[1..], x);
      assert ids == [ids[0]] + ids[1..];
      forall k | 0 <= k < |rest| ensures ids[0] < rest[k] {
        assert rest[k] in ids[1..];
      }
    }
  }

  lemma RemovedLists(b: Bus, t: string, topic: string, y: SubId)
    requires WellListed(b)
    ensures var removed := Removed(b.topics, topic, y);
            && (t in removed ==> ListedFor(b, t, removed[t]))
            && forall x :: x in Listed(b, t) && x != y ==> t in removed && x in removed[t]
  {
    if topic in b.topics {
      MinusKeeps(b.topics[topic], y);
    }
  }

  /** What a step does to the list of one topic. */
  lemma StepLists(cfg: Config, b: Bus, e: Event, t: string)
    requires WellListed(b) && Enabled(cfg, b, e)
    ensures t in Next(cfg, b, e).topics ==> ListedFor(Next(cfg, b, e), t, Next(cfg, b, e).topics[t])
    ensures forall x :: x in Listed(b, t) && !Evicts(cfg, b, e, x) ==> x in Listed(Next(cfg, b, e), t)
  {
    SameTopic(cfg, b, e);
    match e
    case Unregister(y) => RemovedLists(b, t, b.subs[y].topic, y);
    case Deliver(p, outcome) => RemovedLists(b, t, b.pubs[p].topic, b.pubs[p].todo[0]);
    case Notify(p, outcome) => RemovedLists(b, t, DROP_TOPIC, b.pubs[p].notices[0]);
    case Subscribe(topic) => SubscribeLists(b, topic);
    case _ =>
  }

  lemma SameTopic(cfg: Config, b: Bus, e: Event)
    requires Enabled(cfg, b, e)
    ensures |b.subs| <= |Next(cfg, b, e).subs| && forall x :: 0 <= x < |b.subs| ==> Next(cfg, b, e).subs[x].topic == b.subs[x].topic
  {
    StepNumbers(cfg, b, e);
  }

  lemma SubscribeLists(b: Bus, topic: string)
    requires WellListed(b)
    ensures var ids := Listed(b, topic) + [|b.subs|];
            Ascending(ids) && forall x :: x in ids <==> x in Listed(b, topic) || x == |b.subs|
  {
    var listed := Listed(b, topic);
    assert forall k :: 0 <= k < |listed| ==> listed[k] in listed;
  }

  lemma {:induction false} RunLists(cfg: Config, b: Bus, run: seq<Event>)
    requires WellListed(b) && Possible(cfg, b, run)
    ensures WellListed(Final(cfg, b, run))
    decreases run
  {
    if run != [] {
      forall t | t in Next(cfg, b, run[0]).topics ensures ListedFor(Next(cfg, b, run[0]), t, Next(cfg, b, run[0]).topics[t]) {
        StepLists(cfg, b, run[0], t);
      }
      RunLists(cfg, Next(cfg, b, run[0]), run[1..]);
    }
  }

  lemma {:induction false} StaysListed(cfg: Config, b: Bus, run: seq<Event>, t: string, x: SubId)
    requires WellListed(b) && Possible(cfg, b, run) && x in Listed(b, t) && Stays(cfg, b, run, x)
    ensures x in Listed(Final(cfg, b, run), t)
    decreases run
  {
    if run != [] {
      StepLists(cfg, b, run[0], t);
      forall u | u in Next(cfg, b, run[0]).topics ensures ListedFor(Next(cfg, b, run[0]), u, Next(cfg, b, run[0]).topics[u]) {
        StepLists(cfg, b, run[0], u);
      }
      StaysListed(cfg, Next(cfg, b, run[0]), run[1..], t, x);
    }
  }

  // ----- whom a publish visits

  /** The call has passed every check and is to be delivered. */
  ghost predicate Accepted(pub: Publication) {
    pub.result.None? && pub.error.None?
  }

  /** A call is accepted exactly on an open bus, from a publisher that may send such a message, before it expires. */
  lemma BeginDecides(cfg: Config, b: Bus, e: Event)
    requires e.Begin?
    ensures var pub, h := Next(cfg, b, e).pubs[|b.pubs|], e.message.header;
            && (Accepted(pub) <==>
                 !b.closed && (h.schemaId == 3006 ==> e.kind in b.deciders) && 0 < h.ttlMs
                 && h.createdAtMs + h.ttlMs <= 0xFFFF_FFFF_FFFF_FFFF && e.now < h.createdAtMs + h.ttlMs)
            && (b.closed ==> pub.result == Some(PublishErr(Closed)))
            && (!b.closed && h.schemaId == 3006 && e.kind !in b.deciders ==> pub.result == Some(PublishErr(Forbidden)))
            && (!Accepted(pub) && pub.result.None? ==>
                 pub.error == Some(MessageExpired) && pub.todo == [] && e.now >= h.createdAtMs + h.ttlMs)
            && pub.topic == e.topic && pub.message == e.message && pub.now == e.now
            && (Accepted(pub) ==> pub.snapshot == pub.todo == Listed(b, e.topic))
            && !pub.holding && pub.pending == []
            && pub.notices == (if pub.error == Some(MessageExpired) && e.emit then Listed(b, "rlp/sys/drops") else [])
            && Next(cfg, b, e).metrics.published == b.metrics.published + (if Accepted(pub) then 1 else 0)
            && Next(cfg, b, e).metrics.dropsTtl == b.metrics.dropsTtl + (if pub.error == Some(MessageExpired) then 1 else 0)
  {
  }

  /**
    * A subscriber is in the snapshot of every accepted publish to its topic that begins after its subscription and
    * before it is taken off: once, as the snapshot lists subscribers of this topic only and in the order in which they came.
    */
  lemma SnapshotReaches(cfg: Config, before: seq<Event>, t: string, between: seq<Event>, e: Event)
    requires e.Begin? && e.topic == t
    requires Possible(cfg, Initial(), before + [Subscribe(t)] + between + [e])
    requires Possible(cfg, Initial(), before + [Subscribe(t)])
    requires Possible(cfg, Final(cfg, Initial(), before + [Subscribe(t)]), between)
    requires Stays(cfg, Final(cfg, Initial(), before + [Subscribe(t)]), between, Subscriptions(before))
    requires var b := Final(cfg, Initial(), before + [Subscribe(t)] + between + [e]);
             |b.pubs| > 0 && Accepted(b.pubs[|b.pubs| - 1])
    ensures var b := Final(cfg, Initial(), before + [Subscribe(t)] + between + [e]);
            var snapshot := b.pubs[|b.pubs| - 1].snapshot;
            && Subscriptions(before) in snapshot && Ascending(snapshot)
            && forall y :: y in snapshot ==> y < |b.subs| && b.subs[y].topic == t
  {
    var first := before + [Subscribe(t)];
    RunSplits(cfg, Initial(), first + between, [e]);
    RunSplits(cfg, Initial(), first, between);
    RunSplits(cfg, Initial(), before, [Subscribe(t)]);
    var b0, b1, b2 := Final(cfg, Initial(), before), Final(cfg, Initial(), first), Final(cfg, Initial(), first + between);
    Numbered(cfg, before);
    LastStep(cfg, b0, Subscribe(t));
    LastStep(cfg, b2, e);
    RunLists(cfg, Initial(), first);
    RunLists(cfg, b1, between);
    StaysListed(cfg, b1, between, t, Subscriptions(before));
    StepNumbers(cfg, b2, e);
    BeginDecides(cfg, b2, e);
    assert Subscriptions(before) in Listed(b2, t);
  }

  // ----- what a publish answers

  /** What later steps leave of a call: message and snapshot, a fault once there is one, and the answer. */
  lemma CallKept(cfg: Config, b: Bus, e: Event, p: PubId)
    requires Enabled(cfg, b, e) && p < |b.pubs|
    ensures p < |Next(cfg, b, e).pubs|
    ensures var pub, pub' := b.pubs[p], Next(cfg, b, e).pubs[p];
            && pub'.message == pub.message && pub'.snapshot == pub.snapshot && pub'.topic == pub.topic
            && (pub.error.Some? ==> pub'.error.Some?)
            && (pub.result.Some? ==> pub'.result == pub.result)
            && (pub.result.None? && pub'.result.Some? ==>
                  pub'.result == Some(if pub.error.Some? then PublishErr(pub.error.value) else PublishOk))
  {
    if !StepOf(e, p) {
      OthersStay(cfg, b, e, p);
    } else if e.Deliver? {
      DeliverFault(cfg, b, p, e.outcome);
    }
  }

  lemma DeliverFault(cfg: Config, b: Bus, p: PubId, outcome: PushResult)
    requires Enabled(cfg, b, Deliver(p, outcome))
    ensures var pub, pub' := b.pubs[p], AfterDeliver(cfg, b, p, outcome).pubs[p];
            && pub'.message == pub.message && pub'.snapshot == pub.snapshot && pub'.topic == pub.topic && pub'.result == pub.result
            && pub'.error == match outcome
                             case Pushed => pub.error
                             case ChannelClosed => if pub.error.None? then Some(Closed) else pub.error
                             case TimedOut => if pub.error.None? || !pub.error.value.BackpressureTimeout? then Some(BackpressureTimeout) else pub.error
  {
  }

  lemma {:induction false} RunCallKept(cfg: Config, b: Bus, run: seq<Event>, p: PubId)
    requires Possible(cfg, b, run) && p < |b.pubs|
    ensures p < |Final(cfg, b, run).pubs|
    ensures var pub, pub' := b.pubs[p], Final(cfg, b, run).pubs[p];
            && pub'.message == pub.message && pub'.snapshot == pub.snapshot && pub'.topic == pub.topic
            && (pub.error.Some? ==> pub'.error.Some?)
            && (pub.result.Some? ==> pub'.result == pub.result)
            && (pub.error.Some? && pub.result.None? ==> pub'.result != Some(PublishOk))
    decreases run
  {
    if run != [] {
      CallKept(cfg, b, run[0], p);
      RunCallKept(cfg, Next(cfg, b, run[0]), run[1..], p);
    }
  }

  /** The worst that happened to a call: it was dropped, or a push timed out, or a receiver was closed. */
  ghost function Verdict(run: seq<Event>, p: PubId): Option<PublishError> {
    if Cancel(p) in run then Some(Cancelled)
    else if Deliver(p, TimedOut) in run then Some(BackpressureTimeout)
    else if Deliver(p, ChannelClosed) in run then Some(Closed)
    else None
  }

  lemma VerdictStep(cfg: Config, b: Bus, run: seq<Event>, e: Event, p: PubId)
    requires Enabled(cfg, b, e) && p < |b.pubs| && b.pubs[p].error == Verdict(run, p)
    requires Cancel(p) in run ==> b.pubs[p].todo == [] && b.pubs[p].notices == []
    ensures p < |Next(cfg, b, e).pubs| && Next(cfg, b, e).pubs[p].error == Verdict(run + [e], p)
    ensures Cancel(p) in run + [e] ==> Next(cfg, b, e).pubs[p].todo == [] && Next(cfg, b, e).pubs[p].notices == []
  {
    if !StepOf(e, p) {
      OthersStay(cfg, b, e, p);
    } else if e.Deliver? {
      DeliverFault(cfg, b, p, e.outcome);
    }
  }

  lemma {:induction false} FaultIsVerdict(cfg: Config, b: Bus, run: seq<Event>, p: PubId)
    requires Possible(cfg, b, run) && p < |b.pubs| && b.pubs[p].error.None?
    ensures p < |Final(cfg, b, run).pubs| && Final(cfg, b, run).pubs[p].error == Verdict(run, p)
    ensures Cancel(p) in run ==> Final(cfg, b, run).pubs[p].todo == [] && Final(cfg, b, run).pubs[p].notices == []
  {
    if run != [] {
      var before, e := run[..|run| - 1], run[|run| - 1];
      assert run == before + [e];
      RunSplits(cfg, b, before, [e]);
      FaultIsVerdict(cfg, b, before, p);
      LastStep(cfg, Final(cfg, b, before), e);
      VerdictStep(cfg, Final(cfg, b, before), before, e, p);
    }
  }

  /** An accepted call answers the worst that happened to it, and Ok if nothing did. */
  lemma {:induction false} AnswerIsVerdict(cfg: Config, b: Bus, run: seq<Event>, p: PubId)
    requires Possible(cfg, b, run) && p < |b.pubs| && Accepted(b.pubs[p])
    ensures p < |Final(cfg, b, run).pubs|
    ensures Final(cfg, b, run).pubs[p].result.Some? ==>
              Final(cfg, b, run).pubs[p].result.value ==
              match Verdict(run, p) case None => PublishOk case Some(error) => PublishErr(error)
  {
    if run != [] {
      var before, e := run[..|run| - 1], run[|run| - 1];
      assert run == before + [e];
      RunSplits(cfg, b, before, [e]);
      AnswerIsVerdict(cfg, b, before, p);
      FaultIsVerdict(cfg, b, before, p);
      FaultIsVerdict(cfg, b, run, p);
      LastStep(cfg, Final(cfg, b, before), e);
      CallKept(cfg, Final(cfg, b, before), e, p);
      AnsweredStays(cfg, Final(cfg, b, before), e, p);
    }
  }

  /** A call that has been answered takes no more steps. */
  lemma AnsweredStays(cfg: Config, b: Bus, e: Event, p: PubId)
    requires Enabled(cfg, b, e) && p < |b.pubs|
    ensures p < |Next(cfg, b, e).pubs| && (b.pubs[p].result.Some? ==> Next(cfg, b, e).pubs[p] == b.pubs[p])
    ensures b.pubs[p].result.None? && Next(cfg, b, e).pubs[p].result.Some? ==> Next(cfg, b, e).pubs[p].error == b.pubs[p].error
  {
    if !StepOf(e, p) {
      OthersStay(cfg, b, e, p);
    }
  }

  // ----- exactly once, by subscription

  /**
    * A message is published again and again, each call begun only when the one before has ended. Take any subscriber
    * to the topic that had come before a call began and was not taken off in between: if that call returns Ok, the
    * subscriber has been sent the message exactly once.
    */
  lemma RetriedReaches(cfg: Config, headers: Key -> Frame.Header, before: seq<Event>, t: string, between: seq<Event>,
                       e: Event, after: seq<Event>)
    requires e.Begin? && e.topic == t
    requires Possible(cfg, Initial(), before + [Subscribe(t)] + between + [e] + after)
    requires RespectsAll(cfg, headers, Initial(), before + [Subscribe(t)] + between + [e] + after)
    requires AllCalledInTurn(cfg, Initial(), before + [Subscribe(t)] + between + [e] + after, KeyOf(e.message))
    requires Possible(cfg, Initial(), before + [Subscribe(t)])
    requires Possible(cfg, Final(cfg, Initial(), before + [Subscribe(t)]), between)
    requires Stays(cfg, Final(cfg, Initial(), before + [Subscribe(t)]), between, Subscriptions(before))
    requires var b, p := Final(cfg, Initial(), before + [Subscribe(t)] + between + [e] + after), Calls(before + [Subscribe(t)] + between);
             p < |b.pubs| && b.pubs[p].result == Some(PublishOk)
    ensures var b, x, key := Final(cfg, Initial(), before + [Subscribe(t)] + between + [e] + after), Subscriptions(before), KeyOf(e.message);
            && Delivered(b, x, key)
            && forall i, j :: 0 <= i < j < |b.subs[x].pushed| && b.subs[x].pushed[i].Data? && b.subs[x].pushed[j].Data? ==>
                 !(KeyOf(b.subs[x].pushed[i].message) == key == KeyOf(b.subs[x].pushed[j].message))
  {
    var prefix := before + [Subscribe(t)] + between;
    RunSplits(cfg, Initial(), prefix + [e], after);
    RunSplits(cfg, Initial(), prefix, [e]);
    var p, b0, b1 := Calls(prefix), Final(cfg, Initial(), prefix), Final(cfg, Initial(), prefix + [e]);
    Numbered(cfg, prefix);
    LastStep(cfg, b0, e);
    StepNumbers(cfg, b0, e);
    BeginDecides(cfg, b0, e);
    RunCallKept(cfg, b1, after, p);
    assert Accepted(b1.pubs[p]);
    SnapshotReaches(cfg, before, t, between, e);
    RetriedExactlyOnce(cfg, headers, prefix + [e] + after, p, Subscriptions(before));
  }
}
