/** Where messages can go: to the subscribers of their topic that were listed when the call began, unchanged, and nowhere else. */
module BusRouting {
  import opened Bus
  import opened BusRetry
  import opened BusCalls

  // ----- calls visit subscribers of their topic

  /** Everyone a call visits subscribes to its topic; everyone it notifies, to the drop topic. */
  ghost predicate Visits(b: Bus, pub: Publication) {
    && ListedFor(b, pub.topic, pub.snapshot)
    && (forall x :: x in pub.todo ==> x in pub.snapshot)
    && (forall x :: x in pub.notices ==> x < |b.subs| && b.subs[x].topic == DROP_TOPIC)
  }

  ghost predicate AllVisit(b: Bus) {
    WellListed(b) && (b.closed ==> b.topics == map[]) && forall p :: 0 <= p < |b.pubs| ==> Visits(b, b.pubs[p])
  }

  lemma VisitsLater(cfg: Config, b: Bus, e: Event, pub: Publication)
    requires Enabled(cfg, b, e) && Visits(b, pub)
    ensures Visits(Next(cfg, b, e), pub)
  {
    SameTopic(cfg, b, e);
  }

  lemma ListedVisits(b: Bus, t: string)
    requires WellListed(b)
    ensures ListedFor(b, t, Listed(b, t))
  {
  }

  lemma BeginVisits(cfg: Config, b: Bus, e: Event)
    requires WellListed(b) && e.Begin?
    ensures Visits(b, Next(cfg, b, e).pubs[|b.pubs|])
  {
    ListedVisits(b, e.topic);
    ListedVisits(b, DROP_TOPIC);
  }

  lemma CallVisits(cfg: Config, b: Bus, e: Event, p: PubId)
    requires WellListed(b) && Enabled(cfg, b, e) && p < |b.pubs| && StepOf(e, p) && Visits(b, b.pubs[p])
    ensures p < |Next(cfg, b, e).pubs| && Visits(b, Next(cfg, b, e).pubs[p])
  {
    ListedVisits(b, DROP_TOPIC);
    CallSame(cfg, b, e, p);
    VisitsLess(cfg, b, e, p);
    var pub, pub' := b.pubs[p], Next(cfg, b, e).pubs[p];
    assert forall x :: x in pub'.todo ==> x in pub.todo;
    assert forall x :: x in pub'.notices ==> x in pub.notices || x in Listed(b, DROP_TOPIC);
  }

  /** A step leaves of the subscribers to visit some of those before, and may list the drop topic to be notified. */
  lemma VisitsLess(cfg: Config, b: Bus, e: Event, p: PubId)
    requires Enabled(cfg, b, e) && p < |b.pubs| && StepOf(e, p)
    ensures p < |Next(cfg, b, e).pubs|
    ensures var pub, pub' := b.pubs[p], Next(cfg, b, e).pubs[p];
            && (pub'.todo == pub.todo || pub'.todo == [] || (pub.todo != [] && pub'.todo == pub.todo[1..]))
            && (pub'.notices == pub.notices || pub'.notices == [] || (pub.notices != [] && pub'.notices == pub.notices[1..])
                || pub'.notices == Listed(b, DROP_TOPIC))
  {
  }

  lemma ClosedIsEmpty(cfg: Config, b: Bus, e: Event)
    requires Enabled(cfg, b, e) && (b.closed ==> b.topics == map[])
    ensures Next(cfg, b, e).closed ==> Next(cfg, b, e).topics == map[]
  {
  }

  lemma StepVisits(cfg: Config, b: Bus, e: Event)
    requires AllVisit(b) && Enabled(cfg, b, e)
    ensures AllVisit(Next(cfg, b, e))
  {
    var b' := Next(cfg, b, e);
    forall t | t in b'.topics ensures ListedFor(b', t, b'.topics[t]) {
      StepLists(cfg, b, e, t);
    }
    ClosedIsEmpty(cfg, b, e);
    StepNumbers(cfg, b, e);
    forall p | 0 <= p < |b'.pubs| ensures Visits(b', b'.pubs[p]) {
      if p == |b.pubs| {
        BeginVisits(cfg, b, e);
      } else if StepOf(e, p) {
        CallVisits(cfg, b, e, p);
      } else {
        OthersStay(cfg, b, e, p);
      }
      VisitsLater(cfg, b, e, b'.pubs[p]);
    }
  }

  lemma {:induction false} RunVisits(cfg: Config, b: Bus, run: seq<Event>)
    requires AllVisit(b) && Possible(cfg, b, run)
    ensures AllVisit(Final(cfg, b, run))
    decreases run
  {
    if run != [] {
      StepVisits(cfg, b, run[0]);
      RunVisits(cfg, Next(cfg, b, run[0]), run[1..]);
    }
  }

  // ----- exactly who is in a snapshot

  /** An evicted subscriber is off the list of every topic. */
  lemma EvictedGone(cfg: Config, b: Bus, e: Event, x: SubId, t: string)
    requires AllVisit(b) && Enabled(cfg, b, e) && x < |b.subs| && Evicts(cfg, b, e, x)
    ensures x !in Listed(Next(cfg, b, e), t)
  {
    RemovedGone(b, x);
    match e
    case Unregister(y) =>
    case Deliver(p, _) =>
      assert Visits(b, b.pubs[p]) && x in b.pubs[p].todo;
    case Notify(p, _) =>
      assert Visits(b, b.pubs[p]) && x in b.pubs[p].notices;
    case Shutdown =>
  }

  lemma RemovedGone(b: Bus, x: SubId)
    requires WellListed(b) && x < |b.subs|
    ensures var topics := Removed(b.topics, b.subs[x].topic, x);
            forall t :: t in topics ==> x !in topics[t]
  {
    var t := b.subs[x].topic;
    if t in b.topics {
      MinusKeeps(b.topics[t], x);
    }
  }

  /** Nobody who came earlier is listed anew. */
  lemma GoneStays(cfg: Config, b: Bus, e: Event, x: SubId, t: string)
    requires WellListed(b) && Enabled(cfg, b, e) && x < |b.subs| && x !in Listed(b, t)
    ensures x !in Listed(Next(cfg, b, e), t)
  {
    match e
    case Unregister(y) => RemovedAdds(b, t, b.subs[y].topic, y);
    case Deliver(p, _) => RemovedAdds(b, t, b.pubs[p].topic, b.pubs[p].todo[0]);
    case Notify(p, _) => RemovedAdds(b, t, DROP_TOPIC, b.pubs[p].notices[0]);
    case _ =>
  }

  lemma RemovedAdds(b: Bus, t: string, topic: string, y: SubId)
    requires WellListed(b)
    ensures t in Removed(b.topics, topic, y) ==> forall x :: x in Removed(b.topics, topic, y)[t] ==> x in Listed(b, t)
  {
    if topic in b.topics {
      MinusKeeps(b.topics[topic], y);
    }
  }

  lemma {:induction false} GoneForGood(cfg: Config, b: Bus, run: seq<Event>, x: SubId, t: string)
    requires AllVisit(b) && Possible(cfg, b, run) && x < |b.subs|
    requires x !in Listed(b, t) || !Stays(cfg, b, run, x)
    ensures x !in Listed(Final(cfg, b, run), t)
    decreases run
  {
    if run != [] {
      StepVisits(cfg, b, run[0]);
      SameTopic(cfg, b, run[0]);
      if x !in Listed(b, t) {
        GoneStays(cfg, b, run[0], x, t);
      } else if Evicts(cfg, b, run[0], x) {
        EvictedGone(cfg, b, run[0], x, t);
      }
      GoneForGood(cfg, Next(cfg, b, run[0]), run[1..], x, t);
    }
  }

  /**
    * An accepted publish to a topic begins with a given earlier subscriber to that topic in its snapshot exactly when
    * the subscriber has not been taken off since it came.
    */
  lemma SnapshotExact(cfg: Config, before: seq<Event>, t: string, between: seq<Event>, e: Event)
    requires e.Begin? && e.topic == t
    requires Possible(cfg, Initial(), before + [Subscribe(t)] + between + [e])
    requires Possible(cfg, Initial(), before + [Subscribe(t)])
    requires Possible(cfg, Final(cfg, Initial(), before + [Subscribe(t)]), between)
    requires var b := Final(cfg, Initial(), before + [Subscribe(t)] + between + [e]);
             |b.pubs| > 0 && Accepted(b.pubs[|b.pubs| - 1])
    ensures var b := Final(cfg, Initial(), before + [Subscribe(t)] + between + [e]);
            Subscriptions(before) in b.pubs[|b.pubs| - 1].snapshot <==>
              Stays(cfg, Final(cfg, Initial(), before + [Subscribe(t)]), between, Subscriptions(before))
  {
    var first := before + [Subscribe(t)];
    var x, b1 := Subscriptions(before), Final(cfg, Initial(), first);
    if Stays(cfg, b1, between, x) {
      SnapshotReaches(cfg, before, t, between, e);
    } else {
      RunSplits(cfg, Initial(), first + between, [e]);
      RunSplits(cfg, Initial(), first, between);
      RunVisits(cfg, Initial(), first);
      Numbered(cfg, first);
      assert first[..|first| - 1] == before;
      GoneForGood(cfg, b1, between, x, t);
      var b2 := Final(cfg, Initial(), first + between);
      LastStep(cfg, b2, e);
      StepNumbers(cfg, b2, e);
      BeginDecides(cfg, b2, e);
    }
  }

  /**
    * By the events alone: a subscriber that neither leaves nor closes its receiver is in the snapshot of every accepted
    * publish to its topic, exactly once and behind those that came before it, as long as the bus is not shut down.
    */
  lemma OpenReached(cfg: Config, before: seq<Event>, t: string, between: seq<Event>, e: Event)
    requires e.Begin? && e.topic == t
    requires Possible(cfg, Initial(), before + [Subscribe(t)] + between + [e])
    requires Unregister(Subscriptions(before)) !in between && CloseReceiver(Subscriptions(before)) !in between && Shutdown !in between
    requires var b := Final(cfg, Initial(), before + [Subscribe(t)] + between + [e]);
             |b.pubs| > 0 && Accepted(b.pubs[|b.pubs| - 1])
    ensures var b := Final(cfg, Initial(), before + [Subscribe(t)] + between + [e]);
            var snapshot := b.pubs[|b.pubs| - 1].snapshot;
            Subscriptions(before) in snapshot && forall i, j :: 0 <= i < j < |snapshot| ==> snapshot[i] < snapshot[j]
  {
    var first := before + [Subscribe(t)];
    RunSplits(cfg, Initial(), first + between, [e]);
    RunSplits(cfg, Initial(), first, between);
    RunSplits(cfg, Initial(), before, [Subscribe(t)]);
    Numbered(cfg, before);
    LastStep(cfg, Final(cfg, Initial(), before), Subscribe(t));
    OpenStays(cfg, Final(cfg, Initial(), first), between, Subscriptions(before));
    SnapshotReaches(cfg, before, t, between, e);
  }

  // ----- what reaches a queue

  /** A push is a drop notice to a subscriber of the drop topic, or the message of a call that had the subscriber in its snapshot. */
  ghost predicate Sent(b: Bus, x: SubId, push: Push)
    requires x < |b.subs|
  {
    match push
    case Notice => b.subs[x].topic == DROP_TOPIC
    case Data(message, at) => exists p :: SentBy(b, x, message, at, p)
  }

  ghost predicate SentBy(b: Bus, x: SubId, message: Message, at: nat, p: int) {
    0 <= p < |b.pubs| && b.pubs[p].message == message && b.pubs[p].now == at && x in b.pubs[p].snapshot
  }

  ghost predicate AllSent(b: Bus) {
    forall x, k :: 0 <= x < |b.subs| && 0 <= k < |b.subs[x].pushed| ==> Sent(b, x, b.subs[x].pushed[k])
  }

  lemma SentLater(cfg: Config, b: Bus, e: Event, x: SubId, push: Push)
    requires Enabled(cfg, b, e) && x < |b.subs| && Sent(b, x, push)
    ensures x < |Next(cfg, b, e).subs| && Sent(Next(cfg, b, e), x, push)
  {
    SameTopic(cfg, b, e);
    if push.Data? {
      var p :| SentBy(b, x, push.message, push.publishedAt, p);
      CallSame(cfg, b, e, p);
      assert SentBy(Next(cfg, b, e), x, push.message, push.publishedAt, p);
    }
  }

  lemma CallSame(cfg: Config, b: Bus, e: Event, p: PubId)
    requires Enabled(cfg, b, e) && p < |b.pubs|
    ensures p < |Next(cfg, b, e).pubs|
    ensures var pub, pub' := b.pubs[p], Next(cfg, b, e).pubs[p];
            pub'.message == pub.message && pub'.now == pub.now && pub'.snapshot == pub.snapshot && pub'.topic == pub.topic
  {
    if !StepOf(e, p) {
      OthersStay(cfg, b, e, p);
    }
  }

  /** What a step adds to a queue's history: nothing, or the one push that this step makes. */
  lemma PushAdded(cfg: Config, b: Bus, e: Event, x: SubId)
    requires Enabled(cfg, b, e) && x < |Next(cfg, b, e).subs|
    ensures var pushed := Next(cfg, b, e).subs[x].pushed;
            || (x < |b.subs| && pushed == b.subs[x].pushed) || (x == |b.subs| && pushed == [])
            || (e.Deliver? && x < |b.subs| && x == b.pubs[e.p].todo[0]
                && pushed == b.subs[x].pushed + [Data(b.pubs[e.p].message, b.pubs[e.p].now)])
            || (e.Notify? && x < |b.subs| && x == b.pubs[e.p].notices[0] && pushed == b.subs[x].pushed + [Notice])
  {
  }

  lemma NewPushSent(cfg: Config, b: Bus, e: Event)
    requires AllVisit(b) && Enabled(cfg, b, e)
    ensures e.Deliver? ==> Sent(b, b.pubs[e.p].todo[0], Data(b.pubs[e.p].message, b.pubs[e.p].now))
    ensures e.Notify? ==> Sent(b, b.pubs[e.p].notices[0], Notice)
  {
    if e.Deliver? || e.Notify? {
      assert Visits(b, b.pubs[e.p]);
      if e.Deliver? {
        assert SentBy(b, b.pubs[e.p].todo[0], b.pubs[e.p].message, b.pubs[e.p].now, e.p);
      }
    }
  }

  lemma StepSends(cfg: Config, b: Bus, e: Event)
    requires AllVisit(b) && AllSent(b) && Enabled(cfg, b, e)
    ensures AllSent(Next(cfg, b, e))
  {
    var b' := Next(cfg, b, e);
    NewPushSent(cfg, b, e);
    forall x, k | 0 <= x < |b'.subs| && 0 <= k < |b'.subs[x].pushed| ensures Sent(b', x, b'.subs[x].pushed[k]) {
      PushAdded(cfg, b, e, x);
      assert x < |b.subs|;
      if k < |b.subs[x].pushed| {
        assert b'.subs[x].pushed[k] == b.subs[x].pushed[k];
      }
      SentLater(cfg, b, e, x, b'.subs[x].pushed[k]);
    }
  }

  lemma {:induction false} RunSends(cfg: Config, b: Bus, run: seq<Event>)
    requires AllVisit(b) && AllSent(b) && Possible(cfg, b, run)
    ensures AllVisit(Final(cfg, b, run)) && AllSent(Final(cfg, b, run))
    decreases run
  {
    if run != [] {
      StepVisits(cfg, b, run[0]);
      StepSends(cfg, b, run[0]);
      RunSends(cfg, Next(cfg, b, run[0]), run[1..]);
    }
  }

  /**
    * Over every run, whatever was put on a subscriber's queue is a drop notice, and then it subscribes to the drop
    * topic, or the unchanged message of some publish to its own topic.
    */
  lemma OnlyPublished(cfg: Config, run: seq<Event>, x: SubId, k: nat)
    requires Possible(cfg, Initial(), run)
    requires x < |Final(cfg, Initial(), run).subs| && k < |Final(cfg, Initial(), run).subs[x].pushed|
    ensures var b := Final(cfg, Initial(), run);
            match b.subs[x].pushed[k]
            case Notice => b.subs[x].topic == "rlp/sys/drops"
            case Data(message, at) =>
              exists p :: 0 <= p < |b.pubs| && b.pubs[p].message == message && b.pubs[p].now == at
                          && b.pubs[p].topic == b.subs[x].topic
  {
    var b := Final(cfg, Initial(), run);
    RunSends(cfg, Initial(), run);
    assert Sent(b, x, b.subs[x].pushed[k]);
    if b.subs[x].pushed[k].Data? {
      var p :| SentBy(b, x, b.subs[x].pushed[k].message, b.subs[x].pushed[k].publishedAt, p);
      assert Visits(b, b.pubs[p]);
    }
  }

  // ----- the switches of the bus

  /** The kinds allowed to send decisions: those last configured, or the two user interfaces. */
  ghost function Allowed(run: seq<Event>): set<PublisherKind> {
    if run == [] then {Ui, Tui}
    else if run[|run| - 1].Configure? then run[|run| - 1].kinds
    else Allowed(run[..|run| - 1])
  }

  /** The bus is closed exactly after a shutdown, and lets decisions through as last configured. */
  lemma {:induction false} SwitchesExact(cfg: Config, run: seq<Event>)
    requires Possible(cfg, Initial(), run)
    ensures Final(cfg, Initial(), run).closed <==> Shutdown in run
    ensures Final(cfg, Initial(), run).deciders == Allowed(run)
  {
    if run != [] {
      var before, e := run[..|run| - 1], run[|run| - 1];
      assert run == before + [e];
      RunSplits(cfg, Initial(), before, [e]);
      SwitchesExact(cfg, before);
      LastStep(cfg, Final(cfg, Initial(), before), e);
      SwitchStep(cfg, Final(cfg, Initial(), before), e);
    }
  }

  lemma SwitchStep(cfg: Config, b: Bus, e: Event)
    requires Enabled(cfg, b, e)
    ensures Next(cfg, b, e).closed <==> b.closed || e == Shutdown
    ensures Next(cfg, b, e).deciders == if e.Configure? then e.kinds else b.deciders
  {
  }
}
