/** Exactly-once delivery of a message published one call at a time until a call succeeds. */
module BusRetry {
  import opened Json
  import opened Dedupe
  import opened Bus
  import opened BusSafety
  import Frame

  ghost predicate Delivered(b: Bus, x: SubId, key: Key) {
    x < |b.subs| && exists i :: 0 <= i < |b.subs[x].pushed| && b.subs[x].pushed[i].Data? && KeyOf(b.subs[x].pushed[i].message) == key
  }

  /** No publication holds a reservation of `key` at `x`. */
  ghost predicate Unheld(b: Bus, x: SubId, key: Key) {
    forall p :: 0 <= p < |b.pubs| && KeyOf(b.pubs[p].message) == key ==> !Holds(b.pubs[p], x)
  }

  /** A live message finds its key in the pruned cache exactly when something claims the key. */
  lemma CachedIffClaimed(cfg: Config, headers: Key -> Frame.Header, b: Bus, p: PubId)
    requires Inv(cfg, headers, b) && Enabled(cfg, b, Event.Reserve(p)) && b.subs[b.pubs[p].todo[0]].lastReserve <= b.pubs[p].now
    ensures Duplicate(cfg, b, p) <==> exists c :: ClaimsKey(b, b.pubs[p].todo[0], c, KeyOf(b.pubs[p].message))
  {
    var pub := b.pubs[p];
    var x, key := pub.todo[0], KeyOf(pub.message);
    var kept := Pruned(b.subs[x].cache, pub.now, cfg.dedupeMaxAgeMs);
    assert SubscriberInv(cfg, headers, b, x) && PublicationInv(headers, b, pub);
    PrunedExact(b.subs[x].cache, b.subs[x].lastReserve, pub.now, cfg.dedupeMaxAgeMs);
    if Duplicate(cfg, b, p) {
      var k :| 0 <= k < |kept| && kept[k].key == key;
      assert kept[k] in kept && Claimed(b, x, kept[k]);
      var c :| Claims(b, x, c) && kept[k] == Entry(KeyOf(MessageOf(b, x, c)), BusSafety.TimeOf(b, x, c));
      assert ClaimsKey(b, x, c, key);
    } else {
      forall c ensures !ClaimsKey(b, x, c, key) {
        if Claims(b, x, c) {
          NoOtherClaim(cfg, headers, b, x, pub.message, pub.now, c);
        }
      }
    }
  }

  /** The reservation that publication `p` makes next is refused. */
  ghost predicate Duplicate(cfg: Config, b: Bus, p: PubId)
    requires Enabled(cfg, b, Event.Reserve(p))
  {
    HasKey(Pruned(b.subs[b.pubs[p].todo[0]].cache, b.pubs[p].now, cfg.dedupeMaxAgeMs), KeyOf(b.pubs[p].message))
  }

  ghost predicate ClaimsKey(b: Bus, x: SubId, c: Claim, key: Key)
    requires x < |b.subs|
  {
    Claims(b, x, c) && KeyOf(MessageOf(b, x, c)) == key
  }

  /** While nobody holds the key, a live message is refused as a duplicate exactly when it has been delivered. */
  lemma DuplicateIffDelivered(cfg: Config, headers: Key -> Frame.Header, b: Bus, p: PubId)
    requires Inv(cfg, headers, b) && Enabled(cfg, b, Event.Reserve(p)) && b.subs[b.pubs[p].todo[0]].lastReserve <= b.pubs[p].now
    requires Unheld(b, b.pubs[p].todo[0], KeyOf(b.pubs[p].message))
    ensures Duplicate(cfg, b, p) <==> Delivered(b, b.pubs[p].todo[0], KeyOf(b.pubs[p].message))
  {
    var x, key := b.pubs[p].todo[0], KeyOf(b.pubs[p].message);
    CachedIffClaimed(cfg, headers, b, p);
    DeliveredClaims(b, x, key);
    if Duplicate(cfg, b, p) {
      var c :| ClaimsKey(b, x, c, key);
      assert c.ByPush?;
    }
  }

  /** When somebody holds the key, the message is refused and has not been delivered. */
  lemma HeldMisleads(cfg: Config, headers: Key -> Frame.Header, b: Bus, p: PubId)
    requires Inv(cfg, headers, b) && Enabled(cfg, b, Event.Reserve(p)) && b.subs[b.pubs[p].todo[0]].lastReserve <= b.pubs[p].now
    requires !Unheld(b, b.pubs[p].todo[0], KeyOf(b.pubs[p].message))
    ensures Duplicate(cfg, b, p) && !Delivered(b, b.pubs[p].todo[0], KeyOf(b.pubs[p].message))
  {
    var x, key := b.pubs[p].todo[0], KeyOf(b.pubs[p].message);
    CachedIffClaimed(cfg, headers, b, p);
    var q :| 0 <= q < |b.pubs| && KeyOf(b.pubs[q].message) == key && Holds(b.pubs[q], x);
    assert ClaimsKey(b, x, ByPub(q), key);
    assert SubscriberInv(cfg, headers, b, x);
    forall i: nat ensures !ClaimsKey(b, x, ByPush(i), key) {
    }
    DeliveredClaims(b, x, key);
  }

  lemma DeliveredClaims(b: Bus, x: SubId, key: Key)
    requires x < |b.subs|
    ensures Delivered(b, x, key) ==> exists i: nat :: ClaimsKey(b, x, ByPush(i), key)
  {
    if Delivered(b, x, key) {
      var i :| 0 <= i < |b.subs[x].pushed| && b.subs[x].pushed[i].Data? && KeyOf(b.subs[x].pushed[i].message) == key;
      assert ClaimsKey(b, x, ByPush(i), key);
    }
  }

  /** The duplicate check tells whether the message has been delivered if and only if nobody holds its key. */
  lemma DuplicateExact(cfg: Config, headers: Key -> Frame.Header, b: Bus, p: PubId)
    requires Inv(cfg, headers, b) && Enabled(cfg, b, Event.Reserve(p)) && b.subs[b.pubs[p].todo[0]].lastReserve <= b.pubs[p].now
    ensures (Duplicate(cfg, b, p) <==> Delivered(b, b.pubs[p].todo[0], KeyOf(b.pubs[p].message)))
            <==> Unheld(b, b.pubs[p].todo[0], KeyOf(b.pubs[p].message))
  {
    if Unheld(b, b.pubs[p].todo[0], KeyOf(b.pubs[p].message)) {
      DuplicateIffDelivered(cfg, headers, b, p);
    } else {
      HeldMisleads(cfg, headers, b, p);
    }
  }

  // ----- one call at a time

  /** When a publication of `key` reserves a subscriber, no publication holds the key there. */
  ghost predicate OneAtATime(b: Bus, e: Event, key: Key) {
    e.Reserve? && e.p < |b.pubs| && b.pubs[e.p].todo != [] && KeyOf(b.pubs[e.p].message) == key ==>
      Unheld(b, b.pubs[e.p].todo[0], key)
  }

  ghost predicate AllOneAtATime(cfg: Config, b: Bus, run: seq<Event>, key: Key)
    requires Possible(cfg, b, run)
    decreases run
  {
    run == [] || (OneAtATime(b, run[0], key) && AllOneAtATime(cfg, Next(cfg, b, run[0]), run[1..], key))
  }

  /** Calls: a key is published only when every earlier call with that key has ended. */
  ghost predicate CalledInTurn(b: Bus, e: Event, key: Key) {
    e.Begin? && KeyOf(e.message) == key ==> forall p :: 0 <= p < |b.pubs| && KeyOf(b.pubs[p].message) == key ==> b.pubs[p].result.Some?
  }

  ghost predicate AllCalledInTurn(cfg: Config, b: Bus, run: seq<Event>, key: Key)
    requires Possible(cfg, b, run)
    decreases run
  {
    run == [] || (CalledInTurn(b, run[0], key) && AllCalledInTurn(cfg, Next(cfg, b, run[0]), run[1..], key))
  }

  /** At most one publication of the key is running, and one that has ended holds nothing. */
  ghost predicate InTurn(b: Bus, key: Key) {
    && (forall p, q :: 0 <= p < q < |b.pubs| && KeyOf(b.pubs[p].message) == key == KeyOf(b.pubs[q].message) ==>
                         b.pubs[p].result.Some? || b.pubs[q].result.Some?)
    && (forall p :: 0 <= p < |b.pubs| ==> EndedFree(b.pubs[p]))
  }

  ghost predicate EndedFree(pub: Publication) {
    (pub.holding ==> pub.todo != []) && (pub.result.Some? ==> pub.todo == [] && pub.pending == [])
  }

  lemma BeginInTurn(cfg: Config, b: Bus, e: Event, key: Key)
    requires InTurn(b, key) && e.Begin? && CalledInTurn(b, e, key)
    ensures InTurn(Next(cfg, b, e), key)
  {
    var b' := Next(cfg, b, e);
    assert b'.pubs[|b.pubs|].message == e.message && EndedFree(b'.pubs[|b.pubs|]);
    assert forall p :: 0 <= p < |b.pubs| ==> b'.pubs[p] == b.pubs[p];
  }

  /** The event is a step of this publication. */
  predicate StepOf(e: Event, p: PubId) {
    match e
    case Reserve(q) => q == p
    case Wait(q) => q == p
    case Deliver(q, _) => q == p
    case Notify(q, _) => q == p
    case Rollback(q) => q == p
    case Finish(q) => q == p
    case Cancel(q) => q == p
    case _ => false
  }

  lemma OthersStay(cfg: Config, b: Bus, e: Event, p: PubId)
    requires Enabled(cfg, b, e) && p < |b.pubs| && !StepOf(e, p)
    ensures p < |Next(cfg, b, e).pubs| && Next(cfg, b, e).pubs[p] == b.pubs[p]
  {
  }

  lemma DeliverEnds(cfg: Config, b: Bus, p: PubId, outcome: PushResult)
    requires Enabled(cfg, b, Deliver(p, outcome)) && EndedFree(b.pubs[p])
    ensures EndedFree(AfterDeliver(cfg, b, p, outcome).pubs[p])
    ensures AfterDeliver(cfg, b, p, outcome).pubs[p].message == b.pubs[p].message
  {
  }

  lemma OwnEnds(cfg: Config, b: Bus, e: Event, p: PubId)
    requires Enabled(cfg, b, e) && StepOf(e, p) && EndedFree(b.pubs[p]) && !e.Deliver?
    ensures p < |b.pubs| == |Next(cfg, b, e).pubs|
    ensures var pub' := Next(cfg, b, e).pubs[p]; EndedFree(pub') && pub'.message == b.pubs[p].message
  {
  }

  /** A step changes one publication at most, and ends none that still holds something. */
  lemma StepEnds(cfg: Config, b: Bus, e: Event, p: PubId)
    requires Enabled(cfg, b, e) && !e.Begin? && p < |b.pubs| && EndedFree(b.pubs[p])
    ensures p < |Next(cfg, b, e).pubs|
    ensures var pub' := Next(cfg, b, e).pubs[p];
            EndedFree(pub') && pub'.message == b.pubs[p].message && (b.pubs[p].result.Some? ==> pub'.result.Some?)
  {
    if !StepOf(e, p) {
      OthersStay(cfg, b, e, p);
    } else if e.Deliver? {
      DeliverEnds(cfg, b, p, e.outcome);
    } else {
      OwnEnds(cfg, b, e, p);
    }
  }

  lemma StepInTurn(cfg: Config, headers: Key -> Frame.Header, b: Bus, e: Event, key: Key)
    requires Inv(cfg, headers, b) && Enabled(cfg, b, e) && InTurn(b, key) && CalledInTurn(b, e, key)
    ensures InTurn(Next(cfg, b, e), key) && OneAtATime(b, e, key)
  {
    if e.Begin? {
      BeginInTurn(cfg, b, e, key);
    } else {
      var b' := Next(cfg, b, e);
      StepGrows(cfg, b, e);
      forall p | 0 <= p < |b.pubs|
        ensures p < |b'.pubs| && EndedFree(b'.pubs[p]) && b'.pubs[p].message == b.pubs[p].message
                && (b.pubs[p].result.Some? ==> b'.pubs[p].result.Some?)
      {
        StepEnds(cfg, b, e, p);
      }
      if e.Reserve? && KeyOf(b.pubs[e.p].message) == key {
        RunningAlone(cfg, headers, b, e.p);
      }
    }
  }

  /** The only running publication of a key finds nobody holding it at its next subscriber. */
  lemma RunningAlone(cfg: Config, headers: Key -> Frame.Header, b: Bus, p: PubId)
    requires Inv(cfg, headers, b) && Enabled(cfg, b, Event.Reserve(p)) && InTurn(b, KeyOf(b.pubs[p].message))
    ensures Unheld(b, b.pubs[p].todo[0], KeyOf(b.pubs[p].message))
  {
    var pub := b.pubs[p];
    var x := pub.todo[0];
    assert PublicationInv(headers, b, pub);
    var visits := pub.pending + pub.todo;
    assert visits[|pub.pending|] == x && forall k :: 0 <= k < |pub.pending| ==> visits[k] == pub.pending[k];
    forall q | 0 <= q < |b.pubs| && KeyOf(b.pubs[q].message) == KeyOf(pub.message) ensures !Holds(b.pubs[q], x) {
      assert q != p ==> b.pubs[q].result.Some?;
      assert EndedFree(b.pubs[q]);
    }
  }

  /** One call at a time, as callers see it, is one reservation at a time. */
  lemma {:induction false} InTurnSuffices(cfg: Config, headers: Key -> Frame.Header, b: Bus, run: seq<Event>, key: Key)
    requires Inv(cfg, headers, b) && InTurn(b, key)
    requires Possible(cfg, b, run) && RespectsAll(cfg, headers, b, run) && AllCalledInTurn(cfg, b, run, key)
    ensures AllOneAtATime(cfg, b, run, key)
    decreases run
  {
    if run != [] {
      StepKeeps(cfg, headers, b, run[0]);
      StepInTurn(cfg, headers, b, run[0], key);
      InTurnSuffices(cfg, headers, Next(cfg, b, run[0]), run[1..], key);
    }
  }

  ghost function Visited(pub: Publication): int {
    |pub.snapshot| - |pub.todo|
  }

  /** As long as a publication has no error, every subscriber it has finished with has the message. */
  ghost predicate Served(b: Bus, pub: Publication) {
    && Visited(pub) >= 0 && pub.todo == pub.snapshot[Visited(pub)..]
    && (pub.error.None? ==> forall k :: 0 <= k < Visited(pub) ==> Delivered(b, pub.snapshot[k], KeyOf(pub.message)))
    && (pub.result == Some(PublishOk) ==> pub.error.None? && pub.todo == [])
  }

  ghost predicate AllServed(b: Bus, key: Key) {
    forall p :: 0 <= p < |b.pubs| && KeyOf(b.pubs[p].message) == key ==> Served(b, b.pubs[p])
  }

  /** Deliveries are never taken back. */
  ghost predicate Grows(b: Bus, b': Bus) {
    |b.subs| <= |b'.subs| && forall x :: 0 <= x < |b.subs| ==> b.subs[x].pushed <= b'.subs[x].pushed
  }

  lemma DeliveredStays(b: Bus, b': Bus, x: SubId, key: Key)
    requires Grows(b, b') && Delivered(b, x, key)
    ensures Delivered(b', x, key)
  {
    var i :| 0 <= i < |b.subs[x].pushed| && b.subs[x].pushed[i].Data? && KeyOf(b.subs[x].pushed[i].message) == key;
    assert b'.subs[x].pushed[i] == b.subs[x].pushed[i];
  }

  lemma ServedStays(b: Bus, b': Bus, pub: Publication)
    requires Grows(b, b') && Served(b, pub)
    ensures Served(b', pub)
  {
    if pub.error.None? {
      forall k | 0 <= k < Visited(pub) ensures Delivered(b', pub.snapshot[k], KeyOf(pub.message)) {
        DeliveredStays(b, b', pub.snapshot[k], KeyOf(pub.message));
      }
    }
  }

  /** At most one subscriber is replaced, by one that has been pushed no less. */
  lemma OneGrows(b: Bus, b': Bus, x: SubId)
    requires x < |b.subs| == |b'.subs| && b'.subs == b.subs[x := b'.subs[x]] && b.subs[x].pushed <= b'.subs[x].pushed
    ensures Grows(b, b')
  {
  }

  lemma PublicationStepGrows(cfg: Config, b: Bus, e: Event)
    requires Enabled(cfg, b, e) && (e.Reserve? || e.Deliver? || e.Notify? || e.Rollback?)
    ensures Grows(b, Next(cfg, b, e)) && |Next(cfg, b, e).pubs| == |b.pubs|
  {
    var pub, b' := b.pubs[e.p], Next(cfg, b, e);
    var x := if e.Notify? then pub.notices[0] else if e.Rollback? then pub.pending[0] else pub.todo[0];
    if b'.subs == b.subs {
      assert b'.subs == b.subs[x := b.subs[x]];
    }
    OneGrows(b, b', x);
  }

  lemma StepGrows(cfg: Config, b: Bus, e: Event)
    requires Enabled(cfg, b, e)
    ensures Grows(b, Next(cfg, b, e)) && |Next(cfg, b, e).pubs| == |b.pubs| + if e.Begin? then 1 else 0
  {
    if e.Reserve? || e.Deliver? || e.Notify? || e.Rollback? {
      PublicationStepGrows(cfg, b, e);
    } else if e.Receive? || e.CloseReceiver? {
      OneGrows(b, Next(cfg, b, e), e.x);
    }
  }

  /** Moving on to the next subscriber, which has the message or has caused an error. */
  lemma ServedMovesOn(b: Bus, b': Bus, pub: Publication, pub': Publication)
    requires Grows(b, b') && Served(b, pub) && pub.todo != [] && pub.result.None?
    requires pub' == pub.(todo := pub.todo[1..], holding := pub'.holding, waiting := pub'.waiting, notices := pub'.notices,
                          pending := pub'.pending, error := pub'.error, closedCount := pub'.closedCount)
    requires pub'.error.None? ==> pub.error.None? && Delivered(b', pub.todo[0], KeyOf(pub.message))
    ensures Served(b', pub')
  {
    var v := Visited(pub);
    assert pub.snapshot[v] == pub.todo[0];
    assert pub.snapshot[v + 1..] == pub.todo[1..];
    if pub'.error.None? {
      forall k | 0 <= k < v + 1 ensures Delivered(b', pub.snapshot[k], KeyOf(pub.message)) {
        if k < v {
          DeliveredStays(b, b', pub.snapshot[k], KeyOf(pub.message));
        }
      }
    }
  }

  /** The publication an event belongs to stays served. */
  lemma OwnStepServes(cfg: Config, headers: Key -> Frame.Header, b: Bus, e: Event, p: PubId)
    requires Inv(cfg, headers, b) && Enabled(cfg, b, e) && Respects(cfg, headers, b, e)
    requires p < |b.pubs| && Served(b, b.pubs[p]) && OneAtATime(b, e, KeyOf(b.pubs[p].message))
    requires e == Event.Reserve(p) || (e.Deliver? && e.p == p)
    ensures Served(Next(cfg, b, e), Next(cfg, b, e).pubs[p])
  {
    if e.Reserve? {
      ReserveServes(cfg, headers, b, p);
    } else {
      DeliverServes(cfg, b, p, e.outcome);
    }
  }

  lemma ReserveServes(cfg: Config, headers: Key -> Frame.Header, b: Bus, p: PubId)
    requires Inv(cfg, headers, b) && Enabled(cfg, b, Event.Reserve(p)) && Respects(cfg, headers, b, Event.Reserve(p))
    requires Served(b, b.pubs[p]) && OneAtATime(b, Event.Reserve(p), KeyOf(b.pubs[p].message))
    ensures Served(AfterReserve(cfg, b, p), AfterReserve(cfg, b, p).pubs[p])
  {
    StepGrows(cfg, b, Event.Reserve(p));
    var b', pub := AfterReserve(cfg, b, p), b.pubs[p];
    DuplicateIffDelivered(cfg, headers, b, p);
    if Duplicate(cfg, b, p) {
      DeliveredStays(b, b', pub.todo[0], KeyOf(pub.message));
      ServedMovesOn(b, b', pub, b'.pubs[p]);
    } else {
      ServedStays(b, b', pub);
    }
  }

  lemma DeliverServes(cfg: Config, b: Bus, p: PubId, outcome: PushResult)
    requires Enabled(cfg, b, Deliver(p, outcome)) && Served(b, b.pubs[p])
    ensures Served(AfterDeliver(cfg, b, p, outcome), AfterDeliver(cfg, b, p, outcome).pubs[p])
  {
    StepGrows(cfg, b, Deliver(p, outcome));
    var b', pub := AfterDeliver(cfg, b, p, outcome), b.pubs[p];
    var x := pub.todo[0];
    if outcome.Pushed? {
      assert b'.subs[x].pushed[|b.subs[x].pushed|] == Data(pub.message, pub.now);
    }
    ServedMovesOn(b, b', pub, b'.pubs[p]);
  }

  /** What other events leave of publication `p`: its place in the snapshot, unless its caller drops it. */
  lemma OtherStepLeaves(cfg: Config, b: Bus, e: Event, p: PubId)
    requires Enabled(cfg, b, e) && p < |b.pubs| && p < |Next(cfg, b, e).pubs|
    requires e != Event.Reserve(p) && !(e.Deliver? && e.p == p) && e != Cancel(p)
    ensures var pub, pub' := b.pubs[p], Next(cfg, b, e).pubs[p];
            && pub' == pub.(notices := pub'.notices, pending := pub'.pending, waiting := pub'.waiting, result := pub'.result)
            && (pub'.result == Some(PublishOk) ==> pub.result == Some(PublishOk) || (pub.error.None? && pub.todo == []))
  {
    if !StepOf(e, p) {
      OthersStay(cfg, b, e, p);
    }
  }

  /** Events that do not move publication `p` to another subscriber leave it served. */
  lemma OtherStepServes(cfg: Config, b: Bus, e: Event, p: PubId)
    requires Enabled(cfg, b, e) && p < |b.pubs| && Served(b, b.pubs[p])
    requires e != Event.Reserve(p) && !(e.Deliver? && e.p == p)
    ensures p < |Next(cfg, b, e).pubs| && Served(Next(cfg, b, e), Next(cfg, b, e).pubs[p])
  {
    StepGrows(cfg, b, e);
    if e == Cancel(p) {
      DroppedServed(Next(cfg, b, e), Next(cfg, b, e).pubs[p]);
    } else {
      ServedStays(b, Next(cfg, b, e), b.pubs[p]);
      OtherStepLeaves(cfg, b, e, p);
    }
  }

  lemma DroppedServed(b: Bus, pub: Publication)
    requires pub.todo == [] && pub.error.Some? && pub.result.None?
    ensures Served(b, pub)
  {
  }

  lemma NewPublication(cfg: Config, b: Bus, e: Event)
    requires e.Begin?
    ensures var b' := Next(cfg, b, e);
            && |b'.pubs| == |b.pubs| + 1
            && b'.pubs[|b.pubs|].todo == b'.pubs[|b.pubs|].snapshot
            && b'.pubs[|b.pubs|].result != Some(PublishOk)
  {
  }

  lemma UnvisitedServed(b: Bus, pub: Publication)
    requires pub.todo == pub.snapshot && pub.result != Some(PublishOk)
    ensures Served(b, pub)
  {
    assert Visited(pub) == 0 && pub.snapshot[0..] == pub.snapshot;
  }

  /** Every event leaves every publication served. */
  lemma StepServes(cfg: Config, headers: Key -> Frame.Header, b: Bus, e: Event, key: Key)
    requires Inv(cfg, headers, b) && Enabled(cfg, b, e) && Respects(cfg, headers, b, e)
    requires AllServed(b, key) && OneAtATime(b, e, key)
    ensures AllServed(Next(cfg, b, e), key)
  {
    var b' := Next(cfg, b, e);
    StepGrows(cfg, b, e);
    forall p | 0 <= p < |b'.pubs| && KeyOf(b'.pubs[p].message) == key ensures Served(b', b'.pubs[p]) {
      if p >= |b.pubs| {
        NewPublication(cfg, b, e);
        UnvisitedServed(b', b'.pubs[p]);
      } else {
        SameMessage(cfg, b, e, p);
        if e == Event.Reserve(p) || (e.Deliver? && e.p == p) {
          OwnStepServes(cfg, headers, b, e, p);
        } else {
          OtherStepServes(cfg, b, e, p);
        }
      }
    }
  }

  lemma SameMessage(cfg: Config, b: Bus, e: Event, p: PubId)
    requires Enabled(cfg, b, e) && p < |b.pubs|
    ensures p < |Next(cfg, b, e).pubs| && Next(cfg, b, e).pubs[p].message == b.pubs[p].message
  {
    if !StepOf(e, p) {
      OthersStay(cfg, b, e, p);
    }
  }

  lemma {:induction false} RunServes(cfg: Config, headers: Key -> Frame.Header, b: Bus, run: seq<Event>, key: Key)
    requires Inv(cfg, headers, b) && Possible(cfg, b, run) && RespectsAll(cfg, headers, b, run)
    requires AllServed(b, key) && AllOneAtATime(cfg, b, run, key)
    ensures AllServed(Final(cfg, b, run), key)
    decreases run
  {
    if run != [] {
      StepKeeps(cfg, headers, b, run[0]);
      StepServes(cfg, headers, b, run[0], key);
      RunServes(cfg, headers, Next(cfg, b, run[0]), run[1..], key);
    }
  }

  /**
   * A message published again and again, each call begun only when the one before has ended: once a call returns Ok,
   * every subscriber that call found on the topic has been sent the message exactly once, whatever timed out, was
   * closed or was dropped in the calls before.
   */
  lemma RetriedExactlyOnce(cfg: Config, headers: Key -> Frame.Header, run: seq<Event>, p: PubId, x: SubId)
    requires Possible(cfg, Initial(), run) && RespectsAll(cfg, headers, Initial(), run)
    requires p < |Final(cfg, Initial(), run).pubs|
    requires var pub := Final(cfg, Initial(), run).pubs[p];
             && AllCalledInTurn(cfg, Initial(), run, KeyOf(pub.message))
             && pub.result == Some(PublishOk) && x in pub.snapshot
    ensures var b := Final(cfg, Initial(), run);
            var key := KeyOf(b.pubs[p].message);
            && Delivered(b, x, key)
            && forall i, j :: 0 <= i < j < |b.subs[x].pushed| && b.subs[x].pushed[i].Data? && b.subs[x].pushed[j].Data? ==>
                 !(KeyOf(b.subs[x].pushed[i].message) == key == KeyOf(b.subs[x].pushed[j].message))
  {
    var b := Final(cfg, Initial(), run);
    InTurnSuffices(cfg, headers, Initial(), run, KeyOf(b.pubs[p].message));
    RunServes(cfg, headers, Initial(), run, KeyOf(b.pubs[p].message));
    assert Served(b, b.pubs[p]);
    var k :| 0 <= k < |b.pubs[p].snapshot| && b.pubs[p].snapshot[k] == x;
    forall i, j | 0 <= i < j < |b.subs[x].pushed| && b.subs[x].pushed[i].Data? && b.subs[x].pushed[j].Data?
      ensures KeyOf(b.subs[x].pushed[i].message) != KeyOf(b.subs[x].pushed[j].message)
    {
      AtMostOnce(cfg, headers, run, x, i, j);
    }
  }
}
