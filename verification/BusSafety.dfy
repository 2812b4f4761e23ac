/** At-most-once delivery over whole runs of the bus. */
module BusSafety {
  import opened Graph
  import opened Dedupe
  import opened Bus
  import Frame

  // ----- claims on a subscriber's key

  /** A reservation that is neither committed nor rolled back. */
  ghost predicate Holds(pub: Publication, x: SubId) {
    (pub.holding && pub.todo != [] && pub.todo[0] == x) || x in pub.pending
  }

  datatype Claim = ByPush(i: nat) | ByPub(p: PubId)

  /** Who answers for a key at subscriber `x`: a message delivered to it, or a publication holding a reservation. */
  ghost predicate Claims(b: Bus, x: SubId, c: Claim)
    requires x < |b.subs|
  {
    match c
    case ByPush(i) => i < |b.subs[x].pushed| && b.subs[x].pushed[i].Data?
    case ByPub(p) => p < |b.pubs| && Holds(b.pubs[p], x)
  }

  ghost function MessageOf(b: Bus, x: SubId, c: Claim): Message
    requires x < |b.subs| && Claims(b, x, c)
  {
    match c
    case ByPush(i) => b.subs[x].pushed[i].message
    case ByPub(p) => b.pubs[p].message
  }

  ghost function TimeOf(b: Bus, x: SubId, c: Claim): nat
    requires x < |b.subs| && Claims(b, x, c)
  {
    match c
    case ByPush(i) => b.subs[x].pushed[i].publishedAt
    case ByPub(p) => b.pubs[p].now
  }

  /** The message expires before an entry made at `at` can age out. */
  ghost predicate Windowed(cfg: Config, m: Message, at: nat) {
    m.header.createdAtMs <= at && m.header.ttlMs <= cfg.dedupeMaxAgeMs
  }

  /** The claim is still in the cache, or its entry has aged out, by which time the message has expired. */
  ghost predicate Remembered(cfg: Config, headers: Key -> Frame.Header, b: Bus, x: SubId, c: Claim)
    requires x < |b.subs| && Claims(b, x, c)
  {
    var m, at := MessageOf(b, x, c), TimeOf(b, x, c);
    && m.header == headers(KeyOf(m)) && Windowed(cfg, m, at)
    && (Entry(KeyOf(m), at) in b.subs[x].cache || Stale(at, b.subs[x].lastReserve, cfg.dedupeMaxAgeMs))
  }

  ghost predicate Claimed(b: Bus, x: SubId, e: Entry)
    requires x < |b.subs|
  {
    exists c :: Claims(b, x, c) && e == Entry(KeyOf(MessageOf(b, x, c)), TimeOf(b, x, c))
  }

  /** Cache and claims of one subscriber agree, and no key is claimed twice. */
  ghost predicate SubscriberInv(cfg: Config, headers: Key -> Frame.Header, b: Bus, x: SubId)
    requires x < |b.subs|
  {
    && Ordered(b.subs[x].cache, b.subs[x].lastReserve)
    && (forall c :: Claims(b, x, c) ==> Remembered(cfg, headers, b, x, c))
    && (forall c, d :: Claims(b, x, c) && Claims(b, x, d) && KeyOf(MessageOf(b, x, c)) == KeyOf(MessageOf(b, x, d)) ==> c == d)
    && (forall e :: e in b.subs[x].cache ==> Claimed(b, x, e))
  }

  ghost predicate Ids(b: Bus, ids: seq<SubId>) {
    Distinct(ids) && forall x :: x in ids ==> x < |b.subs|
  }

  /** A publication visits each subscriber once, with a message that was live when it began. */
  ghost predicate PublicationInv(headers: Key -> Frame.Header, b: Bus, pub: Publication) {
    && Ids(b, pub.pending + pub.todo)
    && pub.message.header == headers(KeyOf(pub.message))
    && (pub.holding ==> pub.todo != [])
    && (pub.todo != [] ==> Frame.IsExpired(pub.message.header, pub.now) == Frame.Ok(false))
  }

  ghost predicate Inv(cfg: Config, headers: Key -> Frame.Header, b: Bus) {
    && (forall topic :: topic in b.topics ==> Ids(b, b.topics[topic]))
    && (forall p :: 0 <= p < |b.pubs| ==> PublicationInv(headers, b, b.pubs[p]))
    && (forall x :: 0 <= x < |b.subs| ==> SubscriberInv(cfg, headers, b, x))
  }

  // ----- what a run must respect

  /**
   * The hypotheses of at-most-once delivery, where they matter: a key names one header; a subscriber's reservation
   * times never go back; and when a key is inserted, the message is not from the future, it does not outlive the
   * filter's window, and the cache has room.
   */
  ghost predicate Respects(cfg: Config, headers: Key -> Frame.Header, b: Bus, e: Event)
    requires Enabled(cfg, b, e)
  {
    match e
    case Begin(_, m, _, _, _) => m.header == headers(KeyOf(m))
    case Reserve(p) =>
      var pub, s := b.pubs[p], b.subs[b.pubs[p].todo[0]];
      && s.lastReserve <= pub.now
      && var kept := Pruned(s.cache, pub.now, cfg.dedupeMaxAgeMs);
         HasKey(kept, KeyOf(pub.message)) || (Windowed(cfg, pub.message, pub.now) && |kept| < cfg.dedupeCapacity)
    case _ => true
  }

  ghost predicate RespectsAll(cfg: Config, headers: Key -> Frame.Header, b: Bus, run: seq<Event>)
    requires Possible(cfg, b, run)
    decreases run
  {
    run == [] || (Respects(cfg, headers, b, run[0]) && RespectsAll(cfg, headers, Next(cfg, b, run[0]), run[1..]))
  }

  // ----- steps

  /** The claims on `x` are the same up to the renaming `g` of new claims to old ones, with inverse `h`. */
  ghost predicate Renamed(b: Bus, b': Bus, x: SubId, g: Claim -> Claim, h: Claim -> Claim)
    requires x < |b.subs| && x < |b'.subs|
  {
    && b'.subs[x].cache == b.subs[x].cache && b'.subs[x].lastReserve == b.subs[x].lastReserve
    && (forall c :: Claims(b', x, c) ==>
          Claims(b, x, g(c)) && h(g(c)) == c && MessageOf(b, x, g(c)) == MessageOf(b', x, c) && TimeOf(b, x, g(c)) == TimeOf(b', x, c))
    && (forall c :: Claims(b, x, c) ==> Claims(b', x, h(c)) && g(h(c)) == c)
  }

  lemma RenamedKeep(cfg: Config, headers: Key -> Frame.Header, b: Bus, b': Bus, x: SubId, g: Claim -> Claim, h: Claim -> Claim)
    requires x < |b.subs| && x < |b'.subs| && Renamed(b, b', x, g, h) && SubscriberInv(cfg, headers, b, x)
    ensures SubscriberInv(cfg, headers, b', x)
  {
    forall c | Claims(b', x, c) ensures Remembered(cfg, headers, b', x, c) {
      assert Remembered(cfg, headers, b, x, g(c));
    }
    forall c, d | Claims(b', x, c) && Claims(b', x, d) && KeyOf(MessageOf(b', x, c)) == KeyOf(MessageOf(b', x, d)) ensures c == d {
      assert g(c) == g(d);
    }
    forall e | e in b'.subs[x].cache ensures Claimed(b', x, e) {
      assert Claimed(b, x, e);
      var c :| Claims(b, x, c) && e == Entry(KeyOf(MessageOf(b, x, c)), TimeOf(b, x, c));
      assert Claims(b', x, h(c)) && g(h(c)) == c;
    }
  }

  /** Nothing about the claims on `x` changes. */
  ghost predicate Unaffected(b: Bus, b': Bus, x: SubId)
    requires x < |b.subs| && x < |b'.subs|
  {
    && b'.subs[x].cache == b.subs[x].cache && b'.subs[x].lastReserve == b.subs[x].lastReserve
    && (forall c :: Claims(b, x, c) <==> Claims(b', x, c))
    && (forall c :: Claims(b, x, c) ==> MessageOf(b', x, c) == MessageOf(b, x, c) && TimeOf(b', x, c) == TimeOf(b, x, c))
  }

  lemma UnaffectedKeep(cfg: Config, headers: Key -> Frame.Header, b: Bus, b': Bus, x: SubId)
    requires x < |b.subs| && x < |b'.subs| && Unaffected(b, b', x) && SubscriberInv(cfg, headers, b, x)
    ensures SubscriberInv(cfg, headers, b', x)
  {
    RenamedKeep(cfg, headers, b, b', x, c => c, c => c);
  }

  /** Pruning at a later time and advancing the reservation time. */
  lemma PruneKeeps(cfg: Config, headers: Key -> Frame.Header, b: Bus, b': Bus, x: SubId, now: nat)
    requires x < |b.subs| == |b'.subs| && SubscriberInv(cfg, headers, b, x) && b.subs[x].lastReserve <= now
    requires b'.subs[x].cache == Pruned(b.subs[x].cache, now, cfg.dedupeMaxAgeMs) && b'.subs[x].lastReserve == now
    requires forall c :: Claims(b, x, c) <==> Claims(b', x, c)
    requires forall c :: Claims(b, x, c) ==> MessageOf(b', x, c) == MessageOf(b, x, c) && TimeOf(b', x, c) == TimeOf(b, x, c)
    ensures SubscriberInv(cfg, headers, b', x)
  {
    PrunedExact(b.subs[x].cache, b.subs[x].lastReserve, now, cfg.dedupeMaxAgeMs);
    forall c | Claims(b', x, c) ensures Remembered(cfg, headers, b', x, c) {
      assert Remembered(cfg, headers, b, x, c);
    }
    forall e | e in b'.subs[x].cache ensures Claimed(b', x, e) {
      assert Claimed(b, x, e);
      var c :| Claims(b, x, c) && e == Entry(KeyOf(MessageOf(b, x, c)), TimeOf(b, x, c));
      assert Claims(b', x, c);
    }
  }

  lemma MemberHasKey(cache: seq<Entry>, e: Entry)
    ensures e in cache ==> HasKey(cache, e.key)
  {
    if e in cache {
      var k :| 0 <= k < |cache| && cache[k] == e;
      assert cache[k].key == e.key;
    }
  }

  /** A reservation that is not a duplicate finds no other claim on its key: whoever had one has expired. */
  lemma NoOtherClaim(cfg: Config, headers: Key -> Frame.Header, b: Bus, x: SubId, m: Message, now: Frame.u64, c: Claim)
    requires x < |b.subs| && SubscriberInv(cfg, headers, b, x) && Claims(b, x, c)
    requires m.header == headers(KeyOf(m)) && Frame.IsExpired(m.header, now) == Frame.Ok(false)
    requires b.subs[x].lastReserve <= now
    requires !HasKey(Pruned(b.subs[x].cache, now, cfg.dedupeMaxAgeMs), KeyOf(m))
    ensures KeyOf(MessageOf(b, x, c)) != KeyOf(m)
  {
    var s := b.subs[x];
    PrunedExact(s.cache, s.lastReserve, now, cfg.dedupeMaxAgeMs);
    if KeyOf(MessageOf(b, x, c)) == KeyOf(m) {
      assert Remembered(cfg, headers, b, x, c);
      var e := Entry(KeyOf(m), TimeOf(b, x, c));
      assert e in Pruned(s.cache, now, cfg.dedupeMaxAgeMs) <==> !Stale(e.at, now, cfg.dedupeMaxAgeMs);
      MemberHasKey(Pruned(s.cache, now, cfg.dedupeMaxAgeMs), e);
      assert false;
    }
  }

  /** Inserting a key nobody claims, for the publication that now holds it. */
  lemma InsertKeeps(cfg: Config, headers: Key -> Frame.Header, b: Bus, b': Bus, x: SubId, p: PubId)
    requires x < |b.subs| == |b'.subs| && p < |b'.pubs| && SubscriberInv(cfg, headers, b, x)
    requires var m, now := b'.pubs[p].message, b'.pubs[p].now;
             && b.subs[x].lastReserve == now && m.header == headers(KeyOf(m)) && Windowed(cfg, m, now)
             && !HasKey(b.subs[x].cache, KeyOf(m)) && |b.subs[x].cache| < cfg.dedupeCapacity
             && b'.subs[x].cache == Put(b.subs[x].cache, KeyOf(m), now, cfg.dedupeCapacity) && b'.subs[x].lastReserve == now
             && forall c :: Claims(b, x, c) ==> KeyOf(MessageOf(b, x, c)) != KeyOf(m)
    requires !Claims(b, x, ByPub(p)) && Claims(b', x, ByPub(p))
    requires forall c :: c != ByPub(p) ==> (Claims(b, x, c) <==> Claims(b', x, c))
    requires forall c :: Claims(b, x, c) ==> MessageOf(b', x, c) == MessageOf(b, x, c) && TimeOf(b', x, c) == TimeOf(b, x, c)
    ensures SubscriberInv(cfg, headers, b', x)
  {
    var m, now := b'.pubs[p].message, b'.pubs[p].now;
    PutExact(b.subs[x].cache, now, KeyOf(m), now, cfg.dedupeCapacity);
    forall c | Claims(b', x, c) ensures Remembered(cfg, headers, b', x, c) {
      if c != ByPub(p) {
        assert Remembered(cfg, headers, b, x, c);
      }
    }
    forall e | e in b'.subs[x].cache ensures Claimed(b', x, e) {
      if e == Entry(KeyOf(m), now) {
        assert Claims(b', x, ByPub(p));
      } else {
        assert Claimed(b, x, e);
        var c :| Claims(b, x, c) && e == Entry(KeyOf(MessageOf(b, x, c)), TimeOf(b, x, c));
        assert Claims(b', x, c);
      }
    }
  }

  /** Rolling back the only claim on a key. */
  lemma RollbackKeeps(cfg: Config, headers: Key -> Frame.Header, b: Bus, b': Bus, x: SubId, p: PubId)
    requires x < |b.subs| == |b'.subs| && SubscriberInv(cfg, headers, b, x)
    requires Claims(b, x, ByPub(p)) && !Claims(b', x, ByPub(p))
    requires b'.subs[x].cache == Without(b.subs[x].cache, KeyOf(MessageOf(b, x, ByPub(p))))
    requires b'.subs[x].lastReserve == b.subs[x].lastReserve
    requires forall c :: c != ByPub(p) ==> (Claims(b, x, c) <==> Claims(b', x, c))
    requires forall c :: Claims(b', x, c) ==> MessageOf(b', x, c) == MessageOf(b, x, c) && TimeOf(b', x, c) == TimeOf(b, x, c)
    ensures SubscriberInv(cfg, headers, b', x)
  {
    var key := KeyOf(MessageOf(b, x, ByPub(p)));
    WithoutExact(b.subs[x].cache, key);
    WithoutOrdered(b.subs[x].cache, b.subs[x].lastReserve, key);
    forall c | Claims(b', x, c) ensures Remembered(cfg, headers, b', x, c) {
      assert Remembered(cfg, headers, b, x, c);
      assert KeyOf(MessageOf(b, x, c)) != key;
    }
    forall e | e in b'.subs[x].cache ensures Claimed(b', x, e) {
      assert Claimed(b, x, e);
      var c :| Claims(b, x, c) && e == Entry(KeyOf(MessageOf(b, x, c)), TimeOf(b, x, c));
      assert c != ByPub(p) && Claims(b', x, c);
    }
  }

  // ----- every event keeps the invariant

  ghost predicate TopicsInv(b: Bus) {
    forall topic :: topic in b.topics ==> Ids(b, b.topics[topic])
  }

  ghost predicate PublicationsInv(headers: Key -> Frame.Header, b: Bus) {
    forall p :: 0 <= p < |b.pubs| ==> PublicationInv(headers, b, b.pubs[p])
  }

  lemma {:induction false} MinusExact(ids: seq<SubId>, x: SubId)
    requires Distinct(ids)
    ensures Distinct(Minus(ids, x)) && forall y :: y in Minus(ids, x) <==> y in ids && y != x
  {
    if ids != [] {
      MinusExact(ids[1..], x);
      var rest := Minus(ids[1..], x);
      assert forall k :: 0 < k < |ids| ==> ids[k] == ids[1..][k - 1];
      assert forall k :: 0 <= k < |rest| ==> rest[k] in rest;
    }
  }

  lemma RemovedKeeps(b: Bus, topic: string, x: SubId)
    requires TopicsInv(b)
    ensures TopicsInv(b.(topics := Removed(b.topics, topic, x)))
  {
    if topic in b.topics {
      MinusExact(b.topics[topic], x);
    }
  }

  /** Replacing one publication, with the subscribers' number unchanged. */
  lemma OnePublication(headers: Key -> Frame.Header, b: Bus, b': Bus, p: PubId)
    requires PublicationsInv(headers, b) && p < |b.pubs| == |b'.pubs| && |b.subs| == |b'.subs|
    requires b'.pubs == b.pubs[p := b'.pubs[p]] && PublicationInv(headers, b', b'.pubs[p])
    ensures PublicationsInv(headers, b')
  {
    forall q | 0 <= q < |b'.pubs| ensures PublicationInv(headers, b', b'.pubs[q]) {
      assert q != p ==> PublicationInv(headers, b, b.pubs[q]);
    }
  }

  lemma ReserveKeeps(cfg: Config, headers: Key -> Frame.Header, b: Bus, p: PubId)
    requires Inv(cfg, headers, b) && Enabled(cfg, b, Event.Reserve(p)) && Respects(cfg, headers, b, Event.Reserve(p))
    ensures Inv(cfg, headers, AfterReserve(cfg, b, p))
  {
    var pub, b' := b.pubs[p], AfterReserve(cfg, b, p);
    var x := pub.todo[0];
    assert PublicationInv(headers, b, pub);
    var visits := pub.pending + pub.todo;
    assert visits[|pub.pending|] == x && forall k :: 0 <= k < |pub.pending| ==> visits[k] == pub.pending[k];
    assert x !in pub.pending;
    TailVisits(b, pub);
    OnePublication(headers, b, b', p);
    forall y | 0 <= y < |b'.subs| ensures SubscriberInv(cfg, headers, b', y) {
      if y != x {
        assert Unaffected(b, b', y);
        UnaffectedKeep(cfg, headers, b, b', y);
      } else {
        ReserveKeepsTarget(cfg, headers, b, p);
      }
    }
  }

  lemma TailVisits(b: Bus, pub: Publication)
    requires Ids(b, pub.pending + pub.todo) && pub.todo != []
    ensures Ids(b, pub.pending + pub.todo[1..])
  {
    var all, tail := pub.pending + pub.todo, pub.pending + pub.todo[1..];
    assert forall k :: 0 <= k < |tail| ==> tail[k] == all[if k < |pub.pending| then k else k + 1];
    assert forall k :: 0 <= k < |all| ==> all[k] in all;
  }

  lemma ReserveKeepsTarget(cfg: Config, headers: Key -> Frame.Header, b: Bus, p: PubId)
    requires Enabled(cfg, b, Event.Reserve(p)) && Respects(cfg, headers, b, Event.Reserve(p))
    requires PublicationInv(headers, b, b.pubs[p]) && b.pubs[p].todo[0] !in b.pubs[p].pending
    requires SubscriberInv(cfg, headers, b, b.pubs[p].todo[0])
    ensures SubscriberInv(cfg, headers, AfterReserve(cfg, b, p), b.pubs[p].todo[0])
  {
    var pub, b' := b.pubs[p], AfterReserve(cfg, b, p);
    var x := pub.todo[0];
    var s := b.subs[x];
    var kept := Pruned(s.cache, pub.now, cfg.dedupeMaxAgeMs);
    var pruned := b.(subs := b.subs[x := s.(cache := kept, lastReserve := pub.now)]);
    PruneKeeps(cfg, headers, b, pruned, x, pub.now);
    if HasKey(kept, KeyOf(pub.message)) {
      RefusalUnaffected(cfg, b, p, pruned);
      UnaffectedKeep(cfg, headers, pruned, b', x);
    } else {
      forall c | Claims(pruned, x, c) ensures KeyOf(MessageOf(pruned, x, c)) != KeyOf(pub.message) {
        assert Claims(b, x, c);
        NoOtherClaim(cfg, headers, b, x, pub.message, pub.now, c);
      }
      ReserveClaims(cfg, b, p, pruned);
      InsertKeeps(cfg, headers, pruned, b', x, p);
    }
  }

  /** A refused reservation only prunes. */
  lemma RefusalUnaffected(cfg: Config, b: Bus, p: PubId, pruned: Bus)
    requires Enabled(cfg, b, Event.Reserve(p)) && b.pubs[p].todo[0] !in b.pubs[p].pending
    requires var pub, x := b.pubs[p], b.pubs[p].todo[0];
             && HasKey(Pruned(b.subs[x].cache, pub.now, cfg.dedupeMaxAgeMs), KeyOf(pub.message))
             && pruned == b.(subs := b.subs[x := b.subs[x].(cache := Pruned(b.subs[x].cache, pub.now, cfg.dedupeMaxAgeMs),
                                                            lastReserve := pub.now)])
    ensures Unaffected(pruned, AfterReserve(cfg, b, p), b.pubs[p].todo[0])
  {
  }

  /** A granted reservation adds one claim, that of the publication that made it. */
  lemma ReserveClaims(cfg: Config, b: Bus, p: PubId, pruned: Bus)
    requires Enabled(cfg, b, Event.Reserve(p)) && b.pubs[p].todo[0] !in b.pubs[p].pending
    requires var pub, x := b.pubs[p], b.pubs[p].todo[0];
             && !HasKey(Pruned(b.subs[x].cache, pub.now, cfg.dedupeMaxAgeMs), KeyOf(pub.message))
             && pruned == b.(subs := b.subs[x := b.subs[x].(cache := Pruned(b.subs[x].cache, pub.now, cfg.dedupeMaxAgeMs),
                                                            lastReserve := pub.now)])
    ensures var b', x := AfterReserve(cfg, b, p), b.pubs[p].todo[0];
            && !Claims(pruned, x, ByPub(p)) && Claims(b', x, ByPub(p))
            && (forall c :: c != ByPub(p) ==> (Claims(pruned, x, c) <==> Claims(b', x, c)))
            && (forall c :: Claims(pruned, x, c) ==>
                  MessageOf(b', x, c) == MessageOf(pruned, x, c) && TimeOf(b', x, c) == TimeOf(pruned, x, c))
  {
  }

  /** After a delivery attempt the publication has one subscriber less to visit. */
  lemma DeliverVisits(cfg: Config, headers: Key -> Frame.Header, b: Bus, p: PubId, outcome: PushResult)
    requires Enabled(cfg, b, Deliver(p, outcome)) && PublicationInv(headers, b, b.pubs[p])
    ensures var pub, pub' := b.pubs[p], AfterDeliver(cfg, b, p, outcome).pubs[p];
            && Ids(b, pub'.pending + pub'.todo)
            && pub.todo[0] !in pub.pending && pub.todo[0] !in pub.todo[1..]
  {
    var pub := b.pubs[p];
    var visits := pub.pending + pub.todo;
    assert forall k :: 0 <= k < |pub.pending| ==> visits[k] == pub.pending[k];
    assert forall k :: 0 <= k < |pub.todo| ==> pub.todo[k] == visits[|pub.pending| + k];
    assert (pub.pending + [pub.todo[0]]) + pub.todo[1..] == visits;
    TailVisits(b, pub);
  }

  /** A committed reservation becomes a delivery with the same key and time. */
  lemma PushedKeeps(cfg: Config, headers: Key -> Frame.Header, b: Bus, p: PubId)
    requires Enabled(cfg, b, Deliver(p, Pushed)) && PublicationInv(headers, b, b.pubs[p])
    requires SubscriberInv(cfg, headers, b, b.pubs[p].todo[0])
    ensures SubscriberInv(cfg, headers, AfterDeliver(cfg, b, p, Pushed), b.pubs[p].todo[0])
  {
    DeliverVisits(cfg, headers, b, p, Pushed);
    var b', x := AfterDeliver(cfg, b, p, Pushed), b.pubs[p].todo[0];
    var n := |b.subs[x].pushed|;
    var g := c => if c == ByPush(n) then ByPub(p) else c;
    var h := c => if c == ByPub(p) then ByPush(n) else c;
    assert Renamed(b, b', x, g, h);
    RenamedKeep(cfg, headers, b, b', x, g, h);
  }

  lemma DeliverUnaffected(cfg: Config, headers: Key -> Frame.Header, b: Bus, p: PubId, outcome: PushResult, y: SubId)
    requires Enabled(cfg, b, Deliver(p, outcome)) && PublicationInv(headers, b, b.pubs[p])
    requires y < |b.subs| && (y != b.pubs[p].todo[0] || !outcome.Pushed?)
    ensures Unaffected(b, AfterDeliver(cfg, b, p, outcome), y)
  {
    DeliverVisits(cfg, headers, b, p, outcome);
  }

  lemma DeliverKeeps(cfg: Config, headers: Key -> Frame.Header, b: Bus, p: PubId, outcome: PushResult)
    requires Inv(cfg, headers, b) && Enabled(cfg, b, Deliver(p, outcome))
    ensures Inv(cfg, headers, AfterDeliver(cfg, b, p, outcome))
  {
    var b' := AfterDeliver(cfg, b, p, outcome);
    assert PublicationInv(headers, b, b.pubs[p]);
    DeliverVisits(cfg, headers, b, p, outcome);
    OnePublication(headers, b, b', p);
    RemovedKeeps(b, b.pubs[p].topic, b.pubs[p].todo[0]);
    forall y | 0 <= y < |b'.subs| ensures SubscriberInv(cfg, headers, b', y) {
      if y == b.pubs[p].todo[0] && outcome.Pushed? {
        PushedKeeps(cfg, headers, b, p);
      } else {
        DeliverUnaffected(cfg, headers, b, p, outcome, y);
        UnaffectedKeep(cfg, headers, b, b', y);
      }
    }
  }

  lemma NotifyUnaffected(cfg: Config, b: Bus, p: PubId, outcome: PushResult, y: SubId)
    requires Enabled(cfg, b, Notify(p, outcome)) && y < |b.subs|
    ensures Unaffected(b, AfterNotify(cfg, b, p, outcome), y)
  {
  }

  lemma NotifyKeeps(cfg: Config, headers: Key -> Frame.Header, b: Bus, p: PubId, outcome: PushResult)
    requires Inv(cfg, headers, b) && Enabled(cfg, b, Notify(p, outcome))
    ensures Inv(cfg, headers, AfterNotify(cfg, b, p, outcome))
  {
    var b' := AfterNotify(cfg, b, p, outcome);
    assert PublicationInv(headers, b, b.pubs[p]);
    OnePublication(headers, b, b', p);
    RemovedKeeps(b, DROP_TOPIC, b.pubs[p].notices[0]);
    forall y | 0 <= y < |b'.subs| ensures SubscriberInv(cfg, headers, b', y) {
      NotifyUnaffected(cfg, b, p, outcome, y);
      UnaffectedKeep(cfg, headers, b, b', y);
    }
  }

  lemma RollbackEventKeeps(cfg: Config, headers: Key -> Frame.Header, b: Bus, p: PubId)
    requires Inv(cfg, headers, b) && Enabled(cfg, b, Event.Rollback(p))
    ensures Inv(cfg, headers, AfterRollback(cfg, b, p))
  {
    var pub, b' := b.pubs[p], AfterRollback(cfg, b, p);
    var x := pub.pending[0];
    assert PublicationInv(headers, b, pub);
    PendingVisits(b, pub);
    OnePublication(headers, b, b', p);
    forall y | 0 <= y < |b'.subs| ensures SubscriberInv(cfg, headers, b', y) {
      if y == x {
        RollbackTarget(cfg, headers, b, p);
      } else {
        RollbackUnaffected(cfg, b, p, y);
        UnaffectedKeep(cfg, headers, b, b', y);
      }
    }
  }

  /** A publication that only rolls back visits its pending subscribers. */
  lemma PendingVisits(b: Bus, pub: Publication)
    requires Ids(b, pub.pending + pub.todo) && pub.todo == [] && pub.pending != []
    ensures Ids(b, pub.pending[1..] + pub.todo) && pub.pending[0] < |b.subs| && pub.pending[0] !in pub.pending[1..]
  {
    assert pub.pending + pub.todo == pub.pending && pub.pending[1..] + pub.todo == pub.pending[1..];
    assert pub.pending[0] in pub.pending;
    assert forall k :: 0 < k < |pub.pending| ==> pub.pending[k] == pub.pending[1..][k - 1] && pub.pending[k] in pub.pending;
  }

  lemma RollbackTarget(cfg: Config, headers: Key -> Frame.Header, b: Bus, p: PubId)
    requires Enabled(cfg, b, Event.Rollback(p)) && PublicationInv(headers, b, b.pubs[p])
    requires SubscriberInv(cfg, headers, b, b.pubs[p].pending[0])
    ensures SubscriberInv(cfg, headers, AfterRollback(cfg, b, p), b.pubs[p].pending[0])
  {
    PendingVisits(b, b.pubs[p]);
    RollbackKeeps(cfg, headers, b, AfterRollback(cfg, b, p), b.pubs[p].pending[0], p);
  }

  lemma RollbackUnaffected(cfg: Config, b: Bus, p: PubId, y: SubId)
    requires Enabled(cfg, b, Event.Rollback(p)) && y < |b.subs| && y != b.pubs[p].pending[0]
    ensures Unaffected(b, AfterRollback(cfg, b, p), y)
  {
    assert y in b.pubs[p].pending <==> y in b.pubs[p].pending[1..] by {
      assert b.pubs[p].pending == [b.pubs[p].pending[0]] + b.pubs[p].pending[1..];
    }
  }

  lemma WaitKeeps(cfg: Config, headers: Key -> Frame.Header, b: Bus, p: PubId)
    requires Inv(cfg, headers, b) && Enabled(cfg, b, Wait(p))
    ensures Inv(cfg, headers, Next(cfg, b, Wait(p)))
  {
    var b' := Next(cfg, b, Wait(p));
    assert PublicationInv(headers, b, b.pubs[p]);
    OnePublication(headers, b, b', p);
    forall y | 0 <= y < |b'.subs| ensures SubscriberInv(cfg, headers, b', y) {
      assert Unaffected(b, b', y);
      UnaffectedKeep(cfg, headers, b, b', y);
    }
  }

  /** A cancelled publication holds what it held before, all of it to be rolled back. */
  lemma CancelHolds(cfg: Config, headers: Key -> Frame.Header, b: Bus, p: PubId)
    requires Enabled(cfg, b, Cancel(p)) && PublicationInv(headers, b, b.pubs[p])
    ensures var pub, pub' := b.pubs[p], AfterCancel(cfg, b, p).pubs[p];
            && Ids(b, pub'.pending + pub'.todo)
            && forall y :: Holds(pub', y) <==> Holds(pub, y)
  {
    var pub, pub' := b.pubs[p], AfterCancel(cfg, b, p).pubs[p];
    var visits := pub.pending + pub.todo;
    assert pub'.pending + pub'.todo == pub'.pending;
    assert pub'.pending == visits[..|pub'.pending|];
    assert forall k :: 0 <= k < |pub'.pending| ==> pub'.pending[k] in visits;
  }

  lemma CancelKeeps(cfg: Config, headers: Key -> Frame.Header, b: Bus, p: PubId)
    requires Inv(cfg, headers, b) && Enabled(cfg, b, Cancel(p))
    ensures Inv(cfg, headers, AfterCancel(cfg, b, p))
  {
    var b' := AfterCancel(cfg, b, p);
    assert PublicationInv(headers, b, b.pubs[p]);
    CancelHolds(cfg, headers, b, p);
    OnePublication(headers, b, b', p);
    forall y | 0 <= y < |b'.subs| ensures SubscriberInv(cfg, headers, b', y) {
      assert Unaffected(b, b', y);
      UnaffectedKeep(cfg, headers, b, b', y);
    }
  }

  lemma BeginPublication(cfg: Config, headers: Key -> Frame.Header, b: Bus, e: Event)
    requires TopicsInv(b) && e.Begin? && Respects(cfg, headers, b, e)
    ensures var b' := Next(cfg, b, e);
            && b'.subs == b.subs && b'.topics == b.topics && |b'.pubs| == |b.pubs| + 1
            && (forall q :: 0 <= q < |b.pubs| ==> b'.pubs[q] == b.pubs[q])
            && PublicationInv(headers, b', b'.pubs[|b.pubs|])
            && forall y :: !Holds(b'.pubs[|b.pubs|], y)
  {
    var pub := Next(cfg, b, e).pubs[|b.pubs|];
    assert pub.pending + pub.todo == pub.todo;
  }

  lemma BeginKeeps(cfg: Config, headers: Key -> Frame.Header, b: Bus, e: Event)
    requires Inv(cfg, headers, b) && e.Begin? && Respects(cfg, headers, b, e)
    ensures Inv(cfg, headers, Next(cfg, b, e))
  {
    var b' := Next(cfg, b, e);
    BeginPublication(cfg, headers, b, e);
    forall q | 0 <= q < |b'.pubs| ensures PublicationInv(headers, b', b'.pubs[q]) {
      assert q < |b.pubs| ==> PublicationInv(headers, b, b.pubs[q]);
    }
    forall y | 0 <= y < |b'.subs| ensures SubscriberInv(cfg, headers, b', y) {
      assert Unaffected(b, b', y);
      UnaffectedKeep(cfg, headers, b, b', y);
    }
  }

  /** A new subscriber starts with an empty cache and nothing claimed. */
  lemma NewSubscriber(cfg: Config, headers: Key -> Frame.Header, b: Bus, topic: string)
    requires PublicationsInv(headers, b) && !b.closed
    ensures SubscriberInv(cfg, headers, Next(cfg, b, Subscribe(topic)), |b.subs|)
  {
    var b', y := Next(cfg, b, Subscribe(topic)), |b.subs|;
    forall c ensures !Claims(b', y, c) {
      if c.ByPub? && c.p < |b.pubs| {
        var pub := b.pubs[c.p];
        assert PublicationInv(headers, b, pub);
        assert y !in pub.pending + pub.todo;
        assert pub.todo != [] ==> pub.todo[0] in pub.pending + pub.todo;
      }
    }
  }

  lemma SubscribeKeeps(cfg: Config, headers: Key -> Frame.Header, b: Bus, topic: string)
    requires Inv(cfg, headers, b) && !b.closed
    ensures Inv(cfg, headers, Next(cfg, b, Subscribe(topic)))
  {
    var b' := Next(cfg, b, Subscribe(topic));
    var listed := Listed(b, topic);
    assert Ids(b, listed) && forall k :: 0 <= k < |listed| ==> listed[k] in listed;
    forall q | 0 <= q < |b'.pubs| ensures PublicationInv(headers, b', b'.pubs[q]) {
      assert PublicationInv(headers, b, b.pubs[q]);
    }
    forall y | 0 <= y < |b'.subs| ensures SubscriberInv(cfg, headers, b', y) {
      if y < |b.subs| {
        assert Unaffected(b, b', y);
        UnaffectedKeep(cfg, headers, b, b', y);
      } else {
        NewSubscriber(cfg, headers, b, topic);
      }
    }
  }

  lemma OtherKeeps(cfg: Config, headers: Key -> Frame.Header, b: Bus, e: Event)
    requires Inv(cfg, headers, b) && Enabled(cfg, b, e)
    requires e.Finish? || e.Receive? || e.Unregister? || e.CloseReceiver? || e.Shutdown? || e.Configure?
    ensures Inv(cfg, headers, Next(cfg, b, e))
  {
    var b' := Next(cfg, b, e);
    if e.Unregister? {
      RemovedKeeps(b, b.subs[e.x].topic, e.x);
    }
    forall q | 0 <= q < |b'.pubs| ensures PublicationInv(headers, b', b'.pubs[q]) {
      assert PublicationInv(headers, b, b.pubs[q]);
    }
    forall y | 0 <= y < |b'.subs| ensures SubscriberInv(cfg, headers, b', y) {
      OtherUnaffected(cfg, b, e, y);
      UnaffectedKeep(cfg, headers, b, b', y);
    }
  }

  lemma OtherUnaffected(cfg: Config, b: Bus, e: Event, y: SubId)
    requires Enabled(cfg, b, e) && y < |b.subs|
    requires e.Finish? || e.Receive? || e.Unregister? || e.CloseReceiver? || e.Shutdown? || e.Configure?
    ensures y < |Next(cfg, b, e).subs| == |b.subs| && Unaffected(b, Next(cfg, b, e), y)
  {
  }

  lemma StepKeeps(cfg: Config, headers: Key -> Frame.Header, b: Bus, e: Event)
    requires Inv(cfg, headers, b) && Enabled(cfg, b, e) && Respects(cfg, headers, b, e)
    ensures Inv(cfg, headers, Next(cfg, b, e))
  {
    match e
    case Begin(_, _, _, _, _) => BeginKeeps(cfg, headers, b, e);
    case Reserve(p) => ReserveKeeps(cfg, headers, b, p);
    case Deliver(p, outcome) => DeliverKeeps(cfg, headers, b, p, outcome);
    case Wait(p) => WaitKeeps(cfg, headers, b, p);
    case Cancel(p) => CancelKeeps(cfg, headers, b, p);
    case Notify(p, outcome) => NotifyKeeps(cfg, headers, b, p, outcome);
    case Rollback(p) => RollbackEventKeeps(cfg, headers, b, p);
    case Subscribe(topic) => SubscribeKeeps(cfg, headers, b, topic);
    case _ => OtherKeeps(cfg, headers, b, e);
  }

  lemma {:induction false} RunKeeps(cfg: Config, headers: Key -> Frame.Header, b: Bus, run: seq<Event>)
    requires Inv(cfg, headers, b) && Possible(cfg, b, run) && RespectsAll(cfg, headers, b, run)
    ensures Inv(cfg, headers, Final(cfg, b, run))
    decreases run
  {
    if run != [] {
      StepKeeps(cfg, headers, b, run[0]);
      RunKeeps(cfg, headers, Next(cfg, b, run[0]), run[1..]);
    }
  }

  /** Over any run within the hypotheses, no subscriber queue ever receives a key twice through publish. */
  lemma AtMostOnce(cfg: Config, headers: Key -> Frame.Header, run: seq<Event>, x: SubId, i: nat, j: nat)
    requires Possible(cfg, Initial(), run) && RespectsAll(cfg, headers, Initial(), run)
    requires x < |Final(cfg, Initial(), run).subs|
    requires var pushed := Final(cfg, Initial(), run).subs[x].pushed;
             i < j < |pushed| && pushed[i].Data? && pushed[j].Data?
    ensures var pushed := Final(cfg, Initial(), run).subs[x].pushed;
            KeyOf(pushed[i].message) != KeyOf(pushed[j].message)
  {
    var b := Final(cfg, Initial(), run);
    RunKeeps(cfg, headers, Initial(), run);
    assert SubscriberInv(cfg, headers, b, x);
    assert Claims(b, x, ByPush(i)) && Claims(b, x, ByPush(j));
  }
}
