/** The per-subscriber duplicate filter: an LRU cache of publish times, and reservations in it. */
module Dedupe {
  import opened Json

  /** A message's trace id and message id. */
  type Key = (nat, nat)

  datatype Entry = Entry(key: Key, at: nat)

  // ----- the cache as a sequence, least recently used entry first

  predicate Stale(at: nat, now: nat, maxAge: nat) {
    now - at > maxAge
  }

  predicate HasKey(entries: seq<Entry>, key: Key) {
    exists k :: 0 <= k < |entries| && entries[k].key == key
  }

  /** Drops stale entries from the least recently used end, stopping at the first fresh one. */
  function Pruned(entries: seq<Entry>, now: nat, maxAge: nat): seq<Entry> {
    if entries != [] && Stale(entries[0].at, now, maxAge) then Pruned(entries[1..], now, maxAge) else entries
  }

  function Without(entries: seq<Entry>, key: Key): seq<Entry> {
    if entries == [] then []
    else (if entries[0].key == key then [] else [entries[0]]) + Without(entries[1..], key)
  }

  /** Inserts or refreshes a key as most recently used; a new key in a full cache evicts the least recently used one. */
  function Put(entries: seq<Entry>, key: Key, at: nat, capacity: nat): seq<Entry> {
    if HasKey(entries, key) then Without(entries, key) + [Entry(key, at)]
    else if |entries| >= capacity && entries != [] then entries[1..] + [Entry(key, at)]
    else entries + [Entry(key, at)]
  }

  lemma {:induction false} WithoutExact(entries: seq<Entry>, key: Key)
    ensures |Without(entries, key)| <= |entries|
    ensures HasKey(entries, key) ==> |Without(entries, key)| < |entries|
    ensures forall e :: e in Without(entries, key) <==> e in entries && e.key != key
  {
    if entries != [] {
      WithoutExact(entries[1..], key);
      if HasKey(entries, key) && entries[0].key != key {
        var k :| 0 <= k < |entries| && entries[k].key == key;
        assert entries[1..][k - 1].key == key;
      }
    }
  }

  /** The lock-protected cache of one subscriber. */
  class DedupeCache {
    var entries: seq<Entry>
    const capacity: nat
    const maxAgeMs: nat

    constructor (requested: nat, maxAgeMs: nat)
      ensures entries == [] && this.maxAgeMs == maxAgeMs
      ensures capacity == if requested == 0 then 1 else requested
    {
      this.entries := [];
      this.capacity := if requested == 0 then 1 else requested;
      this.maxAgeMs := maxAgeMs;
    }

    method Prune(now: nat)
      modifies this
      ensures entries == Pruned(old(entries), now, maxAgeMs)
    {
      while entries != [] && Stale(entries[0].at, now, maxAgeMs)
        invariant Pruned(entries, now, maxAgeMs) == Pruned(old(entries), now, maxAgeMs)
        decreases |entries|
      {
        entries := entries[1..];
      }
    }

    method Contains(key: Key, now: nat) returns (found: bool)
      modifies this
      ensures entries == Pruned(old(entries), now, maxAgeMs)
      ensures found <==> HasKey(entries, key)
    {
      Prune(now);
      found := HasKey(entries, key);
    }

    method Insert(key: Key, now: nat)
      modifies this
      ensures entries == Put(Pruned(old(entries), now, maxAgeMs), key, now, capacity)
    {
      Prune(now);
      if HasKey(entries, key) {
        Remove(key);
      } else if |entries| >= capacity && entries != [] {
        entries := entries[1..];
      }
      entries := entries + [Entry(key, now)];
    }

    method Remove(key: Key)
      modifies this
      ensures entries == Without(old(entries), key)
    {
      var kept := [];
      for k := 0 to |entries|
        invariant entries == old(entries)
        invariant kept + Without(entries[k..], key) == Without(entries, key)
      {
        if entries[k].key != key {
          kept := kept + [entries[k]];
        }
      }
      entries := kept;
    }
  }

  /** A key held in a cache until the push it guards is committed or rolled back. */
  class DedupeReservation {
    const cache: DedupeCache
    const key: Key
    var committed: bool

    constructor (cache: DedupeCache, key: Key)
      ensures this.cache == cache && this.key == key && !committed
    {
      this.cache, this.key, this.committed := cache, key, false;
    }

    method Commit()
      modifies this
      ensures committed
    {
      committed := true;
    }

    /** Forgets the key, once: after a commit or an earlier rollback the cache is left alone. */
    method Rollback()
      modifies this, cache
      ensures committed
      ensures cache.entries == if old(committed) then old(cache.entries) else Without(old(cache.entries), key)
    {
      if committed {
        return;
      }
      cache.Remove(key);
      committed := true;
    }
  }

  /** What reserving a key does to a cache: refused as a duplicate, or inserted. */
  function Reserved(entries: seq<Entry>, key: Key, now: nat, maxAge: nat, capacity: nat): (bool, seq<Entry>) {
    var fresh_ := Pruned(entries, now, maxAge);
    if HasKey(fresh_, key) then (false, fresh_) else (true, Put(fresh_, key, now, capacity))
  }

  method Reserve(cache: DedupeCache, key: Key, now: nat) returns (reservation: Option<DedupeReservation>)
    modifies cache
    ensures (reservation.Some?, cache.entries) == Reserved(old(cache.entries), key, now, cache.maxAgeMs, cache.capacity)
    ensures reservation.Some? ==>
              fresh(reservation.value) && reservation.value.cache == cache && reservation.value.key == key && !reservation.value.committed
  {
    var duplicate := cache.Contains(key, now);
    if duplicate {
      return None;
    }
    PrunedTwice(old(cache.entries), now, cache.maxAgeMs);
    cache.Insert(key, now);
    var r := new DedupeReservation(cache, key);
    return Some(r);
  }

  lemma {:induction false} PrunedTwice(entries: seq<Entry>, now: nat, maxAge: nat)
    ensures Pruned(Pruned(entries, now, maxAge), now, maxAge) == Pruned(entries, now, maxAge)
  {
    if entries != [] && Stale(entries[0].at, now, maxAge) {
      PrunedTwice(entries[1..], now, maxAge);
    }
  }

  // ----- caches in time order

  /** Entries in insertion order, each key once, none from after `last`. */
  ghost predicate Ordered(entries: seq<Entry>, last: nat) {
    && (forall i, j :: 0 <= i < j < |entries| ==> entries[i].at <= entries[j].at && entries[i].key != entries[j].key)
    && (forall i :: 0 <= i < |entries| ==> entries[i].at <= last)
  }

  /** In time order, pruning removes exactly the stale entries. */
  lemma {:induction false} PrunedExact(entries: seq<Entry>, last: nat, now: nat, maxAge: nat)
    requires Ordered(entries, last) && last <= now
    ensures Ordered(Pruned(entries, now, maxAge), now)
    ensures forall e :: e in Pruned(entries, now, maxAge) <==> e in entries && !Stale(e.at, now, maxAge)
  {
    if entries != [] && Stale(entries[0].at, now, maxAge) {
      assert entries == [entries[0]] + entries[1..];
      PrunedExact(entries[1..], last, now, maxAge);
    } else {
      forall e | e in entries ensures !Stale(e.at, now, maxAge) {
        var k :| 0 <= k < |entries| && entries[k] == e;
        assert entries[0].at <= entries[k].at;
      }
    }
  }

  lemma {:induction false} WithoutOrdered(entries: seq<Entry>, last: nat, key: Key)
    requires Ordered(entries, last)
    ensures Ordered(Without(entries, key), last)
  {
    if entries != [] {
      WithoutOrdered(entries[1..], last, key);
      WithoutExact(entries[1..], key);
      forall j | 0 <= j < |Without(entries[1..], key)|
        ensures entries[0].at <= Without(entries[1..], key)[j].at && entries[0].key != Without(entries[1..], key)[j].key
      {
        var e := Without(entries[1..], key)[j];
        assert e in entries[1..];
        var k :| 0 <= k < |entries[1..]| && entries[1..][k] == e;
        assert entries[k + 1] == e;
      }
    }
  }

  /** Without overflow, inserting keeps the order and adds exactly the new entry. */
  lemma PutExact(entries: seq<Entry>, last: nat, key: Key, now: nat, capacity: nat)
    requires Ordered(entries, last) && last <= now
    requires HasKey(entries, key) || |entries| < capacity
    ensures Ordered(Put(entries, key, now, capacity), now)
    ensures forall e :: e in Put(entries, key, now, capacity) <==> e == Entry(key, now) || (e in entries && e.key != key)
  {
    if HasKey(entries, key) {
      WithoutOrdered(entries, last, key);
      WithoutExact(entries, key);
      assert forall k :: 0 <= k < |Without(entries, key)| ==> Without(entries, key)[k] in Without(entries, key);
    } else {
      assert forall k :: 0 <= k < |entries| ==> entries[k] in entries && entries[k].key != key;
    }
  }

  // ----- the cache as a time filter

  /** Pruning removes exactly the stale entries if and only if no stale entry stands behind a fresh one. */
  lemma {:induction false} PrunedExactWhen(entries: seq<Entry>, now: nat, maxAge: nat)
    ensures (forall e :: e in Pruned(entries, now, maxAge) ==> !Stale(e.at, now, maxAge)) <==>
            (forall i, j :: 0 <= i < j < |entries| && Stale(entries[j].at, now, maxAge) ==> Stale(entries[i].at, now, maxAge))
  {
    if entries != [] && Stale(entries[0].at, now, maxAge) {
      PrunedExactWhen(entries[1..], now, maxAge);
      assert forall i :: 0 < i < |entries| ==> entries[i] == entries[1..][i - 1];
    } else if exists j :: 0 <= j < |entries| && Stale(entries[j].at, now, maxAge) {
      var j :| 0 <= j < |entries| && Stale(entries[j].at, now, maxAge);
      assert entries[j] in Pruned(entries, now, maxAge);
    }
  }

  datatype CacheOp = Lookup(key: Key, now: nat) | Store(key: Key, now: nat) | Forget(key: Key)

  function StepCache(entries: seq<Entry>, op: CacheOp, maxAge: nat, capacity: nat): (bool, seq<Entry>) {
    match op
    case Lookup(key, now) => (HasKey(Pruned(entries, now, maxAge), key), Pruned(entries, now, maxAge))
    case Store(key, now) => (true, Put(Pruned(entries, now, maxAge), key, now, capacity))
    case Forget(key) => (true, Without(entries, key))
  }

  /** The plain filter: remember the last insertion of every key that was not removed since. */
  ghost function StepFilter(times: map<Key, nat>, op: CacheOp, maxAge: nat): (bool, map<Key, nat>) {
    match op
    case Lookup(key, now) => (key in times && !Stale(times[key], now, maxAge), times)
    case Store(key, now) => (true, times[key := now])
    case Forget(key) => (true, times - {key})
  }

  ghost function CacheAnswers(entries: seq<Entry>, ops: seq<CacheOp>, maxAge: nat, capacity: nat): seq<bool>
    decreases ops
  {
    if ops == [] then []
    else
      var (answer, next) := StepCache(entries, ops[0], maxAge, capacity);
      [answer] + CacheAnswers(next, ops[1..], maxAge, capacity)
  }

  ghost function FilterAnswers(times: map<Key, nat>, ops: seq<CacheOp>, maxAge: nat): seq<bool>
    decreases ops
  {
    if ops == [] then []
    else
      var (answer, next) := StepFilter(times, ops[0], maxAge);
      [answer] + FilterAnswers(next, ops[1..], maxAge)
  }

  ghost function TimeOf(op: CacheOp, last: nat): nat {
    if op.Forget? then last else op.now
  }

  /** Times never go back, and no insertion finds the cache full of other keys. */
  ghost predicate WellTimed(entries: seq<Entry>, ops: seq<CacheOp>, last: nat, maxAge: nat, capacity: nat)
    decreases ops
  {
    ops != [] ==>
      && last <= TimeOf(ops[0], last)
      && (ops[0].Store? ==> var kept := Pruned(entries, ops[0].now, maxAge); HasKey(kept, ops[0].key) || |kept| < capacity)
      && WellTimed(StepCache(entries, ops[0], maxAge, capacity).1, ops[1..], TimeOf(ops[0], last), maxAge, capacity)
  }

  /** The cache holds every entry of the filter that is still fresh, and nothing the filter does not know. */
  ghost predicate Abstracts(entries: seq<Entry>, times: map<Key, nat>, last: nat, maxAge: nat) {
    && Ordered(entries, last)
    && (forall e :: e in entries ==> e.key in times && times[e.key] == e.at)
    && (forall k :: k in times && !Stale(times[k], last, maxAge) ==> Entry(k, times[k]) in entries)
    && (forall k :: k in times ==> times[k] <= last)
  }

  lemma StepAbstracts(entries: seq<Entry>, times: map<Key, nat>, op: CacheOp, last: nat, maxAge: nat, capacity: nat)
    requires Abstracts(entries, times, last, maxAge) && WellTimed(entries, [op], last, maxAge, capacity)
    ensures StepCache(entries, op, maxAge, capacity).0 == StepFilter(times, op, maxAge).0
    ensures Abstracts(StepCache(entries, op, maxAge, capacity).1, StepFilter(times, op, maxAge).1, TimeOf(op, last), maxAge)
  {
    match op
    case Lookup(key, now) =>
      PruneAbstracts(entries, times, last, now, maxAge);
      var kept := Pruned(entries, now, maxAge);
      if HasKey(kept, key) {
        var k :| 0 <= k < |kept| && kept[k].key == key;
        assert kept[k] in kept;
      }
    case Store(key, now) =>
      PruneAbstracts(entries, times, last, now, maxAge);
      StoreAbstracts(Pruned(entries, now, maxAge), times, key, now, maxAge, capacity);
    case Forget(key) =>
      WithoutExact(entries, key);
      WithoutOrdered(entries, last, key);
  }

  lemma PruneAbstracts(entries: seq<Entry>, times: map<Key, nat>, last: nat, now: nat, maxAge: nat)
    requires Abstracts(entries, times, last, maxAge) && last <= now
    ensures Abstracts(Pruned(entries, now, maxAge), times, now, maxAge)
    ensures forall e :: e in Pruned(entries, now, maxAge) ==> !Stale(e.at, now, maxAge)
  {
    PrunedExact(entries, last, now, maxAge);
  }

  lemma StoreAbstracts(entries: seq<Entry>, times: map<Key, nat>, key: Key, now: nat, maxAge: nat, capacity: nat)
    requires Abstracts(entries, times, now, maxAge) && (HasKey(entries, key) || |entries| < capacity)
    ensures Abstracts(Put(entries, key, now, capacity), times[key := now], now, maxAge)
  {
    PutExact(entries, now, key, now, capacity);
  }

  /** Over any operations with forward time and no overflow, the LRU cache answers like the plain time filter. */
  lemma {:induction false} CacheIsTimeFilter(entries: seq<Entry>, times: map<Key, nat>, ops: seq<CacheOp>, last: nat, maxAge: nat, capacity: nat)
    requires Abstracts(entries, times, last, maxAge) && WellTimed(entries, ops, last, maxAge, capacity)
    ensures CacheAnswers(entries, ops, maxAge, capacity) == FilterAnswers(times, ops, maxAge)
    decreases ops
  {
    if ops != [] {
      StepAbstracts(entries, times, ops[0], last, maxAge, capacity);
      CacheIsTimeFilter(StepCache(entries, ops[0], maxAge, capacity).1, StepFilter(times, ops[0], maxAge).1,
                        ops[1..], TimeOf(ops[0], last), maxAge, capacity);
    }
  }

  /** An entry stored after the clock went back by one, and looked up when only it is stale. */
  ghost function Backwards(a: Key, b: Key, maxAge: nat): seq<CacheOp> {
    [Store(a, 1), Store(b, 0), Lookup(b, maxAge + 1)]
  }

  /**
    * With a clock that goes back, a stale entry can hide behind a fresh one and still count as a duplicate, for any
    * window and any cache that holds more than one entry.
    */
  lemma ClockGoingBackDiffers(a: Key, b: Key, maxAge: nat, capacity: nat)
    requires a != b && capacity > 0
    ensures CacheAnswers([], Backwards(a, b, maxAge), maxAge, capacity) == [true, true, capacity > 1]
    ensures FilterAnswers(map[], Backwards(a, b, maxAge), maxAge) == [true, true, false]
  {
    var ops := Backwards(a, b, maxAge);
    assert ops[1..] == [ops[1], ops[2]] && ops[1..][1..] == [ops[2]] && [ops[2]][1..] == [];
    CacheAfterStores(a, b, maxAge, capacity);
    var second := if capacity > 1 then [Entry(a, 1), Entry(b, 0)] else [Entry(b, 0)];
    assert CacheAnswers(second, [ops[2]], maxAge, capacity) == [capacity > 1];
    assert CacheAnswers([Entry(a, 1)], ops[1..], maxAge, capacity) == [true] + [capacity > 1];
    assert FilterAnswers(map[a := 1, b := 0], [ops[2]], maxAge) == [false];
    assert FilterAnswers(map[a := 1], ops[1..], maxAge) == [true] + [false];
  }

  lemma CacheAfterStores(a: Key, b: Key, maxAge: nat, capacity: nat)
    requires a != b && capacity > 0
    ensures StepCache([], Store(a, 1), maxAge, capacity) == (true, [Entry(a, 1)])
    ensures StepCache([Entry(a, 1)], Store(b, 0), maxAge, capacity) ==
            (true, if capacity > 1 then [Entry(a, 1), Entry(b, 0)] else [Entry(b, 0)])
    ensures capacity > 1 ==> StepCache([Entry(a, 1), Entry(b, 0)], Lookup(b, maxAge + 1), maxAge, capacity).0
    ensures !StepCache([Entry(b, 0)], Lookup(b, maxAge + 1), maxAge, capacity).0
  {
    var one, two := Entry(a, 1), Entry(b, 0);
    assert Pruned([], 1, maxAge) == [] && !HasKey([], a) && [] + [one] == [one];
    assert Pruned([one], 0, maxAge) == [one] && [one][1..] == [] && [one] + [two] == [one, two] && [] + [two] == [two];
    assert Pruned([one, two], maxAge + 1, maxAge) == [one, two] && [one, two][1].key == b;
    assert Pruned([two], maxAge + 1, maxAge) == [] by {
      assert [two][1..] == [];
    }
  }

  // ----- which key goes from a full cache

  /** What a cache holds after a list of insertions. */
  ghost function AfterStores(stores: seq<Entry>, maxAge: nat, capacity: nat): seq<Entry> {
    if stores == [] then []
    else
      var last := stores[|stores| - 1];
      StepCache(AfterStores(stores[..|stores| - 1], maxAge, capacity), Store(last.key, last.at), maxAge, capacity).1
  }

  /** The entry was stored at i, and its key not again. */
  ghost predicate LastStore(stores: seq<Entry>, i: int, e: Entry) {
    0 <= i < |stores| && stores[i] == e && forall j :: i < j < |stores| ==> stores[j].key != e.key
  }

  ghost function KeysSince(stores: seq<Entry>, i: int): set<Key> {
    set j | 0 <= j < |stores| && i < j :: stores[j].key
  }

  /** The stored keys, each with its last time, in the order in which they were last stored. */
  ghost function Recent(stores: seq<Entry>): seq<Entry> {
    if stores == [] then []
    else Without(Recent(stores[..|stores| - 1]), stores[|stores| - 1].key) + [stores[|stores| - 1]]
  }

  ghost predicate OncePerKey(entries: seq<Entry>) {
    forall i, j :: 0 <= i < j < |entries| ==> entries[i].key != entries[j].key
  }

  ghost function Keys(entries: seq<Entry>): set<Key> {
    set e | e in entries :: e.key
  }

  /** The keys that stand behind the first entry of this one. */
  ghost function Behind(entries: seq<Entry>, key: Key): set<Key> {
    if entries == [] then {}
    else if entries[0].key == key then Keys(entries[1..])
    else Behind(entries[1..], key)
  }

  lemma {:induction false} WithoutOnce(entries: seq<Entry>, key: Key)
    requires OncePerKey(entries)
    ensures OncePerKey(Without(entries, key))
  {
    if entries != [] {
      WithoutOnce(entries[1..], key);
      WithoutExact(entries[1..], key);
      assert forall e :: e in Without(entries[1..], key) ==> e in entries[1..];
    }
  }

  lemma OnceMore(entries: seq<Entry>, e: Entry)
    requires OncePerKey(entries)
    ensures OncePerKey(Without(entries, e.key) + [e])
  {
    WithoutOnce(entries, e.key);
    WithoutExact(entries, e.key);
    assert forall k :: 0 <= k < |Without(entries, e.key)| ==> Without(entries, e.key)[k] in Without(entries, e.key);
  }

  lemma {:induction false} RecentOnce(stores: seq<Entry>)
    ensures OncePerKey(Recent(stores))
  {
    if stores != [] {
      RecentOnce(stores[..|stores| - 1]);
      OnceMore(Recent(stores[..|stores| - 1]), stores[|stores| - 1]);
    }
  }

  lemma {:induction false} BehindMoves(entries: seq<Entry>, e: Entry, key: Key)
    requires key != e.key && HasKey(entries, key)
    ensures Behind(Without(entries, e.key) + [e], key) == Behind(entries, key) + {e.key}
  {
    var rest := Without(entries[1..], e.key);
    if entries[0].key == key {
      WithoutExact(entries[1..], e.key);
      assert Without(entries, e.key) + [e] == [entries[0]] + (rest + [e]);
      KeysMove(entries[1..], e);
    } else {
      var k :| 0 <= k < |entries| && entries[k].key == key;
      assert entries[1..][k - 1].key == key;
      BehindMoves(entries[1..], e, key);
      if entries[0].key != e.key {
        assert Without(entries, e.key) + [e] == [entries[0]] + (rest + [e]);
      } else {
        assert Without(entries, e.key) == rest;
      }
    }
  }

  lemma KeysMove(entries: seq<Entry>, e: Entry)
    ensures Keys(Without(entries, e.key) + [e]) == Keys(entries) + {e.key}
  {
    WithoutExact(entries, e.key);
    var moved := Without(entries, e.key) + [e];
    forall key ensures key in Keys(moved) <==> key in Keys(entries) + {e.key} {
      if key in Keys(entries) && key != e.key {
        var x :| x in entries && x.key == key;
        assert x in moved;
      }
      if key == e.key {
        assert e in moved;
      }
    }
  }

  lemma OwnStore(stores: seq<Entry>, e: Entry)
    requires stores != [] && e.key == stores[|stores| - 1].key
    ensures e in Recent(stores) <==> e == stores[|stores| - 1]
    ensures forall i :: LastStore(stores, i, e) ==> i == |stores| - 1 && Behind(Recent(stores), e.key) == KeysSince(stores, i)
  {
    var before, last := Recent(stores[..|stores| - 1]), stores[|stores| - 1];
    WithoutExact(before, last.key);
    var rest := Without(before, last.key);
    assert !HasKey(rest, last.key) by {
      assert forall k :: 0 <= k < |rest| ==> rest[k] in rest;
    }
    BehindLast(rest, last);
  }

  lemma EarlierRecent(stores: seq<Entry>, e: Entry)
    requires stores != [] && e.key != stores[|stores| - 1].key
    ensures e in Recent(stores) <==> e in Recent(stores[..|stores| - 1])
  {
    WithoutExact(Recent(stores[..|stores| - 1]), stores[|stores| - 1].key);
  }

  lemma EarlierStore(before: seq<Entry>, last: Entry, i: int, e: Entry)
    requires e.key != last.key
    ensures LastStore(before + [last], i, e) <==> LastStore(before, i, e)
  {
    var stores := before + [last];
    assert stores[|before|] == last;
    assert forall j :: 0 <= j < |before| ==> stores[j] == before[j];
  }

  lemma EarlierBehind(stores: seq<Entry>, e: Entry, i: int)
    requires stores != [] && e.key != stores[|stores| - 1].key && LastStore(stores, i, e)
    requires e in Recent(stores[..|stores| - 1])
    requires Behind(Recent(stores[..|stores| - 1]), e.key) == KeysSince(stores[..|stores| - 1], i)
    ensures Behind(Recent(stores), e.key) == KeysSince(stores, i)
  {
    var before := Recent(stores[..|stores| - 1]);
    var k :| 0 <= k < |before| && before[k] == e;
    BehindMoves(before, stores[|stores| - 1], e.key);
    KeysSinceLast(stores, i);
  }

  /** The recent entries are the last stores, with the keys stored since behind them. */
  lemma {:induction false} RecentExact(stores: seq<Entry>, e: Entry)
    ensures e in Recent(stores) <==> exists i :: LastStore(stores, i, e)
    ensures forall i :: LastStore(stores, i, e) ==> Behind(Recent(stores), e.key) == KeysSince(stores, i)
  {
    if stores != [] {
      var m := |stores| - 1;
      if e.key == stores[m].key {
        OwnStore(stores, e);
        assert e == stores[m] ==> LastStore(stores, m, e);
      } else {
        var before := stores[..m];
        assert stores == before + [stores[m]];
        RecentExact(before, e);
        EarlierRecent(stores, e);
        if e in Recent(before) {
          var i :| LastStore(before, i, e);
          EarlierStore(before, stores[m], i, e);
        }
        forall i | LastStore(stores, i, e) ensures LastStore(before, i, e) && Behind(Recent(stores), e.key) == KeysSince(stores, i) {
          EarlierStore(before, stores[m], i, e);
          EarlierBehind(stores, e, i);
        }
      }
    }
  }

  lemma KeysSinceLast(stores: seq<Entry>, i: int)
    requires 0 <= i < |stores| - 1
    ensures KeysSince(stores, i) == KeysSince(stores[..|stores| - 1], i) + {stores[|stores| - 1].key}
  {
    assert forall j :: i < j < |stores| - 1 ==> stores[..|stores| - 1][j] == stores[j];
    forall key ensures key in KeysSince(stores, i) <==> key in KeysSince(stores[..|stores| - 1], i) + {stores[|stores| - 1].key} {
      if key in KeysSince(stores, i) {
        var j :| i < j < |stores| && stores[j].key == key;
        assert j < |stores| - 1 ==> stores[..|stores| - 1][j].key == key;
      }
    }
  }

  lemma {:induction false} BehindLast(entries: seq<Entry>, last: Entry)
    requires !HasKey(entries, last.key)
    ensures Behind(entries + [last], last.key) == {}
  {
    if entries == [] {
      assert entries + [last] == [last];
    } else {
      assert entries[0].key != last.key;
      assert (entries + [last])[1..] == entries[1..] + [last];
      assert forall k :: 0 <= k < |entries[1..]| ==> entries[1..][k] == entries[k + 1];
      BehindLast(entries[1..], last);
    }
  }

  lemma {:induction false} KeyCount(entries: seq<Entry>)
    requires OncePerKey(entries)
    ensures |Keys(entries)| == |entries|
  {
    if entries == [] {
      assert Keys(entries) == {};
    } else {
      KeyCount(entries[1..]);
      assert entries == [entries[0]] + entries[1..];
      assert Keys(entries) == {entries[0].key} + Keys(entries[1..]);
      forall e | e in entries[1..] ensures e.key != entries[0].key {
        var k :| 0 <= k < |entries[1..]| && entries[1..][k] == e;
        assert entries[k + 1] == e;
      }
    }
  }

  lemma {:induction false} BehindCount(entries: seq<Entry>, p: nat)
    requires OncePerKey(entries) && p < |entries|
    ensures |Behind(entries, entries[p].key)| == |entries| - 1 - p
  {
    if p == 0 {
      KeyCount(entries[1..]);
    } else {
      assert entries[0].key != entries[p].key;
      BehindCount(entries[1..], p - 1);
    }
  }

  /** No stored entry is stale when a later one is stored. */
  ghost predicate InWindow(stores: seq<Entry>, maxAge: nat) {
    forall i, j :: 0 <= i <= j < |stores| ==> !Stale(stores[i].at, stores[j].at, maxAge)
  }

  ghost function Newest(entries: seq<Entry>, n: nat): seq<Entry> {
    if |entries| <= n then entries else entries[|entries| - n..]
  }

  lemma {:induction false} WithoutAppend(a: seq<Entry>, b: seq<Entry>, key: Key)
    ensures Without(a + b, key) == Without(a, key) + Without(b, key)
  {
    if a == [] {
      assert a + b == b;
    } else {
      assert (a + b)[1..] == a[1..] + b;
      WithoutAppend(a[1..], b, key);
    }
  }

  lemma {:induction false} WithoutAbsent(entries: seq<Entry>, key: Key)
    requires !HasKey(entries, key)
    ensures Without(entries, key) == entries
  {
    if entries != [] {
      assert entries[0].key != key;
      assert forall k :: 0 <= k < |entries[1..]| ==> entries[1..][k] == entries[k + 1];
      WithoutAbsent(entries[1..], key);
    }
  }

  lemma {:induction false} WithoutOne(entries: seq<Entry>, key: Key)
    requires OncePerKey(entries) && HasKey(entries, key)
    ensures |Without(entries, key)| == |entries| - 1
  {
    if entries[0].key == key {
      forall k | 0 <= k < |entries[1..]| ensures entries[1..][k].key != key {
        assert entries[1..][k] == entries[k + 1];
      }
      WithoutAbsent(entries[1..], key);
    } else {
      var k :| 0 <= k < |entries| && entries[k].key == key;
      assert entries[1..][k - 1].key == key;
      WithoutOne(entries[1..], key);
    }
  }

  lemma NewestTail(a: seq<Entry>, b: seq<Entry>, n: nat)
    requires |b| == n || (a == [] && |b| <= n)
    ensures Newest(a + b, n) == b
  {
  }

  lemma PutHeld(gone: seq<Entry>, held: seq<Entry>, e: Entry, capacity: nat)
    requires OncePerKey(held) && HasKey(held, e.key) && !HasKey(gone, e.key)
    requires |held| == capacity || (gone == [] && |held| <= capacity)
    ensures Put(held, e.key, e.at, capacity) == Newest(Without(gone + held, e.key) + [Entry(e.key, e.at)], capacity)
  {
    WithoutAppend(gone, held, e.key);
    WithoutAbsent(gone, e.key);
    WithoutOne(held, e.key);
    var moved := Without(held, e.key) + [Entry(e.key, e.at)];
    assert gone + Without(held, e.key) + [Entry(e.key, e.at)] == gone + moved;
    NewestTail(gone, moved, capacity);
  }

  lemma PutOther(gone: seq<Entry>, held: seq<Entry>, e: Entry, capacity: nat)
    requires !HasKey(held, e.key) && capacity > 0
    requires |held| == capacity || (gone == [] && |held| <= capacity)
    ensures Put(held, e.key, e.at, capacity) == Newest(Without(gone + held, e.key) + [Entry(e.key, e.at)], capacity)
  {
    WithoutAppend(gone, held, e.key);
    WithoutAbsent(held, e.key);
    var rest, last := Without(gone, e.key), [Entry(e.key, e.at)];
    if |held| == capacity {
      assert held == [held[0]] + held[1..];
      assert rest + held + last == (rest + [held[0]]) + (held[1..] + last);
      NewestTail(rest + [held[0]], held[1..] + last, capacity);
    } else {
      assert rest + held + last == [] + (held + last);
      NewestTail([], held + last, capacity);
    }
  }

  lemma SplitNewest(entries: seq<Entry>, n: nat) returns (gone: seq<Entry>)
    ensures entries == gone + Newest(entries, n)
    ensures |Newest(entries, n)| == n || (gone == [] && |Newest(entries, n)| <= n)
  {
    gone := entries[..|entries| - |Newest(entries, n)|];
  }

  lemma HeldOnly(gone: seq<Entry>, held: seq<Entry>, key: Key)
    requires OncePerKey(gone + held) && HasKey(held, key)
    ensures OncePerKey(held) && !HasKey(gone, key)
  {
    var k :| 0 <= k < |held| && held[k].key == key;
    assert forall i :: 0 <= i < |held| ==> held[i] == (gone + held)[|gone| + i];
    assert forall i :: 0 <= i < |gone| ==> gone[i] == (gone + held)[i];
  }

  /** Putting an entry into the newest of a list gives the newest of the list with the entry moved to its end. */
  lemma PutNewest(entries: seq<Entry>, e: Entry, capacity: nat)
    requires OncePerKey(entries) && capacity > 0
    ensures Put(Newest(entries, capacity), e.key, e.at, capacity) == Newest(Without(entries, e.key) + [Entry(e.key, e.at)], capacity)
  {
    var held := Newest(entries, capacity);
    var gone := SplitNewest(entries, capacity);
    if HasKey(held, e.key) {
      HeldOnly(gone, held, e.key);
      PutHeld(gone, held, e, capacity);
    } else {
      PutOther(gone, held, e, capacity);
    }
  }

  lemma NotPruned(entries: seq<Entry>, now: nat, maxAge: nat)
    requires forall e :: e in entries ==> !Stale(e.at, now, maxAge)
    ensures Pruned(entries, now, maxAge) == entries
  {
    assert entries != [] ==> entries[0] in entries;
  }

  lemma {:induction false} HoldsNewest(stores: seq<Entry>, maxAge: nat, capacity: nat)
    requires InWindow(stores, maxAge) && capacity > 0
    ensures AfterStores(stores, maxAge, capacity) == Newest(Recent(stores), capacity)
  {
    if stores != [] {
      var m := |stores| - 1;
      HoldsNewest(stores[..m], maxAge, capacity);
      var held := AfterStores(stores[..m], maxAge, capacity);
      forall e | e in held ensures !Stale(e.at, stores[m].at, maxAge) {
        RecentExact(stores[..m], e);
        var i :| LastStore(stores[..m], i, e);
        assert stores[i] == e;
      }
      NotPruned(held, stores[m].at, maxAge);
      RecentOnce(stores[..m]);
      PutNewest(Recent(stores[..m]), stores[m], capacity);
    }
  }

  /**
    * Within the window, a cache that is full of other keys drops the one stored longest ago: it holds an entry exactly
    * when it is the last of its key and fewer other keys than the capacity were stored since.
    */
  lemma EvictsOldest(stores: seq<Entry>, maxAge: nat, capacity: nat, e: Entry)
    requires InWindow(stores, maxAge) && capacity > 0
    ensures e in AfterStores(stores, maxAge, capacity) <==>
              exists i :: LastStore(stores, i, e) && |KeysSince(stores, i)| < capacity
  {
    var recent := Recent(stores);
    HoldsNewest(stores, maxAge, capacity);
    RecentExact(stores, e);
    RecentOnce(stores);
    if e in recent {
      var i :| LastStore(stores, i, e);
      var p :| 0 <= p < |recent| && recent[p] == e;
      BehindCount(recent, p);
      assert |KeysSince(stores, i)| == |recent| - 1 - p;
      forall j | LastStore(stores, j, e) ensures |KeysSince(stores, j)| == |recent| - 1 - p {
      }
      NewestExact(recent, capacity, p);
    } else {
      assert forall x :: x in Newest(recent, capacity) ==> x in recent;
    }
  }

  lemma NewestExact(entries: seq<Entry>, n: nat, p: nat)
    requires OncePerKey(entries) && p < |entries|
    ensures entries[p] in Newest(entries, n) <==> |entries| - 1 - p < n
  {
    var newest := Newest(entries, n);
    if |entries| - 1 - p < n {
      assert newest[p - (|entries| - |newest|)] == entries[p];
    }
  }
}
