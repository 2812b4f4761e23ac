/**
  * What the answers of a broker tell about its requests: where they go, what the provider makes of them,
  * which fields the cache tells apart, and how long an answer stays.
  */
module BrokerCalls {
  import opened Json
  import opened ModelBroker

  // ----- routing

  /** A pattern covers the models that start with what stands before its final star, and its own text. */
  ghost predicate Covers(pattern: string, model: string) {
    pattern == model || exists prefix: string :: pattern == prefix + "*" && prefix <= model
  }

  lemma MatchesExact(pattern: string, model: string)
    ensures Matches(pattern, model) <==> Covers(pattern, model)
  {
    if pattern != "" && pattern[|pattern| - 1] == '*' {
      var start := pattern[..|pattern| - 1];
      assert pattern == start + "*";
      forall prefix: string | pattern == prefix + "*" ensures prefix == start {
        assert prefix == (prefix + "*")[..|prefix|];
      }
    } else {
      forall prefix: string ensures pattern != prefix + "*" {
        assert (prefix + "*")[|prefix|] == '*';
      }
    }
  }

  /** Route k is the first that covers the model. */
  ghost predicate Leads(routes: seq<Route>, k: int, model: string) {
    0 <= k < |routes| && Covers(routes[k].pattern, model) && forall i :: 0 <= i < k ==> !Covers(routes[i].pattern, model)
  }

  lemma {:induction false} FirstRoute(routes: seq<Route>, model: string)
    ensures FindRoute(routes, model).None? ==> forall k :: 0 <= k < |routes| ==> !Covers(routes[k].pattern, model)
    ensures FindRoute(routes, model).Some? ==>
              exists k :: Leads(routes, k, model) && routes[k] == FindRoute(routes, model).value
  {
    if routes != [] {
      MatchesExact(routes[0].pattern, model);
      FirstRoute(routes[1..], model);
      if Matches(routes[0].pattern, model) {
        assert Leads(routes, 0, model);
      } else if FindRoute(routes[1..], model).Some? {
        var k :| Leads(routes[1..], k, model) && routes[1..][k] == FindRoute(routes[1..], model).value;
        forall i | 0 <= i < k + 1 ensures !Covers(routes[i].pattern, model) {
          assert i > 0 ==> routes[i] == routes[1..][i - 1];
        }
        assert routes[k + 1] == routes[1..][k];
        assert Leads(routes, k + 1, model);
      } else {
        forall k | 0 <= k < |routes| ensures !Covers(routes[k].pattern, model) {
          assert k > 0 ==> routes[k] == routes[1..][k - 1];
        }
      }
    }
  }

  /** A request goes to the provider of the first route that covers its model, under that route's name for the model. */
  lemma PlaceExact(c: Config, q: Request, k: int)
    requires Leads(c.routes, k, q.model)
    ensures TargetOf(c, q) == if q.stream then Nowhere(StreamingUnsupported)
                              else if c.routes[k].provider !in c.providers then Nowhere(UnknownProvider(c.routes[k].provider))
                              else Target(c.routes[k].provider,
                                          if c.routes[k].targetModel.Some? then c.routes[k].targetModel.value else q.model)
  {
    FirstRoute(c.routes, q.model);
    var found := FindRoute(c.routes, q.model);
    if found.Some? {
      var j :| Leads(c.routes, j, q.model) && c.routes[j] == found.value;
      assert j == k;
    }
  }

  /** A request whose model no route covers is refused for that. */
  lemma NoPlaceExact(c: Config, q: Request)
    ensures TargetOf(c, q) == Nowhere(NoRoute(q.model)) <==>
              !q.stream && forall k :: 0 <= k < |c.routes| ==> !Covers(c.routes[k].pattern, q.model)
  {
    FirstRoute(c.routes, q.model);
    if FindRoute(c.routes, q.model).Some? {
      var k :| Leads(c.routes, k, q.model) && c.routes[k] == FindRoute(c.routes, q.model).value;
      assert Covers(c.routes[k].pattern, q.model);
    }
  }

  // ----- what a provider's answer becomes

  /** The tokens reported, or the least number n with four bytes a token. */
  ghost predicate Counts(reported: Option<u32>, bytes: nat, n: u32) {
    if reported.Some? then n == reported.value else bytes <= 4 * n < bytes + 4
  }

  /** The answer with these token counts: within the smaller of the wish and the cap, or refused. Zero is no limit. */
  ghost function Within(c: Config, q: Request, place: Target, latencyMs: u32, k: Completion, tokensIn: u32, tokensOut: u32): Result
    requires place.Target?
  {
    var wanted := if q.budgetTokens.Some? then q.budgetTokens.value else c.defaultTokens;
    var limit := if 0 < c.requestCap < wanted then c.requestCap else wanted;
    var used := if tokensIn + tokensOut < 0x1_0000_0000 then tokensIn + tokensOut else 0xFFFF_FFFF;
    if 0 < limit < used then Err(BudgetExceeded(limit, used))
    else Ok(Output(k.text, tokensIn, tokensOut, false, place.provider,
                   if k.providerModel == "" then place.hint else k.providerModel, latencyMs, k.finishReason))
  }

  /** A completion of the provider is passed on with the reported or estimated tokens unless they exceed the limit. */
  lemma AnswerExact(c: Config, q: Request, latencyMs: u32, k: Completion)
    requires TargetOf(c, q).Target?
    requires c.providers[TargetOf(c, q).provider](Ask(TargetOf(c, q).hint, q.prompt, q.system, q.params, q.extras)) == Completed(k)
    requires |q.prompt| + (if q.system.Some? then |q.system.value| else 0) < 0x1_0000_0000 && |k.text| < 0x1_0000_0000
    ensures exists tokensIn, tokensOut ::
              && Counts(k.tokensIn, |q.prompt| + (if q.system.Some? then |q.system.value| else 0), tokensIn)
              && Counts(k.tokensOut, |k.text|, tokensOut)
              && Direct(c, q, latencyMs) == Within(c, q, TargetOf(c, q), latencyMs, k, tokensIn, tokensOut)
  {
    var out := Settle(q, TargetOf(c, q), k, latencyMs);
    EstimateExact(PromptLength(q));
    EstimateExact(|k.text|);
    LimitExact(c, q);
    assert Direct(c, q, latencyMs) == Within(c, q, TargetOf(c, q), latencyMs, k, out.tokensIn, out.tokensOut);
  }

  lemma EstimateExact(bytes: nat)
    requires bytes < 0x4_0000_0000 - 4
    ensures Counts(None, bytes, EstimateTokens(bytes))
  {
  }

  lemma LimitExact(c: Config, q: Request)
    ensures var wanted := if q.budgetTokens.Some? then q.budgetTokens.value else c.defaultTokens;
            var limit := if 0 < c.requestCap < wanted then c.requestCap else wanted;
            EffectiveLimit(c, q) == if limit == 0 then None else Some(limit)
  {
  }

  /** A refusal of the provider is passed on as its fault. */
  lemma RefusalExact(c: Config, q: Request, latencyMs: u32, reason: string)
    requires TargetOf(c, q).Target?
    requires c.providers[TargetOf(c, q).provider](Ask(TargetOf(c, q).hint, q.prompt, q.system, q.params, q.extras)) == Refused(reason)
    ensures Direct(c, q, latencyMs) == Err(ProviderFault(reason))
  {
  }

  // ----- what the cache tells apart

  /** The bytes of a text that may be missing. */
  ghost function Text(o: Option<string>): string {
    if o.Some? then o.value else ""
  }

  ghost function Encoded(c: Config, o: Option<Json>): string {
    if o.Some? then c.render(o.value) else ""
  }

  /** Everything a key is made of, laid end to end. */
  ghost function Fed(c: Config, place: Target, q: Request): string
    requires place.Target?
  {
    place.provider + place.hint + q.prompt + Text(q.system) + Encoded(c, q.params) + Encoded(c, q.extras) + Text(q.cacheKey)
  }

  ghost predicate Injective(digest: string -> string) {
    forall a, b :: digest(a) == digest(b) ==> a == b
  }

  lemma KeysEqualExact(c: Config, p: Request, q: Request)
    requires TargetOf(c, p).Target? && TargetOf(c, q).Target? && Injective(c.digest)
    ensures KeyOf(c, p) == KeyOf(c, q) <==> Fed(c, TargetOf(c, p), p) == Fed(c, TargetOf(c, q), q)
  {
  }

  lemma CancelTail(a: string, b: string, tail: string)
    requires a + tail == b + tail
    ensures a == b
  {
    assert |a + tail| == |b + tail|;
    assert a == (a + tail)[..|a|];
    assert b == (b + tail)[..|b|];
  }

  lemma CancelHead(head: string, a: string, b: string)
    requires head + a == head + b
    ensures a == b
  {
    assert a == (head + a)[|head|..];
    assert b == (head + b)[|head|..];
  }

  /** Requests to one place that differ in the bytes of one field. */
  ghost predicate OneFieldApart(c: Config, p: Request, q: Request) {
    || (q == p.(prompt := q.prompt) && p.prompt != q.prompt)
    || (q == p.(system := q.system) && Text(p.system) != Text(q.system))
    || (q == p.(params := q.params) && Encoded(c, p.params) != Encoded(c, q.params))
    || (q == p.(extras := q.extras) && Encoded(c, p.extras) != Encoded(c, q.extras))
    || (q == p.(cacheKey := q.cacheKey) && Text(p.cacheKey) != Text(q.cacheKey))
  }

  lemma OneFieldTells(c: Config, place: Target, p: Request, q: Request)
    requires place.Target? && OneFieldApart(c, p, q)
    ensures Fed(c, place, p) != Fed(c, place, q)
  {
    if Fed(c, place, p) == Fed(c, place, q) {
      var head := place.provider + place.hint;
      if p.cacheKey != q.cacheKey {
        CancelHead(head + p.prompt + Text(p.system) + Encoded(c, p.params) + Encoded(c, p.extras), Text(p.cacheKey), Text(q.cacheKey));
      } else {
        CancelTail(head + p.prompt + Text(p.system) + Encoded(c, p.params) + Encoded(c, p.extras),
                   head + q.prompt + Text(q.system) + Encoded(c, q.params) + Encoded(c, q.extras), Text(p.cacheKey));
        if p.extras != q.extras {
          CancelHead(head + p.prompt + Text(p.system) + Encoded(c, p.params), Encoded(c, p.extras), Encoded(c, q.extras));
        } else {
          CancelTail(head + p.prompt + Text(p.system) + Encoded(c, p.params),
                     head + q.prompt + Text(q.system) + Encoded(c, q.params), Encoded(c, p.extras));
          if p.params != q.params {
            CancelHead(head + p.prompt + Text(p.system), Encoded(c, p.params), Encoded(c, q.params));
          } else {
            CancelTail(head + p.prompt + Text(p.system), head + q.prompt + Text(q.system), Encoded(c, p.params));
            if p.system != q.system {
              CancelHead(head + p.prompt, Text(p.system), Text(q.system));
            } else {
              CancelTail(head + p.prompt, head + q.prompt, Text(p.system));
              CancelHead(head, p.prompt, q.prompt);
            }
          }
        }
      }
    }
  }

  /** An answer given at one time may be served at another: the cache is on, the request allows it, and it is not too late. */
  ghost predicate Lives(c: Config, p: Request, storedAt: nat, now: nat) {
    && c.capacity > 0 && c.ttlMs > 0 && p.cacheTtlMs != Some(0)
    && now < storedAt + (if p.cacheTtlMs.Some? then p.cacheTtlMs.value else c.ttlMs)
  }

  /** The answer of the provider, or a timeout when the request sets a limit and the provider is late. */
  ghost function Uncached(c: Config, q: Request, env: Env): Result {
    if env.late && q.timeoutMs.Some? && q.timeoutMs.value != 0 then Err(Timeout(q.timeoutMs.value))
    else Direct(c, q, env.latencyMs)
  }

  /**
    * With a digest that tells all texts apart, a new broker asked two routed requests serves the second from its cache
    * exactly when the first was answered, its answer still lives, and both feed the same bytes;
    * so never when they go to one place and differ in the bytes of one field.
    */
  method AskTwice(c: Config, p: Request, q: Request, env: Env, env': Env)
    returns (first: Result, second: Result, hit: bool)
    requires Injective(c.digest) && TargetOf(c, p).Target? && TargetOf(c, q).Target?
    ensures hit <==> first.Ok? && Lives(c, p, env.storedAt, env'.checkedAt)
                     && Fed(c, TargetOf(c, p), p) == Fed(c, TargetOf(c, q), q)
    ensures TargetOf(c, p) == TargetOf(c, q) && OneFieldApart(c, p, q) ==> !hit
    ensures !hit ==> second == Uncached(c, q, env')
    ensures hit && second.Ok? ==> second.output == first.output.(cached := true)
  {
    var broker := new Broker(c);
    ghost var missed, served;
    first, missed := broker.Complete(p, env);
    assert broker.log == [Call(p, env, false, first)];
    Missed(c, broker.log, 0);
    HitsSoFar([], broker.log[0]);
    FirstServes(c, p, env, first, broker.store, q, env'.checkedAt);
    second, served := broker.Complete(q, env');
    hit := broker.cacheHits > 0;
    HitsSoFar(broker.log[..1], broker.log[1]);
    assert broker.log == broker.log[..1] + [broker.log[1]];
    if TargetOf(c, p) == TargetOf(c, q) && OneFieldApart(c, p, q) {
      OneFieldTells(c, TargetOf(c, p), p, q);
    }
    if !hit {
      Missed(c, broker.log, 1);
    }
  }

  /** What the first answer leaves in the cache. */
  lemma FirstServes(c: Config, p: Request, env: Env, first: Result, store: seq<Entry>, q: Request, now: nat)
    requires Injective(c.digest) && TargetOf(c, p).Target? && TargetOf(c, q).Target?
    requires StoreAfter(c, [], Call(p, env, false, first), store)
    ensures Fresh(store, KeyOf(c, q), now) <==>
              first.Ok? && Lives(c, p, env.storedAt, now) && Fed(c, TargetOf(c, p), p) == Fed(c, TargetOf(c, q), q)
    ensures first.Ok? ==> forall e :: e in store ==> e.output == first.output
  {
    KeysEqualExact(c, p, q);
    if first.Ok? && EffectiveTtl(c, p).Some? {
      PutFirst(c.capacity, EntryFor(c, p, env, first.output));
      assert store == [EntryFor(c, p, env, first.output)];
      assert store[0].key == KeyOf(c, p) && (store[0].expiresAt > now <==> Lives(c, p, env.storedAt, now));
    } else {
      assert store == [];
    }
  }

  lemma HitsSoFar(log: seq<Call>, call: Call)
    ensures Hits(log + [call]) == Hits(log) + if call.hit then 1 else 0
  {
    assert (log + [call])[..|log|] == log;
  }

  lemma Missed(c: Config, log: seq<Call>, i: nat)
    requires AllJustified(c, log) && i < |log| && !log[i].hit
    ensures TargetOf(c, log[i].request).Target? ==> log[i].result == Uncached(c, log[i].request, log[i].env)
  {
    assert JustifiedAt(c, log, i);
  }

  /**
    * In any run with such a digest, a call that hits repeats the answer that a provider gave to an earlier request
    * that fed the same bytes, within the time that answer may be served and the budget of this request.
    */
  lemma HitMeansSameBytes(c: Config, log: seq<Call>, i: nat)
    requires AllJustified(c, log) && Injective(c.digest) && i < |log| && log[i].hit
    ensures exists j :: 0 <= j < i && SameBytes(c, log[j].request, log[i].request) && log[j].result.Ok?
                        && log[j].result == Direct(c, log[j].request, log[j].env.latencyMs)
                        && Lives(c, log[j].request, log[j].env.storedAt, log[i].env.checkedAt)
                        && Agrees(log[i].result, Enforce(c, log[i].request, log[j].result.output))
  {
    assert JustifiedAt(c, log, i);
    var call := log[i];
    var j :| 0 <= j < i && Serves(c, log[..i][j], KeyOf(c, call.request), call.env.checkedAt)
             && Agrees(call.result, Enforce(c, call.request, log[..i][j].result.output));
    assert log[..i][j] == log[j];
    KeysEqualExact(c, log[j].request, call.request);
    assert JustifiedAt(c, log, j);
  }

  ghost predicate SameBytes(c: Config, p: Request, q: Request) {
    TargetOf(c, p).Target? && TargetOf(c, q).Target? && Fed(c, TargetOf(c, p), p) == Fed(c, TargetOf(c, q), q)
  }

  // ----- how long an answer stays

  /** What the routed calls from i up to j feed to the digest. */
  ghost function Between(c: Config, log: seq<Call>, i: nat, j: nat): set<string>
    requires j <= |log|
  {
    if j <= i then {}
    else
      var place := TargetOf(c, log[j - 1].request);
      Between(c, log, i, j - 1) + if place.Target? then {Fed(c, place, log[j - 1].request)} else {}
  }

  /** Call i stored an answer, call j asks for it in time, and the calls between ask for fewer others than the cache holds. */
  ghost predicate StillKept(c: Config, log: seq<Call>, i: nat, j: nat)
    requires i < j < |log|
  {
    && SameBytes(c, log[i].request, log[j].request) && !log[i].hit && log[i].result.Ok?
    && Lives(c, log[i].request, log[i].env.storedAt, log[j].env.checkedAt)
    && Fed(c, TargetOf(c, log[i].request), log[i].request) !in Between(c, log, i + 1, j)
    && |Between(c, log, i + 1, j)| < c.capacity
  }

  /** The entry is in the store, behind entries under the digests of these texts only. */
  ghost predicate Behind(c: Config, store: seq<Entry>, e: Entry, pos: int, texts: set<string>) {
    0 <= pos < |store| && store[pos] == e && Among(c, store[..pos], texts)
  }

  ghost predicate Among(c: Config, store: seq<Entry>, texts: set<string>) {
    forall x :: x in store ==> DigestOf(c, x.key, texts)
  }

  ghost predicate DigestOf(c: Config, key: string, texts: set<string>) {
    exists f :: f in texts && c.digest(f) == key
  }

  lemma {:induction false} WithoutSplits(a: seq<Entry>, b: seq<Entry>, key: string)
    ensures Without(a + b, key) == Without(a, key) + Without(b, key)
  {
    if a == [] {
      assert a + b == b;
    } else {
      assert (a + b)[1..] == a[1..] + b;
      WithoutSplits(a[1..], b, key);
    }
  }

  lemma SplitAt(a: seq<Entry>, b: seq<Entry>)
    requires b != []
    ensures (a + b)[..|a|] == a && (a + b)[|a|] == b[0]
  {
  }

  lemma WithoutKeepsPlace(store: seq<Entry>, key: string, pos: nat) returns (pos': nat)
    requires pos < |store| && store[pos].key != key
    ensures pos' < |Without(store, key)| && Without(store, key)[pos'] == store[pos]
    ensures forall x :: x in Without(store, key)[..pos'] ==> x in store[..pos]
  {
    var head, tail := store[..pos], store[pos..];
    assert head + tail == store;
    WithoutSplits(head, tail, key);
    pos' := |Without(head, key)|;
    assert Without(tail, key)[0] == tail[0];
    SplitAt(Without(head, key), Without(tail, key));
  }

  lemma {:induction false} Pigeonhole(c: Config, store: seq<Entry>, texts: set<string>)
    requires DistinctKeys(store) && Among(c, store, texts)
    ensures |store| <= |texts|
  {
    if store != [] {
      var last := store[|store| - 1];
      var f :| f in texts && c.digest(f) == last.key;
      forall x | x in store[..|store| - 1] ensures DigestOf(c, x.key, texts - {f}) {
        var g :| g in texts && c.digest(g) == x.key;
        assert g in texts - {f};
      }
      Pigeonhole(c, store[..|store| - 1], texts - {f});
    }
  }

  lemma AmongMore(c: Config, store: seq<Entry>, texts: set<string>, part: seq<Entry>, text: string)
    requires Among(c, store, texts) && forall x :: x in part ==> x in store
    ensures Among(c, part, texts + {text})
  {
    forall x | x in part ensures DigestOf(c, x.key, texts + {text}) {
      var f :| f in texts && c.digest(f) == x.key;
      assert f in texts + {text};
    }
  }

  /** Moving another key to the front pushes the entry back by at most that key. */
  lemma PushedBack(c: Config, before: seq<Entry>, e: Entry, pos: int, texts: set<string>, front: Entry, text: string)
    returns (pos': int)
    requires Behind(c, before, e, pos, texts) && front.key == c.digest(text) && front.key != e.key
    ensures Behind(c, [front] + Without(before, front.key), e, pos', texts + {text})
  {
    var p := WithoutKeepsPlace(before, front.key, pos);
    var rest := Without(before, front.key);
    AmongMore(c, before[..pos], texts, rest[..p], text);
    pos' := p + 1;
    assert text in texts + {text};
    assert DigestOf(c, front.key, texts + {text});
    InFront(c, front, rest, p, texts + {text});
  }

  lemma InFront(c: Config, front: Entry, rest: seq<Entry>, p: nat, texts: set<string>)
    requires p < |rest| && Among(c, rest[..p], texts) && DigestOf(c, front.key, texts)
    ensures Behind(c, [front] + rest, rest[p], p + 1, texts)
  {
    assert ([front] + rest)[..p + 1] == [front] + rest[..p];
  }

  /** Putting another entry drops none that has fewer entries than the capacity before it. */
  lemma PutKeeps(c: Config, before: seq<Entry>, e: Entry, pos: int, texts: set<string>, front: Entry, text: string)
    returns (pos': int)
    requires DistinctKeys(before) && Behind(c, before, e, pos, texts) && front.key == c.digest(text) && front.key != e.key
    requires |texts + {text}| < c.capacity
    ensures Behind(c, Put(before, c.capacity, front), e, pos', texts + {text})
  {
    pos' := PushedBack(c, before, e, pos, texts, front, text);
    var rest := Without(before, front.key);
    var all := [front] + rest;
    assert DistinctKeys(all) by {
      forall x | 0 <= x < |rest| ensures rest[x].key != front.key {
        assert rest[x] in rest;
      }
    }
    Pigeonhole(c, all[..pos'], texts + {text});
    assert all[..Min(|all|, c.capacity)][..pos'] == all[..pos'];
  }

  lemma RemovedKeeps(c: Config, before: seq<Entry>, e: Entry, pos: int, texts: set<string>, key: string, text: string)
    returns (pos': int)
    requires Behind(c, before, e, pos, texts) && key != e.key
    ensures Behind(c, Without(before, key), e, pos', texts + {text})
  {
    pos' := WithoutKeepsPlace(before, key, pos);
    AmongMore(c, before[..pos], texts, Without(before, key)[..pos'], text);
  }

  /** A call under another key leaves the entry behind the keys asked for since, if the cache has room for them. */
  lemma StaysBehind(c: Config, before: seq<Entry>, call: Call, after: seq<Entry>, e: Entry, pos: int, texts: set<string>)
    returns (pos': int)
    requires StoreAfter(c, before, call, after) && DistinctKeys(before) && Behind(c, before, e, pos, texts)
    requires TargetOf(c, call.request).Target? && KeyOf(c, call.request) != e.key
    requires |texts + {Fed(c, TargetOf(c, call.request), call.request)}| < c.capacity
    ensures Behind(c, after, e, pos', texts + {Fed(c, TargetOf(c, call.request), call.request)})
  {
    var key, text := KeyOf(c, call.request), Fed(c, TargetOf(c, call.request), call.request);
    if call.hit {
      pos' := PushedBack(c, before, e, pos, texts, after[0], text);
    } else if call.result.Ok? && EffectiveTtl(c, call.request).Some? {
      pos' := PutKeeps(c, before, e, pos, texts, EntryFor(c, call.request, call.env, call.result.output), text);
    } else {
      pos' := RemovedKeeps(c, before, e, pos, texts, key, text);
    }
  }

  /** The stores before and after every call of a run. */
  ghost predicate StoresOf(c: Config, log: seq<Call>, stores: seq<seq<Entry>>) {
    && |stores| == |log| + 1
    && (forall i :: 0 <= i < |stores| ==> DistinctKeys(stores[i]))
    && forall i :: 0 <= i < |log| ==> StoreStep(c, log, stores, i)
  }

  ghost predicate StoreStep(c: Config, log: seq<Call>, stores: seq<seq<Entry>>, i: nat)
    requires i < |log| && |stores| == |log| + 1
  {
    StoreAfter(c, stores[i], log[i], stores[i + 1])
    && (log[i].hit <==> TargetOf(c, log[i].request).Target? && Fresh(stores[i], KeyOf(c, log[i].request), log[i].env.checkedAt))
  }

  lemma StoresGrow(c: Config, log: seq<Call>, stores: seq<seq<Entry>>, call: Call, store: seq<Entry>)
    requires StoresOf(c, log, stores) && StoreAfter(c, stores[|log|], call, store) && DistinctKeys(store)
    requires call.hit <==> TargetOf(c, call.request).Target? && Fresh(stores[|log|], KeyOf(c, call.request), call.env.checkedAt)
    ensures StoresOf(c, log + [call], stores + [store])
  {
    forall i | 0 <= i < |log + [call]| ensures StoreStep(c, log + [call], stores + [store], i) {
      assert i < |log| ==> StoreStep(c, log, stores, i);
    }
  }

  lemma {:induction false} BetweenGrows(c: Config, log: seq<Call>, i: nat, m: nat, j: nat)
    requires m <= j <= |log|
    ensures Between(c, log, i, m) <= Between(c, log, i, j) && |Between(c, log, i, m)| <= |Between(c, log, i, j)|
  {
    if m < j {
      BetweenGrows(c, log, i, m, j - 1);
      Larger(Between(c, log, i, j - 1), Between(c, log, i, j));
    }
  }

  lemma Larger(a: set<string>, b: set<string>)
    requires a <= b
    ensures |a| <= |b|
  {
    assert b == a + (b - a);
  }

  lemma PutInFront(c: Config, before: seq<Entry>, call: Call, after: seq<Entry>)
    requires StoreAfter(c, before, call, after) && TargetOf(c, call.request).Target?
    requires !call.hit && call.result.Ok? && EffectiveTtl(c, call.request).Some?
    ensures after != [] && after[0] == EntryFor(c, call.request, call.env, call.result.output)
  {
  }

  /** Call m asks for something other than call i did, and not for too many other things. */
  ghost predicate AsksOther(c: Config, log: seq<Call>, i: nat, m: nat)
    requires i < m < |log|
  {
    && |Between(c, log, i + 1, m + 1)| < c.capacity
    && (TargetOf(c, log[m].request).Target? ==> KeyOf(c, log[m].request) != KeyOf(c, log[i].request))
  }

  lemma FewBetween(c: Config, log: seq<Call>, i: nat, m: nat, j: nat)
    requires i < m < j < |log| && |Between(c, log, i + 1, j)| < c.capacity
    ensures |Between(c, log, i + 1, m + 1)| < c.capacity
  {
    BetweenGrows(c, log, i + 1, m + 1, j);
  }

  lemma NoneBetween(c: Config, log: seq<Call>, i: nat, m: nat, j: nat)
    requires Injective(c.digest) && i < m < j < |log|
    requires TargetOf(c, log[i].request).Target?
    requires Fed(c, TargetOf(c, log[i].request), log[i].request) !in Between(c, log, i + 1, j)
    ensures TargetOf(c, log[m].request).Target? ==> KeyOf(c, log[m].request) != KeyOf(c, log[i].request)
  {
    AskedBetween(c, log, i + 1, m, j);
    DigestsDiffer(c, log[m].request, log[i].request, Between(c, log, i + 1, j));
  }

  lemma AskedBetween(c: Config, log: seq<Call>, i: nat, m: nat, j: nat)
    requires i <= m < j <= |log|
    ensures TargetOf(c, log[m].request).Target? ==> Fed(c, TargetOf(c, log[m].request), log[m].request) in Between(c, log, i, j)
  {
    BetweenGrows(c, log, i, m + 1, j);
  }

  lemma DigestsDiffer(c: Config, p: Request, q: Request, texts: set<string>)
    requires Injective(c.digest) && TargetOf(c, q).Target? && Fed(c, TargetOf(c, q), q) !in texts
    requires TargetOf(c, p).Target? ==> Fed(c, TargetOf(c, p), p) in texts
    ensures TargetOf(c, p).Target? ==> KeyOf(c, p) != KeyOf(c, q)
  {
    if TargetOf(c, p).Target? {
      KeysEqualExact(c, p, q);
    }
  }

  /** The entry of call i is still there before call m, behind what was asked for since. */
  ghost predicate Held(c: Config, log: seq<Call>, i: nat, m: nat, store: seq<Entry>)
    requires i < m <= |log| && Storing(c, log[i])
  {
    HeldBehind(c, store, EntryFor(c, log[i].request, log[i].env, log[i].result.output), Between(c, log, i + 1, m))
  }

  ghost predicate HeldBehind(c: Config, store: seq<Entry>, e: Entry, texts: set<string>) {
    exists pos :: Behind(c, store, e, pos, texts)
  }

  ghost predicate Storing(c: Config, call: Call) {
    TargetOf(c, call.request).Target? && !call.hit && call.result.Ok? && EffectiveTtl(c, call.request).Some?
  }

  lemma HeldAtFirst(c: Config, log: seq<Call>, i: nat, before: seq<Entry>, after: seq<Entry>)
    requires i < |log| && Storing(c, log[i]) && StoreAfter(c, before, log[i], after)
    ensures Held(c, log, i, i + 1, after)
  {
    PutInFront(c, before, log[i], after);
    assert Behind(c, after, EntryFor(c, log[i].request, log[i].env, log[i].result.output), 0, Between(c, log, i + 1, i + 1));
  }

  lemma HeldLonger(c: Config, log: seq<Call>, i: nat, m: nat, before: seq<Entry>, after: seq<Entry>)
    requires i < m < |log| && Storing(c, log[i]) && AsksOther(c, log, i, m)
    requires StoreAfter(c, before, log[m], after) && DistinctKeys(before) && Held(c, log, i, m, before)
    ensures Held(c, log, i, m + 1, after)
  {
    var e := EntryFor(c, log[i].request, log[i].env, log[i].result.output);
    var pos :| Behind(c, before, e, pos, Between(c, log, i + 1, m));
    pos := NextBehind(c, before, log, m, after, e, pos, i + 1);
  }

  lemma {:induction false} HeldThroughout(c: Config, log: seq<Call>, stores: seq<seq<Entry>>, i: nat, m: nat)
    requires StoresOf(c, log, stores) && i < m <= |log| && Storing(c, log[i])
    requires forall k :: i < k < m ==> AsksOther(c, log, i, k)
    ensures Held(c, log, i, m, stores[m])
  {
    assert StoreStep(c, log, stores, m - 1);
    if m == i + 1 {
      HeldAtFirst(c, log, i, stores[i], stores[m]);
    } else {
      HeldThroughout(c, log, stores, i, m - 1);
      assert AsksOther(c, log, i, m - 1);
      HeldLonger(c, log, i, m - 1, stores[m - 1], stores[m]);
    }
  }

  lemma NextBehind(c: Config, before: seq<Entry>, log: seq<Call>, m: nat, after: seq<Entry>, e: Entry, pos: int, i: nat)
    returns (pos': int)
    requires i <= m < |log| && StoreAfter(c, before, log[m], after) && DistinctKeys(before)
    requires Behind(c, before, e, pos, Between(c, log, i, m)) && |Between(c, log, i, m + 1)| < c.capacity
    requires TargetOf(c, log[m].request).Target? ==> KeyOf(c, log[m].request) != e.key
    ensures Behind(c, after, e, pos', Between(c, log, i, m + 1))
  {
    var texts := Between(c, log, i, m);
    var place := TargetOf(c, log[m].request);
    if place.Target? {
      assert Between(c, log, i, m + 1) == texts + {Fed(c, place, log[m].request)};
      pos' := StaysBehind(c, before, log[m], after, e, pos, texts);
    } else {
      assert Between(c, log, i, m + 1) == texts;
      pos' := pos;
    }
  }

  lemma KeptHits(c: Config, log: seq<Call>, stores: seq<seq<Entry>>, i: nat, j: nat)
    requires StoresOf(c, log, stores) && Injective(c.digest) && i < j < |log| && StillKept(c, log, i, j)
    ensures log[j].hit
  {
    forall m | i < m < j ensures AsksOther(c, log, i, m) {
      FewBetween(c, log, i, m, j);
      NoneBetween(c, log, i, m, j);
    }
    HeldThroughout(c, log, stores, i, j);
    var e := EntryFor(c, log[i].request, log[i].env, log[i].result.output);
    var pos :| Behind(c, stores[j], e, pos, Between(c, log, i + 1, j));
    KeysEqualExact(c, log[i].request, log[j].request);
    assert StoreStep(c, log, stores, j);
    assert stores[j][pos].key == KeyOf(c, log[j].request) && stores[j][pos].expiresAt > log[j].env.checkedAt;
  }

  /**
    * A broker asked any list of requests: every answer is the provider's or that of an earlier call that fed the same
    * bytes, and an answer is served again as long as it lives and fewer other questions than the capacity came between.
    */
  method AskAll(c: Config, asks: seq<(Request, Env)>) returns (log: seq<Call>)
    requires Injective(c.digest)
    ensures |log| == |asks| && forall i :: 0 <= i < |asks| ==> log[i].request == asks[i].0 && log[i].env == asks[i].1
    ensures AllJustified(c, log)
    ensures forall i, j :: 0 <= i < j < |log| && StillKept(c, log, i, j) ==> log[j].hit
  {
    var broker := new Broker(c);
    ghost var stores := [broker.store];
    log := [];
    for k := 0 to |asks|
      invariant broker.Valid() && broker.config == c && fresh(broker) && broker.log == log && |log| == k
      invariant forall i :: 0 <= i < k ==> log[i].request == asks[i].0 && log[i].env == asks[i].1
      invariant StoresOf(c, log, stores) && stores[k] == broker.store
    {
      ghost var was, log' := stores, log;
      var before := broker.cacheHits;
      ghost var hit;
      var r;
      r, hit := broker.Complete(asks[k].0, asks[k].1);
      HitsSoFar(log, broker.log[k]);
      log := log + [Call(asks[k].0, asks[k].1, broker.cacheHits > before, r)];
      stores := stores + [broker.store];
      StoresGrow(c, log', was, log[k], broker.store);
    }
    forall i, j | 0 <= i < j < |log| && StillKept(c, log, i, j) ensures log[j].hit {
      KeptHits(c, log, stores, i, j);
    }
  }
}
