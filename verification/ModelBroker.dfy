/** The model broker: routing, budgets, usage counters, and a cache that must not change any answer. */
module ModelBroker {
  import opened Json

  const U64_RANGE: nat := 0x1_0000_0000_0000_0000
  type u32 = n: nat | n < 0x1_0000_0000

  /** Texts are byte strings: a character stands for one byte of the UTF-8 encoding. */
  datatype Request = Request(model: string, prompt: string, system: Option<string>, params: Option<Json>,
                             extras: Option<Json>, budgetTokens: Option<u32>, timeoutMs: Option<u32>,
                             cacheTtlMs: Option<u32>, cacheKey: Option<string>, stream: bool)

  /** What a provider computes its answer from. */
  datatype Ask = Ask(hint: string, prompt: string, system: Option<string>, params: Option<Json>, extras: Option<Json>)

  datatype Completion = Completion(text: string, tokensIn: Option<u32>, tokensOut: Option<u32>,
                                   finishReason: Option<string>, providerModel: string)
  datatype Reply = Completed(completion: Completion) | Refused(reason: string)

  datatype Output = Output(text: string, tokensIn: u32, tokensOut: u32, cached: bool, provider: string,
                           providerModel: string, latencyMs: u32, finishReason: Option<string>)
  datatype Error =
    | StreamingUnsupported | NoRoute(model: string) | UnknownProvider(id: string) | Timeout(ms: u32)
    | BudgetExceeded(limit: u32, used: u32) | ProviderFault(reason: string)
  datatype Result = Ok(output: Output) | Err(error: Error)

  datatype Route = Route(pattern: string, provider: string, targetModel: Option<string>)

  /** `digest` and `render` stand for the hash and the JSON encoder, about which nothing is assumed. */
  datatype Config = Config(providers: map<string, Ask -> Reply>, routes: seq<Route>, defaultTokens: u32,
                           requestCap: u32, capacity: nat, ttlMs: nat, digest: string -> string, render: Json -> string)

  // ----- routing and keys

  predicate Matches(pattern: string, model: string) {
    if pattern == "*" then true
    else if pattern != "" && pattern[|pattern| - 1] == '*' then pattern[..|pattern| - 1] <= model
    else pattern == model
  }

  /** The first route whose pattern matches. */
  function FindRoute(routes: seq<Route>, model: string): Option<Route> {
    if routes == [] then None
    else if Matches(routes[0].pattern, model) then Some(routes[0])
    else FindRoute(routes[1..], model)
  }

  /** Where a request goes: a provider id and a model hint, or the refusal before any provider is called. */
  datatype Target = Target(provider: string, hint: string) | Nowhere(error: Error)

  function TargetOf(c: Config, q: Request): (t: Target)
    ensures t.Target? ==> t.provider in c.providers
  {
    if q.stream then Nowhere(StreamingUnsupported)
    else
      var route := FindRoute(c.routes, q.model);
      if route.None? then Nowhere(NoRoute(q.model))
      else if route.value.provider !in c.providers then Nowhere(UnknownProvider(route.value.provider))
      else Target(route.value.provider, if route.value.targetModel.Some? then route.value.targetModel.value else q.model)
  }

  function AskOf(hint: string, q: Request): Ask {
    Ask(hint, q.prompt, q.system, q.params, q.extras)
  }

  function OptionalText(o: Option<string>): string {
    if o.Some? then o.value else ""
  }

  function OptionalJson(c: Config, o: Option<Json>): string {
    if o.Some? then c.render(o.value) else ""
  }

  /** The bytes fed to the hash: the fields one after the other, with nothing between them. */
  function KeyBytes(c: Config, provider: string, ask: Ask, extra: Option<string>): string {
    provider + ask.hint + ask.prompt + OptionalText(ask.system) + OptionalJson(c, ask.params)
    + OptionalJson(c, ask.extras) + OptionalText(extra)
  }

  function KeyOf(c: Config, q: Request): string {
    match TargetOf(c, q)
    case Target(provider, hint) => c.digest(KeyBytes(c, provider, AskOf(hint, q), q.cacheKey))
    case Nowhere(_) => ""
  }

  // ----- budgets and usage

  function Min(a: nat, b: nat): nat {
    if a <= b then a else b
  }

  /** What a request asks for: its own budget, or the default when it names none. */
  function Wanted(c: Config, q: Request): nat {
    if q.budgetTokens.Some? then q.budgetTokens.value else c.defaultTokens
  }

  /** The largest limit within what is wanted and, if there is one, the cap; wanting zero means no limit. */
  function EffectiveLimit(c: Config, q: Request): (limit: Option<u32>)
    ensures limit.None? <==> Wanted(c, q) == 0
    ensures limit.Some? ==> Allowed(c, q, limit.value) && forall n: nat :: Allowed(c, q, n) ==> n <= limit.value
  {
    var wanted := if q.budgetTokens.Some? then q.budgetTokens
                  else if c.defaultTokens > 0 then Some(c.defaultTokens) else None;
    if wanted.None? || wanted.value == 0 then None
    else if c.requestCap > 0 then Some(Min(wanted.value, c.requestCap))
    else Some(wanted.value)
  }

  predicate Allowed(c: Config, q: Request, n: nat) {
    0 < n <= Wanted(c, q) && (c.requestCap > 0 ==> n <= c.requestCap)
  }

  function EstimateTokens(bytes: nat): u32 {
    ((bytes + 3) / 4) % 0x1_0000_0000
  }

  function SaturatingAdd(a: u32, b: u32): u32 {
    Min(a + b, 0xFFFF_FFFF)
  }

  function PromptLength(q: Request): nat {
    |q.prompt| + |OptionalText(q.system)|
  }

  /** Accepts an output within the budget of a request. */
  function Enforce(c: Config, q: Request, out: Output): Result {
    var limit, used := EffectiveLimit(c, q), SaturatingAdd(out.tokensIn, out.tokensOut);
    if limit.Some? && used > limit.value then Err(BudgetExceeded(limit.value, used)) else Ok(out)
  }

  // ----- the reference: an answer with no cache and no time limit

  function Settle(q: Request, t: Target, k: Completion, latencyMs: u32): Output
    requires t.Target?
  {
    Output(k.text,
           if k.tokensIn.Some? then k.tokensIn.value else EstimateTokens(PromptLength(q)),
           if k.tokensOut.Some? then k.tokensOut.value else EstimateTokens(|k.text|),
           false, t.provider, if k.providerModel == "" then t.hint else k.providerModel, latencyMs, k.finishReason)
  }

  function Direct(c: Config, q: Request, latencyMs: u32): Result {
    var t := TargetOf(c, q);
    if t.Nowhere? then Err(t.error)
    else
      match c.providers[t.provider](AskOf(t.hint, q))
      case Refused(reason) => Err(ProviderFault(reason))
      case Completed(k) => Enforce(c, q, Settle(q, t, k, latencyMs))
  }

  /** Equal answers, up to the measured latency and the mark that a cache served them. */
  predicate Agrees(r: Result, d: Result) {
    match (r, d)
    case (Ok(a), Ok(b)) => a.(cached := false, latencyMs := 0) == b.(cached := false, latencyMs := 0)
    case (Err(a), Err(b)) => a == b
    case _ => false
  }

  // ----- the cache

  datatype Entry = Entry(key: string, output: Output, expiresAt: nat)

  /** The entries with another key, in the same order; a least-recently-used store lists the latest use first. */
  function Without(store: seq<Entry>, key: string): (rest: seq<Entry>)
    ensures |rest| <= |store| && forall e :: e in rest <==> e in store && e.key != key
    ensures DistinctKeys(store) ==> DistinctKeys(rest)
  {
    if store == [] then []
    else
      var tail := Without(store[1..], key);
      assert forall e :: e in store <==> e == store[0] || e in store[1..];
      if store[0].key == key then tail else
        assert DistinctKeys(store) ==> forall e :: e in tail ==> e.key != store[0].key;
        [store[0]] + tail
  }

  predicate DistinctKeys(store: seq<Entry>) {
    forall i, j :: 0 <= i < j < |store| ==> store[i].key != store[j].key
  }

  function Put(store: seq<Entry>, capacity: nat, e: Entry): seq<Entry> {
    var all := [e] + Without(store, e.key);
    all[..Min(|all|, capacity)]
  }

  function CacheOn(c: Config): bool {
    c.capacity > 0 && c.ttlMs > 0
  }

  /** How long an answer to this request may be served; None when it is not stored. */
  function EffectiveTtl(c: Config, q: Request): Option<nat> {
    if !CacheOn(c) || q.cacheTtlMs == Some(0) then None
    else if q.cacheTtlMs.Some? then Some(q.cacheTtlMs.value)
    else Some(c.ttlMs)
  }

  // ----- calls

  /** What the surroundings decide in one call: the clock at its two readings, and how slow the provider is. */
  datatype Env = Env(checkedAt: nat, storedAt: nat, latencyMs: u32, late: bool)

  datatype Call = Call(request: Request, env: Env, hit: bool, result: Result)

  predicate TimesOut(q: Request, env: Env) {
    q.timeoutMs.Some? && q.timeoutMs.value > 0 && env.late
  }

  /** Two requests that go to the same place and say the same, though their keys might be equal anyway. */
  predicate SameQuestion(c: Config, p: Request, q: Request) {
    TargetOf(c, p).Target? && TargetOf(c, p) == TargetOf(c, q) && AskOf("", p) == AskOf("", q)
  }

  /** An earlier answer that a provider gave, stored under this key and not expired at this time. */
  predicate Serves(c: Config, call: Call, key: string, now: nat) {
    && TargetOf(c, call.request).Target? && KeyOf(c, call.request) == key
    && call.result.Ok? && !call.hit
    && EffectiveTtl(c, call.request).Some? && now < call.env.storedAt + EffectiveTtl(c, call.request).value
  }

  /** What one call may answer after earlier ones. */
  ghost predicate Justified(c: Config, earlier: seq<Call>, call: Call) {
    var q := call.request;
    if call.hit then
      && TargetOf(c, q).Target?
      && exists j :: 0 <= j < |earlier| && Serves(c, earlier[j], KeyOf(c, q), call.env.checkedAt)
                     && Agrees(call.result, Enforce(c, q, earlier[j].result.output))
    else if TargetOf(c, q).Target? && TimesOut(q, call.env) then call.result == Err(Timeout(q.timeoutMs.value))
    else call.result == Direct(c, q, call.env.latencyMs)
  }

  ghost predicate JustifiedAt(c: Config, log: seq<Call>, i: nat)
    requires i < |log|
  {
    Justified(c, log[..i], log[i])
  }

  ghost predicate AllJustified(c: Config, log: seq<Call>) {
    forall i: nat {:trigger JustifiedAt(c, log, i)} :: i < |log| ==> JustifiedAt(c, log, i)
  }

  function Tokens(log: seq<Call>, prompt: bool): nat {
    if log == [] then 0
    else
      Tokens(log[..|log| - 1], prompt) + Used(log[|log| - 1].result, prompt)
  }

  function Routed(c: Config, log: seq<Call>): nat {
    if log == [] then 0
    else Routed(c, log[..|log| - 1]) + One(TargetOf(c, log[|log| - 1].request).Target?)
  }

  function Hits(log: seq<Call>): nat {
    if log == [] then 0 else Hits(log[..|log| - 1]) + One(log[|log| - 1].hit)
  }

  /** The counters are the sums over the log. */
  ghost predicate Tallied(c: Config, log: seq<Call>, calls: nat, hits: nat, tokensPrompt: nat, tokensCompletion: nat) {
    && calls == Routed(c, log) && hits == Hits(log)
    && tokensPrompt == Tokens(log, true) && tokensCompletion == Tokens(log, false)
  }

  function One(b: bool): nat {
    if b then 1 else 0
  }

  lemma TallyGrows(c: Config, log: seq<Call>, call: Call, calls: nat, hits: nat, tokensPrompt: nat, tokensCompletion: nat)
    requires Tallied(c, log, calls, hits, tokensPrompt, tokensCompletion)
    ensures Tallied(c, log + [call], calls + One(TargetOf(c, call.request).Target?), hits + One(call.hit),
                    tokensPrompt + Used(call.result, true), tokensCompletion + Used(call.result, false))
  {
    assert (log + [call])[..|log|] == log;
  }

  function Used(r: Result, prompt: bool): nat {
    if r.Err? then 0 else if prompt then r.output.tokensIn else r.output.tokensOut
  }

  class Broker {
    const config: Config
    var store: seq<Entry>
    var calls: nat
    var cacheHits: nat
    var tokensPrompt: nat
    var tokensCompletion: nat
    /** Every call so far, and for each key the call whose answer is stored under it. */
    ghost var log: seq<Call>
    ghost var origin: map<string, nat>

    ghost predicate StoreTraced()
      reads this
    {
      && DistinctKeys(store) && |store| <= config.capacity && (!CacheOn(config) ==> store == [])
      && AllTraced(config, log, origin, store)
    }

    ghost predicate Counted()
      reads this
    {
      Tallied(config, log, calls, cacheHits, tokensPrompt, tokensCompletion)
    }

    ghost predicate Valid()
      reads this
    {
      StoreTraced() && Counted() && AllJustified(config, log)
    }

    constructor (config: Config)
      ensures Valid() && this.config == config && log == [] && store == []
    {
      this.config, store, log, origin := config, [], [], map[];
      calls, cacheHits, tokensPrompt, tokensCompletion := 0, 0, 0, 0;
    }

    /** The fresh entry under a key, moved to the front; a stale one is removed. */
    method CheckCache(key: string, now: nat) returns (hit: Option<Output>)
      requires StoreTraced()
      modifies this`store
      ensures StoreTraced()
      ensures hit.Some? <==> Fresh(old(store), key, now)
      ensures hit.Some? ==> Front(old(store), key, now, store) && hit.value == store[0].output.(cached := true)
      ensures hit.None? ==> store == Without(old(store), key)
    {
      for k := 0 to |store|
        invariant store == old(store) && forall j :: 0 <= j < k ==> store[j].key != key
      {
        if store[k].key == key {
          var e := store[k];
          var rest := Without(store, key);
          Shrinks(store, key, k);
          store := if e.expiresAt > now then [e] + rest else rest;
          return if e.expiresAt > now then Some(e.output.(cached := true)) else None;
        }
      }
      AbsentUnchanged(store, key);
      return None;
    }

    method RecordUsage(tokensIn: u32, tokensOut: u32)
      modifies this`tokensPrompt, this`tokensCompletion
      ensures tokensPrompt == old(tokensPrompt) + tokensIn
      ensures tokensCompletion == old(tokensCompletion) + tokensOut
    {
      tokensPrompt := tokensPrompt + tokensIn;
      tokensCompletion := tokensCompletion + tokensOut;
    }

    /** The published counters, which are 64 bits wide and wrap around. */
    method Stats() returns (c: nat, h: nat, p: nat, t: nat)
      requires Valid()
      ensures c == Routed(config, log) % U64_RANGE && h == Hits(log) % U64_RANGE
      ensures p == Tokens(log, true) % U64_RANGE && t == Tokens(log, false) % U64_RANGE
    {
      c, h := calls % U64_RANGE, cacheHits % U64_RANGE;
      p, t := tokensPrompt % U64_RANGE, tokensCompletion % U64_RANGE;
    }

    /** Refuses a request that no provider serves, and counts nothing. */
    method Refuse(q: Request, env: Env, error: Error) returns (r: Result)
      requires Valid() && TargetOf(config, q) == Nowhere(error)
      modifies this`log
      ensures Valid()
      ensures r == Err(error) && log == old(log) + [Call(q, env, false, r)]
    {
      r := Err(error);
      ghost var call := Call(q, env, false, r);
      TallyGrows(config, log, call, calls, cacheHits, tokensPrompt, tokensCompletion);
      DirectJustified(config, log, call);
      LogGrows(config, log, call);
      TracedGrows(config, log, origin, store, call);
      log := log + [call];
    }

    /** Answers from a fresh entry, within the budget of this request. */
    method ServeCached(q: Request, env: Env, cached: Output, ghost e: Entry) returns (r: Result)
      requires Valid() && TargetOf(config, q).Target?
      requires Traced(config, log, origin, e) && e.key == KeyOf(config, q) && e.expiresAt > env.checkedAt
      requires cached == e.output.(cached := true)
      modifies this
      ensures Valid() && store == old(store)
      ensures log == old(log) + [Call(q, env, true, r)] && r == Enforce(config, q, cached)
    {
      r := Enforce(config, q, cached);
      ghost var call := Call(q, env, true, r);
      TallyGrows(config, log, call, calls, cacheHits, tokensPrompt, tokensCompletion);
      HitJustified(config, log, origin, e, call);
      LogGrows(config, log, call);
      TracedGrows(config, log, origin, store, call);
      calls := calls + 1;
      cacheHits := cacheHits + 1;
      if r.Ok? {
        RecordUsage(r.output.tokensIn, r.output.tokensOut);
      }
      log := log + [call];
    }

    /** Answers from the provider, or times out. */
    method AskProvider(q: Request, env: Env) returns (r: Result)
      requires TargetOf(config, q).Target?
      ensures r == if TimesOut(q, env) then Err(Timeout(q.timeoutMs.value)) else Direct(config, q, env.latencyMs)
      ensures r.Ok? ==> !r.output.cached
    {
      if TimesOut(q, env) {
        return Err(Timeout(q.timeoutMs.value));
      }
      var t := TargetOf(config, q);
      match config.providers[t.provider](AskOf(t.hint, q))
      case Refused(reason) =>
        r := Err(ProviderFault(reason));
      case Completed(k) =>
        r := Enforce(config, q, Settle(q, t, k, env.latencyMs));
    }

    /** Asks the provider, counts, and stores the answer if it may be. */
    method CallProvider(q: Request, env: Env) returns (r: Result)
      requires Valid() && TargetOf(config, q).Target?
      modifies this
      ensures Valid()
      ensures log == old(log) + [Call(q, env, false, r)]
      ensures store == if r.Ok? && EffectiveTtl(config, q).Some?
                       then Put(old(store), config.capacity, EntryFor(config, q, env, r.output)) else old(store)
    {
      r := AskProvider(q, env);
      ghost var call := Call(q, env, false, r);
      TallyGrows(config, log, call, calls, cacheHits, tokensPrompt, tokensCompletion);
      DirectJustified(config, log, call);
      LogGrows(config, log, call);
      TracedGrows(config, log, origin, store, call);
      calls := calls + 1;
      if r.Ok? {
        RecordUsage(r.output.tokensIn, r.output.tokensOut);
        if EffectiveTtl(config, q).Some? {
          PutTraced(config, log, store, origin, q, env, r.output);
          store := Put(store, config.capacity, EntryFor(config, q, env, r.output));
          origin := origin[KeyOf(config, q) := |log|];
        }
      }
      log := log + [call];
    }

    /** Serves a routed request from the cache or from the provider. */
    method CompleteRouted(q: Request, env: Env) returns (r: Result, ghost hit: bool)
      requires Valid() && TargetOf(config, q).Target?
      modifies this
      ensures Valid() && log == old(log) + [Call(q, env, hit, r)]
      ensures hit <==> Fresh(old(store), KeyOf(config, q), env.checkedAt)
      ensures hit ==> store != [] && r == Enforce(config, q, store[0].output.(cached := true))
      ensures StoreAfter(config, old(store), Call(q, env, hit, r), store)
    {
      var key := KeyOf(config, q);
      ghost var was := store;
      WithoutTwice(was, key);
      var cached := CheckCache(key, env.checkedAt);
      hit := cached.Some?;
      if cached.Some? {
        r := ServeCached(q, env, cached.value, store[0]);
      } else {
        r := CallProvider(q, env);
      }
    }

    /** One completion: refused before any provider, answered from the cache, or answered by the provider. */
    method Complete(q: Request, env: Env) returns (r: Result, ghost hit: bool)
      requires Valid()
      modifies this
      ensures Valid() && log == old(log) + [Call(q, env, hit, r)]
      ensures hit <==> TargetOf(config, q).Target? && Fresh(old(store), KeyOf(config, q), env.checkedAt)
      ensures hit ==> store != [] && r == Enforce(config, q, store[0].output.(cached := true))
      ensures StoreAfter(config, old(store), Call(q, env, hit, r), store)
    {
      var t := TargetOf(config, q);
      if t.Nowhere? {
        hit := false;
        r := Refuse(q, env, t.error);
      } else {
        r, hit := CompleteRouted(q, env);
      }
    }
  }

  /** The store after a call: untouched, with the entry that served it in front, without its key, or with its answer. */
  ghost predicate StoreAfter(c: Config, before: seq<Entry>, call: Call, store: seq<Entry>) {
    var key := KeyOf(c, call.request);
    if TargetOf(c, call.request).Nowhere? then store == before
    else if call.hit then
      Front(before, key, call.env.checkedAt, store)
    else if call.result.Ok? && EffectiveTtl(c, call.request).Some? then
      store == Put(before, c.capacity, EntryFor(c, call.request, call.env, call.result.output))
    else store == Without(before, key)
  }

  /** A fresh entry under the key has moved to the front. */
  predicate Front(before: seq<Entry>, key: string, now: nat, store: seq<Entry>) {
    store != [] && store[0] in before && store[0].key == key && store[0].expiresAt > now
    && store == [store[0]] + Without(before, key)
  }

  predicate Fresh(store: seq<Entry>, key: string, now: nat) {
    exists i :: 0 <= i < |store| && store[i].key == key && store[i].expiresAt > now
  }

  function EntryFor(c: Config, q: Request, env: Env, out: Output): Entry
    requires EffectiveTtl(c, q).Some?
  {
    Entry(KeyOf(c, q), out, env.storedAt + EffectiveTtl(c, q).value)
  }

  ghost predicate AllTraced(c: Config, log: seq<Call>, origin: map<string, nat>, store: seq<Entry>) {
    forall e :: e in store ==> Traced(c, log, origin, e)
  }

  lemma TracedGrows(c: Config, log: seq<Call>, origin: map<string, nat>, store: seq<Entry>, call: Call)
    requires AllTraced(c, log, origin, store)
    ensures AllTraced(c, log + [call], origin, store)
  {
    forall e | e in store ensures Traced(c, log + [call], origin, e) {
      assert Traced(c, log, origin, e);
    }
  }

  /** A justified call keeps the log justified and adds its share to each sum. */
  lemma LogGrows(c: Config, log: seq<Call>, call: Call)
    requires AllJustified(c, log) && Justified(c, log, call)
    ensures AllJustified(c, log + [call])
  {
    var log' := log + [call];
    assert log'[..|log|] == log;
    forall i: nat | i < |log'| ensures JustifiedAt(c, log', i) {
      if i < |log| {
        assert JustifiedAt(c, log, i);
        assert log'[..i] == log[..i];
      }
    }
  }

  lemma DirectJustified(c: Config, log: seq<Call>, call: Call)
    requires !call.hit
    requires call.result == if TargetOf(c, call.request).Target? && TimesOut(call.request, call.env)
                            then Err(Timeout(call.request.timeoutMs.value)) else Direct(c, call.request, call.env.latencyMs)
    ensures Justified(c, log, call)
  {
  }

  lemma HitJustified(c: Config, log: seq<Call>, origin: map<string, nat>, e: Entry, call: Call)
    requires Traced(c, log, origin, e) && TargetOf(c, call.request).Target? && e.key == KeyOf(c, call.request)
    requires call.hit && e.expiresAt > call.env.checkedAt
    requires call.result == Enforce(c, call.request, e.output.(cached := true))
    ensures Justified(c, log, call)
  {
    var j := origin[e.key];
    assert Serves(c, log[j], KeyOf(c, call.request), call.env.checkedAt);
    assert Agrees(call.result, Enforce(c, call.request, log[j].result.output));
  }

  /** Storing an answer traces it to the call that is about to be logged. */
  lemma PutTraced(c: Config, log: seq<Call>, store: seq<Entry>, origin: map<string, nat>, q: Request, env: Env, out: Output)
    requires AllTraced(c, log, origin, store) && DistinctKeys(store)
    requires TargetOf(c, q).Target? && EffectiveTtl(c, q).Some? && !out.cached
    ensures var call, store' := Call(q, env, false, Ok(out)), Put(store, c.capacity, EntryFor(c, q, env, out));
            && AllTraced(c, log + [call], origin[KeyOf(c, q) := |log|], store')
            && DistinctKeys(store') && |store'| <= c.capacity
  {
    var call, e := Call(q, env, false, Ok(out)), EntryFor(c, q, env, out);
    var rest := Without(store, e.key);
    assert DistinctKeys([e] + rest) by {
      forall j | 0 <= j < |rest| ensures rest[j].key != e.key {
        assert rest[j] in rest;
      }
    }
    forall x | x in Put(store, c.capacity, e) ensures Traced(c, log + [call], origin[e.key := |log|], x) {
      if x != e {
        assert x in rest;
        assert Traced(c, log, origin, x);
      }
    }
  }

  lemma WithoutTwice(store: seq<Entry>, key: string)
    ensures Without(Without(store, key), key) == Without(store, key)
  {
    AbsentUnchanged(Without(store, key), key);
  }

  /** A stored entry is the unmarked answer of the call it came from, with that call's time to live. */
  ghost predicate Traced(c: Config, log: seq<Call>, origin: map<string, nat>, e: Entry) {
    && e.key in origin && origin[e.key] < |log| && !e.output.cached
    && var call := log[origin[e.key]];
       && TargetOf(c, call.request).Target? && KeyOf(c, call.request) == e.key
       && !call.hit && call.result == Ok(e.output)
       && EffectiveTtl(c, call.request).Some? && e.expiresAt == call.env.storedAt + EffectiveTtl(c, call.request).value
  }

  lemma {:induction false} AbsentUnchanged(store: seq<Entry>, key: string)
    requires forall j :: 0 <= j < |store| ==> store[j].key != key
    ensures Without(store, key) == store
  {
    if store != [] {
      AbsentUnchanged(store[1..], key);
    }
  }

  lemma {:induction false} Shrinks(store: seq<Entry>, key: string, k: nat)
    requires k < |store| && store[k].key == key
    ensures |Without(store, key)| < |store|
  {
    if store[0].key != key {
      Shrinks(store[1..], key, k - 1);
    }
  }

  // ----- transparency

  /** No two requests of the log share a key unless they ask the same question. */
  ghost predicate CollisionFree(c: Config, log: seq<Call>) {
    forall i, j :: 0 <= i < |log| && 0 <= j < |log| && Collide(c, log[i].request, log[j].request) ==>
                     SameQuestion(c, log[i].request, log[j].request)
  }

  ghost predicate Collide(c: Config, p: Request, q: Request) {
    TargetOf(c, p).Target? && TargetOf(c, q).Target? && KeyOf(c, p) == KeyOf(c, q)
  }

  /** The same question gets the same provider answer, so only the budgets can differ. */
  lemma SameQuestionSameAnswer(c: Config, p: Request, q: Request, latency: u32, latency': u32)
    requires SameQuestion(c, p, q) && Direct(c, p, latency).Ok?
    ensures Agrees(Enforce(c, q, Direct(c, p, latency).output), Direct(c, q, latency'))
  {
    assert AskOf(TargetOf(c, p).hint, p) == AskOf(TargetOf(c, p).hint, q) by {
      assert AskOf("", p) == AskOf("", q);
    }
  }

  /**
    * A cached broker answers every request of a collision-free run as it would without a cache,
    * except that a provider that is called and is late ends in a timeout.
    */
  lemma Transparent(c: Config, log: seq<Call>, i: nat, latency: u32)
    requires AllJustified(c, log) && CollisionFree(c, log) && i < |log|
    ensures var call := log[i];
            || Agrees(call.result, Direct(c, call.request, latency))
            || (!call.hit && TimesOut(call.request, call.env) && call.result == Err(Timeout(call.request.timeoutMs.value)))
  {
    var call := log[i];
    assert JustifiedAt(c, log, i);
    if call.hit {
      var j :| 0 <= j < i && Serves(c, log[..i][j], KeyOf(c, call.request), call.env.checkedAt)
               && Agrees(call.result, Enforce(c, call.request, log[..i][j].result.output));
      var first := log[j];
      assert JustifiedAt(c, log, j);
      assert first.result == Direct(c, first.request, first.env.latencyMs);
      assert Collide(c, first.request, call.request);
      SameQuestionSameAnswer(c, first.request, call.request, first.env.latencyMs, latency);
    } else if !(TargetOf(c, call.request).Target? && TimesOut(call.request, call.env)) {
      LatencyOnly(c, call.request, call.env.latencyMs, latency);
    }
  }

  lemma LatencyOnly(c: Config, q: Request, latency: u32, latency': u32)
    ensures Agrees(Direct(c, q, latency), Direct(c, q, latency'))
  {
  }

  /** The tokens that direct answers to the requests of a log would use. */
  function DirectTokens(c: Config, log: seq<Call>, prompt: bool): nat {
    if log == [] then 0
    else DirectTokens(c, log[..|log| - 1], prompt) + Used(Direct(c, log[|log| - 1].request, 0), prompt)
  }

  /** Without timeouts, a cached broker counts the tokens that a broker without a cache would count. */
  lemma {:induction false} TokensTransparent(c: Config, log: seq<Call>, n: nat, prompt: bool)
    requires AllJustified(c, log) && CollisionFree(c, log) && n <= |log|
    requires forall i :: 0 <= i < |log| ==> !TimesOut(log[i].request, log[i].env)
    ensures Tokens(log[..n], prompt) == DirectTokens(c, log[..n], prompt)
  {
    if n > 0 {
      TokensTransparent(c, log, n - 1, prompt);
      Transparent(c, log, n - 1, 0);
      assert log[..n][..n - 1] == log[..n - 1];
    }
  }

  /** The fields are hashed one after the other, so text that moves from the prompt to the system role keeps the key. */
  lemma BoundariesAreLost(c: Config, q: Request, prompt: string, system: string)
    requires TargetOf(c, q).Target?
    ensures Collide(c, q.(prompt := prompt + system, system := None), q.(prompt := prompt, system := Some(system)))
  {
    var t := TargetOf(c, q);
    var a, b := q.(prompt := prompt + system, system := None), q.(prompt := prompt, system := Some(system));
    assert TargetOf(c, a) == t && TargetOf(c, b) == t;
    assert t.provider + t.hint + (prompt + system) + "" == t.provider + t.hint + prompt + system;
  }

  /** Providers that tell one question at one place from all others. */
  function Telling(c: Config, place: Target, told: Ask): Config
    requires place.Target?
  {
    c.(providers := map id | id in c.providers :: (a: Ask) =>
         Completed(Completion(if id == place.provider && a == told then "first" else "second", Some(0), Some(0), None, "")))
  }

  lemma TellingAnswers(c: Config, place: Target, told: Ask, q: Request)
    requires place.Target? && TargetOf(c, q).Target?
    ensures TargetOf(Telling(c, place, told), q) == TargetOf(c, q) && KeyOf(Telling(c, place, told), q) == KeyOf(c, q)
    ensures EffectiveTtl(Telling(c, place, told), q) == EffectiveTtl(c, q)
    ensures var t := TargetOf(c, q); var r := Direct(Telling(c, place, told), q, 0);
            r.Ok? && r.output.tokensIn == r.output.tokensOut == 0 && r.output.text == if t.provider == place.provider && AskOf(t.hint, q) == told then "first" else "second"
  {
  }

  /**
    * Collision-freedom is needed: when two different questions share a key, whether or not they go to one place, and
    * the answer to the first may be stored, there are providers with which a new broker that is asked the one and then
    * the other serves the second from its cache, and wrongly.
    */
  method CollisionVisible(c: Config, p: Request, q: Request) returns (c': Config, second: Result, ghost hit: bool)
    requires Collide(c, p, q) && !SameQuestion(c, p, q)
    requires EffectiveTtl(c, p).Some? && EffectiveTtl(c, p).value > 0
    ensures c' == c.(providers := c'.providers) && c'.providers.Keys == c.providers.Keys
    ensures hit && second.Ok? && !Agrees(second, Direct(c', q, 0))
  {
    var place := TargetOf(c, p);
    var told := AskOf(place.hint, p);
    c' := Telling(c, place, told);
    TellingAnswers(c, place, told, p);
    TellingAnswers(c, place, told, q);
    var env := Env(0, 0, 0, false);
    var broker := new Broker(c');
    var first, miss := broker.Complete(p, env);
    assert broker.log == [Call(p, env, false, first)];
    MissIsDirect(c', broker.log, 0);
    PutFirst(c'.capacity, EntryFor(c', p, env, first.output));
    assert broker.store == [EntryFor(c', p, env, first.output)];
    ghost var store := broker.store;
    second, hit := broker.Complete(q, env);
    assert store[0].key == KeyOf(c', q) && store[0].expiresAt > 0;
    assert TargetOf(c', q) == place ==> AskOf(place.hint, q) != told;
    WronglyServed(c', q, first.output, second);
  }

  lemma PutFirst(capacity: nat, e: Entry)
    requires capacity > 0
    ensures Put([], capacity, e) == [e]
  {
  }

  /** An answer of the first text, served for a question whose answer has the second. */
  lemma WronglyServed(c: Config, q: Request, stored: Output, r: Result)
    requires stored.text == "first" && stored.tokensIn == stored.tokensOut == 0
    requires r == Enforce(c, q, stored.(cached := true))
    requires Direct(c, q, 0).Ok? && Direct(c, q, 0).output.text == "second"
    ensures r.Ok? && !Agrees(r, Direct(c, q, 0))
  {
    assert "first"[0] != "second"[0];
  }

  lemma MissIsDirect(c: Config, log: seq<Call>, i: nat)
    requires AllJustified(c, log) && i < |log| && !log[i].hit && !TimesOut(log[i].request, log[i].env)
    ensures log[i].result == Direct(c, log[i].request, log[i].env.latencyMs)
  {
    assert JustifiedAt(c, log, i);
  }
}
