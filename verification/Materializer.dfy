/** The knowledge-base materializer: views kept as a fold of the event log, batch by batch. */
module Materializer {
  import opened Json
  import Templates

  /** Foreign primitives, about which nothing is assumed: hex digest of a text, canonical JSON text. */
  datatype Primitives = Primitives(hash: string -> string, render: Json -> string)

  datatype Event = Event(id: nat, kind: string, payload: Json, provenance: Json, hash: string)

  datatype RowKey =
    | ContactKey(key: string) | ArtifactKey(key: string) | RunKey(traceId: string)
    | RunNodeKey(traceId: string, nodeId: string) | RunTraceKey(traceId: string)

  datatype Row =
    | Contact(name: Option<string>, email: Option<string>, org: Option<string>, trust: real, source: nat)
    | Artifact(kind: string, path: string, summary: Option<string>, source: nat)
    | Run(status: string, openingId: string, source: nat)
    | RunNode(status: string, attempt: int, durationMs: int, outputsHash: Option<string>, error: Option<string>, source: nat)
    | RunTrace(traceJson: string, finalHash: string, success: bool, source: nat)

  /** All view tables by primary key, and the entity history. */
  datatype Views = Views(rows: map<RowKey, Row>, history: set<(string, nat)>)

  /** What applying an event does: at most one upsert, and the entities it is recorded for. */
  datatype Effect = Effect(upsert: Option<(RowKey, Row)>, entities: seq<string>)

  // ----- reading payloads

  function Get(v: Json, key: string): Option<Json> {
    if v.Object? && key in v.fields then Some(v.fields[key]) else None
  }

  function GetText(v: Json, key: string): Option<string> {
    var field := Get(v, key);
    if field.Some? && field.value.String? then Some(field.value.text) else None
  }

  function GetTrimmed(v: Json, key: string): Option<string> {
    var text := GetText(v, key);
    if text.Some? then Some(Templates.Trim(text.value)) else None
  }

  function GetInteger(v: Json, key: string): Option<int> {
    var field := Get(v, key);
    if field.Some? && field.value.Integer? && -0x8000_0000_0000_0000 <= field.value.n <= 0x7FFF_FFFF_FFFF_FFFF
    then Some(field.value.n) else None
  }

  function GetReal(v: Json, key: string): Option<real> {
    var field := Get(v, key);
    if field.Some? && field.value.Integer? then Some(field.value.n as real)
    else if field.Some? && field.value.Float? then Some(field.value.r)
    else None
  }

  function Lower(text: string): string {
    seq(|text|, i requires 0 <= i < |text| =>
      if 'A' <= text[i] <= 'Z' then (text[i] as int + 32) as char else text[i])
  }

  function NormalizeEmail(email: string): string {
    Lower(Templates.Trim(email))
  }

  function DeriveContactKey(prim: Primitives, email: Option<string>, name: Option<string>, org: Option<string>): Option<string> {
    if email.Some? && Templates.Trim(email.value) != "" then Some(prim.hash(NormalizeEmail(email.value)))
    else if name.Some? then
      Some(prim.hash(Templates.Trim(name.value) + if org.Some? then "|" + Templates.Trim(org.value) else ""))
    else None
  }

  function DeriveArtifactKey(prim: Primitives, sha256: Option<string>, path: Option<string>): Option<string> {
    if sha256.Some? && Templates.Trim(sha256.value) != "" then Some(Lower(sha256.value))
    else if path.Some? then Some(prim.hash(Templates.Trim(path.value)))
    else None
  }

  function OrElse<T>(o: Option<T>, default: T): T {
    if o.Some? then o.value else default
  }

  // ----- effects of events

  function ContactEffect(prim: Primitives, e: Event): Option<Effect> {
    var name, org := GetTrimmed(e.payload, "name"), GetTrimmed(e.payload, "org");
    var raw := GetText(e.payload, "email");
    var email := if raw.Some? then Some(NormalizeEmail(raw.value)) else None;
    var key := DeriveContactKey(prim, email, name, org);
    if key.None? then None
    else
      Some(Effect(Some((ContactKey(key.value), Contact(name, email, org, OrElse(GetReal(e.payload, "trust"), 0.5), e.id))),
                  ["contact:" + key.value]))
  }

  function ArtifactEffect(prim: Primitives, e: Event): Option<Effect> {
    var path, kind := GetTrimmed(e.payload, "path"), GetTrimmed(e.payload, "kind");
    var key := DeriveArtifactKey(prim, GetTrimmed(e.payload, "sha256"), path);
    if kind.None? || key.None? then None
    else
      Some(Effect(Some((ArtifactKey(key.value), Artifact(kind.value, OrElse(path, ""), GetText(e.payload, "summary"), e.id))),
                  ["artifact:" + key.value]))
  }

  function RunEffect(e: Event): Option<Effect> {
    var trace, opening := GetTrimmed(e.provenance, "trace_id"), GetTrimmed(e.payload, "opening_id");
    if trace.None? || opening.None? then None
    else
      Some(Effect(Some((RunKey(trace.value), Run(OrElse(GetTrimmed(e.payload, "status"), e.kind), opening.value, e.id))),
                  ["run:" + trace.value]))
  }

  function NodeFinishedEffect(e: Event): Option<Effect> {
    var trace, opening := GetTrimmed(e.payload, "trace_id"), GetTrimmed(e.payload, "opening_id");
    var node, status := GetTrimmed(e.payload, "node_id"), GetTrimmed(e.payload, "status");
    if trace.None? || opening.None? || node.None? || status.None? then None
    else
      Some(Effect(Some((RunNodeKey(trace.value, node.value),
                        RunNode(status.value, OrElse(GetInteger(e.payload, "attempt"), 0),
                                OrElse(GetInteger(e.payload, "duration_ms"), 0),
                                GetTrimmed(e.payload, "outputs_hash"), GetTrimmed(e.payload, "error"), e.id))),
                  ["run:" + trace.value, "node:" + trace.value + "#" + node.value, "opening:" + opening.value]))
  }

  function RunTraceEffect(prim: Primitives, e: Event): Option<Effect> {
    var trace, hash := GetTrimmed(e.provenance, "trace_id"), GetTrimmed(e.payload, "final_hash");
    var success := Get(e.payload, "success");
    if trace.None? || hash.None? || success.None? || !success.value.Bool? then None
    else
      Some(Effect(Some((RunTraceKey(trace.value), RunTrace(prim.render(e.payload), hash.value, success.value.b, e.id))),
                  ["run:" + trace.value]))
  }

  function EmailEffect(e: Event): Effect {
    var artifact := GetInteger(e.payload, "artifact_id");
    Effect(None, if artifact.Some? then ["artifact:event:" + Decimal(artifact.value)] else [])
  }

  /** The effect of an event, or None when a required field is missing and applying it fails. */
  function EffectOf(prim: Primitives, e: Event): Option<Effect> {
    if e.kind == "contact.upserted" then ContactEffect(prim, e)
    else if e.kind == "artifact.created" then ArtifactEffect(prim, e)
    else if e.kind == "run.started" || e.kind == "run.finished" then RunEffect(e)
    else if e.kind == "node.finished" then NodeFinishedEffect(e)
    else if e.kind == "run.trace" then RunTraceEffect(prim, e)
    else if e.kind == "email.sent" then Some(EmailEffect(e))
    else Some(Effect(None, []))
  }

  /** How events act on the views; the properties below hold of any such rules. */
  type Rules = Event -> Option<Effect>

  function EffectRules(prim: Primitives): Rules {
    e => EffectOf(prim, e)
  }

  function ApplyEvent(rules: Rules, v: Views, e: Event): Option<Views> {
    var effect := rules(e);
    if effect.None? then None
    else
      var rows := if effect.value.upsert.Some? then v.rows[effect.value.upsert.value.0 := effect.value.upsert.value.1] else v.rows;
      Some(Views(rows, v.history + set k | k in effect.value.entities :: (k, e.id)))
  }

  // ----- the log and its fold

  const EMPTY := Views(map[], {})

  /** Applies events in order, failing with the first that fails. */
  function Fold(rules: Rules, v: Views, events: seq<Event>): Option<Views> {
    if events == [] then Some(v)
    else
      var before := Fold(rules, v, events[..|events| - 1]);
      if before.None? then None else ApplyEvent(rules, before.value, events[|events| - 1])
  }

  ghost predicate Ascending(events: seq<Event>) {
    && (forall i, j :: 0 <= i < j < |events| ==> events[i].id < events[j].id)
    && (forall i :: 0 <= i < |events| ==> events[i].id > 0)
  }

  function LastId(events: seq<Event>): nat {
    if events == [] then 0 else events[|events| - 1].id
  }

  /** The events before the first one whose id is above the watermark. */
  function UpTo(events: seq<Event>, watermark: nat): (r: seq<Event>)
    ensures |r| <= |events|
  {
    if events == [] || events[0].id > watermark then [] else [events[0]] + UpTo(events[1..], watermark)
  }

  function After(events: seq<Event>, watermark: nat): seq<Event> {
    events[|UpTo(events, watermark)|..]
  }

  lemma {:induction false} UpToExact(events: seq<Event>, watermark: nat)
    requires Ascending(events)
    ensures var n := |UpTo(events, watermark)|;
            && UpTo(events, watermark) == events[..n]
            && (forall i :: 0 <= i < n ==> events[i].id <= watermark)
            && (forall i :: n <= i < |events| ==> events[i].id > watermark)
  {
    if events != [] && events[0].id <= watermark {
      UpToExact(events[1..], watermark);
      assert forall i :: 1 <= i < |events| ==> events[i] == events[1..][i - 1];
    }
  }

  lemma {:induction false} FoldConcat(rules: Rules, v: Views, a: seq<Event>, b: seq<Event>)
    ensures Fold(rules, v, a + b) ==
            if Fold(rules, v, a).None? then None else Fold(rules, Fold(rules, v, a).value, b)
  {
    if b == [] {
      assert a + b == a;
    } else {
      FoldConcat(rules, v, a, b[..|b| - 1]);
      assert (a + b)[..|a + b| - 1] == a + b[..|b| - 1];
    }
  }

  // ----- states and operations

  datatype State = State(events: seq<Event>, views: Views, watermark: nat)

  datatype SyncResult = Synced(progress: bool) | SyncFailed

  /** In every consistent state the views are the fold of the log up to the watermark. */
  ghost predicate Consistent(rules: Rules, s: State) {
    && Ascending(s.events)
    && s.watermark <= LastId(s.events)
    && Fold(rules, EMPTY, UpTo(s.events, s.watermark)) == Some(s.views)
  }

  /** The next batch: the first events after the watermark, in id order. */
  function Pending(s: State, batch: nat): seq<Event> {
    var rest := After(s.events, s.watermark);
    if |rest| <= batch then rest else rest[..batch]
  }

  /** One sync: commit the whole batch with the new watermark, or nothing. */
  ghost predicate SyncStep(rules: Rules, s: State, batch: nat, aborted: bool, s': State, r: SyncResult) {
    var pending := Pending(s, batch);
    if pending == [] then s' == s && r == Synced(false)
    else if aborted || Fold(rules, s.views, pending).None? then s' == s && r == SyncFailed
    else s' == State(s.events, Fold(rules, s.views, pending).value, LastId(pending)) && r == Synced(true)
  }

  /** In an ascending log, the cut at a watermark is the only one with the smaller ids before it and the larger after it. */
  lemma CutAt(events: seq<Event>, watermark: nat, n: nat)
    requires Ascending(events) && n <= |events|
    requires n > 0 ==> events[n - 1].id <= watermark
    requires n < |events| ==> events[n].id > watermark
    ensures UpTo(events, watermark) == events[..n]
  {
    UpToExact(events, watermark);
  }

  /** A batch and the events already applied make up the log as far as the last event of the batch. */
  lemma BatchExtends(s: State, batch: nat)
    requires Ascending(s.events) && Pending(s, batch) != []
    ensures UpTo(s.events, LastId(Pending(s, batch))) == UpTo(s.events, s.watermark) + Pending(s, batch)
    ensures s.watermark < LastId(Pending(s, batch)) <= LastId(s.events)
  {
    var n, pending := |UpTo(s.events, s.watermark)|, Pending(s, batch);
    UpToExact(s.events, s.watermark);
    assert pending == s.events[n..n + |pending|];
    assert s.events[n + |pending| - 1] == pending[|pending| - 1];
    CutAt(s.events, LastId(pending), n + |pending|);
  }

  lemma SyncKeeps(rules: Rules, s: State, batch: nat, aborted: bool, s': State, r: SyncResult)
    requires Consistent(rules, s) && batch > 0 && SyncStep(rules, s, batch, aborted, s', r)
    ensures Consistent(rules, s') && s'.events == s.events && s.watermark <= s'.watermark
    ensures r == Synced(true) ==> |After(s'.events, s'.watermark)| < |After(s.events, s.watermark)|
    ensures r == Synced(false) ==> s.watermark == LastId(s.events)
  {
    if r == Synced(true) {
      BatchExtends(s, batch);
      FoldConcat(rules, EMPTY, UpTo(s.events, s.watermark), Pending(s, batch));
    } else if r == Synced(false) && s.events != [] {
      UpToExact(s.events, s.watermark);
      assert s.events[|s.events| - 1].id <= s.watermark;
    }
  }

  lemma AscendingAppend(events: seq<Event>, e: Event)
    requires Ascending(events) && e.id > LastId(events)
    ensures Ascending(events + [e])
  {
    forall i | 0 <= i < |events| ensures events[i].id <= LastId(events) {
      assert i < |events| - 1 ==> events[i].id < events[|events| - 1].id;
    }
  }

  lemma ProposeKeeps(rules: Rules, s: State, e: Event)
    requires Consistent(rules, s) && e.id > LastId(s.events)
    ensures Consistent(rules, s.(events := s.events + [e]))
  {
    AscendingAppend(s.events, e);
    UpToExact(s.events, s.watermark);
    var n := |UpTo(s.events, s.watermark)|;
    CutAt(s.events + [e], s.watermark, n);
    assert (s.events + [e])[..n] == s.events[..n];
  }

  /** Applies the events of a batch one after the other, stopping at the first that fails. */
  method ApplyBatch(rules: Rules, views: Views, pending: seq<Event>) returns (r: Option<Views>)
    ensures r == Fold(rules, views, pending)
  {
    var tx := views;
    for k := 0 to |pending|
      invariant Fold(rules, views, pending[..k]) == Some(tx)
    {
      assert pending[..k + 1][..k] == pending[..k];
      var applied := ApplyEvent(rules, tx, pending[k]);
      if applied.None? {
        FoldFails(rules, views, pending, k + 1);
        return None;
      }
      tx := applied.value;
    }
    assert pending[..|pending|] == pending;
    r := Some(tx);
  }

  /** The log and the views, each behind its own lock. */
  class KnowledgeBase {
    const rules: Rules
    var events: seq<Event>
    var views: Views
    var watermark: nat

    ghost function Snapshot(): State
      reads this
    {
      State(events, views, watermark)
    }

    ghost predicate Valid()
      reads this
    {
      Consistent(rules, Snapshot())
    }

    constructor (prim: Primitives)
      ensures Valid() && rules == EffectRules(prim) && Snapshot() == State([], EMPTY, 0)
    {
      rules, events, views, watermark := EffectRules(prim), [], EMPTY, 0;
    }

    /**
      * Appends an event. The validators (scope, schema, references) are the caller's `valid`; the table
      * refuses an envelope hash it already holds; `skipped` row ids were consumed by earlier failures.
      */
    method Propose(kind: string, payload: Json, provenance: Json, hash: string, valid: bool, skipped: nat)
      returns (id: Option<nat>)
      requires Valid()
      modifies this
      ensures Valid()
      ensures id.Some? <==> valid && forall i :: 0 <= i < |old(events)| ==> old(events)[i].hash != hash
      ensures id.None? ==> Snapshot() == old(Snapshot())
      ensures id.Some? ==>
                && id.value == LastId(old(events)) + skipped + 1
                && Snapshot() == old(Snapshot()).(events := old(events) + [Event(id.value, kind, payload, provenance, hash)])
    {
      if !valid || exists i :: 0 <= i < |events| && events[i].hash == hash {
        return None;
      }
      var e := Event(LastId(events) + skipped + 1, kind, payload, provenance, hash);
      ProposeKeeps(rules, Snapshot(), e);
      events := events + [e];
      id := Some(e.id);
    }

    /** Reads the rows above the mark one by one, up to the batch size. */
    method LoadEventsAfter(mark: nat, batch: nat) returns (pending: seq<Event>)
      ensures pending == Pending(Snapshot().(watermark := mark), batch)
    {
      var rows := After(events, mark);
      pending := [];
      while |pending| < |rows| && |pending| < batch
        invariant |pending| <= |rows| && |pending| <= batch && pending == rows[..|pending|]
      {
        pending := pending + [rows[|pending|]];
      }
    }

    /** Applies one batch in a transaction; `aborted` says that the transaction itself fails. */
    method Sync(batchSize: nat, aborted: bool) returns (r: SyncResult)
      requires Valid()
      modifies this
      ensures SyncStep(rules, old(Snapshot()), if batchSize == 0 then 1 else batchSize, aborted, Snapshot(), r)
      ensures Valid()
    {
      var batch := if batchSize == 0 then 1 else batchSize;
      var pending := LoadEventsAfter(watermark, batch);
      ghost var before := Snapshot();
      if pending == [] {
        return Synced(false);
      }
      var tx := ApplyBatch(rules, views, pending);
      if tx.None? || aborted {
        return SyncFailed;
      }
      views, watermark := tx.value, pending[|pending| - 1].id;
      SyncKeeps(rules, before, batch, aborted, Snapshot(), Synced(true));
      r := Synced(true);
    }

    /** Catches up: it ends with the watermark at the last id exactly when no pending event fails to apply. */
    method Flush(batchSize: nat) returns (ok: bool)
      requires Valid()
      modifies this
      ensures Valid() && events == old(events) && watermark >= old(watermark)
      ensures ok <==> Fold(rules, EMPTY, events).Some?
      ensures ok ==> watermark == LastId(events) && Fold(rules, EMPTY, events) == Some(views)
    {
      var r := Synced(true);
      while r == Synced(true)
        invariant Valid() && events == old(events) && watermark >= old(watermark)
        invariant r == Synced(false) ==> watermark == LastId(events)
        invariant r == SyncFailed ==> Fold(rules, EMPTY, events).None?
        decreases |After(events, watermark)|, r == Synced(true)
      {
        ghost var before := Snapshot();
        r := Sync(batchSize, false);
        SyncKeeps(rules, before, if batchSize == 0 then 1 else batchSize, false, Snapshot(), r);
        if r == SyncFailed {
          FailedBatchFails(rules, before, if batchSize == 0 then 1 else batchSize);
        }
      }
      ok := r == Synced(false);
      if ok {
        AllUpTo(events);
      }
    }
  }

  lemma {:induction false} FoldFails(rules: Rules, v: Views, events: seq<Event>, k: nat)
    requires k <= |events| && Fold(rules, v, events[..k]).None?
    ensures Fold(rules, v, events).None?
    decreases |events|
  {
    if k < |events| {
      assert events[..|events| - 1][..k] == events[..k];
      FoldFails(rules, v, events[..|events| - 1], k);
    } else {
      assert events[..k] == events;
    }
  }

  lemma FailedBatchFails(rules: Rules, s: State, batch: nat)
    requires Consistent(rules, s)
    requires Fold(rules, s.views, Pending(s, batch)).None?
    ensures Fold(rules, EMPTY, s.events).None?
  {
    var last := LastId(Pending(s, batch));
    BatchExtends(s, batch);
    FoldConcat(rules, EMPTY, UpTo(s.events, s.watermark), Pending(s, batch));
    UpToExact(s.events, last);
    FoldFails(rules, EMPTY, s.events, |UpTo(s.events, last)|);
  }

  lemma AllUpTo(events: seq<Event>)
    requires Ascending(events)
    ensures UpTo(events, LastId(events)) == events
  {
    CutAt(events, LastId(events), |events|);
  }

  // ----- what the views say

  ghost predicate Upserts(rules: Rules, e: Event, key: RowKey) {
    var effect := rules(e);
    effect.Some? && effect.value.upsert.Some? && effect.value.upsert.value.0 == key
  }

  /** Every event of a log that folds has an effect. */
  lemma {:induction false} Effective(rules: Rules, events: seq<Event>, i: nat)
    requires Fold(rules, EMPTY, events).Some? && i < |events|
    ensures rules(events[i]).Some?
  {
    var m := |events| - 1;
    if i < m {
      Effective(rules, events[..m], i);
    }
  }

  ghost predicate NoneAfter(rules: Rules, events: seq<Event>, i: nat, key: RowKey)
    requires i <= |events|
  {
    forall j :: i <= j < |events| ==> !Upserts(rules, events[j], key)
  }

  /** Last writer wins: a row holds what the last event that wrote it wrote. */
  lemma {:induction false} LastWriterWins(rules: Rules, events: seq<Event>, key: RowKey, i: nat)
    requires Fold(rules, EMPTY, events).Some? && i < |events|
    requires Upserts(rules, events[i], key) && NoneAfter(rules, events, i + 1, key)
    ensures key in Fold(rules, EMPTY, events).value.rows
    ensures Fold(rules, EMPTY, events).value.rows[key] == rules(events[i]).value.upsert.value.1
  {
    var m := |events| - 1;
    if i < m {
      assert NoneAfter(rules, events[..m], i + 1, key) by {
        assert forall j :: i + 1 <= j < m ==> events[..m][j] == events[j];
      }
      LastWriterWins(rules, events[..m], key, i);
      assert !Upserts(rules, events[m], key);
    }
  }

  /** A row that no event wrote is not there. */
  lemma {:induction false} UnwrittenAbsent(rules: Rules, events: seq<Event>, key: RowKey)
    requires Fold(rules, EMPTY, events).Some? && NoneAfter(rules, events, 0, key)
    ensures key !in Fold(rules, EMPTY, events).value.rows
  {
    if events != [] {
      var m := |events| - 1;
      assert NoneAfter(rules, events[..m], 0, key) by {
        assert forall j :: 0 <= j < m ==> events[..m][j] == events[j];
      }
      UnwrittenAbsent(rules, events[..m], key);
      assert !Upserts(rules, events[m], key);
    }
  }

  ghost predicate Records(rules: Rules, e: Event, entity: string, id: nat) {
    e.id == id && rules(e).Some? && entity in rules(e).value.entities
  }

  ghost predicate Recorded(rules: Rules, events: seq<Event>, entity: string, id: nat) {
    exists i :: 0 <= i < |events| && Records(rules, events[i], entity, id)
  }

  lemma RecordedBefore(rules: Rules, events: seq<Event>, entity: string, id: nat)
    requires events != [] && Recorded(rules, events[..|events| - 1], entity, id)
    ensures Recorded(rules, events, entity, id)
  {
    var i :| 0 <= i < |events| - 1 && Records(rules, events[..|events| - 1][i], entity, id);
    assert events[..|events| - 1][i] == events[i];
  }

  lemma RecordedLast(rules: Rules, events: seq<Event>, entity: string, id: nat)
    requires events != [] && Recorded(rules, events, entity, id) && !Records(rules, events[|events| - 1], entity, id)
    ensures Recorded(rules, events[..|events| - 1], entity, id)
  {
    var i :| 0 <= i < |events| && Records(rules, events[i], entity, id);
    assert events[..|events| - 1][i] == events[i];
  }

  lemma HistoryGrows(rules: Rules, v: Views, e: Event, entity: string, id: nat)
    requires ApplyEvent(rules, v, e).Some?
    ensures (entity, id) in ApplyEvent(rules, v, e).value.history <==>
            (entity, id) in v.history || Records(rules, e, entity, id)
  {
  }

  /** The history holds exactly the events recorded for an entity. */
  lemma {:induction false} HistoryExact(rules: Rules, events: seq<Event>, entity: string, id: nat)
    requires Fold(rules, EMPTY, events).Some?
    ensures (entity, id) in Fold(rules, EMPTY, events).value.history <==> Recorded(rules, events, entity, id)
  {
    if events != [] {
      var m := |events| - 1;
      HistoryExact(rules, events[..m], entity, id);
      if Recorded(rules, events[..m], entity, id) {
        RecordedBefore(rules, events, entity, id);
      } else if Recorded(rules, events, entity, id) && !Records(rules, events[m], entity, id) {
        RecordedLast(rules, events, entity, id);
      }
      HistoryGrows(rules, Fold(rules, EMPTY, events[..m]).value, events[m], entity, id);
    }
  }

  // ----- any mix of operations

  datatype Op = Propose(event: Event) | Sync(batch: nat, aborted: bool)

  ghost predicate Step(rules: Rules, s: State, op: Op, s': State) {
    match op
    case Propose(e) => e.id > LastId(s.events) && s' == s.(events := s.events + [e])
    case Sync(batch, aborted) =>
      batch > 0 && exists r :: SyncStep(rules, s, batch, aborted, s', r)
  }

  /** A run of proposes, syncs of any batch sizes, and failed or aborted syncs, from an empty knowledge base. */
  ghost predicate History(rules: Rules, states: seq<State>, ops: seq<Op>) {
    && |states| == |ops| + 1 && states[0] == State([], EMPTY, 0)
    && forall k :: 0 <= k < |ops| ==> Step(rules, states[k], ops[k], states[k + 1])
  }

  lemma {:induction false} ViewsAreFold(rules: Rules, states: seq<State>, ops: seq<Op>)
    requires History(rules, states, ops)
    ensures Consistent(rules, states[|ops|])
  {
    if ops != [] {
      var m := |ops| - 1;
      forall k | 0 <= k < m ensures Step(rules, states[..m + 1][k], ops[..m][k], states[..m + 1][k + 1]) {
        assert Step(rules, states[k], ops[k], states[k + 1]);
      }
      ViewsAreFold(rules, states[..m + 1], ops[..m]);
      assert Step(rules, states[m], ops[m], states[m + 1]);
      match ops[m]
      case Propose(e) => ProposeKeeps(rules, states[m], e);
      case Sync(batch, aborted) =>
        var r :| SyncStep(rules, states[m], batch, aborted, states[m + 1], r);
        SyncKeeps(rules, states[m], batch, aborted, states[m + 1], r);
    }
  }

  /** The views at a watermark depend on the log up to it and not on batch sizes, failures or when events arrived. */
  lemma BatchingIrrelevant(rules: Rules, states: seq<State>, ops: seq<Op>, states': seq<State>, ops': seq<Op>)
    requires History(rules, states, ops) && History(rules, states', ops')
    requires var s, s' := states[|ops|], states'[|ops'|];
             UpTo(s.events, s.watermark) == UpTo(s'.events, s'.watermark)
    ensures states[|ops|].views == states'[|ops'|].views
  {
    ViewsAreFold(rules, states, ops);
    ViewsAreFold(rules, states', ops');
  }
}
