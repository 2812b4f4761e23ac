/**
  * What the materialized views hold, in terms of the payloads of the log: which events fail to apply,
  * which row each kind writes, and which entities it is recorded for.
  */
module ViewLaws {
  import opened Json
  import opened Materializer
  import Templates

  // ----- payload fields

  ghost predicate Says(v: Json, field: string, text: string) {
    v.Object? && field in v.fields && v.fields[field] == String(text)
  }

  ghost predicate Silent(v: Json, field: string) {
    forall text :: !Says(v, field, text)
  }

  /** A text field, with its surrounding white space removed. */
  ghost predicate Shows(v: Json, field: string, shown: Option<string>) {
    match shown
    case Some(core) => exists text :: Says(v, field, text) && Templates.Padded(text, core)
    case None => Silent(v, field)
  }

  /** A text field, or what stands in for a missing one. */
  ghost predicate ShowsOr(v: Json, field: string, shown: string, default: string) {
    Shows(v, field, Some(shown)) || (Silent(v, field) && shown == default)
  }

  /** The same letters, with no upper case left. */
  ghost predicate LowerCase(text: string, lower: string) {
    |lower| == |text| && forall i :: 0 <= i < |text| ==>
      (if 'A' <= text[i] <= 'Z' then lower[i] as int - text[i] as int == 'a' as int - 'A' as int else lower[i] == text[i])
  }

  ghost predicate ShowsEmail(v: Json, shown: Option<string>) {
    match shown
    case Some(email) => exists text, core :: Says(v, "email", text) && Templates.Padded(text, core) && LowerCase(core, email)
    case None => Silent(v, "email")
  }

  /** The trust given as a number, or one half. */
  ghost predicate ShowsTrust(v: Json, trust: real) {
    if v.Object? && "trust" in v.fields then
      match v.fields["trust"]
      case Integer(n) => trust == n as real
      case Float(r) => trust == r
      case _ => trust == 0.5
    else trust == 0.5
  }

  ghost predicate ShowsNumber(v: Json, field: string, n: int) {
    v.Object? && field in v.fields && v.fields[field] == Integer(n)
    && -0x8000_0000_0000_0000 <= n < 0x8000_0000_0000_0000
  }

  /** The 64-bit number in a field, or zero. */
  ghost predicate ShowsNumberOrZero(v: Json, field: string, n: int) {
    ShowsNumber(v, field, n) || (n == 0 && forall k :: !ShowsNumber(v, field, k))
  }

  lemma GetTextSays(v: Json, field: string)
    ensures GetText(v, field).Some? ==> Says(v, field, GetText(v, field).value)
    ensures GetText(v, field).None? ==> Silent(v, field)
  {
  }

  lemma ShowsExact(v: Json, field: string, shown: Option<string>)
    ensures Shows(v, field, shown) <==> shown == GetTrimmed(v, field)
  {
    GetTextSays(v, field);
    if GetText(v, field).Some? {
      var text := GetText(v, field).value;
      forall core ensures Templates.Padded(text, core) <==> core == Templates.Trim(text) {
        Templates.TrimExact(text, core);
      }
      assert forall t :: Says(v, field, t) ==> t == text;
    }
  }

  lemma LowerExact(text: string, lower: string)
    ensures LowerCase(text, lower) <==> lower == Lower(text)
  {
    assert LowerCase(text, Lower(text));
    if LowerCase(text, lower) {
      forall i | 0 <= i < |text| ensures lower[i] == Lower(text)[i] {
        assert lower[i] as int == Lower(text)[i] as int;
      }
    }
  }

  lemma EmailExact(v: Json, shown: Option<string>)
    ensures ShowsEmail(v, shown) <==>
              shown == (if GetText(v, "email").Some? then Some(NormalizeEmail(GetText(v, "email").value)) else None)
  {
    GetTextSays(v, "email");
    if GetText(v, "email").Some? {
      var text := GetText(v, "email").value;
      var core := Templates.Trim(text);
      Templates.TrimExact(text, core);
      LowerExact(core, Lower(core));
      if shown.Some? && ShowsEmail(v, shown) {
        var t, c :| Says(v, "email", t) && Templates.Padded(t, c) && LowerCase(c, shown.value);
        assert t == text;
        Templates.TrimExact(text, c);
        LowerExact(core, shown.value);
      }
    }
  }

  lemma NumberExact(v: Json, field: string, n: int)
    ensures ShowsNumber(v, field, n) <==> GetInteger(v, field) == Some(n)
    ensures ShowsNumberOrZero(v, field, n) <==> n == OrElse(GetInteger(v, field), 0)
  {
    if GetInteger(v, field).Some? {
      assert ShowsNumber(v, field, GetInteger(v, field).value);
    }
  }

  lemma TrustExact(v: Json, trust: real)
    ensures ShowsTrust(v, trust) <==> trust == OrElse(GetReal(v, "trust"), 0.5)
  {
  }

  lemma BlankTrims(text: string)
    requires Templates.AllSpace(text)
    ensures Templates.Trim(text) == ""
  {
    assert text == text + "" + "";
    assert Templates.PaddedBy(text, text, "", "");
    Templates.TrimExact(text, "");
  }

  lemma TrimmedBlank(text: string)
    requires Templates.Trim(text) == ""
    ensures Templates.AllSpace(text)
  {
    Templates.TrimPads(text);
    var left, right :| Templates.PaddedBy(text, left, "", right);
    assert text == left + right;
  }

  // ----- what each kind of event writes

  ghost predicate WritesContact(prim: Primitives, e: Event, key: string, row: Row) {
    && row.Contact? && row.source == e.id
    && Shows(e.payload, "name", row.name) && Shows(e.payload, "org", row.org)
    && ShowsEmail(e.payload, row.email) && ShowsTrust(e.payload, row.trust)
    && if row.email.Some? && row.email.value != "" then key == prim.hash(row.email.value)
       else row.name.Some? && key == prim.hash(row.name.value + if row.org.Some? then "|" + row.org.value else "")
  }

  /** A digest in the payload that is not blank, in lower case. */
  ghost predicate ShowsDigest(v: Json, digest: string) {
    exists core :: core != "" && Shows(v, "sha256", Some(core)) && LowerCase(core, digest)
  }

  ghost predicate WritesArtifact(prim: Primitives, e: Event, key: string, row: Row) {
    && row.Artifact? && row.source == e.id
    && Shows(e.payload, "kind", Some(row.kind))
    && ShowsOr(e.payload, "path", row.path, "")
    && (match row.summary case Some(text) => Says(e.payload, "summary", text) case None => Silent(e.payload, "summary"))
    && (ShowsDigest(e.payload, key)
        || ((forall d :: !ShowsDigest(e.payload, d)) && !Silent(e.payload, "path") && key == prim.hash(row.path)))
  }

  ghost predicate WritesRun(e: Event, traceId: string, row: Row) {
    && row.Run? && row.source == e.id
    && Shows(e.provenance, "trace_id", Some(traceId)) && Shows(e.payload, "opening_id", Some(row.openingId))
    && ShowsOr(e.payload, "status", row.status, e.kind)
  }

  ghost predicate WritesNode(e: Event, traceId: string, nodeId: string, row: Row) {
    && row.RunNode? && row.source == e.id && !Silent(e.payload, "opening_id")
    && Shows(e.payload, "trace_id", Some(traceId)) && Shows(e.payload, "node_id", Some(nodeId))
    && Shows(e.payload, "status", Some(row.status))
    && ShowsNumberOrZero(e.payload, "attempt", row.attempt) && ShowsNumberOrZero(e.payload, "duration_ms", row.durationMs)
    && Shows(e.payload, "outputs_hash", row.outputsHash) && Shows(e.payload, "error", row.error)
  }

  ghost predicate WritesTrace(prim: Primitives, e: Event, traceId: string, row: Row) {
    && row.RunTrace? && row.source == e.id && row.traceJson == prim.render(e.payload)
    && Shows(e.provenance, "trace_id", Some(traceId)) && Shows(e.payload, "final_hash", Some(row.finalHash))
    && e.payload.Object? && "success" in e.payload.fields && e.payload.fields["success"] == Bool(row.success)
  }

  ghost predicate Writes(prim: Primitives, e: Event, key: RowKey, row: Row) {
    match key
    case ContactKey(k) => e.kind == "contact.upserted" && WritesContact(prim, e, k, row)
    case ArtifactKey(k) => e.kind == "artifact.created" && WritesArtifact(prim, e, k, row)
    case RunKey(t) => (e.kind == "run.started" || e.kind == "run.finished") && WritesRun(e, t, row)
    case RunNodeKey(t, n) => e.kind == "node.finished" && WritesNode(e, t, n, row)
    case RunTraceKey(t) => e.kind == "run.trace" && WritesTrace(prim, e, t, row)
  }

  ghost predicate Blank(v: Json, field: string) {
    forall text :: Says(v, field, text) ==> Templates.AllSpace(text)
  }

  /** An event that lacks what its kind requires. */
  ghost predicate Malformed(e: Event) {
    || (e.kind == "contact.upserted" && Blank(e.payload, "email") && Silent(e.payload, "name"))
    || (e.kind == "artifact.created"
        && (Silent(e.payload, "kind") || (Blank(e.payload, "sha256") && Silent(e.payload, "path"))))
    || ((e.kind == "run.started" || e.kind == "run.finished")
        && (Silent(e.provenance, "trace_id") || Silent(e.payload, "opening_id")))
    || (e.kind == "node.finished"
        && (Silent(e.payload, "trace_id") || Silent(e.payload, "opening_id") || Silent(e.payload, "node_id") || Silent(e.payload, "status")))
    || (e.kind == "run.trace"
        && (Silent(e.provenance, "trace_id") || Silent(e.payload, "final_hash")
            || !(e.payload.Object? && "success" in e.payload.fields && e.payload.fields["success"].Bool?)))
  }

  /** The entities an event is recorded for. */
  ghost predicate Mentions(prim: Primitives, e: Event, entity: string) {
    || (exists key, row :: Writes(prim, e, key, row) && Names(e, key, entity))
    || (e.kind == "email.sent" && exists n :: ShowsNumber(e.payload, "artifact_id", n) && entity == "artifact:event:" + Decimal(n))
  }

  ghost predicate Names(e: Event, key: RowKey, entity: string) {
    match key
    case ContactKey(k) => entity == "contact:" + k
    case ArtifactKey(k) => entity == "artifact:" + k
    case RunKey(t) => entity == "run:" + t
    case RunTraceKey(t) => entity == "run:" + t
    case RunNodeKey(t, n) =>
      || entity == "run:" + t || entity == "node:" + t + "#" + n
      || exists opening :: Shows(e.payload, "opening_id", Some(opening)) && entity == "opening:" + opening
  }

  lemma SilentExact(v: Json, field: string)
    ensures Silent(v, field) <==> GetText(v, field).None?
    ensures Silent(v, field) <==> GetTrimmed(v, field).None?
    ensures Blank(v, field) <==> GetTrimmed(v, field).None? || GetTrimmed(v, field).value == ""
  {
    GetTextSays(v, field);
    if GetText(v, field).Some? {
      var text := GetText(v, field).value;
      if Templates.AllSpace(text) {
        BlankTrims(text);
      } else if Templates.Trim(text) == "" {
        TrimmedBlank(text);
      }
    }
  }

  lemma LowerKeepsSpace(text: string)
    requires text != "" && !Templates.IsSpace(text[0]) && !Templates.IsSpace(text[|text| - 1])
    ensures !Templates.IsSpace(Lower(text)[0]) && !Templates.IsSpace(Lower(text)[|text| - 1])
  {
  }

  lemma LowerTwice(text: string)
    ensures Lower(Lower(text)) == Lower(text)
  {
  }

  lemma TrimTwice(text: string)
    ensures Templates.Trim(Templates.Trim(text)) == Templates.Trim(text)
  {
    var core := Templates.Trim(text);
    Templates.TrimPads(text);
    assert core == "" + core + "";
    assert Templates.PaddedBy(core, "", core, "");
    Templates.TrimExact(core, core);
  }

  /** Lower case keeps white space where it was, so a normalized address is normalized already. */
  lemma NormalizeTwice(email: string)
    ensures NormalizeEmail(NormalizeEmail(email)) == NormalizeEmail(email)
    ensures Templates.Trim(NormalizeEmail(email)) == NormalizeEmail(email)
  {
    var core := Templates.Trim(email);
    Templates.TrimPads(email);
    var lower := Lower(core);
    if core != "" {
      LowerKeepsSpace(core);
    }
    assert lower == "" + lower + "";
    assert Templates.PaddedBy(lower, "", lower, "");
    Templates.TrimExact(lower, lower);
    LowerTwice(core);
  }

  lemma ContactFails(prim: Primitives, e: Event)
    ensures ContactEffect(prim, e).None? <==> Blank(e.payload, "email") && Silent(e.payload, "name")
  {
    SilentExact(e.payload, "name");
    EmailKeyExact(e.payload);
  }

  lemma ArtifactFails(prim: Primitives, e: Event)
    ensures ArtifactEffect(prim, e).None? <==>
              Silent(e.payload, "kind") || (Blank(e.payload, "sha256") && Silent(e.payload, "path"))
  {
    SilentExact(e.payload, "kind");
    SilentExact(e.payload, "sha256");
    SilentExact(e.payload, "path");
    TrimmedStays(e.payload, "sha256");
  }

  lemma RunFails(prim: Primitives, e: Event)
    ensures RunEffect(e).None? <==> Silent(e.provenance, "trace_id") || Silent(e.payload, "opening_id")
    ensures RunTraceEffect(prim, e).None? <==>
              || Silent(e.provenance, "trace_id") || Silent(e.payload, "final_hash")
              || !(e.payload.Object? && "success" in e.payload.fields && e.payload.fields["success"].Bool?)
  {
    SilentExact(e.provenance, "trace_id");
    SilentExact(e.payload, "opening_id");
    SilentExact(e.payload, "final_hash");
  }

  lemma NodeFails(e: Event)
    ensures NodeFinishedEffect(e).None? <==>
              Silent(e.payload, "trace_id") || Silent(e.payload, "opening_id") || Silent(e.payload, "node_id") || Silent(e.payload, "status")
  {
    SilentExact(e.payload, "trace_id");
    SilentExact(e.payload, "opening_id");
    SilentExact(e.payload, "node_id");
    SilentExact(e.payload, "status");
  }

  /** An event fails to apply exactly when it lacks what its kind requires. */
  lemma FailsExact(prim: Primitives, e: Event)
    ensures EffectOf(prim, e).None? <==> Malformed(e)
  {
    if e.kind == "contact.upserted" {
      ContactFails(prim, e);
    } else if e.kind == "artifact.created" {
      ArtifactFails(prim, e);
    } else if e.kind == "run.started" || e.kind == "run.finished" || e.kind == "run.trace" {
      RunFails(prim, e);
    } else if e.kind == "node.finished" {
      NodeFails(e);
    }
  }

  /** The address decides the contact key unless it is blank. */
  lemma EmailKeyExact(v: Json)
    ensures Blank(v, "email") <==> GetText(v, "email").None? || NormalizeEmail(GetText(v, "email").value) == ""
    ensures GetText(v, "email").Some? ==>
              var email := NormalizeEmail(GetText(v, "email").value); Templates.Trim(email) == email && NormalizeEmail(email) == email
  {
    SilentExact(v, "email");
    if GetText(v, "email").Some? {
      NormalizeTwice(GetText(v, "email").value);
    }
  }

  lemma TrimmedStays(v: Json, field: string)
    ensures GetTrimmed(v, field).Some? ==> Templates.Trim(GetTrimmed(v, field).value) == GetTrimmed(v, field).value
  {
    if GetText(v, field).Some? {
      TrimTwice(GetText(v, field).value);
    }
  }

  lemma ContactExact(prim: Primitives, e: Event, key: string, row: Row)
    ensures WritesContact(prim, e, key, row) <==>
              ContactEffect(prim, e).Some? && ContactEffect(prim, e).value.upsert == Some((ContactKey(key), row))
  {
    if row.Contact? {
      ShowsExact(e.payload, "name", row.name);
      ShowsExact(e.payload, "org", row.org);
      EmailExact(e.payload, row.email);
      TrustExact(e.payload, row.trust);
      EmailKeyExact(e.payload);
      TrimmedStays(e.payload, "name");
      TrimmedStays(e.payload, "org");
    }
  }

  lemma DigestExact(v: Json, digest: string)
    ensures ShowsDigest(v, digest) <==>
              GetTrimmed(v, "sha256").Some? && GetTrimmed(v, "sha256").value != "" && digest == Lower(GetTrimmed(v, "sha256").value)
  {
    var field := GetTrimmed(v, "sha256");
    if field.Some? {
      ShowsExact(v, "sha256", field);
      LowerExact(field.value, digest);
    }
    if ShowsDigest(v, digest) {
      var core :| core != "" && Shows(v, "sha256", Some(core)) && LowerCase(core, digest);
      ShowsExact(v, "sha256", Some(core));
    }
  }

  lemma NoDigestExact(v: Json)
    ensures (forall d :: !ShowsDigest(v, d)) <==> GetTrimmed(v, "sha256").None? || GetTrimmed(v, "sha256").value == ""
  {
    forall d ensures ShowsDigest(v, d) <==>
        GetTrimmed(v, "sha256").Some? && GetTrimmed(v, "sha256").value != "" && d == Lower(GetTrimmed(v, "sha256").value)
    {
      DigestExact(v, d);
    }
    if GetTrimmed(v, "sha256").Some? && GetTrimmed(v, "sha256").value != "" {
      assert ShowsDigest(v, Lower(GetTrimmed(v, "sha256").value));
    }
  }

  lemma ShownOrExact(v: Json, field: string, shown: string, default: string)
    ensures ShowsOr(v, field, shown, default) <==> shown == OrElse(GetTrimmed(v, field), default)
  {
    ShowsExact(v, field, Some(shown));
    SilentExact(v, field);
  }

  lemma SaidExact(v: Json, field: string, said: Option<string>)
    ensures (match said case Some(text) => Says(v, field, text) case None => Silent(v, field)) <==> said == GetText(v, field)
  {
    GetTextSays(v, field);
  }

  lemma ArtifactKeyExact(prim: Primitives, v: Json, key: string)
    ensures DeriveArtifactKey(prim, GetTrimmed(v, "sha256"), GetTrimmed(v, "path")) == Some(key) <==>
              || ShowsDigest(v, key)
              || ((forall d :: !ShowsDigest(v, d)) && !Silent(v, "path") && key == prim.hash(OrElse(GetTrimmed(v, "path"), "")))
  {
    SilentExact(v, "path");
    DigestExact(v, key);
    NoDigestExact(v);
    TrimmedStays(v, "sha256");
    TrimmedStays(v, "path");
  }

  lemma ArtifactExact(prim: Primitives, e: Event, key: string, row: Row)
    ensures WritesArtifact(prim, e, key, row) <==>
              ArtifactEffect(prim, e).Some? && ArtifactEffect(prim, e).value.upsert == Some((ArtifactKey(key), row))
  {
    if row.Artifact? {
      ShowsExact(e.payload, "kind", Some(row.kind));
      ShownOrExact(e.payload, "path", row.path, "");
      SaidExact(e.payload, "summary", row.summary);
      ArtifactKeyExact(prim, e.payload, key);
    }
  }

  lemma RunExact(e: Event, traceId: string, row: Row)
    ensures WritesRun(e, traceId, row) <==>
              RunEffect(e).Some? && RunEffect(e).value.upsert == Some((RunKey(traceId), row))
  {
    if row.Run? {
      ShowsExact(e.provenance, "trace_id", Some(traceId));
      ShowsExact(e.payload, "opening_id", Some(row.openingId));
      ShownOrExact(e.payload, "status", row.status, e.kind);
    }
  }

  lemma NodeExact(e: Event, traceId: string, nodeId: string, row: Row)
    ensures WritesNode(e, traceId, nodeId, row) <==>
              NodeFinishedEffect(e).Some? && NodeFinishedEffect(e).value.upsert == Some((RunNodeKey(traceId, nodeId), row))
  {
    if row.RunNode? {
      ShowsExact(e.payload, "trace_id", Some(traceId));
      ShowsExact(e.payload, "node_id", Some(nodeId));
      ShowsExact(e.payload, "status", Some(row.status));
      ShowsExact(e.payload, "outputs_hash", row.outputsHash);
      ShowsExact(e.payload, "error", row.error);
      NumberExact(e.payload, "attempt", row.attempt);
      NumberExact(e.payload, "duration_ms", row.durationMs);
      SilentExact(e.payload, "opening_id");
    }
  }

  lemma TraceExact(prim: Primitives, e: Event, traceId: string, row: Row)
    ensures WritesTrace(prim, e, traceId, row) <==>
              RunTraceEffect(prim, e).Some? && RunTraceEffect(prim, e).value.upsert == Some((RunTraceKey(traceId), row))
  {
    if row.RunTrace? {
      ShowsExact(e.provenance, "trace_id", Some(traceId));
      ShowsExact(e.payload, "final_hash", Some(row.finalHash));
    }
  }

  /** Only its own kind of event writes to a table. */
  lemma KindOfTable(prim: Primitives, e: Event, key: RowKey)
    ensures EffectOf(prim, e) == match key
            case ContactKey(_) => if e.kind == "contact.upserted" then ContactEffect(prim, e) else EffectOf(prim, e)
            case ArtifactKey(_) => if e.kind == "artifact.created" then ArtifactEffect(prim, e) else EffectOf(prim, e)
            case RunKey(_) => if e.kind == "run.started" || e.kind == "run.finished" then RunEffect(e) else EffectOf(prim, e)
            case RunNodeKey(_, _) => if e.kind == "node.finished" then NodeFinishedEffect(e) else EffectOf(prim, e)
            case RunTraceKey(_) => if e.kind == "run.trace" then RunTraceEffect(prim, e) else EffectOf(prim, e)
  {
  }

  lemma TableOfKind(prim: Primitives, e: Event)
    requires EffectOf(prim, e).Some? && EffectOf(prim, e).value.upsert.Some?
    ensures match EffectOf(prim, e).value.upsert.value.0
            case ContactKey(_) => e.kind == "contact.upserted"
            case ArtifactKey(_) => e.kind == "artifact.created"
            case RunKey(_) => e.kind == "run.started" || e.kind == "run.finished"
            case RunNodeKey(_, _) => e.kind == "node.finished"
            case RunTraceKey(_) => e.kind == "run.trace"
  {
  }

  /** The row an event writes, if it applies, is the one its payload describes. */
  lemma WritesExact(prim: Primitives, e: Event, key: RowKey, row: Row)
    ensures Writes(prim, e, key, row) <==> EffectOf(prim, e).Some? && EffectOf(prim, e).value.upsert == Some((key, row))
  {
    KindOfTable(prim, e, key);
    if EffectOf(prim, e).Some? && EffectOf(prim, e).value.upsert.Some? {
      TableOfKind(prim, e);
    }
    match key
    case ContactKey(k) => ContactExact(prim, e, k, row);
    case ArtifactKey(k) => ArtifactExact(prim, e, k, row);
    case RunKey(t) => RunExact(e, t, row);
    case RunNodeKey(t, n) => NodeExact(e, t, n, row);
    case RunTraceKey(t) => TraceExact(prim, e, t, row);
  }

  lemma NamesExact(prim: Primitives, e: Event, key: RowKey, row: Row, entity: string)
    requires EffectOf(prim, e).Some? && EffectOf(prim, e).value.upsert == Some((key, row))
    ensures entity in EffectOf(prim, e).value.entities <==> Names(e, key, entity)
  {
    if key.RunNodeKey? {
      var opening := GetTrimmed(e.payload, "opening_id");
      forall o: string ensures Shows(e.payload, "opening_id", Some(o)) <==> Some(o) == opening {
        ShowsExact(e.payload, "opening_id", Some(o));
      }
    }
  }

  /** An event is recorded for the entities its payload and kind name, and no others. */
  lemma MentionsExact(prim: Primitives, e: Event, entity: string)
    requires EffectOf(prim, e).Some?
    ensures entity in EffectOf(prim, e).value.entities <==> Mentions(prim, e, entity)
  {
    var upsert := EffectOf(prim, e).value.upsert;
    forall key, row ensures Writes(prim, e, key, row) <==> upsert == Some((key, row)) {
      WritesExact(prim, e, key, row);
    }
    if upsert.Some? {
      NamesExact(prim, e, upsert.value.0, upsert.value.1, entity);
      assert Writes(prim, e, upsert.value.0, upsert.value.1);
    }
    forall n: int ensures ShowsNumber(e.payload, "artifact_id", n) <==> GetInteger(e.payload, "artifact_id") == Some(n) {
      NumberExact(e.payload, "artifact_id", n);
    }
  }

  /** The same text but for white space around it and the case of its letters. */
  ghost predicate SameAddress(a: string, b: string) {
    exists core, core' :: Templates.Padded(a, core) && Templates.Padded(b, core') && SameButCase(core, core')
  }

  ghost predicate SameButCase(a: string, b: string) {
    |a| == |b| && forall i :: 0 <= i < |a| ==> a[i] == b[i] || CaseOf(a[i], b[i]) || CaseOf(b[i], a[i])
  }

  predicate CaseOf(upper: char, lower: char) {
    'A' <= upper <= 'Z' && lower as int - upper as int == 'a' as int - 'A' as int
  }

  lemma SameLower(a: string, b: string)
    requires SameButCase(a, b)
    ensures Lower(a) == Lower(b)
  {
    forall i | 0 <= i < |a| ensures Lower(a)[i] == Lower(b)[i] {
      assert Lower(a)[i] as int == Lower(b)[i] as int;
    }
  }

  /** Contacts given by one address, however written, go to one row. */
  lemma SameAddressSameRow(prim: Primitives, e: Event, f: Event, a: string, b: string, key: RowKey, key': RowKey, row: Row, row': Row)
    requires Writes(prim, e, key, row) && Writes(prim, f, key', row') && key.ContactKey? && key'.ContactKey?
    requires Says(e.payload, "email", a) && Says(f.payload, "email", b) && SameAddress(a, b) && !Templates.AllSpace(a)
    ensures key == key'
  {
    var core, core' :| Templates.Padded(a, core) && Templates.Padded(b, core') && SameButCase(core, core');
    Templates.TrimExact(a, core);
    Templates.TrimExact(b, core');
    SameLower(core, core');
    EmailExact(e.payload, row.email);
    EmailExact(f.payload, row'.email);
    if core == "" {
      TrimmedBlank(a);
    }
  }

  // ----- what the views hold

  ghost predicate WritesUnder(prim: Primitives, e: Event, key: RowKey) {
    exists row :: Writes(prim, e, key, row)
  }

  /** Event i wrote this row, and none after it wrote under the key. */
  ghost predicate LastWrite(prim: Primitives, events: seq<Event>, i: nat, key: RowKey, row: Row)
    requires i < |events|
  {
    Writes(prim, events[i], key, row) && forall j :: i < j < |events| ==> !WritesUnder(prim, events[j], key)
  }

  lemma {:induction false} FoldFailsExact(rules: Rules, events: seq<Event>, n: nat)
    requires n <= |events|
    ensures Fold(rules, EMPTY, events[..n]).None? <==> exists i :: 0 <= i < n && rules(events[i]).None?
  {
    if n > 0 {
      FoldFailsExact(rules, events, n - 1);
      assert events[..n][..n - 1] == events[..n - 1];
    }
  }

  /** Applying a log fails exactly when one of its events is malformed. */
  lemma FoldExact(prim: Primitives, events: seq<Event>)
    ensures Fold(EffectRules(prim), EMPTY, events).None? <==> exists i :: 0 <= i < |events| && Malformed(events[i])
  {
    var rules := EffectRules(prim);
    FoldFailsExact(rules, events, |events|);
    assert events[..|events|] == events;
    forall i | 0 <= i < |events| ensures rules(events[i]).None? <==> Malformed(events[i]) {
      FailsExact(prim, events[i]);
    }
  }

  lemma UpsertsExact(prim: Primitives, e: Event, key: RowKey)
    ensures Upserts(EffectRules(prim), e, key) <==> WritesUnder(prim, e, key)
  {
    forall row ensures Writes(prim, e, key, row) <==> EffectOf(prim, e).Some? && EffectOf(prim, e).value.upsert == Some((key, row)) {
      WritesExact(prim, e, key, row);
    }
    if Upserts(EffectRules(prim), e, key) {
      assert Writes(prim, e, key, EffectOf(prim, e).value.upsert.value.1);
    }
  }

  lemma {:induction false} LastUpsert(rules: Rules, events: seq<Event>, n: nat, key: RowKey) returns (i: nat)
    requires n <= |events| && NoneAfter(rules, events, n, key) && !NoneAfter(rules, events, 0, key)
    ensures i < n && Upserts(rules, events[i], key) && NoneAfter(rules, events, i + 1, key)
  {
    i := n - 1;
    if !Upserts(rules, events[i], key) {
      i := LastUpsert(rules, events, n - 1, key);
    }
  }

  lemma LastWriteExact(prim: Primitives, events: seq<Event>, i: nat, key: RowKey, row: Row)
    requires i < |events|
    ensures LastWrite(prim, events, i, key, row) <==>
              && Upserts(EffectRules(prim), events[i], key) && EffectRules(prim)(events[i]).value.upsert.value.1 == row
              && NoneAfter(EffectRules(prim), events, i + 1, key)
  {
    WritesExact(prim, events[i], key, row);
    forall j | i < j < |events| ensures Upserts(EffectRules(prim), events[j], key) <==> WritesUnder(prim, events[j], key) {
      UpsertsExact(prim, events[j], key);
    }
  }

  /** A table holds a row under a key exactly when it is what the last event to write there describes. */
  lemma RowsExact(prim: Primitives, events: seq<Event>, key: RowKey, row: Row)
    requires Fold(EffectRules(prim), EMPTY, events).Some?
    ensures var rows := Fold(EffectRules(prim), EMPTY, events).value.rows;
            key in rows && rows[key] == row <==> exists i :: 0 <= i < |events| && LastWrite(prim, events, i, key, row)
  {
    var rules := EffectRules(prim);
    if NoneAfter(rules, events, 0, key) {
      UnwrittenAbsent(rules, events, key);
    } else {
      var last := LastUpsert(rules, events, |events|, key);
      LastWriterWins(rules, events, key, last);
      LastWriteExact(prim, events, last, key, row);
    }
    forall i | 0 <= i < |events| && LastWrite(prim, events, i, key, row)
      ensures key in Fold(rules, EMPTY, events).value.rows && Fold(rules, EMPTY, events).value.rows[key] == row
    {
      LastWriteExact(prim, events, i, key, row);
      LastWriterWins(rules, events, key, i);
    }
  }

  /** In every consistent state, the tables and the history describe the events up to the watermark and no others. */
  lemma StateExact(prim: Primitives, s: State, applied: seq<Event>, key: RowKey, row: Row, entity: string, id: nat)
    requires Consistent(EffectRules(prim), s) && applied <= s.events
    requires forall i :: 0 <= i < |s.events| ==> (i < |applied| <==> s.events[i].id <= s.watermark)
    ensures forall i :: 0 <= i < |applied| ==> !Malformed(applied[i])
    ensures key in s.views.rows && s.views.rows[key] == row <==>
              exists i :: 0 <= i < |applied| && LastWrite(prim, applied, i, key, row)
    ensures (entity, id) in s.views.history <==>
              exists i :: 0 <= i < |applied| && applied[i].id == id && Mentions(prim, applied[i], entity)
  {
    CutAt(s.events, s.watermark, |applied|);
    assert UpTo(s.events, s.watermark) == applied;
    FoldExact(prim, applied);
    RowsExact(prim, applied, key, row);
    HistoryTells(prim, applied, entity, id);
  }

  /** The history holds exactly the pairs of an entity and an event that mentions it. */
  lemma HistoryTells(prim: Primitives, events: seq<Event>, entity: string, id: nat)
    requires Fold(EffectRules(prim), EMPTY, events).Some?
    ensures (entity, id) in Fold(EffectRules(prim), EMPTY, events).value.history <==>
              exists i :: 0 <= i < |events| && events[i].id == id && Mentions(prim, events[i], entity)
  {
    HistoryExact(EffectRules(prim), events, entity, id);
    forall i | 0 <= i < |events|
      ensures Records(EffectRules(prim), events[i], entity, id) <==> events[i].id == id && Mentions(prim, events[i], entity)
    {
      Effective(EffectRules(prim), events, i);
      MentionsExact(prim, events[i], entity);
    }
  }
}
