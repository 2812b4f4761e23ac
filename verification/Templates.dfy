/** Parameter templates in opening payloads: whole-string substitution over JSON trees. */
module Templates {
  import opened Json

  datatype TemplateError = MissingParameter(name: string) | UnsupportedSyntax(text: string) | EmbeddedTemplate(text: string)
  datatype Outcome<T> = Ok(value: T) | Err(error: TemplateError)

  // ----- strings

  predicate OccursAt(text: string, pattern: string, i: nat) {
    i + |pattern| <= |text| && text[i..i + |pattern|] == pattern
  }

  predicate Contains(text: string, pattern: string) {
    exists i :: 0 <= i <= |text| && OccursAt(text, pattern, i)
  }

  predicate HasBraces(text: string) {
    Contains(text, "{{") || Contains(text, "}}")
  }

  /** Unicode white space. */
  predicate IsSpace(c: char) {
    var n := c as int;
    9 <= n <= 13 || n == 32 || n == 0x85 || n == 0xA0 || n == 0x1680 || 0x2000 <= n <= 0x200A
    || n == 0x2028 || n == 0x2029 || n == 0x202F || n == 0x205F || n == 0x3000
  }

  function TrimStart(text: string): string {
    if text != "" && IsSpace(text[0]) then TrimStart(text[1..]) else text
  }

  function TrimEnd(text: string): string {
    if text != "" && IsSpace(text[|text| - 1]) then TrimEnd(text[..|text| - 1]) else text
  }

  function Trim(text: string): string {
    TrimEnd(TrimStart(text))
  }

  predicate IsNameChar(c: char) {
    'a' <= c <= 'z' || 'A' <= c <= 'Z' || '0' <= c <= '9' || c == '_' || c == '-'
  }

  /** The parameter name of a string that is exactly one template, possibly padded inside the braces. */
  function ExtractTemplate(value: string): Option<string> {
    if |value| < 4 || value[..2] != "{{" || value[|value| - 2..] != "}}" then None
    else
      var inner := Trim(value[2..|value| - 2]);
      if |inner| < 7 || inner[..7] != "params." then None
      else if forall i :: 7 <= i < |inner| ==> IsNameChar(inner[i]) then Some(inner[7..])
      else None
  }

  ghost predicate AllSpace(text: string) {
    forall i :: 0 <= i < |text| ==> IsSpace(text[i])
  }

  ghost predicate PaddedBy(text: string, left: string, core: string, right: string) {
    text == left + core + right && AllSpace(left) && AllSpace(right)
  }

  /** The text is the core between white space, and the core neither starts nor ends with any. */
  ghost predicate Padded(text: string, core: string) {
    && (core != "" ==> !IsSpace(core[0]) && !IsSpace(core[|core| - 1]))
    && exists left, right :: PaddedBy(text, left, core, right)
  }

  lemma {:induction false} StartExact(text: string) returns (left: string)
    ensures text == left + TrimStart(text) && AllSpace(left)
    ensures TrimStart(text) != "" ==> !IsSpace(TrimStart(text)[0])
  {
    if text != "" && IsSpace(text[0]) {
      left := StartExact(text[1..]);
      assert text == [text[0]] + text[1..];
      left := [text[0]] + left;
    } else {
      left := "";
      assert text == left + text;
    }
  }

  lemma {:induction false} EndExact(text: string) returns (right: string)
    ensures text == TrimEnd(text) + right && AllSpace(right)
    ensures TrimEnd(text) != "" ==> !IsSpace(TrimEnd(text)[|TrimEnd(text)| - 1])
  {
    if text != "" && IsSpace(text[|text| - 1]) {
      right := EndExact(text[..|text| - 1]);
      assert text == text[..|text| - 1] + [text[|text| - 1]];
      right := right + [text[|text| - 1]];
    } else {
      right := "";
      assert text == text + right;
    }
  }

  lemma TrimPads(text: string)
    ensures Padded(text, Trim(text))
  {
    var left := StartExact(text);
    var right := EndExact(TrimStart(text));
    assert TrimStart(text) == Trim(text) + right;
    assert text == left + Trim(text) + right;
    assert PaddedBy(text, left, Trim(text), right);
    if Trim(text) != "" {
      assert TrimStart(text)[0] == Trim(text)[0];
    }
  }

  lemma OneCore(text: string, a: string, core: string, b: string, a': string, core': string, b': string)
    requires PaddedBy(text, a, core, b) && PaddedBy(text, a', core', b')
    requires core != "" && !IsSpace(core[0]) && !IsSpace(core[|core| - 1])
    requires core' != "" ==> !IsSpace(core'[0]) && !IsSpace(core'[|core'| - 1])
    ensures core == core'
  {
    assert text[|a|] == core[0] && text[|a| + |core| - 1] == core[|core| - 1];
    if core' == "" {
      assert false;
    } else {
      assert text[|a'|] == core'[0] && text[|a'| + |core'| - 1] == core'[|core'| - 1];
      assert forall i :: 0 <= i < |a| ==> text[i] == a[i];
      assert forall i :: 0 <= i < |a'| ==> text[i] == a'[i];
      assert |a| == |a'|;
      assert forall i :: |a| + |core| <= i < |text| ==> text[i] == b[i - |a| - |core|];
      assert forall i :: |a'| + |core'| <= i < |text| ==> text[i] == b'[i - |a'| - |core'|];
      assert |core| == |core'|;
      assert core == text[|a|..|a| + |core|] && core' == text[|a'|..|a'| + |core'|];
    }
  }

  /** Trimming leaves the one core that stands between white space. */
  lemma TrimExact(text: string, core: string)
    ensures core == Trim(text) <==> Padded(text, core)
  {
    TrimPads(text);
    if Padded(text, core) {
      var a, b :| PaddedBy(text, a, core, b);
      var a', b' :| PaddedBy(text, a', Trim(text), b');
      if core != "" {
        OneCore(text, a, core, b, a', Trim(text), b');
      } else if Trim(text) != "" {
        OneCore(text, a', Trim(text), b', a, core, b);
      }
    }
  }

  ghost predicate TemplateOf(value: string, left: string, name: string, right: string) {
    value == "{{" + left + "params." + name + right + "}}" && AllSpace(left) && AllSpace(right)
    && forall i :: 0 <= i < |name| ==> IsNameChar(name[i])
  }

  /** A string is the template of a name exactly when it is "params." and that name, padded with white space, in braces. */
  lemma ExtractExact(value: string, name: string)
    ensures ExtractTemplate(value) == Some(name) <==> exists left, right :: TemplateOf(value, left, name, right)
  {
    if ExtractTemplate(value) == Some(name) {
      ExtractedIsTemplate(value, name);
    } else {
      forall left, right | TemplateOf(value, left, name, right) ensures false {
        TemplateExtracts(value, left, name, right);
      }
    }
  }

  lemma ExtractedIsTemplate(value: string, name: string)
    requires ExtractTemplate(value) == Some(name)
    ensures exists left, right :: TemplateOf(value, left, name, right)
  {
    var middle := value[2..|value| - 2];
    var inner := Trim(middle);
    assert inner == inner[..7] + inner[7..];
    forall i | 0 <= i < |name| ensures IsNameChar(name[i]) {
      assert name[i] == inner[i + 7];
    }
    TrimPads(middle);
    var left, right :| PaddedBy(middle, left, inner, right);
    Braced(value, left, name, right);
  }

  lemma Braced(value: string, left: string, name: string, right: string)
    requires |value| >= 4 && value[..2] == "{{" && value[|value| - 2..] == "}}"
    requires PaddedBy(value[2..|value| - 2], left, "params." + name, right) && forall i :: 0 <= i < |name| ==> IsNameChar(name[i])
    ensures TemplateOf(value, left, name, right)
  {
    assert value == value[..2] + value[2..|value| - 2] + value[|value| - 2..];
    assert "{{" + (left + ("params." + name) + right) + "}}" == "{{" + left + "params." + name + right + "}}";
  }

  lemma TemplateExtracts(value: string, left: string, name: string, right: string)
    requires TemplateOf(value, left, name, right)
    ensures ExtractTemplate(value) == Some(name)
  {
    var core := "params." + name;
    var middle := left + core + right;
    assert value == "{{" + middle + "}}";
    assert value[2..|value| - 2] == middle;
    assert core[0] == 'p' && core[|core| - 1] == if name == "" then '.' else name[|name| - 1];
    assert PaddedBy(middle, left, core, right);
    TrimExact(middle, core);
    assert core[..7] == "params." && core[7..] == name;
  }

  /** Braces are found exactly where a text holds two of a kind in a row. */
  lemma ContainsExact(text: string, pattern: string)
    ensures Contains(text, pattern) <==> exists before, after :: Around(text, before, pattern, after)
  {
    if Contains(text, pattern) {
      var i :| 0 <= i <= |text| && OccursAt(text, pattern, i);
      assert Around(text, text[..i], pattern, text[i + |pattern|..]);
    }
    forall before, after | Around(text, before, pattern, after) ensures Contains(text, pattern) {
      assert text[|before|..|before| + |pattern|] == pattern;
      assert OccursAt(text, pattern, |before|);
    }
  }

  ghost predicate Around(text: string, before: string, pattern: string, after: string) {
    text == before + pattern + after
  }

  lemma TemplateHasBraces(value: string)
    requires ExtractTemplate(value).Some?
    ensures HasBraces(value)
  {
    assert OccursAt(value, "{{", 0);
  }

  // ----- meaning

  /** No string value at any depth contains template braces. */
  predicate Clean(v: Json) {
    match v
    case String(text) => !HasBraces(text)
    case Array(items) => forall i :: 0 <= i < |items| ==> Clean(items[i])
    case Object(fields) => forall k :: k in fields ==> Clean(fields[k])
    case _ => true
  }

  /** Simultaneous substitution: every string that is a template is replaced by its parameter. */
  function Subst(v: Json, params: map<string, Json>): Json {
    match v
    case String(text) =>
      var name := ExtractTemplate(text);
      if name.Some? && name.value in params then params[name.value] else v
    case Array(items) => Array(seq(|items|, i requires 0 <= i < |items| => Subst(items[i], params)))
    case Object(fields) => Object(map k | k in fields :: Subst(fields[k], params))
    case _ => v
  }

  /** Every string is a template with a clean parameter, or free of braces. */
  predicate Acceptable(v: Json, params: map<string, Json>) {
    match v
    case String(text) =>
      var name := ExtractTemplate(text);
      if name.Some? then name.value in params && Clean(params[name.value]) else !HasBraces(text)
    case Array(items) => forall i :: 0 <= i < |items| ==> Acceptable(items[i], params)
    case Object(fields) => forall k :: k in fields ==> Acceptable(fields[k], params)
    case _ => true
  }

  // ----- the rewriting code

  /** The text of the first string found with template braces, if any. */
  method ValidateNoTemplates(value: Json) returns (offending: Option<string>)
    ensures offending.None? <==> Clean(value)
    ensures offending.Some? ==> HasBraces(offending.value)
    decreases value
  {
    match value
    case String(text) =>
      return if HasBraces(text) then Some(text) else None;
    case Array(items) =>
      for i := 0 to |items|
        invariant forall j :: 0 <= j < i ==> Clean(items[j])
      {
        offending := ValidateNoTemplates(items[i]);
        if offending.Some? {
          return;
        }
      }
      return None;
    case Object(fields) =>
      var keys := fields.Keys;
      while keys != {}
        invariant keys <= fields.Keys && forall k :: k in fields && k !in keys ==> Clean(fields[k])
        decreases keys
      {
        var k :| k in keys;
        offending := ValidateNoTemplates(fields[k]);
        if offending.Some? {
          return;
        }
        keys := keys - {k};
      }
      return None;
    case _ =>
      return None;
  }

  method SubstituteString(text: string, params: map<string, Json>) returns (r: Outcome<Json>)
    ensures r.Ok? <==> Acceptable(String(text), params)
    ensures r.Ok? ==> r.value == Subst(String(text), params)
    ensures r.Err? ==> Blames(r.error, params)
  {
    var name := ExtractTemplate(text);
    if name.Some? {
      if name.value !in params {
        return Err(MissingParameter(name.value));
      }
      var offending := ValidateNoTemplates(params[name.value]);
      if offending.Some? {
        return Err(EmbeddedTemplate(offending.value));
      }
      return Ok(params[name.value]);
    } else if HasBraces(text) {
      return Err(UnsupportedSyntax(text));
    }
    return Ok(String(text));
  }

  /** The error names something that is really wrong. */
  predicate Blames(error: TemplateError, params: map<string, Json>) {
    match error
    case MissingParameter(name) => name !in params
    case UnsupportedSyntax(text) => HasBraces(text) && ExtractTemplate(text).None?
    case EmbeddedTemplate(text) => HasBraces(text)
  }

  /** Rewrites one value: the cases shared by objects and arrays. */
  method RewriteValue(value: Json, params: map<string, Json>) returns (r: Outcome<Json>)
    ensures r.Ok? <==> Acceptable(value, params)
    ensures r.Ok? ==> r.value == Subst(value, params)
    ensures r.Err? ==> Blames(r.error, params)
    decreases value, 1
  {
    match value
    case String(text) =>
      r := SubstituteString(text, params);
    case Object(inner) =>
      var m := ApplyParamTemplates(inner, params);
      r := if m.Ok? then Ok(Object(m.value)) else Err(m.error);
    case Array(inner) =>
      var a := ApplyTemplatesArray(inner, params);
      r := if a.Ok? then Ok(Array(a.value)) else Err(a.error);
    case _ =>
      r := Ok(value);
  }

  /** Rewrites every value of a payload object in place, in whatever order the map yields them. */
  method ApplyParamTemplates(payload: map<string, Json>, params: map<string, Json>) returns (r: Outcome<map<string, Json>>)
    ensures r.Ok? <==> Acceptable(Object(payload), params)
    ensures r.Ok? ==> Object(r.value) == Subst(Object(payload), params)
    ensures r.Err? ==> Blames(r.error, params)
    decreases Object(payload), 0
  {
    var fields, keys := payload, payload.Keys;
    while keys != {}
      invariant keys <= payload.Keys == fields.Keys
      invariant forall k :: k in keys ==> fields[k] == payload[k]
      invariant forall k :: k in payload && k !in keys ==> Acceptable(payload[k], params)
      invariant forall k :: k in payload && k !in keys ==> fields[k] == Subst(payload[k], params)
      decreases keys
    {
      var k :| k in keys;
      keys := keys - {k};
      var v := RewriteValue(fields[k], params);
      if v.Err? {
        return Err(v.error);
      }
      fields := fields[k := v.value];
    }
    assert fields == map k | k in payload :: Subst(payload[k], params);
    return Ok(fields);
  }

  /** Rewrites every element of an array in place. */
  method ApplyTemplatesArray(items: seq<Json>, params: map<string, Json>) returns (r: Outcome<seq<Json>>)
    ensures r.Ok? <==> Acceptable(Array(items), params)
    ensures r.Ok? ==> Array(r.value) == Subst(Array(items), params)
    ensures r.Err? ==> Blames(r.error, params)
    decreases Array(items), 0
  {
    var out := items;
    for i := 0 to |items|
      invariant |out| == |items| && forall j :: i <= j < |items| ==> out[j] == items[j]
      invariant forall j :: 0 <= j < i ==> Acceptable(items[j], params) && out[j] == Subst(items[j], params)
    {
      var v := RewriteValue(out[i], params);
      if v.Err? {
        return Err(v.error);
      }
      out := out[i := v.value];
    }
    return Ok(out);
  }

  // ----- what substitution guarantees

  /** After a substitution that is accepted, no string value at any depth contains template braces. */
  lemma {:induction false} SubstCloses(v: Json, params: map<string, Json>)
    requires Acceptable(v, params)
    ensures Clean(Subst(v, params))
  {
    match v
    case Array(items) =>
      forall i | 0 <= i < |items| ensures Clean(Subst(items[i], params)) {
        SubstCloses(items[i], params);
      }
    case Object(fields) =>
      forall k | k in fields ensures Clean(Subst(fields[k], params)) {
        SubstCloses(fields[k], params);
      }
    case _ =>
  }

  /** A clean tree is accepted with any parameters and left as it is. */
  lemma {:induction false} CleanIsFixed(v: Json, params: map<string, Json>)
    requires Clean(v)
    ensures Acceptable(v, params) && Subst(v, params) == v
  {
    match v
    case String(text) =>
      if ExtractTemplate(text).Some? {
        TemplateHasBraces(text);
      }
    case Array(items) =>
      forall i | 0 <= i < |items| ensures Acceptable(items[i], params) && Subst(items[i], params) == items[i] {
        CleanIsFixed(items[i], params);
      }
    case Object(fields) =>
      forall k | k in fields ensures Acceptable(fields[k], params) && Subst(fields[k], params) == fields[k] {
        CleanIsFixed(fields[k], params);
      }
      assert (map k | k in fields :: Subst(fields[k], params)) == fields;
    case _ =>
  }

  /** Applying templates again, with any parameters, changes nothing. */
  lemma SubstTwice(v: Json, params: map<string, Json>, others: map<string, Json>)
    requires Acceptable(v, params)
    ensures Acceptable(Subst(v, params), others) && Subst(Subst(v, params), others) == Subst(v, params)
  {
    SubstCloses(v, params);
    CleanIsFixed(Subst(v, params), others);
  }

  datatype Step = Field(name: string) | Index(i: nat)

  /** The subtree at a path. */
  function At(v: Json, path: seq<Step>): Option<Json>
    decreases path
  {
    if path == [] then Some(v)
    else
      match (v, path[0])
      case (Object(fields), Field(name)) => if name in fields then At(fields[name], path[1..]) else None
      case (Array(items), Index(i)) => if i < |items| then At(items[i], path[1..]) else None
      case _ => None
  }

  /** Position by position: a template leaf holds its parameter, and every other leaf is what it was. */
  lemma {:induction false} SubstAt(v: Json, params: map<string, Json>, path: seq<Step>)
    requires Acceptable(v, params) && At(v, path).Some?
    ensures At(Subst(v, params), path) == Some(Subst(At(v, path).value, params))
    ensures var leaf := At(v, path).value;
            && (leaf.String? && ExtractTemplate(leaf.text).Some? ==>
                  var name := ExtractTemplate(leaf.text).value;
                  name in params && At(Subst(v, params), path) == Some(params[name]))
            && (!leaf.Array? && !leaf.Object? && !(leaf.String? && ExtractTemplate(leaf.text).Some?) ==>
                  At(Subst(v, params), path) == Some(leaf))
    decreases path
  {
    if path != [] {
      match (v, path[0])
      case (Object(fields), Field(name)) => SubstAt(fields[name], params, path[1..]);
      case (Array(items), Index(i)) => SubstAt(items[i], params, path[1..]);
    }
  }

  /** A template leaf, however padded, becomes the parameter it names; a leaf that no template fits stays. */
  lemma TemplateLeafAt(v: Json, params: map<string, Json>, path: seq<Step>, value: string)
    requires Acceptable(v, params) && At(v, path) == Some(String(value))
    ensures forall left, name, right :: TemplateOf(value, left, name, right) ==>
              name in params && At(Subst(v, params), path) == Some(params[name])
    ensures (forall left, name, right :: !TemplateOf(value, left, name, right)) ==> At(Subst(v, params), path) == Some(String(value))
  {
    SubstAt(v, params, path);
    forall left, name, right | TemplateOf(value, left, name, right)
      ensures name in params && At(Subst(v, params), path) == Some(params[name])
    {
      TemplateExtracts(value, left, name, right);
    }
    if ExtractTemplate(value).Some? {
      ExtractedIsTemplate(value, ExtractTemplate(value).value);
    }
  }
}
