/** Layered configuration: merging files and environment over the defaults, and recording what each layer changed. */
module Config {
  import opened Json

  type Path = seq<string>

  /** One recorded change: the dotted key, the value before (absent when null) and the value after. */
  datatype Override = Override(key: string, previous: Option<Json>, newValue: Json)

  // ----- trees

  /** A field of an object, null when it is absent. */
  function Field(v: Json, key: string): Json {
    if v.Object? && key in v.fields then v.fields[key] else Null
  }

  function Lookup(v: Json, path: Path): Json
    decreases path
  {
    if path == [] then v else Lookup(Field(v, path[0]), path[1..])
  }

  /** A tree without its null fields: two trees with the same one differ only in what is null and what is absent. */
  function Norm(v: Json): Json {
    match v
    case Object(fields) => Object(map k | k in fields && fields[k] != Null :: Norm(fields[k]))
    case _ => v
  }

  ghost predicate Same(a: Json, b: Json) {
    Norm(a) == Norm(b)
  }

  lemma SameFields(a: Json, b: Json, k: string)
    requires a.Object? && Same(a, b)
    ensures b.Object? && Same(Field(a, k), Field(b, k))
  {
    var x, y := Norm(a).fields, Norm(b).fields;
    assert k in x <==> Field(a, k) != Null;
    assert k in y <==> Field(b, k) != Null;
    assert k in x ==> x[k] == Norm(Field(a, k)) && y[k] == Norm(Field(b, k));
  }

  lemma FieldsSame(a: Json, b: Json)
    requires a.Object? && b.Object? && forall k :: Same(Field(a, k), Field(b, k))
    ensures Same(a, b)
  {
    var x, y := Norm(a).fields, Norm(b).fields;
    forall k ensures (k in x <==> k in y) && (k in x ==> x[k] == y[k]) {
      assert Same(Field(a, k), Field(b, k));
      assert k in x <==> Field(a, k) != Null;
      assert k in y <==> Field(b, k) != Null;
    }
    assert x == y;
  }

  // ----- merging

  /** The meaning of a merge: objects merge key by key, anything else is replaced. */
  function Merge(base: Json, patch: Json): Json
    decreases patch
  {
    if base.Object? && patch.Object? then
      Object(map k | k in base.fields.Keys + patch.fields.Keys ::
               if k in patch.fields then
                 if k in base.fields then Merge(base.fields[k], patch.fields[k]) else patch.fields[k]
               else base.fields[k])
    else patch
  }

  /** Rewrites the base, one key of the patch after the other, in whatever order the map yields them. */
  method MergeValue(base: Json, patch: Json) returns (r: Json)
    ensures r == Merge(base, patch)
    decreases patch
  {
    if base.Object? && patch.Object? {
      var fields, keys := base.fields, patch.fields.Keys;
      while keys != {}
        invariant keys <= patch.fields.Keys
        invariant fields.Keys == base.fields.Keys + (patch.fields.Keys - keys)
        invariant forall k :: k in fields && k in keys ==> fields[k] == base.fields[k]
        invariant forall k :: k in fields && k !in keys ==> fields[k] == Merge(base, patch).fields[k]
        decreases keys
      {
        var k :| k in keys;
        keys := keys - {k};
        if k in fields {
          var v := MergeValue(fields[k], patch.fields[k]);
          fields := fields[k := v];
        } else {
          fields := fields[k := patch.fields[k]];
        }
      }
      assert fields == Merge(base, patch).fields;
      r := Object(fields);
    } else {
      r := patch;
    }
  }

  lemma {:induction false} MergeSelf(v: Json)
    ensures Merge(v, v) == v
  {
    if v.Object? {
      forall k | k in v.fields ensures Merge(v.fields[k], v.fields[k]) == v.fields[k] {
        MergeSelf(v.fields[k]);
      }
      assert Merge(v, v).fields == v.fields;
    }
  }

  /** Merging the same patch again changes nothing. */
  lemma {:induction false} MergeTwice(base: Json, patch: Json)
    ensures Merge(Merge(base, patch), patch) == Merge(base, patch)
    decreases patch
  {
    MergeSelf(patch);
    if base.Object? && patch.Object? {
      var once := Merge(base, patch);
      forall k | k in patch.fields ensures Merge(once.fields[k], patch.fields[k]) == once.fields[k] {
        if k in base.fields {
          MergeTwice(base.fields[k], patch.fields[k]);
        } else {
          MergeSelf(patch.fields[k]);
        }
      }
      assert Merge(once, patch).fields == once.fields;
    }
  }

  /** The patch speaks about a path when it holds something there, or something other than an object above it. */
  predicate Speaks(patch: Json, path: Path) {
    if path == [] || !patch.Object? then true
    else path[0] in patch.fields && Speaks(patch.fields[path[0]], path[1..])
  }

  /** Path by path: where the patch speaks, what is not an object comes from it; where it is silent, the base stays. */
  lemma {:induction false} MergeAt(base: Json, patch: Json, path: Path)
    ensures !Speaks(patch, path) ==> Lookup(Merge(base, patch), path) == Lookup(base, path)
    ensures Speaks(patch, path) && !Lookup(patch, path).Object? ==> Lookup(Merge(base, patch), path) == Lookup(patch, path)
    decreases path
  {
    if path != [] && patch.Object? {
      var k := path[0];
      if base.Object? {
        if k in patch.fields && k in base.fields {
          MergeAt(base.fields[k], patch.fields[k], path[1..]);
        } else if k in patch.fields {
          SilentAbsent(patch.fields[k], path[1..]);
        }
      } else {
        SilentAbsent(patch, path);
      }
    } else if path != [] {
      NothingBelow(patch, path);
    }
  }

  lemma {:induction false} NothingBelow(v: Json, path: Path)
    requires !v.Object? && path != []
    ensures Lookup(v, path) == Null
    decreases path
  {
    if |path| > 1 {
      NothingBelow(Null, path[1..]);
    }
  }

  lemma {:induction false} SilentAbsent(patch: Json, path: Path)
    ensures !Speaks(patch, path) ==> Lookup(patch, path) == Null
    ensures path != [] ==> Lookup(Null, path) == Null
    decreases path
  {
    if path != [] {
      NothingBelow(Null, path);
      if patch.Object? && path[0] in patch.fields {
        SilentAbsent(patch.fields[path[0]], path[1..]);
      } else if |path| > 1 {
        NothingBelow(Null, path[1..]);
      }
    }
  }

  // ----- setting a path

  /** Sets the value at a path, making objects on the way; None when something on the way is not an object. */
  function SetPath(t: Json, path: Path, value: Json): Option<Json>
    decreases path
  {
    if path == [] then Some(value)
    else if !t.Object? then None
    else
      var child := if path[0] in t.fields then t.fields[path[0]] else Object(map[]);
      var set_ := SetPath(child, path[1..], value);
      if set_.None? then None else Some(Object(t.fields[path[0] := set_.value]))
  }

  /** A set path can be read back, and what is on no common path is untouched. */
  lemma {:induction false} SetPathAt(t: Json, path: Path, value: Json, other: Path)
    requires SetPath(t, path, value).Some?
    ensures Lookup(SetPath(t, path, value).value, path) == value
    ensures !(path <= other) && !(other <= path) ==> Lookup(SetPath(t, path, value).value, other) == Lookup(t, other)
    decreases path
  {
    if path != [] {
      var k := path[0];
      var child := if k in t.fields then t.fields[k] else Object(map[]);
      var rest := if other == [] then [] else other[1..];
      SetPathAt(child, path[1..], value, rest);
      if !(path <= other) && !(other <= path) && other[0] == k {
        assert path == [k] + path[1..] && other == [k] + other[1..];
        if k !in t.fields {
          NothingBelow(Null, rest);
          EmptyBelow(rest);
        }
      }
    }
  }

  lemma EmptyBelow(path: Path)
    requires path != []
    ensures Lookup(Object(map[]), path) == Null
  {
    if |path| > 1 {
      NothingBelow(Null, path[1..]);
    }
  }

  /** Setting a path fails exactly when a proper prefix of it already holds something other than an object. */
  lemma {:induction false} SetPathFails(t: Json, path: Path, value: Json)
    ensures SetPath(t, path, value).None? <==> exists n: nat :: n < |path| && Blocks(t, path[..n])
    decreases path
  {
    if path != [] {
      if !t.Object? {
        assert Blocks(t, path[..0]);
      } else {
        var child := if path[0] in t.fields then t.fields[path[0]] else Object(map[]);
        SetPathFails(child, path[1..], value);
        forall n: nat | 0 < n < |path| ensures Blocks(t, path[..n]) <==> Blocks(child, path[1..][..n - 1]) {
          assert path[..n][1..] == path[1..][..n - 1];
          if path[0] !in t.fields {
            NoBlock(path[1..][..n - 1]);
          }
        }
        if exists n: nat :: n < |path| - 1 && Blocks(child, path[1..][..n]) {
          var n: nat :| n < |path| - 1 && Blocks(child, path[1..][..n]);
          assert Blocks(t, path[..n + 1]);
        }
      }
    }
  }

  /** Something other than an object is there. */
  predicate Blocks(t: Json, path: Path)
    decreases path
  {
    if path == [] then !t.Object?
    else t.Object? && path[0] in t.fields && Blocks(t.fields[path[0]], path[1..])
  }

  lemma NoBlock(path: Path)
    ensures !Blocks(Object(map[]), path)
  {
  }

  // ----- recorded changes

  datatype Edit = Edit(path: Path, previous: Json, value: Json)

  /** Sets one path after the other. */
  function ApplyAll(t: Json, edits: seq<Edit>): Option<Json>
    decreases |edits|
  {
    if edits == [] then Some(t)
    else
      var first := SetPath(t, edits[0].path, edits[0].value);
      if first.None? then None else ApplyAll(first.value, edits[1..])
  }

  lemma {:induction false} ApplyConcat(t: Json, a: seq<Edit>, b: seq<Edit>)
    ensures ApplyAll(t, a + b) == if ApplyAll(t, a).None? then None else ApplyAll(ApplyAll(t, a).value, b)
    decreases |a|
  {
    if a == [] {
      assert a + b == b;
    } else {
      assert (a + b)[1..] == a[1..] + b;
      var first := SetPath(t, a[0].path, a[0].value);
      if first.Some? {
        ApplyConcat(first.value, a[1..], b);
      }
    }
  }

  /** The edits turn any tree that is the first, nulls aside, into the second, nulls aside. */
  ghost predicate Transforms(a: Json, b: Json, edits: seq<Edit>) {
    forall r {:trigger ApplyAll(r, edits)} :: Same(r, a) ==> ApplyAll(r, edits).Some? && Same(ApplyAll(r, edits).value, b)
  }

  lemma TransformsConcat(a: Json, b: Json, c: Json, first: seq<Edit>, second: seq<Edit>)
    requires Transforms(a, b, first) && Transforms(b, c, second)
    ensures Transforms(a, c, first + second)
  {
    forall r | Same(r, a) ensures ApplyAll(r, first + second).Some? && Same(ApplyAll(r, first + second).value, c) {
      ApplyConcat(r, first, second);
      assert ApplyAll(r, first).Some?;
    }
  }

  function Below(key: string, edits: seq<Edit>): (r: seq<Edit>)
    ensures |r| == |edits|
    ensures forall i :: 0 <= i < |r| ==> r[i] == edits[i].(path := [key] + edits[i].path)
  {
    seq(|edits|, i requires 0 <= i < |edits| => edits[i].(path := [key] + edits[i].path))
  }

  /** Edits below a key act on that field alone. */
  lemma {:induction false} ApplyBelow(t: Json, key: string, edits: seq<Edit>)
    requires t.Object? && edits != [] && ApplyAll(Field(t, key), edits).Some?
    ensures ApplyAll(t, Below(key, edits)) == Some(Object(t.fields[key := ApplyAll(Field(t, key), edits).value]))
    decreases |edits|
  {
    var path := edits[0].path;
    assert ([key] + path)[1..] == path;
    var child := SetPath(Field(t, key), path, edits[0].value).value;
    var t' := Object(t.fields[key := child]);
    assert SetPath(t, [key] + path, edits[0].value) == Some(t');
    assert Below(key, edits)[1..] == Below(key, edits[1..]);
    if |edits| > 1 {
      ApplyBelow(t', key, edits[1..]);
      assert t'.fields[key := ApplyAll(Field(t', key), edits[1..]).value] == t.fields[key := ApplyAll(Field(t, key), edits).value];
    } else {
      assert edits[1..] == [];
    }
  }

  /** Edits that transform a field transform the object around it. */
  lemma TransformsBelow(a: Json, b: Json, key: string, edits: seq<Edit>)
    requires a.Object? && b.Object? && Transforms(Field(a, key), Field(b, key), edits)
    requires forall k :: k != key ==> Same(Field(a, k), Field(b, k))
    ensures Transforms(a, b, Below(key, edits))
  {
    forall r | Same(r, a)
      ensures ApplyAll(r, Below(key, edits)).Some? && Same(ApplyAll(r, Below(key, edits)).value, b)
    {
      SameFields(a, r, key);
      var child := ApplyAll(Field(r, key), edits);
      assert Same(Field(r, key), Field(a, key)) && child.Some? && Same(child.value, Field(b, key));
      var r' := if edits == [] then r else Object(r.fields[key := child.value]);
      if edits == [] {
        assert Below(key, edits) == [];
      } else {
        ApplyBelow(r, key, edits);
      }
      forall k ensures Same(Field(r', k), Field(b, k)) {
        SameFields(a, r, k);
      }
      FieldsSame(r', b);
    }
  }

  /** Every edit records a real change, with the values before and after it. */
  ghost predicate Real(before: Json, after: Json, edits: seq<Edit>) {
    forall i :: 0 <= i < |edits| ==> RealEdit(before, after, edits[i])
  }

  ghost predicate RealEdit(before: Json, after: Json, e: Edit) {
    Lookup(before, e.path) == e.previous != e.value == Lookup(after, e.path)
  }

  /** The object with the fields of `after` for the keys done, and of `before` for the others. */
  ghost function Mix(before: Json, after: Json, done: set<string>): Json
    requires before.Object? && after.Object?
  {
    Object(map k | k in before.fields.Keys + after.fields.Keys :: if k in done then Field(after, k) else Field(before, k))
  }

  lemma MixAt(before: Json, after: Json, done: set<string>, k: string)
    requires before.Object? && after.Object?
    ensures Field(Mix(before, after, done), k) == if k in done then Field(after, k) else Field(before, k)
  {
  }

  /** The overrides record, under the prefix, edits that are real and turn the first tree into the second. */
  ghost predicate Differences(prefix: Path, before: Json, after: Json, overrides: seq<Override>) {
    exists edits :: overrides == Recorded(prefix, edits) && Explains(before, after, edits)
  }

  ghost predicate Explains(before: Json, after: Json, edits: seq<Edit>) {
    Transforms(before, after, edits) && Real(before, after, edits)
  }

  /** Appends the differences between two trees to the overrides, with keys dotted under the prefix. */
  method DiffValues(prefix: Path, before: Json, after: Json, overrides: seq<Override>) returns (all: seq<Override>)
    ensures overrides <= all && Differences(prefix, before, after, all[|overrides|..])
    decreases before.Object? && after.Object?, before, 1
  {
    if before == after {
      all := overrides;
      SplitAfter(overrides, Recorded(prefix, []));
      assert Recorded(prefix, []) == [] && Explains(before, after, []);
    } else if before.Object? && after.Object? {
      all := DiffObjects(prefix, before, after, overrides);
    } else {
      var o := Override(Dotted(prefix), ToOption(before), after);
      all := overrides + [o];
      assert prefix + [] == prefix;
      Replaces(before, after);
      SplitAfter(overrides, [o]);
      assert [o] == Recorded(prefix, [Edit([], before, after)]) && Explains(before, after, [Edit([], before, after)]);
    }
  }

  /** The case of two objects: one key after the other, in any order. */
  method DiffObjects(prefix: Path, before: Json, after: Json, overrides: seq<Override>) returns (all: seq<Override>)
    requires before.Object? && after.Object?
    ensures overrides <= all && Differences(prefix, before, after, all[|overrides|..])
    decreases true, before, 0
  {
    all := overrides;
    ghost var edits: seq<Edit> := [];
    var keys := before.fields.Keys + after.fields.Keys;
    ghost var done: set<string> := {};
    NothingDone(before, after);
    while keys != {}
      invariant keys + done == before.fields.Keys + after.fields.Keys && keys !! done
      invariant all == overrides + Recorded(prefix, edits)
      invariant MixedSoFar(before, after, done, edits)
      decreases keys
    {
      var k :| k in keys;
      ghost var was := all;
      all := DiffValues(prefix + [k], Field(before, k), Field(after, k), all);
      edits := OneKeyMore(prefix, before, after, done, k, edits, overrides, was, all);
      keys, done := keys - {k}, done + {k};
    }
    AllDone(before, after, done);
    SplitAfter(overrides, Recorded(prefix, edits));
    assert Explains(before, after, edits);
  }

  /** The overrides recorded for one more key join those before it. */
  lemma OneKeyMore(prefix: Path, before: Json, after: Json, done: set<string>, k: string, edits: seq<Edit>,
                   overrides: seq<Override>, was: seq<Override>, all: seq<Override>) returns (more: seq<Edit>)
    requires before.Object? && after.Object? && k !in done && MixedSoFar(before, after, done, edits)
    requires was == overrides + Recorded(prefix, edits) && was <= all
    requires Differences(prefix + [k], Field(before, k), Field(after, k), all[|was|..])
    ensures all == overrides + Recorded(prefix, more) && MixedSoFar(before, after, done + {k}, more)
  {
    var sub :| all[|was|..] == Recorded(prefix + [k], sub) && Explains(Field(before, k), Field(after, k), sub);
    RecordedBelow(prefix, k, edits, sub);
    OneMore(before, after, done, k, edits, sub);
    more := edits + Below(k, sub);
    SplitAt(was, all);
    assert (overrides + Recorded(prefix, edits)) + Recorded(prefix + [k], sub) == overrides + Recorded(prefix, more);
  }

  /** The edits explain the keys done. */
  ghost predicate MixedSoFar(before: Json, after: Json, done: set<string>, edits: seq<Edit>)
    requires before.Object? && after.Object?
  {
    Transforms(before, Mix(before, after, done), edits) && Real(before, after, edits)
  }

  lemma SplitAt<T>(a: seq<T>, b: seq<T>)
    requires a <= b
    ensures b == a + b[|a|..]
  {
  }

  lemma SplitAfter<T>(a: seq<T>, b: seq<T>)
    ensures (a + b)[|a|..] == b
  {
  }

  /** Each override names a path where the trees differ, with the value before, if it was not null, and after. */
  lemma OverridesTell(prefix: Path, before: Json, after: Json, overrides: seq<Override>, i: nat)
    requires Differences(prefix, before, after, overrides) && i < |overrides|
    ensures exists path: Path ::
              && overrides[i].key == Dotted(prefix + path) && overrides[i].newValue == Lookup(after, path) != Lookup(before, path)
              && (overrides[i].previous.None? <==> Lookup(before, path) == Null)
              && (overrides[i].previous.Some? ==> overrides[i].previous.value == Lookup(before, path))
  {
    var edits :| overrides == Recorded(prefix, edits) && Explains(before, after, edits);
    assert RealEdit(before, after, edits[i]);
  }

  function ToOption(v: Json): Option<Json> {
    if v == Null then None else Some(v)
  }

  lemma Replaces(before: Json, after: Json)
    requires before != after
    ensures Transforms(before, after, [Edit([], before, after)]) && Real(before, after, [Edit([], before, after)])
  {
    var edits := [Edit([], before, after)];
    forall r ensures ApplyAll(r, edits) == Some(after) {
      assert edits[1..] == [];
      assert ApplyAll(after, edits[1..]) == Some(after);
    }
  }

  lemma NothingDone(before: Json, after: Json)
    requires before.Object? && after.Object?
    ensures Transforms(before, Mix(before, after, {}), [])
  {
    forall k ensures Same(Field(before, k), Field(Mix(before, after, {}), k)) {
      MixAt(before, after, {}, k);
    }
    FieldsSame(before, Mix(before, after, {}));
  }

  lemma AllDone(before: Json, after: Json, done: set<string>)
    requires before.Object? && after.Object? && done == before.fields.Keys + after.fields.Keys
    ensures Same(Mix(before, after, done), after)
  {
    forall k ensures Same(Field(Mix(before, after, done), k), Field(after, k)) {
      MixAt(before, after, done, k);
    }
    FieldsSame(Mix(before, after, done), after);
  }

  /** One more key done: its edits join those of the keys before it. */
  lemma OneMore(before: Json, after: Json, done: set<string>, k: string, edits: seq<Edit>, sub: seq<Edit>)
    requires before.Object? && after.Object? && k !in done
    requires MixedSoFar(before, after, done, edits) && Explains(Field(before, k), Field(after, k), sub)
    ensures MixedSoFar(before, after, done + {k}, edits + Below(k, sub))
  {
    var a, b := Mix(before, after, done), Mix(before, after, done + {k});
    forall j ensures Field(a, j) == (if j in done then Field(after, j) else Field(before, j))
                     && Field(b, j) == (if j in done + {k} then Field(after, j) else Field(before, j)) {
      MixAt(before, after, done, j);
      MixAt(before, after, done + {k}, j);
    }
    TransformsBelow(a, b, k, sub);
    TransformsConcat(before, a, b, edits, Below(k, sub));
    forall i | 0 <= i < |sub| ensures RealEdit(before, after, Below(k, sub)[i]) {
      assert RealEdit(Field(before, k), Field(after, k), sub[i]);
      assert ([k] + sub[i].path)[1..] == sub[i].path;
    }
  }

  // ----- dotted keys

  function Dotted(path: Path): string {
    if path == [] then ""
    else
      var prefix, key := Dotted(path[..|path| - 1]), path[|path| - 1];
      if prefix == "" then key else prefix + "." + key
  }

  /** The overrides that stand for edits under a prefix. */
  function Recorded(prefix: Path, edits: seq<Edit>): (r: seq<Override>)
    ensures |r| == |edits|
  {
    seq(|edits|, i requires 0 <= i < |edits| =>
      Override(Dotted(prefix + edits[i].path), ToOption(edits[i].previous), edits[i].value))
  }

  lemma RecordedBelow(prefix: Path, k: string, edits: seq<Edit>, sub: seq<Edit>)
    ensures Recorded(prefix, edits) + Recorded(prefix + [k], sub) == Recorded(prefix, edits + Below(k, sub))
  {
    forall i | 0 <= i < |sub| ensures prefix + [k] + sub[i].path == prefix + Below(k, sub)[i].path {
    }
  }

  /** Where the last dot is, or -1. */
  function LastDot(key: string): (i: int)
    ensures -1 <= i < |key|
  {
    if key == "" then -1 else if key[|key| - 1] == '.' then |key| - 1 else LastDot(key[..|key| - 1])
  }

  function Split(key: string): Path {
    if key == "" then []
    else
      var i := LastDot(key);
      if i < 0 then [key] else Split(key[..i]) + [key[i + 1..]]
  }

  predicate DotFreePath(path: Path) {
    forall i :: 0 <= i < |path| ==> '.' !in path[i]
  }

  /** No key on the path contains a dot, and the first is not empty. */
  predicate Legible(path: Path) {
    DotFreePath(path) && (path != [] ==> path[0] != "")
  }

  lemma {:induction false} LastDotAt(prefix: string, key: string)
    requires '.' !in key
    ensures LastDot(key) == -1 && LastDot(prefix + "." + key) == |prefix|
  {
    var text := prefix + "." + key;
    if key != "" {
      var rest := key[..|key| - 1];
      assert text[..|text| - 1] == prefix + "." + rest;
      assert '.' !in rest;
      LastDotAt(prefix, rest);
    }
  }

  lemma SplitJoin(prefix: string, key: string)
    requires '.' !in key
    ensures Split(prefix + "." + key) == Split(prefix) + [key]
  {
    LastDotAt(prefix, key);
    var text := prefix + "." + key;
    assert text[..|prefix|] == prefix && text[|prefix| + 1..] == key;
  }

  lemma {:induction false} SplitDotted(path: Path)
    requires Legible(path)
    ensures Split(Dotted(path)) == path && (path != [] ==> Dotted(path) != "")
  {
    if |path| == 1 {
      SplitOne(path[0]);
    } else if path != [] {
      var prefix, key := path[..|path| - 1], path[|path| - 1];
      LegibleFront(path);
      SplitDotted(prefix);
      SplitJoin(Dotted(prefix), key);
      DottedStep(path);
    }
  }

  lemma SplitOne(key: string)
    requires '.' !in key && key != ""
    ensures Split(key) == [key] && Dotted([key]) == key
  {
    LastDotAt("", key);
    assert [key][..0] == [];
  }

  lemma LegibleFront(path: Path)
    requires Legible(path) && |path| > 1
    ensures Legible(path[..|path| - 1]) && '.' !in path[|path| - 1]
    ensures path == path[..|path| - 1] + [path[|path| - 1]]
  {
  }

  lemma DottedStep(path: Path)
    requires path != [] && Dotted(path[..|path| - 1]) != ""
    ensures Dotted(path) == Dotted(path[..|path| - 1]) + "." + path[|path| - 1]
  {
  }

  lemma {:induction false} AfterLastDot(key: string, k: nat)
    requires LastDot(key) < k < |key|
    ensures key[k] != '.'
  {
    if k < |key| - 1 {
      AfterLastDot(key[..|key| - 1], k);
    }
  }

  /** Reading a dotted key never gives a key with a dot. */
  lemma {:induction false} SplitDotFree(key: string)
    ensures DotFreePath(Split(key))
  {
    if key != "" {
      var i := LastDot(key);
      forall k: nat | i < k < |key| ensures key[k] != '.' {
        AfterLastDot(key, k);
      }
      if i >= 0 {
        SplitDotFree(key[..i]);
      }
    }
  }

  /** A leading empty key leaves no trace. */
  lemma {:induction false} DottedSkips(path: Path)
    requires path != [] && path[0] == ""
    ensures Dotted(path) == Dotted(path[1..])
  {
    if |path| > 1 {
      DottedSkips(path[..|path| - 1]);
      assert path[..|path| - 1][1..] == path[1..][..|path| - 2];
    }
  }

  lemma {:induction false} SplitShort(path: Path)
    requires DotFreePath(path)
    ensures |Split(Dotted(path))| <= |path|
  {
    if path != [] {
      var prefix, key := path[..|path| - 1], path[|path| - 1];
      SplitShort(prefix);
      if Dotted(prefix) == "" {
        LastDotAt("", key);
      } else {
        SplitJoin(Dotted(prefix), key);
      }
    }
  }

  /** A dotted key is read back as its path exactly when the path is legible. */
  lemma ReadBackExact(path: Path)
    ensures Split(Dotted(path)) == path <==> Legible(path)
  {
    if Legible(path) {
      SplitDotted(path);
    } else if Split(Dotted(path)) == path {
      SplitDotFree(Dotted(path));
      DottedSkips(path);
      SplitShort(path[1..]);
    }
  }

  // ----- replaying recorded overrides

  function Replay(t: Json, overrides: seq<Override>): Option<Json>
    decreases |overrides|
  {
    if overrides == [] then Some(t)
    else
      var first := SetPath(t, Split(overrides[0].key), overrides[0].newValue);
      if first.None? then None else Replay(first.value, overrides[1..])
  }

  /** No key at any depth contains a dot. */
  predicate DotFree(v: Json) {
    v.Object? ==> forall k :: k in v.fields ==> '.' !in k && DotFree(v.fields[k])
  }

  /** No key contains a dot, and no top-level key is empty. */
  predicate CleanKeys(v: Json) {
    DotFree(v) && (v.Object? ==> "" !in v.fields)
  }

  lemma {:induction false} LookupDotFree(v: Json, path: Path)
    requires DotFree(v) && Lookup(v, path) != Null
    ensures DotFreePath(path) && (path != [] ==> v.Object? && path[0] in v.fields)
    decreases path
  {
    if path != [] {
      if !v.Object? || path[0] !in v.fields {
        SilentAbsent(Null, path[1..]);
      } else {
        LookupDotFree(v.fields[path[0]], path[1..]);
        assert path == [path[0]] + path[1..];
      }
    }
  }

  lemma {:induction false} ReplayIsApply(t: Json, edits: seq<Edit>)
    requires forall i :: 0 <= i < |edits| ==> Legible(edits[i].path)
    ensures Replay(t, Recorded([], edits)) == ApplyAll(t, edits)
    decreases |edits|
  {
    if edits != [] {
      SplitDotted(edits[0].path);
      RecordedHead(edits);
      var first := SetPath(t, edits[0].path, edits[0].value);
      if first.Some? {
        ReplayIsApply(first.value, edits[1..]);
      }
    }
  }

  lemma RecordedHead(edits: seq<Edit>)
    requires edits != []
    ensures Recorded([], edits)[0].key == Dotted(edits[0].path) && Recorded([], edits)[0].newValue == edits[0].value
    ensures Recorded([], edits)[1..] == Recorded([], edits[1..])
  {
    assert [] + edits[0].path == edits[0].path;
  }

  /** The overrides recorded between two trees turn the first into the second, nulls aside. */
  lemma RecordedReplays(before: Json, after: Json, edits: seq<Edit>, r: Json)
    requires Transforms(before, after, edits) && Real(before, after, edits)
    requires CleanKeys(before) && CleanKeys(after) && Same(r, before)
    ensures Replay(r, Recorded([], edits)).Some? && Same(Replay(r, Recorded([], edits)).value, after)
  {
    forall i | 0 <= i < |edits| ensures Legible(edits[i].path) {
      assert RealEdit(before, after, edits[i]);
      LookupDotFree(if edits[i].previous != Null then before else after, edits[i].path);
    }
    ReplayIsApply(r, edits);
    assert ApplyAll(r, edits).Some?;
  }

  // ----- loading

  datatype File = Missing | Broken | Parsed(value: Json)
  datatype Assignment = Assignment(path: Path, value: Json)

  /** The merged tree and the layers: the defaults, one layer for each file, and the environment. */
  datatype Loaded = Loaded(tree: Json, layers: seq<seq<Override>>) | Unreadable | NotAnObject

  function MergeFiles(base: Json, files: seq<File>): Json {
    if files == [] then base
    else
      var before, last := MergeFiles(base, files[..|files| - 1]), files[|files| - 1];
      if last.Parsed? then Merge(before, last.value) else before
  }

  /** Environment assignments one after the other; an empty path is ignored. */
  function Assign(t: Json, env: seq<Assignment>): Option<Json> {
    if env == [] then Some(t)
    else
      var before, last := Assign(t, env[..|env| - 1]), env[|env| - 1];
      if before.None? || last.path == [] then before else SetPath(before.value, last.path, last.value)
  }

  function ReplayLayers(t: Json, layers: seq<seq<Override>>): Option<Json> {
    if layers == [] then Some(t)
    else
      var before := ReplayLayers(t, layers[..|layers| - 1]);
      if before.None? then None else Replay(before.value, layers[|layers| - 1])
  }

  ghost predicate CleanSources(defaults: Json, files: seq<File>, env: seq<Assignment>) {
    && CleanKeys(defaults)
    && (forall i :: 0 <= i < |files| && files[i].Parsed? ==> CleanKeys(files[i].value))
    && (forall i :: 0 <= i < |env| ==> Legible(env[i].path) && DotFree(env[i].value))
  }

  lemma {:induction false} MergeDotFree(base: Json, patch: Json)
    requires DotFree(base) && DotFree(patch)
    ensures DotFree(Merge(base, patch))
    decreases patch
  {
    if base.Object? && patch.Object? {
      forall k | k in patch.fields && k in base.fields ensures DotFree(Merge(base.fields[k], patch.fields[k])) {
        MergeDotFree(base.fields[k], patch.fields[k]);
      }
    }
  }

  lemma {:induction false} SetPathDotFree(t: Json, path: Path, value: Json)
    requires DotFree(t) && DotFreePath(path) && DotFree(value) && SetPath(t, path, value).Some?
    ensures DotFree(SetPath(t, path, value).value)
    decreases path
  {
    if path != [] {
      SetPathDotFree(if path[0] in t.fields then t.fields[path[0]] else Object(map[]), path[1..], value);
    }
  }

  /** Replaying the layers recorded so far gives the tree so far, nulls aside. */
  ghost predicate Reproduces(defaults: Json, layers: seq<seq<Override>>, tree: Json) {
    ReplayLayers(defaults, layers).Some? && Same(ReplayLayers(defaults, layers).value, tree) && CleanKeys(tree)
  }

  lemma ReproducesMore(defaults: Json, layers: seq<seq<Override>>, before: Json, after: Json, edits: seq<Edit>)
    requires Reproduces(defaults, layers, before) && CleanKeys(after)
    requires Transforms(before, after, edits) && Real(before, after, edits)
    ensures Reproduces(defaults, layers + [Recorded([], edits)], after)
  {
    var all := layers + [Recorded([], edits)];
    assert all[..|all| - 1] == layers;
    RecordedReplays(before, after, edits, ReplayLayers(defaults, layers).value);
  }

  // ----- precedence

  /** The file speaks about the path. */
  ghost predicate FileSpeaks(file: File, path: Path) {
    file.Parsed? && Speaks(file.value, path)
  }

  /** The path is that of the assignment, or above or below it. */
  ghost predicate Touches(a: Assignment, path: Path) {
    a.path != [] && (a.path <= path || path <= a.path)
  }

  /** File `i` is the last to speak about the path. */
  ghost predicate LastToSpeak(files: seq<File>, i: int, path: Path) {
    0 <= i < |files| && FileSpeaks(files[i], path) && forall j :: i < j < |files| ==> !FileSpeaks(files[j], path)
  }

  /** Assignment `i` is the last to touch the path, and is to the path itself. */
  ghost predicate LastToAssign(env: seq<Assignment>, i: int, path: Path) {
    0 <= i < |env| && env[i].path == path != [] && forall j :: i < j < |env| ==> !Touches(env[j], path)
  }

  /**
    * Later sources win. Where the environment is silent, a path has the value of the last file that speaks about it, if
    * that is no object, and the default if none does; a path the environment assigns has the value assigned last.
    */
  ghost predicate Precedence(defaults: Json, files: seq<File>, env: seq<Assignment>, tree: Json, path: Path) {
    && (!tree.Object? || (forall j :: 0 <= j < |env| ==> !Touches(env[j], path)) ==> FilesSay(defaults, files, tree, path))
    && (tree.Object? ==> forall i :: LastToAssign(env, i, path) ==> Lookup(tree, path) == env[i].value)
  }

  ghost predicate FilesSay(defaults: Json, files: seq<File>, tree: Json, path: Path) {
    && (forall i :: LastToSpeak(files, i, path) && !Lookup(files[i].value, path).Object? ==>
                      Lookup(tree, path) == Lookup(files[i].value, path))
    && ((forall j :: 0 <= j < |files| ==> !FileSpeaks(files[j], path)) ==> Lookup(tree, path) == Lookup(defaults, path))
  }

  /** What one more file does to a path. */
  lemma FileStep(defaults: Json, files: seq<File>, path: Path)
    requires files != []
    ensures var before, last := MergeFiles(defaults, files[..|files| - 1]), files[|files| - 1];
            && (!FileSpeaks(last, path) ==> Lookup(MergeFiles(defaults, files), path) == Lookup(before, path))
            && (FileSpeaks(last, path) && !Lookup(last.value, path).Object? ==>
                  Lookup(MergeFiles(defaults, files), path) == Lookup(last.value, path))
  {
    if files[|files| - 1].Parsed? {
      MergeAt(MergeFiles(defaults, files[..|files| - 1]), files[|files| - 1].value, path);
    }
  }

  lemma {:induction false} LastFileDecides(defaults: Json, files: seq<File>, path: Path, i: nat)
    requires LastToSpeak(files, i, path) && !Lookup(files[i].value, path).Object?
    ensures Lookup(MergeFiles(defaults, files), path) == Lookup(files[i].value, path)
    decreases |files|
  {
    var m := |files| - 1;
    FileStep(defaults, files, path);
    if i < m {
      assert !FileSpeaks(files[m], path);
      StillLast(files, i, path);
      LastFileDecides(defaults, files[..m], path, i);
    }
  }

  lemma StillLast(files: seq<File>, i: nat, path: Path)
    requires LastToSpeak(files, i, path) && i < |files| - 1
    ensures LastToSpeak(files[..|files| - 1], i, path)
  {
    var before := files[..|files| - 1];
    forall j | i < j < |before| ensures !FileSpeaks(before[j], path) {
      assert before[j] == files[j];
    }
  }

  lemma {:induction false} NoFileDecides(defaults: Json, files: seq<File>, path: Path)
    requires forall j :: 0 <= j < |files| ==> !FileSpeaks(files[j], path)
    ensures Lookup(MergeFiles(defaults, files), path) == Lookup(defaults, path)
  {
    if files != [] {
      var m := |files| - 1;
      FileStep(defaults, files, path);
      assert !FileSpeaks(files[m], path);
      forall j | 0 <= j < m ensures !FileSpeaks(files[..m][j], path) {
        assert files[..m][j] == files[j];
      }
      NoFileDecides(defaults, files[..m], path);
    }
  }

  lemma FilesDecide(defaults: Json, files: seq<File>, path: Path)
    ensures FilesSay(defaults, files, MergeFiles(defaults, files), path)
  {
    forall i | LastToSpeak(files, i, path) && !Lookup(files[i].value, path).Object?
      ensures Lookup(MergeFiles(defaults, files), path) == Lookup(files[i].value, path)
    {
      LastFileDecides(defaults, files, path, i);
    }
    if forall j :: 0 <= j < |files| ==> !FileSpeaks(files[j], path) {
      NoFileDecides(defaults, files, path);
    }
  }

  lemma {:induction false} EnvDecides(t: Json, env: seq<Assignment>, path: Path)
    requires Assign(t, env).Some?
    ensures (forall j :: 0 <= j < |env| ==> !Touches(env[j], path)) ==> Lookup(Assign(t, env).value, path) == Lookup(t, path)
    ensures forall i :: LastToAssign(env, i, path) ==> Lookup(Assign(t, env).value, path) == env[i].value
    ensures t.Object? ==> Assign(t, env).value.Object?
  {
    if env != [] {
      var before, m := env[..|env| - 1], |env| - 1;
      EnvDecides(t, before, path);
      if env[m].path != [] {
        SetPathAt(Assign(t, before).value, env[m].path, env[m].value, path);
      }
      forall i | LastToAssign(env, i, path) && i < m ensures LastToAssign(before, i, path) && !Touches(env[m], path) {
      }
      assert forall j :: 0 <= j < m ==> before[j] == env[j];
    }
  }

  lemma FilesThenEnv(defaults: Json, files: seq<File>, env: seq<Assignment>, path: Path)
    requires MergeFiles(defaults, files).Object? && Assign(MergeFiles(defaults, files), env).Some?
    ensures Precedence(defaults, files, env, Assign(MergeFiles(defaults, files), env).value, path)
  {
    FilesDecide(defaults, files, path);
    EnvDecides(MergeFiles(defaults, files), env, path);
  }

  /** Applies the environment to an object; None when an intermediate value is not an object. */
  method ApplyEnv(root: Json, env: seq<Assignment>, ghost clean: bool) returns (r: Option<Json>)
    requires clean ==> CleanKeys(root) && forall i :: 0 <= i < |env| ==> Legible(env[i].path) && DotFree(env[i].value)
    ensures r == Assign(root, env)
    ensures r.Some? && clean ==> CleanKeys(r.value)
  {
    var t := root;
    for i := 0 to |env|
      invariant Assign(root, env[..i]) == Some(t)
      invariant clean ==> CleanKeys(t)
    {
      assert env[..i + 1][..i] == env[..i];
      if env[i].path != [] {
        var next := SetPath(t, env[i].path, env[i].value);
        if next.None? {
          AssignStuck(root, env, i + 1);
          return None;
        }
        if clean {
          SetPathDotFree(t, env[i].path, env[i].value);
        }
        t := next.value;
      }
    }
    assert env[..|env|] == env;
    r := Some(t);
  }

  lemma {:induction false} AssignStuck(t: Json, env: seq<Assignment>, n: nat)
    requires n <= |env| && Assign(t, env[..n]).None?
    ensures Assign(t, env).None?
    decreases |env|
  {
    if n < |env| {
      assert env[..|env| - 1][..n] == env[..n];
      AssignStuck(t, env[..|env| - 1], n);
    } else {
      assert env[..n] == env;
    }
  }

  /**
    * Builds the tree and its layers. When every key is clean, replaying the recorded overrides of the layers
    * in order on the defaults gives the tree, nulls aside.
    */
  method LoadLayers(defaults: Json, files: seq<File>, env: seq<Assignment>) returns (r: Loaded)
    ensures r.Unreadable? <==> exists i :: 0 <= i < |files| && files[i].Broken?
    ensures r.NotAnObject? <==> !r.Unreadable? && MergeFiles(defaults, files).Object? && Assign(MergeFiles(defaults, files), env).None?
    ensures r.Loaded? ==>
              var merged := MergeFiles(defaults, files);
              r.tree == (if merged.Object? then Assign(merged, env).value else merged)
    ensures r.Loaded? ==> |r.layers| == |files| + 2 && r.layers[0] == []
    ensures r.Loaded? && CleanSources(defaults, files, env) ==> Reproduces(defaults, r.layers, r.tree)
    ensures r.Loaded? ==> forall path: Path :: Precedence(defaults, files, env, r.tree, path)
  {
    ghost var clean := CleanSources(defaults, files, env);
    var base := defaults;
    var layers: seq<seq<Override>> := [[]];
    assert layers[..0] == [];
    for i := 0 to |files|
      invariant forall j :: 0 <= j < i ==> !files[j].Broken?
      invariant base == MergeFiles(defaults, files[..i])
      invariant |layers| == i + 1 && layers[0] == []
      invariant clean ==> Reproduces(defaults, layers, base)
    {
      assert files[..i + 1][..i] == files[..i];
      match files[i]
      case Broken =>
        return Unreadable;
      case Missing =>
        if clean {
          NothingChanged(base);
          ReproducesMore(defaults, layers, base, base, []);
        }
        layers := layers + [[]];
      case Parsed(value) =>
        var before := base;
        base := MergeValue(base, value);
        var overrides := DiffValues([], before, base, []);
        ghost var edits :| overrides[0..] == Recorded([], edits) && Explains(before, base, edits);
        assert overrides == Recorded([], edits);
        if clean {
          MergeDotFree(before, value);
          ReproducesMore(defaults, layers, before, base, edits);
        }
        layers := layers + [overrides];
    }
    assert files[..|files|] == files;
    forall path: Path ensures base.Object? && Assign(base, env).Some? ==> Precedence(defaults, files, env, Assign(base, env).value, path) {
      if base.Object? && Assign(base, env).Some? {
        FilesThenEnv(defaults, files, env, path);
      }
    }
    forall path: Path ensures !base.Object? ==> Precedence(defaults, files, env, base, path) {
      FilesDecide(defaults, files, path);
    }
    if base.Object? {
      var after := ApplyEnv(base, env, clean);
      if after.None? {
        return NotAnObject;
      }
      var overrides := DiffValues([], base, after.value, []);
      ghost var edits :| overrides[0..] == Recorded([], edits) && Explains(base, after.value, edits);
      assert overrides == Recorded([], edits);
      if clean {
        ReproducesMore(defaults, layers, base, after.value, edits);
      }
      r := Loaded(after.value, layers + [overrides]);
    } else {
      if clean {
        NothingChanged(base);
        ReproducesMore(defaults, layers, base, base, []);
      }
      r := Loaded(base, layers + [[]]);
    }
  }

  lemma NothingChanged(t: Json)
    ensures Transforms(t, t, []) && Real(t, t, []) && Recorded([], []) == []
  {
  }
}
