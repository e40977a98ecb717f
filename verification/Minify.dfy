/** Fitting a tool's schema into the display budget (src/surface/minify.rs, and the staged
    degradation of `details_text` in src/surface.rs).

    A schema node is an object. Only some of its keys hold child schemas; every other key is
    the node's own keyword. Lengths are in bytes of UTF-8, as in the program. */
module Minify {
  import opened Json
  import opened Text

  const ENUM_CAP: nat := 24
  const DESCRIPTION_CAP: nat := 120
  const DETAIL_CAP: nat := 20_000

  // ----- byte lengths and cutting on a character boundary -----

  function CharBytes(c: char): (n: nat)
    ensures 1 <= n <= 4
  {
    if c as int < 0x80 then 1 else if c as int < 0x800 then 2 else if c as int < 0x1_0000 then 3 else 4
  }

  function Bytes(s: string): (n: nat)
    ensures n <= 4 * |s|
  {
    if s == [] then 0 else CharBytes(s[0]) + Bytes(s[1..])
  }

  lemma {:induction false} BytesOfConcat(a: string, b: string)
    ensures Bytes(a + b) == Bytes(a) + Bytes(b)
  {
    if a == [] {
      assert a + b == b;
    } else {
      assert (a + b)[1..] == a[1..] + b;
      BytesOfConcat(a[1..], b);
    }
  }

  /** What is left of `s` after a cut at the last character boundary not beyond byte `max`. */
  function Cut(s: string, max: nat): (r: string)
    ensures r <= s && Bytes(r) <= max
  {
    if s == [] || CharBytes(s[0]) > max then []
    else
      var rest := Cut(s[1..], max - CharBytes(s[0]));
      assert ([s[0]] + rest)[1..] == rest;
      [s[0]] + rest
  }

  /** The cut is as late as it can be: exactly the prefixes up to it fit. */
  lemma {:induction false} CutIsLongest(s: string, max: nat, n: nat)
    requires n <= |s|
    ensures Bytes(s[..n]) <= max <==> n <= |Cut(s, max)|
  {
    if n > 0 {
      assert s[..n][1..] == s[1..][..n - 1];
      if CharBytes(s[0]) <= max {
        CutIsLongest(s[1..], max - CharBytes(s[0]), n - 1);
      }
    }
  }

  const ELLIPSIS: string := "\U{2026}"

  function Truncated(s: string, max: nat): string {
    if Bytes(s) > max then Cut(s, max) + ELLIPSIS else s
  }

  function BudgetTruncated(s: string, max: nat, suffix: string): string {
    if Bytes(s) <= max then s
    else Cut(s, if Bytes(suffix) <= max then max - Bytes(suffix) else 0) + suffix
  }

  /** The label stays inside the budget, for any text, exactly when it fits there alone. */
  lemma BudgetTruncatedFitsIff(s: string, max: nat, suffix: string)
    ensures Bytes(BudgetTruncated(s, max, suffix)) <= max <==> Bytes(s) <= max || Bytes(suffix) <= max
    ensures Bytes(s) > max ==> suffix <= BudgetTruncated(s, max, suffix)[|BudgetTruncated(s, max, suffix)| - |suffix|..]
  {
    var room := if Bytes(suffix) <= max then max - Bytes(suffix) else 0;
    BytesOfConcat(Cut(s, room), suffix);
    if Bytes(s) > max {
      assert (Cut(s, room) + suffix)[|Cut(s, room)|..] == suffix;
    }
  }

  // ----- schema nodes -----

  /** What a key of a schema node holds: named child schemas, one child schema, a list of
      them, or none. */
  datatype Kind = Names | One | Many | Own

  function KindOf(key: string): Kind {
    match key
    case "properties" => Names
    case "patternProperties" => Names
    case "definitions" => Names
    case "$defs" => Names
    case "items" => One
    case "additionalProperties" => One
    case "not" => One
    case "anyOf" => Many
    case "oneOf" => Many
    case "allOf" => Many
    case "prefixItems" => Many
    case _ => Own
  }

  datatype Stage = Soft | Hard

  /** The keywords minifying may touch. */
  const PROSE: set<string> := {"example", "examples", "description", "title", "format", "enum", "enum_truncated"}

  /** A node's own keywords, cut down: examples gone and long prose and enums shortened, or
      prose and enums gone altogether. */
  function Trim(stage: Stage, fields: map<string, Value>): (kept: map<string, Value>)
    ensures forall key :: KindOf(key) != Own || key !in PROSE ==>
      (key in kept <==> key in fields) && (key in kept ==> kept[key] == fields[key])
  {
    match stage
    case Soft =>
      var bare := fields - {"example", "examples"};
      var short :=
        if "description" in bare && bare["description"].String?
        then bare["description" := String(Truncated(bare["description"].s, DESCRIPTION_CAP))] else bare;
      if "enum" in short && short["enum"].Array? && |short["enum"].items| > ENUM_CAP
      then
        var more := |short["enum"].items| - ENUM_CAP;
        short["enum" := Array(short["enum"].items[..ENUM_CAP])]
             ["enum_truncated" := String("+" + Decimal(more) + " more values (see the API's own docs)")]
      else short
    case Hard =>
      var bare := fields - {"description", "title", "format", "enum_truncated"};
      if "enum" in bare then (bare - {"enum"})["enum_truncated" := String("elided")] else bare
  }

  /** `minify_schema` at stage `Soft`, `minify_schema_hard` at stage `Hard`. */
  function Minified(stage: Stage, v: Value): (r: Value)
    ensures r.Object? == v.Object? && (!v.Object? ==> r == v)
    decreases v, 0
  {
    if !v.Object? then v
    else
      var kept := Trim(stage, v.fields);
      Object(map key | key in kept :: if KindOf(key) == Own then kept[key] else MinifiedUnder(stage, KindOf(key), kept[key]))
  }

  /** The child schemas under one key. Names given by users are never looked at. */
  function MinifiedUnder(stage: Stage, kind: Kind, held: Value): Value
    decreases held, 1
  {
    match kind
    case Names => if held.Object? then Object(map name | name in held.fields :: Minified(stage, held.fields[name])) else held
    case One => if held.Object? || held.Array? then Minified(stage, held) else held
    case Many => if held.Array? then Array(seq(|held.items|, i requires 0 <= i < |held.items| => Minified(stage, held.items[i]))) else held
    case Own => held
  }

  /** `prune_below_depth`. */
  function Pruned(v: Value, depth: nat): (r: Value)
    ensures r.Object? == v.Object? && (!v.Object? ==> r == v)
    decreases v, 0
  {
    if !v.Object? then v
    else
      var elided := depth == 0 && Get(v, "properties").Some? && v.fields["properties"].Object?;
      var kept := map key | key in v.fields && !(elided && key == "properties") :: PrunedUnder(key, v.fields[key], depth);
      Object(if elided then kept["nested_fields_elided" := Number(Decimal(|v.fields["properties"].fields|))] else kept)
  }

  function PrunedUnder(key: string, held: Value, depth: nat): Value
    decreases held, 1
  {
    match key
    case "properties" =>
      if held.Object? && depth > 0
      then Object(map name | name in held.fields :: Pruned(held.fields[name], depth - 1)) else held
    case "items" => Pruned(held, depth)
    case "anyOf" => PrunedEach(held, depth)
    case "oneOf" => PrunedEach(held, depth)
    case "allOf" => PrunedEach(held, depth)
    case _ => held
  }

  function PrunedEach(held: Value, depth: nat): Value
    decreases held, 0
  {
    if held.Array? then Array(seq(|held.items|, i requires 0 <= i < |held.items| => Pruned(held.items[i], depth))) else held
  }

  // ----- the same, changing one working copy step by step -----

  const CHILD_KEYS: seq<string> := [
    "properties", "patternProperties", "definitions", "$defs",
    "items", "additionalProperties", "not",
    "anyOf", "oneOf", "allOf", "prefixItems"]

  lemma ChildKeysAreAll(key: string)
    ensures key in CHILD_KEYS <==> KindOf(key) != Own
  {}

  method TrimNode(stage: Stage, fields: map<string, Value>) returns (node: map<string, Value>)
    ensures node == Trim(stage, fields)
  {
    node := fields;
    if stage == Soft {
      node := node - {"example"};
      node := node - {"examples"};
      if "description" in node && node["description"].String? {
        node := node["description" := String(Truncated(node["description"].s, DESCRIPTION_CAP))];
      }
      if "enum" in node && node["enum"].Array? && |node["enum"].items| > ENUM_CAP {
        var more := |node["enum"].items| - ENUM_CAP;
        node := node["enum" := Array(node["enum"].items[..ENUM_CAP])];
        node := node["enum_truncated" := String("+" + Decimal(more) + " more values (see the API's own docs)")];
      }
      assert fields - {"example"} - {"examples"} == fields - {"example", "examples"};
    } else {
      node := node - {"description"};
      node := node - {"title"};
      node := node - {"format"};
      node := node - {"enum_truncated"};
      assert node == fields - {"description", "title", "format", "enum_truncated"};
      if "enum" in node {
        node := node - {"enum"};
        node := node["enum_truncated" := String("elided")];
      }
    }
  }

  lemma ChildKeysDiffer(i: nat, j: nat)
    requires i < j < |CHILD_KEYS|
    ensures CHILD_KEYS[i] != CHILD_KEYS[j]
  {
    if i < 4 <= j { assert KindOf(CHILD_KEYS[i]) == Names != KindOf(CHILD_KEYS[j]); }
  }

  /** The node when the first `n` of those keys have been gone through. */
  ghost predicate DoneUpTo(stage: Stage, kept: map<string, Value>, node: map<string, Value>, n: nat)
    requires n <= |CHILD_KEYS|
  {
    && node.Keys == kept.Keys
    && forall key :: key in kept ==>
         node[key] == if key in CHILD_KEYS[..n] then MinifiedUnder(stage, KindOf(key), kept[key]) else kept[key]
  }

  lemma NextKeyDone(stage: Stage, kept: map<string, Value>, node: map<string, Value>, n: nat, held: Value)
    requires n < |CHILD_KEYS| && DoneUpTo(stage, kept, node, n)
    requires CHILD_KEYS[n] in node ==> held == MinifiedUnder(stage, KindOf(CHILD_KEYS[n]), node[CHILD_KEYS[n]])
    ensures CHILD_KEYS[n] in node ==> node[CHILD_KEYS[n]] == kept[CHILD_KEYS[n]]
    ensures DoneUpTo(stage, kept, if CHILD_KEYS[n] in node then node[CHILD_KEYS[n] := held] else node, n + 1)
  {
    forall j | 0 <= j < n ensures CHILD_KEYS[j] != CHILD_KEYS[n] { ChildKeysDiffer(j, n); }
    var keys := CHILD_KEYS;
    hide *;
    assert keys[..n + 1] == keys[..n] + [keys[n]];
  }

  lemma AllKeysDone(stage: Stage, kept: map<string, Value>, node: map<string, Value>)
    requires DoneUpTo(stage, kept, node, |CHILD_KEYS|)
    ensures node.Keys == kept.Keys
    ensures forall key :: key in kept ==>
      node[key] == if KindOf(key) == Own then kept[key] else MinifiedUnder(stage, KindOf(key), kept[key])
  {
    assert CHILD_KEYS[..|CHILD_KEYS|] == CHILD_KEYS;
    forall key ensures key in CHILD_KEYS <==> KindOf(key) != Own { ChildKeysAreAll(key); }
    hide KindOf, MinifiedUnder;
  }

  lemma NodeDone(stage: Stage, v: Value, node: map<string, Value>)
    requires v.Object? && DoneUpTo(stage, Trim(stage, v.fields), node, |CHILD_KEYS|)
    ensures Object(node) == Minified(stage, v)
  {
    hide Trim, KindOf, MinifiedUnder, DoneUpTo;
    AllKeysDone(stage, Trim(stage, v.fields), node);
    assert node == Minified(stage, v).fields;
  }

  method MinifySchema(stage: Stage, v: Value) returns (r: Value)
    ensures r == Minified(stage, v)
    decreases v, 0
  {
    if !v.Object? { return v; }
    var kept := TrimNode(stage, v.fields);
    var node := kept;
    assert DoneUpTo(stage, kept, node, 0);
    for i := 0 to |CHILD_KEYS|
      invariant DoneUpTo(stage, kept, node, i)
    {
      var key := CHILD_KEYS[i];
      ChildKeysAreAll(key);
      NextKeyDone(stage, kept, node, i, if key in node then MinifiedUnder(stage, KindOf(key), node[key]) else Null);
      hide *;
      if key in node {
        var held := MinifyChildren(stage, KindOf(key), node[key]);
        node := node[key := held];
      }
    }
    hide *;
    NodeDone(stage, v, node);
    r := Object(node);
  }

  /** The child schemas under one key, each replaced where it stands. */
  method MinifyChildren(stage: Stage, kind: Kind, held: Value) returns (r: Value)
    ensures r == MinifiedUnder(stage, kind, held)
    decreases held, 2
  {
    hide Minified;
    r := held;
    match kind
    case Names => if held.Object? { r := MinifyNamed(stage, held); }
    case One => if held.Object? || held.Array? { r := MinifySchema(stage, held); }
    case Many => if held.Array? { r := MinifyListed(stage, held); }
    case Own =>
  }

  lemma AllNamesDone(stage: Stage, held: Value, children: map<string, Value>)
    requires held.Object? && children.Keys == held.fields.Keys
    requires forall name :: name in children ==> children[name] == Minified(stage, held.fields[name])
    ensures Object(children) == MinifiedUnder(stage, Names, held)
  {
    hide Minified;
    assert children == MinifiedUnder(stage, Names, held).fields;
  }

  method MinifyNamed(stage: Stage, held: Value) returns (r: Value)
    requires held.Object?
    ensures r == MinifiedUnder(stage, Names, held)
    decreases held, 1
  {
    hide *;
    var names, children := SortedKeys(held.fields.Keys), held.fields;
    for i := 0 to |names|
      invariant children.Keys == held.fields.Keys
      invariant forall name :: name in children ==>
        children[name] == if name in names[..i] then Minified(stage, held.fields[name]) else held.fields[name]
    {
      assert names[i] in names && names[..i + 1] == names[..i] + [names[i]];
      var child := MinifySchema(stage, held.fields[names[i]]);
      children := children[names[i] := child];
    }
    assert names[..|names|] == names;
    AllNamesDone(stage, held, children);
    r := Object(children);
  }

  method MinifyListed(stage: Stage, held: Value) returns (r: Value)
    requires held.Array?
    ensures r == MinifiedUnder(stage, Many, held)
    decreases held, 1
  {
    hide Minified;
    var children := held.items;
    for i := 0 to |children|
      invariant |children| == |held.items|
      invariant forall j :: 0 <= j < |children| ==>
        children[j] == if j < i then Minified(stage, held.items[j]) else held.items[j]
    {
      hide *;
      var child := MinifySchema(stage, children[i]);
      children := children[i := child];
    }
    r := Array(children);
    assert children == MinifiedUnder(stage, Many, held).items;
  }

  /** A node being pruned, when the keys in `done` have been gone through. */
  ghost predicate PrunedUpTo(v: Value, depth: nat, node: map<string, Value>, done: set<string>)
    requires v.Object?
  {
    && (forall key :: key in node <==> key in Pruned(v, depth).fields)
    && (forall key :: key in node && (key == "nested_fields_elided" ==> !Elides(v, depth)) ==>
         key in v.fields && node[key] == (if key in done then PrunedUnder(key, v.fields[key], depth) else v.fields[key]))
    && (Elides(v, depth) ==>
         "nested_fields_elided" in node && node["nested_fields_elided"] == Number(Decimal(|PropertyNames(v)|)))
  }

  lemma NextKeyPruned(v: Value, depth: nat, node: map<string, Value>, done: set<string>, key: string)
    requires v.Object? && PrunedUpTo(v, depth, node, done) && key !in done && key != "nested_fields_elided"
    ensures key in node ==>
      && key in v.fields && node[key] == v.fields[key] && v.fields[key] < v
      && PrunedUpTo(v, depth, node[key := PrunedUnder(key, node[key], depth)], done + {key})
    ensures key !in node ==> PrunedUpTo(v, depth, node, done + {key})
  {
    hide Pruned, PrunedUnder;
  }

  lemma AllKeysPruned(v: Value, depth: nat, node: map<string, Value>, done: set<string>)
    requires v.Object? && PrunedUpTo(v, depth, node, done)
    requires done == {"properties", "items", "anyOf", "oneOf", "allOf"}
    ensures Object(node) == Pruned(v, depth)
  {
    CountOfPruned(v, depth);
    forall key ensures Get(Object(node), key) == Get(Pruned(v, depth), key) {
      if key != "nested_fields_elided" { GetOfPruned(v, depth, key); }
      hide Pruned;
    }
    hide PrunedUpTo, Pruned;
    SameObject(Object(node), Pruned(v, depth));
  }

  lemma UnderTransparent(held: Value, depth: nat)
    ensures PrunedUnder("items", held, depth) == Pruned(held, depth)
    ensures forall key :: key in WRAPPERS ==> PrunedUnder(key, held, depth) == PrunedEach(held, depth)
    ensures !held.Array? ==> PrunedEach(held, depth) == held
  {
    hide Pruned;
  }

  const WRAPPERS: seq<string> := ["anyOf", "oneOf", "allOf"]

  /** `prune_below_depth`, with the depth spent once for each level of named fields. */
  method PruneBelowDepth(v: Value, depth: nat) returns (r: Value)
    ensures r == Pruned(v, depth)
    decreases v, 1
  {
    hide *;
    if !v.Object? { PrunedOther(v, depth); return v; }
    var node := PruneProperties(v, depth);
    NextKeyPruned(v, depth, node, {"properties"}, "items");
    if "items" in node {
      UnderTransparent(node["items"], depth);
      var held := PruneBelowDepth(node["items"], depth);
      node := node["items" := held];
    }
    node := PruneWrappers(v, depth, node, {"properties"} + {"items"});
    assert {"properties"} + {"items"} + {"anyOf", "oneOf", "allOf"} == {"properties", "items", "anyOf", "oneOf", "allOf"};
    AllKeysPruned(v, depth, node, {"properties"} + {"items"} + {"anyOf", "oneOf", "allOf"});
    r := Object(node);
  }

  lemma PrunedOther(v: Value, depth: nat)
    requires !v.Object?
    ensures Pruned(v, depth) == v
  {}

  method PruneWrappers(v: Value, depth: nat, before: map<string, Value>, ghost done: set<string>) returns (node: map<string, Value>)
    requires v.Object? && PrunedUpTo(v, depth, before, done) && done == {"properties", "items"}
    ensures PrunedUpTo(v, depth, node, done + {"anyOf", "oneOf", "allOf"})
    decreases v, 0
  {
    hide Pruned, PrunedUpTo, PrunedUnder, PrunedEach;
    node := before;
    ghost var gone: set<string> := {};
    assert done + gone == done;
    for i := 0 to |WRAPPERS|
      invariant gone == set j | 0 <= j < i :: WRAPPERS[j]
      invariant PrunedUpTo(v, depth, node, done + gone)
    {
      var key := WRAPPERS[i];
      assert key !in done + gone && key != "nested_fields_elided";
      NextKeyPruned(v, depth, node, done + gone, key);
      assert done + gone + {key} == done + (gone + {key});
      if key in node {
        UnderTransparent(node[key], depth);
        if node[key].Array? {
          var held := PruneListed(node[key], depth);
          node := node[key := held];
        } else {
          assert node[key := node[key]] == node;
        }
      }
      gone := gone + {key};
    }
    assert gone == {"anyOf", "oneOf", "allOf"} by {
      assert WRAPPERS[0] in gone && WRAPPERS[1] in gone && WRAPPERS[2] in gone;
    }
  }

  lemma PropertiesElided(v: Value)
    requires HasProperties(v)
    ensures var count := Number(Decimal(|v.fields["properties"].fields|));
      PrunedUpTo(v, 0, (v.fields - {"properties"})["nested_fields_elided" := count], {"properties"})
  {
    hide PrunedUnder, Decimal;
  }

  lemma PropertiesPruned(v: Value, depth: nat, held: Value)
    requires HasProperties(v) && depth > 0 && held == PrunedUnder("properties", v.fields["properties"], depth)
    ensures PrunedUpTo(v, depth, v.fields["properties" := held], {"properties"})
  {
    hide PrunedUnder;
  }

  lemma NoProperties(v: Value, depth: nat)
    requires v.Object? && !HasProperties(v)
    ensures PrunedUpTo(v, depth, v.fields, {"properties"})
  {
    assert forall held: Value :: !held.Object? ==> PrunedUnder("properties", held, depth) == held;
    hide PrunedUnder;
  }

  method PruneProperties(v: Value, depth: nat) returns (node: map<string, Value>)
    requires v.Object?
    ensures PrunedUpTo(v, depth, node, {"properties"})
    decreases v, 0
  {
    hide Pruned, PrunedUnder, PrunedUpTo;
    node := v.fields;
    if "properties" in node && node["properties"].Object? {
      if depth == 0 {
        PropertiesElided(v);
        var n := |node["properties"].fields|;
        node := node - {"properties"};
        node := node["nested_fields_elided" := Number(Decimal(n))];
      } else {
        var held := PruneNamed(node["properties"], depth - 1);
        PropertiesPruned(v, depth, held);
        node := node["properties" := held];
      }
    } else {
      NoProperties(v, depth);
    }
  }

  lemma AllNamesPruned(held: Value, depth: nat, children: map<string, Value>)
    requires held.Object? && children.Keys == held.fields.Keys
    requires forall name :: name in children ==> children[name] == Pruned(held.fields[name], depth)
    ensures Object(children) == PrunedUnder("properties", held, depth + 1)
  {
    hide Pruned;
    assert children == PrunedUnder("properties", held, depth + 1).fields;
  }

  method PruneNamed(held: Value, depth: nat) returns (r: Value)
    requires held.Object?
    ensures r == PrunedUnder("properties", held, depth + 1)
    decreases held, 1
  {
    hide *;
    var names, children := SortedKeys(held.fields.Keys), held.fields;
    for i := 0 to |names|
      invariant children.Keys == held.fields.Keys
      invariant forall name :: name in children ==>
        children[name] == if name in names[..i] then Pruned(held.fields[name], depth) else held.fields[name]
    {
      assert names[i] in names && names[..i + 1] == names[..i] + [names[i]];
      var child := PruneBelowDepth(held.fields[names[i]], depth);
      children := children[names[i] := child];
    }
    assert names[..|names|] == names;
    AllNamesPruned(held, depth, children);
    r := Object(children);
  }

  method PruneListed(held: Value, depth: nat) returns (r: Value)
    requires held.Array?
    ensures r == PrunedEach(held, depth)
    decreases held, 1
  {
    hide Pruned;
    var children := held.items;
    for i := 0 to |children|
      invariant |children| == |held.items|
      invariant forall j :: 0 <= j < |children| ==>
        children[j] == if j < i then Pruned(held.items[j], depth) else held.items[j]
    {
      var child := PruneBelowDepth(children[i], depth);
      children := children[i := child];
    }
    r := Array(children);
    assert children == PrunedEach(held, depth).items;
  }

  // ----- walking a schema -----

  /** One step from a schema node to a child schema. */
  datatype Place = Named(key: string, name: string) | Held(key: string) | Nth(key: string, i: nat)

  function Child(v: Value, at: Place): Option<Value> {
    match Get(v, at.key)
    case None => None
    case Some(held) => Under(KindOf(at.key), held, at)
  }

  function Under(kind: Kind, held: Value, at: Place): Option<Value> {
    match at
    case Named(_, name) => if kind == Names then Get(held, name) else None
    case Held(_) => if kind == One && (held.Object? || held.Array?) then Some(held) else None
    case Nth(_, i) => if kind == Many && held.Array? && i < |held.items| then Some(held.items[i]) else None
  }

  /** The schema at the end of a path, if the path leads anywhere. */
  function Reach(v: Value, path: seq<Place>): Option<Value> {
    if path == [] then Some(v)
    else match Child(v, path[0])
      case None => None
      case Some(w) => Reach(w, path[1..])
  }

  // ----- minifying loses no field -----

  lemma ProseHoldsNoChild(key: string)
    requires KindOf(key) != Own
    ensures key !in PROSE
  {}

  lemma GetOfMinified(stage: Stage, v: Value, key: string)
    requires key !in PROSE
    ensures Get(Minified(stage, v), key) == match Get(v, key)
      case None => None
      case Some(held) => Some(MinifiedUnder(stage, KindOf(key), held))
  {
    hide Trim, KindOf;
  }

  lemma UnderMinified(stage: Stage, kind: Kind, held: Value, at: Place)
    ensures Under(kind, MinifiedUnder(stage, kind, held), at) == match Under(kind, held, at)
      case None => None
      case Some(w) => Some(Minified(stage, w))
  {
    hide Minified;
  }

  lemma ChildOfMinified(stage: Stage, v: Value, at: Place)
    ensures Child(Minified(stage, v), at) == match Child(v, at) case None => None case Some(w) => Some(Minified(stage, w))
  {
    hide Minified, MinifiedUnder, KindOf;
    if KindOf(at.key) != Own {
      ProseHoldsNoChild(at.key);
      GetOfMinified(stage, v, at.key);
      if Get(v, at.key).Some? {
        UnderMinified(stage, KindOf(at.key), Get(v, at.key).value, at);
      }
    } else {
      hide Get;
    }
  }

  /** The minified schema has a schema wherever the original has one and nowhere else, and what
      it has there is the minified form of that. In particular every property name survives at
      every level, whatever the field is called. */
  lemma {:induction false} MinifiedReachesTheSame(stage: Stage, v: Value, path: seq<Place>)
    ensures Reach(Minified(stage, v), path) == match Reach(v, path) case None => None case Some(w) => Some(Minified(stage, w))
    decreases |path|
  {
    hide Minified, Child;
    if path != [] {
      ChildOfMinified(stage, v, path[0]);
      match Child(v, path[0])
      case None =>
      case Some(w) => MinifiedReachesTheSame(stage, w, path[1..]);
    }
  }

  function PropertyNames(v: Value): set<string> {
    match Get(v, "properties")
    case Some(Object(fields)) => fields.Keys
    case _ => {}
  }

  ghost predicate HasProperties(v: Value) {
    Get(v, "properties").Some? && Get(v, "properties").value.Object?
  }

  /** The same property names, and the same keywords other than prose. */
  ghost predicate SameStructure(a: Value, b: Value) {
    && HasProperties(a) == HasProperties(b) && PropertyNames(a) == PropertyNames(b)
    && forall key :: KindOf(key) == Own && key !in PROSE ==> Get(a, key) == Get(b, key)
  }

  lemma NodeKeepsStructure(stage: Stage, v: Value)
    ensures SameStructure(v, Minified(stage, v))
  {
    hide Minified;
    forall key | KindOf(key) == Own && key !in PROSE ensures Get(Minified(stage, v), key) == Get(v, key) {
      hide KindOf;
      GetOfMinified(stage, v, key);
    }
    GetOfMinified(stage, v, "properties");
  }

  /** A description over its cap is shown as a beginning of it and the mark of a cut. */
  ghost predicate IsShort(was: Option<Value>, got: Option<Value>) {
    match was
    case Some(String(d)) =>
      && got.Some? && got.value.String?
      && Bytes(got.value.s) <= DESCRIPTION_CAP + 3
      && (if Bytes(d) <= DESCRIPTION_CAP then got == was else exists n :: 0 <= n <= |d| && got.value.s == d[..n] + ELLIPSIS)
    case _ => got == was
  }

  /** An enum over its cap is shown as its first values, and the node says how many are not. */
  ghost predicate IsCapped(was: Option<Value>, got: Option<Value>, mark: Option<Value>) {
    match was
    case Some(Array(all)) =>
      && got.Some? && got.value.Array?
      && got.value.items <= all && |got.value.items| <= ENUM_CAP
      && (|all| <= ENUM_CAP ==> got == was)
      && (|all| > ENUM_CAP ==> mark.Some? && mark.value.String? && "+" + Decimal(|all| - |got.value.items|) <= mark.value.s)
    case _ => got == was
  }

  lemma OwnOfMinified(stage: Stage, v: Value, key: string)
    requires v.Object? && KindOf(key) == Own
    ensures Get(Minified(stage, v), key) == Get(Object(Trim(stage, v.fields)), key)
  {
    hide Trim, KindOf, MinifiedUnder;
  }

  lemma SoftTrimCutsDescription(fields: map<string, Value>)
    ensures var was, got := Object(fields), Object(Trim(Soft, fields));
      IsShort(Get(was, "description"), Get(got, "description"))
  {
    hide Decimal, Bytes, KindOf;
    match Get(Object(fields), "description")
    case Some(String(d)) =>
      BytesOfConcat(Cut(d, DESCRIPTION_CAP), ELLIPSIS);
      assert Bytes(ELLIPSIS) == 3 by { EllipsisBytes(); }
      assert d[..|Cut(d, DESCRIPTION_CAP)|] == Cut(d, DESCRIPTION_CAP);
    case _ =>
  }

  lemma SoftTrimCutsEnum(fields: map<string, Value>)
    ensures var was, got := Object(fields), Object(Trim(Soft, fields));
      && Get(got, "example") == Get(got, "examples") == None
      && IsCapped(Get(was, "enum"), Get(got, "enum"), Get(got, "enum_truncated"))
  {
    hide Decimal, Truncated, KindOf;
  }

  lemma EllipsisBytes()
    ensures Bytes(ELLIPSIS) == 3
  {
    assert ELLIPSIS[1..] == "";
  }

  lemma SoftNode(v: Value)
    requires v.Object?
    ensures var got := Minified(Soft, v);
      && Get(got, "example") == Get(got, "examples") == None
      && IsShort(Get(v, "description"), Get(got, "description"))
      && IsCapped(Get(v, "enum"), Get(got, "enum"), Get(got, "enum_truncated"))
  {
    OwnOfMinified(Soft, v, "example");
    OwnOfMinified(Soft, v, "examples");
    OwnOfMinified(Soft, v, "description");
    OwnOfMinified(Soft, v, "enum");
    OwnOfMinified(Soft, v, "enum_truncated");
    SoftTrimCutsDescription(v.fields);
    SoftTrimCutsEnum(v.fields);
    hide *;
    assert Object(v.fields) == v;
  }

  lemma HardNode(v: Value)
    requires v.Object?
    ensures var got := Minified(Hard, v);
      && Get(got, "description") == Get(got, "title") == Get(got, "format") == Get(got, "enum") == None
      && (Get(got, "enum_truncated").Some? <==> Get(v, "enum").Some?)
  {
    OwnOfMinified(Hard, v, "description");
    OwnOfMinified(Hard, v, "title");
    OwnOfMinified(Hard, v, "format");
    OwnOfMinified(Hard, v, "enum");
    OwnOfMinified(Hard, v, "enum_truncated");
    hide Minified, KindOf;
  }

  /** So it is at every node: the soft stage leaves no example and caps what it keeps, and the
      hard stage leaves no prose and no enum, marking exactly the nodes that had an enum. */
  lemma ProseIsCut(v: Value, path: seq<Place>)
    requires Reach(v, path).Some? && Reach(v, path).value.Object?
    ensures var was, soft := Reach(v, path).value, Reach(Minified(Soft, v), path);
      && soft.Some? && Get(soft.value, "example") == Get(soft.value, "examples") == None
      && IsShort(Get(was, "description"), Get(soft.value, "description"))
      && IsCapped(Get(was, "enum"), Get(soft.value, "enum"), Get(soft.value, "enum_truncated"))
    ensures var was, hard := Reach(v, path).value, Reach(Minified(Hard, v), path);
      && hard.Some?
      && Get(hard.value, "description") == Get(hard.value, "title") == Get(hard.value, "format") == Get(hard.value, "enum") == None
      && (Get(hard.value, "enum_truncated").Some? <==> Get(was, "enum").Some?)
  {
    hide Minified, Reach, Get, IsShort, IsCapped;
    MinifiedReachesTheSame(Soft, v, path);
    MinifiedReachesTheSame(Hard, v, path);
    SoftNode(Reach(v, path).value);
    HardNode(Reach(v, path).value);
  }

  // ----- pruning -----

  /** What pruning at a depth does at the end of a path: prune there at what depth is left,
      leave the place alone, or take it away with the properties above it. */
  datatype Fate = AtDepth(depth: nat) | Untouched | Gone

  function FateAlong(depth: nat, path: seq<Place>): Fate {
    if path == [] then AtDepth(depth)
    else if path[0].key == "properties" then (if depth == 0 then Gone else FateAlong(depth - 1, path[1..]))
    else if path[0].key in {"items", "anyOf", "oneOf", "allOf"} then FateAlong(depth, path[1..])
    else Untouched
  }

  /** Pruning touches a key only by what it does under it, save for the properties it takes
      away and the count it leaves for them. */
  lemma GetOfPruned(v: Value, depth: nat, key: string)
    requires key != "nested_fields_elided"
    ensures Get(Pruned(v, depth), key) == match Get(v, key)
      case None => None
      case Some(held) => if key == "properties" && depth == 0 && held.Object? then None else Some(PrunedUnder(key, held, depth))
  {
    hide PrunedUnder;
  }

  lemma UnderPruned(held: Value, depth: nat, at: Place)
    requires at.key == "properties" ==> depth > 0 || !held.Object?
    ensures Under(KindOf(at.key), PrunedUnder(at.key, held, depth), at) == match Under(KindOf(at.key), held, at)
      case None => None
      case Some(w) => Some(match FateAlong(depth, [at]) case AtDepth(left) => Pruned(w, left) case _ => w)
  {
    hide Pruned;
  }

  lemma ChildOfPruned(v: Value, depth: nat, at: Place)
    ensures Child(Pruned(v, depth), at) == match Child(v, at)
      case None => None
      case Some(w) => match FateAlong(depth, [at])
        case AtDepth(left) => Some(Pruned(w, left))
        case Untouched => Some(w)
        case Gone => None
  {
    hide Pruned, PrunedUnder;
    if at.key == "nested_fields_elided" {
      assert KindOf(at.key) == Own;
    } else {
      assert KindOf("properties") == Names;
      hide KindOf;
      GetOfPruned(v, depth, at.key);
      match Get(v, at.key)
      case None =>
      case Some(held) =>
        if at.key != "properties" || depth > 0 || !held.Object? {
          UnderPruned(held, depth, at);
        }
    }
  }

  /** Pruning reaches exactly the depth it names: a path through at most `depth` levels of
      named fields leads to the same place, pruned at the depth left there; a deeper one leads
      nowhere; and a place behind any other key is left as it was. */
  lemma {:induction false} PrunedReach(v: Value, depth: nat, path: seq<Place>)
    ensures Reach(Pruned(v, depth), path) == match Reach(v, path)
      case None => None
      case Some(w) => match FateAlong(depth, path)
        case AtDepth(left) => Some(Pruned(w, left))
        case Untouched => Some(w)
        case Gone => None
    decreases |path|
  {
    hide Pruned, Child;
    if path != [] {
      ChildOfPruned(v, depth, path[0]);
      match Child(v, path[0])
      case None =>
      case Some(w) =>
        match FateAlong(depth, [path[0]])
        case AtDepth(left) => PrunedReach(w, left, path[1..]);
        case Untouched =>
        case Gone =>
    }
  }

  lemma SameObject(a: Value, b: Value)
    requires a.Object? && b.Object? && forall key :: Get(a, key) == Get(b, key)
    ensures a == b
  {
    forall key ensures key in a.fields <==> key in b.fields { assert Get(a, key) == Get(b, key); }
    forall key | key in a.fields ensures a.fields[key] == b.fields[key] { assert Get(a, key) == Get(b, key); }
    assert a.fields == b.fields;
  }

  ghost predicate Elides(v: Value, depth: nat) {
    depth == 0 && HasProperties(v)
  }

  lemma CountOfPruned(v: Value, depth: nat)
    ensures Get(Pruned(v, depth), "nested_fields_elided") ==
      if Elides(v, depth) then Some(Number(Decimal(|PropertyNames(v)|))) else Get(v, "nested_fields_elided")
  {
    hide PrunedEach;
  }

  /** Pruning a pruned schema less deep is pruning the original less deep. */
  lemma {:induction false} PruneComposes(v: Value, depth: nat, less: nat)
    requires less <= depth
    ensures Pruned(Pruned(v, depth), less) == Pruned(v, less)
    decreases v, 1
  {
    if v.Object? {
      forall key ensures Get(Pruned(Pruned(v, depth), less), key) == Get(Pruned(v, less), key) {
        if key == "nested_fields_elided" {
          CountComposes(v, depth, less);
        } else {
          KeyComposes(v, depth, less, key);
        }
      }
      SameObject(Pruned(Pruned(v, depth), less), Pruned(v, less));
    }
  }

  lemma CountComposes(v: Value, depth: nat, less: nat)
    requires less <= depth
    ensures Get(Pruned(Pruned(v, depth), less), "nested_fields_elided") == Get(Pruned(v, less), "nested_fields_elided")
  {
    CountOfPruned(v, depth);
    CountOfPruned(v, less);
    CountOfPruned(Pruned(v, depth), less);
    GetOfPruned(v, depth, "properties");
    if depth > 0 && Elides(v, less) {
      hide Pruned;
      var before, after := Get(v, "properties").value, Get(Pruned(v, depth), "properties").value;
      assert after == PrunedUnder("properties", before, depth);
      assert after.fields.Keys == before.fields.Keys;
    }
  }

  lemma {:induction false} KeyComposes(v: Value, depth: nat, less: nat, key: string)
    requires less <= depth && key != "nested_fields_elided" && v.Object?
    ensures Get(Pruned(Pruned(v, depth), less), key) == Get(Pruned(v, less), key)
    decreases v, 0
  {
    GetOfPruned(v, depth, key);
    GetOfPruned(v, less, key);
    GetOfPruned(Pruned(v, depth), less, key);
    if Get(v, key).Some? {
      var held := Get(v, key).value;
      if key == "properties" && less == 0 {
        hide Pruned;
      } else {
        UnderComposes(key, held, depth, less);
        hide Pruned, PrunedUnder;
      }
    }
  }

  lemma {:induction false} UnderComposes(key: string, held: Value, depth: nat, less: nat)
    requires less <= depth && (key == "properties" ==> less > 0)
    ensures PrunedUnder(key, PrunedUnder(key, held, depth), less) == PrunedUnder(key, held, less)
    decreases held, 2
  {
    hide Pruned;
    if key == "properties" {
      if held.Object? {
        forall name | name in held.fields
          ensures Pruned(Pruned(held.fields[name], depth - 1), less - 1) == Pruned(held.fields[name], less - 1)
        {
          PruneComposes(held.fields[name], depth - 1, less - 1);
        }
      }
    } else if key == "items" {
      PruneComposes(held, depth, less);
    } else if held.Array? {
      forall i | 0 <= i < |held.items| ensures Pruned(Pruned(held.items[i], depth), less) == Pruned(held.items[i], less) {
        PruneComposes(held.items[i], depth, less);
      }
    }
  }

  ghost predicate SameOtherKeywords(a: Value, b: Value) {
    forall key :: KindOf(key) == Own && key !in PROSE && key != "nested_fields_elided" ==> Get(a, key) == Get(b, key)
  }

  lemma PrunedNodeKeeps(v: Value, depth: nat)
    ensures !Elides(v, depth) ==> SameStructure(v, Pruned(v, depth))
    ensures Elides(v, depth) ==> Get(Pruned(v, depth), "properties") == None && SameOtherKeywords(v, Pruned(v, depth))
    ensures Elides(v, depth) ==> Get(Pruned(v, depth), "nested_fields_elided") == Some(Number(Decimal(|PropertyNames(v)|)))
  {
    CountOfPruned(v, depth);
    GetOfPruned(v, depth, "properties");
    forall key | KindOf(key) == Own && key != "nested_fields_elided" ensures Get(Pruned(v, depth), key) == Get(v, key) {
      OwnOfPruned(v, depth, key);
    }
    hide Pruned;
  }

  lemma OwnOfPruned(v: Value, depth: nat, key: string)
    requires KindOf(key) == Own && key != "nested_fields_elided"
    ensures Get(Pruned(v, depth), key) == Get(v, key)
  {
    GetOfPruned(v, depth, key);
    hide Pruned;
  }

  /** A schema that keeps its nesting behind a key pruning does not follow is not pruned at
      all, however deep it is and at every depth. */
  lemma BehindOtherKeysNothingIsPruned(deep: Value, depth: nat)
    ensures var v := Object(map["additionalProperties" := deep]); Pruned(v, depth) == v
  {
    var v := Object(map["additionalProperties" := deep]);
    assert PrunedUnder("additionalProperties", deep, depth) == deep;
    hide PrunedUnder;
    assert Pruned(v, depth).fields == v.fields;
  }

  // ----- the details of a tool -----

  const SOFT_NOTE: string := "true \U{2014} examples/long prose dropped and huge enums capped to fit the display budget; " +
    "EVERY field name and type is listed."
  const HARD_NOTE: string := "hard \U{2014} all field docs and enums elided to fit the display budget; " +
    "EVERY field name, type, and required flag is listed. Use the field names as-is; consult the API's docs for value formats."
  const DEPTH_NOTE: string := "hard+depth \U{2014} nested objects beyond a depth were elided " +
    "(see nested_fields_elided counts); every shallower field name is listed."
  const CUT_LABEL: string := "\n\U{2026}TRUNCATED \U{2014} even the depth-pruned schema exceeds the budget; unlisted fields still exist."

  /** Renders a schema in the tool's envelope, with a note, pretty or compact. */
  type Renderer = (Value, Option<string>, bool) -> string

  datatype Attempt = Attempt(schema: Value, note: Option<string>, pretty: bool) {
    function Text(render: Renderer): string { render(schema, note, pretty) }
  }

  function Stripped(schema: Value): Value {
    Minified(Hard, Minified(Soft, schema))
  }

  /** The ways to show a schema, each derived from the schema itself, fullest first. */
  function Attempts(schema: Value): seq<Attempt> {
    [ Attempt(schema, None, true),
      Attempt(Minified(Soft, schema), Some(SOFT_NOTE), true),
      Attempt(Stripped(schema), Some(HARD_NOTE), false),
      AtDepthOnly(schema, 5), AtDepthOnly(schema, 4), AtDepthOnly(schema, 3), AtDepthOnly(schema, 2) ]
  }

  function AtDepthOnly(schema: Value, depth: nat): Attempt {
    Attempt(Pruned(Stripped(schema), depth), Some(DEPTH_NOTE), false)
  }

  predicate Fits(a: Attempt, render: Renderer) {
    Bytes(a.Text(render)) <= DETAIL_CAP
  }

  /** The first attempt that fits; when none does, the depth-1 rendering cut to size. */
  function Details(schema: Value, render: Renderer, attempts: seq<Attempt>): string {
    if attempts == [] then BudgetTruncated(AtDepthOnly(schema, 1).Text(render), DETAIL_CAP, CUT_LABEL)
    else if Fits(attempts[0], render) then attempts[0].Text(render)
    else Details(schema, render, attempts[1..])
  }

  lemma {:induction false} DetailsFit(schema: Value, render: Renderer, attempts: seq<Attempt>)
    ensures Bytes(Details(schema, render, attempts)) <= DETAIL_CAP
  {
    if attempts == [] {
      BudgetTruncatedFitsIff(AtDepthOnly(schema, 1).Text(render), DETAIL_CAP, CUT_LABEL);
    } else {
      DetailsFit(schema, render, attempts[1..]);
    }
  }

  /** `details_text` for an upstream tool the caller may see. One copy of the schema is
      degraded stage by stage; the result is what degrading the schema itself would give, and
      never exceeds the budget. */
  method DetailsText(schema: Value, render: Renderer) returns (out: string)
    ensures out == Details(schema, render, Attempts(schema))
    ensures Bytes(out) <= DETAIL_CAP
  {
    hide Minified, Pruned, Bytes, BudgetTruncated;
    ghost var all := Attempts(schema);
    DetailsFit(schema, render, all);
    out := render(schema, None, true);
    if Bytes(out) <= DETAIL_CAP { return; }
    assert Details(schema, render, all) == Details(schema, render, all[1..]);
    var working := MinifySchema(Soft, schema);
    out := render(working, Some(SOFT_NOTE), true);
    if Bytes(out) <= DETAIL_CAP { return; }
    assert Details(schema, render, all) == Details(schema, render, all[2..]);
    working := MinifySchema(Hard, working);
    out := render(working, Some(HARD_NOTE), false);
    if Bytes(out) <= DETAIL_CAP { return; }
    assert Details(schema, render, all) == Details(schema, render, all[3..]);
    var depth := 5;
    while depth >= 2
      invariant 1 <= depth <= 5
      invariant working == Stripped(schema) || working == Pruned(Stripped(schema), depth + 1)
      invariant Details(schema, render, all) == Details(schema, render, all[8 - depth..])
    {
      PruneComposes(Stripped(schema), depth + 1, depth);
      working := PruneBelowDepth(working, depth);
      out := render(working, Some(DEPTH_NOTE), false);
      assert all[8 - depth..][0] == AtDepthOnly(schema, depth);
      if Bytes(out) <= DETAIL_CAP { return; }
      assert all[8 - depth..][1..] == all[9 - depth..];
      depth := depth - 1;
    }
    PruneComposes(Stripped(schema), 2, 1);
    working := PruneBelowDepth(working, 1);
    out := BudgetTruncated(render(working, Some(DEPTH_NOTE), false), DETAIL_CAP, CUT_LABEL);
  }

  /** How a node `was` may look where pruning has left it with `fate`: its keywords other than
      prose and its property names are there, except that names just below the depth are only
      counted. */
  ghost predicate ShownAs(was: Value, got: Value, fate: Fate) {
    if fate == AtDepth(0) && HasProperties(was)
    then SameOtherKeywords(was, got) && Get(got, "properties") == None
      && Get(got, "nested_fields_elided") == Some(Number(Decimal(|PropertyNames(was)|)))
    else SameStructure(was, got)
  }

  lemma ShownAtDepth(was: Value, depth: nat)
    ensures SameStructure(was, Stripped(was))
    ensures ShownAs(was, Pruned(Stripped(was), depth), AtDepth(depth))
  {
    NodeKeepsStructure(Soft, was);
    NodeKeepsStructure(Hard, Minified(Soft, was));
    PrunedNodeKeeps(Stripped(was), depth);
    hide Minified, Pruned, KindOf, Get;
  }

  lemma StrippedReach(v: Value, path: seq<Place>)
    ensures Reach(Stripped(v), path) == match Reach(v, path) case None => None case Some(w) => Some(Stripped(w))
  {
    hide Minified, Reach;
    MinifiedReachesTheSame(Soft, v, path);
    MinifiedReachesTheSame(Hard, Minified(Soft, v), path);
  }

  /** What each note promises. Up to the hard stage the shown schema has exactly the original's
      nodes. At a depth it has those reached through at most that many levels of named fields,
      and those behind keys that pruning does not follow. */
  lemma NotesAreTrue(schema: Value, i: nat, path: seq<Place>)
    requires i < 7
    ensures var shown, fate := Attempts(schema)[i].schema, if i < 3 then Untouched else FateAlong(8 - i, path);
      && (Reach(shown, path).Some? <==> Reach(schema, path).Some? && fate != Gone)
      && (Reach(shown, path).Some? ==> ShownAs(Reach(schema, path).value, Reach(shown, path).value, fate))
  {
    hide Minified, Stripped, Reach, FateAlong, Pruned, KindOf, Get, PropertyNames;
    MinifiedReachesTheSame(Soft, schema, path);
    StrippedReach(schema, path);
    if Reach(schema, path).Some? {
      var was := Reach(schema, path).value;
      NodeKeepsStructure(Soft, was);
      ShownAtDepth(was, 0);
    }
    if i >= 3 {
      PrunedReach(Stripped(schema), 8 - i, path);
      if Reach(schema, path).Some? && FateAlong(8 - i, path).AtDepth? {
        ShownAtDepth(Reach(schema, path).value, FateAlong(8 - i, path).depth);
      }
    }
  }
}
