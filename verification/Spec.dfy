/** OpenAPI specs: inlining `$ref`s within a node budget (src/spec.rs).

    A pass is described three times over: what it returns (`Expanded`), what it costs
    (`Visits`) and whether the ref limit stopped it anywhere (`Cut`). The imperative
    `Expand` and `Resolve` are proved against those, and the promises of `resolve` are
    lemmas about them. */
module Spec {
  import opened Json
  import FreshNames
  import Text

  const MAX_REF_CHAIN: nat := 12
  const MAX_RESOLVED_NODES: nat := 10_000

  // ----- looking at one node -----

  /** The reference a node is, if it is an object whose `$ref` is a string. */
  function RefOf(node: Value): Option<string> {
    match Get(node, "$ref")
    case Some(String(r)) => Some(r)
    case _ => None
  }

  /** Walks object keys from `target`; nothing when a step is missing. */
  function Lookup(target: Value, parts: seq<string>): Option<Value>
    decreases |parts|
  {
    if parts == [] then Some(target)
    else match Get(target, parts[0])
      case Some(next) => Lookup(next, parts[1..])
      case None => None
  }

  predicate IsLocal(r: string) {
    |r| >= 2 && r[0] == '#' && r[1] == '/'
  }

  function Target(root: Value, r: string): Option<Value>
    requires IsLocal(r)
  {
    Lookup(root, Text.Split(r[2..], '/'))
  }

  /** What a pass does with a reference, in the order the program tests for it. */
  datatype Action = Circular | Foreign | TooDeep | Dangling | Follow(target: Value)

  function ActionFor(root: Value, r: string, depth: nat, seen: seq<string>, limit: nat): Action {
    if r in seen then Circular
    else if !IsLocal(r) then Foreign
    else if depth >= limit then TooDeep
    else match Target(root, r)
      case None => Dangling
      case Some(t) => Follow(t)
  }

  /** The node left in place of a reference the limit stopped. */
  function CutNode(node: Value, r: string, limit: nat): Value {
    if limit == MAX_REF_CHAIN then node else Object(map["$omitted" := String(r)])
  }

  // ----- one pass, as a function -----

  /** What a pass over something returns, how many nodes it visits, and whether the ref
      limit stopped it anywhere. */
  datatype Outcome<T> = Outcome(value: T, visits: nat, cut: bool)

  ghost function Pass(root: Value, node: Value, depth: nat, seen: seq<string>, limit: nat): Outcome<Value>
    requires depth <= limit
    decreases limit - depth, node, 1
  {
    match RefOf(node)
    case Some(r) =>
      (match ActionFor(root, r, depth, seen, limit)
       case Circular => Outcome(Object(map["$circular" := String(r)]), 1, false)
       case TooDeep => Outcome(CutNode(node, r, limit), 1, true)
       case Follow(target) =>
         var o := Pass(root, target, depth + 1, seen + [r], limit);
         o.(visits := o.visits + 1)
       case _ => Outcome(node, 1, false))
    case None =>
      match node
      case Object(fields) =>
        var o := PassFields(root, node, SortedKeys(fields.Keys), depth, seen, limit);
        Outcome(Object(o.value), o.visits + 1, o.cut)
      case Array(items) =>
        var o := PassItems(root, node, |items|, depth, seen, limit);
        Outcome(Array(o.value), o.visits + 1, o.cut)
      case _ => Outcome(node, 1, false)
  }

  ghost function PassFields(root: Value, node: Value, ks: seq<string>, depth: nat, seen: seq<string>, limit: nat):
      Outcome<map<string, Value>>
    requires depth <= limit && node.Object? && forall k :: k in ks ==> k in node.fields
    decreases limit - depth, node, 0, |ks|
  {
    if ks == [] then Outcome(map[], 0, false) else
      var n := |ks| - 1;
      assert ks[n] in ks && forall k :: k in ks[..n] ==> k in ks;
      var before := PassFields(root, node, ks[..n], depth, seen, limit);
      var o := Pass(root, node.fields[ks[n]], depth, seen, limit);
      Outcome(before.value[ks[n] := o.value], before.visits + o.visits, before.cut || o.cut)
  }

  ghost function PassItems(root: Value, node: Value, n: nat, depth: nat, seen: seq<string>, limit: nat):
      Outcome<seq<Value>>
    requires depth <= limit && node.Array? && n <= |node.items|
    decreases limit - depth, node, 0, n
  {
    if n == 0 then Outcome([], 0, false) else
      var before := PassItems(root, node, n - 1, depth, seen, limit);
      var o := Pass(root, node.items[n - 1], depth, seen, limit);
      Outcome(before.value + [o.value], before.visits + o.visits, before.cut || o.cut)
  }

  /** A part of the children never costs more than all of them. */
  lemma {:induction false} FieldsPrefix(root: Value, node: Value, ks: seq<string>, n: nat, depth: nat, seen: seq<string>, limit: nat)
    requires depth <= limit && node.Object? && (forall k :: k in ks ==> k in node.fields) && n <= |ks|
    ensures PassFields(root, node, ks[..n], depth, seen, limit).visits <= PassFields(root, node, ks, depth, seen, limit).visits
    decreases |ks|
  {
    if n == |ks| {
      assert ks[..n] == ks;
    } else {
      var last := |ks| - 1;
      assert ks[..last][..n] == ks[..n];
      FieldsPrefix(root, node, ks[..last], n, depth, seen, limit);
    }
  }

  lemma FieldsNone(root: Value, node: Value, depth: nat, seen: seq<string>, limit: nat)
    requires depth <= limit && node.Object?
    ensures PassFields(root, node, [], depth, seen, limit) == Outcome(map[], 0, false)
  {}

  /** One more key, one more child: its value, its visits and its cut join those before. */
  lemma FieldsStep(root: Value, node: Value, ks: seq<string>, n: nat, depth: nat, seen: seq<string>, limit: nat)
    requires depth <= limit && node.Object? && (forall k :: k in ks ==> k in node.fields) && n < |ks|
    ensures var before := PassFields(root, node, ks[..n], depth, seen, limit);
      var o := Pass(root, node.fields[ks[n]], depth, seen, limit);
      PassFields(root, node, ks[..n + 1], depth, seen, limit)
        == Outcome(before.value[ks[n] := o.value], before.visits + o.visits, before.cut || o.cut)
  {
    assert ks[..n + 1][..n] == ks[..n];
  }

  lemma {:induction false} ItemsPrefix(root: Value, node: Value, n: nat, m: nat, depth: nat, seen: seq<string>, limit: nat)
    requires depth <= limit && node.Array? && n <= m <= |node.items|
    ensures PassItems(root, node, n, depth, seen, limit).visits <= PassItems(root, node, m, depth, seen, limit).visits
    decreases m
  {
    if n < m {
      ItemsPrefix(root, node, n, m - 1, depth, seen, limit);
    }
  }

  // ----- one pass, as the program runs it -----

  class Expansion {
    const limit: nat
    var budget: nat
    var cut: bool

    constructor (limit: nat, budget: nat)
      ensures this.limit == limit && this.budget == budget && !cut
    {
      this.limit := limit;
      this.budget := budget;
      cut := false;
    }
  }

  /** How running part of a pass shows in its result and in the budget and flag it leaves:
      nothing comes back exactly when the budget is too small for it. */
  ghost predicate Ran<T(!new)>(r: Option<T>, o: Outcome<T>, budget: nat, cut: bool, pass: Expansion)
    reads pass
  {
    && (r.Some? <==> o.visits <= budget)
    && (r.Some? ==> r.value == o.value && pass.budget == budget - o.visits && pass.cut == (cut || o.cut))
  }

  /** One pass below `node`. `seen` is the path of references being expanded: no repeats,
      one for each level of `depth`. */
  method Expand(root: Value, node: Value, depth: nat, seen: seq<string>, pass: Expansion) returns (r: Option<Value>)
    requires depth <= pass.limit && |seen| == depth && Distinct(seen)
    modifies pass
    ensures Ran(r, Pass(root, node, depth, seen, pass.limit), old(pass.budget), old(pass.cut), pass)
    decreases pass.limit - depth, node
  {
    if pass.budget == 0 { return None; }
    pass.budget := pass.budget - 1;
    match RefOf(node) {
      case Some(ref) =>
        if ref in seen { return Some(Object(map["$circular" := String(ref)])); }
        if !IsLocal(ref) { return Some(node); }
        if depth >= pass.limit {
          pass.cut := true;
          return Some(CutNode(node, ref, pass.limit));
        }
        match Target(root, ref) {
          case None => return Some(node);
          case Some(target) =>
            r := Expand(root, target, depth + 1, seen + [ref], pass);
        }
      case None =>
        match node {
          case Object(fields) =>
            var out := ExpandFields(root, node, depth, seen, pass);
            r := if out.Some? then Some(Object(out.value)) else None;
          case Array(items) =>
            var out := ExpandItems(root, node, depth, seen, pass);
            r := if out.Some? then Some(Array(out.value)) else None;
          case _ => return Some(node);
        }
    }
  }

  /** The children of an object, in turn; nothing once one of them runs out of budget. */
  method ExpandFields(root: Value, node: Value, depth: nat, seen: seq<string>, pass: Expansion)
    returns (r: Option<map<string, Value>>)
    requires depth <= pass.limit && |seen| == depth && Distinct(seen) && node.Object?
    modifies pass
    ensures Ran(r, PassFields(root, node, SortedKeys(node.fields.Keys), depth, seen, pass.limit), old(pass.budget), old(pass.cut), pass)
    decreases pass.limit - depth, node, 0
  {
    hide Pass, PassFields;
    var fields, ks := node.fields, SortedKeys(node.fields.Keys);
    FieldsNone(root, node, depth, seen, pass.limit);
    assert ks[..0] == [];
    var out: map<string, Value> := map[];
    for i := 0 to |ks|
      invariant Ran(Some(out), PassFields(root, node, ks[..i], depth, seen, pass.limit), old(pass.budget), old(pass.cut), pass)
    {
      var k := ks[i];
      FieldsStep(root, node, ks, i, depth, seen, pass.limit);
      FieldsPrefix(root, node, ks, i + 1, depth, seen, pass.limit);
      var child := Expand(root, fields[k], depth, seen, pass);
      if child.None? { return None; }
      out := out[k := child.value];
    }
    assert ks[..|ks|] == ks;
    r := Some(out);
  }

  /** The elements of an array, in turn. */
  method ExpandItems(root: Value, node: Value, depth: nat, seen: seq<string>, pass: Expansion)
    returns (r: Option<seq<Value>>)
    requires depth <= pass.limit && |seen| == depth && Distinct(seen) && node.Array?
    modifies pass
    ensures Ran(r, PassItems(root, node, |node.items|, depth, seen, pass.limit), old(pass.budget), old(pass.cut), pass)
    decreases pass.limit - depth, node, 0
  {
    var items := node.items;
    var out: seq<Value> := [];
    for i := 0 to |items|
      invariant Ran(Some(out), PassItems(root, node, i, depth, seen, pass.limit), old(pass.budget), old(pass.cut), pass)
    {
      ItemsPrefix(root, node, i + 1, |items|, depth, seen, pass.limit);
      var child := Expand(root, items[i], depth, seen, pass);
      if child.None? { return None; }
      out := out + [child.value];
    }
    r := Some(out);
  }

  // ----- resolve: one level deeper at a time -----

  ghost function At(root: Value, node: Value, limit: nat): Outcome<Value> {
    Pass(root, node, 0, [], limit)
  }

  ghost predicate Fits(root: Value, node: Value, limit: nat) {
    At(root, node, limit).visits <= MAX_RESOLVED_NODES
  }

  /** The deepest limit the budget allows, up to `limit`. */
  ghost function DeepestFit(root: Value, node: Value, limit: nat): (l: nat)
    requires Fits(root, node, 0)
    ensures l <= limit && Fits(root, node, l)
    ensures forall l' :: l < l' <= limit ==> !Fits(root, node, l')
  {
    if Fits(root, node, limit) then limit else DeepestFit(root, node, limit - 1)
  }

  /** The deepest pass that fits, or the node itself when not even the pass that follows no
      reference does. */
  ghost function Resolved(root: Value, node: Value): Value {
    if Fits(root, node, 0) then At(root, node, DeepestFit(root, node, MAX_REF_CHAIN)).value else node
  }

  method Resolve(root: Value, node: Value) returns (r: Value)
    ensures r == Resolved(root, node)
  {
    var best: Option<Value> := None;
    var limit := 0;
    while limit <= MAX_REF_CHAIN
      invariant limit <= MAX_REF_CHAIN + 1
      invariant best == if limit == 0 then None else Some(At(root, node, limit - 1).value)
      invariant limit > 0 ==> Fits(root, node, limit - 1)
    {
      var pass := new Expansion(limit, MAX_RESOLVED_NODES);
      var value := Expand(root, node, 0, [], pass);
      if value.None? { break; }
      best := value;
      limit := limit + 1;
      if !pass.cut { break; }
    }
    Settled(root, node, limit);
    r := if best.Some? then best.value else node;
  }

  /** Why the loop may stop: the passes it skips either do not fit or would return the same. */
  lemma Settled(root: Value, node: Value, limit: nat)
    requires limit == 0 ==> !Fits(root, node, 0)
    requires limit > 0 ==> limit - 1 <= MAX_REF_CHAIN && Fits(root, node, limit - 1)
    requires limit > MAX_REF_CHAIN || !Fits(root, node, limit) || !At(root, node, limit - 1).cut
    ensures Resolved(root, node) == if limit == 0 then node else At(root, node, limit - 1).value
  {
    if limit > 0 {
      PassMonotone(root, node, 0, [], 0, limit - 1);
      var l := DeepestFit(root, node, MAX_REF_CHAIN);
      assert Fits(root, node, limit - 1);
      if l >= limit {
        PassMonotone(root, node, 0, [], limit, l);
        PassMonotone(root, node, 0, [], limit - 1, l);
      }
    }
  }

  /** Deepening only adds visits, and a pass the limit did not stop is already the result
      of every deeper one. */
  lemma {:induction false} PassMonotone(root: Value, node: Value, depth: nat, seen: seq<string>, l: nat, l': nat)
    requires depth <= l <= l'
    ensures var o, o' := Pass(root, node, depth, seen, l), Pass(root, node, depth, seen, l');
      o.visits <= o'.visits && (!o.cut ==> o == o')
    decreases l - depth, node, 1
  {
    match RefOf(node) {
      case Some(r) =>
        match ActionFor(root, r, depth, seen, l) {
          case Follow(target) => PassMonotone(root, target, depth + 1, seen + [r], l, l');
          case _ =>
        }
      case None =>
        match node {
          case Object(fields) => FieldsMonotone(root, node, SortedKeys(fields.Keys), depth, seen, l, l');
          case Array(items) => ItemsMonotone(root, node, |items|, depth, seen, l, l');
          case _ =>
        }
    }
  }

  lemma {:induction false} FieldsMonotone(root: Value, node: Value, ks: seq<string>, depth: nat, seen: seq<string>, l: nat, l': nat)
    requires depth <= l <= l' && node.Object? && forall k :: k in ks ==> k in node.fields
    ensures var o, o' := PassFields(root, node, ks, depth, seen, l), PassFields(root, node, ks, depth, seen, l');
      o.visits <= o'.visits && (!o.cut ==> o == o')
    decreases l - depth, node, 0, |ks|
  {
    if ks != [] {
      var n := |ks| - 1;
      assert ks[n] in ks && forall k :: k in ks[..n] ==> k in ks;
      FieldsMonotone(root, node, ks[..n], depth, seen, l, l');
      PassMonotone(root, node.fields[ks[n]], depth, seen, l, l');
    }
  }

  lemma {:induction false} ItemsMonotone(root: Value, node: Value, n: nat, depth: nat, seen: seq<string>, l: nat, l': nat)
    requires depth <= l <= l' && node.Array? && n <= |node.items|
    ensures var o, o' := PassItems(root, node, n, depth, seen, l), PassItems(root, node, n, depth, seen, l');
      o.visits <= o'.visits && (!o.cut ==> o == o')
    decreases l - depth, node, 0, n
  {
    if n > 0 {
      ItemsMonotone(root, node, n - 1, depth, seen, l, l');
      PassMonotone(root, node.items[n - 1], depth, seen, l, l');
    }
  }

  // ----- what resolve promises -----

  /** A schema that fits comes out whole: exactly what the longest allowed ref chain gives,
      and that is also the result of the first pass no limit stopped. */
  lemma FittingSchemaIsWhole(root: Value, node: Value, limit: nat)
    requires limit <= MAX_REF_CHAIN && Fits(root, node, limit)
    requires limit == MAX_REF_CHAIN || !At(root, node, limit).cut
    ensures Resolved(root, node) == At(root, node, MAX_REF_CHAIN).value == At(root, node, limit).value
  {
    PassMonotone(root, node, 0, [], 0, limit);
    PassMonotone(root, node, 0, [], limit, MAX_REF_CHAIN);
  }

  /** Each child of an object or array comes out as its own pass leaves it, under the same
      key or at the same position. */
  lemma {:induction false} FieldsShape(root: Value, node: Value, ks: seq<string>, depth: nat, seen: seq<string>, limit: nat)
    requires depth <= limit && node.Object? && forall k :: k in ks ==> k in node.fields
    ensures var o := PassFields(root, node, ks, depth, seen, limit);
      && (forall k :: k in o.value <==> k in ks)
      && (forall k :: k in ks ==> o.value[k] == Pass(root, node.fields[k], depth, seen, limit).value)
      && (o.cut <==> exists k :: k in ks && Pass(root, node.fields[k], depth, seen, limit).cut)
    decreases |ks|
  {
    if ks != [] {
      var n := |ks| - 1;
      assert ks == ks[..n] + [ks[n]];
      FieldsShape(root, node, ks[..n], depth, seen, limit);
    }
  }

  lemma {:induction false} ItemsShape(root: Value, node: Value, n: nat, depth: nat, seen: seq<string>, limit: nat)
    requires depth <= limit && node.Array? && n <= |node.items|
    ensures var o := PassItems(root, node, n, depth, seen, limit);
      && |o.value| == n
      && (forall i :: 0 <= i < n ==> o.value[i] == Pass(root, node.items[i], depth, seen, limit).value)
      && (o.cut <==> exists i :: 0 <= i < n && Pass(root, node.items[i], depth, seen, limit).cut)
    decreases n
  {
    hide Pass;
    if n > 0 { ItemsShape(root, node, n - 1, depth, seen, limit); }
  }

  /** Resolving never loses a top-level field, whatever the budget cuts. */
  lemma TopLevelFieldsSurvive(root: Value, node: Value)
    requires node.Object? && RefOf(node).None?
    ensures var r := Resolved(root, node); r.Object? && r.fields.Keys == node.fields.Keys
  {
    if Fits(root, node, 0) {
      var l := DeepestFit(root, node, MAX_REF_CHAIN);
      assert At(root, node, l).value == FieldsOut(root, node, 0, [], l);
    }
  }

  /** `key` names a field somewhere in `v`. */
  ghost predicate Mentions(v: Value, key: string) {
    match v
    case Object(fields) => key in fields || exists k :: k in fields && Mentions(fields[k], key)
    case Array(items) => exists i :: 0 <= i < |items| && Mentions(items[i], key)
    case _ => false
  }

  lemma {:induction false} TargetMentions(v: Value, parts: seq<string>, key: string)
    requires !Mentions(v, key) && Lookup(v, parts).Some?
    ensures !Mentions(Lookup(v, parts).value, key)
    decreases |parts|
  {
    if parts != [] { TargetMentions(v.fields[parts[0]], parts[1..], key); }
  }

  /** A pass writes `$omitted` exactly when a limit short of the longest chain stopped it. */
  lemma {:induction false} OmittedMarksTheCut(root: Value, node: Value, depth: nat, seen: seq<string>, limit: nat)
    requires depth <= limit && !Mentions(root, "$omitted") && !Mentions(node, "$omitted")
    ensures var o := Pass(root, node, depth, seen, limit);
      Mentions(o.value, "$omitted") <==> o.cut && limit != MAX_REF_CHAIN
    decreases limit - depth, node, 1
  {
    match RefOf(node) {
      case Some(r) =>
        match ActionFor(root, r, depth, seen, limit) {
          case Follow(target) =>
            TargetMentions(root, Text.Split(r[2..], '/'), "$omitted");
            OmittedMarksTheCut(root, target, depth + 1, seen + [r], limit);
          case _ =>
        }
      case None =>
        match node {
          case Object(fields) => OmittedInFields(root, node, depth, seen, limit);
          case Array(items) => OmittedInItems(root, node, depth, seen, limit);
          case _ =>
        }
    }
  }

  lemma {:induction false} OmittedInFields(root: Value, node: Value, depth: nat, seen: seq<string>, limit: nat)
    requires depth <= limit && !Mentions(root, "$omitted") && !Mentions(node, "$omitted") && node.Object?
    ensures var o := PassFields(root, node, SortedKeys(node.fields.Keys), depth, seen, limit);
      Mentions(Object(o.value), "$omitted") <==> o.cut && limit != MAX_REF_CHAIN
    decreases limit - depth, node, 0
  {
    hide Pass;
    FieldsShape(root, node, SortedKeys(node.fields.Keys), depth, seen, limit);
    forall k | k in node.fields
      ensures var o := Pass(root, node.fields[k], depth, seen, limit);
        Mentions(o.value, "$omitted") <==> o.cut && limit != MAX_REF_CHAIN
    {
      OmittedMarksTheCut(root, node.fields[k], depth, seen, limit);
    }
  }

  lemma {:induction false} OmittedInItems(root: Value, node: Value, depth: nat, seen: seq<string>, limit: nat)
    requires depth <= limit && !Mentions(root, "$omitted") && !Mentions(node, "$omitted") && node.Array?
    ensures var o := PassItems(root, node, |node.items|, depth, seen, limit);
      Mentions(Array(o.value), "$omitted") <==> o.cut && limit != MAX_REF_CHAIN
    decreases limit - depth, node, 0
  {
    hide Pass;
    ItemsShape(root, node, |node.items|, depth, seen, limit);
    forall i | 0 <= i < |node.items|
      ensures var o := Pass(root, node.items[i], depth, seen, limit);
        Mentions(o.value, "$omitted") <==> o.cut && limit != MAX_REF_CHAIN
    {
      OmittedMarksTheCut(root, node.items[i], depth, seen, limit);
    }
  }

  /** `$omitted` appears exactly when the budget, not the chain limit, made the cut: some
      pass fits but the one at the longest chain does not. */
  lemma OmittedIffBudgetCut(root: Value, node: Value)
    requires !Mentions(root, "$omitted") && !Mentions(node, "$omitted")
    ensures Mentions(Resolved(root, node), "$omitted") <==> Fits(root, node, 0) && !Fits(root, node, MAX_REF_CHAIN)
  {
    PassMonotone(root, node, 0, [], 0, MAX_REF_CHAIN);
    if Fits(root, node, 0) {
      var l := DeepestFit(root, node, MAX_REF_CHAIN);
      OmittedMarksTheCut(root, node, 0, [], l);
      PassMonotone(root, node, 0, [], l, MAX_REF_CHAIN);
    }
  }

  /** Every reference object holds nothing beside its `$ref`. */
  ghost predicate PlainRefs(v: Value) {
    && (RefOf(v).Some? ==> v.fields.Keys == {"$ref"})
    && match v
       case Object(fields) => forall k :: k in fields ==> PlainRefs(fields[k])
       case Array(items) => forall i :: 0 <= i < |items| ==> PlainRefs(items[i])
       case _ => true
  }

  lemma {:induction false} TargetPlain(v: Value, parts: seq<string>)
    requires PlainRefs(v) && Lookup(v, parts).Some?
    ensures PlainRefs(Lookup(v, parts).value)
    decreases |parts|
  {
    if parts != [] { TargetPlain(v.fields[parts[0]], parts[1..]); }
  }

  lemma OneFieldNodes(v: Value, k: string)
    requires v.Object? && v.fields.Keys == {k} && v.fields[k].String?
    ensures Nodes(v) == 2
  {
    var ks := SortedKeys(v.fields.Keys);
    assert ks[0] == k && ks[1..] == SortedKeys({k} - {k}) == [];
    assert ks == [k];
    assert NodesOfKeys(v, ks[..0]) == 0;
    assert NodesOfKeys(v, ks) == 1;
  }

  /** The output holds at most two nodes for each node visited. */
  lemma {:induction false} OutputBound(root: Value, node: Value, depth: nat, seen: seq<string>, limit: nat)
    requires depth <= limit && PlainRefs(root) && PlainRefs(node)
    ensures var o := Pass(root, node, depth, seen, limit); Nodes(o.value) <= 2 * o.visits
    decreases limit - depth, node, 2
  {
    if RefOf(node).Some? {
      RefBound(root, node, RefOf(node).value, depth, seen, limit);
    } else if node.Object? {
      var ks := SortedKeys(node.fields.Keys);
      FieldsBound(root, node, ks, depth, seen, limit, FieldsOut(root, node, depth, seen, limit));
    } else if node.Array? {
      ItemsBound(root, node, |node.items|, depth, seen, limit, ItemsOut(root, node, depth, seen, limit));
    }
  }

  ghost function FieldsOut(root: Value, node: Value, depth: nat, seen: seq<string>, limit: nat): (out: Value)
    requires depth <= limit && node.Object?
    ensures out.Object? && out.fields.Keys == node.fields.Keys
    ensures forall k :: k in node.fields ==> out.fields[k] == Pass(root, node.fields[k], depth, seen, limit).value
  {
    var ks := SortedKeys(node.fields.Keys);
    FieldsShape(root, node, ks, depth, seen, limit);
    Object(PassFields(root, node, ks, depth, seen, limit).value)
  }

  ghost function ItemsOut(root: Value, node: Value, depth: nat, seen: seq<string>, limit: nat): (out: Value)
    requires depth <= limit && node.Array?
    ensures out.Array? && |out.items| == |node.items|
    ensures forall i :: 0 <= i < |node.items| ==> out.items[i] == Pass(root, node.items[i], depth, seen, limit).value
  {
    ItemsShape(root, node, |node.items|, depth, seen, limit);
    Array(PassItems(root, node, |node.items|, depth, seen, limit).value)
  }

  lemma {:induction false} RefBound(root: Value, node: Value, r: string, depth: nat, seen: seq<string>, limit: nat)
    requires depth <= limit && PlainRefs(root) && PlainRefs(node) && RefOf(node) == Some(r)
    ensures var o := Pass(root, node, depth, seen, limit); Nodes(o.value) <= 2 * o.visits
    decreases limit - depth, node, 1
  {
    match ActionFor(root, r, depth, seen, limit)
    case Follow(target) =>
      TargetPlain(root, Text.Split(r[2..], '/'));
      OutputBound(root, target, depth + 1, seen + [r], limit);
    case Circular => OneFieldNodes(Object(map["$circular" := String(r)]), "$circular");
    case TooDeep =>
      OneFieldNodes(node, "$ref");
      OneFieldNodes(Object(map["$omitted" := String(r)]), "$omitted");
    case _ => OneFieldNodes(node, "$ref");
  }

  lemma {:induction false} FieldsBound(root: Value, node: Value, ks: seq<string>, depth: nat, seen: seq<string>, limit: nat, out: Value)
    requires depth <= limit && PlainRefs(root) && PlainRefs(node) && node.Object? && out.Object?
    requires forall k :: k in ks ==>
      (k in node.fields && k in out.fields && out.fields[k] == Pass(root, node.fields[k], depth, seen, limit).value)
    ensures NodesOfKeys(out, ks) <= 2 * PassFields(root, node, ks, depth, seen, limit).visits
    decreases limit - depth, node, 0, |ks|
  {
    if ks != [] {
      var n := |ks| - 1;
      assert ks[n] in ks && forall k :: k in ks[..n] ==> k in ks;
      FieldsBound(root, node, ks[..n], depth, seen, limit, out);
      OutputBound(root, node.fields[ks[n]], depth, seen, limit);
    }
  }

  lemma {:induction false} ItemsBound(root: Value, node: Value, n: nat, depth: nat, seen: seq<string>, limit: nat, out: Value)
    requires depth <= limit && PlainRefs(root) && PlainRefs(node)
    requires node.Array? && out.Array? && n <= |node.items| && n <= |out.items|
    requires forall i :: 0 <= i < n ==> out.items[i] == Pass(root, node.items[i], depth, seen, limit).value
    ensures NodesOfItems(out, n) <= 2 * PassItems(root, node, n, depth, seen, limit).visits
    decreases limit - depth, node, 0, n
  {
    if n > 0 {
      ItemsBound(root, node, n - 1, depth, seen, limit, out);
      OutputBound(root, node.items[n - 1], depth, seen, limit);
    }
  }

  // ----- the exact size of what comes out -----

  /** The size of a node before any reference is followed: a reference object counts once,
      whatever it holds. */
  ghost function Outline(node: Value): nat
    decreases node, 1
  {
    if RefOf(node).Some? then 1
    else match node
      case Object(fields) => 1 + OutlineOfKeys(node, SortedKeys(fields.Keys))
      case Array(items) => 1 + OutlineOfItems(node, |items|)
      case _ => 1
  }

  ghost function OutlineOfKeys(node: Value, ks: seq<string>): nat
    requires node.Object? && forall k :: k in ks ==> k in node.fields
    decreases node, 0, |ks|
  {
    if ks == [] then 0 else
      var n := |ks| - 1;
      assert ks[n] in ks && forall k :: k in ks[..n] ==> k in ks;
      OutlineOfKeys(node, ks[..n]) + Outline(node.fields[ks[n]])
  }

  ghost function OutlineOfItems(node: Value, n: nat): nat
    requires node.Array? && n <= |node.items|
    decreases node, 0, n
  {
    if n == 0 then 0 else OutlineOfItems(node, n - 1) + Outline(node.items[n - 1])
  }

  /** A pass that may follow nothing visits the outline, which is no larger than the node. */
  lemma {:induction false} VisitsOfOutline(root: Value, node: Value, depth: nat, seen: seq<string>)
    ensures Pass(root, node, depth, seen, depth).visits == Outline(node) <= Nodes(node)
    decreases node, 1
  {
    if RefOf(node).None? {
      if node.Object? {
        VisitsOfKeys(root, node, SortedKeys(node.fields.Keys), depth, seen);
      } else if node.Array? {
        VisitsOfItems(root, node, |node.items|, depth, seen);
      }
    }
  }

  lemma {:induction false} VisitsOfKeys(root: Value, node: Value, ks: seq<string>, depth: nat, seen: seq<string>)
    requires node.Object? && forall k :: k in ks ==> k in node.fields
    ensures PassFields(root, node, ks, depth, seen, depth).visits == OutlineOfKeys(node, ks) <= NodesOfKeys(node, ks)
    decreases node, 0, |ks|
  {
    if ks != [] {
      var n := |ks| - 1;
      assert ks[n] in ks && forall k :: k in ks[..n] ==> k in ks;
      VisitsOfKeys(root, node, ks[..n], depth, seen);
      VisitsOfOutline(root, node.fields[ks[n]], depth, seen);
    }
  }

  lemma {:induction false} VisitsOfItems(root: Value, node: Value, n: nat, depth: nat, seen: seq<string>)
    requires node.Array? && n <= |node.items|
    ensures PassItems(root, node, n, depth, seen, depth).visits == OutlineOfItems(node, n) <= NodesOfItems(node, n)
    decreases node, 0, n
  {
    if n > 0 {
      VisitsOfItems(root, node, n - 1, depth, seen);
      VisitsOfOutline(root, node.items[n - 1], depth, seen);
    }
  }

  /** What a pass does with references: `standing` counts the nodes inside the objects it
      leaves in their place (one each where references hold only `$ref`), `followed` the
      references it replaces by their targets. */
  datatype RefCount = RefCount(standing: nat, followed: nat)

  function Sum(a: RefCount, b: RefCount): RefCount {
    RefCount(a.standing + b.standing, a.followed + b.followed)
  }

  ghost function Refs(root: Value, node: Value, depth: nat, seen: seq<string>, limit: nat): RefCount
    requires depth <= limit
    decreases limit - depth, node, 1
  {
    match RefOf(node)
    case Some(r) =>
      (match ActionFor(root, r, depth, seen, limit)
       case Circular => RefCount(1, 0)
       case TooDeep => RefCount(Nodes(CutNode(node, r, limit)) - 1, 0)
       case Follow(target) => Sum(RefCount(0, 1), Refs(root, target, depth + 1, seen + [r], limit))
       case _ => RefCount(Nodes(node) - 1, 0))
    case None =>
      match node
      case Object(fields) => RefsOfKeys(root, node, SortedKeys(fields.Keys), depth, seen, limit)
      case Array(items) => RefsOfItems(root, node, |items|, depth, seen, limit)
      case _ => RefCount(0, 0)
  }

  ghost function RefsOfKeys(root: Value, node: Value, ks: seq<string>, depth: nat, seen: seq<string>, limit: nat): RefCount
    requires depth <= limit && node.Object? && forall k :: k in ks ==> k in node.fields
    decreases limit - depth, node, 0, |ks|
  {
    if ks == [] then RefCount(0, 0) else
      var n := |ks| - 1;
      assert ks[n] in ks && forall k :: k in ks[..n] ==> k in ks;
      Sum(RefsOfKeys(root, node, ks[..n], depth, seen, limit), Refs(root, node.fields[ks[n]], depth, seen, limit))
  }

  ghost function RefsOfItems(root: Value, node: Value, n: nat, depth: nat, seen: seq<string>, limit: nat): RefCount
    requires depth <= limit && node.Array? && n <= |node.items|
    decreases limit - depth, node, 0, n
  {
    if n == 0 then RefCount(0, 0)
    else Sum(RefsOfItems(root, node, n - 1, depth, seen, limit), Refs(root, node.items[n - 1], depth, seen, limit))
  }

  /** Visits, plus what the references left standing hold, less the references followed, is
      exactly how many nodes a pass returns, on any spec. */
  lemma {:induction false} ExactOutput(root: Value, node: Value, depth: nat, seen: seq<string>, limit: nat)
    requires depth <= limit
    ensures var o, c := Pass(root, node, depth, seen, limit), Refs(root, node, depth, seen, limit);
      Nodes(o.value) == o.visits + c.standing - c.followed
    decreases limit - depth, node, 2
  {
    if RefOf(node).Some? {
      ExactRef(root, node, RefOf(node).value, depth, seen, limit);
    } else if node.Object? {
      ExactKeys(root, node, SortedKeys(node.fields.Keys), depth, seen, limit, FieldsOut(root, node, depth, seen, limit));
    } else if node.Array? {
      ExactItems(root, node, |node.items|, depth, seen, limit, ItemsOut(root, node, depth, seen, limit));
    }
  }

  lemma {:induction false} ExactRef(root: Value, node: Value, r: string, depth: nat, seen: seq<string>, limit: nat)
    requires depth <= limit && RefOf(node) == Some(r)
    ensures var o, c := Pass(root, node, depth, seen, limit), Refs(root, node, depth, seen, limit);
      Nodes(o.value) == o.visits + c.standing - c.followed
    decreases limit - depth, node, 1
  {
    match ActionFor(root, r, depth, seen, limit)
    case Follow(target) => ExactOutput(root, target, depth + 1, seen + [r], limit);
    case Circular => OneFieldNodes(Object(map["$circular" := String(r)]), "$circular");
    case _ =>
  }

  lemma {:induction false} ExactKeys(root: Value, node: Value, ks: seq<string>, depth: nat, seen: seq<string>, limit: nat, out: Value)
    requires depth <= limit && node.Object? && out.Object?
    requires forall k :: k in ks ==>
      (k in node.fields && k in out.fields && out.fields[k] == Pass(root, node.fields[k], depth, seen, limit).value)
    ensures var o, c := PassFields(root, node, ks, depth, seen, limit), RefsOfKeys(root, node, ks, depth, seen, limit);
      NodesOfKeys(out, ks) == o.visits + c.standing - c.followed
    decreases limit - depth, node, 0, |ks|
  {
    if ks != [] {
      var n := |ks| - 1;
      assert ks[n] in ks && forall k :: k in ks[..n] ==> k in ks;
      ExactKeys(root, node, ks[..n], depth, seen, limit, out);
      ExactOutput(root, node.fields[ks[n]], depth, seen, limit);
    }
  }

  lemma {:induction false} ExactItems(root: Value, node: Value, n: nat, depth: nat, seen: seq<string>, limit: nat, out: Value)
    requires depth <= limit && node.Array? && out.Array? && n <= |node.items| && n <= |out.items|
    requires forall i :: 0 <= i < n ==> out.items[i] == Pass(root, node.items[i], depth, seen, limit).value
    ensures var o, c := PassItems(root, node, n, depth, seen, limit), RefsOfItems(root, node, n, depth, seen, limit);
      NodesOfItems(out, n) == o.visits + c.standing - c.followed
    decreases limit - depth, node, 0, n
  {
    if n > 0 {
      ExactItems(root, node, n - 1, depth, seen, limit, out);
      ExactOutput(root, node.items[n - 1], depth, seen, limit);
    }
  }

  /** The nodes `resolve` returns, exactly, when it expands at all. */
  ghost function ExpandedSize(root: Value, node: Value): int
    requires Fits(root, node, 0)
  {
    var l := DeepestFit(root, node, MAX_REF_CHAIN);
    var c := Refs(root, node, 0, [], l);
    At(root, node, l).visits + c.standing - c.followed
  }

  /** The size cap as it really holds. The result keeps within the node budget exactly when
      the node's outline does and the exact count of the deepest fitting pass does too; a node
      whose outline is over budget is over it itself and comes back as it stands. Where
      references stand alone, the result keeps within twice the budget exactly when the
      outline fits the budget or the node itself is within twice of it. */
  lemma ResolvedSize(root: Value, node: Value)
    ensures Fits(root, node, 0) <==> Outline(node) <= MAX_RESOLVED_NODES
    ensures Outline(node) > MAX_RESOLVED_NODES ==> Resolved(root, node) == node && Nodes(node) > MAX_RESOLVED_NODES
    ensures Outline(node) <= MAX_RESOLVED_NODES ==> Nodes(Resolved(root, node)) == ExpandedSize(root, node)
    ensures Nodes(Resolved(root, node)) <= MAX_RESOLVED_NODES <==>
      Outline(node) <= MAX_RESOLVED_NODES && ExpandedSize(root, node) <= MAX_RESOLVED_NODES
    ensures PlainRefs(root) && PlainRefs(node) ==>
      (Nodes(Resolved(root, node)) <= 2 * MAX_RESOLVED_NODES <==>
       Outline(node) <= MAX_RESOLVED_NODES || Nodes(node) <= 2 * MAX_RESOLVED_NODES)
  {
    VisitsOfOutline(root, node, 0, []);
    if Fits(root, node, 0) {
      var l := DeepestFit(root, node, MAX_REF_CHAIN);
      ExactOutput(root, node, 0, [], l);
      if PlainRefs(root) && PlainRefs(node) { OutputBound(root, node, 0, [], l); }
    }
  }

  /** Ten thousand nulls in an array are one node too many, and come back whole. */
  lemma TooLargeComesBackWhole(root: Value)
    ensures var node := Array(seq(10_000, _ => Null));
      Resolved(root, node) == node && Nodes(node) == MAX_RESOLVED_NODES + 1
  {
    var node := Array(seq(10_000, _ => Null));
    NullItems(node, 10_000);
    ResolvedSize(root, node);
  }

  lemma {:induction false} NullItems(node: Value, n: nat)
    requires node.Array? && n <= |node.items| && forall i :: 0 <= i < |node.items| ==> node.items[i] == Null
    ensures OutlineOfItems(node, n) == NodesOfItems(node, n) == n
  {
    if n > 0 { NullItems(node, n - 1); }
  }

  /** Six thousand references to other documents take 6,001 visits, so they fit, and are
      12,001 nodes. */
  lemma FittingYetLarger(root: Value)
    ensures var node := Array(seq(6_000, _ => Object(map["$ref" := String("other.json")])));
      Fits(root, node, MAX_REF_CHAIN) && Resolved(root, node) == node && Nodes(node) == 12_001
  {
    var ref := Object(map["$ref" := String("other.json")]);
    var node := Array(seq(6_000, _ => ref));
    OneFieldNodes(ref, "$ref");
    ForeignArray(root, node, ref, MAX_REF_CHAIN);
    ForeignArray(root, node, ref, 0);
    hide *;
    FitsWhen(root, node, 0);
    FitsWhen(root, node, MAX_REF_CHAIN);
    FittingSchemaIsWhole(root, node, 0);
  }

  lemma FitsWhen(root: Value, node: Value, limit: nat)
    ensures Fits(root, node, limit) <==> At(root, node, limit).visits <= MAX_RESOLVED_NODES
  {}

  lemma ForeignArray(root: Value, node: Value, ref: Value, limit: nat)
    requires node.Array? && |node.items| == 6_000 && forall i :: 0 <= i < 6_000 ==> node.items[i] == ref
    requires ref == Object(map["$ref" := String("other.json")]) && Nodes(ref) == 2
    ensures At(root, node, limit) == Outcome(node, 6_001, false) && Nodes(node) == 12_001
  {
    ForeignItems(root, node, ref, 6_000, limit);
    hide PassItems, NodesOfItems;
    assert node.items[..6_000] == node.items;
  }

  lemma ForeignPass(root: Value, ref: Value, limit: nat)
    requires ref == Object(map["$ref" := String("other.json")])
    ensures Pass(root, ref, 0, [], limit) == Outcome(ref, 1, false)
  {
    assert !IsLocal("other.json");
  }

  lemma {:induction false} ForeignItems(root: Value, node: Value, ref: Value, n: nat, limit: nat)
    requires node.Array? && n <= |node.items| && forall i :: 0 <= i < |node.items| ==> node.items[i] == ref
    requires ref == Object(map["$ref" := String("other.json")]) && Nodes(ref) == 2
    ensures PassItems(root, node, n, 0, [], limit) == Outcome(node.items[..n], n, false)
    ensures NodesOfItems(node, n) == 2 * n
  {
    if n > 0 {
      ForeignItems(root, node, ref, n - 1, limit);
      assert node.items[..n] == node.items[..n - 1] + [ref];
      ForeignPass(root, ref, limit);
      hide Pass, Nodes;
    }
  }

  // ----- operation ids -----

  /** The id an operation ends up with, given those before it. */
  function UniqueId(id: string, taken: set<string>): string {
    if id in taken then FreshNames.Numbered(id, FreshNames.FirstFree(id, taken, 2)) else id
  }

  ghost function UniqueIds(ids: seq<string>): (out: seq<string>)
    ensures |out| == |ids|
  {
    if ids == [] then [] else
      var n := |ids| - 1;
      var before := UniqueIds(ids[..n]);
      before + [UniqueId(ids[n], set id | id in before)]
  }

  /** The disambiguation loop of `from_value`, over the operations' ids in place. */
  method Disambiguate(ids: array<string>)
    modifies ids
    ensures ids[..] == UniqueIds(old(ids[..]))
  {
    ghost var was := ids[..];
    var seen: set<string> := {};
    for i := 0 to ids.Length
      invariant ids[..i] == UniqueIds(was[..i])
      invariant ids[i..] == was[i..]
      invariant seen == set id | id in UniqueIds(was[..i])
    {
      assert was[..i + 1][..i] == was[..i] && was[..i + 1][i] == ids[i..][0] == ids[i];
      if ids[i] in seen {
        var free := FreshNames.FindFree(ids[i], seen, 2);
        ids[i] := free;
      }
      seen := seen + {ids[i]};
      assert ids[..i + 1] == ids[..i] + [ids[i]];
      assert ids[i + 1..] == was[i + 1..];
    }
    assert was[..ids.Length] == was && ids[..ids.Length] == ids[..];
  }

  /** Every operation ends up with an id of its own, and an id no earlier operation took is
      left alone, so `by_id` finds every operation. */
  lemma {:induction false} UniqueIdsDistinct(ids: seq<string>)
    ensures Distinct(UniqueIds(ids))
    ensures forall i :: 0 <= i < |ids| && ids[i] !in UniqueIds(ids)[..i] ==> UniqueIds(ids)[i] == ids[i]
  {
    if ids != [] {
      var n := |ids| - 1;
      UniqueIdsDistinct(ids[..n]);
      var before := UniqueIds(ids[..n]);
      forall i | 0 <= i < |ids| && ids[i] !in UniqueIds(ids)[..i] ensures UniqueIds(ids)[i] == ids[i] {
        assert UniqueIds(ids)[..i] == if i < n then before[..i] else before;
      }
    }
  }
}
