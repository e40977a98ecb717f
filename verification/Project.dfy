/** Field projection and the in-place edits along a path (src/project.rs).

    A path is a list of segments; `[]` stands for every element of an array. Values are
    trees, so an edit in place is a function that returns the edited tree. */
module Project {
  import opened Json

  const EACH := "[]"

  type Path = seq<string>

  // ----- selection and merging -----

  /** The part of `v` one path names, with its surroundings. An element without a match
      stays in place as null. */
  function SelectPath(v: Value, path: Path): Option<Value>
    decreases |path|, 0
  {
    if path == [] then Some(v)
    else if path[0] == EACH then
      if v.Array? then
        Some(Array(seq(|v.items|, i requires 0 <= i < |v.items| => SelectOrNull(v.items[i], path[1..]))))
      else None
    else match Get(v, path[0])
      case None => None
      case Some(child) =>
        match SelectPath(child, path[1..])
        case None => None
        case Some(sub) => Some(Object(map[path[0] := sub]))
  }

  function SelectOrNull(v: Value, path: Path): Value
    decreases |path|, 1
  {
    match SelectPath(v, path)
    case Some(sub) => sub
    case None => Null
  }

  function DeepMerge(a: Value, b: Value): Value {
    match (a, b)
    case (Object(am), Object(bm)) =>
      Object(map k | k in am.Keys + bm.Keys ::
        if k in am && k in bm then DeepMerge(am[k], bm[k]) else if k in am then am[k] else bm[k])
    case (Array(aa), Array(ba)) =>
      var n := if |aa| >= |ba| then |aa| else |ba|;
      Array(seq(n, i requires 0 <= i < n =>
        if i < |aa| && i < |ba| then DeepMerge(aa[i], ba[i]) else if i < |aa| then aa[i] else ba[i]))
    case (Null, _) => b
    case _ => a
  }

  function Project(value: Value, paths: seq<Path>): Value {
    if paths == [] then Null else
      var acc := Project(value, paths[..|paths| - 1]);
      match SelectPath(value, paths[|paths| - 1])
      case Some(sel) => DeepMerge(acc, sel)
      case None => acc
  }

  /** `project`'s loop. */
  method ProjectPaths(value: Value, paths: seq<Path>) returns (acc: Value)
    ensures acc == Project(value, paths)
  {
    acc := Null;
    for i := 0 to |paths|
      invariant acc == Project(value, paths[..i])
    {
      assert paths[..i + 1][..i] == paths[..i];
      match SelectPath(value, paths[i]) {
        case Some(sel) => acc := DeepMerge(acc, sel);
        case None =>
      }
    }
    assert paths[..|paths|] == paths;
  }

  // ----- the order: being a sub-structure -----

  /** `a` is `v` with parts taken away: object fields dropped, anything nulled, arrays at
      their full length. */
  ghost predicate Sub(a: Value, v: Value) {
    match (a, v)
    case (Null, _) => true
    case (Object(am), Object(vm)) => forall k :: k in am ==> k in vm && Sub(am[k], vm[k])
    case (Array(aa), Array(va)) => |aa| == |va| && forall i :: 0 <= i < |aa| ==> Sub(aa[i], va[i])
    case _ => a == v
  }

  lemma {:induction false} SubReflexive(v: Value)
    ensures Sub(v, v)
  {
    match v {
      case Object(fields) =>
        forall k | k in fields ensures Sub(fields[k], fields[k]) { SubReflexive(fields[k]); }
      case Array(items) =>
        forall i | 0 <= i < |items| ensures Sub(items[i], items[i]) { SubReflexive(items[i]); }
      case _ =>
    }
  }

  lemma {:induction false} SubTransitive(a: Value, b: Value, c: Value)
    requires Sub(a, b) && Sub(b, c)
    ensures Sub(a, c)
  {
    if a.Object? {
      forall k | k in a.fields ensures Sub(a.fields[k], c.fields[k]) {
        SubTransitive(a.fields[k], b.fields[k], c.fields[k]);
      }
    } else if a.Array? {
      forall i | 0 <= i < |a.items| ensures Sub(a.items[i], c.items[i]) {
        SubTransitive(a.items[i], b.items[i], c.items[i]);
      }
    }
  }

  lemma {:induction false} SubAntisymmetric(a: Value, b: Value)
    requires Sub(a, b) && Sub(b, a)
    ensures a == b
  {
    if a.Object? && b.Object? {
      forall k | k in a.fields ensures k in b.fields && a.fields[k] == b.fields[k] {
        SubAntisymmetric(a.fields[k], b.fields[k]);
      }
      assert a.fields == b.fields;
    } else if a.Array? && b.Array? {
      forall i | 0 <= i < |a.items| ensures a.items[i] == b.items[i] {
        SubAntisymmetric(a.items[i], b.items[i]);
      }
      assert a.items == b.items;
    }
  }

  // ----- merging is the join -----

  /** Below any common bound, the merge is an upper bound of both … */
  lemma {:induction false} MergeIsUpper(a: Value, b: Value, v: Value)
    requires Sub(a, v) && Sub(b, v)
    ensures Sub(a, DeepMerge(a, b)) && Sub(b, DeepMerge(a, b))
  {
    SubReflexive(a);
    SubReflexive(b);
    if a.Object? && b.Object? {
      MergeIsUpperFields(a, b, v);
    } else if a.Array? && b.Array? {
      MergeIsUpperItems(a, b, v);
    }
  }

  lemma {:induction false} MergeIsUpperFields(a: Value, b: Value, v: Value)
    requires Sub(a, v) && Sub(b, v) && a.Object? && b.Object?
    ensures Sub(a, DeepMerge(a, b)) && Sub(b, DeepMerge(a, b))
    decreases a, b, v, 0
  {
    var m := DeepMerge(a, b).fields;
    forall k | k in a.fields ensures Sub(a.fields[k], m[k]) {
      if k in b.fields { MergeIsUpper(a.fields[k], b.fields[k], v.fields[k]); } else { SubReflexive(a.fields[k]); }
    }
    forall k | k in b.fields ensures Sub(b.fields[k], m[k]) {
      if k in a.fields { MergeIsUpper(a.fields[k], b.fields[k], v.fields[k]); } else { SubReflexive(b.fields[k]); }
    }
  }

  lemma {:induction false} MergeIsUpperItems(a: Value, b: Value, v: Value)
    requires Sub(a, v) && Sub(b, v) && a.Array? && b.Array?
    ensures Sub(a, DeepMerge(a, b)) && Sub(b, DeepMerge(a, b))
    decreases a, b, v, 0
  {
    var m := DeepMerge(a, b).items;
    forall i | 0 <= i < |a.items| ensures Sub(a.items[i], m[i]) && Sub(b.items[i], m[i]) {
      MergeIsUpper(a.items[i], b.items[i], v.items[i]);
    }
  }

  /** … and below every common bound: it is the least one. */
  lemma {:induction false} MergeIsLeast(a: Value, b: Value, v: Value)
    requires Sub(a, v) && Sub(b, v)
    ensures Sub(DeepMerge(a, b), v)
  {
    if a.Object? && b.Object? {
      var m := DeepMerge(a, b).fields;
      forall k | k in m ensures k in v.fields && Sub(m[k], v.fields[k]) {
        if k in a.fields && k in b.fields { MergeIsLeast(a.fields[k], b.fields[k], v.fields[k]); }
      }
    } else if a.Array? && b.Array? {
      var m := DeepMerge(a, b).items;
      forall i | 0 <= i < |m| ensures Sub(m[i], v.items[i]) {
        MergeIsLeast(a.items[i], b.items[i], v.items[i]);
      }
    }
  }

  // ----- selection and the order -----

  lemma {:induction false} SelectIsSub(v: Value, path: Path)
    ensures SelectPath(v, path).Some? ==> Sub(SelectPath(v, path).value, v)
    decreases |path|
  {
    if path == [] {
      SubReflexive(v);
    } else if path[0] == EACH {
      if v.Array? {
        forall i | 0 <= i < |v.items| ensures Sub(SelectOrNull(v.items[i], path[1..]), v.items[i]) {
          SelectIsSub(v.items[i], path[1..]);
        }
      }
    } else if Get(v, path[0]).Some? {
      SelectIsSub(v.fields[path[0]], path[1..]);
    }
  }

  lemma {:induction false} SelectMonotone(a: Value, b: Value, path: Path)
    requires Sub(a, b) && SelectPath(a, path).Some?
    ensures SelectPath(b, path).Some? && Sub(SelectPath(a, path).value, SelectPath(b, path).value)
    decreases |path|
  {
    if path != [] {
      if path[0] == EACH {
        forall i | 0 <= i < |a.items|
          ensures Sub(SelectOrNull(a.items[i], path[1..]), SelectOrNull(b.items[i], path[1..]))
        {
          if SelectPath(a.items[i], path[1..]).Some? { SelectMonotone(a.items[i], b.items[i], path[1..]); }
        }
      } else {
        SelectMonotone(a.fields[path[0]], b.fields[path[0]], path[1..]);
      }
    }
  }

  lemma {:induction false} SelectIdempotent(v: Value, path: Path)
    requires SelectPath(v, path).Some?
    ensures SelectPath(SelectPath(v, path).value, path) == SelectPath(v, path)
    decreases |path|
  {
    if path != [] {
      var s, rest := SelectPath(v, path).value, path[1..];
      if path[0] == EACH {
        forall i | 0 <= i < |v.items| ensures SelectOrNull(s.items[i], rest) == s.items[i] {
          if SelectPath(v.items[i], rest).Some? { SelectIdempotent(v.items[i], rest); } else { NullSelectsNull(rest); }
        }
        assert SelectPath(s, path).value.items == s.items;
      } else {
        SelectIdempotent(v.fields[path[0]], rest);
      }
    }
  }

  lemma NullSelectsNull(path: Path)
    ensures SelectOrNull(Null, path) == Null
  {}

  // ----- what project promises -----

  ghost predicate Selected(v: Value, paths: seq<Path>, s: Value) {
    exists path :: path in paths && SelectPath(v, path) == Some(s)
  }

  /** The projection is the least structure holding everything the paths select. */
  lemma {:induction false} ProjectIsLeast(v: Value, paths: seq<Path>, bound: Value)
    requires forall s :: Selected(v, paths, s) ==> Sub(s, bound)
    ensures Sub(Project(v, paths), bound)
    decreases |paths|
  {
    if paths != [] {
      var n := |paths| - 1;
      forall s | Selected(v, paths[..n], s) ensures Sub(s, bound) {
        var path :| path in paths[..n] && SelectPath(v, path) == Some(s);
        assert path in paths;
        assert Selected(v, paths, s);
      }
      ProjectIsLeast(v, paths[..n], bound);
      var sel := SelectPath(v, paths[n]);
      if sel.Some? {
        assert Selected(v, paths, sel.value);
        MergeIsLeast(Project(v, paths[..n]), sel.value, bound);
      }
    }
  }

  /** The projection is a sub-structure of its input, so arrays keep length and positions. */
  lemma ProjectIsSub(v: Value, paths: seq<Path>)
    ensures Sub(Project(v, paths), v)
  {
    forall s | Selected(v, paths, s) ensures Sub(s, v) {
      var path :| path in paths && SelectPath(v, path) == Some(s);
      SelectIsSub(v, path);
    }
    ProjectIsLeast(v, paths, v);
  }

  lemma {:induction false} ProjectHolds(v: Value, paths: seq<Path>, s: Value)
    requires Selected(v, paths, s)
    ensures Sub(s, Project(v, paths))
    decreases |paths|
  {
    var n := |paths| - 1;
    var before, sel := Project(v, paths[..n]), SelectPath(v, paths[n]);
    ProjectIsSub(v, paths[..n]);
    var path :| path in paths && SelectPath(v, path) == Some(s);
    if path in paths[..n] {
      assert Selected(v, paths[..n], s);
      ProjectHolds(v, paths[..n], s);
      if sel.Some? {
        SelectIsSub(v, paths[n]);
        MergeIsUpper(before, sel.value, v);
        SubTransitive(s, before, DeepMerge(before, sel.value));
      }
    } else {
      assert path == paths[n];
      SelectIsSub(v, paths[n]);
      MergeIsUpper(before, s, v);
    }
  }

  /** Only which paths are asked for matters: not their order, not repeats. */
  lemma ProjectIgnoresOrder(v: Value, paths: seq<Path>, paths': seq<Path>)
    requires forall path :: path in paths <==> path in paths'
    ensures Project(v, paths) == Project(v, paths')
  {
    ProjectBelow(v, paths, paths');
    ProjectBelow(v, paths', paths);
    SubAntisymmetric(Project(v, paths), Project(v, paths'));
  }

  lemma ProjectBelow(v: Value, paths: seq<Path>, paths': seq<Path>)
    requires forall path :: path in paths ==> path in paths'
    ensures Sub(Project(v, paths), Project(v, paths'))
  {
    forall s | Selected(v, paths, s) ensures Sub(s, Project(v, paths')) {
      var path :| path in paths && SelectPath(v, path) == Some(s);
      assert Selected(v, paths', s);
      ProjectHolds(v, paths', s);
    }
    ProjectIsLeast(v, paths, Project(v, paths'));
  }

  /** Reading a requested path from the projection gives what it gives on the original. */
  lemma ProjectKeepsLeaves(v: Value, paths: seq<Path>, path: Path)
    requires path in paths
    ensures SelectPath(Project(v, paths), path) == SelectPath(v, path)
  {
    var r, sel := Project(v, paths), SelectPath(v, path);
    ProjectIsSub(v, paths);
    if SelectPath(r, path).Some? { SelectMonotone(r, v, path); }
    if sel.Some? {
      assert Selected(v, paths, sel.value);
      ProjectHolds(v, paths, sel.value);
      SelectIdempotent(v, path);
      SelectMonotone(sel.value, r, path);
      SubAntisymmetric(SelectPath(r, path).value, sel.value);
    }
  }

  // ----- removal: the denylist counterpart -----

  function RemoveAt(v: Value, path: Path): Value
    decreases |path|
  {
    if path == [] then v
    else if path[0] == EACH then
      if !v.Array? then v
      else if |path| == 1 then Array([])
      else Array(seq(|v.items|, i requires 0 <= i < |v.items| => RemoveAt(v.items[i], path[1..])))
    else if Get(v, path[0]).None? then v
    else if |path| == 1 then Object(v.fields - {path[0]})
    else Object(v.fields[path[0] := RemoveAt(v.fields[path[0]], path[1..])])
  }

  /** A value reached by following `path` from `v`. */
  ghost predicate Reaches(v: Value, path: Path, leaf: Value)
    decreases |path|
  {
    if path == [] then leaf == v
    else if path[0] == EACH then v.Array? && exists i :: 0 <= i < |v.items| && Reaches(v.items[i], path[1..], leaf)
    else Get(v, path[0]).Some? && Reaches(v.fields[path[0]], path[1..], leaf)
  }

  /** Nothing on a denied path is left to reach. */
  lemma {:induction false} RemovedIsUnreachable(v: Value, path: Path, leaf: Value)
    requires path != []
    ensures !Reaches(RemoveAt(v, path), path, leaf)
    decreases |path|
  {
    if |path| > 1 {
      if path[0] == EACH {
        if v.Array? {
          forall i | 0 <= i < |v.items| ensures !Reaches(RemoveAt(v.items[i], path[1..]), path[1..], leaf) {
            RemovedIsUnreachable(v.items[i], path[1..], leaf);
          }
        }
      } else if Get(v, path[0]).Some? {
        RemovedIsUnreachable(v.fields[path[0]], path[1..], leaf);
      }
    }
  }

  /** Denied paths may be pruned in any order. */
  lemma {:induction false} RemovalsCommute(v: Value, p: Path, q: Path)
    ensures RemoveAt(RemoveAt(v, p), q) == RemoveAt(RemoveAt(v, q), p)
    decreases |p|
  {
    if p != [] && q != [] && p[0] == q[0] {
      if p[0] == EACH {
        if v.Array? && |p| > 1 && |q| > 1 {
          forall i | 0 <= i < |v.items|
            ensures RemoveAt(RemoveAt(v.items[i], p[1..]), q[1..]) == RemoveAt(RemoveAt(v.items[i], q[1..]), p[1..])
          {
            RemovalsCommute(v.items[i], p[1..], q[1..]);
          }
          assert RemoveAt(RemoveAt(v, p), q).items == RemoveAt(RemoveAt(v, q), p).items;
        }
      } else if Get(v, p[0]).Some? {
        RemovalsCommute(v.fields[p[0]], p[1..], q[1..]);
        assert RemoveAt(RemoveAt(v, p), q).fields == RemoveAt(RemoveAt(v, q), p).fields;
      }
    } else if p != [] && q != [] && v.Object? && p[0] != EACH && q[0] != EACH {
      RemoveOtherKey(v, p, q[0]);
      RemoveOtherKey(v, q, p[0]);
      assert RemoveAt(RemoveAt(v, p), q).fields == RemoveAt(RemoveAt(v, q), p).fields;
    }
  }

  lemma RemoveOtherKey(v: Value, p: Path, k: string)
    requires v.Object? && p != [] && p[0] != EACH && p[0] != k
    ensures RemoveAt(v, p).Object? && Get(RemoveAt(v, p), k) == Get(v, k)
  {}

  lemma {:induction false} RemovalIdempotent(v: Value, p: Path)
    ensures RemoveAt(RemoveAt(v, p), p) == RemoveAt(v, p)
    decreases |p|
  {
    if |p| > 1 {
      if p[0] == EACH {
        if v.Array? {
          forall i | 0 <= i < |v.items| ensures RemoveAt(RemoveAt(v.items[i], p[1..]), p[1..]) == RemoveAt(v.items[i], p[1..]) {
            RemovalIdempotent(v.items[i], p[1..]);
          }
          assert RemoveAt(RemoveAt(v, p), p).items == RemoveAt(v, p).items;
        }
      } else if Get(v, p[0]).Some? {
        RemovalIdempotent(v.fields[p[0]], p[1..]);
        assert RemoveAt(RemoveAt(v, p), p).fields == RemoveAt(v, p).fields;
      }
    }
  }

  function Pruned(v: Value, paths: seq<Path>): Value {
    if paths == [] then v else RemoveAt(Pruned(v, paths[..|paths| - 1]), paths[|paths| - 1])
  }

  /** A pruned value has nothing left to remove on any of the paths … */
  lemma {:induction false} PrunedIsSettled(v: Value, paths: seq<Path>, p: Path)
    requires p in paths
    ensures RemoveAt(Pruned(v, paths), p) == Pruned(v, paths)
    decreases |paths|
  {
    var n := |paths| - 1;
    var before, last := Pruned(v, paths[..n]), paths[n];
    if p == last {
      RemovalIdempotent(before, last);
    } else {
      assert paths == paths[..n] + [last];
      PrunedIsSettled(v, paths[..n], p);
      RemovalsCommute(before, last, p);
    }
  }

  /** … so nothing on a denied path can be reached, whatever was pruned after it … */
  lemma PrunedIsUnreachable(v: Value, paths: seq<Path>, p: Path, leaf: Value)
    requires p in paths && p != []
    ensures !Reaches(Pruned(v, paths), p, leaf)
  {
    PrunedIsSettled(v, paths, p);
    RemovedIsUnreachable(Pruned(v, paths), p, leaf);
  }

  /** … and only which paths are denied matters, not their order nor repeats. */
  lemma PruneIgnoresOrder(v: Value, paths: seq<Path>, paths': seq<Path>)
    requires forall p :: p in paths <==> p in paths'
    ensures Pruned(v, paths) == Pruned(v, paths')
  {
    PruneAgain(Pruned(v, paths), paths, paths');
    PruneAgain(Pruned(v, paths'), paths', paths);
    forall p | p in paths ensures RemoveAt(Pruned(v, paths), p) == Pruned(v, paths) { PrunedIsSettled(v, paths, p); }
    forall p | p in paths' ensures RemoveAt(Pruned(v, paths'), p) == Pruned(v, paths') { PrunedIsSettled(v, paths', p); }
    PrunesCommute(v, paths, paths');
  }

  lemma {:induction false} PruneAgain(w: Value, paths: seq<Path>, more: seq<Path>)
    requires forall p :: p in more ==> p in paths
    ensures (forall p :: p in paths ==> RemoveAt(w, p) == w) ==> Pruned(w, more) == w
    decreases |more|
  {
    if more != [] { PruneAgain(w, paths, more[..|more| - 1]); }
  }

  lemma {:induction false} PruneThenRemove(v: Value, paths: seq<Path>, p: Path)
    ensures Pruned(RemoveAt(v, p), paths) == RemoveAt(Pruned(v, paths), p)
    decreases |paths|
  {
    if paths != [] {
      var n := |paths| - 1;
      PruneThenRemove(v, paths[..n], p);
      RemovalsCommute(Pruned(v, paths[..n]), p, paths[n]);
    }
  }

  lemma {:induction false} PrunesCommute(v: Value, paths: seq<Path>, more: seq<Path>)
    ensures Pruned(Pruned(v, paths), more) == Pruned(Pruned(v, more), paths)
    decreases |more|
  {
    if more != [] {
      var n := |more| - 1;
      PrunesCommute(v, paths, more[..n]);
      PruneThenRemove(Pruned(v, more[..n]), paths, more[n]);
    }
  }

  /** `remove_at`: the elements of an array are edited in turn. */
  method RemovePath(v: Value, path: Path) returns (r: Value)
    ensures r == RemoveAt(v, path)
    decreases |path|
  {
    if path == [] { return v; }
    if path[0] == EACH {
      if !v.Array? { return v; }
      if |path| == 1 { return Array([]); }
      var items := v.items;
      for i := 0 to |items|
        invariant |items| == |v.items|
        invariant forall j :: 0 <= j < |items| ==> items[j] == if j < i then RemoveAt(v.items[j], path[1..]) else v.items[j]
      {
        hide RemoveAt;
        var edited := RemovePath(items[i], path[1..]);
        items := items[i := edited];
      }
      r := Array(items);
      assert items == RemoveAt(v, path).items;
    } else if Get(v, path[0]).None? {
      r := v;
    } else if |path| == 1 {
      r := Object(v.fields - {path[0]});
    } else {
      var child := RemovePath(v.fields[path[0]], path[1..]);
      r := Object(v.fields[path[0] := child]);
    }
  }

  /** `prune`'s loop. */
  method PrunePaths(value: Value, paths: seq<Path>) returns (v: Value)
    ensures v == Pruned(value, paths)
  {
    v := value;
    for i := 0 to |paths|
      invariant v == Pruned(value, paths[..i])
    {
      assert paths[..i + 1][..i] == paths[..i];
      v := RemovePath(v, paths[i]);
    }
    assert paths[..|paths|] == paths;
  }

  // ----- writing along a path -----

  /** Add or replace; objects only, and missing ones are created on the way. Here `[]` is a
      key like any other. */
  function SetAt(v: Value, path: Path, val: Value): Value
    decreases |path|
  {
    if path == [] || !v.Object? then v
    else if |path| == 1 then Object(v.fields[path[0] := val])
    else Object(v.fields[path[0] := SetAt(ChildOrEmpty(v, path[0]), path[1..], val)])
  }

  function ChildOrEmpty(v: Value, key: string): Value {
    match Get(v, key)
    case Some(child) => child
    case None => Object(map[])
  }

  /** Fill in only what is absent. */
  function DefaultAt(v: Value, path: Path, val: Value): Value
    decreases |path|
  {
    if path == [] || !v.Object? then v
    else if |path| == 1 then (if path[0] in v.fields then v else Object(v.fields[path[0] := val]))
    else Object(v.fields[path[0] := DefaultAt(ChildOrEmpty(v, path[0]), path[1..], val)])
  }

  function GetPath(v: Value, path: Path): Option<Value>
    decreases |path|
  {
    if path == [] then Some(v)
    else match Get(v, path[0])
      case Some(child) => GetPath(child, path[1..])
      case None => None
  }

  /** No existing value that is not an object stands in the way. */
  predicate Settable(v: Value, path: Path)
    decreases |path|
  {
    path != [] && v.Object? && (|path| == 1 || Settable(ChildOrEmpty(v, path[0]), path[1..]))
  }

  /** A write is read back exactly when nothing stands in its way; otherwise it changes
      nothing at all. */
  lemma {:induction false} SetThenGet(v: Value, path: Path, val: Value)
    ensures if Settable(v, path) then GetPath(SetAt(v, path, val), path) == Some(val) else SetAt(v, path, val) == v
    decreases |path|
  {
    if path != [] && v.Object? {
      if |path| == 1 {
        assert path[1..] == [];
      } else {
        SetThenGet(ChildOrEmpty(v, path[0]), path[1..], val);
        if !Settable(v, path) { EmptySettable(path[1..]); }
      }
    }
  }

  lemma {:induction false} EmptySettable(path: Path)
    requires path != []
    ensures Settable(Object(map[]), path)
    decreases |path|
  {
    if |path| > 1 { EmptySettable(path[1..]); }
  }

  /** A default never overwrites: it is a write where the path is absent and nothing where
      it is present. */
  lemma {:induction false} DefaultIsSetWhenAbsent(v: Value, path: Path, val: Value)
    ensures DefaultAt(v, path, val) == if GetPath(v, path).Some? then v else SetAt(v, path, val)
    decreases |path|
  {
    if path != [] && v.Object? {
      if |path| == 1 {
        assert path[1..] == [];
      } else {
        DefaultIsSetWhenAbsent(ChildOrEmpty(v, path[0]), path[1..], val);
        if Get(v, path[0]).None? { assert GetPath(Object(map[]), path[1..]).None?; }
      }
    }
  }
}
