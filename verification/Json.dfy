/** The JSON values every other module works on.

    A number keeps its literal text, as the program keeps it, and an object is a finite
    map: the order of keys carries no meaning for anything proved here. */
module Json {
  datatype Option<+T> = None | Some(value: T)

  datatype Value =
    | Null
    | Bool(b: bool)
    | Number(literal: string)
    | String(s: string)
    | Array(items: seq<Value>)
    | Object(fields: map<string, Value>)

  /** The value under `key`, when `v` is an object that has it. */
  function Get(v: Value, key: string): Option<Value> {
    if v.Object? && key in v.fields then Some(v.fields[key]) else None
  }

  // ----- string order -----

  /** Code point order, which is also the byte order of the UTF-8 encodings. */
  predicate StringLe(a: string, b: string) {
    a == [] || (b != [] && (a[0] < b[0] || (a[0] == b[0] && StringLe(a[1..], b[1..]))))
  }

  lemma {:induction false} StringLeTotal(a: string, b: string)
    ensures StringLe(a, b) || StringLe(b, a)
  {
    if a != [] && b != [] && a[0] == b[0] {
      StringLeTotal(a[1..], b[1..]);
    }
  }

  lemma {:induction false} StringLeAntisymmetric(a: string, b: string)
    requires StringLe(a, b) && StringLe(b, a)
    ensures a == b
  {
    if a != [] && b != [] {
      StringLeAntisymmetric(a[1..], b[1..]);
      assert a == [a[0]] + a[1..] && b == [b[0]] + b[1..];
    }
  }

  lemma {:induction false} StringLeTransitive(a: string, b: string, c: string)
    requires StringLe(a, b) && StringLe(b, c)
    ensures StringLe(a, c)
  {
    if a != [] && b != [] && c != [] && a[0] == b[0] == c[0] {
      StringLeTransitive(a[1..], b[1..], c[1..]);
    }
  }

  ghost predicate IsLeast(k: string, keys: set<string>) {
    k in keys && forall other :: other in keys ==> StringLe(k, other)
  }

  lemma {:induction false} LeastExists(keys: set<string>)
    requires keys != {}
    ensures exists k :: IsLeast(k, keys)
    decreases |keys|
  {
    var k :| k in keys;
    StringLeTotal(k, k);
    var rest := keys - {k};
    if rest == {} {
      assert keys == {k};
      assert IsLeast(k, keys);
    } else {
      LeastExists(rest);
      var m :| IsLeast(m, rest);
      StringLeTotal(k, m);
      if StringLe(m, k) {
        assert IsLeast(m, keys);
      } else {
        forall other | other in keys ensures StringLe(k, other) {
          if other != k { StringLeTransitive(k, m, other); }
        }
        assert IsLeast(k, keys);
      }
    }
  }

  lemma LeastUnique(keys: set<string>)
    ensures forall x, y ::
      (x in keys && (forall other :: other in keys ==> StringLe(x, other)) &&
       y in keys && (forall other :: other in keys ==> StringLe(y, other))) ==> x == y
  {
    forall x, y | x in keys && (forall other :: other in keys ==> StringLe(x, other)) &&
                  y in keys && (forall other :: other in keys ==> StringLe(y, other))
      ensures x == y
    {
      StringLeAntisymmetric(x, y);
    }
  }

  function Least(keys: set<string>): (k: string)
    requires keys != {}
    ensures IsLeast(k, keys)
  {
    LeastExists(keys);
    LeastUnique(keys);
    var k :| k in keys && forall other :: other in keys ==> StringLe(k, other);
    k
  }

  ghost predicate Distinct<T>(s: seq<T>) {
    forall i, j :: 0 <= i < j < |s| ==> s[i] != s[j]
  }

  ghost predicate Sorted(s: seq<string>) {
    forall i, j :: 0 <= i < j < |s| ==> StringLe(s[i], s[j])
  }

  /** The keys in order, each once. */
  function SortedKeys(keys: set<string>): (ks: seq<string>)
    ensures forall k :: k in ks <==> k in keys
    ensures Distinct(ks) && Sorted(ks)
    decreases |keys|
  {
    if keys == {} then [] else
      var k := Least(keys);
      [k] + SortedKeys(keys - {k})
  }

  // ----- size -----

  /** How many JSON values `v` is made of, itself included. */
  ghost function Nodes(v: Value): (n: nat)
    ensures n >= 1
    decreases v, 1
  {
    match v
    case Array(items) => 1 + NodesOfItems(v, |items|)
    case Object(fields) => 1 + NodesOfKeys(v, SortedKeys(fields.Keys))
    case _ => 1
  }

  ghost function NodesOfItems(v: Value, n: nat): nat
    requires v.Array? && n <= |v.items|
    decreases v, 0, n
  {
    if n == 0 then 0 else NodesOfItems(v, n - 1) + Nodes(v.items[n - 1])
  }

  ghost function NodesOfKeys(v: Value, ks: seq<string>): nat
    requires v.Object? && forall k :: k in ks ==> k in v.fields
    decreases v, 0, |ks|
  {
    if ks == [] then 0 else
      var n := |ks| - 1;
      assert ks[n] in ks && forall k :: k in ks[..n] ==> k in ks;
      NodesOfKeys(v, ks[..n]) + Nodes(v.fields[ks[n]])
  }
}
