/** Rearranging sequences: taking one element out, bringing it to the front, and finding the
    places of one arrangement in another. */
module Arrangements {
  lemma WithoutOne<T>(s: seq<T>, k: nat)
    requires k < |s|
    ensures multiset(s[..k] + s[k + 1..]) == multiset(s) - multiset{s[k]}
  {
    assert s == s[..k] + [s[k]] + s[k + 1..];
  }

  lemma PlaceOf<T>(s: seq<T>, x: T) returns (k: nat)
    requires x in multiset(s)
    ensures k < |s| && s[k] == x
  {
    k :| 0 <= k < |s| && s[k] == x;
  }

  lemma WithoutFirst<T>(s: seq<T>)
    requires s != []
    ensures multiset(s[1..]) == multiset(s) - multiset{s[0]}
  {
    assert s == [s[0]] + s[1..];
  }

  /** The first element of one arrangement, taken out of the other. */
  lemma Matching<T>(a: seq<T>, b: seq<T>) returns (k: nat, b': seq<T>)
    requires multiset(a) == multiset(b) && a != []
    ensures k < |b| && b[k] == a[0] && b' == b[..k] + b[k + 1..] && multiset(a[1..]) == multiset(b')
  {
    assert a[0] in multiset(b);
    k := PlaceOf(b, a[0]);
    b' := b[..k] + b[k + 1..];
    WithoutFirst(a);
    WithoutOne(b, k);
  }

  /** Two places of one arrangement correspond to two places of another. */
  lemma TwoPlaces<T>(a: seq<T>, b: seq<T>, i: nat, j: nat) returns (p: nat, q: nat)
    requires multiset(a) == multiset(b) && i < j < |b|
    ensures p < |a| && q < |a| && p != q && a[p] == b[i] && a[q] == b[j]
  {
    p := PlaceOf(a, b[i]);
    WithoutOne(a, p);
    WithoutOne(b, i);
    OtherRemains(b, i, j);
    var k := PlaceOf(a[..p] + a[p + 1..], b[j]);
    q := if k < p then k else k + 1;
  }

  lemma OtherRemains<T>(s: seq<T>, i: nat, j: nat)
    requires i < j < |s|
    ensures s[j] in multiset(s[..i] + s[i + 1..])
  {
    var rest := s[..i] + s[i + 1..];
    assert rest[j - 1] == s[j];
  }

  ghost function ToFront<T>(s: seq<T>, k: nat): seq<T>
    requires k < |s|
  {
    [s[k]] + s[..k] + s[k + 1..]
  }

  lemma ToFrontRearranges<T>(s: seq<T>, k: nat)
    requires k < |s|
    ensures multiset(ToFront(s, k)) == multiset(s) && ToFront(s, k)[0] == s[k]
  {
    assert s == s[..k] + [s[k]] + s[k + 1..];
  }
}
