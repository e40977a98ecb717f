/** Exposed names and the order of upstreams (`exposed_names` in src/surface/catalog.rs): the
    tools come upstream by upstream, and the order in which upstreams come should not matter. */
module UpstreamOrder {
  import opened Arrangements
  import opened ExposedNames
  import FreshNames
  import Text

  type Listing = seq<Tool>

  /** The catalog's tools: each upstream's listing after the one before it. */
  function Flatten(listings: seq<Listing>): seq<Tool> {
    if listings == [] then [] else Flatten(listings[..|listings| - 1]) + listings[|listings| - 1]
  }

  function Names(listings: seq<Listing>): map<string, string> {
    Exposed(Flatten(listings), |Flatten(listings)|)
  }

  /** Naming one upstream's tools after others; `all` decides what each tool prefers. */
  ghost function Grow(all: seq<Tool>, start: map<string, string>, block: Listing): map<string, string> {
    if block == [] then start else
      var n := |block| - 1;
      var before := Grow(all, start, block[..n]);
      before[Given(all, block[n], before.Keys) := block[n].id]
  }

  /** The names an upstream's tools get when it comes first. */
  ghost function Alone(all: seq<Tool>, block: Listing): map<string, string> {
    Grow(all, map[], block)
  }

  /** No two upstreams would take the same name if each came first. */
  ghost predicate Apart(all: seq<Tool>, listings: seq<Listing>) {
    forall i, j :: 0 <= i < j < |listings| ==> Alone(all, listings[i]).Keys !! Alone(all, listings[j]).Keys
  }

  // ----- naming upstream by upstream -----

  lemma {:induction false} ExposedIsGrow(tools: seq<Tool>, n: nat)
    requires n <= |tools|
    ensures Exposed(tools, n) == Grow(tools, map[], tools[..n])
  {
    hide Given;
    if n > 0 {
      ExposedIsGrow(tools, n - 1);
      assert tools[..n][..n - 1] == tools[..n - 1];
    }
  }

  lemma {:induction false} GrowConcat(all: seq<Tool>, start: map<string, string>, a: Listing, b: Listing)
    ensures Grow(all, start, a + b) == Grow(all, Grow(all, start, a), b)
    decreases |b|
  {
    hide Given;
    if b == [] {
      assert a + b == a;
    } else {
      var n := |b| - 1;
      assert (a + b)[..|a| + n] == a + b[..n];
      GrowConcat(all, start, a, b[..n]);
    }
  }

  lemma {:induction false} FlattenConcat(a: seq<Listing>, b: seq<Listing>)
    ensures Flatten(a + b) == Flatten(a) + Flatten(b)
    decreases |b|
  {
    if b == [] {
      assert a + b == a;
    } else {
      var n := |b| - 1;
      assert (a + b)[..|a| + n] == a + b[..n];
      FlattenConcat(a, b[..n]);
    }
  }

  lemma {:induction false} GrowKeeps(all: seq<Tool>, start: map<string, string>, block: Listing)
    ensures forall k :: k in start ==> k in Grow(all, start, block) && Grow(all, start, block)[k] == start[k]
    decreases |block|
  {
    if block != [] {
      var n := |block| - 1;
      GrowKeeps(all, start, block[..n]);
      GivenIsNew(all, block[n], Grow(all, start, block[..n]).Keys);
    }
  }

  /** An upstream that comes first takes, or has already taken, every name its tools prefer. */
  lemma {:induction false} AlonePrefers(all: seq<Tool>, block: Listing, i: nat)
    requires i < |block|
    ensures Preferred(all, block[i]) in Alone(all, block)
    decreases |block|
  {
    hide Preferred;
    var n := |block| - 1;
    if i < n { AlonePrefers(all, block[..n], i); }
  }

  lemma {:induction false} AloneIds(all: seq<Tool>, block: Listing, k: string)
    requires k in Alone(all, block)
    ensures exists i :: 0 <= i < |block| && Alone(all, block)[k] == block[i].id
    decreases |block|
  {
    hide Given;
    var n := |block| - 1;
    if k in Alone(all, block[..n]) && k != Given(all, block[n], Alone(all, block[..n]).Keys) {
      AloneIds(all, block[..n], k);
      var i :| 0 <= i < n && Alone(all, block[..n])[k] == block[..n][i].id;
      assert Alone(all, block)[k] == block[i].id;
    }
  }

  /** A tool is answered alike whether or not unrelated names are taken. */
  lemma GivenApart(all: seq<Tool>, t: Tool, taken: set<string>, others: set<string>)
    requires Preferred(all, t) !in others && Given(all, t, taken) !in others
    ensures Given(all, t, others + taken) == Given(all, t, taken)
  {
    if Preferred(all, t) in taken {
      var base := Base(t);
      var n := FreshNames.FirstFree(base, taken, 2);
      FirstFreeIs(base, others + taken, 2, n);
    }
  }

  /** So an upstream whose own names are apart from those taken gets them. */
  lemma {:induction false} GrowApart(all: seq<Tool>, start: map<string, string>, block: Listing)
    requires start.Keys !! Alone(all, block).Keys
    ensures Grow(all, start, block) == start + Alone(all, block)
    decreases |block|
  {
    hide Given, Preferred;
    if block != [] {
      var n := |block| - 1;
      var own := Alone(all, block[..n]);
      GivenIsNew(all, block[n], own.Keys);
      AlonePrefers(all, block, n);
      GrowApart(all, start, block[..n]);
      GivenApart(all, block[n], own.Keys, start.Keys);
      assert (start + own).Keys == start.Keys + own.Keys;
    }
  }

  // ----- apart: everyone gets their own names -----

  ghost function Together(all: seq<Tool>, listings: seq<Listing>): map<string, string> {
    if listings == [] then map[] else Together(all, listings[..|listings| - 1]) + Alone(all, listings[|listings| - 1])
  }

  lemma {:induction false} TogetherHolds(all: seq<Tool>, listings: seq<Listing>)
    requires Apart(all, listings)
    ensures forall k :: k in Together(all, listings) ==> exists i :: 0 <= i < |listings| && k in Alone(all, listings[i])
    ensures forall i, k :: 0 <= i < |listings| && k in Alone(all, listings[i]) ==>
      k in Together(all, listings) && Together(all, listings)[k] == Alone(all, listings[i])[k]
    decreases |listings|
  {
    hide Alone;
    if listings != [] {
      var n := |listings| - 1;
      TogetherHolds(all, listings[..n]);
      forall k | k in Together(all, listings) ensures exists i :: 0 <= i < |listings| && k in Alone(all, listings[i]) {
        if k !in Alone(all, listings[n]) {
          assert k in Together(all, listings[..n]);
          var i :| 0 <= i < |listings[..n]| && k in Alone(all, listings[..n][i]);
          assert k in Alone(all, listings[i]);
        }
      }
      forall i, k | 0 <= i < |listings| && k in Alone(all, listings[i])
        ensures k in Together(all, listings) && Together(all, listings)[k] == Alone(all, listings[i])[k]
      {
        if i < n { assert listings[..n][i] == listings[i]; }
      }
    }
  }

  lemma {:induction false} ApartBuildsTogether(all: seq<Tool>, listings: seq<Listing>)
    requires Apart(all, listings)
    ensures Grow(all, map[], Flatten(listings)) == Together(all, listings)
    decreases |listings|
  {
    hide Alone;
    if listings != [] {
      var n := |listings| - 1;
      var front := listings[..n];
      ApartBuildsTogether(all, front);
      TogetherHolds(all, front);
      GrowConcat(all, map[], Flatten(front), listings[n]);
      forall k | k in Together(all, front) ensures k !in Alone(all, listings[n]) {
        var i :| 0 <= i < n && k in Alone(all, front[i]);
        assert listings[i] == front[i];
      }
      GrowApart(all, Together(all, front), listings[n]);
    }
  }

  // ----- other orders -----

  lemma {:induction false} FlattenRearranged(a: seq<Listing>, b: seq<Listing>)
    requires multiset(a) == multiset(b)
    ensures multiset(Flatten(a)) == multiset(Flatten(b))
    decreases |a|
  {
    if a == [] {
      assert |multiset(b)| == 0;
    } else {
      var k, b' := Matching(a, b);
      FlattenRearranged(a[1..], b');
      assert a == [a[0]] + a[1..] && b == b[..k] + ([b[k]] + b[k + 1..]);
      OneListing(a[0]);
      FlattenConcat([a[0]], a[1..]);
      FlattenConcat(b[..k], [b[k]] + b[k + 1..]);
      FlattenConcat([b[k]], b[k + 1..]);
      FlattenConcat(b[..k], b[k + 1..]);
    }
  }

  lemma OneListing(block: Listing)
    ensures Flatten([block]) == block
  {
    assert [block][..0] == [];
  }

  /** What tools prefer depends on which tools there are, not on their order. */
  lemma {:induction false} GrowIgnoresOrder(all: seq<Tool>, all': seq<Tool>, start: map<string, string>, block: Listing)
    requires multiset(all) == multiset(all')
    ensures Grow(all, start, block) == Grow(all', start, block)
    decreases |block|
  {
    if block != [] {
      GrowIgnoresOrder(all, all', start, block[..|block| - 1]);
      PreferredIgnoresOrder(all, all', block[|block| - 1]);
      hide Preferred;
    }
  }

  lemma ApartRearranged(all: seq<Tool>, a: seq<Listing>, b: seq<Listing>)
    requires multiset(a) == multiset(b) && Apart(all, a)
    ensures Apart(all, b)
  {
    hide Alone;
    forall i, j | 0 <= i < j < |b| ensures Alone(all, b[i]).Keys !! Alone(all, b[j]).Keys {
      var p, q := TwoPlaces(a, b, i, j);
      assert p < q ==> Alone(all, a[p]).Keys !! Alone(all, a[q]).Keys;
      assert q < p ==> Alone(all, a[q]).Keys !! Alone(all, a[p]).Keys;
    }
  }

  lemma TogetherWithin(all: seq<Tool>, a: seq<Listing>, b: seq<Listing>, k: string)
    requires multiset(a) == multiset(b) && Apart(all, a) && Apart(all, b) && k in Together(all, a)
    ensures k in Together(all, b) && Together(all, b)[k] == Together(all, a)[k]
  {
    hide Alone, Together, Apart;
    TogetherHolds(all, a);
    TogetherHolds(all, b);
    var i :| 0 <= i < |a| && k in Alone(all, a[i]);
    assert a[i] in multiset(b);
    var j := PlaceOf(b, a[i]);
    assert k in Alone(all, b[j]);
  }

  lemma ApartIgnoresOrder(a: seq<Listing>, b: seq<Listing>)
    requires multiset(a) == multiset(b) && Apart(Flatten(a), a)
    ensures Names(a) == Names(b)
  {
    hide *;
    var all := Flatten(a);
    FlattenRearranged(a, b);
    ApartRearranged(all, a, b);
    NamesAre(a, all);
    NamesAre(b, all);
    forall k ensures k in Together(all, a) ==> k in Together(all, b) && Together(all, b)[k] == Together(all, a)[k] {
      if k in Together(all, a) { TogetherWithin(all, a, b, k); }
    }
    forall k ensures k in Together(all, b) ==> k in Together(all, a) {
      if k in Together(all, b) { TogetherWithin(all, b, a, k); }
    }
  }

  lemma NamesAre(listings: seq<Listing>, all: seq<Tool>)
    requires multiset(Flatten(listings)) == multiset(all) && Apart(all, listings)
    ensures Names(listings) == Together(all, listings)
  {
    var tools := Flatten(listings);
    ExposedIsGrow(tools, |tools|);
    assert tools[..|tools|] == tools;
    GrowIgnoresOrder(tools, all, map[], tools);
    ApartBuildsTogether(all, listings);
    hide *;
  }

  /** The upstream that comes first keeps the names it gets alone. */
  lemma FirstKeepsItsNames(listings: seq<Listing>, all: seq<Tool>, k: string)
    requires listings != [] && multiset(Flatten(listings)) == multiset(all) && k in Alone(all, listings[0])
    ensures k in Names(listings) && Names(listings)[k] == Alone(all, listings[0])[k]
  {
    var tools := Flatten(listings);
    ExposedIsGrow(tools, |tools|);
    assert tools[..|tools|] == tools;
    GrowIgnoresOrder(tools, all, map[], tools);
    assert listings == [listings[0]] + listings[1..];
    OneListing(listings[0]);
    FlattenConcat([listings[0]], listings[1..]);
    GrowConcat(all, map[], listings[0], Flatten(listings[1..]));
    GrowKeeps(all, Alone(all, listings[0]), Flatten(listings[1..]));
  }

  /** Tools of different upstreams have different ids. */
  ghost predicate IdsApart(listings: seq<Listing>) {
    forall i, j, p, q :: 0 <= i < j < |listings| && 0 <= p < |listings[i]| && 0 <= q < |listings[j]| ==>
      listings[i][p].id != listings[j][q].id
  }

  /** The exposed names are the same in every order of the upstreams exactly when no two
      upstreams would take the same name if each came first. */
  lemma UpstreamOrderIff(listings: seq<Listing>)
    requires IdsApart(listings)
    ensures Apart(Flatten(listings), listings) <==>
      forall other :: multiset(other) == multiset(listings) ==> Names(other) == Names(listings)
  {
    var all := Flatten(listings);
    if Apart(all, listings) {
      forall other | multiset(other) == multiset(listings) ensures Names(other) == Names(listings) {
        ApartIgnoresOrder(listings, other);
      }
    } else {
      hide Alone, Names, Flatten;
      var i, j :| 0 <= i < j < |listings| && !(Alone(all, listings[i]).Keys !! Alone(all, listings[j]).Keys);
      var k :| k in Alone(all, listings[i]).Keys && k in Alone(all, listings[j]).Keys;
      TwoOrdersDiffer(listings, i, j, k);
    }
  }

  lemma TwoOrdersDiffer(listings: seq<Listing>, i: nat, j: nat, k: string)
    requires IdsApart(listings) && i < j < |listings|
    requires k in Alone(Flatten(listings), listings[i]) && k in Alone(Flatten(listings), listings[j])
    ensures multiset(ToFront(listings, i)) == multiset(ToFront(listings, j)) == multiset(listings)
    ensures Names(ToFront(listings, i)) != Names(ToFront(listings, j))
  {
    var all, a, b := Flatten(listings), ToFront(listings, i), ToFront(listings, j);
    ToFrontRearranges(listings, i);
    ToFrontRearranges(listings, j);
    FlattenRearranged(a, listings);
    FlattenRearranged(b, listings);
    FirstKeepsItsNames(a, all, k);
    FirstKeepsItsNames(b, all, k);
    AloneIds(all, listings[i], k);
    AloneIds(all, listings[j], k);
    hide *;
    var p :| 0 <= p < |listings[i]| && Alone(all, listings[i])[k] == listings[i][p].id;
    var q :| 0 <= q < |listings[j]| && Alone(all, listings[j])[k] == listings[j][q].id;
    IdsDiffer(listings, i, j, p, q);
  }

  lemma IdsDiffer(listings: seq<Listing>, i: nat, j: nat, p: nat, q: nat)
    requires IdsApart(listings) && i < j < |listings| && p < |listings[i]| && q < |listings[j]|
    ensures listings[i][p].id != listings[j][q].id
  {}

  // ----- which names those are -----

  /** The i-th tool's preferred name, or, when tools of its own upstream have taken that, a
      numbered one. */
  ghost predicate IsNameFor(all: seq<Tool>, block: Listing, i: nat, k: string)
    requires i < |block|
  {
    k == Preferred(all, block[i]) || (Preferred(all, block[i]) in Alone(all, block[..i]) && IsNumbered(Base(block[i]), k))
  }

  ghost predicate IsNumbered(base: string, k: string) {
    exists n :: n >= 2 && k == FreshNames.Numbered(base, n)
  }

  lemma GivenIs(all: seq<Tool>, t: Tool, taken: set<string>)
    ensures var k := Given(all, t, taken); k == Preferred(all, t) || (Preferred(all, t) in taken && IsNumbered(Base(t), k))
  {
    var n := FreshNames.FirstFree(Base(t), taken, 2);
    assert n >= 2 && IsNumbered(Base(t), FreshNames.Numbered(Base(t), n));
  }

  /** Alone, an upstream takes what its tools prefer, and beyond that only numbered names for
      those of its tools that another of its own beat to their preferred one. */
  lemma {:induction false} AloneNames(all: seq<Tool>, block: Listing, k: string)
    requires k in Alone(all, block)
    ensures exists i :: 0 <= i < |block| && IsNameFor(all, block, i, k)
    decreases |block|
  {
    hide Preferred, Given, IsNumbered;
    var n := |block| - 1;
    var before := Alone(all, block[..n]);
    if k in before {
      AloneNames(all, block[..n], k);
      var i :| 0 <= i < n && IsNameFor(all, block[..n], i, k);
      assert block[..n][i] == block[i] && block[..n][..i] == block[..i];
      assert IsNameFor(all, block, i, k);
    } else {
      GivenIs(all, block[n], before.Keys);
      assert IsNameFor(all, block, n, k);
    }
  }

  /** No tool of the upstream prefers what another of its own does. */
  ghost predicate DistinctWithin(all: seq<Tool>, block: Listing) {
    forall i, j :: 0 <= i < j < |block| ==> Preferred(all, block[i]) != Preferred(all, block[j])
  }

  lemma {:induction false} AloneIsPreferred(all: seq<Tool>, block: Listing, k: string)
    requires DistinctWithin(all, block)
    ensures k in Alone(all, block) <==> exists i :: 0 <= i < |block| && k == Preferred(all, block[i])
    decreases |block|
  {
    hide Preferred, Base, FreshNames.Numbered;
    if block != [] {
      var n := |block| - 1;
      AloneIsPreferred(all, block[..n], k);
      AloneIsPreferred(all, block[..n], Preferred(all, block[n]));
      assert forall i :: 0 <= i < n ==> block[..n][i] == block[i];
      assert forall i :: 0 <= i < n ==> Preferred(all, block[i]) != Preferred(all, block[n]);
    }
  }

  /** Two tools of different upstreams prefer the same name. */
  ghost predicate PreferencesMeet(listings: seq<Listing>) {
    exists i, j, p, q :: 0 <= i < j < |listings| && 0 <= p < |listings[i]| && 0 <= q < |listings[j]|
      && Preferred(Flatten(listings), listings[i][p]) == Preferred(Flatten(listings), listings[j][q])
  }

  /** Read off the tools: a preference shared by two upstreams always makes the order matter,
      and where no upstream has two tools of the same preference, nothing else does. */
  lemma SharedPreferenceMatters(listings: seq<Listing>)
    requires IdsApart(listings)
    ensures PreferencesMeet(listings) ==>
      exists other :: multiset(other) == multiset(listings) && Names(other) != Names(listings)
    ensures (forall i :: 0 <= i < |listings| ==> DistinctWithin(Flatten(listings), listings[i])) ==>
      (PreferencesMeet(listings) <==>
       exists other :: multiset(other) == multiset(listings) && Names(other) != Names(listings))
  {
    var all := Flatten(listings);
    UpstreamOrderIff(listings);
    hide Alone, Names, Flatten, Preferred;
    if PreferencesMeet(listings) {
      var i, j, p, q :| 0 <= i < j < |listings| && 0 <= p < |listings[i]| && 0 <= q < |listings[j]|
        && Preferred(all, listings[i][p]) == Preferred(all, listings[j][q]);
      AlonePrefers(all, listings[i], p);
      AlonePrefers(all, listings[j], q);
      assert !(Alone(all, listings[i]).Keys !! Alone(all, listings[j]).Keys);
    } else if forall i :: 0 <= i < |listings| ==> DistinctWithin(all, listings[i]) {
      forall i, j | 0 <= i < j < |listings| ensures Alone(all, listings[i]).Keys !! Alone(all, listings[j]).Keys {
        forall k | k in Alone(all, listings[i]).Keys ensures k !in Alone(all, listings[j]).Keys {
          AloneIsPreferred(all, listings[i], k);
          AloneIsPreferred(all, listings[j], k);
        }
      }
      assert Apart(all, listings);
    }
  }

  // ----- two upstreams whose order matters -----

  const A: Listing := [Tool("a.t", "t")]
  const B: Listing := [Tool("b.t", "t"), Tool("b.a_t", "a_t")]

  /** Upstream a's `t` and upstream b's `a_t` both prefer `a_t`: the first because b has a `t`
      too, the second because it is called so. So the order of a and b decides who gets it. */
  lemma TwoUpstreamsWhoseOrderMatters()
    ensures Preferred(Flatten([A, B]), A[0]) == Preferred(Flatten([A, B]), B[1]) == "a_t"
    ensures !PreferencesDistinct(Flatten([A, B]))
    ensures Names([A, B]) != Names([B, A])
  {
    TwoListings(A, B);
    var tools := A + B;
    assert tools == [A[0], B[0], B[1]];
    CleanedNames();
    assert Uses(tools, "t") == 2 && Uses(tools, "a_t") == 1 by {
      assert tools[1..] == [B[0], B[1]] && tools[1..][1..] == [B[1]] && tools[1..][1..][1..] == [];
    }
    assert Preferred(tools, A[0]) == Preferred(tools, B[1]) == "a_t";
    assert tools[0] == A[0] && tools[2] == B[1];
    hide *;
    PreferenceDecides();
  }

  lemma TwoListings(a: Listing, b: Listing)
    ensures Flatten([a, b]) == a + b
  {
    OneListing(a);
    assert [a, b][..1] == [a];
  }

  lemma CleanedNames()
    ensures Sanitize("t", 0) == "t" && Sanitize("a_t", 0) == "a_t" && Sanitize("a.t", 0) == "a_t"
  {
    SanitizeIs("t", 0, "t");
    SanitizeIs("a_t", 0, "a_t");
    SanitizeIs("a.t", 0, "a_t");
  }

  lemma PreferenceDecides()
    requires Preferred(Flatten([A, B]), A[0]) == Preferred(Flatten([A, B]), B[1])
    ensures Names([A, B]) != Names([B, A])
  {
    var all := Flatten([A, B]);
    AlonePrefers(all, A, 0);
    AlonePrefers(all, B, 1);
    hide Preferred, Names, Flatten, Alone;
    var k := Preferred(all, A[0]);
    assert ToFront([A, B], 0) == [A, B] && ToFront([A, B], 1) == [B, A];
    TwoOrdersDiffer([A, B], 0, 1, k);
  }
}
