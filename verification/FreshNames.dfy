/** The numbered-suffix loop that both the spec loader and the catalog use to keep names
    apart: try `base_2`, `base_3`, … until one is free. */
module FreshNames {
  import Text

  function Numbered(base: string, i: nat): string {
    base + "_" + Text.Decimal(i)
  }

  lemma NumberedInjective(base: string, i: nat, j: nat)
    requires Numbered(base, i) == Numbered(base, j)
    ensures i == j
  {
    var n := |base| + 1;
    assert Numbered(base, i)[n..] == Text.Decimal(i) && Numbered(base, j)[n..] == Text.Decimal(j);
    Text.DecimalInjective(i, j);
  }

  /** The first number from `i` on whose name is not taken. */
  ghost predicate IsFirstFree(base: string, taken: set<string>, i: nat, n: nat) {
    && i <= n && Numbered(base, n) !in taken
    && forall j :: i <= j < n ==> Numbered(base, j) in taken
  }

  function FirstFree(base: string, taken: set<string>, i: nat): (n: nat)
    ensures IsFirstFree(base, taken, i, n)
    decreases |taken|
  {
    var name := Numbered(base, i);
    if name !in taken then i else
      var n := FirstFree(base, taken - {name}, i + 1);
      assert Numbered(base, n) != name by {
        if Numbered(base, n) == name { NumberedInjective(base, i, n); }
      }
      n
  }

  /** The loop itself. It ends because `taken` is finite and no two numbers share a name. */
  method FindFree(base: string, taken: set<string>, i: nat) returns (name: string)
    ensures name == Numbered(base, FirstFree(base, taken, i))
  {
    var n := i;
    ghost var last := FirstFree(base, taken, i);
    name := Numbered(base, n);
    while name in taken
      invariant n <= last && name == Numbered(base, n)
      decreases last - n
    {
      n := n + 1;
      name := Numbered(base, n);
    }
  }
}
