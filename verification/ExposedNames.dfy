/** Passthrough tool names (`exposed_names` in src/surface/catalog.rs, `sanitize_name` in
    src/surface/ids.rs): one MCP name for each tool. */
module ExposedNames {
  import opened Arrangements
  import opened Json
  import FreshNames
  import Text

  const MAX_NAME_LEN: nat := 64

  datatype Tool = Tool(id: string, name: string)

  predicate Allowed(c: char) {
    'a' <= c <= 'z' || 'A' <= c <= 'Z' || '0' <= c <= '9' || c == '_' || c == '-'
  }

  predicate AllAllowed(s: string) {
    forall i :: 0 <= i < |s| ==> Allowed(s[i])
  }

  /** Other characters become underscores; `reserve` characters are kept free at the end. */
  function Sanitize(s: string, reserve: nat): (r: string)
    ensures AllAllowed(r) && |r| <= MAX_NAME_LEN
    ensures reserve <= MAX_NAME_LEN ==> |r| <= MAX_NAME_LEN - reserve
  {
    var n := if reserve <= MAX_NAME_LEN then MAX_NAME_LEN - reserve else 0;
    var cut := if |s| <= n then s else s[..n];
    seq(|cut|, i requires 0 <= i < |cut| => if Allowed(cut[i]) then cut[i] else '_')
  }

  function Bare(t: Tool): string { Sanitize(t.name, 0) }

  /** How many tools share a bare name. */
  function Uses(tools: seq<Tool>, bare: string): nat {
    if tools == [] then 0 else Uses(tools[1..], bare) + if Bare(tools[0]) == bare then 1 else 0
  }

  /** The name a tool should have: its own, or the prefixed id where its own is shared. */
  function Preferred(tools: seq<Tool>, t: Tool): string {
    if Uses(tools, Bare(t)) == 1 then Bare(t) else Sanitize(t.id, 0)
  }

  /** The name it gets, given the names already out. */
  function Given(tools: seq<Tool>, t: Tool, taken: set<string>): string {
    var name := Preferred(tools, t);
    if name !in taken then name else
      var base := Sanitize(t.id, 4);
      FreshNames.Numbered(base, FreshNames.FirstFree(base, taken, 2))
  }

  /** The names after the first n tools. */
  function Exposed(tools: seq<Tool>, n: nat): map<string, string>
    requires n <= |tools|
  {
    if n == 0 then map[] else
      var before := Exposed(tools, n - 1);
      before[Given(tools, tools[n - 1], before.Keys) := tools[n - 1].id]
  }

  /** The name of the i-th tool. */
  function NameAt(tools: seq<Tool>, i: nat): string
    requires i < |tools|
  {
    Given(tools, tools[i], Exposed(tools, i).Keys)
  }

  /** Counts the bare names, then names the tools in turn. In three-tool mode no tool is
      exposed by name. */
  method ExposedNames(passthrough: bool, tools: seq<Tool>) returns (exposed: map<string, string>)
    ensures exposed == if passthrough then Exposed(tools, |tools|) else map[]
  {
    hide Sanitize;
    exposed := map[];
    if !passthrough { return; }
    var uses: map<string, nat> := map[];
    assert tools[|tools|..] == [];
    for i := |tools| downto 0
      invariant forall bare :: (if bare in uses then uses[bare] else 0) == Uses(tools[i..], bare)
    {
      var bare := Bare(tools[i]);
      assert tools[i..][0] == tools[i] && tools[i..][1..] == tools[i + 1..];
      uses := uses[bare := (if bare in uses then uses[bare] else 0) + 1];
    }
    assert tools[0..] == tools;
    for i := 0 to |tools|
      invariant exposed == Exposed(tools, i)
    {
      var t := tools[i];
      var name := if Bare(t) in uses && uses[Bare(t)] == 1 then Bare(t) else Sanitize(t.id, 0);
      if name in exposed {
        name := FreshNames.FindFree(Sanitize(t.id, 4), exposed.Keys, 2);
      }
      exposed := exposed[name := t.id];
    }
  }

  lemma {:induction false} NamesAreKept(tools: seq<Tool>, n: nat, m: nat)
    requires n <= m <= |tools|
    ensures forall k :: k in Exposed(tools, n) ==> k in Exposed(tools, m) && Exposed(tools, m)[k] == Exposed(tools, n)[k]
    decreases m
  {
    if n < m {
      NamesAreKept(tools, n, m - 1);
      GivenIsNew(tools, tools[m - 1], Exposed(tools, m - 1).Keys);
    }
  }

  /** A tool's name leads back to it … */
  lemma NameLeadsBack(tools: seq<Tool>, i: nat, n: nat)
    requires i < n <= |tools|
    ensures NameAt(tools, i) in Exposed(tools, n) && Exposed(tools, n)[NameAt(tools, i)] == tools[i].id
  {
    hide Given;
    assert NameAt(tools, i) in Exposed(tools, i + 1);
    NamesAreKept(tools, i + 1, n);
  }

  /** … and is nobody else's. */
  lemma NamesDiffer(tools: seq<Tool>, i: nat, j: nat)
    requires i < j < |tools|
    ensures NameAt(tools, i) != NameAt(tools, j)
  {
    NameLeadsBack(tools, i, j);
    GivenIsNew(tools, tools[j], Exposed(tools, j).Keys);
  }

  lemma {:induction false} ExposedSize(tools: seq<Tool>, n: nat)
    requires n <= |tools|
    ensures |Exposed(tools, n)| == n
  {
    hide Given;
    if n > 0 {
      ExposedSize(tools, n - 1);
      GivenIsNew(tools, tools[n - 1], Exposed(tools, n - 1).Keys);
    }
  }

  lemma GivenIsNew(tools: seq<Tool>, t: Tool, taken: set<string>)
    ensures Given(tools, t, taken) !in taken
  {}

  // ----- length -----

  lemma {:induction false} FirstFreeIsNear(base: string, taken: set<string>, i: nat)
    ensures FreshNames.FirstFree(base, taken, i) <= i + |taken|
    decreases |taken|
  {
    var name := FreshNames.Numbered(base, i);
    if name in taken { FirstFreeIsNear(base, taken - {name}, i + 1); }
  }

  ghost function Pow10(d: nat): (p: nat)
    ensures p >= 1
  {
    if d == 0 then 1 else 10 * Pow10(d - 1)
  }

  /** A number has at most `d` digits exactly when it is below ten to the `d`. */
  lemma {:induction false} NumeralFits(n: nat, d: nat)
    requires d >= 1
    ensures |Text.Decimal(n)| <= d <==> n < Pow10(d)
  {
    if n >= 10 {
      if d == 1 {
        assert Text.Decimal(n / 10) != [];
      } else {
        NumeralFits(n / 10, d - 1);
      }
    }
  }

  /** The part of an id that a numbered name keeps. */
  function Base(t: Tool): (base: string)
    ensures |base| <= MAX_NAME_LEN - 4
  {
    Sanitize(t.id, 4)
  }

  /** The suffixes `_2`, `_3`, … after a base stay within the limit below this one. */
  ghost function SuffixLimit(base: string): (limit: nat)
    requires |base| <= MAX_NAME_LEN - 4
    ensures limit >= 1000
  {
    PowGrows(3, MAX_NAME_LEN - 1 - |base|);
    Pow10(MAX_NAME_LEN - 1 - |base|)
  }

  lemma {:induction false} PowGrows(d: nat, e: nat)
    requires d <= e
    ensures Pow10(d) <= Pow10(e) && Pow10(3) == 1000
    decreases e
  {
    assert Pow10(1) == 10 && Pow10(2) == 100;
    if d < e { PowGrows(d, e - 1); }
  }

  lemma NumberedFits(base: string, n: nat)
    requires |base| <= MAX_NAME_LEN - 4
    ensures |FreshNames.Numbered(base, n)| <= MAX_NAME_LEN <==> n < SuffixLimit(base)
  {
    NumeralFits(n, MAX_NAME_LEN - 1 - |base|);
  }

  /** A name keeps to the limit exactly when the preferred one is free or some suffix that
      fits is. */
  lemma NameFitsIff(tools: seq<Tool>, t: Tool, taken: set<string>)
    ensures |Given(tools, t, taken)| <= MAX_NAME_LEN <==>
      Preferred(tools, t) !in taken
      || exists n :: 2 <= n < SuffixLimit(Base(t)) && FreshNames.Numbered(Base(t), n) !in taken
    ensures AllAllowed(Given(tools, t, taken))
  {
    var base := Base(t);
    var n := FreshNames.FirstFree(base, taken, 2);
    NumberedFits(base, n);
    hide SuffixLimit;
    if n < SuffixLimit(base) { assert FreshNames.Numbered(base, n) !in taken; }
    assert forall c :: Text.IsDigit(c) ==> Allowed(c);
  }

  // ----- length, over a whole list of tools -----

  /** A name made of this base and a suffix that fits. */
  ghost predicate Blocks(base: string, name: string)
    requires |base| <= MAX_NAME_LEN - 4
  {
    exists n :: 2 <= n < SuffixLimit(base) && name == FreshNames.Numbered(base, n)
  }

  /** How many of the first `i` tools hold a name of this base and a suffix that fits. */
  ghost function Blockers(tools: seq<Tool>, i: nat, base: string): nat
    requires i <= |tools| && |base| <= MAX_NAME_LEN - 4
  {
    if i == 0 then 0 else Blockers(tools, i - 1, base) + if Blocks(base, NameAt(tools, i - 1)) then 1 else 0
  }

  ghost function Suffixed(base: string, limit: nat): set<string> {
    set n | 2 <= n < limit :: FreshNames.Numbered(base, n)
  }

  lemma SuffixedBlocks(base: string, name: string)
    requires |base| <= MAX_NAME_LEN - 4
    ensures name in Suffixed(base, SuffixLimit(base)) <==> Blocks(base, name)
  {
    hide SuffixLimit, FreshNames.Numbered;
  }

  lemma {:induction false} SuffixedSize(base: string, limit: nat)
    requires limit >= 2
    ensures |Suffixed(base, limit)| == limit - 2
  {
    if limit > 2 {
      var name := FreshNames.Numbered(base, limit - 1);
      SuffixedSize(base, limit - 1);
      assert Suffixed(base, limit) == Suffixed(base, limit - 1) + {name};
      if name in Suffixed(base, limit - 1) {
        var n :| 2 <= n < limit - 1 && name == FreshNames.Numbered(base, n);
        FreshNames.NumberedInjective(base, n, limit - 1);
      }
    } else {
      assert Suffixed(base, limit) == {};
    }
  }

  /** The blocking names among those given are as many as the tools that hold them. */
  lemma {:induction false} BlockersCount(tools: seq<Tool>, i: nat, base: string)
    requires i <= |tools| && |base| <= MAX_NAME_LEN - 4
    ensures |Exposed(tools, i).Keys * Suffixed(base, SuffixLimit(base))| == Blockers(tools, i, base)
  {
    hide Exposed, Suffixed, SuffixLimit, NameAt, Blocks;
    if i == 0 {
      NobodyBlocks(tools, Suffixed(base, SuffixLimit(base)));
    } else {
      BlockersCount(tools, i - 1, base);
      OneMoreBlocks(tools, i, base);
    }
  }

  lemma NobodyBlocks(tools: seq<Tool>, all: set<string>)
    ensures Exposed(tools, 0).Keys * all == {}
  {}

  lemma OneMoreBlocks(tools: seq<Tool>, i: nat, base: string)
    requires 0 < i <= |tools| && |base| <= MAX_NAME_LEN - 4
    ensures var all := Suffixed(base, SuffixLimit(base));
      |Exposed(tools, i).Keys * all| == |Exposed(tools, i - 1).Keys * all| + if Blocks(base, NameAt(tools, i - 1)) then 1 else 0
  {
    hide *;
    KeysGrow(tools, i);
    SuffixedBlocks(base, NameAt(tools, i - 1));
    OneMore(Exposed(tools, i - 1).Keys, NameAt(tools, i - 1), Suffixed(base, SuffixLimit(base)));
  }

  lemma KeysGrow(tools: seq<Tool>, i: nat)
    requires 0 < i <= |tools|
    ensures Exposed(tools, i).Keys == Exposed(tools, i - 1).Keys + {NameAt(tools, i - 1)}
    ensures NameAt(tools, i - 1) !in Exposed(tools, i - 1).Keys
  {
    GivenIsNew(tools, tools[i - 1], Exposed(tools, i - 1).Keys);
    hide Given;
  }

  lemma OneMore(names: set<string>, name: string, all: set<string>)
    requires name !in names
    ensures |(names + {name}) * all| == |names * all| + if name in all then 1 else 0
  {
    if name in all {
      assert (names + {name}) * all == names * all + {name};
    } else {
      assert (names + {name}) * all == names * all;
    }
  }

  lemma AllBlockedIff(tools: seq<Tool>, i: nat, base: string)
    requires i <= |tools| && |base| <= MAX_NAME_LEN - 4
    ensures (forall n :: 2 <= n < SuffixLimit(base) ==> FreshNames.Numbered(base, n) in Exposed(tools, i))
      <==> Blockers(tools, i, base) == SuffixLimit(base) - 2
    ensures Blockers(tools, i, base) <= SuffixLimit(base) - 2
  {
    var names, all := Exposed(tools, i).Keys, Suffixed(base, SuffixLimit(base));
    BlockersCount(tools, i, base);
    SuffixedSize(base, SuffixLimit(base));
    SubsetSize(names * all, all);
    hide Exposed, Blockers, SuffixLimit, FreshNames.Numbered;
    assert names * all == all <==> forall k :: k in all ==> k in names;
    assert forall n :: 2 <= n < SuffixLimit(base) ==> FreshNames.Numbered(base, n) in all;
  }

  lemma SubsetSize(a: set<string>, b: set<string>)
    requires a <= b
    ensures |a| <= |b| && (|a| == |b| <==> a == b)
  {
    assert b == a + (b - a);
  }

  /** For every list of tools: all names keep to the limit exactly when each tool either finds
      its preferred name free or comes after fewer tools that block a suffix of its base than
      there are suffixes that fit, 998 where the base has its full sixty characters. */
  lemma NamesFitIff(tools: seq<Tool>)
    ensures (forall i :: 0 <= i < |tools| ==> |NameAt(tools, i)| <= MAX_NAME_LEN) <==>
      forall i :: 0 <= i < |tools| ==>
        (Preferred(tools, tools[i]) !in Exposed(tools, i) || Blockers(tools, i, Base(tools[i])) < SuffixLimit(Base(tools[i])) - 2)
    ensures forall base :: |base| == 60 ==> SuffixLimit(base) - 2 == 998
  {
    hide Blockers, Exposed, Preferred, Given, SuffixLimit, Base;
    forall i | 0 <= i < |tools|
      ensures |NameAt(tools, i)| <= MAX_NAME_LEN <==>
        (Preferred(tools, tools[i]) !in Exposed(tools, i) || Blockers(tools, i, Base(tools[i])) < SuffixLimit(Base(tools[i])) - 2)
    {
      OneNameFitsIff(tools, i);
    }
    forall base | |base| == 60 ensures SuffixLimit(base) == 1000 { FullBase(base); }
  }

  lemma FullBase(base: string)
    requires |base| == 60
    ensures SuffixLimit(base) == 1000
  {
    PowGrows(3, 3);
  }

  lemma OneNameFitsIff(tools: seq<Tool>, i: nat)
    requires i < |tools|
    ensures |NameAt(tools, i)| <= MAX_NAME_LEN <==>
      (Preferred(tools, tools[i]) !in Exposed(tools, i) || Blockers(tools, i, Base(tools[i])) < SuffixLimit(Base(tools[i])) - 2)
  {
    NameFitsIff(tools, tools[i], Exposed(tools, i).Keys);
    AllBlockedIff(tools, i, Base(tools[i]));
    hide Blockers, Exposed, Preferred, Given, SuffixLimit, Base;
  }

  /** Fewer than a thousand tools cannot come to that. */
  lemma NamesFitFewTools(tools: seq<Tool>, i: nat)
    requires i < |tools| <= 998
    ensures |NameAt(tools, i)| <= MAX_NAME_LEN && AllAllowed(NameAt(tools, i))
  {
    BlockersFew(tools, i, Base(tools[i]));
    OneNameFitsIff(tools, i);
    NameFitsIff(tools, tools[i], Exposed(tools, i).Keys);
    hide Blockers, Exposed, Given;
  }

  lemma {:induction false} BlockersFew(tools: seq<Tool>, i: nat, base: string)
    requires i <= |tools| && |base| <= MAX_NAME_LEN - 4
    ensures Blockers(tools, i, base) <= i
  {
    if i > 0 { BlockersFew(tools, i - 1, base); }
  }

  // ----- the same, read off the tools alone -----

  /** No tool prefers a name that looks numbered for some tool. */
  ghost predicate NoSuffixPreferred(tools: seq<Tool>) {
    forall t, u, n :: t in tools && u in tools && n >= 2 ==> Preferred(tools, t) != FreshNames.Numbered(Base(u), n)
  }

  /** An earlier tool prefers the same name. */
  ghost predicate Repeated(tools: seq<Tool>, i: nat)
    requires i < |tools|
  {
    exists j :: 0 <= j < i && Preferred(tools, tools[j]) == Preferred(tools, tools[i])
  }

  /** How many of the first `i` tools share this base and repeat an earlier preference. */
  ghost function Repeats(tools: seq<Tool>, i: nat, base: string): nat
    requires i <= |tools|
  {
    if i == 0 then 0
    else Repeats(tools, i - 1, base) + if Base(tools[i - 1]) == base && Repeated(tools, i - 1) then 1 else 0
  }

  /** The names given so far: the preferred ones, and for each base the first numbers. */
  ghost predicate InTurn(tools: seq<Tool>, i: nat)
    requires i <= |tools|
  {
    && (forall j :: 0 <= j < |tools| ==> (Preferred(tools, tools[j]) in Exposed(tools, i) <==> PreferredBefore(tools, i, j)))
    && (forall u, n :: u in tools && n >= 2 ==>
          (FreshNames.Numbered(Base(u), n) in Exposed(tools, i) <==> n < 2 + Repeats(tools, i, Base(u))))
  }

  ghost predicate PreferredBefore(tools: seq<Tool>, i: nat, j: nat)
    requires i <= |tools| && j < |tools|
  {
    exists k :: 0 <= k < i && Preferred(tools, tools[k]) == Preferred(tools, tools[j])
  }

  lemma FirstFreeIs(base: string, taken: set<string>, i: nat, n: nat)
    requires FreshNames.IsFirstFree(base, taken, i, n)
    ensures FreshNames.FirstFree(base, taken, i) == n
  {
    var m := FreshNames.FirstFree(base, taken, i);
    assert FreshNames.IsFirstFree(base, taken, i, m);
  }

  /** Where no preference looks numbered, a repeated one is answered with the next number. */
  lemma NextInTurn(tools: seq<Tool>, i: nat)
    requires i < |tools| && NoSuffixPreferred(tools) && InTurn(tools, i)
    ensures Preferred(tools, tools[i]) in Exposed(tools, i) <==> Repeated(tools, i)
    ensures var t := tools[i];
      NameAt(tools, i) == if Repeated(tools, i) then FreshNames.Numbered(Base(t), 2 + Repeats(tools, i, Base(t))) else Preferred(tools, t)
  {
    hide Preferred, Exposed, Repeats;
    var t := tools[i];
    assert PreferredBefore(tools, i, i) <==> Repeated(tools, i);
    FirstFreeIs(Base(t), Exposed(tools, i).Keys, 2, 2 + Repeats(tools, i, Base(t)));
  }

  lemma {:induction false} NumberedInTurn(tools: seq<Tool>, i: nat)
    requires i <= |tools| && NoSuffixPreferred(tools)
    ensures InTurn(tools, i)
  {
    hide *;
    if i == 0 {
      NothingGiven(tools);
    } else {
      NumberedInTurn(tools, i - 1);
      NextInTurn(tools, i - 1);
      StepInTurn(tools, i);
    }
  }

  lemma NothingGiven(tools: seq<Tool>)
    ensures InTurn(tools, 0)
  {
    hide Preferred, Base, FreshNames.Numbered;
  }

  lemma StepInTurn(tools: seq<Tool>, i: nat)
    requires 0 < i <= |tools| && NoSuffixPreferred(tools) && InTurn(tools, i - 1)
    requires var t := tools[i - 1];
      NameAt(tools, i - 1) ==
        if Repeated(tools, i - 1) then FreshNames.Numbered(Base(t), 2 + Repeats(tools, i - 1, Base(t))) else Preferred(tools, t)
    ensures InTurn(tools, i)
  {
    KeysGrow(tools, i);
    hide Preferred, Exposed, Given, NameAt, Base, NoSuffixPreferred, Repeats, PreferredBefore, Repeated;
    forall j | 0 <= j < |tools|
      ensures Preferred(tools, tools[j]) in Exposed(tools, i) <==> PreferredBefore(tools, i, j)
    {
      PreferredStep(tools, i, j);
    }
    forall u, n | u in tools && n >= 2
      ensures FreshNames.Numbered(Base(u), n) in Exposed(tools, i) <==> n < 2 + Repeats(tools, i, Base(u))
    {
      NumberStep(tools, i, u, n);
    }
  }

  lemma PreferredStep(tools: seq<Tool>, i: nat, j: nat)
    requires 0 < i <= |tools| && j < |tools| && NoSuffixPreferred(tools)
    requires var t := tools[i - 1];
      NameAt(tools, i - 1) ==
        if Repeated(tools, i - 1) then FreshNames.Numbered(Base(t), 2 + Repeats(tools, i - 1, Base(t))) else Preferred(tools, t)
    ensures PreferredBefore(tools, i, j) <==>
      PreferredBefore(tools, i - 1, j) || Preferred(tools, tools[j]) == NameAt(tools, i - 1)
  {
    hide Preferred, Exposed, Given, NameAt, Base, Repeats;
    var t := tools[i - 1];
    assert tools[j] in tools && t in tools;
    if Repeated(tools, i - 1) && Preferred(tools, t) == Preferred(tools, tools[j]) {
      assert PreferredBefore(tools, i - 1, j);
    }
  }

  lemma NumberStep(tools: seq<Tool>, i: nat, u: Tool, n: nat)
    requires 0 < i <= |tools| && u in tools && n >= 2 && NoSuffixPreferred(tools)
    requires var t := tools[i - 1];
      NameAt(tools, i - 1) ==
        if Repeated(tools, i - 1) then FreshNames.Numbered(Base(t), 2 + Repeats(tools, i - 1, Base(t))) else Preferred(tools, t)
    ensures n < 2 + Repeats(tools, i, Base(u)) <==>
      n < 2 + Repeats(tools, i - 1, Base(u)) || FreshNames.Numbered(Base(u), n) == NameAt(tools, i - 1)
  {
    hide Preferred, Exposed, Given, NameAt, Base, Repeated, FreshNames.Numbered;
    var t := tools[i - 1];
    assert t in tools;
    if Repeated(tools, i - 1) && FreshNames.Numbered(Base(u), n) == NameAt(tools, i - 1) {
      NumberedApart(Base(u), n, Base(t), 2 + Repeats(tools, i - 1, Base(t)));
    }
  }

  /** A numbered name tells its base and its number. */
  lemma NumberedApart(a: string, m: nat, b: string, n: nat)
    requires FreshNames.Numbered(a, m) == FreshNames.Numbered(b, n)
    ensures a == b && m == n
  {
    var d, e := Text.Decimal(m), Text.Decimal(n);
    var s := FreshNames.Numbered(a, m);
    assert s[|a|] == '_' && s[|b|] == '_' && !Text.IsDigit('_');
    assert forall i :: |a| < i < |s| ==> s[i] == d[i - |a| - 1];
    assert forall i :: |b| < i < |s| ==> s[i] == e[i - |b| - 1];
    assert |a| == |b|;
    assert s[..|a|] == a && s[..|b|] == b;
    FreshNames.NumberedInjective(a, m, n);
  }

  /** So where no preference looks numbered, all names keep to the limit exactly when each
      repeated preference comes after few enough others with its base, 998 for a full one. */
  lemma NamesFitIffFewRepeats(tools: seq<Tool>)
    requires NoSuffixPreferred(tools)
    ensures (forall i :: 0 <= i < |tools| ==> |NameAt(tools, i)| <= MAX_NAME_LEN) <==>
      forall i :: 0 <= i < |tools| && Repeated(tools, i) ==> Repeats(tools, i, Base(tools[i])) < SuffixLimit(Base(tools[i])) - 2
  {
    hide *;
    forall i | 0 <= i < |tools|
      ensures |NameAt(tools, i)| <= MAX_NAME_LEN <==>
        (Repeated(tools, i) ==> Repeats(tools, i, Base(tools[i])) < SuffixLimit(Base(tools[i])) - 2)
    {
      RepeatFitsIff(tools, i);
    }
  }

  lemma RepeatFitsIff(tools: seq<Tool>, i: nat)
    requires i < |tools| && NoSuffixPreferred(tools)
    ensures |NameAt(tools, i)| <= MAX_NAME_LEN <==>
      (Repeated(tools, i) ==> Repeats(tools, i, Base(tools[i])) < SuffixLimit(Base(tools[i])) - 2)
  {
    hide *;
    NumberedInTurn(tools, i);
    NextInTurn(tools, i);
    NumberedFits(Base(tools[i]), 2 + Repeats(tools, i, Base(tools[i])));
    PreferredFits(tools, tools[i]);
  }

  lemma PreferredFits(tools: seq<Tool>, t: Tool)
    ensures |Preferred(tools, t)| <= MAX_NAME_LEN
  {}

  // ----- a list that does not fit -----

  const BODY_LENGTH: nat := 57

  function Xs(n: nat): (xs: string)
    ensures |xs| == n && forall k :: 0 <= k < n ==> xs[k] == 'x'
  {
    if n == 0 then "" else "x" + Xs(n - 1)
  }

  /** One upstream's tools whose names differ in a single character MCP does not allow. */
  function CrowdName(i: nat): string
    requires i < 999
  {
    [(256 + i) as char] + Xs(BODY_LENGTH) + "_2"
  }

  function CrowdTool(i: nat): Tool
    requires i < 999
  {
    Tool("u." + CrowdName(i), CrowdName(i))
  }

  function Crowd(): seq<Tool> {
    seq(999, i requires 0 <= i < 999 => CrowdTool(i))
  }

  function CrowdBase(): string {
    "u__" + Xs(BODY_LENGTH)
  }

  function Cleaned(c: char): char { if Allowed(c) then c else '_' }

  lemma SanitizeIs(s: string, reserve: nat, r: string)
    requires |s| <= MAX_NAME_LEN && reserve <= MAX_NAME_LEN && |r| == (if |s| <= MAX_NAME_LEN - reserve then |s| else MAX_NAME_LEN - reserve)
    requires forall k :: 0 <= k < |r| ==> r[k] == Cleaned(s[k])
    ensures Sanitize(s, reserve) == r
  {}

  lemma CrowdCleaned(i: nat)
    requires i < 999
    ensures Bare(CrowdTool(i)) == "_" + Xs(BODY_LENGTH) + "_2"
    ensures Base(CrowdTool(i)) == CrowdBase() && |CrowdBase()| == 60
    ensures Sanitize(CrowdTool(i).id, 0) == CrowdBase() + "_2"
  {
    var name, id := CrowdName(i), CrowdTool(i).id;
    assert |name| == 60 && |id| == 62 && Cleaned(name[0]) == '_';
    assert forall k :: 1 <= k < 58 ==> name[k] == Xs(BODY_LENGTH)[k - 1];
    assert name[58] == '_' && name[59] == '2';
    assert id[0] == 'u' && id[1] == '.' && forall k :: 2 <= k < 62 ==> id[k] == name[k - 2];
    assert Cleaned('x') == 'x' && Cleaned('_') == '_' && Cleaned('2') == '2' && Cleaned('u') == 'u' && Cleaned('.') == '_';
    hide *;
    CrowdBareIs(name);
    CrowdIdIs(id);
    SanitizeIs(name, 0, "_" + Xs(BODY_LENGTH) + "_2");
    SanitizeIs(id, 0, CrowdBase() + "_2");
    CrowdBaseSize();
    SanitizeIs(id, 4, CrowdBase());
    BareAndBase(CrowdTool(i));
    CrowdToolIs(i);
  }

  lemma CrowdToolIs(i: nat)
    requires i < 999
    ensures CrowdTool(i).name == CrowdName(i)
  {}

  lemma BareAndBase(t: Tool)
    ensures Bare(t) == Sanitize(t.name, 0) && Base(t) == Sanitize(t.id, 4)
  {}

  lemma CrowdBaseSize()
    ensures |CrowdBase()| == 60 && |CrowdBase() + "_2"| == 62 && (CrowdBase() + "_2")[..60] == CrowdBase()
  {}

  lemma CrowdBareIs(name: string)
    requires |name| == 60 && Cleaned(name[0]) == '_' && (forall k :: 1 <= k < 58 ==> name[k] == Xs(BODY_LENGTH)[k - 1])
    requires name[58] == '_' && name[59] == '2' && Cleaned('x') == 'x' && Cleaned('_') == '_' && Cleaned('2') == '2'
    ensures var r := "_" + Xs(BODY_LENGTH) + "_2"; |r| == 60 && forall k :: 0 <= k < 60 ==> r[k] == Cleaned(name[k])
  {
    hide Cleaned;
  }

  lemma CrowdIdIs(id: string)
    requires |id| == 62 && id[0] == 'u' && id[1] == '.' && Cleaned(id[2]) == '_'
    requires forall k :: 3 <= k < 60 ==> id[k] == 'x'
    requires id[60] == '_' && id[61] == '2'
    ensures var r := CrowdBase() + "_2"; |r| == 62 && forall k :: 0 <= k < 62 ==> r[k] == Cleaned(id[k])
  {
    assert Cleaned('x') == 'x' && Cleaned('_') == '_' && Cleaned('2') == '2' && Cleaned('u') == 'u' && Cleaned('.') == '_';
    hide Cleaned;
  }

  lemma {:induction false} UsesAll(tools: seq<Tool>, bare: string)
    requires forall t :: t in tools ==> Bare(t) == bare
    ensures Uses(tools, bare) == |tools|
  {
    if tools != [] {
      assert tools[0] in tools && forall t :: t in tools[1..] ==> t in tools;
      UsesAll(tools[1..], bare);
    }
  }

  lemma CrowdPrefers(i: nat)
    requires i < 999
    ensures Preferred(Crowd(), Crowd()[i]) == FreshNames.Numbered(CrowdBase(), 2)
  {
    var bare := "_" + Xs(BODY_LENGTH) + "_2";
    forall t | t in Crowd() ensures Bare(t) == bare {
      var k :| 0 <= k < 999 && Crowd()[k] == t;
      CrowdCleaned(k);
    }
    UsesAll(Crowd(), bare);
    CrowdCleaned(i);
    assert Text.Decimal(2) == "2";
    hide Crowd, Sanitize, Uses;
    assert CrowdBase() + "_2" == CrowdBase() + "_" + "2";
  }

  lemma {:induction false} CrowdTakes(i: nat)
    requires i <= 999
    ensures Exposed(Crowd(), i).Keys == Suffixed(CrowdBase(), i + 2)
    ensures i < 999 ==> NameAt(Crowd(), i) == FreshNames.Numbered(CrowdBase(), i + 2)
  {
    assert |Crowd()| == 999;
    hide Crowd, Given, Preferred, Suffixed, Sanitize;
    if i == 0 {
      NoneSuffixed();
    } else {
      CrowdTakes(i - 1);
      KeysGrow(Crowd(), i);
      hide Exposed, NameAt;
      SuffixedGrows(CrowdBase(), i + 1);
    }
    if i < 999 { CrowdNames(i); }
  }

  lemma NoneSuffixed()
    ensures Suffixed(CrowdBase(), 2) == {}
  {}

  lemma SuffixedGrows(base: string, limit: nat)
    requires limit >= 2
    ensures Suffixed(base, limit + 1) == Suffixed(base, limit) + {FreshNames.Numbered(base, limit)}
  {
    hide FreshNames.Numbered;
  }

  lemma CrowdNames(i: nat)
    requires i < 999 && Exposed(Crowd(), i).Keys == Suffixed(CrowdBase(), i + 2)
    ensures NameAt(Crowd(), i) == FreshNames.Numbered(CrowdBase(), i + 2)
  {
    CrowdPrefers(i);
    CrowdCleaned(i);
    assert Crowd()[i] == CrowdTool(i);
    hide Crowd, Exposed, Sanitize, Preferred, Base, Suffixed, FreshNames.Numbered;
    CrowdNext(Exposed(Crowd(), i).Keys, i);
  }

  lemma CrowdNext(taken: set<string>, i: nat)
    requires taken == Suffixed(CrowdBase(), i + 2)
    ensures FreshNames.Numbered(CrowdBase(), 2) in taken <==> i > 0
    ensures FreshNames.FirstFree(CrowdBase(), taken, 2) == i + 2
  {
    if FreshNames.Numbered(CrowdBase(), i + 2) in taken {
      var n :| 2 <= n < i + 2 && FreshNames.Numbered(CrowdBase(), i + 2) == FreshNames.Numbered(CrowdBase(), n);
      FreshNames.NumberedInjective(CrowdBase(), i + 2, n);
    }
    FirstFreeIs(CrowdBase(), taken, 2, i + 2);
  }

  /** 999 tools of one upstream, with distinct ids, the last of which gets a name of 65
      characters: the bound of 998 tools is the best there is. */
  lemma CrowdOverflows()
    ensures |Crowd()| == 999
    ensures forall i, j :: 0 <= i < j < 999 ==> Crowd()[i].id != Crowd()[j].id
    ensures |NameAt(Crowd(), 998)| == MAX_NAME_LEN + 1
  {
    forall i, j | 0 <= i < j < 999 ensures Crowd()[i].id != Crowd()[j].id {
      assert Crowd()[i].id[2] == (256 + i) as char && Crowd()[j].id[2] == (256 + j) as char;
    }
    CrowdTakes(998);
    NumeralFits(1000, 3);
    NumeralFits(1000, 4);
    PowGrows(3, 4);
    CrowdCleaned(0);
  }

  // ----- order -----

  lemma {:induction false} UsesOfRest(tools: seq<Tool>, k: nat, bare: string)
    requires k < |tools|
    ensures Uses(tools, bare) == Uses(tools[..k] + tools[k + 1..], bare) + if Bare(tools[k]) == bare then 1 else 0
    decreases k
  {
    if k == 0 {
      assert tools[..0] + tools[1..] == tools[1..];
    } else {
      var rest := tools[..k] + tools[k + 1..];
      UsesOfRest(tools[1..], k - 1, bare);
      assert tools[1..][..k - 1] + tools[1..][k..] == rest[1..];
    }
  }

  lemma {:induction false} UsesIgnoresOrder(a: seq<Tool>, b: seq<Tool>, bare: string)
    requires multiset(a) == multiset(b)
    ensures Uses(a, bare) == Uses(b, bare)
    decreases |a|
  {
    hide Bare;
    if a == [] {
      assert |multiset(b)| == 0;
    } else {
      var k, b' := Matching(a, b);
      UsesOfRest(b, k, bare);
      UsesIgnoresOrder(a[1..], b', bare);
    }
  }

  /** No two tools prefer the same name. */
  ghost predicate PreferencesDistinct(tools: seq<Tool>) {
    forall i, j :: 0 <= i < j < |tools| ==> Preferred(tools, tools[i]) != Preferred(tools, tools[j])
  }

  ghost function ByPreference(tools: seq<Tool>, n: nat): map<string, string>
    requires n <= |tools|
  {
    if n == 0 then map[] else ByPreference(tools, n - 1)[Preferred(tools, tools[n - 1]) := tools[n - 1].id]
  }

  lemma {:induction false} ByPreferenceHolds(tools: seq<Tool>, n: nat)
    requires n <= |tools| && PreferencesDistinct(tools)
    ensures forall k :: k in ByPreference(tools, n) <==> exists i :: 0 <= i < n && Preferred(tools, tools[i]) == k
    ensures forall i :: 0 <= i < n ==> ByPreference(tools, n)[Preferred(tools, tools[i])] == tools[i].id
  {
    hide Preferred;
    if n > 0 {
      ByPreferenceHolds(tools, n - 1);
      assert Preferred(tools, tools[n - 1]) in ByPreference(tools, n);
    }
  }

  /** Where preferences are distinct, everyone gets theirs … */
  lemma {:induction false} EveryoneGetsPreferred(tools: seq<Tool>, n: nat)
    requires n <= |tools| && PreferencesDistinct(tools)
    ensures Exposed(tools, n) == ByPreference(tools, n)
  {
    hide Preferred, PreferencesDistinct;
    if n > 0 {
      EveryoneGetsPreferred(tools, n - 1);
      PreferenceIsFree(tools, n - 1);
    }
  }

  lemma PreferenceIsFree(tools: seq<Tool>, n: nat)
    requires n < |tools| && PreferencesDistinct(tools)
    ensures Preferred(tools, tools[n]) !in ByPreference(tools, n)
  {
    hide Preferred, ByPreference;
    ByPreferenceHolds(tools, n);
  }

  /** … in whatever order the tools come. */
  lemma DistinctPreferencesIgnoreOrder(a: seq<Tool>, b: seq<Tool>)
    requires multiset(a) == multiset(b) && PreferencesDistinct(a) && PreferencesDistinct(b)
    ensures Exposed(a, |a|) == Exposed(b, |b|)
  {
    hide *;
    EveryoneGetsPreferred(a, |a|);
    EveryoneGetsPreferred(b, |b|);
    forall k ensures k in ByPreference(a, |a|) ==> k in ByPreference(b, |b|) && ByPreference(a, |a|)[k] == ByPreference(b, |b|)[k] {
      if k in ByPreference(a, |a|) { PreferenceCarriesOver(a, b, k); }
    }
    forall k ensures k in ByPreference(b, |b|) ==> k in ByPreference(a, |a|) {
      if k in ByPreference(b, |b|) { PreferenceCarriesOver(b, a, k); }
    }
  }

  lemma PreferenceCarriesOver(a: seq<Tool>, b: seq<Tool>, k: string)
    requires multiset(a) == multiset(b) && PreferencesDistinct(a) && PreferencesDistinct(b) && k in ByPreference(a, |a|)
    ensures k in ByPreference(b, |b|) && ByPreference(a, |a|)[k] == ByPreference(b, |b|)[k]
  {
    hide Preferred, ByPreference, PreferencesDistinct;
    ByPreferenceHolds(a, |a|);
    ByPreferenceHolds(b, |b|);
    var i :| 0 <= i < |a| && Preferred(a, a[i]) == k;
    assert a[i] in multiset(b);
    var j :| 0 <= j < |b| && b[j] == a[i];
    PreferredIgnoresOrder(a, b, a[i]);
  }

  lemma PreferredIgnoresOrder(a: seq<Tool>, b: seq<Tool>, t: Tool)
    requires multiset(a) == multiset(b)
    ensures Preferred(a, t) == Preferred(b, t)
  {
    UsesIgnoresOrder(a, b, Bare(t));
  }

  lemma DistinctnessIgnoresOrder(a: seq<Tool>, b: seq<Tool>)
    requires multiset(a) == multiset(b) && PreferencesDistinct(a)
    ensures PreferencesDistinct(b)
  {
    hide Preferred;
    forall i, j | 0 <= i < j < |b| ensures Preferred(b, b[i]) != Preferred(b, b[j]) {
      PreferredIgnoresOrder(a, b, b[i]);
      PreferredIgnoresOrder(a, b, b[j]);
      var p, q := TwoPlaces(a, b, i, j);
      assert p < q ==> Preferred(a, a[p]) != Preferred(a, a[q]);
      assert q < p ==> Preferred(a, a[q]) != Preferred(a, a[p]);
    }
  }

  /** Whoever comes first gets the name it prefers. */
  lemma FirstGetsPreferred(tools: seq<Tool>)
    requires tools != []
    ensures var k := Preferred(tools, tools[0]); k in Exposed(tools, |tools|) && Exposed(tools, |tools|)[k] == tools[0].id
  {
    assert Exposed(tools, 1) == map[Preferred(tools, tools[0]) := tools[0].id];
    NamesAreKept(tools, 1, |tools|);
  }

  /** The outcome is independent of the order of the tools exactly when no two of them prefer
      the same name; otherwise whichever comes first takes it. */
  lemma OrderIndependentIff(tools: seq<Tool>)
    requires forall i, j :: 0 <= i < j < |tools| ==> tools[i].id != tools[j].id
    ensures PreferencesDistinct(tools) <==>
      forall other :: multiset(other) == multiset(tools) ==> Exposed(other, |other|) == Exposed(tools, |tools|)
  {
    hide Preferred, Exposed;
    if PreferencesDistinct(tools) {
      forall other | multiset(other) == multiset(tools) ensures Exposed(other, |other|) == Exposed(tools, |tools|) {
        DistinctnessIgnoresOrder(tools, other);
        DistinctPreferencesIgnoreOrder(other, tools);
      }
    } else {
      var i, j :| 0 <= i < j < |tools| && Preferred(tools, tools[i]) == Preferred(tools, tools[j]);
      var a, b := ToFront(tools, i), ToFront(tools, j);
      ToFrontRearranges(tools, i);
      ToFrontRearranges(tools, j);
      PreferredIgnoresOrder(tools, a, tools[i]);
      PreferredIgnoresOrder(tools, b, tools[j]);
      FirstGetsPreferred(a);
      FirstGetsPreferred(b);
      assert Exposed(a, |a|) != Exposed(b, |b|);
    }
  }
}
