/** Near-miss suggestions for mistyped tool ids (src/surface/ids.rs): the two-row edit
    distance and the ranking of candidates. */
module NearMiss {
  import opened Json

  // ----- the distance -----

  function Min(x: nat, y: nat): nat { if x <= y then x else y }

  function Mismatch(c: char, d: char): nat { if c != d then 1 else 0 }

  /** Levenshtein distance by its recurrence on last characters. */
  function Lev(a: string, b: string): nat
    decreases |a| + |b|
  {
    if a == [] then |b|
    else if b == [] then |a|
    else
      var a', b' := a[..|a| - 1], b[..|b| - 1];
      Min(Min(Lev(a', b') + Mismatch(a[|a| - 1], b[|b| - 1]), Lev(a', b) + 1), Lev(a, b') + 1)
  }

  /** The two-row table: after row i, `prev[j]` is the distance of the prefixes. */
  method EditDistance(a: string, b: string) returns (d: nat)
    ensures d == Lev(a, b)
  {
    hide Lev;
    var n := |b|;
    var prev, cur := new nat[n + 1](j => j), new nat[n + 1](_ => 0);
    LevBase(a, b);
    for i := 0 to |a|
      invariant prev != cur && prev.Length == cur.Length == n + 1 && fresh(prev) && fresh(cur)
      invariant forall j :: 0 <= j <= n ==> prev[j] == Lev(a[..i], b[..j])
    {
      cur[0] := i + 1;
      for j := 0 to n
        invariant forall k :: 0 <= k <= n ==> prev[k] == Lev(a[..i], b[..k])
        invariant forall k :: 0 <= k <= j ==> cur[k] == Lev(a[..i + 1], b[..k])
      {
        LevCell(a, b, i, j);
        var sub := prev[j] + Mismatch(a[i], b[j]);
        cur[j + 1] := Min(Min(sub, prev[j + 1] + 1), cur[j] + 1);
      }
      prev, cur := cur, prev;
    }
    assert a[..|a|] == a && b[..n] == b;
    d := prev[n];
  }

  lemma LevBase(a: string, b: string)
    ensures forall j :: 0 <= j <= |b| ==> Lev(a[..0], b[..j]) == j
    ensures forall i :: 0 <= i <= |a| ==> Lev(a[..i], b[..0]) == i
  {}

  lemma LevCell(a: string, b: string, i: nat, j: nat)
    requires i < |a| && j < |b|
    ensures Lev(a[..i + 1], b[..j + 1])
      == Min(Min(Lev(a[..i], b[..j]) + Mismatch(a[i], b[j]), Lev(a[..i], b[..j + 1]) + 1), Lev(a[..i + 1], b[..j]) + 1)
  {
    var p, q := a[..i + 1], b[..j + 1];
    assert p[..|p| - 1] == a[..i] && q[..|q| - 1] == b[..j];
  }

  // ----- what the distance means -----

  datatype Edit = Keep | Substitute(c: char) | Insert(c: char) | Delete

  /** Applies an edit script, reading both the script and the text from their ends. */
  function Apply(script: seq<Edit>, a: string): Option<string>
    decreases |script|
  {
    if script == [] then (if a == [] then Some([]) else None)
    else
      var rest, n := script[..|script| - 1], |a| - 1;
      match script[|script| - 1]
      case Insert(c) => Append(Apply(rest, a), [c])
      case Keep => if a == [] then None else Append(Apply(rest, a[..n]), [a[n]])
      case Substitute(c) => if a == [] then None else Append(Apply(rest, a[..n]), [c])
      case Delete => if a == [] then None else Apply(rest, a[..n])
  }

  function Append(r: Option<string>, s: string): Option<string> {
    match r case Some(t) => Some(t + s) case None => None
  }

  function Cost(script: seq<Edit>): nat
    decreases |script|
  {
    if script == [] then 0 else Cost(script[..|script| - 1]) + (if script[|script| - 1].Keep? then 0 else 1)
  }

  lemma ScriptStep(script: seq<Edit>, e: Edit)
    ensures (script + [e])[..|script|] == script && Cost(script + [e]) == Cost(script) + (if e.Keep? then 0 else 1)
  {
    assert (script + [e])[..|script|] == script;
  }

  /** Some script of that many edits turns one text into the other … */
  lemma {:induction false} LevIsAchieved(a: string, b: string) returns (script: seq<Edit>)
    ensures Apply(script, a) == Some(b) && Cost(script) == Lev(a, b)
    decreases |a| + |b|
  {
    if a == [] && b == [] {
      script := [];
    } else {
      var before, e;
      if a == [] {
        before := LevIsAchieved(a, b[..|b| - 1]); e := Insert(b[|b| - 1]);
      } else if b == [] {
        before := LevIsAchieved(a[..|a| - 1], b); e := Delete;
      } else {
        var a', b', x, y := a[..|a| - 1], b[..|b| - 1], a[|a| - 1], b[|b| - 1];
        if Lev(a, b) == Lev(a', b') + Mismatch(x, y) {
          before := LevIsAchieved(a', b'); e := if x == y then Keep else Substitute(y);
        } else if Lev(a, b) == Lev(a', b) + 1 {
          before := LevIsAchieved(a', b); e := Delete;
        } else {
          before := LevIsAchieved(a, b'); e := Insert(y);
        }
      }
      script := before + [e];
      ScriptStep(before, e);
      if b != [] { assert b == b[..|b| - 1] + [b[|b| - 1]]; }
    }
  }

  /** … and no script does it with fewer. */
  lemma {:induction false} LevIsLeast(script: seq<Edit>, a: string, b: string)
    requires Apply(script, a) == Some(b)
    ensures Lev(a, b) <= Cost(script)
    decreases |script|
  {
    if script != [] {
      var rest, n := script[..|script| - 1], |a| - 1;
      match script[|script| - 1] {
        case Insert(c) =>
          LevIsLeast(rest, a, Apply(rest, a).value);
          LevNeighbours(a, b);
        case Delete =>
          LevIsLeast(rest, a[..n], b);
          LevNeighbours(a, b);
        case _ =>
          LevIsLeast(rest, a[..n], Apply(rest, a[..n]).value);
          LevNeighbours(a, b);
      }
    }
  }

  /** One more character on either side costs at most one edit, and none when both end alike. */
  lemma LevNeighbours(a: string, b: string)
    ensures b != [] ==> Lev(a, b) <= Lev(a, b[..|b| - 1]) + 1
    ensures a != [] ==> Lev(a, b) <= Lev(a[..|a| - 1], b) + 1
    ensures a != [] && b != [] ==> Lev(a, b) <= Lev(a[..|a| - 1], b[..|b| - 1]) + Mismatch(a[|a| - 1], b[|b| - 1])
  {}

  /** What the length prefilter relies on. */
  lemma {:induction false} LevAtLeastLengthDifference(a: string, b: string)
    ensures |a| <= |b| + Lev(a, b) && |b| <= |a| + Lev(a, b)
    decreases |a| + |b|
  {
    if a != [] && b != [] {
      LevAtLeastLengthDifference(a[..|a| - 1], b[..|b| - 1]);
      LevAtLeastLengthDifference(a[..|a| - 1], b);
      LevAtLeastLengthDifference(a, b[..|b| - 1]);
    }
  }

  // ----- ranking -----

  type Scored = (nat, string)

  /** By distance, then by name. */
  predicate ScoredLe(x: Scored, y: Scored) {
    x.0 < y.0 || (x.0 == y.0 && StringLe(x.1, y.1))
  }

  ghost predicate Ranked(s: seq<Scored>) {
    forall i, j :: 0 <= i < j < |s| ==> ScoredLe(s[i], s[j])
  }

  lemma ScoredLeTransitive(x: Scored, y: Scored, z: Scored)
    requires ScoredLe(x, y) && ScoredLe(y, z)
    ensures ScoredLe(x, z)
  {
    if x.0 == y.0 == z.0 { StringLeTransitive(x.1, y.1, z.1); }
  }

  lemma RankedCons(x: Scored, s: seq<Scored>)
    requires Ranked(s) && (s != [] ==> ScoredLe(x, s[0]))
    ensures Ranked([x] + s)
  {
    forall j | 0 <= j < |s| ensures ScoredLe(x, s[j]) {
      if j > 0 { ScoredLeTransitive(x, s[0], s[j]); }
    }
  }

  function InsertScored(x: Scored, s: seq<Scored>): (r: seq<Scored>)
    requires Ranked(s)
    ensures Ranked(r) && multiset(r) == multiset(s) + multiset{x}
    ensures r != [] && (r[0] == x || (s != [] && r[0] == s[0]))
  {
    if s == [] then [x]
    else if ScoredLe(x, s[0]) then
      RankedCons(x, s);
      [x] + s
    else
      StringLeTotal(x.1, s[0].1);
      var rest := InsertScored(x, s[1..]);
      RankedCons(s[0], rest);
      assert s == [s[0]] + s[1..];
      [s[0]] + rest
  }

  function Rank(s: seq<Scored>): (r: seq<Scored>)
    ensures Ranked(r) && multiset(r) == multiset(s)
  {
    if s == [] then [] else
      assert s == s[..|s| - 1] + [s[|s| - 1]];
      InsertScored(s[|s| - 1], Rank(s[..|s| - 1]))
  }

  function Budget(wrong: string): nat {
    if |wrong| / 4 > 2 then |wrong| / 4 else 2
  }

  /** The candidates within the budget, with their distances: the plain definition, with no
      prefilter. */
  function Eligible(wrong: string, candidates: seq<string>, normalize: string -> string): seq<Scored> {
    if candidates == [] then [] else
      var n := |candidates| - 1;
      var before := Eligible(wrong, candidates[..n], normalize);
      var d := Lev(wrong, normalize(candidates[n]));
      if d <= Budget(wrong) then before + [(d, candidates[n])] else before
  }

  function Names(s: seq<Scored>): seq<string> {
    seq(|s|, i requires 0 <= i < |s| => s[i].1)
  }

  function Best(wrong: string, candidates: seq<string>, n: nat, normalize: string -> string): seq<string> {
    var ranked := Rank(Eligible(wrong, candidates, normalize));
    Names(ranked[..Min(n, |ranked|)])
  }

  /** `normalize` is the crate's Unicode lower-casing of the alphanumeric characters. */
  method ClosestMatches(wrong: string, candidates: seq<string>, n: nat, normalize: string -> string) returns (r: seq<string>)
    ensures r == if normalize(wrong) == [] then [] else Best(normalize(wrong), candidates, n, normalize)
  {
    var wnorm := normalize(wrong);
    if wnorm == [] { return []; }
    var maxD := Budget(wnorm);
    var scored: seq<Scored> := [];
    for i := 0 to |candidates|
      invariant scored == Eligible(wnorm, candidates[..i], normalize)
    {
      assert candidates[..i + 1][..i] == candidates[..i];
      var cnorm := normalize(candidates[i]);
      LevAtLeastLengthDifference(wnorm, cnorm);
      if |cnorm| > |wnorm| + maxD || |wnorm| > |cnorm| + maxD { continue; }
      var d := EditDistance(wnorm, cnorm);
      if d <= maxD { scored := scored + [(d, candidates[i])]; }
    }
    assert candidates[..|candidates|] == candidates;
    var ranked := Rank(scored);
    r := Names(ranked[..Min(n, |ranked|)]);
  }

  /** The result holds the n best candidates: as many as there are up to n, and none left out
      ranks before one that was taken. */
  lemma BestAreBest(wrong: string, candidates: seq<string>, n: nat, normalize: string -> string)
    returns (taken: seq<Scored>, left: seq<Scored>)
    ensures Best(wrong, candidates, n, normalize) == Names(taken)
    ensures multiset(taken) + multiset(left) == multiset(Eligible(wrong, candidates, normalize))
    ensures Ranked(taken) && |taken| == Min(n, |Eligible(wrong, candidates, normalize)|)
    ensures forall x, y :: x in taken && y in left ==> ScoredLe(x, y)
  {
    hide Rank, Eligible, ScoredLe;
    var eligible := Eligible(wrong, candidates, normalize);
    var ranked := Rank(eligible);
    assert |ranked| == |multiset(ranked)| == |multiset(eligible)| == |eligible|;
    var k := Min(n, |ranked|);
    taken, left := ranked[..k], ranked[k..];
    assert ranked == taken + left;
    forall x, y | x in taken && y in left ensures ScoredLe(x, y) {
      var i :| 0 <= i < |taken| && taken[i] == x;
      var j :| 0 <= j < |left| && left[j] == y;
      assert ranked[i] == x && ranked[k + j] == y;
    }
  }

  /** A candidate is eligible exactly when its distance is within the budget. */
  lemma {:induction false} EligibleExactly(wrong: string, candidates: seq<string>, normalize: string -> string, x: Scored)
    ensures x in Eligible(wrong, candidates, normalize) <==>
      x.1 in candidates && x.0 == Lev(wrong, normalize(x.1)) && x.0 <= Budget(wrong)
    decreases |candidates|
  {
    if candidates != [] {
      var n := |candidates| - 1;
      EligibleExactly(wrong, candidates[..n], normalize, x);
      assert candidates == candidates[..n] + [candidates[n]];
    }
  }
}
