/** Filling the placeholders of a path template (the loop at the top of `execute` in
    src/exec.rs), and whether the order of the parameters matters. */
module PathParams {
  import opened Json
  import opened Wire

  predicate IsBrace(c: char) {
    c == '{' || c == '}'
  }

  /** No brace in it. */
  predicate Plain(s: string) {
    forall i :: 0 <= i < |s| ==> !IsBrace(s[i])
  }

  /** Where the first brace of `s` is. */
  function NextBrace(s: string): (n: nat)
    ensures n <= |s| && Plain(s[..n]) && (n < |s| ==> IsBrace(s[n]))
  {
    if s == [] || IsBrace(s[0]) then 0
    else
      var n := 1 + NextBrace(s[1..]);
      assert s[..n] == [s[0]] + s[1..][..n - 1];
      n
  }

  /** `s` opens with a placeholder: a name without braces, closed. */
  predicate OpensGroup(s: string) {
    s != [] && s[0] == '{' && var n := NextBrace(s[1..]); n < |s| - 1 && s[1 + n] == '}'
  }

  function GroupName(s: string): (name: string)
    requires OpensGroup(s)
    ensures Plain(name) && |name| + 2 <= |s|
    ensures s == "{" + name + "}" + s[|name| + 2..]
  {
    var n := NextBrace(s[1..]);
    assert s[1..1 + n] == s[1..][..n];
    s[1..1 + n]
  }

  function AfterGroup(s: string): string
    requires OpensGroup(s)
  {
    s[|GroupName(s)| + 2..]
  }

  lemma GroupOf(name: string, rest: string)
    requires Plain(name)
    ensures var s := "{" + name + "}" + rest; OpensGroup(s) && GroupName(s) == name && AfterGroup(s) == rest
  {
    var s := "{" + name + "}" + rest;
    var n := NextBrace(s[1..]);
    assert forall i :: 0 <= i < |name| ==> s[1..][i] == name[i];
    assert s[1..][|name|] == '}';
    assert s[1..1 + |name|] == name && s[|name| + 2..] == rest;
  }

  function Hole(name: string): string {
    "{" + name + "}"
  }

  /** Replaces every `{name}`, scanning from the left. */
  function Fill(s: string, name: string, value: string): string {
    if s == [] then []
    else if StartsWith(s, Hole(name)) then value + Fill(s[|name| + 2..], name, value)
    else [s[0]] + Fill(s[1..], name, value)
  }

  lemma HoleIsGroup(s: string, name: string)
    requires Plain(name)
    ensures StartsWith(s, Hole(name)) <==> OpensGroup(s) && GroupName(s) == name
  {
    if StartsWith(s, Hole(name)) {
      assert s == "{" + name + "}" + s[|name| + 2..];
      GroupOf(name, s[|name| + 2..]);
    }
  }

  /** A path parameter: its name and its value, not yet encoded. */
  datatype Param = Param(name: string, value: ByteString)

  ghost predicate Params(ps: seq<Param>) {
    && (forall i :: 0 <= i < |ps| ==> Plain(ps[i].name))
    && (forall i, j :: 0 <= i < j < |ps| ==> ps[i].name != ps[j].name)
  }

  function FillAll(s: string, ps: seq<Param>): string
    decreases |ps|
  {
    if ps == [] then s else FillAll(Fill(s, ps[0].name, Encoded(ps[0].value)), ps[1..])
  }

  /** Every placeholder of `s` itself replaced, once, wherever it stands. */
  function FillAtOnce(s: string, values: map<string, string>): string {
    if s == [] then []
    else if OpensGroup(s) && GroupName(s) in values then values[GroupName(s)] + FillAtOnce(AfterGroup(s), values)
    else [s[0]] + FillAtOnce(s[1..], values)
  }

  // ----- text without braces passes through -----

  lemma {:induction false} FillPlain(p: string, rest: string, name: string, value: string)
    requires '{' !in p
    ensures Fill(p + rest, name, value) == p + Fill(rest, name, value)
  {
    if p == [] {
      assert p + rest == rest;
    } else {
      assert (p + rest)[1..] == p[1..] + rest && p[0] in p;
      assert p == [p[0]] + p[1..];
      FillPlain(p[1..], rest, name, value);
    }
  }

  lemma {:induction false} AtOncePlain(p: string, rest: string, values: map<string, string>)
    requires '{' !in p
    ensures FillAtOnce(p + rest, values) == p + FillAtOnce(rest, values)
  {
    if p == [] {
      assert p + rest == rest;
    } else {
      assert (p + rest)[1..] == p[1..] + rest && p[0] in p;
      assert p == [p[0]] + p[1..];
      AtOncePlain(p[1..], rest, values);
    }
  }

  // ----- nested placeholders -----

  /** Reading `s`, only whole placeholders and brace-free text come before a closing brace. */
  predicate ClosesAfterGroups(s: string) {
    s != [] && (s[0] == '}' || (if OpensGroup(s) then ClosesAfterGroups(AfterGroup(s)) else s[0] != '{' && ClosesAfterGroups(s[1..])))
  }

  /** Somewhere a brace pair holds a placeholder of its own, and nothing deeper. */
  predicate Nested(s: string) {
    s != [] && ((s[0] == '{' && !OpensGroup(s) && ClosesAfterGroups(s[1..])) || Nested(s[1..]))
  }

  lemma {:induction false} NestedPlain(p: string, rest: string)
    requires '{' !in p
    ensures Nested(p + rest) == Nested(rest)
  {
    if p == [] {
      assert p + rest == rest;
    } else {
      assert (p + rest)[1..] == p[1..] + rest && p[0] in p;
      NestedPlain(p[1..], rest);
    }
  }

  lemma NestedAfterGroup(s: string)
    requires OpensGroup(s)
    ensures Nested(s) == Nested(AfterGroup(s))
  {
    var name := GroupName(s);
    assert s[1..] == (name + "}") + AfterGroup(s);
    NestedPlain(name + "}", AfterGroup(s));
  }

  lemma {:induction false} ClosesPlain(p: string, rest: string)
    requires Plain(p)
    ensures ClosesAfterGroups(p + rest) == ClosesAfterGroups(rest)
  {
    if p == [] {
      assert p + rest == rest;
    } else {
      assert (p + rest)[1..] == p[1..] + rest;
      ClosesPlain(p[1..], rest);
    }
  }

  lemma {:induction false} FirstBraceCloses(s: string)
    requires NextBrace(s) < |s| && s[NextBrace(s)] == '}'
    ensures ClosesAfterGroups(s)
  {
    if s[0] != '}' {
      FirstBraceCloses(s[1..]);
    }
  }

  // ----- one parameter at a time is all at once -----

  lemma HolePlus(name: string, rest: string)
    ensures ['{'] + ((name + "}") + rest) == Hole(name) + rest
  {}

  /** How `Fill` treats a placeholder: its own it replaces, any other it passes over. */
  lemma FillGroup(s: string, name: string, value: string)
    requires OpensGroup(s) && Plain(name)
    ensures Fill(s, name, value) ==
      (if GroupName(s) == name then value else Hole(GroupName(s))) + Fill(AfterGroup(s), name, value)
  {
    HoleIsGroup(s, name);
    var head := GroupName(s);
    if head != name {
      assert s[1..] == (head + "}") + AfterGroup(s);
      FillPlain(head + "}", AfterGroup(s), name, value);
      assert Fill(s, name, value) == ['{'] + Fill(s[1..], name, value);
      HolePlus(head, Fill(AfterGroup(s), name, value));
    }
  }

  lemma AtOnceGroup(s: string, values: map<string, string>)
    requires OpensGroup(s)
    ensures FillAtOnce(s, values) ==
      (if GroupName(s) in values then values[GroupName(s)] else Hole(GroupName(s))) + FillAtOnce(AfterGroup(s), values)
  {
    var head := GroupName(s);
    if head !in values {
      assert s[1..] == (head + "}") + AfterGroup(s);
      AtOncePlain(head + "}", AfterGroup(s), values);
      assert FillAtOnce(s, values) == ['{'] + FillAtOnce(s[1..], values);
      HolePlus(head, FillAtOnce(AfterGroup(s), values));
    }
  }

  lemma FillOther(s: string, name: string, value: string)
    requires s != [] && !OpensGroup(s) && Plain(name)
    ensures Fill(s, name, value) == [s[0]] + Fill(s[1..], name, value)
  {
    HoleIsGroup(s, name);
  }

  /** Filling makes a new brace pair close only where one was nested. */
  lemma {:induction false} FillClosesNothingNew(s: string, name: string, value: string)
    requires Plain(name) && Plain(value) && ClosesAfterGroups(Fill(s, name, value))
    ensures ClosesAfterGroups(s) || Nested(s)
    decreases |s|
  {
    if s == [] || s[0] == '}' {
    } else if OpensGroup(s) {
      FillGroup(s, name, value);
      NestedAfterGroup(s);
      var rest := Fill(AfterGroup(s), name, value);
      if GroupName(s) == name {
        ClosesPlain(value, rest);
      } else {
        GroupOf(GroupName(s), rest);
      }
      FillClosesNothingNew(AfterGroup(s), name, value);
    } else {
      FillOther(s, name, value);
      var t := Fill(s, name, value);
      assert t[1..] == Fill(s[1..], name, value);
      if s[0] == '{' { FirstBraceCloses(t[1..]); }
      FillClosesNothingNew(s[1..], name, value);
    }
  }

  /** Filling a template without nested placeholders leaves it without. */
  lemma {:induction false} FillNestsNothing(s: string, name: string, value: string)
    requires Plain(name) && Plain(value) && Nested(Fill(s, name, value))
    ensures Nested(s)
    decreases |s|
  {
    if s != [] {
      if OpensGroup(s) {
        FillGroup(s, name, value);
        NestedAfterGroup(s);
        var rest := Fill(AfterGroup(s), name, value);
        if GroupName(s) == name {
          NestedPlain(value, rest);
        } else {
          GroupOf(GroupName(s), rest);
          NestedAfterGroup(Hole(GroupName(s)) + rest);
        }
        FillNestsNothing(AfterGroup(s), name, value);
      } else {
        FillOther(s, name, value);
        var t := Fill(s, name, value);
        assert t[1..] == Fill(s[1..], name, value);
        if Nested(t[1..]) {
          FillNestsNothing(s[1..], name, value);
        } else {
          FillClosesNothingNew(s[1..], name, value);
        }
      }
    }
  }

  /** A brace pair that filling makes close holds a filled-in value. */
  lemma {:induction false} NewNameIsLong(s: string, name: string, value: string)
    requires Plain(name) && Plain(value) && (NextBrace(s) < |s| ==> s[NextBrace(s)] == '{')
    ensures var t := Fill(s, name, value); NextBrace(t) < |t| && t[NextBrace(t)] == '}' ==> NextBrace(t) >= |value|
  {
    if s != [] {
      if OpensGroup(s) {
        FillGroup(s, name, value);
      } else {
        FillOther(s, name, value);
        var t := Fill(s, name, value);
        assert t[1..] == Fill(s[1..], name, value);
        if s[0] != '{' { NewNameIsLong(s[1..], name, value); }
      }
    }
  }

  /** No placeholder is confused with one made by filling: there is none to be made, or the
      names still to come are too short for it. */
  ghost predicate Unmistakable(s: string, names: set<string>, value: string) {
    !Nested(s) || forall k :: k in names ==> |k| < |value|
  }

  lemma {:induction false} FillThenAtOnce(s: string, name: string, value: string, values: map<string, string>)
    requires Plain(name) && Plain(value) && name !in values && Unmistakable(s, values.Keys, value)
    ensures FillAtOnce(Fill(s, name, value), values) == FillAtOnce(s, values[name := value])
    decreases |s|
  {
    if s != [] {
      if OpensGroup(s) {
        FillGroup(s, name, value);
        AtOnceGroup(s, values[name := value]);
        NestedAfterGroup(s);
        FillThenAtOnce(AfterGroup(s), name, value, values);
        var rest := Fill(AfterGroup(s), name, value);
        if GroupName(s) == name {
          AtOncePlain(value, rest, values);
        } else {
          GroupOf(GroupName(s), rest);
          AtOnceGroup(Hole(GroupName(s)) + rest, values);
        }
      } else {
        FillOther(s, name, value);
        FillThenAtOnce(s[1..], name, value, values);
        NothingMistaken(s, name, value, values.Keys);
        var t := Fill(s, name, value);
        assert t[1..] == Fill(s[1..], name, value);
      }
    }
  }

  lemma NothingMistaken(s: string, name: string, value: string, names: set<string>)
    requires s != [] && !OpensGroup(s) && Plain(name) && Plain(value) && Unmistakable(s, names, value)
    ensures var t := Fill(s, name, value); OpensGroup(t) ==> GroupName(t) !in names
  {
    FillOther(s, name, value);
    var t := Fill(s, name, value);
    assert t[1..] == Fill(s[1..], name, value);
    if OpensGroup(t) {
      if Nested(s) {
        NewNameIsLong(s[1..], name, value);
      } else {
        FirstBraceCloses(t[1..]);
        FillClosesNothingNew(s[1..], name, value);
      }
    }
  }

  function Values(ps: seq<Param>): map<string, string>
    decreases |ps|
  {
    if ps == [] then map[] else Values(ps[1..])[ps[0].name := Encoded(ps[0].value)]
  }

  lemma {:induction false} ValuesAre(ps: seq<Param>)
    requires Params(ps)
    ensures forall k :: k in Values(ps) <==> exists i :: 0 <= i < |ps| && ps[i].name == k
    ensures forall i :: 0 <= i < |ps| ==> ps[i].name in Values(ps) && Values(ps)[ps[i].name] == Encoded(ps[i].value)
    decreases |ps|
  {
    hide Encoded, Plain;
    if ps != [] {
      var rest := ps[1..];
      forall i | 0 < i < |ps| ensures ps[i] == rest[i - 1] && ps[i].name != ps[0].name {}
      assert Params(rest) by {
        forall i, j | 0 <= i < j < |rest| ensures rest[i].name != rest[j].name { assert ps[i + 1].name != ps[j + 1].name; }
      }
      ValuesAre(rest);
      forall k ensures k in Values(ps) <==> exists i :: 0 <= i < |ps| && ps[i].name == k {
        if k in Values(rest) {
          var i :| 0 <= i < |rest| && rest[i].name == k;
          assert ps[i + 1].name == k;
        }
      }
    }
  }

  lemma EncodedPlain(value: ByteString)
    ensures Plain(Encoded(value))
  {
    EncodedIsOneSegment(value);
    assert forall i :: 0 <= i < |Encoded(value)| ==> Encoded(value)[i] in Encoded(value);
  }

  lemma {:induction false} AtOnceNothing(s: string)
    ensures FillAtOnce(s, map[]) == s
  {
    if s != [] { AtOnceNothing(s[1..]); }
  }

  /** Filling one parameter after another fills the template's own placeholders and no others,
      when it has no nested ones, or when the names are too short for a made one. */
  lemma {:induction false} FillAllIsAtOnce(s: string, ps: seq<Param>)
    requires Params(ps)
    requires !Nested(s) || forall i, j :: 0 <= i < |ps| && 0 <= j < |ps| ==> |ps[i].name| < |Encoded(ps[j].value)|
    ensures FillAll(s, ps) == FillAtOnce(s, Values(ps))
    decreases |ps|
  {
    if ps == [] {
      AtOnceNothing(s);
    } else {
      var rest, value := ps[1..], Encoded(ps[0].value);
      EncodedPlain(ps[0].value);
      assert Params(rest) by {
        forall i, j | 0 <= i < j < |rest| ensures rest[i].name != rest[j].name { assert ps[i + 1].name != ps[j + 1].name; }
      }
      ValuesAre(rest);
      forall i | 0 <= i < |rest| ensures rest[i] == ps[i + 1] && rest[i].name != ps[0].name {}
      var t := Fill(s, ps[0].name, value);
      if Nested(t) { FillNestsNothing(s, ps[0].name, value); }
      FillAllIsAtOnce(t, rest);
      FillThenAtOnce(s, ps[0].name, value, Values(rest));
    }
  }

  // ----- when the order matters -----

  lemma ValuesWithin(ps: seq<Param>, qs: seq<Param>, k: string)
    requires Params(ps) && Params(qs) && k in Values(ps) && forall i :: 0 <= i < |ps| ==> ps[i] in qs
    ensures k in Values(qs) && Values(qs)[k] == Values(ps)[k]
  {
    ValuesAre(ps);
    ValuesAre(qs);
    hide Values, Encoded;
    var i :| 0 <= i < |ps| && ps[i].name == k;
    var j :| 0 <= j < |qs| && qs[j] == ps[i];
  }

  lemma SameValues(ps: seq<Param>, qs: seq<Param>)
    requires Params(ps) && Params(qs) && multiset(ps) == multiset(qs)
    ensures Values(ps) == Values(qs)
  {
    hide *;
    forall i | 0 <= i < |ps| ensures ps[i] in qs { assert ps[i] in multiset(ps); }
    forall i | 0 <= i < |qs| ensures qs[i] in ps { assert qs[i] in multiset(qs); }
    forall k | k in Values(ps) ensures k in Values(qs) && Values(qs)[k] == Values(ps)[k] { ValuesWithin(ps, qs, k); }
    forall k | k in Values(qs) ensures k in Values(ps) { ValuesWithin(qs, ps, k); }
  }

  /** The names of the placeholders in `s`. */
  function Names(s: string): (names: set<string>)
    ensures forall k :: k in names ==> Plain(k) && |k| + 2 <= |s|
  {
    if s == [] then {} else if OpensGroup(s) then {GroupName(s)} + Names(AfterGroup(s)) else Names(s[1..])
  }

  predicate Contains(s: string, part: string) {
    StartsWith(s, part) || (s != [] && Contains(s[1..], part))
  }

  lemma {:induction false} ContainsLater(p: string, rest: string, part: string)
    requires Contains(rest, part)
    ensures Contains(p + rest, part)
  {
    if p == [] {
      assert p + rest == rest;
    } else {
      assert (p + rest)[1..] == p[1..] + rest;
      ContainsLater(p[1..], rest, part);
    }
  }

  lemma {:induction false} ErasingShrinks(s: string, name: string)
    ensures |Fill(s, name, "")| <= |s|
    ensures Contains(s, Hole(name)) ==> |Fill(s, name, "")| < |s|
    decreases |s|
  {
    if s != [] {
      if StartsWith(s, Hole(name)) {
        ErasingShrinks(s[|name| + 2..], name);
      } else {
        ErasingShrinks(s[1..], name);
      }
    }
  }

  lemma {:induction false} FillAbsent(s: string, name: string, value: string)
    requires |s| < |name|
    ensures Fill(s, name, value) == s
  {
    if s != [] { FillAbsent(s[1..], name, value); }
  }

  /** Every placeholder is given a long brace-free value. */
  ghost predicate LongValues(s: string, values: map<string, string>, n: nat) {
    Names(s) <= values.Keys && forall k :: k in values ==> Plain(values[k]) && |values[k]| >= n
  }

  lemma NextBraceAfter(p: string, rest: string)
    requires Plain(p)
    ensures NextBrace(p + rest) == |p| + NextBrace(rest)
  {
    if p == [] {
      assert p + rest == rest;
    } else {
      assert (p + rest)[1..] == p[1..] + rest;
      NextBraceAfter(p[1..], rest);
    }
  }

  lemma ClosesLater(p: string, t: string)
    requires Plain(p) && NextBrace(t) < |t| && t[NextBrace(t)] == '}'
    ensures NextBrace(p + t) < |p + t| && (p + t)[NextBrace(p + t)] == '}' && NextBrace(p + t) >= |p|
  {
    NextBraceAfter(p, t);
  }

  lemma {:induction false} ClosesUnderAName(s: string, values: map<string, string>, n: nat)
    requires ClosesAfterGroups(s) && LongValues(s, values, n)
    ensures var t := FillAtOnce(s, values);
      NextBrace(t) < |t| && t[NextBrace(t)] == '}' && ((NextBrace(s) < |s| && s[NextBrace(s)] == '}') || NextBrace(t) >= n)
    decreases |s|
  {
    if s[0] == '}' {
    } else if OpensGroup(s) {
      AtOnceGroup(s, values);
      ClosesUnderAName(AfterGroup(s), values, n);
      hide FillAtOnce, Fill, ClosesAfterGroups, Plain;
      ClosesLater(values[GroupName(s)], FillAtOnce(AfterGroup(s), values));
    } else {
      ClosesUnderAName(s[1..], values, n);
      assert FillAtOnce(s, values)[1..] == FillAtOnce(s[1..], values);
    }
  }

  lemma OpenedAndClosed(t: string) returns (name: string)
    requires NextBrace(t) < |t| && t[NextBrace(t)] == '}'
    ensures Plain(name) && |name| == NextBrace(t) && Contains("{" + t, Hole(name))
  {
    var n := NextBrace(t);
    name := t[..n];
    assert ("{" + t)[..n + 2] == Hole(name);
  }

  lemma {:induction false} NestedLeavesAHole(s: string, values: map<string, string>, n: nat) returns (name: string)
    requires Nested(s) && LongValues(s, values, n)
    ensures Plain(name) && |name| >= n && Contains(FillAtOnce(s, values), Hole(name))
    decreases |s|
  {
    if OpensGroup(s) {
      AtOnceGroup(s, values);
      NestedAfterGroup(s);
      name := NestedLeavesAHole(AfterGroup(s), values, n);
      ContainsLater(values[GroupName(s)], FillAtOnce(AfterGroup(s), values), Hole(name));
    } else if s[0] == '{' && ClosesAfterGroups(s[1..]) {
      ClosesUnderAName(s[1..], values, n);
      name := OpenedAndClosed(FillAtOnce(s[1..], values));
    } else {
      name := NestedLeavesAHole(s[1..], values, n);
      ContainsLater([s[0]], FillAtOnce(s[1..], values), Hole(name));
    }
  }

  function Repeated(c: char, n: nat): (s: string) {
    if n == 0 then [] else [c] + Repeated(c, n - 1)
  }

  lemma {:induction false} RepeatedEncodes(n: nat)
    ensures var z := Repeated('z', n);
      |z| == n && (forall i :: 0 <= i < n ==> IsByte(z[i])) && EncodeBytes(z) == z && Encoded(z) == z
  {
    if n > 0 {
      RepeatedEncodes(n - 1);
      assert Repeated('z', n)[1..] == Repeated('z', n - 1);
      assert Repeated('z', n)[0] == 'z';
    }
  }

  /** Every placeholder of `s` given the same value. */
  function Inner(s: string, value: ByteString): (ps: seq<Param>)
    ensures forall i :: 0 <= i < |ps| ==> ps[i].value == value
    ensures forall i :: 0 <= i < |ps| ==> Plain(ps[i].name) && |ps[i].name| < |s|
    ensures forall k :: k in Names(s) ==> exists i :: 0 <= i < |ps| && ps[i].name == k
    ensures forall i, j :: 0 <= i < j < |ps| ==> ps[i].name != ps[j].name
  {
    var names := SortedKeys(Names(s));
    assert forall i :: 0 <= i < |names| ==> names[i] in names;
    var ps := seq(|names|, i requires 0 <= i < |names| => Param(names[i], value));
    assert forall i :: 0 <= i < |names| ==> ps[i].name == names[i];
    ps
  }

  lemma {:induction false} FillAllAppend(s: string, ps: seq<Param>, qs: seq<Param>)
    ensures FillAll(s, ps + qs) == FillAll(FillAll(s, ps), qs)
    decreases |ps|
  {
    if ps == [] {
      assert ps + qs == qs;
    } else {
      assert (ps + qs)[1..] == ps[1..] + qs;
      FillAllAppend(Fill(s, ps[0].name, Encoded(ps[0].value)), ps[1..], qs);
    }
  }

  /** With a nested placeholder there are parameters whose order matters: the inner ones first
      make the outer name, which filled first is not there. */
  lemma NestedDependsOnOrder(s: string) returns (ps: seq<Param>, qs: seq<Param>)
    requires Nested(s)
    ensures Params(ps) && Params(qs) && multiset(ps) == multiset(qs)
    ensures FillAll(s, ps) != FillAll(s, qs)
  {
    hide *;
    var z := Repeated('z', |s| + 1);
    RepeatedEncodes(|s| + 1);
    var inner := Inner(s, z);
    InnerIsLong(s, z);
    var outer := NestedLeavesAHole(s, Values(inner), |s| + 1);
    ps, qs := inner + [Param(outer, "")], [Param(outer, "")] + inner;
    OrderShows(s, inner, outer);
    Reorder(inner, Param(outer, ""));
  }

  lemma InnerIsLong(s: string, z: ByteString)
    requires Encoded(z) == z && |z| > |s|
    ensures Params(Inner(s, z)) && LongValues(s, Values(Inner(s, z)), |z|)
  {
    var inner := Inner(s, z);
    hide Values, Encoded, Inner, Names;
    ValuesAre(inner);
    EncodedPlain(z);
  }

  lemma Reorder(inner: seq<Param>, last: Param)
    requires Params(inner) && Plain(last.name) && forall i :: 0 <= i < |inner| ==> inner[i].name != last.name
    ensures Params(inner + [last]) && Params([last] + inner) && multiset(inner + [last]) == multiset([last] + inner)
  {}

  lemma OrderShows(s: string, inner: seq<Param>, outer: string)
    requires Params(inner) && |outer| > |s|
    requires forall i, j :: 0 <= i < |inner| && 0 <= j < |inner| ==> |inner[i].name| < |Encoded(inner[j].value)|
    requires Contains(FillAtOnce(s, Values(inner)), Hole(outer))
    ensures FillAll(s, inner + [Param(outer, "")]) != FillAll(s, [Param(outer, "")] + inner)
  {
    hide *;
    var last := [Param(outer, "")];
    FillAllIsAtOnce(s, inner);
    FillAllAppend(s, inner, last);
    FillAllAppend(s, last, inner);
    OnlyOne(FillAll(s, inner), outer);
    OnlyOne(s, outer);
    FillAbsent(s, outer, "");
    ErasingShrinks(FillAll(s, inner), outer);
  }

  lemma OnlyOne(s: string, name: string)
    ensures FillAll(s, [Param(name, "")]) == Fill(s, name, "")
  {
    assert [Param(name, "")][1..] == [];
  }

  /** For parameter names without braces, a template is filled the same way in every order
      exactly when it has no nested placeholder. */
  lemma OrderFreeIff(s: string)
    ensures !Nested(s) <==>
      forall ps, qs :: Params(ps) && Params(qs) && multiset(ps) == multiset(qs) ==> FillAll(s, ps) == FillAll(s, qs)
  {
    if Nested(s) {
      var ps, qs := NestedDependsOnOrder(s);
    } else {
      forall ps, qs | Params(ps) && Params(qs) && multiset(ps) == multiset(qs) ensures FillAll(s, ps) == FillAll(s, qs) {
        FillAllIsAtOnce(s, ps);
        FillAllIsAtOnce(s, qs);
        SameValues(ps, qs);
      }
    }
  }

  /** A case in point: `{a{b}}` with `b` filled first asks for another parameter. */
  lemma NestedExample()
    ensures FillAll("{a{b}}", [Param("b", "c"), Param("ac", "d")]) == "d"
    ensures FillAll("{a{b}}", [Param("ac", "d"), Param("b", "c")]) == "{ac}"
  {
    FillAllAppend("{a{b}}", [Param("b", "c")], [Param("ac", "d")]);
    assert [Param("b", "c")] + [Param("ac", "d")] == [Param("b", "c"), Param("ac", "d")];
    FillAllAppend("{a{b}}", [Param("ac", "d")], [Param("b", "c")]);
    assert [Param("ac", "d")] + [Param("b", "c")] == [Param("ac", "d"), Param("b", "c")];
    ExampleSteps();
  }

  lemma ExampleSteps()
    ensures FillAll("{a{b}}", [Param("b", "c")]) == "{ac}" && FillAll("{ac}", [Param("ac", "d")]) == "d"
    ensures FillAll("{a{b}}", [Param("ac", "d")]) == "{a{b}}"
  {
    hide *;
    InnerStep();
    OuterStep();
    FillAbsentStep();
    OneStep("{a{b}}", "b", 'c');
    OneStep("{ac}", "ac", 'd');
    OneStep("{a{b}}", "ac", 'd');
  }

  lemma OneStep(s: string, name: string, c: char)
    requires 'a' <= c <= 'z'
    ensures FillAll(s, [Param(name, [c])]) == Fill(s, name, [c])
  {
    assert [Param(name, [c])][1..] == [] && [c][1..] == [];
    assert EncodeBytes([c]) == [c];
    hide Fill;
  }

  lemma InnerStep()
    ensures Fill("{a{b}}", "b", "c") == "{ac}"
  {
    var s := "{a{b}}";
    assert s[..3][1] == 'a' && Hole("b")[1] == 'b';
    assert s[1..] == "a" + "{b}}" && "{b}}"[..3] == Hole("b") && "{b}}"[3..] == "}" + "";
    FillPlain("a", "{b}}", "b", "c");
    FillPlain("}", "", "b", "c");
  }

  lemma OuterStep()
    ensures Fill("{ac}", "ac", "d") == "d"
  {
    assert "{ac}"[..4] == Hole("ac") && "{ac}"[4..] == "";
  }

  lemma FillAbsentStep()
    ensures Fill("{a{b}}", "ac", "d") == "{a{b}}"
  {
    var s := "{a{b}}";
    assert s[..4][2] == '{' && Hole("ac")[2] == 'c';
    assert s[1..] == "a" + "{b}}" && "{b}}"[..4][1] == 'b' && Hole("ac")[1] == 'a' && "{b}}"[1..] == "b}}" + "";
    FillPlain("a", "{b}}", "ac", "d");
    FillPlain("b}}", "", "ac", "d");
  }

  // ----- what a filled path is -----

  function Count(s: string, c: char): nat {
    if s == [] then 0 else (if s[0] == c then 1 else 0) + Count(s[1..], c)
  }

  lemma {:induction false} CountConcat(a: string, b: string, c: char)
    ensures Count(a + b, c) == Count(a, c) + Count(b, c)
  {
    if a == [] {
      assert a + b == b;
    } else {
      assert (a + b)[1..] == a[1..] + b;
      CountConcat(a[1..], b, c);
    }
  }

  lemma {:induction false} CountNone(s: string, c: char)
    requires c !in s
    ensures Count(s, c) == 0
  {
    if s != [] {
      assert s == [s[0]] + s[1..];
      CountNone(s[1..], c);
    }
  }

  lemma {:induction false} FillAddsNo(s: string, name: string, value: string, c: char)
    requires c !in value
    ensures Count(Fill(s, name, value), c) <= Count(s, c)
    ensures c !in Hole(name) ==> Count(Fill(s, name, value), c) == Count(s, c)
    decreases |s|
  {
    if s != [] {
      if StartsWith(s, Hole(name)) {
        var rest := s[|name| + 2..];
        FillAddsNo(rest, name, value, c);
        assert s == Hole(name) + rest;
        CountConcat(Hole(name), rest, c);
        CountConcat(value, Fill(rest, name, value), c);
        CountNone(value, c);
        if c !in Hole(name) { CountNone(Hole(name), c); }
      } else {
        FillAddsNo(s[1..], name, value, c);
        assert Fill(s, name, value)[1..] == Fill(s[1..], name, value);
      }
    }
  }

  /** No value, whatever it is, adds a delimiter to the path: no `/`, `?` or `#`, nor any other
      character outside the unreserved ones and `%`. One that no name holds is kept, so the
      path has as many segments as its template. */
  lemma {:induction false} FillingAddsNoDelimiter(s: string, ps: seq<Param>, c: char)
    requires !IsUnreserved(c) && c != '%'
    ensures Count(FillAll(s, ps), c) <= Count(s, c)
    ensures (forall i :: 0 <= i < |ps| ==> c !in Hole(ps[i].name)) ==> Count(FillAll(s, ps), c) == Count(s, c)
    decreases |ps|
  {
    if ps != [] {
      EncodedIsOneSegment(ps[0].value);
      var t := Fill(s, ps[0].name, Encoded(ps[0].value));
      FillAddsNo(s, ps[0].name, Encoded(ps[0].value), c);
      FillingAddsNoDelimiter(t, ps[1..], c);
      hide Fill, Encoded, Hole, Count;
      if forall i :: 0 <= i < |ps| ==> c !in Hole(ps[i].name) {
        forall i | 0 <= i < |ps[1..]| ensures c !in Hole(ps[1..][i].name) { assert ps[1..][i] == ps[i + 1]; }
      }
    }
  }

  /** Every opening brace opens a placeholder, and its parameter is given. */
  predicate AllGiven(s: string, given: set<string>) {
    s == [] ||
    if s[0] == '{' then OpensGroup(s) && GroupName(s) in given && AllGiven(AfterGroup(s), given)
    else AllGiven(s[1..], given)
  }

  lemma {:induction false} NoneLeftIff(s: string, values: map<string, string>)
    requires forall k :: k in values ==> '{' !in values[k]
    ensures '{' !in FillAtOnce(s, values) <==> AllGiven(s, values.Keys)
    decreases |s|
  {
    if s != [] {
      if OpensGroup(s) && GroupName(s) in values {
        NoneLeftIff(AfterGroup(s), values);
      } else {
        NoneLeftIff(s[1..], values);
        assert FillAtOnce(s, values)[0] == s[0];
      }
    }
  }

  datatype Filled = Path(path: string) | Missing(name: string)

  function Find(s: string, c: char): (i: nat)
    ensures i <= |s| && c !in s[..i] && (i < |s| ==> s[i] == c)
  {
    if s == [] || s[0] == c then 0
    else
      var i := 1 + Find(s[1..], c);
      assert s[..i] == [s[0]] + s[1..][..i - 1];
      i
  }

  function Checked(path: string): Filled {
    var start := Find(path, '{');
    if start == |path| then Path(path)
    else
      var rest := path[start + 1..];
      Missing(rest[..Find(rest, '}')])
  }

  /** The loop at the top of `execute`, and its error for a parameter not given. */
  method FillPath(template: string, ps: seq<Param>) returns (r: Filled)
    ensures r == Checked(FillAll(template, ps))
    ensures Params(ps) && !Nested(template) ==> (r.Path? <==> AllGiven(template, Values(ps).Keys))
  {
    var path := template;
    assert ps[0..] == ps;
    for i := 0 to |ps|
      invariant FillAll(path, ps[i..]) == FillAll(template, ps)
    {
      hide Encoded, Fill;
      assert ps[i..][0] == ps[i] && ps[i..][1..] == ps[i + 1..];
      path := Fill(path, ps[i].name, Encoded(ps[i].value));
    }
    r := Checked(path);
    if Params(ps) && !Nested(template) {
      FilledIff(template, ps);
    }
  }

  lemma FilledIff(s: string, ps: seq<Param>)
    requires Params(ps) && !Nested(s)
    ensures Checked(FillAll(s, ps)).Path? <==> AllGiven(s, Values(ps).Keys)
  {
    ValuesAre(ps);
    FillAllIsAtOnce(s, ps);
    hide Encoded, FillAll, FillAtOnce, Values;
    forall k | k in Values(ps) ensures '{' !in Values(ps)[k] {
      var i :| 0 <= i < |ps| && ps[i].name == k;
      EncodedPlain(ps[i].value);
    }
    NoneLeftIff(s, Values(ps));
    var t := FillAtOnce(s, Values(ps));
    assert Find(t, '{') == |t| ==> t[..|t|] == t;
  }
}
