/** The cache-key form of a call's arguments (src/surface/cache.rs): JSON text with object
    keys sorted at every level. Two values share a text exactly when they are the same. */
module Canonical {
  import opened Json

  // ----- string literals -----

  function HexDigit(d: nat): char
    requires d < 16
  {
    "0123456789abcdef"[d]
  }

  function HexValue(c: char): nat {
    if '0' <= c <= '9' then c as int - '0' as int
    else if 'a' <= c <= 'f' then c as int - 'a' as int + 10
    else 0
  }

  /** How serde_json writes one character of a string (section 7 of RFC 8259). */
  function Escape(c: char): (s: string)
    ensures s != []
  {
    if c == '"' then "\\\""
    else if c == '\\' then "\\\\"
    else if c == '\n' then "\\n"
    else if c == '\r' then "\\r"
    else if c == '\t' then "\\t"
    else if c as int == 8 then "\\b"
    else if c as int == 12 then "\\f"
    else if c as int < 32 then "\\u00" + [HexDigit(c as int / 16), HexDigit(c as int % 16)]
    else [c]
  }

  function EscapeAll(s: string): string {
    if s == [] then [] else Escape(s[0]) + EscapeAll(s[1..])
  }

  function Quote(s: string): string {
    "\"" + EscapeAll(s) + "\""
  }

  /** Reads one written character back off the front of a text. */
  function Unescape(text: string): (char, nat)
    requires text != []
  {
    if text[0] != '\\' || |text| == 1 then (text[0], 1)
    else if text[1] == 'n' then ('\n', 2)
    else if text[1] == 'r' then ('\r', 2)
    else if text[1] == 't' then ('\t', 2)
    else if text[1] == 'b' then (8 as char, 2)
    else if text[1] == 'f' then (12 as char, 2)
    else if text[1] == 'u' && |text| >= 6 then ((HexValue(text[4]) * 16 + HexValue(text[5])) as char, 6)
    else (text[1], 2)
  }

  predicate HexEscaped(c: char) {
    c as int < 32 && c != '\n' && c != '\r' && c != '\t' && c as int != 8 && c as int != 12
  }

  lemma HexEscapeInverts(c: char)
    requires HexEscaped(c)
    ensures (HexValue(HexDigit(c as int / 16)) * 16 + HexValue(HexDigit(c as int % 16))) as char == c
  {
    assert forall d :: 0 <= d < 16 ==> HexValue(HexDigit(d)) == d;
  }

  lemma UnescapeInverts(c: char, rest: string)
    ensures Unescape(Escape(c) + rest) == (c, |Escape(c)|)
  {
    hide HexDigit, HexValue;
    var text := Escape(c) + rest;
    assert text[0] == Escape(c)[0];
    if |Escape(c)| > 1 {
      assert text[1] == Escape(c)[1];
      if HexEscaped(c) {
        HexEscapeInverts(c);
        assert text[4] == HexDigit(c as int / 16) && text[5] == HexDigit(c as int % 16);
      }
    }
  }

  /** A written character never looks like the closing quote. */
  lemma EscapeIsNoQuote(c: char)
    ensures Escape(c)[0] != '"'
  {}

  lemma {:induction false} EscapedUnique(s: string, t: string, x: string, y: string)
    requires EscapeAll(s) + "\"" + x == EscapeAll(t) + "\"" + y
    ensures s == t && x == y
  {
    hide Escape, Unescape;
    var text, text' := EscapeAll(s) + "\"" + x, EscapeAll(t) + "\"" + y;
    if s != [] { EscapeIsNoQuote(s[0]); assert text[0] == Escape(s[0])[0]; }
    if t != [] { EscapeIsNoQuote(t[0]); assert text'[0] == Escape(t[0])[0]; }
    if s == [] || t == [] {
      assert text[1..] == x && text'[1..] == y;
    } else {
      var more, more' := EscapeAll(s[1..]) + "\"" + x, EscapeAll(t[1..]) + "\"" + y;
      assert text == Escape(s[0]) + more && text' == Escape(t[0]) + more';
      UnescapeInverts(s[0], more);
      UnescapeInverts(t[0], more');
      var n := |Escape(s[0])|;
      assert text[n..] == more && text'[n..] == more';
      EscapedUnique(s[1..], t[1..], x, y);
      assert s == [s[0]] + s[1..] && t == [t[0]] + t[1..];
    }
  }

  lemma QuoteUnique(s: string, t: string, x: string, y: string)
    requires Quote(s) + x == Quote(t) + y
    ensures s == t && x == y
  {
    hide EscapeAll;
    assert (Quote(s) + x)[1..] == EscapeAll(s) + "\"" + x;
    assert (Quote(t) + y)[1..] == EscapeAll(t) + "\"" + y;
    EscapedUnique(s, t, x, y);
  }

  // ----- numbers -----

  predicate NumberChar(c: char) {
    '0' <= c <= '9' || c == '-' || c == '+' || c == '.' || c == 'e' || c == 'E'
  }

  /** Every number literal starts like one and uses number characters only, as any parsed
      number does (section 6 of RFC 8259). */
  predicate WellFormed(v: Value) {
    match v
    case Number(l) => l != [] && (l[0] == '-' || '0' <= l[0] <= '9') && forall i :: 0 <= i < |l| ==> NumberChar(l[i])
    case Array(items) => forall i :: 0 <= i < |items| ==> WellFormed(items[i])
    case Object(fields) => forall k :: k in fields ==> WellFormed(fields[k])
    case _ => true
  }

  lemma {:induction false} NumberUnique(l: string, m: string, x: string, y: string)
    requires forall i :: 0 <= i < |l| ==> NumberChar(l[i])
    requires forall i :: 0 <= i < |m| ==> NumberChar(m[i])
    requires Ends(x) && Ends(y) && l + x == m + y
    ensures l == m && x == y
  {
    assert forall i :: 0 <= i < |l| ==> (l + x)[i] == l[i];
    assert forall i :: 0 <= i < |m| ==> (m + y)[i] == m[i];
    assert x != [] ==> (l + x)[|l|] == x[0];
    assert y != [] ==> (m + y)[|m|] == y[0];
    assert |l| == |m|;
    assert (l + x)[..|l|] == l && (m + y)[..|l|] == m;
    assert (l + x)[|l|..] == x && (m + y)[|l|..] == y;
  }

  // ----- whole values -----

  function Canon(v: Value): string
    decreases v, 1
  {
    match v
    case Null => "null"
    case Bool(b) => if b then "true" else "false"
    case Number(l) => l
    case String(s) => Quote(s)
    case Array(items) => "[" + CanonItems(v, 0) + "]"
    case Object(fields) => "{" + CanonFields(v, SortedKeys(fields.Keys), 0) + "}"
  }

  function Separator(i: nat): string {
    if i > 0 then "," else ""
  }

  /** The elements from the i-th on, each after the first with its comma. */
  function CanonItems(v: Value, i: nat): string
    requires v.Array? && i <= |v.items|
    decreases v, 0, |v.items| - i
  {
    if i == |v.items| then "" else Separator(i) + Canon(v.items[i]) + CanonItems(v, i + 1)
  }

  function CanonFields(v: Value, ks: seq<string>, i: nat): string
    requires v.Object? && (forall k :: k in ks ==> k in v.fields) && i <= |ks|
    decreases v, 0, |ks| - i
  {
    if i == |ks| then ""
    else Separator(i) + Quote(ks[i]) + ":" + Canon(v.fields[ks[i]]) + CanonFields(v, ks, i + 1)
  }

  /** What may follow a value inside a text. */
  predicate Ends(x: string) {
    x == [] || x[0] == ',' || x[0] == ']' || x[0] == '}'
  }

  /** The first character tells what kind of value follows, and is never a delimiter. */
  lemma CanonStarts(v: Value)
    requires WellFormed(v)
    ensures Canon(v) != []
    ensures var c := Canon(v)[0];
      && c != ',' && c != ']' && c != '}' && c != ':'
      && (v.Null? <==> c == 'n') && (v.Bool? <==> c == 't' || c == 'f') && (v.String? <==> c == '"')
      && (v.Array? <==> c == '[') && (v.Object? <==> c == '{')
      && (v.Number? <==> c == '-' || '0' <= c <= '9')
  {}

  /** A value can be read off the front of any text in one way only. */
  lemma {:induction false} CanonUnique(a: Value, b: Value, x: string, y: string)
    requires WellFormed(a) && WellFormed(b) && Ends(x) && Ends(y)
    requires Canon(a) + x == Canon(b) + y
    ensures a == b && x == y
    decreases a, 1
  {
    hide CanonItems, CanonFields, Quote;
    CanonStarts(a);
    CanonStarts(b);
    assert (Canon(a) + x)[0] == Canon(a)[0] && (Canon(b) + y)[0] == Canon(b)[0];
    match a {
      case Null => SameLength(Canon(a), Canon(b), x, y);
      case Bool(_) => SameLength(Canon(a), Canon(b), x, y);
      case Number(l) => NumberUnique(l, b.literal, x, y);
      case String(s) => QuoteUnique(s, b.s, x, y);
      case Array(_) => ArrayUnique(a, b, x, y);
      case Object(_) => ObjectUnique(a, b, x, y);
    }
  }

  lemma {:induction false} ArrayUnique(a: Value, b: Value, x: string, y: string)
    requires WellFormed(a) && WellFormed(b) && a.Array? && b.Array?
    requires Canon(a) + x == Canon(b) + y
    ensures a == b && x == y
    decreases a, 0, |a.items| + 1
  {
    hide CanonItems;
    assert (Canon(a) + x)[1..] == ItemsText(a, 0, x);
    assert (Canon(b) + y)[1..] == ItemsText(b, 0, y);
    ItemsUnique(a, b, 0, x, y);
  }

  lemma {:induction false} ObjectUnique(a: Value, b: Value, x: string, y: string)
    requires WellFormed(a) && WellFormed(b) && a.Object? && b.Object?
    requires Canon(a) + x == Canon(b) + y
    ensures a == b && x == y
    decreases a, 0, |SortedKeys(a.fields.Keys)| + 1
  {
    hide CanonFields, SortedKeys;
    var ks, ks' := SortedKeys(a.fields.Keys), SortedKeys(b.fields.Keys);
    assert (Canon(a) + x)[1..] == FieldsText(a, ks, 0, x);
    assert (Canon(b) + y)[1..] == FieldsText(b, ks', 0, y);
    FieldsUnique(a, b, ks, ks', 0, x, y);
    assert ks[0..] == ks && ks'[0..] == ks';
    assert forall k :: k in a.fields <==> k in ks;
    assert forall k :: k in b.fields <==> k in ks';
    assert a.fields == b.fields;
  }

  lemma SameLength(l: string, m: string, x: string, y: string)
    requires |l| == |m| && l + x == m + y
    ensures l == m && x == y
  {
    assert (l + x)[..|l|] == l && (m + y)[..|l|] == m;
    assert (l + x)[|l|..] == x && (m + y)[|l|..] == y;
  }

  /** The text of the elements from the i-th on, up to and past the closing bracket. */
  function ItemsText(v: Value, i: nat, x: string): string
    requires v.Array? && i <= |v.items|
  {
    CanonItems(v, i) + "]" + x
  }

  lemma RegroupItem(separator: string, value: string, rest: string, x: string)
    ensures separator + value + rest + "]" + x == separator + (value + (rest + "]" + x))
  {}

  lemma ItemsPeel(v: Value, i: nat, x: string)
    requires v.Array? && WellFormed(v) && i <= |v.items|
    ensures i == |v.items| ==> ItemsText(v, i, x) == "]" + x
    ensures i < |v.items| ==> ItemsText(v, i, x) == Separator(i) + (Canon(v.items[i]) + ItemsText(v, i + 1, x))
    ensures i > 0 ==> Ends(ItemsText(v, i, x))
    ensures i < |v.items| ==> ItemsText(v, i, x)[0] != ']'
  {
    if i < |v.items| {
      CanonStarts(v.items[i]);
      hide Canon, WellFormed;
      RegroupItem(Separator(i), Canon(v.items[i]), CanonItems(v, i + 1), x);
    }
  }

  lemma {:induction false} ItemsUnique(a: Value, b: Value, i: nat, x: string, y: string)
    requires WellFormed(a) && WellFormed(b) && a.Array? && b.Array?
    requires i <= |a.items| && i <= |b.items|
    requires ItemsText(a, i, x) == ItemsText(b, i, y)
    ensures a.items[i..] == b.items[i..] && x == y
    decreases a, 0, |a.items| - i
  {
    hide Canon, ItemsText;
    ItemsPeel(a, i, x);
    ItemsPeel(b, i, y);
    if i == |a.items| || i == |b.items| {
      assert ("]" + x)[0] == ']' && ("]" + y)[0] == ']';
      assert ("]" + x)[1..] == x && ("]" + y)[1..] == y;
    } else {
      var more, more' := ItemsText(a, i + 1, x), ItemsText(b, i + 1, y);
      ItemsPeel(a, i + 1, x);
      ItemsPeel(b, i + 1, y);
      SameLength(Separator(i), Separator(i), Canon(a.items[i]) + more, Canon(b.items[i]) + more');
      CanonUnique(a.items[i], b.items[i], more, more');
      ItemsUnique(a, b, i + 1, x, y);
      assert a.items[i..] == [a.items[i]] + a.items[i + 1..] && b.items[i..] == [b.items[i]] + b.items[i + 1..];
    }
  }

  function FieldsText(v: Value, ks: seq<string>, i: nat, x: string): string
    requires v.Object? && (forall k :: k in ks ==> k in v.fields) && i <= |ks|
  {
    CanonFields(v, ks, i) + "}" + x
  }

  lemma Regroup(separator: string, q: string, value: string, rest: string, x: string)
    ensures separator + q + ":" + value + rest + "}" + x == separator + (q + (":" + (value + (rest + "}" + x))))
  {}

  lemma FieldsPeel(v: Value, ks: seq<string>, i: nat, x: string)
    requires v.Object? && (forall k :: k in ks ==> k in v.fields) && i <= |ks|
    ensures i == |ks| ==> FieldsText(v, ks, i, x) == "}" + x
    ensures i < |ks| ==>
      FieldsText(v, ks, i, x) == Separator(i) + (Quote(ks[i]) + (":" + (Canon(v.fields[ks[i]]) + FieldsText(v, ks, i + 1, x))))
    ensures i > 0 ==> Ends(FieldsText(v, ks, i, x))
    ensures i < |ks| ==> FieldsText(v, ks, i, x)[0] != '}'
  {
    if i < |ks| {
      assert Quote(ks[i])[0] == '"';
      hide Canon, Quote;
      Regroup(Separator(i), Quote(ks[i]), Canon(v.fields[ks[i]]), CanonFields(v, ks, i + 1), x);
    }
  }

  lemma {:induction false} FieldsUnique(a: Value, b: Value, ks: seq<string>, ks': seq<string>, i: nat, x: string, y: string)
    requires WellFormed(a) && WellFormed(b) && a.Object? && b.Object?
    requires (forall k :: k in ks ==> k in a.fields) && (forall k :: k in ks' ==> k in b.fields)
    requires i <= |ks| && i <= |ks'|
    requires FieldsText(a, ks, i, x) == FieldsText(b, ks', i, y)
    ensures ks[i..] == ks'[i..] && x == y
    ensures forall k :: k in ks[i..] ==> k in b.fields && a.fields[k] == b.fields[k]
    decreases a, 0, |ks| - i
  {
    hide Canon, Quote, FieldsText;
    FieldsPeel(a, ks, i, x);
    FieldsPeel(b, ks', i, y);
    if i == |ks| || i == |ks'| {
      assert ("}" + x)[0] == '}' && ("}" + y)[0] == '}';
      assert ("}" + x)[1..] == x && ("}" + y)[1..] == y;
    } else {
      var v, v' := a.fields[ks[i]], b.fields[ks'[i]];
      var more, more' := FieldsText(a, ks, i + 1, x), FieldsText(b, ks', i + 1, y);
      FieldsPeel(a, ks, i + 1, x);
      FieldsPeel(b, ks', i + 1, y);
      var value, value' := ":" + (Canon(v) + more), ":" + (Canon(v') + more');
      SameLength(Separator(i), Separator(i), Quote(ks[i]) + value, Quote(ks'[i]) + value');
      QuoteUnique(ks[i], ks'[i], value, value');
      SameLength(":", ":", Canon(v) + more, Canon(v') + more');
      CanonUnique(v, v', more, more');
      FieldsUnique(a, b, ks, ks', i + 1, x, y);
      assert ks[i..] == [ks[i]] + ks[i + 1..] && ks'[i..] == [ks'[i]] + ks'[i + 1..];
    }
  }

  /** Two calls share a cache key exactly when their arguments are the same JSON, whatever
      order their keys came in. */
  lemma CanonInjective(a: Value, b: Value)
    requires WellFormed(a) && WellFormed(b)
    ensures Canon(a) == Canon(b) <==> a == b
  {
    if Canon(a) == Canon(b) {
      assert Canon(a) + [] == Canon(b) + [];
      CanonUnique(a, b, [], []);
    }
  }

  // ----- the program's writer -----

  method CanonicalArgs(v: Value) returns (out: string)
    ensures out == Canon(v)
  {
    out := WriteCanon(v, "");
  }

  method WriteCanon(v: Value, start: string) returns (out: string)
    ensures out == start + Canon(v)
    decreases v, 1
  {
    hide Quote, CanonItems, CanonFields, SortedKeys;
    match v {
      case Object(fields) => out := WriteFields(v, start + "{");
      case Array(items) => out := WriteItems(v, start + "[");
      case Null => out := start + "null";
      case Bool(b) => out := start + (if b then "true" else "false");
      case Number(l) => out := start + l;
      case String(s) => out := start + Quote(s);
    }
  }

  method WriteItems(v: Value, start: string) returns (out: string)
    requires v.Array?
    ensures out == start + (CanonItems(v, 0) + "]")
    decreases v, 0
  {
    hide Canon;
    out := start;
    for i := 0 to |v.items|
      invariant out + CanonItems(v, i) == start + CanonItems(v, 0)
    {
      ghost var was := out;
      if i > 0 { out := out + ","; }
      out := WriteCanon(v.items[i], out);
      assert out + CanonItems(v, i + 1) == was + CanonItems(v, i);
    }
    assert out + "" == out && out + "]" == start + (CanonItems(v, 0) + "]");
    out := out + "]";
  }

  method WriteFields(v: Value, start: string) returns (out: string)
    requires v.Object?
    ensures out == start + (CanonFields(v, SortedKeys(v.fields.Keys), 0) + "}")
    decreases v, 0
  {
    hide Canon, Quote, SortedKeys;
    var ks := SortedKeys(v.fields.Keys);
    out := start;
    for i := 0 to |ks|
      invariant out + CanonFields(v, ks, i) == start + CanonFields(v, ks, 0)
    {
      ghost var was := out;
      if i > 0 { out := out + ","; }
      out := out + Quote(ks[i]) + ":";
      out := WriteCanon(v.fields[ks[i]], out);
      assert CanonFields(v, ks, i) == Separator(i) + Quote(ks[i]) + ":" + Canon(v.fields[ks[i]]) + CanonFields(v, ks, i + 1);
      Appended(was, Separator(i), Quote(ks[i]), Canon(v.fields[ks[i]]), CanonFields(v, ks, i + 1));
      hide CanonFields;
    }
    assert out + "" == out && out + "}" == start + (CanonFields(v, ks, 0) + "}");
    out := out + "}";
  }

  lemma Appended(out: string, separator: string, q: string, value: string, rest: string)
    ensures out + separator + q + ":" + value + rest == out + (separator + q + ":" + value + rest)
    ensures out + "" == out
  {}
}
