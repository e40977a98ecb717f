/** Compacting the JSON text of tool results (src/backend.rs): insignificant whitespace is
    dropped lexically, and no token changes.

    The reference is a lexer and the grammar of sections 2 to 7 of RFC 8259. */
module JsonText {
  import opened Json

  // ----- the program's loop -----

  /** Rust's ASCII whitespace: the four JSON knows, and the form feed. */
  predicate AsciiWhitespace(c: char) {
    JsonSpace(c) || c as int == 12
  }

  function Strip(text: string, inString: bool, escaped: bool): string {
    if text == [] then [] else
      var c, rest := text[0], text[1..];
      if inString then
        [c] + Strip(rest, escaped || c != '"', !escaped && c == '\\')
      else if c == '"' then [c] + Strip(rest, true, false)
      else if AsciiWhitespace(c) then Strip(rest, false, false)
      else [c] + Strip(rest, false, false)
  }

  /** One character: what it adds to the output, and what is left to strip. */
  lemma StripCons(out: string, c: char, rest: string, inString: bool, escaped: bool)
    ensures inString || c == '"' || !AsciiWhitespace(c) ==>
      out + Strip([c] + rest, inString, escaped)
        == (out + [c]) + Strip(rest, if inString then escaped || c != '"' else c == '"', inString && !escaped && c == '\\')
    ensures !inString && c != '"' && AsciiWhitespace(c) ==>
      out + Strip([c] + rest, inString, escaped) == out + Strip(rest, false, false)
  {
    assert ([c] + rest)[1..] == rest;
    var after := Strip(rest, if inString then escaped || c != '"' else c == '"', inString && !escaped && c == '\\');
    assert out + ([c] + after) == (out + [c]) + after;
  }

  method StripJsonWhitespace(text: string) returns (out: string)
    ensures out == Strip(text, false, false)
  {
    out := "";
    var inString, escaped := false, false;
    assert text[0..] == text && out + Strip(text, false, false) == Strip(text, false, false);
    for i := 0 to |text|
      invariant escaped ==> inString
      invariant out + Strip(text[i..], inString, escaped) == Strip(text, false, false)
    {
      hide Strip;
      var c := text[i];
      assert text[i..] == [c] + text[i + 1..];
      StripCons(out, c, text[i + 1..], inString, escaped);
      if inString {
        out := out + [c];
        if escaped {
          escaped := false;
        } else if c == '\\' {
          escaped := true;
        } else if c == '"' {
          inString := false;
        }
      } else if c == '"' {
        inString := true;
        out := out + [c];
      } else if !AsciiWhitespace(c) {
        out := out + [c];
      }
    }
    assert text[|text|..] == [] && out + [] == out;
  }

  // ----- tokens -----

  predicate JsonSpace(c: char) {
    c == ' ' || c == '\t' || c == '\n' || c == '\r'
  }

  predicate Structural(c: char) {
    c == '{' || c == '}' || c == '[' || c == ']' || c == ':' || c == ','
  }

  /** What the lexer is in the middle of; `w` is the part of the token read so far. */
  datatype LexState = Between | InWord(w: string) | InString(w: string, escaped: bool)

  /** The tokens of a text, each verbatim: string literals, structural characters, and words
      (the runs of anything else). */
  function Lex(text: string, st: LexState): seq<string> {
    if text == [] then (if st.Between? then [] else [st.w])
    else
      var c, rest := text[0], text[1..];
      match st
      case InString(w, escaped) =>
        if c == '"' && !escaped then [w + [c]] + Lex(rest, Between)
        else Lex(rest, InString(w + [c], !escaped && c == '\\'))
      case Between =>
        if JsonSpace(c) then Lex(rest, Between)
        else if c == '"' then Lex(rest, InString([c], false))
        else if Structural(c) then [[c]] + Lex(rest, Between)
        else Lex(rest, InWord([c]))
      case InWord(w) =>
        if JsonSpace(c) then [w] + Lex(rest, Between)
        else if c == '"' then [w] + Lex(rest, InString([c], false))
        else if Structural(c) then [w, [c]] + Lex(rest, Between)
        else Lex(rest, InWord(w + [c]))
  }

  predicate IsWord(t: string) {
    t != [] && t[0] != '"' && !Structural(t[0])
  }

  // ----- grammar -----

  datatype NumberState = Start | Minus | Zero | Integer | Dot | Fraction | Exponent | Sign | Power

  /** The number grammar of section 6, one character at a time. */
  function NumberStep(st: NumberState, c: char): Option<NumberState> {
    var digit := '0' <= c <= '9';
    match st
    case Start => if c == '-' then Some(Minus) else if c == '0' then Some(Zero) else if digit then Some(Integer) else None
    case Minus => if c == '0' then Some(Zero) else if digit then Some(Integer) else None
    case Zero => if c == '.' then Some(Dot) else if c == 'e' || c == 'E' then Some(Exponent) else None
    case Integer =>
      if digit then Some(Integer) else if c == '.' then Some(Dot) else if c == 'e' || c == 'E' then Some(Exponent) else None
    case Dot => if digit then Some(Fraction) else None
    case Fraction => if digit then Some(Fraction) else if c == 'e' || c == 'E' then Some(Exponent) else None
    case Exponent => if c == '+' || c == '-' then Some(Sign) else if digit then Some(Power) else None
    case Sign => if digit then Some(Power) else None
    case Power => if digit then Some(Power) else None
  }

  predicate NumberFrom(st: NumberState, t: string)
    decreases |t|
  {
    if t == [] then st.Zero? || st.Integer? || st.Fraction? || st.Power?
    else NumberStep(st, t[0]).Some? && NumberFrom(NumberStep(st, t[0]).value, t[1..])
  }

  predicate ValidWord(t: string) {
    t == "true" || t == "false" || t == "null" || NumberFrom(Start, t)
  }

  predicate Hex(c: char) {
    '0' <= c <= '9' || 'a' <= c <= 'f' || 'A' <= c <= 'F'
  }

  /** The rest of a string literal after its opening quote (section 7). */
  predicate StringBody(t: string) {
    if t == [] then false
    else if t[0] == '"' then |t| == 1
    else if t[0] == '\\' then
      |t| >= 2 && (if t[1] == 'u' then |t| >= 6 && (forall i :: 2 <= i < 6 ==> Hex(t[i])) && StringBody(t[6..])
                   else t[1] in "\"\\/bfnrt" && StringBody(t[2..]))
    else t[0] as int >= 32 && StringBody(t[1..])
  }

  predicate ValidString(t: string) {
    t != [] && t[0] == '"' && StringBody(t[1..])
  }

  /** What is left after one value is taken off the front of `ts`. */
  function ParseValue(ts: seq<string>): (r: Option<seq<string>>)
    ensures r.Some? ==> |r.value| < |ts|
    decreases |ts|, 1
  {
    if ts == [] then None
    else if ts[0] == "[" then
      if |ts| > 1 && ts[1] == "]" then Some(ts[2..]) else ParseItems(ts[1..])
    else if ts[0] == "{" then
      if |ts| > 1 && ts[1] == "}" then Some(ts[2..]) else ParseMembers(ts[1..])
    else if ValidString(ts[0]) || (IsWord(ts[0]) && ValidWord(ts[0])) then Some(ts[1..])
    else None
  }

  function ParseItems(ts: seq<string>): (r: Option<seq<string>>)
    ensures r.Some? ==> |r.value| < |ts|
    decreases |ts|, 2
  {
    match ParseValue(ts)
    case None => None
    case Some(rest) =>
      if rest == [] then None
      else if rest[0] == "]" then Some(rest[1..])
      else if rest[0] == "," then ParseItems(rest[1..])
      else None
  }

  function ParseMembers(ts: seq<string>): (r: Option<seq<string>>)
    ensures r.Some? ==> |r.value| < |ts|
    decreases |ts|, 2
  {
    if |ts| < 2 || !ValidString(ts[0]) || ts[1] != ":" then None
    else match ParseValue(ts[2..])
      case None => None
      case Some(rest) =>
        if rest == [] then None
        else if rest[0] == "}" then Some(rest[1..])
        else if rest[0] == "," then ParseMembers(rest[1..])
        else None
  }

  predicate ValidJson(text: string) {
    ParseValue(Lex(text, Between)) == Some([])
  }

  // ----- valid JSON never puts two words side by side -----

  /** Words are proper ones and no two are adjacent. */
  ghost predicate Spaced(ts: seq<string>) {
    && (forall i :: 0 <= i < |ts| && IsWord(ts[i]) ==> ValidWord(ts[i]))
    && (forall i :: 0 <= i < |ts| - 1 ==> !IsWord(ts[i]) || !IsWord(ts[i + 1]))
  }

  lemma SpacedJoin(a: seq<string>, mark: string, b: seq<string>)
    requires Spaced(a) && Spaced(b) && !IsWord(mark)
    ensures Spaced(a + [mark] + b)
  {}

  lemma StringIsSpaced(t: string)
    requires ValidString(t)
    ensures Spaced([t])
  {}

  lemma NothingIsSpaced()
    ensures Spaced([])
  {}

  /** The tokens a parse takes off the front. */
  ghost function Taken(ts: seq<string>, r: Option<seq<string>>): seq<string>
    requires r.Some? ==> |r.value| <= |ts|
  {
    if r.Some? then ts[..|ts| - |r.value|] else []
  }

  /** Putting the pieces of a token list back together. */
  lemma Rejoin(ts: seq<string>, first: seq<string>, mark: string, more: seq<string>, left: seq<string>)
    requires ts == first + ([mark] + (more + left))
    ensures ts[..|ts| - |left|] == first + [mark] + more
    ensures ts == ts[..|ts| - |left|] + left
  {}

  lemma {:induction false} ValueSpaced(ts: seq<string>)
    requires ParseValue(ts).Some?
    ensures var r := ParseValue(ts); Spaced(Taken(ts, r)) && ts == Taken(ts, r) + r.value
    decreases |ts|, 1
  {
    if ts[0] == "[" && !(|ts| > 1 && ts[1] == "]") {
      ItemsSpaced(ts[1..]);
      ContainerSpaced(ts, ParseItems(ts[1..]));
    } else if ts[0] == "{" && !(|ts| > 1 && ts[1] == "}") {
      MembersSpaced(ts[1..]);
      ContainerSpaced(ts, ParseMembers(ts[1..]));
    }
  }

  lemma ContainerSpaced(ts: seq<string>, r: Option<seq<string>>)
    requires ts != [] && !IsWord(ts[0]) && r.Some? && |r.value| < |ts|
    requires Spaced(Taken(ts[1..], r)) && ts[1..] == Taken(ts[1..], r) + r.value
    ensures Spaced(Taken(ts, r)) && ts == Taken(ts, r) + r.value
  {
    hide Spaced, IsWord;
    var inner := Taken(ts[1..], r);
    NothingIsSpaced();
    SpacedJoin([], ts[0], inner);
    assert ts == [] + ([ts[0]] + (inner + r.value));
    Rejoin(ts, [], ts[0], inner, r.value);
  }

  lemma {:induction false} ItemsSpaced(ts: seq<string>)
    requires ParseItems(ts).Some?
    ensures var r := ParseItems(ts); Spaced(Taken(ts, r)) && ts == Taken(ts, r) + r.value
    decreases |ts|, 2
  {
    hide ParseValue, Spaced, ValidWord;
    ValueSpaced(ts);
    var first, rest := Taken(ts, ParseValue(ts)), ParseValue(ts).value;
    if rest[0] == "]" {
      NothingIsSpaced();
      SpacedJoin(first, "]", []);
      Rejoin(ts, first, "]", [], rest[1..]);
    } else {
      ItemsSpaced(rest[1..]);
      var more := Taken(rest[1..], ParseItems(rest[1..]));
      SpacedJoin(first, ",", more);
      Rejoin(ts, first, ",", more, ParseItems(ts).value);
    }
  }

  /** A key, its colon and its value. */
  lemma {:induction false} MemberSpaced(ts: seq<string>) returns (member: seq<string>)
    requires |ts| >= 2 && ValidString(ts[0]) && ts[1] == ":" && ParseValue(ts[2..]).Some?
    ensures Spaced(member) && ts == member + ParseValue(ts[2..]).value
    decreases |ts|, 0
  {
    hide ParseValue, Spaced, ValidWord;
    ValueSpaced(ts[2..]);
    var r := ParseValue(ts[2..]);
    var value := Taken(ts[2..], r);
    StringIsSpaced(ts[0]);
    SpacedJoin([ts[0]], ":", value);
    member := [ts[0]] + [":"] + value;
    assert ts == [ts[0]] + ([":"] + (value + r.value));
    Rejoin(ts, [ts[0]], ":", value, r.value);
  }

  lemma {:induction false} MembersSpaced(ts: seq<string>)
    requires ParseMembers(ts).Some?
    ensures var r := ParseMembers(ts); Spaced(Taken(ts, r)) && ts == Taken(ts, r) + r.value
    decreases |ts|, 2
  {
    hide ParseValue, Spaced, ValidWord, ValidString;
    var first := MemberSpaced(ts);
    var rest := ParseValue(ts[2..]).value;
    if rest[0] == "}" {
      NothingIsSpaced();
      SpacedJoin(first, "}", []);
      Rejoin(ts, first, "}", [], rest[1..]);
    } else {
      MembersSpaced(rest[1..]);
      var more := Taken(rest[1..], ParseMembers(rest[1..]));
      SpacedJoin(first, ",", more);
      Rejoin(ts, first, ",", more, ParseMembers(ts).value);
    }
  }

  // ----- so stripping keeps the tokens -----

  function StripFrom(text: string, st: LexState): string {
    Strip(text, st.InString?, st.InString? && st.escaped)
  }

  /** A word being read stays at the front of the tokens to come. */
  lemma {:induction false} WordStartsTokens(text: string, w: string)
    requires IsWord(w)
    ensures var ts := Lex(text, InWord(w)); ts != [] && w <= ts[0] && IsWord(ts[0])
  {
    if text != [] && !JsonSpace(text[0]) && text[0] != '"' && !Structural(text[0]) {
      WordStartsTokens(text[1..], w + [text[0]]);
    }
  }

  lemma {:induction false} NumberHasNoFormFeed(st: NumberState, t: string)
    requires NumberFrom(st, t)
    ensures 12 as char !in t
    decreases |t|
  {
    if t != [] { NumberHasNoFormFeed(NumberStep(st, t[0]).value, t[1..]); }
  }

  /** A form feed outside a string is part of no valid word. */
  lemma FormFeedIsInvalid(w: string, t: string)
    requires w <= t && 12 as char in w
    ensures !ValidWord(t)
  {
    assert 12 as char in t;
    if NumberFrom(Start, t) { NumberHasNoFormFeed(Start, t); }
  }

  lemma {:induction false} StripKeepsTokensFrom(text: string, st: LexState)
    requires Spaced(Lex(text, st)) && (st.InWord? ==> IsWord(st.w))
    ensures Lex(StripFrom(text, st), st) == Lex(text, st)
    decreases |text|, 1
  {
    if text != [] {
      var c, rest := text[0], text[1..];
      match st {
        case InString(w, escaped) =>
          if c == '"' && !escaped {
            SpacedTail(w + [c], Lex(rest, Between));
            StripKeepsTokensFrom(rest, Between);
          } else {
            StripKeepsTokensFrom(rest, InString(w + [c], !escaped && c == '\\'));
          }
        case Between => StripBetween(text);
        case InWord(w) => StripInWord(text, w);
      }
    }
  }

  lemma {:induction false} StripBetween(text: string)
    requires Spaced(Lex(text, Between)) && text != []
    ensures Lex(Strip(text, false, false), Between) == Lex(text, Between)
    decreases |text|, 0
  {
    var c, rest := text[0], text[1..];
    if JsonSpace(c) {
      StripKeepsTokensFrom(rest, Between);
    } else if c == '"' {
      StripKeepsTokensFrom(rest, InString([c], false));
    } else if Structural(c) {
      SpacedTail([c], Lex(rest, Between));
      StripKeepsTokensFrom(rest, Between);
    } else {
      WordStartsTokens(rest, [c]);
      if c as int == 12 { FormFeedIsInvalid([c], Lex(rest, InWord([c]))[0]); }
      StripKeepsTokensFrom(rest, InWord([c]));
    }
  }

  lemma {:induction false} StripInWord(text: string, w: string)
    requires Spaced(Lex(text, InWord(w))) && text != [] && IsWord(w)
    ensures Lex(Strip(text, false, false), InWord(w)) == Lex(text, InWord(w))
    decreases |text|, 0
  {
    var c, rest := text[0], text[1..];
    if JsonSpace(c) {
      StripAfterWord(rest, w);
    } else if c == '"' {
      SpacedTail(w, Lex(rest, InString([c], false)));
      StripKeepsTokensFrom(rest, InString([c], false));
    } else if Structural(c) {
      assert [w, [c]] + Lex(rest, Between) == [w] + ([[c]] + Lex(rest, Between));
      SpacedTail(w, [[c]] + Lex(rest, Between));
      SpacedTail([c], Lex(rest, Between));
      StripKeepsTokensFrom(rest, Between);
    } else {
      WordStartsTokens(rest, w + [c]);
      if c as int == 12 { FormFeedIsInvalid(w + [c], Lex(rest, InWord(w + [c]))[0]); }
      StripKeepsTokensFrom(rest, InWord(w + [c]));
    }
  }

  /** Closing up the gap after a word joins nothing to it: no word follows. */
  lemma {:induction false} StripAfterWord(text: string, w: string)
    requires Spaced([w] + Lex(text, Between)) && IsWord(w)
    ensures Lex(Strip(text, false, false), InWord(w)) == [w] + Lex(text, Between)
    decreases |text|, 1
  {
    if text != [] {
      var c, rest := text[0], text[1..];
      var ts := Lex(text, Between);
      assert ([w] + ts)[0] == w;
      assert ts != [] ==> ([w] + ts)[1] == ts[0] && !IsWord(ts[0]);
      if JsonSpace(c) {
        StripAfterWord(rest, w);
      } else if c == '"' {
        SpacedTail(w, Lex(text, Between));
        StripKeepsTokensFrom(rest, InString([c], false));
      } else if Structural(c) {
        SpacedTail(w, Lex(text, Between));
        SpacedTail([c], Lex(rest, Between));
        StripKeepsTokensFrom(rest, Between);
        assert [w, [c]] + Lex(rest, Between) == [w] + ([[c]] + Lex(rest, Between));
      } else {
        WordStartsTokens(rest, [c]);
        assert false;
      }
    }
  }

  lemma SpacedTail(t: string, ts: seq<string>)
    requires Spaced([t] + ts)
    ensures Spaced(ts)
  {
    var all := [t] + ts;
    assert forall i :: 0 <= i < |ts| ==> ts[i] == all[i + 1];
    forall i | 0 <= i < |ts| - 1 ensures !IsWord(ts[i]) || !IsWord(ts[i + 1]) {
      assert ts[i] == all[i + 1] && ts[i + 1] == all[i + 2];
    }
  }

  /** On valid JSON, stripping leaves every token as it was, so the text is still valid and
      still says the same. */
  lemma StripKeepsTokens(text: string)
    requires ValidJson(text)
    ensures Lex(Strip(text, false, false), Between) == Lex(text, Between)
    ensures ValidJson(Strip(text, false, false))
  {
    var ts := Lex(text, Between);
    ValueSpaced(ts);
    assert Taken(ts, Some([])) == ts;
    StripKeepsTokensFrom(text, Between);
  }

  lemma {:induction false} StripIdempotent(text: string, inString: bool, escaped: bool)
    ensures Strip(Strip(text, inString, escaped), inString, escaped) == Strip(text, inString, escaped)
    ensures |Strip(text, inString, escaped)| <= |text|
  {
    if text != [] {
      var c, rest := text[0], text[1..];
      if inString {
        StripIdempotent(rest, escaped || c != '"', !escaped && c == '\\');
      } else if c == '"' {
        StripIdempotent(rest, true, false);
      } else {
        StripIdempotent(rest, false, false);
      }
    }
  }

  // ----- compacting a tool result -----

  /** One content block: its text is replaced when it is JSON and shrinks. */
  function CompactBlock(block: Value): Value {
    match Get(block, "text")
    case Some(String(text)) =>
      var compact := Strip(text, false, false);
      if ValidJson(text) && |compact| < |text| then Object(block.fields["text" := String(compact)]) else block
    case _ => block
  }

  /** The content blocks are edited in turn. */
  method CompactJsonTexts(result: Value) returns (r: Value)
    ensures match Get(result, "content")
            case Some(Array(blocks)) =>
              r == Object(result.fields["content" := Array(seq(|blocks|, i requires 0 <= i < |blocks| => CompactBlock(blocks[i])))])
            case _ => r == result
  {
    r := result;
    match Get(result, "content") {
      case Some(Array(blocks)) =>
        var out: seq<Value> := [];
        for i := 0 to |blocks|
          invariant |out| == i && forall j :: 0 <= j < i ==> out[j] == CompactBlock(blocks[j])
        {
          var block := blocks[i];
          match Get(block, "text") {
            case Some(String(text)) =>
              if ValidJson(text) {
                var compact := StripJsonWhitespace(text);
                if |compact| < |text| { block := Object(block.fields["text" := String(compact)]); }
              }
            case _ =>
          }
          out := out + [block];
        }
        assert out == seq(|blocks|, i requires 0 <= i < |blocks| => CompactBlock(blocks[i]));
        r := Object(result.fields["content" := Array(out)]);
      case _ =>
    }
  }

  /** A block keeps every field but `text`; its text keeps its tokens if it was JSON and
      every character if it was not; and compacting again changes nothing. */
  lemma CompactBlockKeepsMeaning(block: Value)
    ensures var r := CompactBlock(block);
      && (r != block ==> r.Object? && block.Object? && r.fields - {"text"} == block.fields - {"text"})
      && (forall text :: Get(block, "text") == Some(String(text)) ==>
            exists text' :: Get(r, "text") == Some(String(text')) &&
              if ValidJson(text) then Lex(text', Between) == Lex(text, Between) && ValidJson(text') else text' == text)
      && CompactBlock(r) == r
  {
    match Get(block, "text") {
      case Some(String(text)) =>
        var r := CompactBlock(block);
        if ValidJson(text) { StripKeepsTokens(text); }
        StripIdempotent(text, false, false);
        var text' := r.fields["text"].s;
        assert Get(r, "text") == Some(String(text'));
      case _ =>
    }
  }
}
