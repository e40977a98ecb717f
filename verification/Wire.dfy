/** Two text encodings on the wire: path segments (src/exec.rs) and header values
    (src/modern.rs). A Rust string is taken as its UTF-8 bytes, one character per byte. */
module Wire {
  predicate IsByte(c: char) {
    c as int < 256
  }

  type ByteString = s: string | forall i :: 0 <= i < |s| ==> IsByte(s[i])

  // ----- path segments -----

  function HexDigit(d: nat): char
    requires d < 16
  {
    "0123456789ABCDEF"[d]
  }

  function HexValue(c: char): nat {
    if '0' <= c <= '9' then c as int - '0' as int
    else if 'A' <= c <= 'F' then c as int - 'A' as int + 10
    else if 'a' <= c <= 'f' then c as int - 'a' as int + 10
    else 0
  }

  /** The unreserved characters of section 2.3 of RFC 3986. */
  predicate IsUnreserved(c: char) {
    'A' <= c <= 'Z' || 'a' <= c <= 'z' || '0' <= c <= '9' || c == '-' || c == '.' || c == '_' || c == '~'
  }

  predicate IsHex(c: char) {
    '0' <= c <= '9' || 'A' <= c <= 'F'
  }

  function EncodeByte(c: char): (e: string)
    requires IsByte(c)
  {
    if IsUnreserved(c) then [c] else ['%', HexDigit(c as int / 16), HexDigit(c as int % 16)]
  }

  function EncodeBytes(s: ByteString): string {
    if s == [] then [] else EncodeByte(s[0]) + EncodeBytes(s[1..])
  }

  function Encoded(s: ByteString): string {
    if s == "." then "%2E" else if s == ".." then "%2E%2E" else EncodeBytes(s)
  }

  /** Undoes percent-encoding (section 2.1 of RFC 3986). */
  function PercentDecode(t: string): string {
    if t == [] then []
    else if t[0] == '%' && |t| >= 3 && HexValue(t[1]) * 16 + HexValue(t[2]) < 256
    then [(HexValue(t[1]) * 16 + HexValue(t[2])) as char] + PercentDecode(t[3..])
    else [t[0]] + PercentDecode(t[1..])
  }

  lemma DecodeByte(c: char, rest: string)
    requires IsByte(c)
    ensures PercentDecode(EncodeByte(c) + rest) == [c] + PercentDecode(rest)
  {
    var t := EncodeByte(c) + rest;
    if IsUnreserved(c) {
      assert t[1..] == rest;
    } else {
      HexRoundTrip(c as int / 16);
      HexRoundTrip(c as int % 16);
      assert t[3..] == rest;
    }
  }

  lemma HexRoundTrip(d: nat)
    requires d < 16
    ensures IsHex(HexDigit(d)) && HexValue(HexDigit(d)) == d
  {}

  lemma {:induction false} BytesRoundTrip(s: ByteString)
    ensures PercentDecode(EncodeBytes(s)) == s
  {
    if s != [] {
      DecodeByte(s[0], EncodeBytes(s[1..]));
      BytesRoundTrip(s[1..]);
    }
  }

  /** Decoding gives back any segment, the two dot segments too. */
  lemma EncodedRoundTrip(s: ByteString)
    ensures PercentDecode(Encoded(s)) == s
  {
    if s == "." {
      DecodeByte2E("");
      assert "%2E" + "" == "%2E";
    } else if s == ".." {
      DecodeByte2E("%2E");
      DecodeByte2E("");
      assert "%2E" + "%2E" == "%2E%2E" && "%2E" + "" == "%2E";
    } else {
      BytesRoundTrip(s);
    }
  }

  lemma DecodeByte2E(rest: string)
    ensures PercentDecode("%2E" + rest) == "." + PercentDecode(rest)
  {
    assert ("%2E" + rest)[3..] == rest;
  }

  /** Only unreserved characters and whole escapes: nothing that ends the segment. */
  predicate IsSegment(t: string) {
    t == [] || (IsUnreserved(t[0]) && IsSegment(t[1..]))
    || (|t| >= 3 && t[0] == '%' && IsHex(t[1]) && IsHex(t[2]) && IsSegment(t[3..]))
  }

  lemma {:induction false} BytesAreSegment(s: ByteString)
    ensures IsSegment(EncodeBytes(s))
  {
    if s != [] {
      BytesAreSegment(s[1..]);
      var t := EncodeBytes(s);
      if IsUnreserved(s[0]) {
        assert t[1..] == EncodeBytes(s[1..]);
      } else {
        HexRoundTrip(s[0] as int / 16);
        HexRoundTrip(s[0] as int % 16);
        assert t[3..] == EncodeBytes(s[1..]);
      }
    }
  }

  lemma {:induction false} SegmentHasNoSlash(t: string)
    requires IsSegment(t)
    ensures forall c :: c in t ==> IsUnreserved(c) || c == '%'
  {
    if t != [] {
      if IsUnreserved(t[0]) {
        SegmentHasNoSlash(t[1..]);
        assert t == [t[0]] + t[1..];
      } else {
        SegmentHasNoSlash(t[3..]);
        assert t == [t[0], t[1], t[2]] + t[3..];
      }
    }
  }

  /** Whatever the value, what is put in the path is one segment, and neither `.` nor `..`. */
  lemma EncodedIsOneSegment(s: ByteString)
    ensures forall c :: c in Encoded(s) ==> IsUnreserved(c) || c == '%'
    ensures Encoded(s) != "." && Encoded(s) != ".."
  {
    if s != "." && s != ".." {
      BytesAreSegment(s);
      SegmentHasNoSlash(EncodeBytes(s));
      BytesRoundTrip(s);
      PlainDecodes();
    }
  }

  lemma PlainDecodes()
    ensures PercentDecode(".") == "." && PercentDecode("..") == ".."
  {
    assert "."[1..] == "" && ".."[1..] == ".";
  }

  /** `encode_path_segment`. */
  method EncodePathSegment(s: ByteString) returns (out: string)
    ensures out == Encoded(s)
  {
    if s == "." { return "%2E"; }
    if s == ".." { return "%2E%2E"; }
    out := "";
    assert s[0..] == s;
    for i := 0 to |s|
      invariant out + EncodeBytes(s[i..]) == EncodeBytes(s)
    {
      assert s[i..][0] == s[i] && s[i..][1..] == s[i + 1..];
      ghost var before, rest := out, EncodeBytes(s[i + 1..]);
      hide *;
      out := out + EncodeByte(s[i]);
      assert before + (EncodeByte(s[i]) + rest) == out + rest;
    }
  }

  // ----- header values -----

  const PREFIX: string := "=?base64?"
  const SUFFIX: string := "?="

  /** The alphabet of section 4 of RFC 4648. */
  function Letter(d: nat): (c: char)
    requires d < 64
    ensures ' ' < c <= '~' && c != '=' && LetterValue(c) == d
  {
    if d < 26 then ('A' as int + d) as char
    else if d < 52 then ('a' as int + d - 26) as char
    else if d < 62 then ('0' as int + d - 52) as char
    else if d == 62 then '+' else '/'
  }

  function LetterValue(c: char): (d: nat)
    ensures d < 64
  {
    if 'A' <= c <= 'Z' then c as int - 'A' as int
    else if 'a' <= c <= 'z' then c as int - 'a' as int + 26
    else if '0' <= c <= '9' then c as int - '0' as int + 52
    else if c == '+' then 62 else 63
  }

  /** Three bytes as four letters; one or two bytes are padded. */
  function Group(s: ByteString): (t: string)
    requires 1 <= |s| <= 3
    ensures |t| == 4 && forall i :: 0 <= i < 4 ==> ' ' < t[i] <= '~'
  {
    var a, b, c := s[0] as int, if |s| > 1 then s[1] as int else 0, if |s| > 2 then s[2] as int else 0;
    [ Letter(a / 4),
      Letter(a % 4 * 16 + b / 16),
      if |s| > 1 then Letter(b % 16 * 4 + c / 64) else '=',
      if |s| > 2 then Letter(c % 64) else '=' ]
  }

  function ReadGroup(t: string): string
    requires |t| == 4
  {
    var (w, x, y, z) := (LetterValue(t[0]), LetterValue(t[1]), LetterValue(t[2]), LetterValue(t[3]));
    [(w * 4 + x / 16) as char] +
    (if t[2] == '=' then [] else [(x % 16 * 16 + y / 4) as char]) +
    (if t[3] == '=' then [] else [(y % 4 * 64 + z) as char])
  }

  function Base64(s: ByteString): (t: string)
    ensures |t| >= |s|
    ensures forall i :: 0 <= i < |t| ==> ' ' < t[i] <= '~'
  {
    if s == [] then [] else if |s| <= 3 then Group(s) else Group(s[..3]) + Base64(s[3..])
  }

  function Base64Decode(t: string): string {
    if |t| < 4 then [] else ReadGroup(t[..4]) + Base64Decode(t[4..])
  }

  lemma SextetsRoundTrip(a: nat, b: nat, c: nat)
    requires a < 256 && b < 256 && c < 256
    ensures a / 4 < 64 && a / 4 * 4 + (a % 4 * 16 + b / 16) / 16 == a
    ensures a % 4 * 16 + b / 16 < 64 && (a % 4 * 16 + b / 16) % 16 * 16 + (b % 16 * 4 + c / 64) / 4 == b
    ensures b % 16 * 4 + c / 64 < 64 && (b % 16 * 4 + c / 64) % 4 * 64 + c % 64 == c
  {}

  lemma GroupRoundTrip(s: ByteString)
    requires 1 <= |s| <= 3
    ensures ReadGroup(Group(s)) == s
  {
    var a, b, c := s[0] as int, if |s| > 1 then s[1] as int else 0, if |s| > 2 then s[2] as int else 0;
    SextetsRoundTrip(a, b, c);
    SextetsRoundTrip(a, b, 0);
    hide Letter, LetterValue;
    assert ReadGroup(Group(s))[0] as int == a;
  }

  lemma {:induction false} Base64RoundTrip(s: ByteString)
    ensures Base64Decode(Base64(s)) == s
  {
    hide Group, ReadGroup;
    if 0 < |s| <= 3 {
      GroupRoundTrip(s);
      assert Group(s)[..4] == Group(s) && Group(s)[4..] == [];
    } else if s != [] {
      GroupRoundTrip(s[..3]);
      Base64RoundTrip(s[3..]);
      assert Base64(s)[..4] == Group(s[..3]) && Base64(s)[4..] == Base64(s[3..]);
      assert s == s[..3] + s[3..];
    }
  }

  predicate StartsWith(s: string, p: string) {
    |p| <= |s| && s[..|p|] == p
  }

  predicate EndsWith(s: string, p: string) {
    |p| <= |s| && s[|s| - |p|..] == p
  }

  predicate IsBlank(c: char) {
    c == ' ' || c == '\t'
  }

  predicate LooksEncoded(s: string) {
    StartsWith(s, PREFIX) && EndsWith(s, SUFFIX)
  }

  /** Safe as a header field value: printable ASCII with no blank at either end. */
  predicate IsFieldValue(s: string) {
    (forall i :: 0 <= i < |s| ==> ' ' <= s[i] <= '~') && (s != [] ==> !IsBlank(s[0]) && !IsBlank(s[|s| - 1]))
  }

  /** `header_value`. */
  function HeaderValue(value: ByteString): string {
    var edge := value != [] && (IsBlank(value[0]) || IsBlank(value[|value| - 1]));
    var odd := exists i :: 0 <= i < |value| && !(' ' <= value[i] <= '~');
    if !(edge || odd || LooksEncoded(value)) then value else PREFIX + Base64(value) + SUFFIX
  }

  /** What the receiver of a header makes of it. */
  function ReadHeader(field: string): string {
    if LooksEncoded(field) && |field| >= |PREFIX| + |SUFFIX|
    then Base64Decode(field[|PREFIX|..|field| - |SUFFIX|]) else field
  }

  /** Every value arrives as it was, in a field that is always safe, and untouched exactly when
      it is safe as it stands and does not look like an encoded one. */
  lemma HeaderRoundTrip(value: ByteString)
    ensures ReadHeader(HeaderValue(value)) == value
    ensures IsFieldValue(HeaderValue(value))
    ensures HeaderValue(value) == value <==> IsFieldValue(value) && !LooksEncoded(value)
  {
    hide Base64, Base64Decode;
    Base64RoundTrip(value);
    SentinelParts(Base64(value));
  }

  lemma SentinelParts(middle: string)
    requires forall i :: 0 <= i < |middle| ==> ' ' < middle[i] <= '~'
    ensures var field := PREFIX + middle + SUFFIX;
      && LooksEncoded(field) && IsFieldValue(field)
      && field[|PREFIX|..|field| - |SUFFIX|] == middle
  {
    var field := PREFIX + middle + SUFFIX;
    assert field[..|PREFIX|] == PREFIX && field[|field| - |SUFFIX|..] == SUFFIX;
    assert field[|PREFIX|..|field| - |SUFFIX|] == middle;
  }
}
