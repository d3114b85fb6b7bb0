/**
 Base64url as the token code builds it from `btoa` and `atob`: the standard alphabet of
 section 4 of RFC 4648 with two characters exchanged (section 5) and no padding.
 */
module Base64Url {
  import opened Wrappers

  type byte = x: int | 0 <= x < 256

  type Sextet = x: int | 0 <= x < 64

  predicate IsBase64Char(c: char) {
    'A' <= c <= 'Z' || 'a' <= c <= 'z' || '0' <= c <= '9' || c == '+' || c == '/'
  }

  function SextetToChar(x: Sextet): (c: char)
    ensures IsBase64Char(c) && CharToSextet(c) == x
  {
    if x < 26 then ('A' as int + x) as char
    else if x < 52 then ('a' as int + x - 26) as char
    else if x < 62 then ('0' as int + x - 52) as char
    else if x == 62 then '+'
    else '/'
  }

  function CharToSextet(c: char): Sextet
    requires IsBase64Char(c)
  {
    if c == '+' then 62
    else if c == '/' then 63
    else if c <= '9' then c as int - '0' as int + 52
    else if c <= 'Z' then c as int - 'A' as int
    else c as int - 'a' as int + 26
  }

  /** The four sextets of three bytes. */
  function Sextet0(b0: byte): Sextet { b0 / 4 }

  function Sextet1(b0: byte, b1: byte): Sextet { b0 % 4 * 16 + b1 / 16 }

  function Sextet2(b1: byte, b2: byte): Sextet { b1 % 16 * 4 + b2 / 64 }

  function Sextet3(b2: byte): Sextet { b2 % 64 }

  /** The three bytes of four sextets. */
  function Byte0(s0: Sextet, s1: Sextet): byte { s0 * 4 + s1 / 16 }

  function Byte1(s1: Sextet, s2: Sextet): byte { s1 % 16 * 16 + s2 / 4 }

  function Byte2(s2: Sextet, s3: Sextet): byte { s2 % 4 * 64 + s3 }

  /** Without padding. */
  predicate IsText(s: string) {
    forall i :: 0 <= i < |s| ==> IsBase64Char(s[i])
  }

  function CharsOf(s0: Sextet, s1: Sextet, s2: Sextet, s3: Sextet): (r: string)
    ensures |r| == 4 && IsText(r)
  {
    [SextetToChar(s0), SextetToChar(s1), SextetToChar(s2), SextetToChar(s3)]
  }

  /** The characters of a whole group, and of a last group of one or two bytes. */
  function Group(b0: byte, b1: byte, b2: byte): (r: string)
    ensures |r| == 4 && IsText(r)
  {
    CharsOf(Sextet0(b0), Sextet1(b0, b1), Sextet2(b1, b2), Sextet3(b2))
  }

  function GroupOfTwo(b0: byte, b1: byte): (r: string)
    ensures |r| == 3 && IsText(r)
  {
    [SextetToChar(Sextet0(b0)), SextetToChar(Sextet1(b0, b1)), SextetToChar(Sextet2(b1, 0))]
  }

  function GroupOfOne(b0: byte): (r: string)
    ensures |r| == 2 && IsText(r)
  {
    [SextetToChar(Sextet0(b0)), SextetToChar(Sextet1(b0, 0))]
  }

  /** `btoa`: groups of three bytes as four characters, the last group padded. */
  function Btoa(data: seq<byte>): string {
    if data == [] then ""
    else if |data| == 1 then GroupOfOne(data[0]) + "=="
    else if |data| == 2 then GroupOfTwo(data[0], data[1]) + "="
    else Group(data[0], data[1], data[2]) + Btoa(data[3..])
  }

  function ReplaceAll(s: string, from: char, with: char): string {
    seq(|s|, i requires 0 <= i < |s| => if s[i] == from then with else s[i])
  }

  function StripPadding(s: string): string {
    if s != "" && s[|s| - 1] == '=' then StripPadding(s[..|s| - 1]) else s
  }

  function Encode(data: seq<byte>): string {
    StripPadding(ReplaceAll(ReplaceAll(Btoa(data), '+', '-'), '/', '_'))
  }

  /** Up to two padding characters are dropped when they complete a group of four. */
  function DropPadding(s: string): string {
    if s != "" && |s| % 4 == 0 && s[|s| - 1] == '=' then
      if s[|s| - 2] == '=' then s[..|s| - 2] else s[..|s| - 1]
    else s
  }

  function AtobChars(s: string): Option<seq<byte>> {
    if !IsText(s) then None
    else if |s| % 4 == 1 then None
    else Some(AtobGroups(s))
  }

  function AtobGroups(s: string): seq<byte>
    requires IsText(s)
    requires |s| % 4 != 1
  {
    if s == "" then []
    else
      var s0, s1 := CharToSextet(s[0]), CharToSextet(s[1]);
      if |s| == 2 then [Byte0(s0, s1)]
      else
        var s2 := CharToSextet(s[2]);
        if |s| == 3 then [Byte0(s0, s1), Byte1(s1, s2)]
        else [Byte0(s0, s1), Byte1(s1, s2), Byte2(s2, CharToSextet(s[3]))] + AtobGroups(s[4..])
  }

  /** `atob` accepts missing padding; white space is not modelled. */
  function Atob(s: string): Option<seq<byte>> {
    AtobChars(DropPadding(s))
  }

  /** The two URL-safe characters in their standard form. */
  function Standard(s: string): string {
    ReplaceAll(ReplaceAll(s, '-', '+'), '_', '/')
  }

  function Decode(s: string): Option<seq<byte>> {
    Atob(Standard(s))
  }

  // ---------------------------------------------------------------------------
  // Round trip
  // ---------------------------------------------------------------------------

  /** `btoa` without its padding. */
  function Unpadded(data: seq<byte>): (s: string)
    ensures |s| % 4 != 1 && IsText(s)
  {
    if data == [] then ""
    else if |data| == 1 then GroupOfOne(data[0])
    else if |data| == 2 then GroupOfTwo(data[0], data[1])
    else Group(data[0], data[1], data[2]) + Unpadded(data[3..])
  }

  lemma {:induction false} PaddingOf(data: seq<byte>) returns (padding: string)
    ensures Btoa(data) == Unpadded(data) + padding
    ensures padding == "" || padding == "=" || padding == "=="
    decreases |data|
  {
    if |data| >= 3 {
      padding := PaddingOf(data[3..]);
    } else {
      padding := if |data| == 1 then "==" else if |data| == 2 then "=" else "";
    }
  }

  /** Three bytes are recovered from their four sextets. */
  lemma BytesOfSextets(b0: byte, b1: byte, b2: byte)
    ensures Byte0(Sextet0(b0), Sextet1(b0, b1)) == b0
    ensures Byte1(Sextet1(b0, b1), Sextet2(b1, b2)) == b1
    ensures Byte2(Sextet2(b1, b2), Sextet3(b2)) == b2
  {
  }

  lemma OneByteDecodes(b0: byte)
    ensures AtobGroups(GroupOfOne(b0)) == [b0]
  {
    BytesOfSextets(b0, 0, 0);
  }

  lemma TwoBytesDecode(b0: byte, b1: byte)
    ensures AtobGroups(GroupOfTwo(b0, b1)) == [b0, b1]
  {
    BytesOfSextets(b0, b1, 0);
  }

  lemma GroupAndRest(group: string, rest: string)
    requires |group| == 4 && IsText(group) && |rest| % 4 != 1 && IsText(rest)
    ensures |group + rest| % 4 != 1 && IsText(group + rest)
  {
  }

  lemma FourCharsDecode(s0: Sextet, s1: Sextet, s2: Sextet, s3: Sextet, rest: string)
    requires |rest| % 4 != 1 && IsText(rest)
    ensures var text := CharsOf(s0, s1, s2, s3) + rest;
            && |text| % 4 != 1 && IsText(text)
            && AtobGroups(text) == [Byte0(s0, s1), Byte1(s1, s2), Byte2(s2, s3)] + AtobGroups(rest)
  {
    var text := CharsOf(s0, s1, s2, s3) + rest;
    GroupAndRest(CharsOf(s0, s1, s2, s3), rest);
    assert CharToSextet(text[0]) == s0 && CharToSextet(text[1]) == s1 && CharToSextet(text[2]) == s2
           && CharToSextet(text[3]) == s3;
    assert text[4..] == rest;
  }

  /** A whole group decodes to its bytes, and what follows decodes by itself. */
  lemma GroupDecodes(b0: byte, b1: byte, b2: byte, rest: string)
    requires |rest| % 4 != 1 && IsText(rest)
    ensures var text := Group(b0, b1, b2) + rest;
            |text| % 4 != 1 && IsText(text) && AtobGroups(text) == [b0, b1, b2] + AtobGroups(rest)
  {
    BytesOfSextets(b0, b1, b2);
    FourCharsDecode(Sextet0(b0), Sextet1(b0, b1), Sextet2(b1, b2), Sextet3(b2), rest);
  }

  lemma {:induction false} GroupsRoundTrip(data: seq<byte>)
    ensures AtobGroups(Unpadded(data)) == data
    decreases |data|
  {
    if |data| == 1 {
      OneByteDecodes(data[0]);
    } else if |data| == 2 {
      TwoBytesDecode(data[0], data[1]);
    } else if |data| >= 3 {
      GroupDecodes(data[0], data[1], data[2], Unpadded(data[3..]));
      GroupsRoundTrip(data[3..]);
    }
  }

  function UrlSafe(s: string): string {
    ReplaceAll(ReplaceAll(s, '+', '-'), '/', '_')
  }

  lemma UrlSafeOfConcat(a: string, b: string)
    ensures UrlSafe(a + b) == UrlSafe(a) + UrlSafe(b)
  {
  }

  lemma StripsPadding(s: string, padding: string)
    requires forall i :: 0 <= i < |s| ==> s[i] != '='
    requires padding == "" || padding == "=" || padding == "=="
    ensures StripPadding(s + padding) == s
  {
    if padding == "" {
      assert s + padding == s;
    } else {
      assert (s + padding)[..|s + padding| - 1] == s + padding[1..];
      if padding == "==" {
        assert (s + "=")[..|s|] == s;
      } else {
        assert s + "" == s;
      }
    }
  }

  /** What `Encode` returns: the unpadded text with the two URL-safe characters. */
  lemma EncodeIsUnpadded(data: seq<byte>)
    ensures Encode(data) == UrlSafe(Unpadded(data))
    ensures forall i :: 0 <= i < |Encode(data)| ==> Encode(data)[i] != '=' && Encode(data)[i] != '.'
  {
    var padding := PaddingOf(data);
    UrlSafeOfConcat(Unpadded(data), padding);
    assert UrlSafe(padding) == padding;
    StripsPadding(UrlSafe(Unpadded(data)), padding);
  }

  /** Decoding an encoded byte string gives it back, for every byte string. */
  lemma RoundTrip(data: seq<byte>)
    ensures Decode(Encode(data)) == Some(data)
  {
    EncodeIsUnpadded(data);
    var text := Unpadded(data);
    assert Standard(UrlSafe(text)) == text;
    GroupsRoundTrip(data);
  }

  const ALPHABET: string :=
    "ABCDEFGHIJKLMNOPQRSTUVWXYZ" + "abcdefghijklmnopqrstuvwxyz" + "0123456789" + "+/"

  /** The characters are those of table 1 of RFC 4648, in its order. */
  lemma CharsOfAlphabet(x: Sextet)
    ensures |ALPHABET| == 64 && SextetToChar(x) == ALPHABET[x]
  {
  }

  /** A group's sextets are its 24 bits, from the highest on. */
  lemma SextetsAreBits(b0: byte, b1: byte, b2: byte)
    ensures Sextet0(b0) * 262144 + Sextet1(b0, b1) * 4096 + Sextet2(b1, b2) * 64 + Sextet3(b2) ==
            b0 * 65536 + b1 * 256 + b2
  {
  }

  /** Four characters for three bytes, and one more than there are bytes in a last shorter group. */
  lemma {:induction false} EncodedLength(data: seq<byte>)
    ensures |Unpadded(data)| == |data| / 3 * 4 + (if |data| % 3 == 0 then 0 else |data| % 3 + 1)
    decreases |data|
  {
    if |data| >= 3 {
      EncodedLength(data[3..]);
    }
  }

  // ---------------------------------------------------------------------------
  // Decoding any string
  // ---------------------------------------------------------------------------

  /** Both spellings of the last two characters are read. */
  predicate IsDecodable(body: string) {
    |body| % 4 != 1 && forall i :: 0 <= i < |body| ==> IsBase64Char(body[i]) || body[i] == '-' || body[i] == '_'
  }

  /** Padding may be absent, or complete a group of four. */
  predicate IsPadded(s: string, body: string, padding: string) {
    && s == body + padding && IsDecodable(body)
    && (padding == "" || ((padding == "=" || padding == "==") && |s| % 4 == 0))
  }

  lemma DropsPadding(s: string, body: string, padding: string)
    requires IsPadded(s, body, padding)
    ensures DropPadding(Standard(s)) == Standard(body)
  {
    var t := Standard(s);
    assert t[..|body|] == Standard(body);
    assert forall i :: 0 <= i < |body| ==> IsBase64Char(t[i]);
    assert forall i :: |body| <= i < |s| ==> s[i] == '=' && t[i] == '=';
  }

  lemma StandardChar(c: char)
    ensures var t := if c == '-' then '+' else if c == '_' then '/' else c;
            && (IsBase64Char(t) <==> IsBase64Char(c) || c == '-' || c == '_')
            && (t == '=' <==> c == '=')
  {
  }

  lemma {:induction false} DroppedPadding(t: string)
    ensures var kept := DropPadding(t);
            && |kept| <= |t| && kept == t[..|kept|]
            && (|kept| == |t| || (|t| % 4 == 0 && (t[|kept|..] == "=" || t[|kept|..] == "==")))
  {
  }

  lemma SplitPadding(s: string) returns (body: string, padding: string)
    requires Decode(s).Some?
    ensures IsPadded(s, body, padding)
  {
    var t := Standard(s);
    DroppedPadding(t);
    var n := |DropPadding(t)|;
    body, padding := s[..n], s[n..];
    forall i | 0 <= i < |s|
      ensures IsBase64Char(t[i]) <==> IsBase64Char(s[i]) || s[i] == '-' || s[i] == '_'
      ensures t[i] == '=' <==> s[i] == '='
    {
      StandardChar(s[i]);
    }
    assert forall i :: 0 <= i < n ==> DropPadding(t)[i] == t[i];
    SamePadding(padding, t[n..]);
  }

  lemma SamePadding(padding: string, t: string)
    requires |padding| == |t| && forall i :: 0 <= i < |t| ==> (t[i] == '=' <==> padding[i] == '=')
    requires t == "" || t == "=" || t == "=="
    ensures padding == t
  {
  }

  /** What decodes is a text of the alphabet with its padding or none, and nothing else. */
  lemma DecodesIff(s: string)
    ensures Decode(s).Some? <==> exists body, padding :: IsPadded(s, body, padding)
  {
    if Decode(s).Some? {
      var body, padding := SplitPadding(s);
      assert IsPadded(s, body, padding);
    }
    forall body, padding | IsPadded(s, body, padding)
      ensures Decode(s).Some?
    {
      DropsPadding(s, body, padding);
      DecodableIsRead(body);
    }
  }

  lemma DecodableIsRead(body: string)
    requires IsDecodable(body)
    ensures AtobChars(Standard(body)).Some?
  {
  }

  lemma CharOfSextet(c: char)
    requires IsBase64Char(c)
    ensures SextetToChar(CharToSextet(c)) == c
  {
  }

  /** The bytes of a group have the group's characters. */
  lemma GroupEncodes(s0: Sextet, s1: Sextet, s2: Sextet, s3: Sextet)
    ensures var b0, b1, b2 := Byte0(s0, s1), Byte1(s1, s2), Byte2(s2, s3);
            Sextet0(b0) == s0 && Sextet1(b0, b1) == s1 && Sextet2(b1, b2) == s2 && Sextet3(b2) == s3
    ensures Sextet0(Byte0(s0, s1)) == s0 && Sextet1(Byte0(s0, s1), Byte1(s1, s2)) == s1
  {
  }

  predicate SameBits(c: char, d: char, spare: int)
    requires spare > 0
  {
    IsBase64Char(c) && IsBase64Char(d) && CharToSextet(c) / spare == CharToSextet(d) / spare
  }

  /** The texts agree, but for the bits that the last character of a shorter group has to spare. */
  predicate SameText(text: string, s: string) {
    && |text| == |s|
    && (forall i :: 0 <= i < |s| && (i < |s| - 1 || |s| % 4 == 0) ==> text[i] == s[i])
    && (|s| % 4 == 2 ==> SameBits(text[|s| - 1], s[|s| - 1], 16))
    && (|s| % 4 == 3 ==> SameBits(text[|s| - 1], s[|s| - 1], 4))
  }

  lemma SameTextAfter(first: string, text: string, rest: string)
    requires |first| == 4 && SameText(text, rest)
    ensures SameText(first + text, first + rest)
  {
  }

  /** Decoded bytes encode to the same text again. */
  lemma {:induction false} GroupsEncode(s: string)
    requires |s| % 4 != 1 && IsText(s)
    ensures SameText(Unpadded(AtobGroups(s)), s)
    decreases |s|
  {
    if |s| >= 4 {
      var rest := s[4..];
      var s0, s1, s2, s3 := FirstSextets(s);
      GroupsEncode(rest);
      FourCharsDecode(s0, s1, s2, s3, rest);
      WholeGroupEncodes(s0, s1, s2, s3, AtobGroups(rest));
      SameTextAfter(CharsOf(s0, s1, s2, s3), Unpadded(AtobGroups(rest)), rest);
    } else {
      LastGroupEncodes(s);
    }
  }

  lemma FirstSextets(s: string) returns (s0: Sextet, s1: Sextet, s2: Sextet, s3: Sextet)
    requires |s| >= 4 && IsText(s)
    ensures s == CharsOf(s0, s1, s2, s3) + s[4..]
  {
    s0, s1, s2, s3 := CharToSextet(s[0]), CharToSextet(s[1]), CharToSextet(s[2]), CharToSextet(s[3]);
    CharOfSextet(s[0]);
    CharOfSextet(s[1]);
    CharOfSextet(s[2]);
    CharOfSextet(s[3]);
  }

  /** The sextets of a last group of one or two bytes. */
  lemma LastSextets(s0: Sextet, s1: Sextet, s2: Sextet)
    ensures var b0, b1 := Byte0(s0, s1), Byte1(s1, s2);
            && Sextet0(b0) == s0 && Sextet1(b0, b1) == s1
            && Sextet1(b0, 0) / 16 == s1 / 16 && Sextet2(b1, 0) / 4 == s2 / 4
  {
  }

  lemma LastGroupEncodes(s: string)
    requires |s| < 4 && |s| != 1 && IsText(s)
    ensures SameText(Unpadded(AtobGroups(s)), s)
  {
    if |s| == 2 {
      var b0 := Byte0(CharToSextet(s[0]), CharToSextet(s[1]));
      assert AtobGroups(s) == [b0];
      UnpaddedShort(b0, 0);
      LastTwoChars(s);
    } else if |s| == 3 {
      var b0, b1 := Byte0(CharToSextet(s[0]), CharToSextet(s[1])), Byte1(CharToSextet(s[1]), CharToSextet(s[2]));
      assert AtobGroups(s) == [b0, b1];
      UnpaddedShort(b0, b1);
      LastThreeChars(s);
    }
  }

  lemma UnpaddedShort(b0: byte, b1: byte)
    ensures Unpadded([b0]) == GroupOfOne(b0) && Unpadded([b0, b1]) == GroupOfTwo(b0, b1)
  {
  }

  lemma SpareBits(x: Sextet, c: char, spare: int)
    requires spare > 0 && IsBase64Char(c) && x / spare == CharToSextet(c) / spare
    ensures SameBits(SextetToChar(x), c, spare)
  {
  }

  lemma LastTwoChars(s: string)
    requires |s| == 2 && IsText(s)
    ensures SameText(GroupOfOne(Byte0(CharToSextet(s[0]), CharToSextet(s[1]))), s)
  {
    var s0, s1 := CharToSextet(s[0]), CharToSextet(s[1]);
    var b0 := Byte0(s0, s1);
    LastSextets(s0, s1, 0);
    CharOfSextet(s[0]);
    SpareBits(Sextet1(b0, 0), s[1], 16);
    assert GroupOfOne(b0) == [s[0], SextetToChar(Sextet1(b0, 0))];
  }

  lemma LastThreeChars(s: string)
    requires |s| == 3 && IsText(s)
    ensures var s0, s1, s2 := CharToSextet(s[0]), CharToSextet(s[1]), CharToSextet(s[2]);
            SameText(GroupOfTwo(Byte0(s0, s1), Byte1(s1, s2)), s)
  {
    var s0, s1, s2 := CharToSextet(s[0]), CharToSextet(s[1]), CharToSextet(s[2]);
    var b0, b1 := Byte0(s0, s1), Byte1(s1, s2);
    LastSextets(s0, s1, s2);
    CharOfSextet(s[0]);
    CharOfSextet(s[1]);
    SpareBits(Sextet2(b1, 0), s[2], 4);
    assert GroupOfTwo(b0, b1) == [s[0], s[1], SextetToChar(Sextet2(b1, 0))];
  }

  lemma WholeGroupEncodes(s0: Sextet, s1: Sextet, s2: Sextet, s3: Sextet, rest: seq<byte>)
    ensures Unpadded([Byte0(s0, s1), Byte1(s1, s2), Byte2(s2, s3)] + rest) ==
            CharsOf(s0, s1, s2, s3) + Unpadded(rest)
  {
    var data := [Byte0(s0, s1), Byte1(s1, s2), Byte2(s2, s3)] + rest;
    GroupEncodes(s0, s1, s2, s3);
    assert data[3..] == rest;
  }

  /** Whatever decodes gives the bytes whose text, but for spare bits, is the one decoded. */
  lemma DecodesToText(s: string, body: string, padding: string)
    requires IsPadded(s, body, padding)
    ensures Decode(s).Some? && SameText(Unpadded(Decode(s).value), Standard(body))
  {
    DropsPadding(s, body, padding);
    DecodableIsRead(body);
    GroupsEncode(Standard(body));
  }
}
