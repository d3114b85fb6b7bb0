/**
 Signing and verifying tokens in the compact form of section 7.1 of RFC 7515. The MAC and the
 JSON codec are parameters.
 */
module Jwt {
  import opened Wrappers
  import opened Base64Url

  const TOKEN_EXPIRY_SECONDS: int := 7 * 24 * 60 * 60

  datatype Claims = Claims(sub: string, tid: string, roles: seq<string>, acl: int)

  datatype JwtPayload = JwtPayload(claims: Claims, iat: int, exp: int)

  /** HMAC-SHA256 under the configured secret, and the JSON text of payload and header as bytes. */
  datatype Codec = Codec(
    mac: string -> seq<byte>,
    stringify: JwtPayload -> seq<byte>,
    parse: seq<byte> -> Option<JwtPayload>,
    header: seq<byte>)

  // ---------------------------------------------------------------------------
  // Constant-time comparison
  // ---------------------------------------------------------------------------

  /** Bitwise exclusive or. */
  function Xor(a: nat, b: nat): nat {
    if a == 0 && b == 0 then 0
    else 2 * Xor(a / 2, b / 2) + if a % 2 != b % 2 then 1 else 0
  }

  /** Bitwise or. */
  function Or(a: nat, b: nat): nat {
    if a == 0 && b == 0 then 0
    else 2 * Or(a / 2, b / 2) + if a % 2 == 1 || b % 2 == 1 then 1 else 0
  }

  lemma {:induction false} XorIsZero(a: nat, b: nat)
    ensures Xor(a, b) == 0 <==> a == b
    decreases a + b
  {
    if a != 0 || b != 0 {
      XorIsZero(a / 2, b / 2);
    }
  }

  lemma {:induction false} OrIsZero(a: nat, b: nat)
    ensures Or(a, b) == 0 <==> a == 0 && b == 0
    decreases a + b
  {
    if a != 0 || b != 0 {
      OrIsZero(a / 2, b / 2);
    }
  }

  /** The loop that never returns early accepts exactly the expected signature. */
  method ConstantTimeEquals(expected: string, signature: string) returns (equal: bool)
    ensures equal <==> expected == signature
  {
    if |expected| != |signature| {
      return false;
    }
    var mismatch: nat := 0;
    for i := 0 to |expected|
      invariant mismatch == 0 <==> expected[..i] == signature[..i]
    {
      XorIsZero(expected[i] as int, signature[i] as int);
      OrIsZero(mismatch, Xor(expected[i] as int, signature[i] as int));
      assert expected[..i + 1] == expected[..i] + [expected[i]]
             && signature[..i + 1] == signature[..i] + [signature[i]];
      mismatch := Or(mismatch, Xor(expected[i] as int, signature[i] as int));
    }
    assert expected[..|expected|] == expected && signature[..|expected|] == signature;
    return mismatch == 0;
  }

  // ---------------------------------------------------------------------------
  // Tokens
  // ---------------------------------------------------------------------------

  function HmacSign(codec: Codec, data: string): string {
    Encode(codec.mac(data))
  }

  function SignJwt(codec: Codec, claims: Claims, now: int): string {
    var payload := JwtPayload(claims, now, now + TOKEN_EXPIRY_SECONDS);
    var signingInput := Encode(codec.header) + "." + Encode(codec.stringify(payload));
    signingInput + "." + HmacSign(codec, signingInput)
  }

  /** The parts between dots; there is always one. */
  function Split(s: string): (parts: seq<string>)
    ensures parts != []
  {
    if s == "" then [""]
    else if s[0] == '.' then [""] + Split(s[1..])
    else
      var rest := Split(s[1..]);
      [[s[0]] + rest[0]] + rest[1..]
  }

  function VerifyJwt(codec: Codec, token: string, now: int): Option<JwtPayload> {
    var parts := Split(token);
    if |parts| != 3 then None
    else if parts[2] != HmacSign(codec, parts[0] + "." + parts[1]) then None
    else
      var bytes := Decode(parts[1]);
      if bytes.None? then None
      else
        var payload := codec.parse(bytes.value);
        if payload.None? || payload.value.exp < now then None else payload
  }

  /** Verification as the source runs it, with the comparing loop. */
  method Verify(codec: Codec, token: string, now: int) returns (r: Option<JwtPayload>)
    ensures r == VerifyJwt(codec, token, now)
  {
    var parts := Split(token);
    if |parts| != 3 {
      return None;
    }
    var signingInput := parts[0] + "." + parts[1];
    var valid := ConstantTimeEquals(HmacSign(codec, signingInput), parts[2]);
    if !valid {
      return None;
    }
    var bytes := Decode(parts[1]);
    if bytes.None? {
      return None;
    }
    var payload := codec.parse(bytes.value);
    if payload.None? || payload.value.exp < now {
      return None;
    }
    return payload;
  }

  predicate DotFree(s: string) {
    forall i :: 0 <= i < |s| ==> s[i] != '.'
  }

  lemma {:induction false} SplitDotFree(s: string)
    requires DotFree(s)
    ensures Split(s) == [s]
    decreases |s|
  {
    if s != "" {
      SplitDotFree(s[1..]);
      assert [s[0]] + s[1..] == s;
    }
  }

  lemma {:induction false} SplitAtDot(s: string, rest: string)
    requires DotFree(s)
    ensures Split(s + "." + rest) == [s] + Split(rest)
    decreases |s|
  {
    var whole := s + "." + rest;
    if s == "" {
      assert whole[1..] == rest;
    } else {
      assert whole[1..] == s[1..] + "." + rest;
      SplitAtDot(s[1..], rest);
      assert [s[0]] + s[1..] == s;
    }
  }

  lemma SplitToken(a: string, b: string, c: string)
    requires DotFree(a) && DotFree(b) && DotFree(c)
    ensures Split(a + "." + b + "." + c) == [a, b, c]
  {
    assert a + "." + b + "." + c == a + "." + (b + "." + c);
    SplitAtDot(a, b + "." + c);
    SplitAtDot(b, c);
    SplitDotFree(c);
  }

  /**
   A signed token verifies to its claims with their issue and expiry times up to and
   including the second it expires, and to nothing afterwards.
   */
  lemma VerifyOfSign(codec: Codec, claims: Claims, issued: int, now: int)
    requires forall p: JwtPayload :: codec.parse(codec.stringify(p)) == Some(p)
    ensures VerifyJwt(codec, SignJwt(codec, claims, issued), now) ==
            if now <= issued + TOKEN_EXPIRY_SECONDS then Some(JwtPayload(claims, issued, issued + TOKEN_EXPIRY_SECONDS))
            else None
  {
    var payload := JwtPayload(claims, issued, issued + TOKEN_EXPIRY_SECONDS);
    var header, body := Encode(codec.header), Encode(codec.stringify(payload));
    var signature := HmacSign(codec, header + "." + body);
    EncodeIsUnpadded(codec.header);
    EncodeIsUnpadded(codec.stringify(payload));
    EncodeIsUnpadded(codec.mac(header + "." + body));
    SplitToken(header, body, signature);
    RoundTrip(codec.stringify(payload));
  }

  lemma {:induction false} SplitCounts(s: string)
    requires !DotFree(s)
    ensures |Split(s)| >= 2
    decreases |s|
  {
    if s[0] != '.' {
      assert forall i :: 1 <= i < |s| ==> s[i] == s[1..][i - 1];
      SplitCounts(s[1..]);
    }
  }

  /** The parts of a token whose signature may be any string. */
  lemma SplitSigned(a: string, b: string, signature: string)
    requires DotFree(a) && DotFree(b)
    ensures Split(a + "." + b + "." + signature) == [a, b] + Split(signature)
    ensures Split(signature) == [signature] || |Split(signature)| >= 2
  {
    assert a + "." + b + "." + signature == a + "." + (b + "." + signature);
    SplitAtDot(a, b + "." + signature);
    SplitAtDot(b, signature);
    if DotFree(signature) {
      SplitDotFree(signature);
    } else {
      SplitCounts(signature);
    }
  }

  /** Exchanging the signature for any other string makes a token invalid. */
  lemma OtherSignatureFails(codec: Codec, claims: Claims, issued: int, now: int, signature: string)
    requires var payload := JwtPayload(claims, issued, issued + TOKEN_EXPIRY_SECONDS);
             signature != HmacSign(codec, Encode(codec.header) + "." + Encode(codec.stringify(payload)))
    ensures var payload := JwtPayload(claims, issued, issued + TOKEN_EXPIRY_SECONDS);
            var signingInput := Encode(codec.header) + "." + Encode(codec.stringify(payload));
            VerifyJwt(codec, signingInput + "." + signature, now) == None
  {
    var payload := JwtPayload(claims, issued, issued + TOKEN_EXPIRY_SECONDS);
    EncodeIsUnpadded(codec.header);
    EncodeIsUnpadded(codec.stringify(payload));
    SplitSigned(Encode(codec.header), Encode(codec.stringify(payload)), signature);
  }

  /** Parts written one after the other with dots between them. */
  function Joined(parts: seq<string>): string
    requires parts != []
  {
    if |parts| == 1 then parts[0] else parts[0] + "." + Joined(parts[1..])
  }

  lemma {:induction false} SplitIsInverse(s: string)
    ensures Joined(Split(s)) == s && forall i :: 0 <= i < |Split(s)| ==> DotFree(Split(s)[i])
    decreases |s|
  {
    if s != "" {
      var rest := Split(s[1..]);
      SplitIsInverse(s[1..]);
      if s[0] == '.' {
        assert Split(s)[1..] == rest;
        assert "" + "." + s[1..] == s;
      } else {
        FirstPartGrows(s[0], rest);
        assert [s[0]] + s[1..] == s;
        assert DotFree([s[0]] + rest[0]);
      }
    }
  }

  lemma FirstPartGrows(c: char, parts: seq<string>)
    requires parts != []
    ensures Joined([[c] + parts[0]] + parts[1..]) == [c] + Joined(parts)
  {
    var longer := [[c] + parts[0]] + parts[1..];
    assert longer[0] == [c] + parts[0];
    if |parts| > 1 {
      assert longer[1..] == parts[1..];
      var rest := Joined(parts[1..]);
      assert [c] + (parts[0] + "." + rest) == ([c] + parts[0]) + "." + rest;
    }
  }

  /** The token is two dot-free parts and the MAC of just these, and its body is a payload in time. */
  predicate IsSigned(codec: Codec, token: string, header: string, body: string, payload: JwtPayload, now: int) {
    && DotFree(header) && DotFree(body)
    && token == header + "." + body + "." + Encode(codec.mac(header + "." + body))
    && Decode(body).Some? && codec.parse(Decode(body).value) == Some(payload) && now <= payload.exp
  }

  lemma ThreeParts(token: string)
    requires |Split(token)| == 3
    ensures var p := Split(token);
            token == p[0] + "." + p[1] + "." + p[2] && DotFree(p[0]) && DotFree(p[1])
  {
    var p := Split(token);
    SplitIsInverse(token);
    assert p[1..] == [p[1], p[2]] && p[1..][1..] == [p[2]];
    assert Joined(p[1..][1..]) == p[2];
    assert Joined(p[1..]) == p[1] + "." + p[2];
    assert Joined(p) == p[0] + "." + (p[1] + "." + p[2]);
    assert p[0] + "." + (p[1] + "." + p[2]) == p[0] + "." + p[1] + "." + p[2];
  }

  lemma SignedVerifies(codec: Codec, token: string, header: string, body: string, payload: JwtPayload, now: int)
    requires IsSigned(codec, token, header, body, payload, now)
    ensures VerifyJwt(codec, token, now) == Some(payload)
  {
    EncodeIsUnpadded(codec.mac(header + "." + body));
    SplitToken(header, body, Encode(codec.mac(header + "." + body)));
  }

  /** Whatever verifies is signed, with any header; and whatever is signed verifies. */
  lemma VerifiesIff(codec: Codec, token: string, payload: JwtPayload, now: int)
    ensures VerifyJwt(codec, token, now) == Some(payload) <==>
            exists header, body :: IsSigned(codec, token, header, body, payload, now)
  {
    if VerifyJwt(codec, token, now) == Some(payload) {
      ThreeParts(token);
      assert IsSigned(codec, token, Split(token)[0], Split(token)[1], payload, now);
    }
    forall header, body | IsSigned(codec, token, header, body, payload, now)
      ensures VerifyJwt(codec, token, now) == Some(payload)
    {
      SignedVerifies(codec, token, header, body, payload, now);
    }
  }

  /** A signed token has the header, the claims with their times, and the MAC, each encoded. */
  lemma SignedForm(codec: Codec, claims: Claims, issued: int) returns (header: string, body: string, signature: string)
    ensures SignJwt(codec, claims, issued) == header + "." + body + "." + signature
    ensures DotFree(header) && DotFree(body) && DotFree(signature)
    ensures Decode(header) == Some(codec.header)
    ensures Decode(body) == Some(codec.stringify(JwtPayload(claims, issued, issued + 604800)))
    ensures Decode(signature) == Some(codec.mac(header + "." + body))
  {
    var payload := JwtPayload(claims, issued, issued + TOKEN_EXPIRY_SECONDS);
    header, body := Encode(codec.header), Encode(codec.stringify(payload));
    signature := HmacSign(codec, header + "." + body);
    EncodeIsUnpadded(codec.header);
    EncodeIsUnpadded(codec.stringify(payload));
    EncodeIsUnpadded(codec.mac(header + "." + body));
    RoundTrip(codec.header);
    RoundTrip(codec.stringify(payload));
    RoundTrip(codec.mac(header + "." + body));
  }
}
