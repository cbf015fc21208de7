/** `parseJwtExp` of the client session manager: the expiry of a JWS compact token
    (section 7.1 of RFC 7515), read from the `exp` NumericDate claim (section 4.1.4 of
    RFC 7519) of its base64url-encoded payload and converted to milliseconds. The token's
    signature is not checked on the client. */
module Jwt {
  import opened Wrappers
  import opened Text
  import Base64
  import Utf8
  import opened Json

  /** `token.split('.')[1]`, treated as missing when it is absent or empty. */
  function PayloadSegment(token: string): Option<string>
  {
    var parts := SplitOn(token, '.');
    if |parts| < 2 || parts[1] == "" then None else Some(parts[1])
  }

  /** The milliseconds of a member value that is a number. */
  function NumericMs(v: Option<JValue>): (r: Option<real>)
    ensures r.Some? <==> v.Some? && v.value.JNumber?
  {
    match v
    case Some(JNumber(n)) => Some(n * 1000.0)
    case _ => None
  }

  /** The milliseconds of a claim that is a number. */
  function ClaimMs(c: Option<Claim>): (r: Option<real>)
    ensures r.Some? <==> c.Some? && c.value.NumClaim?
  {
    match c
    case Some(NumClaim(n)) => Some(n as real * 1000.0)
    case _ => None
  }

  /** `typeof payload.exp === 'number' ? payload.exp * 1000 : null` on a parsed payload.
      Only an object has an own `exp`; reading a property of `null` throws, which the
      surrounding `catch` turns into `null` as well. */
  function ExpOf(v: JValue): Option<real>
  {
    match v
    case JObject(ms) => NumericMs(LastMember(ms, Units("exp")))
    case _ => None
  }

  /** The expiry in milliseconds, or `None` wherever the source returns `null` (a missing or
      empty payload segment, bad base64, bad UTF-8, bad JSON, or a missing or non-numeric
      `exp`). The decoding chain is total: nothing escapes as an exception. */
  function ParseJwtExp(token: string): Option<real>
  {
    match PayloadSegment(token)
    case None => None
    case Some(payload) =>
      match Base64.Decode(Base64.UrlToStandard(payload))
      case None => None
      case Some(bytes) =>
        match Utf8.Decode(bytes)
        case None => None
        case Some(text) =>
          match Json.Parse(text)
          case None => None
          case Some(v) => ExpOf(v)
  }

  // ---------------------------------------------------------------------------
  // Tokens as an issuer writes them

  /** The compact serialization `header.payload.signature` with the claim set as payload. */
  function MakeToken(header: string, claims: seq<(string, Claim)>, signature: string): string
  {
    header + "." + Base64.EncodeUrl(Utf8.Encode(SerializeObject(claims))) + "." + signature
  }

  /** The last claim called `name`, as the claim set states it. */
  function LastClaim(claims: seq<(string, Claim)>, name: string): (r: Option<Claim>)
    ensures r.Some? ==> exists i :: 0 <= i < |claims| && claims[i] == (name, r.value)
  {
    if claims == [] then None
    else if claims[|claims| - 1].0 == name then Some(claims[|claims| - 1].1)
    else LastClaim(claims[..|claims| - 1], name)
  }

  /** What the expiry of a token carrying `claims` is: `exp` seconds as milliseconds when the
      last `exp` claim is a number. */
  function ExpectedExp(claims: seq<(string, Claim)>): Option<real>
  {
    ClaimMs(LastClaim(claims, "exp"))
  }

  lemma {:induction false} LastMemberOfClaims(claims: seq<(string, Claim)>, name: string)
    requires PlainClaims(claims) && IsPlain(name)
    ensures LastMember(ClaimMembers(claims), Units(name)) == ValueOfClaim(LastClaim(claims, name))
  {
    if claims != [] {
      var init := claims[..|claims| - 1];
      var last := claims[|claims| - 1];
      assert ClaimMembers(claims) == ClaimMembers(init) + [(Units(last.0), ClaimValue(last.1))] by {
        var a := ClaimMembers(claims);
        var b := ClaimMembers(init) + [(Units(last.0), ClaimValue(last.1))];
        assert |a| == |b|;
        forall i | 0 <= i < |a| ensures a[i] == b[i] {
          if i < |init| { assert init[i] == claims[i]; }
        }
      }
      var ms := ClaimMembers(claims);
      assert ms[..|ms| - 1] == ClaimMembers(init);
      assert IsPlain(last.0);
      UnitsInjective(last.0, name);
      assert PlainClaims(init) by {
        forall i | 0 <= i < |init|
          ensures IsPlain(init[i].0) && (init[i].1.StrClaim? ==> IsPlain(init[i].1.s))
        {
          assert init[i] == claims[i];
        }
      }
      LastMemberOfClaims(init, name);
    }
  }

  lemma PayloadOfToken(header: string, payload: string, signature: string)
    requires '.' !in header && '.' !in payload && payload != ""
    ensures PayloadSegment(header + "." + payload + "." + signature) == Some(payload)
  {
    assert header + "." + payload + "." + signature == header + ['.'] + (payload + ['.'] + signature);
    SplitAfterPrefix(header, '.', payload + ['.'] + signature);
    SplitAfterPrefix(payload, '.', signature);
  }

  lemma EncodeUrlNonEmpty(b: seq<Base64.Byte>)
    requires b != []
    ensures Base64.EncodeUrl(b) != ""
  {
    assert |Base64.EncodeSextets(b)| > 0;
  }

  /** The JSON value an optional claim is written as. */
  function ValueOfClaim(c: Option<Claim>): (r: Option<JValue>)
    ensures r.Some? <==> c.Some?
  {
    match c
    case None => None
    case Some(v) => Some(ClaimValue(v))
  }

  lemma NumericOfClaimValue(c: Option<Claim>)
    ensures NumericMs(ValueOfClaim(c)) == ClaimMs(c)
  {
  }

  /** The claim named `name` reads back from the parsed claim set as the number it was. */
  lemma NumericClaimLookup(claims: seq<(string, Claim)>, name: string)
    requires PlainClaims(claims) && IsPlain(name)
    ensures NumericMs(LastMember(ClaimMembers(claims), Units(name))) == ClaimMs(LastClaim(claims, name))
  {
    LastMemberOfClaims(claims, name);
    NumericOfClaimValue(LastClaim(claims, name));
  }

  lemma ParseSerializedClaims(claims: seq<(string, Claim)>)
    requires PlainClaims(claims)
    ensures ExpOf(JObject(ClaimMembers(claims))) == ExpectedExp(claims)
  {
    assert IsPlain("exp");
    NumericClaimLookup(claims, "exp");
  }

  /** The end-to-end round trip: the client reads back exactly the expiry of the claim set the
      issuer encoded, in milliseconds, whatever the header and signature; a claim set without
      a numeric `exp` reads as no expiry. */
  lemma ParseJwtExpOfToken(header: string, claims: seq<(string, Claim)>, signature: string)
    requires '.' !in header && PlainClaims(claims)
    ensures ParseJwtExp(MakeToken(header, claims, signature)) == ExpectedExp(claims)
  {
    var text := SerializeObject(claims);
    var bytes := Utf8.Encode(text);
    var payload := Base64.EncodeUrl(bytes);
    assert |text| >= 2;
    EncodeUrlNonEmpty(bytes);
    assert '.' !in payload;
    PayloadOfToken(header, payload, signature);
    Base64.DecodeEncodeUrl(bytes);
    Utf8.DecodeEncode(text);
    ParseSerializedObject(claims);
    ParseSerializedClaims(claims);
  }

  /** A string with no `.` has no payload segment. */
  lemma NoSeparatorNoExpiry(token: string)
    requires '.' !in token
    ensures ParseJwtExp(token) == None
  {
    SplitWithoutSeparator(token, '.');
  }

  /** An empty payload segment (`header..signature`) is treated as missing. */
  lemma EmptyPayloadNoExpiry(header: string, signature: string)
    requires '.' !in header
    ensures ParseJwtExp(header + ".." + signature) == None
  {
    assert header + ".." + signature == header + ['.'] + ("" + ['.'] + signature);
    SplitAfterPrefix(header, '.', "" + ['.'] + signature);
    SplitAfterPrefix("", '.', signature);
  }

  /** A payload that is not base64 of a whole number of bits (length 1 modulo 4) is
      rejected by `atob`. */
  lemma MalformedPayloadNoExpiry(header: string, payload: string, signature: string)
    requires '.' !in header && '.' !in payload
    requires forall i :: 0 <= i < |payload| ==> Base64.IsBase64Char(payload[i])
    requires |payload| % 4 == 1
    ensures ParseJwtExp(header + "." + payload + "." + signature) == None
  {
    PayloadOfToken(header, payload, signature);
    assert Base64.UrlToStandard(payload) == payload;
    Base64.DecodeRejectsLengthOneMod4(payload);
  }
}
