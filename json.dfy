/** `JSON.parse` (the JSON grammar of ECMA-404) over the decoded token payload, and a
    serializer for flat claim sets used to state what the parser reads back.
    Numbers are kept as exact reals; strings are kept as UTF-16 code units, which is what
    JavaScript compares property names by. */
module Json {
  import opened Wrappers
  import opened Text

  datatype JValue =
    | JNull
    | JBool(b: bool)
    | JNumber(n: real)
    | JString(units: seq<int>)
    | JArray(items: seq<JValue>)
    | JObject(members: seq<(seq<int>, JValue)>)

  /** JSON's insignificant whitespace: space, tab, line feed, carriage return. */
  predicate IsJsonWhitespace(c: char) { c == ' ' || c == '\t' || c == '\n' || c == '\r' }

  function SkipWs(s: string): (r: string)
    ensures |r| <= |s| && r == s[|s| - |r|..]
    ensures r != [] ==> !IsJsonWhitespace(r[0])
  {
    if s != [] && IsJsonWhitespace(s[0]) then SkipWs(s[1..]) else s
  }

  /** The UTF-16 code units of one scalar value. */
  function Utf16(c: char): (r: seq<int>)
    ensures c as int < 0x10000 ==> r == [c as int]
  {
    var n := c as int;
    if n < 0x10000 then [n] else [0xD800 + (n - 0x10000) / 1024, 0xDC00 + (n - 0x10000) % 1024]
  }

  function Units(s: string): (r: seq<int>)
  {
    if s == [] then [] else Utf16(s[0]) + Units(s[1..])
  }

  function HexValue(c: char): (r: Option<int>)
    ensures r.Some? ==> 0 <= r.value < 16
  {
    if '0' <= c <= '9' then Some(c as int - '0' as int)
    else if 'a' <= c <= 'f' then Some(c as int - 'a' as int + 10)
    else if 'A' <= c <= 'F' then Some(c as int - 'A' as int + 10)
    else None
  }

  /** The code unit written as four hexadecimal digits after `\u`. */
  function Hex4(s: string): (r: Option<int>)
    requires |s| == 4
  {
    match (HexValue(s[0]), HexValue(s[1]), HexValue(s[2]), HexValue(s[3]))
    case (Some(a), Some(b), Some(c), Some(d)) => Some(((a * 16 + b) * 16 + c) * 16 + d)
    case _ => None
  }

  /** The code unit of a one-character escape `\x`, if `x` is one of the eight. */
  function SimpleEscape(c: char): Option<int>
  {
    if c == '"' || c == '\\' || c == '/' then Some(c as int)
    else if c == 'b' then Some(8)
    else if c == 'f' then Some(12)
    else if c == 'n' then Some(10)
    else if c == 'r' then Some(13)
    else if c == 't' then Some(9)
    else None
  }

  /** The rest of a string literal after its opening quote: its code units and what follows
      the closing quote. Unescaped control characters, bad escapes and a missing closing
      quote are errors. */
  function ParseStringBody(s: string): (r: Option<(seq<int>, string)>)
    ensures r.Some? ==> |r.value.1| < |s|
    decreases |s|
  {
    if s == [] then None
    else if s[0] == '"' then Some(([], s[1..]))
    else if s[0] == '\\' then
      if |s| < 2 then None
      else if s[1] == 'u' then
        if |s| < 6 then None
        else match Hex4(s[2..6])
          case None => None
          case Some(u) =>
            match ParseStringBody(s[6..])
            case None => None
            case Some((us, rest)) => Some(([u] + us, rest))
      else match SimpleEscape(s[1])
        case None => None
        case Some(u) =>
          match ParseStringBody(s[2..])
          case None => None
          case Some((us, rest)) => Some(([u] + us, rest))
    else if s[0] as int < 0x20 then None
    else match ParseStringBody(s[1..])
      case None => None
      case Some((us, rest)) => Some((Utf16(s[0]) + us, rest))
  }

  // ---------------------------------------------------------------------------
  // Numbers

  function Pow10(n: nat): (r: nat)
    ensures r >= 1
  {
    if n == 0 then 1 else 10 * Pow10(n - 1)
  }

  /** The longest run of leading digits and what follows it. */
  function LeadingDigits(s: string): (r: (string, string))
    ensures r.0 + r.1 == s
    ensures forall i :: 0 <= i < |r.0| ==> IsAsciiDigit(r.0[i])
    ensures r.1 != [] ==> !IsAsciiDigit(r.1[0])
  {
    if s != [] && IsAsciiDigit(s[0]) then
      var (d, rest) := LeadingDigits(s[1..]);
      ([s[0]] + d, rest)
    else ([], s)
  }

  /** An optional `.` followed by at least one digit. */
  function ParseFraction(s: string): (r: Option<(real, string)>)
    ensures r.Some? ==> |r.value.1| <= |s|
  {
    if s != [] && s[0] == '.' then
      var (d, rest) := LeadingDigits(s[1..]);
      if d == [] then None
      else Some((DigitsValue(d) as real / Pow10(|d|) as real, rest))
    else Some((0.0, s))
  }

  /** An optional `e`/`E`, optional sign and at least one digit. */
  function ParseExponent(s: string): (r: Option<(int, string)>)
    ensures r.Some? ==> |r.value.1| <= |s|
  {
    if s != [] && (s[0] == 'e' || s[0] == 'E') then
      var t := s[1..];
      var neg := t != [] && t[0] == '-';
      var u := if t != [] && (t[0] == '-' || t[0] == '+') then t[1..] else t;
      var (d, rest) := LeadingDigits(u);
      if d == [] then None
      else Some((if neg then -(DigitsValue(d) as int) else DigitsValue(d), rest))
    else Some((0, s))
  }

  function Scale(e: int): real
  {
    if e >= 0 then Pow10(e) as real else 1.0 / Pow10(-e) as real
  }

  /** `(0 | [1-9][0-9]*) fraction? exponent?`, read as an exact value. */
  function ParseMagnitude(t: string): (r: Option<(real, string)>)
    ensures r.Some? ==> |r.value.1| < |t|
  {
    if t == [] || !IsAsciiDigit(t[0]) then None
    else
      var (whole, r1) := if t[0] == '0' then ("0", t[1..]) else LeadingDigits(t);
      assert |r1| < |t|;
      match ParseFraction(r1)
      case None => None
      case Some((f, r2)) =>
        match ParseExponent(r2)
        case None => None
        case Some((e, r3)) => Some(((DigitsValue(whole) as real + f) * Scale(e), r3))
  }

  /** `-? magnitude`. */
  function ParseNumber(s: string): (r: Option<(real, string)>)
    ensures r.Some? ==> |r.value.1| < |s|
  {
    if s != [] && s[0] == '-' then
      match ParseMagnitude(s[1..])
      case None => None
      case Some((m, rest)) => Some((-m, rest))
    else ParseMagnitude(s)
  }

  // ---------------------------------------------------------------------------
  // Values

  /** One value after optional leading whitespace, and what follows it. */
  function ParseValue(s: string): (r: Option<(JValue, string)>)
    ensures r.Some? ==> |r.value.1| < |s|
    decreases |s|, 1
  {
    ParseToken(SkipWs(s))
  }

  /** A value from its first token: `t` starts where the whitespace before it ends. */
  function ParseToken(t: string): (r: Option<(JValue, string)>)
    ensures r.Some? ==> |r.value.1| < |t|
    decreases |t|, 0
  {
    if t == [] then None
    else if t[0] == 'n' then
      if |t| >= 4 && t[..4] == "null" then Some((JNull, t[4..])) else None
    else if t[0] == 't' then
      if |t| >= 4 && t[..4] == "true" then Some((JBool(true), t[4..])) else None
    else if t[0] == 'f' then
      if |t| >= 5 && t[..5] == "false" then Some((JBool(false), t[5..])) else None
    else if t[0] == '"' then
      match ParseStringBody(t[1..])
      case None => None
      case Some((us, rest)) => Some((JString(us), rest))
    else if t[0] == '[' then ParseArray(t[1..])
    else if t[0] == '{' then ParseObject(t[1..])
    else if t[0] == '-' || IsAsciiDigit(t[0]) then
      match ParseNumber(t)
      case None => None
      case Some((n, rest)) => Some((JNumber(n), rest))
    else None
  }

  /** The rest of an array after `[`. */
  function ParseArray(s: string): (r: Option<(JValue, string)>)
    ensures r.Some? ==> |r.value.1| < |s|
    decreases |s|, 3
  {
    var t := SkipWs(s);
    if t != [] && t[0] == ']' then Some((JArray([]), t[1..]))
    else
      match ParseElements(t)
      case None => None
      case Some((items, rest)) => Some((JArray(items), rest))
  }

  /** `value (, value)* ]`. */
  function ParseElements(s: string): (r: Option<(seq<JValue>, string)>)
    ensures r.Some? ==> |r.value.1| < |s|
    decreases |s|, 2
  {
    match ParseValue(s)
    case None => None
    case Some((v, rest)) =>
      var u := SkipWs(rest);
      if u == [] then None
      else if u[0] == ',' then
        match ParseElements(u[1..])
        case None => None
        case Some((vs, r)) => Some(([v] + vs, r))
      else if u[0] == ']' then Some(([v], u[1..]))
      else None
  }

  /** The rest of an object after `{`. */
  function ParseObject(s: string): (r: Option<(JValue, string)>)
    ensures r.Some? ==> |r.value.1| < |s|
    decreases |s|, 3
  {
    var t := SkipWs(s);
    if t != [] && t[0] == '}' then Some((JObject([]), t[1..]))
    else
      match ParseMembers(t)
      case None => None
      case Some((ms, rest)) => Some((JObject(ms), rest))
  }

  /** `"key" : value (, "key" : value)* }`, whitespace allowed between the tokens. */
  function ParseMembers(s: string): (r: Option<(seq<(seq<int>, JValue)>, string)>)
    ensures r.Some? ==> |r.value.1| < |s|
    decreases |s|, 2
  {
    var t := SkipWs(s);
    if t == [] || t[0] != '"' then None
    else match ParseStringBody(t[1..])
      case None => None
      case Some((key, r1)) =>
        var u := SkipWs(r1);
        if u == [] || u[0] != ':' then None
        else match ParseValue(u[1..])
          case None => None
          case Some((v, r2)) =>
            var w := SkipWs(r2);
            if w == [] then None
            else if w[0] == ',' then
              match ParseMembers(w[1..])
              case None => None
              case Some((ms, r3)) => Some(([(key, v)] + ms, r3))
            else if w[0] == '}' then Some(([(key, v)], w[1..]))
            else None
  }

  /** `JSON.parse(s)`: one value with nothing but whitespace around it; `None` where
      `JSON.parse` throws a `SyntaxError`. */
  function Parse(s: string): Option<JValue>
  {
    match ParseValue(s)
    case None => None
    case Some((v, rest)) => if SkipWs(rest) == [] then Some(v) else None
  }

  /** The value `o[key]` has after `JSON.parse`: when a key repeats, the last one wins. */
  function LastMember(members: seq<(seq<int>, JValue)>, key: seq<int>): (r: Option<JValue>)
    ensures r.Some? <==> exists i :: 0 <= i < |members| && members[i].0 == key
    ensures r.Some? ==>
      exists i :: 0 <= i < |members| && members[i] == (key, r.value) &&
        forall j :: i < j < |members| ==> members[j].0 != key
  {
    if members == [] then None
    else
      var last := members[|members| - 1];
      if last.0 == key then Some(last.1)
      else
        var r := LastMember(members[..|members| - 1], key);
        assert forall i :: 0 <= i < |members| - 1 ==> members[..|members| - 1][i] == members[i];
        r
  }

  // ---------------------------------------------------------------------------
  // Serializing flat claim sets

  datatype Claim = NumClaim(n: int) | StrClaim(s: string) | BoolClaim(b: bool)

  /** A character a claim name or string value may hold unescaped: printable, in the basic
      multilingual plane, and neither a quote nor a backslash. */
  predicate IsPlainChar(c: char)
  {
    0x20 <= c as int < 0x10000 && c != '"' && c != '\\'
  }

  predicate IsPlain(s: string) { forall i :: 0 <= i < |s| ==> IsPlainChar(s[i]) }

  predicate PlainClaims(claims: seq<(string, Claim)>)
  {
    forall i :: 0 <= i < |claims| ==>
      IsPlain(claims[i].0) && (claims[i].1.StrClaim? ==> IsPlain(claims[i].1.s))
  }

  function QuoteString(s: string): string { "\"" + s + "\"" }

  function SerializeClaim(c: Claim): string
  {
    match c
    case NumClaim(n) => IntToString(n)
    case StrClaim(s) => QuoteString(s)
    case BoolClaim(b) => if b then "true" else "false"
  }

  function MemberText(k: string, c: Claim): string
  {
    QuoteString(k) + ":" + SerializeClaim(c)
  }

  /** The members from the first claim on, each followed by a comma or, after the last, the
      closing brace, and then `after`. */
  function SerializeMembers(claims: seq<(string, Claim)>, after: string): string
    requires claims != []
    decreases |claims|, 1
  {
    MemberText(claims[0].0, claims[0].1) + MembersTail(claims, after)
  }

  /** What follows the first member: the closing brace, or a comma and the other members. */
  function MembersTail(claims: seq<(string, Claim)>, after: string): string
    requires claims != []
    decreases |claims|, 0
  {
    if |claims| == 1 then "}" + after else "," + SerializeMembers(claims[1..], after)
  }

  /** The compact JSON text of a claim set, as a token issuer writes it. */
  function SerializeObject(claims: seq<(string, Claim)>): string
  {
    if claims == [] then "{}" else "{" + SerializeMembers(claims, "")
  }

  function ClaimValue(c: Claim): JValue
  {
    match c
    case NumClaim(n) => JNumber(n as real)
    case StrClaim(s) => JString(Units(s))
    case BoolClaim(b) => JBool(b)
  }

  function ClaimMembers(claims: seq<(string, Claim)>): (r: seq<(seq<int>, JValue)>)
    ensures |r| == |claims|
    ensures forall i :: 0 <= i < |claims| ==> r[i] == (Units(claims[i].0), ClaimValue(claims[i].1))
  {
    if claims == [] then []
    else [(Units(claims[0].0), ClaimValue(claims[0].1))] + ClaimMembers(claims[1..])
  }

  // ---------------------------------------------------------------------------
  // What the parser reads back

  lemma {:induction false} UnitsOfPlain(s: string)
    requires IsPlain(s)
    ensures |Units(s)| == |s|
    ensures forall i :: 0 <= i < |s| ==> Units(s)[i] == s[i] as int
  {
    if s != [] {
      UnitsOfPlain(s[1..]);
    }
  }

  /** Plain strings are told apart by their code units. */
  lemma UnitsInjective(s: string, t: string)
    requires IsPlain(s) && IsPlain(t)
    ensures Units(s) == Units(t) <==> s == t
  {
    UnitsOfPlain(s);
    UnitsOfPlain(t);
    if Units(s) == Units(t) {
      assert forall i :: 0 <= i < |s| ==> s[i] as int == t[i] as int;
    }
  }

  lemma {:induction false} ParseQuoted(s: string, rest: string)
    requires IsPlain(s)
    ensures ParseStringBody(s + "\"" + rest) == Some((Units(s), rest))
  {
    if s == [] {
      assert ("\"" + rest)[1..] == rest;
    } else {
      assert (s + "\"" + rest)[1..] == s[1..] + "\"" + rest;
      assert IsPlainChar(s[0]);
      ParseQuoted(s[1..], rest);
    }
  }

  lemma {:induction false} SkipWsNonBlank(s: string)
    requires s != [] && !IsJsonWhitespace(s[0])
    ensures SkipWs(s) == s
  {
  }

  lemma {:induction false} LeadingDigitsOfDigits(d: string, rest: string)
    requires forall i :: 0 <= i < |d| ==> IsAsciiDigit(d[i])
    requires rest != [] ==> !IsAsciiDigit(rest[0])
    ensures LeadingDigits(d + rest) == (d, rest)
  {
    if d != [] {
      var s := d + rest;
      assert s[0] == d[0] && IsAsciiDigit(s[0]);
      assert s[1..] == d[1..] + rest;
      LeadingDigitsOfDigits(d[1..], rest);
      assert LeadingDigits(s) == ([s[0]] + d[1..], rest);
      assert [d[0]] + d[1..] == d;
    } else {
      assert d + rest == rest;
    }
  }

  /** A character that can follow a serialized number inside an object. */
  predicate IsNumberFollower(c: char) { c == ',' || c == '}' }

  lemma ParseNaturalNumber(n: nat, rest: string)
    requires rest != [] && IsNumberFollower(rest[0])
    ensures ParseMagnitude(NatToString(n) + rest) == Some((n as real, rest))
  {
    var d := NatToString(n);
    var s := d + rest;
    assert s[0] == d[0];
    DigitsValueOfNatToString(n);
    if d[0] == '0' {
      assert d == "0";
      assert s[1..] == rest;
    } else {
      LeadingDigitsOfDigits(d, rest);
    }
    assert ParseFraction(rest) == Some((0.0, rest));
    assert ParseExponent(rest) == Some((0, rest));
    assert Scale(0) == 1.0;
  }

  lemma ParseIntegerNumber(n: int, rest: string)
    requires rest != [] && IsNumberFollower(rest[0])
    ensures ParseNumber(IntToString(n) + rest) == Some((n as real, rest))
  {
    if n < 0 {
      var d := NatToString(-n);
      var s := "-" + d + rest;
      assert s[1..] == d + rest;
      ParseNaturalNumber(-n, rest);
    } else {
      var s := NatToString(n) + rest;
      assert s[0] == NatToString(n)[0] && IsAsciiDigit(s[0]);
      ParseNaturalNumber(n, rest);
    }
  }

  // One step of the grammar at a time, so that each proof unfolds one rule.

  /** A value that starts at a token is read from that token. */
  lemma ValueAtToken(s: string)
    requires s != [] && !IsJsonWhitespace(s[0])
    ensures ParseValue(s) == ParseToken(s)
  {
    SkipWsNonBlank(s);
  }

  lemma ValueOfNumber(s: string)
    requires s != [] && (s[0] == '-' || IsAsciiDigit(s[0]))
    ensures ParseValue(s) ==
      match ParseNumber(s)
      case None => None
      case Some((n, rest)) => Some((JNumber(n), rest))
  {
    ValueAtToken(s);
    assert s[0] != 'n' && s[0] != 't' && s[0] != 'f' && s[0] != '"' && s[0] != '[' && s[0] != '{';
  }

  lemma ValueOfString(s: string)
    requires s != [] && s[0] == '"'
    ensures ParseValue(s) ==
      match ParseStringBody(s[1..])
      case None => None
      case Some((us, rest)) => Some((JString(us), rest))
  {
    ValueAtToken(s);
  }

  lemma ValueOfTrue(s: string)
    requires |s| >= 4 && s[..4] == "true"
    ensures ParseValue(s) == Some((JBool(true), s[4..]))
  {
    assert s[0] == 't';
    ValueAtToken(s);
  }

  lemma ValueOfFalse(s: string)
    requires |s| >= 5 && s[..5] == "false"
    ensures ParseValue(s) == Some((JBool(false), s[5..]))
  {
    assert s[0] == 'f';
    ValueAtToken(s);
  }

  /** A member followed by the closing brace ends the object. */
  lemma LastMemberStep(s: string, key: seq<int>, r1: string, v: JValue, r2: string)
    requires s != [] && s[0] == '"'
    requires ParseStringBody(s[1..]) == Some((key, r1))
    requires r1 != [] && r1[0] == ':'
    requires ParseValue(r1[1..]) == Some((v, r2))
    requires r2 != [] && r2[0] == '}'
    ensures ParseMembers(s) == Some(([(key, v)], r2[1..]))
  {
    SkipWsNonBlank(s);
    SkipWsNonBlank(r1);
    SkipWsNonBlank(r2);
    assert r2[0] != ',';
  }

  /** A member followed by a comma is the first of the members after it. */
  lemma NextMemberStep(s: string, key: seq<int>, r1: string, v: JValue, r2: string)
    requires s != [] && s[0] == '"'
    requires ParseStringBody(s[1..]) == Some((key, r1))
    requires r1 != [] && r1[0] == ':'
    requires ParseValue(r1[1..]) == Some((v, r2))
    requires r2 != [] && r2[0] == ','
    ensures ParseMembers(s) ==
      match ParseMembers(r2[1..])
      case None => None
      case Some((ms, r3)) => Some(([(key, v)] + ms, r3))
  {
    SkipWsNonBlank(s);
    SkipWsNonBlank(r1);
    SkipWsNonBlank(r2);
  }

  lemma ParseClaimValue(c: Claim, rest: string)
    requires c.StrClaim? ==> IsPlain(c.s)
    requires rest != [] && IsNumberFollower(rest[0])
    ensures ParseValue(SerializeClaim(c) + rest) == Some((ClaimValue(c), rest))
  {
    var s := SerializeClaim(c) + rest;
    match c
    case NumClaim(n) =>
      assert s[0] == '-' || IsAsciiDigit(s[0]) by {
        assert s[0] == IntToString(n)[0];
        if n >= 0 { assert IsAsciiDigit(NatToString(n)[0]); }
      }
      ValueOfNumber(s);
      ParseIntegerNumber(n, rest);
    case StrClaim(t) =>
      assert s == "\"" + (t + "\"" + rest);
      assert s[1..] == t + "\"" + rest;
      ValueOfString(s);
      ParseQuoted(t, rest);
    case BoolClaim(b) =>
      if b {
        assert s[..4] == "true" && s[4..] == rest;
        ValueOfTrue(s);
      } else {
        assert s[..5] == "false" && s[5..] == rest;
        ValueOfFalse(s);
      }
  }

  lemma PlainClaimsTail(claims: seq<(string, Claim)>)
    requires claims != [] && PlainClaims(claims)
    ensures PlainClaims(claims[1..])
  {
    forall i | 0 <= i < |claims[1..]|
      ensures IsPlain(claims[1..][i].0)
      ensures claims[1..][i].1.StrClaim? ==> IsPlain(claims[1..][i].1.s)
    {
      assert claims[1..][i] == claims[i + 1];
    }
  }

  /** Concatenation regrouped to the right. */
  lemma Regroup<T>(x: seq<T>, y: seq<T>, z: seq<T>, w: seq<T>)
    ensures ((x + y) + z) + w == x + (y + (z + w))
  {
  }

  lemma ParseMemberKey(k: string, c: Claim, tail: string)
    requires IsPlain(k)
    ensures var s := MemberText(k, c) + tail;
      s != [] && s[0] == '"' &&
      ParseStringBody(s[1..]) == Some((Units(k), ":" + SerializeClaim(c) + tail))
  {
    var s := MemberText(k, c) + tail;
    var sc := SerializeClaim(c);
    var r1 := ":" + sc + tail;
    var q := QuoteString(k);
    Regroup(q, ":", sc, tail);
    Regroup("\"", k, "\"", r1);
    Regroup(k, "\"", r1, []);
    assert r1 == ":" + (sc + tail) && r1 + [] == r1;
    assert s == "\"" + ((k + "\"") + r1);
    ParseQuoted(k, r1);
  }

  lemma ParseMemberValue(c: Claim, tail: string)
    requires c.StrClaim? ==> IsPlain(c.s)
    requires tail != [] && IsNumberFollower(tail[0])
    ensures var r1 := ":" + SerializeClaim(c) + tail;
      r1 != [] && r1[0] == ':' && ParseValue(r1[1..]) == Some((ClaimValue(c), tail))
  {
    var r1 := ":" + SerializeClaim(c) + tail;
    assert r1[1..] == SerializeClaim(c) + tail;
    ParseClaimValue(c, tail);
  }

  /** One serialized member followed by a comma or the closing brace. */
  lemma ParseOneMember(k: string, c: Claim, tail: string)
    requires IsPlain(k) && (c.StrClaim? ==> IsPlain(c.s))
    requires tail != [] && IsNumberFollower(tail[0])
    ensures var s := MemberText(k, c) + tail;
      && (tail[0] == '}' ==> ParseMembers(s) == Some(([(Units(k), ClaimValue(c))], tail[1..])))
      && (tail[0] == ',' ==>
            ParseMembers(s) ==
              match ParseMembers(tail[1..])
              case None => None
              case Some((ms, r3)) => Some(([(Units(k), ClaimValue(c))] + ms, r3)))
  {
    var r1 := ":" + SerializeClaim(c) + tail;
    ParseMemberKey(k, c, tail);
    ParseMemberValue(c, tail);
    if tail[0] == '}' {
      LastMemberStep(MemberText(k, c) + tail, Units(k), r1, ClaimValue(c), tail);
    } else {
      NextMemberStep(MemberText(k, c) + tail, Units(k), r1, ClaimValue(c), tail);
    }
  }

  lemma MembersTailFacts(claims: seq<(string, Claim)>, after: string)
    requires claims != []
    ensures var tail := MembersTail(claims, after);
      && tail != [] && IsNumberFollower(tail[0])
      && (|claims| == 1 ==> tail[0] == '}' && tail[1..] == after)
      && (|claims| > 1 ==> tail[0] == ',' && tail[1..] == SerializeMembers(claims[1..], after))
  {
  }

  lemma ClaimMembersCons(claims: seq<(string, Claim)>)
    requires claims != []
    ensures ClaimMembers(claims) == [(Units(claims[0].0), ClaimValue(claims[0].1))] + ClaimMembers(claims[1..])
  {
  }

  lemma {:induction false} ParseSerializedMembers(claims: seq<(string, Claim)>, after: string)
    requires claims != [] && PlainClaims(claims)
    ensures ParseMembers(SerializeMembers(claims, after)) == Some((ClaimMembers(claims), after))
  {
    var k := claims[0].0;
    var c := claims[0].1;
    var tail := MembersTail(claims, after);
    var first := (Units(k), ClaimValue(c));
    MembersTailFacts(claims, after);
    ClaimMembersCons(claims);
    assert IsPlain(k) && (c.StrClaim? ==> IsPlain(c.s));
    ParseOneMember(k, c, tail);
    if |claims| > 1 {
      PlainClaimsTail(claims);
      ParseSerializedMembers(claims[1..], after);
      assert ParseMembers(tail[1..]) == Some((ClaimMembers(claims[1..]), after));
    } else {
      assert ClaimMembers(claims) == [first];
    }
  }

  lemma ObjectStep(s: string)
    requires s != [] && s[0] == '{'
    ensures ParseValue(s) == ParseObject(s[1..])
  {
    ValueAtToken(s);
  }

  lemma ObjectMembersStep(t: string)
    requires t != [] && t[0] == '"'
    ensures ParseObject(t) ==
      match ParseMembers(t)
      case None => None
      case Some((ms, rest)) => Some((JObject(ms), rest))
  {
    SkipWsNonBlank(t);
  }

  lemma EmptyObjectStep(t: string)
    requires t != [] && t[0] == '}'
    ensures ParseObject(t) == Some((JObject([]), t[1..]))
  {
    SkipWsNonBlank(t);
  }

  lemma ParseWhole(s: string, v: JValue)
    requires ParseValue(s) == Some((v, ""))
    ensures Parse(s) == Some(v)
  {
  }

  lemma ParseEmptyObject()
    ensures ParseValue(SerializeObject([])) == Some((JObject([]), ""))
  {
    var s := SerializeObject([]);
    assert s == "{}";
    ObjectStep(s);
    EmptyObjectStep(s[1..]);
    assert s[1..][1..] == "";
  }

  lemma ParseNonEmptyObject(claims: seq<(string, Claim)>)
    requires claims != [] && PlainClaims(claims)
    ensures ParseValue(SerializeObject(claims)) == Some((JObject(ClaimMembers(claims)), ""))
  {
    var t := SerializeMembers(claims, "");
    var s := SerializeObject(claims);
    assert s == "{" + t;
    assert s[1..] == t;
    ObjectStep(s);
    ParseMemberKey(claims[0].0, claims[0].1, MembersTail(claims, ""));
    ObjectMembersStep(t);
    ParseSerializedMembers(claims, "");
  }

  /** `JSON.parse` of a serialized claim set gives the object whose members are the claims,
      in order. */
  lemma ParseSerializedObject(claims: seq<(string, Claim)>)
    requires PlainClaims(claims)
    ensures Parse(SerializeObject(claims)) == Some(JObject(ClaimMembers(claims)))
  {
    if claims == [] {
      ParseEmptyObject();
    } else {
      ParseNonEmptyObject(claims);
    }
    ParseWhole(SerializeObject(claims), JObject(ClaimMembers(claims)));
  }

  /** Whitespace around and inside the document is not significant. */
  lemma ParseIgnoresOuterWhitespace(s: string)
    ensures Parse(" " + s) == Parse(s)
  {
    assert (" " + s)[1..] == s;
    assert SkipWs(" " + s) == SkipWs(s);
  }
}
