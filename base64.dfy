/** Base64 as the browser's `atob` decodes it (the "forgiving-base64 decode" of the HTML
    standard) together with the base64url alphabet of section 5 of RFC 4648, and an unpadded
    encoder used to state the round trip. */
module Base64 {
  import opened Wrappers

  type Byte = x: int | 0 <= x < 256
  type Sextet = x: int | 0 <= x < 64

  /** The standard alphabet of section 4 of RFC 4648. */
  predicate IsBase64Char(c: char)
  {
    ('A' <= c <= 'Z') || ('a' <= c <= 'z') || ('0' <= c <= '9') || c == '+' || c == '/'
  }

  /** ASCII whitespace as `atob` strips it: tab, line feed, form feed, carriage return, space. */
  predicate IsAsciiWhitespace(c: char)
  {
    c == '\t' || c == '\n' || c == '\U{000C}' || c == '\r' || c == ' '
  }

  function SextetOf(c: char): (v: Sextet)
    requires IsBase64Char(c)
  {
    if 'A' <= c <= 'Z' then c as int - 'A' as int
    else if 'a' <= c <= 'z' then c as int - 'a' as int + 26
    else if '0' <= c <= '9' then c as int - '0' as int + 52
    else if c == '+' then 62
    else 63
  }

  function CharOf(v: Sextet): (c: char)
    ensures IsBase64Char(c) && SextetOf(c) == v
  {
    if v < 26 then ('A' as int + v) as char
    else if v < 52 then ('a' as int + v - 26) as char
    else if v < 62 then ('0' as int + v - 52) as char
    else if v == 62 then '+'
    else '/'
  }

  function RemoveWhitespace(s: string): (r: string)
    ensures forall i :: 0 <= i < |r| ==> !IsAsciiWhitespace(r[i])
    ensures (forall i :: 0 <= i < |s| ==> !IsAsciiWhitespace(s[i])) ==> r == s
  {
    if s == [] then []
    else if IsAsciiWhitespace(s[0]) then RemoveWhitespace(s[1..])
    else [s[0]] + RemoveWhitespace(s[1..])
  }

  /** Step 2 of the forgiving decode: only when the length is a multiple of four,
      one or two trailing `=` are removed. */
  function DropPadding(s: string): (r: string)
    ensures |r| <= |s| && r == s[..|r|]
  {
    if |s| % 4 != 0 then s
    else if |s| >= 2 && s[|s| - 2..] == "==" then s[..|s| - 2]
    else if |s| >= 1 && s[|s| - 1] == '=' then s[..|s| - 1]
    else s
  }

  /** Bytes of one full group of four sextets. */
  function GroupBytes(a: Sextet, b: Sextet, c: Sextet, d: Sextet): seq<Byte>
  {
    [a * 4 + b / 16, (b % 16) * 16 + c / 4, (c % 4) * 64 + d]
  }

  /** Step 5: the sextets read as a bit stream; a trailing group of two or three sextets
      gives one or two bytes and its leftover bits are discarded. */
  function DecodeSextets(q: seq<Sextet>): (r: seq<Byte>)
    requires |q| % 4 != 1
  {
    if |q| >= 4 then GroupBytes(q[0], q[1], q[2], q[3]) + DecodeSextets(q[4..])
    else if |q| == 3 then var r: seq<Byte> := [q[0] as int * 4 + q[1] as int / 16, (q[1] as int % 16) * 16 + q[2] as int / 4]; r
    else if |q| == 2 then var r: seq<Byte> := [q[0] as int * 4 + q[1] as int / 16]; r
    else []
  }

  /** `atob(s)`; `None` where `atob` throws. */
  function Decode(s: string): (r: Option<seq<Byte>>)
    ensures r.Some? <==>
      var t := DropPadding(RemoveWhitespace(s));
      |t| % 4 != 1 && forall i :: 0 <= i < |t| ==> IsBase64Char(t[i])
  {
    var t := DropPadding(RemoveWhitespace(s));
    if |t| % 4 == 1 then None
    else if exists i :: 0 <= i < |t| && !IsBase64Char(t[i]) then None
    else Some(DecodeSextets(seq(|t|, i requires 0 <= i < |t| => SextetOf(t[i]))))
  }

  /** `s.replace(/-/g, '+').replace(/_/g, '/')`: the base64url alphabet mapped onto the
      standard one. */
  function UrlToStandard(s: string): (r: string)
    ensures |r| == |s|
    ensures forall i :: 0 <= i < |s| ==>
      r[i] == (if s[i] == '-' then '+' else if s[i] == '_' then '/' else s[i])
  {
    if s == [] then [] else
      [if s[0] == '-' then '+' else if s[0] == '_' then '/' else s[0]] + UrlToStandard(s[1..])
  }

  // ---------------------------------------------------------------------------
  // Encoding (the issuer's side), used to state what decodes successfully

  function EncodeSextets(b: seq<Byte>): (q: seq<Sextet>)
    ensures |q| % 4 != 1
    ensures |b| % 3 == 0 ==> |q| == |b| / 3 * 4
    ensures |b| % 3 == 1 ==> |q| == |b| / 3 * 4 + 2
    ensures |b| % 3 == 2 ==> |q| == |b| / 3 * 4 + 3
  {
    if |b| >= 3 then
      [b[0] / 4, (b[0] % 4) * 16 + b[1] / 16, (b[1] % 16) * 4 + b[2] / 64, b[2] % 64]
      + EncodeSextets(b[3..])
    else if |b| == 2 then [b[0] / 4, (b[0] % 4) * 16 + b[1] / 16, (b[1] % 16) * 4]
    else if |b| == 1 then [b[0] / 4, (b[0] % 4) * 16]
    else []
  }

  /** Unpadded standard base64 of `b`. */
  function Encode(b: seq<Byte>): (s: string)
    ensures forall i :: 0 <= i < |s| ==> IsBase64Char(s[i])
  {
    var q := EncodeSextets(b);
    seq(|q|, i requires 0 <= i < |q| => CharOf(q[i]))
  }

  /** Unpadded base64url of `b` (section 5 of RFC 4648), as a JWS segment carries it. */
  function EncodeUrl(b: seq<Byte>): (s: string)
    ensures forall i :: 0 <= i < |s| ==> s[i] != '.' && s[i] != '+' && s[i] != '/'
  {
    var e := Encode(b);
    seq(|e|, i requires 0 <= i < |e| => if e[i] == '+' then '-' else if e[i] == '/' then '_' else e[i])
  }

  lemma {:induction false} DecodeEncodeSextets(b: seq<Byte>)
    ensures DecodeSextets(EncodeSextets(b)) == b
  {
    if |b| >= 3 {
      DecodeEncodeSextets(b[3..]);
      var q := EncodeSextets(b);
      assert q[4..] == EncodeSextets(b[3..]);
      assert b == b[..3] + b[3..];
    }
  }

  /** Sequence of the sextet values of an all-alphabet string. */
  lemma SextetsOfEncoding(b: seq<Byte>)
    ensures var e := Encode(b);
      seq(|e|, i requires 0 <= i < |e| => SextetOf(e[i])) == EncodeSextets(b)
  {
  }

  lemma UrlToStandardOfEncodeUrl(b: seq<Byte>)
    ensures UrlToStandard(EncodeUrl(b)) == Encode(b)
  {
    var e := Encode(b);
    var u := EncodeUrl(b);
    forall i | 0 <= i < |e| ensures UrlToStandard(u)[i] == e[i] {
      assert IsBase64Char(e[i]);
    }
  }

  /** A string over the alphabet holds neither whitespace nor padding, so steps 1 and 2
      leave it alone. */
  lemma {:induction false} CleanAlphabetString(s: string)
    requires forall i :: 0 <= i < |s| ==> IsBase64Char(s[i])
    ensures DropPadding(RemoveWhitespace(s)) == s
  {
    assert RemoveWhitespace(s) == s by {
      forall i | 0 <= i < |s| ensures !IsAsciiWhitespace(s[i]) {
        assert IsBase64Char(s[i]);
      }
    }
    if |s| >= 1 {
      assert IsBase64Char(s[|s| - 1]);
      assert s[|s| - 1] != '=';
      if |s| >= 2 {
        assert s[|s| - 2..][1] == s[|s| - 1];
        assert s[|s| - 2..] != "==";
      }
    }
  }

  /** What `EncodeUrl` writes, `UrlToStandard` followed by `atob` reads back. */
  lemma DecodeEncodeUrl(b: seq<Byte>)
    ensures Decode(UrlToStandard(EncodeUrl(b))) == Some(b)
  {
    UrlToStandardOfEncodeUrl(b);
    CleanAlphabetString(Encode(b));
    SextetsOfEncoding(b);
    DecodeEncodeSextets(b);
  }

  /** A whitespace-free input of length 1 modulo 4 is rejected. */
  lemma {:induction false} DecodeRejectsLengthOneMod4(s: string)
    requires forall i :: 0 <= i < |s| ==> IsBase64Char(s[i])
    requires |s| % 4 == 1
    ensures Decode(s) == None
  {
    assert RemoveWhitespace(s) == s by {
      forall i | 0 <= i < |s| ensures !IsAsciiWhitespace(s[i]) {
        assert IsBase64Char(s[i]);
      }
    }
  }

  /** Padding characters are neither whitespace nor removed by step 1. */
  lemma {:induction false} NoWhitespaceInPadded(e: string, p: string)
    requires forall i :: 0 <= i < |e| ==> IsBase64Char(e[i])
    requires forall i :: 0 <= i < |p| ==> p[i] == '='
    ensures RemoveWhitespace(e + p) == e + p
  {
    var t := e + p;
    forall i | 0 <= i < |t| ensures !IsAsciiWhitespace(t[i]) {
      if i < |e| { assert IsBase64Char(e[i]); } else { assert t[i] == p[i - |e|]; }
    }
  }

  lemma DropTwoPadding(e: string)
    requires (|e| + 2) % 4 == 0
    ensures DropPadding(e + "==") == e
  {
    var t := e + "==";
    assert t[|t| - 2..] == "==";
    assert t[..|t| - 2] == e;
  }

  lemma DropOnePadding(e: string)
    requires (|e| + 1) % 4 == 0 && |e| >= 2 && IsBase64Char(e[|e| - 1])
    ensures DropPadding(e + "=") == e
  {
    var t := e + "=";
    assert t[|t| - 2..] != "==" by { assert t[|t| - 2..][0] == e[|e| - 1]; }
    assert t[..|t| - 1] == e;
  }

  /** Whatever cleans up to an encoding decodes to the encoded bytes. */
  lemma DecodeOfCleaned(s: string, b: seq<Byte>)
    requires DropPadding(RemoveWhitespace(s)) == Encode(b)
    ensures Decode(s) == Some(b)
  {
    SextetsOfEncoding(b);
    DecodeEncodeSextets(b);
  }

  lemma DecodeWithTwoPadding(b: seq<Byte>)
    requires |b| % 3 == 1
    ensures Decode(Encode(b) + "==") == Some(b)
  {
    var e := Encode(b);
    var k := |b| / 3;
    assert |EncodeSextets(b)| == k * 4 + 2;
    assert |e| + 2 == 4 * (k + 1);
    NoWhitespaceInPadded(e, "==");
    DropTwoPadding(e);
    DecodeOfCleaned(e + "==", b);
  }

  lemma DecodeWithOnePadding(b: seq<Byte>)
    requires |b| % 3 == 2
    ensures Decode(Encode(b) + "=") == Some(b)
  {
    var e := Encode(b);
    var k := |b| / 3;
    assert |EncodeSextets(b)| == k * 4 + 3;
    assert |e| + 1 == 4 * (k + 1);
    NoWhitespaceInPadded(e, "=");
    assert IsBase64Char(e[|e| - 1]);
    DropOnePadding(e);
    DecodeOfCleaned(e + "=", b);
  }

  /** One or two `=` of padding on a full-length input are accepted and ignored. */
  lemma PaddingIsIgnored(b: seq<Byte>)
    requires |b| % 3 != 0
    ensures Decode(Encode(b) + if |b| % 3 == 1 then "==" else "=") == Some(b)
  {
    if |b| % 3 == 1 {
      DecodeWithTwoPadding(b);
    } else {
      DecodeWithOnePadding(b);
    }
  }
}
