/** Strict UTF-8, as `decodeURIComponent` applies it to a run of `%XX` escapes: the
    well-formed byte sequences of table 3-7 of the Unicode standard, with no overlong forms,
    no surrogate code points and nothing above U+10FFFF. Any other byte sequence makes
    `decodeURIComponent` throw a `URIError`. */
module Utf8 {
  import opened Wrappers
  import opened Base64

  predicate IsContinuation(b: Byte) { 0x80 <= b <= 0xBF }

  /** The first character of `b` and the number of bytes it takes, or `None` when `b` does
      not start with a well-formed sequence. */
  function DecodeFirst(b: seq<Byte>): (r: Option<(char, nat)>)
    requires |b| > 0
    ensures r.Some? ==> 1 <= r.value.1 <= |b| && r.value.1 <= 4
  {
    var b0: int := b[0];
    if b0 <= 0x7F then Some((b0 as char, 1))
    else if 0xC2 <= b0 <= 0xDF then
      if |b| >= 2 && IsContinuation(b[1]) then
        Some((((b0 - 0xC0) * 64 + (b[1] as int - 0x80)) as char, 2))
      else None
    else if 0xE0 <= b0 <= 0xEF then
      var lo := if b0 == 0xE0 then 0xA0 else 0x80;
      var hi := if b0 == 0xED then 0x9F else 0xBF;
      if |b| >= 3 && lo <= b[1] <= hi && IsContinuation(b[2]) then
        var v := (b0 - 0xE0) * 4096 + (b[1] as int - 0x80) * 64 + (b[2] as int - 0x80);
        assert v < 0xD800 || 0xE000 <= v < 0x10000;
        Some((v as char, 3))
      else None
    else if 0xF0 <= b0 <= 0xF4 then
      var lo := if b0 == 0xF0 then 0x90 else 0x80;
      var hi := if b0 == 0xF4 then 0x8F else 0xBF;
      if |b| >= 4 && lo <= b[1] <= hi && IsContinuation(b[2]) && IsContinuation(b[3]) then
        var v := (b0 - 0xF0) * 262144 + (b[1] as int - 0x80) * 4096 + (b[2] as int - 0x80) * 64 + (b[3] as int - 0x80);
        assert 0x10000 <= v <= 0x10FFFF;
        Some((v as char, 4))
      else None
    else None
  }

  /** The string the bytes encode, or `None` when they are not well-formed UTF-8. */
  function Decode(b: seq<Byte>): (r: Option<string>)
    decreases |b|
  {
    if b == [] then Some("")
    else match DecodeFirst(b)
      case None => None
      case Some((c, n)) =>
        match Decode(b[n..])
        case None => None
        case Some(rest) => Some([c] + rest)
  }

  /** The UTF-8 encoding of one scalar value. */
  function EncodeChar(c: char): (r: seq<Byte>)
    ensures 1 <= |r| <= 4
  {
    var n := c as int;
    if n < 0x80 then [n]
    else if n < 0x800 then [0xC0 + n / 64, 0x80 + n % 64]
    else if n < 0x10000 then [0xE0 + n / 4096, 0x80 + (n / 64) % 64, 0x80 + n % 64]
    else [0xF0 + n / 262144, 0x80 + (n / 4096) % 64, 0x80 + (n / 64) % 64, 0x80 + n % 64]
  }

  function Encode(s: string): (r: seq<Byte>)
    ensures |r| >= |s|
  {
    if s == [] then [] else EncodeChar(s[0]) + Encode(s[1..])
  }

  /** An ASCII string encodes byte for byte. */
  lemma {:induction false} EncodeAscii(s: string)
    requires forall i :: 0 <= i < |s| ==> s[i] as int < 0x80
    ensures |Encode(s)| == |s|
    ensures forall i :: 0 <= i < |s| ==> Encode(s)[i] == s[i] as int
  {
    if s != [] {
      EncodeAscii(s[1..]);
    }
  }

  lemma DivMod64(n: int)
    requires 0 <= n
    ensures n == (n / 64) * 64 + n % 64 && 0 <= n % 64 < 64
  {
  }

  lemma DecodeFirstTwoBytes(c: char, rest: seq<Byte>)
    requires 0x80 <= c as int < 0x800
    ensures DecodeFirst(EncodeChar(c) + rest) == Some((c, 2))
  {
    var n := c as int;
    var b := EncodeChar(c) + rest;
    DivMod64(n);
    assert b[0] == 0xC0 + n / 64 && b[1] == 0x80 + n % 64;
  }

  lemma DecodeFirstThreeBytes(c: char, rest: seq<Byte>)
    requires 0x800 <= c as int < 0x10000
    ensures DecodeFirst(EncodeChar(c) + rest) == Some((c, 3))
  {
    var n := c as int;
    var b := EncodeChar(c) + rest;
    DivMod64(n);
    DivMod64(n / 64);
    assert n / 4096 == (n / 64) / 64;
    assert b[0] == 0xE0 + n / 4096 && b[1] == 0x80 + (n / 64) % 64 && b[2] == 0x80 + n % 64;
    assert n == (n / 4096) * 4096 + ((n / 64) % 64) * 64 + n % 64;
  }

  lemma DecodeFirstFourBytes(c: char, rest: seq<Byte>)
    requires 0x10000 <= c as int
    ensures DecodeFirst(EncodeChar(c) + rest) == Some((c, 4))
  {
    var n := c as int;
    var b := EncodeChar(c) + rest;
    DivMod64(n);
    DivMod64(n / 64);
    DivMod64(n / 4096);
    assert n / 4096 == (n / 64) / 64;
    assert n / 262144 == (n / 4096) / 64;
    assert b[0] == 0xF0 + n / 262144 && b[1] == 0x80 + (n / 4096) % 64;
    assert b[2] == 0x80 + (n / 64) % 64 && b[3] == 0x80 + n % 64;
    assert n == (n / 262144) * 262144 + ((n / 4096) % 64) * 4096 + ((n / 64) % 64) * 64 + n % 64;
  }

  /** Each encoded character is read back first. */
  lemma DecodeFirstOfEncodeChar(c: char, rest: seq<Byte>)
    ensures DecodeFirst(EncodeChar(c) + rest) == Some((c, |EncodeChar(c)|))
  {
    var n := c as int;
    if n < 0x80 {
    } else if n < 0x800 {
      DecodeFirstTwoBytes(c, rest);
    } else if n < 0x10000 {
      DecodeFirstThreeBytes(c, rest);
    } else {
      DecodeFirstFourBytes(c, rest);
    }
  }

  /** Decoding what `Encode` writes gives the string back. */
  lemma {:induction false} DecodeEncode(s: string)
    ensures Decode(Encode(s)) == Some(s)
  {
    if s != [] {
      var e := EncodeChar(s[0]);
      DecodeFirstOfEncodeChar(s[0], Encode(s[1..]));
      assert (e + Encode(s[1..]))[|e|..] == Encode(s[1..]);
      DecodeEncode(s[1..]);
      assert s == [s[0]] + s[1..];
    }
  }

  /** A lone continuation byte, or a surrogate's three-byte form, is rejected. */
  lemma RejectsIllFormed()
    ensures Decode([0x80]) == None
    ensures Decode([0xED, 0xA0, 0x80]) == None
    ensures Decode([0xC0, 0xAF]) == None
  {
  }
}
