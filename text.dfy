/** Character classes and string operations shared by the client and the server models.
    Casing is ASCII only: the JavaScript regular expressions `[A-Z]`, `[a-z]`, `\d` test
    ASCII classes, and the server's Unicode casing is deliberately narrowed to the same. */
module Text {
  import opened Wrappers

  predicate IsAsciiUpper(c: char) { 'A' <= c <= 'Z' }
  predicate IsAsciiLower(c: char) { 'a' <= c <= 'z' }
  predicate IsAsciiDigit(c: char) { '0' <= c <= '9' }
  predicate IsAsciiAlphanumeric(c: char) { IsAsciiUpper(c) || IsAsciiLower(c) || IsAsciiDigit(c) }

  /** ASCII lower-casing of one character (`String.prototype.toLowerCase` restricted to ASCII). */
  function LowerChar(c: char): (r: char)
    ensures IsAsciiUpper(c) ==> IsAsciiLower(r) && r as int == c as int + 32
    ensures !IsAsciiUpper(c) ==> r == c
  {
    if IsAsciiUpper(c) then (c as int + 32) as char else c
  }

  function Lower(s: string): (r: string)
    ensures |r| == |s|
    ensures forall i :: 0 <= i < |s| ==> r[i] == LowerChar(s[i])
  {
    if s == [] then [] else [LowerChar(s[0])] + Lower(s[1..])
  }

  /** `sub` occurs in `s` at some offset. */
  ghost predicate OccursAt(sub: string, s: string, i: int)
  {
    0 <= i && i + |sub| <= |s| && s[i..i + |sub|] == sub
  }

  ghost predicate IsSubstring(sub: string, s: string)
  {
    exists i :: OccursAt(sub, s, i)
  }

  lemma LowerIsIdempotent(s: string)
    ensures Lower(Lower(s)) == Lower(s)
  {
  }

  /** The empty string occurs in every string. */
  lemma ContainsEmpty(s: string)
    ensures Contains(s, "")
  {
    assert OccursAt("", s, 0);
  }

  /** `s.includes(sub)`: the empty string is contained in every string. */
  function Contains(s: string, sub: string): (r: bool)
    ensures r <==> IsSubstring(sub, s)
    decreases |s|
  {
    if |sub| > |s| then false
    else if s[..|sub|] == sub then
      assert OccursAt(sub, s, 0);
      true
    else
      var r := Contains(s[1..], sub);
      if r then
        assert IsSubstring(sub, s) by {
          var i :| OccursAt(sub, s[1..], i);
          assert s[1..][i..i + |sub|] == s[i + 1..i + 1 + |sub|];
          assert OccursAt(sub, s, i + 1);
        }
        true
      else
        assert !IsSubstring(sub, s) by {
          forall i | OccursAt(sub, s, i) ensures false {
            if i > 0 {
              assert s[1..][i - 1..i - 1 + |sub|] == s[i..i + |sub|];
              assert OccursAt(sub, s[1..], i - 1);
            }
          }
        }
        false
  }

  lemma {:induction false} ContainsSelfConcat(a: string, sub: string, b: string)
    ensures Contains(a + sub + b, sub)
  {
    assert OccursAt(sub, a + sub + b, |a|) by {
      assert (a + sub + b)[|a|..|a| + |sub|] == sub;
    }
  }

  // ---------------------------------------------------------------------------
  // Whitespace and stripping

  /** Characters JavaScript's `String.prototype.trim` removes (WhiteSpace and LineTerminator). */
  predicate IsJsWhitespace(c: char)
  {
    var n := c as int;
    (9 <= n <= 13) || n == 0x20 || n == 0xA0 || n == 0x1680 || (0x2000 <= n <= 0x200A)
    || n == 0x2028 || n == 0x2029 || n == 0x202F || n == 0x205F || n == 0x3000 || n == 0xFEFF
  }

  /** Characters Python's `str.strip()` and `int()` treat as whitespace (`str.isspace`). */
  predicate IsPyWhitespace(c: char)
  {
    var n := c as int;
    (9 <= n <= 13) || (0x1C <= n <= 0x20) || n == 0x85 || n == 0xA0 || n == 0x1680
    || (0x2000 <= n <= 0x200A) || n == 0x2028 || n == 0x2029 || n == 0x202F || n == 0x205F
    || n == 0x3000
  }

  function StripLeft(s: string, ws: char -> bool): (r: string)
    ensures |r| <= |s| && r == s[|s| - |r|..]
    ensures r != [] ==> !ws(r[0])
    ensures forall i :: 0 <= i < |s| - |r| ==> ws(s[i])
  {
    if s != [] && ws(s[0]) then StripLeft(s[1..], ws) else s
  }

  function StripRight(s: string, ws: char -> bool): (r: string)
    ensures |r| <= |s| && r == s[..|r|]
    ensures r != [] ==> !ws(r[|r| - 1])
    ensures forall i :: |r| <= i < |s| ==> ws(s[i])
  {
    if s != [] && ws(s[|s| - 1]) then StripRight(s[..|s| - 1], ws) else s
  }

  /** Removes leading and trailing characters of class `ws`. */
  function Strip(s: string, ws: char -> bool): string
  {
    StripRight(StripLeft(s, ws), ws)
  }

  /** A string strips to nothing exactly when every character is whitespace. */
  lemma StripEmptyIffBlank(s: string, ws: char -> bool)
    ensures Strip(s, ws) == [] <==> forall i :: 0 <= i < |s| ==> ws(s[i])
  {
    var l := StripLeft(s, ws);
    if Strip(s, ws) == [] {
      forall i | 0 <= i < |s| ensures ws(s[i]) {
        if i >= |s| - |l| {
          assert s[i] == l[i - (|s| - |l|)];
        }
      }
    }
  }

  function PyStrip(s: string): string { Strip(s, IsPyWhitespace) }

  /** JavaScript `!s.trim()`: the trimmed string is empty. */
  predicate IsJsBlank(s: string) { Strip(s, IsJsWhitespace) == [] }

  // ---------------------------------------------------------------------------
  // JavaScript truthiness of optional strings

  /** `a || fallback` for a value that may be missing: an empty string is falsy too. */
  function OrElse(a: Option<string>, fallback: string): (r: string)
    ensures a.Some? && a.value != "" ==> r == a.value
    ensures (a.None? || a.value == "") ==> r == fallback
  {
    if a.Some? && a.value != "" then a.value else fallback
  }

  /** A template-literal interpolation `${x}`: a missing value prints as `undefined`. */
  function Interpolate(a: Option<string>): string
  {
    match a
    case Some(v) => v
    case None => "undefined"
  }

  // ---------------------------------------------------------------------------
  // Splitting and joining

  /** `s.split(sep)` for a one-character separator. */
  function SplitOn(s: string, sep: char): (r: seq<string>)
    ensures |r| >= 1
  {
    if s == [] then [""]
    else
      var rest := SplitOn(s[1..], sep);
      if s[0] == sep then [""] + rest else [[s[0]] + rest[0]] + rest[1..]
  }

  /** `pieces.join(sep)`. */
  function Join(pieces: seq<string>, sep: string): string
  {
    if pieces == [] then ""
    else if |pieces| == 1 then pieces[0]
    else pieces[0] + sep + Join(pieces[1..], sep)
  }

  /** Splitting and re-joining gives back the original string, and no piece holds the separator. */
  lemma {:induction false} SplitJoin(s: string, sep: char)
    ensures Join(SplitOn(s, sep), [sep]) == s
    ensures forall k :: 0 <= k < |SplitOn(s, sep)| ==> sep !in SplitOn(s, sep)[k]
  {
    if s != [] {
      SplitJoin(s[1..], sep);
      var rest := SplitOn(s[1..], sep);
      if s[0] == sep {
        assert Join([""] + rest, [sep]) == "" + [sep] + Join(rest, [sep]);
        assert s == [s[0]] + s[1..];
      } else {
        var r := [[s[0]] + rest[0]] + rest[1..];
        if |rest| == 1 {
          assert Join(r, [sep]) == [s[0]] + rest[0];
          assert s == [s[0]] + s[1..];
        } else {
          assert Join(rest, [sep]) == rest[0] + [sep] + Join(rest[1..], [sep]);
          assert r[1..] == rest[1..];
          assert Join(r, [sep]) == [s[0]] + rest[0] + [sep] + Join(rest[1..], [sep]);
          assert s == [s[0]] + s[1..];
        }
        forall k | 0 <= k < |r| ensures sep !in r[k] {
          if k > 0 { assert r[k] == rest[k]; }
        }
      }
    }
  }

  /** Splitting `a + [sep] + b` where `a` has no separator: the first piece is `a` and the rest
      is the split of `b`. */
  lemma {:induction false} SplitAfterPrefix(a: string, sep: char, b: string)
    requires sep !in a
    ensures SplitOn(a + [sep] + b, sep) == [a] + SplitOn(b, sep)
  {
    if a == [] {
      assert ([sep] + b)[1..] == b;
    } else {
      assert (a + [sep] + b)[1..] == a[1..] + [sep] + b;
      SplitAfterPrefix(a[1..], sep, b);
      assert a == [a[0]] + a[1..];
    }
  }

  /** A string without the separator splits into itself alone. */
  lemma {:induction false} SplitWithoutSeparator(a: string, sep: char)
    requires sep !in a
    ensures SplitOn(a, sep) == [a]
  {
    if a != [] {
      SplitWithoutSeparator(a[1..], sep);
      assert a == [a[0]] + a[1..];
    }
  }

  /** Joining pieces none of which holds the separator, and splitting again, gives the
      pieces back. */
  lemma {:induction false} SplitOfJoin(pieces: seq<string>, sep: char)
    requires |pieces| >= 1 && forall k :: 0 <= k < |pieces| ==> sep !in pieces[k]
    ensures SplitOn(Join(pieces, [sep]), sep) == pieces
  {
    if |pieces| == 1 {
      SplitWithoutSeparator(pieces[0], sep);
    } else {
      SplitOfJoin(pieces[1..], sep);
      SplitAfterPrefix(pieces[0], sep, Join(pieces[1..], [sep]));
      assert pieces == [pieces[0]] + pieces[1..];
    }
  }

  /** A character in none of the pieces nor in the separator is not in their join. */
  lemma {:induction false} JoinAvoids(pieces: seq<string>, sep: string, c: char)
    requires c !in sep && forall k :: 0 <= k < |pieces| ==> c !in pieces[k]
    ensures c !in Join(pieces, sep)
  {
    if |pieces| > 1 {
      JoinAvoids(pieces[1..], sep, c);
    }
  }

  // ---------------------------------------------------------------------------
  // Decimal digits

  function DigitChar(d: int): (r: char)
    requires 0 <= d < 10
    ensures IsAsciiDigit(r) && r as int - '0' as int == d
  {
    ('0' as int + d) as char
  }

  /** The decimal digits of `n`, without leading zeros (`"0"` for zero). */
  function NatToString(n: nat): (r: string)
    ensures |r| >= 1
    ensures forall i :: 0 <= i < |r| ==> IsAsciiDigit(r[i])
    ensures r[0] == '0' ==> n == 0 && r == "0"
    decreases n
  {
    if n < 10 then [DigitChar(n)] else NatToString(n / 10) + [DigitChar(n % 10)]
  }

  /** JavaScript's / Python's decimal rendering of an integer. */
  function IntToString(i: int): string
  {
    if i < 0 then "-" + NatToString(-i) else NatToString(i)
  }

  /** The value of a string of decimal digits. */
  function DigitsValue(s: string): (n: nat)
    requires forall i :: 0 <= i < |s| ==> IsAsciiDigit(s[i])
  {
    if s == [] then 0
    else
      assert IsAsciiDigit(s[|s| - 1]);
      10 * DigitsValue(s[..|s| - 1]) + (s[|s| - 1] as int - '0' as int)
  }

  /** Reading back the digits written by `NatToString` gives the number. */
  lemma {:induction false} DigitsValueOfNatToString(n: nat)
    ensures DigitsValue(NatToString(n)) == n
    decreases n
  {
    var s := NatToString(n);
    if n >= 10 {
      DigitsValueOfNatToString(n / 10);
      assert s[..|s| - 1] == NatToString(n / 10);
    }
  }
}
