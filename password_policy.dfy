/** The password-strength rule, as the server enforces it (`_validate_password`) and as the
    login and reset-password forms check it before submitting (`validatePassword`). Both ask
    for eight characters, an upper-case letter, a lower-case letter, a digit and one of the
    same 26 special characters; the client counts UTF-16 code units where the server counts
    code points. */
module PasswordPolicy {
  import opened Text
  import Json

  /** The special characters both sides accept. */
  const Specials: string := "!@#$%^&*()_+-=[]{}|;:,.<>?"

  predicate IsSpecial(c: char) { c in Specials }

  predicate HasUpper(p: string) { exists i :: 0 <= i < |p| && IsAsciiUpper(p[i]) }
  predicate HasLower(p: string) { exists i :: 0 <= i < |p| && IsAsciiLower(p[i]) }
  predicate HasDigit(p: string) { exists i :: 0 <= i < |p| && IsAsciiDigit(p[i]) }
  predicate HasSpecial(p: string) { exists i :: 0 <= i < |p| && IsSpecial(p[i]) }

  /** `any(pred(c) for c in p)`, scanning from the left. */
  function AnyUpper(p: string): (r: bool)
    ensures r <==> HasUpper(p)
  {
    if p == [] then false
    else if IsAsciiUpper(p[0]) then true
    else
      var r := AnyUpper(p[1..]);
      assert HasUpper(p) <==> HasUpper(p[1..]) by { TailWitness(p); }
      r
  }

  function AnyLower(p: string): (r: bool)
    ensures r <==> HasLower(p)
  {
    if p == [] then false
    else if IsAsciiLower(p[0]) then true
    else
      var r := AnyLower(p[1..]);
      assert HasLower(p) <==> HasLower(p[1..]) by { TailWitness(p); }
      r
  }

  function AnyDigit(p: string): (r: bool)
    ensures r <==> HasDigit(p)
  {
    if p == [] then false
    else if IsAsciiDigit(p[0]) then true
    else
      var r := AnyDigit(p[1..]);
      assert HasDigit(p) <==> HasDigit(p[1..]) by { TailWitness(p); }
      r
  }

  function AnySpecial(p: string): (r: bool)
    ensures r <==> HasSpecial(p)
  {
    if p == [] then false
    else if IsSpecial(p[0]) then true
    else
      var r := AnySpecial(p[1..]);
      assert HasSpecial(p) <==> HasSpecial(p[1..]) by { TailWitness(p); }
      r
  }

  /** Positions of `p[1..]` are the positions of `p` after the first. */
  lemma TailWitness(p: string)
    requires p != []
    ensures forall i :: 1 <= i < |p| ==> p[i] == p[1..][i - 1]
  {
  }

  // ---------------------------------------------------------------------------
  // Server

  /** `_validate_password`: the verdict and the message of the first rule that fails. */
  function ServerValidate(p: string): (r: (bool, string))
    ensures r.0 <==> |p| >= 8 && HasUpper(p) && HasLower(p) && HasDigit(p) && HasSpecial(p)
    ensures |p| < 8 ==> r.1 == "Password must be at least 8 characters long"
    ensures |p| >= 8 && !HasUpper(p) ==> r.1 == "Password must contain at least one uppercase letter"
    ensures |p| >= 8 && HasUpper(p) && !HasLower(p) ==> r.1 == "Password must contain at least one lowercase letter"
    ensures |p| >= 8 && HasUpper(p) && HasLower(p) && !HasDigit(p) ==>
      r.1 == "Password must contain at least one digit"
    ensures |p| >= 8 && HasUpper(p) && HasLower(p) && HasDigit(p) && !HasSpecial(p) ==>
      r.1 == "Password must contain at least one special character (" + Specials + ")"
    ensures r.0 ==> r.1 == "Password is strong"
  {
    if |p| < 8 then (false, "Password must be at least 8 characters long")
    else if !AnyUpper(p) then (false, "Password must contain at least one uppercase letter")
    else if !AnyLower(p) then (false, "Password must contain at least one lowercase letter")
    else if !AnyDigit(p) then (false, "Password must contain at least one digit")
    else if !AnySpecial(p) then (false, "Password must contain at least one special character (" + Specials + ")")
    else (true, "Password is strong")
  }

  // ---------------------------------------------------------------------------
  // Client

  /** The five flags `validatePassword` shows beside the password field. */
  datatype Strength = Strength(length: bool, uppercase: bool, lowercase: bool, digit: bool, special: bool)

  const NoStrength := Strength(false, false, false, false, false)

  /** JavaScript's `password.length`: UTF-16 code units. */
  function JsLength(p: string): nat { |Json.Units(p)| }

  /** The flags of `validatePassword`. */
  function ClientStrength(p: string): (s: Strength)
    ensures s.length <==> JsLength(p) >= 8
    ensures s.uppercase <==> HasUpper(p)
    ensures s.lowercase <==> HasLower(p)
    ensures s.digit <==> HasDigit(p)
    ensures s.special <==> HasSpecial(p)
  {
    Strength(JsLength(p) >= 8, AnyUpper(p), AnyLower(p), AnyDigit(p), AnySpecial(p))
  }

  predicate AllMet(s: Strength) { s.length && s.uppercase && s.lowercase && s.digit && s.special }

  /** `validatePassword`'s verdict: every flag is set. */
  function ClientValid(p: string): (r: bool)
    ensures r <==> JsLength(p) >= 8 && HasUpper(p) && HasLower(p) && HasDigit(p) && HasSpecial(p)
  {
    AllMet(ClientStrength(p))
  }

  // ---------------------------------------------------------------------------
  // Agreement

  predicate IsBmp(p: string) { forall i :: 0 <= i < |p| ==> p[i] as int < 0x10000 }

  /** The number of characters outside the basic multilingual plane. */
  function AstralCount(p: string): (n: nat)
    ensures n <= |p|
    ensures IsBmp(p) ==> n == 0
  {
    if p == [] then 0 else (if p[0] as int >= 0x10000 then 1 else 0) + AstralCount(p[1..])
  }

  /** Each astral character takes two code units (a surrogate pair), every other one. */
  lemma {:induction false} JsLengthCounts(p: string)
    ensures JsLength(p) == |p| + AstralCount(p)
  {
    if p != [] {
      JsLengthCounts(p[1..]);
    }
  }

  /** Within the basic multilingual plane, and with the ASCII character classes of this model,
      the form accepts exactly what the server accepts. */
  lemma ClientAgreesWithServer(p: string)
    requires IsBmp(p)
    ensures ClientValid(p) <==> ServerValidate(p).0
  {
    JsLengthCounts(p);
  }

  /** Every password the server accepts the form accepts too. */
  lemma ServerStrongIsClientStrong(p: string)
    ensures ServerValidate(p).0 ==> ClientValid(p)
  {
    JsLengthCounts(p);
  }

  /** An astral character counts twice in the form: seven characters with one emoji pass the
      form and are refused by the server for their length. */
  lemma AstralPasswordDisagrees()
    ensures var p := "Ab1!xy\U{1F600}";
      ClientValid(p) && ServerValidate(p) == (false, "Password must be at least 8 characters long")
  {
    var p := "Ab1!xy\U{1F600}";
    assert IsAsciiUpper(p[0]) && IsAsciiLower(p[1]) && IsAsciiDigit(p[2]) && IsSpecial(p[3]);
    JsLengthCounts(p);
    assert AstralCount(p) == 1;
  }
}
