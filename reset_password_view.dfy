/** The page a reset link opens (`ResetPassword`): the token from the link is checked with
    the server first; then the new password is checked on the page, in order, before it is
    sent. The server's answers are inputs: `Unreachable` stands for a request that fails
    or whose body is not JSON, both of which end in the `catch` clause. */
module ResetPasswordView {
  import opened Wrappers
  import opened Text
  import PasswordPolicy

  /** What a request to the server comes back with, as far as the page reads it. */
  datatype Answer =
    | Unreachable
    | Answer(ok: bool, valid: bool, error: Option<string>, message: Option<string>)

  /** `messageType`: none yet, `success` or `error`. */
  datatype Tone = Unset | Good | Bad

  const NoTokenText := "No reset token provided"
  const TokenValidText := "Token is valid. Please enter your new password."
  const EmptyFieldsText := "Please fill in all fields"
  const MismatchText := "Passwords do not match"
  const WeakText := "Please ensure your password meets all requirements"

  /** How long after a successful reset the page goes to the sign-in page. */
  const RedirectDelay := 3000

  /** The outcome of `validateToken`: whether the token is good, and the message shown. */
  function TokenVerdict(answer: Answer): (r: (bool, string))
    ensures r.0 <==> answer.Answer? && answer.ok && answer.valid
    ensures r.0 ==> r.1 == TokenValidText
    ensures answer.Answer? && !(answer.ok && answer.valid) ==>
      r.1 == OrElse(answer.error, "Invalid or expired reset token")
    ensures answer.Unreachable? ==> r.1 == "Failed to validate token. Please try again."
  {
    match answer
    case Unreachable => (false, "Failed to validate token. Please try again.")
    case Answer(ok, valid, error, _) =>
      if ok && valid then (true, TokenValidText) else (false, OrElse(error, "Invalid or expired reset token"))
  }

  /** The checks `handleSubmit` makes before sending anything, in order; the message of the
      first that fails. */
  function SubmitRefusal(token: string, newPassword: string, confirmPassword: string): (r: Option<string>)
    ensures r.None? <==>
      token != "" && newPassword != "" && confirmPassword != "" && newPassword == confirmPassword
      && PasswordPolicy.ClientValid(newPassword)
    ensures (token == "" || newPassword == "" || confirmPassword == "") ==> r == Some(EmptyFieldsText)
    ensures (token != "" && newPassword != "" && confirmPassword != "" && newPassword != confirmPassword) ==>
      r == Some(MismatchText)
    ensures (token != "" && newPassword != "" && newPassword == confirmPassword
             && !PasswordPolicy.ClientValid(newPassword)) ==>
      r == Some(WeakText)
  {
    if token == "" || newPassword == "" || confirmPassword == "" then Some(EmptyFieldsText)
    else if newPassword != confirmPassword then Some(MismatchText)
    else if !PasswordPolicy.ClientValid(newPassword) then Some(WeakText)
    else None
  }

  /** The message and tone the reply to the reset request leaves. */
  function ResetOutcome(answer: Answer): (r: (string, Tone))
    ensures answer.Answer? && answer.ok ==> r == (answer.message.GetOr(""), Good)
    ensures answer.Answer? && !answer.ok ==> r == (OrElse(answer.error, "Failed to reset password"), Bad)
    ensures answer.Unreachable? ==> r == ("Network error. Please try again.", Bad)
  {
    match answer
    case Unreachable => ("Network error. Please try again.", Bad)
    case Answer(ok, _, error, message) =>
      if ok then (message.GetOr(""), Good) else (OrElse(error, "Failed to reset password"), Bad)
  }

  class ResetPasswordPage {
    var token: string
    var newPassword: string
    var confirmPassword: string
    var showPassword: bool
    var showConfirmPassword: bool
    var isLoading: bool
    var message: string
    var messageType: Tone
    var isValidating: bool
    var isTokenValid: bool
    var strength: PasswordPolicy.Strength
    /** When the pending navigation to `/login` happens, once a reset succeeded. */
    var redirectAt: Option<int>

    constructor()
      ensures token == "" && newPassword == "" && confirmPassword == ""
      ensures !showPassword && !showConfirmPassword && !isLoading
      ensures message == "" && messageType == Unset && isValidating && !isTokenValid
      ensures strength == PasswordPolicy.NoStrength && redirectAt.None?
    {
      token, newPassword, confirmPassword := "", "", "";
      showPassword, showConfirmPassword, isLoading := false, false, false;
      message, messageType := "", Unset;
      isValidating, isTokenValid := true, false;
      strength := PasswordPolicy.NoStrength;
      redirectAt := None;
    }

    /** The effect on opening: a link without a token stops at once with an error; otherwise
        the token is kept and checked with the server (`answer` is its reply). */
    method Open(urlToken: Option<string>, answer: Answer) returns (checked: bool)
      modifies this
      ensures checked <==> urlToken.Some? && urlToken.value != ""
      ensures !isValidating
      ensures !checked ==>
        && message == NoTokenText && messageType == Bad && isTokenValid == old(isTokenValid) && token == old(token)
      ensures checked ==>
        && token == urlToken.value
        && isTokenValid == TokenVerdict(answer).0 && message == TokenVerdict(answer).1
        && messageType == (if isTokenValid then Good else Bad)
      ensures newPassword == old(newPassword) && confirmPassword == old(confirmPassword)
      ensures isLoading == old(isLoading) && strength == old(strength) && redirectAt == old(redirectAt)
      ensures showPassword == old(showPassword) && showConfirmPassword == old(showConfirmPassword)
    {
      if urlToken.Some? && urlToken.value != "" {
        token := urlToken.value;
        ValidateToken(answer);
        checked := true;
      } else {
        isValidating := false;
        message := NoTokenText;
        messageType := Bad;
        checked := false;
      }
    }

    /** `validateToken`, with the server's reply. */
    method ValidateToken(answer: Answer)
      modifies this
      ensures isTokenValid == TokenVerdict(answer).0 && message == TokenVerdict(answer).1
      ensures messageType == (if isTokenValid then Good else Bad) && !isValidating
      ensures token == old(token) && newPassword == old(newPassword) && confirmPassword == old(confirmPassword)
      ensures isLoading == old(isLoading) && strength == old(strength) && redirectAt == old(redirectAt)
      ensures showPassword == old(showPassword) && showConfirmPassword == old(showConfirmPassword)
    {
      var (ok, text) := TokenVerdict(answer);
      isTokenValid := ok;
      message := text;
      messageType := if ok then Good else Bad;
      isValidating := false;
    }

    /** `handlePasswordChange`: the field and its strength flags. */
    method HandlePasswordChange(value: string)
      modifies this
      ensures newPassword == value && strength == PasswordPolicy.ClientStrength(value)
      ensures token == old(token) && confirmPassword == old(confirmPassword) && message == old(message)
      ensures messageType == old(messageType) && isLoading == old(isLoading) && isTokenValid == old(isTokenValid)
      ensures isValidating == old(isValidating) && redirectAt == old(redirectAt)
      ensures showPassword == old(showPassword) && showConfirmPassword == old(showConfirmPassword)
    {
      newPassword := value;
      strength := PasswordPolicy.ClientStrength(value);
    }

    method HandleConfirmChange(value: string)
      modifies this
      ensures confirmPassword == value
      ensures token == old(token) && newPassword == old(newPassword) && message == old(message)
      ensures messageType == old(messageType) && strength == old(strength) && isLoading == old(isLoading)
      ensures isTokenValid == old(isTokenValid) && isValidating == old(isValidating) && redirectAt == old(redirectAt)
      ensures showPassword == old(showPassword) && showConfirmPassword == old(showConfirmPassword)
    {
      confirmPassword := value;
    }

    /** `handleSubmit` at time `now`, `answer` being the server's reply if the request is
        sent. The first failing check is reported and nothing is sent; otherwise the token and
        password are sent, a success schedules the move to `/login`, and loading is over
        whatever the reply. */
    method Submit(answer: Answer, now: int) returns (sent: Option<(string, string)>)
      modifies this
      ensures sent.None? <==> SubmitRefusal(old(token), old(newPassword), old(confirmPassword)).Some?
      ensures sent.None? ==>
        && message == SubmitRefusal(old(token), old(newPassword), old(confirmPassword)).value
        && messageType == Bad && redirectAt == old(redirectAt) && isLoading == old(isLoading)
      ensures sent.Some? ==>
        && !isLoading
        && sent.value == (old(token), old(newPassword))
        && (message, messageType) == ResetOutcome(answer)
        && redirectAt == (if answer.Answer? && answer.ok then Some(now + RedirectDelay) else old(redirectAt))
      ensures (old(token) != "" && old(newPassword) != "" && old(confirmPassword) != ""
               && old(newPassword) == old(confirmPassword)) ==>
        strength == PasswordPolicy.ClientStrength(old(newPassword))
      ensures token == old(token) && newPassword == old(newPassword) && confirmPassword == old(confirmPassword)
      ensures isTokenValid == old(isTokenValid) && isValidating == old(isValidating)
      ensures showPassword == old(showPassword) && showConfirmPassword == old(showConfirmPassword)
    {
      if token == "" || newPassword == "" || confirmPassword == "" {
        message, messageType := EmptyFieldsText, Bad;
        return None;
      }
      if newPassword != confirmPassword {
        message, messageType := MismatchText, Bad;
        return None;
      }
      strength := PasswordPolicy.ClientStrength(newPassword);
      if !PasswordPolicy.AllMet(strength) {
        message, messageType := WeakText, Bad;
        return None;
      }
      isLoading := true;
      message := "";
      sent := Some((token, newPassword));
      var (text, tone) := ResetOutcome(answer);
      message, messageType := text, tone;
      if answer.Answer? && answer.ok {
        redirectAt := Some(now + RedirectDelay);
      }
      isLoading := false;
    }
  }
}
