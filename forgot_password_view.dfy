/** The page that asks for a reset link (`ForgotPassword`): its message, message type, link
    and email after each submit and each keystroke. `Unreachable` stands for a request that
    fails or whose body is not JSON. */
module ForgotPasswordView {
  import opened Wrappers
  import opened Text
  import Store
  import Accounts

  /** The reply to the request, as far as the page reads it. */
  datatype Answer =
    | Unreachable
    | Answer(ok: bool, message: Option<string>, error: Option<string>, resetLink: Option<string>,
             emailExists: Option<bool>)

  /** `messageType`: none, `success` or `error`. */
  datatype Tone = Unset | Good | Bad

  const EnterEmailText := "Please enter your email address"
  const UnregisteredText := "This email address is not registered in our system. Please check your email address or contact your administrator to register."
  const NetworkText := "Network error. Please try again."

  /** Message, type and link after the reply. A refusal shows the server's `message`, else
      its `error`; an email the server does not know gets fixed guidance instead. */
  function Outcome(answer: Answer): (r: (string, Tone, string))
    ensures answer.Answer? && answer.ok ==> r == (answer.message.GetOr(""), Good, OrElse(answer.resetLink, ""))
    ensures answer.Answer? && !answer.ok && answer.emailExists == Some(false) ==> r == (UnregisteredText, Bad, "")
    ensures answer.Answer? && !answer.ok && answer.emailExists != Some(false) ==>
      r == (OrElse(answer.message, OrElse(answer.error, "Failed to generate reset link")), Bad, "")
    ensures answer.Unreachable? ==> r.0 == NetworkText && r.1 == Bad
  {
    match answer
    case Unreachable => (NetworkText, Bad, "")
    case Answer(ok, message, error, resetLink, emailExists) =>
      if ok then (message.GetOr(""), Good, OrElse(resetLink, ""))
      else if emailExists == Some(false) then (UnregisteredText, Bad, "")
      else (OrElse(message, OrElse(error, "Failed to generate reset link")), Bad, "")
  }

  /** A string field of a reply body. */
  function StrField(body: map<string, Store.Value>, key: string): (r: Option<string>)
    ensures key in body && body[key].Str? ==> r == Some(body[key].s)
    ensures !(key in body && body[key].Str?) ==> r.None?
  {
    if key in body && body[key].Str? then Some(body[key].s) else None
  }

  /** How the page reads a reply of the server: `response.ok` is a 2xx status. */
  function AnswerOf(reply: Store.Reply): (a: Answer)
    ensures a.Answer? && (a.ok <==> 200 <= reply.code < 300)
    ensures a.message == StrField(reply.body, "message") && a.error == StrField(reply.body, "error")
    ensures a.resetLink == StrField(reply.body, "reset_link")
    ensures a.emailExists == if "email_exists" in reply.body && reply.body["email_exists"].Flag? then Some(reply.body["email_exists"].b) else None
  {
    Answer(200 <= reply.code < 300, StrField(reply.body, "message"), StrField(reply.body, "error"),
      StrField(reply.body, "reset_link"),
      if "email_exists" in reply.body && reply.body["email_exists"].Flag? then Some(reply.body["email_exists"].b) else None)
  }

  /** The server's refusal of an unknown email makes the page show its fixed guidance rather
      than the server's own text. */
  lemma UnknownEmailGetsGuidance(db: Store.Db, email: string, token: string, now: int)
    requires email != "" && Store.FindEmail(db.users, email).None?
    ensures Outcome(AnswerOf(Accounts.ForgotPassword(db, Some(map["email" := email]), token, now).0)) == (UnregisteredText, Bad, "")
  {
    var data := map["email" := email];
    assert Accounts.NamedAccount(db, data).None?;
  }

  /** A link issued by the server is shown on the page, and it carries the issued token. */
  lemma IssuedLinkIsShown(db: Store.Db, data: Store.Body, token: string, now: int)
    requires Accounts.ForgotPassword(db, Some(data), token, now).0.code == 200
    ensures Outcome(AnswerOf(Accounts.ForgotPassword(db, Some(data), token, now).0)).2 == Accounts.ResetLinkPrefix + token
    ensures Outcome(AnswerOf(Accounts.ForgotPassword(db, Some(data), token, now).0)).1 == Good
  {
  }

  class ForgotPasswordPage {
    var email: string
    var isLoading: bool
    var message: string
    var messageType: Tone
    var resetLink: string

    constructor()
      ensures email == "" && !isLoading && message == "" && messageType == Unset && resetLink == ""
    {
      email, isLoading, message, messageType, resetLink := "", false, "", Unset, "";
    }

    /** `handleSubmit` with the server's reply. An empty email is refused on the page; a
        success clears the email; loading is over whatever the reply. */
    method Submit(answer: Answer) returns (sent: Option<string>)
      modifies this
      ensures old(email) == "" ==>
        && sent.None? && message == EnterEmailText && messageType == Bad
        && email == old(email) && resetLink == old(resetLink) && isLoading == old(isLoading)
      ensures old(email) != "" ==>
        && sent == Some(old(email)) && !isLoading
        && message == Outcome(answer).0 && messageType == Outcome(answer).1
        && (answer.Answer? ==> resetLink == Outcome(answer).2)
        && (answer.Unreachable? ==> resetLink == old(resetLink))
        && email == (if answer.Answer? && answer.ok then "" else old(email))
    {
      if email == "" {
        message, messageType := EnterEmailText, Bad;
        return None;
      }
      sent := Some(email);
      isLoading := true;
      message := "";
      var (text, tone, link) := Outcome(answer);
      match answer {
        case Unreachable =>
          message, messageType := text, tone;
        case Answer(ok, _, _, _, _) =>
          message, messageType, resetLink := text, tone, link;
          if ok {
            email := "";
          }
      }
      isLoading := false;
    }

    /** Typing in the email field: an error message goes away, a success message stays. */
    method HandleEmailChange(value: string)
      modifies this
      ensures email == value && isLoading == old(isLoading) && resetLink == old(resetLink)
      ensures old(message) != "" && old(messageType) == Bad ==> message == "" && messageType == Unset
      ensures !(old(message) != "" && old(messageType) == Bad) ==> message == old(message) && messageType == old(messageType)
    {
      email := value;
      if message != "" && messageType == Bad {
        message, messageType := "", Unset;
      }
    }
  }
}
