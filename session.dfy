/** The client session manager (`AuthProvider`): the signed-in user, the tab-scoped stored
    token and user, the `Authorization` header sent with every request (a Bearer value,
    section 2.1 of RFC 6750) and the single pending logout timer.

    Each operation is specified by a function from the old state to the new one; the class
    `AuthProvider` performs the same steps on its fields and is proved to follow those
    functions. Time is the explicit parameter `now` (milliseconds since the epoch); a timer
    is its deadline, and its firing is the explicit step `Tick`. */
module Session {
  import opened Wrappers
  import opened Text
  import Jwt
  import Json

  /** The user record the server returns at login and the client keeps in storage. */
  datatype User = User(id: int, name: string, email: string, role: string, department: string, status: string)

  /** A toast shown to the user. */
  datatype Notice = Success(text: string) | Failure(text: string)

  /** The body of an error response, as far as the client reads it. */
  datatype ErrorBody = ErrorBody(error: Option<string>, message: Option<string>, status: Option<string>)

  /** A rejected request: `response` is missing for a network failure. */
  datatype HttpError = HttpError(response: Option<(int, ErrorBody)>)

  /** What the login request comes back with. */
  datatype LoginOutcome = Granted(accessToken: string, account: User) | Refused(err: HttpError)

  /** What the registration request comes back with. */
  datatype RegisterOutcome =
    | Registered(message: Option<string>, status: Option<string>, department: Option<string>)
    | RegisterRefused(err: HttpError)

  /** Everything the provider keeps, and the notices shown so far. */
  datatype State = State(
    user: Option<User>,
    loading: bool,
    storedToken: Option<string>,
    storedUser: Option<User>,
    authHeader: Option<string>,
    timer: Option<real>,
    notices: seq<Notice>)

  const LoggedOutNotice := Success("Logged out successfully")
  const SessionExpiredNotice := Failure("Session expired. Please sign in again.")
  const SessionEndedNotice := Failure("Your session has ended. Please sign in again.")
  const LoginSuccessNotice := Success("Login successful!")

  function Bearer(token: string): string { "Bearer " + token }

  /** A signed-in user has their token and record stored and the header set; a timer is only
      ever pending for a signed-in user. */
  predicate Valid(s: State)
  {
    && (s.user.Some? ==>
          s.storedToken.Some? && s.storedUser == s.user && s.authHeader == Some(Bearer(s.storedToken.value)))
    && (s.timer.Some? ==> s.user.Some?)
  }

  /** The state a freshly mounted provider starts from, whatever the tab has stored. */
  function Initial(storedToken: Option<string>, storedUser: Option<User>): (r: State)
    ensures Valid(r) && r.loading && r.user.None? && r.timer.None?
  {
    State(None, true, storedToken, storedUser, None, None, [])
  }

  /** JavaScript truthiness of the parsed expiry: `null` and `0` are falsy. */
  predicate IsTruthy(e: Option<real>) { e.Some? && e.value != 0.0 }

  /** JavaScript truthiness of a stored string: missing and empty are falsy. */
  predicate IsPresent(s: Option<string>) { s.Some? && s.value != "" }

  // ---------------------------------------------------------------------------
  // The operations, as functions of the state

  function ClearLogoutTimer(s: State): (r: State)
    ensures r.timer.None?
    ensures r.(timer := s.timer) == s
    ensures Valid(s) ==> Valid(r)
  {
    s.(timer := None)
  }

  function Logout(s: State): (r: State)
    ensures r.user.None? && r.storedToken.None? && r.storedUser.None? && r.authHeader.None? && r.timer.None?
    ensures r.loading == s.loading && r.notices == s.notices + [LoggedOutNotice]
    ensures Valid(r)
  {
    s.(user := None, storedToken := None, storedUser := None, authHeader := None, timer := None,
       notices := s.notices + [LoggedOutNotice])
  }

  /** Cancel any pending timer, then log out at once when the deadline is not in the future
      (the delay `max(0, expMs - now)` is 0), or arm the one timer for it. */
  function ScheduleLogoutAt(s: State, expMs: real, now: int): (r: State)
    ensures expMs <= now as real ==> r == Logout(s)
    ensures expMs > now as real ==> r == s.(timer := Some(expMs))
    ensures r.timer.Some? <==> expMs > now as real
    ensures Valid(s) && s.user.Some? ==> Valid(r)
  {
    var cleared := ClearLogoutTimer(s);
    var delay := if expMs - now as real > 0.0 then expMs - now as real else 0.0;
    if delay == 0.0 then Logout(cleared) else cleared.(timer := Some(expMs))
  }

  /** The mount effect: only when both a token and a user are stored is the user restored,
      the header set and the expiry scheduled (or the session torn down when the expiry does
      not parse); loading ends in every case. */
  function Restore(s: State, now: int): (r: State)
    ensures !r.loading
    ensures !(IsPresent(s.storedToken) && s.storedUser.Some?) ==> r == s.(loading := false)
    ensures IsPresent(s.storedToken) && s.storedUser.Some? && !IsTruthy(Jwt.ParseJwtExp(s.storedToken.value)) ==>
      r == Logout(s).(loading := false)
    ensures (IsPresent(s.storedToken) && s.storedUser.Some? && IsTruthy(Jwt.ParseJwtExp(s.storedToken.value))
             && Jwt.ParseJwtExp(s.storedToken.value).value <= now as real) ==>
      r == Logout(s).(loading := false)
    ensures (IsPresent(s.storedToken) && s.storedUser.Some? && IsTruthy(Jwt.ParseJwtExp(s.storedToken.value))
             && Jwt.ParseJwtExp(s.storedToken.value).value > now as real) ==>
      && r.user == s.storedUser && r.storedUser == s.storedUser && r.storedToken == s.storedToken
      && r.authHeader == Some(Bearer(s.storedToken.value))
      && r.timer == Some(Jwt.ParseJwtExp(s.storedToken.value).value) && r.notices == s.notices
    ensures Valid(s) ==> Valid(r)
  {
    var restored :=
      if IsPresent(s.storedToken) && s.storedUser.Some? then
        var token := s.storedToken.value;
        var signedIn := s.(user := s.storedUser, authHeader := Some(Bearer(token)));
        var expMs := Jwt.ParseJwtExp(token);
        if IsTruthy(expMs) then ScheduleLogoutAt(signedIn, expMs.value, now) else Logout(signedIn)
      else s;
    restored.(loading := false)
  }

  /** The pending timer fires once its deadline is reached: logout, then one notice. */
  function Tick(s: State, now: int): (r: State)
    ensures s.timer.Some? && now as real >= s.timer.value ==>
      r == Logout(s).(notices := s.notices + [LoggedOutNotice, SessionExpiredNotice])
    ensures !(s.timer.Some? && now as real >= s.timer.value) ==> r == s
    ensures Valid(s) ==> Valid(r)
  {
    if s.timer.Some? && now as real >= s.timer.value then
      var out := Logout(s);
      out.(notices := out.notices + [SessionExpiredNotice])
    else s
  }

  /** The statuses and error codes the response interceptor treats as the end of the session. */
  predicate IsAuthError(err: HttpError)
  {
    match err.response
    case None => false
    case Some((status, body)) =>
      status == 401 || body.error == Some("token_expired") || body.error == Some("invalid_token")
      || body.error == Some("authorization_required")
  }

  /** The response interceptor on a rejected request; the error itself is always passed on. */
  function OnErrorResponse(s: State, err: HttpError): (r: State)
    ensures IsAuthError(err) ==> r == Logout(s).(notices := s.notices + [LoggedOutNotice, SessionEndedNotice])
    ensures !IsAuthError(err) ==> r == s
    ensures Valid(s) ==> Valid(r)
  {
    if IsAuthError(err) then
      var out := Logout(s);
      out.(notices := out.notices + [SessionEndedNotice])
    else s
  }

  function BodyOf(err: HttpError): ErrorBody
  {
    match err.response
    case None => ErrorBody(None, None, None)
    case Some((_, body)) => body
  }

  /** A 403 for an account that is pending approval or was rejected. */
  predicate IsAccountRefusal(err: HttpError)
  {
    err.response.Some? && err.response.value.0 == 403
    && (BodyOf(err).status == Some("pending") || BodyOf(err).status == Some("rejected"))
  }

  /** The toast of a failed login: for a pending or rejected account, the error and the
      message; otherwise the error, or "Login failed" when there is none. */
  function LoginFailureText(err: HttpError): (t: string)
    ensures IsAccountRefusal(err) ==>
      t == Interpolate(BodyOf(err).error) + ": " + Interpolate(BodyOf(err).message)
    ensures !IsAccountRefusal(err) ==> t == OrElse(BodyOf(err).error, "Login failed")
  {
    var body := BodyOf(err);
    if err.response.Some? && err.response.value.0 == 403 then
      if body.status == Some("pending") then Interpolate(body.error) + ": " + Interpolate(body.message)
      else if body.status == Some("rejected") then Interpolate(body.error) + ": " + Interpolate(body.message)
      else OrElse(body.error, "Login failed")
    else OrElse(body.error, "Login failed")
  }

  /** The state right after a granted login has stored the token and the user, set the header
      and the user, and before the expiry is looked at. */
  function SignedIn(s: State, token: string, account: User): (r: State)
    ensures r.user == Some(account) && r.storedUser == Some(account) && r.storedToken == Some(token)
    ensures r.authHeader == Some(Bearer(token)) && r.timer == s.timer && r.notices == s.notices
    ensures Valid(s) ==> Valid(r)
  {
    s.(storedToken := Some(token), storedUser := Some(account), authHeader := Some(Bearer(token)),
       user := Some(account))
  }

  /** `login`. A granted login signs in and schedules the expiry only when it parses; a
      refused login has first passed through the interceptor, then shows its own notice. */
  function Login(s: State, outcome: LoginOutcome, now: int): (r: State)
    ensures outcome.Granted? && !IsTruthy(Jwt.ParseJwtExp(outcome.accessToken)) ==>
      r == SignedIn(s, outcome.accessToken, outcome.account).(notices := s.notices + [LoginSuccessNotice])
    ensures outcome.Granted? && IsTruthy(Jwt.ParseJwtExp(outcome.accessToken)) ==>
      var signedIn := SignedIn(s, outcome.accessToken, outcome.account);
      var after := ScheduleLogoutAt(signedIn, Jwt.ParseJwtExp(outcome.accessToken).value, now);
      r == after.(notices := after.notices + [LoginSuccessNotice])
    ensures outcome.Refused? ==>
      var intercepted := OnErrorResponse(s, outcome.err);
      r == intercepted.(notices := intercepted.notices + [Failure(LoginFailureText(outcome.err))])
    ensures Valid(s) ==> Valid(r)
  {
    match outcome
    case Granted(token, account) =>
      var signedIn := SignedIn(s, token, account);
      var expMs := Jwt.ParseJwtExp(token);
      var scheduled := if IsTruthy(expMs) then ScheduleLogoutAt(signedIn, expMs.value, now) else signedIn;
      scheduled.(notices := scheduled.notices + [LoginSuccessNotice])
    case Refused(err) =>
      var intercepted := OnErrorResponse(s, err);
      intercepted.(notices := intercepted.notices + [Failure(LoginFailureText(err))])
  }

  /** The toast of a registration. */
  function RegisterText(outcome: RegisterOutcome): Notice
  {
    match outcome
    case Registered(message, status, department) =>
      if status == Some("pending") then
        Success(Interpolate(message) + " Your request has been sent to " + Interpolate(department)
          + " HR for approval. You will be notified once approved.")
      else Success(OrElse(message, "Registration successful! Please login."))
    case RegisterRefused(err) => Failure(OrElse(BodyOf(err).error, "Registration failed"))
  }

  /** `register`: only a notice, except that a refusal has passed through the interceptor.
      The register endpoint needs no token and never answers 401 or with a token error code,
      so in practice the interceptor passes every refusal on unchanged; for such a refusal,
      were one sent, the state would be the interceptor's teardown plus the notice. */
  function Register(s: State, outcome: RegisterOutcome): (r: State)
    ensures outcome.Registered? ==> r == s.(notices := s.notices + [RegisterText(outcome)])
    ensures outcome.RegisterRefused? && !IsAuthError(outcome.err) ==>
      r == s.(notices := s.notices + [RegisterText(outcome)])
    ensures Valid(s) ==> Valid(r)
  {
    var intercepted := if outcome.RegisterRefused? then OnErrorResponse(s, outcome.err) else s;
    intercepted.(notices := intercepted.notices + [RegisterText(outcome)])
  }

  // ---------------------------------------------------------------------------
  // Properties relating several steps

  /** A second logout leaves the identical state; only its notice repeats. */
  lemma LogoutIdempotent(s: State)
    ensures Logout(Logout(s)) == Logout(s).(notices := Logout(s).notices + [LoggedOutNotice])
  {
  }

  /** Scheduling always cancels what was pending: the result holds at most the new deadline,
      whatever timer was armed before. */
  lemma {:induction false} ScheduleReplacesTimer(s: State, t: State, expMs: real, now: int)
    requires s.(timer := None) == t.(timer := None)
    ensures ScheduleLogoutAt(s, expMs, now) == ScheduleLogoutAt(t, expMs, now)
  {
    assert ClearLogoutTimer(s) == ClearLogoutTimer(t);
  }

  /** A session whose token was issued with an `exp` later than now is armed to end at
      exactly that instant, and the notice says the login succeeded. */
  lemma LoginArmsTimerAtExpiry(s: State, header: string, claims: seq<(string, Json.Claim)>,
                               signature: string, account: User, now: int, expMs: real)
    requires '.' !in header && Json.PlainClaims(claims)
    requires Jwt.ExpectedExp(claims) == Some(expMs) && expMs > now as real && now >= 0
    ensures var r := Login(s, Granted(Jwt.MakeToken(header, claims, signature), account), now);
      && r.user == Some(account) && r.timer == Some(expMs) && Valid(r)
      && r.notices == s.notices + [LoginSuccessNotice]
  {
    var token := Jwt.MakeToken(header, claims, signature);
    Jwt.ParseJwtExpOfToken(header, claims, signature);
    LoginBeforeExpiry(s, token, account, now, expMs);
  }

  /** A granted login whose expiry parses to a future instant arms the timer for it. */
  lemma LoginBeforeExpiry(s: State, token: string, account: User, now: int, expMs: real)
    requires Jwt.ParseJwtExp(token) == Some(expMs) && expMs > now as real && now >= 0
    ensures var r := Login(s, Granted(token, account), now);
      && r.user == Some(account) && r.storedToken == Some(token) && r.timer == Some(expMs) && Valid(r)
      && r.notices == s.notices + [LoginSuccessNotice]
  {
    assert IsTruthy(Jwt.ParseJwtExp(token));
    var signedIn := SignedIn(s, token, account);
    assert ScheduleLogoutAt(signedIn, expMs, now) == signedIn.(timer := Some(expMs));
  }

  /** A token whose `exp` is already past ends the session immediately at login, although the
      login still reports success. */
  lemma LoginWithExpiredToken(s: State, header: string, claims: seq<(string, Json.Claim)>,
                              signature: string, account: User, now: int, expMs: real)
    requires '.' !in header && Json.PlainClaims(claims)
    requires Jwt.ExpectedExp(claims) == Some(expMs) && expMs != 0.0 && expMs <= now as real
    ensures var r := Login(s, Granted(Jwt.MakeToken(header, claims, signature), account), now);
      && r.user.None? && r.storedToken.None? && r.timer.None?
      && r.notices == s.notices + [LoggedOutNotice, LoginSuccessNotice]
  {
    Jwt.ParseJwtExpOfToken(header, claims, signature);
  }

  /** A token without a numeric `exp` arms nothing at login, so a timer armed for the
      previous session stays pending and its deadline will end the new session. */
  lemma LoginWithoutExpiryKeepsTimer(s: State, header: string, claims: seq<(string, Json.Claim)>,
                                     signature: string, account: User, now: int)
    requires '.' !in header && Json.PlainClaims(claims)
    requires Jwt.ExpectedExp(claims).None?
    ensures var r := Login(s, Granted(Jwt.MakeToken(header, claims, signature), account), now);
      r.user == Some(account) && r.timer == s.timer
  {
    Jwt.ParseJwtExpOfToken(header, claims, signature);
  }

  /** Restoring the same token instead tears the session down. */
  lemma RestoreWithoutExpiryLogsOut(s: State, header: string, claims: seq<(string, Json.Claim)>,
                                    signature: string, now: int)
    requires '.' !in header && Json.PlainClaims(claims)
    requires Jwt.ExpectedExp(claims).None?
    requires s.storedToken == Some(Jwt.MakeToken(header, claims, signature)) && s.storedUser.Some?
    ensures var r := Restore(s, now);
      r.user.None? && r.storedToken.None? && !r.loading
  {
    Jwt.ParseJwtExpOfToken(header, claims, signature);
    assert IsPresent(s.storedToken) by {
      assert |s.storedToken.value| >= |header| + 1;
    }
  }

  /** Restoring a stored token issued with a nonzero `exp` adopts the stored user and arms the
      timer at exactly that instant when it lies ahead, and ends the session when it does not. */
  lemma RestoreArmsTimerAtExpiry(s: State, header: string, claims: seq<(string, Json.Claim)>,
                                 signature: string, now: int, expMs: real)
    requires '.' !in header && Json.PlainClaims(claims)
    requires Jwt.ExpectedExp(claims) == Some(expMs) && expMs != 0.0
    requires s.storedToken == Some(Jwt.MakeToken(header, claims, signature)) && s.storedUser.Some?
    ensures var r := Restore(s, now);
      && !r.loading && Valid(r)
      && (expMs > now as real ==> r.user == s.storedUser && r.timer == Some(expMs)
                                  && r.authHeader == Some(Bearer(s.storedToken.value)))
      && (expMs <= now as real ==> r.user.None? && r.storedToken.None? && r.timer.None?)
  {
    Jwt.ParseJwtExpOfToken(header, claims, signature);
    assert IsPresent(s.storedToken) by {
      assert |s.storedToken.value| >= |header| + 1;
    }
  }

  /** Wrong credentials come back as a 401, which the interceptor takes for the end of the
      session: a signed-in session is logged out by a failed login attempt. */
  lemma BadCredentialsEndSession(s: State, body: ErrorBody, now: int)
    ensures var r := Login(s, Refused(HttpError(Some((401, body)))), now);
      && r.user.None? && r.storedToken.None? && r.timer.None?
      && r.notices == s.notices + [LoggedOutNotice, SessionEndedNotice, Failure(OrElse(body.error, "Login failed"))]
  {
  }

  /** A pending account's 403 leaves the session alone and shows the server's error and
      message. */
  lemma PendingAccountKeepsSession(s: State, error: string, message: string, now: int)
    requires error != "token_expired" && error != "invalid_token" && error != "authorization_required"
    ensures var r := Login(s, Refused(HttpError(Some((403, ErrorBody(Some(error), Some(message), Some("pending")))))), now);
      r == s.(notices := s.notices + [Failure(error + ": " + message)])
  {
  }

  // ---------------------------------------------------------------------------
  // The provider as an object

  class AuthProvider {
    var user: Option<User>
    var loading: bool
    var storedToken: Option<string>
    var storedUser: Option<User>
    var authHeader: Option<string>
    var timer: Option<real>
    var notices: seq<Notice>

    function Snapshot(): State
      reads this
    {
      State(user, loading, storedToken, storedUser, authHeader, timer, notices)
    }

    predicate IsValid()
      reads this
    {
      Valid(Snapshot())
    }

    /** Mounting in a tab whose storage holds `token` and `userRecord`. */
    constructor (token: Option<string>, userRecord: Option<User>)
      ensures Snapshot() == Initial(token, userRecord) && IsValid()
    {
      user := None;
      loading := true;
      storedToken := token;
      storedUser := userRecord;
      authHeader := None;
      timer := None;
      notices := [];
    }

    method ClearTimer()
      modifies this
      ensures Snapshot() == ClearLogoutTimer(old(Snapshot()))
    {
      if timer.Some? {
        timer := None;
      }
    }

    method SignOut()
      modifies this
      ensures Snapshot() == Logout(old(Snapshot()))
    {
      ClearTimer();
      storedToken := None;
      storedUser := None;
      authHeader := None;
      user := None;
      notices := notices + [LoggedOutNotice];
    }

    method ScheduleAt(expMs: real, now: int)
      modifies this
      ensures Snapshot() == ScheduleLogoutAt(old(Snapshot()), expMs, now)
    {
      ClearTimer();
      var delay := if expMs - now as real > 0.0 then expMs - now as real else 0.0;
      if delay == 0.0 {
        SignOut();
        return;
      }
      timer := Some(expMs);
    }

    method RestoreSession(now: int)
      modifies this
      ensures Snapshot() == Restore(old(Snapshot()), now)
      ensures old(IsValid()) ==> IsValid()
    {
      if IsPresent(storedToken) && storedUser.Some? {
        var token := storedToken.value;
        user := storedUser;
        authHeader := Some(Bearer(token));
        var expMs := Jwt.ParseJwtExp(token);
        if IsTruthy(expMs) {
          ScheduleAt(expMs.value, now);
        } else {
          SignOut();
        }
      }
      loading := false;
    }

    /** The clock reaching `now`. */
    method AdvanceClock(now: int)
      modifies this
      ensures Snapshot() == Tick(old(Snapshot()), now)
      ensures old(IsValid()) ==> IsValid()
    {
      if timer.Some? && now as real >= timer.value {
        SignOut();
        notices := notices + [SessionExpiredNotice];
      }
    }

    method Intercept(err: HttpError) returns (rejected: HttpError)
      modifies this
      ensures rejected == err
      ensures Snapshot() == OnErrorResponse(old(Snapshot()), err)
      ensures old(IsValid()) ==> IsValid()
    {
      if IsAuthError(err) {
        SignOut();
        notices := notices + [SessionEndedNotice];
      }
      rejected := err;
    }

    method SignIn(outcome: LoginOutcome, now: int) returns (ok: bool)
      modifies this
      ensures ok <==> outcome.Granted?
      ensures Snapshot() == Login(old(Snapshot()), outcome, now)
      ensures old(IsValid()) ==> IsValid()
    {
      match outcome
      case Granted(token, account) =>
        storedToken := Some(token);
        storedUser := Some(account);
        authHeader := Some(Bearer(token));
        user := Some(account);
        var expMs := Jwt.ParseJwtExp(token);
        if IsTruthy(expMs) {
          ScheduleAt(expMs.value, now);
        }
        notices := notices + [LoginSuccessNotice];
        ok := true;
      case Refused(err) =>
        var _ := Intercept(err);
        notices := notices + [Failure(LoginFailureText(err))];
        ok := false;
    }

    method SignUp(outcome: RegisterOutcome) returns (ok: bool)
      modifies this
      ensures ok <==> outcome.Registered?
      ensures Snapshot() == Register(old(Snapshot()), outcome)
      ensures old(IsValid()) ==> IsValid()
    {
      if outcome.RegisterRefused? {
        var _ := Intercept(outcome.err);
      }
      notices := notices + [RegisterText(outcome)];
      ok := outcome.Registered?;
    }

    /** Unmounting the provider ejects the interceptor and cancels the pending timer. */
    method Teardown()
      modifies this
      ensures Snapshot() == ClearLogoutTimer(old(Snapshot()))
    {
      ClearTimer();
    }
  }
}
