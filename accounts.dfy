/** The account endpoints of the server: registration, login, and the password-reset token
    life cycle (issue, validate, use once). Each is a function from the tables and the
    request to the reply and the new tables; the clock reading `now` and the freshly
    generated token are inputs. */
module Accounts {
  import opened Wrappers
  import opened Store
  import PasswordPolicy

  /** A reset token lives one hour (in microseconds). */
  const ResetLifetime := 3600 * 1000000

  const MissingRegistrationFields := "Missing required fields: name, email, password, department"
  const RegisteredText := "User registration submitted successfully. Your account is pending HR approval."
  const PendingMessage := "Your account is pending HR approval. Please contact your department HR."
  const RejectedMessage := "Your account access has been rejected. Please contact your department HR for more information."
  const NotRegisteredMessage := "This email address is not registered in our system. Please enter a valid registered email address."
  const ResetIssuedText := "Password reset link generated successfully!"
  const ResetDoneText := "Password reset successfully. You can now login with your new password."
  const ResetLinkPrefix := "http://localhost:3000/reset-password?token="

  // ---------------------------------------------------------------------------
  // register

  predicate HasRegistrationFields(data: Option<Body>)
  {
    data.Some? && "name" in data.value && "email" in data.value && "password" in data.value
    && "department" in data.value
  }

  /** `register` creates an account: the fields are present, the email is new and the
      password is strong. */
  predicate Registers(db: Db, data: Option<Body>)
  {
    HasRegistrationFields(data) && FindEmail(db.users, data.value["email"]).None?
    && PasswordPolicy.ServerValidate(data.value["password"]).0
  }

  /** The account `register` adds: pending, with the role the request asks for. */
  function NewAccount(db: Db, d: Body): Account
    requires HasRegistrationFields(Some(d))
  {
    Account(NextKey(db.users, UserId), d["name"], d["email"], d["password"], Get(d, "role", "user"),
      d["department"], "pending", None, None)
  }

  /** The access request `register` files for the new account. */
  function NewRequest(db: Db, d: Body): AccessRow
    requires HasRegistrationFields(Some(d))
  {
    AccessRow(NextKey(db.requests, RequestId), NextKey(db.users, UserId), d["department"],
      Get(d, "role", "user"), Get(d, "request_reason", "New user registration"), "pending",
      None, None, None, None)
  }

  /** `register`. */
  function Register(db: Db, data: Option<Body>): (r: (Reply, Db))
    ensures r.0.code == 201 <==> Registers(db, data)
    ensures !HasRegistrationFields(data) ==> r.0 == Error(400, MissingRegistrationFields)
    ensures HasRegistrationFields(data) && FindEmail(db.users, data.value["email"]).Some? ==>
      r.0 == Error(400, "Email already exists")
    ensures (HasRegistrationFields(data) && FindEmail(db.users, data.value["email"]).None?
             && !PasswordPolicy.ServerValidate(data.value["password"]).0) ==>
      r.0 == Error(400, PasswordPolicy.ServerValidate(data.value["password"]).1)
    ensures !Registers(db, data) ==> r.1 == db
    ensures Registers(db, data) ==>
      r.1 == db.(users := db.users + [NewAccount(db, data.value)],
                 requests := db.requests + [NewRequest(db, data.value)])
    ensures Registers(db, data) ==> "status" in r.0.body && r.0.body["status"] == Str("pending")
  {
    if !HasRegistrationFields(data) then (Error(400, MissingRegistrationFields), db)
    else
      var d := data.value;
      if FindEmail(db.users, d["email"]).Some? then (Error(400, "Email already exists"), db)
      else
        var (ok, message) := PasswordPolicy.ServerValidate(d["password"]);
        if !ok then (Error(400, message), db)
        else
          var reply := Reply(201, map["message" := Str(RegisteredText), "status" := Str("pending"),
            "department" := Str(d["department"])]);
          (reply, db.(users := db.users + [NewAccount(db, d)], requests := db.requests + [NewRequest(db, d)]))
  }

  lemma HasUserAfterAppend(users: seq<Account>, u: Account)
    ensures forall id :: HasUser(users, id) ==> HasUser(users + [u], id)
    ensures HasUser(users + [u], u.id)
  {
    forall id | HasUser(users, id) ensures HasUser(users + [u], id) {
      var v :| v in users && v.id == id;
      assert v in users + [u];
    }
    assert u in users + [u];
  }

  /** Registration keeps the tables valid. */
  lemma RegisterKeepsValid(db: Db, data: Option<Body>)
    requires Valid(db)
    ensures Valid(Register(db, data).1)
  {
    if Registers(db, data) {
      var u := NewAccount(db, data.value);
      var q := NewRequest(db, data.value);
      AppendDistinct(db.users, u, UserId);
      AppendDistinct(db.users, u, UserEmail);
      AppendDistinct(db.requests, q, RequestId);
      HasUserAfterAppend(db.users, u);
    }
  }

  // ---------------------------------------------------------------------------
  // login

  /** The reply to correct credentials, by account status. */
  function StatusReply(u: Account, accessToken: string): (r: Reply)
    ensures u.status == "pending" ==>
      r.code == 403 && "status" in r.body && r.body["status"] == Str("pending")
      && "department" in r.body && r.body["department"] == Str(u.department)
    ensures u.status == "rejected" ==>
      r.code == 403 && "status" in r.body && r.body["status"] == Str("rejected")
    ensures u.status == "active" ==>
      r.code == 200 && "access_token" in r.body && r.body["access_token"] == Str(accessToken)
    ensures u.status !in {"pending", "rejected", "active"} ==> r == Error(500, "Account status unknown")
  {
    if u.status == "pending" then
      Reply(403, map["error" := Str("Account pending approval"), "message" := Str(PendingMessage),
        "status" := Str("pending"), "department" := Str(u.department)])
    else if u.status == "rejected" then
      Reply(403, map["error" := Str("Account rejected"), "message" := Str(RejectedMessage),
        "status" := Str("rejected")])
    else if u.status == "active" then
      Reply(200, map["access_token" := Str(accessToken), "user" := Obj(map[
        "id" := Num(u.id), "name" := Str(u.name), "email" := Str(u.email), "role" := Str(u.role),
        "department" := Str(u.department), "status" := Str(u.status)])])
    else Error(500, "Account status unknown")
  }

  /** `login`; `accessToken` is what `create_access_token` issues. A body without `email`, or
      a known email without `password`, raises an uncaught `KeyError`. What it answers for a
      known account, right or wrong password, is stated by `LoginDispatch`. */
  function Login(db: Db, data: Option<Body>, accessToken: string): (r: Reply)
    ensures data.None? || "email" !in data.value ==> r == Uncaught
    ensures data.Some? && "email" in data.value && FindEmail(db.users, data.value["email"]).None? ==>
      r == Error(401, "Invalid credentials")
  {
    if data.None? || "email" !in data.value then Uncaught
    else
      var d := data.value;
      match FindEmail(db.users, d["email"])
      case None => Error(401, "Invalid credentials")
      case Some(i) =>
        if "password" !in d then Uncaught
        else if d["password"] != db.users[i].password then Error(401, "Invalid credentials")
        else StatusReply(db.users[i], accessToken)
  }

  function Credentials(email: string, password: string): Body
  {
    map["email" := email, "password" := password]
  }

  /** With the tables valid, the account of an email answers for it: the wrong password
      is refused whatever the status, the right one is dispatched on the status. */
  lemma LoginDispatch(db: Db, u: Account, password: string, accessToken: string)
    requires Valid(db) && u in db.users
    ensures password != u.password ==>
      Login(db, Some(Credentials(u.email, password)), accessToken) == Error(401, "Invalid credentials")
    ensures password == u.password ==>
      Login(db, Some(Credentials(u.email, password)), accessToken) == StatusReply(u, accessToken)
  {
    var i := FindEmail(db.users, u.email).value;
    var k :| 0 <= k < |db.users| && db.users[k] == u;
    assert db.users[i] == u by {
      if i != k {
        assert UserEmail(db.users[i]) == UserEmail(db.users[k]);
      }
    }
  }

  /** A new account cannot sign in before HR approves it: the right password gets the
      pending reply. */
  lemma RegisteredAccountIsPending(db: Db, data: Option<Body>, accessToken: string)
    requires Valid(db) && Registers(db, data)
    ensures var d := data.value;
      Login(Register(db, data).1, Some(Credentials(d["email"], d["password"])), accessToken).code == 403
  {
    RegisterKeepsValid(db, data);
    var after := Register(db, data).1;
    var u := NewAccount(db, data.value);
    assert u in after.users;
    LoginDispatch(after, u, u.password, accessToken);
  }

  // ---------------------------------------------------------------------------
  // forgot_password

  /** The account a forgot-password request names: a non-empty `email` that is registered. */
  function NamedAccount(db: Db, data: Body): (r: Option<nat>)
    ensures r.Some? ==> r.value < |db.users| && "email" in data && db.users[r.value].email == data["email"]
  {
    if "email" !in data || data["email"] == "" then None else FindEmail(db.users, data["email"])
  }

  predicate TokenTaken(resets: seq<ResetRow>, token: string)
  {
    exists x :: x in resets && x.token == token
  }

  /** The tables after a successful request: the user's unused tokens deleted, the new one
      added. */
  function Issued(db: Db, userId: int, token: string, now: int): Db
  {
    db.(resets := WithoutUnusedOf(db.resets, userId) + [ResetRow(userId, token, now + ResetLifetime, false)])
  }

  /** `forgot_password`; `token` is what `secrets.token_urlsafe` generates. A token already held
      by a row that is kept violates the unique column and the whole request rolls back. */
  function ForgotPassword(db: Db, data: Option<Body>, token: string, now: int): (r: (Reply, Db))
    ensures data.None? ==> r == (Failed(500, "Password reset request failed: "), db)
    ensures data.Some? && ("email" !in data.value || data.value["email"] == "") ==>
      r == (Error(400, "Email is required"), db)
    ensures data.Some? && "email" in data.value && data.value["email"] != "" && NamedAccount(db, data.value).None? ==>
      r.0.code == 400 && "email_exists" in r.0.body && r.0.body["email_exists"] == Flag(false) && r.1 == db
    ensures r.0.code == 200 <==>
      (data.Some? && NamedAccount(db, data.value).Some?
       && !TokenTaken(WithoutUnusedOf(db.resets, db.users[NamedAccount(db, data.value).value].id), token))
    ensures r.0.code == 200 ==>
      r.1 == Issued(db, db.users[NamedAccount(db, data.value).value].id, token, now)
      && "reset_token" in r.0.body && r.0.body["reset_token"] == Str(token)
      && "reset_link" in r.0.body && r.0.body["reset_link"] == Str(ResetLinkPrefix + token)
    ensures r.0.code != 200 ==> r.1 == db
  {
    if data.None? then (Failed(500, "Password reset request failed: "), db)
    else if "email" !in data.value || data.value["email"] == "" then (Error(400, "Email is required"), db)
    else match NamedAccount(db, data.value)
      case None =>
        (Reply(400, map["error" := Str("Email not registered"), "message" := Str(NotRegisteredMessage),
          "email_exists" := Flag(false)]), db)
      case Some(i) =>
        var userId := db.users[i].id;
        if TokenTaken(WithoutUnusedOf(db.resets, userId), token) then
          (Failed(500, "Password reset request failed: "), db)
        else
          var reply := Reply(200, map["message" := Str(ResetIssuedText), "email_sent" := Flag(true),
            "email_exists" := Flag(true), "reset_link" := Str(ResetLinkPrefix + token),
            "reset_token" := Str(token)]);
          (reply, Issued(db, userId, token, now))
  }

  /** After a successful request the user has exactly one unused token: the new one, expiring
      one hour after it was issued. */
  lemma {:induction false} IssuedLeavesOneToken(db: Db, userId: int, token: string, now: int)
    ensures UnusedOf(Issued(db, userId, token, now).resets, userId) == [ResetRow(userId, token, now + ResetLifetime, false)]
  {
    var kept := WithoutUnusedOf(db.resets, userId);
    var row := ResetRow(userId, token, now + ResetLifetime, false);
    FilterAppend(kept, [row], (x: ResetRow) => x.userId == userId && !x.used);
    FilterNone(kept, (x: ResetRow) => x.userId == userId && !x.used);
  }

  /** A successful request keeps the tables valid. */
  lemma IssuedKeepsValid(db: Db, userId: int, token: string, now: int)
    requires Valid(db) && HasUser(db.users, userId)
    requires !TokenTaken(WithoutUnusedOf(db.resets, userId), token)
    ensures Valid(Issued(db, userId, token, now))
  {
    var kept := WithoutUnusedOf(db.resets, userId);
    var row := ResetRow(userId, token, now + ResetLifetime, false);
    AppendDistinct(kept, row, ResetToken);
  }

  lemma ForgotPasswordKeepsValid(db: Db, data: Option<Body>, token: string, now: int)
    requires Valid(db)
    ensures Valid(ForgotPassword(db, data, token, now).1)
  {
    var r := ForgotPassword(db, data, token, now);
    if r.0.code == 200 {
      var i := NamedAccount(db, data.value).value;
      assert db.users[i] in db.users;
      IssuedKeepsValid(db, db.users[i].id, token, now);
    }
  }

  // ---------------------------------------------------------------------------
  // validate_reset_token and reset_password

  /** An unused row holds the token and has not expired; `now > expires_at` expires it, so
      the last instant is still accepted. */
  predicate IsLiveToken(resets: seq<ResetRow>, token: string, now: int)
  {
    exists x :: x in resets && x.token == token && !x.used && now <= x.expiresAt
  }

  function TokenOf(data: Body): string { Get(data, "token", "") }

  /** `validate_reset_token`. */
  function ValidateResetToken(db: Db, data: Option<Body>, now: int): (r: Reply)
    ensures data.None? ==> r == Failed(500, "Token validation failed: ")
    ensures data.Some? && TokenOf(data.value) == "" ==> r == Error(400, "Token is required")
    ensures data.Some? && TokenOf(data.value) != "" && FindUnusedReset(db.resets, TokenOf(data.value)).None? ==>
      r == Reply(400, map["valid" := Flag(false), "error" := Str("Invalid reset token")])
    ensures Valid(db) && data.Some? && TokenOf(data.value) != "" ==>
      (r.code == 200 <==> IsLiveToken(db.resets, TokenOf(data.value), now))
  {
    if data.None? then Failed(500, "Token validation failed: ")
    else
      var token := TokenOf(data.value);
      if token == "" then Error(400, "Token is required")
      else match FindUnusedReset(db.resets, token)
        case None => Reply(400, map["valid" := Flag(false), "error" := Str("Invalid reset token")])
        case Some(k) =>
          assert Valid(db) ==> forall x :: x in db.resets && x.token == token ==> x == db.resets[k] by {
            if Valid(db) { TokenRowUnique(db.resets, k); }
          }
          if now > db.resets[k].expiresAt then
            Reply(400, map["valid" := Flag(false), "error" := Str("Reset token has expired")])
          else Reply(200, map["valid" := Flag(true), "message" := Str("Token is valid")])
  }

  /** With distinct tokens, the row found for a token is the only row holding it. */
  lemma TokenRowUnique(resets: seq<ResetRow>, k: nat)
    requires Distinct(resets, ResetToken) && k < |resets|
    ensures forall x :: x in resets && x.token == resets[k].token ==> x == resets[k]
  {
    forall x | x in resets && x.token == resets[k].token ensures x == resets[k] {
      var j :| 0 <= j < |resets| && resets[j] == x;
      assert ResetToken(resets[j]) == ResetToken(resets[k]);
    }
  }

  predicate HasResetFields(d: Body)
  {
    TokenOf(d) != "" && Get(d, "new_password", "") != ""
  }

  /** The tables after a successful reset: the new password set, the token marked used and
      the user's other unused tokens deleted. */
  function AfterReset(db: Db, i: nat, k: nat, password: string): Db
    requires i < |db.users| && k < |db.resets|
  {
    db.(users := db.users[i := db.users[i].(password := password)],
        resets := WithoutUnusedOf(db.resets[k := db.resets[k].(used := true)], db.resets[k].userId))
  }

  /** `reset_password`: the checks in order, then the update. */
  function ResetPassword(db: Db, data: Option<Body>, now: int): (r: (Reply, Db))
    ensures data.None? ==> r == (Failed(500, "Password reset failed: "), db)
    ensures data.Some? && !HasResetFields(data.value) ==> r == (Error(400, "Token and new password are required"), db)
    ensures data.Some? && HasResetFields(data.value) && !PasswordPolicy.ServerValidate(data.value["new_password"]).0 ==>
      r == (Error(400, PasswordPolicy.ServerValidate(data.value["new_password"]).1), db)
    ensures (data.Some? && HasResetFields(data.value) && PasswordPolicy.ServerValidate(data.value["new_password"]).0
             && FindUnusedReset(db.resets, TokenOf(data.value)).None?) ==>
      r == (Error(400, "Invalid or expired reset token"), db)
    ensures r.0.code != 200 ==> r.1 == db
    ensures r.0.code == 200 ==>
      data.Some? && HasResetFields(data.value)
      && PasswordPolicy.ServerValidate(data.value["new_password"]).0
      && IsLiveToken(db.resets, TokenOf(data.value), now)
  {
    if data.None? then (Failed(500, "Password reset failed: "), db)
    else
      var d := data.value;
      if !HasResetFields(d) then (Error(400, "Token and new password are required"), db)
      else
        var password := d["new_password"];
        var (ok, message) := PasswordPolicy.ServerValidate(password);
        if !ok then (Error(400, message), db)
        else match FindUnusedReset(db.resets, TokenOf(d))
          case None => (Error(400, "Invalid or expired reset token"), db)
          case Some(k) =>
            var row := db.resets[k];
            if now > row.expiresAt then (Error(400, "Reset token has expired"), db)
            else match FindUser(db.users, row.userId)
              case None => (Error(404, "User not found"), db)
              case Some(i) =>
                assert row in db.resets;
                (Reply(200, map["message" := Str(ResetDoneText)]), AfterReset(db, i, k, password))
  }

  /** The tables a successful reset leaves, named by the rows it finds. */
  lemma ResetTables(db: Db, data: Option<Body>, now: int)
    requires ResetPassword(db, data, now).0.code == 200
    ensures data.Some? && FindUnusedReset(db.resets, TokenOf(data.value)).Some?
    ensures var k := FindUnusedReset(db.resets, TokenOf(data.value)).value;
      FindUser(db.users, db.resets[k].userId).Some?
      && ResetPassword(db, data, now).1
         == AfterReset(db, FindUser(db.users, db.resets[k].userId).value, k, data.value["new_password"])
  {
  }

  // ---------------------------------------------------------------------------
  // Properties of the token life cycle

  /** An issued token validates up to and including its deadline, and not after it. */
  lemma IssuedTokenValidUntilDeadline(db: Db, data: Body, token: string, now: int, later: int)
    requires Valid(db) && token != ""
    requires ForgotPassword(db, Some(data), token, now).0.code == 200
    ensures var after := ForgotPassword(db, Some(data), token, now).1;
      ValidateResetToken(after, Some(map["token" := token]), later).code == 200 <==> later <= now + ResetLifetime
  {
    ForgotPasswordKeepsValid(db, Some(data), token, now);
    var after := ForgotPassword(db, Some(data), token, now).1;
    var row := ResetRow(db.users[NamedAccount(db, data).value].id, token, now + ResetLifetime, false);
    assert after.resets[|after.resets| - 1] == row;
    assert row in after.resets;
    assert TokenOf(map["token" := token]) == token;
    if IsLiveToken(after.resets, token, later) {
      var x :| x in after.resets && x.token == token && !x.used && later <= x.expiresAt;
      var j :| 0 <= j < |after.resets| && after.resets[j] == x;
      assert ResetToken(after.resets[j]) == ResetToken(after.resets[|after.resets| - 1]);
    }
  }

  lemma SameIdsAfterUpdate(users: seq<Account>, i: nat, u: Account)
    requires i < |users| && u.id == users[i].id
    ensures forall id :: HasUser(users, id) ==> HasUser(users[i := u], id)
  {
    forall id | HasUser(users, id) ensures HasUser(users[i := u], id) {
      var v :| v in users && v.id == id;
      var j :| 0 <= j < |users| && users[j] == v;
      assert users[i := u][j].id == id;
    }
  }

  /** Rows whose unused tokens are among those of a table with one unused token per user
      have that property too. */
  lemma OneUnusedOfSubset(a: seq<ResetRow>, b: seq<ResetRow>)
    requires OneUnusedPerUser(a)
    requires forall x :: x in b && !x.used ==> x in a
    ensures OneUnusedPerUser(b)
  {
  }

  lemma NoneLeft<T>(s: seq<T>)
    requires forall x :: x !in s
    ensures s == []
  {
    FirstIsMember(s);
  }

  lemma FirstIsMember<T>(s: seq<T>)
    ensures |s| > 0 ==> s[0] in s
  {
  }

  /** The reset tables after a token is used: the row at `k` marked used, then the owner's
      unused rows deleted. */
  lemma {:induction false} AfterResetFacts(db: Db, i: nat, k: nat, password: string)
    requires Valid(db) && i < |db.users| && k < |db.resets| && db.users[i].id == db.resets[k].userId
    ensures var after := AfterReset(db, i, k, password);
      && FindUnusedReset(after.resets, db.resets[k].token).None?
      && UnusedOf(after.resets, db.resets[k].userId) == []
      && Valid(after)
  {
    var row := db.resets[k];
    var marked := db.resets[k := row.(used := true)];
    var after := AfterReset(db, i, k, password);
    var u := db.users[i].(password := password);
    NoneLeft(UnusedOf(after.resets, row.userId));
    // the token is used up
    forall j | 0 <= j < |after.resets| ensures after.resets[j].token != row.token || after.resets[j].used {
      var x := after.resets[j];
      assert x in marked;
    }
    // the tables stay valid
    UpdateDistinct(db.users, i, u, UserId);
    UpdateDistinct(db.users, i, u, UserEmail);
    UpdateDistinct(db.resets, k, row.(used := true), ResetToken);
    SameIdsAfterUpdate(db.users, i, u);
    forall x | x in after.resets ensures HasUser(after.users, x.userId) {
      assert x in marked;
      var m :| 0 <= m < |marked| && marked[m] == x;
      assert db.resets[m] in db.resets;
    }
    forall x | x in after.resets && !x.used ensures x in db.resets {
      assert x in marked;
      var m :| 0 <= m < |marked| && marked[m] == x;
      assert m != k;
    }
    OneUnusedOfSubset(db.resets, after.resets);
  }

  lemma ResetPasswordKeepsValid(db: Db, data: Option<Body>, now: int)
    requires Valid(db)
    ensures Valid(ResetPassword(db, data, now).1)
  {
    if ResetPassword(db, data, now).0.code == 200 {
      var k := FindUnusedReset(db.resets, TokenOf(data.value)).value;
      var i := FindUser(db.users, db.resets[k].userId).value;
      AfterResetFacts(db, i, k, data.value["new_password"]);
    }
  }

  /** With the tables valid, the owner of every token exists, so `User not found` is never
      sent. */
  lemma ResetNeverMissesUser(db: Db, data: Option<Body>, now: int)
    requires Valid(db)
    ensures ResetPassword(db, data, now).0.code != 404
  {
    if data.Some? && HasResetFields(data.value) && FindUnusedReset(db.resets, TokenOf(data.value)).Some? {
      var k := FindUnusedReset(db.resets, TokenOf(data.value)).value;
      assert db.resets[k] in db.resets;
    }
  }

  /** With the tables valid, a reset succeeds exactly when the fields are present, the new
      password is strong and the token is live. */
  lemma ResetPasswordAccepts(db: Db, data: Body, now: int)
    requires Valid(db)
    ensures ResetPassword(db, Some(data), now).0.code == 200 <==>
      HasResetFields(data) && PasswordPolicy.ServerValidate(data["new_password"]).0
      && IsLiveToken(db.resets, TokenOf(data), now)
  {
    var token := TokenOf(data);
    if HasResetFields(data) && PasswordPolicy.ServerValidate(data["new_password"]).0
      && IsLiveToken(db.resets, token, now) {
      var x :| x in db.resets && x.token == token && !x.used && now <= x.expiresAt;
      var k := FindUnusedReset(db.resets, token).value;
      TokenRowUnique(db.resets, k);
    }
  }

  /** The accounts with the password of account `id` replaced. */
  function SetPassword(users: seq<Account>, id: int, password: string): (r: seq<Account>)
    ensures |r| == |users|
    ensures forall j :: 0 <= j < |users| ==>
      r[j] == if users[j].id == id then users[j].(password := password) else users[j]
  {
    seq(|users|, j requires 0 <= j < |users| =>
      if users[j].id == id then users[j].(password := password) else users[j])
  }

  lemma SetPasswordOfUnique(users: seq<Account>, i: nat, password: string)
    requires Distinct(users, UserId) && i < |users|
    ensures users[i := users[i].(password := password)] == SetPassword(users, users[i].id, password)
  {
  }

  /** A successful reset sets the password of the token's owner and no one else's, uses the
      token up together with the owner's other links, and keeps the tables valid. */
  lemma ResetPasswordEffect(db: Db, data: Body, now: int, x: ResetRow)
    requires Valid(db) && x in db.resets && x.token == TokenOf(data)
    requires ResetPassword(db, Some(data), now).0.code == 200
    ensures var after := ResetPassword(db, Some(data), now).1;
      && FindUnusedReset(after.resets, x.token).None?
      && UnusedOf(after.resets, x.userId) == []
      && after.users == SetPassword(db.users, x.userId, data["new_password"])
      && after.requests == db.requests && after.plans == db.plans
      && Valid(after)
  {
    var token := TokenOf(data);
    var k := FindUnusedReset(db.resets, token).value;
    var m :| 0 <= m < |db.resets| && db.resets[m] == x;
    assert db.resets[k] == x;
    var i := FindUser(db.users, x.userId).value;
    assert ResetPassword(db, Some(data), now).1 == AfterReset(db, i, k, data["new_password"]);
    AfterResetFacts(db, i, k, data["new_password"]);
    SetPasswordOfUnique(db.users, i, data["new_password"]);
  }

  /** A token works once: after a successful reset it no longer validates and a second reset
      with it is refused. */
  lemma TokenIsSingleUse(db: Db, data: Body, now: int, again: Body, later: int)
    requires Valid(db) && ResetPassword(db, Some(data), now).0.code == 200
    requires TokenOf(again) == TokenOf(data)
    ensures var after := ResetPassword(db, Some(data), now).1;
      && ValidateResetToken(after, Some(again), later) == Reply(400, map["valid" := Flag(false), "error" := Str("Invalid reset token")])
      && ResetPassword(after, Some(again), later).0.code == 400
  {
    var x :| x in db.resets && x.token == TokenOf(data) && !x.used && now <= x.expiresAt;
    ResetPasswordEffect(db, data, now, x);
  }
}
