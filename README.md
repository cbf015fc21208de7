# HR succession planning: a Dafny model of its session, routing, rules and views

The system is an HR succession-planning web application. A React client talks to a Flask
server. Users register, wait for HR approval of their access request, sign in with a JWT,
and then browse roles, succession plans, analytics and (for HR staff) access requests, the
audit trail and, for administrators, the user list.

This project models:

- **The client session** (`AuthProvider` in `frontend/src/contexts/AuthContext.js`).
  The stored token and user, the `Authorization` header, the one logout timer, and the
  response interceptor. Reading a token's expiry is modelled down to the bytes: splitting
  on `.`, base64url to base64, `atob`, the `decodeURIComponent` UTF-8 decode, `JSON.parse`
  and the `exp` claim (modules `Base64`, `Utf8`, `Json`, `Jwt`, `Session`).
- **Routing and navigation** (`App.js`, `Layout.js`): the guarded routes, the navigation
  entries per role, and logging out (`App`, `Layout`).
- **The server's rules** (`backend/app.py`). Covered are registration, sign-in, password
  reset tokens, access-request approval and rejection, user deletion, creating and
  updating succession plans, and the audit-trail query with its filters and pagination
  (`Accounts`, `Approvals`, `PlanRules`, `AuditQuery`). They are stated over the database
  tables (`Store`) and run by the stateful `Endpoints.Server` class. The helpers they use
  are modelled on their own: password validation (`PasswordPolicy`), `%Y-%m-%d` dates
  (`Dates`), Python's `int()` (`PythonInt`) and the HR role list (`HrAccess`).
- **The page logic of every view**: Login, ResetPassword, ForgotPassword, AuditTrail,
  Roles, SuccessionPlans, AccessRequests, Dashboard, Analytics and UsersAdmin. Each page
  with state is a class whose methods are its event handlers. Pure display logic is a
  function.

Network answers, the clock (`now`, in milliseconds on the client) and generated tokens are
parameters of the operations that use them. The toasts of the session provider
(`AuthContext.js`), the access-request page and the users administration page are modelled
as returned notice strings; the other pages' toasts are not (see "## Left out").

## Model

| member | source | states |
|---|---|---|
| Text.Lower | frontend/src/components/Roles.js:129-130 | `toLowerCase` on ASCII: same length, each character lowered |
| Text.LowerIsIdempotent | frontend/src/components/Roles.js:129-130 | lowering twice is lowering once |
| Text.Contains | frontend/src/components/Roles.js:129-130 | `includes` is true exactly when the needle occurs as a substring |
| Text.StripEmptyIffBlank | backend/app.py:790 | Python `strip()` yields "" exactly when every character is whitespace |
| Text.OrElse | frontend/src/contexts/AuthContext.js:118 | JavaScript `a \|\| b` on a string: `a` when it is a non-empty string, otherwise the fallback |
| Text.SplitJoin | frontend/src/contexts/AuthContext.js:43 | `split(sep)` cuts a string into separator-free pieces that join back to it |
| Text.SplitOfJoin | frontend/src/components/AuditTrail.js:96-110 | splitting a join of separator-free pieces gives back the pieces |
| Text.DigitsValueOfNatToString | frontend/src/components/AuditTrail.js:103 | the decimal text of a number reads back as that number |
| Base64.Decode | frontend/src/contexts/AuthContext.js:46 | `atob` succeeds exactly on alphabet strings whose unpadded length is not 1 modulo 4 |
| Base64.UrlToStandard | frontend/src/contexts/AuthContext.js:45 | `-` becomes `+`, `_` becomes `/`, and every other character is kept |
| Base64.DecodeEncodeUrl | frontend/src/contexts/AuthContext.js:45-46 | a base64url-encoded payload decodes back to its bytes after the translation |
| Base64.DecodeRejectsLengthOneMod4 | frontend/src/contexts/AuthContext.js:46 | a segment of length 1 modulo 4 is rejected |
| Base64.PaddingIsIgnored | frontend/src/contexts/AuthContext.js:46 | padded and unpadded encodings decode to the same bytes |
| Utf8.DecodeEncode | frontend/src/contexts/AuthContext.js:46 | `decodeURIComponent` of the percent-escaped UTF-8 of a string is that string |
| Utf8.RejectsIllFormed | frontend/src/contexts/AuthContext.js:46 | a stray continuation byte, a surrogate and an overlong form are rejected |
| Json.LastMember | frontend/src/contexts/AuthContext.js:47-48 | a property read finds a member exactly when one has the key, and the last one wins |
| Json.ParseSerializedObject | frontend/src/contexts/AuthContext.js:47 | `JSON.parse` of a serialized claim set gives the object with those members |
| Json.ParseIgnoresOuterWhitespace | frontend/src/contexts/AuthContext.js:47 | leading whitespace does not change the parse |
| Jwt.PayloadOfToken | frontend/src/contexts/AuthContext.js:43-44 | the payload segment of `header.payload.signature` is `payload` |
| Jwt.NumericMs | frontend/src/contexts/AuthContext.js:48 | an expiry exists exactly when the `exp` value is a number |
| Jwt.ParseJwtExpOfToken | frontend/src/contexts/AuthContext.js:41-52 | a token's expiry reads back as the issued `exp` in milliseconds, and as none without a numeric `exp` |
| Jwt.NoSeparatorNoExpiry | frontend/src/contexts/AuthContext.js:43-44 | a token without `.` has no expiry |
| Jwt.EmptyPayloadNoExpiry | frontend/src/contexts/AuthContext.js:44 | an empty payload segment has no expiry |
| Jwt.MalformedPayloadNoExpiry | frontend/src/contexts/AuthContext.js:46-50 | a payload `atob` rejects gives no expiry instead of an exception |
| Session.Initial | frontend/src/contexts/AuthContext.js:15-18 | a fresh provider is loading, signed out, with no timer, and satisfies the session invariant |
| Session.ClearLogoutTimer | frontend/src/contexts/AuthContext.js:20-25 | the timer is cancelled, nothing else changes, and the invariant is kept |
| Session.Logout | frontend/src/contexts/AuthContext.js:125-132 | the user, the stored token and user, the header and the timer are all gone, and one notice is added |
| Session.ScheduleLogoutAt | frontend/src/contexts/AuthContext.js:27-39 | a deadline not in the future logs out at once; otherwise exactly that deadline is armed |
| Session.Restore | frontend/src/contexts/AuthContext.js:54-68 | loading ends; nothing changes unless a token and a user were stored; with a future expiry the stored user, the Bearer header and a timer at the expiry are restored; an expiry that does not parse, is 0 or is not in the future logs out |
| Session.Tick | frontend/src/contexts/AuthContext.js:35-38 | a timer whose deadline has been reached logs out with the expiry notice; otherwise nothing changes |
| Session.OnErrorResponse | frontend/src/contexts/AuthContext.js:74-81 | a 401 or one of the three token error codes logs out with the session-ended notice; anything else changes nothing |
| Session.LoginFailureText | frontend/src/contexts/AuthContext.js:105-121 | a pending or rejected 403 shows error and message; otherwise the error or "Login failed" |
| Session.SignedIn | frontend/src/contexts/AuthContext.js:93-99 | after a granted login the token, the user and the header are stored and the timer is untouched |
| Session.Login | frontend/src/contexts/AuthContext.js:90-123 | a granted login signs in and schedules a parseable expiry; a refusal has passed through the interceptor, then shows its failure text |
| Session.Register | frontend/src/contexts/AuthContext.js:134-150 | registration only adds a notice, except that a refusal has passed through the interceptor |
| Session.LogoutIdempotent | frontend/src/contexts/AuthContext.js:125-132 | a second logout leaves the same state; only its notice repeats |
| Session.ScheduleReplacesTimer | frontend/src/contexts/AuthContext.js:27-28 | scheduling does not depend on which timer was armed before |
| Session.LoginArmsTimerAtExpiry | frontend/src/contexts/AuthContext.js:100-101 | a token issued with a future `exp` arms the timer at exactly `exp * 1000` |
| Session.LoginBeforeExpiry | frontend/src/contexts/AuthContext.js:100-101 | a future expiry is armed at login |
| Session.LoginWithExpiredToken | frontend/src/contexts/AuthContext.js:100-104 | a past `exp` ends the session at once, although the login reports success |
| Session.LoginWithoutExpiryKeepsTimer | frontend/src/contexts/AuthContext.js:100-101 | without a numeric `exp` the previous session's timer stays armed |
| Session.RestoreArmsTimerAtExpiry | frontend/src/contexts/AuthContext.js:59-63 | restoring a stored token issued with a nonzero `exp` restores the user with a timer at exactly that instant when it is ahead, and logs out when it is not |
| Session.RestoreWithoutExpiryLogsOut | frontend/src/contexts/AuthContext.js:62-63 | restoring a token without expiry logs out, unlike logging in with it |
| Session.BadCredentialsEndSession | frontend/src/contexts/AuthContext.js:77-78 | a failed login's 401 logs out a session that was signed in |
| Session.PendingAccountKeepsSession | frontend/src/contexts/AuthContext.js:109-111 | a pending account's 403 keeps the session and shows the server's error and message |
| Session.AuthProvider.constructor | frontend/src/contexts/AuthContext.js:15-18 | the provider's fields are the initial state |
| Session.AuthProvider.ClearTimer | frontend/src/contexts/AuthContext.js:20-25 | the fields become `ClearLogoutTimer` of the old ones |
| Session.AuthProvider.SignOut | frontend/src/contexts/AuthContext.js:125-132 | the fields become `Logout` of the old ones |
| Session.AuthProvider.ScheduleAt | frontend/src/contexts/AuthContext.js:27-39 | the fields become `ScheduleLogoutAt` of the old ones |
| Session.AuthProvider.RestoreSession | frontend/src/contexts/AuthContext.js:54-68 | the fields become `Restore` of the old ones, keeping the invariant |
| Session.AuthProvider.AdvanceClock | frontend/src/contexts/AuthContext.js:35-38 | the fields become `Tick` of the old ones, keeping the invariant |
| Session.AuthProvider.Intercept | frontend/src/contexts/AuthContext.js:70-83 | the error is passed on and the fields become `OnErrorResponse` of the old ones |
| Session.AuthProvider.SignIn | frontend/src/contexts/AuthContext.js:90-123 | returns true exactly on a granted login; the fields become `Login` of the old ones |
| Session.AuthProvider.SignUp | frontend/src/contexts/AuthContext.js:134-150 | returns true exactly on a registration; the fields become `Register` of the old ones |
| Session.AuthProvider.Teardown | frontend/src/contexts/AuthContext.js:84-87 | unmounting cancels the timer: the fields become `ClearLogoutTimer` of the old ones |
| App.ProtectedRoute | frontend/src/App.js:18-30 | a spinner while loading, the page for a signed-in user, otherwise a redirect to `/login` |
| App.RouteFor | frontend/src/App.js:38-54 | the route found has the path asked for; none is found exactly when no route has it |
| App.NormalPath | frontend/src/App.js:38-54 | the path the router compares: a slash alone, or no trailing slash |
| App.NormalPathOfRoute | frontend/src/App.js:38-54 | every route's own path is in normal form, so it is found for itself |
| App.VisitIgnoresCaseAndTrailingSlash | frontend/src/App.js:38-54 | a trailing slash or a different letter case shows the same outcome, as the router matches case-insensitively and ignores trailing slashes |
| App.GuardedIffNotPublic | frontend/src/App.js:39-54 | exactly the pages other than login, forgot and reset are guarded; pages and paths are distinct |
| App.PublicPagesAlwaysShow | frontend/src/App.js:39-41 | the three public pages show whatever the session |
| App.GuardedPages | frontend/src/App.js:42-54 | a guarded page waits, redirects or shows, by loading state and user |
| App.FirstRouteOfPath | frontend/src/App.js:38-54 | every route's path leads to that route |
| App.RoutingIgnoresRole | frontend/src/App.js:18-54 | which page shows never depends on the user's role |
| Layout.Navigation | frontend/src/components/Layout.js:30-42 | Dashboard, Roles and Analytics always; the three HR entries exactly for admin and hr_manager; Users (Admin) exactly for admin |
| Layout.BaseEntriesInOrder | frontend/src/components/Layout.js:30-42 | the ungated entries are Dashboard, Roles, Analytics in that order for every user |
| Layout.AdminSeesEverything | frontend/src/components/Layout.js:30-42 | an admin sees all seven entries |
| Layout.HrManagerNavigation | frontend/src/components/Layout.js:30-42 | an hr_manager sees all but the admin entry |
| Layout.OtherRolesNavigation | frontend/src/components/Layout.js:30-42 | any other role sees only Dashboard, Roles and Analytics |
| Layout.EntriesAreGuardedRoutes | frontend/src/components/Layout.js:30-42 | every entry leads to a guarded route of the router |
| Layout.HandleLogout | frontend/src/components/Layout.js:25-28 | logging out clears the session and goes to `/login` |
| Layout.AfterLogout | frontend/src/components/Layout.js:25-28 | the page reached after logging out is the login page |
| PasswordPolicy.ServerValidate | backend/app.py:193-218 | valid exactly when there are 8 or more characters and an upper, a lower, a digit and a special; the first failing check's message |
| PasswordPolicy.ClientStrength | frontend/src/components/Login.js:26-36 | each criterion holds exactly when its test does; length counts UTF-16 units |
| PasswordPolicy.ClientValid | frontend/src/components/Login.js:26-36 | valid exactly when all five criteria hold |
| PasswordPolicy.JsLengthCounts | frontend/src/components/Login.js:28 | the JavaScript length is the code-point length plus one per astral character |
| PasswordPolicy.ClientAgreesWithServer | backend/app.py:193-218 | without astral characters the client and the server accept the same passwords |
| PasswordPolicy.ServerStrongIsClientStrong | backend/app.py:202 | every password the server accepts the client accepts |
| PasswordPolicy.AstralPasswordDisagrees | backend/app.py:202 | a seven-character password with an emoji passes the client and fails the server |
| Dates.Strptime | backend/app.py:182 | a parsed date is a valid calendar date |
| Dates.ParseOptionalDate | backend/app.py:177-184 | None, "" and "null" give no date; anything else is `strptime` or no date |
| Dates.StrptimeOfIsoFormat | backend/app.py:182 | every date's ISO text parses back to it |
| Dates.LenientForms | backend/app.py:182 | `strptime` accepts unpadded months and days |
| Dates.RefusedForms | backend/app.py:182 | 29 February of a common year, 31 April and year 0 are refused |
| Dates.NextDay | backend/app.py:1243 | `+ timedelta(days=1)` gives the next valid day, and fails only after 9999-12-31 |
| Dates.BeforeNextMidnight | backend/app.py:1243-1244 | an instant is before the next midnight exactly when it is on or before the day |
| Dates.AtOrAfterMidnight | backend/app.py:1237-1238 | an instant is at or after a day's midnight exactly when it is not on an earlier day |
| PythonInt.ParseInt | backend/app.py:795-796 | `int()` succeeds exactly on a stripped, optionally signed numeral with single underscores |
| PythonInt.ParseIntOfIntToString | backend/app.py:795-796 | `int(str(n))` is n |
| PythonInt.UnderscoreExamples | backend/app.py:795-796 | `1_000` is a numeral; `1__0`, `_1` and `1_` are not |
| HrAccess.ClientHrIsServerHr | backend/app.py:186-191 | every role the client treats as HR the server does too |
| HrAccess.ServerHrNotClientHr | backend/app.py:188 | `HR Manager` has HR access on the server but not on the client |
| HrAccess.PlainUserIsNotHr | backend/app.py:186-191 | `user`, the empty role and `Admin` have no HR access |
| Store.FindEmail | backend/app.py:343 | `filter_by(email=...).first()` finds an account with that email, or none exists |
| Store.FindUnusedReset | backend/app.py:528-532 | the row found holds the token and is unused, or no such row exists |
| Store.UnusedOf | backend/app.py:476 | exactly the user's unused reset rows |
| Store.WithoutUnusedOf | backend/app.py:476 | deleting the user's unused rows keeps exactly the others and keeps tokens distinct |
| Store.NextKey | backend/app.py:807 | a new autoincrement id exceeds every id in the table and is 1 or one more than an existing id |
| Accounts.Register | backend/app.py:333-402 | 201 exactly when the fields are present, the email is new and the password is strong; each refusal in order |
| Accounts.RegisterKeepsValid | backend/app.py:333-402 | registration keeps the tables valid |
| Accounts.StatusReply | backend/app.py:409-439 | the pending, rejected and active replies to correct credentials |
| Accounts.Login | backend/app.py:404-441 | a missing email raises; an unknown email is refused with 401 |
| Accounts.LoginDispatch | backend/app.py:407-441 | a wrong password gets 401 whatever the status; a right one is answered by status |
| Accounts.RegisteredAccountIsPending | backend/app.py:333-441 | a new account's correct password gets the pending reply |
| Accounts.ForgotPassword | backend/app.py:444-509 | the 400 for a missing email, the 400 with `email_exists` false for an unknown one, and the issued link |
| Accounts.IssuedLeavesOneToken | backend/app.py:466-479 | after a request the user has exactly one unused token, expiring one hour later |
| Accounts.ForgotPasswordKeepsValid | backend/app.py:444-509 | a forgot-password request keeps the tables valid |
| Accounts.ValidateResetToken | backend/app.py:576-606 | a missing token gets 400; an unknown or used token is invalid; an expired one is invalid |
| Accounts.ResetPassword | backend/app.py:511-574 | the checks in order: fields, strength, token, expiry |
| Accounts.IssuedTokenValidUntilDeadline | backend/app.py:537-538 | an issued token validates up to and including its deadline and not after |
| Accounts.ResetPasswordKeepsValid | backend/app.py:511-574 | a reset keeps the tables valid |
| Accounts.ResetNeverMissesUser | backend/app.py:541-543 | with valid tables the `User not found` 404 is never sent |
| Accounts.ResetPasswordAccepts | backend/app.py:511-574 | a reset succeeds exactly when the fields are present, the password is strong and the token is live |
| Accounts.SetPassword | backend/app.py:546 | only account `id`'s password changes |
| Accounts.ResetPasswordEffect | backend/app.py:546-554 | a reset sets only the owner's password and uses up the token and the owner's other links |
| Accounts.TokenIsSingleUse | backend/app.py:548-552 | after a reset the token no longer validates and a second reset is refused |
| Approvals.HrUser | backend/app.py:1399-1403 | the signed-in account when it exists and holds an HR role |
| Approvals.Refusal | backend/app.py:1399-1412 | no refusal exactly when the decision is allowed; otherwise 403, 404 or the department 403, in order |
| Approvals.UpdateUser | backend/app.py:1421-1424 | only the account `User.query.get` finds changes |
| Approvals.Approve | backend/app.py:1395-1449 | 200 exactly when allowed; the request is approved by the caller and the applicant becomes active |
| Approvals.Reject | backend/app.py:1451-1507 | 200 exactly when allowed and there is a body; the request and the applicant are rejected with the reason |
| Approvals.ApproveKeepsValid | backend/app.py:1395-1449 | an approval keeps the tables valid |
| Approvals.RejectKeepsValid | backend/app.py:1451-1507 | a rejection keeps the tables valid |
| Approvals.ApplicantIsKnown | backend/app.py:1395-1449 | with valid tables the applicant's email is always known |
| Approvals.ApprovedApplicantCanSignIn | backend/app.py:1421-1424 | an approved applicant can then sign in with their password |
| Approvals.RejectedApplicantIsRefused | backend/app.py:1451-1507 | a rejected applicant is refused at sign-in with the rejected reply |
| Approvals.DecisionIgnoresStatus | backend/app.py:1415-1417 | an approved request can still be rejected afterwards |
| Approvals.Deleted | backend/app.py:68-77 | the account's requests go with it, and references to it as approver are cleared |
| Approvals.DeletedKeepsOthers | backend/app.py:68-77 | every other account stays, with the deleted one cleared as approver |
| Approvals.DeletedAccounts | backend/app.py:1192-1193 | the accounts left are exactly the others |
| Approvals.DeletedKeepsValid | backend/app.py:1192-1193 | a deletion keeps the tables valid when the account has no reset rows |
| Approvals.DeleteUser | backend/app.py:1158-1199 | 403 for a non-admin, 400 for oneself, 404 for a missing account, 400 when reset rows block it, otherwise deleted |
| PlanRules.MissingOf | backend/app.py:790 | exactly the missing fields, in order |
| PlanRules.Gate | backend/app.py:779-784 | an HR caller passes; a missing caller raises; others get 403 |
| PlanRules.NewPlan | backend/app.py:795-806 | a plan exactly when both numbers parse, with the stripped names and the parsed date |
| PlanRules.CreatePlan | backend/app.py:777-825 | the gate, then the missing-fields 400, then 201 with a new plan, or 400 when `int()` fails or a number does not fit SQLite's 64-bit `INTEGER` |
| PlanRules.Updated | backend/app.py:851-862 | only the fields named change, coerced; no plan when an `int()` fails |
| PlanRules.UpdatePlan | backend/app.py:827-882 | the gate, then 400 for a missing plan, then 200 with the updated plan, or 400 when `int()` fails or a number does not fit SQLite's 64-bit `INTEGER` |
| PlanRules.EmptyBodyMissesEverything | backend/app.py:787-792 | an empty body misses every required field, in order |
| PlanRules.BlankIsMissing | backend/app.py:790 | a field is missing exactly when it strips to "" |
| PlanRules.CreatePlanKeepsValid | backend/app.py:777-825 | a create keeps the tables valid |
| PlanRules.UpdatePlanKeepsValid | backend/app.py:827-882 | an update keeps the tables valid |
| PlanRules.CreatedPlanIsFound | backend/app.py:807-822 | the created plan reads back under the id the reply gives |
| PlanRules.UpdateIsIdempotent | backend/app.py:851-862 | updating twice with the same fields is updating once |
| PlanRules.EmptyUpdateChangesNothing | backend/app.py:851-862 | an update naming no field changes nothing |
| AuditQuery.IntArg | backend/app.py:1213 | the integer argument, or the default when absent or not a number |
| AuditQuery.RequestedPerPage | backend/app.py:1214 | at most 100, and the request's value when it is at most 100 |
| AuditQuery.LikeAnything | backend/app.py:1231 | `%` matches every string |
| AuditQuery.LikeLiteralPrefix | backend/app.py:1231 | a literal then `%` matches exactly the strings it begins |
| AuditQuery.LikeSubstring | backend/app.py:1231 | a wildcard-free `%u%` matches exactly the strings containing u |
| AuditQuery.UserFilterIsSubstringSearch | backend/app.py:1228-1234 | a wildcard-free user filter is a case-insensitive substring search on name or email |
| AuditQuery.UnderscoreMatchesAnyName | backend/app.py:1231 | the filter `_` matches every entry with a non-empty name |
| AuditQuery.DateArg | backend/app.py:1235-1246 | a date argument counts exactly when it is non-empty and parses |
| AuditQuery.ParseQuery | backend/app.py:1213-1246 | the page, sizes and filters read; fails only when `date_to` is 9999-12-31 |
| AuditQuery.DateToIncludesWholeDay | backend/app.py:1241-1244 | `date_to` includes its whole day and nothing after |
| AuditQuery.DateFromIncludesWholeDay | backend/app.py:1235-1238 | `date_from` starts at its first instant |
| AuditQuery.MalformedDateIsDropped | backend/app.py:1239-1240 | a malformed date filter is ignored |
| AuditQuery.SortNewestFirst | backend/app.py:1249 | newest first and a permutation of the entries |
| AuditQuery.InsertSorted | backend/app.py:1249 | inserting an entry into a newest-first list keeps it newest first and adds just that entry |
| AuditQuery.PageCount | backend/app.py:1282 | the fewest pages holding every entry, 0 when none |
| AuditQuery.PageItems | backend/app.py:1252-1259 | at most a page of items, each the one at its offset; empty exactly past the end |
| AuditQuery.HasNextIffMore | backend/app.py:1283 | a next page exists exactly when entries run past this one |
| AuditQuery.EveryEntryIsOnAPage | backend/app.py:1252-1256 | every entry is on exactly one page within the page count |
| AuditQuery.Listing | backend/app.py:1252-1286 | one page of the selected entries newest first, with the echoed page and counts |
| AuditQuery.Offset | backend/app.py:1252-1256 | the row offset of the page: `(page - 1) * per_page` for a page and page size of at least 1, never negative |
| AuditQuery.AuditTrail | backend/app.py:1201-1289 | 403 for non-HR, 500 when `date_to` overflows or the page offset does not fit 64 bits, otherwise the listing |
| AuditQuery.ListedEntriesAreSelected | backend/app.py:1222-1259 | every listed entry is a log entry passing every filter, newest first |
| Endpoints.Server.constructor | backend/app.py:58-175 | the tables start empty and valid |
| Endpoints.Server.DeleteUnusedOf | backend/app.py:476 | the loop keeps exactly the rows not unused for the user |
| Endpoints.Server.KeepOthers | backend/app.py:1192-1193 | the loop keeps the other accounts, clearing the deleted approver |
| Endpoints.Server.KeepOtherRequests | backend/app.py:74 | the loop keeps the other requests, clearing the deleted approver |
| Endpoints.Server.Register | backend/app.py:333-402 | reply and tables follow `Accounts.Register`, keeping validity |
| Endpoints.Server.ForgotPassword | backend/app.py:444-509 | reply and tables follow `Accounts.ForgotPassword`, keeping validity |
| Endpoints.Server.ResetPassword | backend/app.py:511-574 | reply and tables follow `Accounts.ResetPassword`, keeping validity |
| Endpoints.Server.ApplyReset | backend/app.py:545-552 | the password is set, the token marked used and the owner's other unused tokens deleted, as `Accounts.AfterReset` describes |
| Endpoints.Server.Approve | backend/app.py:1395-1449 | reply and tables follow `Approvals.Approve`, keeping validity |
| Endpoints.Server.Reject | backend/app.py:1451-1507 | reply and tables follow `Approvals.Reject`, keeping validity |
| Endpoints.Server.Decide | backend/app.py:1416-1426 | the decided request row is replaced and its applicant, when the account exists, changed; nothing else |
| Endpoints.Server.DeleteUser | backend/app.py:1158-1199 | reply and tables follow `Approvals.DeleteUser`, keeping validity |
| Endpoints.Server.RemoveUser | backend/app.py:1192 | the tables become `Approvals.Deleted`: the account and its requests gone, approver references cleared |
| Endpoints.Server.CreatePlan | backend/app.py:777-825 | reply and tables follow `PlanRules.CreatePlan`, keeping validity |
| Endpoints.Server.AddPlan | backend/app.py:807 | the plan is appended and no other table changes |
| Endpoints.Server.UpdatePlan | backend/app.py:827-882 | reply and tables follow `PlanRules.UpdatePlan`, keeping validity |
| LoginView.WithField | frontend/src/components/Login.js:66-72 | only the named field of the form changes |
| LoginView.LoginPage.constructor | frontend/src/components/Login.js:7-22 | sign-in mode, password hidden, no strength, empty form |
| LoginView.LoginPage.HandleChange | frontend/src/components/Login.js:66-77 | the field is stored; the strength is recomputed only for the password |
| LoginView.LoginPage.ToggleShowPassword | frontend/src/components/Login.js:194 | only the visibility flips |
| LoginView.LoginPage.SwitchToLogin | frontend/src/components/Login.js:79-83 | sign-in mode with an empty form and the password hidden |
| LoginView.LoginPage.SwitchToRegister | frontend/src/components/Login.js:85-89 | registration mode with an empty form and the password hidden |
| LoginView.LoginPage.Submit | frontend/src/components/Login.js:38-64 | sign-in sends the credentials; registration sends the form only when the client accepts the password, and switches to sign-in on success |
| ResetPasswordView.TokenVerdict | frontend/src/components/ResetPassword.js:41-69 | the token is valid exactly on an ok answer saying valid |
| ResetPasswordView.SubmitRefusal | frontend/src/components/ResetPassword.js:92-108 | nothing is refused exactly when all fields are filled, they match and the password is valid; the first failing message |
| ResetPasswordView.ResetOutcome | frontend/src/components/ResetPassword.js:125-142 | the server's message on success, its error or the fallback on failure, the network text without answer |
| ResetPasswordView.ResetPasswordPage.constructor | frontend/src/components/ResetPassword.js:8-26 | empty fields, validating, token not yet valid |
| ResetPasswordView.ResetPasswordPage.Open | frontend/src/components/ResetPassword.js:28-39 | the token is checked exactly when the URL carries a non-empty one |
| ResetPasswordView.ResetPasswordPage.ValidateToken | frontend/src/components/ResetPassword.js:41-69 | validity and message follow the verdict; validation ends |
| ResetPasswordView.ResetPasswordPage.HandlePasswordChange | frontend/src/components/ResetPassword.js:83-87 | the password is stored and its strength recomputed |
| ResetPasswordView.ResetPasswordPage.HandleConfirmChange | frontend/src/components/ResetPassword.js:287 | only the confirmation changes |
| ResetPasswordView.ResetPasswordPage.Submit | frontend/src/components/ResetPassword.js:89-143 | nothing is sent exactly when the checks refuse; otherwise the token and password are sent and the outcome shown |
| ForgotPasswordView.Outcome | frontend/src/components/ForgotPassword.js:47-66 | the message and link on success; the guidance for an unregistered email; otherwise message, error or fallback |
| ForgotPasswordView.AnswerOf | frontend/src/components/ForgotPassword.js:37-46 | the answer is ok exactly on a 2xx status, with the body's string fields |
| ForgotPasswordView.UnknownEmailGetsGuidance | frontend/src/components/ForgotPassword.js:59-63 | the server's reply to an unknown email shows the registration guidance |
| ForgotPasswordView.IssuedLinkIsShown | frontend/src/components/ForgotPassword.js:47-52 | a successful request shows the link carrying the issued token |
| ForgotPasswordView.ForgotPasswordPage.constructor | frontend/src/components/ForgotPassword.js:6-10 | an empty email, no message and no link |
| ForgotPasswordView.ForgotPasswordPage.Submit | frontend/src/components/ForgotPassword.js:24-68 | an empty email is refused without a request; otherwise the outcome is shown |
| ForgotPasswordView.ForgotPasswordPage.HandleEmailChange | frontend/src/components/ForgotPassword.js:214-220 | the email is stored and an error message is cleared, any other message kept |
| AuditTrailView.WithFilter | frontend/src/components/AuditTrail.js:77-78 | only the named filter changes |
| AuditTrailView.Params | frontend/src/components/AuditTrail.js:52-56 | the query carries the page, the page size and each filter |
| AuditTrailView.ServerReadsTheQuery | frontend/src/components/AuditTrail.js:52-58 | the server reads back the page, size and filters the page sent |
| AuditTrailView.ClearedFiltersSelectEverything | frontend/src/components/AuditTrail.js:82-91 | with the filters cleared the server selects every entry |
| AuditTrailView.ShownRange | frontend/src/components/AuditTrail.js:416-423 | "Showing a to b": a is the page's first position, b its last or the total |
| AuditTrailView.RangeCountsTheEntries | frontend/src/components/AuditTrail.js:416-423 | the range shown counts exactly the entries listed |
| AuditTrailView.RecordIdText | frontend/src/components/AuditTrail.js:103 | a missing record id and the id 0 both print as "" |
| AuditTrailView.CsvFields | frontend/src/components/AuditTrail.js:98-108 | nine fields per entry, in header order |
| AuditTrailView.CsvLines | frontend/src/components/AuditTrail.js:96-110 | the header line, then one line per entry |
| AuditTrailView.RowHasTheHeaderColumns | frontend/src/components/AuditTrail.js:98-109 | a line without commas in its fields splits back into its nine fields |
| AuditTrailView.CommaInFieldShiftsColumns | frontend/src/components/AuditTrail.js:98-109 | a comma inside a field gives the line a tenth column |
| AuditTrailView.OneLinePerEntry | frontend/src/components/AuditTrail.js:96-110 | without line breaks in fields the file has one line per entry plus the header |
| AuditTrailView.AuditTrailPage.constructor | frontend/src/components/AuditTrail.js:21-39 | no entries, loading, cleared filters, first page |
| AuditTrailView.AuditTrailPage.HandleFilterChange | frontend/src/components/AuditTrail.js:77-80 | the filter is stored and the page goes back to 1 |
| AuditTrailView.AuditTrailPage.ClearFilters | frontend/src/components/AuditTrail.js:82-91 | the filters are cleared and the page goes back to 1 |
| AuditTrailView.AuditTrailPage.PreviousPage | frontend/src/components/AuditTrail.js:395-401 | the page goes down by one exactly when the pager shows and a previous page exists |
| AuditTrailView.AuditTrailPage.NextPage | frontend/src/components/AuditTrail.js:395-408 | the page goes up by one exactly when the pager shows and a next page exists |
| AuditTrailView.AuditTrailPage.Refresh | frontend/src/components/AuditTrail.js:43-66 | only an HR user fetches; the answer's entries and pagination are taken |
| AuditTrailView.AuditTrailPage.Export | frontend/src/components/AuditTrail.js:93-119 | the file is the CSV of the listed entries |
| RolesView.FilteredRoles | frontend/src/components/Roles.js:128-133 | exactly the roles matching the search and the department filter |
| RolesView.NoFilterListsAll | frontend/src/components/Roles.js:128-133 | without a search or filter every role is listed in order |
| RolesView.SearchIgnoresCase | frontend/src/components/Roles.js:129-130 | the search does not depend on case |
| RolesView.CriticalityColor | frontend/src/components/Roles.js:135-142 | the colour class of each criticality, grey otherwise |
| RolesView.FormOf | frontend/src/components/Roles.js:87-95 | the edit form holds the role's fields |
| RolesView.RolesPage.constructor | frontend/src/components/Roles.js:11-28 | no roles, loading, no dialog, empty form |
| RolesView.RolesPage.Arrive | frontend/src/components/Roles.js:29-37 | the roles are fetched; the navigation state may open the dialog or preset the search |
| RolesView.RolesPage.Loaded | frontend/src/components/Roles.js:39-48 | the roles are replaced on success; loading ends |
| RolesView.RolesPage.ResetForm | frontend/src/components/Roles.js:117-126 | the form is empty and nothing is being edited |
| RolesView.RolesPage.Edit | frontend/src/components/Roles.js:83-97 | for HR users the dialog opens on the role's form; others change nothing |
| RolesView.RolesPage.Submit | frontend/src/components/Roles.js:50-81 | nothing is sent without HR access or a complete form; otherwise create or update |
| RolesView.RolesPage.Delete | frontend/src/components/Roles.js:100-115 | a delete is sent exactly for an HR user who confirms; the roles are fetched again exactly when it succeeds |
| RolesView.RolesPage.Cancel | frontend/src/components/Roles.js:468-472 | the dialog closes and the form is reset |
| SuccessionPlansView.ClientOf | backend/app.py:764-775 | the listing row carries the plan's fields and its date in ISO form |
| SuccessionPlansView.RoleTitle | frontend/src/components/SuccessionPlans.js:132-135 | the first matching role's title, or "Unknown Role" |
| SuccessionPlansView.FilteredPlans | frontend/src/components/SuccessionPlans.js:146-151 | exactly the plans matching the search and the readiness filter |
| SuccessionPlansView.NoFilterListsAll | frontend/src/components/SuccessionPlans.js:146-151 | without a search or filter every plan is listed in order |
| SuccessionPlansView.UnknownRoleMatchesItsPlaceholder | frontend/src/components/SuccessionPlans.js:132-151 | a plan of an unknown role is found by searching "Unknown Role" |
| SuccessionPlansView.ReadinessColor | frontend/src/components/SuccessionPlans.js:137-144 | the colour class of each readiness, grey otherwise |
| SuccessionPlansView.FormOfPlan | frontend/src/components/SuccessionPlans.js:96-107 | the edit form holds the plan's fields, the date or "" |
| SuccessionPlansView.FormNumbersReadBack | frontend/src/components/SuccessionPlans.js:96-107 | the server's `int()` reads back the form's role id and tenure |
| SuccessionPlansView.BodyOf | frontend/src/components/SuccessionPlans.js:76-94 | the request body has the six keys with the form's values |
| SuccessionPlansView.SavingAnUneditedPlanKeepsIt | frontend/src/components/SuccessionPlans.js:76-107 | saving an unedited plan stores the same plan |
| SuccessionPlansView.CreatingFromAPlanCopiesIt | frontend/src/components/SuccessionPlans.js:76-94 | creating from a plan's form stores a copy under the new id |
| SuccessionPlansView.SuccessionPlansPage.constructor | frontend/src/components/SuccessionPlans.js:12-29 | no plans or roles, loading, no dialog, empty form |
| SuccessionPlansView.SuccessionPlansPage.Arrive | frontend/src/components/SuccessionPlans.js:34-44 | only HR users fetch; only they get the dialog or search preset |
| SuccessionPlansView.SuccessionPlansPage.Loaded | frontend/src/components/SuccessionPlans.js:46-59 | both lists are replaced on success; loading ends |
| SuccessionPlansView.SuccessionPlansPage.OpenCreate | frontend/src/components/SuccessionPlans.js:172 | the dialog opens and nothing else changes |
| SuccessionPlansView.SuccessionPlansPage.ResetForm | frontend/src/components/SuccessionPlans.js:121-130 | the form is empty; the plan being edited is kept |
| SuccessionPlansView.SuccessionPlansPage.Edit | frontend/src/components/SuccessionPlans.js:96-107 | the dialog opens on the plan's form |
| SuccessionPlansView.SuccessionPlansPage.Submit | frontend/src/components/SuccessionPlans.js:76-94 | nothing is sent for an incomplete form; otherwise create or update with the form's body |
| SuccessionPlansView.SuccessionPlansPage.Delete | frontend/src/components/SuccessionPlans.js:109-119 | a delete is sent exactly when confirmed; the data is fetched again exactly when it succeeds |
| SuccessionPlansView.SuccessionPlansPage.Cancel | frontend/src/components/SuccessionPlans.js:388-392 | the dialog closes and the form is reset |
| AccessRequestsView.FilteredRequests | frontend/src/components/AccessRequests.js:155-159 | exactly the requests passing both filters |
| AccessRequestsView.AllListsEverything | frontend/src/components/AccessRequests.js:155-159 | with both filters at `all` every request is listed in order |
| AccessRequestsView.EmptyListNotice | frontend/src/components/AccessRequests.js:313-315 | the filter hint exactly while a filter is set |
| AccessRequestsView.StatusColor | frontend/src/components/AccessRequests.js:142-153 | the colour class of each status, grey otherwise |
| AccessRequestsView.ActionsOf | frontend/src/components/AccessRequests.js:375-400 | buttons exactly for pending requests; who decided, or "HR", for decided ones |
| AccessRequestsView.StatShown | frontend/src/components/AccessRequests.js:210-247 | a missing count shows 0 |
| AccessRequestsView.RejectBody | frontend/src/components/AccessRequests.js:105 | the body carries only the reason |
| AccessRequestsView.RejectionStoresTheTypedReason | frontend/src/components/AccessRequests.js:91-122 | a successful rejection stores the reason typed and marks the request rejected |
| AccessRequestsView.DecisionNotice | frontend/src/components/AccessRequests.js:67-89 | the success text, the server's error or the fallback, or the network text |
| AccessRequestsView.AccessRequestsPage.constructor | frontend/src/components/AccessRequests.js:8-16 | empty lists, loading, filters at `all`, dialog closed |
| AccessRequestsView.AccessRequestsPage.Arrive | frontend/src/components/AccessRequests.js:20-25 | only HR users fetch |
| AccessRequestsView.AccessRequestsPage.RequestsLoaded | frontend/src/components/AccessRequests.js:27-47 | the list is replaced only on success; the refusal and failure notices |
| AccessRequestsView.AccessRequestsPage.StatsLoaded | frontend/src/components/AccessRequests.js:49-65 | the counts are replaced only on success |
| AccessRequestsView.AccessRequestsPage.Approve | frontend/src/components/AccessRequests.js:67-89 | the approval is sent; a success fetches again |
| AccessRequestsView.AccessRequestsPage.OpenRejectModal | frontend/src/components/AccessRequests.js:124-127 | the dialog opens on the request |
| AccessRequestsView.AccessRequestsPage.TypeReason | frontend/src/components/AccessRequests.js:422-428 | only the reason changes |
| AccessRequestsView.AccessRequestsPage.Reject | frontend/src/components/AccessRequests.js:91-122 | nothing is sent exactly for a blank reason; a success closes and clears the dialog |
| AccessRequestsView.AccessRequestsPage.CancelReject | frontend/src/components/AccessRequests.js:430-435 | the dialog closes and is cleared |
| DashboardView.StatsOf | frontend/src/components/Dashboard.js:52-57 | the four counts; the plan counts are 0 without HR access; each part within its whole |
| DashboardView.CriticalCountsHighRoles | frontend/src/components/Dashboard.js:55 | all roles count as critical exactly when all are High, none exactly when none is |
| DashboardView.RecentPlans | frontend/src/components/Dashboard.js:59 | the first five plans for an HR user, none otherwise |
| DashboardView.QuickActions | frontend/src/components/Dashboard.js:196-242 | an HR user's four actions (add role, create plan, analytics, review candidates) in page order, everyone else's two (add role, analytics) |
| DashboardView.QuickActionsReachPages | frontend/src/components/Dashboard.js:196-242 | every quick action shows a page to a signed-in user |
| DashboardView.FetchOutcome | frontend/src/components/Dashboard.js:36-65 | nothing is set without roles; an HR user's counts and recent plans come from the plans received, a failed plans request counts as no plans; a user without HR access gets the role counts with no plans |
| DashboardView.NoPlansWithoutHrAccess | frontend/src/components/Dashboard.js:36-65 | a non-HR dashboard does not depend on the plans and shows none |
| DashboardView.RecentPlansLeadTheListing | frontend/src/components/Dashboard.js:59 | an HR user's recent plans are the first plans of the listing |
| AnalyticsView.Total | frontend/src/components/Analytics.js:111 | the sum of a distribution, 0 when absent |
| AnalyticsView.CountOf | frontend/src/components/Analytics.js:127 | the first matching entry's count, 0 when absent |
| AnalyticsView.EntryWithinSum | frontend/src/components/Analytics.js:127-159 | one entry's count never exceeds the sum |
| AnalyticsView.NothingLoadedShowsZeros | frontend/src/components/Analytics.js:111-159 | before any answer every metric is 0 |
| AnalyticsView.ReadyWithinPlans | frontend/src/components/Analytics.js:143-159 | ready successors lie between 0 and the number of plans |
| AnalyticsView.TrendWord | frontend/src/components/Analytics.js:324-347 | "consistent" exactly when there is a trend point |
| AnalyticsView.Panels | frontend/src/components/Analytics.js:209-291 | the readiness and trend panels exactly for HR users |
| AnalyticsView.CriticalityColor | frontend/src/components/Analytics.js:40-47 | the colour of each criticality, grey otherwise |
| AnalyticsView.ReadinessColor | frontend/src/components/Analytics.js:49-56 | the colour of each readiness, grey otherwise |
| AnalyticsView.Fetched | frontend/src/components/Analytics.js:24-38 | both answers or neither |
| UsersAdminView.ScreenOf | frontend/src/components/UsersAdmin.js:54-64 | the "only admins" notice exactly for a missing or non-admin user, then the spinner while loading, then the table |
| UsersAdminView.GateMatchesNavigation | frontend/src/components/UsersAdmin.js:54-56 | the page opens exactly for users whose navigation lists it |
| UsersAdminView.NameShown | frontend/src/components/UsersAdmin.js:95 | the name, or "N/A" for a missing or empty one |
| UsersAdminView.CountShown | frontend/src/components/UsersAdmin.js:33 | a missing count reads as 0 |
| UsersAdminView.MissingCountsReadAsZero | frontend/src/components/UsersAdmin.js:33 | the message of missing counts is the message of zeros |
| UsersAdminView.UploadOutcome | frontend/src/components/UsersAdmin.js:24-37 | nothing without a file; the message or the error after the answer |
| UsersAdminView.UsersAdminPage.constructor | frontend/src/components/UsersAdmin.js:9-10 | no users, loading |
| UsersAdminView.UsersAdminPage.UsersLoaded | frontend/src/components/UsersAdmin.js:12-22 | the list is replaced on success; loading ends |
| UsersAdminView.UsersAdminPage.Delete | frontend/src/components/UsersAdmin.js:43-52 | a delete is sent exactly for a non-admin row that is confirmed; a success fetches again |

## Left out

- Rendering, styling, icons, the mobile sidebar and toasts' timing: where a notice is modelled, only its text is.
- Toasts of the roles, succession-plans, dashboard, analytics and audit-trail pages are not modelled: the operations there return what is sent and whether the page fetches again, not the message (frontend/src/components/Roles.js:45, 54, 60, 67, 70, 79, 85, 102, 109, 112; frontend/src/components/SuccessionPlans.js:56, 81, 84, 92, 113, 116; frontend/src/components/Dashboard.js:62; frontend/src/components/Analytics.js:35; frontend/src/components/AuditTrail.js:63).
- Floating point: JSON numbers are exact reals, the expiry is `exp * 1000` exactly, and the Analytics bar widths (`frontend/src/components/Analytics.js:256`, 278, 303) are not modelled.
- Unicode case mapping and the Python `str.isupper`/`isdigit` tests beyond ASCII: `Lower` and the password tests work on ASCII only.
- PythonInt.ParseInt: only ASCII digits are read. Python's `int()` also accepts every Unicode decimal digit (`int("٤٢") == 42`), and since Python 3.11 it refuses a numeral of more than 4300 digits with `ValueError`; the model accepts numerals of any length. The limit depends on the Python release, which the repository does not fix.
- Dates.Strptime: only ASCII digits are read. In Python's `strptime` the four digits of `%Y` and the second digit of a `%d` from 10 to 29 are `\d`, which also matches any Unicode decimal digit (so `"٢٠٢٤-01-02"` parses); `%m` takes ASCII digits only.
- Session.Restore: the stored user is taken as already parsed. In the source `JSON.parse` of malformed stored text throws inside the mount effect, and the stored text `null` gives a null user while the header is set and a timer armed; neither case is modelled.
- App.Visit: the router's percent-decoding of the path is not modelled; the path is compared after ASCII lower-casing and the removal of trailing slashes.
- PlanRules.CreatePlan: a new plan id is one more than the largest. When that would exceed 2^63 - 1, SQLite picks an unused row id at random instead; that case is not modelled.
- UsersAdminView: the mount effect requests the user list for every signed-in user; the request and its answer are modelled by `UsersLoaded`.
- Concurrency, the database session, commits and rollbacks beyond all-or-nothing replies, and the Flask-SQLAlchemy query machinery. The tables are sequences of rows.
- Password hashing: bcrypt is replaced by comparing the stored password for equality.
- E-mail sending, `secrets.token_urlsafe` and `datetime.utcnow`: the token and the clock are parameters. Two `utcnow` calls in one request are one instant.
- Writing audit-log entries and the cascade that deletes a user's audit-log entries. Audit logs are an input of the audit-trail query and are not a table of the model.
- The 415 answer that `request.get_json()` gives for a body that is not JSON, and JSON bodies whose values are not strings: bodies are maps from keys to strings.
- Equal timestamps in `ORDER BY timestamp DESC`: the database promises no order among them, while the model's sort is stable and keeps table order among equal timestamps. The model therefore fixes one order the source does not promise.
- Endpoints other than the modelled ones: role CRUD, the listings of roles, plans and access requests, delete of plans, analytics, search, the spreadsheet upload, the audit summary, user listing, health and debug. Only the client side of these appears, with the server's answer as an input.
- `frontend/src/utils/timeUtils.js` and `frontend/src/components/Roles_new.js` are not part of this model.
- The firing of the 3000 ms delayed navigation after a reset (its deadline is recorded in `redirectAt`), and the copy-to-clipboard and show-token controls of ForgotPassword; the audit summary fetch and `getActionColor`/`getTableIcon` in AuditTrail.
- The timer delay clamp of `setTimeout` (about 24.8 days): a timer is its deadline.
- Form inputs are strings. A number input's value reaches the server as the text the model gives it. The browser's `required` check is modelled as non-emptiness.
- Input change handlers that only store the typed value, other than those with a row above.
- The department select on Analytics (`frontend/src/components/Analytics.js:79-97`) filters nothing in the source, so no operation takes it.
- The insight sentences of Analytics other than the trend word.
- UsersAdminView.UploadMessage: only the message for a missing `inserted` object is stated. A present one is reached through `MissingCountsReadAsZero` and `UploadOutcome`.
- The HTTP transport: which URL each call goes to is named in the call values, not modelled as requests.
