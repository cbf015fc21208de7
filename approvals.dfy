/** The HR decisions on access requests (`approve_access_request`, `reject_access_request`)
    and the admin's `delete_user`, as functions from the tables to the reply and the new
    tables. `me` is the id the JWT identifies; `now` is the server's clock. */
module Approvals {
  import opened Wrappers
  import opened Store
  import HrAccess
  import Accounts

  const NotFound := Reply(404, map[])

  /** The signed-in user, when they exist and hold an HR role. */
  function HrUser(db: Db, me: int): (r: Option<nat>)
    ensures r.Some? ==>
      r.value < |db.users| && db.users[r.value].id == me && HrAccess.HasHrAccess(db.users[r.value].role)
    ensures r.None? ==> FindUser(db.users, me).None? || !HrAccess.HasHrAccess(db.users[FindUser(db.users, me).value].role)
  {
    match FindUser(db.users, me)
    case None => None
    case Some(i) => if HrAccess.HasHrAccess(db.users[i].role) then Some(i) else None
  }

  /** The request an HR user may decide: it exists and comes from their department. */
  predicate MayDecide(db: Db, me: int, requestId: int)
  {
    HrUser(db, me).Some? && FindRequest(db.requests, requestId).Some?
    && db.users[HrUser(db, me).value].department == db.requests[FindRequest(db.requests, requestId).value].department
  }

  /** The checks both decisions share, in order; `verb` is `approve` or `reject`. */
  function Refusal(db: Db, me: int, requestId: int, verb: string): (r: Option<Reply>)
    ensures r.None? <==> MayDecide(db, me, requestId)
    ensures HrUser(db, me).None? ==>
      r == Some(Error(403, "Access denied. HR access required to " + verb + " requests."))
    ensures HrUser(db, me).Some? && FindRequest(db.requests, requestId).None? ==>
      r == Some(Error(404, "Access request not found"))
    ensures r.Some? && HrUser(db, me).Some? && FindRequest(db.requests, requestId).Some? ==>
      r == Some(Error(403, "Access denied. You can only " + verb + " requests from your department."))
  {
    match HrUser(db, me)
    case None => Some(Error(403, "Access denied. HR access required to " + verb + " requests."))
    case Some(i) =>
      match FindRequest(db.requests, requestId)
      case None => Some(Error(404, "Access request not found"))
      case Some(k) =>
        if db.users[i].department != db.requests[k].department then
          Some(Error(403, "Access denied. You can only " + verb + " requests from your department."))
        else None
  }

  /** What an approval does to its applicant's account. */
  function Activated(me: int, now: int): Account -> Account
  {
    (u: Account) => u.(status := "active", approvedAt := Some(now), approvedBy := Some(me))
  }

  /** What a rejection does to its applicant's account. */
  function MarkedRejected(): Account -> Account
  {
    (u: Account) => u.(status := "rejected")
  }

  /** The accounts with `f` applied to the account `User.query.get(id)` finds, if any. */
  function UpdateUser(users: seq<Account>, id: int, f: Account -> Account): (r: seq<Account>)
    ensures |r| == |users|
    ensures FindUser(users, id).None? ==> r == users
    ensures FindUser(users, id).Some? ==> r == users[FindUser(users, id).value := f(users[FindUser(users, id).value])]
  {
    match FindUser(users, id)
    case None => users
    case Some(j) => users[j := f(users[j])]
  }

  function DecisionReply(message: string, requestId: int, users: seq<Account>, applicant: int): Reply
  {
    Reply(200, map["message" := Str(message), "request_id" := Num(requestId),
      "user_email" := Str(match FindUser(users, applicant) case Some(j) => users[j].email case None => "Unknown")])
  }

  /** `approve_access_request`. The request is approved whatever its status before, and its
      applicant becomes active. */
  function Approve(db: Db, me: int, requestId: int, now: int): (r: (Reply, Db))
    ensures r.0.code == 200 <==> MayDecide(db, me, requestId)
    ensures !MayDecide(db, me, requestId) ==> Some(r.0) == Refusal(db, me, requestId, "approve") && r.1 == db
    ensures MayDecide(db, me, requestId) ==>
      var k := FindRequest(db.requests, requestId).value;
      var q := db.requests[k];
      && r.1.requests == db.requests[k := q.(status := "approved", approverId := Some(me), approvedAt := Some(now))]
      && r.1.users == UpdateUser(db.users, q.userId, Activated(me, now))
      && r.1.resets == db.resets && r.1.plans == db.plans
  {
    match Refusal(db, me, requestId, "approve")
    case Some(reply) => (reply, db)
    case None =>
      var k := FindRequest(db.requests, requestId).value;
      var q := db.requests[k];
      var requests := db.requests[k := q.(status := "approved", approverId := Some(me), approvedAt := Some(now))];
      var users := UpdateUser(db.users, q.userId, Activated(me, now));
      (DecisionReply("Access request approved successfully", requestId, users, q.userId),
       db.(users := users, requests := requests))
  }

  /** `reject_access_request`. After the checks the body is read: without a JSON object
      `data.get` raises and the reply is 500. */
  function Reject(db: Db, me: int, requestId: int, data: Option<Body>, now: int): (r: (Reply, Db))
    ensures !MayDecide(db, me, requestId) ==> Some(r.0) == Refusal(db, me, requestId, "reject") && r.1 == db
    ensures MayDecide(db, me, requestId) && data.None? ==> r == (Failed(500, ""), db)
    ensures r.0.code == 200 <==> MayDecide(db, me, requestId) && data.Some?
    ensures r.0.code == 200 ==>
      var k := FindRequest(db.requests, requestId).value;
      var q := db.requests[k];
      && r.1.requests == db.requests[k := q.(status := "rejected", approverId := Some(me), rejectedAt := Some(now),
           rejectionReason := Some(Get(data.value, "rejection_reason", "No reason provided")))]
      && r.1.users == UpdateUser(db.users, q.userId, MarkedRejected())
      && r.1.resets == db.resets && r.1.plans == db.plans
  {
    match Refusal(db, me, requestId, "reject")
    case Some(reply) => (reply, db)
    case None =>
      if data.None? then (Failed(500, ""), db)
      else
        var reason := Get(data.value, "rejection_reason", "No reason provided");
        var k := FindRequest(db.requests, requestId).value;
        var q := db.requests[k];
        var requests := db.requests[k := q.(status := "rejected", approverId := Some(me), rejectedAt := Some(now),
          rejectionReason := Some(reason))];
        var users := UpdateUser(db.users, q.userId, MarkedRejected());
        (DecisionReply("Access request rejected successfully", requestId, users, q.userId),
         db.(users := users, requests := requests))
  }

  // ---------------------------------------------------------------------------
  // Properties of the decisions

  /** Changing account fields other than id and email keeps the tables valid. */
  lemma UpdateUserKeepsValid(db: Db, id: int, f: Account -> Account, requests: seq<AccessRow>)
    requires Valid(db)
    requires forall u :: f(u).id == u.id && f(u).email == u.email
    requires Distinct(requests, RequestId)
    requires forall x :: x in requests ==> HasUser(db.users, x.userId)
    ensures Valid(db.(users := UpdateUser(db.users, id, f), requests := requests))
  {
    var users := UpdateUser(db.users, id, f);
    assert forall j :: 0 <= j < |users| ==> users[j].id == db.users[j].id && users[j].email == db.users[j].email;
    forall uid | HasUser(db.users, uid) ensures HasUser(users, uid) {
      var v :| v in db.users && v.id == uid;
      var j :| 0 <= j < |db.users| && db.users[j] == v;
      assert users[j] in users;
    }
  }

  /** Replacing a request by one of the same id and applicant keeps the requests valid. */
  lemma SameRequestKeys(db: Db, k: nat, q: AccessRow)
    requires Valid(db) && k < |db.requests| && q.id == db.requests[k].id && q.userId == db.requests[k].userId
    ensures Distinct(db.requests[k := q], RequestId)
    ensures forall x :: x in db.requests[k := q] ==> HasUser(db.users, x.userId)
  {
    UpdateDistinct(db.requests, k, q, RequestId);
    assert db.requests[k] in db.requests;
    forall x | x in db.requests[k := q] ensures HasUser(db.users, x.userId) {
      var m :| 0 <= m < |db.requests[k := q]| && db.requests[k := q][m] == x;
      assert m != k ==> db.requests[m] in db.requests;
    }
  }

  lemma ApproveKeepsValid(db: Db, me: int, requestId: int, now: int)
    requires Valid(db)
    ensures Valid(Approve(db, me, requestId, now).1)
  {
    if MayDecide(db, me, requestId) {
      var k := FindRequest(db.requests, requestId).value;
      var q := db.requests[k];
      var q' := q.(status := "approved", approverId := Some(me), approvedAt := Some(now));
      SameRequestKeys(db, k, q');
      UpdateUserKeepsValid(db, q.userId, Activated(me, now), db.requests[k := q']);
    }
  }

  lemma RejectKeepsValid(db: Db, me: int, requestId: int, data: Option<Body>, now: int)
    requires Valid(db)
    ensures Valid(Reject(db, me, requestId, data, now).1)
  {
    if MayDecide(db, me, requestId) && data.Some? {
      var k := FindRequest(db.requests, requestId).value;
      var q := db.requests[k];
      var q' := q.(status := "rejected", approverId := Some(me), rejectedAt := Some(now),
        rejectionReason := Some(Get(data.value, "rejection_reason", "No reason provided")));
      SameRequestKeys(db, k, q');
      UpdateUserKeepsValid(db, q.userId, MarkedRejected(), db.requests[k := q']);
    }
  }

  /** Lookups by id see through changes that keep the ids. */
  lemma FindUserAfterUpdate(users: seq<Account>, id: int, f: Account -> Account, x: int)
    requires forall u :: f(u).id == u.id
    ensures FindUser(UpdateUser(users, id, f), x) == FindUser(users, x)
  {
    var after := UpdateUser(users, id, f);
    assert forall j :: 0 <= j < |users| ==> after[j].id == users[j].id;
    SameFind(users, after, x);
  }

  lemma SameFind(a: seq<Account>, b: seq<Account>, x: int)
    requires |a| == |b| && forall j :: 0 <= j < |a| ==> a[j].id == b[j].id
    ensures FindUser(a, x) == FindUser(b, x)
  {
    var ra, rb := FindUser(a, x), FindUser(b, x);
    if ra.Some? && rb.Some? {
      assert !(ra.value < rb.value) && !(rb.value < ra.value);
    }
  }

  lemma FindRequestAfterUpdate(requests: seq<AccessRow>, k: nat, q: AccessRow, x: int)
    requires k < |requests| && q.id == requests[k].id
    ensures FindRequest(requests[k := q], x) == FindRequest(requests, x)
  {
    var a, b := requests, requests[k := q];
    var ra, rb := FindRequest(a, x), FindRequest(b, x);
    assert forall j :: 0 <= j < |a| ==> a[j].id == b[j].id;
    if ra.Some? && rb.Some? {
      assert !(ra.value < rb.value) && !(rb.value < ra.value);
    }
  }

  /** With the tables valid every request has an applicant, so a decision never answers
      `Unknown` for the applicant's email. */
  lemma ApplicantIsKnown(db: Db, me: int, requestId: int, now: int)
    requires Valid(db) && MayDecide(db, me, requestId)
    ensures var reply := Approve(db, me, requestId, now).0;
      var q := db.requests[FindRequest(db.requests, requestId).value];
      FindUser(db.users, q.userId).Some?
      && "user_email" in reply.body && reply.body["user_email"] == Str(db.users[FindUser(db.users, q.userId).value].email)
  {
    var k := FindRequest(db.requests, requestId).value;
    assert db.requests[k] in db.requests;
    var uid := db.requests[k].userId;
    FindUserAfterUpdate(db.users, uid, Activated(me, now), uid);
  }

  /** The account an approval activates can then sign in with its password. */
  lemma ApprovedApplicantCanSignIn(db: Db, me: int, requestId: int, now: int, u: Account, accessToken: string)
    requires Valid(db) && MayDecide(db, me, requestId) && u in db.users
    requires u.id == db.requests[FindRequest(db.requests, requestId).value].userId
    ensures Accounts.Login(Approve(db, me, requestId, now).1, Some(Accounts.Credentials(u.email, u.password)), accessToken).code == 200
  {
    ApproveKeepsValid(db, me, requestId, now);
    var after := Approve(db, me, requestId, now).1;
    var j :| 0 <= j < |db.users| && db.users[j] == u;
    var k := FindUser(db.users, u.id).value;
    assert k == j;
    var v := after.users[j];
    assert v == u.(status := "active", approvedAt := Some(now), approvedBy := Some(me));
    assert v in after.users;
    Accounts.LoginDispatch(after, v, u.password, accessToken);
  }

  /** The account a rejection names is refused at sign-in with the rejected reply. */
  lemma RejectedApplicantIsRefused(db: Db, me: int, requestId: int, data: Body, now: int, u: Account, accessToken: string)
    requires Valid(db) && MayDecide(db, me, requestId) && u in db.users
    requires u.id == db.requests[FindRequest(db.requests, requestId).value].userId
    ensures var reply := Accounts.Login(Reject(db, me, requestId, Some(data), now).1,
      Some(Accounts.Credentials(u.email, u.password)), accessToken);
      reply.code == 403 && "status" in reply.body && reply.body["status"] == Str("rejected")
  {
    RejectKeepsValid(db, me, requestId, Some(data), now);
    var after := Reject(db, me, requestId, Some(data), now).1;
    var j :| 0 <= j < |db.users| && db.users[j] == u;
    var k := FindUser(db.users, u.id).value;
    assert k == j;
    var v := after.users[j];
    assert v == u.(status := "rejected");
    assert v in after.users;
    Accounts.LoginDispatch(after, v, u.password, accessToken);
    assert Accounts.Login(after, Some(Accounts.Credentials(u.email, u.password)), accessToken)
      == Accounts.StatusReply(v, accessToken);
  }

  /** Neither decision looks at the request's status: an approved request can be rejected
      afterwards. */
  lemma DecisionIgnoresStatus(db: Db, me: int, requestId: int, now: int, data: Body)
    requires MayDecide(db, me, requestId)
    ensures var after := Approve(db, me, requestId, now).1;
      MayDecide(after, me, requestId)
      && Reject(after, me, requestId, Some(data), now).0.code == 200
      && after.requests[FindRequest(db.requests, requestId).value].status == "approved"
  {
    var k := FindRequest(db.requests, requestId).value;
    var q := db.requests[k];
    var f := Activated(me, now);
    FindUserAfterUpdate(db.users, q.userId, f, me);
    FindRequestAfterUpdate(db.requests, k, q.(status := "approved", approverId := Some(me), approvedAt := Some(now)), requestId);
  }

  // ---------------------------------------------------------------------------
  // delete_user

  /** The signed-in user is an admin. */
  predicate IsAdmin(db: Db, me: int)
  {
    FindUser(db.users, me).Some? && db.users[FindUser(db.users, me).value].role == "admin"
  }

  predicate HasResets(resets: seq<ResetRow>, id: int) { exists x :: x in resets && x.userId == id }

  /** The accounts other than `id`. */
  function OtherThan(id: int): Account -> bool
  {
    (u: Account) => u.id != id
  }

  /** The requests not filed by `id`. */
  function NotFiledBy(id: int): AccessRow -> bool
  {
    (q: AccessRow) => q.userId != id
  }

  function ClearApprovedBy(id: int): Account -> Account
  {
    (u: Account) => u.(approvedBy := if u.approvedBy == Some(id) then None else u.approvedBy)
  }

  function ClearApprover(id: int): AccessRow -> AccessRow
  {
    (q: AccessRow) => q.(approverId := if q.approverId == Some(id) then None else q.approverId)
  }

  /** Deleting the account `id`: its access requests go with it, and references to it as
      approver are cleared. */
  function Deleted(db: Db, id: int): (r: Db)
    ensures forall j :: 0 <= j < |r.users| ==> r.users[j].id != id && r.users[j].approvedBy != Some(id)
    ensures forall j :: 0 <= j < |r.requests| ==> r.requests[j].userId != id && r.requests[j].approverId != Some(id)
    ensures r.resets == db.resets && r.plans == db.plans
  {
    db.(users := MapRows(Filter(db.users, OtherThan(id)), ClearApprovedBy(id)),
        requests := MapRows(Filter(db.requests, NotFiledBy(id)), ClearApprover(id)))
  }

  /** Every other account stays, with the deleted one cleared as its approver. */
  lemma DeletedKeepsOthers(db: Db, id: int, v: Account)
    requires v in db.users && v.id != id
    ensures ClearApprovedBy(id)(v) in Deleted(db, id).users
  {
    var kept := Filter(db.users, OtherThan(id));
    var j :| 0 <= j < |db.users| && db.users[j] == v;
    var m :| 0 <= m < |kept| && kept[m] == v;
    assert MapRows(kept, ClearApprovedBy(id))[m] == ClearApprovedBy(id)(v);
  }

  /** The accounts left after a deletion are exactly the others. */
  lemma DeletedAccounts(db: Db, id: int, x: int)
    ensures HasUser(Deleted(db, id).users, x) <==> HasUser(db.users, x) && x != id
  {
    var kept := Filter(db.users, OtherThan(id));
    var users := Deleted(db, id).users;
    if HasUser(users, x) {
      var u :| u in users && u.id == x;
      var m :| 0 <= m < |users| && users[m] == u;
      assert kept[m] in db.users;
    }
    if HasUser(db.users, x) && x != id {
      var v :| v in db.users && v.id == x;
      DeletedKeepsOthers(db, id, v);
    }
  }

  /** A deletion keeps the tables valid when the account has no reset rows. */
  lemma DeletedKeepsValid(db: Db, id: int)
    requires Valid(db) && !HasResets(db.resets, id)
    ensures Valid(Deleted(db, id))
  {
    var after := Deleted(db, id);
    var keptUsers := Filter(db.users, OtherThan(id));
    FilterDistinct(db.users, OtherThan(id), UserId);
    FilterDistinct(db.users, OtherThan(id), UserEmail);
    MapDistinct(keptUsers, ClearApprovedBy(id), UserId);
    MapDistinct(keptUsers, ClearApprovedBy(id), UserEmail);
    var keptRequests := Filter(db.requests, NotFiledBy(id));
    FilterDistinct(db.requests, NotFiledBy(id), RequestId);
    MapDistinct(keptRequests, ClearApprover(id), RequestId);
    forall x | x in after.resets ensures HasUser(after.users, x.userId) {
      DeletedAccounts(db, id, x.userId);
    }
    forall x | x in after.requests ensures HasUser(after.users, x.userId) {
      var m :| 0 <= m < |after.requests| && after.requests[m] == x;
      assert keptRequests[m] in db.requests;
      DeletedAccounts(db, id, x.userId);
    }
  }

  /** `delete_user`. Deleting an account would set `user_id` of its password-reset rows to
      null, which the `NOT NULL` column refuses; the error is answered with 400 and the
      transaction rolled back. */
  function DeleteUser(db: Db, me: int, userId: int): (r: (Reply, Db))
    ensures !IsAdmin(db, me) ==> r == (Error(403, "Insufficient permissions"), db)
    ensures IsAdmin(db, me) && userId == me ==> r == (Error(400, "Admins cannot delete themselves"), db)
    ensures IsAdmin(db, me) && userId != me && FindUser(db.users, userId).None? ==> r == (NotFound, db)
    ensures r.0.code == 200 <==>
      IsAdmin(db, me) && userId != me && FindUser(db.users, userId).Some? && !HasResets(db.resets, userId)
    ensures r.0.code == 200 ==> r.1 == Deleted(db, userId)
    ensures r.0.code != 200 ==> r.1 == db
  {
    if !IsAdmin(db, me) then (Error(403, "Insufficient permissions"), db)
    else if userId == me then (Error(400, "Admins cannot delete themselves"), db)
    else if FindUser(db.users, userId).None? then (NotFound, db)
    else if HasResets(db.resets, userId) then (Failed(400, ""), db)
    else (Reply(200, map["message" := Str("User deleted successfully")]), Deleted(db, userId))
  }
}
