/** The server's database as one object whose tables the endpoints change in place, as the
    SQLAlchemy session does: each endpoint adds, updates or deletes rows and commits, or
    changes nothing. Every method is proved to leave exactly the tables, and send exactly
    the reply, that the endpoint's function in `Accounts`, `Approvals` or `PlanRules`
    describes, and to keep the tables valid. */
module Endpoints {
  import opened Wrappers
  import opened Store
  import Accounts
  import Approvals
  import PlanRules

  class Server {
    var users: seq<Account>
    var resets: seq<ResetRow>
    var requests: seq<AccessRow>
    var plans: seq<PlanRow>

    /** The tables as one value. */
    function Tables(): Db
      reads this
    {
      Db(users, resets, requests, plans)
    }

    /** `db.create_all()` on an empty database. */
    constructor()
      ensures Tables() == Db([], [], [], []) && Valid(Tables())
    {
      users, resets, requests, plans := [], [], [], [];
    }

    /** The reset rows left when the user's unused tokens are deleted one at a time. */
    static method DeleteUnusedOf(rows: seq<ResetRow>, userId: int) returns (kept: seq<ResetRow>)
      ensures kept == WithoutUnusedOf(rows, userId)
    {
      kept := [];
      var i := 0;
      while i < |rows|
        invariant 0 <= i <= |rows|
        invariant kept == Filter(rows[..i], KeptFrom(userId))
      {
        FilterStep(rows, i, KeptFrom(userId));
        if KeptFrom(userId)(rows[i]) {
          kept := kept + [rows[i]];
        }
        i := i + 1;
      }
      assert rows[..i] == rows;
    }

    /** The accounts other than `userId`, each with `userId` cleared as its approver. */
    static method KeepOthers(rows: seq<Account>, userId: int) returns (kept: seq<Account>)
      ensures kept == MapRows(Filter(rows, Approvals.OtherThan(userId)), Approvals.ClearApprovedBy(userId))
    {
      kept := [];
      var i := 0;
      while i < |rows|
        invariant 0 <= i <= |rows|
        invariant kept == MapRows(Filter(rows[..i], Approvals.OtherThan(userId)), Approvals.ClearApprovedBy(userId))
      {
        FilterStep(rows, i, Approvals.OtherThan(userId));
        if Approvals.OtherThan(userId)(rows[i]) {
          MapRowsAppend(Filter(rows[..i], Approvals.OtherThan(userId)), rows[i], Approvals.ClearApprovedBy(userId));
          kept := kept + [Approvals.ClearApprovedBy(userId)(rows[i])];
        }
        i := i + 1;
      }
      assert rows[..i] == rows;
    }

    /** The access requests not filed by `userId`, each with `userId` cleared as approver. */
    static method KeepOtherRequests(rows: seq<AccessRow>, userId: int) returns (kept: seq<AccessRow>)
      ensures kept == MapRows(Filter(rows, Approvals.NotFiledBy(userId)), Approvals.ClearApprover(userId))
    {
      kept := [];
      var i := 0;
      while i < |rows|
        invariant 0 <= i <= |rows|
        invariant kept == MapRows(Filter(rows[..i], Approvals.NotFiledBy(userId)), Approvals.ClearApprover(userId))
      {
        FilterStep(rows, i, Approvals.NotFiledBy(userId));
        if Approvals.NotFiledBy(userId)(rows[i]) {
          MapRowsAppend(Filter(rows[..i], Approvals.NotFiledBy(userId)), rows[i], Approvals.ClearApprover(userId));
          kept := kept + [Approvals.ClearApprover(userId)(rows[i])];
        }
        i := i + 1;
      }
      assert rows[..i] == rows;
    }

    /** `register`: the new account and its access request are added. */
    method Register(data: Option<Body>) returns (reply: Reply)
      modifies this
      ensures (reply, Tables()) == Accounts.Register(old(Tables()), data)
      ensures old(Valid(Tables())) ==> Valid(Tables())
    {
      ghost var before := Tables();
      reply := Accounts.Register(Tables(), data).0;
      if reply.code == 201 {
        var account := Accounts.NewAccount(Tables(), data.value);
        var request := Accounts.NewRequest(Tables(), data.value);
        users := users + [account];
        requests := requests + [request];
      }
      if Valid(before) {
        Accounts.RegisterKeepsValid(before, data);
      }
    }

    /** `forgot_password`: the user's unused tokens are deleted and the new one added. */
    method ForgotPassword(data: Option<Body>, token: string, now: int) returns (reply: Reply)
      modifies this
      ensures (reply, Tables()) == Accounts.ForgotPassword(old(Tables()), data, token, now)
      ensures old(Valid(Tables())) ==> Valid(Tables())
    {
      ghost var before := Tables();
      reply := Accounts.ForgotPassword(Tables(), data, token, now).0;
      if reply.code == 200 {
        var userId := users[Accounts.NamedAccount(Tables(), data.value).value].id;
        var kept := DeleteUnusedOf(resets, userId);
        resets := kept + [ResetRow(userId, token, now + Accounts.ResetLifetime, false)];
      }
      if Valid(before) {
        Accounts.ForgotPasswordKeepsValid(before, data, token, now);
      }
    }

    /** `reset_password`: the password is set, the token marked used, and the owner's other
        unused tokens deleted. */
    method ResetPassword(data: Option<Body>, now: int) returns (reply: Reply)
      modifies this
      ensures (reply, Tables()) == Accounts.ResetPassword(old(Tables()), data, now)
      ensures old(Valid(Tables())) ==> Valid(Tables())
    {
      ghost var before := Tables();
      var outcome := Accounts.ResetPassword(Tables(), data, now);
      reply := outcome.0;
      if reply.code == 200 {
        Accounts.ResetTables(before, data, now);
        var k := FindUnusedReset(resets, Accounts.TokenOf(data.value)).value;
        var i := FindUser(users, resets[k].userId).value;
        ApplyReset(i, k, data.value["new_password"]);
      }
      if Valid(before) {
        Accounts.ResetPasswordKeepsValid(before, data, now);
      }
    }

    /** The update of a successful reset: the password is set, the token marked used, and
        the owner's other unused tokens deleted one at a time. */
    method ApplyReset(i: nat, k: nat, password: string)
      requires i < |users| && k < |resets|
      modifies this
      ensures Tables() == Accounts.AfterReset(old(Tables()), i, k, password)
    {
      var owner := resets[k].userId;
      users := users[i := users[i].(password := password)];
      resets := resets[k := resets[k].(used := true)];
      resets := DeleteUnusedOf(resets, owner);
    }

    /** `approve_access_request`: the request is approved and its applicant activated. */
    method Approve(me: int, requestId: int, now: int) returns (reply: Reply)
      modifies this
      ensures (reply, Tables()) == Approvals.Approve(old(Tables()), me, requestId, now)
      ensures old(Valid(Tables())) ==> Valid(Tables())
    {
      ghost var before := Tables();
      var outcome := Approvals.Approve(Tables(), me, requestId, now);
      reply := outcome.0;
      if reply.code == 200 {
        var k := FindRequest(requests, requestId).value;
        Decide(k, requests[k].(status := "approved", approverId := Some(me), approvedAt := Some(now)),
          Approvals.Activated(me, now));
      }
      if Valid(before) {
        Approvals.ApproveKeepsValid(before, me, requestId, now);
      }
    }

    /** `reject_access_request`: the request is rejected with its reason, and so is its
        applicant. */
    method Reject(me: int, requestId: int, data: Option<Body>, now: int) returns (reply: Reply)
      modifies this
      ensures (reply, Tables()) == Approvals.Reject(old(Tables()), me, requestId, data, now)
      ensures old(Valid(Tables())) ==> Valid(Tables())
    {
      ghost var before := Tables();
      var outcome := Approvals.Reject(Tables(), me, requestId, data, now);
      reply := outcome.0;
      if reply.code == 200 {
        var k := FindRequest(requests, requestId).value;
        var reason := Get(data.value, "rejection_reason", "No reason provided");
        Decide(k, requests[k].(status := "rejected", approverId := Some(me), rejectedAt := Some(now),
          rejectionReason := Some(reason)), Approvals.MarkedRejected());
      }
      if Valid(before) {
        Approvals.RejectKeepsValid(before, me, requestId, data, now);
      }
    }

    /** The update of a decision: the request at `k` is replaced by `row`, and its
        applicant, when the account exists, is changed by `f`. */
    method Decide(k: nat, row: AccessRow, f: Account -> Account)
      requires k < |requests|
      modifies this
      ensures Tables() == old(Tables()).(users := Approvals.UpdateUser(old(users), old(requests[k].userId), f),
        requests := old(requests)[k := row])
    {
      var applicant := requests[k].userId;
      requests := requests[k := row];
      var j := FindUser(users, applicant);
      if j.Some? {
        users := users[j.value := f(users[j.value])];
      }
    }

    /** `delete_user`: the account and its access requests are deleted and the references to
        it as approver cleared, row by row. */
    method DeleteUser(me: int, userId: int) returns (reply: Reply)
      modifies this
      ensures (reply, Tables()) == Approvals.DeleteUser(old(Tables()), me, userId)
      ensures old(Valid(Tables())) ==> Valid(Tables())
    {
      ghost var before := Tables();
      var outcome := Approvals.DeleteUser(Tables(), me, userId);
      reply := outcome.0;
      if reply.code == 200 {
        RemoveUser(userId);
        if Valid(before) {
          Approvals.DeletedKeepsValid(before, userId);
        }
      }
    }

    /** The update of a deletion. */
    method RemoveUser(userId: int)
      modifies this
      ensures Tables() == Approvals.Deleted(old(Tables()), userId)
    {
      users := KeepOthers(users, userId);
      requests := KeepOtherRequests(requests, userId);
    }

    /** `create_succession_plan`: the new plan is added. */
    method CreatePlan(me: int, data: Option<Body>) returns (reply: Reply)
      modifies this
      ensures (reply, Tables()) == PlanRules.CreatePlan(old(Tables()), me, data)
      ensures old(Valid(Tables())) ==> Valid(Tables())
    {
      ghost var before := Tables();
      var outcome := PlanRules.CreatePlan(Tables(), me, data);
      reply := outcome.0;
      if reply.code == 201 {
        AddPlan(PlanRules.NewPlan(NextKey(plans, PlanId), data.GetOr(map[])).value);
      }
      if Valid(before) {
        PlanRules.CreatePlanKeepsValid(before, me, data);
      }
    }

    /** `db.session.add` of a plan. */
    method AddPlan(plan: PlanRow)
      modifies this
      ensures Tables() == old(Tables()).(plans := old(plans) + [plan])
    {
      plans := plans + [plan];
    }

    /** `update_succession_plan`: the named fields of the plan are set. */
    method UpdatePlan(me: int, planId: int, data: Option<Body>) returns (reply: Reply)
      modifies this
      ensures (reply, Tables()) == PlanRules.UpdatePlan(old(Tables()), me, planId, data)
      ensures old(Valid(Tables())) ==> Valid(Tables())
    {
      ghost var before := Tables();
      reply := PlanRules.UpdatePlan(Tables(), me, planId, data).0;
      if reply.code == 200 {
        var k := FindPlan(plans, planId).value;
        plans := plans[k := PlanRules.Updated(plans[k], data.GetOr(map[])).value];
      }
      if Valid(before) {
        PlanRules.UpdatePlanKeepsValid(before, me, planId, data);
      }
    }
  }
}
