/** The field rules of `create_succession_plan` and `update_succession_plan`: which fields
    are required, how they are coerced (`int()`, `str.strip()`, the optional-date parse) and
    what is stored. Only HR users may manage plans. */
module PlanRules {
  import opened Wrappers
  import opened Text
  import opened Store
  import HrAccess
  import PythonInt
  import Dates

  const DeniedText := "Access denied. HR access required to manage succession plans."

  /** The required fields, in the order the error message lists them. */
  const RequiredFields: seq<string> :=
    ["role_id", "incumbent_name", "incumbent_employee_id", "incumbent_tenure", "readiness_level"]

  /** A field is missing when it is absent or only whitespace, so that `str.strip()` leaves
      nothing (`BlankIsMissing`). */
  predicate IsMissing(d: Body, f: string)
  {
    var v := Get(d, f, "");
    forall i :: 0 <= i < |v| ==> IsPyWhitespace(v[i])
  }

  /** The fields of `fields` that are missing, in order. */
  function MissingOf(d: Body, fields: seq<string>): (r: seq<string>)
    ensures forall i :: 0 <= i < |r| ==> r[i] in fields && IsMissing(d, r[i])
    ensures forall i :: 0 <= i < |fields| && IsMissing(d, fields[i]) ==> fields[i] in r
    ensures (forall i :: 0 <= i < |fields| ==> IsMissing(d, fields[i])) ==> r == fields
  {
    if fields == [] then []
    else
      var head := if IsMissing(d, fields[0]) then [fields[0]] else [];
      var rest := MissingOf(d, fields[1..]);
      assert forall i :: 1 <= i < |fields| ==> fields[i] == fields[1..][i - 1];
      assert forall x :: x in rest ==> x in head + rest;
      head + rest
  }

  /** The missing required fields, in order. */
  function MissingFields(d: Body): seq<string>
  {
    MissingOf(d, RequiredFields)
  }

  /** The role check of both endpoints: a missing current user raises before any `try`. */
  function Gate(db: Db, me: int): (r: Option<Reply>)
    ensures FindUser(db.users, me).None? ==> r == Some(Uncaught)
    ensures r.None? <==> FindUser(db.users, me).Some? && HrAccess.HasHrAccess(db.users[FindUser(db.users, me).value].role)
    ensures r.Some? && FindUser(db.users, me).Some? ==> r == Some(Error(403, DeniedText))
  {
    match FindUser(db.users, me)
    case None => Some(Uncaught)
    case Some(i) => if HrAccess.HasHrAccess(db.users[i].role) then None else Some(Error(403, DeniedText))
  }

  /** The integer columns of a plan fit SQLite's 64-bit `INTEGER`; otherwise the commit
      raises, the `except` rolls back and answers 400. */
  predicate Storable(p: PlanRow)
  {
    FitsInteger(p.roleId) && FitsInteger(p.tenure)
  }

  /** The plan a create request stores, once the required fields are present and the two
      numbers parse. */
  function NewPlan(id: int, d: Body): (r: Option<PlanRow>)
    ensures r.Some? <==> PythonInt.ParseInt(Get(d, "role_id", "")).Some? && PythonInt.ParseInt(Get(d, "incumbent_tenure", "")).Some?
    ensures r.Some? ==>
      r.value.id == id && r.value.roleId == PythonInt.ParseInt(Get(d, "role_id", "")).value
      && r.value.tenure == PythonInt.ParseInt(Get(d, "incumbent_tenure", "")).value
      && r.value.incumbentName == PyStrip(Get(d, "incumbent_name", ""))
      && r.value.employeeId == PyStrip(Get(d, "incumbent_employee_id", ""))
      && r.value.readiness == Get(d, "readiness_level", "")
      && r.value.retirementDate == Dates.ParseOptionalDate(if "retirement_date" in d then Some(d["retirement_date"]) else None)
  {
    match (PythonInt.ParseInt(Get(d, "role_id", "")), PythonInt.ParseInt(Get(d, "incumbent_tenure", "")))
    case (Some(roleId), Some(tenure)) =>
      Some(PlanRow(id, roleId, PyStrip(Get(d, "incumbent_name", "")), PyStrip(Get(d, "incumbent_employee_id", "")),
        tenure, Dates.ParseOptionalDate(if "retirement_date" in d then Some(d["retirement_date"]) else None),
        Get(d, "readiness_level", "")))
    case _ => None
  }

  /** `create_succession_plan`. A body that is not a JSON object counts as `{}`; an `int()`
      that raises, and a number the commit cannot store, are answered with 400. */
  function CreatePlan(db: Db, me: int, data: Option<Body>): (r: (Reply, Db))
    ensures Gate(db, me).Some? ==> r == (Gate(db, me).value, db)
    ensures Gate(db, me).None? && MissingFields(data.GetOr(map[])) != [] ==>
      r == (Error(400, "Missing fields: " + Join(MissingFields(data.GetOr(map[])), ", ")), db)
    ensures r.0.code == 201 <==>
      Gate(db, me).None? && MissingFields(data.GetOr(map[])) == []
      && NewPlan(NextKey(db.plans, PlanId), data.GetOr(map[])).Some?
      && Storable(NewPlan(NextKey(db.plans, PlanId), data.GetOr(map[])).value)
    ensures (Gate(db, me).None? && MissingFields(data.GetOr(map[])) == []
             && NewPlan(NextKey(db.plans, PlanId), data.GetOr(map[])).Some?
             && !Storable(NewPlan(NextKey(db.plans, PlanId), data.GetOr(map[])).value)) ==>
      r == (Failed(400, ""), db)
    ensures r.0.code == 201 ==>
      r.1 == db.(plans := db.plans + [NewPlan(NextKey(db.plans, PlanId), data.GetOr(map[])).value])
      && "id" in r.0.body && r.0.body["id"] == Num(NextKey(db.plans, PlanId))
    ensures r.0.code != 201 ==> r.1 == db
  {
    match Gate(db, me)
    case Some(reply) => (reply, db)
    case None =>
      var d := data.GetOr(map[]);
      var missing := MissingFields(d);
      if missing != [] then (Error(400, "Missing fields: " + Join(missing, ", ")), db)
      else
        var id := NextKey(db.plans, PlanId);
        match NewPlan(id, d)
        case None => (Failed(400, ""), db)
        case Some(plan) =>
          if !Storable(plan) then (Failed(400, ""), db)
          else
          (Reply(201, map["message" := Str("Succession plan created successfully"), "id" := Num(id)]),
           db.(plans := db.plans + [plan]))
  }

  /** The fields an update names, coerced; `None` when an `int()` raises. */
  function Updated(p: PlanRow, d: Body): (r: Option<PlanRow>)
    ensures r.Some? <==>
      ("role_id" in d ==> PythonInt.ParseInt(d["role_id"]).Some?)
      && ("incumbent_tenure" in d ==> PythonInt.ParseInt(d["incumbent_tenure"]).Some?)
    ensures r.Some? ==> r.value.id == p.id
    ensures r.Some? ==> r.value.roleId == if "role_id" in d then PythonInt.ParseInt(d["role_id"]).value else p.roleId
    ensures r.Some? ==> r.value.tenure == if "incumbent_tenure" in d then PythonInt.ParseInt(d["incumbent_tenure"]).value else p.tenure
    ensures r.Some? ==> r.value.incumbentName == if "incumbent_name" in d then PyStrip(d["incumbent_name"]) else p.incumbentName
    ensures r.Some? ==> r.value.employeeId == if "incumbent_employee_id" in d then PyStrip(d["incumbent_employee_id"]) else p.employeeId
    ensures r.Some? ==>
      r.value.retirementDate == if "retirement_date" in d then Dates.ParseOptionalDate(Some(d["retirement_date"])) else p.retirementDate
    ensures r.Some? ==> r.value.readiness == if "readiness_level" in d then d["readiness_level"] else p.readiness
  {
    var roleId := if "role_id" in d then PythonInt.ParseInt(d["role_id"]) else Some(p.roleId);
    var tenure := if "incumbent_tenure" in d then PythonInt.ParseInt(d["incumbent_tenure"]) else Some(p.tenure);
    if roleId.None? || tenure.None? then None
    else
      Some(p.(
        roleId := roleId.value,
        incumbentName := if "incumbent_name" in d then PyStrip(d["incumbent_name"]) else p.incumbentName,
        employeeId := if "incumbent_employee_id" in d then PyStrip(d["incumbent_employee_id"]) else p.employeeId,
        tenure := tenure.value,
        retirementDate := if "retirement_date" in d then Dates.ParseOptionalDate(Some(d["retirement_date"])) else p.retirementDate,
        readiness := if "readiness_level" in d then d["readiness_level"] else p.readiness))
  }

  /** `update_succession_plan`. The lookup is inside the `try`, so a missing plan's `NotFound`
      is caught and answered with 400; any failure, a number the commit cannot store among them,
      rolls the whole update back. */
  function UpdatePlan(db: Db, me: int, planId: int, data: Option<Body>): (r: (Reply, Db))
    ensures Gate(db, me).Some? ==> r == (Gate(db, me).value, db)
    ensures Gate(db, me).None? && FindPlan(db.plans, planId).None? ==> r == (Failed(400, ""), db)
    ensures r.0.code == 200 <==>
      Gate(db, me).None? && FindPlan(db.plans, planId).Some?
      && Updated(db.plans[FindPlan(db.plans, planId).value], data.GetOr(map[])).Some?
      && Storable(Updated(db.plans[FindPlan(db.plans, planId).value], data.GetOr(map[])).value)
    ensures (Gate(db, me).None? && FindPlan(db.plans, planId).Some?
             && Updated(db.plans[FindPlan(db.plans, planId).value], data.GetOr(map[])).Some?
             && !Storable(Updated(db.plans[FindPlan(db.plans, planId).value], data.GetOr(map[])).value)) ==>
      r == (Failed(400, ""), db)
    ensures r.0.code == 200 ==>
      var k := FindPlan(db.plans, planId).value;
      r.1 == db.(plans := db.plans[k := Updated(db.plans[k], data.GetOr(map[])).value])
    ensures r.0.code != 200 ==> r.1 == db
  {
    match Gate(db, me)
    case Some(reply) => (reply, db)
    case None =>
      match FindPlan(db.plans, planId)
      case None => (Failed(400, ""), db)
      case Some(k) =>
        match Updated(db.plans[k], data.GetOr(map[]))
        case None => (Failed(400, ""), db)
        case Some(p) =>
          if !Storable(p) then (Failed(400, ""), db)
          else
          (Reply(200, map["message" := Str("Succession plan updated successfully")]), db.(plans := db.plans[k := p]))
  }

  // ---------------------------------------------------------------------------
  // Properties

  /** An empty or absent body names every required field, in order. */
  lemma EmptyBodyMissesEverything()
    ensures MissingFields(map[]) == RequiredFields
  {
    var d: Body := map[];
    assert forall i :: 0 <= i < |RequiredFields| ==> IsMissing(d, RequiredFields[i]);
  }

  /** A field is missing exactly when `str(data.get(f, '')).strip()` is empty. */
  lemma BlankIsMissing(d: Body, f: string)
    ensures IsMissing(d, f) <==> PyStrip(Get(d, f, "")) == ""
  {
    StripEmptyIffBlank(Get(d, f, ""), IsPyWhitespace);
  }

  /** Creating and updating keep the tables valid. */
  lemma CreatePlanKeepsValid(db: Db, me: int, data: Option<Body>)
    requires Valid(db)
    ensures Valid(CreatePlan(db, me, data).1)
  {
    var r := CreatePlan(db, me, data);
    if r.0.code == 201 {
      AppendDistinct(db.plans, NewPlan(NextKey(db.plans, PlanId), data.GetOr(map[])).value, PlanId);
    }
  }

  lemma UpdatePlanKeepsValid(db: Db, me: int, planId: int, data: Option<Body>)
    requires Valid(db)
    ensures Valid(UpdatePlan(db, me, planId, data).1)
  {
    var r := UpdatePlan(db, me, planId, data);
    if r.0.code == 200 {
      var k := FindPlan(db.plans, planId).value;
      UpdateDistinct(db.plans, k, Updated(db.plans[k], data.GetOr(map[])).value, PlanId);
    }
  }

  /** The plan a create stores can be read back under the id the reply gives. */
  lemma CreatedPlanIsFound(db: Db, me: int, data: Option<Body>)
    requires CreatePlan(db, me, data).0.code == 201
    ensures var id := NextKey(db.plans, PlanId);
      var after := CreatePlan(db, me, data).1;
      FindPlan(after.plans, id) == Some(|db.plans|) && after.plans[|db.plans|].id == id
  {
    var id := NextKey(db.plans, PlanId);
    var ps := CreatePlan(db, me, data).1.plans;
    assert ps == db.plans + [NewPlan(id, data.GetOr(map[])).value];
    FoundAtEnd(db.plans, NewPlan(id, data.GetOr(map[])).value);
  }

  /** A row whose id exceeds every id before it is found last. */
  lemma FoundAtEnd(plans: seq<PlanRow>, p: PlanRow)
    requires p.id == NextKey(plans, PlanId)
    ensures FindPlan(plans + [p], p.id) == Some(|plans|)
  {
    var ps := plans + [p];
    assert forall j :: 0 <= j < |plans| ==> ps[j].id < p.id;
    assert ps[|plans|].id == p.id;
  }

  /** Updating with the same fields twice is the same as once. */
  lemma {:induction false} UpdateIsIdempotent(p: PlanRow, d: Body)
    requires Updated(p, d).Some?
    ensures Updated(Updated(p, d).value, d) == Updated(p, d)
  {
    var q := Updated(p, d).value;
    if "incumbent_name" in d { StripIsIdempotent(d["incumbent_name"]); }
    if "incumbent_employee_id" in d { StripIsIdempotent(d["incumbent_employee_id"]); }
  }

  lemma StripIsIdempotent(s: string)
    ensures PyStrip(PyStrip(s)) == PyStrip(s)
  {
    var t := PyStrip(s);
    if t != [] {
      assert StripLeft(t, IsPyWhitespace) == t;
      assert StripRight(t, IsPyWhitespace) == t;
    }
  }

  /** An update without fields changes nothing. */
  lemma EmptyUpdateChangesNothing(p: PlanRow)
    ensures Updated(p, map[]) == Some(p)
  {
  }
}
