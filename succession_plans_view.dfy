/** The succession plans page (`SuccessionPlans`): HR users only. Plans are listed with the
    title of their role, filtered by a search term and a readiness level, and created,
    edited and deleted through a dialog. Server answers are inputs. */
module SuccessionPlansView {
  import opened Wrappers
  import opened Text
  import Store
  import Session
  import Layout
  import Dates
  import PythonInt
  import PlanRules
  import RolesView

  /** A plan as `get_succession_plans` lists it: the retirement date is an ISO date or null. */
  datatype ClientPlan = ClientPlan(
    id: int, roleId: int, incumbentName: string, employeeId: string, tenure: int,
    retirementDate: Option<string>, readiness: string)

  /** A stored plan whose retirement date, if any, is a calendar date, as every date the
      server stores comes from `strptime`. */
  predicate WellDated(p: Store.PlanRow)
  {
    p.retirementDate.Some? ==> Dates.IsValidDate(p.retirementDate.value)
  }

  /** The listing's row for a stored plan. */
  function ClientOf(p: Store.PlanRow): (c: ClientPlan)
    requires WellDated(p)
    ensures c.id == p.id && c.roleId == p.roleId && c.tenure == p.tenure && c.readiness == p.readiness
    ensures c.incumbentName == p.incumbentName && c.employeeId == p.employeeId
    ensures c.retirementDate.None? <==> p.retirementDate.None?
    ensures c.retirementDate.Some? ==> Dates.Strptime(c.retirementDate.value) == p.retirementDate
  {
    if p.retirementDate.None? then
      ClientPlan(p.id, p.roleId, p.incumbentName, p.employeeId, p.tenure, None, p.readiness)
    else
      Dates.StrptimeOfIsoFormat(p.retirementDate.value);
      ClientPlan(p.id, p.roleId, p.incumbentName, p.employeeId, p.tenure,
        Some(Dates.IsoFormat(p.retirementDate.value)), p.readiness)
  }

  function HasRoleId(roleId: int): RolesView.RoleRecord -> bool
  {
    (role: RolesView.RoleRecord) => role.id == roleId
  }

  /** `getRoleTitle`: the title of the first role with the plan's role id, or `Unknown Role`. */
  function RoleTitle(roles: seq<RolesView.RoleRecord>, roleId: int): (r: string)
    ensures (forall i :: 0 <= i < |roles| ==> roles[i].id != roleId) ==> r == "Unknown Role"
    ensures forall i :: 0 <= i < |roles| && roles[i].id == roleId && (forall j :: 0 <= j < i ==> roles[j].id != roleId) ==>
      r == roles[i].title
  {
    match Store.FindFirst(roles, HasRoleId(roleId))
    case None => "Unknown Role"
    case Some(i) => roles[i].title
  }

  /** The search term matches the incumbent's name or the role's title, ignoring case; the
      readiness filter, when set, must equal the plan's readiness level. */
  predicate PlanMatches(roles: seq<RolesView.RoleRecord>, plan: ClientPlan, search: string, readiness: string)
  {
    (Contains(Lower(plan.incumbentName), Lower(search)) || Contains(Lower(RoleTitle(roles, plan.roleId)), Lower(search)))
    && (readiness == "" || plan.readiness == readiness)
  }

  function PlanFilter(roles: seq<RolesView.RoleRecord>, search: string, readiness: string): ClientPlan -> bool
  {
    (plan: ClientPlan) => PlanMatches(roles, plan, search, readiness)
  }

  /** `filteredPlans`: the matching plans, in the server's order. */
  function FilteredPlans(plans: seq<ClientPlan>, roles: seq<RolesView.RoleRecord>, search: string, readiness: string)
    : (r: seq<ClientPlan>)
    ensures forall x :: x in r ==> x in plans && PlanMatches(roles, x, search, readiness)
    ensures forall x :: x in plans && PlanMatches(roles, x, search, readiness) ==> x in r
  {
    Store.Filter(plans, PlanFilter(roles, search, readiness))
  }

  /** With no search term and no readiness level every plan is listed. */
  lemma NoFilterListsAll(plans: seq<ClientPlan>, roles: seq<RolesView.RoleRecord>)
    ensures FilteredPlans(plans, roles, "", "") == plans
  {
    forall i | 0 <= i < |plans| ensures PlanFilter(roles, "", "")(plans[i]) {
      ContainsEmpty(Lower(plans[i].incumbentName));
    }
    Store.FilterAll(plans, PlanFilter(roles, "", ""));
  }

  /** A plan whose role is not among the loaded roles is found by searching for the
      placeholder title. */
  lemma UnknownRoleMatchesItsPlaceholder(plans: seq<ClientPlan>, roles: seq<RolesView.RoleRecord>, plan: ClientPlan)
    requires plan in plans
    requires forall i :: 0 <= i < |roles| ==> roles[i].id != plan.roleId
    ensures plan in FilteredPlans(plans, roles, "Unknown Role", "")
  {
    var t := Lower(RoleTitle(roles, plan.roleId));
    assert t[0..|t|] == t;
    assert OccursAt(t, t, 0);
  }

  /** `getReadinessColor`: the three levels each have a colour, anything else is grey. */
  function ReadinessColor(readiness: string): (r: string)
    ensures readiness == "Ready Now" ==> r == "text-green-600 bg-green-100"
    ensures readiness == "1-2 years" ==> r == "text-yellow-600 bg-yellow-100"
    ensures readiness == "3-5 years" ==> r == "text-blue-600 bg-blue-100"
    ensures readiness !in {"Ready Now", "1-2 years", "3-5 years"} ==> r == "text-gray-600 bg-gray-100"
  {
    match readiness
    case "Ready Now" => "text-green-600 bg-green-100"
    case "1-2 years" => "text-yellow-600 bg-yellow-100"
    case "3-5 years" => "text-blue-600 bg-blue-100"
    case _ => "text-gray-600 bg-gray-100"
  }

  /** The dialog's fields, held as the text the inputs show. */
  datatype PlanForm = PlanForm(
    roleId: string, incumbentName: string, employeeId: string, tenure: string,
    retirementDate: string, readiness: string)

  const EmptyPlanForm := PlanForm("", "", "", "", "", "1-2 years")

  /** `handleEdit`'s form: a plan without a retirement date leaves the date input empty. */
  function FormOfPlan(plan: ClientPlan): (f: PlanForm)
    ensures f.incumbentName == plan.incumbentName && f.employeeId == plan.employeeId && f.readiness == plan.readiness
    ensures f.retirementDate == plan.retirementDate.GetOr("")
  {
    PlanForm(IntToString(plan.roleId), plan.incumbentName, plan.employeeId, IntToString(plan.tenure),
      plan.retirementDate.GetOr(""), plan.readiness)
  }

  /** The server's `int()` reads the form's role id and tenure back as the plan's numbers. */
  lemma FormNumbersReadBack(plan: ClientPlan)
    ensures PythonInt.ParseInt(FormOfPlan(plan).roleId) == Some(plan.roleId)
    ensures PythonInt.ParseInt(FormOfPlan(plan).tenure) == Some(plan.tenure)
  {
    PythonInt.ParseIntOfIntToString(plan.roleId);
    PythonInt.ParseIntOfIntToString(plan.tenure);
  }

  /** The JSON body the dialog sends: every field, under the server's names. */
  function BodyOf(f: PlanForm): (d: Store.Body)
    ensures d.Keys == {"role_id", "incumbent_name", "incumbent_employee_id", "incumbent_tenure", "retirement_date", "readiness_level"}
    ensures d["role_id"] == f.roleId && d["incumbent_name"] == f.incumbentName
    ensures d["incumbent_employee_id"] == f.employeeId && d["incumbent_tenure"] == f.tenure
    ensures d["retirement_date"] == f.retirementDate && d["readiness_level"] == f.readiness
  {
    map["role_id" := f.roleId, "incumbent_name" := f.incumbentName, "incumbent_employee_id" := f.employeeId,
        "incumbent_tenure" := f.tenure, "retirement_date" := f.retirementDate, "readiness_level" := f.readiness]
  }

  /** The browser submits the dialog only when every `required` input is filled; the
      retirement date is optional. */
  predicate Submittable(f: PlanForm)
  {
    f.roleId != "" && f.incumbentName != "" && f.employeeId != "" && f.tenure != "" && f.readiness != ""
  }

  /** Opening a stored plan in the dialog and saving it unchanged stores the same plan, when
      its name and employee id are already stripped (as the server stores them). */
  lemma SavingAnUneditedPlanKeepsIt(p: Store.PlanRow)
    requires WellDated(p)
    requires PyStrip(p.incumbentName) == p.incumbentName && PyStrip(p.employeeId) == p.employeeId
    ensures PlanRules.Updated(p, BodyOf(FormOfPlan(ClientOf(p)))) == Some(p)
  {
    var d := BodyOf(FormOfPlan(ClientOf(p)));
    FormNumbersReadBack(ClientOf(p));
    var u := PlanRules.Updated(p, d);
    assert u.Some?;
    assert u.value.retirementDate == p.retirementDate by {
      if p.retirementDate.None? {
        assert d["retirement_date"] == "";
      } else {
        Dates.StrptimeOfIsoFormat(p.retirementDate.value);
        assert d["retirement_date"] == Dates.IsoFormat(p.retirementDate.value);
      }
    }
  }

  /** Creating a plan from a stored plan's form stores the same plan under the new id. */
  lemma CreatingFromAPlanCopiesIt(p: Store.PlanRow, id: int)
    requires WellDated(p)
    requires PyStrip(p.incumbentName) == p.incumbentName && PyStrip(p.employeeId) == p.employeeId
    ensures PlanRules.NewPlan(id, BodyOf(FormOfPlan(ClientOf(p)))) == Some(p.(id := id))
  {
    var d := BodyOf(FormOfPlan(ClientOf(p)));
    FormNumbersReadBack(ClientOf(p));
    var n := PlanRules.NewPlan(id, d);
    assert n.Some?;
    assert n.value.retirementDate == p.retirementDate by {
      if p.retirementDate.None? {
        assert d["retirement_date"] == "";
      } else {
        Dates.StrptimeOfIsoFormat(p.retirementDate.value);
        assert d["retirement_date"] == Dates.IsoFormat(p.retirementDate.value);
      }
    }
  }

  /** The request a submit sends. */
  datatype PlanCall = NoCall | Create(body: Store.Body) | Update(id: int, body: Store.Body)

  class SuccessionPlansPage {
    var plans: seq<ClientPlan>
    var roles: seq<RolesView.RoleRecord>
    var loading: bool
    var showModal: bool
    var editing: Option<ClientPlan>
    var searchTerm: string
    var filterReadiness: string
    var form: PlanForm

    constructor()
      ensures plans == [] && roles == [] && loading && !showModal && editing.None?
      ensures searchTerm == "" && filterReadiness == "" && form == EmptyPlanForm
    {
      plans, roles, loading, showModal, editing := [], [], true, false, None;
      searchTerm, filterReadiness, form := "", "", EmptyPlanForm;
    }

    /** The effect on arriving: only an HR user's page fetches the plans and roles and reads
        the navigation state; anyone else sees only the access-denied notice. */
    method Arrive(user: Option<Session.User>, openCreate: bool, presetSearch: Option<string>) returns (fetch: bool)
      modifies this
      ensures fetch == Layout.HasHrAccess(user)
      ensures showModal == ((fetch && openCreate) || old(showModal))
      ensures searchTerm == if fetch && presetSearch.Some? && presetSearch.value != "" then presetSearch.value else old(searchTerm)
      ensures plans == old(plans) && roles == old(roles) && loading == old(loading) && editing == old(editing)
      ensures filterReadiness == old(filterReadiness) && form == old(form)
    {
      fetch := Layout.HasHrAccess(user);
      if !fetch {
        return;
      }
      if openCreate {
        showModal := true;
      }
      if presetSearch.Some? && presetSearch.value != "" {
        searchTerm := presetSearch.value;
      }
    }

    /** `fetchData` finishing: both lists arrive together, or neither when either request
        failed; the spinner stops either way. */
    method Loaded(answer: Option<(seq<ClientPlan>, seq<RolesView.RoleRecord>)>)
      modifies this
      ensures plans == (if answer.Some? then answer.value.0 else old(plans))
      ensures roles == (if answer.Some? then answer.value.1 else old(roles))
      ensures !loading
      ensures showModal == old(showModal) && editing == old(editing) && form == old(form)
      ensures searchTerm == old(searchTerm) && filterReadiness == old(filterReadiness)
    {
      if answer.Some? {
        plans, roles := answer.value.0, answer.value.1;
      }
      loading := false;
    }

    /** The Add button opens the dialog on whatever the form holds. */
    method OpenCreate()
      modifies this
      ensures showModal
      ensures plans == old(plans) && roles == old(roles) && loading == old(loading) && editing == old(editing)
      ensures searchTerm == old(searchTerm) && filterReadiness == old(filterReadiness) && form == old(form)
    {
      showModal := true;
    }

    /** `resetForm` empties the form but does not forget the plan being edited. */
    method ResetForm()
      modifies this
      ensures form == EmptyPlanForm
      ensures plans == old(plans) && roles == old(roles) && loading == old(loading) && editing == old(editing)
      ensures showModal == old(showModal) && searchTerm == old(searchTerm) && filterReadiness == old(filterReadiness)
    {
      form := EmptyPlanForm;
    }

    /** `handleEdit`. */
    method Edit(plan: ClientPlan)
      modifies this
      ensures editing == Some(plan) && form == FormOfPlan(plan) && showModal
      ensures plans == old(plans) && roles == old(roles) && loading == old(loading)
      ensures searchTerm == old(searchTerm) && filterReadiness == old(filterReadiness)
    {
      var f := FormOfPlan(plan);
      editing, form, showModal := Some(plan), f, true;
    }

    /** `handleSubmit`, reached only when the browser lets the form through. An edit updates
        the plan being edited, otherwise a plan is created; the form is sent as it is. A
        success closes and resets the dialog and fetches again; a failure changes nothing. */
    method Submit(succeeded: bool) returns (call: PlanCall, refetch: bool)
      modifies this
      ensures call.NoCall? <==> !Submittable(old(form))
      ensures call.Create? <==> Submittable(old(form)) && old(editing).None?
      ensures call.Update? ==> call == Update(old(editing).value.id, BodyOf(old(form)))
      ensures call.Create? ==> call.body == BodyOf(old(form))
      ensures refetch <==> !call.NoCall? && succeeded
      ensures refetch ==> !showModal && editing.None? && form == EmptyPlanForm
      ensures !refetch ==> showModal == old(showModal) && editing == old(editing) && form == old(form)
      ensures plans == old(plans) && roles == old(roles) && loading == old(loading)
      ensures searchTerm == old(searchTerm) && filterReadiness == old(filterReadiness)
    {
      if !Submittable(form) {
        return NoCall, false;
      }
      call := if editing.Some? then Update(editing.value.id, BodyOf(form)) else Create(BodyOf(form));
      refetch := succeeded;
      if succeeded {
        showModal := false;
        editing := None;
        ResetForm();
      }
    }

    /** `handleDelete`: the deletion is sent only once confirmed; a success fetches again. */
    method Delete(planId: int, confirmed: bool, succeeded: bool) returns (call: Option<int>, refetch: bool)
      ensures call.Some? <==> confirmed
      ensures call.Some? ==> call.value == planId
      ensures refetch <==> call.Some? && succeeded
    {
      call := if confirmed then Some(planId) else None;
      refetch := confirmed && succeeded;
    }

    /** The dialog's Cancel button: closes it and forgets the plan being edited. */
    method Cancel()
      modifies this
      ensures !showModal && editing.None? && form == EmptyPlanForm
      ensures plans == old(plans) && roles == old(roles) && loading == old(loading)
      ensures searchTerm == old(searchTerm) && filterReadiness == old(filterReadiness)
    {
      showModal := false;
      editing := None;
      ResetForm();
    }
  }
}
