/** The roles page (`Roles`): everyone sees the list, filtered by a search term and a
    department; only HR users may create, edit or delete a role. Server answers are inputs. */
module RolesView {
  import opened Wrappers
  import opened Text
  import Store
  import Session
  import Layout

  /** A role as the server lists it; `name` may be null. */
  datatype RoleRecord = RoleRecord(
    id: int, title: string, name: Option<string>, department: string, businessLine: string, criticality: string)

  datatype RoleForm = RoleForm(title: string, name: string, department: string, businessLine: string, criticality: string)

  const EmptyForm := RoleForm("", "", "", "", "Medium")

  /** The search term matches the title or the department, ignoring case; the department
      filter, when set, must equal the department. */
  predicate Matches(role: RoleRecord, search: string, department: string)
  {
    (Contains(Lower(role.title), Lower(search)) || Contains(Lower(role.department), Lower(search)))
    && (department == "" || role.department == department)
  }

  function RoleFilter(search: string, department: string): RoleRecord -> bool
  {
    (role: RoleRecord) => Matches(role, search, department)
  }

  /** `filteredRoles`: the matching roles, in the server's order. */
  function FilteredRoles(roles: seq<RoleRecord>, search: string, department: string): (r: seq<RoleRecord>)
    ensures forall x :: x in r ==> x in roles && Matches(x, search, department)
    ensures forall x :: x in roles && Matches(x, search, department) ==> x in r
  {
    Store.Filter(roles, RoleFilter(search, department))
  }

  /** With no search term and no department every role is listed. */
  lemma NoFilterListsAll(roles: seq<RoleRecord>)
    ensures FilteredRoles(roles, "", "") == roles
  {
    forall i | 0 <= i < |roles| ensures RoleFilter("", "")(roles[i]) {
      ContainsEmpty(Lower(roles[i].title));
    }
    Store.FilterAll(roles, RoleFilter("", ""));
  }

  /** The search ignores the case of the term. */
  lemma SearchIgnoresCase(roles: seq<RoleRecord>, search: string, department: string)
    ensures FilteredRoles(roles, Lower(search), department) == FilteredRoles(roles, search, department)
  {
    LowerIsIdempotent(search);
    Store.FilterSame(roles, RoleFilter(Lower(search), department), RoleFilter(search, department));
  }

  /** `getCriticalityColor`: High, Medium and Low each have a colour, anything else is grey. */
  function CriticalityColor(criticality: string): (r: string)
    ensures criticality == "High" ==> r == "text-red-600 bg-red-100"
    ensures criticality == "Medium" ==> r == "text-yellow-600 bg-yellow-100"
    ensures criticality == "Low" ==> r == "text-green-600 bg-green-100"
    ensures criticality !in {"High", "Medium", "Low"} ==> r == "text-gray-600 bg-gray-100"
  {
    match criticality
    case "High" => "text-red-600 bg-red-100"
    case "Medium" => "text-yellow-600 bg-yellow-100"
    case "Low" => "text-green-600 bg-green-100"
    case _ => "text-gray-600 bg-gray-100"
  }

  /** The form filled from a role; a null name becomes empty. */
  function FormOf(role: RoleRecord): (f: RoleForm)
    ensures f.title == role.title && f.department == role.department && f.businessLine == role.businessLine
    ensures f.criticality == role.criticality && f.name == role.name.GetOr("")
  {
    RoleForm(role.title, role.name.GetOr(""), role.department, role.businessLine, role.criticality)
  }

  /** Every field of the form is filled. */
  predicate IsComplete(f: RoleForm)
  {
    f.title != "" && f.name != "" && f.department != "" && f.businessLine != "" && f.criticality != ""
  }

  /** The request a submit sends. */
  datatype RoleCall = NoCall | Create(form: RoleForm) | Update(id: int, form: RoleForm)

  class RolesPage {
    var roles: seq<RoleRecord>
    var loading: bool
    var showModal: bool
    var editing: Option<RoleRecord>
    var searchTerm: string
    var filterDepartment: string
    var form: RoleForm

    constructor()
      ensures roles == [] && loading && !showModal && editing.None? && searchTerm == "" && filterDepartment == ""
      ensures form == EmptyForm
    {
      roles, loading, showModal, editing := [], true, false, None;
      searchTerm, filterDepartment, form := "", "", EmptyForm;
    }

    /** The effect on arriving: the roles are fetched, and the navigation state may open the
        create dialog or preset the search. */
    method Arrive(openCreate: bool, presetSearch: Option<string>) returns (fetch: bool)
      modifies this
      ensures fetch
      ensures showModal == (openCreate || old(showModal))
      ensures searchTerm == if presetSearch.Some? && presetSearch.value != "" then presetSearch.value else old(searchTerm)
      ensures roles == old(roles) && loading == old(loading) && editing == old(editing)
      ensures filterDepartment == old(filterDepartment) && form == old(form)
    {
      fetch := true;
      if openCreate {
        showModal := true;
      }
      if presetSearch.Some? && presetSearch.value != "" {
        searchTerm := presetSearch.value;
      }
    }

    /** `fetchRoles` finishing; `None` when the request failed. */
    method Loaded(answer: Option<seq<RoleRecord>>)
      modifies this
      ensures roles == (if answer.Some? then answer.value else old(roles)) && !loading
      ensures showModal == old(showModal) && editing == old(editing) && form == old(form)
      ensures searchTerm == old(searchTerm) && filterDepartment == old(filterDepartment)
    {
      if answer.Some? {
        roles := answer.value;
      }
      loading := false;
    }

    /** `resetForm`. */
    method ResetForm()
      modifies this
      ensures form == EmptyForm && editing.None?
      ensures roles == old(roles) && loading == old(loading) && showModal == old(showModal)
      ensures searchTerm == old(searchTerm) && filterDepartment == old(filterDepartment)
    {
      form := EmptyForm;
      editing := None;
    }

    /** `handleEdit`: an HR user gets the dialog filled from the role; for anyone else the
        page changes nothing. */
    method Edit(user: Option<Session.User>, role: RoleRecord)
      modifies this
      ensures !Layout.HasHrAccess(user) ==> form == old(form) && editing == old(editing) && showModal == old(showModal)
      ensures Layout.HasHrAccess(user) ==> form == FormOf(role) && editing == Some(role) && showModal
      ensures roles == old(roles) && loading == old(loading)
      ensures searchTerm == old(searchTerm) && filterDepartment == old(filterDepartment)
    {
      if !Layout.HasHrAccess(user) {
        return;
      }
      editing := Some(role);
      form := FormOf(role);
      showModal := true;
    }

    /** `handleSubmit`. Nothing is sent without HR access or with an empty field; an edit
        updates the role being edited, otherwise a role is created. A success closes and
        resets the dialog and fetches the roles again. */
    method Submit(user: Option<Session.User>, succeeded: bool) returns (call: RoleCall, refetch: bool)
      modifies this
      ensures call.NoCall? <==> !Layout.HasHrAccess(user) || !IsComplete(old(form))
      ensures call.Create? <==> Layout.HasHrAccess(user) && IsComplete(old(form)) && old(editing).None?
      ensures call.Update? ==> call == Update(old(editing).value.id, old(form))
      ensures call.Create? ==> call.form == old(form)
      ensures refetch <==> !call.NoCall? && succeeded
      ensures refetch ==> !showModal && editing.None? && form == EmptyForm
      ensures !refetch ==> showModal == old(showModal) && editing == old(editing) && form == old(form)
      ensures roles == old(roles) && loading == old(loading)
      ensures searchTerm == old(searchTerm) && filterDepartment == old(filterDepartment)
    {
      refetch := false;
      if !Layout.HasHrAccess(user) {
        return NoCall, false;
      }
      if !IsComplete(form) {
        return NoCall, false;
      }
      call := if editing.Some? then Update(editing.value.id, form) else Create(form);
      if succeeded {
        showModal := false;
        editing := None;
        ResetForm();
        refetch := true;
      }
    }

    /** `handleDelete`: only an HR user who confirms sends the deletion; a success fetches
        the roles again. */
    method Delete(user: Option<Session.User>, roleId: int, confirmed: bool, succeeded: bool) returns (call: Option<int>, refetch: bool)
      ensures call.Some? <==> Layout.HasHrAccess(user) && confirmed
      ensures call.Some? ==> call.value == roleId
      ensures refetch <==> call.Some? && succeeded
    {
      if Layout.HasHrAccess(user) && confirmed {
        call, refetch := Some(roleId), succeeded;
      } else {
        call, refetch := None, false;
      }
    }

    /** The dialog's Cancel button. */
    method Cancel()
      modifies this
      ensures !showModal && editing.None? && form == EmptyForm
      ensures roles == old(roles) && loading == old(loading)
      ensures searchTerm == old(searchTerm) && filterDepartment == old(filterDepartment)
    {
      showModal := false;
      editing := None;
      ResetForm();
    }
  }
}
