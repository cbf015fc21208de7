/** The users page for administrators (`UsersAdmin`): the account list, deletion of
    non-admin accounts after a confirmation, and the spreadsheet import. Server answers are
    inputs. */
module UsersAdminView {
  import opened Wrappers
  import opened Text
  import Session
  import Layout

  /** An account as `list_users` returns it; `name` may be null. */
  datatype ClientUser = ClientUser(id: int, email: string, name: Option<string>, role: string, department: string)

  /** `!user || user.role !== 'admin'` is the only gate: anyone else sees just a notice. */
  predicate IsAdminUser(user: Option<Session.User>)
  {
    user.Some? && user.value.role == "admin"
  }

  /** The page is open to exactly the users whose navigation lists it. */
  lemma GateMatchesNavigation(user: Option<Session.User>)
    ensures IsAdminUser(user) <==> Layout.UsersAdmin in Layout.Navigation(user)
  {
  }

  /** What the page shows. The mount effect that requests the user list runs before this gate
      is looked at, so the list is requested for every signed-in user, admin or not. */
  datatype Screen = OnlyAdminsNotice | Loading | UserTable

  function ScreenOf(user: Option<Session.User>, loading: bool): (r: Screen)
    ensures r == OnlyAdminsNotice <==> !IsAdminUser(user)
    ensures r == Loading <==> IsAdminUser(user) && loading
    ensures r == UserTable <==> IsAdminUser(user) && !loading
  {
    if !IsAdminUser(user) then OnlyAdminsNotice
    else if loading then Loading
    else UserTable
  }

  /** The delete button is disabled on administrators' rows. */
  predicate CanDelete(row: ClientUser) { row.role != "admin" }

  /** The name column: a missing or empty name shows `N/A`. */
  function NameShown(row: ClientUser): (r: string)
    ensures row.name.Some? && row.name.value != "" ==> r == row.name.value
    ensures row.name.None? || row.name == Some("") ==> r == "N/A"
  {
    OrElse(row.name, "N/A")
  }

  /** What axios gives back: a 2xx answer, or an error with the `error` field of its body
      when there was one. */
  datatype Answer<T> = Done(value: T) | Failed(error: Option<string>)

  /** The `inserted` counts of an import; each may be missing. */
  datatype Inserted = Inserted(users: Option<int>, roles: Option<int>, plans: Option<int>)

  /** `x || 0` on a count. */
  function CountShown(n: Option<int>): (r: int)
    ensures n.Some? ==> r == n.value
    ensures n.None? ==> r == 0
  {
    n.GetOr(0)
  }

  /** The import's success message; missing counts read as 0. */
  function UploadMessage(inserted: Option<Inserted>): (r: string)
    ensures inserted.None? ==> r == "Uploaded: users 0, roles 0, plans 0"
  {
    var i := inserted.GetOr(Inserted(None, None, None));
    assert IntToString(0) == "0";
    "Uploaded: users " + IntToString(CountShown(i.users)) + ", roles " + IntToString(CountShown(i.roles))
      + ", plans " + IntToString(CountShown(i.plans))
  }

  /** A count the server left out reads as 0 in the message. */
  lemma MissingCountsReadAsZero(users: Option<int>, roles: Option<int>, plans: Option<int>)
    ensures UploadMessage(Some(Inserted(users, roles, plans)))
      == UploadMessage(Some(Inserted(Some(users.GetOr(0)), Some(roles.GetOr(0)), Some(plans.GetOr(0)))))
  {
  }

  /** `onUpload`: nothing is sent without a file; the toast after the answer. */
  function UploadOutcome(file: Option<string>, answer: Answer<Option<Inserted>>): (r: Option<string>)
    ensures file.None? <==> r.None?
    ensures file.Some? && answer.Done? ==> r == Some(UploadMessage(answer.value))
    ensures file.Some? && answer.Failed? ==> r == Some(OrElse(answer.error, "Upload failed"))
  {
    if file.None? then None
    else match answer
      case Done(inserted) => Some(UploadMessage(inserted))
      case Failed(error) => Some(OrElse(error, "Upload failed"))
  }

  class UsersAdminPage {
    var users: seq<ClientUser>
    var loading: bool

    constructor()
      ensures users == [] && loading
    {
      users, loading := [], true;
    }

    /** `fetchUsers` finishing: the list is replaced on success; the spinner stops either way. */
    method UsersLoaded(answer: Answer<seq<ClientUser>>) returns (notice: Option<string>)
      modifies this
      ensures users == (if answer.Done? then answer.value else old(users)) && !loading
      ensures answer.Done? <==> notice.None?
      ensures answer.Failed? ==> notice == Some(OrElse(answer.error, "Failed to load users"))
    {
      match answer {
        case Done(rows) =>
          users := rows;
          notice := None;
        case Failed(error) =>
          notice := Some(OrElse(error, "Failed to load users"));
      }
      loading := false;
    }

    /** `onDelete` from a row's button: a disabled button does nothing, a declined
        confirmation sends nothing; a success fetches the list again. */
    method Delete(row: ClientUser, confirmed: bool, answer: Answer<()>) returns (call: Option<int>, refetch: bool, notice: Option<string>)
      ensures call.Some? <==> CanDelete(row) && confirmed
      ensures call.Some? ==> call.value == row.id
      ensures refetch <==> call.Some? && answer.Done?
      ensures call.None? ==> notice.None?
      ensures call.Some? && answer.Done? ==> notice == Some("User deleted")
      ensures call.Some? && answer.Failed? ==> notice == Some(OrElse(answer.error, "Failed to delete user"))
    {
      if !CanDelete(row) || !confirmed {
        return None, false, None;
      }
      call := Some(row.id);
      match answer {
        case Done(_) =>
          refetch, notice := true, Some("User deleted");
        case Failed(error) =>
          refetch, notice := false, Some(OrElse(error, "Failed to delete user"));
      }
    }
  }
}
