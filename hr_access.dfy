/** The server's HR test, `_has_hr_access`: membership in a fixed list of role names. The
    client pages test only for `admin` and `hr_manager`. */
module HrAccess {
  import opened Wrappers
  import Layout

  /** How many role names the server treats as HR. */
  const HrRoleCount := 10

  /** The roles the server treats as HR, in the order they are listed. */
  function HrRole(i: nat): string
    requires i < HrRoleCount
  {
    match i
    case 0 => "admin"
    case 1 => "hr_manager"
    case 2 => "HR Manager"
    case 3 => "HR Business Partner"
    case 4 => "Recruitment Specialist"
    case 5 => "Talent Acquisition Manager"
    case 6 => "Learning & Development Specialist"
    case 7 => "Compensation & Benefits Analyst"
    case 8 => "Employee Relations Specialist"
    case _ => "HR Operations Specialist"
  }

  /** `user.role in hr_roles`. */
  predicate HasHrAccess(role: string)
  {
    exists i :: 0 <= i < HrRoleCount && HrRole(i) == role
  }

  /** Every role the client treats as HR the server does too. */
  lemma ClientHrIsServerHr(role: string)
    ensures Layout.IsHrRole(Some(role)) ==> HasHrAccess(role)
  {
    if Layout.IsHrRole(Some(role)) {
      assert role == HrRole(0) || role == HrRole(1);
    }
  }

  /** The converse fails: a user with role `HR Manager` may use the HR endpoints but the
      client shows them neither the HR navigation entries nor the HR pages. */
  lemma ServerHrNotClientHr()
    ensures HasHrAccess("HR Manager") && !Layout.IsHrRole(Some("HR Manager"))
  {
    assert HrRole(2) == "HR Manager";
  }

  /** Ordinary users, and users without a role name the list knows, are refused. */
  lemma PlainUserIsNotHr()
    ensures !HasHrAccess("user") && !HasHrAccess("") && !HasHrAccess("Admin")
  {
    forall i | 0 <= i < HrRoleCount
      ensures HrRole(i) != "user" && HrRole(i) != "" && HrRole(i) != "Admin"
    {
      if i == 0 {
        assert HrRole(i)[0] == 'a';
      } else {
        assert |HrRole(i)| > 5;
      }
    }
  }
}
