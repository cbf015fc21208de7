/** The side navigation of the signed-in layout: three entries for everyone, three more for
    HR roles and one for administrators, and the logout button. */
module Layout {
  import opened Wrappers
  import Session
  import App

  /** An entry of the side navigation. */
  datatype Entry = Dashboard | Roles | SuccessionPlans | Analytics | AccessRequests | AuditTrail | UsersAdmin

  /** The label and the link of an entry. */
  function Name(e: Entry): string
  {
    match e
    case Dashboard => "Dashboard"
    case Roles => "Roles"
    case SuccessionPlans => "Succession Plans"
    case Analytics => "Analytics"
    case AccessRequests => "Access Requests"
    case AuditTrail => "Audit Trail"
    case UsersAdmin => "Users (Admin)"
  }

  function Href(e: Entry): string
  {
    match e
    case Dashboard => "/"
    case Roles => "/roles"
    case SuccessionPlans => "/succession-plans"
    case Analytics => "/analytics"
    case AccessRequests => "/access-requests"
    case AuditTrail => "/audit-trail"
    case UsersAdmin => "/admin/users"
  }

  /** `user?.role`. */
  function RoleOf(user: Option<Session.User>): Option<string>
  {
    match user
    case None => None
    case Some(u) => Some(u.role)
  }

  /** The layout's HR test: exactly the roles `admin` and `hr_manager`. */
  predicate IsHrRole(role: Option<string>) { role == Some("admin") || role == Some("hr_manager") }

  /** `hasHrAccess`, the same test as each page computes it from the signed-in user. */
  predicate HasHrAccess(user: Option<Session.User>) { IsHrRole(RoleOf(user)) }

  /** `navigation`: the entries in the order they are listed, each gated entry spread in only
      when its role test holds. */
  function Navigation(user: Option<Session.User>): (r: seq<Entry>)
    ensures |r| >= 3 && r[0] == Dashboard && r[1] == Roles && Analytics in r
    ensures SuccessionPlans in r <==> IsHrRole(RoleOf(user))
    ensures AccessRequests in r <==> IsHrRole(RoleOf(user))
    ensures AuditTrail in r <==> IsHrRole(RoleOf(user))
    ensures UsersAdmin in r <==> RoleOf(user) == Some("admin")
    ensures forall i, j :: 0 <= i < j < |r| ==> r[i] != r[j]
  {
    var hr := IsHrRole(RoleOf(user));
    [Dashboard, Roles]
    + (if hr then [SuccessionPlans] else [])
    + [Analytics]
    + (if hr then [AccessRequests] else [])
    + (if hr then [AuditTrail] else [])
    + (if RoleOf(user) == Some("admin") then [UsersAdmin] else [])
  }

  /** Every entry the layout can list, in the administrator's order. */
  const AllEntries := [Dashboard, Roles, SuccessionPlans, Analytics, AccessRequests, AuditTrail, UsersAdmin]

  predicate IsBaseEntry(e: Entry) { e == Dashboard || e == Roles || e == Analytics }

  /** The entries kept when the gated ones are removed. */
  function Ungated(entries: seq<Entry>): (r: seq<Entry>)
    ensures |r| <= |entries|
    ensures forall i :: 0 <= i < |r| ==> IsBaseEntry(r[i])
  {
    if entries == [] then []
    else (if IsBaseEntry(entries[0]) then [entries[0]] else []) + Ungated(entries[1..])
  }

  /** Dashboard, Roles and Analytics are always listed, in that relative order. */
  lemma BaseEntriesInOrder(user: Option<Session.User>)
    ensures Ungated(Navigation(user)) == [Dashboard, Roles, Analytics]
  {
    if RoleOf(user) == Some("admin") {
      AdminSeesEverything(user.value);
      assert Ungated(AllEntries) == [Dashboard, Roles, Analytics] by { UngatedOfAll(); }
    } else if IsHrRole(RoleOf(user)) {
      HrManagerNavigation(user.value);
      assert Ungated(AllEntries[..6]) == [Dashboard, Roles, Analytics] by { UngatedOfAll(); }
    } else {
      OtherRolesNavigation(user);
      UngatedAppend([Dashboard, Roles], [Analytics]);
      UngatedAppend([Dashboard], [Roles]);
    }
  }

  lemma UngatedOfHead()
    ensures Ungated([Dashboard, Roles, SuccessionPlans, Analytics]) == [Dashboard, Roles, Analytics]
  {
    UngatedAppend([Dashboard, Roles, SuccessionPlans], [Analytics]);
    UngatedAppend([Dashboard, Roles], [SuccessionPlans]);
    UngatedAppend([Dashboard], [Roles]);
  }

  lemma UngatedOfAll()
    ensures Ungated(AllEntries) == [Dashboard, Roles, Analytics]
    ensures Ungated(AllEntries[..6]) == [Dashboard, Roles, Analytics]
  {
    var head := [Dashboard, Roles, SuccessionPlans, Analytics];
    UngatedOfHead();
    UngatedOfGated([AccessRequests, AuditTrail, UsersAdmin]);
    UngatedOfGated([AccessRequests, AuditTrail]);
    assert AllEntries == head + [AccessRequests, AuditTrail, UsersAdmin];
    assert AllEntries[..6] == head + [AccessRequests, AuditTrail];
    UngatedAppend(head, [AccessRequests, AuditTrail, UsersAdmin]);
    UngatedAppend(head, [AccessRequests, AuditTrail]);
  }

  lemma {:induction false} UngatedAppend(a: seq<Entry>, b: seq<Entry>)
    ensures Ungated(a + b) == Ungated(a) + Ungated(b)
  {
    if a == [] {
      assert a + b == b;
    } else {
      assert (a + b)[1..] == a[1..] + b;
      UngatedAppend(a[1..], b);
      assert (a + b)[0] == a[0];
    }
  }

  lemma {:induction false} UngatedOfGated(entries: seq<Entry>)
    requires forall i :: 0 <= i < |entries| ==> !IsBaseEntry(entries[i])
    ensures Ungated(entries) == []
  {
    if entries != [] {
      UngatedOfGated(entries[1..]);
    }
  }

  /** An administrator sees every entry, in the order they are listed. */
  lemma AdminSeesEverything(u: Session.User)
    requires u.role == "admin"
    ensures Navigation(Some(u)) == AllEntries
  {
  }

  /** An HR manager sees all but the administrators' page. */
  lemma HrManagerNavigation(u: Session.User)
    requires u.role == "hr_manager"
    ensures Navigation(Some(u)) == AllEntries[..6]
  {
  }

  /** Without a user, or for any other role, only the three base entries are listed. */
  lemma OtherRolesNavigation(user: Option<Session.User>)
    requires !IsHrRole(RoleOf(user))
    ensures Navigation(user) == [Dashboard, Roles, Analytics]
  {
  }

  /** The route of each entry: the pages nested under the layout, in the administrator's order. */
  function RouteIndex(e: Entry): (i: nat)
    ensures i < |App.Routes| && App.Routes[i].path == Href(e)
  {
    match e
    case Dashboard => 3
    case Roles => 4
    case SuccessionPlans => 5
    case Analytics => 6
    case AccessRequests => 8
    case AuditTrail => 7
    case UsersAdmin => 9
  }

  /** Every entry leads to a route of the route table, inside the guard. */
  lemma EntriesAreGuardedRoutes(e: Entry)
    ensures var route := App.RouteFor(Href(e), App.Routes);
      route.Some? && route.value.guarded && !App.IsPublicPage(route.value.page)
  {
    App.FirstRouteOfPath(RouteIndex(e));
    App.GuardedIffNotPublic();
  }

  /** `handleLogout`: log out, then go to `/login`. */
  function HandleLogout(s: Session.State): (r: (Session.State, string))
    ensures r.0 == Session.Logout(s) && r.1 == "/login"
    ensures r.0.user.None?
  {
    (Session.Logout(s), "/login")
  }

  /** After the layout's logout, the login page shows and every guarded page redirects to it. */
  lemma {:induction false} AfterLogout(s: Session.State, i: nat)
    requires !s.loading && i < |App.Routes| && App.Routes[i].guarded
    ensures var (after, target) := HandleLogout(s);
      && App.Visit(target, after.loading, after.user) == Some(App.Shows(App.LoginPage))
      && App.Visit(App.Routes[i].path, after.loading, after.user) == Some(App.RedirectsToLogin)
  {
    var (after, target) := HandleLogout(s);
    App.PublicPagesAlwaysShow(after.loading, after.user);
    App.GuardedPages(i, after.loading, after.user);
  }
}
