/** The route table and the route guard of the single-page client. The guard decides from the
    session's `loading` flag and user alone; the role of the user plays no part in routing,
    each page applies its own role checks. */
module App {
  import opened Wrappers
  import opened Text
  import Session

  datatype Page =
    | LoginPage | ForgotPasswordPage | ResetPasswordPage
    | DashboardPage | RolesPage | SuccessionPlansPage | AnalyticsPage | AuditTrailPage
    | AccessRequestsPage | UsersAdminPage

  /** A route: its full path, the page it shows, and whether the page sits inside the guard. */
  datatype Route = Route(path: string, page: Page, guarded: bool)

  /** What the guard renders. */
  datatype Guard = Spinner | RedirectToLogin | RenderChildren

  /** What visiting a path shows. */
  datatype Outcome = Shows(page: Page) | Waits | RedirectsToLogin

  /** The three public routes, then the pages nested under the guarded layout at `/`. */
  const Routes: seq<Route> := [
    Route("/login", LoginPage, false),
    Route("/forgot-password", ForgotPasswordPage, false),
    Route("/reset-password", ResetPasswordPage, false),
    Route("/", DashboardPage, true),
    Route("/roles", RolesPage, true),
    Route("/succession-plans", SuccessionPlansPage, true),
    Route("/analytics", AnalyticsPage, true),
    Route("/audit-trail", AuditTrailPage, true),
    Route("/access-requests", AccessRequestsPage, true),
    Route("/admin/users", UsersAdminPage, true)
  ]

  predicate IsPublicPage(p: Page) { p == LoginPage || p == ForgotPasswordPage || p == ResetPasswordPage }

  /** `ProtectedRoute`: a spinner while the session is loading, then the children for any
      signed-in user and a redirect to `/login` otherwise. */
  function ProtectedRoute(loading: bool, user: Option<Session.User>): (g: Guard)
    ensures loading <==> g == Spinner
    ensures !loading ==> (g == RenderChildren <==> user.Some?)
    ensures !loading && user.None? ==> g == RedirectToLogin
  {
    if loading then Spinner
    else if user.Some? then RenderChildren
    else RedirectToLogin
  }

  /** The first route whose path is `path`. */
  function RouteFor(path: string, routes: seq<Route>): (r: Option<Route>)
    ensures r.Some? ==> r.value in routes && r.value.path == path
    ensures r.None? <==> forall i :: 0 <= i < |routes| ==> routes[i].path != path
  {
    if routes == [] then None
    else if routes[0].path == path then Some(routes[0])
    else RouteFor(path, routes[1..])
  }

  /** The path without its trailing slashes. */
  function StripTrailingSlashes(s: string): (r: string)
    ensures |r| <= |s| && r == s[..|r|]
    ensures r == [] || r[|r| - 1] != '/'
    ensures forall i :: |r| <= i < |s| ==> s[i] == '/'
  {
    if s != [] && s[|s| - 1] == '/' then StripTrailingSlashes(s[..|s| - 1]) else s
  }

  /** The path as the router compares it with the route table: the routes' patterns match
      without regard to letter case and accept any number of trailing slashes, and the root
      pattern is a slash alone. */
  function NormalPath(path: string): (r: string)
    ensures r != [] && (r == "/" || r[|r| - 1] != '/')
  {
    var t := StripTrailingSlashes(Lower(path));
    if t == [] then "/" else t
  }

  /** What the router shows for `path`; a path with no route shows nothing. */
  function Visit(path: string, loading: bool, user: Option<Session.User>): Option<Outcome>
  {
    Show(NormalPath(path), loading, user)
  }

  /** What the router shows for a path in normal form. */
  function Show(path: string, loading: bool, user: Option<Session.User>): Option<Outcome>
  {
    match RouteFor(path, Routes)
    case None => None
    case Some(route) =>
      if !route.guarded then Some(Shows(route.page))
      else Some(match ProtectedRoute(loading, user)
                case Spinner => Waits
                case RedirectToLogin => RedirectsToLogin
                case RenderChildren => Shows(route.page))
  }

  /** Exactly the login, forgot-password and reset-password pages are outside the guard, and
      every page has one route. */
  lemma GuardedIffNotPublic()
    ensures forall i :: 0 <= i < |Routes| ==> (Routes[i].guarded <==> !IsPublicPage(Routes[i].page))
    ensures forall i, j :: 0 <= i < j < |Routes| ==> Routes[i].page != Routes[j].page && Routes[i].path != Routes[j].path
  {
  }

  /** The public pages show whether or not anyone is signed in, even while loading. */
  lemma PublicPagesAlwaysShow(loading: bool, user: Option<Session.User>)
    ensures Visit("/login", loading, user) == Some(Shows(LoginPage))
    ensures Visit("/forgot-password", loading, user) == Some(Shows(ForgotPasswordPage))
    ensures Visit("/reset-password", loading, user) == Some(Shows(ResetPasswordPage))
  {
    FirstRouteOfPath(0);
    FirstRouteOfPath(1);
    FirstRouteOfPath(2);
    NormalPathOfRoute(0);
    NormalPathOfRoute(1);
    NormalPathOfRoute(2);
  }

  /** A route's own path is already in normal form. */
  lemma NormalPathOfRoute(i: nat)
    requires i < |Routes|
    ensures NormalPath(Routes[i].path) == Routes[i].path
  {
    var p := Routes[i].path;
    NormalOfLowerPath(p);
  }

  /** Lowercase path characters: lower-case letters, digits, `-` and `/`. */
  predicate IsPathChar(c: char) { 'a' <= c <= 'z' || c == '-' || c == '/' }

  lemma {:induction false} NormalOfLowerPath(p: string)
    requires p != [] && forall k :: 0 <= k < |p| ==> IsPathChar(p[k])
    requires p == "/" || p[|p| - 1] != '/'
    ensures NormalPath(p) == p
  {
    assert forall k :: 0 <= k < |p| ==> Lower(p)[k] == p[k];
    assert Lower(p) == p;
  }

  /** Letter case and trailing slashes do not change what a path shows. */
  lemma VisitIgnoresCaseAndTrailingSlash(path: string, loading: bool, user: Option<Session.User>)
    ensures Visit(path + "/", loading, user) == Visit(path, loading, user)
    ensures Visit(Lower(path), loading, user) == Visit(path, loading, user)
  {
    NormalPathIgnoresCaseAndTrailingSlash(path);
  }

  lemma NormalPathIgnoresCaseAndTrailingSlash(path: string)
    ensures NormalPath(path + "/") == NormalPath(path)
    ensures NormalPath(Lower(path)) == NormalPath(path)
  {
    LowerIsIdempotent(path);
    LowerAppendSlash(path);
    StripAppendedSlash(Lower(path));
  }

  lemma LowerAppendSlash(path: string)
    ensures Lower(path + "/") == Lower(path) + "/"
  {
    var l := Lower(path + "/");
    assert forall k :: 0 <= k < |path| ==> l[k] == LowerChar((path + "/")[k]) == Lower(path)[k];
  }

  lemma StripAppendedSlash(t: string)
    ensures StripTrailingSlashes(t + "/") == StripTrailingSlashes(t)
  {
    assert (t + "/")[..|t|] == t;
  }

  /** Every guarded page waits while loading, redirects without a user, and shows for any
      user whatever their role. */
  lemma {:induction false} GuardedPages(i: nat, loading: bool, user: Option<Session.User>)
    requires i < |Routes| && Routes[i].guarded
    ensures loading ==> Visit(Routes[i].path, loading, user) == Some(Waits)
    ensures !loading && user.None? ==> Visit(Routes[i].path, loading, user) == Some(RedirectsToLogin)
    ensures !loading && user.Some? ==> Visit(Routes[i].path, loading, user) == Some(Shows(Routes[i].page))
  {
    GuardedIffNotPublic();
    FirstRouteOfPath(i);
    NormalPathOfRoute(i);
  }

  /** A route is the one found for its own path (the paths are distinct). */
  lemma FirstRouteOfPath(i: nat)
    requires i < |Routes|
    ensures RouteFor(Routes[i].path, Routes) == Some(Routes[i])
  {
    GuardedIffNotPublic();
    RouteForDistinct(Routes[i].path, Routes, i);
  }

  lemma {:induction false} RouteForDistinct(path: string, routes: seq<Route>, i: nat)
    requires i < |routes| && routes[i].path == path
    requires forall j :: 0 <= j < i ==> routes[j].path != path
    ensures RouteFor(path, routes) == Some(routes[i])
  {
    if i > 0 {
      assert routes[0].path != path;
      RouteForDistinct(path, routes[1..], i - 1);
    }
  }

  /** The router applies no role check: two signed-in users see the same outcome everywhere. */
  lemma RoutingIgnoresRole(path: string, loading: bool, u: Session.User, v: Session.User)
    ensures Visit(path, loading, Some(u)) == Visit(path, loading, Some(v))
  {
  }
}
