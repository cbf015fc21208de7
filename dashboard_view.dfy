/** The dashboard (`Dashboard`): counts over the roles and, for HR users, over the succession
    plans, the first few plans, and the quick-action links. Server answers are inputs. */
module DashboardView {
  import opened Wrappers
  import Store
  import Session
  import Layout
  import App
  import RolesView

  /** A plan as the dashboard reads it from the listing. */
  datatype DashboardPlan = DashboardPlan(roleTitle: string, incumbentName: string, readiness: string)

  datatype Stats = Stats(totalRoles: int, totalPlans: int, criticalRoles: int, readySuccessors: int)

  const NoStats := Stats(0, 0, 0, 0)

  /** How many recent plans are shown. */
  const RecentCount := 5

  function IsCritical(): RolesView.RoleRecord -> bool
  {
    (role: RolesView.RoleRecord) => role.criticality == "High"
  }

  function IsReadyNow(): DashboardPlan -> bool
  {
    (plan: DashboardPlan) => plan.readiness == "Ready Now"
  }

  /** The four counts. The plan counts are 0 for anyone without HR access, whatever plans
      were passed in. */
  function StatsOf(hr: bool, roles: seq<RolesView.RoleRecord>, plans: seq<DashboardPlan>): (s: Stats)
    ensures s.totalRoles == |roles|
    ensures s.criticalRoles == |Store.Filter(roles, IsCritical())|
    ensures s.totalPlans == if hr then |plans| else 0
    ensures s.readySuccessors == if hr then |Store.Filter(plans, IsReadyNow())| else 0
    ensures 0 <= s.criticalRoles <= s.totalRoles && 0 <= s.readySuccessors <= s.totalPlans
  {
    Stats(|roles|, if hr then |plans| else 0, |Store.Filter(roles, IsCritical())|,
      if hr then |Store.Filter(plans, IsReadyNow())| else 0)
  }

  /** Every high-criticality role counts as critical, and only those. */
  lemma {:induction false} CriticalCountsHighRoles(roles: seq<RolesView.RoleRecord>)
    ensures StatsOf(false, roles, []).criticalRoles == |roles| <==> forall i :: 0 <= i < |roles| ==> roles[i].criticality == "High"
    ensures StatsOf(false, roles, []).criticalRoles == 0 <==> forall i :: 0 <= i < |roles| ==> roles[i].criticality != "High"
  {
    FilterCountBounds(roles, IsCritical());
  }

  /** A filter keeps every row exactly when its length is unchanged, and none exactly when it
      is empty. */
  lemma {:induction false} FilterCountBounds<T>(rows: seq<T>, keep: T -> bool)
    ensures |Store.Filter(rows, keep)| == |rows| <==> forall i :: 0 <= i < |rows| ==> keep(rows[i])
    ensures |Store.Filter(rows, keep)| == 0 <==> forall i :: 0 <= i < |rows| ==> !keep(rows[i])
  {
    if rows != [] {
      FilterCountBounds(rows[1..], keep);
      assert forall i :: 1 <= i < |rows| ==> rows[i] == rows[1..][i - 1];
      if keep(rows[0]) {
        assert Store.Filter(rows, keep) == [rows[0]] + Store.Filter(rows[1..], keep);
      } else {
        assert Store.Filter(rows, keep) == Store.Filter(rows[1..], keep);
        assert |Store.Filter(rows[1..], keep)| <= |rows[1..]| < |rows|;
      }
    }
  }

  /** `recentPlans`: the first five plans for an HR user, none for anyone else. */
  function RecentPlans(hr: bool, plans: seq<DashboardPlan>): (r: seq<DashboardPlan>)
    ensures !hr ==> r == []
    ensures hr ==> |r| == (if |plans| < RecentCount then |plans| else RecentCount)
    ensures r <= plans
  {
    if !hr then [] else if |plans| < RecentCount then plans else plans[..RecentCount]
  }

  /** A quick action: its caption, where it leads and whether it asks that page to open its
      create dialog. */
  datatype QuickAction = QuickAction(caption: string, path: string, openCreate: bool)

  /** The quick actions, top to bottom; two of them only for HR users. */
  function QuickActions(user: Option<Session.User>): (r: seq<QuickAction>)
    ensures |r| >= 2 && r[0] == QuickAction("Add New Role", "/roles", true)
    ensures forall a :: a in r ==> a.path in {"/roles", "/succession-plans", "/analytics"}
    ensures Layout.HasHrAccess(user) ==>
      r == [QuickAction("Add New Role", "/roles", true), QuickAction("Create Succession Plan", "/succession-plans", true),
            QuickAction("View Analytics", "/analytics", false), QuickAction("Review Candidates", "/succession-plans", false)]
    ensures !Layout.HasHrAccess(user) ==> r == [QuickAction("Add New Role", "/roles", true), QuickAction("View Analytics", "/analytics", false)]
  {
    [QuickAction("Add New Role", "/roles", true)]
    + (if Layout.HasHrAccess(user) then [QuickAction("Create Succession Plan", "/succession-plans", true)] else [])
    + [QuickAction("View Analytics", "/analytics", false)]
    + (if Layout.HasHrAccess(user) then [QuickAction("Review Candidates", "/succession-plans", false)] else [])
  }

  /** Every quick action leads a signed-in user to a page of the client, never to the login. */
  lemma QuickActionsReachPages(u: Session.User)
    ensures forall a :: a in QuickActions(Some(u)) ==>
      App.Visit(a.path, false, Some(u)).Some? && App.Visit(a.path, false, Some(u)).value.Shows?
  {
    App.GuardedPages(4, false, Some(u));
    App.GuardedPages(5, false, Some(u));
    App.GuardedPages(6, false, Some(u));
    assert App.Routes[4].path == "/roles" && App.Routes[5].path == "/succession-plans";
    assert App.Routes[6].path == "/analytics";
    forall a | a in QuickActions(Some(u))
      ensures App.Visit(a.path, false, Some(u)).Some? && App.Visit(a.path, false, Some(u)).value.Shows?
    {
      assert a.path in {"/roles", "/succession-plans", "/analytics"};
    }
  }

  /** What `fetchDashboardData` sets once the roles have arrived. */
  datatype Loaded = Loaded(stats: Stats, recentPlans: seq<DashboardPlan>)

  /** Only an HR user asks for the plans, and only once the roles have arrived. */
  predicate AsksForPlans(user: Option<Session.User>, rolesAnswer: Option<seq<RolesView.RoleRecord>>)
  {
    rolesAnswer.Some? && Layout.HasHrAccess(user)
  }

  /** `fetchDashboardData`: a failed roles request sets nothing (the counts stay as they
      were); a failed plans request counts as no plans. */
  function FetchOutcome(user: Option<Session.User>, rolesAnswer: Option<seq<RolesView.RoleRecord>>,
                        plansAnswer: Option<seq<DashboardPlan>>): (r: Option<Loaded>)
    ensures r.Some? <==> rolesAnswer.Some?
    ensures AsksForPlans(user, rolesAnswer) && plansAnswer.None? ==> r == Some(Loaded(StatsOf(true, rolesAnswer.value, []), []))
    ensures AsksForPlans(user, rolesAnswer) && plansAnswer.Some? ==>
      r == Some(Loaded(StatsOf(true, rolesAnswer.value, plansAnswer.value), RecentPlans(true, plansAnswer.value)))
    ensures rolesAnswer.Some? && !Layout.HasHrAccess(user) ==> r == Some(Loaded(StatsOf(false, rolesAnswer.value, []), []))
    ensures r.Some? ==> r.value.stats.totalRoles == |rolesAnswer.value| && |r.value.recentPlans| <= RecentCount
  {
    match rolesAnswer
    case None => None
    case Some(roles) =>
      var hr := Layout.HasHrAccess(user);
      var plans := if hr then plansAnswer.GetOr([]) else [];
      Some(Loaded(StatsOf(hr, roles, plans), RecentPlans(hr, plans)))
  }

  /** What the dashboard shows a user without HR access does not depend on the plans at all:
      the plan counts are 0 and no plan is listed. */
  lemma NoPlansWithoutHrAccess(user: Option<Session.User>, roles: seq<RolesView.RoleRecord>,
                               p: Option<seq<DashboardPlan>>, q: Option<seq<DashboardPlan>>)
    requires !Layout.HasHrAccess(user)
    ensures FetchOutcome(user, Some(roles), p) == FetchOutcome(user, Some(roles), q)
    ensures FetchOutcome(user, Some(roles), p).value.stats.totalPlans == 0
    ensures FetchOutcome(user, Some(roles), p).value.stats.readySuccessors == 0
    ensures FetchOutcome(user, Some(roles), p).value.recentPlans == []
  {
  }

  /** An HR user's recent plans are the first plans of the listing, in order. */
  lemma RecentPlansLeadTheListing(user: Option<Session.User>, roles: seq<RolesView.RoleRecord>, plans: seq<DashboardPlan>)
    requires Layout.HasHrAccess(user)
    ensures var shown := FetchOutcome(user, Some(roles), Some(plans)).value.recentPlans;
      shown <= plans && (|plans| >= RecentCount ==> |shown| == RecentCount) && (|plans| < RecentCount ==> shown == plans)
  {
  }
}
