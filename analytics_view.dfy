/** The analytics page (`Analytics`): key metrics summed and looked up in the server's
    distributions, the panels each user sees, and the chart colours. The distributions are
    inputs; the bar widths are floating point and not part of this model. */
module AnalyticsView {
  import opened Wrappers
  import Store
  import Session
  import Layout

  /** One entry of a distribution: a department, a criticality or a readiness level, and how
      many rows have it. */
  datatype Bucket = Bucket(key: string, count: int)

  /** `demographics`: each distribution may be absent from the answer. */
  datatype Demographics = Demographics(
    departments: Option<seq<Bucket>>, criticality: Option<seq<Bucket>>, readiness: Option<seq<Bucket>>)

  /** The state before any answer: `{}`. */
  const NoDemographics := Demographics(None, None, None)

  /** One point of the trends line. */
  datatype TrendPoint = TrendPoint(month: string, count: int)

  /** `reduce((sum, b) => sum + b.count, 0)`, adding from the left. */
  function SumCounts(buckets: seq<Bucket>): int
  {
    if buckets == [] then 0 else SumCounts(buckets[..|buckets| - 1]) + buckets[|buckets| - 1].count
  }

  /** A sum over a distribution, 0 when it is absent (`?.reduce(...) || 0`). */
  function Total(dist: Option<seq<Bucket>>): (r: int)
    ensures dist.None? ==> r == 0
    ensures dist.Some? ==> r == SumCounts(dist.value)
  {
    match dist
    case None => 0
    case Some(buckets) => SumCounts(buckets)
  }

  function HasKey(key: string): Bucket -> bool
  {
    (b: Bucket) => b.key == key
  }

  /** `?.find(b => b.key === key)?.count || 0`: the count of the first entry with the key,
      0 when the distribution or the entry is absent. */
  function CountOf(dist: Option<seq<Bucket>>, key: string): (r: int)
    ensures dist.None? ==> r == 0
    ensures dist.Some? && (forall i :: 0 <= i < |dist.value| ==> dist.value[i].key != key) ==> r == 0
    ensures dist.Some? ==> forall i ::
      (0 <= i < |dist.value| && dist.value[i].key == key && (forall j :: 0 <= j < i ==> dist.value[j].key != key))
      ==> r == dist.value[i].count
  {
    match dist
    case None => 0
    case Some(buckets) =>
      match Store.FindFirst(buckets, HasKey(key))
      case None => 0
      case Some(i) => buckets[i].count
  }

  predicate Counted(buckets: seq<Bucket>)
  {
    forall i :: 0 <= i < |buckets| ==> buckets[i].count >= 0
  }

  /** With no negative counts, one entry's count never exceeds the sum of them all. */
  lemma {:induction false} EntryWithinSum(buckets: seq<Bucket>, i: nat)
    requires Counted(buckets) && i < |buckets|
    ensures buckets[i].count <= SumCounts(buckets)
  {
    var n := |buckets| - 1;
    var before := buckets[..n];
    assert Counted(before) by {
      forall j | 0 <= j < |before| ensures before[j].count >= 0 {
        assert before[j] == buckets[j];
      }
    }
    SumIsCounted(before);
    if i < n {
      assert before[i] == buckets[i];
      EntryWithinSum(before, i);
    }
  }

  lemma {:induction false} SumIsCounted(buckets: seq<Bucket>)
    requires Counted(buckets)
    ensures SumCounts(buckets) >= 0
  {
    if buckets != [] {
      var before := buckets[..|buckets| - 1];
      assert Counted(before) by {
        forall j | 0 <= j < |before| ensures before[j].count >= 0 {
          assert before[j] == buckets[j];
        }
      }
      SumIsCounted(before);
    }
  }

  /** The four key metrics. */
  datatype Metrics = Metrics(totalRoles: int, criticalRoles: int, readySuccessors: int, successionPlans: int)

  function MetricsOf(d: Demographics): (m: Metrics)
    ensures m.totalRoles == Total(d.departments) && m.successionPlans == Total(d.readiness)
    ensures m.criticalRoles == CountOf(d.criticality, "High") && m.readySuccessors == CountOf(d.readiness, "Ready Now")
  {
    Metrics(Total(d.departments), CountOf(d.criticality, "High"), CountOf(d.readiness, "Ready Now"), Total(d.readiness))
  }

  /** Before any answer every metric is 0. */
  lemma NothingLoadedShowsZeros()
    ensures MetricsOf(NoDemographics) == Metrics(0, 0, 0, 0)
  {
  }

  /** The coverage insight never claims more ready successors than plans, when the server's
      counts are not negative. */
  lemma {:induction false} ReadyWithinPlans(d: Demographics)
    requires d.readiness.Some? ==> Counted(d.readiness.value)
    ensures 0 <= MetricsOf(d).readySuccessors <= MetricsOf(d).successionPlans
  {
    if d.readiness.Some? {
      var buckets := d.readiness.value;
      SumIsCounted(buckets);
      match Store.FindFirst(buckets, HasKey("Ready Now")) {
        case None =>
        case Some(i) => EntryWithinSum(buckets, i);
      }
    }
  }

  /** The trend insight says `consistent` exactly when there is at least one point. */
  function TrendWord(trends: seq<TrendPoint>): (r: string)
    ensures r == "consistent" <==> |trends| > 0
    ensures r != "consistent" ==> r == "developing"
  {
    if |trends| > 0 then "consistent" else "developing"
  }

  /** The panels of the page, in order; the readiness and trend panels only for HR users. */
  datatype Panel =
    | DepartmentChart | CriticalityChart | ReadinessChart | TrendChart
    | DepartmentAnalysis | CriticalityAnalysis | ReadinessAnalysis

  function Panels(user: Option<Session.User>): (r: seq<Panel>)
    ensures Layout.HasHrAccess(user) <==> ReadinessChart in r
    ensures Layout.HasHrAccess(user) <==> TrendChart in r
    ensures Layout.HasHrAccess(user) <==> ReadinessAnalysis in r
    ensures DepartmentChart in r && CriticalityChart in r && DepartmentAnalysis in r && CriticalityAnalysis in r
    ensures r[0] == DepartmentChart && r[1] == CriticalityChart
  {
    var hr := Layout.HasHrAccess(user);
    [DepartmentChart, CriticalityChart]
    + (if hr then [ReadinessChart, TrendChart] else [])
    + [DepartmentAnalysis, CriticalityAnalysis]
    + (if hr then [ReadinessAnalysis] else [])
  }

  /** `getCriticalityColor`. */
  function CriticalityColor(criticality: string): (r: string)
    ensures criticality == "High" ==> r == "#EF4444"
    ensures criticality == "Medium" ==> r == "#F59E0B"
    ensures criticality == "Low" ==> r == "#10B981"
    ensures criticality !in {"High", "Medium", "Low"} ==> r == "#6B7280"
  {
    match criticality
    case "High" => "#EF4444"
    case "Medium" => "#F59E0B"
    case "Low" => "#10B981"
    case _ => "#6B7280"
  }

  /** `getReadinessColor`. */
  function ReadinessColor(readiness: string): (r: string)
    ensures readiness == "Ready Now" ==> r == "#10B981"
    ensures readiness == "1-2 years" ==> r == "#F59E0B"
    ensures readiness == "3-5 years" ==> r == "#3B82F6"
    ensures readiness !in {"Ready Now", "1-2 years", "3-5 years"} ==> r == "#6B7280"
  {
    match readiness
    case "Ready Now" => "#10B981"
    case "1-2 years" => "#F59E0B"
    case "3-5 years" => "#3B82F6"
    case _ => "#6B7280"
  }

  /** `fetchAnalyticsData`: both answers are taken together, or neither when either request
      failed, and the page keeps `{}` and `[]`. */
  function Fetched(answer: Option<(Demographics, seq<TrendPoint>)>): (r: (Demographics, seq<TrendPoint>))
    ensures answer.Some? ==> r == answer.value
    ensures answer.None? ==> r == (NoDemographics, [])
  {
    answer.GetOr((NoDemographics, []))
  }
}
