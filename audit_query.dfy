/** `get_audit_trail`: which log entries a query selects, in which order, and how they are
    paginated. The entries are an input (writing them is not modelled). The `user` filter is an
    SQL `ILIKE '%user%'`, which SQLite runs as `lower(x) LIKE lower(pattern)`: `%` and `_` in
    the filter act as wildcards. Pagination follows Flask-SQLAlchemy 3 with `error_out=False`:
    a page below 1 is read as 1 and a page size below 1 as 20. */
module AuditQuery {
  import opened Wrappers
  import opened Text
  import opened Store
  import HrAccess
  import PythonInt
  import Dates

  datatype LogEntry = LogEntry(
    id: int, userName: string, userEmail: string, action: string, tableName: string,
    timestamp: Dates.Instant)

  /** The query string. */
  type Args = map<string, string>

  const DeniedText := "Access denied. HR access required to view audit trail."
  const MaxPerPage := 100

  /** `request.args.get(key, default, type=int)`: the default when absent or not a number. */
  function IntArg(args: Args, key: string, default: int): (r: int)
    ensures key in args && PythonInt.ParseInt(args[key]).Some? ==> r == PythonInt.ParseInt(args[key]).value
    ensures (key !in args || PythonInt.ParseInt(args[key]).None?) ==> r == default
  {
    if key in args then PythonInt.ParseInt(args[key]).GetOr(default) else default
  }

  /** `min(request.args.get('per_page', 50, type=int), 100)`. */
  function RequestedPerPage(args: Args): (r: int)
    ensures r <= MaxPerPage
    ensures IntArg(args, "per_page", 50) <= MaxPerPage ==> r == IntArg(args, "per_page", 50)
  {
    var n := IntArg(args, "per_page", 50);
    if n < MaxPerPage then n else MaxPerPage
  }

  // ---------------------------------------------------------------------------
  // SQL LIKE

  /** SQL `LIKE` without an escape character: `%` matches any run of characters, `_` any one. */
  predicate Like(p: string, s: string)
    decreases |p| + |s|
  {
    if p == [] then s == []
    else if p[0] == '%' then Like(p[1..], s) || (s != [] && Like(p, s[1..]))
    else s != [] && (p[0] == '_' || p[0] == s[0]) && Like(p[1..], s[1..])
  }

  predicate NoWildcards(u: string) { forall i :: 0 <= i < |u| ==> u[i] != '%' && u[i] != '_' }

  /** `%` alone matches everything. */
  lemma {:induction false} LikeAnything(s: string)
    ensures Like("%", s)
  {
    if s != [] {
      LikeAnything(s[1..]);
    }
  }

  /** A literal followed by `%` matches the strings it begins. */
  lemma {:induction false} LikeLiteralPrefix(u: string, s: string)
    requires NoWildcards(u)
    ensures Like(u + "%", s) <==> |u| <= |s| && s[..|u|] == u
  {
    if u == [] {
      assert u + "%" == "%";
      LikeAnything(s);
    } else {
      assert (u + "%")[1..] == u[1..] + "%";
      if s != [] {
        LikeLiteralPrefix(u[1..], s[1..]);
        if |u| <= |s| && s[..|u|] == u {
          assert s[1..][..|u| - 1] == u[1..];
        }
        if |u| - 1 <= |s| - 1 && s[1..][..|u| - 1] == u[1..] && s[0] == u[0] {
          assert s[..|u|] == [s[0]] + s[1..][..|u| - 1];
        }
      }
    }
  }

  /** A leading `%` tries every suffix. */
  lemma {:induction false} LikeLeadingPercent(q: string, s: string)
    ensures Like("%" + q, s) <==> exists k :: 0 <= k <= |s| && Like(q, s[k..])
  {
    var p := "%" + q;
    assert p[1..] == q;
    if s == [] {
      assert s[0..] == s;
    } else {
      LikeLeadingPercent(q, s[1..]);
      assert s[0..] == s;
      if exists k :: 0 <= k <= |s| && Like(q, s[k..]) {
        var k :| 0 <= k <= |s| && Like(q, s[k..]);
        if k > 0 {
          assert s[1..][k - 1..] == s[k..];
        }
      }
      if exists k :: 0 <= k <= |s[1..]| && Like(q, s[1..][k..]) {
        var k :| 0 <= k <= |s[1..]| && Like(q, s[1..][k..]);
        assert s[1..][k..] == s[k + 1..];
      }
    }
  }

  /** A filter without wildcards matches exactly the strings that contain it. */
  lemma LikeSubstring(u: string, s: string)
    requires NoWildcards(u)
    ensures Like("%" + u + "%", s) <==> IsSubstring(u, s)
  {
    assert "%" + u + "%" == "%" + (u + "%");
    LikeLeadingPercent(u + "%", s);
    if IsSubstring(u, s) {
      var i :| OccursAt(u, s, i);
      LikeLiteralPrefix(u, s[i..]);
      assert s[i..][..|u|] == s[i..i + |u|];
    }
    if exists k :: 0 <= k <= |s| && Like(u + "%", s[k..]) {
      var k :| 0 <= k <= |s| && Like(u + "%", s[k..]);
      LikeLiteralPrefix(u, s[k..]);
      assert s[k..][..|u|] == s[k..k + |u|];
      assert OccursAt(u, s, k);
    }
  }

  /** `user_name ILIKE '%user%' OR user_email ILIKE '%user%'`. */
  predicate UserMatches(user: string, e: LogEntry)
  {
    var pattern := Lower("%" + user + "%");
    Like(pattern, Lower(e.userName)) || Like(pattern, Lower(e.userEmail))
  }

  /** A user filter without wildcards is a case-insensitive substring search on the name or
      the email. */
  lemma UserFilterIsSubstringSearch(user: string, e: LogEntry)
    requires NoWildcards(user)
    ensures UserMatches(user, e) <==>
      Contains(Lower(e.userName), Lower(user)) || Contains(Lower(e.userEmail), Lower(user))
  {
    var u := Lower(user);
    assert Lower("%" + user + "%") == "%" + u + "%";
    assert NoWildcards(u);
    LikeSubstring(u, Lower(e.userName));
    LikeSubstring(u, Lower(e.userEmail));
  }

  /** `_` is a wildcard: the filter `_` matches every entry with a non-empty name, although no
      name need contain the character `_`. */
  lemma UnderscoreMatchesAnyName(e: LogEntry)
    requires |e.userName| >= 1
    ensures UserMatches("_", e)
  {
    var s := Lower(e.userName);
    assert Lower("%" + "_" + "%") == "%" + "_%";
    LikeLeadingPercent("_%", s);
    assert s[0..] == s;
    assert ("_%")[1..] == "%";
    LikeAnything(s[1..]);
    assert Like("_%", s[0..]);
  }

  // ---------------------------------------------------------------------------
  // The query

  /** The filters of a query, once its dates are read: `date_from` keeps entries at or after
      that midnight, `date_to` those before the midnight of the next day. */
  datatype Query = Query(
    page: int, perPage: int, action: string, table: string, user: string,
    from: Option<Dates.Instant>, until: Option<Dates.Instant>)

  function Arg(args: Args, key: string): string { Get(args, key, "") }

  /** A date parameter; an empty or malformed one is dropped, as the `ValueError` is ignored. */
  function DateArg(args: Args, key: string): (r: Option<Dates.Date>)
    ensures r.Some? ==> Dates.IsValidDate(r.value)
    ensures r.Some? <==> Arg(args, key) != "" && Dates.Strptime(Arg(args, key)).Some?
  {
    if Arg(args, key) == "" then None else Dates.Strptime(Arg(args, key))
  }

  /** The query the arguments describe; `None` when `date_to + timedelta(days=1)` overflows,
      which raises `OverflowError`, not `ValueError`. */
  function ParseQuery(args: Args): (r: Option<Query>)
    ensures r.None? <==> DateArg(args, "date_to") == Some(Dates.Date(9999, 12, 31))
    ensures r.Some? ==> r.value.perPage <= MaxPerPage && r.value.page == IntArg(args, "page", 1)
    ensures r.Some? ==> r.value.perPage == RequestedPerPage(args) && r.value.action == Arg(args, "action")
    ensures r.Some? ==> r.value.table == Arg(args, "table") && r.value.user == Arg(args, "user")
  {
    var from := match DateArg(args, "date_from") case Some(d) => Some(Dates.Midnight(d)) case None => None;
    match DateArg(args, "date_to")
    case None => Some(Query(IntArg(args, "page", 1), RequestedPerPage(args), Arg(args, "action"),
      Arg(args, "table"), Arg(args, "user"), from, None))
    case Some(d) =>
      match Dates.NextDay(d)
      case None => None
      case Some(n) => Some(Query(IntArg(args, "page", 1), RequestedPerPage(args), Arg(args, "action"),
        Arg(args, "table"), Arg(args, "user"), from, Some(Dates.Midnight(n))))
  }

  /** An entry passes every filter the query sets; an empty filter is not applied. */
  predicate Selected(q: Query, e: LogEntry)
  {
    && (q.action == "" || e.action == q.action)
    && (q.table == "" || e.tableName == q.table)
    && (q.user == "" || UserMatches(q.user, e))
    && (q.from.None? || Dates.InstantAtOrAfter(e.timestamp, q.from.value))
    && (q.until.None? || Dates.InstantBefore(e.timestamp, q.until.value))
  }

  /** With `date_to` set to a day, the entries of that whole day are inside the window and the
      next day's are not. */
  lemma DateToIncludesWholeDay(args: Args, e: LogEntry, d: Dates.Date)
    requires Dates.IsValidInstant(e.timestamp) && DateArg(args, "date_to") == Some(d)
    requires ParseQuery(args).Some?
    ensures var q := ParseQuery(args).value;
      q.until.Some? && (Dates.InstantBefore(e.timestamp, q.until.value) <==> !Dates.Before(d, e.timestamp.date))
  {
    Dates.BeforeNextMidnight(e.timestamp, d);
  }

  /** With `date_from` set to a day, the window starts at its first instant. */
  lemma DateFromIncludesWholeDay(args: Args, e: LogEntry, d: Dates.Date)
    requires Dates.IsValidInstant(e.timestamp) && DateArg(args, "date_from") == Some(d)
    requires ParseQuery(args).Some?
    ensures var q := ParseQuery(args).value;
      q.from.Some? && (Dates.InstantAtOrAfter(e.timestamp, q.from.value) <==> !Dates.Before(e.timestamp.date, d))
  {
    Dates.AtOrAfterMidnight(e.timestamp, d);
  }

  /** A malformed date filter is dropped: the query is the one without it. */
  lemma MalformedDateIsDropped(args: Args, key: string)
    requires key == "date_from" || key == "date_to"
    requires DateArg(args, key).None?
    ensures ParseQuery(args) == ParseQuery(args - {key})
  {
    var other := args - {key};
    assert DateArg(other, key).None?;
    assert forall k :: k != key ==> Arg(other, k) == Arg(args, k);
    assert DateArg(other, "date_from") == DateArg(args, "date_from");
    assert DateArg(other, "date_to") == DateArg(args, "date_to");
    assert IntArg(other, "page", 1) == IntArg(args, "page", 1);
    assert IntArg(other, "per_page", 50) == IntArg(args, "per_page", 50);
  }

  // ---------------------------------------------------------------------------
  // Newest first

  predicate NewestFirst(s: seq<LogEntry>)
  {
    forall i, j :: 0 <= i < j < |s| ==> !Dates.InstantBefore(s[i].timestamp, s[j].timestamp)
  }

  /** Time order is a strict order in which any two instants are comparable. */
  lemma BeforeIsOrder(a: Dates.Instant, b: Dates.Instant, c: Dates.Instant)
    ensures Dates.InstantBefore(a, b) ==> !Dates.InstantBefore(b, a)
    ensures !Dates.InstantBefore(a, b) && !Dates.InstantBefore(b, c) ==> !Dates.InstantBefore(a, c)
  {
  }

  /** Insertion of one entry into a list sorted newest first, before the first older one. */
  function Insert(e: LogEntry, s: seq<LogEntry>): seq<LogEntry>
  {
    if s == [] || !Dates.InstantBefore(e.timestamp, s[0].timestamp) then [e] + s
    else [s[0]] + Insert(e, s[1..])
  }

  /** No entry of `s` is newer than `x`. */
  predicate Leads(x: LogEntry, s: seq<LogEntry>)
  {
    forall j :: 0 <= j < |s| ==> !Dates.InstantBefore(x.timestamp, s[j].timestamp)
  }

  lemma ConsSorted(x: LogEntry, s: seq<LogEntry>)
    requires NewestFirst(s) && Leads(x, s)
    ensures NewestFirst([x] + s)
  {
    forall i, j | 0 <= i < j < |[x] + s|
      ensures !Dates.InstantBefore(([x] + s)[i].timestamp, ([x] + s)[j].timestamp)
    {
      assert ([x] + s)[j] == s[j - 1];
      if i > 0 {
        assert ([x] + s)[i] == s[i - 1];
      }
    }
  }

  lemma TailSorted(s: seq<LogEntry>)
    requires s != [] && NewestFirst(s)
    ensures NewestFirst(s[1..]) && Leads(s[0], s[1..])
  {
    var tail := s[1..];
    forall i, j | 0 <= i < j < |tail| ensures !Dates.InstantBefore(tail[i].timestamp, tail[j].timestamp) {
      assert tail[i] == s[i + 1] && tail[j] == s[j + 1];
    }
    forall j | 0 <= j < |tail| ensures !Dates.InstantBefore(s[0].timestamp, tail[j].timestamp) {
      assert tail[j] == s[j + 1];
    }
  }

  /** Insertion adds just the entry. */
  lemma {:induction false} InsertAddsEntry(e: LogEntry, s: seq<LogEntry>)
    ensures multiset(Insert(e, s)) == multiset(s) + multiset{e}
  {
    if s != [] && Dates.InstantBefore(e.timestamp, s[0].timestamp) {
      InsertAddsEntry(e, s[1..]);
      assert s == [s[0]] + s[1..];
    }
  }

  /** An entry no newer than `e` and than every entry of `s` leads the insertion. */
  lemma LeadsInsert(x: LogEntry, e: LogEntry, s: seq<LogEntry>)
    requires Leads(x, s) && !Dates.InstantBefore(x.timestamp, e.timestamp)
    ensures Leads(x, Insert(e, s))
  {
    var r := Insert(e, s);
    InsertAddsEntry(e, s);
    forall j | 0 <= j < |r| ensures !Dates.InstantBefore(x.timestamp, r[j].timestamp) {
      assert r[j] in multiset(r);
      if r[j] != e {
        assert r[j] in multiset(s);
        var k :| 0 <= k < |s| && s[k] == r[j];
      }
    }
  }

  /** Inserting into a list sorted newest first keeps it sorted and adds just the entry. */
  lemma {:induction false} InsertSorted(e: LogEntry, s: seq<LogEntry>)
    requires NewestFirst(s)
    ensures NewestFirst(Insert(e, s)) && multiset(Insert(e, s)) == multiset(s) + multiset{e}
  {
    InsertAddsEntry(e, s);
    if s == [] {
    } else if !Dates.InstantBefore(e.timestamp, s[0].timestamp) {
      forall j | 0 <= j < |s| ensures !Dates.InstantBefore(e.timestamp, s[j].timestamp) {
        BeforeIsOrder(e.timestamp, s[0].timestamp, s[j].timestamp);
      }
      ConsSorted(e, s);
    } else {
      TailSorted(s);
      InsertSorted(e, s[1..]);
      BeforeIsOrder(e.timestamp, s[0].timestamp, s[0].timestamp);
      LeadsInsert(s[0], e, s[1..]);
      ConsSorted(s[0], Insert(e, s[1..]));
    }
  }

  /** `ORDER BY timestamp DESC`: newest first, and the same entries. */
  function SortNewestFirst(s: seq<LogEntry>): (r: seq<LogEntry>)
    ensures NewestFirst(r) && multiset(r) == multiset(s)
  {
    if s == [] then []
    else
      assert s == [s[0]] + s[1..];
      InsertSorted(s[0], SortNewestFirst(s[1..]));
      Insert(s[0], SortNewestFirst(s[1..]))
  }

  // ---------------------------------------------------------------------------
  // Pagination

  function EffectivePage(page: int): (r: int)
    ensures r >= 1 && (page >= 1 ==> r == page)
  {
    if page < 1 then 1 else page
  }

  function EffectivePerPage(perPage: int): (r: int)
    ensures r >= 1 && (perPage >= 1 ==> r == perPage) && (perPage < 1 ==> r == 20)
  {
    if perPage < 1 then 20 else perPage
  }

  /** `ceil(total / per_page)`, and 0 when there is nothing. */
  function PageCount(total: nat, perPage: int): (r: nat)
    requires perPage >= 1
    ensures (r - 1) * perPage < total <= r * perPage || (total == 0 && r == 0)
  {
    if total == 0 then 0 else (total + perPage - 1) / perPage
  }

  /** `limit(per_page).offset((page - 1) * per_page)`. */
  function PageItems<T>(items: seq<T>, page: int, perPage: int): (r: seq<T>)
    requires page >= 1 && perPage >= 1
    ensures |r| <= perPage
    ensures forall j :: 0 <= j < |r| ==> (page - 1) * perPage + j < |items| && r[j] == items[(page - 1) * perPage + j]
    ensures |r| == 0 <==> (page - 1) * perPage >= |items|
  {
    var start := (page - 1) * perPage;
    if start >= |items| then []
    else items[start..if start + perPage < |items| then start + perPage else |items|]
  }

  /** There is a next page exactly when the entries run past this one. */
  lemma HasNextIffMore(total: nat, page: int, perPage: int)
    requires page >= 1 && perPage >= 1
    ensures page < PageCount(total, perPage) <==> page * perPage < total
  {
    var n := PageCount(total, perPage);
    if page < n {
      MulMonotone(page, n - 1, perPage);
    }
    if page * perPage < total && n <= page {
      MulMonotone(n, page, perPage);
    }
  }

  lemma MulMonotone(a: int, b: int, c: int)
    requires a <= b && c >= 1
    ensures a * c <= b * c
  {
  }

  /** Every entry is on exactly one page: entry `i` is item `i % per_page` of page
      `i / per_page + 1`, which is within the page count. */
  lemma EveryEntryIsOnAPage<T>(items: seq<T>, perPage: int, i: nat)
    requires perPage >= 1 && i < |items|
    ensures var page := i / perPage + 1;
      1 <= page <= PageCount(|items|, perPage)
      && i % perPage < |PageItems(items, page, perPage)|
      && PageItems(items, page, perPage)[i % perPage] == items[i]
  {
    var page := i / perPage + 1;
    assert (page - 1) * perPage + i % perPage == i;
    var n := PageCount(|items|, perPage);
    if n < page {
      MulMonotone(n, page - 1, perPage);
    }
  }

  // ---------------------------------------------------------------------------
  // The endpoint

  datatype Outcome =
    | Refused(reply: Reply)
    | Listed(entries: seq<LogEntry>, page: int, perPage: int, total: nat, pages: nat, hasNext: bool, hasPrev: bool)

  /** The entries a query selects, newest first. */
  function Matching(logs: seq<LogEntry>, q: Query): seq<LogEntry>
  {
    SortNewestFirst(Filter(logs, (e: LogEntry) => Selected(q, e)))
  }

  /** The listing of a query: one page of the selected entries, newest first, and the page
      counts; it echoes the page and page size asked for. */
  function Listing(logs: seq<LogEntry>, q: Query): (r: Outcome)
    ensures r.Listed?
    ensures var all := Matching(logs, q);
      var page := EffectivePage(q.page);
      var perPage := EffectivePerPage(q.perPage);
      && r.perPage == q.perPage && r.page == q.page
      && r.entries == PageItems(all, page, perPage)
      && r.total == |all| && r.pages == PageCount(|all|, perPage)
      && (r.hasPrev <==> page > 1) && (r.hasNext <==> page * perPage < |all|)
  {
    var all := Matching(logs, q);
    var page := EffectivePage(q.page);
    var perPage := EffectivePerPage(q.perPage);
    var pages := PageCount(|all|, perPage);
    HasNextIffMore(|all|, page, perPage);
    Listed(PageItems(all, page, perPage), q.page, q.perPage, |all|, pages, page < pages, page > 1)
  }

  predicate IsHr(db: Db, me: int)
  {
    FindUser(db.users, me).Some? && HrAccess.HasHrAccess(db.users[FindUser(db.users, me).value].role)
  }

  /** The `OFFSET` the page query binds, `(page - 1) * per_page` after the page and page size
      are adjusted; SQLite refuses one beyond 64 bits. */
  function Offset(q: Query): (r: int)
    ensures r >= 0
    ensures q.page >= 1 && q.perPage >= 1 ==> r == (q.page - 1) * q.perPage
  {
    (EffectivePage(q.page) - 1) * EffectivePerPage(q.perPage)
  }

  /** `get_audit_trail`. */
  function AuditTrail(db: Db, me: int, logs: seq<LogEntry>, args: Args): (r: Outcome)
    ensures !IsHr(db, me) ==> r == Refused(Error(403, DeniedText))
    ensures IsHr(db, me) && ParseQuery(args).None? ==> r == Refused(Failed(500, ""))
    ensures IsHr(db, me) && ParseQuery(args).Some? && !FitsInteger(Offset(ParseQuery(args).value)) ==>
      r == Refused(Failed(500, ""))
    ensures r.Listed? <==> IsHr(db, me) && ParseQuery(args).Some? && FitsInteger(Offset(ParseQuery(args).value))
    ensures r.Listed? ==> r == Listing(logs, ParseQuery(args).value) && r.perPage <= MaxPerPage
  {
    if !IsHr(db, me) then Refused(Error(403, DeniedText))
    else match ParseQuery(args)
      case None => Refused(Failed(500, ""))
      case Some(q) => if FitsInteger(Offset(q)) then Listing(logs, q) else Refused(Failed(500, ""))
  }

  /** The entries listed are selected log entries, newest first. */
  lemma ListedEntriesAreSelected(logs: seq<LogEntry>, q: Query, page: int, perPage: int)
    requires page >= 1 && perPage >= 1
    ensures var entries := PageItems(Matching(logs, q), page, perPage);
      NewestFirst(entries) && |entries| <= perPage
      && forall j :: 0 <= j < |entries| ==> entries[j] in logs && Selected(q, entries[j])
  {
    var all := Matching(logs, q);
    MatchingIsSelected(logs, q);
    PageOfNewestFirst(all, page, perPage);
    PageOfSelected(all, logs, q, page, perPage);
  }

  /** Every entry a query lists is a selected log entry. */
  lemma MatchingIsSelected(logs: seq<LogEntry>, q: Query)
    ensures forall i :: 0 <= i < |Matching(logs, q)| ==> Matching(logs, q)[i] in logs && Selected(q, Matching(logs, q)[i])
  {
    var kept := Filter(logs, (e: LogEntry) => Selected(q, e));
    var all := Matching(logs, q);
    forall i | 0 <= i < |all| ensures all[i] in logs && Selected(q, all[i]) {
      assert all[i] in multiset(all);
      assert all[i] in multiset(kept);
      var k :| 0 <= k < |kept| && kept[k] == all[i];
    }
  }

  lemma PageOfSelected(all: seq<LogEntry>, logs: seq<LogEntry>, q: Query, page: int, perPage: int)
    requires page >= 1 && perPage >= 1
    requires forall i :: 0 <= i < |all| ==> all[i] in logs && Selected(q, all[i])
    ensures forall j :: 0 <= j < |PageItems(all, page, perPage)| ==>
      PageItems(all, page, perPage)[j] in logs && Selected(q, PageItems(all, page, perPage)[j])
  {
  }

  /** A page of entries newest first is newest first. */
  lemma PageOfNewestFirst(all: seq<LogEntry>, page: int, perPage: int)
    requires NewestFirst(all) && page >= 1 && perPage >= 1
    ensures NewestFirst(PageItems(all, page, perPage))
  {
    var r := PageItems(all, page, perPage);
    var start := (page - 1) * perPage;
    forall i, j | 0 <= i < j < |r| ensures !Dates.InstantBefore(r[i].timestamp, r[j].timestamp) {
      assert r[i] == all[start + i] && r[j] == all[start + j];
    }
  }
}
