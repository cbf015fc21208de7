/** The audit-trail page (`AuditTrail`): its five filters and pager, the query it sends, the
    CSV export of the shown page, and the HR gate in front of all of it. The shown page is
    what the server answered; how the server reads the query is `AuditQuery`. */
module AuditTrailView {
  import opened Wrappers
  import opened Text
  import Session
  import Layout
  import AuditQuery
  import PythonInt

  /** The filters, keyed by their query-parameter names. */
  datatype Filters = Filters(action: string, table: string, user: string, dateFrom: string, dateTo: string)

  const Cleared := Filters("", "", "", "", "")

  datatype FilterKey = ActionKey | TableKey | UserKey | DateFromKey | DateToKey

  /** `{...prev, [key]: value}`. */
  function WithFilter(f: Filters, key: FilterKey, value: string): (r: Filters)
    ensures key == ActionKey ==> r == f.(action := value)
    ensures key == TableKey ==> r == f.(table := value)
    ensures key == UserKey ==> r == f.(user := value)
    ensures key == DateFromKey ==> r == f.(dateFrom := value)
    ensures key == DateToKey ==> r == f.(dateTo := value)
  {
    match key
    case ActionKey => f.(action := value)
    case TableKey => f.(table := value)
    case UserKey => f.(user := value)
    case DateFromKey => f.(dateFrom := value)
    case DateToKey => f.(dateTo := value)
  }

  /** The `pagination` object of the reply, and of the page before the first reply. */
  datatype Pagination = Pagination(page: int, perPage: int, total: int, pages: int, hasNext: bool, hasPrev: bool)

  const InitialPagination := Pagination(1, 50, 0, 0, false, false)

  /** The pagination the server sends with a listing. */
  function PaginationOf(o: AuditQuery.Outcome): (p: Pagination)
    requires o.Listed?
    ensures p.page == o.page && p.perPage == o.perPage && p.total == o.total && p.pages == o.pages
    ensures p.hasNext == o.hasNext && p.hasPrev == o.hasPrev
  {
    Pagination(o.page, o.perPage, o.total, o.pages, o.hasNext, o.hasPrev)
  }

  /** The query string of `fetchAuditTrail`: the page, its size and the five filters. */
  function Params(f: Filters, page: int, perPage: int): (args: AuditQuery.Args)
    ensures "page" in args && args["page"] == IntToString(page)
    ensures "per_page" in args && args["per_page"] == IntToString(perPage)
    ensures AuditQuery.Arg(args, "action") == f.action && AuditQuery.Arg(args, "table") == f.table
    ensures AuditQuery.Arg(args, "user") == f.user
    ensures AuditQuery.Arg(args, "date_from") == f.dateFrom && AuditQuery.Arg(args, "date_to") == f.dateTo
  {
    map["page" := IntToString(page), "per_page" := IntToString(perPage), "action" := f.action,
        "table" := f.table, "user" := f.user, "date_from" := f.dateFrom, "date_to" := f.dateTo]
  }

  /** The server reads back the page, the page size (capped) and the filters the page sends,
      unless the last day of year 9999 is asked for. */
  lemma ServerReadsTheQuery(f: Filters, page: int, perPage: int)
    requires AuditQuery.DateArg(Params(f, page, perPage), "date_to") != Some(AuditQuery.Dates.Date(9999, 12, 31))
    ensures var q := AuditQuery.ParseQuery(Params(f, page, perPage));
      q.Some? && q.value.page == page
      && q.value.perPage == (if perPage < AuditQuery.MaxPerPage then perPage else AuditQuery.MaxPerPage)
      && q.value.action == f.action && q.value.table == f.table && q.value.user == f.user
  {
    var args := Params(f, page, perPage);
    PythonInt.ParseIntOfIntToString(page);
    PythonInt.ParseIntOfIntToString(perPage);
    assert AuditQuery.IntArg(args, "page", 1) == page;
    assert AuditQuery.IntArg(args, "per_page", 50) == perPage;
    assert AuditQuery.ParseQuery(args).Some?;
  }

  /** With the filters cleared every entry is selected. */
  lemma ClearedFiltersSelectEverything(page: int, perPage: int, e: AuditQuery.LogEntry)
    ensures var q := AuditQuery.ParseQuery(Params(Cleared, page, perPage));
      q.Some? && AuditQuery.Selected(q.value, e)
  {
    assert AuditQuery.DateArg(Params(Cleared, page, perPage), "date_to").None?;
  }

  /** "Showing `first` to `last` of `total`". */
  function ShownRange(p: Pagination): (r: (int, int))
    ensures r.0 == (p.page - 1) * p.perPage + 1
    ensures r.1 <= p.page * p.perPage && r.1 <= p.total
    ensures r.1 == p.page * p.perPage || r.1 == p.total
  {
    ((p.page - 1) * p.perPage + 1, if p.page * p.perPage < p.total then p.page * p.perPage else p.total)
  }

  /** The range the page shows counts exactly the entries the server sent for that page. */
  lemma RangeCountsTheEntries(logs: seq<AuditQuery.LogEntry>, q: AuditQuery.Query)
    requires q.page >= 1 && q.perPage >= 1
    requires AuditQuery.Listing(logs, q).entries != []
    ensures var o := AuditQuery.Listing(logs, q);
      var (first, last) := ShownRange(PaginationOf(o));
      last - first + 1 == |o.entries|
  {
    var o := AuditQuery.Listing(logs, q);
    PageRangeCount(AuditQuery.Matching(logs, q), q.page, q.perPage);
  }

  lemma PageRangeCount<T>(items: seq<T>, page: int, perPage: int)
    requires page >= 1 && perPage >= 1 && AuditQuery.PageItems(items, page, perPage) != []
    ensures var r := ShownRange(Pagination(page, perPage, |items|, 0, false, false));
      r.1 - r.0 + 1 == |AuditQuery.PageItems(items, page, perPage)|
  {
    var start := (page - 1) * perPage;
    assert start + perPage == page * perPage;
  }

  /** The pager is shown only when there is more than one page. */
  predicate PagerShown(p: Pagination) { p.pages > 1 }

  // ---------------------------------------------------------------------------
  // CSV export

  /** An entry as the page receives it. `oldValues` and `newValues` are the JSON text of the
      recorded values, when there are any. */
  datatype ClientLog = ClientLog(
    timestamp: string, userName: string, action: string, tableName: string, recordId: Option<int>,
    oldValues: Option<string>, newValues: Option<string>, ipAddress: Option<string>,
    additionalInfo: Option<string>)

  const Headers := ["Timestamp", "User", "Action", "Table", "Record ID", "Old Values", "New Values", "IP Address", "Additional Info"]

  /** `JSON.stringify('')`. */
  const EmptyJson := "\"\""

  /** `log.record_id || ''`: a missing id and the id 0 both print as nothing. */
  function RecordIdText(id: Option<int>): (r: string)
    ensures (id.None? || id == Some(0)) ==> r == ""
    ensures id.Some? && id.value != 0 ==> r == IntToString(id.value)
  {
    if id.Some? && id.value != 0 then IntToString(id.value) else ""
  }

  /** The nine fields of a row, in the order of the headers. */
  function CsvFields(log: ClientLog): (r: seq<string>)
    ensures |r| == |Headers|
    ensures r[0] == log.timestamp && r[1] == log.userName && r[2] == log.action && r[3] == log.tableName
    ensures r[4] == RecordIdText(log.recordId)
    ensures r[5] == OrElse(log.oldValues, EmptyJson) && r[6] == OrElse(log.newValues, EmptyJson)
    ensures r[7] == OrElse(log.ipAddress, "") && r[8] == OrElse(log.additionalInfo, "")
  {
    [log.timestamp, log.userName, log.action, log.tableName, RecordIdText(log.recordId),
     OrElse(log.oldValues, EmptyJson), OrElse(log.newValues, EmptyJson),
     OrElse(log.ipAddress, ""), OrElse(log.additionalInfo, "")]
  }

  /** A row: the fields joined by commas, unquoted. */
  function CsvLine(log: ClientLog): string { Join(CsvFields(log), ",") }

  /** The header line, `headers.join(',')`. */
  const HeaderLine: string := Join(Headers, ",")

  /** The lines of the file: the header line, then one line per entry. */
  function CsvLines(logs: seq<ClientLog>): (r: seq<string>)
    ensures |r| == |logs| + 1 && r[0] == HeaderLine
    ensures forall i :: 0 <= i < |logs| ==> r[i + 1] == CsvLine(logs[i])
  {
    [HeaderLine] + seq(|logs|, i requires 0 <= i < |logs| => CsvLine(logs[i]))
  }

  /** `exportAuditTrail`'s file content. */
  function Csv(logs: seq<ClientLog>): string { Join(CsvLines(logs), "\n") }

  predicate FreeOf(log: ClientLog, c: char)
  {
    forall k :: 0 <= k < |CsvFields(log)| ==> c !in CsvFields(log)[k]
  }

  /** A row whose fields hold no comma has exactly the nine columns of the header. */
  lemma RowHasTheHeaderColumns(log: ClientLog)
    requires FreeOf(log, ',')
    ensures SplitOn(CsvLine(log), ',') == CsvFields(log)
  {
    SplitOfJoin(CsvFields(log), ',');
  }

  /** A field holding a comma, which the export does not quote, adds a column. */
  lemma CommaInFieldShiftsColumns(log: ClientLog)
    requires log.additionalInfo == Some("a,b") && FreeOf(log.(additionalInfo := None), ',')
    ensures |SplitOn(CsvLine(log), ',')| == |Headers| + 1
  {
    var fields := CsvFields(log);
    var split := fields[..8] + ["a", "b"];
    assert Join(split, [',']) == CsvLine(log) by {
      JoinLastSplit(fields[..8], "a", "b");
      assert "a" + "," + "b" == "a,b";
      assert fields == fields[..8] + ["a,b"];
    }
    assert forall k :: 0 <= k < 8 ==> fields[k] == CsvFields(log.(additionalInfo := None))[k];
    SplitOfJoin(split, ',');
  }

  /** Joining with the last piece split in two at the separator. */
  lemma {:induction false} JoinLastSplit(init: seq<string>, a: string, b: string)
    ensures Join(init + [a + "," + b], [',']) == Join(init + [a, b], [','])
  {
    if init == [] {
      assert [a, b][1..] == [b];
    } else {
      JoinLastSplit(init[1..], a, b);
      assert (init + [a + "," + b])[1..] == init[1..] + [a + "," + b];
      assert (init + [a, b])[1..] == init[1..] + [a, b];
    }
  }

  /** With no line break in any field, the file has the header line and one line per entry. */
  lemma OneLinePerEntry(logs: seq<ClientLog>)
    requires forall i :: 0 <= i < |logs| ==> FreeOf(logs[i], '\n')
    ensures SplitOn(Csv(logs), '\n') == CsvLines(logs)
    ensures |SplitOn(Csv(logs), '\n')| == |logs| + 1
  {
    LinesHaveNoBreak(logs);
    SplitOfJoin(CsvLines(logs), '\n');
  }

  lemma HeaderLineHasNoBreak()
    ensures '\n' !in HeaderLine
  {
    JoinAvoids(Headers, ",", '\n');
  }

  lemma LinesHaveNoBreak(logs: seq<ClientLog>)
    requires forall i :: 0 <= i < |logs| ==> FreeOf(logs[i], '\n')
    ensures forall k :: 0 <= k < |CsvLines(logs)| ==> '\n' !in CsvLines(logs)[k]
  {
    var lines := CsvLines(logs);
    forall k | 0 <= k < |lines| ensures '\n' !in lines[k] {
      if k == 0 {
        HeaderLineHasNoBreak();
      } else {
        assert lines[k] == CsvLine(logs[k - 1]);
        JoinAvoids(CsvFields(logs[k - 1]), ",", '\n');
      }
    }
  }

  // ---------------------------------------------------------------------------
  // The page

  class AuditTrailPage {
    var logs: seq<ClientLog>
    var loading: bool
    var filters: Filters
    var pagination: Pagination

    constructor()
      ensures logs == [] && loading && filters == Cleared && pagination == InitialPagination
    {
      logs, loading, filters, pagination := [], true, Cleared, InitialPagination;
    }

    /** `handleFilterChange`: one filter changes and the page goes back to the first. */
    method HandleFilterChange(key: FilterKey, value: string)
      modifies this
      ensures filters == WithFilter(old(filters), key, value)
      ensures pagination == old(pagination).(page := 1)
      ensures logs == old(logs) && loading == old(loading)
    {
      filters := WithFilter(filters, key, value);
      pagination := pagination.(page := 1);
    }

    /** `clearFilters`: all five filters empty and the first page; the page size stays. */
    method ClearFilters()
      modifies this
      ensures filters == Cleared && pagination == old(pagination).(page := 1)
      ensures logs == old(logs) && loading == old(loading)
    {
      filters := Cleared;
      pagination := pagination.(page := 1);
    }

    /** The Previous button: it exists only with more than one page and is disabled without
        a previous page. */
    method PreviousPage()
      modifies this
      ensures PagerShown(old(pagination)) && old(pagination).hasPrev ==> pagination == old(pagination).(page := old(pagination).page - 1)
      ensures !(PagerShown(old(pagination)) && old(pagination).hasPrev) ==> pagination == old(pagination)
      ensures filters == old(filters) && logs == old(logs) && loading == old(loading)
    {
      if PagerShown(pagination) && pagination.hasPrev {
        pagination := pagination.(page := pagination.page - 1);
      }
    }

    /** The Next button. */
    method NextPage()
      modifies this
      ensures PagerShown(old(pagination)) && old(pagination).hasNext ==> pagination == old(pagination).(page := old(pagination).page + 1)
      ensures !(PagerShown(old(pagination)) && old(pagination).hasNext) ==> pagination == old(pagination)
      ensures filters == old(filters) && logs == old(logs) && loading == old(loading)
    {
      if PagerShown(pagination) && pagination.hasNext {
        pagination := pagination.(page := pagination.page + 1);
      }
    }

    /** The effect that runs `fetchAuditTrail` after every change of the filters or the page,
        for an HR user only; `answer` is the server's entries and pagination, `None` when the
        request fails. */
    method Refresh(user: Option<Session.User>, answer: Option<(seq<ClientLog>, Pagination)>)
      returns (request: Option<AuditQuery.Args>)
      modifies this
      ensures !Layout.HasHrAccess(user) ==>
        request.None? && logs == old(logs) && loading == old(loading) && pagination == old(pagination)
      ensures Layout.HasHrAccess(user) ==>
        && request == Some(Params(old(filters), old(pagination).page, old(pagination).perPage))
        && !loading
        && (answer.Some? ==> logs == answer.value.0 && pagination == answer.value.1)
        && (answer.None? ==> logs == old(logs) && pagination == old(pagination))
      ensures filters == old(filters)
    {
      if !Layout.HasHrAccess(user) {
        return None;
      }
      request := Some(Params(filters, pagination.page, pagination.perPage));
      if answer.Some? {
        logs := answer.value.0;
        pagination := answer.value.1;
      }
      loading := false;
    }

    /** The export of the entries on the shown page. */
    method Export() returns (content: string)
      ensures content == Csv(logs)
    {
      content := Csv(logs);
    }
  }
}
