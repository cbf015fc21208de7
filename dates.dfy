/** Calendar dates as the server reads them: `datetime.strptime(s, "%Y-%m-%d")`, the
    optional-date helper built on it, and the "next day" step of the audit-trail window.

    `strptime` matches its format as a regular expression: `%Y` is four digits, `%m` is
    `1[0-2]|0[1-9]|[1-9]` and `%d` is `3[01]|[12]\d|0[1-9]|[1-9]| [1-9]`, tried in that order,
    and the whole input must be consumed; the numbers must then form a real date of the
    proleptic Gregorian calendar from year 1 on. */
module Dates {
  import opened Wrappers
  import opened Text

  datatype Date = Date(year: int, month: int, day: int)

  predicate IsLeapYear(y: int) { (y % 4 == 0 && y % 100 != 0) || y % 400 == 0 }

  function DaysInMonth(y: int, m: int): (n: int)
    requires 1 <= m <= 12
    ensures 28 <= n <= 31
  {
    if m == 2 then (if IsLeapYear(y) then 29 else 28)
    else if m == 4 || m == 6 || m == 9 || m == 11 then 30
    else 31
  }

  /** A date `datetime.date` can represent (years 1 to 9999). */
  predicate IsValidDate(d: Date)
  {
    1 <= d.year <= 9999 && 1 <= d.month <= 12 && 1 <= d.day <= DaysInMonth(d.year, d.month)
  }

  function DigitAt(s: string, i: nat): int
    requires i < |s| && IsAsciiDigit(s[i])
  {
    s[i] as int - '0' as int
  }

  /** The `%m` group at the start of `s`: the value and the number of characters taken, by
      the first alternative that matches. */
  function MatchMonth(s: string): (r: Option<(int, nat)>)
    ensures r.Some? ==> 1 <= r.value.0 <= 12 && 1 <= r.value.1 <= 2 && r.value.1 <= |s|
  {
    if |s| >= 2 && s[0] == '1' && '0' <= s[1] <= '2' then Some((10 + DigitAt(s, 1), 2))
    else if |s| >= 2 && s[0] == '0' && '1' <= s[1] <= '9' then Some((DigitAt(s, 1), 2))
    else if |s| >= 1 && '1' <= s[0] <= '9' then Some((DigitAt(s, 0), 1))
    else None
  }

  /** The `%d` group at the start of `s`, in the same way. */
  function MatchDay(s: string): (r: Option<(int, nat)>)
    ensures r.Some? ==> 1 <= r.value.0 <= 31 && 1 <= r.value.1 <= 2 && r.value.1 <= |s|
  {
    if |s| >= 2 && s[0] == '3' && '0' <= s[1] <= '1' then Some((30 + DigitAt(s, 1), 2))
    else if |s| >= 2 && '1' <= s[0] <= '2' && IsAsciiDigit(s[1]) then Some((10 * DigitAt(s, 0) + DigitAt(s, 1), 2))
    else if |s| >= 2 && s[0] == '0' && '1' <= s[1] <= '9' then Some((DigitAt(s, 1), 2))
    else if |s| >= 1 && '1' <= s[0] <= '9' then Some((DigitAt(s, 0), 1))
    else if |s| >= 2 && s[0] == ' ' && '1' <= s[1] <= '9' then Some((DigitAt(s, 1), 2))
    else None
  }

  /** `datetime.strptime(s, "%Y-%m-%d")`; `None` where it raises `ValueError`. */
  function Strptime(s: string): (r: Option<Date>)
    ensures r.Some? ==> IsValidDate(r.value)
  {
    if |s| < 5 || !(IsAsciiDigit(s[0]) && IsAsciiDigit(s[1]) && IsAsciiDigit(s[2]) && IsAsciiDigit(s[3])) || s[4] != '-'
    then None
    else
      var year := 1000 * DigitAt(s, 0) + 100 * DigitAt(s, 1) + 10 * DigitAt(s, 2) + DigitAt(s, 3);
      var rest := s[5..];
      match MatchMonth(rest)
      case None => None
      case Some((month, m)) =>
        if |rest| <= m || rest[m] != '-' then None
        else
          var tail := rest[m + 1..];
          match MatchDay(tail)
          case None => None
          case Some((day, n)) =>
            if n != |tail| then None
            else
              var d := Date(year, month, day);
              if IsValidDate(d) then Some(d) else None
  }

  /** `_parse_optional_date`: missing, empty and `"null"` mean no date, and so does anything
      `strptime` refuses; it never raises. */
  function ParseOptionalDate(s: Option<string>): (r: Option<Date>)
    ensures s.None? || s == Some("") || s == Some("null") ==> r.None?
    ensures s.Some? && s.value != "" && s.value != "null" ==> r == Strptime(s.value)
  {
    match s
    case None => None
    case Some(t) => if t == "" || t == "null" then None else Strptime(t)
  }

  // ---------------------------------------------------------------------------
  // Formatting, to state the round trip

  function TwoDigits(n: int): (r: string)
    requires 0 <= n < 100
    ensures |r| == 2 && IsAsciiDigit(r[0]) && IsAsciiDigit(r[1])
  {
    [DigitChar(n / 10), DigitChar(n % 10)]
  }

  /** `date.isoformat()`: `YYYY-MM-DD`. */
  function IsoFormat(d: Date): (r: string)
    requires IsValidDate(d)
    ensures |r| == 10
  {
    TwoDigits(d.year / 100) + TwoDigits(d.year % 100) + "-" + TwoDigits(d.month) + "-" + TwoDigits(d.day)
  }

  /** What an HTML date input submits reads back as the same date. */
  lemma StrptimeOfIsoFormat(d: Date)
    requires IsValidDate(d)
    ensures Strptime(IsoFormat(d)) == Some(d)
  {
    var s := IsoFormat(d);
    var y := TwoDigits(d.year / 100) + TwoDigits(d.year % 100);
    assert s[..4] == y && s[4] == '-';
    assert DigitAt(s, 0) == d.year / 1000 && DigitAt(s, 1) == (d.year / 100) % 10;
    assert DigitAt(s, 2) == (d.year % 100) / 10 && DigitAt(s, 3) == d.year % 10;
    var rest := s[5..];
    assert rest == TwoDigits(d.month) + "-" + TwoDigits(d.day);
    assert MatchMonth(rest) == Some((d.month, 2));
    var tail := rest[3..];
    assert tail == TwoDigits(d.day);
    assert MatchDay(tail) == Some((d.day, 2));
  }

  /** Unpadded and space-padded forms are accepted as well. */
  lemma LenientForms()
    ensures Strptime("2024-2-5") == Some(Date(2024, 2, 5))
    ensures Strptime("2024-02- 5") == Some(Date(2024, 2, 5))
  {
  }

  /** Impossible dates and trailing text are refused. */
  lemma RefusedForms()
    ensures Strptime("2023-02-29") == None
    ensures Strptime("2024-04-31") == None
    ensures Strptime("0000-01-01") == None
    ensures Strptime("2024-01-011") == None
    ensures Strptime("2024/01/01") == None
  {
  }

  // ---------------------------------------------------------------------------
  // Days and instants


  /** Calendar order. */
  predicate Before(a: Date, b: Date)
  {
    a.year < b.year || (a.year == b.year && (a.month < b.month || (a.month == b.month && a.day < b.day)))
  }

  /** `date + timedelta(days=1)`; `None` past 9999-12-31, where Python raises `OverflowError`. */
  function NextDay(d: Date): (r: Option<Date>)
    requires IsValidDate(d)
    ensures r.Some? ==> IsValidDate(r.value) && Before(d, r.value)
    ensures r.Some? ==> forall e: Date :: IsValidDate(e) ==> (Before(e, r.value) <==> Before(e, d) || e == d)
    ensures r.None? <==> d == Date(9999, 12, 31)
  {
    if d.day < DaysInMonth(d.year, d.month) then Some(d.(day := d.day + 1))
    else if d.month < 12 then Some(Date(d.year, d.month + 1, 1))
    else if d.year < 9999 then Some(Date(d.year + 1, 1, 1))
    else None
  }

  /** A `datetime`: a date and the time of day in microseconds. */
  datatype Instant = Instant(date: Date, micros: int)

  const MicrosPerDay := 86400000000

  predicate IsValidInstant(t: Instant) { IsValidDate(t.date) && 0 <= t.micros < MicrosPerDay }

  /** `midnight(d)`: what `strptime` returns as a `datetime`. */
  function Midnight(d: Date): Instant { Instant(d, 0) }

  predicate InstantBefore(a: Instant, b: Instant)
  {
    Before(a.date, b.date) || (a.date == b.date && a.micros < b.micros)
  }

  predicate InstantAtOrAfter(a: Instant, b: Instant) { !InstantBefore(a, b) }

  /** An instant precedes the next midnight exactly when it falls on that day or earlier: the
      upper bound `date_to + 1 day` includes the whole of `date_to`. */
  lemma BeforeNextMidnight(t: Instant, d: Date)
    requires IsValidInstant(t) && IsValidDate(d) && NextDay(d).Some?
    ensures InstantBefore(t, Midnight(NextDay(d).value)) <==> Before(t.date, d) || t.date == d
  {
  }

  /** An instant is at or after a midnight exactly when it falls on that day or later. */
  lemma AtOrAfterMidnight(t: Instant, d: Date)
    requires IsValidInstant(t)
    ensures InstantAtOrAfter(t, Midnight(d)) <==> !Before(t.date, d)
  {
  }
}
