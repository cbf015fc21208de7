/** The server's tables, as sequences of rows in the order the database holds them (by row
    id), and the replies its endpoints send. Looking up "the first row where ..." follows
    `query.filter_by(...).first()`; a new row gets the next row id after the largest, as
    SQLite assigns an `INTEGER PRIMARY KEY`. */
module Store {
  import opened Wrappers
  import Dates

  // ---------------------------------------------------------------------------
  // Requests and replies

  /** A JSON value in a reply. `Raised(prefix)` is the text `prefix` followed by the message
      of the Python exception that was caught. */
  datatype Value = Str(s: string) | Num(n: int) | Flag(b: bool) | Null | Obj(fields: map<string, Value>) | Raised(prefix: string)

  /** A parsed JSON request body whose values are strings. */
  type Body = map<string, string>

  /** Status code and JSON body of a reply. */
  datatype Reply = Reply(code: int, body: map<string, Value>)

  /** An exception the endpoint does not catch: Flask answers with its own error page. */
  const Uncaught := Reply(500, map[])

  /** `jsonify({'error': text}), code`. */
  function Error(code: int, text: string): (r: Reply)
    ensures r.code == code && r.body == map["error" := Str(text)]
  {
    Reply(code, map["error" := Str(text)])
  }

  /** `jsonify({'error': prefix + str(e)}), code` in an `except` clause. */
  function Failed(code: int, prefix: string): (r: Reply)
    ensures r.code == code && r.body == map["error" := Raised(prefix)]
  {
    Reply(code, map["error" := Raised(prefix)])
  }

  /** `data.get(key, default)`. */
  function Get(data: Body, key: string, default: string): (r: string)
    ensures key in data ==> r == data[key]
    ensures key !in data ==> r == default
  {
    if key in data then data[key] else default
  }

  // ---------------------------------------------------------------------------
  // Rows

  /** A `User` row. The password is kept as the secret itself: checking it is equality. */
  datatype Account = Account(
    id: int, name: string, email: string, password: string, role: string,
    department: string, status: string, approvedAt: Option<int>, approvedBy: Option<int>)

  /** A `PasswordReset` row; times are microseconds on the server's clock. */
  datatype ResetRow = ResetRow(userId: int, token: string, expiresAt: int, used: bool)

  /** An `AccessRequest` row. */
  datatype AccessRow = AccessRow(
    id: int, userId: int, department: string, requestedRole: string, reason: string,
    status: string, approverId: Option<int>, approvedAt: Option<int>, rejectedAt: Option<int>,
    rejectionReason: Option<string>)

  /** SQLite keeps an `INTEGER` column as a signed 64-bit value: binding a Python `int`
      outside this range raises `OverflowError` when the statement runs. */
  const MinInteger := -0x8000_0000_0000_0000
  const MaxInteger := 0x7FFF_FFFF_FFFF_FFFF

  predicate FitsInteger(n: int) { MinInteger <= n <= MaxInteger }

  /** A `SuccessionPlan` row. */
  datatype PlanRow = PlanRow(
    id: int, roleId: int, incumbentName: string, employeeId: string, tenure: int,
    retirementDate: Option<Dates.Date>, readiness: string)

  datatype Db = Db(users: seq<Account>, resets: seq<ResetRow>, requests: seq<AccessRow>, plans: seq<PlanRow>)

  // ---------------------------------------------------------------------------
  // Generic row operations

  /** The position of the first row satisfying `p`. */
  function FindFirst<T>(rows: seq<T>, p: T -> bool): (r: Option<nat>)
    ensures r.Some? ==> r.value < |rows| && p(rows[r.value])
    ensures r.Some? ==> forall j :: 0 <= j < r.value ==> !p(rows[j])
    ensures r.None? <==> forall j :: 0 <= j < |rows| ==> !p(rows[j])
  {
    if rows == [] then None
    else if p(rows[0]) then Some(0)
    else match FindFirst(rows[1..], p)
      case None => None
      case Some(k) => Some(k + 1)
  }

  /** The rows satisfying `keep`, in order (a bulk `DELETE` of the others). */
  function Filter<T>(rows: seq<T>, keep: T -> bool): (r: seq<T>)
    ensures |r| <= |rows|
    ensures forall i :: 0 <= i < |r| ==> r[i] in rows && keep(r[i])
    ensures forall i :: 0 <= i < |rows| && keep(rows[i]) ==> rows[i] in r
  {
    if rows == [] then []
    else (if keep(rows[0]) then [rows[0]] else []) + Filter(rows[1..], keep)
  }

  /** Filtering distributes over concatenation. */
  lemma {:induction false} FilterAppend<T>(a: seq<T>, b: seq<T>, keep: T -> bool)
    ensures Filter(a + b, keep) == Filter(a, keep) + Filter(b, keep)
  {
    if a == [] {
      assert a + b == b;
    } else {
      assert (a + b)[1..] == a[1..] + b;
      FilterAppend(a[1..], b, keep);
    }
  }

  /** Filtering out every row leaves nothing. */
  lemma {:induction false} FilterNone<T>(rows: seq<T>, keep: T -> bool)
    requires forall i :: 0 <= i < |rows| ==> !keep(rows[i])
    ensures Filter(rows, keep) == []
  {
    if rows != [] {
      FilterNone(rows[1..], keep);
    }
  }

  /** Filtering one more row of a prefix. */
  lemma FilterStep<T>(rows: seq<T>, i: nat, keep: T -> bool)
    requires i < |rows|
    ensures Filter(rows[..i + 1], keep) == Filter(rows[..i], keep) + (if keep(rows[i]) then [rows[i]] else [])
  {
    assert rows[..i + 1] == rows[..i] + [rows[i]];
    FilterAppend(rows[..i], [rows[i]], keep);
  }

  /** Keeping every row keeps the sequence. */
  lemma {:induction false} FilterAll<T>(rows: seq<T>, keep: T -> bool)
    requires forall i :: 0 <= i < |rows| ==> keep(rows[i])
    ensures Filter(rows, keep) == rows
  {
    if rows != [] {
      FilterAll(rows[1..], keep);
    }
  }

  /** Two tests that agree on every row keep the same rows. */
  lemma {:induction false} FilterSame<T>(rows: seq<T>, a: T -> bool, b: T -> bool)
    requires forall i :: 0 <= i < |rows| ==> a(rows[i]) == b(rows[i])
    ensures Filter(rows, a) == Filter(rows, b)
  {
    if rows != [] {
      FilterSame(rows[1..], a, b);
    }
  }

  /** No two rows share a key. */
  predicate Distinct<T, K(==)>(rows: seq<T>, key: T -> K)
  {
    forall i, j :: 0 <= i < j < |rows| ==> key(rows[i]) != key(rows[j])
  }

  /** Keeping some rows keeps their keys distinct. */
  lemma {:induction false} FilterDistinct<T, K>(rows: seq<T>, keep: T -> bool, key: T -> K)
    requires Distinct(rows, key)
    ensures Distinct(Filter(rows, keep), key)
  {
    if rows != [] {
      FilterDistinct(rows[1..], keep, key);
      var rest := Filter(rows[1..], keep);
      forall k | 0 <= k < |rest| ensures key(rest[k]) != key(rows[0]) {
        var j :| 0 <= j < |rows[1..]| && rows[1..][j] == rest[k];
        assert rows[j + 1] == rest[k];
      }
    }
  }

  /** A row whose key no row has yet can be added. */
  lemma AppendDistinct<T, K>(rows: seq<T>, x: T, key: T -> K)
    requires Distinct(rows, key)
    requires forall i :: 0 <= i < |rows| ==> key(rows[i]) != key(x)
    ensures Distinct(rows + [x], key)
  {
  }

  /** Replacing a row by one with the same key keeps keys distinct. */
  lemma UpdateDistinct<T, K>(rows: seq<T>, i: nat, x: T, key: T -> K)
    requires Distinct(rows, key) && i < |rows| && key(x) == key(rows[i])
    ensures Distinct(rows[i := x], key)
  {
  }

  /** `f` applied to every row. */
  function MapRows<T>(rows: seq<T>, f: T -> T): (r: seq<T>)
    ensures |r| == |rows| && forall i :: 0 <= i < |rows| ==> r[i] == f(rows[i])
  {
    seq(|rows|, i requires 0 <= i < |rows| => f(rows[i]))
  }

  lemma MapRowsAppend<T>(rows: seq<T>, x: T, f: T -> T)
    ensures MapRows(rows + [x], f) == MapRows(rows, f) + [f(x)]
  {
  }

  /** Changing rows without changing their keys keeps keys distinct. */
  lemma MapDistinct<T, K>(rows: seq<T>, f: T -> T, key: T -> K)
    requires Distinct(rows, key) && forall x :: key(f(x)) == key(x)
    ensures Distinct(MapRows(rows, f), key)
  {
  }

  /** One more than the largest key, and at least 1. */
  function NextKey<T>(rows: seq<T>, key: T -> int): (r: int)
    ensures r >= 1 && forall i :: 0 <= i < |rows| ==> key(rows[i]) < r
    ensures r == 1 || exists i :: 0 <= i < |rows| && key(rows[i]) + 1 == r
  {
    if rows == [] then 1
    else
      var rest := NextKey(rows[1..], key);
      assert forall i :: 1 <= i < |rows| ==> rows[i] == rows[1..][i - 1];
      if key(rows[0]) >= rest then key(rows[0]) + 1 else rest
  }

  // ---------------------------------------------------------------------------
  // Keys and lookups

  function UserId(u: Account): int { u.id }
  function UserEmail(u: Account): string { u.email }
  function ResetToken(r: ResetRow): string { r.token }
  function RequestId(r: AccessRow): int { r.id }
  function PlanId(p: PlanRow): int { p.id }

  /** `User.query.get(id)`. */
  function FindUser(users: seq<Account>, id: int): (r: Option<nat>)
    ensures r.Some? ==> r.value < |users| && users[r.value].id == id
    ensures r.None? <==> forall j :: 0 <= j < |users| ==> users[j].id != id
  {
    FindFirst(users, (u: Account) => u.id == id)
  }

  /** `User.query.filter_by(email=email).first()`. */
  function FindEmail(users: seq<Account>, email: string): (r: Option<nat>)
    ensures r.Some? ==> r.value < |users| && users[r.value].email == email
    ensures r.None? <==> forall j :: 0 <= j < |users| ==> users[j].email != email
  {
    FindFirst(users, (u: Account) => u.email == email)
  }

  /** `PasswordReset.query.filter_by(token=token, used=False).first()`. */
  function FindUnusedReset(resets: seq<ResetRow>, token: string): (r: Option<nat>)
    ensures r.Some? ==> r.value < |resets| && resets[r.value].token == token && !resets[r.value].used
    ensures r.None? <==> forall j :: 0 <= j < |resets| ==> resets[j].token != token || resets[j].used
  {
    FindFirst(resets, (x: ResetRow) => x.token == token && !x.used)
  }

  /** `AccessRequest.query.get(id)`. */
  function FindRequest(requests: seq<AccessRow>, id: int): (r: Option<nat>)
    ensures r.Some? ==> r.value < |requests| && requests[r.value].id == id
    ensures r.None? <==> forall j :: 0 <= j < |requests| ==> requests[j].id != id
  {
    FindFirst(requests, (x: AccessRow) => x.id == id)
  }

  /** `SuccessionPlan.query.get(id)`. */
  function FindPlan(plans: seq<PlanRow>, id: int): (r: Option<nat>)
    ensures r.Some? ==> r.value < |plans| && plans[r.value].id == id
    ensures r.None? <==> forall j :: 0 <= j < |plans| ==> plans[j].id != id
  {
    FindFirst(plans, (x: PlanRow) => x.id == id)
  }

  /** The user a row of another table refers to exists. */
  predicate HasUser(users: seq<Account>, id: int) { exists u :: u in users && u.id == id }

  /** What the schema and the endpoints keep true of the tables: primary keys and the unique
      columns are distinct, every reset token and access request belongs to an existing
      user, and no user has two unused reset tokens. */
  predicate Valid(db: Db)
  {
    && Distinct(db.users, UserId) && Distinct(db.users, UserEmail)
    && Distinct(db.resets, ResetToken)
    && Distinct(db.requests, RequestId) && Distinct(db.plans, PlanId)
    && (forall x :: x in db.resets ==> HasUser(db.users, x.userId))
    && (forall x :: x in db.requests ==> HasUser(db.users, x.userId))
    && OneUnusedPerUser(db.resets)
  }

  predicate OneUnusedPerUser(resets: seq<ResetRow>)
  {
    forall x, y :: x in resets && y in resets && !x.used && !y.used && x.userId == y.userId ==> x == y
  }

  /** The unused reset tokens of a user. */
  function UnusedOf(resets: seq<ResetRow>, userId: int): (r: seq<ResetRow>)
    ensures forall x :: x in r <==> x in resets && x.userId == userId && !x.used
  {
    Filter(resets, (x: ResetRow) => x.userId == userId && !x.used)
  }

  /** The rows kept when a user's unused tokens are deleted. */
  function KeptFrom(userId: int): ResetRow -> bool
  {
    (x: ResetRow) => x.userId != userId || x.used
  }

  /** The rows left when a user's unused tokens are deleted. */
  function WithoutUnusedOf(resets: seq<ResetRow>, userId: int): (r: seq<ResetRow>)
    ensures forall x :: x in r <==> x in resets && (x.userId != userId || x.used)
    ensures Distinct(resets, ResetToken) ==> Distinct(r, ResetToken)
  {
    var r := Filter(resets, KeptFrom(userId));
    assert Distinct(resets, ResetToken) ==> Distinct(r, ResetToken) by {
      if Distinct(resets, ResetToken) { FilterDistinct(resets, KeptFrom(userId), ResetToken); }
    }
    r
  }
}
