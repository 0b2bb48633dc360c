/**
 * The read-only routes: `ORDER BY id DESC LIMIT n` over the transaction log
 * and over the two request tables, optionally restricted to one user.
 */
module Queries {
  import opened Wrappers
  import opened Db

  /** Rows a user sees of their own history and requests. */
  const USER_LIMIT: nat := 50
  /** Rows the admin sees of all requests. */
  const ADMIN_LIMIT: nat := 100

  /** Ids grow along the log (what AUTOINCREMENT guarantees). */
  ghost predicate IdsIncreasing(log: seq<Transaction>) {
    forall i, j :: 0 <= i < j < |log| ==> log[i].id < log[j].id
  }

  /** Ids strictly decrease along an answer. */
  ghost predicate NewestFirst(r: seq<Transaction>) {
    forall i, j :: 0 <= i < j < |r| ==> r[i].id > r[j].id
  }

  /** Ids strictly decrease along an answer. */
  ghost predicate NewestRequestFirst(r: seq<Request>) {
    forall i, j :: 0 <= i < j < |r| ==> r[i].id > r[j].id
  }

  /** Rows taken from before the last row of the log are older than it. */
  lemma OlderThanLast(log: seq<Transaction>, rows: seq<Transaction>)
    requires IdsIncreasing(log) && log != []
    requires forall j :: 0 <= j < |rows| ==> rows[j] in log[..|log| - 1]
    ensures forall j :: 0 <= j < |rows| ==> rows[j].id < log[|log| - 1].id
  {
    var rest := log[..|log| - 1];
    forall j | 0 <= j < |rows| ensures rows[j].id < log[|log| - 1].id {
      var k :| 0 <= k < |rest| && rest[k] == rows[j];
      assert log[k] == rows[j];
    }
  }

  /** A row newer than every row of a newest-first answer can go in front of it. */
  lemma PrependNewest(x: Transaction, tail: seq<Transaction>)
    requires NewestFirst(tail)
    requires forall j :: 0 <= j < |tail| ==> tail[j].id < x.id
    ensures NewestFirst([x] + tail)
  {
    var r := [x] + tail;
    forall i, j | 0 <= i < j < |r| ensures r[i].id > r[j].id {
      assert r[j] == tail[j - 1];
      if i > 0 {
        assert r[i] == tail[i - 1];
      }
    }
  }

  /** A request newer than every request of a newest-first answer can go in front of it. */
  lemma PrependNewestRequest(x: Request, tail: seq<Request>)
    requires NewestRequestFirst(tail)
    requires forall j :: 0 <= j < |tail| ==> tail[j].id < x.id
    ensures NewestRequestFirst([x] + tail)
  {
    var r := [x] + tail;
    forall i, j | 0 <= i < j < |r| ensures r[i].id > r[j].id {
      assert r[j] == tail[j - 1];
      if i > 0 {
        assert r[i] == tail[i - 1];
      }
    }
  }

  /** How many rows of `log` belong to `user`. */
  function CountOf(log: seq<Transaction>, user: string): nat {
    if log == [] then 0
    else CountOf(log[..|log| - 1], user) + (if log[|log| - 1].user == user then 1 else 0)
  }

  /**
   * `SELECT * FROM transactions WHERE user=? ORDER BY id DESC LIMIT limit`:
   * the user's rows, newest first, scanning back from the end of the log.
   */
  function Newest(log: seq<Transaction>, user: string, limit: nat): (r: seq<Transaction>)
    ensures |r| == if limit < CountOf(log, user) then limit else CountOf(log, user)
    ensures forall i :: 0 <= i < |r| ==> r[i] in log && r[i].user == user
    decreases |log|
  {
    if log == [] || limit == 0 then []
    else
      var last := log[|log| - 1];
      var rest := log[..|log| - 1];
      if last.user == user then [last] + Newest(rest, user, limit - 1) else Newest(rest, user, limit)
  }

  /** The answer is newest first: ids strictly decrease along it. */
  lemma {:induction false} NewestDescending(log: seq<Transaction>, user: string, limit: nat)
    requires IdsIncreasing(log)
    ensures NewestFirst(Newest(log, user, limit))
    decreases |log|
  {
    if log != [] && limit != 0 {
      var last := log[|log| - 1];
      var rest := log[..|log| - 1];
      assert IdsIncreasing(rest);
      if last.user == user {
        NewestDescending(rest, user, limit - 1);
        var tail := Newest(rest, user, limit - 1);
        OlderThanLast(log, tail);
        PrependNewest(last, tail);
      } else {
        NewestDescending(rest, user, limit);
        assert Newest(log, user, limit) == Newest(rest, user, limit);
      }
    }
  }

  /** Row `x` is in the answer `r`, or `r` is full and `x` is older than every row of it. */
  ghost predicate ListedOrOlder(r: seq<Transaction>, x: Transaction, limit: nat) {
    x !in r ==> |r| == limit && (|r| > 0 ==> x.id < r[|r| - 1].id)
  }

  /** A row of the user's that the answer leaves out is older than every row in it, and the limit was reached. */
  lemma {:induction false} NewestIsNewest(log: seq<Transaction>, user: string, limit: nat, k: int)
    requires IdsIncreasing(log)
    requires 0 <= k < |log| && log[k].user == user
    ensures ListedOrOlder(Newest(log, user, limit), log[k], limit)
    decreases |log|
  {
    if limit != 0 && k < |log| - 1 {
      var last := log[|log| - 1];
      var rest := log[..|log| - 1];
      OlderPrefix(log, k);
      NewestUnfold(log, user, limit);
      if last.user == user {
        NewestIsNewest(rest, user, limit - 1, k);
        ListedOrOlderPrepend(last, Newest(rest, user, limit - 1), log[k], limit);
      } else {
        NewestIsNewest(rest, user, limit, k);
      }
    } else if limit != 0 {
      NewestUnfold(log, user, limit);
    }
  }

  /** Putting a newer row in front of an answer that was one short keeps every left-out row older. */
  lemma ListedOrOlderPrepend(x: Transaction, tail: seq<Transaction>, y: Transaction, limit: nat)
    requires limit > 0 && ListedOrOlder(tail, y, limit - 1) && y.id < x.id
    ensures ListedOrOlder([x] + tail, y, limit)
  {
    if y !in [x] + tail {
      forall i | 0 <= i < |tail| ensures tail[i] != y {
        assert ([x] + tail)[i + 1] == tail[i];
      }
      assert ([x] + tail)[|tail|] == if tail == [] then x else tail[|tail| - 1];
    }
  }

  /** Dropping the last row keeps ids increasing; every earlier row is older than the last one. */
  lemma OlderPrefix(log: seq<Transaction>, k: int)
    requires IdsIncreasing(log)
    requires 0 <= k < |log| - 1
    ensures IdsIncreasing(log[..|log| - 1])
    ensures log[..|log| - 1][k] == log[k] && log[k].id < log[|log| - 1].id
  {
  }

  /** One step of the scan back from the end of the log. */
  lemma NewestUnfold(log: seq<Transaction>, user: string, limit: nat)
    requires log != [] && limit != 0
    ensures Newest(log, user, limit) ==
      if log[|log| - 1].user == user then [log[|log| - 1]] + Newest(log[..|log| - 1], user, limit - 1)
      else Newest(log[..|log| - 1], user, limit)
  {
  }

  /** A request row passes the `WHERE user=?` filter, or there is none (`None`). */
  predicate Matches(r: Request, user: Option<string>) {
    user.None? || r.user == user.value
  }

  /** Every row of the table sits under its own id. */
  ghost predicate KeyedById(m: map<int, Request>) {
    forall id :: id in m ==> m[id].id == id
  }

  /**
   * `SELECT * FROM …_requests [WHERE user=?] ORDER BY id DESC LIMIT limit`,
   * scanning ids downwards from `from`.
   */
  function Descending(m: map<int, Request>, from: int, user: Option<string>, limit: nat): (r: seq<Request>)
    ensures |r| <= limit
    ensures forall i :: 0 <= i < |r| ==> r[i] in m.Values && Matches(r[i], user)
    ensures KeyedById(m) ==> forall i :: 0 <= i < |r| ==> r[i].id in m && m[r[i].id] == r[i] && r[i].id <= from
    decreases if from < 0 then 0 else from + 1
  {
    if from < 0 || limit == 0 then []
    else if from in m && Matches(m[from], user) then [m[from]] + Descending(m, from - 1, user, limit - 1)
    else Descending(m, from - 1, user, limit)
  }

  /** The answer is newest first: ids strictly decrease along it. */
  lemma {:induction false} DescendingOrdered(m: map<int, Request>, from: int, user: Option<string>, limit: nat)
    requires KeyedById(m)
    ensures NewestRequestFirst(Descending(m, from, user, limit))
    decreases if from < 0 then 0 else from + 1
  {
    if from >= 0 && limit != 0 {
      if from in m && Matches(m[from], user) {
        DescendingOrdered(m, from - 1, user, limit - 1);
        var tail := Descending(m, from - 1, user, limit - 1);
        PrependNewestRequest(m[from], tail);
      } else {
        DescendingOrdered(m, from - 1, user, limit);
      }
    }
  }

  /** Request `x` is in the answer `r`, or `r` is full and `x` is older than every row of it. */
  ghost predicate RequestListedOrOlder(r: seq<Request>, x: Request, limit: nat) {
    x !in r ==> |r| == limit && (|r| > 0 ==> x.id < r[|r| - 1].id)
  }

  /** A matching request at or below `from` that the answer leaves out is older than every row in it, and the limit was reached. */
  lemma {:induction false} DescendingIsNewest(m: map<int, Request>, from: int, user: Option<string>, limit: nat, id: int)
    requires KeyedById(m)
    requires 0 <= id <= from && id in m && Matches(m[id], user)
    ensures RequestListedOrOlder(Descending(m, from, user, limit), m[id], limit)
    decreases if from < 0 then 0 else from + 1
  {
    if limit != 0 {
      if id < from {
        if from in m && Matches(m[from], user) {
          DescendingIsNewest(m, from - 1, user, limit - 1, id);
          RequestListedOrOlderPrepend(m[from], Descending(m, from - 1, user, limit - 1), m[id], limit);
        } else {
          DescendingIsNewest(m, from - 1, user, limit, id);
        }
      } else {
        assert Descending(m, from, user, limit)[0] == m[id];
      }
    }
  }

  /** Putting a newer request in front of an answer that was one short keeps every left-out request older. */
  lemma RequestListedOrOlderPrepend(x: Request, tail: seq<Request>, y: Request, limit: nat)
    requires limit > 0 && RequestListedOrOlder(tail, y, limit - 1) && y.id < x.id
    ensures RequestListedOrOlder([x] + tail, y, limit)
  {
    if y !in [x] + tail {
      forall i | 0 <= i < |tail| ensures tail[i] != y {
        assert ([x] + tail)[i + 1] == tail[i];
      }
      assert ([x] + tail)[|tail|] == if tail == [] then x else tail[|tail| - 1];
    }
  }

  /** `GET /api/transactions`. */
  function UserTransactions(t: Tables, user: string): seq<Transaction> {
    Newest(t.transactions, user, USER_LIMIT)
  }

  /** `GET /api/deposit-requests`. */
  function UserDeposits(t: Tables, user: string): seq<Request> {
    Descending(t.deposits, t.nextDepositId - 1, Some(user), USER_LIMIT)
  }

  /** `GET /api/withdraw-requests`. */
  function UserWithdraws(t: Tables, user: string): seq<Request> {
    Descending(t.withdraws, t.nextWithdrawId - 1, Some(user), USER_LIMIT)
  }

  /** `GET /api/admin/deposits`. */
  function AllDeposits(t: Tables): seq<Request> {
    Descending(t.deposits, t.nextDepositId - 1, None, ADMIN_LIMIT)
  }

  /** `GET /api/admin/withdraws`. */
  function AllWithdraws(t: Tables): seq<Request> {
    Descending(t.withdraws, t.nextWithdrawId - 1, None, ADMIN_LIMIT)
  }

  /** On a valid database the scan from the newest id sees every request, so a short answer is complete. */
  lemma UserDepositsComplete(t: Tables, user: string, id: int)
    requires Valid(t)
    requires id in t.deposits && t.deposits[id].user == user
    ensures |UserDeposits(t, user)| < USER_LIMIT ==> t.deposits[id] in UserDeposits(t, user)
  {
    DescendingIsNewest(t.deposits, t.nextDepositId - 1, Some(user), USER_LIMIT, id);
  }

  /** On a valid database a user's transaction history is newest first. */
  lemma UserTransactionsNewestFirst(t: Tables, user: string)
    requires Valid(t)
    ensures NewestFirst(UserTransactions(t, user))
  {
    assert IdsIncreasing(t.transactions);
    NewestDescending(t.transactions, user, USER_LIMIT);
  }

  /** On a valid database every request listing is newest first. */
  lemma RequestListingsNewestFirst(t: Tables, user: string)
    requires Valid(t)
    ensures NewestRequestFirst(UserDeposits(t, user)) && NewestRequestFirst(UserWithdraws(t, user))
    ensures NewestRequestFirst(AllDeposits(t)) && NewestRequestFirst(AllWithdraws(t))
  {
    assert KeyedById(t.deposits) && KeyedById(t.withdraws);
    DescendingOrdered(t.deposits, t.nextDepositId - 1, Some(user), USER_LIMIT);
    DescendingOrdered(t.withdraws, t.nextWithdrawId - 1, Some(user), USER_LIMIT);
    DescendingOrdered(t.deposits, t.nextDepositId - 1, None, ADMIN_LIMIT);
    DescendingOrdered(t.withdraws, t.nextWithdrawId - 1, None, ADMIN_LIMIT);
  }
}
