/**
 * The exchange database of db.js as one value: the six tables, keyed as
 * their PRIMARY KEY clauses say, with the AUTOINCREMENT counters of the
 * three tables that have one, and the INSERT OR IGNORE seeding run at start-up.
 */
module Db {
  import opened Wrappers

  const USDT: string := "USDT"

  /** The `status` column of both request tables. */
  datatype Status = Pending | Approved | Rejected

  /** The `type` column of the transaction log. */
  datatype TxType = BuyTx | SellTx | DepositTx | WithdrawTx

  /** A row of `users`, keyed by username. */
  datatype UserRow = UserRow(pin: string, createdAt: string)

  /** A row of `deposit_requests` or `withdraw_requests`; SQL NULL is `None`. */
  datatype Request = Request(
    id: int,
    user: string,
    coinSymbol: string,
    requestedAmount: real,
    approvedAmount: Option<real>,
    address: string,
    status: Status,
    note: string,
    createdAt: string,
    approvedAt: Option<string>)

  /** A row of `transactions`; `price` is NULL for deposits and withdrawals. */
  datatype Transaction = Transaction(
    id: int,
    user: string,
    kind: TxType,
    coinSymbol: string,
    amount: real,
    price: Option<real>,
    total: real,
    note: string,
    createdAt: string)

  /**
   * The whole database. `balances` is keyed by (user, coin_symbol) and
   * `users` by username, so each key has at most one row. Each `next…Id` is
   * the id AUTOINCREMENT hands out to the next inserted row.
   */
  datatype Tables = Tables(
    coins: map<string, real>,
    balances: map<(string, string), real>,
    users: map<string, UserRow>,
    deposits: map<int, Request>,
    nextDepositId: int,
    withdraws: map<int, Request>,
    nextWithdrawId: int,
    transactions: seq<Transaction>,
    nextTxId: int)

  /** A database file in which every table has just been created. */
  function EmptyTables(): Tables {
    Tables(map[], map[], map[], map[], 1, map[], 1, [], 1)
  }

  /** A balance as the handlers read it: a missing row counts as 0. */
  function BalanceOf(b: map<(string, string), real>, user: string, coin: string): real {
    if (user, coin) in b then b[(user, coin)] else 0.0
  }

  /** `INSERT … VALUES (user, coin, x) ON CONFLICT DO UPDATE SET amount = amount + x`. */
  function Upsert(b: map<(string, string), real>, user: string, coin: string, x: real): map<(string, string), real> {
    if (user, coin) in b then b[(user, coin) := b[(user, coin)] + x] else b[(user, coin) := x]
  }

  /** The upsert creates the row if need be, adds `x` to it, and touches no other row. */
  lemma UpsertAdds(b: map<(string, string), real>, user: string, coin: string, x: real)
    ensures Upsert(b, user, coin, x).Keys == b.Keys + {(user, coin)}
    ensures BalanceOf(Upsert(b, user, coin, x), user, coin) == BalanceOf(b, user, coin) + x
    ensures Upsert(b, user, coin, x) - {(user, coin)} == b - {(user, coin)}
  {
  }

  /** `UPDATE balances SET amount = amount - x WHERE …`: only an existing row changes. */
  function DebitIfPresent(b: map<(string, string), real>, user: string, coin: string, x: real): map<(string, string), real> {
    if (user, coin) in b then b[(user, coin) := b[(user, coin)] - x] else b
  }

  /** The update subtracts `x` from an existing row, creates none, and touches no other row. */
  lemma DebitIfPresentSubtracts(b: map<(string, string), real>, user: string, coin: string, x: real)
    ensures DebitIfPresent(b, user, coin, x).Keys == b.Keys
    ensures BalanceOf(DebitIfPresent(b, user, coin, x), user, coin)
            == BalanceOf(b, user, coin) - (if (user, coin) in b then x else 0.0)
    ensures DebitIfPresent(b, user, coin, x) - {(user, coin)} == b - {(user, coin)}
  {
  }

  /** `INSERT OR IGNORE`: the new row joins the table, but an existing row under its key wins. */
  function InsertOrIgnore<K, V>(m: map<K, V>, k: K, v: V): map<K, V> {
    if k in m then m else m[k := v]
  }

  /** The inserted row lies under every existing row. */
  lemma InsertOrIgnoreUnder<K, V>(m: map<K, V>, k: K, v: V)
    ensures InsertOrIgnore(m, k, v) == map[k := v] + m
  {
  }

  /** Inserting or ignoring after a batch `a` of other keys: the batch grows by one row. */
  lemma InsertAfter<K, V>(a: map<K, V>, m: map<K, V>, k: K, v: V)
    requires k !in a
    ensures InsertOrIgnore(a + m, k, v) == a[k := v] + m
  {
  }

  /** The coin catalogue db.js seeds. */
  const CATALOGUE: map<string, real> :=
    map["BTC" := 50000.0, "ETH" := 2500.0, "BNB" := 300.0, "SOL" := 100.0, "USDT" := 1.0]

  /** The two accounts db.js seeds, created at `now`. */
  function SeedUsers(now: string): map<string, UserRow> {
    map["demo" := UserRow("1234", now), "admin" := UserRow("admin123", now)]
  }

  /** The opening balances db.js seeds. */
  const SEED_BALANCES: map<(string, string), real> :=
    map[("demo", USDT) := 10000.0, ("admin", USDT) := 0.0]

  /** The five coin rows of db.js, each inserted or ignored in turn. */
  function SeedCoins(coins: map<string, real>): map<string, real> {
    var c1 := InsertOrIgnore(coins, "BTC", 50000.0);
    var c2 := InsertOrIgnore(c1, "ETH", 2500.0);
    var c3 := InsertOrIgnore(c2, "BNB", 300.0);
    var c4 := InsertOrIgnore(c3, "SOL", 100.0);
    InsertOrIgnore(c4, "USDT", 1.0)
  }

  /** The `demo` and `admin` user rows, each inserted or ignored in turn. */
  function SeedUserRows(users: map<string, UserRow>, now: string): map<string, UserRow> {
    var u1 := InsertOrIgnore(users, "demo", UserRow("1234", now));
    InsertOrIgnore(u1, "admin", UserRow("admin123", now))
  }

  /** The two opening USDT balances, each inserted or ignored in turn. */
  function SeedBalanceRows(balances: map<(string, string), real>): map<(string, string), real> {
    var b1 := InsertOrIgnore(balances, ("demo", USDT), 10000.0);
    InsertOrIgnore(b1, ("admin", USDT), 0.0)
  }

  /** The `db.serialize` block of db.js: every seed statement, in order, on the freshly opened tables. */
  function Seed(t: Tables, now: string): Tables {
    t.(coins := SeedCoins(t.coins), users := SeedUserRows(t.users, now), balances := SeedBalanceRows(t.balances))
  }

  /** The coin statements add the catalogue under the existing rows. */
  lemma SeedCoinsUnder(coins: map<string, real>)
    ensures SeedCoins(coins) == CATALOGUE + coins
  {
    var none: map<string, real> := map[];
    assert coins == none + coins;
    InsertAfter(none, coins, "BTC", 50000.0);
    InsertAfter(none["BTC" := 50000.0], coins, "ETH", 2500.0);
    InsertAfter(none["BTC" := 50000.0]["ETH" := 2500.0], coins, "BNB", 300.0);
    InsertAfter(none["BTC" := 50000.0]["ETH" := 2500.0]["BNB" := 300.0], coins, "SOL", 100.0);
    InsertAfter(none["BTC" := 50000.0]["ETH" := 2500.0]["BNB" := 300.0]["SOL" := 100.0], coins, "USDT", 1.0);
  }

  /** The user statements add the two accounts under the existing rows. */
  lemma SeedUserRowsUnder(users: map<string, UserRow>, now: string)
    ensures SeedUserRows(users, now) == SeedUsers(now) + users
  {
    var none: map<string, UserRow> := map[];
    assert users == none + users;
    InsertAfter(none, users, "demo", UserRow("1234", now));
    InsertAfter(none["demo" := UserRow("1234", now)], users, "admin", UserRow("admin123", now));
  }

  /** The balance statements add the opening balances under the existing rows. */
  lemma SeedBalanceRowsUnder(balances: map<(string, string), real>)
    ensures SeedBalanceRows(balances) == SEED_BALANCES + balances
  {
    var none: map<(string, string), real> := map[];
    assert balances == none + balances;
    InsertAfter(none, balances, ("demo", USDT), 10000.0);
    InsertAfter(none[("demo", USDT) := 10000.0], balances, ("admin", USDT), 0.0);
  }

  /** Seeding adds the seed rows under the existing rows and touches no other table. */
  lemma SeedUnder(t: Tables, now: string)
    ensures Seed(t, now).coins == CATALOGUE + t.coins
    ensures Seed(t, now).users == SeedUsers(now) + t.users
    ensures Seed(t, now).balances == SEED_BALANCES + t.balances
    ensures Seed(t, now).deposits == t.deposits && Seed(t, now).nextDepositId == t.nextDepositId
    ensures Seed(t, now).withdraws == t.withdraws && Seed(t, now).nextWithdrawId == t.nextWithdrawId
    ensures Seed(t, now).transactions == t.transactions && Seed(t, now).nextTxId == t.nextTxId
  {
    SeedCoinsUnder(t.coins);
    SeedUserRowsUnder(t.users, now);
    SeedBalanceRowsUnder(t.balances);
  }

  /** Seeding an already seeded database changes nothing, whatever the clock says. */
  lemma SeedIdempotent(t: Tables, now1: string, now2: string)
    ensures Seed(Seed(t, now1), now2) == Seed(t, now1)
  {
    var s := Seed(t, now1);
    var s2 := Seed(s, now2);
    SeedUnder(t, now1);
    SeedUnder(s, now2);
    UnionCovered(CATALOGUE, s.coins);
    UnionCovered(SeedUsers(now2), s.users);
    UnionCovered(SEED_BALANCES, s.balances);
    assert s2.coins == s.coins && s2.users == s.users && s2.balances == s.balances;
  }

  /** Rows whose keys are all present already are all ignored. */
  lemma UnionCovered<K, V>(a: map<K, V>, m: map<K, V>)
    requires a.Keys <= m.Keys
    ensures a + m == m
  {
  }

  /** Seeding a new database file gives exactly the catalogue and the two funded accounts. */
  lemma SeedEmpty(now: string)
    ensures Seed(EmptyTables(), now).coins == CATALOGUE
    ensures Seed(EmptyTables(), now).users.Keys == {"demo", "admin"}
    ensures BalanceOf(Seed(EmptyTables(), now).balances, "demo", USDT) == 10000.0
    ensures BalanceOf(Seed(EmptyTables(), now).balances, "admin", USDT) == 0.0
    ensures Seed(EmptyTables(), now).balances.Keys == {("demo", USDT), ("admin", USDT)}
  {
    var s := Seed(EmptyTables(), now);
    SeedUnder(EmptyTables(), now);
    UnionEmpty(CATALOGUE);
    UnionEmpty(SeedUsers(now));
    UnionEmpty(SEED_BALANCES);
    assert s.users == SeedUsers(now);
    assert s.balances == SEED_BALANCES;
  }

  /** Seeding an empty table leaves exactly the seed rows. */
  lemma UnionEmpty<K, V>(a: map<K, V>)
    ensures a + map[] == a
  {
  }

  /** A request row is `pending` with no approval yet, or `approved` with both approval columns set. */
  predicate StatusConsistent(r: Request) {
    || (r.status == Pending && r.approvedAmount.None? && r.approvedAt.None?)
    || (r.status == Approved && r.approvedAmount.Some? && r.approvedAt.Some?)
  }

  /** Every row sits under its own id, below the next id AUTOINCREMENT will hand out. */
  ghost predicate RequestTableValid(m: map<int, Request>, next: int) {
    && 1 <= next
    && forall id :: id in m ==> 1 <= id < next && m[id].id == id && StatusConsistent(m[id])
  }

  /** Transaction ids increase along the log and stay below the next id. */
  ghost predicate LogValid(s: seq<Transaction>, next: int) {
    && 1 <= next
    && (forall i :: 0 <= i < |s| ==> 1 <= s[i].id < next)
    && (forall i, j :: 0 <= i < j < |s| ==> s[i].id < s[j].id)
  }

  /**
   * What holds of every database the handlers can produce from a new file:
   * the AUTOINCREMENT discipline, status columns that agree with the approval
   * columns (no request is ever `rejected`), and a USDT row for every user.
   */
  ghost predicate Valid(t: Tables) {
    && RequestTableValid(t.deposits, t.nextDepositId)
    && RequestTableValid(t.withdraws, t.nextWithdrawId)
    && LogValid(t.transactions, t.nextTxId)
    && forall u :: u in t.users ==> (u, USDT) in t.balances
  }

  /** No balance and no price is negative. */
  ghost predicate Solvent(t: Tables) {
    && (forall k :: k in t.balances ==> t.balances[k] >= 0.0)
    && (forall c :: c in t.coins ==> t.coins[c] >= 0.0)
  }

  /** A new database file is valid and solvent. */
  lemma EmptyTablesValid()
    ensures Valid(EmptyTables()) && Solvent(EmptyTables())
  {
  }

  /** Seeding keeps the database valid: both seeded users get their USDT row. */
  lemma SeedKeepsValid(t: Tables, now: string)
    requires Valid(t)
    ensures Valid(Seed(t, now))
  {
    SeedUnder(t, now);
    SeedUsersFunded(now);
  }

  /** Each seeded user has a seeded USDT row. */
  lemma SeedUsersFunded(now: string)
    ensures forall u :: u in SeedUsers(now) ==> (u, USDT) in SEED_BALANCES
  {
  }

  /** Seeding keeps every balance and price non-negative. */
  lemma SeedKeepsSolvent(t: Tables, now: string)
    requires Solvent(t)
    ensures Solvent(Seed(t, now))
  {
    SeedUnder(t, now);
    SeedRowsNonNegative();
    UnionNonNegative(CATALOGUE, t.coins);
    UnionNonNegative(SEED_BALANCES, t.balances);
  }

  /** No seeded price or balance is negative. */
  lemma SeedRowsNonNegative()
    ensures forall c :: c in CATALOGUE ==> CATALOGUE[c] >= 0.0
    ensures forall k :: k in SEED_BALANCES ==> SEED_BALANCES[k] >= 0.0
  {
  }

  /** Two tables of non-negative amounts merge into one. */
  lemma UnionNonNegative<K>(a: map<K, real>, m: map<K, real>)
    requires forall k :: k in a ==> a[k] >= 0.0
    requires forall k :: k in m ==> m[k] >= 0.0
    ensures forall k :: k in a + m ==> (a + m)[k] >= 0.0
  {
  }
}
