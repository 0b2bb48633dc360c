/**
 * The SQLite database the route handlers of server.js share, as one object
 * whose fields are its tables. Each handler is a method that runs the
 * handler's statements in the order the code issues them and is proved to
 * have exactly the effect its function in `Settlement` describes.
 */
module Server {
  import opened Wrappers
  import opened Js
  import opened Db
  import opened Settlement

  class Store {
    var coins: map<string, real>
    var balances: map<(string, string), real>
    var users: map<string, UserRow>
    var deposits: map<int, Request>
    var nextDepositId: int
    var withdraws: map<int, Request>
    var nextWithdrawId: int
    var transactions: seq<Transaction>
    var nextTxId: int

    /** The tables as one value. */
    function State(): Tables
      reads this
    {
      Tables(coins, balances, users, deposits, nextDepositId, withdraws, nextWithdrawId, transactions, nextTxId)
    }

    /** A new database file: every `CREATE TABLE IF NOT EXISTS` creates an empty table. */
    constructor Create()
      ensures State() == EmptyTables()
    {
      coins, balances, users := map[], map[], map[];
      deposits, nextDepositId := map[], 1;
      withdraws, nextWithdrawId := map[], 1;
      transactions, nextTxId := [], 1;
    }

    /** An existing database file: `CREATE TABLE IF NOT EXISTS` keeps its tables as they are. */
    constructor Open(existing: Tables)
      ensures State() == existing
    {
      coins, balances, users := existing.coins, existing.balances, existing.users;
      deposits, nextDepositId := existing.deposits, existing.nextDepositId;
      withdraws, nextWithdrawId := existing.withdraws, existing.nextWithdrawId;
      transactions, nextTxId := existing.transactions, existing.nextTxId;
    }

    /** The `db.serialize` block of db.js: the seed rows, each INSERT OR IGNORE in turn. */
    method Init(now: string)
      modifies this
      ensures State() == Seed(old(State()), now)
    {
      ghost var s := Seed(State(), now);
      coins := SeedCoins(coins);
      users := SeedUserRows(users, now);
      balances := SeedBalanceRows(balances);
      assert coins == s.coins && users == s.users && balances == s.balances;
    }

    /** `INSERT INTO transactions(…)` with the next AUTOINCREMENT id. */
    method Append(user: string, kind: TxType, coin: string, amount: real,
                  price: Option<real>, total: real, note: string, now: string)
      modifies this
      ensures State() == Record(old(State()), user, kind, coin, amount, price, total, note, now)
    {
      transactions := transactions + [Transaction(nextTxId, user, kind, coin, amount, price, total, note, now)];
      nextTxId := nextTxId + 1;
    }

    /** `POST /api/auth/register`. */
    method Register(username: string, pin: string, now: string) returns (r: Result<string, Error>)
      modifies this
      ensures Outcome(State(), r) == Settlement.Register(old(State()), username, pin, now)
    {
      if !Truthy(username) || !Truthy(pin) {
        return Err(CredentialsRequired);
      }
      if Utf16Length(username) < 2 {
        return Err(UsernameTooShort);
      }
      if Utf16Length(pin) < 4 {
        return Err(PinTooShort);
      }
      var u := Trim(username);
      if u in users {
        return Err(UsernameExists);
      }
      users := users[u := UserRow(pin, now)];
      balances := InsertOrIgnore(balances, (u, USDT), OPENING_USDT);
      return Ok(u);
    }

    /** `POST /api/buy` for the logged-in `user`. */
    method Buy(user: string, symbol: string, amount: Option<real>, now: string) returns (r: Result<TradeReceipt, Error>)
      modifies this
      ensures Outcome(State(), r) == Settlement.Buy(old(State()), user, symbol, amount, now)
    {
      if !FieldsPresent(symbol, amount) {
        return Err(FieldsRequired);
      }
      if symbol !in coins {
        return Err(CoinNotFound);
      }
      var price := coins[symbol];
      var cost := Total(price, amount.value);
      var usdt := BalanceOf(balances, user, USDT);
      if usdt < cost {
        return Err(NotEnoughUsdt);
      }
      balances := DebitIfPresent(balances, user, USDT, cost);
      balances := Upsert(balances, user, symbol, amount.value);
      Append(user, BuyTx, symbol, amount.value, Some(price), cost, "", now);
      return Ok(TradeReceipt(symbol, amount.value, price, cost));
    }

    /** `POST /api/sell` for the logged-in `user`. */
    method Sell(user: string, symbol: string, amount: Option<real>, now: string) returns (r: Result<TradeReceipt, Error>)
      modifies this
      ensures Outcome(State(), r) == Settlement.Sell(old(State()), user, symbol, amount, now)
    {
      if !FieldsPresent(symbol, amount) {
        return Err(FieldsRequired);
      }
      if symbol !in coins {
        return Err(CoinNotFound);
      }
      var price := coins[symbol];
      var gain := Total(price, amount.value);
      var held := BalanceOf(balances, user, symbol);
      if held < amount.value {
        return Err(NotEnoughCoin);
      }
      balances := DebitIfPresent(balances, user, symbol, amount.value);
      balances := Upsert(balances, user, USDT, gain);
      Append(user, SellTx, symbol, amount.value, Some(price), gain, "", now);
      return Ok(TradeReceipt(symbol, amount.value, price, gain));
    }

    /** `POST /api/deposit-request` for the logged-in `user`; returns `this.lastID`. */
    method SubmitDeposit(user: string, coinSymbol: string, requestedAmount: Option<real>, now: string)
      returns (r: Result<int, Error>)
      modifies this
      ensures Outcome(State(), r) == Settlement.SubmitDeposit(old(State()), user, coinSymbol, requestedAmount, now)
    {
      if !FieldsPresent(coinSymbol, requestedAmount) {
        return Err(FieldsRequired);
      }
      var id := nextDepositId;
      deposits := deposits[id := PendingRequest(id, user, coinSymbol, requestedAmount.value, "", now)];
      nextDepositId := id + 1;
      return Ok(id);
    }

    /** `POST /api/withdraw-request` for the logged-in `user`; `address` is "" when the body has none. */
    method SubmitWithdraw(user: string, coinSymbol: string, requestedAmount: Option<real>, address: string, now: string)
      returns (r: Result<int, Error>)
      modifies this
      ensures Outcome(State(), r) == Settlement.SubmitWithdraw(old(State()), user, coinSymbol, requestedAmount, address, now)
    {
      if !FieldsPresent(coinSymbol, requestedAmount) {
        return Err(FieldsRequired);
      }
      var id := nextWithdrawId;
      withdraws := withdraws[id := PendingRequest(id, user, coinSymbol, requestedAmount.value, address, now)];
      nextWithdrawId := id + 1;
      return Ok(id);
    }

    /** `POST /api/admin/deposits/:id/approve`; `note` is "" when the body has none. */
    method ApproveDeposit(id: int, approvedAmount: Option<real>, note: string, now: string)
      returns (r: Result<ApprovalReceipt, Error>)
      modifies this
      ensures Outcome(State(), r) == Settlement.ApproveDeposit(old(State()), id, approvedAmount, note, now)
    {
      if approvedAmount.None? {
        return Err(ApprovedAmountRequired);
      }
      if id !in deposits {
        return Err(RequestNotFound);
      }
      var row := deposits[id];
      if row.status != Pending {
        return Err(AlreadyProcessed);
      }
      var a := approvedAmount.value;
      deposits := deposits[id := ApprovedRow(row, a, note, now)];
      balances := Upsert(balances, row.user, row.coinSymbol, a);
      Append(row.user, DepositTx, row.coinSymbol, a, None, a, note, now);
      return Ok(ApprovalReceipt(id, row.user, row.coinSymbol, a));
    }

    /** `POST /api/admin/withdraws/:id/approve`; `note` is "" when the body has none. */
    method ApproveWithdraw(id: int, approvedAmount: Option<real>, note: string, now: string)
      returns (r: Result<ApprovalReceipt, Error>)
      modifies this
      ensures Outcome(State(), r) == Settlement.ApproveWithdraw(old(State()), id, approvedAmount, note, now)
    {
      if approvedAmount.None? {
        return Err(ApprovedAmountRequired);
      }
      if id !in withdraws {
        return Err(RequestNotFound);
      }
      var row := withdraws[id];
      if row.status != Pending {
        return Err(AlreadyProcessed);
      }
      var a := approvedAmount.value;
      var bal := BalanceOf(balances, row.user, row.coinSymbol);
      if bal < a {
        return Err(BalanceNotEnough);
      }
      withdraws := withdraws[id := ApprovedRow(row, a, note, now)];
      balances := DebitIfPresent(balances, row.user, row.coinSymbol, a);
      Append(row.user, WithdrawTx, row.coinSymbol, a, None, a, note, now);
      return Ok(ApprovalReceipt(id, row.user, row.coinSymbol, a));
    }
  }
}
