/**
 * The money-moving route handlers of server.js as functions from the
 * database before the request to the database after it and the handler's
 * answer. Each handler is one atomic step: its checks come first and a
 * failed check leaves every table as it was.
 */
module Settlement {
  import opened Wrappers
  import opened Js
  import opened Db

  /** The handlers' error answers (HTTP status and message reduced to a kind). */
  datatype Error =
    | FieldsRequired          // "symbol and amount required", "coin_symbol and requested_amount required"
    | CoinNotFound            // "Coin not found"
    | NotEnoughUsdt           // "Not enough USDT"
    | NotEnoughCoin           // "Not enough coin"
    | ApprovedAmountRequired  // "approved_amount required"
    | RequestNotFound         // "Deposit request not found", "Withdraw request not found"
    | AlreadyProcessed        // "Already processed"
    | BalanceNotEnough        // "User balance not enough"
    | CredentialsRequired     // "username and pin required"
    | UsernameTooShort        // "username too short"
    | PinTooShort             // "pin must be >= 4 chars"
    | UsernameExists          // "Username already exists"

  /** What `/api/buy` and `/api/sell` echo on success. */
  datatype TradeReceipt = TradeReceipt(symbol: string, amount: real, price: real, total: real)

  /** What the two approval routes echo on success. */
  datatype ApprovalReceipt = ApprovalReceipt(id: int, user: string, coinSymbol: string, approvedAmount: real)

  /** The database after a handler ran, and the handler's answer. */
  datatype Outcome<T> = Outcome(tables: Tables, result: Result<T, Error>)

  /** The `if (!symbol || !amount)` guard of the trade and request routes. */
  predicate FieldsPresent(symbol: string, amount: Option<real>) {
    Truthy(symbol) && TruthyNumber(amount)
  }

  /** The coin catalogue and the user table are the same in both databases. */
  predicate SameCatalogueAndUsers(t: Tables, u: Tables) {
    u.coins == t.coins && u.users == t.users
  }

  /** Both request tables and their id counters are the same in both databases. */
  predicate SameRequests(t: Tables, u: Tables) {
    && u.deposits == t.deposits && u.nextDepositId == t.nextDepositId
    && u.withdraws == t.withdraws && u.nextWithdrawId == t.nextWithdrawId
  }

  /** The log of `u` is the log of `t` and one more row, `tx`, which took the next id. */
  predicate LogExtended(t: Tables, u: Tables, tx: Transaction) {
    && tx.id == t.nextTxId
    && u.transactions == t.transactions + [tx]
    && u.nextTxId == t.nextTxId + 1
  }

  /** What a trade of `amount` coins at `price` USDT each costs or yields: `coin.price * amount`. */
  function Total(price: real, amount: real): real {
    price * amount
  }

  /** `INSERT INTO transactions(…)`: the row gets the next AUTOINCREMENT id. */
  function Record(t: Tables, user: string, kind: TxType, coin: string, amount: real,
                  price: Option<real>, total: real, note: string, now: string): Tables
  {
    var tx := Transaction(t.nextTxId, user, kind, coin, amount, price, total, note, now);
    t.(transactions := t.transactions + [tx], nextTxId := t.nextTxId + 1)
  }

  // ---------------------------------------------------------------------------------------
  // Trades against the stored reference price
  // ---------------------------------------------------------------------------------------

  /** `POST /api/buy`: pay price × amount USDT for `amount` of `symbol`. */
  function Buy(t: Tables, user: string, symbol: string, amount: Option<real>, now: string): Outcome<TradeReceipt> {
    if !FieldsPresent(symbol, amount) then Outcome(t, Err(FieldsRequired))
    else if symbol !in t.coins then Outcome(t, Err(CoinNotFound))
    else
      var price := t.coins[symbol];
      var cost := Total(price, amount.value);
      if BalanceOf(t.balances, user, USDT) < cost then Outcome(t, Err(NotEnoughUsdt))
      else
        var debited := DebitIfPresent(t.balances, user, USDT, cost);
        var credited := Upsert(debited, user, symbol, amount.value);
        var logged := Record(t.(balances := credited), user, BuyTx, symbol, amount.value, Some(price), cost, "", now);
        Outcome(logged, Ok(TradeReceipt(symbol, amount.value, price, cost)))
  }

  /** Which answer a buy gets, in the order the handler checks; every refusal leaves the database as it was. */
  lemma BuyAnswers(t: Tables, user: string, symbol: string, amount: Option<real>, now: string)
    ensures var o := Buy(t, user, symbol, amount, now);
      && (o.result == Err(FieldsRequired) <==> !FieldsPresent(symbol, amount))
      && (o.result == Err(CoinNotFound) <==> FieldsPresent(symbol, amount) && symbol !in t.coins)
      && (o.result == Err(NotEnoughUsdt) <==>
            FieldsPresent(symbol, amount) && symbol in t.coins
            && BalanceOf(t.balances, user, USDT) < Total(t.coins[symbol], amount.value))
      && (o.result.Ok? <==>
            FieldsPresent(symbol, amount) && symbol in t.coins
            && BalanceOf(t.balances, user, USDT) >= Total(t.coins[symbol], amount.value))
      && (o.result.Err? ==> o.tables == t)
  {
  }

  /**
   * A successful buy moves price × amount USDT out of an existing USDT row
   * (a missing one is not created) and `amount` into the coin row, created
   * if need be, logs one
   * `buy` row, and changes nothing else.
   */
  lemma BuyEffect(t: Tables, user: string, symbol: string, amount: Option<real>, now: string)
    ensures var o := Buy(t, user, symbol, amount, now);
      o.result.Ok? ==>
      var price := t.coins[symbol];
      var cost := Total(price, amount.value);
      var b, b' := t.balances, o.tables.balances;
      && o.result.value == TradeReceipt(symbol, amount.value, price, cost)
      && SameCatalogueAndUsers(t, o.tables) && SameRequests(t, o.tables)
      && LogExtended(t, o.tables, Transaction(t.nextTxId, user, BuyTx, symbol, amount.value, Some(price), cost, "", now))
      && b' - {(user, USDT), (user, symbol)} == b - {(user, USDT), (user, symbol)}
      && b'.Keys == b.Keys + {(user, symbol)}
      && (symbol != USDT ==>
            && BalanceOf(b', user, symbol) == BalanceOf(b, user, symbol) + amount.value
            && BalanceOf(b', user, USDT) == BalanceOf(b, user, USDT) - (if (user, USDT) in b then cost else 0.0))
      && (symbol == USDT ==>
            BalanceOf(b', user, USDT) == BalanceOf(b, user, USDT) - (if (user, USDT) in b then cost else 0.0) + amount.value)
  {
  }

  /**
   * For a registered user (who therefore has a USDT row), a buy of another
   * coin keeps the user's holdings of the two coins, valued at the trade
   * price, exactly as they were: what leaves the USDT row is what the coin is worth.
   */
  lemma BuyConservesValue(t: Tables, user: string, symbol: string, amount: Option<real>, now: string)
    requires Valid(t) && user in t.users && symbol != USDT
    ensures var o := Buy(t, user, symbol, amount, now);
      o.result.Ok? ==>
      var price := t.coins[symbol];
      BalanceOf(o.tables.balances, user, USDT) + price * BalanceOf(o.tables.balances, user, symbol)
      == BalanceOf(t.balances, user, USDT) + price * BalanceOf(t.balances, user, symbol)
  {
    var o := Buy(t, user, symbol, amount, now);
    if o.result.Ok? {
      var price := t.coins[symbol];
      BuyEffect(t, user, symbol, amount, now);
      assert BalanceOf(o.tables.balances, user, symbol) == BalanceOf(t.balances, user, symbol) + amount.value;
      assert price * BalanceOf(o.tables.balances, user, symbol)
          == price * BalanceOf(t.balances, user, symbol) + Total(price, amount.value);
    }
  }

  lemma BuyKeepsValid(t: Tables, user: string, symbol: string, amount: Option<real>, now: string)
    requires Valid(t)
    ensures Valid(Buy(t, user, symbol, amount, now).tables)
  {
  }

  /** With a positive amount the debit never exceeds the USDT balance checked first. */
  lemma BuyKeepsSolvent(t: Tables, user: string, symbol: string, amount: Option<real>, now: string)
    requires Solvent(t) && (amount.Some? ==> amount.value > 0.0)
    ensures Solvent(Buy(t, user, symbol, amount, now).tables)
  {
  }

  /** `POST /api/sell`: give up `amount` of `symbol` for price × amount USDT. */
  function Sell(t: Tables, user: string, symbol: string, amount: Option<real>, now: string): Outcome<TradeReceipt> {
    if !FieldsPresent(symbol, amount) then Outcome(t, Err(FieldsRequired))
    else if symbol !in t.coins then Outcome(t, Err(CoinNotFound))
    else
      var price := t.coins[symbol];
      var gain := Total(price, amount.value);
      if BalanceOf(t.balances, user, symbol) < amount.value then Outcome(t, Err(NotEnoughCoin))
      else
        var debited := DebitIfPresent(t.balances, user, symbol, amount.value);
        var credited := Upsert(debited, user, USDT, gain);
        var logged := Record(t.(balances := credited), user, SellTx, symbol, amount.value, Some(price), gain, "", now);
        Outcome(logged, Ok(TradeReceipt(symbol, amount.value, price, gain)))
  }

  /** Which answer a sell gets, in the order the handler checks; every refusal leaves the database as it was. */
  lemma SellAnswers(t: Tables, user: string, symbol: string, amount: Option<real>, now: string)
    ensures var o := Sell(t, user, symbol, amount, now);
      && (o.result == Err(FieldsRequired) <==> !FieldsPresent(symbol, amount))
      && (o.result == Err(CoinNotFound) <==> FieldsPresent(symbol, amount) && symbol !in t.coins)
      && (o.result == Err(NotEnoughCoin) <==>
            FieldsPresent(symbol, amount) && symbol in t.coins && BalanceOf(t.balances, user, symbol) < amount.value)
      && (o.result.Ok? <==>
            FieldsPresent(symbol, amount) && symbol in t.coins && BalanceOf(t.balances, user, symbol) >= amount.value)
      && (o.result.Err? ==> o.tables == t)
  {
  }

  /**
   * A successful sell moves `amount` out of an existing coin row (a missing
   * one is not created) and price × amount into the USDT row (created if
   * need be), logs one `sell` row, and changes
   * nothing else.
   */
  lemma SellEffect(t: Tables, user: string, symbol: string, amount: Option<real>, now: string)
    ensures var o := Sell(t, user, symbol, amount, now);
      o.result.Ok? ==>
      var price := t.coins[symbol];
      var gain := Total(price, amount.value);
      var b, b' := t.balances, o.tables.balances;
      && o.result.value == TradeReceipt(symbol, amount.value, price, gain)
      && SameCatalogueAndUsers(t, o.tables) && SameRequests(t, o.tables)
      && LogExtended(t, o.tables, Transaction(t.nextTxId, user, SellTx, symbol, amount.value, Some(price), gain, "", now))
      && b' - {(user, USDT), (user, symbol)} == b - {(user, USDT), (user, symbol)}
      && b'.Keys == b.Keys + {(user, USDT)}
      && (symbol != USDT ==>
            && BalanceOf(b', user, symbol) == BalanceOf(b, user, symbol) - (if (user, symbol) in b then amount.value else 0.0)
            && BalanceOf(b', user, USDT) == BalanceOf(b, user, USDT) + gain)
      && (symbol == USDT ==>
            BalanceOf(b', user, USDT) == BalanceOf(b, user, USDT) - (if (user, USDT) in b then amount.value else 0.0) + gain)
  {
  }

  /**
   * A sell of a coin other than USDT keeps the user's holdings of the two
   * coins, valued at the trade price, exactly as they were.
   */
  lemma SellConservesValue(t: Tables, user: string, symbol: string, amount: Option<real>, now: string)
    requires symbol != USDT
    ensures var o := Sell(t, user, symbol, amount, now);
      o.result.Ok? && (amount.value > 0.0 || (user, symbol) in t.balances) ==>
      var price := t.coins[symbol];
      BalanceOf(o.tables.balances, user, USDT) + price * BalanceOf(o.tables.balances, user, symbol)
      == BalanceOf(t.balances, user, USDT) + price * BalanceOf(t.balances, user, symbol)
  {
    var o := Sell(t, user, symbol, amount, now);
    if o.result.Ok? && (amount.value > 0.0 || (user, symbol) in t.balances) {
      var price := t.coins[symbol];
      SellEffect(t, user, symbol, amount, now);
      assert (user, symbol) in t.balances;
      assert BalanceOf(o.tables.balances, user, symbol) == BalanceOf(t.balances, user, symbol) - amount.value;
      assert price * BalanceOf(o.tables.balances, user, symbol)
          == price * BalanceOf(t.balances, user, symbol) - Total(price, amount.value);
    }
  }

  lemma SellKeepsValid(t: Tables, user: string, symbol: string, amount: Option<real>, now: string)
    requires Valid(t)
    ensures Valid(Sell(t, user, symbol, amount, now).tables)
  {
  }

  /** With a positive amount the coin debit is covered and the USDT credit is not negative. */
  lemma SellKeepsSolvent(t: Tables, user: string, symbol: string, amount: Option<real>, now: string)
    requires Solvent(t) && (amount.Some? ==> amount.value > 0.0)
    ensures Solvent(Sell(t, user, symbol, amount, now).tables)
  {
    if FieldsPresent(symbol, amount) && symbol in t.coins {
      NonNegativeTotal(t.coins[symbol], amount.value);
    }
  }

  /** Prices and amounts that are not negative give a total that is not negative. */
  lemma NonNegativeTotal(price: real, amount: real)
    ensures price >= 0.0 && amount >= 0.0 ==> Total(price, amount) >= 0.0
  {
  }

  // ---------------------------------------------------------------------------------------
  // Deposit and withdraw requests
  // ---------------------------------------------------------------------------------------

  /** A freshly submitted request row: pending, with no approved amount and no approval time. */
  function PendingRequest(id: int, user: string, coin: string, amount: real, address: string, now: string): Request {
    Request(id, user, coin, amount, None, address, Pending, "", now, None)
  }

  /** `POST /api/deposit-request`; the coin is not looked up and no balance moves. */
  function SubmitDeposit(t: Tables, user: string, coinSymbol: string, requestedAmount: Option<real>, now: string): Outcome<int> {
    if !FieldsPresent(coinSymbol, requestedAmount) then Outcome(t, Err(FieldsRequired))
    else
      var id := t.nextDepositId;
      var row := PendingRequest(id, user, coinSymbol, requestedAmount.value, "", now);
      Outcome(t.(deposits := t.deposits[id := row], nextDepositId := id + 1), Ok(id))
  }

  /**
   * A deposit request is refused only for a missing field; otherwise it gets
   * the next id, which on a valid database is fresh and above every earlier
   * one, and adds one pending row and nothing else.
   */
  lemma SubmitDepositEffect(t: Tables, user: string, coinSymbol: string, requestedAmount: Option<real>, now: string)
    ensures var o := SubmitDeposit(t, user, coinSymbol, requestedAmount, now);
      && (o.result.Err? <==> !FieldsPresent(coinSymbol, requestedAmount))
      && (o.result.Err? ==> o == Outcome(t, Err(FieldsRequired)))
      && (o.result.Ok? ==>
            var id := o.result.value;
            && id == t.nextDepositId
            && o.tables.nextDepositId == id + 1
            && o.tables.deposits.Keys == t.deposits.Keys + {id}
            && o.tables.deposits[id] == PendingRequest(id, user, coinSymbol, requestedAmount.value, "", now)
            && (Valid(t) ==> id !in t.deposits && forall k :: k in t.deposits ==> k < id)
            && o.tables.deposits - {id} == t.deposits - {id}
            && o.tables == t.(deposits := o.tables.deposits, nextDepositId := o.tables.nextDepositId))
  {
  }

  lemma SubmitDepositKeepsValid(t: Tables, user: string, coinSymbol: string, requestedAmount: Option<real>, now: string)
    requires Valid(t)
    ensures Valid(SubmitDeposit(t, user, coinSymbol, requestedAmount, now).tables)
  {
  }

  /** `POST /api/withdraw-request`; nothing is reserved, and a missing address becomes "". */
  function SubmitWithdraw(t: Tables, user: string, coinSymbol: string, requestedAmount: Option<real>,
                          address: string, now: string): Outcome<int>
  {
    if !FieldsPresent(coinSymbol, requestedAmount) then Outcome(t, Err(FieldsRequired))
    else
      var id := t.nextWithdrawId;
      var row := PendingRequest(id, user, coinSymbol, requestedAmount.value, address, now);
      Outcome(t.(withdraws := t.withdraws[id := row], nextWithdrawId := id + 1), Ok(id))
  }

  /**
   * A withdraw request is refused only for a missing field; otherwise it gets
   * the next id and adds one pending row. No balance is checked or held.
   */
  lemma SubmitWithdrawEffect(t: Tables, user: string, coinSymbol: string, requestedAmount: Option<real>,
                             address: string, now: string)
    ensures var o := SubmitWithdraw(t, user, coinSymbol, requestedAmount, address, now);
      && (o.result.Err? <==> !FieldsPresent(coinSymbol, requestedAmount))
      && (o.result.Err? ==> o == Outcome(t, Err(FieldsRequired)))
      && (o.result.Ok? ==>
            var id := o.result.value;
            && id == t.nextWithdrawId
            && o.tables.nextWithdrawId == id + 1
            && o.tables.withdraws.Keys == t.withdraws.Keys + {id}
            && o.tables.withdraws[id] == PendingRequest(id, user, coinSymbol, requestedAmount.value, address, now)
            && (Valid(t) ==> id !in t.withdraws && forall k :: k in t.withdraws ==> k < id)
            && o.tables.withdraws - {id} == t.withdraws - {id}
            && o.tables == t.(withdraws := o.tables.withdraws, nextWithdrawId := o.tables.nextWithdrawId))
  {
  }

  lemma SubmitWithdrawKeepsValid(t: Tables, user: string, coinSymbol: string, requestedAmount: Option<real>,
                                 address: string, now: string)
    requires Valid(t)
    ensures Valid(SubmitWithdraw(t, user, coinSymbol, requestedAmount, address, now).tables)
  {
  }

  /** The request row after `UPDATE … SET approved_amount=?, status='approved', note=?, approved_at=?`. */
  function ApprovedRow(r: Request, amount: real, note: string, now: string): Request {
    r.(approvedAmount := Some(amount), status := Approved, note := note, approvedAt := Some(now))
  }

  /**
   * `POST /api/admin/deposits/:id/approve`: a pending request becomes approved
   * and the requester's balance grows by the approved amount, which may differ
   * from the requested one and is not checked beyond being present.
   */
  function ApproveDeposit(t: Tables, id: int, approvedAmount: Option<real>, note: string, now: string): Outcome<ApprovalReceipt> {
    if approvedAmount.None? then Outcome(t, Err(ApprovedAmountRequired))
    else if id !in t.deposits then Outcome(t, Err(RequestNotFound))
    else
      var r := t.deposits[id];
      if r.status != Pending then Outcome(t, Err(AlreadyProcessed))
      else
        var a := approvedAmount.value;
        var approved := t.(deposits := t.deposits[id := ApprovedRow(r, a, note, now)]);
        var credited := approved.(balances := Upsert(t.balances, r.user, r.coinSymbol, a));
        var logged := Record(credited, r.user, DepositTx, r.coinSymbol, a, None, a, note, now);
        Outcome(logged, Ok(ApprovalReceipt(id, r.user, r.coinSymbol, a)))
  }

  /** Which answer a deposit approval gets, in the order the handler checks; every refusal leaves the database as it was. */
  lemma ApproveDepositAnswers(t: Tables, id: int, approvedAmount: Option<real>, note: string, now: string)
    ensures var o := ApproveDeposit(t, id, approvedAmount, note, now);
      && (o.result == Err(ApprovedAmountRequired) <==> approvedAmount.None?)
      && (o.result == Err(RequestNotFound) <==> approvedAmount.Some? && id !in t.deposits)
      && (o.result == Err(AlreadyProcessed) <==>
            approvedAmount.Some? && id in t.deposits && t.deposits[id].status != Pending)
      && (o.result.Ok? <==> approvedAmount.Some? && id in t.deposits && t.deposits[id].status == Pending)
      && (o.result.Err? ==> o.tables == t)
  {
  }

  /**
   * A successful approval marks the row approved with the amount, note and
   * time, credits exactly that amount to the requester's coin row (creating
   * it if need be), logs one `deposit` row, and changes nothing else.
   */
  lemma ApproveDepositEffect(t: Tables, id: int, approvedAmount: Option<real>, note: string, now: string)
    ensures var o := ApproveDeposit(t, id, approvedAmount, note, now);
      o.result.Ok? ==>
      var r := t.deposits[id];
      var a := approvedAmount.value;
      var b, b' := t.balances, o.tables.balances;
      && o.result.value == ApprovalReceipt(id, r.user, r.coinSymbol, a)
      && o.tables.deposits == t.deposits[id := ApprovedRow(r, a, note, now)]
      && BalanceOf(b', r.user, r.coinSymbol) == BalanceOf(b, r.user, r.coinSymbol) + a
      && (r.user, r.coinSymbol) in b'
      && b' - {(r.user, r.coinSymbol)} == b - {(r.user, r.coinSymbol)}
      && LogExtended(t, o.tables, Transaction(t.nextTxId, r.user, DepositTx, r.coinSymbol, a, None, a, note, now))
      && SameCatalogueAndUsers(t, o.tables)
      && o.tables.nextDepositId == t.nextDepositId
      && o.tables.withdraws == t.withdraws && o.tables.nextWithdrawId == t.nextWithdrawId
  {
    if approvedAmount.Some? && id in t.deposits {
      var r := t.deposits[id];
      UpsertAdds(t.balances, r.user, r.coinSymbol, approvedAmount.value);
    }
  }

  /**
   * A deposit is approved, and credited, at most once: once an approval of
   * `id` succeeded, every further approval of it answers "Already processed"
   * and leaves the database as it is, whatever amount and note it carries.
   */
  lemma ApproveDepositAtMostOnce(t: Tables, id: int, a1: Option<real>, a2: Option<real>,
                                 note1: string, note2: string, now1: string, now2: string)
    requires ApproveDeposit(t, id, a1, note1, now1).result.Ok?
    ensures var u := ApproveDeposit(t, id, a1, note1, now1).tables;
      a2.Some? ==> ApproveDeposit(u, id, a2, note2, now2) == Outcome(u, Err(AlreadyProcessed))
  {
    var u := ApproveDeposit(t, id, a1, note1, now1).tables;
    assert id in u.deposits && u.deposits[id].status == Approved;
  }

  lemma ApproveDepositKeepsValid(t: Tables, id: int, approvedAmount: Option<real>, note: string, now: string)
    requires Valid(t)
    ensures Valid(ApproveDeposit(t, id, approvedAmount, note, now).tables)
  {
  }

  /** The approved amount is not checked for sign, so only a non-negative one keeps every balance non-negative. */
  lemma ApproveDepositKeepsSolvent(t: Tables, id: int, approvedAmount: Option<real>, note: string, now: string)
    requires Solvent(t) && (approvedAmount.Some? ==> approvedAmount.value >= 0.0)
    ensures Solvent(ApproveDeposit(t, id, approvedAmount, note, now).tables)
  {
  }

  /**
   * `POST /api/admin/withdraws/:id/approve`: a pending request whose owner
   * holds at least the approved amount becomes approved and that amount is
   * debited; a shortfall leaves the request pending.
   */
  function ApproveWithdraw(t: Tables, id: int, approvedAmount: Option<real>, note: string, now: string): Outcome<ApprovalReceipt> {
    if approvedAmount.None? then Outcome(t, Err(ApprovedAmountRequired))
    else if id !in t.withdraws then Outcome(t, Err(RequestNotFound))
    else
      var r := t.withdraws[id];
      if r.status != Pending then Outcome(t, Err(AlreadyProcessed))
      else
        var a := approvedAmount.value;
        if BalanceOf(t.balances, r.user, r.coinSymbol) < a then Outcome(t, Err(BalanceNotEnough))
        else
          var approved := t.(withdraws := t.withdraws[id := ApprovedRow(r, a, note, now)]);
          var debited := approved.(balances := DebitIfPresent(t.balances, r.user, r.coinSymbol, a));
          var logged := Record(debited, r.user, WithdrawTx, r.coinSymbol, a, None, a, note, now);
          Outcome(logged, Ok(ApprovalReceipt(id, r.user, r.coinSymbol, a)))
  }

  /** Which answer a withdraw approval gets, in the order the handler checks; every refusal leaves the database as it was. */
  lemma ApproveWithdrawAnswers(t: Tables, id: int, approvedAmount: Option<real>, note: string, now: string)
    ensures var o := ApproveWithdraw(t, id, approvedAmount, note, now);
      && (o.result == Err(ApprovedAmountRequired) <==> approvedAmount.None?)
      && (o.result == Err(RequestNotFound) <==> approvedAmount.Some? && id !in t.withdraws)
      && (o.result == Err(AlreadyProcessed) <==>
            approvedAmount.Some? && id in t.withdraws && t.withdraws[id].status != Pending)
      && (o.result == Err(BalanceNotEnough) <==>
            approvedAmount.Some? && id in t.withdraws && t.withdraws[id].status == Pending
            && BalanceOf(t.balances, t.withdraws[id].user, t.withdraws[id].coinSymbol) < approvedAmount.value)
      && (o.result.Ok? <==>
            approvedAmount.Some? && id in t.withdraws && t.withdraws[id].status == Pending
            && BalanceOf(t.balances, t.withdraws[id].user, t.withdraws[id].coinSymbol) >= approvedAmount.value)
      && (o.result.Err? ==> o.tables == t)
  {
  }

  /**
   * A successful approval marks the row approved, subtracts the amount from
   * the requester's existing coin row (a missing row stays missing), logs
   * one `withdraw` row, and changes nothing else.
   */
  lemma ApproveWithdrawEffect(t: Tables, id: int, approvedAmount: Option<real>, note: string, now: string)
    ensures var o := ApproveWithdraw(t, id, approvedAmount, note, now);
      o.result.Ok? ==>
      var r := t.withdraws[id];
      var a := approvedAmount.value;
      var b, b' := t.balances, o.tables.balances;
      && o.result.value == ApprovalReceipt(id, r.user, r.coinSymbol, a)
      && o.tables.withdraws == t.withdraws[id := ApprovedRow(r, a, note, now)]
      && BalanceOf(b', r.user, r.coinSymbol)
         == BalanceOf(b, r.user, r.coinSymbol) - (if (r.user, r.coinSymbol) in b then a else 0.0)
      && b'.Keys == b.Keys
      && b' - {(r.user, r.coinSymbol)} == b - {(r.user, r.coinSymbol)}
      && LogExtended(t, o.tables, Transaction(t.nextTxId, r.user, WithdrawTx, r.coinSymbol, a, None, a, note, now))
      && SameCatalogueAndUsers(t, o.tables)
      && o.tables.nextWithdrawId == t.nextWithdrawId
      && o.tables.deposits == t.deposits && o.tables.nextDepositId == t.nextDepositId
  {
    if approvedAmount.Some? && id in t.withdraws {
      var r := t.withdraws[id];
      DebitIfPresentSubtracts(t.balances, r.user, r.coinSymbol, approvedAmount.value);
    }
  }

  /**
   * A withdrawal is approved, and debited, at most once: once an approval of
   * `id` succeeded, every further approval of it answers "Already processed"
   * and leaves the database as it is.
   */
  lemma ApproveWithdrawAtMostOnce(t: Tables, id: int, a1: Option<real>, a2: Option<real>,
                                  note1: string, note2: string, now1: string, now2: string)
    requires ApproveWithdraw(t, id, a1, note1, now1).result.Ok?
    ensures var u := ApproveWithdraw(t, id, a1, note1, now1).tables;
      a2.Some? ==> ApproveWithdraw(u, id, a2, note2, now2) == Outcome(u, Err(AlreadyProcessed))
  {
    var u := ApproveWithdraw(t, id, a1, note1, now1).tables;
    assert id in u.withdraws && u.withdraws[id].status == Approved;
  }

  /** A refused withdrawal for want of funds leaves the request pending, so it can be approved later. */
  lemma ApproveWithdrawShortfallStaysPending(t: Tables, id: int, a: Option<real>, note: string, now: string)
    requires ApproveWithdraw(t, id, a, note, now).result == Err(BalanceNotEnough)
    ensures var u := ApproveWithdraw(t, id, a, note, now).tables;
      id in u.withdraws && u.withdraws[id].status == Pending
      && BalanceOf(u.balances, u.withdraws[id].user, u.withdraws[id].coinSymbol) < a.value
  {
  }

  lemma ApproveWithdrawKeepsValid(t: Tables, id: int, approvedAmount: Option<real>, note: string, now: string)
    requires Valid(t)
    ensures Valid(ApproveWithdraw(t, id, approvedAmount, note, now).tables)
  {
  }

  /** The balance check comes before the debit, so whatever the amount's sign no balance turns negative. */
  lemma ApproveWithdrawKeepsSolvent(t: Tables, id: int, approvedAmount: Option<real>, note: string, now: string)
    requires Solvent(t)
    ensures Solvent(ApproveWithdraw(t, id, approvedAmount, note, now).tables)
  {
  }

  // ---------------------------------------------------------------------------------------
  // Registration
  // ---------------------------------------------------------------------------------------

  /** The opening USDT balance of a registered user. */
  const OPENING_USDT: real := 10000.0

  /**
   * `POST /api/auth/register`. The length check counts the name as sent; the
   * row is stored, and looked up, under the trimmed name; the opening balance
   * is inserted or ignored.
   */
  function Register(t: Tables, username: string, pin: string, now: string): Outcome<string> {
    if !Truthy(username) || !Truthy(pin) then Outcome(t, Err(CredentialsRequired))
    else if Utf16Length(username) < 2 then Outcome(t, Err(UsernameTooShort))
    else if Utf16Length(pin) < 4 then Outcome(t, Err(PinTooShort))
    else
      var u := Trim(username);
      if u in t.users then Outcome(t, Err(UsernameExists))
      else
        var withUser := t.(users := t.users[u := UserRow(pin, now)]);
        var funded := withUser.(balances := InsertOrIgnore(t.balances, (u, USDT), OPENING_USDT));
        Outcome(funded, Ok(u))
  }

  /** Which answer a registration gets, in the order the handler checks; every refusal leaves the database as it was. */
  lemma RegisterAnswers(t: Tables, username: string, pin: string, now: string)
    ensures var o := Register(t, username, pin, now);
      && (o.result == Err(CredentialsRequired) <==> !Truthy(username) || !Truthy(pin))
      && (o.result == Err(UsernameTooShort) <==>
            Truthy(username) && Truthy(pin) && Utf16Length(username) < 2)
      && (o.result == Err(PinTooShort) <==>
            Truthy(username) && Truthy(pin) && Utf16Length(username) >= 2 && Utf16Length(pin) < 4)
      && (o.result == Err(UsernameExists) <==>
            Truthy(username) && Truthy(pin) && Utf16Length(username) >= 2 && Utf16Length(pin) >= 4
            && Trim(username) in t.users)
      && (o.result.Ok? <==>
            Truthy(username) && Truthy(pin) && Utf16Length(username) >= 2 && Utf16Length(pin) >= 4
            && Trim(username) !in t.users)
      && (o.result.Err? ==> o.tables == t)
  {
  }

  /**
   * A successful registration stores the trimmed name with the PIN, gives it a
   * USDT row of 10000 unless a row under that name survives from before, and
   * changes nothing else.
   */
  lemma RegisterEffect(t: Tables, username: string, pin: string, now: string)
    ensures var o := Register(t, username, pin, now);
      o.result.Ok? ==>
      var u := Trim(username);
      var b, b' := t.balances, o.tables.balances;
      && o.result.value == u
      && o.tables.users == t.users[u := UserRow(pin, now)]
      && (u, USDT) in b'
      && BalanceOf(b', u, USDT) == (if (u, USDT) in b then BalanceOf(b, u, USDT) else OPENING_USDT)
      && b' - {(u, USDT)} == b - {(u, USDT)}
      && o.tables.coins == t.coins && SameRequests(t, o.tables)
      && o.tables.transactions == t.transactions && o.tables.nextTxId == t.nextTxId
  {
  }

  lemma RegisterKeepsValid(t: Tables, username: string, pin: string, now: string)
    requires Valid(t)
    ensures Valid(Register(t, username, pin, now).tables)
  {
  }

  lemma RegisterKeepsSolvent(t: Tables, username: string, pin: string, now: string)
    requires Solvent(t)
    ensures Solvent(Register(t, username, pin, now).tables)
  {
  }
}
