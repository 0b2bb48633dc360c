# crypto-sim ledger, modelled in Dafny

crypto-sim is a simulated exchange backend. It keeps per-user balances of fictitious coins in a
SQLite database. Users buy and sell against a stored reference price. Deposits and withdrawals go
through requests that an admin approves. This project models the ledger and the request-approval
state machine: the tables of `db.js` with their start-up seeding, and the route handlers of
`server.js` that move money.

Layout:

- `wrappers.dfy` (`Wrappers`): `Option` and `Result`.
- `js.dfy` (`Js`): the JavaScript semantics the handlers rely on. This covers truthiness of body
  fields, `String.prototype.trim`, and `length` counted in UTF-16 code units.
- `db.dfy` (`Db`): the six tables as one value `Tables`, keyed as their PRIMARY KEY clauses say.
  It also holds the AUTOINCREMENT counters, the SQL statement shapes the handlers use
  (`INSERT OR IGNORE`, the upsert, `UPDATE … SET amount = amount - ?`), the seeding (`Seed`) and
  the invariants `Valid` and `Solvent`.
- `settlement.dfy` (`Settlement`): one function per money-moving handler, from the database
  before the request to the database after it plus the answer. Lemmas state each handler's answers
  and effects.
- `store.dfy` (`Server.Store`): the shared database as a class whose fields are the tables. Each
  handler is a method that runs the handler's statements in the source's order. Each method is
  proved to have exactly the effect of its `Settlement` function.
- `history.dfy` (`History`): any sequence of handler calls. Validity is kept, approvals are final,
  the log is append-only, and balances stay non-negative when trade amounts are positive and
  approved deposit amounts are non-negative.
- `queries.dfy` (`Queries`): the `ORDER BY id DESC LIMIT n` listings of transactions and requests.
- `scenarios.dfy` (`Scenarios`): concrete runs on a freshly seeded database.

Amounts and prices are exact `real`s. A JSON number field that the body leaves out is `None`. A
string field that the body leaves out is `""`. The JavaScript test `!x` is `Js.Truthy` /
`Js.TruthyNumber`. The caller's user name, which the authentication middleware supplies, is a
parameter. Timestamps (`nowISO()`) are `now` parameters.

The model follows the code where the code checks less than a careful exchange would:

- Trade and request amounts are only tested for truthiness. Zero is refused, but negative amounts
  pass.
- `approved_amount` is only tested against `undefined`, so zero and negative amounts pass.
- Deposit and withdraw requests never look the coin up.
- A withdraw request reserves nothing.
- There is no reject operation, so no request ever becomes `rejected`. This is proved as
  `History.ReachableIsValid`.
- The register length check counts the untrimmed name, but the row is stored under the trimmed name.
- `UPDATE balances SET amount = amount - ?` changes nothing when the row is missing. A debit
  therefore never creates a row. `Valid` records that every registered user has a USDT row, so the
  debit of a buy by a logged-in user always applies.

## Model

| member | source | states |
|---|---|---|
| `Server.Store.Create` | db.js:5-78 | a new database file has every table empty and every AUTOINCREMENT counter at 1 |
| `Server.Store.Open` | db.js:2-78 | opening an existing database file keeps every table and counter exactly as stored |
| `Server.Store.Init` | db.js:80-102 | the new tables are exactly the seeding applied to the old ones, each seed row inserted or ignored in turn |
| `Db.SeedUnder` | db.js:80-102 | seeding puts the catalogue, the two accounts and the two opening balances under the existing rows, and touches no other table |
| `Db.SeedCoinsUnder` | db.js:81-85 | the five coin statements add BTC 50000, ETH 2500, BNB 300, SOL 100, USDT 1 wherever the symbol is absent |
| `Db.SeedUserRowsUnder` | db.js:88-90 | the `demo` and `admin` rows are added only where the name is absent |
| `Db.SeedBalanceRowsUnder` | db.js:93-102 | the opening USDT rows of `demo` (10000) and `admin` (0) are added only where the key is absent |
| `Db.SeedIdempotent` | db.js:80-102 | seeding twice gives the same database as seeding once, whatever the clock says |
| `Db.SeedEmpty` | db.js:80-102 | on a new file the catalogue is exactly the five coins, the users are exactly demo and admin, demo holds 10000 USDT and admin 0 |
| `Db.SeedKeepsValid` | db.js:88-102 | seeding keeps the database valid: each seeded user gets a USDT row |
| `Db.SeedKeepsSolvent` | db.js:81-102 | seeding adds no negative price or balance |
| `Db.EmptyTablesValid` | db.js:25-69 | a new file satisfies the AUTOINCREMENT and status invariants and has no negative amount |
| `Db.UpsertAdds` | server.js:161-169 | the `ON CONFLICT DO UPDATE` upsert creates the row if absent, adds the amount, and touches no other row |
| `Db.DebitIfPresentSubtracts` | server.js:156-159 | `UPDATE … amount = amount - ?` subtracts from an existing row, creates none, and touches no other row |
| `Db.InsertOrIgnoreUnder` | db.js:81 | `INSERT OR IGNORE` leaves an existing row under the key as it was |
| `Js.Trim` | server.js:61 | the stored name is the input minus exactly its leading and trailing white space |
| `Js.Utf16Length` | server.js:58 | JavaScript's `length` is between the character count and twice it, and equals it within the Basic Multilingual Plane |
| `Js.Utf16LengthChar` | server.js:58 | one character counts two code units above U+FFFF and one otherwise |
| `Js.Utf16LengthConcat` | server.js:58 | `length` adds up over concatenation, so a name's length is the sum of its characters' code units |
| `Server.Store.Register` | server.js:54-84 | registration leaves the tables and the answer exactly as `Settlement.Register` gives them |
| `Settlement.RegisterAnswers` | server.js:57-65 | the answer is fixed by the checks in source order: both fields, untrimmed name length, PIN length, trimmed name not yet taken; every refusal changes nothing |
| `Settlement.RegisterEffect` | server.js:61-80 | success stores the trimmed name with the PIN and gives it 10000 USDT unless a row under that name already exists; nothing else changes |
| `Settlement.RegisterKeepsValid` | server.js:67-80 | a new user always ends with a USDT row |
| `Settlement.RegisterKeepsSolvent` | server.js:74-80 | registration adds no negative balance |
| `Server.Store.Append` | server.js:171-177 | one log row with the next transaction id is appended and the counter advances |
| `Server.Store.Buy` | server.js:137-183 | a buy leaves the tables and the answer exactly as `Settlement.Buy` gives them |
| `Settlement.BuyAnswers` | server.js:140-154 | missing or zero symbol or amount, unknown coin, and USDT balance (missing row = 0) below price × amount are refused in that order with no change; otherwise the buy succeeds |
| `Settlement.BuyEffect` | server.js:156-179 | success debits price × amount from an existing USDT row and credits amount to the coin row, creating it if absent; the only row it can create is the coin row, so a missing USDT row stays missing; it logs one `buy` row with the price and total = cost; no other balance, request or table changes |
| `Settlement.BuyConservesValue` | server.js:145-169 | for a registered user buying a coin other than USDT, USDT plus price × coin holding is the same before and after |
| `Settlement.BuyKeepsValid` | server.js:156-177 | a buy keeps the database valid |
| `Settlement.BuyKeepsSolvent` | server.js:147-169 | with a positive amount, a buy leaves no balance negative |
| `Server.Store.Sell` | server.js:186-232 | a sell leaves the tables and the answer exactly as `Settlement.Sell` gives them |
| `Settlement.SellAnswers` | server.js:189-203 | missing or zero symbol or amount, unknown coin, and coin balance below amount are refused in that order with no change; otherwise the sell succeeds |
| `Settlement.SellEffect` | server.js:205-228 | success debits amount from an existing coin row (a missing one stays missing), credits price × amount to USDT, creating that row if absent, and logs one `sell` row with total = gain; nothing else changes |
| `Settlement.SellConservesValue` | server.js:194-218 | a sell of a coin other than USDT keeps USDT plus price × coin holding unchanged, provided the amount is positive or the coin row exists (a negative sell with no coin row debits nothing but still pays out) |
| `Settlement.SellKeepsValid` | server.js:205-226 | a sell keeps the database valid |
| `Settlement.SellKeepsSolvent` | server.js:196-218 | with a positive amount, a sell leaves no balance negative |
| `Server.Store.SubmitDeposit` | server.js:239-255 | a deposit request leaves the tables and the answer exactly as `Settlement.SubmitDeposit` gives them |
| `Settlement.SubmitDepositEffect` | server.js:242-252 | refused only for a missing or zero field; otherwise one pending row with the next id, no approved amount, no approval time and address ""; balances, log and everything else untouched |
| `Settlement.SubmitDepositKeepsValid` | server.js:244-249 | a deposit request keeps the database valid |
| `Server.Store.SubmitWithdraw` | server.js:267-283 | a withdraw request leaves the tables and the answer exactly as `Settlement.SubmitWithdraw` gives them |
| `Settlement.SubmitWithdrawEffect` | server.js:270-280 | refused only for a missing or zero field; otherwise one pending row with the next id and the given address; nothing is reserved or otherwise changed |
| `Settlement.SubmitWithdrawKeepsValid` | server.js:272-277 | a withdraw request keeps the database valid |
| `Server.Store.ApproveDeposit` | server.js:331-375 | a deposit approval leaves the tables and the answer exactly as `Settlement.ApproveDeposit` gives them |
| `Settlement.ApproveDepositAnswers` | server.js:335-339 | a missing approved amount, an unknown id, and a non-pending request are refused in that order with no change; otherwise the approval succeeds |
| `Settlement.ApproveDepositEffect` | server.js:341-373 | success marks the row approved with amount, note and time, credits that amount to the request's (user, coin) row, and logs one `deposit` row with no price and total = amount |
| `Settlement.ApproveDepositAtMostOnce` | server.js:337-344 | after a successful approval, approving the same id again is refused as already processed and changes nothing |
| `Settlement.ApproveDepositKeepsValid` | server.js:341-364 | a deposit approval keeps the database valid |
| `Settlement.ApproveDepositKeepsSolvent` | server.js:347-355 | with a non-negative approved amount, no balance becomes negative |
| `Server.Store.ApproveWithdraw` | server.js:386-434 | a withdraw approval leaves the tables and the answer exactly as `Settlement.ApproveWithdraw` gives them |
| `Settlement.ApproveWithdrawAnswers` | server.js:390-403 | a missing amount, an unknown id, a non-pending request, and a balance (missing row = 0) below the amount are refused in that order with no change |
| `Settlement.ApproveWithdrawEffect` | server.js:405-430 | success marks the row approved, subtracts the amount from the existing (user, coin) row, and logs one `withdraw` row; nothing else changes |
| `Settlement.ApproveWithdrawAtMostOnce` | server.js:392-408 | after a successful approval, approving the same id again is refused as already processed and changes nothing |
| `Settlement.ApproveWithdrawShortfallStaysPending` | server.js:397-403 | a withdrawal refused for want of funds leaves the request pending |
| `Settlement.ApproveWithdrawKeepsValid` | server.js:405-421 | a withdraw approval keeps the database valid |
| `Settlement.ApproveWithdrawKeepsSolvent` | server.js:397-413 | because the balance is checked first, no balance becomes negative, whatever the amount's sign |
| `History.ApplyKeepsValid` | server.js:137-434 | every handler and the seeding keep the database valid |
| `History.RunKeepsValid` | db.js:25-69 | every sequence of calls keeps ids unique and increasing below their counters and status consistent with the approval columns |
| `History.ReachableIsValid` | db.js:33 | no database built from a new file has a `rejected` request |
| `History.ApplyKeepsSolvent` | server.js:137-434 | with positive trade amounts and non-negative approved deposit amounts, every handler and the seeding keep balances and prices non-negative |
| `History.RunKeepsSolvent` | server.js:137-434 | with positive trade amounts and non-negative approved deposit amounts, no sequence of calls drives a balance below zero |
| `History.ApplyKeepsApprovedDeposit` | server.js:337-344 | no call changes an approved deposit row |
| `History.ApplyKeepsApprovedWithdraw` | server.js:392-408 | no call changes an approved withdraw row |
| `History.RunKeepsApproved` | server.js:331-434 | across any sequence of calls an approved request stays exactly as approved |
| `History.ApplyExtendsLog` | db.js:57-69 | one call appends at most one transaction row and rewrites none |
| `History.RunExtendsLog` | db.js:57-69 | the transaction log is append-only: each earlier log is a prefix of each later one |
| `Queries.Newest` | server.js:120-130 | the user's transactions, as many as the limit allows, all from the log and all the user's |
| `Queries.NewestDescending` | server.js:123 | the listing is newest first: ids strictly decrease |
| `Queries.NewestIsNewest` | server.js:123 | a row of the user's that is left out is older than every listed row, and the limit was reached |
| `Queries.Descending` | server.js:258-264 | a request listing holds at most the limit of matching rows, each under its own id |
| `Queries.DescendingOrdered` | server.js:323-328 | request listings are newest first |
| `Queries.DescendingIsNewest` | server.js:378-383 | a matching request left out is older than every listed one, and the limit was reached |
| `Queries.UserTransactionsNewestFirst` | server.js:120-130 | on every valid database a user's transaction history is newest first |
| `Queries.RequestListingsNewestFirst` | server.js:258-292 | on every valid database the user and admin request listings are newest first |
| `Queries.UserDepositsComplete` | server.js:258-264 | a user's deposit listing shorter than 50 contains every deposit request of theirs |
| `Scenarios.DemoBuysBtc` | server.js:137-183 | after seeding, demo buying 0.1 BTC pays 5000 USDT, holds 0.1 BTC, and the log has one `buy` row of total 5000 |
| `Scenarios.DemoOversellsBtc` | server.js:186-232 | then selling 0.2 BTC is refused for want of coin and changes nothing |
| `Scenarios.WithdrawBeyondBalance` | server.js:386-434 | with 50 USDT, a 100 USDT withdraw request is accepted but its approval is refused and it stays pending |
| `Scenarios.DepositApprovedOnce` | server.js:331-375 | a 500 USDT deposit approval gives a user with no row 500 USDT, logs one `deposit` row, and a second approval is refused |

## Left out

- HTTP plumbing is not modelled: Express setup, CORS, static files, JSON parsing and the server
  start. HTTP status codes and messages become the `Settlement.Error` kinds.
- Authentication is not modelled: `authRequired`, `adminRequired`, login and PIN reset. The
  caller's user name is a parameter, and approvals are assumed to come from the admin.
- Database errors (`err` callbacks answering 500) are not modelled. Each handler is one atomic step
  that cannot fail inside SQLite.
- The SQLite callbacks are not modelled. Their statements are separate and not transactional, and
  concurrent requests could interleave between a check and its writes. The model runs each handler
  to completion before the next starts.
- `REAL` columns are floating point in the source. The model uses exact `real` arithmetic and
  does not capture rounding.
- JSON values of the wrong type are not modelled: a numeric string, `null`, or a non-string
  symbol. For example, `approved_amount: null` passes the `=== undefined` test. Amounts are
  present-or-absent reals, and the `:id` route parameter is an integer.
- `GET /api/coins`, `GET /api/balance` and `GET /api/admin/users` are plain table reads and are
  not modelled.
- A reject operation does not exist in the source and is not modelled.
- Timestamps are opaque `now` parameters. Each handler is given one time, although the source
  calls `nowISO()` separately for the request row and for the log row.
- Strings are sequences of Unicode scalar values, so a name holding a lone surrogate (which a JSON
  escape such as `"\ud800"` can produce) cannot be represented, and its `length` is not modelled.
