/**
 * Any sequence of handler calls, one after another, and what holds across
 * all of them: the database stays valid, an approved request is final, the
 * transaction log only grows, and no balance goes negative as long as every
 * amount a caller sends is positive.
 */
module History {
  import opened Wrappers
  import opened Db
  import opened Settlement

  /** One call of a route handler, or one start-up seeding. */
  datatype Op =
    | RegisterOp(username: string, pin: string, now: string)
    | BuyOp(user: string, symbol: string, amount: Option<real>, now: string)
    | SellOp(user: string, symbol: string, amount: Option<real>, now: string)
    | DepositRequestOp(user: string, symbol: string, amount: Option<real>, now: string)
    | WithdrawRequestOp(user: string, symbol: string, amount: Option<real>, address: string, now: string)
    | ApproveDepositOp(id: int, amount: Option<real>, note: string, now: string)
    | ApproveWithdrawOp(id: int, amount: Option<real>, note: string, now: string)
    | SeedOp(now: string)

  /** The database after one call. */
  function Apply(t: Tables, op: Op): Tables {
    match op
    case RegisterOp(username, pin, now) => Register(t, username, pin, now).tables
    case BuyOp(user, symbol, amount, now) => Buy(t, user, symbol, amount, now).tables
    case SellOp(user, symbol, amount, now) => Sell(t, user, symbol, amount, now).tables
    case DepositRequestOp(user, symbol, amount, now) => SubmitDeposit(t, user, symbol, amount, now).tables
    case WithdrawRequestOp(user, symbol, amount, address, now) => SubmitWithdraw(t, user, symbol, amount, address, now).tables
    case ApproveDepositOp(id, amount, note, now) => ApproveDeposit(t, id, amount, note, now).tables
    case ApproveWithdrawOp(id, amount, note, now) => ApproveWithdraw(t, id, amount, note, now).tables
    case SeedOp(now) => Seed(t, now)
  }

  /** The database after the calls `ops`, in order. */
  function Run(t: Tables, ops: seq<Op>): Tables
    decreases |ops|
  {
    if ops == [] then t else Run(Apply(t, ops[0]), ops[1..])
  }

  /** Every trade amount the call carries is positive and every approved deposit amount is not negative. */
  predicate PositiveAmounts(op: Op) {
    match op
    case BuyOp(_, _, amount, _) => amount.Some? ==> amount.value > 0.0
    case SellOp(_, _, amount, _) => amount.Some? ==> amount.value > 0.0
    case ApproveDepositOp(_, amount, _, _) => amount.Some? ==> amount.value >= 0.0
    case _ => true
  }

  /** Every handler, and the seeding, keeps the database valid. */
  lemma ApplyKeepsValid(t: Tables, op: Op)
    requires Valid(t)
    ensures Valid(Apply(t, op))
  {
    match op
    case RegisterOp(username, pin, now) => RegisterKeepsValid(t, username, pin, now);
    case BuyOp(user, symbol, amount, now) => BuyKeepsValid(t, user, symbol, amount, now);
    case SellOp(user, symbol, amount, now) => SellKeepsValid(t, user, symbol, amount, now);
    case DepositRequestOp(user, symbol, amount, now) => SubmitDepositKeepsValid(t, user, symbol, amount, now);
    case WithdrawRequestOp(user, symbol, amount, address, now) =>
      SubmitWithdrawKeepsValid(t, user, symbol, amount, address, now);
    case ApproveDepositOp(id, amount, note, now) => ApproveDepositKeepsValid(t, id, amount, note, now);
    case ApproveWithdrawOp(id, amount, note, now) => ApproveWithdrawKeepsValid(t, id, amount, note, now);
    case SeedOp(now) => SeedKeepsValid(t, now);
  }

  /** Every database reachable from a valid one by handler calls is valid. */
  lemma {:induction false} RunKeepsValid(t: Tables, ops: seq<Op>)
    requires Valid(t)
    ensures Valid(Run(t, ops))
    decreases |ops|
  {
    if ops != [] {
      ApplyKeepsValid(t, ops[0]);
      RunKeepsValid(Apply(t, ops[0]), ops[1..]);
    }
  }

  /** In particular every database the server can build from a new file, so no request is ever `rejected`. */
  lemma {:induction false} ReachableIsValid(ops: seq<Op>)
    ensures Valid(Run(EmptyTables(), ops))
    ensures forall id :: id in Run(EmptyTables(), ops).deposits ==> Run(EmptyTables(), ops).deposits[id].status != Rejected
    ensures forall id :: id in Run(EmptyTables(), ops).withdraws ==> Run(EmptyTables(), ops).withdraws[id].status != Rejected
  {
    EmptyTablesValid();
    RunKeepsValid(EmptyTables(), ops);
  }

  /** Every handler, and the seeding, keeps balances and prices non-negative when the amounts sent are positive. */
  lemma ApplyKeepsSolvent(t: Tables, op: Op)
    requires Solvent(t) && PositiveAmounts(op)
    ensures Solvent(Apply(t, op))
  {
    match op
    case RegisterOp(username, pin, now) => RegisterKeepsSolvent(t, username, pin, now);
    case BuyOp(user, symbol, amount, now) => BuyKeepsSolvent(t, user, symbol, amount, now);
    case SellOp(user, symbol, amount, now) => SellKeepsSolvent(t, user, symbol, amount, now);
    case DepositRequestOp(user, symbol, amount, now) =>
    case WithdrawRequestOp(user, symbol, amount, address, now) =>
    case ApproveDepositOp(id, amount, note, now) => ApproveDepositKeepsSolvent(t, id, amount, note, now);
    case ApproveWithdrawOp(id, amount, note, now) => ApproveWithdrawKeepsSolvent(t, id, amount, note, now);
    case SeedOp(now) => SeedKeepsSolvent(t, now);
  }

  /** With positive amounts only, no balance ever becomes negative. */
  lemma {:induction false} RunKeepsSolvent(t: Tables, ops: seq<Op>)
    requires Solvent(t)
    requires forall i :: 0 <= i < |ops| ==> PositiveAmounts(ops[i])
    ensures Solvent(Run(t, ops))
    decreases |ops|
  {
    if ops != [] {
      ApplyKeepsSolvent(t, ops[0]);
      RunKeepsSolvent(Apply(t, ops[0]), ops[1..]);
    }
  }

  /** An approved deposit row never changes again: a deposit is approved, and credited, at most once. */
  lemma ApplyKeepsApprovedDeposit(t: Tables, op: Op, id: int)
    requires Valid(t)
    requires id in t.deposits && t.deposits[id].status == Approved
    ensures id in Apply(t, op).deposits && Apply(t, op).deposits[id] == t.deposits[id]
  {
    match op
    case RegisterOp(username, pin, now) =>
    case BuyOp(user, symbol, amount, now) =>
    case SellOp(user, symbol, amount, now) =>
    case DepositRequestOp(user, symbol, amount, now) =>
    case WithdrawRequestOp(user, symbol, amount, address, now) =>
    case ApproveDepositOp(i, amount, note, now) =>
    case ApproveWithdrawOp(i, amount, note, now) =>
    case SeedOp(now) =>
  }

  /** An approved withdraw row never changes again: a withdrawal is approved, and debited, at most once. */
  lemma ApplyKeepsApprovedWithdraw(t: Tables, op: Op, id: int)
    requires Valid(t)
    requires id in t.withdraws && t.withdraws[id].status == Approved
    ensures id in Apply(t, op).withdraws && Apply(t, op).withdraws[id] == t.withdraws[id]
  {
    match op
    case RegisterOp(username, pin, now) =>
    case BuyOp(user, symbol, amount, now) =>
    case SellOp(user, symbol, amount, now) =>
    case DepositRequestOp(user, symbol, amount, now) =>
    case WithdrawRequestOp(user, symbol, amount, address, now) =>
    case ApproveDepositOp(i, amount, note, now) =>
    case ApproveWithdrawOp(i, amount, note, now) =>
    case SeedOp(now) =>
  }

  /** Across any run of calls an approved request stays exactly as approved. */
  lemma {:induction false} RunKeepsApproved(t: Tables, ops: seq<Op>, id: int)
    requires Valid(t)
    ensures id in t.deposits && t.deposits[id].status == Approved ==>
      id in Run(t, ops).deposits && Run(t, ops).deposits[id] == t.deposits[id]
    ensures id in t.withdraws && t.withdraws[id].status == Approved ==>
      id in Run(t, ops).withdraws && Run(t, ops).withdraws[id] == t.withdraws[id]
    decreases |ops|
  {
    if ops != [] {
      if id in t.deposits && t.deposits[id].status == Approved {
        ApplyKeepsApprovedDeposit(t, ops[0], id);
      }
      if id in t.withdraws && t.withdraws[id].status == Approved {
        ApplyKeepsApprovedWithdraw(t, ops[0], id);
      }
      ApplyKeepsValid(t, ops[0]);
      RunKeepsApproved(Apply(t, ops[0]), ops[1..], id);
    }
  }

  /** One call appends at most one log row and rewrites none. */
  lemma ApplyExtendsLog(t: Tables, op: Op)
    ensures var u := Apply(t, op);
      u.transactions == t.transactions || u.transactions == t.transactions + [u.transactions[|t.transactions|]]
  {
    match op
    case RegisterOp(username, pin, now) =>
    case BuyOp(user, symbol, amount, now) =>
    case SellOp(user, symbol, amount, now) =>
    case DepositRequestOp(user, symbol, amount, now) =>
    case WithdrawRequestOp(user, symbol, amount, address, now) =>
    case ApproveDepositOp(id, amount, note, now) =>
    case ApproveWithdrawOp(id, amount, note, now) =>
    case SeedOp(now) =>
  }

  /** The transaction log is append-only: every earlier log is a prefix of every later one. */
  lemma {:induction false} RunExtendsLog(t: Tables, ops: seq<Op>)
    ensures t.transactions <= Run(t, ops).transactions
    decreases |ops|
  {
    if ops != [] {
      var u := Apply(t, ops[0]);
      ApplyExtendsLog(t, ops[0]);
      RunExtendsLog(u, ops[1..]);
    }
  }
}
