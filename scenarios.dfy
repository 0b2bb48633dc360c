/**
 * Concrete runs on a freshly seeded database: the `demo` account trading
 * against the seeded catalogue, and the admin approving requests.
 */
module Scenarios {
  import opened Wrappers
  import opened Db
  import opened Settlement

  /** A new database file after the start-up seeding. */
  function Fresh(now: string): Tables {
    Seed(EmptyTables(), now)
  }

  /** Buying 0.1 BTC at 50000 takes 5000 of demo's 10000 USDT and logs one `buy` row of total 5000. */
  lemma DemoBuysBtc(now: string, at: string)
    ensures var o := Buy(Fresh(now), "demo", "BTC", Some(0.1), at);
      && o.result == Ok(TradeReceipt("BTC", 0.1, 50000.0, 5000.0))
      && BalanceOf(o.tables.balances, "demo", USDT) == 5000.0
      && BalanceOf(o.tables.balances, "demo", "BTC") == 0.1
      && o.tables.transactions == [Transaction(1, "demo", BuyTx, "BTC", 0.1, Some(50000.0), 5000.0, "", at)]
  {
    SeedEmpty(now);
  }

  /** Then selling 0.2 BTC, twice what demo holds, is refused and changes nothing. */
  lemma DemoOversellsBtc(now: string, at1: string, at2: string)
    ensures var t := Buy(Fresh(now), "demo", "BTC", Some(0.1), at1).tables;
      Sell(t, "demo", "BTC", Some(0.2), at2) == Outcome(t, Err(NotEnoughCoin))
  {
    DemoBuysBtc(now, at1);
  }

  /**
   * A user holding 50 USDT asks to withdraw 100: the request is accepted,
   * but approving 100 is refused and the request stays pending.
   */
  lemma WithdrawBeyondBalance(t: Tables, user: string, at1: string, at2: string)
    requires BalanceOf(t.balances, user, USDT) == 50.0
    ensures var s := SubmitWithdraw(t, user, USDT, Some(100.0), "", at1);
      && s.result == Ok(t.nextWithdrawId)
      && var a := ApproveWithdraw(s.tables, t.nextWithdrawId, Some(100.0), "", at2);
      && a == Outcome(s.tables, Err(BalanceNotEnough))
      && a.tables.withdraws[t.nextWithdrawId].status == Pending
  {
  }

  /**
   * Approving a 500 USDT deposit for a user with no USDT row gives them 500,
   * marks the request approved and logs one `deposit` row; approving it again
   * is refused as already processed.
   */
  lemma DepositApprovedOnce(t: Tables, user: string, at1: string, at2: string, at3: string)
    requires (user, USDT) !in t.balances
    ensures var s := SubmitDeposit(t, user, USDT, Some(500.0), at1);
      var id := t.nextDepositId;
      && s.result == Ok(id)
      && var a := ApproveDeposit(s.tables, id, Some(500.0), "", at2);
      && a.result.Ok?
      && BalanceOf(a.tables.balances, user, USDT) == 500.0
      && a.tables.deposits[id].status == Approved
      && a.tables.transactions == t.transactions + [Transaction(t.nextTxId, user, DepositTx, USDT, 500.0, None, 500.0, "", at2)]
      && ApproveDeposit(a.tables, id, Some(500.0), "", at3) == Outcome(a.tables, Err(AlreadyProcessed))
  {
    var s := SubmitDeposit(t, user, USDT, Some(500.0), at1);
    var id := t.nextDepositId;
    ApproveDepositEffect(s.tables, id, Some(500.0), "", at2);
    ApproveDepositAtMostOnce(s.tables, id, Some(500.0), Some(500.0), "", "", at2, at3);
  }
}
