/**
  Clients of the handlers: sequences of requests and what the handlers'
  contracts let a caller conclude about them.
 */
module Scenarios {
  import opened Wrappers
  import opened Ledger
  import opened Accounts
  import opened Finance

  /**
    A buy of n shares followed by a sell of the same n shares of the symbol as stored,
    at unchanged quotes: whatever the buy's answer, the user's cash and every holding
    end where they started, and the sell is accepted whenever the buy was.
   */
  method BuyThenSell(app: App, symbol: string, quotes: map<string, real>, n: int) returns (bought: Outcome, sold: Outcome)
    requires app.Valid() && app.NoShortPositions()
    modifies app
    ensures app.Valid() && app.NoShortPositions()
    ensures bought == Done ==> sold == Done
    ensures app.users == old(app.users)
    ensures forall u: int, s: string :: Holding(app.txns, u, s) == Holding(old(app.txns), u, s)
    ensures app.session.Some? ==>
              forall g :: g in Holdings(app.txns, app.session.value) <==> g in Holdings(old(app.txns), app.session.value)
  {
    bought := app.Buy(symbol, quotes, Some(n));
    if bought != Done {
      sold := bought;
      return;
    }
    ghost var txns0, users0 := old(app.txns), old(app.users);
    var uid, sym := app.session.value, Upper(symbol);
    assert Lookup(quotes, sym).Some?;
    assert Holding(txns0, uid, sym) >= 0 by {
      assert old(app.NoShortPositions());
    }
    sold := SellBack(app, sym, quotes, n, txns0, users0);
    BuySellRestoresHoldings(txns0, uid, sym, n, quotes[sym], quotes[sym]);
  }

  /** The second half of `BuyThenSell`: selling back the n shares just bought at the same quote. */
  method SellBack(app: App, sym: string, quotes: map<string, real>, n: int, ghost txns0: seq<Txn>, ghost users0: map<int, User>)
    returns (sold: Outcome)
    requires app.Valid() && app.NoShortPositions() && app.session.Some? && app.session.value in users0
    requires sym in quotes && n > 0 && Holding(txns0, app.session.value, sym) >= 0
    requires app.txns == txns0 + [Txn(app.session.value, sym, n, quotes[sym])]
    requires app.users == AdjustCash(users0, app.session.value, -Value(quotes[sym], n))
    modifies app
    ensures app.Valid() && app.NoShortPositions() && app.session == old(app.session)
    ensures sold == Done && app.users == users0
    ensures app.txns == txns0 + [Txn(app.session.value, sym, n, quotes[sym]), Txn(app.session.value, sym, -n, quotes[sym])]
  {
    var uid, price := app.session.value, quotes[sym];
    ghost var buy := Txn(uid, sym, n, price);
    HoldingAppend(txns0, buy, uid, sym);
    HasRowsAppend(txns0, buy, uid, sym);
    assert RowOf(buy, uid, sym);
    assert HasRows(app.txns, uid, sym) && Holding(app.txns, uid, sym) >= n;
    assert Lookup(quotes, sym) == Some(price);
    sold := app.Sell(sym, quotes, Some(n));
    assert sold == Done;
    assert app.users == AdjustCash(AdjustCash(users0, uid, -Value(price, n)), uid, Value(price, n));
    AdjustCashUndo(users0, uid, Value(price, n));
    assert app.txns == txns0 + [buy, Txn(uid, sym, -n, price)];
  }

  /** Registering a taken name is refused and adds nobody; `/check` then answers true for it. */
  method RegisterTwice(app: App, name: string, password: string) returns (first: Outcome, second: Outcome, check: bool)
    requires app.Valid()
    modifies app
    ensures app.Valid()
    ensures first == Done ==> second == Refused(UsernameTaken) && app.nextId == old(app.nextId) + 1
    ensures first == Done ==> check
  {
    first := app.Register(name, password, password, 0);
    second := app.Register(name, password, password, 1);
    check := app.Check(Some(name));
  }

  /** A negative deposit is accepted and leaves the user with negative cash. */
  method NegativeDepositOverdraws() returns (app: App, r: Outcome)
    ensures app.Valid() && r == Done && !app.Solvent()
  {
    app := new App();
    var registered := app.Register("ann", "secret", "secret", 0);
    assert registered == Done;
    r := app.AddFunds(Some(-20000.0));
    assert app.users[1].cash == -10000.0;
  }

  /** The checked deposit refuses the same negative amount and leaves cash untouched. */
  method NegativeDepositRefused() returns (app: App, r: Outcome)
    ensures app.Valid() && r == Refused(NonPositiveAmount) && app.Solvent()
  {
    app := new App();
    var registered := app.Register("ann", "secret", "secret", 0);
    assert registered == Done;
    r := app.AddFundsChecked(Some(-20000.0));
  }

  /** Right after registering, `/check` answers true for the new name, though the name is no longer available. */
  method CheckAnswersTakenNames() returns (app: App, check: bool, available: bool)
    ensures app.Valid() && check && !available
  {
    app := new App();
    var registered := app.Register("ann", "secret", "secret", 0);
    assert registered == Done;
    check := app.Check(Some("ann"));
    available := app.Available(Some("ann"));
  }

  /**
    Shares bought as "aapl" are stored as "AAPL"; selling them as "aapl" finds no
    group and is refused although the user holds them, while the upper-casing sell
    accepts the same request.
   */
  method LowercaseSellRefused() returns (app: App, sold: Outcome, soldUpper: Outcome)
    ensures sold == Refused(WrongShares) && soldUpper == Done
  {
    var quotes := map["AAPL" := 10.0, "aapl" := 10.0];
    assert Upper("aapl") == "AAPL" by {
      assert |Upper("aapl")| == 4;
      assert forall i :: 0 <= i < 4 ==> Upper("aapl")[i] == "AAPL"[i];
    }
    app := new App();
    var registered := app.Register("ann", "secret", "secret", 0);
    assert registered == Done;
    var bought := app.Buy("aapl", quotes, Some(1));
    assert bought == Done;
    assert app.txns == [Txn(1, "AAPL", 1, 10.0)];
    assert Holding(app.txns, 1, "AAPL") == 1;
    assert !HasRows(app.txns, 1, "aapl") by {
      assert "AAPL"[0] != "aapl"[0];
    }
    sold := app.Sell("aapl", quotes, Some(1));
    soldUpper := app.SellUpper("aapl", quotes, Some(1));
  }

  /** The two rows of the worked example below: nothing of the symbol is left, so the portfolio is empty. */
  lemma ExampleLedgerFlat()
    ensures Holding([Txn(1, "SYM", 10, 50.0), Txn(1, "SYM", -10, 60.0)], 1, "SYM") == 0
    ensures Holdings([Txn(1, "SYM", 10, 50.0), Txn(1, "SYM", -10, 60.0)], 1) == []
  {
    var first := [Txn(1, "SYM", 10, 50.0)];
    var ledger := first + [Txn(1, "SYM", -10, 60.0)];
    forall s ensures Holding(ledger, 1, s) <= 0 {
      HoldingAppend(first, Txn(1, "SYM", -10, 60.0), 1, s);
      HoldingAppend([], Txn(1, "SYM", 10, 50.0), 1, s);
      assert [] + [Txn(1, "SYM", 10, 50.0)] == first;
    }
    NothingHeldNoHoldings(ledger, 1);
    assert [Txn(1, "SYM", 10, 50.0), Txn(1, "SYM", -10, 60.0)] == ledger;
  }

  /**
    The worked example of the trading simulator: 10000.00 of starting cash, buy 10 at
    50.00, sell 10 at 60.00; cash ends at 10100.00 and the symbol leaves the portfolio.
   */
  method ExampleTrade() returns (app: App)
    ensures app.Valid() && app.session == Some(1)
    ensures app.users[1].cash == 10100.0
    ensures Holding(app.txns, 1, "SYM") == 0 && Holdings(app.txns, 1) == []
  {
    app := new App();
    var r := app.Register("ann", "secret", "secret", 0);
    assert r == Done;
    UpperKeepsUpper("SYM");
    r := app.Buy("SYM", map["SYM" := 50.0], Some(10));
    assert r == Done;
    assert app.users[1].cash == 9500.0;
    ExampleSellAll(app);
    ExampleLedgerFlat();
  }

  /** The second half of `ExampleTrade`: all ten shares sold at 60.00. */
  method ExampleSellAll(app: App)
    requires app.Valid() && app.session == Some(1) && 1 in app.users
    requires app.users[1].cash == 9500.0 && app.txns == [Txn(1, "SYM", 10, 50.0)]
    modifies app
    ensures app.Valid() && app.session == Some(1) && 1 in app.users
    ensures app.users[1].cash == 10100.0
    ensures app.txns == [Txn(1, "SYM", 10, 50.0), Txn(1, "SYM", -10, 60.0)]
  {
    assert HasRows(app.txns, 1, "SYM") by {
      assert RowOf(app.txns[0], 1, "SYM");
    }
    HoldingAppend([], Txn(1, "SYM", 10, 50.0), 1, "SYM");
    assert [] + [Txn(1, "SYM", 10, 50.0)] == app.txns;
    var r := app.Sell("SYM", map["SYM" := 60.0], Some(10));
    assert r == Done;
    assert app.txns == [Txn(1, "SYM", 10, 50.0)] + [Txn(1, "SYM", -10, 60.0)];
  }
}
