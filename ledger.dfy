/**
  The transactions table and the read-only queries the handlers run over it.
  The table is append-only, so it is a sequence of rows in insertion order;
  every query below is a function of that sequence and a user id.
 */
module Ledger {
  import opened Wrappers

  /** One row of the transactions table: a purchase has positive shares, a sale negative. */
  datatype Txn = Txn(userId: int, symbol: string, shares: int, pricePerShare: real)

  /** One row of `SELECT symbol, SUM(shares) AS total_shares ... GROUP BY symbol`. */
  datatype Group = Group(symbol: string, totalShares: int)

  function Last<T>(s: seq<T>): T
    requires s != []
  {
    s[|s| - 1]
  }

  function Init<T>(s: seq<T>): seq<T>
    requires s != []
  {
    s[..|s| - 1]
  }

  predicate Distinct<T(==)>(s: seq<T>)
  {
    forall i, j :: 0 <= i < j < |s| ==> s[i] != s[j]
  }

  /** The row belongs to `uid` and is for `symbol` (`WHERE user_id = :user_id AND symbol = :symbol`). */
  predicate RowOf(t: Txn, uid: int, symbol: string)
  {
    t.userId == uid && t.symbol == symbol
  }

  /** `SUM(shares)` over the rows of `uid` for `symbol`: the user's net holding of that symbol. */
  function Holding(txns: seq<Txn>, uid: int, symbol: string): int
  {
    if txns == [] then 0
    else Holding(Init(txns), uid, symbol) + (if RowOf(Last(txns), uid, symbol) then Last(txns).shares else 0)
  }

  /** The `GROUP BY symbol` query of the sell handler yields a row exactly when this holds. */
  predicate HasRows(txns: seq<Txn>, uid: int, symbol: string)
  {
    exists k :: 0 <= k < |txns| && RowOf(txns[k], uid, symbol)
  }

  /** Appending a row changes the holding of its own user and symbol by its share count, and no other. */
  lemma HoldingAppend(txns: seq<Txn>, t: Txn, uid: int, symbol: string)
    ensures Holding(txns + [t], uid, symbol)
         == Holding(txns, uid, symbol) + (if RowOf(t, uid, symbol) then t.shares else 0)
  {
    assert Init(txns + [t]) == txns;
  }

  /** The holding over two stretches of the ledger is the sum of the holdings over each. */
  lemma {:induction false} HoldingConcat(a: seq<Txn>, b: seq<Txn>, uid: int, symbol: string)
    ensures Holding(a + b, uid, symbol) == Holding(a, uid, symbol) + Holding(b, uid, symbol)
  {
    if b == [] {
      assert a + b == a;
    } else {
      HoldingConcat(a, Init(b), uid, symbol);
      assert Init(a + b) == a + Init(b);
      assert Last(a + b) == Last(b);
    }
  }

  lemma HasRowsAppend(txns: seq<Txn>, t: Txn, uid: int, symbol: string)
    ensures HasRows(txns + [t], uid, symbol) <==> HasRows(txns, uid, symbol) || RowOf(t, uid, symbol)
  {
    var s := txns + [t];
    if HasRows(s, uid, symbol) && !RowOf(t, uid, symbol) {
      var k :| 0 <= k < |s| && RowOf(s[k], uid, symbol);
      assert k < |txns| && s[k] == txns[k];
    }
    if HasRows(txns, uid, symbol) {
      var k :| 0 <= k < |txns| && RowOf(txns[k], uid, symbol);
      assert s[k] == txns[k];
    }
    if RowOf(t, uid, symbol) {
      assert s[|txns|] == t;
    }
  }

  /** A user with no row for a symbol holds none of it: the HAVING and GROUP BY filters agree. */
  lemma {:induction false} NoRowsNoHolding(txns: seq<Txn>, uid: int, symbol: string)
    requires !HasRows(txns, uid, symbol)
    ensures Holding(txns, uid, symbol) == 0
  {
    if txns != [] {
      assert txns == Init(txns) + [Last(txns)];
      HasRowsAppend(Init(txns), Last(txns), uid, symbol);
      NoRowsNoHolding(Init(txns), uid, symbol);
    }
  }

  /**
    The distinct symbols of `uid`'s rows (the groups of `GROUP BY symbol`). The query
    promises no order for its groups; this list fixes one, the order of first appearance.
   */
  function Symbols(txns: seq<Txn>, uid: int): seq<string>
  {
    if txns == [] then []
    else
      var earlier := Symbols(Init(txns), uid);
      var t := Last(txns);
      if t.userId == uid && t.symbol !in earlier then earlier + [t.symbol] else earlier
  }

  /** There is one group per symbol the user has traded, and no other. */
  lemma {:induction false} SymbolsExact(txns: seq<Txn>, uid: int)
    ensures Distinct(Symbols(txns, uid))
    ensures forall symbol :: symbol in Symbols(txns, uid) <==> HasRows(txns, uid, symbol)
  {
    if txns != [] {
      SymbolsExact(Init(txns), uid);
      assert txns == Init(txns) + [Last(txns)];
      forall symbol
        ensures symbol in Symbols(txns, uid) <==> HasRows(txns, uid, symbol)
      {
        HasRowsAppend(Init(txns), Last(txns), uid, symbol);
      }
    }
  }

  /** The groups of `syms` whose summed shares are positive (`HAVING total_shares > 0`), with that sum. */
  function Positive(txns: seq<Txn>, uid: int, syms: seq<string>): seq<Group>
  {
    if syms == [] then []
    else
      var earlier := Positive(txns, uid, Init(syms));
      var h := Holding(txns, uid, Last(syms));
      if h > 0 then earlier + [Group(Last(syms), h)] else earlier
  }

  predicate DistinctSymbols(groups: seq<Group>)
  {
    forall i, j :: 0 <= i < j < |groups| ==> groups[i].symbol != groups[j].symbol
  }

  lemma {:induction false} PositiveExact(txns: seq<Txn>, uid: int, syms: seq<string>)
    requires Distinct(syms)
    ensures DistinctSymbols(Positive(txns, uid, syms))
    ensures forall g :: g in Positive(txns, uid, syms) <==>
              g.symbol in syms && Holding(txns, uid, g.symbol) > 0 && g.totalShares == Holding(txns, uid, g.symbol)
  {
    if syms != [] {
      var init := Init(syms);
      assert syms == init + [Last(syms)];
      assert Distinct(init) by {
        forall i, j | 0 <= i < j < |init| ensures init[i] != init[j] {
          assert init[i] == syms[i] && init[j] == syms[j];
        }
      }
      assert Last(syms) !in init by {
        forall i | 0 <= i < |init| ensures init[i] != Last(syms) {
          assert init[i] == syms[i];
        }
      }
      PositiveExact(txns, uid, init);
      var earlier := Positive(txns, uid, init);
      forall k | 0 <= k < |earlier| ensures earlier[k].symbol != Last(syms) {
        assert earlier[k] in earlier;
      }
    }
  }

  /**
    The holdings the portfolio page and the sell form show:
    `SELECT symbol, SUM(shares) AS total_shares FROM transactions WHERE user_id = :user_id
     GROUP BY symbol HAVING total_shares > 0`.
   */
  function Holdings(txns: seq<Txn>, uid: int): seq<Group>
  {
    Positive(txns, uid, Symbols(txns, uid))
  }

  /** The holdings list shows each symbol at most once, and exactly the symbols held in positive amount, with that amount. */
  lemma HoldingsExact(txns: seq<Txn>, uid: int)
    ensures DistinctSymbols(Holdings(txns, uid))
    ensures forall g :: g in Holdings(txns, uid) <==>
              Holding(txns, uid, g.symbol) > 0 && g.totalShares == Holding(txns, uid, g.symbol)
  {
    SymbolsExact(txns, uid);
    PositiveExact(txns, uid, Symbols(txns, uid));
    forall g: Group | Holding(txns, uid, g.symbol) > 0
      ensures g.symbol in Symbols(txns, uid)
    {
      if !HasRows(txns, uid, g.symbol) {
        NoRowsNoHolding(txns, uid, g.symbol);
      }
    }
  }

  /** A user who holds nothing in positive amount sees an empty portfolio: `HAVING` drops every group. */
  lemma NothingHeldNoHoldings(txns: seq<Txn>, uid: int)
    requires forall s :: Holding(txns, uid, s) <= 0
    ensures Holdings(txns, uid) == []
  {
    NothingPositive(txns, uid, Symbols(txns, uid));
  }

  lemma {:induction false} NothingPositive(txns: seq<Txn>, uid: int, syms: seq<string>)
    requires forall s :: Holding(txns, uid, s) <= 0
    ensures Positive(txns, uid, syms) == []
  {
    if syms != [] {
      NothingPositive(txns, uid, Init(syms));
    }
  }

  /**
    Two ledgers that agree on every holding of `uid` show the same holdings, whatever order
    the rows came in: the same groups, each symbol once.
   */
  lemma HoldingsAgree(a: seq<Txn>, b: seq<Txn>, uid: int)
    requires forall s :: Holding(a, uid, s) == Holding(b, uid, s)
    ensures DistinctSymbols(Holdings(a, uid)) && DistinctSymbols(Holdings(b, uid))
    ensures forall g :: g in Holdings(a, uid) <==> g in Holdings(b, uid)
  {
    HoldingsExact(a, uid);
    HoldingsExact(b, uid);
  }

  /** Two ledgers that agree on every holding of `uid` keep the same positive groups of any one list of symbols, in its order. */
  lemma {:induction false} PositiveAgrees(a: seq<Txn>, b: seq<Txn>, uid: int, syms: seq<string>)
    requires forall s :: Holding(a, uid, s) == Holding(b, uid, s)
    ensures Positive(a, uid, syms) == Positive(b, uid, syms)
  {
    if syms != [] {
      PositiveAgrees(a, b, uid, Init(syms));
    }
  }

  /** A row of another user leaves this user's holdings and history exactly as they were. */
  lemma OtherUsersRowUnseen(txns: seq<Txn>, t: Txn, uid: int)
    requires t.userId != uid
    ensures forall s :: Holding(txns + [t], uid, s) == Holding(txns, uid, s)
    ensures Holdings(txns + [t], uid) == Holdings(txns, uid)
    ensures History(txns + [t], uid) == History(txns, uid)
  {
    assert Init(txns + [t]) == txns;
    forall s ensures Holding(txns + [t], uid, s) == Holding(txns, uid, s) {
      HoldingAppend(txns, t, uid, s);
    }
    PositiveAgrees(txns + [t], txns, uid, Symbols(txns, uid));
  }

  /** Buying n shares and then selling n shares of one symbol leaves every holding as it was. */
  lemma BuySellRestoresHoldings(txns: seq<Txn>, uid: int, symbol: string, n: int, buyPrice: real, sellPrice: real)
    ensures forall u, s :: Holding(txns + [Txn(uid, symbol, n, buyPrice), Txn(uid, symbol, -n, sellPrice)], u, s)
                        == Holding(txns, u, s)
    ensures forall g :: g in Holdings(txns + [Txn(uid, symbol, n, buyPrice), Txn(uid, symbol, -n, sellPrice)], uid)
                    <==> g in Holdings(txns, uid)
  {
    var after := txns + [Txn(uid, symbol, n, buyPrice), Txn(uid, symbol, -n, sellPrice)];
    var bought := txns + [Txn(uid, symbol, n, buyPrice)];
    assert after == bought + [Txn(uid, symbol, -n, sellPrice)];
    forall u, s ensures Holding(after, u, s) == Holding(txns, u, s) {
      HoldingAppend(txns, Txn(uid, symbol, n, buyPrice), u, s);
      HoldingAppend(bought, Txn(uid, symbol, -n, sellPrice), u, s);
    }
    HoldingsAgree(after, txns, uid);
  }

  /** `lookup(symbol)`'s price: the quote provider's answers at the time of the request, absent for an unknown symbol. */
  function Lookup(quotes: map<string, real>, symbol: string): Option<real>
  {
    if symbol in quotes then Some(quotes[symbol]) else None
  }

  /** Worth of `shares` shares at `price` each: `price * shares` of the order total and of the portfolio sum. */
  function Value(price: real, shares: int): real
  {
    price * (shares as real)
  }

  /** Price of every group at the quoted price, summed in list order; absent when a quote is missing. */
  function MarketValue(stocks: seq<Group>, quotes: map<string, real>): Option<real>
  {
    if stocks == [] then Some(0.0)
    else
      var earlier, g := MarketValue(Init(stocks), quotes), Last(stocks);
      if earlier.Some? && g.symbol in quotes then Some(earlier.value + Value(quotes[g.symbol], g.totalShares))
      else None
  }

  /** Extending the list by one group adds that group's value, or makes the total absent. */
  lemma MarketValueAppend(stocks: seq<Group>, g: Group, quotes: map<string, real>)
    ensures MarketValue(stocks + [g], quotes)
         == if MarketValue(stocks, quotes).Some? && g.symbol in quotes
            then Some(MarketValue(stocks, quotes).value + Value(quotes[g.symbol], g.totalShares))
            else None
  {
    assert Init(stocks + [g]) == stocks && Last(stocks + [g]) == g;
  }

  predicate AllQuoted(stocks: seq<Group>, quotes: map<string, real>)
  {
    forall g :: g in stocks ==> Lookup(quotes, g.symbol).Some?
  }

  predicate NonNegativePrices(quotes: map<string, real>)
  {
    forall s :: s in quotes ==> quotes[s] >= 0.0
  }

  /** The market value is defined exactly when every held symbol has a quote. */
  lemma {:induction false} MarketValueDefined(stocks: seq<Group>, quotes: map<string, real>)
    ensures MarketValue(stocks, quotes).Some? <==> AllQuoted(stocks, quotes)
  {
    if stocks != [] {
      MarketValueDefined(Init(stocks), quotes);
      assert stocks == Init(stocks) + [Last(stocks)];
    }
  }

  /** With non-negative prices, positive holdings are worth a non-negative amount. */
  lemma {:induction false} MarketValueNonNegative(stocks: seq<Group>, quotes: map<string, real>)
    requires NonNegativePrices(quotes)
    requires forall g :: g in stocks ==> g.totalShares > 0
    ensures MarketValue(stocks, quotes).Some? ==> MarketValue(stocks, quotes).value >= 0.0
  {
    if stocks != [] {
      assert stocks == Init(stocks) + [Last(stocks)];
      MarketValueNonNegative(Init(stocks), quotes);
      var g := Last(stocks);
      if Lookup(quotes, g.symbol).Some? {
        var p := Lookup(quotes, g.symbol).value;
        assert p >= 0.0 && g.totalShares as real > 0.0;
        assert Value(p, g.totalShares) >= 0.0;
      }
    }
  }

  /** `SELECT ... WHERE user_id = :user_id ORDER BY created_at DESC`: the user's rows, newest first. */
  function History(txns: seq<Txn>, uid: int): seq<Txn>
  {
    if txns == [] then []
    else (if Last(txns).userId == uid then [Last(txns)] else []) + History(Init(txns), uid)
  }

  /** Later rows come first: the history of a ledger extended by `b` is `b`'s history ahead of the old one. */
  lemma {:induction false} HistoryConcat(a: seq<Txn>, b: seq<Txn>, uid: int)
    ensures History(a + b, uid) == History(b, uid) + History(a, uid)
  {
    if b == [] {
      assert a + b == a;
    } else {
      var newest := if Last(b).userId == uid then [Last(b)] else [];
      assert Init(a + b) == a + Init(b);
      assert Last(a + b) == Last(b);
      assert History(a + b, uid) == newest + History(a + Init(b), uid);
      HistoryConcat(a, Init(b), uid);
      assert History(b, uid) == newest + History(Init(b), uid);
      assert newest + (History(Init(b), uid) + History(a, uid)) == (newest + History(Init(b), uid)) + History(a, uid);
    }
  }

  /** The history holds exactly the user's rows. */
  lemma {:induction false} HistoryExact(txns: seq<Txn>, uid: int)
    ensures forall t :: t in History(txns, uid) <==> t in txns && t.userId == uid
  {
    if txns != [] {
      HistoryExact(Init(txns), uid);
      assert txns == Init(txns) + [Last(txns)];
    }
  }

  /** ASCII upper-casing of one character, as `str.upper` does for ticker symbols. */
  function UpperChar(c: char): char
  {
    if 'a' <= c <= 'z' then (c as int - 32) as char else c
  }

  /** `symbol.upper()` in the buy handler. */
  function Upper(s: string): (r: string)
    ensures |r| == |s|
    ensures forall i :: 0 <= i < |s| ==> r[i] == UpperChar(s[i])
    ensures forall i :: 0 <= i < |r| ==> !('a' <= r[i] <= 'z')
  {
    if s == [] then [] else [UpperChar(s[0])] + Upper(s[1..])
  }

  /** A symbol without lower-case letters is stored as typed: upper-casing it changes nothing. */
  lemma UpperKeepsUpper(s: string)
    requires forall i :: 0 <= i < |s| ==> !('a' <= s[i] <= 'z')
    ensures Upper(s) == s
  {
    assert forall i :: 0 <= i < |s| ==> Upper(s)[i] == s[i];
  }
}
