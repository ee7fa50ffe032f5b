# CS50 Finance: a verified model of the trading simulator's handlers

The application is a Flask web app for simulated stock trading. Users register,
log in and get starting cash. They buy and sell shares at quotes from an
external provider, deposit more cash, and see their portfolio and their
transaction history. All state lives in two SQLite tables and the session:

- `users`: a username, a password hash and the cash of each account;
- `transactions`: an append-only ledger with one row per trade. Each row holds
  the user, the symbol, a signed share count and the price per share.

This project models that state as one Dafny class, `Finance.App`. Its fields
are the users table (a map from id to `Accounts.User`), the ledger (a sequence
of `Ledger.Txn`), the next user id and the session's user id. Each handler's
POST branch is a method that refuses the request with the source's apology, or
changes exactly the rows the source's SQL changes.

The read-only queries are pure functions over the ledger, in module `Ledger`:

- the `SUM(shares) GROUP BY symbol HAVING total_shares > 0` of the portfolio
  and sell pages;
- the per-symbol sum the sell handler checks;
- the newest-first history;
- the market value of a portfolio at given quotes.

Modules:

- `Wrappers`: `Option`.
- `Ledger`: ledger rows, holdings, market value, history, upper-casing.
- `Accounts`: user rows, an ideal password hash, the starting cash.
- `Finance`: apology pages, replies, and the `App` class with one method per
  handler.
- `Scenarios`: request sequences and what the handler contracts let a caller
  conclude. This includes the worked example and the counterexamples of the
  findings below.

Invariants kept by the class:

- `Valid`: ids are dense, usernames are unique, the session user exists, and
  every ledger row belongs to a user.
- `Solvent`: no cash is negative. Buy, register, change_password and the
  checked deposit keep it. Sell keeps it at non-negative prices. The deposit
  as written does not.
- `NoShortPositions`: no holding is negative. Buy and sell keep it.

Where the code and its own descriptions disagree, the model follows the code.
`/check` is documented to return true for an available name but returns true
for a taken one. The model's `Check` does what the code does, and the finding
below records the difference.

## Model

| member | source | states |
|---|---|---|
| Ledger.HoldingAppend | application.py:99-100 | an appended row changes the sum of its own (user, symbol) group by its shares and no other group |
| Ledger.HoldingConcat | application.py:280-281 | the per-symbol sum over two stretches of the ledger is the sum of their sums |
| Ledger.HasRowsAppend | application.py:280-283 | a (user, symbol) group exists after an insert iff it existed before or the new row is in it |
| Ledger.NoRowsNoHolding | application.py:280-283 | a user with no rows for a symbol holds zero of it |
| Ledger.SymbolsExact | application.py:45 | the GROUP BY lists each symbol once, exactly the symbols the user has rows for |
| Ledger.PositiveExact | application.py:45 | the HAVING filter keeps each listed symbol whose sum is positive, with that sum, and no other |
| Ledger.HoldingsExact | application.py:45-46 | the holdings list has distinct symbols, and a group is in it iff its symbol's sum over the user's rows is > 0 and its total is that sum |
| Ledger.NothingHeldNoHoldings | application.py:45-46 | a user whose every sum is ≤ 0 has an empty holdings list |
| Ledger.PositiveAgrees | application.py:45 | two ledgers with the same per-symbol sums for a user keep the same positive groups of any one list of symbols, in that list's order |
| Ledger.HoldingsAgree | application.py:45-46 | two ledgers with the same per-symbol sums for a user show the same holdings: each list has distinct symbols and a group is in one iff it is in the other (the order may differ) |
| Ledger.NothingPositive | application.py:45 | when no sum is positive, `HAVING total_shares > 0` keeps no group of any symbol list |
| Ledger.OtherUsersRowUnseen | application.py:99-100 | a row inserted for another user leaves this user's sums, holdings and history unchanged |
| Ledger.BuySellRestoresHoldings | application.py:98-100 | buying n and then selling n of the same symbol leaves every user's sums and this user's holdings as they were, whatever the two prices |
| Ledger.MarketValueAppend | application.py:51-53 | the running total adds price × total_shares for each further group |
| Ledger.MarketValueDefined | application.py:51-53 | the portfolio has a market value iff every held symbol has a quote |
| Ledger.MarketValueNonNegative | application.py:51-56 | at non-negative prices, the market value of positive holdings is ≥ 0 |
| Ledger.HistoryConcat | application.py:126 | rows inserted later come first in the history |
| Ledger.HistoryExact | application.py:126 | the history holds exactly the user's rows |
| Ledger.Upper | application.py:66 | upper-casing keeps the length, upper-cases each character, and leaves no lowercase letter |
| Ledger.UpperKeepsUpper | application.py:66 | a symbol with no lowercase letter is stored as typed |
| Accounts.GenerateHash | application.py:233-234 | the stored hash checks against exactly the password it was generated from |
| Finance.AdjustCash | application.py:98 | `UPDATE users SET cash = cash + delta WHERE id = uid` keeps the ids, moves that user's cash by exactly delta, and leaves every other row unchanged |
| Finance.AdjustCashUndo | application.py:298 | a debit followed by a credit of the same amount restores the users table |
| Finance.App.constructor | application.py:36 | the empty database is valid, solvent and has no positions |
| Finance.App.FindUser | application.py:166-167 | the lookup by username finds a row iff the name is taken, and then the row with that name |
| Finance.App.Check | application.py:111-119 | the scan answers true iff a username was given and some user has it |
| Finance.App.Available | application.py:113 | true iff a username was given and no user has it |
| Finance.App.Register | application.py:214-247 | empty username, empty password, mismatched confirmation and a taken name are refused in that order and change nothing; otherwise one user with the starting cash and a hash of the password is inserted under the next id, the session is set to it, and the name becomes taken |
| Finance.App.Login | application.py:147-176 | the session is cleared first; empty fields are refused; login succeeds iff some user has that name and the password checks against that user's hash, and then the session names that user |
| Finance.App.Logout | application.py:183-191 | the session is cleared |
| Finance.App.Buy | application.py:60-105 | a missing quote, missing shares, shares ≤ 0 and price × shares > cash are refused in that order and change nothing; otherwise cash drops by exactly price × shares and one row for the upper-cased symbol is appended; cash stays ≥ 0, and solvency and no-short-positions are kept |
| Finance.App.Sell | application.py:256-305 | a missing quote, missing shares, shares ≤ 0, and then no group for the symbol as typed or a sum below the shares are refused in that order and change nothing; otherwise cash rises by price × shares and one row of −shares is appended; the symbol's holding stays ≥ 0, no-short-positions is kept, and solvency is kept at non-negative prices |
| Finance.App.SellUpper | application.py:262-284 | the sell handler with the symbol upper-cased as buy does: a valid request is accepted iff the shares are at most the holding of the stored symbol |
| Finance.App.AddFunds | application.py:130-143 | an unparsable amount is refused; any parsed amount, of either sign, is added to the session user's cash and nothing else changes |
| Finance.App.AddFundsChecked | application.py:136-140 | the deposit refusing amounts ≤ 0, which keeps every cash ≥ 0 |
| Finance.App.ChangePassword | application.py:311-342 | an empty current password, a current password that does not check, an empty new password or confirmation, and a mismatch are refused in that order and change nothing; otherwise only the session user's hash changes, to one that checks against exactly the new password |
| Finance.App.Index | application.py:39-57 | the page lists exactly the user's holdings; it is shown iff every held symbol has a quote, with total = cash + Σ price × shares; a missing quote is an internal server error; at non-negative prices total ≥ cash |
| Finance.App.Record | application.py:97-100 | cash moves opposite to the row's value, the row is appended, and only that row's (user, symbol) sum and that user's history change |
| Finance.App.AppendRow | application.py:99-100 | the INSERT appends the row, keeps the tables valid, and changes no other user's sums or history |
| Scenarios.BuyThenSell | application.py:91-100 | buying n of a symbol and then selling n of the upper-cased symbol the buy stored, at the same quote: the sell is accepted whenever the buy was, and cash and every holding end where they started |
| Scenarios.RegisterTwice | application.py:233-238 | registering a name twice: the second attempt is refused as taken and adds nobody, and `/check` then answers true |
| Scenarios.NegativeDepositOverdraws | application.py:136-140 | a deposit of −20000 after registering is accepted and leaves the user with negative cash |
| Scenarios.NegativeDepositRefused | application.py:136-140 | the checked deposit refuses the same amount and keeps cash non-negative |
| Scenarios.CheckAnswersTakenNames | application.py:111-119 | right after "ann" registers, `/check` answers true for "ann" although the name is no longer available |
| Scenarios.LowercaseSellRefused | application.py:262-284 | shares bought as "aapl" are stored as "AAPL"; selling "aapl" is refused as wrong shares, while the upper-casing sell accepts it |
| Scenarios.ExampleLedgerFlat | application.py:45 | after +10 and −10 of one symbol, its sum is 0 and the holdings list is empty |
| Scenarios.ExampleTrade | application.py:60-105 | 10000 starting cash, buy 10 at 50, sell 10 at 60: cash ends at 10100 and the symbol leaves the portfolio |

## Left out

- Flask routing, `render_template`, `flash`, `redirect`, the cache headers and the GET branches are left out. They render pages and do not change any table. The one exception is GET `/login`: it runs `session.clear()` (application.py:152) before testing the method, so showing the login page logs the user out. That state change is the one `Finance.App.Logout` makes; `Finance.App.Login` models the POST branch only.
- `quote` (application.py:194-211) is left out. It only displays a looked-up price.
- The quote provider `lookup` (in helpers.py, which is not part of this model) is a network call. It is a `map` from symbol to price, passed in as a parameter and read through `Ledger.Lookup`.
- The `quotes` dictionary handed to the portfolio template is not modelled. Only the total computed from it is.
- `generate_password_hash` and `check_password_hash` belong to a foreign library. They are an ideal salted hash that matches exactly its own password. The random salt is a parameter.
- Float parsing and rounding are not modelled. Cash, prices and amounts are exact `real`s, so there is no rounding, no NaN and no infinity from `float()`. `int()` and `float()` parsing is an `Option` input: `None` when the text does not parse.
- A missing symbol field is not modelled, in buy (where `None.upper()` raises) or in sell (where `None` is passed to `lookup`, application.py:262-263). Symbols are always strings.
- `Ledger.Upper` upper-cases ASCII letters only. Python's `str.upper` also maps other scripts.
- The apology page of `apology` without a code (in helpers.py, not part of this model) is taken to use status 400.
- `errorhandler` is not modelled beyond one case. The only server error the model produces is the portfolio page with a missing quote, where the source fails on subscripting `None`.
- The starting cash of 10000 is the default of the `cash` column in the database schema, which is not part of this model.
- Uniqueness of usernames is enforced in the database by a unique index. The model checks for a taken name before inserting, with the same outcome.
- `login_required` is the `NeedLogin` reply.
- `history` has no handler method. Its only behaviour is its query, which is `Ledger.History`.
- Ledger.Holdings fixes an order for the holdings list: symbols in order of first appearance in the ledger. `GROUP BY` without `ORDER BY` (application.py:45, 308) promises no order, and SQLite usually returns the groups sorted by symbol. `Finance.App.Index` shows that fixed order. What the model proves about the list's contents (`Ledger.HoldingsExact`, `Ledger.HoldingsAgree`) holds for any order.
- Share counts and their sums are unbounded integers. In the source, `price_per_share * shares` (application.py:91, 295) converts the count to a float and raises OverflowError, answered with status 500, for counts beyond about 1e308. SQLite stores INTEGER values and their SUM in 64 bits. For a buy of such a count the model answers `NotEnoughMoney` instead.
- `Ledger.History` orders rows by insertion, newest first. Ties in `created_at`, and the timestamps themselves, are not modelled.
- `/check` returns the JSON strings "true" and "false". The model returns a boolean.
- Concurrent requests are not modelled. Each handler is one atomic step, so the race between a balance or holding check and the following writes is out of scope.
- `usd` formatting is not modelled.

## Findings

| source | as written | input that shows it | evidently intended | confidence | as-written member | corrected member |
|---|---|---|---|---|---|---|
| application.py:111-119 | `/check` answers true when the username is already taken | register "ann", then `/check?username=ann` answers true | the docstring's promise: true iff the username is available | not executed; medium, since the page's script may read the answer either way | Finance.App.Check, Scenarios.CheckAnswersTakenNames | Finance.App.Available |
| application.py:136-140 | add_funds adds any parsed amount, negative ones included | a new user with 10000 deposits −20000 and ends with −10000 cash | only positive deposits, so cash cannot go negative | not executed; high | Finance.App.AddFunds, Scenarios.NegativeDepositOverdraws | Finance.App.AddFundsChecked, Scenarios.NegativeDepositRefused |
| application.py:262 | sell looks up the group by the symbol as typed, while buy stores it upper-cased (line 66) | buy 1 "aapl" (stored as "AAPL"), then sell 1 "aapl": refused as "wrong shares" | sell upper-cases the symbol as buy does | not executed; medium: it also needs three things outside application.py: the symbol column compares case-sensitively (the schema is not part of this model), `lookup` accepts a lowercase symbol (helpers.py is not part of this model), and the sell form can send a typed symbol (its GET branch, application.py:308, offers the stored symbols) | Finance.App.Sell, Scenarios.LowercaseSellRefused | Finance.App.SellUpper |
