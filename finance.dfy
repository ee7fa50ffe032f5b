/**
  The request handlers of the trading simulator as guarded transitions of one
  in-memory database: the users table, the transactions table and the
  session's user id. Each handler is one atomic step; a refused request is an
  apology page and leaves every table as it was.
 */
module Finance {
  import opened Wrappers
  import opened Ledger
  import opened Accounts

  /** The page `apology(message, code)` renders. */
  datatype Apology = Apology(message: string, code: int)

  const MissingOrWrongSymbol := Apology("missing or wrong symbol", 400)
  const MissingSymbol := Apology("missing symbol", 400)
  const MissingShares := Apology("missing shares", 400)
  const NonPositiveShares := Apology("shares less or equal than 0", 400)
  const NotEnoughMoney := Apology("not enough money", 400)
  const WrongShares := Apology("wrong shares", 400)
  const NotARealNumber := Apology("Money must be a real number", 400)
  const NonPositiveAmount := Apology("amount must be positive", 400)
  const LoginNoUsername := Apology("must provide username", 403)
  const LoginNoPassword := Apology("must provide password", 403)
  const InvalidCredentials := Apology("invalid username and/or password", 403)
  const RegisterNoUsername := Apology("must provide username", 400)
  const RegisterNoPassword := Apology("must provide password", 400)
  const PasswordsDontMatch := Apology("passwords don't match", 400)
  const UsernameTaken := Apology("username taken", 400)
  const NeedCurrentPassword := Apology("Need current password", 400)
  const InvalidPassword := Apology("invalid password", 403)
  const NoNewPassword := Apology("must provide new password", 403)
  const NoNewPasswordConfirmation := Apology("must provide new password confirmation", 403)
  const NewPasswordMismatch := Apology("new password and confirmation must match", 403)
  const InternalServerError := Apology("Internal Server Error", 500)

  /** What a handler answers: its result, the login redirect of `login_required`, or an apology. */
  datatype Reply<T> = Ok(value: T) | NeedLogin | Refused(apology: Apology)

  /** The reply of a handler whose success is a redirect with a flash message. */
  type Outcome = Reply<()>

  const Done: Outcome := Ok(())

  /** What the portfolio page shows: the holdings, the cash and the grand total. */
  datatype Portfolio = Portfolio(stocks: seq<Group>, cashRemaining: real, total: real)

  /** `UPDATE users SET cash = cash + :delta WHERE id = :user_id`: only that user's cash moves, by exactly delta. */
  function AdjustCash(users: map<int, User>, uid: int, delta: real): (r: map<int, User>)
    requires uid in users
    ensures r.Keys == users.Keys
    ensures r[uid] == users[uid].(cash := users[uid].cash + delta)
    ensures forall id :: id in users && id != uid ==> r[id] == users[id]
  {
    users[uid := users[uid].(cash := users[uid].cash + delta)]
  }

  /** A debit followed by a credit of the same amount leaves the users table as it was. */
  lemma AdjustCashUndo(users: map<int, User>, uid: int, delta: real)
    requires uid in users
    ensures AdjustCash(AdjustCash(users, uid, -delta), uid, delta) == users
  {
    var back := AdjustCash(AdjustCash(users, uid, -delta), uid, delta);
    assert back[uid] == users[uid];
  }

  class App {
    /** The users table, keyed by id. */
    var users: map<int, User>
    /** The transactions table, oldest row first. */
    var txns: seq<Txn>
    /** The id the next inserted user receives. */
    var nextId: int
    /** `session["user_id"]`, when someone is logged in. */
    var session: Option<int>

    /**
      Ids are 1 .. nextId-1 with none missing (users are never deleted), usernames are
      unique, the session names an existing user, and every transaction references one.
     */
    ghost predicate Valid()
      reads this
    {
      && 1 <= nextId
      && (forall id :: id in users <==> 1 <= id < nextId)
      && (forall i, j :: i in users && j in users && users[i].username == users[j].username ==> i == j)
      && (session.Some? ==> session.value in users)
      && (forall k :: 0 <= k < |txns| ==> txns[k].userId in users)
    }

    /** No user's cash is negative. */
    ghost predicate Solvent()
      reads this
    {
      forall id :: id in users ==> users[id].cash >= 0.0
    }

    /** No user holds a negative number of shares of any symbol. */
    ghost predicate NoShortPositions()
      reads this
    {
      forall u: int, s: string :: Holding(txns, u, s) >= 0
    }

    ghost predicate Taken(name: string)
      reads this
    {
      exists id :: id in users && users[id].username == name
    }

    /** Some user has this name and their stored hash checks against this password. */
    ghost predicate Authenticates(username: string, password: string)
      reads this
    {
      exists id :: id in users && users[id].username == username && CheckHash(users[id].hash, password)
    }

    constructor ()
      ensures Valid() && Solvent() && NoShortPositions()
      ensures users == map[] && txns == [] && nextId == 1 && session == None
    {
      users := map[];
      txns := [];
      nextId := 1;
      session := None;
    }

    /** `SELECT * FROM users WHERE username = :username`: the id of the one row, if any. */
    method FindUser(name: string) returns (id: Option<int>)
      requires Valid()
      ensures id.Some? <==> Taken(name)
      ensures id.Some? ==> id.value in users && users[id.value].username == name
    {
      var i := 1;
      while i < nextId
        invariant 1 <= i <= nextId
        invariant forall j :: 1 <= j < i ==> users[j].username != name
      {
        if users[i].username == name {
          return Some(i);
        }
        i := i + 1;
      }
      return None;
    }

    /** `/check`: scans every username and answers true when the given one is among them. */
    method Check(name: Option<string>) returns (reply: bool)
      requires Valid()
      ensures reply <==> name.Some? && Taken(name.value)
    {
      var i := 1;
      while i < nextId
        invariant 1 <= i <= nextId
        invariant forall j :: 1 <= j < i ==> Some(users[j].username) != name
      {
        if Some(users[i].username) == name {
          return true;
        }
        i := i + 1;
      }
      return false;
    }

    /** `/check` as its description states it: true when the username is still available. */
    method Available(name: Option<string>) returns (reply: bool)
      requires Valid()
      ensures reply <==> name.Some? && !Taken(name.value)
    {
      var taken := Check(name);
      reply := name.Some? && !taken;
    }

    /** `/register` (POST): validate the form, insert the user, log them in. */
    method Register(username: string, password: string, confirmation: string, salt: nat) returns (r: Outcome)
      requires Valid()
      modifies this
      ensures Valid() && txns == old(txns)
      ensures r == (if username == "" then Refused(RegisterNoUsername)
                    else if password == "" then Refused(RegisterNoPassword)
                    else if password != confirmation then Refused(PasswordsDontMatch)
                    else if old(Taken(username)) then Refused(UsernameTaken)
                    else Done)
      ensures r == Done ==>
                && nextId == old(nextId) + 1
                && users == old(users)[old(nextId) := User(username, GenerateHash(password, salt), StartingCash)]
                && session == Some(old(nextId))
      ensures r != Done ==> users == old(users) && nextId == old(nextId) && session == old(session)
      ensures Taken(username) <==> old(Taken(username)) || r == Done
      ensures old(Solvent()) ==> Solvent()
    {
      if username == "" {
        return Refused(RegisterNoUsername);
      } else if password == "" {
        return Refused(RegisterNoPassword);
      } else if password != confirmation {
        return Refused(PasswordsDontMatch);
      }
      var existing := FindUser(username);
      if existing.Some? {
        return Refused(UsernameTaken);
      }
      var id := nextId;
      users := users[id := User(username, GenerateHash(password, salt), StartingCash)];
      nextId := nextId + 1;
      session := Some(id);
      r := Done;
    }

    /** `/login` (POST): forget the session, then log in the one user whose name and password match. */
    method Login(username: string, password: string) returns (r: Outcome)
      requires Valid()
      modifies this`session
      ensures Valid()
      ensures r == (if username == "" then Refused(LoginNoUsername)
                    else if password == "" then Refused(LoginNoPassword)
                    else if Authenticates(username, password) then Done
                    else Refused(InvalidCredentials))
      ensures r == Done ==> session.Some? && users[session.value].username == username
      ensures r != Done ==> session == None
    {
      session := None;
      if username == "" {
        return Refused(LoginNoUsername);
      } else if password == "" {
        return Refused(LoginNoPassword);
      }
      var row := FindUser(username);
      if row.None? {
        assert !Authenticates(username, password);
        return Refused(InvalidCredentials);
      }
      if !CheckHash(users[row.value].hash, password) {
        forall id | id in users && users[id].username == username
          ensures !CheckHash(users[id].hash, password)
        {
          assert Valid();
          assert id == row.value;
        }
        assert !Authenticates(username, password);
        return Refused(InvalidCredentials);
      }
      var id := row.value;
      assert id in users && users[id].username == username && CheckHash(users[id].hash, password);
      session := row;
      r := Done;
    }

    /** `/logout`. */
    method Logout()
      requires Valid()
      modifies this`session
      ensures Valid() && session == None
    {
      session := None;
    }

    /** `/buy` (POST): debit cash and append a positive row for the upper-cased symbol. */
    method Buy(symbol: string, quotes: map<string, real>, shares: Option<int>) returns (r: Outcome)
      requires Valid()
      modifies this`users, this`txns
      ensures Valid()
      ensures old(session).None? ==> r == NeedLogin
      ensures session.Some? ==>
                var quote := Lookup(quotes, Upper(symbol));
                r == (if quote.None? then Refused(MissingOrWrongSymbol)
                      else if shares.None? then Refused(MissingShares)
                      else if shares.value <= 0 then Refused(NonPositiveShares)
                      else if Value(quote.value, shares.value) > old(users)[session.value].cash
                      then Refused(NotEnoughMoney)
                      else Done)
      ensures r == Done ==>
                var uid, price, n := session.value, Lookup(quotes, Upper(symbol)).value, shares.value;
                && users == AdjustCash(old(users), uid, -Value(price, n))
                && txns == old(txns) + [Txn(uid, Upper(symbol), n, price)]
                && users[uid].cash >= 0.0
      ensures r != Done ==> users == old(users) && txns == old(txns)
      ensures old(Solvent()) ==> Solvent()
      ensures old(NoShortPositions()) ==> NoShortPositions()
    {
      if session.None? {
        return NeedLogin;
      }
      var uid := session.value;
      var sym := Upper(symbol);
      var quote := Lookup(quotes, sym);
      if quote.None? {
        return Refused(MissingOrWrongSymbol);
      }
      if shares.None? {
        return Refused(MissingShares);
      }
      var n := shares.value;
      if n <= 0 {
        return Refused(NonPositiveShares);
      }
      var cashRemaining := users[uid].cash;
      var price := quote.value;
      var totalPrice := Value(price, n);
      if totalPrice > cashRemaining {
        return Refused(NotEnoughMoney);
      }
      Record(Txn(uid, sym, n, price));
      r := Done;
    }

    /** `/sell` (POST): the symbol is used as typed; credit cash and append a negative row. */
    method Sell(symbol: string, quotes: map<string, real>, shares: Option<int>) returns (r: Outcome)
      requires Valid()
      modifies this`users, this`txns
      ensures Valid()
      ensures old(session).None? ==> r == NeedLogin
      ensures session.Some? ==>
                var quote, held := Lookup(quotes, symbol), Holding(old(txns), session.value, symbol);
                r == (if quote.None? then Refused(MissingSymbol)
                      else if shares.None? then Refused(MissingShares)
                      else if shares.value <= 0 then Refused(NonPositiveShares)
                      else if !HasRows(old(txns), session.value, symbol) || held < 0 || held < shares.value
                      then Refused(WrongShares)
                      else Done)
      ensures r == Done ==>
                var uid, price, n := session.value, Lookup(quotes, symbol).value, shares.value;
                && users == AdjustCash(old(users), uid, Value(price, n))
                && txns == old(txns) + [Txn(uid, symbol, -n, price)]
                && Holding(txns, uid, symbol) >= 0
      ensures r != Done ==> users == old(users) && txns == old(txns)
      ensures old(Solvent()) && NonNegativePrices(quotes) ==> Solvent()
      ensures old(NoShortPositions()) ==> NoShortPositions()
    {
      if session.None? {
        return NeedLogin;
      }
      var uid := session.value;
      var quote := Lookup(quotes, symbol);
      if quote.None? {
        return Refused(MissingSymbol);
      }
      if shares.None? {
        return Refused(MissingShares);
      }
      var n := shares.value;
      if n <= 0 {
        return Refused(NonPositiveShares);
      }
      var found := HasRows(txns, uid, symbol);
      var totalShares := Holding(txns, uid, symbol);
      if !found || totalShares < 0 || totalShares < n {
        return Refused(WrongShares);
      }
      var price := quote.value;
      assert Value(price, -n) == -Value(price, n);
      Record(Txn(uid, symbol, -n, price));
      r := Done;
    }

    /** The sell handler upper-casing its symbol the way the buy handler does. */
    method SellUpper(symbol: string, quotes: map<string, real>, shares: Option<int>) returns (r: Outcome)
      requires Valid()
      modifies this`users, this`txns
      ensures Valid()
      ensures old(session).None? ==> r == NeedLogin
      ensures r == Done ==> session.Some? && Lookup(quotes, Upper(symbol)).Some? && shares.Some? && shares.value > 0
      ensures session.Some? && Lookup(quotes, Upper(symbol)).Some? && shares.Some? && shares.value > 0 ==>
                (r == Done <==> shares.value <= Holding(old(txns), session.value, Upper(symbol)))
      ensures r == Done ==>
                var uid, price, n := session.value, Lookup(quotes, Upper(symbol)).value, shares.value;
                && users == AdjustCash(old(users), uid, Value(price, n))
                && txns == old(txns) + [Txn(uid, Upper(symbol), -n, price)]
      ensures r != Done ==> users == old(users) && txns == old(txns)
      ensures old(Solvent()) && NonNegativePrices(quotes) ==> Solvent()
      ensures old(NoShortPositions()) ==> NoShortPositions()
    {
      var sym := Upper(symbol);
      if session.Some? && !HasRows(txns, session.value, sym) {
        NoRowsNoHolding(txns, session.value, sym);
      }
      r := Sell(sym, quotes, shares);
    }

    /** `/add-funds` (POST): add the parsed amount to the user's cash, whatever its sign. */
    method AddFunds(amount: Option<real>) returns (r: Outcome)
      requires Valid()
      modifies this`users
      ensures Valid()
      ensures old(session).None? ==> r == NeedLogin
      ensures session.Some? ==> r == (if amount.None? then Refused(NotARealNumber) else Done)
      ensures r == Done ==> users == AdjustCash(old(users), session.value, amount.value)
      ensures r != Done ==> users == old(users)
    {
      if session.None? {
        return NeedLogin;
      }
      if amount.None? {
        return Refused(NotARealNumber);
      }
      users := AdjustCash(users, session.value, amount.value);
      r := Done;
    }

    /** `/add-funds` refusing amounts that are not positive, so that no user's cash can go negative. */
    method AddFundsChecked(amount: Option<real>) returns (r: Outcome)
      requires Valid()
      modifies this`users
      ensures Valid()
      ensures old(session).None? ==> r == NeedLogin
      ensures session.Some? ==>
                r == (if amount.None? then Refused(NotARealNumber)
                      else if amount.value <= 0.0 then Refused(NonPositiveAmount)
                      else Done)
      ensures r == Done ==> users == AdjustCash(old(users), session.value, amount.value)
      ensures r != Done ==> users == old(users)
      ensures old(Solvent()) ==> Solvent()
    {
      if session.Some? && amount.Some? && amount.value <= 0.0 {
        return Refused(NonPositiveAmount);
      }
      r := AddFunds(amount);
    }

    /** `/change_password` (POST): replace the hash once the current password and the new pair check out. */
    method ChangePassword(current: string, newPassword: string, confirmation: string, salt: nat) returns (r: Outcome)
      requires Valid()
      modifies this`users
      ensures Valid()
      ensures old(session).None? ==> r == NeedLogin
      ensures session.Some? ==>
                r == (if current == "" then Refused(NeedCurrentPassword)
                      else if !CheckHash(old(users[session.value].hash), current) then Refused(InvalidPassword)
                      else if newPassword == "" then Refused(NoNewPassword)
                      else if confirmation == "" then Refused(NoNewPasswordConfirmation)
                      else if newPassword != confirmation then Refused(NewPasswordMismatch)
                      else Done)
      ensures r == Done ==>
                && users == old(users)[session.value := old(users[session.value]).(hash := GenerateHash(newPassword, salt))]
                && forall p :: CheckHash(users[session.value].hash, p) <==> p == newPassword
      ensures r != Done ==> users == old(users)
      ensures old(Solvent()) ==> Solvent()
    {
      if session.None? {
        return NeedLogin;
      }
      if current == "" {
        return Refused(NeedCurrentPassword);
      }
      var uid := session.value;
      if !CheckHash(users[uid].hash, current) {
        return Refused(InvalidPassword);
      }
      if newPassword == "" {
        return Refused(NoNewPassword);
      } else if confirmation == "" {
        return Refused(NoNewPasswordConfirmation);
      } else if newPassword != confirmation {
        return Refused(NewPasswordMismatch);
      }
      users := users[uid := users[uid].(hash := GenerateHash(newPassword, salt))];
      r := Done;
    }

    /** `/` : the holdings, each priced by a fresh quote, and cash plus their market value. */
    method Index(quotes: map<string, real>) returns (r: Reply<Portfolio>)
      requires Valid()
      ensures session.None? ==> r == NeedLogin
      ensures session.Some? ==>
                var stocks, cash := Holdings(txns, session.value), users[session.value].cash;
                && (r.Ok? <==> AllQuoted(stocks, quotes))
                && (r.Ok? ==> MarketValue(stocks, quotes).Some?
                              && r.value == Portfolio(stocks, cash, cash + MarketValue(stocks, quotes).value))
                && (!r.Ok? ==> r == Refused(InternalServerError))
      ensures r.Ok? && NonNegativePrices(quotes) ==> r.value.total >= r.value.cashRemaining
    {
      if session.None? {
        return NeedLogin;
      }
      var uid := session.value;
      var stocks := Holdings(txns, uid);
      var allStocks := 0.0;
      var i := 0;
      while i < |stocks|
        invariant 0 <= i <= |stocks|
        invariant MarketValue(stocks[..i], quotes) == Some(allStocks)
      {
        var quote := Lookup(quotes, stocks[i].symbol);
        if quote.None? {
          assert !AllQuoted(stocks, quotes) by {
            assert stocks[i] in stocks;
          }
          return Refused(InternalServerError);
        }
        assert stocks[..i + 1] == stocks[..i] + [stocks[i]];
        MarketValueAppend(stocks[..i], stocks[i], quotes);
        allStocks := allStocks + Value(quote.value, stocks[i].totalShares);
        i := i + 1;
      }
      assert stocks[..i] == stocks;
      MarketValueDefined(stocks, quotes);
      HoldingsExact(txns, uid);
      if NonNegativePrices(quotes) {
        MarketValueNonNegative(stocks, quotes);
      }
      var cashRemaining := users[uid].cash;
      r := Ok(Portfolio(stocks, cashRemaining, cashRemaining + allStocks));
    }

    /**
      The "orders keeping" of both trade handlers: move the user's cash by the value
      of the row, opposite to its shares, then insert the row.
     */
    method Record(t: Txn)
      requires Valid() && t.userId in users
      modifies this`users, this`txns
      ensures Valid()
      ensures users == AdjustCash(old(users), t.userId, -Value(t.pricePerShare, t.shares))
      ensures txns == old(txns) + [t]
      ensures forall u: int, s: string :: Holding(txns, u, s)
                == Holding(old(txns), u, s) + (if RowOf(t, u, s) then t.shares else 0)
      ensures forall u: int :: u != t.userId ==> History(txns, u) == History(old(txns), u)
    {
      users := AdjustCash(users, t.userId, -Value(t.pricePerShare, t.shares));
      AppendRow(t);
    }

    /** The INSERT into the transactions table, for a row of an existing user. */
    method AppendRow(t: Txn)
      requires t.userId in users
      requires Valid()
      modifies this`txns
      ensures Valid()
      ensures txns == old(txns) + [t]
      ensures forall u: int, s: string :: Holding(txns, u, s)
                == Holding(old(txns), u, s) + (if RowOf(t, u, s) then t.shares else 0)
      ensures forall u: int :: u != t.userId ==> History(txns, u) == History(old(txns), u)
    {
      ghost var before := txns;
      txns := txns + [t];
      forall u: int, s: string
        ensures Holding(txns, u, s) == Holding(before, u, s) + (if RowOf(t, u, s) then t.shares else 0)
      {
        HoldingAppend(before, t, u, s);
      }
      forall u: int | u != t.userId
        ensures History(txns, u) == History(before, u)
      {
        OtherUsersRowUnseen(before, t, u);
      }
    }
  }
}
