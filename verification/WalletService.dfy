/** The service: each money operation step by step, with the transaction rolled back on an error.
    Every method is proved to have exactly the effect and the answer of `Ledger.Exec`. */
module WalletService {
  import opened Common
  import opened Ledger
  import opened WalletRepository
  import Money

  class Service {
    const repo: Repository

    constructor (repo: Repository)
      ensures this.repo == repo
    {
      this.repo := repo;
    }

    method GetBalances(user: string) returns (found: map<string, int>)
      modifies repo`balances
      ensures found == BalancesOf(repo.balances, user) && found != map[]
      ensures BalancesOf(old(repo.balances), user) != map[] ==> repo.balances == old(repo.balances)
      ensures BalancesOf(old(repo.balances), user) == map[] ==> found == map["NGN" := 0]
      ensures |repo.balances| <= |old(repo.balances)| + 1 && old(repo.balances) <= repo.balances
    {
      found := repo.GetBalances(user);
      if found == map[] {
        forall i | 0 <= i < |repo.balances| ensures repo.balances[i].account.user != user {
          RowListed(repo.balances, i);
        }
        repo.EnsureDefaultWallet(user);
        assert repo.balances[..|repo.balances| - 1] == old(repo.balances);
        found := repo.GetBalances(user);
        assert "NGN" in found;
      }
    }

    method Fund(user: string, currency: string, amount: real, rawKey: Option<string>, env: Environment)
        returns (r: Result<Response, Error>)
      modifies repo
      ensures (repo.Db(), r) == Exec(old(repo.Db()), FundRequest(user, currency, amount, rawKey), env)
    {
      if !Supported(currency) {
        return Err(UnsupportedCurrency);
      }
      var key := NormalizeKey(rawKey);
      if key.Some? {
        var existing := repo.FindIdempotency(key.value, user);
        if existing.Some? {
          return Ok(existing.value);
        }
      }
      var before := repo.Db();
      var printed := Money.Fixed4(amount);
      repo.CreateOrGetBalance(user, currency, printed);
      var entry := Entry(env.id, user, Kind.Fund, printed, Some(currency), None, None, None, key);
      var failed := repo.CreateTransaction(entry);
      if failed.Some? {
        repo.Restore(before);
        return Err(failed.value);
      }
      r := Answer(user, key, env.id, false);
    }

    /** The common end of every transaction: read the balances back, store and return the response. */
    method Answer(user: string, key: Option<string>, id: string, delivery: bool) returns (r: Result<Response, Error>)
      modifies repo`idempotency
      ensures r == Ok(Response(BalancesOf(repo.balances, user), id, delivery))
      ensures repo.idempotency == Remember(old(repo.idempotency), user, key, r.value)
    {
      var found := repo.GetBalances(user);
      var response := Response(found, id, delivery);
      if key.Some? {
        repo.SaveIdempotency(key.value, user, response);
      }
      r := Ok(response);
    }

    /** The transaction shared by convert, trade and same-user transfer. */
    method MoveBetweenCurrencies(user: string, source: string, target: string, amount: real, rate: real,
                                 key: Option<string>, kind: Kind, id: string) returns (r: Result<Response, Error>)
      modifies repo
      ensures var entry := Entry(id, user, kind, Money.Fixed4(amount), None, Some(source), Some(target),
                                 Some(Money.Fixed8(rate)), key);
              var plan := Plan(user, Some(Posting(Account(user, source), Money.Fixed4(amount))),
                               Posting(Account(user, target), Money.Credited(amount, rate)), [entry], key, true);
              match Settle(old(repo.Db()), plan)
              case Ok(settled) => repo.Db() == settled.0 && r == Ok(settled.1)
              case Err(e) => repo.Db() == old(repo.Db()) && r == Err(e)
    {
      hide Debit, Credit, BalancesOf, KeyUsed, Money.Fixed4, Money.Fixed8, Money.Credited;
      var before := repo.Db();
      var printed := Money.Fixed4(amount);
      var credited := Money.Credited(amount, rate);
      var failed := repo.DebitBalance(user, source, printed);
      if failed.Some? {
        return Err(failed.value);
      }
      repo.CreateOrGetBalance(user, target, credited);
      var entry := Entry(id, user, kind, printed, None, Some(source), Some(target), Some(Money.Fixed8(rate)), key);
      failed := repo.CreateTransaction(entry);
      if failed.Some? {
        repo.Restore(before);
        return Err(failed.value);
      }
      r := Answer(user, key, id, true);
    }

    method ConvertOrTrade(user: string, source: string, target: string, amount: real, rawKey: Option<string>,
                          kind: Kind, env: Environment) returns (r: Result<Response, Error>)
      requires kind == Conversion || kind == Kind.Trade
      requires kind == Kind.Trade ==> (source == "NGN" || target == "NGN") && source != target
      modifies repo
      ensures var request := if kind == Conversion then ConvertRequest(user, source, target, amount, rawKey)
                             else TradeRequest(user, source, target, amount, rawKey);
              (repo.Db(), r) == Exec(old(repo.Db()), request, env)
    {
      if !Supported(source) || !Supported(target) {
        return Err(UnsupportedCurrency);
      }
      if source == target {
        return Err(SameCurrency);
      }
      var key := NormalizeKey(rawKey);
      if key.Some? {
        var existing := repo.FindIdempotency(key.value, user);
        if existing.Some? {
          return Ok(existing.value);
        }
      }
      if env.rate.None? {
        return Err(RateUnavailable);
      }
      r := MoveBetweenCurrencies(user, source, target, amount, env.rate.value, key, kind, env.id);
    }

    method Convert(user: string, source: string, target: string, amount: real, rawKey: Option<string>, env: Environment)
        returns (r: Result<Response, Error>)
      modifies repo
      ensures (repo.Db(), r) == Exec(old(repo.Db()), ConvertRequest(user, source, target, amount, rawKey), env)
    {
      r := ConvertOrTrade(user, source, target, amount, rawKey, Conversion, env);
    }

    method Trade(user: string, source: string, target: string, amount: real, rawKey: Option<string>, env: Environment)
        returns (r: Result<Response, Error>)
      modifies repo
      ensures (repo.Db(), r) == Exec(old(repo.Db()), TradeRequest(user, source, target, amount, rawKey), env)
    {
      if source != "NGN" && target != "NGN" {
        return Err(TradeWithoutNaira);
      }
      if source == target {
        return Err(SameCurrency);
      }
      r := ConvertOrTrade(user, source, target, amount, rawKey, Kind.Trade, env);
    }

    method Transfer(user: string, toUser: Option<string>, source: string, toCurrency: Option<string>, amount: real,
                    rawKey: Option<string>, env: Environment) returns (r: Result<Response, Error>)
      modifies repo
      ensures (repo.Db(), r) ==
          Exec(old(repo.Db()), TransferRequest(user, toUser, source, toCurrency, amount, rawKey), env)
    {
      var key := NormalizeKey(rawKey);
      if key.Some? {
        var existing := repo.FindIdempotency(key.value, user);
        if existing.Some? {
          return Ok(existing.value);
        }
      }
      if !Supported(source) {
        return Err(UnsupportedCurrency);
      }
      if toUser.Some? && toUser.value != "" {
        if Canon(toUser.value) !in env.users {
          return Err(RecipientNotFound);
        }
        if toUser.value == user {
          return Err(TransferToSelf);
        }
        r := SendToUser(user, Canon(toUser.value), source, amount, key, env);
        return;
      }
      var target := if toCurrency.Some? then toCurrency.value else source;
      if !Supported(target) {
        return Err(UnsupportedCurrency);
      }
      if source == target {
        return Err(SameCurrency);
      }
      if env.rate.None? {
        return Err(RateUnavailable);
      }
      r := MoveBetweenCurrencies(user, source, target, amount, env.rate.value, key, Kind.Transfer, env.id);
    }

    /** The transaction of a transfer to another user. */
    method SendToUser(user: string, toUser: string, currency: string, amount: real, key: Option<string>,
                      env: Environment)
        returns (r: Result<Response, Error>)
      modifies repo
      ensures var printed := Money.Fixed4(amount);
              var sent := Entry(env.id, user, TransferOut, printed, Some(currency), None, None, None, key);
              var received := Entry(env.secondId, toUser, TransferIn, printed, Some(currency), None, None, None, None);
              var plan := Plan(user, Some(Posting(Account(user, currency), printed)),
                               Posting(Account(toUser, currency), printed),
                               [sent, received], key, true);
              match Settle(old(repo.Db()), plan)
              case Ok(settled) => repo.Db() == settled.0 && r == Ok(settled.1)
              case Err(e) => repo.Db() == old(repo.Db()) && r == Err(e)
    {
      hide Debit, Credit, BalancesOf, KeyUsed, Money.Fixed4;
      var before := repo.Db();
      var printed := Money.Fixed4(amount);
      var failed := repo.DebitBalance(user, currency, printed);
      if failed.Some? {
        return Err(failed.value);
      }
      repo.CreateOrGetBalance(toUser, currency, printed);
      var sent := Entry(env.id, user, TransferOut, printed, Some(currency), None, None, None, key);
      failed := repo.CreateTransaction(sent);
      if failed.Some? {
        repo.Restore(before);
        return Err(failed.value);
      }
      var received := Entry(env.secondId, toUser, TransferIn, printed, Some(currency), None, None, None, None);
      var second := repo.CreateTransaction(received);
      assert second == None;
      r := Answer(user, key, env.id, true);
    }
  }
}
