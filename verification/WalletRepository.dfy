/** The repository: the three tables, updated row by row. */
module WalletRepository {
  import opened Common
  import opened Ledger
  import Money

  class Repository {
    var balances: seq<BalanceRow>
    var entries: seq<Entry>
    var idempotency: map<(string, string), Response>

    function Db(): Database
      reads this
    {
      Database(balances, entries, idempotency)
    }

    constructor ()
      ensures Db() == EMPTY
    {
      balances, entries, idempotency := [], [], map[];
    }

    /** Roll back to the state at the start of a transaction. */
    method Restore(db: Database)
      modifies this
      ensures Db() == db
    {
      balances, entries, idempotency := db.balances, db.entries, db.idempotency;
    }

    method FindBalance(user: string, currency: string) returns (r: Option<nat>)
      ensures r == Find(balances, Account(user, currency))
    {
      var i := 0;
      while i < |balances| && balances[i].account != Account(user, currency)
        invariant 0 <= i <= |balances|
        invariant forall j | 0 <= j < i :: balances[j].account != Account(user, currency)
      {
        i := i + 1;
      }
      r := if i < |balances| then Some(i) else None;
    }

    method CreateOrGetBalance(user: string, currency: string, amount: int)
      modifies this`balances
      ensures balances == Credit(old(balances), Account(user, currency), amount)
    {
      var row := FindBalance(user, currency);
      match row
      case None => balances := balances + [BalanceRow(Account(user, currency), amount)];
      case Some(i) => balances := balances[i := balances[i].(amount := Money.Add(balances[i].amount, amount))];
    }

    method DebitBalance(user: string, currency: string, amount: int) returns (error: Option<Error>)
      modifies this`balances
      ensures match Debit(old(balances), Account(user, currency), amount)
              case Ok(rows) => error == None && balances == rows
              case Err(e) => error == Some(e) && balances == old(balances)
    {
      var row := FindBalance(user, currency);
      match row
      case None => error := Some(InsufficientBalance);
      case Some(i) =>
        if Money.Less(balances[i].amount, amount) {
          error := Some(InsufficientBalance);
        } else {
          balances := balances[i := balances[i].(amount := Money.Sub(balances[i].amount, amount))];
          error := None;
        }
    }

    /** The insert, with the unique constraint on the key column. */
    method CreateTransaction(entry: Entry) returns (error: Option<Error>)
      modifies this`entries
      ensures (error == Some(DuplicateKey)) == (entry.key.Some? && KeyUsed(old(entries), entry.key.value))
      ensures error == None || error == Some(DuplicateKey)
      ensures entries == if error == None then old(entries) + [entry] else old(entries)
    {
      error := None;
      if entry.key.Some? {
        for i := 0 to |entries|
          invariant forall j | 0 <= j < i :: entries[j].key != entry.key
        {
          if entries[i].key == entry.key {
            return Some(DuplicateKey);
          }
        }
      }
      entries := entries + [entry];
    }

    method FindIdempotency(key: string, user: string) returns (r: Option<Response>)
      ensures r == if (user, key) in idempotency then Some(idempotency[(user, key)]) else None
    {
      r := if (user, key) in idempotency then Some(idempotency[(user, key)]) else None;
    }

    method SaveIdempotency(key: string, user: string, response: Response)
      modifies this`idempotency
      ensures idempotency == old(idempotency)[(user, key) := response]
    {
      idempotency := idempotency[(user, key) := response];
    }

    method GetBalances(user: string) returns (found: map<string, int>)
      ensures found == BalancesOf(balances, user)
    {
      found := map[];
      for i := 0 to |balances|
        invariant found == BalancesOf(balances[..i], user)
      {
        assert balances[..i + 1][..i] == balances[..i];
        if balances[i].account.user == user {
          found := found[balances[i].account.currency := balances[i].amount];
        }
      }
      assert balances[..|balances|] == balances;
    }

    method EnsureDefaultWallet(user: string)
      modifies this`balances
      ensures var a := Account(user, "NGN");
              balances == old(balances) + if Find(old(balances), a).Some? then [] else [BalanceRow(a, 0)]
    {
      var existing := FindBalance(user, "NGN");
      if existing.None? {
        balances := balances + [BalanceRow(Account(user, "NGN"), 0)];
      }
    }
  }
}
