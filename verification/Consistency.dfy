/** What holds of the tables whenever nothing is half done, and what a commit needs to keep it. */
module Consistency {
  import opened Common
  import opened Ledger
  import opened Text
  import Money

  /** At most one row per (user, currency). */
  predicate Unique(rows: seq<BalanceRow>) {
    forall i, j | 0 <= i < j < |rows| :: rows[i].account != rows[j].account
  }

  predicate NonNegative(rows: seq<BalanceRow>) {
    forall i | 0 <= i < |rows| :: rows[i].amount >= 0
  }

  /** A key marks at most one ledger row, whoever owns it. */
  predicate KeysUnique(entries: seq<Entry>) {
    forall i, j | 0 <= i < j < |entries| :: entries[i].key.Some? ==> entries[i].key != entries[j].key
  }

  predicate Backed(entries: seq<Entry>, user: string, key: string, id: string) {
    exists i | 0 <= i < |entries| :: entries[i].user == user && entries[i].key == Some(key) && entries[i].id == id
  }

  /** Records and keyed ledger rows correspond, and a record names its row. */
  predicate Recorded(entries: seq<Entry>, records: map<(string, string), Response>) {
    && (forall p | p in records :: Backed(entries, p.0, p.1, records[p].transactionId))
    && (forall i | 0 <= i < |entries| && entries[i].key.Some? :: (entries[i].user, entries[i].key.value) in records)
  }

  predicate IsPair(sent: Entry, received: Entry) {
    && sent.kind == TransferOut && received.kind == TransferIn
    && sent.amount == received.amount && sent.currency == received.currency
  }

  /** Every transfer_out row is directly followed by its transfer_in row, and the other way around. */
  predicate Paired(entries: seq<Entry>) {
    && (forall i | 0 <= i < |entries| && entries[i].kind == TransferOut ::
          i + 1 < |entries| && IsPair(entries[i], entries[i + 1]))
    && (forall i | 0 <= i < |entries| && entries[i].kind == TransferIn :: i > 0 && IsPair(entries[i - 1], entries[i]))
  }

  predicate BooksKept(entries: seq<Entry>, records: map<(string, string), Response>) {
    KeysUnique(entries) && Recorded(entries, records) && Paired(entries)
  }

  predicate Consistent(db: Database) {
    Unique(db.balances) && NonNegative(db.balances) && BooksKept(db.entries, db.idempotency)
  }

  // ---------- plans ----------

  /** What the request checks guarantee of a plan, given non-negative amounts and rates. */
  predicate WellFormed(p: Plan) {
    && p.credit.amount >= 0
    && (p.debit.Some? ==> p.debit.value.amount >= 0 && p.debit.value.account.user == p.user)
    && p.entries != [] && p.entries[0].key == p.key && p.entries[0].user == p.user
    && (forall i | 1 <= i < |p.entries| :: p.entries[i].key == None)
    && Paired(p.entries)
  }

  /** The request body and the rate feed only supply non-negative numbers. */
  predicate Sane(r: Request, env: Environment) {
    r.amount >= 0.0 && (env.rate.Some? ==> env.rate.value >= 0.0)
  }

  lemma CreditedNonNegative(amount: real, rate: real)
    requires amount >= 0.0 && rate >= 0.0
    ensures Money.Fixed4(amount) >= 0 && Money.Credited(amount, rate) >= 0
  {
    assert amount * rate >= 0.0;
    Money.FlRounds(amount * rate, amount * rate);
  }

  lemma PlansAreWellFormed(r: Request, env: Environment)
    requires Sane(r, env) && Screen(r).None? && PlanFor(r, env).Ok?
    ensures WellFormed(PlanFor(r, env).value)
    ensures PlanFor(r, env).value.user == r.user && PlanFor(r, env).value.key == r.Key()
  {
    hide Money.Fixed4, Money.Credited, Money.Fixed8;
    CreditedNonNegative(r.amount, if env.rate.Some? then env.rate.value else 0.0);
  }

  // ---------- transfers to oneself ----------

  /** The recipient is the caller, however the id is spelt. */
  predicate SelfTransfer(r: Request) {
    r.TransferRequest? && r.toUser.Some? && r.toUser.value != "" && Canon(r.toUser.value) == r.user
  }

  /** The check against transfers to oneself compares text: a request that passes it debits and
      credits one row exactly when it spells the caller's own id in another letter case. */
  lemma TransferReachesItself(r: Request, env: Environment)
    requires Screen(r).None? && PlanFor(r, env).Ok? && Canon(r.user) == r.user
    ensures ToItself(PlanFor(r, env).value) <==>
            r.TransferRequest? && r.toUser.Some? && r.toUser.value != ""
            && r.toUser.value != r.user && Canon(r.toUser.value) == Canon(r.user)
    ensures ToItself(PlanFor(r, env).value) <==> SelfTransfer(r)
  {
    hide Money.Fixed4, Money.Credited, Money.Fixed8, NormalizeKey, LowerCase;
  }

  /** However the caller's id is spelt in another letter case, the transfer is accepted, and both
      ledger rows are the caller's. */
  lemma SelfTransferIsAccepted(id: string, spelt: string, currency: string, amount: real, key: Option<string>,
                               env: Environment)
    requires Canon(spelt) == id && spelt != id && spelt != "" && id in env.users && Supported(currency)
    ensures var r := TransferRequest(id, Some(spelt), currency, None, amount, key);
            && Screen(r).None? && PlanFor(r, env).Ok? && SelfTransfer(r)
            && var p := PlanFor(r, env).value;
               ToItself(p) && |p.entries| == 2 && p.entries[0].user == p.entries[1].user == id
  {
    hide Money.Fixed4, LowerCase, NormalizeKey;
  }

  lemma LastDigitSpelt(digits: string)
    requires forall i | 0 <= i < |digits| :: !('A' <= digits[i] <= 'Z')
    ensures Canon(digits + "A") == digits + "a" != digits + "A"
  {
    LowerCaseKeeps(digits);
    LowerCaseAppend(digits, 'A');
    assert "A"[1..] == "";
    assert LowerCase("A") == "a";
    assert (digits + "a")[|digits|] != (digits + "A")[|digits|];
  }

  const DIGITS := "00000000-0000-4000-8000-00000000000"

  /** Such a request: the caller's uuid with its last digit in upper case. */
  lemma UpperCaseUuidIsAccepted(env: Environment)
    requires env.users == {DIGITS + "a"}
    ensures var r := TransferRequest(DIGITS + "a", Some(DIGITS + "A"), "NGN", None, 1.0, None);
            PlanFor(r, env).Ok? && ToItself(PlanFor(r, env).value)
  {
    hide PlanFor, Canon;
    LastDigitSpelt(DIGITS);
    SelfTransferIsAccepted(DIGITS + "a", DIGITS + "A", "NGN", 1.0, None, env);
  }

  /** No transfer_in row belongs to the user of its transfer_out row. */
  predicate PairsDiffer(entries: seq<Entry>) {
    forall i | 0 <= i < |entries| - 1 && entries[i].kind == TransferOut :: entries[i].user != entries[i + 1].user
  }

  lemma PlanPairsDiffer(r: Request, env: Environment)
    requires PlanFor(r, env).Ok?
    ensures PairsDiffer(PlanFor(r, env).value.entries) <==> !SelfTransfer(r)
  {
    hide Money.Fixed4, Money.Credited, Money.Fixed8, NormalizeKey, LowerCase;
    var entries := PlanFor(r, env).value.entries;
    if SelfTransfer(r) {
      assert entries[0].user == entries[0 + 1].user;
    }
  }

  lemma PairsDifferAppend(entries: seq<Entry>, more: seq<Entry>)
    requires Paired(entries)
    ensures PairsDiffer(entries + more) <==> PairsDiffer(entries) && PairsDiffer(more)
  {
    var all, n := entries + more, |entries|;
    if PairsDiffer(all) {
      forall i | 0 <= i < n - 1 && entries[i].kind == TransferOut ensures entries[i].user != entries[i + 1].user {
        assert all[i] == entries[i] && all[i + 1] == entries[i + 1];
      }
      forall i | 0 <= i < |more| - 1 && more[i].kind == TransferOut ensures more[i].user != more[i + 1].user {
        assert all[n + i] == more[i] && all[n + i + 1] == more[i + 1];
      }
    }
    if PairsDiffer(entries) && PairsDiffer(more) {
      forall i | 0 <= i < |all| - 1 && all[i].kind == TransferOut ensures all[i].user != all[i + 1].user {
        if i < n {
          assert all[i] == entries[i] && all[i + 1] == entries[i + 1];
        } else {
          assert all[i] == more[i - n] && all[i + 1] == more[i - n + 1];
        }
      }
    }
  }

  // ---------- balance rows ----------

  lemma FindIs(rows: seq<BalanceRow>, i: nat)
    requires Unique(rows) && i < |rows|
    ensures Find(rows, rows[i].account) == Some(i)
  {
  }

  /** What a user is shown of an account is what its row holds. */
  lemma {:induction false} RowShown(rows: seq<BalanceRow>, i: nat)
    requires Unique(rows) && i < |rows|
    ensures var a := rows[i].account;
            a.currency in BalancesOf(rows, a.user) && BalancesOf(rows, a.user)[a.currency] == rows[i].amount
  {
    var last := |rows| - 1;
    if i < last {
      RowShown(rows[..last], i);
      assert rows[last].account != rows[i].account;
    }
  }

  /** Of each currency a user is shown what the row of that account holds, and of no other account
      anything. */
  lemma {:induction false} ShownExactly(rows: seq<BalanceRow>, user: string, currency: string)
    requires Unique(rows)
    ensures currency in BalancesOf(rows, user) <==> Find(rows, Account(user, currency)).Some?
    ensures Find(rows, Account(user, currency)).Some? ==>
              BalancesOf(rows, user)[currency] == rows[Find(rows, Account(user, currency)).value].amount
  {
    if rows != [] {
      ShownExactly(rows[..|rows| - 1], user, currency);
    }
  }

  lemma FindAfterUpdate(rows: seq<BalanceRow>, i: nat, amount: int, a: Account)
    requires i < |rows|
    ensures Find(rows[i := BalanceRow(rows[i].account, amount)], a) == Find(rows, a)
  {
    var after := rows[i := BalanceRow(rows[i].account, amount)];
    assert forall j | 0 <= j < |rows| :: after[j].account == rows[j].account;
    if Find(rows, a).Some? {
      assert after[Find(rows, a).value].account == a;
    }
  }

  lemma FindAfterAppend(rows: seq<BalanceRow>, row: BalanceRow, a: Account)
    ensures Find(rows + [row], a) ==
            if Find(rows, a).Some? then Find(rows, a) else if row.account == a then Some(|rows|) else None
  {
    assert (rows + [row])[..|rows|] == rows;
  }

  lemma DebitKeeps(rows: seq<BalanceRow>, a: Account, amount: int)
    requires Unique(rows) && NonNegative(rows) && amount >= 0 && Debit(rows, a, amount).Ok?
    ensures Unique(Debit(rows, a, amount).value) && NonNegative(Debit(rows, a, amount).value)
  {
    hide Money.Less, Money.Sub;
    Money.NeverNegative(rows[Find(rows, a).value].amount, amount);
  }

  lemma CreditKeeps(rows: seq<BalanceRow>, a: Account, amount: int)
    requires Unique(rows) && NonNegative(rows) && amount >= 0
    ensures Unique(Credit(rows, a, amount)) && NonNegative(Credit(rows, a, amount))
  {
    hide Money.Add;
    var r := Find(rows, a);
    if r.Some? {
      Money.NeverNegative(rows[r.value].amount, amount);
    }
  }

  // ---------- ledger rows and records ----------

  /** Appending a plan's rows and its record under an unused key keeps the books. */
  lemma CommitKeepsBooks(entries: seq<Entry>, records: map<(string, string), Response>, p: Plan, response: Response)
    requires BooksKept(entries, records) && WellFormed(p)
    requires p.key.Some? ==> !KeyUsed(entries, p.key.value)
    requires response.transactionId == p.entries[0].id
    ensures BooksKept(entries + p.entries, Remember(records, p.user, p.key, response))
  {
    var all, after := entries + p.entries, Remember(records, p.user, p.key, response);
    forall i, j | 0 <= i < j < |all| && all[i].key.Some? ensures all[i].key != all[j].key {
      assert j >= |entries| ==> all[j] == p.entries[j - |entries|];
      assert i >= |entries| ==> all[i] == p.entries[i - |entries|];
    }
    forall q | q in after ensures Backed(all, q.0, q.1, after[q].transactionId) {
      if p.key.Some? && q == (p.user, p.key.value) {
        assert all[|entries|] == p.entries[0];
      } else {
        var i :| 0 <= i < |entries| && entries[i].user == q.0 && entries[i].key == Some(q.1)
            && entries[i].id == records[q].transactionId;
        assert all[i] == entries[i];
      }
    }
    forall i | 0 <= i < |all| && all[i].key.Some? ensures (all[i].user, all[i].key.value) in after {
      assert i >= |entries| ==> all[i] == p.entries[i - |entries|];
    }
    PairedAppend(entries, p.entries);
  }

  lemma PairedAppend(entries: seq<Entry>, more: seq<Entry>)
    requires Paired(entries) && Paired(more)
    ensures Paired(entries + more)
  {
    var all, n := entries + more, |entries|;
    forall i | 0 <= i < |all| && all[i].kind == TransferOut ensures i + 1 < |all| && IsPair(all[i], all[i + 1]) {
      if i < n {
        assert all[i + 1] == entries[i + 1];
      } else {
        assert all[i] == more[i - n] && all[i + 1] == more[i - n + 1];
      }
    }
    forall i | 0 <= i < |all| && all[i].kind == TransferIn ensures i > 0 && IsPair(all[i - 1], all[i]) {
      if i < n {
        assert all[i - 1] == entries[i - 1];
      } else {
        assert all[i] == more[i - n] && all[i - 1] == more[i - n - 1];
      }
    }
  }

  /** A record exists only under a used key. */
  lemma RecordUsesKey(db: Database, user: string, key: string)
    requires Recorded(db.entries, db.idempotency) && (user, key) in db.idempotency
    ensures KeyUsed(db.entries, key)
  {
    assert Backed(db.entries, user, key, db.idempotency[(user, key)].transactionId);
  }

  /** A transaction executed alone takes consistent tables to consistent tables. */
  lemma SettleKeepsConsistent(db: Database, p: Plan)
    requires Consistent(db) && WellFormed(p) && Settle(db, p).Ok?
    ensures Consistent(Settle(db, p).value.0)
  {
    hide Money.Less, Money.Sub, Money.Add;
    if p.debit.Some? {
      DebitKeeps(db.balances, p.debit.value.account, p.debit.value.amount);
    }
    var debited :=
      if p.debit.Some? then Debit(db.balances, p.debit.value.account, p.debit.value.amount).value else db.balances;
    CreditKeeps(debited, p.credit.account, p.credit.amount);
    CommitKeepsBooks(db.entries, db.idempotency, p, Settle(db, p).value.1);
  }
}
