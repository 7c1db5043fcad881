/** The wallet's tables and the meaning of one money operation on them.

    Amounts are ten-thousandths (module Money). The balance table is a sequence whose indices are
    the row identities, so that the uniqueness of (user, currency) is a theorem and not a
    consequence of the representation. `Exec` is one whole request executed alone. */
module Ledger {
  import opened Common
  import opened Text
  import Money

  datatype Account = Account(user: string, currency: string)

  datatype BalanceRow = BalanceRow(account: Account, amount: int)

  datatype Kind = Fund | Conversion | Trade | TransferOut | TransferIn | Transfer

  /** A row of the transactions table; `rate` is in hundred-millionths. */
  datatype Entry = Entry(id: string, user: string, kind: Kind, amount: int, currency: Option<string>,
                         source: Option<string>, target: Option<string>, rate: Option<int>, key: Option<string>)

  /** What a money operation returns; `balances` maps the user's currencies to amounts. */
  datatype Response = Response(balances: map<string, int>, transactionId: string, delivery: bool)

  datatype Database =
    Database(balances: seq<BalanceRow>, entries: seq<Entry>, idempotency: map<(string, string), Response>)

  const EMPTY := Database([], [], map[])

  datatype Error =
    | UnsupportedCurrency
    | SameCurrency
    | TradeWithoutNaira
    | RecipientNotFound
    | TransferToSelf
    | RateUnavailable
    | InsufficientBalance
    | DuplicateBalance
    | DuplicateKey

  // ---------- balance rows ----------

  /** The first row of an account. */
  function Find(rows: seq<BalanceRow>, a: Account): (r: Option<nat>)
    ensures r.Some? ==> r.value < |rows| && rows[r.value].account == a
    ensures r.Some? ==> forall i | 0 <= i < r.value :: rows[i].account != a
    ensures r.None? ==> forall i | 0 <= i < |rows| :: rows[i].account != a
  {
    if rows == [] then None
    else
      var last := |rows| - 1;
      var r := Find(rows[..last], a);
      if r.None? && rows[last].account == a then Some(last) else r
  }

  /** `debitBalance` on the table: `FOR UPDATE` read, comparison, subtraction. */
  function Debit(rows: seq<BalanceRow>, a: Account, amount: int): Result<seq<BalanceRow>, Error> {
    match Find(rows, a)
    case None => Err(InsufficientBalance)
    case Some(i) =>
      if Money.Less(rows[i].amount, amount) then Err(InsufficientBalance)
      else Ok(rows[i := BalanceRow(a, Money.Sub(rows[i].amount, amount))])
  }

  /** `createOrGetBalance` on the table. */
  function Credit(rows: seq<BalanceRow>, a: Account, amount: int): seq<BalanceRow> {
    match Find(rows, a)
    case None => rows + [BalanceRow(a, amount)]
    case Some(i) => rows[i := BalanceRow(a, Money.Add(rows[i].amount, amount))]
  }

  /** The balances of one user, by currency. */
  function BalancesOf(rows: seq<BalanceRow>, user: string): map<string, int> {
    if rows == [] then map[]
    else
      var row := rows[|rows| - 1];
      var rest := BalancesOf(rows[..|rows| - 1], user);
      if row.account.user == user then rest[row.account.currency := row.amount] else rest
  }

  lemma {:induction false} RowListed(rows: seq<BalanceRow>, i: nat)
    requires i < |rows|
    ensures rows[i].account.currency in BalancesOf(rows, rows[i].account.user)
  {
    if i < |rows| - 1 {
      RowListed(rows[..|rows| - 1], i);
    }
  }

  predicate KeyUsed(entries: seq<Entry>, key: string) {
    exists i | 0 <= i < |entries| :: entries[i].key == Some(key)
  }

  // ---------- requests ----------

  /** Ids of users are uuids: a request may spell one in either case, but the database compares
      them without regard to case and returns the lower case. */
  function Canon(id: string): string { LowerCase(id) }

  /** `user` is the id of the caller as the database returned it, `toUser` the text of the request. */
  datatype Request =
    | FundRequest(user: string, currency: string, amount: real, rawKey: Option<string>)
    | ConvertRequest(user: string, source: string, target: string, amount: real, rawKey: Option<string>)
    | TradeRequest(user: string, source: string, target: string, amount: real, rawKey: Option<string>)
    | TransferRequest(user: string, toUser: Option<string>, source: string, toCurrency: Option<string>,
                      amount: real, rawKey: Option<string>)
  {
    function Key(): Option<string> { NormalizeKey(rawKey) }
  }

  /** What an operation learns from outside: the users, the rate of its pair, generated ids. */
  datatype Environment = Environment(users: set<string>, rate: Option<real>, id: string, secondId: string)

  /** A key counts only when it is not blank. */
  function NormalizeKey(raw: Option<string>): Option<string> {
    if raw.Some? && Trim(raw.value) != "" then Some(Trim(raw.value)) else None
  }

  /** The key is the text between the white space, all of it; blank text is no key. */
  lemma KeyIsTheText(a: string, k: string, b: string, raw: string)
    requires Blank(a) && Blank(b) && k != "" && Trimmed(k)
    ensures NormalizeKey(Some(a + k + b)) == Some(k)
    ensures NormalizeKey(Some(raw)).None? <==> Blank(raw)
    ensures NormalizeKey(None) == None
  {
    TrimIgnoresBlanks(a, k, b);
    TrimmedStays(k);
    TrimEmptyExactly(raw);
  }

  /** Neither has a key, or their texts differ in surrounding white space only. */
  ghost predicate Alike(x: Option<string>, y: Option<string>) {
    || ((x.None? || Blank(x.value)) && (y.None? || Blank(y.value)))
    || (x.Some? && y.Some? && exists k :: k != "" && Trimmed(k) && Pads(x.value, k) && Pads(y.value, k))
  }

  /** Two requests have one key exactly if their texts differ in surrounding white space only. */
  lemma SameKeyExactly(r: Request, q: Request)
    ensures r.Key() == q.Key() <==> Alike(r.rawKey, q.rawKey)
  {
    hide IsSpace, Trim, Blank, Pads, Trimmed;
    KeyOf(r.rawKey);
    KeyOf(q.rawKey);
    if r.Key() == q.Key() && r.Key().Some? {
      var k := r.Key().value;
      assert k != "" && Trimmed(k) && Pads(r.rawKey.value, k) && Pads(q.rawKey.value, k);
    }
    if r.rawKey.Some? && q.rawKey.Some? {
      forall k | k != "" && Trimmed(k) && Pads(r.rawKey.value, k) && Pads(q.rawKey.value, k)
        ensures r.Key() == q.Key()
      {
        TrimIsThePadded(r.rawKey.value, k);
        TrimIsThePadded(q.rawKey.value, k);
      }
    }
  }

  lemma KeyOf(raw: Option<string>)
    ensures NormalizeKey(raw).None? <==> raw.None? || Blank(raw.value)
    ensures NormalizeKey(raw).Some? ==>
              var k := NormalizeKey(raw).value; k != "" && Trimmed(k) && Pads(raw.value, k)
  {
    if raw.Some? {
      TrimEmptyExactly(raw.value);
      TrimSplits(raw.value);
      TrimIsThePadded(raw.value, Trim(raw.value));
    }
  }

  predicate Supported(currency: string) { currency in {"NGN", "USD", "EUR", "GBP"} }

  // ---------- one operation ----------

  datatype Posting = Posting(account: Account, amount: int)

  /** Everything a transaction is going to do, known before it starts. */
  datatype Plan = Plan(user: string, debit: Option<Posting>, credit: Posting, entries: seq<Entry>,
                       key: Option<string>, delivery: bool)

  /** The plan debits and credits one and the same row. */
  predicate ToItself(p: Plan) { p.debit.Some? && p.debit.value.account == p.credit.account }

  function Unless(bad: bool, error: Error, rest: Option<Error>): Option<Error> {
    if bad then Some(error) else rest
  }

  /** The checks made before the idempotency lookup. */
  function Screen(r: Request): Option<Error> {
    match r
    case FundRequest(_, currency, _, _) =>
      Unless(!Supported(currency), UnsupportedCurrency, None)
    case ConvertRequest(_, source, target, _, _) =>
      ScreenPair(source, target)
    case TradeRequest(_, source, target, _, _) =>
      Unless(source != "NGN" && target != "NGN", TradeWithoutNaira,
        Unless(source == target, SameCurrency, ScreenPair(source, target)))
    case TransferRequest(_, _, _, _, _, _) =>
      None
  }

  function ScreenPair(source: string, target: string): Option<Error> {
    Unless(!Supported(source) || !Supported(target), UnsupportedCurrency,
      Unless(source == target, SameCurrency, None))
  }

  function Lookup(db: Database, r: Request): Option<Response> {
    var key := r.Key();
    if key.Some? && (r.user, key.value) in db.idempotency then Some(db.idempotency[(r.user, key.value)]) else None
  }

  /** A conversion of whatever kind: the debit is rounded first, the credit after multiplying. */
  function ConversionPlan(r: Request, kind: Kind, source: string, target: string, rate: real, id: string): Plan {
    var debit := Money.Fixed4(r.amount);
    Plan(r.user,
         Some(Posting(Account(r.user, source), debit)),
         Posting(Account(r.user, target), Money.Credited(r.amount, rate)),
         [Entry(id, r.user, kind, debit, None, Some(source), Some(target), Some(Money.Fixed8(rate)), r.Key())],
         r.Key(), true)
  }

  /** The checks made after the lookup, and the resulting plan. */
  function PlanFor(r: Request, env: Environment): Result<Plan, Error> {
    var amount := Money.Fixed4(r.amount);
    match r
    case FundRequest(user, currency, _, _) =>
      Ok(Plan(user, None, Posting(Account(user, currency), amount),
              [Entry(env.id, user, Fund, amount, Some(currency), None, None, None, r.Key())], r.Key(), false))
    case ConvertRequest(_, source, target, _, _) =>
      if env.rate.None? then Err(RateUnavailable)
      else Ok(ConversionPlan(r, Conversion, source, target, env.rate.value, env.id))
    case TradeRequest(_, source, target, _, _) =>
      if env.rate.None? then Err(RateUnavailable)
      else Ok(ConversionPlan(r, Trade, source, target, env.rate.value, env.id))
    case TransferRequest(user, toUser, source, toCurrency, _, _) =>
      if !Supported(source) then Err(UnsupportedCurrency)
      else if toUser.Some? && toUser.value != "" then
        var to := Canon(toUser.value);
        if to !in env.users then Err(RecipientNotFound)
        else if toUser.value == user then Err(TransferToSelf)
        else
          Ok(Plan(user, Some(Posting(Account(user, source), amount)), Posting(Account(to, source), amount),
                  [Entry(env.id, user, TransferOut, amount, Some(source), None, None, None, r.Key()),
                   Entry(env.secondId, to, TransferIn, amount, Some(source), None, None, None, None)],
                  r.Key(), true))
      else
        var target := if toCurrency.Some? then toCurrency.value else source;
        if !Supported(target) then Err(UnsupportedCurrency)
        else if source == target then Err(SameCurrency)
        else if env.rate.None? then Err(RateUnavailable)
        else Ok(ConversionPlan(r, Transfer, source, target, env.rate.value, env.id))
  }

  /** The transaction of a plan, executed alone: all of it, or an error and nothing. */
  function Settle(db: Database, p: Plan): Result<(Database, Response), Error>
    requires p.entries != []
  {
    var debited :=
      if p.debit.Some? then Debit(db.balances, p.debit.value.account, p.debit.value.amount) else Ok(db.balances);
    if debited.Err? then Err(debited.error)
    else if p.key.Some? && KeyUsed(db.entries, p.key.value) then Err(DuplicateKey)
    else
      var rows := Credit(debited.value, p.credit.account, p.credit.amount);
      var response := Response(BalancesOf(rows, p.user), p.entries[0].id, p.delivery);
      Ok((Database(rows, db.entries + p.entries, Remember(db.idempotency, p.user, p.key, response)), response))
  }

  function Remember(records: map<(string, string), Response>, user: string, key: Option<string>, response: Response)
    : map<(string, string), Response>
  {
    if key.Some? then records[(user, key.value) := response] else records
  }

  /** One request, executed alone. */
  function Exec(db: Database, r: Request, env: Environment): (Database, Result<Response, Error>) {
    if Screen(r).Some? then (db, Err(Screen(r).value))
    else if Lookup(db, r).Some? then (db, Ok(Lookup(db, r).value))
    else
      var plan := PlanFor(r, env);
      if plan.Err? then (db, Err(plan.error))
      else
        var settled := Settle(db, plan.value);
        if settled.Err? then (db, Err(settled.error)) else (settled.value.0, Ok(settled.value.1))
  }
}
