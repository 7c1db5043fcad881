/** Whole runs of operations executed one at a time: consistency, idempotent replay,
    conservation of money and reconstruction of the balances from the ledger. */
module SerialRuns {
  import opened Common
  import opened Ledger
  import opened Consistency
  import opened Money
  import opened Conversion

  /** A money request, or a first look at the wallet (which opens the default one). */
  datatype Operation = Perform(request: Request, env: Environment) | Visit(user: string)

  /** `ensureDefaultWallet`. */
  function OpenWallet(rows: seq<BalanceRow>, user: string): seq<BalanceRow> {
    var a := Account(user, "NGN");
    if Find(rows, a).Some? then rows else rows + [BalanceRow(a, 0)]
  }

  function Step(db: Database, op: Operation): Database {
    match op
    case Perform(r, env) => Exec(db, r, env).0
    case Visit(user) => db.(balances := OpenWallet(db.balances, user))
  }

  /** The tables after a run from empty ones. */
  function Run(ops: seq<Operation>): Database {
    if ops == [] then EMPTY else Step(Run(ops[..|ops| - 1]), ops[|ops| - 1])
  }

  predicate SaneOperation(op: Operation) {
    op.Perform? ==> Sane(op.request, op.env)
  }

  predicate AllSane(ops: seq<Operation>) {
    forall i | 0 <= i < |ops| :: SaneOperation(ops[i])
  }

  /** The plan that `op` carries out on `db`, if it moves money. */
  function Executed(db: Database, op: Operation): Option<Plan> {
    if op.Perform? && Screen(op.request).None? && Lookup(db, op.request).None? && PlanFor(op.request, op.env).Ok?
       && Settle(db, PlanFor(op.request, op.env).value).Ok?
    then Some(PlanFor(op.request, op.env).value)
    else None
  }

  /** All or nothing: an operation settles its plan, or changes nothing but an empty wallet. */
  lemma StepIsSettleOrNothing(db: Database, op: Operation)
    ensures match Executed(db, op)
            case Some(p) => Settle(db, p).Ok? && Step(db, op) == Settle(db, p).value.0
            case None => Step(db, op) == if op.Visit? then db.(balances := OpenWallet(db.balances, op.user)) else db
  {
  }

  lemma StepKeepsConsistent(db: Database, op: Operation)
    requires Consistent(db) && SaneOperation(op)
    ensures Consistent(Step(db, op))
  {
    hide Settle, PlanFor, Screen;
    StepIsSettleOrNothing(db, op);
    if Executed(db, op).Some? {
      PlansAreWellFormed(op.request, op.env);
      SettleKeepsConsistent(db, Executed(db, op).value);
    }
  }

  /** After every run: unique non-negative balances, unique keys, records matching keyed ledger
      rows, transfers in pairs. */
  lemma {:induction false} RunsAreConsistent(ops: seq<Operation>)
    requires AllSane(ops)
    ensures Consistent(Run(ops))
  {
    if ops != [] {
      RunsAreConsistent(ops[..|ops| - 1]);
      StepKeepsConsistent(Run(ops[..|ops| - 1]), ops[|ops| - 1]);
    }
  }

  // ---------- idempotent replay ----------

  /** No operation overwrites a record, although saving one is an upsert. */
  lemma StepKeepsRecords(db: Database, op: Operation, p: (string, string))
    requires p in db.idempotency
    ensures p in Step(db, op).idempotency && Step(db, op).idempotency[p] == db.idempotency[p]
  {
    hide Debit, Credit, BalancesOf, Fixed4, Fixed8, Credited;
  }

  lemma {:induction false} RunsKeepRecords(ops: seq<Operation>, n: nat, p: (string, string))
    requires n <= |ops| && p in Run(ops[..n]).idempotency
    ensures p in Run(ops).idempotency && Run(ops).idempotency[p] == Run(ops[..n]).idempotency[p]
    decreases |ops|
  {
    if n == |ops| {
      assert ops[..n] == ops;
    } else {
      var before := ops[..|ops| - 1];
      assert before[..n] == ops[..n];
      RunsKeepRecords(before, n, p);
      StepKeepsRecords(Run(before), ops[|ops| - 1], p);
    }
  }

  /** A request repeated under a key of the same user gets the first answer, whatever ran in
      between, and changes nothing. The balances in that answer are those right after the first. */
  lemma RepeatedRequestReplays(ops: seq<Operation>, n: nat, again: Request, env: Environment)
    requires n < |ops| && Executed(Run(ops[..n]), ops[n]).Some?
    requires again.user == ops[n].request.user && again.Key() == ops[n].request.Key() && again.Key().Some?
    requires Screen(again).None?
    ensures var first := Exec(Run(ops[..n]), ops[n].request, ops[n].env).1;
            && first.Ok?
            && first.value.balances == BalancesOf(Run(ops[..n + 1]).balances, again.user)
            && Exec(Run(ops), again, env) == (Run(ops), first)
  {
    hide Settle, PlanFor, Executed, NormalizeKey;
    var p := (again.user, again.Key().value);
    assert ops[..n + 1][..n] == ops[..n];
    RecordWritten(Run(ops[..n]), ops[n]);
    RunsKeepRecords(ops, n + 1, p);
    KnownKeyIsAnswered(Run(ops), again, env);
  }

  lemma KnownKeyIsAnswered(db: Database, again: Request, env: Environment)
    requires Screen(again).None? && again.Key().Some? && (again.user, again.Key().value) in db.idempotency
    ensures Exec(db, again, env) == (db, Ok(db.idempotency[(again.user, again.Key().value)]))
  {
    hide Settle, PlanFor;
  }

  lemma RecordWritten(db: Database, op: Operation)
    requires Executed(db, op).Some? && op.request.Key().Some?
    ensures var answer := Exec(db, op.request, op.env).1;
            && answer.Ok? && answer.value.balances == BalancesOf(Step(db, op).balances, op.request.user)
            && var p := (op.request.user, op.request.Key().value);
               p in Step(db, op).idempotency && Step(db, op).idempotency[p] == answer.value
  {
    hide Debit, Credit, BalancesOf, Fixed4, Fixed8, Credited;
  }

  // ---------- conservation ----------

  /** The total of all users' balances in one currency. */
  function Total(rows: seq<BalanceRow>, currency: string): int {
    if rows == [] then 0
    else
      var row := rows[|rows| - 1];
      Total(rows[..|rows| - 1], currency) + if row.account.currency == currency then row.amount else 0
  }

  lemma {:induction false} TotalAfterUpdate(rows: seq<BalanceRow>, i: nat, amount: int, currency: string)
    requires i < |rows|
    ensures Total(rows[i := BalanceRow(rows[i].account, amount)], currency)
         == Total(rows, currency) + if rows[i].account.currency == currency then amount - rows[i].amount else 0
  {
    var last := |rows| - 1;
    var after := rows[i := BalanceRow(rows[i].account, amount)];
    if i == last {
      assert after[..last] == rows[..last];
    } else {
      assert after[..last] == rows[..last][i := BalanceRow(rows[i].account, amount)];
      TotalAfterUpdate(rows[..last], i, amount, currency);
    }
  }

  lemma TotalAfterAppend(rows: seq<BalanceRow>, row: BalanceRow, currency: string)
    ensures Total(rows + [row], currency)
         == Total(rows, currency) + if row.account.currency == currency then row.amount else 0
  {
    assert (rows + [row])[..|rows|] == rows;
  }

  function Into(p: Plan, a: Account): int { if p.credit.account == a then p.credit.amount else 0 }

  function OutOf(p: Plan, a: Account): int {
    if p.debit.Some? && p.debit.value.account == a then p.debit.value.amount else 0
  }

  function Held(rows: seq<BalanceRow>, a: Account): int {
    match Find(rows, a) case None => 0 case Some(i) => rows[i].amount
  }

  /** The rows a plan changes stay where binary64 arithmetic on four decimals is exact: the debited
      one before, the credited one, if it exists, after. */
  predicate WithinBound(rows: seq<BalanceRow>, p: Plan) {
    var a := p.credit.account;
    && p.credit.amount >= 0
    && (p.debit.Some? ==> p.debit.value.amount >= 0 && 0 <= Held(rows, p.debit.value.account) <= BOUND)
    && (Find(rows, a).Some? ==> Held(rows, a) >= 0 && Held(rows, a) - OutOf(p, a) + p.credit.amount <= BOUND)
  }

  lemma DebitIsExact(rows: seq<BalanceRow>, a: Account, amount: int, b: Account, currency: string)
    requires Debit(rows, a, amount).Ok? && 0 <= amount && 0 <= Held(rows, a) <= BOUND
    ensures var after := Debit(rows, a, amount).value;
            && Held(after, b) == Held(rows, b) - (if a == b then amount else 0)
            && Total(after, currency) == Total(rows, currency) - (if a.currency == currency then amount else 0)
            && Held(after, a) >= 0 && (Find(after, b).Some? <==> Find(rows, b).Some?)
  {
    var i := Find(rows, a).value;
    var left := Sub(rows[i].amount, amount);
    LessExact(rows[i].amount, amount);
    SubExact(rows[i].amount, amount);
    hide Less, Sub;
    FindAfterUpdate(rows, i, left, a);
    FindAfterUpdate(rows, i, left, b);
    TotalAfterUpdate(rows, i, left, currency);
  }

  lemma CreditIsExact(rows: seq<BalanceRow>, a: Account, amount: int, b: Account, currency: string)
    requires 0 <= amount && (Find(rows, a).Some? ==> Held(rows, a) >= 0 && Held(rows, a) + amount <= BOUND)
    ensures var after := Credit(rows, a, amount);
            && Held(after, b) == Held(rows, b) + (if a == b then amount else 0)
            && Total(after, currency) == Total(rows, currency) + (if a.currency == currency then amount else 0)
  {
    if Find(rows, a).Some? {
      var i := Find(rows, a).value;
      AddExact(rows[i].amount, amount);
      hide Add;
      FindAfterUpdate(rows, i, rows[i].amount + amount, b);
      TotalAfterUpdate(rows, i, rows[i].amount + amount, currency);
    } else {
      FindAfterAppend(rows, BalanceRow(a, amount), b);
      TotalAfterAppend(rows, BalanceRow(a, amount), currency);
    }
  }

  /** Within the bound a settled plan moves exactly its debit and its credit, and nothing else. */
  lemma SettleIsExact(db: Database, p: Plan, a: Account)
    requires p.entries != [] && Settle(db, p).Ok? && WithinBound(db.balances, p)
    ensures var after := Settle(db, p).value.0.balances;
            && Held(after, a) == Held(db.balances, a) + Into(p, a) - OutOf(p, a)
            && Total(after, a.currency) == Total(db.balances, a.currency) + Inflow(p, a.currency)
  {
    hide Less, Sub, Add;
    var rows := db.balances;
    if p.debit.Some? {
      DebitIsExact(rows, p.debit.value.account, p.debit.value.amount, a, a.currency);
      DebitIsExact(rows, p.debit.value.account, p.debit.value.amount, p.credit.account, a.currency);
      rows := Debit(rows, p.debit.value.account, p.debit.value.amount).value;
    }
    CreditIsExact(rows, p.credit.account, p.credit.amount, a, a.currency);
  }

  /** What a request is meant to do to an account, read off the request itself. */
  function Delta(r: Request, env: Environment, a: Account): int {
    match r
    case FundRequest(user, currency, amount, _) =>
      if a == Account(user, currency) then Fixed4(amount) else 0
    case ConvertRequest(user, source, target, amount, _) =>
      ConversionDelta(user, source, target, amount, env, a)
    case TradeRequest(user, source, target, amount, _) =>
      ConversionDelta(user, source, target, amount, env, a)
    case TransferRequest(user, toUser, source, toCurrency, amount, _) =>
      if toUser.Some? && toUser.value != "" then
        (if a == Account(Canon(toUser.value), source) then Fixed4(amount) else 0)
        - (if a == Account(user, source) then Fixed4(amount) else 0)
      else ConversionDelta(user, source, if toCurrency.Some? then toCurrency.value else source, amount, env, a)
  }

  function ConversionDelta(user: string, source: string, target: string, amount: real, env: Environment, a: Account)
    : int
  {
    if a == Account(user, source) then -Fixed4(amount)
    else if a == Account(user, target) && env.rate.Some? then Credited(amount, env.rate.value)
    else 0
  }

  /** A request that moves money changes every account by exactly what it asked for. */
  lemma RequestMovesWhatItAsks(db: Database, r: Request, env: Environment, a: Account)
    requires Executed(db, Perform(r, env)).Some? && WithinBound(db.balances, Executed(db, Perform(r, env)).value)
    ensures Held(Exec(db, r, env).0.balances, a) == Held(db.balances, a) + Delta(r, env, a)
  {
    hide Settle, PlanFor, Delta, Into, OutOf, Held, WithinBound, Screen, Lookup, Total;
    StepIsSettleOrNothing(db, Perform(r, env));
    PlanKinds(r, env);
    SettleIsExact(db, Executed(db, Perform(r, env)).value, a);
    DeltaOfPlan(r, env, a);
  }

  lemma DeltaOfPlan(r: Request, env: Environment, a: Account)
    requires Screen(r).None? && PlanFor(r, env).Ok?
    ensures Into(PlanFor(r, env).value, a) - OutOf(PlanFor(r, env).value, a) == Delta(r, env, a)
  {
    hide Fixed4, Fixed8, Credited, NormalizeKey;
  }

  /** The account a request takes money from. */
  function Payer(r: Request): Option<Account> {
    match r
    case FundRequest(_, _, _, _) => None
    case ConvertRequest(user, source, _, _, _) => Some(Account(user, source))
    case TradeRequest(user, source, _, _, _) => Some(Account(user, source))
    case TransferRequest(user, _, source, _, _, _) => Some(Account(user, source))
  }

  /** A request that gets past its checks is refused exactly when the payer has no row or too
      little in it, or the key is another user's; otherwise it is carried out. */
  lemma RefusedExactly(db: Database, r: Request, env: Environment)
    requires Consistent(db) && Sane(r, env)
    requires Payer(r).Some? ==> Fixed4(r.amount) <= 2 * BOUND || Held(db.balances, Payer(r).value) <= 2 * BOUND
    requires Screen(r).None? && Lookup(db, r).None? && PlanFor(r, env).Ok?
    ensures var answer := Exec(db, r, env).1;
            var short := Payer(r).Some?
                && (Find(db.balances, Payer(r).value).None? || Held(db.balances, Payer(r).value) < Fixed4(r.amount));
            var foreign := exists i ::
                0 <= i < |db.entries| && r.Key().Some? && db.entries[i].key == r.Key() && db.entries[i].user != r.user;
            && (answer == Err(InsufficientBalance) <==> short)
            && (answer == Err(DuplicateKey) <==> !short && foreign)
            && (answer.Ok? <==> !short && !foreign)
            && (answer.Err? ==> Exec(db, r, env).0 == db)
  {
    PayerPays(r, env);
    PlansAreWellFormed(r, env);
    if Payer(r).Some? && Find(db.balances, Payer(r).value).Some? {
      LessExact(Held(db.balances, Payer(r).value), Fixed4(r.amount));
    }
    hide Fixed4, Less, Sub, Add, PlanFor, Screen, Payer, NormalizeKey, BalancesOf, Credit, Sane;
    if r.Key().Some? && KeyUsed(db.entries, r.Key().value) {
      var i :| 0 <= i < |db.entries| && db.entries[i].key == Some(r.Key().value);
      assert (db.entries[i].user, r.Key().value) in db.idempotency;
      assert db.entries[i].user != r.user;
    }
  }

  lemma PayerPays(r: Request, env: Environment)
    requires Sane(r, env) && Screen(r).None? && PlanFor(r, env).Ok?
    ensures Fixed4(r.amount) >= 0
    ensures PlanFor(r, env).value.debit ==
            if Payer(r).Some? then Some(Posting(Payer(r).value, Fixed4(r.amount))) else None
  {
    CreditedNonNegative(r.amount, 0.0);
    hide Fixed4, Fixed8, Credited, NormalizeKey;
  }

  lemma VisitMovesNothing(rows: seq<BalanceRow>, user: string, a: Account)
    ensures Held(OpenWallet(rows, user), a) == Held(rows, a)
    ensures Total(OpenWallet(rows, user), a.currency) == Total(rows, a.currency)
  {
    FindAfterAppend(rows, BalanceRow(Account(user, "NGN"), 0), a);
    TotalAfterAppend(rows, BalanceRow(Account(user, "NGN"), 0), a.currency);
  }

  /** The plans carried out by a run, in order. */
  function Log(ops: seq<Operation>): seq<Plan> {
    if ops == [] then []
    else
      var before, op := ops[..|ops| - 1], ops[|ops| - 1];
      match Executed(Run(before), op)
      case None => Log(before)
      case Some(p) => Log(before) + [p]
  }

  /** Every plan of the run is carried out within the bound. */
  predicate RunWithinBound(ops: seq<Operation>) {
    forall i | 0 <= i < |ops| ::
      Executed(Run(ops[..i]), ops[i]).Some? ==>
          WithinBound(Run(ops[..i]).balances, Executed(Run(ops[..i]), ops[i]).value)
  }

  lemma PrefixWithinBound(ops: seq<Operation>)
    requires ops != [] && RunWithinBound(ops)
    ensures RunWithinBound(ops[..|ops| - 1])
  {
    var before := ops[..|ops| - 1];
    forall i | 0 <= i < |before| && Executed(Run(before[..i]), before[i]).Some?
      ensures WithinBound(Run(before[..i]).balances, Executed(Run(before[..i]), before[i]).value)
    {
      assert before[..i] == ops[..i];
    }
  }

  predicate Converts(p: Plan) { p.entries != [] && p.entries[0].kind in {Conversion, Trade, Kind.Transfer} }

  function Funded(log: seq<Plan>, currency: string): int {
    if log == [] then 0
    else
      var p := log[|log| - 1];
      Funded(log[..|log| - 1], currency)
        + if p.entries != [] && p.entries[0].kind == Fund && p.credit.account.currency == currency
          then p.credit.amount else 0
  }

  function ConvertedInto(log: seq<Plan>, currency: string): int {
    if log == [] then 0
    else
      var p := log[|log| - 1];
      ConvertedInto(log[..|log| - 1], currency)
        + if Converts(p) && p.credit.account.currency == currency then p.credit.amount else 0
  }

  function ConvertedOutOf(log: seq<Plan>, currency: string): int {
    if log == [] then 0
    else
      var p := log[|log| - 1];
      ConvertedOutOf(log[..|log| - 1], currency)
        + if Converts(p) && p.debit.Some? && p.debit.value.account.currency == currency then p.debit.value.amount else 0
  }

  /** What the executed plans brought into a currency, on balance. */
  function NetInflow(log: seq<Plan>, currency: string): int {
    Funded(log, currency) + ConvertedInto(log, currency) - ConvertedOutOf(log, currency)
  }

  /** What a plan credits less what it debits, in one currency. */
  function Inflow(p: Plan, currency: string): int {
    (if p.credit.account.currency == currency then p.credit.amount else 0)
    - (if p.debit.Some? && p.debit.value.account.currency == currency then p.debit.value.amount else 0)
  }

  lemma PlanInflow(r: Request, env: Environment, log: seq<Plan>, currency: string)
    requires PlanFor(r, env).Ok?
    ensures var p := PlanFor(r, env).value;
            NetInflow(log + [p], currency) == NetInflow(log, currency) + Inflow(p, currency)
  {
    PlanKinds(r, env);
    hide PlanFor;
    assert (log + [PlanFor(r, env).value])[..|log|] == log;
  }

  lemma StepConserves(db: Database, op: Operation, log: seq<Plan>, currency: string)
    requires Executed(db, op).Some? ==> WithinBound(db.balances, Executed(db, op).value)
    ensures var more := if Executed(db, op).Some? then [Executed(db, op).value] else [];
            Total(Step(db, op).balances, currency) - Total(db.balances, currency)
            == NetInflow(log + more, currency) - NetInflow(log, currency)
  {
    StepIsSettleOrNothing(db, op);
    if Executed(db, op).Some? {
      var p := Executed(db, op).value;
      PlanKinds(op.request, op.env);
      PlanInflow(op.request, op.env, log, currency);
      hide Settle, PlanFor, Step, Executed, Held, Into, OutOf, NetInflow;
      SettleIsExact(db, p, Account("", currency));
    } else {
      assert log + [] == log;
      if op.Visit? {
        VisitMovesNothing(db.balances, op.user, Account("", currency));
      }
    }
  }

  /** Money enters by funding and changes currency by converting; transfers between users only
      move it. */
  lemma {:induction false} MoneyIsConserved(ops: seq<Operation>, currency: string)
    requires RunWithinBound(ops)
    ensures Total(Run(ops).balances, currency)
         == Funded(Log(ops), currency) + ConvertedInto(Log(ops), currency) - ConvertedOutOf(Log(ops), currency)
  {
    if ops != [] {
      var before, op := ops[..|ops| - 1], ops[|ops| - 1];
      PrefixWithinBound(ops);
      MoneyIsConserved(before, currency);
      assert ops[..|ops| - 1] == before;
      StepConserves(Run(before), op, Log(before), currency);
      assert Executed(Run(before), op).None? ==> Log(before) + [] == Log(before);
    }
  }

  /** Funding has no debit; a transfer to another user debits and credits alike; the rest convert. */
  lemma PlanKinds(r: Request, env: Environment)
    requires PlanFor(r, env).Ok?
    ensures var p := PlanFor(r, env).value;
            && p.entries != []
            && match p.entries[0].kind
               case Fund => p.debit == None
               case TransferOut => p.debit.Some? && p.debit.value.amount == p.credit.amount
                     && p.debit.value.account.currency == p.credit.account.currency
               case TransferIn => false
               case _ => p.debit.Some?
  {
    hide Fixed4, Fixed8, Credited;
  }
}
