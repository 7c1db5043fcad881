/** The answer to every request, read off the request, its environment and the tables before it. */
module Outcomes {
  import opened Common
  import opened Text
  import opened Ledger
  import opened Consistency
  import opened SerialRuns
  import opened Money

  predicate Listed(c: string) { c == "NGN" || c == "USD" || c == "EUR" || c == "GBP" }

  /** A recorded answer of this user under the key of the request. */
  predicate Answered(db: Database, r: Request) { r.Key().Some? && (r.user, r.Key().value) in db.idempotency }

  predicate ToAnother(r: Request) { r.TransferRequest? && r.toUser.Some? && r.toUser.value != "" }

  /** The pair a request exchanges, if it is not funding or a transfer to another user. */
  function Pair(r: Request): Option<(string, string)> {
    match r
    case FundRequest(_, _, _, _) => None
    case ConvertRequest(_, source, target, _, _) => Some((source, target))
    case TradeRequest(_, source, target, _, _) => Some((source, target))
    case TransferRequest(_, _, source, toCurrency, _, _) =>
      if ToAnother(r) then None else Some((source, if toCurrency.Some? then toCurrency.value else source))
  }

  // ---------- refusals, in the order of the checks ----------

  predicate WithoutNaira(r: Request) { r.TradeRequest? && r.source != "NGN" && r.target != "NGN" }

  predicate Same(r: Request) { Pair(r).Some? && Pair(r).value.0 == Pair(r).value.1 }

  predicate Unlisted(r: Request) {
    match r
    case FundRequest(_, currency, _, _) => !Listed(currency)
    case _ => if ToAnother(r) then !Listed(r.source) else !Listed(Pair(r).value.0) || !Listed(Pair(r).value.1)
  }

  /** A trade compares its pair before it looks at the list; the others look first. */
  predicate SaysSame(r: Request) { Same(r) && !WithoutNaira(r) && (!r.TradeRequest? ==> !Unlisted(r)) }

  predicate SaysUnlisted(r: Request) { Unlisted(r) && !WithoutNaira(r) && (r.TradeRequest? ==> !Same(r)) }

  /** Another user's id, or the caller's in another letter case, is found without regard to case. */
  predicate Unknown(r: Request, env: Environment) {
    ToAnother(r) && forall u | u in env.users :: !SpelledAlike(r.toUser.value, u)
  }

  predicate SpelledAlike(a: string, b: string) {
    |a| == |b| && forall i | 0 <= i < |a| :: b[i] == Lowered(a[i])
  }

  lemma CanonIsSpelledAlike(a: string, b: string)
    ensures Canon(a) == b <==> SpelledAlike(a, b)
  {
    LowerCaseAt(a);
  }

  lemma UnknownIsNotFound(r: Request, env: Environment)
    ensures Unknown(r, env) <==> ToAnother(r) && Canon(r.toUser.value) !in env.users
  {
    hide LowerCase, SpelledAlike;
    if ToAnother(r) {
      forall u | u in env.users ensures Canon(r.toUser.value) == u <==> SpelledAlike(r.toUser.value, u) {
        CanonIsSpelledAlike(r.toUser.value, u);
      }
    }
  }

  /** A transfer looks for a recorded answer before any check; the others check the currencies first. */
  predicate ReplayComesFirst(r: Request, db: Database) {
    Answered(db, r) && (r.TransferRequest? || !(Unlisted(r) || Same(r) || WithoutNaira(r)))
  }

  /** The checks on the request and its environment. */
  ghost predicate ChecksSay(db: Database, r: Request, env: Environment, answer: Result<Response, Error>) {
    var late := !ReplayComesFirst(r, db);
    && (answer == Err(TradeWithoutNaira) <==> WithoutNaira(r))
    && (answer == Err(UnsupportedCurrency) <==> late && SaysUnlisted(r))
    && (answer == Err(SameCurrency) <==> late && SaysSame(r))
    && (answer == Err(RecipientNotFound) <==> late && !Unlisted(r) && Unknown(r, env))
    && (answer == Err(TransferToSelf) <==>
          late && !Unlisted(r) && ToAnother(r) && !Unknown(r, env) && r.toUser.value == r.user)
    && (answer == Err(RateUnavailable) <==>
          late && Pair(r).Some? && !Unlisted(r) && !Same(r) && !WithoutNaira(r) && env.rate.None?)
  }

  predicate ChecksPass(r: Request, env: Environment) {
    && !WithoutNaira(r) && !Unlisted(r) && !Same(r) && !Unknown(r, env)
    && !(ToAnother(r) && r.toUser.value == r.user) && (Pair(r).Some? ==> env.rate.Some?)
  }

  /** Of every check: when it answers, for every request on any tables. */
  lemma ChecksAnswerExactly(db: Database, r: Request, env: Environment)
    ensures ChecksSay(db, r, env, Exec(db, r, env).1)
    ensures Screen(r).None? && PlanFor(r, env).Ok? <==> ChecksPass(r, env)
    ensures ReplayComesFirst(r, db) ==> Exec(db, r, env) == (db, Ok(db.idempotency[(r.user, r.Key().value)]))
  {
    hide Fixed4, Fixed8, Credited, NormalizeKey, Canon, Unknown, Find, Less, Sub, Credit, KeyUsed, BalancesOf, Remember;
    UnknownIsNotFound(r, env);
  }

  /** The payer has no row or holds too little. */
  ghost predicate Short(db: Database, r: Request) {
    Payer(r).Some? && (Find(db.balances, Payer(r).value).None? || Held(db.balances, Payer(r).value) < Fixed4(r.amount))
  }

  /** Another user has used the key. */
  ghost predicate Foreign(db: Database, r: Request) {
    r.Key().Some? && exists i :: 0 <= i < |db.entries| && db.entries[i].key == r.Key() && db.entries[i].user != r.user
  }

  /** A request that no recorded answer precedes succeeds exactly if its checks pass, its payer can
      pay and its key is free; and then alone does it change the tables. */
  lemma SucceedsExactly(db: Database, r: Request, env: Environment)
    requires Consistent(db) && Sane(r, env) && !Answered(db, r)
    requires Payer(r).Some? ==> Fixed4(r.amount) <= 2 * BOUND || Held(db.balances, Payer(r).value) <= 2 * BOUND
    ensures var answer := Exec(db, r, env).1;
            && (answer.Ok? <==> ChecksPass(r, env) && !Short(db, r) && !Foreign(db, r))
            && (answer == Err(InsufficientBalance) <==> ChecksPass(r, env) && Short(db, r))
            && (answer == Err(DuplicateKey) <==> ChecksPass(r, env) && !Short(db, r) && Foreign(db, r))
            && (answer.Ok? <==> Executed(db, Perform(r, env)).Some?)
            && (answer.Err? ==> Exec(db, r, env).0 == db)
  {
    ChecksAnswerExactly(db, r, env);
    hide ChecksPass, Screen, PlanFor, ChecksSay, Payer, Fixed4, Held, Sane, Consistent, NormalizeKey, Settle;
    if Screen(r).None? && PlanFor(r, env).Ok? {
      RefusedExactly(db, r, env);
    } else {
      NotCheckedNotSettled(db, r, env);
    }
  }

  lemma NotCheckedNotSettled(db: Database, r: Request, env: Environment)
    requires !(Screen(r).None? && PlanFor(r, env).Ok?) && !Answered(db, r)
    ensures Exec(db, r, env).1.Err? && Exec(db, r, env).0 == db && Executed(db, Perform(r, env)).None?
    ensures Exec(db, r, env).1 != Err(InsufficientBalance) && Exec(db, r, env).1 != Err(DuplicateKey)
  {
    hide Fixed4, Fixed8, Credited, NormalizeKey, Canon, Settle;
  }

  // ---------- what success leaves behind ----------

  /** The ledger rows of a request. */
  predicate Records(r: Request, env: Environment, rows: seq<Entry>) {
    && |rows| == (if ToAnother(r) then 2 else 1)
    && rows[0].id == env.id && rows[0].user == r.user && rows[0].key == r.Key() && rows[0].amount == Fixed4(r.amount)
    && (r.FundRequest? ==> rows[0].kind == Fund && rows[0].currency == Some(r.currency))
    && (Pair(r).Some? ==>
          && rows[0].source == Some(Pair(r).value.0) && rows[0].target == Some(Pair(r).value.1)
          && env.rate.Some? && rows[0].rate == Some(Fixed8(env.rate.value))
          && rows[0].kind == if r.ConvertRequest? then Conversion else if r.TradeRequest? then Trade else Kind.Transfer)
    && (ToAnother(r) ==>
          && rows[0].kind == TransferOut && rows[0].currency == Some(r.source)
          && rows[1].kind == TransferIn && rows[1].currency == Some(r.source) && rows[1].amount == Fixed4(r.amount)
          && rows[1].id == env.secondId && SpelledAlike(r.toUser.value, rows[1].user) && rows[1].key.None?)
  }

  /** The response shows exactly the user's rows in the tables. */
  ghost predicate ShowsTables(response: Response, rows: seq<BalanceRow>, user: string) {
    forall c ::
      && (c in response.balances <==> Find(rows, Account(user, c)).Some?)
      && (c in response.balances ==> response.balances[c] == rows[Find(rows, Account(user, c)).value].amount)
  }

  /** An executed request answers with the tables it leaves and the id of its row, and has appended
      its rows to the ledger; under a key or without one. */
  lemma ExecutedAnswers(db: Database, r: Request, env: Environment)
    requires Consistent(db) && Sane(r, env) && Executed(db, Perform(r, env)).Some?
    ensures var (after, answer) := Exec(db, r, env);
            && answer.Ok? && answer.value.transactionId == env.id && (answer.value.delivery <==> !r.FundRequest?)
            && ShowsTables(answer.value, after.balances, r.user)
            && db.entries <= after.entries && Records(r, env, after.entries[|db.entries|..])
  {
    hide Settle, PlanFor, Screen, Lookup, Sane, Records, Consistent, Find, BalancesOf;
    var p := Executed(db, Perform(r, env)).value;
    ExecutedSettles(db, r, env);
    PlannedRows(r, env);
    SettledAnswer(db, p);
    StepKeepsConsistent(db, Perform(r, env));
    hide Exec, Executed;
    var (after, answer) := Exec(db, r, env);
    assert after.entries[|db.entries|..] == p.entries;
    TablesAreShown(after, answer.value, r.user);
  }

  lemma ExecutedSettles(db: Database, r: Request, env: Environment)
    requires Executed(db, Perform(r, env)).Some?
    ensures var p := Executed(db, Perform(r, env)).value;
            && PlanFor(r, env) == Ok(p) && p.entries != [] && Settle(db, p).Ok?
            && Exec(db, r, env) == (Settle(db, p).value.0, Ok(Settle(db, p).value.1))
            && Step(db, Perform(r, env)) == Settle(db, p).value.0
  {
    hide Fixed4, Fixed8, Credited, NormalizeKey, Canon, Debit, Credit, KeyUsed, BalancesOf, Remember;
  }

  lemma TablesAreShown(db: Database, response: Response, user: string)
    requires Consistent(db) && response.balances == BalancesOf(db.balances, user)
    ensures ShowsTables(response, db.balances, user)
  {
    hide BalancesOf, Find, BooksKept, NonNegative;
    forall c ensures c in response.balances <==> Find(db.balances, Account(user, c)).Some?
      ensures c in response.balances ==>
                response.balances[c] == db.balances[Find(db.balances, Account(user, c)).value].amount
    {
      ShownExactly(db.balances, user, c);
    }
  }

  lemma PlannedRows(r: Request, env: Environment)
    requires PlanFor(r, env).Ok?
    ensures var p := PlanFor(r, env).value;
            && Records(r, env, p.entries) && p.user == r.user && (p.delivery <==> !r.FundRequest?)
            && p.entries != [] && p.entries[0].id == env.id
  {
    hide Fixed4, Fixed8, Credited, NormalizeKey, Canon, SpelledAlike;
    if ToAnother(r) {
      CanonIsSpelledAlike(r.toUser.value, Canon(r.toUser.value));
    }
  }

  lemma SettledAnswer(db: Database, p: Plan)
    requires p.entries != [] && Settle(db, p).Ok?
    ensures var (after, response) := Settle(db, p).value;
            && response == Response(BalancesOf(after.balances, p.user), p.entries[0].id, p.delivery)
            && after.entries == db.entries + p.entries
  {
  }
}
