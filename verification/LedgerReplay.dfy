/** Adding up the ledger rows gives back the balances. */
module LedgerReplay {
  import opened Common
  import opened Ledger
  import opened Consistency
  import opened SerialRuns
  import opened Money
  import opened Conversion

  /** A row of a conversion that credited this account. */
  predicate ConvertsInto(e: Entry, a: Account) {
    && e.kind in {Kind.Conversion, Trade, Kind.Transfer} && e.user == a.user && e.target == Some(a.currency)
    && e.rate.Some?
  }

  /** What a ledger row says about one account, in currency units. */
  function Effect(e: Entry, a: Account): real {
    if e.user != a.user then 0.0
    else match e.kind
      case Fund => if e.currency == Some(a.currency) then Value(e.amount) else 0.0
      case TransferIn => if e.currency == Some(a.currency) then Value(e.amount) else 0.0
      case TransferOut => if e.currency == Some(a.currency) then -Value(e.amount) else 0.0
      case _ =>
        (if ConvertsInto(e, a) then Suggested(e.amount, e.rate.value) else 0.0)
        - (if e.source == Some(a.currency) then Value(e.amount) else 0.0)
  }

  /** How far that may be off: rows do not store the amount a conversion credited. */
  function EffectSlack(e: Entry, a: Account): real {
    if ConvertsInto(e, a) then Slack(e.amount, e.rate.value) else 0.0
  }

  function Replay(entries: seq<Entry>, a: Account): real {
    if entries == [] then 0.0 else Replay(entries[..|entries| - 1], a) + Effect(entries[|entries| - 1], a)
  }

  function ReplaySlack(entries: seq<Entry>, a: Account): real {
    if entries == [] then 0.0 else ReplaySlack(entries[..|entries| - 1], a) + EffectSlack(entries[|entries| - 1], a)
  }

  lemma {:induction false} ReplayConcat(xs: seq<Entry>, ys: seq<Entry>, a: Account)
    ensures Replay(xs + ys, a) == Replay(xs, a) + Replay(ys, a)
    ensures ReplaySlack(xs + ys, a) == ReplaySlack(xs, a) + ReplaySlack(ys, a)
    decreases |ys|
  {
    hide Effect, EffectSlack;
    if ys == [] {
      assert xs + ys == xs;
    } else {
      var n := |ys| - 1;
      assert (xs + ys)[..|xs + ys| - 1] == xs + ys[..n];
      ReplayConcat(xs, ys[..n], a);
    }
  }

  /** `Value` of what a plan moves is what its rows say, up to their slack. */
  predicate Tells(p: Plan, a: Account) {
    -ReplaySlack(p.entries, a)
      <= Value(Into(p, a)) - Value(OutOf(p, a)) - Replay(p.entries, a)
      <= ReplaySlack(p.entries, a)
  }

  lemma ReplayOne(e: Entry, a: Account)
    ensures Replay([e], a) == Effect(e, a) && ReplaySlack([e], a) == EffectSlack(e, a)
  {
    hide Effect, EffectSlack;
    assert [e][..0] == [];
  }

  lemma ConversionTells(r: Request, kind: Kind, source: string, target: string, rate: real, id: string, a: Account)
    requires r.amount >= 0.0 && rate >= 0.0 && source != target
    requires kind in {Kind.Conversion, Trade, Kind.Transfer}
    ensures Tells(ConversionPlan(r, kind, source, target, rate, id), a)
  {
    var p := ConversionPlan(r, kind, source, target, rate, id);
    RowDeterminesCredit(r.amount, rate);
    hide Fixed4, Fixed8, Credited, Suggested, Slack, NormalizeKey;
    ReplayOne(p.entries[0], a);
  }

  lemma FundingTells(p: Plan, amount: int, a: Account)
    requires |p.entries| == 1 && p.entries[0].kind == Fund && p.entries[0].amount == amount && p.debit.None?
    requires p.entries[0].currency == Some(p.credit.account.currency) && p.entries[0].user == p.credit.account.user
    requires p.credit.amount == amount
    ensures Tells(p, a)
  {
    assert p.entries == [p.entries[0]];
    ReplayOne(p.entries[0], a);
  }

  lemma TransferTells(p: Plan, a: Account)
    requires |p.entries| == 2 && p.entries[0].kind == TransferOut && p.entries[1].kind == TransferIn && p.debit.Some?
    requires p.entries[0].currency == Some(p.debit.value.account.currency)
        && p.entries[0].user == p.debit.value.account.user
    requires p.entries[1].currency == Some(p.credit.account.currency) && p.entries[1].user == p.credit.account.user
    requires p.entries[0].amount == p.debit.value.amount && p.entries[1].amount == p.credit.amount
    ensures Tells(p, a)
  {
    assert p.entries == [p.entries[0]] + [p.entries[1]];
    ReplayOne(p.entries[0], a);
    ReplayOne(p.entries[1], a);
    ReplayConcat([p.entries[0]], [p.entries[1]], a);
  }

  /** Every plan is described by the rows it appends. */
  lemma PlansTell(r: Request, env: Environment, a: Account)
    requires Sane(r, env) && Screen(r).None? && PlanFor(r, env).Ok?
    ensures Tells(PlanFor(r, env).value, a)
  {
    hide Fixed4, NormalizeKey, ConversionPlan, Tells;
    match r
    case FundRequest(_, _, _, _) =>
      FundingTells(PlanFor(r, env).value, Fixed4(r.amount), a);
    case ConvertRequest(_, source, target, _, _) =>
      ConversionTells(r, Kind.Conversion, source, target, env.rate.value, env.id, a);
    case TradeRequest(_, source, target, _, _) =>
      ConversionTells(r, Trade, source, target, env.rate.value, env.id, a);
    case TransferRequest(user, toUser, source, toCurrency, _, _) =>
      if toUser.Some? && toUser.value != "" {
        TransferTells(PlanFor(r, env).value, a);
      } else {
        ConversionTells(r, Kind.Transfer, source, if toCurrency.Some? then toCurrency.value else source,
                        env.rate.value, env.id, a);
      }
  }

  /** The balance of an account is the replay of the ledger, up to the slack of its rows. */
  predicate Reconstructs(db: Database, a: Account) {
    -ReplaySlack(db.entries, a) <= Value(Held(db.balances, a)) - Replay(db.entries, a) <= ReplaySlack(db.entries, a)
  }

  lemma SettledReconstructs(db: Database, p: Plan, a: Account)
    requires p.entries != [] && Settle(db, p).Ok? && WithinBound(db.balances, p)
    requires Reconstructs(db, a) && Tells(p, a)
    ensures Reconstructs(Settle(db, p).value.0, a)
  {
    SettleIsExact(db, p, a);
    assert Settle(db, p).value.0.entries == db.entries + p.entries;
    hide Settle, Replay, ReplaySlack, Held, Into, OutOf, WithinBound;
    ReplayConcat(db.entries, p.entries, a);
  }

  lemma StepReconstructs(db: Database, op: Operation, a: Account)
    requires SaneOperation(op) && Reconstructs(db, a)
    requires Executed(db, op).Some? ==> WithinBound(db.balances, Executed(db, op).value)
    ensures Reconstructs(Step(db, op), a)
  {
    hide Settle, PlanFor, Replay, ReplaySlack, Screen, Lookup;
    StepIsSettleOrNothing(db, op);
    if Executed(db, op).Some? {
      PlansAreWellFormed(op.request, op.env);
      PlansTell(op.request, op.env, a);
      SettledReconstructs(db, Executed(db, op).value, a);
    } else if op.Visit? {
      VisitMovesNothing(db.balances, op.user, a);
    }
  }

  /** After every run the ledger reconstructs every balance. */
  lemma {:induction false} LedgerReconstructsBalances(ops: seq<Operation>, a: Account)
    requires AllSane(ops) && RunWithinBound(ops)
    ensures Reconstructs(Run(ops), a)
  {
    if ops != [] {
      var before := ops[..|ops| - 1];
      PrefixWithinBound(ops);
      LedgerReconstructsBalances(before, a);
      assert ops[..|ops| - 1] == before;
      StepReconstructs(Run(before), ops[|ops| - 1], a);
    }
  }

  /** And exactly so for an account that no conversion has credited. */
  lemma LedgerIsExactWithoutConversions(ops: seq<Operation>, a: Account)
    requires AllSane(ops) && RunWithinBound(ops)
    requires forall i | 0 <= i < |Run(ops).entries| :: !ConvertsInto(Run(ops).entries[i], a)
    ensures Value(Held(Run(ops).balances, a)) == Replay(Run(ops).entries, a)
  {
    LedgerReconstructsBalances(ops, a);
    NoSlack(Run(ops).entries, a);
  }

  lemma {:induction false} NoSlack(entries: seq<Entry>, a: Account)
    requires forall i | 0 <= i < |entries| :: !ConvertsInto(entries[i], a)
    ensures ReplaySlack(entries, a) == 0.0
  {
    if entries != [] {
      NoSlack(entries[..|entries| - 1], a);
    }
  }
}
