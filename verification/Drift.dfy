/** What lost updates do to the totals: conservation over every schedule of concurrent operations. */
module Drift {
  import opened Common
  import opened Ledger
  import opened Consistency
  import opened Concurrent
  import opened ConcurrentSafety
  import Serial = SerialRuns
  import Money

  /** By how much the row that a process credits has moved, its own debit aside, since it was read. */
  ghost function Moved(db: Database, p: Process): int
    requires p.Running?
  {
    if p.seen.Some? && p.seen.value.row < |db.balances|
    then WithDebit(db.balances, p)[p.seen.value.row].amount - p.seen.value.amount
    else 0
  }

  /** The plan that an action commits, and the movement it writes over in one currency. */
  ghost function Plans(acts: seq<Action>): seq<Plan> {
    if acts == [] then []
    else
      var n := |acts| - 1;
      Plans(acts[..n]) + if Commits(acts, n) then [Committer(acts, n).plan] else []
  }

  ghost function Overwritten(acts: seq<Action>, currency: string): int {
    if acts == [] then 0
    else
      var n := |acts| - 1;
      Overwritten(acts[..n], currency)
        + if Commits(acts, n) && Committer(acts, n).plan.credit.account.currency == currency
          then Moved(Run(acts[..n]).db, Committer(acts, n)) else 0
  }

  /** What the process computes is in the exact range. */
  ghost predicate Exact(p: Process)
    requires p.Running?
  {
    && (p.plan.debit.Some? ==> p.held.amount <= Money.BOUND)
    && (p.seen.Some? ==> p.seen.value.amount + p.plan.credit.amount <= Money.BOUND)
  }

  ghost predicate AllExact(acts: seq<Action>) { forall i: nat | Commits(acts, i) :: Exact(Committer(acts, i)) }

  lemma HeldRow(s: State, pid: nat)
    requires Invariant(s) && At(s, pid, Saved) && s.processes[pid].plan.debit.Some?
    ensures var p, rows := s.processes[pid], s.db.balances;
            && p.held.row < |rows| && rows[p.held.row] == BalanceRow(p.plan.debit.value.account, p.held.amount)
            && p.held.amount >= 0 && p.plan.debit.value.amount >= 0
            && !Money.Less(p.held.amount, p.plan.debit.value.amount)
  {
    hide Apart, BooksKept, Unique, Sane, Screen, PlanFor, Paired, ShowsWrites, OwnDebitSeen, CreditFits, Money.Less,
         NormalizeKey, Find, KeyUsed;
    assert Known(s.db, s.processes[pid]);
    assert HoldsDebit(s.processes[pid]);
  }

  lemma DebitTotal(s: State, pid: nat, currency: string)
    requires Invariant(s) && At(s, pid, Saved) && Exact(s.processes[pid])
    ensures var p := s.processes[pid];
            Serial.Total(WithDebit(s.db.balances, p), currency) == Serial.Total(s.db.balances, currency)
              - if p.plan.debit.Some? && p.plan.debit.value.account.currency == currency
                then p.plan.debit.value.amount else 0
  {
    hide Invariant, Money.Less, Money.Sub, Serial.Total;
    var p, rows := s.processes[pid], s.db.balances;
    if p.plan.debit.Some? {
      HeldRow(s, pid);
      Money.LessExact(p.held.amount, p.plan.debit.value.amount);
      Money.SubExact(p.held.amount, p.plan.debit.value.amount);
      Serial.TotalAfterUpdate(rows, p.held.row, p.held.amount - p.plan.debit.value.amount, currency);
    }
  }

  lemma SeenRow(s: State, pid: nat)
    requires Invariant(s) && At(s, pid, Saved)
    ensures var p, rows := s.processes[pid], WithDebit(s.db.balances, s.processes[pid]);
            && p.plan.credit.amount >= 0
            && match p.credit
               case Insert(amount) => p.seen.None? && amount == p.plan.credit.amount
               case Update(row, amount) =>
                 && row < |rows| && |rows| == |s.db.balances| && rows[row].account == p.plan.credit.account
                 && p.seen.Some? && p.seen.value.row == row && p.seen.value.amount >= 0
                 && amount == Money.Add(p.seen.value.amount, p.plan.credit.amount)
  {
    hide Apart, BooksKept, Unique, Sane, Screen, PlanFor, Paired, ShowsWrites, OwnDebitSeen, Money.Less, Money.Add,
         Money.Sub, NormalizeKey, Find, KeyUsed;
    assert Known(s.db, s.processes[pid]);
    assert s.processes[pid].plan.debit.Some? ==> HoldsDebit(s.processes[pid]);
  }

  lemma CreditTotal(s: State, pid: nat, currency: string)
    requires Invariant(s) && At(s, pid, Saved) && Exact(s.processes[pid])
    ensures var p, rows := s.processes[pid], WithDebit(s.db.balances, s.processes[pid]);
            Serial.Total(WithWrites(s.db.balances, p), currency) == Serial.Total(rows, currency)
              + if p.plan.credit.account.currency == currency then p.plan.credit.amount - Moved(s.db, p) else 0
  {
    hide Invariant, WithDebit, Money.Add, Serial.Total;
    SeenRow(s, pid);
    var p, rows := s.processes[pid], WithDebit(s.db.balances, s.processes[pid]);
    match p.credit
    case Insert(amount) =>
      Serial.TotalAfterAppend(rows, BalanceRow(p.plan.credit.account, amount), currency);
    case Update(row, amount) =>
      Money.AddExact(p.seen.value.amount, p.plan.credit.amount);
      Serial.TotalAfterUpdate(rows, row, amount, currency);
  }

  /** A commit changes a currency's total by what its plan says, less the movement it writes over. */
  lemma CommitTotal(s: State, pid: nat, currency: string)
    requires Invariant(s) && At(s, pid, Saved) && Exact(s.processes[pid])
    ensures var p := s.processes[pid];
            Serial.Total(CommittedDb(s.db, p).balances, currency) == Serial.Total(s.db.balances, currency)
              + Serial.Inflow(p.plan, currency)
              - if p.plan.credit.account.currency == currency then Moved(s.db, p) else 0
  {
    hide Invariant, WithDebit, WithWrites, Moved;
    DebitTotal(s, pid, currency);
    CreditTotal(s, pid, currency);
  }

  lemma OtherTotal(s: State, a: Action, currency: string)
    requires a.Commit? ==> !At(s, a.pid, Saved)
    ensures Serial.Total(Next(s, a).db.balances, currency) == Serial.Total(s.db.balances, currency)
  {
    OnlyCommitsMoveMoney(s, a);
    hide Next;
    if a.OpenDefault? {
      Serial.TotalAfterAppend(s.db.balances, BalanceRow(Account(a.user, "NGN"), 0), currency);
    }
  }

  lemma ExactSoFar(acts: seq<Action>)
    requires acts != [] && AllExact(acts)
    ensures AllExact(acts[..|acts| - 1])
  {
    hide Run;
    var before := acts[..|acts| - 1];
    forall i: nat | Commits(before, i) ensures Exact(Committer(before, i)) {
      assert before[..i] == acts[..i];
      assert Commits(acts, i);
    }
  }

  /** Over every schedule in the exact range a currency's total is the net inflow of the committed
      plans, less all movement that credits wrote over: it is conserved exactly if that adds up to
      nothing. */
  lemma {:induction false} MoneyUpToOverwrites(acts: seq<Action>, currency: string)
    requires SaneSchedule(acts) && AllExact(acts)
    ensures Serial.Total(Run(acts).db.balances, currency)
         == Serial.NetInflow(Plans(acts), currency) - Overwritten(acts, currency)
  {
    if acts != [] {
      var n := |acts| - 1;
      var s := Run(acts[..n]);
      PrefixIsSane(acts, n);
      ExactSoFar(acts);
      MoneyUpToOverwrites(acts[..n], currency);
      RunStep(acts, n);
      assert acts[..n + 1] == acts;
      if Commits(acts, n) {
        CommitTotal(s, acts[n].pid, currency);
        CommittedRequest(s, acts[n].pid);
        Serial.PlanInflow(s.processes[acts[n].pid].request, s.processes[acts[n].pid].env, Plans(acts[..n]), currency);
        hide Invariant, Run, CommittedDb, Serial.NetInflow, Serial.Inflow, Moved, PlanFor;
        assert Next(s, acts[n]).db == CommittedDb(s.db, s.processes[acts[n].pid]);
      } else {
        hide Invariant, Run, Next, Serial.NetInflow, Moved;
        OtherTotal(s, acts[n], currency);
        assert Plans(acts) == Plans(acts[..n]);
      }
    }
  }

  lemma CommittedRequest(s: State, pid: nat)
    requires Invariant(s) && At(s, pid, Saved)
    ensures PlanFor(s.processes[pid].request, s.processes[pid].env) == Ok(s.processes[pid].plan)
  {
    assert Known(s.db, s.processes[pid]);
  }
}
