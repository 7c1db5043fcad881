/** When concurrent operations amount to running the committed ones one at a time.

    The credit of an operation reads its row without a lock and writes it later. If no commit
    touches a row between such a read and the write, every schedule ends like the serial run of
    its committed operations in commit order. Without that hypothesis an update can be lost. */
module Refinement {
  import opened Common
  import opened Ledger
  import opened Consistency
  import opened Concurrent
  import opened ConcurrentSafety
  import Serial = SerialRuns
  import Money

  /** Equal balances, ledger and records, up to the balance snapshot inside stored responses. */
  ghost predicate SameBooks(d: Database, e: Database) {
    && d.balances == e.balances && d.entries == e.entries && d.idempotency.Keys == e.idempotency.Keys
    && forall r | r in d.idempotency :: d.idempotency[r].transactionId == e.idempotency[r].transactionId
  }

  /** The operations that took effect in a schedule, in the order in which they did. */
  ghost function History(acts: seq<Action>): seq<Serial.Operation> {
    if acts == [] then []
    else
      var before, a := acts[..|acts| - 1], acts[|acts| - 1];
      History(before) + Took(Run(before), a)
  }

  ghost function Took(s: State, a: Action): seq<Serial.Operation> {
    match a
    case Commit(pid) =>
      if At(s, pid, Saved) then [Serial.Perform(s.processes[pid].request, s.processes[pid].env)] else []
    case OpenDefault(user) => if InsertFree(s, Account(user, "NGN")) then [Serial.Visit(user)] else []
    case _ => []
  }

  /** The row that the process credits, its own debit included, still has the amount the process read. */
  ghost predicate CreditFresh(db: Database, p: Process)
    requires p.Running?
  {
    p.seen.Some? ==>
      p.seen.value.row < |db.balances| && WithDebit(db.balances, p)[p.seen.value.row].amount == p.seen.value.amount
  }

  ghost predicate AllFresh(acts: seq<Action>) {
    forall i: nat | Commits(acts, i) :: CreditFresh(Run(acts[..i]).db, Committer(acts, i))
  }

  // ---------- one commit ----------

  /** At its commit a process can be settled alone; only the amount its credit starts from may differ. */
  lemma SettledAtCommit(s: State, pid: nat)
    requires Invariant(s) && At(s, pid, Saved)
    ensures var p := s.processes[pid];
            && Settle(s.db, p.plan).Ok?
            && Settle(s.db, p.plan).value.0.balances ==
               (match p.credit
                case Insert(amount) => WithDebit(s.db.balances, p) + [BalanceRow(p.plan.credit.account, amount)]
                case Update(row, _) =>
                  var rows := WithDebit(s.db.balances, p);
                  rows[row := BalanceRow(p.plan.credit.account, Money.Add(rows[row].amount, p.plan.credit.amount))])
  {
    var p, rows := s.processes[pid], s.db.balances;
    assert Known(s.db, p);
    hide Sane, Screen, PlanFor, Paired, Money.Less, Money.Add, Money.Sub, NormalizeKey, BooksKept, Find, BalancesOf;
    if p.plan.debit.Some? {
      assert HoldsDebit(p);
      FindIs(rows, p.held.row);
      FindAfterUpdate(rows, p.held.row, Money.Sub(p.held.amount, p.plan.debit.value.amount), p.plan.credit.account);
    }
    if p.credit.Update? {
      FindIs(rows, p.credit.row);
    }
  }

  /** A process that credits the row it debits holds its lock and is always fresh. */
  lemma ToItselfIsFresh(s: State, pid: nat)
    requires Invariant(s) && pid in s.processes && HasSeen(s.processes[pid]) && ToItself(s.processes[pid].plan)
    ensures CreditFresh(s.db, s.processes[pid])
  {
    assert Known(s.db, s.processes[pid]);
    hide Sane, Screen, PlanFor, WellFormed, Money.Less, Money.Add, Money.Sub, NormalizeKey, Consistent, Find, Apart;
  }

  lemma FreshCreditWrites(s: State, pid: nat)
    requires Invariant(s) && At(s, pid, Saved) && CreditFresh(s.db, s.processes[pid])
    ensures var p, rows := s.processes[pid], WithDebit(s.db.balances, s.processes[pid]);
            p.credit.Update? ==>
              p.credit.row < |rows| && p.credit.amount == Money.Add(rows[p.credit.row].amount, p.plan.credit.amount)
    ensures s.processes[pid].plan.entries != []
    ensures s.processes[pid].response.transactionId == s.processes[pid].plan.entries[0].id
  {
    hide Consistent, Apart, Sane, Screen, PlanFor, Paired, ShowsWrites, OwnDebitSeen, DebitFits,
         Money.Less, Money.Add, Money.Sub, NormalizeKey, Find, KeyUsed;
    assert Known(s.db, s.processes[pid]);
  }

  /** A commit is the serial execution of its request, if its credit is fresh. */
  lemma FreshCommitIsSerial(s: State, pid: nat)
    requires Invariant(s) && At(s, pid, Saved) && CreditFresh(s.db, s.processes[pid])
    ensures SameBooks(CommittedDb(s.db, s.processes[pid]),
                      Serial.Step(s.db, Serial.Perform(s.processes[pid].request, s.processes[pid].env)))
  {
    hide Invariant, CreditFresh, WithDebit, Screen, PlanFor, Money.Add, NormalizeKey, Find, BalancesOf, Debit, Credit,
         KeyUsed, Serial.Executed, Serial.Step;
    CommitIsExecuted(s, pid);
    SettledAtCommit(s, pid);
    FreshCreditWrites(s, pid);
  }

  lemma CommitIsExecuted(s: State, pid: nat)
    requires Invariant(s) && At(s, pid, Saved)
    ensures var op := Serial.Perform(s.processes[pid].request, s.processes[pid].env);
            && Serial.Executed(s.db, op) == Some(s.processes[pid].plan)
            && Settle(s.db, s.processes[pid].plan).Ok?
            && Serial.Step(s.db, op) == Settle(s.db, s.processes[pid].plan).value.0
  {
    var p := s.processes[pid];
    SettledAtCommit(s, pid);
    if p.plan.key.Some? {
      CommitSparesRecords(s, pid);
    }
    assert Known(s.db, p);
    hide Invariant, Settle, WellFormed, Sane, Screen, PlanFor, NormalizeKey, CreditFits, DebitFits;
  }

  /** Within the exact range only then. */
  lemma StaleCommitIsNotSerial(s: State, pid: nat)
    requires Invariant(s) && At(s, pid, Saved) && !CreditFresh(s.db, s.processes[pid])
    requires var p := s.processes[pid];
             && p.seen.value.row < |s.db.balances|
             && p.seen.value.amount + p.plan.credit.amount <= Money.BOUND
             && s.db.balances[p.seen.value.row].amount + p.plan.credit.amount <= Money.BOUND
    ensures CommittedDb(s.db, s.processes[pid]).balances
         != Serial.Step(s.db, Serial.Perform(s.processes[pid].request, s.processes[pid].env)).balances
  {
    var p, rows := s.processes[pid], s.db.balances;
    CommitIsExecuted(s, pid);
    SettledAtCommit(s, pid);
    assert Known(s.db, p);
    assert CreditFits(s.db, p) && p.credit.Update?;
    var row := p.credit.row;
    assert rows[row].amount >= 0;
    Money.AddExact(rows[row].amount, p.plan.credit.amount);
    Money.AddExact(p.seen.value.amount, p.plan.credit.amount);
    hide Sane, Screen, PlanFor, Paired, Money.Less, Money.Add, Money.Sub, NormalizeKey, BooksKept, Find, BalancesOf,
        Settle, Serial.Executed, Serial.Step, KeyUsed;
    var serial, concurrent := Settle(s.db, p.plan).value.0.balances, CommittedDb(s.db, p).balances;
    assert serial[row].amount != concurrent[row].amount;
  }

  // ---------- whole schedules ----------

  lemma StepRespectsSameBooks(d: Database, e: Database, op: Serial.Operation)
    requires SameBooks(d, e)
    ensures SameBooks(Serial.Step(d, op), Serial.Step(e, op))
  {
    hide Debit, Credit, BalancesOf, Screen, PlanFor, NormalizeKey, KeyUsed, Find;
  }

  lemma SameBooksTransitive(d: Database, e: Database, f: Database)
    requires SameBooks(d, e) && SameBooks(e, f)
    ensures SameBooks(d, f)
  {
  }

  /** One action of a schedule is at most one serial operation. */
  lemma ActionIsSerial(s: State, a: Action, before: seq<Serial.Operation>)
    requires Invariant(s) && SameBooks(s.db, Serial.Run(before))
    requires a.Commit? && At(s, a.pid, Saved) ==> CreditFresh(s.db, s.processes[a.pid])
    ensures SameBooks(Next(s, a).db, Serial.Run(before + Took(s, a)))
  {
    hide Invariant, CreditFresh, SameBooks, LockStep, InsertStep, WriteCreditStep, ReadStep, Arrival, CommittedDb, Find;
    if Took(s, a) == [] {
      assert before + [] == before;
    } else {
      var op := Took(s, a)[0];
      assert (before + [op])[..|before|] == before;
      if a.Commit? {
        FreshCommitIsSerial(s, a.pid);
      } else {
        SameBooksReflexive(Serial.Step(s.db, op));
      }
      StepRespectsSameBooks(s.db, Serial.Run(before), op);
      SameBooksTransitive(Next(s, a).db, Serial.Step(s.db, op), Serial.Step(Serial.Run(before), op));
    }
  }

  lemma SameBooksReflexive(d: Database)
    ensures SameBooks(d, d)
  {
  }

  lemma FreshPrefix(acts: seq<Action>)
    requires acts != [] && AllFresh(acts)
    ensures AllFresh(acts[..|acts| - 1])
  {
    var before := acts[..|acts| - 1];
    forall i: nat | Commits(before, i) ensures CreditFresh(Run(before[..i]).db, Committer(before, i)) {
      assert before[..i] == acts[..i];
      assert Commits(acts, i);
    }
  }

  /** With fresh credits, concurrent execution is serial execution in commit order. */
  lemma {:induction false} FreshSchedulesAreSerial(acts: seq<Action>)
    requires SaneSchedule(acts) && AllFresh(acts)
    ensures SameBooks(Run(acts).db, Serial.Run(History(acts)))
  {
    if acts == [] {
      SameBooksReflexive(EMPTY);
    } else {
      var before, n := acts[..|acts| - 1], |acts| - 1;
      FreshPrefix(acts);
      FreshSchedulesAreSerial(before);
      PrefixIsSane(acts, n);
      assert acts[n].Commit? && At(Run(before), acts[n].pid, Saved) ==> Commits(acts, n);
      hide Invariant, SameBooks, Next, Took, At;
      ActionIsSerial(Run(before), acts[n], History(before));
    }
  }

  // ---------- the hypothesis, in terms of writes ----------

  /** No commit writes a row that another process has read for its credit and not yet written. */
  ghost predicate QuietStep(s: State, a: Action) {
    a.Commit? && At(s, a.pid, Saved) ==>
      forall q | q in s.processes && q != a.pid && At(s, q, CreditRead) && s.processes[q].seen.Some? ::
        !HoldsRow(s.processes[a.pid], s.processes[q].seen.value.row)
  }

  ghost predicate Quiet(acts: seq<Action>) {
    forall i | 0 <= i < |acts| :: QuietStep(Run(acts[..i]), acts[i])
  }

  ghost predicate ReadsFresh(s: State) {
    forall pid | pid in s.processes && HasSeen(s.processes[pid]) :: CreditFresh(s.db, s.processes[pid])
  }

  /** What another process reads for its credit is not written by a quiet commit. */
  lemma QuietCommitWritesElsewhere(s: State, pid: nat, q: nat)
    requires Invariant(s) && QuietStep(s, Commit(pid)) && At(s, pid, Saved)
    requires q in s.processes && q != pid && HasSeen(s.processes[q]) && s.processes[q].seen.Some?
    ensures var p, other, n := s.processes[pid], s.processes[q], |s.db.balances|;
            && other.seen.value.row < n && !HoldsRow(p, other.seen.value.row)
            && (other.plan.debit.Some? ==> other.held.row < n && !HoldsRow(p, other.held.row))
  {
    hide Consistent, HoldsInsert, HoldsKey, ShowsWrites, WellFormed, Sane, Screen, PlanFor, Money.Less, Money.Add,
         Money.Sub, NormalizeKey, Find, KeyUsed;
    var p, other := s.processes[pid], s.processes[q];
    assert Apart(p, other) && Known(s.db, other);
    assert !other.phase.CreditRead? ==> HoldsRow(other, other.seen.value.row);
    assert other.plan.debit.Some? ==> HoldsRow(other, other.held.row);
  }

  lemma CommitKeepsReadsFresh(s: State, pid: nat, q: nat)
    requires Invariant(s) && ReadsFresh(s) && QuietStep(s, Commit(pid)) && At(s, pid, Saved)
    requires q in s.processes && q != pid && HasSeen(s.processes[q])
    ensures CreditFresh(CommittedDb(s.db, s.processes[pid]), s.processes[q])
  {
    hide Invariant, QuietStep, HoldsRow, HoldsInsert, Unique, NonNegative, Find, CommittedDb, Money.Sub;
    CommittedRows(s, pid);
    if s.processes[q].seen.Some? {
      QuietCommitWritesElsewhere(s, pid, q);
    }
  }

  ghost predicate SameReads(p: Process, p': Process)
    requires p.Running? && p'.Running?
  {
    p'.plan == p.plan && p'.held == p.held && p'.seen == p.seen
  }

  /** Outside a commit rows keep their amounts, and what a process has seen is old or read just now. */
  lemma SeenOutsideCommits(s: State, a: Action)
    requires a.Commit? ==> !At(s, a.pid, Saved)
    ensures s.db.balances <= Next(s, a).db.balances
    ensures forall q | q in Next(s, a).processes && HasSeen(Next(s, a).processes[q]) ::
              || (q in s.processes && HasSeen(s.processes[q]) && SameReads(s.processes[q], Next(s, a).processes[q]))
              || (var p := Next(s, a).processes[q]; p.seen == RowAt(WithDebit(s.db.balances, p), p.plan.credit.account))
  {
    hide Money.Sub, PlanFor, Screen, Lookup, CommittedDb, RowFree, KeyFree, InsertFree, RecordFree, BalancesOf,
        WithWrites, RowAt, Find, KeyUsed;
  }

  lemma NextKeepsReadsFresh(s: State, a: Action)
    requires Invariant(s) && ReadsFresh(s) && QuietStep(s, a)
    ensures ReadsFresh(Next(s, a))
  {
    hide Invariant, QuietStep, CommittedDb;
    if a.Commit? && At(s, a.pid, Saved) {
      forall q | q in s.processes && q != a.pid && HasSeen(s.processes[q])
        ensures CreditFresh(CommittedDb(s.db, s.processes[a.pid]), s.processes[q])
      {
        CommitKeepsReadsFresh(s, a.pid, q);
      }
    } else {
      SeenOutsideCommits(s, a);
      hide Next;
    }
  }

  lemma {:induction false} QuietReadsFresh(acts: seq<Action>, n: nat)
    requires SaneSchedule(acts) && Quiet(acts) && n <= |acts|
    ensures ReadsFresh(Run(acts[..n]))
  {
    if n > 0 {
      hide Invariant, Next, ReadsFresh, QuietStep;
      QuietReadsFresh(acts, n - 1);
      PrefixIsSane(acts, n - 1);
      RunStep(acts, n - 1);
      NextKeepsReadsFresh(Run(acts[..n - 1]), acts[n - 1]);
    }
  }

  /** Concurrent operations refine serial ones: if between a credit's unlocked read and its own
      write no other transaction commits a write to that row, the final balances, ledger and
      records are those of the committed operations run one at a time in commit order. */
  lemma QuietSchedulesAreSerial(acts: seq<Action>)
    requires SaneSchedule(acts) && Quiet(acts)
    ensures SameBooks(Run(acts).db, Serial.Run(History(acts)))
  {
    hide Run;
    forall i: nat | Commits(acts, i) ensures CreditFresh(Run(acts[..i]).db, Committer(acts, i)) {
      QuietReadsFresh(acts, i);
    }
    FreshSchedulesAreSerial(acts);
  }

  /** Every commit has the effect on the balances of executing its request alone. */
  ghost predicate CommitsAreSerial(acts: seq<Action>) {
    forall i: nat | Commits(acts, i) :: CommitIsSerial(Run(acts[..i]), acts[i].pid)
  }

  ghost predicate CommitIsSerial(s: State, pid: nat)
    requires At(s, pid, Saved)
  {
    CommittedDb(s.db, s.processes[pid]).balances
      == Serial.Step(s.db, Serial.Perform(s.processes[pid].request, s.processes[pid].env)).balances
  }

  /** What the process credits, as it read it and as it stands, is in the exact range. */
  ghost predicate InExactRange(db: Database, p: Process)
    requires p.Running?
  {
    p.seen.Some? ==>
      && p.seen.value.amount + p.plan.credit.amount <= Money.BOUND
      && (p.seen.value.row < |db.balances| ==>
            db.balances[p.seen.value.row].amount + p.plan.credit.amount <= Money.BOUND)
  }

  /** Where binary64 is exact, commits act serially if and only if every credit wrote over the
      amount it had read. */
  lemma SerialExactlyWhenFresh(acts: seq<Action>)
    requires SaneSchedule(acts)
    requires forall i: nat | Commits(acts, i) :: InExactRange(Run(acts[..i]).db, Committer(acts, i))
    ensures CommitsAreSerial(acts) <==> AllFresh(acts)
  {
    hide Run, CreditFresh, CommitIsSerial, InExactRange;
    forall i: nat | Commits(acts, i)
      ensures CommitIsSerial(Run(acts[..i]), acts[i].pid) <==> CreditFresh(Run(acts[..i]).db, Committer(acts, i))
    {
      PrefixIsSane(acts, i);
      OneCommit(Run(acts[..i]), acts[i].pid);
    }
  }

  lemma OneCommit(s: State, pid: nat)
    requires Invariant(s) && At(s, pid, Saved) && InExactRange(s.db, s.processes[pid])
    ensures CommitIsSerial(s, pid) <==> CreditFresh(s.db, s.processes[pid])
  {
    if CreditFresh(s.db, s.processes[pid]) {
      FreshCommitIsSerial(s, pid);
    } else {
      StaleCommitIsNotSerial(s, pid);
    }
  }

  /** Conservation carries over to quiet schedules. */
  lemma QuietSchedulesConserveMoney(acts: seq<Action>, currency: string)
    requires SaneSchedule(acts) && Quiet(acts) && Serial.RunWithinBound(History(acts))
    ensures Serial.Total(Run(acts).db.balances, currency) == Serial.NetInflow(Serial.Log(History(acts)), currency)
  {
    QuietSchedulesAreSerial(acts);
    Serial.MoneyIsConserved(History(acts), currency);
  }
}
