/** What an operation does when it can proceed, and why it waits or is refused when it cannot. */
module Progress {
  import opened Common
  import opened Ledger
  import opened Consistency
  import opened Concurrent
  import Serial = SerialRuns
  import Money

  // ---------- an operation with nobody else under way ----------

  /** The steps of one operation; those that a request does not need leave the state as it is. */
  function Transaction(pid: nat): seq<Action> {
    [Lock(pid), WriteDebit(pid), ReadCredit(pid), WriteCredit(pid), InsertEntry(pid), InsertEntry(pid),
     ReadBalances(pid), SaveRecord(pid), Commit(pid)]
  }

  function Play(s: State, acts: seq<Action>): State
    decreases |acts|
  {
    if acts == [] then s else Play(Next(s, acts[0]), acts[1..])
  }

  ghost predicate Idle(s: State) { forall q | q in s.processes :: !Active(s.processes[q]) }

  /** How a process has ended, if it has. */
  function Outcome(p: Process): Option<Result<Response, Error>> {
    match p
    case Refused(_, error) => Some(Err(error))
    case Replayed(_, response) => Some(Ok(response))
    case Running(_, _, _, Committed, _, _, _, _, response, _) => Some(Ok(response))
    case Running(_, _, _, RolledBack(error), _, _, _, _, _, _) => Some(Err(error))
    case Running(_, _, _, _, _, _, _, _, _, _) => None
  }

  predicate Own(a: Action, pid: nat) {
    && !a.Arrive? && !a.Abort? && !a.OpenDefault? && a.pid == pid
  }

  lemma EndedStays(s: State, a: Action, pid: nat)
    requires pid in s.processes && !Active(s.processes[pid]) && Own(a, pid)
    ensures Next(s, a) == s
  {
  }

  lemma {:induction false} EndedStaysEnded(s: State, acts: seq<Action>, pid: nat)
    requires pid in s.processes && !Active(s.processes[pid])
    requires forall i | 0 <= i < |acts| :: Own(acts[i], pid)
    ensures Play(s, acts) == s
    decreases |acts|
  {
    hide Next;
    if acts != [] {
      EndedStays(s, acts[0], pid);
      EndedStaysEnded(s, acts[1..], pid);
    }
  }

  lemma AloneIsFree(s: State, pid: nat, p: Process)
    requires Idle(s)
    ensures forall row: nat :: RowFree(Put(s, pid, p), pid, row)
    ensures forall key :: KeyFree(Put(s, pid, p), pid, key)
    ensures forall user, key :: RecordFree(Put(s, pid, p), pid, user, key)
    ensures !HoldsCredit(p) ==> forall a :: InsertFree(Put(s, pid, p), a)
  {
  }

  /** The debit of a plan on the rows. */
  function Debited(rows: seq<BalanceRow>, p: Plan): Result<seq<BalanceRow>, Error> {
    if p.debit.Some? then Debit(rows, p.debit.value.account, p.debit.value.amount) else Ok(rows)
  }

  lemma AloneDebits(s: State, pid: nat, p: Process) returns (p': Process)
    requires Idle(s) && p.Running? && p.phase.Waiting? && p.inserted == 0
    ensures Next(Next(Put(s, pid, p), Lock(pid)), WriteDebit(pid)) == Put(s, pid, p')
    ensures p'.Running? && p'.plan == p.plan && p'.inserted == 0
    ensures match Debited(s.db.balances, p.plan)
            case Err(error) => p'.phase == RolledBack(error)
            case Ok(rows) => ReadsCredit(Put(s, pid, p'), pid) && WithDebit(s.db.balances, p') == rows
  {
    hide Money.Less, Money.Sub, Find;
    AloneIsFree(s, pid, p);
    if p.plan.debit.None? {
      p' := p;
    } else {
      var q := LockStep(Put(s, pid, p), pid, p);
      p' := if q.phase.Locked? then q.(phase := Phase.Debited) else q;
    }
  }

  lemma AloneCredits(s: State, pid: nat, p: Process) returns (p': Process)
    requires Idle(s) && ReadsCredit(Put(s, pid, p), pid) && p.inserted == 0
    requires Debited(s.db.balances, p.plan) == Ok(WithDebit(s.db.balances, p))
    ensures Next(Next(Put(s, pid, p), ReadCredit(pid)), WriteCredit(pid)) == Put(s, pid, p')
    ensures p'.Running? && p'.plan == p.plan && p'.inserted == 0 && p'.phase.Credited?
    ensures WithWrites(s.db.balances, p')
         == Credit(WithDebit(s.db.balances, p), p.plan.credit.account, p.plan.credit.amount)
  {
    var rows := WithDebit(s.db.balances, p);
    SameFind(s, p, p.plan.credit.account);
    hide Money.Less, Money.Sub, Money.Add, Debited, Debit;
    var q := ReadCreditStep(Put(s, pid, p), p);
    AloneIsFree(s, pid, q);
    p' := WriteCreditStep(Put(s, pid, q), pid, q);
    assert WithDebit(s.db.balances, p') == rows;
  }

  lemma SameFind(s: State, p: Process, a: Account)
    requires p.Running? && Debited(s.db.balances, p.plan) == Ok(WithDebit(s.db.balances, p))
    ensures Find(WithDebit(s.db.balances, p), a) == Find(s.db.balances, a)
    ensures |WithDebit(s.db.balances, p)| == |s.db.balances|
  {
    if p.plan.debit.Some? {
      var b := p.plan.debit.value.account;
      var i := Find(s.db.balances, b).value;
      hide Money.Less, Money.Sub;
      FindAfterUpdate(s.db.balances, i, Money.Sub(s.db.balances[i].amount, p.plan.debit.value.amount), a);
    }
  }

  /** At most one row, the first, carries the plan's key. */
  predicate Ordinary(p: Plan) {
    && 1 <= |p.entries| <= 2 && p.entries[0].key == p.key && (|p.entries| == 2 ==> p.entries[1].key.None?)
  }

  lemma PlansAreOrdinary(r: Request, env: Environment)
    requires PlanFor(r, env).Ok?
    ensures Ordinary(PlanFor(r, env).value)
  {
    hide Money.Fixed4, Money.Fixed8, Money.Credited, NormalizeKey;
  }

  lemma AloneInserts(s: State, pid: nat, p: Process) returns (p': Process)
    requires Idle(s) && p.Running? && p.phase.Credited? && p.inserted == 0 && Ordinary(p.plan)
    ensures Next(Next(Put(s, pid, p), InsertEntry(pid)), InsertEntry(pid)) == Put(s, pid, p')
    ensures p' == if p.plan.key.Some? && KeyUsed(s.db.entries, p.plan.key.value)
                  then p.(phase := RolledBack(DuplicateKey))
                  else p.(inserted := |p.plan.entries|)
  {
    var q := InsertStep(Put(s, pid, p), pid, p);
    AloneIsFree(s, pid, p);
    AloneIsFree(s, pid, q);
    hide KeyFree, KeyUsed;
    p' := if q.phase.Credited? then InsertStep(Put(s, pid, q), pid, q) else q;
    assert Next(Put(s, pid, p), InsertEntry(pid)) == Put(s, pid, q);
  }

  lemma AloneFinishes(s: State, pid: nat, p: Process) returns (p': Process)
    requires Idle(s) && p.Running? && p.phase.Credited? && p.plan.entries != [] && p.inserted == |p.plan.entries|
    ensures var t := Next(Next(Next(Put(s, pid, p), ReadBalances(pid)), SaveRecord(pid)), Commit(pid));
            && t.processes == s.processes[pid := p'] && p'.Running? && p'.phase.Committed?
            && p'.response == Response(BalancesOf(WithWrites(s.db.balances, p), p.plan.user),
                                       p.plan.entries[0].id, p.plan.delivery)
            && t.db == Database(WithWrites(s.db.balances, p), s.db.entries + p.plan.entries,
                                Remember(s.db.idempotency, p.plan.user, p.plan.key, p'.response))
  {
    var q := ReadStep(Put(s, pid, p), p);
    AloneIsFree(s, pid, q);
    hide RecordFree, BalancesOf, Money.Add, Money.Sub, Remember;
    p' := q.(phase := Committed, at := |s.db.entries|);
    assert Next(Put(s, pid, p), ReadBalances(pid)) == Put(s, pid, q);
    assert Next(Put(s, pid, q), SaveRecord(pid)) == Put(s, pid, q.(phase := Saved));
    assert WithWrites(s.db.balances, q.(phase := Saved)) == WithWrites(s.db.balances, p);
  }

  lemma {:induction false} PlayOn(s: State, xs: seq<Action>, ys: seq<Action>)
    ensures Play(s, xs + ys) == Play(Play(s, xs), ys)
    decreases |xs|
  {
    hide Next;
    if xs == [] {
      assert xs + ys == ys;
    } else {
      assert (xs + ys)[1..] == xs[1..] + ys;
      PlayOn(Next(s, xs[0]), xs[1..], ys);
    }
  }

  lemma PlayTwo(s: State, a: Action, b: Action)
    ensures Play(s, [a, b]) == Next(Next(s, a), b)
  {
    hide Next;
    assert [a, b][1..] == [b] && [b][1..] == [];
    assert Play(Next(s, a), [b]) == Play(Next(Next(s, a), b), []);
  }

  lemma PlayThree(s: State, a: Action, b: Action, c: Action)
    ensures Play(s, [a, b, c]) == Next(Next(Next(s, a), b), c)
  {
    hide Next;
    assert [a, b, c][1..] == [b, c];
    PlayTwo(Next(s, a), b, c);
  }

  /** The parts of a transaction. */
  lemma PlayParts(s: State, pid: nat)
    ensures var s2 := Next(Next(s, Lock(pid)), WriteDebit(pid));
            Play(s, Transaction(pid)) == Play(s2, Transaction(pid)[2..])
    ensures var s4 := Next(Next(s, ReadCredit(pid)), WriteCredit(pid));
            Play(s, Transaction(pid)[2..]) == Play(s4, Transaction(pid)[4..])
    ensures var s6 := Next(Next(s, InsertEntry(pid)), InsertEntry(pid));
            Play(s, Transaction(pid)[4..]) == Play(s6, Transaction(pid)[6..])
    ensures Play(s, Transaction(pid)[6..]) == Next(Next(Next(s, ReadBalances(pid)), SaveRecord(pid)), Commit(pid))
  {
    hide Next, Play;
    var acts := Transaction(pid);
    assert acts == [Lock(pid), WriteDebit(pid)] + acts[2..];
    assert acts[2..] == [ReadCredit(pid), WriteCredit(pid)] + acts[4..];
    assert acts[4..] == [InsertEntry(pid), InsertEntry(pid)] + acts[6..];
    assert acts[6..] == [ReadBalances(pid), SaveRecord(pid), Commit(pid)];
    PlayOn(s, [Lock(pid), WriteDebit(pid)], acts[2..]);
    PlayOn(s, [ReadCredit(pid), WriteCredit(pid)], acts[4..]);
    PlayOn(s, [InsertEntry(pid), InsertEntry(pid)], acts[6..]);
    PlayTwo(s, Lock(pid), WriteDebit(pid));
    PlayTwo(s, ReadCredit(pid), WriteCredit(pid));
    PlayTwo(s, InsertEntry(pid), InsertEntry(pid));
    PlayThree(s, ReadBalances(pid), SaveRecord(pid), Commit(pid));
  }

  /** What has become of a process, and of the tables, with all others as they were. */
  ghost predicate Ends(s: State, t: State, pid: nat, result: Result<(Database, Response), Error>) {
    && t.processes.Keys == s.processes.Keys + {pid}
    && (forall q | q in s.processes && q != pid :: t.processes[q] == s.processes[q])
    && match result
       case Ok(settled) => t.db == settled.0 && Outcome(t.processes[pid]) == Some(Ok(settled.1))
       case Err(error) => t.db == s.db && Outcome(t.processes[pid]) == Some(Err(error))
  }

  lemma RolledBackEnds(s: State, pid: nat, p: Process, n: nat, error: Error)
    requires p.Running? && p.phase == RolledBack(error) && n <= 9
    ensures Ends(s, Play(Put(s, pid, p), Transaction(pid)[n..]), pid, Err(error))
  {
    EndedStaysEnded(Put(s, pid, p), Transaction(pid)[n..], pid);
    hide Next, Play;
  }

  /** A transaction with nobody else under way settles its plan, or rolls back with the error that
      settling it gives. */
  lemma AloneSettles(s: State, pid: nat, p: Process)
    requires Idle(s) && p.Running? && p.phase.Waiting? && p.inserted == 0 && Ordinary(p.plan)
    ensures Ends(s, Play(Put(s, pid, p), Transaction(pid)), pid, Settle(s.db, p.plan))
  {
    hide Next, Play, Transaction, Debit, Credit, BalancesOf, WithWrites, WithDebit, KeyUsed, Remember;
    PlayParts(Put(s, pid, p), pid);
    var p1 := AloneDebits(s, pid, p);
    if Debited(s.db.balances, p.plan).Err? {
      RolledBackEnds(s, pid, p1, 2, p1.phase.error);
    } else {
      PlayParts(Put(s, pid, p1), pid);
      var p2 := AloneCredits(s, pid, p1);
      PlayParts(Put(s, pid, p2), pid);
      var p3 := AloneInserts(s, pid, p2);
      if p3.phase.RolledBack? {
        RolledBackEnds(s, pid, p3, 6, DuplicateKey);
      } else {
        PlayParts(Put(s, pid, p3), pid);
        var p4 := AloneFinishes(s, pid, p3);
        SameWrites(s.db.balances, p2, p3);
      }
    }
  }

  lemma SameWrites(rows: seq<BalanceRow>, p: Process, q: Process)
    requires p.Running? && q.Running? && p.plan == q.plan && p.held == q.held && p.credit == q.credit
    ensures WithWrites(rows, p) == WithWrites(rows, q)
  {
    hide Money.Sub;
  }

  /** A request carried out with nobody else under way has the effect and the answer of its serial
      execution, whatever it is and whatever the tables hold. */
  lemma UninterruptedOperation(s: State, pid: nat, r: Request, env: Environment)
    requires Idle(s) && pid !in s.processes
    ensures var t := Play(Next(s, Arrive(pid, r, env)), Transaction(pid));
            && t.db == Exec(s.db, r, env).0
            && pid in t.processes && Outcome(t.processes[pid]) == Some(Exec(s.db, r, env).1)
            && t.processes - {pid} == s.processes
  {
    hide Play, Settle, PlanFor, Screen, Lookup, WithWrites;
    var p := Arrival(s.db, r, env);
    if p.Running? {
      PlansAreOrdinary(r, env);
      AloneSettles(s, pid, p);
    } else {
      EndedStaysEnded(Put(s, pid, p), Transaction(pid), pid);
    }
  }
}
