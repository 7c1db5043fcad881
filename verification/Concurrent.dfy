/** Concurrent money operations as a step machine.

    Every operation is a process. Its key lookup happens outside its transaction; inside, its
    writes stay private until the commit. Reads see committed rows (read committed) and the
    process's own writes. A row read `FOR UPDATE` or written, a pending insert of an account, a
    pending ledger key and a pending record exclude other processes until the end of the
    transaction; an action that has to wait leaves the state as it is. */
module Concurrent {
  import opened Common
  import opened Ledger
  import opened Consistency
  import Money

  datatype RowRead = RowRead(row: nat, amount: int)

  datatype Write = Update(row: nat, amount: int) | Insert(amount: int)

  datatype Phase =
    | Waiting | Locked | Debited | CreditRead | Credited | BalancesRead | Saved
    | Committed | RolledBack(error: Error)

  datatype Process =
    | Refused(request: Request, error: Error)
    | Replayed(request: Request, response: Response)
    | Running(request: Request, env: Environment, plan: Plan, phase: Phase,
              held: RowRead,            // the row locked for the debit, as read
              seen: Option<RowRead>,    // the row to credit, as read without a lock
              credit: Write,
              inserted: nat,            // how many ledger rows are inserted
              response: Response,
              at: nat)                  // where the committed ledger rows start

  datatype State = State(db: Database, processes: map<nat, Process>)

  const START := State(EMPTY, map[])

  datatype Action =
    | Arrive(pid: nat, request: Request, env: Environment)
    | Lock(pid: nat)
    | WriteDebit(pid: nat)
    | ReadCredit(pid: nat)
    | WriteCredit(pid: nat)
    | InsertEntry(pid: nat)
    | ReadBalances(pid: nat)
    | SaveRecord(pid: nat)
    | Commit(pid: nat)
    | Abort(pid: nat, error: Error)
    | OpenDefault(user: string)

  // ---------- locks, derived from the phase ----------

  predicate Active(p: Process) { p.Running? && !p.phase.Committed? && !p.phase.RolledBack? }

  predicate HoldsDebit(p: Process) { Active(p) && p.plan.debit.Some? && !p.phase.Waiting? }

  predicate HasSeen(p: Process) { Active(p) && p.phase in {CreditRead, Credited, BalancesRead, Saved} }

  predicate HoldsCredit(p: Process) { Active(p) && p.phase in {Credited, BalancesRead, Saved} }

  predicate HoldsRow(p: Process, row: nat) {
    (HoldsDebit(p) && p.held.row == row) || (HoldsCredit(p) && p.credit.Update? && p.credit.row == row)
  }

  predicate HoldsInsert(p: Process, a: Account) { HoldsCredit(p) && p.credit.Insert? && p.plan.credit.account == a }

  predicate HoldsKey(p: Process, key: string) { HoldsCredit(p) && p.inserted >= 1 && p.plan.key == Some(key) }

  predicate HoldsRecord(p: Process, user: string, key: string) {
    Active(p) && p.phase.Saved? && p.plan.user == user && p.plan.key == Some(key)
  }

  predicate RowFree(s: State, pid: nat, row: nat) {
    forall q | q in s.processes && q != pid :: !HoldsRow(s.processes[q], row)
  }

  predicate KeyFree(s: State, pid: nat, key: string) {
    forall q | q in s.processes && q != pid :: !HoldsKey(s.processes[q], key)
  }

  predicate RecordFree(s: State, pid: nat, user: string, key: string) {
    forall q | q in s.processes && q != pid :: !HoldsRecord(s.processes[q], user, key)
  }

  predicate InsertFree(s: State, a: Account) {
    forall q | q in s.processes :: !HoldsInsert(s.processes[q], a)
  }

  // ---------- the steps ----------

  function Put(s: State, pid: nat, p: Process): State { s.(processes := s.processes[pid := p]) }

  predicate At(s: State, pid: nat, phase: Phase) {
    pid in s.processes && s.processes[pid].Running? && s.processes[pid].phase == phase
  }

  /** Checks, key lookup and rate, all before the transaction. */
  function Arrival(db: Database, r: Request, env: Environment): Process {
    if Screen(r).Some? then Refused(r, Screen(r).value)
    else if Lookup(db, r).Some? then Replayed(r, Lookup(db, r).value)
    else if PlanFor(r, env).Err? then Refused(r, PlanFor(r, env).error)
    else
      Running(r, env, PlanFor(r, env).value, Waiting, RowRead(0, 0), None, Insert(0), 0, Response(map[], "", false), 0)
  }

  function RowAt(rows: seq<BalanceRow>, a: Account): Option<RowRead> {
    match Find(rows, a) case None => None case Some(i) => Some(RowRead(i, rows[i].amount))
  }

  function LockStep(s: State, pid: nat, p: Process): Process
    requires p.Running? && p.plan.debit.Some?
  {
    var row := RowAt(s.db.balances, p.plan.debit.value.account);
    if row.None? then p.(phase := RolledBack(InsufficientBalance))
    else if !RowFree(s, pid, row.value.row) then p
    else if Money.Less(row.value.amount, p.plan.debit.value.amount) then p.(phase := RolledBack(InsufficientBalance))
    else p.(phase := Locked, held := row.value)
  }

  predicate ReadsCredit(s: State, pid: nat) {
    At(s, pid, Debited) || (At(s, pid, Waiting) && s.processes[pid].plan.debit.None?)
  }

  /** The read sees the process's own debit, which may be of the same row. */
  function ReadCreditStep(s: State, p: Process): Process
    requires p.Running?
  {
    p.(phase := CreditRead, seen := RowAt(WithDebit(s.db.balances, p), p.plan.credit.account))
  }

  function WriteCreditStep(s: State, pid: nat, p: Process): Process
    requires p.Running?
  {
    match p.seen
    case None =>
      if Find(s.db.balances, p.plan.credit.account).Some? then p.(phase := RolledBack(DuplicateBalance))
      else if !InsertFree(s, p.plan.credit.account) then p
      else p.(phase := Credited, credit := Insert(p.plan.credit.amount))
    case Some(row) =>
      if !RowFree(s, pid, row.row) then p
      else p.(phase := Credited, credit := Update(row.row, Money.Add(row.amount, p.plan.credit.amount)))
  }

  function InsertStep(s: State, pid: nat, p: Process): Process
    requires p.Running?
  {
    if p.inserted >= |p.plan.entries| then p
    else
      var key := p.plan.entries[p.inserted].key;
      if key.Some? && KeyUsed(s.db.entries, key.value) then p.(phase := RolledBack(DuplicateKey))
      else if key.Some? && !KeyFree(s, pid, key.value) then p
      else p.(inserted := p.inserted + 1)
  }

  function WithDebit(rows: seq<BalanceRow>, p: Process): seq<BalanceRow>
    requires p.Running?
  {
    if p.plan.debit.Some? && p.held.row < |rows| then
      rows[p.held.row := BalanceRow(p.plan.debit.value.account, Money.Sub(p.held.amount, p.plan.debit.value.amount))]
    else rows
  }

  function WithCredit(rows: seq<BalanceRow>, p: Process): seq<BalanceRow>
    requires p.Running?
  {
    match p.credit
    case Insert(amount) => rows + [BalanceRow(p.plan.credit.account, amount)]
    case Update(row, amount) => if row < |rows| then rows[row := BalanceRow(p.plan.credit.account, amount)] else rows
  }

  /** The balance rows as the process sees them: its debit and its credit applied. */
  function WithWrites(rows: seq<BalanceRow>, p: Process): seq<BalanceRow>
    requires p.Running?
  {
    WithCredit(WithDebit(rows, p), p)
  }

  function ReadStep(s: State, p: Process): Process
    requires p.Running?
  {
    if p.inserted < |p.plan.entries| || p.plan.entries == [] then p
    else p.(phase := BalancesRead,
            response := Response(BalancesOf(WithWrites(s.db.balances, p), p.plan.user),
                                 p.plan.entries[0].id, p.plan.delivery))
  }

  /** All private writes become visible together; saving a record is an upsert. */
  function CommittedDb(db: Database, p: Process): Database
    requires p.Running?
  {
    Database(WithWrites(db.balances, p), db.entries + p.plan.entries,
             Remember(db.idempotency, p.plan.user, p.plan.key, p.response))
  }

  function Next(s: State, a: Action): State {
    match a
    case Arrive(pid, r, env) =>
      if pid in s.processes then s else Put(s, pid, Arrival(s.db, r, env))
    case Lock(pid) =>
      if At(s, pid, Waiting) && s.processes[pid].plan.debit.Some?
      then Put(s, pid, LockStep(s, pid, s.processes[pid])) else s
    case WriteDebit(pid) =>
      if At(s, pid, Locked) then Put(s, pid, s.processes[pid].(phase := Debited)) else s
    case ReadCredit(pid) =>
      if ReadsCredit(s, pid) then Put(s, pid, ReadCreditStep(s, s.processes[pid])) else s
    case WriteCredit(pid) =>
      if At(s, pid, CreditRead) then Put(s, pid, WriteCreditStep(s, pid, s.processes[pid])) else s
    case InsertEntry(pid) =>
      if At(s, pid, Credited) then Put(s, pid, InsertStep(s, pid, s.processes[pid])) else s
    case ReadBalances(pid) =>
      if At(s, pid, Credited) then Put(s, pid, ReadStep(s, s.processes[pid])) else s
    case SaveRecord(pid) =>
      if At(s, pid, BalancesRead)
         && (s.processes[pid].plan.key.Some? ==>
               RecordFree(s, pid, s.processes[pid].plan.user, s.processes[pid].plan.key.value))
      then Put(s, pid, s.processes[pid].(phase := Saved)) else s
    case Commit(pid) =>
      if At(s, pid, Saved) then
        State(CommittedDb(s.db, s.processes[pid]),
              s.processes[pid := s.processes[pid].(phase := Committed, at := |s.db.entries|)])
      else s
    case Abort(pid, error) =>
      if pid in s.processes && Active(s.processes[pid]) then
        Put(s, pid, s.processes[pid].(phase := RolledBack(error))) else s
    case OpenDefault(user) =>
      var a := Account(user, "NGN");
      if Find(s.db.balances, a).None? && InsertFree(s, a) then
        s.(db := s.db.(balances := s.db.balances + [BalanceRow(a, 0)]))
      else s
  }

  /** The state after a schedule. */
  function Run(acts: seq<Action>): State {
    if acts == [] then START else Next(Run(acts[..|acts| - 1]), acts[|acts| - 1])
  }

  // ---------- what every reachable state satisfies ----------

  ghost predicate IsRow(rows: seq<BalanceRow>, row: nat, a: Account) { row < |rows| && rows[row].account == a }

  ghost predicate DebitFits(db: Database, p: Process)
    requires p.Running? && p.plan.debit.Some?
  {
    && IsRow(db.balances, p.held.row, p.plan.debit.value.account)
    && db.balances[p.held.row].amount == p.held.amount
    && !Money.Less(p.held.amount, p.plan.debit.value.amount)
  }

  ghost predicate CreditFits(db: Database, p: Process)
    requires p.Running?
  {
    match p.credit
    case Update(row, amount) =>
      p.seen.Some? && p.seen.value.row == row && amount == Money.Add(p.seen.value.amount, p.plan.credit.amount)
    case Insert(amount) =>
      p.seen.None? && amount == p.plan.credit.amount && Find(db.balances, p.plan.credit.account).None?
  }

  /** A process that credits the row it debits has read its own debit. */
  ghost predicate OwnDebitSeen(p: Process)
    requires p.Running?
  {
    ToItself(p.plan) ==> p.seen == Some(RowRead(p.held.row, Money.Sub(p.held.amount, p.plan.debit.value.amount)))
  }

  /** A running process and the committed tables fit together. */
  ghost predicate Fits(db: Database, p: Process)
    requires p.Running?
  {
    && Sane(p.request, p.env) && Screen(p.request).None? && PlanFor(p.request, p.env) == Ok(p.plan)
    && WellFormed(p.plan) && p.plan.user == p.request.user && p.plan.key == p.request.Key()
    && (HoldsDebit(p) ==> DebitFits(db, p))
    && (HasSeen(p) && p.seen.Some? ==>
          IsRow(db.balances, p.seen.value.row, p.plan.credit.account) && p.seen.value.amount >= 0)
    && (HasSeen(p) ==> OwnDebitSeen(p))
    && (HoldsCredit(p) ==> CreditFits(db, p))
    && (HoldsCredit(p) && p.inserted >= 1 && p.plan.key.Some? ==> !KeyUsed(db.entries, p.plan.key.value))
    && p.inserted <= |p.plan.entries| && (Active(p) && !HoldsCredit(p) ==> p.inserted == 0)
    && (p.phase in {BalancesRead, Saved} ==>
          p.inserted == |p.plan.entries| && p.response.transactionId == p.plan.entries[0].id && ShowsWrites(p))
    && (p.phase.Committed? ==> CommittedFits(db, p))
  }

  ghost predicate Shows(response: Response, currency: string, amount: int) {
    currency in response.balances && response.balances[currency] == amount
  }

  /** The response shows the balances that the process's own writes leave its user. */
  ghost predicate ShowsWrites(p: Process)
    requires p.Running?
  {
    && (p.plan.debit.Some? && !ToItself(p.plan) ==>
          Shows(p.response, p.plan.debit.value.account.currency, Money.Sub(p.held.amount, p.plan.debit.value.amount)))
    && (p.plan.credit.account.user == p.plan.user ==>
          Shows(p.response, p.plan.credit.account.currency, p.credit.amount))
  }

  ghost predicate CommittedFits(db: Database, p: Process)
    requires p.Running? && p.plan.entries != []
  {
    && p.at < |db.entries| && db.entries[p.at] == p.plan.entries[0]
    && (p.plan.key.Some? ==> HasRecord(db, p.plan.user, p.plan.key.value, p.response))
  }

  ghost predicate HasRecord(db: Database, user: string, key: string, response: Response) {
    (user, key) in db.idempotency && db.idempotency[(user, key)] == response
  }

  ghost predicate Known(db: Database, p: Process) {
    match p
    case Refused(_, _) => true
    case Replayed(r, response) => r.Key().Some? && HasRecord(db, r.user, r.Key().value, response)
    case Running(_, _, _, _, _, _, _, _, _, _) => Fits(db, p)
  }

  /** Two processes never hold the same thing, and never committed the same ledger row. */
  ghost predicate Apart(p: Process, q: Process) {
    && (forall row: nat :: !(HoldsRow(p, row) && HoldsRow(q, row)))
    && (forall a :: !(HoldsInsert(p, a) && HoldsInsert(q, a)))
    && (forall key :: !(HoldsKey(p, key) && HoldsKey(q, key)))
    && !(p.Running? && p.phase.Committed? && q.Running? && q.phase.Committed? && p.at == q.at)
  }

  ghost predicate Invariant(s: State) {
    && Consistent(s.db)
    && (forall pid | pid in s.processes :: Known(s.db, s.processes[pid]))
    && (forall p, q | p in s.processes && q in s.processes && p != q :: Apart(s.processes[p], s.processes[q]))
  }

  ghost predicate SaneAction(a: Action) { a.Arrive? ==> Sane(a.request, a.env) }

  ghost predicate SaneSchedule(acts: seq<Action>) { forall i | 0 <= i < |acts| :: SaneAction(acts[i]) }

  /** Assembling the invariant after one process changed, possibly with the tables. */
  lemma Reassemble(s: State, pid: nat, p: Process, db: Database)
    requires Invariant(s) && Consistent(db) && Known(db, p)
    requires forall q | q in s.processes && q != pid :: Known(db, s.processes[q]) && Apart(p, s.processes[q])
    ensures Invariant(State(db, s.processes[pid := p]))
  {
    hide Known, Consistent;
    var t := State(db, s.processes[pid := p]);
    forall x, y | x in t.processes && y in t.processes && x != y ensures Apart(t.processes[x], t.processes[y]) {
      if y == pid {
        assert Apart(p, s.processes[x]);
      }
    }
  }

  lemma PutKeepsInvariant(s: State, pid: nat, p: Process)
    requires Invariant(s) && Known(s.db, p)
    requires forall q | q in s.processes && q != pid :: Apart(p, s.processes[q])
    ensures Invariant(Put(s, pid, p))
  {
    hide Known, Consistent, Apart;
    Reassemble(s, pid, p, s.db);
  }

  /** Giving up or keeping what is held keeps processes apart. */
  lemma HoldingLess(p: Process, p': Process, q: Process)
    requires Apart(p, q) && p'.Running? && !p'.phase.Committed?
    requires forall row: nat :: HoldsRow(p', row) ==> HoldsRow(p, row)
    requires forall a :: HoldsInsert(p', a) ==> HoldsInsert(p, a)
    requires forall key :: HoldsKey(p', key) ==> HoldsKey(p, key)
    ensures Apart(p', q)
  {
    hide HoldsRow, HoldsInsert, HoldsKey;
  }

  lemma ArrivalIsKnown(s: State, pid: nat, r: Request, env: Environment)
    requires Sane(r, env)
    ensures Known(s.db, Arrival(s.db, r, env))
    ensures forall q :: Apart(Arrival(s.db, r, env), q)
  {
    hide PlanFor, Screen, WellFormed, Sane, NormalizeKey;
    if Arrival(s.db, r, env).Running? {
      PlansAreWellFormed(r, env);
    }
  }

  lemma LockKeeps(s: State, pid: nat)
    requires Invariant(s) && At(s, pid, Waiting) && s.processes[pid].plan.debit.Some?
    ensures Invariant(Put(s, pid, LockStep(s, pid, s.processes[pid])))
  {
    hide Consistent, Sane, Screen, PlanFor, WellFormed, Money.Less, NormalizeKey;
    var p, p' := s.processes[pid], LockStep(s, pid, s.processes[pid]);
    assert Known(s.db, p);
    PutKeepsInvariant(s, pid, p');
  }

  lemma WriteCreditKeeps(s: State, pid: nat)
    requires Invariant(s) && At(s, pid, CreditRead)
    ensures Invariant(Put(s, pid, WriteCreditStep(s, pid, s.processes[pid])))
  {
    hide Consistent, Sane, Screen, PlanFor, WellFormed, Money.Less, Money.Add, NormalizeKey;
    var p, p' := s.processes[pid], WriteCreditStep(s, pid, s.processes[pid]);
    assert Known(s.db, p);
    forall q | q in s.processes && q != pid ensures Apart(p', s.processes[q]) {
      assert Apart(p, s.processes[q]);
    }
    PutKeepsInvariant(s, pid, p');
  }

  lemma InsertKeeps(s: State, pid: nat)
    requires Invariant(s) && At(s, pid, Credited)
    ensures Invariant(Put(s, pid, InsertStep(s, pid, s.processes[pid])))
  {
    hide Consistent, Sane, Screen, PlanFor, Money.Less, Money.Add, NormalizeKey, Paired;
    var p, p' := s.processes[pid], InsertStep(s, pid, s.processes[pid]);
    assert Known(s.db, p);
    forall q | q in s.processes && q != pid ensures Apart(p', s.processes[q]) {
      assert Apart(p, s.processes[q]);
    }
    PutKeepsInvariant(s, pid, p');
  }

  /** A step that keeps what is held, or gives it up, and still fits. */
  lemma OwnStepKeeps(s: State, pid: nat, p': Process)
    requires Invariant(s) && pid in s.processes && s.processes[pid].Running?
    requires p'.Running? && Fits(s.db, p') && !p'.phase.Committed?
    requires forall row: nat :: HoldsRow(p', row) ==> HoldsRow(s.processes[pid], row)
    requires forall a :: HoldsInsert(p', a) ==> HoldsInsert(s.processes[pid], a)
    requires forall key :: HoldsKey(p', key) ==> HoldsKey(s.processes[pid], key)
    ensures Invariant(Put(s, pid, p'))
  {
    hide HoldsRow, HoldsInsert, HoldsKey, Fits, Consistent;
    forall q | q in s.processes && q != pid ensures Apart(p', s.processes[q]) {
      HoldingLess(s.processes[pid], p', s.processes[q]);
    }
    PutKeepsInvariant(s, pid, p');
  }

  lemma WriteDebitKeeps(s: State, pid: nat)
    requires Invariant(s) && At(s, pid, Locked)
    ensures Invariant(Next(s, WriteDebit(pid)))
  {
    hide Consistent, Sane, Screen, PlanFor, WellFormed, Money.Less, Money.Add, NormalizeKey;
    assert Known(s.db, s.processes[pid]);
    OwnStepKeeps(s, pid, s.processes[pid].(phase := Debited));
  }

  /** What the read for the credit finds: the committed row, or the one the process has debited. */
  lemma CreditRowRead(rows: seq<BalanceRow>, p: Process)
    requires Unique(rows) && NonNegative(rows) && p.Running? && WellFormed(p.plan)
    requires p.plan.debit.Some? ==>
      IsRow(rows, p.held.row, p.plan.debit.value.account) && rows[p.held.row].amount == p.held.amount
      && !Money.Less(p.held.amount, p.plan.debit.value.amount)
    ensures var seen := RowAt(WithDebit(rows, p), p.plan.credit.account);
            && (seen.Some? ==> IsRow(rows, seen.value.row, p.plan.credit.account) && seen.value.amount >= 0)
            && (seen.None? <==> Find(rows, p.plan.credit.account).None?)
            && OwnDebitSeen(p.(seen := seen))
            && (seen.Some? && !ToItself(p.plan) ==> rows[seen.value.row].amount == seen.value.amount)
  {
    hide Money.Less, Money.Sub, Paired;
    if p.plan.debit.Some? {
      var left := Money.Sub(p.held.amount, p.plan.debit.value.amount);
      Money.NeverNegative(p.held.amount, p.plan.debit.value.amount);
      FindAfterUpdate(rows, p.held.row, left, p.plan.credit.account);
      FindIs(rows, p.held.row);
    }
  }

  lemma CreditReadFits(s: State, pid: nat)
    requires Invariant(s) && ReadsCredit(s, pid)
    ensures Fits(s.db, ReadCreditStep(s, s.processes[pid]))
  {
    hide RowAt, WithDebit, Apart, KeyUsed, ShowsWrites, BooksKept, Sane, Screen, PlanFor, Paired, Find, Money.Less,
         Money.Add, Money.Sub, NormalizeKey;
    var p := s.processes[pid];
    assert Known(s.db, p);
    CreditRowRead(s.db.balances, p);
  }

  lemma ReadCreditKeeps(s: State, pid: nat)
    requires Invariant(s)
    ensures Invariant(Next(s, ReadCredit(pid)))
  {
    hide Invariant, Fits, RowAt, WithDebit;
    if ReadsCredit(s, pid) {
      CreditReadFits(s, pid);
      OwnStepKeeps(s, pid, ReadCreditStep(s, s.processes[pid]));
    }
  }

  /** What a commit does to the balance rows: only what the process holds changes. */
  ghost predicate Installs(rows: seq<BalanceRow>, rows': seq<BalanceRow>, p: Process) {
    && |rows| <= |rows'| && Unique(rows') && NonNegative(rows')
    && (forall i | 0 <= i < |rows| :: rows'[i].account == rows[i].account)
    && (forall i: nat | i < |rows| && !HoldsRow(p, i) :: rows'[i] == rows[i])
    && (forall a | !HoldsInsert(p, a) && Find(rows, a).None? :: Find(rows', a).None?)
  }

  lemma InstallRow(rows: seq<BalanceRow>, p: Process, i: nat, amount: int)
    requires Unique(rows) && NonNegative(rows) && i < |rows| && HoldsRow(p, i) && amount >= 0
    ensures Installs(rows, rows[i := BalanceRow(rows[i].account, amount)], p)
  {
    forall a | Find(rows, a).None? ensures Find(rows[i := BalanceRow(rows[i].account, amount)], a).None? {
      FindAfterUpdate(rows, i, amount, a);
    }
  }

  lemma InstallNewRow(rows: seq<BalanceRow>, p: Process, a: Account, amount: int)
    requires Unique(rows) && NonNegative(rows) && Find(rows, a).None? && HoldsInsert(p, a) && amount >= 0
    ensures Installs(rows, rows + [BalanceRow(a, amount)], p)
  {
    forall b | !HoldsInsert(p, b) && Find(rows, b).None? ensures Find(rows + [BalanceRow(a, amount)], b).None? {
      FindAfterAppend(rows, BalanceRow(a, amount), b);
    }
  }

  /** The rows a process has written, as they appear in the table. */
  ghost predicate WritesShow(rows: seq<BalanceRow>, p: Process)
    requires p.Running?
  {
    && (p.plan.debit.Some? && !ToItself(p.plan) ==>
          BalanceRow(p.plan.debit.value.account, Money.Sub(p.held.amount, p.plan.debit.value.amount)) in rows)
    && BalanceRow(p.plan.credit.account, p.credit.amount) in rows
  }

  /** The writes of a process: its locked rows change, its account is added. */
  lemma InstalledRows(s: State, pid: nat)
    requires Invariant(s) && pid in s.processes && HoldsCredit(s.processes[pid])
    ensures Installs(s.db.balances, WithWrites(s.db.balances, s.processes[pid]), s.processes[pid])
    ensures WritesShow(WithWrites(s.db.balances, s.processes[pid]), s.processes[pid])
  {
    var p, rows := s.processes[pid], s.db.balances;
    var debited := WithDebit(rows, p);
    assert Known(s.db, p);
    assert p.plan.debit.Some? ==> HoldsDebit(p);
    hide Sane, Screen, PlanFor, Paired, Money.Less, Money.Add, Money.Sub, NormalizeKey, BooksKept, Find;
    if p.plan.debit.Some? {
      Money.NeverNegative(p.held.amount, p.plan.debit.value.amount);
      InstallRow(rows, p, p.held.row, Money.Sub(p.held.amount, p.plan.debit.value.amount));
    }
    match p.credit
    case Update(row, amount) =>
      Money.NeverNegative(p.seen.value.amount, p.plan.credit.amount);
      InstallRow(debited, p, row, amount);
    case Insert(amount) =>
      if p.plan.debit.Some? {
        FindAfterUpdate(rows, p.held.row, debited[p.held.row].amount, p.plan.credit.account);
      }
      InstallNewRow(debited, p, p.plan.credit.account, amount);
  }

  lemma CommittedRows(s: State, pid: nat)
    requires Invariant(s) && At(s, pid, Saved)
    ensures Installs(s.db.balances, CommittedDb(s.db, s.processes[pid]).balances, s.processes[pid])
  {
    hide Invariant, Installs, WithWrites, WritesShow;
    InstalledRows(s, pid);
  }

  lemma ShownRow(rows: seq<BalanceRow>, row: BalanceRow, user: string)
    requires Unique(rows) && row in rows && row.account.user == user
    ensures row.account.currency in BalancesOf(rows, user) && BalancesOf(rows, user)[row.account.currency] == row.amount
  {
    var i :| 0 <= i < |rows| && rows[i] == row;
    RowShown(rows, i);
  }

  lemma ReadShowsWrites(s: State, pid: nat)
    requires Invariant(s) && At(s, pid, Credited)
    ensures ReadStep(s, s.processes[pid]).phase.BalancesRead? ==> ShowsWrites(ReadStep(s, s.processes[pid]))
  {
    var p, rows := s.processes[pid], WithWrites(s.db.balances, s.processes[pid]);
    InstalledRows(s, pid);
    assert Known(s.db, p);
    assert Unique(rows);
    hide WithWrites, BalancesOf, Sane, Screen, PlanFor, Paired, Money.Less, Money.Add, Money.Sub, Unique, Find,
        KeyUsed, Consistent;
    if p.plan.debit.Some? && !ToItself(p.plan) {
      ShownRow(rows, BalanceRow(p.plan.debit.value.account, Money.Sub(p.held.amount, p.plan.debit.value.amount)),
          p.plan.user);
    }
    if p.plan.credit.account.user == p.plan.user {
      ShownRow(rows, BalanceRow(p.plan.credit.account, p.credit.amount), p.plan.user);
    }
  }

  lemma ReadBalancesKeeps(s: State, pid: nat)
    requires Invariant(s) && At(s, pid, Credited)
    ensures Invariant(Next(s, ReadBalances(pid)))
  {
    hide Consistent, Apart, Sane, Screen, PlanFor, NormalizeKey, Paired, WithWrites, BalancesOf, Shows, KeyUsed,
         Find, Money.Less, Money.Add, Money.Sub;
    ReadShowsWrites(s, pid);
    assert Known(s.db, s.processes[pid]);
    OwnStepKeeps(s, pid, ReadStep(s, s.processes[pid]));
  }

  lemma SaveRecordKeeps(s: State, pid: nat)
    requires Invariant(s) && At(s, pid, BalancesRead)
    ensures Invariant(Put(s, pid, s.processes[pid].(phase := Saved)))
  {
    hide Consistent, Sane, Screen, PlanFor, WellFormed, Money.Less, Money.Add, NormalizeKey;
    assert Known(s.db, s.processes[pid]);
    OwnStepKeeps(s, pid, s.processes[pid].(phase := Saved));
  }

  lemma AbortKeeps(s: State, pid: nat, error: Error)
    requires Invariant(s) && pid in s.processes && Active(s.processes[pid])
    ensures Invariant(Put(s, pid, s.processes[pid].(phase := RolledBack(error))))
  {
    hide Consistent, Sane, Screen, PlanFor, WellFormed, Money.Less, Money.Add, NormalizeKey;
    assert Known(s.db, s.processes[pid]);
    OwnStepKeeps(s, pid, s.processes[pid].(phase := RolledBack(error)));
  }

  // ---------- steps that change the committed tables ----------

  /** The tables grow, and the rows, accounts and keys a process relies on stay as they are. */
  ghost predicate Spares(db: Database, db': Database, p: Process) {
    && |db.balances| <= |db'.balances| && db.entries <= db'.entries
    && (forall i | 0 <= i < |db.balances| :: db'.balances[i].account == db.balances[i].account)
    && (forall row: nat | row < |db.balances| && HoldsRow(p, row) :: db'.balances[row] == db.balances[row])
    && (forall a | HoldsInsert(p, a) && Find(db.balances, a).None? :: Find(db'.balances, a).None?)
    && (forall key | HoldsKey(p, key) && !KeyUsed(db.entries, key) :: !KeyUsed(db'.entries, key))
    && (forall r | r in db.idempotency :: r in db'.idempotency && db'.idempotency[r] == db.idempotency[r])
  }

  lemma SparedStaysKnown(db: Database, db': Database, p: Process)
    requires Known(db, p) && Spares(db, db', p)
    ensures Known(db', p)
  {
    hide Sane, Screen, PlanFor, Paired, Money.Less, Money.Add, NormalizeKey, Find, KeyUsed;
    if HoldsCredit(p) {
      assert p.credit.Insert? ==> HoldsInsert(p, p.plan.credit.account);
      assert p.inserted >= 1 && p.plan.key.Some? ==> HoldsKey(p, p.plan.key.value);
    }
    if HoldsDebit(p) {
      assert HoldsRow(p, p.held.row);
    }
  }

  lemma OpenDefaultKeeps(s: State, user: string)
    requires Invariant(s)
    ensures Invariant(Next(s, OpenDefault(user)))
  {
    var a := Account(user, "NGN");
    if Find(s.db.balances, a).None? && InsertFree(s, a) {
      var row := BalanceRow(a, 0);
      var db' := s.db.(balances := s.db.balances + [row]);
      assert Consistent(db');
      hide Known, Apart, Consistent;
      forall pid | pid in s.processes ensures Known(db', s.processes[pid]) {
        forall b | HoldsInsert(s.processes[pid], b) && Find(s.db.balances, b).None?
          ensures Find(db'.balances, b).None?
        {
          FindAfterAppend(s.db.balances, row, b);
        }
        SparedStaysKnown(s.db, db', s.processes[pid]);
      }
    }
  }

  lemma CommitSparesKeys(s: State, pid: nat, q: nat, key: string)
    requires Invariant(s) && At(s, pid, Saved) && q in s.processes && q != pid
    requires HoldsKey(s.processes[q], key) && !KeyUsed(s.db.entries, key)
    ensures !KeyUsed(s.db.entries + s.processes[pid].plan.entries, key)
  {
    hide Consistent, Sane, Screen, PlanFor, Paired, NormalizeKey, DebitFits, CreditFits, ShowsWrites, OwnDebitSeen,
         HoldsRow, HoldsInsert, Find;
    var p := s.processes[pid];
    assert Known(s.db, p) && Apart(p, s.processes[q]);
    assert !HoldsKey(p, key);
  }

  lemma CommitSparesRecords(s: State, pid: nat)
    requires Invariant(s) && At(s, pid, Saved) && s.processes[pid].plan.key.Some?
    ensures (s.processes[pid].plan.user, s.processes[pid].plan.key.value) !in s.db.idempotency
  {
    var p := s.processes[pid];
    assert Known(s.db, p);
    hide Sane, Screen, PlanFor, Paired, Money.Less, Money.Add, Money.Sub, NormalizeKey, Find;
    if (p.plan.user, p.plan.key.value) in s.db.idempotency {
      RecordUsesKey(s.db, p.plan.user, p.plan.key.value);
    }
  }

  lemma SparesOf(db: Database, db': Database, p: Process, other: Process)
    requires Installs(db.balances, db'.balances, p) && Apart(p, other) && db.entries <= db'.entries
    requires forall r | r in db.idempotency :: r in db'.idempotency && db'.idempotency[r] == db.idempotency[r]
    requires forall key | HoldsKey(other, key) && !KeyUsed(db.entries, key) :: !KeyUsed(db'.entries, key)
    ensures Spares(db, db', other)
  {
    hide Unique, NonNegative, Find, KeyUsed, HoldsRow, HoldsInsert, HoldsKey;
  }

  lemma CommitSpares(s: State, pid: nat, q: nat)
    requires Invariant(s) && At(s, pid, Saved) && q in s.processes && q != pid
    ensures Spares(s.db, CommittedDb(s.db, s.processes[pid]), s.processes[q])
  {
    var p, other := s.processes[pid], s.processes[q];
    CommittedRows(s, pid);
    assert Apart(p, other);
    hide Known, Consistent, WithWrites, KeyUsed, HoldsKey, Apart, Installs, Invariant;
    forall key | HoldsKey(other, key) && !KeyUsed(s.db.entries, key)
      ensures !KeyUsed(s.db.entries + p.plan.entries, key)
    {
      CommitSparesKeys(s, pid, q, key);
    }
    if p.plan.key.Some? {
      CommitSparesRecords(s, pid);
    }
    SparesOf(s.db, CommittedDb(s.db, p), p, other);
  }

  lemma CommitIsKnown(s: State, pid: nat)
    requires Invariant(s) && At(s, pid, Saved)
    ensures Consistent(CommittedDb(s.db, s.processes[pid]))
    ensures Known(CommittedDb(s.db, s.processes[pid]), s.processes[pid].(phase := Committed, at := |s.db.entries|))
  {
    var p := s.processes[pid];
    assert Known(s.db, p);
    CommittedRows(s, pid);
    hide Sane, Screen, PlanFor, Paired, Money.Less, Money.Add, Money.Sub, NormalizeKey, WithWrites, BooksKept;
    CommitKeepsBooks(s.db.entries, s.db.idempotency, p.plan, p.response);
  }

  lemma CommitKeeps(s: State, pid: nat)
    requires Invariant(s) && At(s, pid, Saved)
    ensures Invariant(Next(s, Commit(pid)))
  {
    hide Invariant, CommittedDb, Known, Apart, Consistent, Spares;
    var p' := s.processes[pid].(phase := Committed, at := |s.db.entries|);
    var db' := CommittedDb(s.db, s.processes[pid]);
    CommitIsKnown(s, pid);
    forall q | q in s.processes && q != pid ensures Known(db', s.processes[q]) && Apart(p', s.processes[q]) {
      CommitSpares(s, pid, q);
      OtherAfterCommit(s, pid, q);
    }
    Reassemble(s, pid, p', db');
  }

  lemma OtherAfterCommit(s: State, pid: nat, q: nat)
    requires Invariant(s) && At(s, pid, Saved) && q in s.processes && q != pid
    requires Spares(s.db, CommittedDb(s.db, s.processes[pid]), s.processes[q])
    ensures Known(CommittedDb(s.db, s.processes[pid]), s.processes[q])
    ensures Apart(s.processes[pid].(phase := Committed, at := |s.db.entries|), s.processes[q])
  {
    assert Known(s.db, s.processes[q]);
    SparedStaysKnown(s.db, CommittedDb(s.db, s.processes[pid]), s.processes[q]);
    hide CommittedDb, Sane, Screen, PlanFor, WellFormed, CreditFits, DebitFits, KeyUsed, NormalizeKey, Consistent;
  }

  lemma NextKeepsInvariant(s: State, a: Action)
    requires Invariant(s) && SaneAction(a)
    ensures Invariant(Next(s, a))
  {
    hide Invariant;
    match a
    case Arrive(pid, r, env) =>
      if pid !in s.processes {
        ArrivalIsKnown(s, pid, r, env);
        PutKeepsInvariant(s, pid, Arrival(s.db, r, env));
      }
    case Lock(pid) =>
      if At(s, pid, Waiting) && s.processes[pid].plan.debit.Some? { LockKeeps(s, pid); }
    case WriteDebit(pid) =>
      if At(s, pid, Locked) { WriteDebitKeeps(s, pid); }
    case ReadCredit(pid) => ReadCreditKeeps(s, pid);
    case WriteCredit(pid) =>
      if At(s, pid, CreditRead) { WriteCreditKeeps(s, pid); }
    case InsertEntry(pid) =>
      if At(s, pid, Credited) { InsertKeeps(s, pid); }
    case ReadBalances(pid) =>
      if At(s, pid, Credited) { ReadBalancesKeeps(s, pid); }
    case SaveRecord(pid) =>
      if At(s, pid, BalancesRead) { SaveRecordKeeps(s, pid); }
    case Commit(pid) =>
      if At(s, pid, Saved) { CommitKeeps(s, pid); }
    case Abort(pid, error) =>
      if pid in s.processes && Active(s.processes[pid]) { AbortKeeps(s, pid, error); }
    case OpenDefault(user) => OpenDefaultKeeps(s, user);
  }

  lemma {:induction false} ReachableStates(acts: seq<Action>)
    requires SaneSchedule(acts)
    ensures Invariant(Run(acts))
  {
    if acts != [] {
      ReachableStates(acts[..|acts| - 1]);
      NextKeepsInvariant(Run(acts[..|acts| - 1]), acts[|acts| - 1]);
    }
  }
}
