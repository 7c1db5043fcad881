/** Exactly when a step of a concurrent operation proceeds, waits or rolls its operation back. */
module Waiting {
  import opened Common
  import opened Ledger
  import opened Consistency
  import opened Concurrent
  import opened ConcurrentSafety
  import Serial = SerialRuns
  import Money

  /** The amount is less, exactly so if one of the two is at most 2^39 units. */
  predicate TooLittle(held: int, amount: int) {
    if held <= 2 * Money.BOUND || amount <= 2 * Money.BOUND then held < amount else Money.Less(held, amount)
  }

  /** The payer of the request has no row, or one with too little. */
  predicate PayerShort(rows: seq<BalanceRow>, r: Request) {
    Serial.Payer(r).Some? &&
      (Find(rows, Serial.Payer(r).value).None?
       || TooLittle(rows[Find(rows, Serial.Payer(r).value).value].amount, Money.Fixed4(r.amount)))
  }

  /** The process has locked the row it takes money from, or written the one it pays into. */
  predicate Locks(p: Process, a: Account) {
    && p.Running?
    && ((p.phase in {Locked, Debited, CreditRead, Credited, BalancesRead, Saved} && Serial.Payer(p.request) == Some(a))
        || (p.phase in {Credited, BalancesRead, Saved} && p.credit.Update? && p.plan.credit.account == a))
  }

  lemma PlanOf(s: State, pid: nat)
    requires Invariant(s) && pid in s.processes && s.processes[pid].Running?
    ensures var p := s.processes[pid];
            && p.plan.user == p.request.user && p.plan.key == p.request.Key() && p.plan.entries != []
            && p.plan.entries[0].key == p.plan.key
            && (forall i | 1 <= i < |p.plan.entries| :: p.plan.entries[i].key.None?)
            && Money.Fixed4(p.request.amount) >= 0
            && p.plan.debit == match Serial.Payer(p.request)
                               case None => None
                               case Some(a) => Some(Posting(a, Money.Fixed4(p.request.amount)))
  {
    hide Apart, Consistent, DebitFits, CreditFits, ShowsWrites, OwnDebitSeen, CommittedFits, KeyUsed, Paired,
         Screen, PlanFor, Serial.Payer, Money.Fixed4, NormalizeKey;
    assert Known(s.db, s.processes[pid]);
    Serial.PayerPays(s.processes[pid].request, s.processes[pid].env);
  }

  /** A row is held exactly by the processes that lock its account. */
  lemma HeldExactly(s: State, pid: nat, row: nat)
    requires Invariant(s) && pid in s.processes && row < |s.db.balances|
    ensures HoldsRow(s.processes[pid], row) <==> Locks(s.processes[pid], s.db.balances[row].account)
  {
    if s.processes[pid].Running? {
      PlanOf(s, pid);
      hide Apart, BooksKept, ShowsWrites, OwnDebitSeen, CommittedFits, KeyUsed, WellFormed, Sane, Screen, PlanFor,
           Serial.Payer, Money.Fixed4, Money.Less, Money.Add, NormalizeKey, Find;
      assert Known(s.db, s.processes[pid]);
    }
  }

  ghost predicate Taken(s: State, pid: nat, a: Account) {
    exists q | q in s.processes && q != pid :: Locks(s.processes[q], a)
  }

  lemma FreeExactly(s: State, pid: nat, row: nat)
    requires Invariant(s) && row < |s.db.balances|
    ensures RowFree(s, pid, row) <==> !Taken(s, pid, s.db.balances[row].account)
  {
    hide Invariant, HoldsRow, Locks;
    forall q | q in s.processes
      ensures HoldsRow(s.processes[q], row) <==> Locks(s.processes[q], s.db.balances[row].account)
    {
      HeldExactly(s, q, row);
    }
  }

  lemma LessIsTooLittle(held: int, amount: int)
    requires held >= 0 && amount >= 0
    ensures Money.Less(held, amount) <==> TooLittle(held, amount)
  {
    if held <= 2 * Money.BOUND || amount <= 2 * Money.BOUND {
      Money.LessExact(held, amount);
    }
  }

  lemma LockFacts(s: State, pid: nat)
    requires Invariant(s) && At(s, pid, Phase.Waiting) && Serial.Payer(s.processes[pid].request).Some?
    ensures var p, a := s.processes[pid], Serial.Payer(s.processes[pid].request).value;
            && p.plan.debit == Some(Posting(a, Money.Fixed4(p.request.amount)))
            && match Find(s.db.balances, a)
               case None => true
               case Some(row) =>
                 && (RowFree(s, pid, row) <==> !Taken(s, pid, a))
                 && (Money.Less(s.db.balances[row].amount, p.plan.debit.value.amount)
                     <==> TooLittle(s.db.balances[row].amount, Money.Fixed4(p.request.amount)))
  {
    hide Known, Apart, BooksKept, Unique, Taken, RowFree, TooLittle, Serial.Payer, Money.Fixed4, Money.Less,
        NormalizeKey;
    PlanOf(s, pid);
    var r := s.processes[pid].request;
    var row := Find(s.db.balances, Serial.Payer(r).value);
    if row.Some? {
      FreeExactly(s, pid, row.value);
      assert s.db.balances[row.value].amount >= 0;
      LessIsTooLittle(s.db.balances[row.value].amount, Money.Fixed4(r.amount));
    }
  }

  /** Locking the payer's row: refused if there is none or, when free, too little in it; it waits
      exactly while another operation has locked or written it; otherwise it goes on. */
  lemma LockExactly(s: State, pid: nat)
    requires Invariant(s) && At(s, pid, Phase.Waiting) && Serial.Payer(s.processes[pid].request).Some?
    ensures var r, t := s.processes[pid].request, Next(s, Lock(pid));
            var a, row := Serial.Payer(r).value, Find(s.db.balances, Serial.Payer(r).value);
            && t.db == s.db && pid in t.processes && t.processes[pid].Running?
            && (t.processes[pid].phase == RolledBack(InsufficientBalance) <==>
                  PayerShort(s.db.balances, r) && (row.None? || !Taken(s, pid, a)))
            && (t == s <==> row.Some? && Taken(s, pid, a))
            && (t.processes[pid].phase == Locked <==>
                  row.Some? && !Taken(s, pid, a) && !PayerShort(s.db.balances, r))
            && (t.processes[pid].phase == Locked ==>
                  t.processes[pid].held == RowRead(row.value, s.db.balances[row.value].amount))
  {
    hide Invariant, Taken, RowFree, TooLittle, Serial.Payer, Money.Fixed4, Money.Less, Find, NormalizeKey;
    LockFacts(s, pid);
  }

  /** Another operation has inserted a row for the account and not ended. */
  ghost predicate Inserting(s: State, a: Account) {
    exists q | q in s.processes :: var p := s.processes[q];
      p.Running? && p.phase in {Credited, BalancesRead, Saved} && p.credit.Insert? && p.plan.credit.account == a
  }

  lemma InsertFreeExactly(s: State, a: Account)
    ensures InsertFree(s, a) <==> !Inserting(s, a)
  {
  }

  lemma SeenRowIs(s: State, pid: nat)
    requires Invariant(s) && At(s, pid, CreditRead) && s.processes[pid].seen.Some?
    ensures IsRow(s.db.balances, s.processes[pid].seen.value.row, s.processes[pid].plan.credit.account)
  {
    assert Known(s.db, s.processes[pid]);
  }

  /** Writing the credit: of an account read without a row, a row committed since refuses it; it
      waits exactly while another operation inserts that row, or holds the one that was read. */
  lemma WriteCreditExactly(s: State, pid: nat)
    requires Invariant(s) && At(s, pid, CreditRead)
    ensures var p, t := s.processes[pid], Next(s, WriteCredit(pid));
            var a := p.plan.credit.account;
            && t.db == s.db && pid in t.processes && t.processes[pid].Running?
            && (t.processes[pid].phase == RolledBack(DuplicateBalance) <==>
                  p.seen.None? && Find(s.db.balances, a).Some?)
            && (t == s <==> if p.seen.None? then Find(s.db.balances, a).None? && Inserting(s, a) else Taken(s, pid, a))
            && (t.processes[pid].phase == Credited <==>
                  if p.seen.None? then Find(s.db.balances, a).None? && !Inserting(s, a) else !Taken(s, pid, a))
            && (t.processes[pid].phase == Credited ==>
                  t.processes[pid].credit == match p.seen
                                             case None => Insert(p.plan.credit.amount)
                                             case Some(seen) =>
                                               Update(seen.row, Money.Add(seen.amount, p.plan.credit.amount)))
  {
    hide Invariant, Taken, RowFree, Money.Add, Find;
    InsertFreeExactly(s, s.processes[pid].plan.credit.account);
    hide Inserting, InsertFree;
    if s.processes[pid].seen.Some? {
      SeenRowIs(s, pid);
      FreeExactly(s, pid, s.processes[pid].seen.value.row);
    }
  }

  /** A committed ledger row has the key. */
  ghost predicate Written(db: Database, key: string) {
    exists i | 0 <= i < |db.entries| :: db.entries[i].key == Some(key)
  }

  /** Another operation has inserted a row with the key and not ended. */
  ghost predicate Pending(s: State, pid: nat, key: string) {
    exists q | q in s.processes && q != pid :: var p := s.processes[q];
      p.Running? && p.phase in {Credited, BalancesRead, Saved} && p.inserted >= 1 && p.request.Key() == Some(key)
  }

  lemma KeyFreeExactly(s: State, pid: nat, key: string)
    requires Invariant(s)
    ensures KeyFree(s, pid, key) <==> !Pending(s, pid, key)
  {
    forall q | q in s.processes && s.processes[q].Running?
      ensures s.processes[q].plan.key == s.processes[q].request.Key()
    {
      PlanOf(s, q);
    }
    hide Invariant, NormalizeKey;
  }

  /** Inserting the row with the operation's key: refused if a committed row has it, whoever's; it
      waits exactly while another operation has inserted it. Rows without a key are just inserted. */
  lemma InsertExactly(s: State, pid: nat)
    requires Invariant(s) && At(s, pid, Credited) && s.processes[pid].inserted < |s.processes[pid].plan.entries|
    ensures var p, t := s.processes[pid], Next(s, InsertEntry(pid));
            var key := if p.inserted == 0 then p.request.Key() else None;
            && t.db == s.db && pid in t.processes && t.processes[pid].Running?
            && (t.processes[pid].phase == RolledBack(DuplicateKey) <==> key.Some? && Written(s.db, key.value))
            && (t == s <==> key.Some? && !Written(s.db, key.value) && Pending(s, pid, key.value))
            && (t.processes[pid].inserted == p.inserted + 1 <==>
                  key.Some? ==> !Written(s.db, key.value) && !Pending(s, pid, key.value))
  {
    hide Invariant, Pending, KeyFree, NormalizeKey, Money.Fixed4, Serial.Payer;
    PlanOf(s, pid);
    if s.processes[pid].plan.key.Some? {
      KeyFreeExactly(s, pid, s.processes[pid].plan.key.value);
    }
  }

  /** Another operation of the user has saved its record under the key and not ended. */
  ghost predicate Saving(s: State, pid: nat, user: string, key: string) {
    exists q | q in s.processes && q != pid :: var p := s.processes[q];
      p.Running? && p.phase == Saved && p.request.user == user && p.request.Key() == Some(key)
  }

  lemma RecordFreeExactly(s: State, pid: nat, user: string, key: string)
    requires Invariant(s)
    ensures RecordFree(s, pid, user, key) <==> !Saving(s, pid, user, key)
  {
    hide Invariant, NormalizeKey, Serial.Payer, Money.Fixed4;
    forall q | q in s.processes && s.processes[q].Running?
      ensures s.processes[q].plan.key == s.processes[q].request.Key()
      ensures s.processes[q].plan.user == s.processes[q].request.user
    {
      PlanOf(s, q);
    }
  }

  /** Saving the record waits exactly for such an operation. */
  lemma SaveExactly(s: State, pid: nat)
    requires Invariant(s) && At(s, pid, BalancesRead)
    ensures var r, t := s.processes[pid].request, Next(s, SaveRecord(pid));
            && (t == s <==> r.Key().Some? && Saving(s, pid, r.user, r.Key().value))
            && (At(t, pid, Saved) <==> t != s)
  {
    hide Invariant, NormalizeKey, Saving, RecordFree, Serial.Payer, Money.Fixed4;
    PlanOf(s, pid);
    var r := s.processes[pid].request;
    if r.Key().Some? {
      RecordFreeExactly(s, pid, r.user, r.Key().value);
    }
  }

  /** Committing never waits. */
  lemma CommitGoesOn(s: State, pid: nat)
    requires At(s, pid, Saved)
    ensures At(Next(s, Commit(pid)), pid, Committed)
  {
    hide CommittedDb;
  }

  /** An abort rolls back whatever is under way, at any step: the tables stay, and everything that
      the operation held is free. */
  lemma AbortEnds(s: State, pid: nat, error: Error)
    requires pid in s.processes && Active(s.processes[pid])
    ensures var t := Next(s, Abort(pid, error));
            && t.db == s.db && t.processes == s.processes[pid := t.processes[pid]]
            && At(t, pid, RolledBack(error)) && t.processes[pid].request == s.processes[pid].request
            && (forall a :: !Locks(t.processes[pid], a))
            && (forall row: nat :: !HoldsRow(t.processes[pid], row))
            && (forall a :: !HoldsInsert(t.processes[pid], a))
            && (forall key :: !HoldsKey(t.processes[pid], key))
            && (forall user, key :: !HoldsRecord(t.processes[pid], user, key))
  {
  }

  // ---------- over whole schedules ----------

  ghost predicate NoAbort(acts: seq<Action>) { forall i | 0 <= i < |acts| :: !acts[i].Abort? }

  /** Why the action rolls the process back in this state. */
  ghost predicate Reason(s: State, a: Action, pid: nat, r: Request, error: Error) {
    match error
    case InsufficientBalance => a == Lock(pid) && PayerShort(s.db.balances, r)
    case DuplicateKey => a == InsertEntry(pid) && r.Key().Some? && Written(s.db, r.Key().value)
    case DuplicateBalance =>
      && a == WriteCredit(pid) && At(s, pid, CreditRead) && s.processes[pid].seen.None?
      && Find(s.db.balances, s.processes[pid].plan.credit.account).Some?
    case _ => false
  }

  ghost predicate FailedWith(s: State, pid: nat, r: Request, error: Error) {
    At(s, pid, RolledBack(error)) && s.processes[pid].request == r
  }

  lemma StepHasReason(s: State, a: Action, pid: nat, r: Request, error: Error)
    requires Invariant(s) && FailedWith(Next(s, a), pid, r, error) && !FailedWith(s, pid, r, error) && !a.Abort?
    ensures Reason(s, a, pid, r, error)
  {
    hide Invariant, PayerShort, Taken, Inserting, Written, Pending, Next, Find, NormalizeKey, Money.Fixed4,
        Serial.Payer;
    StepOfItsOwn(s, a, pid, r, error);
    PlanOf(s, pid);
    match a
    case Lock(_) => LockExactly(s, pid);
    case WriteCredit(_) => WriteCreditExactly(s, pid);
    case InsertEntry(_) => InsertExactly(s, pid);
  }

  /** Only these three steps of its own roll a process back. */
  lemma StepOfItsOwn(s: State, a: Action, pid: nat, r: Request, error: Error)
    requires FailedWith(Next(s, a), pid, r, error) && !FailedWith(s, pid, r, error) && !a.Abort?
    ensures pid in s.processes && s.processes[pid].Running? && s.processes[pid].request == r
    ensures || (a == Lock(pid) && At(s, pid, Phase.Waiting) && s.processes[pid].plan.debit.Some?
                && error == InsufficientBalance)
            || (a == WriteCredit(pid) && At(s, pid, CreditRead) && error == DuplicateBalance)
            || (a == InsertEntry(pid) && At(s, pid, Credited) && error == DuplicateKey
                && s.processes[pid].inserted < |s.processes[pid].plan.entries|)
  {
    hide Find, KeyUsed, RowFree, KeyFree, RecordFree, InsertFree, CommittedDb, WithWrites, WithDebit, BalancesOf,
         Screen, Lookup, PlanFor, Money.Less, Money.Add;
  }

  /** Without aborts, an operation ends with InsufficientBalance only if at its locked read its payer
      had no committed row or too little in it, with DuplicateKey only if a committed ledger row had
      its key, and otherwise only because its missing row was committed by another. */
  lemma {:induction false} RefusedForAReason(acts: seq<Action>, pid: nat, r: Request, error: Error)
    requires SaneSchedule(acts) && NoAbort(acts) && FailedWith(Run(acts), pid, r, error)
    ensures exists i | 0 <= i < |acts| :: Reason(Run(acts[..i]), acts[i], pid, r, error)
  {
    hide Reason, Invariant, Next;
    var n := |acts| - 1;
    PrefixIsSane(acts, n);
    RunStep(acts, n);
    assert acts[..n + 1] == acts;
    if FailedWith(Run(acts[..n]), pid, r, error) {
      RefusedForAReason(acts[..n], pid, r, error);
      var i :| 0 <= i < n && Reason(Run(acts[..n][..i]), acts[..n][i], pid, r, error);
      assert acts[..n][..i] == acts[..i];
    } else {
      StepHasReason(Run(acts[..n]), acts[n], pid, r, error);
    }
  }
}
