/** Safety of every schedule of concurrent money operations, lost updates included. */
module ConcurrentSafety {
  import opened Common
  import opened Ledger
  import opened Consistency
  import opened Concurrent

  /** The i-th action of the schedule commits a transaction. */
  ghost predicate Commits(acts: seq<Action>, i: nat) {
    i < |acts| && acts[i].Commit? && At(Run(acts[..i]), acts[i].pid, Saved)
  }

  ghost function Committer(acts: seq<Action>, i: nat): Process
    requires Commits(acts, i)
  {
    Run(acts[..i]).processes[acts[i].pid]
  }

  lemma PrefixIsSane(acts: seq<Action>, i: nat)
    requires SaneSchedule(acts) && i <= |acts|
    ensures SaneSchedule(acts[..i]) && Invariant(Run(acts[..i]))
  {
    hide Invariant;
    ReachableStates(acts[..i]);
  }

  lemma RunStep(acts: seq<Action>, i: nat)
    requires i < |acts|
    ensures Run(acts[..i + 1]) == Next(Run(acts[..i]), acts[i])
  {
    assert acts[..i + 1][..i] == acts[..i];
  }

  /** Money moves only at a commit; opening a default wallet adds an empty balance. */
  lemma OnlyCommitsMoveMoney(s: State, a: Action)
    ensures match a
            case Commit(pid) => At(s, pid, Saved) || Next(s, a) == s
            case OpenDefault(user) => Next(s, a).db == s.db
              || Next(s, a).db == s.db.(balances := s.db.balances + [BalanceRow(Account(user, "NGN"), 0)])
            case _ => Next(s, a).db == s.db
  {
  }

  /** The ledger is append-only, records are never overwritten, and a commit is final. */
  ghost predicate Extends(s: State, t: State) {
    && s.db.entries <= t.db.entries
    && (forall r | r in s.db.idempotency :: r in t.db.idempotency && t.db.idempotency[r] == s.db.idempotency[r])
    && (forall pid | pid in s.processes && s.processes[pid].Running? && s.processes[pid].phase.Committed? ::
          pid in t.processes && t.processes[pid] == s.processes[pid])
  }

  lemma CommitExtends(s: State, pid: nat)
    requires Invariant(s) && At(s, pid, Saved)
    ensures Extends(s, Next(s, Commit(pid)))
  {
    hide Invariant, LockStep, InsertStep, WriteCreditStep, ReadStep, Arrival, WithWrites;
    if s.processes[pid].plan.key.Some? {
      CommitSparesRecords(s, pid);
    }
  }

  lemma NextExtends(s: State, a: Action)
    requires Invariant(s)
    ensures Extends(s, Next(s, a))
  {
    hide Invariant, LockStep, InsertStep, WriteCreditStep, ReadStep, Arrival, CommittedDb, KeyFree, RecordFree, RowFree;
    if a.Commit? && At(s, a.pid, Saved) {
      CommitExtends(s, a.pid);
    }
  }

  lemma ExtendsReflexive(s: State)
    ensures Extends(s, s)
  {
  }

  lemma ExtendsTransitive(s: State, t: State, u: State)
    requires Extends(s, t) && Extends(t, u)
    ensures Extends(s, u)
  {
  }

  lemma {:induction false} SchedulesExtend(acts: seq<Action>, i: nat, j: nat)
    requires SaneSchedule(acts) && i <= j <= |acts|
    ensures Extends(Run(acts[..i]), Run(acts[..j]))
    decreases j
  {
    hide Invariant, Run, Next, Extends, SaneSchedule;
    if i == j {
      ExtendsReflexive(Run(acts[..i]));
    } else {
      SchedulesExtend(acts, i, j - 1);
      PrefixIsSane(acts, j - 1);
      RunStep(acts, j - 1);
      NextExtends(Run(acts[..j - 1]), acts[j - 1]);
      ExtendsTransitive(Run(acts[..i]), Run(acts[..j - 1]), Run(acts[..j]));
    }
  }

  /** A commit leaves its ledger row, its record and a final state behind. */
  lemma CommitLeaves(acts: seq<Action>, i: nat)
    requires SaneSchedule(acts) && Commits(acts, i)
    ensures var t, p := Run(acts[..i + 1]), Committer(acts, i);
            && acts[i].pid in t.processes
            && t.processes[acts[i].pid] == p.(phase := Committed, at := |Run(acts[..i]).db.entries|)
            && Known(t.db, t.processes[acts[i].pid])
            && (p.plan.key.Some? ==> KeyUsed(t.db.entries, p.plan.key.value))
            && (p.plan.key.Some? ==> !KeyUsed(Run(acts[..i]).db.entries, p.plan.key.value))
  {
    PrefixIsSane(acts, i);
    RunStep(acts, i);
    var s, pid := Run(acts[..i]), acts[i].pid;
    CommitIsKnown(s, pid);
    assert Known(s.db, s.processes[pid]);
    var t := Next(s, acts[i]);
    assert Fits(t.db, t.processes[pid]);
    hide Invariant, Run, Sane, Screen, PlanFor, Paired, WithWrites, NormalizeKey;
    assert t.db.entries[|s.db.entries|] == s.processes[pid].plan.entries[0];
  }

  /** A request retried or raced under one key moves money at most once. */
  lemma MoneyMovesOncePerKey(acts: seq<Action>, i: nat, j: nat, key: string)
    requires SaneSchedule(acts) && Commits(acts, i) && Commits(acts, j)
    requires Committer(acts, i).plan.key == Some(key) && Committer(acts, j).plan.key == Some(key)
    ensures i == j
  {
    hide Run, Known;
    if i < j {
      CommitLeaves(acts, i);
      CommitLeaves(acts, j);
      SchedulesExtend(acts, i + 1, j);
    } else if j < i {
      CommitLeaves(acts, j);
      CommitLeaves(acts, i);
      SchedulesExtend(acts, j + 1, i);
    }
  }

  /** What became of another process with the winner's key: a replay of the stored answer, to the
      same user, or no commit at all. */
  ghost predicate Lost(winner: Process, p: Process)
    requires winner.Running?
  {
    match p
    case Refused(_, _) => true
    case Replayed(r, response) => r.user == winner.plan.user && response == winner.response
    case Running(_, _, _, phase, _, _, _, _, _, _) => !phase.Committed?
  }

  lemma LosersDoNotMoveMoney(acts: seq<Action>, i: nat, pid: nat)
    requires SaneSchedule(acts) && Commits(acts, i) && Committer(acts, i).plan.key.Some?
    requires pid in Run(acts).processes && pid != acts[i].pid
    requires Run(acts).processes[pid].request.Key() == Committer(acts, i).plan.key
    ensures Lost(Committer(acts, i), Run(acts).processes[pid])
  {
    var winner, s, p := Committer(acts, i), Run(acts), Run(acts).processes[pid];
    CommitLeaves(acts, i);
    SchedulesExtend(acts, i + 1, |acts|);
    PrefixIsSane(acts, |acts|);
    assert acts[..|acts|] == acts;
    LoserIn(s, acts[i].pid, pid);
  }

  lemma CommittedRowsDiffer(s: State, p: nat, q: nat)
    requires Invariant(s) && p in s.processes && q in s.processes && p != q
    requires s.processes[p].Running? && s.processes[p].phase.Committed? && s.processes[p].plan.key.Some?
    requires s.processes[q].Running? && s.processes[q].phase.Committed?
    ensures s.processes[p].plan.key != s.processes[q].plan.key
  {
    assert Known(s.db, s.processes[p]) && Known(s.db, s.processes[q]) && Apart(s.processes[p], s.processes[q]);
    hide Sane, Screen, PlanFor, Paired, NormalizeKey, Find, Money.Less, Money.Add;
  }

  lemma LoserIn(s: State, w: nat, pid: nat)
    requires Invariant(s) && w in s.processes && pid in s.processes && w != pid
    requires s.processes[w].Running? && s.processes[w].phase.Committed? && s.processes[w].plan.key.Some?
    requires s.processes[pid].request.Key() == s.processes[w].plan.key
    ensures Lost(s.processes[w], s.processes[pid])
  {
    hide Invariant;
    match s.processes[pid]
    case Refused(_, _) =>
    case Replayed(_, _) =>
      ReplayIsTheWinners(s, w, pid);
    case Running(_, _, _, phase, _, _, _, _, _, _) =>
      if phase.Committed? {
        CommittedHasItsKey(s, pid);
        CommittedRowsDiffer(s, w, pid);
        assert false;
      }
  }

  lemma CommittedHasItsKey(s: State, pid: nat)
    requires Invariant(s) && pid in s.processes && s.processes[pid].Running?
    ensures s.processes[pid].plan.key == s.processes[pid].request.Key()
  {
    assert Known(s.db, s.processes[pid]);
    hide Sane, Screen, PlanFor, Paired, NormalizeKey, Find, Consistent, Apart;
  }

  /** A record is found under the winner's key only if it is the winner's. */
  lemma ReplayIsTheWinners(s: State, w: nat, pid: nat)
    requires Invariant(s) && w in s.processes && pid in s.processes
    requires s.processes[w].Running? && s.processes[w].phase.Committed? && s.processes[w].plan.key.Some?
    requires s.processes[pid].Replayed? && s.processes[pid].request.Key() == s.processes[w].plan.key
    ensures Lost(s.processes[w], s.processes[pid])
  {
    var winner, r, response := s.processes[w], s.processes[pid].request, s.processes[pid].response;
    assert Known(s.db, winner) && Known(s.db, s.processes[pid]);
    hide Sane, Screen, PlanFor, Paired, NormalizeKey, Find, Apart, DebitFits, CreditFits, ShowsWrites, Unique,
        NonNegative;
    assert Backed(s.db.entries, r.user, r.Key().value, response.transactionId);
  }

  /** In every reachable state: one row per (user, currency), and no negative balance. */
  lemma BalancesStayProper(acts: seq<Action>)
    requires SaneSchedule(acts)
    ensures Unique(Run(acts).db.balances) && NonNegative(Run(acts).db.balances)
  {
    ReachableStates(acts);
  }

  /** In every reachable state a record exists exactly for a ledger row with that user and key. */
  lemma RecordsMatchLedger(acts: seq<Action>, user: string, key: string)
    requires SaneSchedule(acts)
    ensures var db := Run(acts).db;
            && ((user, key) in db.idempotency <==>
                exists i :: 0 <= i < |db.entries| && db.entries[i].user == user && db.entries[i].key == Some(key))
            && (forall i | 0 <= i < |db.entries| && db.entries[i].user == user && db.entries[i].key == Some(key) ::
                (user, key) in db.idempotency && db.idempotency[(user, key)].transactionId == db.entries[i].id)
  {
    hide Run;
    ReachableStates(acts);
    var db := Run(acts).db;
    if (user, key) in db.idempotency {
      assert Backed(db.entries, user, key, db.idempotency[(user, key)].transactionId);
    }
  }

  /** And it never changes, although saving a record is an upsert. */
  lemma RecordsNeverChange(acts: seq<Action>, i: nat, user: string, key: string)
    requires SaneSchedule(acts) && i <= |acts| && (user, key) in Run(acts[..i]).db.idempotency
    ensures (user, key) in Run(acts).db.idempotency
    ensures Run(acts).db.idempotency[(user, key)] == Run(acts[..i]).db.idempotency[(user, key)]
  {
    SchedulesExtend(acts, i, |acts|);
    assert acts[..|acts|] == acts;
  }

  /** The sum of the ledger rows of one kind in one currency. */
  function KindTotal(entries: seq<Entry>, kind: Kind, currency: string): int {
    if entries == [] then 0
    else
      var e := entries[|entries| - 1];
      KindTotal(entries[..|entries| - 1], kind, currency)
        + if e.kind == kind && e.currency == Some(currency) then e.amount else 0
  }

  lemma {:induction false} PairsBalance(entries: seq<Entry>, currency: string)
    requires Paired(entries)
    ensures KindTotal(entries, TransferOut, currency) == KindTotal(entries, TransferIn, currency)
    decreases |entries|
  {
    var n := |entries|;
    if n > 0 {
      if entries[n - 1].kind == TransferIn {
        assert entries[..n - 1][..n - 2] == entries[..n - 2];
        assert IsPair(entries[n - 2], entries[n - 1]);
        PairsBalance(entries[..n - 2], currency);
      } else {
        PairsBalance(entries[..n - 1], currency);
      }
    }
  }

  ghost predicate NoSelfTransfer(acts: seq<Action>) {
    forall i: nat | Commits(acts, i) :: !SelfTransfer(Committer(acts, i).request)
  }

  lemma NoSelfTransferSoFar(acts: seq<Action>)
    requires acts != []
    ensures var n := |acts| - 1;
            NoSelfTransfer(acts) <==>
            NoSelfTransfer(acts[..n]) && (Commits(acts, n) ==> !SelfTransfer(Committer(acts, n).request))
  {
    hide Next, Run;
    var before := acts[..|acts| - 1];
    forall i: nat | i < |before| ensures Commits(before, i) <==> Commits(acts, i)
      ensures Commits(acts, i) ==> Committer(before, i) == Committer(acts, i)
    {
      assert before[..i] == acts[..i];
    }
  }

  /** The two rows of a transfer are of different users, unless some committed transfer spelt its
      caller's own id in another letter case. */
  lemma {:induction false} PairsDifferExactly(acts: seq<Action>)
    requires SaneSchedule(acts)
    ensures PairsDiffer(Run(acts).db.entries) <==> NoSelfTransfer(acts)
  {
    if acts != [] {
      var n := |acts| - 1;
      var s := Run(acts[..n]);
      PrefixIsSane(acts, n);
      PairsDifferExactly(acts[..n]);
      NoSelfTransferSoFar(acts);
      RunStep(acts, n);
      assert acts[..n + 1] == acts;
      OnlyCommitsAddEntries(s, acts[n]);
      if Commits(acts, n) {
        assert Known(s.db, s.processes[acts[n].pid]);
        hide Run, Next, Sane, Screen, PlanFor, SelfTransfer, PairsDiffer, NoSelfTransfer, Paired;
        PlanPairsDiffer(s.processes[acts[n].pid].request, s.processes[acts[n].pid].env);
        PairsDifferAppend(s.db.entries, s.processes[acts[n].pid].plan.entries);
      }
    }
  }

  lemma OnlyCommitsAddEntries(s: State, a: Action)
    ensures Next(s, a).db.entries ==
            if a.Commit? && At(s, a.pid, Saved) then s.db.entries + s.processes[a.pid].plan.entries else s.db.entries
  {
    hide LockStep, InsertStep, WriteCreditStep, ReadCreditStep, ReadStep, Arrival, WithWrites, KeyFree, RecordFree,
        RowFree;
  }

  /** Transfers between users are recorded twice or not at all: the rows pair up one to one with
      equal amount and currency, so what was sent was received; and they are of different users
      exactly if no committed transfer was one to the caller. */
  lemma TransfersPairUp(acts: seq<Action>, currency: string)
    requires SaneSchedule(acts)
    ensures var entries := Run(acts).db.entries;
            && Paired(entries)
            && KindTotal(entries, TransferOut, currency) == KindTotal(entries, TransferIn, currency)
            && (PairsDiffer(entries) <==> NoSelfTransfer(acts))
  {
    ReachableStates(acts);
    PairsDifferExactly(acts);
    hide Run, NoSelfTransfer;
    PairsBalance(Run(acts).db.entries, currency);
  }

  /** The response of a transaction shows, for the accounts of its user that it wrote itself, the
      balances committed with it: those rows are held from the write to the commit. Other rows in
      the response may be out of date. */
  lemma ResponseShowsOwnWrites(acts: seq<Action>, i: nat)
    requires SaneSchedule(acts) && Commits(acts, i)
    ensures var p, rows := Committer(acts, i), Run(acts[..i + 1]).db.balances;
            && (forall posting | p.plan.debit == Some(posting) && !ToItself(p.plan) ::
                Find(rows, posting.account).Some?
                && Shows(p.response, posting.account.currency, rows[Find(rows, posting.account).value].amount))
            && Find(rows, p.plan.credit.account).Some?
            && (p.plan.credit.account.user == p.plan.user ==>
                Shows(p.response, p.plan.credit.account.currency, rows[Find(rows, p.plan.credit.account).value].amount))
  {
    PrefixIsSane(acts, i);
    RunStep(acts, i);
    hide Run;
    var s, pid := Run(acts[..i]), acts[i].pid;
    var p := s.processes[pid];
    InstalledRows(s, pid);
    assert Known(s.db, p);
    var rows := WithWrites(s.db.balances, p);
    hide WithWrites, Sane, Screen, PlanFor, Paired, Money.Less, Money.Add, Money.Sub, NormalizeKey, KeyUsed,
        Consistent, Find;
    if p.plan.debit.Some? && !ToItself(p.plan) {
      FoundRow(rows, BalanceRow(p.plan.debit.value.account, Money.Sub(p.held.amount, p.plan.debit.value.amount)));
    }
    FoundRow(rows, BalanceRow(p.plan.credit.account, p.credit.amount));
  }

  lemma FoundRow(rows: seq<BalanceRow>, row: BalanceRow)
    requires Unique(rows) && row in rows
    ensures Find(rows, row.account).Some? && rows[Find(rows, row.account).value] == row
  {
    var i :| 0 <= i < |rows| && rows[i] == row;
    FindIs(rows, i);
  }
}
