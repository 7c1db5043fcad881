/** The hypothesis of the refinement cannot be dropped: a schedule that loses an update. */
module LostUpdate {
  import opened Common
  import opened Ledger
  import opened Consistency
  import opened Concurrent
  import opened ConcurrentSafety
  import Money

  const ADA := Account("ada", "NGN")

  const FUNDING := FundRequest("ada", "NGN", 1.0, None)

  const ENV := Environment({}, None, "id", "")

  /** Both processes read the empty wallet before either writes. */
  const READS := [OpenDefault("ada"), Arrive(1, FUNDING, ENV), Arrive(2, FUNDING, ENV), ReadCredit(1), ReadCredit(2)]

  function Rest(pid: nat): seq<Action> {
    [WriteCredit(pid), InsertEntry(pid), ReadBalances(pid), SaveRecord(pid), Commit(pid)]
  }

  lemma RunSnoc(acts: seq<Action>, a: Action)
    ensures Run(acts + [a]) == Next(Run(acts), a)
  {
    assert (acts + [a])[..|acts|] == acts;
  }

  lemma RunFive(acts: seq<Action>, a: Action, b: Action, c: Action, d: Action, e: Action)
    ensures Run(acts + [a, b, c, d, e]) == Next(Next(Next(Next(Next(Run(acts), a), b), c), d), e)
  {
    hide Next, Run;
    RunSnoc(acts, a);
    RunSnoc(acts + [a], b);
    RunSnoc(acts + [a] + [b], c);
    RunSnoc(acts + [a] + [b] + [c], d);
    RunSnoc(acts + [a] + [b] + [c] + [d], e);
    assert acts + [a, b, c, d, e] == acts + [a] + [b] + [c] + [d] + [e];
  }

  const ENTRY := Entry("id", "ada", Fund, 10000, Some("NGN"), None, None, None, None)

  const PLAN := Plan("ada", None, Posting(ADA, 10000), [ENTRY], None, false)

  /** A process that carries out this plan and has written nothing. */
  ghost predicate Fresh(s: State, pid: nat, phase: Phase) {
    At(s, pid, phase) && s.processes[pid].plan == PLAN && s.processes[pid].inserted == 0
  }

  /** ... and has read the balance 0. */
  ghost predicate HasRead(s: State, pid: nat) {
    Fresh(s, pid, CreditRead) && s.processes[pid].seen == Some(RowRead(0, 0))
  }

  const OPENED := Database([BalanceRow(ADA, 0)], [], map[])

  lemma AfterArrival(s: State, pid: nat)
    requires s.db == OPENED && pid !in s.processes
    ensures var t := Next(s, Arrive(pid, FUNDING, ENV));
            && t.db == OPENED && t.processes.Keys == s.processes.Keys + {pid} && Fresh(t, pid, Waiting)
            && forall q | q in s.processes :: t.processes[q] == s.processes[q]
  {
    assert Money.Fixed4(1.0) == 10000;
    hide Money.Fixed4;
    assert FUNDING.Key() == None;
    assert PlanFor(FUNDING, ENV) == Ok(PLAN);
  }

  lemma AfterRead(s: State, pid: nat)
    requires s.db == OPENED && Fresh(s, pid, Waiting)
    ensures var t := Next(s, ReadCredit(pid));
            && t.db == OPENED && t.processes.Keys == s.processes.Keys && HasRead(t, pid)
            && forall q | q in s.processes && q != pid :: t.processes[q] == s.processes[q]
  {
    FindIs(s.db.balances, 0);
  }

  lemma AfterArrivals(s1: State)
    requires s1 == State(OPENED, map[])
    ensures var s3 := Next(Next(s1, READS[1]), READS[2]);
            s3.db == OPENED && s3.processes.Keys == {1, 2} && Fresh(s3, 1, Waiting) && Fresh(s3, 2, Waiting)
  {
    hide Next, At;
    AfterArrival(s1, 1);
    var s2 := Next(s1, READS[1]);
    AfterArrival(s2, 2);
    SamePhase(s2, Next(s2, READS[2]), 1, Waiting);
  }

  lemma AfterBothRead(s3: State)
    requires s3.db == OPENED && s3.processes.Keys == {1, 2} && Fresh(s3, 1, Waiting) && Fresh(s3, 2, Waiting)
    ensures var s5 := Next(Next(s3, READS[3]), READS[4]);
            s5.db == OPENED && s5.processes.Keys == {1, 2} && HasRead(s5, 1) && HasRead(s5, 2)
  {
    hide Next, At;
    AfterRead(s3, 1);
    var s4 := Next(s3, READS[3]);
    SamePhase(s3, s4, 2, Waiting);
    AfterRead(s4, 2);
    SamePhase(s4, Next(s4, READS[4]), 1, CreditRead);
  }

  lemma RunReads()
    ensures Run(READS) == Next(Next(Next(Next(State(OPENED, map[]), READS[1]), READS[2]), READS[3]), READS[4])
  {
    assert Next(START, READS[0]) == State(OPENED, map[]);
    hide Next;
    assert [] + READS == READS;
    assert Run([]) == START;
    RunFive([], READS[0], READS[1], READS[2], READS[3], READS[4]);
  }

  lemma AfterReads()
    ensures var s := Run(READS);
            s.db == OPENED && s.processes.Keys == {1, 2} && HasRead(s, 1) && HasRead(s, 2)
  {
    hide Run, Next, Fresh, HasRead;
    RunReads();
    AfterArrivals(State(OPENED, map[]));
    AfterBothRead(Next(Next(State(OPENED, map[]), READS[1]), READS[2]));
  }

  lemma SamePhase(s: State, t: State, pid: nat, phase: Phase)
    requires At(s, pid, phase) && pid in t.processes && t.processes[pid] == s.processes[pid]
    ensures At(t, pid, phase)
  {
  }

  lemma AfterWriting(s: State, pid: nat)
    requires |s.db.balances| == 1 && HasRead(s, pid) && RowFree(s, pid, 0)
    ensures Next(Next(s, WriteCredit(pid)), InsertEntry(pid)) ==
            Put(s, pid, s.processes[pid].(phase := Credited, credit := Update(0, 10000), inserted := 1))
  {
    Money.AddExact(0, 10000);
    hide Money.Add, BalancesOf, Find, KeyFree, RecordFree, InsertFree;
    var s1 := Next(s, WriteCredit(pid));
    assert s1.processes[pid] == s.processes[pid].(phase := Credited, credit := Update(0, 10000));
  }

  lemma AfterCommitting(s: State, pid: nat)
    requires |s.db.balances| == 1 && At(s, pid, Credited) && s.processes[pid].plan == PLAN
    requires s.processes[pid].credit == Update(0, 10000) && s.processes[pid].inserted == 1
    ensures var t := Next(Next(Next(s, ReadBalances(pid)), SaveRecord(pid)), Commit(pid));
            && t.db.balances == [BalanceRow(ADA, 10000)] && t.db.entries == s.db.entries + s.processes[pid].plan.entries
            && t.processes.Keys == s.processes.Keys && pid in t.processes && !Active(t.processes[pid])
            && forall q | q in s.processes && q != pid :: t.processes[q] == s.processes[q]
  {
    hide BalancesOf, Find, KeyFree, InsertFree;
    var s3 := Next(s, ReadBalances(pid));
    assert At(s3, pid, BalancesRead);
    var s4 := Next(s3, SaveRecord(pid));
    assert At(s4, pid, Saved);
  }

  lemma AfterRest(acts: seq<Action>, pid: nat)
    requires var s := Run(acts);
             && |s.db.balances| == 1 && HasRead(s, pid) && RowFree(s, pid, 0)
    ensures var s, t := Run(acts), Run(acts + Rest(pid));
            && t.db.balances == [BalanceRow(ADA, 10000)] && |t.db.entries| == |s.db.entries| + 1
            && t.db.entries == s.db.entries + s.processes[pid].plan.entries
            && t.processes.Keys == s.processes.Keys && !Active(t.processes[pid])
            && forall q | q in s.processes && q != pid :: t.processes[q] == s.processes[q]
  {
    hide Run, Next, RowFree;
    var rest := Rest(pid);
    assert rest == [rest[0], rest[1], rest[2], rest[3], rest[4]];
    RunFive(acts, rest[0], rest[1], rest[2], rest[3], rest[4]);
    AfterWriting(Run(acts), pid);
    AfterCommitting(Next(Next(Run(acts), rest[0]), rest[1]), pid);
  }

  lemma SaneReads()
    ensures SaneSchedule(READS + Rest(1) + Rest(2))
  {
    assert SaneAction(READS[1]) && SaneAction(READS[2]);
    assert forall i | 0 <= i < |READS| :: SaneAction(READS[i]);
    assert forall pid: nat, i: nat | i < |Rest(pid)| :: SaneAction(Rest(pid)[i]);
  }

  lemma AfterFirst()
    ensures var s := Run(READS + Rest(1));
            && |s.db.balances| == 1 && s.db.entries == [ENTRY] && HasRead(s, 2) && RowFree(s, 2, 0)
  {
    hide Run, Rest;
    AfterReads();
    assert RowFree(Run(READS), 1, 0);
    AfterRest(READS, 1);
    assert [] + [ENTRY] == [ENTRY];
    hide At;
    SamePhase(Run(READS), Run(READS + Rest(1)), 2, CreditRead);
  }

  lemma TwoFundings()
    ensures KindTotal([ENTRY] + [ENTRY], Fund, "NGN") == 20000
  {
    var entries := [ENTRY] + [ENTRY];
    assert entries[..|entries| - 1] == [ENTRY];
    assert KindTotal([ENTRY], Fund, "NGN") == 10000;
  }

  const SCHEDULE := READS + Rest(1) + Rest(2)

  lemma AfterBoth()
    ensures Run(SCHEDULE).db.balances == [BalanceRow(ADA, 10000)] && Run(SCHEDULE).db.entries == [ENTRY] + [ENTRY]
  {
    AfterFirst();
    AfterRest(READS + Rest(1), 2);
    hide Rest, RowFree;
    assert Run(READS + Rest(1)).processes[2].plan == PLAN;
  }

  /** Two fundings of one unit are committed and in the ledger; the balance has grown by one. */
  lemma AnUpdateCanBeLost()
    ensures exists acts :: SaneSchedule(acts)
              && Run(acts).db.balances == [BalanceRow(ADA, 10000)]
              && KindTotal(Run(acts).db.entries, Fund, "NGN") == 20000
  {
    SaneReads();
    AfterBoth();
    TwoFundings();
  }
}
