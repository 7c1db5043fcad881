/** Exactly when five wrong passwords per half hour is a bound: one attempt at a time, and no
    deactivation in the middle of one. */
module FivePerHalfHour {
  import opened Common
  import opened Auth
  import opened Text
  import opened LoginRaces

  ghost predicate Sound(u: User) {
    0 <= u.loginLimit <= MAX_LOGIN_ATTEMPTS && (!u.isLocked ==> u.loginLimit < MAX_LOGIN_ATTEMPTS)
  }

  /** No account is deactivated while an attempt is under way. */
  ghost predicate Calm(user: User, acts: seq<Action>) {
    forall i | 0 <= i < |acts| && acts[i].Deactivate? :: Run(user, acts[..i]).attempts == map[]
  }

  /** Within the span at most five wrong passwords are compared for every started half hour, if at
      most `m` attempts overlap and, unless `interrupted`, no deactivation falls into one. */
  ghost predicate AtMostFive(user: User, acts: seq<Action>, i: nat, j: nat, span: nat, m: nat, interrupted: bool) {
    Sound(user) && i < j <= |acts| && AtMost(user, acts, m) && (interrupted || Calm(user, acts))
    && Run(user, acts[..j]).clock - Run(user, acts[..i + 1]).clock <= span
    ==> WrongBetween(user, acts, i, j) <= 5 * (span / LOCK_DURATION + 1)
  }

  ghost predicate FiveIsABound(m: nat, interrupted: bool) {
    forall user, acts, i: nat, j: nat, span: nat :: AtMostFive(user, acts, i, j, span, m, interrupted)
  }

  // ---------- one attempt at a time ----------

  /** The attempt under way, if any, has read the current lock, or the current count while unlocked. */
  ghost predicate OneAttempt(s: State) {
    && Sound(s.user)
    && (forall p, q | p in s.attempts && q in s.attempts :: p == q)
    && (forall pid | pid in s.attempts ::
          match s.attempts[pid]
          case Looked(row) => row.isLocked == s.user.isLocked && row.lockedUntil == s.user.lockedUntil
          case Checked => true
          case Admitted(row) => !s.user.isLocked && row.loginLimit == s.user.loginLimit
          case Compared(row) => !s.user.isLocked && row.loginLimit == s.user.loginLimit)
  }

  lemma AtMostOne(attempts: map<nat, Phase>)
    requires |attempts| <= 1
    ensures forall p, q | p in attempts && q in attempts :: p == q
  {
    forall p, q | p in attempts && q in attempts ensures p == q {
      if p != q {
        Subset({p, q}, attempts.Keys);
      }
    }
  }

  lemma NextKeepsOneAttempt(s: State, a: Action)
    requires OneAttempt(s) && |Next(s, a).attempts| <= 1 && (a.Deactivate? ==> s.attempts == map[])
    ensures OneAttempt(Next(s, a))
  {
    hide AfterOtp, OtpMatches;
    AtMostOne(Next(s, a).attempts);
    if a.Verify? {
      VerifyKeepsLock(s, a);
    }
  }

  /** The attempt has compared a wrong password and not counted it. */
  ghost predicate Uncounted(s: State) { exists pid | pid in s.attempts :: s.attempts[pid].Compared? }

  /** Since `s0`: nothing while an old lock is stored, and then no more than the count tells. */
  ghost predicate Counts(s0: State, s: State, base: int) {
    if OldLock(s.user, base) then |s.wrong| == |s0.wrong|
    else |s.wrong| - |s0.wrong| <= s.user.loginLimit + if Uncounted(s) then 1 else 0
  }

  /** Only a comparison adds a wrong password, and only counting it takes an uncounted one away. */
  lemma StepCounts(s: State, a: Action)
    requires OneAttempt(s) && OneAttempt(Next(s, a))
    ensures var t := Next(s, a);
            var before, after := if Uncounted(s) then 1 else 0, if Uncounted(t) then 1 else 0;
            && |t.wrong| >= |s.wrong| && (|t.wrong| > |s.wrong| ==> !s.user.isLocked)
            && (t.lifted == s.lifted ==>
                  |t.wrong| - |s.wrong| == t.user.loginLimit + after - s.user.loginLimit - before)
            && (t.lifted > s.lifted ==> |t.wrong| == |s.wrong|)
  {
    hide AfterOtp;
    var t := Next(s, a);
    if a.Verify? {
      VerifyKeepsLock(s, a);
    } else if !a.Deactivate? && a.pid in s.attempts {
      assert Uncounted(s) <==> s.attempts[a.pid].Compared?;
      assert Uncounted(t) <==> a.pid in t.attempts && t.attempts[a.pid].Compared?;
    } else if a.Begin? {
      assert forall q | q in s.attempts :: q in t.attempts;
      assert a.pid in t.attempts && t.attempts[a.pid].Looked?;
      assert !Uncounted(s) && !Uncounted(t);
    }
  }

  lemma LiftsAnOldLock(s: State, a: Action, base: int)
    requires OneAttempt(s) && Within(s, a, base) && Next(s, a).lifted > s.lifted
    ensures OldLock(s.user, base)
  {
  }

  lemma NextKeepsCounts(s0: State, s: State, a: Action, base: int)
    requires OneAttempt(s) && OneAttempt(Next(s, a)) && Counts(s0, s, base) && Within(s, a, base)
    ensures Counts(s0, Next(s, a), base)
  {
    StepCounts(s, a);
    OldLockAfter(s, a, base);
    if Next(s, a).lifted > s.lifted {
      LiftsAnOldLock(s, a, base);
    }
    assert OneAttempt(Next(s, a));
    hide Next, Uncounted;
  }

  lemma {:induction false} RunsKeepOneAttempt(user: User, acts: seq<Action>, n: nat)
    requires Sound(user) && AtMost(user, acts, 1) && Calm(user, acts) && n <= |acts|
    ensures OneAttempt(Run(user, acts[..n]))
  {
    hide Run, Next, OneAttempt;
    if n == 0 {
      RunStarts(user, acts);
      StartsWithNoAttempt(user);
    } else {
      RunsKeepOneAttempt(user, acts, n - 1);
      RunStep(user, acts, n - 1);
      NextKeepsOneAttempt(Run(user, acts[..n - 1]), acts[n - 1]);
    }
  }

  lemma StartsWithNoAttempt(user: User)
    requires Sound(user)
    ensures OneAttempt(Start(user))
  {
  }

  lemma {:induction false} WindowCounts(user: User, acts: seq<Action>, i: nat, j: nat, base: int)
    requires Sound(user) && AtMost(user, acts, 1) && Calm(user, acts)
    requires i <= j <= |acts| && Window(user, acts, i, j, base)
    ensures Counts(Run(user, acts[..i]), Run(user, acts[..j]), base)
    decreases j
  {
    hide Run, Next, OneAttempt, AtMost, Calm;
    RunsKeepOneAttempt(user, acts, j);
    if i == j {
      CountsNothingYet(Run(user, acts[..i]), base);
    } else {
      hide Counts;
      RunsKeepOneAttempt(user, acts, j - 1);
      WindowCounts(user, acts, i, j - 1, base);
      RunStep(user, acts, j - 1);
      NextKeepsCounts(Run(user, acts[..i]), Run(user, acts[..j - 1]), acts[j - 1], base);
    }
  }

  lemma CountsNothingYet(s: State, base: int)
    requires OneAttempt(s)
    ensures Counts(s, s, base)
  {
  }

  lemma CountsAtMostFive(s0: State, s: State, base: int)
    requires OneAttempt(s) && Counts(s0, s, base)
    ensures |s.wrong| - |s0.wrong| <= MAX_LOGIN_ATTEMPTS
  {
  }

  /** One attempt at a time, never interrupted by a deactivation: five for every started half hour. */
  lemma OneAtATimeFiveIsABound(user: User, acts: seq<Action>, i: nat, j: nat, span: nat)
    requires Sound(user) && AtMost(user, acts, 1) && Calm(user, acts) && i < j <= |acts|
    requires Run(user, acts[..j]).clock - Run(user, acts[..i + 1]).clock <= span
    ensures WrongBetween(user, acts, i, j) <= 5 * (span / LOCK_DURATION + 1)
  {
    hide Run, Counts, OneAttempt, AtMost, Calm, Window;
    forall i: nat, j: nat, base | i <= j <= |acts| && Window(user, acts, i, j, base)
      ensures WrongBetween(user, acts, i, j) <= 5
    {
      WindowCounts(user, acts, i, j, base);
      RunsKeepOneAttempt(user, acts, j);
      CountsAtMostFive(Run(user, acts[..i]), Run(user, acts[..j]), base);
    }
    SpanIsBounded(user, acts, i, j, span, 5);
  }

  // ---------- two attempts that overlap ----------

  /** Only these attempts begin. */
  ghost predicate Only(acts: seq<Action>, pids: set<nat>) {
    forall i | 0 <= i < |acts| && acts[i].Begin? :: acts[i].pid in pids
  }

  lemma StepBegins(s: State, a: Action, pids: set<nat>)
    requires s.attempts.Keys <= pids && (a.Begin? ==> a.pid in pids)
    ensures Next(s, a).attempts.Keys <= pids
  {
  }

  lemma {:induction false} OnlyTheseAttempts(user: User, acts: seq<Action>, pids: set<nat>, n: nat)
    requires Only(acts, pids) && n <= |acts|
    ensures Run(user, acts[..n]).attempts.Keys <= pids
    ensures |Run(user, acts[..n]).attempts| <= |pids|
  {
    hide Run, Next;
    if n == 0 {
      RunStarts(user, acts);
    } else {
      OnlyTheseAttempts(user, acts, pids, n - 1);
      RunStep(user, acts, n - 1);
      StepBegins(Run(user, acts[..n - 1]), acts[n - 1], pids);
    }
    Subset(Run(user, acts[..n]).attempts.Keys, pids);
  }

  /** Two attempts compare a wrong password, and then both count it. */
  const ROUND := [Begin(1), CheckLock(1, 0), ReadAgain(1), Compare(1, 0, false),
                  Begin(2), CheckLock(2, 0), ReadAgain(2), Compare(2, 0, false), Count(1, 0), Count(2, 0)]

  lemma RunTwo(user: User, acts: seq<Action>, a: Action, b: Action)
    ensures Run(user, acts + [a, b]) == Next(Next(Run(user, acts), a), b)
  {
    hide Next;
    assert (acts + [a, b])[..|acts| + 1] == acts + [a] && (acts + [a])[..|acts|] == acts;
    assert Run(user, acts + [a]) == Next(Run(user, acts), a);
  }

  lemma CountBoth(s: State, row: User)
    requires s.clock == 0 && s.attempts == map[1 := Compared(row), 2 := Compared(row)]
    requires row.loginLimit + 1 < MAX_LOGIN_ATTEMPTS
    ensures var t := Next(Next(s, Count(1, 0)), Count(2, 0));
            && t.user == s.user.(loginLimit := row.loginLimit + 1)
            && t.attempts == map[] && t.clock == 0 && t.wrong == s.wrong
  {
  }

  lemma AfterRound(user: User, acts: seq<Action>)
    requires var s := Run(user, acts);
             s.user.isActive && !s.user.isLocked && s.user.loginLimit < 4 && s.attempts == map[] && s.clock == 0
    ensures var s, t := Run(user, acts), Run(user, acts + ROUND);
            && t.user == s.user.(loginLimit := s.user.loginLimit + 1) && t.attempts == map[] && t.clock == 0
            && |t.wrong| == |s.wrong| + 2
  {
    hide Run, Next;
    var s := Run(user, acts);
    RunFour(user, acts, ROUND[0], ROUND[1], ROUND[2], ROUND[3]);
    var first := acts + [ROUND[0], ROUND[1], ROUND[2], ROUND[3]];
    RunFour(user, first, ROUND[4], ROUND[5], ROUND[6], ROUND[7]);
    var second := first + [ROUND[4], ROUND[5], ROUND[6], ROUND[7]];
    RunTwo(user, second, ROUND[8], ROUND[9]);
    assert acts + ROUND == second + [ROUND[8], ROUND[9]];
    BurstStep(s, 1);
    BurstStep(Run(user, first), 2);
    CountBoth(Run(user, second), s.user);
  }

  const FRESH := User(true, true, false, None, 0, 0, None, None)

  const SIX := ROUND + ROUND + ROUND

  lemma AfterThreeRounds()
    ensures |Run(FRESH, SIX).wrong| == 6 && Run(FRESH, SIX).clock == 0
  {
    AfterRound(FRESH, []);
    assert [] + ROUND == ROUND;
    AfterRound(FRESH, ROUND);
    AfterRound(FRESH, ROUND + ROUND);
  }

  lemma TwoOverlappingExceedFive(m: nat, interrupted: bool)
    requires m >= 2
    ensures !FiveIsABound(m, interrupted)
  {
    hide Run;
    AfterThreeRounds();
    assert Only(SIX, {1, 2});
    forall i | 0 <= i <= |SIX| ensures |Run(FRESH, SIX[..i]).attempts| <= m {
      OnlyTheseAttempts(FRESH, SIX, {1, 2}, i);
    }
    assert Calm(FRESH, SIX);
    assert SIX[..|SIX|] == SIX;
    RunStarts(FRESH, SIX);
    ClockAdvances(FRESH, SIX, 0, 1);
    assert !AtMostFive(FRESH, SIX, 0, |SIX|, 0, m, interrupted);
  }

  // ---------- a deactivation in the middle of an attempt ----------

  lemma RunOne(user: User, acts: seq<Action>, a: Action)
    ensures Run(user, acts + [a]) == Next(Run(user, acts), a)
  {
    hide Next;
    assert (acts + [a])[..|acts|] == acts;
  }

  const LATER := YEAR + 1

  /** A whole attempt with a wrong password, after the year. */
  const FAILURE := [Begin(1), CheckLock(1, LATER), ReadAgain(1), Compare(1, LATER, false), Count(1, LATER)]

  function Failures(n: nat): seq<Action> { if n == 0 then [] else Failures(n - 1) + FAILURE }

  /** `n` failures have been counted since the old lock ended or will end. */
  ghost predicate Failed(s: State, n: nat) {
    var row := AfterLockCheck(s.user, LATER);
    && s.attempts == map[] && s.clock <= LATER
    && row.isActive && row.loginLimit == n && (n < MAX_LOGIN_ATTEMPTS ==> !row.isLocked)
  }

  lemma AfterFailure(user: User, acts: seq<Action>, n: nat)
    requires Failed(Run(user, acts), n) && n < MAX_LOGIN_ATTEMPTS
    ensures Failed(Run(user, acts + FAILURE), n + 1)
    ensures |Run(user, acts + FAILURE).wrong| == |Run(user, acts).wrong| + 1 && Run(user, acts + FAILURE).clock == LATER
  {
    hide Run, Next;
    RunFour(user, acts, FAILURE[0], FAILURE[1], FAILURE[2], FAILURE[3]);
    var four := acts + [FAILURE[0], FAILURE[1], FAILURE[2], FAILURE[3]];
    RunOne(user, four, FAILURE[4]);
    assert acts + FAILURE == four + [FAILURE[4]];
    UninterruptedAttempt(Run(user, acts), 1, Attempt(LATER, LATER, LATER, false));
  }

  lemma {:induction false} AfterFailures(user: User, acts: seq<Action>, n: nat)
    requires Failed(Run(user, acts), 0) && n <= MAX_LOGIN_ATTEMPTS
    ensures Failed(Run(user, acts + Failures(n)), n)
    ensures |Run(user, acts + Failures(n)).wrong| == |Run(user, acts).wrong| + n
    ensures n > 0 ==> Run(user, acts + Failures(n)).clock == LATER
  {
    hide Run, Failed;
    if n == 0 {
      assert acts + Failures(0) == acts;
    } else {
      AfterFailures(user, acts, n - 1);
      AfterFailure(user, acts + Failures(n - 1), n - 1);
      assert acts + Failures(n) == acts + Failures(n - 1) + FAILURE;
    }
  }

  const CODED := FRESH.(otp := Some(Otp("A", YEAR, "email")))

  /** An attempt is admitted; the account is deactivated, and verified by its one-time password. */
  const ADMITTED := [Begin(1), CheckLock(1, 0), ReadAgain(1), Deactivate(0), Verify("A", "email", 0)]

  /** A year later that attempt compares and counts its wrong password. */
  const LATE := ADMITTED + [Compare(1, YEAR, false), Count(1, YEAR)]

  lemma CodeMatches(u: User)
    requires u.otp == CODED.otp
    ensures OtpMatches(u, "A", "email", 0)
  {
    assert "A"[1..] == "" && "A"[..0] == "";
    assert TrimStart("A") == "A" && TrimEnd("A") == "A" && UpperCase("") == "" && UpperCase("A") == "A";
  }

  lemma AfterAdmitted()
    ensures var s := Run(CODED, ADMITTED);
            && s.attempts == map[1 := Admitted(CODED)] && s.clock == 0 && s.wrong == multiset{}
            && s.user == Deactivated(CODED, 0).(otp := None, isActivated := true, isActive := true)
  {
    RunStarts(CODED, []);
    hide Run;
    RunFour(CODED, [], ADMITTED[0], ADMITTED[1], ADMITTED[2], ADMITTED[3]);
    var four := [] + [ADMITTED[0], ADMITTED[1], ADMITTED[2], ADMITTED[3]];
    RunOne(CODED, four, ADMITTED[4]);
    assert ADMITTED == four + [ADMITTED[4]];
    UpToReadingAgain(Start(CODED), 1, 0);
    CodeMatches(Deactivated(CODED, 0));
    hide OtpMatches;
  }

  lemma AfterLate()
    ensures Failed(Run(CODED, LATE), 0) && |Run(CODED, LATE).wrong| == 1 && Run(CODED, LATE).clock == YEAR
    ensures |Run(CODED, LATE[..5]).wrong| == 0 && Run(CODED, LATE[..6]).clock == YEAR
  {
    hide Run;
    AfterAdmitted();
    RunTwo(CODED, ADMITTED, Compare(1, YEAR, false), Count(1, YEAR));
    RunOne(CODED, ADMITTED, Compare(1, YEAR, false));
    assert LATE[..5] == ADMITTED && LATE[..6] == ADMITTED + [Compare(1, YEAR, false)];
  }

  /** Even one at a time: an admitted attempt that sleeps through a deactivation adds a sixth. */
  lemma InterruptedExceedsFive(m: nat)
    requires m >= 1
    ensures !FiveIsABound(m, true)
  {
    hide Run;
    AfterLate();
    AfterFailures(CODED, LATE, 5);
    var acts := LATE + Failures(5);
    assert acts[..5] == LATE[..5] && acts[..6] == LATE[..6] && acts[..|acts|] == acts;
    OnlyOne(5);
    forall i | 0 <= i <= |acts| ensures |Run(CODED, acts[..i]).attempts| <= m {
      OnlyTheseAttempts(CODED, acts, {1}, i);
    }
    assert !AtMostFive(CODED, acts, 5, |acts|, 1, m, true);
  }

  lemma OnlyAppend(xs: seq<Action>, ys: seq<Action>, pids: set<nat>)
    requires Only(xs, pids) && Only(ys, pids)
    ensures Only(xs + ys, pids)
  {
  }

  lemma {:induction false} OnlyOne(n: nat)
    ensures Only(LATE + Failures(n), {1})
  {
    if n == 0 {
      assert LATE + Failures(0) == LATE;
    } else {
      OnlyOne(n - 1);
      OnlyAppend(LATE + Failures(n - 1), FAILURE, {1});
      assert LATE + Failures(n) == LATE + Failures(n - 1) + FAILURE;
    }
  }

  // ---------- exactly when ----------

  /** Five for every started half hour is a bound if and only if attempts come one at a time, and
      no deactivation falls into one. */
  lemma FiveExactlyWhenOneAtATime(m: nat, interrupted: bool)
    ensures FiveIsABound(m, interrupted) <==> m == 0 || (m == 1 && !interrupted)
  {
    hide Run, AtMost, Calm, Sound;
    if m >= 2 {
      TwoOverlappingExceedFive(m, interrupted);
    } else if m == 1 && interrupted {
      InterruptedExceedsFive(m);
    } else {
      forall user, acts, i: nat, j: nat, span: nat ensures AtMostFive(user, acts, i, j, span, m, interrupted) {
        if Sound(user) && i < j <= |acts| && AtMost(user, acts, m) && (interrupted || Calm(user, acts))
           && Run(user, acts[..j]).clock - Run(user, acts[..i + 1]).clock <= span {
          FewAttempts(user, acts, m, interrupted);
          OneAtATimeFiveIsABound(user, acts, i, j, span);
        }
      }
    }
  }

  lemma FewAttempts(user: User, acts: seq<Action>, m: nat, interrupted: bool)
    requires AtMost(user, acts, m) && (m == 0 || (m == 1 && Calm(user, acts)))
    ensures AtMost(user, acts, 1) && Calm(user, acts)
  {
    hide Run;
    if m == 0 {
      forall i | 0 <= i < |acts| && acts[i].Deactivate? ensures Run(user, acts[..i]).attempts == map[] {
        assert |Run(user, acts[..i]).attempts| == 0;
      }
    }
  }
}
