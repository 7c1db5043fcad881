/** What login attempts under way can do to the lock of a deactivation. */
module DeactivationRaces {
  import opened Common
  import opened Auth
  import opened LoginRaces
  import opened FivePerHalfHour

  /** No attempt under way can lift the lock before `until`, set a shorter one, or compare a password. */
  ghost predicate Harmless(s: State, until: int) {
    forall pid | pid in s.attempts ::
      match s.attempts[pid]
      case Looked(row) => !LockExpired(row, until)
      case Checked => true
      case Admitted(row) => false
      case Compared(row) => row.loginLimit + 1 < MAX_LOGIN_ATTEMPTS
  }

  ghost predicate LockedUntil(u: User, until: int) {
    u.isLocked && u.lockedUntil.Some? && u.lockedUntil.value >= until
  }

  /** Since `s0` the lock has stood, and no wrong password was compared. */
  ghost predicate Stands(s0: State, s: State, until: int) { LockedUntil(s.user, until) && |s.wrong| == |s0.wrong| }

  lemma NextStands(s0: State, s: State, a: Action, until: int)
    requires Stands(s0, s, until) && Harmless(s, until) && Next(s, a).clock <= until <= s.clock + YEAR
    ensures Stands(s0, Next(s, a), until) && Harmless(Next(s, a), until)
  {
    hide AfterOtp, OtpMatches;
    if a.Verify? {
      VerifyKeepsLock(s, a);
    }
  }

  function After(acts: seq<Action>, time: int): seq<Action> { acts + [Deactivate(time)] }

  lemma AfterDeactivation(user: User, acts: seq<Action>, time: int)
    requires time >= Run(user, acts).clock
    ensures Run(user, After(acts, time)) ==
            Run(user, acts).(user := Deactivated(Run(user, acts).user, time), clock := time)
  {
    RunOne(user, acts, Deactivate(time));
  }

  lemma {:induction false} HarmlessStands(user: User, acts: seq<Action>, time: int, more: seq<Action>)
    requires time >= Run(user, acts).clock && Harmless(Run(user, acts), time + YEAR)
    requires Run(user, After(acts, time) + more).clock <= time + YEAR
    ensures var s0, s := Run(user, After(acts, time)), Run(user, After(acts, time) + more);
            Stands(s0, s, time + YEAR) && Harmless(s, time + YEAR) && s.clock >= time
    decreases |more|
  {
    hide Run, Next, Harmless;
    AfterDeactivation(user, acts, time);
    if more == [] {
      assert After(acts, time) + more == After(acts, time);
      SameAttempts(Run(user, acts), Run(user, After(acts, time)), time + YEAR);
    } else {
      var before, a := more[..|more| - 1], more[|more| - 1];
      assert After(acts, time) + more == After(acts, time) + before + [a];
      RunOne(user, After(acts, time) + before, a);
      ClockStep(Run(user, After(acts, time) + before), a);
      HarmlessStands(user, acts, time, before);
      NextStands(Run(user, After(acts, time)), Run(user, After(acts, time) + before), a, time + YEAR);
    }
  }

  lemma SameAttempts(s: State, t: State, until: int)
    requires t.attempts == s.attempts
    ensures Harmless(t, until) <==> Harmless(s, until)
  {
  }

  /** The next step of an attempt that is not harmless. */
  lemma HarmfulStep(s: State, until: int) returns (a: Action)
    requires !Harmless(s, until) && until == s.clock + YEAR
    ensures Next(s, a).clock <= until && !Stands(s, Next(s, a), until)
  {
    var pid :| pid in s.attempts &&
      match s.attempts[pid]
      case Looked(row) => LockExpired(row, until)
      case Checked => false
      case Admitted(row) => true
      case Compared(row) => row.loginLimit + 1 >= MAX_LOGIN_ATTEMPTS;
    match s.attempts[pid]
    case Looked(row) =>
      a := CheckLock(pid, if row.lockedUntil.value < s.clock then s.clock else row.lockedUntil.value + 1);
    case Admitted(row) =>
      a := Compare(pid, s.clock, false);
    case Compared(row) =>
      a := Count(pid, s.clock);
  }

  /** The lock of a deactivation stands for the year, and no wrong password is compared, whatever
      follows, if and only if every attempt under way at that moment is harmless; for instance, if
      there is none. */
  lemma DeactivationStandsExactly(user: User, acts: seq<Action>, time: int)
    requires time >= Run(user, acts).clock
    ensures (forall more | Run(user, After(acts, time) + more).clock <= time + YEAR ::
               Stands(Run(user, After(acts, time)), Run(user, After(acts, time) + more), time + YEAR))
            <==> Harmless(Run(user, acts), time + YEAR)
    ensures Run(user, acts).attempts == map[] ==> Harmless(Run(user, acts), time + YEAR)
  {
    var until, s := time + YEAR, Run(user, After(acts, time));
    AfterDeactivation(user, acts, time);
    SameAttempts(Run(user, acts), s, until);
    hide Run, Next, Stands;
    if Harmless(Run(user, acts), until) {
      forall more | Run(user, After(acts, time) + more).clock <= until
        ensures Stands(s, Run(user, After(acts, time) + more), until)
      {
        HarmlessStands(user, acts, time, more);
      }
    } else {
      var a := HarmfulStep(s, until);
      RunOne(user, After(acts, time), a);
      assert !Stands(s, Run(user, After(acts, time) + [a]), until);
    }
  }

  // ---------- an example ----------

  const FOUR := CODED.(loginLimit := 4)

  /** A fifth wrong password is compared, the account deactivated, the failure counted, the account
      verified by its one-time password. */
  const CUT := [Begin(1), CheckLock(1, 0), ReadAgain(1), Compare(1, 0, false),
                Deactivate(0), Count(1, 0), Verify("A", "email", 0)]

  /** The count replaces the lock of a year by one of half an hour, after which a correct password is
      admitted. */
  lemma AnAttemptCutsTheYear()
    ensures var u := Run(FOUR, CUT).user;
            && u.isActive && u.lockedUntil == Some(LOCK_DURATION)
            && forall t :: Compares(u, t) <==> t.checked > LOCK_DURATION
  {
    hide Run, Next;
    assert [] + [CUT[0], CUT[1], CUT[2], CUT[3]] == CUT[..4] && CUT == CUT[..4] + [CUT[4], CUT[5]] + [CUT[6]];
    RunFour(FOUR, [], CUT[0], CUT[1], CUT[2], CUT[3]);
    RunStarts(FOUR, []);
    BurstStep(Start(FOUR), 1);
    RunTwo(FOUR, CUT[..4], CUT[4], CUT[5]);
    CountAfterDeactivation(Run(FOUR, CUT[..4]));
    RunOne(FOUR, CUT[..4] + [CUT[4], CUT[5]], CUT[6]);
    VerifiedAgain(Run(FOUR, CUT[..4] + [CUT[4], CUT[5]]));
  }

  lemma CountAfterDeactivation(s: State)
    requires s.user == FOUR && s.attempts == map[1 := Compared(FOUR)] && s.clock == 0
    ensures var t := Next(Next(s, Deactivate(0)), Count(1, 0));
            t.user == Counted(Deactivated(FOUR, 0), 5, 0) && t.clock == 0
  {
  }

  lemma VerifiedAgain(s: State)
    requires s.user == Counted(Deactivated(FOUR, 0), 5, 0) && s.clock == 0
    ensures Next(s, Verify("A", "email", 0)).user == s.user.(otp := None, isActivated := true, isActive := true)
  {
    CodeMatches(s.user);
    hide OtpMatches;
  }
}
