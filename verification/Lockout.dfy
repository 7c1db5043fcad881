/** How many wrong passwords can be tried on one account. */
module Lockout {
  import opened Common
  import opened Auth
  import opened Text

  /** What can happen to an account. No route of the system activates one directly. */
  datatype Event =
    | Try(attempt: Attempt)
    | Deactivate(time: int)
    | Verify(code: string, kind: string, time: int)
    | Logout

  /** An account, the times at which wrong passwords were compared, and the time of the last event. */
  datatype State = State(user: User, wrong: seq<int>, clock: int)

  /** Time does not run backwards; an event that would need it to is no event. */
  predicate InOrder(clock: int, e: Event) {
    match e
    case Try(t) => clock <= t.checked <= t.compared <= t.counted
    case Deactivate(time) => clock <= time
    case Verify(_, _, time) => clock <= time
    case Logout => true
  }

  function Next(s: State, e: Event): State {
    if !InOrder(s.clock, e) then s
    else match e
      case Try(t) =>
        State(AfterAttempt(s.user, t),
              if Compares(s.user, t) && !t.correct then s.wrong + [t.compared] else s.wrong,
              t.counted)
      case Deactivate(time) => State(Deactivated(s.user, time), s.wrong, time)
      case Verify(code, kind, time) => State(AfterOtp(s.user, code, kind, time), s.wrong, time)
      case Logout => s.(user := s.user.(tokenVersion := s.user.tokenVersion + 1))
  }

  function Run(user: User, events: seq<Event>): State {
    if events == [] then State(user, [], 0) else Next(Run(user, events[..|events| - 1]), events[|events| - 1])
  }

  /** A lock has an expiry, an unlocked account fewer than five counted failures, none more than five. */
  ghost predicate LockConsistent(u: User) {
    && (u.isLocked ==> u.lockedUntil.Some?)
    && 0 <= u.loginLimit <= MAX_LOGIN_ATTEMPTS
    && (!u.isLocked ==> u.loginLimit < MAX_LOGIN_ATTEMPTS)
  }

  /** All but the counted failures lie a lock's length back: now if the account is unlocked, at
      the lock's expiry if it is locked. */
  ghost predicate Separated(s: State) {
    && (forall i | 0 <= i < |s.wrong| :: s.wrong[i] <= s.clock)
    && (!s.user.isLocked ==>
          forall i | 0 <= i < |s.wrong| && i + s.user.loginLimit < |s.wrong| :: s.wrong[i] + LOCK_DURATION < s.clock)
    && (s.user.isLocked && s.user.lockedUntil.Some? ==>
          forall i | 0 <= i < |s.wrong| :: s.wrong[i] + LOCK_DURATION <= s.user.lockedUntil.value)
  }

  /** Six consecutive wrong passwords take longer than a lock. */
  ghost predicate Spaced(wrong: seq<int>) {
    && (forall i | 0 <= i < |wrong| - 5 :: wrong[i] + LOCK_DURATION < wrong[i + 5])
    && (forall i, j | 0 <= i < j < |wrong| :: wrong[i] <= wrong[j])
  }

  ghost predicate Invariant(s: State) { LockConsistent(s.user) && Separated(s) && Spaced(s.wrong) }

  lemma NextKeepsLockConsistent(s: State, e: Event)
    requires LockConsistent(s.user)
    ensures LockConsistent(Next(s, e).user)
  {
  }

  lemma NextKeepsSeparated(s: State, e: Event)
    requires LockConsistent(s.user) && Separated(s)
    ensures Separated(Next(s, e))
  {
  }

  lemma NextKeepsSpaced(s: State, e: Event)
    requires Invariant(s)
    ensures Spaced(Next(s, e).wrong)
  {
  }

  lemma NextKeepsInvariant(s: State, e: Event)
    requires Invariant(s)
    ensures Invariant(Next(s, e))
  {
    hide Next, LockConsistent, Separated, Spaced;
    NextKeepsLockConsistent(s, e);
    NextKeepsSeparated(s, e);
    NextKeepsSpaced(s, e);
  }

  /** The lock state is consistent after every run, and wrong passwords are spaced. */
  lemma {:induction false} RunsKeepInvariant(user: User, events: seq<Event>)
    requires LockConsistent(user)
    ensures Invariant(Run(user, events))
  {
    if events != [] {
      RunsKeepInvariant(user, events[..|events| - 1]);
      NextKeepsInvariant(Run(user, events[..|events| - 1]), events[|events| - 1]);
    }
  }

  lemma {:induction false} SpacedFurther(wrong: seq<int>, i: nat, k: nat)
    requires Spaced(wrong) && i + 5 * k < |wrong|
    ensures wrong[i] + k * LOCK_DURATION <= wrong[i + 5 * k]
    ensures k > 0 ==> wrong[i] + k * LOCK_DURATION < wrong[i + 5 * k]
    decreases k
  {
    if k > 0 {
      SpacedFurther(wrong, i, k - 1);
      assert wrong[i + 5 * (k - 1)] + LOCK_DURATION < wrong[i + 5 * (k - 1) + 5];
    }
  }

  /** Over any run, the wrong passwords compared within any `span` number at most five for every
      started half hour of it. */
  lemma WrongPasswordsAreBounded(user: User, events: seq<Event>, i: nat, j: nat, span: nat)
    requires LockConsistent(user)
    requires var wrong := Run(user, events).wrong; i <= j < |wrong| && wrong[j] - wrong[i] <= span
    ensures j - i + 1 <= 5 * (span / LOCK_DURATION + 1)
  {
    RunsKeepInvariant(user, events);
    var wrong, k := Run(user, events).wrong, (j - i) / 5;
    SpacedFurther(wrong, i, k);
    assert wrong[i + 5 * k] <= wrong[j];
    AtMostQuotient(k, LOCK_DURATION, span);
  }

  lemma AtMostQuotient(k: nat, d: nat, n: nat)
    requires d > 0 && k * d <= n
    ensures k <= n / d
  {
    var q := n / d;
    assert n == d * q + n % d;
    assert k * d < (q + 1) * d;
    SmallerFactor(k, q + 1, d);
  }

  lemma SmallerFactor(k: int, m: int, d: int)
    requires d > 0 && k * d < m * d
    ensures k < m
  {
    assert (m - k) * d > 0;
  }

  /** The bound is reached: five wrong passwords are compared in no time at all. */
  lemma {:induction false} FiveAtOnce(user: User, n: nat)
    requires n <= MAX_LOGIN_ATTEMPTS && user.isActive && !user.isLocked && user.loginLimit == 0
    ensures var s := Run(user, seq(n, _ => Try(Attempt(0, 0, 0, false))));
            && s.wrong == seq(n, _ => 0) && s.clock == 0
            && s.user.isActive && s.user.loginLimit == n && (s.user.isLocked <==> n == MAX_LOGIN_ATTEMPTS)
  {
    if n > 0 {
      var tries := seq(n, _ => Try(Attempt(0, 0, 0, false)));
      assert tries[..n - 1] == seq(n - 1, _ => Try(Attempt(0, 0, 0, false)));
      FiveAtOnce(user, n - 1);
    }
  }

  // ---------- who is admitted ----------

  /** The event compares a wrong password. */
  ghost predicate Fails(s: State, e: Event) {
    e.Try? && InOrder(s.clock, e) && Compares(s.user, e.attempt) && !e.attempt.correct
  }

  /** When the last wrong password of the run was counted. */
  ghost function LastFailure(user: User, events: seq<Event>): Option<int> {
    if events == [] then None
    else
      var before, e := events[..|events| - 1], events[|events| - 1];
      if Fails(Run(user, before), e) then Some(e.attempt.counted) else LastFailure(user, before)
  }

  ghost predicate NoDeactivation(events: seq<Event>) { forall i | 0 <= i < |events| :: !events[i].Deactivate? }

  lemma LockComesFromFailure(s: State, e: Event)
    requires !e.Deactivate? && Next(s, e).user.isLocked
    ensures Fails(s, e) ==> Next(s, e).user.lockedUntil == Some(e.attempt.counted + LOCK_DURATION)
    ensures !Fails(s, e) ==> s.user.isLocked && Next(s, e).user.lockedUntil == s.user.lockedUntil
  {
  }

  /** A lock, if nothing but failures can set one, lasts half an hour from the last failure. */
  lemma {:induction false} LockedByTheLastFailure(user: User, events: seq<Event>)
    requires !user.isLocked && NoDeactivation(events) && Run(user, events).user.isLocked
    ensures LastFailure(user, events).Some?
    ensures Run(user, events).user.lockedUntil == Some(LastFailure(user, events).value + LOCK_DURATION)
  {
    hide Next, Fails;
    var before, e := events[..|events| - 1], events[|events| - 1];
    LockComesFromFailure(Run(user, before), e);
    if !Fails(Run(user, before), e) {
      LockedByTheLastFailure(user, before);
    }
  }

  /** An account that only failures can lock admits the correct password, as long as it is active,
      from half an hour after the last failure on; and while it is locked, not before. */
  lemma CorrectPasswordAdmitted(user: User, events: seq<Event>, t: Attempt)
    requires !user.isLocked && NoDeactivation(events)
    ensures var u, last := Run(user, events).user, LastFailure(user, events);
            && (last.None? || t.checked > last.value + LOCK_DURATION ==> (Compares(u, t) <==> u.isActive))
            && (u.isLocked ==> last.Some? && (Compares(u, t) <==> u.isActive && t.checked > last.value + LOCK_DURATION))
  {
    hide Run, LastFailure, NoDeactivation;
    if Run(user, events).user.isLocked {
      LockedByTheLastFailure(user, events);
    }
  }

  // ---------- one-time passwords and activation ----------

  lemma NoCodeAppears(s: State, e: Event)
    ensures Next(s, e).user.otp == s.user.otp || Next(s, e).user.otp.None?
  {
    hide OtpMatches;
  }

  /** An accepted code is used up; the account is active, and its lock as it was. One that is not
      accepted changes nothing. */
  lemma CodeIsUsedUp(s: State, code: string, kind: string, time: int)
    requires s.clock <= time && Tidy(s.user.otp)
    ensures Next(s, Verify(code, kind, time)).user ==
            if CodeAccepted(s.user.otp, code, kind, time)
            then s.user.(otp := None, isActivated := true, isActive := true)
            else s.user
  {
    hide OtpMatches, CodeAccepted;
    MatchesExactly(s.user, code, kind, time);
  }

  /** The n-th event submits a code that is accepted. */
  ghost predicate Verifies(user: User, events: seq<Event>, n: nat) {
    && n < |events| && events[n].Verify? && InOrder(Run(user, events[..n]).clock, events[n])
    && CodeAccepted(Run(user, events[..n]).user.otp, events[n].code, events[n].kind, events[n].time)
  }

  lemma {:induction false} CodeStaysTidy(user: User, events: seq<Event>, n: nat)
    requires Tidy(user.otp) && n <= |events|
    ensures Tidy(Run(user, events[..n]).user.otp)
  {
    if n > 0 {
      hide Next, Trimmed;
      assert events[..n][..n - 1] == events[..n - 1];
      CodeStaysTidy(user, events, n - 1);
      NoCodeAppears(Run(user, events[..n - 1]), events[n - 1]);
    }
  }

  lemma {:induction false} NoCodeStays(user: User, events: seq<Event>, i: nat, n: nat)
    requires i <= n <= |events| && Run(user, events[..i]).user.otp.None?
    ensures Run(user, events[..n]).user.otp.None?
    decreases n
  {
    if i < n {
      hide Next;
      assert events[..n][..n - 1] == events[..n - 1];
      NoCodeStays(user, events, i, n - 1);
      NoCodeAppears(Run(user, events[..n - 1]), events[n - 1]);
    }
  }

  /** Over every run an issued code is accepted at most once. */
  lemma CodeIsAcceptedOnce(user: User, events: seq<Event>, i: nat, j: nat)
    requires Tidy(user.otp) && Verifies(user, events, i) && Verifies(user, events, j)
    ensures i == j
  {
    if i != j {
      var first, second := if i < j then i else j, if i < j then j else i;
      var e := events[first];
      CodeStaysTidy(user, events, first);
      CodeIsUsedUp(Run(user, events[..first]), e.code, e.kind, e.time);
      assert events[..first + 1][..first] == events[..first];
      NoCodeStays(user, events, first + 1, second);
    }
  }

  /** Activation admits the correct password at once, and every lock and failure is forgotten. */
  lemma ActivationStartsAfresh(u: User, t: Attempt)
    ensures Compares(Activated(u), t) && Activated(u).isActivated
    ensures Activated(u).loginLimit == 0 && !Activated(u).isLocked && Activated(u).otp == u.otp
    ensures Activated(u).tokenVersion == u.tokenVersion && Activated(u).lastLogin == u.lastLogin
  {
  }

  /** Of these events only a logout touches the token version, and raises it by one. */
  lemma OnlyLogoutsRaise(s: State, e: Event)
    ensures Next(s, e).user.tokenVersion == s.user.tokenVersion + if e == Logout then 1 else 0
    ensures Next(s, e).user.lastLogin == s.user.lastLogin
  {
    hide OtpMatches;
  }

  // ---------- deactivation ----------

  lemma StaysDeactivated(s: State, e: Event, until: int)
    requires s.user.isLocked && s.user.lockedUntil.Some? && s.user.lockedUntil.value >= until
    requires Next(s, e).clock <= until <= s.clock + YEAR
    ensures var u := Next(s, e).user; u.isLocked && u.lockedUntil.Some? && u.lockedUntil.value >= until
    ensures Next(s, e).wrong == s.wrong && Next(s, e).clock >= s.clock
  {
  }

  /** With events one at a time, a deactivated account is locked for a year: whatever happens to it,
      no password is compared. */
  lemma {:induction false} DeactivationLocksForAYear(user: User, events: seq<Event>, i: nat)
    requires i < |events| && events[i].Deactivate? && InOrder(Run(user, events[..i]).clock, events[i])
    requires Run(user, events).clock <= events[i].time + YEAR
    ensures var s, until := Run(user, events), events[i].time + YEAR;
            && s.clock >= events[i].time && s.wrong == Run(user, events[..i]).wrong
            && s.user.isLocked && s.user.lockedUntil.Some? && s.user.lockedUntil.value >= until
            && forall t: Attempt | t.checked <= until :: !Compares(s.user, t)
    decreases |events|
  {
    var n := |events| - 1;
    var before := events[..n];
    if i == n {
      assert before == events[..i];
    } else {
      assert before[..i] == events[..i] && before[i] == events[i];
      ClockAdvances(Run(user, before), events[n]);
      DeactivationLocksForAYear(user, before, i);
      StaysDeactivated(Run(user, before), events[n], events[i].time + YEAR);
    }
  }

  lemma ClockAdvances(s: State, e: Event)
    ensures Next(s, e).clock >= s.clock
  {
  }

  /** After a deactivation no password is compared at all, in a year or later, until a code is accepted. */
  lemma {:induction false} InactiveUntilVerified(user: User, events: seq<Event>, i: nat)
    requires i < |events| && events[i].Deactivate? && InOrder(Run(user, events[..i]).clock, events[i])
    requires Tidy(user.otp) && forall k | i < k < |events| :: !Verifies(user, events, k)
    ensures !Run(user, events).user.isActive && Run(user, events).wrong == Run(user, events[..i]).wrong
    ensures forall t :: !Compares(Run(user, events).user, t)
    decreases |events|
  {
    var n := |events| - 1;
    var before := events[..n];
    if i == n {
      assert before == events[..i];
    } else {
      assert before[..i] == events[..i] && before[i] == events[i];
      forall k | i < k < n ensures !Verifies(user, before, k) {
        assert before[..k] == events[..k];
        assert !Verifies(user, events, k);
      }
      InactiveUntilVerified(user, before, i);
      CodeStaysTidy(user, events, n);
      assert !Verifies(user, events, n);
      StaysInactive(Run(user, before), events[n]);
    }
  }

  lemma StaysInactive(s: State, e: Event)
    requires !s.user.isActive && Tidy(s.user.otp)
    requires e.Verify? && InOrder(s.clock, e) ==> !CodeAccepted(s.user.otp, e.code, e.kind, e.time)
    ensures !Next(s, e).user.isActive && Next(s, e).wrong == s.wrong
  {
    hide OtpMatches, CodeAccepted;
    if e.Verify? {
      MatchesExactly(s.user, e.code, e.kind, e.time);
    }
  }

  /** A one-time password makes a deactivated account active again, but not unlocked: for the rest
      of the year the correct password is refused. */
  lemma VerifiedButLocked(user: User, deactivated: int, code: string, kind: string, time: int)
    requires OtpMatches(user, code, kind, time) && 0 <= deactivated <= time
    ensures var u := Run(user, [Deactivate(deactivated), Verify(code, kind, time)]).user;
            u.isActive && u.isActivated && forall t: Attempt :: Compares(u, t) <==> t.checked > deactivated + YEAR
  {
    var events := [Deactivate(deactivated), Verify(code, kind, time)];
    assert events[..1] == [events[0]] && [events[0]][..0] == [];
    assert Run(user, [events[0]]) == Next(State(user, [], 0), events[0]);
    hide UpperCase, Trim;
  }
}
