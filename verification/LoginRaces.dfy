/** Login attempts that overlap. An attempt reads the user, checks the lock, reads the user again,
    compares the password, and writes the count it read plus one; others run in between, so that
    failures can be lost from the count. */
module LoginRaces {
  import opened Common
  import opened Auth

  datatype Phase =
    | Looked(row: User)
    | Checked
    | Admitted(row: User)
    | Compared(row: User)

  /** `wrong` holds, for every wrong password compared, the count that its attempt had read;
      `written` holds the counts written, and `lifted` says how often an expired lock was lifted. */
  datatype State = State(user: User, attempts: map<nat, Phase>, wrong: multiset<int>, written: multiset<int>,
                         lifted: nat, clock: int)

  datatype Action =
    | Begin(pid: nat)
    | CheckLock(pid: nat, now: int)
    | ReadAgain(pid: nat)
    | Compare(pid: nat, now: int, correct: bool)
    | Count(pid: nat, now: int)
    | Deactivate(now: int)
    | Verify(code: string, kind: string, now: int)

  function Start(user: User): State { State(user, map[], multiset{}, multiset{}, 0, 0) }

  /** Time does not run backwards; an action out of order leaves the state as it is. */
  function Next(s: State, a: Action): State {
    match a
    case Begin(pid) =>
      if pid in s.attempts then s else s.(attempts := s.attempts[pid := Looked(s.user)])
    case CheckLock(pid, now) =>
      if now < s.clock || pid !in s.attempts || !s.attempts[pid].Looked? then s
      else
        var expired := LockExpired(s.attempts[pid].row, now);
        s.(user := if expired then Unlocked(s.user) else s.user, attempts := s.attempts[pid := Checked],
           lifted := s.lifted + (if expired then 1 else 0), clock := now)
    case ReadAgain(pid) =>
      if pid !in s.attempts || !s.attempts[pid].Checked? then s
      else if !s.user.isActive || s.user.isLocked then s.(attempts := s.attempts - {pid})
      else s.(attempts := s.attempts[pid := Admitted(s.user)])
    case Compare(pid, now, correct) =>
      if now < s.clock || pid !in s.attempts || !s.attempts[pid].Admitted? then s
      else if correct then s.(attempts := s.attempts - {pid}, clock := now)
      else
        var row := s.attempts[pid].row;
        s.(attempts := s.attempts[pid := Compared(row)], wrong := s.wrong + multiset{row.loginLimit}, clock := now)
    case Count(pid, now) =>
      if now < s.clock || pid !in s.attempts || !s.attempts[pid].Compared? then s
      else
        var count := s.attempts[pid].row.loginLimit + 1;
        s.(user := Counted(s.user, count, now), attempts := s.attempts - {pid},
           written := s.written + multiset{count}, clock := now)
    case Deactivate(now) =>
      if now < s.clock then s else s.(user := Deactivated(s.user, now), clock := now)
    case Verify(code, kind, now) =>
      if now < s.clock then s else s.(user := AfterOtp(s.user, code, kind, now), clock := now)
  }

  function Run(user: User, acts: seq<Action>): State {
    if acts == [] then Start(user) else Next(Run(user, acts[..|acts| - 1]), acts[|acts| - 1])
  }

  lemma UpToReadingAgain(s: State, pid: nat, now: int)
    requires pid !in s.attempts && s.clock <= now
    ensures var row := AfterLockCheck(s.user, now);
            Next(Next(Next(s, Begin(pid)), CheckLock(pid, now)), ReadAgain(pid)) ==
            s.(user := row, clock := now, lifted := s.lifted + (if LockExpired(s.user, now) then 1 else 0),
               attempts := if row.isActive && !row.isLocked then s.attempts[pid := Admitted(row)] else s.attempts)
  {
    var s2 := Next(Next(s, Begin(pid)), CheckLock(pid, now));
    assert s2.user == AfterLockCheck(s.user, now) && s2.attempts == s.attempts[pid := Checked];
    assert s.attempts[pid := Checked] - {pid} == s.attempts;
  }

  /** An attempt that goes through its steps with nothing in between is the attempt of the service. */
  lemma UninterruptedAttempt(s: State, pid: nat, t: Attempt)
    requires pid !in s.attempts && s.clock <= t.checked <= t.compared <= t.counted
    ensures var s3 := Next(Next(Next(s, Begin(pid)), CheckLock(pid, t.checked)), ReadAgain(pid));
            var s5 := Next(Next(s3, Compare(pid, t.compared, t.correct)), Count(pid, t.counted));
            && s5.user == AfterAttempt(s.user, t) && s5.attempts == s.attempts
            && |s5.wrong| == |s.wrong| + (if Compares(s.user, t) && !t.correct then 1 else 0)
            && (Compares(s.user, t) && !t.correct ==> s5.clock == t.counted)
  {
    UpToReadingAgain(s, pid, t.checked);
    var row := AfterLockCheck(s.user, t.checked);
    hide AfterLockCheck, Counted;
    assert s.attempts[pid := Admitted(row)] - {pid} == s.attempts;
    assert s.attempts[pid := Compared(row)] - {pid} == s.attempts;
  }

  // ---------- the counts that are read ----------

  /** The attempt has read its count and has not written it. */
  predicate Pending(s: State, pid: nat) {
    pid in s.attempts && (s.attempts[pid].Admitted? || s.attempts[pid].Compared?)
  }

  /** Only counts from 0 to 4 are read. */
  ghost predicate Proper(s: State) {
    && 0 <= s.user.loginLimit && (!s.user.isLocked ==> s.user.loginLimit < MAX_LOGIN_ATTEMPTS)
    && (forall pid | Pending(s, pid) :: 0 <= s.attempts[pid].row.loginLimit < MAX_LOGIN_ATTEMPTS)
    && (forall count | count in s.wrong :: 0 <= count < MAX_LOGIN_ATTEMPTS)
    && (forall count | count in s.written :: 0 < count)
  }

  lemma NextKeepsProper(s: State, a: Action)
    requires Proper(s)
    ensures Proper(Next(s, a))
  {
  }

  ghost function PendingAt(s: State, count: int): set<nat> {
    set pid | pid in s.attempts && Pending(s, pid) && s.attempts[pid].row.loginLimit == count
  }

  ghost function ComparedAt(s: State, count: int): set<nat> {
    set pid | pid in s.attempts && s.attempts[pid].Compared? && s.attempts[pid].row.loginLimit == count
  }

  lemma OneMember(a: set<nat>, b: set<nat>, x: nat)
    requires a - {x} == b - {x}
    ensures |b| == |a| - (if x in a then 1 else 0) + (if x in b then 1 else 0)
  {
    assert |a - {x}| == |a| - if x in a then 1 else 0;
    assert |b - {x}| == |b| - if x in b then 1 else 0;
  }

  /** How the sets change when one attempt moves on to a phase, or ends. */
  lemma PhaseChange(s: State, t: State, pid: nat, count: int)
    requires forall q | q != pid ::
        (q in t.attempts <==> q in s.attempts) && (q in s.attempts ==> t.attempts[q] == s.attempts[q])
    ensures pid in PendingAt(t, count) <==> Pending(t, pid) && t.attempts[pid].row.loginLimit == count
    ensures pid in ComparedAt(t, count) <==>
        pid in t.attempts && t.attempts[pid].Compared? && t.attempts[pid].row.loginLimit == count
    ensures |PendingAt(t, count)| == |PendingAt(s, count)|
              - (if pid in PendingAt(s, count) then 1 else 0) + (if pid in PendingAt(t, count) then 1 else 0)
    ensures |ComparedAt(t, count)| == |ComparedAt(s, count)|
              - (if pid in ComparedAt(s, count) then 1 else 0) + (if pid in ComparedAt(t, count) then 1 else 0)
  {
    assert PendingAt(t, count) - {pid} == PendingAt(s, count) - {pid};
    assert ComparedAt(t, count) - {pid} == ComparedAt(s, count) - {pid};
    OneMember(PendingAt(s, count), PendingAt(t, count), pid);
    OneMember(ComparedAt(s, count), ComparedAt(t, count), pid);
  }

  lemma PendingAreAttempts(s: State, count: int)
    ensures |PendingAt(s, count)| <= |s.attempts|
    ensures |ComparedAt(s, count)| <= |PendingAt(s, count)|
  {
    Subset(PendingAt(s, count), s.attempts.Keys);
    Subset(ComparedAt(s, count), PendingAt(s, count));
  }

  lemma {:induction false} Subset(a: set<nat>, b: set<nat>)
    requires a <= b
    ensures |a| <= |b|
  {
    if a != {} {
      var x :| x in a;
      Subset(a - {x}, b - {x});
    }
  }

  // ---------- how often a lock is lifted within half an hour ----------

  /** A lock that ends within half an hour of `base`, so that it was set before. */
  ghost predicate OldLock(u: User, base: int) {
    u.isLocked && u.lockedUntil.Some? && u.lockedUntil.value < base + LOCK_DURATION
  }

  /** The attempts that have yet to check such a lock. */
  ghost function OldLooked(s: State, base: int): set<nat> {
    set pid | pid in s.attempts && s.attempts[pid].Looked? && OldLock(s.attempts[pid].row, base)
  }

  /** Since `s0`: as long as an old lock is stored, none was lifted; from then on no attempt reads one. */
  ghost predicate LiftsFew(s0: State, s: State, base: int, m: nat) {
    && s.lifted >= s0.lifted
    && (if OldLock(s.user, base) then s.lifted == s0.lifted else s.lifted - s0.lifted + |OldLooked(s, base)| <= m)
  }

  /** The step happens within half an hour of `base`. */
  ghost predicate Within(s: State, a: Action, base: int) { base <= Next(s, a).clock <= base + LOCK_DURATION }

  lemma OldLookedChange(s: State, t: State, pid: nat, base: int)
    requires forall q | q != pid ::
               (q in t.attempts <==> q in s.attempts) && (q in s.attempts ==> t.attempts[q] == s.attempts[q])
    ensures |OldLooked(t, base)| == |OldLooked(s, base)|
              - (if pid in OldLooked(s, base) then 1 else 0) + (if pid in OldLooked(t, base) then 1 else 0)
  {
    assert OldLooked(t, base) - {pid} == OldLooked(s, base) - {pid};
    OneMember(OldLooked(s, base), OldLooked(t, base), pid);
  }

  lemma OldLookedAreAttempts(s: State, base: int)
    ensures |OldLooked(s, base)| <= |s.attempts|
  {
    Subset(OldLooked(s, base), s.attempts.Keys);
  }

  lemma OldLockAfter(s: State, a: Action, base: int)
    requires Within(s, a, base)
    ensures var t := Next(s, a);
            && s.lifted <= t.lifted <= s.lifted + 1
            && (OldLock(t.user, base) ==> OldLock(s.user, base) && t.lifted == s.lifted)
  {
    hide AfterOtp;
    if a.Verify? {
      VerifyKeepsLock(s, a);
    }
  }

  lemma OldLookedAfter(s: State, a: Action, base: int)
    requires Within(s, a, base)
    ensures var t := Next(s, a);
            && (t.lifted > s.lifted ==> |OldLooked(t, base)| + 1 <= |OldLooked(s, base)|)
            && (!OldLock(s.user, base) ==> |OldLooked(t, base)| <= |OldLooked(s, base)|)
  {
    hide AfterOtp, Deactivated, Counted, Unlocked;
    var t := Next(s, a);
    var pid := if a.Deactivate? || a.Verify? then 0 else a.pid;
    OldLookedChange(s, t, pid, base);
  }

  lemma NextLiftsFew(s0: State, s: State, a: Action, base: int, m: nat)
    requires LiftsFew(s0, s, base, m) && Within(s, a, base) && |s.attempts| <= m && |Next(s, a).attempts| <= m
    ensures LiftsFew(s0, Next(s, a), base, m)
  {
    hide Next, OldLock, OldLooked, Within;
    OldLockAfter(s, a, base);
    OldLookedAfter(s, a, base);
    OldLookedAreAttempts(s, base);
    OldLookedAreAttempts(Next(s, a), base);
  }

  lemma VerifyKeepsLock(s: State, a: Action)
    requires a.Verify?
    ensures var u := Next(s, a).user;
            u.loginLimit == s.user.loginLimit && u.isLocked == s.user.isLocked && u.lockedUntil == s.user.lockedUntil
  {
  }

  // ---------- how often a count is read within half an hour ----------

  /** How often since `s0` the stored count has become `count`, and once for the start. */
  ghost function Visits(s0: State, s: State, count: int): int {
    1 + (s.written[count] as int) - s0.written[count] + if count == 0 then s.lifted - s0.lifted else 0
  }

  ghost function WrittenAfter(s0: State, s: State, count: int): int {
    s.written[count + 1] as int - s0.written[count + 1]
  }

  /** Each time the count is `count`, at most `m` attempts read it, all still pending when it next
      changes; and each of them writes the next count once. */
  ghost predicate Metered(s0: State, s: State, m: nat) {
    && s0.wrong <= s.wrong
    && (forall count :: s.wrong[count] - s0.wrong[count] + |ComparedAt(s0, count)|
                        == WrittenAfter(s0, s, count) + |ComparedAt(s, count)|)
    && (forall count | count != s.user.loginLimit ::
          WrittenAfter(s0, s, count) + |PendingAt(s, count)| <= m * Visits(s0, s, count))
    && WrittenAfter(s0, s, s.user.loginLimit) <= m * (Visits(s0, s, s.user.loginLimit) - 1)
  }

  lemma Distribute(m: int, v: int)
    ensures m * (v - 1) + m == m * v
  {
  }

  /** The level left has been read at most `m` times per visit. */
  lemma LevelLeft(s0: State, s: State, m: nat)
    requires Metered(s0, s, m) && |s.attempts| <= m
    ensures forall count :: WrittenAfter(s0, s, count) + |PendingAt(s, count)| <= m * Visits(s0, s, count)
  {
    PendingAreAttempts(s, s.user.loginLimit);
    hide PendingAt, ComparedAt;
    Distribute(m, Visits(s0, s, s.user.loginLimit));
  }

  /** A step that makes the stored count `now`, by writing it or by lifting a lock, keeps the meter. */
  lemma VisitKeepsMetered(s0: State, s: State, t: State, m: nat, current: int)
    requires Metered(s0, s, m) && |s.attempts| <= m && t.user.loginLimit == current && t.wrong == s.wrong
    requires forall count :: Visits(s0, t, count) == Visits(s0, s, count) + if count == current then 1 else 0
    requires forall count ::
               && WrittenAfter(s0, t, count) + |PendingAt(t, count)|
                  <= WrittenAfter(s0, s, count) + |PendingAt(s, count)|
               && WrittenAfter(s0, t, count) + |ComparedAt(t, count)|
                  == WrittenAfter(s0, s, count) + |ComparedAt(s, count)|
    ensures Metered(s0, t, m)
  {
    hide PendingAt, ComparedAt, Visits, WrittenAfter;
    LevelLeft(s0, s, m);
    assert WrittenAfter(s0, t, current) <= m * Visits(s0, s, current);
  }

  lemma CountWrites(s0: State, s: State, a: Action, count: int)
    requires a.Count? && a.now >= s.clock && a.pid in s.attempts && s.attempts[a.pid].Compared?
    ensures var t, read := Next(s, a), s.attempts[a.pid].row.loginLimit;
            && t.user.loginLimit == read + 1 && t.wrong == s.wrong
            && Visits(s0, t, count) == Visits(s0, s, count) + (if count == read + 1 then 1 else 0)
            && WrittenAfter(s0, t, count) + |PendingAt(t, count)| <= WrittenAfter(s0, s, count) + |PendingAt(s, count)|
            && WrittenAfter(s0, t, count) + |ComparedAt(t, count)|
               == WrittenAfter(s0, s, count) + |ComparedAt(s, count)|
  {
    PhaseChange(s, Next(s, a), a.pid, count);
  }

  lemma CheckLifts(s0: State, s: State, a: Action, count: int)
    requires a.CheckLock? && Next(s, a).lifted > s.lifted
    ensures var t := Next(s, a);
            && t.user.loginLimit == 0 && t.wrong == s.wrong
            && Visits(s0, t, count) == Visits(s0, s, count) + (if count == 0 then 1 else 0)
            && WrittenAfter(s0, t, count) + |PendingAt(t, count)| <= WrittenAfter(s0, s, count) + |PendingAt(s, count)|
            && WrittenAfter(s0, t, count) + |ComparedAt(t, count)|
               == WrittenAfter(s0, s, count) + |ComparedAt(s, count)|
  {
    PhaseChange(s, Next(s, a), a.pid, count);
  }

  ghost predicate CountsNow(s: State, a: Action) {
    a.Count? && a.now >= s.clock && a.pid in s.attempts && s.attempts[a.pid].Compared?
  }

  /** The other steps change no count, and only add attempts to those that have read the stored one. */
  lemma OtherStep(s: State, a: Action, count: int)
    requires !CountsNow(s, a) && Next(s, a).lifted == s.lifted
    ensures var t := Next(s, a);
            && t.user.loginLimit == s.user.loginLimit && t.written == s.written && s.wrong <= t.wrong
            && t.wrong[count] - |ComparedAt(t, count)| == s.wrong[count] - |ComparedAt(s, count)|
            && (count != s.user.loginLimit ==> |PendingAt(t, count)| <= |PendingAt(s, count)|)
  {
    hide AfterOtp;
    if a.Verify? {
      VerifyKeepsLock(s, a);
    }
    PhaseChange(s, Next(s, a), if a.Deactivate? || a.Verify? then 0 else a.pid, count);
  }

  lemma OtherKeepsMetered(s0: State, s: State, a: Action, m: nat)
    requires Metered(s0, s, m) && !CountsNow(s, a) && Next(s, a).lifted == s.lifted
    ensures Metered(s0, Next(s, a), m)
  {
    hide Next, PendingAt, ComparedAt;
    var t := Next(s, a);
    OtherStep(s, a, 0);
    forall count ensures t.wrong[count] - s0.wrong[count] + |ComparedAt(s0, count)|
                         == WrittenAfter(s0, t, count) + |ComparedAt(t, count)| {
      OtherStep(s, a, count);
    }
    forall count | count != t.user.loginLimit
      ensures WrittenAfter(s0, t, count) + |PendingAt(t, count)| <= m * Visits(s0, t, count)
    {
      OtherStep(s, a, count);
      assert Visits(s0, t, count) == Visits(s0, s, count);
    }
  }

  lemma NextKeepsMetered(s0: State, s: State, a: Action, m: nat)
    requires Metered(s0, s, m) && |s.attempts| <= m
    ensures Metered(s0, Next(s, a), m)
  {
    hide Metered, PendingAt, ComparedAt, Visits, WrittenAfter;
    var t := Next(s, a);
    if CountsNow(s, a) {
      forall count { CountWrites(s0, s, a, count); }
      VisitKeepsMetered(s0, s, t, m, t.user.loginLimit);
    } else if t.lifted > s.lifted {
      forall count { CheckLifts(s0, s, a, count); }
      VisitKeepsMetered(s0, s, t, m, 0);
    } else {
      OtherKeepsMetered(s0, s, a, m);
    }
  }

  // ---------- the bound ----------

  /** Never more than `m` attempts are under way at a time. */
  ghost predicate AtMost(user: User, acts: seq<Action>, m: nat) {
    forall i | 0 <= i <= |acts| :: |Run(user, acts[..i]).attempts| <= m
  }

  lemma RunStep(user: User, acts: seq<Action>, n: nat)
    requires n < |acts|
    ensures Run(user, acts[..n + 1]) == Next(Run(user, acts[..n]), acts[n])
  {
    assert acts[..n + 1][..n] == acts[..n];
  }

  lemma RunStarts(user: User, acts: seq<Action>)
    ensures Run(user, acts[..0]) == Start(user)
  {
  }

  lemma {:induction false} RunsAreProper(user: User, acts: seq<Action>, n: nat)
    requires n <= |acts| && Proper(Start(user))
    ensures Proper(Run(user, acts[..n]))
  {
    hide Run, Next, Proper;
    if n == 0 {
      RunStarts(user, acts);
    } else {
      RunsAreProper(user, acts, n - 1);
      RunStep(user, acts, n - 1);
      NextKeepsProper(Run(user, acts[..n - 1]), acts[n - 1]);
    }
  }

  /** After the i-th action, the clock stays within half an hour of `base` up to the j-th. */
  ghost predicate Window(user: User, acts: seq<Action>, i: nat, j: nat, base: int)
    requires i <= j <= |acts|
  {
    forall k | i < k <= j :: base <= Run(user, acts[..k]).clock <= base + LOCK_DURATION
  }

  /** How many wrong passwords are compared after the i-th action and up to the j-th. */
  ghost function WrongBetween(user: User, acts: seq<Action>, i: nat, j: nat): int
    requires i <= j <= |acts|
  {
    |Run(user, acts[..j]).wrong| - |Run(user, acts[..i]).wrong|
  }

  /** Within half an hour at most `bound` wrong passwords are compared. */
  ghost predicate WindowsBounded(user: User, acts: seq<Action>, bound: nat) {
    forall i: nat, j: nat, base | i <= j <= |acts| && Window(user, acts, i, j, base) ::
      WrongBetween(user, acts, i, j) <= bound
  }

  lemma WindowStarts(s: State, base: int, m: nat)
    requires |s.attempts| <= m
    ensures LiftsFew(s, s, base, m) && Metered(s, s, m)
  {
    OldLookedAreAttempts(s, base);
    forall count ensures |PendingAt(s, count)| <= m {
      PendingAreAttempts(s, count);
    }
  }

  lemma {:induction false} WindowIsMetered(user: User, acts: seq<Action>, i: nat, j: nat, base: int, m: nat)
    requires i <= j <= |acts| && AtMost(user, acts, m) && Window(user, acts, i, j, base)
    ensures var s0, s := Run(user, acts[..i]), Run(user, acts[..j]); LiftsFew(s0, s, base, m) && Metered(s0, s, m)
    decreases j
  {
    hide Run, Next, LiftsFew, Metered;
    if i == j {
      WindowStarts(Run(user, acts[..i]), base, m);
    } else {
      var s0, s := Run(user, acts[..i]), Run(user, acts[..j - 1]);
      WindowIsMetered(user, acts, i, j - 1, base, m);
      RunStep(user, acts, j - 1);
      NextLiftsFew(s0, s, acts[j - 1], base, m);
      NextKeepsMetered(s0, s, acts[j - 1], m);
    }
  }

  /** At most how often one count is read within half an hour. */
  function Reads(m: nat, count: nat): nat { if count == 0 then m * (1 + m) else m * (1 + Reads(m, count - 1)) }

  /** At most how often any count from `first` on is read within half an hour. */
  function ReadsFrom(m: nat, first: nat): nat
    decreases MAX_LOGIN_ATTEMPTS - first
  {
    if first >= MAX_LOGIN_ATTEMPTS then 0 else Reads(m, first) + ReadsFrom(m, first + 1)
  }

  lemma Scale(m: nat, x: int, y: int)
    requires x <= y
    ensures m * x <= m * y
  {
  }

  lemma FirstVisits(s0: State, s: State, base: int, m: nat)
    requires Proper(s0) && Proper(s) && LiftsFew(s0, s, base, m)
    ensures Visits(s0, s, 0) <= 1 + m
  {
    assert 0 !in s.written && 0 !in s0.written;
  }

  lemma {:induction false} LevelAtMost(s0: State, s: State, base: int, m: nat, count: nat)
    requires Proper(s0) && Proper(s) && LiftsFew(s0, s, base, m) && Metered(s0, s, m) && |s.attempts| <= m
    ensures WrittenAfter(s0, s, count) + |PendingAt(s, count)| <= Reads(m, count)
    decreases count
  {
    hide Proper, LiftsFew, Metered, PendingAt;
    LevelLeft(s0, s, m);
    if count > 0 {
      LevelAtMost(s0, s, base, m, count - 1);
      Scale(m, Visits(s0, s, count), 1 + Reads(m, count - 1));
    } else {
      FirstVisits(s0, s, base, m);
      Scale(m, Visits(s0, s, 0), 1 + m);
    }
  }

  lemma ReadAtMost(s0: State, s: State, base: int, m: nat, count: nat)
    requires Proper(s0) && Proper(s) && LiftsFew(s0, s, base, m) && Metered(s0, s, m) && |s.attempts| <= m
    ensures s.wrong[count] - s0.wrong[count] <= Reads(m, count)
  {
    hide Proper, LiftsFew, PendingAt, ComparedAt, Reads;
    PendingAreAttempts(s, count);
    LevelAtMost(s0, s, base, m, count);
  }

  function SumFrom(counts: multiset<int>, first: int): nat
    decreases MAX_LOGIN_ATTEMPTS - first
  {
    if first >= MAX_LOGIN_ATTEMPTS then 0 else counts[first] + SumFrom(counts, first + 1)
  }

  lemma {:induction false} SizeIsSum(counts: multiset<int>, first: int)
    requires forall count | count in counts :: first <= count < MAX_LOGIN_ATTEMPTS
    ensures |counts| == SumFrom(counts, first)
    decreases MAX_LOGIN_ATTEMPTS - first
  {
    if first >= MAX_LOGIN_ATTEMPTS {
      forall count ensures counts[count] == 0 {
        assert count !in counts;
      }
      assert counts == multiset{};
    } else {
      var rest := counts[first := 0];
      SizeIsSum(rest, first + 1);
      SameSum(counts, rest, first + 1);
      assert |rest| == |counts| - counts[first];
    }
  }

  lemma {:induction false} SameSum(a: multiset<int>, b: multiset<int>, first: int)
    requires forall count | count >= first :: a[count] == b[count]
    ensures SumFrom(a, first) == SumFrom(b, first)
    decreases MAX_LOGIN_ATTEMPTS - first
  {
    if first < MAX_LOGIN_ATTEMPTS {
      SameSum(a, b, first + 1);
    }
  }

  lemma {:induction false} SumAtMost(counts: multiset<int>, first: nat, m: nat)
    requires forall count: nat | first <= count < MAX_LOGIN_ATTEMPTS :: counts[count] <= Reads(m, count)
    ensures SumFrom(counts, first) <= ReadsFrom(m, first)
    decreases MAX_LOGIN_ATTEMPTS - first
  {
    if first < MAX_LOGIN_ATTEMPTS {
      SumAtMost(counts, first + 1, m);
    }
  }

  /** Within half an hour, few. */
  lemma WindowIsBounded(user: User, acts: seq<Action>, i: nat, j: nat, base: int, m: nat)
    requires i <= j <= |acts| && Proper(Start(user)) && AtMost(user, acts, m) && Window(user, acts, i, j, base)
    ensures WrongBetween(user, acts, i, j) <= ReadsFrom(m, 0)
  {
    var s0, s := Run(user, acts[..i]), Run(user, acts[..j]);
    WindowIsMetered(user, acts, i, j, base, m);
    RunsAreProper(user, acts, i);
    RunsAreProper(user, acts, j);
    NewReads(s0, s, base, m);
  }

  lemma NewReads(s0: State, s: State, base: int, m: nat)
    requires Proper(s0) && Proper(s) && LiftsFew(s0, s, base, m) && Metered(s0, s, m) && |s.attempts| <= m
    ensures |s.wrong| - |s0.wrong| <= ReadsFrom(m, 0)
  {
    var more := s.wrong - s0.wrong;
    assert s.wrong == s0.wrong + more;
    assert forall count | count in more :: count in s.wrong;
    assert forall count | count in more :: 0 <= count < MAX_LOGIN_ATTEMPTS;
    hide LiftsFew, Metered, Proper, Reads;
    SizeIsSum(more, 0);
    forall count: nat ensures more[count] <= Reads(m, count) {
      ReadAtMost(s0, s, base, m, count);
    }
    SumAtMost(more, 0, m);
  }

  lemma ClockStep(s: State, a: Action)
    ensures s.clock <= Next(s, a).clock
  {
  }

  lemma {:induction false} ClockAdvances(user: User, acts: seq<Action>, i: nat, j: nat)
    requires i <= j <= |acts|
    ensures Run(user, acts[..i]).clock <= Run(user, acts[..j]).clock
    decreases j
  {
    hide Run, Next;
    if i < j {
      ClockAdvances(user, acts, i, j - 1);
      RunStep(user, acts, j - 1);
      ClockStep(Run(user, acts[..j - 1]), acts[j - 1]);
    }
  }

  /** The first time the clock passes `limit`. */
  lemma {:induction false} FirstAfter(user: User, acts: seq<Action>, i: nat, j: nat, limit: int) returns (k: nat)
    requires i < j <= |acts| && Run(user, acts[..i]).clock <= limit < Run(user, acts[..j]).clock
    ensures i < k <= j && Run(user, acts[..k - 1]).clock <= limit < Run(user, acts[..k]).clock
    decreases j
  {
    hide Run;
    if Run(user, acts[..j - 1]).clock <= limit {
      k := j;
    } else {
      k := FirstAfter(user, acts, i, j - 1, limit);
    }
  }

  lemma WindowOf(user: User, acts: seq<Action>, i: nat, j: nat)
    requires i < j <= |acts| && Run(user, acts[..j]).clock <= Run(user, acts[..i + 1]).clock + LOCK_DURATION
    ensures Window(user, acts, i, j, Run(user, acts[..i + 1]).clock)
  {
    hide Run;
    forall k | i < k <= j
      ensures Run(user, acts[..i + 1]).clock <= Run(user, acts[..k]).clock <= Run(user, acts[..j]).clock
    {
      ClockAdvances(user, acts, i + 1, k);
      ClockAdvances(user, acts, k, j);
    }
  }

  lemma OneWindowMore(span: int, windows: int, bound: nat, total: int)
    requires span > LOCK_DURATION && windows == span / LOCK_DURATION
    requires total <= bound + ((span - LOCK_DURATION) / LOCK_DURATION + 1) * bound
    ensures total <= (windows + 1) * bound
  {
    assert (span - LOCK_DURATION) / LOCK_DURATION == windows - 1;
  }

  lemma FirstWindowSuffices(span: nat, bound: nat)
    ensures bound <= (span / LOCK_DURATION + 1) * bound
  {
    assert (span / LOCK_DURATION) * bound >= 0;
  }

  /** What is bounded within every half hour is bounded within any span, for every started half hour. */
  lemma {:induction false} SpanIsBounded(user: User, acts: seq<Action>, i: nat, j: nat, span: nat, bound: nat)
    requires WindowsBounded(user, acts, bound) && i < j <= |acts|
    requires Run(user, acts[..j]).clock - Run(user, acts[..i + 1]).clock <= span
    ensures WrongBetween(user, acts, i, j) <= (span / LOCK_DURATION + 1) * bound
    decreases j - i
  {
    hide Run, Window;
    var base := Run(user, acts[..i + 1]).clock;
    if Run(user, acts[..j]).clock <= base + LOCK_DURATION {
      WindowOf(user, acts, i, j);
      FirstWindowSuffices(span, bound);
    } else {
      var k := FirstAfter(user, acts, i + 1, j, base + LOCK_DURATION);
      WindowOf(user, acts, i, k - 1);
      SpanIsBounded(user, acts, k - 1, j, span - LOCK_DURATION, bound);
      OneWindowMore(span, span / LOCK_DURATION, bound, WrongBetween(user, acts, i, j));
    }
  }

  /** Over every schedule of overlapping attempts, of which at most `m` are under way at a time, the
      wrong passwords compared within any `span` number at most `ReadsFrom(m, 0)` for every started
      half hour of it. */
  lemma OverlappingWrongPasswordsAreBounded(user: User, acts: seq<Action>, i: nat, j: nat, span: nat, m: nat)
    requires 0 <= user.loginLimit && (!user.isLocked ==> user.loginLimit < MAX_LOGIN_ATTEMPTS)
    requires i < j <= |acts| && AtMost(user, acts, m)
    requires Run(user, acts[..j]).clock - Run(user, acts[..i + 1]).clock <= span
    ensures WrongBetween(user, acts, i, j) <= (span / LOCK_DURATION + 1) * ReadsFrom(m, 0)
  {
    assert Proper(Start(user));
    hide Run, AtMost, Window, WrongBetween, ReadsFrom, Proper;
    forall i: nat, j: nat, base | i <= j <= |acts| && Window(user, acts, i, j, base)
      ensures WrongBetween(user, acts, i, j) <= ReadsFrom(m, 0)
    {
      WindowIsBounded(user, acts, i, j, base, m);
    }
    SpanIsBounded(user, acts, i, j, span, ReadsFrom(m, 0));
  }

  function Power(m: nat, k: nat): nat { if k == 0 then 1 else m * Power(m, k - 1) }

  /** m + m^2 + ... + m^k. */
  function Powers(m: nat, k: nat): nat { if k == 0 then 0 else Powers(m, k - 1) + Power(m, k) }

  lemma {:induction false} PowersTimes(m: nat, k: nat)
    ensures m * (1 + Powers(m, k)) == Powers(m, k + 1)
  {
    if k == 0 {
      assert Power(m, 0) == 1 && Power(m, 1) == m;
      assert Powers(m, 0) == 0 && Powers(m, 1) == Powers(m, 0) + Power(m, 1);
    } else {
      PowersTimes(m, k - 1);
      Distribute2(m, 1 + Powers(m, k - 1), Power(m, k));
    }
  }

  lemma Distribute2(m: nat, x: nat, y: nat)
    ensures m * (x + y) == m * x + m * y
  {
  }

  lemma {:induction false} ReadsArePowers(m: nat, count: nat)
    ensures Reads(m, count) == Powers(m, count + 2)
  {
    if count == 0 {
      assert Power(m, 0) == 1 && Power(m, 1) == m;
      assert Powers(m, 0) == 0 && Powers(m, 1) == m;
    } else {
      ReadsArePowers(m, count - 1);
    }
    PowersTimes(m, count + 1);
  }

  /** That number is 5m + 5m^2 + 4m^3 + 3m^4 + 2m^5 + m^6. */
  lemma ReadsPolynomial(m: nat)
    ensures ReadsFrom(m, 0)
         == 5 * Power(m, 1) + 5 * Power(m, 2) + 4 * Power(m, 3) + 3 * Power(m, 4) + 2 * Power(m, 5) + Power(m, 6)
  {
    hide Reads, Power;
    ReadsArePowers(m, 0);
    ReadsArePowers(m, 1);
    ReadsArePowers(m, 2);
    ReadsArePowers(m, 3);
    ReadsArePowers(m, 4);
    assert ReadsFrom(m, 4) == Reads(m, 4);
    assert Powers(m, 1) == Power(m, 1);
    assert Powers(m, 3) == Powers(m, 2) + Power(m, 3);
    assert Powers(m, 5) == Powers(m, 4) + Power(m, 5);
  }

  // ---------- and no smaller number will do for all ----------

  /** Attempts up to the comparison of a wrong password, one after the other, none counted yet. */
  function Burst(n: nat): seq<Action> {
    if n == 0 then [] else Burst(n - 1) + [Begin(n), CheckLock(n, 0), ReadAgain(n), Compare(n, 0, false)]
  }

  lemma RunFour(user: User, acts: seq<Action>, a: Action, b: Action, c: Action, d: Action)
    ensures Run(user, acts + [a, b, c, d]) == Next(Next(Next(Next(Run(user, acts), a), b), c), d)
  {
    hide Next;
    var all := acts + [a, b, c, d];
    assert all[..|acts| + 3][..|acts| + 2] == acts + [a, b] && (acts + [a, b])[..|acts| + 1] == acts + [a];
    assert (acts + [a])[..|acts|] == acts;
    assert Run(user, acts + [a]) == Next(Run(user, acts), a);
    assert Run(user, acts + [a, b]) == Next(Run(user, acts + [a]), b);
    assert Run(user, all[..|acts| + 3]) == Next(Run(user, acts + [a, b]), c);
  }

  lemma BurstStep(s: State, n: nat)
    requires s.user.isActive && !s.user.isLocked && s.clock == 0 && n !in s.attempts
    ensures var t := Next(Next(Next(Next(s, Begin(n)), CheckLock(n, 0)), ReadAgain(n)), Compare(n, 0, false));
            t == s.(attempts := s.attempts[n := Compared(s.user)], wrong := s.wrong + multiset{s.user.loginLimit})
  {
    var s2 := Next(Next(s, Begin(n)), CheckLock(n, 0));
    assert s2 == s.(attempts := s.attempts[n := Checked]);
    assert Next(s2, ReadAgain(n)) == s.(attempts := s.attempts[n := Admitted(s.user)]);
  }

  /** Any number of wrong passwords can be compared at once, if so many attempts overlap. */
  lemma {:induction false} AnyNumberAtOnce(user: User, n: nat)
    requires user.isActive && !user.isLocked
    ensures var s := Run(user, Burst(n));
            && s.user == user && s.clock == 0 && |s.wrong| == n && |s.attempts| == n
            && forall pid | pid in s.attempts :: pid <= n
  {
    hide Next;
    if n > 0 {
      hide Run;
      AnyNumberAtOnce(user, n - 1);
      RunFour(user, Burst(n - 1), Begin(n), CheckLock(n, 0), ReadAgain(n), Compare(n, 0, false));
      BurstStep(Run(user, Burst(n - 1)), n);
    }
  }
}
