/** Tokens and logout. Logging in, refreshing and logging out take two steps each: other requests
    run between reading the user and signing a token or writing the next version. */
module Tokens {
  import opened Common
  import opened Auth

  /** A signed token, and the token it was refreshed from, if any. */
  datatype Issued = Issued(token: Token, parent: Option<nat>)

  /** A request that has read its payload and has not answered yet; `from` is the token it showed. */
  datatype Session = Session(payload: Payload, from: Option<nat>)

  /** `logouts` holds the user and the version that each logout under way has read. */
  datatype State = State(users: map<string, User>, sessions: map<nat, Session>, logouts: map<nat, Payload>,
                         issued: seq<Issued>)

  datatype Action =
    | ReadUser(pid: nat, id: string)
    | Authenticate(pid: nat, token: nat)
    | SignIn(pid: nat, exp: int)
    | RefreshToken(pid: nat, now: int, exp: int)
    | BeginLogout(pid: nat, id: string)
    | FinishLogout(pid: nat)
    | Change(id: string, user: User)

  function WithVersion(users: map<string, User>, id: string, version: int): map<string, User> {
    if id in users then users[id := users[id].(tokenVersion := version)] else users
  }

  /** `Change` stands for every other update of a user row: none of them touches the version. */
  function Next(s: State, a: Action): State {
    match a
    case ReadUser(pid, id) =>
      if id in s.users && pid !in s.sessions then
        s.(sessions := s.sessions[pid := Session(Payload(id, s.users[id].tokenVersion), None)])
      else s
    case Authenticate(pid, token) =>
      if token < |s.issued| && pid !in s.sessions && Accept(s.users, s.issued[token].token).Some? then
        s.(sessions := s.sessions[pid := Session(Accept(s.users, s.issued[token].token).value, Some(token))])
      else s
    case SignIn(pid, exp) =>
      if pid in s.sessions && s.sessions[pid].from.None? then
        s.(issued := s.issued + [Issued(Sign(s.sessions[pid].payload, exp), None)])
      else s
    case RefreshToken(pid, now, exp) =>
      if pid in s.sessions && s.sessions[pid].from.Some? && s.sessions[pid].from.value < |s.issued| then
        var shown := s.issued[s.sessions[pid].from.value].token;
        s.(issued := s.issued + [Issued(Refresh(shown, s.sessions[pid].payload, now, exp), s.sessions[pid].from)])
      else s
    case BeginLogout(pid, id) =>
      if id in s.users && pid !in s.logouts then
        s.(logouts := s.logouts[pid := Payload(id, s.users[id].tokenVersion)])
      else s
    case FinishLogout(pid) =>
      if pid in s.logouts then
        s.(users := WithVersion(s.users, s.logouts[pid].id, s.logouts[pid].version + 1), logouts := s.logouts - {pid})
      else s
    case Change(id, user) =>
      if id in s.users then s.(users := s.users[id := user.(tokenVersion := s.users[id].tokenVersion)]) else s
  }

  function Run(users: map<string, User>, acts: seq<Action>): State {
    if acts == [] then State(users, map[], map[], []) else Next(Run(users, acts[..|acts| - 1]), acts[|acts| - 1])
  }

  lemma RunStep(users: map<string, User>, acts: seq<Action>, n: nat)
    requires n < |acts|
    ensures Run(users, acts[..n + 1]) == Next(Run(users, acts[..n]), acts[n])
  {
    assert acts[..n + 1][..n] == acts[..n];
  }

  /** The version a token claims. */
  function Version(t: Token): int { if t.version.Some? then t.version.value else 0 }

  /** An accepted token carries exactly the current version of an active user. */
  lemma AcceptedIsCurrent(users: map<string, User>, t: Token)
    ensures Accept(users, t).Some? <==>
            t.sub != "" && t.sub in users && users[t.sub].isActive && Version(t) == users[t.sub].tokenVersion
    ensures Accept(users, t).Some? ==> Claims(t, Accept(users, t).value)
  {
  }

  const FIVE_HOURS := 5 * 60 * 60 * 1000

  /** A token with at most five hours left is replaced, one with more is kept; so unless fresh
      tokens last no longer than that, the answer to a refresh has more than five hours left. */
  lemma RefreshedHasTimeLeft(token: Token, p: Payload, now: int, exp: int)
    ensures var refreshed := Refresh(token, p, now, exp);
            if token.exp.None? || token.exp.value == 0 then refreshed == token
            else
              && (token.exp.value * 1000 - now > FIVE_HOURS ==> refreshed == token)
              && (token.exp.value * 1000 - now <= FIVE_HOURS ==> refreshed == Token(p.id, Some(p.version), Some(exp)))
              && (exp * 1000 - now > FIVE_HOURS ==>
                    refreshed.exp.Some? && refreshed.exp.value * 1000 - now > FIVE_HOURS)
  {
  }

  /** A login with nothing in between issues a token that is accepted. */
  lemma UninterruptedLogin(s: State, pid: nat, id: string, exp: int)
    requires id in s.users && s.users[id].isActive && id != "" && pid !in s.sessions
    ensures var t := Next(Next(s, ReadUser(pid, id)), SignIn(pid, exp));
            && t.users == s.users && |t.issued| == |s.issued| + 1 && s.issued <= t.issued
            && t.issued[|s.issued|].token == Token(id, Some(s.users[id].tokenVersion), Some(exp))
            && Accept(t.users, t.issued[|s.issued|].token).Some?
  {
  }

  /** A refresh with nothing in between answers an accepted token with one that is accepted. */
  lemma UninterruptedRefresh(s: State, pid: nat, i: nat, now: int, exp: int)
    requires i < |s.issued| && Accept(s.users, s.issued[i].token).Some? && pid !in s.sessions
    ensures var t := Next(Next(s, Authenticate(pid, i)), RefreshToken(pid, now, exp));
            && t.users == s.users && |t.issued| == |s.issued| + 1 && s.issued <= t.issued
            && t.issued[|s.issued|].parent == Some(i)
            && t.issued[|s.issued|].token
               == Refresh(s.issued[i].token, Accept(s.users, s.issued[i].token).value, now, exp)
            && Accept(t.users, t.issued[|s.issued|].token).Some?
  {
  }

  // ---------- when versions never decrease ----------

  /** Users stay, and their versions never decrease. */
  ghost predicate NeverBack(users: map<string, User>, users': map<string, User>) {
    forall id | id in users :: id in users' && users[id].tokenVersion <= users'[id].tokenVersion
  }

  /** The action ends a logout, and the version has moved since that logout read it past the one it
      writes: a second logout ended in between, and a third began after that and ended too. */
  ghost predicate Behind(s: State, a: Action) {
    && a.FinishLogout? && a.pid in s.logouts && s.logouts[a.pid].id in s.users
    && s.logouts[a.pid].version + 1 < s.users[s.logouts[a.pid].id].tokenVersion
  }

  ghost predicate NoneBehind(users: map<string, User>, acts: seq<Action>) {
    forall i | 0 <= i < |acts| :: !Behind(Run(users, acts[..i]), acts[i])
  }

  lemma StepBackExactlyWhenBehind(s: State, a: Action)
    ensures NeverBack(s.users, Next(s, a).users) <==> !Behind(s, a)
  {
  }

  lemma {:induction false} NeverBackUpTo(users: map<string, User>, acts: seq<Action>, i: nat, j: nat)
    requires NoneBehind(users, acts) && i <= j <= |acts|
    ensures NeverBack(Run(users, acts[..i]).users, Run(users, acts[..j]).users)
    decreases j
  {
    if i < j {
      hide Next, Behind, Run;
      NeverBackUpTo(users, acts, i, j - 1);
      RunStep(users, acts, j - 1);
      StepBackExactlyWhenBehind(Run(users, acts[..j - 1]), acts[j - 1]);
    }
  }

  ghost predicate VersionsNeverDecrease(users: map<string, User>, acts: seq<Action>) {
    forall i, j | 0 <= i <= j <= |acts| :: NeverBack(Run(users, acts[..i]).users, Run(users, acts[..j]).users)
  }

  /** Versions never decrease over a run exactly when no logout ends behind. */
  lemma NeverDecreaseExactlyWhenNoneBehind(users: map<string, User>, acts: seq<Action>)
    ensures VersionsNeverDecrease(users, acts) <==> NoneBehind(users, acts)
  {
    hide Next, Behind, NeverBack, Run;
    if NoneBehind(users, acts) {
      forall i, j | 0 <= i <= j <= |acts| ensures NeverBack(Run(users, acts[..i]).users, Run(users, acts[..j]).users) {
        NeverBackUpTo(users, acts, i, j);
      }
    } else {
      var i :| 0 <= i < |acts| && Behind(Run(users, acts[..i]), acts[i]);
      RunStep(users, acts, i);
      StepBackExactlyWhenBehind(Run(users, acts[..i]), acts[i]);
      assert !NeverBack(Run(users, acts[..i]).users, Run(users, acts[..i + 1]).users);
    }
  }

  /** A logout with nothing in between is the service's `Logout`. */
  lemma UninterruptedLogout(s: State, pid: nat, id: string)
    requires pid !in s.logouts
    ensures var t := Next(Next(s, BeginLogout(pid, id)), FinishLogout(pid));
            t == s.(users := WithVersion(s.users, id, if id in s.users then s.users[id].tokenVersion + 1 else 0))
  {
    assert id in s.users ==> s.logouts[pid := Payload(id, s.users[id].tokenVersion)] - {pid} == s.logouts;
  }

  // ---------- when no two logouts of a user overlap ----------

  ghost predicate Alone(s: State, a: Action) {
    a.BeginLogout? ==> forall pid | pid in s.logouts :: s.logouts[pid].id != a.id
  }

  /** No logout begins while another one of the same user is under way. */
  ghost predicate NoOverlap(users: map<string, User>, acts: seq<Action>) {
    forall i | 0 <= i < |acts| :: Alone(Run(users, acts[..i]), acts[i])
  }

  /** Every logout under way has read the current version and is the only one of its user. */
  ghost predicate LogoutsCurrent(s: State) {
    && (forall pid | pid in s.logouts ::
          s.logouts[pid].id in s.users && s.logouts[pid].version == s.users[s.logouts[pid].id].tokenVersion)
    && (forall p, q | p in s.logouts && q in s.logouts && p != q :: s.logouts[p].id != s.logouts[q].id)
  }

  lemma NextKeepsLogoutsCurrent(s: State, a: Action)
    requires LogoutsCurrent(s) && Alone(s, a)
    ensures LogoutsCurrent(Next(s, a)) && !Behind(s, a)
  {
  }

  lemma {:induction false} LogoutsStayCurrent(users: map<string, User>, acts: seq<Action>, n: nat)
    requires NoOverlap(users, acts) && n <= |acts|
    ensures LogoutsCurrent(Run(users, acts[..n]))
  {
    if n > 0 {
      assert Alone(Run(users, acts[..n - 1]), acts[n - 1]);
      hide Run, NoOverlap, LogoutsCurrent, Next, Alone, Behind;
      LogoutsStayCurrent(users, acts, n - 1);
      RunStep(users, acts, n - 1);
      NextKeepsLogoutsCurrent(Run(users, acts[..n - 1]), acts[n - 1]);
    }
  }

  /** Without overlapping logouts of one user no logout is ever behind. */
  lemma NoOverlapMeansNoneBehind(users: map<string, User>, acts: seq<Action>)
    requires NoOverlap(users, acts)
    ensures NoneBehind(users, acts)
  {
    hide Run, Next, LogoutsCurrent;
    forall i | 0 <= i < |acts| ensures !Behind(Run(users, acts[..i]), acts[i]) {
      LogoutsStayCurrent(users, acts, i);
      NextKeepsLogoutsCurrent(Run(users, acts[..i]), acts[i]);
    }
  }

  // ---------- what a logout kills ----------

  ghost predicate NotAhead(users: map<string, User>, id: string, version: int) {
    id in users && version <= users[id].tokenVersion
  }

  ghost predicate SameClaim(t: Token, u: Token) { t.sub == u.sub && Version(t) == Version(u) }

  ghost predicate Claims(t: Token, p: Payload) { t.sub == p.id && Version(t) == p.version }

  /** A refreshed token is for the same user and version as the one it came from. */
  ghost predicate Lineage(s: State) {
    && (forall i | 0 <= i < |s.issued| && s.issued[i].parent.Some? ::
          s.issued[i].parent.value < i && SameClaim(s.issued[i].token, s.issued[s.issued[i].parent.value].token))
    && (forall pid | pid in s.sessions && s.sessions[pid].from.Some? ::
          s.sessions[pid].from.value < |s.issued|
          && Claims(s.issued[s.sessions[pid].from.value].token, s.sessions[pid].payload))
  }

  /** Nothing signed or about to be signed is ahead of the user's version. */
  ghost predicate NothingAhead(s: State) {
    && (forall i | 0 <= i < |s.issued| :: NotAhead(s.users, s.issued[i].token.sub, Version(s.issued[i].token)))
    && (forall pid | pid in s.sessions ::
          NotAhead(s.users, s.sessions[pid].payload.id, s.sessions[pid].payload.version))
  }

  ghost predicate Invariant(s: State) { Lineage(s) && NothingAhead(s) }

  lemma NextIssues(s: State, a: Action)
    ensures s.issued <= Next(s, a).issued
  {
  }

  lemma NextKeepsLineage(s: State, a: Action)
    requires Lineage(s)
    ensures Lineage(Next(s, a))
  {
  }

  lemma NextKeepsNothingAhead(s: State, a: Action)
    requires NothingAhead(s) && NeverBack(s.users, Next(s, a).users)
    ensures NothingAhead(Next(s, a))
  {
  }

  lemma NextKeepsInvariant(s: State, a: Action)
    requires Invariant(s) && !Behind(s, a)
    ensures Invariant(Next(s, a))
  {
    hide Next, Behind, Lineage, NothingAhead, NeverBack;
    StepBackExactlyWhenBehind(s, a);
    NextKeepsLineage(s, a);
    NextKeepsNothingAhead(s, a);
  }

  lemma {:induction false} RunsKeepInvariant(users: map<string, User>, acts: seq<Action>, n: nat)
    requires NoneBehind(users, acts) && n <= |acts|
    ensures Invariant(Run(users, acts[..n]))
  {
    if n > 0 {
      assert !Behind(Run(users, acts[..n - 1]), acts[n - 1]);
      hide Run, NoneBehind, Next, Behind, Invariant;
      RunsKeepInvariant(users, acts, n - 1);
      RunStep(users, acts, n - 1);
      NextKeepsInvariant(Run(users, acts[..n - 1]), acts[n - 1]);
    }
  }

  lemma {:induction false} IssuedStay(users: map<string, User>, acts: seq<Action>, i: nat, j: nat)
    requires i <= j <= |acts|
    ensures Run(users, acts[..i]).issued <= Run(users, acts[..j]).issued
    decreases j
  {
    if i < j {
      hide Run, Next;
      IssuedStay(users, acts, i, j - 1);
      RunStep(users, acts, j - 1);
      NextIssues(Run(users, acts[..j - 1]), acts[j - 1]);
    }
  }

  /** Token `i` is `j`, or was refreshed from it in some number of steps. */
  ghost predicate ComesFrom(issued: seq<Issued>, i: nat, j: nat)
    decreases i
  {
    && i < |issued|
    && (i == j
        || (issued[i].parent.Some? && issued[i].parent.value < i && ComesFrom(issued, issued[i].parent.value, j)))
  }

  lemma {:induction false} DescendantsClaimTheSame(s: State, i: nat, j: nat)
    requires Lineage(s) && ComesFrom(s.issued, i, j)
    ensures j <= i < |s.issued| && SameClaim(s.issued[i].token, s.issued[j].token)
    decreases i
  {
    if i != j {
      DescendantsClaimTheSame(s, s.issued[i].parent.value, j);
    }
  }

  /** A logout reads the user with the b-th action and writes the next version with the n-th. */
  ghost predicate LogsOut(users: map<string, User>, acts: seq<Action>, b: nat, n: nat) {
    && b < n < |acts| && acts[b].BeginLogout? && acts[b].id in Run(users, acts[..b]).users
    && acts[b].pid !in Run(users, acts[..b]).logouts && acts[n] == FinishLogout(acts[b].pid)
    && forall k | b < k < n :: acts[k] != FinishLogout(acts[b].pid)
  }

  lemma LogoutStays(s: State, a: Action, pid: nat)
    requires pid in s.logouts && a != FinishLogout(pid)
    ensures pid in Next(s, a).logouts && Next(s, a).logouts[pid] == s.logouts[pid]
  {
  }

  lemma {:induction false} LogoutRemembers(users: map<string, User>, acts: seq<Action>, b: nat, k: nat, n: nat)
    requires LogsOut(users, acts, b, n) && b < k <= n
    ensures acts[b].pid in Run(users, acts[..k]).logouts
    ensures Run(users, acts[..k]).logouts[acts[b].pid] ==
        Payload(acts[b].id, Run(users, acts[..b]).users[acts[b].id].tokenVersion)
    decreases k
  {
    hide Run;
    RunStep(users, acts, k - 1);
    if b < k - 1 {
      hide Next;
      LogoutRemembers(users, acts, b, k - 1, n);
      LogoutStays(Run(users, acts[..k - 1]), acts[k - 1], acts[b].pid);
    }
  }

  lemma LogoutWrites(s: State, pid: nat)
    requires pid in s.logouts && s.logouts[pid].id in s.users
    ensures var id := s.logouts[pid].id; var t := Next(s, FinishLogout(pid));
            id in t.users && t.users[id].tokenVersion == s.logouts[pid].version + 1
  {
  }

  /** From a logout on, the version exceeds the one it read; and if logouts of a user never
      overlap, the one just before it ended. */
  lemma LogoutRaises(users: map<string, User>, acts: seq<Action>, b: nat, n: nat)
    requires NoneBehind(users, acts) && LogsOut(users, acts, b, n)
    ensures var id, after := acts[b].id, Run(users, acts).users;
            && id in after && id in Run(users, acts[..n]).users
            && after[id].tokenVersion > Run(users, acts[..b]).users[id].tokenVersion
            && (NoOverlap(users, acts) ==> after[id].tokenVersion > Run(users, acts[..n]).users[id].tokenVersion)
  {
    hide Run, NoneBehind, NoOverlap, Next;
    LogoutRemembers(users, acts, b, n, n);
    RunStep(users, acts, n);
    NeverBackUpTo(users, acts, b, n);
    NeverBackUpTo(users, acts, n + 1, |acts|);
    LogoutWrites(Run(users, acts[..n]), acts[b].pid);
    assert acts[..|acts|] == acts;
    if NoOverlap(users, acts) {
      LogoutsStayCurrent(users, acts, n);
    }
  }

  /** No token issued before a logout of its user began, and none refreshed from such a token, then
      or later, is accepted after it ended; without overlapping logouts this holds even for the
      tokens issued while it was under way. */
  lemma LogoutKillsTokens(users: map<string, User>, acts: seq<Action>, b: nat, n: nat, cut: nat, i: nat, j: nat)
    requires LogsOut(users, acts, b, n) && NoneBehind(users, acts)
    requires cut == b || (cut == n && NoOverlap(users, acts))
    requires j < |Run(users, acts[..cut]).issued| && Run(users, acts[..cut]).issued[j].token.sub == acts[b].id
    requires ComesFrom(Run(users, acts).issued, i, j)
    ensures Accept(Run(users, acts).users, Run(users, acts).issued[i].token).None?
  {
    LogoutRaises(users, acts, b, n);
    RunsKeepInvariant(users, acts, cut);
    RunsKeepInvariant(users, acts, |acts|);
    IssuedStay(users, acts, cut, |acts|);
    assert acts[..|acts|] == acts;
    hide Run, NoneBehind, NoOverlap, LogsOut;
    DescendantsClaimTheSame(Run(users, acts), i, j);
  }

  /** Nor is one signed later by a request that had read the user by then. */
  lemma LogoutKillsRequestsUnderWay(users: map<string, User>, acts: seq<Action>, b: nat, n: nat, cut: nat,
                                    pid: nat, exp: int)
    requires LogsOut(users, acts, b, n) && NoneBehind(users, acts)
    requires cut == b || (cut == n && NoOverlap(users, acts))
    requires var sessions := Run(users, acts[..cut]).sessions; pid in sessions && sessions[pid].payload.id == acts[b].id
    ensures Accept(Run(users, acts).users, Sign(Run(users, acts[..cut]).sessions[pid].payload, exp)).None?
  {
    LogoutRaises(users, acts, b, n);
    RunsKeepInvariant(users, acts, cut);
    hide Run, NoneBehind, NoOverlap, LogsOut;
  }
}
