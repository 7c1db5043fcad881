/** How long tokens live: until their version is left, and for good exactly if no logout is behind. */
module TokenLife {
  import opened Common
  import opened Auth
  import opened Tokens

  /** The version of a user after the first `n` actions. */
  ghost function VersionAt(users: map<string, User>, acts: seq<Action>, n: nat, id: string): int
    requires n <= |acts|
  {
    var after := Run(users, acts[..n]).users;
    if id in after then after[id].tokenVersion else 0
  }

  lemma StepKeepsUsers(s: State, a: Action)
    ensures Next(s, a).users.Keys == s.users.Keys
  {
  }

  lemma {:induction false} UsersStay(users: map<string, User>, acts: seq<Action>, n: nat)
    requires n <= |acts|
    ensures Run(users, acts[..n]).users.Keys == users.Keys
  {
    if n > 0 {
      hide Next, Run;
      UsersStay(users, acts, n - 1);
      RunStep(users, acts, n - 1);
      StepKeepsUsers(Run(users, acts[..n - 1]), acts[n - 1]);
    }
  }

  // ---------- what was read was current ----------

  /** The version was the user's at some point up to now. */
  ghost predicate WasCurrent(users: map<string, User>, acts: seq<Action>, n: nat, id: string, version: int)
    requires n <= |acts|
  {
    id in users && exists r: nat :: r <= n && VersionAt(users, acts, r, id) == version
  }

  ghost predicate AllWereCurrent(users: map<string, User>, acts: seq<Action>, n: nat)
    requires n <= |acts|
  {
    var s := Run(users, acts[..n]);
    && (forall j | 0 <= j < |s.issued| :: WasCurrent(users, acts, n, s.issued[j].token.sub, Version(s.issued[j].token)))
    && (forall pid | pid in s.sessions ::
          WasCurrent(users, acts, n, s.sessions[pid].payload.id, s.sessions[pid].payload.version))
    && (forall pid | pid in s.logouts :: WasCurrent(users, acts, n, s.logouts[pid].id, s.logouts[pid].version))
  }

  /** What a step adds claims the version current before it, or what something else claimed. */
  ghost predicate Claimed(s: State, id: string, version: int) {
    || (id in s.users && s.users[id].tokenVersion == version)
    || (exists j | 0 <= j < |s.issued| :: s.issued[j].token.sub == id && Version(s.issued[j].token) == version)
    || (exists pid | pid in s.sessions :: s.sessions[pid].payload == Payload(id, version))
    || (exists pid | pid in s.logouts :: s.logouts[pid] == Payload(id, version))
  }

  lemma StepClaims(s: State, a: Action)
    ensures var t := Next(s, a);
            && (forall j | 0 <= j < |t.issued| :: Claimed(s, t.issued[j].token.sub, Version(t.issued[j].token)))
            && (forall pid | pid in t.sessions ::
                  Claimed(s, t.sessions[pid].payload.id, t.sessions[pid].payload.version))
            && (forall pid | pid in t.logouts :: Claimed(s, t.logouts[pid].id, t.logouts[pid].version))
  {
  }

  lemma ClaimedWasCurrent(users: map<string, User>, acts: seq<Action>, n: nat, id: string, version: int)
    requires n < |acts| && AllWereCurrent(users, acts, n) && Claimed(Run(users, acts[..n]), id, version)
    ensures WasCurrent(users, acts, n + 1, id, version)
  {
    UsersStay(users, acts, n);
    hide Run;
    if id in users && VersionAt(users, acts, n, id) == version {
    } else {
      assert WasCurrent(users, acts, n, id, version);
    }
  }

  lemma StepWasCurrent(users: map<string, User>, acts: seq<Action>, n: nat)
    requires n < |acts| && AllWereCurrent(users, acts, n)
    ensures AllWereCurrent(users, acts, n + 1)
  {
    var s, t := Run(users, acts[..n]), Run(users, acts[..n + 1]);
    RunStep(users, acts, n);
    StepClaims(s, acts[n]);
    forall id, version | Claimed(s, id, version) ensures WasCurrent(users, acts, n + 1, id, version) {
      ClaimedWasCurrent(users, acts, n, id, version);
    }
    hide Run, Next, Claimed, WasCurrent;
  }

  lemma {:induction false} ReadsWereCurrent(users: map<string, User>, acts: seq<Action>, n: nat)
    requires n <= |acts|
    ensures AllWereCurrent(users, acts, n)
  {
    if n > 0 {
      hide Run, AllWereCurrent;
      ReadsWereCurrent(users, acts, n - 1);
      StepWasCurrent(users, acts, n - 1);
    }
  }

  lemma Monotone(users: map<string, User>, acts: seq<Action>, i: nat, j: nat, id: string)
    requires NoneBehind(users, acts) && i <= j <= |acts|
    ensures VersionAt(users, acts, i, id) <= VersionAt(users, acts, j, id)
  {
    UsersStay(users, acts, i);
    UsersStay(users, acts, j);
    NeverBackUpTo(users, acts, i, j);
    hide Run, NoneBehind;
  }

  /** While no logout is behind, a token is accepted, by an active user, exactly as long as the
      version it was issued under has not been left: by a logout that has ended since it was read. */
  lemma TokenLivesUntilItsVersionIsLeft(users: map<string, User>, acts: seq<Action>, n: nat, j: nat)
    requires NoneBehind(users, acts) && n <= |acts| && j < |Run(users, acts[..n]).issued|
    ensures var token := Run(users, acts[..n]).issued[j].token; var after := Run(users, acts).users;
            && token.sub in after
            && exists r: nat ::
                 && r <= n && VersionAt(users, acts, r, token.sub) == Version(token)
                 && (Accept(after, token).Some? <==>
                       token.sub != "" && after[token.sub].isActive
                       && forall k | r <= k <= |acts| ::
                           VersionAt(users, acts, k, token.sub) == VersionAt(users, acts, r, token.sub))
  {
    var token := Run(users, acts[..n]).issued[j].token;
    ReadsWereCurrent(users, acts, n);
    assert WasCurrent(users, acts, n, token.sub, Version(token));
    UsersStay(users, acts, |acts|);
    assert acts[..|acts|] == acts;
    var r: nat :| r <= n && VersionAt(users, acts, r, token.sub) == Version(token);
    AcceptedIsCurrent(Run(users, acts).users, token);
    hide Run, NoneBehind, Accept;
    var last := VersionAt(users, acts, |acts|, token.sub);
    forall k | r <= k <= |acts|
      ensures VersionAt(users, acts, r, token.sub) <= VersionAt(users, acts, k, token.sub) <= last
    {
      Monotone(users, acts, r, k, token.sub);
      Monotone(users, acts, k, |acts|, token.sub);
    }
  }

  // ---------- versions that come back ----------

  /** A version once left never becomes current again. */
  ghost predicate NeverReturns(users: map<string, User>, acts: seq<Action>) {
    forall i, j, k, id | 0 <= i <= j <= k <= |acts| && VersionAt(users, acts, i, id) != VersionAt(users, acts, j, id) ::
      VersionAt(users, acts, k, id) != VersionAt(users, acts, i, id)
  }

  /** Without a logout behind, versions go up by one at a time. */
  lemma OneByOne(users: map<string, User>, acts: seq<Action>, n: nat, id: string)
    requires NoneBehind(users, acts) && n < |acts|
    ensures VersionAt(users, acts, n + 1, id) <= VersionAt(users, acts, n, id) + 1
  {
    var s, a := Run(users, acts[..n]), acts[n];
    RunStep(users, acts, n);
    hide NoneBehind, Run;
    if a.FinishLogout? && a.pid in s.logouts {
      ReadsWereCurrent(users, acts, n);
      assert WasCurrent(users, acts, n, s.logouts[a.pid].id, s.logouts[a.pid].version);
      var r: nat :| r <= n && VersionAt(users, acts, r, s.logouts[a.pid].id) == s.logouts[a.pid].version;
      Monotone(users, acts, r, n, s.logouts[a.pid].id);
    }
  }

  lemma {:induction false} NoneSkipped(users: map<string, User>, acts: seq<Action>, i: nat, j: nat, id: string,
                                           version: int)
    requires NoneBehind(users, acts) && i <= j <= |acts|
    requires VersionAt(users, acts, i, id) <= version <= VersionAt(users, acts, j, id)
    ensures exists k: nat :: i <= k <= j && VersionAt(users, acts, k, id) == version
    decreases j
  {
    hide NoneBehind, VersionAt;
    if VersionAt(users, acts, j, id) == version {
    } else if i < j {
      OneByOne(users, acts, j - 1, id);
      NoneSkipped(users, acts, i, j - 1, id, version);
    }
  }

  lemma {:induction false} FirstBehind(users: map<string, User>, acts: seq<Action>, i: nat) returns (n: nat)
    requires i < |acts| && Behind(Run(users, acts[..i]), acts[i])
    ensures n < |acts| && Behind(Run(users, acts[..n]), acts[n]) && NoneBehind(users, acts[..n])
    decreases i
  {
    hide Run, Behind;
    if NoneBehind(users, acts[..i]) {
      n := i;
    } else {
      var k :| 0 <= k < i && Behind(Run(users, acts[..i][..k]), acts[..i][k]);
      assert acts[..i][..k] == acts[..k];
      n := FirstBehind(users, acts, k);
    }
  }

  lemma SameVersionAt(users: map<string, User>, acts: seq<Action>, n: nat, k: nat, id: string)
    requires k <= n <= |acts|
    ensures VersionAt(users, acts[..n], k, id) == VersionAt(users, acts, k, id)
  {
    assert acts[..n][..k] == acts[..k];
  }

  /** A logout behind takes the version back to one that was current and had been left. */
  lemma BehindReturns(users: map<string, User>, acts: seq<Action>, n: nat)
    requires n < |acts| && Behind(Run(users, acts[..n]), acts[n]) && NoneBehind(users, acts[..n])
    ensures !NeverReturns(users, acts)
  {
    var s, before := Run(users, acts[..n]), acts[..n];
    var id, version := s.logouts[acts[n].pid].id, s.logouts[acts[n].pid].version;
    assert before[..n] == before;
    ReadsWereCurrent(users, before, n);
    assert WasCurrent(users, before, n, id, version);
    RunStep(users, acts, n);
    assert VersionAt(users, acts, n + 1, id) == version + 1;
    assert VersionAt(users, acts, n, id) > version + 1;
    hide Run, NoneBehind, VersionAt;
    var r: nat :| r <= n && VersionAt(users, before, r, id) == version;
    SameVersionAt(users, acts, n, n, id);
    NoneSkipped(users, before, r, n, id, version + 1);
    var k: nat :| r <= k <= n && VersionAt(users, before, k, id) == version + 1;
    SameVersionAt(users, acts, n, k, id);
    assert VersionAt(users, acts, k, id) != VersionAt(users, acts, n, id);
  }

  /** A version once left never becomes current again, and so no token revives, exactly when no
      logout is behind. */
  lemma NeverReturnsExactlyWhenNoneBehind(users: map<string, User>, acts: seq<Action>)
    ensures NeverReturns(users, acts) <==> NoneBehind(users, acts)
  {
    if NoneBehind(users, acts) {
      hide VersionAt, NoneBehind;
      forall i, j, k, id | 0 <= i <= j <= k <= |acts| && VersionAt(users, acts, i, id) != VersionAt(users, acts, j, id)
        ensures VersionAt(users, acts, k, id) != VersionAt(users, acts, i, id)
      {
        Monotone(users, acts, i, j, id);
        Monotone(users, acts, j, k, id);
      }
    } else {
      var i :| 0 <= i < |acts| && Behind(Run(users, acts[..i]), acts[i]);
      var n := FirstBehind(users, acts, i);
      BehindReturns(users, acts, n);
    }
  }
}
