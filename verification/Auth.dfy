/** Accounts: login attempts and locking, activation, one-time passwords, token versions.
    Times are milliseconds. Password hashing and token signatures are opaque: whether a password
    matches is an input, and a token is its payload. */
module Auth {
  import opened Common
  import opened Text

  const LOCK_DURATION := 1_800_000

  const MAX_LOGIN_ATTEMPTS := 5

  const YEAR := 31_536_000_000

  const REFRESH_THRESHOLD := 18_000_000

  datatype Otp = Otp(code: string, expiry: int, kind: string)

  datatype User = User(isActive: bool, isActivated: bool, isLocked: bool, lockedUntil: Option<int>, loginLimit: int,
                       tokenVersion: int, otp: Option<Otp>, lastLogin: Option<int>)

  // ---------- what each operation does to a user row ----------

  /** The lock's expiry has passed. */
  predicate LockExpired(u: User, now: int) { u.isLocked && u.lockedUntil.Some? && now > u.lockedUntil.value }

  function Unlocked(u: User): User { u.(isLocked := false, lockedUntil := None, loginLimit := 0) }

  function AfterLockCheck(u: User, now: int): User { if LockExpired(u, now) then Unlocked(u) else u }

  function Counted(u: User, attempts: int, now: int): User {
    if attempts >= MAX_LOGIN_ATTEMPTS then
      u.(loginLimit := attempts, isLocked := true, lockedUntil := Some(now + LOCK_DURATION))
    else
      u.(loginLimit := attempts)
  }

  function Activated(u: User): User {
    u.(isActivated := true, isActive := true, isLocked := false, loginLimit := 0, lockedUntil := None)
  }

  function Deactivated(u: User, now: int): User {
    u.(isActive := false, isActivated := false, isLocked := true, lockedUntil := Some(now + YEAR))
  }

  /** One login attempt: when the lock is checked, when the password is compared, when a failure
      is counted, and whether the password matches. */
  datatype Attempt = Attempt(checked: int, compared: int, counted: int, correct: bool)

  /** The attempt gets as far as comparing the password. */
  predicate Compares(u: User, t: Attempt) {
    var row := AfterLockCheck(u, t.checked);
    row.isActive && !row.isLocked
  }

  function AfterAttempt(u: User, t: Attempt): User {
    var row := AfterLockCheck(u, t.checked);
    if Compares(u, t) && !t.correct then Counted(row, row.loginLimit + 1, t.counted) else row
  }

  predicate OtpMatches(u: User, code: string, kind: string, now: int) {
    && u.otp.Some? && u.otp.value.code != "" && u.otp.value.kind == kind
    && now <= u.otp.value.expiry && u.otp.value.code == UpperCase(Trim(code))
  }

  /** From the i-th character on `text` spells the code, in either case; the rest is white space. */
  predicate SpellsFrom(text: string, i: nat, code: string) {
    && i + |code| <= |text|
    && (forall k | 0 <= k < |code| :: Raised(text[i + k]) == code[k])
    && (forall k | 0 <= k < |text| && (k < i || k >= i + |code|) :: IsSpace(text[k]))
  }

  /** The submitted text spells the stored code, which is of that kind and has not expired. */
  ghost predicate CodeAccepted(otp: Option<Otp>, text: string, kind: string, now: int) {
    && otp.Some? && otp.value.code != "" && otp.value.kind == kind && now <= otp.value.expiry
    && exists i: nat :: SpellsFrom(text, i, otp.value.code)
  }

  /** Codes are stored without white space at the ends. */
  ghost predicate Tidy(otp: Option<Otp>) { otp.Some? ==> Trimmed(otp.value.code) }

  lemma RaisedSpace(c: char)
    ensures IsSpace(Raised(c)) <==> IsSpace(c)
  {
  }

  lemma SpelledIsTrimmed(text: string, i: nat, code: string)
    requires code != "" && Trimmed(code) && SpellsFrom(text, i, code)
    ensures UpperCase(Trim(text)) == code
  {
    hide IsSpace, Raised;
    var m := text[i..i + |code|];
    RaisedSpace(m[0]);
    RaisedSpace(m[|m| - 1]);
    var before, after := text[..i], text[i + |code|..];
    assert text == before + m + after;
    assert forall k | 0 <= k < |before| :: before[k] == text[k];
    assert forall k | 0 <= k < |after| :: after[k] == text[i + |code| + k];
    assert Blank(before) && Blank(after);
    TrimIsThePadded(text, m);
    UpperCaseAt(m);
  }

  lemma TrimmedIsSpelled(text: string, code: string)
    requires UpperCase(Trim(text)) == code
    ensures exists i: nat :: SpellsFrom(text, i, code)
  {
    hide IsSpace, Raised, TrimStart;
    TrimSplits(text);
    UpperCaseAt(Trim(text));
    var i := |text| - |TrimStart(text)|;
    var rest := text[i + |code|..];
    forall k | 0 <= k < |text| && (k < i || k >= i + |code|) ensures IsSpace(text[k]) {
      assert k < i ==> text[..i][k] == text[k];
      assert k >= i + |code| ==> rest[k - i - |code|] == text[k];
    }
    assert SpellsFrom(text, i, code);
  }

  /** A code matches exactly if it is accepted by its characters. */
  lemma MatchesExactly(u: User, text: string, kind: string, now: int)
    requires Tidy(u.otp)
    ensures OtpMatches(u, text, kind, now) <==> CodeAccepted(u.otp, text, kind, now)
  {
    hide SpellsFrom, UpperCase, Trim, Trimmed;
    if u.otp.Some? && u.otp.value.code != "" {
      if UpperCase(Trim(text)) == u.otp.value.code {
        TrimmedIsSpelled(text, u.otp.value.code);
      }
      forall i: nat | SpellsFrom(text, i, u.otp.value.code) ensures UpperCase(Trim(text)) == u.otp.value.code {
        SpelledIsTrimmed(text, i, u.otp.value.code);
      }
    }
  }

  function AfterOtp(u: User, code: string, kind: string, now: int): User {
    if OtpMatches(u, code, kind, now) then u.(otp := None, isActivated := true, isActive := true) else u
  }

  // ---------- tokens ----------

  /** A signed payload; `exp` is in seconds. */
  datatype Token = Token(sub: string, version: Option<int>, exp: Option<int>)

  /** The payload an accepted token becomes, with the user's current version. */
  datatype Payload = Payload(id: string, version: int)

  /** `JwtStrategy.validate`, after the signature and the expiry were checked. */
  function Accept(users: map<string, User>, token: Token): Option<Payload> {
    if token.sub == "" || token.sub !in users || !users[token.sub].isActive then None
    else if users[token.sub].tokenVersion != (if token.version.Some? then token.version.value else 0) then None
    else Some(Payload(token.sub, users[token.sub].tokenVersion))
  }

  function Sign(p: Payload, exp: int): Token { Token(p.id, Some(p.version), Some(exp)) }

  /** `checkTokenValidity`: near its expiry. */
  predicate NeedsRefresh(token: Token, now: int) {
    token.exp.Some? && token.exp.value != 0 && token.exp.value * 1000 - now <= REFRESH_THRESHOLD
  }

  function Refresh(token: Token, p: Payload, now: int, exp: int): Token {
    if NeedsRefresh(token, now) then Sign(p, exp) else token
  }

  // ---------- the service ----------

  /** The users table and the operations on it. Arguments named `user` are the row as it was read. */
  class Service {
    var users: map<string, User>

    constructor (users: map<string, User>)
      ensures this.users == users
    {
      this.users := users;
    }

    method ActivateAccount(id: string)
      requires id in users
      modifies this
      ensures users == old(users)[id := Activated(old(users[id]))]
    {
      users := users[id := users[id].(isActivated := true, isActive := true, isLocked := false,
                                      loginLimit := 0, lockedUntil := None)];
    }

    method DeactivateAccount(id: string, now: int)
      requires id in users
      modifies this
      ensures users == old(users)[id := Deactivated(old(users[id]), now)]
    {
      users := users[id := users[id].(isActive := false, isActivated := false, isLocked := true,
                                      lockedUntil := Some(now + YEAR))];
    }

    method CheckLockedStatus(id: string, user: User, now: int) returns (locked: bool)
      requires id in users
      modifies this
      ensures users == if LockExpired(user, now) then old(users)[id := Unlocked(old(users[id]))] else old(users)
      ensures locked == (user.isLocked && user.lockedUntil.Some? && now <= user.lockedUntil.value)
    {
      if !user.isLocked || user.lockedUntil.None? {
        return false;
      }
      if now > user.lockedUntil.value {
        users := users[id := users[id].(isLocked := false, lockedUntil := None, loginLimit := 0)];
        return false;
      }
      locked := true;
    }

    method IncreaseLoginLimit(id: string, user: User, now: int) returns (attempts: int)
      requires id in users
      modifies this
      ensures attempts == user.loginLimit + 1
      ensures users == old(users)[id := Counted(old(users[id]), attempts, now)]
    {
      attempts := user.loginLimit + 1;
      users := users[id := users[id].(loginLimit := attempts)];
      if attempts >= MAX_LOGIN_ATTEMPTS {
        users := users[id := users[id].(isLocked := true, lockedUntil := Some(now + LOCK_DURATION))];
      }
    }

    /** `LocalStrategy.validate`. */
    method Validate(id: string, t: Attempt) returns (accepted: Option<User>)
      modifies this
      ensures id !in old(users) ==> users == old(users) && accepted == None
      ensures id in old(users) ==> users == old(users)[id := AfterAttempt(old(users[id]), t)]
      ensures accepted.Some? <==> id in old(users) && Compares(old(users[id]), t) && t.correct
      ensures accepted.Some? ==> accepted.value == users[id]
    {
      if id !in users {
        return None;
      }
      var user := users[id];
      var _ := CheckLockedStatus(id, user, t.checked);
      var freshUser := users[id];
      if !freshUser.isActive || freshUser.isLocked {
        return None;
      }
      if !t.correct {
        var _ := IncreaseLoginLimit(id, freshUser, t.counted);
        return None;
      }
      accepted := Some(freshUser);
    }

    /** `login`: the last-login time is stored, the token carries the version of the row as it was read. */
    method Login(id: string, user: User, now: int, exp: int) returns (token: Token)
      requires id in users
      modifies this
      ensures token == Sign(Payload(id, user.tokenVersion), exp)
      ensures users == old(users)[id := old(users[id]).(lastLogin := Some(now))]
    {
      users := users[id := users[id].(lastLogin := Some(now))];
      token := Sign(Payload(id, user.tokenVersion), exp);
    }

    method VerifyOtp(id: string, code: string, kind: string, now: int) returns (verified: bool)
      modifies this
      ensures verified <==> id in old(users) && OtpMatches(old(users[id]), code, kind, now)
      ensures id in old(users) && Tidy(old(users[id]).otp) ==>
                (verified <==> CodeAccepted(old(users[id]).otp, code, kind, now))
      ensures verified ==>
                users == old(users)[id := old(users[id]).(otp := None, isActivated := true, isActive := true)]
      ensures !verified ==> users == old(users)
      ensures users == if id in old(users) then old(users)[id := AfterOtp(old(users[id]), code, kind, now)]
                       else old(users)
    {
      if id !in users {
        return false;
      }
      var user := users[id];
      if Tidy(user.otp) {
        MatchesExactly(user, code, kind, now);
      }
      if user.otp.None? || user.otp.value.code == "" || user.otp.value.kind != kind {
        return false;
      }
      if now > user.otp.value.expiry {
        return false;
      }
      if user.otp.value.code != UpperCase(Trim(code)) {
        return false;
      }
      users := users[id := user.(otp := None, isActivated := true, isActive := true)];
      verified := true;
    }

    method Logout(id: string)
      modifies this
      ensures users == if id in old(users) then
                         old(users)[id := old(users[id]).(tokenVersion := old(users[id]).tokenVersion + 1)]
                       else old(users)
    {
      if id in users {
        users := users[id := users[id].(tokenVersion := users[id].tokenVersion + 1)];
      }
    }
  }
}
