/** Why versions need the hypothesis on logouts: one that is overtaken by two others takes the
    version back, and with it a token that had been logged out. */
module TokenRevival {
  import opened Common
  import opened Auth
  import opened Tokens

  const ID := "u"

  function At(version: int): map<string, User> {
    map[ID := User(true, true, false, None, 0, version, None, None)]
  }

  const TOKEN := Token(ID, Some(1), Some(0))

  /** Logouts 0 and 1 both read version 0; 1 ends, and a token is signed under version 1; logout 2
      takes the version to 2; then logout 0 ends. */
  const OVERTAKEN := [BeginLogout(0, ID), BeginLogout(1, ID), FinishLogout(1), ReadUser(0, ID), SignIn(0, 0),
                      BeginLogout(2, ID), FinishLogout(2), FinishLogout(0)]

  lemma AtTheStart()
    ensures Run(At(0), OVERTAKEN[..0]) == State(At(0), map[], map[], [])
  {
  }

  lemma AfterThree()
    ensures Run(At(0), OVERTAKEN[..3]) == State(At(1), map[], map[0 := Payload(ID, 0)], [])
  {
    hide Run;
    AtTheStart();
    RunStep(At(0), OVERTAKEN, 0);
    RunStep(At(0), OVERTAKEN, 1);
    assert Run(At(0), OVERTAKEN[..2]) == State(At(0), map[], map[0 := Payload(ID, 0), 1 := Payload(ID, 0)], []);
    RunStep(At(0), OVERTAKEN, 2);
  }

  lemma UpToTheToken()
    ensures Run(At(0), OVERTAKEN[..5])
         == State(At(1), map[0 := Session(Payload(ID, 1), None)], map[0 := Payload(ID, 0)], [Issued(TOKEN, None)])
  {
    hide Run;
    AfterThree();
    RunStep(At(0), OVERTAKEN, 3);
    RunStep(At(0), OVERTAKEN, 4);
  }

  lemma AfterTheLogouts()
    ensures Run(At(0), OVERTAKEN[..7]).users == At(2) && Run(At(0), OVERTAKEN[..7]).issued == [Issued(TOKEN, None)]
    ensures Run(At(0), OVERTAKEN).users == At(1) && Run(At(0), OVERTAKEN).issued == [Issued(TOKEN, None)]
  {
    hide Run;
    UpToTheToken();
    RunStep(At(0), OVERTAKEN, 5);
    RunStep(At(0), OVERTAKEN, 6);
    RunStep(At(0), OVERTAKEN, 7);
    assert OVERTAKEN[..8] == OVERTAKEN;
  }

  /** Overlapping logouts can make versions decrease, and a refused token acceptable again. */
  lemma ATokenCanRevive()
    ensures exists users, acts, n: nat, j: nat ::
              && n < |acts| && !VersionsNeverDecrease(users, acts)
              && j < |Run(users, acts[..n]).issued| && Run(users, acts[..n]).issued <= Run(users, acts).issued
              && var token := Run(users, acts[..n]).issued[j].token;
                 Accept(Run(users, acts[..n]).users, token).None? && Accept(Run(users, acts).users, token).Some?
  {
    AfterTheLogouts();
    var users, acts := At(0), OVERTAKEN;
    assert acts[..8] == acts;
    hide Run;
    assert !NeverBack(Run(users, acts[..7]).users, Run(users, acts[..8]).users) by {
      assert ID in At(2) && At(2)[ID].tokenVersion == 2 && At(1)[ID].tokenVersion == 1;
    }
    assert Run(users, acts[..7]).issued[0].token == TOKEN;
    assert Accept(At(2), TOKEN).None? && Accept(At(1), TOKEN).Some?;
  }
}
