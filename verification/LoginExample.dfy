/** One login from password to token: `complete` does return, so what it guarantees is about something. */
module LoginExample {
  import opened Prelude
  import opened Sessions
  import opened SecondFactor
  import opened AccountSecurity
  import opened LoginProtocol
  import RateLimit

  const ALICE: Account := Account(1, 0)
  const ENROLLED: Factor := Factor(4, 0, 0, [77])

  const LOGIN: seq<LoginProtocol.Action> := [
    StartPrimary, ChangeFactors(map[1 := ENROLLED]), Password(ALICE, 0, Some(0), true, 11, LoginReadings(0.0, 0.0)),
    Complete(5, 11, Recovery(77), 0, Readings(1.0, 1.0, 1.0), true, true), Issue(5, 33, 100.0), FirstSection(5, 2.0),
    Finish(5, Some(ALICE), true, 3.0)]

  const PENDING: Pending := Pending(ALICE, 0, 300.0, Some(4), 0)

  /** The challenge is out. */
  const CHALLENGED: World := World(
    Table(map[], map[]), Security(map[11 := PENDING], map[], 0, map[]), map[1 := ENROLLED], map[], {}, 0, map[11 := 1],
    [Started(0), Challenged(11, 1, 4, Some(0))])

  /** The code is spent and the flow goes on to a session. */
  const COMPLETED: World := CHALLENGED.(
    security := Security(map[], map[], 0, map[1 := [1.0]]), factors := map[1 := ENROLLED.(recovery := [])],
    flows := map[5 := Completed(11, PENDING)])

  lemma RunUpTo(totp: Totp, k: nat)
    requires k < |LOGIN|
    ensures LoginProtocol.Run(totp, LOGIN[..k + 1]) == LoginProtocol.Step(totp, LoginProtocol.Run(totp, LOGIN[..k]), LOGIN[k])
  {
    assert LOGIN[..k + 1][..k] == LOGIN[..k];
  }

  lemma NothingRun(totp: Totp)
    ensures LoginProtocol.Run(totp, LOGIN[..0]) == LoginProtocol.INITIAL
  {
  }

  lemma PasswordChallenges()
    ensures PasswordAuthenticated(
              Security(map[], map[], 0, map[]), map[1 := ENROLLED], ALICE, 0, Some(0), true, 11,
              LoginReadings(0.0, 0.0))
            == Primary(Challenge(11), CHALLENGED.security)
  {
    var s := Security(map[], map[], 0, map[]);
    assert Pruned(s, 0.0) == s;
    assert ChallengesOfOthers(s.challenges, 1) == map[];
  }

  lemma CodeCompletes(totp: Totp)
    ensures CompleteChallenge(
              CHALLENGED.security, CHALLENGED.factors, totp, 11, Recovery(77), 0, Readings(1.0, 1.0, 1.0), true, true)
            == Completion(Some(PENDING), COMPLETED.security, COMPLETED.factors, true)
  {
    var s := CHALLENGED.security;
    assert Pruned(s, 1.0) == s;
    assert RateLimit.PrunedAttempts(map[], 1.0) == map[];
    var nothing: seq<real> := [];
    assert RateLimit.Popped(nothing, 1.0 - RateLimit.ATTEMPT_WINDOW) == nothing && nothing + [1.0] == [1.0];
    assert RateLimit.Charge(map[], 1, 1.0, 1.0) == RateLimit.Budget(true, map[1 := [1.0]]);
    assert s.challenges - {11} == map[];
    assert Position([77], 77) == 0 && Without([77], 0) == [];
  }

  lemma ReachesChallenge(totp: Totp)
    ensures LoginProtocol.Run(totp, LOGIN[..3]) == CHALLENGED
  {
    hide LoginProtocol.Run, PasswordAuthenticated;
    NothingRun(totp);
    RunUpTo(totp, 0);
    RunUpTo(totp, 1);
    RunUpTo(totp, 2);
    PasswordChallenges();
  }

  lemma ReachesCompletion(totp: Totp)
    ensures LoginProtocol.Run(totp, LOGIN[..4]) == COMPLETED
  {
    hide LoginProtocol.Run, CompleteChallenge;
    ReachesChallenge(totp);
    RunUpTo(totp, 3);
    CodeCompletes(totp);
  }

  /** The run returns a token, and the session of that token is the one in the table. */
  lemma TokenReturned(totp: Totp)
    ensures var w := LoginProtocol.Run(totp, LOGIN);
            && w.log == [Started(0), Challenged(11, 1, 4, Some(0)), Returned(11, 1, 33)]
            && w.table == Table(map[33 := Record(0, ALICE, 100.0, 0)], map[1 := 33])
  {
    hide LoginProtocol.Run, CompleteChallenge, PasswordAuthenticated;
    ReachesCompletion(totp);
    RunUpTo(totp, 4);
    RunUpTo(totp, 5);
    RunUpTo(totp, 6);
    assert LOGIN[..7] == LOGIN;
  }
}
