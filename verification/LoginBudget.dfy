/**
 Guessing second factors: when a completion is answered, stated about the history of charges, and how
 often a code can get as far as the store over whole runs of the login protocol.
 */
module LoginBudget {
  import opened Prelude
  import opened Sessions
  import opened SecondFactor
  import opened AccountSecurity
  import opened LoginProtocol
  import RateLimit

  type History = map<Sessions.UserId, seq<real>>

  function Of(charged: History, user: Sessions.UserId): seq<real> {
    if user in charged then charged[user] else []
  }

  /** Who was charged in the last 300 seconds. */
  function Active(charged: History, now: real): set<Sessions.UserId> {
    set user | user in charged && RateLimit.CountIn(charged[user], now - 300.0, now) > 0
  }

  // ---------------------------------------------------------------- one completion

  /** A charge against the history: fewer than ten in the window, and active or one of 1,024. */
  lemma ChargeIs(
      attempts: History, charged: History, clock: real, user: Sessions.UserId, prune: real, again: real, charge: real)
    requires RateLimit.BudgetFaithful(attempts, charged, clock) && clock <= prune <= again <= charge
    ensures var b := RateLimit.Charge(RateLimit.PrunedAttempts(attempts, prune), user, again, charge);
            && (b.granted <==>
                  && RateLimit.CountIn(Of(charged, user), charge - 300.0, charge) < 10
                  && (user in Active(charged, again) || |Active(charged, again)| < 1024))
            && RateLimit.BudgetFaithful(b.attempts, RateLimit.Charged(charged, user, b.granted, charge), charge)
  {
    hide RateLimit.BudgetFaithful, RateLimit.Charge, RateLimit.CountIn;
    var kept := RateLimit.PrunedAttempts(attempts, prune);
    RateLimit.PruneKeepsBudget(attempts, charged, clock, prune);
    RateLimit.ChargeExact(kept, charged, prune, user, again, charge);
    NobodyCounted(again);
    forall u: Sessions.UserId
      ensures u in RateLimit.PrunedAttempts(kept, again) <==> u in Active(charged, again)
    {
      assert RateLimit.RecentlyCharged(charged, u, again)
             <==> RateLimit.CountIn(RateLimit.Attempts(charged, u), again - 300.0, again) > 0;
    }
    assert RateLimit.PrunedAttempts(kept, again).Keys == Active(charged, again);
    SameSize(RateLimit.PrunedAttempts(kept, again), Active(charged, again));
  }

  lemma SameSize(table: History, keys: set<Sessions.UserId>)
    requires table.Keys == keys
    ensures |table| == |keys|
  {
  }

  lemma NobodyCounted(now: real)
    ensures RateLimit.CountIn([], now - 300.0, now) == 0
  {
  }

  /** What one completion does, given what its charge did. */
  lemma CompletionShape(
      s: Security, factors: Factors, totp: Totp, key: Key, code: Code, utc: int, now: Readings, valid: bool,
      stillValid: bool)
    requires key in s.challenges && s.challenges[key].deadline > now.prune && now.prune <= now.again
    ensures var c := CompleteChallenge(s, factors, totp, key, code, utc, now, valid, stillValid);
            var pending := s.challenges[key];
            var user := pending.account.id;
            var b := RateLimit.Charge(RateLimit.PrunedAttempts(s.attempts, now.prune), user, now.again, now.charge);
            var proof := Proved(totp, factors, user, code, pending.generation, utc);
            && c.security.epochs == s.epochs && c.security.revision == s.revision && c.security.attempts == b.attempts
            && (c.asked <==>
                  b.granted && valid && pending.epoch == (if user in s.epochs then s.epochs[user] else 0))
            && c.pending == (if c.asked && proof.Some? && stillValid then Some(pending) else None)
            && (if c.asked && proof.Some? then
                  && key !in c.security.challenges
                  && c.factors == factors[user := Spent(factors[user], proof.value)]
                else
                  && c.factors == factors
                  && (pending.deadline > now.again ==>
                        key in c.security.challenges && c.security.challenges[key] == pending))
  {
    hide RateLimit.Charge, RateLimit.PrunedAttempts, Proved, Spent;
  }

  lemma CompletionMisses(
      s: Security, factors: Factors, totp: Totp, key: Key, code: Code, utc: int, now: Readings, valid: bool,
      stillValid: bool)
    requires key !in s.challenges || s.challenges[key].deadline <= now.prune
    ensures var c := CompleteChallenge(s, factors, totp, key, code, utc, now, valid, stillValid);
            && c.pending.None? && !c.asked && c.factors == factors
            && c.security.epochs == s.epochs && c.security.revision == s.revision
            && c.security.attempts == RateLimit.PrunedAttempts(s.attempts, now.prune)
  {
    hide RateLimit.Charge, RateLimit.PrunedAttempts, Proved, Spent;
  }

  /**
   `complete_challenge` against the history of charges. The code gets to the store exactly if the
   challenge is stored and unexpired, the user has fewer than ten charges in the last 300 seconds and
   is active or finds one of the 1,024 slots, the epoch is the challenge's and the registry agrees. The
   pending login is returned exactly if the code then proves the factor and the registry still agrees;
   a code that proves nothing, or never gets there, spends nothing and leaves an unexpired challenge.
   */
  lemma CompletionExact(
      s: Security, factors: Factors, totp: Totp, key: Key, code: Code, utc: int, now: Readings, valid: bool,
      stillValid: bool, charged: History, clock: real)
    returns (granted: bool)
    requires RateLimit.BudgetFaithful(s.attempts, charged, clock)
    requires clock <= now.prune <= now.again <= now.charge
    ensures granted <==>
              && key in s.challenges && s.challenges[key].deadline > now.prune
              && var user := s.challenges[key].account.id;
              && RateLimit.CountIn(Of(charged, user), now.charge - 300.0, now.charge) < 10
              && (user in Active(charged, now.again) || |Active(charged, now.again)| < 1024)
    ensures var c := CompleteChallenge(s, factors, totp, key, code, utc, now, valid, stillValid);
            && c.security.epochs == s.epochs && c.security.revision == s.revision
            && (c.asked ==> granted)
            && (c.pending.Some? || c.factors != factors ==> c.asked)
            && (key in s.challenges && s.challenges[key].deadline > now.prune ==>
                  var pending := s.challenges[key];
                  var user := pending.account.id;
                  var proof := Proved(totp, factors, user, code, pending.generation, utc);
                  && (c.asked <==>
                        granted && valid && pending.epoch == (if user in s.epochs then s.epochs[user] else 0))
                  && c.pending == (if c.asked && proof.Some? && stillValid then Some(pending) else None)
                  && (if c.asked && proof.Some? then
                        && key !in c.security.challenges
                        && c.factors == factors[user := Spent(factors[user], proof.value)]
                      else
                        && c.factors == factors
                        && (pending.deadline > now.again ==>
                              key in c.security.challenges && c.security.challenges[key] == pending)))
            && RateLimit.BudgetFaithful(
                 c.security.attempts,
                 if granted then charged[s.challenges[key].account.id :=
                                           Of(charged, s.challenges[key].account.id) + [now.charge]] else charged,
                 now.charge)
  {
    hide RateLimit.BudgetFaithful, RateLimit.Charge, RateLimit.CountIn, RateLimit.PrunedAttempts, Proved, Spent;
    hide CompleteChallenge;
    granted := false;
    if key !in s.challenges || s.challenges[key].deadline <= now.prune {
      CompletionMisses(s, factors, totp, key, code, utc, now, valid, stillValid);
      RateLimit.PruneKeepsBudget(s.attempts, charged, clock, now.prune);
      RateLimit.BudgetLater(RateLimit.PrunedAttempts(s.attempts, now.prune), charged, now.prune, now.charge);
    } else {
      var user := s.challenges[key].account.id;
      CompletionShape(s, factors, totp, key, code, utc, now, valid, stillValid);
      ChargeIs(s.attempts, charged, clock, user, now.prune, now.again, now.charge);
      granted := RateLimit.Charge(RateLimit.PrunedAttempts(s.attempts, now.prune), user, now.again, now.charge).granted;
    }
  }

  // ---------------------------------------------------------------- whole runs

  /** When an action first and last reads the elapsed clock of the security service, if it does. */
  function First(a: LoginProtocol.Action): Option<real> {
    match a
    case Password(_, _, _, _, _, at) => Some(at.prune)
    case Complete(_, _, _, _, now, _, _) => Some(now.prune)
    case _ => None
  }

  function Last(a: LoginProtocol.Action): Option<real> {
    match a
    case Password(_, _, _, _, _, at) => Some(at.prune)
    case Complete(_, _, _, _, now, _, _) => Some(now.charge)
    case _ => None
  }

  /** The last reading of a run. */
  function Clock(actions: seq<LoginProtocol.Action>): real {
    if actions == [] then 0.0
    else
      var last := Last(actions[|actions| - 1]);
      if last.Some? then last.value else Clock(actions[..|actions| - 1])
  }

  /** The elapsed clock starts at zero and never goes back. */
  ghost predicate InTime(actions: seq<LoginProtocol.Action>) {
    actions == [] ||
    var init, a := actions[..|actions| - 1], actions[|actions| - 1];
    && InTime(init)
    && (First(a).Some? ==> Clock(init) <= First(a).value)
    && (a.Complete? ==> a.readings.prune <= a.readings.again <= a.readings.charge)
  }

  /** What a completion in a run does, if the flow is new. */
  function Completes(totp: Totp, w: World, a: LoginProtocol.Action): (c: Completion)
    requires a.Complete?
  {
    CompleteChallenge(w.security, w.factors, totp, a.key, a.code, a.utc, a.readings, a.valid, a.stillValid)
  }

  /** Every code that got to the store in a run: whose factor it was for, and when. */
  function Asked(totp: Totp, actions: seq<LoginProtocol.Action>): (asked: History) {
    if actions == [] then map[]
    else
      var init, a := actions[..|actions| - 1], actions[|actions| - 1];
      var w, earlier := LoginProtocol.Run(totp, init), Asked(totp, init);
      if a.Complete? && a.flow !in w.flows && a.key in w.security.challenges && Completes(totp, w, a).asked then
        var user := w.security.challenges[a.key].account.id;
        earlier[user := Of(earlier, user) + [a.readings.charge]]
      else earlier
  }

  /** The charges behind a run: enough for its budget, and covering every code that got to the store. */
  ghost predicate Covers(charged: History, asked: History) {
    forall user, after, upTo ::
      RateLimit.CountIn(Of(asked, user), after, upTo) <= RateLimit.CountIn(Of(charged, user), after, upTo)
  }

  lemma CountSnoc(times: seq<real>, time: real, after: real, upTo: real)
    ensures RateLimit.CountIn(times + [time], after, upTo)
         == RateLimit.CountIn(times, after, upTo) + if after < time <= upTo then 1 else 0
  {
    assert (times + [time])[..|times|] == times;
  }

  lemma CoversOneMore(charged: History, asked: History, user: Sessions.UserId, time: real, alsoAsked: bool)
    requires Covers(charged, asked)
    ensures Covers(charged[user := Of(charged, user) + [time]],
                   if alsoAsked then asked[user := Of(asked, user) + [time]] else asked)
  {
    hide RateLimit.CountIn;
    var more := charged[user := Of(charged, user) + [time]];
    var also := if alsoAsked then asked[user := Of(asked, user) + [time]] else asked;
    forall u: Sessions.UserId, after: real, upTo: real
      ensures RateLimit.CountIn(Of(also, u), after, upTo) <= RateLimit.CountIn(Of(more, u), after, upTo)
    {
      assert RateLimit.CountIn(Of(asked, u), after, upTo) <= RateLimit.CountIn(Of(charged, u), after, upTo);
      CountSnoc(Of(charged, user), time, after, upTo);
      CountSnoc(Of(asked, user), time, after, upTo);
    }
  }

  /** Steps other than completions leave the attempts alone or prune them. */
  lemma OthersOnlyPrune(totp: Totp, w: World, a: LoginProtocol.Action)
    requires !a.Complete?
    ensures var after := LoginProtocol.Step(totp, w, a).security.attempts;
            || after == w.security.attempts
            || (a.Password? && after == RateLimit.PrunedAttempts(w.security.attempts, a.at.prune))
  {
  }

  lemma RunStep(totp: Totp, actions: seq<LoginProtocol.Action>)
    requires actions != []
    ensures LoginProtocol.Run(totp, actions)
         == LoginProtocol.Step(totp, LoginProtocol.Run(totp, actions[..|actions| - 1]), actions[|actions| - 1])
  {
  }

  lemma CompletingCharges(totp: Totp, actions: seq<LoginProtocol.Action>, charged: History) returns (more: History)
    requires actions != [] && actions[|actions| - 1].Complete? && InTime(actions)
    requires var init := actions[..|actions| - 1];
             && RateLimit.BudgetFaithful(LoginProtocol.Run(totp, init).security.attempts, charged, Clock(init))
             && Covers(charged, Asked(totp, init))
    ensures RateLimit.BudgetFaithful(LoginProtocol.Run(totp, actions).security.attempts, more, Clock(actions))
    ensures Covers(more, Asked(totp, actions))
  {
    hide LoginProtocol.Run, RateLimit.BudgetFaithful, CompleteChallenge, Covers, RateLimit.CountIn, Proved, Spent;
    var init, a := actions[..|actions| - 1], actions[|actions| - 1];
    var w := LoginProtocol.Run(totp, init);
    RunStep(totp, actions);
    more := charged;
    if a.flow in w.flows {
      RateLimit.BudgetLater(w.security.attempts, charged, Clock(init), Clock(actions));
    } else {
      var granted := CompletionExact(
        w.security, w.factors, totp, a.key, a.code, a.utc, a.readings, a.valid, a.stillValid, charged, Clock(init));
      if granted {
        var user := w.security.challenges[a.key].account.id;
        more := charged[user := Of(charged, user) + [a.readings.charge]];
        CoversOneMore(charged, Asked(totp, init), user, a.readings.charge, Completes(totp, w, a).asked);
      }
    }
  }

  lemma OthersCharge(totp: Totp, actions: seq<LoginProtocol.Action>, charged: History)
    requires actions != [] && !actions[|actions| - 1].Complete? && InTime(actions)
    requires var init := actions[..|actions| - 1];
             RateLimit.BudgetFaithful(LoginProtocol.Run(totp, init).security.attempts, charged, Clock(init))
    ensures RateLimit.BudgetFaithful(LoginProtocol.Run(totp, actions).security.attempts, charged, Clock(actions))
    ensures Asked(totp, actions) == Asked(totp, actions[..|actions| - 1])
  {
    hide LoginProtocol.Run, LoginProtocol.Step, RateLimit.BudgetFaithful, RateLimit.PrunedAttempts;
    var init, a := actions[..|actions| - 1], actions[|actions| - 1];
    var attempts := LoginProtocol.Run(totp, init).security.attempts;
    RunStep(totp, actions);
    OthersOnlyPrune(totp, LoginProtocol.Run(totp, init), a);
    RateLimit.BudgetLater(attempts, charged, Clock(init), Clock(actions));
    if a.Password? {
      RateLimit.PruneKeepsBudget(attempts, charged, Clock(init), a.at.prune);
    }
  }

  lemma {:induction false} AlwaysCovered(totp: Totp, actions: seq<LoginProtocol.Action>) returns (charged: History)
    requires InTime(actions)
    ensures RateLimit.BudgetFaithful(LoginProtocol.Run(totp, actions).security.attempts, charged, Clock(actions))
    ensures Covers(charged, Asked(totp, actions))
  {
    hide LoginProtocol.Step, Covers;
    if actions == [] {
      charged := map[];
      RateLimit.AlwaysBudgeted([], 0.0);
      NothingCovered();
    } else {
      charged := AlwaysCovered(totp, actions[..|actions| - 1]);
      if actions[|actions| - 1].Complete? {
        charged := CompletingCharges(totp, actions, charged);
      } else {
        OthersCharge(totp, actions, charged);
      }
    }
  }

  lemma NothingCovered()
    ensures Covers(map[], map[])
  {
  }

  /** In whatever interleaving, no more than ten codes for one user get to the store in any 300 seconds. */
  lemma AtMostTenCodes(totp: Totp, actions: seq<LoginProtocol.Action>, user: Sessions.UserId, end: real)
    requires InTime(actions)
    ensures RateLimit.CountIn(Of(Asked(totp, actions), user), end - 300.0, end) <= 10
  {
    hide LoginProtocol.Run, RateLimit.CountIn, Asked;
    var charged := AlwaysCovered(totp, actions);
    var attempts := LoginProtocol.Run(totp, actions).security.attempts;
    assert RateLimit.UserFaithful(attempts, charged, user, Clock(actions));
    RateLimit.SpacedBoundsEveryWindow(Of(charged, user), 10, 300.0, end);
  }
}
