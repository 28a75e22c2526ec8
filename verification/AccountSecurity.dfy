/**
 Pre-session authentication: challenges between the password and the second factor.

 An invalidation stamps the user with a new epoch, drawn from one strictly growing
 revision, so whatever began under an older epoch can no longer finish. Registry and
 provider checks are the environment's answers, passed in where the source asks them.
 */
module AccountSecurity {
  import opened Prelude
  import opened Sessions
  import opened SecondFactor
  import RateLimit

  const LIFETIME: real := 300.0
  const CAPACITY: nat := 1024

  type Key = nat

  datatype Pending = Pending(
    account: Account, version: Version, deadline: real, generation: Option<Generation>, epoch: nat)

  datatype Security = Security(
    challenges: map<Key, Pending>, epochs: map<Sessions.UserId, nat>, revision: nat,
    attempts: map<Sessions.UserId, seq<real>>)

  function EpochOf(s: Security, user: Sessions.UserId): nat {
    if user in s.epochs then s.epochs[user] else 0
  }

  function ChallengesOfOthers(challenges: map<Key, Pending>, user: Sessions.UserId): map<Key, Pending> {
    map key | key in challenges && challenges[key].account.id != user :: challenges[key]
  }

  function Unexpired(challenges: map<Key, Pending>, now: real): map<Key, Pending> {
    map key | key in challenges && challenges[key].deadline > now :: challenges[key]
  }

  /** `invalidate_user`: a new epoch for the user, and no pending challenge of theirs. */
  function Invalidated(s: Security, user: Sessions.UserId): Security {
    s.(challenges := ChallengesOfOthers(s.challenges, user),
       epochs := s.epochs[user := s.revision + 1], revision := s.revision + 1)
  }

  function Pruned(s: Security, now: real): Security {
    s.(challenges := Unexpired(s.challenges, now), attempts := RateLimit.PrunedAttempts(s.attempts, now))
  }

  datatype PrimaryOutcome = Refused | NoFactor(epoch: nat) | Challenge(key: Key)

  datatype Primary = Primary(outcome: PrimaryOutcome, security: Security)

  /** The clock readings one password login makes: for the deadline of its challenge, then for pruning. */
  datatype LoginReadings = LoginReadings(issue: real, prune: real)

  /** `password_authenticated`; `valid` is the answer of the registry and the identity provider. */
  function PasswordAuthenticated(
      s: Security, factors: Factors, account: Account, version: Version, started: Option<nat>, valid: bool, key: Key,
      now: LoginReadings): Primary
  {
    if (started.Some? && EpochOf(s, account.id) > started.value) || !valid then Primary(Refused, s)
    else if account.id !in factors then Primary(NoFactor(EpochOf(s, account.id)), s)
    else
      var pruned := Pruned(s, now.prune);
      var others := pruned.(challenges := ChallengesOfOthers(pruned.challenges, account.id));
      if |others.challenges| >= CAPACITY then Primary(Refused, others)
      else
        var pending := Pending(
          account, version, now.issue + LIFETIME, Some(factors[account.id].generation), EpochOf(s, account.id));
        Primary(Challenge(key), others.(challenges := others.challenges[key := pending]))
  }

  /** The clock readings one completion makes: pruning, pruning again for the budget, and charging it. */
  datatype Readings = Readings(prune: real, again: real, charge: real)

  /** `asked`: the code got as far as the store of second factors. */
  datatype Completion = Completion(pending: Option<Pending>, security: Security, factors: Factors, asked: bool)

  /**
   `complete_challenge`: prune, look up, charge the attempt, re-check the epoch and the registry,
   spend the code, pop the challenge, re-check. `valid` and `stillValid` answer the two registry reads.
   */
  function CompleteChallenge(
      s: Security, factors: Factors, totp: Totp, key: Key, code: Code, utc: int, now: Readings, valid: bool,
      stillValid: bool): Completion
  {
    var pruned := Pruned(s, now.prune);
    if key !in pruned.challenges then Completion(None, pruned, factors, false)
    else
      var pending := pruned.challenges[key];
      var user := pending.account.id;
      var budget := RateLimit.Charge(pruned.attempts, user, now.again, now.charge);
      var charged := Pruned(pruned, now.again).(attempts := budget.attempts);
      if !budget.granted || pending.epoch != EpochOf(charged, user) || !valid then
        Completion(None, charged, factors, false)
      else
        var proof := Proved(totp, factors, user, code, pending.generation, utc);
        if proof.None? then Completion(None, charged, factors, true)
        else
          Completion(if stillValid then Some(pending) else None,
                     charged.(challenges := charged.challenges - {key}),
                     factors[user := Spent(factors[user], proof.value)], true)
  }

  /** `validate_issued_factor`: the epoch is still the challenge's, and so is the enrolled factor. */
  predicate FactorStillValid(s: Security, factors: Factors, pending: Pending, valid: bool) {
    && pending.epoch == EpochOf(s, pending.account.id)
    && valid
    && pending.generation == GenerationOf(factors, pending.account.id)
  }

  function GenerationOf(factors: Factors, user: Sessions.UserId): Option<Generation> {
    if user in factors then Some(factors[user].generation) else None
  }

  // ---------------------------------------------------------------- what a password login leaves

  /** The challenges of other users that have not expired. */
  function LiveOthers(s: Security, user: Sessions.UserId, now: real): set<Key> {
    set key | key in s.challenges && s.challenges[key].account.id != user && s.challenges[key].deadline > now
  }

  /**
   A password login is refused for a stale start or an invalid account, and needs nothing more without a
   second factor. Otherwise the user's older challenges and all expired ones go, and unless 1,024 others
   are pending the new one pins account, version, epoch and enrolment for 300 seconds.
   */
  lemma PasswordExact(
      s: Security, factors: Factors, account: Account, version: Version, started: Option<nat>, valid: bool, key: Key,
      now: LoginReadings)
    ensures var r := PasswordAuthenticated(s, factors, account, version, started, valid, key, now);
            var epoch := if account.id in s.epochs then s.epochs[account.id] else 0;
            if (started.Some? && epoch > started.value) || !valid then r == Primary(Refused, s)
            else if account.id !in factors then r == Primary(NoFactor(epoch), s)
            else
              var others := LiveOthers(s, account.id, now.prune);
              && r.outcome == (if |others| < 1024 then Challenge(key) else Refused)
              && r.security.epochs == s.epochs && r.security.revision == s.revision
              && r.security.attempts == RateLimit.PrunedAttempts(s.attempts, now.prune)
              && (forall k :: k in r.security.challenges <==> k in others || (|others| < 1024 && k == key))
              && (forall k | k in r.security.challenges ::
                    r.security.challenges[k]
                    == if k == key && |others| < 1024
                       then Pending(account, version, now.issue + 300.0, Some(factors[account.id].generation), epoch)
                       else s.challenges[k])
  {
    hide RateLimit.PrunedAttempts;
    var left := ChallengesOfOthers(Pruned(s, now.prune).challenges, account.id);
    assert left.Keys == LiveOthers(s, account.id, now.prune);
  }

  /** An invalidation draws a new epoch past every older one and drops exactly the user's challenges. */
  lemma InvalidatedExact(s: Security, user: Sessions.UserId)
    ensures var t := Invalidated(s, user);
            && t.revision == s.revision + 1 && t.attempts == s.attempts
            && t.epochs == s.epochs[user := s.revision + 1]
            && (forall k :: k in t.challenges <==> k in s.challenges && s.challenges[k].account.id != user)
            && (forall k | k in t.challenges :: t.challenges[k] == s.challenges[k])
  {
  }

  // ---------------------------------------------------------------- the service

  class AccountSecurityService {
    const store: AccountSecurityStore
    var challenges: map<Key, Pending>
    var epochs: map<Sessions.UserId, nat>
    var revision: nat
    var attempts: map<Sessions.UserId, seq<real>>

    constructor (store: AccountSecurityStore)
      ensures this.store == store && State() == Security(map[], map[], 0, map[])
    {
      this.store := store;
      challenges, epochs, revision, attempts := map[], map[], 0, map[];
    }

    function State(): Security
      reads this
    {
      Security(challenges, epochs, revision, attempts)
    }

    /** Delete, key by key, the challenges of one user. */
    method ForgetChallenges(user: Sessions.UserId)
      modifies this`challenges
      ensures challenges == ChallengesOfOthers(old(challenges), user)
    {
      var keys := challenges.Keys;
      while keys != {}
        invariant keys <= challenges.Keys <= old(challenges.Keys)
        invariant forall k | k in challenges :: challenges[k] == old(challenges)[k]
        invariant forall k | k in old(challenges) && k !in keys :: k in challenges <==> old(challenges)[k].account.id != user
      {
        var key :| key in keys;
        keys := keys - {key};
        if challenges[key].account.id == user {
          challenges := challenges - {key};
        }
      }
    }

    method InvalidateUser(user: Sessions.UserId)
      modifies this
      ensures State() == Invalidated(old(State()), user)
    {
      revision := revision + 1;
      epochs := epochs[user := revision];
      ForgetChallenges(user);
    }

    method PrimaryStarted() returns (started: nat)
      ensures started == revision
    {
      started := revision;
    }

    method Prune(now: real)
      modifies this
      ensures State() == Pruned(old(State()), now)
    {
      var keys := challenges.Keys;
      while keys != {}
        invariant keys <= challenges.Keys <= old(challenges.Keys)
        invariant forall k | k in challenges :: challenges[k] == old(challenges)[k]
        invariant forall k | k in old(challenges) && k !in keys :: k in challenges <==> old(challenges)[k].deadline > now
        invariant attempts == old(attempts) && epochs == old(epochs) && revision == old(revision)
      {
        var key :| key in keys;
        keys := keys - {key};
        if challenges[key].deadline <= now {
          challenges := challenges - {key};
        }
      }
      var users := attempts.Keys;
      while users != {}
        invariant challenges == Unexpired(old(challenges), now)
        invariant users <= attempts.Keys <= old(attempts.Keys)
        invariant forall u | u in attempts :: attempts[u] == old(attempts)[u]
        invariant forall u | u in old(attempts) && u !in users ::
                    u in attempts <==> RateLimit.Active(old(attempts)[u], now)
        invariant epochs == old(epochs) && revision == old(revision)
      {
        var user :| user in users;
        users := users - {user};
        if attempts[user] == [] || attempts[user][|attempts[user]| - 1] <= now - LIFETIME {
          attempts := attempts - {user};
        }
      }
    }

    method ChargeAttempt(user: Sessions.UserId, pruneAt: real, now: real) returns (granted: bool)
      modifies this
      ensures var budget := RateLimit.Charge(old(attempts), user, pruneAt, now);
              && granted == budget.granted
              && State() == Pruned(old(State()), pruneAt).(attempts := budget.attempts)
    {
      Prune(pruneAt);
      if user !in attempts && |attempts| >= CAPACITY {
        return false;
      }
      var queue := if user in attempts then attempts[user] else [];
      ghost var rest := RateLimit.Popped(queue, now - LIFETIME);
      while queue != [] && queue[0] <= now - LIFETIME
        invariant RateLimit.Popped(queue, now - LIFETIME) == rest
        decreases |queue|
      {
        queue := queue[1..];
      }
      attempts := attempts[user := queue];
      if |queue| >= RateLimit.ATTEMPT_LIMIT {
        return false;
      }
      attempts := attempts[user := queue + [now]];
      return true;
    }

    method AuthenticatePassword(
        account: Account, version: Version, started: Option<nat>, valid: bool, key: Key, now: LoginReadings)
      returns (outcome: PrimaryOutcome)
      modifies this
      ensures Primary(outcome, State())
              == PasswordAuthenticated(old(State()), store.mfa, account, version, started, valid, key, now)
    {
      var epoch := if account.id in epochs then epochs[account.id] else 0;
      if (started.Some? && epoch > started.value) || !valid {
        return Refused;
      }
      if account.id !in store.mfa {
        return NoFactor(epoch);
      }
      Prune(now.prune);
      ForgetChallenges(account.id);
      if |challenges| >= CAPACITY {
        return Refused;
      }
      challenges := challenges[key := Pending(
        account, version, now.issue + LIFETIME, Some(store.mfa[account.id].generation), epoch)];
      return Challenge(key);
    }

    method Complete(key: Key, code: Code, utc: int, now: Readings, valid: bool, stillValid: bool)
      returns (completed: Option<Pending>, asked: bool)
      requires this as object != store
      modifies this, store
      ensures Completion(completed, State(), store.mfa, asked)
              == CompleteChallenge(old(State()), old(store.mfa), store.totp, key, code, utc, now, valid, stillValid)
    {
      hide Pruned, Proved, Spent, RateLimit.Charge;
      Prune(now.prune);
      if key !in challenges {
        return None, false;
      }
      var pending := challenges[key];
      var granted := ChargeAttempt(pending.account.id, now.again, now.charge);
      var epoch := if pending.account.id in epochs then epochs[pending.account.id] else 0;
      if !granted || pending.epoch != epoch || !valid {
        return None, false;
      }
      var accepted := store.Consume(pending.account.id, code, pending.generation, utc);
      if !accepted {
        return None, true;
      }
      challenges := challenges - {key};
      return if stillValid then Some(pending) else None, true;
    }

    method ValidateIssuedFactor(pending: Pending, valid: bool) returns (ok: bool)
      ensures ok == FactorStillValid(State(), store.mfa, pending, valid)
    {
      var epoch := if pending.account.id in epochs then epochs[pending.account.id] else 0;
      ok := pending.epoch == epoch && valid
            && pending.generation == (if pending.account.id in store.mfa
                                      then Some(store.mfa[pending.account.id].generation) else None);
    }
  }
}
