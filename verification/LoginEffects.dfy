/**
 What each step of the login protocol leaves behind, stated about the two session maps, the epochs and
 the pending challenges themselves, and one `complete` call from its code to its end.
 */
module LoginEffects {
  import opened Prelude
  import opened Sessions
  import opened SecondFactor
  import opened AccountSecurity
  import opened LoginProtocol
  import RateLimit

  type Step = LoginProtocol.Action

  function Next(totp: Totp, w: World, a: Step): World {
    LoginProtocol.Step(totp, w, a)
  }

  // ---------------------------------------------------------------- ending sessions

  /** The user was invalidated: it is logged, the epoch is newer than any before, and no challenge of the user is left. */
  ghost predicate Invalidates(w: World, v: World, user: User) {
    && v.log == w.log + [Invalidation(user)]
    && v.security.revision == w.security.revision + 1
    && v.security.epochs == w.security.epochs[user := w.security.revision + 1]
    && v.security.attempts == w.security.attempts
    && (forall k :: k in v.security.challenges <==> k in w.security.challenges && w.security.challenges[k].account.id != user)
    && (forall k | k in v.security.challenges :: v.security.challenges[k] == w.security.challenges[k])
    && v.factors == w.factors && v.used == w.used && v.serial == w.serial && v.origin == w.origin
  }

  lemma NotifiedInvalidates(w: World, user: User)
    ensures Invalidates(w, Notified(w, user), user)
    ensures Notified(w, user).table == w.table && Notified(w, user).flows == w.flows
  {
    InvalidatedExact(w.security, user);
  }

  /** A token that is revoked is gone, and its user is invalidated; an unknown one changes nothing. */
  lemma TokenRevoked(w: World, digest: TokenDigest)
    requires Inverse(w.table)
    ensures var v := RevokeToken(w, digest);
            && v.flows == w.flows
            && (if digest !in w.table.sessions then v == w
                else
                  var user := w.table.sessions[digest].account.id;
                  v.table == Table(w.table.sessions - {digest}, w.table.userTokens - {user}) && Invalidates(w, v, user))
  {
    if digest in w.table.sessions {
      var user := w.table.sessions[digest].account.id;
      NotifiedInvalidates(w.(table := Dropped(w.table, digest, user)), user);
    }
  }

  /** In any run a logout ends exactly the session of its token, and with it every login its user began before. */
  lemma LogoutExact(totp: Totp, actions: seq<Step>, digest: TokenDigest)
    ensures var w := LoginProtocol.Run(totp, actions);
            var v := Next(totp, w, Logout(digest));
            if digest !in w.table.sessions then v == w
            else
              var user := w.table.sessions[digest].account.id;
              && v.table == Table(w.table.sessions - {digest}, w.table.userTokens - {user})
              && v.flows == w.flows && Invalidates(w, v, user)
  {
    hide LoginProtocol.Run;
    SessionsStayInverse(totp, actions);
    TokenRevoked(LoginProtocol.Run(totp, actions), digest);
  }

  /** Revoking a user ends every session of the user and no other, whether or not there was one. */
  lemma RevokeExact(totp: Totp, actions: seq<Step>, user: User)
    ensures var w := LoginProtocol.Run(totp, actions);
            var v := Next(totp, w, Revoke(user));
            && (forall d :: d in v.table.sessions <==> d in w.table.sessions && w.table.sessions[d].account.id != user)
            && (forall d | d in v.table.sessions :: v.table.sessions[d] == w.table.sessions[d])
            && v.table.userTokens == w.table.userTokens - {user}
            && v.flows == w.flows && Invalidates(w, v, user)
  {
    hide LoginProtocol.Run;
    SessionsStayInverse(totp, actions);
    var w := LoginProtocol.Run(totp, actions);
    NotifiedInvalidates(w.(table := UserDropped(w.table, user)), user);
  }

  /** The token of a `complete` that refused is out: the call is over and no session of that token is left. */
  lemma RefusedExact(totp: Totp, actions: seq<Step>, flow: FlowId)
    requires flow in LoginProtocol.Run(totp, actions).flows && LoginProtocol.Run(totp, actions).flows[flow].MustRevoke?
    ensures var w := LoginProtocol.Run(totp, actions);
            var v, digest := Next(totp, w, RevokeRefused(flow)), w.flows[flow].digest;
            && v.flows == w.flows - {flow}
            && (if digest !in w.table.sessions then v == w.(flows := w.flows - {flow})
                else
                  var user := w.table.sessions[digest].account.id;
                  && v.table == Table(w.table.sessions - {digest}, w.table.userTokens - {user})
                  && Invalidates(w, v, user))
  {
    hide LoginProtocol.Run;
    SessionsStayInverse(totp, actions);
    var w := LoginProtocol.Run(totp, actions);
    TokenRevoked(w.(flows := w.flows - {flow}), w.flows[flow].digest);
  }

  // ---------------------------------------------------------------- beginning them

  /**
   A session issued to `account` replaces the user's previous one, if any, and no other; its token was
   never used before, nor was the record it names.
   */
  ghost predicate Installs(w: World, v: World, account: Account, version: Version, digest: TokenDigest, deadline: real) {
    && v.table.userTokens == w.table.userTokens[account.id := digest]
    && (forall d :: d in v.table.sessions <==>
          d == digest || (d in w.table.sessions && w.table.sessions[d].account.id != account.id))
    && (forall d | d in v.table.sessions && d != digest :: v.table.sessions[d] == w.table.sessions[d])
    && v.table.sessions[digest] == Record(w.serial, account, deadline, version)
    && (forall d | d in w.table.sessions :: w.table.sessions[d].serial != w.serial)
    && v.used == w.used + {digest} && v.serial == w.serial + 1
    && v.security == w.security && v.factors == w.factors && v.origin == w.origin && v.log == w.log
  }

  lemma InstalledIs(w: World, account: Account, version: Version, digest: TokenDigest, deadline: real)
    requires TokensSound(w) && digest !in w.used
    ensures Installs(w, Installed(w, account, version, digest, deadline), account, version, digest, deadline)
    ensures Installed(w, account, version, digest, deadline).flows == w.flows
  {
  }

  lemma IssueExact(totp: Totp, actions: seq<Step>, flow: FlowId, digest: TokenDigest, deadline: real)
    requires digest !in LoginProtocol.Run(totp, actions).used
    ensures var w := LoginProtocol.Run(totp, actions);
            && (flow in w.flows && w.flows[flow].Completed? ==>
                  var v, f := Next(totp, w, Issue(flow, digest, deadline)), w.flows[flow];
                  && v.flows == w.flows[flow := Issuing(f.key, f.pending, digest)]
                  && Installs(w, v, f.pending.account, f.pending.version, digest, deadline))
            && (forall account, version ::
                  var v := Next(totp, w, OtherLogin(account, version, digest, deadline));
                  v.flows == w.flows && Installs(w, v, account, version, digest, deadline))
  {
    hide LoginProtocol.Run, Installs, Installed, TokensSound;
    var w := LoginProtocol.Run(totp, actions);
    RunKeepsTokens(totp, actions);
    if flow in w.flows && w.flows[flow].Completed? {
      var f := w.flows[flow];
      InstalledIs(w, f.pending.account, f.pending.version, digest, deadline);
      InstalledFramed(w, Installed(w, f.pending.account, f.pending.version, digest, deadline), f.pending.account,
                      f.pending.version, digest, deadline, w.flows[flow := Issuing(f.key, f.pending, digest)]);
    }
    forall account, version
      ensures var v := Next(totp, w, OtherLogin(account, version, digest, deadline));
              v.flows == w.flows && Installs(w, v, account, version, digest, deadline)
    {
      InstalledIs(w, account, version, digest, deadline);
    }
  }

  lemma InstalledFramed(
      w: World, v: World, account: Account, version: Version, digest: TokenDigest, deadline: real, flows: map<FlowId, Flow>)
    requires Installs(w, v, account, version, digest, deadline)
    ensures Installs(w, v.(flows := flows), account, version, digest, deadline)
  {
  }

  lemma RunKeepsTokens(totp: Totp, actions: seq<Step>)
    ensures TokensSound(LoginProtocol.Run(totp, actions))
  {
    hide TokensSound;
    LoginProtocol.AlwaysInv(totp, actions);
  }

  // ---------------------------------------------------------------- the other steps

  /** A password login: what it leaves of the challenges is `PasswordExact`'s; a new challenge is logged with its start. */
  lemma PasswordLogs(
      totp: Totp, w: World, account: Account, version: Version, start: Option<nat>, valid: bool, key: Key, at: LoginReadings)
    requires key !in w.origin && (start.Some? ==> start.value < |w.log| && w.log[start.value].Started?)
    ensures var v := Next(totp, w, Password(account, version, start, valid, key, at));
            var epoch := if start.Some? then Some(w.log[start.value].epoch) else None;
            var p := PasswordAuthenticated(w.security, w.factors, account, version, epoch, valid, key, at);
            && v.security == p.security
            && v.table == w.table && v.factors == w.factors && v.flows == w.flows && v.used == w.used && v.serial == w.serial
            && (if p.outcome.Challenge? then
                  && account.id in w.factors
                  && v.log == w.log + [Challenged(key, account.id, w.factors[account.id].generation, start)]
                  && v.origin == w.origin[key := |w.log|]
                else v.log == w.log && v.origin == w.origin)
  {
  }

  /** A start notes the revision, expiry drops one session without a word, and nothing else comes of either. */
  lemma QuietSteps(totp: Totp, actions: seq<Step>, digest: TokenDigest, factors: Factors)
    ensures var w := LoginProtocol.Run(totp, actions);
            && Next(totp, w, StartPrimary) == w.(log := w.log + [Started(w.security.revision)])
            && Next(totp, w, ChangeFactors(factors)) == w.(factors := factors)
            && Next(totp, w, OtherResolveDrops(digest))
               == (if digest in w.table.sessions then
                     w.(table := Table(w.table.sessions - {digest}, w.table.userTokens - {w.table.sessions[digest].account.id}))
                   else w)
  {
    hide LoginProtocol.Run;
    SessionsStayInverse(totp, actions);
  }

  // ---------------------------------------------------------------- one call from end to end

  /** What one `complete` call presents and what it is answered at each of its suspensions. */
  datatype Call = Call(
    flow: FlowId, key: Key, code: Code, utc: int, at: Readings, valid: bool, stillValid: bool,
    digest: TokenDigest, deadline: real, first: real, current: Option<Account>, second: real, again: bool)

  function Steps(a: Call): seq<Step> {
    [Complete(a.flow, a.key, a.code, a.utc, a.at, a.valid, a.stillValid), Issue(a.flow, a.digest, a.deadline),
     FirstSection(a.flow, a.first), Finish(a.flow, a.current, a.again, a.second), RevokeRefused(a.flow)]
  }

  lemma RunMore(totp: Totp, actions: seq<Step>, a: Step)
    ensures LoginProtocol.Run(totp, actions + [a]) == Next(totp, LoginProtocol.Run(totp, actions), a)
  {
    hide LoginProtocol.Step;
    assert (actions + [a])[..|actions|] == actions;
  }

  lemma RunFive(totp: Totp, actions: seq<Step>, a: Call)
    ensures var v := LoginProtocol.Run(totp, actions);
            LoginProtocol.Run(totp, actions + Steps(a))
            == Next(totp, Next(totp, Next(totp, Next(totp, Next(totp, v, Steps(a)[0]), Steps(a)[1]), Steps(a)[2]), Steps(a)[3]),
                    Steps(a)[4])
  {
    hide Next, LoginProtocol.Run;
    var all := Steps(a);
    RunMore(totp, actions, all[0]);
    RunMore(totp, actions + all[..1], all[1]);
    RunMore(totp, actions + all[..2], all[2]);
    RunMore(totp, actions + all[..3], all[3]);
    RunMore(totp, actions + all[..4], all[4]);
    assert actions + [all[0]] == actions + all[..1] && actions + all[..1] + [all[1]] == actions + all[..2];
    assert actions + all[..2] + [all[2]] == actions + all[..3] && actions + all[..3] + [all[3]] == actions + all[..4];
    assert actions + all[..4] + [all[4]] == actions + all;
  }

  /** The code's own section. */
  lemma CodeStep(totp: Totp, w: World, a: Call)
    requires a.flow !in w.flows
    ensures var v := Next(totp, w, Steps(a)[0]);
            var c := CompleteChallenge(w.security, w.factors, totp, a.key, a.code, a.utc, a.at, a.valid, a.stillValid);
            v == w.(security := c.security, factors := c.factors,
                    flows := if c.pending.Some? then w.flows[a.flow := Completed(a.key, c.pending.value)] else w.flows)
  {
    hide CompleteChallenge;
  }

  /** Without a pending login there is nothing left to do. */
  lemma NothingFollows(totp: Totp, w: World, a: Call)
    requires a.flow !in w.flows
    ensures Next(totp, Next(totp, Next(totp, Next(totp, w, Steps(a)[1]), Steps(a)[2]), Steps(a)[3]), Steps(a)[4]) == w
  {
  }

  /** A returned challenge is the one that was pending, of the current epoch and for the factor it leaves. */
  lemma PendingStillValid(totp: Totp, w: World, a: Call)
    ensures var c := CompleteChallenge(w.security, w.factors, totp, a.key, a.code, a.utc, a.at, a.valid, a.stillValid);
            c.pending.Some? ==>
              && a.key in w.security.challenges && c.pending.value == w.security.challenges[a.key]
              && c.pending.value.epoch == EpochOf(c.security, c.pending.value.account.id)
              && (c.pending.value.generation.Some? ==>
                    c.pending.value.generation == GenerationOf(c.factors, c.pending.value.account.id))
  {
    hide RateLimit.Charge, RateLimit.PrunedAttempts, Position, FirstMatch;
  }

  /** The session of a fresh token is looked up, resolved and returned, or it is out. */
  lemma TokenFollows(totp: Totp, w: World, a: Call, p: Pending)
    requires TokensSound(w) && a.digest !in w.used
    requires a.flow in w.flows && w.flows[a.flow] == Completed(a.key, p)
    ensures var v := Next(totp, Next(totp, w, Steps(a)[1]), Steps(a)[2]);
            && v.security == w.security && v.factors == w.factors && v.log == w.log && v.origin == w.origin
            && (if a.deadline > a.first then
                  && v.flows
                     == w.flows[a.flow := Resolving(a.key, p, a.digest, Record(w.serial, p.account, a.deadline, p.version))]
                  && Installs(w, v.(flows := w.flows), p.account, p.version, a.digest, a.deadline)
                else
                  && v.flows == w.flows[a.flow := MustRevoke(a.digest)]
                  && Evicted(w.table, v.table, p.account.id, a.digest))
  {
    hide TokensSound, Installed;
    var i := Installed(w, p.account, p.version, a.digest, a.deadline);
    FreshToken(w, a.digest);
    InstalledIs(w, p.account, p.version, a.digest, a.deadline);
    DropEvicts(w, i, p.account, p.version, a.digest, a.deadline);
  }

  lemma FreshToken(w: World, digest: TokenDigest)
    requires TokensSound(w) && digest !in w.used
    ensures digest !in w.table.sessions
  {
  }

  /** Dropping a session just installed leaves its user without one. */
  lemma DropEvicts(w: World, i: World, account: Account, version: Version, digest: TokenDigest, deadline: real)
    requires digest !in w.table.sessions && Installs(w, i, account, version, digest, deadline)
    ensures Evicted(w.table, Dropped(i.table, digest, account.id), account.id, digest)
  {
  }

  /** The user has no session any more, and every other session is as it was. */
  ghost predicate Evicted(before: Table, after: Table, user: User, digest: TokenDigest) {
    && digest !in after.sessions && after.userTokens == before.userTokens - {user}
    && (forall d :: d in after.sessions <==> d in before.sessions && before.sessions[d].account.id != user)
    && (forall d | d in after.sessions :: after.sessions[d] == before.sessions[d])
  }

  /** The second section and the second registry read, for a session that is still installed. */
  lemma SessionResolved(totp: Totp, i: World, a: Call, p: Pending, record: Record)
    requires a.flow in i.flows && i.flows[a.flow] == Resolving(a.key, p, a.digest, record)
    requires a.digest in i.table.sessions && i.table.sessions[a.digest] == record && record.account == p.account
    requires p.epoch == EpochOf(i.security, p.account.id) && p.generation == GenerationOf(i.factors, p.account.id)
    ensures var f := Next(totp, i, Steps(a)[3]);
            if record.deadline <= a.second || a.current.None? then
              f == i.(table := Dropped(i.table, a.digest, p.account.id), flows := i.flows[a.flow := MustRevoke(a.digest)])
            else if a.again then
              f == i.(flows := i.flows - {a.flow}, log := i.log + [Returned(a.key, p.account.id, a.digest)])
            else f == i.(flows := i.flows[a.flow := MustRevoke(a.digest)])
  {
  }

  /** A flow whose token must be revoked ends with the token's session, if there still is one. */
  lemma RevokedOut(totp: Totp, f: World, a: Call)
    requires a.flow in f.flows && f.flows[a.flow] == MustRevoke(a.digest)
    ensures Next(totp, f, Steps(a)[4]) == RevokeToken(f.(flows := f.flows - {a.flow}), a.digest)
  {
    hide RevokeToken;
  }

  lemma GoneOut(totp: Totp, f: World, a: Call)
    requires a.flow !in f.flows
    ensures Next(totp, f, Steps(a)[4]) == f
  {
    hide RevokeToken;
  }

  lemma InstallsHas(w: World, i: World, account: Account, version: Version, digest: TokenDigest, deadline: real)
    requires Installs(w, i, account, version, digest, deadline)
    ensures digest in i.table.sessions && i.table.sessions[digest] == Record(w.serial, account, deadline, version)
    ensures i.log == w.log && i.security == w.security && i.factors == w.factors && i.origin == w.origin
    ensures i.table.userTokens == w.table.userTokens[account.id := digest]
  {
  }

  /** What `EndResolve` leaves of a flow, and what its revocation leaves of the token. */
  lemma TokenSettles(totp: Totp, w: World, i: World, a: Call, p: Pending)
    requires a.flow !in w.flows && a.digest !in w.table.sessions
    requires Inverse(i.table) && Installs(w, i, p.account, p.version, a.digest, a.deadline)
    requires i.flows == w.flows[a.flow := Resolving(a.key, p, a.digest, Record(w.serial, p.account, a.deadline, p.version))]
    requires p.epoch == EpochOf(i.security, p.account.id) && p.generation == GenerationOf(i.factors, p.account.id)
    ensures var v, user := Next(totp, Next(totp, i, Steps(a)[3]), Steps(a)[4]), p.account.id;
            && v.flows == w.flows
            && (if a.deadline <= a.second || a.current.None? then
                  Evicted(w.table, v.table, user, a.digest) && v == i.(table := v.table, flows := w.flows)
                else if a.again then
                  v == i.(flows := w.flows, log := w.log + [Returned(a.key, user, a.digest)])
                else Evicted(w.table, v.table, user, a.digest) && Invalidates(i, v, user))
  {
    hide Next, Installs, Inverse, Invalidates, Evicted, EpochOf, GenerationOf, RevokeToken;
    var user, record := p.account.id, Record(w.serial, p.account, a.deadline, p.version);
    DropEvicts(w, i, p.account, p.version, a.digest, a.deadline);
    InstallsHas(w, i, p.account, p.version, a.digest, a.deadline);
    SessionResolved(totp, i, a, p, record);
    var f := Next(totp, i, Steps(a)[3]);
    assert i.flows - {a.flow} == w.flows && i.flows[a.flow := MustRevoke(a.digest)] - {a.flow} == w.flows;
    if a.flow in f.flows {
      RevokedOut(totp, f, a);
      var g := f.(flows := w.flows);
      SettledByRevoking(g, a.digest, user, i.table);
      if a.digest in g.table.sessions {
        InvalidatesFramed(i, g, RevokeToken(g, a.digest), user);
      }
    } else {
      GoneOut(totp, f, a);
    }
  }

  /** Revoking either finds nothing, or drops what `Dropped` would. */
  lemma SettledByRevoking(f: World, digest: TokenDigest, user: User, table: Table)
    requires f.table == Dropped(table, digest, user)
             || (f.table == table && Inverse(table) && digest in table.sessions && table.sessions[digest].account.id == user)
    ensures var v := RevokeToken(f, digest);
            && v.flows == f.flows && v.table == Dropped(table, digest, user)
            && (digest !in f.table.sessions ==> v == f)
            && (digest in f.table.sessions ==> Invalidates(f, v, user))
  {
    hide Invalidates, Invalidated;
    if digest in f.table.sessions {
      NotifiedInvalidates(f.(table := Dropped(f.table, digest, user)), user);
      InvalidatesFramed(f, f.(table := Dropped(f.table, digest, user)), RevokeToken(f, digest), user);
    }
  }

  lemma InvalidatesFramed(f: World, g: World, v: World, user: User)
    requires Invalidates(g, v, user) && f == g.(table := f.table, flows := f.flows)
    ensures Invalidates(f, v, user)
  {
  }

  lemma TokensFramed(w: World, security: Security, factors: Factors, flows: map<FlowId, Flow>)
    requires TokensSound(w)
    ensures TokensSound(w.(security := security, factors := factors, flows := flows))
  {
  }

  lemma InstalledInverse(w: World, i: World, account: Account, version: Version, digest: TokenDigest, deadline: real)
    requires TokensSound(w) && digest !in w.used && Installs(w, i, account, version, digest, deadline)
    ensures Inverse(i.table)
  {
  }

  lemma EvictedUser(before: Table, after: Table, user: User, digest: TokenDigest)
    requires Evicted(before, after, user, digest)
    ensures user !in after.userTokens && digest !in after.sessions
  {
  }

  lemma InstallsFramed(o: World, j: World, w: World, i: World, p: Pending, digest: TokenDigest, deadline: real)
    requires Installs(o, j, p.account, p.version, digest, deadline)
    requires w == o.(flows := w.flows) && i == j.(flows := i.flows)
    ensures Installs(w, i, p.account, p.version, digest, deadline)
  {
  }

  lemma InstallsLogged(w: World, i: World, v: World, p: Pending, digest: TokenDigest, deadline: real)
    requires Installs(w, i, p.account, p.version, digest, deadline)
    requires v == i.(flows := v.flows, log := v.log)
    ensures Installs(w, v.(log := w.log), p.account, p.version, digest, deadline)
  {
  }

  /** A session that had expired when it was first looked up. */
  lemma RefusedAtOnce(totp: Totp, w: World, i: World, a: Call, p: Pending)
    requires a.flow !in w.flows && i.flows == w.flows[a.flow := MustRevoke(a.digest)]
    requires Evicted(w.table, i.table, p.account.id, a.digest)
    ensures Next(totp, Next(totp, i, Steps(a)[3]), Steps(a)[4]) == i.(flows := w.flows)
  {
    hide Evicted, Next;
    EvictedUser(w.table, i.table, p.account.id, a.digest);
    assert i.flows - {a.flow} == w.flows;
    NotResolving(totp, i, a);
    RevokedOut(totp, i, a);
  }

  lemma NotResolving(totp: Totp, i: World, a: Call)
    requires a.flow in i.flows && i.flows[a.flow].MustRevoke?
    ensures Next(totp, i, Steps(a)[3]) == i
  {
  }

  lemma InvalidatesInstalled(w: World, i: World, v: World, p: Pending, digest: TokenDigest, deadline: real)
    requires Installs(w, i, p.account, p.version, digest, deadline) && Invalidates(i, v, p.account.id)
    ensures Invalidates(w, v.(used := w.used, serial := w.serial), p.account.id)
  {
  }

  /** A call that holds a pending login, from its token to its end. */
  lemma PendingSettles(totp: Totp, w: World, a: Call, p: Pending)
    requires TokensSound(w) && a.flow !in w.flows && a.digest !in w.used
    requires p.epoch == EpochOf(w.security, p.account.id) && p.generation == GenerationOf(w.factors, p.account.id)
    ensures var o := w.(flows := w.flows[a.flow := Completed(a.key, p)]);
            var v, user := Next(totp, Next(totp, Next(totp, Next(totp, o, Steps(a)[1]), Steps(a)[2]), Steps(a)[3]), Steps(a)[4]),
                           p.account.id;
            var resolved := a.deadline > a.first && a.deadline > a.second && a.current.Some?;
            && v.flows == w.flows
            && (if resolved && a.again then
                  && v.log == w.log + [Returned(a.key, user, a.digest)]
                  && Installs(w, v.(log := w.log), p.account, p.version, a.digest, a.deadline)
                else
                  && user !in v.table.userTokens && Evicted(w.table, v.table, user, a.digest)
                  && (if resolved then Invalidates(w, v.(used := w.used, serial := w.serial), user)
                      else v.log == w.log && v.security == w.security && v.factors == w.factors))
  {
    hide Next, Installs, Evicted, Invalidates, TokensSound, Inverse, EpochOf, GenerationOf;
    var o := w.(flows := w.flows[a.flow := Completed(a.key, p)]);
    TokensFramed(w, w.security, w.factors, o.flows);
    FreshToken(w, a.digest);
    TokenFollows(totp, o, a, p);
    var i := Next(totp, Next(totp, o, Steps(a)[1]), Steps(a)[2]);
    if a.deadline > a.first {
      InstallsFramed(o, i.(flows := o.flows), w, i, p, a.digest, a.deadline);
      InstallsHas(w, i, p.account, p.version, a.digest, a.deadline);
      InstalledInverse(w, i, p.account, p.version, a.digest, a.deadline);
      TokenSettles(totp, w, i, a, p);
      var v := Next(totp, Next(totp, i, Steps(a)[3]), Steps(a)[4]);
      if a.deadline > a.second && a.current.Some? && a.again {
        InstallsLogged(w, i, v, p, a.digest, a.deadline);
      } else {
        EvictedUser(w.table, v.table, p.account.id, a.digest);
        if a.deadline > a.second && a.current.Some? {
          InvalidatesInstalled(w, i, v, p, a.digest, a.deadline);
        }
      }
    } else {
      RefusedAtOnce(totp, w, i, a, p);
      EvictedUser(w.table, i.table, p.account.id, a.digest);
    }
  }

  /** A challenge of a run is pinned to an enrolment. */
  lemma PendingPinned(totp: Totp, actions: seq<Step>, key: Key)
    requires key in LoginProtocol.Run(totp, actions).security.challenges
    ensures LoginProtocol.Run(totp, actions).security.challenges[key].generation.Some?
  {
    LoginProtocol.AlwaysInv(totp, actions);
    assert Guarded(LoginProtocol.Run(totp, actions), key, LoginProtocol.Run(totp, actions).security.challenges[key]);
  }

  /**
   One `complete` call in any run, with nothing between its sections. Without a pending login only the
   code's section had any effect. With one, the token is returned and is its user's only session exactly
   if the session had not expired at either section of `resolve` and both registry reads accept; all
   other sessions are as they were. Otherwise the user is left without a session, and if the session was
   still installed when the call refused it, every login the user began is void as well.
   */
  lemma CallExact(totp: Totp, actions: seq<Step>, a: Call)
    requires var w := LoginProtocol.Run(totp, actions); a.flow !in w.flows && a.digest !in w.used
    ensures var w, v := LoginProtocol.Run(totp, actions), LoginProtocol.Run(totp, actions + Steps(a));
            var c := CompleteChallenge(w.security, w.factors, totp, a.key, a.code, a.utc, a.at, a.valid, a.stillValid);
            var coded := w.(security := c.security, factors := c.factors);
            && v.flows == w.flows
            && (c.pending.None? ==> v == coded)
            && (c.pending.Some? ==>
                  var p, user := c.pending.value, c.pending.value.account.id;
                  var resolved := a.deadline > a.first && a.deadline > a.second && a.current.Some?;
                  if resolved && a.again then
                    && v.log == w.log + [Returned(a.key, user, a.digest)]
                    && Installs(coded, v.(log := w.log), p.account, p.version, a.digest, a.deadline)
                  else
                    && user !in v.table.userTokens && Evicted(w.table, v.table, user, a.digest)
                    && (if resolved then Invalidates(coded, v.(used := w.used, serial := w.serial), user)
                        else v.log == w.log && v.security == c.security && v.factors == c.factors))
  {
    hide LoginProtocol.Run, Next, CompleteChallenge, Installs, Evicted, Invalidates, TokensSound, Inverse, EpochOf, GenerationOf;
    var w := LoginProtocol.Run(totp, actions);
    var c := CompleteChallenge(w.security, w.factors, totp, a.key, a.code, a.utc, a.at, a.valid, a.stillValid);
    var coded := w.(security := c.security, factors := c.factors);
    RunFive(totp, actions, a);
    CodeStep(totp, w, a);
    if c.pending.None? {
      NothingFollows(totp, coded, a);
    } else {
      PendingStillValid(totp, w, a);
      PendingPinned(totp, actions, a.key);
      RunKeepsTokens(totp, actions);
      TokensFramed(w, c.security, c.factors, w.flows);
      PendingSettles(totp, coded, a, c.pending.value);
    }
  }
}
