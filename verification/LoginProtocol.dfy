/**
 The login protocol: every interleaving of password logins, second-factor completions, other
 sessions, revocations and factor changes.

 A step is the code between two suspension points. `complete` is four of them: the synchronous
 `complete_challenge`, the awaited `issue`, the first critical section of the awaited `resolve`,
 and, after the registry read, its second critical section together with everything up to the
 return, since nothing suspends in between. A revocation and its notification are one step.
 */
module LoginProtocol {
  import opened Prelude
  import opened Sessions
  import opened SecondFactor
  import opened AccountSecurity
  import RateLimit

  type User = nat
  type FlowId = nat

  /** Where one `complete` call stands. */
  datatype Flow =
    | Completed(key: Key, pending: Pending)
    | Issuing(key: Key, pending: Pending, digest: TokenDigest)
    | Resolving(key: Key, pending: Pending, digest: TokenDigest, record: Record)
    | MustRevoke(digest: TokenDigest)

  /** The observable history; positions in it are the protocol's time. */
  datatype Happening =
    | Started(epoch: nat)
    | Challenged(key: Key, user: User, generation: Generation, started: Option<nat>)
    | Invalidation(user: User)
    | Returned(key: Key, user: User, digest: TokenDigest)

  datatype World = World(
    table: Table, security: Security, factors: Factors, flows: map<FlowId, Flow>,
    used: set<TokenDigest>, serial: nat, origin: map<Key, nat>, log: seq<Happening>)

  datatype Action =
    | StartPrimary
    | Password(account: Account, version: Version, start: Option<nat>, valid: bool, key: Key, at: LoginReadings)
    | Complete(flow: FlowId, key: Key, code: Code, utc: int, readings: Readings, valid: bool, stillValid: bool)
    | Issue(flow: FlowId, digest: TokenDigest, deadline: real)
    | FirstSection(flow: FlowId, now: real)
    | Finish(flow: FlowId, current: Option<Account>, valid: bool, now: real)
    | RevokeRefused(flow: FlowId)
    | OtherLogin(account: Account, version: Version, digest: TokenDigest, deadline: real)
    | OtherResolveDrops(digest: TokenDigest)
    | Logout(digest: TokenDigest)
    | Revoke(user: User)
    | ChangeFactors(factors: Factors)

  /** `_notify_revocation`: the security service hears of it before anything else runs. */
  function Notified(w: World, user: User): World {
    w.(security := Invalidated(w.security, user), log := w.log + [Invalidation(user)])
  }

  function RevokeToken(w: World, digest: TokenDigest): World {
    if digest !in w.table.sessions then w
    else
      var user := w.table.sessions[digest].account.id;
      Notified(w.(table := Dropped(w.table, digest, user)), user)
  }

  /** `password_authenticated`, with the epoch captured by an earlier `primary_started` when one is given. */
  function PasswordStep(
      w: World, account: Account, version: Version, start: Option<nat>, valid: bool, key: Key, now: LoginReadings)
    : World
  {
    if key in w.origin || (start.Some? && !(start.value < |w.log| && w.log[start.value].Started?)) then w
    else
      var epoch := if start.Some? then Some(w.log[start.value].epoch) else None;
      var p := PasswordAuthenticated(w.security, w.factors, account, version, epoch, valid, key, now);
      if p.outcome.Challenge? then
        w.(security := p.security, origin := w.origin[key := |w.log|],
           log := w.log + [Challenged(key, account.id, w.factors[account.id].generation, start)])
      else w.(security := p.security)
  }

  function CompleteStep(
      totp: Totp, w: World, flow: FlowId, key: Key, code: Code, utc: int, now: Readings, valid: bool, stillValid: bool): World
  {
    if flow in w.flows then w
    else
      var c := CompleteChallenge(w.security, w.factors, totp, key, code, utc, now, valid, stillValid);
      w.(security := c.security, factors := c.factors,
         flows := if c.pending.Some? then w.flows[flow := Completed(key, c.pending.value)] else w.flows)
  }

  function IssueStep(w: World, flow: FlowId, digest: TokenDigest, deadline: real): World {
    if flow !in w.flows || !w.flows[flow].Completed? || digest in w.used then w
    else
      var f := w.flows[flow];
      Installed(w, f.pending.account, f.pending.version, digest, deadline).(
        flows := w.flows[flow := Issuing(f.key, f.pending, digest)])
  }

  /** A session issued with a fresh token and a fresh record object. */
  function Installed(w: World, account: Account, version: Version, digest: TokenDigest, deadline: real): World {
    w.(table := Issued(w.table, digest, Record(w.serial, account, deadline, version)),
       used := w.used + {digest}, serial := w.serial + 1)
  }

  function FirstSectionStep(w: World, flow: FlowId, now: real): World {
    if flow !in w.flows || !w.flows[flow].Issuing? then w
    else
      var f := w.flows[flow];
      var looked := BeginResolve(w.table, f.digest, now);
      w.(table := looked.table,
         flows := w.flows[flow := match looked.lookup
                                  case Missing => MustRevoke(f.digest)
                                  case Reading(record) => Resolving(f.key, f.pending, f.digest, record)])
  }

  function FinishStep(w: World, flow: FlowId, current: Option<Account>, valid: bool, now: real): World {
    if flow !in w.flows || !w.flows[flow].Resolving? then w
    else
      var f := w.flows[flow];
      var r := EndResolve(w.table, f.digest, f.record, current, now);
      if r.account.Some? && FactorStillValid(w.security, w.factors, f.pending, valid) then
        w.(table := r.table, flows := w.flows - {flow},
           log := w.log + [Returned(f.key, f.pending.account.id, f.digest)])
      else w.(table := r.table, flows := w.flows[flow := MustRevoke(f.digest)])
  }

  function RevokeRefusedStep(w: World, flow: FlowId): World {
    if flow !in w.flows || !w.flows[flow].MustRevoke? then w
    else RevokeToken(w.(flows := w.flows - {flow}), w.flows[flow].digest)
  }

  /** One step; a step that is not enabled leaves the world as it is. */
  function Step(totp: Totp, w: World, a: Action): World {
    match a
    case StartPrimary => w.(log := w.log + [Started(w.security.revision)])
    case Password(account, version, start, valid, key, now) => PasswordStep(w, account, version, start, valid, key, now)
    case Complete(flow, key, code, utc, now, valid, stillValid) =>
      CompleteStep(totp, w, flow, key, code, utc, now, valid, stillValid)
    case Issue(flow, digest, deadline) => IssueStep(w, flow, digest, deadline)
    case FirstSection(flow, now) => FirstSectionStep(w, flow, now)
    case Finish(flow, current, valid, now) => FinishStep(w, flow, current, valid, now)
    case RevokeRefused(flow) => RevokeRefusedStep(w, flow)
    case OtherLogin(account, version, digest, deadline) =>
      if digest in w.used then w else Installed(w, account, version, digest, deadline)
    case OtherResolveDrops(digest) =>
      if digest !in w.table.sessions then w
      else w.(table := Dropped(w.table, digest, w.table.sessions[digest].account.id))
    case Logout(digest) => RevokeToken(w, digest)
    case Revoke(user) => Notified(w.(table := UserDropped(w.table, user)), user)
    case ChangeFactors(factors) => w.(factors := factors)
  }

  const INITIAL: World :=
    World(Table(map[], map[]), Security(map[], map[], 0, map[]), map[], map[], {}, 0, map[], [])

  function Run(totp: Totp, actions: seq<Action>): World {
    if actions == [] then INITIAL
    else Step(totp, Run(totp, actions[..|actions| - 1]), actions[|actions| - 1])
  }

  // ---------------------------------------------------------------- the invariant

  ghost predicate NoInvalidation(log: seq<Happening>, user: User, from: nat) {
    forall k | from <= k < |log| :: log[k] != Invalidation(user)
  }

  /** An epoch seen at position `from`: it is not from the future, and still being current means nothing happened since. */
  ghost predicate EpochGuards(w: World, user: User, epoch: nat, from: nat) {
    && epoch <= EpochOf(w.security, user)
    && (epoch == EpochOf(w.security, user) ==> NoInvalidation(w.log, user, from))
  }

  /** Where a challenge's guarantee starts: at its primary start when one was given, else at its creation. */
  function GuardStart(w: World, key: Key): nat
    requires key in w.origin && w.origin[key] < |w.log| && w.log[w.origin[key]].Challenged?
  {
    var c := w.log[w.origin[key]];
    if c.started.Some? then c.started.value else w.origin[key]
  }

  /** What holds of a challenge from its creation to the end of its completion. */
  ghost predicate Guarded(w: World, key: Key, pending: Pending) {
    && key in w.origin
    && w.origin[key] < |w.log|
    && w.log[w.origin[key]].Challenged?
    && w.log[w.origin[key]].key == key
    && w.log[w.origin[key]].user == pending.account.id
    && pending.generation == Some(w.log[w.origin[key]].generation)
    && GuardStart(w, key) <= w.origin[key]
    && EpochGuards(w, pending.account.id, pending.epoch, GuardStart(w, key))
  }

  ghost predicate ReturnedKey(w: World, key: Key) {
    exists k :: 0 <= k < |w.log| && w.log[k].Returned? && w.log[k].key == key
  }

  ghost predicate FlowSound(w: World, id: FlowId)
    requires id in w.flows
  {
    var f := w.flows[id];
    if f.MustRevoke? then f.digest in w.used
    else
      && Guarded(w, f.key, f.pending)
      && f.key !in w.security.challenges
      && !ReturnedKey(w, f.key)
      && (f.Completed? || (f.digest in w.used && DigestOf(w, f.digest, f.pending.account)))
      && (f.Resolving? ==> SameRecord(w, f.digest, f.record))
  }

  /** While it is installed, a flow's token names a session of the flow's own account. */
  ghost predicate DigestOf(w: World, digest: TokenDigest, account: Account) {
    digest in w.table.sessions ==> w.table.sessions[digest].account == account
  }

  ghost predicate SameRecord(w: World, digest: TokenDigest, record: Record) {
    digest in w.table.sessions && w.table.sessions[digest].serial == record.serial
    ==> w.table.sessions[digest] == record
  }

  ghost predicate TokensSound(w: World) {
    && Inverse(w.table)
    && w.table.sessions.Keys <= w.used
    && (forall d | d in w.table.sessions :: w.table.sessions[d].serial < w.serial)
  }

  ghost predicate EpochsSound(w: World) {
    && (forall u | u in w.security.epochs :: w.security.epochs[u] <= w.security.revision)
    && (forall k | 0 <= k < |w.log| && w.log[k].Started? :: StartGuards(w, k))
  }

  /** A primary start at `k` captured a revision no earlier epoch exceeds and every later one does. */
  ghost predicate StartGuards(w: World, k: nat)
    requires k < |w.log| && w.log[k].Started?
  {
    && w.log[k].epoch <= w.security.revision
    && forall u: User :: EpochOf(w.security, u) <= w.log[k].epoch ==> NoInvalidation(w.log, u, k)
  }

  ghost predicate ChallengesSound(w: World) {
    && (forall key | key in w.security.challenges :: Guarded(w, key, w.security.challenges[key]) && !ReturnedKey(w, key))
    && (forall k | 0 <= k < |w.log| && w.log[k].Returned? :: w.log[k].key in w.origin)
  }

  ghost predicate FlowsSound(w: World) {
    && (forall id | id in w.flows :: FlowSound(w, id))
    && (forall i, j | i in w.flows && j in w.flows && i != j && !w.flows[i].MustRevoke? && !w.flows[j].MustRevoke? ::
          w.flows[i].key != w.flows[j].key)
  }

  /** No challenge is answered by two returns. */
  ghost predicate ReturnsUnique(w: World) {
    forall j, k | 0 <= j < k < |w.log| && w.log[j].Returned? && w.log[k].Returned? :: w.log[j].key != w.log[k].key
  }

  ghost predicate Inv(w: World) {
    TokensSound(w) && EpochsSound(w) && ChallengesSound(w) && FlowsSound(w) && ReturnsUnique(w)
  }

  // ---------------------------------------------------------------- every step keeps it

  /** How any step moves the epochs and the log. */
  ghost predicate Evolves(w: World, w': World) {
    && w.log <= w'.log
    && (forall key | key in w.origin :: key in w'.origin && w'.origin[key] == w.origin[key])
    && w.security.revision <= w'.security.revision
    && (forall u: User :: EpochMoves(w, w', u))
  }

  /** A user's epoch stays, with no invalidation logged, or jumps past the old revision. */
  ghost predicate EpochMoves(w: World, w': World, u: User)
    requires w.log <= w'.log
  {
    || (EpochOf(w'.security, u) == EpochOf(w.security, u) && NoInvalidation(w'.log, u, |w.log|))
    || EpochOf(w'.security, u) > w.security.revision
  }

  /** Sessions and flows have no part in how a step moves the epochs and the log. */
  lemma EvolvesFrom(w: World, v: World, w': World)
    requires v.log == w.log && v.origin == w.origin && v.security == w.security
    requires Evolves(v, w')
    ensures Evolves(w, w')
  {
    forall u: User
      ensures EpochMoves(w, w', u)
    {
      assert EpochMoves(v, w', u);
    }
  }

  lemma StepEvolves(totp: Totp, w: World, a: Action)
    requires EpochsSound(w)
    ensures Evolves(w, Step(totp, w, a))
    ensures forall u | u in Step(totp, w, a).security.epochs ::
              Step(totp, w, a).security.epochs[u] <= Step(totp, w, a).security.revision
  {
    hide PasswordStep, CompleteStep, Evolves, RevokeToken;
    match a {
      case Password(account, version, start, valid, key, now) =>
        PasswordEvolves(w, account, version, start, valid, key, now);
      case Complete(flow, key, code, utc, now, valid, stillValid) =>
        CompleteEvolves(totp, w, flow, key, code, utc, now, valid, stillValid);
      case Revoke(user) =>
        var dropped := w.(table := UserDropped(w.table, user));
        NotifiedEvolves(dropped, user);
        EvolvesFrom(w, dropped, Notified(dropped, user));
      case Logout(digest) => RevokeTokenEvolves(w, digest);
      case RevokeRefused(flow) =>
        if flow in w.flows && w.flows[flow].MustRevoke? {
          var forgotten := w.(flows := w.flows - {flow});
          RevokeTokenEvolves(forgotten, w.flows[flow].digest);
          EvolvesFrom(w, forgotten, Step(totp, w, a));
        } else {
          EpochsUntouched(w, w);
        }
      case _ => EpochsUntouched(w, Step(totp, w, a));
    }
  }

  /** Steps that leave the epochs alone and log no invalidation. */
  lemma EpochsUntouched(w: World, w': World)
    requires w'.security.epochs == w.security.epochs && w'.security.revision >= w.security.revision
    requires w.log <= w'.log && forall k | |w.log| <= k < |w'.log| :: !w'.log[k].Invalidation?
    requires forall key | key in w.origin :: key in w'.origin && w'.origin[key] == w.origin[key]
    ensures Evolves(w, w')
  {
    forall u: User
      ensures EpochMoves(w, w', u)
    {
    }
  }

  lemma PasswordEvolves(
      w: World, account: Account, version: Version, start: Option<nat>, valid: bool, key: Key, now: LoginReadings)
    ensures var w' := PasswordStep(w, account, version, start, valid, key, now);
            Evolves(w, w') && w'.security.epochs == w.security.epochs && w'.security.revision == w.security.revision
  {
    EpochsUntouched(w, PasswordStep(w, account, version, start, valid, key, now));
  }

  lemma CompletionTouches(
      s: Security, factors: Factors, totp: Totp, key: Key, code: Code, utc: int, now: Readings, valid: bool, stillValid: bool)
    ensures var c := CompleteChallenge(s, factors, totp, key, code, utc, now, valid, stillValid).security;
            c.epochs == s.epochs && c.revision == s.revision
  {
    hide Proved, Spent, RateLimit.Charge;
  }

  lemma CompleteEvolves(
      totp: Totp, w: World, flow: FlowId, key: Key, code: Code, utc: int, now: Readings, valid: bool, stillValid: bool)
    ensures var w' := CompleteStep(totp, w, flow, key, code, utc, now, valid, stillValid);
            Evolves(w, w') && w'.security.epochs == w.security.epochs && w'.security.revision == w.security.revision
  {
    hide CompleteChallenge, Evolves;
    CompletionTouches(w.security, w.factors, totp, key, code, utc, now, valid, stillValid);
    EpochsUntouched(w, CompleteStep(totp, w, flow, key, code, utc, now, valid, stillValid));
  }

  lemma NotifiedEvolves(w: World, user: User)
    requires forall u | u in w.security.epochs :: w.security.epochs[u] <= w.security.revision
    ensures Evolves(w, Notified(w, user))
    ensures var s := Notified(w, user).security; forall u | u in s.epochs :: s.epochs[u] <= s.revision
  {
    forall u: User
      ensures EpochMoves(w, Notified(w, user), u)
    {
    }
  }

  lemma RevokeTokenEvolves(w: World, digest: TokenDigest)
    requires forall u | u in w.security.epochs :: w.security.epochs[u] <= w.security.revision
    ensures Evolves(w, RevokeToken(w, digest))
    ensures var s := RevokeToken(w, digest).security; forall u | u in s.epochs :: s.epochs[u] <= s.revision
  {
    if digest in w.table.sessions {
      var user := w.table.sessions[digest].account.id;
      NotifiedEvolves(w.(table := Dropped(w.table, digest, user)), user);
    } else {
      EpochsUntouched(w, w);
    }
  }

  lemma GuardedKept(w: World, w': World, key: Key, pending: Pending)
    requires Evolves(w, w') && EpochsSound(w)
    requires Guarded(w, key, pending)
    ensures Guarded(w', key, pending)
  {
    var user, from := pending.account.id, GuardStart(w, key);
    assert EpochMoves(w, w', user);
    assert w'.log[w.origin[key]] == w.log[w.origin[key]];
    if pending.epoch == EpochOf(w'.security, user) {
      forall k | from <= k < |w'.log|
        ensures w'.log[k] != Invalidation(user)
      {
        if k < |w.log| {
          assert w'.log[k] == w.log[k];
        }
      }
    }
  }

  lemma StartGuardsKept(w: World, w': World, k: nat)
    requires Evolves(w, w')
    requires k < |w.log| && w.log[k].Started? && StartGuards(w, k)
    ensures w'.log[k] == w.log[k] && StartGuards(w', k)
  {
    forall u: User | EpochOf(w'.security, u) <= w'.log[k].epoch
      ensures NoInvalidation(w'.log, u, k)
    {
      assert EpochMoves(w, w', u);
      assert forall i | k <= i < |w.log| :: w'.log[i] == w.log[i];
    }
  }

  lemma InstalledKeepsTokens(w: World, account: Account, version: Version, digest: TokenDigest, deadline: real)
    requires TokensSound(w) && digest !in w.used
    ensures TokensSound(Installed(w, account, version, digest, deadline))
  {
    IssueKeepsInverse(w.table, digest, Record(w.serial, account, deadline, version));
  }

  lemma DroppedKeepsTokens(w: World, digest: TokenDigest)
    requires TokensSound(w) && digest in w.table.sessions
    ensures TokensSound(w.(table := Dropped(w.table, digest, w.table.sessions[digest].account.id)))
  {
    DropKeepsInverse(w.table, digest);
  }

  lemma StepKeepsTokens(totp: Totp, w: World, a: Action)
    requires TokensSound(w) && FlowsSound(w)
    ensures TokensSound(Step(totp, w, a))
  {
    hide PasswordStep, CompleteStep, Guarded, ReturnedKey, Invalidated, Inverse, FactorStillValid;
    match a {
      case Password(account, version, start, valid, key, now) =>
        PasswordMoves(w, account, version, start, valid, key, now);
      case Complete(flow, key, code, utc, now, valid, stillValid) =>
        CompleteMoves(totp, w, flow, key, code, utc, now, valid, stillValid);
      case Issue(flow, digest, deadline) =>
        if flow in w.flows && w.flows[flow].Completed? && digest !in w.used {
          var p := w.flows[flow].pending;
          InstalledKeepsTokens(w, p.account, p.version, digest, deadline);
        }
      case FirstSection(flow, now) =>
        if flow in w.flows && w.flows[flow].Issuing? && w.flows[flow].digest in w.table.sessions {
          DroppedKeepsTokens(w, w.flows[flow].digest);
        }
      case Finish(flow, _, _, _) =>
        if flow in w.flows && w.flows[flow].Resolving? && w.flows[flow].digest in w.table.sessions {
          assert FlowSound(w, flow);
          DroppedKeepsTokens(w, w.flows[flow].digest);
        }
      case RevokeRefused(flow) =>
        if flow in w.flows && w.flows[flow].MustRevoke? && w.flows[flow].digest in w.table.sessions {
          DroppedKeepsTokens(w, w.flows[flow].digest);
        }
      case OtherLogin(account, version, digest, deadline) =>
        if digest !in w.used {
          InstalledKeepsTokens(w, account, version, digest, deadline);
        }
      case OtherResolveDrops(digest) =>
        if digest in w.table.sessions {
          DroppedKeepsTokens(w, digest);
        }
      case Logout(digest) =>
        if digest in w.table.sessions {
          DroppedKeepsTokens(w, digest);
        }
      case Revoke(user) => UserDropKeepsInverse(w.table, user);
      case _ =>
    }
  }

  lemma StepKeepsEpochs(totp: Totp, w: World, a: Action)
    requires EpochsSound(w)
    ensures EpochsSound(Step(totp, w, a))
  {
    var w' := Step(totp, w, a);
    StepEvolves(totp, w, a);
    forall k | 0 <= k < |w'.log| && w'.log[k].Started?
      ensures StartGuards(w', k)
    {
      if k < |w.log| {
        StartGuardsKept(w, w', k);
      }
    }
  }

  /** How any step moves the session table: old entries stay as they are or go, new ones bring a fresh token. */
  ghost predicate TableMoves(w: World, w': World) {
    && w.used <= w'.used
    && (forall d | d in w'.table.sessions ::
          (d in w.table.sessions && w'.table.sessions[d] == w.table.sessions[d]) || d !in w.used)
  }

  /** How any step moves the challenges: none changes, and only a never-used key is added. */
  ghost predicate ChallengesMove(w: World, w': World) {
    forall key | key in w'.security.challenges ::
      (key in w.security.challenges && w'.security.challenges[key] == w.security.challenges[key]) || key !in w.origin
  }

  lemma PasswordMoves(
      w: World, account: Account, version: Version, start: Option<nat>, valid: bool, key: Key, now: LoginReadings)
    ensures var w' := PasswordStep(w, account, version, start, valid, key, now);
            && w'.table == w.table && w'.used == w.used && w'.serial == w.serial && w'.flows == w.flows
            && ChallengesMove(w, w')
  {
  }

  lemma CompleteMoves(
      totp: Totp, w: World, flow: FlowId, key: Key, code: Code, utc: int, now: Readings, valid: bool, stillValid: bool)
    ensures var w' := CompleteStep(totp, w, flow, key, code, utc, now, valid, stillValid);
            && w'.table == w.table && w'.used == w.used && w'.serial == w.serial
            && ChallengesMove(w, w')
  {
    hide Proved, Spent, RateLimit.Charge;
  }

  lemma RevokeTokenMoves(w: World, digest: TokenDigest)
    ensures TableMoves(w, RevokeToken(w, digest)) && ChallengesMove(w, RevokeToken(w, digest))
  {
  }

  lemma StepMoves(totp: Totp, w: World, a: Action)
    ensures TableMoves(w, Step(totp, w, a))
    ensures ChallengesMove(w, Step(totp, w, a))
  {
    match a {
      case Password(account, version, start, valid, key, now) =>
        PasswordMoves(w, account, version, start, valid, key, now);
      case Complete(flow, key, code, utc, now, valid, stillValid) =>
        CompleteMoves(totp, w, flow, key, code, utc, now, valid, stillValid);
      case Logout(digest) => RevokeTokenMoves(w, digest);
      case RevokeRefused(flow) =>
        if flow in w.flows && w.flows[flow].MustRevoke? {
          RevokeTokenMoves(w.(flows := w.flows - {flow}), w.flows[flow].digest);
        }
      case Revoke(user) => assert Step(totp, w, a).used == w.used;
      case OtherLogin(_, _, _, _) => assert ChallengesMove(w, Step(totp, w, a));
      case Issue(_, _, _) => assert ChallengesMove(w, Step(totp, w, a));
      case FirstSection(_, _) => assert ChallengesMove(w, Step(totp, w, a));
      case Finish(_, _, _, _) => assert ChallengesMove(w, Step(totp, w, a));
      case _ =>
    }
  }

  /** A challenge key is returned by a step only when its flow finishes there. */
  lemma OnlyFinishReturns(totp: Totp, w: World, a: Action, key: Key)
    requires ReturnedKey(Step(totp, w, a), key) && !ReturnedKey(w, key)
    ensures a.Finish? && a.flow in w.flows && w.flows[a.flow].Resolving? && w.flows[a.flow].key == key
    ensures Step(totp, w, a).flows == w.flows - {a.flow}
  {
    var w' := Step(totp, w, a);
    var k :| 0 <= k < |w'.log| && w'.log[k].Returned? && w'.log[k].key == key;
    match a {
      case Password(_, _, _, _, _, _) =>
      case Complete(_, _, _, _, _, _, _) =>
      case _ =>
    }
  }

  /** A new challenge starts out guarded, from its primary start if it has one. */
  lemma NewChallengeGuarded(
      w: World, account: Account, version: Version, start: Option<nat>, valid: bool, key: Key, now: LoginReadings)
    requires EpochsSound(w)
    requires var w' := PasswordStep(w, account, version, start, valid, key, now);
             key !in w.origin && key in w'.security.challenges && w'.log != w.log
    ensures var w' := PasswordStep(w, account, version, start, valid, key, now);
            Guarded(w', key, w'.security.challenges[key])
  {
    var w' := PasswordStep(w, account, version, start, valid, key, now);
    var user := account.id;
    assert EpochOf(w'.security, user) == EpochOf(w.security, user);
    if start.Some? {
      assert StartGuards(w, start.value);
      assert NoInvalidation(w.log, user, start.value);
    }
    assert w'.log == w.log + [Challenged(key, user, w.factors[user].generation, start)];
  }

  /** A flow under way has taken its challenge out for good. */
  lemma FlowsHoldNoChallenge(w: World)
    requires FlowsSound(w)
    ensures forall id | id in w.flows && !w.flows[id].MustRevoke? ::
              w.flows[id].key in w.origin && w.flows[id].key !in w.security.challenges
  {
    forall id | id in w.flows && !w.flows[id].MustRevoke?
      ensures w.flows[id].key in w.origin && w.flows[id].key !in w.security.challenges
    {
      assert FlowSound(w, id);
    }
  }

  /** What a pending challenge is for has not been returned. */
  lemma ChallengeNotReturned(totp: Totp, w: World, a: Action, key: Key)
    requires Inv(w) && key in Step(totp, w, a).security.challenges
    ensures !ReturnedKey(Step(totp, w, a), key)
  {
    hide Step, Guarded, TokensSound, EpochsSound, FlowsSound;
    StepMoves(totp, w, a);
    FlowsHoldNoChallenge(w);
    assert !ReturnedKey(w, key);
    if ReturnedKey(Step(totp, w, a), key) {
      OnlyFinishReturns(totp, w, a, key);
    }
  }

  lemma StepKeepsChallenges(totp: Totp, w: World, a: Action)
    requires Inv(w)
    ensures ChallengesSound(Step(totp, w, a))
  {
    hide Guarded, FlowsSound;
    var w' := Step(totp, w, a);
    StepEvolves(totp, w, a);
    StepMoves(totp, w, a);
    FlowsHoldNoChallenge(w);
    forall key | key in w'.security.challenges
      ensures Guarded(w', key, w'.security.challenges[key]) && !ReturnedKey(w', key)
    {
      ChallengeNotReturned(totp, w, a, key);
      if key in w.origin {
        GuardedKept(w, w', key, w.security.challenges[key]);
      } else {
        NewChallengeOnlyByPassword(totp, w, a, key);
        NewChallengeGuarded(w, a.account, a.version, a.start, a.valid, a.key, a.at);
      }
    }
    forall k | 0 <= k < |w'.log| && w'.log[k].Returned?
      ensures w'.log[k].key in w'.origin
    {
      if !ReturnedKey(w, w'.log[k].key) {
        assert ReturnedKey(w', w'.log[k].key);
        OnlyFinishReturns(totp, w, a, w'.log[k].key);
      }
    }
  }

  lemma CompleteForgetsOnly(
      totp: Totp, w: World, flow: FlowId, key: Key, code: Code, utc: int, now: Readings, valid: bool, stillValid: bool)
    ensures CompleteStep(totp, w, flow, key, code, utc, now, valid, stillValid).security.challenges.Keys
         <= w.security.challenges.Keys
  {
    hide Proved, Spent;
  }

  lemma PasswordAddsItsKey(
      w: World, account: Account, version: Version, start: Option<nat>, valid: bool, key: Key, now: LoginReadings)
    ensures var w' := PasswordStep(w, account, version, start, valid, key, now);
            && w'.security.challenges.Keys <= w.security.challenges.Keys + {key}
            && (key in w'.security.challenges && key !in w.security.challenges ==> |w'.log| == |w.log| + 1)
  {
  }

  lemma OthersForgetOnly(totp: Totp, w: World, a: Action)
    requires !a.Complete? && !a.Password?
    ensures Step(totp, w, a).security.challenges.Keys <= w.security.challenges.Keys
  {
  }

  lemma NewChallengeOnlyByPassword(totp: Totp, w: World, a: Action, key: Key)
    requires ChallengesSound(w)
    requires key in Step(totp, w, a).security.challenges && key !in w.origin
    ensures a.Password? && a.key == key && Step(totp, w, a).log != w.log
  {
    assert key !in w.security.challenges;
    if a.Complete? {
      CompleteForgetsOnly(totp, w, a.flow, a.key, a.code, a.utc, a.readings, a.valid, a.stillValid);
    } else if a.Password? {
      PasswordAddsItsKey(w, a.account, a.version, a.start, a.valid, a.key, a.at);
    } else {
      OthersForgetOnly(totp, w, a);
    }
  }

  /** What a flow that no step touches keeps. */
  lemma FlowKept(totp: Totp, w: World, a: Action, id: FlowId)
    requires Inv(w)
    requires id in w.flows && id in Step(totp, w, a).flows && Step(totp, w, a).flows[id] == w.flows[id]
    requires !(a.Finish? && a.flow == id)
    ensures FlowSound(Step(totp, w, a), id)
  {
    var w', f := Step(totp, w, a), w.flows[id];
    assert FlowSound(w, id);
    StepEvolves(totp, w, a);
    StepMoves(totp, w, a);
    if !f.MustRevoke? {
      GuardedKept(w, w', f.key, f.pending);
      if ReturnedKey(w', f.key) {
        OnlyFinishReturns(totp, w, a, f.key);
      }
    }
  }

  lemma CompletedFlowSound(
      totp: Totp, w: World, flow: FlowId, key: Key, code: Code, utc: int, now: Readings, valid: bool, stillValid: bool)
    requires Inv(w) && flow !in w.flows
    requires flow in CompleteStep(totp, w, flow, key, code, utc, now, valid, stillValid).flows
    ensures FlowSound(CompleteStep(totp, w, flow, key, code, utc, now, valid, stillValid), flow)
    ensures CompleteStep(totp, w, flow, key, code, utc, now, valid, stillValid).flows[flow].key == key
    ensures key in w.security.challenges
  {
    var w' := CompleteStep(totp, w, flow, key, code, utc, now, valid, stillValid);
    CompleteEvolves(totp, w, flow, key, code, utc, now, valid, stillValid);
    assert key in w.security.challenges && w'.flows[flow] == Completed(key, w.security.challenges[key]);
    assert w'.log == w.log;
    GuardedKept(w, w', key, w.security.challenges[key]);
  }

  lemma IssuedFlowSound(totp: Totp, w: World, flow: FlowId, digest: TokenDigest, deadline: real)
    requires Inv(w) && flow in w.flows && w.flows[flow].Completed? && digest !in w.used
    ensures FlowSound(IssueStep(w, flow, digest, deadline), flow)
  {
    var w' := IssueStep(w, flow, digest, deadline);
    assert FlowSound(w, flow);
    EpochsUntouched(w, w');
    GuardedKept(w, w', w.flows[flow].key, w.flows[flow].pending);
  }

  lemma FirstSectionFlowSound(totp: Totp, w: World, flow: FlowId, now: real)
    requires Inv(w) && flow in w.flows && w.flows[flow].Issuing?
    ensures FlowSound(FirstSectionStep(w, flow, now), flow)
  {
    var w' := FirstSectionStep(w, flow, now);
    assert FlowSound(w, flow);
    EpochsUntouched(w, w');
    GuardedKept(w, w', w.flows[flow].key, w.flows[flow].pending);
  }

  lemma StepKeepsFlowSound(totp: Totp, w: World, a: Action, id: FlowId)
    requires Inv(w) && id in Step(totp, w, a).flows
    ensures FlowSound(Step(totp, w, a), id)
  {
    hide PasswordStep, Guarded, TokensSound, EpochsSound, ChallengesSound, Proved, Spent, Invalidated, BeginResolve;
    var w' := Step(totp, w, a);
    if id in w.flows && w'.flows[id] == w.flows[id] && !(a.Finish? && a.flow == id) {
      FlowKept(totp, w, a, id);
    } else {
      match a {
        case Password(account, version, start, valid, key, now) =>
          PasswordMoves(w, account, version, start, valid, key, now);
        case Complete(flow, key, code, utc, now, valid, stillValid) =>
          CompletedFlowSound(totp, w, flow, key, code, utc, now, valid, stillValid);
        case Issue(flow, digest, deadline) => IssuedFlowSound(totp, w, flow, digest, deadline);
        case FirstSection(flow, now) => FirstSectionFlowSound(totp, w, flow, now);
        case Finish(flow, _, _, _) => assert FlowSound(w, flow);
        case _ =>
      }
    }
  }

  /** A flow keeps its challenge key until it must revoke. */
  ghost predicate FlowKeysKept(w: World, w': World) {
    forall id | id in w'.flows && !w'.flows[id].MustRevoke? ::
      id in w.flows && !w.flows[id].MustRevoke? && w'.flows[id].key == w.flows[id].key
  }

  lemma OtherStepsKeepKeys(totp: Totp, w: World, a: Action)
    requires !a.Complete?
    ensures FlowKeysKept(w, Step(totp, w, a))
  {
    hide PasswordStep;
    match a {
      case Password(account, version, start, valid, key, now) =>
        PasswordMoves(w, account, version, start, valid, key, now);
      case _ =>
    }
  }

  lemma StepKeepsFlowKeys(totp: Totp, w: World, a: Action, i: FlowId, j: FlowId)
    requires Inv(w)
    requires var flows := Step(totp, w, a).flows;
             i in flows && j in flows && i != j && !flows[i].MustRevoke? && !flows[j].MustRevoke?
    ensures Step(totp, w, a).flows[i].key != Step(totp, w, a).flows[j].key
  {
    if a.Complete? {
      var w' := Step(totp, w, a);
      if a.flow !in w.flows && a.flow in w'.flows {
        CompletedFlowSound(totp, w, a.flow, a.key, a.code, a.utc, a.readings, a.valid, a.stillValid);
      }
      assert i in w.flows ==> FlowSound(w, i);
      assert j in w.flows ==> FlowSound(w, j);
    } else {
      OtherStepsKeepKeys(totp, w, a);
    }
  }

  lemma StepKeepsFlows(totp: Totp, w: World, a: Action)
    requires Inv(w)
    ensures FlowsSound(Step(totp, w, a))
  {
    var w' := Step(totp, w, a);
    forall id | id in w'.flows
      ensures FlowSound(w', id)
    {
      StepKeepsFlowSound(totp, w, a, id);
    }
    forall i, j | i in w'.flows && j in w'.flows && i != j && !w'.flows[i].MustRevoke? && !w'.flows[j].MustRevoke?
      ensures w'.flows[i].key != w'.flows[j].key
    {
      StepKeepsFlowKeys(totp, w, a, i, j);
    }
  }

  /** A step logs at most one return, and that for the flow it finishes. */
  lemma StepReturns(totp: Totp, w: World, a: Action, k: nat)
    requires |w.log| <= k < |Step(totp, w, a).log| && Step(totp, w, a).log[k].Returned?
    ensures k == |w.log| && a.Finish? && a.flow in w.flows && w.flows[a.flow].Resolving?
    ensures Step(totp, w, a).log[k].key == w.flows[a.flow].key
  {
    hide Proved, Spent, Invalidated, FactorStillValid, EndResolve, PasswordAuthenticated;
  }

  lemma StepKeepsReturns(totp: Totp, w: World, a: Action)
    requires Inv(w)
    ensures ReturnsUnique(Step(totp, w, a))
  {
    hide Step, Guarded, TokensSound, EpochsSound, ChallengesSound, EpochMoves;
    var w' := Step(totp, w, a);
    StepEvolves(totp, w, a);
    forall j, k | 0 <= j < k < |w'.log| && w'.log[j].Returned? && w'.log[k].Returned?
      ensures w'.log[j].key != w'.log[k].key
    {
      if k >= |w.log| {
        StepReturns(totp, w, a, k);
        assert j < |w.log| && w'.log[j] == w.log[j] && ReturnedKey(w, w'.log[j].key);
        assert FlowSound(w, a.flow);
      }
    }
  }

  lemma {:induction false} AlwaysInv(totp: Totp, actions: seq<Action>)
    ensures Inv(Run(totp, actions))
  {
    if actions != [] {
      var w, a := Run(totp, actions[..|actions| - 1]), actions[|actions| - 1];
      AlwaysInv(totp, actions[..|actions| - 1]);
      StepKeepsTokens(totp, w, a);
      StepKeepsEpochs(totp, w, a);
      StepKeepsChallenges(totp, w, a);
      StepKeepsFlows(totp, w, a);
      StepKeepsReturns(totp, w, a);
    }
  }

  // ---------------------------------------------------------------- the theorems

  /** `token` is the one live session of `user` at time `now`. */
  ghost predicate OnlyLiveSession(t: Table, token: TokenDigest, user: User, now: real) {
    && token in t.sessions
    && t.sessions[token].account.id == user
    && t.sessions[token].deadline > now
    && user in t.userTokens && t.userTokens[user] == token
    && (forall d | d in t.sessions && t.sessions[d].account.id == user :: d == token)
  }

  /**
   When `complete` returns a token after any run whatsoever: it is its user's single live session;
   the enrolled factor is the one the challenge was made for; no invalidation of the user happened
   since the challenge was created, nor since its primary start when it was given one.
   */
  lemma CompleteIsSafe(totp: Totp, actions: seq<Action>, finish: Action)
    requires finish.Finish?
    requires |Step(totp, Run(totp, actions), finish).log| > |Run(totp, actions).log|
    ensures var w, w' := Run(totp, actions), Step(totp, Run(totp, actions), finish);
            && w'.log == w.log + [w'.log[|w.log|]]
            && w'.log[|w.log|].Returned?
            && var Returned(key, user, token) := w'.log[|w.log|];
               && OnlyLiveSession(w'.table, token, user, finish.now)
               && key in w'.origin && w'.origin[key] < |w.log|
               && var challenge := w'.log[w'.origin[key]];
               && challenge.Challenged? && challenge.key == key && challenge.user == user
               && user in w'.factors && w'.factors[user].generation == challenge.generation
               && GuardStart(w', key) <= w'.origin[key]
               && NoInvalidation(w'.log, user, GuardStart(w', key))
  {
    var w, w' := Run(totp, actions), Step(totp, Run(totp, actions), finish);
    AlwaysInv(totp, actions);
    var f := w.flows[finish.flow];
    assert FlowSound(w, finish.flow);
    StepEvolves(totp, w, finish);
    GuardedKept(w, w', f.key, f.pending);
  }

  /** Each challenge completes at most once. */
  lemma ChallengeCompletesOnce(totp: Totp, actions: seq<Action>, j: nat, k: nat)
    requires var log := Run(totp, actions).log;
             j < k < |log| && log[j].Returned? && log[k].Returned?
    ensures Run(totp, actions).log[j].key != Run(totp, actions).log[k].key
  {
    AlwaysInv(totp, actions);
  }

  /** Whatever is interleaved, the two session maps stay mutually inverse. */
  lemma SessionsStayInverse(totp: Totp, actions: seq<Action>)
    ensures Inverse(Run(totp, actions).table)
  {
    AlwaysInv(totp, actions);
  }

  /** An invalidation stops a challenge for good: once logged past its guard, its flow never returns a token. */
  lemma InvalidationIsFinal(totp: Totp, actions: seq<Action>, finish: Action, k: nat)
    requires finish.Finish?
    requires var w := Run(totp, actions);
             && finish.flow in w.flows && w.flows[finish.flow].Resolving?
             && var f := w.flows[finish.flow];
                && f.key in w.origin && w.origin[f.key] <= k < |w.log|
                && w.log[k] == Invalidation(f.pending.account.id)
    ensures Step(totp, Run(totp, actions), finish).log == Run(totp, actions).log
  {
    var w := Run(totp, actions);
    AlwaysInv(totp, actions);
    assert FlowSound(w, finish.flow);
  }

  /** The current epoch of a user is newer than any revision taken before the user's last invalidation. */
  lemma InvalidatedSince(w: World, user: User, start: nat, k: nat)
    requires EpochsSound(w) && start <= k < |w.log|
    requires w.log[start].Started? && w.log[k] == Invalidation(user)
    ensures EpochOf(w.security, user) > w.log[start].epoch
  {
    assert StartGuards(w, start);
  }

  /**
   What the number `primary_started` answers is good for: a password login that began before an
   invalidation of its user gets no challenge, whenever and in whatever interleaving it arrives.
   */
  lemma StaleStartRefused(totp: Totp, actions: seq<Action>, login: Action, k: nat)
    requires login.Password? && login.start.Some?
    requires var log := Run(totp, actions).log;
             && login.start.value <= k < |log| && log[login.start.value].Started?
             && log[k] == Invalidation(login.account.id)
    ensures Step(totp, Run(totp, actions), login) == Run(totp, actions)
  {
    hide Run;
    var w := Run(totp, actions);
    AlwaysInv(totp, actions);
    InvalidatedSince(w, login.account.id, login.start.value, k);
  }

  /**
   The last step of `complete` returns a token exactly if the session resolved a moment ago is still the
   installed record, unexpired and accepted by the registry, the epoch and the enrolment are still the
   challenge's, and the second registry read agrees; any other outcome leaves the token to be revoked.
   */
  lemma FinishReturnsExactly(w: World, flow: FlowId, current: Option<Account>, valid: bool, now: real)
    requires flow in w.flows && w.flows[flow].Resolving?
    ensures var f, w' := w.flows[flow], FinishStep(w, flow, current, valid, now);
            var user := f.pending.account.id;
            if && f.digest in w.table.sessions && w.table.sessions[f.digest].serial == f.record.serial
               && f.record.deadline > now && current.Some?
               && f.pending.epoch == (if user in w.security.epochs then w.security.epochs[user] else 0)
               && f.pending.generation == (if user in w.factors then Some(w.factors[user].generation) else None)
               && valid then
              && w'.log == w.log + [Returned(f.key, user, f.digest)]
              && w'.flows == w.flows - {flow} && w'.table == w.table
            else w'.log == w.log && w'.flows == w.flows[flow := MustRevoke(f.digest)]
  {
  }
}
