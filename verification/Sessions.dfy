/** The in-process session table: one opaque session per user, in two maps kept mutually inverse. */
module Sessions {
  import opened Prelude

  type UserId = nat
  type Version = nat
  type TokenDigest = nat

  datatype Account = Account(id: UserId, profile: nat)

  /** A session record; `serial` is its object identity, which `resolve` compares with `is`. */
  datatype Record = Record(serial: nat, account: Account, deadline: real, version: Version)

  datatype Table = Table(sessions: map<TokenDigest, Record>, userTokens: map<UserId, TokenDigest>)

  /** Each session is its user's token and each user's token is a session of that user. */
  ghost predicate Inverse(t: Table) {
    && (forall d | d in t.sessions ::
          t.sessions[d].account.id in t.userTokens && t.userTokens[t.sessions[d].account.id] == d)
    && (forall u | u in t.userTokens ::
          t.userTokens[u] in t.sessions && t.sessions[t.userTokens[u]].account.id == u)
  }

  /** `issue`: the user's previous session goes, the new record comes. */
  function Issued(t: Table, digest: TokenDigest, record: Record): Table {
    var user := record.account.id;
    var sessions := if user in t.userTokens then t.sessions - {t.userTokens[user]} else t.sessions;
    Table(sessions[digest := record], t.userTokens[user := digest])
  }

  /** Drop one session, and its user's token if that is this session. */
  function Dropped(t: Table, digest: TokenDigest, user: UserId): Table {
    Table(t.sessions - {digest},
          if user in t.userTokens && t.userTokens[user] == digest then t.userTokens - {user} else t.userTokens)
  }

  function UserDropped(t: Table, user: UserId): Table {
    if user in t.userTokens then Table(t.sessions - {t.userTokens[user]}, t.userTokens - {user}) else t
  }

  /** What the first critical section of `resolve` decides. */
  datatype Lookup = Missing | Reading(record: Record)

  datatype Looked = Looked(lookup: Lookup, table: Table)

  function BeginResolve(t: Table, digest: TokenDigest, now: real): Looked {
    if digest !in t.sessions then Looked(Missing, t)
    else
      var record := t.sessions[digest];
      if record.deadline <= now then Looked(Missing, Dropped(t, digest, record.account.id))
      else Looked(Reading(record), t)
  }

  datatype Resolved = Resolved(account: Option<Account>, table: Table)

  /** The second critical section, after the registry answered `current` for the record read before. */
  function EndResolve(t: Table, digest: TokenDigest, record: Record, current: Option<Account>, now: real): Resolved {
    if digest !in t.sessions || t.sessions[digest].serial != record.serial then Resolved(None, t)
    else if record.deadline <= now || current.None? then Resolved(None, Dropped(t, digest, record.account.id))
    else Resolved(current, t)
  }

  // ---------------------------------------------------------------- the invariant

  /** A fresh token replaces exactly the user's previous session. */
  lemma IssueKeepsInverse(t: Table, digest: TokenDigest, record: Record)
    requires Inverse(t) && digest !in t.sessions
    ensures Inverse(Issued(t, digest, record))
    ensures forall d :: d in Issued(t, digest, record).sessions && Issued(t, digest, record).sessions[d].account.id == record.account.id
                        ==> d == digest
    ensures forall d :: d in t.sessions && t.sessions[d].account.id != record.account.id ==>
                          d in Issued(t, digest, record).sessions && Issued(t, digest, record).sessions[d] == t.sessions[d]
  {
  }

  lemma DropKeepsInverse(t: Table, digest: TokenDigest)
    requires Inverse(t) && digest in t.sessions
    ensures Inverse(Dropped(t, digest, t.sessions[digest].account.id))
  {
  }

  lemma UserDropKeepsInverse(t: Table, user: UserId)
    requires Inverse(t)
    ensures Inverse(UserDropped(t, user))
    ensures forall d :: d in UserDropped(t, user).sessions <==> d in t.sessions && t.sessions[d].account.id != user
  {
  }

  /** A reused digest would break the invariant: the previous owner keeps a token that is no longer its session. */
  lemma ReusedTokenBreaksInverse(t: Table, digest: TokenDigest, record: Record)
    requires Inverse(t) && digest in t.sessions && t.sessions[digest].account.id != record.account.id
    ensures !Inverse(Issued(t, digest, record))
  {
    var other := t.sessions[digest].account.id;
    var after := Issued(t, digest, record);
    assert other in after.userTokens && after.userTokens[other] == digest;
  }

  // ---------------------------------------------------------------- resolving across the registry read

  /** One atomic step another request may take while a registry read is in flight. */
  datatype Interference =
    | OtherIssue(digest: TokenDigest, record: Record)
    | OtherDrop(digest: TokenDigest)
    | OtherUserDrop(user: UserId)

  function Interfere(t: Table, i: Interference): Table {
    match i
    case OtherIssue(digest, record) => Issued(t, digest, record)
    case OtherDrop(digest) => if digest in t.sessions then Dropped(t, digest, t.sessions[digest].account.id) else t
    case OtherUserDrop(user) => UserDropped(t, user)
  }

  function InterfereAll(t: Table, steps: seq<Interference>): Table {
    if steps == [] then t else Interfere(InterfereAll(t, steps[..|steps| - 1]), steps[|steps| - 1])
  }

  /** Whether `step` ended the session of `digest` held by `user`. */
  predicate Ends(step: Interference, digest: TokenDigest, user: UserId) {
    match step
    case OtherIssue(_, record) => record.account.id == user
    case OtherDrop(d) => d == digest
    case OtherUserDrop(u) => u == user
  }

  /** Every issue in between installs a token drawn afresh. */
  ghost predicate FreshIssues(t: Table, digest: TokenDigest, steps: seq<Interference>) {
    && (forall i | 0 <= i < |steps| && steps[i].OtherIssue? ::
          steps[i].digest !in t.sessions && steps[i].digest != digest)
    && (forall i, j | 0 <= i < j < |steps| && steps[i].OtherIssue? && steps[j].OtherIssue? ::
          steps[i].digest != steps[j].digest)
  }

  lemma OneInterference(t: Table, digest: TokenDigest, step: Interference)
    requires Inverse(t)
    requires step.OtherIssue? ==> step.digest !in t.sessions && step.digest != digest
    ensures var after := Interfere(t, step);
            && Inverse(after)
            && (forall d | d in after.sessions && d !in t.sessions :: step.OtherIssue? && step.digest == d)
            && (digest in after.sessions ==> digest in t.sessions && after.sessions[digest] == t.sessions[digest])
            && (digest in t.sessions ==>
                  (digest in after.sessions <==> !Ends(step, digest, t.sessions[digest].account.id)))
  {
    match step {
      case OtherIssue(d, record) => IssueKeepsInverse(t, d, record);
      case OtherDrop(d) =>
        if d in t.sessions {
          DropKeepsInverse(t, d);
        }
      case OtherUserDrop(u) => UserDropKeepsInverse(t, u);
    }
  }

  lemma {:induction false} Undisturbed(t: Table, digest: TokenDigest, steps: seq<Interference>)
    requires Inverse(t) && digest in t.sessions && FreshIssues(t, digest, steps)
    ensures var after := InterfereAll(t, steps);
            && Inverse(after)
            && (forall d | d in after.sessions && d !in t.sessions ::
                  exists i :: 0 <= i < |steps| && steps[i].OtherIssue? && steps[i].digest == d)
            && (digest in after.sessions ==> after.sessions[digest] == t.sessions[digest])
            && (digest in after.sessions <==>
                  forall i | 0 <= i < |steps| :: !Ends(steps[i], digest, t.sessions[digest].account.id))
  {
    hide Inverse, Interfere, Ends;
    if steps != [] {
      var init, last := steps[..|steps| - 1], steps[|steps| - 1];
      Undisturbed(t, digest, init);
      assert last.OtherIssue? ==> last.digest !in InterfereAll(t, init).sessions;
      OneInterference(InterfereAll(t, init), digest, last);
    }
  }

  /** The first section goes on to the registry exactly for an unexpired session; an expired one it drops. */
  lemma FirstSectionExact(t: Table, digest: TokenDigest, now: real)
    requires Inverse(t)
    ensures var r := BeginResolve(t, digest, now);
            if digest !in t.sessions then r == Looked(Missing, t)
            else if t.sessions[digest].deadline > now then r == Looked(Reading(t.sessions[digest]), t)
            else
              r == Looked(Missing, Table(t.sessions - {digest}, t.userTokens - {t.sessions[digest].account.id}))
  {
  }

  /**
   In every interleaving of the registry read with issues, revocations and expiries, `resolve`
   returns an account exactly when the registry still accepts it, the session is unexpired at the
   second critical section, and no step in between ended this session. A session that is still there
   but expired or refused is dropped; nothing else is.
   */
  lemma ResolveSpansTheRead(
      t: Table, digest: TokenDigest, steps: seq<Interference>, current: Option<Account>, start: real, end: real)
    requires Inverse(t) && digest in t.sessions && t.sessions[digest].deadline > start && FreshIssues(t, digest, steps)
    ensures var record := t.sessions[digest];
            var after := InterfereAll(t, steps);
            var r := EndResolve(after, digest, record, current, end);
            var undisturbed := forall i | 0 <= i < |steps| :: !Ends(steps[i], digest, record.account.id);
            && BeginResolve(t, digest, start) == Looked(Reading(record), t)
            && (r.account.Some? <==> current.Some? && record.deadline > end && undisturbed)
            && (r.account.Some? ==> r.account == current && r.table.sessions[digest] == record)
            && r.table == (if undisturbed && (current.None? || record.deadline <= end)
                           then Table(after.sessions - {digest}, after.userTokens - {record.account.id}) else after)
            && Inverse(r.table)
  {
    Undisturbed(t, digest, steps);
    var after := InterfereAll(t, steps);
    if digest in after.sessions {
      DropKeepsInverse(after, digest);
    }
  }

  // ---------------------------------------------------------------- the manager

  class UserSessionManager {
    const ttl: real
    var sessions: map<TokenDigest, Record>
    var userTokens: map<UserId, TokenDigest>
    var created: nat

    constructor (ttl: real)
      ensures this.ttl == ttl && State() == Table(map[], map[]) && Valid()
    {
      this.ttl, sessions, userTokens, created := ttl, map[], map[], 0;
    }

    function State(): Table
      reads this
    {
      Table(sessions, userTokens)
    }

    ghost predicate Valid()
      reads this
    {
      && Inverse(State())
      && forall d | d in sessions :: sessions[d].serial < created
    }

    method Issue(account: Account, version: Version, digest: TokenDigest, now: real) returns (record: Record)
      requires Valid() && digest !in sessions
      modifies this
      ensures Valid()
      ensures record == Record(old(created), account, now + ttl, version)
      ensures State() == Issued(old(State()), digest, record)
    {
      record := Record(created, account, now + ttl, version);
      created := created + 1;
      IssueKeepsInverse(State(), digest, record);
      if account.id in userTokens {
        sessions := sessions - {userTokens[account.id]};
      }
      sessions := sessions[digest := record];
      userTokens := userTokens[account.id := digest];
    }

    method Discard(digest: TokenDigest)
      requires Valid() && digest in sessions
      modifies this
      ensures Valid() && created == old(created)
      ensures State() == Dropped(old(State()), digest, old(sessions)[digest].account.id)
    {
      DropKeepsInverse(State(), digest);
      var user := sessions[digest].account.id;
      sessions := sessions - {digest};
      if user in userTokens && userTokens[user] == digest {
        userTokens := userTokens - {user};
      }
    }

    method ResolveFirst(digest: TokenDigest, now: real) returns (lookup: Lookup)
      requires Valid()
      modifies this
      ensures Valid()
      ensures Looked(lookup, State()) == BeginResolve(old(State()), digest, now)
    {
      if digest !in sessions {
        return Missing;
      }
      var record := sessions[digest];
      if record.deadline <= now {
        Discard(digest);
        return Missing;
      }
      return Reading(record);
    }

    method ResolveSecond(digest: TokenDigest, record: Record, current: Option<Account>, now: real)
      returns (account: Option<Account>)
      requires Valid()
      requires digest in sessions && sessions[digest].serial == record.serial ==> sessions[digest] == record
      modifies this
      ensures Valid()
      ensures Resolved(account, State()) == EndResolve(old(State()), digest, record, current, now)
    {
      if digest !in sessions || sessions[digest].serial != record.serial {
        return None;
      }
      if record.deadline <= now || current.None? {
        Discard(digest);
        return None;
      }
      return current;
    }

    /** Revoke one token; the returned user's pending authentication must then be invalidated. */
    method Revoke(digest: TokenDigest) returns (notify: Option<UserId>)
      requires Valid()
      modifies this
      ensures Valid()
      ensures notify == if digest in old(sessions) then Some(old(sessions)[digest].account.id) else None
      ensures State() == if notify.Some? then Dropped(old(State()), digest, notify.value) else old(State())
    {
      if digest !in sessions {
        return None;
      }
      notify := Some(sessions[digest].account.id);
      Discard(digest);
    }

    method RevokeUser(user: UserId)
      requires Valid()
      modifies this
      ensures Valid()
      ensures State() == UserDropped(old(State()), user)
    {
      UserDropKeepsInverse(State(), user);
      if user in userTokens {
        var digest := userTokens[user];
        userTokens := userTokens - {user};
        sessions := sessions - {digest};
      }
    }
  }
}
