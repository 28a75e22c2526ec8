/**
 Durable second factors: time-based codes that never replay and single-use recovery codes.

 Secrets, codes and the RFC 6238 truncation are abstract; `totp` is an arbitrary
 function of a secret and a counter. The UTC clock may jump in either direction.
 */
module SecondFactor {
  import opened Prelude

  type UserId = nat
  type Generation = nat
  type Secret = nat
  type Digest = nat
  type Totp = (Secret, nat) -> string

  const STEP_SECONDS: nat := 30

  datatype Factor = Factor(generation: Generation, secret: Secret, lastCounter: int, recovery: seq<Digest>)

  /** The mfa table. */
  type Factors = map<UserId, Factor>

  /** A presented code, parsed: a recovery code's digest, six digits, or neither. */
  datatype Code = Recovery(digest: Digest) | Digits(text: string) | Malformed

  /** What one attempt proved, if it was accepted. */
  datatype Proof = ByCounter(value: int) | ByRecovery(digest: Digest)

  function CounterAt(utc: int): int {
    utc / STEP_SECONDS
  }

  /** The first counter from `from` up to `past` that is newer than `last` and produces `text`. */
  function FirstMatch(totp: Totp, secret: Secret, text: string, last: int, from: int, past: int): (r: Option<int>)
    requires 0 <= from
    ensures r.Some? ==> from <= r.value < past && r.value > last && totp(secret, r.value) == text
    ensures r.Some? ==> forall v :: from <= v < r.value && v > last ==> totp(secret, v) != text
    ensures r.None? ==> forall v :: from <= v < past && v > last ==> totp(secret, v) != text
    decreases past - from
  {
    if from >= past then None
    else if from > last && totp(secret, from) == text then Some(from)
    else FirstMatch(totp, secret, text, last, from + 1, past)
  }

  /** One step of clock drift either way, never below zero. */
  function Window(totp: Totp, secret: Secret, text: string, last: int, utc: int): Option<int> {
    var counter := CounterAt(utc);
    FirstMatch(totp, secret, text, last, if counter - 1 > 0 then counter - 1 else 0, counter + 2)
  }

  function Without<T>(s: seq<T>, i: nat): (r: seq<T>)
    requires i < |s|
    ensures multiset(r) == multiset(s) - multiset{s[i]}
    ensures |r| == |s| - 1
  {
    assert s == s[..i] + [s[i]] + s[i + 1..];
    s[..i] + s[i + 1..]
  }

  /** The position of the first hash equal to `d`, or the length when there is none. */
  function Position(hashes: seq<Digest>, d: Digest): (i: nat)
    ensures i <= |hashes|
    ensures i < |hashes| ==> hashes[i] == d
    ensures i == |hashes| <==> d !in hashes
  {
    if hashes == [] then 0 else if hashes[0] == d then 0 else 1 + Position(hashes[1..], d)
  }

  /** What presenting `code` proves now; a `generation` pins the attempt to one enrolment. */
  function Proved(totp: Totp, factors: Factors, user: UserId, code: Code, generation: Option<Generation>, utc: int)
    : Option<Proof>
  {
    if user !in factors || (generation.Some? && factors[user].generation != generation.value) then None
    else
      var f := factors[user];
      match code
      case Recovery(d) => if d in f.recovery then Some(ByRecovery(d)) else None
      case Digits(text) =>
        var m := Window(totp, f.secret, text, f.lastCounter, utc);
        if m.Some? then Some(ByCounter(m.value)) else None
      case Malformed => None
  }

  /** The factor after a proof is spent. */
  function Spent(f: Factor, proof: Proof): Factor {
    match proof
    case ByCounter(value) => f.(lastCounter := value)
    case ByRecovery(d) =>
      var i := Position(f.recovery, d);
      if i < |f.recovery| then f.(recovery := Without(f.recovery, i)) else f
  }

  // ---------------------------------------------------------------- the store

  datatype StoreError = Unavailable

  /** The account security database; every method is one transaction. */
  class AccountSecurityStore {
    const totp: Totp
    var mfa: Factors

    constructor (totp: Totp)
      ensures this.totp == totp && mfa == map[]
    {
      this.totp, mfa := totp, map[];
    }

    method Enable(user: UserId, secret: Secret, counter: nat, generation: Generation, recovery: seq<Digest>)
      returns (r: Result<(), StoreError>)
      modifies this
      ensures r.Ok? <==> user !in old(mfa)
      ensures mfa == if r.Ok? then old(mfa)[user := Factor(generation, secret, counter, recovery)] else old(mfa)
    {
      if user in mfa {
        return Err(Unavailable);
      }
      mfa := mfa[user := Factor(generation, secret, counter, recovery)];
      return Ok(());
    }

    method Consume(user: UserId, code: Code, generation: Option<Generation>, utc: int) returns (accepted: bool)
      modifies this
      ensures var proof := Proved(totp, old(mfa), user, code, generation, utc);
              && accepted == proof.Some?
              && mfa == (if proof.Some? then old(mfa)[user := Spent(old(mfa)[user], proof.value)] else old(mfa))
    {
      if user !in mfa || (generation.Some? && mfa[user].generation != generation.value) {
        return false;
      }
      var row := mfa[user];
      match code {
        case Recovery(d) =>
          var i := MatchHash(row.recovery, d);
          if i == |row.recovery| {
            return false;
          }
          mfa := mfa[user := row.(recovery := Without(row.recovery, i))];
          return true;
        case Digits(text) =>
          var value := MatchCounter(totp, row.secret, text, row.lastCounter, utc);
          if value.None? {
            return false;
          }
          mfa := mfa[user := row.(lastCounter := value.value)];
          return true;
        case Malformed =>
          return false;
      }
    }

    /** Constant-time comparison against each stored hash; the first equal one is used. */
    static method MatchHash(hashes: seq<Digest>, d: Digest) returns (i: nat)
      ensures i == Position(hashes, d)
    {
      i := 0;
      while i < |hashes| && hashes[i] != d
        invariant i <= |hashes|
        invariant d !in hashes[..i]
      {
        i := i + 1;
      }
      if i < |hashes| {
        PositionIs(hashes, d, i);
      } else {
        assert hashes[..i] == hashes;
      }
    }

    static method MatchCounter(totp: Totp, secret: Secret, text: string, last: int, utc: int) returns (r: Option<int>)
      ensures r == Window(totp, secret, text, last, utc)
    {
      var counter := utc / STEP_SECONDS;
      var value := if counter - 1 > 0 then counter - 1 else 0;
      while value < counter + 2
        invariant 0 <= value
        invariant FirstMatch(totp, secret, text, last, value, counter + 2) == Window(totp, secret, text, last, utc)
      {
        if value > last && totp(secret, value) == text {
          return Some(value);
        }
        value := value + 1;
      }
      return None;
    }

    method Disable(user: UserId)
      modifies this
      ensures mfa == old(mfa) - {user}
    {
      mfa := mfa - {user};
    }

    method ReplaceRecovery(user: UserId, recovery: seq<Digest>) returns (r: Result<(), StoreError>)
      modifies this
      ensures r.Ok? <==> user in old(mfa)
      ensures mfa == if r.Ok? then old(mfa)[user := old(mfa)[user].(recovery := recovery)] else old(mfa)
    {
      if user !in mfa {
        return Err(Unavailable);
      }
      mfa := mfa[user := mfa[user].(recovery := recovery)];
      return Ok(());
    }
  }

  lemma {:induction false} PositionIs(hashes: seq<Digest>, d: Digest, i: nat)
    requires i < |hashes| && hashes[i] == d && d !in hashes[..i]
    ensures Position(hashes, d) == i
  {
    if i > 0 {
      assert hashes[0] in hashes[..i];
      assert hashes[1..][..i - 1] == hashes[..i][1..];
      PositionIs(hashes[1..], d, i - 1);
    }
  }

  // ---------------------------------------------------------------- whole histories

  datatype Action =
    | Enable(user: UserId, secret: Secret, counter: nat, generation: Generation, recovery: seq<Digest>)
    | Consume(user: UserId, code: Code, pinned: Option<Generation>, utc: int)
    | Disable(user: UserId)
    | ReplaceRecovery(user: UserId, recovery: seq<Digest>)

  /** What happened to one user's factor of one generation. */
  datatype Happening =
    | Enrolled(user: UserId, generation: Generation, counter: int, recovery: seq<Digest>)
    | Accepted(user: UserId, generation: Generation, proof: Proof)
    | Replaced(user: UserId, generation: Generation, recovery: seq<Digest>)

  datatype History = History(factors: Factors, log: seq<Happening>, generations: set<Generation>)

  /** One call; `Enable` draws its generation at random, so one already used does not occur. */
  function Step(totp: Totp, h: History, a: Action): History {
    match a
    case Enable(user, secret, counter, generation, recovery) =>
      if user in h.factors || generation in h.generations then h
      else
        History(h.factors[user := Factor(generation, secret, counter, recovery)],
                h.log + [Enrolled(user, generation, counter, recovery)], h.generations + {generation})
    case Consume(user, code, pinned, utc) =>
      var proof := Proved(totp, h.factors, user, code, pinned, utc);
      if proof.None? then h
      else
        var f := h.factors[user];
        h.(factors := h.factors[user := Spent(f, proof.value)], log := h.log + [Accepted(user, f.generation, proof.value)])
    case Disable(user) => h.(factors := h.factors - {user})
    case ReplaceRecovery(user, recovery) =>
      if user !in h.factors then h
      else
        var f := h.factors[user];
        h.(factors := h.factors[user := f.(recovery := recovery)], log := h.log + [Replaced(user, f.generation, recovery)])
  }

  function After(totp: Totp, actions: seq<Action>): History {
    if actions == [] then History(map[], [], {})
    else Step(totp, After(totp, actions[..|actions| - 1]), actions[|actions| - 1])
  }

  /** What one happening does to the codes still good for a generation. */
  function Remaining(before: multiset<Digest>, e: Happening, generation: Generation): multiset<Digest> {
    if e.generation != generation then before
    else
      match e
      case Enrolled(_, _, _, recovery) => multiset(recovery)
      case Replaced(_, _, recovery) => multiset(recovery)
      case Accepted(_, _, ByRecovery(d)) => before - multiset{d}
      case Accepted(_, _, ByCounter(_)) => before
  }

  /** The recovery codes still good for a generation, read off the log alone. */
  function Unused(log: seq<Happening>, generation: Generation): multiset<Digest> {
    if log == [] then multiset{}
    else Remaining(Unused(log[..|log| - 1], generation), log[|log| - 1], generation)
  }

  /** How many recovery codes a generation spent since its codes were last issued. */
  function SpentSince(log: seq<Happening>, generation: Generation): nat {
    if log == [] then 0
    else
      var last := log[|log| - 1];
      if last.generation != generation then SpentSince(log[..|log| - 1], generation)
      else if last.Accepted? then (if last.proof.ByRecovery? then 1 else 0) + SpentSince(log[..|log| - 1], generation)
      else 0
  }

  /** The counter a happening pins its generation to, if it is one that does. */
  predicate Pins(e: Happening, generation: Generation) {
    e.generation == generation && (e.Enrolled? || (e.Accepted? && e.proof.ByCounter?))
  }

  function Pinned(e: Happening): int
    requires Pins(e, e.generation)
  {
    if e.Enrolled? then e.counter else e.proof.value
  }

  /** A recovery code accepted at `k` was among the codes good just before. */
  ghost predicate SpentAGoodCode(log: seq<Happening>, k: nat)
    requires k < |log|
  {
    log[k].Accepted? && log[k].proof.ByRecovery? ==> log[k].proof.digest in Unused(log[..k], log[k].generation)
  }

  /** Generations are never shared or reused. */
  ghost predicate GenerationsFresh(h: History) {
    && (forall user | user in h.factors :: h.factors[user].generation in h.generations)
    && (forall u, v | u in h.factors && v in h.factors && u != v :: h.factors[u].generation != h.factors[v].generation)
    && (forall k | 0 <= k < |h.log| :: h.log[k].generation in h.generations)
  }

  /** A generation's counters rise along the log and the stored counter is at least all of them. */
  ghost predicate CountersRise(h: History) {
    && (forall user, k | user in h.factors && 0 <= k < |h.log| ::
          Pins(h.log[k], h.factors[user].generation) ==> Pinned(h.log[k]) <= h.factors[user].lastCounter)
    && (forall j, k | 0 <= j < k < |h.log| && Pins(h.log[j], h.log[j].generation) && Pins(h.log[k], h.log[j].generation) ::
          Pinned(h.log[j]) < Pinned(h.log[k]))
  }

  /** The stored hashes are the codes the log leaves unused, and only such codes were ever accepted. */
  ghost predicate CodesMatch(h: History) {
    && (forall user | user in h.factors ::
          multiset(h.factors[user].recovery) == Unused(h.log, h.factors[user].generation))
    && (forall k | 0 <= k < |h.log| :: SpentAGoodCode(h.log, k))
  }

  ghost predicate Inv(h: History) {
    GenerationsFresh(h) && CountersRise(h) && CodesMatch(h)
  }

  lemma StepKeepsGenerations(totp: Totp, h: History, a: Action)
    requires GenerationsFresh(h)
    ensures GenerationsFresh(Step(totp, h, a))
  {
  }

  /** A proof accepted leaves the generation alone and never lowers its counter; a counter accepted exceeds it. */
  lemma SpendingRaises(totp: Totp, factors: Factors, user: UserId, code: Code, pinned: Option<Generation>, utc: int)
    requires Proved(totp, factors, user, code, pinned, utc).Some?
    ensures user in factors
    ensures var f, proof := factors[user], Proved(totp, factors, user, code, pinned, utc).value;
            var g := Spent(f, proof);
            && g.generation == f.generation
            && (if proof.ByCounter? then g.lastCounter == proof.value > f.lastCounter else g.lastCounter == f.lastCounter)
  {
  }

  lemma ConsumeKeepsCounters(totp: Totp, h: History, user: UserId, code: Code, pinned: Option<Generation>, utc: int)
    requires GenerationsFresh(h) && CountersRise(h)
    ensures CountersRise(Step(totp, h, Consume(user, code, pinned, utc)))
  {
    hide Proved, Spent;
    if Proved(totp, h.factors, user, code, pinned, utc).Some? {
      SpendingRaises(totp, h.factors, user, code, pinned, utc);
    }
  }

  lemma StepKeepsCounters(totp: Totp, h: History, a: Action)
    requires GenerationsFresh(h) && CountersRise(h)
    ensures CountersRise(Step(totp, h, a))
  {
    hide Proved, Spent;
    if a.Consume? {
      ConsumeKeepsCounters(totp, h, a.user, a.code, a.pinned, a.utc);
    }
  }

  lemma UnusedSnoc(log: seq<Happening>, e: Happening, generation: Generation)
    ensures Unused(log + [e], generation) == Remaining(Unused(log, generation), e, generation)
  {
    assert (log + [e])[..|log|] == log;
  }

  lemma GoodCodesSnoc(log: seq<Happening>, e: Happening)
    requires forall k | 0 <= k < |log| :: SpentAGoodCode(log, k)
    requires e.Accepted? && e.proof.ByRecovery? ==> e.proof.digest in Unused(log, e.generation)
    ensures forall k | 0 <= k < |log + [e]| :: SpentAGoodCode(log + [e], k)
  {
    var all := log + [e];
    forall k | 0 <= k < |all|
      ensures SpentAGoodCode(all, k)
    {
      if k < |log| {
        assert all[..k] == log[..k];
        assert SpentAGoodCode(log, k);
      } else {
        assert all[..k] == log;
      }
    }
  }

  /** One user's factor changes as the entry logged for its generation says. */
  lemma CodesSnoc(h: History, next: History, user: UserId, e: Happening)
    requires GenerationsFresh(h) && CodesMatch(h)
    requires next.log == h.log + [e]
    requires user !in h.factors ==> e.Enrolled?
    requires user in h.factors ==> e.generation == h.factors[user].generation
    requires exists f :: next.factors == h.factors[user := f] && f.generation == e.generation
                         && multiset(f.recovery) == Remaining(Unused(h.log, e.generation), e, e.generation)
    requires user !in h.factors ==> e.generation !in h.generations
    requires e.Accepted? && e.proof.ByRecovery? ==> e.proof.digest in h.factors[user].recovery
    ensures CodesMatch(next)
  {
    hide Unused;
    forall u | u in next.factors
      ensures multiset(next.factors[u].recovery) == Unused(next.log, next.factors[u].generation)
    {
      UnusedSnoc(h.log, e, next.factors[u].generation);
    }
    if e.Accepted? && e.proof.ByRecovery? {
      assert e.proof.digest in multiset(h.factors[user].recovery);
    }
    GoodCodesSnoc(h.log, e);
  }

  lemma ProofIsGood(totp: Totp, factors: Factors, user: UserId, code: Code, pinned: Option<Generation>, utc: int)
    requires Proved(totp, factors, user, code, pinned, utc).Some?
    ensures user in factors
    ensures var proof := Proved(totp, factors, user, code, pinned, utc).value;
            proof.ByRecovery? ==> proof.digest in factors[user].recovery
  {
  }

  /** Spending a proof takes exactly the code it names off the list. */
  lemma SpentCodes(f: Factor, proof: Proof)
    ensures Spent(f, proof).generation == f.generation
    ensures multiset(Spent(f, proof).recovery)
            == match proof case ByRecovery(d) => multiset(f.recovery) - multiset{d} case ByCounter(_) => multiset(f.recovery)
  {
    if proof.ByRecovery? && proof.digest !in f.recovery {
      assert proof.digest !in multiset(f.recovery);
    }
  }

  lemma StepKeepsCodes(totp: Totp, h: History, a: Action)
    requires GenerationsFresh(h) && CodesMatch(h)
    ensures CodesMatch(Step(totp, h, a))
  {
    hide Proved, Spent, CodesMatch;
    var next := Step(totp, h, a);
    match a {
      case Enable(user, secret, counter, generation, recovery) =>
        if next.log != h.log {
          var f := Factor(generation, secret, counter, recovery);
          assert next.factors == h.factors[user := f];
          CodesSnoc(h, next, user, Enrolled(user, generation, counter, recovery));
        }
      case Consume(user, code, pinned, utc) =>
        var proof := Proved(totp, h.factors, user, code, pinned, utc);
        if proof.Some? {
          ProofIsGood(totp, h.factors, user, code, pinned, utc);
          SpentCodes(h.factors[user], proof.value);
          FactorMatches(h, user);
          var f := Spent(h.factors[user], proof.value);
          assert next.factors == h.factors[user := f];
          CodesSnoc(h, next, user, Accepted(user, f.generation, proof.value));
        }
      case Disable(user) => SameLogCodes(h, next);
      case ReplaceRecovery(user, recovery) =>
        if user in h.factors {
          var f := h.factors[user].(recovery := recovery);
          assert next.factors == h.factors[user := f];
          CodesSnoc(h, next, user, Replaced(user, f.generation, recovery));
        }
    }
  }

  lemma FactorMatches(h: History, user: UserId)
    requires CodesMatch(h) && user in h.factors
    ensures multiset(h.factors[user].recovery) == Unused(h.log, h.factors[user].generation)
  {
  }

  lemma SameLogCodes(h: History, next: History)
    requires CodesMatch(h) && next.log == h.log && next.factors.Keys <= h.factors.Keys
    requires forall u | u in next.factors :: next.factors[u] == h.factors[u]
    ensures CodesMatch(next)
  {
  }

  lemma {:induction false} AlwaysInv(totp: Totp, actions: seq<Action>)
    ensures Inv(After(totp, actions))
  {
    if actions != [] {
      AlwaysInv(totp, actions[..|actions| - 1]);
      StepKeepsGenerations(totp, After(totp, actions[..|actions| - 1]), actions[|actions| - 1]);
      StepKeepsCounters(totp, After(totp, actions[..|actions| - 1]), actions[|actions| - 1]);
      StepKeepsCodes(totp, After(totp, actions[..|actions| - 1]), actions[|actions| - 1]);
    }
  }

  /** Whatever the clock does, a generation's accepted counters strictly increase from its enrolment counter. */
  lemma CountersIncrease(totp: Totp, actions: seq<Action>, j: nat, k: nat, generation: Generation)
    requires var log := After(totp, actions).log;
             j < k < |log| && Pins(log[j], generation) && Pins(log[k], generation)
    ensures var log := After(totp, actions).log;
            Pinned(log[j]) < Pinned(log[k]) && log[k].Accepted?
  {
    AlwaysInv(totp, actions);
    EnrolledFirst(totp, actions, j, k, generation);
  }

  /** A generation is enrolled once, before anything else happens to it. */
  lemma {:induction false} EnrolledFirst(totp: Totp, actions: seq<Action>, j: nat, k: nat, generation: Generation)
    requires var log := After(totp, actions).log;
             j < k < |log| && log[j].generation == generation && log[k].generation == generation
    ensures !After(totp, actions).log[k].Enrolled?
  {
    hide Proved, Spent, CountersRise, CodesMatch;
    var init := actions[..|actions| - 1];
    var h := After(totp, init);
    if k < |h.log| {
      EnrolledFirst(totp, init, j, k, generation);
    } else {
      AlwaysInv(totp, init);
    }
  }

  // ---------------------------------------------------------------- recovery codes

  predicate IssuesTen(a: Action) {
    (a.Enable? ==> |a.recovery| == 10) && (a.ReplaceRecovery? ==> |a.recovery| == 10)
  }

  lemma StepKeepsCount(totp: Totp, h: History, a: Action, user: UserId)
    requires Inv(h) && IssuesTen(a)
    requires user in h.factors ==>
               |h.factors[user].recovery| + SpentSince(h.log, h.factors[user].generation) == 10
    ensures var next := Step(totp, h, a);
            user in next.factors ==>
              |next.factors[user].recovery| + SpentSince(next.log, next.factors[user].generation) == 10
  {
    hide Proved, Spent, CountersRise, CodesMatch, SpentSince;
    var next := Step(totp, h, a);
    if next.log != h.log {
      assert next.log == h.log + [next.log[|h.log|]];
      if user in next.factors {
        SpentSinceSnoc(h.log, next.log[|h.log|], next.factors[user].generation);
      }
    }
    if a.Consume? && Proved(totp, h.factors, a.user, a.code, a.pinned, a.utc).Some? {
      ProofIsGood(totp, h.factors, a.user, a.code, a.pinned, a.utc);
      SpentCount(h.factors[a.user], Proved(totp, h.factors, a.user, a.code, a.pinned, a.utc).value);
    }
  }

  lemma SpentSinceSnoc(log: seq<Happening>, e: Happening, generation: Generation)
    ensures SpentSince(log + [e], generation) ==
            if e.generation != generation then SpentSince(log, generation)
            else if e.Accepted? then (if e.proof.ByRecovery? then 1 else 0) + SpentSince(log, generation)
            else 0
  {
    assert (log + [e])[..|log|] == log;
  }

  lemma SpentCount(f: Factor, proof: Proof)
    requires proof.ByRecovery? ==> proof.digest in f.recovery
    ensures Spent(f, proof).generation == f.generation
    ensures |Spent(f, proof).recovery| == |f.recovery| - if proof.ByRecovery? then 1 else 0
  {
  }

  lemma {:induction false} UnusedCount(totp: Totp, actions: seq<Action>, user: UserId)
    requires forall a | a in actions :: IssuesTen(a)
    ensures var h := After(totp, actions);
            user in h.factors ==> |h.factors[user].recovery| + SpentSince(h.log, h.factors[user].generation) == 10
  {
    if actions != [] {
      var init, a := actions[..|actions| - 1], actions[|actions| - 1];
      AlwaysInv(totp, init);
      UnusedCount(totp, init, user);
      StepKeepsCount(totp, After(totp, init), a, user);
    }
  }

  /** The codes left are the ones last issued less the ones accepted since: ten minus the uses. */
  lemma RecoveryCodesLeft(totp: Totp, actions: seq<Action>, user: UserId)
    requires user in After(totp, actions).factors
    requires forall a | a in actions :: IssuesTen(a)
    ensures var h := After(totp, actions);
            var f := h.factors[user];
            && multiset(f.recovery) == Unused(h.log, f.generation)
            && |f.recovery| == 10 - SpentSince(h.log, f.generation)
  {
    AlwaysInv(totp, actions);
    UnusedCount(totp, actions, user);
  }

  /** A batch of codes in which no digest repeats. */
  ghost predicate Distinct(codes: seq<Digest>) {
    forall d :: multiset(codes)[d] <= 1
  }

  ghost predicate IssuedDistinct(log: seq<Happening>) {
    forall e | e in log :: (e.Enrolled? || e.Replaced?) ==> Distinct(e.recovery)
  }

  predicate Reissues(e: Happening, generation: Generation) {
    e.generation == generation && !e.Accepted?
  }

  predicate Uses(e: Happening, generation: Generation, d: Digest) {
    e.generation == generation && e.Accepted? && e.proof == ByRecovery(d)
  }

  lemma {:induction false} UnusedAtMostOnce(log: seq<Happening>, generation: Generation, d: Digest)
    requires IssuedDistinct(log)
    ensures Unused(log, generation)[d] <= 1
  {
    if log != [] {
      UnusedAtMostOnce(log[..|log| - 1], generation, d);
    }
  }

  lemma {:induction false} GoneUntilReissued(log: seq<Happening>, generation: Generation, d: Digest, j: nat)
    requires IssuedDistinct(log)
    requires j < |log| && Uses(log[j], generation, d)
    requires forall i | j < i < |log| :: !Reissues(log[i], generation)
    ensures Unused(log, generation)[d] == 0
  {
    var init := log[..|log| - 1];
    if j == |init| {
      UnusedAtMostOnce(init, generation, d);
    } else {
      GoneUntilReissued(init, generation, d, j);
    }
  }

  /** Between two acceptances of one recovery code its user was issued new codes. */
  lemma RecoveryCodeUsedOnce(totp: Totp, actions: seq<Action>, generation: Generation, d: Digest, j: nat, k: nat)
    requires var log := After(totp, actions).log;
             j < k < |log| && Uses(log[j], generation, d) && Uses(log[k], generation, d) && IssuedDistinct(log)
    ensures exists i :: j < i < k && Reissues(After(totp, actions).log[i], generation)
  {
    var log := After(totp, actions).log;
    AlwaysInv(totp, actions);
    assert SpentAGoodCode(log, k);
    if forall i | j < i < k :: !Reissues(log[i], generation) {
      GoneUntilReissued(log[..k], generation, d, j);
    }
  }

  // ---------------------------------------------------------------- disabling

  function AfterMore(totp: Totp, h: History, more: seq<Action>): History {
    if more == [] then h else Step(totp, AfterMore(totp, h, more[..|more| - 1]), more[|more| - 1])
  }

  lemma NoFactorNoProof(totp: Totp, factors: Factors, user: UserId, code: Code, pinned: Option<Generation>, utc: int)
    requires user !in factors
    ensures Proved(totp, factors, user, code, pinned, utc) == None
  {
  }

  /** What a disabled user's absence from the table means: until the next enrolment no code of any kind is accepted. */
  lemma {:induction false} DisabledAcceptsNothing(totp: Totp, h: History, user: UserId, more: seq<Action>)
    requires forall a | a in more :: !(a.Enable? && a.user == user)
    ensures var before, after := Step(totp, h, Disable(user)), AfterMore(totp, Step(totp, h, Disable(user)), more);
            && user !in after.factors
            && before.log <= after.log
            && (forall k | |before.log| <= k < |after.log| :: after.log[k].user != user)
  {
    if more != [] {
      hide Proved, Spent;
      var init, a := more[..|more| - 1], more[|more| - 1];
      assert a in more && forall b | b in init :: b in more;
      DisabledAcceptsNothing(totp, h, user, init);
      if a.Consume? && a.user == user {
        var earlier := AfterMore(totp, Step(totp, h, Disable(user)), init);
        NoFactorNoProof(totp, earlier.factors, user, a.code, a.pinned, a.utc);
      }
    }
  }

  // ---------------------------------------------------------------- what one attempt proves

  /**
   What a code proves: nothing without the pinned enrolment; a recovery code, that it is one of those left;
   six digits, the first of the counters one step around the present one that is not negative, newer
   than the last one accepted, and produces them.
   */
  lemma ProvedExact(totp: Totp, factors: Factors, user: UserId, code: Code, pinned: Option<Generation>, utc: int)
    ensures var r := Proved(totp, factors, user, code, pinned, utc);
            if user !in factors || (pinned.Some? && factors[user].generation != pinned.value) || code.Malformed? then
              r.None?
            else if code.Recovery? then
              r == if code.digest in factors[user].recovery then Some(ByRecovery(code.digest)) else None
            else
              var f, present := factors[user], utc / 30;
              if r.Some? then
                && r.value.ByCounter?
                && var v := r.value.value;
                && v >= 0 && present - 1 <= v <= present + 1 && v > f.lastCounter && totp(f.secret, v) == code.text
                && forall u | 0 <= u < v && present - 1 <= u && u > f.lastCounter :: totp(f.secret, u) != code.text
              else
                forall u | 0 <= u && present - 1 <= u <= present + 1 && u > f.lastCounter ::
                  totp(f.secret, u) != code.text
  {
  }

  /** Spending moves the counter to the one proved, or strikes out the first copy of the code; nothing else. */
  lemma SpentExact(f: Factor, proof: Proof, i: nat)
    requires proof.ByRecovery? ==> i < |f.recovery| && f.recovery[i] == proof.digest && proof.digest !in f.recovery[..i]
    ensures Spent(f, proof)
         == match proof
            case ByCounter(value) => Factor(f.generation, f.secret, value, f.recovery)
            case ByRecovery(_) => Factor(f.generation, f.secret, f.lastCounter, f.recovery[..i] + f.recovery[i + 1..])
  {
    if proof.ByRecovery? {
      PositionIs(f.recovery, proof.digest, i);
    }
  }
}
