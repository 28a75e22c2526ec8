/**
 Sliding-window admission: a queue of recent admissions against the full history of them.

 Times are readings of a monotonic clock, so calls come in nondecreasing time.
 */
module RateLimit {
  import opened Prelude

  // ---------------------------------------------------------------- one window

  ghost predicate Ascending(times: seq<real>) {
    forall i, j :: 0 <= i <= j < |times| ==> times[i] <= times[j]
  }

  /** How many of `times` lie in the half-open window (after, upTo]. */
  function CountIn(times: seq<real>, after: real, upTo: real): (n: nat)
    ensures n <= |times|
  {
    if times == [] then 0
    else CountIn(times[..|times| - 1], after, upTo)
         + if after < times[|times| - 1] <= upTo then 1 else 0
  }

  /** The queue once everything at or before `cutoff` was popped off its left end. */
  function Popped(queue: seq<real>, cutoff: real): (rest: seq<real>)
    ensures |rest| <= |queue|
  {
    if queue != [] && queue[0] <= cutoff then Popped(queue[1..], cutoff) else queue
  }

  /** The queue stands for the whole history: all it has forgotten is at or before `floor`. */
  ghost predicate Remembers(queue: seq<real>, history: seq<real>, floor: real) {
    && Ascending(history)
    && |queue| <= |history|
    && (forall i :: 0 <= i < |queue| ==> queue[i] == history[|history| - |queue| + i])
    && (forall i :: 0 <= i < |history| - |queue| ==> history[i] <= floor)
  }

  /** No entry of `history` is later than `clock`. */
  ghost predicate Past(history: seq<real>, clock: real) {
    forall i :: 0 <= i < |history| ==> history[i] <= clock
  }

  lemma PopOne(queue: seq<real>, history: seq<real>, floor: real, cutoff: real)
    requires Remembers(queue, history, floor) && floor <= cutoff
    requires queue != [] && queue[0] <= cutoff
    ensures Remembers(queue[1..], history, cutoff)
  {
    forall i | 0 <= i < |queue| - 1
      ensures queue[1..][i] == history[|history| - (|queue| - 1) + i]
    {
      assert queue[i + 1] == history[|history| - |queue| + (i + 1)];
    }
  }

  lemma {:induction false} PoppedRemembers(queue: seq<real>, history: seq<real>, floor: real, cutoff: real)
    requires Remembers(queue, history, floor) && floor <= cutoff
    ensures Remembers(Popped(queue, cutoff), history, cutoff)
    ensures Popped(queue, cutoff) != [] ==> Popped(queue, cutoff)[0] > cutoff
  {
    if queue != [] && queue[0] <= cutoff {
      PopOne(queue, history, floor, cutoff);
      PoppedRemembers(queue[1..], history, cutoff, cutoff);
    }
  }

  lemma {:induction false} CountNone(history: seq<real>, after: real, upTo: real)
    requires Past(history, after)
    ensures CountIn(history, after, upTo) == 0
  {
    if history != [] {
      CountNone(history[..|history| - 1], after, upTo);
    }
  }

  /** What is left in a popped queue is exactly what the history has in the window. */
  lemma {:induction false} QueueCountsWindow(queue: seq<real>, history: seq<real>, cutoff: real, now: real)
    requires Remembers(queue, history, cutoff)
    requires queue != [] ==> queue[0] > cutoff
    requires Past(history, now)
    ensures CountIn(history, cutoff, now) == |queue|
    decreases |queue|
  {
    if queue == [] {
      CountNone(history, cutoff, now);
    } else {
      var shorter, init := history[..|history| - 1], queue[..|queue| - 1];
      assert queue[|queue| - 1] == history[|history| - 1] && history[|history| - 1] >= history[|history| - |queue|] == queue[0];
      QueueCountsWindow(init, shorter, cutoff, now);
    }
  }

  /** Admissions `limit` apart are a whole window apart. */
  ghost predicate Spaced(history: seq<real>, limit: nat, window: real) {
    forall i :: 0 <= i < |history| - limit ==> history[i] <= history[i + limit] - window
  }

  lemma AdmissionKeepsSpacing(queue: seq<real>, history: seq<real>, limit: nat, window: real, now: real)
    requires Remembers(queue, history, now - window) && Spaced(history, limit, window)
    requires |queue| < limit
    requires Past(history, now)
    ensures Spaced(history + [now], limit, window)
  {
  }

  /** An ascending list cut at `from` with nothing of the window before it counts at most what lies after. */
  lemma {:induction false} CountFrom(history: seq<real>, after: real, upTo: real, from: nat)
    requires from <= |history|
    requires forall i :: 0 <= i < from ==> !(after < history[i] <= upTo)
    ensures CountIn(history, after, upTo) <= |history| - from
  {
    if from < |history| {
      CountFrom(history[..|history| - 1], after, upTo, from);
    } else if history != [] {
      CountFrom(history[..|history| - 1], after, upTo, |history| - 1);
    }
  }

  /** No window of that length, wherever it ends, ever holds more than `limit` admissions. */
  lemma {:induction false} SpacedBoundsEveryWindow(history: seq<real>, limit: nat, window: real, end: real)
    requires Ascending(history) && Spaced(history, limit, window)
    ensures CountIn(history, end - window, end) <= limit
  {
    if history != [] {
      var n := |history|;
      var init := history[..n - 1];
      if history[n - 1] > end {
        SpacedBoundsEveryWindow(init, limit, window, end);
      } else if n > limit {
        forall i | 0 <= i < n - limit
          ensures history[i] <= end - window
        {
          assert history[n - 1 - limit] <= history[n - 1 - limit + limit] - window;
        }
        CountFrom(history, end - window, end, n - limit);
      }
    }
  }

  /** A queue in step with its history: nothing needed is forgotten, and admissions are well spaced. */
  ghost predicate InStep(queue: seq<real>, history: seq<real>, limit: nat, window: real, clock: real) {
    && Remembers(queue, history, clock - window)
    && Spaced(history, limit, window)
    && Past(history, clock)
  }

  /** Time passing alone keeps a queue in step. */
  lemma Waiting(queue: seq<real>, history: seq<real>, limit: nat, window: real, clock: real, now: real)
    requires InStep(queue, history, limit, window, clock) && clock <= now
    ensures InStep(queue, history, limit, window, now)
  {
  }

  lemma AdmissionRemembered(queue: seq<real>, history: seq<real>, floor: real, now: real)
    requires Remembers(queue, history, floor) && Past(history, now)
    ensures Remembers(queue + [now], history + [now], floor) && Past(history + [now], now)
  {
    var q, h := queue + [now], history + [now];
    forall i | 0 <= i < |q|
      ensures q[i] == h[|h| - |q| + i]
    {
      if i < |queue| {
        assert queue[i] == history[|history| - |queue| + i];
      }
    }
  }

  /**
   One decision: after popping, the queue length is the number of admissions in the window,
   and appending an admission below the limit keeps queue and history in step.
   */
  lemma Decision(queue: seq<real>, history: seq<real>, limit: nat, window: real, clock: real, now: real)
    requires InStep(queue, history, limit, window, clock) && clock <= now
    ensures var rest := Popped(queue, now - window);
            && |rest| == CountIn(history, now - window, now)
            && InStep(rest, history, limit, window, now)
            && (|rest| < limit ==> InStep(rest + [now], history + [now], limit, window, now))
  {
    hide Remembers, Spaced, Past;
    var rest := Popped(queue, now - window);
    Waiting(queue, history, limit, window, clock, now);
    PoppedRemembers(queue, history, now - window, now - window);
    QueueCountsWindow(rest, history, now - window, now);
    if |rest| < limit {
      AdmissionKeepsSpacing(rest, history, limit, window, now);
      AdmissionRemembered(rest, history, now - window, now);
    }
  }

  function Ceil(x: real): (n: int)
    ensures n as real - 1.0 < x <= n as real
  {
    -((-x).Floor)
  }

  /** Retry-After: whole seconds until the oldest admission leaves the window, at least one. */
  function Wait(window: real, now: real, oldest: real): (seconds: int)
    ensures seconds >= 1 && now + seconds as real >= oldest + window
  {
    var wait := Ceil(window - (now - oldest));
    if wait > 1 then wait else 1
  }

  // ---------------------------------------------------------------- the device request limiter

  datatype RequestClass = Read | Write

  type Principal = nat

  type Bucket = (RequestClass, Principal)

  function Queue(events: map<Bucket, seq<real>>, key: Bucket): seq<real> {
    if key in events then events[key] else []
  }

  class DeviceRequestRateLimiter {
    const readLimit: nat
    const writeLimit: nat
    const window: real
    var events: map<Bucket, seq<real>>

    constructor (readLimit: nat, writeLimit: nat, window: real)
      requires readLimit >= 1 && writeLimit >= 1 && window > 0.0
      ensures this.readLimit == readLimit && this.writeLimit == writeLimit && this.window == window
      ensures events == map[]
    {
      this.readLimit, this.writeLimit, this.window, events := readLimit, writeLimit, window, map[];
    }

    function Limit(requestClass: RequestClass): nat {
      if requestClass == Read then readLimit else writeLimit
    }

    /** Admit the request and return nothing, or return the seconds to wait. */
    method Consume(requestClass: RequestClass, principal: Principal, now: real) returns (retry: Option<int>)
      requires Limit(requestClass) >= 1
      modifies this
      ensures var key, limit := (requestClass, principal), Limit(requestClass);
              var call := Call(old(events), key, limit, window, now);
              retry == call.retry && events == call.events
    {
      var key := (requestClass, principal);
      var queue := if key in events then events[key] else [];
      ghost var rest := Popped(queue, now - window);
      while queue != [] && queue[0] <= now - window
        invariant Popped(queue, now - window) == rest
        decreases |queue|
      {
        queue := queue[1..];
      }
      assert queue == rest;
      var limit := Limit(requestClass);
      events := events[key := queue];
      if |queue| >= limit {
        return Some(Wait(window, now, queue[0]));
      }
      events := events[key := queue + [now]];
      return None;
    }
  }

  datatype Outcome = Outcome(retry: Option<int>, events: map<Bucket, seq<real>>)

  function Call(events: map<Bucket, seq<real>>, key: Bucket, limit: nat, window: real, now: real): Outcome
    requires limit >= 1
  {
    var queue := Popped(Queue(events, key), now - window);
    if |queue| < limit then Outcome(None, events[key := queue + [now]])
    else Outcome(Some(Wait(window, now, queue[0])), events[key := queue])
  }

  // ---------------------------------------------------------------- whole runs of the limiter

  datatype Request = Request(key: Bucket, now: real)

  datatype Limits = Limits(read: nat, write: nat, window: real) {
    predicate Valid() {
      read >= 1 && write >= 1 && window > 0.0
    }

    function Of(key: Bucket): nat {
      if key.0 == Read then read else write
    }
  }

  /** The limiter's queues beside the full history of what it admitted. */
  datatype Trace = Trace(events: map<Bucket, seq<real>>, admitted: map<Bucket, seq<real>>)

  function Serve(limits: Limits, t: Trace, r: Request): Trace
    requires limits.Valid()
  {
    var call := Call(t.events, r.key, limits.Of(r.key), limits.window, r.now);
    Trace(call.events,
          if call.retry.None? then t.admitted[r.key := Queue(t.admitted, r.key) + [r.now]] else t.admitted)
  }

  function ServeAll(limits: Limits, requests: seq<Request>): Trace
    requires limits.Valid()
  {
    if requests == [] then Trace(map[], map[])
    else Serve(limits, ServeAll(limits, requests[..|requests| - 1]), requests[|requests| - 1])
  }

  ghost predicate Monotonic(requests: seq<Request>) {
    forall i, j :: 0 <= i <= j < |requests| ==> requests[i].now <= requests[j].now
  }

  /** Every bucket's queue is in step with its history, as of a time not after any later request. */
  ghost predicate Faithful(limits: Limits, t: Trace, clock: real) {
    forall key: Bucket :: BucketFaithful(limits, t, key, clock)
  }

  ghost predicate BucketFaithful(limits: Limits, t: Trace, key: Bucket, clock: real) {
    InStep(Queue(t.events, key), Queue(t.admitted, key), limits.Of(key), limits.window, clock)
  }

  lemma FaithfulLater(limits: Limits, t: Trace, clock: real, now: real)
    requires Faithful(limits, t, clock) && clock <= now
    ensures Faithful(limits, t, now)
  {
    forall key: Bucket
      ensures BucketFaithful(limits, t, key, now)
    {
      assert BucketFaithful(limits, t, key, clock);
      Waiting(Queue(t.events, key), Queue(t.admitted, key), limits.Of(key), limits.window, clock, now);
    }
  }

  lemma ServedBucket(limits: Limits, t: Trace, r: Request)
    requires limits.Valid() && BucketFaithful(limits, t, r.key, r.now)
    ensures BucketFaithful(limits, Serve(limits, t, r), r.key, r.now)
    ensures Call(t.events, r.key, limits.Of(r.key), limits.window, r.now).retry.None?
            <==> CountIn(Queue(t.admitted, r.key), r.now - limits.window, r.now) < limits.Of(r.key)
  {
    var next, limit, window := Serve(limits, t, r), limits.Of(r.key), limits.window;
    var rest, history := Popped(Queue(t.events, r.key), r.now - window), Queue(t.admitted, r.key);
    Decision(Queue(t.events, r.key), history, limit, window, r.now, r.now);
    if |rest| < limit {
      assert Queue(next.events, r.key) == rest + [r.now] && Queue(next.admitted, r.key) == history + [r.now];
    } else {
      assert Queue(next.events, r.key) == rest && Queue(next.admitted, r.key) == history;
    }
  }

  lemma ServeKeepsFaith(limits: Limits, t: Trace, r: Request, clock: real)
    requires limits.Valid() && Faithful(limits, t, clock) && clock <= r.now
    ensures Faithful(limits, Serve(limits, t, r), r.now)
    ensures Call(t.events, r.key, limits.Of(r.key), limits.window, r.now).retry.None?
            <==> CountIn(Queue(t.admitted, r.key), r.now - limits.window, r.now) < limits.Of(r.key)
  {
    var next := Serve(limits, t, r);
    FaithfulLater(limits, t, clock, r.now);
    assert BucketFaithful(limits, t, r.key, r.now);
    ServedBucket(limits, t, r);
    forall key: Bucket
      ensures BucketFaithful(limits, next, key, r.now)
    {
      assert BucketFaithful(limits, t, key, r.now);
      if key != r.key {
        assert Queue(next.events, key) == Queue(t.events, key) && Queue(next.admitted, key) == Queue(t.admitted, key);
      }
    }
  }

  function ClockAfter(requests: seq<Request>): real {
    if requests == [] then 0.0 else requests[|requests| - 1].now
  }

  lemma {:induction false} AlwaysFaithful(limits: Limits, requests: seq<Request>, clock: real)
    requires limits.Valid() && Monotonic(requests)
    requires requests != [] ==> requests[|requests| - 1].now <= clock
    ensures Faithful(limits, ServeAll(limits, requests), clock)
  {
    if requests == [] {
      var t := ServeAll(limits, requests);
      forall key: Bucket
        ensures BucketFaithful(limits, t, key, clock)
      {
        assert Queue(t.events, key) == [] && Queue(t.admitted, key) == [];
      }
    } else {
      var init, last := requests[..|requests| - 1], requests[|requests| - 1];
      AlwaysFaithful(limits, init, last.now);
      ServeKeepsFaith(limits, ServeAll(limits, init), last, last.now);
      FaithfulLater(limits, ServeAll(limits, requests), last.now, clock);
    }
  }

  /** The verdict depends only on the full history: admitted exactly when the window holds fewer than the limit. */
  lemma AdmitsExactlyUnderLimit(limits: Limits, requests: seq<Request>, r: Request)
    requires limits.Valid() && Monotonic(requests + [r])
    ensures var t := ServeAll(limits, requests);
            Call(t.events, r.key, limits.Of(r.key), limits.window, r.now).retry.None?
            <==> CountIn(Queue(t.admitted, r.key), r.now - limits.window, r.now) < limits.Of(r.key)
  {
    assert forall i :: 0 <= i < |requests| ==> (requests + [r])[i] == requests[i];
    assert (requests + [r])[|requests|] == r;
    AlwaysFaithful(limits, requests, r.now);
    ServeKeepsFaith(limits, ServeAll(limits, requests), r, r.now);
  }

  /** Over any run no window of the configured length holds more admissions than the limit. */
  lemma NeverOverLimit(limits: Limits, requests: seq<Request>, key: Bucket, end: real)
    requires limits.Valid() && Monotonic(requests)
    ensures CountIn(Queue(ServeAll(limits, requests).admitted, key), end - limits.window, end) <= limits.Of(key)
  {
    AlwaysFaithful(limits, requests, ClockAfter(requests));
    assert BucketFaithful(limits, ServeAll(limits, requests), key, ClockAfter(requests));
    SpacedBoundsEveryWindow(Queue(ServeAll(limits, requests).admitted, key), limits.Of(key), limits.window, end);
  }

  /** A queue never outgrows its limit. */
  lemma {:induction false} QueuesBounded(limits: Limits, requests: seq<Request>, key: Bucket)
    requires limits.Valid()
    ensures |Queue(ServeAll(limits, requests).events, key)| <= limits.Of(key)
  {
    if requests != [] {
      QueuesBounded(limits, requests[..|requests| - 1], key);
    }
  }

  /** A refused principal that waits out Retry-After without another call is then admitted. */
  lemma RetryAfterSuffices(limits: Limits, requests: seq<Request>, refused: Request, again: real)
    requires limits.Valid() && Monotonic(requests)
    requires var t := ServeAll(limits, requests);
             var call := Call(t.events, refused.key, limits.Of(refused.key), limits.window, refused.now);
             call.retry.Some? && again >= refused.now + call.retry.value as real
    ensures var t := ServeAll(limits, requests + [refused]);
            Call(t.events, refused.key, limits.Of(refused.key), limits.window, again).retry.None?
  {
    assert (requests + [refused])[..|requests|] == requests;
    var before, t := ServeAll(limits, requests), ServeAll(limits, requests + [refused]);
    QueuesBounded(limits, requests, refused.key);
    var queue := Queue(t.events, refused.key);
    assert queue == Popped(Queue(before.events, refused.key), refused.now - limits.window);
    assert queue[0] <= again - limits.window;
    assert |Popped(queue, again - limits.window)| < |queue|;
  }

  /** Nor is Retry-After a second too long: a caller that comes back a whole second earlier is still refused. */
  lemma RetryAfterTight(limits: Limits, requests: seq<Request>, refused: Request, again: real)
    requires limits.Valid() && Monotonic(requests)
    requires var call := Call(ServeAll(limits, requests).events, refused.key, limits.Of(refused.key), limits.window,
                              refused.now);
             call.retry.Some? && refused.now <= again <= refused.now + call.retry.value as real - 1.0
             && call.retry.value > 1
    ensures var t := ServeAll(limits, requests + [refused]);
            Call(t.events, refused.key, limits.Of(refused.key), limits.window, again).retry.Some?
  {
    assert (requests + [refused])[..|requests|] == requests;
    var before, t := ServeAll(limits, requests), ServeAll(limits, requests + [refused]);
    var queue := Queue(t.events, refused.key);
    assert queue == Popped(Queue(before.events, refused.key), refused.now - limits.window);
    assert queue[0] > again - limits.window;
    assert Popped(queue, again - limits.window) == queue;
  }

  /** Retry-After is at least a second, and one second when the oldest admission leaves the window within it. */
  lemma RetryAfterLeast(limits: Limits, requests: seq<Request>, refused: Request)
    requires limits.Valid()
    ensures var events := ServeAll(limits, requests).events;
            var call := Call(events, refused.key, limits.Of(refused.key), limits.window, refused.now);
            var queue := Popped(Queue(events, refused.key), refused.now - limits.window);
            call.retry.Some? ==>
              && call.retry.value >= 1 && queue != []
              && (queue[0] + limits.window <= refused.now + 1.0 ==> call.retry.value == 1)
  {
  }

  // ---------------------------------------------------------------- the account attempt budget

  const ATTEMPT_WINDOW: real := 300.0
  const ATTEMPT_LIMIT: nat := 10
  const ATTEMPT_CAPACITY: nat := 1024

  type UserId = nat

  function Attempts(attempts: map<UserId, seq<real>>, user: UserId): seq<real> {
    if user in attempts then attempts[user] else []
  }

  /** A deque `_prune` keeps: its newest entry is still inside the window. */
  predicate Active(queue: seq<real>, now: real) {
    queue != [] && queue[|queue| - 1] > now - ATTEMPT_WINDOW
  }

  function PrunedAttempts(attempts: map<UserId, seq<real>>, now: real): map<UserId, seq<real>> {
    map user | user in attempts && Active(attempts[user], now) :: attempts[user]
  }

  datatype Budget = Budget(granted: bool, attempts: map<UserId, seq<real>>)

  /** `_budget`: prune at one clock reading, then charge the user at a later one. */
  function Charge(attempts: map<UserId, seq<real>>, user: UserId, pruneAt: real, now: real): Budget {
    ChargeKept(PrunedAttempts(attempts, pruneAt), user, now)
  }

  function ChargeKept(kept: map<UserId, seq<real>>, user: UserId, now: real): Budget {
    var queue := Popped(Attempts(kept, user), now - ATTEMPT_WINDOW);
    if user !in kept && |kept| >= ATTEMPT_CAPACITY then Budget(false, kept)
    else if |queue| >= ATTEMPT_LIMIT then Budget(false, kept[user := queue])
    else Budget(true, kept[user := queue + [now]])
  }

  /** Every user's deque, or its absence, is in step with the user's full history of charges. */
  ghost predicate BudgetFaithful(attempts: map<UserId, seq<real>>, charged: map<UserId, seq<real>>, clock: real) {
    forall user: UserId :: UserFaithful(attempts, charged, user, clock)
  }

  ghost predicate UserFaithful(
      attempts: map<UserId, seq<real>>, charged: map<UserId, seq<real>>, user: UserId, clock: real)
  {
    InStep(Attempts(attempts, user), Attempts(charged, user), ATTEMPT_LIMIT, ATTEMPT_WINDOW, clock)
  }

  function Charged(charged: map<UserId, seq<real>>, user: UserId, granted: bool, now: real): map<UserId, seq<real>> {
    if granted then charged[user := Attempts(charged, user) + [now]] else charged
  }

  /** Who `_prune` keeps, read off the history: the users charged within the window. */
  ghost predicate RecentlyCharged(charged: map<UserId, seq<real>>, user: UserId, now: real) {
    CountIn(Attempts(charged, user), now - ATTEMPT_WINDOW, now) > 0
  }

  lemma {:induction false} PoppedEmptyIffStale(queue: seq<real>, cutoff: real)
    requires Ascending(queue)
    ensures Popped(queue, cutoff) == [] <==> queue == [] || queue[|queue| - 1] <= cutoff
  {
    if queue != [] && queue[0] <= cutoff {
      PoppedEmptyIffStale(queue[1..], cutoff);
    }
  }

  /** Forgetting a stale user forgets nothing the window still needs. */
  lemma PruneKeepsFaith(
      attempts: map<UserId, seq<real>>, charged: map<UserId, seq<real>>, clock: real, user: UserId, now: real)
    requires UserFaithful(attempts, charged, user, clock) && clock <= now
    ensures UserFaithful(PrunedAttempts(attempts, now), charged, user, now)
    ensures user in PrunedAttempts(attempts, now) <==> RecentlyCharged(charged, user, now)
  {
    var queue, history := Attempts(attempts, user), Attempts(charged, user);
    forall i, j | 0 <= i <= j < |queue|
      ensures queue[i] <= queue[j]
    {
      assert history[|history| - |queue| + i] <= history[|history| - |queue| + j];
    }
    PoppedEmptyIffStale(queue, now - ATTEMPT_WINDOW);
    Decision(queue, history, ATTEMPT_LIMIT, ATTEMPT_WINDOW, clock, now);
    Waiting(queue, history, ATTEMPT_LIMIT, ATTEMPT_WINDOW, clock, now);
  }

  lemma ChargeKeptExact(
      kept: map<UserId, seq<real>>, charged: map<UserId, seq<real>>, clock: real, user: UserId, now: real, u: UserId)
    requires UserFaithful(kept, charged, user, clock) && UserFaithful(kept, charged, u, clock) && clock <= now
    ensures var b := ChargeKept(kept, user, now);
            && UserFaithful(b.attempts, Charged(charged, user, b.granted, now), u, now)
            && (b.granted <==> CountIn(Attempts(charged, user), now - ATTEMPT_WINDOW, now) < ATTEMPT_LIMIT
                               && (user in kept || |kept| < ATTEMPT_CAPACITY))
  {
    var history, rest := Attempts(charged, user), Popped(Attempts(kept, user), now - ATTEMPT_WINDOW);
    Decision(Attempts(kept, user), history, ATTEMPT_LIMIT, ATTEMPT_WINDOW, clock, now);
    Waiting(Attempts(kept, u), Attempts(charged, u), ATTEMPT_LIMIT, ATTEMPT_WINDOW, clock, now);
    var b := ChargeKept(kept, user, now);
    var after := Charged(charged, user, b.granted, now);
    if u != user {
      assert Attempts(after, u) == Attempts(charged, u) && Attempts(b.attempts, u) == Attempts(kept, u);
    } else if b.granted {
      assert Attempts(after, u) == history + [now] && Attempts(b.attempts, u) == rest + [now];
    } else {
      assert Attempts(after, u) == history;
    }
  }

  /**
   `_budget` against the history, although `_prune` forgets users: a charge is granted exactly when
   the user has fewer than ten in the last 300 seconds and is either active or finds a free slot.
   */
  lemma ChargeExact(
      attempts: map<UserId, seq<real>>, charged: map<UserId, seq<real>>, clock: real, user: UserId, pruneAt: real, now: real)
    requires BudgetFaithful(attempts, charged, clock) && clock <= pruneAt <= now
    ensures var b := Charge(attempts, user, pruneAt, now);
            && BudgetFaithful(b.attempts, Charged(charged, user, b.granted, now), now)
            && (b.granted <==>
                && CountIn(Attempts(charged, user), now - ATTEMPT_WINDOW, now) < ATTEMPT_LIMIT
                && (RecentlyCharged(charged, user, pruneAt) || |PrunedAttempts(attempts, pruneAt)| < ATTEMPT_CAPACITY))
    ensures forall u :: u in PrunedAttempts(attempts, pruneAt) <==> RecentlyCharged(charged, u, pruneAt)
  {
    var kept := PrunedAttempts(attempts, pruneAt);
    var b := Charge(attempts, user, pruneAt, now);
    assert UserFaithful(attempts, charged, user, clock);
    PruneKeepsFaith(attempts, charged, clock, user, pruneAt);
    ChargeKeptExact(kept, charged, pruneAt, user, now, user);
    forall u: UserId
      ensures UserFaithful(b.attempts, Charged(charged, user, b.granted, now), u, now)
      ensures u in kept <==> RecentlyCharged(charged, u, pruneAt)
    {
      assert UserFaithful(attempts, charged, u, clock);
      PruneKeepsFaith(attempts, charged, clock, u, pruneAt);
      ChargeKeptExact(kept, charged, pruneAt, user, now, u);
    }
  }

  /** What touches the attempts: `_budget`, with its two clock readings, and every other `_prune`. */
  datatype Attempt = Charging(user: UserId, pruneAt: real, now: real) | Pruning(now: real)

  function StartOf(call: Attempt): real {
    if call.Charging? then call.pruneAt else call.now
  }

  datatype Ledger = Ledger(attempts: map<UserId, seq<real>>, charged: map<UserId, seq<real>>)

  function Attempted(l: Ledger, call: Attempt): Ledger {
    match call
    case Charging(user, pruneAt, now) =>
      var b := Charge(l.attempts, user, pruneAt, now);
      Ledger(b.attempts, Charged(l.charged, user, b.granted, now))
    case Pruning(now) => l.(attempts := PrunedAttempts(l.attempts, now))
  }

  function AttemptAll(calls: seq<Attempt>): Ledger {
    if calls == [] then Ledger(map[], map[])
    else Attempted(AttemptAll(calls[..|calls| - 1]), calls[|calls| - 1])
  }

  ghost predicate InTime(calls: seq<Attempt>) {
    && (forall i :: 0 <= i < |calls| ==> StartOf(calls[i]) <= calls[i].now)
    && (forall i, j :: 0 <= i < j < |calls| ==> calls[i].now <= StartOf(calls[j]))
  }

  lemma BudgetLater(attempts: map<UserId, seq<real>>, charged: map<UserId, seq<real>>, clock: real, now: real)
    requires BudgetFaithful(attempts, charged, clock) && clock <= now
    ensures BudgetFaithful(attempts, charged, now)
  {
    forall user: UserId
      ensures UserFaithful(attempts, charged, user, now)
    {
      assert UserFaithful(attempts, charged, user, clock);
    }
  }

  lemma PruneKeepsBudget(attempts: map<UserId, seq<real>>, charged: map<UserId, seq<real>>, clock: real, now: real)
    requires BudgetFaithful(attempts, charged, clock) && clock <= now
    ensures BudgetFaithful(PrunedAttempts(attempts, now), charged, now)
  {
    forall user: UserId
      ensures UserFaithful(PrunedAttempts(attempts, now), charged, user, now)
    {
      assert UserFaithful(attempts, charged, user, clock);
      PruneKeepsFaith(attempts, charged, clock, user, now);
    }
  }

  lemma AttemptKeepsBudget(l: Ledger, call: Attempt)
    requires BudgetFaithful(l.attempts, l.charged, StartOf(call)) && StartOf(call) <= call.now
    ensures BudgetFaithful(Attempted(l, call).attempts, Attempted(l, call).charged, call.now)
  {
    hide BudgetFaithful;
    match call {
      case Charging(user, pruneAt, now) => ChargeExact(l.attempts, l.charged, pruneAt, user, pruneAt, now);
      case Pruning(now) => PruneKeepsBudget(l.attempts, l.charged, now, now);
    }
  }

  lemma {:induction false} AlwaysBudgeted(calls: seq<Attempt>, clock: real)
    requires InTime(calls) && (calls != [] ==> calls[|calls| - 1].now <= clock)
    ensures BudgetFaithful(AttemptAll(calls).attempts, AttemptAll(calls).charged, clock)
  {
    if calls == [] {
      forall user: UserId
        ensures UserFaithful(map[], map[], user, clock)
      {
      }
    } else {
      hide BudgetFaithful, Attempted;
      var init, call := calls[..|calls| - 1], calls[|calls| - 1];
      AlwaysBudgeted(init, StartOf(call));
      AttemptKeepsBudget(AttemptAll(init), call);
      BudgetLater(AttemptAll(calls).attempts, AttemptAll(calls).charged, call.now, clock);
    }
  }

  /** Over any run of charges and prunes no user is ever granted more than ten charges in any 300 seconds. */
  lemma NeverOverBudget(calls: seq<Attempt>, user: UserId, end: real)
    requires InTime(calls)
    ensures CountIn(Attempts(AttemptAll(calls).charged, user), end - ATTEMPT_WINDOW, end) <= ATTEMPT_LIMIT
  {
    var clock := if calls == [] then 0.0 else calls[|calls| - 1].now;
    var l := AttemptAll(calls);
    AlwaysBudgeted(calls, clock);
    assert UserFaithful(l.attempts, l.charged, user, clock);
    SpacedBoundsEveryWindow(Attempts(l.charged, user), ATTEMPT_LIMIT, ATTEMPT_WINDOW, end);
  }
}
