/**
 The bounded export cache: byte and count reservation, eviction by expiry and reader pins.

 A job is a value in insertion order, and the files behind it are seen only through `stuck`: the
 jobs (and orphaned paths) whose removal the file system refuses at that moment.
 */
module ExportCache {
  import opened Prelude

  const MAX_EXPORT_BYTES: nat := 268_435_456
  const MAX_RETAINED_BYTES: nat := 1_073_741_824
  const MAX_EXPORT_JOBS: nat := 16
  const MAX_TASKS: nat := 2
  const LEASE_SECONDS: int := 86_400

  type JobId = nat
  type Path = nat

  datatype Status = Queued | Preparing | Ready | Failed

  /** `admitted`: the identity of the job's file is known, so it was prepared or re-verified by this process. */
  datatype Job = Job(id: JobId, status: Status, bytes: nat, expires: int, readers: nat, admitted: bool)

  datatype Cache = Cache(
    jobs: seq<Job>, tasks: set<JobId>, orphans: seq<Path>, closed: bool, auditUnavailable: bool, unsafe: bool)

  datatype ExportError = Unavailable | RecordingGap | Busy | CacheUnavailable | Capacity | FileUnavailable

  predicate Running(j: Job) {
    j.status.Queued? || j.status.Preparing?
  }

  predicate Settled(j: Job) {
    !Running(j)
  }

  predicate Evictable(j: Job) {
    !Running(j) && j.readers == 0
  }

  /** A running job is charged the most it may become. */
  function Cost(j: Job): nat {
    if Running(j) then MAX_EXPORT_BYTES else j.bytes
  }

  function Total(jobs: seq<Job>): nat {
    if jobs == [] then 0 else Total(jobs[..|jobs| - 1]) + Cost(jobs[|jobs| - 1])
  }

  predicate Fits(jobs: seq<Job>, requested: nat, limit: nat) {
    Total(jobs) + requested <= MAX_RETAINED_BYTES && |jobs| <= limit
  }

  function Without(jobs: seq<Job>, k: nat): seq<Job>
    requires k < |jobs|
  {
    jobs[..k] + jobs[k + 1..]
  }

  lemma {:induction false} TotalConcat(a: seq<Job>, b: seq<Job>)
    ensures Total(a + b) == Total(a) + Total(b)
  {
    if b == [] {
      assert a + b == a;
    } else {
      assert (a + b)[..|a + b| - 1] == a + b[..|b| - 1];
      TotalConcat(a, b[..|b| - 1]);
    }
  }

  /** A running job is charged 256 MiB, any other its bytes. */
  lemma TotalOne(j: Job)
    ensures Total([j]) == Cost(j) == if j.status.Queued? || j.status.Preparing? then 268_435_456 else j.bytes
  {
    assert Total([j][..0]) == 0;
  }

  lemma TotalWithout(jobs: seq<Job>, k: nat)
    requires k < |jobs|
    ensures Total(Without(jobs, k)) == Total(jobs) - Cost(jobs[k])
  {
    hide Total, Cost;
    var before, at, after := jobs[..k], [jobs[k]], jobs[k + 1..];
    assert jobs == (before + at) + after;
    TotalConcat(before + at, after);
    TotalConcat(before, at);
    TotalOne(jobs[k]);
    TotalConcat(before, after);
  }

  // ---------------------------------------------------------------- eviction

  /** The first of the evictable jobs with the smallest expiry. */
  function Oldest(jobs: seq<Job>): (r: Option<nat>)
    ensures r.Some? ==>
              && r.value < |jobs| && Evictable(jobs[r.value])
              && (forall i | 0 <= i < |jobs| && Evictable(jobs[i]) :: jobs[r.value].expires <= jobs[i].expires)
              && (forall i | 0 <= i < r.value && Evictable(jobs[i]) :: jobs[r.value].expires < jobs[i].expires)
    ensures r.None? ==> forall i | 0 <= i < |jobs| :: !Evictable(jobs[i])
  {
    if jobs == [] then None
    else
      var init, last := jobs[..|jobs| - 1], jobs[|jobs| - 1];
      var best := Oldest(init);
      if !Evictable(last) || (best.Some? && jobs[best.value].expires <= last.expires) then best
      else Some(|jobs| - 1)
  }

  /** What the capacity loop leaves, whether it made room, and whom it evicted, in order. */
  datatype Eviction = Eviction(jobs: seq<Job>, roomy: bool, victims: seq<Job>)

  function Evict(jobs: seq<Job>, requested: nat, limit: nat, stuck: set<JobId>): Eviction
    decreases |jobs|
  {
    if jobs == [] || Fits(jobs, requested, limit) then Eviction(jobs, true, [])
    else
      var k := Oldest(jobs);
      if k.None? || jobs[k.value].id in stuck then Eviction(jobs, false, [])
      else
        var rest := Evict(Without(jobs, k.value), requested, limit, stuck);
        Eviction(rest.jobs, rest.roomy, [jobs[k.value]] + rest.victims)
  }

  /** What nothing may evict: running jobs and jobs with readers. */
  function Held(jobs: seq<Job>): seq<Job> {
    if jobs == [] then []
    else if Evictable(jobs[|jobs| - 1]) then Held(jobs[..|jobs| - 1])
    else Held(jobs[..|jobs| - 1]) + [jobs[|jobs| - 1]]
  }

  lemma {:induction false} HeldConcat(a: seq<Job>, b: seq<Job>)
    ensures Held(a + b) == Held(a) + Held(b)
  {
    if b == [] {
      assert a + b == a;
    } else {
      assert (a + b)[..|a + b| - 1] == a + b[..|b| - 1];
      HeldConcat(a, b[..|b| - 1]);
    }
  }

  lemma HeldOne(j: Job)
    ensures Held([j]) == if Evictable(j) then [] else [j]
  {
    assert Held([j][..0]) == [];
  }

  lemma HeldWithout(jobs: seq<Job>, k: nat)
    requires k < |jobs| && Evictable(jobs[k])
    ensures Held(Without(jobs, k)) == Held(jobs)
  {
    hide Held, Evictable;
    var before, at, after := jobs[..k], [jobs[k]], jobs[k + 1..];
    assert jobs == (before + at) + after;
    HeldConcat(before + at, after);
    HeldConcat(before, at);
    HeldOne(jobs[k]);
    HeldConcat(before, after);
  }

  lemma {:induction false} HeldIsLess(jobs: seq<Job>)
    ensures Total(Held(jobs)) <= Total(jobs) && |Held(jobs)| <= |jobs|
  {
    hide Cost, Evictable;
    if jobs != [] {
      var init, last := jobs[..|jobs| - 1], jobs[|jobs| - 1];
      HeldIsLess(init);
      if !Evictable(last) {
        TotalConcat(Held(init), [last]);
        TotalOne(last);
      }
    }
  }

  lemma {:induction false} AllHeld(jobs: seq<Job>)
    requires forall i | 0 <= i < |jobs| :: !Evictable(jobs[i])
    ensures Held(jobs) == jobs
  {
    hide Evictable;
    if jobs != [] {
      AllHeld(jobs[..|jobs| - 1]);
      assert jobs == jobs[..|jobs| - 1] + [jobs[|jobs| - 1]];
    }
  }

  lemma WithoutSplits(jobs: seq<Job>, k: nat)
    requires k < |jobs|
    ensures multiset(jobs) == multiset(Without(jobs, k)) + multiset{jobs[k]}
  {
    assert jobs == jobs[..k] + [jobs[k]] + jobs[k + 1..];
  }

  /** Nobody is lost or invented, and only evictable jobs go. */
  lemma {:induction false} EvictSplits(jobs: seq<Job>, requested: nat, limit: nat, stuck: set<JobId>)
    ensures var e := Evict(jobs, requested, limit, stuck);
            && multiset(jobs) == multiset(e.jobs) + multiset(e.victims)
            && (forall v | v in e.victims :: Evictable(v) && v in jobs)
            && (forall s | s in e.jobs :: s in jobs)
            && Held(e.jobs) == Held(jobs)
    decreases |jobs|
  {
    hide Fits, Evictable, Total;
    var k := Oldest(jobs);
    if !(jobs == [] || Fits(jobs, requested, limit)) && k.Some? && jobs[k.value].id !in stuck {
      EvictSplits(Without(jobs, k.value), requested, limit, stuck);
      WithoutSplits(jobs, k.value);
      HeldWithout(jobs, k.value);
      var e, rest := Evict(jobs, requested, limit, stuck), Evict(Without(jobs, k.value), requested, limit, stuck);
      assert multiset(e.victims) == multiset{jobs[k.value]} + multiset(rest.victims);
    }
  }

  /**
   Making room succeeds exactly when the jobs nothing may evict leave enough of it; otherwise
   everything else is gone.
   */
  lemma {:induction false} EvictExact(jobs: seq<Job>, requested: nat, limit: nat, stuck: set<JobId>)
    requires requested <= MAX_RETAINED_BYTES
    ensures var e := Evict(jobs, requested, limit, stuck);
            && (e.roomy ==> Fits(e.jobs, requested, limit) && Fits(Held(jobs), requested, limit))
            && (stuck == {} ==> (e.roomy <==> Fits(Held(jobs), requested, limit)))
            && (stuck == {} && !e.roomy ==> e.jobs == Held(jobs))
    decreases |jobs|
  {
    HeldIsLess(jobs);
    var k := Oldest(jobs);
    if k.None? {
      AllHeld(jobs);
    } else if !(jobs == [] || Fits(jobs, requested, limit)) && jobs[k.value].id !in stuck {
      EvictExact(Without(jobs, k.value), requested, limit, stuck);
      HeldWithout(jobs, k.value);
    }
  }

  /** Victims go in expiry order, and none expires later than any evictable job that stays. */
  ghost predicate ByExpiry(jobs: seq<Job>, victims: seq<Job>) {
    && (forall i, j | 0 <= i <= j < |victims| :: victims[i].expires <= victims[j].expires)
    && (forall v, s | v in victims && s in jobs && Evictable(s) :: v.expires <= s.expires)
  }

  /** A victim that expires no later than the rest goes in front of them. */
  lemma VictimInFront(first: Job, jobs: seq<Job>, victims: seq<Job>)
    requires ByExpiry(jobs, victims)
    requires forall v | v in victims :: first.expires <= v.expires
    requires forall s | s in jobs && Evictable(s) :: first.expires <= s.expires
    ensures ByExpiry(jobs, [first] + victims)
  {
    hide Evictable;
    var all := [first] + victims;
    forall i, j | 0 <= i <= j < |all|
      ensures all[i].expires <= all[j].expires
    {
      if i > 0 {
        assert all[i] == victims[i - 1] && all[j] == victims[j - 1];
      } else if j > 0 {
        assert all[j] == victims[j - 1] && all[j] in victims;
      }
    }
  }

  lemma OneMoreVictim(jobs: seq<Job>, k: nat, e: Eviction)
    requires k < |jobs| && Oldest(jobs) == Some(k) && ByExpiry(e.jobs, e.victims)
    requires forall v | v in e.victims :: Evictable(v) && v in Without(jobs, k)
    requires forall s | s in e.jobs :: s in Without(jobs, k)
    ensures ByExpiry(e.jobs, [jobs[k]] + e.victims)
  {
    hide Oldest, Without, Evictable, ByExpiry;
    forall s | s in Without(jobs, k) && Evictable(s)
      ensures jobs[k].expires <= s.expires
    {
      OldestIsLeast(jobs, k, s);
    }
    VictimInFront(jobs[k], e.jobs, e.victims);
  }

  lemma OldestIsLeast(jobs: seq<Job>, k: nat, s: Job)
    requires Oldest(jobs) == Some(k) && s in Without(jobs, k) && Evictable(s)
    ensures jobs[k].expires <= s.expires
  {
    assert s in jobs;
  }

  lemma {:induction false} VictimsByExpiry(jobs: seq<Job>, requested: nat, limit: nat, stuck: set<JobId>)
    ensures var e := Evict(jobs, requested, limit, stuck); ByExpiry(e.jobs, e.victims)
    decreases |jobs|
  {
    hide Fits, Evictable, Total, ByExpiry;
    var k := Oldest(jobs);
    if !(jobs == [] || Fits(jobs, requested, limit)) && k.Some? && jobs[k.value].id !in stuck {
      VictimsByExpiry(Without(jobs, k.value), requested, limit, stuck);
      EvictSplits(Without(jobs, k.value), requested, limit, stuck);
      OneMoreVictim(jobs, k.value, Evict(Without(jobs, k.value), requested, limit, stuck));
    } else {
      NoVictims(jobs);
    }
  }

  lemma NoVictims(jobs: seq<Job>)
    ensures ByExpiry(jobs, [])
  {
  }

  /** An eviction that has a victim found no room, and its first victim is the oldest job that may go. */
  lemma FirstVictim(jobs: seq<Job>, requested: nat, limit: nat, stuck: set<JobId>)
    requires Evict(jobs, requested, limit, stuck).victims != []
    ensures Total(jobs) + requested > MAX_RETAINED_BYTES || |jobs| > limit
    ensures Oldest(jobs).Some?
    ensures var k := Oldest(jobs).value;
            Evict(jobs, requested, limit, stuck).victims
            == [jobs[k]] + Evict(Without(jobs, k), requested, limit, stuck).victims
  {
    hide Total, Oldest, Without, Evictable;
  }

  /** No victim is evicted in vain: while any of them was left there was no room. */
  lemma {:induction false} EveryVictimNeeded(jobs: seq<Job>, requested: nat, limit: nat, stuck: set<JobId>, m: nat)
    requires m < |Evict(jobs, requested, limit, stuck).victims|
    ensures var victims := Evict(jobs, requested, limit, stuck).victims;
            || Total(jobs) - Total(victims[..m]) + requested > MAX_RETAINED_BYTES
            || |jobs| - m > limit
    decreases |jobs|
  {
    hide Evict, Total, Cost, Oldest, Evictable;
    FirstVictim(jobs, requested, limit, stuck);
    var k := Oldest(jobs).value;
    var victims, rest := Evict(jobs, requested, limit, stuck).victims,
                         Evict(Without(jobs, k), requested, limit, stuck).victims;
    if m == 0 {
      NothingTotal();
      assert victims[..0] == [];
    } else {
      EveryVictimNeeded(Without(jobs, k), requested, limit, stuck, m - 1);
      TotalWithout(jobs, k);
      assert victims[..m] == [jobs[k]] + rest[..m - 1];
      TotalConcat([jobs[k]], rest[..m - 1]);
      TotalOne(jobs[k]);
    }
  }

  lemma NothingTotal()
    ensures Total([]) == 0
  {
  }

  // ---------------------------------------------------------------- pruning

  predicate Swept(j: Job, now: int, stuck: set<JobId>) {
    Evictable(j) && j.expires <= now && j.id !in stuck
  }

  /** What the expiry pass leaves. */
  function Unexpired(jobs: seq<Job>, now: int, stuck: set<JobId>): seq<Job> {
    if jobs == [] then []
    else
      var init, last := Unexpired(jobs[..|jobs| - 1], now, stuck), jobs[|jobs| - 1];
      if Swept(last, now, stuck) then init else init + [last]
  }

  /** Orphaned files are removed from the end of the list, up to the first one that cannot be. */
  function Cleared(orphans: seq<Path>, stuckPaths: set<Path>): seq<Path> {
    if orphans == [] || orphans[|orphans| - 1] in stuckPaths then orphans
    else Cleared(orphans[..|orphans| - 1], stuckPaths)
  }

  /** `_prune`, with what the file system refuses to remove. */
  function Pruned(c: Cache, reserve: bool, now: int, stuck: set<JobId>, stuckPaths: set<Path>)
    : (Cache, Option<ExportError>)
  {
    if c.unsafe then (c, Some(CacheUnavailable))
    else
      var d := c.(orphans := Cleared(c.orphans, stuckPaths));
      if d.orphans != [] then (d, Some(CacheUnavailable))
      else
        var e := Evict(Unexpired(d.jobs, now, stuck), if reserve then MAX_EXPORT_BYTES else 0,
                       if reserve then MAX_EXPORT_JOBS - 1 else MAX_EXPORT_JOBS, stuck);
        (d.(jobs := e.jobs), if e.roomy then None else Some(Capacity))
  }

  /** `create` after the provider answered; `recorded` says the selection has no gap. */
  function Created(
      c: Cache, id: JobId, recorded: bool, now: int, stuck: set<JobId>, stuckPaths: set<Path>)
    : (Cache, Option<ExportError>)
  {
    if c.closed || c.auditUnavailable then (c, Some(Unavailable))
    else if !recorded then (c, Some(RecordingGap))
    else if |c.tasks| >= MAX_TASKS then (c, Some(Busy))
    else
      var (d, error) := Pruned(c, true, now, stuck, stuckPaths);
      if error.Some? then (d, error)
      else (d.(jobs := d.jobs + [Job(id, Queued, 0, now + LEASE_SECONDS, 0, false)], tasks := d.tasks + {id}), None)
  }

  function IndexOf(jobs: seq<Job>, id: JobId): (r: Option<nat>)
    ensures r.Some? ==> r.value < |jobs| && jobs[r.value].id == id
    ensures r.None? ==> forall i | 0 <= i < |jobs| :: jobs[i].id != id
  {
    if jobs == [] then None
    else if jobs[|jobs| - 1].id == id then Some(|jobs| - 1)
    else IndexOf(jobs[..|jobs| - 1], id)
  }

  predicate Known(c: Cache, id: JobId) {
    id in c.tasks || IndexOf(c.jobs, id).Some?
  }

  // ---------------------------------------------------------------- what removing jobs keeps

  ghost predicate Unique(jobs: seq<Job>) {
    forall i, j | 0 <= i < j < |jobs| :: jobs[i].id != jobs[j].id
  }

  /** Removing jobs: everything left was there, ids stay unique, and the charge falls. */
  ghost predicate Shrinks(jobs: seq<Job>, fewer: seq<Job>) {
    && (forall j | j in fewer :: j in jobs)
    && (Unique(jobs) ==> Unique(fewer))
    && Total(fewer) <= Total(jobs) && |fewer| <= |jobs|
    && Held(fewer) == Held(jobs)
  }

  lemma WithoutKeepsIds(jobs: seq<Job>, k: nat)
    requires k < |jobs|
    ensures Unique(jobs) ==> Unique(Without(jobs, k))
    ensures forall j | j in Without(jobs, k) :: j in jobs
  {
    var fewer := Without(jobs, k);
    assert forall i | 0 <= i < |fewer| :: fewer[i] == jobs[if i < k then i else i + 1];
  }

  lemma {:induction false} EvictShrinks(jobs: seq<Job>, requested: nat, limit: nat, stuck: set<JobId>)
    ensures Shrinks(jobs, Evict(jobs, requested, limit, stuck).jobs)
    decreases |jobs|
  {
    hide Fits, Evictable, Unique, Total, Held;
    var k := Oldest(jobs);
    if !(jobs == [] || Fits(jobs, requested, limit)) && k.Some? && jobs[k.value].id !in stuck {
      WithoutKeepsIds(jobs, k.value);
      TotalWithout(jobs, k.value);
      HeldWithout(jobs, k.value);
      EvictShrinks(Without(jobs, k.value), requested, limit, stuck);
    }
  }

  lemma ShrinksThenSame(jobs: seq<Job>, kept: seq<Job>, last: Job, drop: bool)
    requires Shrinks(jobs, kept) && (drop ==> Evictable(last))
    ensures Shrinks(jobs + [last], if drop then kept else kept + [last])
  {
    hide Total, Held, Evictable;
    var all := jobs + [last];
    TotalConcat(kept, [last]);
    TotalConcat(jobs, [last]);
    HeldConcat(kept, [last]);
    HeldConcat(jobs, [last]);
    HeldOne(last);
    if Unique(all) {
      assert forall i, j | 0 <= i < j < |jobs| :: all[i].id != all[j].id;
      assert Unique(kept) by {
        assert forall i, j | 0 <= i < j < |jobs| :: jobs[i] == all[i] && jobs[j] == all[j];
        assert Unique(jobs);
      }
      forall i | 0 <= i < |kept|
        ensures kept[i].id != last.id
      {
        assert kept[i] in jobs;
        var k :| 0 <= k < |jobs| && jobs[k] == kept[i];
        assert all[k] == jobs[k] && all[|jobs|] == last;
      }
    }
  }

  lemma {:induction false} UnexpiredShrinks(jobs: seq<Job>, now: int, stuck: set<JobId>)
    ensures Shrinks(jobs, Unexpired(jobs, now, stuck))
    ensures forall j :: j in Unexpired(jobs, now, stuck) <==> j in jobs && !Swept(j, now, stuck)
  {
    hide Shrinks;
    if jobs == [] {
      NothingShrinks([]);
    } else {
      var init, last := jobs[..|jobs| - 1], jobs[|jobs| - 1];
      UnexpiredShrinks(init, now, stuck);
      assert jobs == init + [last];
      ShrinksThenSame(init, Unexpired(init, now, stuck), last, Swept(last, now, stuck));
    }
  }

  lemma NothingShrinks(jobs: seq<Job>)
    ensures Shrinks(jobs, jobs)
  {
  }

  lemma ShrinksTwice(jobs: seq<Job>, fewer: seq<Job>, fewest: seq<Job>)
    requires Shrinks(jobs, fewer) && Shrinks(fewer, fewest)
    ensures Shrinks(jobs, fewest)
  {
  }

  /** Pruning only removes jobs nobody needs, and when it succeeds there is room. */
  lemma PruneShrinks(c: Cache, reserve: bool, now: int, stuck: set<JobId>, stuckPaths: set<Path>)
    ensures var (d, error) := Pruned(c, reserve, now, stuck, stuckPaths);
            && Shrinks(c.jobs, d.jobs) && d.tasks == c.tasks
            && (error.None? ==> Fits(d.jobs, if reserve then MAX_EXPORT_BYTES else 0,
                                     if reserve then MAX_EXPORT_JOBS - 1 else MAX_EXPORT_JOBS))
  {
    hide Shrinks, Fits;
    var kept := Unexpired(c.jobs, now, stuck);
    var requested := if reserve then MAX_EXPORT_BYTES else 0;
    var limit := if reserve then MAX_EXPORT_JOBS - 1 else MAX_EXPORT_JOBS;
    NothingShrinks(c.jobs);
    UnexpiredShrinks(c.jobs, now, stuck);
    EvictShrinks(kept, requested, limit, stuck);
    EvictExact(kept, requested, limit, stuck);
    ShrinksTwice(c.jobs, kept, Evict(kept, requested, limit, stuck).jobs);
  }

  /** No prune, whether for `create` or a lookup, removes or reorders a running job or one with readers. */
  lemma PinnedJobsStay(c: Cache, reserve: bool, now: int, stuck: set<JobId>, stuckPaths: set<Path>)
    ensures Held(Pruned(c, reserve, now, stuck, stuckPaths).0.jobs) == Held(c.jobs)
    ensures forall j | j in c.jobs && !Evictable(j) :: j in Pruned(c, reserve, now, stuck, stuckPaths).0.jobs
  {
    var d := Pruned(c, reserve, now, stuck, stuckPaths).0;
    PruneShrinks(c, reserve, now, stuck, stuckPaths);
    forall j | j in c.jobs && !Evictable(j)
      ensures j in d.jobs
    {
      HeldHas(c.jobs, j);
      HeldHas(d.jobs, j);
    }
  }

  lemma {:induction false} HeldHas(jobs: seq<Job>, j: Job)
    ensures j in Held(jobs) <==> j in jobs && !Evictable(j)
  {
    if jobs != [] {
      HeldHas(jobs[..|jobs| - 1], j);
      assert jobs == jobs[..|jobs| - 1] + [jobs[|jobs| - 1]];
    }
  }

  /**
   When the file system removes what it is asked to, `create` is refused for capacity exactly when
   the pinned and running jobs alone leave no room; and then every other job is already gone.
   */
  lemma CapacityExact(c: Cache, id: JobId, now: int)
    requires !c.unsafe && !c.closed && !c.auditUnavailable && |c.tasks| < MAX_TASKS
    ensures var (d, error) := Created(c, id, true, now, {}, {});
            && (error.None? <==> Fits(Held(c.jobs), MAX_EXPORT_BYTES, MAX_EXPORT_JOBS - 1))
            && (error.Some? ==> error == Some(Capacity) && d.jobs == Held(c.jobs))
  {
    hide Shrinks, Fits;
    var kept := Unexpired(c.jobs, now, {});
    NothingStuck(c.orphans);
    UnexpiredShrinks(c.jobs, now, {});
    assert Held(kept) == Held(c.jobs) by {
      ShrinksKeepsHeld(c.jobs, kept);
    }
    EvictExact(kept, MAX_EXPORT_BYTES, MAX_EXPORT_JOBS - 1, {});
  }

  lemma ShrinksKeepsHeld(jobs: seq<Job>, fewer: seq<Job>)
    requires Shrinks(jobs, fewer)
    ensures Held(fewer) == Held(jobs)
  {
  }

  lemma {:induction false} NothingStuck(orphans: seq<Path>)
    ensures Cleared(orphans, {}) == []
  {
    if orphans != [] {
      NothingStuck(orphans[..|orphans| - 1]);
    }
  }
}
