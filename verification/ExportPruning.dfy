/** What a prune removes, stated about the jobs themselves and not about the passes that remove them. */
module ExportPruning {
  import opened Prelude
  import opened ExportCache

  // ---------------------------------------------------------------- orphaned files

  lemma {:induction false} OrphansCleared(orphans: seq<Path>, stuckPaths: set<Path>)
    ensures var left := Cleared(orphans, stuckPaths);
            && left <= orphans
            && (left != [] ==> left[|left| - 1] in stuckPaths)
            && (forall i | |left| <= i < |orphans| :: orphans[i] !in stuckPaths)
  {
    if orphans != [] && orphans[|orphans| - 1] !in stuckPaths {
      OrphansCleared(orphans[..|orphans| - 1], stuckPaths);
    }
  }

  /** A prune fails before it touches any job exactly if the cache is unsafe or some orphan cannot go. */
  lemma PruneUnavailable(c: Cache, reserve: bool, now: int, stuck: set<JobId>, stuckPaths: set<Path>)
    ensures var (d, error) := Pruned(c, reserve, now, stuck, stuckPaths);
            && d == c.(jobs := d.jobs, orphans := d.orphans)
            && (error == Some(CacheUnavailable) <==> c.unsafe || exists p :: p in c.orphans && p in stuckPaths)
            && (error == Some(CacheUnavailable) ==> d.jobs == c.jobs)
            && (error == Some(CacheUnavailable) || error == Some(Capacity) || error.None?)
            && (if c.unsafe then d.orphans == c.orphans
                else d.orphans <= c.orphans && forall i | |d.orphans| <= i < |c.orphans| :: c.orphans[i] !in stuckPaths)
            && (error != Some(CacheUnavailable) ==> d.orphans == [])
  {
    hide Evict, Unexpired;
    OrphansCleared(c.orphans, stuckPaths);
    var left := Cleared(c.orphans, stuckPaths);
    if left == [] {
      assert forall p | p in c.orphans :: p !in stuckPaths;
    } else {
      assert left[|left| - 1] in c.orphans;
    }
  }

  // ---------------------------------------------------------------- what goes and what stays

  /** What the expiry pass leaves, in terms of the jobs alone. */
  lemma {:induction false} UnexpiredIs(jobs: seq<Job>, now: int, stuck: set<JobId>)
    ensures Unexpired(jobs, now, stuck)
         == Filter(jobs, (j: Job) => !((j.status.Ready? || j.status.Failed?) && j.readers == 0 && j.expires <= now
                                       && j.id !in stuck))
  {
    if jobs != [] {
      UnexpiredIs(jobs[..|jobs| - 1], now, stuck);
    }
  }

  /** Every finished job without readers is gone once it has expired, unless its files cannot go. */
  lemma ExpiredGo(c: Cache, reserve: bool, now: int, stuck: set<JobId>, stuckPaths: set<Path>, j: Job)
    requires !c.unsafe && forall p | p in c.orphans :: p !in stuckPaths
    requires (j.status.Ready? || j.status.Failed?) && j.readers == 0 && j.expires <= now && j.id !in stuck
    ensures j !in Pruned(c, reserve, now, stuck, stuckPaths).0.jobs
  {
    hide Evict, Unexpired;
    PruneUnavailable(c, reserve, now, stuck, stuckPaths);
    UnexpiredIs(c.jobs, now, stuck);
    EvictSplits(Unexpired(c.jobs, now, stuck), if reserve then MAX_EXPORT_BYTES else 0,
                if reserve then MAX_EXPORT_JOBS - 1 else MAX_EXPORT_JOBS, stuck);
  }

  /** The jobs that were there when `j` was evicted, `j` among them. */
  lemma {:induction false} EvictedForRoom(jobs: seq<Job>, requested: nat, limit: nat, stuck: set<JobId>, j: Job)
    returns (there: seq<Job>)
    requires j in jobs && j !in Evict(jobs, requested, limit, stuck).jobs
    ensures j in there && (j.status.Ready? || j.status.Failed?) && j.readers == 0 && j.id !in stuck
    ensures forall x | x in there :: x in jobs
    ensures forall x | x in Evict(jobs, requested, limit, stuck).jobs :: x in there
    ensures Total(there) + requested > 1_073_741_824 || |there| > limit
    ensures forall x | x in there && (x.status.Ready? || x.status.Failed?) && x.readers == 0 :: j.expires <= x.expires
    decreases |jobs|
  {
    hide Total;
    var k := Oldest(jobs).value;
    if j in Without(jobs, k) {
      WithoutKeepsIds(jobs, k);
      there := EvictedForRoom(Without(jobs, k), requested, limit, stuck, j);
    } else {
      there := jobs;
      StillThere(jobs, requested, limit, stuck);
      OthersStay(jobs, k);
      assert j == jobs[k];
    }
  }

  lemma OthersStay(jobs: seq<Job>, k: nat)
    requires k < |jobs|
    ensures forall i | 0 <= i < |jobs| && i != k :: jobs[i] in Without(jobs, k)
  {
    forall i | 0 <= i < |jobs| && i != k
      ensures jobs[i] in Without(jobs, k)
    {
      assert Without(jobs, k)[if i < k then i else i - 1] == jobs[i];
    }
  }

  lemma StillThere(jobs: seq<Job>, requested: nat, limit: nat, stuck: set<JobId>)
    ensures forall x | x in Evict(jobs, requested, limit, stuck).jobs :: x in jobs
  {
    hide Evict;
    EvictSplits(jobs, requested, limit, stuck);
  }

  /**
   A job that has not expired, or whose files cannot go, is missing after a prune only if it was
   finished, had no readers and could go, and the jobs still there when it went left no room; and
   none of those that might have gone instead expired earlier.
   */
  lemma MissingForRoom(c: Cache, reserve: bool, now: int, stuck: set<JobId>, stuckPaths: set<Path>, j: Job)
    returns (there: seq<Job>)
    requires j in c.jobs && (j.expires > now || j.id in stuck)
    requires j !in Pruned(c, reserve, now, stuck, stuckPaths).0.jobs
    ensures j in there && (j.status.Ready? || j.status.Failed?) && j.readers == 0 && j.id !in stuck
    ensures forall x | x in there :: x in c.jobs
    ensures forall x | x in Pruned(c, reserve, now, stuck, stuckPaths).0.jobs :: x in there
    ensures if reserve then Total(there) + 268_435_456 > 1_073_741_824 || |there| > 15
            else Total(there) > 1_073_741_824 || |there| > 16
    ensures forall x | x in there && (x.status.Ready? || x.status.Failed?) && x.readers == 0 :: j.expires <= x.expires
  {
    hide Evict, Unexpired, Total;
    PruneUnavailable(c, reserve, now, stuck, stuckPaths);
    UnexpiredIs(c.jobs, now, stuck);
    there := EvictedForRoom(Unexpired(c.jobs, now, stuck), if reserve then MAX_EXPORT_BYTES else 0,
                            if reserve then MAX_EXPORT_JOBS - 1 else MAX_EXPORT_JOBS, stuck, j);
  }

  /** If the unexpired jobs, and the expired ones that cannot go, leave room, then exactly these stay, in their order. */
  lemma RoomKeepsAll(c: Cache, reserve: bool, now: int, stuck: set<JobId>, stuckPaths: set<Path>)
    requires !c.unsafe && forall p | p in c.orphans :: p !in stuckPaths
    ensures var stay := Filter(c.jobs, (j: Job) =>
                                 !((j.status.Ready? || j.status.Failed?) && j.readers == 0 && j.expires <= now
                                   && j.id !in stuck));
            (if reserve then Total(stay) + 268_435_456 <= 1_073_741_824 && |stay| <= 15
             else Total(stay) <= 1_073_741_824 && |stay| <= 16)
            ==> Pruned(c, reserve, now, stuck, stuckPaths) == (c.(jobs := stay, orphans := []), None)
  {
    hide Unexpired, Total;
    PruneUnavailable(c, reserve, now, stuck, stuckPaths);
    UnexpiredIs(c.jobs, now, stuck);
  }

  /** A prune that finds no orphan in its way succeeds exactly if what it leaves fits; otherwise the next to go cannot. */
  lemma PruneRoomExact(c: Cache, reserve: bool, now: int, stuck: set<JobId>, stuckPaths: set<Path>)
    requires !c.unsafe && forall p | p in c.orphans :: p !in stuckPaths
    ensures var (d, error) := Pruned(c, reserve, now, stuck, stuckPaths);
            && (error.None? <==>
                  d.jobs == [] || if reserve then Total(d.jobs) + 268_435_456 <= 1_073_741_824 && |d.jobs| <= 15
                                  else Total(d.jobs) <= 1_073_741_824 && |d.jobs| <= 16)
            && (error.Some? ==>
                  forall j | j in d.jobs && (j.status.Ready? || j.status.Failed?) && j.readers == 0 ::
                    exists x :: x in d.jobs && x.id in stuck && (x.status.Ready? || x.status.Failed?) && x.readers == 0
                                && x.expires <= j.expires)
  {
    hide Unexpired, Total;
    PruneUnavailable(c, reserve, now, stuck, stuckPaths);
    EvictStops(Unexpired(c.jobs, now, stuck), if reserve then MAX_EXPORT_BYTES else 0,
               if reserve then MAX_EXPORT_JOBS - 1 else MAX_EXPORT_JOBS, stuck);
  }

  lemma {:induction false} EvictStops(jobs: seq<Job>, requested: nat, limit: nat, stuck: set<JobId>)
    ensures var e := Evict(jobs, requested, limit, stuck);
            && (e.roomy <==> e.jobs == [] || (Total(e.jobs) + requested <= 1_073_741_824 && |e.jobs| <= limit))
            && (!e.roomy ==>
                  forall j | j in e.jobs && (j.status.Ready? || j.status.Failed?) && j.readers == 0 ::
                    exists x :: x in e.jobs && x.id in stuck && (x.status.Ready? || x.status.Failed?) && x.readers == 0
                                && x.expires <= j.expires)
    decreases |jobs|
  {
    hide Total;
    var k := Oldest(jobs);
    if !(jobs == [] || Fits(jobs, requested, limit)) && k.Some? {
      if jobs[k.value].id in stuck {
        assert jobs[k.value] in jobs;
      } else {
        EvictStops(Without(jobs, k.value), requested, limit, stuck);
      }
    }
  }

  // ---------------------------------------------------------------- creating

  /** Every refusal of `create` in its order; a new job queues behind what the prune left, for a day. */
  lemma CreateExact(c: Cache, id: JobId, recorded: bool, now: int, stuck: set<JobId>, stuckPaths: set<Path>)
    ensures var (left, failure) := Pruned(c, true, now, stuck, stuckPaths);
            Created(c, id, recorded, now, stuck, stuckPaths)
            == if c.closed || c.auditUnavailable then (c, Some(Unavailable))
               else if !recorded then (c, Some(RecordingGap))
               else if |c.tasks| >= 2 then (c, Some(Busy))
               else if failure.Some? then (left, failure)
               else (left.(jobs := left.jobs + [Job(id, Queued, 0, now + 86_400, 0, false)],
                           tasks := left.tasks + {id}), None)
  {
    hide Pruned;
  }
}
