/** What each section of preparing, re-admitting and serving one job does, stated about the job itself. */
module ExportSections {
  import opened Prelude
  import opened ExportCache
  import opened ExportJobs

  /** A stored job is found where it is. */
  lemma {:induction false} Found(jobs: seq<Job>, k: nat)
    requires k < |jobs| && Unique(jobs)
    ensures IndexOf(jobs, jobs[k].id) == Some(k)
  {
    if k < |jobs| - 1 {
      assert jobs[..|jobs| - 1][k].id != jobs[|jobs| - 1].id;
      Found(jobs[..|jobs| - 1], k);
    }
  }

  /** Nothing happens to a cache that does not hold the job. */
  lemma NotStored(c: Cache, id: JobId, bytes: nat, e: Ending, ok: bool, audited: bool, intact: bool)
    requires forall i | 0 <= i < |c.jobs| :: c.jobs[i].id != id
    ensures StartedPreparing(c, id) == Progressed(c, id, bytes) == FinishedPreparing(c, id, e) == c
    ensures Readmitted(c, id, ok, audited) == Released(c, id) == c
    ensures Opened(c, id, intact) == (c, Some(FileUnavailable))
  {
  }

  /** A queued job with a task becomes preparing; the thread reports bytes of a preparing job alone. */
  lemma PreparingExact(c: Cache, k: nat, bytes: nat)
    requires k < |c.jobs| && Unique(c.jobs)
    ensures var j := c.jobs[k];
            && StartedPreparing(c, j.id)
               == (if j.status.Queued? && j.id in c.tasks then c.(jobs := c.jobs[k := j.(status := Preparing)]) else c)
            && Progressed(c, j.id, bytes)
               == (if j.status.Preparing? then c.(jobs := c.jobs[k := j.(bytes := bytes)]) else c)
  {
    Found(c.jobs, k);
  }

  /**
   The end of a preparation: the job is ready and admitted if the thread passed with 32 bytes to 256 MiB,
   nobody cancelled it and the audit, never failed before, took its completion. Otherwise it is failed
   with no bytes, its failure is offered to the audit, and any record refused on the way latches.
   */
  lemma FinishExact(c: Cache, k: nat, e: Ending)
    requires k < |c.jobs| && Unique(c.jobs) && c.jobs[k].status.Preparing? && c.jobs[k].id in c.tasks
    ensures var j, d := c.jobs[k], FinishedPreparing(c, c.jobs[k].id, e);
            var whole := e.worked && 32 <= j.bytes <= 268_435_456 && !e.cancelled;
            if whole && !c.auditUnavailable && e.completed then
              d == c.(jobs := c.jobs[k := Job(j.id, Ready, j.bytes, j.expires, j.readers, true)])
            else
              d == c.(jobs := c.jobs[k := Job(j.id, Failed, 0, j.expires, j.readers, j.admitted)],
                      auditUnavailable := c.auditUnavailable || whole || !e.failure)
  {
    Found(c.jobs, k);
  }

  /** The end of a verification: a settled job is admitted, or failed, the failure offered to the audit once. */
  lemma ReadmitExact(c: Cache, k: nat, ok: bool, audited: bool)
    requires k < |c.jobs| && Unique(c.jobs)
    ensures var j, d := c.jobs[k], Readmitted(c, c.jobs[k].id, ok, audited);
            if j.status.Queued? || j.status.Preparing? then d == c
            else if ok then d == c.(jobs := c.jobs[k := j.(admitted := true)])
            else
              d == c.(jobs := c.jobs[k := j.(status := Failed)],
                      auditUnavailable := c.auditUnavailable || (j.status.Ready? && !audited))
  {
    Found(c.jobs, k);
  }

  /** A file is opened exactly for a ready, admitted job whose file is intact, and then counts one reader more. */
  lemma OpenExact(c: Cache, k: nat, intact: bool)
    requires k < |c.jobs| && Unique(c.jobs)
    ensures var j := c.jobs[k];
            Opened(c, j.id, intact)
            == if j.status.Ready? && j.admitted && intact
               then (c.(jobs := c.jobs[k := j.(readers := j.readers + 1)]), None) else (c, Some(FileUnavailable))
  {
    Found(c.jobs, k);
  }

  lemma ReleaseExact(c: Cache, k: nat)
    requires k < |c.jobs| && Unique(c.jobs)
    ensures var j := c.jobs[k];
            Released(c, j.id)
            == c.(jobs := c.jobs[k := j.(readers := if j.readers == 0 then 0 else j.readers - 1)])
  {
    Found(c.jobs, k);
    assert c.jobs[k := c.jobs[k]] == c.jobs;
  }

  /** A task goes when its job no longer runs; closing and a failed download record are remembered. */
  lemma EndsExact(c: Cache, id: JobId)
    requires Unique(c.jobs)
    ensures Step(c, TaskDone(id)).0
         == if exists j :: j in c.jobs && j.id == id && (j.status.Queued? || j.status.Preparing?)
            then c else c.(tasks := c.tasks - {id})
    ensures Step(c, Closing).0 == c.(closed := true) && Step(c, AuditFails).0 == c.(auditUnavailable := true)
  {
    forall k | 0 <= k < |c.jobs| && c.jobs[k].id == id
      ensures IndexOf(c.jobs, id) == Some(k)
    {
      Found(c.jobs, k);
    }
  }
}
