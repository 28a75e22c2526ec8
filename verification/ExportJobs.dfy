/**
 The export jobs over whole runs, and the manager that owns them: at most two preparations, their
 audited endings, re-admission, readers and the reservation. A coroutine that awaits is split into
 its sections between the awaits, and runs interleave the sections freely.
 */
module ExportJobs {
  import opened Prelude
  import opened ExportCache
  import RetainedTable

  // ---------------------------------------------------------------- preparing, re-admitting and serving

  function Replaced(c: Cache, k: nat, j: Job): Cache
    requires k < |c.jobs|
  {
    c.(jobs := c.jobs[k := j])
  }

  predicate AwaitsItsTask(j: Job) {
    j.status.Queued?
  }

  predicate InPreparation(j: Job) {
    j.status.Preparing?
  }

  predicate Servable(j: Job) {
    j.status.Ready? && j.admitted
  }

  predicate BeingRead(j: Job) {
    j.readers > 0
  }

  /** The place of job `id`, when it is stored and `status` holds of it. */
  function Place(c: Cache, id: JobId, status: Job -> bool): (r: Option<nat>)
    ensures r.Some? ==> r.value < |c.jobs| && c.jobs[r.value].id == id && status(c.jobs[r.value])
    ensures r.Some? ==> r == IndexOf(c.jobs, id)
  {
    var k := IndexOf(c.jobs, id);
    if k.Some? && status(c.jobs[k.value]) then k else None
  }

  /** The first section of `_prepare`. */
  function StartedPreparing(c: Cache, id: JobId): Cache {
    var k := Place(c, id, AwaitsItsTask);
    if k.None? || id !in c.tasks then c else Replaced(c, k.value, c.jobs[k.value].(status := Preparing))
  }

  /** A block the download thread has written. */
  function Progressed(c: Cache, id: JobId, bytes: nat): Cache {
    var k := Place(c, id, InPreparation);
    if k.None? then c else Replaced(c, k.value, c.jobs[k.value].(bytes := bytes))
  }

  /**
   How the preparing thread and its task end. `worked`: every step of the thread passed but the size
   check, which is below. `completed` and `failure`: the audit would accept the record of that name.
   */
  datatype Ending = Ending(worked: bool, cancelled: bool, completed: bool, failure: bool)

  predicate Prepared(j: Job, e: Ending) {
    e.worked && 32 <= j.bytes <= MAX_EXPORT_BYTES
  }

  /** A preparation succeeds when the file is good, nobody cancelled it and its completion was audited. */
  predicate Succeeds(c: Cache, j: Job, e: Ending) {
    Prepared(j, e) && !e.cancelled && !c.auditUnavailable && e.completed
  }

  /** The last section of `_prepare`; a failing audit latches. */
  function FinishedPreparing(c: Cache, id: JobId, e: Ending): Cache {
    var k := Place(c, id, InPreparation);
    if k.None? || id !in c.tasks then c
    else
      var j := c.jobs[k.value];
      if Succeeds(c, j, e) then Replaced(c, k.value, j.(status := Ready, admitted := true))
      else
        Replaced(c, k.value, j.(status := Failed, bytes := 0)).(
          auditUnavailable := c.auditUnavailable || !e.failure || (Prepared(j, e) && !e.cancelled))
  }

  /** The last section of `verify_ready`: a file that fails is failed once, and audited once. */
  function Readmitted(c: Cache, id: JobId, ok: bool, audited: bool): Cache {
    var k := Place(c, id, Settled);
    if k.None? then c
    else if ok then Replaced(c, k.value, c.jobs[k.value].(admitted := true))
    else
      Replaced(c, k.value, c.jobs[k.value].(status := Failed)).(
        auditUnavailable := c.auditUnavailable || (c.jobs[k.value].status.Ready? && !audited))
  }

  /** `open_file`, once re-admission is over; `intact` says the file still has its recorded identity. */
  function Opened(c: Cache, id: JobId, intact: bool): (Cache, Option<ExportError>) {
    var k := Place(c, id, Servable);
    if k.None? || !intact then (c, Some(FileUnavailable))
    else (Replaced(c, k.value, c.jobs[k.value].(readers := c.jobs[k.value].readers + 1)), None)
  }

  function Released(c: Cache, id: JobId): Cache {
    var k := Place(c, id, BeingRead);
    if k.None? then c else Replaced(c, k.value, c.jobs[k.value].(readers := c.jobs[k.value].readers - 1))
  }

  /** A running job with a task, whose task a cancellation may end at once. */
  predicate Abandonable(c: Cache, id: JobId) {
    id in c.tasks && Place(c, id, Running).Some?
  }

  datatype Action =
    | Creating(id: JobId, recorded: bool, now: int, stuck: set<JobId>, stuckPaths: set<Path>)
    | LookingUp(now: int, stuck: set<JobId>, stuckPaths: set<Path>)
    | Starting(id: JobId)
    | Progressing(id: JobId, bytes: nat)
    | Finishing(id: JobId, ending: Ending)
    | Readmitting(id: JobId, ok: bool, audited: bool)
    | Opening(id: JobId, intact: bool)
    | Releasing(id: JobId)
    | TaskDone(id: JobId)
    | Abandoning(id: JobId)
    | Closing
    | AuditFails

  /**
   One step. A task ends after its job stopped running, except when it is abandoned: cancelled before
   it ever ran, or cancelled again while it waits for its thread.
   */
  function Step(c: Cache, a: Action): (Cache, Option<ExportError>) {
    match a
    case Creating(id, recorded, now, stuck, stuckPaths) =>
      if Known(c, id) then (c, Some(Unavailable)) else Created(c, id, recorded, now, stuck, stuckPaths)
    case LookingUp(now, stuck, stuckPaths) => Pruned(c, false, now, stuck, stuckPaths)
    case Starting(id) => (StartedPreparing(c, id), None)
    case Progressing(id, bytes) => (Progressed(c, id, bytes), None)
    case Finishing(id, ending) => (FinishedPreparing(c, id, ending), None)
    case Readmitting(id, ok, audited) => (Readmitted(c, id, ok, audited), None)
    case Opening(id, intact) => Opened(c, id, intact)
    case Releasing(id) => (Released(c, id), None)
    case TaskDone(id) => (if Place(c, id, Running).Some? then c else c.(tasks := c.tasks - {id}), None)
    case Abandoning(id) => (if Abandonable(c, id) then c.(tasks := c.tasks - {id}) else c, None)
    case Closing => (c.(closed := true), None)
    case AuditFails => (c.(auditUnavailable := true), None)
  }

  // ---------------------------------------------------------------- invariants

  /** Jobs have ids of their own, there are at most two tasks, and no job is charged more than the size limit. */
  ghost predicate Sound(c: Cache) {
    && Unique(c.jobs)
    && (forall j | j in c.jobs :: Cost(j) <= MAX_EXPORT_BYTES)
    && |c.tasks| <= MAX_TASKS
  }

  /** Whatever runs has a task. */
  ghost predicate Tasked(c: Cache) {
    forall j | j in c.jobs && Running(j) :: j.id in c.tasks
  }

  /** The reservation holds: a quarter gigabyte per running job and the bytes of the others within one gigabyte. */
  ghost predicate Reserved(c: Cache) {
    Fits(c.jobs, 0, MAX_EXPORT_JOBS)
  }

  /** What a step that abandons no task keeps. */
  ghost predicate Keeps(c: Cache, d: Cache) {
    Sound(d) && (Reserved(c) ==> Reserved(d)) && (Tasked(c) ==> Tasked(d))
  }

  lemma ShrinkKeepsInvariants(c: Cache, d: Cache)
    requires Sound(c) && Shrinks(c.jobs, d.jobs) && d.tasks == c.tasks
    ensures Keeps(c, d)
  {
  }

  // ---------------------------------------------------------------- every step

  lemma NewJobFits(c: Cache, j: Job)
    requires Sound(c) && Fits(c.jobs, MAX_EXPORT_BYTES, MAX_EXPORT_JOBS - 1)
    requires j.status.Queued? && |c.tasks| < MAX_TASKS && IndexOf(c.jobs, j.id).None?
    ensures var d := c.(jobs := c.jobs + [j], tasks := c.tasks + {j.id});
            Sound(d) && Reserved(d) && (Tasked(c) ==> Tasked(d))
  {
    TotalConcat(c.jobs, [j]);
    TotalOne(j);
  }

  /** An id that is not known stays so while jobs are only removed. */
  lemma StillUnknown(c: Cache, d: Cache, id: JobId)
    requires !Known(c, id) && Shrinks(c.jobs, d.jobs) && d.tasks == c.tasks
    ensures !Known(d, id)
  {
    assert forall j | j in c.jobs :: j.id != id;
    assert forall j | j in d.jobs :: j.id != id;
  }

  /** A successful `create` leaves the reservation in force, the new job included. */
  lemma CreateReserves(c: Cache, id: JobId, recorded: bool, now: int, stuck: set<JobId>, stuckPaths: set<Path>)
    requires Sound(c) && !Known(c, id)
    ensures var (d, error) := Created(c, id, recorded, now, stuck, stuckPaths);
            && Keeps(c, d)
            && (error.None? ==> Reserved(d) && Known(d, id) && d.tasks == c.tasks + {id})
  {
    hide Sound, Reserved, Tasked, Fits, Shrinks, Pruned;
    if !(c.closed || c.auditUnavailable) && recorded && |c.tasks| < MAX_TASKS {
      var (d, error) := Pruned(c, true, now, stuck, stuckPaths);
      PruneShrinks(c, true, now, stuck, stuckPaths);
      ShrinkKeepsInvariants(c, d);
      StillUnknown(c, d, id);
      if error.None? {
        NewJobFits(d, Job(id, Queued, 0, now + LEASE_SECONDS, 0, false));
      }
    }
  }

  lemma TotalUpdated(jobs: seq<Job>, k: nat, j: Job)
    requires k < |jobs|
    ensures Total(jobs[k := j]) == Total(jobs) - Cost(jobs[k]) + Cost(j)
  {
    TotalWithout(jobs, k);
    TotalWithout(jobs[k := j], k);
    assert Without(jobs[k := j], k) == Without(jobs, k);
  }

  /** Rewriting one job without charging it more or starting it again. */
  lemma ReplaceKeepsInvariants(c: Cache, k: nat, j: Job)
    requires k < |c.jobs| && Sound(c)
    requires j.id == c.jobs[k].id && Cost(j) <= Cost(c.jobs[k]) && (Running(j) ==> Running(c.jobs[k]))
    ensures Keeps(c, Replaced(c, k, j))
  {
    var d := Replaced(c, k, j);
    TotalUpdated(c.jobs, k, j);
    assert c.jobs[k] in c.jobs;
    assert forall i | 0 <= i < |d.jobs| :: d.jobs[i].id == c.jobs[i].id && (i != k ==> d.jobs[i] == c.jobs[i]);
  }

  lemma SameJobs(c: Cache, d: Cache)
    requires Sound(c) && d.jobs == c.jobs && d.tasks == c.tasks
    ensures Keeps(c, d)
  {
  }

  lemma Latched(c: Cache, d: Cache, e: Cache)
    requires Keeps(c, d) && e.jobs == d.jobs && e.tasks == d.tasks
    ensures Keeps(c, e)
  {
  }

  lemma FinishKeepsInvariants(c: Cache, id: JobId, e: Ending)
    requires Sound(c)
    ensures Keeps(c, FinishedPreparing(c, id, e))
  {
    hide Keeps;
    var k := Place(c, id, InPreparation);
    if k.None? || id !in c.tasks {
      SameJobs(c, c);
    } else if Succeeds(c, c.jobs[k.value], e) {
      ReplaceKeepsInvariants(c, k.value, c.jobs[k.value].(status := Ready, admitted := true));
    } else {
      var failed := c.jobs[k.value].(status := Failed, bytes := 0);
      ReplaceKeepsInvariants(c, k.value, failed);
      Latched(c, Replaced(c, k.value, failed), FinishedPreparing(c, id, e));
    }
  }

  lemma ReadmitKeepsInvariants(c: Cache, id: JobId, ok: bool, audited: bool)
    requires Sound(c)
    ensures Keeps(c, Readmitted(c, id, ok, audited))
  {
    hide Keeps;
    var k := Place(c, id, Settled);
    if k.None? {
      SameJobs(c, c);
    } else if ok {
      ReplaceKeepsInvariants(c, k.value, c.jobs[k.value].(admitted := true));
    } else {
      var failed := c.jobs[k.value].(status := Failed);
      ReplaceKeepsInvariants(c, k.value, failed);
      Latched(c, Replaced(c, k.value, failed), Readmitted(c, id, ok, audited));
    }
  }

  /** The sections that rewrite one job and nothing else. */
  lemma RewriteKeepsInvariants(c: Cache, a: Action)
    requires Sound(c) && (a.Starting? || a.Progressing? || a.Opening? || a.Releasing?)
    ensures Keeps(c, Step(c, a).0)
  {
    hide Keeps, Sound;
    var d, k := Step(c, a).0, IndexOf(c.jobs, a.id);
    if d == c {
      SameJobs(c, c);
    } else {
      ReplaceKeepsInvariants(c, k.value, d.jobs[k.value]);
    }
  }

  lemma TaskEndKeepsInvariants(c: Cache, id: JobId)
    requires Sound(c)
    ensures var d := c.(tasks := c.tasks - {id});
            && Sound(d) && (Reserved(c) ==> Reserved(d))
            && (Place(c, id, Running).None? ==> Keeps(c, d))
  {
    var d := c.(tasks := c.tasks - {id});
    RetainedTable.SubsetCount(d.tasks, c.tasks);
    assert forall i | 0 <= i < |c.jobs| && c.jobs[i].id == id :: IndexOf(c.jobs, id) == Some(i);
    assert Place(c, id, Running).None? ==> forall j | j in c.jobs && Running(j) :: j.id != id;
  }

  /**
   Every step keeps the cache sound and the reservation once in force; unless it abandons a task it
   also keeps a task for every running job.
   */
  lemma StepKeepsInvariants(c: Cache, a: Action)
    requires Sound(c)
    ensures var d := Step(c, a).0;
            Sound(d) && (Reserved(c) ==> Reserved(d)) && (!(a.Abandoning? && Abandonable(c, a.id)) ==> Keeps(c, d))
  {
    hide Sound, Reserved, Tasked, Fits, Shrinks, Pruned, Created, Place;
    hide StartedPreparing, Progressed, FinishedPreparing, Readmitted, Opened, Released;
    match a {
      case Creating(id, recorded, now, stuck, stuckPaths) =>
        if Known(c, id) {
          SameJobs(c, c);
        } else {
          CreateReserves(c, id, recorded, now, stuck, stuckPaths);
        }
      case LookingUp(now, stuck, stuckPaths) =>
        PruneShrinks(c, false, now, stuck, stuckPaths);
        ShrinkKeepsInvariants(c, Step(c, a).0);
      case Finishing(id, ending) => FinishKeepsInvariants(c, id, ending);
      case Readmitting(id, ok, audited) => ReadmitKeepsInvariants(c, id, ok, audited);
      case TaskDone(id) =>
        SameJobs(c, c);
        TaskEndKeepsInvariants(c, id);
      case Abandoning(id) =>
        SameJobs(c, c);
        TaskEndKeepsInvariants(c, id);
      case Closing => SameJobs(c, Step(c, a).0);
      case AuditFails => SameJobs(c, Step(c, a).0);
      case _ => RewriteKeepsInvariants(c, a);
    }
  }

  // ---------------------------------------------------------------- the theorems

  function Run(c: Cache, actions: seq<Action>): Cache {
    if actions == [] then c else Step(Run(c, actions[..|actions| - 1]), actions[|actions| - 1]).0
  }

  lemma {:induction false} RunKeepsInvariants(c: Cache, actions: seq<Action>)
    requires Sound(c)
    ensures Sound(Run(c, actions)) && (Reserved(c) ==> Reserved(Run(c, actions)))
  {
    hide Sound, Reserved, Step;
    if actions != [] {
      RunKeepsInvariants(c, actions[..|actions| - 1]);
      StepKeepsInvariants(Run(c, actions[..|actions| - 1]), actions[|actions| - 1]);
    }
  }

  /** From the first successful `create` on, through whatever follows, the reservation holds. */
  lemma ReservedEverAfter(c: Cache, before: seq<Action>, create: Action, after: seq<Action>)
    requires Sound(c)
    requires create.Creating? && Step(Run(c, before), create).1.None?
    ensures var d := Run(Step(Run(c, before), create).0, after);
            && Total(d.jobs) <= MAX_RETAINED_BYTES && |d.jobs| <= MAX_EXPORT_JOBS
            && |d.tasks| <= MAX_TASKS
  {
    hide Run, Created;
    var s := Run(c, before);
    RunKeepsInvariants(c, before);
    CreateReserves(s, create.id, create.recorded, create.now, create.stuck, create.stuckPaths);
    RunKeepsInvariants(Step(s, create).0, after);
  }

  /** Nobody will finish this job: it runs and has no task. */
  ghost predicate Stranded(c: Cache, id: JobId) {
    id !in c.tasks && exists j :: j in c.jobs && j.id == id && Running(j)
  }

  /** A step that keeps every running job where it is, or rewrites it without finishing it. */
  lemma StepKeepsStranded(c: Cache, a: Action, id: JobId)
    requires Sound(c) && Stranded(c, id)
    ensures Stranded(Step(c, a).0, id)
  {
    hide Shrinks, Pruned, Total, Cost, Fits;
    var j :| j in c.jobs && j.id == id && Running(j);
    var d := Step(c, a).0;
    match a {
      case Creating(_, _, now, stuck, stuckPaths) =>
        PinnedJobsStay(c, true, now, stuck, stuckPaths);
        assert j in d.jobs && id !in d.tasks by {
          PruneKeepsTasks(c, true, now, stuck, stuckPaths);
          KnownJob(c, j);
        }
      case LookingUp(now, stuck, stuckPaths) =>
        PinnedJobsStay(c, false, now, stuck, stuckPaths);
        PruneKeepsTasks(c, false, now, stuck, stuckPaths);
        assert j in d.jobs;
      case TaskDone(_) => assert j in d.jobs;
      case Abandoning(_) => assert j in d.jobs;
      case Closing => assert j in d.jobs;
      case AuditFails => assert j in d.jobs;
      case _ => SectionKeepsStranded(c, a, j);
    }
  }

  lemma PruneKeepsTasks(c: Cache, reserve: bool, now: int, stuck: set<JobId>, stuckPaths: set<Path>)
    ensures Pruned(c, reserve, now, stuck, stuckPaths).0.tasks == c.tasks
  {
  }

  lemma KnownJob(c: Cache, j: Job)
    requires j in c.jobs
    ensures Known(c, j.id)
  {
  }

  /** At most job `id` is rewritten, and it stops running only if it has a task. */
  ghost predicate Rewrites(c: Cache, d: Cache, id: JobId) {
    && d.tasks == c.tasks
    && |d.jobs| == |c.jobs|
    && forall i | 0 <= i < |c.jobs| ::
         || d.jobs[i] == c.jobs[i]
         || (d.jobs[i].id == c.jobs[i].id == id
             && (Running(c.jobs[i]) && id !in c.tasks ==> Running(d.jobs[i])))
  }

  lemma ReplaceRewrites(c: Cache, k: nat, j: Job, d: Cache)
    requires k < |c.jobs| && j.id == c.jobs[k].id
    requires Running(c.jobs[k]) && j.id !in c.tasks ==> Running(j)
    requires d.jobs == c.jobs[k := j] && d.tasks == c.tasks
    ensures Rewrites(c, d, j.id)
  {
  }

  lemma FinishRewrites(c: Cache, id: JobId, e: Ending)
    ensures Rewrites(c, FinishedPreparing(c, id, e), id)
  {
    hide Rewrites, Prepared, Succeeds, Running;
    var d, k := FinishedPreparing(c, id, e), Place(c, id, InPreparation);
    if k.None? || id !in c.tasks {
      NothingRewritten(c, d, id);
    } else {
      ReplaceRewrites(c, k.value, d.jobs[k.value], d);
    }
  }

  lemma ReadmitRewrites(c: Cache, id: JobId, ok: bool, audited: bool)
    ensures Rewrites(c, Readmitted(c, id, ok, audited), id)
  {
    hide Rewrites;
    var d, k := Readmitted(c, id, ok, audited), Place(c, id, Settled);
    if k.None? {
      NothingRewritten(c, d, id);
    } else {
      ReplaceRewrites(c, k.value, d.jobs[k.value], d);
    }
  }

  lemma NothingRewritten(c: Cache, d: Cache, id: JobId)
    requires d.jobs == c.jobs && d.tasks == c.tasks
    ensures Rewrites(c, d, id)
  {
  }

  /** A section of one job's own coroutine finishes no job without a task. */
  lemma SectionRewrites(c: Cache, a: Action)
    requires a.Starting? || a.Progressing? || a.Finishing? || a.Readmitting? || a.Opening? || a.Releasing?
    ensures Rewrites(c, Step(c, a).0, a.id)
  {
    hide Rewrites, FinishedPreparing, Readmitted;
    if a.Finishing? {
      FinishRewrites(c, a.id, a.ending);
    } else if a.Readmitting? {
      ReadmitRewrites(c, a.id, a.ok, a.audited);
    } else {
      var d, k := Step(c, a).0, IndexOf(c.jobs, a.id);
      if d == c {
        NothingRewritten(c, d, a.id);
      } else {
        ReplaceRewrites(c, k.value, d.jobs[k.value], d);
      }
    }
  }

  lemma SectionKeepsStranded(c: Cache, a: Action, j: Job)
    requires j in c.jobs && Running(j) && j.id !in c.tasks
    requires a.Starting? || a.Progressing? || a.Finishing? || a.Readmitting? || a.Opening? || a.Releasing?
    ensures Stranded(Step(c, a).0, j.id)
  {
    hide Step, Running;
    SectionRewrites(c, a);
    var d := Step(c, a).0;
    var i :| 0 <= i < |c.jobs| && c.jobs[i] == j;
    assert d.jobs[i].id == j.id && Running(d.jobs[i]) && d.jobs[i] in d.jobs;
  }

  lemma {:induction false} StrandedForever(c: Cache, actions: seq<Action>, id: JobId)
    requires Sound(c) && Stranded(c, id)
    ensures Stranded(Run(c, actions), id)
  {
    hide Sound, Stranded, Step;
    if actions != [] {
      StrandedForever(c, actions[..|actions| - 1], id);
      RunKeepsInvariants(c, actions[..|actions| - 1]);
      StepKeepsStranded(Run(c, actions[..|actions| - 1]), actions[|actions| - 1], id);
    }
  }

  /** A task abandoned while its job runs leaves the job running, and charged in full, through every later run. */
  lemma AbandonedForever(c: Cache, id: JobId, after: seq<Action>)
    requires Sound(c) && Abandonable(c, id)
    ensures var d := Run(Step(c, Abandoning(id)).0, after);
            id !in d.tasks && exists j :: j in d.jobs && j.id == id && Running(j) && Cost(j) == MAX_EXPORT_BYTES
  {
    hide Run, Unique;
    var d := Step(c, Abandoning(id)).0;
    var k := Place(c, id, Running).value;
    assert d.jobs[k] in d.jobs;
    StepKeepsInvariants(c, Abandoning(id));
    StrandedForever(d, after, id);
    var e := Run(d, after);
    var j :| j in e.jobs && j.id == id && Running(j);
    assert Cost(j) == MAX_EXPORT_BYTES;
  }

  const EMPTY: Cache := Cache([], {}, [], false, false, false)

  /** It happens: one job, created and started, whose task is cancelled a second time. */
  lemma AbandonmentHappens()
    ensures var d := Run(EMPTY, [Creating(7, true, 0, {}, {})] + [Starting(7)] + [Abandoning(7)]);
            d.tasks == {} && d.jobs == [Job(7, Preparing, 0, LEASE_SECONDS, 0, false)]
  {
    var create, start := [Creating(7, true, 0, {}, {})], [Starting(7)];
    assert (create + start + [Abandoning(7)])[..2] == create + start && (create + start)[..1] == create;
    RunOne(EMPTY, create[0]);
    assert Run(EMPTY, create).jobs == [Job(7, Queued, 0, LEASE_SECONDS, 0, false)];
    assert IndexOf(Run(EMPTY, create).jobs, 7) == Some(0);
    assert Run(EMPTY, create + start).jobs == [Job(7, Preparing, 0, LEASE_SECONDS, 0, false)];
  }

  /** Whether step `k` of a run abandons a task whose job is running. */
  ghost predicate AbandonsAt(c: Cache, actions: seq<Action>, k: nat)
    requires k < |actions|
  {
    actions[k].Abandoning? && Abandonable(Run(c, actions[..k]), actions[k].id)
  }

  lemma {:induction false} NobodyAbandoned(c: Cache, actions: seq<Action>)
    requires Sound(c) && Tasked(c)
    requires forall k | 0 <= k < |actions| :: !AbandonsAt(c, actions, k)
    ensures Tasked(Run(c, actions))
  {
    hide Sound, Tasked, Reserved, Step, Abandonable;
    if actions != [] {
      var init, last := actions[..|actions| - 1], actions[|actions| - 1];
      forall k | 0 <= k < |init|
        ensures !AbandonsAt(c, init, k)
      {
        assert init[..k] == actions[..k] && !AbandonsAt(c, actions, k);
      }
      NobodyAbandoned(c, init);
      RunKeepsInvariants(c, init);
      assert !AbandonsAt(c, actions, |actions| - 1);
      StepKeepsInvariants(Run(c, init), last);
    }
  }

  lemma {:induction false} RunSplit(c: Cache, first: seq<Action>, second: seq<Action>)
    ensures Run(c, first + second) == Run(Run(c, first), second)
  {
    if second == [] {
      assert first + second == first;
    } else {
      assert (first + second)[..|first + second| - 1] == first + second[..|second| - 1];
      RunSplit(c, first, second[..|second| - 1]);
    }
  }

  /** Every running job has a task exactly when no task was ever abandoned while its job ran. */
  lemma TaskedExactly(c: Cache, actions: seq<Action>)
    requires Sound(c) && Tasked(c)
    ensures Tasked(Run(c, actions)) <==> forall k | 0 <= k < |actions| :: !AbandonsAt(c, actions, k)
  {
    hide Run, Step, Abandonable;
    if forall k | 0 <= k < |actions| :: !AbandonsAt(c, actions, k) {
      NobodyAbandoned(c, actions);
    } else {
      var k :| 0 <= k < |actions| && AbandonsAt(c, actions, k);
      var s := Run(c, actions[..k]);
      RunKeepsInvariants(c, actions[..k]);
      AbandonedForever(s, actions[k].id, actions[k + 1..]);
      assert actions == actions[..k] + ([actions[k]] + actions[k + 1..]);
      RunSplit(c, actions[..k], [actions[k]] + actions[k + 1..]);
      RunSplit(s, [actions[k]], actions[k + 1..]);
      RunOne(s, actions[k]);
    }
  }

  lemma RunOne(c: Cache, a: Action)
    ensures Run(c, [a]) == Step(c, a).0
  {
    assert [a][..0] == [] && Run(c, [a][..0]) == c;
  }

  // ---------------------------------------------------------------- the manager

  /** The expiry pass has looked at the first `i` jobs of the snapshot. */
  ghost predicate SweptUpTo(snapshot: seq<Job>, i: nat, jobs: seq<Job>, now: int, stuck: set<JobId>) {
    i <= |snapshot| && jobs == Unexpired(snapshot[..i], now, stuck) + snapshot[i..]
  }

  lemma SweepBegins(snapshot: seq<Job>, now: int, stuck: set<JobId>)
    ensures SweptUpTo(snapshot, 0, snapshot, now, stuck)
  {
    assert snapshot[0..] == snapshot && Unexpired(snapshot[..0], now, stuck) == [];
  }

  /** One turn of the expiry pass: the job at hand is the first one not yet looked at. */
  lemma SweepOne(snapshot: seq<Job>, i: nat, jobs: seq<Job>, now: int, stuck: set<JobId>)
    requires i < |snapshot| && SweptUpTo(snapshot, i, jobs, now, stuck)
    ensures var at := |jobs| - (|snapshot| - i);
            && 0 <= at < |jobs| && jobs[at] == snapshot[i]
            && SweptUpTo(snapshot, i + 1, if Swept(snapshot[i], now, stuck) then Without(jobs, at) else jobs, now, stuck)
  {
    var kept, rest := Unexpired(snapshot[..i], now, stuck), snapshot[i + 1..];
    assert snapshot[..i + 1][..i] == snapshot[..i];
    assert jobs == kept + [snapshot[i]] + rest;
  }

  lemma SweepEnds(snapshot: seq<Job>, jobs: seq<Job>, now: int, stuck: set<JobId>)
    requires SweptUpTo(snapshot, |snapshot|, jobs, now, stuck)
    ensures jobs == Unexpired(snapshot, now, stuck)
  {
    assert snapshot[..|snapshot|] == snapshot;
  }

  class ExportManager {
    var jobs: seq<Job>
    var tasks: set<JobId>
    var orphans: seq<Path>
    var closed: bool
    var auditUnavailable: bool
    var unsafe: bool

    constructor (loaded: seq<Job>, orphans: seq<Path>, unsafe: bool)
      requires Unique(loaded)
      requires forall j | j in loaded :: j.status.Ready? && !j.admitted && 32 <= j.bytes <= MAX_EXPORT_BYTES
      ensures State() == Cache(loaded, {}, orphans, false, false, unsafe) && Sound(State()) && Tasked(State())
    {
      jobs, tasks := loaded, {};
      this.orphans, this.unsafe := orphans, unsafe;
      closed, auditUnavailable := false, false;
    }

    function State(): Cache
      reads this
    {
      Cache(jobs, tasks, orphans, closed, auditUnavailable, unsafe)
    }

    /** `_remove`, given the place of the job: refused for a job with readers and when its files cannot go. */
    method Remove(k: nat, stuck: set<JobId>) returns (removed: bool)
      requires k < |jobs|
      modifies this`jobs
      ensures removed <==> old(jobs)[k].readers == 0 && old(jobs)[k].id !in stuck
      ensures jobs == if removed then Without(old(jobs), k) else old(jobs)
    {
      if jobs[k].readers > 0 || jobs[k].id in stuck {
        return false;
      }
      jobs := jobs[..k] + jobs[k + 1..];
      return true;
    }

    method Prune(reserve: bool, now: int, stuck: set<JobId>, stuckPaths: set<Path>) returns (error: Option<ExportError>)
      modifies this`jobs, this`orphans
      ensures (State(), error) == Pruned(old(State()), reserve, now, stuck, stuckPaths)
    {
      if unsafe {
        return Some(CacheUnavailable);
      }
      while orphans != []
        invariant Cleared(orphans, stuckPaths) == Cleared(old(orphans), stuckPaths)
        invariant jobs == old(jobs)
        decreases |orphans|
      {
        if orphans[|orphans| - 1] in stuckPaths {
          return Some(CacheUnavailable);
        }
        orphans := orphans[..|orphans| - 1];
      }
      SweepExpired(now, stuck);
      error := MakeRoom(if reserve then MAX_EXPORT_BYTES else 0,
                        if reserve then MAX_EXPORT_JOBS - 1 else MAX_EXPORT_JOBS, stuck);
    }

    /** The expiry pass, over the jobs as they were when it began. */
    method SweepExpired(now: int, stuck: set<JobId>)
      modifies this`jobs
      ensures jobs == Unexpired(old(jobs), now, stuck)
    {
      hide Unexpired, Without, SweptUpTo;
      var snapshot := jobs;
      var i := 0;
      SweepBegins(snapshot, now, stuck);
      while i < |snapshot|
        invariant 0 <= i <= |snapshot|
        invariant SweptUpTo(snapshot, i, jobs, now, stuck)
      {
        var job := snapshot[i];
        SweepOne(snapshot, i, jobs, now, stuck);
        if !Running(job) && job.expires <= now {
          var removed := Remove(|jobs| - (|snapshot| - i), stuck);
        }
        i := i + 1;
      }
      SweepEnds(snapshot, jobs, now, stuck);
    }

    /** The capacity loop: evict by smallest expiry until the request fits. */
    method MakeRoom(requested: nat, limit: nat, stuck: set<JobId>) returns (error: Option<ExportError>)
      requires requested <= MAX_RETAINED_BYTES
      modifies this`jobs
      ensures var e := Evict(old(jobs), requested, limit, stuck);
              jobs == e.jobs && error == if e.roomy then None else Some(Capacity)
    {
      hide Fits, Evictable;
      while jobs != []
        invariant var now, was := Evict(jobs, requested, limit, stuck), Evict(old(jobs), requested, limit, stuck);
                  now.jobs == was.jobs && now.roomy == was.roomy
        decreases |jobs|
      {
        if Fits(jobs, requested, limit) {
          break;
        }
        var oldest := OldestCandidate();
        if oldest.None? {
          return Some(Capacity);
        }
        NoReaders(jobs[oldest.value]);
        var removed := Remove(oldest.value, stuck);
        if !removed {
          return Some(Capacity);
        }
      }
      return None;
    }

    /** The first job with the smallest expiry among those that may go. */
    method OldestCandidate() returns (best: Option<nat>)
      ensures best == Oldest(jobs)
    {
      best := None;
      var i := 0;
      while i < |jobs|
        invariant 0 <= i <= |jobs|
        invariant best == Oldest(jobs[..i])
      {
        assert jobs[..i + 1][..i] == jobs[..i];
        if Evictable(jobs[i]) && (best.None? || jobs[i].expires < jobs[best.value].expires) {
          best := Some(i);
        }
        i := i + 1;
      }
      assert jobs[..i] == jobs;
    }

    method Create(id: JobId, recorded: bool, now: int, stuck: set<JobId>, stuckPaths: set<Path>)
      returns (error: Option<ExportError>)
      requires Sound(State()) && !Known(State(), id)
      modifies this`jobs, this`tasks, this`orphans
      ensures (State(), error) == Created(old(State()), id, recorded, now, stuck, stuckPaths)
      ensures Keeps(old(State()), State()) && (error.None? ==> Reserved(State()))
    {
      hide Sound, Reserved, Tasked, Known, Pruned;
      CreateReserves(State(), id, recorded, now, stuck, stuckPaths);
      if closed || auditUnavailable {
        return Some(Unavailable);
      }
      if !recorded {
        return Some(RecordingGap);
      }
      if |tasks| >= MAX_TASKS {
        return Some(Busy);
      }
      error := Prune(true, now, stuck, stuckPaths);
      if error.Some? {
        return;
      }
      jobs := jobs + [Job(id, Queued, 0, now + LEASE_SECONDS, 0, false)];
      tasks := tasks + {id};
    }

    /** `_audit_job`: refused once unavailable, and unavailable from its first failure on. */
    method AuditJob(accepted: bool) returns (ok: bool)
      modifies this`auditUnavailable
      ensures ok == (!old(auditUnavailable) && accepted)
      ensures auditUnavailable == (old(auditUnavailable) || !accepted)
    {
      if auditUnavailable {
        return false;
      }
      auditUnavailable := !accepted;
      return accepted;
    }

    /** The first section of `_prepare`, run once by the task of a new job. */
    method StartPreparing(id: JobId)
      requires Sound(State()) && id in tasks && Place(State(), id, AwaitsItsTask).Some?
      modifies this`jobs
      ensures State() == StartedPreparing(old(State()), id)
      ensures Keeps(old(State()), State())
    {
      hide Keeps, Sound;
      StepKeepsInvariants(State(), Starting(id));
      var k := IndexOf(jobs, id).value;
      jobs := jobs[k := jobs[k].(status := Preparing)];
    }

    /** What the download thread reports while it writes. */
    method Progress(id: JobId, bytes: nat)
      requires Sound(State()) && Place(State(), id, InPreparation).Some?
      modifies this`jobs
      ensures State() == Progressed(old(State()), id, bytes)
      ensures Keeps(old(State()), State())
    {
      hide Keeps, Sound;
      StepKeepsInvariants(State(), Progressing(id, bytes));
      var k := IndexOf(jobs, id).value;
      jobs := jobs[k := jobs[k].(bytes := bytes)];
    }

    /** The last section of `_prepare`: audit the completion, or audit the failure and drop the bytes. */
    method FinishPreparing(id: JobId, e: Ending)
      requires Sound(State()) && id in tasks && Place(State(), id, InPreparation).Some?
      modifies this`jobs, this`auditUnavailable
      ensures State() == FinishedPreparing(old(State()), id, e)
      ensures Keeps(old(State()), State())
    {
      hide Keeps, Sound;
      FinishKeepsInvariants(State(), id, e);
      var k := IndexOf(jobs, id).value;
      var failed := !e.worked || jobs[k].bytes < 32 || jobs[k].bytes > MAX_EXPORT_BYTES;
      if !failed && !e.cancelled {
        var audited := AuditJob(e.completed);
        failed := !audited;
      }
      if failed || e.cancelled {
        var audited := AuditJob(e.failure);
        jobs := jobs[k := jobs[k].(status := Failed, bytes := 0)];
      } else {
        jobs := jobs[k := jobs[k].(status := Ready, admitted := true)];
      }
    }

    /** The last section of `verify_ready`. */
    method EndVerification(id: JobId, ok: bool, audited: bool)
      requires Sound(State()) && Place(State(), id, Settled).Some?
      modifies this`jobs, this`auditUnavailable
      ensures State() == Readmitted(old(State()), id, ok, audited)
      ensures Keeps(old(State()), State())
    {
      hide Keeps, Sound;
      ReadmitKeepsInvariants(State(), id, ok, audited);
      var k := IndexOf(jobs, id).value;
      if ok {
        jobs := jobs[k := jobs[k].(admitted := true)];
      } else {
        if !jobs[k].status.Failed? {
          var accepted := AuditJob(audited);
        }
        jobs := jobs[k := jobs[k].(status := Failed)];
      }
    }

    method OpenFile(id: JobId, intact: bool) returns (error: Option<ExportError>)
      requires Sound(State())
      modifies this`jobs
      ensures (State(), error) == Opened(old(State()), id, intact)
      ensures Keeps(old(State()), State())
    {
      hide Keeps, Sound;
      StepKeepsInvariants(State(), Opening(id, intact));
      var k := IndexOf(jobs, id);
      if k.None? || !jobs[k.value].status.Ready? || !jobs[k.value].admitted || !intact {
        return Some(FileUnavailable);
      }
      jobs := jobs[k.value := jobs[k.value].(readers := jobs[k.value].readers + 1)];
      return None;
    }

    method ReleaseFile(id: JobId)
      requires Sound(State())
      modifies this`jobs
      ensures State() == Released(old(State()), id)
      ensures Keeps(old(State()), State())
    {
      hide Keeps, Sound;
      StepKeepsInvariants(State(), Releasing(id));
      var k := IndexOf(jobs, id);
      if k.Some? {
        var job := jobs[k.value];
        jobs := jobs[k.value := job.(readers := if job.readers > 0 then job.readers - 1 else 0)];
      }
    }
  }

  lemma NoReaders(j: Job)
    requires Evictable(j)
    ensures j.readers == 0
  {
  }
}
