/** The worker queue's tables, and the statements that change them. */
module JobQueue {
  import opened Options
  import opened RetryPolicy

  type JobId = int

  type WorkerId = int

  /** The `worker_id` column. */
  datatype Holder = Nobody | ByWorker(w: WorkerId) | ByCollapse

  datatype Status = Pending | Running | Completed | Poisoned

  datatype Job = Job(
    project: int, jobType: string, dedupeKey: string, status: Status, priority: int, attempts: nat,
    maxAttempts: int, availableAt: int, createdAt: int, payload: string, holder: Holder)

  /** A row of `worker_job_attempts`. */
  datatype AttemptKey = AttemptKey(job: JobId, number: int)
  datatype AttemptOutcome = AttemptCompleted | AttemptFailed | AttemptPoisoned

  type Jobs = map<JobId, Job>
  type Attempts = map<AttemptKey, AttemptOutcome>

  /** The columns a worker keeps of a job it has claimed. */
  datatype Record = Record(id: JobId, project: int, jobType: string, attempts: nat, maxAttempts: int)

  function RecordOf(jobs: Jobs, id: JobId): Record
    requires id in jobs
  {
    var job := jobs[id];
    Record(id, job.project, job.jobType, job.attempts, job.maxAttempts)
  }

  datatype Request = Request(
    project: int, jobType: string, dedupeKey: string, priority: int, maxAttempts: int, availableAt: int, payload: string)

  predicate Active(job: Job) {
    job.status.Pending? || job.status.Running?
  }

  predicate SameKey(a: Job, b: Job) {
    a.project == b.project && a.jobType == b.jobType && a.dedupeKey == b.dedupeKey
  }

  predicate Matches(job: Job, r: Request) {
    Active(job) && job.project == r.project && job.jobType == r.jobType && job.dedupeKey == r.dedupeKey
  }

  function Min(a: int, b: int): int {
    if a < b then a else b
  }

  // ----- The statements -----

  /** The conflict branch of the enqueue: an active job with the same key is refreshed. */
  function Refresh(jobs: Jobs, id: JobId, r: Request): Jobs
    requires id in jobs
  {
    var job := jobs[id];
    jobs[id := job.(payload := r.payload, availableAt := Min(job.availableAt, r.availableAt),
                    priority := Min(job.priority, r.priority))]
  }

  function Insert(jobs: Jobs, id: JobId, r: Request, now: int): Jobs {
    jobs[id := Job(r.project, r.jobType, r.dedupeKey, Pending, r.priority, 0, r.maxAttempts, r.availableAt, now, r.payload, Nobody)]
  }

  /** May the claim query pick this job? `locked` are the rows it skips. */
  predicate Claimable(jobs: Jobs, types: set<string>, locked: set<JobId>, now: int, id: JobId) {
    && id in jobs && id !in locked && jobs[id].status.Pending?
    && jobs[id].availableAt <= now && jobs[id].jobType in types
  }

  /** `order by priority asc, created_at asc`. */
  predicate NotAfter(a: Job, b: Job) {
    a.priority < b.priority || (a.priority == b.priority && a.createdAt <= b.createdAt)
  }

  /** What the claim query may return. */
  predicate NextJob(jobs: Jobs, types: set<string>, locked: set<JobId>, now: int, pick: Option<JobId>) {
    match pick
    case None => forall id | id in jobs :: !Claimable(jobs, types, locked, now, id)
    case Some(j) =>
      && Claimable(jobs, types, locked, now, j)
      && forall id | id in jobs && Claimable(jobs, types, locked, now, id) :: NotAfter(jobs[j], jobs[id])
  }

  function Claim(jobs: Jobs, id: JobId, w: WorkerId): Jobs
    requires id in jobs
  {
    jobs[id := jobs[id].(status := Running, holder := ByWorker(w), attempts := jobs[id].attempts + 1)]
  }

  /** `UPDATE ... WHERE id = $1`, whatever the job's current status. */
  function SetStatus(jobs: Jobs, id: JobId, status: Status): Jobs {
    if id in jobs then jobs[id := jobs[id].(status := status)] else jobs
  }

  function ReleaseClaim(jobs: Jobs, id: JobId): Jobs {
    if id in jobs then jobs[id := jobs[id].(status := Pending, holder := Nobody)] else jobs
  }

  function Complete(jobs: Jobs, job: Record): Jobs {
    SetStatus(jobs, job.id, Completed)
  }

  function Fail(jobs: Jobs, job: Record, now: int): Jobs {
    match NextFailureState(job.attempts, job.maxAttempts)
    case Poison => SetStatus(jobs, job.id, Poisoned)
    case Retry(delay) =>
      if job.id in jobs then
        jobs[job.id := jobs[job.id].(status := Pending,
                                     availableAt := now + match delay case Some(ms) => ms case None => 0)]
      else jobs
  }

  function FailOutcome(job: Record): AttemptOutcome {
    if NextFailureState(job.attempts, job.maxAttempts).Poison? then AttemptPoisoned else AttemptFailed
  }

  /** Pending siblings of `job`: those a collapse may complete. */
  predicate Sibling(jobs: Jobs, job: Record, id: JobId) {
    id in jobs && id != job.id && jobs[id].project == job.project && jobs[id].jobType == job.jobType
    && jobs[id].status.Pending?
  }

  function Collapse(jobs: Jobs, siblings: set<JobId>): Jobs {
    map id | id in jobs :: if id in siblings then jobs[id].(status := Completed, holder := ByCollapse) else jobs[id]
  }

  const WORKER_JOB_TYPES := {
    "derive-session-memories", "reconcile-claim-state", "sync-chroma-index", "replay-failed-session",
    "build-knowledge-graph", "detect-communities", "generate-knowledge-report", "export-knowledge-snapshot" }

  predicate Heavy(jobType: string) {
    jobType == "build-knowledge-graph"
  }

  /** The job types whose processing completes pending siblings first. */
  predicate Collapses(jobType: string) {
    jobType == "sync-chroma-index" || jobType == "build-knowledge-graph"
  }
}
