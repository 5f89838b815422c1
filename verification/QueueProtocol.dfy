/** Many workers over one queue: each step is one committed transaction or one local move, in
    any interleaving. */
module QueueProtocol {
  import opened Options
  import opened JobQueue

  /** One worker inside `run_batch`. `slots` are the claims it may still make, `excess` is a
      second heavy job it must give back, `batch` are the jobs it keeps; of these, `started`
      have been handed to `run_single_job` and `settled` have come back from it. */
  datatype Worker = Worker(
    slots: nat, excess: Option<Record>, batch: seq<Record>, started: set<JobId>, settled: set<JobId>)

  const IDLE := Worker(0, None, [], {}, {})

  /** `executions` counts how often each job was started; `abandoned` are running jobs whose
      holder could not write its result, or never learned that it holds them; `concurrency` is
      each worker's batch limit. */
  datatype System = System(
    jobs: Jobs, attempts: Attempts, workers: map<WorkerId, Worker>, executions: map<JobId, nat>,
    abandoned: set<JobId>, concurrency: nat)

  /** `ClaimUnreported` is a claim that was committed, but reported to the worker as failed. */
  datatype Action =
    | Enqueue(request: Request, target: Option<JobId>, newId: JobId, now: int)
    | BeginBatch(w: WorkerId)
    | ClaimNext(w: WorkerId, pick: Option<JobId>, locked: set<JobId>, now: int)
    | ClaimUnreported(w: WorkerId, picked: JobId, locked: set<JobId>, now: int)
    | Release(w: WorkerId, written: bool)
    | Start(w: WorkerId, job: Record)
    | CollapseSiblings(w: WorkerId, job: Record, siblings: set<JobId>)
    | Settle(w: WorkerId, job: Record, succeeded: bool, written: bool, now: int)
    | EndBatch(w: WorkerId)

  function HasHeavy(batch: seq<Record>): bool {
    exists i :: 0 <= i < |batch| && Heavy(batch[i].jobType)
  }

  predicate InProgress(worker: Worker, job: Record) {
    job in worker.batch && job.id in worker.started && job.id !in worker.settled
  }

  function BatchIds(batch: seq<Record>): set<JobId> {
    set i | 0 <= i < |batch| :: batch[i].id
  }

  predicate Enabled(s: System, a: Action) {
    match a
    case Enqueue(r, target, newId, _) =>
      (match target
       case Some(id) => id in s.jobs && Matches(s.jobs[id], r)
       case None => newId !in s.jobs && forall id | id in s.jobs :: !Matches(s.jobs[id], r))
    case BeginBatch(w) => w in s.workers && s.workers[w] == IDLE
    case ClaimNext(w, pick, locked, now) =>
      && w in s.workers && s.workers[w].slots > 0 && s.workers[w].excess.None?
      && NextJob(s.jobs, WORKER_JOB_TYPES, locked, now, pick)
    case ClaimUnreported(w, picked, locked, now) =>
      && w in s.workers && s.workers[w].slots > 0 && s.workers[w].excess.None?
      && NextJob(s.jobs, WORKER_JOB_TYPES, locked, now, Some(picked))
    case Release(w, _) => w in s.workers && s.workers[w].excess.Some?
    case Start(w, job) =>
      && w in s.workers && s.workers[w].slots == 0 && s.workers[w].excess.None?
      && job in s.workers[w].batch && job.id !in s.workers[w].started
    case CollapseSiblings(w, job, siblings) =>
      && w in s.workers && InProgress(s.workers[w], job) && Collapses(job.jobType)
      && forall id | id in siblings :: Sibling(s.jobs, job, id)
    case Settle(w, job, _, _, _) => w in s.workers && InProgress(s.workers[w], job)
    case EndBatch(w) =>
      && w in s.workers && s.workers[w].slots == 0 && s.workers[w].excess.None?
      && s.workers[w].settled == BatchIds(s.workers[w].batch)
  }

  function AfterClaim(s: System, w: WorkerId, pick: Option<JobId>): System
    requires w in s.workers && s.workers[w].slots > 0 && (pick.Some? ==> pick.value in s.jobs)
  {
    var worker := s.workers[w];
    match pick
    case None => s.(workers := s.workers[w := worker.(slots := 0)])
    case Some(id) =>
      var jobs := JobQueue.Claim(s.jobs, id, w);
      var job := RecordOf(jobs, id);
      var worker' := if Heavy(job.jobType) && HasHeavy(worker.batch)
                     then worker.(slots := worker.slots - 1, excess := Some(job))
                     else worker.(slots := worker.slots - 1, batch := worker.batch + [job]);
      s.(jobs := jobs, workers := s.workers[w := worker'])
  }

  function AfterSettle(s: System, w: WorkerId, job: Record, succeeded: bool, written: bool, now: int): System
    requires w in s.workers
  {
    var workers := s.workers[w := s.workers[w].(settled := s.workers[w].settled + {job.id})];
    if !written then s.(workers := workers, abandoned := s.abandoned + {job.id})
    else
      s.(workers := workers,
         jobs := if succeeded then Complete(s.jobs, job) else Fail(s.jobs, job, now),
         attempts := s.attempts[AttemptKey(job.id, job.attempts) :=
                                  if succeeded then AttemptCompleted else FailOutcome(job)])
  }

  function Executions(s: System, id: JobId): nat {
    if id in s.executions then s.executions[id] else 0
  }

  function Next(s: System, a: Action): System
    requires Enabled(s, a)
  {
    match a
    case Enqueue(r, target, newId, now) =>
      (match target
       case Some(id) => s.(jobs := Refresh(s.jobs, id, r))
       case None => s.(jobs := Insert(s.jobs, newId, r, now)))
    case BeginBatch(w) => s.(workers := s.workers[w := IDLE.(slots := s.concurrency)])
    case ClaimNext(w, pick, _, _) => AfterClaim(s, w, pick)
    case ClaimUnreported(w, picked, _, _) =>
      s.(jobs := JobQueue.Claim(s.jobs, picked, w), workers := s.workers[w := s.workers[w].(slots := 0)],
         abandoned := s.abandoned + {picked})
    case Release(w, written) =>
      var job := s.workers[w].excess.value;
      var workers := s.workers[w := s.workers[w].(excess := None)];
      if written then s.(workers := workers, jobs := ReleaseClaim(s.jobs, job.id))
      else s.(workers := workers, abandoned := s.abandoned + {job.id})
    case Start(w, job) =>
      s.(workers := s.workers[w := s.workers[w].(started := s.workers[w].started + {job.id})],
         executions := s.executions[job.id := Executions(s, job.id) + 1])
    case CollapseSiblings(_, _, siblings) => s.(jobs := Collapse(s.jobs, siblings))
    case Settle(w, job, succeeded, written, now) => AfterSettle(s, w, job, succeeded, written, now)
    case EndBatch(w) => s.(workers := s.workers[w := IDLE])
  }

  // ----- The invariant -----

  /** The worker holds the job: nobody else may settle or release it. */
  predicate Holds(worker: Worker, job: Record) {
    worker.excess == Some(job) || (job in worker.batch && job.id !in worker.settled)
  }

  ghost predicate UniqueActive(jobs: Jobs) {
    forall a, b | a in jobs && b in jobs && a != b && Active(jobs[a]) && Active(jobs[b]) :: !SameKey(jobs[a], jobs[b])
  }

  ghost predicate WorkerInv(worker: Worker, concurrency: nat) {
    var batch := worker.batch;
    && |batch| + worker.slots <= concurrency
    && (forall i, j | 0 <= i < j < |batch| :: batch[i].id != batch[j].id)
    && (forall i, j | 0 <= i < j < |batch| :: !(Heavy(batch[i].jobType) && Heavy(batch[j].jobType)))
    && (worker.excess.Some? ==> worker.excess.value.id !in BatchIds(batch))
    && (worker.started != {} ==> worker.slots == 0 && worker.excess.None?)
    && worker.settled <= worker.started <= BatchIds(batch)
  }

  /** What the tables say about a job that worker `w` holds. */
  ghost predicate HeldInv(s: System, w: WorkerId, job: Record)
    requires w in s.workers
  {
    && job.id in s.jobs && s.jobs[job.id].status.Running? && s.jobs[job.id].holder == ByWorker(w)
    && job == RecordOf(s.jobs, job.id)
    && job.id !in s.abandoned && AttemptKey(job.id, job.attempts) !in s.attempts
    && (job.id !in s.workers[w].started ==>
          Executions(s, job.id) < job.attempts && Executions(s, job.id) < Limit(s.jobs[job.id]))
  }

  /** How often a job may be executed at most. */
  function Limit(job: Job): nat {
    if job.maxAttempts < 1 then 1 else job.maxAttempts
  }

  ghost predicate JobInv(s: System, id: JobId)
    requires id in s.jobs
  {
    var job := s.jobs[id];
    && Executions(s, id) <= job.attempts && Executions(s, id) <= Limit(job)
    && (job.status.Pending? ==> Executions(s, id) < Limit(job))
    && (id in s.abandoned ==> job.status.Running?)
    && (job.status.Running? && id !in s.abandoned ==>
          job.holder.ByWorker? && job.holder.w in s.workers && Holds(s.workers[job.holder.w], RecordOf(s.jobs, id)))
    && (forall key | key in s.attempts && key.job == id :: key.number <= job.attempts)
  }

  ghost predicate Inv(s: System) {
    && UniqueActive(s.jobs)
    && (forall w | w in s.workers :: WorkerInv(s.workers[w], s.concurrency))
    && (forall w, job: Record | w in s.workers && Holds(s.workers[w], job) :: HeldInv(s, w, job))
    && (forall id | id in s.jobs :: JobInv(s, id))
    && (forall id | id in s.abandoned || id in s.executions :: id in s.jobs)
    && (forall key | key in s.attempts :: key.job in s.jobs)
  }

  // ----- Every step keeps the invariant -----

  /** No job becomes active and no key changes, so no two active jobs share a key. */
  lemma NoNewActive(before: Jobs, after: Jobs)
    requires UniqueActive(before) && after.Keys == before.Keys
    requires forall id | id in before :: SameKey(before[id], after[id]) && (Active(after[id]) ==> Active(before[id]))
    ensures UniqueActive(after)
  {
  }

  /** A job held by `w` is held by no other worker, and not abandoned. */
  lemma OneHolder(s: System, w: WorkerId, job: Record, other: WorkerId, held: Record)
    requires Inv(s) && w in s.workers && other in s.workers && Holds(s.workers[w], job) && Holds(s.workers[other], held)
    ensures job.id == held.id ==> w == other && job == held
  {
    assert HeldInv(s, w, job) && HeldInv(s, other, held);
  }

  /** A job that is not running is held by no worker. */
  lemma IdleIsFree(s: System, id: JobId, w: WorkerId, held: Record)
    requires Inv(s) && id in s.jobs && !s.jobs[id].status.Running? && w in s.workers && Holds(s.workers[w], held)
    ensures held.id != id
  {
    assert HeldInv(s, w, held);
  }

  lemma RefreshKeeps(s: System, a: Action)
    requires Inv(s) && Enabled(s, a) && a.Enqueue? && a.target.Some?
    ensures Inv(Next(s, a))
  {
    hide WorkerInv, Holds;
    var s' := Next(s, a);
    NoNewActive(s.jobs, s'.jobs);
    forall w, job: Record | w in s'.workers && Holds(s'.workers[w], job)
      ensures HeldInv(s', w, job)
    {
      assert HeldInv(s, w, job);
    }
    forall j | j in s'.jobs
      ensures JobInv(s', j)
    {
      assert JobInv(s, j);
    }
  }

  lemma InsertKeeps(s: System, a: Action)
    requires Inv(s) && Enabled(s, a) && a.Enqueue? && a.target.None?
    ensures Inv(Next(s, a))
  {
    hide WorkerInv, Holds;
    var s' := Next(s, a);
    var id := a.newId;
    assert forall b | b in s.jobs && Active(s.jobs[b]) :: !SameKey(s'.jobs[id], s.jobs[b]) && !SameKey(s.jobs[b], s'.jobs[id]);
    forall w, job: Record | w in s'.workers && Holds(s'.workers[w], job)
      ensures HeldInv(s', w, job)
    {
      assert HeldInv(s, w, job);
    }
    forall j | j in s'.jobs
      ensures JobInv(s', j)
    {
      if j in s.jobs {
        assert JobInv(s, j);
      }
    }
  }

  lemma BeginKeeps(s: System, a: Action)
    requires Inv(s) && Enabled(s, a) && a.BeginBatch?
    ensures Inv(Next(s, a))
  {
    var s' := Next(s, a);
    assert forall job: Record :: !Holds(s.workers[a.w], job) && !Holds(s'.workers[a.w], job);
    hide Holds;
    forall w, job: Record | w in s'.workers && Holds(s'.workers[w], job)
      ensures HeldInv(s', w, job)
    {
      assert HeldInv(s, w, job);
    }
    forall j | j in s'.jobs
      ensures JobInv(s', j)
    {
      assert JobInv(s, j);
    }
  }

  lemma StopClaimingKeeps(s: System, a: Action)
    requires Inv(s) && Enabled(s, a) && a.ClaimNext? && a.pick.None?
    ensures Inv(Next(s, a))
  {
    var s' := Next(s, a);
    assert forall w, job: Record | w in s.workers :: Holds(s.workers[w], job) <==> Holds(s'.workers[w], job);
    hide Holds;
    forall w, job: Record | w in s'.workers && Holds(s'.workers[w], job)
      ensures HeldInv(s', w, job)
    {
      assert HeldInv(s, w, job);
    }
    forall j | j in s'.jobs
      ensures JobInv(s', j)
    {
      assert JobInv(s, j);
    }
  }

  /** The worker after a claim: the new job is in the batch, or it is the excess heavy one. */
  lemma ClaimingWorker(s: System, a: Action)
    requires Inv(s) && Enabled(s, a) && a.ClaimNext? && a.pick.Some?
    ensures var s' := Next(s, a);
            var worker, worker' := s.workers[a.w], s'.workers[a.w];
            var r := RecordOf(s'.jobs, a.pick.value);
            && WorkerInv(worker', s.concurrency) && r.id !in worker'.started && Holds(worker', r)
            && (forall job :: Holds(worker', job) <==> job == r || Holds(worker, job))
  {
    var s' := Next(s, a);
    var worker, worker', id := s.workers[a.w], s'.workers[a.w], a.pick.value;
    var r := RecordOf(s'.jobs, id);
    assert WorkerInv(worker, s.concurrency);
    assert worker.started == {} && worker.settled == {};
    forall i | 0 <= i < |worker.batch|
      ensures worker.batch[i].id != id
    {
      assert Holds(worker, worker.batch[i]);
      IdleIsFree(s, id, a.w, worker.batch[i]);
    }
    assert id !in BatchIds(worker.batch);
    if worker'.excess.None? {
      assert Heavy(r.jobType) ==> !HasHeavy(worker.batch);
      assert worker'.batch == worker.batch + [r];
    }
  }

  lemma ClaimKeepsHeld(s: System, a: Action, w: WorkerId, job: Record)
    requires Inv(s) && Enabled(s, a) && a.ClaimNext? && a.pick.Some?
    requires w in Next(s, a).workers && Holds(Next(s, a).workers[w], job)
    ensures HeldInv(Next(s, a), w, job)
  {
    ClaimingWorker(s, a);
    hide WorkerInv, Holds, UniqueActive, NextJob;
    var s' := Next(s, a);
    var r := RecordOf(s'.jobs, a.pick.value);
    if w == a.w && job == r {
      assert JobInv(s, a.pick.value);
      assert AttemptKey(r.id, r.attempts) !in s.attempts;
    } else {
      assert Holds(s.workers[w], job);
      assert HeldInv(s, w, job);
    }
  }

  lemma ClaimKeepsJob(s: System, a: Action, j: JobId)
    requires Inv(s) && Enabled(s, a) && a.ClaimNext? && a.pick.Some? && j in s.jobs
    ensures j in Next(s, a).jobs && JobInv(Next(s, a), j)
  {
    ClaimingWorker(s, a);
    hide WorkerInv, Holds, UniqueActive, NextJob, HeldInv;
    assert JobInv(s, j);
  }

  lemma ClaimKeeps(s: System, a: Action)
    requires Inv(s) && Enabled(s, a) && a.ClaimNext?
    ensures Inv(Next(s, a))
  {
    if a.pick.None? {
      StopClaimingKeeps(s, a);
      return;
    }
    var s' := Next(s, a);
    ClaimingWorker(s, a);
    hide WorkerInv, Holds, HeldInv, JobInv, NextJob;
    NoNewActive(s.jobs, s'.jobs);
    forall w, job: Record | w in s'.workers && Holds(s'.workers[w], job)
      ensures HeldInv(s', w, job)
    {
      ClaimKeepsHeld(s, a, w, job);
    }
    forall j | j in s'.jobs
      ensures JobInv(s', j)
    {
      ClaimKeepsJob(s, a, j);
    }
  }

  lemma UnreportedKeeps(s: System, a: Action)
    requires Inv(s) && Enabled(s, a) && a.ClaimUnreported?
    ensures Inv(Next(s, a))
  {
    var s' := Next(s, a);
    assert WorkerInv(s'.workers[a.w], s.concurrency) by {
      assert WorkerInv(s.workers[a.w], s.concurrency);
    }
    assert forall w, job: Record | w in s.workers :: Holds(s.workers[w], job) <==> Holds(s'.workers[w], job);
    hide WorkerInv, Holds;
    NoNewActive(s.jobs, s'.jobs);
    assert JobInv(s, a.picked);
    forall w, job: Record | w in s'.workers && Holds(s'.workers[w], job)
      ensures HeldInv(s', w, job)
    {
      assert HeldInv(s, w, job);
    }
    forall j | j in s'.jobs
      ensures JobInv(s', j)
    {
      assert JobInv(s, j);
    }
  }

  /** The worker after giving back its excess job. */
  lemma ReleasingWorker(s: System, w: WorkerId)
    requires Inv(s) && w in s.workers && s.workers[w].excess.Some?
    ensures var job := s.workers[w].excess.value;
            var worker' := s.workers[w].(excess := None);
            && Holds(s.workers[w], job) && WorkerInv(worker', s.concurrency)
            && (forall r :: Holds(worker', r) <==> Holds(s.workers[w], r) && r.id != job.id)
            && job.id !in s.workers[w].started
  {
    var worker, job := s.workers[w], s.workers[w].excess.value;
    assert WorkerInv(worker, s.concurrency);
    forall r | r in worker.batch
      ensures r.id != job.id
    {
      var i :| 0 <= i < |worker.batch| && worker.batch[i] == r;
      assert worker.batch[i].id in BatchIds(worker.batch);
    }
  }

  lemma ReleaseKeeps(s: System, a: Action)
    requires Inv(s) && Enabled(s, a) && a.Release?
    ensures Inv(Next(s, a))
  {
    var job := s.workers[a.w].excess.value;
    hide WorkerInv, Holds, UniqueActive;
    ReleasingWorker(s, a.w);
    assert HeldInv(s, a.w, job);
    KeepsOthers(s, a.w, job, Next(s, a));
  }

  /** A step by which `w` gives up `job`, and changes no other job's row. */
  lemma KeepsOthers(s: System, w: WorkerId, job: Record, s': System)
    requires Inv(s) && w in s.workers && Holds(s.workers[w], job)
    requires s'.workers.Keys == s.workers.Keys && s'.concurrency == s.concurrency && s'.executions == s.executions
    requires forall v | v in s.workers && v != w :: s'.workers[v] == s.workers[v]
    requires s'.workers[w].started == s.workers[w].started && WorkerInv(s'.workers[w], s.concurrency)
    requires forall r :: Holds(s'.workers[w], r) <==> Holds(s.workers[w], r) && r.id != job.id
    requires s'.jobs.Keys == s.jobs.Keys && forall id | id in s.jobs && id != job.id :: s'.jobs[id] == s.jobs[id]
    requires forall key | key in s'.attempts && key !in s.attempts :: key == AttemptKey(job.id, job.attempts)
    requires if s'.abandoned == s.abandoned + {job.id} then s'.jobs == s.jobs
             else && s'.abandoned == s.abandoned && !s'.jobs[job.id].status.Running?
                  && SameKey(s.jobs[job.id], s'.jobs[job.id])
                  && s'.jobs[job.id].attempts == s.jobs[job.id].attempts
                  && s'.jobs[job.id].maxAttempts == s.jobs[job.id].maxAttempts
                  && (s'.jobs[job.id].status.Pending? ==> Executions(s, job.id) < Limit(s.jobs[job.id]))
    ensures Inv(s')
  {
    hide WorkerInv, Holds;
    assert HeldInv(s, w, job);
    NoNewActive(s.jobs, s'.jobs);
    forall v, r: Record | v in s'.workers && Holds(s'.workers[v], r)
      ensures HeldInv(s', v, r)
    {
      OneHolder(s, w, job, v, r);
      assert HeldInv(s, v, r);
    }
    forall j | j in s'.jobs
      ensures JobInv(s', j)
    {
      assert JobInv(s, j);
    }
    assert forall v | v in s.workers :: WorkerInv(s.workers[v], s.concurrency);
  }

  lemma StartKeeps(s: System, a: Action)
    requires Inv(s) && Enabled(s, a) && a.Start?
    ensures Inv(Next(s, a))
  {
    var s' := Next(s, a);
    var worker := s.workers[a.w];
    assert WorkerInv(worker, s.concurrency);
    assert Holds(worker, a.job);
    assert HeldInv(s, a.w, a.job);
    assert forall job: Record :: Holds(s'.workers[a.w], job) <==> Holds(worker, job);
    var i :| 0 <= i < |worker.batch| && worker.batch[i] == a.job;
    assert worker.batch[i].id in BatchIds(worker.batch);
    assert WorkerInv(s'.workers[a.w], s.concurrency);
    hide WorkerInv, Holds;
    forall w, job: Record | w in s'.workers && Holds(s'.workers[w], job)
      ensures HeldInv(s', w, job)
    {
      assert HeldInv(s, w, job);
      OneHolder(s, a.w, a.job, w, job);
    }
    forall j | j in s'.jobs
      ensures JobInv(s', j)
    {
      assert JobInv(s, j);
    }
  }

  lemma CollapseKeeps(s: System, a: Action)
    requires Inv(s) && Enabled(s, a) && a.CollapseSiblings?
    ensures Inv(Next(s, a))
  {
    hide WorkerInv, Holds;
    var s' := Next(s, a);
    NoNewActive(s.jobs, s'.jobs);
    forall w, job: Record | w in s'.workers && Holds(s'.workers[w], job)
      ensures HeldInv(s', w, job)
    {
      assert HeldInv(s, w, job);
    }
    forall j | j in s'.jobs
      ensures JobInv(s', j)
    {
      assert JobInv(s, j);
    }
  }

  /** The worker after one of its jobs has been settled. */
  lemma SettlingWorker(s: System, w: WorkerId, job: Record)
    requires Inv(s) && w in s.workers && InProgress(s.workers[w], job)
    ensures var worker' := s.workers[w].(settled := s.workers[w].settled + {job.id});
            && Holds(s.workers[w], job) && WorkerInv(worker', s.concurrency)
            && (forall r :: Holds(worker', r) <==> Holds(s.workers[w], r) && r.id != job.id)
  {
    assert WorkerInv(s.workers[w], s.concurrency);
    assert s.workers[w].excess.None?;
  }

  lemma SettleKeeps(s: System, a: Action)
    requires Inv(s) && Enabled(s, a) && a.Settle?
    ensures Inv(Next(s, a))
  {
    hide WorkerInv, Holds, UniqueActive;
    SettlingWorker(s, a.w, a.job);
    assert HeldInv(s, a.w, a.job) && JobInv(s, a.job.id);
    KeepsOthers(s, a.w, a.job, Next(s, a));
  }

  lemma EndKeeps(s: System, a: Action)
    requires Inv(s) && Enabled(s, a) && a.EndBatch?
    ensures Inv(Next(s, a))
  {
    var s' := Next(s, a);
    var worker := s.workers[a.w];
    forall job: Record
      ensures !Holds(worker, job) && !Holds(s'.workers[a.w], job)
    {
      if job in worker.batch {
        var i :| 0 <= i < |worker.batch| && worker.batch[i] == job;
        assert worker.batch[i].id in BatchIds(worker.batch);
      }
    }
    hide Holds;
    forall w, job: Record | w in s'.workers && Holds(s'.workers[w], job)
      ensures HeldInv(s', w, job)
    {
      assert HeldInv(s, w, job);
    }
    forall j | j in s'.jobs
      ensures JobInv(s', j)
    {
      assert JobInv(s, j);
    }
  }

  lemma StepKeepsInv(s: System, a: Action)
    requires Inv(s) && Enabled(s, a)
    ensures Inv(Next(s, a))
  {
    hide Inv, Enabled, Next;
    match a
    case Enqueue(_, target, _, _) =>
      if target.Some? {
        RefreshKeeps(s, a);
      } else {
        InsertKeeps(s, a);
      }
    case BeginBatch(_) => BeginKeeps(s, a);
    case ClaimNext(_, _, _, _) => ClaimKeeps(s, a);
    case ClaimUnreported(_, _, _, _) => UnreportedKeeps(s, a);
    case Release(_, _) => ReleaseKeeps(s, a);
    case Start(_, _) => StartKeeps(s, a);
    case CollapseSiblings(_, _, _) => CollapseKeeps(s, a);
    case Settle(_, _, _, _, _) => SettleKeeps(s, a);
    case EndBatch(_) => EndKeeps(s, a);
  }
}
