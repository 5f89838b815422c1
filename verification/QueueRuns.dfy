/** Whole runs of the queue protocol: exclusivity, absorbing states, and the drain. */
module QueueRuns {
  import opened Sets
  import opened Options
  import opened RetryPolicy
  import opened JobQueue
  import opened QueueProtocol

  ghost predicate Possible(s: System, actions: seq<Action>)
    decreases |actions|
  {
    actions == [] || (Enabled(s, actions[0]) && Possible(Next(s, actions[0]), actions[1..]))
  }

  ghost function Run(s: System, actions: seq<Action>): System
    requires Possible(s, actions)
    decreases |actions|
  {
    if actions == [] then s else Run(Next(s, actions[0]), actions[1..])
  }

  /** An empty queue and idle workers. */
  ghost predicate Initial(s: System) {
    && s.jobs == map[] && s.attempts == map[] && s.executions == map[] && s.abandoned == {}
    && forall w | w in s.workers :: s.workers[w] == IDLE
  }

  lemma InitialInv(s: System)
    requires Initial(s)
    ensures Inv(s)
  {
  }

  lemma {:induction false} RunKeepsInv(s: System, actions: seq<Action>)
    requires Inv(s) && Possible(s, actions)
    ensures Inv(Run(s, actions))
    decreases |actions|
  {
    if actions != [] {
      StepKeepsInv(s, actions[0]);
      RunKeepsInv(Next(s, actions[0]), actions[1..]);
    }
  }

  // ----- Exclusivity -----

  ghost predicate HoldsId(s: System, w: WorkerId, id: JobId) {
    w in s.workers && exists job: Record :: Holds(s.workers[w], job) && job.id == id
  }

  ghost predicate Exclusive(s: System) {
    // at most one pending or running job for a project, type and dedupe key
    && (forall a, b | a in s.jobs && b in s.jobs && a != b && Active(s.jobs[a]) && Active(s.jobs[b]) ::
          !(s.jobs[a].project == s.jobs[b].project && s.jobs[a].jobType == s.jobs[b].jobType
            && s.jobs[a].dedupeKey == s.jobs[b].dedupeKey))
    // a running job has a holder, unless its holder could not write its result or was not told
    && (forall id | id in s.jobs && s.jobs[id].status.Running? && id !in s.abandoned :: exists w :: HoldsId(s, w, id))
    // no job has two holders, and only running jobs have one
    && (forall id, v, w | HoldsId(s, v, id) && HoldsId(s, w, id) :: v == w)
    && (forall id, w | HoldsId(s, w, id) :: id in s.jobs && s.jobs[id].status.Running? && id !in s.abandoned)
    // a batch holds at most `concurrency` distinct jobs, at most one of them heavy
    && (forall w | w in s.workers ::
          var batch := s.workers[w].batch;
          && |batch| <= s.concurrency
          && forall i, j | 0 <= i < j < |batch| ::
               && batch[i].id != batch[j].id
               && !(batch[i].jobType == "build-knowledge-graph" && batch[j].jobType == "build-knowledge-graph"))
    // no job is executed more often than its attempts allow, or than once
    && (forall id | id in s.jobs :: Executions(s, id) <= 1 || Executions(s, id) <= s.jobs[id].maxAttempts)
  }

  lemma InvMeansExclusive(s: System)
    requires Inv(s)
    ensures Exclusive(s)
  {
    forall id | id in s.jobs && s.jobs[id].status.Running? && id !in s.abandoned
      ensures exists w :: HoldsId(s, w, id)
    {
      assert JobInv(s, id);
      assert HoldsId(s, s.jobs[id].holder.w, id);
    }
    forall id, v, w | HoldsId(s, v, id) && HoldsId(s, w, id)
      ensures v == w
    {
      var a: Record :| Holds(s.workers[v], a) && a.id == id;
      var b: Record :| Holds(s.workers[w], b) && b.id == id;
      OneHolder(s, v, a, w, b);
    }
    forall id, w | HoldsId(s, w, id)
      ensures id in s.jobs && s.jobs[id].status.Running? && id !in s.abandoned
    {
      var a: Record :| Holds(s.workers[w], a) && a.id == id;
      assert HeldInv(s, w, a);
    }
    forall w | w in s.workers
      ensures WorkerInv(s.workers[w], s.concurrency)
    {
    }
    forall id | id in s.jobs
      ensures JobInv(s, id)
    {
    }
  }

  /** Over every interleaving of any number of workers, from an empty queue. */
  lemma RunIsExclusive(s: System, actions: seq<Action>)
    requires Initial(s) && Possible(s, actions)
    ensures Exclusive(Run(s, actions))
  {
    InitialInv(s);
    RunKeepsInv(s, actions);
    InvMeansExclusive(Run(s, actions));
  }

  // ----- What no step undoes -----

  /** A completed or poisoned job never changes again; a collapse leaves running jobs alone;
      a row of `worker_job_attempts` is never overwritten; executions are never forgotten. */
  ghost predicate Preserves(s: System, s': System) {
    && (forall id | id in s.jobs :: id in s'.jobs && s'.jobs[id].maxAttempts == s.jobs[id].maxAttempts)
    && (forall id | id in s.jobs && (s.jobs[id].status.Completed? || s.jobs[id].status.Poisoned?) ::
          s'.jobs[id] == s.jobs[id])
    && (forall key | key in s.attempts :: key in s'.attempts && s'.attempts[key] == s.attempts[key])
    && (forall id | id in s.jobs :: Executions(s', id) >= Executions(s, id) && s'.jobs[id].attempts >= s.jobs[id].attempts)
  }

  /** A step that changes one running row, and may add one attempt row. */
  lemma OneRowPreserves(s: System, s': System, id: JobId, key: AttemptKey)
    requires id in s.jobs && s.jobs[id].status.Running? && s'.jobs.Keys == s.jobs.Keys
    requires forall j | j in s.jobs && j != id :: s'.jobs[j] == s.jobs[j]
    requires s'.jobs[id].maxAttempts == s.jobs[id].maxAttempts && s'.jobs[id].attempts == s.jobs[id].attempts
    requires s'.executions == s.executions && key !in s.attempts
    requires forall k | k in s.attempts && k != key :: k in s'.attempts && s'.attempts[k] == s.attempts[k]
    ensures Preserves(s, s')
  {
  }

  /** A release or a settlement changes one row only, and that row is running. */
  lemma HeldStepPreserves(s: System, a: Action, w: WorkerId, job: Record)
    requires Inv(s) && Enabled(s, a) && w in s.workers && Holds(s.workers[w], job)
    requires (a == Release(w, true) && s.workers[w].excess == Some(job)) || (a.Settle? && a.w == w && a.job == job && a.written)
    ensures Preserves(s, Next(s, a))
  {
    assert HeldInv(s, w, job);
    hide Inv, Holds, Enabled, Preserves;
    OneRowPreserves(s, Next(s, a), job.id, AttemptKey(job.id, job.attempts));
  }

  /** The other steps write no row that is completed, poisoned or running. */
  lemma FreeStepPreserves(s: System, a: Action)
    requires Enabled(s, a) && (a.Release? ==> !a.written) && (a.Settle? ==> !a.written)
    ensures Preserves(s, Next(s, a))
  {
  }

  lemma StepPreserves(s: System, a: Action)
    requires Inv(s) && Enabled(s, a)
    ensures Preserves(s, Next(s, a))
  {
    hide Inv, Next, Preserves;
    if a.Release? && a.written {
      HeldStepPreserves(s, a, a.w, s.workers[a.w].excess.value);
    } else if a.Settle? && a.written {
      HeldStepPreserves(s, a, a.w, a.job);
    } else {
      FreeStepPreserves(s, a);
    }
  }

  lemma CollapseSparesRunning(s: System, a: Action, id: JobId)
    requires Inv(s) && Enabled(s, a) && a.CollapseSiblings? && id in s.jobs && !s.jobs[id].status.Pending?
    ensures id in Next(s, a).jobs && Next(s, a).jobs[id] == s.jobs[id]
  {
    hide Inv;
    assert id in a.siblings ==> Sibling(s.jobs, a.job, id);
  }

  lemma {:induction false} RunPreserves(s: System, actions: seq<Action>)
    requires Inv(s) && Possible(s, actions)
    ensures Preserves(s, Run(s, actions))
    decreases |actions|
  {
    hide Inv, Next, Enabled;
    if actions != [] {
      StepKeepsInv(s, actions[0]);
      StepPreserves(s, actions[0]);
      RunPreserves(Next(s, actions[0]), actions[1..]);
    }
  }

  // ----- The drain -----

  /** The executions a job may still have, one token each. */
  ghost function Remaining(s: System): set<(JobId, int)> {
    set id, k | id in s.jobs && Executions(s, id) <= k < Limit(s.jobs[id]) :: (id, k)
  }

  /** The workers whose current batch has started a job. */
  ghost function Busy(s: System): set<WorkerId> {
    set w | w in s.workers && s.workers[w].started != {}
  }

  /** Twice the executions still possible, and one for each batch under way. */
  ghost function Potential(s: System): nat {
    2 * |Remaining(s)| + |Busy(s)|
  }

  /** `run_batch` returns a positive number. */
  predicate NonemptyBatch(s: System, a: Action) {
    a.EndBatch? && a.w in s.workers && s.workers[a.w].batch != []
  }

  /** A job about to be started has executions left. */
  lemma StartHasToken(s: System, a: Action)
    requires Inv(s) && Enabled(s, a) && a.Start?
    ensures a.job.id in s.jobs && Executions(s, a.job.id) < Limit(s.jobs[a.job.id])
  {
    hide UniqueActive, JobInv;
    assert WorkerInv(s.workers[a.w], s.concurrency);
    assert Holds(s.workers[a.w], a.job);
    assert HeldInv(s, a.w, a.job);
  }

  lemma StartUsesToken(s: System, a: Action)
    requires Inv(s) && Enabled(s, a) && a.Start?
    ensures |Remaining(Next(s, a))| + 1 <= |Remaining(s)|
  {
    hide Inv;
    StartHasToken(s, a);
    var s' := Next(s, a);
    var token := (a.job.id, Executions(s, a.job.id));
    assert token in Remaining(s) && token !in Remaining(s');
    assert Remaining(s') <= Remaining(s) - {token};
    SubsetSize(Remaining(s'), Remaining(s) - {token});
  }

  lemma SameRows(s: System, a: Action)
    requires Enabled(s, a) && !a.Start? && !a.Enqueue?
    ensures Next(s, a).executions == s.executions && Next(s, a).jobs.Keys == s.jobs.Keys
  {
  }

  lemma SameRemaining(s: System, a: Action)
    requires Inv(s) && Enabled(s, a) && !a.Start? && !a.Enqueue?
    ensures Remaining(Next(s, a)) == Remaining(s)
  {
    hide Inv, Next, Enabled;
    StepPreserves(s, a);
    SameRows(s, a);
    assert forall id | id in s.jobs :: Executions(Next(s, a), id) == Executions(s, id);
  }

  /** Without new enqueues the potential never grows, and every batch that processed a job
      uses some of it. */
  lemma StepUsesPotential(s: System, a: Action)
    requires Inv(s) && Enabled(s, a) && !a.Enqueue?
    ensures Potential(Next(s, a)) + (if NonemptyBatch(s, a) then 1 else 0) <= Potential(s)
  {
    var s' := Next(s, a);
    if a.Start? {
      StartUsesToken(s, a);
      assert Busy(s') <= Busy(s) + {a.w};
      SubsetSize(Busy(s'), Busy(s) + {a.w});
    } else {
      SameRemaining(s, a);
      BusyShrinks(s, a);
    }
  }

  lemma BusyShrinks(s: System, a: Action)
    requires Inv(s) && Enabled(s, a) && !a.Start? && !a.Enqueue?
    ensures |Busy(Next(s, a))| + (if NonemptyBatch(s, a) then 1 else 0) <= |Busy(s)|
  {
    hide UniqueActive, JobInv, Holds, HeldInv;
    var s' := Next(s, a);
    if NonemptyBatch(s, a) {
      var worker := s.workers[a.w];
      assert WorkerInv(worker, s.concurrency);
      assert worker.batch[0].id in BatchIds(worker.batch);
      assert a.w in Busy(s);
      assert Busy(s') <= Busy(s) - {a.w};
      SubsetSize(Busy(s'), Busy(s) - {a.w});
    } else {
      assert Busy(s') <= Busy(s);
      SubsetSize(Busy(s'), Busy(s));
    }
  }

  ghost function NonemptyBatches(s: System, actions: seq<Action>): nat
    requires Possible(s, actions)
    decreases |actions|
  {
    if actions == [] then 0
    else (if NonemptyBatch(s, actions[0]) then 1 else 0) + NonemptyBatches(Next(s, actions[0]), actions[1..])
  }

  /** The batch loop ends: as long as nothing is enqueued, however the workers interleave and
      however often jobs are released, fail or are retried, at most `Potential(s)` batches
      process any job. */
  lemma {:induction false} BatchLoopEnds(s: System, actions: seq<Action>)
    requires Inv(s) && Possible(s, actions) && forall a | a in actions :: !a.Enqueue?
    ensures NonemptyBatches(s, actions) + Potential(Run(s, actions)) <= Potential(s)
    decreases |actions|
  {
    hide Inv, Next, Enabled, Potential;
    if actions != [] {
      StepKeepsInv(s, actions[0]);
      StepUsesPotential(s, actions[0]);
      BatchLoopEnds(Next(s, actions[0]), actions[1..]);
    }
  }
}
