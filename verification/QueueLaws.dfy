/** What the queue's statements mean for the claims and enqueues that come after them. */
module QueueLaws {
  import opened Options
  import opened RetryPolicy
  import opened JobQueue

  /** Whenever, whatever is locked and whatever types are asked for: may the job be claimed? */
  ghost predicate SameClaims(a: Jobs, b: Jobs, id: JobId) {
    forall types, locked, now :: Claimable(a, types, locked, now, id) <==> Claimable(b, types, locked, now, id)
  }

  ghost predicate NeverClaimable(jobs: Jobs, id: JobId) {
    forall types, locked, now :: !Claimable(jobs, types, locked, now, id)
  }

  /** Releasing a claim undoes it for every later claim and enqueue: the same jobs are claimable
      and the same keys are taken as before. Only the attempt stays counted. */
  lemma ReleaseUndoesClaim(jobs: Jobs, id: JobId, w: WorkerId, other: JobId, r: Request)
    requires id in jobs && jobs[id].status.Pending? && other in jobs
    ensures var after := ReleaseClaim(JobQueue.Claim(jobs, id, w), id);
            && after.Keys == jobs.Keys && SameClaims(jobs, after, other)
            && (Matches(after[other], r) <==> Matches(jobs[other], r))
            && after[other].attempts == jobs[other].attempts + (if other == id then 1 else 0)
            && (other != id ==> after[other] == jobs[other])
  {
  }

  /** A completed job is never claimable again, its key is free for the next enqueue, and no other
      job is affected. */
  lemma CompletionFreesKey(jobs: Jobs, job: Record, other: JobId, r: Request)
    requires job.id in jobs && other in jobs
    ensures var after := Complete(jobs, job);
            && NeverClaimable(after, job.id) && !Matches(after[job.id], r)
            && (other != job.id ==> SameClaims(jobs, after, other) && after[other] == jobs[other])
  {
  }

  /** A failed job is poisoned, never claimable and its key free, exactly when its attempts are
      used up. Otherwise its key stays taken, and it is claimable exactly from its retry time on;
      that is 5 to 60 seconds later wherever the delay does not overflow. No other job is
      affected. */
  lemma FailureReschedules(jobs: Jobs, job: Record, now: int, t: int, types: set<string>, locked: set<JobId>)
    requires job.id in jobs && job.attempts >= 1
    ensures var after := Fail(jobs, job, now);
            && after.Keys == jobs.Keys && (forall other | other in jobs && other != job.id :: after[other] == jobs[other])
            && (job.attempts >= job.maxAttempts <==> NeverClaimable(after, job.id) && !Active(after[job.id]))
            && (job.attempts < job.maxAttempts ==>
                  && Active(after[job.id])
                  && (Claimable(after, types, locked, t, job.id) <==>
                        t >= after[job.id].availableAt && jobs[job.id].jobType in types && job.id !in locked))
            && (job.attempts < job.maxAttempts && job.attempts < 20 ==>
                  now + 5_000 <= after[job.id].availableAt <= now + 60_000)
  {
    var after := Fail(jobs, job, now);
    if job.attempts < job.maxAttempts {
      DelayOverflowsIff(job.attempts);
      assert Claimable(after, {jobs[job.id].jobType}, {}, after[job.id].availableAt, job.id);
      if job.attempts < 20 {
        DelayIsMonotone(job.attempts, job.attempts);
      }
    }
  }

  /** The jobs that a collapse completes. */
  function Collapsible(jobs: Jobs, job: Record, locked: set<JobId>): set<JobId> {
    set id | id in jobs && id !in locked && Sibling(jobs, job, id)
  }

  /** After a collapse no pending sibling is left but locked ones; every other job, the primary
      itself included, is as claimable as before; and a second collapse finds nothing. */
  lemma CollapseLeavesNoSibling(jobs: Jobs, job: Record, locked: set<JobId>, other: JobId)
    requires other in jobs
    ensures var after := Collapse(jobs, Collapsible(jobs, job, locked));
            && after.Keys == jobs.Keys && Collapsible(after, job, locked) == {}
            && (Sibling(after, job, other) <==> Sibling(jobs, job, other) && other in locked)
            && (Sibling(jobs, job, other) && other !in locked ==> NeverClaimable(after, other))
            && (!Sibling(jobs, job, other) || other in locked ==> after[other] == jobs[other] && SameClaims(jobs, after, other))
            && (job.id in jobs ==> after[job.id] == jobs[job.id])
  {
  }

  // ----- The claim order -----

  /** The row is pending, due, of an asked type, and not locked. */
  predicate IsDue(job: Job, id: JobId, types: set<string>, locked: set<JobId>, now: int) {
    job.status == Pending && job.availableAt <= now && job.jobType in types && id !in locked
  }

  /** The smaller priority number comes first, and among equal ones the older job. */
  predicate Sooner(a: Job, b: Job) {
    a.priority < b.priority || (a.priority == b.priority && a.createdAt < b.createdAt)
  }

  /** The claim query returns a due row before which no other due row comes; and none only if no
      row is due. */
  lemma ClaimIsSoonest(jobs: Jobs, types: set<string>, locked: set<JobId>, now: int, pick: Option<JobId>)
    ensures NextJob(jobs, types, locked, now, pick) <==>
              match pick
              case None => forall id | id in jobs :: !IsDue(jobs[id], id, types, locked, now)
              case Some(j) =>
                && j in jobs && IsDue(jobs[j], j, types, locked, now)
                && forall id | id in jobs && IsDue(jobs[id], id, types, locked, now) :: !Sooner(jobs[id], jobs[j])
  {
    forall id | id in jobs
      ensures Claimable(jobs, types, locked, now, id) <==> IsDue(jobs[id], id, types, locked, now)
    {
    }
    hide Claimable, IsDue;
  }

  /** A job enqueued with a priority number below that of every due row is the next one claimed,
      if it is due and not locked. */
  lemma UrgentJobIsNext(
    jobs: Jobs, r: Request, newId: JobId, created: int, types: set<string>, locked: set<JobId>, now: int, pick: Option<JobId>)
    requires newId !in jobs && r.availableAt <= now && r.jobType in types && newId !in locked
    requires forall id | id in jobs && IsDue(jobs[id], id, types, locked, now) :: r.priority < jobs[id].priority
    requires NextJob(Insert(jobs, newId, r, created), types, locked, now, pick)
    ensures pick == Some(newId)
  {
    var after := Insert(jobs, newId, r, created);
    ClaimIsSoonest(after, types, locked, now, pick);
    assert IsDue(after[newId], newId, types, locked, now);
  }

  /** Enqueueing a waiting job again with such a number makes it the next one as well. */
  lemma UrgentRefreshIsNext(
    jobs: Jobs, id: JobId, r: Request, types: set<string>, locked: set<JobId>, now: int, pick: Option<JobId>)
    requires id in jobs && Matches(jobs[id], r) && jobs[id].status.Pending?
    requires r.availableAt <= now && r.jobType in types && id !in locked
    requires forall other | other in jobs && other != id && IsDue(jobs[other], other, types, locked, now) ::
               r.priority < jobs[other].priority
    requires NextJob(Refresh(jobs, id, r), types, locked, now, pick)
    ensures pick == Some(id)
  {
    var after := Refresh(jobs, id, r);
    ClaimIsSoonest(after, types, locked, now, pick);
    assert IsDue(after[id], id, types, locked, now) && after[id].priority <= r.priority;
  }

  /** Two claims in a row, with nothing changed between them, return two jobs in claim order. */
  lemma ClaimsAscend(jobs: Jobs, types: set<string>, locked: set<JobId>, now: int, a: JobId, w: WorkerId, b: JobId)
    requires NextJob(jobs, types, locked, now, Some(a))
    requires NextJob(JobQueue.Claim(jobs, a, w), types, locked, now, Some(b))
    ensures a != b && b in jobs && !Sooner(jobs[b], jobs[a])
  {
    ClaimIsSoonest(jobs, types, locked, now, Some(a));
    ClaimIsSoonest(JobQueue.Claim(jobs, a, w), types, locked, now, Some(b));
  }

  // ----- Enqueueing -----

  /** Enqueueing an active job again keeps the earlier time and the smaller priority number, takes
      the new payload, and changes nothing else. */
  lemma RefreshKeepsTheUrgent(jobs: Jobs, id: JobId, r: Request)
    requires id in jobs
    ensures var before, after := jobs[id], Refresh(jobs, id, r);
            && after.Keys == jobs.Keys && (forall other | other in jobs && other != id :: after[other] == jobs[other])
            && after[id].availableAt <= before.availableAt && after[id].availableAt <= r.availableAt
            && (after[id].availableAt == before.availableAt || after[id].availableAt == r.availableAt)
            && after[id].priority <= before.priority && after[id].priority <= r.priority
            && (after[id].priority == before.priority || after[id].priority == r.priority)
            && after[id] == before.(payload := r.payload, availableAt := after[id].availableAt, priority := after[id].priority)
  {
  }

  /** A new job waits, unclaimed and unattempted, with everything the request asks for. */
  lemma InsertTakesTheRequest(jobs: Jobs, id: JobId, r: Request, now: int)
    requires id !in jobs
    ensures var after := Insert(jobs, id, r, now);
            && after.Keys == jobs.Keys + {id} && (forall other | other in jobs :: after[other] == jobs[other])
            && after[id] == Job(r.project, r.jobType, r.dedupeKey, Pending, r.priority, 0, r.maxAttempts, r.availableAt, now, r.payload, Nobody)
  {
  }

  /** The collapse completes exactly the other pending jobs of the primary's project and type that
      are not locked. */
  lemma CollapseOnColumns(jobs: Jobs, job: Record, locked: set<JobId>, id: JobId)
    requires id in jobs
    ensures id in Collapsible(jobs, job, locked) <==>
              && id != job.id && id !in locked && jobs[id].status == Pending
              && jobs[id].project == job.project && jobs[id].jobType == job.jobType
    ensures Collapse(jobs, Collapsible(jobs, job, locked))[id]
            == if id in Collapsible(jobs, job, locked) then jobs[id].(status := Completed, holder := ByCollapse) else jobs[id]
  {
  }
}
