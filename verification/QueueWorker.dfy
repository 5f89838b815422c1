/** The queue's statements as methods on the tables, and the worker's batch loop, which takes
    only steps of the protocol. */
module QueueWorker {
  import opened Sets
  import opened Options
  import opened RetryPolicy
  import opened JobQueue
  import opened QueueLaws
  import opened QueueProtocol
  import opened QueueRuns

  /** What a worker cannot decide: rows locked by others, the clock, which statements are
      committed and reported, which jobs succeed, which of its running jobs moves next, and what
      all others do in between. */
  datatype Environment = Environment(
    locked: nat -> set<JobId>, now: nat -> int, reported: nat -> bool, released: nat -> bool,
    lockedSiblings: JobId -> set<JobId>, succeeds: JobId -> bool, settles: JobId -> bool, settledAt: JobId -> int,
    turn: nat -> nat, others: nat -> seq<Action>)

  /** The others enqueue nothing. */
  ghost predicate NoEnqueues(env: Environment) {
    forall n: nat, i: nat | i < |env.others(n)| :: !env.others(n)[i].Enqueue?
  }

  /** The worker that takes the step; an enqueue is nobody's. */
  predicate By(a: Action, w: WorkerId) {
    match a
    case Enqueue(_, _, _, _) => false
    case BeginBatch(v) => v == w
    case ClaimNext(v, _, _, _) => v == w
    case ClaimUnreported(v, _, _, _) => v == w
    case Release(v, _) => v == w
    case Start(v, _) => v == w
    case CollapseSiblings(v, _, _) => v == w
    case Settle(v, _, _, _, _) => v == w
    case EndBatch(v) => v == w
  }

  /** How far a job of the batch has come. */
  datatype Phase = Waiting | Started | Collapsed | Settled

  // ----- The claim order -----

  ghost predicate First(jobs: Jobs, pool: set<JobId>, id: JobId) {
    && id in pool && (forall other | other in pool :: other in jobs)
    && forall other | other in pool :: NotAfter(jobs[id], jobs[other])
  }

  /** The claim query returns a row whenever one is claimable. */
  lemma {:induction false} SomeFirst(jobs: Jobs, pool: set<JobId>)
    requires pool != {} && forall id | id in pool :: id in jobs
    ensures exists id :: First(jobs, pool, id)
    decreases |pool|
  {
    HasMember(pool);
    var id :| id in pool;
    var rest := pool - {id};
    if rest == {} {
      assert forall other | other in pool && other != id :: other in rest;
      assert First(jobs, pool, id);
    } else {
      SomeFirst(jobs, rest);
      var first :| First(jobs, rest, first);
      assert First(jobs, pool, if NotAfter(jobs[id], jobs[first]) then id else first);
    }
  }

  lemma {:induction false} RunAppend(s: System, actions: seq<Action>, a: Action)
    requires Possible(s, actions) && Enabled(Run(s, actions), a)
    ensures Possible(s, actions + [a]) && Run(s, actions + [a]) == Next(Run(s, actions), a)
    decreases |actions|
  {
    hide Enabled, Next;
    if actions == [] {
      assert actions + [a] == [a] && [a][1..] == [];
      assert Possible(Next(s, a), []);
    } else {
      assert (actions + [a])[1..] == actions[1..] + [a];
      RunAppend(Next(s, actions[0]), actions[1..], a);
    }
  }

  // ----- What one worker does -----

  /** The worker's own steps. */
  ghost function Own(actions: seq<Action>, w: WorkerId): seq<Action> {
    if actions == [] then []
    else
      var n := |actions| - 1;
      Own(actions[..n], w) + if By(actions[n], w) then [actions[n]] else []
  }

  lemma OwnAppend(actions: seq<Action>, a: Action, w: WorkerId)
    ensures Own(actions + [a], w) == Own(actions, w) + if By(a, w) then [a] else []
  {
    assert (actions + [a])[..|actions|] == actions;
  }

  /** The `i`-th claim found a job and was told so. */
  predicate Found(a: Action, w: WorkerId, env: Environment, i: nat) {
    match a
    case ClaimNext(v, pick, locked, now) => v == w && pick.Some? && locked == env.locked(i) && now == env.now(i) && env.reported(i)
    case _ => false
  }

  /** The `i`-th claim found no job, or was not told of it. */
  predicate FoundNone(a: Action, w: WorkerId, env: Environment, i: nat) {
    match a
    case ClaimNext(v, pick, locked, now) => v == w && pick.None? && locked == env.locked(i) && now == env.now(i)
    case ClaimUnreported(v, _, locked, now) => v == w && locked == env.locked(i) && now == env.now(i) && !env.reported(i)
    case _ => false
  }

  /** The steps are `n` claims that found a job, some followed by a release. */
  ghost predicate Claims(steps: seq<Action>, w: WorkerId, env: Environment, n: nat) {
    if n == 0 then steps == []
    else
      var k := |steps| - 1;
      && k >= 0
      && if steps[k].Release? then
           steps[k] == Release(w, env.released(n - 1)) && k > 0 && Found(steps[k - 1], w, env, n - 1) && Claims(steps[..k - 1], w, env, n - 1)
         else Found(steps[k], w, env, n - 1) && Claims(steps[..k], w, env, n - 1)
  }

  /** All `concurrency` claims are made, unless one finds nothing or is not told of its job. */
  ghost predicate AllClaims(steps: seq<Action>, w: WorkerId, env: Environment, concurrency: nat) {
    || Claims(steps, w, env, concurrency)
    || exists n :: 0 <= n < concurrency && ClaimsUntil(steps, w, env, n)
  }

  ghost predicate ClaimsUntil(steps: seq<Action>, w: WorkerId, env: Environment, n: nat) {
    var k := |steps| - 1;
    k >= 0 && FoundNone(steps[k], w, env, n) && Claims(steps[..k], w, env, n)
  }

  /** The `i`-th claim is this step, and the worker is told of that job. */
  predicate Answers(a: Action, w: WorkerId, env: Environment, i: nat, job: Option<Record>) {
    if job.Some? then Found(a, w, env, i) && a.pick == Some(job.value.id) else FoundNone(a, w, env, i)
  }

  /** What the worker then knows: it makes no more claims, or has a job more. */
  function AfterAnswer(worker: Worker, job: Option<Record>): Worker
    requires worker.slots > 0
  {
    match job
    case None => worker.(slots := 0)
    case Some(r) =>
      if Heavy(r.jobType) && HasHeavy(worker.batch) then worker.(slots := worker.slots - 1, excess := job)
      else worker.(slots := worker.slots - 1, batch := worker.batch + [r])
  }

  lemma OneMoreClaim(steps: seq<Action>, w: WorkerId, env: Environment, concurrency: nat, n: nat, a: Action, job: Option<Record>)
    requires Claims(steps, w, env, n) && n < concurrency && Answers(a, w, env, n, job)
    ensures job.Some? ==>
              && Claims(steps + [a], w, env, n + 1)
              && Claims(steps + [a] + [Release(w, env.released(n))], w, env, n + 1)
    ensures job.None? ==> AllClaims(steps + [a], w, env, concurrency)
  {
    var r := Release(w, env.released(n));
    assert (steps + [a])[..|steps|] == steps && (steps + [a] + [r])[..|steps|] == steps;
    hide Claims;
    Unfold(steps + [a], w, env, n + 1);
    Unfold(steps + [a] + [r], w, env, n + 1);
    assert job.None? ==> ClaimsUntil(steps + [a], w, env, n);
  }

  lemma NoClaims(w: WorkerId, env: Environment)
    ensures Claims([], w, env, 0) && !HasHeavy([])
  {
  }

  lemma EnoughClaims(steps: seq<Action>, w: WorkerId, env: Environment, concurrency: nat)
    ensures Claims(steps, w, env, concurrency) ==> AllClaims(steps, w, env, concurrency)
  {
  }

  lemma Unfold(steps: seq<Action>, w: WorkerId, env: Environment, n: nat)
    requires n > 0 && steps != []
    ensures var k := |steps| - 1;
            Claims(steps, w, env, n) <==>
              if steps[k].Release? then
                steps[k] == Release(w, env.released(n - 1)) && k > 0 && Found(steps[k - 1], w, env, n - 1) && Claims(steps[..k - 1], w, env, n - 1)
              else Found(steps[k], w, env, n - 1) && Claims(steps[..k], w, env, n - 1)
  {
  }

  /** How the job's own result is written. */
  function ItsSettle(w: WorkerId, job: Record, env: Environment): Action {
    Settle(w, job, env.succeeds(job.id), env.settles(job.id), env.settledAt(job.id))
  }

  /** The step of one move of a job. */
  function MoveSteps(w: WorkerId, job: Record, phase: Phase, env: Environment, jobs: Jobs): seq<Action> {
    match phase
    case Waiting => [Start(w, job)]
    case Started =>
      if job.jobType in {"sync-chroma-index", "build-knowledge-graph"}
      then [CollapseSiblings(w, job, Collapsible(jobs, job, env.lockedSiblings(job.id)))] else []
    case Collapsed => [ItsSettle(w, job, env)]
    case Settled => []
  }

  ghost predicate HasCollapsed(steps: seq<Action>, w: WorkerId, job: Record) {
    exists siblings :: CollapseSiblings(w, job, siblings) in steps
  }

  /** What has been done for a job in this phase. */
  ghost predicate DoneFor(steps: seq<Action>, w: WorkerId, job: Record, phase: Phase, env: Environment) {
    && (!phase.Waiting? ==> Start(w, job) in steps)
    && (phase.Collapsed? || phase.Settled? ==>
          (job.jobType in {"sync-chroma-index", "build-knowledge-graph"} ==> HasCollapsed(steps, w, job)))
    && (phase.Settled? ==> ItsSettle(w, job, env) in steps)
  }

  /** The step starts or collapses for a job of the list, or writes the result it has. */
  ghost predicate IsForOne(a: Action, w: WorkerId, todo: seq<Record>, env: Environment) {
    match a
    case Start(_, job) => a == Start(w, job) && job in todo
    case CollapseSiblings(_, job, siblings) => a == CollapseSiblings(w, job, siblings) && job in todo
    case Settle(_, job, _, _, _) => a == ItsSettle(w, job, env) && job in todo
    case _ => false
  }

  ghost predicate Runs(steps: seq<Action>, w: WorkerId, todo: seq<Record>, phases: seq<Phase>, env: Environment)
    requires |todo| == |phases|
  {
    && (forall i | 0 <= i < |todo| :: DoneFor(steps, w, todo[i], phases[i], env))
    && (forall a | a in steps :: IsForOne(a, w, todo, env))
  }

  /** Every job of the list is started and collapses its siblings if it has to, and its result is
      written as it is; nothing else is done. */
  ghost predicate RunsAll(steps: seq<Action>, w: WorkerId, todo: seq<Record>, env: Environment) {
    && (forall job | job in todo :: DoneFor(steps, w, job, Settled, env))
    && (forall a | a in steps :: IsForOne(a, w, todo, env))
  }

  lemma RunsOneMove(
    steps: seq<Action>, w: WorkerId, todo: seq<Record>, phases: seq<Phase>, env: Environment, i: nat, jobs: Jobs)
    requires |todo| == |phases| && i < |todo| && Runs(steps, w, todo, phases, env) && !phases[i].Settled?
    ensures Runs(steps + MoveSteps(w, todo[i], phases[i], env, jobs), w, todo, phases[i := After(phases[i])], env)
  {
    var moved, after := phases[i := After(phases[i])], steps + MoveSteps(w, todo[i], phases[i], env, jobs);
    MoreIsDone(steps, MoveSteps(w, todo[i], phases[i], env, jobs), w, todo[i], phases[i], env, jobs);
    hide Collapsible, ItsSettle, DoneFor;
    forall k | 0 <= k < |todo|
      ensures DoneFor(after, w, todo[k], moved[k], env)
    {
      StillDone(steps, MoveSteps(w, todo[i], phases[i], env, jobs), w, todo[k], phases[k], env);
    }
    assert todo[i] in todo;
    forall a | a in after
      ensures IsForOne(a, w, todo, env)
    {
      assert a in steps || a in MoveSteps(w, todo[i], phases[i], env, jobs);
      MoveIsForOne(w, todo, i, phases[i], env, jobs);
    }
  }

  lemma NothingRun(w: WorkerId, todo: seq<Record>, phases: seq<Phase>, env: Environment)
    requires |todo| == |phases| && forall i | 0 <= i < |phases| :: phases[i].Waiting?
    ensures Runs([], w, todo, phases, env)
  {
  }

  lemma OwnMove(
    trace: seq<Action>, own: seq<Action>, steps: seq<Action>, w: WorkerId, job: Record, phase: Phase, env: Environment, jobs: Jobs)
    requires Own(trace, w) == own + steps
    ensures var more := MoveSteps(w, job, phase, env, jobs);
            Own(trace + more, w) == own + (steps + more)
  {
    hide Own, Collapsible;
    var more := MoveSteps(w, job, phase, env, jobs);
    if more == [] {
      assert trace + more == trace && steps + more == steps;
    } else {
      assert more == [more[0]];
      assert By(more[0], w);
      OwnAppend(trace, more[0], w);
    }
  }

  lemma AllRun(steps: seq<Action>, w: WorkerId, todo: seq<Record>, phases: seq<Phase>, env: Environment)
    requires |todo| == |phases| && Runs(steps, w, todo, phases, env) && !Unfinished(phases)
    ensures RunsAll(steps, w, todo, env)
  {
    hide DoneFor, IsForOne;
    forall job | job in todo
      ensures DoneFor(steps, w, job, Settled, env)
    {
      var i :| 0 <= i < |todo| && todo[i] == job;
      assert phases[i].Settled?;
    }
  }

  lemma MoveIsForOne(w: WorkerId, todo: seq<Record>, i: nat, phase: Phase, env: Environment, jobs: Jobs)
    requires i < |todo|
    ensures forall a | a in MoveSteps(w, todo[i], phase, env, jobs) :: IsForOne(a, w, todo, env)
  {
  }

  lemma StillDone(steps: seq<Action>, more: seq<Action>, w: WorkerId, job: Record, phase: Phase, env: Environment)
    requires DoneFor(steps, w, job, phase, env)
    ensures DoneFor(steps + more, w, job, phase, env)
  {
    if siblings :| CollapseSiblings(w, job, siblings) in steps {
      assert CollapseSiblings(w, job, siblings) in steps + more;
    }
  }

  lemma MoreIsDone(
    steps: seq<Action>, more: seq<Action>, w: WorkerId, job: Record, phase: Phase, env: Environment, jobs: Jobs)
    requires DoneFor(steps, w, job, phase, env) && more == MoveSteps(w, job, phase, env, jobs)
    ensures DoneFor(steps + more, w, job, After(phase), env)
  {
    StillDone(steps, more, w, job, phase, env);
    hide Collapsible;
    assert more != [] ==> more[0] in steps + more;
  }

  /** One batch: all claims, then every job that was kept, and nothing else. */
  ghost predicate WholeBatch(steps: seq<Action>, w: WorkerId, env: Environment, concurrency: nat, batch: seq<Record>) {
    exists claims, runs ::
      steps == [BeginBatch(w)] + claims + runs + [EndBatch(w)] && AllClaims(claims, w, env, concurrency) && RunsAll(runs, w, batch, env)
  }

  lemma BatchIsWhole(
    own: seq<Action>, claims: seq<Action>, runs: seq<Action>, w: WorkerId, env: Environment, concurrency: nat,
    todo: seq<Record>, batch: seq<Record>)
    requires AllClaims(claims, w, env, concurrency) && RunsAll(runs, w, todo, env)
    requires forall job :: job in todo <==> job in batch
    ensures var steps := [BeginBatch(w)] + claims + runs + [EndBatch(w)];
            own + [BeginBatch(w)] + claims + runs + [EndBatch(w)] == own + steps && WholeBatch(steps, w, env, concurrency, batch)
  {
    hide AllClaims, DoneFor;
    forall a | a in runs
      ensures IsForOne(a, w, batch, env)
    {
      assert IsForOne(a, w, todo, env);
    }
    assert RunsAll(runs, w, batch, env);
  }

  // ----- The tables -----

  class Queue {
    var jobs: Jobs
    var attempts: Attempts
    /** The tables, and what every worker is doing. */
    var sys: System
    /** How often the others have had their turn. */
    var turns: nat
    ghost var start: System
    ghost var trace: seq<Action>

    /** The tables are those of a state the protocol reaches, by `trace`, from an empty queue. */
    ghost predicate Valid()
      reads this
    {
      && sys.jobs == jobs && sys.attempts == attempts && Reached()
    }

    ghost predicate Reached()
      reads this`start, this`sys, this`trace
    {
      Initial(start) && Possible(start, trace) && Run(start, trace) == sys && Inv(sys)
    }

    constructor (workers: set<WorkerId>, concurrency: nat)
      ensures Valid() && sys.workers == (map w | w in workers :: IDLE) && sys.concurrency == concurrency
    {
      jobs, attempts, turns := map[], map[], 0;
      start := System(map[], map[], map w | w in workers :: IDLE, map[], {}, concurrency);
      sys := System(map[], map[], map w | w in workers :: IDLE, map[], {}, concurrency);
      trace := [];
      new;
      InitialInv(start);
    }

    /** One step of the protocol. */
    method Take(a: Action)
      requires Reached() && Enabled(sys, a)
      modifies this`sys, this`trace
      ensures Reached() && sys == Next(old(sys), a) && trace == old(trace) + [a]
      ensures !a.Enqueue? ==> Potential(sys) + (if NonemptyBatch(old(sys), a) then 1 else 0) <= Potential(old(sys))
    {
      hide Inv, Enabled, Next, Potential, NonemptyBatch;
      RunAppend(start, trace, a);
      StepKeepsInv(sys, a);
      if !a.Enqueue? {
        StepUsesPotential(sys, a);
      }
      trace := trace + [a];
      sys := Next(sys, a);
    }

    /** The others' turn: any steps of theirs that are possible when they come. What `w` is doing
        is not touched. */
    method OthersAct(w: WorkerId, env: Environment)
      requires Valid() && w in sys.workers
      modifies this
      ensures Valid() && sys.concurrency == old(sys.concurrency)
      ensures w in sys.workers && sys.workers[w] == old(sys.workers[w]) && Own(trace, w) == Own(old(trace), w)
      ensures NoEnqueues(env) ==> Potential(sys) <= Potential(old(sys))
    {
      hide Inv, Enabled, Next, Potential, Initial, Possible, Run, Own;
      var actions := env.others(turns);
      turns := turns + 1;
      for i := 0 to |actions|
        invariant Reached() && sys.concurrency == old(sys.concurrency)
        invariant w in sys.workers && sys.workers[w] == old(sys.workers[w]) && Own(trace, w) == Own(old(trace), w)
        invariant NoEnqueues(env) ==> Potential(sys) <= Potential(old(sys))
      {
        if !By(actions[i], w) && Enabled(sys, actions[i]) {
          OthersLeaveWorker(sys, actions[i], w);
          OwnAppend(trace, actions[i], w);
          Take(actions[i]);
        }
      }
      jobs, attempts := sys.jobs, sys.attempts;
    }

    // ----- Statements -----

    /** The active job with the request's key is refreshed; if there is none, one is inserted. */
    method EnqueueWorkerJob(r: Request, newId: JobId, now: int) returns (id: JobId)
      requires Valid() && newId !in jobs
      modifies this
      ensures Valid() && attempts == old(attempts) && sys.workers == old(sys.workers)
      ensures if exists j :: j in old(jobs) && Matches(old(jobs)[j], r)
              then id in old(jobs) && Matches(old(jobs)[id], r) && jobs == Refresh(old(jobs), id, r)
              else id == newId && jobs == Insert(old(jobs), newId, r, now)
      ensures id in jobs && jobs[id].project == r.project && jobs[id].jobType == r.jobType && jobs[id].dedupeKey == r.dedupeKey
      ensures (jobs[id].status == Pending || jobs[id].status == Running) && jobs[id].payload == r.payload
      ensures jobs[id].priority <= r.priority && jobs[id].availableAt <= r.availableAt
      ensures forall other | other in old(jobs) && other != id :: other in jobs && jobs[other] == old(jobs)[other]
    {
      if j :| j in jobs && Matches(jobs[j], r) {
        Take(Enqueue(r, Some(j), newId, now));
        id, jobs := j, Refresh(jobs, j, r);
      } else {
        Take(Enqueue(r, None, newId, now));
        id, jobs := newId, Insert(jobs, newId, r, now);
      }
    }

    /** Claims the first claimable job, if any row is claimable. */
    method ClaimNextWorkerJob(w: WorkerId, types: set<string>, locked: set<JobId>, now: int) returns (job: Option<Record>)
      modifies this`jobs
      ensures match job
              case None => NextJob(old(jobs), types, locked, now, None) && jobs == old(jobs)
              case Some(r) =>
                && NextJob(old(jobs), types, locked, now, Some(r.id))
                && jobs == JobQueue.Claim(old(jobs), r.id, w) && r == RecordOf(jobs, r.id)
                && jobs[r.id].status == Running && jobs[r.id].holder == ByWorker(w)
                && jobs[r.id].attempts == old(jobs)[r.id].attempts + 1
                && (forall id | id in old(jobs) && IsDue(old(jobs)[id], id, types, locked, now) ::
                      !Sooner(old(jobs)[id], old(jobs)[r.id]))
    {
      var pool := set id | id in jobs && Claimable(jobs, types, locked, now, id);
      if pool == {} {
        assert forall id | Claimable(jobs, types, locked, now, id) :: id in pool;
        return None;
      }
      SomeFirst(jobs, pool);
      var id :| id in pool && forall other | other in pool :: NotAfter(jobs[id], jobs[other]);
      assert forall other | Claimable(jobs, types, locked, now, other) :: other in pool;
      ClaimIsSoonest(jobs, types, locked, now, Some(id));
      jobs := JobQueue.Claim(jobs, id, w);
      job := Some(RecordOf(jobs, id));
    }

    /** The job is pending again, held by nobody; the attempt stays counted. */
    method ReleaseJobClaim(job: Record)
      modifies this`jobs
      ensures jobs == ReleaseClaim(old(jobs), job.id)
      ensures OnlyChanges(old(jobs), jobs, {job.id})
      ensures job.id in jobs ==>
                && jobs[job.id].status.Pending? && jobs[job.id].holder.Nobody?
                && jobs[job.id].attempts == old(jobs)[job.id].attempts
    {
      if job.id in jobs {
        jobs := jobs[job.id := jobs[job.id].(status := Pending, holder := Nobody)];
      }
    }

    method CompleteWorkerJob(job: Record)
      modifies this`jobs, this`attempts
      ensures jobs == Complete(old(jobs), job) && OnlyChanges(old(jobs), jobs, {job.id})
      ensures job.id in jobs ==> jobs[job.id].status.Completed? && jobs[job.id].attempts == old(jobs)[job.id].attempts
      ensures OnlyRecords(old(attempts), attempts, AttemptKey(job.id, job.attempts), AttemptCompleted)
    {
      jobs := SetStatus(jobs, job.id, Completed);
      attempts := attempts[AttemptKey(job.id, job.attempts) := AttemptCompleted];
    }

    method FailWorkerJob(job: Record, now: int)
      modifies this`jobs, this`attempts
      ensures jobs == Fail(old(jobs), job, now) && OnlyChanges(old(jobs), jobs, {job.id})
      ensures job.id in jobs ==>
                && (jobs[job.id].status.Poisoned? <==> job.attempts >= job.maxAttempts)
                && (jobs[job.id].status.Pending? <==> job.attempts < job.maxAttempts)
                && jobs[job.id].attempts == old(jobs)[job.id].attempts
      ensures OnlyRecords(old(attempts), attempts, AttemptKey(job.id, job.attempts), FailOutcome(job))
      ensures attempts[AttemptKey(job.id, job.attempts)].AttemptPoisoned? <==> job.attempts >= job.maxAttempts
    {
      match NextFailureState(job.attempts, job.maxAttempts)
      case Poison =>
        jobs := SetStatus(jobs, job.id, Poisoned);
        attempts := attempts[AttemptKey(job.id, job.attempts) := AttemptPoisoned];
      case Retry(delay) =>
        if job.id in jobs {
          jobs := jobs[job.id := jobs[job.id].(status := Pending,
                                               availableAt := now + match delay case Some(ms) => ms case None => 0)];
        }
        attempts := attempts[AttemptKey(job.id, job.attempts) := AttemptFailed];
    }

    /** Completes the pending siblings that no other transaction has locked. */
    method BulkCompleteSiblingJobs(job: Record, locked: set<JobId>) returns (completed: set<JobId>)
      modifies this`jobs
      ensures completed == Collapsible(old(jobs), job, locked) && jobs == Collapse(old(jobs), completed)
      ensures OnlyChanges(old(jobs), jobs, completed)
      ensures forall id | id in completed :: jobs[id].status.Completed? && jobs[id].holder.ByCollapse?
      ensures forall id | id in jobs :: Sibling(jobs, job, id) ==> id in locked
    {
      completed := Collapsible(jobs, job, locked);
      jobs := Collapse(jobs, completed);
    }

    // ----- One batch -----

    /** The second heavy job of a batch goes back to the queue, unless the write fails. */
    method GiveBack(w: WorkerId, job: Record, written: bool, env: Environment)
      requires Valid() && w in sys.workers && sys.workers[w].excess == Some(job)
      modifies this
      ensures Valid() && sys.concurrency == old(sys.concurrency)
      ensures w in sys.workers && sys.workers[w] == old(sys.workers[w]).(excess := None)
      ensures Own(trace, w) == Own(old(trace), w) + [Release(w, written)]
      ensures NoEnqueues(env) ==> Potential(sys) <= Potential(old(sys))
    {
      hide Inv, Reached, Potential, NoEnqueues, ReleaseClaim, OnlyChanges, Own;
      OthersAct(w, env);
      OwnAppend(trace, Release(w, written), w);
      if written {
        ReleaseJobClaim(job);
      }
      Take(Release(w, written));
    }

    /** One claim, after the others have acted: what the worker is told of. */
    method ClaimOneJob(w: WorkerId, env: Environment, i: nat) returns (job: Option<Record>)
      requires Valid() && w in sys.workers && sys.workers[w].slots > 0 && sys.workers[w].excess.None?
      modifies this
      ensures Valid() && w in sys.workers && sys.concurrency == old(sys.concurrency)
      ensures sys.workers[w] == AfterAnswer(old(sys.workers[w]), job)
      ensures exists a :: Own(trace, w) == Own(old(trace), w) + [a] && Answers(a, w, env, i, job)
      ensures NoEnqueues(env) ==> Potential(sys) <= Potential(old(sys))
    {
      hide Inv, Reached, Potential, NextJob, JobQueue.Claim, RecordOf, NoEnqueues, Own, NonemptyBatch;
      hide AfterSettle, Executions, Collapse, Sibling, Refresh, Insert, Matches, BatchIds, InProgress, Heavy, HasHeavy;
      OthersAct(w, env);
      job := ClaimNextWorkerJob(w, WORKER_JOB_TYPES, env.locked(i), env.now(i));
      ghost var a;
      if job.Some? && !env.reported(i) {
        a := ClaimUnreported(w, job.value.id, env.locked(i), env.now(i));
        OwnAppend(trace, a, w);
        Take(ClaimUnreported(w, job.value.id, env.locked(i), env.now(i)));
        job := None;
      } else {
        var pick := match job case None => None case Some(r) => Some(r.id);
        a := ClaimNext(w, pick, env.locked(i), env.now(i));
        OwnAppend(trace, a, w);
        Take(ClaimNext(w, pick, env.locked(i), env.now(i)));
      }
      assert Answers(a, w, env, i, job);
    }

    /** Phase 1: `concurrency` claims, unless one finds nothing or fails; a second heavy job is
        given back. The others act before each statement. */
    method ClaimPhase(w: WorkerId, concurrency: nat, env: Environment) returns (batch: seq<Record>)
      requires Valid() && w in sys.workers && sys.concurrency == concurrency
      requires sys.workers[w] == IDLE.(slots := concurrency)
      modifies this
      ensures Valid() && w in sys.workers && sys.concurrency == concurrency
      ensures sys.workers[w] == Worker(0, None, batch, {}, {})
      ensures exists steps :: Own(trace, w) == Own(old(trace), w) + steps && AllClaims(steps, w, env, concurrency)
      ensures NoEnqueues(env) ==> Potential(sys) <= Potential(old(sys))
    {
      hide Inv, Reached, Potential, NoEnqueues, Own, Claims, AllClaims, Answers, Heavy, HasHeavy;
      batch := [];
      var hasHeavy := false;
      ghost var own, steps: seq<Action> := Own(trace, w), [];
      NoClaims(w, env);
      for i := 0 to concurrency
        invariant Valid() && w in sys.workers && sys.concurrency == concurrency
        invariant sys.workers[w] == Worker(concurrency - i, None, batch, {}, {})
        invariant hasHeavy == HasHeavy(batch)
        invariant Own(trace, w) == own + steps && Claims(steps, w, env, i)
        invariant NoEnqueues(env) ==> Potential(sys) <= Potential(old(sys))
      {
        var claimed := ClaimOneJob(w, env, i);
        ghost var a :| Own(trace, w) == own + steps + [a] && Answers(a, w, env, i, claimed);
        OneMoreClaim(steps, w, env, concurrency, i, a, claimed);
        steps := steps + [a];
        match claimed
        case None => break;
        case Some(job) =>
          var heavy := Heavy(job.jobType);
          if heavy && hasHeavy {
            GiveBack(w, job, env.released(i), env);
            steps := steps + [Release(w, env.released(i))];
            continue;
          }
          if heavy {
            hasHeavy := true;
          }
          HeavyAppend(batch, job);
          batch := batch + [job];
      }
      EnoughClaims(steps, w, env, concurrency);
    }

    /** One move of one job: it is started, its siblings may be completed, or its own result is
        written, or not. */
    method MoveJob(w: WorkerId, job: Record, phase: Phase, env: Environment) returns (next: Phase)
      requires Valid() && w in sys.workers && InPhase(sys.workers[w], job, phase) && !phase.Settled?
      modifies this
      ensures Valid() && sys.concurrency == old(sys.concurrency) && Potential(sys) <= Potential(old(sys))
      ensures next == After(phase)
      ensures jobs == match phase
                      case Waiting => old(jobs)
                      case Started =>
                        if job.jobType in {"sync-chroma-index", "build-knowledge-graph"}
                        then Collapse(old(jobs), Collapsible(old(jobs), job, env.lockedSiblings(job.id)))
                        else old(jobs)
                      case Collapsed =>
                        if !env.settles(job.id) then old(jobs)
                        else if env.succeeds(job.id) then Complete(old(jobs), job)
                        else Fail(old(jobs), job, env.settledAt(job.id))
      ensures w in sys.workers && sys.workers[w] == Moved(old(sys.workers[w]), job, phase)
      ensures trace == old(trace) + MoveSteps(w, job, phase, env, old(jobs))
    {
      hide Inv, Reached, Potential, Sibling, Collapse, Complete, Fail, Collapsible;
      next := After(phase);
      match phase
      case Waiting => Take(Start(w, job));
      case Started =>
        if Collapses(job.jobType) {
          var siblings := BulkCompleteSiblingJobs(job, env.lockedSiblings(job.id));
          AreSiblings(sys.jobs, job, env.lockedSiblings(job.id));
          Take(CollapseSiblings(w, job, siblings));
        }
      case Collapsed =>
        if env.settles(job.id) {
          if env.succeeds(job.id) {
            CompleteWorkerJob(job);
          } else {
            FailWorkerJob(job, env.settledAt(job.id));
          }
        }
        Take(Settle(w, job, env.succeeds(job.id), env.settles(job.id), env.settledAt(job.id)));
    }

    /** Phase 2: all jobs run at once. Their moves interleave in any order, and the others act
        before each of them. */
    method RunJobs(w: WorkerId, todo: seq<Record>, env: Environment)
      requires Valid() && w in sys.workers && DistinctIds(todo)
      requires forall job | job in todo :: InPhase(sys.workers[w], job, Waiting)
      requires sys.workers[w].started == {} && sys.workers[w].settled == {}
      modifies this
      ensures Valid() && sys.concurrency == old(sys.concurrency)
      ensures NoEnqueues(env) ==> Potential(sys) <= Potential(old(sys))
      ensures w in sys.workers
      ensures sys.workers[w] == old(sys.workers[w]).(started := BatchIds(todo), settled := BatchIds(todo))
      ensures exists steps :: Own(trace, w) == Own(old(trace), w) + steps && RunsAll(steps, w, todo, env)
    {
      hide Inv, Reached, Potential, NoEnqueues, BatchIds, MovesLeft, Unfinished, Ran, Moved, DistinctIds;
      hide Own, Runs, RunsAll, MoveSteps;
      var phases := seq(|todo|, i => Waiting);
      var turn := 0;
      ghost var worker := sys.workers[w];
      ghost var own, steps: seq<Action> := Own(trace, w), [];
      AllWaiting(worker, todo, phases);
      NothingRun(w, todo, phases, env);
      while Unfinished(phases)
        invariant Valid() && sys.concurrency == old(sys.concurrency) && w in sys.workers
        invariant |phases| == |todo| && sys.workers[w] == Ran(worker, todo, phases)
        invariant Own(trace, w) == own + steps && Runs(steps, w, todo, phases, env)
        invariant NoEnqueues(env) ==> Potential(sys) <= Potential(old(sys))
        decreases MovesLeft(phases)
      {
        OthersAct(w, env);
        var i := PickJob(phases, env.turn(turn));
        turn := turn + 1;
        assert todo[i] in todo && InPhase(worker, todo[i], Waiting);
        RanInPhase(worker, todo, phases, i);
        RunsOneMove(steps, w, todo, phases, env, i, jobs);
        OwnMove(trace, own, steps, w, todo[i], phases[i], env, jobs);
        steps := steps + MoveSteps(w, todo[i], phases[i], env, jobs);
        var next := MoveJob(w, todo[i], phases[i], env);
        OneMove(worker, todo, phases, i);
        phases := phases[i := next];
      }
      AllSettled(worker, todo, phases);
      AllRun(steps, w, todo, phases, env);
    }

    /** One batch by an idle worker: claims, then runs what it kept. Every job it kept is
        settled, and a batch that ran a job used some of the potential. */
    method RunBatch(w: WorkerId, concurrency: nat, env: Environment) returns (size: nat)
      requires Valid() && w in sys.workers && sys.concurrency == concurrency && sys.workers[w] == IDLE
      modifies this
      ensures Valid() && w in sys.workers && sys.concurrency == concurrency && sys.workers[w] == IDLE
      ensures size <= concurrency && Exclusive(sys)
      ensures exists batch, steps ::
                |batch| == size && Own(trace, w) == Own(old(trace), w) + steps && WholeBatch(steps, w, env, concurrency, batch)
      ensures NoEnqueues(env) ==> Potential(sys) + (if size > 0 then 1 else 0) <= Potential(old(sys))
    {
      hide Inv, Initial, Possible, Run, Potential, Exclusive, NoEnqueues, InPhase, Own, AllClaims, RunsAll, WholeBatch;
      hide AfterSettle, AfterClaim, Executions, Collapse, Refresh, Insert, Matches, BatchIds, DistinctIds, NextJob, Sibling;
      ghost var own := Own(trace, w);
      OwnAppend(trace, BeginBatch(w), w);
      Take(BeginBatch(w));
      var batch := ClaimPhase(w, concurrency, env);
      ghost var claims :| Own(trace, w) == own + [BeginBatch(w)] + claims && AllClaims(claims, w, env, concurrency);
      BatchIsDistinct(sys, w);
      var heavyJobs, lightJobs := Split(batch);
      AtMostOneHeavy(sys, w, heavyJobs);
      var todo := lightJobs + heavyJobs;
      AllOfBatch(sys.workers[w], heavyJobs, lightJobs);
      RunJobs(w, todo, env);
      ghost var runs :| Own(trace, w) == own + [BeginBatch(w)] + claims + runs && RunsAll(runs, w, todo, env);
      OwnAppend(trace, EndBatch(w), w);
      Take(EndBatch(w));
      InvMeansExclusive(sys);
      BatchIsWhole(own, claims, runs, w, env, concurrency, todo, batch);
      size := |batch|;
    }

    /** One tick of the worker's poll loop: batches until one is empty. When nobody enqueues
        anything meanwhile, the loop ends, whatever else the others do; and it ends with a batch
        whose claims found nothing to run. */
    method Drain(w: WorkerId, concurrency: nat, envs: nat -> Environment) returns (last: nat)
      requires Valid() && w in sys.workers && sys.concurrency == concurrency && sys.workers[w] == IDLE
      requires forall n :: NoEnqueues(envs(n))
      modifies this
      ensures Valid() && w in sys.workers && sys.workers[w] == IDLE
      ensures exists before, steps ::
                Own(trace, w) == before + steps && Own(old(trace), w) <= before && WholeBatch(steps, w, envs(last), concurrency, [])
    {
      hide Inv, Reached, Potential, NoEnqueues, Exclusive, Own, WholeBatch;
      last := 0;
      while true
        invariant Valid() && w in sys.workers && sys.concurrency == concurrency && sys.workers[w] == IDLE
        invariant Own(old(trace), w) <= Own(trace, w)
        decreases Potential(sys)
      {
        var processed := RunBatch(w, concurrency, envs(last));
        if processed == 0 {
          break;
        }
        last := last + 1;
      }
    }
  }

  // ----- What a statement leaves alone -----

  ghost predicate OnlyChanges(before: Jobs, after: Jobs, ids: set<JobId>) {
    && after.Keys == before.Keys
    && (forall id | id in before && id !in ids :: after[id] == before[id])
    && (forall id | id in before :: SameKey(after[id], before[id]) && after[id].payload == before[id].payload)
  }

  ghost predicate OnlyRecords(before: Attempts, after: Attempts, key: AttemptKey, outcome: AttemptOutcome) {
    && key in after && after[key] == outcome
    && (forall k :: k in after && k != key <==> k in before && k != key)
    && (forall k | k in before && k != key :: after[k] == before[k])
    && after == before[key := outcome]
  }

  /** A step of others leaves what `w` is doing as it is. */
  lemma OthersLeaveWorker(s: System, a: Action, w: WorkerId)
    requires Enabled(s, a) && !By(a, w) && w in s.workers
    ensures w in Next(s, a).workers && Next(s, a).workers[w] == s.workers[w] && Next(s, a).concurrency == s.concurrency
  {
  }

  lemma AreSiblings(jobs: Jobs, job: Record, locked: set<JobId>)
    ensures forall id | id in Collapsible(jobs, job, locked) :: Sibling(jobs, job, id)
  {
  }

  // ----- The jobs of a batch, all at once -----

  function After(phase: Phase): Phase {
    match phase
    case Waiting => Started
    case Started => Collapsed
    case Collapsed => Settled
    case Settled => Settled
  }

  function StepsLeft(phase: Phase): nat {
    match phase
    case Waiting => 3
    case Started => 2
    case Collapsed => 1
    case Settled => 0
  }

  /** What the worker's record says about a job in this phase. */
  predicate InPhase(worker: Worker, job: Record, phase: Phase) {
    && worker.slots == 0 && worker.excess.None? && job in worker.batch
    && (job.id in worker.started <==> !phase.Waiting?)
    && (job.id in worker.settled <==> phase.Settled?)
  }

  function Moved(worker: Worker, job: Record, phase: Phase): Worker {
    match phase
    case Waiting => worker.(started := worker.started + {job.id})
    case Started => worker
    case Collapsed => worker.(settled := worker.settled + {job.id})
    case Settled => worker
  }

  function StartedIds(todo: seq<Record>, phases: seq<Phase>): set<JobId>
    requires |todo| == |phases|
  {
    set i | 0 <= i < |todo| && !phases[i].Waiting? :: todo[i].id
  }

  function SettledIds(todo: seq<Record>, phases: seq<Phase>): set<JobId>
    requires |todo| == |phases|
  {
    set i | 0 <= i < |todo| && phases[i].Settled? :: todo[i].id
  }

  /** The worker's record once its jobs have come that far. */
  function Ran(worker: Worker, todo: seq<Record>, phases: seq<Phase>): Worker
    requires |todo| == |phases|
  {
    worker.(started := StartedIds(todo, phases), settled := SettledIds(todo, phases))
  }

  predicate Unfinished(phases: seq<Phase>) {
    exists i :: 0 <= i < |phases| && !phases[i].Settled?
  }

  function MovesLeft(phases: seq<Phase>): nat {
    if phases == [] then 0 else MovesLeft(phases[..|phases| - 1]) + StepsLeft(phases[|phases| - 1])
  }

  lemma {:induction false} MoveIsProgress(phases: seq<Phase>, i: nat)
    requires i < |phases| && !phases[i].Settled?
    ensures MovesLeft(phases[i := After(phases[i])]) < MovesLeft(phases)
    decreases |phases|
  {
    var n := |phases| - 1;
    var moved := phases[i := After(phases[i])];
    if i < n {
      MoveIsProgress(phases[..n], i);
      assert moved[..n] == phases[..n][i := After(phases[i])];
    } else {
      assert moved[..n] == phases[..n];
    }
  }

  /** The job whose turn it is, or else the first that is not settled. */
  method PickJob(phases: seq<Phase>, turn: nat) returns (i: nat)
    requires Unfinished(phases)
    ensures i < |phases| && !phases[i].Settled?
    ensures turn < |phases| && !phases[turn].Settled? ==> i == turn
  {
    if turn < |phases| && !phases[turn].Settled? {
      return turn;
    }
    i := 0;
    while phases[i].Settled?
      invariant i < |phases| && forall j | 0 <= j < i :: phases[j].Settled?
      decreases |phases| - i
    {
      i := i + 1;
    }
  }

  lemma AllWaiting(worker: Worker, todo: seq<Record>, phases: seq<Phase>)
    requires |todo| == |phases| && (forall i | 0 <= i < |phases| :: phases[i].Waiting?)
    requires worker.started == {} && worker.settled == {}
    ensures Ran(worker, todo, phases) == worker
  {
    assert StartedIds(todo, phases) == {} && SettledIds(todo, phases) == {};
  }

  lemma AllSettled(worker: Worker, todo: seq<Record>, phases: seq<Phase>)
    requires |todo| == |phases| && !Unfinished(phases)
    ensures Ran(worker, todo, phases) == worker.(started := BatchIds(todo), settled := BatchIds(todo))
  {
    assert forall i | 0 <= i < |phases| :: phases[i].Settled?;
    assert StartedIds(todo, phases) == BatchIds(todo) && SettledIds(todo, phases) == BatchIds(todo);
  }

  lemma RanInPhase(worker: Worker, todo: seq<Record>, phases: seq<Phase>, i: nat)
    requires |todo| == |phases| && i < |todo| && DistinctIds(todo)
    requires worker.slots == 0 && worker.excess.None? && todo[i] in worker.batch
    ensures InPhase(Ran(worker, todo, phases), todo[i], phases[i])
  {
    assert forall j | 0 <= j < |todo| && todo[j].id == todo[i].id :: j == i;
  }

  lemma OneMove(worker: Worker, todo: seq<Record>, phases: seq<Phase>, i: nat)
    requires |todo| == |phases| && i < |todo| && !phases[i].Settled?
    ensures Ran(worker, todo, phases[i := After(phases[i])]) == Moved(Ran(worker, todo, phases), todo[i], phases[i])
    ensures MovesLeft(phases[i := After(phases[i])]) < MovesLeft(phases)
  {
    MoveIsProgress(phases, i);
    var moved := phases[i := After(phases[i])];
    assert forall j | 0 <= j < |todo| && j != i :: moved[j] == phases[j];
    if phases[i].Waiting? {
      assert StartedIds(todo, moved) == StartedIds(todo, phases) + {todo[i].id};
      assert SettledIds(todo, moved) == SettledIds(todo, phases);
    } else if phases[i].Started? {
      assert StartedIds(todo, moved) == StartedIds(todo, phases);
      assert SettledIds(todo, moved) == SettledIds(todo, phases);
    } else {
      assert StartedIds(todo, moved) == StartedIds(todo, phases);
      assert SettledIds(todo, moved) == SettledIds(todo, phases) + {todo[i].id};
    }
  }

  /** The jobs that run one after another are one at most. */
  lemma AtMostOneHeavy(s: System, w: WorkerId, heavy: seq<Record>)
    requires Inv(s) && w in s.workers && DistinctIds(heavy)
    requires forall job | job in heavy :: job in s.workers[w].batch && Heavy(job.jobType)
    ensures |heavy| <= 1
  {
    if |heavy| > 1 {
      SameHeavy(s, w, heavy[0], heavy[1]);
    }
  }

  lemma SameHeavy(s: System, w: WorkerId, x: Record, y: Record)
    requires Inv(s) && w in s.workers && x in s.workers[w].batch && y in s.workers[w].batch
    requires Heavy(x.jobType) && Heavy(y.jobType)
    ensures x.id == y.id
  {
    assert WorkerInv(s.workers[w], s.concurrency);
    hide Inv;
    var batch := s.workers[w].batch;
    var i :| 0 <= i < |batch| && batch[i] == x;
    var j :| 0 <= j < |batch| && batch[j] == y;
  }

  /** Light and heavy jobs together are the batch, each once, and none is started. */
  lemma AllOfBatch(worker: Worker, heavy: seq<Record>, light: seq<Record>)
    requires worker.slots == 0 && worker.excess.None? && worker.started == {} && worker.settled == {}
    requires forall job :: job in heavy || job in light ==> job in worker.batch
    requires DistinctIds(heavy) && DistinctIds(light) && BatchIds(heavy) !! BatchIds(light)
    ensures DistinctIds(light + heavy) && BatchIds(light + heavy) == BatchIds(heavy) + BatchIds(light)
    ensures forall job | job in light + heavy :: InPhase(worker, job, Waiting)
  {
    var all := light + heavy;
    forall i | 0 <= i < |all|
      ensures if i < |light| then all[i] == light[i] && all[i].id in BatchIds(light)
              else all[i] == heavy[i - |light|] && all[i].id in BatchIds(heavy)
    {
    }
    assert forall i | 0 <= i < |light| :: all[i] == light[i];
    assert forall i | 0 <= i < |heavy| :: all[|light| + i] == heavy[i];
  }

  // ----- Batches -----

  predicate DistinctIds(batch: seq<Record>) {
    forall i, j | 0 <= i < j < |batch| :: batch[i].id != batch[j].id
  }

  lemma HeavyAppend(batch: seq<Record>, job: Record)
    ensures HasHeavy(batch + [job]) == (HasHeavy(batch) || Heavy(job.jobType))
  {
    var longer := batch + [job];
    assert longer[|batch|] == job;
    assert forall i | 0 <= i < |batch| :: longer[i] == batch[i];
  }

  lemma BatchIsDistinct(s: System, w: WorkerId)
    requires Inv(s) && w in s.workers
    ensures DistinctIds(s.workers[w].batch) && |s.workers[w].batch| <= s.concurrency
  {
    assert WorkerInv(s.workers[w], s.concurrency);
  }

  /** Phase 2: the heavy jobs and the light ones, each in claim order. */
  method Split(batch: seq<Record>) returns (heavy: seq<Record>, light: seq<Record>)
    requires DistinctIds(batch)
    ensures forall job :: job in heavy <==> job in batch && Heavy(job.jobType)
    ensures forall job :: job in light <==> job in batch && !Heavy(job.jobType)
    ensures DistinctIds(heavy) && DistinctIds(light)
    ensures BatchIds(heavy) !! BatchIds(light) && BatchIds(heavy) + BatchIds(light) == BatchIds(batch)
  {
    hide DistinctIds, BatchIds;
    heavy, light := [], [];
    NoIds();
    for i := 0 to |batch|
      invariant forall job :: job in heavy <==> job in batch[..i] && Heavy(job.jobType)
      invariant forall job :: job in light <==> job in batch[..i] && !Heavy(job.jobType)
      invariant DistinctIds(heavy) && DistinctIds(light)
      invariant BatchIds(heavy) !! BatchIds(light) && BatchIds(heavy) + BatchIds(light) == BatchIds(batch[..i])
    {
      NewId(batch, i);
      assert batch[..i + 1] == batch[..i] + [batch[i]];
      IdsAppend(batch[..i], batch[i]);
      if Heavy(batch[i].jobType) {
        IdsAppend(heavy, batch[i]);
        heavy := heavy + [batch[i]];
      } else {
        IdsAppend(light, batch[i]);
        light := light + [batch[i]];
      }
    }
    assert batch[..|batch|] == batch;
  }

  lemma NoIds()
    ensures DistinctIds([]) && BatchIds([]) == {}
  {
  }

  lemma NewId(batch: seq<Record>, i: nat)
    requires DistinctIds(batch) && i < |batch|
    ensures batch[i].id !in BatchIds(batch[..i])
  {
  }

  lemma IdsAppend(batch: seq<Record>, job: Record)
    ensures BatchIds(batch + [job]) == BatchIds(batch) + {job.id}
    ensures DistinctIds(batch) && job.id !in BatchIds(batch) ==> DistinctIds(batch + [job])
  {
    var longer := batch + [job];
    assert longer[|batch|] == job;
    forall i | 0 <= i < |batch|
      ensures longer[i] == batch[i] && batch[i].id in BatchIds(batch)
    {
    }
  }
}
