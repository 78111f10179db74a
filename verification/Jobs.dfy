/**
 The durable job queue: any number of workers claim, run, retry and finish rows of `job_runs`.

 A claim selects the oldest queued row no other transaction has locked, marks it running and counts the
 attempt, all in one transaction. The later updates name the row by id alone; that they never touch another
 worker's job is a property of the whole protocol, proved here for every interleaving.
*/
module Jobs {
  import opened Common
  import opened Totals

  datatype Status = Queued | Running | Succeeded | Failed

  datatype Job = Job(jobType: nat, enqueuedAt: nat, status: Status, attempts: nat)

  /** `attempts` is the value read by the claim, one less than the row then holds. */
  datatype Worker =
    | Idle
    | Locking(job: nat)
    | Claimed(job: nat, attempts: nat)
    | Ran(job: nat, attempts: nat, raised: bool)
    | Crashed

  /** The job types registered where jobs are enqueued, those registered in the workers, which are processes of
      their own, and jobs_max_attempts. */
  datatype Config = Config(enqueuable: set<nat>, handlers: set<nat>, maxAttempts: int)

  /** `runs` counts the handler calls each job has had. */
  datatype World = World(jobs: map<nat, Job>, workers: map<nat, Worker>, runs: map<nat, nat>)

  datatype Step =
    | Enqueue(id: nat, jobType: nat, at: nat)
    | Start(w: nat)
    | Lock(w: nat, id: nat)
    | AbortClaim(w: nat)
    | CommitClaim(w: nat)
    | RunHandler(w: nat, raises: bool)
    | Report(w: nat)
    | Crash(w: nat)

  /** The attempts a job may use: a failure at max_attempts or beyond is final, and there is always a first. */
  function Cap(c: Config): nat { if c.maxAttempts < 1 then 1 else c.maxAttempts }

  predicate LockedByOther(w: World, worker: nat, id: nat) {
    exists v | v in w.workers :: v != worker && w.workers[v] == Locking(id)
  }

  predicate Available(w: World, worker: nat, id: nat) {
    id in w.jobs && w.jobs[id].status == Queued && !LockedByOther(w, worker, id)
  }

  /** ORDER BY enqueued_at FOR UPDATE SKIP LOCKED LIMIT 1 */
  predicate OldestAvailable(w: World, worker: nat, id: nat) {
    && Available(w, worker, id)
    && forall other | other in w.jobs && Available(w, worker, other) ::
         w.jobs[id].enqueuedAt <= w.jobs[other].enqueuedAt
  }

  function SetWorker(w: World, worker: nat, state: Worker): World { w.(workers := w.workers[worker := state]) }

  function SetJob(w: World, id: nat, job: Job): World { w.(jobs := w.jobs[id := job]) }

  /** The row after the handler's outcome is reported. */
  function AfterHandler(c: Config, job: Job, attempts: nat, raised: bool): Job
  {
    if !raised then job.(status := Succeeded)
    else if attempts + 1 >= c.maxAttempts then job.(status := Failed)
    else job.(status := Queued)
  }

  function Apply(c: Config, w: World, step: Step): World
  {
    match step
    case Enqueue(id, jobType, at) =>
      if id in w.jobs || jobType !in c.enqueuable then w
      else SetJob(w, id, Job(jobType, at, Queued, 0)).(runs := w.runs[id := 0])
    case Start(k) =>
      if k in w.workers then w else SetWorker(w, k, Idle)
    case Lock(k, id) =>
      if k in w.workers && w.workers[k].Idle? && OldestAvailable(w, k, id) then SetWorker(w, k, Locking(id)) else w
    case AbortClaim(k) =>
      if k in w.workers && w.workers[k].Locking? then SetWorker(w, k, Idle) else w
    case CommitClaim(k) =>
      if k in w.workers && w.workers[k].Locking? && w.workers[k].job in w.jobs then
        var id := w.workers[k].job;
        var job := w.jobs[id];
        SetJob(SetWorker(w, k, Claimed(id, job.attempts)), id, job.(status := Running, attempts := job.attempts + 1))
      else w
    case RunHandler(k, raises) =>
      if k in w.workers && w.workers[k].Claimed? && w.workers[k].job in w.jobs && w.workers[k].job in w.runs
         && w.jobs[w.workers[k].job].jobType in c.handlers then
        var id := w.workers[k].job;
        SetWorker(w, k, Ran(id, w.workers[k].attempts, raises)).(runs := w.runs[id := w.runs[id] + 1])
      else w
    case Report(k) =>
      if k !in w.workers then w
      else if w.workers[k].Ran? && w.workers[k].job in w.jobs then
        var Ran(id, attempts, raised) := w.workers[k];
        SetJob(SetWorker(w, k, Idle), id, AfterHandler(c, w.jobs[id], attempts, raised))
      else if w.workers[k].Claimed? && w.workers[k].job in w.jobs
              && w.jobs[w.workers[k].job].jobType !in c.handlers then
        var id := w.workers[k].job;
        SetJob(SetWorker(w, k, Idle), id, w.jobs[id].(status := Failed))
      else w
    case Crash(k) =>
      if k in w.workers then SetWorker(w, k, Crashed) else w
  }

  function Run(c: Config, w: World, steps: seq<Step>): World
  {
    if steps == [] then w else Apply(c, Run(c, w, steps[..|steps| - 1]), steps[|steps| - 1])
  }

  const EMPTY: World := World(map[], map[], map[])

  // ------------------------------------------------------------------ the invariant

  /** The worker has committed a claim of the job and not yet reported on it. */
  predicate Holds(worker: Worker, id: nat) {
    (worker.Claimed? || worker.Ran?) && worker.job == id
  }

  predicate WorkerOk(w: World, worker: Worker) {
    match worker
    case Locking(id) => id in w.jobs && w.jobs[id].status == Queued
    case Claimed(id, attempts) =>
      id in w.jobs && w.jobs[id].status == Running && w.jobs[id].attempts == attempts + 1
      && id in w.runs && w.runs[id] <= attempts
    case Ran(id, attempts, _) => id in w.jobs && w.jobs[id].status == Running && w.jobs[id].attempts == attempts + 1
    case _ => true
  }

  predicate JobOk(c: Config, w: World, id: nat)
    requires id in w.jobs
  {
    && w.jobs[id].attempts <= Cap(c)
    && (w.jobs[id].status == Queued ==> w.jobs[id].attempts < Cap(c))
    && id in w.runs && w.runs[id] <= w.jobs[id].attempts
  }

  ghost predicate Inv(c: Config, w: World) {
    && (forall id | id in w.jobs :: JobOk(c, w, id))
    && (forall k | k in w.workers :: WorkerOk(w, w.workers[k]))
    && MutuallyExclusive(w)
  }

  /** No job is locked by two claims, and none is held by two workers. */
  ghost predicate MutuallyExclusive(w: World) {
    forall k, l | k in w.workers && l in w.workers && k != l :: Apart(w.workers[k], w.workers[l])
  }

  predicate Apart(a: Worker, b: Worker) {
    (a.Locking? || a.Claimed? || a.Ran?) && (b.Locking? || b.Claimed? || b.Ran?) ==> a.job != b.job
  }

  lemma ApplyKeepsInv(c: Config, w: World, step: Step)
    requires Inv(c, w)
    ensures Inv(c, Apply(c, w, step))
  {
    match step
    case Enqueue(id, jobType, at) =>
    case Start(k) =>
    case Lock(k, id) => LockKeepsInv(c, w, k, id);
    case AbortClaim(k) =>
    case CommitClaim(k) => ClaimKeepsInv(c, w, k);
    case RunHandler(k, raises) => HandlerKeepsInv(c, w, k, raises);
    case Report(k) => ReportKeepsInv(c, w, k);
    case Crash(k) =>
  }

  lemma LockKeepsInv(c: Config, w: World, k: nat, id: nat)
    requires Inv(c, w)
    ensures Inv(c, Apply(c, w, Lock(k, id)))
  {
    if k in w.workers && w.workers[k].Idle? && OldestAvailable(w, k, id) {
      forall l | l in w.workers && l != k
        ensures Apart(Locking(id), w.workers[l])
      {
        assert WorkerOk(w, w.workers[l]);
      }
    }
  }

  lemma ClaimKeepsInv(c: Config, w: World, k: nat)
    requires Inv(c, w)
    ensures Inv(c, Apply(c, w, CommitClaim(k)))
  {
    if k in w.workers && w.workers[k].Locking? && w.workers[k].job in w.jobs {
      var w' := Apply(c, w, CommitClaim(k));
      assert JobOk(c, w, w.workers[k].job);
      forall l | l in w'.workers
        ensures WorkerOk(w', w'.workers[l])
      {
        assert WorkerOk(w, w.workers[l]);
      }
    }
  }

  lemma HandlerKeepsInv(c: Config, w: World, k: nat, raises: bool)
    requires Inv(c, w)
    ensures Inv(c, Apply(c, w, RunHandler(k, raises)))
  {
    if k in w.workers && w.workers[k].Claimed? {
      var w' := Apply(c, w, RunHandler(k, raises));
      assert WorkerOk(w, w.workers[k]);
      forall l | l in w'.workers
        ensures WorkerOk(w', w'.workers[l])
      {
        assert WorkerOk(w, w.workers[l]);
      }
    }
  }

  lemma ReportKeepsInv(c: Config, w: World, k: nat)
    requires Inv(c, w)
    ensures Inv(c, Apply(c, w, Report(k)))
  {
    if k in w.workers && (w.workers[k].Ran? || w.workers[k].Claimed?) {
      var w' := Apply(c, w, Report(k));
      assert WorkerOk(w, w.workers[k]);
      assert JobOk(c, w, w.workers[k].job);
      forall l | l in w'.workers
        ensures WorkerOk(w', w'.workers[l])
      {
        assert WorkerOk(w, w.workers[l]);
      }
    }
  }

  lemma {:induction false} ReachableInv(c: Config, steps: seq<Step>)
    ensures Inv(c, Run(c, EMPTY, steps))
  {
    if steps != [] {
      ReachableInv(c, steps[..|steps| - 1]);
      ApplyKeepsInv(c, Run(c, EMPTY, steps[..|steps| - 1]), steps[|steps| - 1]);
    }
  }

  // ------------------------------------------------------------------ what holds in every run

  /** No job is ever held by two live claims. */
  lemma MutualExclusion(c: Config, steps: seq<Step>, k: nat, l: nat, id: nat)
    requires var w := Run(c, EMPTY, steps);
             k in w.workers && l in w.workers && Holds(w.workers[k], id) && Holds(w.workers[l], id)
    ensures k == l
  {
    ReachableInv(c, steps);
    var w := Run(c, EMPTY, steps);
    assert MutuallyExclusive(w);
  }

  /** A row changes only along queued -> running, by the claim that locked it, and running -> queued,
      succeeded or failed, by the one worker holding it. Succeeded and failed rows never change again, and
      attempts move only when a claim commits. */
  lemma RowsMoveOnlyByTheirClaimant(c: Config, steps: seq<Step>, step: Step, id: nat)
    requires id in Run(c, EMPTY, steps).jobs
    ensures var (w, w') := (Run(c, EMPTY, steps), Apply(c, Run(c, EMPTY, steps), step));
            && id in w'.jobs
            && (w'.jobs[id] == w.jobs[id]
                || (&& step.CommitClaim? && step.w in w.workers && w.workers[step.w] == Locking(id)
                    && w.jobs[id].status == Queued
                    && w'.jobs[id] == w.jobs[id].(status := Running, attempts := w.jobs[id].attempts + 1))
                || (&& step.Report? && step.w in w.workers && Holds(w.workers[step.w], id)
                    && w.jobs[id].status == Running
                    && w'.jobs[id].status in {Queued, Succeeded, Failed}
                    && w'.jobs[id] == w.jobs[id].(status := w'.jobs[id].status)))
  {
    ReachableInv(c, steps);
    var w := Run(c, EMPTY, steps);
    if (step.CommitClaim? || step.Report?) && step.w in w.workers {
      assert WorkerOk(w, w.workers[step.w]);
    }
  }

  /** What a report decides: success is final, and a raise is final exactly when the job has used up its
      attempts, and otherwise puts it back in the queue. */
  lemma ReportDecidesByAttempts(c: Config, steps: seq<Step>, k: nat)
    requires var w := Run(c, EMPTY, steps); k in w.workers && w.workers[k].Ran?
    ensures var (w, w') := (Run(c, EMPTY, steps), Apply(c, Run(c, EMPTY, steps), Report(k)));
            var Ran(id, _, raised) := w.workers[k];
            && id in w.jobs && id in w'.jobs
            && (w'.jobs[id].status == Succeeded <==> !raised)
            && (w'.jobs[id].status == Failed <==> raised && w.jobs[id].attempts == Cap(c))
            && (w'.jobs[id].status == Queued <==> raised && w.jobs[id].attempts < Cap(c))
  {
    ReachableInv(c, steps);
    var w := Run(c, EMPTY, steps);
    assert WorkerOk(w, w.workers[k]) && JobOk(c, w, w.workers[k].job);
  }

  /** A claim takes a queued job no other worker has locked, and no such job was enqueued before it. */
  lemma ClaimsTakeTheOldest(c: Config, w: World, k: nat, id: nat)
    requires k in w.workers && w.workers[k].Idle?
    ensures var after := Apply(c, w, Lock(k, id));
            && after.jobs == w.jobs && (after == w || after == w.(workers := w.workers[k := Locking(id)]))
            && (k in after.workers && after.workers[k] == Locking(id) <==>
                  && id in w.jobs && w.jobs[id].status == Queued
                  && (forall v | v in w.workers && v != k :: w.workers[v] != Locking(id))
                  && forall other | other in w.jobs && w.jobs[other].status == Queued
                                    && (forall v | v in w.workers && v != k :: w.workers[v] != Locking(other)) ::
                       w.jobs[id].enqueuedAt <= w.jobs[other].enqueuedAt)
  {
  }

  /** An enqueue adds the one row, queued at the given time and never attempted, unless the type is not registered or
      the id in use. */
  lemma EnqueueAddsTheJob(c: Config, w: World, id: nat, jobType: nat, at: nat)
    requires id !in w.jobs
    ensures var after := Apply(c, w, Enqueue(id, jobType, at));
            && after.workers == w.workers
            && (id in after.jobs <==> jobType in c.enqueuable)
            && (forall other | other in w.jobs :: other in after.jobs && after.jobs[other] == w.jobs[other])
            && (id in after.jobs ==>
                  && after.jobs.Keys == w.jobs.Keys + {id}
                  && after.jobs[id].jobType == jobType && after.jobs[id].enqueuedAt == at
                  && after.jobs[id].status == Queued && after.jobs[id].attempts == 0)
  {
  }

  /** Exactly the handler calls are counted: a step adds one to a job's count when it is its claimant's handler call. */
  lemma HandlerCallsAreCounted(c: Config, steps: seq<Step>, step: Step, id: nat)
    requires id in Run(c, EMPTY, steps).jobs
    ensures var (w, w') := (Run(c, EMPTY, steps), Apply(c, Run(c, EMPTY, steps), step));
            && id in w.runs && id in w'.runs
            && w'.runs[id] == w.runs[id]
               + if step.RunHandler? && step.w in w.workers && w.workers[step.w].Claimed? && w.workers[step.w].job == id
                    && w.jobs[id].jobType in c.handlers then 1 else 0
  {
    ReachableInv(c, steps);
    assert JobOk(c, Run(c, EMPTY, steps), id);
  }

  /** A queued job still has an attempt left, and no job's handler runs more than the cap. */
  lemma AttemptsAreBounded(c: Config, steps: seq<Step>, id: nat)
    requires id in Run(c, EMPTY, steps).jobs
    ensures var w := Run(c, EMPTY, steps);
            var cap := if c.maxAttempts < 1 then 1 else c.maxAttempts;
            && (w.jobs[id].status == Queued ==> w.jobs[id].attempts < cap)
            && w.jobs[id].attempts <= cap
            && id in w.runs && w.runs[id] <= w.jobs[id].attempts
  {
    ReachableInv(c, steps);
    assert JobOk(c, Run(c, EMPTY, steps), id);
  }

  predicate Stranded(w: World, id: nat) {
    && id in w.jobs && w.jobs[id].status == Running
    && forall k | k in w.workers :: !Holds(w.workers[k], id)
  }

  /** A running row that no worker holds any more, as a crash leaves it, stays as it is for ever: nothing
      in the protocol requeues it. */
  lemma {:induction false} StrandedForever(c: Config, w: World, steps: seq<Step>, id: nat)
    requires Inv(c, w) && Stranded(w, id)
    ensures var w' := Run(c, w, steps); Inv(c, w') && Stranded(w', id) && w'.jobs[id] == w.jobs[id]
  {
    if steps != [] {
      var front, step := steps[..|steps| - 1], steps[|steps| - 1];
      StrandedForever(c, w, front, id);
      var before := Run(c, w, front);
      ApplyKeepsInv(c, before, step);
      assert step.CommitClaim? && step.w in before.workers ==> WorkerOk(before, before.workers[step.w]);
    }
  }

  /** A crashed worker changes nothing and never acts again. */
  lemma {:induction false} CrashIsFinal(c: Config, w: World, k: nat, steps: seq<Step>)
    requires k in w.workers
    ensures Apply(c, w, Crash(k)).jobs == w.jobs && Apply(c, w, Crash(k)).runs == w.runs
    ensures var after := Run(c, Apply(c, w, Crash(k)), steps); k in after.workers && after.workers[k] == Crashed
  {
    if steps != [] {
      CrashIsFinal(c, w, k, steps[..|steps| - 1]);
    }
  }

  /** A claim that is rolled back leaves the row as it was, for any worker to take. */
  lemma AbortReleases(c: Config, w: World, k: nat)
    requires k in w.workers && w.workers[k].Locking?
    ensures var after := Apply(c, w, AbortClaim(k));
            && after.jobs == w.jobs && after.runs == w.runs && after.workers.Keys == w.workers.Keys
            && after.workers[k] == Idle && forall v | v in w.workers && v != k :: after.workers[v] == w.workers[v]
  {
  }

  /** A crash of the worker holding a job strands it. */
  lemma CrashStrands(c: Config, w: World, k: nat, id: nat)
    requires Inv(c, w) && k in w.workers && Holds(w.workers[k], id)
    ensures Stranded(Apply(c, w, Crash(k)), id) && Apply(c, w, Crash(k)).jobs == w.jobs
  {
    assert WorkerOk(w, w.workers[k]);
    assert forall l | l in w.workers && l != k :: Apart(w.workers[k], w.workers[l]);
  }

  lemma RunSnoc(c: Config, w: World, steps: seq<Step>, step: Step)
    ensures Run(c, w, steps + [step]) == Apply(c, Run(c, w, steps), step)
  {
    assert (steps + [step])[..|steps + [step]| - 1] == steps;
  }

  lemma {:induction false} RunConcat(c: Config, w: World, a: seq<Step>, b: seq<Step>)
    ensures Run(c, w, a + b) == Run(c, Run(c, w, a), b)
  {
    if b == [] {
      assert a + b == a;
    } else {
      assert (a + b)[..|a + b| - 1] == a + b[..|b| - 1];
      RunConcat(c, w, a, b[..|b| - 1]);
    }
  }

  lemma RunTwo(c: Config, w: World, first: Step, second: Step)
    ensures Run(c, w, [first, second]) == Apply(c, Apply(c, w, first), second)
  {
    RunSnoc(c, w, [], first);
    RunSnoc(c, w, [first], second);
    assert Run(c, w, []) == w && [] + [first] == [first] && [first] + [second] == [first, second];
  }

  /** The world once worker k has claimed the job. */
  function ClaimedWorld(w: World, k: nat, id: nat): World
    requires id in w.jobs
  {
    var job := w.jobs[id];
    World(w.jobs[id := job.(status := Running, attempts := job.attempts + 1)],
          w.workers[k := Claimed(id, job.attempts)], w.runs)
  }

  lemma ClaimRuns(c: Config, w: World, k: nat, id: nat)
    requires k in w.workers && w.workers[k].Idle? && NoneLocking(w) && OldestQueued(w.jobs, id)
    ensures Run(c, w, [Lock(k, id), CommitClaim(k)]) == ClaimedWorld(w, k, id)
  {
    RunTwo(c, w, Lock(k, id), CommitClaim(k));
    assert OldestAvailable(w, k, id);
    assert w.workers[k := Locking(id)][k := Claimed(id, w.jobs[id].attempts)]
           == w.workers[k := Claimed(id, w.jobs[id].attempts)];
  }

  lemma EnqueueStartRuns(c: Config, jobType: nat)
    requires jobType in c.enqueuable
    ensures Run(c, EMPTY, [Enqueue(1, jobType, 0), Start(0)])
         == World(map[1 := Job(jobType, 0, Queued, 0)], map[0 := Idle], map[1 := 0])
  {
    RunTwo(c, EMPTY, Enqueue(1, jobType, 0), Start(0));
  }

  /** From the start: enqueue, claim, crash. */
  lemma CrashAfterClaimStrands(c: Config, jobType: nat)
    requires jobType in c.enqueuable
    ensures Stranded(Run(c, EMPTY, [Enqueue(1, jobType, 0), Start(0)] + [Lock(0, 1), CommitClaim(0)] + [Crash(0)]), 1)
  {
    var start, claim := [Enqueue(1, jobType, 0), Start(0)], [Lock(0, 1), CommitClaim(0)];
    EnqueueStartRuns(c, jobType);
    ClaimRuns(c, Run(c, EMPTY, start), 0, 1);
    RunConcat(c, EMPTY, start, claim);
    ReachableInv(c, start + claim);
    CrashStrands(c, Run(c, EMPTY, start + claim), 0, 1);
    RunSnoc(c, EMPTY, start + claim, Crash(0));
  }

  /** Some continuation changes the row. */
  ghost predicate CanChange(c: Config, w: World, id: nat)
    requires id in w.jobs
  {
    exists steps :: Changes(c, w, steps, id)
  }

  predicate Changes(c: Config, w: World, steps: seq<Step>, id: nat)
    requires id in w.jobs
  {
    id !in Run(c, w, steps).jobs || Run(c, w, steps).jobs[id] != w.jobs[id]
  }

  /** A held job's worker can finish it: by running the handler, when there is one and it has not run yet,
      and reporting. */
  lemma HeldCanChange(c: Config, w: World, k: nat, id: nat)
    requires Inv(c, w) && k in w.workers && Holds(w.workers[k], id)
    ensures id in w.jobs && CanChange(c, w, id)
  {
    assert WorkerOk(w, w.workers[k]);
    assert Run(c, w, []) == w;
    RunSnoc(c, w, [], Report(k));
    if w.workers[k].Claimed? && w.jobs[id].jobType in c.handlers {
      RunSnoc(c, w, [], RunHandler(k, false));
      RunSnoc(c, w, [RunHandler(k, false)], Report(k));
      assert Changes(c, w, [RunHandler(k, false), Report(k)], id);
    } else {
      assert Changes(c, w, [Report(k)], id);
    }
  }

  /** Exactly when a running job is lost: its row can still change if and only if some worker holds it. */
  lemma RunningCanChangeIffHeld(c: Config, w: World, id: nat)
    requires Inv(c, w) && id in w.jobs && w.jobs[id].status == Running
    ensures CanChange(c, w, id) <==> exists k | k in w.workers :: Holds(w.workers[k], id)
  {
    if k :| k in w.workers && Holds(w.workers[k], id) {
      HeldCanChange(c, w, k, id);
    } else {
      forall steps
        ensures !Changes(c, w, steps, id)
      {
        StrandedForever(c, w, steps, id);
      }
    }
  }

  // ------------------------------------------------------------------ handlers the workers do not have

  /** A job whose type the workers have not registered. */
  predicate UnhandledOk(c: Config, w: World, id: nat)
    requires id in w.jobs
  {
    w.jobs[id].jobType !in c.handlers ==>
      && id in w.runs && w.runs[id] == 0
      && w.jobs[id].status != Succeeded && (w.jobs[id].status == Queued ==> w.jobs[id].attempts == 0)
         && w.jobs[id].attempts <= 1
      && forall k | k in w.workers :: !(w.workers[k].Ran? && w.workers[k].job == id)
  }

  lemma {:induction false} UnhandledNeverRuns(c: Config, steps: seq<Step>)
    ensures forall id | id in Run(c, EMPTY, steps).jobs :: UnhandledOk(c, Run(c, EMPTY, steps), id)
  {
    if steps != [] {
      var front, step := steps[..|steps| - 1], steps[|steps| - 1];
      UnhandledNeverRuns(c, front);
      ReachableInv(c, front);
      var w := Run(c, EMPTY, front);
      forall id | id in Run(c, EMPTY, steps).jobs
        ensures UnhandledOk(c, Run(c, EMPTY, steps), id)
      {
        UnhandledStep(c, w, step, id);
      }
    }
  }

  lemma UnhandledStep(c: Config, w: World, step: Step, id: nat)
    requires Inv(c, w) && forall j | j in w.jobs :: UnhandledOk(c, w, j)
    requires id in Apply(c, w, step).jobs
    ensures UnhandledOk(c, Apply(c, w, step), id)
  {
    assert forall k | k in w.workers :: WorkerOk(w, w.workers[k]);
    if id in w.jobs {
      assert UnhandledOk(c, w, id);
    }
  }

  /** A job can be enqueued that no worker can run: it is claimed once, never handled, and if it ends at all
      it ends failed. Workers that register no handler complete nothing. */
  lemma UnregisteredJobsOnlyFail(c: Config, steps: seq<Step>, id: nat)
    requires id in Run(c, EMPTY, steps).jobs && Run(c, EMPTY, steps).jobs[id].jobType !in c.handlers
    ensures var w := Run(c, EMPTY, steps);
            id in w.runs && w.runs[id] == 0 && w.jobs[id].status != Succeeded && w.jobs[id].attempts <= 1
            && (w.jobs[id].attempts > 0 ==> w.jobs[id].status in {Running, Failed})
  {
    UnhandledNeverRuns(c, steps);
    assert UnhandledOk(c, Run(c, EMPTY, steps), id);
  }

  /** Every job of every run has a handler exactly when all that can be enqueued is registered in the workers. */
  lemma EveryJobHasAHandlerIff(c: Config)
    ensures (forall steps, id | id in Run(c, EMPTY, steps).jobs :: Run(c, EMPTY, steps).jobs[id].jobType in c.handlers)
       <==> c.enqueuable <= c.handlers
  {
    if c.enqueuable <= c.handlers {
      forall steps, id | id in Run(c, EMPTY, steps).jobs
        ensures Run(c, EMPTY, steps).jobs[id].jobType in c.handlers
      {
        JobsAreEnqueuable(c, steps);
      }
    } else {
      var jobType :| jobType in c.enqueuable && jobType !in c.handlers;
      EnqueueStartRuns(c, jobType);
      assert 1 in Run(c, EMPTY, [Enqueue(1, jobType, 0), Start(0)]).jobs;
    }
  }

  lemma {:induction false} JobsAreEnqueuable(c: Config, steps: seq<Step>)
    ensures forall id | id in Run(c, EMPTY, steps).jobs :: Run(c, EMPTY, steps).jobs[id].jobType in c.enqueuable
  {
    if steps != [] {
      var front, step := steps[..|steps| - 1], steps[|steps| - 1];
      JobsAreEnqueuable(c, front);
      TypesStay(c, Run(c, EMPTY, front), step);
    }
  }

  lemma TypesStay(c: Config, w: World, step: Step)
    ensures forall id | id in Apply(c, w, step).jobs ::
              if id in w.jobs then Apply(c, w, step).jobs[id].jobType == w.jobs[id].jobType
              else Apply(c, w, step).jobs[id].jobType in c.enqueuable
  {
  }

  /** Enqueue one job, start one worker, let it make one call of process_once. */
  function FirstCall(c: Config, jobType: nat, raises: bool): seq<Step>
  {
    [Enqueue(1, jobType, 0), Start(0)] + AttemptSteps(c, Job(jobType, 0, Queued, 0), 0, 1, raises)
  }

  lemma FirstCallRuns(c: Config, jobType: nat, raises: bool)
    requires jobType in c.enqueuable
    ensures var job := Job(jobType, 0, Queued, 0);
            Run(c, EMPTY, FirstCall(c, jobType, raises)).jobs == map[1 := Attempt(c, job, raises)]
  {
    var start, job := [Enqueue(1, jobType, 0), Start(0)], Job(jobType, 0, Queued, 0);
    EnqueueStartRuns(c, jobType);
    ReachableInv(c, start);
    CallIsASchedule(c, Run(c, EMPTY, start), 0, 1, raises);
    RunConcat(c, EMPTY, start, AttemptSteps(c, job, 0, 1, raises));
    assert Run(c, EMPTY, start).jobs == map[1 := job];
  }

  /** A job of a type that can be enqueued and that the workers have not registered is failed by the first call
      of process_once. */
  lemma UnregisteredJobFails(c: Config, jobType: nat, raises: bool)
    requires jobType in c.enqueuable && jobType !in c.handlers
    ensures Run(c, EMPTY, FirstCall(c, jobType, raises)).jobs == map[1 := Job(jobType, 0, Failed, 1)]
  {
    FirstCallRuns(c, jobType, raises);
  }

  predicate SucceedsIn(c: Config, w: World, steps: seq<Step>, id: nat) {
    id in Run(c, w, steps).jobs && Run(c, w, steps).jobs[id].status == Succeeded
  }

  /** A job type can succeed at all exactly when it is registered both where jobs are enqueued and in the
      workers. */
  lemma TypeCanSucceedIff(c: Config, jobType: nat)
    ensures (exists steps, id :: SucceedsIn(c, EMPTY, steps, id) && Run(c, EMPTY, steps).jobs[id].jobType == jobType)
       <==> jobType in c.enqueuable && jobType in c.handlers
  {
    if steps, id :| SucceedsIn(c, EMPTY, steps, id) && Run(c, EMPTY, steps).jobs[id].jobType == jobType {
      JobsAreEnqueuable(c, steps);
      if jobType !in c.handlers {
        UnregisteredJobsOnlyFail(c, steps, id);
      }
    }
    if jobType in c.enqueuable && jobType in c.handlers {
      FirstCallRuns(c, jobType, false);
      assert SucceedsIn(c, EMPTY, FirstCall(c, jobType, false), 1);
    }
  }

  /** A claimed job can still succeed exactly when its worker has a handler for it. */
  lemma ClaimedCanSucceedIff(c: Config, steps: seq<Step>, k: nat)
    requires k in Run(c, EMPTY, steps).workers && Run(c, EMPTY, steps).workers[k].Claimed?
    ensures var w := Run(c, EMPTY, steps);
            var id := w.workers[k].job;
            id in w.jobs && ((exists more :: SucceedsIn(c, w, more, id)) <==> w.jobs[id].jobType in c.handlers)
  {
    var w := Run(c, EMPTY, steps);
    var id := w.workers[k].job;
    ReachableInv(c, steps);
    assert WorkerOk(w, w.workers[k]);
    if more :| SucceedsIn(c, w, more, id) {
      RunConcat(c, EMPTY, steps, more);
      TypeStays(c, w, more, id);
      if w.jobs[id].jobType !in c.handlers {
        UnregisteredJobsOnlyFail(c, steps + more, id);
      }
    }
    if w.jobs[id].jobType in c.handlers {
      RunTwo(c, w, RunHandler(k, false), Report(k));
      assert SucceedsIn(c, w, [RunHandler(k, false), Report(k)], id);
    }
  }

  lemma {:induction false} TypeStays(c: Config, w: World, steps: seq<Step>, id: nat)
    requires id in w.jobs
    ensures id in Run(c, w, steps).jobs && Run(c, w, steps).jobs[id].jobType == w.jobs[id].jobType
  {
    if steps != [] {
      TypeStays(c, w, steps[..|steps| - 1], id);
      TypesStay(c, Run(c, w, steps[..|steps| - 1]), steps[|steps| - 1]);
    }
  }

  // ------------------------------------------------------------------ progress

  predicate QueuedJob(jobs: map<nat, Job>, id: nat) { id in jobs && jobs[id].status == Queued }

  predicate OldestQueued(jobs: map<nat, Job>, id: nat) {
    && QueuedJob(jobs, id)
    && forall other | other in jobs && QueuedJob(jobs, other) :: jobs[id].enqueuedAt <= jobs[other].enqueuedAt
  }

  lemma {:induction false} OldestExists(jobs: map<nat, Job>, id: nat) returns (oldest: nat)
    requires QueuedJob(jobs, id)
    ensures OldestQueued(jobs, oldest)
    decreases jobs[id].enqueuedAt
  {
    if other :| other in jobs && QueuedJob(jobs, other) && jobs[other].enqueuedAt < jobs[id].enqueuedAt {
      oldest := OldestExists(jobs, other);
    } else {
      oldest := id;
    }
  }

  /** No claim is in flight: the live workers are idle or busy with a job they hold. */
  predicate NoneLocking(w: World) { forall v | v in w.workers :: !w.workers[v].Locking? }

  /** The queue does not get stuck: as long as a job is queued and no claim is in flight, every idle worker
      can lock the oldest one. */
  lemma QueuedJobIsClaimable(c: Config, w: World, k: nat, id: nat) returns (oldest: nat)
    requires k in w.workers && w.workers[k].Idle? && NoneLocking(w) && QueuedJob(w.jobs, id)
    ensures OldestQueued(w.jobs, oldest)
    ensures Apply(c, w, Lock(k, oldest)) == SetWorker(w, k, Locking(oldest)) != w
  {
    oldest := OldestExists(w.jobs, id);
    assert OldestAvailable(w, k, oldest);
    assert SetWorker(w, k, Locking(oldest)).workers[k] != w.workers[k];
  }

  // ------------------------------------------------------------------ the termination measure

  predicate SomeClaimed(w: World, id: nat) {
    exists k | k in w.workers :: w.workers[k].Claimed? && w.workers[k].job == id
  }

  predicate SomeRan(w: World, id: nat) { exists k | k in w.workers :: w.workers[k].Ran? && w.workers[k].job == id }

  /** What the queue may still do for a job: three moves per remaining attempt, less those made. A job
      whose worker crashed stays running for good and counts nothing. */
  function Weight(c: Config, w: World, id: nat): nat
    requires id in w.jobs
  {
    var left := if w.jobs[id].attempts <= Cap(c) then 3 * (Cap(c) - w.jobs[id].attempts) else 0;
    match w.jobs[id].status
    case Queued => left
    case Running => if SomeClaimed(w, id) then left + 2 else if SomeRan(w, id) then left + 1 else 0
    case _ => 0
  }

  ghost function Potential(c: Config, w: World): int
  {
    MapSum(Weights(c, w))
  }

  function Weights(c: Config, w: World): map<nat, int>
  {
    map id | id in w.jobs :: Weight(c, w, id)
  }

  lemma {:induction false} SumNonNegative(m: map<nat, int>)
    requires forall k | k in m :: m[k] >= 0
    ensures MapSum(m) >= 0
    decreases |m|
  {
    if m != map[] {
      var k :| k in m;
      MapSumRemove(m, k);
      SumNonNegative(m - {k});
    }
  }

  lemma ChangeOne(m: map<nat, int>, n: map<nat, int>, id: nat)
    requires id in m && n.Keys == m.Keys
    requires forall k | k in m && k != id :: n[k] == m[k]
    ensures MapSum(n) == MapSum(m) - m[id] + n[id]
  {
    MapSumAdd(m, id, n[id] - m[id]);
    assert Add(m, id, n[id] - m[id]) == n;
  }

  predicate Productive(c: Config, w: World, step: Step) {
    (step.CommitClaim? || step.RunHandler? || step.Report?) && Apply(c, w, step) != w
  }

  /** The job a step of this worker is about is the only one whose weight it can change. */
  lemma OtherWeights(c: Config, w: World, step: Step, id: nat, other: nat)
    requires Inv(c, w) && Inv(c, Apply(c, w, step))
    requires step.CommitClaim? || step.RunHandler? || step.Report?
    requires step.w in w.workers && (w.workers[step.w].Locking? || Holds(w.workers[step.w], id))
             && w.workers[step.w].job == id
    requires other in w.jobs && other != id
    ensures other in Apply(c, w, step).jobs && JobOk(c, w, other) && JobOk(c, Apply(c, w, step), other)
    ensures Weight(c, Apply(c, w, step), other) == Weight(c, w, other)
  {
    var w' := Apply(c, w, step);
    assert w'.jobs[other] == w.jobs[other];
    assert forall k | k in w.workers && k != step.w :: w'.workers[k] == w.workers[k];
    SameHolders(w, w', step.w, other);
    assert JobOk(c, w, other) && JobOk(c, w', other);
  }

  lemma SameHolders(w: World, w': World, k: nat, other: nat)
    requires w'.workers.Keys == w.workers.Keys && k in w.workers
    requires forall l | l in w.workers && l != k :: w'.workers[l] == w.workers[l]
    requires !Holds(w.workers[k], other) && !Holds(w'.workers[k], other)
    ensures SomeClaimed(w', other) <==> SomeClaimed(w, other)
    ensures SomeRan(w', other) <==> SomeRan(w, other)
  {
  }

  lemma OwnWeightDrops(c: Config, w: World, step: Step, id: nat)
    requires Inv(c, w) && Inv(c, Apply(c, w, step))
    requires Productive(c, w, step) && step.w in w.workers
    requires !w.workers[step.w].Idle? && !w.workers[step.w].Crashed? && w.workers[step.w].job == id
    ensures id in w.jobs && id in Apply(c, w, step).jobs
    ensures JobOk(c, w, id) && JobOk(c, Apply(c, w, step), id)
    ensures Weight(c, Apply(c, w, step), id) < Weight(c, w, id)
  {
    var w' := Apply(c, w, step);
    var k := step.w;
    assert WorkerOk(w, w.workers[k]) && WorkerOk(w', w'.workers[k]);
    assert JobOk(c, w, id) && JobOk(c, w', id);
    assert forall l | l in w.workers && l != k :: Apart(w.workers[k], w.workers[l]);
    match step
    case CommitClaim(_) => assert w'.workers[k].Claimed?;
    case RunHandler(_, _) => assert w.workers[k].Claimed? && w'.workers[k].Ran?;
    case Report(_) => assert w.workers[k].Claimed? || w.workers[k].Ran?;
  }

  /** Every claim, handler run and report lowers the potential. */
  lemma ProductiveStepsDescend(c: Config, w: World, step: Step)
    requires Inv(c, w) && Productive(c, w, step)
    ensures Inv(c, Apply(c, w, step))
    ensures Potential(c, Apply(c, w, step)) < Potential(c, w)
  {
    ApplyKeepsInv(c, w, step);
    var w' := Apply(c, w, step);
    assert step.w in w.workers && WorkerOk(w, w.workers[step.w]);
    var id := w.workers[step.w].job;
    OwnWeightDrops(c, w, step, id);
    forall other | other in w.jobs && other != id
      ensures Weights(c, w')[other] == Weights(c, w)[other]
    {
      OtherWeights(c, w, step, id, other);
    }
    assert w'.jobs.Keys == w.jobs.Keys;
    ChangeOne(Weights(c, w), Weights(c, w'), id);
  }

  lemma EnqueueRaisesByCap(c: Config, w: World, step: Step)
    requires Inv(c, w) && step.Enqueue?
    ensures Potential(c, Apply(c, w, step)) <= Potential(c, w) + 3 * Cap(c)
  {
    var w' := Apply(c, w, step);
    if w' != w {
      forall id | id in w.jobs
        ensures Weights(c, w')[id] == Weights(c, w)[id]
      {
        assert w'.jobs[id] == w.jobs[id] && w'.workers == w.workers;
      }
      assert Weights(c, w') == Add(Weights(c, w), step.id, 3 * Cap(c));
      MapSumAdd(Weights(c, w), step.id, 3 * Cap(c));
    }
  }

  /** The remaining steps never raise it, except that a new job brings three moves per attempt. */
  lemma OtherStepsDoNotRaise(c: Config, w: World, step: Step)
    requires Inv(c, w) && !Productive(c, w, step)
    ensures Potential(c, Apply(c, w, step)) <= Potential(c, w) + (if step.Enqueue? then 3 * Cap(c) else 0)
  {
    var w' := Apply(c, w, step);
    if step.Enqueue? {
      EnqueueRaisesByCap(c, w, step);
    } else {
      assert w'.jobs == w.jobs;
      forall id | id in w.jobs
        ensures Weights(c, w')[id] <= Weights(c, w)[id]
      {
        WeightNotRaised(c, w, step, id);
      }
      SumMonotone(Weights(c, w'), Weights(c, w));
    }
  }

  lemma WeightNotRaised(c: Config, w: World, step: Step, id: nat)
    requires Inv(c, w) && id in w.jobs
    requires step.Start? || step.Lock? || step.AbortClaim? || step.Crash? || (!step.Enqueue? && Apply(c, w, step) == w)
    ensures Apply(c, w, step).jobs == w.jobs
    ensures Weight(c, Apply(c, w, step), id) <= Weight(c, w, id)
  {
    var w' := Apply(c, w, step);
    assert forall k | k in w'.workers && (w'.workers[k].Claimed? || w'.workers[k].Ran?) ::
      k in w.workers && w.workers[k] == w'.workers[k];
    assert SomeClaimed(w', id) ==> SomeClaimed(w, id);
    assert SomeRan(w', id) ==> SomeRan(w, id);
  }

  lemma {:induction false} SumMonotone(m: map<nat, int>, n: map<nat, int>)
    requires m.Keys == n.Keys && forall k | k in m :: m[k] <= n[k]
    ensures MapSum(m) <= MapSum(n)
    decreases |m|
  {
    if m == map[] {
      assert n == map[];
    } else {
      var k :| k in m;
      MapSumRemove(m, k);
      MapSumRemove(n, k);
      SumMonotone(m - {k}, n - {k});
    }
  }

  /** How many productive steps, and how many enqueues, a run makes. */
  function ProductiveCount(c: Config, w: World, steps: seq<Step>): nat
  {
    if steps == [] then 0
    else
      var front := steps[..|steps| - 1];
      ProductiveCount(c, w, front) + (if Productive(c, Run(c, w, front), steps[|steps| - 1]) then 1 else 0)
  }

  function EnqueueCount(steps: seq<Step>): nat
  {
    if steps == [] then 0
    else EnqueueCount(steps[..|steps| - 1]) + (if steps[|steps| - 1].Enqueue? then 1 else 0)
  }

  lemma StepBudget(c: Config, w: World, step: Step)
    requires Inv(c, w)
    ensures Potential(c, Apply(c, w, step)) + (if Productive(c, w, step) then 1 else 0)
         <= Potential(c, w) + (if step.Enqueue? then 3 * Cap(c) else 0)
  {
    if Productive(c, w, step) {
      ProductiveStepsDescend(c, w, step);
    } else {
      OtherStepsDoNotRaise(c, w, step);
    }
  }

  lemma {:induction false} PotentialBudget(c: Config, steps: seq<Step>)
    ensures Potential(c, Run(c, EMPTY, steps)) + ProductiveCount(c, EMPTY, steps) <= 3 * Cap(c) * EnqueueCount(steps)
  {
    if steps == [] {
      assert Weights(c, EMPTY) == map[];
    } else {
      var front, step := steps[..|steps| - 1], steps[|steps| - 1];
      PotentialBudget(c, front);
      ReachableInv(c, front);
      StepBudget(c, Run(c, EMPTY, front), step);
      OneMore(3 * Cap(c), EnqueueCount(front));
    }
  }

  lemma OneMore(each: nat, n: nat)
    ensures each * (n + 1) == each * n + each
  {
  }

  /** The workers cannot be kept busy for ever: however they interleave, crash and retry, n enqueued jobs
      cause at most 3 * cap * n claims, handler runs and reports in all. */
  lemma WorkIsBounded(c: Config, steps: seq<Step>)
    ensures ProductiveCount(c, EMPTY, steps) <= 3 * Cap(c) * EnqueueCount(steps)
  {
    PotentialBudget(c, steps);
    SumNonNegative(Weights(c, Run(c, EMPTY, steps)));
  }

  // ------------------------------------------------------------------ one worker process

  function ClaimedRow(job: Job): Job { job.(status := Running, attempts := job.attempts + 1) }

  function Attempt(c: Config, job: Job, raised: bool): Job { Ended(c, ClaimedRow(job), job.attempts, raised) }

  ghost predicate NoneQueued(jobs: map<nat, Job>) { forall id :: !QueuedJob(jobs, id) }

  /** One attempt at an oldest queued job. */
  ghost predicate Attempted(c: Config, before: map<nat, Job>, after: map<nat, Job>, raised: bool) {
    exists id :: OldestQueued(before, id) && after == before[id := Attempt(c, before[id], raised)]
  }

  /** An oldest queued job claimed and never reported on. */
  ghost predicate LeftRunning(before: map<nat, Job>, after: map<nat, Job>) {
    exists id :: OldestQueued(before, id) && after == before[id := ClaimedRow(before[id])]
  }

  lemma AttemptedDescends(c: Config, before: map<nat, Job>, after: map<nat, Job>, raised: bool)
    requires Bounded(c, before) && Attempted(c, before, after, raised)
    ensures MapSum(Remaining(c, after)) < MapSum(Remaining(c, before))
  {
    var id :| OldestQueued(before, id) && after == before[id := Attempt(c, before[id], raised)];
    AttemptDescends(c, before, id, raised);
  }

  /** A claimed row after its handler, or the lack of one, has been reported. */
  function Ended(c: Config, claimed: Job, attempts: nat, raised: bool): Job
  {
    if claimed.jobType !in c.handlers then claimed.(status := Failed) else AfterHandler(c, claimed, attempts, raised)
  }

  /** The attempts left to the queued jobs. */
  function Remaining(c: Config, jobs: map<nat, Job>): map<nat, int>
  {
    map id | id in jobs :: if jobs[id].status == Queued then Cap(c) - jobs[id].attempts else 0
  }

  ghost predicate Bounded(c: Config, jobs: map<nat, Job>) {
    forall id | id in jobs && jobs[id].status == Queued :: jobs[id].attempts < Cap(c)
  }

  lemma AttemptDescends(c: Config, jobs: map<nat, Job>, id: nat, raised: bool)
    requires Bounded(c, jobs) && QueuedJob(jobs, id)
    ensures var after := jobs[id := Attempt(c, jobs[id], raised)];
            Bounded(c, after) && MapSum(Remaining(c, after)) < MapSum(Remaining(c, jobs))
  {
    var after := jobs[id := Attempt(c, jobs[id], raised)];
    ChangeOne(Remaining(c, jobs), Remaining(c, after), id);
  }

  method PickOldest(jobs: map<nat, Job>) returns (pick: Option<nat>)
    ensures pick.None? ==> NoneQueued(jobs)
    ensures pick.Some? ==> OldestQueued(jobs, pick.value)
    ensures pick.Some? ==> pick.value in jobs && jobs[pick.value].status == Queued
    ensures pick.Some? ==> forall id | id in jobs && jobs[id].status == Queued ::
              jobs[pick.value].enqueuedAt <= jobs[id].enqueuedAt
    ensures pick.None? ==> forall id | id in jobs :: jobs[id].status != Queued
  {
    pick := None;
    var rest := jobs.Keys;
    while rest != {}
      invariant rest <= jobs.Keys
      invariant pick.None? ==> forall id | id in jobs.Keys - rest :: !QueuedJob(jobs, id)
      invariant pick.Some? ==> QueuedJob(jobs, pick.value)
      invariant pick.Some? ==> forall id | id in jobs.Keys - rest && QueuedJob(jobs, id) ::
        jobs[pick.value].enqueuedAt <= jobs[id].enqueuedAt
    {
      var id :| id in rest;
      if jobs[id].status == Queued && (pick.None? || jobs[id].enqueuedAt < jobs[pick.value].enqueuedAt) {
        pick := Some(id);
      }
      rest := rest - {id};
    }
    assert jobs.Keys - rest == jobs.Keys;
    assert forall id | id in jobs && jobs[id].status == Queued :: id in jobs.Keys - rest && QueuedJob(jobs, id);
  }

  /** What one call of process_once by worker k does in the protocol. */
  function AttemptSteps(c: Config, job: Job, k: nat, id: nat, raises: bool): seq<Step>
  {
    [Lock(k, id), CommitClaim(k)] + (if job.jobType in c.handlers then [RunHandler(k, raises)] else []) + [Report(k)]
  }

  /** A call that nothing interrupts is a run of the protocol: it ends with the worker idle and the oldest
      job's attempt made, whatever jobs the other workers hold meanwhile. */
  lemma CallIsASchedule(c: Config, w: World, k: nat, id: nat, raises: bool)
    requires Inv(c, w) && k in w.workers && w.workers[k].Idle? && NoneLocking(w) && OldestQueued(w.jobs, id)
    ensures var w' := Run(c, w, AttemptSteps(c, w.jobs[id], k, id, raises));
            w'.jobs == w.jobs[id := Attempt(c, w.jobs[id], raises)] && w'.workers == w.workers
  {
    var claim, job := [Lock(k, id), CommitClaim(k)], w.jobs[id];
    ClaimRuns(c, w, k, id);
    assert JobOk(c, w, id);
    if job.jobType in c.handlers {
      RunConcat(c, w, claim, [RunHandler(k, raises), Report(k)]);
      RunTwo(c, ClaimedWorld(w, k, id), RunHandler(k, raises), Report(k));
      HandledRuns(c, w, k, id, raises);
      assert AttemptSteps(c, job, k, id, raises) == claim + [RunHandler(k, raises), Report(k)];
    } else {
      RunSnoc(c, w, claim, Report(k));
      UnhandledRuns(c, w, k, id, raises);
      assert AttemptSteps(c, job, k, id, raises) == claim + [Report(k)];
    }
  }

  lemma HandledRuns(c: Config, w: World, k: nat, id: nat, raises: bool)
    requires k in w.workers && w.workers[k].Idle? && id in w.jobs && id in w.runs && w.jobs[id].jobType in c.handlers
    ensures var w' := Apply(c, Apply(c, ClaimedWorld(w, k, id), RunHandler(k, raises)), Report(k));
            w'.jobs == w.jobs[id := Attempt(c, w.jobs[id], raises)] && w'.workers == w.workers
  {
    var w' := Apply(c, Apply(c, ClaimedWorld(w, k, id), RunHandler(k, raises)), Report(k));
    assert w'.jobs[id] == Attempt(c, w.jobs[id], raises);
  }

  lemma UnhandledRuns(c: Config, w: World, k: nat, id: nat, raises: bool)
    requires k in w.workers && w.workers[k].Idle? && id in w.jobs && w.jobs[id].jobType !in c.handlers
    ensures var w' := Apply(c, ClaimedWorld(w, k, id), Report(k));
            w'.jobs == w.jobs[id := Attempt(c, w.jobs[id], raises)] && w'.workers == w.workers
  {
  }

  /** Where the database can raise: in the claim, which is rolled back, or in the report, which leaves the row
      running as a crash would. */
  datatype FaultPoint = AtClaim | AtReport

  datatype Failure = ClaimFailed | ReportFailed

  /** Between the tables exactly one job differs, the oldest queued one: it has one attempt more, and this status. */
  ghost predicate OneMoved(before: map<nat, Job>, after: map<nat, Job>, id: nat, status: Status) {
    && before.Keys == after.Keys && id in before && before[id].status == Queued
    && (forall other | other in before && before[other].status == Queued ::
          before[id].enqueuedAt <= before[other].enqueuedAt)
    && (forall other | other in before && other != id :: after[other] == before[other])
    && after[id] == Job(before[id].jobType, before[id].enqueuedAt, status, before[id].attempts + 1)
  }

  /** An attempt fails a job without handler; otherwise it succeeds, or puts it back while attempts are left. */
  function OutcomeOf(c: Config, job: Job, raises: bool): Status
  {
    if job.jobType !in c.handlers then Failed
    else if !raises then Succeeded
    else if job.attempts + 1 < c.maxAttempts then Queued
    else Failed
  }

  class JobQueue {
    const config: Config
    var jobs: map<nat, Job>

    /** The claiming transaction: the oldest queued job becomes running, with one more attempt. */
    method Claim() returns (picked: Option<nat>)
      requires Bounded(config, jobs)
      modifies this`jobs
      ensures Bounded(config, jobs)
      ensures picked.None? ==> jobs == old(jobs) && NoneQueued(jobs)
      ensures picked.Some? ==> OneMoved(old(jobs), jobs, picked.value, Running)
      ensures picked.Some? ==> OldestQueued(old(jobs), picked.value)
                               && jobs == old(jobs)[picked.value := ClaimedRow(old(jobs)[picked.value])]
    {
      picked := PickOldest(jobs);
      if picked.Some? {
        jobs := jobs[picked.value := ClaimedRow(jobs[picked.value])];
      }
    }

    /** Claim, run and report one job; `raises` is what its handler will do. */
    method ProcessOnce(raises: bool, fault: Option<FaultPoint>) returns (processed: Result<bool, Failure>)
      requires Bounded(config, jobs)
      modifies this
      ensures Bounded(config, jobs)
      ensures processed.Err? ==> fault.Some?
      ensures processed == Err(ClaimFailed) <==> fault == Some(AtClaim)
      ensures processed == Err(ReportFailed) <==> fault == Some(AtReport) && !NoneQueued(old(jobs))
      ensures processed == Ok(false) <==> fault != Some(AtClaim) && NoneQueued(old(jobs))
      ensures processed == Ok(true) ==> Attempted(config, old(jobs), jobs, raises)
      ensures processed == Ok(true) ==>
                exists id :: id in old(jobs) && OneMoved(old(jobs), jobs, id, OutcomeOf(config, old(jobs)[id], raises))
      ensures processed == Err(ReportFailed) ==> LeftRunning(old(jobs), jobs)
      ensures processed == Err(ReportFailed) ==> exists id :: OneMoved(old(jobs), jobs, id, Running)
      ensures processed == Ok(false) || processed == Err(ClaimFailed) ==> jobs == old(jobs)
    {
      assert fault.Some? ==> fault.value.AtClaim? || fault.value.AtReport?;
      if fault == Some(AtClaim) {
        return Err(ClaimFailed);
      }
      ghost var before := jobs;
      var picked := Claim();
      if picked.None? {
        return Ok(false);
      }
      var id := picked.value;
      assert !NoneQueued(before) by { assert QueuedJob(before, id); }
      if fault == Some(AtReport) {
        return Err(ReportFailed);
      }
      Finish(id, jobs[id].attempts - 1, raises);
      assert jobs == before[id := Attempt(config, before[id], raises)];
      AttemptDescends(config, before, id, raises);
      assert OneMoved(before, jobs, id, OutcomeOf(config, before[id], raises));
      return Ok(true);
    }

    /** Runs the handler, if one is registered, and updates the row by its id. */
    method Finish(id: nat, attempts: nat, raises: bool)
      requires id in jobs
      modifies this`jobs
      ensures jobs == old(jobs)[id := Ended(config, old(jobs)[id], attempts, raises)]
    {
      if jobs[id].jobType !in config.handlers {
        jobs := jobs[id := jobs[id].(status := Failed)];
        return;
      }
      if raises {
        if attempts + 1 >= config.maxAttempts {
          jobs := jobs[id := jobs[id].(status := Failed)];
        } else {
          jobs := jobs[id := jobs[id].(status := Queued)];
        }
      } else {
        jobs := jobs[id := jobs[id].(status := Succeeded)];
      }
    }

    /** The poll loop, stopped after the given number of turns or by the first database failure: as many
        turns as there are attempts left drain the queue, whatever the handlers do. */
    method RunWorker(turns: nat, raises: nat -> bool, faults: nat -> Option<FaultPoint>)
      returns (failure: Option<Failure>)
      requires Bounded(config, jobs)
      modifies this
      ensures Bounded(config, jobs)
      ensures failure.None? && turns >= MapSum(Remaining(config, old(jobs))) ==> NoneQueued(jobs)
      ensures failure.None? && turns >= (if config.maxAttempts < 1 then 1 else config.maxAttempts) * |old(jobs)| ==>
                forall id | id in jobs :: jobs[id].status != Queued
      ensures (forall turn: nat | turn < turns :: faults(turn).None?) ==> failure.None?
    {
      for turn := 0 to turns
        invariant Bounded(config, jobs)
        invariant NoneQueued(jobs) || MapSum(Remaining(config, jobs)) + turn <= MapSum(Remaining(config, old(jobs)))
      {
        ghost var before := jobs;
        var processed := ProcessOnce(raises(turn), faults(turn));
        if processed.Err? {
          assert faults(turn).Some?;
          return Some(processed.error);
        }
        if processed.value {
          AttemptedDescends(config, before, jobs, raises(turn));
        }
      }
      DrainedAtZero(config, jobs);
      RemainingAtMost(config, old(jobs));
      assert NoneQueued(jobs) ==> forall id | id in jobs :: !QueuedJob(jobs, id);
      return None;
    }
  }

  lemma RemainingAtMost(c: Config, jobs: map<nat, Job>)
    ensures MapSum(Remaining(c, jobs)) <= Cap(c) * |jobs|
  {
    var m := Remaining(c, jobs);
    assert m.Keys == jobs.Keys && |m| == |m.Keys| == |jobs.Keys| == |jobs|;
    SumAtMost(m, Cap(c));
  }

  lemma {:induction false} SumAtMost(m: map<nat, int>, each: nat)
    requires forall k | k in m :: m[k] <= each
    ensures MapSum(m) <= each * |m|
    decreases |m|
  {
    if m == map[] {
      assert each * 0 == 0;
    } else {
      var k :| k in m;
      var rest := m - {k};
      OneFewer(m, k);
      SumAtMost(rest, each);
      MapSumRemove(m, k);
      OneMore(each, |rest|);
    }
  }

  lemma OneFewer(m: map<nat, int>, k: nat)
    requires k in m
    ensures |m| == |m - {k}| + 1
  {
    assert (m - {k}).Keys == m.Keys - {k};
  }

  lemma DrainedAtZero(c: Config, jobs: map<nat, Job>)
    requires Bounded(c, jobs)
    ensures MapSum(Remaining(c, jobs)) <= 0 ==> NoneQueued(jobs)
  {
    if id :| QueuedJob(jobs, id) {
      var m := Remaining(c, jobs);
      MapSumRemove(m, id);
      SumNonNegative(m - {id});
    }
  }
}
