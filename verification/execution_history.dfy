/** What repeated executions of one job add up to: the counters, the retry
    counter and the status after any sequence of attempt outcomes. */
module ExecutionHistory {
  import opened Common
  import opened JobEntity
  import opened JobsService

  /** One completed attempt: when it ran and how the work ended. */
  datatype Step = Step(at: Timestamp, outcome: Outcome)

  /** The record after the attempts of `steps`, in order, each of whose two
      writes was saved. */
  function Replay(job: Job, steps: seq<Step>): Job
    decreases |steps|
  {
    if steps == [] then job
    else
      var last := steps[|steps| - 1];
      Finish(MarkRunning(Replay(job, steps[..|steps| - 1]), last.at), last.outcome, last.at)
  }

  function Successes(steps: seq<Step>): nat
    decreases |steps|
  {
    if steps == [] then 0
    else Successes(steps[..|steps| - 1]) + (if steps[|steps| - 1].outcome.Succeeded? then 1 else 0)
  }

  function Failures(steps: seq<Step>): nat
    decreases |steps|
  {
    if steps == [] then 0
    else Failures(steps[..|steps| - 1]) + (if steps[|steps| - 1].outcome.Threw? then 1 else 0)
  }

  /** Failures since the last success; with no success in `steps`, the job's
      own retry counter counts as earlier failures. */
  function ConsecutiveFailures(job: Job, steps: seq<Step>): nat
    decreases |steps|
  {
    if steps == [] then job.retryCount
    else if steps[|steps| - 1].outcome.Succeeded? then 0
    else ConsecutiveFailures(job, steps[..|steps| - 1]) + 1
  }

  function Min(a: int, b: int): int {
    if a <= b then a else b
  }

  /** The retry counter is the run of consecutive failures, capped at the
      budget; a failure leaves the job pending exactly while that run is within
      the budget; every attempt is counted once as a success or a failure. */
  lemma {:induction false} ReplayBookkeeping(job: Job, steps: seq<Step>)
    requires RetryWithinBudget(job)
    ensures var r := Replay(job, steps);
      && RetryWithinBudget(r)
      && SameDefinition(job, r) && r.isActive == job.isActive
      && r.retryCount == Min(ConsecutiveFailures(job, steps), job.maxRetries)
      && r.successCount == job.successCount + Successes(steps)
      && r.failureCount == job.failureCount + Failures(steps)
    ensures steps != [] && steps[|steps| - 1].outcome.Succeeded? ==>
      Replay(job, steps).status == Completed
    ensures steps != [] && steps[|steps| - 1].outcome.Threw? ==>
      && Replay(job, steps).lastError == Some(steps[|steps| - 1].outcome.message)
      && (Replay(job, steps).status == Pending <==> ConsecutiveFailures(job, steps) <= job.maxRetries)
      && (Replay(job, steps).status == Failed <==> ConsecutiveFailures(job, steps) > job.maxRetries)
    decreases |steps|
  {
    if steps != [] {
      ReplayBookkeeping(job, steps[..|steps| - 1]);
    }
  }

  /** With every attempt failing, the run of failures is the starting retry
      counter plus the number of attempts. */
  lemma {:induction false} AllFailuresAreConsecutive(job: Job, steps: seq<Step>)
    requires forall i :: 0 <= i < |steps| ==> steps[i].outcome.Threw?
    ensures ConsecutiveFailures(job, steps) == job.retryCount + |steps|
    ensures Failures(steps) == |steps| && Successes(steps) == 0
    decreases |steps|
  {
    if steps != [] {
      AllFailuresAreConsecutive(job, steps[..|steps| - 1]);
    }
  }

  /** A new job whose work always fails stays pending for `maxRetries`
      attempts and is left failed from attempt `maxRetries + 1` on, with its
      retry counter stopped at the budget. */
  lemma AlwaysFailingJob(job: Job, steps: seq<Step>)
    requires NeverExecuted(job) && 0 <= job.maxRetries
    requires steps != []
    requires forall i :: 0 <= i < |steps| ==> steps[i].outcome.Threw?
    ensures Replay(job, steps).failureCount == |steps|
    ensures Replay(job, steps).successCount == 0
    ensures |steps| <= job.maxRetries ==>
      Replay(job, steps).status == Pending && Replay(job, steps).retryCount == |steps|
    ensures |steps| > job.maxRetries ==>
      Replay(job, steps).status == Failed && Replay(job, steps).retryCount == job.maxRetries
  {
    AllFailuresAreConsecutive(job, steps);
    ReplayBookkeeping(job, steps);
  }

  /** Lowering `maxRetries` through an update below the current retry counter
      is accepted, so the bounded-retry invariant does not survive updates. */
  lemma UpdateCanExceedRetryBudget(store: map<string, Job>, id: string, now: Timestamp)
    requires id in store && store[id].retryCount == 3
    ensures var r := Update(store, id, UpdateJobInput(None, None, None, None, None, None, Some(1)), now);
      r.Ok? && !RetryWithinBudget(r.value.job)
  {
  }
}
