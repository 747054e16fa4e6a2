/** The scheduler: the due rule, one dispatch tick over the active jobs, and
    the status summary. A tick is strictly sequential: each due job is
    executed to completion before the next one is examined. */
module SchedulerService {
  import opened Common
  import opened JobEntity
  import opened JobStore
  import opened JobsService

  /** The cap on jobs the tick counts as running at once. */
  const MaxConcurrentJobs: nat := 5

  /** Jobs that have failed more often than this are no longer dispatched. */
  const FailureCeiling: nat := 10

  /** `shouldExecuteJob`: whether a listed job runs in a tick that started at `now`. */
  predicate ShouldExecuteJob(job: Job, now: Timestamp)
    ensures ShouldExecuteJob(job, now) <==>
      && job.isActive && job.status != Running && job.failureCount <= FailureCeiling
      && job.nextExecutionAt.Some? && job.nextExecutionAt.value <= now
  {
    if !job.isActive || job.status == Running then false
    else if job.nextExecutionAt.None? then false
    else if job.failureCount > FailureCeiling then false
    else job.nextExecutionAt.value <= now
  }

  /** A job that is due stays due as time passes, until something writes it. */
  lemma DueStaysDue(job: Job, t1: Timestamp, t2: Timestamp)
    requires t1 <= t2 && ShouldExecuteJob(job, t1)
    ensures ShouldExecuteJob(job, t2)
  {
  }

  /** The due jobs of a listing, in listing order. */
  function DueSelection(jobs: seq<Job>, now: Timestamp): (due: seq<Job>)
    ensures |due| <= |jobs|
    ensures forall i :: 0 <= i < |due| ==> due[i] in jobs && ShouldExecuteJob(due[i], now)
    ensures forall i :: 0 <= i < |jobs| && ShouldExecuteJob(jobs[i], now) ==> jobs[i] in due
    decreases |jobs|
  {
    if jobs == [] then []
    else
      var init := DueSelection(jobs[..|jobs| - 1], now);
      var last := jobs[|jobs| - 1];
      assert forall j :: j in jobs[..|jobs| - 1] ==> j in jobs;
      assert forall i :: 0 <= i < |jobs| - 1 ==> jobs[i] == jobs[..|jobs| - 1][i];
      if ShouldExecuteJob(last, now) then init + [last] else init
  }

  /** Selecting twice gives the selection: the due rule looks at nothing but
      the job and the tick's time. */
  lemma {:induction false} DueSelectionIdempotent(jobs: seq<Job>, now: Timestamp)
    ensures DueSelection(DueSelection(jobs, now), now) == DueSelection(jobs, now)
    decreases |jobs|
  {
    if jobs != [] {
      var init := jobs[..|jobs| - 1];
      DueSelectionIdempotent(init, now);
      var due := DueSelection(jobs, now);
      if ShouldExecuteJob(jobs[|jobs| - 1], now) {
        assert due[..|due| - 1] == DueSelection(init, now);
      } else {
        assert due == DueSelection(init, now);
      }
    }
  }

  /** The selection keeps the listing's earliest-first order. */
  lemma {:induction false} DueSelectionKeepsOrder(jobs: seq<Job>, now: Timestamp)
    requires SortedByNextRun(jobs)
    ensures SortedByNextRun(DueSelection(jobs, now))
    decreases |jobs|
  {
    if jobs != [] {
      var init := jobs[..|jobs| - 1];
      assert SortedByNextRun(init);
      DueSelectionKeepsOrder(init, now);
      var last := jobs[|jobs| - 1];
      forall j | j in init ensures RunsNoLaterThan(j, last) {
        var i :| 0 <= i < |init| && init[i] == j;
        assert jobs[i] == j;
      }
    }
  }

  /** The selection of a listing with distinct ids has distinct ids. */
  lemma {:induction false} DueSelectionKeepsDistinct(jobs: seq<Job>, now: Timestamp)
    requires DistinctIds(jobs)
    ensures DistinctIds(DueSelection(jobs, now))
    decreases |jobs|
  {
    if jobs != [] {
      var init := jobs[..|jobs| - 1];
      assert DistinctIds(init);
      DueSelectionKeepsDistinct(init, now);
      var last := jobs[|jobs| - 1];
      forall j | j in init ensures j.id != last.id {
        var i :| 0 <= i < |init| && init[i] == j;
        assert jobs[i] == j;
      }
    }
  }

  /** What one tick reports. `FetchFailed`: reading the active jobs threw, and
      the error was caught with nothing executed. Otherwise the listing the
      tick walked, the ids it executed in order, those whose execution threw
      (caught, the loop went on), and whether the concurrency cap stopped it. */
  datatype TickReport =
    | FetchFailed
    | Processed(listing: seq<Job>, executed: seq<string>, failed: seq<string>, capReached: bool)

  /** The row a tick leaves behind for a job it found in the table. */
  function AfterTick(job: Job, now: Timestamp, parse: string -> ParseResult, attempts: string -> Attempt): Job {
    if ShouldExecuteJob(job, now) then LeftInStore(job, parse, attempts(job.id)) else job
  }

  /** Whether `execute` on row `id` throws in this tick. */
  predicate ExecutionThrew(store: Store, id: string, parse: string -> ParseResult, attempts: string -> Attempt) {
    id in store && ExecuteRecord(store[id], parse, attempts(id)).result.Err?
  }

  /** The scheduler's `executeJob`: runs `execute` on one job and catches
      whatever it throws, reporting only whether it threw. */
  method ExecuteJob(
    store: Store, job: Job, parse: string -> ParseResult, attempts: string -> Attempt)
    returns (result: Store, threw: bool)
    ensures result == Execute(store, job.id, parse, attempts(job.id)).store
    ensures result.Keys == store.Keys
    ensures forall id :: id in store && id != job.id ==> result[id] == store[id]
    ensures job.id in store ==> result[job.id] == LeftInStore(store[job.id], parse, attempts(job.id))
    ensures job.id in store ==>
      (threw <==> ExecuteRecord(store[job.id], parse, attempts(job.id)).result.Err?)
    ensures job.id !in store ==> threw && result == store
  {
    var execution := Execute(store, job.id, parse, attempts(job.id));
    result := execution.store;
    threw := execution.result.Err?;
  }

  /** The table after executing, one after the other and each on the table
      the previous one left, the due jobs of `jobs`. */
  function Dispatched(
    store: Store, jobs: seq<Job>, now: Timestamp,
    parse: string -> ParseResult, attempts: string -> Attempt): Store
    decreases |jobs|
  {
    if jobs == [] then store
    else
      var before := Dispatched(store, jobs[..|jobs| - 1], now, parse, attempts);
      var last := jobs[|jobs| - 1];
      if ShouldExecuteJob(last, now) then Execute(before, last.id, parse, attempts(last.id)).store
      else before
  }

  /** The ids of the due jobs of `jobs` whose execution threw. */
  function ThrewIds(jobs: seq<Job>, now: Timestamp, parse: string -> ParseResult, attempts: string -> Attempt): seq<string>
    decreases |jobs|
  {
    if jobs == [] then []
    else
      var last := jobs[|jobs| - 1];
      ThrewIds(jobs[..|jobs| - 1], now, parse, attempts)
      + (if ShouldExecuteJob(last, now) && ExecuteRecord(last, parse, attempts(last.id)).result.Err?
         then [last.id] else [])
  }

  /** A listing whose rows are distinct rows of `store`, as stored. */
  ghost predicate ListsRowsOf(store: Store, listing: seq<Job>) {
    && (forall k :: 0 <= k < |listing| ==> listing[k].id in store && store[listing[k].id] == listing[k])
    && DistinctIds(listing)
  }

  lemma ListsRowsOfPrefix(store: Store, listing: seq<Job>, n: nat)
    requires ListsRowsOf(store, listing) && n <= |listing|
    ensures ListsRowsOf(store, listing[..n])
  {
  }

  lemma IdsOfSnoc(jobs: seq<Job>)
    requires jobs != []
    ensures IdsOf(jobs) == IdsOf(jobs[..|jobs| - 1]) + [jobs[|jobs| - 1].id]
  {
  }

  /** In a listing with distinct ids, the last id does not occur before it. */
  lemma LastIdIsFresh(jobs: seq<Job>)
    requires jobs != [] && DistinctIds(jobs)
    ensures jobs[|jobs| - 1].id !in IdsOf(jobs[..|jobs| - 1])
  {
  }

  /** Since the listed ids are distinct, each job is executed on its own
      untouched row, and rows outside the listing are never written. */
  lemma {:induction false} DispatchedPointwise(
    store: Store, jobs: seq<Job>, now: Timestamp,
    parse: string -> ParseResult, attempts: string -> Attempt)
    requires WellKeyed(store) && ListsRowsOf(store, jobs)
    ensures var result := Dispatched(store, jobs, now, parse, attempts);
      && result.Keys == store.Keys && WellKeyed(result)
      && (forall k :: 0 <= k < |jobs| ==> result[jobs[k].id] == AfterTick(jobs[k], now, parse, attempts))
      && (forall id :: id in store && id !in IdsOf(jobs) ==> result[id] == store[id])
    decreases |jobs|
  {
    if jobs != [] {
      var init := jobs[..|jobs| - 1];
      var last := jobs[|jobs| - 1];
      ListsRowsOfPrefix(store, jobs, |jobs| - 1);
      DispatchedPointwise(store, init, now, parse, attempts);
      IdsOfSnoc(jobs);
      LastIdIsFresh(jobs);
      var before := Dispatched(store, init, now, parse, attempts);
      var result := Dispatched(store, jobs, now, parse, attempts);
      assert before[last.id] == last;
      assert result[last.id] == AfterTick(last, now, parse, attempts);
      assert forall id :: id in store && id != last.id ==> result[id] == before[id];
      forall k | 0 <= k < |init|
        ensures result[jobs[k].id] == AfterTick(jobs[k], now, parse, attempts)
      {
        assert jobs[k] == init[k];
        assert jobs[k].id != last.id;
      }
    }
  }

  /** The ids reported as threw are those of executed jobs whose execution threw. */
  lemma {:induction false} ThrewIdsCharacterized(
    store: Store, jobs: seq<Job>, now: Timestamp,
    parse: string -> ParseResult, attempts: string -> Attempt)
    requires ListsRowsOf(store, jobs)
    ensures forall id :: id in ThrewIds(jobs, now, parse, attempts) <==>
      id in IdsOf(DueSelection(jobs, now)) && ExecutionThrew(store, id, parse, attempts)
    decreases |jobs|
  {
    if jobs != [] {
      ListsRowsOfPrefix(store, jobs, |jobs| - 1);
      ThrewIdsCharacterized(store, jobs[..|jobs| - 1], now, parse, attempts);
      var due := DueSelection(jobs, now);
      if ShouldExecuteJob(jobs[|jobs| - 1], now) {
        IdsOfSnoc(due);
      }
    }
  }

  /** The loop of a tick over `listing`, with the counter of running jobs. */
  method RunListing(
    store: Store, listing: seq<Job>, now: Timestamp,
    parse: string -> ParseResult, attempts: string -> Attempt)
    returns (result: Store, executed: seq<string>, failed: seq<string>, capReached: bool)
    requires WellKeyed(store) && ListsRowsOf(store, listing)
    ensures !capReached
    ensures result == Dispatched(store, listing, now, parse, attempts)
    ensures executed == IdsOf(DueSelection(listing, now))
    ensures failed == ThrewIds(listing, now, parse, attempts)
  {
    var runningJobs := 0;
    executed := [];
    failed := [];
    capReached := false;
    result := store;
    var i := 0;
    while i < |listing|
      invariant 0 <= i <= |listing|
      invariant runningJobs == 0
      invariant result == Dispatched(store, listing[..i], now, parse, attempts)
      invariant executed == IdsOf(DueSelection(listing[..i], now))
      invariant failed == ThrewIds(listing[..i], now, parse, attempts)
    {
      if runningJobs >= MaxConcurrentJobs {
        capReached := true;
        break;
      }
      var job := listing[i];
      assert listing[..i + 1][..i] == listing[..i];
      assert listing[..i + 1][i] == job;
      if ShouldExecuteJob(job, now) {
        runningJobs := runningJobs + 1;
        ListsRowsOfPrefix(store, listing, i);
        DispatchedPointwise(store, listing[..i], now, parse, attempts);
        assert job.id !in IdsOf(listing[..i]);
        IdsOfSnoc(DueSelection(listing[..i + 1], now));
        var threw;
        result, threw := ExecuteJob(result, job, parse, attempts);
        executed := executed + [job.id];
        if threw {
          failed := failed + [job.id];
        }
        runningJobs := runningJobs - 1;
      }
      i := i + 1;
    }
    assert listing[..|listing|] == listing;
  }

  /** `processScheduledJobs`: one tick at time `now`. `fetchFails` says whether
      the active-jobs query throws; `attempts(id)` is the environment of the
      execution of job `id` in this tick. */
  method ProcessScheduledJobs(
    store: Store, now: Timestamp, fetchFails: bool,
    parse: string -> ParseResult, attempts: string -> Attempt)
    returns (result: Store, report: TickReport)
    requires WellKeyed(store)
    ensures fetchFails ==> result == store && report == FetchFailed
    ensures !fetchFails ==> report.Processed? && !report.capReached
    ensures report.Processed? ==> IsActiveListing(store, report.listing)
    ensures report.Processed? ==> report.executed == IdsOf(DueSelection(report.listing, now))
    ensures report.Processed? ==>
      && SortedByNextRun(DueSelection(report.listing, now))
      && forall i, j :: 0 <= i < j < |report.executed| ==> report.executed[i] != report.executed[j]
    ensures report.Processed? ==> forall id :: id in report.failed <==>
      id in report.executed && ExecutionThrew(store, id, parse, attempts)
    ensures result.Keys == store.Keys && WellKeyed(result)
    ensures !fetchFails ==> forall id :: id in store ==>
      result[id] == AfterTick(store[id], now, parse, attempts)
    ensures forall id :: id in store && !ShouldExecuteJob(store[id], now) ==> result[id] == store[id]
    ensures forall id :: id in store ==>
      && SameDefinition(store[id], result[id]) && result[id].isActive == store[id].isActive
      && result[id].successCount >= store[id].successCount
      && result[id].failureCount >= store[id].failureCount
      && (RetryWithinBudget(store[id]) ==> RetryWithinBudget(result[id]))
    ensures !fetchFails ==> forall id ::
      (id in store && attempts(id).fault == NoFault && ClockOrdered(now, attempts(id)))
      ==> !ShouldExecuteJob(result[id], now)
    ensures !fetchFails ==> forall id ::
      (id in store && ShouldExecuteJob(store[id], now)
       && attempts(id).fault == NoFault && ClockOrdered(now, attempts(id)))
      ==> (&& result[id].lastExecutedAt.Some? && result[id].nextExecutionAt.Some?
           && result[id].lastExecutedAt.value < result[id].nextExecutionAt.value)
  {
    if fetchFails {
      return store, FetchFailed;
    }
    var listing := GetActiveJobs(store);
    var executed, failed, capReached;
    result, executed, failed, capReached := RunListing(store, listing, now, parse, attempts);
    report := Processed(listing, executed, failed, capReached);
    DispatchedPointwise(store, listing, now, parse, attempts);
    DueSelectionKeepsOrder(listing, now);
    DueSelectionKeepsDistinct(listing, now);
    ThrewIdsCharacterized(store, listing, now, parse, attempts);
    forall id | id in store
      ensures result[id] == AfterTick(store[id], now, parse, attempts)
    {
      if id in IdsOf(listing) {
        var k :| 0 <= k < |listing| && IdsOf(listing)[k] == id;
        assert listing[k] == store[id];
      }
    }
    SavedExecutionsAreNoLongerDue(store, result, now, parse, attempts);
  }

  /** With the clock read in the source's order, an execution whose two
      writes are saved leaves the job no longer due at the tick's time, with
      its next run after its last run. */
  lemma SavedExecutionIsNoLongerDue(
    job: Job, now: Timestamp, parse: string -> ParseResult, attempt: Attempt)
    requires attempt.fault == NoFault && ClockOrdered(now, attempt)
    ensures var after := LeftInStore(job, parse, attempt);
      && !ShouldExecuteJob(after, now)
      && after.lastExecutedAt.Some? && after.nextExecutionAt.Some?
      && after.lastExecutedAt.value < after.nextExecutionAt.value
  {
  }

  /** The table-wide form of `SavedExecutionIsNoLongerDue`, for a table in
      which every row is as the tick leaves it. */
  lemma SavedExecutionsAreNoLongerDue(
    store: Store, result: Store, now: Timestamp, parse: string -> ParseResult, attempts: string -> Attempt)
    requires WellKeyed(store) && result.Keys == store.Keys
    requires forall id :: id in store ==> result[id] == AfterTick(store[id], now, parse, attempts)
    ensures forall id ::
      (id in store && attempts(id).fault == NoFault && ClockOrdered(now, attempts(id)))
      ==> !ShouldExecuteJob(result[id], now)
    ensures forall id ::
      (id in store && ShouldExecuteJob(store[id], now)
       && attempts(id).fault == NoFault && ClockOrdered(now, attempts(id)))
      ==> (&& result[id].lastExecutedAt.Some? && result[id].nextExecutionAt.Some?
           && result[id].lastExecutedAt.value < result[id].nextExecutionAt.value)
  {
  }

  /** A job the tick did not find due keeps its row: in particular an inactive
      job, a running job, and a job whose next run is after `now`. */
  lemma NotDueIsUntouched(job: Job, now: Timestamp, parse: string -> ParseResult, attempts: string -> Attempt)
    requires !job.isActive || job.status == Running || job.nextExecutionAt.None?
      || job.failureCount > FailureCeiling || job.nextExecutionAt.value > now
    ensures AfterTick(job, now, parse, attempts) == job
  {
  }

  /** `failed` is not a terminal status for dispatch: an active failed job
      with at most `FailureCeiling` failures is due again once its next run
      has come. */
  lemma FailedJobIsDispatchedAgain(job: Job, now: Timestamp)
    requires job.isActive && job.status == Failed && job.failureCount <= FailureCeiling
    requires job.nextExecutionAt.Some? && job.nextExecutionAt.value <= now
    ensures ShouldExecuteJob(job, now)
  {
  }

  /** A job past the failure ceiling is never due again: executions only add
      failures, and neither activation nor deactivation resets the counter. */
  lemma AbandonedJobStaysAbandoned(store: Store, id: string, now: Timestamp,
                                   parse: string -> ParseResult, attempt: Attempt)
    requires id in store && store[id].failureCount > FailureCeiling
    ensures !ShouldExecuteJob(store[id], now)
    ensures !ShouldExecuteJob(LeftInStore(store[id], parse, attempt), now)
    ensures Activate(store, id).Ok? && !ShouldExecuteJob(Activate(store, id).value.job, now)
    ensures Deactivate(store, id).Ok? && !ShouldExecuteJob(Deactivate(store, id).value.job, now)
  {
  }

  /** When the final write of an execution is rejected, the row stays
      `running` and no later tick dispatches it. Activation, deactivation or
      a manual execution whose writes succeed rewrite its status. */
  lemma RejectedFinalWriteLeavesJobRunning(store: Store, id: string, now: Timestamp, later: Timestamp,
                                           parse: string -> ParseResult, attempt: Attempt, manual: Attempt)
    requires id in store && attempt.fault == FinalSaveFails
    ensures var stuck := Execute(store, id, parse, attempt).store[id];
      && stuck.status == Running
      && !ShouldExecuteJob(stuck, later)
    ensures var revived := Activate(Execute(store, id, parse, attempt).store, id);
      revived.Ok? && revived.value.job.status == Pending && revived.value.job.isActive
    ensures var stopped := Deactivate(Execute(store, id, parse, attempt).store, id);
      stopped.Ok? && stopped.value.job.status == Cancelled
    ensures var rerun := Execute(Execute(store, id, parse, attempt).store, id, parse, manual);
      manual.fault == NoFault ==> rerun.result.Ok? && rerun.store[id].status != Running
  {
  }

  // ---------------------------------------------------------------------------
  // Status summary

  datatype SchedulerStatus = SchedulerStatus(
    totalJobs: nat,
    activeJobs: nat,
    pendingJobs: nat,
    runningJobs: nat,
    completedJobs: nat,
    failedJobs: nat)

  lemma DisjointUnionSize(a: set<string>, b: set<string>)
    requires a !! b
    ensures |a + b| == |a| + |b|
  {
  }

  lemma SubsetSize(a: set<string>, b: set<string>)
    requires a <= b
    ensures |a| <= |b|
  {
    assert b == a + (b - a);
    DisjointUnionSize(a, b - a);
  }

  /** The five status buckets split the table: every row has exactly one status. */
  lemma StatusBucketsPartition(store: Store)
    ensures |IdsWithStatus(store, Pending)| + |IdsWithStatus(store, Running)|
      + |IdsWithStatus(store, Completed)| + |IdsWithStatus(store, Failed)|
      + |IdsWithStatus(store, Cancelled)| == |store|
  {
    var p, r, c := IdsWithStatus(store, Pending), IdsWithStatus(store, Running), IdsWithStatus(store, Completed);
    var f, x := IdsWithStatus(store, Failed), IdsWithStatus(store, Cancelled);
    DisjointUnionSize(p, r);
    DisjointUnionSize(p + r, c);
    DisjointUnionSize(p + r + c, f);
    DisjointUnionSize(p + r + c + f, x);
    assert p + r + c + f + x == store.Keys by {
      forall id | id in store ensures id in p + r + c + f + x {
        match store[id].status
        case Pending => assert id in p;
        case Running => assert id in r;
        case Completed => assert id in c;
        case Failed => assert id in f;
        case Cancelled => assert id in x;
      }
    }
  }

  /** `getSchedulerStatus`: the number of rows, of active rows, and of rows in
      each of four statuses; the status counts include inactive rows. */
  function GetSchedulerStatus(store: Store): (st: SchedulerStatus)
    ensures st.totalJobs == |store|
    ensures st.activeJobs == |ActiveIds(store)|
    ensures st.pendingJobs == |IdsWithStatus(store, Pending)|
    ensures st.runningJobs == |IdsWithStatus(store, Running)|
    ensures st.completedJobs == |IdsWithStatus(store, Completed)|
    ensures st.failedJobs == |IdsWithStatus(store, Failed)|
    ensures st.activeJobs <= st.totalJobs
    ensures st.pendingJobs + st.runningJobs + st.completedJobs + st.failedJobs
      + |IdsWithStatus(store, Cancelled)| == st.totalJobs
    ensures st.pendingJobs + st.runningJobs + st.completedJobs + st.failedJobs <= st.totalJobs
  {
    StatusBucketsPartition(store);
    SubsetSize(ActiveIds(store), store.Keys);
    SchedulerStatus(
      totalJobs := |store|,
      activeJobs := |ActiveIds(store)|,
      pendingJobs := |IdsWithStatus(store, Pending)|,
      runningJobs := |IdsWithStatus(store, Running)|,
      completedJobs := |IdsWithStatus(store, Completed)|,
      failedJobs := |IdsWithStatus(store, Failed)|)
  }
}
