/** The job table as the services see it: rows keyed by their primary key,
    upsert-style saves, and the two queries the scheduler relies on (active
    jobs by next run time, and jobs by status). */
module JobStore {
  import opened Common
  import opened JobEntity

  type Store = map<string, Job>

  /** Primary-key integrity: each row is stored under its own id. */
  ghost predicate WellKeyed(store: Store) {
    forall id :: id in store ==> store[id].id == id
  }

  /** `save`: inserts the row, or replaces the row with the same id. */
  function Save(store: Store, job: Job): (s: Store)
    ensures s.Keys == store.Keys + {job.id}
    ensures s[job.id] == job
    ensures forall id :: id in store && id != job.id ==> s[id] == store[id]
    ensures WellKeyed(store) ==> WellKeyed(s)
  {
    store[job.id := job]
  }

  /** The ascending `nextExecutionAt` order of the active-jobs query. The table
      is PostgreSQL, whose ascending order puts missing values last. */
  predicate RunsNoLaterThan(a: Job, b: Job) {
    match (a.nextExecutionAt, b.nextExecutionAt)
    case (Some(x), Some(y)) => x <= y
    case (Some(_), None) => true
    case (None, Some(_)) => false
    case (None, None) => true
  }

  /** The order is total and transitive, so ties are the only freedom left to the database. */
  lemma RunsNoLaterThanTotalPreorder(a: Job, b: Job, c: Job)
    ensures RunsNoLaterThan(a, b) || RunsNoLaterThan(b, a)
    ensures RunsNoLaterThan(a, b) && RunsNoLaterThan(b, c) ==> RunsNoLaterThan(a, c)
  {
  }

  function IdsOf(jobs: seq<Job>): (ids: seq<string>)
    ensures |ids| == |jobs|
    ensures forall i :: 0 <= i < |jobs| ==> ids[i] == jobs[i].id
  {
    seq(|jobs|, i requires 0 <= i < |jobs| => jobs[i].id)
  }

  predicate DistinctIds(jobs: seq<Job>) {
    forall i, j :: 0 <= i < j < |jobs| ==> jobs[i].id != jobs[j].id
  }

  predicate SortedByNextRun(jobs: seq<Job>) {
    forall i, j :: 0 <= i < j < |jobs| ==> RunsNoLaterThan(jobs[i], jobs[j])
  }

  /** `jobs` is a possible answer of the active-jobs query on `store`: every
      active row exactly once, as stored, earliest next run first. */
  ghost predicate IsActiveListing(store: Store, jobs: seq<Job>) {
    && (forall i :: 0 <= i < |jobs| ==>
          jobs[i].id in store && store[jobs[i].id] == jobs[i] && jobs[i].isActive)
    && (forall id :: id in store && store[id].isActive ==> id in IdsOf(jobs))
    && DistinctIds(jobs)
    && SortedByNextRun(jobs)
  }

  /** A key of `ids` whose row runs no later than any other row of `ids`. */
  method EarliestIn(store: Store, ids: set<string>) returns (first: string)
    requires ids != {} && ids <= store.Keys
    ensures first in ids
    ensures forall id :: id in ids ==> RunsNoLaterThan(store[first], store[id])
  {
    first :| first in ids;
    var rest := ids - {first};
    while rest != {}
      invariant rest <= ids && first in ids
      invariant forall id :: id in ids && id !in rest ==> RunsNoLaterThan(store[first], store[id])
      decreases rest
    {
      var id :| id in rest;
      if !RunsNoLaterThan(store[first], store[id]) {
        first := id;
      }
      rest := rest - {id};
    }
  }

  /** `getActiveJobs`: the active rows, ordered by next run time. */
  method GetActiveJobs(store: Store) returns (jobs: seq<Job>)
    requires WellKeyed(store)
    ensures IsActiveListing(store, jobs)
  {
    var remaining := set id | id in store && store[id].isActive;
    jobs := [];
    while remaining != {}
      invariant remaining <= store.Keys
      invariant forall id :: id in remaining ==> store[id].isActive
      invariant forall i :: 0 <= i < |jobs| ==>
        jobs[i].id in store && store[jobs[i].id] == jobs[i] && jobs[i].isActive && jobs[i].id !in remaining
      invariant forall id :: id in store && store[id].isActive && id !in remaining ==> id in IdsOf(jobs)
      invariant DistinctIds(jobs)
      invariant SortedByNextRun(jobs)
      invariant forall i, id :: 0 <= i < |jobs| && id in remaining ==> RunsNoLaterThan(jobs[i], store[id])
      decreases remaining
    {
      var next := EarliestIn(store, remaining);
      assert IdsOf(jobs + [store[next]]) == IdsOf(jobs) + [next];
      jobs := jobs + [store[next]];
      remaining := remaining - {next};
    }
  }

  /** `getJobsByStatus`: the rows in one status, by id. */
  function IdsWithStatus(store: Store, status: JobStatus): (ids: set<string>)
    ensures ids <= store.Keys
    ensures forall id :: id in ids <==> id in store && store[id].status == status
  {
    set id | id in store && store[id].status == status
  }

  function ActiveIds(store: Store): set<string> {
    set id | id in store && store[id].isActive
  }
}
