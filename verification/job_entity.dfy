/** The persisted job record (the `Job` entity) with its two closed enums and
    the defaults its columns take when a new row is inserted. */
module JobEntity {
  import opened Common

  /** Milliseconds since the epoch, the numeric value of a JavaScript `Date`. */
  type Timestamp = int

  datatype JobStatus = Pending | Running | Completed | Failed | Cancelled

  datatype JobType = HttpRequest | FunctionCall | Email | Notification

  /** Column defaults of the entity. */
  const DefaultJobType: JobType := HttpRequest
  const DefaultStatus: JobStatus := Pending
  const DefaultIsActive: bool := true
  const DefaultMaxRetries: int := 3

  /** The string each job type is stored and submitted as. */
  function JobTypeName(t: JobType): string {
    match t
    case HttpRequest => "http_request"
    case FunctionCall => "function_call"
    case Email => "email"
    case Notification => "notification"
  }

  /** Reads a job type string; this is the membership test `IsEnum(JobType)` performs. */
  function ParseJobType(text: string): (r: Option<JobType>)
    ensures r.Some? ==> JobTypeName(r.value) == text
    ensures r.None? ==> forall t: JobType :: JobTypeName(t) != text
  {
    if text == "http_request" then Some(HttpRequest)
    else if text == "function_call" then Some(FunctionCall)
    else if text == "email" then Some(Email)
    else if text == "notification" then Some(Notification)
    else None
  }

  /** Every job type survives the trip through its stored string. */
  lemma JobTypeNameRoundTrip(t: JobType)
    ensures ParseJobType(JobTypeName(t)) == Some(t)
  {
  }

  datatype Job = Job(
    id: string,
    name: string,
    description: Option<string>,
    cronExpression: string,
    jobType: JobType,
    config: string,                      // the configuration object, stored as JSON text
    status: JobStatus,
    isActive: bool,
    lastExecutedAt: Option<Timestamp>,
    nextExecutionAt: Option<Timestamp>,
    successCount: nat,
    failureCount: nat,
    lastError: Option<string>,
    maxRetries: int,
    retryCount: nat,
    createdAt: Timestamp,
    updatedAt: Timestamp)

  /** The bounded-retry invariant: the retry counter never exceeds the budget. */
  predicate RetryWithinBudget(j: Job) {
    j.retryCount <= j.maxRetries
  }

  /** A record that has never been executed: the state every column default describes. */
  predicate NeverExecuted(j: Job) {
    && j.status == Pending
    && j.lastExecutedAt.None?
    && j.lastError.None?
    && j.successCount == 0
    && j.failureCount == 0
    && j.retryCount == 0
  }

  /** The fields a user defines agree, and so do the row's creation and
      update stamps; status, activity and execution history may differ. */
  predicate SameDefinition(a: Job, b: Job) {
    && a.id == b.id
    && a.name == b.name
    && a.description == b.description
    && a.cronExpression == b.cronExpression
    && a.jobType == b.jobType
    && a.config == b.config
    && a.maxRetries == b.maxRetries
    && a.createdAt == b.createdAt
    && a.updatedAt == b.updatedAt
  }

  /** The execution history (counters, timestamps, last error) agrees. */
  predicate SameHistory(a: Job, b: Job) {
    && a.lastExecutedAt == b.lastExecutedAt
    && a.nextExecutionAt == b.nextExecutionAt
    && a.successCount == b.successCount
    && a.failureCount == b.failureCount
    && a.lastError == b.lastError
    && a.retryCount == b.retryCount
  }

  /** A new row: the supplied columns, and the entity default for every column
      left out (`type`, `isActive` and `maxRetries` may be omitted by the caller). */
  function NewJob(
    id: string, name: string, description: Option<string>, cronExpression: string,
    jobType: Option<JobType>, config: string, isActive: Option<bool>,
    maxRetries: Option<int>, nextExecutionAt: Option<Timestamp>, now: Timestamp): (j: Job)
    ensures NeverExecuted(j)
    ensures j.id == id && j.name == name && j.description == description
    ensures j.cronExpression == cronExpression && j.config == config
    ensures j.createdAt == now && j.updatedAt == now
    ensures jobType.Some? ==> j.jobType == jobType.value
    ensures isActive.Some? ==> j.isActive == isActive.value
    ensures maxRetries.Some? ==> j.maxRetries == maxRetries.value
    ensures jobType.None? ==> j.jobType == DefaultJobType
    ensures isActive.None? ==> j.isActive == DefaultIsActive
    ensures maxRetries.None? ==> j.maxRetries == DefaultMaxRetries
    ensures j.nextExecutionAt == nextExecutionAt
    ensures (0 <= maxRetries.GetOr(DefaultMaxRetries)) ==> RetryWithinBudget(j)
  {
    Job(
      id := id,
      name := name,
      description := description,
      cronExpression := cronExpression,
      jobType := jobType.GetOr(DefaultJobType),
      config := config,
      status := DefaultStatus,
      isActive := isActive.GetOr(DefaultIsActive),
      lastExecutedAt := None,
      nextExecutionAt := nextExecutionAt,
      successCount := 0,
      failureCount := 0,
      lastError := None,
      maxRetries := maxRetries.GetOr(DefaultMaxRetries),
      retryCount := 0,
      createdAt := now,
      updatedAt := now)
  }
}
