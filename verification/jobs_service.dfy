/** The jobs service: creation and update behind the expression check, the
    activate/deactivate switches, and `execute`, the state machine one
    execution attempt drives a job through. The side-effecting work of a job
    and the repository's failures are inputs of an `Attempt`. */
module JobsService {
  import opened Common
  import opened JobEntity
  import opened CreateJobDto
  import opened Cron
  import opened JobStore

  /** The exceptions the service lets escape. */
  datatype ServiceError =
    | NotFound(id: string)            // no row with this id
    | BadRequest(message: string)     // the expression check failed
    | PersistenceFailed               // a repository write was rejected

  const InvalidCronMessage: string := "Invalid cron expression"

  /** A successful write: the table afterwards, and the row returned to the caller. */
  datatype Stored = Stored(store: Store, job: Job)

  /** `findOne`: the row, or `NotFound`. */
  function FindOne(store: Store, id: string): (r: Result<Job, ServiceError>)
    ensures r.Ok? <==> id in store
    ensures r.Ok? ==> r.value == store[id]
    ensures r.Err? ==> r.error == NotFound(id)
  {
    if id in store then Ok(store[id]) else Err(NotFound(id))
  }

  /** `create`: rejects a bad expression before anything is written; otherwise
      inserts a never-executed row, due one delay after `now`. The row id is
      the one the database generates; the insert fails, replacing nothing,
      when that id is already taken. */
  function Create(store: Store, input: ValidJobInput, id: string, now: Timestamp): (r: Result<Stored, ServiceError>)
    ensures r.Err? <==> !IsValidCronExpression(input.cronExpression) || id in store
    ensures !IsValidCronExpression(input.cronExpression) ==> r == Err(BadRequest(InvalidCronMessage))
    ensures IsValidCronExpression(input.cronExpression) && id in store ==> r == Err(PersistenceFailed)
    ensures r.Ok? ==>
      && r.value.store == Save(store, r.value.job)
      && r.value.store.Keys == store.Keys + {id}
      && (forall k :: k in store ==> r.value.store[k] == store[k])
      && r.value.job.id == id
      && NeverExecuted(r.value.job)
      && r.value.job.name == input.name
      && r.value.job.description == input.description
      && r.value.job.cronExpression == input.cronExpression
      && r.value.job.jobType == input.jobType
      && r.value.job.config == input.configJson
      && r.value.job.isActive == input.isActive.GetOr(DefaultIsActive)
      && r.value.job.maxRetries == input.maxRetries.GetOr(DefaultMaxRetries)
      && r.value.job.nextExecutionAt == Some(NextExecutionTime(input.cronExpression, now))
      && r.value.job.nextExecutionAt.value > now
      && r.value.job.createdAt == now && r.value.job.updatedAt == now
    ensures r.Ok? && WellKeyed(store) ==> WellKeyed(r.value.store)
  {
    if !IsValidCronExpression(input.cronExpression) then Err(BadRequest(InvalidCronMessage))
    else if id in store then Err(PersistenceFailed)
    else
      var job := NewJob(id, input.name, input.description, input.cronExpression,
                        Some(input.jobType), input.configJson, input.isActive,
                        input.maxRetries, Some(NextExecutionTime(input.cronExpression, now)), now);
      Ok(Stored(Save(store, job), job))
  }

  /** A validated request always yields a job that starts inside its retry budget. */
  lemma CreatedJobWithinRetryBudget(store: Store, dto: CreateJobDto, id: string, now: Timestamp)
    requires Validate(dto).Ok?
    requires Create(store, Validate(dto).value, id, now).Ok?
    ensures var job := Create(store, Validate(dto).value, id, now).value.job;
      && RetryWithinBudget(job) && 0 <= job.maxRetries <= 10 && job.retryCount == 0
  {
  }

  /** The body of an update. Every field is optional; the configuration is
      already serialised. */
  datatype UpdateJobInput = UpdateJobInput(
    name: Option<string>,
    description: Option<string>,
    cronExpression: Option<string>,
    jobType: Option<JobType>,
    configJson: Option<string>,
    isActive: Option<bool>,
    maxRetries: Option<int>)

  /** JavaScript truthiness of an optional string: present and non-empty. */
  predicate Truthy(s: Option<string>) {
    s.Some? && s.value != ""
  }

  /** `update`: a missing row, then a truthy but invalid expression, are
      rejected before any write. The supplied fields overwrite the row; the
      next run is recomputed only for a truthy expression. */
  function Update(store: Store, id: string, input: UpdateJobInput, now: Timestamp): (r: Result<Stored, ServiceError>)
    ensures id !in store ==> r == Err(NotFound(id))
    ensures id in store ==>
      (r.Err? <==> Truthy(input.cronExpression) && !IsValidCronExpression(input.cronExpression.value))
    ensures r.Err? && id in store ==> r.error == BadRequest(InvalidCronMessage)
    ensures r.Ok? ==> id in store && r.value.store == store[id := r.value.job]
    ensures r.Ok? ==> var before, after := store[id], r.value.job;
      && after.id == before.id
      && after.name == input.name.GetOr(before.name)
      && after.description == (if input.description.Some? then input.description else before.description)
      && after.cronExpression == input.cronExpression.GetOr(before.cronExpression)
      && after.jobType == input.jobType.GetOr(before.jobType)
      && after.config == input.configJson.GetOr(before.config)
      && after.isActive == input.isActive.GetOr(before.isActive)
      && after.maxRetries == input.maxRetries.GetOr(before.maxRetries)
      && after.status == before.status
      && after.lastExecutedAt == before.lastExecutedAt
      && after.successCount == before.successCount
      && after.failureCount == before.failureCount
      && after.lastError == before.lastError
      && after.retryCount == before.retryCount
      && after.createdAt == before.createdAt
      && after.updatedAt == before.updatedAt
      && (Truthy(input.cronExpression) ==>
            && after.nextExecutionAt == Some(NextExecutionTime(input.cronExpression.value, now))
            && after.nextExecutionAt.value > now)
      && (!Truthy(input.cronExpression) ==> after.nextExecutionAt == before.nextExecutionAt)
    ensures r.Ok? && WellKeyed(store) ==> WellKeyed(r.value.store)
  {
    match FindOne(store, id)
    case Err(e) => Err(e)
    case Ok(job) =>
      if Truthy(input.cronExpression) && !IsValidCronExpression(input.cronExpression.value) then
        Err(BadRequest(InvalidCronMessage))
      else
        var updated := job.(
          name := input.name.GetOr(job.name),
          description := if input.description.Some? then input.description else job.description,
          cronExpression := input.cronExpression.GetOr(job.cronExpression),
          jobType := input.jobType.GetOr(job.jobType),
          config := input.configJson.GetOr(job.config),
          isActive := input.isActive.GetOr(job.isActive),
          maxRetries := input.maxRetries.GetOr(job.maxRetries),
          nextExecutionAt :=
            if Truthy(input.cronExpression)
            then Some(NextExecutionTime(input.cronExpression.value, now))
            else job.nextExecutionAt);
        Ok(Stored(store[id := updated], updated))
  }

  /** `remove`: deletes the row, or fails with `NotFound`. */
  function Remove(store: Store, id: string): (r: Result<Store, ServiceError>)
    ensures r.Ok? <==> id in store
    ensures r.Err? ==> r.error == NotFound(id)
    ensures r.Ok? ==> r.value.Keys == store.Keys - {id}
    ensures r.Ok? ==> forall k :: k in r.value ==> r.value[k] == store[k]
  {
    if id in store then Ok(store - {id}) else Err(NotFound(id))
  }

  /** `activate`: the job takes part in dispatch again, as a pending job; its
      definition and history are kept. */
  function Activate(store: Store, id: string): (r: Result<Stored, ServiceError>)
    ensures r.Ok? <==> id in store
    ensures r.Err? ==> r.error == NotFound(id)
    ensures r.Ok? ==>
      && r.value.store == store[id := r.value.job]
      && r.value.job.isActive && r.value.job.status == Pending
      && SameDefinition(store[id], r.value.job) && SameHistory(store[id], r.value.job)
    ensures r.Ok? && WellKeyed(store) ==> WellKeyed(r.value.store)
  {
    match FindOne(store, id)
    case Err(e) => Err(e)
    case Ok(job) =>
      var updated := job.(isActive := true, status := Pending);
      Ok(Stored(store[id := updated], updated))
  }

  /** `deactivate`: the job leaves dispatch, as a cancelled job; its
      definition and history are kept. */
  function Deactivate(store: Store, id: string): (r: Result<Stored, ServiceError>)
    ensures r.Ok? <==> id in store
    ensures r.Err? ==> r.error == NotFound(id)
    ensures r.Ok? ==>
      && r.value.store == store[id := r.value.job]
      && !r.value.job.isActive && r.value.job.status == Cancelled
      && SameDefinition(store[id], r.value.job) && SameHistory(store[id], r.value.job)
    ensures r.Ok? && WellKeyed(store) ==> WellKeyed(r.value.store)
  {
    match FindOne(store, id)
    case Err(e) => Err(e)
    case Ok(job) =>
      var updated := job.(isActive := false, status := Cancelled);
      Ok(Stored(store[id := updated], updated))
  }

  // ---------------------------------------------------------------------------
  // Execution

  /** What parsing the stored configuration text gives: a value the handlers
      can read fields of, the JSON `null`, or a syntax error. Each handler
      throws on `null` where it first reads a field, so the runtime's message
      depends on the job type: `messageFor`. */
  datatype ParseResult = Parsed | ParsedNull(messageFor: JobType -> string) | ParseFailed(reason: string)

  /** How a piece of work ended: normally, or by throwing an error whose
      message has already been flattened to text. */
  datatype Outcome = Succeeded | Threw(message: string)

  /** Which repository write of an execution is rejected, if any. */
  datatype SaveFault = NoFault | RunningSaveFails | FinalSaveFails

  /** Everything an execution attempt takes from its environment: the clock
      when it starts and when the next run is computed, the result of the HTTP
      call (used only by HTTP jobs), and the repository's behaviour. */
  datatype Attempt = Attempt(startedAt: Timestamp, httpOutcome: Outcome, finishedAt: Timestamp, fault: SaveFault)

  /** The order in which the source reads the clock: the caller's `now`
      (the tick's start), then the start of the attempt, then the computation
      of the next run. */
  predicate ClockOrdered(now: Timestamp, attempt: Attempt) {
    now <= attempt.startedAt <= attempt.finishedAt
  }

  function ConfigParseMessage(reason: string, config: string): string {
    "Failed to parse job config: " + reason + ". Config: " + config
  }

  /** `executeJob`: parse the configuration, then dispatch on the type. Every
      handler reads fields of the configuration, so all of them throw on a
      `null` one. Otherwise only HTTP jobs can fail: the other handlers only
      log (and `function_call` waits). */
  function RunJob(job: Job, parse: string -> ParseResult, httpOutcome: Outcome): (o: Outcome)
    ensures o.Succeeded? <==>
      parse(job.config).Parsed? && (job.jobType == HttpRequest ==> httpOutcome.Succeeded?)
    ensures parse(job.config).ParseFailed? ==>
      o == Threw(ConfigParseMessage(parse(job.config).reason, job.config))
    ensures parse(job.config).ParsedNull? ==> o == Threw(parse(job.config).messageFor(job.jobType))
    ensures parse(job.config).Parsed? && o.Threw? ==> o == httpOutcome
  {
    match parse(job.config)
    case ParseFailed(reason) => Threw(ConfigParseMessage(reason, job.config))
    case ParsedNull(messageFor) => Threw(messageFor(job.jobType))
    case Parsed =>
      match job.jobType
      case HttpRequest => httpOutcome
      case FunctionCall => Succeeded
      case Email => Succeeded
      case Notification => Succeeded
  }

  /** The first write of `execute`, made before any work starts. */
  function MarkRunning(job: Job, startedAt: Timestamp): (r: Job)
    ensures r.status == Running && r.lastExecutedAt == Some(startedAt)
    ensures SameDefinition(job, r) && r.isActive == job.isActive
    ensures r.nextExecutionAt == job.nextExecutionAt && r.lastError == job.lastError
    ensures r.successCount == job.successCount && r.failureCount == job.failureCount
    ensures r.retryCount == job.retryCount
  {
    job.(status := Running, lastExecutedAt := Some(startedAt))
  }

  /** The record after an attempt with the given outcome: the bookkeeping of
      success, retry and terminal failure, and the next run. */
  function Finish(job: Job, outcome: Outcome, finishedAt: Timestamp): (r: Job)
    ensures SameDefinition(job, r) && r.isActive == job.isActive
    ensures r.lastExecutedAt == job.lastExecutedAt
    ensures r.status in {Completed, Pending, Failed}
    ensures r.status == Completed <==> outcome.Succeeded?
    ensures r.successCount + r.failureCount == job.successCount + job.failureCount + 1
    ensures r.successCount >= job.successCount && r.failureCount >= job.failureCount
    ensures outcome.Succeeded? ==>
      && r.successCount == job.successCount + 1 && r.failureCount == job.failureCount
      && r.retryCount == 0 && r.lastError == job.lastError
    ensures outcome.Threw? ==>
      && r.failureCount == job.failureCount + 1 && r.successCount == job.successCount
      && r.lastError == Some(outcome.message)
    ensures outcome.Threw? ==> (r.status == Pending <==> job.retryCount < job.maxRetries)
    ensures r.status == Pending ==> r.retryCount == job.retryCount + 1
    ensures r.status == Failed ==> r.retryCount == job.retryCount
    ensures RetryWithinBudget(job) ==> RetryWithinBudget(r)
    ensures r.nextExecutionAt == Some(NextExecutionTime(job.cronExpression, finishedAt))
    ensures r.nextExecutionAt.value > finishedAt
  {
    var settled :=
      match outcome
      case Succeeded =>
        job.(status := Completed, successCount := job.successCount + 1, retryCount := 0)
      case Threw(message) =>
        var failed := job.(status := Failed, failureCount := job.failureCount + 1, lastError := Some(message));
        if failed.retryCount < failed.maxRetries
        then failed.(retryCount := failed.retryCount + 1, status := Pending)
        else failed;
    settled.(nextExecutionAt := Some(NextExecutionTime(job.cronExpression, finishedAt)))
  }

  /** One `execute` on a row: `writes` are the records saved, in order, and
      `result` is what the caller sees. */
  datatype Run = Run(writes: seq<Job>, result: Result<Job, ServiceError>)

  function ExecuteRecord(job: Job, parse: string -> ParseResult, attempt: Attempt): (run: Run)
    ensures |run.writes| <= 2
    ensures run.writes == [] <==> attempt.fault == RunningSaveFails
    ensures run.writes != [] ==> run.writes[0] == MarkRunning(job, attempt.startedAt)
    ensures attempt.fault == FinalSaveFails ==> run.writes == [MarkRunning(job, attempt.startedAt)]
    ensures run.result.Ok? <==> attempt.fault == NoFault
    ensures run.result.Err? ==> run.result.error == PersistenceFailed
    ensures run.result.Ok? ==> run.writes == [run.writes[0], run.result.value]
    ensures run.result.Ok? ==>
      run.result.value ==
        Finish(run.writes[0], RunJob(run.writes[0], parse, attempt.httpOutcome), attempt.finishedAt)
  {
    var running := MarkRunning(job, attempt.startedAt);
    var final := Finish(running, RunJob(running, parse, attempt.httpOutcome), attempt.finishedAt);
    match attempt.fault
    case RunningSaveFails => Run([], Err(PersistenceFailed))
    case FinalSaveFails => Run([running], Err(PersistenceFailed))
    case NoFault => Run([running, final], Ok(final))
  }

  /** The record an execution leaves in the table: its last successful write. */
  function LeftInStore(job: Job, parse: string -> ParseResult, attempt: Attempt): (r: Job)
    ensures SameDefinition(job, r) && r.isActive == job.isActive
    ensures r.successCount >= job.successCount && r.failureCount >= job.failureCount
    ensures RetryWithinBudget(job) ==> RetryWithinBudget(r)
    ensures attempt.fault == NoFault ==> r.status != Running && r.nextExecutionAt.Some?
    ensures attempt.fault == FinalSaveFails ==> r.status == Running && r.nextExecutionAt == job.nextExecutionAt
    ensures attempt.fault == RunningSaveFails ==> r == job
  {
    var run := ExecuteRecord(job, parse, attempt);
    if run.writes == [] then job else run.writes[|run.writes| - 1]
  }

  /** The table and the caller's result after `execute(id)`. */
  datatype Execution = Execution(store: Store, result: Result<Job, ServiceError>)

  /** `execute`: runs the attempt on the row with this id; every other row is
      left as it was. */
  function Execute(store: Store, id: string, parse: string -> ParseResult, attempt: Attempt): (e: Execution)
    ensures id !in store ==> e == Execution(store, Err(NotFound(id)))
    ensures e.store.Keys == store.Keys
    ensures forall k :: k in store && k != id ==> e.store[k] == store[k]
    ensures id in store ==> e.store[id] == LeftInStore(store[id], parse, attempt)
    ensures id in store ==> e.result == ExecuteRecord(store[id], parse, attempt).result
    ensures id in store && e.result.Ok? ==> e.store[id] == e.result.value
    ensures WellKeyed(store) ==> WellKeyed(e.store)
  {
    match FindOne(store, id)
    case Err(err) => Execution(store, Err(err))
    case Ok(job) =>
      var run := ExecuteRecord(job, parse, attempt);
      Execution(store[id := LeftInStore(job, parse, attempt)], run.result)
  }
}
