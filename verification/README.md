# Job scheduler: lifecycle and dispatch tick, modelled in Dafny

This project models the core of a NestJS job-scheduling microservice. It covers:

- the `Job` record, with its closed status and type enums and its column defaults;
- the validation of the body that creates a job;
- the jobs service: `create`, `update`, `remove`, `activate`, `deactivate` and the `execute` state machine;
- the scheduler service: the due rule `shouldExecuteJob`, the per-minute tick `processScheduledJobs`, its per-job error isolation, and the status summary.

Everything is a pure function over immutable values, except five methods:

- `JobStore.EarliestIn`, the search for the earliest next run among the remaining active rows;
- `JobStore.GetActiveJobs`, the ordered active-jobs query;
- `SchedulerService.ExecuteJob`, one execution with its error caught;
- `SchedulerService.RunListing`, the tick's loop with its running-jobs counter;
- `SchedulerService.ProcessScheduledJobs`, the tick itself.

The job table is a `map<string, Job>` keyed by primary key. The clock and the work a job performs are inputs. Two kinds of repository failure are inputs as well: the tick's active-jobs query, and the two writes of `execute`. Other repository failures are not modelled (see "Left out").

Modules, one per source file or concern:

| module | file | models |
|---|---|---|
| `Common` | common.dfy | `Option` (nullable columns, optional fields) and `Result` (a call that returns or throws) |
| `JobEntity` | job_entity.dfy | `src/jobs/entities/job.entity.ts` |
| `CreateJobDto` | create_job_dto.dfy | `src/jobs/dto/create-job.dto.ts` under the global validation pipe |
| `Cron` | cron.dfy | `isValidCronExpression` and `getNextExecutionTime` of the jobs service |
| `JobStore` | job_store.dfy | the job table, the `save` of a new row, the active-jobs query and the by-status query |
| `JobsService` | jobs_service.dfy | `src/jobs/jobs.service.ts` |
| `ExecutionHistory` | execution_history.dfy | what repeated `execute` calls add up to |
| `SchedulerService` | scheduler_service.dfy | `src/scheduler/scheduler.service.ts` |

## Behaviour worth knowing

These are consequences of the code that a caller of the service may not expect.

- **Expression check.** The expression check only counts pieces. Splitting on one space must give exactly five pieces, and the pieces are never inspected. So `"0  2 * *"` (four fields, one doubled space) is accepted, and so is any five-piece text (`Cron.FieldContentsUnchecked`, `Cron.CheckExamples`).
- **Next run.** The next run is always 60 000 ms after the current time, whatever the expression says (`Cron.NextExecutionTime`).
- **Retries.** An always-failing job with `maxRetries = 3` is still `pending`, with `retryCount = 3`, after three failures. The fourth failure is the one that leaves it `failed` (`ExecutionHistory.AlwaysFailingJob`).
- **`failed` is not terminal.** `shouldExecuteJob` does not look at the `failed` status. An active failed job is dispatched again at its next run, until its failure count passes 10 (`SchedulerService.FailedJobIsDispatchedAgain`).
- **Concurrency cap.** The loop is sequential: the counter goes up by one before each awaited execution and back down after it. So the counter is 0 every time it is compared with 5, the cap never stops a tick, and every due job runs. Ten due jobs means ten executions (`SchedulerService.RunListing`, `SchedulerService.ProcessScheduledJobs`).
- **Update and the retry bound.** An update may lower `maxRetries` below the current `retryCount`, so `retryCount <= maxRetries` holds only for jobs never updated that way (`ExecutionHistory.UpdateCanExceedRetryBudget`). Execution itself preserves the bound.
- **Rejected final save.** If the final save of an execution is rejected, the row keeps the `running` status written first. No tick dispatches it again. Activation, deactivation or a manual execution (the controller's execute route) rewrites its status (`SchedulerService.RejectedFinalWriteLeavesJobRunning`).
- **Empty expression in an update.** `update` tests the expression for JavaScript truthiness. An empty expression therefore skips both the check and the recomputation of the next run, and is still written to the row (`JobsService.Update`).

## Model

| member | source | states |
|---|---|---|
| `JobEntity.ParseJobType` | src/jobs/entities/job.entity.ts:13-18 | a type string is accepted exactly when it names one of the four job types, and then names that type |
| `JobEntity.JobTypeNameRoundTrip` | src/jobs/entities/job.entity.ts:13-18 | every job type is recovered from its string |
| `JobEntity.NewJob` | src/jobs/entities/job.entity.ts:20-97 | a new row has never been executed: pending, zero counters, no last run or error, created and updated now. Supplied columns are stored as given; omitted ones take the defaults http_request, active and 3 retries. A row whose budget is not negative starts inside it |
| `CreateJobDto.Failing` | src/jobs/dto/create-job.dto.ts:7-39 | the rules of a list that a body breaks, each once, and no others |
| `CreateJobDto.Violations` | src/jobs/dto/create-job.dto.ts:7-39 | a rule is reported exactly when the body breaks it, and no rule is reported twice |
| `CreateJobDto.Validate` | src/jobs/dto/create-job.dto.ts:7-39 | a body passes exactly when it breaks no rule. The rules are: non-empty name and expression, a valid job type, an object config, and `maxRetries` absent or in 0..10. A passing body keeps its fields and yields a budget in 0..10; a failing one returns every broken rule |
| `Cron.Split` | src/jobs/jobs.service.ts:248 | `split(' ')` yields one more piece than there are spaces. No piece contains a space, and joining the pieces with spaces gives the text back |
| `Cron.SplitAfterPiece` | src/jobs/jobs.service.ts:248 | a space-free prefix followed by a space splits off as the first piece |
| `Cron.SplitWithoutSeparator` | src/jobs/jobs.service.ts:248 | space-free text is a single piece |
| `Cron.SplitJoin` | src/jobs/jobs.service.ts:248 | splitting undoes joining space-free pieces |
| `Cron.IsValidCronExpression` | src/jobs/jobs.service.ts:245-256 | an expression is accepted exactly when it contains four spaces |
| `Cron.FieldContentsUnchecked` | src/jobs/jobs.service.ts:245-256 | any five space-free pieces joined by spaces are accepted, empty or meaningless ones included |
| `Cron.CheckExamples` | src/jobs/jobs.service.ts:245-256 | `* * *` and a six-field expression are rejected. `0 2 * * *` is accepted, and so is a four-field expression with a doubled space |
| `Cron.NextExecutionTime` | src/jobs/jobs.service.ts:258-264 | the next run is strictly after the time it is computed at |
| `Cron.NextRunIgnoresExpression` | src/jobs/jobs.service.ts:258-264 | the next run does not depend on the expression |
| `Cron.NextRunIncreasing` | src/jobs/jobs.service.ts:258-264 | later computations give strictly later runs |
| `JobStore.IdsWithStatus` | src/jobs/jobs.service.ts:164-169 | `getJobsByStatus` returns exactly the rows in the given status, as a set of ids |
| `JobStore.Save` | src/jobs/jobs.service.ts:33 | `save` stores the row under its id and keeps the other rows, preserving primary-key integrity. `JobsService.Create` saves through it; the other services write their one row in place |
| `JobStore.RunsNoLaterThanTotalPreorder` | src/jobs/jobs.service.ts:157-162 | the ascending next-run order (missing values last) is total and transitive |
| `JobStore.EarliestIn` | src/jobs/jobs.service.ts:157-162 | finds a row of the set whose next run is no later than any other in it |
| `JobStore.GetActiveJobs` | src/jobs/jobs.service.ts:157-162 | the query returns every active row exactly once and no inactive row, as stored, in ascending next-run order |
| `JobsService.FindOne` | src/jobs/jobs.service.ts:43-49 | returns the row with the id, or fails with not-found exactly when there is none |
| `JobsService.Create` | src/jobs/jobs.service.ts:21-34 | fails with "Invalid cron expression", writing nothing, when the check rejects the expression. A valid request whose generated id is already taken fails the insert and replaces nothing. Otherwise it adds exactly one key, leaves every earlier row as it was, and saves a never-executed row carrying the input (name, description, expression, type, config, and the active flag and retry budget with their defaults), created now, whose next run is after now |
| `JobsService.CreatedJobWithinRetryBudget` | src/jobs/dto/create-job.dto.ts:34-39 | a job created from a validated body starts with `0 = retryCount <= maxRetries <= 10` |
| `JobsService.Update` | src/jobs/jobs.service.ts:51-68 | a missing row gives not-found. A truthy but invalid expression gives a bad request. Otherwise each supplied field overwrites the row and every other field is kept, the creation and update stamps included. The next run is recomputed from the new expression at the current time exactly when the expression is truthy, and status and counters are untouched |
| `JobsService.Remove` | src/jobs/jobs.service.ts:70-73 | deletes exactly that row, or fails with not-found |
| `JobsService.Activate` | src/jobs/jobs.service.ts:75-80 | sets active and pending and keeps definition and history, or fails with not-found |
| `JobsService.Deactivate` | src/jobs/jobs.service.ts:82-87 | sets inactive and cancelled and keeps definition and history, or fails with not-found |
| `JobsService.RunJob` | src/jobs/jobs.service.ts:171-203 | the work succeeds exactly when the config parses and, for an HTTP job, the request succeeds. A parse failure gives the "Failed to parse job config" message. A config that parses to `null` makes every handler throw, with a message that depends on the job type. Any other failure is the HTTP error |
| `JobsService.MarkRunning` | src/jobs/jobs.service.ts:89-93 | the first write sets running and the start time and changes nothing else |
| `JobsService.Finish` | src/jobs/jobs.service.ts:95-147 | success gives completed, one more success and a reset retry counter, with the last error kept. Failure gives one more failure and the message as last error; the job is pending with one more retry exactly when the budget is not used up, else failed with the retry counter kept. Exactly one counter grows, the bound is preserved, and the next run is recomputed after the finish time |
| `JobsService.ExecuteRecord` | src/jobs/jobs.service.ts:89-155 | the running record is the first write, before the work. Both writes succeeding returns the finished record; a rejected write surfaces as a persistence error, with no second write after a rejected first one |
| `JobsService.LeftInStore` | src/jobs/jobs.service.ts:89-155 | the row after an execution keeps its definition, never loses successes or failures, and keeps the retry bound. It becomes running only when the final write is rejected, and it is untouched (whatever its status) when the first write is rejected |
| `JobsService.Execute` | src/jobs/jobs.service.ts:89-155 | `execute(id)` fails with not-found on a missing row. Otherwise only that row changes, to what the attempt leaves, and the caller gets the finished record or the persistence error |
| `ExecutionHistory.ReplayBookkeeping` | src/jobs/jobs.service.ts:95-147 | for a job within its retry budget, after any sequence of attempts: the retry counter is the run of consecutive failures capped at the budget; a last failure leaves the job pending exactly while that run is within the budget; success and failure counts grow by the number of each |
| `ExecutionHistory.AllFailuresAreConsecutive` | src/jobs/jobs.service.ts:108-144 | with every attempt failing, the failure run is the starting retry counter plus the attempts |
| `ExecutionHistory.AlwaysFailingJob` | src/jobs/jobs.service.ts:108-144 | a new always-failing job is pending with `retryCount = n` after n <= maxRetries failures. From failure maxRetries + 1 on it is failed with `retryCount = maxRetries` |
| `ExecutionHistory.UpdateCanExceedRetryBudget` | src/jobs/jobs.service.ts:51-68 | an update lowering `maxRetries` below `retryCount` is accepted and breaks the retry bound |
| `SchedulerService.ShouldExecuteJob` | src/scheduler/scheduler.service.ts:47-63 | a job is due exactly when it is active, not running, has a next run no later than now, and has at most 10 failures |
| `SchedulerService.DueStaysDue` | src/scheduler/scheduler.service.ts:62 | a due job stays due at any later time |
| `SchedulerService.DueSelection` | src/scheduler/scheduler.service.ts:29-41 | the selection holds exactly the due jobs of the listing |
| `SchedulerService.DueSelectionIdempotent` | src/scheduler/scheduler.service.ts:47-63 | filtering the selection again gives the same selection |
| `SchedulerService.DueSelectionKeepsOrder` | src/scheduler/scheduler.service.ts:29-41 | the selection keeps the listing's earliest-first order |
| `SchedulerService.DueSelectionKeepsDistinct` | src/scheduler/scheduler.service.ts:29-41 | the selection of a listing without repeated ids has no repeated ids, so no job runs twice in a tick |
| `SchedulerService.ExecuteJob` | src/scheduler/scheduler.service.ts:65-72 | `executeJob` changes only the job's own row and reports whether `execute` threw instead of throwing. A row missing from the store counts as a thrown error and changes nothing |
| `SchedulerService.DispatchedPointwise` | src/scheduler/scheduler.service.ts:29-41 | executing the due jobs one after another leaves each listed row as its own execution would, and never writes an unlisted row |
| `SchedulerService.ThrewIdsCharacterized` | src/scheduler/scheduler.service.ts:65-72 | the failures a tick records are exactly the executed jobs whose execution threw |
| `SchedulerService.RunListing` | src/scheduler/scheduler.service.ts:26-41 | the running-jobs counter is 0 at every check against the cap of 5, so the loop never breaks; it executes every due job once, in listing order |
| `SchedulerService.ProcessScheduledJobs` | src/scheduler/scheduler.service.ts:20-45 | a failed query ends the tick with nothing changed. Otherwise the tick walks the ordered active jobs and executes exactly the due ones, each once, earliest first, isolating their failures. Rows not due are untouched; the others keep their definition, never lose counts, and keep the retry bound. With the clock read in order, every job whose execution saved both writes is no longer due at the tick's time |
| `SchedulerService.SavedExecutionIsNoLongerDue` | src/jobs/jobs.service.ts:89-147 | with the clock read in order (tick, start, finish), an execution whose two writes are saved leaves the job not due at the tick's time, with its next run after its last run |
| `SchedulerService.SavedExecutionsAreNoLongerDue` | src/scheduler/scheduler.service.ts:20-45 | after a tick, every row whose execution saved both writes under an ordered clock is not due at the tick's time, and each executed one has its next run after its last run |
| `SchedulerService.NotDueIsUntouched` | src/scheduler/scheduler.service.ts:35 | an inactive, running, abandoned or future job is left unchanged by the tick |
| `SchedulerService.FailedJobIsDispatchedAgain` | src/scheduler/scheduler.service.ts:47-63 | an active failed job with at most 10 failures is due once its next run has come |
| `SchedulerService.AbandonedJobStaysAbandoned` | src/scheduler/scheduler.service.ts:57-60 | a job with more than 10 failures is never due again, not after an execution, an activation or a deactivation |
| `SchedulerService.RejectedFinalWriteLeavesJobRunning` | src/scheduler/scheduler.service.ts:48 | a rejected final write leaves the job running and never due. Activation makes it pending again, deactivation cancels it, and a manual execution whose writes succeed takes it out of running |
| `SchedulerService.StatusBucketsPartition` | src/scheduler/scheduler.service.ts:84-95 | the five status counts add up to the number of rows |
| `SchedulerService.GetSchedulerStatus` | src/scheduler/scheduler.service.ts:74-97 | the total is the number of rows, the active count is the number of active rows, and each status count is the number of rows in that status, inactive rows included. So the active count is at most the total, and the four status counts plus the cancelled count equal the total |

## Left out

- Controllers, routing, throttling, Swagger, CORS and bootstrap are transport and wiring (`jobs.controller.ts`, `scheduler.controller.ts`, `main.ts`, `app.module.ts`, `scheduler.module.ts`). Only the global validation pipe's effect on the create body is modelled.
- The TypeORM/PostgreSQL layer is a `map` from id to row. `save` and `repository.update` are map updates; the queries are set comprehensions or `GetActiveJobs`. The database may break ties in the next-run order any way it likes, and the model allows any such order.
- The `createdAt DESC` ordering of `findAll` and `getJobsByStatus` is not modelled, because only their lengths are used. The automatic refresh of `updatedAt` on every write is not modelled either.
- The `update-job.dto.ts` file is not part of this model. The update body is an all-optional record, and its own validation rules are not modelled.
- `CreateJobDto.Validate`: `@IsOptional()` also lets an explicit JSON `null` through for `description`, `isActive` and `maxRetries`, and the spread in `create` then sends that `null` to the insert. The model's optional fields can only be absent or present. A `null` description would be stored as no description. A `null` active flag or retry budget would be rejected by the non-nullable columns instead of taking their defaults. Neither case is modelled.
- Per-field type checks (`IsString`, `IsBoolean`, `IsNumber`) and the rejection of unknown properties are subsumed by the record types. `maxRetries` is an integer; `IsNumber` would also admit fractions, but the column is an integer.
- The side effects of jobs are not modelled: the axios request, console logging and the 100 ms `setTimeout` wait of `function_call`. The HTTP request's result is the `httpOutcome` of an `Attempt`. For a config that parses to an object, the other three handlers read fields, log and (for `function_call`) wait, so they succeed. A config that parses to `null` makes every handler throw where it first reads a field; the runtime's message is the per-type `messageFor` of `ParsedNull`. The create body's object check keeps such configs out of created rows.
- `JSON.parse` of the stored config is the abstract `parse` function. `JSON.stringify` of the request config is the `json` text the body carries.
- The flattening of a thrown value into `lastError` (the circular-reference-safe stringification) is not modelled. A failure is `Threw(message)` with its text already flattened.
- The database-generated id is a parameter of `JobsService.Create`. The model does not say how it is chosen. An id already in the table makes the insert fail, as a unique-key violation would.
- The clock is not modelled. Each time the source reads it, the model takes a parameter: the tick's `now`, and the execution's `startedAt` and `finishedAt`. The parameters are not ordered by the model. Properties that need the source's reading order (`now`, then `startedAt`, then `finishedAt`) take it as the hypothesis `JobsService.ClockOrdered`.
- The `@Cron` timer and `async`/`await` are not modelled. A tick is one sequential call, and ticks do not overlap.
- Repository failures are inputs only in two places: `fetchFails` for the tick's active-jobs query, and a `SaveFault` per execution for its two writes.
- Every other repository call is modelled as succeeding. That covers the `save` in create (other than a taken id), the `save` in activate and deactivate, `repository.update` and the trailing `findOne` in update, `repository.remove`, the `findOne` reads, and the status-summary queries. So `JobsService.Create`, `JobsService.Update`, `JobsService.Remove`, `JobsService.Activate` and `JobsService.Deactivate` fail only with their own errors: bad expression, not found, and for create a taken id. A rejected write in the source would make them throw.
- The `default` branch of the job-type switch ("Unsupported job type") cannot be reached, because the type is a closed datatype.
- `Cron.NextExecutionTime`: its contract states only that the next run is strictly after the computation time. The exact 60 000 ms offset is fixed by its body and by `Cron.NextRunDelayMs`.
