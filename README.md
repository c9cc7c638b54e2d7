# delayed_job_mh worker core, in Dafny

This project models the batch worker of `delayed_job_mh`, a fork of
`delayed_job`. The worker repeatedly does three things:

- It fetches a batch of due jobs from the `delayed_jobs` table (`next_available_batch`).
- It runs each job. A job whose payload raises is rescheduled with exponential backoff, or marked failed once it has used up its attempts.
- It writes the outcome back in bulk. Successful jobs go in one `DELETE`. Failed jobs are copied through a temporary `delayed_job_updates` table, by five statements whose `INSERT` holds the escaped error text.

The modules follow the program's structure:

- `Configuration`: the class-level settings (`cattr_accessor`) and how `Worker.new(options)` rewrites them.
- `Retry`: the state transition of `run`, the backoff schedule, the error text, and `max_attempts(job)`.
- `ActiveRecordBackend`: the batch query as a function over the table's rows, taken as a sequence in storage order.
- `SqlEscape`: the two-pass escaping of `last_error`. Its partners are an un-escape and an independent reader of MySQL single-quoted literals, following the MySQL Reference Manual's section on string literals.
- `Statements`: the SQL statements the two persistence routines send, as tagged values, plus readers that decode the id list and the tuples back out of their text.
- `Passes`: on values, what one `work_off` pass computes and what the `start` loop does over a finite run of iterations.
- `Delayed`: the objects themselves.
  - `Settings` holds the shared settings.
  - `Connection` is the connection. Executing a statement appends it to `log`.
  - `JobRecord` is the loaded ActiveRecord object that `run` updates in place.
  - `Worker` has the worker's methods, each proved against the functions of `Passes`, `Statements` and `Retry`.

`Jobs` has the job row, and the outcome of invoking a job's payload. `Text` and `Wrappers` hold string and option helpers.

Modelling choices:

- Time is a whole number of seconds. `(5 ** attempts).minutes` is `5^attempts * 60`.
- A pass reads the clock once. That value `now` is used both in the query and for every failure in the pass. The source reads the clock again for each failure; "## Left out" says what this changes.
- The payload's outcome for each job is an input, `invoke: Job -> Outcome`: it either completes or raises with a message and a backtrace.
- Each iteration of `start` is a `Round`. A round gives:
  - the table contents the query sees;
  - the clock;
  - the outcomes;
  - the value of the exit flag at each of the two checks.

In four places the model follows the code where a reader might expect otherwise:

- `next_available_batch` compares `run_at < now` strictly. A job due exactly now is not taken.
- A nil priority is bound into `priority = ?` as SQL NULL, so it matches no row. It does not mean "any priority".
- `run` compares the new attempt count with the worker-wide `max_attempts`. The per-job helper `max_attempts(job)` is defined, but `run` never calls it (`AttemptIgnoresJobLimit`).
- The class comment (lib/delayed/worker.rb:18-19) says failed jobs are destroyed after too many attempts by default. Nothing in `work_off` does this: a job whose attempts ran out is written back with `failed_at` set and is never deleted (`TerminalJobKept`).

## Model

| member | source | states |
|---|---|---|
| Delayed.Settings.constructor | lib/delayed/worker.rb:9-16 | the shared settings start at batch size 500, 5 attempts, 4 hours run time, 2 minutes sleep, no priority |
| Delayed.Worker.constructor | lib/delayed/worker.rb:48-53 | `quiet` is as the options say; the shared settings become `Configure(old settings, options)` |
| Configuration.Quiet | lib/delayed/worker.rb:49 | definition: `@quiet`, true when the `:quiet` key is absent, else the value given |
| Configuration.Configure | lib/delayed/worker.rb:50-52 | definition: the settings after `initialize`. `batch_size` is the option or 500; `priority` and `sleep_delay` are the option when the key is present; the rest is left alone |
| Configuration.QuietUnlessGiven | lib/delayed/worker.rb:49 | the worker is non-quiet exactly when `:quiet` is given with a false value |
| Configuration.ConfigureResult | lib/delayed/worker.rb:50-52 | `batch_size` is always assigned: the option, else 500. `priority` and `sleep_delay` change only when given; `max_attempts` and `max_run_time` never change |
| Configuration.BatchSizeFromOptionsOnly | lib/delayed/worker.rb:50 | the batch size after `initialize` depends on the options alone, not on what an earlier worker set |
| Configuration.ConfigureIdempotent | lib/delayed/worker.rb:48-53 | building a second worker with the same options leaves the settings as the first left them |
| Configuration.ConfigureNoOptions | lib/delayed/worker.rb:50-52 | a worker built without options resets the batch size to 500 and keeps every other setting |
| Configuration.LaterOptionsWin | lib/delayed/worker.rb:50-52 | a later worker that gives every key overrides whatever an earlier worker set |
| Retry.BackoffDelay | lib/delayed/worker.rb:162 | definition: `(5 ** attempts).minutes`, in seconds |
| Retry.ErrorText | lib/delayed/worker.rb:157 | definition: an opening brace, the message, a newline, then the backtrace lines joined by the two characters backslash and `n` |
| Retry.Attempt | lib/delayed/worker.rb:157-163 | on completion the job is unchanged. On an exception: `last_error` is the error text; `attempts` goes up by exactly one; id, priority and the job's own limit are kept. If the new count exceeds the limit, `failed_at` becomes now and `run_at` is kept; otherwise `run_at` becomes now plus the backoff and `failed_at` is kept |
| Delayed.Worker.Run | lib/delayed/worker.rb:146-166 | returns true exactly on completion and never propagates the error; the record's new row is `Attempt` of its old row under the worker-wide `max_attempts` |
| Retry.BackoffDelayIncreasing | lib/delayed/worker.rb:162 | each later failure waits strictly longer than an earlier one |
| Retry.BackoffDelayValues | lib/delayed/worker.rb:162 | the first three retries wait 5, 25 and 125 minutes |
| Retry.RetryIsLater | lib/delayed/worker.rb:161-162 | a rescheduled job runs again no sooner than five minutes after the failure |
| Retry.SixthFailureIsTerminal | lib/delayed/worker.rb:158-160 | with the default limit of 5, the failure that takes `attempts` from 5 to 6 sets `failed_at` and keeps `run_at` |
| Retry.AttemptKeepsFailureMark | lib/delayed/worker.rb:157-163 | `attempts` never decreases, and a set `failed_at` is never cleared |
| Retry.RunAtNeverMovesBack | lib/delayed/worker.rb:159-163 | for a job that is due (`run_at` not after now), `run_at` never decreases: a retry is scheduled after now, and a terminal failure keeps `run_at` |
| Retry.MultiLineMessageAmbiguous | lib/delayed/worker.rb:157 | a multi-line message cannot be separated from the backtrace: two different exceptions (message `a\nb` with line `x`, and message `a` with line `b\nx`) leave the same text, and the text up to the first newline is only the message's first line |
| Retry.AttemptIgnoresJobLimit | lib/delayed/worker.rb:159 | the job's own `max_attempts` column has no influence on the transition |
| Retry.EffectiveMaxAttempts | lib/delayed/worker.rb:174-176 | the job's own limit when it has one, else the worker default |
| Retry.ErrorTextLayout | lib/delayed/worker.rb:157 | the error text opens with `{`. When the message holds no newline, it can be read back as the text up to the first newline; when in addition no backtrace line holds a newline, that newline is the only one, because the backtrace is joined by the two characters backslash and `n` |
| SqlEscape.Escape | lib/delayed/worker.rb:111 | definition: every backslash doubled, then every quote doubled |
| SqlEscape.UnescapeEscape | lib/delayed/worker.rb:111 | halving doubled quotes, then doubled backslashes, recovers the original `last_error` |
| SqlEscape.EscapeLength | lib/delayed/worker.rb:111 | the escaped length is the original length plus the number of backslashes plus the number of quotes |
| SqlEscape.EscapedQuotesPaired | lib/delayed/worker.rb:111 | every quote of the escaped text is part of an adjacent pair |
| SqlEscape.ReadEscapedLiteral | lib/delayed/worker.rb:111-113 | a MySQL reader of the quoted literal `'escaped'` returns exactly the original text and stops at the closing quote |
| Statements.Sql | lib/delayed/worker.rb:102-118 | definition: the full text of each statement, the fixed SQL with the id list or the tuples interpolated |
| Statements.Tuple | lib/delayed/worker.rb:113 | definition: the tuple `(id, failed_at, attempts, 'last_error', 'run_at')`, with `last_error` escaped |
| Statements.IdList | lib/delayed/worker.rb:101 | definition: the ids rendered in decimal and joined by commas |
| Statements.RemoveStatements | lib/delayed/worker.rb:98-103 | definition: no statement for no jobs; otherwise the DELETE of their id list |
| Statements.MarkFailedStatements | lib/delayed/worker.rb:105-118 | definition: no statement for no jobs; otherwise DROP, CREATE, the INSERT of the jobs' tuples, UPDATE, DROP |
| Statements.FailedAtValue | lib/delayed/worker.rb:112 | a nil `failed_at` is rendered as `null`; a present one is quoted |
| Statements.ReadTupleRendered | lib/delayed/worker.rb:113 | reading one rendered tuple back gives the job's id, `failed_at`, attempts, `last_error` and `run_at` |
| Statements.ReadTuplesJoin | lib/delayed/worker.rb:110-114 | the INSERT's values decode to one tuple per job, in order, carrying each job's persisted columns |
| Statements.ReadIdListRendered | lib/delayed/worker.rb:101 | the comma-joined id list decodes to exactly the ids, in order |
| Statements.RemoveStatementsShape | lib/delayed/worker.rb:98-103 | no statement for no jobs; otherwise a single DELETE whose id list decodes to the jobs' ids in order |
| Statements.MarkFailedStatementsShape | lib/delayed/worker.rb:105-122 | no statement for no jobs; otherwise exactly DROP, CREATE, INSERT, UPDATE, DROP, where the INSERT decodes to one tuple per job, in order |
| Delayed.Connection.Execute | lib/delayed/worker.rb:102 | the statement is appended to the connection's log |
| Delayed.Worker.RemoveSuccessfulJobs | lib/delayed/worker.rb:98-103 | the log grows by exactly `RemoveStatements` of the records' rows |
| Delayed.Worker.MarkFailedJobs | lib/delayed/worker.rb:105-122 | the log grows by exactly `MarkFailedStatements` of the records' rows |
| Delayed.Worker.ExecuteAll | lib/delayed/worker.rb:119-121 | the queries are executed in order: the log grows by exactly the queries |
| Delayed.Worker.LoadAndRun | lib/delayed/worker.rb:129-130 | a fresh record of the row is run; returns whether it completed, and its row is `Attempt` of the loaded row |
| Delayed.Worker.RunNext | lib/delayed/worker.rb:129-135 | running job `i` extends the success list or the failure list as `Succeeded` and `FailedRows` of the batch prefix say |
| Delayed.Worker.RunBatch | lib/delayed/worker.rb:127-135 | the success records' rows are `Succeeded(batch)`; the failure records' rows are the raised jobs as `run` left them, in order |
| Delayed.Worker.WorkOffBatch | lib/delayed/worker.rb:127-143 | returns the two list lengths, which add up to the batch size; the log grows by the DELETE of the successes followed by the updates of the failures |
| Delayed.Worker.WorkOff | lib/delayed/worker.rb:124-144 | the same, for the batch `NextAvailableBatch` returns under the shared settings |
| Passes.Succeeded | lib/delayed/worker.rb:129-135 | definition: the jobs of the batch whose invocation completed, in batch order |
| Passes.RaisedJobs | lib/delayed/worker.rb:129-135 | definition: the jobs of the batch whose invocation raised, in batch order, before `run` updated them |
| Passes.FailedRows | lib/delayed/worker.rb:129-135 | definition: the raised jobs as `run` leaves them, in batch order; this is the failure list |
| Passes.PassMembers | lib/delayed/worker.rb:130-134 | the success list holds only completed jobs of the batch, and the raised list (the raised jobs before `run` updated them) only raised ones |
| Passes.PassPartitions | lib/delayed/worker.rb:127-143 | the success and failure lists are an order-preserving interleaving of the batch; their sizes add up to its size, and their multisets to its multiset |
| Passes.PassAccountsForEveryJob | lib/delayed/worker.rb:129-139 | every completed job of the batch is in the success list, and every raised job's `run` result is in the failure list |
| Passes.EmptyPassIssuesNothing | lib/delayed/worker.rb:98-107 | a pass over an empty batch issues no statement |
| Passes.TerminalJobKept | lib/delayed/worker.rb:137-139 | when ids are unique in the batch, a job whose attempts run out is not named by the pass's DELETE, and its row is written back with `failed_at` set to now |
| Passes.FailedJobWithdrawn | lib/delayed/worker.rb:159-163 | a job that failed in a pass is not available to the query for the next five minutes |
| Passes.TerminalJobNeverAvailable | lib/delayed/worker.rb:159-160 | a job whose attempts were used up is never available to the query again |
| Delayed.Worker.AfterWorkOff | lib/delayed/worker.rb:83-95 | after a pass: the first exit check; then the sleep when nothing was processed, or the report otherwise; then the second exit check |
| Delayed.Worker.Iteration | lib/delayed/worker.rb:76-95 | one iteration's events are `RoundEvents` and its statements are the pass's statements; it breaks exactly when the flag is up at either check |
| Delayed.Worker.Start | lib/delayed/worker.rb:70-96 | over a run of rounds, the events are `Loop(settings, rounds)` and the log grows by `LoopLog(settings, rounds)` |
| Passes.IterationEvents | lib/delayed/worker.rb:76-95 | definition: the pass; then leaving if the flag is up at the first check; otherwise a sleep of `sleep_delay` when the count is zero or a report when it is not, then leaving if the flag is up at the second check |
| Passes.Loop | lib/delayed/worker.rb:76-96 | definition: each round's events in turn, stopping after the first round whose flag is seen |
| Passes.LoopLog | lib/delayed/worker.rb:76-96 | definition: each round's statements in turn, stopping after the same round |
| Passes.IterationHasOnePass | lib/delayed/worker.rb:76-95 | whatever the counts and flags, an iteration runs exactly one `work_off`, and runs it first |
| Passes.RoundHasOnePass | lib/delayed/worker.rb:76-95 | each round runs exactly one `work_off`, and runs it first |
| Passes.IterationSleeps | lib/delayed/worker.rb:85-89 | an iteration sleeps exactly when the flag was down at the first check and the count is zero, and it sleeps for the configured delay |
| Passes.IterationReports | lib/delayed/worker.rb:85-91 | an iteration reports exactly when the flag was down at the first check and the count is positive |
| Passes.SleepOnlyWhenIdle | lib/delayed/worker.rb:85-89 | the loop sleeps in a round exactly when the flag was down at the first check and the fetched batch was empty, and then for `sleep_delay` |
| Passes.ReportOnlyWhenBusy | lib/delayed/worker.rb:85-91 | the throughput report appears exactly when the flag was down at the first check and the batch was not empty |
| Passes.IterationExit | lib/delayed/worker.rb:85-94 | an iteration leaves the loop exactly when the flag is seen at either check, and leaving is its last event |
| Passes.ExitLastInRound | lib/delayed/worker.rb:85-94 | a round leaves the loop exactly when its flag is seen, and leaving is then its last event |
| Passes.LoopRunsRan | lib/delayed/worker.rb:76-96 | the loop runs one pass per round up to and including the first round that sees the flag, and issues only those rounds' statements |
| Passes.ExitEndsLoop | lib/delayed/worker.rb:76-96 | once the flag is seen in round `i`, no later round runs a pass or issues a statement |
| Passes.NoExitRunsAll | lib/delayed/worker.rb:76-96 | without the flag, every round runs its pass |
| ActiveRecordBackend.Available | lib/delayed/backend/active_record.rb:24 | definition: the WHERE clause `priority = ? AND failed_at is null AND run_at < ?`, where a nil priority matches no row |
| ActiveRecordBackend.Candidates | lib/delayed/backend/active_record.rb:24 | every row kept satisfies `priority = ? AND failed_at is null AND run_at < now` |
| ActiveRecordBackend.CandidatesExactly | lib/delayed/backend/active_record.rb:24 | a row is kept exactly as often as it is stored when it satisfies the condition, and never otherwise |
| ActiveRecordBackend.SortByRunAt | lib/delayed/backend/active_record.rb:24 | the result is ascending by `run_at` and is a permutation of its input |
| ActiveRecordBackend.NextAvailableBatch | lib/delayed/backend/active_record.rb:23-26 | the result has length min(batch size, number of eligible rows); every row in it has the given priority, no `failed_at` and `run_at` strictly before now; it is ascending by `run_at`; it is a sub-multiset of the eligible rows |
| ActiveRecordBackend.BatchFromStore | lib/delayed/backend/active_record.rb:24 | every returned row is a row of the table |
| ActiveRecordBackend.BatchCompleteWhenSmall | lib/delayed/backend/active_record.rb:24 | when there are no more than `batch_size` eligible rows, all of them are returned |
| ActiveRecordBackend.BatchTakesEarliest | lib/delayed/backend/active_record.rb:24 | no eligible row left out of the batch is due before a row taken into it |

## Left out

- Payload invocation and `Timeout.timeout` with `max_run_time` (lib/delayed/worker.rb:147-149): the payload's outcome, completion or an exception with message and backtrace, is an input. A timeout is one such exception.
- `Benchmark.realtime` and the throughput rate (lib/delayed/worker.rb:79-81, 91): wall-clock floating point. The report event keeps the count and the number of failures, not the rate.
- `say`, `puts` and the logger (lib/delayed/worker.rb:71, 88, 128, 136, 141, 150, 153-155, 168-172): output only. `quiet` is modelled as a field but has no effect here.
- Signal traps and the global `$exit` (lib/delayed/worker.rb:73-74): asynchronous. Each round instead gives the flag's value at each of the two checks.
- The unbounded `loop do`: `Start` runs over a finite sequence of rounds. `Loop` describes every finite prefix of the loop.
- `sleep` itself: the model records the sleep event and its length, and does not wait.
- `backend=`, `guess_backend`, `name` and `name=` (lib/delayed/worker.rb:34-46, 59-67): dynamic loading and host/pid lookup, outside the job bookkeeping.
- `before_fork`, `after_fork` and `db_time_now` (lib/delayed/backend/active_record.rb:14-20, 31-39): connection handling and clock reads. The clock is the `now` of each round.
- Executing SQL against a database: statements are appended to the connection's log, not applied to a table. Each round's table contents are therefore an input, not the result of the previous round's statements. The readers in `Statements` decode only the parts of each statement that vary with the jobs (the id list and the tuples); the fixed text is a constant.
- A failing `execute` or a failing query: `Connection.Execute` and `NextAvailableBatch` always succeed. In the source, such an exception is not rescued anywhere in lib/delayed/worker.rb:76-144, so it leaves `work_off` and `start`; a failing DELETE also skips `mark_failed_jobs`.
- Timestamp formats: the source renders the two timestamps of a tuple differently, `failed_at` with `to_s(:db)` (lib/delayed/worker.rb:112) and `run_at` with plain `to_s` (line 113). The model renders both as decimal seconds, so `ReadTupleRendered` and `ReadTuplesJoin` recover them only under this stand-in, not for the two real formats.
- Delayed.Worker.WorkOff, Delayed.Worker.Iteration, Delayed.Worker.Start: SQL leaves the order of rows with equal `run_at` open, and `SortByRunAt` keeps storage order. The logs these three methods promise are for that order. The order fixes the DELETE's id order, the INSERT's tuple order, and which of the tied rows fit under the LIMIT. `WorkOffBatch` is stated for every batch, so it describes a pass over whatever batch SQL returns, in whatever order.
- Delayed.Worker.WorkOff, Delayed.Worker.WorkOffBatch, Delayed.Worker.RunBatch, Passes.FailedRows: the source reads `Time.now` once for the query (lib/delayed/backend/active_record.rb:24) and again for each failure (lib/delayed/worker.rb:160 and 162). Those later readings come after earlier jobs in the batch have run, for up to `max_run_time` each. The model uses the query's `now` for every failure of the pass. So where a job fails after earlier jobs took time, the model's `failed_at` and `run_at` are earlier than the source's.
- The read-only nature of `next_available_batch` needs no lemma: it is a function of the rows, so it cannot change them.
- `destroy_failed_jobs`, `default_priority` and `delay_jobs` (lib/delayed/worker.rb:11-21): declared but not read by the core. The comment above `destroy_failed_jobs` (lines 18-19) promises that failed jobs are destroyed by default. The code never does this; the model follows the code (`TerminalJobKept`).
- `max_run_time`: kept in the settings but not used, since the timeout is not modelled.
- lib/delayed/tasks.rb: rake glue that builds a worker from environment variables; it is not part of this model.
- Delayed.Worker.constructor: an option key present with a nil value (`batch_size: nil`, `sleep_delay: nil`) is not modelled. A present `:batch_size` or `:sleep_delay` carries a number. A present `:priority` may carry nil.
- Delayed.Settings.constructor: the Ruby class leaves `batch_size` and `priority` nil until the first worker is built. The model starts `batch_size` at 500, which every `Worker.new` assigns anyway.
- Delayed.JobRecord: a nil `last_error` is not modelled; every failed job has one, written by `run` just before `mark_failed_jobs` reads it.
- Retry.Attempt: integers are unbounded, so the model has no overflow of `attempts` or of the backoff.
