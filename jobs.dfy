/**
 * The job record a worker handles: one row of the `delayed_jobs` table, and
 * the outcome of invoking its payload.
 */
module Jobs {
  import opened Wrappers

  /**
   * A row of `delayed_jobs`. Times are whole seconds; `failedAt` and
   * `maxAttempts` are the nil-able columns. The payload is not represented:
   * its invocation is an `Outcome` supplied from outside.
   */
  datatype Job = Job(
    id: nat,
    priority: int,
    runAt: nat,
    attempts: nat,
    failedAt: Option<nat>,
    lastError: string,
    maxAttempts: Option<nat>)

  /**
   * What invoking a payload under the run-time limit produced: normal
   * completion, or an exception (a timeout included) with its message and
   * backtrace lines.
   */
  datatype Outcome = Completed | Raised(message: string, backtrace: seq<string>)
}
