/**
 * `Delayed::Worker` (lib/delayed/worker.rb) as objects: the class-level
 * settings it shares, the database connection it writes to, the job
 * records it updates in place, and the worker's own methods.
 */
module Delayed {
  import opened Wrappers
  import opened Text
  import opened Jobs
  import opened Configuration
  import opened Retry
  import opened ActiveRecordBackend
  import opened Statements
  import opened Passes

  /** The `cattr_accessor` settings of `Delayed::Worker`, shared by every worker. */
  class Settings {
    var priority: Option<int>
    var batchSize: nat
    var maxAttempts: nat
    var maxRunTime: nat
    var sleepDelay: nat

    function Snapshot(): Config
      reads this
    {
      Config(priority, batchSize, maxAttempts, maxRunTime, sleepDelay)
    }

    /** The values the class body assigns. */
    constructor ()
      ensures Snapshot() == Initial
    {
      priority := None;
      batchSize := DefaultBatchSize;
      maxAttempts := DefaultMaxAttempts;
      maxRunTime := DefaultMaxRunTime;
      sleepDelay := DefaultSleepDelay;
    }
  }

  /** `ActiveRecord::Base.connection`: what it has been asked to execute, oldest first. */
  class Connection {
    var log: seq<Statement>

    constructor ()
      ensures log == []
    {
      log := [];
    }

    method Execute(st: Statement)
      modifies this
      ensures log == old(log) + [st]
    {
      log := log + [st];
    }
  }

  /** A loaded job: the ActiveRecord object whose attributes `run` assigns. */
  class JobRecord {
    var id: nat
    var priority: int
    var runAt: nat
    var attempts: nat
    var failedAt: Option<nat>
    var lastError: string
    var maxAttempts: Option<nat>

    function Row(): Job
      reads this
    {
      Job(id, priority, runAt, attempts, failedAt, lastError, maxAttempts)
    }

    constructor (j: Job)
      ensures Row() == j
    {
      id := j.id;
      priority := j.priority;
      runAt := j.runAt;
      attempts := j.attempts;
      failedAt := j.failedAt;
      lastError := j.lastError;
      maxAttempts := j.maxAttempts;
    }
  }

  /** The rows of a list of records, in order. */
  function Rows(jobs: seq<JobRecord>): (r: seq<Job>)
    reads jobs
    ensures |r| == |jobs|
    decreases |jobs|
  {
    if jobs == [] then [] else Rows(jobs[..|jobs| - 1]) + [jobs[|jobs| - 1].Row()]
  }

  lemma RowsAppend(jobs: seq<JobRecord>, job: JobRecord)
    ensures Rows(jobs + [job]) == Rows(jobs) + [job.Row()]
  {
    assert (jobs + [job])[..|jobs|] == jobs;
  }

  class Worker {
    const settings: Settings
    const connection: Connection
    /** `@quiet`. */
    const quiet: bool

    /** `initialize(options)`: rewrites the shared settings as `Configure` says. */
    constructor (settings: Settings, connection: Connection, options: Options)
      modifies settings
      ensures this.settings == settings && this.connection == connection
      ensures quiet == Quiet(options)
      ensures settings.Snapshot() == Configure(old(settings.Snapshot()), options)
    {
      this.settings := settings;
      this.connection := connection;
      quiet := !options.quiet.Some? || options.quiet.value;
      settings.batchSize := if options.batchSize.Some? then options.batchSize.value else DefaultBatchSize;
      if options.priority.Some? {
        settings.priority := options.priority.value;
      }
      if options.sleepDelay.Some? {
        settings.sleepDelay := options.sleepDelay.value;
      }
    }

    /**
     * `run(job)`: the payload's outcome is given. Returns whether it
     * completed; an exception is recorded on the job and never escapes.
     */
    method Run(job: JobRecord, outcome: Outcome, now: nat) returns (didWork: bool)
      modifies job
      ensures didWork <==> outcome.Completed?
      ensures job.Row() == Attempt(old(job.Row()), outcome, now, settings.maxAttempts)
    {
      if outcome.Completed? {
        return true;
      }
      job.lastError := "{" + outcome.message + "\n" + Join(outcome.backtrace, TraceSeparator);
      job.attempts := job.attempts + 1;
      if job.attempts > settings.maxAttempts {
        job.failedAt := Some(now);
      } else {
        job.runAt := now + Pow(5, job.attempts) * SecondsPerMinute;
      }
      return false;
    }

    /** `remove_successful_jobs(jobs)`: one DELETE of their ids, or nothing for no jobs. */
    method RemoveSuccessfulJobs(jobs: seq<JobRecord>)
      modifies connection
      ensures connection.log == old(connection.log) + RemoveStatements(Rows(jobs))
    {
      if |jobs| == 0 {
        return;
      }
      var jobIds := IdList(Ids(Rows(jobs)));
      connection.Execute(DeleteJobs(jobIds));
    }

    /**
     * `mark_failed_jobs(jobs)`: builds the five statements that copy the
     * jobs' columns back through a temporary table, then executes them in
     * order; nothing for no jobs.
     */
    method MarkFailedJobs(jobs: seq<JobRecord>)
      modifies connection
      ensures connection.log == old(connection.log) + MarkFailedStatements(Rows(jobs))
    {
      if |jobs| == 0 {
        return;
      }
      var queries: seq<Statement> := [];
      queries := queries + [DropUpdates];
      queries := queries + [CreateUpdates];
      var inserts := Values(Rows(jobs));
      queries := queries + [InsertUpdates(inserts)];
      queries := queries + [UpdateJobs];
      queries := queries + [DropUpdates];
      assert queries == MarkFailedStatements(Rows(jobs));
      ExecuteAll(queries);
    }

    /** `queries.each { |query| connection.execute(query) }`. */
    method ExecuteAll(queries: seq<Statement>)
      modifies connection
      ensures connection.log == old(connection.log) + queries
    {
      for i := 0 to |queries|
        invariant connection.log == old(connection.log) + queries[..i]
      {
        connection.Execute(queries[i]);
        assert queries[..i + 1] == queries[..i] + [queries[i]];
      }
      assert queries[..|queries|] == queries;
    }

    /** Loads one job of the batch into a new record and runs it. */
    method LoadAndRun(row: Job, outcome: Outcome, now: nat) returns (job: JobRecord, ok: bool)
      ensures fresh(job)
      ensures ok <==> outcome.Completed?
      ensures job.Row() == Attempt(row, outcome, now, settings.maxAttempts)
    {
      job := new JobRecord(row);
      ok := Run(job, outcome, now);
    }

    /** One turn of the loop of `work_off`: job `i` is run and its record filed under success or failure. */
    method RunNext(batch: seq<Job>, i: nat, invoke: Job -> Outcome, now: nat, succeeded: seq<JobRecord>, failed: seq<JobRecord>)
      returns (nextSucceeded: seq<JobRecord>, nextFailed: seq<JobRecord>)
      requires i < |batch|
      requires Rows(succeeded) == Succeeded(batch[..i], invoke)
      requires Rows(failed) == FailedRows(batch[..i], invoke, now, settings.maxAttempts)
      ensures Rows(nextSucceeded) == Succeeded(batch[..i + 1], invoke)
      ensures Rows(nextFailed) == FailedRows(batch[..i + 1], invoke, now, settings.maxAttempts)
    {
      var job, ok := LoadAndRun(batch[i], invoke(batch[i]), now);
      PassStep(batch, i, invoke, now, settings.maxAttempts, job.Row());
      if ok {
        RowsAppend(succeeded, job);
        nextSucceeded, nextFailed := succeeded + [job], failed;
      } else {
        RowsAppend(failed, job);
        nextSucceeded, nextFailed := succeeded, failed + [job];
      }
    }

    /**
     * The loop of `work_off` over `batch`: each job is run, and its record
     * goes to the success or the failure list, in batch order.
     */
    method RunBatch(batch: seq<Job>, invoke: Job -> Outcome, now: nat) returns (succeeded: seq<JobRecord>, failed: seq<JobRecord>)
      ensures Rows(succeeded) == Succeeded(batch, invoke)
      ensures Rows(failed) == FailedRows(batch, invoke, now, settings.maxAttempts)
    {
      succeeded := [];
      failed := [];
      for i := 0 to |batch|
        invariant Rows(succeeded) == Succeeded(batch[..i], invoke)
        invariant Rows(failed) == FailedRows(batch[..i], invoke, now, settings.maxAttempts)
      {
        succeeded, failed := RunNext(batch, i, invoke, now, succeeded, failed);
      }
      assert batch[..|batch|] == batch;
    }

    /**
     * The body of `work_off` once the batch is fetched: runs every job (its
     * outcome given by `invoke`), persists the success and the failure
     * lists and returns their lengths.
     */
    method WorkOffBatch(batch: seq<Job>, invoke: Job -> Outcome, now: nat) returns (successes: nat, failures: nat)
      modifies connection
      ensures successes == |Succeeded(batch, invoke)|
      ensures failures == |FailedRows(batch, invoke, now, settings.maxAttempts)|
      ensures successes + failures == |batch|
      ensures connection.log == old(connection.log) + PassStatements(batch, invoke, now, settings.maxAttempts)
    {
      var succeeded, failed := RunBatch(batch, invoke, now);
      ghost var s := Succeeded(batch, invoke);
      ghost var f := FailedRows(batch, invoke, now, settings.maxAttempts);
      RemoveSuccessfulJobs(succeeded);
      assert Rows(succeeded) == s && Rows(failed) == f;
      assert connection.log == old(connection.log) + RemoveStatements(s);
      MarkFailedJobs(failed);
      assert connection.log == old(connection.log) + RemoveStatements(s) + MarkFailedStatements(f);
      assert PassStatements(batch, invoke, now, settings.maxAttempts) == RemoveStatements(s) + MarkFailedStatements(f);
      AppendAssoc(old(connection.log), RemoveStatements(s), MarkFailedStatements(f));
      PassPartitions(batch, invoke);
      return |succeeded|, |failed|;
    }

    /**
     * `work_off`: fetches the next batch from `store` at time `now` under
     * the current settings and works it off.
     */
    method WorkOff(store: seq<Job>, invoke: Job -> Outcome, now: nat) returns (successes: nat, failures: nat)
      modifies connection
      ensures var batch := NextAvailableBatch(store, settings.priority, settings.batchSize, now);
        && successes == |Succeeded(batch, invoke)|
        && failures == |FailedRows(batch, invoke, now, settings.maxAttempts)|
        && successes + failures == |batch|
        && connection.log == old(connection.log) + PassStatements(batch, invoke, now, settings.maxAttempts)
    {
      var batch := NextAvailableBatch(store, settings.priority, settings.batchSize, now);
      successes, failures := WorkOffBatch(batch, invoke, now);
    }

    /**
     * One iteration of the `start` loop: a `work_off` pass on the round's
     * table, then the first exit check, then the sleep or the report, then
     * the second exit check. Returns what happened and whether the loop
     * breaks.
     */
    method Iteration(r: Round) returns (step: seq<Event>, exit: bool)
      modifies connection
      ensures step == RoundEvents(settings.Snapshot(), r)
      ensures exit == Exits(r)
      ensures connection.log == old(connection.log) + RoundStatements(settings.Snapshot(), r)
    {
      var successes, failures := WorkOff(r.store, r.invoke, r.now);
      RoundEventsOf(settings.Snapshot(), r, successes, failures);
      step, exit := AfterWorkOff(successes, failures, r.exitAfterPass, r.exitAfterWait);
    }

    /**
     * The rest of an iteration once `work_off` returned its counts: the
     * exit check, the sleep or the report, the second exit check.
     */
    method AfterWorkOff(successes: nat, failures: nat, exitAfterPass: bool, exitAfterWait: bool) returns (step: seq<Event>, exit: bool)
      ensures step == IterationEvents(successes, failures, settings.sleepDelay, exitAfterPass, exitAfterWait)
      ensures exit == (exitAfterPass || exitAfterWait)
    {
      IterationCases(successes, failures, settings.sleepDelay, exitAfterPass, exitAfterWait);
      var count := successes + failures;
      step := [WorkedOff(successes, failures)];
      if exitAfterPass {
        return step + [Exited], true;
      }
      ghost var wait := WaitEvent(successes, failures, settings.sleepDelay);
      if count == 0 {
        assert wait == Slept(settings.sleepDelay);
        step := step + [Slept(settings.sleepDelay)];
      } else {
        assert wait == Reported(count, failures);
        step := step + [Reported(count, failures)];
      }
      assert step == [WorkedOff(successes, failures)] + [wait];
      if exitAfterWait {
        return step + [Exited], true;
      }
      exit := false;
    }

    /**
     * `start` over a finite run of loop iterations: one `work_off` per
     * round, leaving the loop when the round's exit flag is seen at either
     * check; returns what happened, in order.
     */
    method Start(rounds: seq<Round>) returns (events: seq<Event>)
      modifies connection
      ensures events == Loop(settings.Snapshot(), rounds)
      ensures connection.log == old(connection.log) + LoopLog(settings.Snapshot(), rounds)
    {
      ghost var c := settings.Snapshot();
      events := [];
      var i := 0;
      while i < |rounds|
        invariant 0 <= i <= |rounds|
        invariant settings.Snapshot() == c
        invariant events + Loop(c, rounds[i..]) == Loop(c, rounds)
        invariant connection.log + LoopLog(c, rounds[i..]) == old(connection.log) + LoopLog(c, rounds)
      {
        ghost var before, logBefore := events, connection.log;
        var step, exit := Iteration(rounds[i]);
        LoopStep(c, rounds, i);
        ghost var rest := if exit then [] else Loop(c, rounds[i + 1..]);
        ghost var restLog := if exit then [] else LoopLog(c, rounds[i + 1..]);
        AppendAssoc(before, step, rest);
        AppendAssoc(logBefore, RoundStatements(c, rounds[i]), restLog);
        events := events + step;
        if exit {
          assert events == events + rest;
          break;
        }
        i := i + 1;
      }
    }
  }
}
