/**
 * What one `work_off` pass and the `start` loop of `Delayed::Worker`
 * (lib/delayed/worker.rb) compute, stated on values: the split of a batch
 * into successes and failures, the statements the pass issues, and the
 * events of the loop driven by the exit flag.
 */
module Passes {
  import opened Wrappers
  import opened Jobs
  import opened Configuration
  import opened Retry
  import opened ActiveRecordBackend
  import opened Statements

  /** The jobs of the batch whose invocation completed, in batch order. */
  function Succeeded(batch: seq<Job>, invoke: Job -> Outcome): (r: seq<Job>)
    ensures |r| <= |batch|
    decreases |batch|
  {
    if batch == [] then []
    else
      var last := batch[|batch| - 1];
      Succeeded(batch[..|batch| - 1], invoke) + (if invoke(last).Completed? then [last] else [])
  }

  /** The jobs of the batch whose invocation raised, in batch order, before `run` updated them. */
  function RaisedJobs(batch: seq<Job>, invoke: Job -> Outcome): (r: seq<Job>)
    ensures |r| <= |batch|
    decreases |batch|
  {
    if batch == [] then []
    else
      var last := batch[|batch| - 1];
      RaisedJobs(batch[..|batch| - 1], invoke) + (if invoke(last).Raised? then [last] else [])
  }

  /** The success list holds only completed jobs of the batch, the raised list only raised ones. */
  lemma {:induction false} PassMembers(batch: seq<Job>, invoke: Job -> Outcome)
    ensures forall j | j in Succeeded(batch, invoke) :: j in batch && invoke(j).Completed?
    ensures forall j | j in RaisedJobs(batch, invoke) :: j in batch && invoke(j).Raised?
    decreases |batch|
  {
    if batch != [] {
      PassMembers(batch[..|batch| - 1], invoke);
    }
  }

  /** Each raised job as `run` leaves it, in order. */
  function Retried(raised: seq<Job>, invoke: Job -> Outcome, now: nat, maxAttempts: nat): (r: seq<Job>)
    ensures |r| == |raised|
    ensures forall k | 0 <= k < |r| :: r[k] == Attempt(raised[k], invoke(raised[k]), now, maxAttempts)
  {
    seq(|raised|, k requires 0 <= k < |raised| => Attempt(raised[k], invoke(raised[k]), now, maxAttempts))
  }

  /** The failure list of the pass. */
  function FailedRows(batch: seq<Job>, invoke: Job -> Outcome, now: nat, maxAttempts: nat): seq<Job>
  {
    Retried(RaisedJobs(batch, invoke), invoke, now, maxAttempts)
  }

  /** The statements of one pass: the DELETE of the successes, then the updates of the failures. */
  function PassStatements(batch: seq<Job>, invoke: Job -> Outcome, now: nat, maxAttempts: nat): seq<Statement>
  {
    RemoveStatements(Succeeded(batch, invoke)) + MarkFailedStatements(FailedRows(batch, invoke, now, maxAttempts))
  }

  lemma StepFailed(s': seq<Job>, x: Job, invoke: Job -> Outcome, now: nat, maxAttempts: nat)
    requires invoke(x).Raised?
    ensures FailedRows(s' + [x], invoke, now, maxAttempts)
         == FailedRows(s', invoke, now, maxAttempts) + [Attempt(x, invoke(x), now, maxAttempts)]
  {
    StepRaised(s', x, invoke);
    RetriedAppend(RaisedJobs(s', invoke), x, invoke, now, maxAttempts);
  }

  lemma RetriedAppend(raised: seq<Job>, x: Job, invoke: Job -> Outcome, now: nat, maxAttempts: nat)
    ensures Retried(raised + [x], invoke, now, maxAttempts)
         == Retried(raised, invoke, now, maxAttempts) + [Attempt(x, invoke(x), now, maxAttempts)]
  {
  }

  /** How job `i` of the batch extends the two lists: `row` is the job as `run` left it. */
  lemma PassStep(batch: seq<Job>, i: nat, invoke: Job -> Outcome, now: nat, maxAttempts: nat, row: Job)
    requires i < |batch|
    requires row == Attempt(batch[i], invoke(batch[i]), now, maxAttempts)
    ensures invoke(batch[i]).Completed? ==>
      && Succeeded(batch[..i + 1], invoke) == Succeeded(batch[..i], invoke) + [row]
      && FailedRows(batch[..i + 1], invoke, now, maxAttempts) == FailedRows(batch[..i], invoke, now, maxAttempts)
    ensures invoke(batch[i]).Raised? ==>
      && Succeeded(batch[..i + 1], invoke) == Succeeded(batch[..i], invoke)
      && FailedRows(batch[..i + 1], invoke, now, maxAttempts) == FailedRows(batch[..i], invoke, now, maxAttempts) + [row]
  {
    assert batch[..i + 1] == batch[..i] + [batch[i]];
    if invoke(batch[i]).Completed? {
      StepSucceeded(batch[..i], batch[i], invoke);
    } else {
      StepFailed(batch[..i], batch[i], invoke, now, maxAttempts);
    }
  }

  /**
   * `s` is an interleaving of `a` and `b`: both are subsequences of `s`
   * and every element of `s` is taken by exactly one of them, in order.
   */
  predicate Interleaves(s: seq<Job>, a: seq<Job>, b: seq<Job>)
    decreases |s|
  {
    if s == [] then a == [] && b == []
    else
      var x := s[|s| - 1];
      var s' := s[..|s| - 1];
      || (a != [] && a[|a| - 1] == x && Interleaves(s', a[..|a| - 1], b))
      || (b != [] && b[|b| - 1] == x && Interleaves(s', a, b[..|b| - 1]))
  }

  lemma {:induction false} InterleavesSizes(s: seq<Job>, a: seq<Job>, b: seq<Job>)
    requires Interleaves(s, a, b)
    ensures multiset(a) + multiset(b) == multiset(s)
    ensures |a| + |b| == |s|
    decreases |s|
  {
    if s != [] {
      var x := s[|s| - 1];
      var s' := s[..|s| - 1];
      if a != [] && a[|a| - 1] == x && Interleaves(s', a[..|a| - 1], b) {
        InterleavesSizes(s', a[..|a| - 1], b);
        SplitLast(a);
      } else {
        InterleavesSizes(s', a, b[..|b| - 1]);
        SplitLast(b);
      }
      SplitLast(s);
    }
  }

  lemma SplitLast(s: seq<Job>)
    requires s != []
    ensures multiset(s) == multiset(s[..|s| - 1]) + multiset{s[|s| - 1]}
  {
    assert s == s[..|s| - 1] + [s[|s| - 1]];
  }

  lemma StepSucceeded(s': seq<Job>, x: Job, invoke: Job -> Outcome)
    requires invoke(x).Completed?
    ensures var s := s' + [x];
      Succeeded(s, invoke) == Succeeded(s', invoke) + [x] && RaisedJobs(s, invoke) == RaisedJobs(s', invoke)
  {
    assert (s' + [x])[..|s'|] == s';
  }

  lemma StepRaised(s': seq<Job>, x: Job, invoke: Job -> Outcome)
    requires invoke(x).Raised?
    ensures var s := s' + [x];
      Succeeded(s, invoke) == Succeeded(s', invoke) && RaisedJobs(s, invoke) == RaisedJobs(s', invoke) + [x]
  {
    assert (s' + [x])[..|s'|] == s';
  }

  lemma {:induction false} PassInterleaves(batch: seq<Job>, invoke: Job -> Outcome)
    ensures Interleaves(batch, Succeeded(batch, invoke), RaisedJobs(batch, invoke))
    decreases |batch|
  {
    if batch != [] {
      var x := batch[|batch| - 1];
      var s' := batch[..|batch| - 1];
      PassInterleaves(s', invoke);
      assert batch == s' + [x];
      if invoke(x).Completed? {
        StepSucceeded(s', x, invoke);
        InterleavesTakeFirst(batch, Succeeded(s', invoke), RaisedJobs(s', invoke), x);
      } else {
        StepRaised(s', x, invoke);
        InterleavesTakeSecond(batch, Succeeded(s', invoke), RaisedJobs(s', invoke), x);
      }
    }
  }

  lemma InterleavesTakeFirst(s: seq<Job>, a: seq<Job>, b: seq<Job>, x: Job)
    requires s != [] && s[|s| - 1] == x && Interleaves(s[..|s| - 1], a, b)
    ensures Interleaves(s, a + [x], b)
  {
    assert (a + [x])[..|a|] == a;
  }

  lemma InterleavesTakeSecond(s: seq<Job>, a: seq<Job>, b: seq<Job>, x: Job)
    requires s != [] && s[|s| - 1] == x && Interleaves(s[..|s| - 1], a, b)
    ensures Interleaves(s, a, b + [x])
  {
    assert (b + [x])[..|b|] == b;
  }

  /**
   * The success and failure lists are an order-preserving partition of the
   * batch, and the two counts the pass returns add up to the batch length.
   */
  lemma PassPartitions(batch: seq<Job>, invoke: Job -> Outcome)
    ensures Interleaves(batch, Succeeded(batch, invoke), RaisedJobs(batch, invoke))
    ensures |Succeeded(batch, invoke)| + |RaisedJobs(batch, invoke)| == |batch|
    ensures multiset(Succeeded(batch, invoke)) + multiset(RaisedJobs(batch, invoke)) == multiset(batch)
  {
    PassInterleaves(batch, invoke);
    InterleavesSizes(batch, Succeeded(batch, invoke), RaisedJobs(batch, invoke));
  }

  /**
   * Every job of the batch comes out of the pass either deleted (it is in
   * the success list, unchanged) or updated (its `run` result is in the
   * failure list, with the same id and one more attempt).
   */
  lemma PassAccountsForEveryJob(batch: seq<Job>, invoke: Job -> Outcome, now: nat, maxAttempts: nat, j: Job)
    requires j in batch
    ensures invoke(j).Completed? ==> j in Succeeded(batch, invoke)
    ensures invoke(j).Raised? ==>
      exists k | 0 <= k < |FailedRows(batch, invoke, now, maxAttempts)| ::
        FailedRows(batch, invoke, now, maxAttempts)[k] == Attempt(j, invoke(j), now, maxAttempts)
  {
    SortedIntoList(batch, invoke, j);
    if invoke(j).Raised? {
      var raised := RaisedJobs(batch, invoke);
      var k :| 0 <= k < |raised| && raised[k] == j;
      assert FailedRows(batch, invoke, now, maxAttempts)[k] == Attempt(j, invoke(j), now, maxAttempts);
    }
  }

  lemma {:induction false} SortedIntoList(batch: seq<Job>, invoke: Job -> Outcome, j: Job)
    requires j in batch
    ensures invoke(j).Completed? ==> j in Succeeded(batch, invoke)
    ensures invoke(j).Raised? ==> j in RaisedJobs(batch, invoke)
    decreases |batch|
  {
    var last := batch[|batch| - 1];
    var prefix := batch[..|batch| - 1];
    if j != last {
      assert batch == prefix + [last];
      SortedIntoList(prefix, invoke, j);
    }
  }

  /** An empty batch issues no statement at all. */
  lemma EmptyPassIssuesNothing(invoke: Job -> Outcome, now: nat, maxAttempts: nat)
    ensures PassStatements([], invoke, now, maxAttempts) == []
  {
    RemoveStatementsShape([]);
  }

  /**
   * A job that failed in a pass is not picked up again by the query for at
   * least five minutes: it is either marked failed for good or rescheduled
   * at least `BackoffDelay(1)` seconds after the pass.
   */
  lemma FailedJobWithdrawn(job: Job, message: string, backtrace: seq<string>, now: nat, maxAttempts: nat,
                           priority: Option<int>, t: nat)
    requires t <= now + 5 * 60
    ensures !Available(Attempt(job, Raised(message, backtrace), now, maxAttempts), priority, t)
  {
    var r := Attempt(job, Raised(message, backtrace), now, maxAttempts);
    if r.attempts <= maxAttempts {
      RetryIsLater(job, message, backtrace, now, maxAttempts);
    }
  }

  /** The failure mark set by `run` keeps the job out of every later batch. */
  lemma TerminalJobNeverAvailable(job: Job, message: string, backtrace: seq<string>, now: nat, maxAttempts: nat,
                                  priority: Option<int>, t: nat)
    requires job.attempts + 1 > maxAttempts
    ensures !Available(Attempt(job, Raised(message, backtrace), now, maxAttempts), priority, t)
  {
  }

  /**
   * A job whose attempts run out in a pass is kept, not destroyed: when ids
   * are unique in the batch, the only DELETE of the pass names the successes
   * alone, so not this job, and the job's row, marked failed at `now`, is
   * among the rows the pass writes back.
   */
  lemma TerminalJobKept(batch: seq<Job>, invoke: Job -> Outcome, now: nat, maxAttempts: nat, j: Job)
    requires forall a, b | 0 <= a < b < |batch| :: batch[a].id != batch[b].id
    requires j in batch && invoke(j).Raised? && j.attempts + 1 > maxAttempts
    ensures forall st | st in PassStatements(batch, invoke, now, maxAttempts) && st.DeleteJobs? ::
      ReadIdList(st.idList) == Some(Ids(Succeeded(batch, invoke)))
    ensures j.id !in Ids(Succeeded(batch, invoke))
    ensures exists k | 0 <= k < |FailedRows(batch, invoke, now, maxAttempts)| ::
      && FailedRows(batch, invoke, now, maxAttempts)[k] == Attempt(j, invoke(j), now, maxAttempts)
      && FailedRows(batch, invoke, now, maxAttempts)[k].failedAt == Some(now)
  {
    var s := Succeeded(batch, invoke);
    var f := FailedRows(batch, invoke, now, maxAttempts);
    RemoveStatementsShape(s);
    assert forall st | st in MarkFailedStatements(f) :: !st.DeleteJobs?;
    PassAccountsForEveryJob(batch, invoke, now, maxAttempts, j);
    PassMembers(batch, invoke);
    assert forall x | x in s :: x in batch && x != j;
    IdsAvoid(batch, s, j);
  }

  /** With unique ids in `batch`, a job of it has an id no other job of it has. */
  lemma IdsAvoid(batch: seq<Job>, s: seq<Job>, j: Job)
    requires forall a, b | 0 <= a < b < |batch| :: batch[a].id != batch[b].id
    requires j in batch
    requires forall x | x in s :: x in batch && x != j
    ensures j.id !in Ids(s)
  {
    var b :| 0 <= b < |batch| && batch[b] == j;
    forall k | 0 <= k < |s| ensures s[k].id != j.id {
      assert s[k] in s;
      var a :| 0 <= a < |batch| && batch[a] == s[k];
      assert a != b;
    }
  }

  /**
   * What one iteration of the `start` loop meets: the table contents the
   * query reads, the clock, the payload outcomes, and the exit flag as seen
   * at the first (`exitAfterPass`) and the second (`exitAfterWait`) check.
   */
  datatype Round = Round(
    store: seq<Job>,
    now: nat,
    invoke: Job -> Outcome,
    exitAfterPass: bool,
    exitAfterWait: bool)

  /** What the loop does, in order: a pass with its two counts, a sleep, a throughput report, or leaving the loop. */
  datatype Event = WorkedOff(successes: nat, failures: nat) | Slept(seconds: nat) | Reported(count: nat, failures: nat) | Exited

  /** The batch a round's pass fetches under settings `c`. */
  function RoundBatch(c: Config, r: Round): seq<Job>
  {
    NextAvailableBatch(r.store, c.priority, c.batchSize, r.now)
  }

  function RoundStatements(c: Config, r: Round): seq<Statement>
  {
    PassStatements(RoundBatch(c, r), r.invoke, r.now, c.maxAttempts)
  }

  /** Whether the loop leaves after this round. */
  predicate Exits(r: Round)
  {
    r.exitAfterPass || r.exitAfterWait
  }

  /**
   * The events of one iteration with `s` successes and `f` failures: the
   * pass; then `Exited` if the flag is up at the first check; otherwise a
   * sleep of `delay` seconds when nothing was processed or a report when
   * something was, followed by `Exited` if the flag is up at the second
   * check.
   */
  function IterationEvents(s: nat, f: nat, delay: nat, exitAfterPass: bool, exitAfterWait: bool): seq<Event>
  {
    var pass := [WorkedOff(s, f)];
    if exitAfterPass then pass + [Exited]
    else
      var wait := [WaitEvent(s, f, delay)];
      if exitAfterWait then pass + wait + [Exited] else pass + wait
  }

  /** The sleep when nothing was processed, the report otherwise. */
  function WaitEvent(s: nat, f: nat, delay: nat): Event
  {
    if s + f == 0 then Slept(delay) else Reported(s + f, f)
  }

  /** The three shapes of an iteration. */
  lemma IterationCases(s: nat, f: nat, delay: nat, exitAfterPass: bool, exitAfterWait: bool)
    ensures exitAfterPass ==>
      IterationEvents(s, f, delay, exitAfterPass, exitAfterWait) == [WorkedOff(s, f)] + [Exited]
    ensures !exitAfterPass && exitAfterWait ==>
      IterationEvents(s, f, delay, exitAfterPass, exitAfterWait) == [WorkedOff(s, f)] + [WaitEvent(s, f, delay)] + [Exited]
    ensures !exitAfterPass && !exitAfterWait ==>
      IterationEvents(s, f, delay, exitAfterPass, exitAfterWait) == [WorkedOff(s, f)] + [WaitEvent(s, f, delay)]
  {
  }

  function RoundEvents(c: Config, r: Round): seq<Event>
  {
    var batch := RoundBatch(c, r);
    IterationEvents(|Succeeded(batch, r.invoke)|, |FailedRows(batch, r.invoke, r.now, c.maxAttempts)|,
                    c.sleepDelay, r.exitAfterPass, r.exitAfterWait)
  }

  /** The events of the loop over a finite run of rounds; it stops at the first round that exits. */
  function Loop(c: Config, rounds: seq<Round>): seq<Event>
    decreases |rounds|
  {
    if rounds == [] then []
    else RoundEvents(c, rounds[0]) + (if Exits(rounds[0]) then [] else Loop(c, rounds[1..]))
  }

  /** The statements the loop issues over the same rounds. */
  function LoopLog(c: Config, rounds: seq<Round>): seq<Statement>
    decreases |rounds|
  {
    if rounds == [] then []
    else RoundStatements(c, rounds[0]) + (if Exits(rounds[0]) then [] else LoopLog(c, rounds[1..]))
  }

  lemma LoopStep(c: Config, rounds: seq<Round>, i: nat)
    requires i < |rounds|
    ensures Loop(c, rounds[i..]) == RoundEvents(c, rounds[i]) + (if Exits(rounds[i]) then [] else Loop(c, rounds[i + 1..]))
    ensures LoopLog(c, rounds[i..]) == RoundStatements(c, rounds[i]) + (if Exits(rounds[i]) then [] else LoopLog(c, rounds[i + 1..]))
  {
    assert rounds[i..][1..] == rounds[i + 1..];
  }

  /** A round's events, given the two counts its pass returned. */
  lemma RoundEventsOf(c: Config, r: Round, s: nat, f: nat)
    requires s == |Succeeded(RoundBatch(c, r), r.invoke)|
    requires f == |FailedRows(RoundBatch(c, r), r.invoke, r.now, c.maxAttempts)|
    ensures RoundEvents(c, r) == IterationEvents(s, f, c.sleepDelay, r.exitAfterPass, r.exitAfterWait)
  {
  }

  /** The rounds whose pass is run: up to and including the first that exits. */
  function Ran(rounds: seq<Round>): (r: seq<Round>)
    ensures |r| <= |rounds| && r == rounds[..|r|]
    decreases |rounds|
  {
    if rounds == [] then []
    else if Exits(rounds[0]) then [rounds[0]]
    else [rounds[0]] + Ran(rounds[1..])
  }

  function PassCount(events: seq<Event>): nat
  {
    if events == [] then 0 else (if events[0].WorkedOff? then 1 else 0) + PassCount(events[1..])
  }

  lemma {:induction false} PassCountAppend(a: seq<Event>, b: seq<Event>)
    ensures PassCount(a + b) == PassCount(a) + PassCount(b)
  {
    if a == [] {
      assert a + b == b;
    } else {
      assert (a + b)[1..] == a[1..] + b;
      PassCountAppend(a[1..], b);
    }
  }

  /** Each iteration runs exactly one pass, and it comes first. */
  lemma IterationHasOnePass(s: nat, f: nat, delay: nat, exitAfterPass: bool, exitAfterWait: bool)
    ensures var e := IterationEvents(s, f, delay, exitAfterPass, exitAfterWait);
      |e| > 0 && e[0].WorkedOff? && PassCount(e) == 1
  {
    var e := IterationEvents(s, f, delay, exitAfterPass, exitAfterWait);
    var tail := e[1..];
    assert forall k | 0 <= k < |tail| :: !tail[k].WorkedOff?;
    NoPasses(tail);
  }

  lemma {:induction false} NoPasses(e: seq<Event>)
    requires forall k | 0 <= k < |e| :: !e[k].WorkedOff?
    ensures PassCount(e) == 0
  {
    if e != [] {
      NoPasses(e[1..]);
    }
  }

  /** An iteration sleeps exactly when the flag was down at the first check and nothing was processed. */
  lemma IterationSleeps(s: nat, f: nat, delay: nat, exitAfterPass: bool, exitAfterWait: bool)
    ensures var e := IterationEvents(s, f, delay, exitAfterPass, exitAfterWait);
      && ((exists d :: Slept(d) in e) <==> !exitAfterPass && s + f == 0)
      && (forall d | Slept(d) in e :: d == delay)
  {
    if !exitAfterPass && s + f == 0 {
      assert Slept(delay) in IterationEvents(s, f, delay, exitAfterPass, exitAfterWait);
    }
  }

  /** An iteration reports exactly when the flag was down at the first check and something was processed. */
  lemma IterationReports(s: nat, f: nat, delay: nat, exitAfterPass: bool, exitAfterWait: bool)
    ensures var e := IterationEvents(s, f, delay, exitAfterPass, exitAfterWait);
      (exists n, g :: Reported(n, g) in e) <==> !exitAfterPass && s + f > 0
  {
    if !exitAfterPass && s + f > 0 {
      assert Reported(s + f, f) in IterationEvents(s, f, delay, exitAfterPass, exitAfterWait);
    }
  }

  /** Each round runs exactly one pass, and it comes first. */
  lemma RoundHasOnePass(c: Config, r: Round)
    ensures var e := RoundEvents(c, r);
      |e| > 0 && e[0].WorkedOff? && PassCount(e) == 1
  {
    var batch := RoundBatch(c, r);
    IterationHasOnePass(|Succeeded(batch, r.invoke)|, |FailedRows(batch, r.invoke, r.now, c.maxAttempts)|,
                        c.sleepDelay, r.exitAfterPass, r.exitAfterWait);
  }

  /**
   * The loop sleeps in a round exactly when the flag was down at the first
   * check and the pass processed nothing, and then for the configured delay.
   */
  lemma SleepOnlyWhenIdle(c: Config, r: Round)
    ensures (exists d :: Slept(d) in RoundEvents(c, r))
        <==> !r.exitAfterPass && |RoundBatch(c, r)| == 0
    ensures forall d | Slept(d) in RoundEvents(c, r) :: d == c.sleepDelay
  {
    var batch := RoundBatch(c, r);
    PassPartitions(batch, r.invoke);
    IterationSleeps(|Succeeded(batch, r.invoke)|, |FailedRows(batch, r.invoke, r.now, c.maxAttempts)|,
                    c.sleepDelay, r.exitAfterPass, r.exitAfterWait);
  }

  /** The throughput report appears exactly when the flag was down at the first check and the pass processed something. */
  lemma ReportOnlyWhenBusy(c: Config, r: Round)
    ensures (exists n, f :: Reported(n, f) in RoundEvents(c, r))
        <==> !r.exitAfterPass && |RoundBatch(c, r)| > 0
  {
    var batch := RoundBatch(c, r);
    PassPartitions(batch, r.invoke);
    IterationReports(|Succeeded(batch, r.invoke)|, |FailedRows(batch, r.invoke, r.now, c.maxAttempts)|,
                     c.sleepDelay, r.exitAfterPass, r.exitAfterWait);
  }

  /** An iteration leaves the loop exactly when the flag is seen at either check, and `Exited` is then its last event. */
  lemma IterationExit(s: nat, f: nat, delay: nat, exitAfterPass: bool, exitAfterWait: bool)
    ensures var e := IterationEvents(s, f, delay, exitAfterPass, exitAfterWait);
      && (Exited in e <==> exitAfterPass || exitAfterWait)
      && (Exited in e ==> e[|e| - 1] == Exited)
      && (forall k | 0 <= k < |e| - 1 :: e[k] != Exited)
  {
  }

  lemma ExitLastInRound(c: Config, r: Round)
    ensures Exited in RoundEvents(c, r) <==> Exits(r)
    ensures Exits(r) ==> RoundEvents(c, r)[|RoundEvents(c, r)| - 1] == Exited
    ensures forall k | 0 <= k < |RoundEvents(c, r)| - 1 :: RoundEvents(c, r)[k] != Exited
  {
    var batch := RoundBatch(c, r);
    IterationExit(|Succeeded(batch, r.invoke)|, |FailedRows(batch, r.invoke, r.now, c.maxAttempts)|,
                  c.sleepDelay, r.exitAfterPass, r.exitAfterWait);
  }

  /**
   * One pass per round that is reached, and a round after the first one
   * that sees the flag is never reached: the loop runs exactly the passes of
   * `Ran(rounds)` and issues exactly their statements.
   */
  lemma {:induction false} LoopRunsRan(c: Config, rounds: seq<Round>)
    ensures PassCount(Loop(c, rounds)) == |Ran(rounds)|
    ensures LoopLog(c, rounds) == LoopLog(c, Ran(rounds))
    decreases |rounds|
  {
    if rounds != [] {
      RoundHasOnePass(c, rounds[0]);
      var e := RoundEvents(c, rounds[0]);
      if Exits(rounds[0]) {
        assert Loop(c, rounds) == e + [];
        PassCountAppend(e, []);
        assert Ran(rounds)[1..] == [];
      } else {
        LoopRunsRan(c, rounds[1..]);
        PassCountAppend(e, Loop(c, rounds[1..]));
        assert Ran(rounds)[1..] == Ran(rounds[1..]);
      }
    }
  }

  /** Once a round sees the exit flag, no later round runs a pass or issues a statement. */
  lemma ExitEndsLoop(c: Config, rounds: seq<Round>, i: nat)
    requires i < |rounds| && Exits(rounds[i])
    requires forall k | 0 <= k < i :: !Exits(rounds[k])
    ensures Ran(rounds) == rounds[..i + 1]
    ensures PassCount(Loop(c, rounds)) == i + 1
    ensures LoopLog(c, rounds) == LoopLog(c, rounds[..i + 1])
  {
    RanStopsAtExit(rounds, i);
    LoopRunsRan(c, rounds);
  }

  lemma {:induction false} RanStopsAtExit(rounds: seq<Round>, i: nat)
    requires i < |rounds| && Exits(rounds[i])
    requires forall k | 0 <= k < i :: !Exits(rounds[k])
    ensures Ran(rounds) == rounds[..i + 1]
    decreases i
  {
    if i > 0 {
      RanStopsAtExit(rounds[1..], i - 1);
      assert rounds[..i + 1] == [rounds[0]] + rounds[1..][..i];
    }
  }

  /** Without the flag the loop runs a pass in every round it is given. */
  lemma {:induction false} NoExitRunsAll(c: Config, rounds: seq<Round>)
    requires forall k | 0 <= k < |rounds| :: !Exits(rounds[k])
    ensures Ran(rounds) == rounds
    ensures PassCount(Loop(c, rounds)) == |rounds|
  {
    RanWithoutExit(rounds);
    LoopRunsRan(c, rounds);
  }

  lemma {:induction false} RanWithoutExit(rounds: seq<Round>)
    requires forall k | 0 <= k < |rounds| :: !Exits(rounds[k])
    ensures Ran(rounds) == rounds
    decreases |rounds|
  {
    if rounds != [] {
      RanWithoutExit(rounds[1..]);
      assert rounds == [rounds[0]] + rounds[1..];
    }
  }
}
