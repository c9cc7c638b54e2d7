/**
 * The job-state transition of `Worker#run` (lib/delayed/worker.rb) after the
 * payload has been invoked, the backoff schedule it uses, and the
 * `max_attempts(job)` helper.
 */
module Retry {
  import opened Wrappers
  import opened Text
  import opened Jobs
  import opened Configuration

  const SecondsPerMinute: nat := 60
  /** The two characters backslash and `n` that join the backtrace lines. */
  const TraceSeparator: string := "\\n"

  function Pow(b: nat, e: nat): nat
  {
    if e == 0 then 1 else b * Pow(b, e - 1)
  }

  /** `(5 ** attempts).minutes`, in seconds. */
  function BackoffDelay(attempts: nat): nat
  {
    Pow(5, attempts) * SecondsPerMinute
  }

  /** `"{#{message}\n#{backtrace.join('\n')}"`: opening brace, message, newline, lines. */
  function ErrorText(message: string, backtrace: seq<string>): string
  {
    "{" + message + "\n" + Join(backtrace, TraceSeparator)
  }

  /**
   * The job after one `run`: untouched on completion; on an exception the
   * error text is recorded, `attempts` goes up by one, and then the job is
   * either marked failed at `now` (when the new count exceeds the
   * worker-wide `maxAttempts`) or rescheduled `BackoffDelay(attempts)`
   * seconds after `now`.
   */
  function Attempt(job: Job, outcome: Outcome, now: nat, maxAttempts: nat): (r: Job)
    ensures outcome.Completed? ==> r == job
    ensures outcome.Raised? ==>
      && r.id == job.id && r.priority == job.priority && r.maxAttempts == job.maxAttempts
      && r.attempts == job.attempts + 1
      && r.lastError == ErrorText(outcome.message, outcome.backtrace)
    ensures outcome.Raised? && r.attempts > maxAttempts ==> r.failedAt == Some(now) && r.runAt == job.runAt
    ensures outcome.Raised? && r.attempts <= maxAttempts ==>
      r.runAt == now + BackoffDelay(r.attempts) && r.failedAt == job.failedAt
  {
    match outcome
    case Completed => job
    case Raised(message, backtrace) =>
      var j := job.(lastError := ErrorText(message, backtrace), attempts := job.attempts + 1);
      if j.attempts > maxAttempts then j.(failedAt := Some(now))
      else j.(runAt := now + BackoffDelay(j.attempts))
  }

  /** `max_attempts(job)`: the job's own limit when it has one, else the worker's. */
  function EffectiveMaxAttempts(job: Job, workerDefault: nat): (r: nat)
    ensures job.maxAttempts.Some? ==> r == job.maxAttempts.value
    ensures job.maxAttempts.None? ==> r == workerDefault
  {
    job.maxAttempts.GetOr(workerDefault)
  }

  lemma {:induction false} PowPositive(b: nat, e: nat)
    requires b > 0
    ensures Pow(b, e) > 0
  {
    if e > 0 {
      PowPositive(b, e - 1);
    }
  }

  /** Each further failure waits strictly longer than the one before. */
  lemma {:induction false} BackoffDelayIncreasing(m: nat, n: nat)
    requires m < n
    ensures BackoffDelay(m) < BackoffDelay(n)
    decreases n
  {
    PowPositive(5, n - 1);
    if m < n - 1 {
      BackoffDelayIncreasing(m, n - 1);
    }
  }

  /** Five, twenty-five and a hundred and twenty-five minutes after the first three failures. */
  lemma BackoffDelayValues()
    ensures BackoffDelay(1) == 5 * 60
    ensures BackoffDelay(2) == 25 * 60
    ensures BackoffDelay(3) == 125 * 60
  {
  }

  /** A rescheduled job runs again no sooner than five minutes after the failure. */
  lemma RetryIsLater(job: Job, message: string, backtrace: seq<string>, now: nat, maxAttempts: nat)
    requires job.attempts + 1 <= maxAttempts
    ensures Attempt(job, Raised(message, backtrace), now, maxAttempts).runAt >= now + 5 * 60
  {
    assert BackoffDelay(1) == 5 * 60 by { assert Pow(5, 1) == 5 * Pow(5, 0); }
    if job.attempts + 1 > 1 {
      BackoffDelayIncreasing(1, job.attempts + 1);
    }
  }

  /** With the default limit, the failure that takes `attempts` from 5 to 6 is terminal. */
  lemma SixthFailureIsTerminal(job: Job, message: string, backtrace: seq<string>, now: nat)
    requires job.attempts == 5
    ensures var r := Attempt(job, Raised(message, backtrace), now, DefaultMaxAttempts);
      r.attempts == 6 && r.failedAt == Some(now) && r.runAt == job.runAt
  {
  }

  /** A failure mark is never cleared, and the attempt count never goes down. */
  lemma AttemptKeepsFailureMark(job: Job, outcome: Outcome, now: nat, maxAttempts: nat)
    ensures var r := Attempt(job, outcome, now, maxAttempts);
      r.attempts >= job.attempts && (job.failedAt.Some? ==> r.failedAt.Some?)
  {
  }

  /**
   * `run_at` never moves back: a fetched job is due (`run_at` before the
   * clock), and a retry is scheduled after the clock while a terminal failure
   * keeps `run_at`.
   */
  lemma RunAtNeverMovesBack(job: Job, outcome: Outcome, now: nat, maxAttempts: nat)
    requires job.runAt <= now
    ensures Attempt(job, outcome, now, maxAttempts).runAt >= job.runAt
  {
  }

  /**
   * `run` compares against the worker-wide limit only: the job's own
   * `max_attempts` column has no influence on the transition.
   */
  lemma AttemptIgnoresJobLimit(job: Job, limit: Option<nat>, outcome: Outcome, now: nat, maxAttempts: nat)
    ensures Attempt(job.(maxAttempts := limit), outcome, now, maxAttempts)
         == Attempt(job, outcome, now, maxAttempts).(maxAttempts := limit)
  {
  }

  /** The part of a text before the first occurrence of `c` (all of it when there is none). */
  function TextBefore(s: string, c: char): (r: string)
    ensures |r| <= |s| && r == s[..|r|]
  {
    if s == [] || s[0] == c then [] else [s[0]] + TextBefore(s[1..], c)
  }

  lemma {:induction false} TextBeforeSeparator(m: string, c: char, x: string)
    requires c !in m
    ensures TextBefore(m + [c] + x, c) == m
  {
    if m != [] {
      assert (m + [c] + x)[1..] == m[1..] + [c] + x;
      TextBeforeSeparator(m[1..], c, x);
    }
  }

  lemma {:induction false} CountAbsent(s: string, c: char)
    requires c !in s
    ensures Count(s, c) == 0
  {
    if s != [] {
      CountAbsent(s[1..], c);
    }
  }

  lemma {:induction false} JoinAvoids(parts: seq<string>, sep: string, c: char)
    requires c !in sep
    requires forall i | 0 <= i < |parts| :: c !in parts[i]
    ensures c !in Join(parts, sep)
  {
    if |parts| > 1 {
      JoinAvoids(parts[1..], sep, c);
    }
  }

  /**
   * The message can be read back from the recorded error text: it sits
   * between the opening brace and the first newline, and, when neither the
   * message nor any backtrace line holds a newline, that newline is the only
   * one (the backtrace lines are joined by backslash-n, not by newlines).
   */
  lemma ErrorTextLayout(message: string, backtrace: seq<string>)
    requires '\n' !in message
    ensures var t := ErrorText(message, backtrace);
      t[0] == '{' && TextBefore(t[1..], '\n') == message
    ensures (forall i | 0 <= i < |backtrace| :: '\n' !in backtrace[i]) ==>
      Count(ErrorText(message, backtrace), '\n') == 1
  {
    var t := ErrorText(message, backtrace);
    var trace := Join(backtrace, TraceSeparator);
    assert t[1..] == message + ['\n'] + trace;
    TextBeforeSeparator(message, '\n', trace);
    if forall i | 0 <= i < |backtrace| :: '\n' !in backtrace[i] {
      JoinAvoids(backtrace, TraceSeparator, '\n');
      assert t == "{" + message + ("\n" + trace);
      CountAppend("{" + message, "\n" + trace, '\n');
      CountAppend("{", message, '\n');
      CountAppend("\n", trace, '\n');
      CountAbsent(message, '\n');
      CountAbsent(trace, '\n');
    }
  }

  /**
   * A message that holds a newline cannot be told apart from the backtrace:
   * two different exceptions leave the same `last_error`, and reading up to
   * the first newline gives only the message's first line.
   */
  lemma MultiLineMessageAmbiguous()
    ensures ErrorText("a\nb", ["x"]) == ErrorText("a", ["b\nx"])
    ensures TextBefore(ErrorText("a\nb", ["x"])[1..], '\n') == "a"
  {
    assert ErrorText("a\nb", ["x"])[1..] == "a" + ['\n'] + "b\nx";
    TextBeforeSeparator("a", '\n', "b\nx");
  }
}
