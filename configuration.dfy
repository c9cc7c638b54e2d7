/**
 * The class-level settings of `Delayed::Worker` (lib/delayed/worker.rb) and
 * the way `Worker.new(options)` rewrites them.
 */
module Configuration {
  import opened Wrappers

  /** `DEFAULT_BATCH_SIZE`. */
  const DefaultBatchSize: nat := 500
  /** `2.minutes`, in seconds. */
  const DefaultSleepDelay: nat := 2 * 60
  /** `4.hours`, in seconds. */
  const DefaultMaxRunTime: nat := 4 * 60 * 60
  /** `self.max_attempts = 5`. */
  const DefaultMaxAttempts: nat := 5

  /**
   * The options hash given to `Worker.new`. `None` is a key that is absent;
   * `Some(v)` is a key present with value `v`. A present `:priority` may
   * itself hold nil, hence the nested option.
   */
  datatype Options = Options(
    quiet: Option<bool>,
    batchSize: Option<nat>,
    priority: Option<Option<int>>,
    sleepDelay: Option<nat>)

  const NoOptions: Options := Options(None, None, None, None)

  /** The worker-wide settings: `priority`, `batch_size`, `max_attempts`, `max_run_time`, `sleep_delay`. */
  datatype Config = Config(
    priority: Option<int>,
    batchSize: nat,
    maxAttempts: nat,
    maxRunTime: nat,
    sleepDelay: nat)

  /** The settings as the class body leaves them, before any worker is built. */
  const Initial: Config := Config(None, DefaultBatchSize, DefaultMaxAttempts, DefaultMaxRunTime, DefaultSleepDelay)

  /** `@quiet`: true when the key is absent, else the value given. */
  function Quiet(o: Options): bool
  {
    match o.quiet
    case None => true
    case Some(v) => v
  }

  /**
   * The settings after `initialize(options)`: `batch_size` is always
   * assigned (the option or 500); `priority` and `sleep_delay` only when
   * their key is present; the rest is left alone.
   */
  function Configure(c: Config, o: Options): Config
  {
    var c1 := c.(batchSize := o.batchSize.GetOr(DefaultBatchSize));
    var c2 := if o.priority.Some? then c1.(priority := o.priority.value) else c1;
    if o.sleepDelay.Some? then c2.(sleepDelay := o.sleepDelay.value) else c2
  }

  /** The worker is quiet unless `:quiet` is given with a false value. */
  lemma QuietUnlessGiven(o: Options)
    ensures !Quiet(o) <==> o.quiet == Some(false)
  {
  }

  /** How each setting ends up after `initialize`. */
  lemma ConfigureResult(c: Config, o: Options)
    ensures var r := Configure(c, o);
      && (o.batchSize.Some? ==> r.batchSize == o.batchSize.value)
      && (o.batchSize.None? ==> r.batchSize == DefaultBatchSize)
      && (o.priority.Some? ==> r.priority == o.priority.value)
      && (o.priority.None? ==> r.priority == c.priority)
      && (o.sleepDelay.Some? ==> r.sleepDelay == o.sleepDelay.value)
      && (o.sleepDelay.None? ==> r.sleepDelay == c.sleepDelay)
      && r.maxAttempts == c.maxAttempts && r.maxRunTime == c.maxRunTime
  {
  }

  /**
   * The batch size does not survive from one worker to the next: it is a
   * function of the options alone, whereas priority and sleep delay carry
   * over when not given.
   */
  lemma BatchSizeFromOptionsOnly(c: Config, d: Config, o: Options)
    ensures Configure(c, o).batchSize == Configure(d, o).batchSize
  {
  }

  /** Building a second worker with the same options changes nothing more. */
  lemma ConfigureIdempotent(c: Config, o: Options)
    ensures Configure(Configure(c, o), o) == Configure(c, o)
  {
  }

  /** A worker built with no options restores the default batch size and keeps everything else. */
  lemma ConfigureNoOptions(c: Config)
    ensures Configure(c, NoOptions) == c.(batchSize := DefaultBatchSize)
  {
  }

  /** A later worker with every key given overrides whatever an earlier one set. */
  lemma LaterOptionsWin(c: Config, o1: Options, o2: Options)
    requires o2.batchSize.Some? && o2.priority.Some? && o2.sleepDelay.Some?
    ensures Configure(Configure(c, o1), o2) == Configure(c, o2)
  {
  }
}
