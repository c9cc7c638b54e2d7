/**
 * The SQL that `remove_successful_jobs` and `mark_failed_jobs`
 * (lib/delayed/worker.rb) send to the connection: each statement is tagged
 * by its kind and carries the text the Ruby code interpolates into it;
 * `Sql` renders the full statement text. Readers decode that text back into
 * the values it carries: the id list of the DELETE and the tuples of the
 * INSERT, which are the only parts that vary with the jobs.
 * Timestamps are rendered as decimal seconds, standing in for Ruby's
 * `Time#to_s` and `to_s(:db)`.
 */
module Statements {
  import opened Wrappers
  import opened Text
  import opened Jobs
  import opened SqlEscape

  const DeletePrefix: string := "DELETE FROM delayed_jobs WHERE id IN ("
  const DropUpdatesSql: string := "DROP TABLE IF EXISTS delayed_job_updates"
  const CreateUpdatesSql: string :=
    "CREATE TEMPORARY TABLE delayed_job_updates(id int(11), failed_at datetime, attempts int(11), last_error text, run_at datetime, PRIMARY KEY(id))"
  const InsertPrefix: string := "INSERT INTO delayed_job_updates(id, failed_at, attempts, last_error, run_at) VALUES "
  const UpdateJobsSql: string :=
    "UPDATE delayed_jobs, delayed_job_updates SET delayed_jobs.failed_at = delayed_job_updates.failed_at, delayed_jobs.attempts = delayed_job_updates.attempts, delayed_jobs.last_error = delayed_job_updates.last_error, delayed_jobs.run_at = delayed_job_updates.run_at WHERE delayed_jobs.id = delayed_job_updates.id"

  /** One statement sent to `ActiveRecord::Base.connection.execute`. */
  datatype Statement =
    | DeleteJobs(idList: string)
    | DropUpdates
    | CreateUpdates
    | InsertUpdates(values: string)
    | UpdateJobs

  /** The SQL text of a statement. */
  function Sql(st: Statement): string
  {
    match st
    case DeleteJobs(idList) => DeletePrefix + idList + ")"
    case DropUpdates => DropUpdatesSql
    case CreateUpdates => CreateUpdatesSql
    case InsertUpdates(values) => InsertPrefix + values
    case UpdateJobs => UpdateJobsSql
  }

  /** The columns one tuple of the temporary `delayed_job_updates` table carries. */
  datatype Update = Update(id: nat, failedAt: Option<nat>, attempts: nat, lastError: string, runAt: nat)

  function Persisted(j: Job): Update
  {
    Update(j.id, j.failedAt, j.attempts, j.lastError, j.runAt)
  }

  function Updates(jobs: seq<Job>): (r: seq<Update>)
    ensures |r| == |jobs| && forall i | 0 <= i < |jobs| :: r[i] == Persisted(jobs[i])
  {
    seq(|jobs|, i requires 0 <= i < |jobs| => Persisted(jobs[i]))
  }

  function Ids(jobs: seq<Job>): (r: seq<nat>)
    ensures |r| == |jobs| && forall i | 0 <= i < |jobs| :: r[i] == jobs[i].id
  {
    seq(|jobs|, i requires 0 <= i < |jobs| => jobs[i].id)
  }

  function IdStrings(ids: seq<nat>): (r: seq<string>)
    ensures |r| == |ids| && forall i | 0 <= i < |ids| :: r[i] == NatToString(ids[i])
  {
    seq(|ids|, i requires 0 <= i < |ids| => NatToString(ids[i]))
  }

  /** `job_ids`: the ids joined by commas. */
  function IdList(ids: seq<nat>): string
  {
    Join(IdStrings(ids), ",")
  }

  /** What `remove_successful_jobs(jobs)` executes: nothing for no jobs, else one DELETE. */
  function RemoveStatements(jobs: seq<Job>): seq<Statement>
  {
    if |jobs| == 0 then [] else [DeleteJobs(IdList(Ids(jobs)))]
  }

  /** A present `failed_at` is quoted; a nil one is the SQL keyword `null`. */
  function FailedAtValue(t: Option<nat>): (r: string)
    ensures t.None? ==> r == "null"
    ensures t.Some? ==> |r| >= 2 && r[0] == '\'' && r[|r| - 1] == '\''
  {
    match t
    case None => "null"
    case Some(v) => "'" + NatToString(v) + "'"
  }

  /** `"(#{j.id}, #{failed_at}, #{j.attempts}, '#{last_error}', '#{j.run_at}')"`. */
  function Tuple(j: Job): string
  {
    "(" + (NatToString(j.id) + (", " + (FailedAtValue(j.failedAt) + (", " + (NatToString(j.attempts)
      + (", '" + (Escape(j.lastError) + ("', '" + (NatToString(j.runAt) + "')")))))))))
  }

  function Tuples(jobs: seq<Job>): (r: seq<string>)
    ensures |r| == |jobs| && forall i | 0 <= i < |jobs| :: r[i] == Tuple(jobs[i])
  {
    seq(|jobs|, i requires 0 <= i < |jobs| => Tuple(jobs[i]))
  }

  /** `inserts`: the tuples joined by commas. */
  function Values(jobs: seq<Job>): string
  {
    Join(Tuples(jobs), ",")
  }

  /** The `queries` list of `mark_failed_jobs(jobs)`: nothing for no jobs. */
  function MarkFailedStatements(jobs: seq<Job>): seq<Statement>
  {
    if |jobs| == 0 then [] else [DropUpdates, CreateUpdates, InsertUpdates(Values(jobs)), UpdateJobs, DropUpdates]
  }

  // Readers: how the database decodes the statements above.

  /** Comma-separated numbers filling the whole text. */
  function ReadIdList(s: string): Option<seq<nat>>
    decreases |s|
  {
    var p :- ReadNat(s);
    if p.1 == [] then Some([p.0])
    else if p.1[0] == ',' then
      var ns :- ReadIdList(p.1[1..]);
      Some([p.0] + ns)
    else None
  }

  function ReadFailedAt(s: string): (r: Option<(Option<nat>, string)>)
    ensures r.Some? ==> |r.value.1| < |s|
  {
    match Expect("null", s)
    case Some(rest) => Some((None, rest))
    case None =>
      var s1 :- Expect("'", s);
      var t :- ReadNat(s1);
      var s2 :- Expect("'", t.1);
      Some((Some(t.0), s2))
  }

  /** The text columns of a tuple, from just after the quote opening `last_error`. */
  function ReadTupleText(s: string): (r: Option<(string, nat, string)>)
    ensures r.Some? ==> |r.value.2| < |s|
  {
    var lastError :- ReadQuoted(s);
    var s1 :- Expect(", '", lastError.1);
    var runAt :- ReadNat(s1);
    var s2 :- Expect("')", runAt.1);
    Some((lastError.0, runAt.0, s2))
  }

  /** The `id` and `failed_at` columns of a tuple, from its opening parenthesis. */
  function ReadTupleKey(s: string): (r: Option<(nat, Option<nat>, string)>)
    ensures r.Some? ==> |r.value.2| < |s|
  {
    var s1 :- Expect("(", s);
    var id :- ReadNat(s1);
    var s2 :- Expect(", ", id.1);
    var failedAt :- ReadFailedAt(s2);
    var s3 :- Expect(", ", failedAt.1);
    Some((id.0, failedAt.0, s3))
  }

  function ReadTuple(s: string): (r: Option<(Update, string)>)
    ensures r.Some? ==> |r.value.1| < |s|
  {
    var key :- ReadTupleKey(s);
    var attempts :- ReadNat(key.2);
    var s1 :- Expect(", '", attempts.1);
    var text :- ReadTupleText(s1);
    Some((Update(key.0, key.1, attempts.0, text.0, text.1), text.2))
  }

  /** Comma-separated tuples filling the rest of the text. */
  function ReadTuples(s: string): Option<seq<Update>>
    decreases |s|
  {
    var t :- ReadTuple(s);
    if t.1 == [] then Some([t.0])
    else if t.1[0] == ',' then
      var ts :- ReadTuples(t.1[1..]);
      Some([t.0] + ts)
    else None
  }


  lemma IdListCons(ids: seq<nat>)
    requires |ids| > 1
    ensures IdList(ids) == NatToString(ids[0]) + ("," + IdList(ids[1..]))
  {
    assert IdStrings(ids)[1..] == IdStrings(ids[1..]);
  }

  lemma ReadIdListStep(s: string, n: nat, tail: string, ns: seq<nat>)
    requires ReadNat(s) == Some((n, "," + tail))
    requires ReadIdList(tail) == Some(ns)
    ensures ReadIdList(s) == Some([n] + ns)
  {
    assert ("," + tail)[1..] == tail;
  }

  lemma IdListSingle(ids: seq<nat>)
    requires |ids| == 1
    ensures IdList(ids) == NatToString(ids[0])
  {
  }

  lemma ReadIdListLast(n: nat)
    ensures ReadIdList(NatToString(n)) == Some([n])
  {
    ReadNatToString(n, []);
    assert NatToString(n) + [] == NatToString(n);
  }

  /** The DELETE's id list names exactly the given ids, in order. */
  lemma {:induction false} ReadIdListRendered(ids: seq<nat>)
    requires |ids| > 0
    ensures ReadIdList(IdList(ids)) == Some(ids)
  {
    if |ids| == 1 {
      IdListSingle(ids);
      ReadIdListLast(ids[0]);
      assert ids == [ids[0]];
    } else {
      var head := NatToString(ids[0]);
      var tail := IdList(ids[1..]);
      IdListCons(ids);
      ReadNatToString(ids[0], "," + tail);
      ReadIdListRendered(ids[1..]);
      ReadIdListStep(head + ("," + tail), ids[0], tail, ids[1..]);
      assert ids == [ids[0]] + ids[1..];
    }
  }

  lemma ReadFailedAtValue(t: Option<nat>, rest: string)
    requires rest == [] || rest[0] == ','
    ensures ReadFailedAt(FailedAtValue(t) + rest) == Some((t, rest))
  {
    match t
    case None =>
      ExpectLiteral("null", rest);
    case Some(v) =>
      var s := FailedAtValue(t) + rest;
      assert s == "'" + (NatToString(v) + ("'" + rest));
      assert s[0] == '\'';
      assert Expect("null", s).None?;
      ExpectLiteral("'", NatToString(v) + ("'" + rest));
      ReadNatToString(v, "'" + rest);
      ExpectLiteral("'", rest);
  }

  lemma ReadTupleTextRendered(lastError: string, runAt: nat, rest: string)
    ensures ReadTupleText(Escape(lastError) + ("', '" + (NatToString(runAt) + ("')" + rest))))
         == Some((lastError, runAt, rest))
  {
    var r5 := NatToString(runAt) + ("')" + rest);
    var r4 := ", '" + r5;
    assert Escape(lastError) + ("', '" + r5) == Escape(lastError) + [Quote] + r4;
    ReadEscapedLiteral(lastError, r4);
    ExpectLiteral(", '", r5);
    ReadNatToString(runAt, "')" + rest);
    ExpectLiteral("')", rest);
  }

  lemma ReadTupleKeyRendered(id: nat, failedAt: Option<nat>, rest: string)
    ensures ReadTupleKey("(" + (NatToString(id) + (", " + (FailedAtValue(failedAt) + (", " + rest)))))
         == Some((id, failedAt, rest))
  {
    var r1 := FailedAtValue(failedAt) + (", " + rest);
    var r0 := NatToString(id) + (", " + r1);
    ExpectLiteral("(", r0);
    ReadNatToString(id, ", " + r1);
    ExpectLiteral(", ", r1);
    ReadFailedAtValue(failedAt, ", " + rest);
    ExpectLiteral(", ", rest);
  }

  lemma TupleAppend(j: Job, rest: string)
    ensures Tuple(j) + rest == "(" + (NatToString(j.id) + (", " + (FailedAtValue(j.failedAt) + (", "
      + (NatToString(j.attempts) + (", '" + (Escape(j.lastError) + ("', '" + (NatToString(j.runAt) + ("')" + rest))))))))))
  {
  }

  /** Reading a rendered tuple back gives the job's persisted columns, `last_error` included. */
  lemma ReadTupleRendered(j: Job, rest: string)
    ensures ReadTuple(Tuple(j) + rest) == Some((Persisted(j), rest))
  {
    var r3 := Escape(j.lastError) + ("', '" + (NatToString(j.runAt) + ("')" + rest)));
    var r2 := NatToString(j.attempts) + (", '" + r3);
    TupleAppend(j, rest);
    ReadTupleKeyRendered(j.id, j.failedAt, r2);
    ReadNatToString(j.attempts, ", '" + r3);
    ExpectLiteral(", '", r3);
    ReadTupleTextRendered(j.lastError, j.runAt, rest);
  }

  lemma ReadTuplesStep(s: string, u: Update, tail: string, us: seq<Update>)
    requires ReadTuple(s) == Some((u, "," + tail))
    requires ReadTuples(tail) == Some(us)
    ensures ReadTuples(s) == Some([u] + us)
  {
    assert ("," + tail)[1..] == tail;
  }

  lemma ReadTuplesLast(s: string, u: Update)
    requires ReadTuple(s) == Some((u, []))
    ensures ReadTuples(s) == Some([u])
  {
  }

  lemma ValuesSingle(jobs: seq<Job>)
    requires |jobs| == 1
    ensures Values(jobs) == Tuple(jobs[0]) + []
    ensures Updates(jobs) == [Persisted(jobs[0])]
  {
  }

  lemma TuplesTail(jobs: seq<Job>)
    requires |jobs| > 0
    ensures Tuples(jobs)[1..] == Tuples(jobs[1..])
  {
  }

  lemma ValuesCons(jobs: seq<Job>)
    requires |jobs| > 1
    ensures Values(jobs) == Tuple(jobs[0]) + ("," + Values(jobs[1..]))
  {
    TuplesTail(jobs);
    JoinCons(Tuples(jobs), ",");
  }

  lemma UpdatesCons(jobs: seq<Job>)
    requires |jobs| > 0
    ensures Updates(jobs) == [Persisted(jobs[0])] + Updates(jobs[1..])
  {
    assert Updates(jobs)[1..] == Updates(jobs[1..]);
  }

  /** The INSERT's tuples decode to the jobs' persisted columns, one tuple per job, in order. */
  lemma {:induction false} ReadTuplesJoin(jobs: seq<Job>)
    requires |jobs| > 0
    ensures ReadTuples(Values(jobs)) == Some(Updates(jobs))
  {
    if |jobs| == 1 {
      ValuesSingle(jobs);
      ReadTupleRendered(jobs[0], []);
      ReadTuplesLast(Tuple(jobs[0]) + [], Persisted(jobs[0]));
    } else {
      var tail := Values(jobs[1..]);
      ValuesCons(jobs);
      UpdatesCons(jobs);
      ReadTupleRendered(jobs[0], "," + tail);
      ReadTuplesJoin(jobs[1..]);
      ReadTuplesStep(Tuple(jobs[0]) + ("," + tail), Persisted(jobs[0]), tail, Updates(jobs[1..]));
    }
  }

  /** `remove_successful_jobs`: no statement for no jobs, else one DELETE whose id list decodes to their ids in order. */
  lemma RemoveStatementsShape(jobs: seq<Job>)
    ensures |jobs| == 0 ==> RemoveStatements(jobs) == []
    ensures |jobs| > 0 ==>
      var q := RemoveStatements(jobs);
      |q| == 1 && q[0].DeleteJobs? && ReadIdList(q[0].idList) == Some(Ids(jobs))
  {
    if |jobs| > 0 {
      ReadIdListRendered(Ids(jobs));
    }
  }

  /**
   * `mark_failed_jobs`: no statement for no jobs; otherwise DROP, CREATE,
   * INSERT, UPDATE, DROP, where the INSERT's tuples decode to the failed
   * jobs' columns, one tuple per job, in order.
   */
  lemma MarkFailedStatementsShape(jobs: seq<Job>)
    ensures |jobs| == 0 ==> MarkFailedStatements(jobs) == []
    ensures |jobs| > 0 ==>
      var q := MarkFailedStatements(jobs);
      && |q| == 5
      && q[0] == DropUpdates && q[1] == CreateUpdates && q[3] == UpdateJobs && q[4] == DropUpdates
      && q[2].InsertUpdates? && ReadTuples(q[2].values) == Some(Updates(jobs))
  {
    if |jobs| > 0 {
      ReadTuplesJoin(jobs);
    }
  }
}
