/**
 * `Delayed::Backend::ActiveRecord::Job.next_available_batch`
 * (lib/delayed/backend/active_record.rb): the batch query, over the
 * `delayed_jobs` table taken as a sequence of rows in storage order.
 */
module ActiveRecordBackend {
  import opened Wrappers
  import opened Jobs

  /**
   * The query's WHERE clause `priority = ? AND failed_at is null AND run_at < ?`.
   * A nil priority is bound as SQL NULL, and `priority = NULL` holds for no row.
   */
  predicate Available(j: Job, priority: Option<int>, now: nat)
  {
    priority == Some(j.priority) && j.failedAt.None? && j.runAt < now
  }

  /** The rows satisfying the WHERE clause, in storage order. */
  function Candidates(store: seq<Job>, priority: Option<int>, now: nat): (r: seq<Job>)
    ensures forall i | 0 <= i < |r| :: Available(r[i], priority, now)
    ensures |r| <= |store|
  {
    if store == [] then []
    else if Available(store[0], priority, now) then [store[0]] + Candidates(store[1..], priority, now)
    else Candidates(store[1..], priority, now)
  }

  predicate SortedByRunAt(s: seq<Job>)
  {
    forall i, k | 0 <= i < k < |s| :: s[i].runAt <= s[k].runAt
  }

  lemma SortedCons(y: Job, t: seq<Job>)
    requires SortedByRunAt(t)
    requires t == [] || y.runAt <= t[0].runAt
    ensures SortedByRunAt([y] + t)
  {
    var s := [y] + t;
    forall i, k | 0 <= i < k < |s| ensures s[i].runAt <= s[k].runAt {
      if i == 0 && k > 1 {
        assert s[1].runAt <= s[k].runAt;
      }
    }
  }

  lemma SortedPrefix(s: seq<Job>, k: nat)
    requires SortedByRunAt(s)
    requires k <= |s|
    ensures SortedByRunAt(s[..k])
  {
  }

  function InsertByRunAt(x: Job, s: seq<Job>): (r: seq<Job>)
    requires SortedByRunAt(s)
    ensures SortedByRunAt(r)
    ensures multiset(r) == multiset(s) + multiset{x}
    ensures |r| == |s| + 1 && (r[0] == x || (s != [] && r[0] == s[0]))
  {
    if s == [] then [x]
    else if x.runAt <= s[0].runAt then SortedCons(x, s); [x] + s
    else
      var tail := InsertByRunAt(x, s[1..]);
      InsertBehind(x, s, tail);
      [s[0]] + tail
  }

  /** Putting the head of `s` back in front of `x` inserted into the rest of `s`. */
  lemma InsertBehind(x: Job, s: seq<Job>, tail: seq<Job>)
    requires SortedByRunAt(s) && s != [] && s[0].runAt < x.runAt
    requires SortedByRunAt(tail) && multiset(tail) == multiset(s[1..]) + multiset{x}
    requires |tail| == |s| && (tail[0] == x || (s[1..] != [] && tail[0] == s[1..][0]))
    ensures SortedByRunAt([s[0]] + tail)
    ensures multiset([s[0]] + tail) == multiset(s) + multiset{x}
  {
    assert s == [s[0]] + s[1..];
    assert s[0].runAt <= tail[0].runAt by {
      if tail[0] != x {
        assert tail[0] == s[1];
      }
    }
    SortedCons(s[0], tail);
  }

  /**
   * `order("run_at asc")`. SQL leaves the order of rows with equal `run_at`
   * open; this sort keeps them in storage order.
   */
  function SortByRunAt(s: seq<Job>): (r: seq<Job>)
    ensures SortedByRunAt(r)
    ensures multiset(r) == multiset(s)
  {
    if s == [] then []
    else
      assert s == [s[0]] + s[1..];
      InsertByRunAt(s[0], SortByRunAt(s[1..]))
  }

  function Min(a: nat, b: nat): nat
  {
    if a <= b then a else b
  }

  /**
   * `where(...).limit(batch_size).order("run_at asc")`: the available rows
   * sorted by `run_at`, of which the first `batchSize` are returned (SQL
   * applies ORDER BY before LIMIT whatever the call order). Reading the
   * table changes nothing: the result is a function of the rows.
   */
  function NextAvailableBatch(store: seq<Job>, priority: Option<int>, batchSize: nat, now: nat): (r: seq<Job>)
    ensures |r| == Min(batchSize, |Candidates(store, priority, now)|)
    ensures |r| <= batchSize
    ensures forall j | j in r :: Some(j.priority) == priority && j.failedAt.None? && j.runAt < now
    ensures SortedByRunAt(r)
    ensures multiset(r) <= multiset(Candidates(store, priority, now))
  {
    var c := Candidates(store, priority, now);
    var sorted := SortByRunAt(c);
    var k := Min(batchSize, |sorted|);
    PrefixInMultiset(sorted, k);
    SortedPrefix(sorted, k);
    MembersAvailable(c, sorted[..k], priority, now);
    sorted[..k]
  }

  lemma PrefixInMultiset(s: seq<Job>, k: nat)
    requires k <= |s|
    ensures multiset(s[..k]) <= multiset(s)
    ensures multiset(s) - multiset(s[..k]) == multiset(s[k..])
  {
    assert s == s[..k] + s[k..];
  }

  lemma MembersAvailable(c: seq<Job>, r: seq<Job>, priority: Option<int>, now: nat)
    requires forall i | 0 <= i < |c| :: Available(c[i], priority, now)
    requires multiset(r) <= multiset(c)
    ensures forall j | j in r :: Available(j, priority, now)
  {
    forall j | j in r ensures Available(j, priority, now) {
      assert j in multiset(r);
      assert j in c;
    }
  }

  /** A row is a candidate exactly as often as it is stored, when it is available, and never otherwise. */
  lemma {:induction false} CandidatesExactly(store: seq<Job>, priority: Option<int>, now: nat, j: Job)
    ensures multiset(Candidates(store, priority, now))[j]
         == if Available(j, priority, now) then multiset(store)[j] else 0
  {
    if store != [] {
      assert store == [store[0]] + store[1..];
      CandidatesExactly(store[1..], priority, now, j);
    }
  }

  /** Every returned row is a row of the table. */
  lemma BatchFromStore(store: seq<Job>, priority: Option<int>, batchSize: nat, now: nat)
    ensures forall j | j in NextAvailableBatch(store, priority, batchSize, now) :: j in store
  {
    var r := NextAvailableBatch(store, priority, batchSize, now);
    forall j | j in r ensures j in store {
      assert j in multiset(r);
      CandidatesExactly(store, priority, now, j);
    }
  }

  /** When no more than `batchSize` rows are available, the batch holds all of them. */
  lemma BatchCompleteWhenSmall(store: seq<Job>, priority: Option<int>, batchSize: nat, now: nat)
    requires |Candidates(store, priority, now)| <= batchSize
    ensures multiset(NextAvailableBatch(store, priority, batchSize, now)) == multiset(Candidates(store, priority, now))
  {
    var c := Candidates(store, priority, now);
    var sorted := SortByRunAt(c);
    assert sorted[..|sorted|] == sorted;
  }

  /** No available row left out of the batch is due earlier than a row taken into it. */
  lemma BatchTakesEarliest(store: seq<Job>, priority: Option<int>, batchSize: nat, now: nat, x: Job, e: Job)
    requires x in NextAvailableBatch(store, priority, batchSize, now)
    requires e in multiset(Candidates(store, priority, now)) - multiset(NextAvailableBatch(store, priority, batchSize, now))
    ensures x.runAt <= e.runAt
  {
    var c := Candidates(store, priority, now);
    var sorted := SortByRunAt(c);
    var k := Min(batchSize, |sorted|);
    assert NextAvailableBatch(store, priority, batchSize, now) == sorted[..k];
    PrefixInMultiset(sorted, k);
    SortedSplit(sorted, k, x, e);
  }

  /** In a sorted sequence, an element before position `k` is due no later than one from `k` on. */
  lemma SortedSplit(s: seq<Job>, k: nat, x: Job, e: Job)
    requires SortedByRunAt(s) && k <= |s|
    requires x in s[..k] && e in multiset(s[k..])
    ensures x.runAt <= e.runAt
  {
    var a :| 0 <= a < k && s[..k][a] == x;
    assert e in s[k..];
    var b :| 0 <= b < |s| - k && s[k..][b] == e;
    assert s[a] == x && s[k + b] == e;
  }
}
