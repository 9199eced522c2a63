/**
 The cache warmer: the sorted job list it keeps without a priority queue, and its batches, one
 after the other.
 */
module CacheWarmer {
  import opened Arithmetic
  import opened PriorityQueue
  import opened BatchWarmer
  import opened JobScheduler

  function Picked(jobs: seq<WarmupJob>, order: seq<nat>): seq<WarmupJob>
    requires InRange(order, |jobs|)
  {
    seq(|order|, m requires 0 <= m < |order| => jobs[order[m]])
  }

  function Shifted(order: seq<nat>, start: nat): seq<nat> {
    seq(|order|, m requires 0 <= m < |order| => order[m] + start)
  }

  /** Where the batch that starts at i ends. */
  function End(i: nat, size: nat, n: nat): nat { if i + size < n then i + size else n }

  // ---------- the orders of a whole run ----------

  /** Jobs i to end - 1 were Set in an order that the goroutines of their batch produced. */
  ghost predicate BatchRan(order: seq<nat>, i: nat, end: nat, concurrency: int)
    requires i <= end
  {
    end <= |order| &&
    exists s :: Reaches(end - i, Spawned(end - i, concurrency), s) && Finished(s) && order[i..end] == Shifted(s.log, i)
  }

  /** The batches of n jobs ran one after the other. */
  ghost predicate BatchesRan(order: seq<nat>, n: nat, size: nat, concurrency: int)
    requires size >= 1
  {
    |order| == n && forall i: nat :: i < n && i % size == 0 ==> BatchRan(order, i, End(i, size, n), concurrency)
  }

  /** A job is Set in its own batch. */
  ghost predicate InBatches(order: seq<nat>, size: nat)
    requires size >= 1
  {
    forall m: nat :: m < |order| ==> order[m] / size == m / size
  }

  lemma SameBatch(i: nat, x: nat, size: nat)
    requires size >= 1 && i % size == 0 && x < size
    ensures (i + x) / size == i / size
  {
    DivisionIs(size, i + x, i / size, x);
  }

  lemma BatchStart(m: nat, size: nat) returns (i: nat)
    requires size >= 1
    ensures i <= m < i + size && i % size == 0 && i / size == m / size
  {
    i := m - m % size;
    assert i == size * (m / size);
    DivisionIs(size, i, m / size, 0);
  }

  lemma WithinBatch(i: nat, y: nat, size: nat)
    requires size >= 1 && i % size == 0 && y / size == i / size
    ensures i <= y < i + size
  {
    assert i == size * (i / size) && y == size * (y / size) + y % size;
  }

  lemma RanPlace(order: seq<nat>, n: nat, size: nat, concurrency: nat, m: nat) returns (i: nat, log: seq<nat>)
    requires size >= 1 && concurrency >= 1 && BatchesRan(order, n, size, concurrency) && m < n
    ensures i <= m < End(i, size, n) && i % size == 0 && i / size == m / size
    ensures End(i, size, n) - i == |log| && order[i..End(i, size, n)] == Shifted(log, i)
    ensures Ordering(log, |log|, Spawned(|log|, concurrency)) && order[m] == log[m - i] + i
  {
    i := BatchStart(m, size);
    var end := End(i, size, n);
    assert BatchRan(order, i, end, concurrency);
    var s :| Reaches(end - i, Spawned(end - i, concurrency), s) && Finished(s) && order[i..end] == Shifted(s.log, i);
    EachJobSetOnce(end - i, Spawned(end - i, concurrency), s);
    log := s.log;
    assert order[m] == order[i..end][m - i];
  }

  lemma RanIsComplete(order: seq<nat>, n: nat, size: nat, concurrency: nat)
    requires size >= 1 && concurrency >= 1 && BatchesRan(order, n, size, concurrency)
    ensures Complete(order, n, concurrency) && InBatches(order, size)
  {
    forall m: nat | m < n ensures order[m] < n && order[m] < m + concurrency && order[m] / size == m / size {
      var i, log := RanPlace(order, n, size, concurrency, m);
      assert log[m - i] < |log| <= size;
      SameBatch(i, log[m - i], size);
    }
    forall m: nat, m': nat | m < m' < n ensures order[m] != order[m'] {
      assert order[m] / size == m / size && order[m'] / size == m' / size;
      if m / size == m' / size { SameBatchDiffer(order, n, size, concurrency, m, m'); }
    }
  }

  lemma SameBatchDiffer(order: seq<nat>, n: nat, size: nat, concurrency: nat, m: nat, m': nat)
    requires size >= 1 && concurrency >= 1 && BatchesRan(order, n, size, concurrency)
    requires m < m' < n && m / size == m' / size
    ensures order[m] != order[m']
  {
    var i, log := RanPlace(order, n, size, concurrency, m);
    WithinBatch(i, m', size);
    assert order[m'] == order[i..End(i, size, n)][m' - i];
    assert log[m - i] != log[m' - i];
  }

  lemma PlaceInBatch(order: seq<nat>, n: nat, size: nat, concurrency: nat, i: nat, x: nat)
    requires size >= 1 && Complete(order, n, concurrency) && InBatches(order, size)
    requires i < n && i % size == 0 && i + x < End(i, size, n)
    ensures i <= order[i + x] < End(i, size, n) && order[i + x] < i + x + concurrency
  {
    SameBatch(i, x, size);
    WithinBatch(i, order[i + x], size);
  }

  /** What the batch at i contributed, in places of the batch. */
  function Part(order: seq<nat>, i: nat, end: nat): seq<int>
    requires i <= end <= |order|
  {
    seq(end - i, x requires 0 <= x < end - i => order[i + x] - i)
  }

  lemma PartPlace(order: seq<nat>, n: nat, size: nat, concurrency: nat, i: nat, x: nat)
    requires size >= 1 && concurrency >= 1 && Complete(order, n, concurrency) && InBatches(order, size)
    requires i < n && i % size == 0 && i + x < End(i, size, n)
    ensures
      var end := End(i, size, n);
      var p := Part(order, i, end)[x];
      0 <= p < end - i && p < x + Spawned(end - i, concurrency) && p + i == order[i + x]
  {
    PlaceInBatch(order, n, size, concurrency, i, x);
  }

  lemma PartDiffers(order: seq<nat>, n: nat, concurrency: nat, i: nat, end: nat, x: nat, y: nat)
    requires Complete(order, n, concurrency) && i <= end <= n && x < y < end - i
    ensures Part(order, i, end)[x] != Part(order, i, end)[y]
  {
    assert order[i + x] != order[i + y];
  }

  lemma PartIsOrdering(order: seq<nat>, n: nat, size: nat, concurrency: nat, i: nat) returns (part: seq<nat>)
    requires size >= 1 && concurrency >= 1 && Complete(order, n, concurrency) && InBatches(order, size)
    requires i < n && i % size == 0
    ensures
      var end := End(i, size, n);
      Complete(part, end - i, Spawned(end - i, concurrency)) && order[i..end] == Shifted(part, i)
  {
    var end := End(i, size, n);
    var p := Part(order, i, end);
    forall x: nat | x < |p| ensures 0 <= p[x] < |p| && p[x] < x + Spawned(|p|, concurrency) && p[x] + i == order[i + x] {
      PartPlace(order, n, size, concurrency, i, x);
    }
    forall x: nat, y: nat | x < y < |p| ensures p[x] != p[y] { PartDiffers(order, n, concurrency, i, end, x, y); }
    part := p;
  }

  lemma CompleteRan(order: seq<nat>, n: nat, size: nat, concurrency: nat, i: nat)
    requires size >= 1 && concurrency >= 1 && Complete(order, n, concurrency) && InBatches(order, size)
    requires i < n && i % size == 0
    ensures BatchRan(order, i, End(i, size, n), concurrency)
  {
    var end := End(i, size, n);
    var part := PartIsOrdering(order, n, size, concurrency, i);
    var s := OrderIsReached(end - i, Spawned(end - i, concurrency), part);
  }

  /**
   The orders of Set that whole runs can produce are exactly the permutations that stay inside the
   batches and run ahead by less than the number of goroutines.
   */
  lemma RunsAreExactly(order: seq<nat>, n: nat, size: nat, concurrency: nat)
    requires size >= 1 && concurrency >= 1
    ensures BatchesRan(order, n, size, concurrency) <==> Complete(order, n, concurrency) && InBatches(order, size)
  {
    if BatchesRan(order, n, size, concurrency) {
      RanIsComplete(order, n, size, concurrency);
    }
    if Complete(order, n, concurrency) && InBatches(order, size) {
      forall i: nat | i < n && i % size == 0 ensures BatchRan(order, i, End(i, size, n), concurrency) {
        CompleteRan(order, n, size, concurrency, i);
      }
    }
  }

  // ---------- the cache after a whole run ----------

  /** A later batch has a job with the key of job i. */
  ghost predicate Overwritten(jobs: seq<WarmupJob>, size: nat, i: nat)
    requires size >= 1 && i < |jobs|
  {
    exists l: nat :: l < |jobs| && jobs[l].key == jobs[i].key && l / size > i / size
  }

  /** Jobs of one batch with one key agree, unless a later batch decides. */
  ghost predicate Settled(jobs: seq<WarmupJob>, size: nat)
    requires size >= 1
  {
    forall i: nat, j: nat :: i < j < |jobs| && i / size == j / size && Clash(jobs[i], jobs[j]) ==> Overwritten(jobs, size, i)
  }

  ghost predicate RunIndependent(jobs: seq<WarmupJob>, size: nat, concurrency: nat)
    requires size >= 1 && concurrency >= 1
  {
    forall c: Content, a, b ::
      && BatchesRan(a, |jobs|, size, concurrency) && InRange(a, |jobs|)
      && BatchesRan(b, |jobs|, size, concurrency) && InRange(b, |jobs|)
      ==> Warmed(c, jobs, a, |jobs|) == Warmed(c, jobs, b, |jobs|)
  }

  /** Job i held back until the rest of its batch is Set. */
  function HeldBackInBatch(n: nat, size: nat, i: nat, end: nat): (order: seq<nat>)
    requires i < end <= n
    ensures |order| == n && order[end - 1] == i
  {
    seq(n, m requires 0 <= m < n => if m < i || m >= end then m else if m == end - 1 then i else m + 1)
  }

  lemma HeldBackRuns(n: nat, size: nat, i: nat, start: nat, concurrency: nat)
    requires size >= 1 && concurrency >= 2 && start <= i < End(start, size, n) && start % size == 0 && start < n
    ensures BatchesRan(HeldBackInBatch(n, size, i, End(start, size, n)), n, size, concurrency)
  {
    var end := End(start, size, n);
    var order := HeldBackInBatch(n, size, i, end);
    forall m: nat | m < n ensures order[m] / size == m / size {
      if i <= m < end {
        SameBatch(start, m - start, size);
        SameBatch(start, order[m] - start, size);
      }
    }
    RunsAreExactly(order, n, size, concurrency);
  }

  /** If no later batch has its key, the job held back in its batch decides what the cache holds. */
  lemma HeldBackDecides(c: Content, jobs: seq<WarmupJob>, size: nat, i: nat, start: nat)
    requires size >= 1 && start <= i < End(start, size, |jobs|) && start % size == 0 && start < |jobs|
    requires start / size == i / size && !Overwritten(jobs, size, i)
    ensures
      var order := HeldBackInBatch(|jobs|, size, i, End(start, size, |jobs|));
      InRange(order, |jobs|) && jobs[i].key in Warmed(c, jobs, order, |jobs|) &&
      Warmed(c, jobs, order, |jobs|)[jobs[i].key] == (jobs[i].data, jobs[i].ttl)
  {
    var n, end := |jobs|, End(start, size, |jobs|);
    var order := HeldBackInBatch(n, size, i, end);
    forall m: nat | end - 1 < m < n ensures jobs[order[m]].key != jobs[i].key {
      QuotientIsMonotone(size, start + size, m);
      DivisionIs(size, start + size, start / size + 1, 0);
    }
    WarmedAt(c, jobs, order, n, end - 1);
  }

  lemma ClashDecides(jobs: seq<WarmupJob>, size: nat, concurrency: nat, i: nat, j: nat)
    requires size >= 1 && concurrency >= 2
    requires i < j < |jobs| && i / size == j / size && Clash(jobs[i], jobs[j]) && !Overwritten(jobs, size, i)
    ensures !RunIndependent(jobs, size, concurrency)
  {
    var n := |jobs|;
    var start := BatchStart(i, size);
    WithinBatch(start, j, size);
    var a, b := HeldBackInBatch(n, size, i, End(start, size, n)), HeldBackInBatch(n, size, j, End(start, size, n));
    HeldBackRuns(n, size, i, start, concurrency);
    HeldBackRuns(n, size, j, start, concurrency);
    HeldBackDecides(map[], jobs, size, i, start);
    assert !Overwritten(jobs, size, j);
    HeldBackDecides(map[], jobs, size, j, start);
    assert Warmed(map[], jobs, a, n) != Warmed(map[], jobs, b, n);
  }

  /** The last of the first k places with a job of the key. */
  lemma {:induction false} LastPlace(jobs: seq<WarmupJob>, order: seq<nat>, k: nat, key: string, m: nat) returns (last: nat)
    requires InRange(order, |jobs|) && m < k <= |order| && jobs[order[m]].key == key
    ensures m <= last < k && jobs[order[last]].key == key
    ensures forall x :: last < x < k ==> jobs[order[x]].key != key
  {
    if jobs[order[k - 1]].key == key { return k - 1; }
    last := LastPlace(jobs, order, k - 1, key, m);
  }

  /** The cache ends up with a job from the last batch that has the key. */
  lemma DecidedInLastBatch(c: Content, jobs: seq<WarmupJob>, size: nat, concurrency: nat, order: seq<nat>, i: nat) returns (j: nat)
    requires size >= 1 && Complete(order, |jobs|, concurrency) && InBatches(order, size)
    requires i < |jobs| && !Overwritten(jobs, size, i)
    ensures j < |jobs| && jobs[j].key == jobs[i].key && j / size == i / size
    ensures InRange(order, |jobs|) && jobs[j].key in Warmed(c, jobs, order, |jobs|)
    ensures Warmed(c, jobs, order, |jobs|)[jobs[j].key] == (jobs[j].data, jobs[j].ttl)
  {
    var n := |jobs|;
    EveryPlaceOccurs(order, n, concurrency, i);
    var m: nat :| m < n && order[m] == i;
    var last := LastPlace(jobs, order, n, jobs[i].key, m);
    j := order[last];
    assert j / size == last / size && i / size == m / size;
    QuotientIsMonotone(size, m, last);
    WarmedAt(c, jobs, order, n, last);
  }

  /** The last job with a key: no later batch has it. */
  lemma LastJob(jobs: seq<WarmupJob>, size: nat, i: nat) returns (last: nat)
    requires size >= 1 && i < |jobs|
    ensures last < |jobs| && jobs[last].key == jobs[i].key && !Overwritten(jobs, size, last)
  {
    var places := seq(|jobs|, m => m);
    last := LastPlace(jobs, places, |jobs|, jobs[i].key, i);
    forall l: nat | l < |jobs| && jobs[l].key == jobs[last].key ensures l / size <= last / size {
      assert places[l] == l;
      QuotientIsMonotone(size, l, last);
    }
  }

  lemma SettledIsIndependent(c: Content, jobs: seq<WarmupJob>, size: nat, concurrency: nat, a: seq<nat>, b: seq<nat>)
    requires size >= 1 && Settled(jobs, size)
    requires Complete(a, |jobs|, concurrency) && InBatches(a, size)
    requires Complete(b, |jobs|, concurrency) && InBatches(b, size)
    ensures InRange(a, |jobs|) && InRange(b, |jobs|) && Warmed(c, jobs, a, |jobs|) == Warmed(c, jobs, b, |jobs|)
  {
    var x, y := Warmed(c, jobs, a, |jobs|), Warmed(c, jobs, b, |jobs|);
    forall key
      ensures key in x <==> key in y
      ensures key in x ==> x[key] == y[key]
    {
      if i: nat :| i < |jobs| && jobs[i].key == key {
        SettledAt(c, jobs, size, concurrency, a, b, i);
      } else {
        OtherKeysStay(c, jobs, a, |jobs|, key);
        OtherKeysStay(c, jobs, b, |jobs|, key);
      }
    }
  }

  lemma SettledAt(c: Content, jobs: seq<WarmupJob>, size: nat, concurrency: nat, a: seq<nat>, b: seq<nat>, i: nat)
    requires size >= 1 && Settled(jobs, size) && i < |jobs|
    requires Complete(a, |jobs|, concurrency) && InBatches(a, size)
    requires Complete(b, |jobs|, concurrency) && InBatches(b, size)
    ensures InRange(a, |jobs|) && InRange(b, |jobs|)
    ensures jobs[i].key in Warmed(c, jobs, a, |jobs|) && jobs[i].key in Warmed(c, jobs, b, |jobs|)
    ensures Warmed(c, jobs, a, |jobs|)[jobs[i].key] == Warmed(c, jobs, b, |jobs|)[jobs[i].key]
  {
    var last := LastJob(jobs, size, i);
    var j := DecidedInLastBatch(c, jobs, size, concurrency, a, last);
    var k := DecidedInLastBatch(c, jobs, size, concurrency, b, last);
    assert !Overwritten(jobs, size, j) && !Overwritten(jobs, size, k);
    if j < k { assert !Clash(jobs[j], jobs[k]); } else if k < j { assert !Clash(jobs[k], jobs[j]); }
  }

  /**
   All runs leave the same cache exactly if one goroutine works at a time, or any two jobs with one
   key in one batch agree unless a later batch holds that key.
   */
  lemma RunIndependentIff(jobs: seq<WarmupJob>, size: nat, concurrency: nat)
    requires size >= 1 && concurrency >= 1
    ensures RunIndependent(jobs, size, concurrency) <==> concurrency == 1 || Settled(jobs, size)
  {
    if concurrency >= 2 && !Settled(jobs, size) {
      var i: nat, j: nat :| i < j < |jobs| && i / size == j / size && Clash(jobs[i], jobs[j]) && !Overwritten(jobs, size, i);
      ClashDecides(jobs, size, concurrency, i, j);
    } else {
      forall c: Content, a, b
        | && BatchesRan(a, |jobs|, size, concurrency) && InRange(a, |jobs|)
          && BatchesRan(b, |jobs|, size, concurrency) && InRange(b, |jobs|)
        ensures Warmed(c, jobs, a, |jobs|) == Warmed(c, jobs, b, |jobs|)
      {
        RunsAreExactly(a, |jobs|, size, concurrency);
        RunsAreExactly(b, |jobs|, size, concurrency);
        if concurrency == 1 {
          SequentialIsOne(a, b, |jobs|);
        } else {
          SettledIsIndependent(c, jobs, size, concurrency, a, b);
        }
      }
    }
  }

  lemma SequentialIsOne(a: seq<nat>, b: seq<nat>, n: nat)
    requires Complete(a, n, 1) && Complete(b, n, 1)
    ensures a == b
  {
    forall m | 0 <= m < n ensures a[m] == b[m] {
      OneGoroutineKeepsOrder(a, n, m);
      OneGoroutineKeepsOrder(b, n, m);
    }
  }

  /** With distinct keys the cache is the same after every run. */
  lemma DistinctKeysAreIndependent(jobs: seq<WarmupJob>, size: nat, concurrency: nat)
    requires size >= 1 && concurrency >= 1
    requires forall i, j :: 0 <= i < j < |jobs| ==> jobs[i].key != jobs[j].key
    ensures RunIndependent(jobs, size, concurrency)
  {
    RunIndependentIff(jobs, size, concurrency);
  }

  // ---------- the sorted insertion list ----------

  /** The list with the job after the last entry of at least its priority. */
  function Inserted(jobs: seq<WarmupJob>, job: WarmupJob): seq<WarmupJob> {
    if jobs == [] || jobs[|jobs| - 1].priority >= job.priority then jobs + [job]
    else Inserted(jobs[..|jobs| - 1], job) + [jobs[|jobs| - 1]]
  }

  lemma OneFurther(jobs: seq<WarmupJob>, i: nat, job: WarmupJob)
    requires 0 < i <= |jobs| && jobs[i - 1].priority < job.priority
    ensures Inserted(jobs[..i], job) + jobs[i..] == Inserted(jobs[..i - 1], job) + jobs[i - 1..]
  {
    assert jobs[..i][..i - 1] == jobs[..i - 1];
    assert jobs[i - 1..] == [jobs[i - 1]] + jobs[i..];
  }

  /** The list stays sorted, and jobs of equal priority stay in the order they came in. */
  lemma {:induction false} InsertionIsStable(jobs: seq<WarmupJob>, job: WarmupJob) returns (k: nat)
    requires Descending(jobs)
    ensures k <= |jobs| && Inserted(jobs, job) == jobs[..k] + [job] + jobs[k..]
    ensures forall i | 0 <= i < |jobs| :: i < k <==> jobs[i].priority >= job.priority
  {
    if jobs == [] || jobs[|jobs| - 1].priority >= job.priority {
      k := |jobs|;
      assert jobs[..k] == jobs && jobs[k..] == [];
    } else {
      var front := jobs[..|jobs| - 1];
      k := InsertionIsStable(front, job);
      assert front[..k] == jobs[..k] && front[k..] + [jobs[|jobs| - 1]] == jobs[k..];
      assert forall i | 0 <= i < |front| :: front[i] == jobs[i];
    }
  }

  lemma InsertionKeepsOrder(jobs: seq<WarmupJob>, job: WarmupJob)
    requires Descending(jobs)
    ensures Descending(Inserted(jobs, job))
  {
    var k := InsertionIsStable(jobs, job);
  }

  lemma {:induction false} InsertionAddsOne(jobs: seq<WarmupJob>, job: WarmupJob)
    ensures multiset(Inserted(jobs, job)) == multiset(jobs) + multiset{job}
  {
    if jobs != [] {
      assert jobs == jobs[..|jobs| - 1] + [jobs[|jobs| - 1]];
      InsertionAddsOne(jobs[..|jobs| - 1], job);
    }
  }

  function InsertedAll(jobs: seq<WarmupJob>): seq<WarmupJob> {
    if jobs == [] then [] else Inserted(InsertedAll(jobs[..|jobs| - 1]), jobs[|jobs| - 1])
  }

  lemma {:induction false} InsertedAllDescends(jobs: seq<WarmupJob>)
    ensures Descending(InsertedAll(jobs))
  {
    if jobs != [] {
      InsertedAllDescends(jobs[..|jobs| - 1]);
      InsertionKeepsOrder(InsertedAll(jobs[..|jobs| - 1]), jobs[|jobs| - 1]);
    }
  }

  lemma {:induction false} InsertedAllKeeps(jobs: seq<WarmupJob>)
    ensures multiset(InsertedAll(jobs)) == multiset(jobs)
  {
    if jobs != [] {
      InsertedAllKeeps(jobs[..|jobs| - 1]);
      InsertionAddsOne(InsertedAll(jobs[..|jobs| - 1]), jobs[|jobs| - 1]);
      assert jobs == jobs[..|jobs| - 1] + [jobs[|jobs| - 1]];
    }
  }

  lemma InsertedAllSorted(jobs: seq<WarmupJob>)
    ensures Descending(InsertedAll(jobs)) && multiset(InsertedAll(jobs)) == multiset(jobs)
  {
    InsertedAllDescends(jobs);
    InsertedAllKeeps(jobs);
  }

  // ---------- both give the same priorities ----------

  function Priorities(jobs: seq<WarmupJob>): seq<int> {
    seq(|jobs|, i requires 0 <= i < |jobs| => jobs[i].priority)
  }

  function Without<T>(s: seq<T>, k: nat): (r: seq<T>)
    requires k < |s|
    ensures |r| == |s| - 1
  {
    s[..k] + s[k + 1..]
  }

  lemma WithoutOne<T>(s: seq<T>, k: nat)
    requires k < |s|
    ensures multiset(Without(s, k)) == multiset(s) - multiset{s[k]}
    ensures multiset(s) == multiset(Without(s, k)) + multiset{s[k]}
  {
    assert s == s[..k] + [s[k]] + s[k + 1..];
  }

  lemma PrioritiesWithout(s: seq<WarmupJob>, k: nat)
    requires k < |s|
    ensures multiset(Priorities(s)) == multiset(Priorities(Without(s, k))) + multiset{s[k].priority}
  {
    WithoutOne(Priorities(s), k);
    assert Without(Priorities(s), k) == Priorities(Without(s, k));
  }

  lemma {:induction false} PrioritiesOfPermutation(a: seq<WarmupJob>, b: seq<WarmupJob>)
    requires multiset(a) == multiset(b)
    ensures multiset(Priorities(a)) == multiset(Priorities(b))
    decreases |a|
  {
    if a == [] {
      assert |b| == |multiset(b)| == 0;
    } else {
      assert a[0] in multiset(a) && a[0] in multiset(b);
      var k :| 0 <= k < |b| && b[k] == a[0];
      WithoutOne(a, 0);
      WithoutOne(b, k);
      PrioritiesOfPermutation(Without(a, 0), Without(b, k));
      PrioritiesWithout(a, 0);
      PrioritiesWithout(b, k);
    }
  }

  lemma SameHead(a: seq<int>, b: seq<int>)
    requires multiset(a) == multiset(b) && a != [] && b != []
    requires forall i | 0 < i < |a| :: a[0] >= a[i]
    requires forall i | 0 < i < |b| :: b[0] >= b[i]
    ensures a[0] == b[0]
  {
    assert a[0] in multiset(b) && b[0] in multiset(a) by {
      assert a[0] in multiset(a) && b[0] in multiset(b);
    }
  }

  predicate Sorted(s: seq<int>) { forall i, j | 0 <= i < j < |s| :: s[i] >= s[j] }

  lemma SortedTail(s: seq<int>)
    requires Sorted(s) && s != []
    ensures Sorted(Without(s, 0)) && s == [s[0]] + Without(s, 0)
  {
  }

  lemma {:induction false} SortedIsUnique(a: seq<int>, b: seq<int>)
    requires multiset(a) == multiset(b) && Sorted(a) && Sorted(b)
    ensures a == b
    decreases |a|
  {
    assert |a| == |multiset(a)| == |multiset(b)| == |b|;
    if a != [] {
      SameHead(a, b);
      var x, y := Without(a, 0), Without(b, 0);
      SortedTail(a);
      SortedTail(b);
      assert multiset(x) == multiset(y) by { WithoutOne(a, 0); WithoutOne(b, 0); }
      SortedIsUnique(x, y);
    }
  }

  /** Any descending arrangement of the jobs, so a drained heap, shows the priorities of
      the insertion list. */
  lemma DrainMatchesList(jobs: seq<WarmupJob>, drained: seq<WarmupJob>)
    requires multiset(drained) == multiset(jobs) && Descending(drained)
    ensures Priorities(drained) == Priorities(InsertedAll(jobs))
  {
    InsertedAllSorted(jobs);
    PrioritiesOfPermutation(drained, InsertedAll(jobs));
    SortedIsUnique(Priorities(drained), Priorities(InsertedAll(jobs)));
  }

  // ---------- the code ----------

  lemma PickedJoins(jobs: seq<WarmupJob>, i: nat, end: nat, order: seq<nat>, part: seq<nat>)
    requires i <= end <= |jobs| && InRange(order, |jobs|) && InRange(part, end - i)
    ensures InRange(order + Shifted(part, i), |jobs|)
    ensures Picked(jobs, order + Shifted(part, i)) == Picked(jobs, order) + Picked(jobs[i..end], part)
  {
    var all := order + Shifted(part, i);
    forall m | 0 <= m < |all| ensures all[m] < |jobs| {
      if m >= |order| { assert part[m - |order|] < end - i; } else { assert all[m] == order[m]; }
    }
  }

  /** The batches that start before `done` have run. */
  ghost predicate RanSoFar(order: seq<nat>, done: nat, n: nat, size: nat, concurrency: int)
    requires size >= 1 && done <= n
  {
    if concurrency <= 0 then order == []
    else |order| == done && forall i: nat :: i < done && i % size == 0 ==> BatchRan(order, i, End(i, size, n), concurrency)
  }

  ghost predicate Produced(log: seq<nat>, n: nat, concurrency: int) {
    exists s :: Reaches(n, Spawned(n, concurrency), s) && Finished(s) && s.log == log
  }

  lemma OneMoreBatch(order: seq<nat>, i: nat, n: nat, part: seq<nat>, size: nat, concurrency: int)
    requires size >= 1 && i % size == 0 && i < n && concurrency >= 1
    requires RanSoFar(order, i, n, size, concurrency) && Produced(part, End(i, size, n) - i, concurrency)
    ensures RanSoFar(order + Shifted(part, i), End(i, size, n), n, size, concurrency)
  {
    var end, all := End(i, size, n), order + Shifted(part, i);
    var s :| Reaches(end - i, Spawned(end - i, concurrency), s) && Finished(s) && s.log == part;
    EachJobSetOnce(end - i, Spawned(end - i, concurrency), s);
    assert all[i..end] == Shifted(s.log, i);
    forall k: nat | k < end && k % size == 0 ensures BatchRan(all, k, End(k, size, n), concurrency) {
      if k < i {
        EarlierBatch(k, i, size);
        StillRan(order, Shifted(part, i), k, End(k, size, n), concurrency);
      } else if k > i {
        SameBatch(i, k - i, size);
        WithinBatch(k, i, size);
      }
    }
  }

  lemma StillRan(order: seq<nat>, more: seq<nat>, i: nat, end: nat, concurrency: int)
    requires i <= end && BatchRan(order, i, end, concurrency)
    ensures BatchRan(order + more, i, end, concurrency)
  {
    assert (order + more)[i..end] == order[i..end];
  }

  lemma EarlierBatch(k: nat, i: nat, size: nat)
    requires size >= 1 && k % size == 0 && i % size == 0 && k < i
    ensures k + size <= i
  {
    if k + size > i {
      SameBatch(k, i - k, size);
      WithinBatch(i, k, size);
    }
  }

  lemma BatchJoins(jobs: seq<WarmupJob>, i: nat, order: seq<nat>, part: seq<nat>, size: nat, concurrency: int)
    requires size >= 1 && i % size == 0 && i < |jobs| && InRange(order, |jobs|)
    requires RanSoFar(order, i, |jobs|, size, concurrency)
    requires
      var end := End(i, size, |jobs|);
      Produced(part, end - i, concurrency) && InRange(part, end - i) && (concurrency <= 0 ==> part == [])
    ensures
      var end, all := End(i, size, |jobs|), order + Shifted(part, i);
      && RanSoFar(all, end, |jobs|, size, concurrency) && InRange(all, |jobs|)
      && Picked(jobs, all) == Picked(jobs, order) + Picked(jobs[i..end], part)
    ensures (i + size) % size == 0
  {
    PickedJoins(jobs, i, End(i, size, |jobs|), order, part);
    if concurrency >= 1 { OneMoreBatch(order, i, |jobs|, part, size, concurrency); }
    NextStart(i, size);
  }

  lemma StepTaken(n: nat, g: nat, s: System, e: Step)
    requires Reaches(n, g, s) && Inv(n, g, s) && Enabled(n, s, e)
    ensures Reaches(n, g, Apply(n, s, e)) && Inv(n, g, Apply(n, s, e))
    ensures 0 <= Measure(n, Apply(n, s, e)) < Measure(n, s)
    ensures e.Write? ==> s.hands[e.w].i < n && Apply(n, s, e).log == s.log + [s.hands[e.w].i]
    ensures !e.Write? ==> Apply(n, s, e).log == s.log
  {
    Extend(n, g, s, e);
    InvStep(n, g, s, e);
    StepLowers(n, g, s, e);
  }

  lemma NextStart(i: nat, size: nat)
    requires size >= 1 && i % size == 0
    ensures (i + size) % size == 0
  {
    DivisionIs(size, i + size, i / size + 1, 0);
  }

  class CacheWarmer {
    const concurrency: int
    const batchSize: int
    var jobs: seq<WarmupJob>
    var sets: seq<WarmupJob>   // the calls of cache.Set, in order

    constructor (batchSize: int, concurrency: int)
      ensures this.batchSize == batchSize && this.concurrency == concurrency && jobs == [] && sets == []
    {
      this.batchSize, this.concurrency, jobs, sets := batchSize, concurrency, [], [];
    }

    /** AddWarmupJob without a priority queue: append, then swap towards the front.  A warmer made by
        NewCacheWarmer always has a priority queue, so only one made otherwise comes here. */
    method AddWarmupJob(job: WarmupJob)
      modifies this`jobs
      ensures jobs == Inserted(old(jobs), job)
    {
      ghost var was := jobs;
      jobs := jobs + [job];
      var i := |jobs| - 1;
      assert was[..i] == was && was[i..] == [];
      while i > 0
        invariant 0 <= i <= |was| && jobs == was[..i] + [job] + was[i..]
        invariant Inserted(was, job) == Inserted(was[..i], job) + was[i..]
      {
        if jobs[i].priority > jobs[i - 1].priority {
          OneFurther(was, i, job);
          OneSwap(was, i, job);
          jobs := jobs[i := jobs[i - 1]][i - 1 := jobs[i]];
        } else {
          return;
        }
        i := i - 1;
      }
    }

    /** processBatch: the scheduler may pick any step that is possible. */
    method ProcessBatch(batch: seq<WarmupJob>) returns (ghost order: seq<nat>)
      modifies this`sets
      ensures Produced(order, |batch|, concurrency)
      ensures concurrency >= 1 ==> Complete(order, |batch|, Spawned(|batch|, concurrency))
      ensures concurrency <= 0 ==> order == []
      ensures InRange(order, |batch|) && sets == old(sets) + Picked(batch, order)
    {
      var n, g := |batch|, Spawned(|batch|, concurrency);
      var s := Init(g);
      Start(n, g);
      ReachedInv(n, g, s);
      while !Finished(s)
        invariant Reaches(n, g, s) && Inv(n, g, s)
        invariant sets == old(sets) + Picked(batch, s.log)
        decreases Measure(n, s)
      {
        ghost var possible := NeverStuck(n, g, s);
        var e: Step :| Enabled(n, s, e);
        StepTaken(n, g, s, e);
        if e.Write? {
          sets := sets + [batch[s.hands[e.w].i]];
        }
        s := Apply(n, s, e);
      }
      order := s.log;
      EachJobSetOnce(n, g, s);
    }

    /** The batches of warmCache; a batch size of 0 would never get past the first. */
    method WarmCache() returns (ghost order: seq<nat>)
      requires batchSize >= 1
      modifies this`sets
      ensures concurrency >= 1 ==> BatchesRan(order, |jobs|, batchSize, concurrency)
      ensures concurrency <= 0 ==> order == []
      ensures InRange(order, |jobs|) && sets == old(sets) + Picked(jobs, order)
    {
      order := [];
      var i := 0;
      while i < |jobs|
        invariant 0 <= i && i % batchSize == 0
        invariant RanSoFar(order, if i < |jobs| then i else |jobs|, |jobs|, batchSize, concurrency)
        invariant InRange(order, |jobs|) && sets == old(sets) + Picked(jobs, order)
      {
        var end := i + batchSize;
        if end > |jobs| {
          end := |jobs|;
        }
        ghost var part := ProcessBatch(jobs[i..end]);
        BatchJoins(jobs, i, order, part, batchSize, concurrency);
        order := order + Shifted(part, i);
        i := i + batchSize;
      }
    }
  }

  lemma OneSwap(was: seq<WarmupJob>, i: nat, job: WarmupJob)
    requires 0 < i <= |was|
    ensures var jobs := was[..i] + [job] + was[i..];
      jobs[i := jobs[i - 1]][i - 1 := jobs[i]] == was[..i - 1] + [job] + was[i - 1..]
  {
  }
}
