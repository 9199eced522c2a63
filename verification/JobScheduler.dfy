/**
 What leaves the priority queue: a full drain, and the scheduler's batches on their way to the pool.
 */
module JobScheduler {
  import opened PriorityQueue
  import WorkerPool

  predicate Descending(jobs: seq<WarmupJob>) {
    forall i, j | 0 <= i < j < |jobs| :: jobs[i].priority >= jobs[j].priority
  }

  predicate AllAtMost(jobs: multiset<WarmupJob>, p: int) { forall j | j in jobs :: j.priority <= p }

  /** Best first, and nothing that is left is better than the last one taken. */
  predicate BestOf(taken: seq<WarmupJob>, left: multiset<WarmupJob>) {
    && Descending(taken)
    && (taken != [] ==> AllAtMost(left, taken[|taken| - 1].priority))
  }

  /** One job more, after those taken before, of all the jobs there were. */
  method TakeBest(queue: PriorityQueue, ghost taken: seq<WarmupJob>, ghost all: multiset<WarmupJob>) returns (job: WarmupJob)
    requires queue.Valid() && queue.items != []
    requires BestOf(taken, multiset(queue.Jobs())) && multiset(taken) + multiset(queue.Jobs()) == all
    modifies queue, queue.Items()
    ensures queue.Valid() && queue.Items() <= old(queue.Items()) && |queue.items| == |old(queue.items)| - 1
    ensures BestOf(taken + [job], multiset(queue.Jobs())) && multiset(taken + [job]) + multiset(queue.Jobs()) == all
  {
    ghost var before := queue.Jobs();
    var r := queue.Pop();
    job := r.value;
    assert before[0] == job;
    OneMoreTaken(taken, before, job, multiset(queue.Jobs()));
  }

  /** extractJobsBatch: the best jobs leave, best first, as many as the capacity allows. */
  method ExtractJobsBatch(queue: PriorityQueue, capacity: nat) returns (jobs: seq<WarmupJob>)
    requires queue.Valid()
    modifies queue, queue.Items()
    ensures queue.Valid() && queue.Items() <= old(queue.Items())
    ensures |jobs| == if capacity < |old(queue.items)| then capacity else |old(queue.items)|
    ensures |jobs| + |queue.items| == |old(queue.items)|
    ensures multiset(jobs) + multiset(queue.Jobs()) == old(multiset(queue.Jobs()))
    ensures BestOf(jobs, multiset(queue.Jobs()))
  {
    ghost var all, n := multiset(queue.Jobs()), |queue.items|;
    jobs := [];
    var i := 0;
    while i < capacity && queue.items != []
      invariant i == |jobs| <= capacity && |jobs| + |queue.items| == n
      invariant queue.Valid() && queue.Items() <= old(queue.Items())
      invariant multiset(jobs) + multiset(queue.Jobs()) == all
      invariant BestOf(jobs, multiset(queue.Jobs()))
    {
      var job := TakeBest(queue, jobs, all);
      jobs := jobs + [job];
      i := i + 1;
    }
  }

  lemma OneMoreTaken(jobs: seq<WarmupJob>, before: seq<WarmupJob>, best: WarmupJob, left: multiset<WarmupJob>)
    requires BestOf(jobs, multiset(before)) && before != [] && best in before
    requires forall job | job in before :: job.priority <= best.priority
    requires left == multiset(before) - multiset{best}
    ensures BestOf(jobs + [best], left)
    ensures multiset(jobs + [best]) + left == multiset(jobs) + multiset(before)
  {
    assert best in multiset(before);
    assert forall j | j in left :: j in multiset(before) && j in before;
  }

  method Drain(queue: PriorityQueue) returns (jobs: seq<WarmupJob>)
    requires queue.Valid()
    modifies queue, queue.Items()
    ensures queue.Valid() && queue.items == []
    ensures multiset(jobs) == old(multiset(queue.Jobs())) && Descending(jobs)
  {
    jobs := ExtractJobsBatch(queue, |queue.items|);
    assert queue.Jobs() == [];
  }

  // ---------- submitting a batch ----------

  /** The pool as one submitter sees it: workers receive whenever they like, and SubmitJob is the pool
      protocol's submission. */
  class BoundedPool {
    const workers: nat
    var running: bool
    var jobCh: seq<WarmupJob>
    ghost var received: seq<WarmupJob>

    constructor (workers: nat)
      ensures this.workers == workers && running && jobCh == [] && received == []
    {
      this.workers, running, jobCh, received := workers, true, [], [];
    }

    function Capacity(): nat { 2 * workers }

    /** All jobs that were ever sent, in order. */
    ghost function Sent(): seq<WarmupJob>
      reads this
    {
      received + jobCh
    }

    /** The pool protocol's state when this submitter holds the read lock with a job. */
    ghost function Submitting(job: WarmupJob): WorkerPool.Pool
      reads this
    {
      WorkerPool.Pool(jobCh, 0, running, !running, false, false, seq(workers, _ => WorkerPool.Receive),
                      [WorkerPool.Checking(job)], WorkerPool.NotCalled, WorkerPool.Collect, Sent(), received, received)
    }

    /** The workers take some jobs, as the pool protocol lets them. */
    method WorkersReceive(ghost next: WarmupJob) returns (ghost run: seq<WorkerPool.Step>)
      modifies this`jobCh, this`received
      ensures Sent() == old(Sent()) && old(received) <= received && |jobCh| <= old(|jobCh|)
      ensures WorkerPool.Legal(old(Submitting(next)), run)
      ensures var s := WorkerPool.After(old(Submitting(next)), run);
        jobCh == s.buffer && received == s.taken && Sent() == s.accepted
    {
      var k: nat :| k <= |jobCh| && (workers == 0 ==> k == 0);
      run := WorkerPool.Rounds(k);
      if k > 0 {
        WorkerPool.WorkersCanTake(Submitting(next), k);
      }
      assert jobCh == jobCh[..k] + jobCh[k..];
      received, jobCh := received + jobCh[..k], jobCh[k..];
    }

    method SubmitJob(job: WarmupJob) returns (ok: bool)
      modifies this`jobCh
      ensures ok <==> running && old(|jobCh|) < Capacity()
      ensures jobCh == old(jobCh) + if ok then [job] else []
      ensures Sent() == old(Sent()) + if ok then [job] else []
      ensures
        var checked := WorkerPool.Apply(old(Submitting(job)), WorkerPool.Check(0));
        if ok then
          WorkerPool.Enabled(checked, WorkerPool.Accept(0)) &&
          var s := WorkerPool.Apply(checked, WorkerPool.Accept(0)); jobCh == s.buffer && Sent() == s.accepted
        else checked.submitters[0].Leaving? || WorkerPool.Enabled(checked, WorkerPool.Refuse(0))
    {
      if !running {
        return false;
      }
      if |jobCh| < Capacity() {
        jobCh := jobCh + [job];
        return true;
      }
      return false;
    }

    /** Jobs that find no room are dropped; none is if there is room for all at the start. */
    method SubmitJobs(jobs: seq<WarmupJob>) returns (submitted: nat, ghost taken: seq<WarmupJob>)
      modifies this`jobCh, this`received
      ensures Sent() == old(Sent()) + taken && |taken| == submitted <= |jobs|
      ensures !running ==> submitted == 0
      ensures running && old(|jobCh|) + |jobs| <= Capacity() ==> taken == jobs
    {
      submitted, taken := 0, [];
      for i := 0 to |jobs|
        invariant Sent() == old(Sent()) + taken && |taken| == submitted <= i
        invariant !running ==> submitted == 0
        invariant running && old(|jobCh|) + |jobs| <= Capacity() ==>
          taken == jobs[..i] && |jobCh| <= old(|jobCh|) + i
      {
        ghost var run := WorkersReceive(jobs[i]);
        var ok := SubmitJob(jobs[i]);
        if ok {
          submitted, taken := submitted + 1, taken + [jobs[i]];
        }
      }
      assert jobs[..|jobs|] == jobs;
    }
  }

  /** Jobs that are accepted best first reach the workers best first, whoever else submits in between:
      none of them is received before a better one of them. */
  lemma BatchTakenBestFirst(workers: nat, submitters: nat, run: seq<WorkerPool.Step>, places: seq<nat>, i: nat, j: nat)
    requires WorkerPool.Legal(WorkerPool.Started(workers, submitters), run)
    requires forall k, l | 0 <= k < l < |places| :: places[k] < places[l]
    requires var s := WorkerPool.After(WorkerPool.Started(workers, submitters), run);
      && (forall k | 0 <= k < |places| :: places[k] < |s.accepted|)
      && Descending(seq(|places|, k requires 0 <= k < |places| => s.accepted[places[k]]))
      && i < j < |places| && places[j] < |s.taken|
    ensures var s := WorkerPool.After(WorkerPool.Started(workers, submitters), run);
      && places[i] < places[j]
      && s.taken[places[i]] == s.accepted[places[i]] && s.taken[places[j]] == s.accepted[places[j]]
      && s.taken[places[i]].priority >= s.taken[places[j]].priority
  {
    var s := WorkerPool.After(WorkerPool.Started(workers, submitters), run);
    WorkerPool.ReceivedInOrder(WorkerPool.Started(workers, submitters), run);
    var batch := seq(|places|, k requires 0 <= k < |places| => s.accepted[places[k]]);
    assert batch[i].priority >= batch[j].priority;
  }

  class Scheduler {
    const queue: PriorityQueue
    const pool: BoundedPool
    var runCount: int

    constructor (queue: PriorityQueue, pool: BoundedPool)
      ensures this.queue == queue && this.pool == pool && runCount == 0
    {
      this.queue, this.pool, runCount := queue, pool, 0;
    }

    /** With a running pool and an empty channel, the best jobs are all submitted, in order,
        as many as the channel holds; the queue keeps the rest. */
    method ProcessScheduledJobs() returns (processed: nat, ghost batch: seq<WarmupJob>)
      requires queue.Valid()
      modifies this, queue, queue.Items(), pool`jobCh, pool`received
      ensures queue.Valid()
      ensures multiset(batch) + multiset(queue.Jobs()) == old(multiset(queue.Jobs()))
      ensures BestOf(batch, multiset(queue.Jobs()))
      ensures |batch| == if pool.Capacity() < |old(queue.items)| then pool.Capacity() else |old(queue.items)|
      ensures pool.running && old(pool.jobCh) == [] ==>
                processed == |batch| && pool.Sent() == old(pool.Sent()) + batch
      ensures runCount == old(runCount) + if batch == [] then 0 else 1
    {
      processed, batch := 0, [];
      if queue.items == [] {
        assert queue.Jobs() == [];
        return;
      }
      var jobs := ExtractJobsBatch(queue, pool.Capacity());
      batch := jobs;
      if jobs != [] {
        ghost var taken;
        processed, taken := pool.SubmitJobs(jobs);
        runCount := runCount + 1;
      }
    }
  }
}
