/**
 Safety of the warm-up queue over every interleaving: no accepted job disappears, the
 retry counters and the dead-letter list agree, and retries keep their distance in time.
 */
module WarmupQueueSafety {
  import opened Wrappers
  import opened WarmupQueue

  // ---------- where a job can be ----------

  predicate InHands(s: System, id: int) {
    exists w :: 0 <= w < |s.workers| && Held(s.workers[w]).Some? && Held(s.workers[w]).value.id == id
  }

  predicate Queued(s: System, id: int) {
    || (exists j :: j in s.immediate && j.id == id)
    || (exists j :: j in s.delayed && j.id == id)
  }

  predicate Buried(s: System, id: int) {
    exists i :: 0 <= i < |s.dlq| && s.dlq[i].id == id
  }

  predicate Accounted(s: System, id: int) {
    Queued(s, id) || InHands(s, id) || Buried(s, id) || id in s.completed || id in s.lost
  }

  // ---------- what is true of every job in the system ----------

  /** 0 + 1 + ... + (k - 2): the whole seconds by which failure k must follow failure 1. */
  function Distance(k: int): int { (k - 1) * (k - 2) / 2 }

  /** The job's last failure was at processAt - attempts seconds; it is late enough. */
  predicate SpacedSince(j: Job, first: int) {
    j.processAt - j.attempts * SECOND - first
      >= Distance(j.attempts) * SECOND + (if j.attempts >= 2 then 1 else 0)
  }

  predicate Known(s: System, j: Job) {
    && j.id in s.issued
    && (j.attempts >= 1 ==> j.id in s.firstFail && SpacedSince(j, s.firstFail[j.id]))
  }

  predicate Waiting(s: System, j: Job) { Known(s, j) && j.attempts < j.maxTries }

  predicate Runnable(s: System, j: Job) { Waiting(s, j) && j.processAt < s.now + SECOND }

  predicate Spent(s: System, j: Job) { j.id in s.issued && j.attempts == j.maxTries }

  predicate GoodPc(s: System, pc: Pc) {
    match pc
    case Poll | Pop => true
    case Promote(batch) => batch != [] && forall j | j in batch :: Runnable(s, j)
    case Readd(j, rest) => Runnable(s, j) && forall k | k in rest :: Runnable(s, k)
    case Exec(j) => Runnable(s, j)
    case Retry(j) => Waiting(s, j) && j.attempts >= 1
    case Bury(j) => Spent(s, j)
  }

  /** Workers that have counted a failure but not yet stored its job. */
  function Pending(workers: seq<Pc>): nat {
    if workers == [] then 0
    else (if workers[0].Retry? || workers[0].Bury? then 1 else 0) + Pending(workers[1..])
  }

  ghost predicate Inv(s: System) {
    && (forall id | id in s.issued :: Accounted(s, id))
    && (forall id | id in s.firstFail :: s.firstFail[id] <= s.now)
    && (forall j | j in s.immediate :: Runnable(s, j))
    && (forall j | j in s.delayed :: Waiting(s, j) && s.delayed[j] == Unix(j.processAt))
    && (forall j | j in s.dlq :: Spent(s, j))
    && (forall pc | pc in s.workers :: GoodPc(s, pc))
    && (s.lost == {} ==> s.failedJobs == s.retryJobs + |s.dlq| + Pending(s.workers))
  }

  // ---------- one step ----------

  lemma {:induction false} PendingUpdate(workers: seq<Pc>, w: nat, pc: Pc)
    requires w < |workers|
    ensures Pending(workers[w := pc]) ==
            Pending(workers) - Pending([workers[w]]) + Pending([pc])
  {
    if w == 0 {
      assert workers[0 := pc][1..] == workers[1..];
    } else {
      assert workers[w := pc][1..] == workers[1..][w - 1 := pc];
      PendingUpdate(workers[1..], w - 1, pc);
    }
  }

  lemma HandledGrows(s: System, w: nat, res: Outcome)
    requires Enabled(s, Handle(w, res))
    ensures var t := Handled(s, w, res);
      && s.now == t.now && s.issued <= t.issued
      && (forall id | id in s.firstFail :: id in t.firstFail && t.firstFail[id] == s.firstFail[id])
  {
  }

  lemma HistoryGrows(s: System, l: Step)
    requires Enabled(s, l)
    ensures var t := Apply(s, l);
      && s.now <= t.now && s.issued <= t.issued
      && (forall id | id in s.firstFail :: id in t.firstFail && t.firstFail[id] == s.firstFail[id])
  {
    if l.Handle? { HandledGrows(s, l.w, l.res); }
  }

  lemma LaterFacts(s: System, t: System)
    requires s.now <= t.now && s.issued <= t.issued
    requires forall id | id in s.firstFail :: id in t.firstFail && t.firstFail[id] == s.firstFail[id]
    ensures forall j | Runnable(s, j) :: Runnable(t, j)
    ensures forall j | Waiting(s, j) :: Waiting(t, j)
  {
  }

  /** What a job satisfied before a step it still satisfies after it. */
  lemma FactsPersist(s: System, l: Step)
    requires Enabled(s, l)
    ensures var t := Apply(s, l);
      && s.now <= t.now && s.issued <= t.issued
      && (forall id | id in s.firstFail :: id in t.firstFail && t.firstFail[id] == s.firstFail[id])
      && (forall j | Runnable(s, j) :: Runnable(t, j))
      && (forall j | Waiting(s, j) :: Waiting(t, j))
  {
    HistoryGrows(s, l);
    LaterFacts(s, Apply(s, l));
  }

  lemma RangeFacts(m: map<Job, int>, hi: int, n: nat, range: seq<Job>)
    requires IsRange(m, hi, n, range)
    ensures |range| <= n
    ensures forall j | j in range :: j in m && m[j] <= hi
    ensures forall i, k | 0 <= i < k < |range| :: range[i] != range[k]
    decreases n
  {
    if range != [] {
      assert range == [range[0]] + range[1..];
      RangeFacts(m - {range[0]}, hi, n - 1, range[1..]);
    }
  }

  lemma QueuedKept(s: System, l: Step, j: Job)
    requires Enabled(s, l) && (j in s.immediate || j in s.delayed)
    ensures Accounted(Apply(s, l), j.id)
  {
    var t := Apply(s, l);
    if j !in t.immediate && j !in t.delayed {
      assert Held(t.workers[l.w]) == Some(j);
    }
  }

  lemma RunningKept(s: System, w: nat, res: Outcome)
    requires Enabled(s, Handle(w, res))
    ensures Accounted(Apply(s, Handle(w, res)), s.workers[w].running.id)
  {
    var t := Apply(s, Handle(w, res));
    if res.Failed? { assert Held(t.workers[w]).value.id == s.workers[w].running.id; }
  }

  lemma StoredKept(s: System, l: Step)
    requires Enabled(s, l) && (l.AddPromoted? || l.AddRetry? || l.PushDead? || l.Lose?)
    ensures Accounted(Apply(s, l), Held(s.workers[l.w]).value.id)
  {
    var t, j := Apply(s, l), Held(s.workers[l.w]).value;
    match l
    case AddPromoted(_, _) => assert j in t.immediate;
    case AddRetry(_) => assert j in t.delayed;
    case PushDead(_) => assert t.dlq[0] == j;
    case Lose(_) => assert j.id in t.lost;
  }

  lemma HeldKept(s: System, l: Step, w: nat)
    requires Enabled(s, l) && At(s, w) && Held(s.workers[w]).Some?
    ensures Accounted(Apply(s, l), Held(s.workers[w]).value.id)
  {
    if !l.Tick? && !l.Enqueue? && l.w == w {
      if l.Handle? { RunningKept(s, w, l.res); } else { StoredKept(s, l); }
    } else {
      OneWorkerMoves(s, l);
      assert Apply(s, l).workers[w] == s.workers[w];
      assert InHands(Apply(s, l), Held(s.workers[w]).value.id);
    }
  }

  lemma BuriedKept(s: System, l: Step, i: nat)
    requires Enabled(s, l) && i < |s.dlq|
    ensures Buried(Apply(s, l), s.dlq[i].id)
  {
    var t := Apply(s, l);
    assert s.dlq[i] == t.dlq[if l.PushDead? then i + 1 else i];
  }

  lemma AccountedKept(s: System, l: Step, id: int)
    requires Enabled(s, l) && Accounted(s, id)
    ensures Accounted(Apply(s, l), id)
  {
    if Queued(s, id) {
      var j :| (j in s.immediate || j in s.delayed) && j.id == id;
      QueuedKept(s, l, j);
    } else if InHands(s, id) {
      var w :| 0 <= w < |s.workers| && Held(s.workers[w]).Some? && Held(s.workers[w]).value.id == id;
      HeldKept(s, l, w);
    } else if Buried(s, id) {
      var i :| 0 <= i < |s.dlq| && s.dlq[i].id == id;
      BuriedKept(s, l, i);
    }
  }

  /** A job that a step brings into the system is queued by that step. */
  lemma NewAccounted(s: System, l: Step, id: int)
    requires Enabled(s, l) && id in Apply(s, l).issued && id !in s.issued
    ensures Accounted(Apply(s, l), id)
  {
    var t := Apply(s, l);
    var job := if l.Enqueue? then l.job else l.res.spawn;
    assert job in t.immediate || job in t.delayed;
  }

  /** The failure that a handler reports keeps its distance from the job's first failure. */
  lemma FailureSpaced(s: System, j: Job)
    requires Runnable(s, j)
    requires forall id | id in s.firstFail :: s.firstFail[id] <= s.now
    ensures var first := if j.id in s.firstFail then s.firstFail[j.id] else s.now;
      SpacedSince(j.(attempts := j.attempts + 1, processAt := s.now + (j.attempts + 1) * SECOND), first)
  {
    var k: int := j.attempts;
    if k >= 1 {
      assert k * (k - 1) == (k - 1) * (k - 2) + 2 * (k - 1);
      assert Distance(k + 1) == Distance(k) + k - 1;
    }
  }

  lemma GoodPcPersists(s: System, l: Step, pc: Pc)
    requires Enabled(s, l) && GoodPc(s, pc)
    ensures GoodPc(Apply(s, l), pc)
  {
    FactsPersist(s, l);
  }

  lemma ReadPcGood(s: System, w: nat, batch: seq<Job>, read: int)
    requires Inv(s) && Enabled(s, ReadDelayed(w, batch, read))
    ensures GoodPc(Apply(s, ReadDelayed(w, batch, read)), Promoting(batch))
  {
    RangeFacts(s.delayed, Unix(read), PROMOTION_COUNT, batch);
  }

  lemma FailedPcGood(s: System, w: nat)
    requires Inv(s) && Enabled(s, Handle(w, Failed))
    ensures var t := Apply(s, Handle(w, Failed)); GoodPc(t, t.workers[w])
  {
    assert s.workers[w] in s.workers && GoodPc(s, s.workers[w]);
    FailureSpaced(s, s.workers[w].running);
  }

  lemma NextPcGood(s: System, l: Step)
    requires Inv(s) && Enabled(s, l) && !l.Tick? && !l.Enqueue?
    ensures GoodPc(Apply(s, l), Apply(s, l).workers[l.w])
  {
    if l.ReadDelayed? {
      ReadPcGood(s, l.w, l.batch, l.read);
    } else if l.Handle? {
      if l.res.Failed? { FailedPcGood(s, l.w); }
    } else {
      assert s.workers[l.w] in s.workers && GoodPc(s, s.workers[l.w]);
      FactsPersist(s, l);
    }
  }

  lemma GoodPcKept(s: System, l: Step, pc: Pc)
    requires Inv(s) && Enabled(s, l) && pc in Apply(s, l).workers
    ensures GoodPc(Apply(s, l), pc)
  {
    if pc in s.workers {
      GoodPcPersists(s, l, pc);
    } else {
      NewPc(s, l, pc);
      NextPcGood(s, l);
    }
  }

  lemma OneWorkerMoves(s: System, l: Step)
    requires Enabled(s, l)
    ensures var t := Apply(s, l);
      if l.Tick? || l.Enqueue? then t.workers == s.workers
      else |t.workers| == |s.workers| && t.workers == s.workers[l.w := t.workers[l.w]]
  {
  }

  lemma NewPc(s: System, l: Step, pc: Pc)
    requires Enabled(s, l) && pc in Apply(s, l).workers && pc !in s.workers
    ensures !l.Tick? && !l.Enqueue? && pc == Apply(s, l).workers[l.w]
  {
    OneWorkerMoves(s, l);
  }

  lemma ImmediateKept(s: System, l: Step, j: Job)
    requires Inv(s) && Enabled(s, l) && j in Apply(s, l).immediate
    ensures Runnable(Apply(s, l), j)
  {
    if j in s.immediate {
      FactsPersist(s, l);
    } else if l.AddPromoted? {
      assert s.workers[l.w] in s.workers && GoodPc(s, s.workers[l.w]);
    }
  }

  lemma DelayedKept(s: System, l: Step, j: Job)
    requires Inv(s) && Enabled(s, l) && j in Apply(s, l).delayed
    ensures var t := Apply(s, l); Waiting(t, j) && t.delayed[j] == Unix(j.processAt)
  {
    FactsPersist(s, l);
    if l.AddRetry? { assert s.workers[l.w] in s.workers && GoodPc(s, s.workers[l.w]); }
  }

  lemma DeadMoves(s: System, l: Step)
    requires Enabled(s, l)
    ensures var t := Apply(s, l);
      s.issued <= t.issued && t.dlq == if l.PushDead? then [s.workers[l.w].dead] + s.dlq else s.dlq
  {
  }

  lemma DeadKept(s: System, l: Step, j: Job)
    requires Inv(s) && Enabled(s, l) && j in Apply(s, l).dlq
    ensures Spent(Apply(s, l), j)
  {
    DeadMoves(s, l);
    if j !in s.dlq { assert s.workers[l.w] in s.workers && GoodPc(s, s.workers[l.w]); }
  }

  lemma FirstFailKept(s: System, l: Step)
    requires Enabled(s, l) && forall id | id in s.firstFail :: s.firstFail[id] <= s.now
    ensures var t := Apply(s, l); forall id | id in t.firstFail :: t.firstFail[id] <= t.now
  {
  }

  lemma CountersMove(s: System, l: Step)
    requires Enabled(s, l) && !l.Tick? && !l.Enqueue?
    ensures var t := Apply(s, l);
      t.lost == {} ==>
        s.lost == {} &&
        t.failedJobs - t.retryJobs - |t.dlq| ==
        s.failedJobs - s.retryJobs - |s.dlq| + Pending([t.workers[l.w]]) - Pending([s.workers[l.w]])
  {
    if l.Lose? { assert Held(s.workers[l.w]).value.id in Apply(s, l).lost; }
  }

  lemma CountersKept(s: System, l: Step)
    requires Inv(s) && Enabled(s, l)
    ensures var t := Apply(s, l);
      t.lost == {} ==> t.failedJobs == t.retryJobs + |t.dlq| + Pending(t.workers)
  {
    if !l.Tick? && !l.Enqueue? && Apply(s, l).lost == {} {
      OneWorkerMoves(s, l);
      PendingUpdate(s.workers, l.w, Apply(s, l).workers[l.w]);
      CountersMove(s, l);
    }
  }

  lemma InvStep(s: System, l: Step)
    requires Inv(s) && Enabled(s, l)
    ensures Inv(Apply(s, l))
  {
    var t := Apply(s, l);
    forall id | id in t.issued ensures Accounted(t, id) {
      if id in s.issued { AccountedKept(s, l, id); } else { NewAccounted(s, l, id); }
    }
    forall pc | pc in t.workers ensures GoodPc(t, pc) { GoodPcKept(s, l, pc); }
    CountersKept(s, l);
    forall j | j in t.immediate ensures Runnable(t, j) { ImmediateKept(s, l, j); }
    forall j | j in t.delayed ensures Waiting(t, j) && t.delayed[j] == Unix(j.processAt) { DelayedKept(s, l, j); }
    forall j | j in t.dlq ensures Spent(t, j) { DeadKept(s, l, j); }
    FirstFailKept(s, l);
  }

  // ---------- whole runs ----------

  lemma {:induction false} RunKeepsInv(s: System, run: seq<Step>)
    requires Inv(s) && Legal(s, run)
    ensures Inv(After(s, run))
    decreases |run|
  {
    if run != [] {
      InvStep(s, run[0]);
      RunKeepsInv(Apply(s, run[0]), run[1..]);
    }
  }

  lemma {:induction false} InitInv(workers: nat, now: int)
    ensures Inv(Init(workers, now))
    decreases workers
  {
    if workers > 0 {
      InitInv(workers - 1, now);
      assert Init(workers, now).workers[1..] == Init(workers - 1, now).workers;
    }
  }

  lemma {:induction false} NothingLostWithoutLoss(s: System, run: seq<Step>)
    requires Legal(s, run) && forall l | l in run :: !l.Lose?
    ensures After(s, run).lost == s.lost
    decreases |run|
  {
    if run != [] {
      assert run[0] in run;
      NothingLostWithoutLoss(Apply(s, run[0]), run[1..]);
    }
  }

  /** Enqueued jobs are at all times queued, in a worker's hands, dead-lettered or
      completed; only a worker that fails while holding a job can lose one.  Jobs in the
      queues have tries left, dead ones have none, and every counted failure is a retry,
      a dead letter, or about to become one. */
  lemma NoJobLost(workers: nat, now: int, run: seq<Step>)
    requires Legal(Init(workers, now), run)
    ensures var s := After(Init(workers, now), run);
      && (forall id | id in s.issued :: Accounted(s, id))
      && (forall j | j in s.immediate || j in s.delayed :: j.attempts < j.maxTries)
      && (forall j | j in s.dlq :: j.attempts == j.maxTries)
      && ((forall l | l in run :: !l.Lose?) ==>
            && (forall id | id in s.issued ::
                  Queued(s, id) || InHands(s, id) || Buried(s, id) || id in s.completed)
            && s.failedJobs == s.retryJobs + |s.dlq| + Pending(s.workers))
  {
    var s0 := Init(workers, now);
    InitInv(workers, now);
    RunKeepsInv(s0, run);
    if forall l | l in run :: !l.Lose? {
      NothingLostWithoutLoss(s0, run);
    }
  }

  // ---------- time between attempts ----------

  /** When the job in this form failed last. */
  function LastFailure(j: Job): int { j.processAt - j.attempts * SECOND }

  /** A failing handler stores its own time as the last failure. */
  lemma FailureIsRecorded(s: System, w: nat)
    requires Enabled(s, Handle(w, Failed))
    ensures var t := Apply(s, Handle(w, Failed));
      var j := s.workers[w].running;
      && (t.workers[w].Retry? ==> LastFailure(t.workers[w].failed) == s.now)
      && j.id in t.firstFail
      && (j.id !in s.firstFail ==> t.firstFail[j.id] == s.now)
  {
  }

  /** What the due time of a job that is due says about its failures. */
  lemma DueIsSpaced(s: System, job: Job)
    requires Runnable(s, job)
    ensures var k := job.attempts;
      && s.now > job.processAt - SECOND
      && (k >= 1 ==>
            && s.now - LastFailure(job) > (k - 1) * SECOND
            && job.id in s.firstFail
            && s.now - s.firstFail[job.id] > k * (k - 1) / 2 * SECOND)
  {
    var k: int := job.attempts;
    if k >= 1 {
      assert k * (k - 1) == (k - 1) * (k - 2) + 2 * (k - 1);
      assert Distance(k + 1) == Distance(k) + k - 1;
    }
  }

  /** A job runs less than one second before its process time at the earliest; attempt
      k + 1 follows failure k by more than k - 1 seconds, and the last of M attempts
      follows the first failure by more than (M - 1)(M - 2)/2 seconds. */
  lemma AttemptsAreSpaced(workers: nat, now: int, run: seq<Step>, w: nat, job: Job)
    requires Legal(Init(workers, now), run)
    requires Enabled(After(Init(workers, now), run), PopMin(w, job))
    ensures var s := After(Init(workers, now), run);
      var k := job.attempts;
      && s.now > job.processAt - SECOND
      && (k >= 1 ==>
            && s.now - LastFailure(job) > (k - 1) * SECOND
            && job.id in s.firstFail
            && s.now - s.firstFail[job.id] > k * (k - 1) / 2 * SECOND)
      && (k >= 1 && k == job.maxTries - 1 ==>
            s.now - s.firstFail[job.id] > (job.maxTries - 1) * (job.maxTries - 2) / 2 * SECOND)
  {
    var s := After(Init(workers, now), run);
    InitInv(workers, now);
    RunKeepsInv(Init(workers, now), run);
    assert Runnable(s, job);
    DueIsSpaced(s, job);
  }

  // ---------- promotion, dead letters and re-warming ----------

  /** Whichever worker reads the delayed set reads the lowest of what is due. */
  lemma PromotionTakesLowestDue(s: System, w: nat, batch: seq<Job>, read: int)
    requires Enabled(s, ReadDelayed(w, batch, read))
    ensures LowestDue(s.delayed, Unix(read), 10, batch)
    ensures Apply(s, ReadDelayed(w, batch, read)).workers[w] == if batch == [] then Pop else Promote(batch)
  {
    RangeIsLowestDue(s.delayed, Unix(read), PROMOTION_COUNT, batch);
  }

  /** A validation job whose key is missing enqueues a fresh warm-up job for the same key and data. */
  lemma RewarmsTheSameKey(s: System, w: nat, spawn: Job, read: int)
    requires Enabled(s, Handle(w, Respawned(spawn, read)))
    ensures var j := s.workers[w].running;
      && j.kind.Validation? && spawn.kind.Warmup? && spawn.payload.key == j.payload.key && spawn.payload.key.Some?
      && spawn.payload.data == j.payload.data && spawn.priority == j.priority
      && spawn.attempts == 0 && spawn.maxTries == 3 && spawn.processAt <= read && spawn.id !in s.issued
    ensures var t := Apply(s, Handle(w, Respawned(spawn, read)));
      spawn in t.immediate && t.immediate[spawn] == Unix(read) - spawn.priority && t.workers[w] == Poll
  {
  }

  // ---------- overtaking ----------

  /** The second of the clock reading with which a member of the immediate set was added last. */
  function AddedAt(s: System, j: Job): int
    requires j in s.immediate
  {
    s.immediate[j] + j.priority
  }

  /** The step adds the job to the immediate set (again). */
  predicate Adds(l: Step, s: System, j: Job)
    requires Enabled(s, l)
  {
    match l
    case Enqueue(job, read) => job == j && job.processAt <= read
    case AddPromoted(w, _) => s.workers[w].moved == j
    case Handle(_, res) => res.Respawned? && res.spawn == j
    case _ => false
  }

  /** The clock reading that such a step uses. */
  function ReadingOf(l: Step, now: int): int {
    match l
    case Enqueue(_, read) => read
    case AddPromoted(_, read) => read
    case Handle(_, res) => if res.Respawned? then res.read else now
    case _ => now
  }

  lemma AddedAtIsTheLastAdd(s: System, l: Step, j: Job)
    requires Enabled(s, l)
    ensures var t := Apply(s, l);
      && (Adds(l, s, j) ==> j in t.immediate && AddedAt(t, j) == Unix(ReadingOf(l, s.now)))
      && (!Adds(l, s, j) && j in t.immediate ==> j in s.immediate && AddedAt(t, j) == AddedAt(s, j))
  {
  }

  /** Nobody stalls for more than d between reading the clock and adding. */
  predicate StallsAtMost(s: System, run: seq<Step>, d: nat)
    requires Legal(s, run)
    decreases |run|
  {
    run != [] ==> ReadingOf(run[0], s.now) >= s.now - d && StallsAtMost(Apply(s, run[0]), run[1..], d)
  }

  lemma UnixIsMonotone(t: int, u: int)
    requires t <= u
    ensures Unix(t) <= Unix(u)
  {
  }

  lemma {:induction false} JoinsLateFrom(s: System, run: seq<Step>, d: nat, b: Job, u: int)
    requires Legal(s, run) && StallsAtMost(s, run, d) && u <= s.now - d
    requires b in s.immediate ==> AddedAt(s, b) >= Unix(u)
    ensures b in After(s, run).immediate ==> AddedAt(After(s, run), b) >= Unix(u)
    decreases |run|
  {
    if run != [] {
      var t := Apply(s, run[0]);
      AddedAtIsTheLastAdd(s, run[0], b);
      UnixIsMonotone(u, ReadingOf(run[0], s.now));
      assert t.now >= s.now;
      JoinsLateFrom(t, run[1..], d, b, u);
    }
  }

  /** Whole seconds, rounded up. */
  function Ceiling(d: nat): nat { (d + SECOND - 1) / SECOND }

  /** With stalls of at most d, a job that joins the immediate set in second u or later is popped
      before a job that was added by a clock reading in second t only if u <= t + (its priority - the
      other's priority) + d in whole seconds. */
  lemma BoundedOvertaking(s: System, run: seq<Step>, d: nat, w: nat, a: Job, b: Job)
    requires Legal(s, run) && StallsAtMost(s, run, d) && Enabled(After(s, run), PopMin(w, b))
    requires a in After(s, run).immediate && b !in s.immediate
    ensures Unix(s.now - d) <= AddedAt(After(s, run), a) + (b.priority - a.priority)
    ensures Unix(s.now) <= AddedAt(After(s, run), a) + (b.priority - a.priority) + Ceiling(d)
  {
    JoinsLateFrom(s, run, d, b, s.now - d);
    assert Unix(s.now) <= Unix(s.now - d) + Ceiling(d);
  }

  /** With priorities in [lo, hi], nothing that joins more than hi - lo seconds and the longest stall
      after a job was added is popped while that job waits. */
  lemma NothingLatePasses(s: System, run: seq<Step>, d: nat, w: nat, a: Job, b: Job, lo: int, hi: int)
    requires Legal(s, run) && StallsAtMost(s, run, d) && lo <= a.priority <= hi && lo <= b.priority <= hi
    requires a in After(s, run).immediate && b !in s.immediate
    requires Unix(s.now) > AddedAt(After(s, run), a) + (hi - lo) + Ceiling(d)
    ensures !Enabled(After(s, run), PopMin(w, b))
  {
    if Enabled(After(s, run), PopMin(w, b)) {
      BoundedOvertaking(s, run, d, w, a, b);
    }
  }
}
