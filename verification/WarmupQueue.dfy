/**
 The distributed warm-up queue: an immediate sorted set, a delayed sorted set and a
 dead-letter list in Redis, shared by any number of workers.

 One step is one Redis command of one worker, together with the local work that
 precedes the worker's next command.  A worker's program counter says which command
 comes next and which job it holds.  The clock is in nanoseconds.
 */
module WarmupQueue {
  import opened Wrappers

  const SECOND: int := 1_000_000_000
  const PROMOTION_COUNT: nat := 10

  datatype Kind = Warmup | Batch | Eviction | Validation | Scheduled | Unknown

  datatype Payload = Payload(key: Option<string>, keys: Option<seq<string>>, data: string)

  /** A job as it is marshalled: the sorted-set member is the whole record. */
  datatype Job = Job(id: int, kind: Kind, payload: Payload, attempts: nat, maxTries: int,
                     createdAt: int, processAt: int, priority: int)

  datatype Pc =
    | Poll                                // about to read the delayed set
    | Promote(batch: seq<Job>)            // about to remove batch[0] from the delayed set
    | Readd(moved: Job, rest: seq<Job>)   // removed it, about to add it to the immediate set
    | Pop                                 // about to pop the immediate set
    | Exec(running: Job)                  // popped, handler not finished
    | Retry(failed: Job)                  // about to add it to the delayed set again
    | Bury(dead: Job)                     // about to push it to the dead-letter list

  datatype System = System(
    immediate: map<Job, int>, delayed: map<Job, int>, dlq: seq<Job>,
    workers: seq<Pc>, now: int,
    failedJobs: int, retryJobs: int, processedJobs: int,
    // History: ids ever enqueued, ids completed, ids whose holder lost them,
    // and when an id failed first.
    issued: set<int>, completed: set<int>, lost: set<int>, firstFail: map<int, int>)

  function Unix(t: int): int { t / SECOND }

  function ImmediateScore(now: int, job: Job): int { Unix(now) - job.priority }

  // ---------- handlers ----------

  datatype Outcome = Done | Failed | Respawned(spawn: Job, read: int)

  /** The job that a validation job enqueues when its key is missing from the cache. */
  function Rewarm(id: int, job: Job, now: int): Job {
    Job(id, Warmup, Payload(job.payload.key, None, job.payload.data), 0, 3, now, now, job.priority)
  }

  /** The results a handler may have, over all answers of the cache and of the local pool.
      A re-warm-up of priority 1 always takes the local route. */
  predicate MayEnd(job: Job, now: int, issued: set<int>, res: Outcome) {
    match job.kind
    case Warmup | Scheduled | Eviction => res.Failed? || (res.Done? && job.payload.key.Some?)
    case Batch => if job.payload.keys.Some? then res.Done? else res.Failed?
    case Validation =>
      || res.Failed?
      || (res.Done? && job.payload.key.Some?)
      || (res.Respawned? && job.payload.key.Some? && job.priority != 1
          && res.spawn.id !in issued && res.spawn == Rewarm(res.spawn.id, job, res.spawn.processAt)
          && res.spawn.processAt <= res.read <= now)
    case Unknown => res.Failed?
  }

  // ---------- Redis commands ----------

  predicate IsLowest(m: map<Job, int>, j: Job) {
    j in m && forall k | k in m :: m[j] <= m[k]
  }

  /** ZRANGEBYSCORE -inf hi LIMIT n: the n lowest members with score at most hi. */
  predicate IsRange(m: map<Job, int>, hi: int, n: nat, range: seq<Job>)
    decreases n
  {
    if n == 0 || (forall k | k in m :: m[k] > hi) then range == []
    else range != [] && IsLowest(m, range[0]) && IsRange(m - {range[0]}, hi, n - 1, range[1..])
  }

  lemma {:induction false} LowestExists(m: map<Job, int>) returns (low: Job)
    requires m != map[]
    ensures IsLowest(m, low)
    decreases |m|
  {
    low :| low in m;
    var rest := m - {low};
    if rest == map[] {
      assert forall k | k in m :: k == low || k in rest;
    } else {
      var other := LowestExists(rest);
      assert forall k | k in m :: k == low || k in rest;
      if m[other] < m[low] { low := other; }
    }
  }

  lemma {:induction false} RangeExists(m: map<Job, int>, hi: int, n: nat) returns (range: seq<Job>)
    ensures IsRange(m, hi, n, range)
    decreases n
  {
    if n == 0 || (forall k | k in m :: m[k] > hi) {
      range := [];
    } else {
      var low := LowestExists(m);
      var rest := RangeExists(m - {low}, hi, n - 1);
      range := [low] + rest;
    }
  }

  function Due(m: map<Job, int>, hi: int): set<Job> { set k | k in m && m[k] <= hi }

  /** What a range is for: as many due members as asked for, lowest scores first, and none that is
      left out scores less than one that is taken. */
  ghost predicate LowestDue(m: map<Job, int>, hi: int, n: nat, range: seq<Job>) {
    && (forall j | j in range :: j in Due(m, hi))
    && (forall i, k | 0 <= i < k < |range| :: range[i] != range[k])
    && (forall i, k | 0 <= i < k < |range| :: range[i] in m && range[k] in m && m[range[i]] <= m[range[k]])
    && |range| == (if n < |Due(m, hi)| then n else |Due(m, hi)|)
    && (forall j, k | j in range && k in Due(m, hi) && k !in range :: j in m && m[j] <= m[k])
  }

  lemma DueWithout(m: map<Job, int>, hi: int, j: Job)
    requires j in Due(m, hi)
    ensures Due(m - {j}, hi) == Due(m, hi) - {j} && |Due(m - {j}, hi)| == |Due(m, hi)| - 1
  {
    assert Due(m - {j}, hi) == Due(m, hi) - {j};
  }

  lemma NoneDue(m: map<Job, int>, hi: int)
    requires forall k | k in m :: m[k] > hi
    ensures Due(m, hi) == {}
  {
  }

  lemma LowestJoins(m: map<Job, int>, hi: int, n: nat, range: seq<Job>)
    requires n > 0 && range != [] && IsLowest(m, range[0]) && m[range[0]] <= hi
    requires LowestDue(m - {range[0]}, hi, n - 1, range[1..])
    ensures LowestDue(m, hi, n, range)
  {
    var low, rest := range[0], range[1..];
    DueWithout(m, hi, low);
    assert range == [low] + rest;
    forall j | j in range ensures j in Due(m, hi) && (j == low || j in rest) {}
    forall i, k | 0 <= i < k < |range|
      ensures range[i] != range[k] && range[i] in m && range[k] in m && m[range[i]] <= m[range[k]]
    {
      assert range[k] == rest[k - 1] && rest[k - 1] in rest;
      if i > 0 { assert range[i] == rest[i - 1]; }
    }
    forall j, k | j in range && k in Due(m, hi) && k !in range ensures j in m && m[j] <= m[k] {
      if j != low { assert j in rest && k in Due(m - {low}, hi); }
    }
  }

  lemma HeadIsLowest(m: map<Job, int>, hi: int, n: nat, range: seq<Job>)
    requires range != [] && LowestDue(m, hi, n, range)
    ensures range[0] in Due(m, hi) && IsLowest(m, range[0])
  {
    var low := range[0];
    assert low in range;
    forall k | k in m ensures m[low] <= m[k] {
      if k in Due(m, hi) && k in range { var i :| 0 <= i < |range| && range[i] == k; }
    }
  }

  lemma TailOf(range: seq<Job>)
    requires range != [] && forall i, k | 0 <= i < k < |range| :: range[i] != range[k]
    ensures forall j :: j in range[1..] <==> j in range && j != range[0]
  {
    assert range == [range[0]] + range[1..];
    forall j | j in range[1..] ensures j != range[0] {
      var i :| 0 <= i < |range| - 1 && range[1..][i] == j;
      assert range[i + 1] == j;
    }
  }

  lemma LowestLeaves(m: map<Job, int>, hi: int, n: nat, range: seq<Job>)
    requires n > 0 && range != [] && LowestDue(m, hi, n, range)
    ensures IsLowest(m, range[0]) && LowestDue(m - {range[0]}, hi, n - 1, range[1..])
  {
    var low, rest := range[0], range[1..];
    HeadIsLowest(m, hi, n, range);
    DueWithout(m, hi, low);
    TailOf(range);
    forall i, k | 0 <= i < k < |rest| ensures rest[i] != rest[k] && m[rest[i]] <= m[rest[k]] {
      assert rest[i] == range[i + 1] && rest[k] == range[k + 1];
    }
  }

  /** A range is exactly the lowest due members, in order. */
  lemma {:induction false} RangeIsLowestDue(m: map<Job, int>, hi: int, n: nat, range: seq<Job>)
    ensures IsRange(m, hi, n, range) <==> LowestDue(m, hi, n, range)
    decreases n
  {
    if n == 0 || (forall k | k in m :: m[k] > hi) {
      if n > 0 { NoneDue(m, hi); }
    } else if range != [] {
      RangeIsLowestDue(m - {range[0]}, hi, n - 1, range[1..]);
      if IsRange(m, hi, n, range) { LowestIsDue(m, hi, range[0]); LowestJoins(m, hi, n, range); }
      if LowestDue(m, hi, n, range) { LowestLeaves(m, hi, n, range); }
    } else {
      var k :| k in m && m[k] <= hi;
      assert k in Due(m, hi);
    }
  }

  lemma LowestIsDue(m: map<Job, int>, hi: int, low: Job)
    requires IsLowest(m, low) && exists k :: k in m && m[k] <= hi
    ensures m[low] <= hi
  {
  }

  /** enqueueToRedis: to the delayed set if the job is due later than the clock read, else to the immediate set. */
  function Enqueued(s: System, job: Job, read: int): System {
    var s := s.(issued := s.issued + {job.id});
    if job.processAt > read then s.(delayed := s.delayed[job := Unix(job.processAt)])
    else s.(immediate := s.immediate[job := ImmediateScore(read, job)])
  }

  // ---------- steps ----------

  /** `read` is when the clock was read for the command, which may be some time before it. */
  datatype Step =
    | Tick(dt: nat)
    | Enqueue(job: Job, read: int)
    | ReadDelayed(w: nat, batch: seq<Job>, read: int)
    | RemoveDelayed(w: nat)
    | AddPromoted(w: nat, read: int)
    | PopNothing(w: nat)
    | PopMin(w: nat, job: Job)
    | Handle(w: nat, res: Outcome)
    | AddRetry(w: nat)
    | PushDead(w: nat)
    | Lose(w: nat)        // the worker crashes, or its adding command fails and is ignored

  predicate At(s: System, w: nat) { w < |s.workers| }

  predicate Enabled(s: System, l: Step) {
    match l
    case Tick(_) => true
    case Enqueue(job, read) => read <= s.now && job.id !in s.issued && job.attempts == 0 && job.maxTries >= 1
    case ReadDelayed(w, batch, read) =>
      At(s, w) && s.workers[w].Poll? && read <= s.now && IsRange(s.delayed, Unix(read), PROMOTION_COUNT, batch)
    case RemoveDelayed(w) => At(s, w) && s.workers[w].Promote? && s.workers[w].batch != []
    case AddPromoted(w, read) => At(s, w) && s.workers[w].Readd? && read <= s.now
    case PopNothing(w) => At(s, w) && s.workers[w].Pop? && s.immediate == map[]
    case PopMin(w, job) => At(s, w) && s.workers[w].Pop? && IsLowest(s.immediate, job)
    case Handle(w, res) =>
      At(s, w) && s.workers[w].Exec? && MayEnd(s.workers[w].running, s.now, s.issued, res)
    case AddRetry(w) => At(s, w) && s.workers[w].Retry?
    case PushDead(w) => At(s, w) && s.workers[w].Bury?
    case Lose(w) => At(s, w) && Held(s.workers[w]).Some?
  }

  /** The job that only this worker has. */
  function Held(pc: Pc): Option<Job> {
    match pc
    case Readd(j, _) => Some(j)
    case Exec(j) => Some(j)
    case Retry(j) => Some(j)
    case Bury(j) => Some(j)
    case _ => None
  }

  function Promoting(batch: seq<Job>): Pc { if batch == [] then Pop else Promote(batch) }

  function Goto(s: System, w: nat, pc: Pc): System
    requires At(s, w)
  {
    s.(workers := s.workers[w := pc])
  }

  /** executeJob after the handler returned an error. */
  function Fail(s: System, w: nat, job: Job): System
    requires At(s, w)
  {
    var attempts := job.attempts + 1;
    var s := s.(failedJobs := s.failedJobs + 1,
                firstFail := if job.id in s.firstFail then s.firstFail else s.firstFail[job.id := s.now]);
    if attempts < job.maxTries
    then Goto(s, w, Retry(job.(attempts := attempts, processAt := s.now + attempts * SECOND)))
    else Goto(s, w, Bury(job.(attempts := attempts)))
  }

  function Succeed(s: System, w: nat, job: Job): System
    requires At(s, w)
  {
    Goto(s, w, Poll).(processedJobs := s.processedJobs + 1, completed := s.completed + {job.id})
  }

  function Handled(s: System, w: nat, res: Outcome): System
    requires At(s, w) && s.workers[w].Exec?
  {
    var job := s.workers[w].running;
    match res
    case Done => Succeed(s, w, job)
    case Respawned(spawn, read) => Succeed(Enqueued(s, spawn, read), w, job)
    case Failed => Fail(s, w, job)
  }

  function Apply(s: System, l: Step): System
    requires Enabled(s, l)
  {
    match l
    case Tick(dt) => s.(now := s.now + dt)
    case Enqueue(job, read) => Enqueued(s, job, read)
    case ReadDelayed(w, batch, _) => Goto(s, w, Promoting(batch))
    case RemoveDelayed(w) =>
      var b := s.workers[w].batch;
      Goto(s, w, Readd(b[0], b[1..])).(delayed := s.delayed - {b[0]})
    case AddPromoted(w, read) =>
      var j := s.workers[w].moved;
      Goto(s, w, Promoting(s.workers[w].rest)).(immediate := s.immediate[j := ImmediateScore(read, j)])
    case PopNothing(w) => Goto(s, w, Poll)
    case PopMin(w, job) => Goto(s, w, Exec(job)).(immediate := s.immediate - {job})
    case Handle(w, res) => Handled(s, w, res)
    case AddRetry(w) =>
      var j := s.workers[w].failed;
      Goto(s, w, Poll).(delayed := s.delayed[j := Unix(j.processAt)], retryJobs := s.retryJobs + 1)
    case PushDead(w) => Goto(s, w, Poll).(dlq := [s.workers[w].dead] + s.dlq)
    case Lose(w) =>
      var pc := s.workers[w];
      Goto(s, w, if pc.Readd? then Promoting(pc.rest) else Poll).(lost := s.lost + {Held(pc).value.id})
  }

  // ---------- runs ----------

  predicate Legal(s: System, run: seq<Step>)
    decreases |run|
  {
    run != [] ==> Enabled(s, run[0]) && Legal(Apply(s, run[0]), run[1..])
  }

  function After(s: System, run: seq<Step>): System
    requires Legal(s, run)
    decreases |run|
  {
    if run == [] then s else After(Apply(s, run[0]), run[1..])
  }

  lemma {:induction false} Extend(s: System, run: seq<Step>, l: Step)
    requires Legal(s, run) && Enabled(After(s, run), l)
    ensures Legal(s, run + [l]) && After(s, run + [l]) == Apply(After(s, run), l)
    decreases |run|
  {
    if run == [] {
      assert [l][1..] == [];
    } else {
      Extend(Apply(s, run[0]), run[1..], l);
      assert (run + [l])[1..] == run[1..] + [l];
    }
  }

  function Init(workers: nat, now: int): System {
    System(map[], map[], [], seq(workers, _ => Poll), now, 0, 0, 0, {}, {}, {}, map[])
  }
}
