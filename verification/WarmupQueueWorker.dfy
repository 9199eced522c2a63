/**
 The code of the distributed workers, with the other workers' and the clients' commands in between.

 WarmupQueues holds what Redis and the warmer hold.  Beside it stands the whole system as the protocol
 sees it, the other workers included: every method below is a path of the protocol, interleaved with
 any commands of others, so everything proved about runs of the protocol holds of this code.
 */
module WarmupQueueWorker {
  import opened WarmupQueue
  import opened WarmupQueueSafety

  /** A step of someone else than worker w, who does not use the id. */
  predicate Foreign(l: Step, w: nat, id: int) {
    match l
    case Tick(_) => true
    case Enqueue(job, _) => job.id != id
    case Handle(x, res) => x != w && (res.Respawned? ==> res.spawn.id != id)
    case _ => l.w != w
  }

  lemma ForeignIds(s: System, l: Step, w: nat, id: int)
    requires Enabled(s, l) && Foreign(l, w, id)
    ensures var t := Apply(s, l);
      s.now <= t.now && s.issued <= t.issued && (id in t.issued ==> id in s.issued)
  {
  }

  lemma ForeignKeeps(s: System, l: Step, w: nat, id: int)
    requires Enabled(s, l) && Foreign(l, w, id)
    ensures Since(s, Apply(s, l), w, id)
  {
    ForeignIds(s, l, w, id);
    OneWorkerMoves(s, l);
  }

  /** What worker w finds after others ran. */
  ghost predicate Since(s: System, t: System, w: nat, id: int) {
    && |t.workers| == |s.workers| && (At(s, w) ==> t.workers[w] == s.workers[w])
    && s.now <= t.now && s.issued <= t.issued && (id in t.issued ==> id in s.issued)
  }

  class WarmupQueues {
    var immediate: map<Job, int>
    var delayed: map<Job, int>
    var dlq: seq<Job>
    var now: int
    var lastId: int        // ids come from a clock that never repeats
    var failedJobs: int
    var retryJobs: int
    var processedJobs: int

    var system: System
    ghost const start: System
    ghost var trace: seq<Step>

    ghost predicate Logged()
      reads this
    {
      Legal(start, trace) && After(start, trace) == system
    }

    ghost predicate Valid()
      reads this
    {
      && Logged()
      && immediate == system.immediate && delayed == system.delayed && dlq == system.dlq && now == system.now
      && failedJobs == system.failedJobs && retryJobs == system.retryJobs
      && processedJobs == system.processedJobs
      && forall id | id in system.issued :: id <= lastId
    }

    ghost predicate Is(w: nat, pc: Pc)
      reads this
    {
      At(system, w) && system.workers[w] == pc
    }

    constructor (workers: nat, now: int)
      ensures Valid() && start == Init(workers, now) && system == start && trace == []
    {
      immediate, delayed, dlq, this.now, lastId := map[], map[], [], now, 0;
      failedJobs, retryJobs, processedJobs := 0, 0, 0;
      start, trace, system := Init(workers, now), [], Init(workers, now);
    }

    method Log(l: Step)
      requires Logged() && Enabled(system, l)
      modifies this`trace, this`system
      ensures Logged() && trace == old(trace) + [l] && system == Apply(old(system), l)
    {
      Extend(start, trace, l);
      trace, system := trace + [l], Apply(system, l);
    }

    method RunOthers(steps: seq<Step>, ghost w: nat, ghost id: int)
      requires Logged() && Legal(system, steps) && forall l | l in steps :: Foreign(l, w, id)
      modifies this`trace, this`system
      ensures Logged() && old(trace) <= trace && Since(old(system), system, w, id)
    {
      var others := steps;
      while others != []
        invariant Logged() && Legal(system, others) && (forall l | l in others :: Foreign(l, w, id))
        invariant old(trace) <= trace && Since(old(system), system, w, id)
        decreases |others|
      {
        ForeignKeeps(system, others[0], w, id);
        Log(others[0]);
        others := others[1..];
      }
    }

    /** Before worker w's next command, time passes and others run: any commands but its own, and
        none that uses the id. */
    method Yield(w: nat, id: int)
      requires Valid()
      modifies this
      ensures Valid() && old(trace) <= trace && old(now) <= now && Since(old(system), system, w, id)
    {
      assert Legal(system, []) && forall l | l in [] :: Foreign(l, w, id);
      var others: seq<Step> :| Legal(system, others) && forall l | l in others :: Foreign(l, w, id);
      RunOthers(others, w, id);
      Refresh();
    }

    method Refresh()
      requires Logged()
      modifies this
      ensures Valid() && trace == old(trace) && system == old(system)
    {
      immediate, delayed, dlq, now := system.immediate, system.delayed, system.dlq, system.now;
      failedJobs, retryJobs, processedJobs := system.failedJobs, system.retryJobs, system.processedJobs;
      lastId := AtLeastAll(system.issued);
    }

    /** Called by a client: the clock is read, and others may run before the job is added. */
    method EnqueueToRedis(job: Job)
      requires Valid() && job.id !in system.issued && job.attempts == 0 && job.maxTries >= 1
      modifies this
      ensures Valid() && old(trace) <= trace && trace != [] && trace[|trace| - 1] == Enqueue(job, old(now))
      ensures job.processAt > old(now) ==> job in delayed && delayed[job] == Unix(job.processAt)
      ensures job.processAt <= old(now) ==> job in immediate && immediate[job] == Unix(old(now)) - job.priority
    {
      var read := now;
      Yield(|system.workers|, job.id);
      Log(Enqueue(job, read));
      if job.processAt > read {
        delayed := delayed[job := Unix(job.processAt)];
      } else {
        immediate := immediate[job := Unix(read) - job.priority];
      }
      lastId := if job.id > lastId then job.id else lastId;
    }

    // ---------- single commands ----------

    method RemoveFromDelayed(w: nat, job: Job, ghost rest: seq<Job>)
      requires Valid() && Is(w, Promote([job] + rest))
      modifies this
      ensures Valid() && Is(w, Readd(job, rest)) && trace == old(trace) + [RemoveDelayed(w)] && now == old(now)
    {
      Log(RemoveDelayed(w));
      assert ([job] + rest)[1..] == rest;
      delayed := delayed - {job};
    }

    method AddToImmediate(w: nat, job: Job, read: int, ghost rest: seq<Job>)
      requires Valid() && Is(w, Readd(job, rest)) && read <= now
      modifies this
      ensures Valid() && Is(w, Promoting(rest)) && trace == old(trace) + [AddPromoted(w, read)]
    {
      Log(AddPromoted(w, read));
      immediate := immediate[job := Unix(read) - job.priority];
    }

    method AddToDelayed(w: nat, job: Job)
      requires Valid() && Is(w, Retry(job))
      modifies this
      ensures Valid() && Is(w, Poll) && trace == old(trace) + [AddRetry(w)]
    {
      Log(AddRetry(w));
      delayed := delayed[job := Unix(job.processAt)];
      retryJobs := retryJobs + 1;
    }

    method PushToDlq(w: nat, job: Job)
      requires Valid() && Is(w, Bury(job))
      modifies this
      ensures Valid() && Is(w, Poll) && trace == old(trace) + [PushDead(w)]
    {
      Log(PushDead(w));
      dlq := [job] + dlq;
    }

    // ---------- the worker ----------

    method ReadDue(w: nat, read: int) returns (jobs: seq<Job>)
      requires Valid() && Is(w, Poll) && read <= now
      modifies this
      ensures Valid() && Is(w, Promoting(jobs)) && trace == old(trace) + [ReadDelayed(w, jobs, read)]
      ensures IsRange(old(delayed), Unix(read), PROMOTION_COUNT, jobs)
      ensures LowestDue(old(delayed), Unix(read), PROMOTION_COUNT, jobs)
    {
      jobs := ZRangeByScore(delayed, Unix(read), PROMOTION_COUNT);
      Log(ReadDelayed(w, jobs, read));
    }

    method PromoteOne(w: nat, job: Job, ghost rest: seq<Job>)
      requires Valid() && Is(w, Promote([job] + rest))
      modifies this
      ensures Valid() && Is(w, Promoting(rest)) && old(trace) <= trace
    {
      RemoveFromDelayed(w, job, rest);
      Yield(w, 0);
      var read := now;
      Yield(w, 0);
      AddToImmediate(w, job, read, rest);
    }

    method PromoteAll(w: nat, jobs: seq<Job>)
      requires Valid() && Is(w, Promoting(jobs))
      modifies this
      ensures Valid() && Is(w, Pop) && old(trace) <= trace
    {
      var i := 0;
      while i < |jobs|
        invariant i <= |jobs| && Valid() && old(trace) <= trace
        invariant Is(w, Promoting(jobs[i..]))
      {
        assert jobs[i..] == [jobs[i]] + jobs[i + 1..];
        Yield(w, 0);
        PromoteOne(w, jobs[i], jobs[i + 1..]);
        i := i + 1;
      }
    }

    /** moveDelayedJobs: it reads the ten lowest of what is then due, and everything it reads is added
        to the immediate set by this worker, whoever else read it too. */
    method MoveDelayedJobs(w: nat) returns (jobs: seq<Job>, ghost before: seq<Step>)
      requires Valid() && Is(w, Poll)
      modifies this
      ensures Valid() && Is(w, Pop) && old(trace) <= before
      ensures Legal(start, before) && before + [ReadDelayed(w, jobs, old(now))] <= trace
      ensures LowestDue(After(start, before).delayed, Unix(old(now)), PROMOTION_COUNT, jobs)
    {
      var read := now;
      Yield(w, 0);
      before := trace;
      jobs := ReadDue(w, read);
      PromoteAll(w, jobs);
    }

    /** The switch of executeJob: the cache answers, and a validation job may enqueue a
        warm-up job under a new id. */
    method RunHandler(job: Job, read: int) returns (res: Outcome)
      requires Valid() && read <= now
      ensures MayEnd(job, now, system.issued, res)
    {
      var cacheOk: bool :| true;
      var toRedis: bool :| true;
      match job.kind {
        case Batch => res := if job.payload.keys.Some? then Done else Failed;
        case Unknown => res := Failed;
        case Validation =>
          if job.payload.key.None? || !cacheOk {
            res := Failed;
          } else if toRedis && job.priority != 1 {
            res := Respawned(Rewarm(lastId + 1, job, read), read);
          } else {
            res := Done;
          }
        case _ => res := if job.payload.key.None? || !cacheOk then Failed else Done;
      }
    }

    /** The part of executeJob after the switch, up to the next command. */
    method FinishJob(w: nat, popped: Job, res: Outcome)
      requires Valid() && Is(w, Exec(popped)) && MayEnd(popped, now, system.issued, res)
      modifies this
      ensures Valid() && trace == old(trace) + [Handle(w, res)] && now == old(now)
      ensures Is(w, if !res.Failed? then Poll
                    else if popped.attempts + 1 < popped.maxTries
                    then Retry(popped.(attempts := popped.attempts + 1,
                                       processAt := now + (popped.attempts + 1) * SECOND))
                    else Bury(popped.(attempts := popped.attempts + 1)))
    {
      Log(Handle(w, res));
      match res {
        case Failed => failedJobs := failedJobs + 1;
        case Done => processedJobs := processedJobs + 1;
        case Respawned(job, read) =>
          immediate := immediate[job := Unix(read) - job.priority];
          lastId := if job.id > lastId then job.id else lastId;
          processedJobs := processedJobs + 1;
      }
    }

    method ExecuteJob(w: nat, popped: Job)
      requires Valid() && Is(w, Exec(popped))
      modifies this
      ensures Valid() && Is(w, Poll) && old(trace) <= trace
    {
      Yield(w, 0);
      var read := now;
      Yield(w, 0);
      var res := RunHandler(popped, read);
      FinishJob(w, popped, res);
      if res.Failed? {
        var job := popped.(attempts := popped.attempts + 1);
        if job.attempts < job.maxTries {
          job := job.(processAt := now + job.attempts * SECOND);
          Yield(w, 0);
          AddToDelayed(w, job);
        } else {
          Yield(w, 0);
          PushToDlq(w, job);
        }
      }
    }

    /** processImmediateJobs: pops one job of minimal score, if any, and executes it. */
    method ProcessImmediateJobs(w: nat)
      requires Valid() && Is(w, Pop)
      modifies this
      ensures Valid() && Is(w, Poll) && old(trace) <= trace
    {
      if immediate == map[] {
        Log(PopNothing(w));
        return;
      }
      ghost var some := LowestExists(immediate);
      var job :| job in immediate && forall k | k in immediate :: immediate[job] <= immediate[k];
      Log(PopMin(w, job));
      immediate := immediate - {job};
      ExecuteJob(w, job);
    }

    /** processJobs: what a worker does at every tick of its timer. */
    method ProcessJobs(w: nat)
      requires Valid() && Is(w, Poll)
      modifies this
      ensures Valid() && Is(w, Poll) && old(trace) <= trace
    {
      var jobs, _ := MoveDelayedJobs(w);
      Yield(w, 0);
      ProcessImmediateJobs(w);
    }
  }

  method AtLeastAll(ids: set<int>) returns (most: int)
    ensures forall id | id in ids :: id <= most
    decreases ids
  {
    most := 0;
    if id: int :| id in ids {
      most := AtLeastAll(ids - {id});
      assert forall k | k in ids :: k == id || k in ids - {id};
      if id > most {
        most := id;
      }
    }
  }

  /** ZRANGEBYSCORE -inf hi LIMIT n. */
  method ZRangeByScore(m: map<Job, int>, hi: int, n: nat) returns (range: seq<Job>)
    ensures IsRange(m, hi, n, range) && LowestDue(m, hi, n, range)
  {
    range := TakeLowest(m, hi, n);
    RangeIsLowestDue(m, hi, n, range);
  }

  method TakeLowest(m: map<Job, int>, hi: int, n: nat) returns (range: seq<Job>)
    ensures IsRange(m, hi, n, range)
    decreases n
  {
    if n == 0 || (forall k | k in m :: m[k] > hi) {
      return [];
    }
    ghost var some := LowestExists(m);
    var low :| low in m && forall k | k in m :: m[low] <= m[k];
    var rest := TakeLowest(m - {low}, hi, n - 1);
    range := [low] + rest;
  }
}
