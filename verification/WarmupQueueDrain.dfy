/**
 The warm-up queue drains: without outside enqueues, any interleaving of any number of
 workers makes only a bounded number of steps that do something, and as long as a job is
 left, such a step can be reached.

 Two workers may promote the same delayed job, so a job can multiply; the measure pays for
 that in advance.  A delayed job counts once for every worker that could still read it.
 */
module WarmupQueueDrain {
  import opened WarmupQueue
  import opened WarmupQueueSafety

  /** What a job in the immediate set can still cost, with r tries left among n workers.
      A validation job may also spawn a warm-up job with three tries. */
  function Cost(n: nat, validation: bool, r: nat): nat
    decreases validation, r
  {
    if r == 0 then 1
    else n * (Cost(n, validation, r - 1) + 3) + 4 + (if validation then Cost(n, false, 3) else 0)
  }

  function Weight(n: nat, j: Job): (r: nat)
    ensures r >= 1 && (j.attempts < j.maxTries ==> r >= 4)
  {
    Cost(n, j.kind.Validation?, if j.attempts < j.maxTries then j.maxTries - j.attempts else 0)
  }

  // ---------- sums of weights ----------

  function Times(k: nat, x: nat): nat { if k == 0 then 0 else Times(k - 1, x) + x }

  lemma {:induction false} TimesIsProduct(k: nat, x: nat)
    ensures Times(k, x) == k * x
  {
    if k > 0 { TimesIsProduct(k - 1, x); }
  }

  ghost function SetSum(js: set<Job>, n: nat, extra: nat): nat {
    if js == {} then 0
    else var j :| j in js; Weight(n, j) + extra + SetSum(js - {j}, n, extra)
  }

  function SeqSum(js: seq<Job>, n: nat): nat {
    if js == [] then 0 else Weight(n, js[0]) + 2 + SeqSum(js[1..], n)
  }

  lemma {:induction false} SetSumRemove(js: set<Job>, j: Job, n: nat, extra: nat)
    requires j in js
    ensures SetSum(js, n, extra) == Weight(n, j) + extra + SetSum(js - {j}, n, extra)
  {
    var i :| i in js && SetSum(js, n, extra) == Weight(n, i) + extra + SetSum(js - {i}, n, extra);
    if i != j {
      SetSumRemove(js - {i}, j, n, extra);
      SetSumRemove(js - {j}, i, n, extra);
      assert js - {i} - {j} == js - {j} - {i};
    }
  }

  lemma SetSumAdd(js: set<Job>, j: Job, n: nat, extra: nat)
    ensures SetSum(js, n, extra) <= SetSum(js + {j}, n, extra) <= SetSum(js, n, extra) + Weight(n, j) + extra
  {
    if j in js {
      assert js + {j} == js;
    } else {
      SetSumRemove(js + {j}, j, n, extra);
      assert js + {j} - {j} == js;
    }
  }

  lemma {:induction false} SetSumMono(a: set<Job>, b: set<Job>, n: nat, extra: nat)
    requires a <= b
    ensures SetSum(a, n, extra) <= SetSum(b, n, extra)
    decreases b - a
  {
    if j :| j in b && j !in a {
      SetSumMono(a + {j}, b, n, extra);
      SetSumAdd(a, j, n, extra);
    } else {
      assert a == b;
    }
  }

  function Members(js: seq<Job>): set<Job> { set j | j in js }

  /** Reading a batch trades each delayed job's weight for a smaller one. */
  lemma {:induction false} BatchIsCheaper(delayed: set<Job>, batch: seq<Job>, n: nat)
    requires forall j | j in batch :: j in delayed
    requires forall i, k | 0 <= i < k < |batch| :: batch[i] != batch[k]
    ensures SetSum(delayed - Members(batch), n, 3) + SeqSum(batch, n) + |batch| == SetSum(delayed, n, 3)
  {
    if batch == [] {
      assert delayed - Members(batch) == delayed;
    } else {
      SetSumRemove(delayed, batch[0], n, 3);
      BatchIsCheaper(delayed - {batch[0]}, batch[1..], n);
      assert delayed - {batch[0]} - Members(batch[1..]) == delayed - Members(batch) by {
        assert batch == [batch[0]] + batch[1..];
      }
    }
  }

  // ---------- the measure ----------

  function BatchOf(pc: Pc): seq<Job> {
    match pc
    case Promote(batch) => batch
    case Readd(_, rest) => rest
    case _ => []
  }

  function HandCost(pc: Pc, n: nat): nat {
    match pc
    case Readd(j, _) => Weight(n, j) + 1
    case Exec(j) => Weight(n, j) - 1
    case Retry(j) => n * (Weight(n, j) + 3) + 1
    case Bury(j) => 1
    case _ => 0
  }

  ghost function WorkerCost(pc: Pc, delayed: set<Job>, n: nat): nat {
    SetSum(delayed - Members(BatchOf(pc)), n, 3) + SeqSum(BatchOf(pc), n) + HandCost(pc, n)
  }

  ghost function WorkersCost(pcs: seq<Pc>, delayed: set<Job>, n: nat): nat {
    if pcs == [] then 0 else WorkerCost(pcs[0], delayed, n) + WorkersCost(pcs[1..], delayed, n)
  }

  ghost function Measure(s: System): nat {
    SetSum(s.immediate.Keys, |s.workers|, 0) + WorkersCost(s.workers, s.delayed.Keys, |s.workers|)
  }

  lemma {:induction false} WorkersUpdate(pcs: seq<Pc>, w: nat, pc: Pc, delayed: set<Job>, n: nat)
    requires w < |pcs|
    ensures WorkersCost(pcs[w := pc], delayed, n) ==
            WorkersCost(pcs, delayed, n) - WorkerCost(pcs[w], delayed, n) + WorkerCost(pc, delayed, n)
  {
    if w == 0 {
      assert pcs[0 := pc][1..] == pcs[1..];
    } else {
      assert pcs[w := pc][1..] == pcs[1..][w - 1 := pc];
      WorkersUpdate(pcs[1..], w - 1, pc, delayed, n);
    }
  }

  lemma WorkerAddDelayed(pc: Pc, delayed: set<Job>, j: Job, n: nat)
    ensures WorkerCost(pc, delayed, n) <= WorkerCost(pc, delayed + {j}, n)
            <= WorkerCost(pc, delayed, n) + Weight(n, j) + 3
  {
    var seen := Members(BatchOf(pc));
    if j in seen {
      assert delayed + {j} - seen == delayed - seen;
    } else {
      assert delayed + {j} - seen == delayed - seen + {j};
      SetSumAdd(delayed - seen, j, n, 3);
    }
  }

  lemma {:induction false} WorkersAddDelayed(pcs: seq<Pc>, delayed: set<Job>, j: Job, n: nat)
    ensures WorkersCost(pcs, delayed, n) <= WorkersCost(pcs, delayed + {j}, n)
            <= WorkersCost(pcs, delayed, n) + Times(|pcs|, Weight(n, j) + 3)
  {
    if pcs != [] {
      WorkersAddDelayed(pcs[1..], delayed, j, n);
      WorkerAddDelayed(pcs[0], delayed, j, n);
    }
  }

  // ---------- every productive step lowers the measure ----------

  predicate Busy(l: Step) {
    !l.Tick? && !l.PopNothing? && (l.ReadDelayed? ==> l.batch != [])
  }

  /** A step that changes one worker and not the delayed set. */
  lemma WorkerStep(s: System, l: Step)
    requires Enabled(s, l) && !l.Tick? && !l.Enqueue?
    requires Apply(s, l).delayed == s.delayed
    ensures Measure(Apply(s, l)) - SetSum(Apply(s, l).immediate.Keys, |s.workers|, 0) ==
            Measure(s) - SetSum(s.immediate.Keys, |s.workers|, 0)
            - WorkerCost(s.workers[l.w], s.delayed.Keys, |s.workers|)
            + WorkerCost(Apply(s, l).workers[l.w], s.delayed.Keys, |s.workers|)
  {
    OneWorkerMoves(s, l);
    WorkersUpdate(s.workers, l.w, Apply(s, l).workers[l.w], s.delayed.Keys, |s.workers|);
  }

  lemma ReadLowers(s: System, w: nat, batch: seq<Job>, read: int)
    requires Enabled(s, ReadDelayed(w, batch, read))
    ensures Measure(Apply(s, ReadDelayed(w, batch, read))) == Measure(s) - |batch|
  {
    WorkerStep(s, ReadDelayed(w, batch, read));
    RangeFacts(s.delayed, Unix(read), PROMOTION_COUNT, batch);
    BatchIsCheaper(s.delayed.Keys, batch, |s.workers|);
    assert s.delayed.Keys - Members([]) == s.delayed.Keys;
  }

  lemma RemoveLowers(s: System, w: nat)
    requires Enabled(s, RemoveDelayed(w))
    ensures Measure(Apply(s, RemoveDelayed(w))) < Measure(s)
  {
    var n := |s.workers|;
    var t := Apply(s, RemoveDelayed(w));
    var batch := s.workers[w].batch;
    var left := s.delayed.Keys - {batch[0]};
    assert t.delayed.Keys == left;
    WorkersUpdate(s.workers, w, t.workers[w], left, n);
    assert left - Members(batch) == left - Members(batch[1..]) by {
      assert batch == [batch[0]] + batch[1..];
    }
    WorkersAddDelayed(s.workers, left, batch[0], n);
    if batch[0] in s.delayed {
      assert left + {batch[0]} == s.delayed.Keys;
    } else {
      assert left == s.delayed.Keys;
    }
  }

  lemma AddPromotedLowers(s: System, w: nat, read: int)
    requires Enabled(s, AddPromoted(w, read))
    ensures Measure(Apply(s, AddPromoted(w, read))) < Measure(s)
  {
    var j := s.workers[w].moved;
    WorkerStep(s, AddPromoted(w, read));
    assert Apply(s, AddPromoted(w, read)).immediate.Keys == s.immediate.Keys + {j};
    SetSumAdd(s.immediate.Keys, j, |s.workers|, 0);
  }

  lemma PopLowers(s: System, w: nat, job: Job)
    requires Enabled(s, PopMin(w, job))
    ensures Measure(Apply(s, PopMin(w, job))) < Measure(s)
  {
    WorkerStep(s, PopMin(w, job));
    assert Apply(s, PopMin(w, job)).immediate.Keys == s.immediate.Keys - {job};
    SetSumRemove(s.immediate.Keys, job, |s.workers|, 0);
  }

  /** One more attempt costs less than the job was worth, in either outcome. */
  lemma AttemptPays(n: nat, j: Job, failed: Job)
    requires j.attempts < j.maxTries
    requires failed.kind == j.kind && failed.maxTries == j.maxTries && failed.attempts == j.attempts + 1
    ensures HandCost(Exec(j), n) > HandCost(Bury(failed), n)
    ensures failed.attempts < failed.maxTries ==> HandCost(Exec(j), n) > HandCost(Retry(failed), n)
  {
    var r := j.maxTries - j.attempts;
    assert Weight(n, j) == Cost(n, j.kind.Validation?, r);
    assert failed.attempts < failed.maxTries ==> Weight(n, failed) == Cost(n, j.kind.Validation?, r - 1);
  }

  lemma ValidationPaysForSpawn(n: nat, j: Job, spawn: Job)
    requires j.kind.Validation? && j.attempts < j.maxTries
    requires spawn.kind.Warmup? && spawn.attempts == 0 && spawn.maxTries == 3
    ensures HandCost(Exec(j), n) > Weight(n, spawn)
  {
    assert Weight(n, spawn) == Cost(n, false, 3);
    assert Weight(n, j) == Cost(n, true, j.maxTries - j.attempts);
  }

  lemma RespawnLowers(s: System, w: nat, spawn: Job, read: int)
    requires Enabled(s, Handle(w, Respawned(spawn, read))) && s.workers[w].running.attempts < s.workers[w].running.maxTries
    ensures Measure(Apply(s, Handle(w, Respawned(spawn, read)))) < Measure(s)
  {
    var t := Apply(s, Handle(w, Respawned(spawn, read)));
    WorkerStep(s, Handle(w, Respawned(spawn, read)));
    assert t.immediate.Keys == s.immediate.Keys + {spawn};
    SetSumAdd(s.immediate.Keys, spawn, |s.workers|, 0);
    ValidationPaysForSpawn(|s.workers|, s.workers[w].running, spawn);
  }

  lemma FailureLowers(s: System, w: nat)
    requires Enabled(s, Handle(w, Failed)) && s.workers[w].running.attempts < s.workers[w].running.maxTries
    ensures Measure(Apply(s, Handle(w, Failed))) < Measure(s)
  {
    var t := Apply(s, Handle(w, Failed));
    WorkerStep(s, Handle(w, Failed));
    AttemptPays(|s.workers|, s.workers[w].running, if t.workers[w].Retry? then t.workers[w].failed else t.workers[w].dead);
  }

  lemma HandleLowers(s: System, w: nat, res: Outcome)
    requires Enabled(s, Handle(w, res)) && s.workers[w].running.attempts < s.workers[w].running.maxTries
    ensures Measure(Apply(s, Handle(w, res))) < Measure(s)
  {
    match res {
      case Done => WorkerStep(s, Handle(w, Done));
      case Respawned(spawn, read) => RespawnLowers(s, w, spawn, read);
      case Failed => FailureLowers(s, w);
    }
  }

  lemma PutDownLowers(s: System, l: Step)
    requires Inv(s) && Enabled(s, l) && (l.PopNothing? || l.PushDead? || l.Lose?)
    ensures if Busy(l) then Measure(Apply(s, l)) < Measure(s) else Measure(Apply(s, l)) == Measure(s)
  {
    assert s.workers[l.w] in s.workers && GoodPc(s, s.workers[l.w]);
    WorkerStep(s, l);
  }

  lemma RetryLowers(s: System, w: nat)
    requires Enabled(s, AddRetry(w))
    ensures Measure(Apply(s, AddRetry(w))) < Measure(s)
  {
    var n := |s.workers|;
    var j := s.workers[w].failed;
    var t := Apply(s, AddRetry(w));
    assert t.delayed.Keys == s.delayed.Keys + {j};
    WorkersUpdate(s.workers, w, Poll, s.delayed.Keys, n);
    WorkersAddDelayed(t.workers, s.delayed.Keys, j, n);
    TimesIsProduct(n, Weight(n, j) + 3);
  }

  lemma StepLowers(s: System, l: Step)
    requires Inv(s) && Enabled(s, l) && !l.Enqueue?
    ensures Busy(l) ==> Measure(Apply(s, l)) < Measure(s)
    ensures !Busy(l) ==> Measure(Apply(s, l)) == Measure(s)
  {
    assert !l.Tick? ==> s.workers[l.w] in s.workers && GoodPc(s, s.workers[l.w]);
    match l {
      case Tick(_) =>
      case ReadDelayed(w, batch, read) => ReadLowers(s, w, batch, read);
      case RemoveDelayed(w) => RemoveLowers(s, w);
      case AddPromoted(w, read) => AddPromotedLowers(s, w, read);
      case PopMin(w, job) => PopLowers(s, w, job);
      case Handle(w, res) => HandleLowers(s, w, res);
      case AddRetry(w) => RetryLowers(s, w);
      case PopNothing(_) => PutDownLowers(s, l);
      case PushDead(_) => PutDownLowers(s, l);
      case Lose(_) => PutDownLowers(s, l);
    }
  }

  function BusySteps(run: seq<Step>): nat {
    if run == [] then 0 else (if Busy(run[0]) then 1 else 0) + BusySteps(run[1..])
  }

  /** However the workers interleave, they make at most Measure(s) productive steps. */
  lemma {:induction false} QueueDrains(s: System, run: seq<Step>)
    requires Inv(s) && Legal(s, run) && forall l | l in run :: !l.Enqueue?
    ensures BusySteps(run) + Measure(After(s, run)) <= Measure(s)
    decreases |run|
  {
    if run != [] {
      assert run[0] in run;
      InvStep(s, run[0]);
      StepLowers(s, run[0]);
      QueueDrains(Apply(s, run[0]), run[1..]);
    }
  }

  // ---------- and never gets stuck ----------

  predicate Work(s: System) {
    || s.immediate != map[] || s.delayed != map[]
    || exists pc :: pc in s.workers && !pc.Poll? && !pc.Pop?
  }

  function OwnStep(now: int, w: nat, pc: Pc): Step {
    match pc
    case Promote(_) => RemoveDelayed(w)
    case Readd(_, _) => AddPromoted(w, now)
    case Exec(j) => Handle(w, if j.kind.Batch? && j.payload.keys.Some? then Done else Failed)
    case Retry(_) => AddRetry(w)
    case _ => PushDead(w)
  }

  /** From a polling worker, once the first delayed job is due. */
  lemma DelayedProgress(s: System, low: Job) returns (run: seq<Step>)
    requires At(s, 0) && s.workers[0].Poll? && low in s.delayed
    ensures Legal(s, run) && BusySteps(run) == 1 && |run| == 2
    ensures forall l | l in run :: !l.Enqueue? && !l.Lose?
  {
    var wait := if s.delayed[low] <= Unix(s.now) then 0 else (s.delayed[low] - Unix(s.now)) * SECOND;
    var t := Apply(s, Tick(wait));
    var batch := RangeExists(t.delayed, Unix(t.now), PROMOTION_COUNT);
    run := [Tick(wait), ReadDelayed(0, batch, t.now)];
    assert run[1..] == [ReadDelayed(0, batch, t.now)] && run[1..][1..] == [];
    assert t.delayed[low] <= Unix(t.now);
    assert batch != [] && BusySteps([ReadDelayed(0, batch, t.now)]) == 1;
  }

  /** While a job is queued or held, a productive step is at most three steps away. */
  lemma ImmediateProgress(s: System) returns (run: seq<Step>)
    requires s.workers != [] && s.immediate != map[] && (s.workers[0].Poll? || s.workers[0].Pop?)
    ensures Legal(s, run) && BusySteps(run) >= 1 && |run| <= 2
    ensures forall l | l in run :: !l.Enqueue? && !l.Lose?
  {
    var low := LowestExists(s.immediate);
    if s.workers[0].Pop? {
      run := [PopMin(0, low)];
      assert run[1..] == [];
    } else {
      var batch := RangeExists(s.delayed, Unix(s.now), PROMOTION_COUNT);
      run := [ReadDelayed(0, batch, s.now)] + if batch == [] then [PopMin(0, low)] else [];
      assert run[1..] == (if batch == [] then [PopMin(0, low)] else []);
      assert batch == [] ==> run[1..][1..] == [];
    }
  }

  lemma NeverStuck(s: System) returns (run: seq<Step>)
    requires Inv(s) && s.workers != [] && Work(s)
    ensures Legal(s, run) && BusySteps(run) >= 1 && |run| <= 3
    ensures forall l | l in run :: !l.Enqueue? && !l.Lose?
  {
    if pc :| pc in s.workers && !pc.Poll? && !pc.Pop? {
      var w :| 0 <= w < |s.workers| && s.workers[w] == pc;
      run := [OwnStep(s.now, w, pc)];
      assert GoodPc(s, pc) && run[1..] == [];
    } else if s.immediate != map[] {
      run := ImmediateProgress(s);
    } else {
      assert s.workers[0] in s.workers;
      var low :| low in s.delayed;
      if s.workers[0].Poll? {
        run := DelayedProgress(s, low);
      } else {
        var rest := DelayedProgress(Apply(s, PopNothing(0)), low);
        run := [PopNothing(0)] + rest;
        assert run[1..] == rest;
      }
    }
  }

  /** When no work is left, every job ever enqueued is completed, dead-lettered or lost. */
  lemma NothingLeftBehind(s: System)
    requires Inv(s) && !Work(s)
    ensures forall id | id in s.issued :: Buried(s, id) || id in s.completed || id in s.lost
  {
    forall w | 0 <= w < |s.workers| ensures Held(s.workers[w]).None? {
      assert s.workers[w] in s.workers;
    }
  }
}
