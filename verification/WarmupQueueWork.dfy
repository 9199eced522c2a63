/**
 What the warm-up queue does to a job: promotion, retries and burial change its attempts and its due
 time and nothing else, so that handlers get, and the dead-letter list keeps, the work that was enqueued.
 */
module WarmupQueueWork {
  import opened WarmupQueue

  predicate SameWork(a: Job, b: Job) {
    && a.id == b.id && a.kind == b.kind && a.payload == b.payload
    && a.maxTries == b.maxTries && a.createdAt == b.createdAt && a.priority == b.priority
  }

  predicate InHand(pc: Pc, j: Job) {
    match pc
    case Promote(batch) => j in batch
    case Readd(moved, rest) => j == moved || j in rest
    case Exec(running) => j == running
    case Retry(failed) => j == failed
    case Bury(dead) => j == dead
    case _ => false
  }

  /** The job is in a set, in the dead-letter list or with a worker. */
  ghost predicate Present(s: System, j: Job) {
    || j in s.immediate || j in s.delayed || j in s.dlq
    || exists w :: 0 <= w < |s.workers| && InHand(s.workers[w], j)
  }

  /** The job that a step brings in, from outside or from a validation job. */
  predicate BringsIn(l: Step, j: Job) {
    || (l.Enqueue? && l.job == j)
    || (l.Handle? && l.res.Respawned? && l.res.spawn == j)
  }

  /** A job with the same work was there before, or is brought in. */
  ghost predicate Stems(s: System, l: Step, j: Job) {
    (exists was :: Present(s, was) && SameWork(was, j)) || exists was :: BringsIn(l, was) && SameWork(was, j)
  }

  lemma RangeIsThere(m: map<Job, int>, hi: int, n: nat, range: seq<Job>)
    requires IsRange(m, hi, n, range)
    ensures forall j | j in range :: j in m
  {
    RangeIsLowestDue(m, hi, n, range);
    forall j | j in range ensures j in m {
      var i :| 0 <= i < |range| && range[i] == j;
      assert range[i] in Due(m, hi);
    }
  }

  lemma WasThere(s: System, l: Step, was: Job, j: Job)
    requires Present(s, was) && SameWork(was, j)
    ensures Stems(s, l, j)
  {
  }

  lemma WasBroughtIn(s: System, l: Step, j: Job)
    requires BringsIn(l, j)
    ensures Stems(s, l, j)
  {
    assert SameWork(j, j);
  }

  lemma WasInHand(s: System, l: Step, w: nat, was: Job, j: Job)
    requires w < |s.workers| && InHand(s.workers[w], was) && SameWork(was, j)
    ensures Stems(s, l, j)
  {
    WasThere(s, l, was, j);
  }

  /** A step of another worker leaves this one as it is. */
  lemma OthersHands(s: System, l: Step, w: nat)
    requires Enabled(s, l) && w < |Apply(s, l).workers|
    ensures w < |s.workers|
    ensures l.Tick? || l.Enqueue? || l.w != w ==> Apply(s, l).workers[w] == s.workers[w]
  {
  }

  /** What a worker has in hand after its own step. */
  lemma OwnHand(s: System, l: Step, w: nat, j: Job)
    requires Enabled(s, l) && !l.Tick? && !l.Enqueue? && l.w == w && InHand(Apply(s, l).workers[w], j)
    ensures l.ReadDelayed? ==> j in l.batch
    ensures l.PopMin? ==> j == l.job
    ensures l.Handle? ==> SameWork(s.workers[w].running, j)
    ensures !l.ReadDelayed? && !l.PopMin? && !l.Handle? ==> InHand(s.workers[w], j)
  {
  }

  /** Whatever a worker holds after a step stems from what it held or read. */
  lemma HandStems(s: System, l: Step, w: nat, j: Job)
    requires Enabled(s, l) && w < |Apply(s, l).workers| && InHand(Apply(s, l).workers[w], j)
    ensures Stems(s, l, j)
  {
    OthersHands(s, l, w);
    if l.Tick? || l.Enqueue? || l.w != w {
      WasInHand(s, l, w, j, j);
    } else {
      OwnHand(s, l, w, j);
      if l.ReadDelayed? {
        RangeIsThere(s.delayed, Unix(l.read), PROMOTION_COUNT, l.batch);
        WasThere(s, l, j, j);
      } else if l.PopMin? {
        WasThere(s, l, j, j);
      } else {
        WasInHand(s, l, w, if l.Handle? then s.workers[w].running else j, j);
      }
    }
  }

  lemma StoredStems(s: System, l: Step, j: Job)
    requires Enabled(s, l)
    requires var t := Apply(s, l); j in t.immediate || j in t.delayed || j in t.dlq
    ensures Stems(s, l, j)
  {
    if j in s.immediate || j in s.delayed || j in s.dlq {
      WasThere(s, l, j, j);
    } else {
      match l
      case AddPromoted(w, _) => WasInHand(s, l, w, j, j);
      case AddRetry(w) => WasInHand(s, l, w, j, j);
      case PushDead(w) => WasInHand(s, l, w, j, j);
      case Enqueue(_, _) => WasBroughtIn(s, l, j);
      case Handle(_, _) => WasBroughtIn(s, l, j);
      case _ =>
    }
  }

  lemma StepStems(s: System, l: Step, j: Job)
    requires Enabled(s, l) && Present(Apply(s, l), j)
    ensures Stems(s, l, j)
  {
    var t := Apply(s, l);
    if w :| 0 <= w < |t.workers| && InHand(t.workers[w], j) {
      HandStems(s, l, w, j);
    } else {
      StoredStems(s, l, j);
    }
  }

  /** A job with the same work was there before the run, or a step of the run brings it in. */
  ghost predicate Traced(s: System, run: seq<Step>, j: Job) {
    (exists was :: Present(s, was) && SameWork(was, j))
    || exists i, was :: 0 <= i < |run| && BringsIn(run[i], was) && SameWork(was, j)
  }

  lemma TraceBack(s: System, run: seq<Step>, next: Job, j: Job)
    requires run != [] && Stems(s, run[0], next) && SameWork(next, j)
    ensures Traced(s, run, j)
  {
    if was :| Present(s, was) && SameWork(was, next) {
      assert SameWork(was, j);
    } else {
      var was :| BringsIn(run[0], was) && SameWork(was, next);
      assert SameWork(was, j);
    }
  }

  lemma {:induction false} RunStems(s: System, run: seq<Step>, j: Job)
    requires Legal(s, run) && Present(After(s, run), j)
    ensures Traced(s, run, j)
    decreases |run|
  {
    if run == [] {
      assert SameWork(j, j);
    } else {
      var t, rest := Apply(s, run[0]), run[1..];
      RunStems(t, rest, j);
      if next :| Present(t, next) && SameWork(next, j) {
        StepStems(s, run[0], next);
        TraceBack(s, run, next, j);
      } else {
        var i, was :| 0 <= i < |rest| && BringsIn(rest[i], was) && SameWork(was, j);
        assert BringsIn(run[i + 1], was);
      }
    }
  }

  /** In every run, each job in the queue, in a worker's hands or in the dead-letter list has the kind,
      payload, tries, creation time and priority of the job that was enqueued with its id. */
  lemma WorkIsKept(workers: nat, now: int, run: seq<Step>, j: Job) returns (i: nat, was: Job)
    requires Legal(Init(workers, now), run) && Present(After(Init(workers, now), run), j)
    ensures i < |run| && BringsIn(run[i], was) && SameWork(was, j)
  {
    RunStems(Init(workers, now), run, j);
    i, was :| i < |run| && BringsIn(run[i], was) && SameWork(was, j);
  }
}
