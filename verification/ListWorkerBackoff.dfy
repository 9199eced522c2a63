/**
 Retries over time: any number of list workers, each popping, running and pushing at its own
 pace.  A job carries, beside its own fields, the time it was first meant for and the times at
 which it failed; no step looks at them.
 */
module ListWorkerBackoff {
  import opened ListWorker

  datatype Traced = Traced(job: Job, due: int, failures: seq<int>)

  datatype Hand = Idle | Popped(queue: string, t: Traced) | Running(t: Traced) | Failing(t: Traced)

  datatype Grave = Grave(t: Traced, at: int)

  datatype Setup = Setup(queues: seq<string>, handlers: set<string>)

  /** The workers do not poll the dead list. */
  type Config = c: Setup | DEAD !in c.queues witness Setup([], {})

  datatype System = System(lists: map<string, seq<Traced>>, dead: seq<Grave>, hands: seq<Hand>, clock: int)

  datatype Step =
    | Tick(dt: nat)
    | Enqueue(queue: string, job: Job)
    | Pop(w: nat)
    | Look(w: nat)
    | Succeed(w: nat)
    | Fail(w: nat)
    | Retry(w: nat)
    | Bury(w: nat)

  function In(lists: map<string, seq<Traced>>, q: string): seq<Traced> { if q in lists then lists[q] else [] }

  function FirstOf(lists: map<string, seq<Traced>>, queues: seq<string>, from: nat): (i: nat)
    requires from <= |queues|
    ensures from <= i <= |queues|
    ensures i < |queues| ==> In(lists, queues[i]) != []
    decreases |queues| - from
  {
    if from == |queues| || In(lists, queues[from]) != [] then from else FirstOf(lists, queues, from + 1)
  }

  predicate Enabled(c: Config, s: System, e: Step) {
    match e
    case Tick(_) => true
    case Enqueue(q, job) => q != DEAD && job.attempts == 0
    case Pop(w) => w < |s.hands| && s.hands[w].Idle? && FirstOf(s.lists, c.queues, 0) < |c.queues|
    case Look(w) => w < |s.hands| && s.hands[w].Popped?
    case Succeed(w) => w < |s.hands| && s.hands[w].Running?
    case Fail(w) => w < |s.hands| && s.hands[w].Running?
    case Retry(w) => w < |s.hands| && s.hands[w].Failing? && s.hands[w].t.job.attempts < s.hands[w].t.job.maxTries
    case Bury(w) => w < |s.hands| && s.hands[w].Failing? && s.hands[w].t.job.attempts >= s.hands[w].t.job.maxTries
  }

  function Append(s: System, q: string, t: Traced): System {
    s.(lists := s.lists[q := In(s.lists, q) + [t]])
  }

  function Becomes(s: System, w: nat, h: Hand): System
    requires w < |s.hands|
  {
    s.(hands := s.hands[w := h])
  }

  function FailedAt(t: Traced, clock: int): Traced {
    t.(job := Failed(t.job), failures := t.failures + [clock])
  }

  function Apply(c: Config, s: System, e: Step): System
    requires Enabled(c, s, e)
  {
    match e
    case Tick(dt) => s.(clock := s.clock + dt)
    case Enqueue(q, job) => Append(s, q, Traced(job, job.processAt, []))
    case Pop(w) =>
      var q := c.queues[FirstOf(s.lists, c.queues, 0)];
      Becomes(s.(lists := s.lists[q := In(s.lists, q)[1..]]), w, Popped(q, In(s.lists, q)[0]))
    case Look(w) =>
      var h := s.hands[w];
      if s.clock < h.t.job.processAt then Becomes(Append(s, h.queue, h.t), w, Idle)
      else Becomes(s, w, if h.t.job.kind in c.handlers then Running(h.t) else Idle)
    case Succeed(w) => Becomes(s, w, Idle)
    case Fail(w) => Becomes(s, w, Failing(FailedAt(s.hands[w].t, s.clock)))
    case Retry(w) =>
      var t := s.hands[w].t;
      Becomes(Append(s, RETRY, t.(job := t.job.(processAt := s.clock + Delay(t.job.attempts)))), w, Idle)
    case Bury(w) => Becomes(s.(dead := s.dead + [Grave(s.hands[w].t, s.clock)]), w, Idle)
  }

  function Init(workers: nat): System { System(map[], [], seq(workers, _ => Idle), 0) }

  predicate Legal(c: Config, s: System, steps: seq<Step>)
    decreases |steps|, 0
  {
    steps == [] ||
    (Legal(c, s, steps[..|steps| - 1]) &&
     Enabled(c, After(c, s, steps[..|steps| - 1]), steps[|steps| - 1]))
  }

  function After(c: Config, s: System, steps: seq<Step>): System
    requires Legal(c, s, steps)
    decreases |steps|, 1
  {
    if steps == [] then s else Apply(c, After(c, s, steps[..|steps| - 1]), steps[|steps| - 1])
  }

  ghost predicate Reaches(c: Config, workers: nat, s: System) {
    exists steps :: Legal(c, Init(workers), steps) && After(c, Init(workers), steps) == s
  }

  // ---------- what every reachable state keeps ----------

  /** Failure k came after the delay that failure k - 1 set, and no failure before the first due time. */
  ghost predicate Spaced(due: int, f: seq<int>) {
    (f != [] ==> f[0] >= due && f[0] >= 0) &&
    (forall k: nat :: 1 <= k < |f| ==> Gap(f, k))
  }

  ghost predicate Gap(f: seq<int>, k: nat)
    requires 1 <= k < |f|
  {
    f[k] >= f[k - 1] && f[k] >= f[k - 1] + Delay(k)
  }

  ghost predicate Traceable(t: Traced, clock: int) {
    && t.job.attempts == |t.failures|
    && Spaced(t.due, t.failures)
    && (t.failures != [] ==> Last(t.failures) <= clock)
  }

  function Last(f: seq<int>): int
    requires f != []
  {
    f[|f| - 1]
  }

  ghost predicate Waits(t: Traced, clock: int) {
    && Traceable(t, clock)
    && (t.failures == [] ==> t.job.processAt == t.due)
    && (t.failures != [] ==>
         t.job.attempts < t.job.maxTries && t.job.processAt >= Last(t.failures) + Delay(t.job.attempts))
  }

  ghost predicate HasFailed(t: Traced, clock: int) {
    && Traceable(t, clock)
    && t.failures != []
    && (t.job.attempts == 1 || t.job.attempts <= t.job.maxTries)
  }

  ghost predicate HandInv(h: Hand, clock: int) {
    match h
    case Idle => true
    case Popped(_, t) => Waits(t, clock)
    case Running(t) => Waits(t, clock) && t.job.processAt <= clock
    case Failing(t) => HasFailed(t, clock)
  }

  /** A buried job has used up its tries, and its failures are spaced. */
  ghost predicate GraveInv(g: Grave) {
    HasFailed(g.t, g.at) && g.t.job.attempts >= g.t.job.maxTries
  }

  ghost predicate Inv(s: System) {
    && s.clock >= 0
    && (forall q, i :: q in s.lists && 0 <= i < |s.lists[q]| ==> Waits(s.lists[q][i], s.clock))
    && (forall w :: 0 <= w < |s.hands| ==> HandInv(s.hands[w], s.clock))
    && (forall i :: 0 <= i < |s.dead| ==> GraveInv(s.dead[i]))
  }

  lemma FailSpaces(t: Traced, clock: int)
    requires clock >= 0 && Waits(t, clock) && t.job.processAt <= clock
    ensures HasFailed(FailedAt(t, clock), clock)
  {
    var f, g := t.failures, t.failures + [clock];
    assert Last(g) == clock;
    forall k: nat | 1 <= k < |g| ensures Gap(g, k) {
      if k < |f| { assert Gap(f, k); }
    }
  }

  lemma InvStep(c: Config, s: System, e: Step)
    requires Inv(s) && Enabled(c, s, e)
    ensures Inv(Apply(c, s, e))
  {
    if e.Fail? { FailSpaces(s.hands[e.w].t, s.clock); }
  }

  lemma {:induction false} InvHolds(c: Config, workers: nat, steps: seq<Step>)
    requires Legal(c, Init(workers), steps)
    ensures Inv(After(c, Init(workers), steps))
    decreases |steps|
  {
    if steps != [] {
      InvHolds(c, workers, steps[..|steps| - 1]);
      InvStep(c, After(c, Init(workers), steps[..|steps| - 1]), steps[|steps| - 1]);
    }
  }

  // ---------- which failure histories occur ----------

  function Tries(maxTries: int): nat { if maxTries <= 1 then 1 else maxTries }

  ghost predicate Feasible(maxTries: int, due: int, f: seq<int>) {
    |f| == Tries(maxTries) && Spaced(due, f)
  }

  ghost predicate Buried(s: System, maxTries: int, due: int, f: seq<int>, at: int) {
    exists i :: 0 <= i < |s.dead| && s.dead[i].at == at &&
      s.dead[i].t.failures == f && s.dead[i].t.due == due && s.dead[i].t.job.maxTries == maxTries
  }

  lemma BuriedIsFeasible(c: Config, workers: nat, s: System, maxTries: int, due: int, f: seq<int>, at: int)
    requires Reaches(c, workers, s) && Buried(s, maxTries, due, f, at)
    ensures Feasible(maxTries, due, f) && at >= Last(f)
  {
    var steps :| Legal(c, Init(workers), steps) && After(c, Init(workers), steps) == s;
    InvHolds(c, workers, steps);
    var i :| 0 <= i < |s.dead| && s.dead[i].at == at &&
      s.dead[i].t.failures == f && s.dead[i].t.due == due && s.dead[i].t.job.maxTries == maxTries;
    assert GraveInv(s.dead[i]);
  }

  lemma Extend(c: Config, workers: nat, s: System, e: Step)
    requires Reaches(c, workers, s) && Enabled(c, s, e)
    ensures Reaches(c, workers, Apply(c, s, e))
  {
    var steps :| Legal(c, Init(workers), steps) && After(c, Init(workers), steps) == s;
    assert (steps + [e])[..|steps + [e]| - 1] == steps;
    assert Legal(c, Init(workers), steps + [e]);
    assert After(c, Init(workers), steps + [e]) == Apply(c, s, e);
  }

  function Hands(workers: nat, h: Hand): seq<Hand>
    requires workers >= 1
  {
    seq(workers, _ => Idle)[0 := h]
  }

  /** One job, failed k times, alone on the retry list. */
  function WaitingState(workers: nat, job: Job, f: seq<int>, k: nat): System
    requires workers >= 1 && k <= |f|
  {
    var t := Traced(job.(attempts := k, processAt := if k == 0 then job.processAt else f[k - 1] + Delay(k)), job.processAt, f[..k]);
    System(map[RETRY := [t]], [], Hands(workers, Idle), if k == 0 then 0 else f[k - 1])
  }

  lemma PopsRetry(c: Config, s: System, from: nat)
    requires from <= |c.queues| && s.lists.Keys == {RETRY} && s.lists[RETRY] != []
    requires RETRY in c.queues[from..]
    ensures FirstOf(s.lists, c.queues, from) < |c.queues| && c.queues[FirstOf(s.lists, c.queues, from)] == RETRY
    decreases |c.queues| - from
  {
    if c.queues[from] != RETRY { PopsRetry(c, s, from + 1); }
  }

  /** A job that is due, alone on the retry list, is popped and runs. */
  lemma Starts(c: Config, workers: nat, t: Traced, clock: int) returns (s: System)
    requires workers >= 1 && RETRY in c.queues && t.job.kind in c.handlers && t.job.processAt <= clock
    requires Reaches(c, workers, System(map[RETRY := [t]], [], Hands(workers, Idle), clock))
    ensures Reaches(c, workers, s) && s == System(map[RETRY := []], [], Hands(workers, Running(t)), clock)
  {
    var s1 := System(map[RETRY := [t]], [], Hands(workers, Idle), clock);
    PopsRetry(c, s1, 0);
    Extend(c, workers, s1, Pop(0));
    var s2 := Apply(c, s1, Pop(0));
    assert s2.lists == map[RETRY := []];
    Extend(c, workers, s2, Look(0));
    s := Apply(c, s2, Look(0));
    assert s.hands == Hands(workers, Running(t));
  }

  /** Popped as soon as failure time k comes, and failing at once. */
  lemma FailsOnceMore(c: Config, workers: nat, job: Job, f: seq<int>, k: nat) returns (s: System, t: Traced)
    requires workers >= 1 && RETRY in c.queues && job.kind in c.handlers
    requires k < |f| && Spaced(job.processAt, f)
    requires Reaches(c, workers, WaitingState(workers, job, f, k))
    ensures Reaches(c, workers, s)
    ensures s == System(map[RETRY := []], [], Hands(workers, Failing(t)), f[k])
    ensures t.due == job.processAt && t.failures == f[..k + 1]
    ensures t.job == job.(attempts := k + 1, processAt := t.job.processAt)
  {
    var s0 := WaitingState(workers, job, f, k);
    var t0 := s0.lists[RETRY][0];
    assert k >= 1 ==> Gap(f, k);
    Extend(c, workers, s0, Tick(f[k] - s0.clock));
    var s1 := Starts(c, workers, t0, f[k]);
    Extend(c, workers, s1, Fail(0));
    s := Apply(c, s1, Fail(0));
    t := FailedAt(t0, f[k]);
    assert f[..k] + [f[k]] == f[..k + 1];
    assert s.hands == Hands(workers, Failing(t));
  }

  lemma RetriedWaits(c: Config, workers: nat, s: System, t: Traced, job: Job, f: seq<int>, k: nat)
    requires workers >= 1 && 1 <= k <= |f| && k < job.maxTries
    requires s == System(map[RETRY := []], [], Hands(workers, Failing(t)), f[k - 1])
    requires t.due == job.processAt && t.failures == f[..k]
    requires t.job == job.(attempts := k, processAt := t.job.processAt)
    ensures Enabled(c, s, Retry(0)) && Apply(c, s, Retry(0)) == WaitingState(workers, job, f, k)
  {
    var s', w := Apply(c, s, Retry(0)), WaitingState(workers, job, f, k);
    assert s'.lists[RETRY] == w.lists[RETRY];
    assert s'.lists == w.lists;
    assert s'.hands == w.hands;
  }

  lemma FirstWaits(c: Config, workers: nat, job: Job, f: seq<int>)
    requires workers >= 1 && job.attempts == 0
    ensures Reaches(c, workers, WaitingState(workers, job, f, 0))
  {
    assert Legal(c, Init(workers), []) && After(c, Init(workers), []) == Init(workers);
    Extend(c, workers, Init(workers), Enqueue(RETRY, job));
    var s, w := Apply(c, Init(workers), Enqueue(RETRY, job)), WaitingState(workers, job, f, 0);
    assert f[..0] == [];
    assert s.lists[RETRY] == [Traced(job, job.processAt, [])] == w.lists[RETRY];
    assert s.lists == w.lists;
    assert s.hands == w.hands;
  }

  lemma {:induction false} WaitingIsReached(c: Config, workers: nat, job: Job, f: seq<int>, k: nat)
    requires workers >= 1 && RETRY in c.queues && job.kind in c.handlers && job.attempts == 0
    requires Spaced(job.processAt, f) && k <= |f| && (k > 0 ==> k < job.maxTries)
    ensures Reaches(c, workers, WaitingState(workers, job, f, k))
  {
    if k == 0 {
      FirstWaits(c, workers, job, f);
    } else {
      WaitingIsReached(c, workers, job, f, k - 1);
      var s, t := FailsOnceMore(c, workers, job, f, k - 1);
      RetriedWaits(c, workers, s, t, job, f, k);
      Extend(c, workers, s, Retry(0));
    }
  }

  lemma FeasibleIsBuried(c: Config, workers: nat, job: Job, f: seq<int>) returns (s: System)
    requires workers >= 1 && RETRY in c.queues && job.kind in c.handlers && job.attempts == 0
    requires Feasible(job.maxTries, job.processAt, f)
    ensures Reaches(c, workers, s) && Buried(s, job.maxTries, job.processAt, f, Last(f))
  {
    var k := |f| - 1;
    WaitingIsReached(c, workers, job, f, k);
    var s1, t := FailsOnceMore(c, workers, job, f, k);
    assert f[..k + 1] == f;
    Extend(c, workers, s1, Bury(0));
    s := Apply(c, s1, Bury(0));
    assert s.dead[0] == Grave(t, Last(f));
  }

  /** The failure times a dead job can have are exactly the spaced ones, one for every try. */
  lemma DeadHistoriesAreTheFeasible(c: Config, workers: nat, job: Job, f: seq<int>)
    requires workers >= 1 && RETRY in c.queues && job.kind in c.handlers && job.attempts == 0
    ensures (exists s, at :: Reaches(c, workers, s) && Buried(s, job.maxTries, job.processAt, f, at))
      <==> Feasible(job.maxTries, job.processAt, f)
  {
    if Feasible(job.maxTries, job.processAt, f) {
      var s := FeasibleIsBuried(c, workers, job, f);
    }
    forall s, at | Reaches(c, workers, s) && Buried(s, job.maxTries, job.processAt, f, at)
      ensures Feasible(job.maxTries, job.processAt, f)
    {
      BuriedIsFeasible(c, workers, s, job.maxTries, job.processAt, f, at);
    }
  }

  // ---------- how long the retries take ----------

  lemma {:induction false} Pow2IsMonotone(j: nat, k: nat)
    requires j <= k
    ensures Pow2(j) <= Pow2(k)
  {
    if j < k { Pow2IsMonotone(j, k - 1); }
  }

  lemma Pow2At27()
    ensures Pow2(27) == 134_217_728 && Pow2(28) == 268_435_456
  {
    assert Pow2(7) == 128;
    assert Pow2(14) == 16_384;
    assert Pow2(21) == 2_097_152;
  }

  lemma DelayIsExactIff(k: nat)
    ensures Delay(k) == Pow2(k) * MINUTE <==> k <= 27
  {
    Pow2At27();
    if k <= 27 { Pow2IsMonotone(k, 27); } else { Pow2IsMonotone(28, k); }
  }

  lemma DelayIsAtMostExact(k: nat)
    ensures Delay(k) <= Pow2(k) * MINUTE
    ensures k >= 28 ==> Delay(k) < Pow2(k) * MINUTE
  {
    DelayIsExactIff(k);
    if k >= 28 { Pow2At27(); Pow2IsMonotone(28, k); }
  }

  lemma {:induction false} SpacingAdds(due: int, f: seq<int>, k: nat)
    requires Spaced(due, f) && k < |f| && k <= 27
    ensures f[k] - f[0] >= (Pow2(k + 1) - 2) * MINUTE
  {
    if k > 0 {
      SpacingAdds(due, f, k - 1);
      DelayIsExactIff(k);
      assert Gap(f, k);
    }
  }

  /** Failing as early as the delays allow, from time 0. */
  function Earliest(n: nat): (f: seq<int>)
    requires n >= 1
    ensures |f| == n && f[0] == 0
  {
    if n == 1 then [0]
    else
      var f := Earliest(n - 1);
      f + [f[n - 2] + if Delay(n - 1) > 0 then Delay(n - 1) else 0]
  }

  lemma {:induction false} EarliestIsSpaced(n: nat)
    requires n >= 1
    ensures Spaced(0, Earliest(n))
  {
    if n > 1 {
      var f, g := Earliest(n - 1), Earliest(n);
      EarliestIsSpaced(n - 1);
      forall k: nat | 1 <= k < n ensures Gap(g, k) {
        if k < n - 1 { assert Gap(f, k); }
      }
    }
  }

  lemma {:induction false} EarliestIsEarly(n: nat)
    requires n >= 1
    ensures Last(Earliest(n)) <= (Pow2(n) - 2) * MINUTE
    ensures n >= 29 ==> Last(Earliest(n)) < (Pow2(n) - 2) * MINUTE
  {
    if n > 1 {
      EarliestIsEarly(n - 1);
      DelayIsAtMostExact(n - 1);
    }
  }

  ghost predicate BacksOff(c: Config, workers: nat, maxTries: int) {
    forall s, due, f, at ::
      Reaches(c, workers, s) && Buried(s, maxTries, due, f, at) && f != []
      ==> at - f[0] >= (Pow2(Tries(maxTries)) - 2) * MINUTE
  }

  /** 2^M - 2 minutes lie between the first failure and the death of every dead job exactly if M is at most 28. */
  lemma BacksOffIff(c: Config, workers: nat, maxTries: int, kind: string)
    requires workers >= 1 && RETRY in c.queues && kind in c.handlers
    ensures BacksOff(c, workers, maxTries) <==> maxTries <= 28
  {
    if maxTries <= 28 {
      forall s, due, f, at | Reaches(c, workers, s) && Buried(s, maxTries, due, f, at) && f != []
        ensures at - f[0] >= (Pow2(Tries(maxTries)) - 2) * MINUTE
      {
        BuriedIsFeasible(c, workers, s, maxTries, due, f, at);
        SpacingAdds(due, f, |f| - 1);
      }
    } else {
      var f := Earliest(maxTries);
      EarliestIsSpaced(maxTries);
      EarliestIsEarly(maxTries);
      var s := FeasibleIsBuried(c, workers, Job("", kind, "", 0, maxTries, 0), f);
      assert Buried(s, maxTries, 0, f, Last(f));
      assert Last(f) - f[0] < (Pow2(Tries(maxTries)) - 2) * MINUTE;
    }
  }
}
