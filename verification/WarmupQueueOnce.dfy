/**
 How often a job of the warm-up queue completes.  Promotion ignores whether ZREM removed
 anything, so two workers that read the same delayed job both add it to the immediate set.
 A job completes at most once in every run exactly when there is at most one worker.
 */
module WarmupQueueOnce {
  import opened Wrappers
  import opened WarmupQueue
  import opened WarmupQueueSafety

  /** Every success was a different job's. */
  predicate Once(s: System) { s.processedJobs == |s.completed| }

  // ---------- one worker ----------

  predicate InQueue(s: System, j: Job) { j in s.immediate || j in s.delayed }

  function RestOf(pc: Pc): seq<Job> {
    match pc
    case Promote(batch) => batch
    case Readd(_, rest) => rest
    case _ => []
  }

  /** An id has at most one job, in one place, and none once it has ended. */
  ghost predicate QueuesAlone(s: System) {
    && Once(s) && s.completed <= s.issued
    && (forall j | InQueue(s, j) :: j.id in s.issued && j.id !in s.completed)
    && (forall j, k | InQueue(s, j) && InQueue(s, k) && j.id == k.id :: j == k)
    && (forall j | j in s.immediate :: j !in s.delayed)
  }

  ghost predicate HandAlone(s: System, pc: Pc) {
    && (forall j | j in RestOf(pc) :: j in s.delayed)
    && (forall i, k | 0 <= i < k < |RestOf(pc)| :: RestOf(pc)[i] != RestOf(pc)[k])
    && (Held(pc).Some? ==> HeldAlone(s, Held(pc).value.id))
  }

  ghost predicate HeldAlone(s: System, id: int) {
    id in s.issued && id !in s.completed && forall j | InQueue(s, j) :: j.id != id
  }

  ghost predicate Alone(s: System) {
    |s.workers| <= 1 && QueuesAlone(s) && forall pc | pc in s.workers :: HandAlone(s, pc)
  }

  /** The one worker moves: its new hand and the queues can be looked at apart. */
  lemma AloneAgain(s: System, l: Step, pc: Pc)
    requires Alone(s) && Enabled(s, l) && Apply(s, l).workers == [pc]
    requires QueuesAlone(Apply(s, l)) && HandAlone(Apply(s, l), pc)
    ensures Alone(Apply(s, l))
  {
  }

  lemma OneHand(s: System, l: Step)
    requires Alone(s) && Enabled(s, l) && !l.Tick? && !l.Enqueue?
    ensures l.w == 0 && s.workers == [s.workers[0]] && HandAlone(s, s.workers[0])
    ensures Apply(s, l).workers == [Apply(s, l).workers[0]]
  {
    assert s.workers[0] in s.workers;
    OneWorkerMoves(s, l);
  }

  lemma AloneReads(s: System, l: Step)
    requires Alone(s) && Enabled(s, l) && l.ReadDelayed?
    ensures Alone(Apply(s, l))
  {
    RangeFacts(s.delayed, Unix(l.read), PROMOTION_COUNT, l.batch);
    OneHand(s, l);
    AloneAgain(s, l, Promoting(l.batch));
  }

  lemma AloneIdle(s: System, l: Step)
    requires Alone(s) && Enabled(s, l) && (l.Tick? || l.Enqueue?)
    ensures Alone(Apply(s, l))
  {
    var t := Apply(s, l);
    assert t.workers == s.workers;
    if l.Enqueue? {
      assert forall j | InQueue(t, j) :: j == l.job || InQueue(s, j);
    } else {
      FewerQueued(s, t);
    }
  }

  lemma AlonePopsNothing(s: System, l: Step)
    requires Alone(s) && Enabled(s, l) && l.PopNothing?
    ensures Alone(Apply(s, l))
  {
    OneHand(s, l);
    AloneAgain(s, l, Poll);
  }

  lemma FewerQueued(s: System, t: System)
    requires QueuesAlone(s) && t.issued == s.issued && t.completed == s.completed && t.processedJobs == s.processedJobs
    requires t.immediate.Keys <= s.immediate.Keys && t.delayed.Keys <= s.delayed.Keys
    ensures QueuesAlone(t) && forall id | HeldAlone(s, id) :: HeldAlone(t, id)
  {
    assert forall j | InQueue(t, j) :: InQueue(s, j);
  }

  lemma AloneRemoves(s: System, l: Step)
    requires Alone(s) && Enabled(s, l) && l.RemoveDelayed?
    ensures Alone(Apply(s, l))
  {
    OneHand(s, l);
    var t, b := Apply(s, l), s.workers[0].batch;
    FewerQueued(s, t);
    assert b[0] in s.delayed;
    assert HeldAlone(t, b[0].id) by {
      assert forall j | InQueue(t, j) :: InQueue(s, j) && j != b[0];
    }
    RestStays(s, b);
    AloneAgain(s, l, Readd(b[0], b[1..]));
  }

  lemma RestStays(s: System, b: seq<Job>)
    requires b != [] && HandAlone(s, Promote(b))
    ensures forall j | j in b[1..] :: j in s.delayed && j != b[0]
    ensures forall i, k | 0 <= i < k < |b[1..]| :: b[1..][i] != b[1..][k]
  {
    var rest := RestOf(Promote(b));
    forall j | j in b[1..] ensures j in s.delayed && j != b[0] {
      var x: nat :| x < |b| - 1 && b[1..][x] == j;
      assert rest[x + 1] == j && rest[0] != rest[x + 1];
    }
    forall i, k | 0 <= i < k < |b[1..]| ensures b[1..][i] != b[1..][k] {
      assert rest[i + 1] != rest[k + 1];
    }
  }

  lemma AlonePromotes(s: System, l: Step)
    requires Alone(s) && Enabled(s, l) && l.AddPromoted?
    ensures Alone(Apply(s, l))
  {
    OneHand(s, l);
    var t, j := Apply(s, l), s.workers[0].moved;
    assert forall k | InQueue(t, k) :: k == j || InQueue(s, k);
    AloneAgain(s, l, Promoting(s.workers[0].rest));
  }

  lemma AlonePops(s: System, l: Step)
    requires Alone(s) && Enabled(s, l) && l.PopMin?
    ensures Alone(Apply(s, l))
  {
    OneHand(s, l);
    var t := Apply(s, l);
    FewerQueued(s, t);
    assert HeldAlone(t, l.job.id) by {
      assert InQueue(s, l.job);
      assert forall j | InQueue(t, j) :: InQueue(s, j) && j != l.job;
    }
    AloneAgain(s, l, Exec(l.job));
  }

  lemma FailMoves(s: System, w: nat)
    requires Enabled(s, Handle(w, Failed))
    ensures var t := Apply(s, Handle(w, Failed));
      && t.issued == s.issued && t.completed == s.completed && t.processedJobs == s.processedJobs
      && t.immediate == s.immediate && t.delayed == s.delayed
      && Held(t.workers[w]).Some? && Held(t.workers[w]).value.id == s.workers[w].running.id && RestOf(t.workers[w]) == []
  {
  }

  lemma AloneFails(s: System, w: nat)
    requires Alone(s) && Enabled(s, Handle(w, Failed))
    ensures Alone(Apply(s, Handle(w, Failed)))
  {
    OneHand(s, Handle(w, Failed));
    var t := Apply(s, Handle(w, Failed));
    FailMoves(s, w);
    FewerQueued(s, t);
    AloneAgain(s, Handle(w, Failed), t.workers[0]);
  }

  lemma AloneSucceeds(s: System, w: nat)
    requires Alone(s) && Enabled(s, Handle(w, Done))
    ensures Alone(Apply(s, Handle(w, Done)))
  {
    OneHand(s, Handle(w, Done));
    var t := Apply(s, Handle(w, Done));
    assert forall j | InQueue(t, j) :: InQueue(s, j);
    AloneAgain(s, Handle(w, Done), Poll);
  }

  /** A successful validation job is a new job's enqueueing and a plain success. */
  lemma AloneHandles(s: System, w: nat, res: Outcome)
    requires Alone(s) && Enabled(s, Handle(w, res))
    ensures Alone(Apply(s, Handle(w, res)))
  {
    match res {
      case Done => AloneSucceeds(s, w);
      case Failed => AloneFails(s, w);
      case Respawned(spawn, read) =>
        var u := Apply(s, Enqueue(spawn, read));
        AloneIdle(s, Enqueue(spawn, read));
        AloneSucceeds(u, w);
        assert Apply(s, Handle(w, res)) == Apply(u, Handle(w, Done));
    }
  }

  lemma AloneStores(s: System, l: Step)
    requires Alone(s) && Enabled(s, l) && l.AddRetry?
    ensures Alone(Apply(s, l))
  {
    OneHand(s, l);
    var t, j := Apply(s, l), s.workers[0].failed;
    assert forall k | InQueue(t, k) :: k == j || InQueue(s, k);
    AloneAgain(s, l, Poll);
  }

  lemma AloneDrops(s: System, l: Step)
    requires Alone(s) && Enabled(s, l) && (l.PushDead? || l.Lose?)
    ensures Alone(Apply(s, l))
  {
    OneHand(s, l);
    FewerQueued(s, Apply(s, l));
    AloneAgain(s, l, Apply(s, l).workers[0]);
  }

  lemma AloneStep(s: System, l: Step)
    requires Alone(s) && Enabled(s, l)
    ensures Alone(Apply(s, l))
  {
    if l.Tick? || l.Enqueue? {
      AloneIdle(s, l);
    } else if l.PopNothing? {
      AlonePopsNothing(s, l);
    } else if l.ReadDelayed? {
      AloneReads(s, l);
    } else if l.RemoveDelayed? {
      AloneRemoves(s, l);
    } else if l.AddPromoted? {
      AlonePromotes(s, l);
    } else if l.PopMin? {
      AlonePops(s, l);
    } else if l.Handle? {
      AloneHandles(s, l.w, l.res);
    } else if l.AddRetry? {
      AloneStores(s, l);
    } else {
      AloneDrops(s, l);
    }
  }

  lemma {:induction false} AloneRun(s: System, run: seq<Step>)
    requires Alone(s) && Legal(s, run)
    ensures Alone(After(s, run))
    decreases |run|
  {
    if run != [] {
      AloneStep(s, run[0]);
      AloneRun(Apply(s, run[0]), run[1..]);
    }
  }

  // ---------- two workers ----------

  /** Scheduled one second ahead, with a usable payload. */
  const TWICE: Job := Job(1, Scheduled, Payload(Some("key"), None, ""), 0, 3, 0, SECOND, 2)

  /** Workers 0 and 1 have both read TWICE while it was due. */
  lemma BothRead(workers: nat) returns (run: seq<Step>)
    requires workers >= 2
    ensures var s0 := Init(workers, 0);
      && Legal(s0, run)
      && After(s0, run) == s0.(delayed := map[TWICE := 1], now := SECOND, issued := {1},
                               workers := s0.workers[0 := Promote([TWICE])][1 := Promote([TWICE])])
  {
    var s0 := Init(workers, 0);
    run := [];
    Extend(s0, run, Enqueue(TWICE, 0));
    run := run + [Enqueue(TWICE, 0)];
    Extend(s0, run, Tick(SECOND));
    run := run + [Tick(SECOND)];
    var s := After(s0, run);
    assert s.delayed == map[TWICE := 1];
    assert IsRange(s.delayed - {TWICE}, 1, 9, []) && [TWICE][1..] == [];
    assert IsRange(s.delayed, 1, PROMOTION_COUNT, [TWICE]);
    Extend(s0, run, ReadDelayed(0, [TWICE], SECOND));
    run := run + [ReadDelayed(0, [TWICE], SECOND)];
    Extend(s0, run, ReadDelayed(1, [TWICE], SECOND));
    run := run + [ReadDelayed(1, [TWICE], SECOND)];
  }

  /** A worker that still holds TWICE in its batch promotes it, pops it and completes it. */
  lemma PromoteAndRun(s0: System, run: seq<Step>, w: nat) returns (longer: seq<Step>)
    requires Legal(s0, run) && At(After(s0, run), w)
    requires After(s0, run).workers[w] == Promote([TWICE]) && After(s0, run).immediate == map[]
    ensures Legal(s0, longer)
    ensures var s := After(s0, run);
      After(s0, longer) == s.(delayed := s.delayed - {TWICE}, workers := s.workers[w := Poll],
                              processedJobs := s.processedJobs + 1, completed := s.completed + {1})
  {
    var s := After(s0, run);
    longer := run;
    Extend(s0, longer, RemoveDelayed(w));
    longer := longer + [RemoveDelayed(w)];
    Extend(s0, longer, AddPromoted(w, s.now));
    longer := longer + [AddPromoted(w, s.now)];
    assert After(s0, longer).immediate == map[TWICE := ImmediateScore(s.now, TWICE)];
    Extend(s0, longer, PopMin(w, TWICE));
    longer := longer + [PopMin(w, TWICE)];
    assert After(s0, longer).immediate == map[];
    Extend(s0, longer, Handle(w, Done));
    longer := longer + [Handle(w, Done)];
    assert After(s0, longer).workers == s.workers[w := Poll];
  }

  lemma CompletedTwice(workers: nat) returns (run: seq<Step>)
    requires workers >= 2
    ensures Legal(Init(workers, 0), run) && !Once(After(Init(workers, 0), run))
  {
    var s0 := Init(workers, 0);
    var start := BothRead(workers);
    var first := PromoteAndRun(s0, start, 0);
    run := PromoteAndRun(s0, first, 1);
    assert After(s0, run).completed == {1};
  }

  /** No job completes twice in any run, if and only if there is at most one worker. */
  lemma AtMostOnceIffOneWorker(workers: nat)
    ensures (forall run | Legal(Init(workers, 0), run) :: Once(After(Init(workers, 0), run)))
            <==> workers <= 1
  {
    if workers <= 1 {
      forall run | Legal(Init(workers, 0), run) ensures Once(After(Init(workers, 0), run)) {
        AloneRun(Init(workers, 0), run);
      }
    } else {
      var run := CompletedTwice(workers);
    }
  }
}
