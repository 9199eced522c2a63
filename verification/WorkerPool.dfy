/**
 The bounded worker pool: submitters send to a bounded channel under the read lock, workers
 receive from it, a collector counts results under the write lock, and Stop closes the
 channel under the write lock and waits for the workers.

 The model starts after Start and has one Stop.  One step is one channel, lock or context
 operation of one goroutine.
 */
module WorkerPool {
  import opened PriorityQueue

  type Job = WarmupJob

  datatype WorkerPc = Receive | Setting(job: Job) | Reporting | Exited

  datatype SubmitPc =
    | Idle
    | WantRead(job: Job)    // calling RLock
    | Checking(job: Job)    // holds the read lock, about to read running
    | Sending(job: Job)     // about to select
    | Leaving               // about to release the read lock

  datatype StopPc =
    | NotCalled
    | WantLock              // for the other writer to unlock
    | Announced             // keeps new readers out, waits for the others
    | Locked                // about to clear running
    | Closing               // about to close the job channel
    | Waiting               // for the workers to exit
    | Cancelling
    | ClosingResults
    | Unlocking
    | Returned

  datatype CollectorPc = Collect | WantWrite | Announcing | Counting | Gone

  datatype Pool = Pool(
    buffer: seq<Job>, results: nat, running: bool, closed: bool, cancelled: bool, resultsClosed: bool,
    workers: seq<WorkerPc>, submitters: seq<SubmitPc>, stop: StopPc, collector: CollectorPc,
    accepted: seq<Job>,   // SubmitJob returned true
    taken: seq<Job>,      // received by a worker
    passed: seq<Job>)     // handed to cache.Set

  function Capacity(s: Pool): nat { 2 * |s.workers| }

  // ---------- the read-write lock ----------

  predicate HoldsRead(pc: SubmitPc) { pc.Checking? || pc.Sending? || pc.Leaving? }

  predicate StopHolds(pc: StopPc) {
    !pc.NotCalled? && !pc.WantLock? && !pc.Announced? && !pc.Returned?
  }

  predicate NoReaders(s: Pool) { forall pc | pc in s.submitters :: !HoldsRead(pc) }

  /** A writer that has announced itself keeps new readers out. */
  predicate WriterWaits(s: Pool) { s.stop.Announced? || s.collector.Announcing? }

  predicate WriterHolds(s: Pool) { StopHolds(s.stop) || s.collector.Counting? }

  // ---------- steps ----------

  datatype Step =
    | Call(i: nat, job: Job)
    | LockRead(i: nat)
    | Check(i: nat)
    | Accept(i: nat)
    | Refuse(i: nat)
    | UnlockRead(i: nat)
    | Take(w: nat)
    | Exit(w: nat)
    | Pass(w: nat)
    | Report(w: nat)
    | Collecting
    | AnnounceCollector
    | LockCollector
    | UnlockCollector
    | EndCollector
    | CallStop
    | AnnounceStop
    | LockStop
    | NextStop

  predicate Enabled(s: Pool, l: Step) {
    match l
    case Call(i, _) => i < |s.submitters| && s.submitters[i].Idle?
    case LockRead(i) =>
      && i < |s.submitters| && s.submitters[i].WantRead?
      && !WriterHolds(s) && !WriterWaits(s)
    case Check(i) => i < |s.submitters| && s.submitters[i].Checking?
    case Accept(i) => i < |s.submitters| && s.submitters[i].Sending? && |s.buffer| < Capacity(s)
    case Refuse(i) =>
      i < |s.submitters| && s.submitters[i].Sending? && (|s.buffer| >= Capacity(s) || s.cancelled)
    case UnlockRead(i) => i < |s.submitters| && s.submitters[i].Leaving?
    case Take(w) => w < |s.workers| && s.workers[w].Receive? && s.buffer != []
    case Exit(w) =>
      && w < |s.workers|
      && (if s.workers[w].Receive? then (s.closed && s.buffer == []) || s.cancelled
          else s.workers[w].Reporting? && s.cancelled)
    case Pass(w) => w < |s.workers| && s.workers[w].Setting?
    case Report(w) => w < |s.workers| && s.workers[w].Reporting?
    case Collecting => s.collector.Collect? && s.results > 0
    case AnnounceCollector => s.collector.WantWrite? && !WriterHolds(s) && !WriterWaits(s)
    case LockCollector => s.collector.Announcing? && NoReaders(s)
    case UnlockCollector => s.collector.Counting?
    case EndCollector => s.collector.Collect? && ((s.resultsClosed && s.results == 0) || s.cancelled)
    case CallStop => s.stop.NotCalled?
    case AnnounceStop => s.stop.WantLock? && !WriterHolds(s) && !WriterWaits(s)
    case LockStop => s.stop.Announced? && NoReaders(s)
    case NextStop =>
      StopHolds(s.stop) && (s.stop.Waiting? ==> forall pc | pc in s.workers :: pc.Exited?)
  }

  function Submitter(s: Pool, i: nat, pc: SubmitPc): Pool
    requires i < |s.submitters|
  {
    s.(submitters := s.submitters[i := pc])
  }

  function Worker(s: Pool, w: nat, pc: WorkerPc): Pool
    requires w < |s.workers|
  {
    s.(workers := s.workers[w := pc])
  }

  function AfterThat(pc: StopPc): StopPc {
    match pc
    case Locked => Closing
    case Closing => Waiting
    case Waiting => Cancelling
    case Cancelling => ClosingResults
    case ClosingResults => Unlocking
    case _ => Returned
  }

  function Stopping(s: Pool): Pool {
    s.(stop := AfterThat(s.stop),
       running := s.running && !s.stop.Locked?,
       closed := s.closed || s.stop.Closing?,
       cancelled := s.cancelled || s.stop.Cancelling?,
       resultsClosed := s.resultsClosed || s.stop.ClosingResults?)
  }

  predicate OfSubmitter(l: Step) {
    l.Call? || l.LockRead? || l.Check? || l.Accept? || l.Refuse? || l.UnlockRead?
  }

  predicate OfWorker(l: Step) { l.Take? || l.Exit? || l.Pass? || l.Report? }

  function Submitting(s: Pool, l: Step): Pool
    requires Enabled(s, l) && OfSubmitter(l)
  {
    match l
    case Call(i, job) => Submitter(s, i, WantRead(job))
    case LockRead(i) => Submitter(s, i, Checking(s.submitters[i].job))
    case Check(i) => Submitter(s, i, if s.running then Sending(s.submitters[i].job) else Leaving)
    case Accept(i) =>
      var job := s.submitters[i].job;
      Submitter(s, i, Leaving).(buffer := s.buffer + [job], accepted := s.accepted + [job])
    case Refuse(i) => Submitter(s, i, Leaving)
    case UnlockRead(i) => Submitter(s, i, Idle)
  }

  function Working(s: Pool, l: Step): Pool
    requires Enabled(s, l) && OfWorker(l)
  {
    match l
    case Take(w) =>
      Worker(s, w, Setting(s.buffer[0])).(buffer := s.buffer[1..], taken := s.taken + [s.buffer[0]])
    case Exit(w) => Worker(s, w, Exited)
    case Pass(w) => Worker(s, w, Reporting).(passed := s.passed + [s.workers[w].job])
    case Report(w) => Worker(s, w, Receive).(results := if s.results < |s.workers| then s.results + 1 else s.results)
  }

  function Controlling(s: Pool, l: Step): Pool
    requires Enabled(s, l) && !OfSubmitter(l) && !OfWorker(l)
  {
    match l
    case Collecting => s.(collector := WantWrite, results := s.results - 1)
    case AnnounceCollector => s.(collector := Announcing)
    case LockCollector => s.(collector := Counting)
    case UnlockCollector => s.(collector := Collect)
    case EndCollector => s.(collector := Gone)
    case CallStop => s.(stop := WantLock)
    case AnnounceStop => s.(stop := Announced)
    case LockStop => s.(stop := if s.running then Locked else Returned)
    case NextStop => Stopping(s)
  }

  function Apply(s: Pool, l: Step): Pool
    requires Enabled(s, l)
  {
    if OfSubmitter(l) then Submitting(s, l) else if OfWorker(l) then Working(s, l) else Controlling(s, l)
  }

  predicate Legal(s: Pool, run: seq<Step>)
    decreases |run|
  {
    run != [] ==> Enabled(s, run[0]) && Legal(Apply(s, run[0]), run[1..])
  }

  function After(s: Pool, run: seq<Step>): Pool
    requires Legal(s, run)
    decreases |run|
  {
    if run == [] then s else After(Apply(s, run[0]), run[1..])
  }

  /** After Start. */
  function Started(workers: nat, submitters: nat): Pool {
    Pool([], 0, true, false, false, false, seq(workers, _ => Receive), seq(submitters, _ => Idle),
         NotCalled, Collect, [], [], [])
  }

  // ---------- the invariant ----------

  /** How many workers are about to hand this job to cache.Set. */
  function InHands(workers: seq<WorkerPc>, job: Job): nat {
    if workers == [] then 0 else Hand(workers[0], job) + InHands(workers[1..], job)
  }

  function Hand(pc: WorkerPc, job: Job): nat { if pc == Setting(job) then 1 else 0 }

  function Rank(pc: StopPc): nat {
    match pc
    case NotCalled => 0
    case WantLock => 1
    case Announced => 2
    case Locked => 3
    case Closing => 4
    case Waiting => 5
    case Cancelling => 6
    case ClosingResults => 7
    case Unlocking => 8
    case Returned => 9
  }

  /** Accepted jobs were passed on, or are in the channel or in a worker's hands. */
  ghost predicate Conserved(s: Pool) {
    forall job :: ConservedFor(s, job)
  }

  ghost predicate ConservedFor(s: Pool, job: Job) {
    multiset(s.accepted)[job] == multiset(s.passed)[job] + multiset(s.buffer)[job] + InHands(s.workers, job)
  }

  ghost predicate Control(s: Pool) {
    && |s.buffer| <= Capacity(s)
    && (s.running <==> Rank(s.stop) < 4)
    && (s.closed <==> Rank(s.stop) > 4)
    && (s.cancelled <==> Rank(s.stop) > 6)
    && (s.resultsClosed <==> Rank(s.stop) > 7)
    && (StopHolds(s.stop) || s.collector.Counting? ==> NoReaders(s))
    && !((StopHolds(s.stop) || s.stop.Announced?) && (s.collector.Counting? || s.collector.Announcing?))
    && (forall pc | pc in s.submitters :: pc.Sending? ==> s.running)
    && (forall pc | pc in s.workers :: pc.Exited? ==> s.closed && s.buffer == [])
    && (Rank(s.stop) > 5 ==> forall pc | pc in s.workers :: pc.Exited?)
  }

  lemma {:induction false} HandsUpdate(workers: seq<WorkerPc>, w: nat, pc: WorkerPc, job: Job)
    requires w < |workers|
    ensures InHands(workers[w := pc], job) == InHands(workers, job) - Hand(workers[w], job) + Hand(pc, job)
  {
    if w == 0 {
      assert workers[0 := pc][1..] == workers[1..];
    } else {
      assert workers[w := pc][1..] == workers[1..][w - 1 := pc];
      HandsUpdate(workers[1..], w - 1, pc, job);
    }
  }

  lemma ConservedByWorker(s: Pool, l: Step, job: Job)
    requires ConservedFor(s, job) && Enabled(s, l) && OfWorker(l)
    ensures ConservedFor(Apply(s, l), job)
  {
    match l
    case Take(w) =>
      HandsUpdate(s.workers, w, Setting(s.buffer[0]), job);
      assert s.buffer == [s.buffer[0]] + s.buffer[1..];
    case Exit(w) => HandsUpdate(s.workers, w, Exited, job);
    case Pass(w) => HandsUpdate(s.workers, w, Reporting, job);
    case Report(w) => HandsUpdate(s.workers, w, Receive, job);
  }

  lemma SubmitterFrame(s: Pool, l: Step)
    requires Enabled(s, l) && OfSubmitter(l)
    ensures var t := Apply(s, l);
      && t.workers == s.workers && t.passed == s.passed && t.stop == s.stop && t.results == s.results && t.collector == s.collector
      && t.taken == s.taken
      && (if l.Accept? then
            var job := s.submitters[l.i].job;
            t.buffer == s.buffer + [job] && t.accepted == s.accepted + [job]
          else t.buffer == s.buffer && t.accepted == s.accepted)
  {
  }

  lemma WorkerFrame(s: Pool, l: Step)
    requires Enabled(s, l) && OfWorker(l)
    ensures var t := Apply(s, l);
      && |t.workers| == |s.workers| && t.stop == s.stop && t.accepted == s.accepted
      && t.taken + t.buffer == s.taken + s.buffer && s.taken <= t.taken && s.passed <= t.passed
  {
  }

  lemma StoppingFrame(s: Pool)
    ensures var t := Stopping(s);
      && t.workers == s.workers && t.passed == s.passed && t.buffer == s.buffer
      && t.accepted == s.accepted && t.taken == s.taken
      && (StopHolds(s.stop) ==> Rank(t.stop) >= Rank(s.stop))
  {
  }

  lemma ControlFrame(s: Pool, l: Step)
    requires Enabled(s, l) && !OfWorker(l) && !OfSubmitter(l)
    ensures var t := Apply(s, l);
      && t.workers == s.workers && t.passed == s.passed && t.buffer == s.buffer
      && t.accepted == s.accepted && t.taken == s.taken
      && Rank(t.stop) >= Rank(s.stop)
  {
    if l.NextStop? { StoppingFrame(s); }
  }

  lemma OthersLeaveJobs(s: Pool, l: Step)
    requires Enabled(s, l) && !OfWorker(l) && !l.Accept?
    ensures var t := Apply(s, l);
      && t.buffer == s.buffer && t.workers == s.workers
      && t.accepted == s.accepted && t.taken == s.taken && t.passed == s.passed
  {
    if OfSubmitter(l) { SubmitterFrame(s, l); } else { ControlFrame(s, l); }
  }

  lemma ConservedStep(s: Pool, l: Step, job: Job)
    requires ConservedFor(s, job) && Enabled(s, l)
    ensures ConservedFor(Apply(s, l), job)
  {
    if OfWorker(l) {
      ConservedByWorker(s, l, job);
    } else if !l.Accept? {
      OthersLeaveJobs(s, l);
    }
  }

  lemma ControlSubmitter(s: Pool, l: Step)
    requires Control(s) && Enabled(s, l)
    requires l.Call? || l.LockRead? || l.Check? || l.Accept? || l.Refuse? || l.UnlockRead?
    ensures Control(Apply(s, l))
  {
    var t := Apply(s, l);
    assert s.submitters[l.i] in s.submitters;
    assert forall pc | pc in t.submitters :: pc in s.submitters || pc == t.submitters[l.i];
  }

  lemma ControlWorker(s: Pool, l: Step)
    requires Control(s) && Enabled(s, l) && OfWorker(l)
    ensures Control(Apply(s, l))
  {
    var t := Apply(s, l);
    assert s.workers[l.w] in s.workers;
    assert forall pc | pc in t.workers :: pc in s.workers || pc == t.workers[l.w];
  }

  lemma ControlStep(s: Pool, l: Step)
    requires Control(s) && Enabled(s, l)
    ensures Control(Apply(s, l))
  {
    if l.Call? || l.LockRead? || l.Check? || l.Accept? || l.Refuse? || l.UnlockRead? {
      ControlSubmitter(s, l);
    } else if OfWorker(l) {
      ControlWorker(s, l);
    }
  }

  lemma {:induction false} IdleHands(workers: nat, job: Job)
    ensures InHands(seq(workers, _ => Receive), job) == 0
  {
    if workers > 0 {
      assert seq(workers, _ => Receive)[1..] == seq(workers - 1, _ => Receive);
      IdleHands(workers - 1, job);
    }
  }

  lemma {:induction false} RunKeeps(s: Pool, run: seq<Step>)
    requires Control(s) && Conserved(s) && Legal(s, run)
    ensures Control(After(s, run)) && Conserved(After(s, run))
    decreases |run|
  {
    if run != [] {
      ControlStep(s, run[0]);
      forall job ensures ConservedFor(Apply(s, run[0]), job) { ConservedStep(s, run[0], job); }
      RunKeeps(Apply(s, run[0]), run[1..]);
    }
  }

  lemma StartedKeeps(workers: nat, submitters: nat)
    ensures Control(Started(workers, submitters)) && Conserved(Started(workers, submitters))
  {
    forall job ensures ConservedFor(Started(workers, submitters), job) { IdleHands(workers, job); }
  }

  lemma {:induction false} NobodyInHand(workers: seq<WorkerPc>, job: Job)
    requires forall pc | pc in workers :: pc.Exited?
    ensures InHands(workers, job) == 0
  {
    if workers != [] {
      assert workers[0] in workers;
      NobodyInHand(workers[1..], job);
    }
  }

  /** When Stop has returned, every accepted job went to cache.Set exactly once and the
      channel is empty; in every run the buffer keeps its bound, nothing is sent on a closed
      channel, and no channel is closed twice. */
  lemma StopDrainsThePool(workers: nat, submitters: nat, run: seq<Step>)
    requires Legal(Started(workers, submitters), run)
    ensures var s := After(Started(workers, submitters), run);
      && |s.buffer| <= Capacity(s)
      && (s.stop.Returned? ==> multiset(s.passed) == multiset(s.accepted) && s.buffer == [])
      && (forall i: nat | Enabled(s, Accept(i)) || Enabled(s, Refuse(i)) :: !s.closed)
      && (forall w: nat | Enabled(s, Report(w)) :: !s.resultsClosed)
      && (s.stop.Closing? ==> !s.closed) && (s.stop.ClosingResults? ==> !s.resultsClosed)
  {
    var s := After(Started(workers, submitters), run);
    StartedKeeps(workers, submitters);
    RunKeeps(Started(workers, submitters), run);
    forall i: nat | Enabled(s, Accept(i)) || Enabled(s, Refuse(i)) ensures !s.closed {
      assert s.submitters[i] in s.submitters;
    }
    forall w: nat | Enabled(s, Report(w)) ensures !s.resultsClosed {
      assert s.workers[w] in s.workers;
    }
    if s.stop.Returned? {
      if s.workers != [] { assert s.workers[0] in s.workers; }
      forall job ensures multiset(s.passed)[job] == multiset(s.accepted)[job] {
        assert ConservedFor(s, job);
        NobodyInHand(s.workers, job);
      }
    }
  }

  // ---------- the order of the channel ----------

  /** What workers have received, followed by what is in the channel, is what was accepted. */
  predicate InOrder(s: Pool) { s.accepted == s.taken + s.buffer }

  /** Jobs only join a history. */
  lemma HistoriesGrow(s: Pool, l: Step)
    requires Enabled(s, l)
    ensures var t := Apply(s, l);
      s.accepted <= t.accepted && s.taken <= t.taken && s.passed <= t.passed && |t.workers| == |s.workers|
    ensures InOrder(s) ==> InOrder(Apply(s, l))
    ensures !l.Accept? ==> Apply(s, l).accepted == s.accepted
  {
    if OfSubmitter(l) { SubmitterFrame(s, l); } else if OfWorker(l) { WorkerFrame(s, l); } else { ControlFrame(s, l); }
  }

  /** Receiving is first in, first out: in any run the workers receive the jobs in the order in which
      they were accepted, and nothing that was received or passed on is undone. */
  lemma {:induction false} ReceivedInOrder(s: Pool, run: seq<Step>)
    requires Legal(s, run) && InOrder(s)
    ensures var t := After(s, run);
      && t.accepted == t.taken + t.buffer && |t.workers| == |s.workers|
      && s.accepted <= t.accepted && s.taken <= t.taken && s.passed <= t.passed
    decreases |run|
  {
    if run != [] {
      HistoriesGrow(s, run[0]);
      ReceivedInOrder(Apply(s, run[0]), run[1..]);
    }
  }

  lemma {:induction false} NothingAccepted(s: Pool, run: seq<Step>)
    requires Legal(s, run) && InOrder(s) && Accepts(run) == 0
    ensures After(s, run).accepted == s.accepted
    decreases |run|
  {
    if run != [] {
      HistoriesGrow(s, run[0]);
      NothingAccepted(Apply(s, run[0]), run[1..]);
    }
  }

  /** Some jobs have left the front of the channel for the workers. */
  predicate TookTheFront(s: Pool, t: Pool) {
    && t.accepted == s.accepted && |t.buffer| <= |s.buffer|
    && var k := |s.buffer| - |t.buffer|; t.buffer == s.buffer[k..] && t.taken == s.taken + s.buffer[..k]
  }

  lemma SameJobsInOrder(s: Pool, t: Pool)
    requires InOrder(s) && InOrder(t) && t.accepted == s.accepted && s.taken <= t.taken
    ensures TookTheFront(s, t)
  {
    assert t.buffer == s.accepted[|t.taken|..] && t.taken == s.accepted[..|t.taken|];
  }

  /** What a submitter sees while nothing is accepted. */
  lemma WorkersTakeTheFront(s: Pool, run: seq<Step>)
    requires Legal(s, run) && InOrder(s) && Accepts(run) == 0
    ensures TookTheFront(s, After(s, run))
  {
    NothingAccepted(s, run);
    ReceivedInOrder(s, run);
    SameJobsInOrder(s, After(s, run));
  }

  lemma StepThen(s: Pool, l: Step, rest: seq<Step>)
    requires Enabled(s, l)
    ensures Legal(s, [l] + rest) <==> Legal(Apply(s, l), rest)
    ensures Legal(Apply(s, l), rest) ==> After(s, [l] + rest) == After(Apply(s, l), rest)
  {
    assert ([l] + rest)[1..] == rest;
  }

  /** One worker receives, passes and reports, and the run goes on. */
  function RoundThen(rest: seq<Step>): seq<Step> { [Take(0)] + ([Pass(0)] + ([Report(0)] + rest)) }

  function Rounds(k: nat): seq<Step> {
    if k == 0 then [] else RoundThen(Rounds(k - 1))
  }

  lemma AfterRound(s: Pool, rest: seq<Step>) returns (t: Pool)
    requires s.workers != [] && s.workers[0].Receive? && s.buffer != []
    ensures |t.workers| == |s.workers| && t.workers[0].Receive?
    ensures t.buffer == s.buffer[1..] && t.taken == s.taken + [s.buffer[0]] && t.accepted == s.accepted
    ensures Legal(s, RoundThen(rest)) <==> Legal(t, rest)
    ensures Legal(t, rest) ==> After(s, RoundThen(rest)) == After(t, rest)
  {
    StepThen(s, Take(0), [Pass(0)] + ([Report(0)] + rest));
    t := Apply(s, Take(0));
    StepThen(t, Pass(0), [Report(0)] + rest);
    t := Apply(t, Pass(0));
    StepThen(t, Report(0), rest);
    t := Apply(t, Report(0));
  }

  /** And the workers can take as many as there are, at any time. */
  lemma {:induction false} WorkersCanTake(s: Pool, k: nat)
    requires s.workers != [] && s.workers[0].Receive? && k <= |s.buffer|
    ensures Legal(s, Rounds(k)) && TookTheFront(s, After(s, Rounds(k)))
    ensures |After(s, Rounds(k)).buffer| == |s.buffer| - k
    decreases k
  {
    if k > 0 {
      var t := AfterRound(s, Rounds(k - 1));
      WorkersCanTake(t, k - 1);
      OneMoreTaken(s, t, After(t, Rounds(k - 1)));
    }
  }

  lemma OneMoreTaken(s: Pool, t: Pool, u: Pool)
    requires s.buffer != [] && t.buffer == s.buffer[1..] && t.taken == s.taken + [s.buffer[0]] && t.accepted == s.accepted
    requires TookTheFront(t, u)
    ensures TookTheFront(s, u)
  {
    var k := |t.buffer| - |u.buffer|;
    assert [s.buffer[0]] + t.buffer[..k] == s.buffer[..k + 1];
  }

  /** A single worker hands the jobs to cache.Set in the order in which it received them. */
  predicate OneAtATime(s: Pool) {
    && |s.workers| == 1
    && s.taken == s.passed + if s.workers[0].Setting? then [s.workers[0].job] else []
  }

  lemma OneAtATimeStep(s: Pool, l: Step)
    requires Enabled(s, l) && OneAtATime(s)
    ensures OneAtATime(Apply(s, l))
  {
    if !OfWorker(l) && !l.Accept? {
      OthersLeaveJobs(s, l);
    }
  }

  lemma {:induction false} OneAtATimeRun(s: Pool, run: seq<Step>)
    requires Legal(s, run) && OneAtATime(s)
    ensures OneAtATime(After(s, run))
    decreases |run|
  {
    if run != [] {
      OneAtATimeStep(s, run[0]);
      OneAtATimeRun(Apply(s, run[0]), run[1..]);
    }
  }

  /** With one worker cache.Set is called in the order of acceptance, and when Stop has returned it was
      called for exactly the accepted jobs in that order. */
  lemma SingleWorkerKeepsOrder(submitters: nat, run: seq<Step>)
    requires Legal(Started(1, submitters), run)
    ensures var s := After(Started(1, submitters), run);
      s.passed <= s.accepted && (s.stop.Returned? ==> s.passed == s.accepted)
  {
    var start := Started(1, submitters);
    var s := After(start, run);
    OneAtATimeRun(start, run);
    ReceivedInOrder(start, run);
    StopDrainsThePool(1, submitters, run);
    assert s.taken <= s.accepted;
    if s.stop.Returned? {
      StartedKeeps(1, submitters);
      RunKeeps(start, run);
      assert s.workers[0] in s.workers;
    }
  }

  // ---------- Stop returns ----------

  function SubmitCost(pc: SubmitPc): nat {
    match pc
    case WantRead(_) => 0
    case Idle => 1
    case Leaving => 2
    case Sending(_) => 10
    case Checking(_) => 11
  }

  function WorkerCost(pc: WorkerPc): nat {
    match pc
    case Exited => 0
    case Receive => 1
    case Reporting => 6
    case Setting(_) => 7
  }

  function CollectorCost(pc: CollectorPc): nat {
    match pc
    case Gone => 0
    case Collect => 1
    case Counting => 2
    case Announcing => 3
    case WantWrite => 4
  }

  function Sum<T>(s: seq<T>, cost: T -> nat): nat {
    if s == [] then 0 else cost(s[0]) + Sum(s[1..], cost)
  }

  lemma {:induction false} SumUpdate<T>(s: seq<T>, k: nat, x: T, cost: T -> nat)
    requires k < |s|
    ensures Sum(s[k := x], cost) == Sum(s, cost) - cost(s[k]) + cost(x)
  {
    if k == 0 {
      assert s[0 := x][1..] == s[1..];
    } else {
      assert s[k := x][1..] == s[1..][k - 1 := x];
      SumUpdate(s[1..], k - 1, x, cost);
    }
  }

  /** Steps that the pool can still make until Stop returns. */
  function Remaining(s: Pool): nat {
    9 - Rank(s.stop) + 7 * |s.buffer| + 4 * s.results + CollectorCost(s.collector)
    + Sum(s.submitters, SubmitCost) + Sum(s.workers, WorkerCost)
  }

  lemma SubmitterPays(s: Pool, l: Step)
    requires Enabled(s, l) && OfSubmitter(l) && 1 < Rank(s.stop) < 9
    ensures var t := Apply(s, l);
      && t.submitters == s.submitters[l.i := t.submitters[l.i]]
      && 7 * |t.buffer| + SubmitCost(t.submitters[l.i]) < 7 * |s.buffer| + SubmitCost(s.submitters[l.i])
  {
  }

  lemma SubmitterRunsOut(s: Pool, l: Step)
    requires Enabled(s, l) && OfSubmitter(l) && 1 < Rank(s.stop) < 9
    ensures Remaining(Apply(s, l)) < Remaining(s)
  {
    SubmitterPays(s, l);
    SubmitterFrame(s, l);
    SumUpdate(s.submitters, l.i, Apply(s, l).submitters[l.i], SubmitCost);
  }

  lemma WorkerRunsOut(s: Pool, l: Step)
    requires Enabled(s, l) && OfWorker(l)
    ensures Remaining(Apply(s, l)) < Remaining(s)
  {
    SumUpdate(s.workers, l.w, Apply(s, l).workers[l.w], WorkerCost);
  }

  /** Once Stop has been called, every step of anybody brings its return closer. */
  lemma ControlPays(s: Pool, l: Step)
    requires Enabled(s, l) && !OfSubmitter(l) && !OfWorker(l) && 1 < Rank(s.stop) < 9
    ensures var t := Apply(s, l);
      && t.submitters == s.submitters && t.workers == s.workers && t.buffer == s.buffer
      && 4 * t.results + CollectorCost(t.collector) - Rank(t.stop)
           < 4 * s.results + CollectorCost(s.collector) - Rank(s.stop)
  {
  }

  lemma ControlRunsOut(s: Pool, l: Step)
    requires Enabled(s, l) && !OfSubmitter(l) && !OfWorker(l) && 1 < Rank(s.stop) < 9
    ensures Remaining(Apply(s, l)) < Remaining(s)
  {
    ControlPays(s, l);
  }

  lemma StepsRunOut(s: Pool, l: Step)
    requires Enabled(s, l) && 1 < Rank(s.stop) < 9
    ensures Remaining(Apply(s, l)) < Remaining(s)
  {
    if OfSubmitter(l) {
      SubmitterRunsOut(s, l);
    } else if OfWorker(l) {
      WorkerRunsOut(s, l);
    } else {
      ControlRunsOut(s, l);
    }
  }

  lemma StopAdvances(s: Pool, l: Step)
    requires Enabled(s, l)
    ensures Rank(Apply(s, l).stop) >= Rank(s.stop)
  {
    if OfSubmitter(l) { SubmitterFrame(s, l); } else if OfWorker(l) { WorkerFrame(s, l); } else { ControlFrame(s, l); }
  }

  lemma {:induction false} StopAdvancesInRun(s: Pool, run: seq<Step>)
    requires Legal(s, run)
    ensures Rank(After(s, run).stop) >= Rank(s.stop)
    decreases |run|
  {
    if run != [] {
      StopAdvances(s, run[0]);
      StopAdvancesInRun(Apply(s, run[0]), run[1..]);
    }
  }

  /** Once Stop is the announced writer, any run in which it has not returned is this short.  Before
      that it waits for the collector's turns, which Go's mutex ends and the protocol does not. */
  lemma {:induction false} RunIsBounded(s: Pool, run: seq<Step>)
    requires Legal(s, run) && Rank(s.stop) > 1 && Rank(After(s, run).stop) < 9
    ensures |run| <= Remaining(s)
    decreases |run|
  {
    if run != [] {
      var t := Apply(s, run[0]);
      assert Legal(t, run[1..]) && After(s, run) == After(t, run[1..]);
      StopAdvancesInRun(s, run);
      StopAdvances(s, run[0]);
      StepsRunOut(s, run[0]);
      RunIsBounded(t, run[1..]);
    }
  }

  /** Until Stop returns, some goroutine that is already inside the pool can step. */
  lemma StopIsNeverStuck(s: Pool) returns (l: Step)
    requires Control(s) && !s.stop.NotCalled? && !s.stop.Returned?
    ensures Enabled(s, l) && !l.Call? && !l.LockRead?
  {
    if s.stop.WantLock? && !WriterHolds(s) && !WriterWaits(s) {
      l := AnnounceStop;
    } else if s.stop.WantLock? && s.collector.Counting? {
      l := UnlockCollector;
    } else if s.stop.WantLock? || s.stop.Announced? {
      if pc :| pc in s.submitters && HoldsRead(pc) {
        var i :| 0 <= i < |s.submitters| && s.submitters[i] == pc;
        l := if pc.Checking? then Check(i)
             else if pc.Leaving? then UnlockRead(i)
             else if |s.buffer| < Capacity(s) then Accept(i) else Refuse(i);
      } else {
        l := if s.stop.Announced? then LockStop else LockCollector;
      }
    } else if pc :| s.stop.Waiting? && pc in s.workers && !pc.Exited? {
      var w :| 0 <= w < |s.workers| && s.workers[w] == pc;
      l := if pc.Setting? then Pass(w)
           else if pc.Reporting? then Report(w)
           else if s.buffer == [] then Exit(w) else Take(w);
    } else {
      l := NextStop;
    }
  }

  // ---------- room for a batch ----------

  function Accepts(run: seq<Step>): nat {
    if run == [] then 0 else (if run[0].Accept? then 1 else 0) + Accepts(run[1..])
  }

  lemma BufferStep(s: Pool, l: Step)
    requires Enabled(s, l)
    ensures |Apply(s, l).buffer| <= |s.buffer| + (if l.Accept? then 1 else 0)
    ensures |Apply(s, l).workers| == |s.workers|
  {
    if OfSubmitter(l) { SubmitterFrame(s, l); } else if OfWorker(l) { WorkerFrame(s, l); } else { ControlFrame(s, l); }
  }

  lemma {:induction false} BufferGrowth(s: Pool, run: seq<Step>)
    requires Legal(s, run)
    ensures var t := After(s, run);
      |t.buffer| <= |s.buffer| + Accepts(run) && |t.workers| == |s.workers|
    decreases |run|
  {
    if run != [] {
      var t := Apply(s, run[0]);
      assert Legal(t, run[1..]) && After(s, run) == After(t, run[1..]);
      BufferStep(s, run[0]);
      BufferGrowth(t, run[1..]);
    }
  }

  /** From an empty channel, as many jobs as it has room for are all accepted, whatever the
      workers do in between. */
  lemma BatchIsNotDropped(s: Pool, run: seq<Step>, i: nat)
    requires Control(s) && Conserved(s) && Legal(s, run)
    requires s.buffer == [] && Accepts(run) < Capacity(s) && After(s, run).stop.NotCalled?
    ensures !Enabled(After(s, run), Refuse(i))
  {
    BufferGrowth(s, run);
    RunKeeps(s, run);
  }
}
