/**
 The circuit breaker in front of the second cache level.  Asking for admission and
 recording an outcome are separate critical sections, so calls in flight overlap.
 */
module CircuitBreaker {
  datatype State = Closed | Open | HalfOpen

  datatype Config = Config(maxFailures: int, timeout: int, halfOpenMaxCalls: int)

  const DEFAULT_CONFIG := Config(5, 30_000_000_000, 3)

  datatype Breaker = Breaker(state: State, failures: int, successes: int, lastFailure: int)

  const INITIAL := Breaker(Closed, 0, 0, 0)

  // ---------- the effect of one critical section ----------

  predicate ResetDue(c: Config, b: Breaker, now: int) { now - b.lastFailure >= c.timeout }

  predicate Admits(c: Config, b: Breaker, now: int) {
    match b.state
    case Closed => true
    case Open => ResetDue(c, b, now)
    case HalfOpen => b.successes < c.halfOpenMaxCalls
  }

  function AfterFailure(c: Config, b: Breaker, now: int): Breaker {
    var failed := b.(failures := b.failures + 1, lastFailure := now);
    match b.state
    case Closed => if failed.failures >= c.maxFailures then failed.(state := Open) else failed
    case Open => failed
    case HalfOpen => failed.(state := Open, successes := 0)
  }

  function AfterSuccess(c: Config, b: Breaker, now: int): Breaker {
    match b.state
    case Closed => b.(failures := 0)
    case Open => if ResetDue(c, b, now) then b.(state := HalfOpen, successes := 1) else b
    case HalfOpen =>
      if b.successes + 1 >= c.halfOpenMaxCalls then b.(state := Closed, failures := 0, successes := 0)
      else b.(successes := b.successes + 1)
  }

  class CircuitBreaker {
    var state: State
    var failureCount: int
    var successCount: int
    var lastFailureTime: int
    const config: Config

    function View(): Breaker
      reads this
    {
      Breaker(state, failureCount, successCount, lastFailureTime)
    }

    constructor (config: Config)
      ensures View() == INITIAL && this.config == config
    {
      this.config := config;
      state, failureCount, successCount, lastFailureTime := Closed, 0, 0, 0;
    }

    method Allow(now: int) returns (ok: bool)
      ensures ok <==> Admits(config, View(), now)
    {
      match state {
        case Closed => ok := true;
        case Open => ok := now - lastFailureTime >= config.timeout;
        case HalfOpen => ok := successCount < config.halfOpenMaxCalls;
      }
    }

    method RecordFailure(now: int)
      modifies this
      ensures View() == AfterFailure(config, old(View()), now)
    {
      failureCount := failureCount + 1;
      lastFailureTime := now;
      match state {
        case Closed =>
          if failureCount >= config.maxFailures {
            state := Open;
          }
        case HalfOpen =>
          state := Open;
          successCount := 0;
        case Open =>
      }
    }

    method RecordSuccess(now: int)
      modifies this
      ensures View() == AfterSuccess(config, old(View()), now)
    {
      match state {
        case Closed => failureCount := 0;
        case HalfOpen =>
          successCount := successCount + 1;
          if successCount >= config.halfOpenMaxCalls {
            state := Closed;
            failureCount := 0;
            successCount := 0;
          }
        case Open =>
          if now - lastFailureTime >= config.timeout {
            state := HalfOpen;
            successCount := 1;
          }
      }
    }
  }
}

/**
 The breaker's state described by its outcome log alone, and its recovery.
 A log stays fixed here; indices say which part of it is meant.
 */
module CircuitBreakerHistory {
  import opened CircuitBreaker

  datatype Event = Failure(at: int) | Success(at: int)

  function Record(c: Config, b: Breaker, e: Event): Breaker {
    match e
    case Failure(at) => AfterFailure(c, b, at)
    case Success(at) => AfterSuccess(c, b, at)
  }

  /** The breaker after the first n outcomes. */
  function Replay(c: Config, log: seq<Event>, n: nat): Breaker
    requires n <= |log|
  {
    if n == 0 then INITIAL else Record(c, Replay(c, log, n - 1), log[n - 1])
  }

  predicate Timed(log: seq<Event>) {
    forall i, j | 0 <= i < j < |log| :: log[i].at <= log[j].at
  }

  // ---------- a log read as a whole ----------

  /** Even with maxFailures below 1 it takes a failure to open the breaker. */
  function Threshold(c: Config): nat { if c.maxFailures < 1 then 1 else c.maxFailures }

  /** The first success only half-opens the breaker, so it never closes on fewer than 2. */
  function Quorum(c: Config): nat { if c.halfOpenMaxCalls < 2 then 2 else c.halfOpenMaxCalls }

  /** How many outcomes in a row, up to n and back to lo, are failures. */
  function FailureRun(log: seq<Event>, lo: nat, n: nat): nat
    requires n <= |log|
    decreases n
  {
    if n <= lo || log[n - 1].Success? then 0 else 1 + FailureRun(log, lo, n - 1)
  }

  /** Somewhere between lo and n there are enough failures in a row. */
  ghost predicate Tripped(c: Config, log: seq<Event>, lo: nat, n: nat)
    requires n <= |log|
  {
    exists i | lo <= i <= n :: FailureRun(log, lo, i) >= Threshold(c)
  }

  /** Where the successes after the last failure between lo and n start. */
  function Recovery(log: seq<Event>, lo: nat, n: nat): (r: nat)
    requires n <= |log|
    ensures r <= n
    decreases n
  {
    if n <= lo || log[n - 1].Failure? then n else Recovery(log, lo, n - 1)
  }

  /** When the last failure between lo and n was; 0 if there was none. */
  function LastFailureAt(log: seq<Event>, lo: nat, n: nat): int
    requires n <= |log|
  {
    var r := Recovery(log, lo, n);
    if r <= lo then 0 else log[r - 1].at
  }

  function CountFrom(log: seq<Event>, lo: nat, n: nat, t: int): nat
    requires n <= |log|
    decreases n
  {
    if n <= lo then 0 else CountFrom(log, lo, n - 1, t) + (if log[n - 1].at >= t then 1 else 0)
  }

  /** Successes since the last failure that came at least the timeout after it. */
  function LateSuccesses(c: Config, log: seq<Event>, lo: nat, n: nat): nat
    requires n <= |log|
  {
    CountFrom(log, Recovery(log, lo, n), n, LastFailureAt(log, lo, n) + c.timeout)
  }

  /** The breaker closes when enough late successes follow the failures that opened it. */
  ghost predicate Closes(c: Config, log: seq<Event>, lo: nat, n: nat)
    requires n <= |log|
  {
    Tripped(c, log, lo, n) && LateSuccesses(c, log, lo, n) >= Quorum(c)
  }

  /** Where the part of the log after the last close starts. */
  ghost function Epoch(c: Config, log: seq<Event>, n: nat): (lo: nat)
    requires n <= |log|
    ensures lo <= n
  {
    if n == 0 then 0
    else var lo := Epoch(c, log, n - 1); if Closes(c, log, lo, n) then n else lo
  }

  /** The breaker is in the state that calls for: has it tripped, how many failures are at
      the end, how many late successes follow the last failure, and when was that. */
  predicate Fits(c: Config, b: Breaker, tripped: bool, run: nat, late: nat, last: int) {
    if !tripped
    then b.state == Closed && b.successes == 0 && b.failures == run < Threshold(c)
    else
      && b.successes == late < Quorum(c)
      && b.state == (if late == 0 then Open else HalfOpen)
      && b.lastFailure == last
      && b.failures >= Threshold(c)
  }

  ghost predicate Describes(c: Config, log: seq<Event>, lo: nat, n: nat, b: Breaker)
    requires n <= |log|
  {
    Fits(c, b, Tripped(c, log, lo, n), FailureRun(log, lo, n), LateSuccesses(c, log, lo, n),
         LastFailureAt(log, lo, n))
  }

  // ---------- the log describes the state ----------

  lemma CountedIsLate(log: seq<Event>, lo: nat, n: nat, t: int)
    requires n <= |log| && CountFrom(log, lo, n, t) >= 1
    ensures exists i :: lo <= i < n && log[i].at >= t
    decreases n
  {
    if log[n - 1].at < t {
      CountedIsLate(log, lo, n - 1, t);
    }
  }

  /** Once one success was late enough, all that follow are. */
  lemma StaysLate(c: Config, log: seq<Event>, lo: nat, n: nat)
    requires n < |log| && Timed(log) && LateSuccesses(c, log, lo, n) >= 1
    ensures log[n].at >= LastFailureAt(log, lo, n) + c.timeout
  {
    CountedIsLate(log, Recovery(log, lo, n), n, LastFailureAt(log, lo, n) + c.timeout);
  }

  lemma TrippedGrows(c: Config, log: seq<Event>, lo: nat, n: nat)
    requires lo <= n < |log|
    ensures Tripped(c, log, lo, n + 1) <==>
            Tripped(c, log, lo, n) || FailureRun(log, lo, n + 1) >= Threshold(c)
  {
  }

  lemma SuccessFits(c: Config, b: Breaker, tripped: bool, run: nat, late: nat, last: int, at: int)
    requires Fits(c, b, tripped, run, late, last)
    ensures var more := if late >= 1 || at - last >= c.timeout then late + 1 else 0;
      if tripped && more >= Quorum(c) then Fits(c, AfterSuccess(c, b, at), false, 0, 0, 0)
      else Fits(c, AfterSuccess(c, b, at), tripped, 0, more, last)
  {
  }

  lemma FailureFits(c: Config, b: Breaker, tripped: bool, run: nat, late: nat, last: int, at: int)
    requires Fits(c, b, tripped, run, late, last)
    ensures Fits(c, AfterFailure(c, b, at), tripped || run + 1 >= Threshold(c), run + 1, 0, at)
  {
  }

  lemma EmptyEpochFits(c: Config, log: seq<Event>, n: nat)
    requires n <= |log|
    ensures !Tripped(c, log, n, n) && FailureRun(log, n, n) == 0
    ensures LateSuccesses(c, log, n, n) == 0 && LastFailureAt(log, n, n) == 0
  {
  }

  lemma OneMoreDescribed(c: Config, log: seq<Event>, lo: nat, n: nat, b: Breaker)
    requires lo <= n < |log| && Timed(log) && Describes(c, log, lo, n, b)
    ensures Describes(c, log, if Closes(c, log, lo, n + 1) then n + 1 else lo, n + 1, Record(c, b, log[n]))
  {
    var tripped, run := Tripped(c, log, lo, n), FailureRun(log, lo, n);
    var late, last := LateSuccesses(c, log, lo, n), LastFailureAt(log, lo, n);
    TrippedGrows(c, log, lo, n);
    EmptyEpochFits(c, log, n + 1);
    match log[n] {
      case Failure(at) => FailureFits(c, b, tripped, run, late, last, at);
      case Success(at) =>
        SuccessFits(c, b, tripped, run, late, last, at);
        if late >= 1 { StaysLate(c, log, lo, n); }
    }
  }

  ghost predicate DescribedAt(c: Config, log: seq<Event>, n: nat)
    requires n <= |log|
  {
    Describes(c, log, Epoch(c, log, n), n, Replay(c, log, n))
  }

  lemma DescribedNext(c: Config, log: seq<Event>, n: nat)
    requires n < |log| && Timed(log) && DescribedAt(c, log, n)
    ensures DescribedAt(c, log, n + 1)
  {
    OneMoreDescribed(c, log, Epoch(c, log, n), n, Replay(c, log, n));
  }

  lemma {:induction false} DescribedFromFirst(c: Config, log: seq<Event>, n: nat)
    requires n <= |log| && DescribedAt(c, log, 0)
    requires forall k: nat :: k < |log| && DescribedAt(c, log, k) ==> DescribedAt(c, log, k + 1)
    ensures DescribedAt(c, log, n)
  {
    if n > 0 { DescribedFromFirst(c, log, n - 1); }
  }

  /** The breaker is a function of its outcome log, and of the part since it closed last. */
  lemma StateFromLog(c: Config, log: seq<Event>, n: nat)
    requires n <= |log| && Timed(log)
    ensures Describes(c, log, Epoch(c, log, n), n, Replay(c, log, n))
  {
    EmptyEpochFits(c, log, 0);
    forall k: nat | k < |log| && DescribedAt(c, log, k) ensures DescribedAt(c, log, k + 1) { DescribedNext(c, log, k); }
    DescribedFromFirst(c, log, n);
  }

  // ---------- closing ----------

  lemma {:induction false} CountedAreLast(log: seq<Event>, lo: nat, n: nat, t: int)
    requires lo <= n <= |log| && Timed(log)
    ensures lo + CountFrom(log, lo, n, t) <= n
    ensures forall i | n - CountFrom(log, lo, n, t) <= i < n :: log[i].at >= t
    decreases n
  {
    if n > lo {
      CountedAreLast(log, lo, n - 1, t);
      if log[n - 1].at < t && CountFrom(log, lo, n, t) >= 1 {
        CountedIsLate(log, lo, n, t);
      }
    }
  }

  lemma {:induction false} RecoveryIsSuccesses(log: seq<Event>, lo: nat, n: nat)
    requires n <= |log|
    ensures forall i | Recovery(log, lo, n) <= i < n :: log[i].Success?
    ensures Recovery(log, lo, n) > lo ==> Recovery(log, 0, n) == Recovery(log, lo, n)
    decreases n
  {
    if n > lo && log[n - 1].Success? {
      RecoveryIsSuccesses(log, lo, n - 1);
    }
  }

  lemma {:induction false} TrippedHasFailure(c: Config, log: seq<Event>, lo: nat, n: nat)
    requires n <= |log| && Tripped(c, log, lo, n)
    ensures Recovery(log, lo, n) > lo
    decreases n
  {
    if n > lo && log[n - 1].Success? {
      var i :| lo <= i <= n && FailureRun(log, lo, i) >= Threshold(c);
      assert Tripped(c, log, lo, n - 1);
      TrippedHasFailure(c, log, lo, n - 1);
    }
  }

  /** A close is preceded by a quorum of successes in a row, each of them at least the
      timeout after the last failure before them. */
  lemma ClosesOnlyAfterQuorum(c: Config, log: seq<Event>, n: nat)
    requires n < |log| && Timed(log)
    requires !Replay(c, log, n).state.Closed? && Replay(c, log, n + 1).state.Closed?
    ensures Quorum(c) <= n && 0 < Recovery(log, 0, n + 1) <= n + 1 - Quorum(c)
    ensures forall i | n + 1 - Quorum(c) <= i <= n ::
              log[i].Success? && log[i].at >= LastFailureAt(log, 0, n + 1) + c.timeout
  {
    var lo := Epoch(c, log, n);
    StateFromLog(c, log, n);
    StaysLate(c, log, lo, n);
    TrippedHasFailure(c, log, lo, n);
    RecoveryIsSuccesses(log, lo, n + 1);
    CountedAreLast(log, Recovery(log, lo, n + 1), n + 1, LastFailureAt(log, lo, n + 1) + c.timeout);
  }

  lemma OnlyFourTransitions(c: Config, b: Breaker, e: Event)
    ensures var to := Record(c, b, e).state;
      to != b.state ==> (b.state, to) in {(Closed, Open), (Open, HalfOpen), (HalfOpen, Open), (HalfOpen, Closed)}
  {
  }

  // ---------- calls in flight ----------

  datatype Act = Ask(at: int) | Finish(e: Event)

  function TimeOf(a: Act): int { if a.Ask? then a.at else a.e.at }

  function BreakerAt(c: Config, acts: seq<Act>, k: nat): Breaker
    requires k <= |acts|
  {
    if k == 0 then INITIAL
    else match acts[k - 1]
         case Ask(_) => BreakerAt(c, acts, k - 1)
         case Finish(e) => Record(c, BreakerAt(c, acts, k - 1), e)
  }

  /** Calls admitted and not finished. */
  function InFlight(c: Config, acts: seq<Act>, k: nat): int
    requires k <= |acts|
  {
    if k == 0 then 0
    else match acts[k - 1]
         case Ask(at) => InFlight(c, acts, k - 1) + (if Admits(c, BreakerAt(c, acts, k - 1), at) then 1 else 0)
         case Finish(_) => InFlight(c, acts, k - 1) - 1
  }

  /** Any interleaving of calls that ask for admission and of admitted calls that finish. */
  predicate Overlapping(c: Config, acts: seq<Act>) {
    && (forall i, j | 0 <= i < j < |acts| :: TimeOf(acts[i]) <= TimeOf(acts[j]))
    && (forall k | 0 <= k <= |acts| :: InFlight(c, acts, k) >= 0)
  }

  function Outcomes(acts: seq<Act>, k: nat): seq<Event>
    requires k <= |acts|
  {
    if k == 0 then []
    else Outcomes(acts, k - 1) + (if acts[k - 1].Finish? then [acts[k - 1].e] else [])
  }

  lemma {:induction false} ReplayPrefix(c: Config, a: seq<Event>, b: seq<Event>, n: nat)
    requires n <= |a| && n <= |b| && forall i | 0 <= i < n :: a[i] == b[i]
    ensures Replay(c, a, n) == Replay(c, b, n)
    decreases n
  {
    if n > 0 { ReplayPrefix(c, a, b, n - 1); }
  }

  lemma {:induction false} OutcomesTimed(c: Config, acts: seq<Act>, k: nat)
    requires Overlapping(c, acts) && k <= |acts|
    ensures Timed(Outcomes(acts, k))
    ensures forall e | e in Outcomes(acts, k) :: k > 0 && e.at <= TimeOf(acts[k - 1])
    decreases k
  {
    if k > 0 { OutcomesTimed(c, acts, k - 1); }
  }

  /** However calls overlap, the breaker is what replaying the outcomes gives. */
  lemma {:induction false} OverlapReplays(c: Config, acts: seq<Act>, k: nat)
    requires k <= |acts|
    ensures BreakerAt(c, acts, k) == Replay(c, Outcomes(acts, k), |Outcomes(acts, k)|)
    decreases k
  {
    if k > 0 {
      OverlapReplays(c, acts, k - 1);
      ReplayPrefix(c, Outcomes(acts, k - 1), Outcomes(acts, k), |Outcomes(acts, k - 1)|);
    }
  }

  /** Admission is decided by the outcomes recorded so far: before the breaker trips,
      always; after it has tripped, from the timeout after the last failure on; and once
      half-open, always or never as halfOpenMaxCalls is at least 2 or not. */
  lemma AdmissionFromLog(c: Config, acts: seq<Act>, at: int)
    requires Overlapping(c, acts)
    ensures var log := Outcomes(acts, |acts|);
      var n := |log|;
      var lo := Epoch(c, log, n);
      Admits(c, BreakerAt(c, acts, |acts|), at) <==>
        || !Tripped(c, log, lo, n)
        || (LateSuccesses(c, log, lo, n) == 0 && at >= LastFailureAt(log, lo, n) + c.timeout)
        || (LateSuccesses(c, log, lo, n) >= 1 && c.halfOpenMaxCalls >= 2)
  {
    var log := Outcomes(acts, |acts|);
    OverlapReplays(c, acts, |acts|);
    OutcomesTimed(c, acts, |acts|);
    StateFromLog(c, log, |log|);
  }

  // ---------- sequential recovery ----------

  /** The first n of some calls, one after the other, each succeeding if it is admitted. */
  function SucceedingCalls(c: Config, b: Breaker, times: seq<int>, n: nat): Breaker
    requires n <= |times|
  {
    if n == 0 then b
    else
      var before := SucceedingCalls(c, b, times, n - 1);
      if Admits(c, before, times[n - 1]) then AfterSuccess(c, before, times[n - 1]) else before
  }

  lemma {:induction false} RecoverySteps(c: Config, b: Breaker, times: seq<int>, n: nat)
    requires n <= |times|
    requires b.state.Open? && forall i | 0 <= i < |times| :: times[i] >= b.lastFailure + c.timeout
    ensures var r := SucceedingCalls(c, b, times, n);
      if n == 0 then r == b
      else if c.halfOpenMaxCalls < 2 then r == b.(state := HalfOpen, successes := 1)
      else if n < c.halfOpenMaxCalls then r == b.(state := HalfOpen, successes := n)
      else r.state.Closed?
    decreases n
  {
    if n > 0 { RecoverySteps(c, b, times, n - 1); }
  }

  /** From Open, calls that succeed one after the other once the timeout has passed close
      the breaker, with the halfOpenMaxCalls-th of them, if and only if halfOpenMaxCalls is
      at least 2; otherwise the first success leaves it half-open and refusing forever. */
  lemma RecoversIffTwoCalls(c: Config, b: Breaker, times: seq<int>, n: nat)
    requires n <= |times|
    requires b.state.Open? && forall i | 0 <= i < |times| :: times[i] >= b.lastFailure + c.timeout
    ensures SucceedingCalls(c, b, times, n).state.Closed? <==>
            c.halfOpenMaxCalls >= 2 && n >= c.halfOpenMaxCalls
    ensures c.halfOpenMaxCalls < 2 && n > 0 ==>
            forall at :: !Admits(c, SucceedingCalls(c, b, times, n), at)
  {
    RecoverySteps(c, b, times, n);
  }

  /** A call that asks for admission, and what it records if it is admitted. */
  datatype Call = Call(asked: int, outcome: Event)

  /** The first n of some calls, one after the other, with any outcomes. */
  function SequentialCalls(c: Config, b: Breaker, calls: seq<Call>, n: nat): Breaker
    requires n <= |calls|
  {
    if n == 0 then b
    else
      var before := SequentialCalls(c, b, calls, n - 1);
      if Admits(c, before, calls[n - 1].asked) then Record(c, before, calls[n - 1].outcome) else before
  }

  ghost predicate StaysOpen(c: Config, b: Breaker) {
    forall calls: seq<Call>, n: nat :: n <= |calls| ==> !SequentialCalls(c, b, calls, n).state.Closed?
  }

  lemma {:induction false} WedgedStaysOpen(c: Config, b: Breaker, calls: seq<Call>, n: nat)
    requires n <= |calls| && b.state.Open? && c.halfOpenMaxCalls < 2
    ensures var r := SequentialCalls(c, b, calls, n); r.state.Open? || (r.state.HalfOpen? && r.successes >= 1)
  {
    if n > 0 { WedgedStaysOpen(c, b, calls, n - 1); }
  }

  lemma {:induction false} SuccessesAreSucceeding(c: Config, b: Breaker, at: int, k: nat, n: nat)
    requires n <= k
    ensures SequentialCalls(c, b, seq(k, _ => Call(at, Success(at))), n) == SucceedingCalls(c, b, seq(k, _ => at), n)
  {
    if n > 0 { SuccessesAreSucceeding(c, b, at, k, n - 1); }
  }

  /** In sequential use, whatever the outcomes, an open breaker never closes exactly if halfOpenMaxCalls is below 2. */
  lemma NeverClosesIff(c: Config, b: Breaker)
    requires b.state.Open?
    ensures StaysOpen(c, b) <==> c.halfOpenMaxCalls < 2
  {
    if c.halfOpenMaxCalls < 2 {
      forall calls: seq<Call>, n: nat | n <= |calls| ensures !SequentialCalls(c, b, calls, n).state.Closed? {
        WedgedStaysOpen(c, b, calls, n);
      }
    } else {
      var k: nat, at := c.halfOpenMaxCalls, b.lastFailure + c.timeout;
      SuccessesAreSucceeding(c, b, at, k, k);
      RecoversIffTwoCalls(c, b, seq(k, _ => at), k);
      assert SequentialCalls(c, b, seq(k, _ => Call(at, Success(at))), k).state.Closed?;
    }
  }
}
