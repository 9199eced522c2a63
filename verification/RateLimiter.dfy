/**
 The sliding-window limiter: a sorted set of request times per key, pruned at every request
 and dropped by Redis when the key expires.  One request's pipeline is one step.

 Scores are doubles: a time between 2^60 and 2^61 nanoseconds, that is from 2006 to 2043, is
 stored as the nearest multiple of 256, ties to even.  The results hold of every rounding.
 */
module RateLimiter {
  import opened Arithmetic

  const SECOND: int := 1_000_000_000
  const DOUBLE_GRAIN: int := 256

  function DoubleScore(t: int): int {
    var q, r := t / DOUBLE_GRAIN, t % DOUBLE_GRAIN;
    DOUBLE_GRAIN * (if 2 * r < DOUBLE_GRAIN || (2 * r == DOUBLE_GRAIN && q % 2 == 0) then q else q + 1)
  }

  /** All that the results below need to know of a score. */
  ghost predicate Rounding(score: int -> int) {
    score(0) == 0 && forall t, u :: t <= u ==> score(t) <= score(u)
  }

  lemma DoubleScoreRounds()
    ensures Rounding(DoubleScore)
    ensures forall t :: t - DOUBLE_GRAIN / 2 <= DoubleScore(t) <= t + DOUBLE_GRAIN / 2
  {
  }

  /** EXPIRE takes whole seconds, truncated, but one second for a positive window below that. */
  function ExpirySeconds(window: int): int {
    if 0 < window < SECOND then 1
    else if window < 0 then -(-window / SECOND)
    else window / SECOND
  }

  datatype Limit = Limit(rate: int, window: int)

  /** The request times kept for a key, and the last millisecond in which Redis still keeps it. */
  datatype Requests = Requests(times: set<int>, deadline: int)

  const NONE := Requests({}, 0)

  const MILLISECOND: int := 1_000_000

  function Live(z: Requests, now: int): set<int> { if now / MILLISECOND > z.deadline then {} else z.times }

  /** EXPIRE, on the millisecond clock of Redis; a key that is to live no longer is deleted at once. */
  function Expiring(times: set<int>, window: int, now: int): Requests {
    var seconds := ExpirySeconds(window);
    if seconds <= 0 then NONE else Requests(times, now / MILLISECOND + seconds * 1000)
  }

  /** ZREMRANGEBYSCORE 0 windowStart. */
  function Pruned(score: int -> int, window: int, times: set<int>, now: int): set<int> {
    set t | t in times && !(0 <= score(t) <= score(now - window))
  }

  function Checked(score: int -> int, l: Limit, z: Requests, now: int): Requests {
    Expiring(Pruned(score, l.window, Live(z, now), now) + {now}, l.window, now)
  }

  predicate Allows(score: int -> int, l: Limit, z: Requests, now: int) {
    |Pruned(score, l.window, Live(z, now), now)| < l.rate
  }

  class DistributedRateLimiter {
    var keys: map<string, Requests>

    constructor ()
      ensures keys == map[]
    {
      keys := map[];
    }

    function Of(key: string): Requests
      reads this
    {
      if key in keys then keys[key] else NONE
    }

    /** checkLimit: refused requests are stored as well. */
    method CheckLimit(key: string, l: Limit, now: int) returns (allowed: bool)
      requires now >= 0
      modifies this
      ensures allowed <==> Allows(DoubleScore, l, old(Of(key)), now)
      ensures Of(key) == Checked(DoubleScore, l, old(Of(key)), now)
      ensures forall k | k != key :: Of(k) == old(Of(k))
    {
      var live := if key in keys && now / MILLISECOND <= keys[key].deadline then keys[key].times else {};
      var times := Pruned(DoubleScore, l.window, live, now);
      var count := |times|;
      times := times + {now};
      keys := keys[key := Expiring(times, l.window, now)];
      allowed := count < l.rate;
    }
  }

  // ---------- one key's whole log ----------

  function After(score: int -> int, l: Limit, log: seq<int>, k: nat): Requests
    requires k <= |log|
  {
    if k == 0 then NONE else Checked(score, l, After(score, l, log, k - 1), log[k - 1])
  }

  predicate Admitted(score: int -> int, l: Limit, log: seq<int>, k: nat)
    requires k < |log|
  {
    Allows(score, l, After(score, l, log, k), log[k])
  }

  /** What the limiter stands for: the earlier requests whose score lies in the window. */
  function Window(score: int -> int, log: seq<int>, k: nat, start: int): set<int>
    requires k <= |log|
  {
    if k == 0 then {}
    else Window(score, log, k - 1, start) + if score(log[k - 1]) > score(start) then {log[k - 1]} else {}
  }

  ghost predicate Ordered(log: seq<int>) {
    (forall j :: 0 <= j < |log| ==> log[j] >= 0) &&
    (forall i, j :: 0 <= i < j < |log| ==> log[i] <= log[j])
  }

  ghost predicate Increasing(log: seq<int>) {
    (forall j :: 0 <= j < |log| ==> log[j] >= 0) &&
    (forall i, j :: 0 <= i < j < |log| ==> log[i] < log[j])
  }

  /** Its key lives as long as the window; Redis drops a key no sooner than a nanosecond late. */
  predicate ExpiryCovers(window: int) { window < SECOND || window % SECOND <= 1 }

  function Decisions(score: int -> int, l: Limit, log: seq<int>): (d: seq<bool>)
    ensures |d| == |log|
  {
    seq(|log|, k requires 0 <= k < |log| => Admitted(score, l, log, k))
  }

  function Count(d: seq<bool>, lo: nat, hi: nat): nat
    requires lo <= hi <= |d|
  {
    if lo == hi then 0 else Count(d, lo, hi - 1) + if d[hi - 1] then 1 else 0
  }

  /** How many of the requests lo to hi - 1 pass. */
  function Admissions(score: int -> int, l: Limit, log: seq<int>, lo: nat, hi: nat): nat
    requires lo <= hi <= |log|
  {
    Count(Decisions(score, l, log), lo, hi)
  }

  lemma {:induction false} WindowHas(score: int -> int, log: seq<int>, k: nat, start: int, t: int)
    requires k <= |log|
    ensures t in Window(score, log, k, start) <==> score(t) > score(start) && t in log[..k]
  {
    if k > 0 {
      WindowHas(score, log, k - 1, start, t);
      assert log[..k] == log[..k - 1] + [log[k - 1]];
    }
  }

  // ---------- the pruned set decides as the whole log ----------

  ghost predicate Faithful(score: int -> int, window: int, log: seq<int>, k: nat, times: set<int>)
    requires 1 <= k <= |log|
  {
    (forall t :: t in times ==> t in log[..k]) &&
    (forall j :: 0 <= j < k && log[j] !in times ==> score(log[j]) <= score(log[k - 1] - window))
  }

  lemma ExpiredIsOld(l: Limit, last: int, now: int)
    requires last <= now && ExpiryCovers(l.window)
    requires l.window <= 0 || now / MILLISECOND > last / MILLISECOND + ExpirySeconds(l.window) * 1000
    ensures last <= now - l.window
  {
  }

  lemma ExpiredIsOutOfWindow(score: int -> int, l: Limit, log: seq<int>, k: nat, now: int)
    requires Rounding(score) && Ordered(log) && ExpiryCovers(l.window)
    requires 1 <= k <= |log| && log[k - 1] <= now
    requires l.window <= 0 || now / MILLISECOND > After(score, l, log, k).deadline
    ensures forall j :: 0 <= j < k ==> score(log[j]) <= score(now - l.window)
  {
    ExpiredIsOld(l, log[k - 1], now);
    forall j | 0 <= j < k ensures score(log[j]) <= score(now - l.window) {
      assert log[j] <= log[k - 1] <= now - l.window;
    }
  }

  lemma FirstIsFaithful(score: int -> int, l: Limit, log: seq<int>)
    requires log != [] && l.window > 0
    ensures Faithful(score, l.window, log, 1, After(score, l, log, 1).times)
  {
    assert After(score, l, log, 0) == NONE;
    assert Pruned(score, l.window, {}, log[0]) == {};
  }

  /** What pruning and expiry drop at request k has left the window, if that holds of the requests before. */
  lemma NextIsFaithful(score: int -> int, l: Limit, log: seq<int>, k: nat)
    requires 1 <= k < |log| && l.window > 0
    requires Faithful(score, l.window, log, k, After(score, l, log, k).times)
    requires score(log[k - 1] - l.window) <= score(log[k] - l.window)
    requires log[k] / MILLISECOND > After(score, l, log, k).deadline ==>
      forall j :: 0 <= j < k ==> score(log[j]) <= score(log[k] - l.window)
    ensures Faithful(score, l.window, log, k + 1, After(score, l, log, k + 1).times)
  {
    assert log[..k + 1] == log[..k] + [log[k]];
  }

  lemma NothingKeptIsFaithful(score: int -> int, l: Limit, log: seq<int>, k: nat)
    requires Rounding(score) && Ordered(log) && l.window <= 0 && 1 <= k <= |log|
    ensures Faithful(score, l.window, log, k, After(score, l, log, k).times)
  {
    ExpiredIsOutOfWindow(score, l, log, k, log[k - 1]);
  }

  lemma StepIsFaithful(score: int -> int, l: Limit, log: seq<int>, k: nat)
    requires Rounding(score) && Ordered(log) && ExpiryCovers(l.window) && 1 <= k < |log| && l.window > 0
    requires Faithful(score, l.window, log, k, After(score, l, log, k).times)
    ensures Faithful(score, l.window, log, k + 1, After(score, l, log, k + 1).times)
  {
    assert log[k - 1] <= log[k];
    if log[k] / MILLISECOND > After(score, l, log, k).deadline {
      ExpiredIsOutOfWindow(score, l, log, k, log[k]);
    }
    NextIsFaithful(score, l, log, k);
  }

  ghost predicate FaithfulAt(score: int -> int, l: Limit, log: seq<int>, k: nat)
    requires 1 <= k <= |log|
  {
    Faithful(score, l.window, log, k, After(score, l, log, k).times)
  }

  lemma {:induction false} FaithfulFromFirst(score: int -> int, l: Limit, log: seq<int>, k: nat)
    requires 1 <= k <= |log| && FaithfulAt(score, l, log, 1)
    requires forall j: nat :: 1 <= j < |log| && FaithfulAt(score, l, log, j) ==> FaithfulAt(score, l, log, j + 1)
    ensures FaithfulAt(score, l, log, k)
  {
    if k > 1 { FaithfulFromFirst(score, l, log, k - 1); }
  }

  lemma StateIsFaithful(score: int -> int, l: Limit, log: seq<int>, k: nat)
    requires Rounding(score) && Ordered(log) && ExpiryCovers(l.window) && 1 <= k <= |log|
    ensures FaithfulAt(score, l, log, k)
  {
    if l.window <= 0 {
      NothingKeptIsFaithful(score, l, log, k);
    } else {
      FirstIsFaithful(score, l, log);
      forall j: nat | 1 <= j < |log| && FaithfulAt(score, l, log, j) ensures FaithfulAt(score, l, log, j + 1) {
        StepIsFaithful(score, l, log, j);
      }
      FaithfulFromFirst(score, l, log, k);
    }
  }

  /** Pruning and expiry lose nothing the window still holds. */
  lemma PrunedIsWindow(score: int -> int, l: Limit, log: seq<int>, k: nat, now: int)
    requires Rounding(score) && Ordered(log) && ExpiryCovers(l.window) && k <= |log|
    requires k > 0 ==> log[k - 1] <= now
    ensures Pruned(score, l.window, Live(After(score, l, log, k), now), now) == Window(score, log, k, now - l.window)
  {
    if k > 0 {
      var z, start := After(score, l, log, k), now - l.window;
      StateIsFaithful(score, l, log, k);
      if l.window <= 0 || now / MILLISECOND > z.deadline { ExpiredIsOutOfWindow(score, l, log, k, now); }
      assert score(log[k - 1] - l.window) <= score(start);
      forall j | 0 <= j < k ensures score(log[j]) >= 0 { assert log[j] >= 0; }
      forall t ensures t in Pruned(score, l.window, Live(z, now), now) <==> t in Window(score, log, k, start) {
        KeptIffInWindow(score, l, log, k, now, t);
      }
    }
  }

  /** A time in the log is kept exactly if its score lies in the window; nothing else is kept. */
  lemma KeptIffInWindow(score: int -> int, l: Limit, log: seq<int>, k: nat, now: int, t: int)
    requires 1 <= k <= |log| && score(log[k - 1] - l.window) <= score(now - l.window)
    requires Faithful(score, l.window, log, k, After(score, l, log, k).times)
    requires forall j :: 0 <= j < k ==> score(log[j]) >= 0
    requires l.window <= 0 || now / MILLISECOND > After(score, l, log, k).deadline ==>
      forall j :: 0 <= j < k ==> score(log[j]) <= score(now - l.window)
    ensures t in Pruned(score, l.window, Live(After(score, l, log, k), now), now) <==> t in Window(score, log, k, now - l.window)
  {
    WindowHas(score, log, k, now - l.window, t);
    if t in log[..k] {
      var j: nat :| j < k && log[j] == t;
      LoggedIsKeptIff(score, l, log, k, now, j);
    }
  }

  lemma LoggedIsKeptIff(score: int -> int, l: Limit, log: seq<int>, k: nat, now: int, j: nat)
    requires j < k <= |log| && score(log[k - 1] - l.window) <= score(now - l.window) && score(log[j]) >= 0
    requires log[j] !in After(score, l, log, k).times ==> score(log[j]) <= score(log[k - 1] - l.window)
    requires l.window <= 0 || now / MILLISECOND > After(score, l, log, k).deadline ==> score(log[j]) <= score(now - l.window)
    ensures log[j] in Pruned(score, l.window, Live(After(score, l, log, k), now), now) <==> score(log[j]) > score(now - l.window)
  {
  }

  // ---------- who is admitted ----------

  lemma {:induction false} WindowIsSuffix(score: int -> int, log: seq<int>, k: nat, start: int, n: nat)
    requires Rounding(score) && Increasing(log) && k <= |log| && n >= 1
    ensures |Window(score, log, k, start)| >= n <==> k >= n && score(log[k - n]) > score(start)
  {
    if k > 0 {
      if score(log[k - 1]) <= score(start) {
        NoneInWindow(score, log, k, start);
        if k >= n { NoLater(score, log, k - n, k - 1); }
      } else {
        LastInWindow(score, log, k, start);
        if n > 1 { WindowIsSuffix(score, log, k - 1, start, n - 1); }
      }
    }
  }

  lemma NoLater(score: int -> int, log: seq<int>, i: nat, j: nat)
    requires Rounding(score) && Increasing(log) && i <= j < |log|
    ensures score(log[i]) <= score(log[j])
  {
    assert log[i] <= log[j];
  }

  lemma LastInWindow(score: int -> int, log: seq<int>, k: nat, start: int)
    requires Increasing(log) && 1 <= k <= |log| && score(log[k - 1]) > score(start)
    ensures |Window(score, log, k, start)| == |Window(score, log, k - 1, start)| + 1
  {
    WindowHas(score, log, k - 1, start, log[k - 1]);
  }

  lemma NoneInWindow(score: int -> int, log: seq<int>, k: nat, start: int)
    requires Rounding(score) && Increasing(log) && 1 <= k <= |log| && score(log[k - 1]) <= score(start)
    ensures Window(score, log, k, start) == {}
  {
    forall t ensures t !in Window(score, log, k, start) {
      WindowHas(score, log, k, start, t);
      if t in log[..k] {
        var j: nat :| j < k && log[j] == t;
        NoLater(score, log, j, k - 1);
      }
    }
  }

  /** A request passes exactly if the one Rate places before it has left the window. */
  lemma AdmittedIff(score: int -> int, l: Limit, log: seq<int>, k: nat)
    requires Rounding(score) && Increasing(log) && ExpiryCovers(l.window) && k < |log| && l.rate >= 1
    ensures Admitted(score, l, log, k) <==>
      k < l.rate || score(log[k - l.rate]) <= score(log[k] - l.window)
  {
    PrunedIsWindow(score, l, log, k, log[k]);
    WindowIsSuffix(score, log, k, log[k] - l.window, l.rate);
  }

  lemma LaterIsRefused(score: int -> int, l: Limit, log: seq<int>, lo: nat, k: nat)
    requires Rounding(score) && Increasing(log) && ExpiryCovers(l.window) && k < |log| && 1 <= l.rate <= k - lo
    requires score(log[k] - l.window) < score(log[lo])
    ensures !Admitted(score, l, log, k)
  {
    AdmittedIff(score, l, log, k);
    assert log[lo] <= log[k - l.rate];
  }

  lemma {:induction false} CountIsAtMost(d: seq<bool>, lo: nat, hi: nat, n: nat)
    requires lo <= hi <= |d| && forall k :: lo + n <= k < hi ==> !d[k]
    ensures Count(d, lo, hi) <= n && Count(d, lo, hi) <= hi - lo
  {
    if lo < hi { CountIsAtMost(d, lo, hi - 1, n); }
  }

  lemma AtMostRate(score: int -> int, l: Limit, log: seq<int>, lo: nat, hi: nat)
    requires Rounding(score) && Increasing(log) && ExpiryCovers(l.window) && lo < hi <= |log| && l.rate >= 0
    requires score(log[hi - 1] - l.window) < score(log[lo])
    ensures Admissions(score, l, log, lo, hi) <= l.rate
  {
    forall k: nat | lo + l.rate <= k < hi ensures !Decisions(score, l, log)[k] {
      assert k < hi - 1 ==> log[k] - l.window <= log[hi - 1] - l.window;
      if l.rate >= 1 { LaterIsRefused(score, l, log, lo, k); }
    }
    CountIsAtMost(Decisions(score, l, log), lo, hi, l.rate);
  }

  /** Hence in every span shorter than the window by the rounding of two scores. */
  lemma AtMostRatePerSpan(score: int -> int, error: nat, l: Limit, log: seq<int>, lo: nat, hi: nat)
    requires Rounding(score) && forall t :: t - error <= score(t) <= t + error
    requires Increasing(log) && ExpiryCovers(l.window) && lo < hi <= |log| && l.rate >= 0
    requires log[hi - 1] - log[lo] < l.window - 2 * error
    ensures Admissions(score, l, log, lo, hi) <= l.rate
  {
    AtMostRate(score, l, log, lo, hi);
  }

  /** What that is for the scores Redis keeps. */
  lemma DoubleScoresAlmostKeepTheBound(l: Limit, log: seq<int>, lo: nat, hi: nat)
    requires Increasing(log) && ExpiryCovers(l.window) && lo < hi <= |log| && l.rate >= 0
    requires log[hi - 1] - log[lo] < l.window - DOUBLE_GRAIN
    ensures Admissions(DoubleScore, l, log, lo, hi) <= l.rate
  {
    DoubleScoreRounds();
    AtMostRatePerSpan(DoubleScore, DOUBLE_GRAIN / 2, l, log, lo, hi);
  }

  // ---------- when the promised bound holds ----------

  ghost predicate BoundHolds(score: int -> int, window: int) {
    forall rate: nat, log: seq<int>, lo: nat, hi: nat ::
      Increasing(log) && lo < hi <= |log| && log[hi - 1] - log[lo] < window
      ==> Admissions(score, Limit(rate, window), log, lo, hi) <= rate
  }

  /** Two requests, one allowed per window, less than a window apart. */
  lemma TwoPass(score: int -> int, window: int, t: nat, u: int)
    requires Rounding(score) && t <= u < t + window
    requires score(t) <= score(u - window) || u / MILLISECOND > t / MILLISECOND + ExpirySeconds(window) * 1000
    ensures Ordered([t, u]) && (t < u ==> Increasing([t, u]))
    ensures Admissions(score, Limit(1, window), [t, u], 0, 2) == 2
  {
    var l, log := Limit(1, window), [t, u];
    var z := After(score, l, log, 1);
    assert After(score, l, log, 0) == NONE;
    assert Pruned(score, window, Live(NONE, t), t) == {};
    assert z == Requests({t}, t / MILLISECOND + ExpirySeconds(window) * 1000);
    assert Pruned(score, window, Live(z, u), u) == {};
    assert Admitted(score, l, log, 0) && Admitted(score, l, log, 1);
    assert Decisions(score, l, log) == [true, true];
    assert Count([true, true], 0, 1) == 1;
  }

  /** No two request times share a score. */
  ghost predicate Distinguishes(score: int -> int) {
    forall t :: t >= 0 ==> score(t - 1) < score(t)
  }

  /** Just after the key is dropped, two requests a nanosecond more than its life apart. */
  lemma ExpiryMissesTheBound(score: int -> int, window: int)
    requires Rounding(score) && !ExpiryCovers(window)
    ensures !BoundHolds(score, window) && !TiedBoundHolds(score, Limit(1, window))
  {
    var t, u := MILLISECOND - 1, MILLISECOND + ExpirySeconds(window) * SECOND;
    TwoPass(score, window, t, u);
    assert [t, u][1] - [t, u][0] < window;
  }

  /** The same bound when requests may come in the same nanosecond. */
  ghost predicate TiedBoundHolds(score: int -> int, l: Limit) {
    forall log: seq<int>, lo: nat, hi: nat ::
      Ordered(log) && lo < hi <= |log| && log[hi - 1] - log[lo] < l.window
      ==> Admissions(score, l, log, lo, hi) <= l.rate
  }

  /**
   At most Rate requests pass in every span shorter than the window exactly if scores tell times
   apart and the key lives as long as the window.
   */
  lemma BoundHoldsIff(score: int -> int, window: int)
    requires Rounding(score)
    ensures BoundHolds(score, window) <==> window <= 1 || (Distinguishes(score) && ExpiryCovers(window))
  {
    if window >= 2 && !ExpiryCovers(window) {
      ExpiryMissesTheBound(score, window);
    } else if window >= 2 && !Distinguishes(score) {
      var t: int :| t >= 0 && score(t - 1) >= score(t);
      TwoPass(score, window, t, t - 1 + window);
      assert !BoundHolds(score, window);
    } else {
      forall rate: nat, log: seq<int>, lo: nat, hi: nat
        | Increasing(log) && lo < hi <= |log| && log[hi - 1] - log[lo] < window
        ensures Admissions(score, Limit(rate, window), log, lo, hi) <= rate
      {
        SpanIsBounded(score, Limit(rate, window), log, lo, hi);
      }
    }
  }

  lemma SpanIsBounded(score: int -> int, l: Limit, log: seq<int>, lo: nat, hi: nat)
    requires Rounding(score) && (l.window <= 1 || (Distinguishes(score) && ExpiryCovers(l.window)))
    requires Increasing(log) && lo < hi <= |log| && log[hi - 1] - log[lo] < l.window && l.rate >= 0
    ensures Admissions(score, l, log, lo, hi) <= l.rate
  {
    if l.window >= 2 {
      assert score(log[hi - 1] - l.window) <= score(log[lo] - 1) < score(log[lo]);
      AtMostRate(score, l, log, lo, hi);
    } else {
      assert lo == hi - 1;
      CountIsAtMost(Decisions(score, l, log), lo, hi, l.rate);
    }
  }

  lemma DoubleScoresCollide()
    ensures DoubleScore(0x1000_0000_0000_0000 + 256) == DoubleScore(0x1000_0000_0000_0000 + 255)
  {
  }

  /** The scores Redis keeps do not: two requests pass where one may. */
  lemma DoubleScoresMissTheBound(window: int)
    requires 2 <= window
    ensures var t := 0x1000_0000_0000_0000 + 256;
      Admissions(DoubleScore, Limit(1, window), [t, t + window - 1], 0, 2) == 2
  {
    var t := 0x1000_0000_0000_0000 + 256;
    DoubleScoreRounds();
    DoubleScoresCollide();
    assert t + window - 1 - window == t - 1;
    TwoPass(DoubleScore, window, t, t + window - 1);
  }

  lemma {:induction false} SameInstantIsKeptOnce(score: int -> int, l: Limit, log: seq<int>, now: int, k: nat)
    requires k <= |log| && forall j :: 0 <= j < |log| ==> log[j] == now
    ensures After(score, l, log, k).times <= {now}
  {
    if k > 0 { SameInstantIsKeptOnce(score, l, log, now, k - 1); }
  }

  lemma OneIsAllowed(score: int -> int, l: Limit, z: Requests, now: int)
    requires z.times <= {now} && l.rate >= 2
    ensures Allows(score, l, z, now)
  {
    SubsetIsSmaller(Pruned(score, l.window, Live(z, now), now), {now});
  }

  lemma {:induction false} CountsAll(d: seq<bool>, hi: nat)
    requires hi <= |d| && forall k :: 0 <= k < hi ==> d[k]
    ensures Count(d, 0, hi) == hi
  {
    if hi > 0 { CountsAll(d, hi - 1); }
  }

  /** Requests in the same nanosecond are stored once: any number of them passes. */
  lemma SameInstantIsCountedOnce(score: int -> int, l: Limit, log: seq<int>, now: int)
    requires l.rate >= 2 && forall j :: 0 <= j < |log| ==> log[j] == now
    ensures Admissions(score, l, log, 0, |log|) == |log|
  {
    var d := Decisions(score, l, log);
    forall k: nat | k < |log| ensures d[k] {
      SameInstantIsKeptOnce(score, l, log, now, k);
      OneIsAllowed(score, l, After(score, l, log, k), now);
    }
    CountsAll(d, |log|);
  }

  /** With one request per window, a later request in the span finds the first one still stored. */
  lemma OneIsKept(score: int -> int, l: Limit, log: seq<int>, lo: nat, hi: nat)
    requires Rounding(score) && Distinguishes(score) && ExpiryCovers(l.window) && l.rate == 1
    requires Ordered(log) && lo < hi <= |log| && log[hi - 1] - log[lo] < l.window
    ensures Admissions(score, l, log, lo, hi) <= 1
  {
    forall k: nat | lo + 1 <= k < hi ensures !Decisions(score, l, log)[k] {
      var start := log[k] - l.window;
      assert log[k] <= log[hi - 1] || k == hi - 1;
      assert score(start) <= score(log[lo] - 1) < score(log[lo]);
      WindowHas(score, log, k, start, log[lo]);
      PrunedIsWindow(score, l, log, k, log[k]);
    }
    CountIsAtMost(Decisions(score, l, log), lo, hi, 1);
  }

  lemma TiesMissTheBound(score: int -> int, l: Limit)
    requires l.rate >= 2 && l.window >= 1
    ensures !TiedBoundHolds(score, l)
  {
    var log := seq(l.rate + 1, _ => 0);
    SameInstantIsCountedOnce(score, l, log, 0);
    assert Ordered(log) && log[|log| - 1] - log[0] < l.window;
    assert Admissions(score, l, log, 0, |log|) > l.rate;
  }

  /**
   With simultaneous requests the bound holds exactly for Rate 1 - and where nothing can pass -
   under the conditions on scores and expiry that it needs without them.
   */
  lemma TiedBoundHoldsIff(score: int -> int, l: Limit)
    requires Rounding(score) && l.rate >= 0
    ensures TiedBoundHolds(score, l) <==>
      l.window <= 0 || l.rate == 0 || (l.rate == 1 && Distinguishes(score) && ExpiryCovers(l.window))
  {
    if l.window >= 1 && l.rate >= 2 {
      TiesMissTheBound(score, l);
    } else if l.window >= 1 && l.rate == 1 && !ExpiryCovers(l.window) {
      ExpiryMissesTheBound(score, l.window);
    } else if l.window >= 1 && l.rate == 1 && !Distinguishes(score) {
      var t: int :| t >= 0 && score(t - 1) >= score(t);
      var u := t - 1 + l.window;
      TwoPass(score, l.window, t, u);
      assert [t, u][1] - [t, u][0] < l.window;
    } else {
      forall log: seq<int>, lo: nat, hi: nat
        | Ordered(log) && lo < hi <= |log| && log[hi - 1] - log[lo] < l.window
        ensures Admissions(score, l, log, lo, hi) <= l.rate
      {
        if l.rate == 0 { CountIsAtMost(Decisions(score, l, log), lo, hi, 0); }
        else if l.window >= 1 { OneIsKept(score, l, log, lo, hi); }
      }
    }
  }
}
