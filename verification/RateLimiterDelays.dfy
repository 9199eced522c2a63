/**
 Requests that reach Redis out of clock order.  A limiter reads its clock, and its pipeline runs up to
 `delay` later on the clock of Redis; other instances' pipelines may come in between.
 */
module RateLimiterDelays {
  import opened Arithmetic
  import opened RateLimiter

  /** The clock reading of a request, and the time its pipeline runs at. */
  datatype Request = Request(read: int, at: int)

  /** The pipeline of RateLimiter.Checked, with the two times apart. */
  function Ran(score: int -> int, l: Limit, z: Requests, r: Request): Requests {
    Expiring(Kept(score, l, z, r) + {r.read}, l.window, r.at)
  }

  function Kept(score: int -> int, l: Limit, z: Requests, r: Request): set<int> {
    Pruned(score, l.window, Live(z, r.at), r.read)
  }

  /** In the order of the pipelines. */
  function AfterRuns(score: int -> int, l: Limit, log: seq<Request>, k: nat): Requests
    requires k <= |log|
  {
    if k == 0 then NONE else Ran(score, l, AfterRuns(score, l, log, k - 1), log[k - 1])
  }

  predicate Passes(score: int -> int, l: Limit, log: seq<Request>, k: nat)
    requires k < |log|
  {
    |Kept(score, l, AfterRuns(score, l, log, k), log[k])| < l.rate
  }

  lemma {:induction false} NoDelayIsChecked(score: int -> int, l: Limit, log: seq<Request>, times: seq<int>, k: nat)
    requires k <= |log| == |times| && forall j :: 0 <= j < |log| ==> log[j] == Request(times[j], times[j])
    ensures AfterRuns(score, l, log, k) == After(score, l, times, k)
    ensures k < |log| ==> (Passes(score, l, log, k) <==> Admitted(score, l, times, k))
  {
    if k > 0 { NoDelayIsChecked(score, l, log, times, k - 1); }
  }

  /** Pipelines run in the order of the log, at most `delay` after their readings, which differ. */
  ghost predicate Delayed(log: seq<Request>, delay: nat) {
    && (forall j :: 0 <= j < |log| ==> 0 <= log[j].read <= log[j].at <= log[j].read + delay)
    && (forall i, j :: 0 <= i < j < |log| ==> log[i].at <= log[j].at && log[i].read != log[j].read)
  }

  // ---------- what is still stored ----------

  /** No request from i on and before k drops what was stored at i. */
  lemma StaysOneMore(score: int -> int, l: Limit, log: seq<Request>, delay: nat, i: nat, k: nat)
    requires Rounding(score) && Delayed(log, delay) && ExpiryCovers(l.window) && l.window > 0 && i < k < |log|
    requires log[i].read in AfterRuns(score, l, log, k).times
    requires AfterRuns(score, l, log, k).deadline == log[k - 1].at / MILLISECOND + ExpirySeconds(l.window) * 1000
    requires score(log[k].read - l.window) < score(log[i].read) && log[k].at - l.window < log[i].read
    ensures log[i].read in Kept(score, l, AfterRuns(score, l, log, k), log[k])
  {
    var z := AfterRuns(score, l, log, k);
    assert log[i].read <= log[i].at;
    assert log[i].at <= log[k - 1].at;
    if log[k].at / MILLISECOND > z.deadline {
      ExpiredIsOld(l, log[k - 1].at, log[k].at);
    }
    assert score(0) <= score(log[i].read);
  }

  lemma DeadlineAt(score: int -> int, l: Limit, log: seq<Request>, k: nat)
    requires 1 <= k <= |log| && l.window > 0
    ensures AfterRuns(score, l, log, k).deadline == log[k - 1].at / MILLISECOND + ExpirySeconds(l.window) * 1000
    ensures AfterRuns(score, l, log, k).times == Kept(score, l, AfterRuns(score, l, log, k - 1), log[k - 1]) + {log[k - 1].read}
  {
  }

  ghost predicate Counted(score: int -> int, l: Limit, log: seq<Request>, i: nat, j: nat)
    requires i < j < |log|
  {
    log[i].read in Kept(score, l, AfterRuns(score, l, log, j), log[j])
  }

  lemma ScoreOrders(score: int -> int, t: int, u: int)
    requires Rounding(score) && score(t) < score(u)
    ensures t < u
  {
  }

  /** Request i, read no earlier than lo, at request j, which runs no later than one read by hi. */
  lemma InTime(score: int -> int, l: Limit, log: seq<Request>, delay: nat, i: nat, j: nat, k: nat, lo: int, hi: int)
    requires Rounding(score) && Delayed(log, delay) && i < j <= k < |log| && lo <= log[i].read && log[k].read <= hi
    requires score(hi + delay - l.window) < score(lo)
    ensures score(log[j].read - l.window) < score(log[i].read) && log[j].at - l.window < log[i].read
  {
    assert log[j].read <= log[j].at;
    assert j < k ==> log[j].at <= log[k].at;
    assert log[j].at <= hi + delay;
    assert score(log[j].read - l.window) <= score(hi + delay - l.window);
    assert score(lo) <= score(log[i].read);
    ScoreOrders(score, hi + delay - l.window, lo);
  }

  lemma CountedNext(score: int -> int, l: Limit, log: seq<Request>, delay: nat, i: nat, j: nat, k: nat, lo: int, hi: int)
    requires Rounding(score) && Delayed(log, delay) && ExpiryCovers(l.window) && l.window > 0
    requires i < j <= k < |log| && lo <= log[i].read && log[k].read <= hi
    requires score(hi + delay - l.window) < score(lo)
    requires j == i + 1 || Counted(score, l, log, i, j - 1)
    ensures Counted(score, l, log, i, j)
  {
    DeadlineAt(score, l, log, j);
    InTime(score, l, log, delay, i, j, k, lo, hi);
    StaysOneMore(score, l, log, delay, i, j);
  }

  lemma {:induction false} StillCounted(score: int -> int, l: Limit, log: seq<Request>, delay: nat, i: nat, j: nat, k: nat, lo: int, hi: int)
    requires Rounding(score) && Delayed(log, delay) && ExpiryCovers(l.window) && l.window > 0
    requires i < j <= k < |log| && lo <= log[i].read && log[k].read <= hi
    requires score(hi + delay - l.window) < score(lo)
    ensures Counted(score, l, log, i, j)
    decreases j
  {
    if j > i + 1 { StillCounted(score, l, log, delay, i, j - 1, k, lo, hi); }
    CountedNext(score, l, log, delay, i, j, k, lo, hi);
  }

  // ---------- the bound ----------

  /** Requests that passed, all read between lo and hi. */
  ghost predicate PassedWithin(score: int -> int, l: Limit, log: seq<Request>, passed: set<nat>, lo: int, hi: int) {
    forall i | i in passed :: i < |log| && lo <= log[i].read <= hi && Passes(score, l, log, i)
  }

  lemma {:induction false} Latest(s: set<nat>) returns (k: nat)
    requires s != {}
    ensures k in s && forall i | i in s :: i <= k
  {
    k :| k in s;
    if s != {k} {
      var m := Latest(s - {k});
      assert forall i | i in s :: i == k || i in s - {k};
      if m > k { k := m; }
    }
  }

  function Readings(log: seq<Request>, s: set<nat>): set<int>
    requires forall i | i in s :: i < |log|
  {
    set i | i in s :: log[i].read
  }

  lemma {:induction false} ReadingsDiffer(log: seq<Request>, s: set<nat>)
    requires forall i | i in s :: i < |log|
    requires forall i, j | i in s && j in s && i < j :: log[i].read != log[j].read
    ensures |Readings(log, s)| == |s|
  {
    if s != {} {
      var k := Latest(s);
      ReadingsDiffer(log, s - {k});
      LatestReadsApart(log, s, k);
    }
  }

  lemma LatestReadsApart(log: seq<Request>, s: set<nat>, k: nat)
    requires k in s && forall i | i in s :: i <= k < |log|
    requires forall i | i in s && i < k :: log[i].read != log[k].read
    ensures Readings(log, s) == Readings(log, s - {k}) + {log[k].read}
    ensures log[k].read !in Readings(log, s - {k})
  {
    forall i | i in s - {k} ensures log[i].read != log[k].read {}
  }

  lemma ManyCounted(score: int -> int, l: Limit, log: seq<Request>, s: set<nat>, k: nat)
    requires k < |log| && forall i | i in s :: i < k && Counted(score, l, log, i, k)
    requires forall i, j | i in s && j in s && i < j :: log[i].read != log[j].read
    ensures |Kept(score, l, AfterRuns(score, l, log, k), log[k])| >= |s|
  {
    var kept := Kept(score, l, AfterRuns(score, l, log, k), log[k]);
    forall t | t in Readings(log, s) ensures t in kept {
      var i :| i in s && log[i].read == t;
      assert Counted(score, l, log, i, k);
    }
    ReadingsDiffer(log, s);
    SubsetIsSmaller(Readings(log, s), kept);
  }

  /** At most Rate requests whose readings lie that close together pass. */
  lemma AtMostRateRead(score: int -> int, l: Limit, log: seq<Request>, delay: nat, passed: set<nat>, lo: int, hi: int)
    requires Rounding(score) && Delayed(log, delay) && ExpiryCovers(l.window) && l.window > 0 && l.rate >= 0
    requires PassedWithin(score, l, log, passed, lo, hi) && score(hi + delay - l.window) < score(lo)
    ensures |passed| <= l.rate
  {
    if passed != {} {
      var k := Latest(passed);
      var rest := passed - {k};
      forall i | i in rest ensures i < k && Counted(score, l, log, i, k) {
        StillCounted(score, l, log, delay, i, k, k, lo, hi);
      }
      ManyCounted(score, l, log, rest, k);
      assert Passes(score, l, log, k);
    }
  }

  /** With the doubles Redis keeps: readings less than the window, less the delay and 256 ns, apart. */
  lemma AtMostRateDelayed(l: Limit, log: seq<Request>, delay: nat, passed: set<nat>, lo: int, hi: int)
    requires Delayed(log, delay) && ExpiryCovers(l.window) && l.window > 0 && l.rate >= 0
    requires PassedWithin(DoubleScore, l, log, passed, lo, hi) && hi - lo < l.window - delay - DOUBLE_GRAIN
    ensures |passed| <= l.rate
  {
    DoubleScoreRounds();
    AtMostRateRead(DoubleScore, l, log, delay, passed, lo, hi);
  }

  // ---------- the bound without the delay ----------

  function Exact(t: int): int { t }

  /** Two requests, one much later, and one that was read before it and runs after it. */
  function Overtaken(window: int, delay: nat): seq<Request> {
    [Request(0, 0), Request(1, 1), Request(window + 1, window + 1), Request(window + 1 - delay, window + 1)]
  }

  /** Even with exact scores: three requests pass at Rate 2, read less than a window apart. */
  lemma DelaysMissTheBound(window: int, delay: nat)
    requires window < SECOND && 2 <= delay < window
    ensures Delayed(Overtaken(window, delay), delay)
    ensures PassedWithin(Exact, Limit(2, window), Overtaken(window, delay), {0, 1, 3}, 0, window + 1 - delay)
  {
    var l, log := Limit(2, window), Overtaken(window, delay);
    var e := ExpirySeconds(window) * 1000;
    assert AfterRuns(Exact, l, log, 0) == NONE;
    assert Kept(Exact, l, NONE, log[0]) == {};
    assert AfterRuns(Exact, l, log, 1) == Requests({0}, e);
    assert Kept(Exact, l, Requests({0}, e), log[1]) == {0};
    assert AfterRuns(Exact, l, log, 2) == Requests({0, 1}, e);
    assert Kept(Exact, l, Requests({0, 1}, e), log[2]) == {};
    assert AfterRuns(Exact, l, log, 3) == Requests({window + 1}, (window + 1) / MILLISECOND + e);
    assert Kept(Exact, l, AfterRuns(Exact, l, log, 3), log[3]) == {window + 1};
  }
}
