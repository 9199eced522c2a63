/**
 Batch warming: the job list is cut into batches; for each batch goroutines drain a channel
 that the warmer fills and closes, and each job they receive is Set in the cache.

 One step is one channel operation or one Set.  Jobs are named by their place in the batch.
 */
module BatchWarmer {
  import opened Arithmetic
  import opened PriorityQueue

  datatype Hand = Free | Holding(i: nat) | Done

  datatype System = System(sent: nat, closed: bool, received: nat, hands: seq<Hand>, log: seq<nat>)

  datatype Step = Send | Close | Receive(w: nat) | Write(w: nat) | Exit(w: nat)

  /** How many goroutines a batch of n jobs gets. */
  function Spawned(n: nat, concurrency: int): nat {
    if concurrency <= 0 then 0 else if concurrency < n then concurrency else n
  }

  function Init(g: nat): System { System(0, false, 0, seq(g, _ => Free), []) }

  predicate Enabled(n: nat, s: System, e: Step) {
    match e
    case Send => s.sent < n && s.sent - s.received < n
    case Close => s.sent == n && !s.closed
    case Receive(w) => w < |s.hands| && s.hands[w].Free? && s.received < s.sent
    case Write(w) => w < |s.hands| && s.hands[w].Holding?
    case Exit(w) => w < |s.hands| && s.hands[w].Free? && s.closed && s.received == s.sent
  }

  function Apply(n: nat, s: System, e: Step): System
    requires Enabled(n, s, e)
  {
    match e
    case Send => s.(sent := s.sent + 1)
    case Close => s.(closed := true)
    case Receive(w) => s.(hands := s.hands[w := Holding(s.received)], received := s.received + 1)
    case Write(w) => s.(hands := s.hands[w := Free], log := s.log + [s.hands[w].i])
    case Exit(w) => s.(hands := s.hands[w := Done])
  }

  /** The warmer waits for every goroutine. */
  predicate Finished(s: System) { s.closed && forall h | h in s.hands :: h.Done? }

  predicate Legal(n: nat, g: nat, steps: seq<Step>)
    decreases |steps|, 0
  {
    steps == [] ||
    (Legal(n, g, steps[..|steps| - 1]) && Enabled(n, After(n, g, steps[..|steps| - 1]), steps[|steps| - 1]))
  }

  function After(n: nat, g: nat, steps: seq<Step>): System
    requires Legal(n, g, steps)
    decreases |steps|, 1
  {
    if steps == [] then Init(g) else Apply(n, After(n, g, steps[..|steps| - 1]), steps[|steps| - 1])
  }

  ghost predicate Reaches(n: nat, g: nat, s: System) {
    exists steps :: Legal(n, g, steps) && After(n, g, steps) == s
  }

  lemma Start(n: nat, g: nat)
    ensures Reaches(n, g, Init(g))
  {
    assert Legal(n, g, []) && After(n, g, []) == Init(g);
  }

  lemma Extend(n: nat, g: nat, s: System, e: Step)
    requires Reaches(n, g, s) && Enabled(n, s, e)
    ensures Reaches(n, g, Apply(n, s, e))
  {
    var steps :| Legal(n, g, steps) && After(n, g, steps) == s;
    assert (steps + [e])[..|steps + [e]| - 1] == steps;
    assert Legal(n, g, steps + [e]);
    assert After(n, g, steps + [e]) == Apply(n, s, e);
  }

  // ---------- what every interleaving keeps ----------

  function Held(hands: seq<Hand>): (k: nat)
    ensures k <= |hands|
  {
    if hands == [] then 0
    else Held(hands[..|hands| - 1]) + if hands[|hands| - 1].Holding? then 1 else 0
  }

  lemma {:induction false} HeldUpdate(hands: seq<Hand>, w: nat, h: Hand)
    requires w < |hands|
    ensures Held(hands[w := h]) == Held(hands)
      + (if h.Holding? then 1 else 0) - (if hands[w].Holding? then 1 else 0)
    decreases |hands|
  {
    var front := hands[..|hands| - 1];
    if w < |front| {
      HeldUpdate(front, w, h);
      assert hands[w := h][..|hands| - 1] == front[w := h];
    } else {
      assert hands[w := h][..|hands| - 1] == front;
    }
  }

  /** Each place once, and never more than the goroutines can have taken ahead. */
  ghost predicate Ordering(log: seq<nat>, n: nat, g: nat) {
    (forall m :: 0 <= m < |log| ==> log[m] < n && log[m] < m + g) &&
    (forall m, m' :: 0 <= m < m' < |log| ==> log[m] != log[m'])
  }

  ghost predicate Somewhere(s: System, i: nat) {
    i in s.log || exists w :: 0 <= w < |s.hands| && s.hands[w] == Holding(i)
  }

  ghost predicate Inv(n: nat, g: nat, s: System) {
    && |s.hands| == g
    && s.received <= s.sent <= n
    && (s.closed ==> s.sent == n)
    && s.received == |s.log| + Held(s.hands)
    && Ordering(s.log, n, g)
    && (forall i: nat :: i < s.received ==> Somewhere(s, i))
    && (forall i :: i in s.log ==> i < s.received)
    && (forall w :: 0 <= w < |s.hands| && s.hands[w].Holding? ==> s.hands[w].i < s.received && s.hands[w].i !in s.log)
    && (forall w, w' :: 0 <= w < w' < |s.hands| && s.hands[w].Holding? ==> s.hands[w] != s.hands[w'])
    && (forall w :: 0 <= w < |s.hands| && s.hands[w].Done? ==> s.closed && s.received == s.sent)
  }

  lemma {:induction false} NoneHeld(hands: seq<Hand>)
    requires forall h | h in hands :: !h.Holding?
    ensures Held(hands) == 0
  {
    if hands != [] { NoneHeld(hands[..|hands| - 1]); }
  }

  lemma StillSomewhere(n: nat, s: System, e: Step, i: nat)
    requires Enabled(n, s, e) && Somewhere(s, i)
    ensures Somewhere(Apply(n, s, e), i)
  {
    var s' := Apply(n, s, e);
    if i !in s.log {
      var w :| 0 <= w < |s.hands| && s.hands[w] == Holding(i);
      if e == Write(w) { assert s'.log[|s.log|] == i; } else { assert s'.hands[w] == Holding(i); }
    }
  }

  lemma ReceiveKeeps(n: nat, g: nat, s: System, w: nat)
    requires Inv(n, g, s) && Enabled(n, s, Receive(w))
    ensures Inv(n, g, Apply(n, s, Receive(w)))
  {
    var s' := Apply(n, s, Receive(w));
    HeldUpdate(s.hands, w, Holding(s.received));
    forall i: nat | i < s'.received ensures Somewhere(s', i) {
      if i < s.received { StillSomewhere(n, s, Receive(w), i); } else { assert s'.hands[w] == Holding(i); }
    }
  }

  lemma WriteKeeps(n: nat, g: nat, s: System, w: nat)
    requires Inv(n, g, s) && Enabled(n, s, Write(w))
    ensures Inv(n, g, Apply(n, s, Write(w)))
  {
    HeldUpdate(s.hands, w, Free);
    forall i: nat | i < s.received ensures Somewhere(Apply(n, s, Write(w)), i) { StillSomewhere(n, s, Write(w), i); }
  }

  lemma InvStep(n: nat, g: nat, s: System, e: Step)
    requires Inv(n, g, s) && Enabled(n, s, e)
    ensures Inv(n, g, Apply(n, s, e))
  {
    match e
    case Receive(w) => ReceiveKeeps(n, g, s, w);
    case Write(w) => WriteKeeps(n, g, s, w);
    case Exit(w) =>
      HeldUpdate(s.hands, w, Done);
      forall i: nat | i < s.received ensures Somewhere(Apply(n, s, e), i) { StillSomewhere(n, s, e, i); }
    case Send =>
      forall i: nat | i < s.received ensures Somewhere(Apply(n, s, e), i) { StillSomewhere(n, s, e, i); }
    case Close =>
      forall i: nat | i < s.received ensures Somewhere(Apply(n, s, e), i) { StillSomewhere(n, s, e, i); }
  }

  lemma {:induction false} InvHolds(n: nat, g: nat, steps: seq<Step>)
    requires Legal(n, g, steps)
    ensures Inv(n, g, After(n, g, steps))
    decreases |steps|
  {
    if steps == [] {
      NoneHeld(Init(g).hands);
    } else {
      InvHolds(n, g, steps[..|steps| - 1]);
      InvStep(n, g, After(n, g, steps[..|steps| - 1]), steps[|steps| - 1]);
    }
  }

  lemma ReachedInv(n: nat, g: nat, s: System)
    requires Reaches(n, g, s)
    ensures Inv(n, g, s)
  {
    var steps :| Legal(n, g, steps) && After(n, g, steps) == s;
    InvHolds(n, g, steps);
  }

  /** When the warmer goes on, every job has been Set exactly once - or none, without goroutines. */
  lemma EachJobSetOnce(n: nat, g: nat, s: System)
    requires Reaches(n, g, s) && Finished(s)
    ensures g >= 1 ==> |s.log| == n && Ordering(s.log, n, g) && forall i: nat :: i < n ==> i in s.log
    ensures g == 0 ==> s.log == []
  {
    ReachedInv(n, g, s);
    NoneHeld(s.hands);
    assert s.log == [] || s.log[0] < g;
    if g >= 1 {
      assert s.hands[0].Done?;
      forall i: nat | i < n ensures i in s.log { assert Somewhere(s, i); }
    }
  }

  // ---------- every interleaving ends ----------

  function Measure(n: nat, s: System): int {
    3 * n - s.sent - 2 * s.received + (if s.closed then 0 else 1) + Held(s.hands) + Remaining(s.hands)
  }

  function Remaining(hands: seq<Hand>): nat {
    if hands == [] then 0
    else Remaining(hands[..|hands| - 1]) + if hands[|hands| - 1].Done? then 0 else 1
  }

  lemma {:induction false} RemainingUpdate(hands: seq<Hand>, w: nat, h: Hand)
    requires w < |hands| && !hands[w].Done?
    ensures Remaining(hands[w := h]) == Remaining(hands) - if h.Done? then 1 else 0
    decreases |hands|
  {
    var front := hands[..|hands| - 1];
    if w < |front| {
      RemainingUpdate(front, w, h);
      assert hands[w := h][..|hands| - 1] == front[w := h];
    } else {
      assert hands[w := h][..|hands| - 1] == front;
    }
  }

  lemma StepLowers(n: nat, g: nat, s: System, e: Step)
    requires Inv(n, g, s) && Enabled(n, s, e)
    ensures 0 <= Measure(n, Apply(n, s, e)) < Measure(n, s)
  {
    InvStep(n, g, s, e);
    match e
    case Send =>
    case Close =>
    case Receive(w) =>
      HeldUpdate(s.hands, w, Holding(s.received));
      RemainingUpdate(s.hands, w, Holding(s.received));
    case Write(w) =>
      HeldUpdate(s.hands, w, Free);
      RemainingUpdate(s.hands, w, Free);
    case Exit(w) =>
      HeldUpdate(s.hands, w, Done);
      RemainingUpdate(s.hands, w, Done);
  }

  /** A send never blocks, and until the batch is finished some step is possible. */
  lemma NeverStuck(n: nat, g: nat, s: System) returns (e: Step)
    requires Inv(n, g, s) && !Finished(s)
    ensures Enabled(n, s, e)
    ensures s.sent < n ==> e == Send
  {
    if s.sent < n { return Send; }
    if !s.closed { return Close; }
    var w: nat :| w < |s.hands| && !s.hands[w].Done?;
    e := if s.hands[w].Holding? then Write(w) else if s.received < s.sent then Receive(w) else Exit(w);
  }

  // ---------- exactly which orders occur ----------

  lemma {:induction false} FreeHand(hands: seq<Hand>) returns (w: nat)
    requires Held(hands) < |hands| && forall h | h in hands :: !h.Done?
    ensures w < |hands| && hands[w].Free?
  {
    if hands[|hands| - 1].Free? { return |hands| - 1; }
    w := FreeHand(hands[..|hands| - 1]);
  }

  /** All jobs sent, and every goroutine still draining. */
  ghost predicate Draining(n: nat, g: nat, s: System) {
    Reaches(n, g, s) && s.sent == n && s.closed && forall h | h in s.hands :: !h.Done?
  }

  lemma {:induction false} SendAll(n: nat, g: nat, k: nat)
    requires k <= n
    ensures Reaches(n, g, Init(g).(sent := k))
  {
    if k == 0 { Start(n, g); } else {
      SendAll(n, g, k - 1);
      Extend(n, g, Init(g).(sent := k - 1), Send);
    }
  }

  lemma StartsDraining(n: nat, g: nat) returns (s: System)
    ensures Draining(n, g, s) && s.log == []
  {
    SendAll(n, g, n);
    Extend(n, g, Init(g).(sent := n), Close);
    s := Init(g).(sent := n, closed := true);
  }

  lemma {:induction false} ReceiveUpTo(n: nat, g: nat, s: System, i: nat) returns (s': System)
    requires Draining(n, g, s) && i < n && i < |s.log| + g
    ensures Draining(n, g, s') && s'.log == s.log && i < s'.received
    decreases n - s.received
  {
    if i < s.received { return s; }
    ReachedInv(n, g, s);
    var w := FreeHand(s.hands);
    Extend(n, g, s, Receive(w));
    ReachedInv(n, g, Apply(n, s, Receive(w)));
    s' := ReceiveUpTo(n, g, Apply(n, s, Receive(w)), i);
  }

  lemma {:induction false} LogIsReached(n: nat, g: nat, order: seq<nat>, k: nat) returns (s: System)
    requires Ordering(order, n, g) && k <= |order|
    ensures Draining(n, g, s) && s.log == order[..k]
  {
    if k == 0 {
      s := StartsDraining(n, g);
    } else {
      var s0 := LogIsReached(n, g, order, k - 1);
      var i := order[k - 1];
      var s1 := ReceiveUpTo(n, g, s0, i);
      ReachedInv(n, g, s1);
      assert Somewhere(s1, i);
      assert i !in s1.log;
      var w: nat :| w < |s1.hands| && s1.hands[w] == Holding(i);
      Extend(n, g, s1, Write(w));
      s := Apply(n, s1, Write(w));
    }
  }

  lemma {:induction false} AllExit(n: nat, g: nat, s: System, k: nat) returns (s': System)
    requires Reaches(n, g, s) && s.closed && s.received == s.sent && k <= |s.hands| == g
    requires forall w :: 0 <= w < k ==> s.hands[w].Done?
    requires forall w :: k <= w < g ==> s.hands[w].Free?
    ensures Reaches(n, g, s') && Finished(s') && s'.log == s.log
    decreases g - k
  {
    if k == g { return s; }
    Extend(n, g, s, Exit(k));
    s' := AllExit(n, g, Apply(n, s, Exit(k)), k + 1);
  }

  lemma OrderIsReached(n: nat, g: nat, order: seq<nat>) returns (s: System)
    requires Ordering(order, n, g) && |order| == n
    ensures Reaches(n, g, s) && Finished(s) && s.log == order
  {
    var s0 := LogIsReached(n, g, order, n);
    assert order[..n] == order;
    ReachedInv(n, g, s0);
    AllFree(n, g, s0);
    s := AllExit(n, g, s0, 0);
  }

  lemma AllFree(n: nat, g: nat, s: System)
    requires Draining(n, g, s) && |s.log| == n
    ensures |s.hands| == g && s.received == n
    ensures forall w :: 0 <= w < g ==> s.hands[w].Free?
  {
    ReachedInv(n, g, s);
    forall w | 0 <= w < g ensures s.hands[w].Free? {
      if s.hands[w].Holding? { HeldUpdate(s.hands, w, Free); }
    }
  }

  /** With g goroutines, job i can be Set in place m exactly if i < m + g, whatever the other jobs do. */
  lemma OrdersAreExactly(n: nat, g: nat, order: seq<nat>)
    requires g >= 1
    ensures (exists s :: Reaches(n, g, s) && Finished(s) && s.log == order)
      <==> |order| == n && Ordering(order, n, g)
  {
    if |order| == n && Ordering(order, n, g) {
      var s := OrderIsReached(n, g, order);
    }
    forall s | Reaches(n, g, s) && Finished(s) && s.log == order
      ensures |order| == n && Ordering(order, n, g)
    {
      EachJobSetOnce(n, g, s);
    }
  }

  // ---------- the cache afterwards ----------

  type Content = map<string, (string, int)>

  predicate InRange(order: seq<nat>, n: nat) { forall m :: 0 <= m < |order| ==> order[m] < n }

  /** Data and TTL under each key once the first k jobs of the order are Set. */
  function Warmed(c: Content, jobs: seq<WarmupJob>, order: seq<nat>, k: nat): Content
    requires k <= |order| && InRange(order, |jobs|)
  {
    if k == 0 then c
    else
      var j := jobs[order[k - 1]];
      Warmed(c, jobs, order, k - 1)[j.key := (j.data, j.ttl)]
  }

  predicate Clash(a: WarmupJob, b: WarmupJob) { a.key == b.key && (a.data != b.data || a.ttl != b.ttl) }

  predicate Agree(jobs: seq<WarmupJob>) {
    forall i, j :: 0 <= i < j < |jobs| ==> !Clash(jobs[i], jobs[j])
  }

  ghost predicate Complete(order: seq<nat>, n: nat, g: nat) { |order| == n && Ordering(order, n, g) }

  /** Whatever the goroutines do, the cache ends up the same. */
  ghost predicate ScheduleIndependent(jobs: seq<WarmupJob>, g: nat) {
    forall c: Content, a, b :: Complete(a, |jobs|, g) && Complete(b, |jobs|, g) ==>
      Warmed(c, jobs, a, |jobs|) == Warmed(c, jobs, b, |jobs|)
  }

  /** The value under a key is that of its last job. */
  lemma {:induction false} WarmedAt(c: Content, jobs: seq<WarmupJob>, order: seq<nat>, k: nat, m: nat)
    requires k <= |order| && InRange(order, |jobs|)
    requires m < k && forall m' :: m < m' < k ==> jobs[order[m']].key != jobs[order[m]].key
    ensures var j := jobs[order[m]]; j.key in Warmed(c, jobs, order, k) && Warmed(c, jobs, order, k)[j.key] == (j.data, j.ttl)
  {
    if m < k - 1 { WarmedAt(c, jobs, order, k - 1, m); }
  }

  lemma {:induction false} WarmedWhenAgreed(c: Content, jobs: seq<WarmupJob>, order: seq<nat>, k: nat, m: nat)
    requires k <= |order| && InRange(order, |jobs|)
    requires m < k && Agree(jobs)
    ensures var j := jobs[order[m]]; j.key in Warmed(c, jobs, order, k) && Warmed(c, jobs, order, k)[j.key] == (j.data, j.ttl)
  {
    if m < k - 1 { WarmedWhenAgreed(c, jobs, order, k - 1, m); }
  }

  lemma {:induction false} OtherKeysStay(c: Content, jobs: seq<WarmupJob>, order: seq<nat>, k: nat, key: string)
    requires k <= |order| && InRange(order, |jobs|)
    requires forall m :: 0 <= m < k ==> jobs[order[m]].key != key
    ensures key in Warmed(c, jobs, order, k) <==> key in c
    ensures key in c ==> Warmed(c, jobs, order, k)[key] == c[key]
  {
    if k > 0 { OtherKeysStay(c, jobs, order, k - 1, key); }
  }

  lemma EveryPlaceOccurs(order: seq<nat>, n: nat, g: nat, i: nat)
    requires Complete(order, n, g) && i < n
    ensures i in order
  {
    DistinctFill(order, n, i);
  }

  lemma AgreedIsIndependent(c: Content, jobs: seq<WarmupJob>, g: nat, a: seq<nat>, b: seq<nat>)
    requires Agree(jobs) && Complete(a, |jobs|, g) && Complete(b, |jobs|, g)
    ensures Warmed(c, jobs, a, |jobs|) == Warmed(c, jobs, b, |jobs|)
  {
    var n := |jobs|;
    var x, y := Warmed(c, jobs, a, n), Warmed(c, jobs, b, n);
    forall key
      ensures key in x <==> key in y
      ensures key in x ==> x[key] == y[key]
    {
      if i: nat :| i < n && jobs[i].key == key {
        EveryPlaceOccurs(a, n, g, i);
        EveryPlaceOccurs(b, n, g, i);
        var m: nat :| m < n && a[m] == i;
        var m': nat :| m' < n && b[m'] == i;
        WarmedWhenAgreed(c, jobs, a, n, m);
        WarmedWhenAgreed(c, jobs, b, n, m');
      } else {
        OtherKeysStay(c, jobs, a, n, key);
        OtherKeysStay(c, jobs, b, n, key);
      }
    }
  }

  lemma FirstBelow(order: seq<nat>, n: nat, g: nat)
    requires Ordering(order, n, g) && order != []
    ensures order[0] < g
  {
  }

  lemma {:induction false} OneGoroutineKeepsOrder(order: seq<nat>, n: nat, m: nat)
    requires Ordering(order, n, 1) && m < |order|
    ensures order[m] == m
    decreases m
  {
    if order[m] < m { OneGoroutineKeepsOrder(order, n, order[m]); }
  }

  /** Job i held back until all others are Set. */
  function HeldBack(n: nat, i: nat): (order: seq<nat>)
    requires i < n
    ensures |order| == n && order[n - 1] == i
  {
    seq(n, m requires 0 <= m < n => if m < i then m else if m == n - 1 then i else m + 1)
  }

  lemma HeldBackIsComplete(n: nat, i: nat, g: nat)
    requires i < n && g >= 2
    ensures Complete(HeldBack(n, i), n, g)
  {
  }

  /** With g goroutines at work, the cache is the same after every run exactly if jobs with the same key agree. */
  lemma ScheduleIndependentIff(jobs: seq<WarmupJob>, g: nat)
    ensures ScheduleIndependent(jobs, g) <==> g <= 1 || Agree(jobs)
  {
    var n := |jobs|;
    if g >= 2 && !Agree(jobs) {
      var i, j :| 0 <= i < j < n && Clash(jobs[i], jobs[j]);
      HeldBackIsComplete(n, i, g);
      HeldBackIsComplete(n, j, g);
      WarmedAt(map[], jobs, HeldBack(n, i), n, n - 1);
      WarmedAt(map[], jobs, HeldBack(n, j), n, n - 1);
      assert Warmed(map[], jobs, HeldBack(n, i), n) != Warmed(map[], jobs, HeldBack(n, j), n);
    } else {
      forall c: Content, a, b | Complete(a, n, g) && Complete(b, n, g)
        ensures Warmed(c, jobs, a, n) == Warmed(c, jobs, b, n)
      {
        if g == 1 {
          forall m | 0 <= m < n ensures a[m] == b[m] {
            OneGoroutineKeepsOrder(a, n, m);
            OneGoroutineKeepsOrder(b, n, m);
          }
          assert a == b;
        } else if g == 0 {
          if n > 0 { FirstBelow(a, n, 0); }
        } else {
          AgreedIsIndependent(c, jobs, g, a, b);
        }
      }
    }
  }
}
