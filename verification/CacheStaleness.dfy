/**
 How stale a value can be when cache calls overlap: any number of instances over one Redis, a Set
 in its two writes, a Get in its lookup in memory, its read of Redis and the promotion of what it
 read, with anything in between.  Whether a Redis command fails, is refused by the breaker or is
 left out is open: a call takes any of its steps, or none.  A value's time to live runs from the write
 that stored it, in memory or in Redis.
 */
module CacheStaleness {
  import opened Wrappers
  import opened MemoryCache
  import opened CircuitBreaker
  import opened MultiLevelCache

  /** A value read from Redis and not yet promoted. */
  datatype Flight<V> = Flight(node: nat, key: string, value: V, readAt: int)

  datatype Caches<V> = Caches(l1: seq<map<string, Item<V>>>, l2: map<string, Entry<V>>, flights: seq<Flight<V>>)

  datatype Step<V> =
    | StoreInMemory(node: nat, key: string, value: V, ttl: int)
    | StoreInRedis(key: string, value: V, ttl: int)
    | DropInMemory(node: nat, keys: set<string>)
    | DropInRedis(keys: set<string>)
    | Lookup(node: nat, key: string)
    | ReadRedis(node: nat, key: string)
    | Promote(i: nat)

  datatype Event<V> = Event(step: Step<V>, at: int)

  function Next<V>(s: Caches<V>, e: Event<V>): Caches<V> {
    match e.step
    case StoreInMemory(n, key, value, ttl) =>
      if n < |s.l1| then s.(l1 := s.l1[n := s.l1[n][key := Item(value, e.at + ttl)]]) else s
    case StoreInRedis(key, value, ttl) => s.(l2 := Stored(s.l2, key, value, ttl, e.at))
    case DropInMemory(n, keys) => if n < |s.l1| then s.(l1 := s.l1[n := s.l1[n] - keys]) else s
    case DropInRedis(keys) => s.(l2 := s.l2 - keys)
    case Lookup(n, key) => if n < |s.l1| then s.(l1 := s.l1[n := Touched(s.l1[n], key, e.at)]) else s
    case ReadRedis(n, key) =>
      var r := Fetched(s.l2, key, e.at);
      if n < |s.l1| && r.Some? then s.(flights := s.flights + [Flight(n, key, r.value, e.at)]) else s
    case Promote(i) =>
      if i < |s.flights| && s.flights[i].node < |s.l1| then
        var f := s.flights[i];
        s.(l1 := s.l1[f.node := s.l1[f.node][f.key := Item(f.value, e.at + PROMOTED_TTL)]],
           flights := s.flights[..i] + s.flights[i + 1..])
      else s
  }

  function CachesAt<V>(n: nat, run: seq<Event<V>>, k: nat): Caches<V>
    requires k <= |run|
  {
    if k == 0 then Caches(seq(n, _ => map[]), map[], []) else Next(CachesAt(n, run, k - 1), run[k - 1])
  }

  /** The key and value that a step gives to the caller of a Get. */
  function Returned<V>(s: Caches<V>, e: Event<V>): Option<(string, V)> {
    match e.step
    case Lookup(n, key) =>
      if n < |s.l1| && Found(s.l1[n], key, e.at).Some? then Some((key, Found(s.l1[n], key, e.at).value)) else None
    case Promote(i) => if i < |s.flights| then Some((s.flights[i].key, s.flights[i].value)) else None
    case _ => None
  }

  /** Promotions come at most `delay` after the reads they belong to. */
  predicate Prompt<V>(n: nat, run: seq<Event<V>>, delay: nat) {
    forall k: nat :: k < |run| ==> PromptNow(n, run, k, delay)
  }

  predicate PromptNow<V>(n: nat, run: seq<Event<V>>, k: nat, delay: nat)
    requires k < |run|
  {
    PromptAt(CachesAt(n, run, k), run[k], delay)
  }

  predicate PromptAt<V>(s: Caches<V>, e: Event<V>, delay: nat) {
    e.step.Promote? && e.step.i < |s.flights| ==> e.at <= s.flights[e.step.i].readAt + delay
  }

  predicate StoredAs<V(==)>(e: Event<V>, key: string, value: V) {
    match e.step
    case StoreInMemory(_, k, v, _) => k == key && v == value
    case StoreInRedis(k, v, _) => k == key && v == value
    case _ => false
  }

  /** The value that the event stored has not ended at t, when it is kept `more` longer. */
  predicate LivesTo<V>(e: Event<V>, t: int, more: int)
    requires e.step.StoreInMemory? || e.step.StoreInRedis?
  {
    e.step.ttl <= 0 || t <= e.at + e.step.ttl + more
  }

  // ---------- the steps are those of a call ----------

  /** A Get in one go, on an instance whose breaker admits it and with a Redis that works: the lookup,
      then the read, then the promotion, each as far as it is needed. */
  lemma GetIsItsSteps<V>(c: Config, s: Caches<V>, m: nat, n: Node<V>, key: string, now: int)
    requires m < |s.l1| && n.l1 == s.l1[m] && s.flights == [] && Admits(c, n.breaker, now)
    ensures
      var r := AfterGet(c, n, Some(s.l2), key, Works, now);
      var looked := Next(s, Event(Lookup(m, key), now));
      var read := Next(looked, Event(ReadRedis(m, key), now));
      if Returned(s, Event(Lookup(m, key), now)).Some? then
        r.answer == Hit(Returned(s, Event(Lookup(m, key), now)).value.1) && r.node.l1 == looked.l1[m]
      else if read.flights == [] then r.answer == Miss && r.node.l1 == looked.l1[m]
      else
        && Returned(read, Event(Promote(0), now)) == Some((key, read.flights[0].value))
        && r.answer == Hit(read.flights[0].value)
        && r.node.l1 == Next(read, Event(Promote(0), now)).l1[m]
  {
  }

  /** And a Set: its write in memory, then the one in Redis. */
  lemma SetIsItsSteps<V>(c: Config, s: Caches<V>, m: nat, n: Node<V>, key: string, value: V, ttl: int, now: int)
    requires m < |s.l1| && n.l1 == s.l1[m] && Admits(c, n.breaker, now)
    ensures
      var r := AfterSet(c, n, Some(s.l2), key, value, ttl, Works, now);
      var stored := Next(s, Event(StoreInMemory(m, key, value, ttl), now));
      r.node.l1 == stored.l1[m] && r.l2 == Some(Next(stored, Event(StoreInRedis(key, value, ttl), now)).l2)
  {
  }

  // ---------- everything kept was stored ----------

  ghost predicate Backs<V>(run: seq<Event<V>>, k: nat, key: string, value: V, until: int, more: int)
    requires k <= |run|
  {
    exists i :: 0 <= i < k && StoredAs(run[i], key, value) && LivesTo(run[i], until, more)
  }

  ghost predicate EntryBacked<V>(run: seq<Event<V>>, k: nat, key: string, e: Entry<V>)
    requires k <= |run|
  {
    exists i :: 0 <= i < k && StoredAs(run[i], key, e.value) &&
      (run[i].step.ttl > 0 ==> e.expiry == Some(run[i].at + run[i].step.ttl))
  }

  ghost predicate Backed<V>(run: seq<Event<V>>, k: nat, s: Caches<V>, delay: nat)
    requires k <= |run|
  {
    && (forall key | key in s.l2 :: EntryBacked(run, k, key, s.l2[key]))
    && (forall f | f in s.flights :: Backs(run, k, f.key, f.value, f.readAt, 0))
    && (forall n, key | 0 <= n < |s.l1| && key in s.l1[n] ::
          Backs(run, k, key, s.l1[n][key].value, s.l1[n][key].expiration, PROMOTED_TTL + delay))
  }

  lemma BackedLater<V>(run: seq<Event<V>>, k: nat, s: Caches<V>, delay: nat)
    requires k < |run| && Backed(run, k, s, delay)
    ensures Backed(run, k + 1, s, delay)
  {
    forall key | key in s.l2 ensures EntryBacked(run, k + 1, key, s.l2[key]) {
      assert EntryBacked(run, k, key, s.l2[key]);
    }
    forall f | f in s.flights ensures Backs(run, k + 1, f.key, f.value, f.readAt, 0) {
      assert Backs(run, k, f.key, f.value, f.readAt, 0);
    }
    forall n, key | 0 <= n < |s.l1| && key in s.l1[n]
      ensures Backs(run, k + 1, key, s.l1[n][key].value, s.l1[n][key].expiration, PROMOTED_TTL + delay)
    {
      assert Backs(run, k, key, s.l1[n][key].value, s.l1[n][key].expiration, PROMOTED_TTL + delay);
    }
  }

  lemma StoreBacked<V>(run: seq<Event<V>>, k: nat, s: Caches<V>, delay: nat)
    requires k < |run| && Backed(run, k, s, delay) && (run[k].step.StoreInMemory? || run[k].step.StoreInRedis?)
    ensures Backed(run, k + 1, Next(s, run[k]), delay)
  {
    BackedLater(run, k, s, delay);
    var step := run[k].step;
    assert StoredAs(run[k], step.key, step.value);
    if step.StoreInMemory? {
      assert Backs(run, k + 1, step.key, step.value, run[k].at + step.ttl, PROMOTED_TTL + delay);
    } else {
      assert EntryBacked(run, k + 1, step.key, Next(s, run[k]).l2[step.key]);
    }
  }

  lemma ReadBacked<V>(run: seq<Event<V>>, k: nat, s: Caches<V>, delay: nat)
    requires k < |run| && Backed(run, k, s, delay) && run[k].step.ReadRedis?
    ensures Backed(run, k + 1, Next(s, run[k]), delay)
  {
    BackedLater(run, k, s, delay);
    var key := run[k].step.key;
    if Fetched(s.l2, key, run[k].at).Some? {
      assert EntryBacked(run, k + 1, key, s.l2[key]);
      var i :| 0 <= i < k + 1 && StoredAs(run[i], key, s.l2[key].value) &&
        (run[i].step.ttl > 0 ==> s.l2[key].expiry == Some(run[i].at + run[i].step.ttl));
      assert LivesTo(run[i], run[k].at, 0);
    }
  }

  lemma PromoteBacked<V>(run: seq<Event<V>>, k: nat, s: Caches<V>, delay: nat)
    requires k < |run| && Backed(run, k, s, delay) && run[k].step.Promote? && PromptAt(s, run[k], delay)
    ensures Backed(run, k + 1, Next(s, run[k]), delay)
  {
    BackedLater(run, k, s, delay);
    if run[k].step.i < |s.flights| {
      var f := s.flights[run[k].step.i];
      assert f in s.flights && Backs(run, k + 1, f.key, f.value, f.readAt, 0);
      var i :| 0 <= i < k + 1 && StoredAs(run[i], f.key, f.value) && LivesTo(run[i], f.readAt, 0);
      assert LivesTo(run[i], run[k].at + PROMOTED_TTL, PROMOTED_TTL + delay);
      assert Backs(run, k + 1, f.key, f.value, run[k].at + PROMOTED_TTL, PROMOTED_TTL + delay);
    }
  }

  lemma DropBacked<V>(run: seq<Event<V>>, k: nat, s: Caches<V>, delay: nat)
    requires k < |run| && Backed(run, k, s, delay)
    requires run[k].step.DropInMemory? || run[k].step.DropInRedis? || run[k].step.Lookup?
    ensures Backed(run, k + 1, Next(s, run[k]), delay)
  {
    BackedLater(run, k, s, delay);
  }

  lemma StepBacked<V>(run: seq<Event<V>>, k: nat, s: Caches<V>, delay: nat)
    requires k < |run| && Backed(run, k, s, delay) && PromptAt(s, run[k], delay)
    ensures Backed(run, k + 1, Next(s, run[k]), delay)
  {
    var step := run[k].step;
    if step.StoreInMemory? || step.StoreInRedis? {
      StoreBacked(run, k, s, delay);
    } else if step.ReadRedis? {
      ReadBacked(run, k, s, delay);
    } else if step.Promote? {
      PromoteBacked(run, k, s, delay);
    } else {
      DropBacked(run, k, s, delay);
    }
  }

  lemma BackedAtFirst<V>(n: nat, run: seq<Event<V>>, delay: nat)
    ensures Backed(run, 0, CachesAt(n, run, 0), delay)
  {
  }

  lemma BackedNext<V>(n: nat, run: seq<Event<V>>, delay: nat, k: nat)
    requires k < |run| && PromptNow(n, run, k, delay) && Backed(run, k, CachesAt(n, run, k), delay)
    ensures Backed(run, k + 1, CachesAt(n, run, k + 1), delay)
  {
    StepBacked(run, k, CachesAt(n, run, k), delay);
  }

  lemma {:induction false} AlwaysBacked<V>(n: nat, run: seq<Event<V>>, delay: nat, k: nat)
    requires k <= |run| && Prompt(n, run, delay)
    ensures Backed(run, k, CachesAt(n, run, k), delay)
    decreases k
  {
    if k == 0 {
      BackedAtFirst(n, run, delay);
    } else {
      AlwaysBacked(n, run, delay, k - 1);
      BackedNext(n, run, delay, k - 1);
    }
  }

  // ---------- the bound ----------

  /** Every value a Get returns was stored for its key, and ends no earlier than `more` before it is returned. */
  ghost predicate StaleBy<V>(n: nat, run: seq<Event<V>>, more: int) {
    forall k: nat :: k < |run| && Returned(CachesAt(n, run, k), run[k]).Some? ==>
      var r := Returned(CachesAt(n, run, k), run[k]).value;
      Backs(run, k, r.0, r.1, run[k].at, more)
  }

  /** Whatever overlaps: five minutes and the delay of promotions after the value's time to live. */
  lemma OverlapStalenessIsBounded<V>(n: nat, run: seq<Event<V>>, delay: nat)
    requires Prompt(n, run, delay)
    ensures StaleBy(n, run, PROMOTED_TTL + delay)
  {
    forall k: nat | k < |run| && Returned(CachesAt(n, run, k), run[k]).Some?
      ensures var r := Returned(CachesAt(n, run, k), run[k]).value;
        Backs(run, k, r.0, r.1, run[k].at, PROMOTED_TTL + delay)
    {
      var s, e := CachesAt(n, run, k), run[k];
      AlwaysBacked(n, run, delay, k);
      assert PromptNow(n, run, k, delay);
      if e.step.Lookup? {
        var item := s.l1[e.step.node][e.step.key];
        assert Backs(run, k, e.step.key, item.value, item.expiration, PROMOTED_TTL + delay);
        var i :| 0 <= i < k && StoredAs(run[i], e.step.key, item.value) && LivesTo(run[i], item.expiration, PROMOTED_TTL + delay);
        assert LivesTo(run[i], e.at, PROMOTED_TTL + delay);
      } else {
        var f := s.flights[e.step.i];
        assert f in s.flights && Backs(run, k, f.key, f.value, f.readAt, 0);
        var i :| 0 <= i < k && StoredAs(run[i], f.key, f.value) && LivesTo(run[i], f.readAt, 0);
        assert LivesTo(run[i], e.at, PROMOTED_TTL + delay);
      }
    }
  }

  /**
   Whole calls: one instance's Set; the other's Get reads Redis at the value's very end and promotes
   it late; its next Get comes at the end of the promotion.
   */
  function LateRun(key: string, ttl: int, delay: nat): seq<Event<int>> {
    [Event(StoreInMemory(1, key, 1, ttl), 0), Event(StoreInRedis(key, 1, ttl), 0),
     Event(Lookup(0, key), ttl), Event(ReadRedis(0, key), ttl), Event(Promote(0), ttl + delay),
     Event(Lookup(0, key), ttl + delay + PROMOTED_TTL)]
  }

  lemma LateRunStates(key: string, ttl: int, delay: nat)
    requires ttl > 0
    ensures
      var run, own, redis := LateRun(key, ttl, delay), map[key := Item(1, ttl)], map[key := Entry(1, Some(ttl))];
      && CachesAt(2, run, 0) == Caches([map[], map[]], map[], [])
      && CachesAt(2, run, 1) == Caches([map[], own], map[], [])
      && CachesAt(2, run, 2) == Caches([map[], own], redis, [])
      && CachesAt(2, run, 3) == Caches([map[], own], redis, [])
      && CachesAt(2, run, 4) == Caches([map[], own], redis, [Flight(0, key, 1, ttl)])
      && CachesAt(2, run, 5) == Caches([map[key := Item(1, ttl + delay + PROMOTED_TTL)], own], redis, [])
  {
    var run := LateRun(key, ttl, delay);
    assert CachesAt(2, run, 0) == Caches([map[], map[]], map[], []);
    assert CachesAt(2, run, 1) == Next(CachesAt(2, run, 0), run[0]);
    assert CachesAt(2, run, 2) == Next(CachesAt(2, run, 1), run[1]);
    assert CachesAt(2, run, 3) == Next(CachesAt(2, run, 2), run[2]);
    assert CachesAt(2, run, 4) == Next(CachesAt(2, run, 3), run[3]);
    assert CachesAt(2, run, 5) == Next(CachesAt(2, run, 4), run[4]);
  }

  /** The bound is exact: with promotions delayed so long, less is not enough. */
  lemma OverlapStalenessIsExact(delay: nat, more: int)
    ensures (forall n: nat, run: seq<Event<int>> :: Prompt(n, run, delay) ==> StaleBy(n, run, more))
      <==> more >= PROMOTED_TTL + delay
  {
    if more >= PROMOTED_TTL + delay {
      forall n: nat, run: seq<Event<int>> | Prompt(n, run, delay) ensures StaleBy(n, run, more) {
        OverlapStalenessIsBounded(n, run, delay);
        WiderIsBounded(n, run, PROMOTED_TTL + delay, more);
      }
    } else {
      var run := LateRun("k", 1, delay);
      LateRunStates("k", 1, delay);
      assert Prompt(2, run, delay);
      assert Returned(CachesAt(2, run, 5), run[5]) == Some(("k", 1));
      assert !Backs(run, 5, "k", 1, run[5].at, more);
    }
  }

  lemma WiderIsBounded<V>(n: nat, run: seq<Event<V>>, less: int, more: int)
    requires less <= more && StaleBy(n, run, less)
    ensures StaleBy(n, run, more)
  {
    forall k: nat | k < |run| && Returned(CachesAt(n, run, k), run[k]).Some?
      ensures var r := Returned(CachesAt(n, run, k), run[k]).value;
        Backs(run, k, r.0, r.1, run[k].at, more)
    {
      var r := Returned(CachesAt(n, run, k), run[k]).value;
      assert Backs(run, k, r.0, r.1, run[k].at, less);
      var i :| 0 <= i < k && StoredAs(run[i], r.0, r.1) && LivesTo(run[i], run[k].at, less);
      assert LivesTo(run[i], run[k].at, more);
    }
  }
}
