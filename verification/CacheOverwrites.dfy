/**
 When an overwritten value comes back: Redis missed the Sets that came after it, and memory forgot
 the last one.
 */
module CacheOverwrites {
  import opened Wrappers
  import opened MemoryCache
  import opened CircuitBreaker
  import opened MultiLevelCache
  import opened CacheHistory

  /** A Set of the key: when, and for how long. */
  datatype Written = Written(at: int, ttl: int)

  /** When memory forgets it. */
  function End(w: Written): int { w.at + w.ttl }

  function LastEnd(sets: seq<Written>): int
    requires sets != []
  {
    End(sets[|sets| - 1])
  }

  /** Once the last value has ended in memory, value v has not ended in Redis. */
  predicate Outlives(sets: seq<Written>, v: nat)
    requires v < |sets|
  {
    sets[v].ttl <= 0 || (End(sets[v]) > LastEnd(sets) && End(sets[v]) >= sets[|sets| - 1].at)
  }

  /** The first k operations' Sets of the key. */
  function SetsOf(ops: seq<Timed<int>>, key: string, k: nat): seq<Written>
    requires k <= |ops|
  {
    if k == 0 then []
    else SetsOf(ops, key, k - 1) + if Sets(ops[k - 1], key) then [Written(ops[k - 1].at, ops[k - 1].op.ttl)] else []
  }

  /** The key is never deleted. */
  predicate Spares(op: Op<int>, key: string) {
    match op
    case Delete(k, _) => k != key
    case DeletePattern(pattern, _) => !MatchPattern(key, pattern) && !Glob(key, pattern)
    case _ => true
  }

  /** In time order, the key never deleted, and its values numbered in the order they are Set. */
  ghost predicate Numbered(ops: seq<Timed<int>>, key: string) {
    && InOrder(ops)
    && (forall k: nat :: k < |ops| ==> Spares(ops[k].op, key))
    && (forall k: nat :: k < |ops| && Sets(ops[k], key) ==> ops[k].op.value == |SetsOf(ops, key, k)|)
  }

  // ---------- what can come back ----------

  /** A number that a Get may answer. */
  predicate Answerable(sets: seq<Written>, v: int) {
    0 <= v < |sets| && (v == |sets| - 1 || Outlives(sets, v))
  }

  /** Redis holds one of the values, with its own end. */
  ghost predicate RedisHolds(l2: map<string, Entry<int>>, key: string, sets: seq<Written>) {
    key in l2 ==>
      var e := l2[key];
      0 <= e.value < |sets| &&
      e.expiry == if sets[e.value].ttl > 0 then Some(End(sets[e.value])) else None
  }

  /** Memory holds the last value until its end; after that what may be answered, or nothing. */
  ghost predicate MemoryHolds(l1: map<string, Item<int>>, key: string, sets: seq<Written>, now: int) {
    if sets == [] then key !in l1
    else
      || (key in l1 && l1[key] == Item(|sets| - 1, LastEnd(sets)))
      || (now > LastEnd(sets) && (key in l1 ==> Answerable(sets, l1[key].value)))
  }

  ghost predicate Holds(s: Result<int>, key: string, sets: seq<Written>, now: int) {
    && s.l2.Some? && RedisHolds(s.l2.value, key, sets) && MemoryHolds(s.node.l1, key, sets, now)
    && (sets != [] ==> sets[|sets| - 1].at <= now)
  }

  lemma HoldsAfterSet(c: Config, s: Result<int>, key: string, sets: seq<Written>, was: int, value: int, ttl: int, f: Fault, at: int)
    requires Holds(s, key, sets, was) && value == |sets|
    ensures Holds(AfterSet(c, s.node, s.l2, key, value, ttl, f, at), key, sets + [Written(at, ttl)], at)
  {
    var more := sets + [Written(at, ttl)];
    assert forall i | 0 <= i < |sets| :: more[i] == sets[i];
    assert more[|sets|] == Written(at, ttl);
  }

  lemma HoldsAfterGet(c: Config, s: Result<int>, key: string, sets: seq<Written>, was: int, f: Fault, at: int)
    requires Holds(s, key, sets, was) && was <= at
    ensures var r := AfterGet(c, s.node, s.l2, key, f, at);
      Holds(r, key, sets, at) && (r.answer.Hit? ==> Answerable(sets, r.answer.value))
  {
  }

  lemma HoldsAfterOther(c: Config, s: Result<int>, key: string, sets: seq<Written>, was: int, op: Op<int>, at: int)
    requires Holds(s, key, sets, was) && was <= at && Spares(op, key)
    requires (op.Set? || op.Get?) ==> op.key != key
    ensures Holds(Apply(c, s.node, s.l2, op, at), key, sets, at)
  {
  }

  /** After the first k operations, which ended at `was` at the latest. */
  ghost predicate HoldsAfter(c: Config, ops: seq<Timed<int>>, key: string, k: nat, was: int)
    requires k <= |ops|
  {
    Holds(StateAt(c, true, ops, k), key, SetsOf(ops, key, k), was)
  }

  lemma HoldsNext(c: Config, ops: seq<Timed<int>>, key: string, k: nat, was: int)
    requires Numbered(ops, key) && k < |ops| && HoldsAfter(c, ops, key, k, was) && was <= ops[k].at
    ensures HoldsAfter(c, ops, key, k + 1, ops[k].at)
  {
    var s, sets, o := StateAt(c, true, ops, k), SetsOf(ops, key, k), ops[k];
    assert Spares(o.op, key);
    if Sets(o, key) {
      HoldsAfterSet(c, s, key, sets, was, o.op.value, o.op.ttl, o.op.fault, o.at);
    } else if o.op.Get? && o.op.key == key {
      HoldsAfterGet(c, s, key, sets, was, o.op.fault, o.at);
    } else {
      HoldsAfterOther(c, s, key, sets, was, o.op, o.at);
    }
  }

  lemma {:induction false} AlwaysHolds(c: Config, ops: seq<Timed<int>>, key: string, k: nat)
    requires Numbered(ops, key) && k < |ops|
    ensures HoldsAfter(c, ops, key, k, if k == 0 then ops[0].at else ops[k - 1].at)
    decreases k
  {
    if k > 0 {
      AlwaysHolds(c, ops, key, k - 1);
      HoldsNext(c, ops, key, k - 1, if k == 1 then ops[0].at else ops[k - 2].at);
    }
  }

  /** Whatever fails, a Get answers the last value, or one that outlives it. */
  lemma OnlyOutlivingReturn(c: Config, ops: seq<Timed<int>>, key: string)
    requires Numbered(ops, key) && ops != [] && ops[|ops| - 1].op.Get? && ops[|ops| - 1].op.key == key
    ensures var r := AnswerTo(c, true, ops, |ops| - 1);
      r.Hit? ==> Answerable(SetsOf(ops, key, |ops|), r.value)
  {
    var k := |ops| - 1;
    var o := ops[k];
    var s, sets := StateAt(c, true, ops, k), SetsOf(ops, key, k);
    AlwaysHolds(c, ops, key, k);
    HoldsAfterGet(c, s, key, sets, if k == 0 then o.at else ops[k - 1].at, o.op.fault, o.at);
  }

  // ---------- how it comes back ----------

  /**
   Set v reaches Redis and the others fail; a Set of another key after each keeps the breaker
   closed; the Get comes when memory has forgotten the last value.
   */
  function ReturnOf(sets: seq<Written>, key: string, v: nat): seq<Timed<int>>
    requires v < |sets|
  {
    seq(2 * |sets| + 1, j requires 0 <= j < 2 * |sets| + 1 =>
      if j == 2 * |sets| then At(Get(key, Works), ReadTime(sets))
      else if j % 2 == 0 then At(Set(key, j / 2, sets[j / 2].ttl, if j / 2 == v then Works else FailsUnapplied), sets[j / 2].at)
      else At(Set(key + "x", 0, 1, Works), sets[j / 2].at))
  }

  function ReadTime(sets: seq<Written>): int
    requires sets != []
  {
    if sets[|sets| - 1].ttl < 0 then sets[|sets| - 1].at else LastEnd(sets) + 1
  }

  ghost predicate Ordered(sets: seq<Written>) { forall i, j | 0 <= i < j < |sets| :: sets[i].at <= sets[j].at }

  lemma {:induction false} ReturnSets(sets: seq<Written>, key: string, v: nat, k: nat)
    requires v < |sets| && k <= |sets|
    ensures SetsOf(ReturnOf(sets, key, v), key, 2 * k) == sets[..k]
    ensures k < |sets| ==> SetsOf(ReturnOf(sets, key, v), key, 2 * k + 1) == sets[..k + 1]
  {
    var ops := ReturnOf(sets, key, v);
    if k > 0 {
      ReturnSets(sets, key, v, k - 1);
      assert ops[2 * k - 1].op.key == key + "x";
      assert |key + "x"| == |key| + 1;
    }
    if k < |sets| {
      assert ops[2 * k].op.key == key && (2 * k) / 2 == k;
      assert sets[..k + 1] == sets[..k] + [sets[k]];
    }
  }

  lemma ReturnIsInOrder(sets: seq<Written>, key: string, v: nat)
    requires Ordered(sets) && v < |sets|
    ensures InOrder(ReturnOf(sets, key, v))
  {
    var ops := ReturnOf(sets, key, v);
    forall i, j | 0 <= i < j < |ops| ensures ops[i].at <= ops[j].at {
      if j == 2 * |sets| {
        assert sets[i / 2].at <= sets[|sets| - 1].at <= ReadTime(sets);
      } else {
        assert i / 2 == j / 2 || sets[i / 2].at <= sets[j / 2].at;
      }
    }
  }

  lemma ReturnIsNumbered(sets: seq<Written>, key: string, v: nat)
    requires Ordered(sets) && v < |sets|
    ensures Numbered(ReturnOf(sets, key, v), key)
    ensures SetsOf(ReturnOf(sets, key, v), key, 2 * |sets| + 1) == sets
  {
    var ops := ReturnOf(sets, key, v);
    ReturnSets(sets, key, v, |sets|);
    ReturnIsInOrder(sets, key, v);
    forall k: nat | k < |ops| && Sets(ops[k], key) ensures ops[k].op.value == |SetsOf(ops, key, k)| {
      SetsAreEven(sets, key, v, k);
      ReturnSets(sets, key, v, k / 2);
    }
  }

  lemma SetsAreEven(sets: seq<Written>, key: string, v: nat, k: nat)
    requires v < |sets| && k < 2 * |sets| + 1 && Sets(ReturnOf(sets, key, v)[k], key)
    ensures k < 2 * |sets| && k == 2 * (k / 2) && ReturnOf(sets, key, v)[k].op.value == k / 2
  {
    assert |key + "x"| == |key| + 1;
  }

  /** After the first k pairs. */
  ghost predicate Stands(s: Result<int>, sets: seq<Written>, key: string, v: nat, k: nat)
    requires v < |sets| && k <= |sets|
  {
    && s.node.breaker.state.Closed? && s.node.breaker.failures == 0 && s.l2.Some?
    && (if k <= v then key !in s.l2.value
        else key in s.l2.value && s.l2.value[key] == Entry(v, if sets[v].ttl > 0 then Some(End(sets[v])) else None))
    && (if k == 0 then key !in s.node.l1
        else key in s.node.l1 && s.node.l1[key] == Item(k - 1, End(sets[k - 1])))
  }

  lemma OnePair(c: Config, s: Result<int>, sets: seq<Written>, key: string, v: nat, k: nat)
    requires c.maxFailures >= 2 && v < |sets| && k < |sets| && Stands(s, sets, key, v, k)
    ensures Stands(AfterPair(c, s, sets, key, v, k), sets, key, v, k + 1)
  {
    assert |key + "x"| == |key| + 1;
  }

  lemma PairAt(sets: seq<Written>, key: string, v: nat, k: nat)
    requires v < |sets| && k < |sets|
    ensures var ops := ReturnOf(sets, key, v);
      && ops[2 * k] == At(Set(key, k, sets[k].ttl, if k == v then Works else FailsUnapplied), sets[k].at)
      && ops[2 * k + 1] == At(Set(key + "x", 0, 1, Works), sets[k].at)
  {
    assert (2 * k) / 2 == k && (2 * k + 1) / 2 == k;
  }

  lemma TwoSteps(c: Config, ops: seq<Timed<int>>, k: nat)
    requires k + 2 <= |ops|
    ensures
      var s := StateAt(c, true, ops, k);
      var r := Apply(c, s.node, s.l2, ops[k].op, ops[k].at);
      StateAt(c, true, ops, k + 2) == Apply(c, r.node, r.l2, ops[k + 1].op, ops[k + 1].at)
  {
    assert StateAt(c, true, ops, k + 1) ==
      Apply(c, StateAt(c, true, ops, k).node, StateAt(c, true, ops, k).l2, ops[k].op, ops[k].at);
  }

  ghost predicate StandsAfter(c: Config, sets: seq<Written>, key: string, v: nat, k: nat)
    requires v < |sets| && k <= |sets|
  {
    Stands(StateAt(c, true, ReturnOf(sets, key, v), 2 * k), sets, key, v, k)
  }

  /** The state after pair k, from the one before. */
  function AfterPair(c: Config, s: Result<int>, sets: seq<Written>, key: string, v: nat, k: nat): Result<int>
    requires k < |sets|
  {
    var r := AfterSet(c, s.node, s.l2, key, k, sets[k].ttl, if k == v then Works else FailsUnapplied, sets[k].at);
    AfterSet(c, r.node, r.l2, key + "x", 0, 1, Works, sets[k].at)
  }

  lemma PairState(c: Config, sets: seq<Written>, key: string, v: nat, k: nat)
    requires v < |sets| && k < |sets|
    ensures var ops := ReturnOf(sets, key, v);
      StateAt(c, true, ops, 2 * (k + 1)) == AfterPair(c, StateAt(c, true, ops, 2 * k), sets, key, v, k)
  {
    PairAt(sets, key, v, k);
    TwoSteps(c, ReturnOf(sets, key, v), 2 * k);
    assert 2 * (k + 1) == 2 * k + 2;
  }

  lemma PairStands(c: Config, sets: seq<Written>, key: string, v: nat, k: nat)
    requires c.maxFailures >= 2 && v < |sets| && k < |sets| && StandsAfter(c, sets, key, v, k)
    ensures StandsAfter(c, sets, key, v, k + 1)
  {
    var s := StateAt(c, true, ReturnOf(sets, key, v), 2 * k);
    OnePair(c, s, sets, key, v, k);
    PairState(c, sets, key, v, k);
  }

  lemma NoPairStands(c: Config, sets: seq<Written>, key: string, v: nat)
    requires v < |sets|
    ensures StandsAfter(c, sets, key, v, 0)
  {
  }

  lemma {:induction false} PairsStand(c: Config, sets: seq<Written>, key: string, v: nat, k: nat)
    requires c.maxFailures >= 2 && v < |sets| && k <= |sets|
    ensures StandsAfter(c, sets, key, v, k)
  {
    if k == 0 {
      NoPairStands(c, sets, key, v);
    } else {
      PairsStand(c, sets, key, v, k - 1);
      PairStands(c, sets, key, v, k - 1);
    }
  }

  lemma LastReads(c: Config, s: Result<int>, sets: seq<Written>, key: string, v: nat)
    requires v < |sets| && Stands(s, sets, key, v, |sets|) && Outlives(sets, v)
    ensures AfterGet(c, s.node, s.l2, key, Works, ReadTime(sets)).answer == Hit(v as int)
  {
  }

  lemma ValueReturns(c: Config, sets: seq<Written>, key: string, v: nat)
    requires c.maxFailures >= 2 && v < |sets| && Outlives(sets, v)
    ensures AnswerTo(c, true, ReturnOf(sets, key, v), 2 * |sets|) == Hit(v as int)
  {
    var ops := ReturnOf(sets, key, v);
    PairsStand(c, sets, key, v, |sets|);
    LastReads(c, StateAt(c, true, ops, 2 * |sets|), sets, key, v);
    assert ops[2 * |sets|] == At(Get(key, Works), ReadTime(sets));
  }

  ghost predicate Returns(c: Config, sets: seq<Written>, key: string, v: nat, ops: seq<Timed<int>>) {
    && Numbered(ops, key) && SetsOf(ops, key, |ops|) == sets
    && ops != [] && ops[|ops| - 1].op.Get? && ops[|ops| - 1].op.key == key
    && AnswerTo(c, true, ops, |ops| - 1) == Hit(v as int)
  }

  /**
   Any Sets of a key, with whatever else happens but a deletion of it: some history ends in a Get
   that answers the overwritten value v exactly if that never ends in Redis, or ends after the
   last value.
   */
  lemma OverwrittenReturnsIff(c: Config, sets: seq<Written>, key: string, v: nat)
    requires c.maxFailures >= 2 && Ordered(sets) && v + 1 < |sets|
    ensures (exists ops :: Returns(c, sets, key, v, ops)) <==> Outlives(sets, v)
  {
    forall ops | Returns(c, sets, key, v, ops) ensures Outlives(sets, v) {
      OnlyOutlivingReturn(c, ops, key);
    }
    if Outlives(sets, v) {
      ReturnIsNumbered(sets, key, v);
      ValueReturns(c, sets, key, v);
      assert Returns(c, sets, key, v, ReturnOf(sets, key, v));
    }
  }

  // ---------- two Sets, and exactly which faults ----------

  /** Value 1 and then value 2 are set for one key of a new cache. */
  function AfterTwoSets(key: string, t1: int, ttl1: int, f1: Fault, t2: int, ttl2: int, f2: Fault): Result<int> {
    var r := AfterSet(DEFAULT_CONFIG, Fresh(), Some(map[]), key, 1, ttl1, f1, t1);
    AfterSet(DEFAULT_CONFIG, r.node, r.l2, key, 2, ttl2, f2, t2)
  }

  /** A read after that gives the overwritten value. */
  predicate ReadsFirst(key: string, t1: int, ttl1: int, f1: Fault, t2: int, ttl2: int, f2: Fault, t3: int, f3: Fault) {
    var r := AfterTwoSets(key, t1, ttl1, f1, t2, ttl2, f2);
    AfterGet(DEFAULT_CONFIG, r.node, r.l2, key, f3, t3).answer == Hit(1)
  }

  /** A closed breaker admits a Set, and a few more after it. */
  lemma SetWhileClosed(key: string, n: Node<int>, l2: Option<map<string, Entry<int>>>, value: int, ttl: int,
                       f: Fault, now: int, later: int)
    requires n.breaker.state.Closed? && 0 <= n.breaker.failures <= 3 && l2.Some?
    ensures var r := AfterSet(DEFAULT_CONFIG, n, l2, key, value, ttl, f, now);
      && r.node.breaker.state.Closed? && 0 <= r.node.breaker.failures <= n.breaker.failures + 1
      && Found(r.node.l1, key, later) == (if later <= now + ttl then Some(value) else None)
      && r.l2.Some?
      && Fetched(r.l2.value, key, later) ==
           if f.FailsUnapplied? then Fetched(l2.value, key, later)
           else if ttl <= 0 || later <= now + ttl then Some(value) else None
  {
  }

  lemma GetWhileClosed(key: string, n: Node<int>, l2: Option<map<string, Entry<int>>>, f: Fault, now: int)
    requires n.breaker.state.Closed? && l2.Some? && Found(n.l1, key, now) != Some(1)
    ensures AfterGet(DEFAULT_CONFIG, n, l2, key, f, now).answer == Hit(1) <==>
            Found(n.l1, key, now).None? && f.Works? && Fetched(l2.value, key, now) == Some(1)
  {
  }

  /** What a Get gives when memory and Redis hold what two Sets left in them. */
  lemma ReadAfterTwo(key: string, r: Result<int>, t1: int, ttl1: int, f1: Fault, t2: int, ttl2: int, f2: Fault, t3: int, f3: Fault)
    requires r.node.breaker.state.Closed? && r.l2.Some?
    requires Found(r.node.l1, key, t3) == if t3 <= t2 + ttl2 then Some(2) else None
    requires Fetched(r.l2.value, key, t3) ==
      if !f2.FailsUnapplied? then (if ttl2 <= 0 || t3 <= t2 + ttl2 then Some(2) else None)
      else if f1.FailsUnapplied? then None
      else if ttl1 <= 0 || t3 <= t1 + ttl1 then Some(1) else None
    ensures AfterGet(DEFAULT_CONFIG, r.node, r.l2, key, f3, t3).answer == Hit(1) <==>
      && t3 > t2 + ttl2 && f3.Works? && f2.FailsUnapplied? && !f1.FailsUnapplied?
      && (ttl1 <= 0 || t3 <= t1 + ttl1)
  {
    GetWhileClosed(key, r.node, r.l2, f3, t3);
  }

  lemma TwoSetsRead(key: string, t1: int, ttl1: int, f1: Fault, t2: int, ttl2: int, f2: Fault, t3: int, f3: Fault)
    ensures ReadsFirst(key, t1, ttl1, f1, t2, ttl2, f2, t3, f3) <==>
            && t3 > t2 + ttl2 && f3.Works? && f2.FailsUnapplied? && !f1.FailsUnapplied?
            && (ttl1 <= 0 || t3 <= t1 + ttl1)
  {
    var r1 := AfterSet(DEFAULT_CONFIG, Fresh(), Some(map[]), key, 1, ttl1, f1, t1);
    SetWhileClosed(key, Fresh(), Some(map[]), 1, ttl1, f1, t1, t3);
    SetWhileClosed(key, r1.node, r1.l2, 2, ttl2, f2, t2, t3);
    ReadAfterTwo(key, AfterTwoSets(key, t1, ttl1, f1, t2, ttl2, f2), t1, ttl1, f1, t2, ttl2, f2, t3, f3);
  }

  /** The first value can be read again, for some faults and times, if and only if it was to live
      longer than the second, or forever. */
  lemma FirstOfTwoReturnsIff(key: string, t1: int, ttl1: int, t2: int, ttl2: int)
    requires t1 <= t2
    ensures (exists f1, f2, f3, t3 :: t3 >= t2 && ReadsFirst(key, t1, ttl1, f1, t2, ttl2, f2, t3, f3))
            <==> (ttl1 <= 0 || (t1 + ttl1 > t2 + ttl2 && t1 + ttl1 >= t2))
  {
    forall f1, f2, f3, t3 | ReadsFirst(key, t1, ttl1, f1, t2, ttl2, f2, t3, f3)
      ensures t3 > t2 + ttl2 && (ttl1 <= 0 || t3 <= t1 + ttl1)
    {
      TwoSetsRead(key, t1, ttl1, f1, t2, ttl2, f2, t3, f3);
    }
    var t3 := if ttl2 < 0 then t2 else t2 + ttl2 + 1;
    if ttl1 <= 0 || (t1 + ttl1 > t2 + ttl2 && t1 + ttl1 >= t2) {
      TwoSetsRead(key, t1, ttl1, Works, t2, ttl2, FailsUnapplied, t3, Works);
      assert t3 >= t2 && ReadsFirst(key, t1, ttl1, Works, t2, ttl2, FailsUnapplied, t3, Works);
    }
  }
}
