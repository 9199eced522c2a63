/**
 What the answers of the two-level cache say about the operations before them: coherence
 of one instance, and a staleness bound for many instances over one Redis.
 */
module CacheHistory {
  import opened Wrappers
  import opened MemoryCache
  import opened CircuitBreaker
  import opened MultiLevelCache

  datatype Timed<V> = At(op: Op<V>, at: int)

  predicate InOrder<V>(ops: seq<Timed<V>>) {
    forall i, j | 0 <= i < j < |ops| :: ops[i].at <= ops[j].at
  }

  // ---------- one instance ----------

  function Fresh<V>(): Node<V> { Node(map[], INITIAL, Metrics(0, 0, 0, 0, 0)) }

  /** A new instance, with an empty Redis or with none, after the first k operations. */
  function StateAt<V>(c: Config, redis: bool, ops: seq<Timed<V>>, k: nat): Result<V>
    requires k <= |ops|
  {
    if k == 0 then Result(Fresh(), if redis then Some(map[]) else None, Done)
    else
      var s := StateAt(c, redis, ops, k - 1);
      Apply(c, s.node, s.l2, ops[k - 1].op, ops[k - 1].at)
  }

  function AnswerTo<V>(c: Config, redis: bool, ops: seq<Timed<V>>, k: nat): Answer<V>
    requires k < |ops|
  {
    StateAt(c, redis, ops, k + 1).answer
  }

  /** What the callers were told about a key last. */
  datatype Latest<V> = Never | Is(value: V, until: int) | Gone | Unsure

  function LatestAt<V>(c: Config, redis: bool, ops: seq<Timed<V>>, key: string, k: nat): Latest<V>
    requires k <= |ops|
  {
    if k == 0 then Never
    else
      var before := LatestAt(c, redis, ops, key, k - 1);
      var told := AnswerTo(c, redis, ops, k - 1).Done?;
      match ops[k - 1].op
      case Set(key', value, ttl, _) => if key' == key then Is(value, ops[k - 1].at + ttl) else before
      case Get(_, _) => before
      case Delete(key', _) => if key' != key then before else if told then Gone else Unsure
      case DeletePattern(pattern, _) =>
        var inMemory, inRedis := MatchPattern(key, pattern), redis && Glob(key, pattern);
        if !inMemory && !inRedis then before
        else if told && inMemory && (redis ==> inRedis) then Gone else Unsure
  }

  function LastExpiry<V>(ops: seq<Timed<V>>, key: string, k: nat): Option<int>
    requires k <= |ops|
  {
    if k == 0 then None
    else match ops[k - 1].op
         case Set(key', _, ttl, _) => if key' == key then Some(ops[k - 1].at + ttl) else LastExpiry(ops, key, k - 1)
         case _ => LastExpiry(ops, key, k - 1)
  }

  predicate Sets<V>(o: Timed<V>, key: string) { o.op.Set? && o.op.key == key }

  /** The key's times to live are positive, and no value was to live longer than the one that
      replaced it; one time to live for the key is enough for that. */
  predicate Outlasting<V>(ops: seq<Timed<V>>, key: string) {
    && (forall i | 0 <= i < |ops| :: Sets(ops[i], key) ==> ops[i].op.ttl > 0)
    && forall i, j | 0 <= i < j < |ops| ::
         Sets(ops[i], key) && Sets(ops[j], key) ==> ops[i].at + ops[i].op.ttl <= ops[j].at + ops[j].op.ttl
  }

  lemma OneTtlPerKeyOutlasts<V>(ops: seq<Timed<V>>, key: string, ttl: int)
    requires InOrder(ops) && ttl > 0
    requires forall i | 0 <= i < |ops| :: Sets(ops[i], key) ==> ops[i].op.ttl == ttl
    ensures Outlasting(ops, key)
  {
  }

  /** The two levels, as far as they can still answer, agree with what was told last. */
  ghost predicate Agrees<V>(s: Result<V>, key: string, latest: Latest<V>, expiry: Option<int>, now: int) {
    var l1 := s.node.l1;
    && (s.l2.Some? && key in s.l2.value ==>
          && expiry.Some? && s.l2.value[key].expiry.Some?
          && s.l2.value[key].expiry.value <= expiry.value)
    && match latest
       case Never | Gone => key !in l1 && (s.l2.Some? ==> key !in s.l2.value)
       case Is(value, until) =>
         && expiry == Some(until)
         && (key in l1 ==> l1[key].value == value)
         && (s.l2.Some? && key in s.l2.value && s.l2.value[key].value != value ==>
               now > until || (key in l1 && l1[key] == Item(value, until)))
       case Unsure => true
  }

  lemma {:induction false} ExpiryWasSet<V>(ops: seq<Timed<V>>, key: string, k: nat)
    requires k <= |ops| && LastExpiry(ops, key, k).Some?
    ensures exists i :: 0 <= i < k && ops[i].op.Set? && ops[i].op.key == key
                        && LastExpiry(ops, key, k) == Some(ops[i].at + ops[i].op.ttl)
    decreases k
  {
    if !(ops[k - 1].op.Set? && ops[k - 1].op.key == key) { ExpiryWasSet(ops, key, k - 1); }
  }

  lemma {:induction false} RedisStays<V>(c: Config, redis: bool, ops: seq<Timed<V>>, k: nat)
    requires k <= |ops|
    ensures StateAt(c, redis, ops, k).l2.Some? <==> redis
    decreases k
  {
    if k > 0 { RedisStays(c, redis, ops, k - 1); }
  }

  lemma SetAgrees<V>(c: Config, redis: bool, ops: seq<Timed<V>>, key: string, k: nat, was: int)
    requires k < |ops| && ops[k].op.Set? && Outlasting(ops, key) && was <= ops[k].at
    requires Agrees(StateAt(c, redis, ops, k), key, LatestAt(c, redis, ops, key, k), LastExpiry(ops, key, k), was)
    ensures Agrees(StateAt(c, redis, ops, k + 1), key, LatestAt(c, redis, ops, key, k + 1),
                   LastExpiry(ops, key, k + 1), ops[k].at)
  {
    if ops[k].op.key == key && LastExpiry(ops, key, k).Some? {
      ExpiryWasSet(ops, key, k);
    }
  }

  lemma OtherAgrees<V>(c: Config, redis: bool, ops: seq<Timed<V>>, key: string, k: nat, was: int)
    requires k < |ops| && !ops[k].op.Set? && was <= ops[k].at
    requires Agrees(StateAt(c, redis, ops, k), key, LatestAt(c, redis, ops, key, k), LastExpiry(ops, key, k), was)
    ensures Agrees(StateAt(c, redis, ops, k + 1), key, LatestAt(c, redis, ops, key, k + 1),
                   LastExpiry(ops, key, k + 1), ops[k].at)
  {
    RedisStays(c, redis, ops, k);
  }

  lemma {:induction false} AlwaysAgrees<V>(c: Config, redis: bool, ops: seq<Timed<V>>, key: string, k: nat)
    requires k <= |ops| && InOrder(ops) && Outlasting(ops, key)
    ensures Agrees(StateAt(c, redis, ops, k), key, LatestAt(c, redis, ops, key, k), LastExpiry(ops, key, k),
                   if k == 0 then 0 else ops[k - 1].at)
    decreases k
  {
    if k > 0 {
      AlwaysAgrees(c, redis, ops, key, k - 1);
      var was := if k == 1 then ops[0].at else ops[k - 2].at;
      if ops[k - 1].op.Set? {
        SetAgrees(c, redis, ops, key, k - 1, was);
      } else {
        OtherAgrees(c, redis, ops, key, k - 1, was);
      }
    }
  }

  /** Whatever Redis and the breaker do, Get gives the value set last or a miss, and a miss
      once the key is deleted, unless the last deletion of the key was not confirmed. */
  lemma GetIsLatestOrMiss<V>(c: Config, redis: bool, ops: seq<Timed<V>>, k: nat)
    requires k < |ops| && ops[k].op.Get? && InOrder(ops) && Outlasting(ops, ops[k].op.key)
    requires AnswerTo(c, redis, ops, k).Hit?
    ensures var latest := LatestAt(c, redis, ops, ops[k].op.key, k);
      latest.Unsure? || (latest.Is? && latest.value == AnswerTo(c, redis, ops, k).value)
  {
    AlwaysAgrees(c, redis, ops, ops[k].op.key, k);
  }

  // ---------- metrics ----------

  function GetCalls<V>(ops: seq<Timed<V>>, k: nat): nat
    requires k <= |ops|
  {
    if k == 0 then 0 else GetCalls(ops, k - 1) + (if ops[k - 1].op.Get? then 1 else 0)
  }

  function SetCalls<V>(ops: seq<Timed<V>>, k: nat): nat
    requires k <= |ops|
  {
    if k == 0 then 0 else SetCalls(ops, k - 1) + (if ops[k - 1].op.Set? then 1 else 0)
  }

  lemma OneCallIsCounted<V>(c: Config, n: Node<V>, l2: Option<map<string, Entry<V>>>, op: Op<V>, at: int)
    ensures var m := Apply(c, n, l2, op, at).node.metrics;
      && m.hits + m.misses == n.metrics.hits + n.metrics.misses + (if op.Get? then 1 else 0)
      && m.sets == n.metrics.sets + (if op.Set? then 1 else 0)
  {
  }

  /** Every Get is counted once, as a hit or as a miss, and every Set once. */
  lemma {:induction false} EveryCallIsCounted<V>(c: Config, redis: bool, ops: seq<Timed<V>>, k: nat)
    requires k <= |ops|
    ensures var m := StateAt(c, redis, ops, k).node.metrics;
      m.hits + m.misses == GetCalls(ops, k) && m.sets == SetCalls(ops, k)
    decreases k
  {
    if k > 0 {
      var s := StateAt(c, redis, ops, k - 1);
      EveryCallIsCounted(c, redis, ops, k - 1);
      OneCallIsCounted(c, s.node, s.l2, ops[k - 1].op, ops[k - 1].at);
    }
  }

  // ---------- many instances over one Redis ----------

  datatype Cluster<V> = Cluster(nodes: seq<Node<V>>, l2: map<string, Entry<V>>, answer: Answer<V>)

  datatype Routed<V> = On(node: nat, op: Op<V>, at: int)

  predicate Routable<V>(n: nat, ops: seq<Routed<V>>) {
    && (forall i | 0 <= i < |ops| :: ops[i].node < n)
    && (forall i, j | 0 <= i < j < |ops| :: ops[i].at <= ops[j].at)
  }

  function Routing<V>(c: Config, s: Cluster<V>, o: Routed<V>): Cluster<V>
    requires o.node < |s.nodes|
  {
    var r := Apply(c, s.nodes[o.node], Some(s.l2), o.op, o.at);
    Cluster(s.nodes[o.node := r.node], if r.l2.Some? then r.l2.value else s.l2, r.answer)
  }

  function ClusterAt<V>(c: Config, n: nat, ops: seq<Routed<V>>, k: nat): (s: Cluster<V>)
    requires k <= |ops| && Routable(n, ops)
    ensures |s.nodes| == n
  {
    if k == 0 then Cluster(seq(n, _ => Fresh()), map[], Done)
    else Routing(c, ClusterAt(c, n, ops, k - 1), ops[k - 1])
  }

  /** The i-th operation set this value for this key. */
  predicate Wrote<V(==)>(ops: seq<Routed<V>>, i: nat, key: string, value: V)
    requires i < |ops|
  {
    ops[i].op.Set? && ops[i].op.key == key && ops[i].op.value == value
  }

  /** When the i-th operation's value ends, if it ever does. */
  predicate EndsBy<V>(ops: seq<Routed<V>>, i: nat, t: int)
    requires i < |ops| && ops[i].op.Set?
  {
    ops[i].op.ttl <= 0 || t <= ops[i].at + ops[i].op.ttl
  }

  ghost predicate BackedEntry<V>(ops: seq<Routed<V>>, k: nat, key: string, e: Entry<V>)
    requires k <= |ops|
  {
    exists i | 0 <= i < k :: Wrote(ops, i, key, e.value)
      && (ops[i].op.ttl > 0 ==> e.expiry == Some(ops[i].at + ops[i].op.ttl))
  }

  ghost predicate BackedItem<V>(ops: seq<Routed<V>>, k: nat, key: string, item: Item<V>)
    requires k <= |ops|
  {
    exists i | 0 <= i < k :: Wrote(ops, i, key, item.value) && EndsBy(ops, i, item.expiration - PROMOTED_TTL)
  }

  ghost predicate Backed<V>(ops: seq<Routed<V>>, k: nat, s: Cluster<V>)
    requires k <= |ops|
  {
    && (forall key | key in s.l2 :: BackedEntry(ops, k, key, s.l2[key]))
    && (forall n, key | 0 <= n < |s.nodes| && key in s.nodes[n].l1 :: BackedItem(ops, k, key, s.nodes[n].l1[key]))
  }

  lemma RedisStaysBacked<V>(c: Config, ops: seq<Routed<V>>, k: nat, s: Cluster<V>, key: string)
    requires k < |ops| && ops[k].node < |s.nodes| && Backed(ops, k, s)
    requires key in Routing(c, s, ops[k]).l2
    ensures BackedEntry(ops, k + 1, key, Routing(c, s, ops[k]).l2[key])
  {
    var t := Routing(c, s, ops[k]);
    if key in s.l2 && t.l2[key] == s.l2[key] {
      assert BackedEntry(ops, k, key, s.l2[key]);
    } else {
      assert Wrote(ops, k, key, t.l2[key].value);
    }
  }

  lemma MemoryStaysBacked<V>(c: Config, ops: seq<Routed<V>>, k: nat, s: Cluster<V>, m: nat, key: string)
    requires k < |ops| && ops[k].node < |s.nodes| && Backed(ops, k, s)
    requires m < |s.nodes| && key in Routing(c, s, ops[k]).nodes[m].l1
    ensures BackedItem(ops, k + 1, key, Routing(c, s, ops[k]).nodes[m].l1[key])
  {
    var item := Routing(c, s, ops[k]).nodes[m].l1[key];
    if key in s.nodes[m].l1 && item == s.nodes[m].l1[key] {
      assert BackedItem(ops, k, key, item);
    } else if ops[k].op.Get? {
      assert BackedEntry(ops, k, key, s.l2[key]);
    } else {
      assert Wrote(ops, k, key, item.value);
    }
  }

  lemma BackedStep<V>(c: Config, ops: seq<Routed<V>>, k: nat, s: Cluster<V>)
    requires k < |ops| && ops[k].node < |s.nodes| && Backed(ops, k, s)
    ensures Backed(ops, k + 1, Routing(c, s, ops[k]))
  {
    var t := Routing(c, s, ops[k]);
    forall key | key in t.l2 ensures BackedEntry(ops, k + 1, key, t.l2[key]) { RedisStaysBacked(c, ops, k, s, key); }
    forall m, key | 0 <= m < |t.nodes| && key in t.nodes[m].l1 ensures BackedItem(ops, k + 1, key, t.nodes[m].l1[key]) {
      MemoryStaysBacked(c, ops, k, s, m, key);
    }
  }

  lemma BackedAtFirst<V>(c: Config, n: nat, ops: seq<Routed<V>>)
    requires Routable(n, ops)
    ensures Backed(ops, 0, ClusterAt(c, n, ops, 0))
  {
  }

  lemma {:induction false} AlwaysBacked<V>(c: Config, n: nat, ops: seq<Routed<V>>, k: nat)
    requires Routable(n, ops) && k <= |ops|
    ensures Backed(ops, k, ClusterAt(c, n, ops, k))
    decreases k
  {
    if k == 0 {
      BackedAtFirst(c, n, ops);
    } else {
      AlwaysBacked(c, n, ops, k - 1);
      BackedStep(c, ops, k - 1, ClusterAt(c, n, ops, k - 1));
    }
  }

  /** Whatever fails, a value read on any instance was set for that key, and not longer ago
      than its time to live and the five minutes of a promotion. */
  lemma StalenessIsBounded<V>(c: Config, n: nat, ops: seq<Routed<V>>, k: nat)
    requires Routable(n, ops) && k < |ops| && ops[k].op.Get? && ClusterAt(c, n, ops, k + 1).answer.Hit?
    ensures var value, key := ClusterAt(c, n, ops, k + 1).answer.value, ops[k].op.key;
      exists i | 0 <= i < k :: Wrote(ops, i, key, value) && EndsBy(ops, i, ops[k].at - PROMOTED_TTL)
  {
    var s := ClusterAt(c, n, ops, k);
    var key := ops[k].op.key;
    AlwaysBacked(c, n, ops, k);
    if Found(s.nodes[ops[k].node].l1, key, ops[k].at).Some? {
      assert BackedItem(ops, k, key, s.nodes[ops[k].node].l1[key]);
    } else {
      assert BackedEntry(ops, k, key, s.l2[key]);
    }
  }
}
