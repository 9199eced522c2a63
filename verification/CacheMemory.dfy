/**
 What stays in memory: a value that was Set, or read from Redis, answers every later Get on the same
 instance until it ends, and no longer, whatever Redis and the breaker do in the meantime.  And what
 the breaker of a cache has seen.
 */
module CacheMemory {
  import opened Wrappers
  import opened MemoryCache
  import opened CircuitBreaker
  import opened CircuitBreakerHistory
  import opened MultiLevelCache
  import opened CacheHistory

  /** The operation neither writes nor deletes the key in memory. */
  predicate Spares<V>(op: Op<V>, key: string) {
    match op
    case Set(k, _, _, _) => k != key
    case Get(_, _) => true
    case Delete(k, _) => k != key
    case DeletePattern(pattern, _) => !MatchPattern(key, pattern)
  }

  /** What a Set, or a Get that is answered by Redis, leaves in memory, and until when. */
  ghost predicate Leaves<V>(o: Timed<V>, n: Node<V>, answer: Answer<V>, key: string, item: Item<V>) {
    match o.op
    case Set(k, value, ttl, _) => k == key && item == Item(value, o.at + ttl)
    case Get(k, _) => k == key && Found(n.l1, key, o.at).None? && answer == Hit(item.value) && item.expiration == o.at + 300_000_000_000
    case _ => false
  }

  lemma LeavesInMemory<V>(c: Config, n: Node<V>, l2: Option<map<string, Entry<V>>>, o: Timed<V>, key: string, item: Item<V>)
    requires Leaves(o, n, Apply(c, n, l2, o.op, o.at).answer, key, item)
    ensures var l1 := Apply(c, n, l2, o.op, o.at).node.l1; key in l1 && l1[key] == item
  {
  }

  lemma StaysInMemory<V>(c: Config, n: Node<V>, l2: Option<map<string, Entry<V>>>, op: Op<V>, at: int, key: string, item: Item<V>)
    requires key in n.l1 && n.l1[key] == item && at <= item.expiration && Spares(op, key)
    ensures var l1 := Apply(c, n, l2, op, at).node.l1; key in l1 && l1[key] == item
  {
  }

  lemma MemoryAnswers<V>(c: Config, n: Node<V>, l2: Option<map<string, Entry<V>>>, key: string, f: Fault, at: int, item: Item<V>)
    requires key in n.l1 && n.l1[key] == item
    ensures at <= item.expiration ==> AfterGet(c, n, l2, key, f, at).answer == Hit(item.value)
    ensures at > item.expiration && (l2.None? || !f.Works? || !Admits(c, n.breaker, at)) ==> AfterGet(c, n, l2, key, f, at).answer == Miss
  {
  }

  // ---------- one instance ----------

  /** Nothing after operation i, up to operation j, touches the key or comes after the item's end. */
  ghost predicate Undisturbed<V>(ops: seq<Timed<V>>, i: nat, j: nat, key: string, item: Item<V>)
    requires j <= |ops|
  {
    forall k :: i < k < j ==> Spares(ops[k].op, key) && ops[k].at <= item.expiration
  }

  lemma {:induction false} ItemStays<V>(c: Config, redis: bool, ops: seq<Timed<V>>, i: nat, j: nat, key: string, item: Item<V>)
    requires i < j <= |ops| && Leaves(ops[i], StateAt(c, redis, ops, i).node, AnswerTo(c, redis, ops, i), key, item)
    requires Undisturbed(ops, i, j, key, item)
    ensures var l1 := StateAt(c, redis, ops, j).node.l1; key in l1 && l1[key] == item
    decreases j
  {
    var s := StateAt(c, redis, ops, j - 1);
    if i == j - 1 {
      LeavesInMemory(c, s.node, s.l2, ops[i], key, item);
    } else {
      ItemStays(c, redis, ops, i, j - 1, key, item);
      StaysInMemory(c, s.node, s.l2, ops[j - 1].op, ops[j - 1].at, key, item);
    }
  }

  /** A value that was Set, or read from Redis and so promoted for five minutes, is answered until its end. */
  lemma RemembersUntil<V>(c: Config, redis: bool, ops: seq<Timed<V>>, i: nat, j: nat, key: string, item: Item<V>)
    requires i < j < |ops| && Leaves(ops[i], StateAt(c, redis, ops, i).node, AnswerTo(c, redis, ops, i), key, item)
    requires Undisturbed(ops, i, j, key, item) && ops[j].op.Get? && ops[j].op.key == key
    ensures ops[j].at <= item.expiration ==> AnswerTo(c, redis, ops, j) == Hit(item.value)
    ensures ops[j].at > item.expiration && (!redis || !ops[j].op.fault.Works?) ==> AnswerTo(c, redis, ops, j) == Miss
  {
    var s := StateAt(c, redis, ops, j);
    ItemStays(c, redis, ops, i, j, key, item);
    RedisStays(c, redis, ops, j);
    MemoryAnswers(c, s.node, s.l2, key, ops[j].op.fault, ops[j].at, item);
  }

  // ---------- many instances over one Redis ----------

  ghost predicate UndisturbedOn<V>(ops: seq<Routed<V>>, i: nat, j: nat, key: string, item: Item<V>)
    requires i < j <= |ops|
  {
    forall k :: i < k < j && ops[k].node == ops[i].node ==> Spares(ops[k].op, key) && ops[k].at <= item.expiration
  }

  ghost predicate Holds<V>(s: Cluster<V>, m: nat, key: string, item: Item<V>) {
    m < |s.nodes| && key in s.nodes[m].l1 && s.nodes[m].l1[key] == item
  }

  lemma RoutingKeeps<V>(c: Config, s: Cluster<V>, o: Routed<V>, m: nat, key: string, item: Item<V>)
    requires o.node < |s.nodes| && Holds(s, m, key, item)
    requires o.node == m ==> Spares(o.op, key) && o.at <= item.expiration
    ensures Holds(Routing(c, s, o), m, key, item)
  {
    if o.node == m { StaysInMemory(c, s.nodes[m], Some(s.l2), o.op, o.at, key, item); }
  }

  lemma RoutingLeaves<V>(c: Config, s: Cluster<V>, o: Routed<V>, key: string, item: Item<V>)
    requires o.node < |s.nodes| && Leaves(At(o.op, o.at), s.nodes[o.node], Routing(c, s, o).answer, key, item)
    ensures Holds(Routing(c, s, o), o.node, key, item)
  {
    LeavesInMemory(c, s.nodes[o.node], Some(s.l2), At(o.op, o.at), key, item);
  }

  lemma {:induction false} ItemStaysOn<V>(c: Config, n: nat, ops: seq<Routed<V>>, i: nat, j: nat, key: string, item: Item<V>)
    requires Routable(n, ops) && i < j <= |ops| && UndisturbedOn(ops, i, j, key, item)
    requires Leaves(At(ops[i].op, ops[i].at), ClusterAt(c, n, ops, i).nodes[ops[i].node], ClusterAt(c, n, ops, i + 1).answer, key, item)
    ensures Holds(ClusterAt(c, n, ops, j), ops[i].node, key, item)
    decreases j
  {
    if i == j - 1 {
      RoutingLeaves(c, ClusterAt(c, n, ops, i), ops[i], key, item);
    } else {
      ItemStaysOn(c, n, ops, i, j - 1, key, item);
      RoutingKeeps(c, ClusterAt(c, n, ops, j - 1), ops[j - 1], ops[i].node, key, item);
    }
  }

  /** The same on any instance of many: what the others do does not matter. */
  lemma RemembersUntilOn<V>(c: Config, n: nat, ops: seq<Routed<V>>, i: nat, j: nat, key: string, item: Item<V>)
    requires Routable(n, ops) && i < j < |ops| && UndisturbedOn(ops, i, j, key, item)
    requires Leaves(At(ops[i].op, ops[i].at), ClusterAt(c, n, ops, i).nodes[ops[i].node], ClusterAt(c, n, ops, i + 1).answer, key, item)
    requires ops[j].node == ops[i].node && ops[j].op.Get? && ops[j].op.key == key && ops[j].at <= item.expiration
    ensures ClusterAt(c, n, ops, j + 1).answer == Hit(item.value)
  {
    var s := ClusterAt(c, n, ops, j);
    ItemStaysOn(c, n, ops, i, j, key, item);
    MemoryAnswers(c, s.nodes[ops[j].node], Some(s.l2), key, ops[j].op.fault, ops[j].at, item);
  }

  /** Until it is written or read from Redis again, a key that was deleted is not answered from memory,
      whether or not Redis confirmed the deletion. */
  predicate Drops<V>(op: Op<V>, key: string) {
    match op
    case Delete(k, _) => k == key
    case DeletePattern(pattern, _) => MatchPattern(key, pattern)
    case _ => false
  }

  predicate DoesNotFill<V>(op: Op<V>, answer: Answer<V>, key: string) {
    match op
    case Set(k, _, _, _) => k != key
    case Get(k, _) => k == key ==> !answer.Hit?
    case _ => true
  }

  lemma {:induction false} StaysGone<V>(c: Config, redis: bool, ops: seq<Timed<V>>, i: nat, j: nat, key: string)
    requires i < j <= |ops| && Drops(ops[i].op, key)
    requires forall k :: i < k < j ==> DoesNotFill(ops[k].op, AnswerTo(c, redis, ops, k), key)
    ensures key !in StateAt(c, redis, ops, j).node.l1
    decreases j
  {
    if i < j - 1 { StaysGone(c, redis, ops, i, j - 1, key); }
  }

  lemma ForgetsAtOnce<V>(c: Config, redis: bool, ops: seq<Timed<V>>, i: nat, j: nat, key: string)
    requires i < j < |ops| && Drops(ops[i].op, key) && ops[j].op.Get? && ops[j].op.key == key
    requires forall k :: i < k < j ==> DoesNotFill(ops[k].op, AnswerTo(c, redis, ops, k), key)
    requires !redis || !ops[j].op.fault.Works? || !Admits(c, StateAt(c, redis, ops, j).node.breaker, ops[j].at)
    ensures AnswerTo(c, redis, ops, j) == Miss
  {
    StaysGone(c, redis, ops, i, j, key);
    RedisStays(c, redis, ops, j);
  }

  // ---------- what the instances share ----------

  /** Redis keeps its entry: the operation does not write the key, or delete it there. */
  predicate SparesShared<V>(op: Op<V>, key: string) {
    match op
    case Set(k, _, _, _) => k != key
    case Get(_, _) => true
    case Delete(k, _) => k != key
    case DeletePattern(pattern, _) => !Glob(key, pattern)
  }

  ghost predicate HasEntry<V>(s: Cluster<V>, o: Routed<V>)
    requires o.op.Set?
  {
    && o.op.key in s.l2
    && s.l2[o.op.key] == Entry(o.op.value, if o.op.ttl > 0 then Some(o.at + o.op.ttl) else None)
  }

  lemma EntryIsWritten<V>(c: Config, s: Cluster<V>, o: Routed<V>)
    requires o.node < |s.nodes| && o.op.Set? && !o.op.fault.FailsUnapplied? && Admits(c, s.nodes[o.node].breaker, o.at)
    ensures HasEntry(Routing(c, s, o), o)
  {
  }

  lemma EntryIsKept<V>(c: Config, s: Cluster<V>, o: Routed<V>, writer: Routed<V>)
    requires o.node < |s.nodes| && writer.op.Set? && HasEntry(s, writer) && SparesShared(o.op, writer.op.key)
    ensures HasEntry(Routing(c, s, o), writer)
  {
  }

  lemma {:induction false} EntryStays<V>(c: Config, n: nat, ops: seq<Routed<V>>, i: nat, j: nat)
    requires Routable(n, ops) && i < j <= |ops| && ops[i].op.Set? && !ops[i].op.fault.FailsUnapplied?
    requires Admits(c, ClusterAt(c, n, ops, i).nodes[ops[i].node].breaker, ops[i].at)
    requires forall k :: i < k < j ==> SparesShared(ops[k].op, ops[i].op.key)
    ensures HasEntry(ClusterAt(c, n, ops, j), ops[i])
    decreases j
  {
    if i == j - 1 {
      EntryIsWritten(c, ClusterAt(c, n, ops, i), ops[i]);
    } else {
      EntryStays(c, n, ops, i, j - 1);
      EntryIsKept(c, ClusterAt(c, n, ops, j - 1), ops[j - 1], ops[i]);
    }
  }

  /** A value that one instance wrote to Redis answers any other instance that has none of its own, until
      its end if its time to live is positive, and for ever otherwise. */
  lemma SharedUntil<V>(c: Config, n: nat, ops: seq<Routed<V>>, i: nat, j: nat)
    requires Routable(n, ops) && i < j < |ops| && ops[i].op.Set? && !ops[i].op.fault.FailsUnapplied?
    requires Admits(c, ClusterAt(c, n, ops, i).nodes[ops[i].node].breaker, ops[i].at)
    requires forall k :: i < k < j ==> SparesShared(ops[k].op, ops[i].op.key)
    requires ops[j].op.Get? && ops[j].op.key == ops[i].op.key && ops[j].op.fault.Works?
    requires Admits(c, ClusterAt(c, n, ops, j).nodes[ops[j].node].breaker, ops[j].at)
    requires Found(ClusterAt(c, n, ops, j).nodes[ops[j].node].l1, ops[j].op.key, ops[j].at).None?
    ensures ClusterAt(c, n, ops, j + 1).answer ==
      if ops[i].op.ttl > 0 && ops[j].at > ops[i].at + ops[i].op.ttl then Miss else Hit(ops[i].op.value)
  {
    EntryStays(c, n, ops, i, j);
  }

  // ---------- what the breaker sees ----------

  /** The outcome that an operation records: of a Redis command that the breaker admitted, a miss being a failure. */
  function Outcome<V>(c: Config, s: Result<V>, o: Timed<V>): Option<Event> {
    if s.l2.None? || !Admits(c, s.node.breaker, o.at) then None
    else match o.op
      case Set(_, _, _, f) => Some(if f.Works? then Success(o.at) else Failure(o.at))
      case Delete(_, f) => Some(if f.Works? then Success(o.at) else Failure(o.at))
      case Get(key, f) =>
        if Found(s.node.l1, key, o.at).Some? then None
        else Some(if f.Works? && Fetched(s.l2.value, key, o.at).Some? then Success(o.at) else Failure(o.at))
      case DeletePattern(_, _) => None
  }

  function OutcomesAt<V>(c: Config, redis: bool, ops: seq<Timed<V>>, k: nat): seq<Event>
    requires k <= |ops|
  {
    if k == 0 then []
    else
      var e := Outcome(c, StateAt(c, redis, ops, k - 1), ops[k - 1]);
      OutcomesAt(c, redis, ops, k - 1) + if e.Some? then [e.value] else []
  }

  lemma OneOutcome<V>(c: Config, s: Result<V>, o: Timed<V>)
    ensures
      var e := Outcome(c, s, o);
      Apply(c, s.node, s.l2, o.op, o.at).node.breaker == if e.Some? then Record(c, s.node.breaker, e.value) else s.node.breaker
  {
  }

  /** The cache's breaker is the replay of those outcomes, so all that holds of replays holds of it. */
  lemma {:induction false} BreakerIsReplay<V>(c: Config, redis: bool, ops: seq<Timed<V>>, k: nat)
    requires k <= |ops|
    ensures
      var log := OutcomesAt(c, redis, ops, k);
      StateAt(c, redis, ops, k).node.breaker == Replay(c, log, |log|)
    decreases k
  {
    if k > 0 {
      var s, log := StateAt(c, redis, ops, k - 1), OutcomesAt(c, redis, ops, k - 1);
      BreakerIsReplay(c, redis, ops, k - 1);
      OneOutcome(c, s, ops[k - 1]);
      var more := OutcomesAt(c, redis, ops, k);
      ReplayPrefix(c, log, more, |log|);
    }
  }

  // ---------- the other counters ----------

  /** The operation asked Redis and got an error or a refusal; an ordinary miss is none. */
  predicate Errs<V>(c: Config, s: Result<V>, o: Timed<V>) {
    s.l2.Some? &&
    match o.op
    case Set(_, _, _, f) => !f.Works? || !Admits(c, s.node.breaker, o.at)
    case Delete(_, f) => !f.Works? || !Admits(c, s.node.breaker, o.at)
    case Get(key, f) => Found(s.node.l1, key, o.at).None? && (!f.Works? || !Admits(c, s.node.breaker, o.at))
    case DeletePattern(_, _) => false
  }

  function ErrorsAt<V>(c: Config, redis: bool, ops: seq<Timed<V>>, k: nat): nat
    requires k <= |ops|
  {
    if k == 0 then 0 else ErrorsAt(c, redis, ops, k - 1) + if Errs(c, StateAt(c, redis, ops, k - 1), ops[k - 1]) then 1 else 0
  }

  function HitsAt<V>(c: Config, redis: bool, ops: seq<Timed<V>>, k: nat): nat
    requires k <= |ops|
  {
    if k == 0 then 0 else HitsAt(c, redis, ops, k - 1) + if AnswerTo(c, redis, ops, k - 1).Hit? then 1 else 0
  }

  function DeleteCalls<V>(ops: seq<Timed<V>>, k: nat): nat
    requires k <= |ops|
  {
    if k == 0 then 0 else DeleteCalls(ops, k - 1) + if ops[k - 1].op.Delete? then 1 else 0
  }

  lemma OneCallCounts<V>(c: Config, s: Result<V>, o: Timed<V>)
    ensures
      var r := Apply(c, s.node, s.l2, o.op, o.at);
      && r.node.metrics.errors == s.node.metrics.errors + (if Errs(c, s, o) then 1 else 0)
      && r.node.metrics.hits == s.node.metrics.hits + (if r.answer.Hit? then 1 else 0)
      && r.node.metrics.deletes == s.node.metrics.deletes + (if o.op.Delete? then 1 else 0)
  {
  }

  /** Hits are the Gets that were answered, deletes the Deletes, errors the failures and refusals. */
  lemma {:induction false} CountersAreExact<V>(c: Config, redis: bool, ops: seq<Timed<V>>, k: nat)
    requires k <= |ops|
    ensures
      var m := StateAt(c, redis, ops, k).node.metrics;
      m.errors == ErrorsAt(c, redis, ops, k) && m.hits == HitsAt(c, redis, ops, k) && m.deletes == DeleteCalls(ops, k)
    decreases k
  {
    if k > 0 {
      CountersAreExact(c, redis, ops, k - 1);
      OneCallCounts(c, StateAt(c, redis, ops, k - 1), ops[k - 1]);
    }
  }
}
