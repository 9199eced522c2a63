/**
 The two-level cache: a memory map in front of a Redis that may fail at any command, with
 a circuit breaker between them.  One operation happens at one instant.
 */
module MultiLevelCache {
  import opened Wrappers
  import opened MemoryCache
  import opened CircuitBreaker

  const PROMOTED_TTL: int := 300_000_000_000

  /** A Redis entry; without an expiry it stays. */
  datatype Entry<V> = Entry(value: V, expiry: Option<int>)

  /** What a Redis command does: it works, or it reports an error without or with effect. */
  datatype Fault = Works | FailsUnapplied | FailsApplied

  datatype Metrics = Metrics(hits: nat, misses: nat, sets: nat, deletes: nat, errors: nat)

  /** One instance of the cache. */
  datatype Node<V> = Node(l1: map<string, Item<V>>, breaker: Breaker, metrics: Metrics)

  datatype Op<V> =
    | Set(key: string, value: V, ttl: int, fault: Fault)
    | Get(key: string, fault: Fault)
    | Delete(key: string, fault: Fault)
    | DeletePattern(pattern: string, fault: Fault)

  datatype Answer<V> = Done | Hit(value: V) | Miss | Refused

  /** An instance, the Redis it shares if there is one, and the answer to its caller. */
  datatype Result<V> = Result(node: Node<V>, l2: Option<map<string, Entry<V>>>, answer: Answer<V>)

  // ---------- Redis ----------

  function Stored<V>(store: map<string, Entry<V>>, key: string, value: V, ttl: int, now: int): map<string, Entry<V>> {
    store[key := Entry(value, if ttl > 0 then Some(now + ttl) else None)]
  }

  function Fetched<V>(store: map<string, Entry<V>>, key: string, now: int): Option<V> {
    if key in store && (store[key].expiry.None? || now <= store[key].expiry.value)
    then Some(store[key].value) else None
  }

  function Cleared<V>(store: map<string, Entry<V>>, pattern: string): map<string, Entry<V>> {
    map k | k in store && !Glob(k, pattern) :: store[k]
  }

  class RedisCache<V> {
    var store: map<string, Entry<V>>

    constructor ()
      ensures store == map[]
    {
      store := map[];
    }

    method Set(key: string, value: V, ttl: int, now: int, fault: Fault) returns (ok: bool)
      modifies this
      ensures ok <==> fault.Works?
      ensures store == if fault.FailsUnapplied? then old(store) else Stored(old(store), key, value, ttl, now)
    {
      if !fault.FailsUnapplied? {
        store := store[key := Entry(value, if ttl > 0 then Some(now + ttl) else None)];
      }
      ok := fault.Works?;
    }

    method Get(key: string, now: int, fault: Fault) returns (ok: bool, r: Option<V>)
      ensures ok <==> fault.Works?
      ensures r == if ok then Fetched(store, key, now) else None
    {
      if !fault.Works? {
        return false, None;
      }
      if key in store && (store[key].expiry.None? || now <= store[key].expiry.value) {
        return true, Some(store[key].value);
      }
      return true, None;
    }

    method Delete(key: string, fault: Fault) returns (ok: bool)
      modifies this
      ensures ok <==> fault.Works?
      ensures store == if fault.FailsUnapplied? then old(store) else old(store) - {key}
    {
      if !fault.FailsUnapplied? {
        store := store - {key};
      }
      ok := fault.Works?;
    }

    /** KEYS and then one DEL of all keys found. */
    method DeletePattern(pattern: string, fault: Fault) returns (ok: bool)
      modifies this
      ensures ok <==> fault.Works?
      ensures store == if fault.FailsUnapplied? then old(store) else Cleared(old(store), pattern)
    {
      if !fault.FailsUnapplied? {
        var keys := set k | k in store && Glob(k, pattern);
        store := store - keys;
      }
      ok := fault.Works?;
    }
  }

  // ---------- one operation ----------

  /** The breaker after a call that it admitted. */
  function Recorded(c: Config, b: Breaker, ok: bool, now: int): Breaker {
    if ok then AfterSuccess(c, b, now) else AfterFailure(c, b, now)
  }

  function Count(m: Metrics, hits: nat, misses: nat, sets: nat, deletes: nat, errors: nat): Metrics {
    Metrics(m.hits + hits, m.misses + misses, m.sets + sets, m.deletes + deletes, m.errors + errors)
  }

  function AfterSet<V>(c: Config, n: Node<V>, l2: Option<map<string, Entry<V>>>,
                       key: string, value: V, ttl: int, fault: Fault, now: int): Result<V> {
    var n := n.(l1 := n.l1[key := Item(value, now + ttl)], metrics := Count(n.metrics, 0, 0, 1, 0, 0));
    if l2.None? then Result(n, l2, Done)
    else if !Admits(c, n.breaker, now) then Result(n.(metrics := Count(n.metrics, 0, 0, 0, 0, 1)), l2, Done)
    else
      var n := n.(breaker := Recorded(c, n.breaker, fault.Works?, now),
                  metrics := Count(n.metrics, 0, 0, 0, 0, if fault.Works? then 0 else 1));
      Result(n, if fault.FailsUnapplied? then l2 else Some(Stored(l2.value, key, value, ttl, now)), Done)
  }

  function AfterGet<V>(c: Config, n: Node<V>, l2: Option<map<string, Entry<V>>>,
                       key: string, fault: Fault, now: int): Result<V> {
    var found := Found(n.l1, key, now);
    var n := n.(l1 := Touched(n.l1, key, now));
    if found.Some? then Result(n.(metrics := Count(n.metrics, 1, 0, 0, 0, 0)), l2, Hit(found.value))
    else if l2.None? then Result(n.(metrics := Count(n.metrics, 0, 1, 0, 0, 0)), l2, Miss)
    else if !Admits(c, n.breaker, now) then Result(n.(metrics := Count(n.metrics, 0, 1, 0, 0, 1)), l2, Miss)
    else
      var r := if fault.Works? then Fetched(l2.value, key, now) else None;
      var n := n.(breaker := Recorded(c, n.breaker, r.Some?, now));
      if r.Some? then
        Result(n.(l1 := n.l1[key := Item(r.value, now + PROMOTED_TTL)],
                  metrics := Count(n.metrics, 1, 0, 0, 0, 0)), l2, Hit(r.value))
      else Result(n.(metrics := Count(n.metrics, 0, 1, 0, 0, if fault.Works? then 0 else 1)), l2, Miss)
  }

  function AfterDelete<V>(c: Config, n: Node<V>, l2: Option<map<string, Entry<V>>>,
                          key: string, fault: Fault, now: int): Result<V> {
    var n := n.(l1 := n.l1 - {key}, metrics := Count(n.metrics, 0, 0, 0, 1, 0));
    if l2.None? then Result(n, l2, Done)
    else if !Admits(c, n.breaker, now) then Result(n.(metrics := Count(n.metrics, 0, 0, 0, 0, 1)), l2, Refused)
    else
      var n := n.(breaker := Recorded(c, n.breaker, fault.Works?, now),
                  metrics := Count(n.metrics, 0, 0, 0, 0, if fault.Works? then 0 else 1));
      Result(n, if fault.FailsUnapplied? then l2 else Some(l2.value - {key}),
             if fault.Works? then Done else Refused)
  }

  function AfterDeletePattern<V>(n: Node<V>, l2: Option<map<string, Entry<V>>>,
                                 pattern: string, fault: Fault): Result<V> {
    var n := n.(l1 := map k | k in n.l1 && !MatchPattern(k, pattern) :: n.l1[k]);
    if l2.None? then Result(n, l2, Done)
    else Result(n, if fault.FailsUnapplied? then l2 else Some(Cleared(l2.value, pattern)),
                if fault.Works? then Done else Refused)
  }

  function Apply<V>(c: Config, n: Node<V>, l2: Option<map<string, Entry<V>>>, op: Op<V>, now: int): Result<V> {
    match op
    case Set(key, value, ttl, fault) => AfterSet(c, n, l2, key, value, ttl, fault, now)
    case Get(key, fault) => AfterGet(c, n, l2, key, fault, now)
    case Delete(key, fault) => AfterDelete(c, n, l2, key, fault, now)
    case DeletePattern(pattern, fault) => AfterDeletePattern(n, l2, pattern, fault)
  }

  class MultiLevelCache<V> {
    const l1: MemoryCache<V>
    const l2: RedisCache?<V>
    const breaker: CircuitBreaker
    var hits: nat
    var misses: nat
    var sets: nat
    var deletes: nat
    var errors: nat

    function View(): Node<V>
      reads this, l1, breaker
    {
      Node(l1.store, breaker.View(), Metrics(hits, misses, sets, deletes, errors))
    }

    function Shared(): Option<map<string, Entry<V>>>
      reads l2
    {
      if l2 == null then None else Some(l2.store)
    }

    function Now(answer: Answer<V>): Result<V>
      reads this, l1, breaker, l2
    {
      Result(View(), Shared(), answer)
    }

    constructor (l2: RedisCache?<V>)
      ensures this.l2 == l2 && fresh(l1) && fresh(breaker) && breaker.config == DEFAULT_CONFIG
      ensures View() == Node(map[], INITIAL, Metrics(0, 0, 0, 0, 0))
    {
      this.l1 := new MemoryCache<V>();
      this.l2 := l2;
      this.breaker := new CircuitBreaker(DEFAULT_CONFIG);
      hits, misses, sets, deletes, errors := 0, 0, 0, 0, 0;
    }

    /** Never an error, whatever Redis does. */
    method Set(key: string, value: V, ttl: int, now: int, fault: Fault)
      modifies this, l1, breaker, l2
      ensures Now(Done) == AfterSet(breaker.config, old(View()), old(Shared()), key, value, ttl, fault, now)
    {
      l1.Set(key, value, ttl, now);
      sets := sets + 1;
      if l2 != null {
        var admitted := breaker.Allow(now);
        if !admitted {
          errors := errors + 1;
          return;
        }
        var ok := l2.Set(key, value, ttl, now, fault);
        if ok {
          breaker.RecordSuccess(now);
        } else {
          breaker.RecordFailure(now);
          errors := errors + 1;
        }
      }
    }

    /** A miss in Redis is recorded as a failure, like an error. */
    method Get(key: string, now: int, fault: Fault) returns (r: Option<V>)
      modifies this, l1, breaker
      ensures Now(if r.Some? then Hit(r.value) else Miss)
              == AfterGet(breaker.config, old(View()), old(Shared()), key, fault, now)
    {
      r := l1.Get(key, now);
      if r.Some? {
        hits := hits + 1;
        return;
      }
      if l2 != null {
        var admitted := breaker.Allow(now);
        if admitted {
          var ok;
          ok, r := l2.Get(key, now, fault);
          if r.Some? {
            l1.Set(key, r.value, PROMOTED_TTL, now);
            breaker.RecordSuccess(now);
            hits := hits + 1;
            return;
          }
          breaker.RecordFailure(now);
          if !ok {
            errors := errors + 1;
          }
        } else {
          errors := errors + 1;
        }
      }
      misses := misses + 1;
    }

    method Delete(key: string, now: int, fault: Fault) returns (ok: bool)
      modifies this, l1, breaker, l2
      ensures Now(if ok then Done else Refused)
              == AfterDelete(breaker.config, old(View()), old(Shared()), key, fault, now)
    {
      l1.Delete(key);
      deletes := deletes + 1;
      if l2 == null {
        return true;
      }
      var admitted := breaker.Allow(now);
      if !admitted {
        errors := errors + 1;
        return false;
      }
      ok := l2.Delete(key, fault);
      if ok {
        breaker.RecordSuccess(now);
      } else {
        breaker.RecordFailure(now);
        errors := errors + 1;
      }
    }

    /** Goes to Redis past the breaker. */
    method DeletePattern(pattern: string, now: int, fault: Fault) returns (ok: bool)
      modifies l1, l2
      ensures Now(if ok then Done else Refused)
              == AfterDeletePattern(old(View()), old(Shared()), pattern, fault)
    {
      l1.DeletePattern(pattern);
      if l2 != null {
        ok := l2.DeletePattern(pattern, fault);
      } else {
        ok := true;
      }
    }
  }
}
