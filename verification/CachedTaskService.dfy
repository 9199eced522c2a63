/**
 The methods of the cached task service, over a database and a cache that they change.
 */
module CachedTaskService {
  import opened Wrappers
  import opened CircuitBreaker
  import opened MultiLevelCache
  import opened TaskService
  import opened CacheKeys
  import opened CachedTasks

  class Database {
    var rows: seq<Task>

    constructor ()
      ensures rows == []
    {
      rows := [];
    }
  }

  class CachedTaskService {
    const db: Database
    const cache: MultiLevelCache<Cached>

    constructor (db: Database, cache: MultiLevelCache<Cached>)
      ensures this.db == db && this.cache == cache
    {
      this.db, this.cache := db, cache;
    }

    function View(): Service
      reads db, cache, cache.l1, cache.breaker, cache.l2
    {
      Service(db.rows, cache.View(), cache.Shared())
    }

    predicate Default() { cache.breaker.config == DEFAULT_CONFIG }

    method ForgetLists(f: Faults, now: int)
      requires Default()
      modifies cache, cache.l1, cache.breaker, cache.l2
      ensures View() == WithoutLists(old(View()), f.third, f.fourth, now)
    {
      var ok := cache.DeletePattern(ALL_PAGES, now, f.third);
      ok := cache.Delete(ALL_TASKS, now, f.fourth);
    }

    method CreateTask(task: Task, generated: UUID, now: int, dbOk: bool, f: Faults) returns (reply: Reply)
      requires Default()
      modifies db, cache, cache.l1, cache.breaker, cache.l2
      ensures (View(), reply) == Created(old(View()), task, generated, dbOk, f, now)
    {
      var row := NewRow(task, generated, now);
      if !dbOk || Find(db.rows, row.id).Some? {
        return Failed;
      }
      db.rows := db.rows + [row];
      cache.Set(TaskKey(task.id), OneTask(task), 30 * MINUTE, now, f.first);
      var ok := cache.DeletePattern(UserPattern(task.userId), now, f.second);
      ForgetLists(f, now);
      return Ok;
    }

    method GetTaskByID(id: UUID, now: int, dbOk: bool, f: Faults) returns (reply: Reply)
      requires Default()
      modifies cache, cache.l1, cache.breaker, cache.l2
      ensures (View(), reply) == ReadTask(old(View()), id, dbOk, f, now)
    {
      var cached := cache.Get(TaskKey(id), now, f.first);
      if cached.Some? {
        return Found(cached.value);
      }
      if !dbOk {
        return Failed;
      }
      var row := Find(db.rows, id);
      if row.None? {
        return NotFound;
      }
      cache.Set(TaskKey(id), OneTask(row.value), 30 * MINUTE, now, f.second);
      return Found(OneTask(row.value));
    }

    method GetTasks(now: int, dbOk: bool, f: Faults) returns (reply: Reply)
      requires Default()
      modifies cache, cache.l1, cache.breaker, cache.l2
      ensures (View(), reply) == ReadAll(old(View()), dbOk, f, now)
    {
      var cached := cache.Get(ALL_TASKS, now, f.first);
      if cached.Some? {
        return Found(cached.value);
      }
      if !dbOk {
        return Failed;
      }
      cache.Set(ALL_TASKS, TaskList(db.rows), 10 * MINUTE, now, f.second);
      return Found(TaskList(db.rows));
    }

    method GetTasksPaginated(a: PageArgs, now: int, dbOk: bool, countOk: bool, f: Faults) returns (reply: Reply)
      requires Default()
      modifies cache, cache.l1, cache.breaker, cache.l2
      ensures (View(), reply) == ReadPage(old(View()), a, dbOk, countOk, f, now)
    {
      var key := PageKey(a);
      var cached := cache.Get(key, now, f.first);
      if cached.Some? {
        return Found(cached.value);
      }
      if !dbOk {
        return Failed;
      }
      var total := 0;
      if countOk {
        total := |db.rows|;
      }
      var result := TaskPage(Page(db.rows, a), total);
      cache.Set(key, result, 5 * MINUTE, now, f.second);
      return Found(result);
    }

    /** The cache calls that UpdateTask and DeleteTask share; their errors are ignored. */
    method ForgetTask(id: UUID, owner: Option<UUID>, f: Faults, now: int)
      requires Default()
      modifies cache, cache.l1, cache.breaker, cache.l2
      ensures View() == Forget(old(View()), id, owner, f, now)
    {
      var ok := cache.Delete(TaskKey(id), now, f.first);
      if owner.Some? {
        ok := cache.DeletePattern(UserPattern(owner.value), now, f.second);
      }
      ForgetLists(f, now);
    }

    method UpdateTask(id: UUID, updated: Task, now: int, dbOk: bool, readOk: bool, f: Faults) returns (reply: Reply)
      requires Default()
      modifies db, cache, cache.l1, cache.breaker, cache.l2
      ensures (View(), reply) == UpdatedTask(old(View()), id, updated, dbOk, readOk, f, now)
    {
      if !dbOk {
        return Failed;
      }
      db.rows := Updated(db.rows, id, updated, now);
      ForgetTask(id, OwnerOf(db.rows, id, readOk), f, now);
      return Ok;
    }

    method DeleteTask(id: UUID, now: int, dbOk: bool, readOk: bool, f: Faults) returns (reply: Reply)
      requires Default()
      modifies db, cache, cache.l1, cache.breaker, cache.l2
      ensures (View(), reply) == DeletedTask(old(View()), id, dbOk, readOk, f, now)
    {
      var owner := OwnerOf(db.rows, id, readOk);
      if !dbOk {
        return Failed;
      }
      db.rows := Removed(db.rows, id);
      ForgetTask(id, owner, f, now);
      return Ok;
    }
  }
}
