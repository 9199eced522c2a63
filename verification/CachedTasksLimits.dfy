/**
 Where the cached task service stops agreeing with the plain one.
 */
module CachedTasksLimits {
  import opened Wrappers
  import opened MemoryCache
  import opened CircuitBreaker
  import opened MultiLevelCache
  import opened TaskService
  import opened CacheKeys
  import opened CachedTasks
  import opened CachedTasksCoherence

  const HEALTHY := Faults(Works, Works, Works, Works)

  // ---------- creation ----------

  /** The patterns that the service deletes by match no task key and not the list's key. */
  lemma PatternsSpare(id: UUID, userId: UUID)
    ensures !MatchPattern(TaskKey(id), UserPattern(userId)) && !Glob(TaskKey(id), UserPattern(userId))
    ensures !MatchPattern(TaskKey(id), ALL_PAGES) && !Glob(TaskKey(id), ALL_PAGES)
    ensures !MatchPattern(ALL_TASKS, UserPattern(userId)) && !Glob(ALL_TASKS, UserPattern(userId))
    ensures !MatchPattern(ALL_TASKS, ALL_PAGES) && !Glob(ALL_TASKS, ALL_PAGES)
    ensures TaskKey(id) != ALL_TASKS
  {
    var p := UserPattern(userId);
    assert p[0] == 'u' && TaskKey(id)[0] == 't' && ALL_TASKS[0] == 'a';
    assert p[..|p| - 1][0] == 'u';
    assert Body(ALL_PAGES) == PAGES && Plain(PAGES);
    KeysDiffer(id, id, PageArgs("", "", "", ""));
    GlobPlain(TaskKey(id), PAGES);
    GlobPlain(ALL_TASKS, PAGES);
    PlainBodyAgrees(TaskKey(id), ALL_PAGES);
    PlainBodyAgrees(ALL_TASKS, ALL_PAGES);
  }

  lemma CreatedTaskStays(s: Service, task: Task, generated: UUID, f: Faults, now: int)
    requires Find(s.table, NewRow(task, generated, now).id).None?
    ensures var l1 := Created(s, task, generated, true, f, now).0.node.l1;
      TaskKey(task.id) in l1 && l1[TaskKey(task.id)].value == OneTask(task)
  {
    PatternsSpare(task.id, task.userId);
  }

  /** A created task is cached as the caller gave it, not as the database stored it: that
      agrees with the table if and only if id and status were given. */
  lemma CreateCoherentIff(s: Service, task: Task, generated: UUID, f: Faults, now: int)
    requires Coherent(s) && generated != NIL && Find(s.table, NIL).None?
    requires Find(s.table, NewRow(task, generated, now).id).None?
    requires ListsForgotten(AfterCreateSet(s, task, generated, f, now), f.third, f.fourth, now)
    ensures Coherent(Created(s, task, generated, true, f, now).0) <==> task.id != NIL && task.status != ""
  {
    var row := NewRow(task, generated, now);
    if task.id != NIL && task.status != "" {
      CreateKeeps(s, task, generated, f, now);
    } else {
      CreatedTaskStays(s, task, generated, f, now);
      FindAfterAppend(s.table, row, task.id);
      assert !Agrees(s.table + [row], TaskKey(task.id), OneTask(task));
    }
  }

  // ---------- updates with a healthy Redis ----------

  lemma StillAdmits(b: Breaker, now: int)
    requires Admits(DEFAULT_CONFIG, b, now)
    ensures Admits(DEFAULT_CONFIG, AfterSuccess(DEFAULT_CONFIG, b, now), now)
  {
  }

  lemma AdmittedForgets(s: Service, id: UUID, owner: Option<UUID>, now: int)
    requires s.l2.Some? && Admits(DEFAULT_CONFIG, s.node.breaker, now)
    ensures Forgotten(s, id, owner, HEALTHY, now)
  {
    StillAdmits(s.node.breaker, now);
  }

  /** A refused deletion leaves Redis as it is, and the patterns spare these two keys. */
  lemma RefusedForgets(s: Service, id: UUID, owner: Option<UUID>, now: int)
    requires s.l2.Some? && !Admits(DEFAULT_CONFIG, s.node.breaker, now)
    ensures var t := Forget(s, id, owner, HEALTHY, now);
      && t.table == s.table && t.l2.Some? && t.node.breaker == s.node.breaker
      && (forall key | key in t.node.l1 ::
            key in s.node.l1 && t.node.l1[key] == s.node.l1[key]
            && key != TaskKey(id) && key != ALL_TASKS && !(PAGES <= key))
      && (forall key | key in t.l2.value ::
            key in s.l2.value && t.l2.value[key] == s.l2.value[key] && !(PAGES <= key))
      && (TaskKey(id) in s.l2.value ==> TaskKey(id) in t.l2.value)
      && (ALL_TASKS in s.l2.value ==> ALL_TASKS in t.l2.value)
  {
    PatternsSpare(id, if owner.Some? then owner.value else "");
    forall key ensures (Glob(key, ALL_PAGES) <==> PAGES <= key) && (MatchPattern(key, ALL_PAGES) <==> PAGES <= key) {
      PagePattern(key);
    }
  }

  // ---------- five misses and an update ----------

  lemma OneMiss(s: Service, id: UUID, now: int)
    requires s.l2.Some? && Find(s.table, id).None? && s.node.breaker.state.Closed?
    requires TaskKey(id) !in s.node.l1 && TaskKey(id) !in s.l2.value
    ensures var t := Serve(s, Call(GetTaskByID(id), true, true, HEALTHY, now)).0;
      && t.table == s.table && t.l2 == s.l2 && t.node.l1 == s.node.l1
      && t.node.breaker == AfterFailure(DEFAULT_CONFIG, s.node.breaker, now)
  {
    assert s.node.l1 - {TaskKey(id)} == s.node.l1;
  }

  /** Ids that are asked for, and when. */
  function Misses(s: Service, ids: seq<UUID>, times: seq<int>, n: nat): Service
    requires n <= |ids| == |times|
  {
    if n == 0 then s
    else Serve(Misses(s, ids, times, n - 1), Call(GetTaskByID(ids[n - 1]), true, true, HEALTHY, times[n - 1])).0
  }

  ghost predicate Unknown(s: Service, id: UUID) {
    s.l2.Some? && Find(s.table, id).None? && TaskKey(id) !in s.node.l1 && TaskKey(id) !in s.l2.value
  }

  /** Any lookups of any unknown ids count as failures; the one that makes them five opens the breaker. */
  lemma {:induction false} MissesOpenTheBreaker(s: Service, ids: seq<UUID>, times: seq<int>, n: nat)
    requires n <= |ids| == |times| && s.l2.Some? && forall id | id in ids :: Unknown(s, id)
    requires s.node.breaker.state.Closed? && 0 <= s.node.breaker.failures && n + s.node.breaker.failures <= 5
    ensures var t := Misses(s, ids, times, n);
      && t.table == s.table && t.l2 == s.l2 && t.node.l1 == s.node.l1
      && t.node.breaker.failures == s.node.breaker.failures + n
      && (t.node.breaker.failures < 5 ==> t.node.breaker.state.Closed?)
      && (n > 0 && t.node.breaker.failures == 5 ==> t.node.breaker.state.Open? && t.node.breaker.lastFailure == times[n - 1])
    decreases n
  {
    if n > 0 {
      MissesOpenTheBreaker(s, ids, times, n - 1);
      assert Unknown(s, ids[n - 1]);
      OneMiss(Misses(s, ids, times, n - 1), ids[n - 1], times[n - 1]);
    }
  }

  /** A task is created, an unknown id is asked for five times, and the task is updated. */
  function StaleHistory(task: Task, unknown: UUID, updated: Task): Service {
    var s := Service([], Node(map[], INITIAL, Metrics(0, 0, 0, 0, 0)), Some(map[]));
    var s := Serve(s, Call(CreateTask(task, ""), true, true, HEALTHY, 0)).0;
    var s := Misses(s, seq(5, _ => unknown), seq(5, _ => 0), 5);
    Serve(s, Call(UpdateTask(task.id, updated), true, true, HEALTHY, 0)).0
  }

  lemma AfterCreation(task: Task)
    requires task.id != NIL
    ensures var s := Service([], Node(map[], INITIAL, Metrics(0, 0, 0, 0, 0)), Some(map[]));
      var t := Serve(s, Call(CreateTask(task, ""), true, true, HEALTHY, 0)).0;
      && t.table == [NewRow(task, "", 0)] && t.node.breaker.state.Closed? && t.node.breaker.failures == 0
      && t.l2.Some? && t.l2.value.Keys <= {TaskKey(task.id)} && t.node.l1.Keys <= {TaskKey(task.id)}
      && TaskKey(task.id) in t.l2.value && t.l2.value[TaskKey(task.id)] == Entry(OneTask(task), Some(30 * MINUTE))
  {
    PatternsSpare(task.id, task.userId);
  }

  /** An update while the breaker is open leaves the old entry in Redis only. */
  lemma UpdateWhileOpen(s: Service, id: UUID, updated: Task, now: int)
    requires s.l2.Some? && TaskKey(id) in s.l2.value && Find(s.table, id).Some?
    requires s.node.breaker.state.Open? && s.node.breaker.lastFailure == now
    ensures var t := Serve(s, Call(UpdateTask(id, updated), true, true, HEALTHY, now)).0;
      && Find(t.table, id) == Some(Merged(Find(s.table, id).value, updated, now))
      && TaskKey(id) !in t.node.l1 && t.node.breaker == s.node.breaker
      && t.l2.Some? && TaskKey(id) in t.l2.value && t.l2.value[TaskKey(id)] == s.l2.value[TaskKey(id)]
  {
    var u := s.(table := Updated(s.table, id, updated, now));
    FindAfterUpdate(s.table, id, updated, now, id);
    RefusedForgets(u, id, OwnerOf(u.table, id, true), now);
  }

  lemma ReadFromRedis(s: Service, id: UUID, value: Cached, until: int, now: int)
    requires s.l2.Some? && TaskKey(id) in s.l2.value && s.l2.value[TaskKey(id)] == Entry(value, Some(until))
    requires now <= until && TaskKey(id) !in s.node.l1 && Admits(DEFAULT_CONFIG, s.node.breaker, now)
    ensures Serve(s, Call(GetTaskByID(id), true, true, HEALTHY, now)).1 == Found(value)
  {
  }

  /** No Redis command fails and the update succeeds, yet half a minute later the service
      still replies with the old title. */
  lemma HealthyRedisServesOldTask(task: Task, unknown: UUID, title: string)
    requires task.id != NIL && unknown != task.id && title != "" && title != task.title
    ensures var s := StaleHistory(task, unknown, Task("", "", title, "", "", 0, 0));
      && Find(s.table, task.id).Some? && Find(s.table, task.id).value.title == title
      && Serve(s, Call(GetTaskByID(task.id), true, true, HEALTHY, DEFAULT_CONFIG.timeout)).1 == Found(OneTask(task))
  {
    var updated := Task("", "", title, "", "", 0, 0);
    var s0 := Service([], Node(map[], INITIAL, Metrics(0, 0, 0, 0, 0)), Some(map[]));
    var s1 := Serve(s0, Call(CreateTask(task, ""), true, true, HEALTHY, 0)).0;
    AfterCreation(task);
    KeysDiffer(unknown, task.id, PageArgs("", "", "", ""));
    assert s1.table[1..] == [] && Find(s1.table, unknown).None?;
    MissesOpenTheBreaker(s1, seq(5, _ => unknown), seq(5, _ => 0), 5);
    var s2 := Misses(s1, seq(5, _ => unknown), seq(5, _ => 0), 5);
    UpdateWhileOpen(s2, task.id, updated, 0);
    ReadFromRedis(StaleHistory(task, unknown, updated), task.id, OneTask(task), 30 * MINUTE, DEFAULT_CONFIG.timeout);
  }

  // ---------- a page whose count fails ----------

  /** The page is cached with a total of 0: right if and only if it came from the cache or there are no tasks. */
  lemma FailedCountCoherentIff(s: Service, a: PageArgs, f: Faults, now: int)
    requires Coherent(s) && NoColons(a)
    ensures Coherent(ReadPage(s, a, true, false, f, now).0) <==>
      Told(s, Get(PageKey(a), f.first), now).Hit? || s.table == []
  {
    var t := ReadPage(s, a, true, false, f, now).0;
    if Told(s, Get(PageKey(a), f.first), now).Hit? || s.table == [] {
      PageAgrees(s.table, a);
      GetKeeps(s, NO_DOUBT, PageKey(a), f.first, now);
      if s.table == [] { ReadKeeps(s, PageKey(a), Some(TaskPage(Page(s.table, a), 0)), 5 * MINUTE, true, f, now); }
    } else {
      assert t.node.l1[PageKey(a)].value == TaskPage(Page(s.table, a), 0);
      assert !Agrees(t.table, PageKey(a), TaskPage(Page(s.table, a), 0));
    }
  }

  // ---------- warm-up of the list ----------

  /** The service's own warm-up job caches a null list: until it expires, GetTasks replies
      that there are no tasks, which is right if and only if there are none. */
  lemma WarmupEmptiesTheList(s: Service, ttl: int, warm: Fault, call: Call)
    requires call.request.GetTasks? && ttl >= 0
    ensures var t := Do(s, Set(ALL_TASKS, TaskList([]), ttl, warm), call.at);
      && Serve(t, call).1 == Found(TaskList([]))
      && (RightReply(s.table, call, Serve(t, call).1) <==> s.table == [])
  {
  }
}
