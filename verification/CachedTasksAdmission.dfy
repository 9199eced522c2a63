/**
 With every Redis command working, which changes keep the cache right?  A deletion that the breaker
 refuses never reaches Redis, and the service ignores that.  Each condition below is about the
 state before the call; only entries that can still be read count.
 */
module CachedTasksAdmission {
  import opened Wrappers
  import opened MemoryCache
  import opened CircuitBreaker
  import opened MultiLevelCache
  import opened TaskService
  import opened CacheKeys
  import opened CachedTasks
  import opened CachedTasksCoherence
  import opened CachedTasksLimits

  predicate Admitting(s: Service, now: int) { Admits(DEFAULT_CONFIG, s.node.breaker, now) }

  predicate InRedis(s: Service, key: string) { s.l2.Some? && key in s.l2.value }

  // ---------- a change of one row, refused ----------

  /** Redis keeps the entries of the task and of the list: the cache is right if and only if they still are. */
  lemma RefusedChangeIff(s: Service, after: seq<Task>, id: UUID, owner: Option<UUID>, now: int)
    requires Coherent(s) && s.l2.Some? && !Admitting(s, now)
    requires forall other | other != id :: Find(after, other) == Find(s.table, other)
    ensures Coherent(Forget(s.(table := after), id, owner, HEALTHY, now)) <==>
      && (InRedis(s, TaskKey(id)) ==> Agrees(after, TaskKey(id), s.l2.value[TaskKey(id)].value))
      && (InRedis(s, ALL_TASKS) ==> after == s.table)
  {
    var u := s.(table := after);
    var t := Forget(u, id, owner, HEALTHY, now);
    RefusedForgets(u, id, owner, now);
    ChangeDoubts(s, after, Doubt(Some(id), true, true));
    ListIsTable(s);
    if (InRedis(s, TaskKey(id)) ==> Agrees(after, TaskKey(id), s.l2.value[TaskKey(id)].value))
       && (InRedis(s, ALL_TASKS) ==> after == s.table) {
      ListAgrees(after);
      assert Coherent(t);
    } else if InRedis(s, TaskKey(id)) && !Agrees(after, TaskKey(id), s.l2.value[TaskKey(id)].value) {
      assert TaskKey(id) in t.l2.value;
    } else {
      assert ALL_TASKS in t.l2.value && !Agrees(after, ALL_TASKS, t.l2.value[ALL_TASKS].value);
    }
  }

  lemma ListIsTable(s: Service)
    requires Coherent(s)
    ensures InRedis(s, ALL_TASKS) ==> s.l2.value[ALL_TASKS].value == TaskList(s.table)
  {
    if InRedis(s, ALL_TASKS) { assert Agrees(s.table, ALL_TASKS, s.l2.value[ALL_TASKS].value); }
  }

  lemma TaskIsRow(s: Service, id: UUID)
    requires Coherent(s) && InRedis(s, TaskKey(id))
    ensures var v := s.l2.value[TaskKey(id)].value;
      v.OneTask? && Find(s.table, id).Some? && SameContent(v.task, Find(s.table, id).value)
  {
    assert Agrees(s.table, TaskKey(id), s.l2.value[TaskKey(id)].value);
  }

  lemma TaskKeyAgrees(table: seq<Task>, id: UUID, v: Cached)
    ensures Agrees(table, TaskKey(id), v) <==>
      v.OneTask? && Find(table, id).Some? && SameContent(v.task, Find(table, id).value)
  {
    forall other ensures TaskKey(other) == TaskKey(id) ==> other == id { KeysDiffer(id, other, PageArgs("", "", "", "")); }
    forall a ensures PageKey(a) != TaskKey(id) { KeysDiffer(id, id, a); }
    KeysDiffer(id, id, PageArgs("", "", "", ""));
  }

  // ---------- update ----------

  /** Redis holds the task only if its content stays, and the list only if the table stays. */
  predicate UpdateHarmless(s: Service, id: UUID, updated: Task, now: int) {
    && (InRedis(s, TaskKey(id)) && Find(s.table, id).Some? ==>
          SameContent(Find(s.table, id).value, Merged(Find(s.table, id).value, updated, now)))
    && (InRedis(s, ALL_TASKS) ==> Updated(s.table, id, updated, now) == s.table)
  }

  lemma UpdateCoherentIff(s: Service, id: UUID, updated: Task, readOk: bool, now: int)
    requires Coherent(s) && s.l2.Some?
    ensures Coherent(UpdatedTask(s, id, updated, true, readOk, HEALTHY, now).0) <==>
      Admitting(s, now) || UpdateHarmless(s, id, updated, now)
  {
    var after := Updated(s.table, id, updated, now);
    if Admitting(s, now) {
      AdmittedForgets(s.(table := after), id, OwnerOf(after, id, readOk), now);
      ServeKeeps(s, Call(UpdateTask(id, updated), true, readOk, HEALTHY, now));
    } else {
      forall other ensures other != id ==> Find(after, other) == Find(s.table, other) {
        FindAfterUpdate(s.table, id, updated, now, other);
      }
      FindAfterUpdate(s.table, id, updated, now, id);
      RefusedChangeIff(s, after, id, OwnerOf(after, id, readOk), now);
      if InRedis(s, TaskKey(id)) {
        TaskIsRow(s, id);
        TaskKeyAgrees(after, id, s.l2.value[TaskKey(id)].value);
      }
    }
  }

  /** For an update that changes the task: Redis holds neither the task nor the list. */
  lemma HealthyUpdateIff(s: Service, id: UUID, updated: Task, readOk: bool, now: int)
    requires Coherent(s) && s.l2.Some? && Find(s.table, id).Some?
    requires !SameContent(Find(s.table, id).value, Merged(Find(s.table, id).value, updated, now))
    ensures Coherent(UpdatedTask(s, id, updated, true, readOk, HEALTHY, now).0) <==>
      Admitting(s, now) || (!InRedis(s, TaskKey(id)) && !InRedis(s, ALL_TASKS))
  {
    UpdateCoherentIff(s, id, updated, readOk, now);
    FindAfterUpdate(s.table, id, updated, now, id);
  }

  // ---------- deletion ----------

  predicate DeleteHarmless(s: Service, id: UUID) {
    Find(s.table, id).None? || (!InRedis(s, TaskKey(id)) && !InRedis(s, ALL_TASKS))
  }

  lemma {:induction false} RemovedAbsent(table: seq<Task>, id: UUID)
    ensures Removed(table, id) == table <==> Find(table, id).None?
  {
    FindAfterRemove(table, id, id);
    if table != [] && table[0].id != id {
      RemovedAbsent(table[1..], id);
      assert table == [table[0]] + table[1..];
    }
  }

  lemma DeleteCoherentIff(s: Service, id: UUID, readOk: bool, now: int)
    requires Coherent(s) && s.l2.Some?
    ensures Coherent(DeletedTask(s, id, true, readOk, HEALTHY, now).0) <==> Admitting(s, now) || DeleteHarmless(s, id)
  {
    var after := Removed(s.table, id);
    if Admitting(s, now) {
      AdmittedForgets(s.(table := after), id, OwnerOf(s.table, id, readOk), now);
      ServeKeeps(s, Call(DeleteTask(id), true, readOk, HEALTHY, now));
    } else {
      forall other ensures other != id ==> Find(after, other) == Find(s.table, other) {
        FindAfterRemove(s.table, id, other);
      }
      FindAfterRemove(s.table, id, id);
      RemovedAbsent(s.table, id);
      RefusedChangeIff(s, after, id, OwnerOf(s.table, id, readOk), now);
      if InRedis(s, TaskKey(id)) {
        TaskIsRow(s, id);
        TaskKeyAgrees(after, id, s.l2.value[TaskKey(id)].value);
      }
    }
  }

  // ---------- creation ----------

  lemma RefusedCreates(s: Service, task: Task, generated: UUID, now: int)
    requires s.l2.Some? && !Admitting(s, now) && Find(s.table, NewRow(task, generated, now).id).None?
    ensures var t := Created(s, task, generated, true, HEALTHY, now).0;
      && t.l2.Some? && t.table == s.table + [NewRow(task, generated, now)]
      && (forall key | key in t.node.l1 ::
            key != ALL_TASKS && !(PAGES <= key) &&
            if key == TaskKey(task.id) then t.node.l1[key].value == OneTask(task)
            else key in s.node.l1 && t.node.l1[key] == s.node.l1[key])
      && (forall key | key in t.l2.value :: key in s.l2.value && t.l2.value[key] == s.l2.value[key] && !(PAGES <= key))
      && (ALL_TASKS in s.l2.value ==> ALL_TASKS in t.l2.value)
  {
    PatternsSpare(task.id, task.userId);
    forall key ensures (Glob(key, ALL_PAGES) <==> PAGES <= key) && (MatchPattern(key, ALL_PAGES) <==> PAGES <= key) {
      PagePattern(key);
    }
  }

  lemma RefusedCreateIff(s: Service, task: Task, generated: UUID, now: int)
    requires Coherent(s) && s.l2.Some? && !Admitting(s, now)
    requires task.id != NIL && task.status != "" && Find(s.table, task.id).None?
    ensures Coherent(Created(s, task, generated, true, HEALTHY, now).0) <==> !InRedis(s, ALL_TASKS)
  {
    var row := NewRow(task, generated, now);
    var t := Created(s, task, generated, true, HEALTHY, now).0;
    forall id ensures Find(t.table, id) == if Find(s.table, id).Some? then Find(s.table, id) else if row.id == id then Some(row) else None {
      FindAfterAppend(s.table, row, id);
    }
    RefusedCreates(s, task, generated, now);
    ListIsTable(s);
    if InRedis(s, ALL_TASKS) {
      assert !Agrees(t.table, ALL_TASKS, t.l2.value[ALL_TASKS].value);
    } else {
      ChangeDoubts(s, t.table, Doubt(None, true, true));
      TaskAgrees(t.table, task.id, task);
      assert Coherent(t);
    }
  }

  /** A creation keeps the cache right exactly if id and status are given and the old list is deleted or was not there. */
  lemma HealthyCreateIff(s: Service, task: Task, generated: UUID, now: int)
    requires Coherent(s) && s.l2.Some? && generated != NIL && Find(s.table, NIL).None?
    requires Find(s.table, NewRow(task, generated, now).id).None?
    ensures Coherent(Created(s, task, generated, true, HEALTHY, now).0) <==>
      task.id != NIL && task.status != "" && (Admitting(s, now) || !InRedis(s, ALL_TASKS))
  {
    if task.id != NIL && task.status != "" {
      if Admitting(s, now) {
        AdmittedCreates(s, task, generated, now);
        CreateKeeps(s, task, generated, HEALTHY, now);
      } else {
        RefusedCreateIff(s, task, generated, now);
      }
    } else {
      CreatedTaskStays(s, task, generated, HEALTHY, now);
      FindAfterAppend(s.table, NewRow(task, generated, now), task.id);
      assert !Agrees(s.table + [NewRow(task, generated, now)], TaskKey(task.id), OneTask(task));
    }
  }

  lemma AdmittedCreates(s: Service, task: Task, generated: UUID, now: int)
    requires s.l2.Some? && Admitting(s, now)
    ensures ListsForgotten(AfterCreateSet(s, task, generated, HEALTHY, now), Works, Works, now)
  {
    StillAdmits(s.node.breaker, now);
  }

  // ---------- entries that can still be read ----------

  function Readable(s: Service, now: int): Service {
    s.(node := s.node.(l1 := ReadableMemory(s.node.l1, now)),
       l2 := if s.l2.None? then None else Some(ReadableRedis(s.l2.value, now)))
  }

  /** Nothing that a read can still return is wrong. */
  ghost predicate CoherentAt(s: Service, now: int) { Coherent(Readable(s, now)) }

  function ReadableMemory(l1: map<string, Item<Cached>>, now: int): map<string, Item<Cached>> {
    map k | k in l1 && now <= l1[k].expiration :: l1[k]
  }

  function ReadableRedis(l2: map<string, Entry<Cached>>, now: int): map<string, Entry<Cached>> {
    map k | k in l2 && Fetched(l2, k, now).Some? :: l2[k]
  }

  lemma SetReadableMemory(l1: map<string, Item<Cached>>, key: string, value: Cached, ttl: int, now: int)
    requires ttl > 0
    ensures ReadableMemory(l1[key := Item(value, now + ttl)], now) == ReadableMemory(l1, now)[key := Item(value, now + ttl)]
  {
  }

  lemma SetReadableRedis(l2: map<string, Entry<Cached>>, key: string, value: Cached, ttl: int, now: int)
    ensures ReadableRedis(Stored(l2, key, value, ttl, now), now) == Stored(ReadableRedis(l2, now), key, value, ttl, now)
  {
  }

  lemma SetReadable(s: Service, key: string, value: Cached, ttl: int, fault: Fault, now: int)
    requires ttl > 0
    ensures Readable(Do(s, Set(key, value, ttl, fault), now), now) == Do(Readable(s, now), Set(key, value, ttl, fault), now)
  {
    SetReadableMemory(s.node.l1, key, value, ttl, now);
    if s.l2.Some? { SetReadableRedis(s.l2.value, key, value, ttl, now); }
  }

  lemma DropReadableMemory(l1: map<string, Item<Cached>>, key: string, pattern: string, now: int)
    ensures ReadableMemory(l1 - {key}, now) == ReadableMemory(l1, now) - {key}
    ensures ReadableMemory(map k | k in l1 && !MatchPattern(k, pattern) :: l1[k], now)
         == var kept := ReadableMemory(l1, now); map k | k in kept && !MatchPattern(k, pattern) :: kept[k]
  {
  }

  lemma DropReadableRedis(l2: map<string, Entry<Cached>>, key: string, pattern: string, now: int)
    ensures ReadableRedis(l2 - {key}, now) == ReadableRedis(l2, now) - {key}
    ensures ReadableRedis(Cleared(l2, pattern), now) == Cleared(ReadableRedis(l2, now), pattern)
  {
  }

  lemma DeleteReadable(s: Service, key: string, fault: Fault, now: int)
    ensures Readable(Do(s, Delete(key, fault), now), now) == Do(Readable(s, now), Delete(key, fault), now)
  {
    DropReadableMemory(s.node.l1, key, "", now);
    if s.l2.Some? { DropReadableRedis(s.l2.value, key, "", now); }
  }

  lemma PatternReadable(s: Service, pattern: string, fault: Fault, now: int)
    ensures Readable(Do(s, DeletePattern(pattern, fault), now), now) == Do(Readable(s, now), DeletePattern(pattern, fault), now)
  {
    DropReadableMemory(s.node.l1, "", pattern, now);
    if s.l2.Some? { DropReadableRedis(s.l2.value, "", pattern, now); }
  }

  lemma ForgetReadable(s: Service, id: UUID, owner: Option<UUID>, f: Faults, now: int)
    ensures Readable(Forget(s, id, owner, f, now), now) == Forget(Readable(s, now), id, owner, f, now)
  {
    DeleteReadable(s, TaskKey(id), f.first, now);
    var s1 := Do(s, Delete(TaskKey(id), f.first), now);
    if owner.Some? { PatternReadable(s1, UserPattern(owner.value), f.second, now); }
    ListsReadable(if owner.Some? then Do(s1, DeletePattern(UserPattern(owner.value), f.second), now) else s1, f, now);
  }

  lemma ListsReadable(s: Service, f: Faults, now: int)
    ensures Readable(WithoutLists(s, f.third, f.fourth, now), now) == WithoutLists(Readable(s, now), f.third, f.fourth, now)
  {
    PatternReadable(s, ALL_PAGES, f.third, now);
    DeleteReadable(Do(s, DeletePattern(ALL_PAGES, f.third), now), ALL_TASKS, f.fourth, now);
  }

  lemma CreatedReadable(s: Service, task: Task, generated: UUID, f: Faults, now: int)
    ensures Readable(Created(s, task, generated, true, f, now).0, now) == Created(Readable(s, now), task, generated, true, f, now).0
  {
    if Find(s.table, NewRow(task, generated, now).id).None? {
      var s1 := s.(table := s.table + [NewRow(task, generated, now)]);
      var s2 := Do(s1, Set(TaskKey(task.id), OneTask(task), 30 * MINUTE, f.first), now);
      SetReadable(s1, TaskKey(task.id), OneTask(task), 30 * MINUTE, f.first, now);
      PatternReadable(s2, UserPattern(task.userId), f.second, now);
      ListsReadable(Do(s2, DeletePattern(UserPattern(task.userId), f.second), now), f, now);
    }
  }

  /** With a healthy Redis, an update leaves only right entries to read exactly if the breaker
      admits its deletions or Redis has nothing readable that they were needed for. */
  lemma ReadableUpdateIff(s: Service, id: UUID, updated: Task, readOk: bool, now: int)
    requires CoherentAt(s, now) && s.l2.Some?
    ensures CoherentAt(UpdatedTask(s, id, updated, true, readOk, HEALTHY, now).0, now) <==>
      Admitting(s, now) || UpdateHarmless(Readable(s, now), id, updated, now)
  {
    var after := Updated(s.table, id, updated, now);
    ForgetReadable(s.(table := after), id, OwnerOf(after, id, readOk), HEALTHY, now);
    assert Readable(s.(table := after), now) == Readable(s, now).(table := after);
    UpdateCoherentIff(Readable(s, now), id, updated, readOk, now);
  }

  /** The same for a deletion. */
  lemma ReadableDeleteIff(s: Service, id: UUID, readOk: bool, now: int)
    requires CoherentAt(s, now) && s.l2.Some?
    ensures CoherentAt(DeletedTask(s, id, true, readOk, HEALTHY, now).0, now) <==>
      Admitting(s, now) || DeleteHarmless(Readable(s, now), id)
  {
    var after := Removed(s.table, id);
    ForgetReadable(s.(table := after), id, OwnerOf(s.table, id, readOk), HEALTHY, now);
    assert Readable(s.(table := after), now) == Readable(s, now).(table := after);
    DeleteCoherentIff(Readable(s, now), id, readOk, now);
  }

  /** The same for a creation, which also needs the id and the status. */
  lemma ReadableCreateIff(s: Service, task: Task, generated: UUID, now: int)
    requires CoherentAt(s, now) && s.l2.Some? && generated != NIL && Find(s.table, NIL).None?
    requires Find(s.table, NewRow(task, generated, now).id).None?
    ensures CoherentAt(Created(s, task, generated, true, HEALTHY, now).0, now) <==>
      task.id != NIL && task.status != "" && (Admitting(s, now) || !InRedis(Readable(s, now), ALL_TASKS))
  {
    CreatedReadable(s, task, generated, HEALTHY, now);
    HealthyCreateIff(Readable(s, now), task, generated, now);
  }
}
