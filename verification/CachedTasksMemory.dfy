/**
 How long the cached task service remembers a task, a list or a page, and what a change of the table
 makes it forget.
 */
module CachedTasksMemory {
  import opened Wrappers
  import opened MemoryCache
  import opened MultiLevelCache
  import opened TaskService
  import opened CacheKeys
  import opened CachedTasks
  import opened CachedTasksCoherence
  import opened CachedTasksLimits

  predicate Reads(r: Request) { r.GetTaskByID? || r.GetTasks? || r.GetTasksPaginated? }

  function Key(r: Request): string
    requires Reads(r)
  {
    match r
    case GetTaskByID(id) => TaskKey(id)
    case GetTasks => ALL_TASKS
    case GetTasksPaginated(a) => PageKey(a)
  }

  /** The nanoseconds that an answer from the table is remembered for: thirty minutes, ten or five. */
  function Lifetime(r: Request): int {
    match r
    case CreateTask(_, _) => 1_800_000_000_000
    case GetTaskByID(_) => 1_800_000_000_000
    case GetTasks => 600_000_000_000
    case _ => 300_000_000_000
  }

  ghost predicate Remembers(s: Service, key: string, item: Item<Cached>) {
    key in s.node.l1 && s.node.l1[key] == item
  }

  /** What a call puts into memory: an answer from Redis for five minutes, one from the table for its
      lifetime, and a created task, as the caller gave it, for thirty minutes. */
  ghost predicate Learns(s: Service, call: Call, key: string, item: Item<Cached>) {
    match call.request
    case CreateTask(task, _) =>
      Serve(s, call).1.Ok? && key == TaskKey(task.id) && item == Item(OneTask(task), call.at + Lifetime(call.request))
    case UpdateTask(_, _) => false
    case DeleteTask(_) => false
    case _ =>
      var fromRedis := Told(s, Get(key, call.faults.first), call.at).Hit?;
      && key == Key(call.request) && (key in s.node.l1 ==> s.node.l1[key].expiration < call.at)
      && Serve(s, call).1 == Found(item.value)
      && item.expiration == call.at + if fromRedis then 300_000_000_000 else Lifetime(call.request)
  }

  /** The call is none of those that write or delete the entry. */
  predicate LeavesAlone(r: Request, key: string) {
    match r
    case CreateTask(task, _) => TASK <= key && key != TaskKey(task.id)
    case UpdateTask(id, _) => TASK <= key && key != TaskKey(id)
    case DeleteTask(id) => TASK <= key && key != TaskKey(id)
    case _ => true
  }

  lemma LearnedByCreation(s: Service, task: Task, generated: UUID, f: Faults, now: int)
    requires Find(s.table, NewRow(task, generated, now).id).None?
    ensures Remembers(Created(s, task, generated, true, f, now).0, TaskKey(task.id), Item(OneTask(task), now + 30 * MINUTE))
  {
    PatternsSpare(task.id, task.userId);
  }

  lemma LearnedByReading(s: Service, key: string, row: Option<Cached>, ttl: int, dbOk: bool, f: Faults, now: int)
    requires Read(s, key, row, ttl, dbOk, f, now).1.Found? && (key in s.node.l1 ==> s.node.l1[key].expiration < now)
    ensures var (t, reply) := Read(s, key, row, ttl, dbOk, f, now);
      Remembers(t, key, Item(reply.value, now + if Told(s, Get(key, f.first), now).Hit? then 300_000_000_000 else ttl))
  {
  }

  lemma Learned(s: Service, call: Call, key: string, item: Item<Cached>)
    requires Learns(s, call, key, item)
    ensures Remembers(Serve(s, call).0, key, item)
  {
    match call.request
    case CreateTask(task, generated) => LearnedByCreation(s, task, generated, call.faults, call.at);
    case GetTaskByID(id) =>
      var row := Find(s.table, id);
      LearnedByReading(s, key, if row.Some? then Some(OneTask(row.value)) else None, 30 * MINUTE, call.dbOk, call.faults, call.at);
    case GetTasks =>
      LearnedByReading(s, key, Some(TaskList(s.table)), 10 * MINUTE, call.dbOk, call.faults, call.at);
    case GetTasksPaginated(a) =>
      LearnedByReading(s, key, Some(TaskPage(Page(s.table, a), Total(s.table, call.readOk))), 5 * MINUTE, call.dbOk, call.faults, call.at);
  }

  lemma ListsGoneTasksStay(s: Service, third: Fault, fourth: Fault, now: int, key: string, item: Item<Cached>)
    requires Remembers(s, key, item) && TASK <= key
    ensures Remembers(WithoutLists(s, third, fourth, now), key, item)
  {
    var id := key[|TASK|..];
    assert key == TaskKey(id);
    PatternsSpare(id, id);
  }

  lemma OwnListsGoneTasksStay(s: Service, owner: UUID, fault: Fault, now: int, key: string, item: Item<Cached>)
    requires Remembers(s, key, item) && TASK <= key
    ensures Remembers(Do(s, DeletePattern(UserPattern(owner), fault), now), key, item)
  {
    var id := key[|TASK|..];
    assert key == TaskKey(id);
    PatternsSpare(id, owner);
  }

  lemma ForgetSpares(s: Service, id: UUID, owner: Option<UUID>, f: Faults, now: int, key: string, item: Item<Cached>)
    requires Remembers(s, key, item) && TASK <= key && key != TaskKey(id)
    ensures Remembers(Forget(s, id, owner, f, now), key, item)
  {
    var t := Do(s, Delete(TaskKey(id), f.first), now);
    if owner.Some? { OwnListsGoneTasksStay(t, owner.value, f.second, now, key, item); }
    ListsGoneTasksStay(BeforeLists(s, id, owner, f, now), f.third, f.fourth, now, key, item);
  }

  lemma CreationSpares(s: Service, task: Task, generated: UUID, f: Faults, now: int, key: string, item: Item<Cached>)
    requires Remembers(s, key, item) && TASK <= key && key != TaskKey(task.id)
    ensures Remembers(Created(s, task, generated, true, f, now).0, key, item)
  {
    if Find(s.table, NewRow(task, generated, now).id).None? {
      var t := s.(table := s.table + [NewRow(task, generated, now)]);
      var u := Do(t, Set(TaskKey(task.id), OneTask(task), 30 * MINUTE, f.first), now);
      OwnListsGoneTasksStay(u, task.userId, f.second, now, key, item);
      ListsGoneTasksStay(AfterCreateSet(s, task, generated, f, now), f.third, f.fourth, now, key, item);
    }
  }

  lemma ReadingKeeps(s: Service, own: string, row: Option<Cached>, ttl: int, dbOk: bool, f: Faults, now: int, key: string, item: Item<Cached>)
    requires Remembers(s, key, item) && now <= item.expiration
    ensures Remembers(Read(s, own, row, ttl, dbOk, f, now).0, key, item)
    ensures own == key ==> Read(s, own, row, ttl, dbOk, f, now).1 == Found(item.value)
  {
  }

  lemma ReadsStayRemembered(s: Service, call: Call, key: string, item: Item<Cached>)
    requires Remembers(s, key, item) && Reads(call.request) && call.at <= item.expiration
    ensures Remembers(Serve(s, call).0, key, item)
    ensures Key(call.request) == key ==> Serve(s, call).1 == Found(item.value)
  {
    match call.request
    case GetTaskByID(id) =>
      var row := Find(s.table, id);
      ReadingKeeps(s, TaskKey(id), if row.Some? then Some(OneTask(row.value)) else None, 30 * MINUTE, call.dbOk, call.faults, call.at, key, item);
    case GetTasks =>
      ReadingKeeps(s, ALL_TASKS, Some(TaskList(s.table)), 10 * MINUTE, call.dbOk, call.faults, call.at, key, item);
    case GetTasksPaginated(a) =>
      ReadingKeeps(s, PageKey(a), Some(TaskPage(Page(s.table, a), Total(s.table, call.readOk))), 5 * MINUTE,
                   call.dbOk, call.faults, call.at, key, item);
  }

  lemma StaysRemembered(s: Service, call: Call, key: string, item: Item<Cached>)
    requires Remembers(s, key, item) && LeavesAlone(call.request, key) && call.at <= item.expiration
    ensures Remembers(Serve(s, call).0, key, item)
  {
    match call.request
    case CreateTask(task, generated) =>
      if call.dbOk { CreationSpares(s, task, generated, call.faults, call.at, key, item); }
    case UpdateTask(id, updated) =>
      var t := s.(table := Updated(s.table, id, updated, call.at));
      ForgetSpares(t, id, OwnerOf(t.table, id, call.readOk), call.faults, call.at, key, item);
    case DeleteTask(id) =>
      var t := s.(table := Removed(s.table, id));
      ForgetSpares(t, id, OwnerOf(s.table, id, call.readOk), call.faults, call.at, key, item);
    case _ => ReadsStayRemembered(s, call, key, item);
  }

  function Serving(s: Service, calls: seq<Call>): Service
    decreases |calls|
  {
    if calls == [] then s else Serving(Serve(s, calls[0]).0, calls[1..])
  }

  lemma {:induction false} StaysThroughout(s: Service, calls: seq<Call>, key: string, item: Item<Cached>)
    requires Remembers(s, key, item)
    requires forall call | call in calls :: LeavesAlone(call.request, key) && call.at <= item.expiration
    ensures Remembers(Serving(s, calls), key, item)
    decreases |calls|
  {
    if calls != [] {
      assert calls[0] in calls;
      StaysRemembered(s, calls[0], key, item);
      StaysThroughout(Serve(s, calls[0]).0, calls[1..], key, item);
    }
  }

  /** A task that was created or read, a list or a page that was read, is answered the same way until its
      lifetime ends, whatever the database, Redis and the breaker do and whatever calls come between that
      do not write or delete its entry. */
  lemma ServedUntil(s: Service, first: Call, calls: seq<Call>, last: Call, key: string, item: Item<Cached>)
    requires Learns(s, first, key, item) && Reads(last.request) && Key(last.request) == key
    requires forall call | call in calls + [last] :: LeavesAlone(call.request, key) && call.at <= item.expiration
    ensures Serve(Serving(Serve(s, first).0, calls), last).1 == Found(item.value)
  {
    var t := Serve(s, first).0;
    Learned(s, first, key, item);
    StaysThroughout(t, calls, key, item);
    assert last in calls + [last];
    ReadsStayRemembered(Serving(t, calls), last, key, item);
  }

  // ---------- what a change makes the service forget ----------

  predicate OwnList(owner: UUID, key: string) { "user_tasks:" + owner + ":" <= key }

  /** The task's owner: of a deleted task before, of an updated one after the change. */
  function ChangedOwner(s: Service, call: Call): Option<UUID> {
    match call.request
    case CreateTask(task, _) => Some(task.userId)
    case UpdateTask(id, _) => OwnerOf(Serve(s, call).0.table, id, call.readOk)
    case DeleteTask(id) => OwnerOf(s.table, id, call.readOk)
    case _ => None
  }

  lemma OwnPattern(owner: UUID, key: string)
    ensures MatchPattern(key, UserPattern(owner)) <==> OwnList(owner, key)
  {
    var p := UserPattern(owner);
    assert p[..|p| - 1] == "user_tasks:" + owner + ":" && p[|p| - 1] == '*' && |p| > 1;
  }

  ghost predicate Forgot(m: map<string, Item<Cached>>, owner: Option<UUID>) {
    && ALL_TASKS !in m
    && forall key | key in m :: !(PAGES <= key) && (owner.Some? ==> !OwnList(owner.value, key))
  }

  lemma OwnListsGone(s: Service, owner: UUID, third: Fault, fourth: Fault, fault: Fault, now: int)
    ensures Forgot(WithoutLists(Do(s, DeletePattern(UserPattern(owner), fault), now), third, fourth, now).node.l1, Some(owner))
  {
    forall key ensures MatchPattern(key, UserPattern(owner)) <==> OwnList(owner, key) { OwnPattern(owner, key); }
    forall key ensures MatchPattern(key, ALL_PAGES) <==> PAGES <= key { PagePattern(key); }
  }

  lemma ListsGone(s: Service, third: Fault, fourth: Fault, now: int)
    ensures Forgot(WithoutLists(s, third, fourth, now).node.l1, None)
  {
    forall key ensures MatchPattern(key, ALL_PAGES) <==> PAGES <= key { PagePattern(key); }
  }

  lemma ForgetForgets(s: Service, id: UUID, owner: Option<UUID>, f: Faults, now: int)
    ensures Forgot(Forget(s, id, owner, f, now).node.l1, owner) && TaskKey(id) !in Forget(s, id, owner, f, now).node.l1
  {
    var t := Do(s, Delete(TaskKey(id), f.first), now);
    if owner.Some? {
      OwnListsGone(t, owner.value, f.third, f.fourth, f.second, now);
    } else {
      ListsGone(t, f.third, f.fourth, now);
    }
  }

  /** After a change of the table, memory holds no list of all tasks, no page, none of its owner's lists,
      and not the task unless it was created: whatever Redis and the breaker do. */
  lemma ChangeIsForgotten(s: Service, call: Call)
    requires Serve(s, call).1.Ok?
    ensures Forgot(Serve(s, call).0.node.l1, ChangedOwner(s, call))
    ensures call.request.UpdateTask? || call.request.DeleteTask? ==> TaskKey(call.request.id) !in Serve(s, call).0.node.l1
  {
    var f, now := call.faults, call.at;
    match call.request
    case CreateTask(task, generated) =>
      var t := s.(table := s.table + [NewRow(task, generated, now)]);
      OwnListsGone(Do(t, Set(TaskKey(task.id), OneTask(task), 30 * MINUTE, f.first), now), task.userId, f.third, f.fourth, f.second, now);
    case UpdateTask(id, updated) =>
      var t := s.(table := Updated(s.table, id, updated, now));
      ForgetForgets(t, id, OwnerOf(t.table, id, call.readOk), f, now);
    case DeleteTask(id) =>
      ForgetForgets(s.(table := Removed(s.table, id)), id, OwnerOf(s.table, id, call.readOk), f, now);
    case _ =>
  }
}
