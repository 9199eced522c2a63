/**
 The cached task service: the task table, read through the two-level cache.
 */
module CachedTasks {
  import opened Wrappers
  import opened CircuitBreaker
  import opened MultiLevelCache
  import opened TaskService
  import opened CacheKeys

  const MINUTE: int := 60_000_000_000

  datatype Cached = OneTask(task: Task) | TaskList(tasks: seq<Task>) | TaskPage(tasks: seq<Task>, total: int)

  /** The table, the service's cache and the Redis behind it, if there is one. */
  datatype Service = Service(table: seq<Task>, node: Node<Cached>, l2: Option<map<string, Entry<Cached>>>)

  /** What Redis does to the cache calls of one operation, in their order. */
  datatype Faults = Faults(first: Fault, second: Fault, third: Fault, fourth: Fault)

  datatype Reply = Ok | Failed | NotFound | Found(value: Cached)

  function UserPattern(userId: UUID): string { "user_tasks:" + userId + ":*" }

  const ALL_PAGES := PAGES + "*"

  // ---------- cache calls ----------

  function Do(s: Service, op: Op<Cached>, now: int): Service {
    var r := Apply(DEFAULT_CONFIG, s.node, s.l2, op, now);
    s.(node := r.node, l2 := r.l2)
  }

  function Told(s: Service, op: Op<Cached>, now: int): Answer<Cached> {
    Apply(DEFAULT_CONFIG, s.node, s.l2, op, now).answer
  }

  // ---------- operations ----------

  /** The calls that take the lists out of the cache, after a change of the table. */
  function WithoutLists(s: Service, third: Fault, fourth: Fault, now: int): Service {
    Do(Do(s, DeletePattern(ALL_PAGES, third), now), Delete(ALL_TASKS, fourth), now)
  }

  function Created(s: Service, task: Task, generated: UUID, dbOk: bool, f: Faults, now: int): (Service, Reply) {
    var row := NewRow(task, generated, now);
    if !dbOk || Find(s.table, row.id).Some? then (s, Failed)
    else
      var s := s.(table := s.table + [row]);
      var s := Do(s, Set(TaskKey(task.id), OneTask(task), 30 * MINUTE, f.first), now);
      var s := Do(s, DeletePattern(UserPattern(task.userId), f.second), now);
      (WithoutLists(s, f.third, f.fourth, now), Ok)
  }

  function Read(s: Service, key: string, row: Option<Cached>, ttl: int, dbOk: bool, f: Faults, now: int): (Service, Reply) {
    var told := Told(s, Get(key, f.first), now);
    var s := Do(s, Get(key, f.first), now);
    if told.Hit? then (s, Found(told.value))
    else if !dbOk then (s, Failed)
    else if row.None? then (s, NotFound)
    else (Do(s, Set(key, row.value, ttl, f.second), now), Found(row.value))
  }

  function ReadTask(s: Service, id: UUID, dbOk: bool, f: Faults, now: int): (Service, Reply) {
    var row := Find(s.table, id);
    Read(s, TaskKey(id), if row.Some? then Some(OneTask(row.value)) else None, 30 * MINUTE, dbOk, f, now)
  }

  function ReadAll(s: Service, dbOk: bool, f: Faults, now: int): (Service, Reply) {
    Read(s, ALL_TASKS, Some(TaskList(s.table)), 10 * MINUTE, dbOk, f, now)
  }

  /** A failing count is ignored: the total is then 0, and cached. */
  function Total(table: seq<Task>, countOk: bool): nat { if countOk then |table| else 0 }

  function ReadPage(s: Service, a: PageArgs, dbOk: bool, countOk: bool, f: Faults, now: int): (Service, Reply) {
    Read(s, PageKey(a), Some(TaskPage(Page(s.table, a), Total(s.table, countOk))), 5 * MINUTE, dbOk, f, now)
  }

  /** The cache calls after an update or a deletion; owner is the task's owner if known. */
  function Forget(s: Service, id: UUID, owner: Option<UUID>, f: Faults, now: int): Service {
    var s := Do(s, Delete(TaskKey(id), f.first), now);
    var s := if owner.Some? then Do(s, DeletePattern(UserPattern(owner.value), f.second), now) else s;
    WithoutLists(s, f.third, f.fourth, now)
  }

  function OwnerOf(table: seq<Task>, id: UUID, dbOk: bool): Option<UUID> {
    var row := Find(table, id);
    if dbOk && row.Some? then Some(row.value.userId) else None
  }

  function UpdatedTask(s: Service, id: UUID, updated: Task, dbOk: bool, readOk: bool, f: Faults, now: int): (Service, Reply) {
    if !dbOk then (s, Failed)
    else
      var s := s.(table := Updated(s.table, id, updated, now));
      (Forget(s, id, OwnerOf(s.table, id, readOk), f, now), Ok)
  }

  function DeletedTask(s: Service, id: UUID, dbOk: bool, readOk: bool, f: Faults, now: int): (Service, Reply) {
    var owner := OwnerOf(s.table, id, readOk);
    if !dbOk then (s, Failed)
    else (Forget(s.(table := Removed(s.table, id)), id, owner, f, now), Ok)
  }

  datatype Request =
    | CreateTask(task: Task, generated: UUID)
    | GetTaskByID(id: UUID)
    | GetTasks
    | GetTasksPaginated(args: PageArgs)
    | UpdateTask(id: UUID, updated: Task)
    | DeleteTask(id: UUID)

  /** A request, what the database and Redis do to it, and when; readOk is about the query whose
      error is ignored: for the owner of a task, or for the total of a page. */
  datatype Call = Call(request: Request, dbOk: bool, readOk: bool, faults: Faults, at: int)

  function Serve(s: Service, call: Call): (Service, Reply) {
    match call.request
    case CreateTask(task, generated) => Created(s, task, generated, call.dbOk, call.faults, call.at)
    case GetTaskByID(id) => ReadTask(s, id, call.dbOk, call.faults, call.at)
    case GetTasks => ReadAll(s, call.dbOk, call.faults, call.at)
    case GetTasksPaginated(a) => ReadPage(s, a, call.dbOk, call.readOk, call.faults, call.at)
    case UpdateTask(id, updated) => UpdatedTask(s, id, updated, call.dbOk, call.readOk, call.faults, call.at)
    case DeleteTask(id) => DeletedTask(s, id, call.dbOk, call.readOk, call.faults, call.at)
  }
}

/**
 The cached service answers like the plain one, and when it does not.
 */
module CachedTasksCoherence {
  import opened Wrappers
  import opened MemoryCache
  import opened CircuitBreaker
  import opened MultiLevelCache
  import opened TaskService
  import opened CacheKeys
  import opened CachedTasks

  // ---------- what an entry must say ----------

  /** The value is what the plain service would answer to the calls that use the key. */
  ghost predicate Agrees(table: seq<Task>, key: string, value: Cached) {
    && (forall id | key == TaskKey(id) ::
          value.OneTask? && Find(table, id).Some? && SameContent(value.task, Find(table, id).value))
    && (key == ALL_TASKS ==> value == TaskList(table))
    && (forall a | NoColons(a) && key == PageKey(a) :: value == TaskPage(Page(table, a), |table|))
  }

  /** Entries that a change may have made wrong and that are not deleted yet. */
  datatype Doubt = Doubt(task: Option<UUID>, pages: bool, list: bool)

  const NO_DOUBT := Doubt(None, false, false)

  predicate Doubtful(d: Doubt, key: string) {
    || (d.task.Some? && key == TaskKey(d.task.value))
    || (d.pages && PAGES <= key)
    || (d.list && key == ALL_TASKS)
  }

  /** Every entry in either level, expired or not, agrees with the table or is in doubt. */
  ghost predicate CoherentBut(s: Service, d: Doubt) {
    && (forall key | key in s.node.l1 && !Doubtful(d, key) :: Agrees(s.table, key, s.node.l1[key].value))
    && (s.l2.Some? ==>
          forall key | key in s.l2.value && !Doubtful(d, key) :: Agrees(s.table, key, s.l2.value[key].value))
  }

  ghost predicate Coherent(s: Service) { CoherentBut(s, NO_DOUBT) }

  // ---------- cache calls keep coherence ----------

  lemma SetKeeps(s: Service, d: Doubt, key: string, value: Cached, ttl: int, fault: Fault, now: int)
    requires CoherentBut(s, d) && Agrees(s.table, key, value)
    ensures CoherentBut(Do(s, Set(key, value, ttl, fault), now), d)
  {
  }

  lemma GetKeeps(s: Service, d: Doubt, key: string, fault: Fault, now: int)
    requires CoherentBut(s, d)
    ensures CoherentBut(Do(s, Get(key, fault), now), d)
    ensures Told(s, Get(key, fault), now).Hit? && !Doubtful(d, key) ==>
              Agrees(s.table, key, Told(s, Get(key, fault), now).value)
  {
  }

  lemma DeletePatternKeeps(s: Service, d: Doubt, pattern: string, fault: Fault, now: int)
    requires CoherentBut(s, d)
    ensures CoherentBut(Do(s, DeletePattern(pattern, fault), now), d)
  {
  }

  /** A confirmed deletion settles the doubt about its key. */
  lemma DeleteSettles(s: Service, d: Doubt, key: string, fault: Fault, now: int)
    requires CoherentBut(s, d)
    ensures CoherentBut(Do(s, Delete(key, fault), now), d)
    ensures Told(s, Delete(key, fault), now).Done? ==>
              && (d.task.Some? && key == TaskKey(d.task.value) ==>
                    CoherentBut(Do(s, Delete(key, fault), now), d.(task := None)))
              && (key == ALL_TASKS ==> CoherentBut(Do(s, Delete(key, fault), now), d.(list := false)))
  {
  }

  lemma PagePattern(key: string)
    ensures Glob(key, ALL_PAGES) <==> PAGES <= key
    ensures MatchPattern(key, ALL_PAGES) <==> PAGES <= key
  {
    assert Body(ALL_PAGES) == PAGES && Plain(PAGES);
    GlobPlain(key, PAGES);
    PlainBodyAgrees(key, ALL_PAGES);
  }

  lemma DeletePagesSettles(s: Service, d: Doubt, fault: Fault, now: int)
    requires CoherentBut(s, d) && Told(s, DeletePattern(ALL_PAGES, fault), now).Done?
    ensures CoherentBut(Do(s, DeletePattern(ALL_PAGES, fault), now), d.(pages := false))
  {
    forall key ensures (Glob(key, ALL_PAGES) <==> PAGES <= key) && (MatchPattern(key, ALL_PAGES) <==> PAGES <= key) {
      PagePattern(key);
    }
  }

  // ---------- operations keep coherence ----------

  /** Redis confirmed that the lists are gone. */
  predicate ListsForgotten(s: Service, third: Fault, fourth: Fault, now: int) {
    && Told(s, DeletePattern(ALL_PAGES, third), now).Done?
    && Told(Do(s, DeletePattern(ALL_PAGES, third), now), Delete(ALL_TASKS, fourth), now).Done?
  }

  lemma WithoutListsSettles(s: Service, d: Doubt, third: Fault, fourth: Fault, now: int)
    requires CoherentBut(s, d) && ListsForgotten(s, third, fourth, now)
    ensures CoherentBut(WithoutLists(s, third, fourth, now), d.(pages := false, list := false))
  {
    DeletePagesSettles(s, d, third, now);
    DeleteSettles(Do(s, DeletePattern(ALL_PAGES, third), now), d.(pages := false), ALL_TASKS, fourth, now);
  }

  /** The state in which the lists are forgotten, after the task itself. */
  function BeforeLists(s: Service, id: UUID, owner: Option<UUID>, f: Faults, now: int): Service {
    var s := Do(s, Delete(TaskKey(id), f.first), now);
    if owner.Some? then Do(s, DeletePattern(UserPattern(owner.value), f.second), now) else s
  }

  predicate Forgotten(s: Service, id: UUID, owner: Option<UUID>, f: Faults, now: int) {
    && Told(s, Delete(TaskKey(id), f.first), now).Done?
    && ListsForgotten(BeforeLists(s, id, owner, f, now), f.third, f.fourth, now)
  }

  lemma ForgetSettles(s: Service, id: UUID, owner: Option<UUID>, f: Faults, now: int)
    requires CoherentBut(s, Doubt(Some(id), true, true)) && Forgotten(s, id, owner, f, now)
    ensures Coherent(Forget(s, id, owner, f, now))
  {
    var d := Doubt(None, true, true);
    DeleteSettles(s, Doubt(Some(id), true, true), TaskKey(id), f.first, now);
    if owner.Some? {
      DeletePatternKeeps(Do(s, Delete(TaskKey(id), f.first), now), d, UserPattern(owner.value), f.second, now);
    }
    WithoutListsSettles(BeforeLists(s, id, owner, f, now), d, f.third, f.fourth, now);
  }

  /** A key that is in no doubt is about a task whose row the change left alone. */
  lemma StillAgrees(before: seq<Task>, after: seq<Task>, d: Doubt, key: string, value: Cached)
    requires Agrees(before, key, value) && d.pages && d.list && !Doubtful(d, key)
    requires forall id | d.task != Some(id) && Find(before, id).Some? :: Find(after, id) == Find(before, id)
    ensures Agrees(after, key, value)
  {
    forall a | key == PageKey(a) ensures PAGES <= key { KeysDiffer("", "", a); }
  }

  lemma ChangeDoubts(s: Service, after: seq<Task>, d: Doubt)
    requires Coherent(s) && d.pages && d.list
    requires forall id | d.task != Some(id) && Find(s.table, id).Some? :: Find(after, id) == Find(s.table, id)
    ensures CoherentBut(s.(table := after), d)
  {
    forall key | key in s.node.l1 && !Doubtful(d, key) ensures Agrees(after, key, s.node.l1[key].value) {
      StillAgrees(s.table, after, d, key, s.node.l1[key].value);
    }
    if s.l2.Some? {
      forall key | key in s.l2.value && !Doubtful(d, key) ensures Agrees(after, key, s.l2.value[key].value) {
        StillAgrees(s.table, after, d, key, s.l2.value[key].value);
      }
    }
  }

  // ---------- whole operations ----------

  /** Every deletion that the operation asks Redis for is confirmed, a new task comes with its id
      and its status, and a page's total is counted. */
  predicate Proper(s: Service, call: Call) {
    match call.request
    case CreateTask(task, generated) =>
      Find(s.table, NewRow(task, generated, call.at).id).Some? || !call.dbOk ||
      (task.id != NIL && task.status != ""
       && ListsForgotten(AfterCreateSet(s, task, generated, call.faults, call.at), call.faults.third, call.faults.fourth, call.at))
    case UpdateTask(id, updated) =>
      var s := s.(table := Updated(s.table, id, updated, call.at));
      call.dbOk ==> Forgotten(s, id, OwnerOf(s.table, id, call.readOk), call.faults, call.at)
    case DeleteTask(id) =>
      call.dbOk ==>
        Forgotten(s.(table := Removed(s.table, id)), id, OwnerOf(s.table, id, call.readOk), call.faults, call.at)
    case GetTasksPaginated(_) => call.dbOk ==> call.readOk
    case _ => true
  }

  function AfterCreateSet(s: Service, task: Task, generated: UUID, f: Faults, now: int): Service {
    var s := s.(table := s.table + [NewRow(task, generated, now)]);
    Do(Do(s, Set(TaskKey(task.id), OneTask(task), 30 * MINUTE, f.first), now),
       DeletePattern(UserPattern(task.userId), f.second), now)
  }

  lemma CreateKeeps(s: Service, task: Task, generated: UUID, f: Faults, now: int)
    requires Coherent(s) && task.id != NIL && task.status != "" && Find(s.table, task.id).None?
    requires ListsForgotten(AfterCreateSet(s, task, generated, f, now), f.third, f.fourth, now)
    ensures Coherent(Created(s, task, generated, true, f, now).0)
  {
    var row := NewRow(task, generated, now);
    var t := s.(table := s.table + [row]);
    var d := Doubt(None, true, true);
    forall id ensures Find(t.table, id) == if Find(s.table, id).Some? then Find(s.table, id) else if row.id == id then Some(row) else None {
      FindAfterAppend(s.table, row, id);
    }
    ChangeDoubts(s, t.table, d);
    TaskAgrees(t.table, task.id, task);
    SetKeeps(t, d, TaskKey(task.id), OneTask(task), 30 * MINUTE, f.first, now);
    DeletePatternKeeps(Do(t, Set(TaskKey(task.id), OneTask(task), 30 * MINUTE, f.first), now), d,
                       UserPattern(task.userId), f.second, now);
    WithoutListsSettles(AfterCreateSet(s, task, generated, f, now), d, f.third, f.fourth, now);
  }

  lemma TaskAgrees(table: seq<Task>, id: UUID, task: Task)
    requires Find(table, id).Some? && SameContent(task, Find(table, id).value)
    ensures Agrees(table, TaskKey(id), OneTask(task))
  {
    var none := PageArgs("", "", "", "");
    forall other ensures TaskKey(id) == TaskKey(other) ==> id == other { KeysDiffer(id, other, none); }
    forall a ensures TaskKey(id) != PageKey(a) { KeysDiffer(id, id, a); }
    KeysDiffer(id, id, none);
  }

  lemma ListAgrees(table: seq<Task>)
    ensures Agrees(table, ALL_TASKS, TaskList(table))
  {
    forall id ensures TaskKey(id) != ALL_TASKS { KeysDiffer(id, id, PageArgs("", "", "", "")); }
    forall a ensures ALL_TASKS != PageKey(a) { KeysDiffer("", "", a); }
  }

  /** A page with a colon in its arguments shares no key with one that has none. */
  lemma PageAgrees(table: seq<Task>, a: PageArgs)
    ensures Agrees(table, PageKey(a), TaskPage(Page(table, a), |table|))
  {
    forall id ensures TaskKey(id) != PageKey(a) { KeysDiffer(id, id, a); }
    KeysDiffer("", "", a);
    forall b | NoColons(b) && PageKey(b) == PageKey(a) ensures b == a { PageKeyIsOwnIffNoColons(b); }
  }

  lemma ReadKeeps(s: Service, key: string, row: Option<Cached>, ttl: int, dbOk: bool, f: Faults, now: int)
    requires Coherent(s) && (dbOk && row.Some? ==> Agrees(s.table, key, row.value))
    ensures var (t, reply) := Read(s, key, row, ttl, dbOk, f, now);
      && Coherent(t) && t.table == s.table
      && (reply.Found? ==> Agrees(s.table, key, reply.value))
      && (reply.NotFound? ==> row.None?) && (reply.Failed? ==> !dbOk) && !reply.Ok?
  {
    GetKeeps(s, NO_DOUBT, key, f.first, now);
    if dbOk && row.Some? {
      SetKeeps(Do(s, Get(key, f.first), now), NO_DOUBT, key, row.value, ttl, f.second, now);
    }
  }

  /** The reply is the plain service's: a task up to its time stamps, lists exactly. */
  predicate RightReply(table: seq<Task>, call: Call, reply: Reply) {
    match call.request
    case GetTaskByID(id) =>
      if reply.Found? then
        reply.value.OneTask? && Find(table, id).Some? && SameContent(reply.value.task, Find(table, id).value)
      else if reply.NotFound? then Find(table, id).None?
      else reply.Failed? && !call.dbOk
    case GetTasks => if reply.Found? then reply.value == TaskList(table) else reply.Failed? && !call.dbOk
    case GetTasksPaginated(a) =>
      NoColons(a) ==>
        if reply.Found? then reply.value == TaskPage(Page(table, a), |table|) else reply.Failed? && !call.dbOk
    case CreateTask(task, generated) =>
      reply == if call.dbOk && Find(table, NewRow(task, generated, call.at).id).None? then Ok else Failed
    case _ => reply == if call.dbOk then Ok else Failed
  }

  lemma ServeReads(s: Service, call: Call)
    requires Coherent(s) && Proper(s, call)
    requires call.request.GetTaskByID? || call.request.GetTasks? || call.request.GetTasksPaginated?
    ensures Coherent(Serve(s, call).0) && RightReply(s.table, call, Serve(s, call).1)
  {
    match call.request {
      case GetTaskByID(id) =>
        var row := Find(s.table, id);
        FindIsMember(s.table, id);
        if row.Some? { TaskAgrees(s.table, id, row.value); }
        ReadKeeps(s, TaskKey(id), if row.Some? then Some(OneTask(row.value)) else None, 30 * MINUTE,
                  call.dbOk, call.faults, call.at);
      case GetTasks =>
        ListAgrees(s.table);
        ReadKeeps(s, ALL_TASKS, Some(TaskList(s.table)), 10 * MINUTE, call.dbOk, call.faults, call.at);
      case GetTasksPaginated(a) =>
        PageAgrees(s.table, a);
        ReadKeeps(s, PageKey(a), Some(TaskPage(Page(s.table, a), Total(s.table, call.readOk))), 5 * MINUTE,
                  call.dbOk, call.faults, call.at);
    }
  }

  lemma ServeKeeps(s: Service, call: Call)
    requires Coherent(s) && Proper(s, call)
    ensures Coherent(Serve(s, call).0) && RightReply(s.table, call, Serve(s, call).1)
  {
    match call.request {
      case CreateTask(task, generated) =>
        if call.dbOk && Find(s.table, NewRow(task, generated, call.at).id).None? {
          CreateKeeps(s, task, generated, call.faults, call.at);
        }
      case UpdateTask(id, updated) =>
        var after := Updated(s.table, id, updated, call.at);
        forall other ensures other != id ==> Find(after, other) == Find(s.table, other) {
          FindAfterUpdate(s.table, id, updated, call.at, other);
        }
        ChangeDoubts(s, after, Doubt(Some(id), true, true));
        if call.dbOk {
          ForgetSettles(s.(table := after), id, OwnerOf(after, id, call.readOk), call.faults, call.at);
        }
      case DeleteTask(id) =>
        var after := Removed(s.table, id);
        forall other ensures other != id ==> Find(after, other) == Find(s.table, other) {
          FindAfterRemove(s.table, id, other);
        }
        ChangeDoubts(s, after, Doubt(Some(id), true, true));
        if call.dbOk {
          ForgetSettles(s.(table := after), id, OwnerOf(s.table, id, call.readOk), call.faults, call.at);
        }
      case _ => ServeReads(s, call);
    }
  }

  // ---------- whole histories ----------

  /** A new service over any table, with an empty Redis or none, after the first k calls. */
  function StateAt(table: seq<Task>, redis: bool, calls: seq<Call>, k: nat): Service
    requires k <= |calls|
  {
    if k == 0 then
      Service(table, Node(map[], INITIAL, Metrics(0, 0, 0, 0, 0)), if redis then Some(map[]) else None)
    else Serve(StateAt(table, redis, calls, k - 1), calls[k - 1]).0
  }

  predicate AllProper(table: seq<Task>, redis: bool, calls: seq<Call>) {
    forall k | 0 <= k < |calls| :: Proper(StateAt(table, redis, calls, k), calls[k])
  }

  lemma {:induction false} AlwaysCoherent(table: seq<Task>, redis: bool, calls: seq<Call>, k: nat)
    requires k <= |calls| && AllProper(table, redis, calls)
    ensures Coherent(StateAt(table, redis, calls, k))
    decreases k
  {
    if k > 0 {
      AlwaysCoherent(table, redis, calls, k - 1);
      ServeKeeps(StateAt(table, redis, calls, k - 1), calls[k - 1]);
    }
  }

  /** The table as the plain service changes it. */
  function PlainTable(table: seq<Task>, call: Call): seq<Task> {
    if !call.dbOk then table
    else match call.request
      case CreateTask(task, generated) =>
        var row := NewRow(task, generated, call.at);
        if Find(table, row.id).Some? then table else table + [row]
      case UpdateTask(id, updated) => Updated(table, id, updated, call.at)
      case DeleteTask(id) => Removed(table, id)
      case _ => table
  }

  function PlainTableAt(table: seq<Task>, calls: seq<Call>, k: nat): seq<Task>
    requires k <= |calls|
  {
    if k == 0 then table else PlainTable(PlainTableAt(table, calls, k - 1), calls[k - 1])
  }

  lemma ServeTable(s: Service, call: Call)
    ensures Serve(s, call).0.table == PlainTable(s.table, call)
  {
  }

  lemma {:induction false} SameTables(table: seq<Task>, redis: bool, calls: seq<Call>, k: nat)
    requires k <= |calls|
    ensures StateAt(table, redis, calls, k).table == PlainTableAt(table, calls, k)
    decreases k
  {
    if k > 0 {
      SameTables(table, redis, calls, k - 1);
      ServeTable(StateAt(table, redis, calls, k - 1), calls[k - 1]);
    }
  }

  /** Over every history in which deletions are confirmed, created tasks come with id and status
      and totals are counted, the cached service replies as the plain one after the same calls. */
  lemma CachedServiceAgrees(table: seq<Task>, redis: bool, calls: seq<Call>, k: nat)
    requires k < |calls| && AllProper(table, redis, calls)
    ensures RightReply(PlainTableAt(table, calls, k), calls[k], Serve(StateAt(table, redis, calls, k), calls[k]).1)
  {
    AlwaysCoherent(table, redis, calls, k);
    ServeKeeps(StateAt(table, redis, calls, k), calls[k]);
    SameTables(table, redis, calls, k);
  }
}
