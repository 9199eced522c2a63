/**
 The plain task service over the task table.  Rows are kept in the order the database
 lists them in; ids are unique.
 */
module TaskService {
  import opened Wrappers

  type UUID = string

  const NIL: UUID := ""

  datatype Task = Task(id: UUID, userId: UUID, title: string, description: string, status: string,
                       createdAt: int, updatedAt: int)

  predicate HasId(table: seq<Task>, id: UUID) { exists i :: 0 <= i < |table| && table[i].id == id }

  /** The row that the database makes of a new task. */
  function NewRow(task: Task, generated: UUID, now: int): Task {
    task.(id := if task.id == NIL then generated else task.id,
          status := if task.status == "" then "pending" else task.status,
          createdAt := if task.createdAt == 0 then now else task.createdAt,
          updatedAt := if task.updatedAt == 0 then now else task.updatedAt)
  }

  function Find(table: seq<Task>, id: UUID): Option<Task> {
    if table == [] then None
    else if table[0].id == id then Some(table[0]) else Find(table[1..], id)
  }

  function Or(new_: string, old_: string): string { if new_ == "" then old_ else new_ }

  /** Only the fields with a value are written. */
  function Merged(row: Task, updated: Task, now: int): Task {
    row.(userId := Or(updated.userId, row.userId), title := Or(updated.title, row.title),
         description := Or(updated.description, row.description), status := Or(updated.status, row.status),
         createdAt := if updated.createdAt == 0 then row.createdAt else updated.createdAt,
         updatedAt := now)
  }

  function Updated(table: seq<Task>, id: UUID, updated: Task, now: int): seq<Task> {
    seq(|table|, i requires 0 <= i < |table| =>
      if table[i].id == id then Merged(table[i], updated, now) else table[i])
  }

  function Removed(table: seq<Task>, id: UUID): seq<Task> {
    if table == [] then []
    else if table[0].id == id then Removed(table[1..], id)
    else [table[0]] + Removed(table[1..], id)
  }

  // ---------- pages ----------

  datatype PageArgs = PageArgs(sortBy: string, order: string, page: string, pageSize: string)

  const MAX_INT64: int := 0x7FFF_FFFF_FFFF_FFFF

  predicate Digit(c: char) { '0' <= c <= '9' }

  function Digits(s: string): nat
    requires forall c | c in s :: Digit(c)
  {
    if s == "" then 0
    else
      assert s[|s| - 1] in s && Digit(s[|s| - 1]);
      10 * Digits(s[..|s| - 1]) + (s[|s| - 1] as int - '0' as int)
  }

  /** strconv.Atoi: an optional sign, digits, and a result that fits 64 bits. */
  function Atoi(s: string): Option<int> {
    var negative := s != "" && s[0] == '-';
    var rest := if s != "" && (s[0] == '-' || s[0] == '+') then s[1..] else s;
    if rest == "" || exists c | c in rest :: !Digit(c) then None
    else
      var n: int := if negative then -(Digits(rest) as int) else Digits(rest);
      if -MAX_INT64 - 1 <= n <= MAX_INT64 then Some(n) else None
  }

  function PageNumber(s: string): (p: int)
    ensures p >= 1
  {
    match Atoi(s) case Some(v) => if v > 0 then v else 1 case None => 1
  }

  function PageSize(s: string): (size: int)
    ensures 1 <= size <= 100
  {
    match Atoi(s) case Some(v) => if 0 < v <= 100 then v else 10 case None => 10
  }

  predicate TextBefore(a: string, b: string) {
    b != "" && (a == "" || a[0] < b[0] || (a[0] == b[0] && TextBefore(a[1..], b[1..])))
  }

  predicate RowBefore(sortBy: string, a: Task, b: Task) {
    if sortBy == "title" then TextBefore(a.title, b.title)
    else if sortBy == "updated_at" then a.updatedAt < b.updatedAt
    else a.createdAt < b.createdAt
  }

  function InsertRow(sortBy: string, ascending: bool, rows: seq<Task>, row: Task): seq<Task> {
    if rows != [] && (if ascending then RowBefore(sortBy, row, rows[|rows| - 1]) else RowBefore(sortBy, rows[|rows| - 1], row))
    then InsertRow(sortBy, ascending, rows[..|rows| - 1], row) + [rows[|rows| - 1]]
    else rows + [row]
  }

  function SortRows(sortBy: string, ascending: bool, table: seq<Task>): seq<Task> {
    if table == [] then []
    else InsertRow(sortBy, ascending, SortRows(sortBy, ascending, table[..|table| - 1]), table[|table| - 1])
  }

  function Offset(page: int, size: int): nat
    requires page >= 1 && size >= 1
  {
    (page - 1) * size
  }

  function Slice(rows: seq<Task>, offset: nat, limit: nat): seq<Task> {
    if offset >= |rows| then []
    else if offset + limit >= |rows| then rows[offset..]
    else rows[offset..offset + limit]
  }

  /** Any sort column but updated_at and title means created_at; any order but asc, desc. */
  function Page(table: seq<Task>, a: PageArgs): seq<Task> {
    Slice(SortRows(a.sortBy, a.order == "asc", table),
          Offset(PageNumber(a.page), PageSize(a.pageSize)), PageSize(a.pageSize))
  }

  // ---------- facts the cached service needs ----------

  /** The fields in which the cached service answers like the table. */
  predicate SameContent(a: Task, b: Task) {
    a.id == b.id && a.userId == b.userId && a.title == b.title && a.description == b.description
    && a.status == b.status
  }

  lemma {:induction false} FindAfterAppend(table: seq<Task>, row: Task, id: UUID)
    ensures Find(table + [row], id) ==
            if Find(table, id).Some? then Find(table, id) else if row.id == id then Some(row) else None
  {
    if table == [] {
      assert table + [row] == [row];
    } else {
      assert (table + [row])[1..] == table[1..] + [row];
      FindAfterAppend(table[1..], row, id);
    }
  }

  lemma {:induction false} FindAfterUpdate(table: seq<Task>, id: UUID, updated: Task, now: int, other: UUID)
    ensures other != id ==> Find(Updated(table, id, updated, now), other) == Find(table, other)
    ensures Find(table, id).Some? ==>
              Find(Updated(table, id, updated, now), id) == Some(Merged(Find(table, id).value, updated, now))
    ensures Find(table, id).None? ==> Updated(table, id, updated, now) == table
  {
    if table != [] {
      assert Updated(table, id, updated, now)[1..] == Updated(table[1..], id, updated, now);
      FindAfterUpdate(table[1..], id, updated, now, other);
    }
  }

  lemma {:induction false} FindAfterRemove(table: seq<Task>, id: UUID, other: UUID)
    ensures Find(Removed(table, id), other) == if other == id then None else Find(table, other)
  {
    if table != [] { FindAfterRemove(table[1..], id, other); }
  }

  lemma {:induction false} FindIsMember(table: seq<Task>, id: UUID)
    ensures Find(table, id).Some? <==> HasId(table, id)
    ensures Find(table, id).Some? ==> Find(table, id).value in table && Find(table, id).value.id == id
  {
    if table != [] {
      FindIsMember(table[1..], id);
      if HasId(table, id) && table[0].id != id {
        var i :| 0 <= i < |table| && table[i].id == id;
        assert table[1..][i - 1].id == id;
      }
      if HasId(table[1..], id) {
        var i :| 0 <= i < |table[1..]| && table[1..][i].id == id;
        assert table[i + 1].id == id;
      }
      if table[0].id == id { assert table[0] in table; }
    }
  }
}
