/**
 What the pages of the task list hold: the table in the order asked for, cut into pieces; and which
 fields a creation and an update leave in a row.
 */
module TaskPages {
  import opened Wrappers
  import opened Arithmetic
  import opened TaskService

  // ---------- text order ----------

  /** Byte order: the first difference decides, and a prefix comes first. */
  ghost predicate Precedes(a: string, b: string) {
    exists k: nat :: k <= |a| && k < |b| && a[..k] == b[..k] && (k == |a| || a[k] < b[k])
  }

  lemma {:induction false} TextBeforeIsPrecedes(a: string, b: string)
    ensures TextBefore(a, b) <==> Precedes(a, b)
  {
    if a != "" && b != "" && a[0] == b[0] {
      TextBeforeIsPrecedes(a[1..], b[1..]);
      if Precedes(a[1..], b[1..]) {
        var k: nat :| k <= |a[1..]| && k < |b[1..]| && a[1..][..k] == b[1..][..k] && (k == |a[1..]| || a[1..][k] < b[1..][k]);
        assert a[..k + 1] == [a[0]] + a[1..][..k] && b[..k + 1] == [b[0]] + b[1..][..k];
      }
      if Precedes(a, b) {
        var k: nat :| k <= |a| && k < |b| && a[..k] == b[..k] && (k == |a| || a[k] < b[k]);
        assert k > 0;
        assert a[1..][..k - 1] == a[..k][1..] && b[1..][..k - 1] == b[..k][1..];
      }
    } else if TextBefore(a, b) {
      assert a[..0] == b[..0];
    } else if Precedes(a, b) {
      var k: nat :| k <= |a| && k < |b| && a[..k] == b[..k] && (k == |a| || a[k] < b[k]);
      if k > 0 { SameStart(a, b, k); }
    }
  }

  lemma SameStart(a: string, b: string, k: nat)
    requires 0 < k <= |a| && k <= |b| && a[..k] == b[..k]
    ensures a[0] == b[0]
  {
    assert a[..k][0] == b[..k][0];
  }

  lemma {:induction false} TextTotal(a: string, b: string)
    ensures a != b ==> TextBefore(a, b) || TextBefore(b, a)
    ensures TextBefore(a, b) ==> !TextBefore(b, a) && a != b
  {
    if a != "" && b != "" && a[0] == b[0] {
      TextTotal(a[1..], b[1..]);
      assert a == [a[0]] + a[1..] && b == [b[0]] + b[1..];
    }
  }

  lemma {:induction false} TextTransitive(a: string, b: string, c: string)
    requires TextBefore(a, b) && TextBefore(b, c)
    ensures TextBefore(a, c)
  {
    if a != "" && a[0] == b[0] && b[0] == c[0] { TextTransitive(a[1..], b[1..], c[1..]); }
  }

  // ---------- row order ----------

  /** Row a may stand before row b in the order asked for, by the column's own field. */
  predicate InOrder(sortBy: string, ascending: bool, a: Task, b: Task) {
    var x, y := if ascending then a else b, if ascending then b else a;
    if sortBy == "title" then x.title == y.title || TextBefore(x.title, y.title)
    else if sortBy == "updated_at" then x.updatedAt <= y.updatedAt
    else x.createdAt <= y.createdAt
  }

  lemma InOrderTotal(sortBy: string, ascending: bool, a: Task, b: Task)
    ensures InOrder(sortBy, ascending, a, b) || InOrder(sortBy, ascending, b, a)
  {
    TextTotal(a.title, b.title);
  }

  lemma InOrderTransitive(sortBy: string, ascending: bool, a: Task, b: Task, c: Task)
    requires InOrder(sortBy, ascending, a, b) && InOrder(sortBy, ascending, b, c)
    ensures InOrder(sortBy, ascending, a, c)
  {
    if sortBy == "title" {
      var x, y, z := if ascending then a else c, b, if ascending then c else a;
      if x.title != y.title && y.title != z.title { TextTransitive(x.title, y.title, z.title); }
    }
  }

  /** What the insertion looks at. */
  predicate GoesBefore(sortBy: string, ascending: bool, row: Task, other: Task) {
    if ascending then RowBefore(sortBy, row, other) else RowBefore(sortBy, other, row)
  }

  lemma GoesBeforeIff(sortBy: string, ascending: bool, row: Task, other: Task)
    ensures GoesBefore(sortBy, ascending, row, other) <==> !InOrder(sortBy, ascending, other, row)
  {
    TextTotal(row.title, other.title);
  }

  // ---------- the sorted table ----------

  /** Places of the table, each once, such that the rows there are in order and ties stay as in the table. */
  ghost predicate Arranged(place: seq<nat>, sortBy: string, ascending: bool, table: seq<Task>) {
    && (forall i :: 0 <= i < |place| ==> place[i] < |table|)
    && (forall i, j :: 0 <= i < j < |place| ==> Apart(place[i], place[j], sortBy, ascending, table))
  }

  /** All places of the table. */
  ghost predicate Arranges(place: seq<nat>, sortBy: string, ascending: bool, table: seq<Task>) {
    |place| == |table| && Arranged(place, sortBy, ascending, table)
  }

  /** Place p may come before place q. */
  ghost predicate Apart(p: nat, q: nat, sortBy: string, ascending: bool, table: seq<Task>) {
    && p < |table| && q < |table| && p != q && InOrder(sortBy, ascending, table[p], table[q])
    && (InOrder(sortBy, ascending, table[q], table[p]) ==> p < q)
  }

  function RowsAt(table: seq<Task>, place: seq<nat>): seq<Task>
    requires forall i :: 0 <= i < |place| ==> place[i] < |table|
  {
    seq(|place|, i requires 0 <= i < |place| => table[place[i]])
  }

  lemma AppendArranges(sortBy: string, ascending: bool, table: seq<Task>, place: seq<nat>, n: nat)
    requires place != [] && n < |table| && Arranged(place, sortBy, ascending, table)
    requires forall i :: 0 <= i < |place| ==> place[i] < n
    requires InOrder(sortBy, ascending, table[place[|place| - 1]], table[n])
    ensures Arranged(place + [n], sortBy, ascending, table)
  {
    var last := place[|place| - 1];
    forall i | 0 <= i < |place| ensures Apart(place[i], n, sortBy, ascending, table) {
      if i < |place| - 1 {
        assert Apart(place[i], last, sortBy, ascending, table);
        InOrderTransitive(sortBy, ascending, table[place[i]], table[last], table[n]);
      }
    }
  }

  lemma PrependArranges(sortBy: string, ascending: bool, table: seq<Task>, rest: seq<nat>, place: seq<nat>, n: nat)
    requires place != [] && n < |table| && Arranged(place, sortBy, ascending, table) && Arranged(rest, sortBy, ascending, table)
    requires place[|place| - 1] < n && !InOrder(sortBy, ascending, table[place[|place| - 1]], table[n])
    requires Within(rest, place[..|place| - 1], n)
    ensures Arranged(rest + [place[|place| - 1]], sortBy, ascending, table)
  {
    var front, last := place[..|place| - 1], place[|place| - 1];
    InOrderTotal(sortBy, ascending, table[n], table[last]);
    forall i | 0 <= i < |rest| ensures Apart(rest[i], last, sortBy, ascending, table) {
      if rest[i] != n {
        var k :| 0 <= k < |front| && front[k] == rest[i];
        assert Apart(place[k], place[|place| - 1], sortBy, ascending, table);
      }
    }
  }

  lemma InsertRowAt(sortBy: string, ascending: bool, table: seq<Task>, place: seq<nat>, n: nat)
    requires place != [] && n < |table| && forall i :: 0 <= i < |place| ==> place[i] < |table|
    ensures
      var front, last := place[..|place| - 1], place[|place| - 1];
      InsertRow(sortBy, ascending, RowsAt(table, place), table[n]) ==
        if GoesBefore(sortBy, ascending, table[n], table[last])
        then InsertRow(sortBy, ascending, RowsAt(table, front), table[n]) + [table[last]]
        else RowsAt(table, place + [n])
  {
    assert RowsAt(table, place)[..|place| - 1] == RowsAt(table, place[..|place| - 1]);
    assert RowsAt(table, place + [n]) == RowsAt(table, place) + [table[n]];
  }

  /** Every place is n or one of these. */
  ghost predicate Within(more: seq<nat>, place: seq<nat>, n: nat) {
    forall i :: 0 <= i < |more| ==> more[i] == n || more[i] in place
  }

  lemma FrontArranged(sortBy: string, ascending: bool, table: seq<Task>, place: seq<nat>, n: nat)
    requires place != [] && Arranged(place, sortBy, ascending, table) && forall i :: 0 <= i < |place| ==> place[i] < n
    ensures var front := place[..|place| - 1];
      Arranged(front, sortBy, ascending, table) && forall i :: 0 <= i < |front| ==> front[i] < n
  {
  }

  lemma WithinJoins(rest: seq<nat>, place: seq<nat>, n: nat)
    requires place != [] && Within(rest, place[..|place| - 1], n)
    ensures Within(rest + [place[|place| - 1]], place, n) && Within(place + [n], place, n)
  {
  }

  lemma RowsJoin(table: seq<Task>, rest: seq<nat>, last: nat)
    requires last < |table| && forall i :: 0 <= i < |rest| ==> rest[i] < |table|
    ensures RowsAt(table, rest + [last]) == RowsAt(table, rest) + [table[last]]
  {
  }

  /** Where the last place of the table goes among places that are arranged. */
  lemma {:induction false} InsertArranges(sortBy: string, ascending: bool, table: seq<Task>, place: seq<nat>) returns (more: seq<nat>)
    requires table != [] && (forall i :: 0 <= i < |place| ==> place[i] < |table| - 1)
    requires Arranged(place, sortBy, ascending, table)
    ensures |more| == |place| + 1 && Arranged(more, sortBy, ascending, table)
    ensures Within(more, place, |table| - 1)
    ensures InsertRow(sortBy, ascending, RowsAt(table, place), table[|table| - 1]) == RowsAt(table, more)
    decreases |place|
  {
    var n := |table| - 1;
    if place == [] {
      more := [n];
    } else {
      var front, last := place[..|place| - 1], place[|place| - 1];
      GoesBeforeIff(sortBy, ascending, table[n], table[last]);
      InsertRowAt(sortBy, ascending, table, place, n);
      FrontArranged(sortBy, ascending, table, place, n);
      if GoesBefore(sortBy, ascending, table[n], table[last]) {
        var rest := InsertArranges(sortBy, ascending, table, front);
        PrependArranges(sortBy, ascending, table, rest, place, n);
        WithinJoins(rest, place, n);
        RowsJoin(table, rest, last);
        more := rest + [last];
      } else {
        AppendArranges(sortBy, ascending, table, place, n);
        WithinJoins([], place, n);
        more := place + [n];
      }
    }
  }

  /** Sorting arranges the whole table: every row once, in the column's order, ties as in the table. */
  lemma {:induction false} SortArranges(sortBy: string, ascending: bool, table: seq<Task>) returns (place: seq<nat>)
    ensures Arranges(place, sortBy, ascending, table) && SortRows(sortBy, ascending, table) == RowsAt(table, place)
  {
    if table == [] {
      place := [];
    } else {
      var front := table[..|table| - 1];
      var before := SortArranges(sortBy, ascending, front);
      forall i, j | 0 <= i < j < |before| ensures Apart(before[i], before[j], sortBy, ascending, table) {
        assert Apart(before[i], before[j], sortBy, ascending, front);
      }
      assert RowsAt(front, before) == RowsAt(table, before);
      place := InsertArranges(sortBy, ascending, table, before);
    }
  }

  /** An arrangement is a permutation of the table's places. */
  lemma ArrangementIsComplete(place: seq<nat>, sortBy: string, ascending: bool, table: seq<Task>, p: nat)
    requires Arranges(place, sortBy, ascending, table) && p < |table|
    ensures p in place
  {
    ArrangementIsDistinct(place, sortBy, ascending, table);
    DistinctFill(place, |table|, p);
  }

  lemma ArrangementIsDistinct(place: seq<nat>, sortBy: string, ascending: bool, table: seq<Task>)
    requires Arranges(place, sortBy, ascending, table)
    ensures forall i, j :: 0 <= i < j < |place| ==> place[i] != place[j]
  {
    forall i, j | 0 <= i < j < |place| ensures place[i] != place[j] {
      assert Apart(place[i], place[j], sortBy, ascending, table);
    }
  }

  lemma LaterIsApart(place: seq<nat>, sortBy: string, ascending: bool, table: seq<Task>, k: nat, j: nat)
    requires Arranges(place, sortBy, ascending, table) && k < |place| && j < |place|
    ensures k < j ==> Apart(place[k], place[j], sortBy, ascending, table)
  {
  }

  /** There is no other arrangement: column, direction and table order decide every place. */
  lemma {:induction false} ArrangementIsUnique(a: seq<nat>, b: seq<nat>, sortBy: string, ascending: bool, table: seq<Task>, k: nat)
    requires Arranges(a, sortBy, ascending, table) && Arranges(b, sortBy, ascending, table) && k < |table|
    ensures a[k] == b[k]
    decreases k
  {
    forall i | 0 <= i < k ensures a[i] == b[i] { ArrangementIsUnique(a, b, sortBy, ascending, table, i); }
    ArrangementIsComplete(b, sortBy, ascending, table, a[k]);
    ArrangementIsComplete(a, sortBy, ascending, table, b[k]);
    var i :| 0 <= i < |b| && b[i] == a[k];
    var j :| 0 <= j < |a| && a[j] == b[k];
    ArrangementIsDistinct(a, sortBy, ascending, table);
    ArrangementIsDistinct(b, sortBy, ascending, table);
    LaterIsApart(a, sortBy, ascending, table, k, j);
    LaterIsApart(b, sortBy, ascending, table, k, i);
  }

  // ---------- pages ----------

  /** Where k pages of size s end among n rows. */
  function EndOf(k: nat, s: nat, n: nat): (e: nat)
    ensures e <= n
  {
    if k * s < n then k * s else n
  }

  lemma CutAt(rows: seq<Task>, from: nat, s: nat)
    requires s >= 1
    ensures
      var i, j := if from < |rows| then from else |rows|, if from + s < |rows| then from + s else |rows|;
      Slice(rows, from, s) == rows[i..j]
  {
  }

  lemma NextEnd(k: nat, s: nat)
    ensures (k + 1) * s == k * s + s
  {
  }

  /** Page p of size s is rows (p - 1) s up to p s of the sorted table. */
  lemma PageIsCut(table: seq<Task>, a: PageArgs)
    ensures
      var rows, p, s := SortRows(a.sortBy, a.order == "asc", table), PageNumber(a.page), PageSize(a.pageSize);
      var from, to := EndOf(p - 1, s, |rows|), EndOf(p, s, |rows|);
      from <= to && Page(table, a) == rows[from..to]
  {
    CutIs(SortRows(a.sortBy, a.order == "asc", table), PageNumber(a.page) - 1, PageSize(a.pageSize));
  }

  lemma EndsAt(k: nat, s: nat, n: nat, at: nat)
    requires at == k * s
    ensures EndOf(k, s, n) == if at < n then at else n
  {
  }

  lemma OffsetIs(k: nat, s: nat)
    requires s >= 1
    ensures Offset(k + 1, s) == k * s
  {
  }

  lemma CutIs(rows: seq<Task>, k: nat, s: nat)
    requires s >= 1
    ensures EndOf(k, s, |rows|) <= EndOf(k + 1, s, |rows|)
    ensures Slice(rows, Offset(k + 1, s), s) == rows[EndOf(k, s, |rows|)..EndOf(k + 1, s, |rows|)]
  {
    var at: nat := k * s;
    NextEnd(k, s);
    OffsetIs(k, s);
    EndsAt(k, s, |rows|, at);
    EndsAt(k + 1, s, |rows|, at + s);
    CutAt(rows, at, s);
  }

  /** The pages one after the other. */
  function FirstPages(table: seq<Task>, pages: seq<PageArgs>): seq<Task> {
    if pages == [] then [] else FirstPages(table, pages[..|pages| - 1]) + Page(table, pages[|pages| - 1])
  }

  ghost predicate Consecutive(pages: seq<PageArgs>, first: PageArgs) {
    forall i :: 0 <= i < |pages| ==>
      pages[i].sortBy == first.sortBy && pages[i].order == first.order && pages[i].pageSize == first.pageSize
      && PageNumber(pages[i].page) == i + 1
  }

  /** Consecutive pages from the first give the sorted table from its start, no row twice and none left out. */
  lemma {:induction false} PagesJoin(table: seq<Task>, pages: seq<PageArgs>, first: PageArgs)
    requires Consecutive(pages, first)
    ensures
      var rows := SortRows(first.sortBy, first.order == "asc", table);
      FirstPages(table, pages) == rows[..EndOf(|pages|, PageSize(first.pageSize), |rows|)]
  {
    var rows, n, s := SortRows(first.sortBy, first.order == "asc", table), |pages|, PageSize(first.pageSize);
    if n == 0 {
      EndsAt(0, s, |rows|, 0);
    } else {
      PagesJoin(table, pages[..n - 1], first);
      LastPageIs(table, pages, first);
      CutsJoin(rows, EndOf(n - 1, s, |rows|), EndOf(n, s, |rows|));
    }
  }

  lemma CutsJoin<T>(rows: seq<T>, i: nat, j: nat)
    requires i <= j <= |rows|
    ensures rows[..i] + rows[i..j] == rows[..j]
  {
  }

  lemma LastPageIs(table: seq<Task>, pages: seq<PageArgs>, first: PageArgs)
    requires pages != [] && Consecutive(pages, first)
    ensures
      var rows, n, s := SortRows(first.sortBy, first.order == "asc", table), |pages|, PageSize(first.pageSize);
      EndOf(n - 1, s, |rows|) <= EndOf(n, s, |rows|) &&
      Page(table, pages[n - 1]) == rows[EndOf(n - 1, s, |rows|)..EndOf(n, s, |rows|)]
  {
    PageIsCut(table, pages[|pages| - 1]);
  }

  // ---------- page arguments ----------

  function Decimal(n: nat): string {
    if n < 10 then [('0' as int + n) as char] else Decimal(n / 10) + [('0' as int + n % 10) as char]
  }

  lemma {:induction false} DecimalDigits(n: nat)
    ensures Decimal(n) != "" && (forall c | c in Decimal(n) :: Digit(c)) && Digits(Decimal(n)) == n
  {
    if n >= 10 {
      DecimalDigits(n / 10);
      var s := Decimal(n);
      assert s[..|s| - 1] == Decimal(n / 10);
    } else {
      assert Decimal(n)[..0] == "";
    }
  }

  lemma AtoiOfDigits(n: nat)
    ensures Atoi(Decimal(n)) == if n <= MAX_INT64 then Some(n as int) else None
  {
    DecimalDigits(n);
    assert Decimal(n)[0] in Decimal(n);
  }

  lemma AtoiOfSigned(n: nat, sign: char)
    requires sign == '+' || sign == '-'
    ensures
      var m := if sign == '-' then -(n as int) else n as int;
      Atoi([sign] + Decimal(n)) == if -MAX_INT64 - 1 <= m <= MAX_INT64 then Some(m) else None
  {
    DecimalDigits(n);
    assert ([sign] + Decimal(n))[1..] == Decimal(n);
  }

  /** A number written out is read back, with either sign, if it fits 64 bits. */
  lemma AtoiOfDecimal(n: nat)
    ensures Atoi(Decimal(n)) == (if n <= MAX_INT64 then Some(n as int) else None)
    ensures Atoi("+" + Decimal(n)) == (if n <= MAX_INT64 then Some(n as int) else None)
    ensures Atoi("-" + Decimal(n)) == (if n <= MAX_INT64 + 1 then Some(-(n as int)) else None)
  {
    AtoiOfDigits(n);
    AtoiOfSigned(n, '+');
    AtoiOfSigned(n, '-');
  }

  /** Only positive page numbers and sizes of at most 100 are taken; otherwise page 1, and 10 rows. */
  lemma PageArguments(n: nat)
    ensures PageNumber(Decimal(n)) == (if 1 <= n <= MAX_INT64 then n else 1)
    ensures PageSize(Decimal(n)) == (if 1 <= n <= 100 then n else 10)
    ensures PageNumber("-" + Decimal(n)) == 1 && PageSize("-" + Decimal(n)) == 10
    ensures PageNumber("") == 1 && PageSize("") == 10
  {
    AtoiOfDecimal(n);
  }

  lemma TextIsNoNumber(s: string, c: char)
    requires c in s && !Digit(c) && c != '+' && c != '-'
    ensures Atoi(s) == None && PageNumber(s) == 1 && PageSize(s) == 10
  {
    var i :| 0 <= i < |s| && s[i] == c;
    if i > 0 { assert s[1..][i - 1] == c; }
  }

  // ---------- the fields of a row ----------

  /** A field that the caller gave, or else the one that was there. */
  predicate Gives(given: string, was: string, is_: string) { is_ == if given != "" then given else was }

  /** After a successful update the row has every field that was given, keeps every other one, and is stamped. */
  lemma UpdatedFields(table: seq<Task>, id: UUID, updated: Task, now: int)
    requires Find(table, id).Some?
    ensures
      var was, row := Find(table, id).value, Find(Updated(table, id, updated, now), id);
      && row.Some? && row.value.id == id && row.value.updatedAt == now
      && Gives(updated.userId, was.userId, row.value.userId)
      && Gives(updated.title, was.title, row.value.title)
      && Gives(updated.description, was.description, row.value.description)
      && Gives(updated.status, was.status, row.value.status)
      && row.value.createdAt == (if updated.createdAt != 0 then updated.createdAt else was.createdAt)
  {
    FindAfterUpdate(table, id, updated, now, id);
    FindIsMember(table, id);
  }

  /** No row moves, and no other row changes. */
  lemma UpdatedInPlace(table: seq<Task>, id: UUID, updated: Task, now: int)
    ensures |Updated(table, id, updated, now)| == |table|
    ensures forall i :: 0 <= i < |table| ==>
      Updated(table, id, updated, now)[i].id == table[i].id &&
      (table[i].id != id ==> Updated(table, id, updated, now)[i] == table[i])
  {
  }

  /** The other rows close up around a removed one. */
  lemma {:induction false} RemovedClosesUp(before: seq<Task>, row: Task, after: seq<Task>)
    requires forall r | r in before :: r.id != row.id
    requires forall r | r in after :: r.id != row.id
    ensures Removed(before + [row] + after, row.id) == before + after
  {
    if before == [] {
      assert ([row] + after)[1..] == after && before + [row] + after == [row] + after;
      NothingRemoved(after, row.id);
    } else {
      assert (before + [row] + after)[1..] == before[1..] + [row] + after;
      assert before[0] in before;
      RemovedClosesUp(before[1..], row, after);
      assert before + after == [before[0]] + (before[1..] + after);
    }
  }

  lemma {:induction false} NothingRemoved(table: seq<Task>, id: UUID)
    requires forall r | r in table :: r.id != id
    ensures Removed(table, id) == table
  {
    if table != [] {
      assert table[0] in table;
      NothingRemoved(table[1..], id);
    }
  }

  /** A new row is the task as given, with a generated id, the status "pending" and the current time where none was. */
  lemma NewRowFields(task: Task, generated: UUID, now: int)
    ensures
      var row := NewRow(task, generated, now);
      && row.userId == task.userId && row.title == task.title && row.description == task.description
      && Gives(task.id, generated, row.id) && Gives(task.status, "pending", row.status)
      && row.createdAt == (if task.createdAt != 0 then task.createdAt else now)
      && row.updatedAt == (if task.updatedAt != 0 then task.updatedAt else now)
  {
  }
}
