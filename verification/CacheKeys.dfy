/**
 The cache keys of the task service: when they are told apart.
 */
module CacheKeys {
  import opened Wrappers
  import opened TaskService

  const ALL_TASKS := "all_tasks"
  const PAGES := "tasks_paginated:"
  const TASK := "task:"

  function TaskKey(id: UUID): string { TASK + id }

  function Joined(a: PageArgs): string { a.sortBy + ":" + a.order + ":" + a.page + ":" + a.pageSize }

  function PageKey(a: PageArgs): string { PAGES + Joined(a) }

  predicate NoColon(s: string) { ':' !in s }

  predicate NoColons(a: PageArgs) {
    NoColon(a.sortBy) && NoColon(a.order) && NoColon(a.page) && NoColon(a.pageSize)
  }

  function Colons(s: string): nat {
    if s == "" then 0 else (if s[0] == ':' then 1 else 0) + Colons(s[1..])
  }

  lemma {:induction false} ColonsAdd(s: string, t: string)
    ensures Colons(s + t) == Colons(s) + Colons(t)
  {
    if s == "" {
      assert s + t == t;
    } else {
      assert (s + t)[1..] == s[1..] + t;
      ColonsAdd(s[1..], t);
    }
  }

  lemma {:induction false} NoColonCount(s: string)
    ensures Colons(s) == 0 <==> NoColon(s)
  {
    if s != "" {
      NoColonCount(s[1..]);
      assert s == [s[0]] + s[1..];
    }
  }

  lemma JoinedColons(a: PageArgs)
    ensures Colons(Joined(a)) == 3 + Colons(a.sortBy) + Colons(a.order) + Colons(a.page) + Colons(a.pageSize)
  {
    assert Colons(":") == 1 by { assert ":"[1..] == ""; }
    ColonsAdd(a.sortBy, ":");
    ColonsAdd(a.sortBy + ":", a.order);
    ColonsAdd(a.sortBy + ":" + a.order, ":");
    ColonsAdd(a.sortBy + ":" + a.order + ":", a.page);
    ColonsAdd(a.sortBy + ":" + a.order + ":" + a.page, ":");
    ColonsAdd(a.sortBy + ":" + a.order + ":" + a.page + ":", a.pageSize);
  }

  function BeforeColon(s: string): nat {
    if s == "" || s[0] == ':' then 0 else 1 + BeforeColon(s[1..])
  }

  lemma {:induction false} BeforeColonIsHead(x: string, s: string)
    requires NoColon(x)
    ensures BeforeColon(x + ":" + s) == |x|
  {
    if x != "" {
      assert x[0] in x && (x + ":" + s)[1..] == x[1..] + ":" + s;
      BeforeColonIsHead(x[1..], s);
    }
  }

  /** What precedes the first colon is determined by the whole. */
  lemma HeadIsUnique(x: string, s: string, y: string, t: string)
    requires NoColon(x) && NoColon(y) && x + ":" + s == y + ":" + t
    ensures x == y && s == t
  {
    var whole := x + ":" + s;
    BeforeColonIsHead(x, s);
    BeforeColonIsHead(y, t);
    assert x == whole[..|x|] == y;
    assert s == whole[|x| + 1..] == t;
  }

  lemma PartsAreUnique(a: PageArgs, b: PageArgs)
    requires NoColons(a) && NoColons(b) && Joined(a) == Joined(b)
    ensures a == b
  {
    assert Joined(a) == a.sortBy + ":" + (a.order + ":" + (a.page + ":" + a.pageSize));
    assert Joined(b) == b.sortBy + ":" + (b.order + ":" + (b.page + ":" + b.pageSize));
    HeadIsUnique(a.sortBy, a.order + ":" + (a.page + ":" + a.pageSize),
                 b.sortBy, b.order + ":" + (b.page + ":" + b.pageSize));
    HeadIsUnique(a.order, a.page + ":" + a.pageSize, b.order, b.page + ":" + b.pageSize);
    HeadIsUnique(a.page, a.pageSize, b.page, b.pageSize);
  }

  lemma SplitAtColon(s: string) returns (l: string, r: string)
    requires !NoColon(s)
    ensures s == l + ":" + r
  {
    var i :| 0 <= i < |s| && s[i] == ':';
    l, r := s[..i], s[i + 1..];
  }

  /** Moving the colon between the first two arguments. */
  lemma MoveFirst(x: string, y: string, z: string, page: string, pageSize: string)
    ensures Joined(PageArgs(x + ":" + y, z, page, pageSize)) == Joined(PageArgs(x, y + ":" + z, page, pageSize))
  {
    assert (x + ":" + y) + ":" + z == x + ":" + (y + ":" + z);
  }

  lemma MoveSecond(x: string, y: string, z: string, sortBy: string, pageSize: string)
    ensures Joined(PageArgs(sortBy, x + ":" + y, z, pageSize)) == Joined(PageArgs(sortBy, x, y + ":" + z, pageSize))
  {
    assert sortBy + ":" + (x + ":" + y) + ":" + z == sortBy + ":" + x + ":" + (y + ":" + z);
  }

  lemma MoveThird(x: string, y: string, z: string, sortBy: string, order: string)
    ensures Joined(PageArgs(sortBy, order, x + ":" + y, z)) == Joined(PageArgs(sortBy, order, x, y + ":" + z))
  {
    var head := sortBy + ":" + order + ":";
    assert head + (x + ":" + y) + ":" + z == head + x + ":" + (y + ":" + z);
  }

  /** Other arguments with the same key. */
  lemma OtherArguments(a: PageArgs) returns (b: PageArgs)
    requires !NoColons(a)
    ensures b != a && Joined(b) == Joined(a)
  {
    if !NoColon(a.sortBy) {
      var l, r := SplitAtColon(a.sortBy);
      b := PageArgs(l, r + ":" + a.order, a.page, a.pageSize);
      MoveFirst(l, r, a.order, a.page, a.pageSize);
      assert |b.sortBy| < |a.sortBy|;
    } else if !NoColon(a.order) {
      var l, r := SplitAtColon(a.order);
      b := PageArgs(a.sortBy, l, r + ":" + a.page, a.pageSize);
      MoveSecond(l, r, a.page, a.sortBy, a.pageSize);
      assert |b.order| < |a.order|;
    } else if !NoColon(a.page) {
      var l, r := SplitAtColon(a.page);
      b := PageArgs(a.sortBy, a.order, l, r + ":" + a.pageSize);
      MoveThird(l, r, a.pageSize, a.sortBy, a.order);
      assert |b.page| < |a.page|;
    } else {
      var l, r := SplitAtColon(a.pageSize);
      b := PageArgs(a.sortBy, a.order, a.page + ":" + l, r);
      MoveThird(a.page, l, r, a.sortBy, a.order);
      assert |b.pageSize| < |a.pageSize|;
    }
  }

  /** A page key belongs to one call only, whatever the other call's arguments, if and only
      if its own arguments contain no colon. */
  lemma PageKeyIsOwnIffNoColons(a: PageArgs)
    ensures (forall b :: PageKey(b) == PageKey(a) ==> b == a) <==> NoColons(a)
  {
    if NoColons(a) {
      forall b | PageKey(b) == PageKey(a) ensures b == a {
        assert Joined(b) == PageKey(b)[|PAGES|..] == PageKey(a)[|PAGES|..] == Joined(a);
        JoinedColons(a);
        JoinedColons(b);
        NoColonCount(a.sortBy);
        NoColonCount(a.order);
        NoColonCount(a.page);
        NoColonCount(a.pageSize);
        NoColonCount(b.sortBy);
        NoColonCount(b.order);
        NoColonCount(b.page);
        NoColonCount(b.pageSize);
        PartsAreUnique(a, b);
      }
    } else {
      var b := OtherArguments(a);
      assert PageKey(b) == PageKey(a);
    }
  }

  lemma KeysDiffer(id: UUID, other: UUID, a: PageArgs)
    ensures TaskKey(id) == TaskKey(other) ==> id == other
    ensures TaskKey(id) != PageKey(a) && TaskKey(id) != ALL_TASKS && PageKey(a) != ALL_TASKS
    ensures PAGES <= PageKey(a) && !(PAGES <= TaskKey(id)) && !(PAGES <= ALL_TASKS)
  {
    assert TaskKey(id)[4] == ':' && PageKey(a)[4] == 's' && PAGES[4] == 's';
    assert TaskKey(id)[0] == 't' && PageKey(a)[0] == 't' && ALL_TASKS[0] == 'a' && PAGES[0] == 't';
    assert TaskKey(id)[|TASK|..] == id && TaskKey(other)[|TASK|..] == other;
  }

  lemma AtoiOfDigit(s: string)
    requires |s| == 1 && Digit(s[0])
    ensures Atoi(s) == Some(s[0] as int - '0' as int)
  {
    assert s[..0] == "" && Digits(s) == s[0] as int - '0' as int;
  }

  lemma AtoiOfColon(s: string)
    requires |s| == 3 && Digit(s[0]) && s[1] == ':'
    ensures Atoi(s) == None
  {
    assert s[1] in s && !Digit(s[1]);
  }

  lemma OneRowPages(row: Task, a: PageArgs)
    ensures Page([row], a) == if Offset(PageNumber(a.page), PageSize(a.pageSize)) == 0 then [row] else []
  {
    assert [row][..0] == [] && SortRows(a.sortBy, a.order == "asc", []) == [];
    assert SortRows(a.sortBy, a.order == "asc", [row]) == [row];
  }

  /** Two calls that share a key and not their answer. */
  lemma SharedKeyDifferentPages(row: Task, sortBy: string, order: string)
    ensures var a := PageArgs(sortBy, order, "1", "2:5");
      var b := PageArgs(sortBy, order + ":" + "1", "2", "5");
      PageKey(a) == PageKey(b) && Page([row], a) == [row] && Page([row], b) == []
  {
    var a := PageArgs(sortBy, order, "1", "2:5");
    var b := PageArgs(sortBy, order + ":" + "1", "2", "5");
    assert "2" + ":" + "5" == "2:5";
    MoveSecond(order, "1", "2", sortBy, "5");
    MoveThird("1", "2", "5", sortBy, order);
    AtoiOfDigit("1");
    AtoiOfDigit("2");
    AtoiOfDigit("5");
    AtoiOfColon("2:5");
    OneRowPages(row, a);
    OneRowPages(row, b);
  }
}
