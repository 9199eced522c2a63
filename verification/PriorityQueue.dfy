/**
 The priority queue of warm-up jobs: a binary heap over a slice of items that know their
 own index.  The sift loops are those of Go's container/heap.
 */
module PriorityQueue {
  import opened Wrappers

  datatype WarmupJob = WarmupJob(key: string, data: string, ttl: int, priority: int)

  class JobQueue {
    const job: WarmupJob
    const priority: int
    var index: int

    constructor (job: WarmupJob)
      ensures this.job == job && priority == job.priority
    {
      this.job, priority := job, job.priority;
      index := 0;
    }
  }

  function JobsOf(items: seq<JobQueue>): seq<WarmupJob> {
    seq(|items|, i requires 0 <= i < |items| => items[i].job)
  }

  predicate Less(items: seq<JobQueue>, i: nat, j: nat)
    requires i < |items| && j < |items|
  {
    items[i].priority > items[j].priority
  }

  function Parent(k: int): int { (k - 1) / 2 }

  /** Every item up to n, except possibly the one at hole, is no better than its parent. */
  ghost predicate OrderedExcept(items: seq<JobQueue>, n: nat, hole: int)
    requires n <= |items|
  {
    forall k {:trigger Parent(k)} | 0 < k < n && k != hole :: items[k].priority <= items[Parent(k)].priority
  }

  /** The same, except possibly the children of the hole. */
  ghost predicate OrderedBelowExcept(items: seq<JobQueue>, n: nat, hole: int)
    requires n <= |items|
  {
    forall k {:trigger Parent(k)} | 0 < k < n && Parent(k) != hole :: items[k].priority <= items[Parent(k)].priority
  }

  ghost predicate Ordered(items: seq<JobQueue>) { OrderedExcept(items, |items|, 0) }

  /** Nothing below the hole is better than the hole's parent. */
  ghost predicate Bridged(items: seq<JobQueue>, n: nat, hole: int)
    requires n <= |items| && hole < |items|
  {
    forall k {:trigger Parent(k)} | 0 < Parent(k) == hole && k < n :: items[k].priority <= items[Parent(hole)].priority
  }

  lemma {:induction false} RootIsBest(items: seq<JobQueue>, n: nat, i: nat)
    requires i < n <= |items| && OrderedExcept(items, n, 0)
    ensures items[i].priority <= items[0].priority
    decreases i
  {
    if i > 0 { RootIsBest(items, n, Parent(i)); }
  }

  function Swapped<T>(s: seq<T>, i: nat, j: nat): seq<T>
    requires i < |s| && j < |s|
  {
    s[i := s[j]][j := s[i]]
  }

  function SetOf(items: seq<JobQueue>): set<JobQueue> { set x | x in items }

  lemma SwapKeepsItems(items: seq<JobQueue>, i: nat, j: nat)
    requires i < |items| && j < |items|
    ensures multiset(JobsOf(Swapped(items, i, j))) == multiset(JobsOf(items))
    ensures SetOf(Swapped(items, i, j)) == SetOf(items)
  {
    var s := Swapped(items, i, j);
    assert JobsOf(s) == Swapped(JobsOf(items), i, j);
    assert multiset(s) == multiset(items);
    assert forall x :: x in s <==> x in multiset(s);
    assert forall x :: x in items <==> x in multiset(items);
  }

  /** Each item carries its job's priority. */
  predicate Tagged(items: seq<JobQueue>) {
    forall i | 0 <= i < |items| :: items[i].priority == items[i].job.priority
  }

  lemma RootJobIsBest(items: seq<JobQueue>)
    requires items != [] && Ordered(items) && Tagged(items)
    ensures forall job | job in JobsOf(items) :: job.priority <= items[0].job.priority
  {
    forall job | job in JobsOf(items) ensures job.priority <= items[0].job.priority {
      var k :| 0 <= k < |items| && items[k].job == job;
      RootIsBest(items, |items|, k);
    }
  }

  lemma DropLast(items: seq<JobQueue>)
    requires items != []
    ensures multiset(JobsOf(items)) == multiset(JobsOf(items[..|items| - 1])) + multiset{items[|items| - 1].job}
    ensures SetOf(items[..|items| - 1]) <= SetOf(items)
  {
    var n := |items| - 1;
    assert JobsOf(items) == JobsOf(items[..n]) + [items[n].job];
  }

  /** The child of i that goes up if one does. */
  function BetterChild(items: seq<JobQueue>, n: nat, i: nat): (j: nat)
    requires 2 * i + 1 < n <= |items|
    ensures i < j < n && Parent(j) == i
    ensures forall k {:trigger Parent(k)} | 0 < k < n && Parent(k) == i :: items[k].priority <= items[j].priority
  {
    var j1, j2 := 2 * i + 1, 2 * i + 2;
    if j2 < n && Less(items, j2, j1) then j2 else j1
  }

  lemma SiftUpStep(items: seq<JobQueue>, j: nat)
    requires 0 < j < |items| && OrderedExcept(items, |items|, j) && Bridged(items, |items|, j)
    requires Less(items, j, Parent(j))
    ensures var s := Swapped(items, Parent(j), j);
      OrderedExcept(s, |s|, Parent(j)) && Bridged(s, |s|, Parent(j))
  {
    var i := Parent(j);
    assert Parent(i) <= i;
  }

  lemma SiftDownStep(items: seq<JobQueue>, n: nat, i: nat, j: nat)
    requires i < j < n <= |items| && Parent(j) == i
    requires OrderedBelowExcept(items, n, i) && Bridged(items, n, i)
    requires forall k {:trigger Parent(k)} | 0 < k < n && Parent(k) == i :: items[k].priority <= items[j].priority
    requires Less(items, j, i)
    ensures var s := Swapped(items, i, j);
      OrderedBelowExcept(s, n, j) && Bridged(s, n, j)
  {
    assert Parent(i) <= i;
  }

  class PriorityQueue {
    var items: seq<JobQueue>

    ghost predicate Indexed()
      reads this, items
    {
      && (forall i | 0 <= i < |items| :: items[i].index == i)
      && Tagged(items)
    }

    ghost predicate Valid()
      reads this, items
    {
      Indexed() && Ordered(items)
    }

    ghost function Items(): set<JobQueue>
      reads this
    {
      SetOf(items)
    }

    function Jobs(): seq<WarmupJob>
      reads this
    {
      JobsOf(items)
    }

    constructor ()
      ensures Valid() && items == []
    {
      items := [];
    }

    // ---------- the heap's own methods ----------

    method Swap(i: nat, j: nat)
      requires i < |items| && j < |items| && Indexed()
      modifies this, items[i], items[j]
      ensures items == Swapped(old(items), i, j) && Indexed()
      ensures multiset(Jobs()) == old(multiset(Jobs())) && Items() == old(Items())
    {
      SwapKeepsItems(items, i, j);
      items := items[i := items[j]][j := items[i]];
      items[i].index := i;
      items[j].index := j;
    }

    method Up(start: nat)
      requires start < |items| && Indexed()
      requires OrderedExcept(items, |items|, start) && Bridged(items, |items|, start)
      modifies this, Items()
      ensures Valid() && |items| == old(|items|) && Items() == old(Items())
      ensures multiset(Jobs()) == old(multiset(Jobs()))
    {
      var j: nat := start;
      while true
        invariant j < |items| == old(|items|) && Indexed()
        invariant Items() == old(Items())
        invariant OrderedExcept(items, |items|, j) && Bridged(items, |items|, j)
        invariant multiset(Jobs()) == old(multiset(Jobs()))
        decreases j
      {
        var i := if j == 0 then 0 else Parent(j);
        if i == j || !Less(items, j, i) {
          break;
        }
        assert items[i] in items && items[j] in items;
        SiftUpStep(items, j);
        Swap(i, j);
        j := i;
      }
    }

    method Down(start: nat, n: nat)
      requires start < n <= |items| && Indexed()
      requires OrderedBelowExcept(items, n, start) && Bridged(items, n, start)
      modifies this, Items()
      ensures Indexed() && |items| == old(|items|) && OrderedExcept(items, n, 0)
      ensures items[n..] == old(items[n..]) && Items() == old(Items())
      ensures multiset(Jobs()) == old(multiset(Jobs()))
    {
      var i: nat := start;
      while true
        invariant i < n <= |items| == old(|items|) && Indexed()
        invariant items[n..] == old(items[n..]) && Items() == old(Items())
        invariant OrderedBelowExcept(items, n, i) && Bridged(items, n, i)
        invariant multiset(Jobs()) == old(multiset(Jobs()))
        decreases n - i
      {
        if 2 * i + 1 >= n {
          break;
        }
        var j := BetterChild(items, n, i);
        if !Less(items, j, i) {
          break;
        }
        assert items[i] in items && items[j] in items;
        SiftDownStep(items, n, i, j);
        Swap(i, j);
        i := j;
      }
    }

    /** The heap's own Pop: the last item leaves the slice and forgets its index. */
    method PopLast() returns (item: JobQueue)
      requires items != [] && Indexed()
      modifies this, items[|items| - 1]
      ensures items == old(items)[..|old(items)| - 1] && item == old(items)[|old(items)| - 1]
      ensures multiset(Jobs()) == old(multiset(Jobs())) - multiset{item.job} && item.index == -1
      ensures Indexed() && Items() <= old(Items())
    {
      DropLast(items);
      var n := |items| - 1;
      item := items[n];
      item.index := -1;
      items := items[..n];
    }

    // ---------- the queue's methods ----------

    method Push(job: WarmupJob)
      requires Valid()
      modifies this, Items()
      ensures Valid() && multiset(Jobs()) == old(multiset(Jobs())) + multiset{job}
      ensures fresh(Items() - old(Items()))
    {
      var item := new JobQueue(job);
      item.index := |items|;
      assert JobsOf(items + [item]) == JobsOf(items) + [job];
      items := items + [item];
      Up(|items| - 1);
    }

    /** A job of maximal priority leaves the queue; it is the one that Peek shows. */
    method Pop() returns (r: Option<WarmupJob>)
      requires Valid()
      modifies this, Items()
      ensures Valid() && Items() <= old(Items())
      ensures old(items) == [] ==> r == None && items == []
      ensures old(items) != [] ==>
        && r == Some(old(items)[0].job)
        && (forall job | job in old(Jobs()) :: job.priority <= r.value.priority)
        && multiset(Jobs()) == old(multiset(Jobs())) - multiset{r.value}
        && |items| == |old(items)| - 1
    {
      if items == [] {
        return None;
      }
      RootJobIsBest(items);
      var n := |items| - 1;
      assert items[0] in items && items[n] in items;
      Swap(0, n);
      if n > 0 {
        Down(0, n);
      }
      assert items[n] in items;
      var item := PopLast();
      r := Some(item.job);
    }

    method Peek() returns (r: Option<WarmupJob>)
      requires Valid()
      ensures items == [] ==> r == None
      ensures items != [] ==> r == Some(items[0].job) && r.value in Jobs()
                              && forall job | job in Jobs() :: job.priority <= r.value.priority
    {
      if items == [] {
        return None;
      }
      RootJobIsBest(items);
      assert Jobs()[0] == items[0].job;
      r := Some(items[0].job);
    }

    method Clear()
      requires Valid()
      modifies this
      ensures Valid() && items == []
    {
      items := [];
    }

    method GetJobs() returns (jobs: seq<WarmupJob>)
      ensures jobs == Jobs()
    {
      jobs := [];
      for i := 0 to |items|
        invariant jobs == JobsOf(items[..i])
      {
        jobs := jobs + [items[i].job];
      }
      assert items[..|items|] == items;
    }
  }
}
