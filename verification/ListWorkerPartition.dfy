/** One pass over a list is a stable partition of it. */
module ListWorkerPartition {
  import opened Wrappers
  import opened ListWorker
  import opened ListWorkerPass

  ghost function Waiting(es: seq<Entry>, turns: seq<Turn>): set<nat>
    requires |es| == |turns|
  {
    set i: nat | i < |es| && !es[i].Garbage? && !IsDue(es[i], turns[i].now)
  }

  ghost function Lost(handlers: set<string>, es: seq<Entry>, turns: seq<Turn>): set<nat>
    requires |es| == |turns|
  {
    set i: nat | i < |es| && (es[i].Garbage? || (IsDue(es[i], turns[i].now) && !Runs(handlers, es[i], turns[i].now)))
  }

  ghost function Executed(handlers: set<string>, es: seq<Entry>, turns: seq<Turn>): set<nat>
    requires |es| == |turns|
  {
    set i: nat | i < |es| && Runs(handlers, es[i], turns[i].now)
  }

  function JobOf(e: Entry): Job { if e.Garbage? then ZERO_JOB else Decoded(e).value }

  predicate TriesLeft(e: Entry) { JobOf(e).attempts + 1 < JobOf(e).maxTries }

  ghost function Retried(handlers: set<string>, es: seq<Entry>, turns: seq<Turn>): set<nat>
    requires |es| == |turns|
  {
    set i | i in Executed(handlers, es, turns) && turns[i].fails && TriesLeft(es[i])
  }

  ghost function Buried(handlers: set<string>, es: seq<Entry>, turns: seq<Turn>): set<nat>
    requires |es| == |turns|
  {
    set i | i in Executed(handlers, es, turns) && turns[i].fails && !TriesLeft(es[i])
  }

  /** Each job as it is put on the retry list, and as it is put on the dead list. */
  function Aged(es: seq<Entry>, turns: seq<Turn>): seq<Entry>
    requires |es| == |turns|
  {
    seq(|es|, j requires 0 <= j < |es| =>
      var a := JobOf(es[j]).attempts + 1;
      Queued(JobOf(es[j]).(attempts := a, processAt := turns[j].later + Delay(a))))
  }

  function Obituaries(es: seq<Entry>, turns: seq<Turn>): seq<Entry>
    requires |es| == |turns|
  {
    seq(|es|, j requires 0 <= j < |es| =>
      Dead(JobOf(es[j]).(attempts := JobOf(es[j]).attempts + 1), turns[j].later))
  }

  function Jobs(es: seq<Entry>): seq<Job> { seq(|es|, j requires 0 <= j < |es| => JobOf(es[j])) }

  lemma Fates(handlers: set<string>, q: string, es: seq<Entry>, turns: seq<Turn>, j: nat)
    requires j < |es| == |turns| && q !in {RETRY, DEAD}
    ensures For(Effect(handlers, q, es[j], turns[j]), q) == if j in Waiting(es, turns) then [es[j]] else []
    ensures For(Effect(handlers, q, es[j], turns[j]), RETRY) ==
      if j in Retried(handlers, es, turns) then [Aged(es, turns)[j]] else []
    ensures For(Effect(handlers, q, es[j], turns[j]), DEAD) ==
      if j in Buried(handlers, es, turns) then [Obituaries(es, turns)[j]] else []
  {
    assert RETRY != DEAD by { assert RETRY[0] != DEAD[0]; }
  }

  lemma PassList(handlers: set<string>, queues: seq<string>, i: nat, s: State, turns: seq<Turn>, t: string, xs: seq<Entry>, chosen: set<nat>)
    requires Serves(s.lists, queues, i) && |turns| == |At(s.lists, queues[i])| == |xs|
    requires forall j: nat :: j < |xs| ==>
      For(Effect(handlers, queues[i], At(s.lists, queues[i])[j], turns[j]), t) == if j in chosen then [xs[j]] else []
    ensures At(Run(handlers, queues, s, turns, |turns|).lists, t)
         == (if t == queues[i] then [] else At(s.lists, t)) + Select(xs, chosen, |xs|)
  {
    PassState(handlers, queues, i, s, turns, |turns|);
    assert Moved(handlers, queues, i, s, turns, |turns|, t);
    SentIsSelect(handlers, queues[i], At(s.lists, queues[i]), turns, t, xs, chosen, |xs|);
  }

  lemma WaitingStay(handlers: set<string>, queues: seq<string>, i: nat, s: State, turns: seq<Turn>)
    requires Serves(s.lists, queues, i) && |turns| == |At(s.lists, queues[i])| && queues[i] !in {RETRY, DEAD}
    ensures At(Run(handlers, queues, s, turns, |turns|).lists, queues[i])
         == Select(At(s.lists, queues[i]), Waiting(At(s.lists, queues[i]), turns), |turns|)
  {
    var es := At(s.lists, queues[i]);
    forall j: nat | j < |es| { Fates(handlers, queues[i], es, turns, j); }
    PassList(handlers, queues, i, s, turns, queues[i], es, Waiting(es, turns));
  }

  lemma FailuresLeave(handlers: set<string>, queues: seq<string>, i: nat, s: State, turns: seq<Turn>)
    requires Serves(s.lists, queues, i) && |turns| == |At(s.lists, queues[i])| && queues[i] !in {RETRY, DEAD}
    ensures
      var es, s' := At(s.lists, queues[i]), Run(handlers, queues, s, turns, |turns|);
      && At(s'.lists, RETRY) == At(s.lists, RETRY) + Select(Aged(es, turns), Retried(handlers, es, turns), |turns|)
      && At(s'.lists, DEAD) == At(s.lists, DEAD) + Select(Obituaries(es, turns), Buried(handlers, es, turns), |turns|)
  {
    var es := At(s.lists, queues[i]);
    forall j: nat | j < |es| { Fates(handlers, queues[i], es, turns, j); }
    PassList(handlers, queues, i, s, turns, RETRY, Aged(es, turns), Retried(handlers, es, turns));
    PassList(handlers, queues, i, s, turns, DEAD, Obituaries(es, turns), Buried(handlers, es, turns));
  }

  /**
   As many turns as the list is long, at any clock readings: the waiting jobs stay in their order,
   the due jobs ran in their order, and failures alone went to the retry and the dead list.
   */
  lemma StablePartition(handlers: set<string>, queues: seq<string>, i: nat, s: State, turns: seq<Turn>)
    requires Serves(s.lists, queues, i) && queues[i] !in {RETRY, DEAD}
    requires |turns| == |At(s.lists, queues[i])|
    ensures
      var es, n := At(s.lists, queues[i]), |turns|;
      var s' := Run(handlers, queues, s, turns, n);
      && At(s'.lists, queues[i]) == Select(es, Waiting(es, turns), n)
      && s'.calls == s.calls + Select(Jobs(es), Executed(handlers, es, turns), n)
      && At(s'.lists, RETRY) == At(s.lists, RETRY) + Select(Aged(es, turns), Retried(handlers, es, turns), n)
      && At(s'.lists, DEAD) == At(s.lists, DEAD) + Select(Obituaries(es, turns), Buried(handlers, es, turns), n)
    ensures forall t :: t !in {queues[i], RETRY, DEAD} ==>
      At(Run(handlers, queues, s, turns, |turns|).lists, t) == At(s.lists, t)
  {
    var es, n := At(s.lists, queues[i]), |turns|;
    WaitingStay(handlers, queues, i, s, turns);
    FailuresLeave(handlers, queues, i, s, turns);
    PassCalls(handlers, queues, i, s, turns, n);
    CallsAreSelect(handlers, es, turns, Jobs(es), n);
    PassOthers(handlers, queues, i, s, turns);
  }

  lemma PassOthers(handlers: set<string>, queues: seq<string>, i: nat, s: State, turns: seq<Turn>)
    requires Serves(s.lists, queues, i) && |turns| == |At(s.lists, queues[i])|
    ensures forall t :: t !in {queues[i], RETRY, DEAD} ==>
      At(Run(handlers, queues, s, turns, |turns|).lists, t) == At(s.lists, t)
  {
    PassState(handlers, queues, i, s, turns, |turns|);
    forall t | t !in {queues[i], RETRY, DEAD}
      ensures At(Run(handlers, queues, s, turns, |turns|).lists, t) == At(s.lists, t)
    {
      assert Moved(handlers, queues, i, s, turns, |turns|, t);
      NothingSent(handlers, queues[i], At(s.lists, queues[i]), turns, t, |turns|);
    }
  }

  lemma {:induction false} CallsAreSelect(handlers: set<string>, es: seq<Entry>, turns: seq<Turn>, xs: seq<Job>, k: nat)
    requires k <= |es| == |turns| == |xs|
    requires forall j: nat :: j < |es| ==> xs[j] == JobOf(es[j])
    ensures CallsOf(handlers, es, turns, k) == Select(xs, Executed(handlers, es, turns), k)
  {
    if k > 0 { CallsAreSelect(handlers, es, turns, xs, k - 1); }
  }

  /** Every entry of the pass has exactly one fate; it vanishes exactly if it is unreadable or due without a handler. */
  lemma OneFate(handlers: set<string>, es: seq<Entry>, turns: seq<Turn>, q: string, i: nat)
    requires i < |es| == |turns|
    ensures i in Waiting(es, turns) <==> i !in Lost(handlers, es, turns) && i !in Executed(handlers, es, turns)
    ensures !(i in Lost(handlers, es, turns) && i in Executed(handlers, es, turns))
    ensures i in Lost(handlers, es, turns) <==>
      Effect(handlers, q, es[i], turns[i]) == None && !(Runs(handlers, es[i], turns[i].now) && !turns[i].fails)
  {
  }
}
