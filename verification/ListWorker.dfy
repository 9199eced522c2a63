/**
 The Redis list worker: jobs wait in lists, a worker takes the head of the first list that has
 one, puts it back at the end if it is not due, and sends a failed job to the retry list or to
 the dead list.
 */
module ListWorker {
  import opened Wrappers

  const RETRY: string := "retry_queue"
  const DEAD: string := "dead_queue"

  /** Times and durations are nanoseconds. */
  const MINUTE: int := 60_000_000_000

  datatype Job = Job(id: string, kind: string, payload: string, attempts: nat, maxTries: int, processAt: int)

  /** What an element of a list holds. */
  datatype Entry = Queued(job: Job) | Dead(original: Job, failedAt: int) | Garbage

  /** A dead entry has none of a job's fields, so it decodes to the zero job. */
  const ZERO_JOB := Job("", "", "", 0, 0, -62_135_596_800_000_000_000)

  function Decoded(e: Entry): Option<Job> {
    match e
    case Queued(j) => Some(j)
    case Dead(_, _) => Some(ZERO_JOB)
    case Garbage => None
  }

  // ---------- backoff ----------

  function Pow2(k: nat): (p: nat)
    ensures p >= 1
  {
    if k == 0 then 1 else 2 * Pow2(k - 1)
  }

  /** Arithmetic on a Duration keeps 64 bits. */
  function Wrapped(x: int): int {
    (x + 0x8000_0000_0000_0000) % 0x1_0000_0000_0000_0000 - 0x8000_0000_0000_0000
  }

  function Delay(attempts: nat): int { Wrapped(Pow2(attempts) * MINUTE) }

  // ---------- one turn ----------

  type Lists = map<string, seq<Entry>>

  function At(lists: Lists, q: string): seq<Entry> { if q in lists then lists[q] else [] }

  /** The lists, and the jobs given to a handler so far. */
  datatype State = State(lists: Lists, calls: seq<Job>)

  /** The clock when a job is looked at, what the handler says, and the clock after it. */
  datatype Turn = Turn(now: nat, fails: bool, later: nat)

  datatype Sent = Sent(queue: string, entry: Entry)

  predicate IsDue(e: Entry, now: nat) { Decoded(e).Some? && now >= Decoded(e).value.processAt }

  predicate Runs(handlers: set<string>, e: Entry, now: nat) {
    IsDue(e, now) && Decoded(e).value.kind in handlers
  }

  function Failed(j: Job): Job { j.(attempts := j.attempts + 1) }

  /** The entry a turn pushes, if any. */
  function Effect(handlers: set<string>, q: string, e: Entry, turn: Turn): Option<Sent> {
    if e.Garbage? then None
    else
      var j := Decoded(e).value;
      if turn.now < j.processAt then Some(Sent(q, Queued(j)))
      else if j.kind !in handlers || !turn.fails then None
      else if Failed(j).attempts < j.maxTries then
        Some(Sent(RETRY, Queued(Failed(j).(processAt := turn.later + Delay(j.attempts + 1)))))
      else Some(Sent(DEAD, Dead(Failed(j), turn.later)))
  }

  function Pushed(lists: Lists, p: Option<Sent>): Lists {
    match p
    case None => lists
    case Some(m) => lists[m.queue := At(lists, m.queue) + [m.entry]]
  }

  /** The first list that holds something, |queues| if none does. */
  function First(lists: Lists, queues: seq<string>, from: nat): (i: nat)
    requires from <= |queues|
    ensures from <= i <= |queues|
    ensures i < |queues| ==> At(lists, queues[i]) != []
    ensures forall j :: from <= j < i ==> At(lists, queues[j]) == []
    decreases |queues| - from
  {
    if from == |queues| || At(lists, queues[from]) != [] then from else First(lists, queues, from + 1)
  }

  function Next(handlers: set<string>, queues: seq<string>, s: State, turn: Turn): State {
    var i := First(s.lists, queues, 0);
    if i == |queues| then s
    else
      var q, e := queues[i], At(s.lists, queues[i])[0];
      State(Pushed(s.lists[q := At(s.lists, q)[1..]], Effect(handlers, q, e, turn)),
            if Runs(handlers, e, turn.now) then s.calls + [Decoded(e).value] else s.calls)
  }

  /** An entry that comes back is the job as it was, or with one attempt more and, in the retry list, a
      new due time: its work, its tries and its id stay. */
  lemma WorkIsKept(handlers: set<string>, q: string, job: Job, turn: Turn)
    ensures
      var sent := Effect(handlers, q, Queued(job), turn);
      sent.Some? && sent.value.entry.Queued? ==>
        var j := sent.value.entry.job;
        && j.id == job.id && j.kind == job.kind && j.payload == job.payload && j.maxTries == job.maxTries
        && (turn.now < job.processAt <==> j.attempts == job.attempts)
        && (turn.now < job.processAt ==> sent.value.queue == q && j.processAt == job.processAt)
        && (turn.now >= job.processAt ==> sent.value.queue == "retry_queue" && j.attempts == job.attempts + 1 < job.maxTries)
    ensures
      var sent := Effect(handlers, q, Queued(job), turn);
      sent.Some? && !sent.value.entry.Queued? ==>
        && turn.now >= job.processAt && sent.value.queue == "dead_queue" && sent.value.entry.Dead?
        && sent.value.entry.failedAt == turn.later
        && var j := sent.value.entry.original;
        && j.id == job.id && j.kind == job.kind && j.payload == job.payload && j.maxTries == job.maxTries
        && j.processAt == job.processAt && j.attempts == job.attempts + 1 >= job.maxTries
  {
  }

  function Run(handlers: set<string>, queues: seq<string>, s: State, turns: seq<Turn>, k: nat): State
    requires k <= |turns|
  {
    if k == 0 then s else Next(handlers, queues, Run(handlers, queues, s, turns, k - 1), turns[k - 1])
  }

  datatype Error = BadJob | NoHandler(kind: string)

  class Worker {
    var handlers: set<string>
    var queues: seq<string>
    var lists: Lists
    var calls: seq<Job>

    constructor (queues: seq<string>, lists: Lists)
      ensures this.queues == queues && handlers == {} && Now() == State(lists, [])
    {
      this.queues, this.lists := queues, lists;
      handlers, calls := {}, [];
    }

    function Now(): State
      reads this
    {
      State(lists, calls)
    }

    method RegisterHandler(kind: string)
      modifies this`handlers
      ensures handlers == old(handlers) + {kind}
    {
      handlers := handlers + {kind};
    }

    method EnqueueJob(queue: string, e: Entry)
      modifies this`lists
      ensures lists == Pushed(old(lists), Some(Sent(queue, e)))
    {
      lists := lists[queue := At(lists, queue) + [e]];
    }

    /** BLPOP: the head of the first list that is not empty. */
    method BLPop() returns (popped: Option<(string, Entry)>)
      modifies this`lists
      ensures
        var i := First(old(lists), queues, 0);
        if i == |queues| then popped == None && lists == old(lists)
        else
          popped == Some((queues[i], At(old(lists), queues[i])[0])) &&
          lists == old(lists)[queues[i] := At(old(lists), queues[i])[1..]]
    {
      var i := 0;
      while i < |queues|
        invariant 0 <= i <= |queues| && lists == old(lists)
        invariant First(lists, queues, 0) == First(lists, queues, i)
      {
        var l := At(lists, queues[i]);
        if l != [] {
          lists := lists[queues[i] := l[1..]];
          return Some((queues[i], l[0]));
        }
        i := i + 1;
      }
      return None;
    }

    method RetryJob(j: Job, later: nat)
      modifies this`lists
      ensures lists == Pushed(old(lists), Some(Sent(RETRY, Queued(j.(processAt := later + Delay(j.attempts))))))
    {
      var delay := Delay(j.attempts);
      EnqueueJob(RETRY, Queued(j.(processAt := later + delay)));
    }

    method MoveToDeadQueue(j: Job, later: nat)
      modifies this`lists
      ensures lists == Pushed(old(lists), Some(Sent(DEAD, Dead(j, later))))
    {
      EnqueueJob(DEAD, Dead(j, later));
    }

    method ExecuteJob(job: Job, fails: bool, later: nat) returns (err: Option<Error>)
      modifies this`lists, this`calls
      ensures err == if job.kind in handlers then None else Some(NoHandler(job.kind))
      ensures calls == if job.kind in handlers then old(calls) + [job] else old(calls)
      ensures forall q, now: nat | now >= job.processAt ::
        lists == Pushed(old(lists), Effect(handlers, q, Queued(job), Turn(now, fails, later)))
    {
      if job.kind !in handlers {
        return Some(NoHandler(job.kind));
      }
      calls := calls + [job];
      if fails {
        var j := job.(attempts := job.attempts + 1);
        if j.attempts < j.maxTries {
          RetryJob(j, later);
        } else {
          MoveToDeadQueue(j, later);
        }
      }
      return None;
    }

    method ProcessNextJob(turn: Turn) returns (err: Option<Error>)
      modifies this`lists, this`calls
      ensures Now() == Next(handlers, queues, old(Now()), turn)
    {
      var popped := BLPop();
      if popped == None {
        return None;
      }
      var queue, e := popped.value.0, popped.value.1;
      if e.Garbage? {
        return Some(BadJob);
      }
      var job := Decoded(e).value;
      if turn.now < job.processAt {
        EnqueueJob(queue, Queued(job));
        return None;
      }
      err := ExecuteJob(job, turn.fails, turn.later);
      assert Effect(handlers, queue, e, turn) == Effect(handlers, queue, Queued(job), Turn(turn.now, turn.fails, turn.later));
    }

    /** The loop of one worker until it is stopped. */
    method WorkerLoop(turns: seq<Turn>)
      modifies this`lists, this`calls
      ensures Now() == Run(handlers, queues, old(Now()), turns, |turns|)
    {
      var k := 0;
      while k < |turns|
        invariant 0 <= k <= |turns| && handlers == old(handlers) && queues == old(queues)
        invariant Now() == Run(handlers, queues, old(Now()), turns, k)
      {
        var _ := ProcessNextJob(turns[k]);
        k := k + 1;
      }
    }
  }
}

/** What one pass over a list does. */
module ListWorkerPass {
  import opened Wrappers
  import opened ListWorker

  /** The elements at the chosen places below k, in order. */
  ghost function Select<T>(xs: seq<T>, chosen: set<nat>, k: nat): seq<T>
    requires k <= |xs|
  {
    if k == 0 then []
    else Select(xs, chosen, k - 1) + if k - 1 in chosen then [xs[k - 1]] else []
  }

  ghost function For(p: Option<Sent>, t: string): seq<Entry> {
    if p.Some? && p.value.queue == t then [p.value.entry] else []
  }

  /** The entries pushed to list t by the first k turns over the entries es of list q. */
  ghost function SentTo(handlers: set<string>, q: string, es: seq<Entry>, turns: seq<Turn>, t: string, k: nat): seq<Entry>
    requires k <= |es| && k <= |turns|
  {
    if k == 0 then []
    else SentTo(handlers, q, es, turns, t, k - 1) + For(Effect(handlers, q, es[k - 1], turns[k - 1]), t)
  }

  ghost function CallsOf(handlers: set<string>, es: seq<Entry>, turns: seq<Turn>, k: nat): seq<Job>
    requires k <= |es| && k <= |turns|
  {
    if k == 0 then []
    else
      CallsOf(handlers, es, turns, k - 1) +
      if Runs(handlers, es[k - 1], turns[k - 1].now) then [Decoded(es[k - 1]).value] else []
  }

  /** List i is the first to hold something, and no turn refills an earlier one. */
  ghost predicate Serves(lists: Lists, queues: seq<string>, i: nat) {
    i < |queues| &&
    forall j :: 0 <= j < i ==> At(lists, queues[j]) == [] && queues[j] !in {RETRY, DEAD, queues[i]}
  }

  lemma TurnState(handlers: set<string>, queues: seq<string>, i: nat, s: State, turn: Turn, t: string)
    requires i < |queues| && First(s.lists, queues, 0) == i
    ensures
      var q, s' := queues[i], Next(handlers, queues, s, turn);
      At(s'.lists, t) ==
        (if t == q then At(s.lists, t)[1..] else At(s.lists, t))
        + For(Effect(handlers, q, At(s.lists, q)[0], turn), t)
  {
    var q := queues[i];
    PushedAt(s.lists[q := At(s.lists, q)[1..]], Effect(handlers, q, At(s.lists, q)[0], turn), t);
  }

  lemma TurnCalls(handlers: set<string>, queues: seq<string>, i: nat, s: State, turn: Turn)
    requires i < |queues| && First(s.lists, queues, 0) == i
    ensures
      var e := At(s.lists, queues[i])[0];
      Next(handlers, queues, s, turn).calls == s.calls + if Runs(handlers, e, turn.now) then [Decoded(e).value] else []
  {
  }

  lemma PushedAt(lists: Lists, p: Option<Sent>, t: string)
    ensures At(Pushed(lists, p), t) == At(lists, t) + For(p, t)
  {
  }

  /** List t after k turns: list i has lost its first k entries, and what was sent is at the end. */
  ghost predicate Moved(handlers: set<string>, queues: seq<string>, i: nat, s: State, turns: seq<Turn>, k: nat, t: string)
    requires i < |queues| && k <= |turns| && k <= |At(s.lists, queues[i])|
  {
    At(Run(handlers, queues, s, turns, k).lists, t) ==
      (if t == queues[i] then At(s.lists, t)[k..] else At(s.lists, t))
      + SentTo(handlers, queues[i], At(s.lists, queues[i]), turns, t, k)
  }

  /** The next turn takes entry k of list i. */
  ghost predicate Polls(handlers: set<string>, queues: seq<string>, i: nat, s: State, turns: seq<Turn>, k: nat)
    requires i < |queues| && k <= |turns| && k < |At(s.lists, queues[i])|
  {
    var r := Run(handlers, queues, s, turns, k);
    First(r.lists, queues, 0) == i && At(r.lists, queues[i])[0] == At(s.lists, queues[i])[k]
  }

  lemma NothingMovedYet(handlers: set<string>, queues: seq<string>, i: nat, s: State, turns: seq<Turn>, t: string)
    requires i < |queues|
    ensures Moved(handlers, queues, i, s, turns, 0, t)
  {
  }

  lemma MovedStep(handlers: set<string>, queues: seq<string>, i: nat, s: State, turns: seq<Turn>, k: nat, t: string)
    requires i < |queues| && k < |turns| && k < |At(s.lists, queues[i])|
    requires Polls(handlers, queues, i, s, turns, k)
    requires Moved(handlers, queues, i, s, turns, k, t)
    ensures Moved(handlers, queues, i, s, turns, k + 1, t)
  {
    var q, r := queues[i], Run(handlers, queues, s, turns, k);
    var sent, last := SentTo(handlers, q, At(s.lists, q), turns, t, k), For(Effect(handlers, q, At(s.lists, q)[k], turns[k]), t);
    TurnState(handlers, queues, i, r, turns[k], t);
    if t == q { OneLess(At(s.lists, q), k, sent, last); } else { OneMore(At(s.lists, t), sent, last); }
  }

  lemma OneLess<T>(xs: seq<T>, k: nat, ys: seq<T>, zs: seq<T>)
    requires k < |xs|
    ensures (xs[k..] + ys)[1..] + zs == xs[k + 1..] + (ys + zs)
  {
  }

  lemma OneMore<T>(xs: seq<T>, ys: seq<T>, zs: seq<T>)
    ensures (xs + ys) + zs == xs + (ys + zs)
  {
  }

  lemma {:induction false} PassState(handlers: set<string>, queues: seq<string>, i: nat, s: State, turns: seq<Turn>, k: nat)
    requires Serves(s.lists, queues, i)
    requires k <= |turns| && k <= |At(s.lists, queues[i])|
    ensures forall t :: Moved(handlers, queues, i, s, turns, k, t)
    ensures k < |At(s.lists, queues[i])| ==> Polls(handlers, queues, i, s, turns, k)
  {
    if k == 0 {
      forall t { NothingMovedYet(handlers, queues, i, s, turns, t); }
    } else {
      PassState(handlers, queues, i, s, turns, k - 1);
      forall t ensures Moved(handlers, queues, i, s, turns, k, t) {
        MovedStep(handlers, queues, i, s, turns, k - 1, t);
      }
    }
    if k < |At(s.lists, queues[i])| { StillServes(handlers, queues, i, s, turns, k); }
  }

  ghost predicate Called(handlers: set<string>, queues: seq<string>, i: nat, s: State, turns: seq<Turn>, k: nat)
    requires i < |queues| && k <= |turns| && k <= |At(s.lists, queues[i])|
  {
    Run(handlers, queues, s, turns, k).calls == s.calls + CallsOf(handlers, At(s.lists, queues[i]), turns, k)
  }

  lemma CalledStep(handlers: set<string>, queues: seq<string>, i: nat, s: State, turns: seq<Turn>, k: nat)
    requires i < |queues| && k < |turns| && k < |At(s.lists, queues[i])|
    requires Polls(handlers, queues, i, s, turns, k) && Called(handlers, queues, i, s, turns, k)
    ensures Called(handlers, queues, i, s, turns, k + 1)
  {
    TurnCalls(handlers, queues, i, Run(handlers, queues, s, turns, k), turns[k]);
  }

  lemma {:induction false} CalledFromFirst(handlers: set<string>, queues: seq<string>, i: nat, s: State, turns: seq<Turn>, k: nat)
    requires i < |queues| && k <= |turns| && k <= |At(s.lists, queues[i])| && Called(handlers, queues, i, s, turns, 0)
    requires forall j: nat :: j < k && Called(handlers, queues, i, s, turns, j) ==> Called(handlers, queues, i, s, turns, j + 1)
    ensures Called(handlers, queues, i, s, turns, k)
  {
    if k > 0 { CalledFromFirst(handlers, queues, i, s, turns, k - 1); }
  }

  lemma PassCalls(handlers: set<string>, queues: seq<string>, i: nat, s: State, turns: seq<Turn>, k: nat)
    requires Serves(s.lists, queues, i)
    requires k <= |turns| && k <= |At(s.lists, queues[i])|
    ensures Called(handlers, queues, i, s, turns, k)
  {
    forall j: nat | j < k && Called(handlers, queues, i, s, turns, j) ensures Called(handlers, queues, i, s, turns, j + 1) {
      PassState(handlers, queues, i, s, turns, j);
      CalledStep(handlers, queues, i, s, turns, j);
    }
    CalledFromFirst(handlers, queues, i, s, turns, k);
  }

  lemma StillServes(handlers: set<string>, queues: seq<string>, i: nat, s: State, turns: seq<Turn>, k: nat)
    requires Serves(s.lists, queues, i)
    requires k <= |turns| && k < |At(s.lists, queues[i])|
    requires forall t :: Moved(handlers, queues, i, s, turns, k, t)
    ensures Polls(handlers, queues, i, s, turns, k)
  {
    EarlierStayEmpty(handlers, queues, i, s, turns, k);
    assert Moved(handlers, queues, i, s, turns, k, queues[i]);
  }

  lemma EarlierStayEmpty(handlers: set<string>, queues: seq<string>, i: nat, s: State, turns: seq<Turn>, k: nat)
    requires Serves(s.lists, queues, i)
    requires k <= |turns| && k <= |At(s.lists, queues[i])|
    requires forall t :: Moved(handlers, queues, i, s, turns, k, t)
    ensures forall j :: 0 <= j < i ==> At(Run(handlers, queues, s, turns, k).lists, queues[j]) == []
  {
    forall j | 0 <= j < i ensures At(Run(handlers, queues, s, turns, k).lists, queues[j]) == [] {
      NothingSent(handlers, queues[i], At(s.lists, queues[i]), turns, queues[j], k);
      assert Moved(handlers, queues, i, s, turns, k, queues[j]);
    }
  }

  lemma NothingSent(handlers: set<string>, q: string, es: seq<Entry>, turns: seq<Turn>, t: string, k: nat)
    requires k <= |es| && k <= |turns| && t !in {RETRY, DEAD, q}
    ensures SentTo(handlers, q, es, turns, t, k) == []
  {
    forall j: nat | j < k ensures For(Effect(handlers, q, es[j], turns[j]), t) == [] {
      OnlyThreeTargets(handlers, q, es[j], turns[j], t);
    }
    SentIsSelect(handlers, q, es, turns, t, es, {}, k);
    SelectNone(es, k);
  }

  lemma {:induction false} SelectNone<T>(xs: seq<T>, k: nat)
    requires k <= |xs|
    ensures Select(xs, {}, k) == []
  {
    if k > 0 { SelectNone(xs, k - 1); }
  }

  lemma OnlyThreeTargets(handlers: set<string>, q: string, e: Entry, turn: Turn, t: string)
    requires t !in {RETRY, DEAD, q}
    ensures For(Effect(handlers, q, e, turn), t) == []
  {
  }

  lemma {:induction false} SentIsSelect(handlers: set<string>, q: string, es: seq<Entry>, turns: seq<Turn>, t: string,
                                        xs: seq<Entry>, chosen: set<nat>, k: nat)
    requires k <= |es| && k <= |turns| && k <= |xs|
    requires forall j: nat :: j < k ==>
      For(Effect(handlers, q, es[j], turns[j]), t) == if j in chosen then [xs[j]] else []
    ensures SentTo(handlers, q, es, turns, t, k) == Select(xs, chosen, k)
  {
    if k > 0 { SentIsSelect(handlers, q, es, turns, t, xs, chosen, k - 1); }
  }
}
