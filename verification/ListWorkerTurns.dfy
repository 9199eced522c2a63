/** When lists other than the first are served. */
module ListWorkerTurns {
  import opened ListWorker
  import opened ListWorkerPass
  import opened ListWorkerPartition

  // ---------- when later lists are served ----------

  /** The entry does not come back to list q. */
  predicate Leaves(handlers: set<string>, q: string, e: Entry, turn: Turn) {
    || e.Garbage?
    || (IsDue(e, turn.now)
        && !(Runs(handlers, e, turn.now) && turn.fails && q == if TriesLeft(e) then RETRY else DEAD))
  }

  lemma NothingBackIffLeaves(handlers: set<string>, q: string, e: Entry, turn: Turn)
    ensures For(Effect(handlers, q, e, turn), q) == [] <==> Leaves(handlers, q, e, turn)
  {
  }

  lemma {:induction false} NothingSentIff(handlers: set<string>, q: string, es: seq<Entry>, turns: seq<Turn>, k: nat)
    requires k <= |es| && k <= |turns|
    ensures SentTo(handlers, q, es, turns, q, k) == [] <==> forall j: nat :: j < k ==> Leaves(handlers, q, es[j], turns[j])
  {
    if k > 0 {
      NothingSentIff(handlers, q, es, turns, k - 1);
      NothingBackIffLeaves(handlers, q, es[k - 1], turns[k - 1]);
    }
  }

  /**
   After a pass over list i, be it the retry list or not, the worker turns to a later list exactly if
   every entry was unreadable, or due and not sent back.
   */
  lemma LaterListServedIff(handlers: set<string>, queues: seq<string>, i: nat, s: State, turns: seq<Turn>)
    requires Serves(s.lists, queues, i) && |turns| == |At(s.lists, queues[i])|
    ensures First(Run(handlers, queues, s, turns, |turns|).lists, queues, 0) > i <==>
      forall j: nat :: j < |turns| ==> Leaves(handlers, queues[i], At(s.lists, queues[i])[j], turns[j])
  {
    PassState(handlers, queues, i, s, turns, |turns|);
    OnlySentRemains(handlers, queues, i, s, turns);
    NothingSentIff(handlers, queues[i], At(s.lists, queues[i]), turns, |turns|);
    EarlierStayEmpty(handlers, queues, i, s, turns, |turns|);
    FirstIsLaterIff(Run(handlers, queues, s, turns, |turns|).lists, queues, i);
  }

  lemma OnlySentRemains(handlers: set<string>, queues: seq<string>, i: nat, s: State, turns: seq<Turn>)
    requires i < |queues| && |turns| == |At(s.lists, queues[i])| && Moved(handlers, queues, i, s, turns, |turns|, queues[i])
    ensures At(Run(handlers, queues, s, turns, |turns|).lists, queues[i])
         == SentTo(handlers, queues[i], At(s.lists, queues[i]), turns, queues[i], |turns|)
  {
    var sent := SentTo(handlers, queues[i], At(s.lists, queues[i]), turns, queues[i], |turns|);
    assert At(s.lists, queues[i])[|turns|..] + sent == sent;
  }

  lemma FirstIsLaterIff(lists: Lists, queues: seq<string>, i: nat)
    requires i < |queues| && forall j :: 0 <= j < i ==> At(lists, queues[j]) == []
    ensures First(lists, queues, 0) > i <==> At(lists, queues[i]) == []
  {
  }

  // ---------- later lists starve ----------

  /** A job due after every clock reading of the run. */
  ghost predicate Blocks(lists: Lists, q: string, turns: seq<Turn>, p: nat) {
    p < |At(lists, q)| && At(lists, q)[p].Queued? &&
    forall k :: 0 <= k < |turns| ==> turns[k].now < At(lists, q)[p].job.processAt
  }

  /** While the first list holds a job that is not due, nothing is taken from any other list. */
  lemma {:induction false} FirstListStarvesTheRest(handlers: set<string>, queues: seq<string>, s: State, turns: seq<Turn>, k: nat, p: nat)
    returns (p': nat)
    requires queues != [] && k <= |turns| && Blocks(s.lists, queues[0], turns, p)
    ensures Blocks(Run(handlers, queues, s, turns, k).lists, queues[0], turns, p')
    ensures forall t :: t != queues[0] ==> At(s.lists, t) <= At(Run(handlers, queues, s, turns, k).lists, t)
  {
    if k == 0 { return p; }
    var m := FirstListStarvesTheRest(handlers, queues, s, turns, k - 1, p);
    p' := StaysBlocked(handlers, queues, Run(handlers, queues, s, turns, k - 1), turns, turns[k - 1], m);
  }

  lemma StaysBlocked(handlers: set<string>, queues: seq<string>, s: State, turns: seq<Turn>, turn: Turn, p: nat) returns (p': nat)
    requires queues != [] && turn in turns && Blocks(s.lists, queues[0], turns, p)
    ensures Blocks(Next(handlers, queues, s, turn).lists, queues[0], turns, p')
    ensures forall t :: t != queues[0] ==> At(s.lists, t) <= At(Next(handlers, queues, s, turn).lists, t)
  {
    var q, s' := queues[0], Next(handlers, queues, s, turn);
    assert First(s.lists, queues, 0) == 0;
    forall t | t != q ensures At(s.lists, t) <= At(s'.lists, t) { TurnState(handlers, queues, 0, s, turn, t); }
    TurnState(handlers, queues, 0, s, turn, q);
    p' := if p > 0 then p - 1 else |At(s'.lists, q)| - 1;
  }
}
