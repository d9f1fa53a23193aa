/** Wait comes to an end: what is left to do goes down with every step that matters, and the
    master always has such a step, or a worker at work for it. */
module CheckQueueProgress {
  import opened CheckQueueState
  import opened CheckQueueRuns

  function Woken(threads: map<ThreadId, Status>): set<ThreadId> {
    set t | t in threads && threads[t] == Asleep(true)
  }

  function Out(threads: map<ThreadId, Status>): set<ThreadId> {
    set t | t in threads && threads[t].Outside?
  }

  /** What is left to do: checks queued weigh three, checks in hand two, a notification on its
      way and a thread that has not come in yet one. */
  ghost function Outstanding(s: State): int {
    3 * |s.shared.queue| + 2 * |Batches(s.threads)| + |Woken(s.threads)| + |Out(s.threads)|
  }

  /** A step other than adding checks and waking up for no reason. */
  predicate Effective(s: State, a: Action) {
    match a
    case Add(_, _) => false
    case Enter(_) => true
    case Finish(_) => true
    case Wake(t) => t in s.threads && s.threads[t] == Asleep(true)
  }

  lemma SubsetSize(a: set<ThreadId>, b: set<ThreadId>)
    requires a <= b
    ensures |a| <= |b|
  {
    assert b == a + (b - a);
  }

  /** Taking the mutex: a thread that came in, finished or was notified has left its mark. */
  lemma LockLowers(s: State, a: Action)
    requires Counted(s) && !a.Add? && Enabled(s, a)
    ensures Outstanding(Locked(s, a)) <= Outstanding(s) - One(Effective(s, a))
  {
    hide Batches, AsleepIn, InLoop, Notified, RunsOk, Woken, Out;
    LockedThreads(s, a);
    LockedSets(s, a);
    var st := s.threads[a.t];
    if a.Finish? { assert |BatchOf(st)| == |st.batch| > 0; }
    assert |Batches(Locked(s, a).threads)| == |Batches(s.threads)| - |BatchOf(st)|;
  }

  lemma LockedSets(s: State, a: Action)
    requires !a.Add? && Enabled(s, a)
    ensures var m, st := Locked(s, a).threads, s.threads[a.t];
            && |Woken(m)| <= |Woken(s.threads)| + One(a.Finish?) - One(st == Asleep(true))
            && |Out(m)| == |Out(s.threads)| - One(st.Outside?)
  {
    hide Batches, AsleepIn, InLoop, Notified, RunsOk, CleanedUp, Woken, Out, Locked;
    LockedThreads(s, a);
    if !a.Finish? { SameBut(s, a); }
    SetsAfter(s.threads, Locked(s, a).threads, a.t, a.Finish?);
  }

  lemma SetsAfter(threads: map<ThreadId, Status>, after: map<ThreadId, Status>, t: ThreadId, notifies: bool)
    requires after.Keys == threads.Keys && t in threads && after[t] == Deciding
    requires forall u <- after :: u != t ==> after[u] == threads[u] || (notifies && u == Master && threads[u].Asleep? && after[u] == Asleep(true))
    ensures |Woken(after)| <= |Woken(threads)| + One(notifies) - One(threads[t] == Asleep(true))
    ensures |Out(after)| == |Out(threads)| - One(threads[t].Outside?)
  {
    hide Woken, Out;
    OutAfter(threads, after, t, notifies);
    WokenAfter(threads, after, t, notifies);
  }

  lemma OutAfter(threads: map<ThreadId, Status>, after: map<ThreadId, Status>, t: ThreadId, notifies: bool)
    requires after.Keys == threads.Keys && t in threads && after[t] == Deciding
    requires forall u <- after :: u != t ==> after[u] == threads[u] || (notifies && u == Master && threads[u].Asleep? && after[u] == Asleep(true))
    ensures |Out(after)| == |Out(threads)| - One(threads[t].Outside?)
  {
    forall u ensures u in Out(after) <==> u in Out(threads) - {t} {
      assert u in after <==> u in threads;
    }
    assert Out(after) == Out(threads) - {t};
    Removal(Out(threads), t);
  }

  lemma WokenAfter(threads: map<ThreadId, Status>, after: map<ThreadId, Status>, t: ThreadId, notifies: bool)
    requires after.Keys == threads.Keys && t in threads && after[t] == Deciding
    requires forall u <- after :: u != t ==> after[u] == threads[u] || (notifies && u == Master && threads[u].Asleep? && after[u] == Asleep(true))
    ensures |Woken(after)| <= |Woken(threads)| + One(notifies) - One(threads[t] == Asleep(true))
  {
    var left := Woken(threads) - {t};
    forall u | u in Woken(after) ensures u in left || (notifies && u == Master) {
      assert u in threads;
    }
    Removal(Woken(threads), t);
    SubsetSize(Woken(after), left + if notifies then {Master} else {});
  }

  lemma SameBut(s: State, a: Action)
    requires (a.Enter? || a.Wake?) && Enabled(s, a)
    ensures Locked(s, a).threads == s.threads[a.t := Deciding]
  {
  }

  /** Going to sleep changes nothing, taking a batch moves it from the queue into the hand. */
  lemma SettleLowers(s: State, t: ThreadId, nBatchSize: nat)
    requires Counted(s) && t in s.threads && s.threads[t].Deciding?
    requires !Settled(s, t, nBatchSize).1.Return?
    ensures Outstanding(Settled(s, t, nBatchSize).0) <= Outstanding(s)
  {
    hide Batches, AsleepIn, InLoop, Woken, Out, Popped;
    CountsAreNat(s);
    var r := Settled(s, t, nBatchSize).0;
    StatusChanges(s.threads, t, r.threads[t]);
    assert r.threads == s.threads[t := r.threads[t]];
    SettledSets(s.threads, t, r.threads[t]);
    if s.shared.queue != [] { PoppedSize(s.shared.queue, BatchSize(s.shared, nBatchSize)); }
  }

  lemma SettledSets(threads: map<ThreadId, Status>, t: ThreadId, st: Status)
    requires t in threads && threads[t].Deciding? && (st == Asleep(false) || st.Running?)
    ensures Woken(threads[t := st]) == Woken(threads) && Out(threads[t := st]) == Out(threads)
  {
    assert forall u :: u in Woken(threads[t := st]) <==> u in Woken(threads);
    assert forall u :: u in Out(threads[t := st]) <==> u in Out(threads);
  }

  /** Every step but adding and returning leaves no more to do, and less if it is effective. */
  lemma StepLowers(s: State, a: Action, nBatchSize: nat, r: State, o: Outcome)
    requires Inv(s) && Free(s) && StepsTo(s, a, nBatchSize, r, o) && !a.Add? && !o.Return?
    ensures Outstanding(r) <= Outstanding(s) - One(Effective(s, a))
  {
    hide Outstanding, Settled, Locked, Accounted, NoneForgotten, Effective, Free;
    LockKeeps(s, a);
    LockLowers(s, a);
    SettleLowers(Locked(s, a), a.t, nBatchSize);
  }

  /** The effective steps among actions i to j. */
  ghost function Count(states: seq<State>, actions: seq<Action>, i: nat, j: nat): nat
    requires i <= j <= |actions| && |actions| < |states|
    decreases j - i
  {
    if i == j then 0 else Count(states, actions, i, j - 1) + if Effective(states[j - 1], actions[j - 1]) then 1 else 0
  }

  /** While nothing is added and Wait has not returned, there can be no more effective steps
      than was left to do. */
  lemma {:induction false} WaitEnds(workers: set<ThreadId>, nBatchSize: nat, states: seq<State>, actions: seq<Action>,
                                    outcomes: seq<Outcome>, i: nat, j: nat)
    requires IsRun(workers, nBatchSize, states, actions, outcomes) && i <= j <= |actions|
    requires forall k :: i <= k < j ==> !actions[k].Add? && !outcomes[k].Return?
    ensures Count(states, actions, i, j) + Outstanding(states[j]) <= Outstanding(states[i])
    ensures Count(states, actions, i, j) <= Outstanding(states[i])
    decreases j - i
  {
    hide Outstanding, StepsTo, Inv, Free, Effective;
    NothingNegative(states[j]);
    if i < j {
      WaitEnds(workers, nBatchSize, states, actions, outcomes, i, j - 1);
      RunKeeps(workers, nBatchSize, states, actions, outcomes, j - 1);
      StepLowers(states[j - 1], actions[j - 1], nBatchSize, states[j], outcomes[j - 1]);
    }
  }

  lemma NothingNegative(s: State)
    ensures Outstanding(s) >= 0
  {
  }

  /** As long as the master is in Wait, some effective step other than coming in is possible. */
  lemma NeverStuck(s: State)
    requires Inv(s) && Free(s) && !s.threads[Master].Outside?
    ensures exists a :: Effective(s, a) && Enabled(s, a) && !a.Enter?
  {
    hide Batches, AsleepIn, InLoop;
    var st := s.threads[Master];
    NoneDeciding(s, Master);
    if st.Running? {
      assert Effective(s, Finish(Master)) && Enabled(s, Finish(Master));
    } else if st == Asleep(true) {
      assert Effective(s, Wake(Master)) && Enabled(s, Wake(Master));
    } else {
      MasterIsWokenUp(s);
      var t :| t in s.threads && t.Worker? && s.threads[t].Running?;
      assert Effective(s, Finish(t)) && Enabled(s, Finish(t));
    }
  }
}
