/** The queue of checks, one critical section at a time. */
module CheckQueueState {
  import opened Common

  /** A check, and what running it answers. */
  datatype Check = Check(id: nat, good: bool)

  /** What the mutex protects. */
  datatype Shared = Shared(queue: seq<Check>, nIdle: int, nTotal: int, fAllOk: bool, nTodo: int)

  /** How a critical section of Loop ends: with the result of Wait, asleep on the condition
      variable, or with a batch to run outside the lock. */
  datatype Outcome = Return(result: bool) | Sleep | Work(batch: seq<Check>, fOk: bool)

  /** Nobody is at work and nothing is left to do. */
  predicate Idle(s: Shared) {
    s.nTotal == s.nIdle && s.nTodo == 0 && s.fAllOk
  }

  /** How many checks to take: one share of the queue, if each thread took one and one were left
      over, but not more than the limit, and one at least. */
  function BatchSize(s: Shared, nBatchSize: nat): (n: int)
    requires s.queue != [] && s.nTotal >= 0 && s.nIdle >= 0
    ensures 1 <= n <= |s.queue|
    ensures n == 1 || (n <= nBatchSize && n * (s.nTotal + s.nIdle + 1) <= |s.queue|)
    ensures n >= nBatchSize || (n + 1) * (s.nTotal + s.nIdle + 1) > |s.queue|
  {
    DivSmaller(|s.queue|, s.nTotal + s.nIdle + 1);
    ShareIs(|s.queue|, s.nTotal + s.nIdle + 1, nBatchSize);
    Max(1, Min(nBatchSize, |s.queue| / (s.nTotal + s.nIdle + 1)))
  }

  lemma ShareIs(a: nat, b: nat, limit: nat)
    requires b > 0
    ensures var n := Max(1, Min(limit, a / b));
            (n == 1 || (n <= limit && n * b <= a)) && (n >= limit || (n + 1) * b > a)
  {
    var q, n := a / b, Max(1, Min(limit, a / b));
    assert a == q * b + a % b;
    Scale(n, Max(n, q), b);
    Scale(q + 1, Max(n, q) + 1, b);
  }

  /** The last n elements, last first. */
  function Popped(s: seq<Check>, n: nat): seq<Check>
    requires n <= |s|
  {
    seq(n, (i: nat) requires i < n => s[|s| - 1 - i])
  }

  /** A batch runs until the first failure. */
  function RunsOk(batch: seq<Check>, fOk: bool): bool {
    fOk && forall c <- batch :: c.good
  }

  /** The part of the critical section from `while (queue.empty())` on. */
  function Decided(s: Shared, fMaster: bool, nBatchSize: nat): (Shared, Outcome)
    requires s.nTotal >= 0 && s.nIdle >= 0
  {
    if s.queue == [] then
      if fMaster && s.nTodo == 0 then
        (s.(nTotal := s.nTotal - 1, fAllOk := true), Return(s.fAllOk))
      else
        (s.(nIdle := s.nIdle + 1), Sleep)
    else
      var n := BatchSize(s, nBatchSize);
      (s.(queue := s.queue[..|s.queue| - n]), Work(Popped(s.queue, n), s.fAllOk))
  }

  /** The clean-up after a batch of nNow checks, or the first entry. */
  function CleanedUp(s: Shared, nNow: nat, fOk: bool): Shared {
    if nNow > 0 then s.(fAllOk := s.fAllOk && fOk, nTodo := s.nTodo - nNow) else s.(nTotal := s.nTotal + 1)
  }
}

/** The queue object: each method body is a critical section, or runs outside the lock. */
module CheckQueueObject {
  import opened CheckQueueState

  class CheckQueue {
    var queue: seq<Check>
    var nIdle: int
    var nTotal: int
    var fAllOk: bool
    var nTodo: int
    const nBatchSize: nat

    constructor (nBatchSizeIn: nat)
      ensures Contents() == Shared([], 0, 0, true, 0) && nBatchSize == nBatchSizeIn
    {
      queue, nIdle, nTotal, fAllOk, nTodo := [], 0, 0, true, 0;
      nBatchSize := nBatchSizeIn;
    }

    function Contents(): Shared reads this {
      Shared(queue, nIdle, nTotal, fAllOk, nTodo)
    }

    method Add(vChecks: seq<Check>)
      modifies this
      ensures Contents() == old(Contents()).(queue := old(queue) + vChecks, nTodo := old(nTodo) + |vChecks|)
    {
      for i := 0 to |vChecks|
        invariant Contents() == old(Contents()).(queue := old(queue) + vChecks[..i])
      {
        queue := queue + [vChecks[i]];
        assert vChecks[..i + 1] == vChecks[..i] + [vChecks[i]];
      }
      assert vChecks[..|vChecks|] == vChecks;
      nTodo := nTodo + |vChecks|;
    }

    method IsIdle() returns (idle: bool)
      ensures idle <==> Idle(Contents())
    {
      idle := nTotal == nIdle && nTodo == 0 && fAllOk;
    }

    /** The section at the start of a round. */
    method Round(fMaster: bool, nNow: nat, fOk: bool) returns (notifyMaster: bool, o: Outcome)
      requires nTotal >= 0 && nIdle >= 0
      modifies this
      ensures (Contents(), o) == Decided(CleanedUp(old(Contents()), nNow, fOk), fMaster, nBatchSize)
      ensures notifyMaster <==> nNow > 0 && old(nTodo) == nNow && !fMaster
    {
      notifyMaster := false;
      if nNow > 0 {
        fAllOk := fAllOk && fOk;
        nTodo := nTodo - nNow;
        notifyMaster := nTodo == 0 && !fMaster;
      } else {
        nTotal := nTotal + 1;
      }
      o := Decide(fMaster);
    }

    /** The section after a wait. */
    method Resume(fMaster: bool) returns (o: Outcome)
      requires nTotal >= 0 && nIdle >= 1
      modifies this
      ensures (Contents(), o) == Decided(old(Contents()).(nIdle := old(nIdle) - 1), fMaster, nBatchSize)
    {
      nIdle := nIdle - 1;
      o := Decide(fMaster);
    }

    method Decide(fMaster: bool) returns (o: Outcome)
      requires nTotal >= 0 && nIdle >= 0
      modifies this
      ensures (Contents(), o) == Decided(old(Contents()), fMaster, nBatchSize)
    {
      if queue == [] {
        if fMaster && nTodo == 0 {
          nTotal := nTotal - 1;
          o := Return(fAllOk);
          fAllOk := true;
          return;
        }
        nIdle := nIdle + 1;
        return Sleep;
      }
      var nNow := BatchSize(Contents(), nBatchSize);
      var vChecks: seq<Check> := [];
      for i := 0 to nNow
        invariant Contents() == old(Contents()).(queue := old(queue)[..|old(queue)| - i])
        invariant vChecks == Popped(old(queue), i)
      {
        vChecks := vChecks + [queue[|queue| - 1]];
        queue := queue[..|queue| - 1];
      }
      o := Work(vChecks, fAllOk);
    }

    /** What a thread does with its batch outside the lock. */
    method RunBatch(vChecks: seq<Check>, fOk0: bool) returns (fOk: bool)
      ensures fOk == RunsOk(vChecks, fOk0)
    {
      fOk := fOk0;
      for i := 0 to |vChecks|
        invariant fOk <==> fOk0 && forall k :: 0 <= k < i ==> vChecks[k].good
      {
        if fOk { fOk := vChecks[i].good; }
      }
    }
  }
}

/** Every interleaving of one master and any number of workers. */
module CheckQueueRuns {
  import opened CheckQueueState

  datatype ThreadId = Master | Worker(n: nat)

  /** A thread is outside Loop, asleep (perhaps with a notification on its way), about to
      decide with the mutex in hand, or running a batch. */
  datatype Status = Outside | Asleep(notified: bool) | Deciding | Running(batch: seq<Check>, fOk: bool)

  /** added and done are the checks added, and finished, since the last Wait returned. */
  datatype State = State(shared: Shared, threads: map<ThreadId, Status>, added: multiset<Check>, done: multiset<Check>)

  datatype Action =
    | Add(vChecks: seq<Check>, woken: set<ThreadId>)
    | Enter(t: ThreadId)
    | Finish(t: ThreadId)
    | Wake(t: ThreadId)

  function Sleepers(s: State): set<ThreadId> {
    set t | t in s.threads && t.Worker? && s.threads[t] == Asleep(false)
  }

  /** The checks in the batches of all threads. */
  ghost function Batches(threads: map<ThreadId, Status>): multiset<Check>
    decreases |threads|
  {
    if threads == map[] then multiset{} else
      var t :| t in threads;
      BatchOf(threads[t]) + Batches(threads - {t})
  }

  function BatchOf(st: Status): multiset<Check> {
    if st.Running? then multiset(st.batch) else multiset{}
  }

  function AsleepIn(threads: map<ThreadId, Status>): set<ThreadId> {
    set t | t in threads && threads[t].Asleep?
  }

  function InLoop(threads: map<ThreadId, Status>): set<ThreadId> {
    set t | t in threads && !threads[t].Outside?
  }

  function Initial(workers: set<ThreadId>): State {
    State(Shared([], 0, 0, true, 0), map t | t in workers + {Master} :: Outside, multiset{}, multiset{})
  }

  // ----- steps -------------------------------------------------------------

  /** Who may take a step. Only the master adds, and not from within Wait. One new check
      wakes one sleeping worker, several wake all. */
  ghost predicate Enabled(s: State, a: Action) {
    match a
    case Add(vChecks, woken) =>
      && Master in s.threads && s.threads[Master].Outside?
      && woken <= Sleepers(s)
      && (|vChecks| == 0 ==> woken == {})
      && (|vChecks| == 1 ==> |woken| <= 1 && (Sleepers(s) != {} ==> woken != {}))
      && (|vChecks| > 1 ==> woken == Sleepers(s))
    case Enter(t) => t in s.threads && s.threads[t].Outside?
    case Finish(t) => t in s.threads && s.threads[t].Running?
    case Wake(t) => t in s.threads && s.threads[t].Asleep?
  }

  function Notified(threads: map<ThreadId, Status>, who: set<ThreadId>): map<ThreadId, Status> {
    map t | t in threads :: if t in who && threads[t].Asleep? then Asleep(true) else threads[t]
  }

  function Added(s: State, vChecks: seq<Check>, woken: set<ThreadId>): State {
    s.(shared := s.shared.(queue := s.shared.queue + vChecks, nTodo := s.shared.nTodo + |vChecks|),
       threads := Notified(s.threads, woken),
       added := s.added + multiset(vChecks))
  }

  /** Thread t has the mutex and has done what comes before the decision. */
  function Locked(s: State, a: Action): State
    requires !a.Add? && a.t in s.threads
    requires a.Finish? ==> s.threads[a.t].Running?
  {
    match a
    case Enter(t) =>
      s.(shared := CleanedUp(s.shared, 0, true), threads := s.threads[t := Deciding])
    case Finish(t) =>
      var st := s.threads[t];
      var threads := if s.shared.nTodo == |st.batch| && !t.Master? then Notified(s.threads, {Master}) else s.threads;
      s.(shared := CleanedUp(s.shared, |st.batch|, RunsOk(st.batch, st.fOk)),
         threads := threads[t := Deciding],
         done := s.done + multiset(st.batch))
    case Wake(t) =>
      s.(shared := s.shared.(nIdle := s.shared.nIdle - 1), threads := s.threads[t := Deciding])
  }

  /** What thread t decides, and the end of its critical section. */
  function Settled(s: State, t: ThreadId, nBatchSize: nat): (State, Outcome)
    requires t in s.threads && s.shared.nTotal >= 0 && s.shared.nIdle >= 0
  {
    var d := Decided(s.shared, t.Master?, nBatchSize);
    match d.1
    case Return(_) => (State(d.0, s.threads[t := Outside], multiset{}, multiset{}), d.1)
    case Sleep => (s.(shared := d.0, threads := s.threads[t := Asleep(false)]), d.1)
    case Work(batch, fOk) => (s.(shared := d.0, threads := s.threads[t := Running(batch, fOk)]), d.1)
  }

  // ----- the invariant -----------------------------------------------------

  /** The counters count what they say. */
  ghost predicate Counted(s: State) {
    && s.shared.nTodo == |s.shared.queue| + |Batches(s.threads)|
    && s.shared.nIdle == |AsleepIn(s.threads)|
    && s.shared.nTotal == |InLoop(s.threads)|
    && forall t <- s.threads :: s.threads[t].Running? ==> s.threads[t].batch != []
  }

  /** No check is lost, and the running result is that of the finished ones. */
  ghost predicate Accounted(s: State) {
    && s.added == s.done + multiset(s.shared.queue) + Batches(s.threads)
    && (s.shared.fAllOk <==> forall c <- s.done :: c.good)
    && forall t <- s.threads :: s.threads[t].Running? && !s.threads[t].fOk ==> !s.shared.fAllOk
  }

  ghost predicate Active(s: State, t: ThreadId) {
    t in s.threads && (s.threads[t].Running? || s.threads[t].Deciding? || s.threads[t] == Asleep(true))
  }

  /** Nobody sleeps through his work: the master sleeps only while others have checks in
      hand, or with a notification on its way; and a queue that is not empty has an active
      thread at it unless no worker sleeps. */
  ghost predicate NoneForgotten(s: State) {
    && Master in s.threads
    && (s.threads[Master].Asleep? ==> s.shared.queue == [])
    && (s.threads[Master] == Asleep(false) ==> s.shared.nTodo > 0)
    && (s.shared.queue != [] && Sleepers(s) != {} ==> exists t :: Active(s, t))
  }

  /** What holds whenever the mutex is held or free. */
  ghost predicate Inv(s: State) {
    Counted(s) && Accounted(s) && NoneForgotten(s)
  }

  /** Nobody has the mutex. */
  ghost predicate Free(s: State) {
    forall t <- s.threads :: !s.threads[t].Deciding?
  }

  // ----- counting ----------------------------------------------------------

  lemma {:induction false} BatchesWithout(threads: map<ThreadId, Status>, t: ThreadId)
    requires t in threads
    ensures Batches(threads) == BatchOf(threads[t]) + Batches(threads - {t})
    decreases |threads|
  {
    hide BatchOf;
    var x :| x in threads && Batches(threads) == BatchOf(threads[x]) + Batches(threads - {x});
    if x != t {
      BatchesWithout(threads - {x}, t);
      BatchesWithout(threads - {t}, x);
      assert threads - {x} - {t} == threads - {t} - {x};
      Exchange(BatchOf(threads[x]), BatchOf(threads[t]), Batches(threads - {x} - {t}));
    }
  }

  lemma Exchange(a: multiset<Check>, b: multiset<Check>, c: multiset<Check>)
    ensures a + (b + c) == b + (a + c)
  {
  }

  lemma {:induction false} BatchesSame(a: map<ThreadId, Status>, b: map<ThreadId, Status>)
    requires a.Keys == b.Keys && forall t <- a :: BatchOf(a[t]) == BatchOf(b[t])
    ensures Batches(a) == Batches(b)
    decreases |a|
  {
    hide BatchOf;
    if a == map[] {
      assert b == map[];
    } else {
      var t :| t in a;
      BatchesWithout(a, t);
      BatchesWithout(b, t);
      var x, y := a - {t}, b - {t};
      assert x.Keys == y.Keys;
      BatchesSame(x, y);
    }
  }

  function One(b: bool): int { if b then 1 else 0 }

  /** What a change of one thread's status does to the counts. */
  lemma StatusChanges(threads: map<ThreadId, Status>, t: ThreadId, st: Status)
    requires t in threads
    ensures var after := threads[t := st];
            && Batches(after) + BatchOf(threads[t]) == Batches(threads) + BatchOf(st)
            && |Batches(after)| == |Batches(threads)| - |BatchOf(threads[t])| + |BatchOf(st)|
            && |AsleepIn(after)| == |AsleepIn(threads)| - One(threads[t].Asleep?) + One(st.Asleep?)
            && |InLoop(after)| == |InLoop(threads)| - One(!threads[t].Outside?) + One(!st.Outside?)
  {
    hide Batches, AsleepIn, InLoop;
    BatchesChange(threads, t, st);
    SetsChange(threads, t, st);
  }

  lemma BatchesChange(threads: map<ThreadId, Status>, t: ThreadId, st: Status)
    requires t in threads
    ensures var after := threads[t := st];
            && Batches(after) + BatchOf(threads[t]) == Batches(threads) + BatchOf(st)
            && |Batches(after)| == |Batches(threads)| - |BatchOf(threads[t])| + |BatchOf(st)|
  {
    hide Batches, BatchOf;
    var after := threads[t := st];
    BatchesWithout(threads, t);
    BatchesWithout(after, t);
    assert after - {t} == threads - {t};
    Exchange(BatchOf(threads[t]), BatchOf(st), Batches(threads - {t}));
    assert |Batches(after)| == |BatchOf(st)| + |Batches(threads - {t})|;
    assert |Batches(threads)| == |BatchOf(threads[t])| + |Batches(threads - {t})|;
  }

  lemma SetsChange(threads: map<ThreadId, Status>, t: ThreadId, st: Status)
    requires t in threads
    ensures var after := threads[t := st];
            && |AsleepIn(after)| == |AsleepIn(threads)| - One(threads[t].Asleep?) + One(st.Asleep?)
            && |InLoop(after)| == |InLoop(threads)| - One(!threads[t].Outside?) + One(!st.Outside?)
  {
    var after := threads[t := st];
    assert AsleepIn(after) - {t} == AsleepIn(threads) - {t};
    assert InLoop(after) - {t} == InLoop(threads) - {t};
    Removal(AsleepIn(after), t);
    Removal(AsleepIn(threads), t);
    Removal(InLoop(after), t);
    Removal(InLoop(threads), t);
  }

  lemma Removal(s: set<ThreadId>, t: ThreadId)
    ensures |s - {t}| == |s| - One(t in s)
  {
    if t !in s { assert s - {t} == s; }
  }

  lemma NotificationCounts(threads: map<ThreadId, Status>, who: set<ThreadId>)
    ensures var after := Notified(threads, who);
            after.Keys == threads.Keys && Batches(after) == Batches(threads) && AsleepIn(after) == AsleepIn(threads) && InLoop(after) == InLoop(threads)
  {
    hide Batches;
    var after := Notified(threads, who);
    assert after.Keys == threads.Keys;
    BatchesSame(threads, after);
    assert forall t :: t in AsleepIn(after) <==> t in AsleepIn(threads);
    assert forall t :: t in InLoop(after) <==> t in InLoop(threads);
  }

  lemma PoppedHolds(q: seq<Check>, n: nat)
    requires n <= |q|
    ensures multiset(q) == multiset(q[..|q| - n]) + multiset(Popped(q, n))
    decreases n
  {
    if n == 0 {
      assert q[..|q|] == q;
    } else {
      PoppedHolds(q, n - 1);
      var k := |q| - n;
      assert q[..k + 1] == q[..k] + [q[k]];
      assert Popped(q, n) == Popped(q, n - 1) + [q[k]];
    }
  }

  // ----- steps keep the invariant ------------------------------------------

  lemma AddKeeps(s: State, vChecks: seq<Check>, woken: set<ThreadId>)
    requires Inv(s) && Free(s) && Enabled(s, Add(vChecks, woken))
    ensures Inv(Added(s, vChecks, woken)) && Free(Added(s, vChecks, woken))
  {
    hide Batches;
    var after := Added(s, vChecks, woken);
    NotificationCounts(s.threads, woken);
    assert multiset(s.shared.queue + vChecks) == multiset(s.shared.queue) + multiset(vChecks);
    assert NoneForgotten(after) by {
      if after.shared.queue != [] && Sleepers(after) != {} {
        var t :| t in Sleepers(after);
        assert t in Sleepers(s);
        if vChecks == [] {
          var u :| Active(s, u);
          assert Active(after, u);
        } else {
          var u :| u in woken;
          assert Active(after, u);
        }
      }
    }
  }

  lemma LockKeeps(s: State, a: Action)
    requires Inv(s) && Free(s) && !a.Add? && Enabled(s, a)
    ensures Inv(Locked(s, a)) && a.t in Locked(s, a).threads && Locked(s, a).threads[a.t].Deciding?
    ensures forall u <- Locked(s, a).threads :: Locked(s, a).threads[u].Deciding? ==> u == a.t
    ensures Locked(s, a).added == s.added
  {
    hide Batches, Counted, Accounted, NoneForgotten, Free;
    var t := a.t;
    LockedCounted(s, a);
    LockedAccounted(s, a);
    LockedNoneForgotten(s, a);
    forall u | u in Locked(s, a).threads && u != t ensures !Locked(s, a).threads[u].Deciding? {
      NoneDeciding(s, u);
    }
  }

  lemma NoneDeciding(s: State, u: ThreadId)
    requires Free(s) && u in s.threads
    ensures !s.threads[u].Deciding?
  {
  }

  /** The threads of a step with the mutex, before and after the thread took it. */
  lemma LockedThreads(s: State, a: Action)
    requires !a.Add? && Enabled(s, a)
    ensures var after, st := Locked(s, a).threads, s.threads[a.t];
            && after.Keys == s.threads.Keys && after[a.t] == Deciding
            && (forall u <- after :: u != a.t ==> after[u] == s.threads[u] || (u == Master && s.threads[u].Asleep? && after[u] == Asleep(true)))
            && Batches(after) + BatchOf(st) == Batches(s.threads)
            && |AsleepIn(after)| == |AsleepIn(s.threads)| - One(st.Asleep?)
            && |InLoop(after)| == |InLoop(s.threads)| + One(st.Outside?)
  {
    hide Batches, AsleepIn, InLoop;
    var t := a.t;
    var base := if a.Finish? && s.shared.nTodo == |s.threads[t].batch| && !t.Master? then Notified(s.threads, {Master}) else s.threads;
    NotificationCounts(s.threads, {Master});
    assert Locked(s, a).threads == base[t := Deciding];
    StatusChanges(base, t, Deciding);
  }

  lemma LockedCounted(s: State, a: Action)
    requires Counted(s) && !a.Add? && Enabled(s, a)
    ensures Counted(Locked(s, a))
  {
    hide Batches, AsleepIn, InLoop, Notified, RunsOk;
    LockedThreads(s, a);
  }

  lemma LockedAccounted(s: State, a: Action)
    requires Counted(s) && Accounted(s) && !a.Add? && Enabled(s, a)
    ensures Accounted(Locked(s, a))
  {
    hide Batches, AsleepIn, InLoop, Notified;
    LockedThreads(s, a);
    var m := Locked(s, a);
    if a.Finish? {
      var batch := s.threads[a.t].batch;
      assert forall c :: c in m.done <==> c in s.done || c in batch;
    }
  }

  lemma LockedNoneForgotten(s: State, a: Action)
    requires Counted(s) && NoneForgotten(s) && !a.Add? && Enabled(s, a)
    ensures NoneForgotten(Locked(s, a))
  {
    hide Batches, AsleepIn, InLoop, RunsOk;
    LockedThreads(s, a);
    assert Active(Locked(s, a), a.t);
  }

  // ----- the decision ------------------------------------------------------

  lemma SettledCounted(s: State, t: ThreadId, nBatchSize: nat)
    requires Counted(s) && t in s.threads && s.threads[t].Deciding?
    ensures Counted(Settled(s, t, nBatchSize).0)
  {
    hide Batches, AsleepIn, InLoop, Popped;
    var r := Settled(s, t, nBatchSize).0;
    StatusChanges(s.threads, t, r.threads[t]);
    assert r.threads == s.threads[t := r.threads[t]];
    if s.shared.queue != [] { PoppedSize(s.shared.queue, BatchSize(s.shared, nBatchSize)); }
  }

  lemma PoppedSize(q: seq<Check>, n: nat)
    requires n <= |q|
    ensures |Popped(q, n)| == n && |multiset(Popped(q, n))| == n
  {
  }

  lemma SettledAccounted(s: State, t: ThreadId, nBatchSize: nat)
    requires Counted(s) && Accounted(s) && t in s.threads && s.threads[t].Deciding?
    ensures Accounted(Settled(s, t, nBatchSize).0)
  {
    hide Batches, AsleepIn, InLoop, Popped, Accounted;
    if s.shared.queue != [] {
      WorkAccounted(s, t, nBatchSize);
    } else if t.Master? && s.shared.nTodo == 0 {
      ReturnAccounted(s, t, nBatchSize);
    } else {
      SleepAccounted(s, t, nBatchSize);
    }
  }

  lemma WorkAccounted(s: State, t: ThreadId, nBatchSize: nat)
    requires Counted(s) && Accounted(s) && t in s.threads && s.threads[t].Deciding? && s.shared.queue != []
    ensures Accounted(Settled(s, t, nBatchSize).0)
  {
    hide Batches, AsleepIn, InLoop, Popped;
    var r, n := Settled(s, t, nBatchSize).0, BatchSize(s.shared, nBatchSize);
    var batch := Popped(s.shared.queue, n);
    StatusChanges(s.threads, t, Running(batch, s.shared.fAllOk));
    assert Batches(r.threads) == Batches(s.threads) + multiset(batch);
    PoppedHolds(s.shared.queue, n);
    Regroup(s.added, s.done, multiset(s.shared.queue), multiset(r.shared.queue), multiset(batch), Batches(s.threads), Batches(r.threads));
  }

  lemma ReturnAccounted(s: State, t: ThreadId, nBatchSize: nat)
    requires Counted(s) && Accounted(s) && t in s.threads && s.threads[t].Deciding?
    requires s.shared.queue == [] && t.Master? && s.shared.nTodo == 0
    ensures Accounted(Settled(s, t, nBatchSize).0)
  {
    hide Batches, AsleepIn, InLoop;
    StatusChanges(s.threads, t, Outside);
    NothingRuns(s);
    var r := Settled(s, t, nBatchSize).0;
    assert Batches(r.threads) == multiset{};
  }

  lemma SleepAccounted(s: State, t: ThreadId, nBatchSize: nat)
    requires Counted(s) && Accounted(s) && t in s.threads && s.threads[t].Deciding?
    requires s.shared.queue == [] && !(t.Master? && s.shared.nTodo == 0)
    ensures Accounted(Settled(s, t, nBatchSize).0)
  {
    hide Batches, AsleepIn, InLoop;
    StatusChanges(s.threads, t, Asleep(false));
    var r := Settled(s, t, nBatchSize).0;
    assert r.threads == s.threads[t := Asleep(false)];
    assert Batches(r.threads) == Batches(r.threads) + BatchOf(Deciding);
    assert Batches(s.threads) == Batches(s.threads) + BatchOf(Asleep(false));
  }

  lemma Regroup(a: multiset<Check>, d: multiset<Check>, q: multiset<Check>, q2: multiset<Check>, p: multiset<Check>,
                b: multiset<Check>, b2: multiset<Check>)
    requires a == d + q + b && q == q2 + p && b2 == b + p
    ensures a == d + q2 + b2
  {
  }

  /** With nothing left to do no thread has a batch. */
  lemma NothingRuns(s: State)
    requires Counted(s) && s.shared.nTodo == 0
    ensures s.shared.queue == [] && Batches(s.threads) == multiset{}
    ensures forall t <- s.threads :: !s.threads[t].Running?
  {
    forall t | t in s.threads ensures !s.threads[t].Running? {
      BatchesWithout(s.threads, t);
    }
  }

  lemma SettledNoneForgotten(s: State, t: ThreadId, nBatchSize: nat)
    requires Counted(s) && NoneForgotten(s) && t in s.threads && s.threads[t].Deciding?
    ensures NoneForgotten(Settled(s, t, nBatchSize).0)
  {
    hide Batches, AsleepIn, InLoop, Popped;
    var r := Settled(s, t, nBatchSize).0;
    assert r.threads[t].Running? ==> Active(r, t);
  }

  lemma SettleKeeps(s: State, t: ThreadId, nBatchSize: nat)
    requires Inv(s) && t in s.threads && s.threads[t].Deciding?
    requires forall u <- s.threads :: s.threads[u].Deciding? ==> u == t
    ensures Inv(Settled(s, t, nBatchSize).0) && Free(Settled(s, t, nBatchSize).0)
  {
    hide Batches, AsleepIn, InLoop, Popped, Counted, Accounted, NoneForgotten;
    CountsAreNat(s);
    SettledCounted(s, t, nBatchSize);
    SettledAccounted(s, t, nBatchSize);
    SettledNoneForgotten(s, t, nBatchSize);
  }

  lemma CountsAreNat(s: State)
    requires Counted(s)
    ensures s.shared.nTotal >= 0 && s.shared.nIdle >= 0
  {
  }

  // ----- runs --------------------------------------------------------------

  /** A whole step from s: adding, or a critical section of one thread. */
  ghost predicate StepsTo(s: State, a: Action, nBatchSize: nat, r: State, o: Outcome) {
    && Enabled(s, a)
    && if a.Add? then r == Added(s, a.vChecks, a.woken) && o == Sleep
       else
         var m := Locked(s, a);
         m.shared.nTotal >= 0 && m.shared.nIdle >= 0 && (r, o) == Settled(m, a.t, nBatchSize)
  }

  ghost predicate IsRun(workers: set<ThreadId>, nBatchSize: nat, states: seq<State>, actions: seq<Action>, outcomes: seq<Outcome>) {
    && |states| == |actions| + 1 == |outcomes| + 1
    && states[0] == Initial(workers)
    && forall i :: 0 <= i < |actions| ==> StepsTo(states[i], actions[i], nBatchSize, states[i + 1], outcomes[i])
  }

  lemma StepKeeps(s: State, a: Action, nBatchSize: nat, r: State, o: Outcome)
    requires Inv(s) && Free(s) && StepsTo(s, a, nBatchSize, r, o)
    ensures Inv(r) && Free(r)
  {
    hide Inv, Free, Settled, Added, Locked, Enabled;
    if a.Add? {
      AddKeeps(s, a.vChecks, a.woken);
    } else {
      EnabledThread(s, a);
      LockKeeps(s, a);
      SettleKeeps(Locked(s, a), a.t, nBatchSize);
    }
  }

  lemma EnabledThread(s: State, a: Action)
    requires !a.Add? && Enabled(s, a)
    ensures a.t in s.threads && (a.Finish? ==> s.threads[a.t].Running?)
  {
  }

  lemma InitialHolds(workers: set<ThreadId>)
    ensures Inv(Initial(workers)) && Free(Initial(workers))
  {
    var s := Initial(workers);
    assert AsleepIn(s.threads) == {} && InLoop(s.threads) == {};
    NoBatches(s.threads);
  }

  /** Whenever the mutex is free, in every interleaving, the counters are right and no check
      or wake-up is lost. */
  lemma {:induction false} RunKeeps(workers: set<ThreadId>, nBatchSize: nat, states: seq<State>, actions: seq<Action>,
                                    outcomes: seq<Outcome>, i: nat)
    requires IsRun(workers, nBatchSize, states, actions, outcomes) && i < |states|
    ensures Inv(states[i]) && Free(states[i])
  {
    hide Inv, Free, StepsTo;
    if i == 0 {
      InitialHolds(workers);
    } else {
      RunKeeps(workers, nBatchSize, states, actions, outcomes, i - 1);
      StepKeeps(states[i - 1], actions[i - 1], nBatchSize, states[i], outcomes[i - 1]);
    }
  }

  /** An enabled action can always be carried out. */
  lemma CanStep(s: State, a: Action, nBatchSize: nat)
    requires Inv(s) && Free(s) && Enabled(s, a)
    ensures exists r, o :: StepsTo(s, a, nBatchSize, r, o)
  {
    hide Batches;
    if a.Add? {
      assert StepsTo(s, a, nBatchSize, Added(s, a.vChecks, a.woken), Sleep);
    } else {
      LockKeeps(s, a);
      var d := Settled(Locked(s, a), a.t, nBatchSize);
      assert StepsTo(s, a, nBatchSize, d.0, d.1);
    }
  }

  /** Only the master's Wait returns. It answers whether every check added since the last
      return is good, and leaves the queue idle. */
  lemma WaitResult(s: State, a: Action, nBatchSize: nat, r: State, result: bool)
    requires Inv(s) && Free(s) && StepsTo(s, a, nBatchSize, r, Return(result))
    ensures !a.Add? && a.t == Master && r.threads[Master].Outside?
    ensures result <==> forall c <- s.added :: c.good
    ensures Idle(r.shared)
    ensures r.added == multiset{}
  {
    hide Batches, AsleepIn, InLoop, Free;
    LockKeeps(s, a);
    var m := Locked(s, a);
    NothingRuns(m);
    StepKeeps(s, a, nBatchSize, r, Return(result));
    assert m.added == m.done;
    forall t | t in r.threads && !r.threads[t].Outside? ensures r.threads[t].Asleep? {
      NoneDeciding(r, t);
      NothingRuns(r);
    }
    assert InLoop(r.threads) == AsleepIn(r.threads) by { AllIdle(r.threads); }
  }

  lemma AllIdle(threads: map<ThreadId, Status>)
    requires forall t <- threads :: !threads[t].Outside? ==> threads[t].Asleep?
    ensures InLoop(threads) == AsleepIn(threads)
  {
  }

  /** The master never waits for nothing: while it sleeps un-notified some worker has
      checks in hand. */
  lemma MasterIsWokenUp(s: State)
    requires Inv(s) && Free(s) && s.threads[Master] == Asleep(false)
    ensures s.shared.nTodo > 0 && exists t :: t in s.threads && t.Worker? && s.threads[t].Running?
  {
    SomeBatch(s.threads);
  }

  lemma {:induction false} SomeBatch(threads: map<ThreadId, Status>)
    requires Batches(threads) != multiset{}
    ensures exists t :: t in threads && threads[t].Running?
  {
    if forall t <- threads :: !threads[t].Running? { NoBatches(threads); }
  }

  lemma {:induction false} NoBatches(threads: map<ThreadId, Status>)
    requires forall t <- threads :: !threads[t].Running?
    ensures Batches(threads) == multiset{}
    decreases |threads|
  {
    if threads != map[] {
      var t :| t in threads;
      BatchesWithout(threads, t);
      NoBatches(threads - {t});
    }
  }
}
