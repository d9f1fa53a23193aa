/** Putting a package of transactions in an order that is valid in a block. */
module PackageOrder {
  import opened Mempool

  function CountWithAncestors(p: Pool, t: TxId): nat {
    if t in p.ancestors then |p.ancestors[t]| + 1 else 1
  }

  /** Fewer ancestors first, then by hash. */
  predicate ComesBefore(p: Pool, a: TxId, b: TxId) {
    if CountWithAncestors(p, a) != CountWithAncestors(p, b)
    then CountWithAncestors(p, a) < CountWithAncestors(p, b)
    else a.n < b.n
  }

  predicate SortedByCount(p: Pool, s: seq<TxId>) {
    forall i, j :: 0 <= i < j < |s| ==> ComesBefore(p, s[i], s[j])
  }

  /** s holds each element of package once and nothing else. */
  predicate Lists(s: seq<TxId>, package: set<TxId>) {
    multiset(s) == multiset(package)
  }

  lemma ListsElements(s: seq<TxId>, package: set<TxId>)
    requires Lists(s, package)
    ensures forall i :: 0 <= i < |s| ==> s[i] in package
    ensures forall t <- package :: t in s
  {
    forall i | 0 <= i < |s| ensures s[i] in package { assert s[i] in multiset(s); }
    forall t | t in package ensures t in s { assert t in multiset(s); }
  }

  lemma TwiceCounts(s: seq<TxId>, i: nat, j: nat)
    requires i < j < |s| && s[i] == s[j]
    ensures multiset(s)[s[i]] >= 2
  {
    assert s == s[..i] + [s[i]] + s[i + 1..j] + [s[i]] + s[j + 1..];
  }

  lemma ListsOnce(s: seq<TxId>, package: set<TxId>, i: nat, j: nat)
    requires Lists(s, package) && i < |s| && j < |s| && s[i] == s[j]
    ensures i == j
  {
    assert multiset(package)[s[i]] <= 1;
    if i < j { TwiceCounts(s, i, j); }
    if j < i { TwiceCounts(s, j, i); }
  }

  /** Every member comes after those it has from first, as far as they are in package. */
  ghost predicate ComeFirst(p: Pool, first: TxId -> set<TxId>, package: set<TxId>, s: seq<TxId>) {
    forall i, q :: 0 <= i < |s| && q in first(s[i]) && q in package ==> exists j :: 0 <= j < i && s[j] == q
  }

  ghost function Parents(p: Pool): TxId -> set<TxId> {
    t => if t in p.txs then p.txs[t].parents else {}
  }

  ghost function AllNeeds(p: Pool): TxId -> set<TxId> {
    t => Needs(p, t)
  }

  /** The members can be ranked so that each ranks above everything in package it needs. */
  ghost predicate Orderable(p: Pool, package: set<TxId>) {
    exists rank :: RanksWithin(p, package, rank)
  }

  ghost predicate RanksWithin(p: Pool, package: set<TxId>, rank: map<TxId, nat>) {
    && package <= rank.Keys
    && forall t, q :: t in package && q in package && q in Needs(p, t) ==> rank[q] < rank[t]
  }

  lemma AcyclicIsOrderable(p: Pool, package: set<TxId>)
    requires Acyclic(p) && package <= p.txs.Keys
    ensures Orderable(p, package)
  {
    var rank :| Ranks(p, rank);
    assert RanksWithin(p, package, rank);
  }

  /** An order that respects the needs is itself a ranking. */
  lemma OrderRanks(p: Pool, package: set<TxId>, s: seq<TxId>)
    requires Lists(s, package) && ComeFirst(p, AllNeeds(p), package, s)
    ensures Orderable(p, package)
  {
    ListsElements(s, package);
    var rank: map<TxId, nat> := map t | t in package :: Position(s, t);
    forall t, q | t in package && q in package && q in Needs(p, t)
      ensures rank[q] < rank[t]
    {
      var i := Position(s, t);
      assert q in AllNeeds(p)(s[i]);
      var j :| 0 <= j < i && s[j] == q;
      ListsOnce(s, package, j, Position(s, q));
    }
    assert RanksWithin(p, package, rank);
  }

  ghost function Position(s: seq<TxId>, t: TxId): (i: nat)
    requires t in s
    ensures i < |s| && s[i] == t
  {
    var i: nat :| i < |s| && s[i] == t;
    i
  }

  /** In a ranked package some pending transaction needs none of the pending ones. */
  lemma {:induction false} LowestIsFree(p: Pool, package: set<TxId>, rank: map<TxId, nat>, pending: seq<TxId>)
    returns (i: nat)
    requires RanksWithin(p, package, rank) && pending != []
    requires forall k :: 0 <= k < |pending| ==> pending[k] in package
    ensures i < |pending|
    ensures forall k :: 0 <= k < |pending| ==> rank[pending[i]] <= rank[pending[k]]
    ensures forall q <- Needs(p, pending[i]) :: q !in pending
  {
    i := 0;
    var n := 1;
    while n < |pending|
      invariant i < n <= |pending|
      invariant forall k :: 0 <= k < n ==> rank[pending[i]] <= rank[pending[k]]
    {
      if rank[pending[n]] < rank[pending[i]] { i := n; }
      n := n + 1;
    }
    forall q | q in Needs(p, pending[i])
      ensures q !in pending
    {
      assert q in package && pending[i] in package ==> rank[q] < rank[pending[i]];
    }
  }

  // ----- the initial order -------------------------------------------------

  /** Inserts t before the first element it comes before. */
  method Insert(p: Pool, s: seq<TxId>, t: TxId) returns (r: seq<TxId>)
    requires SortedByCount(p, s) && t !in s
    ensures SortedByCount(p, r)
    ensures multiset(r) == multiset(s) + multiset{t}
  {
    hide SortedByCount, ComesBefore;
    var i := 0;
    while i < |s| && !ComesBefore(p, t, s[i])
      invariant 0 <= i <= |s|
      invariant forall k :: 0 <= k < i ==> ComesBefore(p, s[k], t)
    {
      OneComesBefore(p, s[i], t);
      i := i + 1;
    }
    assert s == s[..i] + s[i..];
    r := s[..i] + [t] + s[i..];
    InsertedIsSorted(p, s, t, i);
  }

  lemma OneComesBefore(p: Pool, a: TxId, b: TxId)
    requires a != b
    ensures ComesBefore(p, a, b) || ComesBefore(p, b, a)
  {
  }

  lemma InsertedIsSorted(p: Pool, s: seq<TxId>, t: TxId, i: nat)
    requires SortedByCount(p, s) && i <= |s|
    requires forall k :: 0 <= k < i ==> ComesBefore(p, s[k], t)
    requires i < |s| ==> ComesBefore(p, t, s[i])
    ensures SortedByCount(p, s[..i] + [t] + s[i..])
  {
    hide ComesBefore;
    forall k | i <= k < |s| ensures ComesBefore(p, t, s[k]) {
      if k > i { ComesBeforeOn(p, t, s[i], s[k]); }
    }
  }

  lemma ComesBeforeOn(p: Pool, a: TxId, b: TxId, c: TxId)
    requires ComesBefore(p, a, b) && ComesBefore(p, b, c)
    ensures ComesBefore(p, a, c)
  {
  }

  /** The package sorted by number of ancestors. */
  method ByAncestorCount(p: Pool, package: set<TxId>) returns (s: seq<TxId>)
    ensures Lists(s, package) && SortedByCount(p, s)
  {
    s := [];
    var rest := package;
    while rest != {}
      invariant rest <= package && SortedByCount(p, s)
      invariant multiset(s) == multiset(package - rest)
      decreases |rest|
    {
      var t :| t in rest;
      assert t !in multiset(s);
      s := Insert(p, s, t);
      assert package - (rest - {t}) == (package - rest) + {t};
      rest := rest - {t};
    }
    assert package - rest == package;
  }

  // ----- readiness ---------------------------------------------------------

  /** All that t needs from the package is placed. */
  ghost predicate Ready(p: Pool, package: set<TxId>, included: set<TxId>, t: TxId) {
    forall q :: q in Needs(p, t) && q in package ==> q in included
  }

  /** Whether t names a vote lock of the package that is not placed yet. */
  method HasPendingGovLockDependency(p: Pool, package: set<TxId>, included: set<TxId>, t: TxId) returns (pending: bool)
    requires t in p.txs && package <= p.txs.Keys
    ensures pending <==> exists q :: q in Locks(p, t) && q in package && q !in included
  {
    var refs := p.txs[t].lockRefs;
    for i := 0 to |refs|
      invariant forall k :: 0 <= k < i ==> refs[k] in package ==> refs[k] in included
    {
      if refs[i] in p.txs && refs[i] in package && refs[i] !in included {
        assert refs[i] in Locks(p, t);
        return true;
      }
    }
    pending := false;
  }

  /** Whether every parent of t in the package is placed. */
  method ParentsReady(p: Pool, package: set<TxId>, included: set<TxId>, t: TxId) returns (ready: bool)
    requires t in p.txs
    ensures ready <==> p.txs[t].parents * package <= included
  {
    var rest := p.txs[t].parents;
    while rest != {}
      invariant rest <= p.txs[t].parents
      invariant (p.txs[t].parents - rest) * package <= included
      decreases |rest|
    {
      var q :| q in rest;
      if q in package && q !in included {
        assert q in p.txs[t].parents * package;
        return false;
      }
      rest := rest - {q};
    }
    assert p.txs[t].parents - rest == p.txs[t].parents;
    ready := true;
  }

  // ----- the order for the block -------------------------------------------

  /** What holds of the two lists while the order is being made. */
  ghost predicate Ordering(p: Pool, package: set<TxId>, sorted: seq<TxId>, pending: seq<TxId>) {
    && Lists(sorted + pending, package)
    && SortedByCount(p, pending)
    && ComeFirst(p, AllNeeds(p), package, sorted)
  }

  lemma PlaceKeeps(p: Pool, package: set<TxId>, sorted: seq<TxId>, pending: seq<TxId>, i: nat)
    requires Ordering(p, package, sorted, pending) && i < |pending|
    requires Ready(p, package, (set t | t in sorted), pending[i])
    ensures Ordering(p, package, sorted + [pending[i]], pending[..i] + pending[i + 1..])
  {
    hide ComeFirst, CountWithAncestors, Ready;
    var rest := pending[..i] + pending[i + 1..];
    assert pending == pending[..i] + [pending[i]] + pending[i + 1..];
    assert forall k :: 0 <= k < |rest| ==> rest[k] == pending[if k < i then k else k + 1];
    PlaceComesFirst(p, package, sorted, pending[i]);
  }

  lemma PlaceComesFirst(p: Pool, package: set<TxId>, sorted: seq<TxId>, t: TxId)
    requires ComeFirst(p, AllNeeds(p), package, sorted) && Ready(p, package, (set x | x in sorted), t)
    ensures ComeFirst(p, AllNeeds(p), package, sorted + [t])
  {
    var more := sorted + [t];
    forall k, q | 0 <= k < |more| && q in AllNeeds(p)(more[k]) && q in package
      ensures exists j :: 0 <= j < k && more[j] == q
    {
      if k < |sorted| {
        assert more[k] == sorted[k];
        var j :| 0 <= j < k && sorted[j] == q;
        assert more[j] == q;
      } else {
        var j :| 0 <= j < |sorted| && sorted[j] == q;
        assert more[j] == q;
      }
    }
  }

  /** Parents have fewer ancestors than their children, so that the remaining list by
      ancestor count never puts a child before its parent. */
  lemma FallbackKeepsParentsFirst(p: Pool, package: set<TxId>, sorted: seq<TxId>, pending: seq<TxId>)
    requires WellFormed(p) && package <= p.txs.Keys && Ordering(p, package, sorted, pending)
    ensures ComeFirst(p, Parents(p), package, sorted + pending)
    ensures Lists(sorted + pending, package)
  {
    hide Linked, CountWithAncestors, SortedByCount;
    var all := sorted + pending;
    forall i, q | 0 <= i < |all| && q in Parents(p)(all[i]) && q in package
      ensures exists j :: 0 <= j < i && all[j] == q
    {
      if i < |sorted| {
        assert all[i] == sorted[i] && q in AllNeeds(p)(sorted[i]);
        var j :| 0 <= j < i && sorted[j] == q;
        assert all[j] == q;
      } else {
        ParentIsEarlier(p, package, sorted, pending, i - |sorted|, q);
      }
    }
  }

  lemma ParentIsEarlier(p: Pool, package: set<TxId>, sorted: seq<TxId>, pending: seq<TxId>, i: nat, q: TxId)
    requires WellFormed(p) && package <= p.txs.Keys && Lists(sorted + pending, package) && SortedByCount(p, pending)
    requires i < |pending| && q in Parents(p)(pending[i]) && q in package
    ensures exists j :: 0 <= j < |sorted| + i && (sorted + pending)[j] == q
  {
    hide Linked, AncestorsOf, SortedByCount, Lists;
    var all := sorted + pending;
    ListsElements(all, package);
    assert all[|sorted| + i] == pending[i] && pending[i] in package;
    ParentHasFewer(p, pending[i], q);
    var j :| 0 <= j < |all| && all[j] == q;
    if |sorted| + i <= j {
      assert j != |sorted| + i;
      LaterHasMore(p, pending, i, j - |sorted|);
    }
  }

  lemma LaterHasMore(p: Pool, pending: seq<TxId>, i: nat, j: nat)
    requires SortedByCount(p, pending) && i < j < |pending|
    ensures CountWithAncestors(p, pending[i]) <= CountWithAncestors(p, pending[j])
  {
    assert ComesBefore(p, pending[i], pending[j]);
  }

  /** Where the package can be ordered, some pending transaction is ready. */
  lemma SomeReady(p: Pool, package: set<TxId>, sorted: seq<TxId>, pending: seq<TxId>, included: set<TxId>)
    requires Ordering(p, package, sorted, pending) && pending != [] && included == set t | t in sorted
    requires Orderable(p, package)
    ensures exists k :: 0 <= k < |pending| && Ready(p, package, included, pending[k])
  {
    var rank :| RanksWithin(p, package, rank);
    ListsElements(sorted + pending, package);
    forall k | 0 <= k < |pending| ensures pending[k] in package {
      assert (sorted + pending)[|sorted| + k] == pending[k];
    }
    var i := LowestIsFree(p, package, rank, pending);
    forall q | q in Needs(p, pending[i]) && q in package ensures q in included {
      assert q in sorted + pending;
    }
    assert Ready(p, package, included, pending[i]);
  }

  /** The first pending transaction that is ready. */
  method FirstReady(p: Pool, package: set<TxId>, included: set<TxId>, pending: seq<TxId>)
    returns (progressed: bool, i: nat)
    requires package <= p.txs.Keys && forall k :: 0 <= k < |pending| ==> pending[k] in package
    ensures progressed ==> i < |pending| && Ready(p, package, included, pending[i])
    ensures progressed ==> forall k :: 0 <= k < i ==> !Ready(p, package, included, pending[k])
    ensures !progressed ==> forall k :: 0 <= k < |pending| ==> !Ready(p, package, included, pending[k])
  {
    progressed, i := false, 0;
    while i < |pending|
      invariant 0 <= i <= |pending|
      invariant !progressed
      invariant forall k :: 0 <= k < i ==> !Ready(p, package, included, pending[k])
    {
      var parentsReady := ParentsReady(p, package, included, pending[i]);
      var lockPending := HasPendingGovLockDependency(p, package, included, pending[i]);
      if parentsReady && !lockPending {
        return true, i;
      }
      if !parentsReady {
        var q :| q in p.txs[pending[i]].parents * package && q !in included;
        assert q in Needs(p, pending[i]);
      }
      i := i + 1;
    }
  }

  lemma OrderingStarts(p: Pool, package: set<TxId>, pending: seq<TxId>)
    requires Lists(pending, package) && SortedByCount(p, pending)
    ensures Ordering(p, package, [], pending)
  {
    assert [] + pending == pending;
  }

  lemma PendingInPackage(p: Pool, package: set<TxId>, sorted: seq<TxId>, pending: seq<TxId>)
    requires Ordering(p, package, sorted, pending)
    ensures forall k :: 0 <= k < |pending| ==> pending[k] in package
  {
    ListsElements(sorted + pending, package);
    assert forall k :: 0 <= k < |pending| ==> pending[k] == (sorted + pending)[|sorted| + k];
  }

  lemma OrderingEnds(p: Pool, package: set<TxId>, sorted: seq<TxId>)
    requires Ordering(p, package, sorted, [])
    ensures Lists(sorted, package) && ComeFirst(p, AllNeeds(p), package, sorted)
  {
    assert sorted + [] == sorted;
  }

  /** t comes first: of those that need nothing from the package, or of all if there is none,
      the one with the fewest ancestors. */
  ghost predicate IsFirst(p: Pool, package: set<TxId>, t: TxId) {
    && t in package
    && (Ready(p, package, {}, t) || forall u <- package :: !Ready(p, package, {}, u))
    && (forall u <- package :: u != t && (Ready(p, package, {}, u) || !Ready(p, package, {}, t)) ==> ComesBefore(p, t, u))
  }

  /** Only one does. */
  lemma FirstIsOnly(p: Pool, package: set<TxId>, t: TxId, u: TxId)
    requires IsFirst(p, package, t) && IsFirst(p, package, u)
    ensures t == u
  {
    hide Ready;
  }

  lemma FirstIs(p: Pool, package: set<TxId>, pending: seq<TxId>, progressed: bool, i: nat)
    requires Ordering(p, package, [], pending) && pending != []
    requires progressed ==> i < |pending| && Ready(p, package, {}, pending[i]) && forall k :: 0 <= k < i ==> !Ready(p, package, {}, pending[k])
    requires !progressed ==> forall k :: 0 <= k < |pending| ==> !Ready(p, package, {}, pending[k])
    ensures IsFirst(p, package, pending[if progressed then i else 0])
  {
    hide Ready, ComeFirst, ComesBefore;
    assert [] + pending == pending;
    ListsElements(pending, package);
    var first := if progressed then i else 0;
    forall u | u in package && u != pending[first] && (Ready(p, package, {}, u) || !Ready(p, package, {}, pending[first]))
      ensures ComesBefore(p, pending[first], u)
    {
      var k :| 0 <= k < |pending| && pending[k] == u;
    }
  }

  /** The package in block order. Parents always come first, even where the loop gives up
      on a circle of vote locks; vote locks come first whenever any order allows it. */
  method SortForBlock(p: Pool, package: set<TxId>) returns (sorted: seq<TxId>)
    requires WellFormed(p) && package <= p.txs.Keys
    ensures Lists(sorted, package)
    ensures ComeFirst(p, Parents(p), package, sorted)
    ensures ComeFirst(p, AllNeeds(p), package, sorted) <==> Orderable(p, package)
    ensures sorted != [] ==> IsFirst(p, package, sorted[0])
  {
    hide Lists, ComeFirst, Orderable, Ordering, SortedByCount, Ready, WellFormed, IsFirst;
    var pending := ByAncestorCount(p, package);
    OrderingStarts(p, package, pending);
    var included: set<TxId> := {};
    sorted := [];
    while pending != []
      invariant Ordering(p, package, sorted, pending)
      invariant included == set t | t in sorted
      invariant sorted != [] ==> IsFirst(p, package, sorted[0])
      decreases |pending|
    {
      PendingInPackage(p, package, sorted, pending);
      var progressed, i := FirstReady(p, package, included, pending);
      if sorted == [] { FirstIs(p, package, pending, progressed, i); }
      if !progressed {
        if Orderable(p, package) { SomeReady(p, package, sorted, pending, included); }
        FallbackKeepsParentsFirst(p, package, sorted, pending);
        sorted := sorted + pending;
        if ComeFirst(p, AllNeeds(p), package, sorted) { OrderRanks(p, package, sorted); }
        return;
      }
      PlaceKeeps(p, package, sorted, pending, i);
      sorted := sorted + [pending[i]];
      included := included + {pending[i]};
      pending := pending[..i] + pending[i + 1..];
    }
    FallbackKeepsParentsFirst(p, package, sorted, pending);
    OrderingEnds(p, package, sorted);
    assert sorted + [] == sorted;
    OrderRanks(p, package, sorted);
  }
}
