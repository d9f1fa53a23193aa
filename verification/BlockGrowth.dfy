/** How the block grows: by whole packages in order, or by the first part of one. */
module BlockGrowth {
  import opened Mempool
  import opened PackageOrder
  import opened PackageRoom

  /** Each of added comes after those it has from first, unless they are in base. */
  ghost predicate ComeAfter(p: Pool, first: TxId -> set<TxId>, base: set<TxId>, added: seq<TxId>) {
    forall i, q :: 0 <= i < |added| && q in first(added[i]) ==> q in base || exists j :: 0 <= j < i && added[j] == q
  }

  /** done is base and the transactions of added, each once, after its parents, and after
      the vote locks it names if neither parents nor locks run in circles. */
  ghost predicate Grown(p: Pool, base: set<TxId>, done: set<TxId>, added: seq<TxId>) {
    && base <= done
    && done - base <= p.txs.Keys
    && Lists(added, done - base)
    && ComeAfter(p, Parents(p), base, added)
    && (Acyclic(p) ==> ComeAfter(p, AllNeeds(p), base, added))
  }

  lemma GrownAtFirst(p: Pool, base: set<TxId>)
    ensures Grown(p, base, base, [])
  {
    assert base - base == {};
  }

  lemma AppendComesAfter(p: Pool, first: TxId -> set<TxId>, base: set<TxId>, done: set<TxId>, added: seq<TxId>,
                         package: set<TxId>, sorted: seq<TxId>)
    requires ComeAfter(p, first, base, added) && Lists(added, done - base) && Lists(sorted, package)
    requires ComeFirst(p, first, package, sorted)
    requires forall t <- package :: first(t) <= package + done
    ensures ComeAfter(p, first, base, added + sorted)
  {
    ListsElements(added, done - base);
    ListsElements(sorted, package);
    var all := added + sorted;
    forall i, q | 0 <= i < |all| && q in first(all[i]) && q !in base
      ensures exists j :: 0 <= j < i && all[j] == q
    {
      if i < |added| {
        assert all[i] == added[i];
        var j :| 0 <= j < i && added[j] == q;
        assert all[j] == q;
      } else {
        assert all[i] == sorted[i - |added|] && first(all[i]) <= package + done;
        if q in package {
          var j :| 0 <= j < i - |added| && sorted[j] == q;
          assert all[|added| + j] == q;
        } else {
          assert q in done - base;
          var j :| 0 <= j < |added| && added[j] == q;
          assert all[j] == q;
        }
      }
    }
  }

  lemma GrownByPackage(p: Pool, base: set<TxId>, done: set<TxId>, added: seq<TxId>, package: set<TxId>, sorted: seq<TxId>)
    requires WellFormed(p) && Grown(p, base, done, added) && Closed(p, package, done)
    requires Lists(sorted, package) && ComeFirst(p, Parents(p), package, sorted)
    requires Orderable(p, package) ==> ComeFirst(p, AllNeeds(p), package, sorted)
    ensures Grown(p, base, done + package, added + sorted)
  {
    hide Linked, Orderable, ComeFirst, ComeAfter, Acyclic, Parents, AllNeeds, Closed;
    ClosedHasAllNeeds(p, package, done);
    assert done + package - base == (done - base) + package;
    AppendComesAfter(p, Parents(p), base, done, added, package, sorted);
    if Acyclic(p) {
      AcyclicIsOrderable(p, package);
      AppendComesAfter(p, AllNeeds(p), base, done, added, package, sorted);
    }
  }

  lemma ClosedHasAllNeeds(p: Pool, package: set<TxId>, done: set<TxId>)
    requires WellFormed(p) && Closed(p, package, done)
    ensures package <= p.txs.Keys && package !! done
    ensures forall t <- package :: Parents(p)(t) <= package + done && AllNeeds(p)(t) <= package + done
  {
    hide Linked;
    forall t | t in package ensures Parents(p)(t) <= package + done && AllNeeds(p)(t) <= package + done {
      ClosedHasNeeds(p, package, done, t);
    }
  }

  lemma BlockStaysClosed(p: Pool, base: set<TxId>, done: set<TxId>, package: set<TxId>)
    requires AncestorClosed(p, done, {}) && LockClosed(p, done - base, done) && Closed(p, package, done)
    ensures AncestorClosed(p, done + package, {}) && LockClosed(p, done + package - base, done + package)
  {
    assert done + {} == done;
  }

  // ----- a part of a package -----------------------------------------------

  function Elements(s: seq<TxId>): set<TxId> {
    set t | t in s
  }

  lemma ElementsListed(s: seq<TxId>, package: set<TxId>)
    requires Lists(s, package)
    ensures Elements(s) == package
  {
    ListsElements(s, package);
  }

  lemma PartIsListed(s: seq<TxId>, package: set<TxId>, n: nat)
    requires Lists(s, package) && n <= |s|
    ensures Lists(s[..n], Elements(s[..n])) && Elements(s[..n]) <= package
  {
    ListsElements(s, package);
    assert s == s[..n] + s[n..];
    forall x ensures multiset(s[..n])[x] == multiset(Elements(s[..n]))[x] {
      assert multiset(s[..n])[x] <= multiset(s)[x] <= 1;
      assert x in s[..n] <==> x in multiset(s[..n]);
    }
  }

  lemma PartComesAfter(p: Pool, first: TxId -> set<TxId>, base: set<TxId>, all: seq<TxId>, n: nat)
    requires ComeAfter(p, first, base, all) && n <= |all|
    ensures ComeAfter(p, first, base, all[..n])
  {
    forall i, q | 0 <= i < n && q in first(all[..n][i]) && q !in base
      ensures exists j :: 0 <= j < i && all[..n][j] == q
    {
      assert all[..n][i] == all[i];
      var j :| 0 <= j < i && all[j] == q;
      assert all[..n][j] == q;
    }
  }

  lemma ElementsTogether(a: seq<TxId>, b: seq<TxId>)
    ensures Elements(a + b) == Elements(a) + Elements(b)
  {
    assert forall x :: x in Elements(a + b) <==> x in Elements(a) + Elements(b);
  }

  /** A block with the first part of a sorted package is in order as well. */
  lemma PartGrown(p: Pool, base: set<TxId>, done: set<TxId>, added: seq<TxId>, package: set<TxId>, sorted: seq<TxId>, n: nat)
    requires Grown(p, base, done, added) && Grown(p, base, done + package, added + sorted)
    requires Lists(sorted, package) && package !! done && n <= |sorted|
    ensures Grown(p, base, done + Elements(sorted[..n]), added + sorted[..n])
  {
    hide ComeAfter, Acyclic, Lists;
    var all, part := added + sorted, Elements(sorted[..n]);
    assert all[..|added| + n] == added + sorted[..n];
    PartIsListed(all, done + package - base, |added| + n);
    PartIsListed(sorted, package, n);
    ElementsListed(added, done - base);
    ElementsTogether(added, sorted[..n]);
    assert done + part - base == (done - base) + part;
    PartComesAfter(p, Parents(p), base, all, |added| + n);
    if Acyclic(p) { PartComesAfter(p, AllNeeds(p), base, all, |added| + n); }
  }

  /** It also has all its ancestors. */
  lemma PartClosed(p: Pool, done: set<TxId>, package: set<TxId>, sorted: seq<TxId>, n: nat)
    requires WellFormed(p) && AncestorClosed(p, done, {}) && Closed(p, package, done)
    requires Lists(sorted, package) && ComeFirst(p, Parents(p), package, sorted) && n <= |sorted|
    ensures AncestorClosed(p, done + Elements(sorted[..n]), {})
  {
    hide Linked, ComeFirst, Lists, Closed;
    var part := done + Elements(sorted[..n]);
    forall t | t in part ensures t in p.ancestors && p.ancestors[t] <= part + {} {
      if t !in done {
        var k :| 0 <= k < n && sorted[k] == t;
        AncestorsBefore(p, done, package, sorted, k);
        assert Elements(sorted[..k]) <= Elements(sorted[..n]);
      }
    }
  }

  lemma {:induction false} AncestorsBefore(p: Pool, done: set<TxId>, package: set<TxId>, sorted: seq<TxId>, k: nat)
    requires WellFormed(p) && AncestorClosed(p, done, {}) && Closed(p, package, done)
    requires Lists(sorted, package) && ComeFirst(p, Parents(p), package, sorted) && k < |sorted|
    ensures sorted[k] in p.ancestors && p.ancestors[sorted[k]] <= done + Elements(sorted[..k])
    decreases k
  {
    hide Linked, Lists, AncestorsOf;
    ListsElements(sorted, package);
    var t := sorted[k];
    forall x | x in p.ancestors[t] ensures x in done + Elements(sorted[..k]) {
      var q := ParentTowards(p, t, x);
      ParentIsNear(p, package, done, t, q);
      if q in package {
        assert q in Parents(p)(sorted[k]);
        var j :| 0 <= j < k && sorted[j] == q;
        AncestorsBefore(p, done, package, sorted, j);
        assert sorted[..k][j] == q;
        assert Elements(sorted[..j]) <= Elements(sorted[..k]);
      }
    }
  }

  /** The parent that is the ancestor x, or that has it. */
  lemma ParentTowards(p: Pool, t: TxId, x: TxId) returns (q: TxId)
    requires WellFormed(p) && t in p.txs && x in p.ancestors[t]
    ensures q in p.txs[t].parents && q in p.ancestors && (x == q || x in p.ancestors[q])
  {
    assert AncestorsOf(p, t, p.ancestors[t]);
    if x in p.txs[t].parents { return x; }
    q :| q in p.txs[t].parents && q in p.ancestors && x in p.ancestors[q];
  }

  lemma ParentIsNear(p: Pool, package: set<TxId>, done: set<TxId>, t: TxId, q: TxId)
    requires WellFormed(p) && Closed(p, package, done) && t in package && q in p.txs[t].parents
    ensures q in package + done
  {
    ClosedHasNeeds(p, package, done, t);
  }

  /** If nothing runs in circles, the vote locks are there too. */
  lemma LocksAreThere(p: Pool, base: set<TxId>, done: set<TxId>, added: seq<TxId>)
    requires Acyclic(p) && Grown(p, base, done, added)
    ensures LockClosed(p, done - base, done)
  {
    hide Acyclic;
    ListsElements(added, done - base);
    forall t, l | t in done - base && l in Locks(p, t) ensures l in done {
      assert l in AllNeeds(p)(t);
    }
  }

  // ----- shielded transactions ---------------------------------------------

  const MAX_BLOCK_SHIELDED_TXES_SIZE: int := 750000

  function ShieldedSize(p: Pool): TxId -> int {
    t => if t in p.txs && p.txs[t].isShielded then p.txs[t].size else 0
  }

  /** t may follow after used bytes of shielded transactions. */
  predicate Admits(p: Pool, maintenance: bool, used: int, t: TxId) {
    t in p.txs && p.txs[t].isShielded ==> !maintenance && used + p.txs[t].size <= MAX_BLOCK_SHIELDED_TXES_SIZE
  }

  /** If there is a shielded one among news, no maintenance is on and the bytes are within the limit. */
  ghost predicate Admitted(p: Pool, maintenance: bool, used: int, news: set<TxId>) {
    forall t <- news :: t in p.txs && p.txs[t].isShielded ==> !maintenance && used <= MAX_BLOCK_SHIELDED_TXES_SIZE
  }

  /** The shielded ones among news have been counted, and were admitted. */
  ghost predicate Counted(p: Pool, maintenance: bool, before: int, now: int, news: set<TxId>) {
    now == before + Sum(ShieldedSize(p), news) && Admitted(p, maintenance, now, news)
  }

  lemma CountedNothing(p: Pool, maintenance: bool, used: int)
    ensures Counted(p, maintenance, used, used, {})
  {
  }

  lemma CountedMore(p: Pool, maintenance: bool, before: int, now: int, news: set<TxId>, t: TxId)
    requires Counted(p, maintenance, before, now, news) && t !in news && Admits(p, maintenance, now, t)
    ensures Counted(p, maintenance, before, now + ShieldedSize(p)(t), news + {t})
  {
    hide Sum;
    assert news + {t} - {t} == news;
    SumOne(ShieldedSize(p), news + {t}, t);
  }

  lemma NextIsNew(s: seq<TxId>, package: set<TxId>, i: nat)
    requires Lists(s, package) && i < |s|
    ensures s[..i + 1] == s[..i] + [s[i]] && s[i] !in Elements(s[..i]) && s[i] in package
    ensures Elements(s[..i + 1]) == Elements(s[..i]) + {s[i]}
  {
    ListsElements(s, package);
    ElementsTogether(s[..i], [s[i]]);
    if s[i] in Elements(s[..i]) {
      var k :| 0 <= k < i && s[k] == s[i];
      ListsOnce(s, package, k, i);
    }
  }
}
