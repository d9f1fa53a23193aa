/** Selection of mempool packages for a block under construction. */
module BlockAssembly {
  import opened Mempool
  import opened PackageOrder
  import opened PackageTotals
  import opened PackageRoom
  import opened BlockGrowth
  import opened BlockCuts

  const MAX_BLOCK_SIGOPS_CURRENT: int := 2000000 / 50

  /** The size and the sigops set aside for the coinbase. */
  const COINBASE_SIZE: int := 1000
  const COINBASE_SIGOPS: int := 100

  /** Stands for no transaction where the update is between two of them. */
  const NO_TX: TxId := TxId(0)

  function ListOf(weight: TxId -> int, s: seq<TxId>): seq<int> {
    seq(|s|, (i: nat) requires i < |s| => weight(s[i]))
  }

  lemma ListOfAppend(weight: TxId -> int, s: seq<TxId>, r: seq<TxId>)
    ensures ListOf(weight, s + r) == ListOf(weight, s) + ListOf(weight, r)
  {
  }

  /** The block template and its counters. */
  datatype Template = Template(vtx: seq<TxId>, vTxFees: seq<int>, vTxSigOps: seq<int>,
                               size: int, txs: int, sigOps: int, fees: int)

  /** after is before with added appended, and the counters have grown by exactly what
      the transactions of added weigh. */
  ghost predicate Filled(p: Pool, before: Template, after: Template, news: set<TxId>, added: seq<TxId>) {
    && after.vtx == before.vtx + added
    && after.vTxFees == before.vTxFees + ListOf(Fee(p), added)
    && after.vTxSigOps == before.vTxSigOps + ListOf(SigOps(p), added)
    && after.txs == before.txs + |added|
    && after.size == before.size + Sum(Size(p), news)
    && after.sigOps == before.sigOps + Sum(SigOps(p), news)
    && after.fees == before.fees + Sum(Fee(p), news)
  }

  lemma FilledByNothing(p: Pool, before: Template, base: set<TxId>)
    ensures Filled(p, before, before, base - base, [])
  {
    assert base - base == {};
  }

  lemma FilledOneMore(p: Pool, a: Template, b: Template, c: Template, news: set<TxId>, added: seq<TxId>, t: TxId)
    requires Filled(p, a, b, news, added) && t in p.txs && t !in news
    requires c == Template(b.vtx + [t], b.vTxFees + [p.txs[t].fee], b.vTxSigOps + [p.txs[t].sigOps],
                           b.size + p.txs[t].size, b.txs + 1, b.sigOps + p.txs[t].sigOps, b.fees + p.txs[t].fee)
    ensures Filled(p, a, c, news + {t}, added + [t])
  {
    hide Sum;
    assert news + {t} - {t} == news;
    SumOne(Size(p), news + {t}, t);
    SumOne(SigOps(p), news + {t}, t);
    SumOne(Fee(p), news + {t}, t);
  }

  /** Appending nothing changes nothing. */
  lemma FilledWithNothing(p: Pool, before: Template, after: Template)
    requires Filled(p, before, after, {}, [])
    ensures after == before
  {
  }

  lemma FilledFurther(p: Pool, a: Template, b: Template, c: Template, base: set<TxId>, done: set<TxId>,
                      added: seq<TxId>, package: set<TxId>, sorted: seq<TxId>)
    requires Filled(p, a, b, done - base, added) && Filled(p, b, c, package, sorted)
    requires base <= done && package !! done
    ensures Filled(p, a, c, done + package - base, added + sorted)
  {
    hide Sum, ListOf;
    ListOfAppend(Fee(p), added, sorted);
    ListOfAppend(SigOps(p), added, sorted);
    SumGrows(p, Size(p), base, done, package);
    SumGrows(p, SigOps(p), base, done, package);
    SumGrows(p, Fee(p), base, done, package);
  }

  lemma SumGrows(p: Pool, weight: TxId -> int, base: set<TxId>, done: set<TxId>, package: set<TxId>)
    requires base <= done && package !! done
    ensures Sum(weight, done + package - base) == Sum(weight, done - base) + Sum(weight, package)
  {
    hide Sum;
    assert done + package - base == (done - base) + package;
    SumUnion(weight, done - base, package);
  }

  /** An entry with its transaction, as the comparator sees it. */
  datatype Scored = Scored(t: TxId, e: ModEntry)

  /** Why the selection ended: there was nothing left to look at, or the entry e of t, the
      best left, did not pay the relay fee; or it has not ended in the rounds it was given. */
  datatype Stop = RanOut | LowFee(t: TxId, e: ModEntry) | OutOfRounds

  /** What the selection has done so far: where it started from, with used bytes of shielded
      transactions; what it appended; the packages it cut short; and, up to the first of them,
      what it appended, in whole packages, the blocks it went through, and what it took them for. */
  datatype Log = Log(start: Template, base: set<TxId>, used: int, added: seq<TxId>, cuts: seq<Cut>,
                     whole: seq<TxId>, blocks: seq<set<TxId>>, takes: seq<Take>)

  /** The transaction that a package was taken for, with its entry, and those that had failed. */
  datatype Take = Take(t: TxId, e: ModEntry, failed: set<TxId>)

  /** A package of which nothing went in, tried for a modified entry. */
  predicate AtOnce(c: Cut) { c.modified && c.upTo == 0 }

  class BlockAssembler {
    const mempool: Pool
    /** The transactions of the pool, best ancestor score first. */
    const byScore: seq<TxId>
    const nBlockMaxSize: nat
    /** minRelayTxFee.GetFee. */
    const minFee: int -> int
    /** CompareModifiedEntry, a comparison of rounded products, then of hashes. */
    const better: (Scored, Scored) -> bool
    /** Whether SPORK_20_SAPLING_MAINTENANCE is active. */
    const maintenance: bool

    var vtx: seq<TxId>
    var vTxFees: seq<int>
    var vTxSigOps: seq<int>
    var nBlockSize: int
    var nBlockTx: int
    var nBlockSigOps: int
    var nFees: int
    var nSizeShielded: int
    var inBlock: set<TxId>

    constructor (mempool: Pool, byScore: seq<TxId>, nBlockMaxSize: nat, minFee: int -> int,
                 better: (Scored, Scored) -> bool, maintenance: bool)
      ensures this.mempool == mempool && this.byScore == byScore && this.nBlockMaxSize == nBlockMaxSize
      ensures this.minFee == minFee && this.better == better && this.maintenance == maintenance
      ensures vtx == [] && vTxFees == [-1] && vTxSigOps == [-1] && inBlock == {}
      ensures nBlockSize == COINBASE_SIZE && nBlockSigOps == COINBASE_SIGOPS && nBlockTx == 0 && nFees == 0
      ensures nSizeShielded == 0
    {
      this.mempool, this.byScore, this.nBlockMaxSize := mempool, byScore, nBlockMaxSize;
      this.minFee, this.better, this.maintenance := minFee, better, maintenance;
      vtx, vTxFees, vTxSigOps, inBlock := [], [-1], [-1], {};
      nBlockSize, nBlockSigOps, nBlockTx, nFees, nSizeShielded := COINBASE_SIZE, COINBASE_SIGOPS, 0, 0, 0;
    }

    function Contents(): Template
      reads this`vtx, this`vTxFees, this`vTxSigOps, this`nBlockSize, this`nBlockTx, this`nBlockSigOps, this`nFees
    {
      Template(vtx, vTxFees, vTxSigOps, nBlockSize, nBlockTx, nBlockSigOps, nFees)
    }

    /** Removes what is in the block already. */
    method onlyUnconfirmed(testSet: set<TxId>) returns (r: set<TxId>)
      ensures r == testSet - inBlock
    {
      r := testSet;
      var rest := testSet;
      while rest != {}
        invariant rest <= testSet && r == testSet - (inBlock - rest)
        decreases |rest|
      {
        var t :| t in rest;
        if t in inBlock { r := r - {t}; }
        rest := rest - {t};
      }
    }

    predicate TestPackage(packageSize: int, packageSigOps: int)
      reads this`nBlockSize, this`nBlockSigOps
    {
      nBlockSize + packageSize < nBlockMaxSize && nBlockSigOps + packageSigOps < MAX_BLOCK_SIGOPS_CURRENT
    }

    function RoomLeft(): Room
      reads this`nBlockSize, this`nBlockSigOps
    {
      Room(nBlockMaxSize - nBlockSize, MAX_BLOCK_SIGOPS_CURRENT - nBlockSigOps)
    }

    method TestPackageFinality(package: set<TxId>) returns (ok: bool)
      requires package <= mempool.txs.Keys
      ensures ok <==> forall t <- package :: mempool.txs[t].isFinal
    {
      var rest := package;
      while rest != {}
        invariant rest <= package && forall t <- package :: t !in rest ==> mempool.txs[t].isFinal
        decreases |rest|
      {
        var t :| t in rest;
        if !mempool.txs[t].isFinal { return false; }
        rest := rest - {t};
      }
      ok := true;
    }

    predicate SkipMapTxEntry(t: TxId, mod: map<TxId, ModEntry>, failed: set<TxId>)
      reads this`inBlock
    {
      t in mod || t in inBlock || t in failed
    }

    method AddToBlock(t: TxId)
      requires t in mempool.txs
      modifies this
      ensures vtx == old(vtx) + [t] && inBlock == old(inBlock) + {t} && nBlockTx == old(nBlockTx) + 1
      ensures vTxFees == old(vTxFees) + [mempool.txs[t].fee] && vTxSigOps == old(vTxSigOps) + [mempool.txs[t].sigOps]
      ensures nBlockSize == old(nBlockSize) + mempool.txs[t].size
      ensures nBlockSigOps == old(nBlockSigOps) + mempool.txs[t].sigOps
      ensures nFees == old(nFees) + mempool.txs[t].fee && nSizeShielded == old(nSizeShielded)
    {
      var tx := mempool.txs[t];
      vtx := vtx + [t];
      vTxFees := vTxFees + [tx.fee];
      vTxSigOps := vTxSigOps + [tx.sigOps];
      nBlockSize := nBlockSize + tx.size;
      nBlockTx := nBlockTx + 1;
      nBlockSigOps := nBlockSigOps + tx.sigOps;
      nFees := nFees + tx.fee;
      inBlock := inBlock + {t};
    }

    /** The entry of desc once `it` is in the block. The source takes the modified fee off an
        entry it makes, and the plain fee off one it updates. */
    method WithoutParent(desc: TxId, it: TxId, mod: map<TxId, ModEntry>) returns (e: ModEntry)
      requires desc in mempool.txs && it in mempool.txs
      ensures var b, tx := if desc in mod then mod[desc] else CachedEntry(mempool, desc), mempool.txs[it];
              && e.size == b.size - tx.size && e.sigOps == b.sigOps - tx.sigOps
              && e.modFees == b.modFees - (if desc in mod then tx.fee else tx.modFee)
    {
      var tx := mempool.txs[it];
      if desc !in mod {
        var c := CachedEntry(mempool, desc);
        e := ModEntry(c.size - tx.size, c.modFees - tx.modFee, c.sigOps - tx.sigOps);
      } else {
        var c := mod[desc];
        e := ModEntry(c.size - tx.size, c.modFees - tx.fee, c.sigOps - tx.sigOps);
      }
    }

    /** Makes or updates the entries of everything that depends on `it`, one of added. */
    method UpdateDescendants(added: set<TxId>, ghost seen: set<TxId>, it: TxId, ghost mod0: map<TxId, ModEntry>,
                             before: map<TxId, ModEntry>)
      returns (mod: map<TxId, ModEntry>)
      requires WellFormed(mempool) && mod0.Keys <= mempool.txs.Keys
      requires it in mempool.txs && it in added && it !in seen
      requires UpdatedSoFar(mempool, added, seen, NO_TX, {}, mod0, before)
      ensures UpdatedSoFar(mempool, added, seen + {it}, NO_TX, {}, mod0, mod)
    {
      hide Linked, UpdatedSoFar, Sum, Unprioritised;
      mod := before;
      VisitedNone(mempool, added, seen, NO_TX, it, mod0, mod);
      ghost var visited: set<TxId> := {};
      var descendants := Descendants(mempool, it);
      while descendants != {}
        invariant descendants <= Descendants(mempool, it)
        invariant visited == Descendants(mempool, it) - descendants - added
        invariant UpdatedSoFar(mempool, added, seen, it, visited, mod0, mod)
        decreases |descendants|
      {
        var desc :| desc in descendants;
        descendants := descendants - {desc};
        if desc !in added {
          var e := WithoutParent(desc, it, mod);
          PlainFee(it);
          VisitKeeps(mempool, added, seen, it, visited, desc, mod0, mod, e);
          mod := mod[desc := e];
          visited := visited + {desc};
        }
      }
      VisitedAll(mempool, added, seen, it, visited, NO_TX, mod0, mod);
    }

    lemma PlainFee(t: TxId)
      requires t in mempool.txs
      ensures Unprioritised(mempool) ==> mempool.txs[t].fee == mempool.txs[t].modFee
    {
    }

    /** Makes or updates the entries of everything that depends on added. */
    method UpdatePackagesForAdded(added: set<TxId>, mod0: map<TxId, ModEntry>) returns (mod: map<TxId, ModEntry>)
      requires WellFormed(mempool) && added <= mempool.txs.Keys && mod0.Keys <= mempool.txs.Keys
      ensures Updated(mempool, added, mod0, mod)
    {
      hide Linked, UpdatedSoFar, Updated, Sum;
      mod := mod0;
      var todo := added;
      UpdateStarts(mempool, added, NO_TX, mod);
      assert added - todo == {};
      while todo != {}
        invariant todo <= added
        invariant UpdatedSoFar(mempool, added, added - todo, NO_TX, {}, mod0, mod)
        decreases |todo|
      {
        var it :| it in todo;
        mod := UpdateDescendants(added, added - todo, it, mod0, mod);
        assert added - (todo - {it}) == (added - todo) + {it};
        todo := todo - {it};
      }
      assert added - todo == added;
      UpdateEnds(mempool, added, NO_TX, mod0, mod);
    }

    /** Adds the vote locks that members of the package name, with their ancestors, until
        nothing is missing: the smallest package that is closed. */
    method AddGovDependencies(ancestors0: set<TxId>) returns (ancestors: set<TxId>)
      requires WellFormed(mempool) && ancestors0 <= mempool.txs.Keys && ancestors0 !! inBlock
      requires AncestorClosed(mempool, ancestors0, inBlock)
      ensures Closed(mempool, ancestors, inBlock) && ancestors0 <= ancestors
      ensures forall s :: ancestors0 <= s && AncestorClosed(mempool, s, inBlock) && LockClosed(mempool, s, inBlock) ==> ancestors <= s
    {
      hide Linked, AncestorClosed;
      ancestors := ancestors0;
      var addedGovDependencies := true;
      while addedGovDependencies
        invariant ancestors0 <= ancestors <= mempool.txs.Keys && ancestors !! inBlock
        invariant AncestorClosed(mempool, ancestors, inBlock)
        invariant forall s :: ancestors0 <= s && AncestorClosed(mempool, s, inBlock) && LockClosed(mempool, s, inBlock) ==> ancestors <= s
        invariant !addedGovDependencies ==> LockClosed(mempool, ancestors, inBlock)
        decreases mempool.txs.Keys - ancestors, addedGovDependencies
      {
        addedGovDependencies := false;
        var current := ancestors;
        var rest := current;
        while rest != {}
          invariant rest <= current <= ancestors <= mempool.txs.Keys && ancestors !! inBlock
          invariant AncestorClosed(mempool, ancestors, inBlock)
          invariant forall s :: ancestors0 <= s && AncestorClosed(mempool, s, inBlock) && LockClosed(mempool, s, inBlock) ==> ancestors <= s
          invariant addedGovDependencies <==> ancestors != current
          invariant forall c <- current :: c !in rest ==> Locks(mempool, c) <= ancestors + inBlock
          decreases |rest|
        {
          var candidate :| candidate in rest;
          rest := rest - {candidate};
          var grown: bool;
          ancestors, grown := AddLocksOf(candidate, ancestors0, ancestors);
          if grown { addedGovDependencies := true; }
        }
      }
    }

    /** The vote locks that candidate names. */
    method AddLocksOf(candidate: TxId, ghost ancestors0: set<TxId>, before: set<TxId>)
      returns (ancestors: set<TxId>, grown: bool)
      requires WellFormed(mempool) && before <= mempool.txs.Keys && before !! inBlock && candidate in before
      requires AncestorClosed(mempool, before, inBlock)
      requires forall s :: ancestors0 <= s && AncestorClosed(mempool, s, inBlock) && LockClosed(mempool, s, inBlock) ==> before <= s
      ensures before <= ancestors <= mempool.txs.Keys && ancestors !! inBlock
      ensures AncestorClosed(mempool, ancestors, inBlock)
      ensures Locks(mempool, candidate) <= ancestors + inBlock
      ensures grown <==> ancestors != before
      ensures forall s :: ancestors0 <= s && AncestorClosed(mempool, s, inBlock) && LockClosed(mempool, s, inBlock) ==> ancestors <= s
    {
      hide Linked;
      ancestors, grown := before, false;
      var refs := mempool.txs[candidate].lockRefs;
      for i := 0 to |refs|
        invariant before <= ancestors <= mempool.txs.Keys && ancestors !! inBlock
        invariant AncestorClosed(mempool, ancestors, inBlock)
        invariant forall s :: ancestors0 <= s && AncestorClosed(mempool, s, inBlock) && LockClosed(mempool, s, inBlock) ==> ancestors <= s
        invariant grown <==> ancestors != before
        invariant forall k :: 0 <= k < i && refs[k] in mempool.txs ==> refs[k] in ancestors + inBlock
      {
        var lock := refs[i];
        if lock !in mempool.txs || lock in inBlock { continue; }
        if lock !in ancestors {
          var lockAncestors := onlyUnconfirmed(mempool.ancestors[lock]);
          LockJoins(mempool, ancestors, inBlock, lock);
          forall s | ancestors0 <= s && AncestorClosed(mempool, s, inBlock) && LockClosed(mempool, s, inBlock)
            ensures ancestors + lockAncestors + {lock} <= s
          {
            assert candidate in s && lock in Locks(mempool, candidate);
          }
          ancestors := ancestors + lockAncestors + {lock};
          grown := true;
        }
      }
    }

    /** What the package weighs. */
    method PackageWeighs(package: set<TxId>) returns (size: int, modFees: int, sigOps: int)
      requires package <= mempool.txs.Keys
      ensures size == Sum(Size(mempool), package) && modFees == Sum(ModFee(mempool), package)
      ensures sigOps == Sum(SigOps(mempool), package)
    {
      hide Sum;
      size, modFees, sigOps := 0, 0, 0;
      var rest := package;
      assert package - rest == {};
      SumEmpty(Size(mempool));
      SumEmpty(ModFee(mempool));
      SumEmpty(SigOps(mempool));
      while rest != {}
        invariant rest <= package
        invariant size == Sum(Size(mempool), package - rest) && modFees == Sum(ModFee(mempool), package - rest)
        invariant sigOps == Sum(SigOps(mempool), package - rest)
        decreases |rest|
      {
        var t :| t in rest;
        assert package - (rest - {t}) - {t} == package - rest;
        SumOne(Size(mempool), package - (rest - {t}), t);
        SumOne(ModFee(mempool), package - (rest - {t}), t);
        SumOne(SigOps(mempool), package - (rest - {t}), t);
        size := size + mempool.txs[t].size;
        modFees := modFees + mempool.txs[t].modFee;
        sigOps := sigOps + mempool.txs[t].sigOps;
        rest := rest - {t};
      }
      assert package - rest == package;
    }

    /** Counts a shielded transaction, unless it may not follow. */
    method CountShielded(t: TxId) returns (ok: bool)
      requires t in mempool.txs
      modifies this`nSizeShielded
      ensures ok <==> Admits(mempool, maintenance, old(nSizeShielded), t)
      ensures nSizeShielded == old(nSizeShielded) + if ok then ShieldedSize(mempool)(t) else 0
    {
      if mempool.txs[t].isShielded {
        if maintenance { return false; }
        if nSizeShielded + mempool.txs[t].size > MAX_BLOCK_SHIELDED_TXES_SIZE { return false; }
        nSizeShielded := nSizeShielded + mempool.txs[t].size;
      }
      ok := true;
    }

    /** Appends the sorted package, up to the first shielded transaction that may not follow,
        and erases the modified entries of what it appends. */
    method AddSorted(sorted: seq<TxId>, ghost package: set<TxId>, ghost base: set<TxId>, ghost used: int, mod0: map<TxId, ModEntry>)
      returns (mod: map<TxId, ModEntry>, upTo: nat)
      requires package <= mempool.txs.Keys && Lists(sorted, package) && package !! inBlock && base <= inBlock
      requires Counted(mempool, maintenance, used, nSizeShielded, inBlock - base)
      modifies this
      ensures upTo <= |sorted| && inBlock == old(inBlock) + Elements(sorted[..upTo])
      ensures Filled(mempool, old(Contents()), Contents(), Elements(sorted[..upTo]), sorted[..upTo])
      ensures mod == mod0 - Elements(sorted[..upTo])
      ensures Counted(mempool, maintenance, used, nSizeShielded, inBlock - base)
      ensures upTo < |sorted| ==> !Admits(mempool, maintenance, nSizeShielded, sorted[upTo])
      ensures upTo > 0 ==> Admits(mempool, maintenance, old(nSizeShielded), sorted[0])
    {
      hide Sum, Lists, Filled, Counted, Admits, Elements;
      mod, upTo := mod0, 0;
      FilledByNothing(mempool, Contents(), inBlock);
      NoElements();
      assert sorted[..0] == [] && inBlock - inBlock == {};
      for i := 0 to |sorted|
        invariant upTo == i && inBlock == old(inBlock) + Elements(sorted[..i])
        invariant Filled(mempool, old(Contents()), Contents(), Elements(sorted[..i]), sorted[..i])
        invariant mod == mod0 - Elements(sorted[..i])
        invariant if i == 0 then nSizeShielded == old(nSizeShielded) else Admits(mempool, maintenance, old(nSizeShielded), sorted[0])
        invariant Counted(mempool, maintenance, used, nSizeShielded, inBlock - base)
      {
        var t := sorted[i];
        NextIsNew(sorted, package, i);
        ghost var was, counted := Contents(), nSizeShielded;
        var ok := CountShielded(t);
        if !ok { return; }
        CountedMore(mempool, maintenance, used, counted, inBlock - base, t);
        AddToBlock(t);
        mod := mod - {t};
        upTo := i + 1;
        FilledOneMore(mempool, old(Contents()), was, Contents(), Elements(sorted[..i]), sorted[..i], t);
        OneMoreNew(old(inBlock) + Elements(sorted[..i]), base, t);
      }
      assert sorted[..|sorted|] == sorted;
    }

    lemma NoElements()
      ensures Elements([]) == {}
    {
    }

    lemma OneMoreNew(done: set<TxId>, base: set<TxId>, t: TxId)
      requires base <= done && t !in done
      ensures done + {t} - base == (done - base) + {t}
    {
    }

    /** The comparator is a strict weak order, which ordered containers ask for, and the pool
        lists its transactions in that order. */
    ghost predicate BetterIsOrder() {
      && (forall t <- byScore :: t in mempool.txs)
      && (forall x :: !better(x, x))
      && (forall x, y, z :: better(x, y) && better(y, z) ==> better(x, z))
      && (forall x, y, z :: better(x, z) ==> better(x, y) || better(y, z))
      && (forall i, j :: 0 <= i < j < |byScore| ==> !better(Cached(byScore[j]), Cached(byScore[i])))
    }

    /** It also tells any two transactions apart, as comparing their hashes in the end does. */
    ghost predicate BetterIsTotal() {
      BetterIsOrder() && forall x: Scored, y: Scored :: x.t != y.t ==> better(x, y) || better(y, x)
    }

    function Cached(t: TxId): Scored
      requires t in mempool.txs
    {
      Scored(t, CachedEntry(mempool, t))
    }

    /** No modified entry is better than that of t. */
    ghost predicate IsBest(mod: map<TxId, ModEntry>, t: TxId) {
      t in mod && (BetterIsOrder() ==> forall x <- mod :: !better(Scored(x, mod[x]), Scored(t, mod[t])))
    }

    /** Of the modified entries and the cached ones from mi on, none is better than c. */
    ghost predicate NoneBetter(mi: nat, mod: map<TxId, ModEntry>, c: Scored)
      requires forall t <- byScore :: t in mempool.txs
    {
      && (forall x <- mod :: !better(Scored(x, mod[x]), c))
      && (forall k :: mi <= k < |byScore| ==> !better(Cached(byScore[k]), c))
    }

    /** The first of the modified entries in the order of the comparator. */
    method BestModified(mod: map<TxId, ModEntry>) returns (best: TxId)
      requires mod != map[]
      ensures IsBest(mod, best)
    {
      best :| best in mod;
      var rest := mod.Keys - {best};
      while rest != {}
        invariant best in mod && rest <= mod.Keys && best !in rest
        invariant BetterIsOrder() ==> forall x <- mod :: x !in rest && x != best ==> !better(Scored(x, mod[x]), Scored(best, mod[best]))
        decreases |rest|
      {
        var x :| x in rest;
        rest := rest - {x};
        if better(Scored(x, mod[x]), Scored(best, mod[best])) { best := x; }
      }
    }

    /** The entry to evaluate next: the best modified one, if it beats the cached one or
        there is no cached one left. */
    method ChooseEntry(mi: nat, mod: map<TxId, ModEntry>) returns (t: TxId, fUsingModified: bool, e: ModEntry)
      requires mi < |byScore| || mod != map[]
      requires forall x <- byScore :: x in mempool.txs
      ensures fUsingModified ==> t in mod && e == mod[t]
      ensures fUsingModified && mi < |byScore| ==> better(Scored(t, e), Cached(byScore[mi]))
      ensures !fUsingModified ==> mi < |byScore| && t == byScore[mi] && e == CachedEntry(mempool, t)
      ensures BetterIsOrder() ==> NoneBetter(mi, mod, Scored(t, e))
    {
      if mod == map[] {
        t := byScore[mi];
        return t, false, CachedEntry(mempool, t);
      }
      var best := BestModified(mod);
      if mi < |byScore| && !better(Scored(best, mod[best]), Cached(byScore[mi])) {
        t := byScore[mi];
        return t, false, CachedEntry(mempool, t);
      }
      return best, true, mod[best];
    }

    /** t with everything that has to go into the block with it. */
    method GatherPackage(t: TxId) returns (package: set<TxId>)
      requires WellFormed(mempool) && t in mempool.txs && t !in inBlock
      ensures Least(mempool, t, package, inBlock)
    {
      hide Linked, LockClosed;
      package := onlyUnconfirmed(mempool.ancestors[t]);
      assert AncestorClosed(mempool, {}, inBlock);
      LockJoins(mempool, {}, inBlock, t);
      assert {} + (mempool.ancestors[t] - inBlock) + {t} == package + {t};
      ghost var least := package + {t};
      package := AddGovDependencies(package + {t});
      forall s | t in s && AncestorClosed(mempool, s, inBlock) && LockClosed(mempool, s, inBlock)
        ensures package <= s
      {
        assert least <= s;
      }
    }

    /** What the selection keeps in any case. */
    ghost predicate Growing(base: set<TxId>, done: set<TxId>, added: seq<TxId>, mod: map<TxId, ModEntry>) {
      && WellFormed(mempool) && TotalsCached(mempool)
      && done <= mempool.txs.Keys && mod.Keys <= mempool.txs.Keys - done
      && AncestorClosed(mempool, done, {})
      && Grown(mempool, base, done, added)
    }

    /** What it keeps from one round to the next until a package is cut short. */
    ghost predicate Selecting(base: set<TxId>, done: set<TxId>, added: seq<TxId>, mod: map<TxId, ModEntry>, failed: set<TxId>) {
      && Growing(base, done, added, mod)
      && LockClosed(mempool, done - base, done)
      && Tracked(mempool, done, mod, failed)
    }

    lemma SelectingStarts(base: set<TxId>, mod: map<TxId, ModEntry>)
      requires WellFormed(mempool) && TotalsCached(mempool) && base <= mempool.txs.Keys && AncestorClosed(mempool, base, {})
      requires Updated(mempool, base, map[], mod)
      ensures Selecting(base, base, [], mod, {})
    {
      hide Linked, TotalsCached, Sum, Tracked, Grown, Updated;
      GrownAtFirst(mempool, base);
      NothingTracked(mempool);
      var none: map<TxId, ModEntry> := map[];
      assert none - base == none;
      assert {} + base == base;
      UpdateTracks(mempool, {}, base, map[], {}, mod);
      assert base - base == {};
      TrackedKeys(base, mod, {});
    }

    lemma TrackedKeys(done: set<TxId>, mod: map<TxId, ModEntry>, failed: set<TxId>)
      requires WellFormed(mempool) && Tracked(mempool, done, mod, failed)
      ensures mod.Keys <= mempool.txs.Keys - done
    {
    }

    lemma SelectingErases(base: set<TxId>, done: set<TxId>, added: seq<TxId>, mod: map<TxId, ModEntry>, failed: set<TxId>, t: TxId)
      requires Selecting(base, done, added, mod, failed) && t in mod
      ensures Selecting(base, done, added, mod - {t}, failed + {t})
    {
      hide Linked, TotalsCached, Sum, Tracked, Grown, AncestorClosed, LockClosed;
      EraseTracks(mempool, done, mod, failed, t);
    }

    /** Taking a part of a package keeps the first of the two. */
    lemma GrowingKept(base: set<TxId>, done: set<TxId>, added: seq<TxId>, mod: map<TxId, ModEntry>,
                      package: set<TxId>, sorted: seq<TxId>, n: nat, after: map<TxId, ModEntry>)
      requires Growing(base, done, added, mod) && Closed(mempool, package, done) && n <= |sorted|
      requires Lists(sorted, package) && ComeFirst(mempool, Parents(mempool), package, sorted)
      requires Orderable(mempool, package) ==> ComeFirst(mempool, AllNeeds(mempool), package, sorted)
      requires Updated(mempool, package, mod - Elements(sorted[..n]), after)
      ensures Growing(base, done + Elements(sorted[..n]), added + sorted[..n], after)
    {
      hide Linked, TotalsCached, Sum, Grown, AncestorClosed, LockClosed, Updated, ComeFirst, Lists, Orderable;
      PartIsListed(sorted, package, n);
      PartClosed(mempool, done, package, sorted, n);
      GrownByPackage(mempool, base, done, added, package, sorted);
      GrownIsListed(mempool, base, done, added);
      PartGrown(mempool, base, done, added, package, sorted, n);
      KeysAfterUpdate(done, package, Elements(sorted[..n]), mod, after);
    }

    lemma GrownIsListed(p: Pool, base: set<TxId>, done: set<TxId>, added: seq<TxId>)
      requires Grown(p, base, done, added)
      ensures Lists(added, done - base)
    {
    }

    lemma KeysAfterUpdate(done: set<TxId>, package: set<TxId>, part: set<TxId>, mod: map<TxId, ModEntry>, after: map<TxId, ModEntry>)
      requires WellFormed(mempool) && AncestorClosed(mempool, done, {}) && package <= mempool.txs.Keys && package !! done
      requires part <= package && mod.Keys <= mempool.txs.Keys - done && Updated(mempool, package, mod - part, after)
      ensures after.Keys <= mempool.txs.Keys - (done + part)
    {
      hide Linked, Sum;
      forall d | d in done ensures d !in after {
        if d in mempool.txs {
          assert CutBy(mempool, mod - part, d, mempool.ancestors[d] * package, after);
        }
      }
    }

    /** Taking a whole one keeps both. */
    lemma SelectingGrows(base: set<TxId>, done: set<TxId>, added: seq<TxId>, mod: map<TxId, ModEntry>, failed: set<TxId>,
                         package: set<TxId>, sorted: seq<TxId>, after: map<TxId, ModEntry>)
      requires Selecting(base, done, added, mod, failed) && Closed(mempool, package, done)
      requires Growing(base, done + package, added + sorted, after)
      requires Updated(mempool, package, mod - package, after)
      ensures Selecting(base, done + package, added + sorted, after, failed)
    {
      hide Linked, TotalsCached, Sum, Tracked, Grown, AncestorClosed, LockClosed, Updated;
      BlockStaysClosed(mempool, base, done, package);
      UpdateTracks(mempool, done, package, mod, failed, after);
    }

    /** blocks is what the block was in turn since the template was start. */
    ghost predicate History(start: Template, base: set<TxId>, blocks: seq<set<TxId>>, done: set<TxId>, added: seq<TxId>) {
      && Reached(mempool, minFee, RoomOf(start), blocks, added)
      && blocks[0] == base && blocks[|blocks| - 1] == done
    }

    function RoomOf(template: Template): Room {
      Room(nBlockMaxSize - template.size, MAX_BLOCK_SIGOPS_CURRENT - template.sigOps)
    }

    lemma HistoryStarts(start: Template, base: set<TxId>)
      ensures History(start, base, [base], base, [])
    {
      ReachedFirst(mempool, minFee, RoomOf(start), base);
    }

    lemma HistoryGrows(start: Template, base: set<TxId>, blocks: seq<set<TxId>>, done: set<TxId>, added: seq<TxId>, now: Template,
                       t: TxId, package: set<TxId>, sorted: seq<TxId>)
      requires History(start, base, blocks, done, added) && Filled(mempool, start, now, done - base, added)
      requires Least(mempool, t, package, done) && Fits(mempool, package, RoomOf(now)) && Pays(mempool, minFee, package)
      requires Lists(added + sorted, done + package - base)
      ensures History(start, base, blocks + [done + package], done + package, added + sorted)
    {
      hide Least, Fits, Pays, Lists, Reached, ListOf;
      RoomIsLeft(start, now, base, done, added);
      HistoryIs(start, base, blocks, done, added);
      ReachedMore(mempool, minFee, RoomOf(start), blocks, added, t, package, done + package, sorted);
    }

    lemma HistoryIs(start: Template, base: set<TxId>, blocks: seq<set<TxId>>, done: set<TxId>, added: seq<TxId>)
      requires History(start, base, blocks, done, added)
      ensures |blocks| > 0 && blocks[0] == base && blocks[|blocks| - 1] == done
    {
    }

    /** Every transaction of the first mi by score is in the block, or waits among the
        modified entries, or was turned down for good; so was everything in failed. */
    ghost predicate Considered(blocks: seq<set<TxId>>, done: set<TxId>, room: Room, mod: map<TxId, ModEntry>, failed: set<TxId>, mi: nat) {
      && (forall t <- failed :: t in mempool.txs && (t in done || TurnedDown(mempool, minFee, t, blocks, done, room)))
      && (forall k :: 0 <= k < mi <= |byScore| ==>
            byScore[k] in done || byScore[k] in mod || TurnedDown(mempool, minFee, byScore[k], blocks, done, room))
    }

    lemma ConsideredGrows(blocks: seq<set<TxId>>, done: set<TxId>, room: Room, mod: map<TxId, ModEntry>, failed: set<TxId>, mi: nat,
                          package: set<TxId>, after: map<TxId, ModEntry>)
      requires Considered(blocks, done, room, mod, failed, mi)
      requires Closed(mempool, package, done) && AllFinal(mempool, package) && mod.Keys - package <= after.Keys
      ensures Considered(blocks + [done + package], done + package,
                         Room(room.size - Sum(Size(mempool), package), room.sigOps - Sum(SigOps(mempool), package)), after, failed, mi)
    {
      hide TurnedDown, Closed, AllFinal, Sum;
      var left := Room(room.size - Sum(Size(mempool), package), room.sigOps - Sum(SigOps(mempool), package));
      forall t | TurnedDown(mempool, minFee, t, blocks, done, room)
        ensures TurnedDown(mempool, minFee, t, blocks + [done + package], done + package, left)
      {
        TurnedDownStays(mempool, minFee, t, blocks, done, room, package);
      }
    }

    /** How the selection ended: unless it stopped for a low fee, everything that is not in the
        block was turned down for good. An entry that stopped it is exact unless it failed before. */
    ghost predicate Ended(blocks: seq<set<TxId>>, done: set<TxId>, room: Room, failed: set<TxId>, stop: Stop) {
      && WellFormed(mempool)
      && (forall t <- failed :: t in done || TurnedDown(mempool, minFee, t, blocks, done, room))
      && (stop.RanOut? ==> forall t <- mempool.txs :: t in done || TurnedDown(mempool, minFee, t, blocks, done, room))
      && (stop.LowFee? ==>
            && stop.t in mempool.txs && stop.t !in done && stop.e.modFees < minFee(stop.e.size)
            && EntryTracks(mempool, done, stop.t, stop.e, stop.t !in failed)
            && BestLeft(blocks, done, room, failed, stop.t, stop.e))
    }

    /** Of all that is not in the block and was not turned down, none has a better entry than e. */
    ghost predicate BestLeft(blocks: seq<set<TxId>>, done: set<TxId>, room: Room, failed: set<TxId>, t: TxId, e: ModEntry)
      requires WellFormed(mempool)
    {
      BetterIsOrder() ==> forall x <- mempool.txs ::
        x in done || TurnedDown(mempool, minFee, x, blocks, done, room) || NotBetter(x, done, failed, Scored(t, e))
    }

    /** The step from block i to the next took the package of a transaction, whose entry was
        right unless it had failed, and the best left; what had failed was turned down. */
    ghost predicate TakeOk(start: Template, blocks: seq<set<TxId>>, i: nat, k: Take)
      requires i + 1 < |blocks|
    {
      var done, room := blocks[i], Left(mempool, RoomOf(start), blocks[0], blocks[i]);
      && WellFormed(mempool) && k.t in mempool.txs
      && Least(mempool, k.t, blocks[i + 1] - done, done)
      && EntryTracks(mempool, done, k.t, k.e, k.t !in k.failed)
      && (forall x <- k.failed :: x in done || TurnedDown(mempool, minFee, x, blocks[..i + 1], done, room))
      && BestLeft(blocks[..i + 1], done, room, k.failed, k.t, k.e)
    }

    ghost predicate TakesOk(start: Template, blocks: seq<set<TxId>>, takes: seq<Take>) {
      && |blocks| == |takes| + 1
      && forall i :: 0 <= i < |takes| ==> TakeOk(start, blocks, i, takes[i])
    }

    /** What a take needs to be right. */
    ghost predicate Takeable(blocks: seq<set<TxId>>, done: set<TxId>, room: Room, k: Take) {
      && WellFormed(mempool) && k.t in mempool.txs
      && EntryTracks(mempool, done, k.t, k.e, k.t !in k.failed)
      && (forall x <- k.failed :: x in done || TurnedDown(mempool, minFee, x, blocks, done, room))
      && BestLeft(blocks, done, room, k.failed, k.t, k.e)
    }

    lemma TakesMore(start: Template, blocks: seq<set<TxId>>, takes: seq<Take>, k: Take, package: set<TxId>)
      requires TakesOk(start, blocks, takes)
      requires var done := blocks[|blocks| - 1];
               && Least(mempool, k.t, package, done) && package !! done
               && Takeable(blocks, done, Left(mempool, RoomOf(start), blocks[0], done), k)
      ensures TakesOk(start, blocks + [blocks[|blocks| - 1] + package], takes + [k])
    {
      hide Least, EntryTracks, TurnedDown, BestLeft, WellFormed;
      var done := blocks[|blocks| - 1];
      var now, more := blocks + [done + package], takes + [k];
      assert done + package - done == package;
      forall i | 0 <= i < |more| ensures TakeOk(start, now, i, more[i]) {
        assert now[..i + 1] == blocks[..i + 1];
        if i < |takes| {
          assert TakeOk(start, blocks, i, takes[i]);
        } else {
          assert blocks[..i + 1] == blocks;
        }
      }
    }

    /** e says what x weighs in the block; exactly, unless x failed before. */
    ghost predicate Tracks(x: TxId, done: set<TxId>, e: ModEntry, failed: set<TxId>)
      requires x in mempool.ancestors
    {
      EntryTracks(mempool, done, x, e, x !in failed)
    }

    /** The entry of x, or the one it would have, is not better than c. */
    ghost predicate NotBetter(x: TxId, done: set<TxId>, failed: set<TxId>, c: Scored)
      requires x in mempool.ancestors
    {
      exists e :: Tracks(x, done, e, failed) && !better(Scored(x, e), c)
    }

    lemma EndsWithNothingLeft(blocks: seq<set<TxId>>, done: set<TxId>, room: Room, failed: set<TxId>)
      requires WellFormed(mempool) && Lists(byScore, mempool.txs.Keys)
      requires Considered(blocks, done, room, map[], failed, |byScore|)
      ensures Ended(blocks, done, room, failed, RanOut)
    {
      hide TurnedDown, Lists, Linked;
      ListsElements(byScore, mempool.txs.Keys);
      forall t | t in mempool.txs ensures t in done || TurnedDown(mempool, minFee, t, blocks, done, room) {
        assert t in byScore;
        var k :| 0 <= k < |byScore| && byScore[k] == t;
      }
    }

    /** If none of the entries left to look at is better than that of t, nothing left is. */
    lemma NoneLeftIsBetter(base: set<TxId>, blocks: seq<set<TxId>>, done: set<TxId>, room: Room, added: seq<TxId>,
                           mod: map<TxId, ModEntry>, failed: set<TxId>, mi: nat, t: TxId, e: ModEntry)
      requires Selecting(base, done, added, mod, failed) && Lists(byScore, mempool.txs.Keys)
      requires Considered(blocks, done, room, mod, failed, mi) && mi <= |byScore|
      requires (forall t <- byScore :: t in mempool.txs) && (BetterIsOrder() ==> NoneBetter(mi, mod, Scored(t, e)))
      ensures WellFormed(mempool) && BestLeft(blocks, done, room, failed, t, e)
    {
      hide TurnedDown, Linked, EntryTracks, Selecting, Lists, BetterIsOrder;
      SelectingIsWellFormed(base, done, added, mod, failed);
      ListsElements(byScore, mempool.txs.Keys);
      if BetterIsOrder() {
        forall x | x in mempool.txs && x !in done && !TurnedDown(mempool, minFee, x, blocks, done, room)
          ensures NotBetter(x, done, failed, Scored(t, e))
        {
          assert x in byScore;
          var k :| 0 <= k < |byScore| && byScore[k] == x;
          var e' := if x in mod then mod[x] else CachedEntry(mempool, x);
          EntryTracked(base, done, added, mod, failed, x, e');
        }
      }
    }

    lemma EndsForFee(base: set<TxId>, blocks: seq<set<TxId>>, done: set<TxId>, room: Room, added: seq<TxId>, mod: map<TxId, ModEntry>, failed: set<TxId>,
                     mi: nat, t: TxId, e: ModEntry)
      requires Selecting(base, done, added, mod, failed) && Lists(byScore, mempool.txs.Keys)
      requires Considered(blocks, done, room, mod, failed, mi)
      requires t in mempool.ancestors && EntryTracks(mempool, done, t, e, t !in failed)
      requires t in mempool.txs && t !in done && e.modFees < minFee(e.size) && mi <= |byScore|
      requires (forall t <- byScore :: t in mempool.txs) && (BetterIsOrder() ==> NoneBetter(mi, mod, Scored(t, e)))
      ensures Ended(blocks, done, room, failed, LowFee(t, e))
    {
      hide TurnedDown, Linked, EntryTracks, Selecting, Lists, BetterIsOrder, BestLeft, NoneBetter;
      NoneLeftIsBetter(base, blocks, done, room, added, mod, failed, mi, t, e);
    }

    /** The entry that is looked at is exact, unless it failed before. */
    lemma EntryTracked(base: set<TxId>, done: set<TxId>, added: seq<TxId>, mod: map<TxId, ModEntry>, failed: set<TxId>,
                       t: TxId, e: ModEntry)
      requires Selecting(base, done, added, mod, failed) && t in mempool.txs && t !in done
      requires if t in mod then e == mod[t] else e == CachedEntry(mempool, t) && t !in failed
      ensures t in mempool.ancestors && EntryTracks(mempool, done, t, e, t !in failed)
    {
      hide Linked, TotalsCached, Sum, Grown, AncestorClosed, LockClosed, EntryTracks;
      if t !in mod { CachedTracks(mempool, t, done); }
    }

    lemma UpdatedKeepsKeys(package: set<TxId>, mod: map<TxId, ModEntry>, gone: set<TxId>, after: map<TxId, ModEntry>)
      requires WellFormed(mempool) && mod.Keys <= mempool.txs.Keys && gone <= package && Updated(mempool, package, mod - gone, after)
      ensures mod.Keys - package <= after.Keys
    {
      hide Linked, Sum;
      forall d | d in mod.Keys - package ensures d in after {
        assert CutBy(mempool, mod - gone, d, mempool.ancestors[d] * package, after);
      }
    }

    // ----- one round ---------------------------------------------------------

    /** What holds between two rounds. */
    ghost predicate Kept(log: Log, mod: map<TxId, ModEntry>, failed: set<TxId>, mi: nat)
      reads this
    {
      KeptAt(log, Contents(), inBlock, nSizeShielded, mod, failed, mi)
    }

    ghost predicate KeptAt(log: Log, now: Template, done: set<TxId>, counted: int, mod: map<TxId, ModEntry>, failed: set<TxId>, mi: nat) {
      && mi <= |byScore| && Growing(log.base, done, log.added, mod)
      && Filled(mempool, log.start, now, done - log.base, log.added)
      && Counted(mempool, maintenance, log.used, counted, done - log.base)
      && AllFinal(mempool, done - log.base)
      && (log.added == [] || (now.size < nBlockMaxSize && now.sigOps < MAX_BLOCK_SIGOPS_CURRENT))
      && CutsOk(mempool, maintenance, log.used, log.base, done, log.cuts)
      && UntilCut(log)
      && (log.cuts == [] ==> Clean(log, done, RoomOf(now), mod, failed, mi))
    }

    /** What is known of the rounds up to the first that cut a package short. */
    ghost predicate UntilCut(log: Log) {
      && log.whole <= log.added && |log.blocks| > 0
      && History(log.start, log.base, log.blocks, log.blocks[|log.blocks| - 1], log.whole)
      && TakesOk(log.start, log.blocks, log.takes)
    }

    ghost predicate Clean(log: Log, done: set<TxId>, room: Room, mod: map<TxId, ModEntry>, failed: set<TxId>, mi: nat) {
      && log.whole == log.added && |log.blocks| > 0 && log.blocks[|log.blocks| - 1] == done
      && Selecting(log.base, done, log.added, mod, failed)
      && Considered(log.blocks, done, room, mod, failed, mi)
    }

    /** Puts a package that fits into the block and updates what depends on it. */
    method AppendPackage(ghost base: set<TxId>, ghost used: int, ghost added: seq<TxId>, package: set<TxId>,
                         mod0: map<TxId, ModEntry>, ghost failed: set<TxId>)
      returns (mod: map<TxId, ModEntry>, ghost sorted: seq<TxId>, ghost upTo: nat, cut: bool)
      requires Growing(base, inBlock, added, mod0) && Closed(mempool, package, inBlock)
      requires Counted(mempool, maintenance, used, nSizeShielded, inBlock - base)
      modifies this
      ensures Lists(sorted, package) && upTo <= |sorted| && (cut <==> upTo < |sorted|) && inBlock == old(inBlock) + Elements(sorted[..upTo])
      ensures Filled(mempool, old(Contents()), Contents(), Elements(sorted[..upTo]), sorted[..upTo])
      ensures Counted(mempool, maintenance, used, nSizeShielded, inBlock - base)
      ensures Growing(base, inBlock, added + sorted[..upTo], mod)
      ensures WellFormed(mempool) && Updated(mempool, package, mod0 - Elements(sorted[..upTo]), mod)
      ensures mod0.Keys - package <= mod.Keys
      ensures sorted != [] ==> IsFirst(mempool, package, sorted[0])
      ensures !cut ==> Elements(sorted[..upTo]) == package
      ensures !cut && Selecting(base, old(inBlock), added, mod0, failed) ==> Selecting(base, inBlock, added + sorted[..upTo], mod, failed)
      ensures cut ==> !Admits(mempool, maintenance, nSizeShielded, sorted[upTo])
      ensures upTo > 0 ==> Admits(mempool, maintenance, old(nSizeShielded), sorted[0])
    {
      hide Linked, TotalsCached, Sum, Grown, AncestorClosed, LockClosed, Updated, ComeFirst, Lists, Orderable, ListOf, Filled, Counted,
        Admits, IsFirst, Selecting, Growing;
      ghost var done := inBlock;
      GrowingIs(base, inBlock, added, mod0);
      var order := SortForBlock(mempool, package);
      sorted := order;
      var n := 0;
      mod, n := AddSorted(order, package, base, used, mod0);
      upTo, cut := n, n < |order|;
      mod := UpdatePackagesForAdded(package, mod);
      PartIsListed(order, package, upTo);
      GrowingKept(base, done, added, mod0, package, order, upTo, mod);
      UpdatedKeepsKeys(package, mod0, Elements(order[..upTo]), mod);
      if !cut {
        assert order[..upTo] == order;
        ElementsListed(order, package);
        if Selecting(base, done, added, mod0, failed) { SelectingGrows(base, done, added, mod0, failed, package, order, mod); }
      }
    }

    lemma GrowingIs(base: set<TxId>, done: set<TxId>, added: seq<TxId>, mod: map<TxId, ModEntry>)
      requires Growing(base, done, added, mod)
      ensures WellFormed(mempool) && base <= done <= mempool.txs.Keys && mod.Keys <= mempool.txs.Keys - done
      ensures Lists(added, done - base)
    {
    }

    /** A part of a package that fits fits as well. */
    lemma PartFits(package: set<TxId>, part: set<TxId>, was: Template, now: Template, added: seq<TxId>)
      requires Fits(mempool, package, RoomOf(was)) && part <= package && Filled(mempool, was, now, part, added)
      ensures now.size < nBlockMaxSize && now.sigOps < MAX_BLOCK_SIGOPS_CURRENT && AllFinal(mempool, part)
      ensures RoomOf(now) == Room(RoomOf(was).size - Sum(Size(mempool), part), RoomOf(was).sigOps - Sum(SigOps(mempool), part))
    {
      hide Sum, ListOf;
      SumOfPart(Size(mempool), part, package);
      SumOfPart(SigOps(mempool), part, package);
    }

    lemma RoomIsLeft(start: Template, now: Template, base: set<TxId>, done: set<TxId>, added: seq<TxId>)
      requires Filled(mempool, start, now, done - base, added)
      ensures RoomOf(now) == Left(mempool, RoomOf(start), base, done)
    {
      hide Sum, ListOf;
    }

    /** Takes a package that fits into the block, or as much of it as may go in. If that is
        nothing, and nothing outside depends on it, all is as before. */
    method TakePackage(ghost log0: Log, t: TxId, ghost e: ModEntry, ghost modified: bool, package: set<TxId>,
                       mod0: map<TxId, ModEntry>, ghost failed: set<TxId>, ghost mi: nat)
      returns (mod: map<TxId, ModEntry>, ghost log: Log)
      requires Kept(log0, mod0, failed, mi)
      requires Least(mempool, t, package, inBlock) && Fits(mempool, package, RoomLeft()) && Pays(mempool, minFee, package)
      requires log0.cuts == [] ==> Takeable(log0.blocks, inBlock, RoomLeft(), Take(t, e, failed))
      modifies this
      ensures Kept(log, mod, failed, mi) && old(inBlock) <= inBlock <= old(inBlock) + package
      ensures log.start == log0.start && log.base == log0.base && log.used == log0.used
      ensures log.cuts == log0.cuts ==> t in inBlock
      ensures log.cuts == log0.cuts || exists c :: log.cuts == log0.cuts + [c] && c.modified == modified && (c.upTo == 0 || inBlock != old(inBlock))
      ensures Blocked(mempool, maintenance, old(nSizeShielded), package) ==>
                mod == mod0 && inBlock == old(inBlock) && Contents() == old(Contents()) && nSizeShielded == old(nSizeShielded)
      ensures AllSized(mempool) && mod == mod0 && inBlock == old(inBlock) ==> Blocked(mempool, maintenance, old(nSizeShielded), package)
    {
      hide KeptAt, Growing, Closed, Lists, Updated, Filled, Fits, Least, AllFinal, Pays, Admits, Counted, Blocked, AllSized, IsFirst, WellFormed,
        Takeable;
      ghost var was, done, counted := Contents(), inBlock, nSizeShielded;
      KeptIs(log0, was, done, counted, mod0, failed, mi);
      FitsIsAllFinal(t, package, inBlock, RoomLeft());
      ghost var sorted, upTo;
      var cut;
      mod, sorted, upTo, cut := AppendPackage(log0.base, log0.used, log0.added, package, mod0, failed);
      NothingTaken(was, Contents(), log0.used, counted, nSizeShielded, log0.base, done, package, sorted, upTo, mod0, mod);
      PartMoves(done, package, sorted, upTo);
      PartIsListed(sorted, package, upTo);
      log := Logged(log0, t, e, failed, modified, package, sorted, upTo, done, nSizeShielded);
      Taken(log0, t, e, modified, package, sorted, upTo, was, Contents(), done, nSizeShielded, mod0, mod, failed, mi);
    }

    /** The log after a round that took the first upTo of a package. */
    ghost function Logged(log: Log, t: TxId, e: ModEntry, failed: set<TxId>, modified: bool, package: set<TxId>, sorted: seq<TxId>, upTo: nat, done: set<TxId>, counted: int): Log
      requires upTo <= |sorted|
    {
      var added := log.added + sorted[..upTo];
      if upTo < |sorted| then
        log.(added := added, cuts := log.cuts + [Cut(t, modified, package, sorted, upTo, done, counted)])
      else if log.cuts == [] then
        log.(added := added, whole := added, blocks := log.blocks + [done + package], takes := log.takes + [Take(t, e, failed)])
      else
        log.(added := added)
    }

    lemma Taken(log: Log, t: TxId, e: ModEntry, modified: bool, package: set<TxId>, sorted: seq<TxId>, upTo: nat, was: Template, now: Template,
                done: set<TxId>, counted: int, mod0: map<TxId, ModEntry>, mod: map<TxId, ModEntry>, failed: set<TxId>, mi: nat)
      requires exists before :: KeptAt(log, was, done, before, mod0, failed, mi)
      requires Least(mempool, t, package, done) && Fits(mempool, package, RoomOf(was)) && Pays(mempool, minFee, package)
      requires log.cuts == [] ==> Takeable(log.blocks, done, RoomOf(was), Take(t, e, failed))
      requires upTo <= |sorted| && Lists(sorted, package)
      requires var part := Elements(sorted[..upTo]);
               && Growing(log.base, done + part, log.added + sorted[..upTo], mod)
               && Filled(mempool, was, now, part, sorted[..upTo])
               && Counted(mempool, maintenance, log.used, counted, done + part - log.base)
      requires mod0.Keys - package <= mod.Keys
      requires upTo < |sorted| ==> !Admits(mempool, maintenance, counted, sorted[upTo])
      requires upTo == |sorted| && Selecting(log.base, done, log.added, mod0, failed) ==>
                 Selecting(log.base, done + package, log.added + sorted[..upTo], mod, failed)
      ensures KeptAt(Logged(log, t, e, failed, modified, package, sorted, upTo, done, counted), now, done + Elements(sorted[..upTo]), counted, mod, failed, mi)
    {
      hide Growing, Selecting, Lists, Filled, Fits, Least, Considered, AllFinal, History, Pays, Admits, Counted, CutsOk, Closed, TakesOk, Takeable;
      var part := Elements(sorted[..upTo]);
      GrowingIs(log.base, done + part, log.added + sorted[..upTo], mod);
      GrowingIs(log.base, done, log.added, mod0);
      FitsIsAllFinal(t, package, done, RoomOf(was));
      PartIsListed(sorted, package, upTo);
      FilledFurther(mempool, log.start, was, now, log.base, done, log.added, part, sorted[..upTo]);
      PartFits(package, part, was, now, sorted[..upTo]);
      AllFinalGrows(log.base, done, part);
      CutsStay(mempool, maintenance, log.used, log.base, done, log.cuts, done + part);
      if upTo < |sorted| {
        var c := Cut(t, modified, package, sorted, upTo, done, counted);
        CutIs(log.used, log.base, done + part, c);
        CutsMore(mempool, maintenance, log.used, log.base, done + part, log.cuts, c);
      } else {
        assert sorted[..upTo] == sorted;
        ElementsListed(sorted, package);
        if log.cuts == [] {
          WholeTaken(log.base, log.start, log.added, log.blocks, done, was, t, package, sorted, mod0, mod, failed, mi);
          HistoryIs(log.start, log.base, log.blocks, done, log.added);
          RoomIsLeft(log.start, was, log.base, done, log.added);
          TakesMore(log.start, log.blocks, log.takes, Take(t, e, failed), package);
        }
      }
    }

    lemma CutIs(used: int, base: set<TxId>, done: set<TxId>, c: Cut)
      requires c.upTo < |c.sorted| && Lists(c.sorted, c.package) && base <= c.before && Least(mempool, c.t, c.package, c.before)
      requires done == c.before + Elements(c.sorted[..c.upTo]) && Counted(mempool, maintenance, used, c.counted, done - base)
      requires !Admits(mempool, maintenance, c.counted, c.sorted[c.upTo])
      ensures CutOk(mempool, maintenance, used, base, done, c)
    {
    }

    lemma PartMoves(done: set<TxId>, package: set<TxId>, sorted: seq<TxId>, n: nat)
      requires Lists(sorted, package) && package !! done && n <= |sorted|
      ensures n == 0 || done + Elements(sorted[..n]) != done
    {
      hide Lists;
      ListsElements(sorted, package);
      if n > 0 { assert sorted[..n][0] == sorted[0] && sorted[0] in Elements(sorted[..n]); }
    }

    lemma WholeTaken(base: set<TxId>, start: Template, added: seq<TxId>, blocks: seq<set<TxId>>, done: set<TxId>, was: Template,
                     t: TxId, package: set<TxId>, sorted: seq<TxId>, mod0: map<TxId, ModEntry>, mod: map<TxId, ModEntry>,
                     failed: set<TxId>, mi: nat)
      requires History(start, base, blocks, done, added) && Filled(mempool, start, was, done - base, added)
      requires Least(mempool, t, package, done) && Fits(mempool, package, RoomOf(was)) && Pays(mempool, minFee, package)
      requires Considered(blocks, done, RoomOf(was), mod0, failed, mi) && mod0.Keys - package <= mod.Keys
      requires Selecting(base, done + package, added + sorted, mod, failed)
      ensures History(start, base, blocks + [done + package], done + package, added + sorted)
      ensures Considered(blocks + [done + package], done + package,
                         Room(RoomOf(was).size - Sum(Size(mempool), package), RoomOf(was).sigOps - Sum(SigOps(mempool), package)),
                         mod, failed, mi)
    {
      hide Sum, Closed, Filled, Least, Considered, AllFinal, History, Pays, Selecting;
      FitsIsAllFinal(t, package, done, RoomOf(was));
      SelectedIsListed(base, done + package, added + sorted, mod, failed);
      HistoryGrows(start, base, blocks, done, added, was, t, package, sorted);
      ConsideredGrows(blocks, done, RoomOf(was), mod0, failed, mi, package, mod);
    }

    /** The round has changed nothing just when the package is blocked. */
    lemma NothingTaken(was: Template, now: Template, used: int, before: int, after: int, base: set<TxId>, done: set<TxId>,
                       package: set<TxId>, sorted: seq<TxId>, upTo: nat, mod0: map<TxId, ModEntry>, mod: map<TxId, ModEntry>)
      requires WellFormed(mempool) && package <= mempool.txs.Keys && package !! done && package != {}
      requires Lists(sorted, package) && upTo <= |sorted| && (sorted != [] ==> IsFirst(mempool, package, sorted[0]))
      requires var part := Elements(sorted[..upTo]);
               && Filled(mempool, was, now, part, sorted[..upTo])
               && Counted(mempool, maintenance, used, before, done - base) && Counted(mempool, maintenance, used, after, done + part - base)
               && mod0.Keys <= mempool.txs.Keys && Updated(mempool, package, mod0 - part, mod)
      requires upTo < |sorted| ==> !Admits(mempool, maintenance, after, sorted[upTo])
      requires upTo > 0 ==> Admits(mempool, maintenance, before, sorted[0])
      ensures Blocked(mempool, maintenance, before, package) ==> mod == mod0 && done + Elements(sorted[..upTo]) == done && now == was && after == before
      ensures AllSized(mempool) && mod == mod0 && done + Elements(sorted[..upTo]) == done ==> Blocked(mempool, maintenance, before, package)
    {
      hide Linked, Sum, Lists, Updated, Filled, Counted, Admits, NoneDepends, Blocked, AllSized, IsFirst, WellFormed;
      ListsElements(sorted, package);
      assert sorted != [];
      BlockedIs(mempool, maintenance, before, package, sorted[0]);
      PartMoves(done, package, sorted, upTo);
      if upTo == 0 {
        assert sorted[..0] == [] && Elements([]) == {} && done + {} == done && mod0 - {} == mod0;
        FilledWithNothing(mempool, was, now);
        SameCount(used, before, after, done - base);
        NothingDepends(mempool, package, mod0, mod);
      }
    }

    lemma SameCount(used: int, a: int, b: int, news: set<TxId>)
      requires Counted(mempool, maintenance, used, a, news) && Counted(mempool, maintenance, used, b, news)
      ensures a == b
    {
    }

    lemma SelectedIsListed(base: set<TxId>, done: set<TxId>, added: seq<TxId>, mod: map<TxId, ModEntry>, failed: set<TxId>)
      requires Selecting(base, done, added, mod, failed)
      ensures Lists(added, done - base)
    {
    }

    /** The package of t, and whether it can be added as it is. If not, and e is exact, t is
        turned down for good. */
    method ConsiderPackage(t: TxId, e: ModEntry, ghost blocks: seq<set<TxId>>, ghost exact: bool)
      returns (fits: bool, package: set<TxId>)
      requires WellFormed(mempool) && t in mempool.txs && t !in inBlock
      requires exact ==> |blocks| > 0 && blocks[|blocks| - 1] == inBlock && EntryTracks(mempool, inBlock, t, e, true)
      ensures fits ==> CanGo(mempool, minFee, t, e, inBlock, RoomLeft(), package)
      ensures !fits ==> forall s :: !CanGo(mempool, minFee, t, e, inBlock, RoomLeft(), s)
      ensures !fits && exact ==> TurnedDown(mempool, minFee, t, blocks, inBlock, RoomLeft())
    {
      hide Linked, AncestorClosed, LockClosed, Closed, Sum, EntryTracks, Least, NoRoom, Fits, Pays;
      if !TestPackage(e.size, e.sigOps) {
        if exact { RemainingTooMuch(mempool, t, inBlock, RoomLeft(), e); }
        return false, {};
      }
      package := GatherPackage(t);
      LeastIsNew(t, package, inBlock);
      var size, modFees, sigOps := PackageWeighs(package);
      var pays, room := modFees >= minFee(size), TestPackage(size, sigOps);
      fits := pays && room;
      if fits { fits := TestPackageFinality(package); }
      Weighed(package, size, modFees, sigOps, pays, room, fits);
      if !fits {
        OnlyThat(t, e, package, inBlock, RoomLeft());
        if !Fits(mempool, package, RoomLeft()) {
          LeastTooMuch(mempool, t, package, inBlock, RoomLeft());
        } else if exact {
          assert Least(mempool, t, package, blocks[|blocks| - 1]) && !Pays(mempool, minFee, package);
        }
      }
    }

    /** What it takes to go in, in the numbers of the block so far: the totals of the entry and
        those of the least package stay below both limits, the package pays for its size, and
        all of it is final. */
    lemma CanGoMeans(t: TxId, e: ModEntry, s: set<TxId>)
      ensures CanGo(mempool, minFee, t, e, inBlock, RoomLeft(), s) <==>
              && nBlockSize + e.size < nBlockMaxSize && nBlockSigOps + e.sigOps < 40000
              && Closed(mempool, s, inBlock) && t in s && (forall r :: Closed(mempool, r, inBlock) && t in r ==> s <= r)
              && nBlockSize + Sum(Size(mempool), s) < nBlockMaxSize && nBlockSigOps + Sum(SigOps(mempool), s) < 40000
              && Sum(ModFee(mempool), s) >= minFee(Sum(Size(mempool), s))
              && forall x <- s :: x in mempool.txs && mempool.txs[x].isFinal
    {
      hide Sum, Closed;
    }

    lemma Weighed(package: set<TxId>, size: int, modFees: int, sigOps: int, pays: bool, room: bool, fits: bool)
      requires package <= mempool.txs.Keys
      requires size == Sum(Size(mempool), package) && modFees == Sum(ModFee(mempool), package) && sigOps == Sum(SigOps(mempool), package)
      requires pays == (modFees >= minFee(size)) && room == TestPackage(size, sigOps)
      requires fits ==> pays && room && forall t <- package :: mempool.txs[t].isFinal
      requires pays && room && !fits ==> exists t :: t in package && !mempool.txs[t].isFinal
      ensures fits <==> Fits(mempool, package, RoomLeft()) && Pays(mempool, minFee, package)
    {
      hide Sum;
    }

    lemma OnlyThat(t: TxId, e: ModEntry, package: set<TxId>, done: set<TxId>, room: Room)
      requires Least(mempool, t, package, done) && !(Fits(mempool, package, room) && Pays(mempool, minFee, package))
      ensures forall s :: !CanGo(mempool, minFee, t, e, done, room, s)
    {
      hide Least, Fits, Pays;
      forall s ensures !CanGo(mempool, minFee, t, e, done, room, s) {
        if Least(mempool, t, s, done) { LeastIsOnly(mempool, t, s, package, done); }
      }
    }

    lemma LeastIsNew(t: TxId, package: set<TxId>, done: set<TxId>)
      requires Least(mempool, t, package, done)
      ensures Closed(mempool, package, done) && t in package && package <= mempool.txs.Keys && package !! done
    {
    }

    /** The bytes, sigops and maintenance of the moment decide whether an entry gets stuck. */
    ghost predicate StallsNow(t: TxId, e: ModEntry)
      reads this`inBlock, this`nBlockSize, this`nBlockSigOps, this`nSizeShielded
    {
      Stalls(mempool, maintenance, minFee, t, e, inBlock, RoomLeft(), nSizeShielded)
    }

    /** Adds the package of t if that is possible; else strikes t off the modified entries. It
        leaves everything as it was just when the entry is a modified one that stalls. */
    method TryEntry(ghost log0: Log, t: TxId, fUsingModified: bool, e: ModEntry,
                    mod0: map<TxId, ModEntry>, failed0: set<TxId>, ghost mi: nat)
      returns (mod: map<TxId, ModEntry>, failed: set<TxId>, ghost log: Log)
      requires Kept(log0, mod0, failed0, mi)
      requires t in mempool.txs && t !in inBlock
      requires if fUsingModified then t in mod0 && e == mod0[t]
               else t !in mod0 && t !in failed0 && mi < |byScore| && t == byScore[mi] && e == CachedEntry(mempool, t)
      requires Lists(byScore, mempool.txs.Keys) && (forall x <- byScore :: x in mempool.txs)
      requires BetterIsOrder() ==> NoneBetter(mi, mod0, Scored(t, e))
      modifies this
      ensures inBlock == old(inBlock) || exists package :: Least(mempool, t, package, old(inBlock)) && inBlock <= old(inBlock) + package
      ensures Kept(log, mod, failed, if fUsingModified then mi else mi + 1)
      ensures log.start == log0.start && log.base == log0.base && log.used == log0.used && old(inBlock) <= inBlock
      ensures log.cuts == log0.cuts || exists c :: log.cuts == log0.cuts + [c]
      ensures || Rank(inBlock, if fUsingModified then mi else mi + 1, mod) < Rank(old(inBlock), mi, mod0)
              || exists c :: log.cuts == log0.cuts + [c] && AtOnce(c)
      ensures fUsingModified && old(StallsNow(t, e)) ==>
                && mod == mod0 && failed == failed0 && inBlock == old(inBlock)
                && Contents() == old(Contents()) && nSizeShielded == old(nSizeShielded)
      ensures AllSized(mempool) && fUsingModified && mod == mod0 && failed == failed0 && inBlock == old(inBlock) ==> old(StallsNow(t, e))
    {
      hide KeptAt, Growing, Least, TurnedDown, EntryTracks, Fits, Pays, Blocked, Clean, Stalls, CanGo, WellFormed, AllSized, Rank, Counted, NoneBetter, BetterIsOrder, Takeable, Lists;
      ghost var now, done, counted := Contents(), inBlock, nSizeShielded;
      KeptIs(log0, now, done, counted, mod0, failed0, mi);
      mod, failed, log := mod0, failed0, log0;
      ghost var exact := log0.cuts == [] && t !in failed0;
      if log0.cuts == [] {
        CleanTracked(log0, done, RoomOf(now), mod0, failed0, mi, t, e);
        CleanTakeable(log0, done, RoomOf(now), mod0, failed0, mi, t, e);
      }
      var fits, package := ConsiderPackage(t, e, log0.blocks, exact);
      assert RoomLeft() == RoomOf(now);
      StallsJust(t, e, done, RoomLeft(), counted, fits, package);
      if fits {
        CanGoIs(t, e, done, RoomLeft(), package);
        mod, log := TakePackage(log0, t, e, fUsingModified, package, mod0, failed0, mi);
      } else if fUsingModified {
        Erased(log0, now, done, counted, mod0, failed0, mi, t);
        mod, failed := mod0 - {t}, failed0 + {t};
      }
      if !fUsingModified { MovedOn(log, Contents(), inBlock, nSizeShielded, mod, failed, mi); }
      KeptIs(log, Contents(), inBlock, nSizeShielded, mod, failed, if fUsingModified then mi else mi + 1);
      if inBlock != done || !fUsingModified || |mod.Keys| < |mod0.Keys| {
        RankFalls(done, mi, mod0, inBlock, if fUsingModified then mi else mi + 1, mod);
      }
    }

    lemma StallsJust(t: TxId, e: ModEntry, done: set<TxId>, room: Room, used: int, fits: bool, package: set<TxId>)
      requires fits ==> CanGo(mempool, minFee, t, e, done, room, package)
      requires !fits ==> forall s :: !CanGo(mempool, minFee, t, e, done, room, s)
      ensures Stalls(mempool, maintenance, minFee, t, e, done, room, used) <==> fits && Blocked(mempool, maintenance, used, package)
    {
      hide CanGo, Blocked;
      if fits { StallsIs(mempool, maintenance, minFee, t, e, done, room, used, package); }
    }

    lemma CanGoIs(t: TxId, e: ModEntry, done: set<TxId>, room: Room, package: set<TxId>)
      requires CanGo(mempool, minFee, t, e, done, room, package)
      ensures Least(mempool, t, package, done) && Fits(mempool, package, room) && Pays(mempool, minFee, package)
    {
    }

    /** Striking an entry off. */
    lemma Erased(log: Log, now: Template, done: set<TxId>, counted: int, mod: map<TxId, ModEntry>, failed: set<TxId>, mi: nat, t: TxId)
      requires KeptAt(log, now, done, counted, mod, failed, mi) && t in mod && t in mempool.txs
      requires log.cuts == [] && t !in failed ==> TurnedDown(mempool, minFee, t, log.blocks, done, RoomOf(now))
      ensures KeptAt(log, now, done, counted, mod - {t}, failed + {t}, mi)
    {
      hide Growing, Filled, Counted, AllFinal, CutsOk, UntilCut, Clean, TurnedDown;
      GrowingErases(log.base, done, log.added, mod, t);
      if log.cuts == [] { CleanErases(log, done, RoomOf(now), mod, failed, mi, t); }
    }

    /** Going on to the next by score. */
    lemma MovedOn(log: Log, now: Template, done: set<TxId>, counted: int, mod: map<TxId, ModEntry>, failed: set<TxId>, mi: nat)
      requires KeptAt(log, now, done, counted, mod, failed, mi) && mi < |byScore|
      requires log.cuts == [] ==> byScore[mi] in done || byScore[mi] in mod || byScore[mi] in failed
                                  || TurnedDown(mempool, minFee, byScore[mi], log.blocks, done, RoomOf(now))
      ensures KeptAt(log, now, done, counted, mod, failed, mi + 1)
    {
      hide Growing, Filled, Counted, AllFinal, CutsOk, UntilCut, Clean, TurnedDown;
      if log.cuts == [] { CleanNext(log, done, RoomOf(now), mod, failed, mi); }
    }

    lemma KeptIs(log: Log, now: Template, done: set<TxId>, counted: int, mod: map<TxId, ModEntry>, failed: set<TxId>, mi: nat)
      requires KeptAt(log, now, done, counted, mod, failed, mi)
      ensures WellFormed(mempool) && Growing(log.base, done, log.added, mod) && mi <= |byScore|
      ensures log.base <= done <= mempool.txs.Keys && mod.Keys <= mempool.txs.Keys - done
      ensures Counted(mempool, maintenance, log.used, counted, done - log.base)
      ensures log.cuts == [] ==> Clean(log, done, RoomOf(now), mod, failed, mi)
    {
    }

    lemma CleanTracked(log: Log, done: set<TxId>, room: Room, mod: map<TxId, ModEntry>, failed: set<TxId>, mi: nat, t: TxId, e: ModEntry)
      requires Clean(log, done, room, mod, failed, mi) && t in mempool.txs && t !in done
      requires if t in mod then e == mod[t] else e == CachedEntry(mempool, t) && t !in failed
      ensures |log.blocks| > 0 && log.blocks[|log.blocks| - 1] == done
      ensures t in mempool.ancestors && EntryTracks(mempool, done, t, e, t !in failed)
    {
      hide Selecting, EntryTracks, Considered;
      EntryTracked(log.base, done, log.added, mod, failed, t, e);
    }

    lemma CleanTakeable(log: Log, done: set<TxId>, room: Room, mod: map<TxId, ModEntry>, failed: set<TxId>, mi: nat, t: TxId, e: ModEntry)
      requires Clean(log, done, room, mod, failed, mi) && t in mempool.txs && t !in done && mi <= |byScore|
      requires if t in mod then e == mod[t] else e == CachedEntry(mempool, t) && t !in failed
      requires Lists(byScore, mempool.txs.Keys) && (forall x <- byScore :: x in mempool.txs)
      requires BetterIsOrder() ==> NoneBetter(mi, mod, Scored(t, e))
      ensures Takeable(log.blocks, done, room, Take(t, e, failed))
    {
      hide Selecting, EntryTracks, NoneBetter, BetterIsOrder, BestLeft, Lists, TurnedDown;
      EntryTracked(log.base, done, log.added, mod, failed, t, e);
      NoneLeftIsBetter(log.base, log.blocks, done, room, log.added, mod, failed, mi, t, e);
    }

    lemma CleanErases(log: Log, done: set<TxId>, room: Room, mod: map<TxId, ModEntry>, failed: set<TxId>, mi: nat, t: TxId)
      requires Clean(log, done, room, mod, failed, mi) && t in mod && t in mempool.txs && mi <= |byScore|
      requires t in failed || TurnedDown(mempool, minFee, t, log.blocks, done, room)
      ensures Clean(log, done, room, mod - {t}, failed + {t}, mi)
    {
      hide Selecting, Considered, TurnedDown;
      SelectingErases(log.base, done, log.added, mod, failed, t);
      ConsideredErases(log.blocks, done, room, mod, failed, mi, t);
    }

    lemma CleanNext(log: Log, done: set<TxId>, room: Room, mod: map<TxId, ModEntry>, failed: set<TxId>, mi: nat)
      requires Clean(log, done, room, mod, failed, mi) && mi < |byScore|
      requires byScore[mi] in done || byScore[mi] in mod || byScore[mi] in failed
               || TurnedDown(mempool, minFee, byScore[mi], log.blocks, done, room)
      ensures Clean(log, done, room, mod, failed, mi + 1)
    {
      hide Selecting, Considered, TurnedDown;
      ConsideredNext(log.blocks, done, room, mod, failed, mi);
    }

    lemma GrowingErases(base: set<TxId>, done: set<TxId>, added: seq<TxId>, mod: map<TxId, ModEntry>, t: TxId)
      requires Growing(base, done, added, mod)
      ensures Growing(base, done, added, mod - {t})
    {
      hide Linked, TotalsCached, Grown, AncestorClosed;
    }

    // ----- stalling ----------------------------------------------------------

    /** The entry to evaluate next is a modified one that pays, and it stalls. */
    ghost predicate Stuck(mi: nat, mod: map<TxId, ModEntry>, failed: set<TxId>)
      requires forall t <- byScore :: t in mempool.txs
      reads this
    {
      StuckAt(mi, mod, failed, inBlock, RoomLeft(), nSizeShielded)
    }

    ghost predicate StuckAt(mi: nat, mod: map<TxId, ModEntry>, failed: set<TxId>, done: set<TxId>, room: Room, used: int)
      requires forall t <- byScore :: t in mempool.txs
    {
      && (mi < |byScore| ==> byScore[mi] !in mod && byScore[mi] !in done && byScore[mi] !in failed)
      && exists t :: t in mod && IsStuck(mi, mod, t, done, room, used)
    }

    ghost predicate IsStuck(mi: nat, mod: map<TxId, ModEntry>, t: TxId, done: set<TxId>, room: Room, used: int)
      requires t in mod && forall t <- byScore :: t in mempool.txs
    {
      && NoneBetter(mi, mod, Scored(t, mod[t])) && mod[t].modFees >= minFee(mod[t].size)
      && Stalls(mempool, maintenance, minFee, t, mod[t], done, room, used)
    }

    /** Then that is the entry chosen. */
    lemma StuckIsChosen(mi: nat, mod: map<TxId, ModEntry>, failed: set<TxId>, done: set<TxId>, room: Room, used: int,
                        t: TxId, fUsingModified: bool, e: ModEntry)
      requires (forall t <- byScore :: t in mempool.txs) && BetterIsTotal() && StuckAt(mi, mod, failed, done, room, used)
      requires NoneBetter(mi, mod, Scored(t, e))
      requires if fUsingModified then t in mod && e == mod[t] else mi < |byScore| && t == byScore[mi] && e == CachedEntry(mempool, t)
      ensures fUsingModified && e.modFees >= minFee(e.size) && Stalls(mempool, maintenance, minFee, t, e, done, room, used)
    {
      hide Stalls;
      var u :| u in mod && IsStuck(mi, mod, u, done, room, used);
      TotalMeans(Scored(t, e), Scored(u, mod[u]));
    }

    lemma TotalMeans(x: Scored, y: Scored)
      requires BetterIsTotal()
      ensures x.t == y.t || better(x, y) || better(y, x)
    {
    }

    // ----- how long it takes -------------------------------------------------

    /** What every round lowers, unless a package tried for a modified entry is cut short at once. */
    ghost function Rank(done: set<TxId>, mi: nat, mod: map<TxId, ModEntry>): int {
      Times(Outside(done) + |byScore| - mi, |mempool.txs.Keys| + 1) + |mod.Keys|
    }

    /** How many transactions are not in the block. */
    ghost function Outside(done: set<TxId>): nat {
      |mempool.txs.Keys - done|
    }

    ghost function Enough(): int {
      Times(|mempool.txs.Keys| + |byScore|, |mempool.txs.Keys| + 1) + |mempool.txs.Keys|
    }

    ghost function Times(a: int, k: nat): int { a * k }

    lemma Steps(a: int, b: int, k: nat)
      requires a < b
      ensures Times(a, k) + k <= Times(b, k)
    {
      var n: nat := b - a - 1;
      assert b * k == a * k + k + n * k;
    }

    lemma NoSteps(k: nat)
      ensures Times(0, k) == 0
    {
    }

    lemma SubsetSize(a: set<TxId>, b: set<TxId>)
      requires a <= b
      ensures |a| <= |b| && (a != b ==> |a| < |b|)
    {
      assert b == a + (b - a);
    }

    lemma RankFalls(done0: set<TxId>, mi0: nat, mod0: map<TxId, ModEntry>, done: set<TxId>, mi: nat, mod: map<TxId, ModEntry>)
      requires done0 <= done <= mempool.txs.Keys && mi0 <= mi && mod.Keys <= mempool.txs.Keys
      requires done == done0 && mi == mi0 ==> |mod.Keys| < |mod0.Keys|
      ensures Rank(done, mi, mod) < Rank(done0, mi0, mod0)
    {
      hide Times, Outside;
      FewerOutside(done0, done);
      SubsetSize(mod.Keys, mempool.txs.Keys);
      Falls(Outside(done) + |byScore| - mi, Outside(done0) + |byScore| - mi0, |mempool.txs.Keys|, |mod.Keys|, |mod0.Keys|);
    }

    lemma FewerOutside(done0: set<TxId>, done: set<TxId>)
      requires done0 <= done <= mempool.txs.Keys
      ensures Outside(done) <= Outside(done0) && (done != done0 ==> Outside(done) < Outside(done0))
    {
      SubsetSize(mempool.txs.Keys - done, mempool.txs.Keys - done0);
      if done != done0 { FewerLeft(done0, done); }
    }

    lemma Falls(a: int, b: int, k: nat, m: nat, m0: nat)
      requires a <= b && m <= k && (a == b ==> m < m0)
      ensures Times(a, k + 1) + m < Times(b, k + 1) + m0
    {
      hide Times;
      if a < b { Steps(a, b, k + 1); }
    }

    lemma FewerLeft(done0: set<TxId>, done: set<TxId>)
      requires done0 < done <= mempool.txs.Keys
      ensures mempool.txs.Keys - done != mempool.txs.Keys - done0
    {
      var x :| x in done && x !in done0;
      assert x in mempool.txs.Keys - done0;
    }

    lemma RankStarts(done: set<TxId>, mod: map<TxId, ModEntry>)
      requires mod.Keys <= mempool.txs.Keys
      ensures Rank(done, 0, mod) <= Enough()
    {
      hide Times, Outside;
      OutsideIsIn(done);
      SubsetSize(mod.Keys, mempool.txs.Keys);
      NoMore(Outside(done) + |byScore|, |mempool.txs.Keys| + |byScore|, |mempool.txs.Keys|, |mod.Keys|);
    }

    lemma OutsideIsIn(done: set<TxId>)
      ensures Outside(done) <= |mempool.txs.Keys|
    {
      SubsetSize(mempool.txs.Keys - done, mempool.txs.Keys);
    }

    lemma NoMore(a: int, b: int, k: nat, m: nat)
      requires a <= b && m <= k
      ensures Times(a, k + 1) + m <= Times(b, k + 1) + k
    {
      hide Times;
      if a < b { Steps(a, b, k + 1); }
    }

    lemma RankIsPositive(done: set<TxId>, mi: nat, mod: map<TxId, ModEntry>)
      requires mi <= |byScore| && (mi < |byScore| || mod != map[])
      ensures Rank(done, mi, mod) > 0
    {
      hide Times, Outside;
      var a := Outside(done) + |byScore| - mi;
      NoSteps(|mempool.txs.Keys| + 1);
      if a > 0 {
        Steps(0, a, |mempool.txs.Keys| + 1);
      } else {
        var t :| t in mod;
        assert t in mod.Keys;
      }
    }

    /** No package tried for a modified entry was cut short at once. */
    ghost predicate NoneAtOnce(cuts: seq<Cut>) {
      forall i :: 0 <= i < |cuts| ==> !AtOnce(cuts[i])
    }

    lemma NoneBefore(cuts: seq<Cut>, after: seq<Cut>)
      requires NoneAtOnce(after) && (after == cuts || exists c :: after == cuts + [c])
      ensures NoneAtOnce(cuts) && !(exists c :: after == cuts + [c] && AtOnce(c))
    {
      hide AtOnce;
      forall i | 0 <= i < |cuts| ensures !AtOnce(cuts[i]) { assert after[i] == cuts[i]; }
      forall c | after == cuts + [c] ensures !AtOnce(c) { assert after[|cuts|] == c; }
    }

    // ----- the loop ----------------------------------------------------------

    /** The entry of t is the next by score or a modified one, and none of them is better. */
    ghost predicate Chosen(mi: nat, mod: map<TxId, ModEntry>, t: TxId, e: ModEntry)
      requires forall x <- byScore :: x in mempool.txs
    {
      && (if t in mod then e == mod[t] else mi < |byScore| && t == byScore[mi] && e == CachedEntry(mempool, t))
      && (BetterIsOrder() ==> NoneBetter(mi, mod, Scored(t, e)))
    }

    /** One round: skips the next by score, or evaluates the better of it and the best modified
        entry, the best of those left. It changes nothing just when the selection is stuck. */
    method Round(ghost log0: Log, mi0: nat, mod0: map<TxId, ModEntry>, failed0: set<TxId>)
      returns (mi: nat, mod: map<TxId, ModEntry>, failed: set<TxId>, ended: bool, ghost log: Log, ghost stop: Stop)
      requires Kept(log0, mod0, failed0, mi0) && Lists(byScore, mempool.txs.Keys)
      requires mi0 < |byScore| || mod0 != map[]
      modifies this
      ensures (forall t <- byScore :: t in mempool.txs) && old(inBlock) <= inBlock
      ensures mi <= |byScore| && Kept(log, mod, failed, if ended then mi0 else mi)
      ensures log.start == log0.start && log.base == log0.base && log.used == log0.used
      ensures ended ==> failed == failed0 && stop.LowFee? && (log.cuts == [] ==> Ended(log.blocks, inBlock, RoomLeft(), failed, stop))
      ensures log.cuts == log0.cuts || exists c :: log.cuts == log0.cuts + [c]
      ensures !ended ==> Rank(inBlock, mi, mod) < Rank(old(inBlock), mi0, mod0) || exists c :: log.cuts == log0.cuts + [c] && AtOnce(c)
      ensures inBlock == old(inBlock) || exists t, e, package ::
                Chosen(mi0, mod0, t, e) && Least(mempool, t, package, old(inBlock)) && inBlock <= old(inBlock) + package
      ensures BetterIsTotal() && old(Stuck(mi0, mod0, failed0)) ==>
                !ended && mi == mi0 && mod == mod0 && failed == failed0 && inBlock == old(inBlock) && Contents() == old(Contents())
                && nSizeShielded == old(nSizeShielded)
      ensures BetterIsTotal() && AllSized(mempool) && !ended && mi == mi0 && mod == mod0 && failed == failed0 && inBlock == old(inBlock) ==>
                old(Stuck(mi0, mod0, failed0))
    {
      hide KeptAt, Growing, Lists, Stalls, AllSized, Ended, Clean, WellFormed, NoneBetter, BetterIsOrder, Rank, BetterIsTotal, Counted, StuckAt, CachedEntry, Least;
      ListsElements(byScore, mempool.txs.Keys);
      ghost var now, done, counted := Contents(), inBlock, nSizeShielded;
      KeptIs(log0, now, done, counted, mod0, failed0, mi0);
      mi, mod, failed, ended, log, stop := mi0, mod0, failed0, false, log0, OutOfRounds;
      if mi < |byScore| && SkipMapTxEntry(byScore[mi], mod, failed) {
        MovedOn(log, now, done, counted, mod, failed, mi);
        SkippedIsNotStuck(mi, mod, failed, done, RoomLeft(), counted);
        mi := mi + 1;
        RankFalls(done, mi0, mod0, inBlock, mi, mod);
        return;
      }
      var t, fUsingModified, e := ChooseEntry(mi, mod);
      if !fUsingModified { mi := mi + 1; }
      assert t !in inBlock && t in mempool.txs;
      assert !fUsingModified ==> t !in mod0 && t !in failed0;
      TotalIsOrder();
      assert Chosen(mi0, mod0, t, e);
      if BetterIsTotal() { StuckJust(mi0, mod0, failed0, done, RoomLeft(), counted, t, fUsingModified, e); }
      if e.modFees < minFee(e.size) {
        if log0.cuts == [] { CleanEnds(log0, done, RoomLeft(), mod0, failed0, mi0, t, e); }
        ended, stop := true, LowFee(t, e);
        return;
      }
      mod, failed, log := TryEntry(log0, t, fUsingModified, e, mod, failed, mi0);
      KeptIs(log, Contents(), inBlock, nSizeShielded, mod, failed, mi);
    }

    lemma TotalIsOrder()
      ensures BetterIsTotal() ==> BetterIsOrder()
    {
    }

    lemma SkippedIsNotStuck(mi: nat, mod: map<TxId, ModEntry>, failed: set<TxId>, done: set<TxId>, room: Room, used: int)
      requires (forall t <- byScore :: t in mempool.txs) && mi < |byScore|
      requires byScore[mi] in mod || byScore[mi] in done || byScore[mi] in failed
      ensures !StuckAt(mi, mod, failed, done, room, used)
    {
    }

    /** Stuck just means that the entry chosen is a modified one that pays and stalls. */
    lemma StuckJust(mi: nat, mod: map<TxId, ModEntry>, failed: set<TxId>, done: set<TxId>, room: Room, used: int,
                    t: TxId, fUsingModified: bool, e: ModEntry)
      requires (forall t <- byScore :: t in mempool.txs) && BetterIsTotal() && NoneBetter(mi, mod, Scored(t, e))
      requires mi < |byScore| ==> byScore[mi] !in mod && byScore[mi] !in done && byScore[mi] !in failed
      requires if fUsingModified then t in mod && e == mod[t] else mi < |byScore| && t == byScore[mi] && e == CachedEntry(mempool, t)
      ensures StuckAt(mi, mod, failed, done, room, used) <==>
              fUsingModified && e.modFees >= minFee(e.size) && Stalls(mempool, maintenance, minFee, t, e, done, room, used)
    {
      hide Stalls, NoneBetter, BetterIsTotal;
      if StuckAt(mi, mod, failed, done, room, used) { StuckIsChosen(mi, mod, failed, done, room, used, t, fUsingModified, e); }
      if fUsingModified && e.modFees >= minFee(e.size) && Stalls(mempool, maintenance, minFee, t, e, done, room, used) {
        assert t in mod && IsStuck(mi, mod, t, done, room, used);
      }
    }

    lemma CleanEnds(log: Log, done: set<TxId>, room: Room, mod: map<TxId, ModEntry>, failed: set<TxId>, mi: nat, t: TxId, e: ModEntry)
      requires Clean(log, done, room, mod, failed, mi) && Lists(byScore, mempool.txs.Keys) && mi <= |byScore|
      requires forall t <- byScore :: t in mempool.txs
      requires t in mempool.txs && t !in done && e.modFees < minFee(e.size)
      requires if t in mod then e == mod[t] else e == CachedEntry(mempool, t) && t !in failed
      requires BetterIsOrder() ==> NoneBetter(mi, mod, Scored(t, e))
      ensures Ended(log.blocks, done, room, failed, LowFee(t, e))
    {
      hide Selecting, Considered, BetterIsOrder, NoneBetter, Ended, Lists;
      EntryTracked(log.base, done, log.added, mod, failed, t, e);
      EndsForFee(log.base, log.blocks, done, room, log.added, mod, failed, mi, t, e);
    }

    /** Selects packages until none is left, or the best one left does not pay enough, for so
        many rounds at most. Until a shielded transaction cuts a package short: unless it
        stopped for a low fee, whatever is not in the block has been turned down for good. It
        ends unless a modified entry is tried of whose package nothing goes in; where that leaves
        all as it was, it does not end. */
    method addPackageTxs(rounds: nat) returns (ghost log: Log, ghost failed: set<TxId>, ghost stop: Stop, ghost stalled: bool)
      requires WellFormed(mempool) && TotalsCached(mempool)
      requires Lists(byScore, mempool.txs.Keys)
      requires inBlock <= mempool.txs.Keys && AncestorClosed(mempool, inBlock, {})
      modifies this
      ensures log.start == old(Contents()) && log.base == old(inBlock) && log.used == old(nSizeShielded)
      ensures Filled(mempool, old(Contents()), Contents(), inBlock - old(inBlock), log.added)
      ensures Grown(mempool, old(inBlock), inBlock, log.added)
      ensures AncestorClosed(mempool, inBlock, {})
      ensures log.cuts == [] || Acyclic(mempool) ==> LockClosed(mempool, inBlock - old(inBlock), inBlock)
      ensures AllFinal(mempool, inBlock - old(inBlock))
      ensures log.added == [] || (nBlockSize < nBlockMaxSize && nBlockSigOps < MAX_BLOCK_SIGOPS_CURRENT)
      ensures Counted(mempool, maintenance, old(nSizeShielded), nSizeShielded, inBlock - old(inBlock))
      ensures CutsOk(mempool, maintenance, old(nSizeShielded), old(inBlock), inBlock, log.cuts)
      ensures AllAdmitted(mempool, maintenance, old(nSizeShielded), old(inBlock)) ==> log.cuts == []
      ensures UntilCut(log)
      ensures log.cuts == [] ==> log.whole == log.added && log.blocks[|log.blocks| - 1] == inBlock
      ensures log.cuts == [] && stop != OutOfRounds ==> Ended(log.blocks, inBlock, RoomLeft(), failed, stop)
      ensures NoneAtOnce(log.cuts) && rounds >= Enough() ==> stop != OutOfRounds
      ensures stalled && BetterIsTotal() && AllSized(mempool) ==> stop == OutOfRounds
    {
      hide Linked, TotalsCached, Sum, AncestorClosed, Grown, Lists, Updated, WellFormed, KeptAt, Growing, Ended, Clean, Rank, Enough,
        BetterIsTotal, AllSized, StuckAt, AtOnce, NoneAtOnce;
      var failedTx: set<TxId> := {};
      var mod := UpdatePackagesForAdded(inBlock, map[]);
      log := Log(Contents(), inBlock, nSizeShielded, [], [], [], [inBlock], []);
      Starts(mod);
      var mi: nat := 0;
      var n := 0;
      failed, stop, stalled := {}, OutOfRounds, false;
      ListsElements(byScore, mempool.txs.Keys);
      RankStarts(inBlock, mod);
      while (mi < |byScore| || mod != map[]) && n < rounds
        invariant n <= rounds && mi <= |byScore| && Kept(log, mod, failedTx, mi)
        invariant log.start == old(Contents()) && log.base == old(inBlock) && log.used == old(nSizeShielded)
        invariant NoneAtOnce(log.cuts) ==> n + Rank(inBlock, mi, mod) <= Enough()
        invariant stalled && BetterIsTotal() && AllSized(mempool) ==> Stuck(mi, mod, failedTx)
        invariant stop == OutOfRounds
        decreases rounds - n
      {
        ghost var mi0, mod0, failed0, done, was, cuts := mi, mod, failedTx, inBlock, Contents(), log.cuts;
        var ended;
        mi, mod, failedTx, ended, log, stop := Round(log, mi, mod, failedTx);
        if ended {
          failed := failedTx;
          KeptEnds(log, mod, failedTx, mi0);
          return;
        }
        if NoneAtOnce(log.cuts) { NoneBefore(cuts, log.cuts); }
        stop := OutOfRounds;
        stalled := stalled || (mi == mi0 && mod == mod0 && failedTx == failed0 && inBlock == done);
        n := n + 1;
      }
      failed := failedTx;
      StuckHasEntries(mi, mod, failedTx, inBlock, RoomLeft(), nSizeShielded);
      if mi < |byScore| || mod != map[] {
        RankIsPositive(inBlock, mi, mod);
      } else {
        stop := RanOut;
        EndsClean(log, failedTx, mi);
      }
      KeptEnds(log, mod, failedTx, mi);
    }

    lemma Starts(mod: map<TxId, ModEntry>)
      requires WellFormed(mempool) && TotalsCached(mempool) && Lists(byScore, mempool.txs.Keys)
      requires inBlock <= mempool.txs.Keys && AncestorClosed(mempool, inBlock, {}) && Updated(mempool, inBlock, map[], mod)
      ensures Kept(Log(Contents(), inBlock, nSizeShielded, [], [], [], [inBlock], []), mod, {}, 0)
      ensures mod.Keys <= mempool.txs.Keys
    {
      hide Linked, TotalsCached, Sum, AncestorClosed, Lists, Updated, WellFormed, Growing, Filled, Considered, Counted, History, AllFinal;
      assert inBlock - inBlock == {};
      SelectingStarts(inBlock, mod);
      FilledByNothing(mempool, Contents(), inBlock);
      NothingConsidered([inBlock], inBlock, RoomLeft(), mod);
      NothingIsFinal(inBlock);
      HistoryStarts(Contents(), inBlock);
      CountedNothing(mempool, maintenance, nSizeShielded);
      GrowingIs(inBlock, inBlock, [], mod);
    }

    lemma KeptEnds(log: Log, mod: map<TxId, ModEntry>, failed: set<TxId>, mi: nat)
      requires Kept(log, mod, failed, mi)
      ensures Filled(mempool, log.start, Contents(), inBlock - log.base, log.added)
      ensures Grown(mempool, log.base, inBlock, log.added) && AncestorClosed(mempool, inBlock, {})
      ensures log.cuts == [] || Acyclic(mempool) ==> LockClosed(mempool, inBlock - log.base, inBlock)
      ensures AllFinal(mempool, inBlock - log.base)
      ensures log.added == [] || (nBlockSize < nBlockMaxSize && nBlockSigOps < MAX_BLOCK_SIGOPS_CURRENT)
      ensures Counted(mempool, maintenance, log.used, nSizeShielded, inBlock - log.base)
      ensures CutsOk(mempool, maintenance, log.used, log.base, inBlock, log.cuts)
      ensures AllAdmitted(mempool, maintenance, log.used, log.base) ==> log.cuts == []
      ensures UntilCut(log)
      ensures log.cuts == [] ==> log.whole == log.added && log.blocks[|log.blocks| - 1] == inBlock
    {
      hide Filled, Grown, AncestorClosed, AllFinal, Counted, CutsOk, AllAdmitted, History, Considered, Tracked, Acyclic, WellFormed, TotalsCached;
      if Acyclic(mempool) { LocksAreThere(mempool, log.base, inBlock, log.added); }
      if AllAdmitted(mempool, maintenance, log.used, log.base) {
        NoCuts(mempool, maintenance, log.used, log.base, inBlock, log.cuts);
      }
    }

    lemma EndsClean(log: Log, failed: set<TxId>, mi: nat)
      requires Kept(log, map[], failed, mi) && mi == |byScore| && Lists(byScore, mempool.txs.Keys)
      ensures log.cuts == [] ==> Ended(log.blocks, inBlock, RoomLeft(), failed, RanOut)
    {
      hide KeptAt, Selecting, Considered, Ended, Lists, WellFormed, Growing, Counted;
      KeptIs(log, Contents(), inBlock, nSizeShielded, map[], failed, mi);
      if log.cuts == [] { EndsWithNothingLeft(log.blocks, inBlock, RoomLeft(), failed); }
    }

    lemma StuckHasEntries(mi: nat, mod: map<TxId, ModEntry>, failed: set<TxId>, done: set<TxId>, room: Room, used: int)
      requires forall t <- byScore :: t in mempool.txs
      ensures StuckAt(mi, mod, failed, done, room, used) ==> mod != map[]
    {
    }

    lemma NothingConsidered(blocks: seq<set<TxId>>, done: set<TxId>, room: Room, mod: map<TxId, ModEntry>)
      ensures Considered(blocks, done, room, mod, {}, 0)
    {
    }

    lemma ConsideredNext(blocks: seq<set<TxId>>, done: set<TxId>, room: Room, mod: map<TxId, ModEntry>, failed: set<TxId>, mi: nat)
      requires Considered(blocks, done, room, mod, failed, mi) && mi < |byScore|
      requires byScore[mi] in done || byScore[mi] in mod || byScore[mi] in failed
               || TurnedDown(mempool, minFee, byScore[mi], blocks, done, room)
      ensures Considered(blocks, done, room, mod, failed, mi + 1)
    {
      hide TurnedDown;
    }

    lemma ConsideredErases(blocks: seq<set<TxId>>, done: set<TxId>, room: Room, mod: map<TxId, ModEntry>, failed: set<TxId>, mi: nat, t: TxId)
      requires Considered(blocks, done, room, mod, failed, mi) && t in mempool.txs && mi <= |byScore|
      requires t in done || t in failed || TurnedDown(mempool, minFee, t, blocks, done, room)
      ensures Considered(blocks, done, room, mod - {t}, failed + {t}, mi)
    {
      hide TurnedDown;
    }

    lemma FitsIsAllFinal(t: TxId, package: set<TxId>, done: set<TxId>, room: Room)
      requires Least(mempool, t, package, done) && Fits(mempool, package, room)
      ensures Closed(mempool, package, done) && t in package && package !! done && package <= mempool.txs.Keys
      ensures AllFinal(mempool, package)
    {
    }

    lemma AllFinalGrows(base: set<TxId>, done: set<TxId>, package: set<TxId>)
      requires AllFinal(mempool, done - base) && AllFinal(mempool, package)
      ensures AllFinal(mempool, done + package - base)
    {
    }

    lemma NothingIsFinal(base: set<TxId>)
      ensures AllFinal(mempool, base - base)
    {
    }

    lemma SelectingIsWellFormed(base: set<TxId>, done: set<TxId>, added: seq<TxId>, mod: map<TxId, ModEntry>, failed: set<TxId>)
      requires Selecting(base, done, added, mod, failed)
      ensures WellFormed(mempool)
    {
    }

  }
}
