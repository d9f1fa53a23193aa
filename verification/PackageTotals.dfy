/** The modified entries: for transactions with ancestors already in the block, what they
    and their remaining ancestors weigh. */
module PackageTotals {
  import opened Mempool

  datatype ModEntry = ModEntry(size: int, modFees: int, sigOps: int)

  /** What the pool has cached for t. */
  function CachedEntry(p: Pool, t: TxId): ModEntry
    requires t in p.txs
  {
    ModEntry(p.txs[t].sizeWithAncestors, p.txs[t].modFeesWithAncestors, p.txs[t].sigOpsWithAncestors)
  }

  /** t with those of its ancestors that are not in the block. */
  function Remaining(p: Pool, t: TxId, done: set<TxId>): set<TxId>
    requires t in p.ancestors
  {
    p.ancestors[t] + {t} - done
  }

  /** The entry of d after its ancestors in cut went into the block: it is made from the
      cached totals if there was none, and loses what cut weighs. */
  ghost predicate CutBy(p: Pool, mod: map<TxId, ModEntry>, d: TxId, cut: set<TxId>, after: map<TxId, ModEntry>)
    requires d in p.txs
  {
    var before := if d in mod then mod[d] else CachedEntry(p, d);
    && (d in after <==> d in mod || cut != {})
    && (d in after && cut == {} ==> after[d] == before)
    && (d in after ==>
          && after[d].size == before.size - Sum(Size(p), cut)
          && after[d].sigOps == before.sigOps - Sum(SigOps(p), cut)
          && (Unprioritised(p) ==> after[d].modFees == before.modFees - Sum(ModFee(p), cut)))
  }

  /** An update leaves the entries of what was added alone. */
  ghost predicate KeepsAdded(p: Pool, added: set<TxId>, mod: map<TxId, ModEntry>, after: map<TxId, ModEntry>) {
    && after.Keys <= p.txs.Keys
    && forall d :: d in added ==> (d in after <==> d in mod) && (d in mod ==> after[d] == mod[d])
  }

  /** What UpdatePackagesForAdded makes of the modified entries. */
  ghost predicate Updated(p: Pool, added: set<TxId>, mod: map<TxId, ModEntry>, after: map<TxId, ModEntry>)
    requires WellFormed(p)
  {
    && KeepsAdded(p, added, mod, after)
    && forall d <- p.txs :: d !in added ==> CutBy(p, mod, d, p.ancestors[d] * added, after)
  }

  /** What the selection relies on. done is the block; an entry that failed and was made
      again later may claim too much, any other is exact. */
  ghost predicate Tracked(p: Pool, done: set<TxId>, mod: map<TxId, ModEntry>, failed: set<TxId>)
    requires WellFormed(p)
  {
    && mod.Keys <= p.txs.Keys - done
    && (forall d <- p.txs :: d !in done && p.ancestors[d] * done != {} ==> d in mod || d in failed)
    && (forall d <- mod :: p.ancestors[d] * done != {})
    && (forall d <- mod :: EntryTracks(p, done, d, mod[d], d !in failed))
  }

  ghost predicate EntryTracks(p: Pool, done: set<TxId>, d: TxId, e: ModEntry, exact: bool)
    requires d in p.ancestors
  {
    var size, sigOps := Sum(Size(p), Remaining(p, d, done)), Sum(SigOps(p), Remaining(p, d, done));
    && (if exact then e.size == size && e.sigOps == sigOps else e.size >= size && e.sigOps >= sigOps)
    && (exact && Unprioritised(p) ==> e.modFees == Sum(ModFee(p), Remaining(p, d, done)))
  }

  // ----- one step of the update --------------------------------------------

  /** The update with those of seen done, and of `it` done for those in visited. */
  ghost predicate UpdatedSoFar(p: Pool, added: set<TxId>, seen: set<TxId>, it: TxId, visited: set<TxId>,
                               mod: map<TxId, ModEntry>, after: map<TxId, ModEntry>)
    requires WellFormed(p)
  {
    && KeepsAdded(p, added, mod, after)
    && forall d <- p.txs :: d !in added ==>
         CutBy(p, mod, d, p.ancestors[d] * (if d in visited then seen + {it} else seen), after)
  }

  lemma CutMore(p: Pool, mod: map<TxId, ModEntry>, d: TxId, cut: set<TxId>, it: TxId, after: map<TxId, ModEntry>, e: ModEntry)
    requires d in p.txs && it in p.txs && it !in cut && CutBy(p, mod, d, cut, after)
    requires var b := if d in after then after[d] else CachedEntry(p, d);
             && e.size == b.size - p.txs[it].size && e.sigOps == b.sigOps - p.txs[it].sigOps
             && (Unprioritised(p) ==> e.modFees == b.modFees - p.txs[it].modFee)
    ensures CutBy(p, mod, d, cut + {it}, after[d := e])
  {
    assert (cut + {it}) - {it} == cut;
    SumOne(Size(p), cut + {it}, it);
    SumOne(SigOps(p), cut + {it}, it);
    SumOne(ModFee(p), cut + {it}, it);
  }

  lemma VisitKeeps(p: Pool, added: set<TxId>, seen: set<TxId>, it: TxId, visited: set<TxId>, desc: TxId,
                   mod: map<TxId, ModEntry>, after: map<TxId, ModEntry>, e: ModEntry)
    requires WellFormed(p) && it in p.txs && it !in seen && mod.Keys <= p.txs.Keys
    requires UpdatedSoFar(p, added, seen, it, visited, mod, after)
    requires desc in p.txs && desc !in added && desc !in visited && it in p.ancestors[desc]
    requires var b := if desc in after then after[desc] else CachedEntry(p, desc);
             && e.size == b.size - p.txs[it].size && e.sigOps == b.sigOps - p.txs[it].sigOps
             && (Unprioritised(p) ==> e.modFees == b.modFees - p.txs[it].modFee)
    ensures UpdatedSoFar(p, added, seen, it, visited + {desc}, mod, after[desc := e])
  {
    hide Linked, CutBy;
    var next := after[desc := e];
    forall d | d in p.txs && d !in added
      ensures CutBy(p, mod, d, p.ancestors[d] * (if d in visited + {desc} then seen + {it} else seen), next)
    {
      if d == desc {
        var cut, more := p.ancestors[d] * seen, p.ancestors[d] * (seen + {it});
        assert CutBy(p, mod, d, cut, after);
        assert more == cut + {it};
        CutMore(p, mod, d, cut, it, after, e);
      } else {
        assert CutBy(p, mod, d, p.ancestors[d] * (if d in visited then seen + {it} else seen), after);
        CutElsewhere(p, mod, d, p.ancestors[d] * (if d in visited then seen + {it} else seen), after, desc, e);
      }
    }
  }

  lemma CutElsewhere(p: Pool, mod: map<TxId, ModEntry>, d: TxId, cut: set<TxId>, after: map<TxId, ModEntry>, desc: TxId, e: ModEntry)
    requires d in p.txs && d != desc && CutBy(p, mod, d, cut, after)
    ensures CutBy(p, mod, d, cut, after[desc := e])
  {
  }

  lemma VisitedAll(p: Pool, added: set<TxId>, seen: set<TxId>, it: TxId, visited: set<TxId>, it2: TxId,
                   mod: map<TxId, ModEntry>, after: map<TxId, ModEntry>)
    requires WellFormed(p) && UpdatedSoFar(p, added, seen, it, visited, mod, after)
    requires forall d <- p.txs :: d !in added && it in p.ancestors[d] ==> d in visited
    ensures UpdatedSoFar(p, added, seen + {it}, it2, {}, mod, after)
  {
    hide Linked, Sum, CutBy;
    forall d | d in p.txs && d !in added
      ensures CutBy(p, mod, d, p.ancestors[d] * (seen + {it}), after)
    {
      assert d !in visited ==> p.ancestors[d] * (seen + {it}) == p.ancestors[d] * seen;
      assert CutBy(p, mod, d, p.ancestors[d] * (if d in visited then seen + {it} else seen), after);
    }
  }

  lemma VisitedNone(p: Pool, added: set<TxId>, seen: set<TxId>, it: TxId, it2: TxId,
                    mod: map<TxId, ModEntry>, after: map<TxId, ModEntry>)
    requires WellFormed(p) && UpdatedSoFar(p, added, seen, it, {}, mod, after)
    ensures UpdatedSoFar(p, added, seen, it2, {}, mod, after)
  {
    hide Linked, Sum, CutBy;
    forall d | d in p.txs && d !in added
      ensures CutBy(p, mod, d, p.ancestors[d] * seen, after)
    {
      assert CutBy(p, mod, d, p.ancestors[d] * (if d in {} then seen + {it} else seen), after);
    }
  }

  lemma UpdateStarts(p: Pool, added: set<TxId>, it: TxId, mod: map<TxId, ModEntry>)
    requires WellFormed(p) && mod.Keys <= p.txs.Keys
    ensures UpdatedSoFar(p, added, {}, it, {}, mod, mod)
  {
    SumEmpty(ModFee(p));
    forall d | d in p.txs && d !in added
      ensures CutBy(p, mod, d, p.ancestors[d] * {}, mod)
    {
      assert p.ancestors[d] * {} == {};
    }
  }

  lemma UpdateEnds(p: Pool, added: set<TxId>, it: TxId, mod: map<TxId, ModEntry>, after: map<TxId, ModEntry>)
    requires WellFormed(p) && UpdatedSoFar(p, added, added, it, {}, mod, after)
    ensures Updated(p, added, mod, after)
  {
    forall d | d in p.txs && d !in added
      ensures CutBy(p, mod, d, p.ancestors[d] * added, after)
    {
      assert CutBy(p, mod, d, p.ancestors[d] * (if d in {} then added + {it} else added), after);
    }
  }

  // ----- what the update keeps ---------------------------------------------

  lemma RemainingLoses(p: Pool, d: TxId, done: set<TxId>, added: set<TxId>)
    requires WellFormed(p) && d in p.txs && d !in added && d !in done && added !! done
    ensures Sum(Size(p), Remaining(p, d, done + added)) == Sum(Size(p), Remaining(p, d, done)) - Sum(Size(p), p.ancestors[d] * added)
    ensures Sum(SigOps(p), Remaining(p, d, done + added)) == Sum(SigOps(p), Remaining(p, d, done)) - Sum(SigOps(p), p.ancestors[d] * added)
    ensures Sum(ModFee(p), Remaining(p, d, done + added)) == Sum(ModFee(p), Remaining(p, d, done)) - Sum(ModFee(p), p.ancestors[d] * added)
  {
    var before, after, cut := Remaining(p, d, done), Remaining(p, d, done + added), p.ancestors[d] * added;
    assert before == after + cut;
    SumUnion(Size(p), after, cut);
    SumUnion(SigOps(p), after, cut);
    SumUnion(ModFee(p), after, cut);
  }

  /** Before any of its ancestors is in the block, an entry's cached totals are exact; in any
      case they are no less than what remains. */
  lemma CachedTracks(p: Pool, d: TxId, done: set<TxId>)
    requires WellFormed(p) && TotalsCached(p) && d in p.txs && d !in done
    ensures EntryTracks(p, done, d, CachedEntry(p, d), p.ancestors[d] * done == {})
  {
    hide Linked, Sum;
    var all, gone := p.ancestors[d] + {d}, p.ancestors[d] * done;
    assert all == Remaining(p, d, done) + gone;
    SumUnion(Size(p), Remaining(p, d, done), gone);
    SumUnion(SigOps(p), Remaining(p, d, done), gone);
    SumUnion(ModFee(p), Remaining(p, d, done), gone);
    SumNonNegative(Size(p), gone);
    SumNonNegative(SigOps(p), gone);
    if gone == {} {
      SumEmpty(Size(p));
      SumEmpty(SigOps(p));
      SumEmpty(ModFee(p));
    }
  }

  /** Putting added into the block and updating keeps every entry exact. */
  lemma UpdateTracks(p: Pool, done: set<TxId>, added: set<TxId>, mod: map<TxId, ModEntry>, failed: set<TxId>,
                     after: map<TxId, ModEntry>)
    requires WellFormed(p) && TotalsCached(p)
    requires Tracked(p, done, mod, failed) && added !! done && added <= p.txs.Keys
    requires Updated(p, added, mod - added, after)
    requires AncestorClosed(p, done, {})
    ensures Tracked(p, done + added, after, failed)
  {
    hide Linked, TotalsCached, EntryTracks;
    forall d | d in p.txs && d !in done + added
      ensures d in after ==> p.ancestors[d] * (done + added) != {} && EntryTracks(p, done + added, d, after[d], d !in failed)
      ensures p.ancestors[d] * (done + added) != {} ==> d in after || d in failed
    {
      UpdateTracksOne(p, done, added, mod, failed, after, d);
    }
    forall d | d in after ensures d !in done {
      DoneStaysOut(p, done, added, mod, failed, after, d);
    }
  }

  /** No descendant of what is new is in the block already. */
  lemma DoneStaysOut(p: Pool, done: set<TxId>, added: set<TxId>, mod: map<TxId, ModEntry>, failed: set<TxId>,
                     after: map<TxId, ModEntry>, d: TxId)
    requires WellFormed(p) && Tracked(p, done, mod, failed) && added !! done
    requires Updated(p, added, mod - added, after)
    requires AncestorClosed(p, done, {}) && d in after
    ensures d !in done
  {
    hide Linked, EntryTracks, Sum;
    assert CutBy(p, mod - added, d, p.ancestors[d] * added, after);
  }

  lemma UpdateTracksOne(p: Pool, done: set<TxId>, added: set<TxId>, mod: map<TxId, ModEntry>, failed: set<TxId>,
                        after: map<TxId, ModEntry>, d: TxId)
    requires WellFormed(p) && TotalsCached(p)
    requires Tracked(p, done, mod, failed) && added !! done
    requires Updated(p, added, mod - added, after)
    requires d in p.txs && d !in done + added
    ensures d in after ==> p.ancestors[d] * (done + added) != {} && EntryTracks(p, done + added, d, after[d], d !in failed)
    ensures p.ancestors[d] * (done + added) != {} ==> d in after || d in failed
  {
    hide Linked, Sum, TotalsCached;
    var cut := p.ancestors[d] * added;
    assert p.ancestors[d] * (done + added) == p.ancestors[d] * done + cut;
    assert CutBy(p, mod - added, d, cut, after);
    RemainingLoses(p, d, done, added);
    if d !in mod { CachedTracks(p, d, done); }
  }

  /** As every transaction has a size, the update for a package changes no entry just when
      nothing outside the package depends on it. */
  lemma NothingDepends(p: Pool, package: set<TxId>, mod: map<TxId, ModEntry>, after: map<TxId, ModEntry>)
    requires WellFormed(p) && package <= p.txs.Keys && mod.Keys <= p.txs.Keys && Updated(p, package, mod, after)
    ensures NoneDepends(p, package) ==> after == mod
    ensures AllSized(p) ==> after == mod ==> NoneDepends(p, package)
  {
    hide Sum, Linked, AllSized;
    if NoneDepends(p, package) {
      forall d | d in p.txs ensures (d in after <==> d in mod) && (d in mod ==> after[d] == mod[d]) {
        if d !in package { assert CutBy(p, mod, d, {}, after); }
      }
      assert after.Keys == mod.Keys;
    } else if AllSized(p) {
      var d :| d in p.txs && d !in package && p.ancestors[d] * package != {};
      assert CutBy(p, mod, d, p.ancestors[d] * package, after);
      CutWeighs(p, p.ancestors[d] * package);
    }
  }

  /** Every transaction has a size. */
  predicate AllSized(p: Pool) {
    forall t <- p.txs :: p.txs[t].size > 0
  }

  lemma CutWeighs(p: Pool, cut: set<TxId>)
    requires AllSized(p) && cut != {} && cut <= p.txs.Keys
    ensures Sum(Size(p), cut) > 0
  {
    SizeIsPositive(p, cut);
  }

  ghost predicate NoneDepends(p: Pool, package: set<TxId>)
    requires WellFormed(p)
  {
    forall d <- p.txs :: d !in package ==> p.ancestors[d] * package == {}
  }

  // ----- entries made again ------------------------------------------------

  /** How much more an entry claims than what remains weighs. */
  ghost function Surplus(p: Pool, done: set<TxId>, d: TxId, e: ModEntry): ModEntry
    requires d in p.ancestors
  {
    var left := Remaining(p, d, done);
    ModEntry(e.size - Sum(Size(p), left), e.modFees - Sum(ModFee(p), left), e.sigOps - Sum(SigOps(p), left))
  }

  /** An entry that is made while some ancestors are in the block already claims exactly what
      those ancestors weigh on top. */
  lemma RemadeClaims(p: Pool, done: set<TxId>, added: set<TxId>, mod: map<TxId, ModEntry>, after: map<TxId, ModEntry>, d: TxId)
    requires WellFormed(p) && TotalsCached(p) && added !! done && Updated(p, added, mod - added, after)
    requires d in p.txs && d !in done + added && d !in mod && p.ancestors[d] * added != {}
    ensures d in after
    ensures var gone, surplus := p.ancestors[d] * done, Surplus(p, done + added, d, after[d]);
            && surplus.size == Sum(Size(p), gone) && surplus.sigOps == Sum(SigOps(p), gone)
            && (Unprioritised(p) ==> surplus.modFees == Sum(ModFee(p), gone))
  {
    hide Linked, Sum;
    var gone := p.ancestors[d] * done;
    assert CutBy(p, mod - added, d, p.ancestors[d] * added, after);
    RemainingLoses(p, d, done, added);
    assert p.ancestors[d] + {d} == Remaining(p, d, done) + gone;
    SumUnion(Size(p), Remaining(p, d, done), gone);
    SumUnion(SigOps(p), Remaining(p, d, done), gone);
    SumUnion(ModFee(p), Remaining(p, d, done), gone);
  }

  /** Later updates leave the surplus as it is. */
  lemma SurplusStays(p: Pool, done: set<TxId>, added: set<TxId>, mod: map<TxId, ModEntry>, after: map<TxId, ModEntry>, d: TxId)
    requires WellFormed(p) && added !! done && Updated(p, added, mod - added, after)
    requires d in p.txs && d !in done + added && d in mod
    ensures d in after
    ensures var before, now := Surplus(p, done, d, mod[d]), Surplus(p, done + added, d, after[d]);
            now.size == before.size && now.sigOps == before.sigOps && (Unprioritised(p) ==> now.modFees == before.modFees)
  {
    hide Linked, Sum;
    assert CutBy(p, mod - added, d, p.ancestors[d] * added, after);
    RemainingLoses(p, d, done, added);
  }

  /** So, as every transaction has a size, it is exact just when no ancestor was in the block. */
  lemma RemadeIsExact(p: Pool, done: set<TxId>, added: set<TxId>, mod: map<TxId, ModEntry>, after: map<TxId, ModEntry>, d: TxId)
    requires WellFormed(p) && TotalsCached(p) && added !! done && Updated(p, added, mod - added, after)
    requires d in p.txs && d !in done + added && d !in mod && p.ancestors[d] * added != {}
    requires forall t <- p.txs :: p.txs[t].size > 0
    ensures d in after && (EntryTracks(p, done + added, d, after[d], true) <==> p.ancestors[d] * done == {})
  {
    hide Linked, Sum;
    var gone := p.ancestors[d] * done;
    RemadeClaims(p, done, added, mod, after, d);
    if gone == {} {
      SumEmpty(Size(p));
      SumEmpty(SigOps(p));
      SumEmpty(ModFee(p));
    } else {
      AncestorsIn(p, d);
      SizeIsPositive(p, gone);
    }
  }

  lemma AncestorsIn(p: Pool, d: TxId)
    requires WellFormed(p) && d in p.txs
    ensures p.ancestors[d] <= p.txs.Keys
  {
  }

  lemma SizeIsPositive(p: Pool, s: set<TxId>)
    requires s != {} && forall t <- s :: t in p.txs && p.txs[t].size > 0
    ensures Sum(Size(p), s) > 0
  {
    hide Sum;
    var t :| t in s;
    SumOne(Size(p), s, t);
    SumNonNegative(Size(p), s - {t});
  }

  const FIRST := TxId(0)
  const SECOND := TxId(1)
  const CHILD := TxId(2)
  const PAYING := TxId(3)

  /** PAYING pays for FIRST, its parent; CHILD is a child of FIRST and of SECOND. */
  function Family(): Pool {
    Pool(map[FIRST := Tx(1000, 0, 0, 0, {}, [], true, false, 1000, 0, 0),
             SECOND := Tx(1000, 0, 1000, 1000, {}, [], true, false, 1000, 0, 1000),
             CHILD := Tx(500, 0, 600, 600, {FIRST, SECOND}, [], false, false, 2500, 0, 1600),
             PAYING := Tx(500, 0, 2000, 2000, {FIRST}, [], true, false, 1500, 0, 2000)],
         map[FIRST := {}, SECOND := {}, CHILD := {FIRST, SECOND}, PAYING := {FIRST}])
  }

  lemma SumIs(weight: TxId -> int)
    ensures Sum(weight, {FIRST}) == weight(FIRST) && Sum(weight, {SECOND}) == weight(SECOND)
    ensures Sum(weight, {FIRST, PAYING}) == weight(FIRST) + weight(PAYING)
    ensures Sum(weight, {FIRST, SECOND, CHILD}) == weight(FIRST) + weight(SECOND) + weight(CHILD)
  {
    hide Sum;
    SumEmpty(weight);
    SumOne(weight, {FIRST}, FIRST);
    SumOne(weight, {SECOND}, SECOND);
    SumOne(weight, {FIRST, PAYING}, PAYING);
    SumOne(weight, {FIRST, SECOND, CHILD}, CHILD);
    SumOne(weight, {FIRST, SECOND}, SECOND);
    assert {FIRST} - {FIRST} == {} && {SECOND} - {SECOND} == {} && {FIRST, PAYING} - {PAYING} == {FIRST};
    assert {FIRST, SECOND, CHILD} - {CHILD} == {FIRST, SECOND} && {FIRST, SECOND} - {SECOND} == {FIRST};
  }

  lemma FamilyIsLinked()
    ensures WellFormed(Family()) && Unprioritised(Family())
  {
    var p := Family();
    assert AncestorsOf(p, CHILD, {FIRST, SECOND}) && AncestorsOf(p, PAYING, {FIRST});
  }

  lemma FamilyIsRight()
    ensures WellFormed(Family()) && TotalsCached(Family()) && Unprioritised(Family())
  {
    hide Sum, WellFormed;
    FamilyIsLinked();
    var p := Family();
    assert {} + {FIRST} == {FIRST} && {} + {SECOND} == {SECOND} && {FIRST} + {PAYING} == {FIRST, PAYING};
    assert {FIRST, SECOND} + {CHILD} == {FIRST, SECOND, CHILD};
    forall t <- p.txs
      ensures t in p.ancestors && p.txs[t].sizeWithAncestors == Sum(Size(p), p.ancestors[t] + {t})
      ensures p.txs[t].sigOpsWithAncestors == Sum(SigOps(p), p.ancestors[t] + {t})
      ensures p.txs[t].modFeesWithAncestors == Sum(ModFee(p), p.ancestors[t] + {t})
    {
      SumIs(Size(p));
      SumIs(SigOps(p));
      SumIs(ModFee(p));
    }
  }

  /** CHILD has failed while FIRST was in the block. Once SECOND is there too, the entry made
      again claims 1500 bytes, of which 500 are left: at a relay fee of one a byte it seems to
      pay too little, and does not. */
  lemma RemadeClaimsTooMuch(after: map<TxId, ModEntry>)
    requires WellFormed(Family()) && Updated(Family(), {SECOND}, map[], after)
    ensures var p, done := Family(), {FIRST, PAYING};
            && TotalsCached(p) && Unprioritised(p) && Tracked(p, done, map[], {CHILD})
            && Remaining(p, CHILD, done + {SECOND}) == {CHILD} && p.txs[CHILD].size == 500 && p.txs[CHILD].modFee == 600
            && CHILD in after && after[CHILD] == ModEntry(1500, 600, 0)
  {
    hide Sum, Linked;
    var p, done := Family(), {FIRST, PAYING};
    FamilyIsRight();
    assert p.ancestors[CHILD] * {SECOND} == {SECOND};
    assert CutBy(p, map[], CHILD, p.ancestors[CHILD] * {SECOND}, after);
    SumIs(Size(p));
    SumIs(SigOps(p));
    SumIs(ModFee(p));
  }

  lemma EraseTracks(p: Pool, done: set<TxId>, mod: map<TxId, ModEntry>, failed: set<TxId>, t: TxId)
    requires WellFormed(p) && Tracked(p, done, mod, failed) && t in mod
    ensures Tracked(p, done, mod - {t}, failed + {t})
  {
    forall d | d in mod - {t}
      ensures EntryTracks(p, done, d, mod[d], d !in failed + {t})
    {
      assert EntryTracks(p, done, d, mod[d], d !in failed);
    }
  }

  lemma NothingTracked(p: Pool)
    requires WellFormed(p)
    ensures Tracked(p, {}, map[], {})
  {
  }
}
