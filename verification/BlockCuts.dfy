/** Packages that a shielded transaction cuts short, and when the selection gets stuck at one. */
module BlockCuts {
  import opened Mempool
  import opened PackageOrder
  import opened PackageTotals
  import opened PackageRoom
  import opened BlockGrowth

  /** The package of t, of which only the first upTo in order went into the block, which was
      before; modified tells whether the entry of t was a modified one, and counted how many
      bytes of shielded transactions there were then. */
  datatype Cut = Cut(t: TxId, modified: bool, package: set<TxId>, sorted: seq<TxId>, upTo: nat, before: set<TxId>, counted: int)

  /** The next one of the package may not follow. */
  ghost predicate CutOk(p: Pool, maintenance: bool, used: int, base: set<TxId>, done: set<TxId>, c: Cut) {
    && c.upTo < |c.sorted| && Lists(c.sorted, c.package) && base <= c.before && Least(p, c.t, c.package, c.before)
    && var part := Elements(c.sorted[..c.upTo]);
    && c.before + part <= done
    && Counted(p, maintenance, used, c.counted, c.before + part - base)
    && !Admits(p, maintenance, c.counted, c.sorted[c.upTo])
  }

  ghost predicate CutsOk(p: Pool, maintenance: bool, used: int, base: set<TxId>, done: set<TxId>, cuts: seq<Cut>) {
    forall i :: 0 <= i < |cuts| ==> CutOk(p, maintenance, used, base, done, cuts[i])
  }

  lemma CutsStay(p: Pool, maintenance: bool, used: int, base: set<TxId>, done: set<TxId>, cuts: seq<Cut>, after: set<TxId>)
    requires CutsOk(p, maintenance, used, base, done, cuts) && done <= after
    ensures CutsOk(p, maintenance, used, base, after, cuts)
  {
    hide Least, Counted, Admits, Lists;
  }

  lemma CutsMore(p: Pool, maintenance: bool, used: int, base: set<TxId>, done: set<TxId>, cuts: seq<Cut>, c: Cut)
    requires CutsOk(p, maintenance, used, base, done, cuts) && CutOk(p, maintenance, used, base, done, c)
    ensures CutsOk(p, maintenance, used, base, done, cuts + [c])
  {
    hide CutOk;
  }

  // ----- when there are none -----------------------------------------------

  /** There is room for every shielded transaction, if there are any. */
  ghost predicate AllAdmitted(p: Pool, maintenance: bool, used: int, base: set<TxId>) {
    || (forall t <- p.txs :: t !in base ==> !p.txs[t].isShielded)
    || (!maintenance && used + Sum(ShieldedSize(p), p.txs.Keys - base) <= MAX_BLOCK_SHIELDED_TXES_SIZE)
  }

  /** Then no package is cut short. */
  lemma NoneIsCut(p: Pool, maintenance: bool, used: int, base: set<TxId>, done: set<TxId>, c: Cut)
    requires AllAdmitted(p, maintenance, used, base) && done <= p.txs.Keys
    ensures !CutOk(p, maintenance, used, base, done, c)
  {
    hide Sum;
    if CutOk(p, maintenance, used, base, done, c) {
      var x, gone := c.sorted[c.upTo], c.before + Elements(c.sorted[..c.upTo]) - base;
      NextIsNew(c.sorted, c.package, c.upTo);
      PackageIsNew(p, c.t, c.package, c.before, x);
      assert gone + {x} - {x} == gone;
      SumOne(ShieldedSize(p), gone + {x}, x);
      SumOfPart(ShieldedSize(p), gone + {x}, p.txs.Keys - base);
    }
  }

  lemma PackageIsNew(p: Pool, t: TxId, package: set<TxId>, done: set<TxId>, x: TxId)
    requires Least(p, t, package, done) && x in package
    ensures x in p.txs && x !in done
  {
  }

  lemma NoCuts(p: Pool, maintenance: bool, used: int, base: set<TxId>, done: set<TxId>, cuts: seq<Cut>)
    requires AllAdmitted(p, maintenance, used, base) && done <= p.txs.Keys && CutsOk(p, maintenance, used, base, done, cuts)
    ensures cuts == []
  {
    hide AllAdmitted, CutOk;
    if cuts != [] { NoneIsCut(p, maintenance, used, base, done, cuts[0]); }
  }

  // ----- when a round changes nothing --------------------------------------

  /** The least package of t fits and pays, and so does what its entry e says. */
  ghost predicate CanGo(p: Pool, minFee: int -> int, t: TxId, e: ModEntry, done: set<TxId>, room: Room, package: set<TxId>) {
    && e.size < room.size && e.sigOps < room.sigOps
    && Least(p, t, package, done) && Fits(p, package, room) && Pays(p, minFee, package)
  }

  /** The first of the package may not follow, and nothing outside depends on any of it. */
  ghost predicate Blocked(p: Pool, maintenance: bool, used: int, package: set<TxId>) {
    && WellFormed(p) && NoneDepends(p, package)
    && exists first :: IsFirst(p, package, first) && !Admits(p, maintenance, used, first)
  }

  /** A package of t that can go is blocked. */
  ghost predicate Stalls(p: Pool, maintenance: bool, minFee: int -> int, t: TxId, e: ModEntry, done: set<TxId>, room: Room, used: int) {
    exists package :: CanGo(p, minFee, t, e, done, room, package) && Blocked(p, maintenance, used, package)
  }

  lemma LeastIsOnly(p: Pool, t: TxId, a: set<TxId>, b: set<TxId>, done: set<TxId>)
    requires Least(p, t, a, done) && Least(p, t, b, done)
    ensures a == b
  {
    hide Closed;
  }

  lemma StallsIs(p: Pool, maintenance: bool, minFee: int -> int, t: TxId, e: ModEntry, done: set<TxId>, room: Room, used: int, package: set<TxId>)
    requires CanGo(p, minFee, t, e, done, room, package)
    ensures Stalls(p, maintenance, minFee, t, e, done, room, used) <==> Blocked(p, maintenance, used, package)
  {
    hide Blocked, Least, Fits, Pays;
    if Stalls(p, maintenance, minFee, t, e, done, room, used) {
      var other :| CanGo(p, minFee, t, e, done, room, other) && Blocked(p, maintenance, used, other);
      LeastIsOnly(p, t, package, other, done);
    }
  }

  lemma BlockedIs(p: Pool, maintenance: bool, used: int, package: set<TxId>, first: TxId)
    requires WellFormed(p) && IsFirst(p, package, first)
    ensures Blocked(p, maintenance, used, package) <==> NoneDepends(p, package) && !Admits(p, maintenance, used, first)
  {
    hide IsFirst, Admits, NoneDepends, WellFormed;
    if Blocked(p, maintenance, used, package) {
      var other :| IsFirst(p, package, other) && !Admits(p, maintenance, used, other);
      FirstIsOnly(p, package, first, other);
    }
  }

  // ----- an instance -------------------------------------------------------

  /** Two transactions, SECOND a shielded child of FIRST. */
  function Couple(): Pool {
    Pool(map[FIRST := Tx(500, 0, 500, 500, {}, [], true, false, 500, 0, 500),
             SECOND := Tx(500, 0, 600, 600, {FIRST}, [], true, true, 1000, 0, 1100)],
         map[FIRST := {}, SECOND := {FIRST}])
  }

  lemma CoupleIsLinked()
    ensures WellFormed(Couple()) && AllSized(Couple())
  {
    assert AncestorsOf(Couple(), SECOND, {FIRST});
  }

  lemma CoupleIsRight()
    ensures WellFormed(Couple()) && TotalsCached(Couple()) && AllSized(Couple())
  {
    hide Sum, WellFormed;
    CoupleIsLinked();
    var p := Couple();
    assert {} + {FIRST} == {FIRST};
    BothAre(Size(p));
    BothAre(SigOps(p));
    BothAre(ModFee(p));
  }

  lemma BothAre(weight: TxId -> int)
    ensures Sum(weight, {FIRST}) == weight(FIRST) && Sum(weight, {SECOND}) == weight(SECOND)
    ensures Sum(weight, {FIRST} + {SECOND}) == weight(FIRST) + weight(SECOND)
  {
    SumIs(weight);
    SumUnion(weight, {FIRST}, {SECOND});
  }

  /** FIRST is in the block and maintenance is on: the selection gets stuck at SECOND, whose
      entry is exact and pays more than one a byte. */
  lemma ShieldedChildStalls(room: Room)
    requires room.size > 500 && room.sigOps > 0
    ensures var p, e := Couple(), ModEntry(500, 600, 0);
            && WellFormed(p) && TotalsCached(p) && AllSized(p)
            && EntryTracks(p, {FIRST}, SECOND, e, true) && e.modFees >= e.size
            && Stalls(p, true, size => size, SECOND, e, {FIRST}, room, 0)
  {
    hide Sum;
    var p, e, minFee := Couple(), ModEntry(500, 600, 0), (size: int) => size;
    CoupleIsRight();
    BothAre(Size(p));
    BothAre(SigOps(p));
    BothAre(ModFee(p));
    assert Remaining(p, SECOND, {FIRST}) == {SECOND};
    assert Least(p, SECOND, {SECOND}, {FIRST});
    assert IsFirst(p, {SECOND}, SECOND) && !Admits(p, true, 0, SECOND);
    assert CanGo(p, minFee, SECOND, e, {FIRST}, room, {SECOND}) && Blocked(p, true, 0, {SECOND});
  }
}
