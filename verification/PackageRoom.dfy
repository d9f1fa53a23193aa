/** What a block still has room for, and why a transaction that was turned away stays out:
    the block only fills up, so a package that does not fit never will. */
module PackageRoom {
  import opened Mempool
  import opened PackageOrder
  import opened PackageTotals

  /** A package that can go into a block holding done without leaving anything behind. */
  ghost predicate Closed(p: Pool, package: set<TxId>, done: set<TxId>) {
    && package <= p.txs.Keys
    && package !! done
    && AncestorClosed(p, package, done)
    && LockClosed(p, package, done)
  }

  /** The size and the sigops that are left, both to be undercut. */
  datatype Room = Room(size: int, sigOps: int)

  ghost predicate AllFinal(p: Pool, s: set<TxId>) {
    forall x <- s :: x in p.txs && p.txs[x].isFinal
  }

  ghost predicate Fits(p: Pool, s: set<TxId>, room: Room) {
    Sum(Size(p), s) < room.size && Sum(SigOps(p), s) < room.sigOps && AllFinal(p, s)
  }

  /** No package that takes t into the block fits. */
  ghost predicate NoRoom(p: Pool, t: TxId, done: set<TxId>, room: Room) {
    forall s :: Closed(p, s, done) && t in s ==> !Fits(p, s, room)
  }

  /** t with no more than has to go into the block with it. */
  ghost predicate Least(p: Pool, t: TxId, s: set<TxId>, done: set<TxId>) {
    && Closed(p, s, done) && t in s
    && forall r :: Closed(p, r, done) && t in r ==> s <= r
  }

  /** What t needed when the block was one of blocks did not pay the relay fee. */
  ghost predicate Underpaid(p: Pool, minFee: int -> int, t: TxId, blocks: seq<set<TxId>>) {
    exists i, s :: 0 <= i < |blocks| && Least(p, t, s, blocks[i]) && !Pays(p, minFee, s)
  }

  ghost predicate Pays(p: Pool, minFee: int -> int, s: set<TxId>) {
    Sum(ModFee(p), s) >= minFee(Sum(Size(p), s))
  }

  /** t was turned away for good. */
  ghost predicate TurnedDown(p: Pool, minFee: int -> int, t: TxId, blocks: seq<set<TxId>>, done: set<TxId>, room: Room) {
    NoRoom(p, t, done, room) || Underpaid(p, minFee, t, blocks)
  }

  // ----- the blocks the selection went through -----------------------------

  /** What is left of start after the block grew from base to done. */
  ghost function Left(p: Pool, start: Room, base: set<TxId>, done: set<TxId>): Room {
    Room(start.size - Sum(Size(p), done - base), start.sigOps - Sum(SigOps(p), done - base))
  }

  /** The block grew by what some transaction needed, which fitted and paid. */
  ghost predicate ByOnePackage(p: Pool, minFee: int -> int, room: Room, before: set<TxId>, after: set<TxId>) {
    exists t, s :: Least(p, t, s, before) && Fits(p, s, room) && Pays(p, minFee, s) && after == before + s
  }

  /** blocks is what the block was in turn: each got from the one before by one package, and
      each is what it was at first with the first transactions of added. */
  ghost predicate Reached(p: Pool, minFee: int -> int, start: Room, blocks: seq<set<TxId>>, added: seq<TxId>) {
    && |blocks| > 0
    && (forall i :: 0 <= i < |blocks| - 1 ==> ByOnePackage(p, minFee, Left(p, start, blocks[0], blocks[i]), blocks[i], blocks[i + 1]))
    && (forall i :: 0 <= i < |blocks| ==> IsPrefix(added, blocks[i] - blocks[0]))
  }

  ghost predicate IsPrefix(added: seq<TxId>, s: set<TxId>) {
    exists n :: 0 <= n <= |added| && Lists(added[..n], s)
  }

  lemma ReachedFirst(p: Pool, minFee: int -> int, start: Room, base: set<TxId>)
    ensures Reached(p, minFee, start, [base], [])
  {
    var none: seq<TxId> := [];
    assert base - base == {} && Lists(none[..0], {});
  }

  lemma ReachedMore(p: Pool, minFee: int -> int, start: Room, blocks: seq<set<TxId>>, added: seq<TxId>,
                    t: TxId, s: set<TxId>, after: set<TxId>, more: seq<TxId>)
    requires Reached(p, minFee, start, blocks, added)
    requires var done := blocks[|blocks| - 1];
             && Least(p, t, s, done) && Fits(p, s, Left(p, start, blocks[0], done)) && Pays(p, minFee, s)
             && after == done + s && Lists(added + more, after - blocks[0])
    ensures Reached(p, minFee, start, blocks + [after], added + more)
  {
    hide Least, Fits, Pays, Lists, Left;
    var now := blocks + [after];
    forall i | 0 <= i < |now| ensures IsPrefix(added + more, now[i] - now[0]) {
      if i < |blocks| {
        var n :| 0 <= n <= |added| && Lists(added[..n], blocks[i] - blocks[0]);
        assert (added + more)[..n] == added[..n];
      } else {
        assert (added + more)[..|added + more|] == added + more;
      }
    }
  }

  lemma SumOfPart(weight: TxId -> int, a: set<TxId>, b: set<TxId>)
    requires a <= b && forall t <- b :: weight(t) >= 0
    ensures Sum(weight, a) <= Sum(weight, b)
  {
    assert b == a + (b - a);
    SumUnion(weight, a, b - a);
    SumNonNegative(weight, b - a);
  }

  /** A package after another one is a package together with it. */
  lemma ClosedTogether(p: Pool, package: set<TxId>, s: set<TxId>, done: set<TxId>)
    requires Closed(p, package, done) && Closed(p, s, done + package)
    ensures Closed(p, s + package, done)
  {
    assert s + (done + package) == s + package + done;
  }

  lemma NoRoomStays(p: Pool, t: TxId, done: set<TxId>, room: Room, package: set<TxId>)
    requires NoRoom(p, t, done, room) && Closed(p, package, done) && AllFinal(p, package)
    ensures NoRoom(p, t, done + package, Room(room.size - Sum(Size(p), package), room.sigOps - Sum(SigOps(p), package)))
  {
    hide AncestorClosed, LockClosed, Sum;
    var left := Room(room.size - Sum(Size(p), package), room.sigOps - Sum(SigOps(p), package));
    forall s | Closed(p, s, done + package) && t in s ensures !Fits(p, s, left) {
      ClosedTogether(p, package, s, done);
      assert !Fits(p, s + package, room);
      SumUnion(Size(p), s, package);
      SumUnion(SigOps(p), s, package);
    }
  }

  /** Adding a package takes back no refusal. */
  lemma TurnedDownStays(p: Pool, minFee: int -> int, t: TxId, blocks: seq<set<TxId>>, done: set<TxId>, room: Room, package: set<TxId>)
    requires TurnedDown(p, minFee, t, blocks, done, room) && Closed(p, package, done) && AllFinal(p, package)
    ensures TurnedDown(p, minFee, t, blocks + [done + package], done + package,
                       Room(room.size - Sum(Size(p), package), room.sigOps - Sum(SigOps(p), package)))
  {
    hide Closed, AllFinal, Sum, Fits, Least, NoRoom, Pays;
    if NoRoom(p, t, done, room) {
      NoRoomStays(p, t, done, room, package);
    } else {
      var i, s :| 0 <= i < |blocks| && Least(p, t, s, blocks[i]) && !Pays(p, minFee, s);
      assert (blocks + [done + package])[i] == blocks[i];
    }
  }

  /** If the least package is too much, or not final, any package is. */
  lemma LeastTooMuch(p: Pool, t: TxId, s: set<TxId>, done: set<TxId>, room: Room)
    requires Least(p, t, s, done) && !Fits(p, s, room)
    ensures NoRoom(p, t, done, room)
  {
    hide Sum;
    forall r | Closed(p, r, done) && t in r ensures !Fits(p, r, room) {
      SumOfPart(Size(p), s, r);
      SumOfPart(SigOps(p), s, r);
    }
  }

  /** If what remains of t and its ancestors is too much, any package is. */
  lemma RemainingTooMuch(p: Pool, t: TxId, done: set<TxId>, room: Room, e: ModEntry)
    requires WellFormed(p) && t in p.txs && EntryTracks(p, done, t, e, true)
    requires !(e.size < room.size && e.sigOps < room.sigOps)
    ensures NoRoom(p, t, done, room)
  {
    hide Linked, Sum, LockClosed;
    forall r | Closed(p, r, done) && t in r ensures !Fits(p, r, room) {
      assert Remaining(p, t, done) <= r;
      SumOfPart(Size(p), Remaining(p, t, done), r);
      SumOfPart(SigOps(p), Remaining(p, t, done), r);
    }
  }
}
