/** The mempool as block assembly sees it: an immutable finite graph of transactions
    with the ancestor sets it answers queries from, and sums over sets of them. */
module Mempool {

  /** A transaction hash, which also stands for the pool's entry of that transaction. */
  datatype TxId = TxId(n: nat)

  /** lockRefs are the vote locks a governance vote cast names; they are empty for any
      other transaction. isFinal is finality at the height of the block being built. The
      three last fields are the totals the pool caches over t and its ancestors. */
  datatype Tx = Tx(
    size: nat, sigOps: nat, fee: int, modFee: int,
    parents: set<TxId>, lockRefs: seq<TxId>, isFinal: bool, isShielded: bool,
    sizeWithAncestors: int, sigOpsWithAncestors: int, modFeesWithAncestors: int)

  /** ancestors is what CalculateMemPoolAncestors answers without limits. */
  datatype Pool = Pool(txs: map<TxId, Tx>, ancestors: map<TxId, set<TxId>>)

  ghost predicate WellFormed(p: Pool) {
    && p.ancestors.Keys == p.txs.Keys
    && Linked(p)
  }

  /** The ancestors of t are its parents and theirs; t is none of them. */
  ghost predicate Linked(p: Pool)
    requires p.ancestors.Keys == p.txs.Keys
  {
    && (forall t <- p.txs :: p.txs[t].parents <= p.txs.Keys && p.ancestors[t] <= p.txs.Keys)
    && (forall t <- p.txs :: t !in p.ancestors[t])
    && (forall t <- p.txs :: AncestorsOf(p, t, p.ancestors[t]))
  }

  /** The cached totals are the true ones. */
  ghost predicate TotalsCached(p: Pool)
    requires WellFormed(p)
  {
    forall t <- p.txs ::
      && p.txs[t].sizeWithAncestors == Sum(Size(p), p.ancestors[t] + {t})
      && p.txs[t].sigOpsWithAncestors == Sum(SigOps(p), p.ancestors[t] + {t})
      && p.txs[t].modFeesWithAncestors == Sum(ModFee(p), p.ancestors[t] + {t})
  }

  /** s is the parents of t and their ancestors. */
  ghost predicate AncestorsOf(p: Pool, t: TxId, s: set<TxId>)
    requires t in p.txs
  {
    && p.txs[t].parents <= s
    && (forall q <- p.txs[t].parents :: q in p.ancestors && p.ancestors[q] <= s)
    && (forall x <- s :: x in p.txs[t].parents || exists q :: q in p.txs[t].parents && q in p.ancestors && x in p.ancestors[q])
  }

  /** CalculateDescendants: t and everything it is an ancestor of. */
  function Descendants(p: Pool, t: TxId): set<TxId> {
    set d | d in p.txs && (d == t || (d in p.ancestors && t in p.ancestors[d]))
  }

  /** The vote locks that t names and that are in the pool. */
  function Locks(p: Pool, t: TxId): set<TxId> {
    if t in p.txs then set l | l in p.txs[t].lockRefs && l in p.txs else {}
  }

  /** What has to come before t in a block. */
  function Needs(p: Pool, t: TxId): set<TxId> {
    if t in p.txs then p.txs[t].parents + Locks(p, t) else {}
  }

  ghost predicate Ranks(p: Pool, rank: map<TxId, nat>) {
    forall t <- p.txs :: t in rank && forall q <- Needs(p, t) :: q in rank && rank[q] < rank[t]
  }

  /** Neither parents nor vote locks lead round in a circle. */
  ghost predicate Acyclic(p: Pool) {
    exists rank :: Ranks(p, rank)
  }

  /** No transaction has had its fee raised or lowered by prioritisation. */
  predicate Unprioritised(p: Pool) {
    forall t <- p.txs :: p.txs[t].fee == p.txs[t].modFee
  }

  // ----- ancestors ---------------------------------------------------------

  lemma ParentHasFewer(p: Pool, t: TxId, q: TxId)
    requires WellFormed(p) && t in p.txs && q in p.txs[t].parents
    ensures q in p.txs && p.ancestors[q] <= p.ancestors[t] && q in p.ancestors[t]
    ensures |p.ancestors[q]| < |p.ancestors[t]|
  {
    assert AncestorsOf(p, t, p.ancestors[t]);
    assert p.ancestors[t] == p.ancestors[q] + (p.ancestors[t] - p.ancestors[q]);
    assert q in p.ancestors[t] - p.ancestors[q];
  }

  /** An ancestor's ancestors are ancestors. */
  lemma {:induction false} AncestorsTransitive(p: Pool, t: TxId, a: TxId)
    requires WellFormed(p) && t in p.txs && a in p.ancestors[t]
    ensures a in p.txs && p.ancestors[a] <= p.ancestors[t]
    decreases |p.ancestors[t]|
  {
    assert AncestorsOf(p, t, p.ancestors[t]);
    if a !in p.txs[t].parents {
      var q :| q in p.txs[t].parents && q in p.ancestors && a in p.ancestors[q];
      ParentHasFewer(p, t, q);
      AncestorsTransitive(p, q, a);
    }
  }

  /** A set of transactions that has all ancestors of each of them, apart from those
      in done. */
  ghost predicate AncestorClosed(p: Pool, s: set<TxId>, done: set<TxId>) {
    forall t <- s :: t in p.ancestors && p.ancestors[t] <= s + done
  }

  /** The same for the vote locks they name. */
  ghost predicate LockClosed(p: Pool, s: set<TxId>, done: set<TxId>) {
    forall t <- s :: Locks(p, t) <= s + done
  }

  lemma ClosedHasNeeds(p: Pool, s: set<TxId>, done: set<TxId>, t: TxId)
    requires WellFormed(p) && s <= p.txs.Keys && AncestorClosed(p, s, done) && LockClosed(p, s, done)
    requires t in s
    ensures Needs(p, t) <= s + done
  {
    assert AncestorsOf(p, t, p.ancestors[t]);
  }

  /** A transaction that joins with its ancestors leaves no ancestor behind. */
  lemma LockJoins(p: Pool, s: set<TxId>, done: set<TxId>, l: TxId)
    requires WellFormed(p) && l in p.txs && AncestorClosed(p, s, done)
    ensures AncestorClosed(p, s + (p.ancestors[l] - done) + {l}, done)
    ensures p.ancestors[l] <= p.txs.Keys
  {
    var r := s + (p.ancestors[l] - done) + {l};
    forall t | t in r ensures t in p.ancestors && p.ancestors[t] <= r + done {
      if t !in s && t != l { AncestorsTransitive(p, l, t); }
    }
  }

  // ----- sums --------------------------------------------------------------

  ghost function Sum(weight: TxId -> int, s: set<TxId>): int
    decreases |s|
  {
    if s == {} then 0 else
      var t :| t in s;
      weight(t) + Sum(weight, s - {t})
  }

  lemma SumEmpty(weight: TxId -> int)
    ensures Sum(weight, {}) == 0
  {
  }

  lemma {:induction false} SumOne(weight: TxId -> int, s: set<TxId>, t: TxId)
    requires t in s
    ensures Sum(weight, s) == weight(t) + Sum(weight, s - {t})
    decreases |s|
  {
    var x :| x in s && Sum(weight, s) == weight(x) + Sum(weight, s - {x});
    if x != t {
      SumOne(weight, s - {x}, t);
      SumOne(weight, s - {t}, x);
      assert s - {x} - {t} == s - {t} - {x};
    }
  }

  lemma {:induction false} SumUnion(weight: TxId -> int, a: set<TxId>, b: set<TxId>)
    requires a !! b
    ensures Sum(weight, a + b) == Sum(weight, a) + Sum(weight, b)
    decreases |a|
  {
    if a == {} {
      assert a + b == b;
    } else {
      var t :| t in a;
      SumOne(weight, a, t);
      SumOne(weight, a + b, t);
      assert (a + b) - {t} == (a - {t}) + b;
      SumUnion(weight, a - {t}, b);
    }
  }

  lemma {:induction false} SumNonNegative(weight: TxId -> int, s: set<TxId>)
    requires forall t <- s :: weight(t) >= 0
    ensures Sum(weight, s) >= 0
    decreases |s|
  {
    if s != {} {
      var t :| t in s;
      SumOne(weight, s, t);
      SumNonNegative(weight, s - {t});
    }
  }

  function Size(p: Pool): TxId -> int {
    t => if t in p.txs then p.txs[t].size else 0
  }

  function SigOps(p: Pool): TxId -> int {
    t => if t in p.txs then p.txs[t].sigOps else 0
  }

  function Fee(p: Pool): TxId -> int {
    t => if t in p.txs then p.txs[t].fee else 0
  }

  function ModFee(p: Pool): TxId -> int {
    t => if t in p.txs then p.txs[t].modFee else 0
  }
}
