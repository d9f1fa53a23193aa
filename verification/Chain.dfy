/** Where the skip pointers lead. */
module SkipHeights {

  /** Bitwise and. */
  function And(x: nat, y: nat): nat {
    if x == 0 || y == 0 then 0
    else 2 * And(x / 2, y / 2) + (if x % 2 == 1 && y % 2 == 1 then 1 else 0)
  }

  /** Turns the lowest one bit into a zero. */
  function InvertLowestOne(n: nat): nat {
    if n == 0 then 0 else And(n, n - 1)
  }

  function GetSkipHeight(height: nat): nat {
    if height < 2 then 0
    else if height % 2 == 1 then InvertLowestOne(InvertLowestOne(height - 1)) + 1
    else InvertLowestOne(height)
  }

  lemma {:induction false} AndBelow(x: nat, y: nat)
    ensures And(x, y) <= y
  {
    if x != 0 && y != 0 { AndBelow(x / 2, y / 2); }
  }

  /** A skip pointer always leads down. */
  lemma SkipsDown(height: nat)
    requires height > 0
    ensures GetSkipHeight(height) < height
  {
    if height >= 2 {
      if height % 2 == 1 {
        AndBelow(height - 1, height - 2);
        var m := InvertLowestOne(height - 1);
        if m > 0 { AndBelow(m, m - 1); }
      } else {
        AndBelow(height, height - 1);
      }
    }
  }

  /** Clearing the lowest one bit: what is left has the same bits but that one. */
  lemma {:induction false} ClearsLowestOne(n: nat)
    requires n > 0
    ensures InvertLowestOne(n) == if n % 2 == 1 then n - 1 else 2 * InvertLowestOne(n / 2)
  {
    if n % 2 == 1 {
      AndSelf(n / 2);
    } else {
      assert (n - 1) / 2 == n / 2 - 1;
    }
  }

  lemma {:induction false} AndSelf(x: nat)
    ensures And(x, x) == x
  {
    if x != 0 { AndSelf(x / 2); }
  }
}

/** The tree of blocks and the chain that ends at its tip. */
module Chain {
  import opened SkipHeights
  import opened SkipSteps
  import opened Common

  class CBlockIndex {
    const pprev: CBlockIndex?
    const nHeight: nat
    const hash: nat
    var pskip: CBlockIndex?

    /** Heights count the blocks below. */
    ghost predicate Linked()
      decreases nHeight
    {
      if pprev == null then nHeight == 0 else pprev.nHeight + 1 == nHeight && pprev.Linked()
    }

    /** The ancestor at a height, found block by block. */
    ghost function Walk(height: int): CBlockIndex?
      requires Linked()
      decreases nHeight
    {
      if height > nHeight || height < 0 then null
      else if height == nHeight then this
      else pprev.Walk(height)
    }

    ghost function Ancestors(): set<CBlockIndex>
      requires Linked()
      decreases nHeight
    {
      {this} + if pprev == null then {} else pprev.Ancestors()
    }

    /** Every skip pointer from here down is where BuildSkip puts it. */
    ghost predicate SkipsSet()
      requires Linked()
      reads Ancestors()
      decreases nHeight
    {
      && (pprev != null ==> pskip == pprev.Walk(GetSkipHeight(nHeight)))
      && (pprev != null ==> pprev.SkipsSet())
    }

    constructor (pprev: CBlockIndex?, hash: nat)
      requires pprev != null ==> pprev.Linked()
      ensures this.pprev == pprev && this.hash == hash && Linked()
    {
      this.pprev := pprev;
      this.hash := hash;
      nHeight := if pprev == null then 0 else pprev.nHeight + 1;
    }

    // ----- ancestors ---------------------------------------------------------

    lemma {:induction false} WalkIs(height: int)
      requires Linked() && 0 <= height <= nHeight
      ensures Walk(height) != null && Walk(height).nHeight == height && Walk(height).Linked()
      ensures Walk(height) in Ancestors() && Walk(height).Ancestors() <= Ancestors()
      decreases nHeight
    {
      if height < nHeight { pprev.WalkIs(height); }
    }

    /** An ancestor's ancestors are ancestors. */
    lemma {:induction false} WalkOn(a: int, b: int)
      requires Linked() && 0 <= b <= a <= nHeight
      ensures Walk(a) != null && Walk(a).Linked() && Walk(a).Walk(b) == Walk(b)
      decreases nHeight
    {
      WalkIs(a);
      if a < nHeight { pprev.WalkOn(a, b); }
    }

    /** The parent of an ancestor is the ancestor one below. */
    lemma {:induction false} WalkDown(height: int)
      requires Linked() && 0 <= height <= nHeight
      ensures Walk(height) != null && Walk(height).pprev == Walk(height - 1)
      decreases nHeight
    {
      WalkIs(height);
      if height < nHeight { pprev.WalkDown(height); } else if height > 0 { pprev.WalkIs(height - 1); }
    }

    lemma {:induction false} AncestorsAllocated()
      requires Linked()
      ensures forall b :: b in Ancestors() ==> allocated(b)
      decreases nHeight
    {
      if pprev != null { pprev.AncestorsAllocated(); }
    }

    lemma WalkFacts(height: int)
      requires Linked()
      ensures 0 <= height <= nHeight ==> Walk(height) != null && Walk(height).nHeight == height && Walk(height).pprev == Walk(height - 1)
      ensures !(0 <= height <= nHeight) ==> Walk(height) == null
      ensures Walk(nHeight) == this
    {
      if 0 <= height <= nHeight {
        WalkIs(height);
        WalkDown(height);
      }
    }

    lemma {:induction false} SkipsSetBelow(height: int)
      requires Linked() && SkipsSet() && 0 <= height <= nHeight
      ensures Walk(height) != null && Walk(height).Linked() && Walk(height).SkipsSet()
      decreases nHeight
    {
      WalkIs(height);
      if height < nHeight { pprev.SkipsSetBelow(height); }
    }

    /** The ancestor at a height, found by skipping: at most n * n steps away if the heights
        agree but for the last n bits. */
    method GetAncestor(height: int) returns (r: CBlockIndex?, ghost steps: nat)
      requires Linked() && SkipsSet()
      ensures r == Walk(height) && SkipsSet()
      ensures forall n: nat | r != null && nHeight / Pow2(n) == height / Pow2(n) :: steps <= n * n
    {
      hide Steps, GetSkipHeight, Pow2;
      steps := 0;
      if height > nHeight || height < 0 { return null, 0; }
      var pindexWalk: CBlockIndex? := this;
      var heightWalk := nHeight;
      while heightWalk > height
        invariant pindexWalk != null && height <= heightWalk == pindexWalk.nHeight
        invariant pindexWalk.Linked() && pindexWalk.SkipsSet() && SkipsSet()
        invariant pindexWalk.Walk(height) == Walk(height)
        invariant steps + Steps(heightWalk, height) == Steps(nHeight, height)
        decreases heightWalk
      {
        StepsAre(heightWalk, height);
        steps := steps + 1;
        var heightSkip := GetSkipHeight(heightWalk);
        var heightSkipPrev := GetSkipHeight(heightWalk - 1);
        SkipsDown(heightWalk);
        if heightSkip == height ||
           (heightSkip > height && !(heightSkipPrev < heightSkip - 2 && heightSkipPrev >= height)) {
          pindexWalk.pprev.WalkOn(heightSkip, height);
          pindexWalk.pprev.WalkIs(heightSkip);
          pindexWalk.pprev.SkipsSetBelow(heightSkip);
          pindexWalk := pindexWalk.pskip;
          heightWalk := heightSkip;
        } else {
          assert pindexWalk.pprev != null;
          pindexWalk := pindexWalk.pprev;
          heightWalk := heightWalk - 1;
        }
      }
      r := pindexWalk;
      StepsAreFewAnyway(nHeight, height);
    }

    method BuildSkip()
      requires Linked() && (pprev != null ==> pprev.SkipsSet())
      modifies this`pskip
      ensures SkipsSet()
      ensures pprev == null ==> pskip == old(pskip)
    {
      if pprev != null {
        NotAmongAncestors(pprev);
        ghost var steps;
        pskip, steps := pprev.GetAncestor(GetSkipHeight(nHeight));
      }
    }

    lemma {:induction false} NotAmongAncestors(b: CBlockIndex)
      requires b.Linked() && b.nHeight < nHeight
      ensures this !in b.Ancestors()
      decreases b.nHeight
    {
      if b.pprev != null { NotAmongAncestors(b.pprev); }
    }
  }

  /** a and b have the same ancestor at this height. */
  ghost predicate Meet(a: CBlockIndex, b: CBlockIndex, height: int)
    requires a.Linked() && b.Linked()
  {
    a.Walk(height) != null && a.Walk(height) == b.Walk(height)
  }

  /** r is the highest block that a and b both descend from, or null if there is none. */
  ghost predicate LastCommon(r: CBlockIndex?, a: CBlockIndex, b: CBlockIndex)
    requires a.Linked() && b.Linked()
  {
    && (r != null ==> a.Walk(r.nHeight) == r && b.Walk(r.nHeight) == r)
    && forall h: int :: Meet(a, b, h) ==> r != null && h <= r.nHeight
  }

  /** It is the only one. */
  lemma LastCommonIsUnique(r: CBlockIndex?, s: CBlockIndex?, a: CBlockIndex, b: CBlockIndex)
    requires a.Linked() && b.Linked() && LastCommon(r, a, b) && LastCommon(s, a, b)
    ensures r == s
  {
    if r != null { assert Meet(a, b, r.nHeight); }
    if s != null { assert Meet(a, b, s.nHeight); }
  }

  method LastCommonAncestor(pa0: CBlockIndex, pb0: CBlockIndex) returns (r: CBlockIndex?)
    requires pa0.Linked() && pb0.Linked() && pa0.SkipsSet() && pb0.SkipsSet()
    ensures LastCommon(r, pa0, pb0)
  {
    hide CBlockIndex.Walk, CBlockIndex.Linked, CBlockIndex.Ancestors, CBlockIndex.SkipsSet;
    var pa: CBlockIndex?, pb: CBlockIndex? := pa0, pb0;
    pa0.WalkFacts(pa0.nHeight);
    pb0.WalkFacts(pb0.nHeight);
    pa0.WalkFacts(pb0.nHeight);
    pb0.WalkFacts(pa0.nHeight);
    ghost var steps;
    if pa.nHeight > pb.nHeight {
      pa, steps := pa.GetAncestor(pb.nHeight);
    } else if pb.nHeight > pa.nHeight {
      pb, steps := pb.GetAncestor(pa.nHeight);
    }
    ghost var top: int := pa.nHeight;
    MeetRange(pa0, pb0);
    while pa != pb && pa != null && pb != null
      invariant -1 <= top <= pa0.nHeight && top <= pb0.nHeight
      invariant pa == pa0.Walk(top) && pb == pb0.Walk(top)
      invariant forall h: int :: Meet(pa0, pb0, h) ==> h <= top
      decreases top
    {
      pa0.WalkFacts(top);
      pb0.WalkFacts(top);
      pa := pa.pprev;
      pb := pb.pprev;
      top := top - 1;
    }
    pa0.WalkFacts(top);
    pb0.WalkFacts(top);
    MeetRange(pa0, pb0);
    r := pa;
  }

  lemma MeetRange(a: CBlockIndex, b: CBlockIndex)
    requires a.Linked() && b.Linked()
    ensures forall h: int :: Meet(a, b, h) ==> 0 <= h <= a.nHeight && h <= b.nHeight
  {
  }

  class CChain {
    var vChain: seq<CBlockIndex?>

    /** The chain is the ancestors of its last entry, each at its height. */
    ghost predicate Valid()
      reads this
    {
      vChain == [] || (Tip() != null && IsPathTo(Tip()))
    }

    ghost predicate IsPathTo(tip: CBlockIndex)
      reads this
    {
      tip.Linked() && |vChain| == tip.nHeight + 1 && forall h: nat :: h < |vChain| ==> vChain[h] == tip.Walk(h)
    }

    constructor ()
      ensures vChain == [] && Valid()
    {
      vChain := [];
    }

    function Tip(): CBlockIndex? reads this {
      if |vChain| < 1 then null else vChain[|vChain| - 1]
    }

    function Height(): int reads this { |vChain| - 1 }

    function At(nHeight: int): CBlockIndex? reads this {
      if nHeight < 0 || nHeight >= |vChain| then null else vChain[nHeight]
    }

    predicate Contains(pindex: CBlockIndex) reads this {
      At(pindex.nHeight) == pindex
    }

    function Next(pindex: CBlockIndex): CBlockIndex? reads this {
      if Contains(pindex) then At(pindex.nHeight + 1) else null
    }

    /** Makes the chain that of a new tip, from the tip down to where it is the same. */
    method SetTip(pindex0: CBlockIndex?)
      requires Valid() && (pindex0 != null ==> pindex0.Linked())
      modifies this
      ensures Valid()
      ensures if pindex0 == null then vChain == [] else IsPathTo(pindex0) && Tip() == pindex0
    {
      hide CBlockIndex.Walk, CBlockIndex.Linked;
      if pindex0 == null {
        vChain := [];
        return;
      }
      ghost var was, oldTip := vChain, Tip();
      var n := pindex0.nHeight + 1;
      if n <= |vChain| {
        vChain := vChain[..n];
      } else {
        vChain := vChain + seq(n - |vChain|, i => null);
      }
      ghost var resized := vChain;
      var pindex: CBlockIndex? := pindex0;
      ghost var h: int := pindex0.nHeight;
      pindex0.WalkFacts(h);
      while pindex != null && vChain[pindex.nHeight] != pindex
        invariant -1 <= h <= pindex0.nHeight && |vChain| == n
        invariant pindex == pindex0.Walk(h) && (pindex != null ==> pindex.nHeight == h)
        invariant forall k: nat :: h < k < n ==> vChain[k] == pindex0.Walk(k)
        invariant forall k: nat :: k <= h ==> vChain[k] == resized[k]
        decreases h
      {
        pindex0.WalkFacts(h);
        pindex0.WalkFacts(h - 1);
        vChain := vChain[pindex.nHeight := pindex];
        pindex := pindex.pprev;
        h := h - 1;
      }
      pindex0.WalkFacts(h);
      if pindex != null { SameBelow(pindex0, was, oldTip, h); }
      assert IsPathTo(pindex0);
      pindex0.WalkFacts(pindex0.nHeight);
    }

    /** If the old chain has a block at its height it has all the block's ancestors. */
    lemma SameBelow(tip: CBlockIndex, was: seq<CBlockIndex?>, oldTip: CBlockIndex?, h: nat)
      requires tip.Linked() && h <= tip.nHeight && h < |was| && was[h] == tip.Walk(h)
      requires oldTip != null && oldTip.Linked() && |was| == oldTip.nHeight + 1
      requires forall k: nat :: k < |was| ==> was[k] == oldTip.Walk(k)
      ensures forall k: nat :: k <= h ==> was[k] == tip.Walk(k)
    {
      forall k: nat | k <= h ensures was[k] == tip.Walk(k) {
        tip.WalkOn(h, k);
        oldTip.WalkOn(h, k);
      }
    }

    /** The last common block of the chain and a block. */
    method FindFork(pindex0: CBlockIndex?) returns (r: CBlockIndex?)
      requires Valid() && (pindex0 != null ==> pindex0.Linked() && pindex0.SkipsSet())
      ensures pindex0 == null || vChain == [] ==> r == null
      ensures pindex0 != null && vChain != [] ==> LastCommon(r, pindex0, Tip())
    {
      hide CBlockIndex.Walk, CBlockIndex.Linked, CBlockIndex.SkipsSet;
      if pindex0 == null { return null; }
      var pindex: CBlockIndex? := pindex0;
      ghost var top: int := pindex0.nHeight;
      pindex0.WalkFacts(top);
      if pindex.nHeight > Height() {
        ghost var steps;
        pindex, steps := pindex.GetAncestor(Height());
        top := Height();
        pindex0.WalkFacts(top);
      }
      ghost var tip := Tip();
      if vChain != [] { MeetRange(pindex0, tip); }
      while pindex != null && !Contains(pindex)
        invariant -1 <= top <= pindex0.nHeight && top <= Height()
        invariant pindex == pindex0.Walk(top) && (pindex != null ==> pindex.nHeight == top)
        invariant vChain != [] ==> forall h: int :: Meet(pindex0, tip, h) ==> h <= top
        decreases top
      {
        pindex0.WalkFacts(top);
        pindex0.WalkFacts(top - 1);
        pindex := pindex.pprev;
        top := top - 1;
      }
      pindex0.WalkFacts(top);
      r := pindex;
    }

    /** The hashes of a block and of ancestors at ever larger distances, down to genesis:
        no more than twelve and the logarithm of the height. */
    method GetLocator(pindex0: CBlockIndex?) returns (vHave: seq<nat>)
      requires Valid() && (pindex0 != null ==> pindex0.Linked() && pindex0.SkipsSet())
      requires vChain != [] ==> Tip().SkipsSet()
      ensures var start := if pindex0 == null then Tip() else pindex0;
              if start == null then vHave == [] else
                && start.Linked() && Locates(start, vHave)
                && vHave != [] && LocatorHeight(start.nHeight, |vHave| - 1) == 0
                && (|vHave| <= 12 || Pow2(|vHave| - 12) <= start.nHeight)
    {
      hide CBlockIndex.Walk, CBlockIndex.Linked, CBlockIndex.SkipsSet, Pow2, Steps, LocatorHeight, Locates;
      vHave := [];
      var nStep: nat := 1;
      var pindex: CBlockIndex? := if pindex0 == null then Tip() else pindex0;
      ghost var start := pindex;
      if pindex == null { return; }
      start.WalkFacts(start.nHeight);
      StepsStart(start.nHeight);
      LocatesNone(start);
      while pindex != null
        invariant pindex != null && start.Linked() && start.SkipsSet() && pindex == start.Walk(pindex.nHeight) && pindex.nHeight <= start.nHeight
        invariant nStep >= 1 && Steps(|vHave|, start.nHeight, pindex.nHeight, nStep)
        invariant Locates(start, vHave)
        invariant vHave == [] || LocatorHeight(start.nHeight, |vHave| - 1) > pindex.nHeight
        decreases pindex.nHeight
      {
        StepsBound(|vHave|, start.nHeight, pindex.nHeight, nStep);
        LocatesMore(start, vHave, pindex);
        vHave := vHave + [pindex.hash];
        if pindex.nHeight == 0 { break; }
        var nHeight := Max(pindex.nHeight - nStep, 0);
        start.WalkFacts(nHeight);
        start.SkipsSetBelow(pindex.nHeight);
        start.WalkOn(pindex.nHeight, nHeight);
        StepKeeps(|vHave| - 1, start.nHeight, pindex.nHeight, nStep);
        if Contains(pindex) {
          Tip().WalkOn(pindex.nHeight, nHeight);
          pindex := At(nHeight);
          assert pindex == start.Walk(nHeight);
        } else {
          start.AncestorsAllocated();
          ghost var steps;
          pindex, steps := pindex.GetAncestor(nHeight);
          assert pindex == start.Walk(nHeight);
        }
        if |vHave| > 10 {
          nStep := nStep * 2;
        }
      }
    }

    /** The hashes are those of start and of ancestors of it, ever lower and at the heights
        they should be at. */
    static ghost predicate Locates(start: CBlockIndex, vHave: seq<nat>)
      requires start.Linked()
    {
      && (forall i :: 0 <= i < |vHave| ==> IsHashAt(start, vHave[i], LocatorHeight(start.nHeight, i)))
      && (forall i, j :: 0 <= i < j < |vHave| ==> LocatorHeight(start.nHeight, i) > LocatorHeight(start.nHeight, j))
    }

    static ghost predicate IsHashAt(start: CBlockIndex, hash: nat, height: int)
      requires start.Linked()
    {
      start.Walk(height) != null && start.Walk(height).hash == hash
    }

    static lemma LocatesNone(start: CBlockIndex)
      requires start.Linked()
      ensures Locates(start, [])
    {
    }

    static lemma LocatesMore(start: CBlockIndex, vHave: seq<nat>, b: CBlockIndex)
      requires start.Linked() && Locates(start, vHave)
      requires b == start.Walk(b.nHeight) && b.nHeight == LocatorHeight(start.nHeight, |vHave|)
      requires vHave == [] || LocatorHeight(start.nHeight, |vHave| - 1) > b.nHeight
      ensures Locates(start, vHave + [b.hash])
    {
      hide CBlockIndex.Walk, CBlockIndex.Linked, LocatorHeight;
    }

    /** The height of hash k in the locator of a block at height h. */
    static function LocatorHeight(h: nat, k: nat): int {
      if k <= 10 then h - k else Max(h - 9 - Pow2(k - 10), 0)
    }

    /** Where the locator is, and its step, after k hashes from height h: ten steps of one,
        then steps that double. */
    static ghost predicate Steps(k: nat, h: nat, height: nat, nStep: nat) {
      && height == LocatorHeight(h, k)
      && nStep == (if k <= 10 then 1 else Pow2(k - 10))
      && (k >= 12 ==> Pow2(k - 11) <= h)
    }

    static lemma StepsStart(h: nat)
      ensures Steps(0, h, h, 1)
    {
    }

    static lemma StepsBound(k: nat, h: nat, height: nat, nStep: nat)
      requires Steps(k, h, height, nStep)
      ensures height == LocatorHeight(h, k) && (k + 1 <= 12 || Pow2(k + 1 - 12) <= h)
    {
    }

    static lemma StepKeeps(k: nat, h: nat, height: nat, nStep: nat)
      requires Steps(k, h, height, nStep) && height > 0
      ensures Steps(k + 1, h, Max(height - nStep, 0), if k + 1 > 10 then nStep * 2 else nStep)
    {
      hide Pow2;
      FirstPowers();
      if k > 10 { Pow2Next(k - 10); }
    }

    static lemma FirstPowers()
      ensures Pow2(0) == 1 && Pow2(1) == 2
    {
    }
  }
}
