/** The history of a rolling filter: which insert touched a cell last, and in which
    generation that was. */
module BloomHistory {

  /** A cell of the filter: the bit of a pair of words. */
  datatype Cell = Cell(pair: nat, bit: nat)

  /** What index in the list last touched the cell, or -1. */
  function LastTouch(touched: seq<set<Cell>>, c: Cell): (i: int)
    ensures -1 <= i < |touched|
    ensures i >= 0 ==> c in touched[i]
    ensures forall k :: i < k < |touched| ==> c !in touched[k]
  {
    if touched == [] then -1
    else if c in touched[|touched| - 1] then |touched| - 1
    else LastTouch(touched[..|touched| - 1], c)
  }

  /** The generation that insert number i belongs to, counted from 0 without end. */
  function Era(i: nat, perGeneration: nat): nat
    requires perGeneration > 0
  {
    i / perGeneration
  }

  /** The number from 1 to 3 that stands for it in the cells. */
  function Label(era: nat): nat { era % 3 + 1 }

  /** What the cell has to hold in this era: the label of the era that touched it last, if
      that is this one or one of the two before. */
  function Expected(touched: seq<set<Cell>>, perGeneration: nat, era: nat, c: Cell): nat
    requires perGeneration > 0
  {
    var i := LastTouch(touched, c);
    if i >= 0 && Era(i, perGeneration) + 3 > era then Label(Era(i, perGeneration)) else 0
  }

  /** Wiping the label of the new era forgets exactly what is three eras old. */
  lemma WipeForgets(touched: seq<set<Cell>>, perGeneration: nat, era: nat, c: Cell)
    requires perGeneration > 0 && |touched| <= (era + 1) * perGeneration
    ensures Expected(touched, perGeneration, era + 1, c) ==
            (if Expected(touched, perGeneration, era, c) == Label(era + 1) then 0 else Expected(touched, perGeneration, era, c))
  {
    var i := LastTouch(touched, c);
    if i >= 0 {
      EraBound(i, perGeneration, era);
      var e := Era(i, perGeneration);
      assert e + 3 > era ==> e == era || e + 1 == era || e + 2 == era;
    }
  }

  lemma EraBound(i: nat, perGeneration: nat, era: nat)
    requires perGeneration > 0
    ensures i < (era + 1) * perGeneration <==> Era(i, perGeneration) <= era
  {
    var e, r := i / perGeneration, i % perGeneration;
    assert i == e * perGeneration + r;
    if e <= era {
      assert e * perGeneration <= era * perGeneration;
      assert (era + 1) * perGeneration == era * perGeneration + perGeneration;
    } else {
      assert (era + 1) * perGeneration <= e * perGeneration;
    }
  }

  /** An insert gives its cells the label of its era and leaves the others. */
  lemma InsertTouches(touched: seq<set<Cell>>, perGeneration: nat, cells: set<Cell>, c: Cell)
    requires perGeneration > 0
    ensures var era := Era(|touched|, perGeneration);
            Expected(touched + [cells], perGeneration, era, c) == if c in cells then Label(era) else Expected(touched, perGeneration, era, c)
  {
    var more := touched + [cells];
    assert more[..|more| - 1] == touched;
  }

  /** The inserts that still count: those of this era and of the two before. */
  ghost predicate Live(n: nat, perGeneration: nat, era: nat)
    requires perGeneration > 0
  {
    Era(n, perGeneration) + 3 > era
  }

  /** A cell is set exactly if a live insert touched it. */
  lemma {:induction false} SetIfLive(touched: seq<set<Cell>>, perGeneration: nat, era: nat, c: Cell)
    requires perGeneration > 0
    ensures Expected(touched, perGeneration, era, c) != 0 <==>
            exists i :: 0 <= i < |touched| && c in touched[i] && Live(i, perGeneration, era)
  {
    var l := LastTouch(touched, c);
    if Expected(touched, perGeneration, era, c) != 0 { assert Live(l, perGeneration, era); }
    forall i | 0 <= i < |touched| && c in touched[i] && Live(i, perGeneration, era)
      ensures Expected(touched, perGeneration, era, c) != 0
    {
      EraMonotone(i, l, perGeneration);
    }
  }

  lemma EraMonotone(i: nat, j: nat, perGeneration: nat)
    requires perGeneration > 0 && i <= j
    ensures Era(i, perGeneration) <= Era(j, perGeneration)
  {
    EraBound(i, perGeneration, Era(j, perGeneration));
    EraBound(j, perGeneration, Era(j, perGeneration));
  }

  /** Two generations are always live: an insert counts while no more than that many
      followed it. */
  lemma RecentIsLive(i: nat, n: nat, perGeneration: nat)
    requires perGeneration > 0 && i < n && n - 1 - i <= 2 * perGeneration
    ensures Live(i, perGeneration, Era(n - 1, perGeneration))
  {
    var e, d := Era(i, perGeneration), perGeneration;
    EraBound(i, d, e);
    assert (e + 3) * d == (e + 1) * d + 2 * d;
    EraBound(n - 1, d, e + 2);
  }
}

module RollingBloom {
  import opened Words
  import opened BloomHistory
  import Common
  import Limbs

  const WORD: nat := 64

  type Hash32 = n: nat | n < 0x1_0000_0000

  /** Takes a hash to a position below n without dividing by n. */
  function FastMod(x: Hash32, n: nat): (r: nat)
    ensures n > 0 ==> r < n
  {
    FastModBound(x, n);
    x * n / 0x1_0000_0000
  }

  lemma FastModBound(x: Hash32, n: nat)
    ensures 0 <= x * n / 0x1_0000_0000
    ensures n > 0 ==> x * n / 0x1_0000_0000 < n
  {
    Common.Scale(0, x, n);
    if n > 0 {
      Common.Scale(x, 0x1_0000_0000 - 1, n);
      assert x * n < n * 0x1_0000_0000;
    }
  }

  const HASHES: nat := 0x1_0000_0000

  /** The first hash that gets to a position of r or more. */
  function FirstHash(r: nat, n: nat): nat
    requires n > 0
  {
    (r * HASHES + n - 1) / n
  }

  lemma Quotient(a: nat, n: nat)
    requires n > 0
    ensures a / n * n <= a < a / n * n + n
  {
  }

  lemma FirstHashIs(r: nat, n: nat)
    requires n > 0
    ensures FirstHash(r, n) * n - n < r * HASHES <= FirstHash(r, n) * n
  {
    Quotient(r * HASHES + n - 1, n);
  }

  /** The hashes that get to position r are a stretch, */
  lemma HashesOf(x: Hash32, n: nat, r: nat)
    requires r < n
    ensures FastMod(x, n) == r <==> FirstHash(r, n) <= x < FirstHash(r + 1, n)
  {
    hide FirstHash;
    FirstHashIs(r, n);
    FirstHashIs(r + 1, n);
    AtLeast(x, n, r);
    AtLeast(x, n, r + 1);
    Between(x * n, r);
  }

  lemma Between(a: nat, r: nat)
    ensures a / HASHES == r <==> r * HASHES <= a < (r + 1) * HASHES
  {
  }

  lemma AtLeast(x: nat, n: nat, r: nat)
    requires n > 0
    ensures FirstHash(r, n) <= x <==> r * HASHES <= x * n
  {
    hide FirstHash;
    FirstHashIs(r, n);
    var f := FirstHash(r, n);
    if f <= x { Common.Scale(f, x, n); } else { Common.Scale(x, f - 1, n); }
  }

  /** and there are as many as 2^32 / n, rounded down or up. */
  lemma HashesCount(n: nat, r: nat)
    requires r < n
    ensures var count := FirstHash(r + 1, n) - FirstHash(r, n); count == HASHES / n || count == HASHES / n + 1
    ensures FirstHash(0, n) == 0 && FirstHash(n, n) == HASHES
  {
    hide FirstHash;
    FirstHashIs(r, n);
    FirstHashIs(r + 1, n);
    FirstHashIs(0, n);
    FirstHashIs(n, n);
    Quotient(HASHES, n);
    Counted(FirstHash(r, n), FirstHash(r + 1, n), r, n, HASHES / n);
    AtLeast(0, n, 0);
    AtLeast(HASHES, n, n);
    AtLeast(HASHES - 1, n, n);
  }

  lemma Counted(a: nat, b: nat, r: nat, n: nat, q: nat)
    requires n > 0 && a * n - n < r * HASHES <= a * n && b * n - n < (r + 1) * HASHES <= b * n
    requires q * n <= HASHES < q * n + n
    ensures b - a == q || b - a == q + 1
  {
    var d := b - a;
    assert d * n == b * n - a * n;
    if d < q { Common.Scale(d + 1, q, n); }
    if d > q + 1 { Common.Scale(q + 2, d, n); }
  }

  class RollingBloomFilter<Key> {
    const nEntriesPerGeneration: nat
    const nHashFuncs: nat
    /** MurmurHash3 of hash number, tweak and key. */
    const hash: (nat, nat, Key) -> Hash32
    var nEntriesThisGeneration: nat
    var nGeneration: nat
    var nTweak: nat
    const data: array<Word>

    /** The keys inserted since the last reset, and their cells. */
    ghost var inserted: seq<Key>
    ghost var touched: seq<set<Cell>>

    /** The cell of hash number n. */
    function CellOf(n: nat, key: Key): Cell
      reads this`nTweak
    {
      Cell(FastMod(hash(n, nTweak, key), data.Length) / 2, hash(n, nTweak, key) % WORD)
    }

    function CellsUpTo(n: nat, key: Key): set<Cell>
      reads this`nTweak
    {
      set k | 0 <= k < n :: CellOf(k, key)
    }

    function CellsOf(key: Key): set<Cell>
      reads this`nTweak
    {
      CellsUpTo(nHashFuncs, key)
    }

    ghost predicate Shape()
      reads data
    {
      && nEntriesPerGeneration > 0 && data.Length > 0 && data.Length % 2 == 0
      && forall p :: 0 <= p < data.Length ==> |data[p]| == WORD
    }

    /** The number in a cell. */
    ghost function Held(c: Cell): nat
      requires Shape() && c.pair < data.Length / 2 && c.bit < WORD
      reads data
    {
      (if data[2 * c.pair][c.bit] then 1 else 0) + (if data[2 * c.pair + 1][c.bit] then 2 else 0)
    }

    ghost function CurrentEra(): nat
      requires nEntriesPerGeneration > 0
      reads this`touched
    {
      if touched == [] then 0 else Era(|touched| - 1, nEntriesPerGeneration)
    }

    ghost predicate Holds(t: seq<set<Cell>>, era: nat)
      requires Shape()
      reads data
    {
      forall c: Cell :: c.pair < data.Length / 2 && c.bit < WORD ==> Held(c) == Expected(t, nEntriesPerGeneration, era, c)
    }

    ghost predicate Valid()
      reads this, data
    {
      && Shape()
      && nGeneration == Label(CurrentEra())
      && nEntriesThisGeneration == |touched| - CurrentEra() * nEntriesPerGeneration
      && Holds(touched, CurrentEra())
      && |inserted| == |touched| && forall i :: 0 <= i < |inserted| ==> touched[i] == CellsOf(inserted[i])
    }

    /** The number of hash functions and the size of the table come from the wanted rate of
        false positives. */
    constructor (nElements: nat, nHashFuncs: nat, words: nat, hash: (nat, nat, Key) -> Hash32, tweak: nat)
      requires nElements > 0 && words > 0
      ensures Valid() && fresh(data) && inserted == []
      ensures nEntriesPerGeneration == (nElements + 1) / 2
    {
      nEntriesPerGeneration := (nElements + 1) / 2;
      this.nHashFuncs := nHashFuncs;
      this.hash := hash;
      data := new Word[2 * words](_ => Zero(WORD));
      nTweak, nEntriesThisGeneration, nGeneration := tweak, 0, 1;
      touched, inserted := [], [];
    }

    method Reset(tweak: nat)
      requires Valid()
      modifies this, data
      ensures Valid() && inserted == [] && nTweak == tweak
    {
      nTweak, nEntriesThisGeneration, nGeneration := tweak, 0, 1;
      touched, inserted := [], [];
      for i := 0 to data.Length
        invariant nGeneration == 1 && nEntriesThisGeneration == 0 && touched == [] && inserted == [] && nTweak == tweak
        invariant Shape()
        invariant forall p, b :: 0 <= p < i && 0 <= b < WORD ==> !data[p][b]
      {
        data[i] := Zero(WORD);
      }
    }

    /** Wipes the cells that hold the label of the generation that begins. */
    method Wipe()
      requires Shape() && 1 <= nGeneration <= 3
      modifies data
      ensures Shape()
      ensures forall c: Cell :: c.pair < data.Length / 2 && c.bit < WORD ==>
                Held(c) == if old(Held(c)) == nGeneration then 0 else old(Held(c))
    {
      var nGenerationMask1 := Negative(nGeneration % 2 == 1, WORD);
      var nGenerationMask2 := Negative(nGeneration / 2 == 1, WORD);
      var p := 0;
      while p < data.Length
        invariant 0 <= p <= data.Length && p % 2 == 0 && Shape()
        invariant forall q :: p <= q < data.Length ==> data[q] == old(data[q])
        invariant forall c: Cell :: c.pair < p / 2 && c.bit < WORD ==>
          Held(c) == if old(Held(c)) == nGeneration then 0 else old(Held(c))
      {
        var p1, p2 := data[p], data[p + 1];
        var mask := Or(Xor(p1, nGenerationMask1), Xor(p2, nGenerationMask2));
        data[p] := And(p1, mask);
        data[p + 1] := And(p2, mask);
        p := p + 2;
      }
    }

    /** Writes the label of this generation into a cell. */
    method Mark(pos: nat, bit: nat)
      requires Shape() && 1 <= nGeneration <= 3 && pos < data.Length && bit < WORD
      modifies data
      ensures Shape()
      ensures forall c: Cell :: c.pair < data.Length / 2 && c.bit < WORD ==>
                Held(c) == if c == Cell(pos / 2, bit) then nGeneration else old(Held(c))
    {
      var even, odd := pos / 2 * 2, pos / 2 * 2 + 1;
      data[even] := Or(And(data[even], Not(Shifted(true, bit, WORD))), Shifted(nGeneration % 2 == 1, bit, WORD));
      data[odd] := Or(And(data[odd], Not(Shifted(true, bit, WORD))), Shifted(nGeneration / 2 == 1, bit, WORD));
    }

    /** Gives every cell of the key the label of this generation. */
    method MarkAll(key: Key)
      requires Shape() && 1 <= nGeneration <= 3
      modifies data
      ensures Shape()
      ensures forall c: Cell :: c.pair < data.Length / 2 && c.bit < WORD ==>
                Held(c) == if c in CellsOf(key) then nGeneration else old(Held(c))
    {
      hide FastMod;
      for n := 0 to nHashFuncs
        invariant Shape()
        invariant forall c: Cell :: c.pair < data.Length / 2 && c.bit < WORD ==>
          Held(c) == if c in CellsUpTo(n, key) then nGeneration else old(Held(c))
      {
        var h := hash(n, nTweak, key);
        var pos := FastMod(h, data.Length);
        Mark(pos, h % WORD);
        assert CellsUpTo(n + 1, key) == CellsUpTo(n, key) + {CellOf(n, key)};
      }
    }

    method Insert(key: Key)
      requires Valid()
      modifies this, data
      ensures Valid() && inserted == old(inserted) + [key] && nTweak == old(nTweak)
    {
      hide Expected, Label, Era, LastTouch;
      ghost var era := CurrentEra();
      LabelBounds(era);
      EraBounds();
      if nEntriesThisGeneration == nEntriesPerGeneration {
        StartGeneration();
        era := era + 1;
      }
      nEntriesThisGeneration := nEntriesThisGeneration + 1;
      NextEra(era);
      MarkAll(key);
      forall c: Cell | c.pair < data.Length / 2 && c.bit < WORD
        ensures Held(c) == Expected(touched + [CellsOf(key)], nEntriesPerGeneration, era, c)
      {
        InsertTouches(touched, nEntriesPerGeneration, CellsOf(key), c);
      }
      touched := touched + [CellsOf(key)];
      inserted := inserted + [key];
    }

    /** The next generation begins; it takes over the label that was used three before. */
    method StartGeneration()
      requires Valid() && nEntriesThisGeneration == nEntriesPerGeneration
      modifies this`nEntriesThisGeneration, this`nGeneration, data
      ensures Shape() && nEntriesThisGeneration == 0 && nGeneration == Label(CurrentEra() + 1)
      ensures Holds(touched, CurrentEra() + 1)
      ensures |touched| == (CurrentEra() + 1) * nEntriesPerGeneration
    {
      hide Expected, Label, Era, LastTouch;
      ghost var era := CurrentEra();
      LabelBounds(era);
      LabelBounds(era + 1);
      nEntriesThisGeneration := 0;
      nGeneration := nGeneration + 1;
      if nGeneration == 4 { nGeneration := 1; }
      Wipe();
      assert (era + 1) * nEntriesPerGeneration == era * nEntriesPerGeneration + nEntriesPerGeneration;
      forall c: Cell | c.pair < data.Length / 2 && c.bit < WORD
        ensures Held(c) == Expected(touched, nEntriesPerGeneration, era + 1, c)
      {
        WipeForgets(touched, nEntriesPerGeneration, era, c);
      }
    }

    lemma LabelBounds(era: nat)
      ensures 1 <= Label(era) <= 3
      ensures Label(era + 1) == if Label(era) == 3 then 1 else Label(era) + 1
    {
    }

    lemma EraBounds()
      requires Valid()
      ensures 0 <= |touched| - CurrentEra() * nEntriesPerGeneration <= nEntriesPerGeneration
    {
      if touched != [] {
        var t, d := |touched| - 1, nEntriesPerGeneration;
        assert t == t / d * d + t % d;
      }
    }

    /** The era of the next insert. */
    lemma NextEra(era: nat)
      requires nEntriesPerGeneration > 0 && 1 <= |touched| + 1 - era * nEntriesPerGeneration <= nEntriesPerGeneration
      ensures Era(|touched|, nEntriesPerGeneration) == era
    {
      Limbs.RemainderIs(|touched|, nEntriesPerGeneration, era, |touched| - era * nEntriesPerGeneration);
    }

    /** Whether every cell of the key is set: whether live inserts have touched them all.
        That is so for a key inserted itself while no more than two generations of inserts
        followed it. */
    method Contains(key: Key) returns (r: bool)
      requires Valid()
      ensures r <==> forall c <- CellsOf(key) ::
                exists i :: 0 <= i < |inserted| && c in CellsOf(inserted[i]) && Live(i, nEntriesPerGeneration, CurrentEra())
      ensures forall i :: 0 <= i < |inserted| && inserted[i] == key && |inserted| - 1 - i <= 2 * nEntriesPerGeneration ==> r
    {
      hide Expected, Label, Era, LastTouch, Live;
      r := true;
      var n := 0;
      while n < nHashFuncs
        invariant 0 <= n <= nHashFuncs
        invariant forall c <- CellsUpTo(n, key) :: Held(c) != 0
        decreases nHashFuncs - n
      {
        var h := hash(n, nTweak, key);
        var pos, bit := FastMod(h, data.Length), h % WORD;
        if !Or(data[pos / 2 * 2], data[pos / 2 * 2 + 1])[bit] {
          r := false;
          assert CellOf(n, key) in CellsOf(key) && Held(CellOf(n, key)) == 0;
          break;
        }
        assert CellsUpTo(n + 1, key) == CellsUpTo(n, key) + {CellOf(n, key)};
        n := n + 1;
      }
      assert r <==> forall c <- CellsOf(key) :: Held(c) != 0;
      AllHeldMeans(key);
    }

    lemma AllHeldMeans(key: Key)
      requires Valid()
      ensures (forall c <- CellsOf(key) :: Held(c) != 0) <==>
              forall c <- CellsOf(key) ::
                exists i :: 0 <= i < |inserted| && c in CellsOf(inserted[i]) && Live(i, nEntriesPerGeneration, CurrentEra())
      ensures (exists i :: 0 <= i < |inserted| && inserted[i] == key && |inserted| - 1 - i <= 2 * nEntriesPerGeneration) ==>
              forall c <- CellsOf(key) :: Held(c) != 0
    {
      hide Expected, Label, Era, LastTouch, Live;
      forall c | c in CellsOf(key)
        ensures Held(c) != 0 <==> exists i :: 0 <= i < |inserted| && c in CellsOf(inserted[i]) && Live(i, nEntriesPerGeneration, CurrentEra())
      {
        HeldIfLive(c);
      }
      forall i | 0 <= i < |inserted| && inserted[i] == key && |inserted| - 1 - i <= 2 * nEntriesPerGeneration
        ensures Live(i, nEntriesPerGeneration, CurrentEra())
      {
        RecentIsLive(i, |inserted|, nEntriesPerGeneration);
      }
    }

    lemma HeldIfLive(c: Cell)
      requires Valid() && c.pair < data.Length / 2 && c.bit < WORD
      ensures Held(c) != 0 <==> exists i :: 0 <= i < |inserted| && c in CellsOf(inserted[i]) && Live(i, nEntriesPerGeneration, CurrentEra())
    {
      hide Expected, Label, Era, LastTouch, Live, CellsUpTo;
      SetIfLive(touched, nEntriesPerGeneration, CurrentEra(), c);
    }
  }
}
