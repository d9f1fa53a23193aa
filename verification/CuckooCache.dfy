/** The contents of a cuckoo table: which slots hold what, are marked as garbage, and belong
    to the current epoch. */
module CuckooSlots {

  /** The elements of the first n slots that are not marked as garbage. */
  ghost function LiveTo<E>(table: seq<E>, garbage: seq<bool>, n: nat): multiset<E>
    requires n <= |table| == |garbage|
  {
    if n == 0 then multiset{}
    else LiveTo(table, garbage, n - 1) + (if garbage[n - 1] then multiset{} else multiset{table[n - 1]})
  }

  ghost function Live<E>(table: seq<E>, garbage: seq<bool>): multiset<E>
    requires |table| == |garbage|
  {
    LiveTo(table, garbage, |table|)
  }

  function One(b: bool): nat { if b then 1 else 0 }

  /** How many of the first n slots belong to the current epoch and are not garbage. */
  function CountTo(garbage: seq<bool>, epoch: seq<bool>, n: nat): nat
    requires n <= |garbage| == |epoch|
  {
    if n == 0 then 0 else CountTo(garbage, epoch, n - 1) + One(epoch[n - 1] && !garbage[n - 1])
  }

  function Count(garbage: seq<bool>, epoch: seq<bool>): nat
    requires |garbage| == |epoch|
  {
    CountTo(garbage, epoch, |garbage|)
  }

  ghost function Just<E>(b: bool, e: E): multiset<E> {
    if b then multiset{e} else multiset{}
  }

  /** Storing into a slot puts the element among the live ones, in place of what was live
      there. */
  lemma {:induction false} LiveStored<E>(table: seq<E>, garbage: seq<bool>, i: nat, e: E, n: nat)
    requires i < |table| == |garbage| && n <= |table|
    ensures LiveTo(table[i := e], garbage[i := false], n) + Just(i < n && !garbage[i], table[i])
         == LiveTo(table, garbage, n) + Just(i < n, e)
  {
    hide LiveTo;
    if n == 0 {
      LiveNone(table, garbage);
      LiveNone(table[i := e], garbage[i := false]);
    } else {
      LiveNext(table, garbage, n - 1);
      LiveNext(table[i := e], garbage[i := false], n - 1);
      LiveStored(table, garbage, i, e, n - 1);
      var x, y := LiveTo(table[i := e], garbage[i := false], n - 1), LiveTo(table, garbage, n - 1);
      var here := Just(!garbage[n - 1], table[n - 1]);
      if i >= n - 1 {
        var none: multiset<E> := multiset{};
        assert x + none == x && y + none == y;
        assert x == y;
      } else {
        AlsoHere(x, Just(i < n && !garbage[i], table[i]), y, Just(i < n, e), here);
      }
    }
  }

  lemma LiveNext<E>(table: seq<E>, garbage: seq<bool>, n: nat)
    requires n < |table| == |garbage|
    ensures LiveTo(table, garbage, n + 1) == LiveTo(table, garbage, n) + Just(!garbage[n], table[n])
  {
  }

  lemma LiveNone<E>(table: seq<E>, garbage: seq<bool>)
    requires |table| == |garbage|
    ensures LiveTo(table, garbage, 0) == multiset{}
  {
  }

  lemma AlsoHere<E>(x: multiset<E>, a: multiset<E>, y: multiset<E>, b: multiset<E>, z: multiset<E>)
    requires x + a == y + b
    ensures (x + z) + a == (y + z) + b
  {
    assert (x + z) + a == (x + a) + z;
    assert (y + z) + b == (y + b) + z;
  }

  lemma {:induction false} CountStored(garbage: seq<bool>, epoch: seq<bool>, i: nat, f: bool, n: nat)
    requires i < |garbage| == |epoch| && n <= |garbage|
    ensures CountTo(garbage[i := false], epoch[i := f], n) + One(i < n && epoch[i] && !garbage[i])
         == CountTo(garbage, epoch, n) + One(i < n && f)
  {
    if n > 0 {
      CountStored(garbage, epoch, i, f, n - 1);
    }
  }

  /** Marking more garbage does not raise the count. */
  lemma {:induction false} CountMarked(garbage: seq<bool>, more: seq<bool>, epoch: seq<bool>, n: nat)
    requires |garbage| == |more| == |epoch| && n <= |garbage|
    requires forall k :: 0 <= k < |garbage| && garbage[k] ==> more[k]
    ensures CountTo(more, epoch, n) <= CountTo(garbage, epoch, n)
  {
    if n > 0 { CountMarked(garbage, more, epoch, n - 1); }
  }

  lemma {:induction false} CountNone(garbage: seq<bool>, epoch: seq<bool>, n: nat)
    requires |garbage| == |epoch| && n <= |garbage|
    requires forall k :: 0 <= k < n ==> garbage[k] || !epoch[k]
    ensures CountTo(garbage, epoch, n) == 0
  {
    if n > 0 { CountNone(garbage, epoch, n - 1); }
  }

  lemma {:induction false} SomeLive<E>(table: seq<E>, garbage: seq<bool>, n: nat, e: E) returns (i: nat)
    requires n <= |table| == |garbage| && e in LiveTo(table, garbage, n)
    ensures i < n && table[i] == e && !garbage[i]
  {
    if !garbage[n - 1] && table[n - 1] == e { i := n - 1; } else { i := SomeLive(table, garbage, n - 1, e); }
  }

  lemma StoredMultiset<E>(table: seq<E>, i: nat, e: E)
    requires i < |table|
    ensures multiset(table[i := e]) + multiset{table[i]} == multiset(table) + multiset{e}
  {
  }

  /** Swapping an element with what is live in a slot. */
  lemma Swapped<E>(table: seq<E>, garbage: seq<bool>, epoch: seq<bool>, i: nat, e: E, f: bool)
    requires i < |table| == |garbage| == |epoch| && !garbage[i]
    ensures multiset(table[i := e]) + multiset{table[i]} == multiset(table) + multiset{e}
    ensures Live(table[i := e], garbage) + multiset{table[i]} == Live(table, garbage) + multiset{e}
    ensures Count(garbage, epoch[i := f]) + One(epoch[i]) == Count(garbage, epoch) + One(f)
  {
    assert garbage[i := false] == garbage;
    LiveStored(table, garbage, i, e, |table|);
    CountStored(garbage, epoch, i, f, |table|);
    StoredMultiset(table, i, e);
  }

  /** Overwriting garbage with an element. */
  lemma Filled<E>(table: seq<E>, garbage: seq<bool>, epoch: seq<bool>, i: nat, e: E, f: bool)
    requires i < |table| == |garbage| == |epoch| && garbage[i]
    ensures multiset(table[i := e]) + multiset{table[i]} == multiset(table) + multiset{e}
    ensures Live(table[i := e], garbage[i := false]) == Live(table, garbage) + multiset{e}
    ensures Count(garbage[i := false], epoch[i := f]) == Count(garbage, epoch) + One(f)
  {
    LiveStored(table, garbage, i, e, |table|);
    CountStored(garbage, epoch, i, f, |table|);
    StoredMultiset(table, i, e);
  }
}

module CuckooCache {
  import opened Words
  import opened CuckooSlots
  import opened Common
  import Limbs

  type Hash32 = n: nat | n < 0x1_0000_0000

  const INVALID: nat := 0xffff_ffff
  const BYTE: nat := 8

  /** Garbage marks, eight to a byte. */
  class BitPackedAtomicFlags {
    const mem: array<Word>

    ghost predicate Valid()
      reads mem
    {
      forall i :: 0 <= i < mem.Length ==> |mem[i]| == BYTE
    }

    constructor (size: nat)
      ensures Valid() && fresh(mem) && size <= BYTE * mem.Length
      ensures forall s :: 0 <= s < BYTE * mem.Length ==> IsSet(s)
    {
      mem := new Word[(size + 7) / 8](_ => Not(Zero(BYTE)));
    }

    predicate IsSet(s: nat)
      requires Valid() && s < BYTE * mem.Length
      reads mem
    {
      mem[s / 8][s % 8]
    }

    method BitIsSet(s: nat) returns (r: bool)
      requires Valid() && s < BYTE * mem.Length
      ensures r == IsSet(s)
    {
      var met := And(Shifted(true, s % 8, BYTE), mem[s / 8]);
      r := met != Zero(BYTE);
      assert met[s % 8] == IsSet(s) && forall i :: 0 <= i < BYTE && i != s % 8 ==> !met[i];
      if !IsSet(s) { assert met == Zero(BYTE); }
    }

    method BitSet(s: nat)
      requires Valid() && s < BYTE * mem.Length
      modifies mem
      ensures Valid() && forall t: nat :: t < BYTE * mem.Length ==> IsSet(t) == (t == s || old(IsSet(t)))
    {
      mem[s / 8] := Or(mem[s / 8], Shifted(true, s % 8, BYTE));
    }

    method BitUnset(s: nat)
      requires Valid() && s < BYTE * mem.Length
      modifies mem
      ensures Valid() && forall t: nat :: t < BYTE * mem.Length ==> IsSet(t) == (t != s && old(IsSet(t)))
    {
      mem[s / 8] := And(mem[s / 8], Not(Shifted(true, s % 8, BYTE)));
    }
  }

  /** How an insert ended: the element was there already; it and those it moved found a
      slot with garbage in it; or the last one moved was dropped. */
  datatype Outcome<E> = Present | Stored(overwritten: E) | Dropped(lost: E)

  /** A table with its epoch flags, an element in hand with its own, and the slot that was
      looked at last. */
  datatype Hand<E> = Hand(table: seq<E>, epochs: seq<bool>, e: E, epoch: bool, loc: nat)

  /** One call on the cache. */
  datatype Op<E> = Put(e: E) | Look(e: E, erase: bool)

  function Losses<E>(o: Outcome<E>): set<E> {
    match o
    case Present => {}
    case Stored(x) => {x}
    case Dropped(x) => {x}
  }

  /** The elements inserted by some calls and neither overwritten nor dropped since, when each
      insert went as outcomes says. */
  ghost function Kept<E>(ops: seq<Op<E>>, outcomes: seq<Outcome<E>>): set<E>
    requires |ops| == |outcomes|
  {
    if ops == [] then {} else
      var n := |ops| - 1;
      var before := Kept(ops[..n], outcomes[..n]);
      match ops[n]
      case Put(e) => before + {e} - Losses(outcomes[n])
      case Look(_, _) => before
  }

  lemma KeptNext<E>(ops: seq<Op<E>>, outcomes: seq<Outcome<E>>, n: nat)
    requires n < |ops| && n < |outcomes|
    ensures Kept(ops[..n + 1], outcomes[..n + 1])
         == var before := Kept(ops[..n], outcomes[..n]);
            match ops[n] case Put(e) => before + {e} - Losses(outcomes[n]) case Look(_, _) => before
  {
    assert ops[..n + 1][..n] == ops[..n] && outcomes[..n + 1][..n] == outcomes[..n];
  }

  class Cache<E(==, !new)> {
    const table: array<E>
    const flags: BitPackedAtomicFlags
    const epochFlags: array<bool>
    const depthLimit: nat
    const epochSize: nat
    const hash: (nat, E) -> Hash32
    var epochHeuristicCounter: nat

    /** The slots that an insert has written. */
    ghost var written: seq<bool>

    /** The slots that an element may be in. */
    function ComputeHashes(e: E): (locs: seq<nat>)
      requires table.Length > 0
      ensures |locs| == 8 && forall k :: 0 <= k < 8 ==> locs[k] < table.Length
    {
      seq(8, (k: nat) requires k < 8 && table.Length > 0 => hash(k, e) % table.Length)
    }

    ghost predicate Shape()
      reads flags.mem
    {
      && 0 < table.Length == epochFlags.Length <= INVALID
      && flags.Valid() && table.Length <= BYTE * flags.mem.Length
      && depthLimit > 0 && epochSize > 0
      && (table as object) != (flags.mem as object) && (table as object) != (epochFlags as object)
    }

    /** The garbage marks, one a slot. */
    ghost function Garbage(): (g: seq<bool>)
      requires Shape()
      reads flags.mem
      ensures |g| == table.Length && forall i :: 0 <= i < table.Length ==> g[i] == flags.IsSet(i)
    {
      seq(table.Length, (i: nat) requires Shape() && i < table.Length reads flags.mem => flags.IsSet(i))
    }

    /** Slots that were written hold an element that may be there, and what is not marked as
        garbage was written. */
    ghost predicate WellPlaced(t: seq<E>, garbage: seq<bool>, w: seq<bool>)
      requires table.Length == |t| == |garbage|
    {
      |w| == |t| && forall i :: 0 <= i < |t| ==> (w[i] ==> MayHold(i, t[i])) && (!garbage[i] ==> w[i])
    }

    /** Slot i is one of those of e. */
    ghost predicate MayHold(i: nat, e: E) {
      table.Length > 0 && exists k :: 0 <= k < 8 && ComputeHashes(e)[k] == i
    }

    /** An epoch never outgrows its size by more than a sixteenth and one. */
    ghost predicate EpochBounded(slack: nat)
      requires Shape()
      reads this`epochHeuristicCounter, flags.mem, epochFlags
    {
      Count(Garbage(), epochFlags[..]) + epochHeuristicCounter + slack <= epochSize + epochSize / 16 + 1
    }

    ghost predicate Valid()
      reads this, table, epochFlags, flags.mem
    {
      Shape() && WellPlaced(table[..], Garbage(), written) && EpochBounded(0)
    }

    /** A table of two to the power of depthLimit slots, all of them garbage. */
    constructor (depthLimit: nat, hash: (nat, E) -> Hash32, filler: E)
      requires 0 < depthLimit < 32
      ensures Valid() && fresh(table) && fresh(flags) && fresh(flags.mem) && fresh(epochFlags) && forall i :: 0 <= i < |written| ==> !written[i]
      ensures table.Length == Pow2(depthLimit)
    {
      var size := Pow2(depthLimit);
      SizeFits(depthLimit);
      this.depthLimit := depthLimit;
      this.hash := hash;
      table := new E[size](_ => filler);
      var f := new BitPackedAtomicFlags(size);
      flags := f;
      epochFlags := new bool[size](_ => false);
      epochSize := Max(1, 45 * size % 0x1_0000_0000 / 100);
      epochHeuristicCounter := Max(1, 45 * size % 0x1_0000_0000 / 100);
      written := seq(size, i => false);
      new;
      CountNone(Garbage(), epochFlags[..], size);
    }

    static lemma SizeFits(d: nat)
      requires 0 < d < 32
      ensures 2 <= Pow2(d) <= INVALID
    {
      Pow2Order(d, 31);
      Pow2Order(1, d);
      Limbs.Pow2Limb();
    }

    method AllowErase(n: nat)
      requires Shape() && n < table.Length
      modifies flags.mem
      ensures Shape() && Garbage() == old(Garbage())[n := true]
    {
      flags.BitSet(n);
    }

    method PleaseKeep(n: nat)
      requires Shape() && n < table.Length
      modifies flags.mem
      ensures Shape() && Garbage() == old(Garbage())[n := false]
    {
      flags.BitUnset(n);
    }

    /** Whether a live or not yet overwritten copy is in one of its slots. An element that
        was placed is found as long as it is in the table, garbage or not. */
    method Contains(e: E, erase: bool) returns (found: bool)
      requires Valid()
      modifies flags.mem
      ensures Valid() && found == exists k :: 0 <= k < 8 && table[ComputeHashes(e)[k]] == e
      ensures (exists i :: 0 <= i < table.Length && written[i] && table[i] == e) ==> found
      ensures !erase || !found ==> Garbage() == old(Garbage())
      ensures erase && found ==> exists i :: 0 <= i < table.Length && table[i] == e && Garbage() == old(Garbage())[i := true]
    {
      hide Count, WellPlaced;
      FoundWhereWritten(e);
      var locs := ComputeHashes(e);
      for k := 0 to 8
        invariant forall j :: 0 <= j < k ==> table[locs[j]] != e
      {
        if table[locs[k]] == e {
          if erase { MarkFound(locs[k]); }
          assert table[ComputeHashes(e)[k]] == e;
          return true;
        }
      }
      found := false;
    }

    lemma FoundWhereWritten(e: E)
      requires Valid()
      ensures forall i :: 0 <= i < table.Length && written[i] && table[i] == e ==> exists k :: 0 <= k < 8 && table[ComputeHashes(e)[k]] == e
    {
      forall i | 0 <= i < table.Length && written[i] && table[i] == e
        ensures exists k :: 0 <= k < 8 && table[ComputeHashes(e)[k]] == e
      {
        assert MayHold(i, table[..][i]);
      }
    }

    lemma MoreGarbage(t: seq<E>, g: seq<bool>, more: seq<bool>, w: seq<bool>)
      requires table.Length == |t| == |g| == |more| && WellPlaced(t, g, w)
      requires forall i :: 0 <= i < |g| && g[i] ==> more[i]
      ensures WellPlaced(t, more, w)
    {
      hide MayHold;
      forall i | 0 <= i < |t| ensures w[i] ==> MayHold(i, t[i]) {
        assert g[i] || !g[i];
      }
    }

    /** Whatever is live is found. */
    lemma LiveIsFound(e: E)
      requires Valid() && e in Live(table[..], Garbage())
      ensures exists k :: 0 <= k < 8 && table[ComputeHashes(e)[k]] == e
    {
      hide WellPlaced, MayHold;
      var i := SomeLive(table[..], Garbage(), table.Length, e);
      LiveWasWritten(i);
      FoundWhereWritten(e);
    }

    lemma LiveWasWritten(i: nat)
      requires Valid() && i < table.Length && !Garbage()[i]
      ensures i < |written| && written[i]
    {
    }

    /** Marking a slot as garbage keeps the table in order. */
    method MarkFound(i: nat)
      requires Valid() && i < table.Length
      modifies flags.mem
      ensures Valid() && Garbage() == old(Garbage())[i := true]
    {
      hide MayHold, CountTo, WellPlaced;
      MoreGarbage(table[..], Garbage(), Garbage()[i := true], written);
      CountMarked(Garbage(), Garbage()[i := true], epochFlags[..], table.Length);
      AllowErase(i);
    }

    /** How many live slots are of the current epoch. */
    method CountEpoch() returns (n: nat)
      requires Shape()
      ensures n == Count(Garbage(), epochFlags[..])
    {
      n := 0;
      for i := 0 to table.Length
        invariant n == CountTo(Garbage(), epochFlags[..], i)
      {
        var marked := flags.BitIsSet(i);
        if epochFlags[i] && !marked { n := n + 1; }
      }
    }

    /** Marks what is of the old epoch and makes the current epoch the old one. */
    method Age()
      requires Shape()
      modifies flags.mem, epochFlags
      ensures Shape() && forall i :: 0 <= i < table.Length ==> !epochFlags[i] && Garbage()[i] == (old(Garbage()[i]) || !old(epochFlags[i]))
    {
      for i := 0 to table.Length
        invariant Shape()
        invariant forall k :: 0 <= k < i ==> !epochFlags[k] && Garbage()[k] == (old(Garbage()[k]) || !old(epochFlags[k]))
        invariant forall k :: i <= k < table.Length ==> epochFlags[k] == old(epochFlags[k]) && Garbage()[k] == old(Garbage()[k])
      {
        if epochFlags[i] { epochFlags[i] := false; } else { AllowErase(i); }
      }
    }

    /** Runs before every insert and leaves room for one more in the current epoch. */
    method EpochCheck() returns (ghost aged: bool)
      requires Valid()
      modifies this`epochHeuristicCounter, flags.mem, epochFlags
      ensures Shape() && WellPlaced(table[..], Garbage(), written) && EpochBounded(1)
      ensures aged <==> old(epochHeuristicCounter) == 0 && old(Count(Garbage(), epochFlags[..])) >= epochSize
      ensures old(epochHeuristicCounter) != 0 ==> epochHeuristicCounter == old(epochHeuristicCounter) - 1
      ensures old(epochHeuristicCounter) == 0 ==> epochHeuristicCounter > 0 && epochHeuristicCounter + Count(Garbage(), epochFlags[..]) >= epochSize
      ensures forall i :: 0 <= i < table.Length ==>
                Garbage()[i] == (old(Garbage()[i]) || (aged && !old(epochFlags[i]))) && epochFlags[i] == (old(epochFlags[i]) && !aged)
    {
      hide MayHold, CountTo, WellPlaced;
      ghost var before := Garbage();
      aged := false;
      if epochHeuristicCounter != 0 {
        epochHeuristicCounter := epochHeuristicCounter - 1;
        return;
      }
      var epochUnusedCount := CountEpoch();
      if epochUnusedCount >= epochSize {
        aged := true;
        Age();
        MoreGarbage(table[..], before, Garbage(), written);
        CountNone(Garbage(), epochFlags[..], table.Length);
        epochHeuristicCounter := epochSize;
      } else {
        epochHeuristicCounter := Max(1, Max(epochSize / 16, epochSize - epochUnusedCount));
      }
    }

    /** Whether e is in one of its slots. */
    ghost predicate InPlace(t: seq<E>, e: E)
      requires |t| == table.Length > 0
    {
      exists k :: 0 <= k < 8 && t[ComputeHashes(e)[k]] == e
    }

    /** Whatever was in place in t0, and e0, is in place in t, apart from out. Marks do not
        matter. */
    ghost predicate StillThere(t0: seq<E>, t: seq<E>, e0: E, out: E)
      requires |t0| == |t| == table.Length > 0
    {
      forall x :: (x == e0 || InPlace(t0, x)) && x != out ==> InPlace(t, x)
    }

    lemma StillAtFirst(t: seq<E>, e: E)
      requires |t| == table.Length > 0
      ensures StillThere(t, t, e, e)
    {
    }

    lemma StillAfterStore(t0: seq<E>, t: seq<E>, e0: E, out: E, i: nat)
      requires |t0| == |t| == table.Length > 0 && i < |t| && MayHold(i, out)
      requires StillThere(t0, t, e0, out)
      ensures StillThere(t0, t[i := out], e0, t[i])
    {
      hide InPlace, MayHold;
      var t' := t[i := out];
      forall x | (x == e0 || InPlace(t0, x)) && x != t[i] ensures InPlace(t', x) {
        if x == out { StoredInPlace(t, i, out); } else { OthersInPlace(t, i, out, x); }
      }
    }

    lemma StoredInPlace(t: seq<E>, i: nat, e: E)
      requires |t| == table.Length > 0 && i < |t| && MayHold(i, e)
      ensures InPlace(t[i := e], e)
    {
      var k :| 0 <= k < 8 && ComputeHashes(e)[k] == i;
      assert t[i := e][ComputeHashes(e)[k]] == e;
    }

    lemma OthersInPlace(t: seq<E>, i: nat, e: E, x: E)
      requires |t| == table.Length > 0 && i < |t| && InPlace(t, x) && t[i] != x
      ensures InPlace(t[i := e], x)
    {
      var k :| 0 <= k < 8 && t[ComputeHashes(x)[k]] == x;
      assert t[i := e][ComputeHashes(x)[k]] == x;
    }

    /** Whether one of the slots of e holds garbage. */
    ghost predicate HasRoom(marks: seq<bool>, e: E)
      requires |marks| == table.Length > 0
    {
      exists k :: 0 <= k < 8 && marks[ComputeHashes(e)[k]]
    }

    /** The first slot of e with garbage in it. */
    ghost predicate FirstRoom(marks: seq<bool>, e: E, at: nat)
      requires |marks| == table.Length > 0
    {
      exists k :: 0 <= k < 8 && at == ComputeHashes(e)[k] && marks[at] && forall j :: 0 <= j < k ==> !marks[ComputeHashes(e)[j]]
    }

    /** The slot of e after the one last looked at; the second one at first. */
    ghost predicate IsNext(e: E, lastLoc: nat, loc: nat)
      requires table.Length > 0
    {
      var locs := ComputeHashes(e);
      if lastLoc in locs
      then exists i :: 0 <= i < 8 && locs[i] == lastLoc && lastLoc !in locs[..i] && loc == locs[(i + 1) % 8]
      else loc == locs[1]
    }

    /** h' comes of h by putting the element in hand into its next slot and taking up what was
        there, epoch flags and all. */
    ghost predicate Swaps(h: Hand<E>, h': Hand<E>)
      requires table.Length > 0
    {
      && IsNext(h.e, h.loc, h'.loc) && h'.loc < |h.table| == |h.epochs|
      && h' == Hand(h.table[h'.loc := h.e], h.epochs[h'.loc := h.epoch], h.table[h'.loc], h.epochs[h'.loc], h'.loc)
    }

    /** Each of the hands comes of the one before, which found no garbage. */
    ghost predicate Moves(marks: seq<bool>, hands: seq<Hand<E>>)
      requires |marks| == table.Length > 0
    {
      forall d :: 0 <= d < |hands| - 1 ==> !HasRoom(marks, hands[d].e) && Swaps(hands[d], hands[d + 1])
    }

    /** The first hand: the table after the epoch check, and the element to insert. */
    ghost predicate Begins(t: seq<E>, epochs: seq<bool>, aged: bool, e: E, hands: seq<Hand<E>>) {
      hands != [] && hands[0] == Hand(t, seq(|epochs|, i requires 0 <= i < |epochs| => epochs[i] && !aged), e, true, INVALID)
    }

    /** What the last hand comes to: it goes into the first garbage there is, or is dropped
        after as many moves as are allowed. */
    ghost predicate Ends(marks: seq<bool>, hands: seq<Hand<E>>, o: Outcome<E>, t: seq<E>, epochs: seq<bool>, garbage: seq<bool>)
      requires |marks| == table.Length > 0
    {
      && hands != []
      && var last := hands[|hands| - 1];
         match o
         case Present => |hands| == 1
         case Stored(x) => |hands| <= depthLimit && exists at :: FirstRoom(marks, last.e, at) && Puts(marks, last, at, x, t, epochs, garbage)
         case Dropped(x) => |hands| == depthLimit + 1 && last.table == t && last.epochs == epochs && last.e == x && garbage == marks
    }

    ghost predicate Puts(marks: seq<bool>, h: Hand<E>, at: nat, x: E, t: seq<E>, epochs: seq<bool>, garbage: seq<bool>) {
      && at < |marks| == |h.table| == |h.epochs| && h.table[at] == x
      && t == h.table[at := h.e] && epochs == h.epochs[at := h.epoch] && garbage == marks[at := false]
    }

    lemma MovesOn(marks: seq<bool>, hands: seq<Hand<E>>, h: Hand<E>, loc: nat, t: seq<E>, epochs: seq<bool>, aged: bool, e: E)
      requires |marks| == table.Length > 0 && Moves(marks, hands) && Begins(t, epochs, aged, e, hands) && hands != []
      requires hands[|hands| - 1] == h && !HasRoom(marks, h.e) && IsNext(h.e, h.loc, loc) && loc < |h.table| == |h.epochs|
      ensures var next := hands + [Hand(h.table[loc := h.e], h.epochs[loc := h.epoch], h.table[loc], h.epochs[loc], loc)];
              Moves(marks, next) && Begins(t, epochs, aged, e, next)
    {
      hide HasRoom, IsNext;
    }

    lemma Starts(t: seq<E>, epochs: seq<bool>, aged: bool, marks: seq<bool>, now: seq<bool>, hands: seq<Hand<E>>)
      requires |marks| == table.Length > 0 && |hands| == 1 && |epochs| == |now|
      requires forall i :: 0 <= i < |now| ==> now[i] == (epochs[i] && !aged)
      requires hands[0].table == t && hands[0].epochs == now && hands[0].epoch && hands[0].loc == INVALID
      ensures Moves(marks, hands) && Begins(t, epochs, aged, hands[0].e, hands)
    {
    }

    lemma EndsStored(marks: seq<bool>, hands: seq<Hand<E>>, at: nat, t: seq<E>, epochs: seq<bool>, garbage: seq<bool>)
      requires |marks| == table.Length > 0 && 0 < |hands| <= depthLimit && FirstRoom(marks, hands[|hands| - 1].e, at)
      requires var h := hands[|hands| - 1]; at < |marks| == |h.table| == |h.epochs| && t == h.table[at := h.e] && epochs == h.epochs[at := h.epoch]
      requires garbage == marks[at := false]
      ensures Ends(marks, hands, Stored(hands[|hands| - 1].table[at]), t, epochs, garbage)
    {
      hide FirstRoom;
      assert Puts(marks, hands[|hands| - 1], at, hands[|hands| - 1].table[at], t, epochs, garbage);
    }

    lemma EndsDropped(marks: seq<bool>, hands: seq<Hand<E>>)
      requires |marks| == table.Length > 0 && |hands| == depthLimit + 1
      ensures Ends(marks, hands, Dropped(hands[depthLimit].e), hands[depthLimit].table, hands[depthLimit].epochs, marks)
    {
    }

    lemma EndsPresent(marks: seq<bool>, hands: seq<Hand<E>>, t: seq<E>, epochs: seq<bool>, garbage: seq<bool>)
      requires |marks| == table.Length > 0 && |hands| == 1
      ensures Ends(marks, hands, Present, t, epochs, garbage)
    {
    }

    lemma NoRoomAt(marks: seq<bool>, e: E, k: nat)
      requires |marks| == table.Length > 0 && !HasRoom(marks, e) && k < 8
      ensures !marks[ComputeHashes(e)[k]]
    {
    }

    /** If the element is there already, sees to it that it is not collected. */
    method KeepIfPresent(e: E) returns (found: bool, ghost at: nat)
      requires Shape() && WellPlaced(table[..], Garbage(), written) && EpochBounded(1)
      modifies this`written, flags.mem, epochFlags
      ensures Shape() && WellPlaced(table[..], Garbage(), written)
      ensures found <==> InPlace(table[..], e)
      ensures found ==> EpochBounded(0) && at < table.Length && table[at] == e && MayHold(at, e) && Garbage() == old(Garbage())[at := false]
      ensures found ==> epochFlags[at]
      ensures !found ==> EpochBounded(1) && Garbage() == old(Garbage()) && epochFlags[..] == old(epochFlags[..])
    {
      hide CountTo, WellPlaced, MayHold;
      found, at := false, 0;
      var locs := ComputeHashes(e);
      for k := 0 to 8
        invariant !found && Garbage() == old(Garbage()) && epochFlags[..] == old(epochFlags[..]) && written == old(written)
        invariant forall j :: 0 <= j < k ==> table[locs[j]] != e
      {
        if table[locs[k]] == e {
          at := locs[k];
          HashMayHold(e, k);
          PlacedAt(table[..], Garbage(), written, at, e);
          CountStored(Garbage(), epochFlags[..], at, true, table.Length);
          assert table[..][at := e] == table[..];
          ghost var flagged := epochFlags[..][at := true];
          PleaseKeep(locs[k]);
          epochFlags[locs[k]] := true;
          assert epochFlags[..] == flagged;
          written := written[at := true];
          return true, at;
        }
      }
    }

    lemma HashMayHold(e: E, k: nat)
      requires table.Length > 0 && k < 8
      ensures MayHold(ComputeHashes(e)[k], e)
    {
    }

    lemma PlacedAt(t: seq<E>, g: seq<bool>, w: seq<bool>, i: nat, e: E)
      requires table.Length == |t| == |g| && WellPlaced(t, g, w) && i < |t| && MayHold(i, e)
      ensures |w| == |t| && WellPlaced(t[i := e], g[i := false], w[i := true]) && WellPlaced(t[i := e], g, w[i := true])
    {
      hide MayHold;
    }

    /** Puts the element into the first of its slots that holds garbage. */
    method StoreOverGarbage(e: E, lastEpoch: bool) returns (stored: bool, ghost at: nat)
      requires Shape() && WellPlaced(table[..], Garbage(), written)
      modifies this`written, table, flags.mem, epochFlags
      ensures Shape() && WellPlaced(table[..], Garbage(), written)
      ensures stored <==> HasRoom(old(Garbage()), e)
      ensures stored ==> FirstRoom(old(Garbage()), e, at)
      ensures stored ==> at < table.Length && MayHold(at, e) && old(Garbage()[at]) && table[..] == old(table[..])[at := e]
                         && Garbage() == old(Garbage())[at := false] && epochFlags[..] == old(epochFlags[..])[at := lastEpoch]
      ensures !stored ==> table[..] == old(table[..]) && Garbage() == old(Garbage()) && epochFlags[..] == old(epochFlags[..])
    {
      hide WellPlaced, MayHold;
      stored, at := false, 0;
      var locs := ComputeHashes(e);
      for k := 0 to 8
        invariant Shape()
        invariant table[..] == old(table[..]) && Garbage() == old(Garbage()) && epochFlags[..] == old(epochFlags[..]) && written == old(written)
        invariant forall j :: 0 <= j < k ==> !Garbage()[locs[j]]
      {
        var marked := flags.BitIsSet(locs[k]);
        if marked {
          at := locs[k];
          HashMayHold(e, k);
          PlacedAt(table[..], Garbage(), written, at, e);
          table[locs[k]] := e;
          PleaseKeep(locs[k]);
          epochFlags[locs[k]] := lastEpoch;
          assert table[..] == old(table[..])[at := e];
          written := written[at := true];
          return true, at;
        }
      }
    }

    method NextSlot(e: E, lastLoc: nat) returns (loc: nat, ghost k: nat)
      requires table.Length > 0
      ensures k < 8 && loc == ComputeHashes(e)[k] && IsNext(e, lastLoc, loc)
    {
      var locs := ComputeHashes(e);
      var i := 0;
      while i < 8 && locs[i] != lastLoc
        invariant 0 <= i <= 8 && forall j :: 0 <= j < i ==> locs[j] != lastLoc
      {
        i := i + 1;
      }
      assert i < 8 ==> locs[i] == lastLoc && lastLoc !in locs[..i];
      k := (1 + i) % 8;
      loc := locs[(1 + i) % 8];
    }

    /** Swaps the element with what is in a slot that it may be in. */
    method SwapInto(e: E, ghost k: nat, loc: nat, lastEpoch: bool) returns (evicted: E, epoch: bool)
      requires Shape() && WellPlaced(table[..], Garbage(), written) && k < 8 && loc == ComputeHashes(e)[k] && !Garbage()[loc]
      modifies this`written, table, epochFlags
      ensures Shape() && WellPlaced(table[..], Garbage(), written) && Garbage() == old(Garbage())
      ensures evicted == old(table[loc]) && epoch == old(epochFlags[loc])
      ensures table[..] == old(table[..])[loc := e] && epochFlags[..] == old(epochFlags[..])[loc := lastEpoch]
    {
      hide WellPlaced, MayHold;
      HashMayHold(e, k);
      PlacedAt(table[..], Garbage(), written, loc, e);
      evicted, epoch := table[loc], epochFlags[loc];
      table[loc] := e;
      epochFlags[loc] := lastEpoch;
      assert table[..] == old(table[..])[loc := e];
      written := written[loc := true];
    }

    /** With an element in hand, nothing else of the table t0 and the element e0 is missing, and
        the flags of what is in the table and in hand are as many as before, and one. */
    ghost predicate Carrying(t0: seq<E>, ep0: seq<bool>, marks: seq<bool>, e0: E, t: seq<E>, ep: seq<bool>, e: E, f: bool) {
      && |t0| == |ep0| == |marks| == |t| == |ep| == table.Length > 0
      && multiset(t) + multiset{e} == multiset(t0) + multiset{e0}
      && Live(t, marks) + multiset{e} == Live(t0, marks) + multiset{e0}
      && StillThere(t0, t, e0, e)
      && Count(marks, ep) + One(f) == Count(marks, ep0) + 1
    }

    lemma CarriesFirst(t: seq<E>, ep: seq<bool>, marks: seq<bool>, e: E)
      requires |ep| == |marks| == |t| == table.Length > 0
      ensures Carrying(t, ep, marks, e, t, ep, e, true)
    {
      hide StillThere, LiveTo, CountTo;
      StillAtFirst(t, e);
    }

    lemma CarriesOn(t0: seq<E>, ep0: seq<bool>, marks: seq<bool>, e0: E, t: seq<E>, ep: seq<bool>, e: E, f: bool, k: nat, loc: nat)
      requires Carrying(t0, ep0, marks, e0, t, ep, e, f) && !HasRoom(marks, e) && k < 8 && loc == ComputeHashes(e)[k]
      ensures loc < |marks| && !marks[loc] && Carrying(t0, ep0, marks, e0, t[loc := e], ep[loc := f], t[loc], ep[loc])
    {
      hide HasRoom, StillThere, LiveTo, CountTo, MayHold;
      NoRoomAt(marks, e, k);
      Swapped(t, marks, ep, loc, e, f);
      HashMayHold(e, k);
      StillAfterStore(t0, t, e0, e, loc);
    }

    lemma CarriedIn(t0: seq<E>, ep0: seq<bool>, marks: seq<bool>, e0: E, t: seq<E>, ep: seq<bool>, e: E, f: bool, at: nat)
      requires Carrying(t0, ep0, marks, e0, t, ep, e, f) && at < |marks| && marks[at] && MayHold(at, e)
      ensures multiset(t[at := e]) + multiset{t[at]} == multiset(t0) + multiset{e0}
      ensures Live(t[at := e], marks[at := false]) == Live(t0, marks) + multiset{e0}
      ensures StillThere(t0, t[at := e], e0, t[at])
      ensures Count(marks[at := false], ep[at := f]) == Count(marks, ep0) + 1
    {
      hide HasRoom, StillThere, LiveTo, CountTo, MayHold;
      Filled(t, marks, ep, at, e, f);
      StillAfterStore(t0, t, e0, e, at);
    }

    lemma CarriedAll(t0: seq<E>, ep0: seq<bool>, marks: seq<bool>, e0: E, t: seq<E>, ep: seq<bool>, e: E, f: bool)
      requires Carrying(t0, ep0, marks, e0, t, ep, e, f)
      ensures |t0| == |ep0| == |marks| == |t| == |ep| == table.Length > 0
      ensures multiset(t) + multiset{e} == multiset(t0) + multiset{e0}
      ensures Live(t, marks) + multiset{e} == Live(t0, marks) + multiset{e0}
      ensures StillThere(t0, t, e0, e)
      ensures Count(marks, ep) <= Count(marks, ep0) + 1
    {
      hide StillThere, LiveTo, CountTo;
    }

    /** Inserts by moving elements from slot to slot until one of them finds garbage to
        overwrite. Apart from what the epoch check marked before, at most one element is
        lost: the garbage, or the last one moved. */
    method Insert(e0: E) returns (ghost aged: bool, ghost marks: seq<bool>, ghost o: Outcome<E>, ghost hands: seq<Hand<E>>)
      requires Valid()
      modifies this, table, flags.mem, epochFlags
      ensures Valid()
      ensures aged <==> old(epochHeuristicCounter) == 0 && old(Count(Garbage(), epochFlags[..])) >= epochSize
      ensures |marks| == table.Length && forall i :: 0 <= i < table.Length ==> marks[i] == (old(Garbage()[i]) || (aged && !old(epochFlags[i])))
      ensures o.Present? <==> old(InPlace(table[..], e0))
      ensures o.Present? ==>
        && table[..] == old(table[..])
        && exists at :: 0 <= at < table.Length && table[at] == e0 && MayHold(at, e0) && Garbage() == marks[at := false] && epochFlags[at]
      ensures !o.Present? && HasRoom(marks, e0) ==>
        && o.Stored?
        && exists at :: 0 <= at < table.Length && marks[at] && MayHold(at, e0)
             && table[..] == old(table[..])[at := e0] && Garbage() == marks[at := false] && epochFlags[at]
      ensures o.Stored? ==>
        && multiset(table[..]) + multiset{o.overwritten} == multiset(old(table[..])) + multiset{e0}
        && Live(table[..], Garbage()) == Live(old(table[..]), marks) + multiset{e0}
        && StillThere(old(table[..]), table[..], e0, o.overwritten)
      ensures o.Dropped? ==>
        && Garbage() == marks
        && multiset(table[..]) + multiset{o.lost} == multiset(old(table[..])) + multiset{e0}
        && Live(table[..], Garbage()) + multiset{o.lost} == Live(old(table[..]), marks) + multiset{e0}
        && StillThere(old(table[..]), table[..], e0, o.lost)
      ensures |marks| == |epochFlags[..]| > 0 && Moves(marks, hands) && Begins(old(table[..]), old(epochFlags[..]), aged, e0, hands)
      ensures Ends(marks, hands, o, table[..], epochFlags[..], Garbage())
    {
      hide WellPlaced, MayHold, CountTo, LiveTo, HasRoom, InPlace, StillThere, FirstRoom, IsNext, Moves, Begins, Ends, Puts, Swaps, Carrying;
      ghost var was, epochs := table[..], epochFlags[..];
      aged := EpochCheck();
      marks := Garbage();
      ghost var t0, ep0 := table[..], epochFlags[..];
      o := Present;
      hands := [Hand(t0, ep0, e0, true, INVALID)];
      Starts(was, epochs, aged, marks, ep0, hands);
      var found;
      ghost var at;
      found, at := KeepIfPresent(e0);
      if found {
        EndsPresent(marks, hands, table[..], epochFlags[..], Garbage());
        return;
      }
      var e, lastEpoch, lastLoc := e0, true, INVALID;
      CarriesFirst(t0, ep0, marks, e0);
      for depth := 0 to depthLimit
        invariant Shape() && Garbage() == marks && WellPlaced(table[..], marks, written)
        invariant if depth == 0 then e == e0 && lastEpoch && table[..] == t0 else !HasRoom(marks, e0)
        invariant epochHeuristicCounter + Count(marks, ep0) + 1 <= epochSize + epochSize / 16 + 1
        invariant Carrying(t0, ep0, marks, e0, table[..], epochFlags[..], e, lastEpoch)
        invariant |hands| == depth + 1 && Moves(marks, hands) && Begins(was, epochs, aged, e0, hands)
        invariant hands[depth] == Hand(table[..], epochFlags[..], e, lastEpoch, lastLoc)
      {
        ghost var t, ep := table[..], epochFlags[..];
        var stored;
        stored, at := StoreOverGarbage(e, lastEpoch);
        if stored {
          CarriedIn(t0, ep0, marks, e0, t, ep, e, lastEpoch, at);
          o := Stored(t[at]);
          EndsStored(marks, hands, at, table[..], epochFlags[..], Garbage());
          return;
        }
        ghost var k;
        lastLoc, k := NextSlot(e, lastLoc);
        CarriesOn(t0, ep0, marks, e0, t, ep, e, lastEpoch, k, lastLoc);
        e, lastEpoch := SwapInto(e, k, lastLoc, lastEpoch);
        MovesOn(marks, hands, hands[depth], lastLoc, was, epochs, aged, e0);
        hands := hands + [Hand(table[..], epochFlags[..], e, lastEpoch, lastLoc)];
      }
      CarriedAll(t0, ep0, marks, e0, table[..], epochFlags[..], e, lastEpoch);
      o := Dropped(e);
      EndsDropped(marks, hands);
    }

    /** What a call does to the table. */
    ghost predicate Goes(t: seq<E>, op: Op<E>, o: Outcome<E>, t': seq<E>)
      requires |t| == |t'| == table.Length > 0
    {
      match op
      case Look(_, _) => t' == t
      case Put(e) =>
        match o
        case Present => t' == t && InPlace(t, e)
        case Stored(x) => multiset(t') + multiset{x} == multiset(t) + multiset{e} && StillThere(t, t', e, x)
        case Dropped(x) => multiset(t') + multiset{x} == multiset(t) + multiset{e} && StillThere(t, t', e, x)
    }

    lemma GoesKeeps(t: seq<E>, op: Op<E>, o: Outcome<E>, t': seq<E>, kept: set<E>)
      requires |t| == |t'| == table.Length > 0 && Goes(t, op, o, t') && forall x <- kept :: InPlace(t, x)
      ensures forall x <- (match op case Put(e) => kept + {e} - Losses(o) case Look(_, _) => kept) :: InPlace(t', x)
    {
      hide InPlace;
    }

    /** Any calls, one after the other. tables is the table before each call and after the last.
        A lookup answers whether the element is in place, and so true for any element inserted
        and neither overwritten nor dropped since, whatever was erased or aged. */
    method Replay(ops: seq<Op<E>>) returns (answers: seq<bool>, ghost outcomes: seq<Outcome<E>>, ghost tables: seq<seq<E>>)
      requires Valid()
      modifies this, table, flags.mem, epochFlags
      ensures Valid() && |answers| == |outcomes| == |ops| && |tables| == |ops| + 1
      ensures tables[0] == old(table[..]) && tables[|ops|] == table[..] && forall i :: 0 <= i <= |ops| ==> |tables[i]| == table.Length
      ensures forall i :: 0 <= i < |ops| ==> Goes(tables[i], ops[i], outcomes[i], tables[i + 1])
      ensures forall i :: 0 <= i < |ops| && ops[i].Look? ==> answers[i] == InPlace(tables[i], ops[i].e)
      ensures forall i :: 0 <= i < |ops| && ops[i].Look? && ops[i].e in Kept(ops[..i], outcomes[..i]) ==> answers[i]
    {
      hide WellPlaced, MayHold, CountTo, LiveTo, HasRoom, InPlace, StillThere, Goes, EpochBounded, Kept;
      answers, outcomes, tables := [], [], [table[..]];
      NoneKept(ops);
      for n := 0 to |ops|
        invariant Valid() && |answers| == |outcomes| == n && |tables| == n + 1
        invariant tables[0] == old(table[..]) && tables[n] == table[..] && forall i :: 0 <= i <= n ==> |tables[i]| == table.Length
        invariant forall i :: 0 <= i < n ==> Goes(tables[i], ops[i], outcomes[i], tables[i + 1])
        invariant forall i :: 0 <= i < n && ops[i].Look? ==> answers[i] == InPlace(tables[i], ops[i].e)
        invariant forall i :: 0 <= i < n && ops[i].Look? && ops[i].e in Kept(ops[..i], outcomes[..i]) ==> answers[i]
        invariant forall x <- Kept(ops[..n], outcomes[..n]) :: InPlace(table[..], x)
      {
        ghost var t, kept, was := table[..], Kept(ops[..n], outcomes[..n]), outcomes;
        var answer;
        ghost var o;
        answer, o := Perform(ops[n]);
        GoesKeeps(t, ops[n], o, table[..], kept);
        answers, outcomes, tables := answers + [answer], outcomes + [o], tables + [table[..]];
        assert outcomes[..n] == was[..n];
        KeptNext(ops, outcomes, n);
        assert forall i :: 0 <= i < n ==> outcomes[..i] == was[..i];
      }
    }

    lemma NoneKept(ops: seq<Op<E>>)
      ensures Kept(ops[..0], []) == {}
    {
    }

    method Perform(op: Op<E>) returns (answer: bool, ghost o: Outcome<E>)
      requires Valid()
      modifies this, table, flags.mem, epochFlags
      ensures Valid() && Goes(old(table[..]), op, o, table[..])
      ensures op.Look? ==> answer == InPlace(table[..], op.e) && table[..] == old(table[..])
    {
      hide WellPlaced, MayHold, CountTo, LiveTo, HasRoom, StillThere, EpochBounded;
      answer, o := false, Present;
      match op
      case Put(e) =>
        ghost var aged, marks, hands;
        aged, marks, o, hands := Insert(e);
      case Look(e, erase) =>
        answer := Contains(e, erase);
    }
  }
}
