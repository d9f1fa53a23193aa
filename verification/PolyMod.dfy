/** The checksum register: one step for each value, linear over exclusive or. */
module PolyModSteps {

  function Xor(a: bv32, b: bv32): bv32 { a ^ b }

  function PutBack(c: bv32, bit: bv32, generator: bv32): bv32 {
    if c & bit != 0 then generator else 0
  }

  function LowReduce(c: bv32): bv32 {
    Xor(PutBack(c, 0x0200_0000, 0x3b6a57b2), PutBack(c, 0x0400_0000, 0x26508e6d))
  }

  function HighReduce(c: bv32): bv32 {
    Xor(PutBack(c, 0x1000_0000, 0x3d4233dd), PutBack(c, 0x2000_0000, 0x2a1462b3))
  }

  /** What the five top bits of the register put back. */
  function Reduce(c: bv32): bv32 {
    Xor(Xor(LowReduce(c), PutBack(c, 0x0800_0000, 0x1ea119fa)), HighReduce(c))
  }

  function Shift(c: bv32): bv32 {
    (c & 0x1ffffff) << 5
  }

  /** The register after the next value. */
  function Step(c: bv32, v: bv32): bv32 {
    Xor(Xor(Shift(c), v), Reduce(c))
  }

  const BITS: bv32 := 0x3fff_ffff

  predicate Small(c: bv32) { c & !BITS == 0 }

  predicate IsValue(v: bv32) { v & 0xffff_ffe0 == 0 }

  lemma Associates(a: bv32, b: bv32, c: bv32)
    ensures Xor(Xor(a, b), c) == Xor(a, Xor(b, c))
  {
  }

  lemma Commutes(a: bv32, b: bv32)
    ensures Xor(a, b) == Xor(b, a)
  {
  }

  /** A sum of two sums, with the middle terms exchanged. */
  lemma Combine(a: bv32, b: bv32, c: bv32, d: bv32)
    ensures Xor(Xor(a, b), Xor(c, d)) == Xor(Xor(a, c), Xor(b, d))
  {
    hide Xor;
    Associates(a, b, Xor(c, d));
    Associates(b, c, d);
    Commutes(b, c);
    Associates(c, b, d);
    Associates(a, c, Xor(b, d));
  }

  lemma ShiftLinear(c: bv32, d: bv32)
    ensures Shift(Xor(c, d)) == Xor(Shift(c), Shift(d))
  {
  }

  lemma LowLinear(c: bv32, d: bv32)
    ensures LowReduce(Xor(c, d)) == Xor(LowReduce(c), LowReduce(d))
  {
  }

  lemma MiddleLinear(c: bv32, d: bv32)
    ensures PutBack(Xor(c, d), 0x0800_0000, 0x1ea119fa) == Xor(PutBack(c, 0x0800_0000, 0x1ea119fa), PutBack(d, 0x0800_0000, 0x1ea119fa))
  {
  }

  lemma HighLinear(c: bv32, d: bv32)
    ensures HighReduce(Xor(c, d)) == Xor(HighReduce(c), HighReduce(d))
  {
  }

  lemma ReduceLinear(c: bv32, d: bv32)
    ensures Reduce(Xor(c, d)) == Xor(Reduce(c), Reduce(d))
  {
    hide Xor, PutBack, LowReduce, HighReduce;
    LowLinear(c, d);
    MiddleLinear(c, d);
    HighLinear(c, d);
    var p, q := PutBack(c, 0x0800_0000, 0x1ea119fa), PutBack(d, 0x0800_0000, 0x1ea119fa);
    Combine(LowReduce(c), LowReduce(d), p, q);
    Combine(Xor(LowReduce(c), p), Xor(LowReduce(d), q), HighReduce(c), HighReduce(d));
  }

  /** A step adds up. */
  lemma StepLinear(c: bv32, d: bv32, v: bv32, w: bv32)
    ensures Step(Xor(c, d), Xor(v, w)) == Xor(Step(c, v), Step(d, w))
  {
    hide Xor, Shift, Reduce;
    ShiftLinear(c, d);
    ReduceLinear(c, d);
    Combine(Shift(c), Shift(d), v, w);
    Combine(Xor(Shift(c), v), Xor(Shift(d), w), Reduce(c), Reduce(d));
  }

  lemma StepSmall(c: bv32, v: bv32)
    requires Small(c) && IsValue(v)
    ensures Small(Step(c, v))
  {
  }

  /** A register that is not zero never becomes zero on zeroes. */
  lemma StepInjective(c: bv32)
    requires Small(c) && Step(c, 0) == 0
    ensures c == 0
  {
  }

  // ----- several values ----------------------------------------------------

  /** The register after a list of values. */
  function Fold(c: bv32, v: seq<bv32>): bv32 {
    if v == [] then c else Step(Fold(c, v[..|v| - 1]), v[|v| - 1])
  }

  ghost predicate AreValues(v: seq<bv32>) {
    forall i :: 0 <= i < |v| ==> IsValue(v[i])
  }

  /** The values where two lists differ. */
  function Difference(v: seq<bv32>, w: seq<bv32>): seq<bv32>
    requires |v| == |w|
  {
    seq(|v|, (i: nat) requires i < |v| == |w| => Xor(v[i], w[i]))
  }

  function Zeroes(n: nat): seq<bv32> {
    seq(n, (i: nat) => 0)
  }

  lemma FoldNext(c: bv32, v: seq<bv32>, x: bv32)
    ensures Fold(c, v + [x]) == Step(Fold(c, v), x)
  {
    hide Step;
    assert (v + [x])[..|v|] == v;
  }

  lemma {:induction false} FoldAppend(c: bv32, v: seq<bv32>, w: seq<bv32>)
    ensures Fold(c, v + w) == Fold(Fold(c, v), w)
    decreases |w|
  {
    hide Step;
    if w == [] {
      assert v + w == v;
    } else {
      var front, x := w[..|w| - 1], w[|w| - 1];
      FoldAppend(c, v, front);
      assert v + w == (v + front) + [x];
      FoldNext(c, v + front, x);
    }
  }

  lemma {:induction false} FoldLinear(c: bv32, d: bv32, v: seq<bv32>, w: seq<bv32>)
    requires |v| == |w|
    ensures Fold(Xor(c, d), Difference(v, w)) == Xor(Fold(c, v), Fold(d, w))
    decreases |v|
  {
    hide Step, Xor;
    if v != [] {
      var n := |v| - 1;
      FoldLinear(c, d, v[..n], w[..n]);
      assert Difference(v, w)[..n] == Difference(v[..n], w[..n]);
      StepLinear(Fold(c, v[..n]), Fold(d, w[..n]), v[n], w[n]);
    }
  }

  lemma {:induction false} FoldSmall(c: bv32, v: seq<bv32>)
    requires Small(c) && AreValues(v)
    ensures Small(Fold(c, v))
    decreases |v|
  {
    hide Step, Small, IsValue;
    if v != [] {
      FoldSmall(c, v[..|v| - 1]);
      StepSmall(Fold(c, v[..|v| - 1]), v[|v| - 1]);
    }
  }

  lemma SameIsZero(c: bv32)
    ensures Xor(c, c) == 0
  {
  }

  lemma ZeroStep()
    ensures Step(0, 0) == 0 && Small(0) && IsValue(0)
  {
  }

  lemma ValueIsSmall(v: bv32)
    requires IsValue(v)
    ensures Step(0, v) == v && Small(v)
  {
  }

  lemma {:induction false} FoldZeroes(n: nat)
    ensures Fold(0, Zeroes(n)) == 0
  {
    hide Step;
    if n > 0 {
      FoldZeroes(n - 1);
      assert Zeroes(n)[..n - 1] == Zeroes(n - 1);
      ZeroStep();
    }
  }

  /** A register that is not zero never becomes zero on zeroes. */
  lemma {:induction false} FoldZeroesInjective(c: bv32, n: nat)
    requires Small(c) && Fold(c, Zeroes(n)) == 0
    ensures c == 0
  {
    hide Step, Small, IsValue;
    if n > 0 {
      assert Zeroes(n)[..n - 1] == Zeroes(n - 1);
      ZeroStep();
      FoldSmall(c, Zeroes(n - 1));
      StepInjective(Fold(c, Zeroes(n - 1)));
      FoldZeroesInjective(c, n - 1);
    }
  }

  /** Lists that differ in one value end in different registers. */
  lemma OneChangeShows(c: bv32, v: seq<bv32>, i: nat, x: bv32)
    requires i < |v| && AreValues(v) && IsValue(x) && x != v[i]
    ensures Fold(c, v[i := x]) != Fold(c, v)
  {
    hide Step, Small, IsValue, Xor;
    var w := v[i := x];
    var d := Xor(v[i], x);
    var rest := |v| - 1 - i;
    FoldLinear(c, c, v, w);
    SameIsZero(c);
    forall k | 0 <= k < |v| ensures Difference(v, w)[k] == if k == i then d else 0 {
      if k != i { SameIsZero(v[k]); }
    }
    assert Difference(v, w) == (Zeroes(i) + [d]) + Zeroes(rest);
    FoldAppend(0, Zeroes(i) + [d], Zeroes(rest));
    FoldNext(0, Zeroes(i), d);
    FoldZeroes(i);
    DifferenceOfValues(v[i], x);
    ValueIsSmall(d);
    if Fold(c, w) == Fold(c, v) {
      SameIsZero(Fold(c, v));
      FoldZeroesInjective(d, rest);
    }
  }

  lemma DifferenceOfValues(v: bv32, x: bv32)
    requires IsValue(v) && IsValue(x)
    ensures IsValue(Xor(v, x)) && (Xor(v, x) == 0 ==> v == x)
  {
  }

  // ----- six values --------------------------------------------------------

  /** Six values as one register. */
  function Pack(a: bv32, b: bv32, c: bv32, d: bv32, e: bv32, f: bv32): bv32 {
    (a << 25) ^ (b << 20) ^ (c << 15) ^ (d << 10) ^ (e << 5) ^ f
  }

  function Packed(v: seq<bv32>): bv32
    requires |v| == 6
  {
    Pack(v[0], v[1], v[2], v[3], v[4], v[5])
  }

  /** The i-th value from the top of a register. */
  function Unpacked(c: bv32, i: nat): bv32
    requires i < 6
  {
    (match i
     case 0 => c >> 25
     case 1 => c >> 20
     case 2 => c >> 15
     case 3 => c >> 10
     case 4 => c >> 5
     case _ => c) & 31
  }

  lemma UnpackedPacks(c: bv32)
    requires Small(c)
    ensures Pack((c >> 25) & 31, (c >> 20) & 31, (c >> 15) & 31, (c >> 10) & 31, (c >> 5) & 31, c & 31) == c
  {
  }

  lemma PackedUnpacks(a: bv32, b: bv32, c: bv32, d: bv32, e: bv32, f: bv32)
    requires IsValue(a) && IsValue(b) && IsValue(c) && IsValue(d) && IsValue(e) && IsValue(f)
    ensures var p := Pack(a, b, c, d, e, f);
            && (p >> 25) & 31 == a && (p >> 20) & 31 == b && (p >> 15) & 31 == c
            && (p >> 10) & 31 == d && (p >> 5) & 31 == e && p & 31 == f
  {
  }

  lemma UnpackedIs(c: bv32)
    ensures Unpacked(c, 0) == (c >> 25) & 31 && Unpacked(c, 1) == (c >> 20) & 31 && Unpacked(c, 2) == (c >> 15) & 31
    ensures Unpacked(c, 3) == (c >> 10) & 31 && Unpacked(c, 4) == (c >> 5) & 31 && Unpacked(c, 5) == c & 31
  {
  }

  lemma SixSteps(a: bv32, b: bv32, c: bv32, d: bv32, e: bv32, f: bv32)
    requires IsValue(a) && IsValue(b) && IsValue(c) && IsValue(d) && IsValue(e) && IsValue(f)
    ensures Step(Step(Step(Step(Step(Step(0, a), b), c), d), e), f) == Pack(a, b, c, d, e, f)
  {
  }

  // ----- checksums ---------------------------------------------------------

  /** The six values that bring the register to the constant. */
  function Checksum(enc: seq<bv32>, constant: bv32): seq<bv32> {
    var mod := Xor(Fold(1, enc + Zeroes(6)), constant);
    seq(6, (i: nat) requires i < 6 => Unpacked(mod, i))
  }

  lemma SixFold(v: seq<bv32>)
    requires |v| == 6 && AreValues(v)
    ensures Fold(0, v) == Packed(v)
  {
    hide Step, Pack, IsValue;
    assert v[..6] == v;
    FoldPrefix(v, 5);
    FoldPrefix(v, 4);
    FoldPrefix(v, 3);
    FoldPrefix(v, 2);
    FoldPrefix(v, 1);
    FoldPrefix(v, 0);
    SixSteps(v[0], v[1], v[2], v[3], v[4], v[5]);
  }

  lemma FoldPrefix(v: seq<bv32>, n: nat)
    requires n < |v|
    ensures Fold(0, v[..n + 1]) == Step(Fold(0, v[..n]), v[n]) && Fold(0, v[..0]) == 0
  {
    hide Step;
    assert v[..n + 1] == v[..n] + [v[n]];
    FoldNext(0, v[..n], v[n]);
  }

  /** Six more values add what they pack to. */
  lemma SixMore(enc: seq<bv32>, chk: seq<bv32>)
    requires |chk| == 6 && AreValues(chk)
    ensures Fold(1, enc + chk) == Xor(Fold(1, enc + Zeroes(6)), Packed(chk))
  {
    hide Step, Xor, IsValue, Fold, Packed;
    var f := Fold(1, enc);
    FoldAppend(1, enc, chk);
    FoldAppend(1, enc, Zeroes(6));
    FoldLinear(f, 0, Zeroes(6), chk);
    XorZero(f);
    forall i | 0 <= i < 6 ensures Difference(Zeroes(6), chk)[i] == chk[i] { XorZero(chk[i]); }
    assert Difference(Zeroes(6), chk) == chk;
    SixFold(chk);
  }

  lemma XorZero(c: bv32)
    ensures Xor(c, 0) == c && Xor(0, c) == c
  {
  }

  lemma XorTwice(a: bv32, c: bv32)
    ensures Xor(a, Xor(a, c)) == c
  {
  }

  lemma XorSmall(a: bv32, c: bv32)
    requires Small(a) && Small(c)
    ensures Small(Xor(a, c))
  {
  }

  lemma UnpackedAreValues(c: bv32, i: nat)
    requires i < 6
    ensures IsValue(Unpacked(c, i))
  {
  }

  lemma PackOfUnpacked(c: bv32)
    requires Small(c)
    ensures Pack(Unpacked(c, 0), Unpacked(c, 1), Unpacked(c, 2), Unpacked(c, 3), Unpacked(c, 4), Unpacked(c, 5)) == c
  {
    hide Pack, Unpacked;
    UnpackedIs(c);
    UnpackedPacks(c);
  }

  lemma PackedBack(c: bv32, v: seq<bv32>)
    requires Small(c) && |v| == 6 && forall i :: 0 <= i < 6 ==> v[i] == Unpacked(c, i)
    ensures Packed(v) == c
  {
    hide Pack, Unpacked, Small;
    PackOfUnpacked(c);
  }

  lemma UnpackedOfPack(a: bv32, b: bv32, c: bv32, d: bv32, e: bv32, f: bv32)
    requires IsValue(a) && IsValue(b) && IsValue(c) && IsValue(d) && IsValue(e) && IsValue(f)
    ensures var p := Pack(a, b, c, d, e, f);
            && Unpacked(p, 0) == a && Unpacked(p, 1) == b && Unpacked(p, 2) == c
            && Unpacked(p, 3) == d && Unpacked(p, 4) == e && Unpacked(p, 5) == f
  {
    hide Pack, Unpacked;
    UnpackedIs(Pack(a, b, c, d, e, f));
    PackedUnpacks(a, b, c, d, e, f);
  }

  lemma UnpackedBack(v: seq<bv32>, i: nat)
    requires |v| == 6 && AreValues(v) && i < 6
    ensures Unpacked(Packed(v), i) == v[i]
  {
    hide Pack, Unpacked, IsValue;
    UnpackedOfPack(v[0], v[1], v[2], v[3], v[4], v[5]);
    assert i == 0 || i == 1 || i == 2 || i == 3 || i == 4 || i == 5;
  }

  lemma OneIsSmall()
    ensures Small(1) && IsValue(0)
  {
  }

  lemma ZeroesAreValues(n: nat)
    ensures AreValues(Zeroes(n))
  {
    OneIsSmall();
  }

  /** The checksum brings the register to the constant. */
  lemma ChecksumFits(enc: seq<bv32>, constant: bv32)
    requires AreValues(enc) && Small(constant)
    ensures |Checksum(enc, constant)| == 6 && AreValues(Checksum(enc, constant))
    ensures Fold(1, enc + Checksum(enc, constant)) == constant
  {
    hide Step, Xor, IsValue, Fold, Packed, Unpacked, Small;
    var chk, before := Checksum(enc, constant), Fold(1, enc + Zeroes(6));
    var mod := Xor(before, constant);
    forall i | 0 <= i < 6 ensures IsValue(chk[i]) && chk[i] == Unpacked(mod, i) { UnpackedAreValues(mod, i); }
    OneIsSmall();
    ZeroesAreValues(6);
    FoldSmall(1, enc + Zeroes(6));
    XorSmall(before, constant);
    PackedBack(mod, chk);
    SixMore(enc, chk);
    XorTwice(before, constant);
  }

  /** Nothing else does. */
  lemma ChecksumIsOnly(enc: seq<bv32>, chk: seq<bv32>, constant: bv32)
    requires |chk| == 6 && AreValues(chk) && Fold(1, enc + chk) == constant
    ensures chk == Checksum(enc, constant)
  {
    hide Step, Xor, IsValue, Fold, Packed, Unpacked;
    SixMore(enc, chk);
    XorTwice(Fold(1, enc + Zeroes(6)), Packed(chk));
    forall i | 0 <= i < 6 ensures Checksum(enc, constant)[i] == chk[i] { UnpackedBack(chk, i); }
  }
}
