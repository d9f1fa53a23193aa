/** What the register of the checksum is: the remainder of a polynomial over the field of 32
    elements (section "Bech32" of BIP 173). */
module PolyModRemainder {
  import opened PolyModSteps

  // ----- the field ---------------------------------------------------------

  /** z times a, where z to the fifth is z to the third plus one. */
  function Twice(a: bv32): bv32 {
    Xor((a & 15) << 1, PutBack(a, 16, 9))
  }

  function IfBit(b: bv32, bit: bv32, a: bv32): bv32 {
    if b & bit != 0 then a else 0
  }

  /** The product of two elements, bit by bit of the second. */
  function Times(a: bv32, b: bv32): bv32 {
    var a2 := Twice(a);
    var a4 := Twice(a2);
    var a8 := Twice(a4);
    Xor(Xor(Xor(IfBit(b, 1, a), IfBit(b, 2, a2)), IfBit(b, 4, a4)), Xor(IfBit(b, 8, a8), IfBit(b, 16, Twice(a8))))
  }

  /** {5} * {26} = {9}. */
  lemma FieldExample()
    ensures Times(5, 26) == 9 && Times(26, 5) == 9
  {
  }

  lemma TwiceLinear(a: bv32, b: bv32)
    ensures Twice(Xor(a, b)) == Xor(Twice(a), Twice(b))
  {
    hide Xor, PutBack;
    DoubleLinear(a, b);
    PutBackLinear(a, b);
    Combine((a & 15) << 1, (b & 15) << 1, PutBack(a, 16, 9), PutBack(b, 16, 9));
  }

  lemma DoubleLinear(a: bv32, b: bv32)
    ensures (Xor(a, b) & 15) << 1 == Xor((a & 15) << 1, (b & 15) << 1)
  {
  }

  lemma PutBackLinear(a: bv32, b: bv32)
    ensures PutBack(Xor(a, b), 16, 9) == Xor(PutBack(a, 16, 9), PutBack(b, 16, 9))
  {
  }

  lemma IfBitLinear(b: bv32, bit: bv32, x: bv32, y: bv32)
    ensures IfBit(b, bit, Xor(x, y)) == Xor(IfBit(b, bit, x), IfBit(b, bit, y))
  {
    XorZero(0);
  }

  /** The sum of those of five values whose bit is set. */
  function Five(t: bv32, a: bv32, b: bv32, c: bv32, d: bv32, e: bv32): bv32 {
    Xor(Xor(Xor(IfBit(t, 1, a), IfBit(t, 2, b)), IfBit(t, 4, c)), Xor(IfBit(t, 8, d), IfBit(t, 16, e)))
  }

  lemma FiveLinear(t: bv32, a: bv32, b: bv32, c: bv32, d: bv32, e: bv32, a': bv32, b': bv32, c': bv32, d': bv32, e': bv32)
    ensures Five(t, Xor(a, a'), Xor(b, b'), Xor(c, c'), Xor(d, d'), Xor(e, e')) == Xor(Five(t, a, b, c, d, e), Five(t, a', b', c', d', e'))
  {
    hide Xor, IfBit;
    IfBitLinear(t, 1, a, a');
    IfBitLinear(t, 2, b, b');
    IfBitLinear(t, 4, c, c');
    IfBitLinear(t, 8, d, d');
    IfBitLinear(t, 16, e, e');
    var p, p', q, q' := IfBit(t, 1, a), IfBit(t, 1, a'), IfBit(t, 2, b), IfBit(t, 2, b');
    var r, r', u, u', v, v' := IfBit(t, 4, c), IfBit(t, 4, c'), IfBit(t, 8, d), IfBit(t, 8, d'), IfBit(t, 16, e), IfBit(t, 16, e');
    Combine(p, p', q, q');
    Combine(Xor(p, q), Xor(p', q'), r, r');
    Combine(u, u', v, v');
    Combine(Xor(Xor(p, q), r), Xor(Xor(p', q'), r'), Xor(u, v), Xor(u', v'));
  }

  lemma TimesLinear(a: bv32, b: bv32, g: bv32)
    ensures Times(Xor(a, b), g) == Xor(Times(a, g), Times(b, g))
  {
    hide Xor, Twice, IfBit;
    TwiceLinear(a, b);
    TwiceLinear(Twice(a), Twice(b));
    TwiceLinear(Twice(Twice(a)), Twice(Twice(b)));
    TwiceLinear(Twice(Twice(Twice(a))), Twice(Twice(Twice(b))));
    FiveLinear(g, a, Twice(a), Twice(Twice(a)), Twice(Twice(Twice(a))), Twice(Twice(Twice(Twice(a)))),
               b, Twice(b), Twice(Twice(b)), Twice(Twice(Twice(b))), Twice(Twice(Twice(Twice(b)))));
  }

  lemma TimesZero(b: bv32)
    ensures Times(0, b) == 0
  {
  }

  lemma TimesOne(a: bv32)
    ensures Times(a, 1) == a
  {
    hide Twice, Xor;
    OnlyOne();
    XorZero(a);
    XorZero(0);
  }

  lemma OnlyOne()
    ensures forall x :: IfBit(1, 1, x) == x && IfBit(1, 2, x) == 0 && IfBit(1, 4, x) == 0 && IfBit(1, 8, x) == 0 && IfBit(1, 16, x) == 0
  {
  }

  lemma Bits(t: bv32)
    requires t < 32
    ensures t == Xor(Xor(Xor(IfBit(t, 1, 1), IfBit(t, 2, 2)), IfBit(t, 4, 4)), Xor(IfBit(t, 8, 8), IfBit(t, 16, 16)))
  {
  }

  lemma TimesBit(t: bv32, bit: bv32, g: bv32)
    ensures Times(IfBit(t, bit, bit), g) == IfBit(t, bit, Times(bit, g))
  {
    hide Times;
    TimesZero(g);
  }

  lemma TimesSplit(t: bv32, g: bv32)
    requires t < 32
    ensures Times(t, g) == Five(t, Times(1, g), Times(2, g), Times(4, g), Times(8, g), Times(16, g))
  {
    hide Times, Xor, IfBit;
    Bits(t);
    var a, b, c, d, e := IfBit(t, 1, 1), IfBit(t, 2, 2), IfBit(t, 4, 4), IfBit(t, 8, 8), IfBit(t, 16, 16);
    TimesLinear(Xor(Xor(a, b), c), Xor(d, e), g);
    TimesLinear(Xor(a, b), c, g);
    TimesLinear(a, b, g);
    TimesLinear(d, e, g);
    TimesBit(t, 1, g);
    TimesBit(t, 2, g);
    TimesBit(t, 4, g);
    TimesBit(t, 8, g);
    TimesBit(t, 16, g);
  }

  // ----- what the top value puts back --------------------------------------

  lemma TopBits(c: bv32)
    ensures c & 0x0200_0000 != 0 <==> (c >> 25) & 1 != 0
    ensures c & 0x0400_0000 != 0 <==> (c >> 25) & 2 != 0
    ensures c & 0x0800_0000 != 0 <==> (c >> 25) & 4 != 0
    ensures c & 0x1000_0000 != 0 <==> (c >> 25) & 8 != 0
    ensures c & 0x2000_0000 != 0 <==> (c >> 25) & 16 != 0
  {
  }

  lemma ReduceIs(c: bv32)
    ensures Reduce(c) == Five(c >> 25, 0x3b6a57b2, 0x26508e6d, 0x1ea119fa, 0x3d4233dd, 0x2a1462b3)
  {
    hide Xor;
    TopBits(c);
    var t := c >> 25;
    var a, b, m := PutBack(c, 0x0200_0000, 0x3b6a57b2), PutBack(c, 0x0400_0000, 0x26508e6d), PutBack(c, 0x0800_0000, 0x1ea119fa);
    assert a == IfBit(t, 1, 0x3b6a57b2) && b == IfBit(t, 2, 0x26508e6d) && m == IfBit(t, 4, 0x1ea119fa);
  }

  lemma UnpackedLinear(c: bv32, d: bv32, i: nat)
    requires i < 6
    ensures Unpacked(Xor(c, d), i) == Xor(Unpacked(c, i), Unpacked(d, i))
  {
    hide Unpacked, Xor;
    UnpackedIs(c);
    UnpackedIs(d);
    UnpackedIs(Xor(c, d));
    HighLinear(c, d);
    LowLinear(c, d);
    assert i == 0 || i == 1 || i == 2 || i == 3 || i == 4 || i == 5;
  }

  lemma HighLinear(c: bv32, d: bv32)
    ensures (Xor(c, d) >> 25) & 31 == Xor((c >> 25) & 31, (d >> 25) & 31)
    ensures (Xor(c, d) >> 20) & 31 == Xor((c >> 20) & 31, (d >> 20) & 31)
    ensures (Xor(c, d) >> 15) & 31 == Xor((c >> 15) & 31, (d >> 15) & 31)
  {
  }

  lemma LowLinear(c: bv32, d: bv32)
    ensures (Xor(c, d) >> 10) & 31 == Xor((c >> 10) & 31, (d >> 10) & 31)
    ensures (Xor(c, d) >> 5) & 31 == Xor((c >> 5) & 31, (d >> 5) & 31)
    ensures Xor(c, d) & 31 == Xor(c & 31, d & 31)
  {
  }

  lemma UnpackedBit(t: bv32, bit: bv32, a: bv32, i: nat)
    requires i < 6
    ensures Unpacked(IfBit(t, bit, a), i) == IfBit(t, bit, Unpacked(a, i))
  {
  }

  lemma UnpackedFive(t: bv32, a: bv32, b: bv32, c: bv32, d: bv32, e: bv32, i: nat)
    requires i < 6
    ensures Unpacked(Five(t, a, b, c, d, e), i)
         == Five(t, Unpacked(a, i), Unpacked(b, i), Unpacked(c, i), Unpacked(d, i), Unpacked(e, i))
  {
    hide Xor, IfBit, Unpacked;
    var p, q, r, u, v := IfBit(t, 1, a), IfBit(t, 2, b), IfBit(t, 4, c), IfBit(t, 8, d), IfBit(t, 16, e);
    UnpackedLinear(Xor(Xor(p, q), r), Xor(u, v), i);
    UnpackedLinear(Xor(p, q), r, i);
    UnpackedLinear(p, q, i);
    UnpackedLinear(u, v, i);
    UnpackedBit(t, 1, a, i);
    UnpackedBit(t, 2, b, i);
    UnpackedBit(t, 4, c, i);
    UnpackedBit(t, 8, d, i);
    UnpackedBit(t, 16, e, i);
  }

  /** x^6 + 29 x^5 + 22 x^4 + 20 x^3 + 21 x^2 + 29 x + 18, the highest coefficient first. */
  const GENERATOR: seq<bv32> := [1, 29, 22, 20, 21, 29, 18]

  lemma ConstantOne(i: nat)
    requires i < 6
    ensures Unpacked(0x3b6a57b2, i) == Times(1, GENERATOR[i + 1])
  {
  }

  lemma ConstantTwo(i: nat)
    requires i < 6
    ensures Unpacked(0x26508e6d, i) == Times(2, GENERATOR[i + 1])
  {
  }

  lemma ConstantFour(i: nat)
    requires i < 6
    ensures Unpacked(0x1ea119fa, i) == Times(4, GENERATOR[i + 1])
  {
  }

  lemma ConstantEight(i: nat)
    requires i < 6
    ensures Unpacked(0x3d4233dd, i) == Times(8, GENERATOR[i + 1])
  {
  }

  lemma ConstantSixteen(i: nat)
    requires i < 6
    ensures Unpacked(0x2a1462b3, i) == Times(16, GENERATOR[i + 1])
  {
  }

  /** A top value t puts back t times the lower coefficients of the generator. */
  lemma PutsBack(c: bv32, i: nat)
    requires Small(c) && i < 6
    ensures Unpacked(Reduce(c), i) == Times(c >> 25, GENERATOR[i + 1])
  {
    hide Reduce, Times, Unpacked, Five;
    ReduceIs(c);
    TopIsValue(c);
    UnpackedFive(c >> 25, 0x3b6a57b2, 0x26508e6d, 0x1ea119fa, 0x3d4233dd, 0x2a1462b3, i);
    ConstantOne(i);
    ConstantTwo(i);
    ConstantFour(i);
    ConstantEight(i);
    ConstantSixteen(i);
    TimesSplit(c >> 25, GENERATOR[i + 1]);
  }

  lemma TopIsValue(c: bv32)
    requires Small(c)
    ensures c >> 25 < 32
  {
  }

  // ----- polynomials -------------------------------------------------------

  /** The coefficient of x to the i, where the highest one comes first. */
  function Coefficient(p: seq<bv32>, i: int): bv32 {
    if 0 <= i < |p| then p[|p| - 1 - i] else 0
  }

  /** The coefficient of x to the i in q times the n lowest terms of the generator. */
  function ProductTo(q: seq<bv32>, i: int, n: nat): bv32 {
    if n == 0 then 0
    else Xor(ProductTo(q, i, n - 1), Times(Coefficient(q, i - (n - 1)), Coefficient(GENERATOR, n - 1)))
  }

  /** In q times the generator. */
  function Product(q: seq<bv32>, i: int): bv32 {
    ProductTo(q, i, 7)
  }

  /** The coefficient of x to the i that a register stands for. */
  function InRegister(c: bv32, i: int): bv32 {
    if 0 <= i < 6 then Unpacked(c, 5 - i) else 0
  }

  lemma {:induction false} ProductNext(q: seq<bv32>, a: bv32, i: nat, n: nat)
    ensures ProductTo(q + [a], i, n) == Xor(ProductTo(q, i - 1, n), if i < n then Times(a, Coefficient(GENERATOR, i)) else 0)
  {
    hide Times, Xor;
    if n == 0 {
      XorZero(0);
    } else {
      ProductNext(q, a, i, n - 1);
      var g := Coefficient(GENERATOR, n - 1);
      var p, top := ProductTo(q, i - 1, n - 1), Times(a, Coefficient(GENERATOR, i));
      if i == n - 1 {
        assert Coefficient(q + [a], 0) == a && Coefficient(q, -1) == 0;
        TimesZero(g);
        XorZero(p);
      } else {
        assert Coefficient(q + [a], i - (n - 1)) == Coefficient(q, i - 1 - (n - 1));
        var was := Times(Coefficient(q, i - 1 - (n - 1)), g);
        if i < n - 1 {
          TimesZero(g);
          XorZero(p);
          XorZero(Xor(p, top));
        } else {
          XorZero(p);
          XorZero(Xor(p, was));
        }
      }
    }
  }

  lemma InShift(c: bv32, i: nat)
    requires Small(c) && i <= 6
    ensures if i == 6 then c >> 25 == Unpacked(c, 0) else Unpacked(Shift(c), 5 - i) == if i == 0 then 0 else Unpacked(c, 6 - i)
  {
    hide Unpacked, Shift, Small;
    UnpackedIs(c);
    UnpackedIs(Shift(c));
    HighShift(c);
    LowShift(c);
    assert i == 0 || i == 1 || i == 2 || i == 3 || i == 4 || i == 5 || i == 6;
  }

  lemma HighShift(c: bv32)
    requires Small(c)
    ensures c >> 25 == (c >> 25) & 31
    ensures (Shift(c) >> 25) & 31 == (c >> 20) & 31
    ensures (Shift(c) >> 20) & 31 == (c >> 15) & 31
    ensures (Shift(c) >> 15) & 31 == (c >> 10) & 31
  {
  }

  lemma LowShift(c: bv32)
    ensures (Shift(c) >> 10) & 31 == (c >> 5) & 31
    ensures (Shift(c) >> 5) & 31 == c & 31
    ensures Shift(c) & 31 == 0
  {
  }

  lemma OnlyLow(v: bv32, i: nat)
    requires IsValue(v) && i < 6
    ensures Unpacked(v, 5 - i) == if i == 0 then v else 0
  {
  }

  /** One step multiplies by x, adds the value, and takes off the top times the generator. */
  lemma StepRemainder(c: bv32, v: bv32, i: nat)
    requires Small(c) && IsValue(v)
    ensures InRegister(Step(c, v), i)
         == Xor(if i == 0 then v else InRegister(c, i - 1), if i < 7 then Times(c >> 25, Coefficient(GENERATOR, i)) else 0)
  {
    hide Xor, Shift, Reduce, Times, Unpacked;
    if i < 6 {
      var r := if i == 0 then 0 else Unpacked(c, 6 - i);
      InShift(c, i);
      OnlyLow(v, i);
      PutsBack(c, 5 - i);
      UnpackedLinear(Xor(Shift(c), v), Reduce(c), 5 - i);
      UnpackedLinear(Shift(c), v, 5 - i);
      XorZero(v);
      XorZero(r);
    } else if i == 6 {
      InShift(c, 6);
      TimesOne(c >> 25);
      SameIsZero(c >> 25);
    } else {
      XorZero(0);
    }
  }

  /** What remains of the values, behind a one, after taking off a multiple of the generator. */
  ghost predicate IsRemainder(v: seq<bv32>, q: seq<bv32>, c: bv32) {
    forall i: nat :: Coefficient([1] + v, i) == Xor(Product(q, i), InRegister(c, i))
  }

  lemma RemainderOfNothing()
    ensures IsRemainder([], [], 1)
  {
    forall i: nat ensures Coefficient([1] + [], i) == Xor(Product([], i), InRegister(1, i)) {
      NoProduct(i, 7);
      UnpackedIs(1);
    }
  }

  lemma {:induction false} NoProduct(i: int, n: nat)
    ensures ProductTo([], i, n) == 0
  {
    hide Times;
    if n > 0 {
      NoProduct(i, n - 1);
      TimesZero(Coefficient(GENERATOR, n - 1));
    }
  }

  /** The register after any values is the remainder of their polynomial. */
  lemma {:induction false} FoldIsRemainder(v: seq<bv32>) returns (q: seq<bv32>)
    requires AreValues(v)
    ensures |q| == |v| && IsRemainder(v, q, Fold(1, v))
  {
    hide Step, Small, IsValue, IsRemainder;
    if v == [] {
      RemainderOfNothing();
      q := [];
    } else {
      var front, x := v[..|v| - 1], v[|v| - 1];
      q := FoldIsRemainder(front);
      OneIsSmall();
      FoldSmall(1, front);
      NextRemainder(front, x, q, Fold(1, front));
      assert front + [x] == v;
      q := q + [Fold(1, front) >> 25];
    }
  }

  lemma NextRemainder(v: seq<bv32>, x: bv32, q: seq<bv32>, c: bv32)
    requires Small(c) && IsValue(x) && IsRemainder(v, q, c)
    ensures IsRemainder(v + [x], q + [c >> 25], Step(c, x))
  {
    hide Step, Small, IsValue, Xor, Times, Unpacked, ProductTo;
    forall i: nat ensures Coefficient([1] + (v + [x]), i) == Xor(Product(q + [c >> 25], i), InRegister(Step(c, x), i)) {
      ProductNext(q, c >> 25, i, 7);
      StepRemainder(c, x, i);
      var p, r := ProductTo(q, i - 1, 7), if i == 0 then x else InRegister(c, i - 1);
      var top := if i < 7 then Times(c >> 25, Coefficient(GENERATOR, i)) else 0;
      CancelTop(p, top, r);
      if i == 0 {
        BelowIsZero(q, 7);
        XorZero(x);
      } else {
        assert Coefficient([1] + (v + [x]), i) == Coefficient([1] + v, i - 1);
      }
    }
  }

  lemma {:induction false} BelowIsZero(q: seq<bv32>, n: nat)
    ensures ProductTo(q, -1, n) == 0
  {
    hide Times;
    if n > 0 {
      BelowIsZero(q, n - 1);
      TimesZero(Coefficient(GENERATOR, n - 1));
    }
  }

  lemma CancelTop(p: bv32, top: bv32, r: bv32)
    ensures Xor(Xor(p, top), Xor(r, top)) == Xor(p, r)
  {
    hide Xor;
    Commutes(r, top);
    Combine(p, top, top, r);
    Associates(p, top, Xor(top, r));
    Associates(top, top, r);
    SameIsZero(top);
    XorZero(r);
  }

  // ----- the only one ------------------------------------------------------

  lemma XorSame(a: bv32, b: bv32, c: bv32)
    requires Xor(a, b) == Xor(a, c)
    ensures b == c
  {
    hide Xor;
    XorTwice(a, b);
    XorTwice(a, c);
  }

  /** Polynomials that agree above x to the i - n have the same coefficient of x to the i in
      the product with the n lowest terms of the generator. */
  lemma {:induction false} SameProduct(q: seq<bv32>, r: seq<bv32>, i: int, n: nat)
    requires forall k :: k > i - n ==> Coefficient(q, k) == Coefficient(r, k)
    ensures ProductTo(q, i, n) == ProductTo(r, i, n)
  {
    hide Times, Xor, Coefficient;
    if n > 0 {
      SameProduct(q, r, i, n - 1);
      assert Coefficient(q, i - n + 1) == Coefficient(r, i - n + 1);
    }
  }

  /** The highest coefficient of a product is that of its factor. */
  lemma TopOfProduct(q: seq<bv32>, i: int)
    ensures Product(q, i + 6) == Xor(ProductTo(q, i + 6, 6), Coefficient(q, i))
  {
    hide Times, Xor;
    assert Coefficient(GENERATOR, 6) == 1;
    TimesOne(Coefficient(q, i));
  }

  lemma {:induction false} SameFactor(v: seq<bv32>, q: seq<bv32>, r: seq<bv32>, c: bv32, d: bv32, i: nat)
    requires IsRemainder(v, q, c) && IsRemainder(v, r, d)
    ensures forall k :: k >= i ==> Coefficient(q, k) == Coefficient(r, k)
    decreases |q| + |r| - i
  {
    hide Times, Xor, Product, Unpacked, ProductTo;
    if i < |q| + |r| {
      SameFactor(v, q, r, c, d, i + 1);
      SameProduct(q, r, i + 6, 6);
      TopOfProduct(q, i);
      TopOfProduct(r, i);
      XorZero(Product(q, i + 6));
      XorZero(Product(r, i + 6));
      assert InRegister(c, i + 6) == 0 == InRegister(d, i + 6);
      assert Product(q, i + 6) == Product(r, i + 6);
      XorSame(ProductTo(q, i + 6, 6), Coefficient(q, i), Coefficient(r, i));
    }
  }

  /** No other register is a remainder of the same values. */
  lemma OnlyRemainder(v: seq<bv32>, q: seq<bv32>, r: seq<bv32>, c: bv32, d: bv32)
    requires IsRemainder(v, q, c) && IsRemainder(v, r, d) && Small(c) && Small(d)
    ensures c == d
  {
    hide Times, Xor, Unpacked, Small, ProductTo;
    SameFactor(v, q, r, c, d, 0);
    forall i: nat ensures InRegister(c, i) == InRegister(d, i) {
      assert forall k :: Coefficient(q, k) == Coefficient(r, k);
      SameProduct(q, r, i, 7);
      XorSame(Product(q, i), InRegister(c, i), InRegister(d, i));
    }
    forall i: nat | i < 6 ensures Unpacked(c, i) == Unpacked(d, i) {
      assert InRegister(c, 5 - i) == InRegister(d, 5 - i);
    }
    PackOfUnpacked(c);
    PackOfUnpacked(d);
  }
}
