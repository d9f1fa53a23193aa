/** How far the skip pointers cut a walk short. */
module SkipSteps {
  import opened SkipHeights
  import opened Common

  /** The steps of a walk from height w down to height h. */
  function Steps(w: nat, h: nat): nat {
    if w <= h then 0 else
      SkipsDown(w);
      1 + Steps(Next(w, h), h)
  }

  /** Whether the skip pointer is followed on the way from w to h: not if the one of the parent
      leads further down without going too far. */
  predicate Follows(w: nat, h: nat)
    requires w > 0
  {
    var skip, skipPrev := GetSkipHeight(w), GetSkipHeight(w - 1);
    skip == h || (skip > h && !(skipPrev < skip - 2 && skipPrev >= h))
  }

  function Next(w: nat, h: nat): nat
    requires w > 0
  {
    if Follows(w, h) then GetSkipHeight(w) else w - 1
  }

  function Ones(n: nat): nat {
    if n == 0 then 0 else n % 2 + Ones(n / 2)
  }

  // ----- the lowest one bit ------------------------------------------------

  lemma {:induction false} ClearedOnes(n: nat)
    requires n > 0
    ensures InvertLowestOne(n) < n && Ones(InvertLowestOne(n)) == Ones(n) - 1
    ensures n % 2 == 0 ==> InvertLowestOne(n) % 2 == 0
  {
    hide InvertLowestOne, Ones;
    Halves(n / 2);
    if n % 2 == 0 {
      assert n == 2 * (n / 2);
      ClearedOnes(n / 2);
      Halves(InvertLowestOne(n / 2));
    } else {
      assert n == 2 * (n / 2) + 1;
    }
  }

  /** Bits above the lowest one stay. */
  lemma {:induction false} ClearsBelow(c: nat, j: nat, x: nat)
    requires 0 < x < Pow2(j)
    ensures InvertLowestOne(c * Pow2(j) + x) == c * Pow2(j) + InvertLowestOne(x)
  {
    var n := c * Pow2(j) + x;
    Doubled(c, j);
    ClearsLowestOne(n);
    ClearsLowestOne(x);
    if x % 2 == 0 {
      ClearsBelow(c, j - 1, x / 2);
      assert n / 2 == c * Pow2(j - 1) + x / 2;
    }
  }

  /** An odd multiple of a power of two loses just that. */
  lemma {:induction false} ClearsFactor(c: nat, j: nat)
    requires c % 2 == 1
    ensures InvertLowestOne(c * Pow2(j)) == (c - 1) * Pow2(j)
  {
    var n := c * Pow2(j);
    if j > 0 {
      Doubled(c, j);
      Doubled(c - 1, j);
      ClearsLowestOne(n);
      ClearsFactor(c, j - 1);
    } else {
      assert n == c && (c - 1) * Pow2(j) == c - 1;
      ClearsLowestOne(n);
    }
  }

  lemma Doubled(c: nat, j: nat)
    requires j > 0
    ensures c * Pow2(j) == 2 * (c * Pow2(j - 1)) && c * Pow2(j) / 2 == c * Pow2(j - 1)
  {
    var p := Pow2(j - 1);
    assert Pow2(j) == 2 * p;
    assert c * (2 * p) == 2 * (c * p);
  }

  /** Where passing by the parent may pay: two steps clear two bits, or one bit that is not the last. */
  lemma TwoBelow(x: nat)
    requires x % 2 == 0 && x > 2 && InvertLowestOne(x - 2) > 0
    requires InvertLowestOne(InvertLowestOne(x - 2)) + 3 < InvertLowestOne(x)
    ensures Ones(x - 2) <= 2 * Ones(x) - 2
  {
    hide InvertLowestOne, Ones;
    var y := x / 4;
    if x % 4 == 2 {
      Halves(2 * y + 1);
      Halves(y);
      Halves(2 * y);
      assert x - 2 == 2 * (2 * y);
      SomeOnes(x);
    } else {
      Halves(2 * y);
      Halves(y);
      Halves(2 * (y - 1) + 1);
      Halves(y - 1);
      Halves(2 * (y - 1));
      assert x - 2 == 2 * (2 * (y - 1) + 1);
      assert InvertLowestOne(2 * (2 * (y - 1))) == 4 * InvertLowestOne(y - 1);
      var z := y / 2;
      Halves(z);
      if y % 2 == 1 {
        SomeOnes(z);
      } else {
        assert y - 1 == 2 * (z - 1) + 1;
        Halves(z - 1);
        ClearedOnes(z);
        assert false;
      }
    }
  }

  lemma Halves(m: nat)
    ensures Ones(2 * m) == Ones(m) && Ones(2 * m + 1) == Ones(m) + 1
    ensures InvertLowestOne(2 * m) == 2 * InvertLowestOne(m) && InvertLowestOne(2 * m + 1) == 2 * m
  {
    if m > 0 { ClearsLowestOne(2 * m); }
    ClearsLowestOne(2 * m + 1);
    assert 2 * m / 2 == m && (2 * m + 1) / 2 == m;
  }

  lemma SomeOnes(n: nat)
    requires n > 0
    ensures Ones(n) > 0
  {
  }

  // ----- the number of steps -----------------------------------------------

  /** h and w differ in bit j, and agree in all bits above it. */
  ghost predicate Part(c: nat, j: nat, x: nat, h: nat) {
    c % 2 == 1 && x < Pow2(j) && Shifted(c - 1, j) <= h < Shifted(c, j)
  }

  function Square(n: nat): nat {
    n * n
  }

  function Bound(j: nat, w: nat, x: nat): nat {
    Square(j) + if w % 2 == 1 then Ones(x) + 1 else 2 * Ones(x)
  }

  lemma StepsAre(w: nat, h: nat)
    ensures w <= h ==> Steps(w, h) == 0
    ensures w > h && Follows(w, h) ==> GetSkipHeight(w) < w && Steps(w, h) == 1 + Steps(GetSkipHeight(w), h)
    ensures w > h && !Follows(w, h) ==> Steps(w, h) == 1 + Steps(w - 1, h)
    ensures w == h + 1 ==> Steps(w, h) == 1
  {
    if w > h { SkipsDown(w); }
  }

  /** c with j zeros after it. */
  function Shifted(c: nat, j: nat): nat {
    c * Pow2(j)
  }

  lemma ShiftedIs(c: nat, j: nat)
    requires c > 0 && j > 0
    ensures Shifted(c, j) % 2 == 0 && Shifted(c, j) == Shifted(c - 1, j) + Pow2(j) && Pow2(j) >= 2
  {
    Doubled(c, j);
    Bigger(c, j);
  }

  lemma ClearsShifted(c: nat, j: nat, x: nat)
    requires c % 2 == 1 && x < Pow2(j)
    ensures InvertLowestOne(Shifted(c, j) + x) == if x == 0 then Shifted(c - 1, j) else Shifted(c, j) + InvertLowestOne(x)
  {
    if x == 0 { ClearsFactor(c, j); } else { ClearsBelow(c, j, x); }
  }

  /** The skip pointers of even heights within the part above bit j. */
  lemma EvenSkips(c: nat, j: nat, x: nat)
    requires c % 2 == 1 && x < Pow2(j) && j > 0 && x % 2 == 0
    ensures GetSkipHeight(Shifted(c, j) + x) == if x == 0 then Shifted(c - 1, j) else Shifted(c, j) + InvertLowestOne(x)
  {
    hide InvertLowestOne, Shifted;
    ShiftedIs(c, j);
    ClearsShifted(c, j, x);
  }

  /** And those of odd ones. */
  lemma OddSkips(c: nat, j: nat, x: nat)
    requires c % 2 == 1 && x < Pow2(j) && j > 0 && x % 2 == 1
    ensures if x == 1 || InvertLowestOne(x - 1) == 0 then GetSkipHeight(Shifted(c, j) + x) <= Shifted(c - 1, j) + 1
            else GetSkipHeight(Shifted(c, j) + x) == Shifted(c, j) + InvertLowestOne(InvertLowestOne(x - 1)) + 1
  {
    hide InvertLowestOne, Shifted;
    ShiftedIs(c, j);
    ClearsShifted(c, j, x - 1);
    ClearsShifted(c, j, 0);
    Lower(Shifted(c - 1, j));
    if x > 1 {
      ClearedOnes(x - 1);
      ClearsShifted(c, j, InvertLowestOne(x - 1));
    }
  }

  lemma Lower(n: nat)
    ensures InvertLowestOne(n) <= n
  {
    if n > 0 { ClearedOnes(n); }
  }

  lemma Bigger(c: nat, j: nat)
    requires c > 0 && j > 0
    ensures c * Pow2(j) >= Pow2(j) >= 2
    ensures c * Pow2(j) == (c - 1) * Pow2(j) + Pow2(j)
  {
    assert c * Pow2(j) == (c - 1) * Pow2(j) + Pow2(j);
  }

  lemma {:induction false} OnesFit(j: nat, x: nat)
    requires x < Pow2(j)
    ensures Ones(x) <= j
  {
    if x > 0 { OnesFit(j - 1, x / 2); }
  }

  lemma OddOnes(x: nat)
    requires x % 2 == 0
    ensures Ones(x + 1) == Ones(x) + 1
  {
    Halves(x / 2);
  }

  lemma HalfOf(n: nat, p: nat)
    requires p > 0
    ensures n / (2 * p) == n / 2 / p
  {
    var q, r := n / 2 / p, n / 2 % p;
    assert n / 2 == q * p + r;
    assert n == q * (2 * p) + (2 * r + n % 2);
    Quotient(n, 2 * p, q, 2 * r + n % 2);
  }

  lemma Quotient(n: nat, p: nat, q: nat, r: nat)
    requires n == q * p + r && r < p
    ensures n / p == q
  {
    var d := n / p - q;
    assert n == (n / p) * p + n % p;
    assert d * p == r - n % p;
    if d > 0 { Scale(1, d, p); assert false; }
    if d < 0 { Scale(d, -1, p); assert false; }
  }

  /** The highest bit in which two heights differ. */
  lemma {:induction false} Differ(w: nat, h: nat) returns (c: nat, j: nat, x: nat)
    requires w > h
    ensures Part(c, j, x, h) && w == Shifted(c, j) + x
    ensures forall n: nat | w / Pow2(n) == h / Pow2(n) :: j < n
    decreases w
  {
    hide Shifted;
    if w / 2 == h / 2 {
      c, j, x := w, 0, 0;
      ShiftedByNone(w);
      ShiftedByNone(w - 1);
      assert Pow2(0) == 1;
      forall n: nat | w / Pow2(n) == h / Pow2(n) ensures 0 < n {
      }
    } else {
      var c', j', x' := Differ(w / 2, h / 2);
      c, j, x := c', j' + 1, 2 * x' + w % 2;
      ShiftedOnce(c, j);
      ShiftedOnce(c - 1, j);
      forall n: nat | w / Pow2(n) == h / Pow2(n) ensures j < n {
        if n > 0 {
          HalfOf(w, Pow2(n - 1));
          HalfOf(h, Pow2(n - 1));
        }
      }
    }
  }

  lemma ShiftedByNone(c: nat)
    ensures Shifted(c, 0) == c
  {
  }

  lemma ShiftedOnce(c: nat, j: nat)
    requires j > 0
    ensures Shifted(c, j) == 2 * Shifted(c, j - 1)
  {
    Doubled(c, j);
  }

  /** What a part takes is bounded by the square of the bit and the ones below it. */
  lemma {:induction false} StepsBounded(c: nat, j: nat, x: nat, h: nat)
    requires Part(c, j, x, h)
    ensures Steps(Shifted(c, j) + x, h) <= Bound(j, Shifted(c, j) + x, x)
    decreases Shifted(c, j) + x, 2
  {
    hide Square, Shifted, Steps, GetSkipHeight, InvertLowestOne;
    if j == 0 {
      ShiftedByNone(c);
      ShiftedByNone(c - 1);
      StepsAre(c, h);
    } else if x == 0 {
      NoneOfZero();
      ShiftedIs(c, j);
      FromTheTop(c, j, h);
    } else if x % 2 == 0 {
      ShiftedIs(c, j);
      FromEven(c, j, x, h);
    } else {
      ShiftedIs(c, j);
      FromOdd(c, j, x, h);
    }
  }

  lemma {:induction false} FromTheTop(c: nat, j: nat, h: nat)
    requires Part(c, j, 0, h) && j > 0
    ensures Steps(Shifted(c, j), h) <= Square(j)
    decreases Shifted(c, j), 1
  {
    hide Square, Shifted, Steps, GetSkipHeight, InvertLowestOne, Ones;
    var t := Shifted(c, j);
    ShiftedIs(c, j);
    EvenSkips(c, j, 0);
    StepsAre(t, h);
    StepsAre(Shifted(c - 1, j), h);
    StepsAre(t - 1, h);
    SomeSquare(j);
    if !Follows(t, h) && t - 1 > h { BelowTheTop(c, j, h); }
  }

  lemma {:induction false} BelowTheTop(c: nat, j: nat, h: nat)
    requires Part(c, j, 0, h) && j > 0 && Shifted(c - 1, j) < h < Shifted(c, j) - 1
    ensures Steps(Shifted(c, j) - 1, h) + 1 <= Square(j)
    decreases Shifted(c, j), 0
  {
    hide Square, Shifted, Steps, GetSkipHeight, InvertLowestOne, Ones, Pow2;
    var c', j', x' := DifferBelow(c, j, h);
    ShiftedIs(c, j);
    StepsBounded(c', j', x', h);
    OnesFit(j', x');
    SquareGrows(j', j);
  }

  lemma DifferBelow(c: nat, j: nat, h: nat) returns (c': nat, j': nat, x': nat)
    requires Part(c, j, 0, h) && j > 0 && Shifted(c - 1, j) < h < Shifted(c, j) - 1
    ensures Part(c', j', x', h) && x' < Pow2(j') && Shifted(c, j) - 1 == Shifted(c', j') + x' && j' < j && j >= 2
  {
    hide Shifted, Pow2;
    var w := Shifted(c, j) - 1;
    c', j', x' := Differ(w, h);
    ShiftedIs(c, j);
    SameAbove(c, j, w);
    SameAbove(c, j, h);
    TwoIsPow2();
  }

  lemma TwoIsPow2()
    ensures Pow2(1) == 2
  {
  }

  lemma SomeSquare(j: nat)
    requires j > 0
    ensures Square(j) > 0
  {
  }

  /** Heights just below a multiple of a power of two agree above it. */
  lemma SameAbove(c: nat, j: nat, h: nat)
    requires c > 0 && Shifted(c - 1, j) <= h < Shifted(c, j)
    ensures h / Pow2(j) == c - 1
  {
    assert c * Pow2(j) == (c - 1) * Pow2(j) + Pow2(j);
    Quotient(h, Pow2(j), c - 1, h - Shifted(c - 1, j));
  }

  lemma SquareGrows(i: nat, j: nat)
    requires i < j && j >= 2
    ensures Square(i) + i + 2 <= Square(j)
  {
    var k := j - 1;
    Scale(i, k, i);
    Scale(i, k, k);
    assert j * j == k * k + 2 * k + 1;
  }

  lemma {:induction false} FromOdd(c: nat, j: nat, x: nat, h: nat)
    requires Part(c, j, x, h) && j > 0 && x % 2 == 1
    ensures Steps(Shifted(c, j) + x, h) <= Square(j) + Ones(x) + 1
    decreases Shifted(c, j) + x, 0
  {
    hide Square, Shifted, Steps, GetSkipHeight, InvertLowestOne, Ones;
    var w := Shifted(c, j) + x;
    ShiftedIs(c, j);
    OddSkips(c, j, x);
    EvenSkips(c, j, x - 1);
    StepsAre(w, h);
    OddOnes(x - 1);
    if x > 1 { ClearedOnes(x - 1); }
    if x == 1 || InvertLowestOne(x - 1) == 0 {
      if Follows(w, h) {
        StepsAre(GetSkipHeight(w), h);
      } else {
        NoneOfZero();
        StepsBounded(c, j, x - 1, h);
      }
    } else {
      var y := InvertLowestOne(InvertLowestOne(x - 1));
      ClearedOnes(InvertLowestOne(x - 1));
      OddOnes(y);
      StepsBounded(c, j, y + 1, h);
    }
  }

  lemma NoneOfZero()
    ensures Ones(0) == 0
  {
  }

  lemma {:induction false} FromEven(c: nat, j: nat, x: nat, h: nat)
    requires Part(c, j, x, h) && j > 0 && x % 2 == 0 && x > 0
    ensures Steps(Shifted(c, j) + x, h) <= Square(j) + 2 * Ones(x)
    decreases Shifted(c, j) + x, 1
  {
    hide Square, Shifted, Steps, GetSkipHeight, InvertLowestOne, Ones;
    var w := Shifted(c, j) + x;
    ShiftedIs(c, j);
    EvenSkips(c, j, x);
    StepsAre(w, h);
    ClearedOnes(x);
    if Follows(w, h) {
      StepsBounded(c, j, InvertLowestOne(x), h);
    } else {
      SomeOnes(x);
      PastParent(c, j, x, h);
    }
  }

  /** A skip pointer that leads to h or the height above it. */
  lemma NearTheEnd(w: nat, h: nat)
    requires w > h && h <= GetSkipHeight(w) <= h + 1 && GetSkipHeight(w - 1) >= GetSkipHeight(w) - 1
    ensures Steps(w, h) <= 2
  {
    hide Steps, GetSkipHeight;
    StepsAre(w, h);
    StepsAre(GetSkipHeight(w), h);
  }

  /** The way by the parent, whose skip pointer leads further down. */
  lemma {:induction false} PastParent(c: nat, j: nat, x: nat, h: nat)
    requires Part(c, j, x, h) && j > 0 && x % 2 == 0 && x > 0
    requires h <= GetSkipHeight(Shifted(c, j) + x - 1) < Shifted(c, j) + InvertLowestOne(x) - 2
    ensures Steps(Shifted(c, j) + x - 1, h) + 1 <= Square(j) + 2 * Ones(x)
    decreases Shifted(c, j) + x, 0
  {
    hide Square, Shifted, Steps, GetSkipHeight, InvertLowestOne, Ones;
    var w := Shifted(c, j) + x - 1;
    ShiftedIs(c, j);
    OddSkips(c, j, x - 1);
    EvenSkips(c, j, x - 2);
    SomeOnes(x);
    if x - 1 == 1 || InvertLowestOne(x - 2) == 0 {
      NearTheEnd(w, h);
      SomeSquare(j);
    } else {
      StepsAre(w, h);
      LeapPays(x);
      StepsBounded(c, j, InvertLowestOne(InvertLowestOne(x - 2)) + 1, h);
    }
  }

  lemma LeapPays(x: nat)
    requires x % 2 == 0 && x > 2 && InvertLowestOne(x - 2) > 0
    requires InvertLowestOne(InvertLowestOne(x - 2)) + 3 < InvertLowestOne(x)
    ensures InvertLowestOne(InvertLowestOne(x - 2)) % 2 == 0 && InvertLowestOne(InvertLowestOne(x - 2)) < InvertLowestOne(x - 2) < x - 2
    ensures Ones(InvertLowestOne(InvertLowestOne(x - 2)) + 1) <= 2 * Ones(x) - 3
  {
    hide InvertLowestOne, Ones;
    ClearedOnes(x - 2);
    ClearedOnes(InvertLowestOne(x - 2));
    OddOnes(InvertLowestOne(InvertLowestOne(x - 2)));
    TwoBelow(x);
  }

  /** However high the block, if the heights agree but for the last n bits, there are at most
      n * n steps. */
  lemma StepsAreFew(w: nat, h: nat, n: nat)
    requires w / Pow2(n) == h / Pow2(n)
    ensures Steps(w, h) <= Square(n)
  {
    hide Square, Shifted, Steps, Ones;
    StepsAre(w, h);
    if w > h {
      var c, j, x := Differ(w, h);
      StepsBounded(c, j, x, h);
      OnesFit(j, x);
      NextSquare(j, n);
    }
  }

  lemma StepsAreFewAnyway(w: nat, h: nat)
    ensures forall n: nat | w / Pow2(n) == h / Pow2(n) :: Steps(w, h) <= n * n
  {
    hide Steps, Pow2;
    forall n: nat | w / Pow2(n) == h / Pow2(n) ensures Steps(w, h) <= n * n {
      StepsAreFew(w, h, n);
    }
  }

  lemma NextSquare(j: nat, n: nat)
    requires j < n
    ensures Square(j) + 2 * j + 1 <= Square(n)
  {
    var k := j + 1;
    Scale(k, n, k);
    Scale(k, n, n);
    assert k * k == j * j + 2 * j + 1;
  }
}
