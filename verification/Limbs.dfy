/** Numbers as little-endian sequences of 32-bit limbs. */
module Limbs {
  import opened Common

  const B: nat := 0x1_0000_0000

  /** The weight of limb n. */
  function Weight(n: nat): (r: nat)
    ensures r >= 1
  {
    if n == 0 then 1 else B * Weight(n - 1)
  }

  lemma Pow2Limb()
    ensures Pow2(32) == B
  {
    assert Pow2(8) == 0x100;
    Pow2Add(8, 8);
    Pow2Add(16, 16);
  }

  lemma {:induction false} WeightIsPow2(n: nat)
    ensures Weight(n) == Pow2(32 * n)
  {
    if n > 0 {
      WeightIsPow2(n - 1);
      Pow2Limb();
      Pow2Add(32, 32 * (n - 1));
    }
  }

  lemma {:induction false} WeightAdd(a: nat, b: nat)
    ensures Weight(a + b) == Weight(a) * Weight(b)
  {
    WeightIsPow2(a);
    WeightIsPow2(b);
    WeightIsPow2(a + b);
    Pow2Add(32 * a, 32 * b);
  }

  // ----- values ------------------------------------------------------------

  ghost predicate AreLimbs(s: seq<int>) {
    forall i :: 0 <= i < |s| ==> 0 <= s[i] < B
  }

  /** The number in the first n limbs. */
  ghost function ValTo(s: seq<int>, n: nat): int
    requires n <= |s|
  {
    if n == 0 then 0 else ValTo(s, n - 1) + s[n - 1] * Weight(n - 1)
  }

  ghost function Val(s: seq<int>): int {
    ValTo(s, |s|)
  }

  /** The number in the limbs from n on. */
  ghost function ValFrom(s: seq<int>, n: nat): int
    requires n <= |s|
    decreases |s| - n
  {
    if n == |s| then 0 else s[n] + B * ValFrom(s, n + 1)
  }

  lemma {:induction false} SameVal(s: seq<int>, t: seq<int>, n: nat)
    requires n <= |s| && n <= |t| && forall i :: 0 <= i < n ==> s[i] == t[i]
    ensures ValTo(s, n) == ValTo(t, n)
  {
    if n > 0 { SameVal(s, t, n - 1); }
  }

  lemma {:induction false} ValBound(s: seq<int>, n: nat)
    requires n <= |s| && forall i :: 0 <= i < n ==> 0 <= s[i] < B
    ensures 0 <= ValTo(s, n) < Weight(n)
  {
    if n > 0 {
      ValBound(s, n - 1);
      Scale(s[n - 1], B - 1, Weight(n - 1));
      Scale(0, s[n - 1], Weight(n - 1));
    }
  }

  lemma {:induction false} Split(s: seq<int>, n: nat)
    requires n <= |s|
    ensures Val(s) == ValTo(s, n) + Weight(n) * ValFrom(s, n)
    decreases |s| - n
  {
    if n < |s| {
      Split(s, n + 1);
      var w, f := Weight(n), ValFrom(s, n + 1);
      assert Weight(n + 1) == B * w;
      assert (B * w) * f == w * (B * f);
      assert w * (s[n] + B * f) == s[n] * w + w * (B * f);
    }
  }

  lemma {:induction false} FromBound(s: seq<int>, n: nat)
    requires n <= |s| && AreLimbs(s)
    ensures 0 <= ValFrom(s, n)
    decreases |s| - n
  {
    if n < |s| { FromBound(s, n + 1); }
  }

  lemma {:induction false} ZeroVal(s: seq<int>, n: nat)
    requires n <= |s| && forall i :: 0 <= i < n ==> s[i] == 0
    ensures ValTo(s, n) == 0
  {
    if n > 0 { ZeroVal(s, n - 1); }
  }

  /** A set limb makes a number that is at least its weight. */
  lemma {:induction false} LimbCounts(s: seq<int>, i: nat)
    requires i < |s| && AreLimbs(s)
    ensures Val(s) >= s[i] * Weight(i)
  {
    Split(s, i + 1);
    ValBound(s, i);
    FromBound(s, i + 1);
    Scale(0, ValFrom(s, i + 1), Weight(i + 1));
  }

  lemma {:induction false} TopZero(s: seq<int>, n: nat)
    requires n <= |s| && forall i :: n <= i < |s| ==> s[i] == 0
    ensures ValFrom(s, n) == 0
    decreases |s| - n
  {
    if n < |s| { TopZero(s, n + 1); }
  }

  /** The first limb from the top that differs decides. */
  lemma {:induction false} TopDecides(s: seq<int>, t: seq<int>, i: nat)
    requires i < |s| == |t| && AreLimbs(s) && AreLimbs(t)
    requires s[i] < t[i] && forall k :: i < k < |s| ==> s[k] == t[k]
    ensures Val(s) < Val(t)
  {
    Split(s, i + 1);
    Split(t, i + 1);
    SameFrom(s, t, i + 1);
    ValBound(s, i);
    ValBound(t, i);
    Scale(s[i] + 1, t[i], Weight(i));
  }

  lemma {:induction false} SameFrom(s: seq<int>, t: seq<int>, n: nat)
    requires n <= |s| == |t| && forall k :: n <= k < |s| ==> s[k] == t[k]
    ensures ValFrom(s, n) == ValFrom(t, n)
    decreases |s| - n
  {
    if n < |s| { SameFrom(s, t, n + 1); }
  }

  /** Storing limb i, above those already right, of a number that is written up to i. */
  lemma Stored(s: seq<int>, i: nat, v: int)
    requires i < |s|
    ensures ValTo(s[i := v], i + 1) == ValTo(s, i) + v * Weight(i)
    ensures ValTo(s[i := v], i) == ValTo(s, i)
  {
    SameVal(s[i := v], s, i);
  }

  /** Storing the low limb of n and carrying the rest. */
  lemma StoredWithCarry(s: seq<int>, i: nat, n: int)
    requires i < |s|
    ensures ValTo(s[i := n % B], i + 1) + (n / B) * Weight(i + 1) == ValTo(s, i) + n * Weight(i)
    ensures ValTo(s[i := n % B], i) == ValTo(s, i)
  {
    Stored(s, i, n % B);
    var w, q, r := Weight(i), n / B, n % B;
    assert n == q * B + r;
    assert Weight(i + 1) == B * w;
    assert q * (B * w) == (q * B) * w;
    assert (q * B + r) * w == (q * B) * w + r * w;
  }

  lemma NextLimb(s: seq<int>, i: nat)
    requires i < |s|
    ensures ValTo(s, i + 1) == ValTo(s, i) + s[i] * Weight(i)
  {
  }

  lemma NoLimbs(s: seq<int>)
    ensures ValTo(s, 0) == 0 && Weight(0) == 1
  {
  }

  // ----- remainders --------------------------------------------------------

  /** a is the remainder of x if it differs from x by a multiple and is in range. */
  lemma RemainderIs(x: int, m: int, q: int, a: int)
    requires 0 <= a < m && x == a + q * m
    ensures x % m == a && x / m == q
  {
    var q2, a2 := x / m, x % m;
    assert x == q2 * m + a2;
    if q < q2 {
      Scale(q + 1, q2, m);
      assert false;
    }
    if q2 < q {
      Scale(q2 + 1, q, m);
      assert false;
    }
  }

  // ----- bits --------------------------------------------------------------

  /** A limb shifted left and cut to 32 bits. */
  function ShiftUp(x: nat, s: nat): (r: nat)
    ensures r < B
  {
    x * Pow2(s) % B
  }

  /** A limb shifted right. */
  function ShiftDown(x: nat, s: nat): (r: nat)
    ensures r <= x
  {
    DivSmaller(x, Pow2(s));
    x / Pow2(s)
  }

  /** Bitwise or. */
  function Or(x: nat, y: nat): nat {
    if x == 0 && y == 0 then 0
    else 2 * Or(x / 2, y / 2) + (if x % 2 == 1 || y % 2 == 1 then 1 else 0)
  }

  /** Or adds where no bit is set on both sides. */
  lemma {:induction false} OrDisjoint(x: nat, y: nat, s: nat)
    requires x < Pow2(s) && y % Pow2(s) == 0
    ensures Or(x, y) == x + y
  {
    if s == 0 {
      assert x == 0;
      OrZero(y);
    } else if x != 0 || y != 0 {
      var p := Pow2(s - 1);
      var q := y / (2 * p);
      assert y == (2 * p) * q;
      assert y == 2 * (p * q);
      RemainderIs(p * q, p, q, 0) by { assert p * q == q * p; }
      OrDisjoint(x / 2, y / 2, s - 1);
    }
  }

  lemma {:induction false} OrZero(y: nat)
    ensures Or(0, y) == y
  {
    if y != 0 { OrZero(y / 2); }
  }

  lemma {:induction false} OrNothing(x: nat)
    ensures Or(x, 0) == x
  {
    if x != 0 { OrNothing(x / 2); }
  }

  /** Or works on the bits below and above s apart. */
  lemma {:induction false} OrSplits(x: nat, y: nat, x2: nat, y2: nat, s: nat)
    requires x < Pow2(s) && y < Pow2(s)
    ensures Or(x + Pow2(s) * x2, y + Pow2(s) * y2) == Or(x, y) + Pow2(s) * Or(x2, y2)
  {
    hide Or, Pow2;
    if s == 0 {
      ShiftByNone();
      OrNothing(0);
    } else {
      var p := Pow2(s - 1);
      Pow2Next(s - 1);
      OrSplits(x / 2, y / 2, x2, y2, s - 1);
      Halves(x, p, x2);
      Halves(y, p, y2);
      OrStep(x, y);
      OrStep(x + 2 * p * x2, y + 2 * p * y2);
      Regroup(p, Or(x2, y2));
    }
  }

  lemma Regroup(p: int, h: int)
    ensures 2 * (p * h) == 2 * p * h
  {
  }

  lemma Halves(x: nat, p: nat, h: nat)
    ensures x + 2 * p * h >= 0 && x / 2 + p * h >= 0
    ensures (x + 2 * p * h) / 2 == x / 2 + p * h && (x + 2 * p * h) % 2 == x % 2
  {
    assert 2 * p * h == 2 * (p * h);
  }

  lemma OrStep(x: nat, y: nat)
    ensures Or(x, y) == 2 * Or(x / 2, y / 2) + (if x % 2 == 1 || y % 2 == 1 then 1 else 0)
  {
  }

  /** The position of the highest set bit plus one. */
  function BitLength(n: int): nat {
    if n <= 0 then 0 else 1 + BitLength(n / 2)
  }

  lemma {:induction false} BitLengthBounds(n: nat)
    requires n > 0
    ensures BitLength(n) >= 1 && Pow2(BitLength(n) - 1) <= n < Pow2(BitLength(n))
  {
    if n > 1 { BitLengthBounds(n / 2); } else { assert n / 2 == 0; }
  }

  lemma BitLengthIs(n: nat, k: nat)
    requires Pow2(k) <= n < Pow2(k + 1)
    ensures BitLength(n) == k + 1
  {
    BitLengthBounds(n);
    var l := BitLength(n);
    if l < k + 1 { Pow2Order(l, k); }
    if l > k + 1 { Pow2Order(k + 1, l - 1); }
  }

  /** Adding twice modulo m is adding once. */
  lemma AddRemainders(a: int, b: int, m: int)
    requires m > 0
    ensures (a + b % m) % m == (a + b) % m
  {
    var q, r := b / m, b % m;
    var q2, r2 := (a + r) / m, (a + r) % m;
    assert b == q * m + r && a + r == q2 * m + r2;
    assert (q + q2) * m == q * m + q2 * m;
    RemainderIs(a + b, m, q + q2, r2);
  }

  /** A number whose top limb, at pos, has bit k as its highest. */
  lemma TopLimb(s: seq<int>, pos: nat, k: nat)
    requires AreLimbs(s) && pos < |s| && Pow2(k) <= s[pos] < Pow2(k + 1)
    requires forall i :: pos < i < |s| ==> s[i] == 0
    ensures BitLength(Val(s)) == 32 * pos + k + 1
  {
    hide Pow2, Weight, ValTo, BitLength;
    Split(s, pos + 1);
    TopZero(s, pos + 1);
    NextLimb(s, pos);
    ValBound(s, pos);
    WeightIsPow2(pos);
    Pow2Add(k, 32 * pos);
    Pow2Add(k + 1, 32 * pos);
    var w := Weight(pos);
    Scale(Pow2(k), s[pos], w);
    Scale(s[pos] + 1, Pow2(k + 1), w);
    assert (s[pos] + 1) * w == s[pos] * w + w;
    BitLengthIs(Val(s), 32 * pos + k);
  }

  /** A limb cut in two: what p * h == B leaves below and above h when multiplied by p. */
  lemma HighLow(x: int, p: int, h: int)
    requires p > 0 && h > 0 && p * h == B && 0 <= x < B
    ensures var q, r := x / h, x % h;
            && x * p == r * p + q * B
            && 0 <= r * p <= B - p && 0 <= q < p
            && x * p % B == r * p && x * p / B == q
            && r * p % p == 0
  {
    var q, r := x / h, x % h;
    assert x == q * h + r;
    assert (q * h + r) * p == q * (p * h) + r * p;
    Scale(0, r, p);
    Scale(r, h - 1, p);
    assert (h - 1) * p == p * h - p;
    RemainderIs(x * p, B, q, r * p);
    RemainderIs(r * p, p, r, 0);
    if q < 0 { Scale(q, -1, h); }
    if q >= p { Scale(p, q, h); }
  }

  lemma LimbPowers(s: nat)
    requires s <= 32
    ensures Pow2(s) * Pow2(32 - s) == B
  {
    Pow2Add(s, 32 - s);
    Pow2Limb();
  }

  /** Shifting one limb left by s bits over what the one below sent up. */
  lemma ShiftLimb(x: int, over: int, s: nat)
    requires 0 <= x < B && 0 <= over < Pow2(s) && s < 32
    ensures var n := over + x * Pow2(s);
            && Or(over, ShiftUp(x, s)) == n % B
            && ShiftDown(x, 32 - s) == n / B == x * Pow2(s) / B
            && 0 <= n / B < Pow2(s)
            && (s == 0 ==> n / B == 0)
  {
    hide Pow2, Or;
    LimbPowers(s);
    HighLow(x, Pow2(s), Pow2(32 - s));
    OrDisjoint(over, ShiftUp(x, s), s);
    RemainderIs(over + x * Pow2(s), B, ShiftDown(x, 32 - s), over + ShiftUp(x, s));
    if s == 0 { ShiftByNone(); }
  }

  /** Shifting one limb right: its low bits go under what is there. */
  lemma ShiftLimbDown(x: int, above: int, s: nat)
    requires 0 <= x < B && s < 32 && 0 <= above < Pow2(32 - s)
    ensures var p, h := Pow2(s), Pow2(32 - s);
            && Or(above, ShiftUp(x, 32 - s)) == above + (x % p) * h < B
            && ShiftDown(x, s) == x / p < h
            && x == x / p * p + x % p
            && (s == 0 ==> x % p == 0)
  {
    hide Pow2, Or;
    LimbPowers(s);
    HighLow(x, Pow2(32 - s), Pow2(s));
    OrDisjoint(above, ShiftUp(x, 32 - s), 32 - s);
    if s == 0 { ShiftByNone(); }
  }

  lemma ShiftByNone()
    ensures Pow2(0) == 1
  {
  }

  lemma SetLimb(s: seq<int>, i: nat, v: int)
    requires i < |s|
    ensures Val(s[i := v]) == Val(s) + (v - s[i]) * Weight(i)
  {
    var t := s[i := v];
    Split(s, i + 1);
    Split(t, i + 1);
    SameFrom(s, t, i + 1);
    Stored(s, i, v);
  }

  /** No bit up to position n is set. */
  ghost predicate ClearUpTo(s: seq<int>, n: nat)
    requires n / 32 < |s|
  {
    && (forall t :: 0 <= t < n / 32 ==> s[t] == 0)
    && s[n / 32] % Pow2(n % 32 + 1) == 0
  }

  lemma Multiples(x: int, p: int, q: int)
    requires p > 0 && x == 2 * p * q
    ensures x % p == 0 && (x + p) % p == 0
  {
    assert x == (2 * q) * p;
    assert x + p == (2 * q + 1) * p;
    RemainderIs(x, p, 2 * q, 0);
    RemainderIs(x + p, p, 2 * q + 1, 0);
  }

  lemma BelowMultiple(x: int, p: int, h: int, q: int)
    requires p > 0 && 0 <= x < p * h && x == p * q
    ensures x + p <= p * h
  {
    if q >= h { Scale(h, q, p); }
    Scale(q + 1, h, p);
    assert (q + 1) * p == q * p + p;
  }

  lemma OrBit(x: int, r: nat)
    requires 0 <= x < B && r < 32 && x % Pow2(r + 1) == 0
    ensures Or(Pow2(r), x) == x + Pow2(r) < B
    ensures x % Pow2(r) == 0 && (x + Pow2(r)) % Pow2(r) == 0
  {
    hide Pow2, Or;
    var p, q := Pow2(r), x / Pow2(r + 1);
    Pow2Next(r);
    assert x == (2 * p) * q;
    Multiples(x, p, q);
    Pow2Add(r + 1, 31 - r);
    Pow2Limb();
    BelowMultiple(x, 2 * p, Pow2(31 - r), q);
    OrDisjoint(p, x, r + 1);
  }

  /** Setting bit n, with none set up to there, adds its weight. */
  lemma SetBit(s: seq<int>, n: nat)
    requires AreLimbs(s) && n / 32 < |s| && ClearUpTo(s, n)
    ensures var v := Or(Pow2(n % 32), s[n / 32]);
            && v < B && Val(s[n / 32 := v]) == Val(s) + Pow2(n)
            && (n > 0 ==> ClearUpTo(s[n / 32 := v], n - 1))
    ensures n > 0 ==> ClearUpTo(s, n - 1)
  {
    hide Weight, ValTo, Val, Or, Pow2;
    var i, r := n / 32, n % 32;
    var p := Pow2(r);
    OrBit(s[i], r);
    SetLimb(s, i, p + s[i]);
    WeightIsPow2(i);
    Pow2Add(r, 32 * i);
    if r == 0 && n > 0 {
      assert (n - 1) / 32 == i - 1 && (n - 1) % 32 == 31;
      ZeroModPow();
    } else if n > 0 {
      assert (n - 1) / 32 == i && (n - 1) % 32 + 1 == r;
    }
  }

  lemma ZeroModPow()
    ensures 0 % Pow2(32) == 0
  {
  }
}
