/** The limbs during a shift by k limbs and s bits. */
module Shifts {
  import opened Common
  import opened Limbs

  // ----- to the left -------------------------------------------------------

  /** What the limb below n sends up. */
  ghost function Over(x: seq<int>, n: nat, p: nat): int
    requires n <= |x|
  {
    if n == 0 then 0 else x[n - 1] * p / B
  }

  /** The limbs of x below i have been shifted into r. */
  ghost predicate ShiftingLeft(x: seq<int>, r: seq<int>, k: nat, i: nat, p: nat)
    requires i <= |x| == |r|
  {
    && AreLimbs(x) && AreLimbs(r)
    && (forall t :: 0 <= t < |r| && (t < k || t > i + k) ==> r[t] == 0)
    && 0 <= Over(x, i, p) < p
    && (i + k < |r| ==> r[i + k] == Over(x, i, p))
    && (i + k <= |r| ==> ValTo(r, i + k) + Over(x, i, p) * Weight(i + k) == p * Weight(k) * ValTo(x, i))
    && (i + k > |r| && k < |r| ==> ValTo(r, |r|) + Over(x, |r| - k, p) * Weight(|r|) == p * Weight(k) * ValTo(x, |r| - k))
  }

  lemma LeftStarts(x: seq<int>, r: seq<int>, k: nat, p: nat)
    requires p > 0 && AreLimbs(x) && |x| == |r| && forall t :: 0 <= t < |r| ==> r[t] == 0
    ensures ShiftingLeft(x, r, k, 0, p)
  {
    if k <= |r| { ZeroVal(r, k); }
  }

  function LeftHigh(x: seq<int>, r: seq<int>, k: nat, s: nat, i: nat): seq<int>
    requires i < |x| == |r| && AreLimbs(x) && AreLimbs(r) && s < 32
  {
    if i + k + 1 < |r| && s != 0 then r[i + k + 1 := Or(r[i + k + 1], ShiftDown(x[i], 32 - s))] else r
  }

  function LeftBoth(x: seq<int>, r: seq<int>, k: nat, s: nat, i: nat): seq<int>
    requires i < |x| == |r| && AreLimbs(x) && AreLimbs(r) && s < 32
  {
    var mid := LeftHigh(x, r, k, s, i);
    if i + k < |r| then mid[i + k := Or(mid[i + k], ShiftUp(x[i], s))] else mid
  }

  lemma LeftKeeps(x: seq<int>, r: seq<int>, k: nat, s: nat, i: nat)
    requires i < |x| == |r| && s < 32 && ShiftingLeft(x, r, k, i, Pow2(s))
    ensures ShiftingLeft(x, LeftBoth(x, r, k, s, i), k, i + 1, Pow2(s)) && AreLimbs(LeftBoth(x, r, k, s, i))
  {
    hide ValTo, Weight, Pow2, Or;
    var p, over := Pow2(s), Over(x, i, Pow2(s));
    var mid, now := LeftHigh(x, r, k, s, i), LeftBoth(x, r, k, s, i);
    ShiftLimb(x[i], over, s);
    OrZero(ShiftDown(x[i], 32 - s));
    if i + k < |r| {
      SameVal(r, mid, i + k);
      assert now == mid[i + k := (over + x[i] * p) % B];
      StoredWithCarry(mid, i + k, over + x[i] * p);
      LeftStep(x, i, k, p, over);
    }
  }

  lemma LeftStep(x: seq<int>, i: nat, k: nat, p: nat, over: int)
    requires i < |x|
    ensures p * Weight(k) * ValTo(x, i + 1) == p * Weight(k) * ValTo(x, i) + (x[i] * p) * Weight(i + k)
    ensures (over + x[i] * p) * Weight(i + k) == over * Weight(i + k) + (x[i] * p) * Weight(i + k)
  {
    hide Weight;
    NextLimb(x, i);
    WeightAdd(i, k);
    var v, wi, wk := ValTo(x, i), Weight(i), Weight(k);
    assert p * wk * (v + x[i] * wi) == p * wk * v + (p * wk) * (x[i] * wi);
    assert (p * wk) * (x[i] * wi) == (x[i] * p) * (wi * wk);
  }

  lemma LeftEnds(x: seq<int>, r: seq<int>, k: nat, s: nat)
    requires |x| == |r| && s < 32 && ShiftingLeft(x, r, k, |r|, Pow2(s))
    ensures Val(r) == (Val(x) * Pow2(32 * k + s)) % Weight(|r|)
  {
    hide Weight, ValTo, Pow2, ShiftingLeft;
    Pow2Add(32 * k, s);
    WeightIsPow2(k);
    if k < |r| { LeftShifted(x, r, k, s); } else { LeftNothing(x, r, k, s); }
  }

  lemma LeftShifted(x: seq<int>, r: seq<int>, k: nat, s: nat)
    requires |x| == |r| && s < 32 && k < |r| && ShiftingLeft(x, r, k, |r|, Pow2(s))
    ensures Val(r) == (Val(x) * (Weight(k) * Pow2(s))) % Weight(|r|)
  {
    hide Weight, ValTo, Pow2;
    var n, p := |r|, Pow2(s);
    ValBound(r, n);
    var lo, hi, over := ValTo(x, n - k), ValFrom(x, n - k), Over(x, n - k, p);
    if k == 0 { assert n - k == n; }
    Split(x, n - k);
    WeightAdd(n - k, k);
    LeftWhole(lo, hi, Weight(n - k), Weight(k), p, over, Val(r));
    RemainderIs(Val(x) * (Weight(k) * p), Weight(n), over + p * hi, Val(r));
  }

  lemma LeftNothing(x: seq<int>, r: seq<int>, k: nat, s: nat)
    requires |x| == |r| && s < 32 && k >= |r| && ShiftingLeft(x, r, k, |r|, Pow2(s))
    ensures Val(r) == (Val(x) * (Weight(k) * Pow2(s))) % Weight(|r|)
  {
    hide Weight, ValTo, Pow2;
    var n, p := |r|, Pow2(s);
    var m := Weight(n);
    ValBound(r, n);
    ZeroVal(r, n);
    WeightAdd(n, k - n);
    var w := Weight(k - n);
    MovedFactor(Val(x), m, w, p);
    RemainderIs(Val(x) * (Weight(k) * p), m, Val(x) * w * p, 0);
  }

  lemma MovedFactor(v: int, m: int, w: int, p: int)
    ensures v * ((m * w) * p) == (v * w * p) * m
  {
  }

  lemma LeftWhole(lo: int, hi: int, wn: int, wk: int, p: int, over: int, v: int)
    requires v + over * (wn * wk) == p * wk * lo
    ensures (lo + wn * hi) * (wk * p) == v + (over + p * hi) * (wn * wk)
  {
    assert (lo + wn * hi) * (wk * p) == lo * (wk * p) + (wn * hi) * (wk * p);
    assert lo * (wk * p) == p * wk * lo;
    assert (wn * hi) * (wk * p) == (p * hi) * (wn * wk);
    assert (over + p * hi) * (wn * wk) == over * (wn * wk) + (p * hi) * (wn * wk);
  }

  // ----- to the right ------------------------------------------------------

  /** The number in the limbs of x from k up to i. */
  ghost function Slice(x: seq<int>, k: nat, i: nat): int
    requires k <= i <= |x|
  {
    if i == k then 0 else Slice(x, k, i - 1) + x[i - 1] * Weight(i - 1 - k)
  }

  /** The limbs of x below i have been shifted into r. */
  ghost predicate ShiftingRight(x: seq<int>, r: seq<int>, k: nat, i: nat, p: nat)
    requires i <= |x| == |r| && p > 0
  {
    && AreLimbs(x) && AreLimbs(r)
    && (forall t :: 0 <= t < |r| && t + k >= i ==> r[t] == 0)
    && (i > k ==> r[i - 1 - k] == x[i - 1] / p)
    && (i > k ==> ValTo(r, i - k) * p + x[k] % p == Slice(x, k, i))
  }

  lemma RightStarts(x: seq<int>, r: seq<int>, k: nat, p: nat)
    requires p > 0 && AreLimbs(x) && |x| == |r| && forall t :: 0 <= t < |r| ==> r[t] == 0
    ensures ShiftingRight(x, r, k, 0, p)
  {
  }

  function RightLow(x: seq<int>, r: seq<int>, k: nat, s: nat, i: nat): seq<int>
    requires i < |x| == |r| && AreLimbs(x) && AreLimbs(r) && s < 32
  {
    if i - k - 1 >= 0 && s != 0 then r[i - k - 1 := Or(r[i - k - 1], ShiftUp(x[i], 32 - s))] else r
  }

  function RightBoth(x: seq<int>, r: seq<int>, k: nat, s: nat, i: nat): seq<int>
    requires i < |x| == |r| && AreLimbs(x) && AreLimbs(r) && s < 32
  {
    var mid := RightLow(x, r, k, s, i);
    if i - k >= 0 then mid[i - k := Or(mid[i - k], ShiftDown(x[i], s))] else mid
  }

  lemma RightKeeps(x: seq<int>, r: seq<int>, k: nat, s: nat, i: nat)
    requires i < |x| == |r| && s < 32 && ShiftingRight(x, r, k, i, Pow2(s))
    ensures ShiftingRight(x, RightBoth(x, r, k, s, i), k, i + 1, Pow2(s)) && AreLimbs(RightBoth(x, r, k, s, i))
  {
    hide ValTo, Weight, Pow2, Or, ShiftUp, ShiftDown, Slice;
    if i >= k {
      LimbPowers(s);
      OrZero(ShiftDown(x[i], s));
      if i > k { HighLow(x[i - 1], Pow2(32 - s), Pow2(s)); }
      ShiftLimbDown(x[i], if i > k then x[i - 1] / Pow2(s) else 0, s);
      RightStep(x, r, k, s, i);
    }
  }

  lemma RightStep(x: seq<int>, r: seq<int>, k: nat, s: nat, i: nat)
    requires k <= i < |x| == |r| && s < 32 && ShiftingRight(x, r, k, i, Pow2(s))
    requires i > k ==> Or(r[i - k - 1], ShiftUp(x[i], 32 - s)) == r[i - k - 1] + (x[i] % Pow2(s)) * Pow2(32 - s)
    requires s == 0 ==> x[i] % Pow2(s) == 0
    requires Or(r[i - k], ShiftDown(x[i], s)) == x[i] / Pow2(s)
    ensures ValTo(RightBoth(x, r, k, s, i), i + 1 - k) * Pow2(s) + x[k] % Pow2(s) == Slice(x, k, i + 1)
  {
    hide Weight, ValTo, Slice, Pow2, Or, ShiftUp, ShiftDown;
    var p, h := Pow2(s), Pow2(32 - s);
    var low, now := RightLow(x, r, k, s, i), RightBoth(x, r, k, s, i);
    SameVal(low, now, i - k);
    assert now[i - k] == x[i] / p;
    NextLimb(now, i - k);
    NextSlice(x, k, i);
    NoLimbs(x);
    NoLimbs(now);
    if i > k {
      var n := i - k - 1;
      SameVal(low, r, n);
      NextLimb(low, n);
      NextLimb(r, n);
      LimbPowers(s);
      assert low[n] == r[n] + (x[i] % p) * h;
      RightArithmetic(ValTo(r, n), r[n], x[i], h, p, n);
    }
  }

  lemma NextSlice(x: seq<int>, k: nat, i: nat)
    requires k <= i < |x|
    ensures Slice(x, k, i + 1) == Slice(x, k, i) + x[i] * Weight(i - k) && Slice(x, k, k) == 0
  {
  }

  lemma RightArithmetic(v: int, r: int, x: int, h: int, p: int, n: nat)
    requires p > 0 && p * h == B
    ensures (v + (r + (x % p) * h) * Weight(n) + x / p * Weight(n + 1)) * p == (v + r * Weight(n)) * p + x * Weight(n + 1)
  {
    var w, l, q := Weight(n), x % p, x / p;
    assert x == q * p + l;
    RightTerms(v, r, l, h, p, q, w);
    assert Weight(n + 1) == B * w;
  }

  lemma RightTerms(v: int, r: int, l: int, h: int, p: int, q: int, w: int)
    requires p * h == B
    ensures (v + (r + l * h) * w + q * (B * w)) * p == (v + r * w) * p + (q * p + l) * (B * w)
  {
    assert (l * h) * w * p == l * ((p * h) * w);
    assert q * (B * w) * p == (q * p) * (B * w);
    assert (r + l * h) * w == r * w + (l * h) * w;
    assert (v + r * w + (l * h) * w + q * (B * w)) * p == (v + r * w) * p + (l * h) * w * p + q * (B * w) * p;
  }

  lemma {:induction false} SliceIsFrom(x: seq<int>, k: nat, i: nat)
    requires k <= i <= |x|
    ensures ValFrom(x, k) == Slice(x, k, i) + Weight(i - k) * ValFrom(x, i)
  {
    if i > k {
      SliceIsFrom(x, k, i - 1);
      var w, f := Weight(i - 1 - k), ValFrom(x, i);
      assert Weight(i - k) == B * w;
      assert w * (x[i - 1] + B * f) == x[i - 1] * w + (B * w) * f;
    }
  }

  lemma RightEnds(x: seq<int>, r: seq<int>, k: nat, s: nat)
    requires |x| == |r| && s < 32 && ShiftingRight(x, r, k, |r|, Pow2(s))
    ensures Val(r) == Val(x) / Pow2(32 * k + s)
  {
    hide Weight, ValTo, Pow2, Slice, ShiftingRight;
    Pow2Add(32 * k, s);
    WeightIsPow2(k);
    if k < |r| { RightKept(x, r, k, Pow2(s)); } else { RightGone(x, r, k, Pow2(s)); }
  }

  lemma RightKept(x: seq<int>, r: seq<int>, k: nat, p: nat)
    requires k < |x| == |r| && p > 0 && ShiftingRight(x, r, k, |r|, p)
    ensures Val(r) == Val(x) / (Weight(k) * p)
  {
    hide Weight, ValTo, ValFrom, Slice;
    var n := |r|;
    SliceIsFrom(x, k, n);
    SliceIsAll(x, k);
    Split(x, k);
    ValBound(x, k);
    Split(r, n - k);
    TopZero(r, n - k);
    assert ValFrom(x, k) == ValTo(r, n - k) * p + x[k] % p by { TimesNothing(Weight(n - k), ValFrom(x, n)); }
    assert Val(r) == ValTo(r, n - k) by { TimesNothing(Weight(n - k), ValFrom(r, n - k)); }
    RightWhole(Val(x), ValTo(x, k), Weight(k), ValFrom(x, k), p, ValTo(r, n - k), x[k] % p);
  }

  lemma RightGone(x: seq<int>, r: seq<int>, k: nat, p: nat)
    requires |x| == |r| <= k && p > 0 && ShiftingRight(x, r, k, |r|, p)
    ensures Val(r) == Val(x) / (Weight(k) * p)
  {
    hide Weight, ValTo, Slice;
    ValBound(x, |x|);
    ZeroVal(r, |r|);
    WeightAdd(|r|, k - |r|);
    AllShiftedOut(Val(x), Weight(|r|), Weight(k - |r|), p);
  }

  lemma TimesNothing(w: int, z: int)
    ensures z == 0 ==> w * z == 0
  {
  }

  lemma RightWhole(whole: int, lo: int, wk: int, top: int, p: int, v: int, l: int)
    requires 0 <= lo < wk && 0 <= l < p && whole == lo + wk * top && top == v * p + l
    ensures wk * p > 0 && whole / (wk * p) == v
  {
    Scale(0, l, wk);
    Scale(l, p - 1, wk);
    assert wk * (v * p + l) == v * (wk * p) + l * wk;
    assert (p - 1) * wk == wk * p - wk;
    RemainderIs(lo + wk * (v * p + l), wk * p, v, lo + l * wk);
  }

  lemma AllShiftedOut(v: int, m: int, w: int, p: int)
    requires 0 <= v < m && w >= 1 && p >= 1
    ensures v / (m * w * p) == 0
  {
    Scale(1, w, m);
    Scale(1, p, m * w);
    RemainderIs(v, m * w * p, 0, v);
  }

  lemma SliceIsAll(x: seq<int>, k: nat)
    requires k <= |x|
    ensures ValFrom(x, |x|) == 0
  {
  }
}
