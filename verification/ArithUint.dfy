/** Unsigned integers of a fixed number of 32-bit limbs. */
module ArithUint {
  import opened Common
  import opened Limbs
  import opened Shifts
  import opened CompactTarget

  class BaseUint {
    /** The limbs, lowest first. */
    const pn: array<int>

    ghost predicate Valid() reads pn {
      pn.Length >= 2 && AreLimbs(pn[..])
    }

    /** The number. */
    ghost function Value(): int reads pn {
      Val(pn[..])
    }

    /** One more than the largest number. */
    ghost function Modulus(): nat {
      Weight(pn.Length)
    }

    /** Zero. */
    constructor (width: nat)
      requires width >= 2
      ensures Valid() && fresh(pn) && pn.Length == width && Value() == 0
    {
      pn := new int[width](_ => 0);
      new;
      ZeroVal(pn[..], width);
    }

    constructor Copy(b: BaseUint)
      requires b.Valid()
      ensures Valid() && fresh(pn) && pn[..] == b.pn[..] && pn.Length == b.pn.Length
    {
      pn := new int[b.pn.Length](i requires 0 <= i < b.pn.Length reads b.pn => b.pn[i]);
    }

    /** Sets the low 64 bits and clears the rest. */
    method Assign(v: nat)
      requires Valid() && v < B * B
      modifies pn
      ensures Valid() && Value() == v
    {
      pn[0] := v % B;
      pn[1] := v / B;
      for i := 2 to pn.Length
        invariant pn[0] == v % B && pn[1] == v / B && forall k :: 2 <= k < i ==> pn[k] == 0
      {
        pn[i] := 0;
      }
      Split(pn[..], 2);
      TopZero(pn[..], 2);
      assert Weight(1) == B && Weight(0) == 1;
      assert ValTo(pn[..], 2) == ValTo(pn[..], 1) + pn[1] * B && ValTo(pn[..], 1) == pn[0];
    }

    lemma InRange()
      requires Valid()
      ensures 0 <= Value() < Modulus()
    {
      ValBound(pn[..], pn.Length);
    }

    lemma ValueBound(x: seq<int>)
      ensures Val(x) == ValTo(x, |x|)
    {
    }

    // ----- addition ----------------------------------------------------------

    /** Addition modulo the width. b may be this number itself. */
    method Add(b: BaseUint)
      requires Valid() && b.Valid() && b.pn.Length == pn.Length
      modifies pn
      ensures Valid() && Value() == (old(Value()) + old(b.Value())) % Modulus()
    {
      hide ValTo, Weight;
      ghost var x, y := pn[..], b.pn[..];
      var carry := 0;
      NoLimbs(x);
      NoLimbs(y);
      for i := 0 to pn.Length
        invariant 0 <= carry <= 1
        invariant forall k :: i <= k < pn.Length ==> pn[k] == x[k] && b.pn[k] == y[k]
        invariant forall k :: 0 <= k < i ==> 0 <= pn[k] < B
        invariant ValTo(pn[..], i) + carry * Weight(i) == ValTo(x, i) + ValTo(y, i)
      {
        ghost var was := pn[..];
        ghost var ncarry := carry;
        var n := carry + pn[i] + b.pn[i];
        pn[i] := n % B;
        carry := n / B;
        assert pn[..] == was[i := n % B];
        StoredWithCarry(was, i, n);
        NextLimb(x, i);
        NextLimb(y, i);
        Distribute(ncarry, x[i], y[i], Weight(i));
      }
      ValBound(pn[..], pn.Length);
      RemainderIs(Val(x) + Val(y), Modulus(), carry, Value());
    }

    /** The other number's complement plus one. */
    method Negate() returns (r: BaseUint)
      requires Valid()
      ensures r.Valid() && fresh(r.pn) && r.pn.Length == pn.Length
      ensures r.Value() == (-Value()) % Modulus()
    {
      r := new BaseUint(pn.Length);
      for i := 0 to pn.Length
        invariant r.Valid() && fresh(r.pn) && r.pn.Length == pn.Length
        invariant ValTo(r.pn[..], i) == Weight(i) - 1 - ValTo(pn[..], i)
      {
        ghost var was := r.pn[..];
        r.pn[i] := 0xffffffff - pn[i];
        SameVal(was, r.pn[..], i);
        ComplementStep(i, pn[i]);
      }
      ghost var v := Value();
      ValBound(pn[..], pn.Length);
      assert r.Value() == Modulus() - 1 - v;
      r.Increment();
      assert r.Value() == (Modulus() - v) % Modulus();
      if v == 0 {
        RemainderIs(Modulus(), Modulus(), 1, 0);
        RemainderIs(0, Modulus(), 0, 0);
      } else {
        RemainderIs(Modulus() - v, Modulus(), 0, Modulus() - v);
        RemainderIs(-v, Modulus(), -1, Modulus() - v);
      }
    }

    /** Prefix ++. */
    method Increment()
      requires Valid()
      modifies pn
      ensures Valid() && Value() == (old(Value()) + 1) % Modulus()
    {
      hide ValTo, Weight;
      ghost var x := pn[..];
      var i := 0;
      StoredWithCarry(x, i, x[i] + 1);
      NoLimbs(x);
      NextLimb(x, i);
      pn[i] := (pn[i] + 1) % B;
      assert pn[..] == x[i := (x[i] + 1) % B];
      while pn[i] == 0 && i < pn.Length - 1
        invariant 0 <= i < pn.Length
        invariant forall k :: 0 <= k < pn.Length ==> 0 <= pn[k] < B
        invariant forall k :: i < k < pn.Length ==> pn[k] == x[k]
        invariant ValTo(pn[..], i + 1) + (if pn[i] == 0 then Weight(i + 1) else 0) == ValTo(x, i + 1) + 1
      {
        ghost var was := pn[..];
        i := i + 1;
        ghost var n := pn[i] + 1;
        pn[i] := (pn[i] + 1) % B;
        assert pn[..] == was[i := n % B];
        StoredWithCarry(was, i, n);
        NextLimb(x, i);
        Distribute(1, x[i], 0, Weight(i));
      }
      RestSame(x, i + 1, if pn[i] == 0 then 1 else 0, 1);
    }

    /** Prefix --. */
    method Decrement()
      requires Valid()
      modifies pn
      ensures Valid() && Value() == (old(Value()) - 1) % Modulus()
    {
      hide ValTo, Weight;
      ghost var x := pn[..];
      var i := 0;
      StoredWithCarry(x, i, x[i] - 1);
      NoLimbs(x);
      NextLimb(x, i);
      pn[i] := (pn[i] + B - 1) % B;
      assert pn[..] == x[i := (x[i] - 1) % B];
      while pn[i] == B - 1 && i < pn.Length - 1
        invariant 0 <= i < pn.Length
        invariant forall k :: 0 <= k < pn.Length ==> 0 <= pn[k] < B
        invariant forall k :: i < k < pn.Length ==> pn[k] == x[k]
        invariant ValTo(pn[..], i + 1) - (if pn[i] == B - 1 then Weight(i + 1) else 0) == ValTo(x, i + 1) - 1
      {
        ghost var was := pn[..];
        i := i + 1;
        ghost var n := pn[i] - 1;
        pn[i] := (pn[i] + B - 1) % B;
        assert pn[..] == was[i := n % B];
        StoredWithCarry(was, i, n);
        NextLimb(x, i);
        Distribute(-1, x[i], 0, Weight(i));
      }
      RestSame(x, i + 1, if pn[i] == B - 1 then -1 else 0, -1);
    }

    /** The limbs from n on are those of x, so what holds up to n holds of the whole. */
    lemma RestSame(x: seq<int>, n: nat, carry: int, d: int)
      requires Valid() && |x| == pn.Length && 0 < n <= pn.Length
      requires forall k :: n <= k < pn.Length ==> pn[k] == x[k]
      requires ValTo(pn[..], n) + carry * Weight(n) == ValTo(x, n) + d
      requires carry == 0 || n == pn.Length
      ensures Value() == (Val(x) + d) % Modulus()
    {
      Split(pn[..], n);
      Split(x, n);
      SameFrom(pn[..], x, n);
      ValBound(pn[..], pn.Length);
      RemainderIs(Val(x) + d, Modulus(), carry, Value());
    }

    method Sub(b: BaseUint)
      requires Valid() && b.Valid() && b.pn.Length == pn.Length
      modifies pn
      ensures Valid() && Value() == (old(Value()) - old(b.Value())) % Modulus()
    {
      hide Val, Weight;
      var n := b.Negate();
      InRange();
      AddRemainders(Value(), -b.Value(), Modulus());
      Add(n);
    }

    // ----- multiplication ----------------------------------------------------

    /** By a single limb. */
    method MulSmall(b32: int)
      requires Valid() && 0 <= b32 < B
      modifies pn
      ensures Valid() && Value() == (old(Value()) * b32) % Modulus()
    {
      hide ValTo, Weight;
      ghost var x := pn[..];
      var carry := 0;
      NoLimbs(x);
      for i := 0 to pn.Length
        invariant 0 <= carry < B
        invariant forall k :: i <= k < pn.Length ==> pn[k] == x[k]
        invariant forall k :: 0 <= k < i ==> 0 <= pn[k] < B
        invariant ValTo(pn[..], i) + carry * Weight(i) == ValTo(x, i) * b32
      {
        ghost var was := pn[..];
        ghost var ncarry := carry;
        Scale(0, b32, pn[i]);
        Scale(b32, B - 1, pn[i]);
        var n := carry + b32 * pn[i];
        pn[i] := n % B;
        carry := n / B;
        assert pn[..] == was[i := n % B];
        StoredWithCarry(was, i, n);
        NextLimb(x, i);
        MulStep(ValTo(x, i), x[i], b32, ncarry, Weight(i));
      }
      ValBound(pn[..], pn.Length);
      RemainderIs(Val(x) * b32, Modulus(), carry, Value());
    }

    lemma MulStep(v: int, x: int, b: int, c: int, w: int)
      ensures (v + x * w) * b == v * b + (c + b * x) * w - c * w
    {
      assert (x * w) * b == (b * x) * w;
      assert (c + b * x) * w == c * w + (b * x) * w;
    }

    /** By another number, row by row; b may be this number itself. */
    method Mul(b: BaseUint)
      requires Valid() && b.Valid() && b.pn.Length == pn.Length
      modifies pn
      ensures Valid() && Value() == (old(Value()) * old(b.Value())) % Modulus()
    {
      hide ValTo, Weight, Val;
      ghost var x, y, m := pn[..], b.pn[..], Modulus();
      ghost var vy := Val(y);
      var a := new BaseUint(pn.Length);
      ghost var q := 0;
      NoLimbs(x);
      for j := 0 to pn.Length
        invariant a.Valid() && fresh(a.pn) && a.pn.Length == pn.Length
        invariant pn[..] == x && b.pn[..] == y
        invariant a.Value() + q * m == ValTo(x, j) * vy
      {
        ghost var before := a.Value();
        var dropped := MulRow(a, b, j);
        NextLimb(x, j);
        RowStep(before, a.Value(), q, dropped, m, ValTo(x, j), x[j], Weight(j), vy);
        q := q + dropped;
      }
      ValueBound(x);
      a.InRange();
      RemainderIs(Val(x) * vy, m, q, a.Value());
      CopyFrom(a);
    }

    /** Assignment. */
    method CopyFrom(a: BaseUint)
      requires a.pn.Length == pn.Length
      modifies pn
      ensures pn[..] == old(a.pn[..])
    {
      for i := 0 to pn.Length
        invariant forall k :: 0 <= k < i ==> pn[k] == old(a.pn[k])
        invariant forall k :: i <= k < pn.Length ==> a.pn[k] == old(a.pn[k])
      {
        pn[i] := a.pn[i];
      }
    }

    lemma RowStep(v: int, v2: int, q: int, d: int, m: int, h: int, x: int, w: int, y: int)
      requires v + q * m == h * y && v2 + d * m == v + (x * w) * y
      ensures v2 + (q + d) * m == (h + x * w) * y
    {
      assert (q + d) * m == q * m + d * m;
      assert (h + x * w) * y == h * y + (x * w) * y;
    }

    /** Adds limb j of this number times b, shifted to its place, to a. What falls off the
        top is a multiple of the modulus. */
    method MulRow(a: BaseUint, b: BaseUint, j: nat) returns (ghost dropped: int)
      requires Valid() && a.Valid() && b.Valid() && a.pn.Length == b.pn.Length == pn.Length && j < pn.Length
      requires a.pn != b.pn && a.pn != pn
      modifies a.pn
      ensures a.Valid()
      ensures a.Value() + dropped * Modulus() == old(a.Value()) + (pn[j] * Weight(j)) * b.Value()
    {
      hide ValTo, Weight;
      var carry := 0;
      var i := 0;
      ghost var x, y := a.pn[..], b.pn[..];
      NoLimbs(y);
      while i + j < pn.Length
        invariant 0 <= i && i + j <= pn.Length && 0 <= carry < B
        invariant forall k :: 0 <= k < pn.Length ==> 0 <= a.pn[k] < B
        invariant forall k :: i + j <= k < pn.Length ==> a.pn[k] == x[k]
        invariant ValTo(a.pn[..], i + j) + carry * Weight(i + j) == ValTo(x, i + j) + (pn[j] * Weight(j)) * ValTo(y, i)
      {
        ghost var was := a.pn[..];
        ghost var ncarry := carry;
        Scale(0, pn[j], b.pn[i]);
        Scale(pn[j], B - 1, b.pn[i]);
        var n := carry + a.pn[i + j] + pn[j] * b.pn[i];
        a.pn[i + j] := n % B;
        carry := n / B;
        assert a.pn[..] == was[i + j := n % B];
        StoredWithCarry(was, i + j, n);
        NextLimb(x, i + j);
        NextLimb(y, i);
        WeightAdd(i, j);
        RowLimb(ValTo(y, i), y[i], pn[j], ncarry, x[i + j], Weight(i), Weight(j));
        i := i + 1;
      }
      Split(y, i);
      WeightAdd(i, j);
      dropped := carry + pn[j] * ValFrom(y, i);
      RowRest(ValTo(y, i), ValFrom(y, i), pn[j], carry, Weight(i), Weight(j));
    }

    lemma RowLimb(v: int, y: int, p: int, c: int, x: int, wi: int, wj: int)
      ensures (p * wj) * (v + y * wi) == (p * wj) * v + (c + x + p * y) * (wi * wj) - c * (wi * wj) - x * (wi * wj)
    {
      assert (p * wj) * (y * wi) == (p * y) * (wi * wj);
      assert (c + x + p * y) * (wi * wj) == c * (wi * wj) + x * (wi * wj) + (p * y) * (wi * wj);
    }

    lemma RowRest(v: int, h: int, p: int, c: int, wi: int, wj: int)
      ensures (p * wj) * (v + wi * h) == (p * wj) * v + (p * h) * (wi * wj)
      ensures (c + p * h) * (wi * wj) == c * (wi * wj) + (p * h) * (wi * wj)
    {
      assert (p * wj) * (wi * h) == (p * h) * (wi * wj);
    }

    // ----- comparison --------------------------------------------------------

    method CompareTo(b: BaseUint) returns (r: int)
      requires Valid() && b.Valid() && b.pn.Length == pn.Length
      ensures r == if Value() < b.Value() then -1 else if Value() > b.Value() then 1 else 0
    {
      var i := pn.Length;
      while i > 0
        invariant 0 <= i <= pn.Length
        invariant forall k :: i <= k < pn.Length ==> pn[k] == b.pn[k]
        decreases i
      {
        i := i - 1;
        if pn[i] < b.pn[i] {
          TopDecides(pn[..], b.pn[..], i);
          return -1;
        }
        if pn[i] > b.pn[i] {
          TopDecides(b.pn[..], pn[..], i);
          return 1;
        }
      }
      assert pn[..] == b.pn[..];
      r := 0;
    }

    /** The position of the highest bit set plus one, or zero. */
    method Bits() returns (r: nat)
      requires Valid()
      ensures r == BitLength(Value()) && r <= 32 * pn.Length
    {
      var pos := pn.Length;
      while pos > 0
        invariant 0 <= pos <= pn.Length
        invariant forall k :: pos <= k < pn.Length ==> pn[k] == 0
        decreases pos
      {
        pos := pos - 1;
        if pn[pos] != 0 {
          var bits := 31;
          Pow2Limb();
          while bits > 0
            invariant 0 <= bits <= 31
            invariant pn[pos] < Pow2(bits + 1)
            decreases bits
          {
            BitOf(pn[pos], bits);
            if pn[pos] / Pow2(bits) % 2 == 1 {
              TopLimb(pn[..], pos, bits);
              return 32 * pos + bits + 1;
            }
            bits := bits - 1;
          }
          TopLimb(pn[..], pos, 0);
          return 32 * pos + 1;
        }
      }
      ZeroVal(pn[..], pn.Length);
      r := 0;
    }

    /** The bit below a bound is set exactly if the number reaches it. */
    lemma BitOf(x: int, k: nat)
      requires 0 <= x < Pow2(k + 1)
      ensures x / Pow2(k) % 2 == 1 <==> x >= Pow2(k)
    {
      if x >= Pow2(k) { RemainderIs(x, Pow2(k), 1, x - Pow2(k)); } else { RemainderIs(x, Pow2(k), 0, x); }
    }

    // ----- shifts ------------------------------------------------------------

    /** To the left: multiplication by a power of two. */
    method ShiftLeft(shift: nat)
      requires Valid()
      modifies pn
      ensures Valid() && Value() == (old(Value()) * Pow2(shift)) % Modulus()
    {
      hide ValTo, Weight, Pow2, Or, ShiftUp, ShiftDown, ShiftingLeft;
      var a := new BaseUint.Copy(this);
      ghost var x := pn[..];
      Clear();
      var k, s := shift / 32, shift % 32;
      LeftStarts(x, pn[..], k, Pow2(s));
      var i := 0;
      while i < pn.Length
        invariant 0 <= i <= pn.Length
        invariant a.pn[..] == x && fresh(a.pn)
        invariant Valid() && ShiftingLeft(x, pn[..], k, i, Pow2(s))
      {
        LeftKeeps(x, pn[..], k, s, i);
        ghost var was := pn[..];
        if i + k + 1 < pn.Length && s != 0 {
          pn[i + k + 1] := Or(pn[i + k + 1], ShiftDown(a.pn[i], 32 - s));
        }
        assert pn[..] == LeftHigh(x, was, k, s, i);
        if i + k < pn.Length {
          pn[i + k] := Or(pn[i + k], ShiftUp(a.pn[i], s));
        }
        assert pn[..] == LeftBoth(x, was, k, s, i);
        i := i + 1;
      }
      LeftEnds(x, pn[..], k, s);
    }

    /** To the right: division by a power of two. */
    method ShiftRight(shift: nat)
      requires Valid()
      modifies pn
      ensures Valid() && Value() == old(Value()) / Pow2(shift)
    {
      hide ValTo, Weight, Pow2, Or, ShiftUp, ShiftDown, ShiftingRight;
      var a := new BaseUint.Copy(this);
      ghost var x := pn[..];
      Clear();
      var k, s := shift / 32, shift % 32;
      RightStarts(x, pn[..], k, Pow2(s));
      var i := 0;
      while i < pn.Length
        invariant 0 <= i <= pn.Length
        invariant a.pn[..] == x && fresh(a.pn)
        invariant Valid() && ShiftingRight(x, pn[..], k, i, Pow2(s))
      {
        RightKeeps(x, pn[..], k, s, i);
        ghost var was := pn[..];
        if i - k - 1 >= 0 && s != 0 {
          pn[i - k - 1] := Or(pn[i - k - 1], ShiftUp(a.pn[i], 32 - s));
        }
        assert pn[..] == RightLow(x, was, k, s, i);
        if i - k >= 0 {
          pn[i - k] := Or(pn[i - k], ShiftDown(a.pn[i], s));
        }
        assert pn[..] == RightBoth(x, was, k, s, i);
        i := i + 1;
      }
      RightEnds(x, pn[..], k, s);
    }

    // ----- division ----------------------------------------------------------

    /** Shift-and-subtract division. The number is cleared before the divisor is looked
        at, so dividing by zero loses it. b may be this number itself. */
    method Divide(b: BaseUint) returns (thrown: bool)
      requires Valid() && b.Valid() && b.pn.Length == pn.Length
      modifies pn
      ensures Valid()
      ensures thrown <==> old(b.Value()) == 0
      ensures Value() == if thrown then 0 else old(Value()) / old(b.Value())
    {
      hide Val, Weight, Pow2, BitLength, Or, ClearUpTo, AreLimbs;
      var div := new BaseUint.Copy(b);
      var num := new BaseUint.Copy(this);
      ghost var n, d := num.Value(), div.Value();
      num.InRange();
      div.InRange();
      Assign(0);
      var numBits := num.Bits();
      var divBits := div.Bits();
      NoBits(d);
      if divBits == 0 { return true; }
      thrown := false;
      BitLengthBounds(d);
      if divBits > numBits {
        FewerBits(n, d);
        return;
      }
      var shift: int := numBits - divBits;
      Aligned(n, d, pn.Length);
      div.ShiftLeft(shift);
      AllClear(pn[..], shift);
      while shift >= 0
        invariant -1 <= shift < 32 * pn.Length
        invariant fresh(num.pn) && fresh(div.pn) && num.pn != div.pn && num.pn.Length == div.pn.Length == pn.Length
        invariant Valid() && num.Valid() && div.Valid()
        invariant shift >= 0 ==> div.Value() == d * Pow2(shift) && ClearUpTo(pn[..], shift)
        invariant 0 <= num.Value() < d * Pow2(shift + 1)
        invariant Value() * d + num.Value() == n
      {
        DivideBit(num, div, shift, d);
        shift := shift - 1;
      }
      QuotientIs(n, d, Value(), num.Value());
    }

    /** Decides bit `shift` of the quotient. */
    method DivideBit(num: BaseUint, div: BaseUint, shift: nat, ghost d: int)
      requires num.pn != div.pn && num.pn != pn && div.pn != pn && num.pn.Length == div.pn.Length == pn.Length
      requires Valid() && num.Valid() && div.Valid() && shift < 32 * pn.Length
      requires div.Value() == d * Pow2(shift) && ClearUpTo(pn[..], shift)
      requires 0 <= num.Value() < d * Pow2(shift + 1)
      modifies pn, num.pn, div.pn
      ensures Valid() && num.Valid() && div.Valid()
      ensures shift > 0 ==> div.Value() == d * Pow2(shift - 1) && ClearUpTo(pn[..], shift - 1)
      ensures 0 <= num.Value() < d * Pow2(shift)
      ensures Value() * d + num.Value() == old(Value() * d + num.Value())
    {
      hide Val, Weight, Pow2, Or, ClearUpTo, AreLimbs;
      var order := num.CompareTo(div);
      ghost var q, rest, was := Value(), num.Value(), pn[..];
      div.InRange();
      num.InRange();
      OneBit(was, d, shift, q);
      TwiceAsMuch(d, shift);
      if order >= 0 {
        num.Sub(div);
        RemainderIs(rest - d * Pow2(shift), Modulus(), 0, rest - d * Pow2(shift));
        LimbIsNat(was, shift / 32);
        pn[shift / 32] := Or(Pow2(shift % 32), pn[shift / 32]);
        assert pn[..] == was[shift / 32 := pn[shift / 32]];
      }
      div.ShiftRight(1);
    }

    lemma LimbIsNat(s: seq<int>, i: nat)
      requires AreLimbs(s) && i < |s|
      ensures s[i] >= 0
    {
    }

    /** A divisor with more bits is larger. */
    lemma FewerBits(n: int, d: int)
      requires 0 <= n && 0 < d && BitLength(n) < BitLength(d)
      ensures n / d == 0
    {
      BitLengthBounds(d);
      if n > 0 {
        BitLengthBounds(n);
        Pow2Order(BitLength(n), BitLength(d) - 1);
      }
      RemainderIs(n, d, 0, n);
    }

    lemma NoBits(d: int)
      requires d >= 0
      ensures BitLength(d) == 0 <==> d == 0
    {
    }

    /** Shifted until its highest bit is that of n, the divisor fits, and twice it is more
        than n. */
    lemma Aligned(n: int, d: int, width: nat)
      requires 0 <= n && 0 < d && BitLength(d) <= BitLength(n) <= 32 * width
      ensures var shift := BitLength(n) - BitLength(d);
              d * Pow2(shift) < Weight(width) && d * Pow2(shift) % Weight(width) == d * Pow2(shift) && n < d * Pow2(shift + 1)
    {
      hide Pow2, Weight, BitLength;
      BitLengthBounds(d);
      NoBits(n);
      BitLengthBounds(n);
      var bn, bd := BitLength(n), BitLength(d);
      Pow2Add(bd, bn - bd);
      Pow2Add(bd - 1, bn - bd + 1);
      Pow2Order(bn, 32 * width);
      WeightIsPow2(width);
      AlignedBounds(n, d, Pow2(bd), Pow2(bd - 1), Pow2(bn - bd), Pow2(bn - bd + 1), Weight(width));
    }

    lemma AlignedBounds(n: int, d: int, top: int, low: int, p: int, p2: int, m: int)
      requires 0 < low <= d < top && p > 0 && p2 > 0 && top * p <= m && n < low * p2
      ensures 0 <= d * p < m && d * p % m == d * p && n < d * p2
    {
      Scale(d + 1, top, p);
      assert (d + 1) * p == d * p + p;
      Scale(low, d, p2);
      Scale(0, d, p);
      RemainderIs(d * p, m, 0, d * p);
    }

    lemma AllClear(s: seq<int>, n: nat)
      requires n / 32 < |s| && AreLimbs(s) && Val(s) == 0
      ensures ClearUpTo(s, n)
    {
      forall i | 0 <= i < |s| ensures s[i] == 0 {
        LimbCounts(s, i);
        if s[i] > 0 { Scale(1, s[i], Weight(i)); }
      }
      assert 0 % Pow2(n % 32 + 1) == 0;
    }

    /** What setting or leaving bit `shift` of the quotient does. */
    lemma OneBit(s: seq<int>, d: int, shift: nat, q: int)
      requires AreLimbs(s) && shift / 32 < |s| && ClearUpTo(s, shift)
      ensures var v := Or(Pow2(shift % 32), s[shift / 32]);
              AreLimbs(s[shift / 32 := v]) && Val(s[shift / 32 := v]) == Val(s) + Pow2(shift)
              && (shift > 0 ==> ClearUpTo(s[shift / 32 := v], shift - 1))
      ensures shift > 0 ==> ClearUpTo(s, shift - 1)
      ensures (q + Pow2(shift)) * d == q * d + d * Pow2(shift)
    {
      hide Val, Weight, Pow2, Or, ClearUpTo;
      SetBit(s, shift);
    }

    lemma TwiceAsMuch(d: int, shift: nat)
      ensures d * Pow2(shift + 1) == 2 * (d * Pow2(shift))
      ensures shift > 0 ==> d * Pow2(shift) / Pow2(1) == d * Pow2(shift - 1)
    {
      assert d * (2 * Pow2(shift)) == 2 * (d * Pow2(shift));
      assert Pow2(1) == 2;
      if shift > 0 { assert d * (2 * Pow2(shift - 1)) == 2 * (d * Pow2(shift - 1)); }
    }

    lemma QuotientIs(n: int, d: int, q: int, rest: int)
      requires q * d + rest == n && 0 <= rest < d * Pow2(0)
      ensures q == n / d
    {
      RemainderIs(n, d, q, rest);
    }

    // ----- compact targets ---------------------------------------------------

    /** Sets the number that a compact form stands for; the flags say what does not fit. */
    method SetCompact(nCompact: nat) returns (negative: bool, overflow: bool)
      requires Valid() && pn.Length == 8 && nCompact < B
      modifies pn
      ensures Valid() && Value() == Exact(nCompact) % Modulus()
      ensures overflow <==> Exact(nCompact) >= Modulus()
      ensures negative <==> SignBit(nCompact) && WordOf(nCompact) != 0
    {
      hide Val, Weight, Pow2, ShiftDown;
      var nSize := nCompact / SIZE_UNIT;
      var nWord := nCompact % MANTISSA;
      OverflowIsExact(nCompact);
      WordFits(nCompact);
      if nSize <= 3 {
        nWord := ShiftDown(nWord, 8 * (3 - nSize));
        Assign(nWord);
        SmallWord(nWord);
      } else {
        Assign(nWord);
        ShiftLeft(8 * (nSize - 3));
      }
      negative := nWord != 0 && nCompact / MANTISSA % 2 == 1;
      overflow := nWord != 0 && (nSize > 34 || (nWord > 0xff && nSize > 33) || (nWord > 0xffff && nSize > 32));
    }

    lemma SmallWord(word: nat)
      requires word < MANTISSA && pn.Length == 8
      ensures word % Modulus() == word
    {
      RemainderIs(word, Modulus(), 0, word);
    }

    /** The low 64 bits. */
    method GetLow64() returns (r: nat)
      requires Valid()
      ensures Value() < B * B ==> r == Value()
      ensures r == pn[0] + pn[1] * B
    {
      r := pn[0] + pn[1] * B;
      if Value() < B * B { LowLimbs(pn[..]); }
    }

    lemma LowLimbs(s: seq<int>)
      requires AreLimbs(s) && |s| >= 2 && Val(s) < B * B
      ensures Val(s) == s[0] + s[1] * B
    {
      Split(s, 2);
      NoLimbs(s);
      NextLimb(s, 0);
      NextLimb(s, 1);
      assert Weight(1) == B && Weight(2) == B * B;
      FromBound(s, 2);
      NothingAbove(ValTo(s, 2), B * B, ValFrom(s, 2));
    }

    lemma NothingAbove(low: int, m: int, high: int)
      requires low >= 0 && m >= 0 && high >= 0 && low + m * high < m
      ensures high == 0
    {
      if high > 0 { Scale(1, high, m); }
    }

    /** The compact form of the number. */
    method GetCompact(fNegative: bool) returns (nCompact: nat)
      requires Valid() && pn.Length == 8
      ensures Value() >= 0 && nCompact == CompactOf(Value(), fNegative) < B
    {
      hide Val, Weight, Pow2, BitLength, AreLimbs, TopBytes, ByteSize, CompactOf;
      InRange();
      WeightIsPow2(8);
      SizeFits(Value());
      var bits := Bits();
      var nSize := (bits + 7) / 8;
      ByteSizeIs(Value());
      nCompact := HighBytes(nSize);
      if nCompact / MANTISSA % 2 == 1 {
        nCompact := nCompact / 256;
        nSize := nSize + 1;
      }
      CompactIs(Value(), fNegative);
      assert nSize < 256;
      nCompact := PutTogether(nCompact, nSize, fNegative);
    }

    /** The three highest bytes. */
    method HighBytes(nSize: nat) returns (top: nat)
      requires Valid() && pn.Length == 8 && Value() >= 0 && nSize == ByteSize(Value())
      ensures top == TopBytes(Value()) && top < SIZE_UNIT
    {
      hide Val, Weight, Pow2, BitLength, Bytes, AreLimbs, TopBytes, ByteSize;
      TopBytesAre(Value());
      if Value() > 0 { TopBytesBounds(Value()); } else { ZeroTop(); }
      if nSize <= 3 {
        SmallNumber(Value());
        var low := GetLow64();
        top := low * Bytes(3 - nSize);
      } else {
        var bn := new BaseUint.Copy(this);
        TopBytesShift(Value());
        bn.ShiftRight(8 * (nSize - 3));
        top := bn.GetLow64();
      }
    }

    method PutTogether(word: nat, nSize: nat, fNegative: bool) returns (nCompact: nat)
      requires word < MANTISSA
      ensures nCompact == word + nSize * SIZE_UNIT + (if fNegative && word != 0 then MANTISSA else 0)
    {
      hide Or;
      CompactBits(word, nSize, fNegative && word != 0);
      nCompact := Or(word, nSize * SIZE_UNIT);
      nCompact := Or(nCompact, if fNegative && nCompact % MANTISSA != 0 then MANTISSA else 0);
    }

    method Clear()
      requires Valid()
      modifies pn
      ensures Valid() && forall i :: 0 <= i < pn.Length ==> pn[i] == 0
    {
      for i := 0 to pn.Length
        invariant forall k :: 0 <= k < i ==> pn[k] == 0
      {
        pn[i] := 0;
      }
    }

    lemma Distribute(a: int, b: int, c: int, w: int)
      ensures (a + b + c) * w == a * w + b * w + c * w
    {
    }

    lemma ComplementStep(i: nat, x: int)
      ensures (0xffffffff - x) * Weight(i) == Weight(i + 1) - Weight(i) - x * Weight(i)
    {
    }
  }
}
