/** The compact form of a target: a size in bytes and a mantissa of 23 bits with a sign. */
module CompactTarget {
  import opened Common
  import opened Limbs

  const MANTISSA: nat := 0x80_0000
  const SIZE_UNIT: nat := 0x100_0000

  /** 256 to the power k. */
  function Bytes(k: nat): (r: nat)
    ensures r >= 1
  {
    Pow2(8 * k)
  }

  function SizeOf(c: nat): nat { c / SIZE_UNIT }

  /** The mantissa, cut to what a number of that size has room for. */
  function WordOf(c: nat): nat {
    var word := c % MANTISSA;
    if SizeOf(c) <= 3 then ShiftDown(word, 8 * (3 - SizeOf(c))) else word
  }

  function SignBit(c: nat): bool { c / MANTISSA % 2 == 1 }

  /** The number that a compact form stands for, however large. */
  function Exact(c: nat): nat {
    if SizeOf(c) <= 3 then WordOf(c) else WordOf(c) * Bytes(SizeOf(c) - 3)
  }

  /** What one unit of the mantissa is worth. */
  function Unit(c: nat): nat {
    if SizeOf(c) <= 3 then 1 else Bytes(SizeOf(c) - 3)
  }

  function ByteSize(v: nat): nat {
    (BitLength(v) + 7) / 8
  }

  /** The three highest bytes of v, with zeros below if it has fewer. */
  function TopBytes(v: nat): nat {
    if ByteSize(v) <= 3 then v * Bytes(3 - ByteSize(v)) else ShiftDown(v, 8 * (ByteSize(v) - 3))
  }

  /** The compact form of v: a mantissa that would set the sign bit gives up a byte. */
  function CompactOf(v: nat, negative: bool): nat {
    var top := TopBytes(v);
    var word := if top >= MANTISSA then top / 256 else top;
    var size := if top >= MANTISSA then ByteSize(v) + 1 else ByteSize(v);
    word + size * SIZE_UNIT + (if negative && word != 0 then MANTISSA else 0)
  }

  lemma BytesAdd(a: nat, b: nat)
    ensures Bytes(a + b) == Bytes(a) * Bytes(b)
    ensures Bytes(0) == 1 && Bytes(1) == 256 && Bytes(2) == 0x1_0000 && Bytes(3) == SIZE_UNIT
  {
    Pow2Add(8 * a, 8 * b);
    assert Pow2(8) == 256;
    Pow2Add(8, 8);
    Pow2Add(16, 8);
  }

  // ----- what the parts of a compact form are ------------------------------

  lemma Parts(word: nat, size: nat, sign: bool)
    requires word < MANTISSA
    ensures var c := word + size * SIZE_UNIT + (if sign then MANTISSA else 0);
            SizeOf(c) == size && c % MANTISSA == word && SignBit(c) == sign
  {
    var c := word + size * SIZE_UNIT + (if sign then MANTISSA else 0);
    RemainderIs(c, SIZE_UNIT, size, c - size * SIZE_UNIT);
    RemainderIs(c, MANTISSA, 2 * size + (if sign then 1 else 0), word);
  }

  /** The size is the number of bytes of v, so its top bytes start with one that is not
      zero. */
  lemma TopBytesBounds(v: nat)
    requires v > 0
    ensures ByteSize(v) >= 1 && 0x1_0000 <= TopBytes(v) < SIZE_UNIT
    ensures Bytes(ByteSize(v) - 1) <= v < Bytes(ByteSize(v))
  {
    hide Pow2, BitLength;
    BitLengthBounds(v);
    var z := ByteSize(v);
    Pow2Order(8 * (z - 1), BitLength(v) - 1);
    Pow2Order(BitLength(v), 8 * z);
    if z <= 3 {
      BytesAdd(z, 3 - z);
      BytesAdd(z - 1, 3 - z);
      Scale(v + 1, Bytes(z), Bytes(3 - z));
      Scale(Bytes(z - 1), v, Bytes(3 - z));
      assert (v + 1) * Bytes(3 - z) == v * Bytes(3 - z) + Bytes(3 - z);
    } else {
      BytesAdd(3, z - 3);
      BytesAdd(2, z - 3);
      QuotientBounds(v, Bytes(z - 3), 0x1_0000, SIZE_UNIT);
    }
  }

  lemma QuotientBounds(v: int, d: int, lo: int, hi: int)
    requires d > 0 && lo * d <= v < hi * d
    ensures lo <= v / d < hi && v / d * d <= v < v / d * d + d
  {
    var q := v / d;
    assert v == q * d + v % d;
    if q < lo { Scale(q + 1, lo, d); }
    if q >= hi { Scale(hi, q, d); }
  }

  /** Dropping bytes one after the other. */
  lemma DropDrop(v: nat, a: nat, b: nat)
    requires a > 0 && b > 0
    ensures v / (a * b) == v / a / b
  {
    var q, r := v / a, v % a;
    var q2, r2 := q / b, q % b;
    assert v == q * a + r && q == q2 * b + r2;
    assert (q2 * b + r2) * a + r == q2 * (a * b) + (r2 * a + r);
    Scale(0, r2, a);
    Scale(r2, b - 1, a);
    assert (b - 1) * a == a * b - a;
    RemainderIs(v, a * b, q2, r2 * a + r);
  }

  /** Mantissa and size of the compact form of v: the mantissa is v without the bytes that
      the size counts beyond three. */
  lemma CompactParts(v: nat, negative: bool)
    requires v > 0
    ensures var c := CompactOf(v, negative);
            && 0x8000 <= c % MANTISSA
            && SignBit(c) == negative
            && (SizeOf(c) <= 3 ==> c % MANTISSA / Bytes(3 - SizeOf(c)) == v)
            && (SizeOf(c) > 3 ==> c % MANTISSA == v / Bytes(SizeOf(c) - 3))
            && SizeOf(c) == (if TopBytes(v) >= MANTISSA then ByteSize(v) + 1 else ByteSize(v))
  {
    hide Pow2, BitLength, ByteSize, TopBytes;
    TopBytesBounds(v);
    TopBytesAre(v);
    var z, top := ByteSize(v), TopBytes(v);
    BytesAdd(0, 0);
    if top < MANTISSA {
      Parts(top, z, negative);
      if z <= 3 { RemainderIs(top, Bytes(3 - z), v, 0); }
    } else {
      Parts(top / 256, z + 1, negative);
      if z < 3 {
        BytesAdd(2 - z, 1);
        DropDrop(top, 256, Bytes(2 - z));
        RemainderIs(top, Bytes(3 - z), v, 0);
      } else {
        BytesAdd(z - 3, 1);
        DropDrop(v, Bytes(z - 3), 256);
      }
    }
  }

  lemma TopBytesAre(v: nat)
    ensures ByteSize(v) <= 3 ==> TopBytes(v) == v * Bytes(3 - ByteSize(v))
    ensures ByteSize(v) >= 3 ==> TopBytes(v) == v / Bytes(ByteSize(v) - 3)
  {
    BytesAdd(0, 0);
  }

  // ----- the round trip ----------------------------------------------------

  lemma WordOfParts(c: nat)
    ensures SizeOf(c) <= 3 ==> WordOf(c) == c % MANTISSA / Bytes(3 - SizeOf(c))
    ensures SizeOf(c) > 3 ==> WordOf(c) == c % MANTISSA
  {
  }

  lemma ZeroCompact(negative: bool)
    ensures CompactOf(0, negative) == 0
  {
    assert TopBytes(0) == 0;
  }

  lemma RoundsDown(v: nat, u: nat)
    requires u >= 1
    ensures v / u * u <= v < v / u * u + u
  {
    Scale(1, u, v + 1);
    QuotientBounds(v, u, 0, v + 1);
  }

  /** A compact form stands for a number no larger than v, less than one unit of its
      mantissa away. */
  lemma CompactIsClose(v: nat, negative: bool)
    ensures var c := CompactOf(v, negative);
            Exact(c) <= v < Exact(c) + Unit(c)
            && (SignBit(c) <==> negative && v != 0)
            && (v != 0 ==> WordOf(c) != 0)
  {
    hide CompactOf, Bytes, WordOf, BitLength, TopBytes, ByteSize;
    var c := CompactOf(v, negative);
    if v == 0 {
      ZeroCompact(negative);
      WordOfParts(0);
      BytesAdd(0, 0);
    } else {
      CompactParts(v, negative);
      WordOfParts(c);
      if SizeOf(c) > 3 { RoundsDown(v, Bytes(SizeOf(c) - 3)); }
    }
  }

  /** Clearing low bytes does not change the number of bits. */
  lemma RoundedHasSameBits(v: nat, k: nat)
    requires v > 0 && 8 * k < BitLength(v)
    ensures v / Bytes(k) * Bytes(k) > 0 && BitLength(v / Bytes(k) * Bytes(k)) == BitLength(v)
  {
    hide Pow2, BitLength;
    BitLengthBounds(v);
    var l, u := BitLength(v), Bytes(k);
    var t := Pow2(l - 1 - 8 * k);
    Pow2Add(l - 1 - 8 * k, 8 * k);
    Scale(1, u, v + 1);
    QuotientBounds(v, u, t, v + 1);
    Scale(t, v / u, u);
    BitLengthIs(v / u * u, l - 1);
  }

  lemma Regroup(a: int, b: int, c: int)
    ensures a * (b * c) == (a * c) * b
  {
  }

  /** The compact form of what a compact form stands for is that form again. */
  lemma CompactAgain(v: nat, negative: bool)
    ensures CompactOf(Exact(CompactOf(v, negative)), negative) == CompactOf(v, negative)
  {
    hide TopBytes, BitLength, Bytes, WordOf;
    var c := CompactOf(v, negative);
    if v == 0 {
      ZeroCompact(negative);
      WordOfParts(0);
      BytesAdd(3, 0);
    } else {
      CompactParts(v, negative);
      TopBytesBounds(v);
      WordOfParts(c);
      if SizeOf(c) > 3 {
        var e, z := Exact(c), ByteSize(v);
        RoundedHasSameBits(v, SizeOf(c) - 3);
        TopBytesAre(v);
        TopBytesAre(e);
        if TopBytes(v) < MANTISSA {
          RemainderIs(e, Bytes(z - 3), v / Bytes(z - 3), 0);
        } else {
          var u := Bytes(z - 3);
          BytesAdd(z - 3, 1);
          DropDrop(v, u, 256);
          Regroup(v / (u * 256), u, 256);
          RemainderIs(e, u, v / (u * 256) * 256, 0);
        }
      }
    }
  }

  /** What a compact form stands for: the mantissa times 256 to the size less three, rounded
      down. */
  lemma ExactIs(c: nat)
    ensures Exact(c) == c % 0x80_0000 * Bytes(c / 0x100_0000) / 0x100_0000
  {
    hide Bytes, WordOf;
    var word, size := c % MANTISSA, SizeOf(c);
    WordOfParts(c);
    BytesAdd(0, 0);
    if size <= 3 {
      BytesAdd(3 - size, size);
      Cancels(word, Bytes(3 - size), Bytes(size));
    } else {
      BytesAdd(size - 3, 3);
      assert word * Bytes(size) == word * Bytes(size - 3) * SIZE_UNIT;
      RemainderIs(word * Bytes(size), SIZE_UNIT, word * Bytes(size - 3), 0);
    }
  }

  lemma Cancels(n: nat, a: nat, b: nat)
    requires a > 0 && b > 0
    ensures n * b / (a * b) == n / a
  {
    var q, r := n / a, n % a;
    assert n == q * a + r;
    assert n * b == q * (a * b) + r * b;
    Scale(0, r, b);
    Scale(r, a - 1, b);
    assert (a - 1) * b == a * b - b;
    RemainderIs(n * b, a * b, q, r * b);
  }

  /** Compact forms and what they stand for. */
  lemma CompactExamples()
    ensures Exact(0x0112_3456) == 0x12 && CompactOf(0x12, false) == 0x0112_0000
    ensures Exact(0x01fe_dcba) == 0x7e && SignBit(0x01fe_dcba) && CompactOf(0x7e, true) == 0x01fe_0000
    ensures CompactOf(0x80, false) == 0x0200_8000
    ensures Exact(0x0492_3456) == 0x1234_5600 && SignBit(0x0492_3456) && CompactOf(0x1234_5600, true) == 0x0492_3456
    ensures Exact(0x0500_9234) == 0x9234_0000 && !SignBit(0x0500_9234) && CompactOf(0x9234_0000, false) == 0x0500_9234
  {
    hide Bytes, BitLength, Pow2;
    BytesAdd(0, 0);
    BytesAdd(1, 1);
    BytesIsPow2(1);
    BitsOfExamples();
  }

  lemma BitsOfExamples()
    ensures BitLength(0x12) == 5 && BitLength(0x7e) == 7 && BitLength(0x80) == 8
    ensures BitLength(0x1234_5600) == 29 && BitLength(0x9234_0000) == 32
    ensures Pow2(8) == 0x100 && Pow2(16) == 0x1_0000
  {
    hide Pow2, BitLength;
    SmallPowers();
    Pow2Add(16, 8);
    Pow2Add(24, 4);
    Pow2Add(24, 8);
    Pow2Next(28);
    Pow2Next(31);
    BitLengthIs(0x12, 4);
    BitLengthIs(0x7e, 6);
    BitLengthIs(0x80, 7);
    BitLengthIs(0x1234_5600, 28);
    BitLengthIs(0x9234_0000, 31);
  }

  lemma SmallPowers()
    ensures Pow2(4) == 0x10 && Pow2(5) == 0x20 && Pow2(6) == 0x40 && Pow2(7) == 0x80 && Pow2(8) == 0x100
    ensures Pow2(16) == 0x1_0000
  {
    Pow2Add(8, 8);
  }

  /** The overflow test on size and mantissa says exactly whether the number has more than
      256 bits. */
  lemma OverflowIsExact(c: nat)
    ensures var word, size := WordOf(c), SizeOf(c);
            (word != 0 && (size > 34 || (word > 0xff && size > 33) || (word > 0xffff && size > 32))) <==> Exact(c) >= Weight(8)
  {
    hide Bytes, Weight, Pow2, WordOf, SizeOf;
    WeightIsPow2(8);
    BytesIsPow2(32);
    WordFits(c);
    if SizeOf(c) <= 3 {
      BytesAdd(29, 3);
      Scale(1, Bytes(29), SIZE_UNIT);
    } else {
      Overflows(WordOf(c), SizeOf(c));
    }
  }

  lemma Overflows(word: nat, size: nat)
    requires word < MANTISSA && size > 3
    ensures (word != 0 && (size > 34 || (word > 0xff && size > 33) || (word > 0xffff && size > 32))) <==> word * Bytes(size - 3) >= Bytes(32)
  {
    hide Bytes;
    if size <= 32 {
      BytesAdd(29, 3);
      BytesOrder(size - 3, 29);
      Scale(word, SIZE_UNIT - 1, Bytes(size - 3));
      Scale(Bytes(size - 3), Bytes(29), SIZE_UNIT - 1);
    } else if size == 33 {
      BytesAdd(30, 2);
      Compare(word, 0x1_0000, Bytes(30));
    } else if size == 34 {
      BytesAdd(31, 1);
      Compare(word, 0x100, Bytes(31));
    } else {
      BytesOrder(32, size - 3);
      Compare(word, 1, Bytes(size - 3));
      if word == 0 { assert word * Bytes(size - 3) == 0; }
    }
  }

  lemma BytesIsPow2(k: nat)
    ensures Bytes(k) == Pow2(8 * k)
  {
  }

  lemma BytesOrder(a: nat, b: nat)
    requires a <= b
    ensures Bytes(a) <= Bytes(b)
  {
    Pow2Order(8 * a, 8 * b);
  }

  lemma WordFits(c: nat)
    ensures WordOf(c) < MANTISSA
  {
  }

  lemma Compare(a: int, b: int, u: int)
    requires u > 0
    ensures a * u >= b * u <==> a >= b
  {
    if a < b { Scale(a + 1, b, u); } else { Scale(b, a, u); }
  }

  /** Putting the parts together bit by bit. */
  lemma CompactBits(word: nat, size: nat, sign: bool)
    requires word < MANTISSA
    ensures Or(word, size * SIZE_UNIT) == word + size * SIZE_UNIT
    ensures (word + size * SIZE_UNIT) % MANTISSA == word
    ensures Or(word + size * SIZE_UNIT, if sign then MANTISSA else 0) == word + size * SIZE_UNIT + (if sign then MANTISSA else 0)
  {
    hide Or, Pow2;
    BytesAdd(0, 0);
    BytesIsPow2(3);
    Parts(word, size, false);
    RemainderIs(size * SIZE_UNIT, SIZE_UNIT, size, 0);
    OrDisjoint(word, size * SIZE_UNIT, 24);
    var bit := if sign then MANTISSA else 0;
    OrSplits(word, bit, size, 0, 24);
    OrNothing(size);
    if sign {
      MantissaIsPow2();
      OrDisjoint(word, MANTISSA, 23);
    } else {
      OrNothing(word);
    }
  }

  lemma MantissaIsPow2()
    ensures Pow2(23) == MANTISSA
  {
    BytesAdd(0, 0);
    BytesIsPow2(3);
    Pow2Next(23);
  }

  /** The cases of the size, as a shift by whole bytes. */
  lemma TopBytesShift(v: nat)
    requires ByteSize(v) >= 3
    ensures TopBytes(v) == v / Pow2(8 * (ByteSize(v) - 3))
  {
    TopBytesAre(v);
  }

  lemma SmallNumber(v: nat)
    requires ByteSize(v) <= 3
    ensures v < SIZE_UNIT
  {
    BytesAdd(0, 0);
    if v > 0 {
      TopBytesBounds(v);
      BytesOrder(ByteSize(v), 3);
    }
  }

  lemma ZeroTop()
    ensures TopBytes(0) == 0 && ByteSize(0) == 0
  {
  }

  lemma ByteSizeIs(v: nat)
    ensures ByteSize(v) == (BitLength(v) + 7) / 8
  {
  }

  /** A number of 256 bits has at most 32 bytes. */
  lemma SizeFits(v: nat)
    requires v < Pow2(256)
    ensures ByteSize(v) <= 32
  {
    hide Bytes, ByteSize, TopBytes, Pow2;
    BytesIsPow2(32);
    if v == 0 {
      ZeroSize();
    } else {
      TopBytesBounds(v);
      if ByteSize(v) > 32 { BytesOrder(32, ByteSize(v) - 1); }
    }
  }

  lemma ZeroSize()
    ensures ByteSize(0) == 0
  {
  }

  lemma CompactIs(v: nat, negative: bool)
    ensures var top := TopBytes(v);
            var word, size := if top >= MANTISSA then top / 256 else top, if top >= MANTISSA then ByteSize(v) + 1 else ByteSize(v);
            CompactOf(v, negative) == word + size * SIZE_UNIT + (if negative && word != 0 then MANTISSA else 0)
  {
  }
}
