/** Numbers in positional notation, highest digit first. */
module Positional {
  import opened Common

  function Pow(b: nat, n: nat): (r: nat)
    requires b > 0
    ensures r >= 1
  {
    if n == 0 then 1 else Times(b, Pow(b, n - 1))
  }

  function Times(a: nat, b: nat): (r: nat)
    ensures a >= 1 && b >= 1 ==> r >= 1
    ensures r == a * b
  {
    if a >= 1 && b >= 1 then Product(a, b); a * b else a * b
  }

  lemma Product(a: nat, b: nat)
    requires a >= 1 && b >= 1
    ensures a * b >= 1
  {
  }

  lemma PowStart(b: nat)
    requires b > 0
    ensures Pow(b, 0) == 1 && Pow(b, 1) == b
  {
  }

  lemma PowNext(b: nat, n: nat)
    requires b > 0
    ensures Pow(b, n + 1) == b * Pow(b, n)
  {
  }

  lemma Regroup(a: int, b: int, c: int)
    ensures a * (b * c) == (a * b) * c
  {
  }

  lemma Distribute(a: int, b: int, c: int)
    ensures (a + b) * c == a * c + b * c
  {
  }

  lemma {:induction false} PowAdd(b: nat, m: nat, n: nat)
    requires b > 0
    ensures Pow(b, m + n) == Pow(b, m) * Pow(b, n)
  {
    hide Pow;
    if m == 0 {
      PowStart(b);
    } else {
      PowAdd(b, m - 1, n);
      PowNext(b, m - 1);
      PowNext(b, (m - 1) + n);
      Regroup(b, Pow(b, m - 1), Pow(b, n));
    }
  }

  lemma MulBoth(a: nat, b: nat, c: nat, d: nat)
    requires a <= b && c <= d
    ensures a * c <= b * d
  {
    Scale(a, b, c);
    Scale(c, d, b);
  }

  lemma {:induction false} PowOrder(b: nat, m: nat, n: nat)
    requires b > 0 && m <= n
    ensures Pow(b, m) <= Pow(b, n)
  {
    if m < n {
      PowOrder(b, m, n - 1);
      Scale(1, b, Pow(b, n - 1));
    }
  }

  ghost predicate AreDigits(s: seq<nat>, base: nat) {
    forall i :: 0 <= i < |s| ==> s[i] < base
  }

  /** The number that the digits stand for. */
  function Val(s: seq<nat>, base: nat): nat {
    if s == [] then 0 else Val(s[..|s| - 1], base) * base + s[|s| - 1]
  }

  /** The shortest digits of a number. */
  function Digits(n: nat, base: nat): seq<nat>
    requires base >= 2
  {
    if n == 0 then [] else Digits(n / base, base) + [n % base]
  }

  lemma DivFacts(n: nat, base: nat)
    requires base >= 2
    ensures 0 <= n / base && 0 <= n % base < base && n == n / base * base + n % base
    ensures n > 0 ==> n / base < n
  {
    var q := n / base;
    assert n == q * base + n % base;
    if q < 0 { Scale(q, -1, base); }
    if q > 0 { Scale(2, base, q); }
  }

  lemma DigitsSplit(n: nat, base: nat)
    requires base >= 2 && n > 0
    ensures n / base >= 0 && Digits(n, base) == Digits(n / base, base) + [n % base]
  {
  }

  lemma NoDigits(base: nat)
    requires base >= 2
    ensures Digits(0, base) == []
  {
  }

  lemma AppendedDigit(s: seq<nat>, d: nat, v: nat, base: nat)
    requires AreDigits(s, base) && d < base && Val(s, base) == v && (v > 0 ==> s != [] && s[0] != 0) && (v == 0 ==> s == [])
    ensures AreDigits(s + [d], base) && Val(s + [d], base) == v * base + d
    ensures (v > 0 || d > 0) ==> (s + [d])[0] != 0
  {
    assert (s + [d])[..|s|] == s;
  }

  lemma {:induction false} DigitsAreDigits(n: nat, base: nat)
    requires base >= 2
    ensures AreDigits(Digits(n, base), base)
    ensures n > 0 ==> Digits(n, base) != [] && Digits(n, base)[0] != 0
    ensures n == 0 ==> Digits(n, base) == []
    ensures Val(Digits(n, base), base) == n
  {
    hide Digits;
    if n > 0 {
      DivFacts(n, base);
      DigitsSplit(n, base);
      DigitsAreDigits(n / base, base);
      AppendedDigit(Digits(n / base, base), n % base, n / base, base);
    } else {
      NoDigits(base);
    }
  }

  /** Digits without a leading zero are the shortest ones of their number. */
  lemma {:induction false} DigitsOfVal(s: seq<nat>, base: nat)
    requires base >= 2 && AreDigits(s, base) && (s != [] ==> s[0] != 0)
    ensures Digits(Val(s, base), base) == s
    ensures s != [] ==> Val(s, base) > 0
  {
    if s != [] {
      var front, last := s[..|s| - 1], s[|s| - 1];
      DigitsOfVal(front, base);
      var v := Val(front, base);
      QuotientIs(v, base, last);
      assert s == front + [last];
      if v > 0 { Scale(1, v, base); }
    }
  }

  lemma QuotientIs(q: nat, d: nat, r: nat)
    requires r < d
    ensures (q * d + r) / d == q && (q * d + r) % d == r
  {
    var n := q * d + r;
    var q2, r2 := n / d, n % d;
    assert n == q2 * d + r2;
    if q2 < q { Scale(q2 + 1, q, d); }
    if q < q2 { Scale(q + 1, q2, d); }
  }

  lemma {:induction false} ValBound(s: seq<nat>, base: nat)
    requires base > 0 && AreDigits(s, base)
    ensures Val(s, base) < Pow(base, |s|)
  {
    hide Pow;
    if s == [] {
      PowStart(base);
    } else {
      var front := s[..|s| - 1];
      ValBound(front, base);
      PowNext(base, |front|);
      Scale(Val(front, base) + 1, Pow(base, |front|), base);
      Distribute(Val(front, base), 1, base);
    }
  }

  // ----- the buffer --------------------------------------------------------

  /** The number in the last n digits. */
  ghost function Low(s: seq<nat>, n: nat, base: nat): nat
    requires n <= |s| && base > 0
  {
    if n == 0 then 0 else Low(s, n - 1, base) + Times(s[|s| - n], Pow(base, n - 1))
  }

  lemma {:induction false} LowSame(s: seq<nat>, t: seq<nat>, n: nat, base: nat)
    requires n <= |s| == |t| && base > 0 && forall k :: |s| - n <= k < |s| ==> s[k] == t[k]
    ensures Low(s, n, base) == Low(t, n, base)
  {
    if n > 0 { LowSame(s, t, n - 1, base); }
  }

  lemma {:induction false} LowBound(s: seq<nat>, n: nat, base: nat)
    requires n <= |s| && base > 0 && AreDigits(s, base)
    ensures Low(s, n, base) < Pow(base, n)
  {
    if n > 0 {
      LowBound(s, n - 1, base);
      Scale(s[|s| - n], base - 1, Pow(base, n - 1));
      assert (base - 1) * Pow(base, n - 1) == base * Pow(base, n - 1) - Pow(base, n - 1);
    }
  }

  lemma {:induction false} LowZero(s: seq<nat>, m: nat, n: nat, base: nat)
    requires m <= n <= |s| && base > 0 && forall k :: |s| - n <= k < |s| - m ==> s[k] == 0
    ensures Low(s, n, base) == Low(s, m, base)
  {
    if m < n { LowZero(s, m, n - 1, base); }
  }

  lemma {:induction false} LowIsVal(s: seq<nat>, n: nat, base: nat)
    requires n <= |s| && base > 0
    ensures Low(s, n, base) == Val(s[|s| - n..], base)
  {
    if n > 0 {
      LowIsVal(s, n - 1, base);
      var rest := s[|s| - (n - 1)..];
      assert s[|s| - n..] == [s[|s| - n]] + rest;
      TopDigit(s[|s| - n], rest, base);
    }
  }

  lemma {:induction false} TopDigit(d: nat, s: seq<nat>, base: nat)
    requires base > 0
    ensures Val([d] + s, base) == d * Pow(base, |s|) + Val(s, base)
  {
    hide Pow;
    var t := [d] + s;
    if s == [] {
      PowStart(base);
      assert t[..|t| - 1] == [];
    } else {
      var front := s[..|s| - 1];
      assert t[..|t| - 1] == [d] + front;
      TopDigit(d, front, base);
      PowNext(base, |front|);
      var p := Pow(base, |front|);
      Distribute(d * p, Val(front, base), base);
      Regroup(d, p, base);
    }
  }

  /** Writing digit i from the back, where those behind it are done. */
  lemma LowStored(s: seq<nat>, i: nat, d: nat, base: nat)
    requires i < |s| && base > 0
    ensures Low(s[|s| - 1 - i := d], i + 1, base) == Low(s, i, base) + d * Pow(base, i)
    ensures Low(s[|s| - 1 - i := d], i, base) == Low(s, i, base)
  {
    LowSame(s[|s| - 1 - i := d], s, i, base);
  }

  lemma CarryStep(carry: nat, base: nat, p: nat)
    requires base > 0
    ensures (carry % base) * p + (carry / base) * (base * p) == carry * p
  {
    var q, r := carry / base, carry % base;
    assert carry == q * base + r;
    assert q * (base * p) == (q * base) * p;
    assert (q * base + r) * p == (q * base) * p + r * p;
  }
}
