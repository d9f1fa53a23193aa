/** The sizes of the buffers of both conversions. */
module Base58Sizes {
  import opened Positional

  /** The room set aside for the base 58 digits of n bytes: 1.38 digits a byte, and one more. */
  function EncodedSize(n: nat): nat { n * 138 / 100 + 1 }

  /** The room set aside for the bytes of n base 58 digits: 0.733 bytes a digit, and one more. */
  function DecodedSize(n: nat): nat { n * 733 / 1000 + 1 }

  /** If one step of n digits is safe, so is any number of them. */
  lemma OneStepMore(b: nat, c: nat, n: nat, step: nat, size: nat, grown: nat)
    requires b > 0 && c > 0 && Pow(b, step) <= Pow(c, grown) && Pow(b, n) <= Pow(c, size)
    ensures Pow(b, n + step) <= Pow(c, size + grown)
  {
    PowAdd(b, n, step);
    PowAdd(c, size, grown);
    MulBoth(Pow(b, n), Pow(c, size), Pow(b, step), Pow(c, grown));
  }

  lemma PowersOf58()
    ensures Pow(58, 0) == 1 && Pow(58, 1) == 58
    ensures Pow(58, 2) == 3364
    ensures Pow(58, 3) == 195112
    ensures Pow(58, 4) == 11316496
    ensures Pow(58, 5) == 656356768
    ensures Pow(58, 6) == 38068692544
    ensures Pow(58, 7) == 2207984167552
    ensures Pow(58, 8) == 128063081718016
    ensures Pow(58, 9) == 7427658739644928
    ensures Pow(58, 10) == 430804206899405824
    ensures Pow(58, 11) == 24986644000165537792
    ensures Pow(58, 12) == 1449225352009601191936
    ensures Pow(58, 13) == 84055070416556869132288
    ensures Pow(58, 14) == 4875194084160298409672704
    ensures Pow(58, 15) == 282761256881297307761016832
  {
    hide Pow;
    PowStart(58);
    PowNext(58, 1);
    PowNext(58, 2);
    PowNext(58, 3);
    PowNext(58, 4);
    PowNext(58, 5);
    PowNext(58, 6);
    PowNext(58, 7);
    PowNext(58, 8);
    PowNext(58, 9);
    PowNext(58, 10);
    PowNext(58, 11);
    PowNext(58, 12);
    PowNext(58, 13);
    PowNext(58, 14);
  }

  lemma PowersOf256()
    ensures Pow(256, 0) == 1 && Pow(256, 1) == 256
    ensures Pow(256, 2) == 65536
    ensures Pow(256, 3) == 16777216
    ensures Pow(256, 4) == 4294967296
    ensures Pow(256, 5) == 1099511627776
    ensures Pow(256, 6) == 281474976710656
    ensures Pow(256, 7) == 72057594037927936
    ensures Pow(256, 8) == 18446744073709551616
    ensures Pow(256, 9) == 4722366482869645213696
    ensures Pow(256, 10) == 1208925819614629174706176
    ensures Pow(256, 11) == 309485009821345068724781056
  {
    hide Pow;
    PowStart(256);
    PowNext(256, 1);
    PowNext(256, 2);
    PowNext(256, 3);
    PowNext(256, 4);
    PowNext(256, 5);
    PowNext(256, 6);
    PowNext(256, 7);
    PowNext(256, 8);
    PowNext(256, 9);
    PowNext(256, 10);
  }

  lemma FewBytes(n: nat)
    requires n < 8
    ensures Pow(256, n) <= Pow(58, EncodedSize(n))
  {
    hide Pow;
    PowersOf58();
    PowersOf256();
  }

  /** A number of n bytes fits into the buffer for its base 58 digits: eight more bytes
      need no more than eleven more digits. */
  lemma {:induction false} EncodeFits(n: nat)
    ensures Pow(256, n) <= Pow(58, EncodedSize(n))
  {
    hide Pow;
    if n < 8 {
      FewBytes(n);
    } else {
      EncodeFits(n - 8);
      PowersOf58();
      PowersOf256();
      OneStepMore(256, 58, n - 8, 8, EncodedSize(n - 8), 11);
      PowOrder(58, EncodedSize(n - 8) + 11, EncodedSize(n));
    }
  }

  lemma FewDigits(n: nat)
    requires n < 15
    ensures Pow(58, n) <= Pow(256, DecodedSize(n))
  {
    hide Pow;
    PowersOf58();
    PowersOf256();
  }

  lemma {:induction false} SomeDigits(n: nat)
    requires n < 75
    ensures Pow(58, n) <= Pow(256, n / 15 * 11 + (if n % 15 == 0 then 0 else DecodedSize(n % 15)))
  {
    hide Pow;
    if n < 15 {
      if n == 0 { PowStart(58); PowStart(256); } else { FewDigits(n); }
    } else {
      SomeDigits(n - 15);
      PowersOf58();
      PowersOf256();
      OneStepMore(58, 256, n - 15, 15, (n - 15) / 15 * 11 + (if n % 15 == 0 then 0 else DecodedSize(n % 15)), 11);
    }
  }

  lemma SeventyOneDigits()
    ensures Pow(58, 71) <= Pow(256, 52)
  {
    hide Pow;
    PowersOf58();
    PowersOf256();
    PowAdd(58, 15, 15);
    PowAdd(58, 30, 30);
    PowAdd(58, 60, 11);
    PowAdd(256, 11, 11);
    PowAdd(256, 22, 22);
    PowAdd(256, 44, 8);
  }

  lemma FewFit(n: nat)
    requires n < 75
    ensures n / 15 * 11 + (if n % 15 == 0 then 0 else DecodedSize(n % 15)) <= DecodedSize(n)
  {
    var k, m := n / 15, n % 15;
    assert n == 15 * k + m && 0 <= k < 5;
  }

  lemma MoreFit(n: nat)
    requires n >= 71
    ensures DecodedSize(n - 71) + 52 <= DecodedSize(n)
  {
  }

  /** A number of n base 58 digits fits into the buffer for its bytes: 71 more digits need
      no more than 52 more bytes. */
  lemma {:induction false} DecodeFits(n: nat)
    ensures Pow(58, n) <= Pow(256, DecodedSize(n))
  {
    hide Pow, DecodedSize;
    if n < 75 {
      SomeDigits(n);
      FewFit(n);
      PowOrder(256, n / 15 * 11 + (if n % 15 == 0 then 0 else DecodedSize(n % 15)), DecodedSize(n));
    } else {
      DecodeFits(n - 71);
      SeventyOneDigits();
      MoreFit(n);
      OneStepMore(58, 256, n - 71, 71, DecodedSize(n - 71), 52);
      PowOrder(256, DecodedSize(n - 71) + 52, DecodedSize(n));
    }
  }
}

/** The conversions between bytes and base 58 text. */
module Base58 {
  import opened Common
  import opened Positional
  import opened Base58Sizes

  type Byte = n: nat | n < 256

  /** The alphabet, in its runs of consecutive characters: all alphanumeric ones except for
      0, I, O and l. */
  const ALPHABET: string := "123456789" + "ABCDEFGH" + "JKLMN" + "PQRSTUVWXYZ" + "abcdefghijk" + "mnopqrstuvwxyz"

  predicate IsSpace(c: char) {
    c == ' ' || c == '\t' || c == '\n' || c == '\U{000B}' || c == '\U{000C}' || c == '\r'
  }

  /** The digit that a character stands for, or -1. */
  function DigitOf(c: char): int
  {
    if '1' <= c <= '9' then c as int - '1' as int
    else if 'A' <= c <= 'H' then c as int - 'A' as int + 9
    else if 'J' <= c <= 'N' then c as int - 'J' as int + 17
    else if 'P' <= c <= 'Z' then c as int - 'P' as int + 22
    else if 'a' <= c <= 'k' then c as int - 'a' as int + 33
    else if 'm' <= c <= 'z' then c as int - 'm' as int + 44
    else -1
  }

  /** The character at a position of the alphabet. */
  function CharOf(d: nat): char
    requires d < 58
  {
    if d < 9 then ('1' as int + d) as char
    else if d < 17 then ('A' as int + d - 9) as char
    else if d < 22 then ('J' as int + d - 17) as char
    else if d < 33 then ('P' as int + d - 22) as char
    else if d < 44 then ('a' as int + d - 33) as char
    else ('m' as int + d - 44) as char
  }

  /** A run of consecutive characters. */
  predicate IsRun(s: string, first: char) {
    forall i :: 0 <= i < |s| ==> s[i] as int == first as int + i
  }

  lemma Runs()
    ensures IsRun("123456789", '1') && IsRun("ABCDEFGH", 'A') && IsRun("JKLMN", 'J')
    ensures IsRun("PQRSTUVWXYZ", 'P') && IsRun("abcdefghijk", 'a') && IsRun("mnopqrstuvwxyz", 'm')
  {
  }

  lemma AlphabetSpelledOut(d: nat)
    requires d < 58
    ensures |ALPHABET| == 58 && ALPHABET[d] == CharOf(d)
  {
    hide IsRun;
    Runs();
    RunAt("123456789", '1', d);
    RunAt("ABCDEFGH", 'A', d - 9);
    RunAt("JKLMN", 'J', d - 17);
    RunAt("PQRSTUVWXYZ", 'P', d - 22);
    RunAt("abcdefghijk", 'a', d - 33);
    RunAt("mnopqrstuvwxyz", 'm', d - 44);
  }

  lemma RunAt(s: string, first: char, i: int)
    requires IsRun(s, first)
    ensures 0 <= i < |s| ==> s[i] as int == first as int + i
  {
  }

  // ----- what the conversions are ------------------------------------------

  function LeadingZeroes(v: seq<nat>): (n: nat)
    ensures n <= |v| && (forall i :: 0 <= i < n ==> v[i] == 0) && (n < |v| ==> v[n] != 0)
  {
    if v == [] || v[0] != 0 then 0 else 1 + LeadingZeroes(v[1..])
  }

  function Ones(n: nat): string {
    seq(n, (i: nat) => '1')
  }

  function Zeroes(n: nat): seq<nat> {
    seq(n, (i: nat) => 0)
  }

  ghost function Spell(digits: seq<nat>): string
    requires AreDigits(digits, 58)
  {
    seq(|digits|, (i: nat) requires i < |digits| && AreDigits(digits, 58) => CharOf(digits[i]))
  }

  /** A 1 for each leading zero byte, and the number that the bytes are in base 58. */
  ghost function Encoded(v: seq<nat>): string {
    DigitsAreDigits(Val(v, 256), 58);
    Ones(LeadingZeroes(v)) + Spell(Digits(Val(v, 256), 58))
  }

  function LeadingOnes(s: string): (n: nat)
    ensures n <= |s| && (forall i :: 0 <= i < n ==> s[i] == '1') && (n < |s| ==> s[n] != '1')
  {
    if s == [] || s[0] != '1' then 0 else 1 + LeadingOnes(s[1..])
  }

  function LeadingSpaces(s: string): (n: nat)
    ensures n <= |s| && (forall i :: 0 <= i < n ==> IsSpace(s[i])) && (n < |s| ==> !IsSpace(s[n]))
  {
    if s == [] || !IsSpace(s[0]) then 0 else 1 + LeadingSpaces(s[1..])
  }

  function WordLength(s: string): (n: nat)
    ensures n <= |s| && (forall i :: 0 <= i < n ==> !IsSpace(s[i])) && (n < |s| ==> IsSpace(s[n]))
  {
    if s == [] || IsSpace(s[0]) then 0 else 1 + WordLength(s[1..])
  }

  predicate AllInAlphabet(s: string) {
    forall i :: 0 <= i < |s| ==> DigitOf(s[i]) >= 0
  }

  function DigitsOfText(s: string): seq<nat>
    requires AllInAlphabet(s)
  {
    seq(|s|, (i: nat) requires i < |s| && AllInAlphabet(s) => DigitOf(s[i]))
  }

  /** What a text of ones followed by a text without stands for. */
  ghost function DecodedWord(ones: nat, word: string, maxLen: int): Option<seq<nat>> {
    if !AllInAlphabet(word) then None
    else
      var digits := Digits(Val(DigitsOfText(word), 58), 256);
      if (ones > 0 || word != []) && ones + |digits| > maxLen then None else Some(Zeroes(ones) + digits)
  }

  /** What DecodeBase58 answers: spaces may surround the text. */
  ghost function Decoded(s: string, maxLen: int): Option<seq<nat>> {
    var t := s[LeadingSpaces(s)..];
    var body := t[LeadingOnes(t)..];
    var n := WordLength(body);
    if LeadingSpaces(body[n..]) < |body| - n then None
    else DecodedWord(LeadingOnes(t), body[..n], maxLen)
  }

  // ----- round trips -------------------------------------------------------

  lemma SpelledBack(digits: seq<nat>)
    requires AreDigits(digits, 58)
    ensures AllInAlphabet(Spell(digits)) && DigitsOfText(Spell(digits)) == digits
    ensures forall i :: 0 <= i < |digits| ==> !IsSpace(Spell(digits)[i])
    ensures digits != [] && digits[0] != 0 ==> Spell(digits) != [] && Spell(digits)[0] != '1'
  {
    forall i | 0 <= i < |digits| ensures DigitOf(Spell(digits)[i]) == digits[i] && !IsSpace(Spell(digits)[i]) {
      CharStandsFor(digits[i]);
    }
    assert DigitOf('1') == 0;
  }

  lemma CharStandsFor(d: nat)
    requires d < 58
    ensures DigitOf(CharOf(d)) == d && !IsSpace(CharOf(d))
  {
  }

  lemma CharOfDigit(c: char)
    requires DigitOf(c) >= 0
    ensures DigitOf(c) < 58 && CharOf(DigitOf(c)) == c && !IsSpace(c)
    ensures DigitOf(c) == 0 <==> c == '1'
  {
  }

  /** Counting what repeats in front of something else. */
  lemma {:induction false} CountsOnes(n: nat, rest: string)
    requires rest != [] ==> rest[0] != '1'
    ensures LeadingOnes(Ones(n) + rest) == n
  {
    var s := Ones(n) + rest;
    assert forall i :: 0 <= i < n ==> s[i] == '1';
    assert rest != [] ==> s[n] == rest[0];
  }

  lemma {:induction false} CountsZeroes(n: nat, rest: seq<nat>)
    requires rest != [] ==> rest[0] != 0
    ensures LeadingZeroes(Zeroes(n) + rest) == n
  {
    var s: seq<nat> := Zeroes(n) + rest;
    assert forall i :: 0 <= i < n ==> s[i] == 0;
    assert rest != [] ==> s[n] == rest[0];
  }

  lemma {:induction false} ZeroesAddNothing(n: nat, rest: seq<nat>, base: nat)
    requires base > 0
    ensures Val(Zeroes(n) + rest, base) == Val(rest, base)
  {
    if n == 0 {
      assert Zeroes(0) + rest == rest;
    } else {
      assert Zeroes(n) + rest == [0] + (Zeroes(n - 1) + rest);
      TopDigit(0, Zeroes(n - 1) + rest, base);
      ZeroesAddNothing(n - 1, rest, base);
    }
  }

  /** Bytes are their leading zeroes and the shortest digits of their number. */
  lemma BytesSplit(v: seq<nat>)
    requires AreDigits(v, 256)
    ensures v == Zeroes(LeadingZeroes(v)) + Digits(Val(v, 256), 256)
  {
    var n := LeadingZeroes(v);
    var rest := v[n..];
    var zeroes: seq<nat> := Zeroes(n);
    assert v == zeroes + rest;
    ZeroesAddNothing(n, rest, 256);
    DigitsOfVal(rest, 256);
  }

  /** Text without spaces is decoded as ones and the rest. */
  lemma DecodedPlain(n: nat, word: string, maxLen: int)
    requires forall i :: 0 <= i < |word| ==> !IsSpace(word[i])
    requires word != [] ==> word[0] != '1'
    ensures Decoded(Ones(n) + word, maxLen) == DecodedWord(n, word, maxLen)
  {
    hide LeadingOnes, LeadingSpaces, WordLength, IsSpace, DigitOf, DecodedWord;
    var s := Ones(n) + word;
    CountsOnes(n, word);
    OneIsNoSpace();
    assert s != [] ==> s[0] == '1' || s[0] == word[0];
    assert LeadingSpaces(s) == 0;
    assert s[0..] == s && s[n..] == word;
    assert WordLength(word) == |word|;
    assert word[..|word|] == word && word[|word|..] == [];
  }

  /** Decoding undoes encoding, for all bytes that the caller has room for. */
  lemma EncodeThenDecode(v: seq<nat>, maxLen: int)
    requires AreDigits(v, 256) && |v| <= maxLen
    ensures Decoded(Encoded(v), maxLen) == Some(v)
  {
    hide Digits, Val, Decoded, LeadingZeroes, IsSpace, Spell, AllInAlphabet, DigitsOfText;
    var n, digits := LeadingZeroes(v), Digits(Val(v, 256), 58);
    DigitsAreDigits(Val(v, 256), 58);
    SpelledBack(digits);
    SpellLength(digits);
    if Val(v, 256) == 0 { NoDigits(58); NoDigits(256); }
    var word := Spell(digits);
    DecodedPlain(n, word, maxLen);
    BytesSplit(v);
  }

  lemma SpellLength(digits: seq<nat>)
    requires AreDigits(digits, 58)
    ensures |Spell(digits)| == |digits|
  {
  }

  lemma OneIsNoSpace()
    ensures !IsSpace('1')
  {
  }

  /** Encoding undoes decoding, for every text that decodes and has no spaces around it. */
  lemma DecodeThenEncode(s: string, maxLen: int)
    requires Decoded(s, maxLen).Some? && forall i :: 0 <= i < |s| ==> !IsSpace(s[i])
    ensures AreDigits(Decoded(s, maxLen).value, 256)
    ensures Encoded(Decoded(s, maxLen).value) == s
  {
    hide Digits, Val, LeadingOnes, LeadingZeroes, LeadingSpaces, WordLength, IsSpace, DigitOf, CharOf;
    assert s != [] ==> !IsSpace(s[0]);
    assert LeadingSpaces(s) == 0 && s[0..] == s;
    var n := LeadingOnes(s);
    var body := s[n..];
    assert WordLength(body) == |body|;
    assert body[..|body|] == body;
    var digits := DigitsOfText(body);
    forall i | 0 <= i < |body| ensures digits[i] < 58 && CharOf(digits[i]) == body[i] && (digits[i] == 0 <==> body[i] == '1') {
      CharOfDigit(body[i]);
    }
    DigitsOfVal(digits, 58);
    var value := Val(digits, 58);
    DigitsAreDigits(value, 256);
    var bytes := Digits(value, 256);
    var zeroes: seq<nat> := Zeroes(n);
    ZeroesAddNothing(n, bytes, 256);
    if value == 0 { NoDigits(58); NoDigits(256); }
    CountsZeroes(n, bytes);
    assert Decoded(s, maxLen) == Some(zeroes + bytes);
    assert Spell(digits) == body;
    assert s == Ones(n) + body;
  }

  // ----- the buffer loops --------------------------------------------------

  /** The last `length` digits of the buffer are the number, without leading zero. */
  ghost predicate Tight(s: seq<nat>, length: nat, base: nat) {
    && base >= 2 && AreDigits(s, base) && length <= |s|
    && (forall k :: 0 <= k < |s| - length ==> s[k] == 0)
    && (length > 0 ==> s[|s| - length] != 0)
  }

  lemma TightDigits(s: seq<nat>, length: nat, base: nat)
    requires Tight(s, length, base)
    ensures s[|s| - length..] == Digits(Low(s, |s|, base), base)
  {
    LowZero(s, length, |s|, base);
    LowIsVal(s, length, base);
    DigitsOfVal(s[|s| - length..], base);
  }

  lemma TightStart(size: nat, base: nat)
    requires base >= 2
    ensures Tight(Zeroes(size), 0, base) && Low(Zeroes(size), size, base) == 0
  {
    LowZero(Zeroes(size), 0, size, base);
  }

  /** One round of the inner loop on digit i. */
  lemma RoundKeeps(now: seq<nat>, was: seq<nat>, i: nat, base: nat, times: nat, c: nat, carry: nat)
    requires i < |now| == |was| && base > 0 && now[|now| - 1 - i] == was[|was| - 1 - i]
    requires Low(now, i, base) + carry * Pow(base, i) == Low(was, i, base) * times + c
    ensures var n := carry + times * was[|was| - 1 - i];
            Low(now[|now| - 1 - i := n % base], i + 1, base) + n / base * Pow(base, i + 1) == Low(was, i + 1, base) * times + c
  {
    hide Pow;
    var d := was[|was| - 1 - i];
    var n, p := carry + times * d, Pow(base, i);
    LowStored(now, i, n % base, base);
    LowNext(was, i, base);
    PowNext(base, i);
    CarryStep(n, base, p);
    Distribute(carry, times * d, p);
    Regroup(times, d, p);
    Distribute(Low(was, i, base), d * p, times);
  }

  lemma LowNext(s: seq<nat>, i: nat, base: nat)
    requires i < |s| && base > 0
    ensures Low(s, i + 1, base) == Low(s, i, base) + s[|s| - 1 - i] * Pow(base, i)
  {
  }

  /** A number of full length times something still has full length. */
  lemma TopStays(now: seq<nat>, was: seq<nat>, length: nat, base: nat, times: nat, c: nat)
    requires 0 < length <= |was| == |now| && base >= 2 && times >= 1 && AreDigits(now, base)
    requires was[|was| - length] != 0 && Low(now, length, base) == Low(was, length, base) * times + c
    ensures now[|now| - length] != 0
  {
    hide Low, Pow;
    LowNext(was, length - 1, base);
    LowNext(now, length - 1, base);
    LowBound(now, length - 1, base);
    Scale(1, was[|was| - length], Pow(base, length - 1));
    Scale(1, times, Low(was, length, base));
  }

  /** Nothing is carried out of a buffer that the result fits into. */
  lemma NoCarry(low: nat, carry: nat, p: nat, total: nat)
    requires low + carry * p == total < p
    ensures carry == 0
  {
    if carry > 0 { Scale(1, carry, p); }
  }

  /** The buffer after i rounds of the inner loop. */
  ghost predicate Rounding(now: seq<nat>, was: seq<nat>, i: nat, length: nat, base: nat, times: nat, c: nat, carry: nat) {
    && |now| == |was| && i <= |was| && Tight(was, length, base) && AreDigits(now, base) && times >= 1
    && (forall k :: 0 <= k < |was| - i ==> now[k] == was[k])
    && Low(now, i, base) + carry * Pow(base, i) == Low(was, i, base) * times + c
    && (i > length && carry == 0 ==> now[|now| - i] != 0)
  }

  lemma RoundingKeeps(now: seq<nat>, was: seq<nat>, i: nat, length: nat, base: nat, times: nat, c: nat, carry: nat,
                      digit: nat, rest: nat)
    requires Rounding(now, was, i, length, base, times, c, carry) && i < |now| && (carry != 0 || i < length)
    requires var n := carry + times * now[|now| - 1 - i];
             base > 0 && digit == n % base && rest == n / base
    ensures Rounding(now[|now| - 1 - i := digit], was, i + 1, length, base, times, c, rest)
  {
    hide Low, Pow, Tight;
    var at := |now| - 1 - i;
    TightFacts(was, length, base);
    RoundKeeps(now, was, i, base, times, c, carry);
    var n := carry + times * now[at];
    Remains(n, base);
    if i >= length {
      TightZero(was, length, base, at);
      assert times * now[at] == 0;
      if n / base == 0 { QuotientZero(n, base); }
    }
  }

  lemma Remains(n: nat, base: nat)
    requires base > 0
    ensures 0 <= n % base < base && n / base >= 0
  {
    assert n == n / base * base + n % base;
    if n / base < 0 { Scale(n / base, -1, base); }
  }

  lemma TightZero(s: seq<nat>, length: nat, base: nat, k: nat)
    requires Tight(s, length, base) && k < |s| - length
    ensures s[k] == 0
  {
  }

  lemma TightFacts(s: seq<nat>, length: nat, base: nat)
    requires Tight(s, length, base)
    ensures base >= 2 && length <= |s| && AreDigits(s, base) && (length > 0 ==> s[|s| - length] != 0)
  {
  }

  lemma QuotientZero(n: nat, base: nat)
    requires base > 0 && n / base == 0
    ensures n % base == n
  {
  }

  lemma RoundingEnds(now: seq<nat>, was: seq<nat>, i: nat, length: nat, base: nat, times: nat, c: nat, carry: nat)
    requires Rounding(now, was, i, length, base, times, c, carry)
    requires i == |now| || (carry == 0 && i >= length)
    requires Low(was, |was|, base) * times + c < Pow(base, |was|)
    ensures carry == 0 && i >= length && Tight(now, i, base) && Low(now, |now|, base) == Low(was, |was|, base) * times + c
  {
    hide Low, Pow;
    if i == |now| {
      NoCarry(Low(now, i, base), carry, Pow(base, i), Low(was, i, base) * times + c);
    } else {
      LowZero(was, length, i, base);
      LowZero(was, length, |was|, base);
      LowZero(now, i, |now|, base);
    }
    if i == length && length > 0 { TopStays(now, was, length, base, times, c); }
  }

  lemma RoundingStarts(was: seq<nat>, length: nat, base: nat, times: nat, c: nat)
    requires Tight(was, length, base) && times >= 1
    ensures Rounding(was, was, 0, length, base, times, c, c)
  {
    LowStart(was, base);
  }

  /** Multiplies the number in the buffer and adds to it; no carry is left over. */
  method MultiplyAdd(buf: array<nat>, length: nat, base: nat, times: nat, c: nat) returns (i: nat)
    requires Tight(buf[..], length, base) && times >= 1
    requires Low(buf[..], buf.Length, base) * times + c < Pow(base, buf.Length)
    modifies buf
    ensures Tight(buf[..], i, base) && i >= length
    ensures Low(buf[..], buf.Length, base) == old(Low(buf[..], buf.Length, base)) * times + c
  {
    hide Low, Pow, Rounding;
    ghost var was := buf[..];
    var carry: nat := c;
    i := 0;
    RoundingStarts(was, length, base, times, c);
    while (carry != 0 || i < length) && i < buf.Length
      invariant 0 <= i <= buf.Length && Rounding(buf[..], was, i, length, base, times, c, carry)
      decreases buf.Length - i
    {
      ghost var now := buf[..];
      var at := buf.Length - 1 - i;
      ghost var before := carry;
      carry := carry + times * buf[at];
      Remains(carry, base);
      var digit: nat := carry % base;
      buf[at] := digit;
      assert buf[..] == now[at := digit];
      carry := carry / base;
      RoundingKeeps(now, was, i, length, base, times, c, before, digit, carry);
      i := i + 1;
    }
    RoundingEnds(buf[..], was, i, length, base, times, c, carry);
    assert carry == 0;
  }

  lemma LowStart(s: seq<nat>, base: nat)
    requires base > 0
    ensures Low(s, 0, base) == 0 && Pow(base, 0) == 1
  {
  }

  lemma PrefixFits(s: seq<nat>, k: nat, base: nat)
    requires base > 0 && k < |s| && AreDigits(s, base)
    ensures Val(s[..k + 1], base) == Val(s[..k], base) * base + s[k]
    ensures Val(s[..k + 1], base) < Pow(base, |s|)
  {
    hide Pow;
    assert s[..k + 1][..k] == s[..k];
    ValBound(s[..k + 1], base);
    PowOrder(base, k + 1, |s|);
  }

  lemma NoValue(base: nat)
    ensures Val([], base) == 0
  {
  }

  /** Ones for the zeroes and characters for the digits, from the first that is not zero at
      or after `from`. */
  method Translate(digits: seq<nat>, from: nat, zeroes: nat) returns (str: string, ghost at: nat)
    requires AreDigits(digits, 58) && from <= |digits|
    ensures from <= at <= |digits| && (forall k :: from <= k < at ==> digits[k] == 0) && (at < |digits| ==> digits[at] != 0)
    ensures AreDigits(digits[at..], 58) && str == Ones(zeroes) + Spell(digits[at..])
  {
    hide CharOf, DigitOf;
    var it := from;
    while it < |digits| && digits[it] == 0
      invariant from <= it <= |digits| && forall k :: from <= k < it ==> digits[k] == 0
    {
      it := it + 1;
    }
    at := it;
    str := Ones(zeroes);
    ghost var kept := digits[at..];
    while it < |digits|
      invariant at <= it <= |digits| && str == Ones(zeroes) + Spell(kept)[..it - at]
    {
      AlphabetSpelledOut(digits[it]);
      assert Spell(kept)[..it + 1 - at] == Spell(kept)[..it - at] + [CharOf(digits[it])];
      str := str + [ALPHABET[digits[it]]];
      it := it + 1;
    }
    assert Spell(kept)[..|kept|] == Spell(kept);
  }

  /** The base 58 digits of the bytes after the leading zeroes; the buffer never overflows. */
  method NumberInBase58(v: seq<nat>, zeroes: nat) returns (b58: array<nat>, length: nat)
    requires AreDigits(v, 256) && zeroes <= |v|
    ensures fresh(b58) && Tight(b58[..], length, 58)
    ensures Low(b58[..], b58.Length, 58) == Val(v[zeroes..], 256)
  {
    hide Val, Low, Pow, Tight;
    ghost var rest := v[zeroes..];
    b58 := new nat[EncodedSize(|v| - zeroes)](_ => 0);
    TightStart(b58.Length, 58);
    assert b58[..] == Zeroes(b58.Length);
    EncodeFits(|rest|);
    length := 0;
    var p := zeroes;
    NoValue(256);
    while p < |v|
      invariant zeroes <= p <= |v| && fresh(b58) && b58.Length == EncodedSize(|rest|) && Tight(b58[..], length, 58)
      invariant Low(b58[..], b58.Length, 58) == Val(rest[..p - zeroes], 256)
    {
      PrefixFits(rest, p - zeroes, 256);
      length := MultiplyAdd(b58, length, 58, 256, v[p]);
      p := p + 1;
    }
    assert rest[..|rest|] == rest;
  }

  /** The text of some bytes. */
  method EncodeBase58(v: seq<nat>) returns (str: string)
    requires AreDigits(v, 256)
    ensures str == Encoded(v)
  {
    hide Val, Digits, Low, Pow, Tight, AreDigits, Spell;
    var zeroes := 0;
    while zeroes < |v| && v[zeroes] == 0
      invariant 0 <= zeroes <= |v| && forall i :: 0 <= i < zeroes ==> v[i] == 0
    {
      zeroes := zeroes + 1;
    }
    assert zeroes == LeadingZeroes(v) by {
      assert zeroes < |v| ==> v[zeroes] != 0;
    }
    var b58, length := NumberInBase58(v, zeroes);
    assert v == Zeroes(zeroes) + v[zeroes..];
    ZeroesAddNothing(zeroes, v[zeroes..], 256);
    TightDigits(b58[..], length, 58);
    TightFacts(b58[..], length, 58);
    ghost var at;
    str, at := Translate(b58[..], b58.Length - length, zeroes);
  }

  lemma QuotientOrder(a: nat, b: nat, d: nat)
    requires d > 0 && a <= b
    ensures a / d <= b / d
  {
    var q, r := a / d, b / d;
    assert a == q * d + a % d && b == r * d + b % d;
    if q > r { Scale(r + 1, q, d); }
  }

  lemma DigitsNext(n: nat, base: nat)
    requires base >= 2
    ensures n / base >= 0 && |Digits(n, base)| == if n == 0 then 0 else |Digits(n / base, base)| + 1
    ensures n > 0 ==> n / base < n
  {
    DivFacts(n, base);
  }

  lemma {:induction false} MoreDigits(a: nat, b: nat, base: nat)
    requires base >= 2 && a <= b
    ensures |Digits(a, base)| <= |Digits(b, base)|
    decreases b
  {
    hide Digits;
    DigitsNext(a, base);
    DigitsNext(b, base);
    if a > 0 {
      QuotientOrder(a, b, base);
      MoreDigits(a / base, b / base, base);
    }
  }

  lemma {:induction false} PrefixIsLess(s: seq<nat>, k: nat, base: nat)
    requires base >= 1 && k <= |s|
    ensures Val(s[..k], base) <= Val(s, base)
  {
    if k == |s| {
      assert s[..k] == s;
    } else {
      assert s[..|s| - 1][..k] == s[..k];
      PrefixIsLess(s[..|s| - 1], k, base);
      Scale(1, base, Val(s[..|s| - 1], base));
    }
  }

  /** A prefix that is too long already decides. */
  lemma TooLong(ones: nat, word: string, k: nat, maxLen: int)
    requires k <= |word| && AllInAlphabet(word[..k]) && (ones > 0 || word != [])
    requires ones + |Digits(Val(DigitsOfText(word[..k]), 58), 256)| > maxLen
    ensures DecodedWord(ones, word, maxLen) == None
  {
    if AllInAlphabet(word) {
      assert DigitsOfText(word)[..k] == DigitsOfText(word[..k]);
      PrefixIsLess(DigitsOfText(word), k, 58);
      MoreDigits(Val(DigitsOfText(word[..k]), 58), Val(DigitsOfText(word), 58), 256);
    }
  }

  method CountSpaces(s: string, p: nat) returns (q: nat)
    requires p <= |s|
    ensures p <= q <= |s| && q - p == LeadingSpaces(s[p..])
  {
    hide IsSpace;
    q := p;
    while q < |s| && IsSpace(s[q])
      invariant p <= q <= |s| && forall i :: p <= i < q ==> IsSpace(s[i])
    {
      q := q + 1;
    }
    ghost var t, n := s[p..], LeadingSpaces(s[p..]);
    assert forall i :: 0 <= i < q - p ==> IsSpace(t[i]);
    assert q < |s| ==> t[q - p] == s[q];
  }

  /** The bytes of a text; the buffer never overflows. */
  method DecodeBase58(s: string, maxRetLen: int) returns (r: Option<seq<nat>>)
    ensures r == Decoded(s, maxRetLen)
  {
    hide LeadingOnes, LeadingSpaces, DecodedWord, WordLength, IsSpace, DigitOf;
    var start := CountSpaces(s, 0);
    assert s[0..] == s;
    ghost var t := s[start..];
    var p := start;
    var zeroes := 0;
    while p < |s| && s[p] == '1'
      invariant start <= p <= |s| && zeroes == p - start && (zeroes > 0 ==> zeroes <= maxRetLen)
      invariant forall i :: start <= i < p ==> s[i] == '1'
    {
      zeroes := zeroes + 1;
      if zeroes > maxRetLen {
        ManyOnes(s, start, zeroes, maxRetLen);
        return None;
      }
      p := p + 1;
    }
    assert zeroes == LeadingOnes(t) by {
      assert forall i :: 0 <= i < zeroes ==> t[i] == '1';
      assert p < |s| ==> t[zeroes] == s[p];
    }
    ghost var body := t[zeroes..];
    assert body == s[p..];
    ghost var word := body[..WordLength(body)];
    r := DecodeBody(s, p, zeroes, maxRetLen);
  }

  /** More leading ones than there is room for decide at once. */
  lemma ManyOnes(s: string, start: nat, zeroes: nat, maxLen: int)
    requires start == LeadingSpaces(s) <= |s| && maxLen < zeroes <= |s| - start && zeroes > 0
    requires forall i :: start <= i < start + zeroes ==> s[i] == '1'
    ensures Decoded(s, maxLen) == None
  {
    hide Digits, Val, WordLength, LeadingSpaces;
    var t := s[start..];
    assert forall i :: 0 <= i < zeroes ==> t[i] == '1';
    assert LeadingOnes(t) < |t| ==> t[LeadingOnes(t)] != '1';
    assert LeadingOnes(t) >= zeroes;
  }

  /** The first k characters of the word have been read into the buffer. */
  ghost predicate ReadSoFar(word: string, k: nat, buf: seq<nat>, length: nat) {
    && k <= |word| && AllInAlphabet(word[..k])
    && Tight(buf, length, 256)
    && Low(buf, |buf|, 256) == Val(DigitsOfText(word[..k]), 58)
  }

  lemma NothingRead(word: string, size: nat)
    ensures ReadSoFar(word, 0, Zeroes(size), 0)
  {
    TightStart(size, 256);
    assert DigitsOfText(word[..0]) == [];
  }

  /** One more character fits into a buffer with room for the whole text. */
  lemma CanRead(word: string, k: nat, buf: seq<nat>, length: nat, room: nat)
    requires ReadSoFar(word, k, buf, length) && k < |word| <= room && DigitOf(word[k]) >= 0
    requires Pow(58, room) <= Pow(256, |buf|)
    ensures Tight(buf, length, 256) && Low(buf, |buf|, 256) * 58 + DigitOf(word[k]) < Pow(256, |buf|)
  {
    hide Low, Val, Pow, Tight, DigitsOfText, AllInAlphabet, DigitOf;
    TextGrows(word, k, room);
  }

  lemma ReadOn(word: string, k: nat, buf: seq<nat>, length: nat, now: seq<nat>, longer: nat)
    requires ReadSoFar(word, k, buf, length) && k < |word| && DigitOf(word[k]) >= 0
    requires Tight(now, longer, 256) && Low(now, |now|, 256) == Low(buf, |buf|, 256) * 58 + DigitOf(word[k])
    ensures ReadSoFar(word, k + 1, now, longer)
  {
    hide Low, Val, Pow, Tight, DigitsOfText, AllInAlphabet, DigitOf;
    TextGrows(word, k, |word|);
  }

  /** The bytes of the word at p0; the buffer never overflows. */
  method NumberInBytes(s: string, p0: nat, zeroes: nat, maxRetLen: int, ghost word: string)
    returns (ok: bool, p: nat, b256: array<nat>, length: nat)
    requires p0 <= |s| && word == s[p0..][..WordLength(s[p0..])]
    ensures fresh(b256)
    ensures !ok ==> DecodedWord(zeroes, word, maxRetLen) == None
    ensures ok ==> p == p0 + |word| && ReadSoFar(word, |word|, b256[..], length) && (zeroes + length <= maxRetLen || word == [])
  {
    hide WordLength, IsSpace, DigitOf, Val, Low, Pow, Tight, DecodedWord, ReadSoFar, Decoded;
    ghost var body := s[p0..];
    b256 := new nat[DecodedSize(|s| - p0)](_ => 0);
    NothingRead(word, b256.Length);
    assert b256[..] == Zeroes(b256.Length);
    DecodeFits(|body|);
    length := 0;
    p := p0;
    while p < |s| && !IsSpace(s[p])
      invariant p0 <= p <= |s| && p - p0 <= |word| && fresh(b256) && b256.Length == DecodedSize(|body|)
      invariant ReadSoFar(word, p - p0, b256[..], length)
      invariant zeroes + length <= maxRetLen || p == p0
    {
      ghost var k, was, before := p - p0, b256[..], length;
      InsideWord(body, k);
      assert s[p] == body[k] == word[k];
      var ch := DigitOf(s[p]);
      if ch < 0 {
        NotInAlphabet(zeroes, word, k, maxRetLen);
        return false, p, b256, length;
      }
      CanRead(word, k, was, length, |body|);
      length := MultiplyAdd(b256, length, 256, 58, ch);
      ReadOn(word, k, was, before, b256[..], length);
      if length + zeroes > maxRetLen {
        BufferTooLong(b256[..], length, zeroes, word, k + 1, maxRetLen);
        return false, p, b256, length;
      }
      p := p + 1;
    }
    assert p < |s| ==> s[p] == body[p - p0];
    WordEnds(body, p - p0);
    ok := true;
  }

  /** What follows the ones. */
  method DecodeBody(s: string, p0: nat, zeroes: nat, maxRetLen: int) returns (r: Option<seq<nat>>)
    requires p0 <= |s| && (p0 < |s| ==> s[p0] != '1') && (zeroes > 0 ==> zeroes <= maxRetLen)
    ensures var body := s[p0..];
            var n := WordLength(body);
            r == if LeadingSpaces(body[n..]) < |body| - n then None else DecodedWord(zeroes, body[..n], maxRetLen)
  {
    hide LeadingSpaces, WordLength, Val, Digits, Low, Pow, Tight, DecodedWord, ReadSoFar;
    ghost var body := s[p0..];
    ghost var word := body[..WordLength(body)];
    var ok, p, b256, length := NumberInBytes(s, p0, zeroes, maxRetLen, word);
    if !ok { return None; }
    var q := CountSpaces(s, p);
    assert s[p..] == body[|word|..];
    if q < |s| { return None; }
    BufferIsDecoded(b256[..], length, zeroes, word, maxRetLen);
    r := Some(Zeroes(zeroes) + b256[..][b256.Length - length..]);
  }

  lemma BufferIsDecoded(buf: seq<nat>, length: nat, zeroes: nat, word: string, maxLen: int)
    requires ReadSoFar(word, |word|, buf, length)
    requires zeroes + length <= maxLen || word == []
    requires zeroes > 0 ==> zeroes <= maxLen
    ensures length <= |buf| && DecodedWord(zeroes, word, maxLen) == Some(Zeroes(zeroes) + buf[|buf| - length..])
  {
    hide Low, Val, DigitsOfText, AllInAlphabet, Digits, Tight;
    TightFacts(buf, length, 256);
    TightDigits(buf, length, 256);
    assert word[..|word|] == word;
    if word == [] {
      NoText();
      assert DigitsOfText("") == [] by { NoTextDigits(); }
      NoValue(58);
      NoDigits(58);
      NoDigits(256);
    }
  }

  lemma NoTextDigits()
    ensures AllInAlphabet("") && DigitsOfText("") == []
  {
  }

  lemma BufferTooLong(buf: seq<nat>, length: nat, zeroes: nat, word: string, k: nat, maxLen: int)
    requires 0 < k <= |word| && ReadSoFar(word, k, buf, length) && zeroes + length > maxLen
    ensures DecodedWord(zeroes, word, maxLen) == None
  {
    hide Low, Val, DigitsOfText, AllInAlphabet, DecodedWord, Digits, Tight;
    TightFacts(buf, length, 256);
    TightDigits(buf, length, 256);
    assert |buf[|buf| - length..]| == length;
    TooLong(zeroes, word, k, maxLen);
  }

  lemma NoText()
    ensures AllInAlphabet("")
  {
  }

  lemma InsideWord(body: string, k: nat)
    requires k < |body| && k <= WordLength(body) && !IsSpace(body[k])
    ensures k < WordLength(body)
  {
  }

  lemma WordEnds(body: string, k: nat)
    requires k <= WordLength(body) && (k < |body| ==> IsSpace(body[k]))
    ensures k == WordLength(body)
  {
  }

  lemma NotInAlphabet(ones: nat, word: string, k: nat, maxLen: int)
    requires k < |word| && DigitOf(word[k]) < 0
    ensures DecodedWord(ones, word, maxLen) == None
  {
  }

  /** One more character: the number stays within what the buffer holds. */
  lemma TextGrows(word: string, k: nat, room: nat)
    requires k < |word| <= room && AllInAlphabet(word[..k]) && DigitOf(word[k]) >= 0
    ensures AllInAlphabet(word[..k + 1])
    ensures Val(DigitsOfText(word[..k + 1]), 58) == Val(DigitsOfText(word[..k]), 58) * 58 + DigitOf(word[k])
    ensures Val(DigitsOfText(word[..k + 1]), 58) < Pow(58, room)
  {
    hide Pow, IsSpace;
    var t := word[..k + 1];
    forall i | 0 <= i < |t| ensures 0 <= DigitOf(t[i]) < 58 {
      if i < k { assert t[i] == word[..k][i]; }
      CharOfDigit(t[i]);
    }
    var d := DigitsOfText(t);
    assert d[..k] == DigitsOfText(word[..k]);
    assert d[..k + 1] == d;
    PrefixFits(d, k, 58);
    PowOrder(58, k + 1, room);
  }
}
