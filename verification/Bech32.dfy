/** Bech32 and Bech32m text. */
module Bech32 {
  import opened Common
  import opened PolyModSteps
  import opened PolyModRemainder

  const BECH32: bv32 := 1
  const BECH32M: bv32 := 0x2bc830a3
  const MAX_LENGTH: nat := 1023

  /** CHARSET, a quarter at a time. */
  function FirstChars(v: bv32): char {
    if v == 0 then 'q' else if v == 1 then 'p' else if v == 2 then 'z' else if v == 3 then 'r'
    else if v == 4 then 'y' else if v == 5 then '9' else if v == 6 then 'x' else '8'
  }

  function SecondChars(v: bv32): char {
    if v == 8 then 'g' else if v == 9 then 'f' else if v == 10 then '2' else if v == 11 then 't'
    else if v == 12 then 'v' else if v == 13 then 'd' else if v == 14 then 'w' else '0'
  }

  function ThirdChars(v: bv32): char {
    if v == 16 then 's' else if v == 17 then '3' else if v == 18 then 'j' else if v == 19 then 'n'
    else if v == 20 then '5' else if v == 21 then '4' else if v == 22 then 'k' else 'h'
  }

  function FourthChars(v: bv32): char {
    if v == 24 then 'c' else if v == 25 then 'e' else if v == 26 then '6' else if v == 27 then 'm'
    else if v == 28 then 'u' else if v == 29 then 'a' else if v == 30 then '7' else 'l'
  }

  function CharOf(v: bv32): char {
    if v < 8 then FirstChars(v) else if v < 16 then SecondChars(v) else if v < 24 then ThirdChars(v) else FourthChars(v)
  }

  /** CHARSET_REV of a character that is not upper case, a quarter of the values at a time. */
  function FirstValues(c: char): Option<bv32> {
    if c == 'q' then Some(0) else if c == 'p' then Some(1) else if c == 'z' then Some(2) else if c == 'r' then Some(3)
    else if c == 'y' then Some(4) else if c == '9' then Some(5) else if c == 'x' then Some(6) else if c == '8' then Some(7) else None
  }

  function SecondValues(c: char): Option<bv32> {
    if c == 'g' then Some(8) else if c == 'f' then Some(9) else if c == '2' then Some(10) else if c == 't' then Some(11)
    else if c == 'v' then Some(12) else if c == 'd' then Some(13) else if c == 'w' then Some(14) else if c == '0' then Some(15) else None
  }

  function ThirdValues(c: char): Option<bv32> {
    if c == 's' then Some(16) else if c == '3' then Some(17) else if c == 'j' then Some(18) else if c == 'n' then Some(19)
    else if c == '5' then Some(20) else if c == '4' then Some(21) else if c == 'k' then Some(22) else if c == 'h' then Some(23) else None
  }

  function FourthValues(c: char): Option<bv32> {
    if c == 'c' then Some(24) else if c == 'e' then Some(25) else if c == '6' then Some(26) else if c == 'm' then Some(27)
    else if c == 'u' then Some(28) else if c == 'a' then Some(29) else if c == '7' then Some(30) else if c == 'l' then Some(31) else None
  }

  function LowerRev(c: char): Option<bv32> {
    if FirstValues(c).Some? then FirstValues(c)
    else if SecondValues(c).Some? then SecondValues(c)
    else if ThirdValues(c).Some? then ThirdValues(c)
    else FourthValues(c)
  }

  function LowerCase(c: char): char {
    if 'A' <= c <= 'Z' then (c - 'A') + 'a' else c
  }

  /** CHARSET_REV, where upper case stands for the same values. */
  function Rev(c: char): Option<bv32> {
    LowerRev(LowerCase(c))
  }

  predicate IsPrintable(c: char) { 33 <= c as int <= 126 }

  predicate IsLower(c: char) { 'a' <= c <= 'z' }

  predicate IsUpper(c: char) { 'A' <= c <= 'Z' }

  /** A character that stands for values only in its own quarter. */
  ghost predicate GoodChar(c: char) {
    IsPrintable(c) && !IsUpper(c) && c != '1'
  }

  lemma FirstCharsRight(v: bv32)
    requires v < 8
    ensures GoodChar(FirstChars(v)) && FirstValues(FirstChars(v)) == Some(v)
    ensures SecondValues(FirstChars(v)) == None
    ensures ThirdValues(FirstChars(v)) == None
    ensures FourthValues(FirstChars(v)) == None
  {
  }

  lemma FirstValuesRight(c: char)
    requires FirstValues(c).Some?
    ensures GoodChar(c) && var v := FirstValues(c).value; 0 <= v < 8 && FirstChars(v) == c
  {
  }

  lemma SecondCharsRight(v: bv32)
    requires 8 <= v < 16
    ensures GoodChar(SecondChars(v)) && SecondValues(SecondChars(v)) == Some(v)
    ensures FirstValues(SecondChars(v)) == None
    ensures ThirdValues(SecondChars(v)) == None
    ensures FourthValues(SecondChars(v)) == None
  {
  }

  lemma SecondValuesRight(c: char)
    requires SecondValues(c).Some?
    ensures GoodChar(c) && var v := SecondValues(c).value; 8 <= v < 16 && SecondChars(v) == c
  {
  }

  lemma ThirdCharsRight(v: bv32)
    requires 16 <= v < 24
    ensures GoodChar(ThirdChars(v)) && ThirdValues(ThirdChars(v)) == Some(v)
    ensures FirstValues(ThirdChars(v)) == None
    ensures SecondValues(ThirdChars(v)) == None
    ensures FourthValues(ThirdChars(v)) == None
  {
  }

  lemma ThirdValuesRight(c: char)
    requires ThirdValues(c).Some?
    ensures GoodChar(c) && var v := ThirdValues(c).value; 16 <= v < 24 && ThirdChars(v) == c
  {
  }

  lemma FourthCharsRight(v: bv32)
    requires 24 <= v < 32
    ensures GoodChar(FourthChars(v)) && FourthValues(FourthChars(v)) == Some(v)
    ensures FirstValues(FourthChars(v)) == None
    ensures SecondValues(FourthChars(v)) == None
    ensures ThirdValues(FourthChars(v)) == None
  {
  }

  lemma FourthValuesRight(c: char)
    requires FourthValues(c).Some?
    ensures GoodChar(c) && var v := FourthValues(c).value; 24 <= v < 32 && FourthChars(v) == c
  {
  }

  lemma CharIsRight(v: bv32)
    requires IsValue(v)
    ensures GoodChar(CharOf(v)) && LowerRev(CharOf(v)) == Some(v)
  {
    hide FirstChars, SecondChars, ThirdChars, FourthChars, FirstValues, SecondValues, ThirdValues, FourthValues, GoodChar;
    ValueRange(v);
    if v < 8 { FirstCharsRight(v); }
    else if v < 16 { SecondCharsRight(v); }
    else if v < 24 { ThirdCharsRight(v); }
    else { FourthCharsRight(v); }
  }

  /** The symbols in the order of their values. */
  const CHARSET: string := "qpzry9x8gf2tvdw0s3jn54khce6mua7l"

  lemma CharsetIs(v: bv32)
    requires v < 32
    ensures CharOf(v) == CHARSET[v as int]
  {
    hide FirstChars, SecondChars, ThirdChars, FourthChars;
    if v < 8 { FirstCharset(v); } else if v < 16 { SecondCharset(v); } else if v < 24 { ThirdCharset(v); } else { FourthCharset(v); }
  }

  lemma FirstCharset(v: bv32)
    requires v < 8
    ensures FirstChars(v) == CHARSET[v as int]
  {
  }

  lemma SecondCharset(v: bv32)
    requires 8 <= v < 16
    ensures SecondChars(v) == CHARSET[v as int]
  {
  }

  lemma ThirdCharset(v: bv32)
    requires 16 <= v < 24
    ensures ThirdChars(v) == CHARSET[v as int]
  {
  }

  lemma FourthCharset(v: bv32)
    requires 24 <= v < 32
    ensures FourthChars(v) == CHARSET[v as int]
  {
  }

  lemma ValueRange(v: bv32)
    ensures IsValue(v) <==> v < 32
  {
  }

  lemma RevIsRight(c: char)
    requires LowerRev(c).Some?
    ensures IsValue(LowerRev(c).value) && CharOf(LowerRev(c).value) == c && GoodChar(c)
  {
    hide FirstChars, SecondChars, ThirdChars, FourthChars, FirstValues, SecondValues, ThirdValues, FourthValues, GoodChar, IsValue;
    ValueRange(LowerRev(c).value);
    if FirstValues(c).Some? { FirstValuesRight(c); }
    else if SecondValues(c).Some? { SecondValuesRight(c); }
    else if ThirdValues(c).Some? { ThirdValuesRight(c); }
    else { FourthValuesRight(c); }
  }

  // ----- what the conversions are ------------------------------------------

  function ByteOf(c: char): bv8 {
    (c as int % 256) as bv8
  }

  function HighBits(c: char): bv32 { (ByteOf(c) >> 5) as bv32 }

  function LowBits(c: char): bv32 { (ByteOf(c) & 0x1f) as bv32 }

  /** High bits, a zero, low bits. */
  function Expanded(hrp: string): seq<bv32> {
    seq(|hrp|, (i: nat) requires i < |hrp| => HighBits(hrp[i])) + [0] + seq(|hrp|, (i: nat) requires i < |hrp| => LowBits(hrp[i]))
  }

  function Chars(values: seq<bv32>): string {
    seq(|values|, (i: nat) requires i < |values| => CharOf(values[i]))
  }

  predicate AllValues(values: seq<bv32>) {
    forall i :: 0 <= i < |values| ==> IsValue(values[i])
  }

  /** What Encode answers; the empty string stands for values that are too large. */
  function Encoded(hrp: string, values: seq<bv32>, constant: bv32): string {
    if AllValues(values) then hrp + "1" + Chars(values + Checksum(Expanded(hrp) + values, constant)) else ""
  }

  /** The position of the last 1, or -1. */
  function LastOne(s: string): (p: int)
    ensures -1 <= p < |s| && (p >= 0 ==> s[p] == '1') && forall i :: p < i < |s| ==> s[i] != '1'
  {
    if s == [] then -1 else if s[|s| - 1] == '1' then |s| - 1 else LastOne(s[..|s| - 1])
  }

  predicate AllPrintable(s: string) { forall i :: 0 <= i < |s| ==> IsPrintable(s[i]) }

  predicate MixedCase(s: string) {
    (exists i :: 0 <= i < |s| && IsLower(s[i])) && (exists i :: 0 <= i < |s| && IsUpper(s[i]))
  }

  predicate AllSymbols(s: string) { forall i :: 0 <= i < |s| ==> Rev(s[i]).Some? }

  function Symbols(s: string): seq<bv32>
    requires AllSymbols(s)
  {
    seq(|s|, (i: nat) requires i < |s| && AllSymbols(s) => Rev(s[i]).value)
  }

  function Lower(s: string): string {
    seq(|s|, (i: nat) requires i < |s| => LowerCase(s[i]))
  }

  /** What Decode answers. */
  function Decoded(s: string, constant: bv32): Option<(string, seq<bv32>)> {
    var pos := LastOne(s);
    if !AllPrintable(s) || MixedCase(s) then None
    else if |s| > MAX_LENGTH || pos <= 0 || pos + 7 > |s| then None
    else if !AllSymbols(s[pos + 1..]) then None
    else
      var values := Symbols(s[pos + 1..]);
      if Fold(1, Expanded(Lower(s[..pos])) + values) != constant then None
      else Some((Lower(s[..pos]), values[..|values| - 6]))
  }

  // ----- round trips -------------------------------------------------------

  lemma BitsAreValues(c: char)
    ensures IsValue(HighBits(c)) && IsValue(LowBits(c))
  {
    ByteBits(ByteOf(c));
  }

  lemma ByteBits(b: bv8)
    ensures IsValue((b >> 5) as bv32) && IsValue((b & 0x1f) as bv32)
  {
  }

  lemma ExpandedAreValues(hrp: string)
    ensures AreValues(Expanded(hrp))
  {
    hide IsValue, HighBits, LowBits;
    OneIsSmall();
    forall i | 0 <= i < |hrp| ensures IsValue(HighBits(hrp[i])) && IsValue(LowBits(hrp[i])) { BitsAreValues(hrp[i]); }
  }

  lemma CharsAreRight(values: seq<bv32>)
    requires AllValues(values)
    ensures AllSymbols(Chars(values)) && Symbols(Chars(values)) == values
    ensures AllPrintable(Chars(values)) && forall i :: 0 <= i < |values| ==> !IsUpper(Chars(values)[i]) && Chars(values)[i] != '1'
  {
    hide IsValue, CharOf, LowerRev;
    forall i | 0 <= i < |values|
      ensures Rev(Chars(values)[i]) == Some(values[i]) && GoodChar(Chars(values)[i])
    {
      CharIsRight(values[i]);
    }
  }

  lemma LastOneIs(s: string, p: nat)
    requires p < |s| && s[p] == '1' && forall i :: p < i < |s| ==> s[i] != '1'
    ensures LastOne(s) == p
  {
    hide LastOne;
  }

  lemma OneSeparates(hrp: string, mid: string, data: string)
    requires |mid| == 1 && mid[0] == '1' && forall i :: 0 <= i < |data| ==> data[i] != '1'
    ensures LastOne(hrp + mid + data) == |hrp|
  {
    hide LastOne;
    var front := hrp + mid;
    var s := front + data;
    assert |front| == |hrp| + 1 && front[|hrp|] == '1' && s[|hrp|] == front[|hrp|];
    forall i | |hrp| < i < |s| ensures s[i] != '1' {
      assert s[i] == data[i - |front|];
    }
    LastOneIs(s, |hrp|);
  }

  /** Decoding undoes encoding, within the length limit. */
  lemma EncodeThenDecode(hrp: string, values: seq<bv32>, constant: bv32)
    requires hrp != [] && AllPrintable(hrp) && (forall i :: 0 <= i < |hrp| ==> !IsUpper(hrp[i]))
    requires AllValues(values) && |hrp| + |values| + 7 <= MAX_LENGTH && Small(constant)
    ensures Decoded(Encoded(hrp, values, constant), constant) == Some((hrp, values))
  {
    hide IsValue, CharOf, LowerRev, Expanded, Checksum, Fold, LastOne, Small, Chars, Symbols, AllSymbols;
    var enc := Expanded(hrp) + values;
    var chk := Checksum(enc, constant);
    ExpandedAreValues(hrp);
    ChecksumFits(enc, constant);
    var all := values + chk;
    assert AllValues(all);
    CharsAreRight(all);
    var data := Chars(all);
    CharsLength(all);
    OneSeparates(hrp, "1", data);
    var s := hrp + "1" + data;
    assert s[..|hrp|] == hrp && s[|hrp| + 1..] == data;
    assert Lower(hrp) == hrp;
    assert forall i :: |hrp| < i < |s| ==> s[i] == data[i - |hrp| - 1];
    assert Expanded(hrp) + all == enc + chk;
    assert all[..|all| - 6] == values;
  }

  lemma CharsLength(values: seq<bv32>)
    ensures |Chars(values)| == |values|
  {
  }

  lemma SymbolsAreRight(data: string)
    requires AllSymbols(data)
    ensures |Symbols(data)| == |data| && AllValues(Symbols(data)) && Chars(Symbols(data)) == Lower(data)
  {
    hide IsValue, CharOf, LowerRev;
    forall i | 0 <= i < |data|
      ensures IsValue(Symbols(data)[i]) && CharOf(Symbols(data)[i]) == LowerCase(data[i])
    {
      RevIsRight(LowerCase(data[i]));
    }
  }

  /** Encoding undoes decoding, up to case. */
  lemma DecodeThenEncode(s: string, constant: bv32)
    requires Decoded(s, constant).Some?
    ensures var d := Decoded(s, constant).value; Encoded(d.0, d.1, constant) == Lower(s)
  {
    hide IsValue, CharOf, LowerRev, Expanded, Checksum, Fold, LastOne, Chars, Symbols, AllSymbols, AllPrintable, MixedCase;
    var pos := LastOne(s);
    var data := s[pos + 1..];
    var all := Symbols(data);
    SymbolsAreRight(data);
    var n := |all| - 6;
    var values, chk := all[..n], all[n..];
    var enc := Expanded(Lower(s[..pos])) + values;
    assert Expanded(Lower(s[..pos])) + all == enc + chk;
    assert all == values + chk;
    ChecksumIsOnly(enc, chk, constant);
    assert s == s[..pos] + "1" + data;
    assert Lower(s) == Lower(s[..pos]) + "1" + Lower(data);
  }

  /** Changing the value of one symbol after the separator is always detected. */
  lemma OneSymbolChanged(s: string, i: nat, c: char, constant: bv32)
    requires Decoded(s, constant).Some? && LastOne(s) < i < |s|
    requires Rev(c).Some? && Rev(c) != Rev(s[i])
    ensures Decoded(s[i := c], constant) == None
  {
    hide IsValue, CharOf, LowerRev, Expanded, Fold, LastOne, Symbols, AllPrintable, MixedCase;
    var t, pos := s[i := c], LastOne(s);
    RevIsRight(LowerCase(c));
    assert c != '1';
    assert forall k :: pos < k < |t| ==> t[k] == if k == i then c else s[k];
    LastOneIs(t, pos);
    var data, k := s[pos + 1..], i - pos - 1;
    assert t[pos + 1..] == data[k := c] && t[..pos] == s[..pos];
    SymbolsAreRight(data);
    assert AllSymbols(data[k := c]);
    SymbolChanges(data, k, c);
    var hrp := Expanded(Lower(s[..pos]));
    ExpandedAreValues(Lower(s[..pos]));
    var v := hrp + Symbols(data);
    assert hrp + Symbols(data)[k := Rev(c).value] == v[|hrp| + k := Rev(c).value];
    OneChangeShows(1, v, |hrp| + k, Rev(c).value);
  }

  lemma SymbolChanges(data: string, k: nat, c: char)
    requires AllSymbols(data) && k < |data| && Rev(c).Some? && AllSymbols(data[k := c])
    ensures |Symbols(data)| == |data| && Symbols(data[k := c]) == Symbols(data)[k := Rev(c).value] && Symbols(data)[k] == Rev(data[k]).value
  {
  }

  /** No text is both. */
  lemma NotBoth(s: string)
    ensures Decoded(s, BECH32) == None || Decoded(s, BECH32M) == None
  {
    hide IsValue, CharOf, LowerRev, Expanded, Fold, LastOne, Symbols, AllPrintable, MixedCase;
  }

  // ----- published texts ---------------------------------------------------

  /** The register after the prefix "a" and six zeroes. */
  lemma PrefixA()
    ensures Expanded("a") == [3, 0, 1] && Fold(1, [3, 0, 1] + Zeroes(6)) == 0x15cc_fe9e
  {
    hide Step, HighBits, LowBits, Fold;
    LetterBits();
    var v: seq<bv32> := [3, 0, 1, 0, 0, 0, 0, 0, 0];
    assert [3, 0, 1] + Zeroes(6) == v;
    PrefixSteps(v, 0);
    PrefixSteps(v, 1);
    PrefixSteps(v, 2);
    PrefixSteps(v, 3);
    PrefixSteps(v, 4);
    PrefixSteps(v, 5);
    PrefixSteps(v, 6);
    PrefixSteps(v, 7);
    PrefixSteps(v, 8);
    assert v[..9] == v;
    FirstSteps();
    LastSteps();
  }

  lemma LetterBits()
    ensures HighBits('a') == 3 && LowBits('a') == 1
  {
  }

  lemma PrefixSteps(v: seq<bv32>, i: nat)
    requires i < |v|
    ensures Fold(1, v[..0]) == 1 && Fold(1, v[..i + 1]) == Step(Fold(1, v[..i]), v[i])
  {
    hide Step;
    FoldTo(v, i);
  }

  lemma FirstSteps()
    ensures Step(1, 3) == 0x23 && Step(0x23, 0) == 0x460 && Step(0x460, 1) == 0x8c01 && Step(0x8c01, 0) == 0x11_8020
    ensures Step(0x11_8020, 0) == 0x230_0400
  {
  }

  lemma LastSteps()
    ensures Step(0x230_0400, 0) == 0x3d6a_d7b2 && Step(0x3d6a_d7b2, 0) == 0x2fd_30b9
    ensures Step(0x2fd_30b9, 0) == 0x24cc_4092 && Step(0x24cc_4092, 0) == 0x15cc_fe9e
  {
  }

  lemma TextOf(constant: bv32, mod: bv32, text: string)
    requires mod == Xor(0x15cc_fe9e, constant)
    requires |text| == 6 && forall i :: 0 <= i < 6 ==> text[i] == CharOf(Unpacked(mod, i))
    ensures Encoded("a", [], constant) == "a1" + text
  {
    hide Step, Expanded, Fold, CharOf, Unpacked, Xor;
    PrefixA();
    var none: seq<bv32> := [];
    var chk := Checksum(Expanded("a") + none, constant);
    assert Expanded("a") + none == [3, 0, 1] && none + chk == chk;
    assert Chars(chk) == text;
    assert "a" + "1" == "a1";
  }

  /** The shortest text of each variant (BIP 173 and BIP 350). */
  lemma ShortestTexts()
    ensures Encoded("a", [], BECH32) == "a12uel5l" && Encoded("a", [], BECH32M) == "a1lqfn3a"
  {
    hide Encoded, CharOf;
    FirstText();
    SecondText();
    assert "a1" + "2uel5l" == "a12uel5l" && "a1" + "lqfn3a" == "a1lqfn3a";
  }

  lemma FirstText()
    ensures Encoded("a", [], BECH32) == "a1" + "2uel5l"
  {
    hide Encoded;
    FirstSymbols();
    TextOf(BECH32, 0x15cc_fe9f, "2uel5l");
  }

  lemma FirstSymbols()
    ensures Xor(0x15cc_fe9e, BECH32) == 0x15cc_fe9f
    ensures forall i :: 0 <= i < 6 ==> "2uel5l"[i] == CharOf(Unpacked(0x15cc_fe9f, i))
  {
  }

  lemma SecondText()
    ensures Encoded("a", [], BECH32M) == "a1" + "lqfn3a"
  {
    hide Encoded;
    SecondSymbols();
    TextOf(BECH32M, 0x3e04_ce3d, "lqfn3a");
  }

  lemma SecondSymbols()
    ensures Xor(0x15cc_fe9e, BECH32M) == 0x3e04_ce3d
    ensures forall i :: 0 <= i < 6 ==> "lqfn3a"[i] == CharOf(Unpacked(0x3e04_ce3d, i))
  {
  }

  // ----- the conversions ---------------------------------------------------

  /** The remainder of the polynomial of the values by the generator. */
  method PolyMod(v: seq<bv32>) returns (c: bv32)
    ensures c == Fold(1, v)
    ensures AreValues(v) ==> Small(c) && exists q :: IsRemainder(v, q, c)
  {
    hide Reduce, Shift, IsRemainder;
    c := 1;
    for i := 0 to |v|
      invariant c == Fold(1, v[..i])
    {
      FoldTo(v, i);
      c := Shift(c) ^ v[i] ^ Reduce(c);
    }
    assert v[..|v|] == v;
    if AreValues(v) {
      var q := FoldIsRemainder(v);
      OneIsSmall();
      FoldSmall(1, v);
    }
  }

  lemma FoldTo(v: seq<bv32>, i: nat)
    requires i < |v|
    ensures Fold(1, v[..i + 1]) == Step(Fold(1, v[..i]), v[i])
  {
    assert v[..i + 1] == v[..i] + [v[i]];
    FoldNext(1, v[..i], v[i]);
  }

  method ExpandHRP(hrp: string) returns (ret: seq<bv32>)
    ensures ret == Expanded(hrp)
  {
    hide HighBits, LowBits;
    ret := Zeroes(|hrp| * 2 + 1);
    for i := 0 to |hrp|
      invariant |ret| == |hrp| * 2 + 1 && ret[|hrp|] == 0
      invariant forall k :: 0 <= k < i ==> ret[k] == HighBits(hrp[k]) && ret[k + |hrp| + 1] == LowBits(hrp[k])
    {
      ret := ret[i := HighBits(hrp[i])];
      ret := ret[i + |hrp| + 1 := LowBits(hrp[i])];
    }
  }

  method VerifyChecksum(hrp: string, values: seq<bv32>, constant: bv32) returns (ok: bool)
    ensures ok <==> Fold(1, Expanded(hrp) + values) == constant
  {
    var enc := ExpandHRP(hrp);
    var c := PolyMod(enc + values);
    ok := c == constant;
  }

  method CreateChecksum(hrp: string, values: seq<bv32>, constant: bv32) returns (ret: seq<bv32>)
    ensures ret == Checksum(Expanded(hrp) + values, constant)
  {
    hide Unpacked, Fold;
    var enc := ExpandHRP(hrp);
    var c := PolyMod(enc + values + Zeroes(6));
    var mod := Xor(c, constant);
    ret := [];
    for i := 0 to 6
      invariant ret == Checksum(enc + values, constant)[..i]
    {
      ret := ret + [Unpacked(mod, i)];
    }
  }

  method Encode(hrp: string, values: seq<bv32>, constant: bv32) returns (ret: string)
    ensures ret == Encoded(hrp, values, constant)
  {
    hide CharOf, IsValue, Checksum;
    var checksum := CreateChecksum(hrp, values, constant);
    var combined := values + checksum;
    ret := hrp + "1";
    for i := 0 to |combined|
      invariant ret == hrp + "1" + Chars(combined[..i])
      invariant forall k :: 0 <= k < i ==> IsValue(combined[k])
    {
      ValueRange(combined[i]);
      if combined[i] >= 32 {
        ChecksumValues(Expanded(hrp) + values, constant);
        assert i < |values| ==> combined[i] == values[i];
        return "";
      }
      assert Chars(combined[..i + 1]) == Chars(combined[..i]) + [CharOf(combined[i])];
      ret := ret + [CharOf(combined[i])];
    }
    assert combined[..|combined|] == combined;
    assert forall k :: 0 <= k < |values| ==> values[k] == combined[k];
  }

  lemma ChecksumValues(enc: seq<bv32>, constant: bv32)
    ensures |Checksum(enc, constant)| == 6 && AllValues(Checksum(enc, constant))
  {
    hide IsValue, Unpacked;
    var mod := Xor(Fold(1, enc + Zeroes(6)), constant);
    forall i | 0 <= i < 6 ensures IsValue(Unpacked(mod, i)) { UnpackedAreValues(mod, i); }
  }

  /** Whether every character is printable, and letters are of one case only. */
  method LooksRight(str: string) returns (ok: bool)
    ensures ok <==> AllPrintable(str) && !MixedCase(str)
  {
    var lower, upper := false, false;
    for i := 0 to |str|
      invariant forall k :: 0 <= k < i ==> IsPrintable(str[k])
      invariant lower <==> exists k :: 0 <= k < i && IsLower(str[k])
      invariant upper <==> exists k :: 0 <= k < i && IsUpper(str[k])
    {
      var c := str[i];
      if c as int < 33 || c as int > 126 { return false; }
      if 'a' <= c <= 'z' { lower := true; }
      if 'A' <= c <= 'Z' { upper := true; }
    }
    ok := !(lower && upper);
  }

  /** Text to prefix and values, one check after the other. */
  method Decode(str: string, constant: bv32) returns (r: Option<(string, seq<bv32>)>)
    ensures r == Decoded(str, constant)
  {
    hide LowerRev, IsValue, LastOne, Fold, Expanded, Symbols, AllSymbols, CharOf, AllPrintable, MixedCase;
    var right := LooksRight(str);
    if !right { return None; }
    var pos := FindLastOne(str);
    if |str| > MAX_LENGTH || pos < 0 || pos == 0 || pos + 7 > |str| { return None; }
    var ok, values := ReadSymbols(str, pos + 1);
    if !ok { return None; }
    var hrp := ToLower(str[..pos]);
    var valid := VerifyChecksum(hrp, values, constant);
    if !valid { return None; }
    SymbolCount(str[pos + 1..]);
    r := Some((hrp, values[..|values| - 6]));
  }

  lemma SymbolCount(s: string)
    requires AllSymbols(s)
    ensures |Symbols(s)| == |s|
  {
  }

  method FindLastOne(s: string) returns (pos: int)
    ensures pos == LastOne(s)
  {
    hide LastOne;
    pos := |s| - 1;
    while pos >= 0 && s[pos] != '1'
      invariant -1 <= pos < |s| && forall i :: pos < i < |s| ==> s[i] != '1'
    {
      pos := pos - 1;
    }
    if pos >= 0 { LastOneIs(s, pos); }
  }

  method ReadSymbols(s: string, from: nat) returns (ok: bool, values: seq<bv32>)
    requires from <= |s|
    ensures ok <==> AllSymbols(s[from..])
    ensures ok ==> values == Symbols(s[from..])
  {
    hide LowerRev, LowerCase;
    values := [];
    ghost var t := s[from..];
    for i := from to |s|
      invariant |values| == i - from && forall k :: 0 <= k < i - from ==> Rev(t[k]) == Some(values[k])
    {
      assert t[i - from] == s[i];
      var rev := Rev(s[i]);
      if rev.None? { return false, values; }
      values := values + [rev.value];
    }
    ok := true;
  }

  method ToLower(s: string) returns (r: string)
    ensures r == Lower(s)
  {
    hide LowerCase;
    r := "";
    for i := 0 to |s|
      invariant r == Lower(s)[..i]
    {
      r := r + [LowerCase(s[i])];
    }
  }
}
