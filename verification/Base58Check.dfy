/** Base 58 text with a checksum. */
module Base58Check {
  import opened Common
  import opened Positional
  import opened Base58

  const INT_MAX: int := 0x7fff_ffff

  /** The first four bytes of the hash, for any hash function. */
  type Checksum = seq<nat> -> seq<nat>

  ghost predicate GivesFourBytes(sum: Checksum) {
    forall v :: |sum(v)| == 4 && AreDigits(sum(v), 256)
  }

  method EncodeBase58Check(v: seq<nat>, sum: Checksum) returns (str: string)
    requires AreDigits(v, 256) && GivesFourBytes(sum)
    ensures AreDigits(v + sum(v), 256) && str == Encoded(v + sum(v))
  {
    str := EncodeBase58(v + sum(v));
  }

  /** What a text with a checksum holds: nothing unless the last four bytes are right. */
  method DecodeBase58Check(str: string, maxRetLen: int, sum: Checksum) returns (r: Option<seq<nat>>)
    requires maxRetLen <= INT_MAX
    ensures r.Some? <==> '\0' !in str && exists v :: CheckDecodesTo(str, maxRetLen, sum, v)
    ensures r.Some? ==> CheckDecodesTo(str, maxRetLen, sum, r.value)
  {
    if '\0' in str { return None; }
    var d := DecodeBase58(str, if maxRetLen > INT_MAX - 4 then INT_MAX else maxRetLen + 4);
    if d.None? || |d.value| < 4 { return None; }
    var n := |d.value| - 4;
    assert d.value == d.value[..n] + d.value[n..];
    forall v | CheckDecodesTo(str, maxRetLen, sum, v) ensures v == d.value[..n] && sum(v) == d.value[n..] {
      assert (v + sum(v))[..n] == v && (v + sum(v))[n..] == sum(v);
    }
    if sum(d.value[..n]) != d.value[n..] { return None; }
    r := Some(d.value[..n]);
    assert CheckDecodesTo(str, maxRetLen, sum, d.value[..n]);
  }

  /** The text decodes to v followed by its checksum. */
  ghost predicate CheckDecodesTo(str: string, maxRetLen: int, sum: Checksum, v: seq<nat>) {
    && |sum(v)| == 4
    && Decoded(str, if maxRetLen > INT_MAX - 4 then INT_MAX else maxRetLen + 4) == Some(v + sum(v))
  }

  /** What was encoded with a checksum is accepted and comes back, and nothing else does. */
  lemma CheckRoundTrip(v: seq<nat>, maxRetLen: int, sum: Checksum)
    requires AreDigits(v, 256) && GivesFourBytes(sum) && |v| <= maxRetLen <= INT_MAX - 4
    ensures AreDigits(v + sum(v), 256) && CheckDecodesTo(Encoded(v + sum(v)), maxRetLen, sum, v)
    ensures forall w :: CheckDecodesTo(Encoded(v + sum(v)), maxRetLen, sum, w) ==> w == v
  {
    hide Encoded, Decoded;
    EncodeThenDecode(v + sum(v), maxRetLen + 4);
    forall w | CheckDecodesTo(Encoded(v + sum(v)), maxRetLen, sum, w) ensures w == v {
      assert (w + sum(w))[..|w|] == w && (v + sum(v))[..|v|] == v;
    }
  }
}
