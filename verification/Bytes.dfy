/** Integers of a fixed width as bytes, most significant first
    (`from_be_bytes`). */
module Bytes {
  import opened Varint

  function Power256(n: nat): (p: nat)
    ensures p > 0
  {
    if n == 0 then 1 else 256 * Power256(n - 1)
  }

  lemma Widths()
    ensures Power256(2) == 0x1_0000 && Power256(4) == 0x1_0000_0000 && Power256(8) == U64
  {
    assert Power256(4) == 0x1_0000 * Power256(2);
    assert Power256(6) == 0x1_0000 * Power256(4);
  }

  /** `u16::from_be_bytes` and its like. */
  function FromBigEndian(bytes: seq<byte>): nat {
    if bytes == [] then 0 else 256 * FromBigEndian(bytes[..|bytes| - 1]) + bytes[|bytes| - 1]
  }

  function BigEndian(n: nat, width: nat): (bytes: seq<byte>)
    ensures |bytes| == width
  {
    if width == 0 then [] else BigEndian(n / 256, width - 1) + [n % 256]
  }

  lemma {:induction false} BigEndianRoundTrip(n: nat, width: nat)
    requires n < Power256(width)
    ensures FromBigEndian(BigEndian(n, width)) == n
  {
    if width > 0 {
      BigEndianRoundTrip(n / 256, width - 1);
      var bytes := BigEndian(n, width);
      assert bytes[..width - 1] == BigEndian(n / 256, width - 1);
    }
  }

  lemma {:induction false} FromBigEndianBound(bytes: seq<byte>)
    ensures FromBigEndian(bytes) < Power256(|bytes|)
  {
    if bytes != [] {
      FromBigEndianBound(bytes[..|bytes| - 1]);
    }
  }

  // ----- Two's complement

  predicate Fits(v: int, width: nat) {
    -2 * v <= Power256(width) && 2 * v < Power256(width)
  }

  /** `i16::from_be_bytes` and its like. */
  function Signed(bytes: seq<byte>): int {
    var raw := FromBigEndian(bytes);
    if 2 * raw < Power256(|bytes|) then raw else raw - Power256(|bytes|)
  }

  function WriteSigned(v: int, width: nat): (bytes: seq<byte>)
    requires Fits(v, width)
    ensures |bytes| == width
  {
    BigEndian(if v < 0 then v + Power256(width) else v, width)
  }

  lemma SignedFits(bytes: seq<byte>)
    ensures Fits(Signed(bytes), |bytes|)
  {
    FromBigEndianBound(bytes);
  }

  lemma SignedRoundTrip(v: int, width: nat)
    requires Fits(v, width)
    ensures Signed(WriteSigned(v, width)) == v
  {
    BigEndianRoundTrip(if v < 0 then v + Power256(width) else v, width);
  }
}
