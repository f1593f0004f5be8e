/** Base-128 varints and zigzag integers (backend/protobuf/src/wire.rs), with
    the encoders they invert: Protocol Buffers Encoding, "Base 128 Varints" and
    "Signed Integers". */
module Varint {
  import opened Common
  import Division

  type byte = b: int | 0 <= b < 256

  const U64: nat := 0x1_0000_0000_0000_0000
  const MAX_VARINT_BYTES := 10

  function Pow2(n: nat): (p: nat)
    ensures p > 0
  {
    if n == 0 then 1 else 2 * Pow2(n - 1)
  }

  /** Bitwise or of two unsigned integers. */
  function BitOr(a: nat, b: nat): nat {
    if a == 0 && b == 0 then 0
    else (if a % 2 == 1 || b % 2 == 1 then 1 else 0) + 2 * BitOr(a / 2, b / 2)
  }

  /** Bitwise exclusive or. */
  function BitXor(a: nat, b: nat): nat {
    if a == 0 && b == 0 then 0
    else (if a % 2 == b % 2 then 0 else 1) + 2 * BitXor(a / 2, b / 2)
  }

  /** `n` zero bits after those of `x`. */
  function Shl(x: nat, n: nat): nat {
    if n == 0 then x else 2 * Shl(x, n - 1)
  }

  /** A 64-bit left shift drops what does not fit. */
  function ShiftLeft(x: nat, shift: nat): nat {
    Shl(x, shift) % U64
  }

  lemma {:induction false} OrZero(b: nat)
    ensures BitOr(0, b) == b
  {
    if b > 0 {
      OrZero(b / 2);
    }
  }

  lemma OrStep(low: nat, half: nat)
    ensures BitOr(low, 2 * half) == low % 2 + 2 * BitOr(low / 2, half)
  {
  }

  /** Or-ing in bits above the ones already there adds them. */
  lemma {:induction false} OrAbove(low: nat, high: nat, shift: nat)
    requires low < Pow2(shift)
    ensures BitOr(low, Shl(high, shift)) == low + Shl(high, shift)
  {
    if shift == 0 {
      OrZero(high);
    } else {
      OrStep(low, Shl(high, shift - 1));
      OrAbove(low / 2, high, shift - 1);
    }
  }

  lemma {:induction false} XorZero(a: nat)
    ensures BitXor(a, 0) == a
  {
    if a > 0 {
      XorZero(a / 2);
    }
  }

  lemma XorStep(a: nat, half: nat)
    ensures BitXor(a, 2 * half + 1) == 1 - a % 2 + 2 * BitXor(a / 2, half)
  {
    var odd := 2 * half + 1;
    assert odd / 2 == half && odd % 2 == 1;
  }

  /** Exclusive or with all ones is the complement. */
  lemma {:induction false} XorOnes(a: nat, n: nat)
    requires a < Pow2(n)
    ensures BitXor(a, Pow2(n) - 1) == Pow2(n) - 1 - a
  {
    if n > 0 {
      XorStep(a, Pow2(n - 1) - 1);
      XorOnes(a / 2, n - 1);
    }
  }

  /** `m` bits moved up by `n` leave room for `n` more below `m + n`. */
  lemma {:induction false} ShlRoom(x: nat, m: nat, n: nat)
    requires x < Pow2(m)
    ensures Shl(x, n) + Pow2(n) <= Pow2(m + n)
  {
    if n > 0 {
      ShlRoom(x, m, n - 1);
    }
  }

  lemma {:induction false} ShlAdd(a: nat, b: nat, n: nat)
    ensures Shl(a + b, n) == Shl(a, n) + Shl(b, n)
  {
    if n > 0 {
      ShlAdd(a, b, n - 1);
    }
  }

  lemma {:induction false} ShlDouble(x: nat, n: nat)
    ensures Shl(2 * x, n) == Shl(x, n + 1)
  {
    if n > 0 {
      ShlDouble(x, n - 1);
    }
  }

  lemma ShlSeven(x: nat, m: nat)
    ensures Shl(x, m + 7) == 128 * Shl(x, m)
  {
    assert Shl(x, m + 2) == 2 * Shl(x, m + 1) == 4 * Shl(x, m);
    assert Shl(x, m + 4) == 2 * Shl(x, m + 3) == 4 * Shl(x, m + 2);
    assert Shl(x, m + 6) == 2 * Shl(x, m + 5) == 4 * Shl(x, m + 4);
    assert Shl(x, m + 7) == 2 * Shl(x, m + 6);
  }

  lemma {:induction false} ShlOne(n: nat)
    ensures Shl(1, n) == Pow2(n)
  {
    if n > 0 {
      ShlOne(n - 1);
    }
  }

  lemma SevenMore(m: nat)
    ensures Pow2(m + 7) == 128 * Pow2(m)
  {
    ShlOne(m);
    ShlOne(m + 7);
    ShlSeven(1, m);
  }

  lemma SmallPowers()
    ensures Pow2(7) == 0x80 && Pow2(14) == 0x4000 && Pow2(21) == 0x20_0000
  {
    SevenMore(0);
    SevenMore(7);
    SevenMore(14);
  }

  lemma MiddlePowers()
    ensures Pow2(42) == 0x400_0000_0000
  {
    SmallPowers();
    SevenMore(21);
    SevenMore(28);
    SevenMore(35);
  }

  /** The powers that 64-bit arithmetic turns on. */
  lemma BigPowers()
    ensures Pow2(63) == U64 / 2 && Pow2(64) == U64 && Pow2(70) > U64
  {
    MiddlePowers();
    SevenMore(42);
    SevenMore(49);
    SevenMore(56);
    SevenMore(63);
    assert Pow2(64) == 2 * Pow2(63);
  }

  // ----- What a varint means

  /** The number of bytes up to and including the first without a continuation
      bit, or 0 if there is none. */
  function VarintLength(bytes: seq<byte>): (n: nat)
    ensures n <= |bytes|
  {
    if bytes == [] then 0
    else if bytes[0] < 128 then 1
    else
      var rest := VarintLength(bytes[1..]);
      if rest == 0 then 0 else rest + 1
  }

  /** Seven bits a byte, least significant first. */
  function Base128(bytes: seq<byte>): nat {
    if bytes == [] then 0 else bytes[0] % 128 + 128 * Base128(bytes[1..])
  }

  /** A varint at the front of `bytes`: its value and its length. */
  function DecodeVarint(bytes: seq<byte>): (r: Option<(nat, nat)>)
    ensures r.Some? ==> r.value.0 < U64 && 0 < r.value.1 <= |bytes|
  {
    var n := VarintLength(bytes);
    if n == 0 || n > MAX_VARINT_BYTES then None else Some((Base128(bytes[..n]) % U64, n))
  }

  function EncodeVarint(v: nat): (bytes: seq<byte>)
    ensures bytes != []
  {
    if v < 128 then [v] else [v % 128 + 128] + EncodeVarint(v / 128)
  }

  lemma {:induction false} Base128Bound(bytes: seq<byte>)
    ensures Base128(bytes) < Pow2(7 * |bytes|)
  {
    if bytes != [] {
      Base128Bound(bytes[1..]);
      SevenMore(7 * |bytes[1..]|);
    }
  }

  lemma {:induction false} Base128Append(bytes: seq<byte>, b: byte)
    ensures Base128(bytes + [b]) == Base128(bytes) + Shl(b % 128, 7 * |bytes|)
  {
    if bytes == [] {
      assert Base128([b]) == b % 128 + 128 * Base128([]);
    } else {
      Base128Append(bytes[1..], b);
      assert (bytes + [b])[1..] == bytes[1..] + [b];
      ShlSeven(b % 128, 7 * |bytes[1..]|);
    }
  }

  /** A run of continuation bytes followed by a terminator. */
  lemma {:induction false} LengthAt(bytes: seq<byte>, k: nat)
    requires k <= |bytes| && forall i :: 0 <= i < k ==> bytes[i] >= 128
    ensures k < |bytes| && bytes[k] < 128 ==> VarintLength(bytes) == k + 1
    ensures k == |bytes| ==> VarintLength(bytes) == 0
    ensures VarintLength(bytes) == 0 || VarintLength(bytes) > k
  {
    if k > 0 {
      LengthAt(bytes[1..], k - 1);
    }
  }

  /** One more byte of the accumulator: or-ing its seven bits in at `7 * k`
      is one more base-128 digit, modulo 2^64. */
  lemma OneMoreDigit(seen: seq<byte>, b: byte)
    requires |seen| <= 9
    ensures BitOr(Base128(seen), ShiftLeft(b % 128, 7 * |seen|)) == Base128(seen + [b]) % U64
  {
    Base128Bound(seen);
    OrAnyDigit(Base128(seen), b % 128, |seen|);
    Base128Append(seen, b);
  }

  lemma OrAnyDigit(low: nat, d: nat, k: nat)
    requires k <= 9 && low < Pow2(7 * k) && d < 128
    ensures BitOr(low, ShiftLeft(d, 7 * k)) == (low + Shl(d, 7 * k)) % U64
  {
    if k < 9 {
      var shift := 7 * k;
      OrDigit(low, d, shift);
    } else {
      OrTenth(low, d);
    }
  }

  lemma SmallModulo(x: nat)
    requires x < U64
    ensures x % U64 == x
  {
  }

  lemma {:induction false} PowersGrow(m: nat, n: nat)
    requires m <= n
    ensures Pow2(m) <= Pow2(n)
  {
    if m < n {
      PowersGrow(m, n - 1);
    }
  }

  lemma DigitRoom(low: nat, d: nat, shift: nat)
    requires shift + 7 <= 63 && low < Pow2(shift) && d < 128
    ensures low + Shl(d, shift) < U64
  {
    SmallPowers();
    ShlRoom(d, 7, shift);
    PowersGrow(7 + shift, 63);
    BigPowers();
  }

  lemma ShiftFits(x: nat, shift: nat)
    requires Shl(x, shift) < U64
    ensures ShiftLeft(x, shift) == Shl(x, shift)
  {
    SmallModulo(Shl(x, shift));
  }

  /** Seven bits that stay below the 64th. */
  lemma OrDigit(low: nat, d: nat, shift: nat)
    requires shift + 7 <= 63 && low < Pow2(shift) && d < 128
    ensures BitOr(low, ShiftLeft(d, shift)) == (low + Shl(d, shift)) % U64
  {
    DigitRoom(low, d, shift);
    ShiftFits(d, shift);
    SmallModulo(low + Shl(d, shift));
    OrAbove(low, d, shift);
  }

  /** Of the tenth byte only the lowest bit is left. */
  lemma OrTenth(low: nat, d: nat)
    requires low < Pow2(63)
    ensures BitOr(low, ShiftLeft(d, 63)) == (low + Shl(d, 63)) % U64
  {
    BigPowers();
    TenthDigit(0, d);
    TenthDigit(low, d);
    OrAbove(low, d % 2, 63);
  }

  lemma {:induction false} ShlIs(x: nat, n: nat)
    ensures Shl(x, n) == x * Pow2(n)
  {
    if n > 0 {
      ShlIs(x, n - 1);
      TwiceScaled(x, Pow2(n - 1));
    }
  }

  lemma TwiceScaled(x: nat, p: nat)
    ensures 2 * (x * p) == x * (2 * p)
  {
  }

  lemma TenthDigit(low: nat, d: nat)
    requires low < U64 / 2
    ensures (low + Shl(d, 63)) % U64 == low + Shl(d % 2, 63) < U64
  {
    var q, r := d / 2, d % 2;
    BigPowers();
    HalvesShifted(q, r);
    ShlIs(r, 63);
    Division.Unique(low + Shl(d, 63), U64, q, low + Shl(r, 63));
  }

  lemma HalvesShifted(q: nat, r: nat)
    ensures Shl(2 * q + r, 63) == q * U64 + Shl(r, 63)
  {
    ShlAdd(2 * q, r, 63);
    ShlDouble(q, 63);
    ShlIs(q, 64);
    BigPowers();
  }

  /** `read_varint`. The source also tests `shift >= 64` before each byte; the
      invariant shows that the ten-byte bound always stops the loop first. */
  method ReadVarint(bytes: seq<byte>, start: nat) returns (r: Option<(nat, nat)>)
    requires start <= |bytes|
    ensures r == DecodeVarint(bytes[start..])
  {
    var value: nat := 0;
    var shift := 0;
    var index := start;
    ghost var tail := bytes[start..];
    while index < |bytes|
      invariant start <= index <= |bytes| && index - start < MAX_VARINT_BYTES
      invariant shift == 7 * (index - start) < 64
      invariant value == Base128(tail[..index - start])
      invariant forall i :: 0 <= i < index - start ==> tail[i] >= 128
    {
      var byte := bytes[index];
      ghost var k := index - start;
      OneMoreDigit(tail[..k], byte);
      assert tail[..k + 1] == tail[..k] + [byte];
      LengthAt(tail, k);
      value := BitOr(value, ShiftLeft(byte % 128, shift));
      index := index + 1;
      if byte < 128 {
        return Some((value, index - start));
      }
      shift := shift + 7;
      LengthAt(tail, k + 1);
      if index - start >= MAX_VARINT_BYTES {
        return None;
      }
      NineDigits(tail[..k + 1]);
    }
    LengthAt(tail, |tail|);
    return None;
  }

  lemma NineDigits(seen: seq<byte>)
    requires |seen| <= 9
    ensures Base128(seen) % U64 == Base128(seen)
  {
    Base128Bound(seen);
    PowersGrow(7 * |seen|, 63);
    BigPowers();
  }

  // ----- Round trips

  lemma {:induction false} EncodedLength(v: nat, rest: seq<byte>)
    ensures VarintLength(EncodeVarint(v) + rest) == |EncodeVarint(v)|
    ensures Base128(EncodeVarint(v)) == v
  {
    if v >= 128 {
      EncodedLength(v / 128, rest);
      assert (EncodeVarint(v) + rest)[1..] == EncodeVarint(v / 128) + rest;
      assert EncodeVarint(v)[1..] == EncodeVarint(v / 128);
    }
  }

  lemma {:induction false} EncodedWithin(v: nat, n: nat)
    requires v < Pow2(7 * n) && n > 0
    ensures |EncodeVarint(v)| <= n
  {
    if v >= 128 {
      SevenMore(7 * (n - 1));
      if n > 1 {
        EncodedWithin(v / 128, n - 1);
      }
    }
  }

  /** What is refused: bytes of which none of the first ten ends the group. */
  lemma {:induction false} RefusedExactly(bytes: seq<byte>)
    ensures DecodeVarint(bytes) == None <==> forall i :: 0 <= i < |bytes| && i < 10 ==> bytes[i] >= 128
  {
    EndsAt(bytes);
  }

  lemma {:induction false} EndsAt(bytes: seq<byte>)
    ensures var n := VarintLength(bytes);
            if n == 0 then forall i :: 0 <= i < |bytes| ==> bytes[i] >= 128
            else bytes[n - 1] < 128 && forall i :: 0 <= i < n - 1 ==> bytes[i] >= 128
  {
    if bytes != [] && bytes[0] >= 128 {
      EndsAt(bytes[1..]);
      assert forall i :: 1 <= i < |bytes| ==> bytes[i] == bytes[1..][i - 1];
    }
  }

  /** Every 64-bit value survives, in at most ten bytes, whatever follows. */
  lemma VarintRoundTrip(v: nat, rest: seq<byte>)
    requires v < U64
    ensures DecodeVarint(EncodeVarint(v) + rest) == Some((v, |EncodeVarint(v)|))
    ensures |EncodeVarint(v)| <= MAX_VARINT_BYTES
  {
    EncodedLength(v, rest);
    BigPowers();
    EncodedWithin(v, 10);
    assert (EncodeVarint(v) + rest)[..|EncodeVarint(v)|] == EncodeVarint(v);
  }

  /** Reading stops at the varint: what follows cannot change it. */
  lemma {:induction false} LengthStable(a: seq<byte>, b: seq<byte>)
    requires VarintLength(a) > 0
    ensures VarintLength(a + b) == VarintLength(a)
  {
    assert (a + b)[0] == a[0];
    if a[0] >= 128 {
      LengthStable(a[1..], b);
      assert (a + b)[1..] == a[1..] + b;
    }
  }

  lemma DecodeStable(a: seq<byte>, b: seq<byte>)
    requires DecodeVarint(a).Some?
    ensures DecodeVarint(a + b) == DecodeVarint(a)
  {
    LengthStable(a, b);
    var n := VarintLength(a);
    assert (a + b)[..n] == a[..n];
  }

  /** Zigzag maps the signed 64-bit integers onto the unsigned ones. */
  function ZigzagEncode(v: int): nat {
    if v >= 0 then 2 * v else -2 * v - 1
  }

  /** `as i64`, on a 64-bit pattern. */
  function AsI64(bits: nat): int {
    if bits < U64 / 2 then bits else bits - U64
  }

  /** `((value >> 1) as i64) ^ -((value & 1) as i64)`: minus one has every bit
      set. */
  function ZigzagDecode(value: nat): int {
    AsI64(BitXor(value / 2, if value % 2 == 1 then U64 - 1 else 0))
  }

  predicate IsI64(v: int) {
    -0x8000_0000_0000_0000 <= v < 0x8000_0000_0000_0000
  }

  /** What the bits come to: an even value is half of itself, an odd one the
      complement of that. */
  lemma ZigzagBits(value: nat)
    requires value < U64
    ensures ZigzagDecode(value) == if value % 2 == 0 then value / 2 else -(value / 2) - 1
  {
    BigPowers();
    XorZero(value / 2);
    XorOnes(value / 2, 64);
  }

  lemma ZigzagRoundTrip(v: int)
    requires IsI64(v)
    ensures ZigzagEncode(v) < U64 && ZigzagDecode(ZigzagEncode(v)) == v
  {
    ZigzagBits(ZigzagEncode(v));
  }

  lemma ZigzagOnto(value: nat)
    requires value < U64
    ensures IsI64(ZigzagDecode(value)) && ZigzagEncode(ZigzagDecode(value)) == value
  {
    ZigzagBits(value);
  }
}
