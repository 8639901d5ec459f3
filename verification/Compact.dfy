/**
 Compact ("nBits") encoding of proof-of-work targets: the `pow` module of header_sync.rs.
 Shifts by whole bytes are written as multiplication and division by `Pow256`, and a left
 shift of a 256-bit word drops the bits that leave the word.
 */
module Compact {
  import opened Bounded

  function Mantissa(bits: u32): u32 { bits % 0x80_0000 }

  function Exponent(bits: u32): u32 { bits / 0x100_0000 }

  predicate SignBit(bits: u32) { (bits / 0x80_0000) % 2 == 1 }

  datatype Decoded = Decoded(target: u256, negative: bool)

  function DecodeCompact(bits: u32): Decoded {
    var exponent := Exponent(bits);
    if exponent <= 3 then
      var shifted := Mantissa(bits) / Pow256(3 - exponent);
      ShiftedFits(Mantissa(bits), Pow256(3 - exponent));
      Decoded(shifted, shifted != 0 && SignBit(bits))
    else
      var target := if 8 * (exponent - 3) < 256
                    then (Mantissa(bits) * Pow256(exponent - 3)) % U256_LIMIT
                    else 0;
      Decoded(target, Mantissa(bits) != 0 && SignBit(bits))
  }

  lemma ShiftedFits(m: nat, d: nat)
    requires 0 < d
    ensures 0 <= m / d <= m
  {
    DivGreatest(0, m, d);
    if m / d > m {
      MulMonotone(m + 1, m / d, d);
      MulMonotone(1, d, m + 1);
    }
  }

  function CompactToTarget(bits: u32): u256 {
    var decoded := DecodeCompact(bits);
    if decoded.negative then 0 else decoded.target
  }

  predicate CompactOverflows(bits: u32) {
    var size := Exponent(bits);
    var word := Mantissa(bits);
    word != 0 && (size > 34 || (word > 0xff && size > 33) || (word > 0xffff && size > 32))
  }

  predicate CompactIsMetBy(bits: u32, hash: u256) {
    var target := CompactToTarget(bits);
    target != 0 && hash <= target
  }

  /** Number of bytes of `t`: its bit length divided by eight, rounded up. */
  function ByteLen(t: nat): nat {
    if t == 0 then 0 else 1 + ByteLen(t / 256)
  }

  /** The 24 leading bits of `target` with the byte length they are scaled by. */
  function LeadingBytes(target: nat): int
    requires target > 0
  {
    var size := ByteLen(target);
    if size <= 3 then target * Pow256(3 - size) else target / Pow256(size - 3)
  }

  function TargetToCompact(target: u256): (bits: u32)
    ensures !SignBit(bits)
  {
    if target == 0 then 0
    else
      var size := ByteLen(target);
      var compact := LeadingBytes(target);
      LeadingBytesRange(target);
      ByteLenAtMost32(target);
      if compact >= 0x80_0000 then Pack(compact / 256, size + 1) else Pack(compact, size)
  }

  /** Puts a 23-bit mantissa under an exponent byte; the two do not overlap. */
  function Pack(mantissa: int, exponent: int): (bits: u32)
    requires 0 <= mantissa < 0x80_0000 && 0 <= exponent < 256
    ensures Mantissa(bits) == mantissa && Exponent(bits) == exponent && !SignBit(bits)
  {
    mantissa + exponent * 0x100_0000
  }

  // ---- Byte lengths ----

  lemma {:induction false} ByteLenBounds(t: nat)
    requires t > 0
    ensures ByteLen(t) > 0 && Pow256(ByteLen(t) - 1) <= t < Pow256(ByteLen(t))
  {
    if t >= 256 {
      ByteLenBounds(t / 256);
    }
  }

  lemma ByteLenUnique(t: nat, n: nat)
    requires n > 0 && Pow256(n - 1) <= t < Pow256(n)
    ensures ByteLen(t) == n
  {
    ByteLenBounds(t);
    if ByteLen(t) < n {
      Pow256Monotone(ByteLen(t), n - 1);
    } else if ByteLen(t) > n {
      Pow256Monotone(n, ByteLen(t) - 1);
    }
  }

  lemma {:induction false} ByteLenMonotone(s: nat, t: nat)
    requires s <= t
    ensures ByteLen(s) <= ByteLen(t)
  {
    if s > 0 {
      ByteLenMonotone(s / 256, t / 256);
    }
  }

  lemma ByteLenAtMost32(t: u256)
    ensures ByteLen(t) <= 32
  {
    Pow256At32();
    if t > 0 && ByteLen(t) > 32 {
      ByteLenBounds(t);
      Pow256Monotone(32, ByteLen(t) - 1);
    }
  }

  lemma SmallPowers()
    ensures Pow256(0) == 1 && Pow256(1) == 0x100 && Pow256(2) == 0x1_0000 && Pow256(3) == 0x100_0000
  {
  }

  lemma LeadingBytesRange(target: nat)
    requires target > 0
    ensures 0x1_0000 <= LeadingBytes(target) < 0x100_0000
  {
    ByteLenBounds(target);
    var size := ByteLen(target);
    assert Pow256(1) == 0x100 && Pow256(2) == 0x1_0000 && Pow256(3) == 0x100_0000;
    if size > 3 {
      var d := Pow256(size - 3);
      Pow256Add(size - 3, 2);
      Pow256Add(size - 3, 3);
      DivGreatest(0x1_0000, target, d);
      DivGreatest(0x100_0000, target, d);
    }
  }

  // ---- What encoding keeps ----

  /** The exponent of the encoding: the bytes needed by `t` together with a sign bit. */
  function EncodedLen(t: nat): nat { ByteLen(2 * t) }

  /** The value of one unit of the last mantissa byte kept by the encoding. */
  function Unit(t: nat): (u: nat)
    ensures u >= 1
  {
    if EncodedLen(t) <= 3 then 1 else Pow256(EncodedLen(t) - 3)
  }

  lemma EncodedLenCases(t: nat)
    requires t > 0
    ensures EncodedLen(t) == if LeadingBytes(t) >= 0x80_0000 then ByteLen(t) + 1 else ByteLen(t)
  {
    ByteLenBounds(t);
    var size := ByteLen(t);
    LeadingBytesHalf(t);
    assert Pow256(size + 1) == 256 * Pow256(size);
    if LeadingBytes(t) >= 0x80_0000 {
      ByteLenUnique(2 * t, size + 1);
    } else {
      ByteLenUnique(2 * t, size);
    }
  }

  /** The top mantissa bit is set exactly when doubling the target needs one more byte. */
  lemma LeadingBytesHalf(t: nat)
    requires t > 0
    ensures LeadingBytes(t) >= 0x80_0000 <==> 2 * t >= Pow256(ByteLen(t))
  {
    ByteLenBounds(t);
    SmallPowers();
    var size := ByteLen(t);
    if size == 1 {
    } else if size == 2 {
    } else if size == 3 {
    } else {
      Pow256Add(size - 3, 3);
      DivGreatest(0x80_0000, t, Pow256(size - 3));
    }
  }

  /** The encoding's fields: a clear sign bit, the signed byte length, the leading bytes. */
  lemma EncodeFields(t: u256)
    requires t > 0
    ensures Exponent(TargetToCompact(t)) == EncodedLen(t)
    ensures EncodedLen(t) <= 3 ==>
              Mantissa(TargetToCompact(t)) == t * Pow256(3 - EncodedLen(t))
    ensures EncodedLen(t) > 3 ==>
              Mantissa(TargetToCompact(t)) == t / Pow256(EncodedLen(t) - 3)
  {
    EncodedLenCases(t);
    LeadingBytesRange(t);
    ByteLenAtMost32(t);
    if LeadingBytes(t) >= 0x80_0000 {
      DroppedByte(t);
    }
  }

  /** Dropping the low byte of the leading bytes scales them by one byte more. */
  lemma DroppedByte(t: nat)
    requires t > 0
    ensures ByteLen(t) < 3 ==> LeadingBytes(t) / 256 == t * Pow256(3 - (ByteLen(t) + 1))
    ensures ByteLen(t) >= 3 ==> LeadingBytes(t) / 256 == t / Pow256(ByteLen(t) + 1 - 3)
  {
    ByteLenBounds(t);
    SmallPowers();
    var size := ByteLen(t);
    if size > 3 {
      DivDiv(t, Pow256(size - 3), 256);
    } else if size == 3 {
    } else if size == 2 {
    } else {
      assert size == 1;
    }
  }

  // ---- What decoding means ----

  /** The value of a mantissa under an exponent when no word size bounds it. */
  function Scale(mantissa: nat, exponent: nat): (v: nat)
    ensures mantissa == 0 ==> v == 0
  {
    if exponent <= 3 then
      ShiftedFits(mantissa, Pow256(3 - exponent));
      mantissa / Pow256(3 - exponent)
    else
      mantissa * Pow256(exponent - 3)
  }

  /** The value the bits name, ignoring the sign bit. */
  function UnboundedValue(bits: u32): nat {
    Scale(Mantissa(bits), Exponent(bits))
  }

  lemma ScaleOverflow(m: nat, e: nat)
    requires 3 < e <= 35
    ensures Scale(m, e) >= U256_LIMIT <==> m >= Pow256(35 - e)
  {
    assert Pow256(35 - e) * Pow256(e - 3) == U256_LIMIT by {
      Pow256Add(35 - e, e - 3);
      Pow256At32();
    }
    MulThreshold(m, Pow256(35 - e), Pow256(e - 3));
  }

  lemma ScaleHuge(m: nat, e: nat)
    requires 0 < m && 35 <= e
    ensures Scale(m, e) >= U256_LIMIT
  {
    Pow256At32();
    Pow256Monotone(32, e - 3);
    MulMonotone(1, m, Pow256(e - 3));
  }

  /** The overflow test rejects exactly the values that do not fit 256 bits. */
  lemma OverflowsIff(bits: u32)
    ensures CompactOverflows(bits) <==> UnboundedValue(bits) >= U256_LIMIT
  {
    var e: int, m: int := Exponent(bits), Mantissa(bits);
    SmallPowers();
    if m == 0 {
    } else if e <= 3 {
      ShiftedFits(m, Pow256(3 - e));
    } else if e >= 35 {
      ScaleHuge(m, e);
    } else {
      ScaleOverflow(m, e);
      if e <= 32 {
        Pow256Monotone(3, 35 - e);
      }
    }
  }

  /** Non-overflowing bits decode to the value they name, or to zero when negative. */
  lemma DecodeExact(bits: u32)
    requires !CompactOverflows(bits)
    ensures CompactToTarget(bits) == if SignBit(bits) then 0 else UnboundedValue(bits)
  {
    OverflowsIff(bits);
  }

  /** Decoding an encoding rounds the target down to a multiple of its unit. */
  lemma RoundTrip(t: u256)
    ensures CompactToTarget(TargetToCompact(t)) == t - t % Unit(t)
    ensures CompactToTarget(TargetToCompact(t)) <= t < CompactToTarget(TargetToCompact(t)) + Unit(t)
    ensures !SignBit(TargetToCompact(t)) && !CompactOverflows(TargetToCompact(t))
  {
    if t > 0 {
      EncodeFields(t);
      EncodeScale(t);
      OverflowsIff(TargetToCompact(t));
      DecodeExact(TargetToCompact(t));
    }
  }

  lemma EncodeScale(t: u256)
    requires t > 0
    ensures UnboundedValue(TargetToCompact(t)) == t - t % Unit(t)
  {
    EncodeFields(t);
    ScaleOfLeading(Mantissa(TargetToCompact(t)), t, EncodedLen(t));
  }

  lemma ScaleOfLeading(m: nat, t: nat, e: nat)
    requires e <= 3 ==> m == t * Pow256(3 - e)
    requires e > 3 ==> m == t / Pow256(e - 3)
    ensures Scale(m, e) == if e <= 3 then t else t - t % Pow256(e - 3)
  {
    if e <= 3 {
      MulDiv(t, Pow256(3 - e));
    } else {
      DivMul(t, Pow256(e - 3));
    }
  }

  /** Encoding then decoding keeps the order of targets. */
  lemma RoundTripMonotone(s: u256, t: u256)
    requires s <= t
    ensures CompactToTarget(TargetToCompact(s)) <= CompactToTarget(TargetToCompact(t))
  {
    RoundTrip(s);
    RoundTrip(t);
    RoundDownMonotone(s, t);
  }

  lemma RoundDownMonotone(s: nat, t: nat)
    requires s <= t
    ensures s - s % Unit(s) <= t - t % Unit(t)
  {
    ByteLenMonotone(2 * s, 2 * t);
    if EncodedLen(s) == EncodedLen(t) {
      RoundDownOrdered(s, t, Unit(s));
    } else if EncodedLen(t) > 3 {
      DivMul(s, Unit(s));
      ShorterIsBelow(s, t);
    }
  }

  /** A target with a shorter encoding lies below every rounded longer one. */
  lemma ShorterIsBelow(s: nat, t: nat)
    requires EncodedLen(s) < EncodedLen(t) && EncodedLen(t) > 3
    ensures s <= t - t % Unit(t)
  {
    var e, u := EncodedLen(t), Unit(t);
    if s > 0 { ByteLenBounds(2 * s); }
    ByteLenBounds(2 * t);
    Pow256Monotone(EncodedLen(s), e - 1);
    Pow256Add(e - 3, 2);
    SmallPowers();
    assert 2 * s < 0x1_0000 * u <= 2 * t;
    DivGreatest(0x8000, t, u);
    MulMonotone(0x8000, t / u, u);
    DivMul(t, u);
  }

  /** Every value decoded from non-overflowing bits survives encoding and decoding again. */
  lemma DecodedIsFixed(bits: u32)
    requires !CompactOverflows(bits)
    ensures CompactToTarget(TargetToCompact(CompactToTarget(bits))) == CompactToTarget(bits)
  {
    var t := CompactToTarget(bits);
    DecodeExact(bits);
    RoundTrip(t);
    if t > 0 {
      ScaleUnitDivides(Mantissa(bits), Exponent(bits));
    }
  }

  lemma ScaleUnitDivides(m: nat, e: nat)
    requires 0 < m < 0x80_0000
    ensures Scale(m, e) % Unit(Scale(m, e)) == 0
  {
    var t := Scale(m, e);
    var len := EncodedLen(t);
    SmallPowers();
    ScaleLength(m, e);
    if len > 3 {
      var k := e - len;
      Pow256Add(len - 3, k);
      var q := m * Pow256(k);
      assert t == m * (Pow256(len - 3) * Pow256(k)) == q * Unit(t);
      DivUnique(t, Unit(t), q, 0);
    }
  }

  /** A 23-bit mantissa under exponent `e` never needs more than `e` bytes with its sign. */
  lemma ScaleLength(m: nat, e: nat)
    requires 0 < m < 0x80_0000
    ensures EncodedLen(Scale(m, e)) <= Max(e, 3)
  {
    var t := Scale(m, e);
    SmallPowers();
    if e <= 3 {
      ShiftedFits(m, Pow256(3 - e));
      assert 2 * t < Pow256(3);
      if t > 0 && EncodedLen(t) > 3 {
        ByteLenBounds(2 * t);
        Pow256Monotone(3, EncodedLen(t) - 1);
      }
    } else {
      Pow256Add(e - 3, 3);
      MulMonotone(m, 0x7f_ffff, Pow256(e - 3));
      assert 2 * t < Pow256(e);
      if t > 0 && EncodedLen(t) > e {
        ByteLenBounds(2 * t);
        Pow256Monotone(e, EncodedLen(t) - 1);
      }
    }
  }

  /** Adding one to a decoded target never leaves 256 bits. */
  lemma DecodedBelowMax(bits: u32)
    ensures CompactToTarget(bits) + 1 < U256_LIMIT
  {
    var e: int, m: int := Exponent(bits), Mantissa(bits);
    if e <= 3 {
      ShiftedFits(m, Pow256(3 - e));
    } else if e < 35 {
      LowByteClear(m * Pow256(e - 4));
      assert m * Pow256(e - 3) == 256 * (m * Pow256(e - 4));
    }
  }

  lemma LowByteClear(y: nat)
    ensures (256 * y) % U256_LIMIT <= U256_LIMIT - 256
  {
    var q := (256 * y) / U256_LIMIT;
    assert (256 * y) % U256_LIMIT == 256 * (y - q * (U256_LIMIT / 256));
  }
}
