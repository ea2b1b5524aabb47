/** Packet sizes: the padding `allocPacket` chooses, and the length checks of the deciphers. */
module Padding {
  const MAX_PACKET_SIZE: nat := 35000

  /** `a & b` on numbers that are not negative. */
  function And(a: nat, b: nat): nat {
    if a == 0 || b == 0 then 0 else 2 * And(a / 2, b / 2) + (a % 2) * (b % 2)
  }

  function Pow2(k: nat): (p: nat)
    ensures p > 0
  {
    if k == 0 then 1 else 2 * Pow2(k - 1)
  }

  ghost predicate Multiple(x: int, m: int) {
    exists t: int :: x == Times(t, m)
  }

  function Times(t: int, m: int): int {
    t * m
  }

  lemma TimesMonotone(t: int, u: int, m: nat)
    requires t <= u
    ensures Times(t, m) <= Times(u, m)
  {
    assert (u - t) * m >= 0;
  }

  lemma TimesDouble(t: int, m: int)
    ensures Times(t, 2 * m) == 2 * Times(t, m)
  {
  }

  lemma TimesPlus(t: int, u: int, m: int)
    ensures Times(t + u, m) == Times(t, m) + Times(u, m)
  {
  }

  lemma TimesOfOne(m: int)
    ensures Times(0, m) == 0 && Times(1, m) == m
  {
  }

  /** The last bit of a mask of ones. */
  lemma AndOnes(a: nat, half: nat)
    requires half > 0
    ensures And(a, 2 * half - 1) == 2 * And(a / 2, half - 1) + a % 2
  {
    if a > 0 {
      assert (2 * half - 1) / 2 == half - 1 && (2 * half - 1) % 2 == 1;
    } else {
      assert And(0, half - 1) == 0;
    }
  }

  lemma AndNothing(a: nat)
    ensures And(a, 0) == 0
  {
  }

  /** Masking with 2^k - 1 leaves the remainder: what is cut off is a multiple of 2^k. */
  lemma {:induction false} AndMask(a: nat, k: nat) returns (high: nat)
    ensures a == Times(high, Pow2(k)) + And(a, Pow2(k) - 1)
    ensures And(a, Pow2(k) - 1) < Pow2(k)
    decreases k
  {
    hide And;
    if k == 0 {
      high := a;
      AndNothing(a);
    } else {
      hide Times;
      var half := Pow2(k - 1);
      high := AndMask(a / 2, k - 1);
      AndOnes(a, half);
      TimesDouble(high, half);
    }
  }

  lemma MaskedZero(a: nat, k: nat)
    ensures And(a, Pow2(k) - 1) == 0 <==> Multiple(a, Pow2(k))
  {
    hide And, Times;
    var high := AndMask(a, k);
    var low, block := And(a, Pow2(k) - 1), Pow2(k);
    TimesOfOne(block);
    if Multiple(a, block) {
      var t: int :| a == Times(t, block);
      TimesPlus(t - high, high, block);
      assert low == Times(t - high, block);
      if t - high >= 1 {
        TimesMonotone(1, t - high, block);
      } else {
        TimesMonotone(t - high, 0, block);
      }
    }
  }

  /** The padding of `allocPacket`. `aad` is 4 when the length field is not encrypted with the
      rest, and 0 when it is. */
  function PadLen(payloadLen: nat, block: nat, aad: nat): int
    requires block > 0 && aad <= 4
  {
    var pad := block - And(4 + 1 + payloadLen - aad, block - 1);
    if pad < 4 then pad + block else pad
  }

  /** The packet_length field: padding length byte, payload, padding. */
  function PacketLength(payloadLen: nat, block: nat, aad: nat): int
    requires block > 0 && aad <= 4
  {
    1 + payloadLen + PadLen(payloadLen, block, aad)
  }

  ghost predicate Aligned(payloadLen: nat, pad: int, block: nat, aad: nat)
    requires aad <= 4
  {
    Multiple(5 + payloadLen - aad + pad, block)
  }

  lemma {:induction false} PowAtLeast(k: nat)
    requires k >= 3
    ensures Pow2(k) >= 8
  {
    if k == 3 {
      assert Pow2(3) == 2 * Pow2(2) == 4 * Pow2(1) == 8;
    } else {
      PowAtLeast(k - 1);
    }
  }

  /** For every power of two from 8 on, the padding aligns what is encrypted, is at least four
      bytes and at most three more than a block, and no smaller choice would do. */
  lemma PaddingIsLeast(payloadLen: nat, k: nat, aad: nat)
    requires k >= 3 && aad <= 4
    ensures var block := Pow2(k);
            var pad := PadLen(payloadLen, block, aad);
            && 4 <= pad <= block + 3
            && Aligned(payloadLen, pad, block, aad)
            && forall other :: 4 <= other < pad ==> !Aligned(payloadLen, other, block, aad)
  {
    hide And, Times;
    var block := Pow2(k);
    PowAtLeast(k);
    hide Pow2;
    var n := 5 + payloadLen - aad;
    var high := AndMask(n, k);
    var low := And(n, block - 1);
    var pad := PadLen(payloadLen, block, aad);
    TimesOfOne(block);
    TimesPlus(high, 1, block);
    TimesPlus(high + 1, 1, block);
    assert Times(high + 2, block) == Times(high, block) + 2 * block;
    forall other | 4 <= other < pad ensures !Aligned(payloadLen, other, block, aad) {
      if Multiple(n + other, block) {
        var t: int :| n + other == Times(t, block);
        if t <= high {
          TimesMonotone(t, high, block);
        } else if t >= high + 2 {
          TimesMonotone(high + 2, t, block);
        }
      }
    }
  }

  // ----- The deciphers' length checks -----

  predicate ChaChaLengthOk(len: nat) {
    len <= MAX_PACKET_SIZE && len >= 8 && And(len, 7) == 0
  }

  predicate GcmLengthOk(len: nat) {
    len + 20 <= MAX_PACKET_SIZE && len >= 16 && And(len, 15) == 0
  }

  /** What is left to read after the first block has to be a multiple of the block size. It is
      negative for a length shorter than one block; masking then tests the same thing. */
  ghost predicate GenericLengthOk(len: nat, block: nat, etm: bool) {
    len <= MAX_PACKET_SIZE && len >= 5 && Multiple(if etm then len else 4 + len - block, block)
  }

  /** For the two block sizes there are, it is a matter of the remainder. */
  lemma MultipleIsWhole(x: int, block: nat)
    requires block == 8 || block == 16
    ensures Multiple(x, block) <==> x % block == 0
  {
    TimesOfQuotient(x);
    if Multiple(x, block) {
      var t: int :| x == Times(t, block);
      hide Multiple;
      TimesIsWhole(t);
    }
  }

  lemma TimesIsWhole(t: int)
    ensures Times(t, 8) % 8 == 0 && Times(t, 16) % 16 == 0
  {
    assert Times(t, 8) == 8 * t && Times(t, 16) == 16 * t;
  }

  lemma TimesOfQuotient(x: int)
    ensures x % 8 == 0 ==> x == Times(x / 8, 8)
    ensures x % 16 == 0 ==> x == Times(x / 16, 16)
  {
  }

  lemma MultipleMinusOne(x: int, m: nat)
    requires Multiple(x, m)
    ensures Multiple(x - m, m)
  {
    hide Times;
    var t: int :| x == Times(t, m);
    TimesOfOne(m);
    TimesPlus(t - 1, 1, m);
    assert x - m == Times(t - 1, m);
  }

  /** A packet passes its own decipher's check exactly when it is within the size limit. */
  lemma PacketsPassTheirCheck(payloadLen: nat, k: nat)
    requires k >= 3
    ensures var len := PacketLength(payloadLen, 8, 4);
            len >= 0 && (ChaChaLengthOk(len) <==> len <= MAX_PACKET_SIZE)
    ensures var len := PacketLength(payloadLen, 16, 4);
            len >= 0 && (GcmLengthOk(len) <==> len <= MAX_PACKET_SIZE - 20)
    ensures var len := PacketLength(payloadLen, Pow2(k), 0);
            len >= 0 && (GenericLengthOk(len, Pow2(k), false) <==> len <= MAX_PACKET_SIZE)
    ensures var len := PacketLength(payloadLen, Pow2(k), 4);
            len >= 0 && (GenericLengthOk(len, Pow2(k), true) <==> len <= MAX_PACKET_SIZE)
  {
    hide *;
    ChaChaPasses(payloadLen);
    GcmPasses(payloadLen);
    GenericPasses(payloadLen, k, 0);
    GenericPasses(payloadLen, k, 4);
  }

  lemma ChaChaPasses(payloadLen: nat)
    ensures var len := PacketLength(payloadLen, 8, 4);
            len >= 0 && (ChaChaLengthOk(len) <==> len <= MAX_PACKET_SIZE)
  {
    EightAndSixteen();
    PaddingIsLeast(payloadLen, 3, 4);
    hide And, PadLen, Pow2, Multiple;
    var len := PacketLength(payloadLen, 8, 4);
    MaskedZero(len, 3);
    AtLeastOneBlock(len, 8);
  }

  lemma GcmPasses(payloadLen: nat)
    ensures var len := PacketLength(payloadLen, 16, 4);
            len >= 0 && (GcmLengthOk(len) <==> len <= MAX_PACKET_SIZE - 20)
  {
    EightAndSixteen();
    PaddingIsLeast(payloadLen, 4, 4);
    hide And, PadLen, Pow2, Multiple;
    var len := PacketLength(payloadLen, 16, 4);
    MaskedZero(len, 4);
    AtLeastOneBlock(len, 16);
  }

  lemma GenericPasses(payloadLen: nat, k: nat, aad: nat)
    requires k >= 3 && (aad == 0 || aad == 4)
    ensures var len := PacketLength(payloadLen, Pow2(k), aad);
            len >= 0 && (GenericLengthOk(len, Pow2(k), aad == 4) <==> len <= MAX_PACKET_SIZE)
  {
    PaddingIsLeast(payloadLen, k, aad);
    hide PadLen, Pow2, Multiple;
    if aad == 0 {
      MultipleMinusOne(PacketLength(payloadLen, Pow2(k), 0) + 4, Pow2(k));
    }
  }

  lemma EightAndSixteen()
    ensures Pow2(3) == 8 && Pow2(4) == 16
  {
    assert Pow2(3) == 2 * Pow2(2) == 4 * Pow2(1) == 8;
  }

  lemma AtLeastOneBlock(len: int, block: nat)
    requires Multiple(len, block) && len > 0
    ensures len >= block
  {
    hide Times;
    var t: int :| len == Times(t, block);
    TimesOfOne(block);
    if t <= 0 {
      TimesMonotone(t, 0, block);
    } else {
      TimesMonotone(1, t, block);
    }
  }
}
