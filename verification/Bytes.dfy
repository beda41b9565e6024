// Bytes, 16-bit words, the bit operations the source applies to unsigned
// machine words, and occurrence of one sequence in another.
module Bytes {
  type Byte = x: int | 0 <= x < 0x100
  type Word = x: int | 0 <= x < 0x1_0000

  type Octets = seq<Byte>

  function Pow2(n: nat): (p: nat)
    ensures p > 0
  {
    if n == 0 then 1 else 2 * Pow2(n - 1)
  }

  function BitOr(a: nat, b: nat): nat {
    if a == 0 && b == 0 then 0
    else 2 * BitOr(a / 2, b / 2) + if a % 2 == 1 || b % 2 == 1 then 1 else 0
  }

  function BitAnd(a: nat, b: nat): nat {
    if a == 0 || b == 0 then 0
    else 2 * BitAnd(a / 2, b / 2) + if a % 2 == 1 && b % 2 == 1 then 1 else 0
  }

  // Shift left by eight on a 64-bit word: bits shifted out are lost.
  function ShiftLeft8(a: nat): nat {
    a * 0x100 % 0x1_0000_0000_0000_0000
  }

  // Whether `sub` stands in `s` at position `i`, or anywhere.
  predicate OccursAt<T(==)>(s: seq<T>, sub: seq<T>, i: nat) {
    i + |sub| <= |s| && s[i..i + |sub|] == sub
  }

  predicate Contains<T(==)>(s: seq<T>, sub: seq<T>) {
    exists i :: 0 <= i <= |s| && OccursAt(s, sub, i)
  }

  lemma ConcatAssoc(a: Octets, b: Octets, c: Octets)
    ensures a + (b + c) == (a + b) + c
  {}

  // ----- Or with something below the lowest set bit is an addition -----

  lemma {:induction false} OrOfDisjoint(a: nat, k: nat, b: nat)
    requires b < Pow2(k)
    ensures BitOr(a * Pow2(k), b) == a * Pow2(k) + b
  {
    if k == 0 {
      OrZero(a);
    } else {
      var m := a * Pow2(k - 1);
      assert a * Pow2(k) == 2 * m;
      OrOfDisjoint(a, k - 1, b / 2);
    }
  }

  lemma {:induction false} OrZero(a: nat)
    ensures BitOr(a, 0) == a
  {
    if a != 0 {
      OrZero(a / 2);
    }
  }

  // ----- And with a mask keeps the bits under it -----

  // The `k` lowest bits of a word, and the word with them cleared.
  function LowBits(a: nat, k: nat): nat
    decreases k
  {
    if k == 0 then 0 else 2 * LowBits(a / 2, k - 1) + a % 2
  }

  function RoundDown(a: nat, k: nat): nat
    decreases k
  {
    if k == 0 then a else 2 * RoundDown(a / 2, k - 1)
  }

  // `j` ones followed by `k` zeros.
  function Mask(j: nat, k: nat): nat
    decreases k, j
  {
    if k > 0 then 2 * Mask(j, k - 1)
    else if j > 0 then 2 * Mask(j - 1, 0) + 1
    else 0
  }

  lemma {:induction false} MaskValue(j: nat, k: nat)
    ensures Mask(j, k) == Pow2(j + k) - Pow2(k)
    decreases k, j
  {
    if k > 0 {
      MaskValue(j, k - 1);
    } else if j > 0 {
      MaskValue(j - 1, 0);
    }
  }

  lemma {:induction false} AndLowMask(a: nat, j: nat)
    ensures BitAnd(a, Mask(j, 0)) == LowBits(a, j)
  {
    if j > 0 {
      AndLowMask(a / 2, j - 1);
      if a == 0 { LowBitsOfZero(j); }
    }
  }

  lemma {:induction false} LowBitsOfZero(j: nat)
    ensures LowBits(0, j) == 0
  {
    if j > 0 { LowBitsOfZero(j - 1); }
  }

  lemma {:induction false} AllLowBits(a: nat, j: nat)
    requires a < Pow2(j)
    ensures LowBits(a, j) == a
  {
    if j > 0 { AllLowBits(a / 2, j - 1); }
  }

  // On a (j + k)-bit word, a mask of `j` ones followed by `k` zeros clears the
  // `k` lowest bits.
  lemma {:induction false} HighBits(a: nat, j: nat, k: nat)
    requires a < Pow2(j + k)
    ensures BitAnd(a, Mask(j, k)) == RoundDown(a, k)
  {
    if k == 0 {
      AndLowMask(a, j);
      AllLowBits(a, j);
    } else {
      HighBits(a / 2, j, k - 1);
    }
  }

  // The words that agree with `n` above their `k` lowest bits form a block.
  lemma {:induction false} SameBlock(a: nat, n: nat, k: nat)
    ensures RoundDown(n, k) <= a < RoundDown(n, k) + Pow2(k) <==> RoundDown(a, k) == RoundDown(n, k)
  {
    if k > 0 { SameBlock(a / 2, n / 2, k - 1); }
  }

  lemma {:induction false} BelowTopBit(a: nat, k: nat)
    ensures RoundDown(a, k) == 0 <==> a < Pow2(k)
    ensures Pow2(k) <= a < Pow2(k + 1) ==> LowBits(a, k) == a - Pow2(k)
  {
    if k > 0 { BelowTopBit(a / 2, k - 1); }
  }

  // The top bit of a byte, and the seven below it.
  lemma TopBit(b: Byte)
    ensures BitAnd(b, 0x80) == 0 <==> b < 0x80
    ensures b >= 0x80 ==> BitAnd(b, 0x7F) == b - 0x80
  {
    TopBitPowers();
    HighBits(b, 1, 7);
    AndLowMask(b, 7);
    BelowTopBit(b, 7);
  }

  lemma TopBitPowers()
    ensures Pow2(7) == 0x80 && Pow2(8) == 0x100 && Mask(1, 7) == 0x80 && Mask(7, 0) == 0x7F
  {
    MaskValue(1, 7);
    MaskValue(7, 0);
  }

  // One turn of `length = (length << 8) | octet`: while fewer than seven
  // octets have been read, no bit is lost and the or is an addition.
  lemma ShiftOr(length: nat, octet: Byte)
    requires length < 0x100_0000_0000_0000
    ensures BitOr(ShiftLeft8(length), octet) == length * 0x100 + octet
  {
    NoBitLost(length * 0x100);
    TopBitPowers();
    OrOfDisjoint(length, 8, octet);
  }

  lemma NoBitLost(a: nat)
    requires a < 0x1_0000_0000_0000_0000
    ensures a % 0x1_0000_0000_0000_0000 == a
  {}
}
