/*
 * 64-bit bitboards: the population count that CountBits computes, the step
 * `b & (b - 1)` that CountBits and PopBit take, and the single-bit set and
 * clear masks MakeBitMasks builds.
 */
module Bits {

  /** The number of set bits of b. */
  function PopCount(b: bv64): nat
    decreases b
  {
    if b == 0 then 0 else (if b & 1 == 1 then 1 else 0) + PopCount(b >> 1)
  }

  /** Bit j of b is set. */
  predicate BitOf(b: bv64, j: bv64)
    requires j < 64
  {
    (b >> j) & 1 == 1
  }

  /** uint64(1) << i: the SetMask entry of square i. */
  function SingleBit(i: bv64): bv64
    requires i < 64
  {
    1 << i
  }

  /** The OR that SetBit and MakeBitMasks apply. */
  function BitOr(a: bv64, b: bv64): bv64 { a | b }

  /** The word with bit s alone set, built by doubling. */
  function Bit(s: nat): bv64
    requires s < 64
  {
    if s == 0 then 1 else Bit(s - 1) << 1
  }

  /** One more place of shift is one more doubling. */
  lemma ShiftSucc(k: bv64)
    requires k < 63
    ensures SingleBit(k + 1) == SingleBit(k) << 1
  {
  }

  /** uint64(1) << s, as MakeBitMasks computes it, is the word with bit s alone set. */
  lemma {:induction false} SingleBitIsBit(s: nat)
    requires s < 64
    ensures SingleBit(Index(s)) == Bit(s)
  {
    if s > 0 {
      SingleBitIsBit(s - 1);
      IndexSucc(s);
      ShiftSucc(Index(s - 1));
    }
  }

  /** Consecutive squares have consecutive shift amounts. */
  lemma IndexSucc(s: int)
    requires 0 < s < 64
    ensures Index(s) == Index(s - 1) + 1
  {
  }

  /** SetMask as a whole: one single-bit word per square. */
  function SetMasks(): (t: seq<bv64>)
    ensures |t| == 64
  {
    seq(64, s requires 0 <= s < 64 => Bit(s))
  }

  /** ClearMask as a whole: the complement of each set mask. */
  function ClearMasks(): (t: seq<bv64>)
    ensures |t| == 64
  {
    NotEach(SetMasks())
  }

  /** SetMask[s] has bit s alone set, ClearMask[s] every bit but s. */
  lemma MaskAt(s: int)
    requires 0 <= s < 64
    ensures SetMasks()[s] == Bit(s)
    ensures ClearMasks()[s] == BitNot(Bit(s))
  {
  }

  /**
   * Masks built from zero words: OR-ing each square's bit into 0 and
   * complementing gives exactly SetMasks() and ClearMasks().
   */
  lemma MasksFromZero(on: seq<bv64>, off: seq<bv64>)
    requires |on| == 64 && |off| == 64
    requires forall s :: 0 <= s < 64 ==> on[s] == BitOr(0, Bit(s))
    requires forall s :: 0 <= s < 64 ==> off[s] == BitNot(on[s])
    ensures on == SetMasks() && off == ClearMasks()
  {
    forall s | 0 <= s < 64
      ensures on[s] == SetMasks()[s] && off[s] == ClearMasks()[s]
    {
      MaskAt(s);
    }
  }

  /** The complement of each word. */
  function NotEach(a: seq<bv64>): (r: seq<bv64>)
    ensures |r| == |a| && forall i :: 0 <= i < |a| ==> r[i] == BitNot(a[i])
  {
    seq(|a|, i requires 0 <= i < |a| => BitNot(a[i]))
  }

  /** The complement MakeBitMasks takes of each set mask. */
  function BitNot(a: bv64): bv64 { !a }

  /** The AND that ClearBit applies. */
  function BitAnd(a: bv64, b: bv64): bv64 { a & b }

  /** A 64-square index as a shift amount. */
  function Index(i: int): (k: bv64)
    requires 0 <= i < 64
    ensures k < 64
  {
    Count8(i) as bv64
  }

  /** i as an eight-bit word, counted up from zero. */
  function Count8(i: int): (k: bv8)
    requires 0 <= i < 64
    ensures k as int == i && k < 64
  {
    if i == 0 then 0 else Count8(i - 1) + 1
  }

  /** Square s's bit set in b: what SetBit computes. */
  function WithBit(b: bv64, s: int): bv64
    requires 0 <= s < 64
  {
    b | Bit(s)
  }

  /** Square s's bit cleared in b: what ClearBit computes. */
  function WithoutBit(b: bv64, s: int): bv64
    requires 0 <= s < 64
  {
    b & !Bit(s)
  }

  /** SingleBit(i) has bit i and no other bit set. */
  lemma SingleBitIsSingle(i: bv64, j: bv64)
    requires i < 64 && j < 64
    ensures BitOf(SingleBit(i), j) <==> j == i
  {
  }

  /** OR with SetMask[i] sets bit i and keeps every other bit (SetBit). */
  lemma SetBitOnly(b: bv64, i: bv64, j: bv64)
    requires i < 64 && j < 64
    ensures BitOf(b | SingleBit(i), j) <==> (j == i || BitOf(b, j))
  {
  }

  /** AND with ClearMask[i] = ~SetMask[i] clears bit i and keeps every other bit (ClearBit). */
  lemma ClearBitOnly(b: bv64, i: bv64, j: bv64)
    requires i < 64 && j < 64
    ensures BitOf(b & !SingleBit(i), j) <==> (j != i && BitOf(b, j))
  {
  }

  lemma ShiftAnd(x: bv64, y: bv64)
    ensures (x & y) >> 1 == (x >> 1) & (y >> 1)
  {
  }

  lemma EvenPred(b: bv64)
    requires b & 1 == 0 && b != 0
    ensures (b - 1) >> 1 == (b >> 1) - 1
  {
  }

  lemma EvenShift(b: bv64)
    requires b & 1 == 0 && b != 0
    ensures b >> 1 != 0 && (b >> 1) < b
  {
  }

  lemma AndEven(b: bv64)
    requires b & 1 == 0
    ensures (b & (b - 1)) & 1 == 0
  {
  }

  lemma OddFacts(b: bv64)
    requires b & 1 == 1
    ensures (b & (b - 1)) >> 1 == b >> 1 && (b & (b - 1)) & 1 == 0
  {
  }

  lemma EvenCount(x: bv64)
    requires x & 1 == 0
    ensures PopCount(x) == PopCount(x >> 1)
  {
  }

  lemma OddCount(x: bv64)
    requires x & 1 == 1
    ensures PopCount(x) == 1 + PopCount(x >> 1)
  {
  }

  /** For an even non-zero b, clearing the lowest set bit commutes with the shift. */
  lemma EvenHalf(b: bv64, h: bv64)
    requires b & 1 == 0 && b != 0 && h == b >> 1
    ensures (b & (b - 1)) >> 1 == h & (h - 1)
  {
    ShiftAnd(b, b - 1);
    EvenPred(b);
  }

  lemma OddStep(b: bv64)
    requires b & 1 == 1
    ensures PopCount(b & (b - 1)) == PopCount(b) - 1
  {
    OddFacts(b);
    OddCount(b);
    EvenCount(b & (b - 1));
  }

  lemma EvenStep(b: bv64, h: bv64)
    requires b & 1 == 0 && b != 0 && h == b >> 1 && h != 0
    requires PopCount(h & (h - 1)) == PopCount(h) - 1
    ensures PopCount(b & (b - 1)) == PopCount(b) - 1
  {
    EvenHalf(b, h);
    AndEven(b);
    EvenCount(b & (b - 1));
    EvenCount(b);
  }

  /** b & (b - 1) has exactly one set bit fewer than a non-zero b: the step CountBits and PopBit take. */
  lemma {:induction false} PopCountStep(b: bv64)
    requires b != 0
    ensures PopCount(b & (b - 1)) == PopCount(b) - 1
    decreases b
  {
    if b & 1 == 1 {
      OddStep(b);
    } else {
      var h := b >> 1;
      EvenShift(b);
      PopCountStep(h);
      EvenStep(b, h);
    }
  }

  /**
   * The step b & (b - 1): the lowest set bit of b cleared. A non-zero b
   * loses exactly one set bit and gains none; zero stays zero.
   */
  function ClearLowest(b: bv64): (r: bv64)
    ensures b != 0 ==> PopCount(r) == PopCount(b) - 1
    ensures b == 0 ==> r == 0
    ensures r & !b == 0
  {
    if b != 0 then
      PopCountStep(b);
      b & (b - 1)
    else
      b & (b - 1)
  }

  /** Only the empty bitboard has no set bit. */
  lemma PopCountZero(b: bv64)
    ensures PopCount(b) == 0 <==> b == 0
  {
    if b != 0 {
      PopCountStep(b);
    }
  }

  // Conversions between byte values, bv8 and bv32, kept apart from the chess modules.

  /** Shifting a word holding a value below 128 up one place and setting the low bit doubles the value and adds the bit. */
  lemma DoubleAsInt(b: bv8, v: int, bit: bv8)
    requires b as int == v && v < 128 && bit <= 1
    ensures ((b << 1) | bit) as int == 2 * v + bit as int
  {
  }

  lemma WidenValue(y: bv8)
    ensures (y as bv32) as int == y as int
  {
  }

  lemma CompareAsInt(b: bv32)
    ensures b < 128 <==> b as int < 128
    ensures b < 16 <==> b as int < 16
  {
  }

  lemma FieldAsInt(b: bv32)
    requires b < 256
    ensures 0 <= b as int < 256
  {
  }

  lemma Bv32Injective(a: bv32, b: bv32)
    requires a as int == b as int
    ensures a == b
  {
    IntRoundTrip(a);
    IntRoundTrip(b);
  }

  lemma IntRoundTrip(b: bv32)
    ensures (b as int) as bv32 == b
  {
  }
}
