/** 64-bit words (`cl_bitfield`, `cl_ulong`) as a pair of 32-bit halves,
    the low half first. `pushBitField` combines them with `&`; the
    operations below act on each half. */
module Bits {

  datatype Word64 = Word64(low: bv32, high: bv32)

  const AllOnes: Word64 := Word64(0xFFFF_FFFF, 0xFFFF_FFFF)
  const Zero: Word64 := Word64(0, 0)

  function Or32(a: bv32, b: bv32): bv32
  {
    a | b
  }

  function And32(a: bv32, b: bv32): bv32
  {
    a & b
  }

  function Or(a: Word64, b: Word64): Word64
  {
    Word64(Or32(a.low, b.low), Or32(a.high, b.high))
  }

  function And(a: Word64, b: Word64): Word64
  {
    Word64(And32(a.low, b.low), And32(a.high, b.high))
  }

  lemma AndDistributesOverOr32(a: bv32, b: bv32, c: bv32)
    ensures And32(Or32(a, b), c) == Or32(And32(a, c), And32(b, c))
  {
  }

  lemma AndDistributesOverOr(a: Word64, b: Word64, c: Word64)
    ensures And(Or(a, b), c) == Or(And(a, c), And(b, c))
  {
    AndDistributesOverOr32(a.low, b.low, c.low);
    AndDistributesOverOr32(a.high, b.high, c.high);
  }

  lemma ZeroLaws(a: Word64)
    ensures Or(a, Zero) == a && Or(Zero, a) == a
    ensures And(Zero, a) == Zero && And(a, Zero) == Zero
  {
  }

  lemma AllOnes32(a: bv32)
    ensures And32(a, 0xFFFF_FFFF) == a
    ensures And32(a, 0) == 0
    ensures And32(a, a) == a
  {
  }

  lemma AndIdempotent(a: Word64)
    ensures And(a, a) == a
  {
    AllOnes32(a.low);
    AllOnes32(a.high);
  }

  /** Masking with all ones keeps a word; only the all-ones word contains
      every bit. */
  lemma AllOnesLaws(a: Word64)
    ensures And(a, AllOnes) == a
    ensures And(a, AllOnes) == AllOnes <==> a == AllOnes
  {
    AllOnes32(a.low);
    AllOnes32(a.high);
  }

  /** Sign extension of a C `int` to 64 bits, as an `int` converts to a
      64-bit unsigned type: the high half copies the sign bit. */
  function SignExtend(x: bv32): (w: Word64)
    ensures w.low == x
    ensures Value(w) == if x < 0x8000_0000 then x as nat else x as nat + 0xFFFF_FFFF_0000_0000
  {
    if x < 0x8000_0000 then
      ValueOfLow(x);
      Word64(x, 0)
    else
      ValueOfNegative(x);
      Word64(x, 0xFFFF_FFFF)
  }

  lemma ValueOfLow(x: bv32)
    ensures Value(Word64(x, 0)) == x as nat
  {
  }

  lemma ValueOfNegative(x: bv32)
    ensures Value(Word64(x, 0xFFFF_FFFF)) == x as nat + 0xFFFF_FFFF_0000_0000
  {
  }

  /** `-1` stored in an `int` becomes the all-ones 64-bit word. */
  lemma MinusOneExtendsToAllOnes()
    ensures SignExtend(0xFFFF_FFFF) == AllOnes
  {
  }

  /** The number a 64-bit unsigned word stands for. */
  function Value(w: Word64): nat
  {
    (w.high as int) * 0x1_0000_0000 + w.low as int
  }

  /** Small indexes stay apart as 32-bit words: `k as bv32` is injective
      below 32. The detour through `bv5` keeps the solver away from a
      direct integer-to-vector conversion. */
  lemma IndexWordsDiffer(i: int, j: int)
    requires 0 <= i < j < 32
    ensures i as bv32 != j as bv32
  {
    IndexWord(i);
    IndexWord(j);
    NarrowIndex(i);
    NarrowIndex(j);
  }

  lemma IndexWord(i: int)
    requires 0 <= i < 32
    ensures i as bv32 == (i as bv5) as bv32
  {
    NarrowIndex(i);
    WordRoundTrip((i as bv5) as bv32);
  }

  lemma NarrowIndex(i: int)
    requires 0 <= i < 32
    ensures ((i as bv5) as bv32) as int == i
  {
    Index5(i);
    Widen5(i as bv5);
  }

  lemma Index5(i: int)
    requires 0 <= i < 32
    ensures (i as bv5) as int == i
  {
  }

  lemma Widen5(y: bv5)
    ensures (y as bv32) as int == y as int
  {
  }

  lemma WordRoundTrip(x: bv32)
    ensures (x as int) as bv32 == x
  {
  }
}
