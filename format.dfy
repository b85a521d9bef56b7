/**
 * The 15-bit format information of a QR symbol: two bits of error
 * correction level and three bits of mask, extended by ten check bits of
 * the BCH(15,5) code with generator 0x537 and XORed with 0x5412 (section
 * 7.9 of ISO/IEC 18004), and the two places in the symbol where its bits
 * are drawn. The word is a Go uint32, here a bv32.
 */
module Format {

  /** The generator polynomial x^10 + x^8 + x^5 + x^4 + x^2 + x + 1. */
  const FormatPoly: bv32 := 0x537

  /** The five data bits shifted into place: level (L=01, M=00, Q=11, H=10) then mask. */
  function Raw(l: bv32, m: bv32): (fb: bv32)
    ensures l < 4 && m < 8 ==> fb < 1 << 15 && fb & 0x3ff == 0
  {
    ((l ^ 1) << 13) | (m << 10)
  }

  /** One pass of the division loop: clear bit i by subtracting the generator shifted to it. */
  function ReduceStep(rem: bv32, i: int): bv32
    requires 10 <= i <= 14
  {
    if HasBit(rem, i) then rem ^ Shifted(i) else rem
  }

  /** rem & (1 << i) != 0 */
  predicate HasBit(rem: bv32, i: int)
    requires 0 <= i < 32
  {
    rem & (1 << i) != 0
  }

  /** The generator moved up to bit i: FormatPoly << (i - 10). */
  function Shifted(i: int): bv32
    requires 10 <= i <= 14
  {
    FormatPoly << (i - 10)
  }

  /** The remainder before the pass for bit i, i.e. after the passes for bits 14 down to i + 1. */
  function ReduceFrom(raw: bv32, i: int): bv32
    requires 9 <= i <= 14
    decreases 14 - i
  {
    if i == 14 then raw else ReduceStep(ReduceFrom(raw, i + 1), i + 1)
  }

  /** The check bits of raw: its remainder modulo the generator over GF(2). */
  function Remainder(raw: bv32): bv32
  {
    ReduceFrom(raw, 9)
  }

  /** The format word: data and check bits, masked with 0x5412. */
  function FormatWord(l: bv32, m: bv32): bv32
  {
    (Raw(l, m) | Remainder(Raw(l, m))) ^ 0x5412
  }

  /** Bit i of a format word, as the source tests it: (fb >> i) & 1 == 1. */
  predicate FormatBit(fb: bv32, i: int)
    requires 0 <= i < 32
  {
    (fb >> i) & 1 == 1
  }

  /** The quotient of the division: bit i - 10 says whether the pass for bit i subtracted. */
  function Quotient(raw: bv32): bv32
  {
    (if HasBit(ReduceFrom(raw, 10), 10) then 1 else 0)
    | (if HasBit(ReduceFrom(raw, 11), 11) then 2 else 0)
    | (if HasBit(ReduceFrom(raw, 12), 12) then 4 else 0)
    | (if HasBit(ReduceFrom(raw, 13), 13) then 8 else 0)
    | (if HasBit(ReduceFrom(raw, 14), 14) then 16 else 0)
  }

  /** Carry-less (GF(2) polynomial) product of a five-bit q and g. */
  function Clmul(q: bv32, g: bv32): bv32
  {
    (if q & 1 != 0 then g else 0)
    ^ (if q & 2 != 0 then g << 1 else 0)
    ^ (if q & 4 != 0 then g << 2 else 0)
    ^ (if q & 8 != 0 then g << 3 else 0)
    ^ (if q & 16 != 0 then g << 4 else 0)
  }

  /** The five passes of the division loop written out. */
  lemma RemainderUnrolled(raw: bv32)
    ensures Remainder(raw)
      == ReduceStep(ReduceStep(ReduceStep(ReduceStep(ReduceStep(raw, 14), 13), 12), 11), 10)
  {
    assert ReduceFrom(raw, 13) == ReduceStep(raw, 14);
    assert ReduceFrom(raw, 12) == ReduceStep(ReduceFrom(raw, 13), 13);
    assert ReduceFrom(raw, 11) == ReduceStep(ReduceFrom(raw, 12), 12);
    assert ReduceFrom(raw, 10) == ReduceStep(ReduceFrom(raw, 11), 11);
  }

  /**
   * The check bits are a true BCH remainder: below 2^10, and data plus
   * check bits is the generator times the quotient over GF(2). Because the
   * data bits sit above bit 9, OR and XOR agree on them.
   */
  lemma FormatCodeword(l: bv32, m: bv32)
    requires l < 4 && m < 8
    ensures Remainder(Raw(l, m)) < 1 << 10
    ensures Raw(l, m) | Remainder(Raw(l, m)) == Raw(l, m) ^ Remainder(Raw(l, m))
    ensures Raw(l, m) | Remainder(Raw(l, m)) == Clmul(Quotient(Raw(l, m)), FormatPoly)
  {
    var raw := Raw(l, m);
    RemainderUnrolled(raw);
    assert ReduceFrom(raw, 13) == ReduceStep(raw, 14);
    assert ReduceFrom(raw, 12) == ReduceStep(ReduceFrom(raw, 13), 13);
    assert ReduceFrom(raw, 11) == ReduceStep(ReduceFrom(raw, 12), 12);
    assert ReduceFrom(raw, 10) == ReduceStep(ReduceFrom(raw, 11), 11);
  }

  /** Level M (1) with mask 0 has no data bits set, so its word is the mask pattern itself. */
  lemma FormatLevelMMask0()
    ensures FormatWord(1, 0) == 0x5412
  {
    RemainderUnrolled(0);
  }

  /** Level L (0) with mask 0 gives 111011111000100, the first entry of the standard's table. */
  lemma FormatLevelLMask0()
    ensures FormatWord(0, 0) == 0x77c4
  {
    RemainderUnrolled(Raw(0, 0));
  }

  /** The format computation of the source: data bits, the division loop, then the mask. */
  method ComputeFormat(l: bv32, m: bv32) returns (fb: bv32)
    ensures fb == FormatWord(l, m)
  {
    fb := (l ^ 1) << 13;
    fb := fb | (m << 10);
    assert fb == Raw(l, m);
    var rem := Reduce(fb);
    fb := fb | rem;
    fb := fb ^ 0x5412;
  }

  /** The division loop: for bits 14 down to 10, subtract the shifted generator where the bit is set. */
  method Reduce(raw: bv32) returns (rem: bv32)
    ensures rem == Remainder(raw)
  {
    rem := raw;
    var i := 14;
    while i >= 10
      invariant 9 <= i <= 14
      invariant rem == ReduceFrom(raw, i)
    {
      rem := ClearBit(rem, i);
      i := i - 1;
    }
    assert i == 9;
  }

  /** One pass of the loop: if bit i of rem is set, rem ^= FormatPoly << (i - 10). */
  method ClearBit(rem: bv32, i: int) returns (next: bv32)
    requires 10 <= i <= 14
    ensures next == ReduceStep(rem, i)
    ensures !HasBit(next, i)
  {
    next := rem;
    if HasBit(rem, i) {
      next := rem ^ Shifted(i);
    }
  }

  // ------------------------------------------------------------ placement

  /** Where bit i goes in the top-left corner: down column 8 (skipping row 6), then left along row 8 (skipping column 6). */
  function Loc1(i: int): (int, int)
    requires 0 <= i < 15
  {
    if i < 6 then (i, 8)
    else if i < 8 then (i + 1, 8)
    else if i < 9 then (8, 7)
    else (8, 14 - i)
  }

  /** Where bit i goes at the other corners: along row 8 from the right edge, then down column 8 at the bottom. */
  function Loc2(siz: int, i: int): (int, int)
    requires 0 <= i < 15
  {
    if i < 8 then (8, siz - 1 - i) else (siz - 1 - 14 + i, 8)
  }

  /** The format bit drawn in row y, column x, or -1 for a cell that shows none. */
  function FormatIndex(siz: int, y: int, x: int): (i: int)
    ensures -1 <= i < 15
  {
    if x == 8 && 0 <= y <= 5 then y
    else if x == 8 && y == 7 then 6
    else if x == 8 && y == 8 then 7
    else if y == 8 && x == 7 then 8
    else if y == 8 && 0 <= x <= 5 then 14 - x
    else if y == 8 && siz - 8 <= x < siz then siz - 1 - x
    else if x == 8 && siz - 7 <= y < siz then y - siz + 15
    else -1
  }

  /**
   * In a symbol of side at least 21 the two copies of each format bit are
   * the only cells showing that bit: FormatIndex inverts Loc1 and Loc2.
   */
  lemma FormatPlaces(siz: int, y: int, x: int, i: int)
    requires siz >= 21 && 0 <= i < 15
    ensures FormatIndex(siz, y, x) == i <==> (y, x) == Loc1(i) || (y, x) == Loc2(siz, i)
  {
  }

  /** Both copies of each format bit lie inside the symbol. */
  lemma FormatInside(siz: int, i: int)
    requires siz >= 21 && 0 <= i < 15
    ensures 0 <= Loc1(i).0 < siz && 0 <= Loc1(i).1 < siz
    ensures 0 <= Loc2(siz, i).0 < siz && 0 <= Loc2(siz, i).1 < siz
  {
  }
}
