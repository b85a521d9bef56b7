/**
 * The pixels of a QR plan and the eight data masks. A pixel is a 32-bit
 * word: its low four bits are its role (finder pattern, timing strip, data
 * bit, ...) and the bits above are an offset, the index of the bit of the
 * final byte stream that a data or check pixel shows, or the index of the
 * format bit a format pixel shows.
 */
module Pixels {
  import opened Arith

  /** Go's uint32. */
  type Pixel = x: int | 0 <= x < 0x1_0000_0000

  const Position: int := 1
  const Alignment: int := 2
  const Timing: int := 3
  const Format: int := 4
  const PVersion: int := 5
  const Unused: int := 6
  const Data: int := 7
  const Check: int := 8
  const Extra: int := 9

  /** p >> 4: the offset held above the role. */
  function Offset(p: Pixel): (o: nat)
    ensures o < 0x1000_0000
  {
    p / 16
  }

  /** p & 15: the role held in the low four bits. */
  function Role(p: Pixel): (r: nat)
    ensures r < 16
  {
    p % 16
  }

  /** Pixel(o << 4): the offset moved above the role bits, truncated to 32 bits. */
  function OffsetPixel(o: nat): (p: Pixel)
    ensures Role(p) == 0
  {
    (16 * o) % 0x1_0000_0000
  }

  /** A role on its own, with offset 0. */
  function RolePixel(r: nat): (p: Pixel)
    requires r < 16
    ensures Role(p) == r && Offset(p) == 0
  {
    r
  }

  /**
   * A role and an offset packed into one pixel (the source writes it both as
   * role | OffsetPixel(o) and as role + OffsetPixel(o); PackIsOr shows the
   * two agree).
   */
  function Pack(r: nat, o: nat): Pixel
    requires r < 16
  {
    RolePixel(r) + OffsetPixel(o)
  }

  /** Unpacking a packed pixel gives back the role and the offset, modulo 2^28. */
  lemma PackRoundTrip(r: nat, o: nat)
    requires r < 16
    ensures Role(Pack(r, o)) == r
    ensures Offset(Pack(r, o)) == o % 0x1000_0000
  {
    var q := o % 0x1000_0000;
    assert (16 * o) % 0x1_0000_0000 == 16 * q;
    assert Pack(r, o) == 16 * q + r;
  }

  /** For an offset below 2^28 the round trip is exact. */
  lemma PackExact(r: nat, o: nat)
    requires r < 16 && o < 0x1000_0000
    ensures Role(Pack(r, o)) == r && Offset(Pack(r, o)) == o
  {
    PackRoundTrip(r, o);
  }

  /** OR with a value whose low k bits are clear adds. */
  lemma {:induction false} OrLowHigh(a: nat, b: nat, k: nat)
    requires a < Pow2(k)
    ensures Or(a, b * Pow2(k)) == a + b * Pow2(k)
  {
    if k > 0 {
      var h := b * Pow2(k);
      assert h == 2 * (b * Pow2(k - 1));
      OrLowHigh(a / 2, b, k - 1);
      if a == 0 && h == 0 {
      } else {
        assert h % 2 == 0 && h / 2 == b * Pow2(k - 1);
      }
    } else {
      assert a == 0;
      OrZero(b);
    }
  }

  lemma {:induction false} OrZero(b: nat)
    ensures Or(0, b) == b
    decreases b
  {
    if b > 0 {
      OrZero(b / 2);
    }
  }

  /** role | OffsetPixel(o) is role + OffsetPixel(o). */
  lemma PackIsOr(r: nat, o: nat)
    requires r < 16
    ensures Or(RolePixel(r), OffsetPixel(o)) == Pack(r, o)
  {
    Pow2Table();
    var q := (16 * o) % 0x1_0000_0000;
    assert q == 16 * (q / 16);
    OrLowHigh(r, q / 16, 4);
  }

  // ---------------------------------------------------------------- masks

  /** Go's integer division, which truncates toward zero. */
  function GoDiv(a: int, b: int): int
    requires b > 0
  {
    if a >= 0 then a / b else -((-a) / b)
  }

  /** Go's remainder, which takes the sign of the dividend. */
  function GoMod(a: int, b: int): (r: int)
    requires b > 0
    ensures a >= 0 ==> r == a % b
    ensures -b < r < b
  {
    a - b * GoDiv(a, b)
  }

  /** The eight mask conditions of the source's mfunc table, for row i and column j. */
  predicate MaskFunc(m: int, i: int, j: int)
    requires 0 <= m < 8
  {
    match m
    case 0 => GoMod(i + j, 2) == 0
    case 1 => GoMod(i, 2) == 0
    case 2 => GoMod(j, 3) == 0
    case 3 => GoMod(i + j, 3) == 0
    case 4 => GoMod(GoDiv(i, 2) + GoDiv(j, 3), 2) == 0
    case 5 => GoMod(i * j, 2) + GoMod(i * j, 3) == 0
    case 6 => GoMod(GoMod(i * j, 2) + GoMod(i * j, 3), 2) == 0
    case _ => GoMod(GoMod(i * j, 3) + GoMod(i + j, 2), 2) == 0
  }

  /** Mask.Invert: whether mask m flips the pixel in row y, column x; no mask (-1) flips nothing. */
  predicate Invert(m: int, y: int, x: int)
    requires m < 8
  {
    if m < 0 then false else MaskFunc(m, y, x)
  }

  /**
   * The mask conditions of table 10 of ISO/IEC 18004, for row i and column j
   * of the symbol, with the mathematical div and mod.
   */
  predicate MaskCondition(m: int, i: nat, j: nat)
    requires 0 <= m < 8
  {
    match m
    case 0 => (i + j) % 2 == 0
    case 1 => i % 2 == 0
    case 2 => j % 3 == 0
    case 3 => (i + j) % 3 == 0
    case 4 => (i / 2 + j / 3) % 2 == 0
    case 5 => (i * j) % 2 + (i * j) % 3 == 0
    case 6 => ((i * j) % 2 + (i * j) % 3) % 2 == 0
    case _ => ((i + j) % 2 + (i * j) % 3) % 2 == 0
  }

  /** On the symbol's cells the source's masks are the standard's conditions. */
  lemma InvertIsStandard(m: int, y: nat, x: nat)
    requires 0 <= m < 8
    ensures Invert(m, y, x) == MaskCondition(m, y, x)
  {
    if m == 4 {
      var h := y / 2 + x / 3;
      assert GoDiv(y, 2) == y / 2 && GoDiv(x, 3) == x / 3;
      assert GoMod(h, 2) == h % 2;
    } else if m >= 5 {
      ProductMasks(m, y, x, y * x);
    }
  }

  lemma ProductMasks(m: int, y: nat, x: nat, p: int)
    requires 5 <= m < 8 && p == y * x
    ensures Invert(m, y, x) == MaskCondition(m, y, x)
  {
    NonNegProduct(y, x);
    if m == 5 {
      assert MaskFunc(m, y, x) == (GoMod(p, 2) + GoMod(p, 3) == 0);
      assert MaskCondition(m, y, x) == (p % 2 + p % 3 == 0);
      ProductMods(p, y + x);
    } else if m == 6 {
      assert MaskFunc(m, y, x) == (GoMod(GoMod(p, 2) + GoMod(p, 3), 2) == 0);
      assert MaskCondition(m, y, x) == ((p % 2 + p % 3) % 2 == 0);
      ProductMods(p, y + x);
    } else {
      var q := y + x;
      assert m == 7;
      assert MaskFunc(7, y, x) == (GoMod(GoMod(p, 3) + GoMod(q, 2), 2) == 0);
      assert MaskCondition(7, y, x) == ((q % 2 + p % 3) % 2 == 0);
      ProductMods(p, q);
    }
  }

  lemma NonNegProduct(a: nat, b: nat)
    ensures a * b >= 0
  {
  }

  /** Go's remainders of a product and a sum of rows and columns, which are not negative. */
  lemma ProductMods(p: nat, q: nat)
    ensures GoMod(p, 2) == p % 2 && GoMod(p, 3) == p % 3 && GoMod(q, 2) == q % 2
    ensures GoMod(GoMod(p, 2) + GoMod(p, 3), 2) == (p % 2 + p % 3) % 2
    ensures GoMod(GoMod(p, 3) + GoMod(q, 2), 2) == (q % 2 + p % 3) % 2
  {
  }
}
