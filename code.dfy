/**
 * A finished QR code: a square grid of pixels stored one bit per pixel,
 * most significant bit first, `Stride` bytes per row. Black pixels are 1.
 * The penalty score the encoder uses to choose among the eight masks is a
 * scan of the rows and the columns of this grid.
 */
module Codes {
  import opened Arith
  import opened BitWriter
  import opened Pixels
  import opened Tables

  /** Bit t of Pow2(s) is set exactly when t == s. */
  lemma BitPow2(s: nat, t: nat)
    ensures Bit(Pow2(s), t) <==> s == t
  {
    BitMul(1, s, t);
    assert 1 * Pow2(s) == Pow2(s);
    if s < t {
      BitZero(t - s - 1);
    }
  }

  // ------------------------------------------------------------ the grid

  /** Index of the byte holding column x of row y, for rows of `stride` bytes. */
  function CellByte(stride: int, y: int, x: int): int
  {
    y * stride + x / 8
  }

  /** A pixel inside a size x size grid lies in the first size * stride bytes. */
  lemma CellInRange(size: int, stride: int, y: int, x: int)
    requires 0 <= x < size <= 8 * stride && 0 <= y < size
    ensures 0 <= CellByte(stride, y, x) < size * stride
  {
    assert 8 * (x / 8) <= x;
    MulMono(y + 1, size, stride);
    assert (y + 1) * stride == y * stride + stride;
  }

  /** Two pixels with the same byte and the same bit are the same pixel. */
  lemma CellUnique(stride: int, y: int, x: int, y2: int, x2: int)
    requires 0 <= x < 8 * stride && 0 <= x2 < 8 * stride && 0 <= y && 0 <= y2
    requires CellByte(stride, y, x) == CellByte(stride, y2, x2) && x % 8 == x2 % 8
    ensures y == y2 && x == x2
  {
    assert 8 * (x / 8) <= x && 8 * (x2 / 8) <= x2;
    MulSucc(y, stride);
    MulSucc(y2, stride);
    if y < y2 {
      MulMono(y + 1, y2, stride);
    } else if y2 < y {
      MulMono(y2 + 1, y, stride);
    }
  }

  lemma MulSucc(y: int, stride: int)
    ensures (y + 1) * stride == y * stride + stride
  {
  }

  /** The bytes needed to hold a pixel of bm[base:] exist. */
  ghost predicate Holds(bm: seq<Byte>, base: int, stride: int, y: int, x: int)
  {
    0 <= x && 0 <= base + CellByte(stride, y, x) < |bm|
  }

  /** Whether the pixel in row y, column x of the bitmap bm[base:] is set. */
  predicate Lit(bm: seq<Byte>, base: int, stride: int, y: int, x: int)
    requires Holds(bm, base, stride, y, x)
  {
    Bit(bm[base + CellByte(stride, y, x)], 7 - x % 8)
  }

  /** The bitmap bm[base:] with the pixel in row y, column x set. */
  function SetLit(bm: seq<Byte>, base: int, stride: int, y: int, x: int): (r: seq<Byte>)
    requires Holds(bm, base, stride, y, x)
    ensures |r| == |bm|
    ensures forall j :: 0 <= j < |bm| && j != base + CellByte(stride, y, x) ==> r[j] == bm[j]
  {
    var k := base + CellByte(stride, y, x);
    bm[k := OrByte(bm[k], Pow2(7 - x % 8))]
  }

  /** A pixel is lit when its bit of its byte is set. */
  lemma LitByte(bm: seq<Byte>, base: int, stride: int, y: int, x: int)
    requires Holds(bm, base, stride, y, x)
    ensures Lit(bm, base, stride, y, x) <==> Bit(bm[base + CellByte(stride, y, x)], 7 - x % 8)
  {
  }

  /** Setting a pixel sets that pixel and leaves every other pixel of the grid as it was. */
  lemma SetLitEffect(bm: seq<Byte>, base: int, stride: int, y: nat, x: nat, y2: nat, x2: nat)
    requires x < 8 * stride && x2 < 8 * stride
    requires Holds(bm, base, stride, y, x) && Holds(bm, base, stride, y2, x2)
    ensures Lit(SetLit(bm, base, stride, y, x), base, stride, y2, x2)
        <==> Lit(bm, base, stride, y2, x2) || (y2 == y && x2 == x)
  {
    var k, k2 := base + CellByte(stride, y, x), base + CellByte(stride, y2, x2);
    var t, t2 := 7 - x % 8, 7 - x2 % 8;
    assert SetLit(bm, base, stride, y, x) == bm[k := OrByte(bm[k], Pow2(t))];
    LitByte(SetLit(bm, base, stride, y, x), base, stride, y2, x2);
    LitByte(bm, base, stride, y2, x2);
    SetByteEffect(bm, k, t, k2, t2);
    if k == k2 && t == t2 {
      CellUnique(stride, y, x, y2, x2);
    }
  }

  /** Setting bit t of byte k sets that bit and keeps every other bit of every byte. */
  lemma SetByteEffect(bm: seq<Byte>, k: int, t: nat, k2: int, t2: nat)
    requires 0 <= k < |bm| && 0 <= k2 < |bm| && t < 8 && t2 < 8
    ensures Bit(bm[k := OrByte(bm[k], Pow2(t))][k2], t2) <==> Bit(bm[k2], t2) || (k == k2 && t == t2)
  {
    if k == k2 {
      OrByteBits(bm[k], Pow2(t), t2);
      BitPow2(t, t2);
    }
  }

  /** A bitmap that holds a size x size grid of rows of `stride` bytes. */
  ghost predicate Grid(bm: seq<Byte>, size: int, stride: int)
  {
    0 <= size <= 8 * stride && size * stride <= |bm|
  }

  /** Code.Black on a bitmap: pixels outside the grid are white. */
  predicate Colour(bm: seq<Byte>, size: int, stride: int, x: int, y: int)
    requires Grid(bm, size, stride)
  {
    0 <= x < size && 0 <= y < size &&
      (CellInRange(size, stride, y, x); Lit(bm, 0, stride, y, x))
  }

  /** A size x size grid of rows of `stride` bytes fits in bm from byte `base` on. */
  ghost predicate Region(bm: seq<Byte>, base: int, size: int, stride: int)
  {
    0 <= base && 0 <= size <= 8 * stride && base + size * stride <= |bm|
  }

  /** Whether the pixel in row y, column x of the grid stored at bm[base:] is set; false off the grid. */
  predicate Shows(bm: seq<Byte>, base: int, size: int, stride: int, y: int, x: int)
  {
    && 0 <= base && 0 <= size <= 8 * stride && base + size * stride <= |bm|
    && 0 <= y < size && 0 <= x < size
    && (CellInRange(size, stride, y, x); Lit(bm, base, stride, y, x))
  }

  /** Setting a pixel of a grid shows that pixel, keeps every other one, and touches no byte outside the grid. */
  lemma SetShows(bm: seq<Byte>, base: int, size: int, stride: int, y: int, x: int)
    requires Region(bm, base, size, stride) && 0 <= y < size && 0 <= x < size
    requires Holds(bm, base, stride, y, x)
    ensures forall i, j :: (Shows(SetLit(bm, base, stride, y, x), base, size, stride, i, j)
                            <==> Shows(bm, base, size, stride, i, j) || (i == y && j == x))
    ensures forall k :: (0 <= k < |bm| && (k < base || base + size * stride <= k)
                         ==> SetLit(bm, base, stride, y, x)[k] == bm[k])
  {
    CellInRange(size, stride, y, x);
    forall i, j | 0 <= i < size && 0 <= j < size
      ensures Shows(SetLit(bm, base, stride, y, x), base, size, stride, i, j)
        <==> Shows(bm, base, size, stride, i, j) || (i == y && j == x)
    {
      CellInRange(size, stride, i, j);
      SetLitEffect(bm, base, stride, y, x, i, j);
    }
  }

  /** Two grids whose bytes agree show the same pixels. */
  lemma ShowsSame(bm: seq<Byte>, base: int, bm2: seq<Byte>, base2: int, size: int, stride: int)
    requires Region(bm, base, size, stride) && Region(bm2, base2, size, stride)
    requires forall k :: base <= k < base + size * stride ==> bm[k] == bm2[k - base + base2]
    ensures forall i, j :: Shows(bm, base, size, stride, i, j) <==> Shows(bm2, base2, size, stride, i, j)
  {
    forall i, j | 0 <= i < size && 0 <= j < size
      ensures Shows(bm, base, size, stride, i, j) <==> Shows(bm2, base2, size, stride, i, j)
    {
      CellInRange(size, stride, i, j);
      var k := base + CellByte(stride, i, j);
      assert bm[k] == bm2[k - base + base2];
    }
  }

  /** A bitmap of zero bytes shows no pixel. */
  lemma ShowsNothing(bm: seq<Byte>, base: int, size: int, stride: int)
    requires forall k :: 0 <= k < |bm| ==> bm[k] == 0
    ensures forall i, j :: !Shows(bm, base, size, stride, i, j)
  {
    forall i, j | Shows(bm, base, size, stride, i, j)
      ensures false
    {
      CellInRange(size, stride, i, j);
      BitZero(7 - j % 8);
    }
  }

  /** `x ^= y` on bytes. */
  function XorByte(x: Byte, y: Byte): (r: Byte)
    ensures forall t :: 0 <= t < 8 ==> (Bit(r, t) <==> Bit(x, t) != Bit(y, t))
  {
    Pow2Byte();
    XorBound(x, y, 8);
    forall t | 0 <= t < 8
      ensures Bit(Xor(x, y), t) <==> Bit(x, t) != Bit(y, t)
    {
      BitXor(x, y, t);
    }
    Xor(x, y)
  }

  /** `b ^= 1 << t`: flips bit t of a byte and keeps the others. */
  function FlipBit(b: Byte, t: int): (r: Byte)
    requires 0 <= t < 8
    ensures forall s :: 0 <= s < 8 ==> (Bit(r, s) <==> Bit(b, s) != (s == t))
  {
    Pow2Mono(t, 7);
    Pow2Byte();
    Pow2Mono(7, 8);
    forall s | 0 <= s < 8
      ensures Bit(Pow2(t), s) <==> s == t
    {
      BitPow2(t, s);
    }
    XorByte(b, Pow2(t))
  }

  /** The bitmap bm[base:] with the pixel in row y, column x flipped. */
  function FlipLit(bm: seq<Byte>, base: int, stride: int, y: int, x: int): (r: seq<Byte>)
    requires Holds(bm, base, stride, y, x)
    ensures |r| == |bm|
    ensures forall j :: 0 <= j < |bm| && j != base + CellByte(stride, y, x) ==> r[j] == bm[j]
  {
    var k := base + CellByte(stride, y, x);
    bm[k := FlipBit(bm[k], 7 - x % 8)]
  }

  /** Flipping a pixel of a grid flips that pixel, keeps every other one, and touches no byte outside the grid. */
  lemma FlipShows(bm: seq<Byte>, base: int, size: int, stride: int, y: int, x: int)
    requires Region(bm, base, size, stride) && 0 <= y < size && 0 <= x < size
    requires Holds(bm, base, stride, y, x)
    ensures forall i, j :: (Shows(FlipLit(bm, base, stride, y, x), base, size, stride, i, j)
                            <==> Shows(bm, base, size, stride, i, j) != (i == y && j == x))
    ensures forall k :: (0 <= k < |bm| && (k < base || base + size * stride <= k)
                         ==> FlipLit(bm, base, stride, y, x)[k] == bm[k])
  {
    CellInRange(size, stride, y, x);
    var k, t := base + CellByte(stride, y, x), 7 - x % 8;
    var r := FlipLit(bm, base, stride, y, x);
    forall i, j | 0 <= i < size && 0 <= j < size
      ensures Shows(r, base, size, stride, i, j) <==> Shows(bm, base, size, stride, i, j) != (i == y && j == x)
    {
      CellInRange(size, stride, i, j);
      var k2, t2 := base + CellByte(stride, i, j), 7 - j % 8;
      if k2 == k {
        if t == t2 {
          CellUnique(stride, y, x, i, j);
        }
      } else {
        assert r[k2] == bm[k2];
        assert i != y || j != x;
      }
    }
  }

  /** The bytes of a, each XORed with the byte of d at the same index. */
  function XorBytes(a: seq<Byte>, d: seq<Byte>): (r: seq<Byte>)
    requires |a| == |d|
    ensures |r| == |a| && forall i :: 0 <= i < |a| ==> r[i] == XorByte(a[i], d[i])
  {
    seq(|a|, i requires 0 <= i < |a| => XorByte(a[i], d[i]))
  }

  /** XORing two grids byte by byte XORs their pixels. */
  lemma XorShows(a: seq<Byte>, d: seq<Byte>, size: int, stride: int)
    requires |a| == |d| && Region(a, 0, size, stride)
    ensures forall i, j :: Shows(XorBytes(a, d), 0, size, stride, i, j)
                           <==> Shows(a, 0, size, stride, i, j) != Shows(d, 0, size, stride, i, j)
  {
    var r := XorBytes(a, d);
    forall i, j | 0 <= i < size && 0 <= j < size
      ensures Shows(r, 0, size, stride, i, j) <==> Shows(a, 0, size, stride, i, j) != Shows(d, 0, size, stride, i, j)
    {
      CellInRange(size, stride, i, j);
    }
  }

  // ------------------------------------------------------------ the penalty scan

  /** The last pixels of a line, as a 16-bit word, for two finder patterns. */
  const FindB: int := 2976   // 0b0000_1011101_0 << 4: quiet zone before
  const FindA: int := 23808  // 0b0_1011101_0000 << 4: quiet zone after

  /**
   * The state of a scan along one line: colour of the last pixel, length of
   * the current run, the last twelve pixels (shifted left four bits, as a
   * uint16), the penalty so far on this line and the black pixels counted.
   */
  datatype Scan = Scan(black: bool, r: int, pat: int, p: int, bal: int)

  /** The scan after the first pixel of a line. */
  function ScanStart(c: bool): Scan
  {
    Scan(c, 1, if c then 16 else 0, 0, if c then 1 else 0)
  }

  /**
   * One step of the scan: pixel c arrives. A change of colour ends a run
   * (a run of n >= 5 scores n - 2); otherwise a 2x2 box of one colour
   * ending here scores 3. A white pixel that completes a finder pattern
   * scores 40.
   */
  function ScanStep(s: Scan, c: bool, box: bool): Scan
  {
    var changed := c != s.black;
    var p := if changed then s.p + (if s.r >= 5 then s.r - 2 else 0)
             else if box then s.p + 3 else s.p;
    var black := if changed then !s.black else s.black;
    var r := if changed then 0 else s.r;
    var pat := (2 * s.pat) % 65536;
    if black then Scan(black, r + 1, Or(16, pat), p, s.bal + 1)
    else Scan(black, r + 1, pat, if pat == FindB || pat == FindA then p + 40 else p, s.bal)
  }

  /**
   * What the end of a line adds: the last run, a finder pattern with one
   * pixel in the quiet zone (80) or one with one to four pixels there (40).
   */
  function Finish(s: Scan): int
  {
    var pat := (2 * s.pat) % 65536;
    (if s.r >= 5 then s.r - 2 else 0) +
    (if pat == FindB then 80
     else if FindA == pat || FindA == (2 * pat) % 65536 || FindA == (4 * pat) % 65536
          || FindA == (8 * pat) % 65536 then 40
     else 0)
  }

  /** Pixel i of a line: row `line` when horizontal, column `line` when vertical. */
  predicate Cell(bm: seq<Byte>, size: int, stride: int, vertical: bool, line: int, i: int)
    requires Grid(bm, size, stride)
  {
    if vertical then Colour(bm, size, stride, line, i) else Colour(bm, size, stride, i, line)
  }

  /** Boxes are scored on rows only: pixel i and the two above it to the left share colour. */
  predicate Box(bm: seq<Byte>, size: int, stride: int, vertical: bool, line: int, i: int, black: bool)
    requires Grid(bm, size, stride)
  {
    !vertical && line != 0 &&
      Colour(bm, size, stride, i - 1, line - 1) == black && Colour(bm, size, stride, i, line - 1) == black
  }

  /** The scan of a line after its pixels 0..i. */
  function LineState(bm: seq<Byte>, size: int, stride: int, vertical: bool, line: int, i: nat): Scan
    requires Grid(bm, size, stride)
  {
    if i == 0 then ScanStart(Cell(bm, size, stride, vertical, line, 0))
    else
      var s := LineState(bm, size, stride, vertical, line, i - 1);
      ScanStep(s, Cell(bm, size, stride, vertical, line, i), Box(bm, size, stride, vertical, line, i, s.black))
  }

  /** Everything one line scores. */
  function LinePenalty(bm: seq<Byte>, size: int, stride: int, vertical: bool, line: int): int
    requires Grid(bm, size, stride) && size >= 1
  {
    var s := LineState(bm, size, stride, vertical, line, size - 1);
    s.p + Finish(s)
  }

  /** The scores of lines 0..n-1. */
  function LinesPenalty(bm: seq<Byte>, size: int, stride: int, vertical: bool, n: nat): int
    requires Grid(bm, size, stride) && size >= 1
  {
    if n == 0 then 0
    else LinesPenalty(bm, size, stride, vertical, n - 1) + LinePenalty(bm, size, stride, vertical, n - 1)
  }

  /** The black pixels counted by the row scans of rows 0..n-1. */
  function RowsBlack(bm: seq<Byte>, size: int, stride: int, n: nat): int
    requires Grid(bm, size, stride) && size >= 1
  {
    if n == 0 then 0
    else RowsBlack(bm, size, stride, n - 1) + LineState(bm, size, stride, false, n - 1, size - 1).bal
  }

  /**
   * The colour-balance score for bal black pixels out of sq: 10 points for
   * each full 5% step of the folded count, taken from 9.
   */
  function Balance(bal: int, sq: int): int
    requires sq > 0
  {
    var b := if bal > sq / 2 then sq - bal else bal;
    (9 - b * 20 / sq) * 10
  }

  /** The penalty of a grid: rows, then the balance, then columns. */
  function PenaltyOf(bm: seq<Byte>, size: int, stride: int): int
    requires Grid(bm, size, stride) && size >= 1
  {
    LinesPenalty(bm, size, stride, false, size)
      + Balance(RowsBlack(bm, size, stride, size), size * size)
      + LinesPenalty(bm, size, stride, true, size)
  }

  // ------------------------------------------------------------ what the scan computes

  /** The number of black pixels among pixels 0..i of a line. */
  function BlackIn(bm: seq<Byte>, size: int, stride: int, vertical: bool, line: int, i: nat): nat
    requires Grid(bm, size, stride)
  {
    (if i == 0 then 0 else BlackIn(bm, size, stride, vertical, line, i - 1))
      + (if Cell(bm, size, stride, vertical, line, i) then 1 else 0)
  }

  /** The number of black pixels in rows 0..n-1 of the grid. */
  function BlackRows(bm: seq<Byte>, size: int, stride: int, n: nat): nat
    requires Grid(bm, size, stride) && size >= 1
  {
    if n == 0 then 0
    else BlackRows(bm, size, stride, n - 1) + BlackIn(bm, size, stride, false, n - 1, size - 1)
  }

  /** Setting bit 4 of a pattern word whose low five bits are clear adds 16. */
  lemma PatternBit(g: nat)
    requires g < 2048
    ensures Or(16, 32 * g) == 32 * g + 16
  {
    Pow2Table();
    assert Pow2(5) == 32;
    OrLowHigh(16, g, 5);
  }

  lemma PatternAligned(g: nat)
    requires g < 2048
    ensures 32 * g + 16 < 65536 && (32 * g) % 16 == 0 && (32 * g + 16) % 16 == 0
  {
    assert 32 * g == 16 * (2 * g);
    assert 32 * g + 16 == 16 * (2 * g + 1);
  }

  /** The facts LineInvariant keeps about a scan that has seen i pixels. */
  ghost predicate ScanBounds(s: Scan, i: nat)
  {
    && 1 <= s.r <= i
    && 0 <= s.p && s.p + s.r <= 44 * i - 43
    && 0 <= s.pat < 65536 && s.pat % 16 == 0
  }

  /** One step keeps the bounds: the run grows by one or restarts, and at most 44 points are added. */
  lemma StepBounds(s: Scan, c: bool, box: bool, i: nat)
    requires i >= 1 && ScanBounds(s, i)
    ensures ScanBounds(ScanStep(s, c, box), i + 1)
  {
    ShiftPattern(s.pat);
  }

  /** After a step the last colour is the pixel's, and the black count went up exactly for a black pixel. */
  lemma StepColour(s: Scan, c: bool, box: bool)
    ensures ScanStep(s, c, box).black == c
    ensures ScanStep(s, c, box).bal == s.bal + (if c then 1 else 0)
  {
  }

  /** Shifting a pattern word left keeps it a uint16 with room for bit 4. */
  lemma ShiftPattern(pat: int)
    requires 0 <= pat < 65536 && pat % 16 == 0
    ensures 0 <= (2 * pat) % 65536 < 65536 && ((2 * pat) % 65536) % 16 == 0
    ensures 0 <= Or(16, (2 * pat) % 65536) < 65536 && Or(16, (2 * pat) % 65536) % 16 == 0
  {
    var g := ShiftHalf(pat);
    PatternBit(g);
    PatternAligned(g);
  }

  lemma ShiftHalf(pat: int) returns (g: int)
    requires 0 <= pat < 65536 && pat % 16 == 0
    ensures 0 <= g < 2048 && (2 * pat) % 65536 == 32 * g
  {
    var h := pat / 16;
    assert pat == 16 * h && 0 <= h < 4096;
    g := if h < 2048 then h else h - 2048;
    assert 2 * pat == 32 * g + (if h < 2048 then 0 else 65536);
  }

  /**
   * What holds of the scan after pixels 0..i: the run is between 1 and i + 1
   * pixels, the pattern is a uint16 with its low four bits clear, the line's
   * score plus the open run is at most 44 per pixel, and the black count is
   * the number of black pixels seen.
   */
  lemma {:induction false} LineInvariant(bm: seq<Byte>, size: int, stride: int, vertical: bool, line: int, i: nat)
    requires Grid(bm, size, stride)
    ensures ScanBounds(LineState(bm, size, stride, vertical, line, i), i + 1)
    ensures LineState(bm, size, stride, vertical, line, i).bal == BlackIn(bm, size, stride, vertical, line, i)
  {
    if i > 0 {
      LineInvariant(bm, size, stride, vertical, line, i - 1);
      var s := LineState(bm, size, stride, vertical, line, i - 1);
      var c, box := Cell(bm, size, stride, vertical, line, i), Box(bm, size, stride, vertical, line, i, s.black);
      StepBounds(s, c, box, i);
      StepColour(s, c, box);
    }
  }

  /** A line scores at least 0 and at most 44 per pixel plus 37. */
  lemma LineBound(bm: seq<Byte>, size: int, stride: int, vertical: bool, line: int)
    requires Grid(bm, size, stride) && size >= 1
    ensures 0 <= LinePenalty(bm, size, stride, vertical, line) <= 44 * size + 37
  {
    LineInvariant(bm, size, stride, vertical, line, size - 1);
  }

  /** n lines score at least 0 and at most n times the bound of one line. */
  lemma {:induction false} LinesBound(bm: seq<Byte>, size: int, stride: int, vertical: bool, n: nat)
    requires Grid(bm, size, stride) && size >= 1
    ensures 0 <= LinesPenalty(bm, size, stride, vertical, n) <= n * (44 * size + 37)
  {
    if n > 0 {
      LinesBound(bm, size, stride, vertical, n - 1);
      LineBound(bm, size, stride, vertical, n - 1);
      assert n * (44 * size + 37) == (n - 1) * (44 * size + 37) + (44 * size + 37);
    }
  }

  lemma {:induction false} BlackInBound(bm: seq<Byte>, size: int, stride: int, vertical: bool, line: int, i: nat)
    requires Grid(bm, size, stride)
    ensures BlackIn(bm, size, stride, vertical, line, i) <= i + 1
  {
    if i > 0 {
      BlackInBound(bm, size, stride, vertical, line, i - 1);
    }
  }

  /** The row scans count exactly the black pixels of the rows scanned. */
  lemma {:induction false} RowsBlackCounts(bm: seq<Byte>, size: int, stride: int, n: nat)
    requires Grid(bm, size, stride) && size >= 1
    ensures RowsBlack(bm, size, stride, n) == BlackRows(bm, size, stride, n)
    ensures 0 <= BlackRows(bm, size, stride, n) <= n * size
  {
    if n > 0 {
      RowsBlackCounts(bm, size, stride, n - 1);
      LineInvariant(bm, size, stride, false, n - 1, size - 1);
      BlackInBound(bm, size, stride, false, n - 1, size - 1);
      MulSucc(n - 1, size);
    }
  }

  /**
   * The balance score folds the black count to the smaller of the black and
   * the white counts; for an odd number of pixels it lies between 0 and 90.
   */
  lemma BalanceRange(bal: int, sq: int)
    requires 0 <= bal <= sq && sq > 0
    ensures var m := if bal <= sq - bal then bal else sq - bal;
      Balance(bal, sq) == (9 - m * 20 / sq) * 10
    ensures sq % 2 == 1 ==> 0 <= Balance(bal, sq) <= 90
  {
    var b := if bal > sq / 2 then sq - bal else bal;
    assert 0 <= b <= sq / 2;
    DivBounds(b * 20, sq, 20 * b < 10 * sq);
  }

  /** a / d lies in [0, k) for 0 <= a < k * d, and in [0, a] always. */
  lemma DivBounds(a: int, d: int, below10: bool)
    requires 0 <= a && d > 0
    requires below10 ==> a < 10 * d
    ensures 0 <= a / d <= a
    ensures below10 ==> a / d < 10
  {
    var q, r := a / d, a % d;
    assert a == q * d + r && 0 <= r < d;
    if q < 0 {
      MulMono(1, d, -q);
    }
    if below10 && q >= 10 {
      MulMono(10, q, d);
    }
    if q > a {
      MulMono(1, d, q);
    }
  }

  /**
   * The penalty of a grid of an odd size up to 177 (every QR version) is
   * below 2^24 (2 << 23), far below the sentinel 2^31 (2 << 30) the mask search
   * starts from.
   */
  lemma PenaltyBound(bm: seq<Byte>, size: int, stride: int)
    requires Grid(bm, size, stride) && 1 <= size <= 177 && size % 2 == 1
    ensures 0 <= PenaltyOf(bm, size, stride) < 0x100_0000
  {
    LinesBound(bm, size, stride, false, size);
    LinesBound(bm, size, stride, true, size);
    RowsBlackCounts(bm, size, stride, size);
    OddSquare(size);
    BalanceRange(RowsBlack(bm, size, stride, size), size * size);
    BoundArith(size);
  }

  lemma OddSquare(size: int)
    requires size >= 1 && size % 2 == 1
    ensures size * size >= 1 && (size * size) % 2 == 1
  {
    var h := size / 2;
    assert size == 2 * h + 1;
    assert size * size == 2 * (2 * h * h + 2 * h) + 1;
  }

  lemma BoundArith(size: int)
    requires 1 <= size <= 177
    ensures 0 <= size * size <= 177 * 177
    ensures 2 * (size * (44 * size + 37)) + 90 < 0x100_0000
  {
    MulMono(size, 177, 44 * size + 37);
    MulMono(44 * size + 37, 44 * 177 + 37, 177);
    MulMono(size, 177, size);
    MulMono(size, 177, 177);
  }

  // ------------------------------------------------------------ the class

  class Code {
    var Bitmap: array<Byte>
    var Size: int
    var Stride: int

    ghost predicate Valid()
      reads this
    {
      0 <= Size <= 8 * Stride && Size * Stride <= Bitmap.Length
    }

    constructor (bitmap: array<Byte>, size: int, stride: int)
      ensures Bitmap == bitmap && Size == size && Stride == stride
    {
      Bitmap := bitmap;
      Size := size;
      Stride := stride;
    }

    /** Whether the pixel in column x, row y is black; pixels outside the grid are white. */
    predicate Black(x: int, y: int)
      reads this, Bitmap
      requires Valid()
      ensures Black(x, y) ==> 0 <= x < Size && 0 <= y < Size
    {
      Colour(Bitmap[..], Size, Stride, x, y)
    }

    /** Sets the pixel in row y, column x of the bitmap b[base:]. */
    method Set(b: array<Byte>, base: int, y: int, x: int)
      requires Holds(b[..], base, Stride, y, x)
      modifies b
      ensures b[..] == SetLit(old(b[..]), base, Stride, y, x)
      ensures Region(old(b[..]), base, Size, Stride) && 0 <= y < Size && 0 <= x < Size ==>
                && (forall i, j :: Shows(b[..], base, Size, Stride, i, j)
                                   <==> old(Shows(b[..], base, Size, Stride, i, j)) || (i == y && j == x))
                && (forall k :: 0 <= k < b.Length && (k < base || base + Size * Stride <= k) ==> b[k] == old(b[k]))
    {
      ghost var before := b[..];
      var k := base + CellByte(Stride, y, x);
      b[k] := OrByte(b[k], Pow2(7 - x % 8));
      assert b[..] == SetLit(before, base, Stride, y, x);
      if Region(before, base, Size, Stride) && 0 <= y < Size && 0 <= x < Size {
        SetShows(before, base, Size, Stride, y, x);
      }
    }

    /** The penalty of the code: the sum of its row and column scans and its balance score. */
    method Penalty() returns (p: int)
      requires Valid() && Size >= 1
      ensures p == PenaltyOf(Bitmap[..], Size, Stride)
    {
      var bal;
      p, bal := ScanRows();
      var sq := Size * Size;
      assert sq >= 1 by { MulMono(1, Size, Size); }
      if bal > sq / 2 {
        bal := sq - bal;
      }
      p := p + (9 - bal * 20 / sq) * 10;
      p := ScanColumns(p);
    }

    /** The row half of Penalty: the score of every row and the black pixels counted. */
    method ScanRows() returns (p: int, bal: int)
      requires Valid() && Size >= 1
      ensures p == LinesPenalty(Bitmap[..], Size, Stride, false, Size)
      ensures bal == RowsBlack(Bitmap[..], Size, Stride, Size)
    {
      ghost var bm := Bitmap[..];
      p, bal := 0, 0;
      var y := 0;
      while y < Size
        invariant 0 <= y <= Size
        invariant p == LinesPenalty(bm, Size, Stride, false, y)
        invariant bal == RowsBlack(bm, Size, Stride, y)
      {
        p, bal := ScanLine(false, y, p, bal);
        y := y + 1;
      }
    }

    /** The column half of Penalty: adds the score of every column to p0. */
    method ScanColumns(p0: int) returns (p: int)
      requires Valid() && Size >= 1
      ensures p == p0 + LinesPenalty(Bitmap[..], Size, Stride, true, Size)
    {
      ghost var bm := Bitmap[..];
      p := p0;
      var x := 0;
      while x < Size
        invariant 0 <= x <= Size
        invariant p == p0 + LinesPenalty(bm, Size, Stride, true, x)
      {
        var ignored;
        p, ignored := ScanLine(true, x, p, 0);
        x := x + 1;
      }
    }

    /**
     * One row (or one column) of Penalty: adds the line's score to p0 and,
     * for a row, its black pixels to bal0. The scan's state (last colour, run
     * length, pattern word, the line's score and black count) is a Scan.
     */
    method ScanLine(vertical: bool, line: int, p0: int, bal0: int) returns (p: int, bal: int)
      requires Valid() && Size >= 1
      ensures p == p0 + LinePenalty(Bitmap[..], Size, Stride, vertical, line)
      ensures bal == bal0 + LineState(Bitmap[..], Size, Stride, vertical, line, Size - 1).bal
    {
      ghost var bm := Bitmap[..];
      var black := if vertical then Black(line, 0) else Black(0, line);
      var s := Scan(black, 1, 0, 0, 0);
      if black {
        s := s.(pat := 16, bal := 1);
      }
      var i := 1;
      while i < Size
        invariant 1 <= i <= Size
        invariant s == LineState(bm, Size, Stride, vertical, line, i - 1)
      {
        s := Advance(vertical, line, i, s);
        i := i + 1;
      }
      p, bal := p0 + s.p, bal0 + s.bal;
      if s.r >= 5 {
        p := p + s.r - 2;
      }
      var pat := (2 * s.pat) % 65536;
      if pat == FindB {
        p := p + 80;
      } else if FindA == pat || FindA == (2 * pat) % 65536 || FindA == (4 * pat) % 65536
             || FindA == (8 * pat) % 65536 {
        p := p + 40;
      }
    }

    /** The body of the scan loop: pixel i of the line arrives. */
    method Advance(vertical: bool, line: int, i: int, s: Scan) returns (t: Scan)
      requires Valid()
      ensures t == ScanStep(s, Cell(Bitmap[..], Size, Stride, vertical, line, i),
                        Box(Bitmap[..], Size, Stride, vertical, line, i, s.black))
    {
      var black, r, p, bal := s.black, s.r, s.p, s.bal;
      var c := if vertical then Black(line, i) else Black(i, line);
      if c != black {
        if r >= 5 {
          p := p + r - 2;
        }
        black := !black;
        r := 0;
      } else if !vertical && line != 0 && Black(i - 1, line - 1) == black && Black(i, line - 1) == black {
        p := p + 3;
      }
      var pat := (2 * s.pat) % 65536;
      if black {
        pat := Or(16, pat);
        bal := bal + 1;
      } else if pat == FindB || pat == FindA {
        p := p + 40;
      }
      t := Scan(black, r + 1, pat, p, bal);
    }
  }
}
