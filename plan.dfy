/**
 * A plan: the layout of a QR symbol of one version, level and mask, before
 * any data is known. Its pixel map gives every cell a role (and, for data,
 * check and format cells, the bit it shows); its code holds the dark pixels
 * that do not depend on the data: the fixed patterns, the format bits and
 * the mask over the data area. With mask -1 the code holds eight copies of
 * the grid, one per mask.
 */
module Plans {
  import opened Arith
  import opened BitWriter
  import opened Tables
  import opened Pixels
  import opened Codes
  import opened Layout
  import Fmt = Format

  class Plan {
    var Version: int
    var Level: int
    var Mask: int
    var DataBytes: int
    var CheckBytes: int
    var Blocks: int
    var Pixel: array2<Pixel>
    var Code: Code

    constructor (v: int, pixel: array2<Pixel>, code: Code)
      ensures Version == v && Level == 0 && Mask == 0
      ensures DataBytes == 0 && CheckBytes == 0 && Blocks == 0
      ensures Pixel == pixel && Code == code
    {
      Version, Level, Mask := v, 0, 0;
      DataBytes, CheckBytes, Blocks := 0, 0, 0;
      Pixel, Code := pixel, code;
    }
  }

  /** A pixel map of side c.Size drawn beside the bitmap of c. */
  ghost predicate Canvas(m: array2<Pixel>, c: Code)
    reads c
  {
    c.Valid() && m.Length0 == c.Size && m.Length1 == c.Size
  }

  /** Whether the pixel in row y, column x of the first grid of c's bitmap is dark. */
  ghost predicate Shown(c: Code, y: int, x: int)
    reads c, c.Bitmap
  {
    Shows(c.Bitmap[..], 0, c.Size, c.Stride, y, x)
  }

  /** Bytes of c's bitmap past its first grid. */
  ghost predicate Beyond(c: Code, k: int)
    reads c
  {
    0 <= k && c.Size * c.Stride <= k < c.Bitmap.Length
  }

  /** Sets the pixel in row y, column x of the first grid: c.set(c.Bitmap, y, x). */
  method SetFirst(c: Code, y: int, x: int)
    requires c.Valid() && 0 <= y < c.Size && 0 <= x < c.Size
    modifies c.Bitmap
    ensures forall i, j :: Shown(c, i, j) <==> old(Shown(c, i, j)) || (i == y && j == x)
    ensures forall k :: Beyond(c, k) ==> c.Bitmap[k] == old(c.Bitmap[k])
  {
    CellInRange(c.Size, c.Stride, y, x);
    c.Set(c.Bitmap, 0, y, x);
  }

  /** Gives the pixel in row y, column x the role pixel pix, and sets it in the first grid when dark. */
  method Paint(m: array2<Pixel>, c: Code, y: int, x: int, pix: Pixel, dark: bool)
    requires Canvas(m, c) && 0 <= y < c.Size && 0 <= x < c.Size
    modifies m, c.Bitmap
    ensures forall i, j :: 0 <= i < m.Length0 && 0 <= j < m.Length1 ==>
              m[i, j] == if i == y && j == x then pix else old(m[i, j])
    ensures forall i, j :: Shown(c, i, j) <==> old(Shown(c, i, j)) || (dark && i == y && j == x)
    ensures forall k :: Beyond(c, k) ==> c.Bitmap[k] == old(c.Bitmap[k])
  {
    m[y, x] := pix;
    if dark {
      SetFirst(c, y, x);
    }
  }

  // ------------------------------------------------------------ boxes

  /** Draws a position box with upper-left corner at column x, row y, and its white border. */
  method PosBox(m: array2<Pixel>, c: Code, x: int, y: int)
    requires Canvas(m, c) && 0 <= x && x + 7 <= c.Size && 0 <= y && y + 7 <= c.Size
    modifies m, c.Bitmap
    ensures forall i, j :: 0 <= i < m.Length0 && 0 <= j < m.Length1 ==>
              m[i, j] == if PosCell(c.Size, x, y, i, j) then RolePixel(Position) else old(m[i, j])
    ensures forall i, j :: Shown(c, i, j) <==> old(Shown(c, i, j)) || PosDark(x, y, i, j)
    ensures forall k :: Beyond(c, k) ==> c.Bitmap[k] == old(c.Bitmap[k])
  {
    PosSquare(m, c, x, y);
    PosFrame(m, c.Size, x, y);
  }

  /** The 7x7 square of a position box: dark ring, light ring, dark 3x3 core. */
  method PosSquare(m: array2<Pixel>, c: Code, x: int, y: int)
    requires Canvas(m, c) && 0 <= x && x + 7 <= c.Size && 0 <= y && y + 7 <= c.Size
    modifies m, c.Bitmap
    ensures forall i, j :: 0 <= i < m.Length0 && 0 <= j < m.Length1 ==>
              m[i, j] == if InSquare(x, y, 7, i, j) then RolePixel(Position) else old(m[i, j])
    ensures forall i, j :: Shown(c, i, j) <==> old(Shown(c, i, j)) || PosDark(x, y, i, j)
    ensures forall k :: Beyond(c, k) ==> c.Bitmap[k] == old(c.Bitmap[k])
  {
    for dy := 0 to 7
      invariant forall i, j :: 0 <= i < m.Length0 && 0 <= j < m.Length1 ==>
                  m[i, j] == if InSquare(x, y, 7, i, j) && i < y + dy then RolePixel(Position) else old(m[i, j])
      invariant forall i, j :: Shown(c, i, j) <==> old(Shown(c, i, j)) || (PosDark(x, y, i, j) && i < y + dy)
      invariant forall k :: Beyond(c, k) ==> c.Bitmap[k] == old(c.Bitmap[k])
    {
      PosRow(m, c, x, y, dy);
    }
  }

  /** Row dy of the square of a position box. */
  method PosRow(m: array2<Pixel>, c: Code, x: int, y: int, dy: int)
    requires Canvas(m, c) && 0 <= x && x + 7 <= c.Size && 0 <= y && y + 7 <= c.Size && 0 <= dy < 7
    modifies m, c.Bitmap
    ensures forall i, j :: 0 <= i < m.Length0 && 0 <= j < m.Length1 ==>
              m[i, j] == if i == y + dy && x <= j < x + 7 then RolePixel(Position) else old(m[i, j])
    ensures forall i, j :: Shown(c, i, j) <==> old(Shown(c, i, j)) || (i == y + dy && PosDark(x, y, i, j))
    ensures forall k :: Beyond(c, k) ==> c.Bitmap[k] == old(c.Bitmap[k])
  {
    var pos := RolePixel(Position);
    for dx := 0 to 7
      invariant forall i, j :: 0 <= i < m.Length0 && 0 <= j < m.Length1 ==>
                  m[i, j] == if i == y + dy && x <= j < x + dx then pos else old(m[i, j])
      invariant forall i, j :: Shown(c, i, j) <==> old(Shown(c, i, j)) || (i == y + dy && j < x + dx && PosDark(x, y, i, j))
      invariant forall k :: Beyond(c, k) ==> c.Bitmap[k] == old(c.Bitmap[k])
    {
      Paint(m, c, y + dy, x + dx, pos, dx == 0 || dx == 6 || dy == 0 || dy == 6 || (2 <= dx <= 4 && 2 <= dy <= 4));
    }
  }

  /** The white border of a position box, where it lies inside the symbol. */
  method PosFrame(m: array2<Pixel>, siz: int, x: int, y: int)
    requires m.Length0 == siz && m.Length1 == siz && 0 <= x && x + 7 <= siz && 0 <= y && y + 7 <= siz
    modifies m
    ensures forall i, j :: 0 <= i < m.Length0 && 0 <= j < m.Length1 ==>
              m[i, j] == if PosBorder(siz, x, y, i, j) then RolePixel(Position) else old(m[i, j])
  {
    var pos := RolePixel(Position);
    for dy := -1 to 8
      invariant forall i, j :: 0 <= i < m.Length0 && 0 <= j < m.Length1 ==>
                  m[i, j] == if y - 1 <= i < y + dy && ((x > 0 && j == x - 1) || (x + 7 < siz && j == x + 7))
                             then pos else old(m[i, j])
    {
      if 0 <= y + dy && y + dy < siz {
        if x > 0 {
          m[y + dy, x - 1] := pos;
        }
        if x + 7 < siz {
          m[y + dy, x + 7] := pos;
        }
      }
    }
    for dx := -1 to 8
      invariant forall i, j :: 0 <= i < m.Length0 && 0 <= j < m.Length1 ==>
                  m[i, j] == if x - 1 <= j < x + dx && ((y > 0 && i == y - 1) || (y + 7 < siz && i == y + 7))
                             then pos
                             else if y - 1 <= i < y + 8 && ((x > 0 && j == x - 1) || (x + 7 < siz && j == x + 7))
                             then pos else old(m[i, j])
    {
      if 0 <= x + dx && x + dx < siz {
        if y > 0 {
          m[y - 1, x + dx] := pos;
        }
        if y + 7 < siz {
          m[y + 7, x + dx] := pos;
        }
      }
    }
  }

  /** Draws an alignment box with upper-left corner at column x, row y. */
  method AlignBox(m: array2<Pixel>, c: Code, x: int, y: int)
    requires Canvas(m, c) && 0 <= x && x + 5 <= c.Size && 0 <= y && y + 5 <= c.Size
    modifies m, c.Bitmap
    ensures forall i, j :: 0 <= i < m.Length0 && 0 <= j < m.Length1 ==>
              m[i, j] == if InSquare(x, y, 5, i, j) then RolePixel(Alignment) else old(m[i, j])
    ensures forall i, j :: Shown(c, i, j) <==> old(Shown(c, i, j)) || AlignDark(x, y, i, j)
    ensures forall k :: Beyond(c, k) ==> c.Bitmap[k] == old(c.Bitmap[k])
  {
    for dy := 0 to 5
      invariant forall i, j :: 0 <= i < m.Length0 && 0 <= j < m.Length1 ==>
                  m[i, j] == if InSquare(x, y, 5, i, j) && i < y + dy then RolePixel(Alignment) else old(m[i, j])
      invariant forall i, j :: Shown(c, i, j) <==> old(Shown(c, i, j)) || (AlignDark(x, y, i, j) && i < y + dy)
      invariant forall k :: Beyond(c, k) ==> c.Bitmap[k] == old(c.Bitmap[k])
    {
      AlignRow(m, c, x, y, dy);
    }
  }

  /** Row dy of an alignment box. */
  method AlignRow(m: array2<Pixel>, c: Code, x: int, y: int, dy: int)
    requires Canvas(m, c) && 0 <= x && x + 5 <= c.Size && 0 <= y && y + 5 <= c.Size && 0 <= dy < 5
    modifies m, c.Bitmap
    ensures forall i, j :: 0 <= i < m.Length0 && 0 <= j < m.Length1 ==>
              m[i, j] == if i == y + dy && x <= j < x + 5 then RolePixel(Alignment) else old(m[i, j])
    ensures forall i, j :: Shown(c, i, j) <==> old(Shown(c, i, j)) || (i == y + dy && AlignDark(x, y, i, j))
    ensures forall k :: Beyond(c, k) ==> c.Bitmap[k] == old(c.Bitmap[k])
  {
    var align := RolePixel(Alignment);
    for dx := 0 to 5
      invariant forall i, j :: 0 <= i < m.Length0 && 0 <= j < m.Length1 ==>
                  m[i, j] == if i == y + dy && x <= j < x + dx then align else old(m[i, j])
      invariant forall i, j :: Shown(c, i, j) <==> old(Shown(c, i, j)) || (i == y + dy && j < x + dx && AlignDark(x, y, i, j))
      invariant forall k :: Beyond(c, k) ==> c.Bitmap[k] == old(c.Bitmap[k])
    {
      Paint(m, c, y + dy, x + dx, align, dx == 0 || dx == 4 || dy == 0 || dy == 4 || (dx == 2 && dy == 2));
    }
  }

  // ------------------------------------------------------------ vplan

  /** The timing strips in row and column 6, dark on even positions. */
  method DrawTiming(m: array2<Pixel>, c: Code)
    requires Canvas(m, c) && c.Size > 6
    modifies m, c.Bitmap
    ensures forall i, j :: 0 <= i < m.Length0 && 0 <= j < m.Length1 ==>
              m[i, j] == if TimingCell(i, j) then RolePixel(Timing) else old(m[i, j])
    ensures forall i, j :: Shown(c, i, j) <==> old(Shown(c, i, j)) || (0 <= i < c.Size && 0 <= j < c.Size && TimingDark(i, j))
    ensures forall k :: Beyond(c, k) ==> c.Bitmap[k] == old(c.Bitmap[k])
  {
    var pix := RolePixel(Timing);
    for i := 0 to c.Size
      invariant forall a, b :: 0 <= a < m.Length0 && 0 <= b < m.Length1 ==>
                  m[a, b] == if (b == 6 && a < i) || (a == 6 && b < i) then pix else old(m[a, b])
      invariant forall a, b :: Shown(c, a, b) <==>
                  (old(Shown(c, a, b)) || (0 <= a < c.Size && 0 <= b < c.Size && TimingDark(a, b) && (if b == 6 then a < i else b < i)))
      invariant forall k :: Beyond(c, k) ==> c.Bitmap[k] == old(c.Bitmap[k])
    {
      m[i, 6] := pix;
      m[6, i] := pix;
      if i % 2 == 0 {
        SetFirst(c, i, 6);
        SetFirst(c, 6, i);
      }
    }
  }

  /**
   * The alignment boxes: the loops visit every pair of coordinates 4, apos,
   * apos + astride, ... below siz - 5 and draw a box at each, except where it
   * would meet a position box.
   */
  method DrawAlignment(m: array2<Pixel>, c: Code, info: VersionInfo)
    requires Canvas(m, c) && 4 < info.apos && 0 < info.astride
    modifies m, c.Bitmap
    ensures forall i, j :: 0 <= i < m.Length0 && 0 <= j < m.Length1 ==>
              m[i, j] == if AlignBefore(info, c.Size, AlignCount(info, c.Size), AlignCount(info, c.Size), false, i, j)
                         then RolePixel(Alignment) else old(m[i, j])
    ensures forall i, j :: Shown(c, i, j) <==>
              (old(Shown(c, i, j)) || AlignBefore(info, c.Size, AlignCount(info, c.Size), AlignCount(info, c.Size), true, i, j))
    ensures forall k :: Beyond(c, k) ==> c.Bitmap[k] == old(c.Bitmap[k])
  {
    var siz := c.Size;
    ghost var n := AlignCount(info, siz);
    var x := 4;
    ghost var kx := 0;
    while x + 5 < siz
      invariant kx <= n && x == AlignCoord(info, kx)
      invariant forall i, j :: 0 <= i < m.Length0 && 0 <= j < m.Length1 ==>
                  m[i, j] == if AlignBefore(info, siz, n, kx, false, i, j) then RolePixel(Alignment) else old(m[i, j])
      invariant forall i, j :: Shown(c, i, j) <==> (old(Shown(c, i, j)) || AlignBefore(info, siz, n, kx, true, i, j))
      invariant forall k :: Beyond(c, k) ==> c.Bitmap[k] == old(c.Bitmap[k])
      decreases n - kx
    {
      AlignCountSpec(info, siz, kx);
      AlignColumn(m, c, info, n, x, kx);
      NextAlignCoord(info, kx);
      if x == 4 {
        x := info.apos;
      } else {
        x := x + info.astride;
      }
      kx := kx + 1;
    }
    AlignCountSpec(info, siz, kx);
  }

  /** The inner alignment loop: the boxes in the column of lattice index kx, top to bottom. */
  method AlignColumn(m: array2<Pixel>, c: Code, info: VersionInfo, ghost n: nat, x: int, ghost kx: nat)
    requires Canvas(m, c) && 4 < info.apos && 0 < info.astride
    requires n == AlignCount(info, c.Size) && x == AlignCoord(info, kx) && x + 5 < c.Size
    modifies m, c.Bitmap
    ensures forall i, j :: 0 <= i < m.Length0 && 0 <= j < m.Length1 ==>
              m[i, j] == if ColumnHits(info, c.Size, kx, n, false, i, j) then RolePixel(Alignment) else old(m[i, j])
    ensures forall i, j :: Shown(c, i, j) <==> (old(Shown(c, i, j)) || ColumnHits(info, c.Size, kx, n, true, i, j))
    ensures forall k :: Beyond(c, k) ==> c.Bitmap[k] == old(c.Bitmap[k])
  {
    var siz := c.Size;
    AlignCoordMono(info, 0, kx);
    var y := 4;
    ghost var ky := 0;
    while y + 5 < siz
      invariant ky <= n && y == AlignCoord(info, ky)
      invariant forall i, j :: 0 <= i < m.Length0 && 0 <= j < m.Length1 ==>
                  m[i, j] == if ColumnHits(info, siz, kx, ky, false, i, j) then RolePixel(Alignment) else old(m[i, j])
      invariant forall i, j :: Shown(c, i, j) <==> (old(Shown(c, i, j)) || ColumnHits(info, siz, kx, ky, true, i, j))
      invariant forall k :: Beyond(c, k) ==> c.Bitmap[k] == old(c.Bitmap[k])
      decreases n - ky
    {
      AlignCountSpec(info, siz, ky);
      AlignCoordMono(info, 0, ky);
      AlignAt(m, c, info, x, y, kx, ky);
      NextAlignCoord(info, ky);
      if y == 4 {
        y := info.apos;
      } else {
        y := y + info.astride;
      }
      ky := ky + 1;
    }
    AlignCountSpec(info, siz, ky);
  }

  /** One pass of the inner alignment loop: the box at (x, y) unless it would meet a position box. */
  method AlignAt(m: array2<Pixel>, c: Code, info: VersionInfo, x: int, y: int, ghost kx: nat, ghost ky: nat)
    requires Canvas(m, c) && x == AlignCoord(info, kx) && y == AlignCoord(info, ky)
    requires 0 <= x && x + 5 < c.Size && 0 <= y && y + 5 < c.Size
    modifies m, c.Bitmap
    ensures forall i, j :: 0 <= i < m.Length0 && 0 <= j < m.Length1 ==>
              m[i, j] == if AlignHit(info, c.Size, kx, ky, false, i, j) then RolePixel(Alignment) else old(m[i, j])
    ensures forall i, j :: Shown(c, i, j) <==> (old(Shown(c, i, j)) || AlignHit(info, c.Size, kx, ky, true, i, j))
    ensures forall k :: Beyond(c, k) ==> c.Bitmap[k] == old(c.Bitmap[k])
  {
    var siz := c.Size;
    if (x < 7 && y < 7) || (x < 7 && y + 5 >= siz - 7) || (x + 5 >= siz - 7 && y < 7) {
    } else {
      AlignBox(m, c, x, y);
    }
  }

  /** The step of the alignment loops: from 4 to apos, then by astride. */
  lemma NextAlignCoord(info: VersionInfo, k: nat)
    requires 4 < info.apos && 0 < info.astride
    ensures AlignCoord(info, k) == 4 <==> k == 0
    ensures AlignCoord(info, k + 1) == if k == 0 then info.apos else AlignCoord(info, k) + info.astride
  {
    if k > 0 {
      assert k * info.astride == (k - 1) * info.astride + info.astride;
      assert (k - 1) * info.astride >= 0;
    }
  }

  /**
   * The version blocks: bit 3 x + y of the pattern goes to row siz - 11 + y,
   * column x and to its mirror image, for x < 6 and y < 3.
   */
  method DrawVersion(m: array2<Pixel>, c: Code, pat: int)
    requires Canvas(m, c) && c.Size >= 21 && 0 <= pat
    modifies m, c.Bitmap
    ensures forall i, j :: 0 <= i < m.Length0 && 0 <= j < m.Length1 ==>
              m[i, j] == if pat != 0 && VersionCell(c.Size, i, j) then RolePixel(PVersion) else old(m[i, j])
    ensures forall i, j :: Shown(c, i, j) <==>
              (old(Shown(c, i, j)) || (pat != 0 && VersionCell(c.Size, i, j) && Bit(pat, VersionBitIndex(c.Size, i, j))))
    ensures forall k :: Beyond(c, k) ==> c.Bitmap[k] == old(c.Bitmap[k])
  {
    var siz := c.Size;
    if pat != 0 {
      var v := pat;
      for x := 0 to 6
        invariant v == Shr(pat, 3 * x)
        invariant forall i, j :: 0 <= i < m.Length0 && 0 <= j < m.Length1 ==>
                    m[i, j] == if VersionCell(siz, i, j) && VersionBitIndex(siz, i, j) < 3 * x
                               then RolePixel(PVersion) else old(m[i, j])
        invariant forall i, j :: Shown(c, i, j) <==>
                    (old(Shown(c, i, j)) || (VersionCell(siz, i, j) && VersionBitIndex(siz, i, j) < 3 * x
                                             && Bit(pat, VersionBitIndex(siz, i, j))))
        invariant forall k :: Beyond(c, k) ==> c.Bitmap[k] == old(c.Bitmap[k])
      {
        v := VersionTriple(m, c, pat, x, v);
      }
    }
  }

  /** The inner loop of the version blocks: the three bits 3 x, 3 x + 1, 3 x + 2. */
  method VersionTriple(m: array2<Pixel>, c: Code, pat: int, x: int, v0: int) returns (v: int)
    requires Canvas(m, c) && c.Size >= 21 && 0 <= pat && 0 <= x < 6 && v0 == Shr(pat, 3 * x)
    modifies m, c.Bitmap
    ensures v == Shr(pat, 3 * x + 3)
    ensures forall i, j :: 0 <= i < m.Length0 && 0 <= j < m.Length1 ==>
              m[i, j] == if VersionCell(c.Size, i, j) && 3 * x <= VersionBitIndex(c.Size, i, j) < 3 * x + 3
                         then RolePixel(PVersion) else old(m[i, j])
    ensures forall i, j :: Shown(c, i, j) <==>
              (old(Shown(c, i, j)) || (VersionCell(c.Size, i, j) && 3 * x <= VersionBitIndex(c.Size, i, j) < 3 * x + 3
                                       && Bit(pat, VersionBitIndex(c.Size, i, j))))
    ensures forall k :: Beyond(c, k) ==> c.Bitmap[k] == old(c.Bitmap[k])
  {
    var siz := c.Size;
    v := v0;
    for y := 0 to 3
      invariant v == Shr(pat, 3 * x + y)
      invariant forall i, j :: 0 <= i < m.Length0 && 0 <= j < m.Length1 ==>
                  m[i, j] == if VersionCell(siz, i, j) && 3 * x <= VersionBitIndex(siz, i, j) < 3 * x + y
                             then RolePixel(PVersion) else old(m[i, j])
      invariant forall i, j :: Shown(c, i, j) <==>
                  (old(Shown(c, i, j)) || (VersionCell(siz, i, j) && 3 * x <= VersionBitIndex(siz, i, j) < 3 * x + y
                                           && Bit(pat, VersionBitIndex(siz, i, j))))
      invariant forall k :: Beyond(c, k) ==> c.Bitmap[k] == old(c.Bitmap[k])
    {
      v := VersionBit(m, c, pat, x, y, v);
    }
  }

  /** One pass of the version loops: bit 3 x + y, which v holds in its lowest place. */
  method VersionBit(m: array2<Pixel>, c: Code, pat: int, x: int, y: int, v0: int) returns (v: int)
    requires Canvas(m, c) && c.Size >= 21 && 0 <= pat && 0 <= x < 6 && 0 <= y < 3 && v0 == Shr(pat, 3 * x + y)
    modifies m, c.Bitmap
    ensures v == Shr(pat, 3 * x + y + 1)
    ensures forall i, j :: 0 <= i < m.Length0 && 0 <= j < m.Length1 ==>
              m[i, j] == if VersionCell(c.Size, i, j) && VersionBitIndex(c.Size, i, j) == 3 * x + y
                         then RolePixel(PVersion) else old(m[i, j])
    ensures forall i, j :: Shown(c, i, j) <==>
              (old(Shown(c, i, j)) || (VersionCell(c.Size, i, j) && VersionBitIndex(c.Size, i, j) == 3 * x + y
                                       && Bit(pat, 3 * x + y)))
    ensures forall k :: Beyond(c, k) ==> c.Bitmap[k] == old(c.Bitmap[k])
  {
    var siz := c.Size;
    var pix := RolePixel(PVersion);
    m[siz - 11 + y, x] := pix;
    m[x, siz - 11 + y] := pix;
    BitShr(pat, 3 * x + y, 0);
    if v0 % 2 != 0 {
      SetFirst(c, siz - 11 + y, x);
      SetFirst(c, x, siz - 11 + y);
    }
    ShrStep(pat, 3 * x + y);
    v := v0 / 2;
    forall i, j | 0 <= i < siz && 0 <= j < siz
      ensures VersionCell(siz, i, j) && VersionBitIndex(siz, i, j) == 3 * x + y
              <==> (i == siz - 11 + y && j == x) || (i == x && j == siz - 11 + y)
    {
      VersionSlot(siz, i, j, x, y);
    }
  }

  /** The two cells showing version bit 3 x + y. */
  lemma VersionSlot(siz: int, i: int, j: int, x: int, y: int)
    requires siz >= 21 && 0 <= x < 6 && 0 <= y < 3
    ensures VersionCell(siz, i, j) && VersionBitIndex(siz, i, j) == 3 * x + y
            <==> (i == siz - 11 + y && j == x) || (i == x && j == siz - 11 + y)
  {
  }

  /** The format placeholders: bit i of the format word has a copy near the top-left box and one near another box. */
  method DrawFormat(m: array2<Pixel>)
    requires m.Length0 == m.Length1 >= 21
    modifies m
    ensures forall a, b :: 0 <= a < m.Length0 && 0 <= b < m.Length1 ==>
              m[a, b] == if Fmt.FormatIndex(m.Length0, a, b) >= 0 then Pack(Format, Fmt.FormatIndex(m.Length0, a, b)) else old(m[a, b])
  {
    var siz := m.Length0;
    for i := 0 to 15
      invariant forall a, b :: 0 <= a < m.Length0 && 0 <= b < m.Length1 ==>
                  m[a, b] == if 0 <= Fmt.FormatIndex(siz, a, b) < i then Pack(Format, Fmt.FormatIndex(siz, a, b)) else old(m[a, b])
    {
      FormatPair(m, i);
    }
  }

  /** One pass of the format loop: both copies of bit i. */
  method FormatPair(m: array2<Pixel>, i: int)
    requires m.Length0 == m.Length1 >= 21 && 0 <= i < 15
    modifies m
    ensures forall a, b :: 0 <= a < m.Length0 && 0 <= b < m.Length1 ==>
              m[a, b] == if Fmt.FormatIndex(m.Length0, a, b) == i then Pack(Format, i) else old(m[a, b])
  {
    var siz := m.Length0;
    var pix := Pack(Format, i);
    if i < 6 {
      m[i, 8] := pix;
    } else if i < 8 {
      m[i + 1, 8] := pix;
    } else if i < 9 {
      m[8, 7] := pix;
    } else {
      m[8, 14 - i] := pix;
    }
    if i < 8 {
      m[8, siz - 1 - i] := pix;
    } else {
      m[siz - 1 - 14 + i, 8] := pix;
    }
    forall a, b | 0 <= a < siz && 0 <= b < siz
      ensures Fmt.FormatIndex(siz, a, b) == i <==> (a, b) == Fmt.Loc1(i) || (a, b) == Fmt.Loc2(siz, i)
    {
      Fmt.FormatPlaces(siz, a, b, i);
    }
  }

  /** The pixel map and the first grid of c hold the first k drawing stages of version v. */
  ghost predicate Stage(m: array2<Pixel>, c: Code, v: int, k: nat)
    reads c, c.Bitmap, m
  {
    && ValidVersion(v) && Canvas(m, c) && c.Size == Side(v)
    && (forall i, j :: 0 <= i < m.Length0 && 0 <= j < m.Length1 ==> m[i, j] == Layer(v, k, i, j))
    && (forall i, j :: Shown(c, i, j) <==> DarkLayer(v, k, i, j))
  }

  method StageTiming(m: array2<Pixel>, c: Code, v: int)
    requires Stage(m, c, v, 0)
    modifies m, c.Bitmap
    ensures Stage(m, c, v, 1)
  {
    DrawTiming(m, c);
  }

  method StagePosition(m: array2<Pixel>, c: Code, v: int)
    requires Stage(m, c, v, 1)
    modifies m, c.Bitmap
    ensures Stage(m, c, v, 2)
  {
    var siz := c.Size;
    PosBox(m, c, 0, 0);
    PosBox(m, c, siz - 7, 0);
    PosBox(m, c, 0, siz - 7);
  }

  method StageAlignment(m: array2<Pixel>, c: Code, v: int)
    requires Stage(m, c, v, 2)
    modifies m, c.Bitmap
    ensures Stage(m, c, v, 3)
  {
    DrawAlignment(m, c, Vtab(v));
  }

  method StageVersion(m: array2<Pixel>, c: Code, v: int)
    requires Stage(m, c, v, 3)
    modifies m, c.Bitmap
    ensures Stage(m, c, v, 4)
  {
    DrawVersion(m, c, Vtab(v).pattern);
  }

  method StageFormat(m: array2<Pixel>, c: Code, v: int)
    requires Stage(m, c, v, 4)
    modifies m
    ensures Stage(m, c, v, 5)
  {
    DrawFormat(m);
  }

  method StageLone(m: array2<Pixel>, c: Code, v: int)
    requires Stage(m, c, v, 5)
    modifies m, c.Bitmap
    ensures Stage(m, c, v, 6)
  {
    var siz := c.Size;
    m[siz - 8, 8] := RolePixel(Unused);
    SetFirst(c, siz - 8, 8);
  }

  /** The plan's pixel map and first grid are exactly the fixed patterns of version v. */
  ghost predicate Laid(p: Plan, v: int)
    reads p, p.Code, p.Pixel, p.Code.Bitmap
  {
    p.Version == v && Stage(p.Pixel, p.Code, v, 6) && p.Code.Stride == StrideOf(Side(v))
  }

  /**
   * vplan: a new plan for version v with room for n grids in its bitmap,
   * holding the fixed patterns in its pixel map and in its first grid; an
   * invalid version is an error (null).
   */
  method VPlan(v: int, n: int) returns (p: Plan?)
    requires 1 <= n
    ensures p == null <==> !ValidVersion(v)
    ensures p != null ==> fresh(p) && fresh(p.Pixel) && fresh(p.Code) && fresh(p.Code.Bitmap)
    ensures p != null ==> Laid(p, v) && p.Code.Bitmap.Length == p.Code.Stride * p.Code.Size * n
    ensures p != null ==> p.Level == 0 && p.Mask == 0 && p.DataBytes == 0 && p.CheckBytes == 0 && p.Blocks == 0
  {
    if v < 1 || v > 40 {
      return null;
    }
    var siz := 17 + v * 4;
    var m := new Pixel[siz, siz]((i, j) => 0);
    var stride := (siz + 7) / 8;
    var bitmap := new Byte[stride * siz * n](k => 0);
    MulMono(1, n, stride * siz);
    var code := new Code(bitmap, siz, stride);
    p := new Plan(v, m, code);
    ShowsNothing(bitmap[..], 0, siz, stride);
    StageTiming(m, code, v);
    StagePosition(m, code, v);
    StageAlignment(m, code, v);
    StageVersion(m, code, v);
    StageFormat(m, code, v);
    StageLone(m, code, v);
  }

  // ------------------------------------------------------------ fplan and mplan

  /** The grid at b[base:] of c's geometry, and a pixel of it. */
  ghost predicate ShownAt(b: array<Byte>, base: int, c: Code, y: int, x: int)
    reads b, c
  {
    Shows(b[..], base, c.Size, c.Stride, y, x)
  }

  /** Whether the format placeholder in row y, column x is dark for level l and mask m. */
  predicate FormatDark(siz: int, l: int, m: int, y: int, x: int)
    requires 0 <= l < 4 && 0 <= m < 8
  {
    var i := Fmt.FormatIndex(siz, y, x);
    0 <= i && Fmt.FormatBit(Fmt.FormatWord(l as bv32, m as bv32), i)
  }

  /**
   * fplan: computes the format word of level l and mask m and sets its dark
   * bits, each in both of its places, in the grid at b[base:].
   */
  method FPlan(l: int, m: int, p: Plan, b: array<Byte>, base: int)
    requires 0 <= l < 4 && 0 <= m < 8
    requires Canvas(p.Pixel, p.Code) && p.Code.Size >= 21 && Region(b[..], base, p.Code.Size, p.Code.Stride)
    modifies b
    ensures forall y, x :: ShownAt(b, base, p.Code, y, x) <==>
              (old(ShownAt(b, base, p.Code, y, x)) || (0 <= y < p.Code.Size && 0 <= x < p.Code.Size && FormatDark(p.Code.Size, l, m, y, x)))
    ensures forall k :: 0 <= k < b.Length && (k < base || base + p.Code.Size * p.Code.Stride <= k) ==> b[k] == old(b[k])
  {
    var fb := Fmt.ComputeFormat(l as bv32, m as bv32);
    var siz := p.Pixel.Length0;
    for i := 0 to 15
      invariant Region(b[..], base, siz, p.Code.Stride)
      invariant forall y, x :: ShownAt(b, base, p.Code, y, x) <==>
                  (old(ShownAt(b, base, p.Code, y, x)) || (0 <= y < siz && 0 <= x < siz && FormatLit(siz, fb, i, y, x)))
      invariant forall k :: 0 <= k < b.Length && (k < base || base + siz * p.Code.Stride <= k) ==> b[k] == old(b[k])
    {
      FormatStep(p.Code, b, base, fb, i);
    }
  }

  /** The format bits below i of fb that are dark and drawn in row y, column x. */
  predicate FormatLit(siz: int, fb: bv32, i: int, y: int, x: int)
  {
    var k := Fmt.FormatIndex(siz, y, x);
    0 <= k < i && Fmt.FormatBit(fb, k)
  }

  /** One pass of fplan's loop: draws bit i of fb where it is 1. */
  method FormatStep(c: Code, b: array<Byte>, base: int, fb: bv32, i: int)
    requires c.Valid() && c.Size >= 21 && Region(b[..], base, c.Size, c.Stride) && 0 <= i < 15
    modifies b
    ensures Region(b[..], base, c.Size, c.Stride)
    ensures forall y, x :: ShownAt(b, base, c, y, x) <==>
              (old(ShownAt(b, base, c, y, x)) || (0 <= y < c.Size && 0 <= x < c.Size && Fmt.FormatIndex(c.Size, y, x) == i && Fmt.FormatBit(fb, i)))
    ensures forall k :: 0 <= k < b.Length && (k < base || base + c.Size * c.Stride <= k) ==> b[k] == old(b[k])
  {
    var siz := c.Size;
    if (fb >> i) & 1 == 1 {
      FormatBitAt(c, b, base, i);
    }
    forall y, x | 0 <= y < siz && 0 <= x < siz
      ensures Fmt.FormatIndex(siz, y, x) == i <==> (y, x) == Fmt.Loc1(i) || (y, x) == Fmt.Loc2(siz, i)
    {
      Fmt.FormatPlaces(siz, y, x, i);
    }
    forall y, x ensures ShownAt(b, base, c, y, x) ==> 0 <= y < siz && 0 <= x < siz
    {
    }
  }

  /** Sets both places of format bit i in the grid at b[base:]. */
  method FormatBitAt(c: Code, b: array<Byte>, base: int, i: int)
    requires c.Valid() && c.Size >= 21 && Region(b[..], base, c.Size, c.Stride) && 0 <= i < 15
    modifies b
    ensures Region(b[..], base, c.Size, c.Stride)
    ensures forall y, x :: ShownAt(b, base, c, y, x) <==>
              (old(ShownAt(b, base, c, y, x)) || (y, x) == Fmt.Loc1(i) || (y, x) == Fmt.Loc2(c.Size, i))
    ensures forall k :: 0 <= k < b.Length && (k < base || base + c.Size * c.Stride <= k) ==> b[k] == old(b[k])
  {
    var siz := c.Size;
    if i < 6 {
      SetAt(c, b, base, i, 8);
    } else if i < 8 {
      SetAt(c, b, base, i + 1, 8);
    } else if i < 9 {
      SetAt(c, b, base, 8, 7);
    } else {
      SetAt(c, b, base, 8, 14 - i);
    }
    if i < 8 {
      SetAt(c, b, base, 8, siz - 1 - i);
    } else {
      SetAt(c, b, base, siz - 1 - 14 + i, 8);
    }
  }

  /** p.Code.set on the grid at b[base:]: lights the one pixel in row y, column x. */
  method SetAt(c: Code, b: array<Byte>, base: int, y: int, x: int)
    requires c.Valid() && Region(b[..], base, c.Size, c.Stride) && 0 <= y < c.Size && 0 <= x < c.Size
    modifies b
    ensures Region(b[..], base, c.Size, c.Stride)
    ensures forall i, j :: ShownAt(b, base, c, i, j) <==> old(ShownAt(b, base, c, i, j)) || (i == y && j == x)
    ensures forall k :: 0 <= k < b.Length && (k < base || base + c.Size * c.Stride <= k) ==> b[k] == old(b[k])
  {
    CellInRange(c.Size, c.Stride, y, x);
    c.Set(b, base, y, x);
  }

  /** Whether mask m darkens the cell in row y, column x holding pixel pix: data, check and extra cells only. */
  predicate MaskDark(pix: Pixel, m: int, y: int, x: int)
    requires m < 8
  {
    var r := Role(pix);
    (r == Data || r == Check || r == Extra) && Invert(m, y, x)
  }

  /** mplan: records mask m and sets, in the grid at b[base:], every data, check and extra pixel it inverts. */
  method MPlan(m: int, p: Plan, b: array<Byte>, base: int)
    requires m < 8 && Canvas(p.Pixel, p.Code) && Region(b[..], base, p.Code.Size, p.Code.Stride)
    modifies p, b
    ensures p.Mask == m
    ensures unchanged(p`Version, p`Level, p`DataBytes, p`CheckBytes, p`Blocks, p`Pixel, p`Code)
    ensures forall y, x :: ShownAt(b, base, p.Code, y, x) <==>
              (old(ShownAt(b, base, p.Code, y, x)) || (0 <= y < p.Code.Size && 0 <= x < p.Code.Size && MaskDark(p.Pixel[y, x], m, y, x)))
    ensures forall k :: 0 <= k < b.Length && (k < base || base + p.Code.Size * p.Code.Stride <= k) ==> b[k] == old(b[k])
  {
    p.Mask := m;
    var pixel, code := p.Pixel, p.Code;
    for y := 0 to pixel.Length0
      modifies b
      invariant forall i, j :: ShownAt(b, base, code, i, j) <==>
                  (old(ShownAt(b, base, code, i, j)) || (0 <= i < y && 0 <= j < code.Size && MaskDark(pixel[i, j], m, i, j)))
      invariant forall k :: 0 <= k < b.Length && (k < base || base + code.Size * code.Stride <= k) ==> b[k] == old(b[k])
    {
      MaskRow(m, pixel, code, b, base, y);
    }
  }

  /** The inner loop of mplan: row y. */
  method MaskRow(m: int, pixel: array2<Pixel>, code: Code, b: array<Byte>, base: int, y: int)
    requires m < 8 && Canvas(pixel, code) && Region(b[..], base, code.Size, code.Stride) && 0 <= y < code.Size
    modifies b
    ensures forall i, j :: ShownAt(b, base, code, i, j) <==>
              (old(ShownAt(b, base, code, i, j)) || (i == y && 0 <= j < code.Size && MaskDark(pixel[i, j], m, i, j)))
    ensures forall k :: 0 <= k < b.Length && (k < base || base + code.Size * code.Stride <= k) ==> b[k] == old(b[k])
  {
    for x := 0 to pixel.Length1
      invariant forall i, j :: ShownAt(b, base, code, i, j) <==>
                  (old(ShownAt(b, base, code, i, j)) || (i == y && 0 <= j < x && MaskDark(pixel[i, j], m, i, j)))
      invariant forall k :: 0 <= k < b.Length && (k < base || base + code.Size * code.Stride <= k) ==> b[k] == old(b[k])
    {
      var r := Role(pixel[y, x]);
      if (r == Data || r == Check || r == Extra) && Invert(m, y, x) {
        SetAt(code, b, base, y, x);
      }
    }
  }
}
