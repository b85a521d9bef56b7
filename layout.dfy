/**
 * The fixed patterns of a QR symbol as the plan builder draws them: the
 * timing strips, the three position (finder) boxes with their white
 * borders, the alignment boxes, the two version blocks, the format
 * placeholders and the lone dark pixel. Each is stated as a predicate on a
 * cell (row y, column x); FixedPixel and FixedDark combine them in the order
 * the builder draws them, so that a later pattern overwrites the role an
 * earlier one gave a cell, while dark pixels only ever accumulate.
 */
module Layout {
  import opened Arith
  import opened Pixels
  import opened Tables
  import Fmt = Format

  /** Side of a symbol of version v, in pixels. */
  function Side(v: int): int
  {
    17 + 4 * v
  }

  /** Bytes per bitmap row: (siz + 7) >> 3. */
  function StrideOf(siz: int): (s: int)
    requires siz >= 0
    ensures siz <= 8 * s < siz + 8
  {
    (siz + 7) / 8
  }

  /** The square of side n with upper-left corner at column left, row top. */
  predicate InSquare(left: int, top: int, n: int, y: int, x: int)
  {
    top <= y < top + n && left <= x < left + n
  }

  // ------------------------------------------------------------ timing

  /** Row 6 and column 6 carry the timing strips. */
  predicate TimingCell(y: int, x: int)
  {
    y == 6 || x == 6
  }

  /** The timing strips are dark on even positions. */
  predicate TimingDark(y: int, x: int)
  {
    (x == 6 && y % 2 == 0) || (y == 6 && x % 2 == 0)
  }

  // ------------------------------------------------------------ position boxes

  /** The one-pixel white border around a position box, where it lies inside the symbol. */
  predicate PosBorder(siz: int, left: int, top: int, y: int, x: int)
  {
    || (top - 1 <= y < top + 8 && 0 <= y < siz && ((left > 0 && x == left - 1) || (left + 7 < siz && x == left + 7)))
    || (left - 1 <= x < left + 8 && 0 <= x < siz && ((top > 0 && y == top - 1) || (top + 7 < siz && y == top + 7)))
  }

  /** The cells a position box at (left, top) claims: its 7x7 square and its border. */
  predicate PosCell(siz: int, left: int, top: int, y: int, x: int)
  {
    InSquare(left, top, 7, y, x) || PosBorder(siz, left, top, y, x)
  }

  /** The dark pixels of a position box: the outer ring of the square and its 3x3 core. */
  predicate PosDark(left: int, top: int, y: int, x: int)
  {
    InSquare(left, top, 7, y, x) &&
      var dx, dy := x - left, y - top;
      dx == 0 || dx == 6 || dy == 0 || dy == 6 || (2 <= dx <= 4 && 2 <= dy <= 4)
  }

  /** The three position boxes: top left, top right, bottom left. */
  predicate AnyPosCell(siz: int, y: int, x: int)
  {
    PosCell(siz, 0, 0, y, x) || PosCell(siz, siz - 7, 0, y, x) || PosCell(siz, 0, siz - 7, y, x)
  }

  predicate AnyPosDark(siz: int, y: int, x: int)
  {
    PosDark(0, 0, y, x) || PosDark(siz - 7, 0, y, x) || PosDark(0, siz - 7, y, x)
  }

  /** Chebyshev distance of (a, b) from the origin. */
  function Ring(a: int, b: int): (d: nat)
    ensures d == a || d == -a || d == b || d == -b
  {
    var aa := if a < 0 then -a else a;
    var bb := if b < 0 then -b else b;
    if aa < bb then bb else aa
  }

  /**
   * The finder pattern of section 6.3.3 of ISO/IEC 18004: concentric squares
   * around the centre, dark at distance 0 and 1 (the 3x3 core) and 3 (the
   * outer ring), light at distance 2.
   */
  lemma PosDarkRings(left: int, top: int, y: int, x: int)
    requires InSquare(left, top, 7, y, x)
    ensures PosDark(left, top, y, x) <==> Ring(x - left - 3, y - top - 3) != 2
  {
  }

  // ------------------------------------------------------------ alignment boxes

  /**
   * The coordinates the alignment loops visit, in order: 4, then apos,
   * apos + astride, apos + 2 astride, ...
   */
  function AlignCoord(e: VersionInfo, k: nat): int
  {
    if k == 0 then 4 else e.apos + (k - 1) * e.astride
  }

  /** How many coordinates from the k-th on the loops visit: those c with c + 5 < siz. */
  function AlignCountFrom(e: VersionInfo, siz: int, k: nat): nat
    requires 4 < e.apos && 0 < e.astride
    decreases if siz > AlignCoord(e, k) then siz - AlignCoord(e, k) else 0
  {
    if AlignCoord(e, k) + 5 < siz then 1 + AlignCountFrom(e, siz, k + 1) else 0
  }

  /** Number of coordinates each alignment loop visits. */
  function AlignCount(e: VersionInfo, siz: int): nat
    requires 4 < e.apos && 0 < e.astride
  {
    AlignCountFrom(e, siz, 0)
  }

  /** The loops visit exactly the coordinates below AlignCount, in increasing order. */
  lemma {:induction false} AlignCountFromSpec(e: VersionInfo, siz: int, k: nat, j: nat)
    requires 4 < e.apos && 0 < e.astride && k <= j
    ensures AlignCoord(e, j) + 5 < siz <==> j < k + AlignCountFrom(e, siz, k)
    decreases j - k
  {
    AlignCoordMono(e, k, j);
    if AlignCoord(e, k) + 5 < siz && k < j {
      AlignCountFromSpec(e, siz, k + 1, j);
    }
  }

  lemma AlignCoordMono(e: VersionInfo, k: nat, j: nat)
    requires 4 < e.apos && 0 < e.astride && k <= j
    ensures AlignCoord(e, k) <= AlignCoord(e, j)
    ensures k < j ==> AlignCoord(e, k) < AlignCoord(e, j)
  {
    if 0 < k < j {
      assert (j - 1) * e.astride == (k - 1) * e.astride + (j - k) * e.astride;
      assert (j - k) * e.astride > 0;
    } else if k == 0 < j {
      assert (j - 1) * e.astride >= 0;
    }
  }

  lemma AlignCountSpec(e: VersionInfo, siz: int, k: nat)
    requires 4 < e.apos && 0 < e.astride
    ensures AlignCoord(e, k) + 5 < siz <==> k < AlignCount(e, siz)
  {
    AlignCountFromSpec(e, siz, 0, k);
  }

  /** The corners where an alignment box would cover a position box or its border. */
  predicate Skipped(siz: int, ax: int, ay: int)
  {
    (ax < 7 && ay < 7) || (ax < 7 && ay + 5 >= siz - 7) || (ax + 5 >= siz - 7 && ay < 7)
  }

  /**
   * Whether the box the loops draw at lattice point (kx, ky) covers the cell
   * (if dark is false) or makes it dark (if dark is true): dark on its outer
   * ring and its centre.
   */
  predicate AlignHit(e: VersionInfo, siz: int, kx: nat, ky: nat, dark: bool, y: int, x: int)
  {
    var ax, ay := AlignCoord(e, kx), AlignCoord(e, ky);
    !Skipped(siz, ax, ay) && InSquare(ax, ay, 5, y, x) && (!dark || AlignDark(ax, ay, y, x))
  }

  /** The dark pixels of an alignment box at (left, top): its outer ring and its centre. */
  predicate AlignDark(left: int, top: int, y: int, x: int)
  {
    InSquare(left, top, 5, y, x) &&
      var dx, dy := x - left, y - top;
      dx == 0 || dx == 4 || dy == 0 || dy == 4 || (dx == 2 && dy == 2)
  }

  /**
   * Whether one of the first ky boxes the inner loop visits in the column of
   * lattice index kx hits the cell.
   */
  predicate ColumnHits(e: VersionInfo, siz: int, kx: nat, ky: nat, dark: bool, y: int, x: int)
    decreases ky
  {
    ky > 0 && (ColumnHits(e, siz, kx, ky - 1, dark, y, x) || AlignHit(e, siz, kx, ky - 1, dark, y, x))
  }

  /**
   * Whether a box the outer loop draws in its first kx columns hits the cell;
   * each column has n coordinates, n being AlignCount.
   */
  predicate AlignBefore(e: VersionInfo, siz: int, n: nat, kx: nat, dark: bool, y: int, x: int)
    decreases kx
  {
    kx > 0 && (AlignBefore(e, siz, n, kx - 1, dark, y, x) || ColumnHits(e, siz, kx - 1, n, dark, y, x))
  }

  /** The alignment pattern of section 6.3.6 of ISO/IEC 18004: dark at distance 0 and 2 from the centre. */
  lemma AlignDarkRings(e: VersionInfo, siz: int, kx: nat, ky: nat, y: int, x: int)
    requires AlignHit(e, siz, kx, ky, false, y, x)
    ensures AlignHit(e, siz, kx, ky, true, y, x)
        <==> Ring(x - AlignCoord(e, kx) - 2, y - AlignCoord(e, ky) - 2) != 1
  {
  }

  // ------------------------------------------------------------ version blocks

  /** The 6x3 block above the bottom-left box and its mirror image left of the top-right box. */
  predicate VersionCell(siz: int, y: int, x: int)
  {
    (siz - 11 <= y < siz - 8 && 0 <= x < 6) || (0 <= y < 6 && siz - 11 <= x < siz - 8)
  }

  /** Which bit of the version pattern a version cell shows: bit 3 i + j for the i-th cell of 6 and the j-th of 3. */
  function VersionBitIndex(siz: int, y: int, x: int): int
  {
    if siz - 11 <= y < siz - 8 && 0 <= x < 6 then 3 * x + (y - (siz - 11)) else 3 * y + (x - (siz - 11))
  }

  /** The two copies of a version bit are mirror images across the diagonal. */
  lemma VersionMirror(siz: int, y: int, x: int)
    requires siz >= 21 && VersionCell(siz, y, x)
    ensures VersionCell(siz, x, y) && VersionBitIndex(siz, x, y) == VersionBitIndex(siz, y, x)
    ensures 0 <= VersionBitIndex(siz, y, x) < 18
  {
  }

  // ------------------------------------------------------------ the whole layout

  /** The lone dark pixel, next to the bottom-left box. */
  predicate LoneCell(siz: int, y: int, x: int)
  {
    y == siz - 8 && x == 8
  }

  /**
   * The role of each cell after the first k drawing stages of vplan (timing,
   * position boxes, alignment boxes, version blocks, format placeholders,
   * lone pixel): the last pattern drawn on a cell decides its role, and cells
   * no pattern claims hold 0.
   */
  function Layer(v: int, k: nat, y: int, x: int): Pixel
    requires ValidVersion(v)
    decreases k
  {
    var siz, e := Side(v), Vtab(v);
    var n := AlignCount(e, siz);
    if k == 0 then 0
    else if k == 1 then (if TimingCell(y, x) then RolePixel(Timing) else 0)
    else if k == 2 then (if AnyPosCell(siz, y, x) then RolePixel(Position) else Layer(v, 1, y, x))
    else if k == 3 then (if AlignBefore(e, siz, n, n, false, y, x) then RolePixel(Alignment) else Layer(v, 2, y, x))
    else if k == 4 then (if e.pattern != 0 && VersionCell(siz, y, x) then RolePixel(PVersion) else Layer(v, 3, y, x))
    else if k == 5 then (if Fmt.FormatIndex(siz, y, x) >= 0 then Pack(Format, Fmt.FormatIndex(siz, y, x)) else Layer(v, 4, y, x))
    else (if LoneCell(siz, y, x) then RolePixel(Unused) else Layer(v, 5, y, x))
  }

  /** The dark pixels after the first k drawing stages: pixels only ever turn dark. */
  predicate DarkLayer(v: int, k: nat, y: int, x: int)
    requires ValidVersion(v)
    decreases k
  {
    var siz, e := Side(v), Vtab(v);
    var n := AlignCount(e, siz);
    && 0 <= y < siz && 0 <= x < siz
    && if k == 0 then false
       else if k == 1 then TimingDark(y, x)
       else if k == 2 then AnyPosDark(siz, y, x) || DarkLayer(v, 1, y, x)
       else if k == 3 then AlignBefore(e, siz, n, n, true, y, x) || DarkLayer(v, 2, y, x)
       else if k == 4 then (e.pattern != 0 && VersionCell(siz, y, x) && Bit(e.pattern, VersionBitIndex(siz, y, x)))
                           || DarkLayer(v, 3, y, x)
       else if k == 5 then DarkLayer(v, 4, y, x)
       else LoneCell(siz, y, x) || DarkLayer(v, 5, y, x)
  }

  /** The role of each cell once vplan is done. */
  function FixedPixel(v: int, y: int, x: int): Pixel
    requires ValidVersion(v)
  {
    Layer(v, 6, y, x)
  }

  /** The dark pixels once vplan is done: every pixel some pattern makes dark. */
  predicate FixedDark(v: int, y: int, x: int)
    requires ValidVersion(v)
  {
    DarkLayer(v, 6, y, x)
  }

  /** The lone dark pixel sits at row 4v + 9, column 8, as section 7.9.1 of ISO/IEC 18004 places the dark module. */
  lemma DarkModule(v: int)
    requires ValidVersion(v)
    ensures Role(FixedPixel(v, 4 * v + 9, 8)) == Unused && FixedDark(v, 4 * v + 9, 8)
  {
  }

  /** Both copies of format bit i are placeholders for that bit. */
  lemma FormatSlots(v: int, i: int)
    requires ValidVersion(v) && 0 <= i < 15
    ensures FixedPixel(v, Fmt.Loc1(i).0, Fmt.Loc1(i).1) == Pack(Format, i)
    ensures FixedPixel(v, Fmt.Loc2(Side(v), i).0, Fmt.Loc2(Side(v), i).1) == Pack(Format, i)
  {
    Fmt.FormatPlaces(Side(v), Fmt.Loc1(i).0, Fmt.Loc1(i).1, i);
    Fmt.FormatPlaces(Side(v), Fmt.Loc2(Side(v), i).0, Fmt.Loc2(Side(v), i).1, i);
  }

  /** No pattern leaves a cell of the timing column unclaimed, so the data sweep may skip it. */
  lemma TimingColumnClaimed(v: int, y: int)
    requires ValidVersion(v) && 0 <= y < Side(v)
    ensures Role(FixedPixel(v, y, 6)) != 0
  {
  }

  /** A cell no pattern claims is not dark: vplan leaves data cells white. */
  lemma FreeIsLight(v: int, y: int, x: int)
    requires ValidVersion(v) && 0 <= y < Side(v) && 0 <= x < Side(v)
    requires FixedPixel(v, y, x) == 0
    ensures !FixedDark(v, y, x)
  {
    var siz, e := Side(v), Vtab(v);
    var n := AlignCount(e, siz);
    AlignDarkCovered(e, siz, n, n, y, x);
  }

  /** A box that makes a cell dark also covers it. */
  lemma {:induction false} AlignDarkCovered(e: VersionInfo, siz: int, n: nat, kx: nat, y: int, x: int)
    ensures AlignBefore(e, siz, n, kx, true, y, x) ==> AlignBefore(e, siz, n, kx, false, y, x)
    decreases kx
  {
    if kx > 0 {
      AlignDarkCovered(e, siz, n, kx - 1, y, x);
      ColumnDarkCovered(e, siz, kx - 1, n, y, x);
    }
  }

  lemma {:induction false} ColumnDarkCovered(e: VersionInfo, siz: int, kx: nat, ky: nat, y: int, x: int)
    ensures ColumnHits(e, siz, kx, ky, true, y, x) ==> ColumnHits(e, siz, kx, ky, false, y, x)
    decreases ky
  {
    if ky > 0 {
      ColumnDarkCovered(e, siz, kx, ky - 1, y, x);
    }
  }
}
