/**
 * Per-version capacity data of a QR code and the small pure helpers that read
 * it: the size class that picks the width of a character-count field, the
 * number of data bytes for a version and error-correction level.
 */
module Tables {

  const MinVersion := 1
  const MaxVersion := 40

  /** Error-correction levels, from least to most tolerant of errors. */
  const L := 0
  const M := 1
  const Q := 2
  const H := 3

  predicate ValidVersion(v: int) { MinVersion <= v <= MaxVersion }
  predicate ValidLevel(l: int) { L <= l <= H }

  /** Block count and check bytes per block for one level. */
  datatype LevelInfo = LevelInfo(nblock: int, check: int)

  /**
   * Metadata of one version: first alignment-box coordinate and stride,
   * total codeword bytes, 18-bit version pattern and the four level entries.
   */
  datatype VersionInfo = VersionInfo(apos: int, astride: int, bytes: int, pattern: int, level: Levels)

  /** The entries of levels L, M, Q and H. */
  datatype Levels = Levels(l: LevelInfo, m: LevelInfo, q: LevelInfo, h: LevelInfo)
  {
    /** The entry of level i (0 = L, ..., 3 = H). */
    function At(i: int): LevelInfo
      requires 0 <= i < 4
    {
      if i == 0 then l else if i == 1 then m else if i == 2 then q else h
    }
  }

  /**
   * The version table, entry by entry, indexed 0..40 as the source's array
   * is: version 0 is the empty entry the source keeps at index 0.
   */
  function Vtab(v: int): (e: VersionInfo)
    requires 0 <= v <= 40
    ensures ValidVersion(v) ==> WellFormed(e)
  {
    if v == 0 then VersionInfo(0, 0, 0, 0x0, Levels(LevelInfo(0, 0), LevelInfo(0, 0), LevelInfo(0, 0), LevelInfo(0, 0)))
    else if v <= 10 then Vtab1(v)
    else if v <= 20 then Vtab11(v)
    else if v <= 30 then Vtab21(v)
    else Vtab31(v)
  }

  function Vtab1(v: int): (e: VersionInfo)
    requires 1 <= v <= 10
    ensures WellFormed(e)
  {
    match v
    case 1 => VersionInfo(100, 100, 26, 0x0, Levels(LevelInfo(1, 7), LevelInfo(1, 10), LevelInfo(1, 13), LevelInfo(1, 17)))
    case 2 => VersionInfo(16, 100, 44, 0x0, Levels(LevelInfo(1, 10), LevelInfo(1, 16), LevelInfo(1, 22), LevelInfo(1, 28)))
    case 3 => VersionInfo(20, 100, 70, 0x0, Levels(LevelInfo(1, 15), LevelInfo(1, 26), LevelInfo(2, 18), LevelInfo(2, 22)))
    case 4 => VersionInfo(24, 100, 100, 0x0, Levels(LevelInfo(1, 20), LevelInfo(2, 18), LevelInfo(2, 26), LevelInfo(4, 16)))
    case 5 => VersionInfo(28, 100, 134, 0x0, Levels(LevelInfo(1, 26), LevelInfo(2, 24), LevelInfo(4, 18), LevelInfo(4, 22)))
    case 6 => VersionInfo(32, 100, 172, 0x0, Levels(LevelInfo(2, 18), LevelInfo(4, 16), LevelInfo(4, 24), LevelInfo(4, 28)))
    case 7 => VersionInfo(20, 16, 196, 0x7c94, Levels(LevelInfo(2, 20), LevelInfo(4, 18), LevelInfo(6, 18), LevelInfo(5, 26)))
    case 8 => VersionInfo(22, 18, 242, 0x85bc, Levels(LevelInfo(2, 24), LevelInfo(4, 22), LevelInfo(6, 22), LevelInfo(6, 26)))
    case 9 => VersionInfo(24, 20, 292, 0x9a99, Levels(LevelInfo(2, 30), LevelInfo(5, 22), LevelInfo(8, 20), LevelInfo(8, 24)))
    case _ => VersionInfo(26, 22, 346, 0xa4d3, Levels(LevelInfo(4, 18), LevelInfo(5, 26), LevelInfo(8, 24), LevelInfo(8, 28)))
  }

  function Vtab11(v: int): (e: VersionInfo)
    requires 11 <= v <= 20
    ensures WellFormed(e)
  {
    match v
    case 11 => VersionInfo(28, 24, 404, 0xbbf6, Levels(LevelInfo(4, 20), LevelInfo(5, 30), LevelInfo(8, 28), LevelInfo(11, 24)))
    case 12 => VersionInfo(30, 26, 466, 0xc762, Levels(LevelInfo(4, 24), LevelInfo(8, 22), LevelInfo(10, 26), LevelInfo(11, 28)))
    case 13 => VersionInfo(32, 28, 532, 0xd847, Levels(LevelInfo(4, 26), LevelInfo(9, 22), LevelInfo(12, 24), LevelInfo(16, 22)))
    case 14 => VersionInfo(24, 20, 581, 0xe60d, Levels(LevelInfo(4, 30), LevelInfo(9, 24), LevelInfo(16, 20), LevelInfo(16, 24)))
    case 15 => VersionInfo(24, 22, 655, 0xf928, Levels(LevelInfo(6, 22), LevelInfo(10, 24), LevelInfo(12, 30), LevelInfo(18, 24)))
    case 16 => VersionInfo(24, 24, 733, 0x10b78, Levels(LevelInfo(6, 24), LevelInfo(10, 28), LevelInfo(17, 24), LevelInfo(16, 30)))
    case 17 => VersionInfo(28, 24, 815, 0x1145d, Levels(LevelInfo(6, 28), LevelInfo(11, 28), LevelInfo(16, 28), LevelInfo(19, 28)))
    case 18 => VersionInfo(28, 26, 901, 0x12a17, Levels(LevelInfo(6, 30), LevelInfo(13, 26), LevelInfo(18, 28), LevelInfo(21, 28)))
    case 19 => VersionInfo(28, 28, 991, 0x13532, Levels(LevelInfo(7, 28), LevelInfo(14, 26), LevelInfo(21, 26), LevelInfo(25, 26)))
    case _ => VersionInfo(32, 28, 1085, 0x149a6, Levels(LevelInfo(8, 28), LevelInfo(16, 26), LevelInfo(20, 30), LevelInfo(25, 28)))
  }

  function Vtab21(v: int): (e: VersionInfo)
    requires 21 <= v <= 30
    ensures WellFormed(e)
  {
    match v
    case 21 => VersionInfo(26, 22, 1156, 0x15683, Levels(LevelInfo(8, 28), LevelInfo(17, 26), LevelInfo(23, 28), LevelInfo(25, 30)))
    case 22 => VersionInfo(24, 24, 1258, 0x168c9, Levels(LevelInfo(9, 28), LevelInfo(17, 28), LevelInfo(23, 30), LevelInfo(34, 24)))
    case 23 => VersionInfo(28, 24, 1364, 0x177ec, Levels(LevelInfo(9, 30), LevelInfo(18, 28), LevelInfo(25, 30), LevelInfo(30, 30)))
    case 24 => VersionInfo(26, 26, 1474, 0x18ec4, Levels(LevelInfo(10, 30), LevelInfo(20, 28), LevelInfo(27, 30), LevelInfo(32, 30)))
    case 25 => VersionInfo(30, 26, 1588, 0x191e1, Levels(LevelInfo(12, 26), LevelInfo(21, 28), LevelInfo(29, 30), LevelInfo(35, 30)))
    case 26 => VersionInfo(28, 28, 1706, 0x1afab, Levels(LevelInfo(12, 28), LevelInfo(23, 28), LevelInfo(34, 28), LevelInfo(37, 30)))
    case 27 => VersionInfo(32, 28, 1828, 0x1b08e, Levels(LevelInfo(12, 30), LevelInfo(25, 28), LevelInfo(34, 30), LevelInfo(40, 30)))
    case 28 => VersionInfo(24, 24, 1921, 0x1cc1a, Levels(LevelInfo(13, 30), LevelInfo(26, 28), LevelInfo(35, 30), LevelInfo(42, 30)))
    case 29 => VersionInfo(28, 24, 2051, 0x1d33f, Levels(LevelInfo(14, 30), LevelInfo(28, 28), LevelInfo(38, 30), LevelInfo(45, 30)))
    case _ => VersionInfo(24, 26, 2185, 0x1ed75, Levels(LevelInfo(15, 30), LevelInfo(29, 28), LevelInfo(40, 30), LevelInfo(48, 30)))
  }

  function Vtab31(v: int): (e: VersionInfo)
    requires 31 <= v <= 40
    ensures WellFormed(e)
  {
    match v
    case 31 => VersionInfo(28, 26, 2323, 0x1f250, Levels(LevelInfo(16, 30), LevelInfo(31, 28), LevelInfo(43, 30), LevelInfo(51, 30)))
    case 32 => VersionInfo(32, 26, 2465, 0x209d5, Levels(LevelInfo(17, 30), LevelInfo(33, 28), LevelInfo(45, 30), LevelInfo(54, 30)))
    case 33 => VersionInfo(28, 28, 2611, 0x216f0, Levels(LevelInfo(18, 30), LevelInfo(35, 28), LevelInfo(48, 30), LevelInfo(57, 30)))
    case 34 => VersionInfo(32, 28, 2761, 0x228ba, Levels(LevelInfo(19, 30), LevelInfo(37, 28), LevelInfo(51, 30), LevelInfo(60, 30)))
    case 35 => VersionInfo(28, 24, 2876, 0x2379f, Levels(LevelInfo(19, 30), LevelInfo(38, 28), LevelInfo(53, 30), LevelInfo(63, 30)))
    case 36 => VersionInfo(22, 26, 3034, 0x24b0b, Levels(LevelInfo(20, 30), LevelInfo(40, 28), LevelInfo(56, 30), LevelInfo(66, 30)))
    case 37 => VersionInfo(26, 26, 3196, 0x2542e, Levels(LevelInfo(21, 30), LevelInfo(43, 28), LevelInfo(59, 30), LevelInfo(70, 30)))
    case 38 => VersionInfo(30, 26, 3362, 0x26a64, Levels(LevelInfo(22, 30), LevelInfo(45, 28), LevelInfo(62, 30), LevelInfo(74, 30)))
    case 39 => VersionInfo(24, 28, 3532, 0x27541, Levels(LevelInfo(24, 30), LevelInfo(47, 28), LevelInfo(65, 30), LevelInfo(77, 30)))
    case _ => VersionInfo(28, 28, 3706, 0x28c69, Levels(LevelInfo(25, 30), LevelInfo(49, 28), LevelInfo(68, 30), LevelInfo(81, 30)))
  }

  /**
   * What the encoder relies on in an entry: four levels, each with at least
   * one block and fewer check bytes than the symbol has bytes, an alignment
   * stride that moves forward, a first alignment coordinate past the top-left
   * corner, and a version pattern of 18 bits.
   */
  predicate WellFormed(e: VersionInfo)
  {
    && 4 < e.apos && 0 < e.astride
    && 0 < e.bytes <= 3706
    && 0 <= e.pattern < 0x40000
    && LevelFits(e.level.l, e.bytes) && LevelFits(e.level.m, e.bytes)
    && LevelFits(e.level.q, e.bytes) && LevelFits(e.level.h, e.bytes)
  }

  predicate LevelFits(x: LevelInfo, bytes: int)
  {
    1 <= x.nblock && 0 <= x.check && x.nblock * x.check < bytes
  }

  /** The size class of a version: 0 for versions up to 9, 1 up to 26, 2 above. */
  function SizeClass(v: int): (c: int)
    ensures 0 <= c < 3
    ensures (c == 0) == (v <= 9) && (c == 2) == (v > 26)
  {
    if v <= 9 then 0 else if v <= 26 then 1 else 2
  }

  /** Width of the character-count field of the numeric mode, per size class. */
  const numLen: seq<int> := [10, 12, 14]
  /** Width of the character-count field of the alphanumeric mode, per size class. */
  const alphaLen: seq<int> := [9, 11, 13]
  /** Width of the character-count field of the 8-bit byte mode, per size class. */
  const stringLen: seq<int> := [8, 16, 16]

  /** Number of data bytes of a version at a level: all bytes less the check bytes. */
  function DataBytes(v: int, l: int): (n: int)
    requires 0 <= v <= 40 && 0 <= l < 4
    ensures n + Vtab(v).level.At(l).nblock * Vtab(v).level.At(l).check == Vtab(v).bytes
  {
    Vtab(v).bytes - Vtab(v).level.At(l).nblock * Vtab(v).level.At(l).check
  }

  /**
   * The data bytes of a symbol are split into `nblock` blocks of
   * `nd / nblock` bytes, except that the last `nd % nblock` blocks carry one
   * byte more. Block i holds this many data bytes.
   */
  function BlockLen(nd: int, nblock: int, i: int): int
    requires nblock >= 1
  {
    nd / nblock + (if i >= nblock - nd % nblock then 1 else 0)
  }

  /** Offset of the first data byte of block i. */
  function BlockStart(nd: int, nblock: int, i: int): int
    requires nblock >= 1
  {
    i * (nd / nblock) + (if i > nblock - nd % nblock then i - (nblock - nd % nblock) else 0)
  }

  /** The blocks follow one another and together cover the data bytes exactly. */
  lemma BlocksTile(nd: int, nblock: int, i: int)
    requires 0 <= nd && 1 <= nblock && 0 <= i < nblock
    ensures BlockStart(nd, nblock, 0) == 0
    ensures BlockStart(nd, nblock, i + 1) == BlockStart(nd, nblock, i) + BlockLen(nd, nblock, i)
    ensures BlockStart(nd, nblock, nblock) == nd
    ensures 0 <= BlockStart(nd, nblock, i) && 0 <= BlockLen(nd, nblock, i)
  {
    var q, r := nd / nblock, nd % nblock;
    assert nblock * q + r == nd;
    assert (i + 1) * q == i * q + q;
    assert BlockStart(nd, nblock, nblock) == nblock * q + r;
  }

  /** Every block lies inside the data bytes. */
  lemma BlockWithin(nd: int, nblock: int, i: int)
    requires 0 <= nd && 1 <= nblock && 0 <= i < nblock
    ensures 0 <= BlockStart(nd, nblock, i)
    ensures 0 <= BlockLen(nd, nblock, i)
    ensures BlockStart(nd, nblock, i) + BlockLen(nd, nblock, i) <= nd
  {
    BlocksTile(nd, nblock, i);
    var q, r := nd / nblock, nd % nblock;
    assert nblock * q + r == nd;
    MulMono(i + 1, nblock, q);
    assert BlockStart(nd, nblock, i + 1) == (i + 1) * q + (if i + 1 > nblock - r then i + 1 - (nblock - r) else 0);
  }

  lemma MulMono(a: int, b: int, q: int)
    requires 0 <= a <= b && 0 <= q
    ensures a * q <= b * q
  {
    assert b * q == a * q + (b - a) * q;
  }
}
