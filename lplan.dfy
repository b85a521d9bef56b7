/**
 * lplan: the level stage of a plan. It records the level's block layout in
 * the plan, builds the data and check pixels, splits them into blocks,
 * interleaves the blocks into one bit stream and sweeps that stream, with
 * seven extra pixels after it, into the cells vplan left unclaimed.
 */
module LevelPlan {
  import opened Tables
  import opened Pixels
  import opened Layout
  import opened Plans
  import opened Interleave
  import opened Stream
  import opened Sweep
  import opened Placement

  /** The pixel map vplan leaves for version v, as rows of values. */
  function LaidGrid(v: int): (g: seq<seq<Pixel>>)
    requires ValidVersion(v)
    ensures Square(g, Side(v))
    ensures forall y, x :: 0 <= y < Side(v) && 0 <= x < Side(v) ==> g[y][x] == FixedPixel(v, y, x)
  {
    seq(Side(v), y => seq(Side(v), x => Layer(v, 6, y, x)))
  }

  /** The pixels lplan sweeps for version v at level l: the symbol's bytes as bits, then seven extra pixels. */
  function LevelSource(v: int, l: int): (src: seq<Pixel>)
    requires ValidVersion(v) && ValidLevel(l)
    ensures |src| == 8 * Vtab(v).bytes + 7
  {
    var x := Vtab(v).level.At(l);
    Interleave.MulLe(0, x.nblock, x.check);
    Source(DataBytes(v, l), x.nblock, x.check)
  }

  /** Whether the cells vplan leaves free number no more than the pixels lplan has to place in them. */
  ghost predicate Fits(v: int, l: int)
    requires ValidVersion(v) && ValidLevel(l)
  {
    Count(FreeSteps(LaidGrid(v), Side(v)), Steps(Side(v))) <= |LevelSource(v, l)|
  }

  /** Whether the cells vplan leaves free number at least the data and check pixels of version v. */
  ghost predicate Covers(v: int)
    requires ValidVersion(v)
  {
    Count(FreeSteps(LaidGrid(v), Side(v)), Steps(Side(v))) >= 8 * Vtab(v).bytes
  }

  /** The pixel lplan leaves in row y, column x for version v at level l. */
  ghost function LevelPixel(v: int, l: int, y: int, x: int): Pixel
    requires ValidVersion(v) && ValidLevel(l) && 0 <= y < Side(v) && 0 <= x < Side(v)
  {
    var g := LaidGrid(v);
    Swept(g, FreeSteps(g, Side(v)), LevelSource(v, l), Side(v), Steps(Side(v)), y, x)
  }

  /** The pixel map m holds what vplan draws for version v. */
  ghost predicate Fixed(m: array2<Pixel>, v: int)
    requires ValidVersion(v)
    reads m
  {
    && m.Length0 == Side(v) && m.Length1 == Side(v)
    && forall y, x :: 0 <= y < Side(v) && 0 <= x < Side(v) ==> m[y, x] == FixedPixel(v, y, x)
  }

  /** The sizes lplan computes from a table entry agree with the ones the stream is built from. */
  lemma EntrySizes(bytes: int, nblock: int, ne: int)
    requires 1 <= nblock && 0 <= ne && nblock * ne < bytes <= 3706
    ensures 0 < bytes - ne * nblock == bytes - nblock * ne && 0 <= nblock * ne
    ensures ((bytes - ne * nblock) / nblock * nblock + (bytes - ne * nblock) % nblock) * 8 == 8 * (bytes - ne * nblock)
    ensures ne * nblock * 8 == 8 * (nblock * ne)
    ensures 8 * (bytes - ne * nblock + nblock * ne) <= 0x1000_0000
  {
    assert ne * nblock == nblock * ne;
  }

  /** The entry of version v at level l fits its byte count, and the symbol's side suits the sweep. */
  lemma LevelSizes(v: int, l: int)
    requires ValidVersion(v) && ValidLevel(l)
    ensures LevelFits(Vtab(v).level.At(l), Vtab(v).bytes) && Vtab(v).bytes <= 3706
    ensures SweepSide(Side(v))
  {
    assert WellFormed(Vtab(v));
  }

  /**
   * lplan for version v and level l on a plan vplan laid out for v: the plan
   * records the level, the data and check byte counts and the block count,
   * and its pixel map becomes the map LevelPixel describes. The sweep runs
   * out of pixels exactly when the free cells outnumber them; the source
   * then indexes past the end of its slice, which the model reports as
   * ok == false.
   */
  method LPlan(v: int, l: int, p: Plan) returns (ok: bool)
    requires ValidVersion(v) && ValidLevel(l) && Fixed(p.Pixel, v)
    modifies p, p.Pixel
    ensures p.Level == l && p.DataBytes == DataBytes(v, l)
    ensures p.CheckBytes == Vtab(v).level.At(l).nblock * Vtab(v).level.At(l).check
    ensures p.Blocks == Vtab(v).level.At(l).nblock
    ensures p.Version == old(p.Version) && p.Mask == old(p.Mask)
    ensures p.Pixel == old(p.Pixel) && p.Code == old(p.Code)
    ensures ok <==> Fits(v, l)
    ensures ok ==> forall y, x :: 0 <= y < Side(v) && 0 <= x < Side(v) ==> p.Pixel[y, x] == LevelPixel(v, l, y, x)
  {
    p.Level := l;
    var e := Vtab(v);
    var nblock := e.level.At(l).nblock;
    var ne := e.level.At(l).check;
    var nde := (e.bytes - ne * nblock) / nblock;
    var extra := (e.bytes - ne * nblock) % nblock;
    var dataBits := (nde * nblock + extra) * 8;
    var checkBits := ne * nblock * 8;
    p.DataBytes := e.bytes - ne * nblock;
    p.CheckBytes := ne * nblock;
    p.Blocks := nblock;
    var nd := p.DataBytes;
    LevelSizes(v, l);
    EntrySizes(e.bytes, nblock, ne);

    var src := BuildSource(nd, nblock, ne, dataBits, checkBits);
    assert src == LevelSource(v, l);
    ghost var g := LaidGrid(v);
    ok := SweepColumns(p.Pixel, g, FreeSteps(g, Side(v)), src);
  }

  /**
   * The pixels lplan sweeps, built as lplan builds them: dataBits data
   * pixels and checkBits check pixels, split into blocks, interleaved, and
   * followed by seven extra pixels.
   */
  method BuildSource(nd: int, nblock: int, ne: int, dataBits: int, checkBits: int) returns (src: seq<Pixel>)
    requires 0 <= nd && 1 <= nblock && 0 <= ne && 0 <= nblock * ne
    requires dataBits == 8 * nd && checkBits == 8 * (nblock * ne)
    ensures src == Source(nd, nblock, ne)
  {
    var data := MakePixels(Data, dataBits, 0);
    var check := MakePixels(Check, checkBits, dataBits);
    var dataList, checkList := SplitBlocks(data, check, nd, nblock, ne);
    forall b | 0 <= b < nblock
      ensures DataBlock(dataList[b], nd, nblock, b) && CheckBlock(checkList[b], nd, ne, b)
    {
      DataSliceBlock(dataList[b], data, nd, nblock, b);
      CheckSliceBlock(checkList[b], check, nd, ne, b);
    }
    var bits := InterleaveBlocks(dataList, checkList, nd, nblock, ne);
    var rem := seq(7, _ => RolePixel(Extra));
    src := bits + rem;
  }

  // ------------------------------------------------------------ the finished map

  /** Every role vplan draws is at most Unused: none is a data, check or extra pixel. */
  lemma {:induction false} LayerRole(v: int, k: nat, y: int, x: int)
    requires ValidVersion(v)
    ensures Role(Layer(v, k, y, x)) <= Unused
    decreases k
  {
    if k == 5 && Fmt.FormatIndex(Side(v), y, x) >= 0 {
      PackExact(Format, Fmt.FormatIndex(Side(v), y, x));
    } else if k >= 2 {
      LayerRole(v, k - 1, y, x);
    }
  }

  /**
   * A cell vplan leaves without a role holds the zero pixel, and no format
   * bit sits there.
   */
  lemma {:induction false} LayerFree(v: int, k: nat, y: int, x: int)
    requires ValidVersion(v)
    ensures Role(Layer(v, k, y, x)) == 0 ==> Layer(v, k, y, x) == 0
    ensures Role(Layer(v, k, y, x)) == 0 && k >= 5 ==> Fmt.FormatIndex(Side(v), y, x) < 0
    decreases k
  {
    if k >= 5 && Fmt.FormatIndex(Side(v), y, x) >= 0 {
      PackExact(Format, Fmt.FormatIndex(Side(v), y, x));
      if k == 6 {
        LayerFree(v, 5, y, x);
      }
    } else if k >= 2 {
      LayerFree(v, k - 1, y, x);
    }
  }

  /** Once the stream fits, lplan leaves no cell of the map without a role. */
  lemma LevelNoneFree(v: int, l: int, y: int, x: int)
    requires ValidVersion(v) && ValidLevel(l) && Fits(v, l)
    requires 0 <= y < Side(v) && 0 <= x < Side(v)
    ensures Role(LevelPixel(v, l, y, x)) != 0
  {
    var g, src := LaidGrid(v), LevelSource(v, l);
    var e := Vtab(v).level.At(l);
    LevelSizes(v, l);
    EntrySizes(Vtab(v).bytes, e.nblock, e.check);
    forall i | 0 <= i < Side(v)
      ensures !Free(g, i, 6)
    {
      TimingColumnClaimed(v, i);
    }
    forall i | 0 <= i < |src|
      ensures Role(src[i]) != 0
    {
      SourcePixel(DataBytes(v, l), e.nblock, e.check, i);
    }
    SweptNoneFree(g, FreeSteps(g, Side(v)), src, Side(v), y, x);
  }

  /**
   * A data or check pixel of the finished map came from the stream: its cell
   * was free after vplan, lies outside the timing column, and the sweep gave
   * it stream pixel i.
   */
  lemma FromStream(v: int, l: int, y: int, x: int) returns (i: int)
    requires ValidVersion(v) && ValidLevel(l) && Fits(v, l)
    requires 0 <= y < Side(v) && 0 <= x < Side(v)
    requires Role(LevelPixel(v, l, y, x)) == Data || Role(LevelPixel(v, l, y, x)) == Check
    ensures x != 6 && Free(LaidGrid(v), y, x)
    ensures 0 <= Pos(Side(v), y, x) <= Steps(Side(v))
    ensures i == Count(FreeSteps(LaidGrid(v), Side(v)), Pos(Side(v), y, x))
    ensures 0 <= i < 8 * Vtab(v).bytes && LevelPixel(v, l, y, x) == LevelSource(v, l)[i]
  {
    var g, src := LaidGrid(v), LevelSource(v, l);
    var vs := FreeSteps(g, Side(v));
    var e := Vtab(v).level.At(l);
    LevelSizes(v, l);
    EntrySizes(Vtab(v).bytes, e.nblock, e.check);
    LayerRole(v, 6, y, x);
    var s := Taken(g, vs, Side(v), y, x);
    CountStrict(vs, s, |vs|);
    i := Count(vs, s);
    SourcePixel(DataBytes(v, l), e.nblock, e.check, i);
  }

  /**
   * Data pixels of the finished map carry offsets below the data bits and
   * check pixels offsets from there up to the end of the stream.
   */
  lemma LevelOffsets(v: int, l: int, y: int, x: int)
    requires ValidVersion(v) && ValidLevel(l) && Fits(v, l)
    requires 0 <= y < Side(v) && 0 <= x < Side(v)
    ensures Role(LevelPixel(v, l, y, x)) == Data ==> Offset(LevelPixel(v, l, y, x)) < 8 * DataBytes(v, l)
    ensures Role(LevelPixel(v, l, y, x)) == Check ==>
              8 * DataBytes(v, l) <= Offset(LevelPixel(v, l, y, x)) < 8 * Vtab(v).bytes
  {
    var p := LevelPixel(v, l, y, x);
    if Role(p) == Data || Role(p) == Check {
      var e := Vtab(v).level.At(l);
      var nd := DataBytes(v, l);
      LevelSizes(v, l);
      EntrySizes(Vtab(v).bytes, e.nblock, e.check);
      var i := FromStream(v, l, y, x);
      SourcePixel(nd, e.nblock, e.check, i);
      OrderInverse(nd, e.nblock, e.check, i / 8);
    }
  }

  /** No two cells of the finished map carry the same data or check bit. */
  lemma LevelApart(v: int, l: int, y: int, x: int, y': int, x': int)
    requires ValidVersion(v) && ValidLevel(l) && Fits(v, l)
    requires 0 <= y < Side(v) && 0 <= x < Side(v) && 0 <= y' < Side(v) && 0 <= x' < Side(v)
    requires (y, x) != (y', x')
    requires Role(LevelPixel(v, l, y, x)) == Data || Role(LevelPixel(v, l, y, x)) == Check
    requires Role(LevelPixel(v, l, y', x')) == Data || Role(LevelPixel(v, l, y', x')) == Check
    ensures Offset(LevelPixel(v, l, y, x)) != Offset(LevelPixel(v, l, y', x'))
  {
    var g := LaidGrid(v);
    var e := Vtab(v).level.At(l);
    LevelSizes(v, l);
    EntrySizes(Vtab(v).bytes, e.nblock, e.check);
    var i := FromStream(v, l, y, x);
    var j := FromStream(v, l, y', x');
    SweptApart(g, FreeSteps(g, Side(v)), Side(v), y, x, y', x');
    SourceApart(DataBytes(v, l), e.nblock, e.check, i, j);
  }

  /**
   * When the free cells are enough, every bit of every data and check byte
   * lands somewhere: bit o of the blocked message sits in a cell of the
   * finished map, as a data pixel below the data bits and a check pixel
   * after them.
   */
  lemma LevelCovered(v: int, l: int, o: int) returns (y: int, x: int)
    requires ValidVersion(v) && ValidLevel(l) && Covers(v)
    requires 0 <= o < 8 * Vtab(v).bytes
    ensures 0 <= y < Side(v) && 0 <= x < Side(v)
    ensures Role(LevelPixel(v, l, y, x)) == if o < 8 * DataBytes(v, l) then Data else Check
    ensures Offset(LevelPixel(v, l, y, x)) == o
  {
    var g, src := LaidGrid(v), LevelSource(v, l);
    var e := Vtab(v).level.At(l);
    var nd := DataBytes(v, l);
    LevelSizes(v, l);
    EntrySizes(Vtab(v).bytes, e.nblock, e.check);
    var k, r := o / 8, o % 8;
    PositionInverse(nd, e.nblock, e.check, k);
    var p := Interleave.Position(nd, e.nblock, e.check, k);
    OrderInverse(nd, e.nblock, e.check, p);
    var i := 8 * p + r;
    assert i / 8 == p && i % 8 == r;
    SourcePixel(nd, e.nblock, e.check, i);
    y, x := SweptCovers(g, FreeSteps(g, Side(v)), src, Side(v), i);
  }
}
