/**
 * NewPlan followed by Plan.Encode: what a cell of the finished code shows.
 * A plan NewPlan returns meets what Encode needs of it; a data or check cell
 * of the code then shows its codeword bit, inverted where the mask says, and
 * a pattern cell shows the pattern and the format bits of the mask in use.
 */
module Symbols {
  import opened BitWriter
  import opened Tables
  import opened Pixels
  import opened Codes
  import opened Layout
  import opened Plans
  import opened LevelPlan
  import opened Planner
  import opened Encoder

  /** A plan NewPlan returns is one Encode can use. */
  lemma PlanUsable(p: Plan, v: int, l: int)
    requires PlanOf(p, v, l) && Masks(p, v, l)
    ensures Usable(p)
  {
    var siz, stride := p.Code.Size, p.Code.Stride;
    Positive(siz, stride);
    forall y, x | 0 <= y < siz && 0 <= x < siz
      ensures (Role(p.Pixel[y, x]) == Data || Role(p.Pixel[y, x]) == Pixels.Check) ==>
                Offset(p.Pixel[y, x]) < 8 * Vtab(v).bytes
    {
      CellOffset(v, l, y, x);
    }
  }

  lemma Positive(a: int, b: int)
    requires 1 <= a && 1 <= b
    ensures 0 < a * b
  {
  }

  /** A data or check cell of the level's pixel map names a bit of the version's codewords. */
  lemma CellOffset(v: int, l: int, y: int, x: int)
    requires ValidVersion(v) && ValidLevel(l) && Fits(v, l)
    requires 0 <= y < Side(v) && 0 <= x < Side(v)
    ensures (Role(LevelPixel(v, l, y, x)) == Data || Role(LevelPixel(v, l, y, x)) == Pixels.Check) ==>
              Offset(LevelPixel(v, l, y, x)) < 8 * Vtab(v).bytes
  {
    LevelOffsets(v, l, y, x);
    DataWithin(v, l);
  }

  /** The data bytes of a level are part of the version's bytes. */
  lemma DataWithin(v: int, l: int)
    requires ValidVersion(v) && ValidLevel(l)
    ensures DataBytes(v, l) <= Vtab(v).bytes
  {
    LevelSizes(v, l);
    var e := Vtab(v).level.At(l);
    EntrySizes(Vtab(v).bytes, e.nblock, e.check);
  }

  /** The mask a code shows: the plan's own, or the one Encode chose when the plan holds all eight. */
  function MaskInUse(planMask: int, k: int): int
  {
    if planMask == -1 then k else planMask
  }

  /** The grid of the plan that Encode drew the code from is the plan of the mask in use. */
  lemma GridInUse(p: Plan, v: int, l: int, c: Code, cw: seq<Byte>, k: int, layer: seq<Byte>)
    requires PlanOf(p, v, l) && Masks(p, v, l) && Painted(c, p, cw, k, layer)
    ensures 0 <= MaskInUse(p.Mask, k) < 8
    ensures Planned(p.Code.Bitmap[..], k * (p.Code.Size * p.Code.Stride), v, l, MaskInUse(p.Mask, k))
  {
    if p.Mask != -1 {
      assert k == 0;
      assert k * (p.Code.Size * p.Code.Stride) == 0;
    }
  }

  /**
   * A data or check cell of the code shows bit Offset of the codewords,
   * inverted where the mask in use inverts it.
   */
  lemma DataCell(p: Plan, v: int, l: int, c: Code, cw: seq<Byte>, k: int, layer: seq<Byte>, y: int, x: int)
    requires PlanOf(p, v, l) && Masks(p, v, l) && |cw| == Vtab(v).bytes && Painted(c, p, cw, k, layer)
    requires 0 <= y < Side(v) && 0 <= x < Side(v)
    requires Role(LevelPixel(v, l, y, x)) == Data || Role(LevelPixel(v, l, y, x)) == Pixels.Check
    ensures Offset(LevelPixel(v, l, y, x)) < 8 * |cw|
    ensures 0 <= MaskInUse(p.Mask, k) < 8
    ensures Shows(c.Bitmap[..], 0, Side(v), StrideOf(Side(v)), y, x) <==>
              Invert(MaskInUse(p.Mask, k), y, x) != BitAt(cw, Offset(LevelPixel(v, l, y, x)))
  {
    CellOffset(v, l, y, x);
    GridInUse(p, v, l, c, cw, k, layer);
    DataShown(p.Code.Bitmap[..], k * (p.Code.Size * p.Code.Stride), v, l, MaskInUse(p.Mask, k), y, x);
    assert p.Pixel[y, x] == LevelPixel(v, l, y, x);
  }

  /**
   * A cell vplan claimed for a pattern shows the pattern and the format bits
   * of the mask in use: neither the mask nor the codewords touch it.
   */
  lemma PatternCell(p: Plan, v: int, l: int, c: Code, cw: seq<Byte>, k: int, layer: seq<Byte>, y: int, x: int)
    requires PlanOf(p, v, l) && Masks(p, v, l) && Painted(c, p, cw, k, layer)
    requires 0 <= y < Side(v) && 0 <= x < Side(v) && Role(FixedPixel(v, y, x)) != 0
    ensures 0 <= MaskInUse(p.Mask, k) < 8
    ensures Shows(c.Bitmap[..], 0, Side(v), StrideOf(Side(v)), y, x) <==>
              FixedDark(v, y, x) || FormatDark(Side(v), l, MaskInUse(p.Mask, k), y, x)
  {
    GridInUse(p, v, l, c, cw, k, layer);
    PatternShown(p.Code.Bitmap[..], k * (p.Code.Size * p.Code.Stride), v, l, MaskInUse(p.Mask, k), y, x);
    LayerRole(v, 6, y, x);
    assert p.Pixel[y, x] == LevelPixel(v, l, y, x) == FixedPixel(v, y, x);
  }
}
