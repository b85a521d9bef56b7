/**
 * NewPlan: a plan for a version, level and mask. vplan lays out the fixed
 * patterns, lplan the data, and then fplan and mplan draw the format bits and
 * the mask into the bitmap: once for a given mask, or into eight copies of
 * the grid, one per mask, when the mask is left to Encode (-1).
 */
module Planner {
  import opened Arith
  import opened BitWriter
  import opened Tables
  import opened Pixels
  import opened Codes
  import opened Layout
  import opened Plans
  import opened LevelPlan
  import opened Grids
  import opened Masking

  /** Why NewPlan gives no plan. SweepOverrun stands for the index panic of lplan's sweep. */
  datatype Outcome = Ok | InvalidVersion | InvalidLevel | InvalidMask | SweepOverrun

  /** The cells vplan darkens for version v. */
  ghost function FixedGrid(v: int): (g: seq<seq<bool>>)
    requires ValidVersion(v)
    ensures |g| == Side(v) && forall y :: 0 <= y < Side(v) ==> |g[y]| == Side(v)
  {
    seq(Side(v), y => seq(Side(v), x => FixedDark(v, y, x)))
  }

  /** The pixel map lplan leaves for version v and level l. */
  ghost function LevelGrid(v: int, l: int): (g: seq<seq<Pixel>>)
    requires ValidVersion(v) && ValidLevel(l)
    ensures |g| == Side(v) && forall y :: 0 <= y < Side(v) ==> |g[y]| == Side(v)
  {
    var siz := Side(v);
    seq(siz, y requires 0 <= y < siz => seq(siz, x requires 0 <= x < siz => LevelPixel(v, l, y, x)))
  }

  /**
   * The cells of the plan of version v, level l and mask m that are dark:
   * the fixed patterns, the format bits of l and m, and every data, check
   * and extra cell the mask inverts.
   */
  ghost function PlanGrid(v: int, l: int, m: int): (g: seq<seq<bool>>)
    requires ValidVersion(v) && ValidLevel(l) && 0 <= m < 8
  {
    MaskedGrid(FixedGrid(v), LevelGrid(v, l), Side(v), l, m)
  }

  /** The grid at bm[base:] shows what vplan draws for version v and nothing else. */
  ghost predicate Bare(bm: seq<Byte>, base: int, v: int)
    requires ValidVersion(v)
  {
    Drawn(bm, base, Side(v), StrideOf(Side(v)), FixedGrid(v))
  }

  /** The grid at bm[base:] is the plan of version v, level l and mask m. */
  ghost predicate Planned(bm: seq<Byte>, base: int, v: int, l: int, m: int)
    requires ValidVersion(v) && ValidLevel(l) && 0 <= m < 8
  {
    Drawn(bm, base, Side(v), StrideOf(Side(v)), PlanGrid(v, l, m))
  }

  /** p holds version v and level l, with the pixel map lplan leaves. */
  ghost predicate PlanOf(p: Plan, v: int, l: int)
    reads p, p.Pixel, p.Code
  {
    && ValidVersion(v) && ValidLevel(l) && Fits(v, l)
    && p.Version == v && p.Level == l && p.DataBytes == DataBytes(v, l)
    && p.CheckBytes == Vtab(v).level.At(l).nblock * Vtab(v).level.At(l).check
    && p.Blocks == Vtab(v).level.At(l).nblock
    && p.Code.Valid() && p.Code.Size == Side(v) && p.Code.Stride == StrideOf(Side(v))
    && p.Pixel.Length0 == Side(v) && p.Pixel.Length1 == Side(v)
    && forall y, x :: 0 <= y < Side(v) && 0 <= x < Side(v) ==> p.Pixel[y, x] == LevelPixel(v, l, y, x)
  }

  /** The bitmap of p holds the plan of p's mask, or one grid per mask when the mask is -1. */
  ghost predicate Masks(p: Plan, v: int, l: int)
    requires ValidVersion(v) && ValidLevel(l)
    reads p, p.Code, p.Code.Bitmap
  {
    var sz := p.Code.Size * p.Code.Stride;
    var bm := p.Code.Bitmap[..];
    if p.Mask == -1 then
      |bm| == 8 * sz && forall k :: 0 <= k < 8 ==> Planned(bm, k * sz, v, l, k)
    else
      0 <= p.Mask < 8 && |bm| == sz && Planned(bm, 0, v, l, p.Mask)
  }

  /**
   * NewPlan: a version outside 1..40, a level outside L..H and a mask
   * outside -1..7 are rejected in that order; otherwise the plan holds the
   * version's patterns, the level's data layout and the mask's grid, or a
   * grid for every mask when the mask is -1.
   */
  method NewPlan(version: int, level: int, mask: int) returns (p: Plan?, out: Outcome)
    ensures out == InvalidVersion <==> !ValidVersion(version)
    ensures out == InvalidLevel <==> ValidVersion(version) && !ValidLevel(level)
    ensures out == InvalidMask <==> ValidVersion(version) && ValidLevel(level) && !(-1 <= mask < 8)
    ensures out == SweepOverrun <==> ValidVersion(version) && ValidLevel(level) && -1 <= mask < 8 && !Fits(version, level)
    ensures p != null <==> out == Ok
    ensures p != null ==> fresh(p) && PlanOf(p, version, level) && p.Mask == mask
    ensures p != null ==> Masks(p, version, level)
  {
    if version < MinVersion || version > MaxVersion {
      return null, InvalidVersion;
    }
    if level < L || level > H {
      return null, InvalidLevel;
    }
    var n := 1;
    if mask == -1 {
      n := 8;
    } else if mask < 0 || 7 < mask {
      return null, InvalidMask;
    }
    var q, ok := LaidOut(version, level, n);
    if !ok {
      return null, SweepOverrun;
    }
    DrawMasks(q, level, mask, FixedGrid(version));
    MasksOf(q, version, level);
    p, out := q, Ok;
  }

  /** vplan and then lplan: the plan of version v and level l, with room for n grids and no mask drawn yet. */
  method LaidOut(v: int, l: int, n: int) returns (p: Plan, ok: bool)
    requires ValidVersion(v) && ValidLevel(l) && 1 <= n
    ensures fresh(p) && fresh(p.Code) && fresh(p.Code.Bitmap)
    ensures ok <==> Fits(v, l)
    ensures ok ==> PlanOf(p, v, l)
    ensures ok ==> p.Mask == 0
    ensures ok ==> Bare(p.Code.Bitmap[..], 0, v)
    ensures ok ==> p.Code.Bitmap.Length == n * (p.Code.Size * p.Code.Stride)
  {
    var q := VPlan(v, n);
    p := q;
    Reorder(p.Code.Stride, p.Code.Size, n);
    assert Bare(p.Code.Bitmap[..], 0, v);
    ghost var bm := p.Code.Bitmap[..];
    ok := LPlan(v, l, p);
    assert p.Code.Bitmap[..] == bm;
  }

  /**
   * In the plan of mask m, a data or check cell is dark exactly where the
   * mask inverts it: vplan left it light and no format bit covers it.
   */
  lemma DataShown(bm: seq<Byte>, base: int, v: int, l: int, m: int, y: int, x: int)
    requires ValidVersion(v) && ValidLevel(l) && Fits(v, l) && 0 <= m < 8
    requires Planned(bm, base, v, l, m) && 0 <= y < Side(v) && 0 <= x < Side(v)
    requires Role(LevelPixel(v, l, y, x)) == Data || Role(LevelPixel(v, l, y, x)) == Check
    ensures Shows(bm, base, Side(v), StrideOf(Side(v)), y, x) <==> Invert(m, y, x)
  {
    var _ := FromStream(v, l, y, x);
    LayerFree(v, 6, y, x);
    FreeIsLight(v, y, x);
  }

  /**
   * In the plan of mask m, a cell vplan claimed for a pattern shows the
   * pattern and the format bits only: the mask leaves it alone.
   */
  lemma PatternShown(bm: seq<Byte>, base: int, v: int, l: int, m: int, y: int, x: int)
    requires ValidVersion(v) && ValidLevel(l) && Fits(v, l) && 0 <= m < 8
    requires Planned(bm, base, v, l, m) && 0 <= y < Side(v) && 0 <= x < Side(v)
    requires Role(FixedPixel(v, y, x)) != 0
    ensures Shows(bm, base, Side(v), StrideOf(Side(v)), y, x) <==>
              FixedDark(v, y, x) || FormatDark(Side(v), l, m, y, x)
  {
    LayerRole(v, 6, y, x);
    assert LevelPixel(v, l, y, x) == FixedPixel(v, y, x);
  }

  /** What DrawMasks leaves in the bitmap of a plan that holds version v and level l is Masks. */
  lemma MasksOf(p: Plan, v: int, l: int)
    requires PlanOf(p, v, l) && -1 <= p.Mask < 8
    requires p.Code.Bitmap.Length == (if p.Mask == -1 then 8 else 1) * (p.Code.Size * p.Code.Stride)
    requires p.Mask == -1 ==> forall k :: 0 <= k < 8 ==>
               Drawn(p.Code.Bitmap[..], k * (p.Code.Size * p.Code.Stride), p.Code.Size, p.Code.Stride,
                     MaskedGrid(FixedGrid(v), PixelGrid(p.Pixel), p.Code.Size, l, k))
    requires p.Mask != -1 ==> Drawn(p.Code.Bitmap[..], 0, p.Code.Size, p.Code.Stride,
                                    MaskedGrid(FixedGrid(v), PixelGrid(p.Pixel), p.Code.Size, l, p.Mask))
    ensures Masks(p, v, l)
  {
    PixelsOf(p, v, l);
  }

  lemma Reorder(a: int, b: int, c: int)
    ensures a * b * c == c * (b * a)
  {
  }

  /** The pixel map of a plan that holds version v and level l, as rows. */
  lemma PixelsOf(p: Plan, v: int, l: int)
    requires PlanOf(p, v, l)
    ensures PixelGrid(p.Pixel) == LevelGrid(v, l)
  {
    var pg, lg := PixelGrid(p.Pixel), LevelGrid(v, l);
    forall y | 0 <= y < Side(v)
      ensures pg[y] == lg[y]
    {
      forall x | 0 <= x < Side(v)
        ensures pg[y][x] == lg[y][x]
      {
        assert pg[y][x] == p.Pixel[y, x];
        assert lg[y][x] == LevelPixel(v, l, y, x);
      }
    }
  }
}
