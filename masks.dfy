/**
 * The format and mask step of NewPlan, over any pixel map and any grid of
 * fixed patterns: fplan and mplan on one grid, and the loop that gives each
 * of eight copies of the grid its own mask.
 */
module Masking {
  import opened BitWriter
  import opened Pixels
  import opened Codes
  import opened Plans
  import opened Grids

  /** The pixel map a as rows of pixels. */
  ghost function PixelGrid(a: array2<Pixel>): (g: seq<seq<Pixel>>)
    reads a
    ensures |g| == a.Length0 && forall y :: 0 <= y < a.Length0 ==> |g[y]| == a.Length1
  {
    seq(a.Length0, y requires 0 <= y < a.Length0 reads a => seq(a.Length1, x requires 0 <= x < a.Length1 reads a => a[y, x]))
  }

  /**
   * The dark cells of a grid that showed fixed, once the format bits of level
   * l and mask m are drawn and mask m has inverted the data, check and extra
   * pixels of pix.
   */
  ghost function MaskedGrid(fixed: seq<seq<bool>>, pix: seq<seq<Pixel>>, siz: int, l: int, m: int): (g: seq<seq<bool>>)
    requires 0 <= l < 4 && 0 <= m < 8 && |fixed| == siz && |pix| == siz
    requires forall y :: 0 <= y < siz ==> |fixed[y]| == siz && |pix[y]| == siz
    ensures |g| == siz && forall y :: 0 <= y < siz ==> |g[y]| == siz
  {
    seq(siz, y requires 0 <= y < siz => seq(siz, x requires 0 <= x < siz =>
      fixed[y][x] || FormatDark(siz, l, m, y, x) || MaskDark(pix[y][x], m, y, x)))
  }

  /** fplan and then mplan for level l and mask m on the grid at base, which showed fixed. */
  method MaskGrid(p: Plan, l: int, m: int, base: int, ghost fixed: seq<seq<bool>>)
    requires 0 <= l < 4 && 0 <= m < 8 && Canvas(p.Pixel, p.Code) && p.Code.Size >= 21
    requires Drawn(p.Code.Bitmap[..], base, p.Code.Size, p.Code.Stride, fixed)
    modifies p, p.Code.Bitmap
    ensures p.Mask == m
    ensures unchanged(p`Version, p`Level, p`DataBytes, p`CheckBytes, p`Blocks, p`Pixel, p`Code)
    ensures Drawn(p.Code.Bitmap[..], base, p.Code.Size, p.Code.Stride,
                  MaskedGrid(fixed, PixelGrid(p.Pixel), p.Code.Size, l, m))
    ensures forall k :: 0 <= k < p.Code.Bitmap.Length && (k < base || base + p.Code.Size * p.Code.Stride <= k)
                        ==> p.Code.Bitmap[k] == old(p.Code.Bitmap[k])
  {
    var b, siz, stride := p.Code.Bitmap, p.Code.Size, p.Code.Stride;
    ghost var b0 := b[..];
    FPlan(l, m, p, b, base);
    MPlan(m, p, b, base);
    ghost var want := MaskedGrid(fixed, PixelGrid(p.Pixel), siz, l, m);
    forall y, x
      ensures Shows(b[..], base, siz, stride, y, x) <==> 0 <= y < siz && 0 <= x < siz && want[y][x]
    {
      assert ShownAt(b, base, p.Code, y, x) == Shows(b[..], base, siz, stride, y, x);
      assert old(ShownAt(b, base, p.Code, y, x)) == Shows(b0, base, siz, stride, y, x);
    }
  }

  /** The grids the mask loop draws: grid k holds mask k. */
  ghost function MaskedGrids(fixed: seq<seq<bool>>, pix: seq<seq<Pixel>>, siz: int, l: int): (gs: seq<seq<seq<bool>>>)
    requires 0 <= l < 4 && |fixed| == siz && |pix| == siz
    requires forall y :: 0 <= y < siz ==> |fixed[y]| == siz && |pix[y]| == siz
    ensures |gs| == 8 && forall k :: 0 <= k < 8 ==> gs[k] == MaskedGrid(fixed, pix, siz, l, k)
  {
    seq(8, k requires 0 <= k < 8 => MaskedGrid(fixed, pix, siz, l, k))
  }

  /** The mask loop of NewPlan: of eight copies of first, grid k gets mask k. */
  method AllMasks(p: Plan, l: int, ghost fixed: seq<seq<bool>>, ghost first: seq<Byte>)
    requires 0 <= l < 4 && Canvas(p.Pixel, p.Code) && p.Code.Size >= 21
    requires |first| == p.Code.Size * p.Code.Stride && Drawn(first, 0, p.Code.Size, p.Code.Stride, fixed)
    requires p.Code.Bitmap[..] == Repeat(first, 8)
    modifies p, p.Code.Bitmap
    ensures unchanged(p`Version, p`Level, p`DataBytes, p`CheckBytes, p`Blocks, p`Pixel, p`Code)
    ensures forall k :: 0 <= k < 8 ==> Drawn(p.Code.Bitmap[..], k * |first|, p.Code.Size, p.Code.Stride,
                                             MaskedGrid(fixed, PixelGrid(p.Pixel), p.Code.Size, l, k))
  {
    var b := p.Code.Bitmap;
    ghost var wants := MaskedGrids(fixed, PixelGrid(p.Pixel), p.Code.Size, l);
    assert b[0 * |first|..] == b[..];
    for m := 0 to 8
      invariant Canvas(p.Pixel, p.Code) && p.Code.Bitmap == b && b.Length == 8 * |first|
      invariant unchanged(p`Version, p`Level, p`DataBytes, p`CheckBytes, p`Blocks, p`Pixel, p`Code)
      invariant Masked(b[..], first, m, p.Code.Size, p.Code.Stride, wants)
    {
      NextMask(p, l, m, fixed, first, wants);
    }
  }

  /** One round of the mask loop: grid m, still a copy of first, gets mask m. */
  method NextMask(p: Plan, l: int, m: int, ghost fixed: seq<seq<bool>>, ghost first: seq<Byte>,
                  ghost wants: seq<seq<seq<bool>>>)
    requires 0 <= l < 4 && 0 <= m < 8 && Canvas(p.Pixel, p.Code) && p.Code.Size >= 21
    requires |first| == p.Code.Size * p.Code.Stride && Drawn(first, 0, p.Code.Size, p.Code.Stride, fixed)
    requires wants == MaskedGrids(fixed, PixelGrid(p.Pixel), p.Code.Size, l)
    requires p.Code.Bitmap.Length == 8 * |first|
    requires Masked(p.Code.Bitmap[..], first, m, p.Code.Size, p.Code.Stride, wants)
    modifies p, p.Code.Bitmap
    ensures unchanged(p`Version, p`Level, p`DataBytes, p`CheckBytes, p`Blocks, p`Pixel, p`Code)
    ensures Masked(p.Code.Bitmap[..], first, m + 1, p.Code.Size, p.Code.Stride, wants)
  {
    var b, sz := p.Code.Bitmap, p.Code.Size * p.Code.Stride;
    ghost var before := b[..];
    DrawnCopy(before, first, m, p.Code.Size, p.Code.Stride, fixed);
    MaskGrid(p, l, m, m * sz, fixed);
    DrawnNext(before, b[..], first, m, p.Code.Size, p.Code.Stride, wants);
  }

  /**
   * The last step of NewPlan: with one grid, fplan and mplan draw mask m
   * into it; with eight (mask -1), the first grid is copied into the others
   * and grid k gets mask k.
   */
  method DrawMasks(p: Plan, l: int, m: int, ghost fixed: seq<seq<bool>>)
    requires 0 <= l < 4 && -1 <= m < 8 && Canvas(p.Pixel, p.Code) && p.Code.Size >= 21
    requires Drawn(p.Code.Bitmap[..], 0, p.Code.Size, p.Code.Stride, fixed)
    requires p.Code.Bitmap.Length == (if m == -1 then 8 else 1) * (p.Code.Size * p.Code.Stride)
    modifies p, p.Code.Bitmap
    ensures p.Mask == m
    ensures unchanged(p`Version, p`Level, p`DataBytes, p`CheckBytes, p`Blocks, p`Pixel, p`Code)
    ensures m == -1 ==> forall k :: 0 <= k < 8 ==>
              Drawn(p.Code.Bitmap[..], k * (p.Code.Size * p.Code.Stride), p.Code.Size, p.Code.Stride,
                    MaskedGrid(fixed, PixelGrid(p.Pixel), p.Code.Size, l, k))
    ensures m != -1 ==> Drawn(p.Code.Bitmap[..], 0, p.Code.Size, p.Code.Stride,
                              MaskedGrid(fixed, PixelGrid(p.Pixel), p.Code.Size, l, m))
  {
    var sz := p.Code.Size * p.Code.Stride;
    if m != -1 {
      MaskGrid(p, l, m, 0, fixed);
    } else {
      ghost var laid := p.Code.Bitmap[..];
      Replicate(p.Code.Bitmap, sz);
      DrawnFirst(laid, p.Code.Size, p.Code.Stride, fixed);
      AllMasks(p, l, fixed, laid[..sz]);
      p.Mask := -1;
    }
  }

  /** The doubling copy of NewPlan: the first sz bytes, repeated over all eight grids. */
  method Replicate(b: array<Byte>, sz: int)
    requires 0 < sz && b.Length == 8 * sz
    modifies b
    ensures b[..] == Repeat(old(b[..sz]), 8)
  {
    ghost var first := b[..sz];
    var n := sz;
    ghost var c := 1;
    while n < b.Length
      invariant (c == 1 && n == sz) || (c == 2 && n == 2 * sz) || (c == 4 && n == 4 * sz) || (c == 8 && n == 8 * sz)
      invariant b[..n] == Repeat(first, c)
      decreases b.Length - n
    {
      var cnt := Min(b.Length - n, n);
      assert cnt == n;
      forall t | 0 <= t < cnt {
        b[n + t] := b[t];
      }
      Doubled(b[..], first, c, n);
      n, c := n + cnt, 2 * c;
    }
    assert b[..] == b[..n];
  }

  /** A prefix of c copies followed by a copy of that prefix is 2 * c copies. */
  lemma Doubled(s: seq<Byte>, first: seq<Byte>, c: nat, n: nat)
    requires 2 * n <= |s| && s[..n] == Repeat(first, c)
    requires forall t :: 0 <= t < n ==> s[n + t] == s[t]
    ensures s[..2 * n] == Repeat(first, 2 * c)
  {
    assert s[..2 * n] == s[..n] + s[..n];
    RepeatAdd(first, c, c);
  }
}
