/**
 * Bitmaps that hold several grids one after the other, as the bitmap of a
 * plan with eight masks does: what a grid shows, copies of a grid, and
 * grids that keep what they show while others change.
 */
module Grids {
  import opened BitWriter
  import opened Codes
  import opened Interleave

  /** The grid at bm[base:] shows exactly the cells want marks. */
  ghost predicate Drawn(bm: seq<Byte>, base: int, siz: int, stride: int, want: seq<seq<bool>>)
  {
    && Region(bm, base, siz, stride)
    && |want| == siz && (forall y :: 0 <= y < siz ==> |want[y]| == siz)
    && forall y, x :: Shows(bm, base, siz, stride, y, x) <==> 0 <= y < siz && 0 <= x < siz && want[y][x]
  }

  /** The smaller of a and b. */
  function Min(a: int, b: int): (r: int)
    ensures r <= a && r <= b && (r == a || r == b)
  {
    if a <= b then a else b
  }

  /** c copies of the bytes s, one after the other. */
  function Repeat(s: seq<Byte>, c: nat): (r: seq<Byte>)
    ensures |r| == c * |s|
  {
    if c == 0 then [] else s + Repeat(s, c - 1)
  }

  /** a + b copies are a copies followed by b copies. */
  lemma {:induction false} RepeatAdd(s: seq<Byte>, a: nat, b: nat)
    ensures Repeat(s, a + b) == Repeat(s, a) + Repeat(s, b)
  {
    if a > 0 {
      RepeatAdd(s, a - 1, b);
      assert a + b - 1 == (a - 1) + b;
      calc {
        Repeat(s, a + b);
        s + Repeat(s, (a - 1) + b);
        s + (Repeat(s, a - 1) + Repeat(s, b));
        (s + Repeat(s, a - 1)) + Repeat(s, b);
      }
    } else {
      assert Repeat(s, a) == [];
    }
  }

  /** A grid whose bytes are kept shows what it showed. */
  lemma DrawnKept(bm: seq<Byte>, bm': seq<Byte>, base: int, siz: int, stride: int, want: seq<seq<bool>>)
    requires Drawn(bm, base, siz, stride, want) && |bm'| == |bm|
    requires forall t :: base <= t < base + siz * stride ==> bm'[t] == bm[t]
    ensures Drawn(bm', base, siz, stride, want)
  {
    ShowsSame(bm', base, bm, base, siz, stride);
  }

  /** The first grid of a bitmap, cut out on its own, shows what it showed. */
  lemma DrawnFirst(bm: seq<Byte>, siz: int, stride: int, want: seq<seq<bool>>)
    requires Drawn(bm, 0, siz, stride, want)
    ensures Drawn(bm[..siz * stride], 0, siz, stride, want)
  {
    ShowsSame(bm[..siz * stride], 0, bm, 0, siz, stride);
  }

  /** Where the copies of a grid start, at m * sz, the grid shows what the first one does. */
  lemma DrawnCopy(bm: seq<Byte>, first: seq<Byte>, m: int, siz: int, stride: int, want: seq<seq<bool>>)
    requires Drawn(first, 0, siz, stride, want) && |first| == siz * stride
    requires 0 <= m < 8 && 0 <= m * |first| <= |bm| && bm[m * |first|..] == Repeat(first, 8 - m)
    ensures Drawn(bm, m * |first|, siz, stride, want)
  {
    var base := m * |first|;
    forall k | base <= k < base + siz * stride
      ensures bm[k] == first[k - base + 0]
    {
      assert bm[k] == bm[base..][k - base];
    }
    ShowsSame(bm, base, first, 0, siz, stride);
  }

  /** Grids 0 to m - 1 of bm hold wants[0] to wants[m - 1]; the rest are still copies of first. */
  ghost predicate Masked(bm: seq<Byte>, first: seq<Byte>, m: int, siz: int, stride: int, wants: seq<seq<seq<bool>>>)
  {
    && |wants| == 8 && 0 <= m <= 8 && 0 <= m * |first| <= |bm|
    && (forall k :: 0 <= k < m ==> Drawn(bm, k * |first|, siz, stride, wants[k]))
    && bm[m * |first|..] == Repeat(first, 8 - m)
  }

  /**
   * One pass of a loop that redraws the copies in turn: grids below m keep
   * what they show, grid m shows wants[m], and the grids after it are still
   * copies of the first.
   */
  lemma DrawnNext(before: seq<Byte>, after: seq<Byte>, first: seq<Byte>, m: int, siz: int, stride: int,
                  wants: seq<seq<seq<bool>>>)
    requires |first| == siz * stride && |wants| == 8
    requires 0 <= m < 8 && |before| == |after| && 0 <= m * |first| <= |before|
    requires forall k :: 0 <= k < m ==> Drawn(before, k * |first|, siz, stride, wants[k])
    requires before[m * |first|..] == Repeat(first, 8 - m)
    requires Drawn(after, m * |first|, siz, stride, wants[m])
    requires forall t :: 0 <= t < |after| && (t < m * |first| || m * |first| + |first| <= t) ==> after[t] == before[t]
    ensures forall k :: 0 <= k < m + 1 ==> Drawn(after, k * |first|, siz, stride, wants[k])
    ensures 0 <= (m + 1) * |first| <= |after| && after[(m + 1) * |first|..] == Repeat(first, 8 - (m + 1))
  {
    KeptBelow(before, after, first, m, siz, stride, wants);
    TailNext(before, after, first, m);
  }

  /** The grids below m lie before m * |first|, where after agrees with before. */
  lemma KeptBelow(before: seq<Byte>, after: seq<Byte>, first: seq<Byte>, m: int, siz: int, stride: int,
                  wants: seq<seq<seq<bool>>>)
    requires |first| == siz * stride && |wants| == 8
    requires 0 <= m < 8 && |before| == |after|
    requires forall k :: 0 <= k < m ==> Drawn(before, k * |first|, siz, stride, wants[k])
    requires forall t :: 0 <= t < |after| && t < m * |first| ==> after[t] == before[t]
    ensures forall k :: 0 <= k < m ==> Drawn(after, k * |first|, siz, stride, wants[k])
  {
    var sz := |first|;
    forall k | 0 <= k < m
      ensures Drawn(after, k * sz, siz, stride, wants[k])
    {
      MulLe(k + 1, m, sz);
      DrawnKept(before, after, k * sz, siz, stride, wants[k]);
    }
  }

  /** The copies after grid m are untouched, so one copy fewer follows grid m + 1. */
  lemma TailNext(before: seq<Byte>, after: seq<Byte>, first: seq<Byte>, m: int)
    requires 0 <= m < 8 && |before| == |after|
    requires 0 <= m * |first| <= |before| && before[m * |first|..] == Repeat(first, 8 - m)
    requires forall t :: 0 <= t < |after| && m * |first| + |first| <= t ==> after[t] == before[t]
    ensures 0 <= (m + 1) * |first| <= |after| && after[(m + 1) * |first|..] == Repeat(first, 8 - (m + 1))
  {
    var sz, b := |first|, m * |first|;
    assert (m + 1) * sz == b + sz;
    assert Repeat(first, 8 - m) == first + Repeat(first, 7 - m);
    assert before[b + sz..] == before[b..][sz..];
    assert after[b + sz..] == before[b + sz..];
  }
}
