/**
 * The mask search of Plan.Encode for a plan that holds all eight masks: each
 * masked grid is XORed with the codeword layer and the first candidate of
 * least penalty is kept.
 */
module MaskChoice {
  import opened Arith
  import opened BitWriter
  import opened Codes

  lemma Slot(k: int, n: int)
    requires 0 <= k < 8 && 0 < n
    ensures 0 <= k * n && k * n + n <= 8 * n && (k + 1) * n == k * n + n
  {
  }

  /** Grid k of the eight masked grids in bm, XORed with the codeword layer. */
  function Candidate(bm: seq<Byte>, layer: seq<Byte>, k: int): (r: seq<Byte>)
    requires |bm| == 8 * |layer| && 0 <= k < 8
    ensures |r| == |layer|
  {
    if |layer| == 0 then [] else
    Slot(k, |layer|);
    XorBytes(bm[k * |layer|..k * |layer| + |layer|], layer)
  }

  /** A candidate shows the pixels of masked grid k XORed with those of the layer. */
  lemma CandidateShows(bm: seq<Byte>, layer: seq<Byte>, k: int, siz: int, stride: int)
    requires |bm| == 8 * |layer| && 0 <= k < 8 && 0 <= siz <= 8 * stride && siz * stride == |layer|
    ensures forall y, x :: Shows(Candidate(bm, layer, k), 0, siz, stride, y, x)
                           <==> Shows(bm, k * |layer|, siz, stride, y, x) != Shows(layer, 0, siz, stride, y, x)
  {
    var n := |layer|;
    if n == 0 {
      forall y, x
        ensures !Shows(bm, k * n, siz, stride, y, x) && !Shows(layer, 0, siz, stride, y, x)
      {
        if 0 <= y < siz && 0 <= x < siz {
          CellInRange(siz, stride, y, x);
        }
      }
    } else {
      Slot(k, n);
      var g := bm[k * n..k * n + n];
      XorShows(g, layer, siz, stride);
      ShowsSame(g, 0, bm, k * n, siz, stride);
    }
  }

  /** The penalties of the eight candidates. */
  ghost function Penalties(bm: seq<Byte>, layer: seq<Byte>, siz: int, stride: int): (ps: seq<int>)
    requires |bm| == 8 * |layer| && 1 <= siz <= 8 * stride && siz * stride <= |layer|
    ensures |ps| == 8
  {
    seq(8, k requires 0 <= k < 8 => PenaltyOf(Candidate(bm, layer, k), siz, stride))
  }

  /** The index of the first least penalty. */
  function FirstMin(ps: seq<int>): (r: nat)
    requires |ps| >= 1
    ensures r < |ps|
    ensures forall j :: 0 <= j < |ps| ==> ps[r] <= ps[j]
    ensures forall j :: 0 <= j < r ==> ps[r] < ps[j]
  {
    if |ps| == 1 then 0
    else
      var m := FirstMin(ps[..|ps| - 1]);
      if ps[|ps| - 1] < ps[m] then |ps| - 1 else m
  }

  /**
   * After m of the penalties ps, the best so far is k with penalty pen: the
   * first least of ps[..m], or none yet and 2 << 30.
   */
  ghost predicate Best(ps: seq<int>, m: int, k: int, pen: int)
  {
    && 0 <= m <= |ps|
    && (m == 0 ==> pen == 2 * 0x4000_0000)
    && (m > 0 ==> 0 <= k < m && k == FirstMin(ps[..m]) && pen == ps[k])
  }

  /** Keeping penalty m only when it is strictly below the best so far keeps the first least. */
  lemma BestNext(ps: seq<int>, m: int, k: int, pen: int)
    requires Best(ps, m, k, pen) && m < |ps| && ps[m] < 2 * 0x4000_0000
    ensures ps[m] < pen ==> Best(ps, m + 1, m, ps[m])
    ensures !(ps[m] < pen) ==> Best(ps, m + 1, k, pen)
  {
    assert ps[..m + 1][..m] == ps[..m];
  }

  /**
   * The mask loop of Encode: each masked grid of bm is copied and XORed with
   * the layer, and a candidate replaces the best so far only when its penalty
   * is strictly smaller. The first penalty always wins against 2 << 30.
   */
  method ChooseMask(bm: array<Byte>, layer: array<Byte>, siz: int, stride: int) returns (c: Code, ghost k: int)
    requires bm.Length == 8 * layer.Length && siz * stride == layer.Length && 0 < layer.Length
    requires 1 <= siz <= 177 && siz % 2 == 1 && siz <= 8 * stride
    ensures fresh(c) && fresh(c.Bitmap) && c.Size == siz && c.Stride == stride
    ensures c.Bitmap.Length == layer.Length && c.Valid()
    ensures 0 <= k < 8 && k == FirstMin(Penalties(bm[..], layer[..], siz, stride))
    ensures c.Bitmap[..] == Candidate(bm[..], layer[..], k)
  {
    var n := layer.Length;
    var cur := new Byte[n](_ => 0);
    var best := new Byte[n](_ => 0);
    c := new Code(cur, siz, stride);
    var pen := 2 * 0x4000_0000;
    ghost var ps := Penalties(bm[..], layer[..], siz, stride);
    k := 0;
    for m := 0 to 8
      invariant fresh(best) && fresh(c.Bitmap) && c.Bitmap != best
      invariant c.Bitmap.Length == n && best.Length == n && c.Size == siz && c.Stride == stride
      invariant Best(ps, m, k, pen)
      invariant m > 0 ==> best[..] == Candidate(bm[..], layer[..], k)
    {
      best, pen, k := Round(c, best, bm, layer, m, pen, k, ps);
    }
    c.Bitmap := best;
    assert ps[..8] == ps;
  }

  /**
   * One round of the mask loop: candidate m is built in the code's bitmap
   * and, when its penalty is below the best so far, swapped with the best.
   */
  method Round(c: Code, best: array<Byte>, bm: array<Byte>, layer: array<Byte>, m: int,
               pen: int, ghost k: int, ghost ps: seq<int>)
    returns (best2: array<Byte>, pen2: int, ghost k2: int)
    requires c.Bitmap.Length == layer.Length && best.Length == layer.Length
    requires bm.Length == 8 * layer.Length && 0 < layer.Length
    requires c.Bitmap != best && c.Bitmap != layer && c.Bitmap != bm
    requires 0 <= m < 8
    requires 1 <= c.Size <= 177 && c.Size % 2 == 1 && c.Size <= 8 * c.Stride && c.Size * c.Stride == layer.Length
    requires ps == Penalties(bm[..], layer[..], c.Size, c.Stride)
    requires Best(ps, m, k, pen) && (m > 0 ==> best[..] == Candidate(bm[..], layer[..], k))
    modifies c, c.Bitmap
    ensures c.Size == old(c.Size) && c.Stride == old(c.Stride)
    ensures (best2 == old(c.Bitmap) && c.Bitmap == best) || (best2 == best && c.Bitmap == old(c.Bitmap))
    ensures Best(ps, m + 1, k2, pen2) && best2[..] == Candidate(bm[..], layer[..], k2)
  {
    var q := Score(c, bm, layer, m);
    BestNext(ps, m, k, pen);
    best2, pen2, k2 := best, pen, k;
    if q < pen {
      best2, pen2, c.Bitmap := c.Bitmap, q, best;
      k2 := m;
    }
  }

  /** Candidate m in the code's bitmap, and its penalty, which is below 2 << 30. */
  method Score(c: Code, bm: array<Byte>, layer: array<Byte>, m: int) returns (q: int)
    requires c.Bitmap.Length == layer.Length && bm.Length == 8 * layer.Length && 0 < layer.Length
    requires 0 <= m < 8 && c.Bitmap != layer && c.Bitmap != bm
    requires 1 <= c.Size <= 177 && c.Size % 2 == 1 && c.Size <= 8 * c.Stride && c.Size * c.Stride == layer.Length
    modifies c.Bitmap
    ensures c.Bitmap[..] == Candidate(bm[..], layer[..], m)
    ensures q == Penalties(bm[..], layer[..], c.Size, c.Stride)[m] && q < 2 * 0x4000_0000
  {
    Fill(c.Bitmap, bm, layer, m);
    q := c.Penalty();
    PenaltyBound(c.Bitmap[..], c.Size, c.Stride);
  }

  /** The copy of grid m of bm into a, followed by the XOR with the layer. */
  method Fill(a: array<Byte>, bm: array<Byte>, layer: array<Byte>, m: int)
    requires a.Length == layer.Length && bm.Length == 8 * layer.Length && 0 < layer.Length
    requires 0 <= m < 8 && a != layer && a != bm
    modifies a
    ensures a[..] == Candidate(bm[..], layer[..], m)
  {
    var n := a.Length;
    var off := m * n;
    Slot(m, n);
    forall i | 0 <= i < n {
      a[i] := bm[off + i];
    }
    assert a[..] == bm[..][off..off + n];
    XorInto(a, layer);
  }

  /** `for i, v := range d { a[i] ^= v }`. */
  method XorInto(a: array<Byte>, d: array<Byte>)
    requires a.Length == d.Length && a != d
    modifies a
    ensures a[..] == XorBytes(old(a[..]), d[..])
  {
    for i := 0 to a.Length
      invariant forall j :: 0 <= j < i ==> a[j] == XorByte(old(a[j]), d[j])
      invariant forall j :: i <= j < a.Length ==> a[j] == old(a[j])
    {
      a[i] := XorByte(a[i], d[i]);
    }
  }
}
