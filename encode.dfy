/**
 * Plan.Encode: the texts are written to a bit buffer, padded, and followed by
 * their check bytes; the bits of those codewords are then laid on the data
 * and check cells of the plan. With one mask the plan's grid already holds
 * the mask and the codewords are XORed into it; with eight, each masked grid
 * is XORed with the codeword layer in turn and the first one of least
 * penalty is kept.
 */
module Encoder {
  import opened Arith
  import opened BitWriter
  import opened Tables
  import opened Pixels
  import opened Codes
  import opened Layout
  import opened Plans
  import opened Texts
  import opened MaskChoice

  /** Why Encode gives no code: the index of the text that failed its check, or too many bits. */
  datatype Failure = Ok | BadText(index: nat) | TooLong(bits: nat, room: nat)

  // ------------------------------------------------------------ codewords

  /**
   * cw holds nd data bytes whose bits are the segments followed by the
   * padding, and after them the check bytes of each of nblock blocks.
   */
  ghost predicate Assembled(cw: seq<Byte>, segs: seq<bool>, nd: int, nblock: int, check: nat, ecc: (seq<Byte>, nat, nat) -> Byte)
    requires 0 <= nd <= |cw| && 1 <= nblock
  {
    && BitsOf(cw[..nd], 8 * nd) == segs + PadTo(|segs|, 8 * nd)
    && cw[nd..] == CheckBlocks(ecc, cw[..nd], nblock, check, nblock)
  }

  /** cw is the codeword sequence of the texts ts in version v at level l. */
  ghost predicate Codewords(cw: seq<Byte>, ts: seq<Encoding>, v: int, l: int, ecc: (seq<Byte>, nat, nat) -> Byte)
    requires ValidVersion(v) && ValidLevel(l)
  {
    var nd, x := DataBytes(v, l), Vtab(v).level.At(l);
    && |cw| == Vtab(v).bytes && 0 <= nd <= |cw| && 1 <= x.nblock
    && Assembled(cw, Streams(ts, v), nd, x.nblock, x.check, ecc)
  }

  /** Byte strings with the same bits are the same. */
  lemma {:induction false} BytesFromBits(a: seq<Byte>, b: seq<Byte>)
    requires |a| == |b| && BitsOf(a, 8 * |a|) == BitsOf(b, 8 * |b|)
    ensures a == b
  {
    forall j | 0 <= j < |a|
      ensures a[j] == b[j]
    {
      forall t | 0 <= t < 8
        ensures Bit(a[j], t) == Bit(b[j], t)
      {
        var i := 8 * j + (7 - t);
        assert i / 8 == j && i % 8 == 7 - t;
        assert BitsOf(a, 8 * |a|)[i] == BitsOf(b, 8 * |b|)[i];
      }
      Pow2Byte();
      BitsDetermine(a[j], b[j], 8);
    }
  }

  /** The segments determine the codewords. */
  lemma AssembledUnique(cw: seq<Byte>, cw2: seq<Byte>, segs: seq<bool>, nd: int, nblock: int, check: nat, ecc: (seq<Byte>, nat, nat) -> Byte)
    requires 0 <= nd <= |cw| && nd <= |cw2| && 1 <= nblock
    requires Assembled(cw, segs, nd, nblock, check, ecc) && Assembled(cw2, segs, nd, nblock, check, ecc)
    ensures cw == cw2
  {
    BytesFromBits(cw[..nd], cw2[..nd]);
    assert cw == cw[..nd] + cw[nd..];
    assert cw2 == cw2[..nd] + cw2[nd..];
  }

  /** The texts determine their codewords. */
  lemma CodewordsUnique(cw: seq<Byte>, cw2: seq<Byte>, ts: seq<Encoding>, v: int, l: int, ecc: (seq<Byte>, nat, nat) -> Byte)
    requires ValidVersion(v) && ValidLevel(l)
    requires Codewords(cw, ts, v, l, ecc) && Codewords(cw2, ts, v, l, ecc)
    ensures cw == cw2
  {
    var x := Vtab(v).level.At(l);
    AssembledUnique(cw, cw2, Streams(ts, v), DataBytes(v, l), x.nblock, x.check, ecc);
  }

  // ------------------------------------------------------------ the data layer

  /** The cell in row y, column x is a data or check cell whose codeword bit is 1. */
  ghost predicate DataDark(pixel: array2<Pixel>, cw: seq<Byte>, y: int, x: int)
    reads pixel
  {
    && 0 <= y < pixel.Length0 && 0 <= x < pixel.Length1
    && (Role(pixel[y, x]) == Data || Role(pixel[y, x]) == Pixels.Check)
    && Offset(pixel[y, x]) < 8 * |cw|
    && BitAt(cw, Offset(pixel[y, x]))
  }

  /** Every data and check cell names a bit of cw. */
  ghost predicate Covered(pixel: array2<Pixel>, cw: seq<Byte>)
    reads pixel
  {
    forall y, x ::
      (0 <= y < pixel.Length0 && 0 <= x < pixel.Length1 &&
       (Role(pixel[y, x]) == Data || Role(pixel[y, x]) == Pixels.Check)) ==> Offset(pixel[y, x]) < 8 * |cw|
  }

  /** The pixel loop of Encode: every data or check cell whose codeword bit is 1 is flipped. */
  method LayDataBits(pixel: array2<Pixel>, cw: seq<Byte>, data: array<Byte>, stride: int)
    requires pixel.Length0 == pixel.Length1 && Covered(pixel, cw)
    requires Region(data[..], 0, pixel.Length0, stride)
    modifies data
    ensures forall y, x :: Shows(data[..], 0, pixel.Length0, stride, y, x)
                           <==> Shows(old(data[..]), 0, pixel.Length0, stride, y, x) != DataDark(pixel, cw, y, x)
  {
    ghost var d0 := data[..];
    for y := 0 to pixel.Length0
      invariant Region(data[..], 0, pixel.Length0, stride)
      invariant forall i, j :: Shows(data[..], 0, pixel.Length0, stride, i, j)
                               <==> Shows(d0, 0, pixel.Length0, stride, i, j) != (i < y && DataDark(pixel, cw, i, j))
    {
      LayRow(pixel, cw, data, stride, y);
    }
  }

  /** One row of the pixel loop. */
  method LayRow(pixel: array2<Pixel>, cw: seq<Byte>, data: array<Byte>, stride: int, y: int)
    requires pixel.Length0 == pixel.Length1 && Covered(pixel, cw) && 0 <= y < pixel.Length0
    requires Region(data[..], 0, pixel.Length0, stride)
    modifies data
    ensures forall i, j :: Shows(data[..], 0, pixel.Length0, stride, i, j)
                           <==> Shows(old(data[..]), 0, pixel.Length0, stride, i, j) != (i == y && DataDark(pixel, cw, i, j))
  {
    var siz := pixel.Length0;
    ghost var d0 := data[..];
    for x := 0 to siz
      invariant forall i, j :: Shows(data[..], 0, siz, stride, i, j)
                               <==> Shows(d0, 0, siz, stride, i, j) != (i == y && j < x && DataDark(pixel, cw, i, j))
    {
      var pix := pixel[y, x];
      var r := Role(pix);
      if r == Data || r == Pixels.Check {
        var o := Offset(pix);
        if BitAt(cw, o) {
          CellInRange(siz, stride, y, x);
          ghost var d1 := data[..];
          FlipShows(d1, 0, siz, stride, y, x);
          var k := y * stride + x / 8;
          data[k] := FlipBit(data[k], 7 - x % 8);
          assert data[..] == FlipLit(d1, 0, stride, y, x);
        }
      }
    }
  }

  // ------------------------------------------------------------ Encode

  /**
   * What Encode needs of a plan: a valid version and level, a pixel map and
   * grid of the version's side, one grid or eight in the bitmap, and data and
   * check cells that name bits of the version's codewords.
   */
  ghost predicate Usable(p: Plan)
    reads p, p.Code, p.Code.Bitmap, p.Pixel
  {
    var sz := p.Code.Size * p.Code.Stride;
    && ValidVersion(p.Version) && ValidLevel(p.Level) && p.DataBytes == DataBytes(p.Version, p.Level)
    && Canvas(p.Pixel, p.Code) && p.Code.Size == Side(p.Version) && 0 < sz
    && (p.Code.Bitmap.Length == sz || p.Code.Bitmap.Length == 8 * sz)
    && forall y, x ::
         (0 <= y < p.Code.Size && 0 <= x < p.Code.Size &&
          (Role(p.Pixel[y, x]) == Data || Role(p.Pixel[y, x]) == Pixels.Check)) ==>
           Offset(p.Pixel[y, x]) < 8 * Vtab(p.Version).bytes
  }

  /**
   * The bytes Encode lays the codeword bits on: a copy of the plan's grid
   * when it holds one mask, zero bytes when it holds eight.
   */
  method DataLayer(p: Plan, cw: seq<Byte>) returns (data: array<Byte>)
    requires Canvas(p.Pixel, p.Code) && 0 < p.Code.Size * p.Code.Stride && Covered(p.Pixel, cw)
    requires p.Code.Bitmap.Length == p.Code.Size * p.Code.Stride || p.Code.Bitmap.Length == 8 * (p.Code.Size * p.Code.Stride)
    ensures fresh(data) && data.Length == p.Code.Size * p.Code.Stride
    ensures data.Length == p.Code.Bitmap.Length ==>
              forall y, x :: Shows(data[..], 0, p.Code.Size, p.Code.Stride, y, x)
                             <==> Shows(p.Code.Bitmap[..], 0, p.Code.Size, p.Code.Stride, y, x) != DataDark(p.Pixel, cw, y, x)
    ensures data.Length != p.Code.Bitmap.Length ==>
              forall y, x :: Shows(data[..], 0, p.Code.Size, p.Code.Stride, y, x) <==> DataDark(p.Pixel, cw, y, x)
  {
    var siz, stride := p.Code.Size, p.Code.Stride;
    data := new Byte[siz * stride](_ => 0);
    if data.Length == p.Code.Bitmap.Length {
      forall i | 0 <= i < data.Length {
        data[i] := p.Code.Bitmap[i];
      }
      assert data[..] == p.Code.Bitmap[..];
    } else {
      ShowsNothing(data[..], 0, siz, stride);
    }
    LayDataBits(p.Pixel, cw, data, stride);
  }

  /**
   * The code c is the plan p with the codewords cw laid on it: it has the
   * plan's size, and each cell shows grid k of the plan's bitmap XORed with
   * the codeword layer (grid 0 when the plan holds one mask). With eight
   * masks, layer holds the codeword bits alone and k is the first candidate
   * of least penalty.
   */
  ghost predicate Painted(c: Code, p: Plan, cw: seq<Byte>, k: int, layer: seq<Byte>)
    reads c, c.Bitmap, p, p.Code, p.Code.Bitmap, p.Pixel
  {
    var siz, stride := p.Code.Size, p.Code.Stride;
    && c.Size == siz && c.Stride == stride && c.Bitmap.Length == siz * stride
    && 0 <= k < 8 && (p.Code.Bitmap.Length == siz * stride ==> k == 0)
    && (forall y, x :: Shows(c.Bitmap[..], 0, siz, stride, y, x)
                       <==> Shows(p.Code.Bitmap[..], k * (siz * stride), siz, stride, y, x) != DataDark(p.Pixel, cw, y, x))
    && (p.Code.Bitmap.Length != siz * stride ==>
          && |p.Code.Bitmap[..]| == 8 * |layer| && 1 <= siz <= 8 * stride && siz * stride <= |layer|
          && k == FirstMin(Penalties(p.Code.Bitmap[..], layer, siz, stride))
          && c.Bitmap[..] == Candidate(p.Code.Bitmap[..], layer, k)
          && forall y, x :: Shows(layer, 0, siz, stride, y, x) <==> DataDark(p.Pixel, cw, y, x))
  }

  /** AddCheckBytes and Bytes: the codewords of the texts whose bits b holds. */
  method Finish(b: Bits, ghost ts: seq<Encoding>, v: int, l: int, ecc: (seq<Byte>, nat, nat) -> Byte) returns (cw: seq<Byte>)
    requires b.Valid() && ValidVersion(v) && ValidLevel(l)
    requires b.nbit == TotalBits(ts, v) <= 8 * DataBytes(v, l)
    requires AllFit(ts, v) ==> b.Contents() == Streams(ts, v)
    modifies b
    ensures |cw| == Vtab(v).bytes
    ensures AllFit(ts, v) ==> Codewords(cw, ts, v, l, ecc)
  {
    b.AddCheckBytes(v, l, ecc);
    cw := b.Bytes();
  }

  /**
   * The codeword layer laid on the plan's grid: XORed into it with one
   * mask, or into each of the eight masked grids, keeping the first of
   * least penalty.
   */
  method Draw(p: Plan, cw: seq<Byte>) returns (c: Code, ghost k: int, ghost layer: seq<Byte>)
    requires Usable(p) && |cw| == Vtab(p.Version).bytes
    ensures fresh(c) && fresh(c.Bitmap) && c.Valid()
    ensures Painted(c, p, cw, k, layer)
  {
    var data := DataLayer(p, cw);
    var siz, stride := p.Code.Size, p.Code.Stride;
    if data.Length == p.Code.Bitmap.Length {
      c := new Code(data, siz, stride);
      k, layer := 0, [];
    } else {
      layer := data[..];
      c, k := ChooseMask(p.Code.Bitmap, data, siz, stride);
      CandidateShows(p.Code.Bitmap[..], layer, k, siz, stride);
    }
  }

  /**
   * Plan.Encode. A text that fails its check is reported by its index; more
   * bits than the plan's data bytes hold are reported with both counts.
   * Otherwise the code has the plan's size, its codewords are those of the
   * texts, and each cell shows grid k of the plan XORed with the codeword
   * layer: grid 0 with one mask, and with eight the first of least penalty.
   */
  method Encode(p: Plan, ts: seq<Encoding>, ecc: (seq<Byte>, nat, nat) -> Byte)
    returns (c: Code?, err: Failure, ghost cw: seq<Byte>, ghost k: int, ghost layer: seq<Byte>)
    requires Usable(p) && forall i :: 0 <= i < |ts| ==> Sized(ts[i])
    ensures FirstBad(ts) < |ts| ==> c == null && err == BadText(FirstBad(ts))
    ensures FirstBad(ts) == |ts| && TotalBits(ts, p.Version) > 8 * p.DataBytes ==>
              c == null && err == TooLong(TotalBits(ts, p.Version), 8 * p.DataBytes)
    ensures FirstBad(ts) == |ts| && TotalBits(ts, p.Version) <= 8 * p.DataBytes ==> c != null && err == Ok
    ensures c != null ==> fresh(c) && fresh(c.Bitmap) && c.Valid()
    ensures c != null ==> |cw| == Vtab(p.Version).bytes && Painted(c, p, cw, k, layer)
    ensures c != null && AllFit(ts, p.Version) ==> Codewords(cw, ts, p.Version, p.Level, ecc)
  {
    var bytes;
    bytes, err := DataCodewords(ts, p.Version, p.Level, p.DataBytes, ecc);
    if err != Ok {
      return null, err, [], 0, [];
    }
    cw := bytes;
    c, k, layer := Draw(p, bytes);
  }

  /**
   * The data half of Encode: the texts' bits, the length check against the
   * plan's data bytes, then the check bytes.
   */
  method DataCodewords(ts: seq<Encoding>, v: int, l: int, nbyte: int, ecc: (seq<Byte>, nat, nat) -> Byte)
    returns (cw: seq<Byte>, err: Failure)
    requires ValidVersion(v) && ValidLevel(l) && nbyte == DataBytes(v, l)
    requires forall i :: 0 <= i < |ts| ==> Sized(ts[i])
    ensures FirstBad(ts) < |ts| ==> err == BadText(FirstBad(ts))
    ensures FirstBad(ts) == |ts| && TotalBits(ts, v) > 8 * nbyte ==> err == TooLong(TotalBits(ts, v), 8 * nbyte)
    ensures FirstBad(ts) == |ts| && TotalBits(ts, v) <= 8 * nbyte ==> err == Ok
    ensures err == Ok ==> |cw| == Vtab(v).bytes && (AllFit(ts, v) ==> Codewords(cw, ts, v, l, ecc))
  {
    var b, bad := WriteTexts(ts, v);
    if bad < |ts| {
      return [], BadText(bad);
    }
    if b.nbit > nbyte * 8 {
      return [], TooLong(b.nbit, nbyte * 8);
    }
    cw := Finish(b, ts, v, l, ecc);
    err := Ok;
  }
}
