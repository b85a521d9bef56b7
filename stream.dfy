/**
 * The first half of lplan: the data and check pixels of a symbol, their
 * split into blocks, and the bit stream that takes the blocks byte by byte
 * in the order the Interleave module defines.
 */
module Stream {
  import opened Pixels
  import opened Tables
  import opened Interleave

  // ------------------------------------------------------------ pixels

  /** n pixels of one role, pixel i carrying offset base + i: the data pixels, or the check pixels after them. */
  method MakePixels(role: nat, n: int, base: nat) returns (s: seq<Pixel>)
    requires role < 16 && 0 <= n
    ensures |s| == n
    ensures forall i :: 0 <= i < n ==> s[i] == Pack(role, base + i)
  {
    var a := new Pixel[n];
    for i := 0 to n
      invariant forall j :: 0 <= j < i ==> a[j] == Pack(role, base + j)
    {
      a[i] := Pack(role, base + i);
    }
    s := a[..];
  }

  // ------------------------------------------------------------ blocks

  /** Block b of the data pixels: data bytes BlockStart(b) to BlockStart(b) + BlockLen(b) - 1, eight pixels each. */
  predicate DataSlice(blk: seq<Pixel>, data: seq<Pixel>, nd: int, nblock: int, b: int)
    requires 1 <= nblock
  {
    var lo, len := 8 * BlockStart(nd, nblock, b), 8 * BlockLen(nd, nblock, b);
    0 <= lo && 0 <= len && lo + len <= |data| && blk == data[lo..lo + len]
  }

  /** Block b of the check pixels: ne bytes after the check bytes of the blocks before it. */
  predicate CheckSlice(blk: seq<Pixel>, check: seq<Pixel>, ne: int, b: int)
  {
    var lo := 8 * (ne * b);
    0 <= lo && 0 <= ne && lo + 8 * ne <= |check| && blk == check[lo..lo + 8 * ne]
  }

  /**
   * The split of lplan: block i takes the next 8 * BlockLen(i) data pixels
   * and the next 8 * ne check pixels, and the blocks use up both exactly
   * (the source panics otherwise; here it is proved not to happen).
   */
  method SplitBlocks(data: seq<Pixel>, check: seq<Pixel>, nd: int, nblock: int, ne: int)
    returns (dataList: seq<seq<Pixel>>, checkList: seq<seq<Pixel>>)
    requires 0 <= nd && 1 <= nblock && 0 <= ne
    requires |data| == 8 * nd && |check| == 8 * (nblock * ne)
    ensures |dataList| == nblock && |checkList| == nblock
    ensures forall b :: 0 <= b < nblock ==> DataSlice(dataList[b], data, nd, nblock, b)
    ensures forall b :: 0 <= b < nblock ==> CheckSlice(checkList[b], check, ne, b)
  {
    var nde := nd / nblock;
    var extra := nd % nblock;
    var rest, crest := data, check;
    dataList, checkList := [], [];
    BlocksTile(nd, nblock, 0);
    for i := 0 to nblock
      invariant |dataList| == i && |checkList| == i
      invariant 0 <= 8 * BlockStart(nd, nblock, i) <= |data| && rest == data[8 * BlockStart(nd, nblock, i)..]
      invariant 0 <= 8 * (ne * i) <= |check| && crest == check[8 * (ne * i)..]
      invariant forall b :: 0 <= b < i ==> DataSlice(dataList[b], data, nd, nblock, b)
      invariant forall b :: 0 <= b < i ==> CheckSlice(checkList[b], check, ne, b)
    {
      // The last few blocks have an extra data byte.
      var n := nde;
      if i >= nblock - extra {
        n := n + 1;
      }
      SplitStep(nd, nblock, ne, i, n);
      dataList, rest := dataList + [rest[..n * 8]], rest[n * 8..];
      checkList, crest := checkList + [crest[..ne * 8]], crest[ne * 8..];
    }
    SplitEnd(nd, nblock, ne);
    assert |rest| == 0 && |crest| == 0;
  }

  /** Block i advances the data start by its length and the check start by ne, both within bounds. */
  lemma SplitStep(nd: int, nblock: int, ne: int, i: int, n: int)
    requires 0 <= nd && 1 <= nblock && 0 <= ne && 0 <= i < nblock
    requires n == nd / nblock + (if i >= nblock - nd % nblock then 1 else 0)
    ensures n == BlockLen(nd, nblock, i) && 0 <= n
    ensures 8 * BlockStart(nd, nblock, i + 1) == 8 * BlockStart(nd, nblock, i) + n * 8
    ensures 0 <= 8 * BlockStart(nd, nblock, i) && 8 * BlockStart(nd, nblock, i + 1) <= 8 * nd
    ensures 8 * (ne * (i + 1)) == 8 * (ne * i) + ne * 8
    ensures 0 <= 8 * (ne * i) && 8 * (ne * (i + 1)) <= 8 * (nblock * ne)
  {
    BlocksTile(nd, nblock, i);
    BlockWithin(nd, nblock, i);
    MulLe(0, i, ne);
    MulLe(i + 1, nblock, ne);
  }

  /** After the last block both starts sit at the end of their pixels. */
  lemma SplitEnd(nd: int, nblock: int, ne: int)
    requires 0 <= nd && 1 <= nblock && 0 <= ne
    ensures 8 * BlockStart(nd, nblock, nblock) == 8 * nd
    ensures 8 * (ne * nblock) == 8 * (nblock * ne)
  {
    BlocksTile(nd, nblock, 0);
  }

  /** A data block's pixels: data pixel 8 * BlockStart(b) + j at index j. */
  predicate DataBlock(blk: seq<Pixel>, nd: int, nblock: int, b: int)
    requires 1 <= nblock
  {
    && |blk| == 8 * BlockLen(nd, nblock, b) && 0 <= BlockStart(nd, nblock, b)
    && forall j :: 0 <= j < |blk| ==> blk[j] == Pack(Data, 8 * BlockStart(nd, nblock, b) + j)
  }

  /** A check block's pixels: check pixel 8 * nd + 8 * ne * b + j at index j. */
  predicate CheckBlock(blk: seq<Pixel>, nd: int, ne: int, b: int)
  {
    && |blk| == 8 * ne && 0 <= nd && 0 <= ne * b
    && forall j :: 0 <= j < |blk| ==> blk[j] == Pack(Check, 8 * nd + 8 * (ne * b) + j)
  }

  /** The data pixels, cut as DataSlice says, give the pixels DataBlock describes. */
  lemma DataSliceBlock(blk: seq<Pixel>, data: seq<Pixel>, nd: int, nblock: int, b: int)
    requires 1 <= nblock && DataSlice(blk, data, nd, nblock, b)
    requires forall i :: 0 <= i < |data| ==> data[i] == Pack(Data, i)
    ensures DataBlock(blk, nd, nblock, b)
  {
    var lo := 8 * BlockStart(nd, nblock, b);
    forall j | 0 <= j < |blk|
      ensures blk[j] == Pack(Data, lo + j)
    {
      assert blk[j] == data[lo + j];
    }
  }

  /** The check pixels, cut as CheckSlice says, give the pixels CheckBlock describes. */
  lemma CheckSliceBlock(blk: seq<Pixel>, check: seq<Pixel>, nd: int, ne: int, b: int)
    requires 0 <= nd && CheckSlice(blk, check, ne, b)
    requires forall i :: 0 <= i < |check| ==> check[i] == Pack(Check, 8 * nd + i)
    ensures CheckBlock(blk, nd, ne, b)
  {
    var lo := 8 * (ne * b);
    forall j | 0 <= j < |blk|
      ensures blk[j] == Pack(Check, 8 * nd + lo + j)
    {
      assert blk[j] == check[lo + j];
    }
  }

  // ------------------------------------------------------------ the interleave

  /** The first pos pixels of bits are the stream's. */
  ghost predicate Filled(bits: array<Pixel>, nd: int, nblock: int, ne: int, pos: int)
    reads bits
    requires 0 <= nd && 1 <= nblock
  {
    0 <= pos <= bits.Length && forall t :: 0 <= t < pos ==> bits[t] == StreamPixel(nd, nblock, ne, t)
  }

  /**
   * The number of data bytes the stream holds before round i reaches block b:
   * every block gives one byte a round, and in the last round (i == nd / nblock)
   * only the long blocks, those from Short on, have a byte left.
   */
  function DataTaken(nd: int, nblock: int, i: int, b: int): int
    requires 1 <= nblock
  {
    var q, s := nd / nblock, Short(nd, nblock);
    if i < q then i * nblock + b else q * nblock + (if b > s then b - s else 0)
  }

  /** Pixels at to at + 7 of blk are the eight pixels of byte o, of role role. */
  predicate ByteAt(blk: seq<Pixel>, at: int, role: nat, o: int)
    requires role < 16
  {
    0 <= at && at + 8 <= |blk| && 0 <= o && forall p :: at <= p < at + 8 ==> blk[p] == Pack(role, 8 * o + (p - at))
  }

  /** The eight pixels of byte o, when o is the byte at stream position k, are stream pixels 8k to 8k + 7. */
  lemma StreamByte(nd: int, nblock: int, ne: int, k: int, o: int, blk: seq<Pixel>, at: int)
    requires 0 <= nd && 1 <= nblock && 0 <= k && Order(nd, nblock, ne, k) == o
    requires ByteAt(blk, at, if o < nd then Data else Check, o)
    ensures forall t :: 8 * k <= t < 8 * k + 8 ==> blk[at + (t - 8 * k)] == StreamPixel(nd, nblock, ne, t)
  {
    forall t | 8 * k <= t < 8 * k + 8
      ensures blk[at + (t - 8 * k)] == StreamPixel(nd, nblock, ne, t)
    {
      DivUnique(t, 8, k, t - 8 * k);
    }
  }

  /** Go's copy of the eight pixels blk[at..at + 8] to bits[pos..pos + 8], which extends the filled prefix. */
  method AppendByte(bits: array<Pixel>, pos: int, blk: seq<Pixel>, at: int, ghost nd: int, ghost nblock: int, ghost ne: int)
    requires 0 <= nd && 1 <= nblock && Filled(bits, nd, nblock, ne, pos)
    requires pos + 8 <= bits.Length && 0 <= at && at + 8 <= |blk|
    requires forall t :: pos <= t < pos + 8 ==> blk[at + (t - pos)] == StreamPixel(nd, nblock, ne, t)
    modifies bits
    ensures Filled(bits, nd, nblock, ne, pos + 8)
  {
    forall j | 0 <= j < 8 {
      bits[pos + j] := blk[at + j];
    }
  }

  /**
   * Byte i of data block b, taken in round i when i < BlockLen(b), is data
   * byte BlockStart(b) + i, and the stream holds it at position DataTaken(i, b).
   */
  lemma DataTake(nd: int, nblock: int, i: int, b: int, k: int)
    requires 0 <= nd && 1 <= nblock && 0 <= i <= nd / nblock && 0 <= b < nblock
    requires k == DataTaken(nd, nblock, i, b) && i * 8 < 8 * BlockLen(nd, nblock, b)
    ensures 0 <= k < nd && DataOrder(nd, nblock, k) == BlockStart(nd, nblock, b) + i
    ensures DataTaken(nd, nblock, i, b + 1) == k + 1
  {
    var q, s := nd / nblock, Short(nd, nblock);
    StartOf(nd, nblock, b);
    if i < q {
      if b < s {
        ShortByte(nd, nblock, q, s, b, i, k, b * q + i);
      } else {
        LongByte(nd, nblock, q, s, b - s, i, k, s * q + (b - s) * (q + 1) + i);
      }
    } else {
      TailByte(nd, nblock, q, s, b - s, k, s * q + (b - s) * (q + 1) + q);
    }
  }

  /** A block with no byte left in round i adds nothing to the count. */
  lemma DataSkip(nd: int, nblock: int, i: int, b: int)
    requires 0 <= nd && 1 <= nblock && 0 <= i <= nd / nblock && 0 <= b < nblock
    requires !(i * 8 < 8 * BlockLen(nd, nblock, b))
    ensures DataTaken(nd, nblock, i, b + 1) == DataTaken(nd, nblock, i, b)
  {
  }

  /** Round i ends where round i + 1 starts; after the last round all nd data bytes are in. */
  lemma DataRoundEnd(nd: int, nblock: int, i: int)
    requires 0 <= nd && 1 <= nblock && 0 <= i <= nd / nblock
    ensures DataTaken(nd, nblock, i, nblock) == if i < nd / nblock then DataTaken(nd, nblock, i + 1, 0) else nd
  {
    DataSplit(nd, nblock);
  }

  /** One round of the data interleave: byte i of every block that has one. */
  method DataRound(bits: array<Pixel>, pos0: int, dataList: seq<seq<Pixel>>, nd: int, nblock: int, ne: int, i: int, ghost k0: int)
    returns (pos: int, ghost k: int)
    requires 0 <= nd && 1 <= nblock && 0 <= ne && 0 <= i <= nd / nblock
    requires |dataList| == nblock && forall b :: 0 <= b < nblock ==> DataBlock(dataList[b], nd, nblock, b)
    requires bits.Length == 8 * (nd + nblock * ne)
    requires Filled(bits, nd, nblock, ne, pos0) && pos0 == 8 * k0 && k0 == DataTaken(nd, nblock, i, 0)
    modifies bits
    ensures Filled(bits, nd, nblock, ne, pos) && pos == 8 * k && k == DataTaken(nd, nblock, i, nblock)
  {
    pos, k := pos0, k0;
    MulLe(0, nblock, ne);
    for b := 0 to nblock
      invariant Filled(bits, nd, nblock, ne, pos) && pos == 8 * k && k == DataTaken(nd, nblock, i, b)
    {
      var blk := dataList[b];
      if i * 8 < |blk| {
        DataTake(nd, nblock, i, b, k);
        DataByte(nd, nblock, ne, i, b, k, blk);
        AppendByte(bits, pos, blk, i * 8, nd, nblock, ne);
        pos, k := pos + 8, k + 1;
      } else {
        DataSkip(nd, nblock, i, b);
      }
    }
  }

  /** The pixels of byte i of data block b are stream pixels 8k to 8k + 7. */
  lemma DataByte(nd: int, nblock: int, ne: int, i: int, b: int, k: int, blk: seq<Pixel>)
    requires 0 <= nd && 1 <= nblock && 0 <= i && 0 <= k < nd && DataBlock(blk, nd, nblock, b)
    requires i * 8 < |blk| && DataOrder(nd, nblock, k) == BlockStart(nd, nblock, b) + i
    ensures forall t :: 8 * k <= t < 8 * k + 8 ==> blk[i * 8 + (t - 8 * k)] == StreamPixel(nd, nblock, ne, t)
  {
    var o := BlockStart(nd, nblock, b) + i;
    DataOrderInverse(nd, nblock, k);
    DivUnique(|blk|, 8, BlockLen(nd, nblock, b), 0);
    assert ByteAt(blk, i * 8, Data, o);
    StreamByte(nd, nblock, ne, k, o, blk, i * 8);
  }

  /** Byte i of check block b sits at stream position nd + i * nblock + b and is check byte nd + b * ne + i. */
  lemma CheckTake(nd: int, nblock: int, ne: int, i: int, b: int, k: int)
    requires 0 <= nd && 1 <= nblock && 0 <= i < ne && 0 <= b < nblock && k == nd + i * nblock + b
    ensures nd <= k < nd + nblock * ne && Order(nd, nblock, ne, k) == nd + ne * b + i
  {
    RowBelow(i, ne, nblock, b);
    DivUnique(i * nblock + b, nblock, i, b);
  }

  /** The pixels of byte i of check block b are stream pixels 8k to 8k + 7. */
  lemma CheckByte(nd: int, nblock: int, ne: int, i: int, b: int, k: int, blk: seq<Pixel>)
    requires 0 <= nd && 1 <= nblock && 0 <= i < ne && 0 <= b < nblock && k == nd + i * nblock + b
    requires CheckBlock(blk, nd, ne, b)
    ensures forall t :: 8 * k <= t < 8 * k + 8 ==> blk[i * 8 + (t - 8 * k)] == StreamPixel(nd, nblock, ne, t)
  {
    CheckTake(nd, nblock, ne, i, b, k);
    var o := nd + ne * b + i;
    MulLe(0, b, ne);
    assert ByteAt(blk, i * 8, Check, o);
    StreamByte(nd, nblock, ne, k, o, blk, i * 8);
  }

  /** One round of the check interleave: byte i of every block. */
  method CheckRound(bits: array<Pixel>, pos0: int, checkList: seq<seq<Pixel>>, nd: int, nblock: int, ne: int, i: int, ghost k0: int)
    returns (pos: int, ghost k: int)
    requires 0 <= nd && 1 <= nblock && 0 <= i < ne
    requires |checkList| == nblock && forall b :: 0 <= b < nblock ==> CheckBlock(checkList[b], nd, ne, b)
    requires bits.Length == 8 * (nd + nblock * ne)
    requires Filled(bits, nd, nblock, ne, pos0) && pos0 == 8 * k0 && k0 == nd + i * nblock
    modifies bits
    ensures Filled(bits, nd, nblock, ne, pos) && pos == 8 * k && k == nd + (i + 1) * nblock
  {
    pos, k := pos0, k0;
    for b := 0 to nblock
      invariant Filled(bits, nd, nblock, ne, pos) && pos == 8 * k && k == nd + i * nblock + b
    {
      var blk := checkList[b];
      if i * 8 < |blk| {
        CheckTake(nd, nblock, ne, i, b, k);
        CheckByte(nd, nblock, ne, i, b, k, blk);
        AppendByte(bits, pos, blk, i * 8, nd, nblock, ne);
        pos, k := pos + 8, k + 1;
      } else {
        assert false;
      }
    }
  }

  /**
   * The interleave of lplan: round i takes byte i of every data block that
   * has one, then round i takes byte i of every check block. Every stream
   * position gets the pixel StreamPixel names, and the stream is filled
   * exactly (the source panics otherwise; here it is proved not to happen).
   */
  method InterleaveBlocks(dataList: seq<seq<Pixel>>, checkList: seq<seq<Pixel>>, nd: int, nblock: int, ne: int)
    returns (bits: seq<Pixel>)
    requires 0 <= nd && 1 <= nblock && 0 <= ne
    requires |dataList| == nblock && forall b :: 0 <= b < nblock ==> DataBlock(dataList[b], nd, nblock, b)
    requires |checkList| == nblock && forall b :: 0 <= b < nblock ==> CheckBlock(checkList[b], nd, ne, b)
    ensures |bits| == 8 * (nd + nblock * ne)
    ensures forall t :: 0 <= t < |bits| ==> bits[t] == StreamPixel(nd, nblock, ne, t)
  {
    MulLe(0, nblock, ne);
    var a := new Pixel[8 * (nd + nblock * ne)];
    var pos := 0;
    ghost var k := 0;
    var nde := nd / nblock;
    for i := 0 to nde + 1
      invariant Filled(a, nd, nblock, ne, pos) && pos == 8 * k
      invariant k == if i <= nde then DataTaken(nd, nblock, i, 0) else nd
    {
      pos, k := DataRound(a, pos, dataList, nd, nblock, ne, i, k);
      DataRoundEnd(nd, nblock, i);
    }
    for i := 0 to ne
      invariant Filled(a, nd, nblock, ne, pos) && pos == 8 * k && k == nd + i * nblock
    {
      pos, k := CheckRound(a, pos, checkList, nd, nblock, ne, i, k);
    }
    assert pos == a.Length;
    bits := a[..];
  }

  // ------------------------------------------------------------ the source

  /** The pixels lplan sweeps into the free cells: the bit stream, then seven extra pixels. */
  function Source(nd: int, nblock: int, ne: int): (src: seq<Pixel>)
    requires 0 <= nd && 1 <= nblock && 0 <= nblock * ne
    ensures |src| == 8 * (nd + nblock * ne) + 7
  {
    seq(8 * (nd + nblock * ne), t requires 0 <= t => StreamPixel(nd, nblock, ne, t))
      + seq(7, _ => RolePixel(Extra))
  }

  /**
   * Pixel i of the source is a data pixel for the first 8 * nd, a check pixel
   * for the 8 * nblock * ne after them and an extra pixel for the last seven;
   * a data or check pixel carries the offset of bit i % 8 of the byte the
   * interleaving puts at position i / 8.
   */
  lemma SourcePixel(nd: int, nblock: int, ne: int, i: int)
    requires 0 <= nd && 1 <= nblock && 0 <= ne && 8 * (nd + nblock * ne) <= 0x1000_0000
    requires 0 <= i < 8 * (nd + nblock * ne) + 7
    ensures 0 <= nblock * ne
    ensures Role(Source(nd, nblock, ne)[i]) ==
      if i < 8 * nd then Data else if i < 8 * (nd + nblock * ne) then Check else Extra
    ensures i < 8 * (nd + nblock * ne) ==>
      Offset(Source(nd, nblock, ne)[i]) == 8 * Order(nd, nblock, ne, i / 8) + i % 8
  {
    MulLe(0, nblock, ne);
    var n := nd + nblock * ne;
    if i < 8 * n {
      var k, r := i / 8, i % 8;
      assert i == 8 * k + r && 0 <= r < 8 && k < n;
      OrderInverse(nd, nblock, ne, k);
      var o := Order(nd, nblock, ne, k);
      assert 8 * o + r < 0x1000_0000;
      assert Source(nd, nblock, ne)[i] == StreamPixel(nd, nblock, ne, i) == Pack(if o < nd then Data else Check, 8 * o + r);
      PackExact(if o < nd then Data else Check, 8 * o + r);
    } else {
      assert Source(nd, nblock, ne)[i] == RolePixel(Extra);
    }
  }

  /** Two different data or check pixels of the source carry different offsets. */
  lemma SourceApart(nd: int, nblock: int, ne: int, i: int, j: int)
    requires 0 <= nd && 1 <= nblock && 0 <= ne && 8 * (nd + nblock * ne) <= 0x1000_0000
    requires 0 <= i < 8 * (nd + nblock * ne) && 0 <= j < 8 * (nd + nblock * ne) && i != j
    ensures 0 <= nblock * ne
    ensures Offset(Source(nd, nblock, ne)[i]) != Offset(Source(nd, nblock, ne)[j])
  {
    SourcePixel(nd, nblock, ne, i);
    SourcePixel(nd, nblock, ne, j);
    OrderInverse(nd, nblock, ne, i / 8);
    OrderInverse(nd, nblock, ne, j / 8);
    if i / 8 == j / 8 {
      assert i % 8 != j % 8;
    }
  }
}
