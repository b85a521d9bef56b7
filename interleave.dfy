/**
 * The order in which lplan lays the bytes of a symbol into its bit stream.
 * The nd data bytes are split into nblock blocks as BlockStart and BlockLen
 * say (the last nd % nblock blocks one byte longer); the stream takes the
 * first byte of every block, then the second byte of every block, and so on,
 * the longer blocks giving their last byte at the end. The check bytes (ne
 * per block, block after block) follow, interleaved the same way (section
 * 7.6 of ISO/IEC 18004).
 *
 * Position k of the stream holds byte Order(k) of the blocked message, and
 * Position inverts Order: the interleave is a permutation.
 */
module Interleave {
  import opened Tables
  import opened Pixels

  lemma MulLe(a: int, b: int, d: int)
    requires a <= b && 0 <= d
    ensures a * d <= b * d
  {
    assert b * d == a * d + (b - a) * d;
  }

  /** Quotient and remainder are unique: a == q * d + r with 0 <= r < d fixes both. */
  lemma DivUnique(a: int, d: int, q: int, r: int)
    requires 0 < d && 0 <= r < d && a == q * d + r
    ensures a / d == q && a % d == r
  {
    var q' := a / d;
    if q' > q {
      MulLe(q + 1, q', d);
    }
    if q' < q {
      MulLe(q' + 1, q, d);
    }
  }

  /** The number of short blocks (nd / nblock data bytes each); the rest carry one more. */
  function Short(nd: int, nblock: int): (s: int)
    requires 1 <= nblock
    ensures 0 < s <= nblock
  {
    nblock - nd % nblock
  }

  /** Block b starts after s short blocks and b - s long ones when b >= s, after b short ones otherwise. */
  lemma StartOf(nd: int, nblock: int, b: int)
    requires 0 <= nd && 1 <= nblock && 0 <= b
    ensures b <= Short(nd, nblock) ==> BlockStart(nd, nblock, b) == b * (nd / nblock)
    ensures b >= Short(nd, nblock) ==>
              BlockStart(nd, nblock, b) == Short(nd, nblock) * (nd / nblock) + (b - Short(nd, nblock)) * (nd / nblock + 1)
  {
    var q, s := nd / nblock, Short(nd, nblock);
    assert b * q == s * q + (b - s) * q;
  }

  /** The data bytes split as s short blocks then nblock - s long ones. */
  lemma DataSplit(nd: int, nblock: int)
    requires 0 <= nd && 1 <= nblock
    ensures nd == nd / nblock * nblock + (nblock - Short(nd, nblock))
    ensures nd == Short(nd, nblock) * (nd / nblock) + (nblock - Short(nd, nblock)) * (nd / nblock + 1)
  {
    var q, s := nd / nblock, Short(nd, nblock);
    assert nd == q * nblock + nd % nblock;
    assert nblock * q == s * q + (nblock - s) * q;
  }

  /** The data byte at position k of the stream. */
  function DataOrder(nd: int, nblock: int, k: int): int
    requires 0 <= nd && 1 <= nblock && 0 <= k < nd
  {
    var q := nd / nblock;
    if k < q * nblock then BlockStart(nd, nblock, k % nblock) + k / nblock
    else BlockStart(nd, nblock, Short(nd, nblock) + (k - q * nblock)) + q
  }

  /** The stream position of data byte o: its index in its block, times nblock, plus its block. */
  function DataPosition(nd: int, nblock: int, o: int): int
    requires 0 <= nd && 1 <= nblock && 0 <= o < nd
  {
    var q, s := nd / nblock, Short(nd, nblock);
    if q > 0 && o < s * q then (o % q) * nblock + o / q
    else
      var b, i := s + (o - s * q) / (q + 1), (o - s * q) % (q + 1);
      if i < q then i * nblock + b else q * nblock + (b - s)
  }

  /** Stream position k and data byte o belong to each other. */
  predicate Matched(nd: int, nblock: int, k: int, o: int)
    requires 0 <= nd && 1 <= nblock
  {
    0 <= k < nd && 0 <= o < nd && DataOrder(nd, nblock, k) == o && DataPosition(nd, nblock, o) == k
  }

  /** i * nblock + b, for b < nblock, lies below (i + 1) * nblock. */
  lemma RowBelow(i: int, q: int, nblock: int, b: int)
    requires 0 <= i < q && 0 <= b < nblock
    ensures 0 <= i * nblock + b < q * nblock
  {
    assert (i + 1) * nblock == i * nblock + nblock;
    MulLe(i + 1, q, nblock);
  }

  /** Byte i of short block b sits at stream position i * nblock + b. */
  lemma ShortByte(nd: int, nblock: int, q: int, s: int, b: int, i: int, k: int, o: int)
    requires 0 <= nd && 1 <= nblock && q == nd / nblock && s == Short(nd, nblock)
    requires 0 <= b < s && 0 <= i < q && k == i * nblock + b && o == b * q + i
    ensures Matched(nd, nblock, k, o)
  {
    ShortRange(nd, nblock, q, s, b, i, k, o);
    ShortOrder(nd, nblock, q, s, b, i, k);
    ShortPosition(nd, nblock, q, s, b, i, o);
  }

  lemma ShortRange(nd: int, nblock: int, q: int, s: int, b: int, i: int, k: int, o: int)
    requires 0 <= nd && 1 <= nblock && q == nd / nblock && s == Short(nd, nblock)
    requires 0 <= b < s && 0 <= i < q && k == i * nblock + b && o == b * q + i
    ensures 0 <= k < q * nblock && k < nd && 0 <= o < s * q && o < nd
  {
    RowBelow(i, q, nblock, b);
    RowBelow(b, s, q, i);
    DataSplit(nd, nblock);
    MulLe(s, nblock, q);
  }

  lemma ShortOrder(nd: int, nblock: int, q: int, s: int, b: int, i: int, k: int)
    requires 0 <= nd && 1 <= nblock && q == nd / nblock && s == Short(nd, nblock)
    requires 0 <= b < s && 0 <= i < q && k == i * nblock + b && k < q * nblock && k < nd
    ensures DataOrder(nd, nblock, k) == b * q + i
  {
    DivUnique(k, nblock, i, b);
    StartOf(nd, nblock, b);
  }

  lemma ShortPosition(nd: int, nblock: int, q: int, s: int, b: int, i: int, o: int)
    requires 0 <= nd && 1 <= nblock && q == nd / nblock && s == Short(nd, nblock)
    requires 0 <= b < s && 0 <= i < q && o == b * q + i && 0 <= o < s * q && o < nd
    ensures DataPosition(nd, nblock, o) == i * nblock + b
  {
    DivUnique(o, q, b, i);
  }

  /** Byte i < q of long block s + e sits at stream position i * nblock + s + e. */
  lemma LongByte(nd: int, nblock: int, q: int, s: int, e: int, i: int, k: int, o: int)
    requires 0 <= nd && 1 <= nblock && q == nd / nblock && s == Short(nd, nblock)
    requires 0 <= e < nblock - s && 0 <= i < q && k == i * nblock + (s + e) && o == s * q + e * (q + 1) + i
    ensures Matched(nd, nblock, k, o)
  {
    LongRange(nd, nblock, q, s, e, i, o);
    RowBelow(i, q, nblock, s + e);
    DivUnique(k, nblock, i, s + e);
    StartOf(nd, nblock, s + e);
    LongPosition(nd, nblock, q, s, e, i, o);
  }

  /** Byte i <= q of long block s + e lies past the short blocks and inside the data. */
  lemma LongRange(nd: int, nblock: int, q: int, s: int, e: int, i: int, o: int)
    requires 0 <= nd && 1 <= nblock && q == nd / nblock && s == Short(nd, nblock)
    requires 0 <= e < nblock - s && 0 <= i <= q && o == s * q + e * (q + 1) + i
    ensures 0 <= s * q <= o < nd && q * nblock <= nd
  {
    DataSplit(nd, nblock);
    MulLe(0, s, q);
    MulLe(0, e, q + 1);
    RowBelow(e, nblock - s, q + 1, i);
  }

  lemma LongPosition(nd: int, nblock: int, q: int, s: int, e: int, i: int, o: int)
    requires 0 <= nd && 1 <= nblock && q == nd / nblock && s == Short(nd, nblock)
    requires 0 <= e < nblock - s && 0 <= i <= q && o == s * q + e * (q + 1) + i
    requires 0 <= s * q <= o < nd
    ensures DataPosition(nd, nblock, o) == if i < q then i * nblock + (s + e) else q * nblock + e
  {
    DivUnique(o - s * q, q + 1, e, i);
  }

  /** The last byte (index q) of long block s + e sits at stream position q * nblock + e. */
  lemma TailByte(nd: int, nblock: int, q: int, s: int, e: int, k: int, o: int)
    requires 0 <= nd && 1 <= nblock && q == nd / nblock && s == Short(nd, nblock)
    requires 0 <= e < nblock - s && k == q * nblock + e && o == s * q + e * (q + 1) + q
    ensures Matched(nd, nblock, k, o)
  {
    LongRange(nd, nblock, q, s, e, q, o);
    TailRange(nd, nblock, q, s, e, k);
    StartOf(nd, nblock, s + e);
    LongPosition(nd, nblock, q, s, e, q, o);
  }

  lemma TailRange(nd: int, nblock: int, q: int, s: int, e: int, k: int)
    requires 0 <= nd && 1 <= nblock && q == nd / nblock && s == Short(nd, nblock)
    requires 0 <= e < nblock - s && k == q * nblock + e
    ensures 0 <= q * nblock <= k < nd
  {
    DataSplit(nd, nblock);
    MulLe(0, q, nblock);
  }

  /** Stream position k is byte i of block b, or the extra byte of a long block. */
  lemma LocatePosition(nd: int, nblock: int, k: int) returns (b: int, i: int)
    requires 0 <= nd && 1 <= nblock && 0 <= k < nd
    ensures var q, s := nd / nblock, Short(nd, nblock);
            if k < q * nblock then 0 <= b < nblock && 0 <= i < q && k == i * nblock + b
            else 0 <= b < nblock - s && k == q * nblock + b
  {
    var q, s := nd / nblock, Short(nd, nblock);
    DataSplit(nd, nblock);
    if k < q * nblock {
      b, i := k % nblock, k / nblock;
      assert k == i * nblock + b;
      if i >= q {
        MulLe(q, i, nblock);
      }
    } else {
      b, i := k - q * nblock, q;
    }
  }

  /** Data byte o is byte i of short block b, or byte i of long block s + b. */
  lemma LocateByte(nd: int, nblock: int, o: int) returns (b: int, i: int)
    requires 0 <= nd && 1 <= nblock && 0 <= o < nd
    ensures var q, s := nd / nblock, Short(nd, nblock);
            if q > 0 && o < s * q then 0 <= b < s && 0 <= i < q && o == b * q + i
            else 0 <= b < nblock - s && 0 <= i <= q && o == s * q + b * (q + 1) + i
  {
    var q, s := nd / nblock, Short(nd, nblock);
    if q > 0 && o < s * q {
      b, i := LocateShort(o, q, s);
    } else {
      assert 0 <= s * q <= o by {
        MulLe(0, s, q);
      }
      assert o - s * q < (nblock - s) * (q + 1) by {
        DataSplit(nd, nblock);
      }
      b, i := LocateLong(o - s * q, q, nblock - s);
    }
  }

  lemma LocateShort(o: int, q: int, s: int) returns (b: int, i: int)
    requires 0 <= o < s * q && 0 < q
    ensures 0 <= b < s && 0 <= i < q && o == b * q + i
  {
    b, i := o / q, o % q;
    if b >= s {
      MulLe(s, b, q);
    }
  }

  lemma LocateLong(o: int, q: int, n: int) returns (b: int, i: int)
    requires 0 <= o < n * (q + 1) && 0 <= q
    ensures 0 <= b < n && 0 <= i <= q && o == b * (q + 1) + i
  {
    b, i := o / (q + 1), o % (q + 1);
    assert o == b * (q + 1) + i && 0 <= i <= q;
    if b >= n {
      MulLe(n, b, q + 1);
      assert false;
    }
  }

  /** Every stream position holds a data byte, and DataPosition finds the position again. */
  lemma DataOrderInverse(nd: int, nblock: int, k: int)
    requires 0 <= nd && 1 <= nblock && 0 <= k < nd
    ensures 0 <= DataOrder(nd, nblock, k) < nd
    ensures DataPosition(nd, nblock, DataOrder(nd, nblock, k)) == k
  {
    var q, s := nd / nblock, Short(nd, nblock);
    var b, i := LocatePosition(nd, nblock, k);
    if k < q * nblock {
      if b < s {
        ShortByte(nd, nblock, q, s, b, i, k, b * q + i);
      } else {
        LongByte(nd, nblock, q, s, b - s, i, k, s * q + (b - s) * (q + 1) + i);
      }
    } else {
      TailByte(nd, nblock, q, s, b, k, s * q + b * (q + 1) + q);
    }
  }

  /** Every data byte has a stream position, and DataOrder finds the byte again. */
  lemma DataPositionInverse(nd: int, nblock: int, o: int)
    requires 0 <= nd && 1 <= nblock && 0 <= o < nd
    ensures 0 <= DataPosition(nd, nblock, o) < nd
    ensures DataOrder(nd, nblock, DataPosition(nd, nblock, o)) == o
  {
    var q, s := nd / nblock, Short(nd, nblock);
    var b, i := LocateByte(nd, nblock, o);
    if q > 0 && o < s * q {
      ShortByte(nd, nblock, q, s, b, i, i * nblock + b, o);
    } else if i < q {
      LongByte(nd, nblock, q, s, b, i, i * nblock + (s + b), o);
    } else {
      TailByte(nd, nblock, q, s, b, q * nblock + b, o);
    }
  }

  /** The check byte (counted from the first check byte) at position k of the check stream. */
  function CheckOrder(nblock: int, ne: int, k: int): int
    requires 1 <= nblock && 0 <= k
  {
    (k % nblock) * ne + k / nblock
  }

  /** The position in the check stream of check byte o: byte o % ne of block o / ne. */
  function CheckPosition(nblock: int, ne: int, o: int): int
    requires 1 <= nblock && 1 <= ne
  {
    (o % ne) * nblock + o / ne
  }

  lemma CheckOrderInverse(nblock: int, ne: int, k: int)
    requires 1 <= nblock && 0 <= k < nblock * ne
    ensures 1 <= ne && 0 <= CheckOrder(nblock, ne, k) < nblock * ne
    ensures CheckPosition(nblock, ne, CheckOrder(nblock, ne, k)) == k
  {
    var b, i := k % nblock, k / nblock;
    assert k == i * nblock + b;
    if i >= ne {
      MulLe(ne, i, nblock);
    }
    MulLe(b + 1, nblock, ne);
    DivUnique(CheckOrder(nblock, ne, k), ne, b, i);
  }

  lemma CheckPositionInverse(nblock: int, ne: int, o: int)
    requires 1 <= nblock && 1 <= ne && 0 <= o < nblock * ne
    ensures 0 <= CheckPosition(nblock, ne, o) < nblock * ne
    ensures CheckOrder(nblock, ne, CheckPosition(nblock, ne, o)) == o
  {
    var b, i := o / ne, o % ne;
    assert o == b * ne + i;
    if b >= nblock {
      MulLe(nblock, b, ne);
    }
    MulLe(i + 1, ne, nblock);
    DivUnique(CheckPosition(nblock, ne, o), nblock, i, b);
  }

  /** The byte of the blocked message (data, then the check bytes block by block) at stream position k. */
  function Order(nd: int, nblock: int, ne: int, k: int): int
    requires 0 <= nd && 1 <= nblock && 0 <= k
  {
    if k < nd then DataOrder(nd, nblock, k) else nd + CheckOrder(nblock, ne, k - nd)
  }

  /** The stream position of byte o of the blocked message. */
  function Position(nd: int, nblock: int, ne: int, o: int): int
    requires 0 <= nd && 1 <= nblock && 0 <= o < nd + nblock * ne
  {
    if o < nd then DataPosition(nd, nblock, o) else nd + CheckPosition(nblock, ne, o - nd)
  }

  /** The interleave is a permutation of the nd + nblock * ne bytes: Position undoes Order ... */
  lemma OrderInverse(nd: int, nblock: int, ne: int, k: int)
    requires 0 <= nd && 1 <= nblock && 0 <= ne && 0 <= k < nd + nblock * ne
    ensures 0 <= Order(nd, nblock, ne, k) < nd + nblock * ne
    ensures (Order(nd, nblock, ne, k) < nd) == (k < nd)
    ensures Position(nd, nblock, ne, Order(nd, nblock, ne, k)) == k
  {
    if k < nd {
      DataOrderInverse(nd, nblock, k);
    } else {
      CheckOrderInverse(nblock, ne, k - nd);
    }
  }

  /** ... and Order undoes Position. */
  lemma PositionInverse(nd: int, nblock: int, ne: int, o: int)
    requires 0 <= nd && 1 <= nblock && 0 <= ne && 0 <= o < nd + nblock * ne
    ensures 0 <= Position(nd, nblock, ne, o) < nd + nblock * ne
    ensures Order(nd, nblock, ne, Position(nd, nblock, ne, o)) == o
  {
    if o < nd {
      DataPositionInverse(nd, nblock, o);
    } else {
      assert 1 <= ne by {
        if ne < 1 {
          MulLe(ne, 0, nblock);
        }
      }
      CheckPositionInverse(nblock, ne, o - nd);
    }
  }

  /** Two stream positions never hold the same byte. */
  lemma OrderInjective(nd: int, nblock: int, ne: int, k1: int, k2: int)
    requires 0 <= nd && 1 <= nblock && 0 <= ne
    requires 0 <= k1 < nd + nblock * ne && 0 <= k2 < nd + nblock * ne
    requires Order(nd, nblock, ne, k1) == Order(nd, nblock, ne, k2)
    ensures k1 == k2
  {
    OrderInverse(nd, nblock, ne, k1);
    OrderInverse(nd, nblock, ne, k2);
  }

  /**
   * Pixel t of the bit stream: bit t % 8 of the byte at position t / 8,
   * a data pixel with offset 8 * o + t % 8 for data byte o and a check
   * pixel with that offset for a check byte.
   */
  function StreamPixel(nd: int, nblock: int, ne: int, t: int): Pixel
    requires 0 <= nd && 1 <= nblock && 0 <= t
  {
    var o := Order(nd, nblock, ne, t / 8);
    Pack(if o < nd then Data else Check, if 0 <= o then 8 * o + t % 8 else 0)
  }
}
