/**
 * The bit writer of the QR encoder: an append-only buffer of bits, written
 * most significant bit first into a growing byte slice, with the padding rule
 * of ISO/IEC 18004 (terminator, zero fill to a byte boundary, alternating pad
 * bytes 0xEC and 0x11) and the block-by-block addition of check bytes.
 */
module BitWriter {
  import opened Arith
  import opened Tables

  /** The value of one byte. */
  type Byte = x: int | 0 <= x < 256

  /** The value of a 64-bit unsigned machine word. */
  type Uint = x: int | 0 <= x < 0x1_0000_0000_0000_0000

  /** Bit j of a byte, counting from the most significant (j = 0). */
  predicate ByteBit(x: Byte, j: int)
    requires 0 <= j < 8
  {
    Bit(x, 7 - j)
  }

  /** Bit i of a byte string, each byte read most significant bit first. */
  predicate BitAt(s: seq<Byte>, i: int)
    requires 0 <= i < 8 * |s|
  {
    ByteBit(s[i / 8], i % 8)
  }

  /** The first n bits of a byte string. */
  function BitsOf(s: seq<Byte>, n: int): (r: seq<bool>)
    requires 0 <= n <= 8 * |s|
    ensures |r| == n
  {
    seq(n, i requires 0 <= i < n => BitAt(s, i))
  }

  /** The low n bits of v, most significant first. */
  function ValueBits(v: nat, n: nat): (r: seq<bool>)
    ensures |r| == n
  {
    seq(n, i requires 0 <= i < n => Bit(v, n - 1 - i))
  }

  function Max0(n: int): nat
  {
    if n > 0 then n else 0
  }

  class Bits {
    var b: seq<Byte>
    var nbit: int

    /**
     * The bytes hold the bits written so far, rounded up to whole bytes, and
     * the unwritten tail of the last byte is clear.
     */
    ghost predicate Valid()
      reads this
    {
      && 0 <= nbit
      && |b| == (nbit + 7) / 8
      && (nbit % 8 != 0 ==> Low(b[|b| - 1], 8 - nbit % 8) == 0)
    }

    /** The bits written so far. */
    ghost function Contents(): seq<bool>
      reads this
      requires Valid()
    {
      BitsOf(b, nbit)
    }

    /** The empty buffer (the zero value of the source's struct). */
    constructor ()
      ensures Valid() && b == [] && nbit == 0 && Contents() == []
    {
      b := [];
      nbit := 0;
    }

    /** The number of bits written. */
    function BitLen(): int
      reads this
    {
      nbit
    }

    method Reset()
      modifies this
      ensures Valid() && b == [] && nbit == 0 && Contents() == []
    {
      b := [];
      nbit := 0;
    }

    /** The written bytes; the buffer must end on a byte boundary. */
    method Bytes() returns (r: seq<Byte>)
      requires Valid() && nbit % 8 == 0
      ensures r == b && 8 * |r| == nbit
      ensures BitsOf(r, 8 * |r|) == Contents()
    {
      r := b;
    }

    /** Appends whole bytes; the buffer must end on a byte boundary. */
    method Append(p: seq<Byte>)
      requires Valid() && nbit % 8 == 0
      modifies this
      ensures Valid()
      ensures b == old(b) + p && nbit == old(nbit) + 8 * |p|
    {
      b := b + p;
      nbit := nbit + 8 * |p|;
    }

    /**
     * Appends the low `count` bits of v, most significant first, in chunks
     * that fill the last byte before a new one is started.
     */
    method Write(v: Uint, count: int)
      requires Valid()
      modifies this
      ensures Valid()
      ensures nbit == old(nbit) + Max0(count)
      ensures Contents()[..old(nbit) - old(nbit) % 8] == old(Contents())[..old(nbit) - old(nbit) % 8]
      ensures Contents()[old(nbit)..] == ValueBits(v, Max0(count))
      ensures v < Pow2(Max0(count)) ==> Contents() == old(Contents()) + ValueBits(v, Max0(count))
    {
      var buf: seq<Byte>, len: int, w: nat, k := b, nbit, v, count;
      WrittenStart(b, nbit, v, count);
      while k > 0
        invariant Written(old(b), old(nbit), v, count, buf, len, w, k)
      {
        ghost var b0, nbit0, w0, k0 := buf, len, w, k;
        buf, len, w, k := Pass(buf, len, w, k);
        Advance(old(b), old(nbit), v, count, b0, nbit0, w0, k0, (buf, len, w, k));
      }
      WrittenDone(old(b), old(nbit), v, count, buf, len, w, k);
      b, nbit := buf, len;
    }

    /**
     * Pads the data to n more bits: up to four zero bits of terminator, then
     * zero bits to the next byte boundary, then the pad bytes 0xEC and 0x11
     * alternately. A negative n is a caller error.
     */
    method Pad(n: int)
      requires Valid() && n >= 0
      modifies this
      ensures Valid()
      ensures Contents() == old(Contents()) + PadBits(old(nbit), n)
      ensures nbit == old(nbit) + |PadBits(old(nbit), n)|
    {
      if n <= 4 {
        Write(0, n);
      } else {
        ghost var start := Contents();
        Write(0, 4);
        var m := n - 4;
        m := m - (-nbit) % 8;
        ghost var fill := (-nbit) % 8;
        ghost var term := Contents();
        Write(0, (-nbit) % 8);
        ghost var pre := Contents();
        var pad := if m >= 0 then m / 8 else -((-m) / 8);
        PadBytes(pad);
        PadSplit(start, term, pre, Contents(), old(nbit), n, fill, pad);
      }
    }

    /** The loop of Pad: pad bytes 0xEC, 0x11, ... until pad of them are written. */
    method PadBytes(pad: int)
      requires Valid()
      modifies this
      ensures Valid()
      ensures Contents() == old(Contents()) + BitsOf(PadFill(Max0(pad)), 8 * Max0(pad))
      ensures nbit == old(nbit) + 8 * Max0(pad)
    {
      ghost var pre := Contents();
      Pow2Byte();
      var i := 0;
      while i < pad
        invariant Valid()
        invariant 0 <= i <= Max0(pad) && i % 2 == 0
        invariant Contents() == pre + BitsOf(PadFill(i), 8 * i)
        invariant nbit == old(nbit) + 8 * i
      {
        ghost var c0 := Contents();
        Write(0xec, 8);
        PadStep(pre, c0, Contents(), i);
        if i + 1 >= pad {
          return;
        }
        ghost var c1 := Contents();
        Parity(i);
        Write(0x11, 8);
        PadStep(pre, c1, Contents(), i + 1);
        i := i + 2;
      }
    }

    /**
     * Completes the data of a symbol of version v at level l: pads it to the
     * number of data bytes, then appends the check bytes of each block in
     * turn. The blocks split the data as BlockStart and BlockLen say, and ecc
     * gives byte j of the check bytes of a block (the Reed-Solomon encoder).
     * More data than the symbol holds is a caller error.
     */
    method AddCheckBytes(v: int, l: int, ecc: (seq<Byte>, nat, nat) -> Byte)
      requires Valid() && ValidVersion(v) && ValidLevel(l)
      requires nbit <= 8 * DataBytes(v, l)
      modifies this
      ensures Valid() && nbit % 8 == 0
      ensures |b| == Vtab(v).bytes
      ensures DataBytes(v, l) <= |b|
      ensures BitsOf(b[..DataBytes(v, l)], 8 * DataBytes(v, l))
              == old(Contents()) + PadTo(old(nbit), 8 * DataBytes(v, l))
      ensures b[DataBytes(v, l)..]
              == CheckBlocks(ecc, b[..DataBytes(v, l)], Vtab(v).level.At(l).nblock, Vtab(v).level.At(l).check, Vtab(v).level.At(l).nblock)
    {
      var nd := DataBytes(v, l);
      var e := Vtab(v).level.At(l);
      PadData(nd);
      AddBlocks(nd, e.nblock, e.check, ecc);
    }

    /** The first half of AddCheckBytes: padding to nd data bytes. */
    method PadData(nd: int)
      requires Valid() && nbit <= 8 * nd
      modifies this
      ensures Valid() && nbit == 8 * nd && |b| == nd
      ensures Contents() == old(Contents()) + PadTo(old(nbit), 8 * nd)
    {
      if nbit < nd * 8 {
        Pad(nd * 8 - nbit);
        PadExact(old(nbit), nd);
      }
    }

    /** The second half of AddCheckBytes: the check bytes of each block in turn. */
    method AddBlocks(nd: int, nblock: int, check: nat, ecc: (seq<Byte>, nat, nat) -> Byte)
      requires Valid() && nbit == 8 * nd && 1 <= nblock
      modifies this
      ensures Valid() && nbit % 8 == 0
      ensures b == old(b) + CheckBlocks(ecc, old(b), nblock, check, nblock)
      ensures |b| == nd + nblock * check
    {
      DivMod8(nd, 0);
      var dat := Bytes();
      ghost var data := dat;
      var db := nd / nblock;
      var extra := nd % nblock;
      ghost var start := 0;
      var i := 0;
      BlockedStart(ecc, data, nblock, check);
      while i < nblock
        invariant Valid() && nbit == 8 * |b|
        invariant Blocked(ecc, data, nblock, check, i, start, db, dat, b)
      {
        ghost var db0 := db;
        if i == nblock - extra {
          db := db + 1;
        }
        BlockedRange(ecc, data, nblock, check, i, start, db0, dat, b, extra, db);
        var chk := BlockCheck(ecc, dat[..db], check);
        ghost var b0 := b;
        DivMod8(|b|, 0);
        Append(chk);
        BlockedNext(ecc, data, nblock, check, i, start, db0, dat, b0, extra, db, chk, b);
        dat := dat[db..];
        start := start + db;
        i := i + 1;
      }
      BlockedEnd(ecc, data, nblock, check, i, start, db, dat, b);
      DivMod8(|b|, 0);
    }
  }

  /**
   * The state of the loop of AddCheckBytes before block i: out holds the data
   * and the check bytes of blocks 0 to i - 1, dat the data from block i on,
   * and db the length of block i unless block i is the first long block.
   */
  ghost predicate Blocked(ecc: (seq<Byte>, nat, nat) -> Byte, data: seq<Byte>, nblock: int, check: nat,
                          i: int, start: int, db: int, dat: seq<Byte>, out: seq<Byte>)
  {
    && 1 <= nblock && 0 <= i <= nblock && 0 <= start <= |data|
    && start == BlockStart(|data|, nblock, i)
    && out == data + CheckBlocks(ecc, data, nblock, check, i)
    && dat == data[start..]
    && db == |data| / nblock + (if i > nblock - |data| % nblock then 1 else 0)
  }

  lemma BlockedStart(ecc: (seq<Byte>, nat, nat) -> Byte, data: seq<Byte>, nblock: int, check: nat)
    requires 1 <= nblock
    ensures Blocked(ecc, data, nblock, check, 0, 0, |data| / nblock, data, data)
  {
    BlocksTile(|data|, nblock, 0);
  }

  lemma BlockedEnd(ecc: (seq<Byte>, nat, nat) -> Byte, data: seq<Byte>, nblock: int, check: nat,
                   i: int, start: int, db: int, dat: seq<Byte>, out: seq<Byte>)
    requires Blocked(ecc, data, nblock, check, i, start, db, dat, out) && i >= nblock
    ensures out == data + CheckBlocks(ecc, data, nblock, check, nblock)
    ensures |out| == |data| + nblock * check
  {
    CheckBlocksLen(ecc, data, nblock, check, nblock);
  }

  /** Block i, once db is its length, lies inside dat. */
  lemma BlockedRange(ecc: (seq<Byte>, nat, nat) -> Byte, data: seq<Byte>, nblock: int, check: nat,
                     i: int, start: int, db0: int, dat: seq<Byte>, out: seq<Byte>, extra: int, db: int)
    requires 1 <= nblock && i < nblock
    requires Blocked(ecc, data, nblock, check, i, start, db0, dat, out)
    requires extra == |data| % nblock && db == if i == nblock - extra then db0 + 1 else db0
    ensures 0 <= db <= |dat|
  {
    NextBlock(|data|, nblock, i, start, db);
  }

  /** Appending the check bytes of block i moves the loop to block i + 1. */
  lemma BlockedNext(ecc: (seq<Byte>, nat, nat) -> Byte, data: seq<Byte>, nblock: int, check: nat,
                    i: int, start: int, db0: int, dat: seq<Byte>, out: seq<Byte>, extra: int, db: int,
                    chk: seq<Byte>, out': seq<Byte>)
    requires 1 <= nblock && i < nblock
    requires Blocked(ecc, data, nblock, check, i, start, db0, dat, out)
    requires extra == |data| % nblock && db == if i == nblock - extra then db0 + 1 else db0
    requires 0 <= db <= |dat|
    requires chk == BlockCheck(ecc, dat[..db], check)
    requires out' == out + chk
    ensures Blocked(ecc, data, nblock, check, i + 1, start + db, db, dat[db..], out')
  {
    NextBlock(|data|, nblock, i, start, db);
    CheckBlocksNext(ecc, data, nblock, check, i, start, db, chk);
    assert data[start + db..] == dat[db..];
  }

  /** The pad bytes: 0xEC and 0x11 alternately. */
  function PadFill(k: nat): (r: seq<Byte>)
    ensures |r| == k
  {
    seq(k, i requires 0 <= i < k => if i % 2 == 0 then 0xec else 0x11)
  }

  /** Go's m / 8 on an int, which truncates toward zero. */
  function Quot8(m: int): int
  {
    if m >= 0 then m / 8 else -((-m) / 8)
  }

  /** The bits Pad(n) appends to a buffer of nbit bits. */
  ghost function PadBits(nbit: int, n: int): seq<bool>
  {
    if n <= 4 then ValueBits(0, Max0(n))
    else
      var fill := (-(nbit + 4)) % 8;
      var pad := Max0(Quot8(n - 4 - fill));
      ValueBits(0, 4) + ValueBits(0, fill) + BitsOf(PadFill(pad), 8 * pad)
  }

  /** Appending a byte appends its eight bits. */
  lemma BitsOfSnoc(s: seq<Byte>, x: Byte)
    ensures BitsOf(s + [x], 8 * |s| + 8) == BitsOf(s, 8 * |s|) + ValueBits(x, 8)
  {
    var t := s + [x];
    forall i | 0 <= i < 8 * |s| + 8
      ensures BitsOf(t, 8 * |s| + 8)[i] == (BitsOf(s, 8 * |s|) + ValueBits(x, 8))[i]
    {
      if i >= 8 * |s| {
        DivMod8(|s|, i - 8 * |s|);
      }
    }
  }

  /** Appending pad byte i to the bits of the first i pad bytes. */
  lemma PadStep(pre: seq<bool>, c0: seq<bool>, c1: seq<bool>, i: nat)
    requires c0 == pre + BitsOf(PadFill(i), 8 * i)
    requires c1 == c0 + ValueBits(if i % 2 == 0 then 0xec else 0x11, 8)
    ensures c1 == pre + BitsOf(PadFill(i + 1), 8 * (i + 1))
  {
    FillGrows(i);
  }

  /** On a byte boundary, appending bytes appends their bits (what Append does to Contents). */
  lemma BitsOfAppend(s: seq<Byte>, p: seq<Byte>)
    ensures BitsOf(s + p, 8 * |s| + 8 * |p|) == BitsOf(s, 8 * |s|) + BitsOf(p, 8 * |p|)
  {
    forall i | 0 <= i < 8 * |s| + 8 * |p|
      ensures BitsOf(s + p, 8 * |s| + 8 * |p|)[i] == (BitsOf(s, 8 * |s|) + BitsOf(p, 8 * |p|))[i]
    {
      if i >= 8 * |s| {
        assert (i - 8 * |s|) / 8 == i / 8 - |s| && (i - 8 * |s|) % 8 == i % 8;
      }
    }
  }

  /** The bits AddCheckBytes pads with to reach target bits. */
  ghost function PadTo(nbit: int, target: int): seq<bool>
  {
    if nbit < target then PadBits(nbit, target - nbit) else []
  }

  /**
   * Padding up to a byte boundary adds exactly the bits asked for: the
   * terminator and zero fill never overshoot and the pad bytes fill the rest.
   */
  lemma PadExact(nbit: int, nd: int)
    requires 0 <= nbit <= 8 * nd
    ensures |PadBits(nbit, 8 * nd - nbit)| == 8 * nd - nbit
  {
    var n := 8 * nd - nbit;
    if n > 4 {
      var fill := (-(nbit + 4)) % 8;
      assert (nbit + 4 + fill) % 8 == 0;
      assert (n - 4 - fill) % 8 == 0;
      assert n - 4 - fill >= 0;
      assert 8 * Quot8(n - 4 - fill) == n - 4 - fill;
    }
  }

  /** The check bytes of one block of data. */
  function BlockCheck(ecc: (seq<Byte>, nat, nat) -> Byte, data: seq<Byte>, check: nat): (r: seq<Byte>)
    ensures |r| == check
    ensures forall j :: 0 <= j < check ==> r[j] == ecc(data, check, j)
  {
    seq(check, j requires 0 <= j < check => ecc(data, check, j))
  }

  /** The check bytes of blocks 0 to i - 1 of the data, one block after another. */
  function CheckBlocks(ecc: (seq<Byte>, nat, nat) -> Byte, data: seq<Byte>, nblock: int, check: nat, i: int): (r: seq<Byte>)
    requires 1 <= nblock && 0 <= i <= nblock
    decreases i
  {
    if i == 0 then []
    else
      BlockWithin(|data|, nblock, i - 1);
      var start := BlockStart(|data|, nblock, i - 1);
      CheckBlocks(ecc, data, nblock, check, i - 1)
        + BlockCheck(ecc, data[start..start + BlockLen(|data|, nblock, i - 1)], check)
  }

  /** The loop of AddCheckBytes computes block i where BlockStart and BlockLen put it. */
  lemma NextBlock(nd: int, nblock: int, i: int, start: int, db: int)
    requires 0 <= nd && 1 <= nblock && 0 <= i < nblock
    requires start == BlockStart(nd, nblock, i)
    requires db == nd / nblock + (if i >= nblock - nd % nblock then 1 else 0)
    ensures db == BlockLen(nd, nblock, i)
    ensures 0 <= start && 0 <= db && start + db <= nd
    ensures start + db == BlockStart(nd, nblock, i + 1)
    ensures db == nd / nblock + (if i + 1 > nblock - nd % nblock then 1 else 0)
  {
    BlockWithin(nd, nblock, i);
    BlocksTile(nd, nblock, i);
  }

  /** One more block of check bytes. */
  lemma CheckBlocksNext(ecc: (seq<Byte>, nat, nat) -> Byte, data: seq<Byte>, nblock: int, check: nat,
                        i: int, start: int, db: int, chk: seq<Byte>)
    requires 1 <= nblock && 0 <= i < nblock
    requires start == BlockStart(|data|, nblock, i) && db == BlockLen(|data|, nblock, i)
    requires 0 <= start && 0 <= db && start + db <= |data|
    requires chk == BlockCheck(ecc, data[start..][..db], check)
    ensures CheckBlocks(ecc, data, nblock, check, i + 1) == CheckBlocks(ecc, data, nblock, check, i) + chk
  {
    assert data[start..][..db] == data[start..start + db];
  }

  /** Each block contributes check bytes, so i blocks contribute i * check. */
  lemma {:induction false} CheckBlocksLen(ecc: (seq<Byte>, nat, nat) -> Byte, data: seq<Byte>, nblock: int, check: nat, i: int)
    requires 1 <= nblock && 0 <= i <= nblock
    ensures |CheckBlocks(ecc, data, nblock, check, i)| == i * check
    decreases i
  {
    if i > 0 {
      CheckBlocksLen(ecc, data, nblock, check, i - 1);
      assert (i - 1) * check + check == i * check;
    }
  }

  lemma Parity(i: int)
    requires i % 2 == 0
    ensures (i + 1) % 2 == 1 && (i + 2) % 2 == 0
  {
  }

  /** Pad's three stages add up to PadBits. */
  lemma PadSplit(start: seq<bool>, term: seq<bool>, pre: seq<bool>, fin: seq<bool>,
                 nbit: int, n: int, fill: int, pad: int)
    requires n > 4 && fill == (-(nbit + 4)) % 8
    requires term == start + ValueBits(0, 4)
    requires pre == term + ValueBits(0, fill)
    requires fin == pre + BitsOf(PadFill(Max0(pad)), 8 * Max0(pad))
    requires pad == Quot8(n - 4 - fill)
    ensures fin == start + PadBits(nbit, n)
  {
  }

  lemma FillGrows(i: nat)
    ensures BitsOf(PadFill(i + 1), 8 * i + 8) == BitsOf(PadFill(i), 8 * i) + ValueBits(if i % 2 == 0 then 0xec else 0x11, 8)
  {
    assert PadFill(i + 1) == PadFill(i) + [if i % 2 == 0 then 0xec else 0x11];
    BitsOfSnoc(PadFill(i), if i % 2 == 0 then 0xec else 0x11);
  }

  /** The invariant of a bit buffer, on its two fields. */
  ghost predicate WriterState(b: seq<Byte>, nbit: int)
  {
    && 0 <= nbit
    && |b| == (nbit + 7) / 8
    && (nbit % 8 != 0 ==> Low(b[|b| - 1], 8 - nbit % 8) == 0)
  }

  lemma Pow2Byte()
    ensures Pow2(8) == 256
  {
    assert Pow2(3) == 8;
  }

  /** `x |= uint8(y)` on a byte. */
  function OrByte(x: Byte, y: nat): Byte
  {
    LowBound(y, 8);
    Pow2Byte();
    OrBound(x, Low(y, 8), 8);
    Or(x, Low(y, 8))
  }

  /** Each bit of `x | uint8(y)` is set when it is set in x or in y. */
  lemma OrByteBits(x: Byte, y: nat, t: nat)
    requires t < 8
    ensures Bit(OrByte(x, y), t) <==> Bit(x, t) || Bit(y, t)
  {
    BitOr(x, Low(y, 8), t);
    BitLow(y, 8, t);
  }

  /**
   * Bits taken by one pass of the loop of Write: at most 8, and no more than
   * the room left in the last byte.
   */
  function Chunk(nbit: int, k: int): (n: int)
    requires 0 <= nbit && k > 0
    ensures 0 < n <= k && n <= 8 - nbit % 8
  {
    var n0 := if k > 8 then 8 else k;
    ByteCount(nbit, 1);
    if nbit % 8 != 0 && n0 > (-nbit) % 8 then (-nbit) % 8 else n0
  }

  /** The bytes a pass writes into: a fresh zero byte is added at a byte boundary. */
  function Padded(b: seq<Byte>, nbit: int): (r: seq<Byte>)
    requires 0 <= nbit && |b| == (nbit + 7) / 8
    ensures |r| == nbit / 8 + 1
  {
    ByteCount(nbit, 8 - nbit % 8);
    if nbit % 8 == 0 then b + [0] else b
  }

  /**
   * One pass of the loop of Write on the buffer's fields and the remaining
   * value and bit count: the top Chunk bits of the k remaining ones are
   * OR-ed into the last byte just below the bits already there.
   */
  function Step(b: seq<Byte>, nbit: int, w: nat, k: int): (r: (seq<Byte>, int, nat, int))
    requires 0 <= nbit && |b| == (nbit + 7) / 8 && k > 0
    ensures 0 <= r.1 && |r.0| == (r.1 + 7) / 8 && r.1 <= 8 * |r.0| && 0 <= r.3 < k
    ensures r.1 == nbit + Chunk(nbit, k) && r.3 == k - Chunk(nbit, k) && r.2 == Low(w, r.3)
  {
    var n := Chunk(nbit, k);
    var sh := k - n;
    var b1 := Padded(b, nbit);
    ByteCount(nbit, n);
    (b1[|b1| - 1 := OrByte(b1[|b1| - 1], Shl(Shr(w, sh), 8 - nbit % 8 - n))], nbit + n, Low(w, sh), sh)
  }

  /** Byte counts and shift amounts of one pass, for a chunk that fits the last byte. */
  lemma ByteCount(nbit: int, n: int)
    requires 0 <= nbit && 0 < n <= 8 - nbit % 8
    ensures (nbit + n + 7) / 8 == nbit / 8 + 1
    ensures (nbit + 7) / 8 == nbit / 8 + (if nbit % 8 == 0 then 0 else 1)
    ensures (-(nbit + n)) % 8 == 8 - nbit % 8 - n
    ensures nbit % 8 != 0 ==> (-nbit) % 8 == 8 - nbit % 8
    ensures (nbit + n) % 8 == if nbit % 8 + n == 8 then 0 else nbit % 8 + n
  {
    var q, p := nbit / 8, nbit % 8;
    assert nbit == 8 * q + p;
    assert nbit + n + 7 == 8 * (q + 1) + (p + n - 1);
    assert -(nbit + n) == 8 * (-q - 1) + (8 - p - n);
  }

  /**
   * Bit t of the last byte after one pass, where p bits of it were already
   * used (the rest being clear) and a chunk hi of n bits is shifted into
   * place below them.
   */
  lemma ByteStep(o: Byte, p: int, n: int, hi: nat, t: int)
    requires 0 <= p && 0 < n && p + n <= 8 && 0 <= t < 8
    requires p > 0 ==> Low(o, 8 - p) == 0
    requires p == 0 ==> o == 0
    ensures Bit(OrByte(o, Shl(hi, 8 - p - n)), t)
            <==> (t >= 8 - p && Bit(o, t)) || (8 - p - n <= t && Bit(hi, t - (8 - p - n)))
  {
    OrByteBits(o, Shl(hi, 8 - p - n), t);
    BitShl(hi, 8 - p - n, t);
    if t < 8 - p {
      BitZero(t);
      if p > 0 {
        BitLow(o, 8 - p, t);
      }
    }
  }

  lemma DivMod8(q: int, j: int)
    requires 0 <= j < 8
    ensures (8 * q + j) / 8 == q && (8 * q + j) % 8 == j
  {
  }

  /** A chunk that fits its n bits leaves the first p bits of the byte as they were. */
  lemma ByteKeeps(o: Byte, p: int, n: int, hi: nat, j: int)
    requires 0 <= p && 0 < n && p + n <= 8 && 0 <= j < p
    requires p > 0 ==> Low(o, 8 - p) == 0
    requires p == 0 ==> o == 0
    requires hi < Pow2(n)
    ensures ByteBit(OrByte(o, Shl(hi, 8 - p - n)), j) <==> ByteBit(o, j)
  {
    ByteStep(o, p, n, hi, 7 - j);
    BitSmall(hi, n, 7 - j - (8 - p - n));
  }

  /** Bits p to p + n - 1 of the byte are the top n of the k low bits of w. */
  lemma BytePlaces(o: Byte, p: int, n: int, w: nat, k: int, j: int)
    requires 0 <= p && 0 < n <= k && p + n <= 8 && p <= j < p + n
    requires p > 0 ==> Low(o, 8 - p) == 0
    requires p == 0 ==> o == 0
    ensures ByteBit(OrByte(o, Shl(Shr(w, k - n), 8 - p - n)), j) <==> Bit(w, k - 1 - (j - p))
  {
    ByteStep(o, p, n, Shr(w, k - n), 7 - j);
    BitShr(w, k - n, p + n - 1 - j);
  }

  /** One pass keeps the buffer invariant and leaves the low bits of w to write. */
  lemma StepState(b: seq<Byte>, nbit: int, w: nat, k: int)
    requires WriterState(b, nbit) && k > 0
    ensures var r := Step(b, nbit, w, k);
            WriterState(r.0, r.1) && r.2 == Low(w, r.3) && r.1 > nbit
  {
    var r := Step(b, nbit, w, k);
    var p := nbit % 8;
    var n := r.1 - nbit;
    ByteCount(nbit, n);
    var padded := Padded(b, nbit);
    var last := |padded| - 1;
    ShrLow(w, k - n);
    var y := OrByte(padded[last], Shl(Shr(w, k - n), 8 - p - n));
    assert r.0 == padded[last := y];
    if p + n < 8 {
      forall t | 0 <= t < 8 - p - n
        ensures !Bit(y, t)
      {
        ByteStep(padded[last], p, n, Shr(w, k - n), t);
      }
      LowZero(y, 8 - p - n);
    }
  }

  /** Rewriting the byte at index nbit / 8 keeps every bit of the bytes before it. */
  lemma KeepFullBytes(b: seq<Byte>, nbit: int, nb: seq<Byte>, n: int)
    requires WriterState(b, nbit) && 0 < n <= 8 - nbit % 8
    requires |nb| == nbit / 8 + 1 && nb[..nbit / 8] == b[..nbit / 8]
    ensures BitsOf(nb, nbit + n)[..nbit - nbit % 8] == BitsOf(b, nbit)[..nbit - nbit % 8]
  {
    ByteCount(nbit, n);
    forall i | 0 <= i < nbit - nbit % 8
      ensures BitsOf(nb, nbit + n)[i] == BitsOf(b, nbit)[i]
    {
      assert i / 8 < nbit / 8;
      assert nb[i / 8] == nb[..nbit / 8][i / 8];
    }
  }

  /** Rewriting the byte at index nbit / 8 with its first nbit % 8 bits kept keeps every written bit. */
  lemma KeepLastByte(b: seq<Byte>, nbit: int, nb: seq<Byte>, n: int, o: Byte, y: Byte)
    requires WriterState(b, nbit) && 0 < n <= 8 - nbit % 8 && nbit % 8 > 0
    requires |nb| == nbit / 8 + 1 && nb[..nbit / 8] == b[..nbit / 8]
    requires o == b[nbit / 8] && y == nb[nbit / 8]
    requires forall j :: 0 <= j < nbit % 8 ==> (ByteBit(y, j) <==> ByteBit(o, j))
    ensures BitsOf(nb, nbit + n)[..nbit] == BitsOf(b, nbit)
  {
    KeepFullBytes(b, nbit, nb, n);
    var q := nbit / 8;
    var after, before := BitsOf(nb, nbit + n), BitsOf(b, nbit);
    forall i | 0 <= i < nbit
      ensures after[i] == before[i]
    {
      if i >= nbit - nbit % 8 {
        DivMod8(q, i - 8 * q);
      } else {
        assert after[..nbit - nbit % 8][i] == before[..nbit - nbit % 8][i];
      }
    }
  }

  /** The n bits from nbit on are those of the byte at index nbit / 8 from position nbit % 8 on. */
  lemma PlaceChunk(nb: seq<Byte>, nbit: int, n: int, y: Byte, w: nat, k: int)
    requires 0 <= nbit && 0 < n <= k && n <= 8 - nbit % 8
    requires |nb| == nbit / 8 + 1 && y == nb[nbit / 8]
    requires forall j :: nbit % 8 <= j < nbit % 8 + n ==> (ByteBit(y, j) <==> Bit(w, k - 1 - (j - nbit % 8)))
    ensures BitsOf(nb, nbit + n)[nbit..] == ValueBits(w, k)[..n]
  {
    ByteCount(nbit, n);
    var q := nbit / 8;
    var after := BitsOf(nb, nbit + n);
    forall i | nbit <= i < nbit + n
      ensures after[i] == ValueBits(w, k)[i - nbit]
    {
      DivMod8(q, i - 8 * q);
    }
  }

  /** The bits one pass places after the old end are the top bits of w's low k bits. */
  lemma StepAppends(b: seq<Byte>, nbit: int, w: nat, k: int)
    requires WriterState(b, nbit) && k > 0
    ensures var r := Step(b, nbit, w, k);
            r.1 <= 8 * |r.0| && BitsOf(r.0, r.1)[nbit..] == ValueBits(w, k)[..r.1 - nbit]
  {
    var r := Step(b, nbit, w, k);
    var p := nbit % 8;
    var n := Chunk(nbit, k);
    ByteCount(nbit, n);
    var padded := Padded(b, nbit);
    var o := padded[nbit / 8];
    var hi := Shr(w, k - n);
    var y := OrByte(o, Shl(hi, 8 - p - n));
    assert r.0 == padded[nbit / 8 := y];
    forall j | p <= j < p + n
      ensures ByteBit(y, j) <==> Bit(w, k - 1 - (j - p))
    {
      BytePlaces(o, p, n, w, k, j);
    }
    PlaceChunk(r.0, nbit, n, y, w, k);
  }

  /** One pass keeps the bits before the partly filled last byte. */
  lemma StepKeeps(b: seq<Byte>, nbit: int, w: nat, k: int)
    requires WriterState(b, nbit) && k > 0
    ensures var r := Step(b, nbit, w, k);
            && r.1 <= 8 * |r.0| && nbit <= r.1
            && BitsOf(r.0, r.1)[..nbit - nbit % 8] == BitsOf(b, nbit)[..nbit - nbit % 8]
  {
    var n := Chunk(nbit, k);
    StepPrefix(b, nbit, w, k);
    KeepFullBytes(b, nbit, Step(b, nbit, w, k).0, n);
  }

  /** A pass leaves the full bytes alone and ends with one byte past them. */
  lemma StepPrefix(b: seq<Byte>, nbit: int, w: nat, k: int)
    requires 0 <= nbit && |b| == (nbit + 7) / 8 && k > 0
    ensures var nb := Step(b, nbit, w, k).0; |nb| == nbit / 8 + 1 && nb[..nbit / 8] == b[..nbit / 8]
  {
    StepBytes(b, nbit, w, k);
    var p := Padded(b, nbit);
    assert p[..nbit / 8] == b[..nbit / 8];
  }


  /** OR-ing a chunk that fits its n bits into the partly filled last byte keeps every bit written before. */
  lemma KeepWithChunk(b: seq<Byte>, nbit: int, n: int, hi: nat, nb: seq<Byte>)
    requires WriterState(b, nbit) && nbit % 8 > 0 && 0 < n <= 8 - nbit % 8 && hi < Pow2(n)
    requires nb == b[nbit / 8 := OrByte(b[nbit / 8], Shl(hi, 8 - nbit % 8 - n))]
    ensures nbit + n <= 8 * |nb| && BitsOf(nb, nbit + n)[..nbit] == BitsOf(b, nbit)
  {
    ByteCount(nbit, n);
    var p := nbit % 8;
    var o := b[nbit / 8];
    forall j | 0 <= j < p
      ensures ByteBit(nb[nbit / 8], j) <==> ByteBit(o, j)
    {
      ByteKeeps(o, p, n, hi, j);
    }
    assert nb[..nbit / 8] == b[..nbit / 8];
    KeepLastByte(b, nbit, nb, n, o, nb[nbit / 8]);
  }

  /** The statements of one pass of the loop of Write compute Step. */
  lemma LoopPass(b: seq<Byte>, nbit: int, w: nat, k: int, n: int, padded: seq<Byte>)
    requires 0 <= nbit && |b| == (nbit + 7) / 8 && k > 0
    requires n == Chunk(nbit, k) && padded == Padded(b, nbit)
    ensures |padded| > 0 && 0 <= k - n && Shl(Shr(w, k - n), k - n) <= w
    ensures Step(b, nbit, w, k)
            == (padded[|padded| - 1 := OrByte(padded[|padded| - 1], Shl(Shr(w, k - n), (-(nbit + n)) % 8))],
                nbit + n, w - Shl(Shr(w, k - n), k - n), k - n)
  {
    ByteCount(nbit, n);
    ShrLow(w, k - n);
    StepBytes(b, nbit, w, k);
  }

  /** The bytes after a pass, spelled out. */
  lemma StepBytes(b: seq<Byte>, nbit: int, w: nat, k: int)
    requires 0 <= nbit && |b| == (nbit + 7) / 8 && k > 0
    ensures var p := Padded(b, nbit);
            Step(b, nbit, w, k).0
            == p[nbit / 8 := OrByte(p[nbit / 8], Shl(Shr(w, k - Chunk(nbit, k)), 8 - nbit % 8 - Chunk(nbit, k)))]
  {
  }

  /** The bytes after a pass that starts inside a byte, spelled out. */
  lemma StepShape(b: seq<Byte>, nbit: int, w: nat, k: int)
    requires WriterState(b, nbit) && k > 0 && nbit % 8 > 0
    ensures Step(b, nbit, w, k).0
            == b[nbit / 8 := OrByte(b[nbit / 8], Shl(Shr(w, k - Chunk(nbit, k)), 8 - nbit % 8 - Chunk(nbit, k)))]
  {
  }

  /** The chunk a pass takes from a w of k bits fits the chunk's width. */
  lemma ChunkFits(nbit: int, w: nat, k: int)
    requires 0 <= nbit && k > 0 && w < Pow2(k)
    ensures Shr(w, k - Chunk(nbit, k)) < Pow2(Chunk(nbit, k))
  {
    ShrBound(w, k - Chunk(nbit, k), k);
  }

  /** A pass that starts inside a byte, with w fitting in k bits, keeps every bit written before. */
  lemma StepKeepsPartial(b: seq<Byte>, nbit: int, w: nat, k: int)
    requires WriterState(b, nbit) && k > 0 && w < Pow2(k) && nbit % 8 > 0
    ensures var r := Step(b, nbit, w, k); BitsOf(r.0, r.1)[..nbit] == BitsOf(b, nbit)
  {
    StepShape(b, nbit, w, k);
    ChunkFits(nbit, w, k);
    assert WriterState(b, nbit);
    assert nbit % 8 > 0;
    assert 0 < Chunk(nbit, k) <= 8 - nbit % 8;
    assert Shr(w, k - Chunk(nbit, k)) < Pow2(Chunk(nbit, k));
    assert Step(b, nbit, w, k).0 == b[nbit / 8 := OrByte(b[nbit / 8], Shl(Shr(w, k - Chunk(nbit, k)), 8 - nbit % 8 - Chunk(nbit, k)))];
    KeepWithChunk(b, nbit, Chunk(nbit, k), Shr(w, k - Chunk(nbit, k)), Step(b, nbit, w, k).0);
  }

  /** When w fits in k bits, one pass keeps every bit written before. */
  lemma StepKeepsAll(b: seq<Byte>, nbit: int, w: nat, k: int)
    requires WriterState(b, nbit) && k > 0 && w < Pow2(k)
    ensures var r := Step(b, nbit, w, k); BitsOf(r.0, r.1)[..nbit] == BitsOf(b, nbit)
  {
    if nbit % 8 > 0 {
      StepKeepsPartial(b, nbit, w, k);
    } else {
      StepKeeps(b, nbit, w, k);
    }
  }

  /** The low sh bits of w, as a bit string, are the last sh bits of w's low k bits. */
  lemma ValueBitsLow(w: nat, sh: nat, k: nat)
    requires sh <= k
    ensures ValueBits(Low(w, sh), sh) == ValueBits(w, k)[k - sh..]
  {
    forall i | 0 <= i < sh
      ensures ValueBits(Low(w, sh), sh)[i] == ValueBits(w, k)[k - sh + i]
    {
      BitLow(w, sh, sh - 1 - i);
    }
  }

  /**
   * The state of Write(v, count) on a buffer (b0, nbit0) after some passes:
   * the buffer (b, nbit) is valid and has grown by the bits written so far,
   * those bits are the leading bits of v's low `count` bits, the bits before
   * the partly filled last byte of the original buffer are kept (all of them
   * when v fits), and w holds the k bits still to write.
   */
  ghost predicate Written(b0: seq<Byte>, nbit0: int, v: nat, count: int, b: seq<Byte>, nbit: int, w: nat, k: int)
  {
    && WriterState(b0, nbit0) && WriterState(b, nbit)
    && (if count > 0 then 0 <= k <= count else k == count)
    && nbit == nbit0 + (Max0(count) - Max0(k))
    && BitsOf(b, nbit)[..nbit0 - nbit0 % 8] == BitsOf(b0, nbit0)[..nbit0 - nbit0 % 8]
    && BitsOf(b, nbit)[nbit0..] == ValueBits(v, Max0(count))[..Max0(count) - Max0(k)]
    && ValueBits(w, Max0(k)) == ValueBits(v, Max0(count))[Max0(count) - Max0(k)..]
    && (w < Pow2(Max0(k)) || (k == count && w == v))
    && (v < Pow2(Max0(count)) ==> BitsOf(b, nbit)[..nbit0] == BitsOf(b0, nbit0))
  }

  /** When no bits are left, the value has been appended. */
  lemma WrittenDone(b0: seq<Byte>, nbit0: int, v: nat, count: int, b: seq<Byte>, nbit: int, w: nat, k: int)
    requires Written(b0, nbit0, v, count, b, nbit, w, k) && k <= 0
    ensures WriterState(b, nbit) && nbit == nbit0 + Max0(count)
    ensures BitsOf(b, nbit)[..nbit0 - nbit0 % 8] == BitsOf(b0, nbit0)[..nbit0 - nbit0 % 8]
    ensures BitsOf(b, nbit)[nbit0..] == ValueBits(v, Max0(count))
    ensures v < Pow2(Max0(count)) ==> BitsOf(b, nbit) == BitsOf(b0, nbit0) + ValueBits(v, Max0(count))
  {
    if v < Pow2(Max0(count)) {
      var after := BitsOf(b, nbit);
      assert after == after[..nbit0] + after[nbit0..];
    }
  }

  /**
   * One pass of the loop of Write: the next chunk of the k bits of w left to
   * write goes into the last byte, or into a new one when the last is full.
   */
  method Pass(buf: seq<Byte>, len: int, w: nat, k: int) returns (buf': seq<Byte>, len': int, w': nat, k': int)
    requires 0 <= len && |buf| == (len + 7) / 8 && k > 0
    ensures (buf', len', w', k') == Step(buf, len, w, k)
  {
    buf' := buf;
    var n := if k > 8 then 8 else k;
    if len % 8 == 0 {
      buf' := buf' + [0];
    } else {
      var m := (-len) % 8;
      if n > m {
        n := m;
      }
    }
    LoopPass(buf, len, w, k, n, buf');
    len' := len + n;
    var sh := k - n;
    buf' := buf'[|buf'| - 1 := OrByte(buf'[|buf'| - 1], Shl(Shr(w, sh), (-len') % 8))];
    w' := w - Shl(Shr(w, sh), sh);
    k' := k - n;
  }

  /** Before the first pass nothing is written. */
  lemma WrittenStart(b0: seq<Byte>, nbit0: int, v: nat, count: int)
    requires WriterState(b0, nbit0)
    ensures Written(b0, nbit0, v, count, b0, nbit0, v, count)
  {
    assert ValueBits(v, Max0(count))[Max0(count) - Max0(count)..] == ValueBits(v, Max0(count));
  }

  /** Extending the bits after nbit0 by the next chunk of the value. */
  lemma Extend(orig: seq<bool>, before: seq<bool>, after: seq<bool>, val: seq<bool>, nbit0: int, a0: int, d: int, n: int)
    requires 0 <= a0 <= nbit0 <= |before| <= |after| && |orig| == nbit0
    requires |before| == nbit0 + d && |after| == |before| + n && 0 <= d && d + n <= |val|
    requires before[nbit0..] == val[..d]
    requires after[..|before|] == before && after[|before|..] == val[d..d + n]
    ensures after[nbit0..] == val[..d + n]
    ensures before[..a0] == orig[..a0] ==> after[..a0] == orig[..a0]
    ensures before[..nbit0] == orig ==> after[..nbit0] == orig
  {
    assert after[nbit0..] == after[..|before|][nbit0..] + after[|before|..];
    assert val[..d + n] == val[..d] + val[d..d + n];
    assert after[..a0] == after[..|before|][..a0];
    assert after[..nbit0] == after[..|before|][..nbit0];
  }

  /** One more pass keeps the state of Write consistent (the new state as a parameter). */
  lemma Advance(b0: seq<Byte>, nbit0: int, v: nat, count: int, b: seq<Byte>, nbit: int, w: nat, k: int,
                r: (seq<Byte>, int, nat, int))
    requires Written(b0, nbit0, v, count, b, nbit, w, k) && k > 0
    requires r == Step(b, nbit, w, k)
    ensures Written(b0, nbit0, v, count, r.0, r.1, r.2, r.3)
  {
    AdvanceStep(b0, nbit0, v, count, b, nbit, w, k);
  }

  /** The bits left to write are the tail of the value; a chunk splits them. */
  lemma ValueSplit(val: seq<bool>, rest: seq<bool>, c: int, k: int, n: int)
    requires 0 < n <= k <= c == |val| && |rest| == k && rest == val[c - k..]
    ensures rest[..n] == val[c - k..c - k + n] && rest[n..] == val[c - k + n..]
  {
  }

  /** One more pass keeps the state of Write consistent. */
  lemma AdvanceStep(b0: seq<Byte>, nbit0: int, v: nat, count: int, b: seq<Byte>, nbit: int, w: nat, k: int)
    requires Written(b0, nbit0, v, count, b, nbit, w, k) && k > 0
    ensures var r := Step(b, nbit, w, k); Written(b0, nbit0, v, count, r.0, r.1, r.2, r.3)
  {
    var r := Step(b, nbit, w, k);
    StepState(b, nbit, w, k);
    LowBound(w, r.3);
    AdvanceBits(b0, nbit0, v, count, b, nbit, w, k, r);
  }

  /** The bits of the new state: the prefix is kept and the next chunk of the value follows. */
  lemma AdvanceBits(b0: seq<Byte>, nbit0: int, v: nat, count: int, b: seq<Byte>, nbit: int, w: nat, k: int,
                    r: (seq<Byte>, int, nat, int))
    requires Written(b0, nbit0, v, count, b, nbit, w, k) && k > 0
    requires r == Step(b, nbit, w, k)
    ensures var c := Max0(count); var after := BitsOf(r.0, r.1);
            && after[..nbit0 - nbit0 % 8] == BitsOf(b0, nbit0)[..nbit0 - nbit0 % 8]
            && after[nbit0..] == ValueBits(v, c)[..c - r.3]
            && ValueBits(r.2, r.3) == ValueBits(v, c)[c - r.3..]
            && (v < Pow2(c) ==> after[..nbit0] == BitsOf(b0, nbit0))
  {
    var c := Max0(count);
    var n := r.1 - nbit;
    var val := ValueBits(v, c);
    ValueSplit(val, ValueBits(w, k), c, k, n);
    ValueBitsLow(w, r.3, k);
    if w < Pow2(k) {
      AdvanceFits(b0, nbit0, v, count, b, nbit, w, k, r);
    } else {
      StepKeeps(b, nbit, w, k);
      StepAppends(b, nbit, w, k);
      assert k == count && w == v && nbit == nbit0;
    }
  }

  /** AdvanceBits for a chunk of a value that fits its width. */
  lemma AdvanceFits(b0: seq<Byte>, nbit0: int, v: nat, count: int, b: seq<Byte>, nbit: int, w: nat, k: int,
                    r: (seq<Byte>, int, nat, int))
    requires Written(b0, nbit0, v, count, b, nbit, w, k) && k > 0 && w < Pow2(k)
    requires r == Step(b, nbit, w, k)
    requires var c := Max0(count); ValueBits(w, k)[..r.1 - nbit] == ValueBits(v, c)[c - k..c - k + (r.1 - nbit)]
    ensures var c := Max0(count); var after := BitsOf(r.0, r.1);
            && after[..nbit0 - nbit0 % 8] == BitsOf(b0, nbit0)[..nbit0 - nbit0 % 8]
            && after[nbit0..] == ValueBits(v, c)[..c - r.3]
            && (v < Pow2(c) ==> after[..nbit0] == BitsOf(b0, nbit0))
  {
    var c := Max0(count);
    var n := r.1 - nbit;
    StepAppends(b, nbit, w, k);
    StepKeepsAll(b, nbit, w, k);
    var orig, before, after := BitsOf(b0, nbit0), BitsOf(b, nbit), BitsOf(r.0, r.1);
    Extend(orig, before, after, ValueBits(v, c), nbit0, nbit0 - nbit0 % 8, c - k, n);
  }

}
