/**
 * The imperative half of lplan: building the stream of data and check
 * pixels block by block, and sweeping it into the free cells of the pixel
 * map in the order the Sweep module defines.
 */
module Placement {
  import opened Pixels
  import opened Interleave
  import opened Sweep

  // ------------------------------------------------------------ the sweep

  /**
   * The pixel in row y, column x once the first t sweep steps have handed
   * out src over the pixel map g: a free cell visited before step t holds
   * the source pixel of its rank, every other cell its pixel in g.
   */
  ghost function Swept(g: seq<seq<Pixel>>, vs: seq<bool>, src: seq<Pixel>, siz: int, t: int, y: int, x: int): Pixel
    requires siz >= 1 && Square(g, siz) && 0 <= y < siz && 0 <= x < siz
  {
    var s := Pos(siz, y, x);
    if x != 6 && 0 <= s < t && s <= |vs| && Free(g, y, x) && Count(vs, s) < |src| then src[Count(vs, s)] else g[y][x]
  }

  /** The pixel map m after t sweep steps over g that took n pixels of src. */
  ghost predicate SweptTo(m: array2<Pixel>, g: seq<seq<Pixel>>, vs: seq<bool>, src: seq<Pixel>, t: int, n: int)
    reads m
  {
    var siz := m.Length0;
    && SweepSide(siz) && m.Length1 == siz && Square(g, siz) && Visits(vs, g, siz)
    && 0 <= t <= |vs| && n == Count(vs, t) && n <= |src|
    && forall y, x :: 0 <= y < siz && 0 <= x < siz ==> m[y, x] == Swept(g, vs, src, siz, t, y, x)
  }

  /** Sweep step t0 + 2 * r + side, where t0 == Base(siz, q), visits row Row(q, r), column PairCol(q) - side. */
  lemma PosOf(siz: int, q: int, r: int, side: int, t0: int)
    requires SweepSide(siz) && 0 <= q < Pairs(siz) && 0 <= r < siz && 0 <= side <= 1 && t0 == Base(siz, q)
    ensures 0 <= PairCol(siz, q) - side < siz && PairCol(siz, q) - side != 6
    ensures Pos(siz, Row(siz, q, r), PairCol(siz, q) - side) == t0 + (2 * r + side)
    ensures 0 <= t0 + (2 * r + side) < Steps(siz)
  {
    PosAt(siz, q, r, side);
    StepRange(siz, q, r, side, t0 + (2 * r + side));
  }

  /** Row r of pair q takes steps t and t + 1, at columns x - 1 and x - 2 of row y. */
  lemma RowSteps(siz: int, q: int, r: int, x: int, y: int, t0: int, t: int)
    requires PairAt(siz, q, x, t0) && 0 <= r < siz && y == Row(siz, q, r) && t == t0 + 2 * r
    ensures 0 <= y < siz && 0 <= x - 2 && x - 1 < siz && x - 1 != 6 && x - 2 != 6
    ensures Pos(siz, y, x - 1) == t && t < Steps(siz)
    ensures Pos(siz, y, x - 2) == t + 1 && t + 1 < Steps(siz)
  {
    PosOf(siz, q, r, 0, t0);
    PosOf(siz, q, r, 1, t0);
  }

  /** Row Row(q, r), column PairCol(q) - side is visited at step Base(q) + 2 * r + side. */
  lemma PosAt(siz: int, q: int, r: int, side: int)
    requires SweepSide(siz) && 0 <= q < Pairs(siz) && 0 <= r < siz && 0 <= side <= 1
    ensures 0 <= PairCol(siz, q) - side < siz && PairCol(siz, q) - side != 6
    ensures Pos(siz, Row(siz, q, r), PairCol(siz, q) - side) == Base(siz, q) + (2 * r + side)
  {
    var x := PairCol(siz, q) - side;
    var c := if x > 6 then siz - 1 - x else siz - 2 - x;
    assert c == 2 * q + side;
    assert c / 2 == q && c % 2 == side;
  }

  /**
   * The column arithmetic of one outer pass: from pair q (even) the upward
   * half ends two columns left, one more past column 6, at pair q + 1, and
   * the downward half ends at pair q + 2 or, after the last pair, at 0.
   */
  lemma NextColumns(siz: int, q: int, x0: int, t0: int)
    requires PairAt(siz, q, x0, t0) && q % 2 == 0
    ensures q + 1 < Pairs(siz) && q + 2 <= Pairs(siz) && Base(siz, q + 2) == t0 + 4 * siz
    ensures var x := x0 - 2; PairAt(siz, q + 1, if x == 7 then x - 1 else x, t0 + 2 * siz) && (q + 1) % 2 == 1
    ensures PairCol(siz, q + 1) + 1 - 2 == if q + 2 < Pairs(siz) then PairCol(siz, q + 2) + 1 else 0
  {
    BaseNext(siz, q);
    BaseNext(siz, q + 1);
  }

  /** Pair q starts at sweep step t0 and its right column is x - 1. */
  ghost predicate PairAt(siz: int, q: int, x: int, t0: int)
  {
    SweepSide(siz) && 0 <= q < Pairs(siz) && x == PairCol(siz, q) + 1 && t0 == Base(siz, q)
  }

  /** Before the first step the map is still g and nothing is taken. */
  lemma SweepStart(m: array2<Pixel>, g: seq<seq<Pixel>>, vs: seq<bool>, src: seq<Pixel>)
    requires SweepSide(m.Length0) && m.Length1 == m.Length0 && Square(g, m.Length0) && Visits(vs, g, m.Length0)
    requires forall y, x :: 0 <= y < m.Length0 && 0 <= x < m.Length0 ==> m[y, x] == g[y][x]
    ensures SweptTo(m, g, vs, src, 0, 0)
  {
  }

  /**
   * One step of the sweep at row y, column x: a free cell takes the next
   * source pixel. Running out of source pixels (an index out of range in the
   * source) is reported as failure; it means the sweep holds more free cells
   * than there are source pixels.
   */
  method Place(m: array2<Pixel>, ghost g: seq<seq<Pixel>>, ghost vs: seq<bool>, src: seq<Pixel>, n0: int, y: int, x: int, ghost t: int)
    returns (n: int, ok: bool)
    requires SweptTo(m, g, vs, src, t, n0) && t < Steps(m.Length0)
    requires 0 <= y < m.Length0 && 0 <= x < m.Length0 && x != 6 && Pos(m.Length0, y, x) == t
    modifies m
    ensures ok ==> SweptTo(m, g, vs, src, t + 1, n)
    ensures !ok ==> Count(vs, |vs|) > |src|
  {
    var siz := m.Length0;
    CellPos(siz, y, x);
    n, ok := n0, true;
    if Role(m[y, x]) == 0 {
      if n < |src| {
        m[y, x] := src[n];
        n := n + 1;
      } else {
        ok := false;
        CountMono(vs, t + 1, |vs|);
        return;
      }
    }
    forall i, j | 0 <= i < siz && 0 <= j < siz
      ensures m[i, j] == Swept(g, vs, src, siz, t + 1, i, j)
    {
      if j != 6 && Pos(siz, i, j) == t {
        PosUnique(siz, i, j, y, x);
      }
    }
  }

  /** Row y of pair q: column x - 1 then column x - 2, at sweep steps t and t + 1. */
  method PlaceRow(m: array2<Pixel>, ghost g: seq<seq<Pixel>>, ghost vs: seq<bool>, src: seq<Pixel>, n0: int, y: int, x: int,
                  ghost q: int, ghost r: int, ghost t0: int, ghost t: int)
    returns (n: int, ok: bool)
    requires SweptTo(m, g, vs, src, t, n0) && PairAt(m.Length0, q, x, t0) && t == t0 + 2 * r
    requires 0 <= r < m.Length0 && y == Row(m.Length0, q, r)
    modifies m
    ensures ok ==> SweptTo(m, g, vs, src, t + 2, n)
    ensures !ok ==> Count(vs, |vs|) > |src|
  {
    RowSteps(m.Length0, q, r, x, y, t0, t);
    n, ok := Place(m, g, vs, src, n0, y, x - 1, t);
    if !ok {
      return;
    }
    n, ok := Place(m, g, vs, src, n, y, x - 2, t + 1);
  }

  /** The upward half of an outer pass: pair q, column x - 1 then x - 2 of each row from the bottom. */
  method SweepUp(m: array2<Pixel>, ghost g: seq<seq<Pixel>>, ghost vs: seq<bool>, src: seq<Pixel>, n0: int, x: int, ghost q: int, ghost t0: int)
    returns (n: int, ok: bool)
    requires SweptTo(m, g, vs, src, t0, n0) && PairAt(m.Length0, q, x, t0) && q % 2 == 0
    modifies m
    ensures ok ==> SweptTo(m, g, vs, src, t0 + 2 * m.Length0, n)
    ensures !ok ==> Count(vs, |vs|) > |src|
  {
    var siz := m.Length0;
    n, ok := n0, true;
    var y := siz - 1;
    ghost var t := t0;
    while y >= 0
      invariant -1 <= y < siz && t == t0 + 2 * (siz - 1 - y)
      invariant SweptTo(m, g, vs, src, t, n)
    {
      n, ok := PlaceRow(m, g, vs, src, n, y, x, q, siz - 1 - y, t0, t);
      if !ok {
        return;
      }
      y, t := y - 1, t + 2;
    }
  }

  /** The downward half of an outer pass: pair q, column x - 1 then x - 2 of each row from the top. */
  method SweepDown(m: array2<Pixel>, ghost g: seq<seq<Pixel>>, ghost vs: seq<bool>, src: seq<Pixel>, n0: int, x: int, ghost q: int, ghost t0: int)
    returns (n: int, ok: bool)
    requires SweptTo(m, g, vs, src, t0, n0) && PairAt(m.Length0, q, x, t0) && q % 2 == 1
    modifies m
    ensures ok ==> SweptTo(m, g, vs, src, t0 + 2 * m.Length0, n)
    ensures !ok ==> Count(vs, |vs|) > |src|
  {
    var siz := m.Length0;
    n, ok := n0, true;
    var y := 0;
    ghost var t := t0;
    while y < siz
      invariant 0 <= y <= siz && t == t0 + 2 * y
      invariant SweptTo(m, g, vs, src, t, n)
    {
      n, ok := PlaceRow(m, g, vs, src, n, y, x, q, y, t0, t);
      if !ok {
        return;
      }
      y, t := y + 1, t + 2;
    }
  }

  /**
   * One outer pass of the sweep: up pair q (even), then down pair q + 1,
   * leaving x at the right column of pair q + 2 plus one, or 0 after the last pair.
   */
  method SweepPass(m: array2<Pixel>, ghost g: seq<seq<Pixel>>, ghost vs: seq<bool>, src: seq<Pixel>, n0: int, x0: int, ghost q: int, ghost t0: int)
    returns (n: int, x: int, ok: bool)
    requires SweptTo(m, g, vs, src, t0, n0) && PairAt(m.Length0, q, x0, t0) && q % 2 == 0
    modifies m
    ensures q + 2 <= Pairs(m.Length0) && Base(m.Length0, q + 2) == t0 + 4 * m.Length0
    ensures ok ==> x == if q + 2 < Pairs(m.Length0) then PairCol(m.Length0, q + 2) + 1 else 0
    ensures ok ==> SweptTo(m, g, vs, src, t0 + 4 * m.Length0, n)
    ensures !ok ==> Count(vs, |vs|) > |src|
  {
    var siz := m.Length0;
    NextColumns(siz, q, x0, t0);
    x := x0;
    n, ok := SweepUp(m, g, vs, src, n0, x, q, t0);
    if !ok {
      return;
    }
    x := x - 2;
    if x == 7 {
      x := x - 1;
    }
    ghost var t1 := t0 + 2 * m.Length0;
    n, ok := SweepDown(m, g, vs, src, n, x, q + 1, t1);
    x := x - 2;
    assert t1 + 2 * m.Length0 == t0 + 4 * m.Length0;
  }

  /**
   * The sweep of lplan: from the right edge, up one pair of columns and down
   * the next, stepping over column 6. Every free cell takes the source pixel
   * of its rank; it fails exactly when the free cells outnumber the source.
   */
  method SweepColumns(m: array2<Pixel>, ghost g: seq<seq<Pixel>>, ghost vs: seq<bool>, src: seq<Pixel>) returns (ok: bool)
    requires SweepSide(m.Length0) && m.Length1 == m.Length0 && Square(g, m.Length0) && Visits(vs, g, m.Length0)
    requires forall y, x :: 0 <= y < m.Length0 && 0 <= x < m.Length0 ==> m[y, x] == g[y][x]
    modifies m
    ensures ok <==> Count(vs, |vs|) <= |src|
    ensures ok ==> forall y, x :: 0 <= y < m.Length0 && 0 <= x < m.Length0 ==>
                     m[y, x] == Swept(g, vs, src, m.Length0, Steps(m.Length0), y, x)
  {
    var siz := m.Length0;
    var n := 0;
    ghost var q, t0 := 0, 0;
    var x := siz;
    SweepStart(m, g, vs, src);
    while x > 0
      invariant 0 <= q <= Pairs(siz) && q % 2 == 0 && t0 == Base(siz, q)
      invariant x == if q < Pairs(siz) then PairCol(siz, q) + 1 else 0
      invariant SweptTo(m, g, vs, src, t0, n)
      decreases Pairs(siz) - q
    {
      n, x, ok := SweepPass(m, g, vs, src, n, x, q, t0);
      if !ok {
        return;
      }
      q, t0 := q + 2, t0 + 4 * siz;
    }
    assert q == Pairs(siz);
    ok := true;
  }

  // ------------------------------------------------------------ the swept map

  /** Every cell of the swept map has a role, when column 6 and every source pixel have one. */
  lemma SweptNoneFree(g: seq<seq<Pixel>>, vs: seq<bool>, src: seq<Pixel>, siz: int, y: int, x: int)
    requires SweepSide(siz) && Square(g, siz) && Visits(vs, g, siz) && Count(vs, |vs|) <= |src|
    requires forall i :: 0 <= i < siz ==> !Free(g, i, 6)
    requires forall i :: 0 <= i < |src| ==> Role(src[i]) != 0
    requires 0 <= y < siz && 0 <= x < siz
    ensures Role(Swept(g, vs, src, siz, Steps(siz), y, x)) != 0
  {
    if Free(g, y, x) {
      var s := Taken(g, vs, siz, y, x);
      CountStrict(vs, s, |vs|);
    }
  }

  /** A free cell outside column 6 is visited at a step of the sweep, and that step counts as free. */
  lemma Taken(g: seq<seq<Pixel>>, vs: seq<bool>, siz: int, y: int, x: int) returns (s: int)
    requires SweepSide(siz) && Visits(vs, g, siz) && 0 <= y < siz && 0 <= x < siz && x != 6 && Free(g, y, x)
    ensures s == Pos(siz, y, x) && 0 <= s < |vs| && vs[s]
  {
    s := Pos(siz, y, x);
    CellPos(siz, y, x);
  }

  /**
   * Every source pixel of rank below the number of free cells lands in a
   * free cell outside column 6: the sweep hands out src[..Count] onto the
   * free cells.
   */
  lemma SweptCovers(g: seq<seq<Pixel>>, vs: seq<bool>, src: seq<Pixel>, siz: int, i: int) returns (y: int, x: int)
    requires SweepSide(siz) && Square(g, siz) && Visits(vs, g, siz)
    requires 0 <= i < Count(vs, |vs|) && i < |src|
    ensures 0 <= y < siz && 0 <= x < siz && x != 6 && Free(g, y, x)
    ensures Swept(g, vs, src, siz, Steps(siz), y, x) == src[i]
  {
    var t := CountRank(vs, |vs|, i);
    y, x := StepCell(siz, t);
  }

  /** Two different free cells take different source pixels. */
  lemma SweptApart(g: seq<seq<Pixel>>, vs: seq<bool>, siz: int, y: int, x: int, y': int, x': int)
    requires SweepSide(siz) && Visits(vs, g, siz)
    requires 0 <= y < siz && 0 <= x < siz && x != 6 && Free(g, y, x)
    requires 0 <= y' < siz && 0 <= x' < siz && x' != 6 && Free(g, y', x')
    requires (y, x) != (y', x')
    ensures 0 <= Pos(siz, y, x) < |vs| && 0 <= Pos(siz, y', x') < |vs|
    ensures Count(vs, Pos(siz, y, x)) != Count(vs, Pos(siz, y', x'))
  {
    var s := Taken(g, vs, siz, y, x);
    var s' := Taken(g, vs, siz, y', x');
    if s == s' {
      PosUnique(siz, y, x, y', x');
    } else if s < s' {
      CountStrict(vs, s, s');
    } else {
      CountStrict(vs, s', s);
    }
  }
}
