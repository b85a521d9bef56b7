/**
 * The order in which lplan hands out the free cells of a symbol: column
 * pairs from the right edge to the left, the first pair upward, the next
 * downward and so on, the right cell of each row before the left, and the
 * vertical timing column 6 skipped (section 7.7.3 of ISO/IEC 18004).
 *
 * Sweep step t visits Cell(siz, t); Pos inverts Cell on every cell outside
 * column 6. Rank(g, siz, t) counts the free cells (role 0 in the pixel map
 * g) that the first t steps visit: the free cell visited at step t receives
 * stream pixel Rank(g, siz, t).
 */
module Sweep {
  import opened Pixels
  import opened Interleave

  /** A symbol side the sweep handles: odd, so that the pair holding column 7 is swept upward. */
  predicate SweepSide(siz: int)
  {
    siz >= 9 && siz % 4 == 1
  }

  /** The number of column pairs: every column but column 6. */
  function Pairs(siz: int): int
  {
    (siz - 1) / 2
  }

  /** The first sweep step of pair q: 2 * siz steps for each pair before it. */
  function Base(siz: int, q: int): (b: int)
    ensures 0 <= siz ==> 0 <= b
    decreases q
  {
    if q <= 0 then 0 else Base(siz, q - 1) + 2 * siz
  }

  /** Pair q + 1 starts 2 * siz steps after pair q. */
  lemma BaseNext(siz: int, q: int)
    requires 0 <= q
    ensures Base(siz, q + 1) == Base(siz, q) + 2 * siz
  {
  }

  /** Base never decreases with q. */
  lemma {:induction false} BaseMono(siz: int, q: int, p: int)
    requires 0 <= siz && 0 <= q <= p
    ensures Base(siz, q) <= Base(siz, p)
    decreases p
  {
    if q < p {
      BaseMono(siz, q, p - 1);
    }
  }

  /** The number of sweep steps: two cells for each row of each pair. */
  function Steps(siz: int): int
  {
    Base(siz, Pairs(siz))
  }

  /** The right column of pair q: columns from the right edge, shifted by one past column 6. */
  function PairCol(siz: int, q: int): int
  {
    if siz - 1 - 2 * q >= 7 then siz - 1 - 2 * q else siz - 2 - 2 * q
  }

  /** The row of step r within pair q: even pairs go up from the bottom, odd ones down. */
  function Row(siz: int, q: int, r: int): int
  {
    if q % 2 == 0 then siz - 1 - r else r
  }

  /** The pair that sweep step t belongs to: one more for every 2 * siz steps. */
  function PairOf(siz: int, t: int): (q: int)
    requires siz >= 1 && t >= 0
    ensures q >= 0
    decreases t
  {
    if t < 2 * siz then 0 else PairOf(siz, t - 2 * siz) + 1
  }

  /** The cell (row, column) that sweep step t visits. */
  function Cell(siz: int, t: int): (int, int)
    requires siz >= 1 && t >= 0
  {
    var q := PairOf(siz, t);
    var w := t - Base(siz, q);
    (Row(siz, q, w / 2), PairCol(siz, q) - w % 2)
  }

  /** The sweep step that visits row y, column x (x != 6). */
  function Pos(siz: int, y: int, x: int): int
  {
    var c := if x > 6 then siz - 1 - x else siz - 2 - x;
    var q, side := c / 2, c % 2;
    Base(siz, q) + 2 * (if q % 2 == 0 then siz - 1 - y else y) + side
  }

  /** The steps Base(q) to Base(q) + 2 * siz - 1 belong to pair q. */
  lemma {:induction false} PairOfBase(siz: int, q: int, w: int)
    requires siz >= 1 && 0 <= q && 0 <= w < 2 * siz
    ensures PairOf(siz, Base(siz, q) + w) == q
    decreases q
  {
    if q > 0 {
      PairOfBase(siz, q - 1, w);
    }
  }

  /** Step 2 * r + side of pair q visits row Row(q, r) of column PairCol(q) - side. */
  lemma CellOf(siz: int, q: int, r: int, side: int, t: int)
    requires siz >= 1 && 0 <= q && 0 <= r < siz && 0 <= side <= 1 && t == Base(siz, q) + (2 * r + side)
    ensures t >= 0 && Cell(siz, t) == (Row(siz, q, r), PairCol(siz, q) - side)
  {
    PairOfBase(siz, q, 2 * r + side);
  }

  /** The steps of pairs 0 to Pairs - 1 are the steps below Steps. */
  lemma StepRange(siz: int, q: int, r: int, side: int, t: int)
    requires siz >= 1 && 0 <= q < Pairs(siz) && 0 <= r < siz && 0 <= side <= 1 && t == Base(siz, q) + (2 * r + side)
    ensures 0 <= t < Steps(siz)
  {
    BaseNext(siz, q);
    BaseMono(siz, q + 1, Pairs(siz));
  }

  /**
   * Every cell outside column 6 is visited by exactly one sweep step:
   * Pos(y, x) is a step and Cell gives the cell back.
   */
  lemma CellPos(siz: int, y: int, x: int)
    requires SweepSide(siz) && 0 <= y < siz && 0 <= x < siz && x != 6
    ensures 0 <= Pos(siz, y, x) < Steps(siz)
    ensures Cell(siz, Pos(siz, y, x)) == (y, x)
  {
    var q, r, side := PosParts(siz, y, x);
    CellOf(siz, q, r, side, Pos(siz, y, x));
    StepRange(siz, q, r, side, Pos(siz, y, x));
  }

  /** Pos(y, x) is step 2 * r + side of pair q, where that step visits row y, column x. */
  lemma PosParts(siz: int, y: int, x: int) returns (q: int, r: int, side: int)
    requires SweepSide(siz) && 0 <= y < siz && 0 <= x < siz && x != 6
    ensures 0 <= q < Pairs(siz) && 0 <= r < siz && 0 <= side <= 1
    ensures Row(siz, q, r) == y && PairCol(siz, q) - side == x
    ensures Pos(siz, y, x) == Base(siz, q) + (2 * r + side)
  {
    var c := if x > 6 then siz - 1 - x else siz - 2 - x;
    q, side := c / 2, c % 2;
    r := if q % 2 == 0 then siz - 1 - y else y;
    var m := siz / 4;
    assert siz == 4 * m + 1;
    assert Pairs(siz) == 2 * m by {
      assert siz - 1 == 2 * (2 * m);
    }
    assert c == 2 * q + side;
    if x == 5 {
      assert c == 2 * (2 * m - 3);
    }
    PosIs(siz, y, x, q, side);
  }

  lemma PosIs(siz: int, y: int, x: int, q: int, side: int)
    requires var c := if x > 6 then siz - 1 - x else siz - 2 - x; q == c / 2 && side == c % 2
    ensures Pos(siz, y, x) == Base(siz, q) + (2 * (if q % 2 == 0 then siz - 1 - y else y) + side)
  {
  }

  /** Sweep step t visits row y, column x exactly when Pos(y, x) == t. */
  lemma PosUnique(siz: int, y: int, x: int, y': int, x': int)
    requires SweepSide(siz) && 0 <= y < siz && 0 <= x < siz && x != 6
    requires 0 <= y' < siz && 0 <= x' < siz && x' != 6
    requires Pos(siz, y, x) == Pos(siz, y', x')
    ensures y == y' && x == x'
  {
    CellPos(siz, y, x);
    CellPos(siz, y', x');
  }

  /** Step t lies in the 2 * siz steps of pair PairOf(t). */
  lemma {:induction false} PairOfBounds(siz: int, t: int)
    requires siz >= 1 && t >= 0
    ensures Base(siz, PairOf(siz, t)) <= t < Base(siz, PairOf(siz, t)) + 2 * siz
    decreases t
  {
    if t >= 2 * siz {
      PairOfBounds(siz, t - 2 * siz);
      BaseNext(siz, PairOf(siz, t - 2 * siz));
    }
  }

  /**
   * Every sweep step visits a cell of the symbol outside column 6, and Pos
   * gives the step back: Cell and Pos are inverse bijections between the
   * steps and the cells outside column 6.
   */
  lemma StepCell(siz: int, t: int) returns (y: int, x: int)
    requires SweepSide(siz) && 0 <= t < Steps(siz)
    ensures (y, x) == Cell(siz, t)
    ensures 0 <= y < siz && 0 <= x < siz && x != 6
    ensures Pos(siz, y, x) == t
  {
    var q := PairOf(siz, t);
    PairOfBounds(siz, t);
    if q >= Pairs(siz) {
      BaseMono(siz, Pairs(siz), q);
    }
    var w := t - Base(siz, q);
    var r, side := w / 2, w % 2;
    CellOf(siz, q, r, side, t);
    y, x := Cell(siz, t).0, Cell(siz, t).1;
    var m := siz / 4;
    assert siz == 4 * m + 1;
    assert Pairs(siz) == 2 * m by {
      assert siz - 1 == 2 * (2 * m);
    }
    assert siz - 1 - 2 * q != 7 by {
      assert siz - 1 - 2 * q == 2 * (2 * m - q);
    }
    var c := if x > 6 then siz - 1 - x else siz - 2 - x;
    assert c == 2 * q + side;
    PosIs(siz, y, x, q, side);
  }

  /** The pixel map g is a square of side siz. */
  ghost predicate Square(g: seq<seq<Pixel>>, siz: int)
  {
    |g| == siz && forall y :: 0 <= y < siz ==> |g[y]| == siz
  }

  /** Row y, column x of g is free: no role yet. */
  predicate Free(g: seq<seq<Pixel>>, y: int, x: int)
  {
    0 <= y < |g| && 0 <= x < |g[y]| && Role(g[y][x]) == 0
  }

  /** Which sweep steps visit a free cell of g, step by step. */
  ghost function FreeSteps(g: seq<seq<Pixel>>, siz: int): (vs: seq<bool>)
    requires siz >= 1
    ensures Visits(vs, g, siz)
  {
    seq(Steps(siz), t requires 0 <= t => Free(g, Cell(siz, t).0, Cell(siz, t).1))
  }

  /** vs records, for every sweep step, whether the cell it visits is free in g. */
  ghost predicate Visits(vs: seq<bool>, g: seq<seq<Pixel>>, siz: int)
    requires siz >= 1
  {
    && |vs| == Steps(siz)
    && forall t {:trigger Cell(siz, t)} :: 0 <= t < |vs| ==> vs[t] == Free(g, Cell(siz, t).0, Cell(siz, t).1)
  }

  /** The number of free cells among the first t sweep steps: the rank in the stream of step t's pixel. */
  function Count(vs: seq<bool>, t: int): (n: nat)
    requires 0 <= t <= |vs|
    ensures n <= t
  {
    if t == 0 then 0 else Count(vs, t - 1) + (if vs[t - 1] then 1 else 0)
  }

  /** The count of free cells never decreases along the sweep. */
  lemma {:induction false} CountMono(vs: seq<bool>, t: int, u: int)
    requires 0 <= t <= u <= |vs|
    ensures Count(vs, t) <= Count(vs, u)
    decreases u
  {
    if t < u {
      CountMono(vs, t, u - 1);
    }
  }

  /** Every rank below Count(vs, u) is the count at some free step before u. */
  lemma {:induction false} CountRank(vs: seq<bool>, u: int, k: int) returns (t: int)
    requires 0 <= u <= |vs| && 0 <= k < Count(vs, u)
    ensures 0 <= t < u && vs[t] && Count(vs, t) == k
    decreases u
  {
    if k < Count(vs, u - 1) {
      t := CountRank(vs, u - 1, k);
    } else {
      t := u - 1;
    }
  }

  /** Over a run of steps that are all free, or all not, the count grows by the run's length, or not at all. */
  lemma {:induction false} CountRun(vs: seq<bool>, a: int, b: int, c: bool)
    requires 0 <= a <= b <= |vs|
    requires forall t :: a <= t < b ==> vs[t] == c
    ensures Count(vs, b) == Count(vs, a) + if c then b - a else 0
    decreases b
  {
    if a < b {
      CountRun(vs, a, b - 1, c);
    }
  }

  /** A free cell visited at step t is counted before every later step. */
  lemma CountStrict(vs: seq<bool>, t: int, u: int)
    requires 0 <= t < u <= |vs| && vs[t]
    ensures Count(vs, t) < Count(vs, u)
  {
    CountMono(vs, t + 1, u);
  }
}
