/**
 * The capacity of the smallest symbol: vplan leaves exactly 208 cells of a
 * version-1 symbol free, as many as the 26 bytes of that version have bits,
 * so the level stream fits the free cells and fills every one of them.
 */
module Capacity {
  import opened Tables
  import opened Pixels
  import opened Layout
  import opened Sweep
  import opened LevelPlan
  import Fmt = Format

  /**
   * The free cells of a version-1 symbol: columns 9 to 12 outside the
   * timing row, rows 9 to 20 right of the top-right box, and rows 9 to 12
   * left of column 9 outside the timing column.
   */
  predicate FreeOne(y: int, x: int)
  {
    || (9 <= x <= 12 && 0 <= y < 21 && y != 6)
    || (13 <= x < 21 && 9 <= y < 21)
    || (0 <= x <= 8 && x != 6 && 9 <= y <= 12)
  }

  /** Version 1 has one candidate alignment box, at (4, 4), and it is skipped for the top-left box. */
  lemma NoAlignOne(y: int, x: int)
    ensures !AlignBefore(Vtab(1), 21, AlignCount(Vtab(1), 21), AlignCount(Vtab(1), 21), false, y, x)
  {
    assert AlignCount(Vtab(1), 21) == 1;
  }

  /** A cell of a version-1 symbol is left free by vplan exactly when FreeOne holds. */
  lemma FreeCellsOne(y: int, x: int)
    requires 0 <= y < 21 && 0 <= x < 21
    ensures Role(FixedPixel(1, y, x)) == 0 <==> FreeOne(y, x)
  {
    NoAlignOne(y, x);
    var i := Fmt.FormatIndex(21, y, x);
    if i >= 0 {
      PackExact(Format, i);
    }
  }

  /** vs marks the sweep steps of a version-1 symbol that visit a cell FreeOne holds for. */
  ghost predicate SweepsOne(vs: seq<bool>)
  {
    |vs| == 420 && forall t :: 0 <= t < 420 ==> vs[t] == FreeOne(Cell(21, t).0, Cell(21, t).1)
  }

  /** The free steps of the map vplan leaves for version 1 are the steps FreeOne marks. */
  lemma FreeStepsOne()
    ensures SweepsOne(FreeSteps(LaidGrid(1), 21))
  {
    var g, vs := LaidGrid(1), FreeSteps(LaidGrid(1), 21);
    BaseOne(10);
    forall t | 0 <= t < 420
      ensures vs[t] == FreeOne(Cell(21, t).0, Cell(21, t).1)
    {
      var y, x := StepCell(21, t);
      FreeCellsOne(y, x);
    }
  }

  /** Pair q of a version-1 symbol starts at step 42 q. */
  lemma {:induction false} BaseOne(q: int)
    requires 0 <= q
    ensures Base(21, q) == 42 * q
    decreases q
  {
    if q > 0 {
      BaseOne(q - 1);
    }
  }

  /** Rows r0 to r1 - 1 of pair q of a version-1 symbol, both columns of each, are all free or all claimed. */
  lemma RunOne(vs: seq<bool>, q: int, r0: int, r1: int, c: bool)
    requires SweepsOne(vs) && 0 <= q < 10 && 0 <= r0 <= r1 <= 21
    requires forall r :: r0 <= r < r1 ==>
      FreeOne(Row(21, q, r), PairCol(21, q)) == c && FreeOne(Row(21, q, r), PairCol(21, q) - 1) == c
    ensures 0 <= 42 * q + 2 * r0 <= 42 * q + 2 * r1 <= 420
    ensures Count(vs, 42 * q + 2 * r1) == Count(vs, 42 * q + 2 * r0) + if c then 2 * (r1 - r0) else 0
  {
    BaseOne(q);
    forall t | 42 * q + 2 * r0 <= t < 42 * q + 2 * r1
      ensures vs[t] == c
    {
      var w := t - 42 * q;
      CellOf(21, q, w / 2, w % 2, t);
    }
    CountRun(vs, 42 * q + 2 * r0, 42 * q + 2 * r1, c);
  }

  /** The free cells of each pair of a version-1 symbol: the runs of rows of RunOne, added up. */
  function PairFreeOne(q: int): int
  {
    if q < 4 then 24 else if q < 6 then 40 else 8
  }

  /** Pairs 0 and 2 run upward through columns 13 to 20: the 12 rows from the bottom are free, the 9 above them are not. */
  lemma RightUpOne(vs: seq<bool>, q: int)
    requires SweepsOne(vs) && (q == 0 || q == 2)
    ensures 42 * q + 42 <= 420
    ensures Count(vs, 42 * q + 42) == Count(vs, 42 * q) + PairFreeOne(q)
  {
    RunOne(vs, q, 0, 12, true);
    RunOne(vs, q, 12, 21, false);
  }

  /** Pairs 1 and 3 run downward through columns 13 to 20: the top 9 rows are claimed, the 12 below them free. */
  lemma RightDownOne(vs: seq<bool>, q: int)
    requires SweepsOne(vs) && (q == 1 || q == 3)
    ensures 42 * q + 42 <= 420
    ensures Count(vs, 42 * q + 42) == Count(vs, 42 * q) + PairFreeOne(q)
  {
    RunOne(vs, q, 0, 9, false);
    RunOne(vs, q, 9, 21, true);
  }

  /** The steps of the two pairs between the top boxes: every row but the timing row. */
  lemma MiddlePairsOne(vs: seq<bool>, q: int)
    requires SweepsOne(vs) && 4 <= q < 6
    ensures 42 * q + 42 <= 420
    ensures Count(vs, 42 * q + 42) == Count(vs, 42 * q) + PairFreeOne(q)
  {
    if q == 4 {
      RunOne(vs, 4, 0, 14, true);
      RunOne(vs, 4, 14, 15, false);
      RunOne(vs, 4, 15, 21, true);
    } else {
      RunOne(vs, 5, 0, 6, true);
      RunOne(vs, 5, 6, 7, false);
      RunOne(vs, 5, 7, 21, true);
    }
  }

  /** Pairs 6 and 8 run upward left of column 9: only rows 12 down to 9 are free. */
  lemma LeftUpOne(vs: seq<bool>, q: int)
    requires SweepsOne(vs) && (q == 6 || q == 8)
    ensures 42 * q + 42 <= 420
    ensures Count(vs, 42 * q + 42) == Count(vs, 42 * q) + PairFreeOne(q)
  {
    RunOne(vs, q, 0, 8, false);
    RunOne(vs, q, 8, 12, true);
    RunOne(vs, q, 12, 21, false);
  }

  /** Pairs 7 and 9 run downward left of column 6: only rows 9 to 12 are free. */
  lemma LeftDownOne(vs: seq<bool>, q: int)
    requires SweepsOne(vs) && (q == 7 || q == 9)
    ensures 42 * q + 42 <= 420
    ensures Count(vs, 42 * q + 42) == Count(vs, 42 * q) + PairFreeOne(q)
  {
    RunOne(vs, q, 0, 9, false);
    RunOne(vs, q, 9, 13, true);
    RunOne(vs, q, 13, 21, false);
  }

  /** Steps marked as SweepsOne marks them count 208. */
  lemma CountOne(vs: seq<bool>)
    requires SweepsOne(vs)
    ensures Count(vs, 420) == 208
  {
    RightUpOne(vs, 0);
    RightDownOne(vs, 1);
    RightUpOne(vs, 2);
    RightDownOne(vs, 3);
    MiddlePairsOne(vs, 4);
    MiddlePairsOne(vs, 5);
    LeftUpOne(vs, 6);
    LeftDownOne(vs, 7);
    LeftUpOne(vs, 8);
    LeftDownOne(vs, 9);
  }

  /**
   * The sweep of a version-1 symbol visits 208 free cells: 24 in each of
   * the four pairs right of the top-right box's left edge, 40 in each of
   * the two pairs between the top boxes, and 8 in each of the four pairs
   * between the left boxes.
   */
  lemma FreeCountOne()
    ensures Count(FreeSteps(LaidGrid(1), 21), Steps(21)) == 208
  {
    BaseOne(10);
    FreeStepsOne();
    CountOne(FreeSteps(LaidGrid(1), 21));
  }

  /**
   * In a version-1 symbol the free cells number exactly the 208 bits of its
   * 26 bytes, at every level: the stream fits, and every data and check bit
   * finds a cell.
   */
  lemma FitsOne(l: int)
    requires ValidLevel(l)
    ensures Count(FreeSteps(LaidGrid(1), Side(1)), Steps(Side(1))) == 8 * Vtab(1).bytes
    ensures Fits(1, l) && Covers(1)
  {
    FreeCountOne();
  }
}
