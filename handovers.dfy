/**
 * The hysteresis rule that decides when a player changes owner cell (Go file
 * `backend/internal/sim/handovers.go`). The state change that uses it,
 * `checkAndHandoverLocked`, lives in the `Engine` class of module `Engine`.
 */
module Handovers {
  import opened Spatial

  /**
   * `pos` lies at least `h` past the border of `from` that a move to `to`
   * crosses. The X axis decides whenever the column changes; the Z axis is
   * consulted only for a move within the same column.
   */
  function CrossedBeyondHysteresis(pos: Vec2, from: CellKey, to: CellKey, cellSize: real, h: real): (r: bool)
    ensures r ==> from != to
  {
    if to.cx > from.cx then pos.x >= (from.cx + 1) as real * cellSize + h
    else if to.cx < from.cx then pos.x <= from.cx as real * cellSize - h
    else if to.cz > from.cz then pos.z >= (from.cz + 1) as real * cellSize + h
    else if to.cz < from.cz then pos.z <= from.cz as real * cellSize - h
    else false
  }

  /** A larger hysteresis is harder to clear: crossing with `h2` implies crossing with any smaller `h1`. */
  lemma CrossedMonotone(pos: Vec2, from: CellKey, to: CellKey, cellSize: real, h1: real, h2: real)
    requires h1 <= h2
    requires CrossedBeyondHysteresis(pos, from, to, cellSize, h2)
    ensures CrossedBeyondHysteresis(pos, from, to, cellSize, h1)
  {
  }

  /** With a positive hysteresis a crossing position is never inside the cell it leaves. */
  lemma CrossedLeavesCell(pos: Vec2, from: CellKey, to: CellKey, cellSize: real, h: real)
    requires h > 0.0
    requires CrossedBeyondHysteresis(pos, from, to, cellSize, h)
    ensures !InsideCell(pos, from, cellSize)
  {
  }

  /**
   * Without hysteresis the rule agrees with the grid: whenever the position's
   * own cell differs from `from`, the move counts as crossed.
   */
  lemma CrossedWithoutHysteresis(pos: Vec2, from: CellKey, cellSize: real)
    requires cellSize > 0.0
    requires CellOf(pos, cellSize) != from
    ensures CrossedBeyondHysteresis(pos, from, CellOf(pos, cellSize), cellSize, 0.0)
  {
    var to := CellOf(pos, cellSize);
    var w := WorldToCell(pos.x, pos.z, cellSize);
    assert to.cx == w.0 && to.cz == w.1;
    if to.cx > from.cx {
      PastUpperBorder(from.cx, to.cx, cellSize, pos.x);
    } else if to.cx < from.cx {
      PastLowerBorder(from.cx, to.cx, cellSize, pos.x);
    } else if to.cz > from.cz {
      PastUpperBorder(from.cz, to.cz, cellSize, pos.z);
    } else {
      PastLowerBorder(from.cz, to.cz, cellSize, pos.z);
    }
  }

  /** A coordinate in a later cell lies at or past the upper border of an earlier one. */
  lemma PastUpperBorder(a: int, b: int, s: real, x: real)
    requires a < b && s > 0.0
    requires b as real * s <= x
    ensures (a + 1) as real * s <= x
  {
    MulMono((a + 1) as real, b as real, s);
  }

  /** A coordinate in an earlier cell lies before the lower border of a later one. */
  lemma PastLowerBorder(a: int, b: int, s: real, x: real)
    requires b < a && s > 0.0
    requires x < (b + 1) as real * s
    ensures x <= a as real * s
  {
    MulMono((b + 1) as real, a as real, s);
  }

  /** Cell size 10 and hysteresis 2 around cell (0, 0): 1.9 past a border is not enough, 2.0 is, in all four directions. */
  lemma HysteresisBoundaries()
    ensures !CrossedBeyondHysteresis(Vec2(11.9, 0.0), CellKey(0, 0), CellKey(1, 0), 10.0, 2.0)
    ensures CrossedBeyondHysteresis(Vec2(12.0, 0.0), CellKey(0, 0), CellKey(1, 0), 10.0, 2.0)
    ensures !CrossedBeyondHysteresis(Vec2(-1.9, 0.0), CellKey(0, 0), CellKey(-1, 0), 10.0, 2.0)
    ensures CrossedBeyondHysteresis(Vec2(-2.0, 0.0), CellKey(0, 0), CellKey(-1, 0), 10.0, 2.0)
    ensures !CrossedBeyondHysteresis(Vec2(0.0, 11.9), CellKey(0, 0), CellKey(0, 1), 10.0, 2.0)
    ensures CrossedBeyondHysteresis(Vec2(0.0, 12.0), CellKey(0, 0), CellKey(0, 1), 10.0, 2.0)
    ensures !CrossedBeyondHysteresis(Vec2(0.0, -1.9), CellKey(0, 0), CellKey(0, -1), 10.0, 2.0)
    ensures CrossedBeyondHysteresis(Vec2(0.0, -2.0), CellKey(0, 0), CellKey(0, -1), 10.0, 2.0)
  {
  }

  /** A diagonal move is judged on X alone: far past the Z border but short of the X border is not crossed. */
  lemma DiagonalUsesX()
    ensures !CrossedBeyondHysteresis(Vec2(11.0, 50.0), CellKey(0, 0), CellKey(1, 1), 10.0, 2.0)
  {
  }
}
