/**
 * The square grid of the simulation (Go package `spatial`): world positions,
 * cell keys, half-open cell bounds and the 3x3 neighbourhood.
 *
 * Coordinates are `real`: the source only compares and floors them, it never
 * accumulates them here.
 */
module Spatial {

  datatype Vec2 = Vec2(x: real, z: real)

  datatype CellKey = CellKey(cx: int, cz: int)

  /** The cell holding world position (`x`, `z`): both coordinates floored after division. */
  function WorldToCell(x: real, z: real, cellSize: real): (r: (int, int))
    requires cellSize > 0.0
    ensures r.0 as real * cellSize <= x < (r.0 + 1) as real * cellSize
    ensures r.1 as real * cellSize <= z < (r.1 + 1) as real * cellSize
  {
    FloorDivBounds(x, cellSize);
    FloorDivBounds(z, cellSize);
    ((x / cellSize).Floor, (z / cellSize).Floor)
  }

  lemma FloorDivBounds(x: real, cellSize: real)
    requires cellSize > 0.0
    ensures (x / cellSize).Floor as real * cellSize <= x
    ensures x < ((x / cellSize).Floor + 1) as real * cellSize
  {
    FloorDivLower(x, cellSize);
    FloorDivUpper(x, cellSize);
  }

  lemma FloorDivLower(x: real, cellSize: real)
    requires cellSize > 0.0
    ensures (x / cellSize).Floor as real * cellSize <= x
  {
    var q := x / cellSize;
    assert q * cellSize == x;
    MulMono(q.Floor as real, q, cellSize);
  }

  lemma FloorDivUpper(x: real, cellSize: real)
    requires cellSize > 0.0
    ensures x < ((x / cellSize).Floor + 1) as real * cellSize
  {
    var q := x / cellSize;
    var b := (q.Floor + 1) as real;
    assert q * cellSize == x;
    MulStrict(q, b, cellSize);
  }

  lemma MulMono(a: real, b: real, c: real)
    requires a <= b && c > 0.0
    ensures a * c <= b * c
  {
  }

  lemma MulStrict(a: real, b: real, c: real)
    requires a < b && c > 0.0
    ensures a * c < b * c
  {
  }

  /** The key of the cell holding `p`. */
  function CellOf(p: Vec2, cellSize: real): CellKey
    requires cellSize > 0.0
  {
    var (cx, cz) := WorldToCell(p.x, p.z, cellSize);
    CellKey(cx, cz)
  }

  /** `[minX, maxX)` and `[minZ, maxZ)` of a cell: each side is `cellSize` long and starts at the key times the size. */
  function CellBounds(ck: CellKey, cellSize: real): (r: (real, real, real, real))
    ensures r.1 - r.0 == cellSize && r.3 - r.2 == cellSize
    ensures r.0 == ck.cx as real * cellSize && r.2 == ck.cz as real * cellSize
  {
    (ck.cx as real * cellSize, (ck.cx + 1) as real * cellSize,
     ck.cz as real * cellSize, (ck.cz + 1) as real * cellSize)
  }

  /** Inclusive lower and exclusive upper bound on both axes. */
  predicate InsideCell(p: Vec2, key: CellKey, cellSize: real)
  {
    var (minX, maxX, minZ, maxZ) := CellBounds(key, cellSize);
    p.x >= minX && p.x < maxX && p.z >= minZ && p.z < maxZ
  }

  /** A position lies in exactly one cell, the one `WorldToCell` names. */
  lemma InsideCellIff(p: Vec2, key: CellKey, cellSize: real)
    requires cellSize > 0.0
    ensures InsideCell(p, key, cellSize) <==> key == CellOf(p, cellSize)
  {
    var c := CellOf(p, cellSize);
    if InsideCell(p, key, cellSize) {
      SameCellIndex(p.x, key.cx, c.cx, cellSize);
      SameCellIndex(p.z, key.cz, c.cz, cellSize);
    }
  }

  /** Two half-open intervals of width `s` that both hold `x` start at the same multiple of `s`. */
  lemma SameCellIndex(x: real, a: int, b: int, s: real)
    requires s > 0.0
    requires a as real * s <= x < (a + 1) as real * s
    requires b as real * s <= x < (b + 1) as real * s
    ensures a == b
  {
    if a < b {
      MulMono((a + 1) as real, b as real, s);
    } else if b < a {
      MulMono((b + 1) as real, a as real, s);
    }
  }

  /** The 3x3 block around `center`, rows by `dz` and columns by `dx`, both from -1 to 1. */
  function Neighbors3x3(center: CellKey): (r: seq<CellKey>)
    ensures |r| == 9 && r[4] == center
  {
    seq(9, i requires 0 <= i < 9 => CellKey(center.cx + i % 3 - 1, center.cz + i / 3 - 1))
  }

  predicate Adjacent(a: CellKey, b: CellKey)
  {
    -1 <= b.cx - a.cx <= 1 && -1 <= b.cz - a.cz <= 1
  }

  /** The neighbourhood holds exactly the cells at most one step away on each axis. */
  lemma Neighbors3x3Members(center: CellKey, k: CellKey)
    ensures k in Neighbors3x3(center) <==> Adjacent(center, k)
  {
    var r := Neighbors3x3(center);
    if Adjacent(center, k) {
      var i := 3 * (k.cz - center.cz + 1) + (k.cx - center.cx + 1);
      assert r[i] == k;
    }
  }

  /** Row-major order, `dz` outer: the keys ascend by (`cz`, `cx`), so no key repeats. */
  lemma Neighbors3x3Order(center: CellKey)
    ensures forall i, j :: 0 <= i < j < 9 ==>
      var r := Neighbors3x3(center);
      r[i].cz < r[j].cz || (r[i].cz == r[j].cz && r[i].cx < r[j].cx)
  {
  }

  /** Squared distance between two points: never negative, and zero between equal points. */
  function Dist2(a: Vec2, b: Vec2): (r: real)
    ensures r >= 0.0
    ensures a == b ==> r == 0.0
  {
    var dx := a.x - b.x;
    var dz := a.z - b.z;
    dx * dx + dz * dz
  }

  lemma Dist2Symmetric(a: Vec2, b: Vec2)
    ensures Dist2(a, b) == Dist2(b, a)
  {
  }

  /** Negative coordinates round down: -0.1 lies in cell -1 and 5.0 in cell 5 for size 1. */
  lemma WorldToCellNegative()
    ensures WorldToCell(-0.1, 5.0, 1.0) == (-1, 5)
  {
    var r := WorldToCell(-0.1, 5.0, 1.0);
    SameCellIndex(-0.1, r.0, -1, 1.0);
    SameCellIndex(5.0, r.1, 5, 1.0);
  }
}
