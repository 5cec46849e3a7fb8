/** Integer grid arithmetic of the cell-linked neighbour index: how many cells
    per axis, how long a cell is, which cell a position falls into, the 27-cell
    stencil with periodic wrap, and the flattening of a 3-D cell index. */
module CellGrid {
  import opened Geometry

  datatype CellIndex = CellIndex(x: int, y: int, z: int)

  /** `int(max(1, box / r))`: the number of cells along one axis. */
  function NrCells(box: real, r: real): (m: nat)
    requires box > 0.0 && r > 0.0
    ensures m >= 1
    ensures box / r >= 1.0 ==> m as real <= box / r < m as real + 1.0
  {
    if box / r < 1.0 then 1 else (box / r).Floor
  }

  /** `r + (box % r) / nr_cells`: the remainder of the box is spread over the
      cells, so no cell is shorter than the cutoff radius. */
  function CellLen(box: real, r: real): (c: real)
    requires box > 0.0 && r > 0.0
    ensures c >= r
  {
    r + FMod(box, r) / NrCells(box, r) as real
  }

  /** The grid covers the box exactly when the box is at least one radius wide,
      and covers more than the box otherwise (a single cell of length r + box). */
  lemma GridCoversBox(box: real, r: real)
    requires box > 0.0 && r > 0.0
    ensures box <= NrCells(box, r) as real * CellLen(box, r)
    ensures box / r >= 1.0 ==> box == NrCells(box, r) as real * CellLen(box, r)
    ensures box / r < 1.0 ==> NrCells(box, r) == 1
  {
    var m := NrCells(box, r);
    var mr := m as real;
    var rem := FMod(box, r);
    assert mr * (rem / mr) == rem;
    assert mr * CellLen(box, r) == mr * r + rem;
    FModDecompose(box, r);
    if box / r >= 1.0 {
      assert (box / r).Floor == m;
      assert box == rem + mr * r;
    } else {
      DivUnitIntervalConverse(box, r);
      assert (box / r).Floor == 0;
      assert rem == box;
      assert mr * r + rem >= box;
    }
  }

  lemma DivUnitIntervalConverse(x: real, r: real)
    requires x > 0.0 && r > 0.0 && x / r < 1.0
    ensures 0.0 <= x / r
  {
  }

  /** `int(p / cell_len)`: the cell coordinate of one position coordinate. */
  function CellCoord(p: real, c: real): int
    requires c > 0.0
  {
    Trunc(p / c)
  }

  /** The cell a position falls into, as `(pos / cell_len).astype(int)`. */
  function CellOf(p: Vec, c: real): CellIndex
    requires c > 0.0
  {
    CellIndex(CellCoord(p.x, c), CellCoord(p.y, c), CellCoord(p.z, c))
  }

  predicate CellInRange(cell: CellIndex, m: int)
  {
    0 <= cell.x < m && 0 <= cell.y < m && 0 <= cell.z < m
  }

  /** Every coordinate in [0, box) has a cell coordinate in [0, nr_cells). */
  lemma CellCoordInRange(p: real, box: real, r: real)
    requires box > 0.0 && r > 0.0 && 0.0 <= p < box
    ensures 0 <= CellCoord(p, CellLen(box, r)) < NrCells(box, r)
  {
    var c := CellLen(box, r);
    var m := NrCells(box, r) as real;
    GridCoversBox(box, r);
    assert p < m * c;
    DivBelow(p, m, c);
  }

  lemma DivBelow(p: real, m: real, c: real)
    requires c > 0.0 && 0.0 <= p < m * c
    ensures 0.0 <= p / c < m
  {
    DivLess(p, m * c, c);
    assert m * c / c == m;
  }

  /** Every position inside the box falls into a cell of the grid. */
  lemma CellOfInRange(p: Vec, box: real, r: real)
    requires box > 0.0 && r > 0.0 && InBoxVec(p, box)
    ensures CellInRange(CellOf(p, CellLen(box, r)), NrCells(box, r))
  {
    CellCoordInRange(p.x, box, r);
    CellCoordInRange(p.y, box, r);
    CellCoordInRange(p.z, box, r);
  }

  /** Shifting a real by an integer shifts its floor by the same integer. */
  lemma FloorShift(u: real, n: int)
    ensures (u + n as real).Floor == u.Floor + n
  {
  }

  /** Two reals less than one apart have floors at most one apart. */
  lemma FloorsAdjacent(u: real, v: real)
    requires -1.0 < v - u < 1.0
    ensures -1 <= v.Floor - u.Floor <= 1
  {
  }

  lemma DivShift(a: real, f: real, b: real, c: real, q: real)
    requires c > 0.0
    requires b == a + f - q * c
    ensures b / c == (a / c - q) + f / c
  {
    assert b / c == a / c + f / c - q * c / c;
    assert q * c / c == q;
  }

  /** A coordinate difference whose square is below r*r lies strictly between -r and r. */
  lemma SquareBelow(f: real, r: real)
    requires r > 0.0 && f * f < r * r
    ensures -r < f < r
  {
    if f >= r {
      MulLeMonotone(r, r, f);
      MulLeMonotone(f, r, f);
    } else if f <= -r {
      MulLeMonotone(r, r, -f);
      MulLeMonotone(-f, r, -f);
    }
  }

  lemma ModShift(b: int, k: int, m: int)
    requires m >= 1 && 0 <= b < m
    ensures (b + k * m) % m == b
  {
    DivModUnique(b + k * m, m, k, b);
  }

  /** Dafny's Euclidean `/` and `%` are determined by the quotient-remainder pair. */
  lemma DivModUnique(n: int, m: int, q: int, rem: int)
    requires m >= 1 && 0 <= rem < m && n == q * m + rem
    ensures n / m == q && n % m == rem
  {
    var q' := n / m;
    var rem' := n % m;
    assert (q - q') * m == rem' - rem;
    if q - q' >= 1 {
      assert false;
    } else if q - q' <= -1 {
      assert false;
    }
  }

  /** The key geometric fact behind the 27-cell stencil: if two coordinates in
      the box are closer than r under the minimum-image convention, their cell
      coordinates differ by -1, 0 or 1 modulo the number of cells. */
  lemma AdjacentAxis(a: real, b: real, box: real, r: real) returns (d: int)
    requires box > 0.0 && r > 0.0 && 0.0 <= a < box && 0.0 <= b < box
    requires -r < MinImageAxis(a, b, box) < r
    ensures -1 <= d <= 1
    ensures (CellCoord(a, CellLen(box, r)) + d) % NrCells(box, r) == CellCoord(b, CellLen(box, r))
  {
    var f := MinImageAxis(a, b, box);
    var k := MinImageAxisDecompose(a, b, box);
    if box / r < 1.0 {
      CellCoordInRange(a, box, r);
      CellCoordInRange(b, box, r);
      GridCoversBox(box, r);
      d := 0;
    } else {
      d := AdjacentAxisWide(a, b, box, r, f, k);
    }
  }

  /** The wide-grid case: `f` is the separation `b - a` shifted by `k` periods. */
  lemma AdjacentAxisWide(a: real, b: real, box: real, r: real, f: real, k: int) returns (d: int)
    requires box > 0.0 && r > 0.0 && 0.0 <= a < box && 0.0 <= b < box && box / r >= 1.0
    requires -r < f < r && f == b - a + k as real * box
    ensures -1 <= d <= 1
    ensures (CellCoord(a, CellLen(box, r)) + d) % NrCells(box, r) == CellCoord(b, CellLen(box, r))
  {
    var m := NrCells(box, r);
    var c := CellLen(box, r);
    CellCoordInRange(b, box, r);
    GridCoversBox(box, r);
    PeriodInCells(k, m, c, box);
    d := CellShift(a, b, f, c, k * m);
    ModShift(CellCoord(b, c), k, m);
  }

  lemma PeriodInCells(k: int, m: int, c: real, box: real)
    requires box == m as real * c
    ensures k as real * box == (k * m) as real * c
  {
  }

  /** Cell coordinates of two non-negative coordinates less than one cell apart
      (after removing whole multiples `q` of the cell length). */
  lemma CellShift(a: real, b: real, f: real, c: real, q: int) returns (d: int)
    requires c > 0.0 && 0.0 <= a && 0.0 <= b && -c < f < c
    requires b - a + q as real * c == f
    ensures -1 <= d <= 1
    ensures CellCoord(a, c) + d == CellCoord(b, c) + q
  {
    DivShift(a, f, b, c, q as real);
    var u := a / c - q as real;
    DivUnitBounds(f, c, c);
    FloorsAdjacent(u, b / c);
    FloorShift(a / c, -q);
    DivNonNeg(a, c);
    DivNonNeg(b, c);
    d := (b / c).Floor - u.Floor;
  }

  lemma DivNonNeg(a: real, c: real)
    requires a >= 0.0 && c > 0.0
    ensures a / c >= 0.0
  {
  }

  lemma DivUnitBounds(f: real, c: real, r: real)
    requires 0.0 < r <= c && -r < f < r
    ensures -1.0 < f / c < 1.0
  {
    DivLess(f, c, c);
    DivLess(-c, f, c);
    assert c / c == 1.0;
    assert -c / c == -1.0;
  }

  /** Offset of stencil entry k along x, y and z: entry k is the k-th element of
      `itertools.product([-1, 0, 1], repeat=3)`. */
  function OffsetX(k: int): int { k / 9 - 1 }
  function OffsetY(k: int): int { (k / 3) % 3 - 1 }
  function OffsetZ(k: int): int { k % 3 - 1 }

  /** `(cell + dir) % nr_cells` for the k-th direction `dir`. */
  function StencilAt(cell: CellIndex, m: int, k: int): (s: CellIndex)
    requires m >= 1
    ensures CellInRange(s, m)
  {
    CellIndex((cell.x + OffsetX(k)) % m, (cell.y + OffsetY(k)) % m, (cell.z + OffsetZ(k)) % m)
  }

  /** `b` is `a - 1`, `a` or `a + 1`, wrapped modulo `m`. */
  predicate WrappedNear(a: int, b: int, m: int)
    requires m >= 1
  {
    b == (a - 1) % m || b == a % m || b == (a + 1) % m
  }

  /** `other` is one of the 27 cells around `cell` on a periodic grid of `m`
      cells per axis. */
  predicate NeighbourCell(cell: CellIndex, other: CellIndex, m: int)
    requires m >= 1
  {
    WrappedNear(cell.x, other.x, m) && WrappedNear(cell.y, other.y, m) && WrappedNear(cell.z, other.z, m)
  }

  /** The 27 cells around (and including) `cell`, in the order the source
      visits them: every entry is a cell of the grid next to `cell`, and every
      cell next to `cell` is visited. */
  function Stencil(cell: CellIndex, m: int): (s: seq<CellIndex>)
    requires m >= 1
    ensures |s| == 27
    ensures forall k :: 0 <= k < 27 ==> CellInRange(s[k], m) && NeighbourCell(cell, s[k], m)
    ensures forall other :: NeighbourCell(cell, other, m) ==> other in s
    ensures forall k :: 0 <= k < 27 ==> s[k] == StencilAt(cell, m, k)
  {
    var s := seq(27, k requires 0 <= k < 27 => StencilAt(cell, m, k));
    StencilSeqCovers(cell, m, s);
    s
  }

  lemma StencilSeqCovers(cell: CellIndex, m: int, s: seq<CellIndex>)
    requires m >= 1 && |s| == 27 && forall k :: 0 <= k < 27 ==> s[k] == StencilAt(cell, m, k)
    ensures forall k :: 0 <= k < 27 ==> CellInRange(s[k], m) && NeighbourCell(cell, s[k], m)
    ensures forall other :: NeighbourCell(cell, other, m) ==> other in s
  {
    forall k | 0 <= k < 27 ensures NeighbourCell(cell, s[k], m) {
      StencilAtNear(cell, m, k);
    }
    forall other | NeighbourCell(cell, other, m) ensures other in s {
      var k := NearIsStencilAt(cell, m, other);
      assert s[k] == other;
    }
  }

  /** Each stencil entry is next to `cell`. */
  lemma StencilAtNear(cell: CellIndex, m: int, k: int)
    requires m >= 1 && 0 <= k < 27
    ensures NeighbourCell(cell, StencilAt(cell, m, k), m)
  {
    OffsetsInRange(k);
    NearOffset(cell.x, OffsetX(k), m);
    NearOffset(cell.y, OffsetY(k), m);
    NearOffset(cell.z, OffsetZ(k), m);
  }

  /** Each cell next to `cell` is the stencil entry of its three offsets. */
  lemma NearIsStencilAt(cell: CellIndex, m: int, other: CellIndex) returns (k: int)
    requires m >= 1 && NeighbourCell(cell, other, m)
    ensures 0 <= k < 27 && StencilAt(cell, m, k) == other
  {
    var dx := WrapOffset(cell.x, other.x, m);
    var dy := WrapOffset(cell.y, other.y, m);
    var dz := WrapOffset(cell.z, other.z, m);
    k := (dx + 1) * 9 + (dy + 1) * 3 + (dz + 1);
    OffsetsOf(dx, dy, dz);
  }

  lemma OffsetsInRange(k: int)
    requires 0 <= k < 27
    ensures -1 <= OffsetX(k) <= 1 && -1 <= OffsetY(k) <= 1 && -1 <= OffsetZ(k) <= 1
  {
  }

  /** Direction number `(dx + 1) * 9 + (dy + 1) * 3 + (dz + 1)` has offsets
      `dx`, `dy`, `dz`. */
  lemma OffsetsOf(dx: int, dy: int, dz: int)
    requires -1 <= dx <= 1 && -1 <= dy <= 1 && -1 <= dz <= 1
    ensures var k := (dx + 1) * 9 + (dy + 1) * 3 + (dz + 1);
      0 <= k < 27 && OffsetX(k) == dx && OffsetY(k) == dy && OffsetZ(k) == dz
  {
  }

  /** Stepping by -1, 0 or 1 and wrapping lands next to the start. */
  lemma NearOffset(a: int, d: int, m: int)
    requires m >= 1 && -1 <= d <= 1
    ensures WrappedNear(a, (a + d) % m, m)
  {
  }

  /** The offset in `-1 .. 1` that takes `a` to `b`. */
  lemma WrapOffset(a: int, b: int, m: int) returns (d: int)
    requires m >= 1 && WrappedNear(a, b, m)
    ensures -1 <= d <= 1 && (a + d) % m == b
  {
    if b == (a - 1) % m {
      d := -1;
    } else if b == a % m {
      d := 0;
    } else {
      d := 1;
    }
  }

  /** Every wrapped neighbour offset of the cell occurs in the stencil. */
  lemma StencilContains(cell: CellIndex, m: int, dx: int, dy: int, dz: int)
    requires m >= 1 && -1 <= dx <= 1 && -1 <= dy <= 1 && -1 <= dz <= 1
    ensures CellIndex((cell.x + dx) % m, (cell.y + dy) % m, (cell.z + dz) % m)
            == Stencil(cell, m)[(dx + 1) * 9 + (dy + 1) * 3 + (dz + 1)]
  {
    OffsetsOf(dx, dy, dz);
  }

  /** With at least three cells per axis the 27 stencil cells are pairwise
      distinct (with fewer, some cell is visited more than once). */
  lemma StencilDistinct(cell: CellIndex, m: int, k1: int, k2: int)
    requires m >= 3 && 0 <= k1 < 27 && 0 <= k2 < 27 && k1 != k2
    ensures Stencil(cell, m)[k1] != Stencil(cell, m)[k2]
  {
    OffsetsDistinct(k1, k2);
    var s1 := StencilAt(cell, m, k1);
    var s2 := StencilAt(cell, m, k2);
    if OffsetX(k1) != OffsetX(k2) {
      WrapDistinct(cell.x, OffsetX(k1), OffsetX(k2), m);
      assert s1.x != s2.x;
    } else if OffsetY(k1) != OffsetY(k2) {
      WrapDistinct(cell.y, OffsetY(k1), OffsetY(k2), m);
      assert s1.y != s2.y;
    } else {
      WrapDistinct(cell.z, OffsetZ(k1), OffsetZ(k2), m);
      assert s1.z != s2.z;
    }
  }

  lemma WrapDistinct(x: int, d1: int, d2: int, m: int)
    requires m >= 3 && -1 <= d1 <= 1 && -1 <= d2 <= 1 && d1 != d2
    ensures (x + d1) % m != (x + d2) % m
  {
    WrapStep(x, d1, m);
    WrapStep(x, d2, m);
  }

  lemma OffsetsDistinct(k1: int, k2: int)
    requires 0 <= k1 < 27 && 0 <= k2 < 27 && k1 != k2
    ensures -1 <= OffsetX(k1) <= 1 && -1 <= OffsetY(k1) <= 1 && -1 <= OffsetZ(k1) <= 1
    ensures -1 <= OffsetX(k2) <= 1 && -1 <= OffsetY(k2) <= 1 && -1 <= OffsetZ(k2) <= 1
    ensures OffsetX(k1) != OffsetX(k2) || OffsetY(k1) != OffsetY(k2) || OffsetZ(k1) != OffsetZ(k2)
  {
    assert k1 == (OffsetX(k1) + 1) * 9 + (OffsetY(k1) + 1) * 3 + (OffsetZ(k1) + 1);
    assert k2 == (OffsetX(k2) + 1) * 9 + (OffsetY(k2) + 1) * 3 + (OffsetZ(k2) + 1);
  }

  /** Stepping a coordinate by -1, 0 or 1 and wrapping it. */
  lemma WrapStep(x: int, d: int, m: int)
    requires m >= 1 && -1 <= d <= 1
    ensures var r := x % m;
      (x + d) % m == (if r + d < 0 then m - 1 else if r + d >= m then 0 else r + d)
  {
    var r := x % m;
    var q := x / m;
    assert x == q * m + r;
    if r + d < 0 {
      DivModUnique(x + d, m, q - 1, m - 1);
    } else if r + d >= m {
      DivModUnique(x + d, m, q + 1, 0);
    } else {
      DivModUnique(x + d, m, q, r + d);
    }
  }

  /** `_recalc_cell_index`: `x + y * m + z * m**2`. */
  function RecalcCellIndex(x: int, y: int, z: int, m: int): int
  {
    x + y * m + z * (m * m)
  }

  lemma RecalcNested(x: int, y: int, z: int, m: int)
    ensures RecalcCellIndex(x, y, z, m) == (y + z * m) * m + x
  {
  }

  lemma MulLeInt(a: int, b: int, c: int)
    requires a <= b && c >= 0
    ensures a * c <= b * c
  {
  }

  /** The flat index maps [0, m)^3 into [0, m^3). */
  lemma RecalcInRange(x: int, y: int, z: int, m: int)
    requires m >= 1 && 0 <= x < m && 0 <= y < m && 0 <= z < m
    ensures 0 <= RecalcCellIndex(x, y, z, m) < m * m * m
  {
    MulLeInt(y, m - 1, m);
    MulLeInt(z, m - 1, m * m);
    MulLeInt(0, y, m);
    MulLeInt(0, z, m * m);
    assert (m - 1) * m == m * m - m;
    assert (m - 1) * (m * m) == m * m * m - m * m;
  }

  /** The flat index is injective on [0, m)^3. */
  lemma RecalcInjective(x1: int, y1: int, z1: int, x2: int, y2: int, z2: int, m: int)
    requires m >= 1
    requires 0 <= x1 < m && 0 <= y1 < m && 0 <= z1 < m
    requires 0 <= x2 < m && 0 <= y2 < m && 0 <= z2 < m
    requires RecalcCellIndex(x1, y1, z1, m) == RecalcCellIndex(x2, y2, z2, m)
    ensures x1 == x2 && y1 == y2 && z1 == z2
  {
    var n := RecalcCellIndex(x1, y1, z1, m);
    RecalcNested(x1, y1, z1, m);
    RecalcNested(x2, y2, z2, m);
    DivModUnique(n, m, y1 + z1 * m, x1);
    DivModUnique(n, m, y2 + z2 * m, x2);
    DivModUnique(y1 + z1 * m, m, z1, y1);
    DivModUnique(y2 + z2 * m, m, z2, y2);
  }

  /** Every flat index in [0, m^3) is the image of a cell of [0, m)^3. */
  lemma RecalcSurjective(n: int, m: int) returns (x: int, y: int, z: int)
    requires m >= 1 && 0 <= n < m * m * m
    ensures 0 <= x < m && 0 <= y < m && 0 <= z < m
    ensures RecalcCellIndex(x, y, z, m) == n
  {
    x := n % m;
    var t := n / m;
    y := t % m;
    z := t / m;
    assert m * m * m == (m * m) * m;
    QuotientBelow(n, t, x, m, m * m);
    QuotientBelow(t, z, y, m, m);
    RecalcNested(x, y, z, m);
    QuotientNonNeg(n, t, x, m);
    QuotientNonNeg(t, z, y, m);
  }

  lemma QuotientBelow(n: int, t: int, x: int, m: int, bound: int)
    requires m >= 1 && 0 <= x && n == t * m + x && n < bound * m
    ensures t < bound
  {
    if t >= bound {
      assert false;
    }
  }

  lemma QuotientNonNeg(n: int, t: int, x: int, m: int)
    requires m >= 1 && 0 <= n && x < m && n == t * m + x
    ensures t >= 0
  {
    if t < 0 {
      assert false;
    }
  }
}
