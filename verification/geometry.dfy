/** Periodic-box geometry shared by the neighbour index, the sampler and the
    short-range sum: Python's floored float remainder, truncation to int, and the
    squared minimum-image distance of two positions in a cubic box. */
module Geometry {

  datatype Vec = Vec(x: real, y: real, z: real)

  /** Python's float `%` for a positive modulus: the floored remainder. */
  function FMod(x: real, m: real): (r: real)
    requires m > 0.0
    ensures 0.0 <= r < m
  {
    FModBounds(x, m);
    x - m * (x / m).Floor as real
  }

  lemma FModBounds(x: real, m: real)
    requires m > 0.0
    ensures 0.0 <= x - m * (x / m).Floor as real < m
  {
    var q := x / m;
    var k := q.Floor as real;
    assert k <= q < k + 1.0;
    assert x == m * q;
    MulLeMonotone(m, k, q);
    MulLtMonotone(m, q, k + 1.0);
    assert m * (k + 1.0) == m * k + m;
    assert x - m * k < m;
    assert x - m * k >= 0.0;
  }

  lemma MulLeMonotone(m: real, a: real, b: real)
    requires m > 0.0 && a <= b
    ensures m * a <= m * b
  {
    assert m * b - m * a == m * (b - a);
  }

  lemma MulLtMonotone(m: real, a: real, b: real)
    requires m > 0.0 && a < b
    ensures m * a < m * b
  {
    assert m * b - m * a == m * (b - a);
  }

  lemma DivLess(a: real, b: real, c: real)
    requires c > 0.0 && a < b
    ensures a / c < b / c
  {
    assert (b - a) / c > 0.0;
    assert (b - a) / c == b / c - a / c;
  }

  /** Dividing by m maps [0, m) into [0, 1). */
  lemma DivUnitInterval(r: real, m: real)
    requires m > 0.0 && 0.0 <= r < m
    ensures 0.0 <= r / m < 1.0
  {
    DivLess(r, m, m);
    assert m / m == 1.0;
  }

  /** The remainder is the unique value in [0, m) that differs from x by a
      multiple of m. */
  lemma FModUnique(x: real, m: real, k: int, r: real)
    requires m > 0.0 && 0.0 <= r < m
    requires x == r + k as real * m
    ensures FMod(x, m) == r
  {
    var q := x / m;
    assert q == r / m + k as real;
    DivUnitInterval(r, m);
    assert q.Floor == k;
  }

  /** FMod(x, m) differs from x by the integer multiple `(x / m).Floor` of m. */
  lemma FModDecompose(x: real, m: real)
    requires m > 0.0
    ensures x == FMod(x, m) + (x / m).Floor as real * m
  {
  }

  /** Shifting the argument by a whole period does not change the remainder. */
  lemma FModPeriodic(x: real, m: real, k: int)
    requires m > 0.0
    ensures FMod(x + k as real * m, m) == FMod(x, m)
  {
    FModDecompose(x, m);
    FModUnique(x + k as real * m, m, (x / m).Floor + k, FMod(x, m));
  }

  /** `int(x)` / `.astype(int)`: truncation toward zero, the integer nearest
      to `x` on the side of 0 (rounding down for a non-negative `x`, up for a
      negative one). */
  function Trunc(x: real): (t: int)
    ensures x >= 0.0 ==> 0 <= t && t as real <= x < t as real + 1.0
    ensures x < 0.0 ==> t <= 0 && t as real - 1.0 < x <= t as real
  {
    if x >= 0.0 then x.Floor else -((-x).Floor)
  }

  /** One axis of the minimum-image separation as the source computes it:
      `0.5 * L - (a - b + 0.5 * L) % L`. */
  function MinImageAxis(a: real, b: real, box: real): (d: real)
    requires box > 0.0
    ensures -box / 2.0 < d <= box / 2.0
  {
    box / 2.0 - FMod(a - b + box / 2.0, box)
  }

  /** Squared norm of the minimum-image separation vector; the source compares
      its square root with the cutoff, here the square is kept. */
  function MinImageDist2(p: Vec, q: Vec, box: real): (d2: real)
    requires box > 0.0
    ensures d2 >= 0.0
  {
    var dx := MinImageAxis(p.x, q.x, box);
    var dy := MinImageAxis(p.y, q.y, box);
    var dz := MinImageAxis(p.z, q.z, box);
    dx * dx + dy * dy + dz * dz
  }

  /** `sqrt(d2) < c` for a squared distance `d2 >= 0`, without the square root. */
  predicate Within(d2: real, c: real)
  {
    c > 0.0 && d2 < c * c
  }

  /** Every coordinate of every position lies in [0, box). */
  predicate InBox(ps: seq<Vec>, box: real)
  {
    forall i :: 0 <= i < |ps| ==> InBoxVec(ps[i], box)
  }

  predicate InBoxVec(p: Vec, box: real)
  {
    0.0 <= p.x < box && 0.0 <= p.y < box && 0.0 <= p.z < box
  }

  /** The axis separation equals `b - a` plus an integer number of periods. */
  lemma MinImageAxisDecompose(a: real, b: real, box: real) returns (k: int)
    requires box > 0.0
    ensures MinImageAxis(a, b, box) == b - a + k as real * box
  {
    var x := a - b + box / 2.0;
    FModDecompose(x, box);
    k := (x / box).Floor;
  }

  /** The axis separation depends on the positions only through `a - b`, up to
      whole periods. */
  lemma MinImageAxisShift(a: real, b: real, a': real, b': real, box: real, k: int)
    requires box > 0.0
    requires a' - b' == a - b + k as real * box
    ensures MinImageAxis(a', b', box) == MinImageAxis(a, b, box)
  {
    var x := a - b + box / 2.0;
    assert a' - b' + box / 2.0 == x + k as real * box;
    FModPeriodic(x, box, k);
  }

  /** Swapping the two positions can only flip the sign of the axis separation
      (or leave the value box/2 in place), so its square is symmetric. */
  lemma MinImageAxisSymmetric(a: real, b: real, box: real)
    requires box > 0.0
    ensures MinImageAxis(a, b, box) * MinImageAxis(a, b, box)
         == MinImageAxis(b, a, box) * MinImageAxis(b, a, box)
  {
    var f := MinImageAxis(a, b, box);
    var g := MinImageAxis(b, a, box);
    var k1 := MinImageAxisDecompose(a, b, box);
    var k2 := MinImageAxisDecompose(b, a, box);
    assert f + g == (k1 + k2) as real * box;
    PeriodSumInRange(f + g, box, k1 + k2);
    if k1 + k2 == 0 {
      assert g == -f;
    } else {
      assert f == g;
    }
  }

  /** A whole number of periods that lies in (-box, box] is zero or one period. */
  lemma PeriodSumInRange(t: real, box: real, k: int)
    requires box > 0.0 && -box < t <= box
    requires t == k as real * box
    ensures k == 0 || k == 1
  {
    if k <= -1 {
      MulLeMonotone(box, k as real, -1.0);
    } else if k >= 2 {
      MulLeMonotone(box, 2.0, k as real);
    }
  }

  /** The minimum-image distance is symmetric in the two positions. */
  lemma MinImageDist2Symmetric(p: Vec, q: Vec, box: real)
    requires box > 0.0
    ensures MinImageDist2(p, q, box) == MinImageDist2(q, p, box)
  {
    var x1, y1, z1 := MinImageAxis(p.x, q.x, box), MinImageAxis(p.y, q.y, box), MinImageAxis(p.z, q.z, box);
    var x2, y2, z2 := MinImageAxis(q.x, p.x, box), MinImageAxis(q.y, p.y, box), MinImageAxis(q.z, p.z, box);
    MinImageAxisSymmetric(p.x, q.x, box);
    MinImageAxisSymmetric(p.y, q.y, box);
    MinImageAxisSymmetric(p.z, q.z, box);
    assert MinImageDist2(p, q, box) == x1 * x1 + y1 * y1 + z1 * z1;
    assert MinImageDist2(q, p, box) == x2 * x2 + y2 * y2 + z2 * z2;
  }

  /** A second particle at separation `d` along z and one at separation `L - d`
      along z are the same distance away under the minimum-image convention. */
  lemma MinImageComplementarySeparation(p: Vec, d: real, box: real)
    requires box > 0.0
    ensures MinImageDist2(p, Vec(p.x, p.y, p.z + d), box)
         == MinImageDist2(p, Vec(p.x, p.y, p.z + box - d), box)
  {
    // z: separation -d versus d - box, i.e. d after one period, then the sign flip.
    MinImageAxisShift(p.z, p.z + box - d, p.z + d, p.z, box, 1);
    MinImageAxisSymmetric(p.z + d, p.z, box);
    MinImageAxisShift(p.z + d, p.z, p.z, p.z - d, box, 0);
    MinImageAxisShift(p.z, p.z + d, p.z, p.z + d, box, 0);
  }

  /** The squared separation along each axis is bounded by the squared distance. */
  lemma AxisBoundedByDist2(p: Vec, q: Vec, box: real)
    requires box > 0.0
    ensures MinImageAxis(p.x, q.x, box) * MinImageAxis(p.x, q.x, box) <= MinImageDist2(p, q, box)
    ensures MinImageAxis(p.y, q.y, box) * MinImageAxis(p.y, q.y, box) <= MinImageDist2(p, q, box)
    ensures MinImageAxis(p.z, q.z, box) * MinImageAxis(p.z, q.z, box) <= MinImageDist2(p, q, box)
  {
    var dx := MinImageAxis(p.x, q.x, box);
    var dy := MinImageAxis(p.y, q.y, box);
    var dz := MinImageAxis(p.z, q.z, box);
    assert MinImageDist2(p, q, box) == dx * dx + dy * dy + dz * dz;
    SquaresBelowSum(dx, dy, dz);
  }

  lemma SquaresBelowSum(a: real, b: real, c: real)
    ensures a * a <= a * a + b * b + c * c
    ensures b * b <= a * a + b * b + c * c
    ensures c * c <= a * a + b * b + c * c
  {
    SquareNonNegative(a);
    SquareNonNegative(b);
    SquareNonNegative(c);
    var sa, sb, sc := a * a, b * b, c * c;
    assert sa >= 0.0 && sb >= 0.0 && sc >= 0.0;
  }

  lemma SquareNonNegative(a: real)
    ensures a * a >= 0.0
  {
    if a < 0.0 {
      assert a * a == (-a) * (-a);
      MulLeMonotone(-a, 0.0, -a);
    } else if a > 0.0 {
      MulLeMonotone(a, 0.0, a);
    }
  }
}
