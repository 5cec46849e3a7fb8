/** The short-range part of the interaction energy: a Lennard-Jones term and
    the real-space Coulomb term of the Ewald sum, summed either over all
    unordered pairs (brute force) or over the neighbour lists of the
    cell-linked grid (each pair seen from both ends, total halved).

    Distances are squared minimum-image distances. The real-space Coulomb
    kernel `erfc(d / (sqrt(2) sigma_c)) / d`, the unit prefactor over `4 pi`
    and the distance matrix filled by `fast_distances` are parameters. */
module ShortrangeSum {
  import opened Geometry
  import opened CellGrid
  import opened NeighbourSpec
  import opened Neighbouring
  import opened SystemConfig
  import opened PairSums

  // ---------------------------------------------------------------------
  // The Lennard-Jones formula
  // ---------------------------------------------------------------------

  /** `x ** n` for a natural exponent. */
  function Pow(x: real, n: nat): real
  {
    if n == 0 then 1.0 else x * Pow(x, n - 1)
  }

  /** The energy `4 epsilon q (q - 1)` as a function of `q = (sigma / r)^6`. */
  function LjOfSixthPower(q: real, epsilon: real): real
  {
    4.0 * (epsilon * (q * (q - 1.0)))
  }

  /** `lj_potential` for one distance `r`. */
  function LjPotential(r: real, sigma: real, epsilon: real): real
    requires r != 0.0
  {
    LjOfSixthPower(Pow(sigma / r, 6), epsilon)
  }

  /** The same formula on a squared distance `d2`: `q = (sigma^2 / d2)^3`. */
  function LjPotentialSq(d2: real, sigma: real, epsilon: real): real
    requires d2 > 0.0
  {
    LjOfSixthPower(Pow(SquaredRatio(sigma, d2), 3), epsilon)
  }

  /** `sigma^2 / d2`, the square of `sigma / r` when `d2 == r^2`. */
  function SquaredRatio(sigma: real, d2: real): real
    requires d2 > 0.0
  {
    sigma * sigma / d2
  }

  /** The familiar 12-6 form: `4 epsilon ((sigma/r)^12 - (sigma/r)^6)`. */
  lemma LjTwelveSix(r: real, sigma: real, epsilon: real)
    requires r != 0.0
    ensures LjPotential(r, sigma, epsilon) == 4.0 * epsilon * (Pow(sigma / r, 12) - Pow(sigma / r, 6))
  {
    var q := Pow(sigma / r, 6);
    PowAdd(sigma / r, 6, 6);
    assert q * (q - 1.0) == q * q - q;
  }

  lemma {:induction false} PowAdd(x: real, m: nat, n: nat)
    ensures Pow(x, m + n) == Pow(x, m) * Pow(x, n)
  {
    if m > 0 {
      PowAdd(x, m - 1, n);
      assert Pow(x, m + n) == x * Pow(x, m - 1 + n);
    }
  }

  lemma {:induction false} PowOne(n: nat)
    ensures Pow(1.0, n) == 1.0
  {
    if n > 0 {
      PowOne(n - 1);
    }
  }

  /** The potential crosses zero at `r == sigma`. */
  lemma LjZeroAtSigma(sigma: real, epsilon: real)
    requires sigma != 0.0
    ensures LjPotential(sigma, sigma, epsilon) == 0.0
  {
    assert sigma / sigma == 1.0;
    PowOne(6);
  }

  /** For a non-negative well depth the energy never drops below `-epsilon`,
      and it reaches `-epsilon` where `(sigma/r)^6 == 1/2`. */
  lemma LjBoundedBelow(r: real, sigma: real, epsilon: real)
    requires r != 0.0 && epsilon >= 0.0
    ensures LjPotential(r, sigma, epsilon) >= -epsilon
    ensures Pow(sigma / r, 6) == 0.5 ==> LjPotential(r, sigma, epsilon) == -epsilon
  {
    var q := Pow(sigma / r, 6);
    assert 4.0 * (q * (q - 1.0)) + 1.0 == (2.0 * q - 1.0) * (2.0 * q - 1.0);
    SquareNonNegative(2.0 * q - 1.0);
    assert epsilon * (4.0 * (q * (q - 1.0)) + 1.0) >= 0.0 by {
      if epsilon > 0.0 {
        MulLeMonotone(epsilon, 0.0, 4.0 * (q * (q - 1.0)) + 1.0);
      }
    }
    assert 4.0 * (epsilon * (q * (q - 1.0))) == epsilon * (4.0 * (q * (q - 1.0)) + 1.0) - epsilon;
  }

  lemma MulAboveOne(x: real, y: real)
    requires x > 1.0 && y > 1.0
    ensures x * y > 1.0
  {
    MulLtMonotone(x, 1.0, y);
  }

  lemma MulBelowOne(x: real, y: real)
    requires 0.0 < x < 1.0 && 0.0 < y < 1.0
    ensures 0.0 < x * y < 1.0
  {
    MulLtMonotone(x, y, 1.0);
    MulPositive(x, y);
  }

  lemma {:induction false} PowAboveOne(x: real, n: nat)
    requires x > 1.0 && n >= 1
    ensures Pow(x, n) > 1.0
  {
    if n == 1 {
      assert Pow(x, 0) == 1.0;
    } else {
      PowAboveOne(x, n - 1);
      MulAboveOne(x, Pow(x, n - 1));
    }
  }

  lemma {:induction false} PowBelowOne(x: real, n: nat)
    requires 0.0 < x < 1.0 && n >= 1
    ensures 0.0 < Pow(x, n) < 1.0
  {
    if n == 1 {
      assert Pow(x, 0) == 1.0;
    } else {
      PowBelowOne(x, n - 1);
      MulBelowOne(x, Pow(x, n - 1));
    }
  }

  /** Closer than `sigma` the pair repels. */
  lemma LjRepulsive(r: real, sigma: real, epsilon: real)
    requires 0.0 < r < sigma && epsilon > 0.0
    ensures LjPotential(r, sigma, epsilon) > 0.0
  {
    var s := sigma / r;
    assert s > 1.0 by {
      MulLtMonotone(1.0 / r, r, sigma);
      assert (1.0 / r) * r == 1.0;
    }
    PowAboveOne(s, 6);
    var q := Pow(s, 6);
    var w := q - 1.0;
    MulLtMonotone(q, 0.0, w);
    var e := q * w;
    MulLtMonotone(epsilon, 0.0, e);
  }

  /** Beyond `sigma` the pair attracts. */
  lemma LjAttractive(r: real, sigma: real, epsilon: real)
    requires 0.0 < sigma < r && epsilon > 0.0
    ensures LjPotential(r, sigma, epsilon) < 0.0
  {
    var s := sigma / r;
    assert 0.0 < s < 1.0 by {
      MulLtMonotone(1.0 / r, sigma, r);
      assert (1.0 / r) * r == 1.0;
      MulPositive(1.0 / r, sigma);
    }
    PowBelowOne(s, 6);
    var q := Pow(s, 6);
    var w := q - 1.0;
    MulLtMonotone(q, w, 0.0);
    var e := q * w;
    MulLtMonotone(epsilon, e, 0.0);
  }

  lemma MulAssociates(a: real, b: real, c: real)
    ensures a * b * c == a * (b * c)
  {
  }

  lemma MulDistributes(a: real, x: real, y: real)
    ensures a * (x + y) == a * x + a * y
  {
  }

  lemma DivCancel(x: real, y: real, z: real)
    requires y != 0.0 && x * y == z
    ensures x == z / y
  {
  }

  lemma QuotientProduct(a: real, b: real, c: real, d: real)
    requires b != 0.0 && d != 0.0
    ensures b * d != 0.0
    ensures (a / b) * (c / d) == (a * c) / (b * d)
  {
    var s, t := a / b, c / d;
    assert s * b == a && t * d == c;
    assert (s * t) * (b * d) == (s * b) * (t * d);
    DivCancel(s * t, b * d, a * c);
  }

  /** `(a / b)^2 == a^2 / b^2`. */
  lemma SquaredQuotient(a: real, b: real, d: real, s: real, y: real)
    requires b != 0.0 && d > 0.0 && d == b * b && s == a / b && y == a * a / d
    ensures y == s * s
  {
    QuotientProduct(a, b, a, b);
  }

  /** An even power is a power of the square. */
  lemma {:induction false} PowOfSquare(x: real, y: real, n: nat)
    requires y == x * x
    ensures Pow(x, 2 * n) == Pow(y, n)
  {
    if n > 0 {
      PowOfSquare(x, y, n - 1);
      assert Pow(x, 2 * n) == x * (x * Pow(x, 2 * (n - 1)));
    }
  }

  /** Evaluating the formula on the squared distance `d2 == r * r` gives the
      same energy as on the distance `r` itself. */
  lemma LjSquaredDistance(r: real, d2: real, sigma: real, epsilon: real)
    requires r != 0.0 && d2 > 0.0 && d2 == r * r
    ensures LjPotential(r, sigma, epsilon) == LjPotentialSq(d2, sigma, epsilon)
  {
    var s := sigma / r;
    var y := SquaredRatio(sigma, d2);
    assert Pow(s, 6) == Pow(y, 3) by {
      SquaredQuotient(sigma, r, d2, s, y);
      PowOfSquare(s, y, 3);
    }
    assert LjPotential(r, sigma, epsilon) == LjOfSixthPower(Pow(s, 6), epsilon);
    assert LjPotentialSq(d2, sigma, epsilon) == LjOfSixthPower(Pow(y, 3), epsilon);
  }

  /** The energy of one pair at squared distance `d2`. Two coincident
      particles make numpy produce an infinite energy; 0 keeps this total. */
  function LjTerm(d2: real, sigma: real, epsilon: real): real
  {
    if d2 > 0.0 then LjPotentialSq(d2, sigma, epsilon) else 0.0
  }

  // ---------------------------------------------------------------------
  // Pair functions of the two modes
  // ---------------------------------------------------------------------

  /** The per-pair parameters of a configuration: the charges and the mixed
      Lennard-Jones matrices. */
  datatype PairParameters = PairParameters(charges: seq<real>, sigmas: seq<seq<real>>, epsilons: seq<seq<real>>)

  predicate Sized(p: PairParameters, n: nat)
  {
    |p.charges| == n && SquareMatrix(p.sigmas, n) && SquareMatrix(p.epsilons, n)
  }

  /** `dist` holds the squared minimum-image distance of every pair of `pos`. */
  predicate MinImageMatrix(dist: seq<seq<real>>, pos: seq<Vec>, box: real)
    requires box > 0.0
  {
    SquareMatrix(dist, |pos|)
    && forall i, j :: 0 <= i < |pos| && 0 <= j < |pos| ==> dist[i][j] == MinImageDist2(pos[i], pos[j], box)
  }

  /** Brute force, Lennard-Jones: the pair's term counts when its distance is
      below its own cutoff `cut[i][j]`. */
  function BruteLjTerm(p: PairParameters, dist: seq<seq<real>>, cut: seq<seq<real>>, i: nat, j: nat): real
    requires Sized(p, |dist|) && SquareMatrix(dist, |dist|) && SquareMatrix(cut, |dist|)
  {
    if i < |dist| && j < |dist| && Within(dist[i][j], cut[i][j])
    then LjTerm(dist[i][j], p.sigmas[i][j], p.epsilons[i][j])
    else 0.0
  }

  function BruteLjPairs(p: PairParameters, dist: seq<seq<real>>, cut: seq<seq<real>>): (nat, nat) -> real
    requires Sized(p, |dist|) && SquareMatrix(dist, |dist|) && SquareMatrix(cut, |dist|)
  {
    (i: nat, j: nat) => BruteLjTerm(p, dist, cut, i, j)
  }

  /** Brute force, Coulomb: the pair's term counts when its distance is below
      the real-space cutoff. */
  function BruteCoulombTerm(p: PairParameters, kernel: real -> real, dist: seq<seq<real>>, rCutoff: real,
                            i: nat, j: nat): real
    requires Sized(p, |dist|) && SquareMatrix(dist, |dist|)
  {
    if i < |dist| && j < |dist| && Within(dist[i][j], rCutoff)
    then p.charges[i] * p.charges[j] * kernel(dist[i][j])
    else 0.0
  }

  function BruteCoulombPairs(p: PairParameters, kernel: real -> real, dist: seq<seq<real>>, rCutoff: real): (nat, nat) -> real
    requires Sized(p, |dist|) && SquareMatrix(dist, |dist|)
  {
    (i: nat, j: nat) => BruteCoulombTerm(p, kernel, dist, rCutoff, i, j)
  }

  /** `lj_interaction + coulomb_interaction * scale`, where a switched-off
      part keeps its accumulator at 0. */
  function ModeTotal(ljSum: real, coulombSum: real, scale: real, coulomb: bool, lj: bool): real
  {
    (if lj then ljSum else 0.0) + (if coulomb then coulombSum else 0.0) * scale
  }

  /** The brute-force energy: every unordered pair once, the Coulomb sum
      scaled by the unit factor. */
  function BruteEnergy(p: PairParameters, kernel: real -> real, dist: seq<seq<real>>, cut: seq<seq<real>>,
                       rCutoff: real, scale: real, coulomb: bool, lj: bool): real
    requires Sized(p, |dist|) && SquareMatrix(dist, |dist|) && SquareMatrix(cut, |dist|)
  {
    var n := |dist|;
    ModeTotal(UpperUpTo(BruteLjPairs(p, dist, cut), n, n), UpperUpTo(BruteCoulombPairs(p, kernel, dist, rCutoff), n, n),
              scale, coulomb, lj)
  }

  /** Neighbour mode, Lennard-Jones: no cutoff of its own, every neighbour
      contributes. */
  function NeighbourLjTerm(p: PairParameters, pos: seq<Vec>, box: real, i: nat, j: nat): real
    requires box > 0.0 && Sized(p, |pos|)
  {
    if i < |pos| && j < |pos|
    then LjTerm(MinImageDist2(pos[i], pos[j], box), p.sigmas[i][j], p.epsilons[i][j])
    else 0.0
  }

  function NeighbourLjPairs(p: PairParameters, pos: seq<Vec>, box: real): (nat, nat) -> real
    requires box > 0.0 && Sized(p, |pos|)
  {
    (i: nat, j: nat) => NeighbourLjTerm(p, pos, box, i, j)
  }

  /** Neighbour mode, Coulomb. */
  function NeighbourCoulombTerm(p: PairParameters, kernel: real -> real, pos: seq<Vec>, box: real, i: nat, j: nat): real
    requires box > 0.0 && Sized(p, |pos|)
  {
    if i < |pos| && j < |pos|
    then p.charges[i] * p.charges[j] * kernel(MinImageDist2(pos[i], pos[j], box))
    else 0.0
  }

  function NeighbourCoulombPairs(p: PairParameters, kernel: real -> real, pos: seq<Vec>, box: real): (nat, nat) -> real
    requires box > 0.0 && Sized(p, |pos|)
  {
    (i: nat, j: nat) => NeighbourCoulombTerm(p, kernel, pos, box, i, j)
  }

  /** The sum, over particles `i < rows`, of `g` over the grid query of `i`. */
  function QueryTotal(g: (nat, nat) -> real, pos: seq<Vec>, box: real, r: real, grid: Grid, m: nat, c: real,
                      rows: nat): real
    requires box > 0.0 && c > 0.0 && m >= 1 && rows <= |pos| && Shaped(grid, m) && EntriesBelow(grid, m, |pos|)
  {
    if rows == 0 then 0.0
    else QueryTotal(g, pos, box, r, grid, m, c, rows - 1) + RowSum(g, rows - 1, Query(pos, box, r, rows - 1, grid, m, c))
  }

  /** The neighbour-mode energy: half of the sum over every particle's
      neighbours. */
  function NeighbourEnergy(p: PairParameters, kernel: real -> real, pos: seq<Vec>, box: real, r: real,
                           grid: Grid, m: nat, c: real, scale: real, coulomb: bool, lj: bool): real
    requires box > 0.0 && c > 0.0 && m >= 1 && Sized(p, |pos|) && Shaped(grid, m) && EntriesBelow(grid, m, |pos|)
  {
    var n := |pos|;
    0.5 * ModeTotal(QueryTotal(NeighbourLjPairs(p, pos, box), pos, box, r, grid, m, c, n),
                    QueryTotal(NeighbourCoulombPairs(p, kernel, pos, box), pos, box, r, grid, m, c, n),
                    scale, coulomb, lj)
  }

  /** The pair function that keeps `g` on accepted neighbour pairs and is 0
      elsewhere. */
  function AcceptedTerm(g: (nat, nat) -> real, pos: seq<Vec>, box: real, r: real, i: nat, j: nat): real
    requires box > 0.0
  {
    if i < |pos| && j < |pos| && Accept(pos, box, r, i, j) then g(i, j) else 0.0
  }

  function AcceptedPairs(g: (nat, nat) -> real, pos: seq<Vec>, box: real, r: real): (nat, nat) -> real
    requires box > 0.0
  {
    (i: nat, j: nat) => AcceptedTerm(g, pos, box, r, i, j)
  }

  /** Every term 1: sums count. */
  function Ones(): (nat, nat) -> real
  {
    (i: nat, j: nat) => 1.0
  }

  // ---------------------------------------------------------------------
  // The vectorised row sums of neighbour mode
  // ---------------------------------------------------------------------

  /** `lj_potential` applied to the arrays of one particle's neighbours and
      their distances: the sum of the pair energies. */
  function NeighbourLjSum(p: PairParameters, i: nat, nb: seq<nat>, ds: seq<real>): real
    requires Sized(p, |p.charges|) && i < |p.charges| && |ds| == |nb|
    requires forall t :: 0 <= t < |nb| ==> nb[t] < |p.charges|
  {
    if nb == [] then 0.0
    else NeighbourLjSum(p, i, nb[..|nb| - 1], ds[..|ds| - 1])
         + LjTerm(ds[|ds| - 1], p.sigmas[i][nb[|nb| - 1]], p.epsilons[i][nb[|nb| - 1]])
  }

  /** The summed charges of one particle's neighbours, each weighted by the
      kernel of its distance. */
  function NeighbourCoulombSum(p: PairParameters, kernel: real -> real, nb: seq<nat>, ds: seq<real>): real
    requires |ds| == |nb|
    requires forall t :: 0 <= t < |nb| ==> nb[t] < |p.charges|
  {
    if nb == [] then 0.0
    else NeighbourCoulombSum(p, kernel, nb[..|nb| - 1], ds[..|ds| - 1])
         + p.charges[nb[|nb| - 1]] * kernel(ds[|ds| - 1])
  }

  /** The Coulomb contribution of the row of `i`: its own charge times the
      vectorised sum over its neighbours. */
  function NeighbourCoulombRow(p: PairParameters, kernel: real -> real, i: nat, nb: seq<nat>, ds: seq<real>): real
    requires i < |p.charges| && |ds| == |nb|
    requires forall t :: 0 <= t < |nb| ==> nb[t] < |p.charges|
  {
    p.charges[i] * NeighbourCoulombSum(p, kernel, nb, ds)
  }

  lemma DistancesOfPrefix(pos: seq<Vec>, box: real, pid: nat, nb: seq<nat>, ds: seq<real>)
    requires box > 0.0 && pid < |pos| && nb != []
    requires DistancesOf(pos, box, pid, nb, ds)
    ensures DistancesOf(pos, box, pid, nb[..|nb| - 1], ds[..|ds| - 1])
  {
  }

  /** The vectorised Lennard-Jones row equals the row sum of the neighbour-mode
      pair function over the same neighbours. */
  lemma {:induction false} NeighbourLjSumIsRowSum(p: PairParameters, pos: seq<Vec>, box: real, i: nat,
                                                 nb: seq<nat>, ds: seq<real>)
    requires box > 0.0 && Sized(p, |pos|) && i < |pos|
    requires DistancesOf(pos, box, i, nb, ds)
    ensures NeighbourLjSum(p, i, nb, ds) == RowSum(NeighbourLjPairs(p, pos, box), i, nb)
  {
    if nb != [] {
      DistancesOfPrefix(pos, box, i, nb, ds);
      NeighbourLjSumIsRowSum(p, pos, box, i, nb[..|nb| - 1], ds[..|ds| - 1]);
    }
  }

  /** The vectorised Coulomb row, times the particle's own charge, equals the
      row sum of the neighbour-mode pair function. */
  lemma {:induction false} NeighbourCoulombSumIsRowSum(p: PairParameters, kernel: real -> real, pos: seq<Vec>,
                                                      box: real, i: nat, nb: seq<nat>, ds: seq<real>)
    requires box > 0.0 && Sized(p, |pos|) && i < |pos|
    requires DistancesOf(pos, box, i, nb, ds)
    ensures NeighbourCoulombRow(p, kernel, i, nb, ds) == RowSum(NeighbourCoulombPairs(p, kernel, pos, box), i, nb)
  {
    if nb != [] {
      var k := |nb| - 1;
      DistancesOfPrefix(pos, box, i, nb, ds);
      NeighbourCoulombSumIsRowSum(p, kernel, pos, box, i, nb[..k], ds[..k]);
      CoulombRowStep(p, kernel, pos, box, i, nb, ds);
    }
  }

  /** Extending a row by its last neighbour adds that neighbour's pair term. */
  lemma CoulombRowStep(p: PairParameters, kernel: real -> real, pos: seq<Vec>, box: real, i: nat,
                       nb: seq<nat>, ds: seq<real>)
    requires box > 0.0 && Sized(p, |pos|) && i < |pos| && nb != []
    requires DistancesOf(pos, box, i, nb, ds)
    ensures NeighbourCoulombRow(p, kernel, i, nb, ds)
         == NeighbourCoulombRow(p, kernel, i, nb[..|nb| - 1], ds[..|ds| - 1])
            + NeighbourCoulombPairs(p, kernel, pos, box)(i, nb[|nb| - 1])
  {
    var k := |nb| - 1;
    assert nb[k] < |pos| && ds[k] == MinImageDist2(pos[i], pos[nb[k]], box);
    CoulombRowSplit(p, kernel, i, nb, ds);
    CoulombPairAt(p, kernel, pos, box, i, nb[k], ds[k]);
  }

  /** The row with its last neighbour is the row without it plus the pair's
      charge product times the kernel. */
  lemma CoulombRowSplit(p: PairParameters, kernel: real -> real, i: nat, nb: seq<nat>, ds: seq<real>)
    requires i < |p.charges| && |ds| == |nb| && nb != []
    requires forall t :: 0 <= t < |nb| ==> nb[t] < |p.charges|
    ensures NeighbourCoulombRow(p, kernel, i, nb, ds)
         == NeighbourCoulombRow(p, kernel, i, nb[..|nb| - 1], ds[..|ds| - 1])
            + p.charges[i] * p.charges[nb[|nb| - 1]] * kernel(ds[|ds| - 1])
  {
    var k := |nb| - 1;
    var a, b, w := p.charges[i], p.charges[nb[k]], kernel(ds[k]);
    var rest := NeighbourCoulombSum(p, kernel, nb[..k], ds[..k]);
    assert NeighbourCoulombSum(p, kernel, nb, ds) == rest + b * w;
    CoulombRowExtends(a, b, w, rest);
  }

  /** The neighbour-mode Coulomb term of a pair at squared distance `d`. */
  lemma CoulombPairAt(p: PairParameters, kernel: real -> real, pos: seq<Vec>, box: real, i: nat, j: nat, d: real)
    requires box > 0.0 && Sized(p, |pos|) && i < |pos| && j < |pos|
    requires d == MinImageDist2(pos[i], pos[j], box)
    ensures NeighbourCoulombPairs(p, kernel, pos, box)(i, j) == p.charges[i] * p.charges[j] * kernel(d)
  {
  }

  lemma CoulombRowExtends(a: real, b: real, w: real, rest: real)
    ensures a * (rest + b * w) == a * rest + a * b * w
  {
    MulAssociates(a, b, w);
    MulDistributes(a, rest, b * w);
  }

  // ---------------------------------------------------------------------
  // Neighbour mode versus brute force
  // ---------------------------------------------------------------------

  /** Summing over the brute-force row of `i` is summing the accepted pairs of
      row `i`. */
  lemma {:induction false} BruteRowSum(g: (nat, nat) -> real, pos: seq<Vec>, box: real, r: real, i: nat, hi: nat)
    requires box > 0.0 && i < |pos| && hi <= |pos|
    ensures RowSum(g, i, BruteRow(pos, box, r, i, hi)) == FullRow(AcceptedPairs(g, pos, box, r), i, hi)
  {
    if hi > 0 {
      BruteRowSum(g, pos, box, r, i, hi - 1);
      var prev := BruteRow(pos, box, r, i, hi - 1);
      if Accept(pos, box, r, i, hi - 1) {
        assert BruteRow(pos, box, r, i, hi) == prev + [hi - 1];
        assert (prev + [hi - 1])[..|prev|] == prev;
      } else {
        assert BruteRow(pos, box, r, i, hi) == prev;
      }
    }
  }

  /** With at least three cells per axis, summing over the grid query of `i`
      is summing the accepted pairs of row `i`. */
  lemma QueryRowSum(g: (nat, nat) -> real, pos: seq<Vec>, box: real, r: real, grid: Grid, i: nat)
    requires box > 0.0 && r > 0.0 && InBox(pos, box) && i < |pos|
    requires GridHolds(grid, pos, CellLen(box, r), NrCells(box, r), |pos|)
    requires NrCells(box, r) >= 3
    ensures EntriesBelow(grid, NrCells(box, r), |pos|)
    ensures RowSum(g, i, Query(pos, box, r, i, grid, NrCells(box, r), CellLen(box, r)))
         == FullRow(AcceptedPairs(g, pos, box, r), i, |pos|)
  {
    QueryIsPermutationOfBrute(pos, box, r, i, grid);
    RowSumPermutation(g, i, Query(pos, box, r, i, grid, NrCells(box, r), CellLen(box, r)),
                      BruteRow(pos, box, r, i, |pos|));
    BruteRowSum(g, pos, box, r, i, |pos|);
  }

  /** With at least three cells per axis, the neighbour-mode sum over every
      particle's query equals the sum of the accepted pairs over all ordered
      pairs. */
  lemma {:induction false} QueryTotalIsFull(g: (nat, nat) -> real, pos: seq<Vec>, box: real, r: real, grid: Grid,
                                            rows: nat)
    requires box > 0.0 && r > 0.0 && InBox(pos, box) && rows <= |pos|
    requires GridHolds(grid, pos, CellLen(box, r), NrCells(box, r), |pos|)
    requires NrCells(box, r) >= 3
    ensures EntriesBelow(grid, NrCells(box, r), |pos|)
    ensures QueryTotal(g, pos, box, r, grid, NrCells(box, r), CellLen(box, r), rows)
         == FullUpTo(AcceptedPairs(g, pos, box, r), rows, |pos|)
  {
    var m, c := NrCells(box, r), CellLen(box, r);
    GridHoldsEntriesBelow(grid, pos, c, m);
    if rows > 0 {
      var k := rows - 1;
      var a := AcceptedPairs(g, pos, box, r);
      QueryTotalIsFull(g, pos, box, r, grid, k);
      QueryRowSum(g, pos, box, r, grid, k);
      QueryTotalStep(g, a, pos, box, r, grid, m, c, k);
    }
  }

  /** One more row on both sides keeps a neighbour total equal to a full
      total. */
  lemma QueryTotalStep(g: (nat, nat) -> real, a: (nat, nat) -> real, pos: seq<Vec>, box: real, r: real,
                       grid: Grid, m: nat, c: real, k: nat)
    requires box > 0.0 && c > 0.0 && m >= 1 && k < |pos| && Shaped(grid, m) && EntriesBelow(grid, m, |pos|)
    requires QueryTotal(g, pos, box, r, grid, m, c, k) == FullUpTo(a, k, |pos|)
    requires RowSum(g, k, Query(pos, box, r, k, grid, m, c)) == FullRow(a, k, |pos|)
    ensures QueryTotal(g, pos, box, r, grid, m, c, k + 1) == FullUpTo(a, k + 1, |pos|)
  {
  }

  /** Restricting a pair function that is symmetric on the particles to the
      accepted pairs gives a symmetric pair function with zero diagonal. */
  lemma AcceptedSymmetric(g: (nat, nat) -> real, pos: seq<Vec>, box: real, r: real)
    requires box > 0.0
    requires forall i: nat, j: nat :: i < |pos| && j < |pos| ==> g(i, j) == g(j, i)
    ensures SymmetricPairs(AcceptedPairs(g, pos, box, r))
    ensures ZeroDiagonal(AcceptedPairs(g, pos, box, r))
  {
    var a := AcceptedPairs(g, pos, box, r);
    forall i: nat, j: nat ensures a(i, j) == a(j, i) {
      if i < |pos| && j < |pos| {
        MinImageDist2Symmetric(pos[i], pos[j], box);
      }
    }
  }

  lemma LjPairsSymmetric(p: PairParameters, pos: seq<Vec>, box: real)
    requires box > 0.0 && Sized(p, |pos|) && Symmetric(p.sigmas) && Symmetric(p.epsilons)
    ensures forall i: nat, j: nat :: i < |pos| && j < |pos| ==>
      NeighbourLjPairs(p, pos, box)(i, j) == NeighbourLjPairs(p, pos, box)(j, i)
  {
    forall i: nat, j: nat | i < |pos| && j < |pos|
      ensures NeighbourLjPairs(p, pos, box)(i, j) == NeighbourLjPairs(p, pos, box)(j, i)
    {
      MinImageDist2Symmetric(pos[i], pos[j], box);
    }
  }

  lemma CoulombPairsSymmetric(p: PairParameters, kernel: real -> real, pos: seq<Vec>, box: real)
    requires box > 0.0 && Sized(p, |pos|)
    ensures forall i: nat, j: nat :: i < |pos| && j < |pos| ==>
      NeighbourCoulombPairs(p, kernel, pos, box)(i, j) == NeighbourCoulombPairs(p, kernel, pos, box)(j, i)
  {
    forall i: nat, j: nat | i < |pos| && j < |pos|
      ensures NeighbourCoulombPairs(p, kernel, pos, box)(i, j) == NeighbourCoulombPairs(p, kernel, pos, box)(j, i)
    {
      MinImageDist2Symmetric(pos[i], pos[j], box);
    }
  }

  /** The neighbour-mode sum of a symmetric pair function is twice its sum over
      the accepted unordered pairs. */
  lemma QueryTotalIsTwiceUpper(g: (nat, nat) -> real, pos: seq<Vec>, box: real, r: real, grid: Grid)
    requires box > 0.0 && r > 0.0 && InBox(pos, box)
    requires GridHolds(grid, pos, CellLen(box, r), NrCells(box, r), |pos|)
    requires NrCells(box, r) >= 3
    requires forall i: nat, j: nat :: i < |pos| && j < |pos| ==> g(i, j) == g(j, i)
    ensures EntriesBelow(grid, NrCells(box, r), |pos|)
    ensures QueryTotal(g, pos, box, r, grid, NrCells(box, r), CellLen(box, r), |pos|)
         == 2.0 * UpperUpTo(AcceptedPairs(g, pos, box, r), |pos|, |pos|)
  {
    QueryTotalIsFull(g, pos, box, r, grid, |pos|);
    AcceptedSymmetric(g, pos, box, r);
    FullIsTwiceUpper(AcceptedPairs(g, pos, box, r), |pos|);
  }

  /** With at least three cells per axis, symmetric mixing matrices, the
      minimum-image distance matrix and every Lennard-Jones cutoff equal to
      the neighbour radius, the neighbour-mode energy equals the brute-force
      energy. */
  lemma NeighbourMatchesBrute(p: PairParameters, kernel: real -> real, pos: seq<Vec>, box: real, r: real,
                              grid: Grid, dist: seq<seq<real>>, cut: seq<seq<real>>, scale: real,
                              coulomb: bool, lj: bool)
    requires box > 0.0 && r > 0.0 && InBox(pos, box)
    requires Sized(p, |pos|) && Symmetric(p.sigmas) && Symmetric(p.epsilons)
    requires GridHolds(grid, pos, CellLen(box, r), NrCells(box, r), |pos|)
    requires NrCells(box, r) >= 3
    requires MinImageMatrix(dist, pos, box)
    requires SquareMatrix(cut, |pos|) && forall i, j :: 0 <= i < |pos| && 0 <= j < |pos| ==> cut[i][j] == r
    ensures EntriesBelow(grid, NrCells(box, r), |pos|)
    ensures NeighbourEnergy(p, kernel, pos, box, r, grid, NrCells(box, r), CellLen(box, r), scale, coulomb, lj)
         == BruteEnergy(p, kernel, dist, cut, r, scale, coulomb, lj)
  {
    var n := |pos|;
    NeighbourLjIsTwiceBrute(p, pos, box, r, grid, dist, cut);
    NeighbourCoulombIsTwiceBrute(p, kernel, pos, box, r, grid, dist);
    EnergiesFromTotals(p, kernel, pos, box, r, grid, NrCells(box, r), CellLen(box, r), dist, cut, scale, coulomb, lj);
  }

  /** The neighbour-mode energy equals the brute-force energy once each
      neighbour-mode total is twice its brute-force triangle. */
  lemma EnergiesFromTotals(p: PairParameters, kernel: real -> real, pos: seq<Vec>, box: real, r: real,
                           grid: Grid, m: nat, c: real, dist: seq<seq<real>>, cut: seq<seq<real>>, scale: real,
                           coulomb: bool, lj: bool)
    requires box > 0.0 && c > 0.0 && m >= 1 && Sized(p, |pos|) && Shaped(grid, m) && EntriesBelow(grid, m, |pos|)
    requires SquareMatrix(dist, |pos|) && SquareMatrix(cut, |pos|)
    requires QueryTotal(NeighbourLjPairs(p, pos, box), pos, box, r, grid, m, c, |pos|)
          == 2.0 * UpperUpTo(BruteLjPairs(p, dist, cut), |pos|, |pos|)
    requires QueryTotal(NeighbourCoulombPairs(p, kernel, pos, box), pos, box, r, grid, m, c, |pos|)
          == 2.0 * UpperUpTo(BruteCoulombPairs(p, kernel, dist, r), |pos|, |pos|)
    ensures NeighbourEnergy(p, kernel, pos, box, r, grid, m, c, scale, coulomb, lj)
         == BruteEnergy(p, kernel, dist, cut, r, scale, coulomb, lj)
  {
    var n := |pos|;
    assert |dist| == n;
    ModeSums(QueryTotal(NeighbourLjPairs(p, pos, box), pos, box, r, grid, m, c, n),
             QueryTotal(NeighbourCoulombPairs(p, kernel, pos, box), pos, box, r, grid, m, c, n),
             UpperUpTo(BruteLjPairs(p, dist, cut), n, n),
             UpperUpTo(BruteCoulombPairs(p, kernel, dist, r), n, n),
             scale, coulomb, lj);
  }

  /** The two accumulators, each 0 when its part is switched off, combine
      into the mode total. */
  lemma AccumulatorsTotal(ljAcc: real, coulAcc: real, ljSum: real, coulombSum: real, scale: real,
                          coulomb: bool, lj: bool)
    requires ljAcc == (if lj then ljSum else 0.0) && coulAcc == (if coulomb then coulombSum else 0.0)
    ensures ljAcc + coulAcc * scale == ModeTotal(ljSum, coulombSum, scale, coulomb, lj)
  {
  }

  /** Halving the total of doubled sums gives the total of the sums. */
  lemma ModeSums(ql: real, qc: real, ul: real, uc: real, scale: real, coulomb: bool, lj: bool)
    requires ql == 2.0 * ul && qc == 2.0 * uc
    ensures 0.5 * ModeTotal(ql, qc, scale, coulomb, lj) == ModeTotal(ul, uc, scale, coulomb, lj)
  {
    var a := if lj then ul else 0.0;
    var b := if coulomb then uc else 0.0;
    assert (2.0 * b) * scale == 2.0 * (b * scale);
  }

  /** The neighbour-mode Lennard-Jones sum counts each brute-force pair twice. */
  lemma NeighbourLjIsTwiceBrute(p: PairParameters, pos: seq<Vec>, box: real, r: real, grid: Grid,
                                dist: seq<seq<real>>, cut: seq<seq<real>>)
    requires box > 0.0 && r > 0.0 && InBox(pos, box)
    requires Sized(p, |pos|) && Symmetric(p.sigmas) && Symmetric(p.epsilons)
    requires GridHolds(grid, pos, CellLen(box, r), NrCells(box, r), |pos|)
    requires NrCells(box, r) >= 3
    requires MinImageMatrix(dist, pos, box)
    requires SquareMatrix(cut, |pos|) && forall i, j :: 0 <= i < |pos| && 0 <= j < |pos| ==> cut[i][j] == r
    ensures EntriesBelow(grid, NrCells(box, r), |pos|)
    ensures QueryTotal(NeighbourLjPairs(p, pos, box), pos, box, r, grid, NrCells(box, r), CellLen(box, r), |pos|)
         == 2.0 * UpperUpTo(BruteLjPairs(p, dist, cut), |pos|, |pos|)
  {
    LjPairsSymmetric(p, pos, box);
    QueryTotalIsTwiceUpper(NeighbourLjPairs(p, pos, box), pos, box, r, grid);
    BruteLjIsAccepted(p, pos, box, r, dist, cut);
  }

  /** The neighbour-mode Coulomb sum counts each brute-force pair twice. */
  lemma NeighbourCoulombIsTwiceBrute(p: PairParameters, kernel: real -> real, pos: seq<Vec>, box: real, r: real,
                                     grid: Grid, dist: seq<seq<real>>)
    requires box > 0.0 && r > 0.0 && InBox(pos, box) && Sized(p, |pos|)
    requires GridHolds(grid, pos, CellLen(box, r), NrCells(box, r), |pos|)
    requires NrCells(box, r) >= 3
    requires MinImageMatrix(dist, pos, box)
    ensures EntriesBelow(grid, NrCells(box, r), |pos|)
    ensures QueryTotal(NeighbourCoulombPairs(p, kernel, pos, box), pos, box, r, grid, NrCells(box, r), CellLen(box, r), |pos|)
         == 2.0 * UpperUpTo(BruteCoulombPairs(p, kernel, dist, r), |pos|, |pos|)
  {
    CoulombPairsSymmetric(p, kernel, pos, box);
    QueryTotalIsTwiceUpper(NeighbourCoulombPairs(p, kernel, pos, box), pos, box, r, grid);
    BruteCoulombIsAccepted(p, kernel, pos, box, r, dist);
  }

  lemma BruteLjTermAccepted(p: PairParameters, pos: seq<Vec>, box: real, r: real, dist: seq<seq<real>>,
                            cut: seq<seq<real>>, i: nat, j: nat)
    requires box > 0.0 && Sized(p, |pos|) && SquareMatrix(dist, |pos|) && SquareMatrix(cut, |pos|)
    requires i < j < |pos| && dist[i][j] == MinImageDist2(pos[i], pos[j], box) && cut[i][j] == r
    ensures BruteLjTerm(p, dist, cut, i, j) == AcceptedTerm(NeighbourLjPairs(p, pos, box), pos, box, r, i, j)
  {
    assert NeighbourLjPairs(p, pos, box)(i, j) == NeighbourLjTerm(p, pos, box, i, j);
  }

  lemma BruteCoulombTermAccepted(p: PairParameters, kernel: real -> real, pos: seq<Vec>, box: real, r: real,
                                 dist: seq<seq<real>>, i: nat, j: nat)
    requires box > 0.0 && Sized(p, |pos|) && SquareMatrix(dist, |pos|)
    requires i < j < |pos| && dist[i][j] == MinImageDist2(pos[i], pos[j], box)
    ensures BruteCoulombTerm(p, kernel, dist, r, i, j)
         == AcceptedTerm(NeighbourCoulombPairs(p, kernel, pos, box), pos, box, r, i, j)
  {
    assert NeighbourCoulombPairs(p, kernel, pos, box)(i, j) == NeighbourCoulombTerm(p, kernel, pos, box, i, j);
  }

  /** Brute force with every Lennard-Jones cutoff equal to the radius keeps
      exactly the accepted Lennard-Jones pairs of neighbour mode. */
  lemma BruteLjIsAccepted(p: PairParameters, pos: seq<Vec>, box: real, r: real, dist: seq<seq<real>>,
                          cut: seq<seq<real>>)
    requires box > 0.0 && Sized(p, |pos|) && MinImageMatrix(dist, pos, box)
    requires SquareMatrix(cut, |pos|) && forall i, j :: 0 <= i < |pos| && 0 <= j < |pos| ==> cut[i][j] == r
    ensures UpperUpTo(BruteLjPairs(p, dist, cut), |pos|, |pos|)
         == UpperUpTo(AcceptedPairs(NeighbourLjPairs(p, pos, box), pos, box, r), |pos|, |pos|)
  {
    var bl := BruteLjPairs(p, dist, cut);
    var al := AcceptedPairs(NeighbourLjPairs(p, pos, box), pos, box, r);
    forall i: nat, j: nat | i < j < |pos| ensures bl(i, j) == al(i, j) {
      BruteLjTermAccepted(p, pos, box, r, dist, cut, i, j);
    }
    UpperAgree(bl, al, |pos|, |pos|);
  }

  /** Brute force keeps exactly the accepted Coulomb pairs of neighbour mode. */
  lemma BruteCoulombIsAccepted(p: PairParameters, kernel: real -> real, pos: seq<Vec>, box: real, r: real,
                               dist: seq<seq<real>>)
    requires box > 0.0 && Sized(p, |pos|) && MinImageMatrix(dist, pos, box)
    ensures UpperUpTo(BruteCoulombPairs(p, kernel, dist, r), |pos|, |pos|)
         == UpperUpTo(AcceptedPairs(NeighbourCoulombPairs(p, kernel, pos, box), pos, box, r), |pos|, |pos|)
  {
    var bc := BruteCoulombPairs(p, kernel, dist, r);
    var ac := AcceptedPairs(NeighbourCoulombPairs(p, kernel, pos, box), pos, box, r);
    forall i: nat, j: nat | i < j < |pos| ensures bc(i, j) == ac(i, j) {
      BruteCoulombTermAccepted(p, kernel, pos, box, r, dist, i, j);
    }
    UpperAgree(bc, ac, |pos|, |pos|);
  }

  /** The iteration count of neighbour mode is, with at least three cells per
      axis, twice the number of unordered neighbour pairs. */
  lemma NeighbourCountIsTwicePairs(pos: seq<Vec>, box: real, r: real, grid: Grid)
    requires box > 0.0 && r > 0.0 && InBox(pos, box)
    requires GridHolds(grid, pos, CellLen(box, r), NrCells(box, r), |pos|)
    requires NrCells(box, r) >= 3
    ensures EntriesBelow(grid, NrCells(box, r), |pos|)
    ensures QueryTotal(Ones(), pos, box, r, grid, NrCells(box, r), CellLen(box, r), |pos|)
         == 2.0 * UpperUpTo(AcceptedPairs(Ones(), pos, box, r), |pos|, |pos|)
  {
    QueryTotalIsTwiceUpper(Ones(), pos, box, r, grid);
  }

  /** A second particle at separation `d` along one axis and one at `L - d`
      give the same brute-force energy. */
  lemma ComplementarySeparationSameEnergy(p: PairParameters, kernel: real -> real, a: Vec, d: real, box: real,
                                          dist1: seq<seq<real>>, dist2: seq<seq<real>>, cut: seq<seq<real>>,
                                          rCutoff: real, scale: real, coulomb: bool, lj: bool)
    requires box > 0.0 && Sized(p, 2) && SquareMatrix(cut, 2)
    requires MinImageMatrix(dist1, [a, Vec(a.x, a.y, a.z + d)], box)
    requires MinImageMatrix(dist2, [a, Vec(a.x, a.y, a.z + box - d)], box)
    ensures BruteEnergy(p, kernel, dist1, cut, rCutoff, scale, coulomb, lj)
         == BruteEnergy(p, kernel, dist2, cut, rCutoff, scale, coulomb, lj)
  {
    var pos1 := [a, Vec(a.x, a.y, a.z + d)];
    var pos2 := [a, Vec(a.x, a.y, a.z + box - d)];
    MinImageComplementarySeparation(a, d, box);
    assert dist1[0][1] == MinImageDist2(pos1[0], pos1[1], box);
    assert dist2[0][1] == MinImageDist2(pos2[0], pos2[1], box);
    forall i, j | 0 <= i < j < 2 ensures dist1[i][j] == dist2[i][j] {
      assert i == 0 && j == 1;
    }
    BruteEnergyUpperDistances(p, kernel, dist1, dist2, cut, rCutoff, scale, coulomb, lj);
  }

  /** The brute-force energy reads only the distances above the diagonal. */
  lemma BruteEnergyUpperDistances(p: PairParameters, kernel: real -> real, dist1: seq<seq<real>>,
                                  dist2: seq<seq<real>>, cut: seq<seq<real>>, rCutoff: real, scale: real,
                                  coulomb: bool, lj: bool)
    requires Sized(p, |dist1|) && SquareMatrix(dist1, |dist1|) && SquareMatrix(dist2, |dist1|)
    requires SquareMatrix(cut, |dist1|)
    requires forall i, j :: 0 <= i < j < |dist1| ==> dist1[i][j] == dist2[i][j]
    ensures BruteEnergy(p, kernel, dist1, cut, rCutoff, scale, coulomb, lj)
         == BruteEnergy(p, kernel, dist2, cut, rCutoff, scale, coulomb, lj)
  {
    var n := |dist1|;
    var l1, l2 := BruteLjPairs(p, dist1, cut), BruteLjPairs(p, dist2, cut);
    var c1, c2 := BruteCoulombPairs(p, kernel, dist1, rCutoff), BruteCoulombPairs(p, kernel, dist2, rCutoff);
    forall i: nat, j: nat | i < j < n ensures l1(i, j) == l2(i, j) && c1(i, j) == c2(i, j) {
      assert dist1[i][j] == dist2[i][j];
    }
    UpperAgree(l1, l2, n, n);
    UpperAgree(c1, c2, n, n);
  }

  // ---------------------------------------------------------------------
  // The short-range calculator
  // ---------------------------------------------------------------------

  /** The short-range calculator of one configuration. The charges and the
      mixing matrices are taken from the configuration when it is built; the
      Lennard-Jones cutoff matrix is read from the configuration on every
      brute-force evaluation. */
  class Shortrange {
    const systemConf: SystemConfiguration
    const epsilonR: real
    const boxLength: real
    const charges: seq<real>
    const epsilons: seq<seq<real>>
    const sigmas: seq<seq<real>>
    const sigmaC: real
    const rCutoff: real
    const neighbouring: bool
    var distances: seq<seq<real>>
    var nlist: CellLinkedLists?

    function Params(): PairParameters
    {
      PairParameters(charges, sigmas, epsilons)
    }

    ghost predicate Valid()
      reads this, nlist
    {
      Sized(Params(), |charges|)
      && (neighbouring ==>
            boxLength > 0.0 && nlist != null && nlist.Valid()
            && nlist.r == rCutoff && nlist.boxSize == boxLength && nlist.n == |charges|)
    }

    /** Copies the parameters out of `conf`, starts with an all-zero distance
        matrix and, in neighbour mode, builds the cell grid of the
        configuration's positions. */
    constructor (conf: SystemConfiguration, sigmaC: real, rCutoff: real)
      requires SquareMatrix(conf.ljSigmaMatrix, |conf.charges|) && SquareMatrix(conf.ljEpsilonMatrix, |conf.charges|)
      requires conf.neighbouring ==>
        conf.boxSize > 0.0 && rCutoff > 0.0 && InBox(conf.xyz, conf.boxSize) && |conf.xyz| == |conf.charges|
      ensures Valid()
      ensures systemConf == conf && epsilonR == conf.epsilonR && boxLength == conf.boxSize
      ensures charges == conf.charges && epsilons == conf.ljEpsilonMatrix && sigmas == conf.ljSigmaMatrix
      ensures this.sigmaC == sigmaC && this.rCutoff == rCutoff && neighbouring == conf.neighbouring
      ensures SquareMatrix(distances, |conf.xyz|)
      ensures forall i, j :: 0 <= i < |conf.xyz| && 0 <= j < |conf.xyz| ==> distances[i][j] == 0.0
      ensures neighbouring ==> fresh(nlist) && nlist.positions == conf.xyz
                               && GridHolds(nlist.cells, nlist.positions, nlist.cellLen, nlist.nrCells, nlist.n)
      ensures !neighbouring ==> nlist == null
    {
      systemConf := conf;
      epsilonR := conf.epsilonR;
      boxLength := conf.boxSize;
      charges := conf.charges;
      epsilons := conf.ljEpsilonMatrix;
      sigmas := conf.ljSigmaMatrix;
      this.sigmaC := sigmaC;
      this.rCutoff := rCutoff;
      neighbouring := conf.neighbouring;
      var n := |conf.xyz|;
      var zeros := seq(n, _ => 0.0);
      distances := seq(n, _ => zeros);
      if conf.neighbouring {
        nlist := new CellLinkedLists(conf.xyz, rCutoff, conf.boxSize);
      } else {
        nlist := null;
      }
    }

    /** `shortrange`. Neighbour mode stores the positions in the
        grid, rebuilds it and sums every particle's neighbour row, halving the
        total; brute-force mode fills the distance matrix and sums every
        unordered pair below its cutoff once. `fastDistances` stands for the
        compiled distance routine, `kernel` for the real-space Coulomb factor
        on a squared distance and `scale` for the unit prefactor over `4 pi`. */
    method ShortrangePotential(positions: seq<Vec>, coulomb: bool, lj: bool,
                               fastDistances: (seq<Vec>, real) -> seq<seq<real>>, kernel: real -> real,
                               scale: real) returns (e: real)
      requires Valid() && |positions| == |charges|
      requires neighbouring ==> InBox(positions, boxLength)
      requires !neighbouring ==>
        SquareMatrix(fastDistances(positions, boxLength), |positions|)
        && SquareMatrix(systemConf.ljCutoffMatrix, |positions|)
      modifies this, nlist
      ensures Valid() && nlist == old(nlist)
      ensures neighbouring ==>
        distances == old(distances) && nlist.positions == positions
        && GridHolds(nlist.cells, positions, CellLen(boxLength, rCutoff), NrCells(boxLength, rCutoff), |positions|)
        && e == NeighbourEnergy(Params(), kernel, positions, boxLength, rCutoff, nlist.cells,
                                NrCells(boxLength, rCutoff), CellLen(boxLength, rCutoff), scale, coulomb, lj)
      ensures !neighbouring ==>
        distances == fastDistances(positions, boxLength)
        && e == BruteEnergy(Params(), kernel, distances, systemConf.ljCutoffMatrix, rCutoff, scale, coulomb, lj)
    {
      var p := Params();
      if neighbouring {
        nlist.SetParticlePositions(positions);
        nlist.CreateNeighbourlist();
        var ljAcc, coulAcc := NeighbourSums(nlist, p, kernel, coulomb, lj);
        e := 0.5 * (ljAcc + coulAcc * scale);
        var m, c := NrCells(boxLength, rCutoff), CellLen(boxLength, rCutoff);
        AccumulatorsTotal(ljAcc, coulAcc,
                          QueryTotal(NeighbourLjPairs(p, positions, boxLength), positions, boxLength, rCutoff,
                                     nlist.cells, m, c, |positions|),
                          QueryTotal(NeighbourCoulombPairs(p, kernel, positions, boxLength), positions, boxLength,
                                     rCutoff, nlist.cells, m, c, |positions|),
                          scale, coulomb, lj);
      } else {
        distances := fastDistances(positions, boxLength);
        var cut := systemConf.ljCutoffMatrix;
        var ljAcc, coulAcc := BruteSums(p, kernel, distances, cut, rCutoff, coulomb, lj);
        e := ljAcc + coulAcc * scale;
        AccumulatorsTotal(ljAcc, coulAcc, UpperUpTo(BruteLjPairs(p, distances, cut), |positions|, |positions|),
                          UpperUpTo(BruteCoulombPairs(p, kernel, distances, rCutoff), |positions|, |positions|),
                          scale, coulomb, lj);
      }
    }

    /** `get_iterations`: in neighbour mode the summed lengths of the current
        neighbour rows, which once the grid is built and has at least three
        cells per axis is twice the number of pairs within the radius; in
        brute-force mode the number of unordered pairs. */
    method GetIterations() returns (it: int)
      requires Valid()
      ensures neighbouring ==>
        it as real == QueryTotal(Ones(), nlist.positions, boxLength, rCutoff, nlist.cells,
                                 NrCells(boxLength, rCutoff), CellLen(boxLength, rCutoff), |charges|)
      ensures neighbouring && NrCells(boxLength, rCutoff) >= 3 && InBox(nlist.positions, boxLength)
              && GridHolds(nlist.cells, nlist.positions, CellLen(boxLength, rCutoff), NrCells(boxLength, rCutoff), |charges|)
              ==> it as real == 2.0 * UpperUpTo(AcceptedPairs(Ones(), nlist.positions, boxLength, rCutoff), |charges|, |charges|)
      ensures !neighbouring ==>
        it == |charges| * (|charges| - 1) / 2 && it as real == UpperUpTo(Ones(), |charges|, |charges|)
    {
      var n := |charges|;
      if neighbouring {
        var m, c := NrCells(boxLength, rCutoff), CellLen(boxLength, rCutoff);
        it := CountNeighbours(nlist);
        if m >= 3 && InBox(nlist.positions, boxLength)
           && GridHolds(nlist.cells, nlist.positions, c, m, n) {
          NeighbourCountIsTwicePairs(nlist.positions, boxLength, rCutoff, nlist.cells);
        }
      } else {
        it := n * (n - 1) / 2;
        PairCount(Ones(), n);
        EvenPairProduct(n);
      }
    }

    /** `recreate_neighbourlist`: in neighbour mode a fresh grid over the
        configuration's current positions; otherwise nothing. */
    method RecreateNeighbourlist()
      requires Valid()
      requires neighbouring ==> InBox(systemConf.xyz, boxLength) && |systemConf.xyz| == |charges|
      modifies this
      ensures Valid() && distances == old(distances)
      ensures neighbouring ==> fresh(nlist) && nlist.positions == systemConf.xyz
                               && GridHolds(nlist.cells, nlist.positions, nlist.cellLen, nlist.nrCells, nlist.n)
      ensures !neighbouring ==> nlist == old(nlist)
    {
      if neighbouring {
        nlist := new CellLinkedLists(systemConf.xyz, rCutoff, boxLength);
      }
    }
  }

  /** One row of the neighbour-mode loop: the vectorised sums of the row of
      `i` extend both neighbour-mode totals from `i` rows to `i + 1`; an empty
      row adds nothing. */
  lemma NeighbourRowStep(p: PairParameters, kernel: real -> real, pos: seq<Vec>, box: real, r: real,
                         grid: Grid, m: nat, c: real, i: nat, nb: seq<nat>, ds: seq<real>)
    requires box > 0.0 && c > 0.0 && m >= 1 && i < |pos| && Sized(p, |pos|)
    requires Shaped(grid, m) && EntriesBelow(grid, m, |pos|)
    requires nb == Query(pos, box, r, i, grid, m, c) && DistancesOf(pos, box, i, nb, ds)
    ensures QueryTotal(NeighbourLjPairs(p, pos, box), pos, box, r, grid, m, c, i + 1)
         == QueryTotal(NeighbourLjPairs(p, pos, box), pos, box, r, grid, m, c, i) + NeighbourLjSum(p, i, nb, ds)
    ensures QueryTotal(NeighbourCoulombPairs(p, kernel, pos, box), pos, box, r, grid, m, c, i + 1)
         == QueryTotal(NeighbourCoulombPairs(p, kernel, pos, box), pos, box, r, grid, m, c, i)
            + NeighbourCoulombRow(p, kernel, i, nb, ds)
    ensures nb == [] ==> NeighbourLjSum(p, i, nb, ds) == 0.0 && NeighbourCoulombRow(p, kernel, i, nb, ds) == 0.0
  {
    NeighbourLjSumIsRowSum(p, pos, box, i, nb, ds);
    NeighbourCoulombSumIsRowSum(p, kernel, pos, box, i, nb, ds);
  }

  /** The neighbour-mode loop of `get_iterations`: the summed lengths of the
      neighbour rows. */
  method CountNeighbours(nlist: CellLinkedLists) returns (it: int)
    requires nlist.Valid()
    ensures it as real == QueryTotal(Ones(), nlist.positions, nlist.boxSize, nlist.r, nlist.cells, nlist.nrCells,
                                     nlist.cellLen, nlist.n)
  {
    var pos, box, r, n := nlist.positions, nlist.boxSize, nlist.r, nlist.n;
    var grid, m, c := nlist.cells, nlist.nrCells, nlist.cellLen;
    it := 0;
    var i := 0;
    while i < n
      invariant 0 <= i <= n
      invariant it as real == QueryTotal(Ones(), pos, box, r, grid, m, c, i)
    {
      var nb, ds := nlist.GetParticlesWithinRadius(i);
      ghost var before := it;
      it := it + |nb|;
      CountStep(pos, box, r, grid, m, c, i, nb, before, it);
      i := i + 1;
    }
  }

  /** Adding a row's length to the count adds the row's sum of ones. */
  lemma CountStep(pos: seq<Vec>, box: real, r: real, grid: Grid, m: nat, c: real, i: nat, nb: seq<nat>,
                  before: int, after: int)
    requires box > 0.0 && c > 0.0 && m >= 1 && i < |pos| && Shaped(grid, m) && EntriesBelow(grid, m, |pos|)
    requires nb == Query(pos, box, r, i, grid, m, c)
    requires before as real == QueryTotal(Ones(), pos, box, r, grid, m, c, i) && after == before + |nb|
    ensures after as real == QueryTotal(Ones(), pos, box, r, grid, m, c, i + 1)
  {
    RowSumCounts(Ones(), i, nb);
  }

  /** The neighbour-mode loop over every particle's neighbour row; a part
      that is switched off stays 0. */
  method NeighbourSums(nlist: CellLinkedLists, p: PairParameters, kernel: real -> real, coulomb: bool, lj: bool)
    returns (ljAcc: real, coulAcc: real)
    requires nlist.Valid() && Sized(p, nlist.n)
    ensures ljAcc == (if lj then QueryTotal(NeighbourLjPairs(p, nlist.positions, nlist.boxSize), nlist.positions,
                                            nlist.boxSize, nlist.r, nlist.cells, nlist.nrCells, nlist.cellLen,
                                            nlist.n) else 0.0)
    ensures coulAcc == (if coulomb then QueryTotal(NeighbourCoulombPairs(p, kernel, nlist.positions, nlist.boxSize),
                                                   nlist.positions, nlist.boxSize, nlist.r, nlist.cells,
                                                   nlist.nrCells, nlist.cellLen, nlist.n) else 0.0)
  {
    var pos, box, r, n := nlist.positions, nlist.boxSize, nlist.r, nlist.n;
    var grid, m, c := nlist.cells, nlist.nrCells, nlist.cellLen;
    var gl, gc := NeighbourLjPairs(p, pos, box), NeighbourCoulombPairs(p, kernel, pos, box);
    ljAcc, coulAcc := 0.0, 0.0;
    var i := 0;
    while i < n
      invariant 0 <= i <= n
      invariant ljAcc == (if lj then QueryTotal(gl, pos, box, r, grid, m, c, i) else 0.0)
      invariant coulAcc == (if coulomb then QueryTotal(gc, pos, box, r, grid, m, c, i) else 0.0)
    {
      var nb, ds := nlist.GetParticlesWithinRadius(i);
      ljAcc, coulAcc := AddRow(p, kernel, pos, box, r, grid, m, c, i, nb, ds, ljAcc, coulAcc, coulomb, lj);
      i := i + 1;
    }
  }

  /** One pass of the neighbour-mode loop: a particle with a non-empty
      neighbour row adds the row's terms to the parts that are switched on. */
  method AddRow(p: PairParameters, kernel: real -> real, pos: seq<Vec>, box: real, r: real,
                grid: Grid, m: nat, c: real, i: nat, nb: seq<nat>, ds: seq<real>,
                ljAcc: real, coulAcc: real, coulomb: bool, lj: bool) returns (ljNext: real, coulNext: real)
    requires box > 0.0 && c > 0.0 && m >= 1 && i < |pos| && Sized(p, |pos|)
    requires Shaped(grid, m) && EntriesBelow(grid, m, |pos|)
    requires nb == Query(pos, box, r, i, grid, m, c) && DistancesOf(pos, box, i, nb, ds)
    requires ljAcc == (if lj then QueryTotal(NeighbourLjPairs(p, pos, box), pos, box, r, grid, m, c, i) else 0.0)
    requires coulAcc == (if coulomb then QueryTotal(NeighbourCoulombPairs(p, kernel, pos, box), pos, box, r, grid, m, c, i) else 0.0)
    ensures ljNext == (if lj then QueryTotal(NeighbourLjPairs(p, pos, box), pos, box, r, grid, m, c, i + 1) else 0.0)
    ensures coulNext == (if coulomb then QueryTotal(NeighbourCoulombPairs(p, kernel, pos, box), pos, box, r, grid, m, c, i + 1) else 0.0)
  {
    ljNext, coulNext := ljAcc, coulAcc;
    if |nb| != 0 {
      if coulomb {
        coulNext := coulNext + NeighbourCoulombRow(p, kernel, i, nb, ds);
      }
      if lj {
        ljNext := ljNext + NeighbourLjSum(p, i, nb, ds);
      }
    }
    NeighbourAccStep(p, kernel, pos, box, r, grid, m, c, i, nb, ds, ljAcc, coulAcc, ljNext, coulNext, coulomb, lj);
  }

  /** The loop step of neighbour mode: adding a non-empty row's sums to the
      accumulators that hold the totals over `i` rows gives the totals over
      `i + 1` rows. */
  lemma NeighbourAccStep(p: PairParameters, kernel: real -> real, pos: seq<Vec>, box: real, r: real,
                         grid: Grid, m: nat, c: real, i: nat, nb: seq<nat>, ds: seq<real>,
                         ljAcc: real, coulAcc: real, ljNext: real, coulNext: real, coulomb: bool, lj: bool)
    requires box > 0.0 && c > 0.0 && m >= 1 && i < |pos| && Sized(p, |pos|)
    requires Shaped(grid, m) && EntriesBelow(grid, m, |pos|)
    requires nb == Query(pos, box, r, i, grid, m, c) && DistancesOf(pos, box, i, nb, ds)
    requires ljAcc == (if lj then QueryTotal(NeighbourLjPairs(p, pos, box), pos, box, r, grid, m, c, i) else 0.0)
    requires coulAcc == (if coulomb then QueryTotal(NeighbourCoulombPairs(p, kernel, pos, box), pos, box, r, grid, m, c, i) else 0.0)
    requires ljNext == if lj && nb != [] then ljAcc + NeighbourLjSum(p, i, nb, ds) else ljAcc
    requires coulNext == if coulomb && nb != [] then coulAcc + NeighbourCoulombRow(p, kernel, i, nb, ds) else coulAcc
    ensures ljNext == (if lj then QueryTotal(NeighbourLjPairs(p, pos, box), pos, box, r, grid, m, c, i + 1) else 0.0)
    ensures coulNext == (if coulomb then QueryTotal(NeighbourCoulombPairs(p, kernel, pos, box), pos, box, r, grid, m, c, i + 1) else 0.0)
  {
    NeighbourRowStep(p, kernel, pos, box, r, grid, m, c, i, nb, ds);
  }

  /** The brute-force double loop over the unordered pairs; a part that is
      switched off stays 0. */
  method BruteSums(p: PairParameters, kernel: real -> real, dist: seq<seq<real>>, cut: seq<seq<real>>,
                   rCutoff: real, coulomb: bool, lj: bool) returns (ljAcc: real, coulAcc: real)
    requires Sized(p, |dist|) && SquareMatrix(dist, |dist|) && SquareMatrix(cut, |dist|)
    ensures ljAcc == (if lj then UpperUpTo(BruteLjPairs(p, dist, cut), |dist|, |dist|) else 0.0)
    ensures coulAcc == (if coulomb then UpperUpTo(BruteCoulombPairs(p, kernel, dist, rCutoff), |dist|, |dist|) else 0.0)
  {
    var n := |dist|;
    var gl, gc := BruteLjPairs(p, dist, cut), BruteCoulombPairs(p, kernel, dist, rCutoff);
    ljAcc, coulAcc := 0.0, 0.0;
    var i := 0;
    while i < n
      invariant 0 <= i <= n
      invariant ljAcc == (if lj then UpperUpTo(gl, i, n) else 0.0)
      invariant coulAcc == (if coulomb then UpperUpTo(gc, i, n) else 0.0)
    {
      var ljTmp, coulTmp := BruteRowSums(p, kernel, dist, cut, rCutoff, i, coulomb, lj);
      ljAcc := ljAcc + ljTmp;
      coulAcc := coulAcc + coulTmp;
      i := i + 1;
    }
  }

  /** The inner loop of the brute-force sum: the pairs `(i, j)` with
      `i < j < n`. */
  method BruteRowSums(p: PairParameters, kernel: real -> real, dist: seq<seq<real>>, cut: seq<seq<real>>,
                      rCutoff: real, i: nat, coulomb: bool, lj: bool) returns (ljTmp: real, coulTmp: real)
    requires Sized(p, |dist|) && SquareMatrix(dist, |dist|) && SquareMatrix(cut, |dist|) && i < |dist|
    ensures ljTmp == (if lj then UpperRow(BruteLjPairs(p, dist, cut), i, |dist|) else 0.0)
    ensures coulTmp == (if coulomb then UpperRow(BruteCoulombPairs(p, kernel, dist, rCutoff), i, |dist|) else 0.0)
  {
    var n := |dist|;
    var gl, gc := BruteLjPairs(p, dist, cut), BruteCoulombPairs(p, kernel, dist, rCutoff);
    ljTmp, coulTmp := 0.0, 0.0;
    var j := i + 1;
    while j < n
      invariant i + 1 <= j <= n
      invariant ljTmp == (if lj then UpperRow(gl, i, j) else 0.0)
      invariant coulTmp == (if coulomb then UpperRow(gc, i, j) else 0.0)
    {
      var d := dist[i][j];
      if lj {
        if Within(d, cut[i][j]) {
          ljTmp := ljTmp + LjTerm(d, p.sigmas[i][j], p.epsilons[i][j]);
        }
        assert UpperRow(gl, i, j + 1) == UpperRow(gl, i, j) + BruteLjTerm(p, dist, cut, i, j);
      }
      if coulomb {
        if Within(d, rCutoff) {
          coulTmp := coulTmp + p.charges[i] * p.charges[j] * kernel(d);
        }
        assert UpperRow(gc, i, j + 1) == UpperRow(gc, i, j) + BruteCoulombTerm(p, kernel, dist, rCutoff, i, j);
      }
      j := j + 1;
    }
  }

  /** `n (n - 1)` is even, so halving it as an integer is exact. */
  lemma {:induction false} EvenPairProduct(n: nat)
    ensures n * (n - 1) == 2 * (n * (n - 1) / 2)
    ensures (n * (n - 1) / 2) as real == (n * (n - 1)) as real / 2.0
  {
    if n > 0 {
      EvenPairProduct(n - 1);
      var q := (n - 1) * (n - 2) / 2;
      assert n * (n - 1) == (n - 1) * (n - 2) + 2 * (n - 1);
      assert n * (n - 1) == 2 * (q + n - 1);
    }
  }
}
