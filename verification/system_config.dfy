/** The system configuration: argument validation in the order the
    constructor performs it, broadcasting of scalar per-particle parameters,
    the validating property setters, and the Lorentz-Berthelot mixing
    matrices with the Lennard-Jones cutoff matrix. */
module SystemConfig {
  import opened Geometry
  import opened Errors

  /** A per-particle parameter given either as one number for every particle
      or as one value per particle. */
  datatype Param = Scalar(v: real) | Values(vs: seq<real>)

  /** The argument is a number, or has one value per particle. */
  predicate LengthOk(p: Param, n: nat)
  {
    p.Scalar? || |p.vs| == n
  }

  /** A scalar becomes `n` copies of itself; a list is kept. */
  function Broadcast(p: Param, n: nat): (s: seq<real>)
    requires LengthOk(p, n)
    ensures |s| == n
    ensures p.Scalar? ==> forall i :: 0 <= i < n ==> s[i] == p.v
    ensures p.Values? ==> s == p.vs
  {
    if p.Scalar? then Repeat(p.v, n) else p.vs
  }

  /** `[v] * n`. */
  function Repeat(v: real, n: nat): (s: seq<real>)
    ensures |s| == n && forall i :: 0 <= i < n ==> s[i] == v
  {
    if n == 0 then [] else [v] + Repeat(v, n - 1)
  }

  predicate NonNegative(s: seq<real>)
  {
    forall i :: 0 <= i < |s| ==> s[i] >= 0.0
  }

  predicate SquareMatrix(m: seq<seq<real>>, n: nat)
  {
    |m| == n && forall i :: 0 <= i < n ==> |m[i]| == n
  }

  predicate Symmetric(m: seq<seq<real>>)
    requires SquareMatrix(m, |m|)
  {
    forall i, j :: 0 <= i < |m| && 0 <= j < |m| ==> m[i][j] == m[j][i]
  }

  function Min(a: real, b: real): real { if a <= b then a else b }
  function Max(a: real, b: real): real { if a <= b then b else a }

  /** Arithmetic mixing `(s_i + s_j) / 2`: symmetric, equal to the particle's
      own value on the diagonal, and between the two values it mixes. */
  function SigmaMix(s: seq<real>): (m: seq<seq<real>>)
    ensures SquareMatrix(m, |s|) && Symmetric(m)
    ensures forall i :: 0 <= i < |s| ==> m[i][i] == s[i]
    ensures forall i, j :: 0 <= i < |s| && 0 <= j < |s| ==>
      Min(s[i], s[j]) <= m[i][j] <= Max(s[i], s[j])
  {
    seq(|s|, i requires 0 <= i < |s| => seq(|s|, j requires 0 <= j < |s| => (s[i] + s[j]) / 2.0))
  }

  /** `sqrt` behaves as the square root on non-negative numbers. */
  ghost predicate IsSqrt(sqrt: real -> real)
  {
    forall x :: x >= 0.0 ==> sqrt(x) >= 0.0 && sqrt(x) * sqrt(x) == x
  }

  function GeometricMean(sqrt: real -> real, a: real, b: real): real
  {
    sqrt(a * b)
  }

  /** Geometric mixing `sqrt(e_i * e_j)`: symmetric whatever `sqrt` is. */
  function EpsilonMix(sqrt: real -> real, e: seq<real>): (m: seq<seq<real>>)
    ensures SquareMatrix(m, |e|) && Symmetric(m)
  {
    seq(|e|, i requires 0 <= i < |e| => seq(|e|, j requires 0 <= j < |e| => GeometricMean(sqrt, e[i], e[j])))
  }

  /** With a true square root and non-negative epsilons, the diagonal of the
      geometric mixing is the particle's own epsilon. */
  lemma EpsilonMixDiagonal(sqrt: real -> real, e: seq<real>)
    requires IsSqrt(sqrt) && NonNegative(e)
    ensures forall i :: 0 <= i < |e| ==> EpsilonMix(sqrt, e)[i][i] == e[i]
  {
    forall i | 0 <= i < |e| ensures EpsilonMix(sqrt, e)[i][i] == e[i] {
      assert EpsilonMix(sqrt, e)[i][i] == GeometricMean(sqrt, e[i], e[i]);
      GeometricMeanOfEqual(sqrt, e[i]);
    }
  }

  lemma GeometricMeanOfEqual(sqrt: real -> real, x: real)
    requires IsSqrt(sqrt) && x >= 0.0
    ensures GeometricMean(sqrt, x, x) == x
  {
    SqrtOfSquare(sqrt, x);
  }

  lemma SqrtOfSquare(sqrt: real -> real, x: real)
    requires IsSqrt(sqrt) && x >= 0.0
    ensures sqrt(x * x) == x
  {
    var y := sqrt(x * x);
    assert y >= 0.0 && y * y == x * x;
    if y > x {
      SquareLt(x, y);
    } else if y < x {
      SquareLt(y, x);
    }
  }

  lemma SquareLt(a: real, b: real)
    requires 0.0 <= a < b
    ensures a * a < b * b
  {
    MulPositive(b - a, b + a);
    assert (b - a) * (b + a) == b * b - a * a;
  }

  lemma MulPositive(x: real, y: real)
    requires x > 0.0 && y > 0.0
    ensures x * y > 0.0
  {
  }

  /** The Lennard-Jones cutoff `2.5 * sigma_ij`. */
  function CutoffMatrix(m: seq<seq<real>>): (c: seq<seq<real>>)
    requires SquareMatrix(m, |m|)
    ensures SquareMatrix(c, |m|)
    ensures forall i, j :: 0 <= i < |m| && 0 <= j < |m| ==> c[i][j] == 2.5 * m[i][j]
  {
    seq(|m|, i requires 0 <= i < |m| => seq(|m|, j requires 0 <= j < |m| => 2.5 * m[i][j]))
  }

  /** A symmetric sigma matrix gives a symmetric cutoff matrix: the cutoff of
      a pair does not depend on which particle comes first. */
  lemma CutoffSymmetric(m: seq<seq<real>>)
    requires SquareMatrix(m, |m|) && Symmetric(m)
    ensures Symmetric(CutoffMatrix(m))
  {
  }

  /** The largest element, as numpy's `max`: an upper bound that occurs. */
  function MaxOf(s: seq<real>): (v: real)
    requires |s| > 0
    ensures forall i :: 0 <= i < |s| ==> s[i] <= v
    ensures exists i :: 0 <= i < |s| && s[i] == v
  {
    if |s| == 1 then s[0]
    else
      var rest := MaxOf(s[..|s| - 1]);
      assert forall i :: 0 <= i < |s| - 1 ==> s[..|s| - 1][i] == s[i];
      Max(rest, s[|s| - 1])
  }

  /** The largest element of a non-empty square matrix. */
  function MatrixMax(m: seq<seq<real>>): (v: real)
    requires |m| > 0 && SquareMatrix(m, |m|)
    ensures forall i, j :: 0 <= i < |m| && 0 <= j < |m| ==> m[i][j] <= v
    ensures exists i, j :: 0 <= i < |m| && 0 <= j < |m| && m[i][j] == v
  {
    var rows := seq(|m|, i requires 0 <= i < |m| => MaxOf(m[i]));
    var v := MaxOf(rows);
    assert forall i, j :: 0 <= i < |m| && 0 <= j < |m| ==> m[i][j] <= v by {
      forall i, j | 0 <= i < |m| && 0 <= j < |m| ensures m[i][j] <= v {
        assert m[i][j] <= rows[i];
      }
    }
    var i :| 0 <= i < |m| && rows[i] == v;
    var j :| 0 <= j < |m| && m[i][j] == MaxOf(m[i]);
    v
  }

  /** An attained upper bound is the maximum. */
  lemma MaxOfUnique(s: seq<real>, v: real, k: nat)
    requires |s| > 0 && k < |s| && s[k] == v && forall i :: 0 <= i < |s| ==> s[i] <= v
    ensures MaxOf(s) == v
  {
  }

  /** An attained upper bound of a matrix is its maximum. */
  lemma MatrixMaxUnique(m: seq<seq<real>>, v: real, k: nat, l: nat)
    requires |m| > 0 && SquareMatrix(m, |m|) && k < |m| && l < |m| && m[k][l] == v
    requires forall i, j :: 0 <= i < |m| && 0 <= j < |m| ==> m[i][j] <= v
    ensures MatrixMax(m) == v
  {
    var w := MatrixMax(m);
    assert v <= w;
    var i, j :| 0 <= i < |m| && 0 <= j < |m| && m[i][j] == w;
  }

  /** The largest cutoff is `2.5` times the largest sigma, so the box check
      `box <= 2 * max(lj_cutoff)` is `box <= 5 * max(sigma)`. */
  lemma MaxCutoff(s: seq<real>)
    requires |s| > 0
    ensures MatrixMax(CutoffMatrix(SigmaMix(s))) == 2.5 * MaxOf(s)
  {
    SigmaMixMax(s);
    CutoffMatrixMax(SigmaMix(s));
  }

  /** Scaling every entry by `2.5` scales the maximum by `2.5`. */
  lemma CutoffMatrixMax(m: seq<seq<real>>)
    requires |m| > 0 && SquareMatrix(m, |m|)
    ensures MatrixMax(CutoffMatrix(m)) == 2.5 * MatrixMax(m)
  {
    var k, l := CutoffAttained(m);
    MatrixMaxUnique(CutoffMatrix(m), 2.5 * MatrixMax(m), k, l);
  }

  /** `2.5` times the largest entry bounds the cutoff matrix and occurs in it. */
  lemma CutoffAttained(m: seq<seq<real>>) returns (k: nat, l: nat)
    requires |m| > 0 && SquareMatrix(m, |m|)
    ensures k < |m| && l < |m| && CutoffMatrix(m)[k][l] == 2.5 * MatrixMax(m)
    ensures forall i, j :: 0 <= i < |m| && 0 <= j < |m| ==> CutoffMatrix(m)[i][j] <= 2.5 * MatrixMax(m)
  {
    k, l :| 0 <= k < |m| && 0 <= l < |m| && m[k][l] == MatrixMax(m);
  }

  /** The largest mixed sigma is the largest sigma: it sits on the diagonal. */
  lemma SigmaMixMax(s: seq<real>)
    requires |s| > 0
    ensures MatrixMax(SigmaMix(s)) == MaxOf(s)
  {
    var k := MixAttained(s);
    MatrixMaxUnique(SigmaMix(s), MaxOf(s), k, k);
  }

  /** A position where the maximum is attained. */
  lemma MaxIndex(s: seq<real>) returns (k: nat)
    requires |s| > 0
    ensures k < |s| && s[k] == MaxOf(s)
  {
    k :| 0 <= k < |s| && s[k] == MaxOf(s);
  }

  /** The largest sigma bounds the mixed sigmas and occurs on the diagonal. */
  lemma MixAttained(s: seq<real>) returns (k: nat)
    requires |s| > 0
    ensures k < |s| && SigmaMix(s)[k][k] == MaxOf(s)
    ensures forall i, j :: 0 <= i < |s| && 0 <= j < |s| ==> SigmaMix(s)[i][j] <= MaxOf(s)
  {
    k := MaxIndex(s);
    var m := SigmaMix(s);
    forall i, j | 0 <= i < |s| && 0 <= j < |s| ensures m[i][j] <= MaxOf(s) {
      assert m[i][j] <= Max(s[i], s[j]);
    }
  }

  lemma CutoffDiagonal(s: seq<real>, k: nat)
    requires k < |s|
    ensures CutoffMatrix(SigmaMix(s))[k][k] == 2.5 * s[k]
  {
    var sm := SigmaMix(s);
    assert Min(s[k], s[k]) <= sm[k][k] <= Max(s[k], s[k]);
  }

  /** The box check against the cutoff matrix is the box check against five
      times the largest sigma. */
  lemma BoxCheckBySigma(s: seq<real>, boxSize: real)
    requires |s| > 0
    ensures boxSize <= 2.0 * MatrixMax(CutoffMatrix(SigmaMix(s))) <==> boxSize <= 5.0 * MaxOf(s)
  {
    MaxCutoff(s);
  }

  /** The first error the constructor raises, checking in its own order:
      positions in the box, argument lengths, then the setters' checks. */
  function ConstructionError(xyz: seq<Vec>, sigmas: Param, epsilons: Param, charges: Param,
                             boxSize: real, pError: int): Option<Error>
  {
    var n := |xyz|;
    if !InBox(xyz, boxSize) then Some(OutOfBox)
    else if !LengthOk(sigmas, n) then Some(LengthMismatch(Sigmas))
    else if !LengthOk(epsilons, n) then Some(LengthMismatch(Epsilons))
    else if !LengthOk(charges, n) then Some(LengthMismatch(Charges))
    else InitialiseError(xyz, Broadcast(sigmas, n), Broadcast(epsilons, n), boxSize, pError)
  }

  /** The first error of the setters and the final box check, in the order
      the constructor reaches them: box size, particle count, signs of
      sigmas and epsilons, `p_error`, and the box against twice the largest
      Lennard-Jones cutoff. */
  function InitialiseError(xyz: seq<Vec>, sigmas: seq<real>, epsilons: seq<real>,
                           boxSize: real, pError: int): Option<Error>
  {
    if boxSize <= 0.0 then Some(NonPositiveBoxSize)
    else if |xyz| < 2 then Some(TooFewParticles)
    else if !NonNegative(sigmas) then Some(NegativeSigma)
    else if !NonNegative(epsilons) then Some(NegativeEpsilon)
    else if pError <= 0 then Some(NonPositivePError)
    else if |sigmas| > 0 && boxSize <= 2.0 * MatrixMax(CutoffMatrix(SigmaMix(sigmas))) then Some(BoxTooSmall)
    else None
  }

  /** What a successful construction needs: positions inside a positive
      box, at least two particles, matching lengths, non-negative sigmas and
      epsilons, a positive `p_error`, and a box wider than five times the
      largest sigma. */
  predicate Admissible(xyz: seq<Vec>, sigmas: Param, epsilons: Param, charges: Param,
                       boxSize: real, pError: int)
  {
    InBox(xyz, boxSize) && boxSize > 0.0 && |xyz| >= 2
    && LengthOk(sigmas, |xyz|) && LengthOk(epsilons, |xyz|) && LengthOk(charges, |xyz|)
    && NonNegative(Broadcast(sigmas, |xyz|)) && NonNegative(Broadcast(epsilons, |xyz|))
    && pError > 0 && boxSize > 5.0 * MaxOf(Broadcast(sigmas, |xyz|))
  }

  /** Construction succeeds exactly for admissible arguments. */
  lemma ConstructionSucceeds(xyz: seq<Vec>, sigmas: Param, epsilons: Param, charges: Param,
                             boxSize: real, pError: int)
    ensures ConstructionError(xyz, sigmas, epsilons, charges, boxSize, pError).None? <==>
      Admissible(xyz, sigmas, epsilons, charges, boxSize, pError)
  {
    if Admissible(xyz, sigmas, epsilons, charges, boxSize, pError) {
      AdmissibleNoError(xyz, sigmas, epsilons, charges, boxSize, pError);
    }
    if ConstructionError(xyz, sigmas, epsilons, charges, boxSize, pError).None? {
      NoErrorAdmissible(xyz, sigmas, epsilons, charges, boxSize, pError);
    }
  }

  lemma AdmissibleNoError(xyz: seq<Vec>, sigmas: Param, epsilons: Param, charges: Param,
                          boxSize: real, pError: int)
    requires Admissible(xyz, sigmas, epsilons, charges, boxSize, pError)
    ensures ConstructionError(xyz, sigmas, epsilons, charges, boxSize, pError).None?
  {
    var n := |xyz|;
    var s, e := Broadcast(sigmas, n), Broadcast(epsilons, n);
    assert ConstructionError(xyz, sigmas, epsilons, charges, boxSize, pError)
        == InitialiseError(xyz, s, e, boxSize, pError);
    BoxCheckBySigma(s, boxSize);
    assert !(boxSize <= 2.0 * MatrixMax(CutoffMatrix(SigmaMix(s))));
  }

  lemma NoErrorAdmissible(xyz: seq<Vec>, sigmas: Param, epsilons: Param, charges: Param,
                          boxSize: real, pError: int)
    requires ConstructionError(xyz, sigmas, epsilons, charges, boxSize, pError).None?
    ensures Admissible(xyz, sigmas, epsilons, charges, boxSize, pError)
  {
    assert InBox(xyz, boxSize);
    assert LengthOk(sigmas, |xyz|) && LengthOk(epsilons, |xyz|) && LengthOk(charges, |xyz|);
    assert boxSize > 0.0 && |xyz| >= 2;
    var s := Broadcast(sigmas, |xyz|);
    assert NonNegative(s) && NonNegative(Broadcast(epsilons, |xyz|)) && pError > 0;
    assert boxSize > 2.0 * MatrixMax(CutoffMatrix(SigmaMix(s)));
    BoxCheckBySigma(s, boxSize);
  }

  /** A position outside `[0, box)` is reported before any other problem,
      whatever the other arguments are. */
  lemma OutOfBoxFirst(xyz: seq<Vec>, sigmas: Param, epsilons: Param, charges: Param,
                      boxSize: real, pError: int, i: nat)
    requires i < |xyz| && !InBoxVec(xyz[i], boxSize)
    ensures ConstructionError(xyz, sigmas, epsilons, charges, boxSize, pError) == Some(OutOfBox)
  {
  }

  /** Every field of a configuration, so that a setter can state its whole
      new state as the old one with one field replaced. */
  datatype Fields = Fields(
    boxSize: real, volume: real, epsilonR: real, xyz: seq<Vec>, charges: seq<real>,
    sigmas: seq<real>, epsilons: seq<real>, labels: seq<string>, rCutoff: Option<real>,
    kCutoff: Option<real>, ljEpsilonMatrix: seq<seq<real>>, ljSigmaMatrix: seq<seq<real>>,
    ljCutoffMatrix: seq<seq<real>>, neighbouring: bool, pError: int)

  class SystemConfiguration {
    var boxSize: real
    var volume: real
    var epsilonR: real
    var xyz: seq<Vec>
    var charges: seq<real>
    var sigmas: seq<real>
    var epsilons: seq<real>
    var labels: seq<string>
    var rCutoff: Option<real>
    var kCutoff: Option<real>
    var ljEpsilonMatrix: seq<seq<real>>
    var ljSigmaMatrix: seq<seq<real>>
    var ljCutoffMatrix: seq<seq<real>>
    var neighbouring: bool
    var pError: int

    function State(): Fields
      reads this
    {
      Fields(boxSize, volume, epsilonR, xyz, charges, sigmas, epsilons, labels, rCutoff, kCutoff,
             ljEpsilonMatrix, ljSigmaMatrix, ljCutoffMatrix, neighbouring, pError)
    }

    /** What the validating setters guarantee. */
    ghost predicate Valid()
      reads this
    {
      boxSize > 0.0 && |xyz| >= 2 && NonNegative(sigmas) && NonNegative(epsilons) && pError > 0
    }

    /** The fields the constructor assigns without a setter; the others are
        filled in by `Create` through the setters. */
    constructor (epsilonR: real, labels: seq<string>, rCutoff: Option<real>, kCutoff: Option<real>,
                 neighbouring: bool)
      ensures this.epsilonR == epsilonR && this.labels == labels && this.rCutoff == rCutoff
      ensures this.kCutoff == kCutoff && this.neighbouring == neighbouring
    {
      this.epsilonR := epsilonR;
      this.labels := labels;
      this.rCutoff := rCutoff;
      this.kCutoff := kCutoff;
      this.neighbouring := neighbouring;
    }

    /** The `p_error` setter: rejects a non-positive value and then leaves
        the configuration as it was. */
    method SetPError(value: int) returns (err: Option<Error>)
      modifies this
      ensures value <= 0 ==> err == Some(NonPositivePError) && State() == old(State())
      ensures value > 0 ==> err == None && State() == old(State()).(pError := value)
    {
      if value <= 0 {
        return Some(NonPositivePError);
      }
      pError := value;
      return None;
    }

    /** The `box_size` setter; the volume is not recomputed. */
    method SetBoxSize(value: real) returns (err: Option<Error>)
      modifies this
      ensures value <= 0.0 ==> err == Some(NonPositiveBoxSize) && State() == old(State())
      ensures value > 0.0 ==> err == None && State() == old(State()).(boxSize := value)
    {
      if value <= 0.0 {
        return Some(NonPositiveBoxSize);
      }
      boxSize := value;
      return None;
    }

    /** The `xyz` setter: at least two particles; the box is not checked. */
    method SetXyz(value: seq<Vec>) returns (err: Option<Error>)
      modifies this
      ensures |value| < 2 ==> err == Some(TooFewParticles) && State() == old(State())
      ensures |value| >= 2 ==> err == None && State() == old(State()).(xyz := value)
    {
      if |value| < 2 {
        return Some(TooFewParticles);
      }
      xyz := value;
      return None;
    }

    /** The `charges` setter: any one-dimensional list of numbers. */
    method SetCharges(value: seq<real>)
      modifies this
      ensures State() == old(State()).(charges := value)
    {
      charges := value;
    }

    /** The `sigmas` setter: rejects a negative entry. The mixing matrices
        are not recomputed. */
    method SetSigmas(value: seq<real>) returns (err: Option<Error>)
      modifies this
      ensures !NonNegative(value) ==> err == Some(NegativeSigma) && State() == old(State())
      ensures NonNegative(value) ==> err == None && State() == old(State()).(sigmas := value)
    {
      if !NonNegative(value) {
        return Some(NegativeSigma);
      }
      sigmas := value;
      return None;
    }

    /** The `epsilons` setter: rejects a negative entry. */
    method SetEpsilons(value: seq<real>) returns (err: Option<Error>)
      modifies this
      ensures !NonNegative(value) ==> err == Some(NegativeEpsilon) && State() == old(State())
      ensures NonNegative(value) ==> err == None && State() == old(State()).(epsilons := value)
    {
      if !NonNegative(value) {
        return Some(NegativeEpsilon);
      }
      epsilons := value;
      return None;
    }

    /** The `neighbouring` setter. */
    method SetNeighbouring(value: bool)
      modifies this
      ensures State() == old(State()).(neighbouring := value)
    {
      neighbouring := value;
    }

    /** `create_lj_mean_parameters`: both mixing matrices from the current
        sigmas and epsilons. */
    method CreateLjMeanParameters(sqrt: real -> real)
      modifies this
      ensures State() == old(State()).(ljEpsilonMatrix := EpsilonMix(sqrt, epsilons),
                                       ljSigmaMatrix := SigmaMix(sigmas))
    {
      ljEpsilonMatrix := EpsilonMix(sqrt, epsilons);
      ljSigmaMatrix := SigmaMix(sigmas);
    }

    /** `create_lennard_jones_cutoff`: `2.5` times the sigma matrix. */
    method CreateLennardJonesCutoff()
      requires SquareMatrix(ljSigmaMatrix, |ljSigmaMatrix|)
      modifies this
      ensures State() == old(State()).(ljCutoffMatrix := CutoffMatrix(old(ljSigmaMatrix)))
    {
      ljCutoffMatrix := CutoffMatrix(ljSigmaMatrix);
    }

    /** The part of the constructor after the argument checks: the setters
        in order, the mixing matrices, and the box check. On success the
        whole state is the validated arguments and the matrices built from
        them; the fields assigned without a setter keep their values. */
    method Initialise(boxSize: real, xyz: seq<Vec>, charges: seq<real>, sigmas: seq<real>,
                      epsilons: seq<real>, pError: int, sqrt: real -> real) returns (err: Option<Error>)
      requires |sigmas| == |xyz|
      modifies this
      ensures err == InitialiseError(xyz, sigmas, epsilons, boxSize, pError)
      ensures err.None? ==> Valid() && State() == Fields(
        boxSize, boxSize * boxSize * boxSize, old(epsilonR), xyz, charges, sigmas, epsilons,
        old(labels), old(rCutoff), old(kCutoff), EpsilonMix(sqrt, epsilons), SigmaMix(sigmas),
        CutoffMatrix(SigmaMix(sigmas)), old(neighbouring), pError)
    {
      err := SetBoxSize(boxSize);
      if err.Some? {
        return;
      }
      volume := boxSize * boxSize * boxSize;
      err := SetXyz(xyz);
      if err.Some? {
        return;
      }
      SetCharges(charges);
      err := SetSigmas(sigmas);
      if err.Some? {
        return;
      }
      err := SetEpsilons(epsilons);
      if err.Some? {
        return;
      }
      CreateLjMeanParameters(sqrt);
      CreateLennardJonesCutoff();
      err := SetPError(pError);
      if err.Some? {
        return;
      }
      if boxSize <= 2.0 * MatrixMax(ljCutoffMatrix) {
        return Some(BoxTooSmall);
      }
    }

    /** `potential`: at least two particles, then the total potential of the
        trial positions. */
    method Potential(total: (seq<Vec>, bool, bool) -> real, xyzTrial: seq<Vec>,
                     lennardJones: bool, coulomb: bool) returns (res: Result<real>)
      ensures |xyzTrial| < 2 <==> res.Failure?
      ensures res.Failure? ==> res.error == TooFewParticles
      ensures res.Success? ==> res.value == total(xyzTrial, lennardJones, coulomb)
    {
      if |xyzTrial| < 2 {
        return Failure(TooFewParticles);
      }
      return Success(total(xyzTrial, lennardJones, coulomb));
    }
  }

  /** `SystemConfiguration(...)`: validates in the constructor's order and,
      when nothing is wrong, returns a configuration holding the broadcast
      parameters and the mixing matrices built from them. */
  method Create(xyz: seq<Vec>, sigmas: Param, epsilons: Param, charges: Param, boxSize: real,
                epsilonR: real, labels: seq<string>, pError: int, rCutoff: Option<real>,
                kCutoff: Option<real>, neighbouring: bool, sqrt: real -> real)
    returns (err: Option<Error>, conf: SystemConfiguration?)
    ensures err == ConstructionError(xyz, sigmas, epsilons, charges, boxSize, pError)
    ensures err.Some? <==> conf == null
    ensures conf != null ==> fresh(conf) && conf.Valid() && InBox(conf.xyz, conf.boxSize)
    ensures conf != null ==>
      conf.xyz == xyz && conf.boxSize == boxSize && conf.volume == boxSize * boxSize * boxSize
      && conf.sigmas == Broadcast(sigmas, |xyz|) && conf.epsilons == Broadcast(epsilons, |xyz|)
      && conf.charges == Broadcast(charges, |xyz|) && conf.pError == pError
      && conf.epsilonR == epsilonR && conf.labels == labels && conf.neighbouring == neighbouring
      && conf.rCutoff == rCutoff && conf.kCutoff == kCutoff
    ensures conf != null ==>
      conf.ljSigmaMatrix == SigmaMix(conf.sigmas) && conf.ljEpsilonMatrix == EpsilonMix(sqrt, conf.epsilons)
      && conf.ljCutoffMatrix == CutoffMatrix(conf.ljSigmaMatrix)
      && boxSize > 2.0 * MatrixMax(conf.ljCutoffMatrix)
  {
    var n := |xyz|;
    conf := null;
    if !InBox(xyz, boxSize) {
      return Some(OutOfBox), null;
    }
    if !LengthOk(sigmas, n) {
      return Some(LengthMismatch(Sigmas)), null;
    }
    if !LengthOk(epsilons, n) {
      return Some(LengthMismatch(Epsilons)), null;
    }
    if !LengthOk(charges, n) {
      return Some(LengthMismatch(Charges)), null;
    }
    var c := new SystemConfiguration(epsilonR, labels, rCutoff, kCutoff, neighbouring);
    err := c.Initialise(boxSize, xyz, Broadcast(charges, n), Broadcast(sigmas, n), Broadcast(epsilons, n), pError, sqrt);
    if err.Some? {
      return err, null;
    }
    conf := c;
  }
}
