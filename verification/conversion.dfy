/** The conversion between the inverse temperature `beta` (in mol/kcal) and
    the temperature in kelvin. Both directions evaluate the same expression
    `1 / (R * 0.239006e-3 * x)`; the gas constant `R` is a parameter. An
    argument is a single number, a list or a numpy array; a non-empty list
    and any array are converted element by element. */
module Conversion {
  import opened Errors
  import Geometry

  /** Kilocalories per kilojoule, `0.239006 * 1e-3`. */
  const KcalPerJoule: real := 0.000239006

  /** `R * 0.239006e-3`: the gas constant in kcal/(mol K). */
  function GasFactor(gasConstant: real): (f: real)
    requires gasConstant > 0.0
    ensures f > 0.0
  {
    gasConstant * KcalPerJoule
  }

  /** An argument: one number, a Python list of numbers, or a numpy array. */
  datatype Quantity = Number(x: real) | Numbers(xs: seq<real>) | Array(xs: seq<real>)

  /** One element of a converted list: numpy divides a zero element into an
      infinity instead of raising. */
  datatype Element = Finite(v: real) | Infinite

  /** A result: one number, or one element per list entry. */
  datatype Converted = One(v: real) | Many(vs: seq<Element>)

  /** `1 / (R * 0.239006e-3 * x)` on one number: a zero argument raises a
      ZeroDivisionError, any other argument gives the number whose product
      with `R * 0.239006e-3 * x` is 1. */
  function Reciprocal(gasConstant: real, x: real): (r: Result<real>)
    requires gasConstant > 0.0
    ensures r.Failure? <==> x == 0.0
    ensures r.Failure? ==> r.error == ZeroDivision
    ensures r.Success? ==> r.value * (GasFactor(gasConstant) * x) == 1.0
  {
    var k := GasFactor(gasConstant) * x;
    if x == 0.0 then Failure(ZeroDivision)
    else
      ProductNonZero(GasFactor(gasConstant), x);
      Success(1.0 / k)
  }

  /** The same expression on one element of a list. */
  function ReciprocalElement(gasConstant: real, x: real): (e: Element)
    requires gasConstant > 0.0
    ensures e.Infinite? <==> x == 0.0
    ensures e.Finite? ==> e.v * (GasFactor(gasConstant) * x) == 1.0
  {
    var r := Reciprocal(gasConstant, x);
    if r.Failure? then Infinite else Finite(r.value)
  }

  /** The shared conversion: a number is converted directly; a non-empty list
      becomes a numpy array and, like any array, is converted element by
      element; an empty list is left as a list, and multiplying a float by it
      raises a TypeError, while an empty array gives an empty array. */
  function Convert(gasConstant: real, q: Quantity): (r: Result<Converted>)
    requires gasConstant > 0.0
  {
    match q
    case Number(x) =>
      var s := Reciprocal(gasConstant, x);
      if s.Failure? then Failure(s.error) else Success(One(s.value))
    case Numbers(xs) =>
      if |xs| == 0 then Failure(EmptySequence)
      else Success(Many(seq(|xs|, i requires 0 <= i < |xs| => ReciprocalElement(gasConstant, xs[i]))))
    case Array(xs) =>
      Success(Many(seq(|xs|, i requires 0 <= i < |xs| => ReciprocalElement(gasConstant, xs[i]))))
  }

  /** `beta_to_kelvin`. */
  function BetaToKelvin(gasConstant: real, beta: Quantity): Result<Converted>
    requires gasConstant > 0.0
  {
    Convert(gasConstant, beta)
  }

  /** `kelvin_to_beta`. */
  function KelvinToBeta(gasConstant: real, t: Quantity): Result<Converted>
    requires gasConstant > 0.0
  {
    Convert(gasConstant, t)
  }

  /** The outcome of the conversion for every kind of argument: a number
      fails exactly when it is zero, an empty list always fails, and a
      non-empty list or any array succeeds with one element per entry, each
      the reciprocal of that entry. */
  lemma ConvertCases(gasConstant: real, q: Quantity)
    requires gasConstant > 0.0
    ensures q.Number? ==>
      (Convert(gasConstant, q).Failure? <==> q.x == 0.0)
      && (q.x == 0.0 ==> Convert(gasConstant, q) == Failure(ZeroDivision))
      && (q.x != 0.0 ==> Convert(gasConstant, q) == Success(One(Reciprocal(gasConstant, q.x).value)))
    ensures q.Numbers? && q.xs == [] ==> Convert(gasConstant, q) == Failure(EmptySequence)
    ensures (q.Numbers? && q.xs != []) || q.Array? ==>
      Convert(gasConstant, q).Success? && Convert(gasConstant, q).value.Many?
      && |Convert(gasConstant, q).value.vs| == |q.xs|
      && forall i :: 0 <= i < |q.xs| ==> Convert(gasConstant, q).value.vs[i] == ReciprocalElement(gasConstant, q.xs[i])
  {
  }

  /** The conversion is its own inverse on a non-zero number. */
  lemma {:induction false} ReciprocalInvolutive(gasConstant: real, x: real)
    requires gasConstant > 0.0 && x != 0.0
    ensures Reciprocal(gasConstant, x).Success?
    ensures Reciprocal(gasConstant, Reciprocal(gasConstant, x).value) == Success(x)
  {
    var f := GasFactor(gasConstant);
    var y := Reciprocal(gasConstant, x).value;
    assert y * (f * x) == 1.0;
    var z := Reciprocal(gasConstant, y);
    ProductNonZero(y, f * x);
    assert z.Success?;
    assert z.value * (f * y) == 1.0;
    InverseUnique(f, x, y, z.value);
  }

  /** `kelvin_to_beta(beta_to_kelvin(beta)) == beta` for every non-zero
      number. */
  lemma BetaRoundTrip(gasConstant: real, beta: real)
    requires gasConstant > 0.0 && beta != 0.0
    ensures BetaToKelvin(gasConstant, Number(beta)).Success?
    ensures var t := BetaToKelvin(gasConstant, Number(beta)).value;
      t.One? && KelvinToBeta(gasConstant, Number(t.v)) == Success(One(beta))
  {
    ReciprocalInvolutive(gasConstant, beta);
  }

  /** `beta_to_kelvin(kelvin_to_beta(T)) == T` for every non-zero number. */
  lemma KelvinRoundTrip(gasConstant: real, t: real)
    requires gasConstant > 0.0 && t != 0.0
    ensures KelvinToBeta(gasConstant, Number(t)).Success?
    ensures var b := KelvinToBeta(gasConstant, Number(t)).value;
      b.One? && BetaToKelvin(gasConstant, Number(b.v)) == Success(One(t))
  {
    ReciprocalInvolutive(gasConstant, t);
  }

  /** A positive number converts to a positive number, and a larger one to a
      strictly smaller one: a higher `beta` is a colder system. */
  lemma ReciprocalAntitone(gasConstant: real, a: real, b: real)
    requires gasConstant > 0.0 && 0.0 < a < b
    ensures Reciprocal(gasConstant, a).Success? && Reciprocal(gasConstant, b).Success?
    ensures 0.0 < Reciprocal(gasConstant, b).value < Reciprocal(gasConstant, a).value
  {
    var f := GasFactor(gasConstant);
    var ya, yb := Reciprocal(gasConstant, a).value, Reciprocal(gasConstant, b).value;
    Geometry.MulLtMonotone(f, a, b);
    PositiveInverse(f * a, ya);
    PositiveInverse(f * b, yb);
    InverseAntitone(f * a, f * b, ya, yb);
  }

  /** Every element of a converted list or array is the reciprocal of its
      entry; converting the array that comes back once more gives the entries
      back, when none is zero. */
  lemma ListRoundTrip(gasConstant: real, q: Quantity)
    requires gasConstant > 0.0 && (q.Array? || (q.Numbers? && q.xs != []))
    requires forall i :: 0 <= i < |q.xs| ==> q.xs[i] != 0.0
    ensures Convert(gasConstant, q).Success? && Convert(gasConstant, q).value.Many?
    ensures var ys := Convert(gasConstant, q).value.vs;
      (forall i :: 0 <= i < |ys| ==> ys[i].Finite?)
      && Convert(gasConstant, Array(FiniteValues(ys))) == Success(Many(seq(|q.xs|, i requires 0 <= i < |q.xs| => Finite(q.xs[i]))))
  {
    var xs := q.xs;
    var ys := Convert(gasConstant, q).value.vs;
    assert |ys| == |xs|;
    forall i | 0 <= i < |xs| ensures ys[i].Finite? && ys[i].v != 0.0 {
      ReciprocalInvolutive(gasConstant, xs[i]);
    }
    var back := Convert(gasConstant, Array(FiniteValues(ys))).value.vs;
    forall i | 0 <= i < |xs| ensures back[i] == Finite(xs[i]) {
      ReciprocalInvolutive(gasConstant, xs[i]);
      assert FiniteValues(ys)[i] == Reciprocal(gasConstant, xs[i]).value;
    }
    assert |back| == |xs|;
    assert back == seq(|xs|, i requires 0 <= i < |xs| => Finite(xs[i]));
  }

  /** The values of a list of finite elements. */
  function FiniteValues(es: seq<Element>): (vs: seq<real>)
    requires forall i :: 0 <= i < |es| ==> es[i].Finite?
    ensures |vs| == |es| && forall i :: 0 <= i < |es| ==> vs[i] == es[i].v
  {
    seq(|es|, i requires 0 <= i < |es| => es[i].v)
  }

  lemma ProductNonZero(a: real, b: real)
    requires a != 0.0 && b != 0.0
    ensures a * b != 0.0
  {
  }

  /** The number `z` whose product with `f * y` is 1, where `y * (f * x) == 1`,
      is `x`. */
  lemma InverseUnique(f: real, x: real, y: real, z: real)
    requires f != 0.0 && y * (f * x) == 1.0 && z * (f * y) == 1.0
    ensures z == x
  {
    assert (y * (f * x)) * z == z;
    assert (z * (f * y)) * x == x;
    assert (y * (f * x)) * z == (z * (f * y)) * x;
  }

  lemma PositiveInverse(k: real, y: real)
    requires k > 0.0 && y * k == 1.0
    ensures y > 0.0
  {
    if y <= 0.0 {
      Geometry.MulLeMonotone(k, y, 0.0);
      assert false;
    }
  }

  lemma InverseAntitone(ka: real, kb: real, ya: real, yb: real)
    requires 0.0 < ka < kb && ya * ka == 1.0 && yb * kb == 1.0 && ya > 0.0 && yb > 0.0
    ensures yb < ya
  {
    if yb >= ya {
      Geometry.MulLeMonotone(kb, ya, yb);
      Geometry.MulLtMonotone(ya, ka, kb);
      assert false;
    }
  }
}
