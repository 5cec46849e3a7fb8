/** Outcomes shared by the configuration, the sampler and the unit conversion:
    an optional value, a value-or-error result, and the exceptions the
    validated operations raise. */
module Errors {

  datatype Option<T> = None | Some(value: T)

  datatype Result<T> = Success(value: T) | Failure(error: Error)

  /** The per-particle parameter an argument supplies. */
  datatype ParamName = Sigmas | Epsilons | Charges

  /** The exceptions raised. `LengthMismatch` and `EmptySequence` are
      TypeErrors, `ZeroDivision` is a ZeroDivisionError, all others are
      ValueErrors. */
  datatype Error =
    | OutOfBox
    | LengthMismatch(param: ParamName)
    | NonPositiveBoxSize
    | TooFewParticles
    | NegativeSigma
    | NegativeEpsilon
    | NonPositivePError
    | BoxTooSmall
    | NoParticles
    | NonPositiveIterations
    | NonPositiveStep
    | NonPositiveBeta
    | NegativeSampleCount
    | ZeroDivision
    | EmptySequence

  predicate IsTypeError(e: Error)
  {
    e.LengthMismatch? || e.EmptySequence?
  }
}
