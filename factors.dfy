/**
 * The factor service: maps a generator type to its value factor and its
 * emissions factor, read from an immutable reference factor table.
 * An undefined generator type is an out-of-range error, never a default.
 */
module Factors {
  import opened Models

  /** The out-of-range exception, carrying the offending type. */
  datatype FactorError = ArgumentOutOfRange(generatorType: GeneratorType)

  /** Value factor: offshore wind takes Low, onshore wind High, gas and
      coal Medium; any other type fails. */
  function ValueFactor(rf: ReferenceFactors, t: GeneratorType): (r: Result<real, FactorError>)
    ensures r.Failure? <==> !t.IsDefined()
    ensures r.Failure? ==> r.error == ArgumentOutOfRange(t)
    ensures t == WindOffshore ==> r == Success(rf.valueFactor.low)
    ensures t == WindOnshore ==> r == Success(rf.valueFactor.high)
    ensures t.IsFossil() ==> r == Success(rf.valueFactor.medium)
  {
    match t
    case WindOffshore => Success(rf.valueFactor.low)
    case WindOnshore => Success(rf.valueFactor.high)
    case Gas => Success(rf.valueFactor.medium)
    case Coal => Success(rf.valueFactor.medium)
    case Undefined(_) => Failure(ArgumentOutOfRange(t))
  }

  /** Emissions factor: gas takes Medium, coal High, both wind types 0
      whatever the table holds; any other type fails. The Low entry of the
      emissions triple is never consulted. */
  function EmissionFactor(rf: ReferenceFactors, t: GeneratorType): (r: Result<real, FactorError>)
    ensures r.Failure? <==> !t.IsDefined()
    ensures r.Failure? ==> r.error == ArgumentOutOfRange(t)
    ensures t == Gas ==> r == Success(rf.emissionsFactor.medium)
    ensures t == Coal ==> r == Success(rf.emissionsFactor.high)
    ensures t.IsDefined() && !t.IsFossil() ==> r == Success(0.0)
  {
    match t
    case Gas => Success(rf.emissionsFactor.medium)
    case Coal => Success(rf.emissionsFactor.high)
    case WindOffshore => Success(0.0)
    case WindOnshore => Success(0.0)
    case Undefined(_) => Failure(ArgumentOutOfRange(t))
  }

  /** The emissions lookup never depends on the Low emissions entry: two
      tables that differ only there give the same answer for every type. */
  lemma EmissionFactorIgnoresLow(rf: ReferenceFactors, low: real, t: GeneratorType)
    ensures EmissionFactor(rf, t) ==
            EmissionFactor(rf.(emissionsFactor := rf.emissionsFactor.(low := low)), t)
  {
  }

  /** Gas and coal share a value factor. */
  lemma FossilValueFactorsAgree(rf: ReferenceFactors)
    ensures ValueFactor(rf, Gas) == ValueFactor(rf, Coal)
  {
  }
}
