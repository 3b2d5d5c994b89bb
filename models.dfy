/**
 * The records that the calculation engine reads: generators with their
 * daily production, and the reference factor table.
 *
 * Floating-point numbers are modelled as reals and calendar dates as an
 * opaque key that only needs equality.
 */
module Models {

  /** A calendar day; the engine only compares dates for equality. */
  type Date = int

  /** The generator technology. The four named values are the ones the
      services dispatch on; `Undefined` stands for any other underlying
      value of the enumeration, which the factor lookups reject. */
  datatype GeneratorType =
    | WindOffshore
    | WindOnshore
    | Gas
    | Coal
    | Undefined(code: int)
  {
    /** One of the four named generator types. */
    predicate IsDefined() {
      !Undefined?
    }

    /** Gas and coal burn fuel and therefore emit. */
    predicate IsFossil() {
      Gas? || Coal?
    }
  }

  /** One day of production: date, energy produced and unit price. */
  datatype DayInfo = DayInfo(date: Date, energy: real, price: real)

  /** A generator and its daily records, as the report parser delivers it.
      Emissions rating, heat input and net generation are 0 where the
      generator type does not use them. */
  datatype GeneratorData = GeneratorData(
    name: string,
    generatorType: GeneratorType,
    emissionsRating: real,
    totalHeatInput: real,
    actualNetGeneration: real,
    dailyData: seq<DayInfo>)

  /** A High/Medium/Low triple of coefficients. */
  datatype FactorSettings = FactorSettings(high: real, medium: real, low: real)

  /** The reference factor table: one triple for value, one for emissions. */
  datatype ReferenceFactors = ReferenceFactors(valueFactor: FactorSettings, emissionsFactor: FactorSettings)

  /** Either a value or the error that the source raises as an exception. */
  datatype Result<+T, +E> = Success(value: T) | Failure(error: E)
}
