/**
 * The three metric formulas of the calculation service. They are total,
 * read nothing but their arguments and change nothing.
 */
module Calculation {

  /** Value of one day's generation: energy times price times the value
      factor of the generator type. It is zero exactly when one of the
      three inputs is zero. */
  function DailyGenerationValue(energy: real, price: real, valueFactor: real): (r: real)
    ensures r == 0.0 <==> energy == 0.0 || price == 0.0 || valueFactor == 0.0
    ensures energy >= 0.0 && price >= 0.0 && valueFactor >= 0.0 ==> r >= 0.0
  {
    energy * price * valueFactor
  }

  /** Emissions of one day: energy times the generator's emissions rating
      times the emissions factor. A zero rating (wind) or zero energy gives
      exactly zero. */
  function DailyEmissions(energy: real, emissionsRating: real, emissionsFactor: real): (r: real)
    ensures r == 0.0 <==> energy == 0.0 || emissionsRating == 0.0 || emissionsFactor == 0.0
    ensures energy >= 0.0 && emissionsRating >= 0.0 && emissionsFactor >= 0.0 ==> r >= 0.0
  {
    energy * emissionsRating * emissionsFactor
  }

  /** Heat rate: the quotient of total heat input by net generation, and 0
      (not an error) when the net generation is 0. */
  function ActualHeatRate(totalHeatInput: real, actualNetGeneration: real): (r: real)
    ensures actualNetGeneration == 0.0 ==> r == 0.0
    ensures actualNetGeneration != 0.0 ==> r * actualNetGeneration == totalHeatInput
  {
    if actualNetGeneration == 0.0 then 0.0 else totalHeatInput / actualNetGeneration
  }

  /** Equal nonzero heat input and net generation give a heat rate of 1. */
  lemma HeatRateOfEqualInputs(x: real)
    requires x != 0.0
    ensures ActualHeatRate(x, x) == 1.0
  {
  }

  /** The rows of the unit tests for the three formulas. */
  lemma FormulaExamples()
    ensures DailyGenerationValue(100.0, 20.0, 0.696) == 1392.0
    ensures DailyGenerationValue(50.0, 10.0, 0.265) == 132.5
    ensures DailyGenerationValue(0.0, 99.0, 0.946) == 0.0
    ensures DailyEmissions(200.0, 0.05, 0.562) == 5.62
    ensures DailyEmissions(100.0, 0.0, 0.812) == 0.0
    ensures DailyEmissions(0.0, 0.038, 0.562) == 0.0
    ensures ActualHeatRate(100.0, 50.0) == 2.0
    ensures ActualHeatRate(11.815, 11.815) == 1.0
    ensures ActualHeatRate(10.0, 0.0) == 0.0
  {
  }
}
