# EDM calculation and aggregation engine, in Dafny

This project models the domain core of the EDM energy report processor: the
part that turns parsed generator records into three result collections:

- the total generation value of every generator;
- the heat rate of the eligible coal generators;
- the generator with the highest emissions on each date.

It has four modules:

- `Models` (models.dfy): the records the engine reads. These are the generator type, a
  generator with its daily production, one day's record, and the reference
  factor table of High/Medium/Low triples. It also holds a `Result` type that stands for the
  exceptions the services throw.
- `Calculation` (calculation.dfy): the three metric formulas of the
  calculation service. They are daily generation value, daily emissions and actual heat rate.
  The heat rate is guarded against a zero net generation.
- `Factors` (factors.dfy): the factor service. It is a closed mapping from generator
  type to value factor and emissions factor. Any type outside the four named ones
  is an out-of-range error.
- `ReportProcessing` (report_processing.dfy): the aggregation pass
  `ComputeResults` as an imperative method. The generator loop and the day loop
  carry invariants that tie the running total and every accumulator to reference
  functions: `GeneratorTotal`, `Totals`, `HeatRates`, `RecordDays` and `Buckets`.
  After the loop, `BucketsHoldEmissions` ties the dictionary to the independent
  per-date definition `EmissionsOn`. Lemmas then state what these reference
  functions mean: one total per generator in input order,
  every heat-rate entry zero, emission buckets holding exactly the gas and coal records of
  their date, and the per-date leader being the earliest maximal entry.

Floating-point numbers are modelled as `real`, and calendar dates as an integer key
that is only compared for equality. The emission dictionary is a
`map<Date, seq<EmissionEntry>>`. The per-date leaders are a map keyed by
date, because the source's dictionary enumeration order carries no meaning.

The heat-rate filter is modelled exactly as written: a generator qualifies when it is
coal *and* its net generation is 0. Together with the division guard,
every reported heat rate is therefore 0 (`ReportProcessing.HeatRateEntries`).
The comment above the filter suggests that every coal generator was meant to
qualify. The model follows the code.

## Model

| member | source | states |
|---|---|---|
| Calculation.DailyGenerationValue | EDM.Core/Services/CalculationService.cs:8-11 | energy×price×factor; zero exactly when one of the three inputs is zero; nonnegative for nonnegative inputs |
| Calculation.DailyEmissions | EDM.Core/Services/CalculationService.cs:13-17 | energy×rating×factor; zero exactly when energy, rating or factor is zero (wind's zero rating gives 0) |
| Calculation.ActualHeatRate | EDM.Core/Services/CalculationService.cs:19-27 | total for every input; net generation 0 gives 0, otherwise the result times the net generation is the heat input |
| Calculation.HeatRateOfEqualInputs | EDM.Core/Services/CalculationService.cs:26 | equal nonzero heat input and net generation give a heat rate of 1 |
| Calculation.FormulaExamples | EDM.Tests/Core/CalculationServiceTests.cs:10-38 | the nine unit-test rows hold exactly over the reals |
| Factors.ValueFactor | EDM.Core/Services/FactorService.cs:18-28 | WindOffshore gives Low, WindOnshore High, Gas and Coal Medium; fails with an out-of-range error exactly for an undefined type |
| Factors.EmissionFactor | EDM.Core/Services/FactorService.cs:30-41 | Gas gives Medium, Coal High, both wind types 0 whatever the table holds; fails exactly for an undefined type |
| Factors.EmissionFactorIgnoresLow | EDM.Core/Services/FactorService.cs:30-41 | the emissions lookup does not depend on the Low emissions entry for any type |
| Factors.FossilValueFactorsAgree | EDM.Core/Services/FactorService.cs:24-25 | gas and coal get the same value factor |
| ReportProcessing.GeneratorTotal | EDM.Application/ReportProcessingService.cs:87-104 | a generator whose every record has zero energy (in particular one with no records) totals 0 |
| ReportProcessing.GeneratorTotalIsScaledRevenue | EDM.Application/ReportProcessingService.cs:100-104 | the accumulated total equals the value factor times the sum of energy×price over the daily records |
| ReportProcessing.Totals | EDM.Application/ReportProcessingService.cs:82-121 | one total per generator |
| ReportProcessing.TotalsEntries | EDM.Application/ReportProcessingService.cs:85-121 | the i-th total names the i-th generator and carries the sum of its daily values under its type's value factor |
| ReportProcessing.HeatRateEligible | EDM.Application/ReportProcessingService.cs:90 | the literal filter, coal with net generation 0; an eligible generator is fossil and its heat rate is 0 |
| ReportProcessing.HeatRates | EDM.Application/ReportProcessingService.cs:89-94 | the filter-map over the generators: never more entries than generators |
| ReportProcessing.HeatRatesOfOne | EDM.Application/ReportProcessingService.cs:90-93 | one generator contributes exactly one entry, of value 0, when it is eligible and none otherwise |
| ReportProcessing.HeatRatesAppend | EDM.Application/ReportProcessingService.cs:85-94 | the heat rates of consecutive runs of generators follow each other, so entries keep the input order; with the above, one entry per eligible generator in input order |
| ReportProcessing.HeatRatesComplete | EDM.Application/ReportProcessingService.cs:89-94 | every coal generator with zero net generation gets an entry, and that entry is 0 |
| ReportProcessing.HeatRatesSound | EDM.Application/ReportProcessingService.cs:89-94 | every entry names a coal generator with zero net generation and is 0 |
| ReportProcessing.HeatRateEntries | EDM.Application/ReportProcessingService.cs:89-94 | an entry is a heat rate exactly when it names a coal generator with zero net generation and carries heat rate 0 |
| ReportProcessing.DayEmissions | EDM.Application/ReportProcessingService.cs:100-118 | the entries one generator appends to a date's list, in day order: no more entries than daily records, each carrying the generator's name |
| ReportProcessing.EmissionsOn | EDM.Application/ReportProcessingService.cs:85-122 | the reference bucket of a date: every entry carries the name of a gas or coal generator |
| ReportProcessing.DayEmissionsComplete | EDM.Application/ReportProcessingService.cs:100-118 | every daily record of a date contributes its emission entry to that date's list |
| ReportProcessing.DayEmissionsSound | EDM.Application/ReportProcessingService.cs:100-118 | every entry of a date's list comes from a daily record of that date |
| ReportProcessing.DayEmissionsContents | EDM.Application/ReportProcessingService.cs:100-118 | both directions of the above: membership in a date's list is having a record of that date |
| ReportProcessing.EmissionsOnComplete | EDM.Application/ReportProcessingService.cs:85-118 | every record of a gas or coal generator lands in its date's bucket, zero emissions included |
| ReportProcessing.EmissionsOnSound | EDM.Application/ReportProcessingService.cs:85-118 | every entry of a date's bucket is the emission of a gas or coal record of that date; wind never contributes |
| ReportProcessing.EmissionsOnDate | EDM.Application/ReportProcessingService.cs:85-118 | both directions: bucket membership is being the emission of a gas or coal record of that date |
| ReportProcessing.LeaderIndex | EDM.Application/ReportProcessingService.cs:127 | the position a stable descending sort puts first: its emission is the maximum and every earlier entry is strictly smaller |
| ReportProcessing.Leader | EDM.Application/ReportProcessingService.cs:127-128 | the leader is one of the recorded entries and no entry of its date emits more |
| ReportProcessing.LeaderAtLastGenerator | EDM.Application/ReportProcessingService.cs:85-127 | when the last gas or coal generator holds a record with the maximal emission of its date, the leader is either that record's entry or the entry of an earlier generator's record of that date |
| ReportProcessing.LeaderIsEarliest | EDM.Application/ReportProcessingService.cs:85-127 | ties go to input order: the leader comes from the earliest generator holding a record of its date with the maximal emission; one generator's records of equal emission give equal entries, so only generator order can decide a tie |
| ReportProcessing.LeaderDates | EDM.Application/ReportProcessingService.cs:112-128 | a date has a leader exactly when some gas or coal generator has a record of that date |
| ReportProcessing.LeaderIsFossilMaximum | EDM.Application/ReportProcessingService.cs:118-128 | a date's leader is the emission of a gas or coal record of that date and is at least every such emission |
| ReportProcessing.Record | EDM.Application/ReportProcessingService.cs:112-118 | recording an emission adds its date to the dictionary's keys and nothing else |
| ReportProcessing.RecordDaysBucket | EDM.Application/ReportProcessingService.cs:100-119 | after one generator's day loop each date's list is the old list followed by that generator's entries of the date, in day order |
| ReportProcessing.RecordDaysFrame | EDM.Application/ReportProcessingService.cs:100-119 | what one generator's day loop (`RecordDays`) does to the dictionary: the keys gain exactly the dates of its records, the lists of other dates are untouched, and no list is left empty |
| ReportProcessing.BucketsHoldEmissions | EDM.Application/ReportProcessingService.cs:81-122 | the dictionary after the generator loop (`Buckets`) holds for every date exactly the reference bucket, and no empty list |
| ReportProcessing.LeadersOfBuckets | EDM.Application/ReportProcessingService.cs:124-129 | leaders chosen from the dictionary are the leaders of the reference buckets, for exactly the dates that have entries |
| ReportProcessing.MaxEmissionsPerDay | EDM.Application/ReportProcessingService.cs:124-129 | one leader per dictionary key, each the leader of its list, whatever the enumeration order |
| ReportProcessing.AccumulateDays | EDM.Application/ReportProcessingService.cs:100-119 | the day loop: the running total is the generator's total, and for gas and coal each day's emission is appended to its date's list; wind leaves the dictionary unchanged |
| ReportProcessing.ComputeResults | EDM.Application/ReportProcessingService.cs:75-132 | fails exactly when some type is undefined, with the error of the first one; otherwise totals, heat rates and per-date leaders equal their reference definitions |

## Left out

- `ProcessReportFileAsync` (EDM.Application/ReportProcessingService.cs:40-69) is not modelled: it checks for the file, reads configuration, logs and writes the output, all of which is I/O.
- XML parsing of the generation report and the reference data, XML output with its `F9` and round-trip date formatting, file watching, hosting and dependency injection are not modelled: they are library calls, file I/O and concurrency.
- The interface files hold no logic.
- Floating-point rounding is not modelled: values are reals, so the results are exact where the doubles round. The unit tests compare to 3 decimals.
- The source's declaration of the generator-type enumeration, with its underlying values, is not available. The model names the four values the services dispatch on and stands for every other underlying value with `Undefined(code)`. Nothing relates `code` to the underlying values of the named four, so an `Undefined` value may carry a code that a named value also uses.
- ReportProcessing.ComputeResults: the order of the per-date leaders is not stated. The source emits them in dictionary enumeration order, which is not contractual, so the leaders are a map keyed by date and `MaxEmissionsPerDay` takes the keys in an arbitrary order.
- ReportProcessing.ComputeResults: the results are returned as lists and a map of records, not the source's tuples. A leader's date is its map key rather than a third tuple field.
- ReportProcessing.ComputeResults: on failure no partial results are returned. The source throws out of the method, so its callers see none either.
- Aliasing of the per-date lists is not modelled: the dictionary stores list values that the day loop replaces, where the source adds to the list object held in the dictionary. No other reference to these lists exists, so the contents are the same.
- That the lookups never modify the factor table holds by construction: the table is an immutable value passed to pure functions.
