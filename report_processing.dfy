/**
 * The aggregation step of report processing: one pass over the parsed
 * generators that produces the per-generator total values, the heat rates
 * of the eligible coal generators, and for every date the generator with
 * the largest emissions on that date.
 *
 * The specification functions below say what each output collection
 * holds; ComputeResults is the loop of the service, proved to produce
 * exactly those collections, and the lemmas state what the collections
 * mean in terms of the input records.
 */
module ReportProcessing {
  import opened Models
  import opened Calculation
  import opened Factors

  /** A generator's accumulated generation value. */
  datatype TotalValue = TotalValue(generatorName: string, totalValue: real)

  /** A coal generator's heat rate. */
  datatype HeatRate = HeatRate(generatorName: string, heatRate: real)

  /** One day's emissions of one generator, as held in a date's bucket. */
  datatype EmissionEntry = EmissionEntry(generatorName: string, emission: real)

  /** The three output collections. The daily leaders are keyed by date:
      their enumeration order is not part of the result. */
  datatype Results = Results(
    totals: seq<TotalValue>,
    maxEmissionsPerDay: map<Date, EmissionEntry>,
    heatRates: seq<HeatRate>)

  // ---------------------------------------------------------------------
  // Totals
  // ---------------------------------------------------------------------

  /** Sum of the daily generation values, accumulated day by day in order
      from 0. A generator that produced nothing on any day totals 0. */
  function GeneratorTotal(valueFactor: real, days: seq<DayInfo>): (r: real)
    ensures (forall k | 0 <= k < |days| :: days[k].energy == 0.0) ==> r == 0.0
  {
    if days == [] then 0.0
    else
      var day := days[|days| - 1];
      GeneratorTotal(valueFactor, days[..|days| - 1]) + DailyGenerationValue(day.energy, day.price, valueFactor)
  }

  /** Reference definition: the sum of energy times price over the days. */
  function Revenue(days: seq<DayInfo>): real {
    if days == [] then 0.0 else days[0].energy * days[0].price + Revenue(days[1..])
  }

  lemma {:induction false} RevenueSnoc(days: seq<DayInfo>)
    requires days != []
    ensures Revenue(days) == Revenue(days[..|days| - 1]) + days[|days| - 1].energy * days[|days| - 1].price
  {
    if |days| > 1 {
      RevenueSnoc(days[1..]);
      assert days[1..][..|days[1..]| - 1] == days[..|days| - 1][1..];
    }
  }

  /** A generator's total is its value factor times its revenue: the value
      factor of its type scales every day alike. */
  lemma {:induction false} GeneratorTotalIsScaledRevenue(valueFactor: real, days: seq<DayInfo>)
    ensures GeneratorTotal(valueFactor, days) == valueFactor * Revenue(days)
  {
    if days != [] {
      var day := days[|days| - 1];
      GeneratorTotalIsScaledRevenue(valueFactor, days[..|days| - 1]);
      RevenueSnoc(days);
      Distribute(valueFactor, Revenue(days[..|days| - 1]), day.energy, day.price);
    }
  }

  lemma Distribute(factor: real, before: real, energy: real, price: real)
    ensures factor * before + energy * price * factor == factor * (before + energy * price)
  {
  }

  /** The total the service reports for a generator of a defined type. */
  function ExpectedTotal(rf: ReferenceFactors, g: GeneratorData): real
    requires g.generatorType.IsDefined()
  {
    GeneratorTotal(ValueFactor(rf, g.generatorType).value, g.dailyData)
  }
  /** Every generator has one of the four named types. */
  predicate AllDefined(gens: seq<GeneratorData>) {
    forall i | 0 <= i < |gens| :: gens[i].generatorType.IsDefined()
  }

  /** The per-generator totals, in input order. */
  function Totals(rf: ReferenceFactors, gens: seq<GeneratorData>): (r: seq<TotalValue>)
    requires AllDefined(gens)
    ensures |r| == |gens|
  {
    if gens == [] then []
    else
      var g := gens[|gens| - 1];
      Totals(rf, gens[..|gens| - 1]) + [TotalValue(g.name, ExpectedTotal(rf, g))]
  }

  /** The totals list names every generator once, in input order, with
      the total its type's value factor gives. */
  lemma {:induction false} TotalsEntries(rf: ReferenceFactors, gens: seq<GeneratorData>)
    requires AllDefined(gens)
    ensures forall i | 0 <= i < |gens| :: Totals(rf, gens)[i] == TotalValue(gens[i].name, ExpectedTotal(rf, gens[i]))
  {
    if gens != [] {
      var init := gens[..|gens| - 1];
      TotalsEntries(rf, init);
      forall i | 0 <= i < |gens| ensures Totals(rf, gens)[i] == TotalValue(gens[i].name, ExpectedTotal(rf, gens[i])) {
        if i < |init| {
          assert init[i] == gens[i];
        }
      }
    }
  }

  /** The first generator with an undefined type: all before it are defined. */
  lemma AllDefinedPrefix(gens: seq<GeneratorData>, i: nat)
    requires i < |gens| && AllDefined(gens[..i]) && !gens[i].generatorType.IsDefined()
    ensures !AllDefined(gens)
    ensures exists k :: 0 <= k < |gens| && AllDefined(gens[..k]) && !gens[k].generatorType.IsDefined()
  {
  }

  // ---------------------------------------------------------------------
  // Heat rates
  // ---------------------------------------------------------------------

  /** The filter of the heat-rate block, exactly as written: coal with a
      net generation of 0. */
  predicate HeatRateEligible(g: GeneratorData): (b: bool)
    ensures b ==> g.generatorType.IsFossil() && ActualHeatRate(g.totalHeatInput, g.actualNetGeneration) == 0.0
  {
    g.generatorType == Coal && g.actualNetGeneration == 0.0
  }

  /** The heat rates of the eligible generators, in input order. */
  function HeatRates(gens: seq<GeneratorData>): (r: seq<HeatRate>)
    ensures |r| <= |gens|
  {
    if gens == [] then []
    else
      var g := gens[|gens| - 1];
      HeatRates(gens[..|gens| - 1]) +
        if HeatRateEligible(g) then [HeatRate(g.name, ActualHeatRate(g.totalHeatInput, g.actualNetGeneration))] else []
  }

  /** One generator contributes exactly one entry, of value 0, when it is
      eligible, and none otherwise. */
  lemma HeatRatesOfOne(g: GeneratorData)
    ensures HeatRates([g]) == if HeatRateEligible(g) then [HeatRate(g.name, 0.0)] else []
  {
    assert [g][..0] == [];
  }

  /** The heat rates of consecutive runs of generators are the runs' heat
      rates one after the other: entries keep the input order. */
  lemma {:induction false} HeatRatesAppend(a: seq<GeneratorData>, b: seq<GeneratorData>)
    ensures HeatRates(a + b) == HeatRates(a) + HeatRates(b)
    decreases |b|
  {
    if b == [] {
      assert a + b == a;
    } else {
      var init := b[..|b| - 1];
      assert (a + b)[..|a + b| - 1] == a + init;
      assert (a + b)[|a + b| - 1] == b[|b| - 1];
      HeatRatesAppend(a, init);
    }
  }

  /** Every eligible generator has its entry, and the entry is 0. */
  lemma {:induction false} HeatRatesComplete(gens: seq<GeneratorData>, i: nat)
    requires i < |gens| && HeatRateEligible(gens[i])
    ensures HeatRate(gens[i].name, 0.0) in HeatRates(gens)
  {
    if i < |gens| - 1 {
      var init := gens[..|gens| - 1];
      assert init[i] == gens[i];
      HeatRatesComplete(init, i);
    }
  }

  /** Every entry names an eligible generator and is 0. */
  lemma {:induction false} HeatRatesSound(gens: seq<GeneratorData>, h: HeatRate)
    requires h in HeatRates(gens)
    ensures exists i :: 0 <= i < |gens| && HeatRateEligible(gens[i]) && h == HeatRate(gens[i].name, 0.0)
  {
    var init := gens[..|gens| - 1];
    if h in HeatRates(init) {
      HeatRatesSound(init, h);
      var i :| 0 <= i < |init| && HeatRateEligible(init[i]) && h == HeatRate(init[i].name, 0.0);
      assert gens[i] == init[i];
    } else {
      assert HeatRateEligible(gens[|gens| - 1]);
    }
  }

  /** An entry is a heat rate exactly when it names a coal generator with
      zero net generation and carries 0: because eligibility demands zero
      net generation, the division guard makes every reported rate 0. */
  lemma HeatRateEntries(gens: seq<GeneratorData>, h: HeatRate)
    ensures h in HeatRates(gens) <==>
            exists i :: 0 <= i < |gens| && HeatRateEligible(gens[i]) && h == HeatRate(gens[i].name, 0.0)
  {
    if h in HeatRates(gens) {
      HeatRatesSound(gens, h);
    }
    if exists i :: 0 <= i < |gens| && HeatRateEligible(gens[i]) && h == HeatRate(gens[i].name, 0.0) {
      var i :| 0 <= i < |gens| && HeatRateEligible(gens[i]) && h == HeatRate(gens[i].name, 0.0);
      HeatRatesComplete(gens, i);
    }
  }

  // ---------------------------------------------------------------------
  // Emissions and daily leaders
  // ---------------------------------------------------------------------

  /** The entries one generator appends to the list of `date`, in day order. */
  function DayEmissions(name: string, rating: real, ef: real, days: seq<DayInfo>, date: Date): (r: seq<EmissionEntry>)
    ensures |r| <= |days|
    ensures forall e | e in r :: e.generatorName == name
  {
    if days == [] then []
    else
      var day := days[|days| - 1];
      DayEmissions(name, rating, ef, days[..|days| - 1], date) +
        if day.date == date then [EmissionEntry(name, DailyEmissions(day.energy, rating, ef))] else []
  }

  /** The entry a gas or coal generator records for one of its days. */
  function FossilEmission(rf: ReferenceFactors, g: GeneratorData, day: DayInfo): EmissionEntry
    requires g.generatorType.IsFossil()
  {
    EmissionEntry(g.name, DailyEmissions(day.energy, g.emissionsRating, EmissionFactor(rf, g.generatorType).value))
  }

  /** The bucket of `date` after the given generators: the entries of the
      gas and coal generators in input order, each generator's in day order. */
  function EmissionsOn(rf: ReferenceFactors, gens: seq<GeneratorData>, date: Date): (r: seq<EmissionEntry>)
    ensures forall e | e in r :: exists i | 0 <= i < |gens| :: gens[i].generatorType.IsFossil() && e.generatorName == gens[i].name
  {
    if gens == [] then []
    else
      var g := gens[|gens| - 1];
      EmissionsOn(rf, gens[..|gens| - 1], date) +
        if g.generatorType.IsFossil()
        then DayEmissions(g.name, g.emissionsRating, EmissionFactor(rf, g.generatorType).value, g.dailyData, date)
        else []
  }

  /** Position of the entry that a stable descending sort by emission puts
      first: the earliest entry whose emission is the maximum. */
  function LeaderIndex(es: seq<EmissionEntry>): (k: nat)
    requires es != []
    ensures k < |es|
    ensures forall j | 0 <= j < |es| :: es[j].emission <= es[k].emission
    ensures forall j | 0 <= j < k :: es[j].emission < es[k].emission
  {
    if |es| == 1 then 0
    else
      var k := LeaderIndex(es[1..]);
      if es[0].emission >= es[k + 1].emission then 0 else k + 1
  }

  /** The day's leader: a recorded entry whose emission is at least that of
      every entry of the day; among equal maxima, the earliest recorded. */
  function Leader(es: seq<EmissionEntry>): (r: EmissionEntry)
    requires es != []
    ensures r in es
    ensures forall e | e in es :: e.emission <= r.emission
  {
    es[LeaderIndex(es)]
  }

  /** Every record of `date` contributes its entry to the day's list. */
  lemma {:induction false} DayEmissionsComplete(name: string, rating: real, ef: real, days: seq<DayInfo>, date: Date, k: nat)
    requires k < |days| && days[k].date == date
    ensures EmissionEntry(name, DailyEmissions(days[k].energy, rating, ef)) in DayEmissions(name, rating, ef, days, date)
  {
    if k < |days| - 1 {
      var init := days[..|days| - 1];
      assert init[k] == days[k];
      DayEmissionsComplete(name, rating, ef, init, date, k);
    }
  }

  /** Every entry of the day's list comes from a record of `date`. */
  lemma {:induction false} DayEmissionsSound(name: string, rating: real, ef: real, days: seq<DayInfo>, date: Date, e: EmissionEntry)
    requires e in DayEmissions(name, rating, ef, days, date)
    ensures exists k :: 0 <= k < |days| && days[k].date == date &&
                        e == EmissionEntry(name, DailyEmissions(days[k].energy, rating, ef))
  {
    var init, day := days[..|days| - 1], days[|days| - 1];
    if e in DayEmissions(name, rating, ef, init, date) {
      DayEmissionsSound(name, rating, ef, init, date, e);
      var k :| 0 <= k < |init| && init[k].date == date && e == EmissionEntry(name, DailyEmissions(init[k].energy, rating, ef));
      assert days[k] == init[k];
    } else {
      assert days[|days| - 1] == day;
    }
  }

  /** An entry lies in the list of `date` exactly when one of the
      generator's records of that date produced it. */
  lemma DayEmissionsContents(name: string, rating: real, ef: real, days: seq<DayInfo>, date: Date, e: EmissionEntry)
    ensures e in DayEmissions(name, rating, ef, days, date) <==>
            exists k :: 0 <= k < |days| && days[k].date == date &&
                        e == EmissionEntry(name, DailyEmissions(days[k].energy, rating, ef))
  {
    if e in DayEmissions(name, rating, ef, days, date) {
      DayEmissionsSound(name, rating, ef, days, date, e);
    }
    if exists k :: 0 <= k < |days| && days[k].date == date && e == EmissionEntry(name, DailyEmissions(days[k].energy, rating, ef)) {
      var k :| 0 <= k < |days| && days[k].date == date && e == EmissionEntry(name, DailyEmissions(days[k].energy, rating, ef));
      DayEmissionsComplete(name, rating, ef, days, date, k);
    }
  }

  /** Every record of `date` of a gas or coal generator lands in the
      bucket of `date`. */
  lemma {:induction false} EmissionsOnComplete(rf: ReferenceFactors, gens: seq<GeneratorData>, date: Date, i: nat, k: nat)
    requires i < |gens| && gens[i].generatorType.IsFossil()
    requires k < |gens[i].dailyData| && gens[i].dailyData[k].date == date
    ensures FossilEmission(rf, gens[i], gens[i].dailyData[k]) in EmissionsOn(rf, gens, date)
  {
    var init, g := gens[..|gens| - 1], gens[|gens| - 1];
    if i < |gens| - 1 {
      assert init[i] == gens[i];
      EmissionsOnComplete(rf, init, date, i, k);
    } else {
      DayEmissionsComplete(g.name, g.emissionsRating, EmissionFactor(rf, g.generatorType).value, g.dailyData, date, k);
    }
  }

  /** Every entry of the bucket of `date` comes from a record of that date
      of a gas or coal generator. */
  lemma {:induction false} EmissionsOnSound(rf: ReferenceFactors, gens: seq<GeneratorData>, date: Date, e: EmissionEntry)
    requires e in EmissionsOn(rf, gens, date)
    ensures exists i, k :: 0 <= i < |gens| && gens[i].generatorType.IsFossil() &&
                           0 <= k < |gens[i].dailyData| && gens[i].dailyData[k].date == date &&
                           e == FossilEmission(rf, gens[i], gens[i].dailyData[k])
  {
    var init, g := gens[..|gens| - 1], gens[|gens| - 1];
    if e in EmissionsOn(rf, init, date) {
      EmissionsOnSound(rf, init, date, e);
      var i, k :| 0 <= i < |init| && init[i].generatorType.IsFossil() &&
                  0 <= k < |init[i].dailyData| && init[i].dailyData[k].date == date &&
                  e == FossilEmission(rf, init[i], init[i].dailyData[k]);
      assert gens[i] == init[i];
    } else {
      assert g.generatorType.IsFossil();
      DayEmissionsSound(g.name, g.emissionsRating, EmissionFactor(rf, g.generatorType).value, g.dailyData, date, e);
      var k :| 0 <= k < |g.dailyData| && g.dailyData[k].date == date &&
               e == EmissionEntry(g.name, DailyEmissions(g.dailyData[k].energy, g.emissionsRating, EmissionFactor(rf, g.generatorType).value));
      assert e == FossilEmission(rf, gens[|gens| - 1], gens[|gens| - 1].dailyData[k]);
    }
  }

  /** An entry lies in the bucket of `date` exactly when some gas or coal
      generator has a daily record of that date with that emission. Wind
      generators never contribute; zero emissions are not dropped. */
  lemma EmissionsOnDate(rf: ReferenceFactors, gens: seq<GeneratorData>, date: Date, e: EmissionEntry)
    ensures e in EmissionsOn(rf, gens, date) <==>
            exists i, k :: 0 <= i < |gens| && gens[i].generatorType.IsFossil() &&
                           0 <= k < |gens[i].dailyData| && gens[i].dailyData[k].date == date &&
                           e == FossilEmission(rf, gens[i], gens[i].dailyData[k])
  {
    if e in EmissionsOn(rf, gens, date) {
      EmissionsOnSound(rf, gens, date, e);
    }
    if exists i, k :: 0 <= i < |gens| && gens[i].generatorType.IsFossil() &&
                      0 <= k < |gens[i].dailyData| && gens[i].dailyData[k].date == date &&
                      e == FossilEmission(rf, gens[i], gens[i].dailyData[k]) {
      var i, k :| 0 <= i < |gens| && gens[i].generatorType.IsFossil() &&
                  0 <= k < |gens[i].dailyData| && gens[i].dailyData[k].date == date &&
                  e == FossilEmission(rf, gens[i], gens[i].dailyData[k]);
      EmissionsOnComplete(rf, gens, date, i, k);
    }
  }

  /** A date has a leader exactly when some gas or coal generator has a
      daily record of that date. */
  lemma LeaderDates(rf: ReferenceFactors, gens: seq<GeneratorData>, date: Date)
    ensures EmissionsOn(rf, gens, date) != [] <==>
            exists i, k :: 0 <= i < |gens| && gens[i].generatorType.IsFossil() &&
                           0 <= k < |gens[i].dailyData| && gens[i].dailyData[k].date == date
  {
    if EmissionsOn(rf, gens, date) != [] {
      EmissionsOnDate(rf, gens, date, EmissionsOn(rf, gens, date)[0]);
    }
    if exists i, k :: 0 <= i < |gens| && gens[i].generatorType.IsFossil() &&
                      0 <= k < |gens[i].dailyData| && gens[i].dailyData[k].date == date {
      var i, k :| 0 <= i < |gens| && gens[i].generatorType.IsFossil() &&
                  0 <= k < |gens[i].dailyData| && gens[i].dailyData[k].date == date;
      EmissionsOnDate(rf, gens, date, FossilEmission(rf, gens[i], gens[i].dailyData[k]));
    }
  }

  /** A day's leader is the emission of a gas or coal generator's record of
      that day, and no record of that day emits more. */
  lemma LeaderIsFossilMaximum(rf: ReferenceFactors, gens: seq<GeneratorData>, date: Date)
    requires EmissionsOn(rf, gens, date) != []
    ensures exists i, k :: 0 <= i < |gens| && gens[i].generatorType.IsFossil() &&
                           0 <= k < |gens[i].dailyData| && gens[i].dailyData[k].date == date &&
                           Leader(EmissionsOn(rf, gens, date)) == FossilEmission(rf, gens[i], gens[i].dailyData[k])
    ensures forall i, k :: 0 <= i < |gens| && gens[i].generatorType.IsFossil() &&
                           0 <= k < |gens[i].dailyData| && gens[i].dailyData[k].date == date ==>
                           FossilEmission(rf, gens[i], gens[i].dailyData[k]).emission <= Leader(EmissionsOn(rf, gens, date)).emission
  {
    EmissionsOnDate(rf, gens, date, Leader(EmissionsOn(rf, gens, date)));
    forall i, k | 0 <= i < |gens| && gens[i].generatorType.IsFossil() &&
                  0 <= k < |gens[i].dailyData| && gens[i].dailyData[k].date == date
      ensures FossilEmission(rf, gens[i], gens[i].dailyData[k]).emission <= Leader(EmissionsOn(rf, gens, date)).emission
    {
      EmissionsOnDate(rf, gens, date, FossilEmission(rf, gens[i], gens[i].dailyData[k]));
    }
  }

  /** The leader's position is the only one that holds a maximal emission
      with every earlier emission strictly smaller. */
  lemma LeaderIndexUnique(es: seq<EmissionEntry>, k: nat)
    requires k < |es|
    requires forall j | 0 <= j < |es| :: es[j].emission <= es[k].emission
    requires forall j | 0 <= j < k :: es[j].emission < es[k].emission
    ensures LeaderIndex(es) == k
  {
  }

  /** The leader of a concatenation: the first part's leader unless the
      second part holds a strictly larger emission. */
  lemma LeaderOfAppend(a: seq<EmissionEntry>, b: seq<EmissionEntry>)
    requires a + b != []
    ensures a != [] && (b == [] || Leader(b).emission <= Leader(a).emission) ==> Leader(a + b) == Leader(a)
    ensures b != [] && (a == [] || Leader(a).emission < Leader(b).emission) ==> Leader(a + b) == Leader(b)
  {
    var ab := a + b;
    if a != [] && (b == [] || Leader(b).emission <= Leader(a).emission) {
      var ka := LeaderIndex(a);
      forall j | 0 <= j < |ab| ensures ab[j].emission <= ab[ka].emission {
        if j >= |a| {
          assert ab[j] == b[j - |a|];
        }
      }
      LeaderIndexUnique(ab, ka);
    } else {
      var kb := LeaderIndex(b);
      forall j | 0 <= j < |ab| ensures ab[j].emission <= ab[|a| + kb].emission {
        if j >= |a| {
          assert ab[j] == b[j - |a|];
        }
      }
      forall j | 0 <= j < |a| + kb ensures ab[j].emission < ab[|a| + kb].emission {
        if j >= |a| {
          assert ab[j] == b[j - |a|];
        } else {
          assert a[j] in a;
        }
      }
      LeaderIndexUnique(ab, |a| + kb);
    }
  }

  /** A maximal record of the last generator: the leader comes either from
      an earlier generator or from that very record. */
  lemma LeaderAtLastGenerator(rf: ReferenceFactors, gens: seq<GeneratorData>, date: Date, k: nat)
    requires gens != [] && gens[|gens| - 1].generatorType.IsFossil()
    requires k < |gens[|gens| - 1].dailyData| && gens[|gens| - 1].dailyData[k].date == date
    requires EmissionsOn(rf, gens, date) != []
    requires FossilEmission(rf, gens[|gens| - 1], gens[|gens| - 1].dailyData[k]).emission == Leader(EmissionsOn(rf, gens, date)).emission
    ensures || Leader(EmissionsOn(rf, gens, date)) == FossilEmission(rf, gens[|gens| - 1], gens[|gens| - 1].dailyData[k])
            || (exists i0, k0 :: 0 <= i0 < |gens| - 1 && 0 <= k0 < |gens[i0].dailyData| &&
                                 gens[i0].generatorType.IsFossil() && gens[i0].dailyData[k0].date == date &&
                                 Leader(EmissionsOn(rf, gens, date)) == FossilEmission(rf, gens[i0], gens[i0].dailyData[k0]))
  {
    var init, g := gens[..|gens| - 1], gens[|gens| - 1];
    var before := EmissionsOn(rf, init, date);
    var ef := EmissionFactor(rf, g.generatorType).value;
    var last := DayEmissions(g.name, g.emissionsRating, ef, g.dailyData, date);
    assert EmissionsOn(rf, gens, date) == before + last;
    LeaderOfAppend(before, last);
    DayEmissionsComplete(g.name, g.emissionsRating, ef, g.dailyData, date, k);
    if before != [] && Leader(last).emission <= Leader(before).emission {
      EmissionsOnSound(rf, init, date, Leader(before));
      var i0, k0 :| 0 <= i0 < |init| && init[i0].generatorType.IsFossil() &&
                    0 <= k0 < |init[i0].dailyData| && init[i0].dailyData[k0].date == date &&
                    Leader(before) == FossilEmission(rf, init[i0], init[i0].dailyData[k0]);
      assert gens[i0] == init[i0];
    } else {
      // Every entry of the generator's list carries its name, so the
      // leader is record `k`'s entry: equal emissions give equal entries.
      assert Leader(last) in last;
    }
  }

  /** Ties are broken by input order: the day's leader comes from the
      earliest generator that has a record of that date with the maximal
      emission. Within one generator, records of equal emission give equal
      entries, so only the generator order can decide a tie. */
  lemma {:induction false} LeaderIsEarliest(rf: ReferenceFactors, gens: seq<GeneratorData>, date: Date, i: nat, k: nat)
    requires i < |gens| && gens[i].generatorType.IsFossil()
    requires k < |gens[i].dailyData| && gens[i].dailyData[k].date == date
    requires EmissionsOn(rf, gens, date) != []
    requires FossilEmission(rf, gens[i], gens[i].dailyData[k]).emission == Leader(EmissionsOn(rf, gens, date)).emission
    ensures exists i0, k0 :: 0 <= i0 <= i && 0 <= k0 < |gens[i0].dailyData| && (i0 == i ==> k0 <= k) &&
                             gens[i0].generatorType.IsFossil() && gens[i0].dailyData[k0].date == date &&
                             Leader(EmissionsOn(rf, gens, date)) == FossilEmission(rf, gens[i0], gens[i0].dailyData[k0])
  {
    if i == |gens| - 1 {
      LeaderAtLastGenerator(rf, gens, date, k);
    } else {
      var init, g := gens[..|gens| - 1], gens[|gens| - 1];
      var before := EmissionsOn(rf, init, date);
      var last := if g.generatorType.IsFossil()
                  then DayEmissions(g.name, g.emissionsRating, EmissionFactor(rf, g.generatorType).value, g.dailyData, date)
                  else [];
      assert EmissionsOn(rf, gens, date) == before + last;
      LeaderOfAppend(before, last);
      assert init[i] == gens[i];
      EmissionsOnComplete(rf, init, date, i, k);
      assert Leader(EmissionsOn(rf, gens, date)) == Leader(before);
      LeaderIsEarliest(rf, init, date, i, k);
      var i0, k0 :| 0 <= i0 <= i && 0 <= k0 < |init[i0].dailyData| && (i0 == i ==> k0 <= k) &&
                    init[i0].generatorType.IsFossil() && init[i0].dailyData[k0].date == date &&
                    Leader(before) == FossilEmission(rf, init[i0], init[i0].dailyData[k0]);
      assert gens[i0] == init[i0];
    }
  }


  // ---------------------------------------------------------------------
  // The dictionary of per-date emission lists
  // ---------------------------------------------------------------------

  /** The list held for `date`, empty when the dictionary has no entry. */
  function Bucket(byDate: map<Date, seq<EmissionEntry>>, date: Date): seq<EmissionEntry> {
    if date in byDate then byDate[date] else []
  }

  /** Append `e` to the list of `date`, creating the list if it is missing. */
  function Record(byDate: map<Date, seq<EmissionEntry>>, date: Date, e: EmissionEntry): (r: map<Date, seq<EmissionEntry>>)
    ensures r.Keys == byDate.Keys + {date}
  {
    byDate[date := Bucket(byDate, date) + [e]]
  }

  /** The dates of a generator's daily records. */
  function Dates(days: seq<DayInfo>): set<Date> {
    set k | 0 <= k < |days| :: days[k].date
  }

  /** The dictionary after recording one generator's days in order. */
  function RecordDays(byDate: map<Date, seq<EmissionEntry>>, name: string, rating: real, ef: real, days: seq<DayInfo>)
    : map<Date, seq<EmissionEntry>>
  {
    if days == [] then byDate
    else
      var day := days[|days| - 1];
      Record(RecordDays(byDate, name, rating, ef, days[..|days| - 1]), day.date,
             EmissionEntry(name, DailyEmissions(day.energy, rating, ef)))
  }

  /** The dictionary after the given generators: only gas and coal record. */
  function Buckets(rf: ReferenceFactors, gens: seq<GeneratorData>): map<Date, seq<EmissionEntry>> {
    if gens == [] then map[]
    else
      var g := gens[|gens| - 1];
      var before := Buckets(rf, gens[..|gens| - 1]);
      if g.generatorType.IsFossil()
      then RecordDays(before, g.name, g.emissionsRating, EmissionFactor(rf, g.generatorType).value, g.dailyData)
      else before
  }

  /** After one generator's days, each date's list is the old list followed
      by that generator's entries of the date, in day order. */
  lemma {:induction false} RecordDaysBucket(byDate: map<Date, seq<EmissionEntry>>, name: string, rating: real, ef: real,
                                            days: seq<DayInfo>, date: Date)
    ensures Bucket(RecordDays(byDate, name, rating, ef, days), date) ==
            Bucket(byDate, date) + DayEmissions(name, rating, ef, days, date)
  {
    if days == [] {
      assert Bucket(byDate, date) + [] == Bucket(byDate, date);
    } else {
      var init, day := days[..|days| - 1], days[|days| - 1];
      RecordDaysBucket(byDate, name, rating, ef, init, date);
      var before, mine := Bucket(byDate, date), DayEmissions(name, rating, ef, init, date);
      var e := EmissionEntry(name, DailyEmissions(day.energy, rating, ef));
      if day.date == date {
        assert (before + mine) + [e] == before + (mine + [e]);
      } else {
        assert mine + [] == mine;
      }
    }
  }

  /** One generator's day loop adds exactly the dates of its records to
      the dictionary's keys, leaves the lists of all other dates untouched
      and, as every list is created with its first entry, leaves no list
      empty. */
  lemma {:induction false} RecordDaysFrame(byDate: map<Date, seq<EmissionEntry>>, name: string, rating: real, ef: real,
                                           days: seq<DayInfo>)
    ensures RecordDays(byDate, name, rating, ef, days).Keys == byDate.Keys + Dates(days)
    ensures forall date | date in byDate && date !in Dates(days) ::
              RecordDays(byDate, name, rating, ef, days)[date] == byDate[date]
    ensures (forall date | date in byDate :: byDate[date] != []) ==>
              forall date | date in RecordDays(byDate, name, rating, ef, days) :: RecordDays(byDate, name, rating, ef, days)[date] != []
  {
    if days != [] {
      var init := days[..|days| - 1];
      RecordDaysFrame(byDate, name, rating, ef, init);
      assert Dates(days) == Dates(init) + {days[|days| - 1].date} by {
        assert forall k | 0 <= k < |init| :: init[k] == days[k];
      }
    }
  }

  /** The dictionary holds, for every date, exactly the entries of the
      reference per-date definition, and it has no empty list. */
  lemma {:induction false} BucketsHoldEmissions(rf: ReferenceFactors, gens: seq<GeneratorData>)
    ensures forall date :: Bucket(Buckets(rf, gens), date) == EmissionsOn(rf, gens, date)
    ensures forall date | date in Buckets(rf, gens) :: Buckets(rf, gens)[date] != []
  {
    if gens != [] {
      var init, g := gens[..|gens| - 1], gens[|gens| - 1];
      BucketsHoldEmissions(rf, init);
      if g.generatorType.IsFossil() {
        var ef := EmissionFactor(rf, g.generatorType).value;
        RecordDaysFrame(Buckets(rf, init), g.name, g.emissionsRating, ef, g.dailyData);
        forall date ensures Bucket(Buckets(rf, gens), date) == EmissionsOn(rf, gens, date) {
          RecordDaysBucket(Buckets(rf, init), g.name, g.emissionsRating, ef, g.dailyData, date);
        }
      } else {
        forall date ensures Bucket(Buckets(rf, gens), date) == EmissionsOn(rf, gens, date) {
          assert EmissionsOn(rf, init, date) + [] == EmissionsOn(rf, init, date);
        }
      }
    }
  }

  /** Leaders picked from the final dictionary are the leaders of the
      reference per-date lists, and exist for exactly the dates that
      have entries. */
  lemma LeadersOfBuckets(rf: ReferenceFactors, gens: seq<GeneratorData>, leaders: map<Date, EmissionEntry>)
    requires leaders.Keys == Buckets(rf, gens).Keys
    requires forall date | date in leaders :: Buckets(rf, gens)[date] != [] && leaders[date] == Leader(Buckets(rf, gens)[date])
    ensures forall date :: date in leaders <==> EmissionsOn(rf, gens, date) != []
    ensures forall date | date in leaders ::
              EmissionsOn(rf, gens, date) != [] && leaders[date] == Leader(EmissionsOn(rf, gens, date))
  {
    BucketsHoldEmissions(rf, gens);
    forall date ensures date in leaders <==> EmissionsOn(rf, gens, date) != [] {
      assert Bucket(Buckets(rf, gens), date) == EmissionsOn(rf, gens, date);
    }
    forall date | date in leaders
      ensures EmissionsOn(rf, gens, date) != [] && leaders[date] == Leader(EmissionsOn(rf, gens, date))
    {
      assert Bucket(Buckets(rf, gens), date) == EmissionsOn(rf, gens, date);
    }
  }

  // ---------------------------------------------------------------------
  // The aggregation loop
  // ---------------------------------------------------------------------

  lemma SomeElement(s: set<Date>)
    requires s != {}
    ensures exists d :: d in s
  {
    if forall d :: d !in s {
      assert false;
    }
  }

  /** The leader of every list, taken in the dictionary's own enumeration
      order; the order does not affect the result. */
  method MaxEmissionsPerDay(byDate: map<Date, seq<EmissionEntry>>) returns (maxEmissionsPerDay: map<Date, EmissionEntry>)
    requires forall date | date in byDate :: byDate[date] != []
    ensures maxEmissionsPerDay.Keys == byDate.Keys
    ensures forall date | date in maxEmissionsPerDay :: maxEmissionsPerDay[date] == Leader(byDate[date])
  {
    maxEmissionsPerDay := map[];
    var pending := byDate.Keys;
    while pending != {}
      invariant pending <= byDate.Keys
      invariant maxEmissionsPerDay.Keys == byDate.Keys - pending
      invariant forall date | date in maxEmissionsPerDay :: maxEmissionsPerDay[date] == Leader(byDate[date])
      decreases pending
    {
      SomeElement(pending);
      var date :| date in pending;
      var emissionList := byDate[date];
      var maxEm := Leader(emissionList);
      maxEmissionsPerDay := maxEmissionsPerDay[date := maxEm];
      pending := pending - {date};
    }
  }

  /** The day loop of one generator, starting from a zero running total:
      every day's value is added to the total and, for gas and coal only,
      every day's emission is appended to the list of its date, creating
      the list on the first record of a date. */
  method AccumulateDays(gen: GeneratorData, valueFactor: real, emissionFactor: real, byDate0: map<Date, seq<EmissionEntry>>)
    returns (generatorTotal: real, byDate: map<Date, seq<EmissionEntry>>)
    ensures generatorTotal == GeneratorTotal(valueFactor, gen.dailyData)
    ensures byDate == if gen.generatorType.IsFossil()
                      then RecordDays(byDate0, gen.name, gen.emissionsRating, emissionFactor, gen.dailyData)
                      else byDate0
  {
    generatorTotal, byDate := 0.0, byDate0;
    for j := 0 to |gen.dailyData|
      invariant generatorTotal == GeneratorTotal(valueFactor, gen.dailyData[..j])
      invariant byDate == if gen.generatorType.IsFossil()
                          then RecordDays(byDate0, gen.name, gen.emissionsRating, emissionFactor, gen.dailyData[..j])
                          else byDate0
    {
      var day := gen.dailyData[j];
      assert gen.dailyData[..j + 1][..j] == gen.dailyData[..j];

      var dailyValue := DailyGenerationValue(day.energy, day.price, valueFactor);
      generatorTotal := generatorTotal + dailyValue;

      if !gen.generatorType.IsFossil() {
        continue;
      }

      var dailyEmission := DailyEmissions(day.energy, gen.emissionsRating, emissionFactor);

      ghost var before := byDate;
      if day.date !in byDate {
        byDate := byDate[day.date := []];
      }
      assert byDate[day.date] == Bucket(before, day.date);
      byDate := byDate[day.date := byDate[day.date] + [EmissionEntry(gen.name, dailyEmission)]];
      assert byDate == Record(before, day.date, EmissionEntry(gen.name, dailyEmission));
    }
    assert gen.dailyData[..|gen.dailyData|] == gen.dailyData;
  }

  /** The aggregation pass. For each generator in order: record a heat
      rate if it is eligible; resolve both factors (an undefined type
      aborts the whole pass); accumulate the daily values into its total
      and, for gas and coal, append each day's emissions to the list of
      its date. Finally pick every date's leader. */
  method ComputeResults(rf: ReferenceFactors, gens: seq<GeneratorData>) returns (res: Result<Results, FactorError>)
    ensures res.Failure? <==> !AllDefined(gens)
    ensures res.Failure? ==>
              exists i :: 0 <= i < |gens| && AllDefined(gens[..i]) && !gens[i].generatorType.IsDefined() &&
                          res.error == ArgumentOutOfRange(gens[i].generatorType)
    ensures res.Success? ==> AllDefined(gens) && res.value.totals == Totals(rf, gens)
    ensures res.Success? ==> res.value.heatRates == HeatRates(gens)
    ensures res.Success? ==>
              forall date :: date in res.value.maxEmissionsPerDay <==> EmissionsOn(rf, gens, date) != []
    ensures res.Success? ==>
              forall date | date in res.value.maxEmissionsPerDay ::
                EmissionsOn(rf, gens, date) != [] &&
                res.value.maxEmissionsPerDay[date] == Leader(EmissionsOn(rf, gens, date))
  {
    var dailyEmissionsByDate: map<Date, seq<EmissionEntry>> := map[];
    var totalValues: seq<TotalValue> := [];
    var heatRates: seq<HeatRate> := [];

    for i := 0 to |gens|
      invariant AllDefined(gens[..i])
      invariant totalValues == Totals(rf, gens[..i])
      invariant heatRates == HeatRates(gens[..i])
      invariant dailyEmissionsByDate == Buckets(rf, gens[..i])
    {
      var gen := gens[i];
      assert gens[..i + 1][..i] == gens[..i];

      if HeatRateEligible(gen) {
        var hr := ActualHeatRate(gen.totalHeatInput, gen.actualNetGeneration);
        heatRates := heatRates + [HeatRate(gen.name, hr)];
      }
      assert heatRates == HeatRates(gens[..i + 1]);

      var valFactor := ValueFactor(rf, gen.generatorType);
      if valFactor.Failure? {
        AllDefinedPrefix(gens, i);
        return Failure(valFactor.error);
      }
      // The emissions lookup rejects exactly the types the value lookup
      // rejects, so once the value factor is resolved it cannot fail.
      var emissionFactor := EmissionFactor(rf, gen.generatorType).value;

      var generatorTotal;
      generatorTotal, dailyEmissionsByDate := AccumulateDays(gen, valFactor.value, emissionFactor, dailyEmissionsByDate);

      assert AllDefined(gens[..i + 1]);
      totalValues := totalValues + [TotalValue(gen.name, generatorTotal)];
    }
    assert gens[..|gens|] == gens;

    BucketsHoldEmissions(rf, gens);
    var maxEmissionsPerDay := MaxEmissionsPerDay(dailyEmissionsByDate);
    LeadersOfBuckets(rf, gens, maxEmissionsPerDay);

    res := Success(Results(totalValues, maxEmissionsPerDay, heatRates));
  }
}
