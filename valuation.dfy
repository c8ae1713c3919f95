/**
 * `POST /valuation`: resolve the request's make and model in the reference table, then
 * depreciate the reference price by age and mileage within fixed guards, and score the
 * confidence of the estimate.
 */
module Valuation {
  import opened Wrappers
  import opened Keys
  import opened ReferenceTable

  const AnnualDepreciation: real := 0.07
  const PerTenThousandDepreciation: real := 0.015
  const MileageBucket: real := 10000.0
  const MinRetention: real := 0.35
  /** The floor is a further 20% below the minimum retention. */
  const LowerGuardBuffer: real := 0.8
  const UpperGuardFactor: real := 1.05

  /** What an unknown make and model is answered with. */
  const UnknownEstimate: real := 10000.0
  const UnknownConfidence: real := 0.5

  const ConfidenceFloor: real := 0.5
  const ConfidenceCeiling: real := 0.9
  const YearGapPenalty: real := 0.06
  const MileagePenaltyCap: real := 0.5
  const MileagePenaltyScale: real := 200000.0

  const Currency: string := "EUR"

  /** The clock's current year and month (UTC). */
  datatype YearMonth = YearMonth(year: int, month: int)

  /** A date as `datetime.fromisoformat` returns it. */
  datatype Date = Date(year: int, month: int, day: int)

  predicate ValidMonth(month: int)
  {
    1 <= month <= 12
  }

  /** Months counted from the start of year 0, so that consecutive months differ by one. */
  function MonthNumber(year: int, month: int): int
  {
    year * 12 + (month - 1)
  }

  function Max(a: real, b: real): real
  {
    if a >= b then a else b
  }

  function Min(a: real, b: real): real
  {
    if a <= b then a else b
  }

  /** `v` held between `lo` and `hi`; the upper bound is applied first, so `lo` wins when `lo > hi`. */
  function Clamp(v: real, lo: real, hi: real): (r: real)
    ensures lo <= hi ==> lo <= r <= hi
    ensures lo <= v <= hi ==> r == v
    ensures v <= lo ==> r == lo
    ensures lo <= hi <= v ==> r == hi
    ensures hi < lo ==> r == lo
  {
    Max(lo, Min(hi, v))
  }

  /** Clamping keeps the order of its inputs. */
  lemma ClampMonotone(v: real, w: real, lo: real, hi: real)
    requires v <= w
    ensures Clamp(v, lo, hi) <= Clamp(w, lo, hi)
  {
  }

  /**
   * The age of a vehicle: whole months from the registration's month to the current month, in years,
   * never negative; a date that failed to parse counts as age 0.
   */
  function YearsSince(now: YearMonth, registration: Option<Date>): (years: real)
    ensures years >= 0.0
    ensures (years * 12.0).Floor as real == years * 12.0
    ensures registration.None? ==> years == 0.0
    ensures registration.Some? && ValidMonth(now.month) && ValidMonth(registration.value.month) ==>
      if MonthNumber(registration.value.year, registration.value.month) <= MonthNumber(now.year, now.month)
      then years * 12.0 == (MonthNumber(now.year, now.month) - MonthNumber(registration.value.year, registration.value.month)) as real
      else years == 0.0
  {
    match registration
    case None => 0.0
    case Some(d) =>
      var months := (now.year - d.year) * 12 + (now.month - d.month);
      Max(0.0, months as real / 12.0)
  }

  /** The day of the month plays no part in the age. */
  lemma YearsSinceIgnoresDay(now: YearMonth, d: Date, day: int)
    ensures YearsSince(now, Some(d)) == YearsSince(now, Some(d.(day := day)))
  {
  }

  /** A registration exactly `n` years before the current month is `n` years old. */
  lemma YearsSinceWholeYears(now: YearMonth, d: Date, n: nat)
    requires d.month == now.month && d.year + n == now.year
    ensures YearsSince(now, Some(d)) == n as real
  {
  }

  /** One minus 1.5% per 10,000 km driven; negative beyond about 666,667 km. */
  function MileageFactor(mileageKm: int): (f: real)
    ensures mileageKm >= 0 ==> f <= 1.0
    ensures f == 1.0 <==> mileageKm == 0
    ensures f < 0.0 <==> 3 * mileageKm > 2000000
  {
    1.0 - PerTenThousandDepreciation * (mileageKm as real / MileageBucket)
  }

  lemma MileageFactorAntitone(m1: int, m2: int)
    requires m1 <= m2
    ensures MileageFactor(m2) <= MileageFactor(m1)
  {
  }

  /** The reference price scaled by `yearFactor` and by `MileageFactor`, before the guards. */
  function Depreciated(basePrice: real, yearFactor: real, mileageKm: int): real
  {
    basePrice * yearFactor * MileageFactor(mileageKm)
  }

  /** The lower guard: 80% of the minimum retained value, which is 35% of `basePrice`. */
  function LowerGuard(basePrice: real): (g: real)
    ensures g == 0.28 * basePrice
    ensures basePrice >= 0.0 ==> 0.0 <= g <= basePrice
  {
    basePrice * MinRetention * LowerGuardBuffer
  }

  /** The upper guard: 105% of `basePrice`. */
  function UpperGuard(basePrice: real): (g: real)
    ensures basePrice >= 0.0 ==> LowerGuard(basePrice) <= basePrice <= g
    ensures basePrice < 0.0 ==> g < LowerGuard(basePrice)
  {
    basePrice * UpperGuardFactor
  }

  /**
   * The estimate: the reference price depreciated by `yearFactor` (0.93 raised to the age
   * in years) and by 1.5% per 10,000 km, then held between 28% and 105% of the reference price.
   */
  function Estimate(basePrice: real, yearFactor: real, mileageKm: int): (e: real)
    ensures basePrice >= 0.0 ==> 0.28 * basePrice <= e <= 1.05 * basePrice
    ensures basePrice < 0.0 ==> e == 0.28 * basePrice
    ensures basePrice >= 0.0 && yearFactor == 1.0 && mileageKm == 0 ==> e == basePrice
  {
    Clamp(Depreciated(basePrice, yearFactor, mileageKm), LowerGuard(basePrice), UpperGuard(basePrice))
  }

  lemma ProductNonNegative(a: real, b: real)
    requires a >= 0.0 && b >= 0.0
    ensures a * b >= 0.0
  {
  }

  lemma ScaleMonotone(c: real, x: real, y: real)
    requires c >= 0.0 && x <= y
    ensures c * x <= c * y
  {
    ProductNonNegative(c, y - x);
  }

  lemma DepreciatedNonIncreasing(basePrice: real, yearFactor: real, m1: int, m2: int)
    requires basePrice >= 0.0 && yearFactor >= 0.0 && m1 <= m2
    ensures Depreciated(basePrice, yearFactor, m2) <= Depreciated(basePrice, yearFactor, m1)
  {
    var c := basePrice * yearFactor;
    ProductNonNegative(basePrice, yearFactor);
    MileageFactorAntitone(m1, m2);
    ScaleMonotone(c, MileageFactor(m2), MileageFactor(m1));
  }

  /** More kilometres never raise the estimate (for a non-negative price and year factor). */
  lemma EstimateNonIncreasingInMileage(basePrice: real, yearFactor: real, m1: int, m2: int)
    requires basePrice >= 0.0 && yearFactor >= 0.0 && 0 <= m1 <= m2
    ensures Estimate(basePrice, yearFactor, m2) <= Estimate(basePrice, yearFactor, m1)
  {
    DepreciatedNonIncreasing(basePrice, yearFactor, m1, m2);
    ClampMonotone(Depreciated(basePrice, yearFactor, m2), Depreciated(basePrice, yearFactor, m1),
                  LowerGuard(basePrice), UpperGuard(basePrice));
  }

  /**
   * With a year factor in [0, 1] (as 0.93 raised to any non-negative age is) and no negative mileage,
   * the estimate never exceeds the reference price.
   */
  lemma EstimateAtMostBasePrice(basePrice: real, yearFactor: real, mileageKm: int)
    requires basePrice >= 0.0 && 0.0 <= yearFactor <= 1.0 && mileageKm >= 0
    ensures Estimate(basePrice, yearFactor, mileageKm) <= basePrice
  {
    var raw := Depreciated(basePrice, yearFactor, mileageKm);
    assert raw <= basePrice by {
      DepreciatedAtMostBasePrice(basePrice, yearFactor, mileageKm);
    }
    assert LowerGuard(basePrice) <= basePrice;
  }

  lemma DepreciatedAtMostBasePrice(basePrice: real, yearFactor: real, mileageKm: int)
    requires basePrice >= 0.0 && 0.0 <= yearFactor <= 1.0 && mileageKm >= 0
    ensures Depreciated(basePrice, yearFactor, mileageKm) <= basePrice
  {
    var m := MileageFactor(mileageKm);
    MileageFactorAntitone(0, mileageKm);
    assert m <= 1.0;
    ScaleMonotone(basePrice, yearFactor, 1.0);
    var c := basePrice * yearFactor;
    assert 0.0 <= c <= basePrice by {
      ProductNonNegative(basePrice, yearFactor);
    }
    if m >= 0.0 {
      ScaleMonotone(c, m, 1.0);
    } else {
      ScaleMonotone(c, m, 0.0);
    }
  }

  /** The mileage part of the confidence penalty: 0.5 at most, reached at 100,000 km. */
  function MileagePenalty(mileageKm: int): (p: real)
    requires mileageKm >= 0
    ensures 0.0 <= p <= MileagePenaltyCap
    ensures p == 0.0 <==> mileageKm == 0
  {
    Min(MileagePenaltyCap, mileageKm as real / MileagePenaltyScale)
  }

  function Abs(n: int): nat
  {
    if n < 0 then -n else n
  }

  /**
   * The confidence score: 0.9, less 0.06 per year between the registration year and the
   * reference year, less the mileage penalty, held within [0.5, 0.9].
   */
  function Confidence(registrationYear: int, year0: int, mileageKm: int): (c: real)
    requires mileageKm >= 0
    ensures ConfidenceFloor <= c <= ConfidenceCeiling
    ensures c == ConfidenceCeiling <==> registrationYear == year0 && mileageKm == 0
  {
    var yearGap := Abs(registrationYear - year0);
    Clamp(ConfidenceCeiling - yearGap as real * YearGapPenalty - MileagePenalty(mileageKm),
          ConfidenceFloor, ConfidenceCeiling)
  }

  /** More kilometres never raise the confidence. */
  lemma ConfidenceNonIncreasingInMileage(registrationYear: int, year0: int, m1: int, m2: int)
    requires 0 <= m1 <= m2
    ensures Confidence(registrationYear, year0, m2) <= Confidence(registrationYear, year0, m1)
  {
    var gap := Abs(registrationYear - year0) as real * YearGapPenalty;
    ClampMonotone(ConfidenceCeiling - gap - MileagePenalty(m2), ConfidenceCeiling - gap - MileagePenalty(m1),
                  ConfidenceFloor, ConfidenceCeiling);
  }

  /** A wider gap between registration year and reference year never raises the confidence. */
  lemma ConfidenceNonIncreasingInYearGap(y1: int, y2: int, year0: int, mileageKm: int)
    requires mileageKm >= 0 && Abs(y1 - year0) <= Abs(y2 - year0)
    ensures Confidence(y2, year0, mileageKm) <= Confidence(y1, year0, mileageKm)
  {
    var p := MileagePenalty(mileageKm);
    ClampMonotone(ConfidenceCeiling - Abs(y2 - year0) as real * YearGapPenalty - p,
                  ConfidenceCeiling - Abs(y1 - year0) as real * YearGapPenalty - p,
                  ConfidenceFloor, ConfidenceCeiling);
  }

  /** Python's `int(x)` on a float: the integer part, truncating toward zero. */
  function TruncateToInt(x: real): (n: int)
    ensures 0.0 <= x ==> n as real <= x < n as real + 1.0
    ensures x < 0.0 ==> n as real - 1.0 < x <= n as real
  {
    if x >= 0.0 then x.Floor else -((-x).Floor)
  }

  /** A valuation request after field validation; `registration` is the parsed date of first registration. */
  datatype Request = Request(make: string, model: string, mileageKm: int, registration: Option<Date>)

  /** The answer to a valuation request. */
  datatype ValuationResponse = ValuationResponse(estimate: real, currency: string, confidence: real)

  /** `datetime.fromisoformat` raising on the registration date in the confidence step. */
  datatype ValuationError = MalformedRegistration

  /**
   * A valuation request answered: an unknown make and model gets the fixed default answer; a known one
   * is estimated, and then fails if its registration date does not parse. `decay` is the
   * year factor, 0.93 raised to the age in years, as a function of that age.
   */
  function Valuate(table: seq<Record>, request: Request, now: YearMonth, decay: real -> real)
    : (r: Result<ValuationResponse, ValuationError>)
    requires request.mileageKm >= 0
    ensures Lookup(table, request.make, request.model).None? ==>
      r == Ok(ValuationResponse(UnknownEstimate, Currency, UnknownConfidence))
    ensures Lookup(table, request.make, request.model).Some? && request.registration.None? ==>
      r == Err(MalformedRegistration)
    ensures Lookup(table, request.make, request.model).Some? && request.registration.Some? ==>
      && r.Ok?
      && r.value.currency == Currency
      && ConfidenceFloor <= r.value.confidence <= ConfidenceCeiling
      && var base := Lookup(table, request.make, request.model).value.basePrice;
         base >= 0.0 ==> 0.28 * base <= r.value.estimate <= 1.05 * base
  {
    var years := YearsSince(now, request.registration);
    match Lookup(table, request.make, request.model)
    case None => Ok(ValuationResponse(UnknownEstimate, Currency, UnknownConfidence))
    case Some(record) =>
      var estimate := Estimate(record.basePrice, decay(years), request.mileageKm);
      match request.registration
      case None => Err(MalformedRegistration)
      case Some(d) =>
        Ok(ValuationResponse(estimate, Currency, Confidence(d.year, TruncateToInt(record.year0), request.mileageKm)))
  }

  /** Lookup ignores letter case and surrounding whitespace in the requested make and model. */
  lemma ValuateIgnoresKeyFormatting(table: seq<Record>, request: Request, make': string, model': string,
                                    preMake: string, postMake: string, preModel: string, postModel: string,
                                    now: YearMonth, decay: real -> real)
    requires request.mileageKm >= 0
    requires IsBlank(preMake) && IsBlank(postMake) && IsBlank(preModel) && IsBlank(postModel)
    requires SameUpToCase(request.make, make') && SameUpToCase(request.model, model')
    ensures Valuate(table, request.(make := preMake + make' + postMake, model := preModel + model' + postModel),
                    now, decay)
         == Valuate(table, request, now, decay)
  {
    LookupIgnoresFormatting(table, request.make, request.model, make', model', preMake, postMake, preModel, postModel);
  }

  /** The reference year changes only the confidence: rows differing only in `year0` give the same estimate. */
  lemma Year0OnlyAffectsConfidence(t1: seq<Record>, t2: seq<Record>, request: Request, now: YearMonth,
                                   decay: real -> real)
    requires request.mileageKm >= 0
    requires |t1| == |t2|
    requires forall i :: 0 <= i < |t1| ==>
      t1[i].make == t2[i].make && t1[i].model == t2[i].model && t1[i].basePrice == t2[i].basePrice
    ensures Valuate(t1, request, now, decay).Ok? == Valuate(t2, request, now, decay).Ok?
    ensures Valuate(t1, request, now, decay).Ok? ==>
      Valuate(t1, request, now, decay).value.estimate == Valuate(t2, request, now, decay).value.estimate
  {
    LookupSameKeys(t1, t2, request.make, request.model);
    var l1, l2 := Lookup(t1, request.make, request.model), Lookup(t2, request.make, request.model);
    if l1.Some? && request.registration.Some? {
      var years := YearsSince(now, request.registration);
      var km := request.mileageKm;
      assert Valuate(t1, request, now, decay).value.estimate == Estimate(l1.value.basePrice, decay(years), km);
      assert Valuate(t2, request, now, decay).value.estimate == Estimate(l2.value.basePrice, decay(years), km);
    }
  }

  /**
   * When the year factor stays in [0, 1] for every age, a known vehicle is never valued above
   * its reference price.
   */
  lemma ValuationAtMostReferencePrice(table: seq<Record>, request: Request, now: YearMonth, decay: real -> real)
    requires request.mileageKm >= 0
    requires forall y :: y >= 0.0 ==> 0.0 <= decay(y) <= 1.0
    requires Lookup(table, request.make, request.model).Some?
    requires Lookup(table, request.make, request.model).value.basePrice >= 0.0
    ensures Valuate(table, request, now, decay).Ok? ==>
      Valuate(table, request, now, decay).value.estimate <= Lookup(table, request.make, request.model).value.basePrice
  {
    var record := Lookup(table, request.make, request.model).value;
    var years := YearsSince(now, request.registration);
    EstimateAtMostBasePrice(record.basePrice, decay(years), request.mileageKm);
  }

  /**
   * A known vehicle with no kilometres registered this month is valued at its reference price,
   * with full confidence when it was registered in the reference year.
   */
  lemma NewVehicleKeepsReferencePrice(table: seq<Record>, request: Request, now: YearMonth, decay: real -> real)
    requires request.mileageKm == 0 && decay(0.0) == 1.0
    requires request.registration.Some?
    requires request.registration.value.year == now.year && request.registration.value.month == now.month
    requires Lookup(table, request.make, request.model).Some?
    requires Lookup(table, request.make, request.model).value.basePrice >= 0.0
    ensures var record := Lookup(table, request.make, request.model).value;
      && Valuate(table, request, now, decay).Ok?
      && Valuate(table, request, now, decay).value.estimate == record.basePrice
      && (Valuate(table, request, now, decay).value.confidence == ConfidenceCeiling
          <==> now.year == TruncateToInt(record.year0))
  {
    assert YearsSince(now, request.registration) == 0.0;
  }

  /** `b` to the power `n`, for a whole number of years. */
  function Power(b: real, n: nat): real
  {
    if n == 0 then 1.0 else b * Power(b, n - 1)
  }

  /** A known vehicle with a parsed registration date is valued from its row. */
  lemma ValuateKnown(table: seq<Record>, request: Request, now: YearMonth, decay: real -> real, record: Record)
    requires request.mileageKm >= 0 && request.registration.Some?
    requires Lookup(table, request.make, request.model) == Some(record)
    ensures Valuate(table, request, now, decay) == Ok(ValuationResponse(
      Estimate(record.basePrice, decay(YearsSince(now, request.registration)), request.mileageKm),
      Currency,
      Confidence(request.registration.value.year, TruncateToInt(record.year0), request.mileageKm)))
  {
  }

  /** A one-row table holding the given make and model, as the loader stores them, at 40,000 EUR as of 2020. */
  function OneRowTable(make: string, model: string): seq<Record>
  {
    [Record(Normalize(make), Normalize(model), 40000.0, 2020.0)]
  }

  /** A new car with no kilometres keeps its reference price at full confidence. */
  lemma NewCarExample(make: string, model: string, decay: real -> real)
    requires decay(0.0) == 1.0
    ensures Valuate(OneRowTable(make, model), Request(make, model, 0, Some(Date(2020, 1, 1))), YearMonth(2020, 1), decay)
         == Ok(ValuationResponse(40000.0, "EUR", 0.9))
  {
    var table := OneRowTable(make, model);
    var request := Request(make, model, 0, Some(Date(2020, 1, 1)));
    LookupUnique(table, make, model, 0);
    ValuateKnown(table, request, YearMonth(2020, 1), decay, table[0]);
    assert YearsSince(YearMonth(2020, 1), request.registration) == 0.0;
    assert Estimate(40000.0, 1.0, 0) == 40000.0;
    assert TruncateToInt(2020.0) == 2020;
  }

  /**
   * Five years and 100,000 km: 40,000 * 0.93^5 * 0.85, within the guards; the confidence
   * 0.9 - 5 * 0.06 - 0.5 falls below the floor and is held at 0.5.
   */
  lemma FiveYearsExample(make: string, model: string, decay: real -> real)
    requires decay(5.0) == Power(1.0 - AnnualDepreciation, 5)
    ensures Valuate(OneRowTable(make, model), Request(make, model, 100000, Some(Date(2015, 1, 1))),
                    YearMonth(2020, 1), decay)
         == Ok(ValuationResponse(23653.4045562, "EUR", 0.5))
  {
    var table := OneRowTable(make, model);
    var request := Request(make, model, 100000, Some(Date(2015, 1, 1)));
    LookupUnique(table, make, model, 0);
    ValuateKnown(table, request, YearMonth(2020, 1), decay, table[0]);
    assert YearsSince(YearMonth(2020, 1), request.registration) == 5.0;
    assert decay(5.0) == 0.6956883693 by {
      assert Power(0.93, 5) == 0.6956883693;
    }
    assert Estimate(40000.0, 0.6956883693, 100000) == 23653.4045562 by {
      assert MileageFactor(100000) == 0.85;
      assert Depreciated(40000.0, 0.6956883693, 100000) == 23653.4045562;
    }
    assert TruncateToInt(2020.0) == 2020;
    assert Confidence(2015, 2020, 100000) == 0.5 by {
      assert MileagePenalty(100000) == 0.5;
    }
  }
}
