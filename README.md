# EV quick valuation — verified model of the valuation core

This project models the logic of the local EV valuation service in `backend/app.py`. The
service does four things:

- **Loads a reference table.** At start-up it turns a parsed dataset into a table of
  (make, model) rows, each holding a reference price `base_price` and a reference year
  `year0`: one row per key for transactional data, row for row for reference-shaped data.
- **Lists makes and models.** It answers `GET /makes` and `GET /models/{make}` from that table.
- **Normalizes keys.** The request's make and model are stripped of surrounding whitespace
  and lower-cased, then looked up in the table.
- **Values a vehicle.** It depreciates the reference price by age and mileage and holds the
  result between two guards. It also derives a confidence from the distance to the reference
  year and from the mileage.

Everything the service computes is a pure function of its inputs. The model therefore uses
datatypes, functions and lemmas (Dafny 4), in six modules:

| module | file | what it holds |
|---|---|---|
| `Wrappers` | `wrappers.dfy` | `Option` and `Result` |
| `Keys` | `keys.dfy` | Python's `strip()` and `lower()`, and the normalization built from them |
| `Order` | `order.dfy` | Python's string order, `sorted(set(...))`, an ascending sort of reals and the pandas median |
| `ReferenceTable` | `reference_table.dfy` | choosing a layout from the columns, the three loader branches, and the lookup of a request |
| `Catalog` | `catalog.dfy` | the makes list and the models list |
| `Valuation` | `valuation.dfy` | clamp, age in years, estimate, confidence and the whole valuation answer |

## Behaviour as implemented

The model follows the code of `backend/app.py`:

- **Median prices.** The reference price of a transactional dataset is the median of the
  group's prices, counting repeated sales as often as they occur. `year0` is the median of the
  group's registration years. When there is no `registration_year` column, `year0` is 2020.
- **Layout per dataset.** The dataset's columns decide the layout for the whole file. The four
  reference columns win over the three transactional ones. Any other dataset gives the built-in
  five-row table. A transactional dataset with no rows gives an empty table.
- **Unknown vehicles.** A make and model with no row gets estimate 10000.0 and confidence 0.5.
- **Duplicate keys.** Reference-shaped data is kept row for row, so two rows may share a key;
  a request then gets the first of them.
- **Confidence.** The formula is
  `clamp(0.9 − 0.06·|registration year − int(year0)| − min(0.5, km / 200000), 0.5, 0.9)`.
  The answer holds the estimate, the currency `EUR` and the confidence, and nothing else.
- **Malformed dates.** The age step treats a malformed registration date as age 0. The
  confidence step re-parses the same date without a guard, so for a known vehicle the request
  fails there. The model returns `Err(MalformedRegistration)` for that case. An unknown vehicle
  still gets the default answer.

The current time is a parameter `now` (year and month). The registration is a parameter
`Option<Date>`, with `None` meaning the date failed to parse. The year factor
`(1 − 0.07) ** years` is a parameter `decay: real -> real`. Lemmas that depend on it state
what they need from it as a precondition, for example `decay(0.0) == 1.0`.

## Model

| member | source | states |
|---|---|---|
| `Keys.Strip` | backend/app.py:70 | the result carries no leading or trailing whitespace, and the input is the result with blank padding on each side |
| `Keys.Lower` | backend/app.py:70 | the result has the input's length and each character is the input's character lower-cased; only A–Z change |
| `Keys.Normalize` | backend/app.py:70-71 | the result is stripped and lower-cased |
| `Keys.NormalizeFixesNormalized` | backend/app.py:70-71 | an already-normalized key is left unchanged |
| `Keys.NormalizeIdempotent` | backend/app.py:70-71 | normalizing twice gives the same key as normalizing once |
| `Keys.NormalizeIgnoresPadding` | backend/app.py:154-155 | surrounding whitespace added to a key does not change its normalized form |
| `Keys.NormalizeIgnoresCase` | backend/app.py:154-155 | two spellings that differ only in letter case normalize to the same key |
| `Keys.TrimStartSkipsBlank` | backend/app.py:70 | stripping the leading side removes a blank prefix and keeps everything after it |
| `Keys.TrimEndSkipsBlank` | backend/app.py:70 | stripping the trailing side removes a blank suffix and keeps everything before it |
| `Order.StrLtIrreflexive` | backend/app.py:140 | no string sorts before itself |
| `Order.StrLtTransitive` | backend/app.py:140 | the string order used by `sorted` is transitive |
| `Order.StrLtTotal` | backend/app.py:140 | any two different strings are ordered one way or the other |
| `Order.SortedUnique` | backend/app.py:140 | the result is strictly ascending and has exactly the members of the input |
| `Order.StrictlySortedUnique` | backend/app.py:140 | two strictly ascending lists with the same members are equal, so the sorted distinct list is unique |
| `Order.SortAscending` | backend/app.py:84 | the result is ascending and is a permutation of the input |
| `Order.AscendingUnique` | backend/app.py:84 | two ascending lists that are permutations of each other are equal |
| `Order.Median` | backend/app.py:84 | the median of a non-empty list is at or above one of its values and at or below one of its values |
| `Order.MedianOfPermutation` | backend/app.py:84 | the median does not depend on the order of the values |
| `Order.MedianOfAscending` | backend/app.py:84 | on ascending values the median is the middle value, or the mean of the two middle values |
| `Order.MedianOfConstant` | backend/app.py:84 | the median of equal values is that value |
| `Order.MedianOfTwo` | backend/app.py:84 | the median of two values is their mean |
| `ReferenceTable.DetectLayout` | backend/app.py:65-75 | the reference layout is chosen exactly when all four reference columns are present; the transactional layout needs make, model and price, and records whether registration_year is present; otherwise the fallback is used |
| `ReferenceTable.NormalizeRows` | backend/app.py:68-72 | reference-shaped data passes through row for row, with make and model normalized and price and year kept |
| `ReferenceTable.GroupKeys` | backend/app.py:82 | the group keys are distinct, and a key is listed exactly when some sale has it |
| `ReferenceTable.Group` | backend/app.py:82 | a group holds exactly the sales with its key, each as many times as it occurs in the input, and no other sale |
| `ReferenceTable.NormalizeSales` | backend/app.py:78-81 | every sale keeps its position, price and registration year, with make and model normalized |
| `ReferenceTable.GroupRecord` | backend/app.py:83-90 | the row for a key carries that key, and year 2020 when there is no registration_year column |
| `ReferenceTable.GroupByKey` | backend/app.py:82-86 | one row per distinct key, each row the aggregate of that key's group; no sales give no rows |
| `ReferenceTable.Aggregate` | backend/app.py:75-91 | the transactional branch gives an empty table exactly for an empty dataset, and year 2020 in every row when there is no registration_year column |
| `ReferenceTable.FallbackTable` | backend/app.py:94-102 | the built-in table has five rows, each with a price of at least 12000 and a reference year between 2018 and 2021 |
| `ReferenceTable.Build` | backend/app.py:64-102 | the reference branch keeps the row count, the transactional branch is empty exactly for an empty dataset and uses year 2020 without registration years, and the fallback has five rows |
| `ReferenceTable.GroupByOneRowPerKey` | backend/app.py:82-86 | the grouped table holds no key twice, and its keys are exactly the keys of the sales |
| `ReferenceTable.AggregateOneRowPerKey` | backend/app.py:75-91 | the aggregated table stores normalized keys, no key twice, and exactly the normalized keys of the sales |
| `ReferenceTable.AggregateIsMedian` | backend/app.py:83-90 | each aggregated row's price is the median of its group's prices; its year is the median registration year, or 2020 when that column is absent |
| `ReferenceTable.SingleKeyGroups` | backend/app.py:82-86 | sales that all share one key form a single group, and that group holds all of them |
| `ReferenceTable.FallbackTableKeys` | backend/app.py:94-102 | the fallback table has five rows with normalized, distinct keys |
| `ReferenceTable.BuildKeysNormalized` | backend/app.py:64-102 | every table the loader can produce stores normalized keys |
| `ReferenceTable.BuildIdempotent` | backend/app.py:64-102 | loading an already-loaded table as reference data gives the same table again |
| `ReferenceTable.FirstMatch` | backend/app.py:159 | the index found is the first row with the given make and model; no row is found exactly when none has them |
| `ReferenceTable.FirstMatchSameKeys` | backend/app.py:159 | the search depends only on the rows' makes and models |
| `ReferenceTable.Lookup` | backend/app.py:154-166 | a hit is the first row of the table whose key equals the normalized request; a miss means no row has that key |
| `ReferenceTable.LookupSameKeys` | backend/app.py:159-166 | tables that agree on make, model and price give the same hit-or-miss and the same price |
| `ReferenceTable.LookupUnique` | backend/app.py:159-166 | in a table with distinct keys, a row with the normalized key is the row the lookup returns |
| `ReferenceTable.LookupIgnoresFormatting` | backend/app.py:154-159 | blank padding added independently around the make and around the model, and changes of letter case, do not change the lookup |
| `Catalog.Makes` | backend/app.py:140 | the makes list is strictly ascending and holds exactly the makes in the table |
| `Catalog.MakesIsCanonical` | backend/app.py:140 | any strictly ascending list holding exactly the table's makes is the makes list |
| `Catalog.Models` | backend/app.py:147-148 | the models list is strictly ascending and holds exactly the models of rows whose make equals the normalized query; it is empty for an unknown make |
| `Catalog.SortedModelsOf` | backend/app.py:148 | the same promise, for a make already normalized |
| `Catalog.ModelsIsCanonical` | backend/app.py:148 | any strictly ascending list holding exactly those models is the models list |
| `Catalog.ModelsIgnoresFormatting` | backend/app.py:147-148 | padding or a change of letter case in the queried make does not change the models list |
| `Valuation.Clamp` | backend/app.py:115-116 | within the bounds when lo ≤ hi; unchanged when already in range; lo at or below lo; hi at or above hi; lo when lo > hi |
| `Valuation.ClampMonotone` | backend/app.py:115-116 | clamping preserves the order of its inputs |
| `Valuation.YearsSince` | backend/app.py:105-112 | the age is never negative and is a whole number of months over 12: the month distance when the registration is not later than now, 0 otherwise, and 0 for a date that failed to parse |
| `Valuation.YearsSinceIgnoresDay` | backend/app.py:105-112 | the day of the month does not affect the age |
| `Valuation.YearsSinceWholeYears` | backend/app.py:111-112 | a registration exactly n years before the current month is n years old |
| `Valuation.MileageFactor` | backend/app.py:171-172 | the mileage factor is at most 1 for non-negative mileage, exactly 1 at 0 km, and negative exactly above 666,666⅔ km |
| `Valuation.LowerGuard` | backend/app.py:175-176 | the lower guard is 28% of the price, and lies in [0, price] for a non-negative price |
| `Valuation.UpperGuard` | backend/app.py:176 | for a non-negative price the upper guard is at least the price and at least the lower guard; for a negative price it falls below the lower guard |
| `Valuation.MileageFactorAntitone` | backend/app.py:171-172 | more mileage never gives a larger mileage factor |
| `Valuation.DepreciatedNonIncreasing` | backend/app.py:171-174 | for a non-negative price and year factor, the raw value does not grow with mileage |
| `Valuation.Estimate` | backend/app.py:170-176 | for a non-negative price the estimate lies in [0.28·price, 1.05·price] whatever the year factor and mileage (also when the mileage factor is negative); with year factor 1 and no mileage it is the price |
| `Valuation.EstimateNonIncreasingInMileage` | backend/app.py:170-176 | for a non-negative price and year factor, more mileage never raises the estimate |
| `Valuation.DepreciatedAtMostBasePrice` | backend/app.py:170-174 | with a year factor in [0, 1] and no negative mileage, the raw value is at most the price |
| `Valuation.EstimateAtMostBasePrice` | backend/app.py:170-176 | with a year factor in [0, 1] and no negative mileage, the estimate is at most the price |
| `Valuation.MileagePenalty` | backend/app.py:179 | the mileage penalty lies in [0, 0.5] and is 0 exactly at zero mileage |
| `Valuation.Confidence` | backend/app.py:178-179 | the confidence lies in [0.5, 0.9], and is 0.9 exactly when the registration year equals the reference year and the mileage is 0 |
| `Valuation.ConfidenceNonIncreasingInMileage` | backend/app.py:179 | more mileage never raises the confidence |
| `Valuation.ConfidenceNonIncreasingInYearGap` | backend/app.py:178-179 | a larger distance between the registration year and the reference year never raises the confidence |
| `Valuation.TruncateToInt` | backend/app.py:167 | the reference year truncated toward zero: n ≤ x < n + 1 for non-negative x, n − 1 < x ≤ n for negative x |
| `Valuation.Valuate` | backend/app.py:153-181 | a miss gives 10000.0 EUR with confidence 0.5; a hit with a malformed date fails; otherwise the answer is in EUR, its confidence lies in [0.5, 0.9] and its estimate lies in [0.28·price, 1.05·price] for a non-negative reference price |
| `Valuation.ValuateIgnoresKeyFormatting` | backend/app.py:154-159 | blank padding added independently around the requested make and model, and changes of letter case, do not change the answer |
| `Valuation.Year0OnlyAffectsConfidence` | backend/app.py:166-179 | two tables that agree row for row on make, model and price give the same success or failure and the same estimate, whatever their reference years |
| `Valuation.ValuationAtMostReferencePrice` | backend/app.py:166-176 | when the year factor stays in [0, 1], a known vehicle is never valued above its reference price |
| `Valuation.NewVehicleKeepsReferencePrice` | backend/app.py:166-179 | a known vehicle registered this month with no mileage is valued at its reference price; its confidence is 0.9 exactly when the current year is the truncated reference year |
| `Valuation.NewCarExample` | backend/app.py:153-181 | worked example: a new car of a 40000 reference model gets 40000 EUR at confidence 0.9 |
| `Valuation.FiveYearsExample` | backend/app.py:153-181 | worked example: five years and 100000 km on a 40000 reference model gives 23653.4045562 EUR at confidence 0.5 |

## Left out

- The HTTP layer is not modelled: the web framework, the routes, CORS, `/health` and the server entry point (backend/app.py:122-134, 184-187). These are transport glue.
- Finding and reading the data file (backend/app.py:51-62) is I/O and is not modelled. The model starts from an already-parsed `Source`, whose tag is the layout that `ReferenceTable.DetectLayout` selects from the header.
- `datetime.utcnow()` and `datetime.fromisoformat` are foreign calls. They are inputs: `now` is a year and month, and the registration is an `Option<Date>` that is `None` when the first ten characters do not parse.
- The fractional power `(1 − 0.07) ** years` cannot be computed exactly over reals. It is the parameter `decay`; `Valuation.Power` gives its value for whole years in the worked example.
- `Valuation.Valuate`: the arithmetic is on exact reals, not binary floats, and the final `round(…, 2)` is not applied. The estimate and confidence are returned unrounded, and the bounds proved hold for those unrounded values. After rounding, the service answers confidence 0.9 for any mileage up to about 1,000 km (not only at 0 km), and the rounded estimate can lie up to 0.005 outside [0.28·price, 1.05·price].
- `Valuation.Valuate`: the `ge=0` validation on mileage is a library check (backend/app.py:30). It becomes the precondition `mileageKm >= 0`, and the mileage is an integer, so `int(req.mileageKm)` is the identity.
- `Valuation.Valuate`: the fallbacks for a missing `base_price` or `year0` column (backend/app.py:166-167) are unreachable, because every loaded table has both columns. A `Record` always carries both fields.
- Pandas NaN handling, dtype coercion and the `astype(str)` conversion are not modelled. Every cell is taken to be present and of the expected type, and registration years are integers.
- `Keys.Lower` maps only the ASCII letters A–Z. Python's `str.lower` also lower-cases other scripts.
- `ReferenceTable.GroupByKey` emits groups in order of first appearance, whereas pandas sorts the group keys. The keys are distinct and every consumer either looks one key up or re-sorts, so no answer depends on this order.
- `ReferenceTable.SingleKeyGroups` covers a dataset whose sales share one key. Several keys are covered in general by `ReferenceTable.AggregateOneRowPerKey` and `ReferenceTable.AggregateIsMedian`, with no worked example of their own.
- A transactional dataset without `registration_year` first computes the group sizes as `year0` and then overwrites them with 2020. The model writes 2020 directly.
