# Progressive bracket tax: the accumulator and the lookup table

This project models the bracket-tax engine of a small income-tax form generator. The engine computes a tax in two ways.

- **The marginal accumulator.** This is `figureTax` in `figure/tax_schedule.py`, copied as `_oracle` in `individual/taxcredits/tax_schedule.py`. It works in four steps:
  1. It rejects a negative income, and rejects more bracket bounds than rates.
  2. It sorts the bounds and turns them into bracket widths.
  3. It walks the widths, taxing at each bracket's rate the slice of the remaining income that falls in that bracket.
  4. It taxes whatever is left at the last rate.
- **The lookup-table evaluator.** This is `_tax_schedule` in `individual/taxcredits/tax_schedule.py`. It finds the largest table key strictly below the income, or 0 when there is none, and applies that key's formula `base + (income - key) * rate`. Its two tables are `taxtable2025`, the 2025 single-filer schedule, and `mdtaxtable2025`, the Maryland graduated rates.
- **The W-2 arithmetic of `w2.py`.** This covers:
  - `_trunc`, which floors to a number of decimal places;
  - `_fica`, which computes Social Security and Medicare tax, including the additional 0.9% Medicare tax of 26 U.S.C. section 3101(b)(2);
  - the withholding amounts that `_wage_and_wh` enters on the form.

Money and rates are exact `real`s. A raised `ValueError` is an `Err` of a `Result`, and so is the `KeyError` a lookup can raise.

The modules follow the files:

| file | module | models |
|---|---|---|
| `common.dfy` | `Common` | errors, `Result`, `Option`, `min` and `max` |
| `sorting.dfy` | `Sorting` | Python's `sorted`, as an insertion sort proved ascending, a permutation, and the unique ascending permutation |
| `figure_tax_schedule.dfy` | `FigureTaxSchedule` | `figureTax`: the specification `MarginalTax`, the loop `FigureTax`/`Accumulate` proved equal to it, and the properties |
| `taxcredits_tax_schedule.dfy` | `TaxTable` | `_tax_schedule`, `figureTax` and `_oracle`, the two tables, and the table a (schedule, rates) pair determines |
| `w2.dfy` | `W2` | `_trunc`, `_fica`, and the amounts `_wage_and_wh` computes |

The main result is `TaxTable.DerivedTableAgrees`. Take any ascending bounds, none below zero, repeats and the empty schedule included, and the table `DeriveTable` builds from them; `DeriveTable` is what the stub `_compute_tax_schedule` is meant to return. For every income ≥ 0, looking the income up in that table gives exactly what the accumulator computes. Both hard-coded tables are proved equal to their derived tables. So `taxtable2025` agrees with the accumulator on `schedule2025`/`fedRates`, and `mdtaxtable2025` agrees with it on the Maryland bounds and rates, at every income ≥ 0. `TaxTable.SortedTableAgrees` extends this to bounds in any order, through the table derived from their sorted copy.

## Model

| member | source | states |
|---|---|---|
| `FigureTaxSchedule.MarginalTax` | figure/tax_schedule.py:73-95 | negative income, and only negative income, raises "income must be nonnegative"; otherwise more bounds than rates, and only that, raises the bracket-count error; an equal count is accepted; an empty schedule gives 0 |
| `FigureTaxSchedule.FigureTax` | figure/tax_schedule.py:73-95 | the statement-by-statement function (validation, sorted copy, widths, loop, leftover at `rates[-1]`) returns exactly `MarginalTax` |
| `FigureTaxSchedule.Accumulate` | figure/tax_schedule.py:87-95 | the loop over `zip(brackets, rates)` ends with a non-negative remaining income equal to what the brackets leave; the tax it accumulates plus the leftover at the top rate is the graduated tax |
| `FigureTaxSchedule.Slice` | figure/tax_schedule.py:89 | each taxed slice lies in [0, width] and never exceeds the remaining income; an income that fits in the bracket is taxed whole |
| `FigureTaxSchedule.WidthsAt` | figure/tax_schedule.py:85 | the widths are the smallest bound followed by the differences of consecutive sorted bounds |
| `FigureTaxSchedule.WidthsNonnegative` | figure/tax_schedule.py:85 | ascending bounds starting at or above zero give non-negative widths |
| `FigureTaxSchedule.WidthsPrefixSum` | figure/tax_schedule.py:85 | the first j widths add up to the j-th bound, so all of them add up to the largest bound |
| `FigureTaxSchedule.LeftoverNonnegative` | figure/tax_schedule.py:88-92 | the remaining income never goes negative |
| `FigureTaxSchedule.RemainingIsExcess` | figure/tax_schedule.py:82-92 | after the loop, the remaining income is max(0, income − largest bound) for non-negative bounds, in any order |
| `FigureTaxSchedule.ZeroIncomeIsUntaxed` | figure/tax_schedule.py:79-95 | a zero income is taxed 0 under every accepted schedule |
| `FigureTaxSchedule.OrderIndependent` | figure/tax_schedule.py:82-83 | two schedules with the same bounds in different orders give the same result, errors included |
| `FigureTaxSchedule.OnlyBracketRatesAndLastRateMatter` | figure/tax_schedule.py:88-95 | two rate lists that agree on the first len(schedule) rates and on the last rate give the same result, so rates at positions len(schedule) .. len(rates)−2 are never read |
| `FigureTaxSchedule.GraduatedPiecewise` | figure/tax_schedule.py:87-95 | an income in bracket j owes the full tax of the brackets below j plus bracket j's rate (the last rate above the largest bound) on the income above the bracket's lower bound |
| `FigureTaxSchedule.GraduatedMonotone` | figure/tax_schedule.py:87-95 | with no rate negative, the graduated tax on a larger remaining income is never smaller |
| `FigureTaxSchedule.MarginalTaxMonotone` | figure/tax_schedule.py:73-95 | with no rate negative, `figureTax` accepts both incomes 0 ≤ a ≤ b and the tax on a is at most the tax on b |
| `FigureTaxSchedule.MarginalTaxInBracket` | figure/tax_schedule.py:73-95 | the same piecewise-linear form for `figureTax` itself on ascending non-negative bounds |
| `FigureTaxSchedule.DocstringEdgeCases` | figure/tax_schedule.py:47-70 | `figureTax(0, [])` and `figureTax(0, [11925])` are 0; eight bounds against seven rates and an income of −1 raise |
| `FigureTaxSchedule.Docstring11926` | figure/tax_schedule.py:53-54 | `figureTax(11926, schedule2025)` is 1192.62 |
| `FigureTaxSchedule.Docstring147790` | figure/tax_schedule.py:56-57 | `figureTax(147790, schedule2025)` is 28316.6 |
| `FigureTaxSchedule.Docstring2024` | figure/tax_schedule.py:59-60 | `figureTax(139819, [11600, 47150, 100525, 191950, 243735])` is 26599.06 |
| `Sorting.Sort` | figure/tax_schedule.py:83 | the sorted copy is ascending and a permutation of the schedule |
| `Sorting.SortedUnique` | figure/tax_schedule.py:83 | two ascending permutations of the same bounds are equal, so sorting has exactly one possible result |
| `Sorting.SortOfSorted` | figure/tax_schedule.py:82-83 | sorting an already ascending schedule leaves it unchanged |
| `Sorting.SortOrderIndependent` | figure/tax_schedule.py:83 | the sorted copy depends only on the multiset of bounds |
| `Sorting.SortedLastIsMax` | figure/tax_schedule.py:83-85 | the last sorted bound is the largest bound |
| `TaxTable.SupremumKey` | individual/taxcredits/tax_schedule.py:87-91 | the selected key is the least upper bound of 0 and the keys strictly below the income: it is 0 or such a key, and no key below the income exceeds it |
| `TaxTable.Lookup` | individual/taxcredits/tax_schedule.py:93 | `taxtable[bracket]` finds an entry with that key exactly when the table has one, and the entry belongs to the table |
| `TaxTable.LookupFindsLast` | individual/taxcredits/tax_schedule.py:32-40 | an entry is the one a key finds when no later entry of the dictionary literal repeats its key |
| `TaxTable.TableTax` | individual/taxcredits/tax_schedule.py:86-93 | `_tax_schedule` raises exactly when no entry has the selected key; otherwise it is the formula of an entry with that key, at the income |
| `TaxTable.TaxSchedule` | individual/taxcredits/tax_schedule.py:86-93 | the running-max loop and the lookup compute `TableTax` |
| `TaxTable.FigureTax` | individual/taxcredits/tax_schedule.py:137 | `figureTax(income, taxtable)` returns `_tax_schedule(income, taxtable)` unchanged |
| `TaxTable.Oracle` | individual/taxcredits/tax_schedule.py:57-80 | `_oracle` has the same errors, empty-schedule result and value as the accumulator, for every input |
| `TaxTable.SupremumAtOrBelowZero` | individual/taxcredits/tax_schedule.py:87-91 | with non-negative keys, an income at or below 0 selects key 0 |
| `TaxTable.DeriveTableContinuous` | individual/taxcredits/tax_schedule.py:53-54 | in the table a (schedule, rates) pair determines, each base is the previous entry's formula at its key |
| `TaxTable.DerivedTableAgrees` | individual/taxcredits/tax_schedule.py:53-93 | for ascending bounds none of which is negative (repeats and the empty schedule included), every rate count the accumulator accepts and every income ≥ 0, the lookup on the derived table equals the accumulator |
| `TaxTable.SortedTableAgrees` | individual/taxcredits/tax_schedule.py:53-93 | for non-negative bounds in any order, the table derived from the sorted bounds equals the accumulator on the bounds as given, at every income ≥ 0 |
| `TaxTable.EmptyScheduleAgrees` | individual/taxcredits/tax_schedule.py:53-93 | the table derived from an empty schedule is the single zero-rate entry at key 0, which gives the accumulator's 0 at every income ≥ 0 |
| `TaxTable.ZeroIncomeAgrees` | individual/taxcredits/tax_schedule.py:53-93 | at income 0 the derived table selects its first entry and gives 0, as the accumulator does |
| `TaxTable.FedTableIsDerived` | individual/taxcredits/tax_schedule.py:22-40 | `taxtable2025` is entry for entry the table derived from `schedule2025` and `fedRates` |
| `TaxTable.FedTableAgrees` | individual/taxcredits/tax_schedule.py:32-40 | `_tax_schedule(income, taxtable2025)` equals `_oracle(income, schedule2025, fedRates)` for every income ≥ 0 |
| `TaxTable.FedTableContinuous` | individual/taxcredits/tax_schedule.py:32-40 | each base of `taxtable2025` is the previous formula at its key (1192.50 = 11925 × 0.10, …) |
| `TaxTable.FedTableNoValidation` | individual/taxcredits/tax_schedule.py:86-93 | for income ≤ 0 the table returns income × 0.10, a negative tax for a negative income, where the accumulator raises |
| `TaxTable.FedTableAtBound` | individual/taxcredits/tax_schedule.py:90-91 | an income exactly at a key selects the key below it, so it is taxed by the lower bracket's formula |
| `TaxTable.FedTableDocstringValues` | individual/taxcredits/tax_schedule.py:117-121 | the default table gives 1192.62 at 11926 and 28316.6 at 147790 |
| `TaxTable.MdScheduleCum` | individual/taxcredits/tax_schedule.py:142-143 | the Maryland bounds are ascending, and the full-bracket taxes below them are 20, 50, 90, 4697.50, 5947.50, 7260 and 12760 |
| `TaxTable.MdTableIsDerived` | individual/taxcredits/tax_schedule.py:42-51 | `mdtaxtable2025` is entry for entry the table derived from `mdSchedule` and `mdRates` |
| `TaxTable.MdTableAgrees` | individual/taxcredits/tax_schedule.py:42-51 | `_tax_schedule(income, mdtaxtable2025)` equals `_oracle(income, mdSchedule, mdRates)` for every income ≥ 0 |
| `TaxTable.MdTableContinuous` | individual/taxcredits/tax_schedule.py:42-51 | each base of the Maryland table is the previous formula at its key (4697.50 = 90 + 97000 × 0.0475, …); the local literal at w2.py:94-103 is the same table |
| `W2.Trunc` | w2.py:38-41 | `_trunc(x, p)` is at most x and within 10^−p of it, and `_trunc(x, p)` × 10^p is a whole number |
| `W2.TruncIdempotent` | w2.py:38-41 | truncating twice is truncating once |
| `W2.TruncNegative` | w2.py:41 | `floor` rounds a negative figure away from zero (−1.234 → −1.24) and a positive one toward it (1.234 → 1.23) |
| `W2.SocialSecurityBounds` | w2.py:32 | Social Security tax is wages × 0.062 up to the 176,100 wage base, 10,918.20 from there on, and never more |
| `W2.MedicareBelowThreshold` | w2.py:33 | the 0.9% term vanishes at or below 200,000; above it the Medicare tax is wages × 0.0235 − 1800 |
| `W2.Fica` | w2.py:31-35 | for non-negative wages the Social Security amount lies in [0, 10918.20] and never exceeds wages × 0.062; the Medicare amount is at least wages × 0.0145 |
| `W2.FicaMonotone` | w2.py:31-35 | for non-negative wages both `_fica` amounts are non-negative and non-decreasing in the wages |
| `W2.StateTaxAlwaysFails` | w2.py:114 | the box 17 computation as written always raises, and for wages ≥ 0 with the bracket-count error |
| `W2.StateTaxMatchesSchedule` | w2.py:91-103 | the intended box 17 amount is the Maryland graduated tax on `mdSchedule`/`mdRates`, truncated to cents |
| `W2.WageAndWithholdingAlwaysFails` | w2.py:85-117 | `_wage_and_wh` as written never produces a form |
| `W2.WageAndWithholdingSpec` | w2.py:85-117 | with the state tax read from the Maryland table, the form fails exactly for negative wages; otherwise every box is its tax truncated to cents: the federal tax, the two `_fica` amounts, the Maryland tax and the 3.2% local tax |

## Left out

- PDF form handling with pypdf: the readers, writers, field dictionaries and module-level `writer` globals. This is library I/O with no arithmetic in it.
- Randomness: `_rdmWages` draws the wage, which here is a parameter of `WageAndWithholding`. `_onoff` and the other random field values are not modelled.
- The `__main__` blocks: they read stdin, call `float()` and print.
- `pubscraper/pubscraper.py` and `income/income.py` are not part of this model.
- Floating point: money and rates are exact reals. Python's float rounding, the `round(..., 2)` in one docstring and printed representations are not modelled. So the docstring values are proved exactly; for example, 28316.6 is proved as 28316.60.
- W2.Trunc: `places` is a natural number. `_trunc` with a negative `places` (a factor below 1) is not modelled; w2.py only uses the default of 2.
- Keys of Python dictionaries can be ints or floats, and Python compares 0 and 0.0 as the same key. The model has only real keys, so that distinction does not arise.
- `_compute_tax_schedule` returns `{}`. `TaxTable.DeriveTable` models the table it is meant to return, and nothing calls the stub itself.
- TaxTable.DerivedTableAgrees: requires ascending bounds with none below zero, the order in which `DeriveTable` lays out its entries; `TaxTable.SortedTableAgrees` covers bounds in any order. A negative bound makes the first bracket width negative; agreement is not claimed there, and the source's tables have no such bound.
- TaxTable.Oracle: calls the accumulator of `FigureTaxSchedule` rather than repeating it. The source's `_oracle` is a statement-for-statement copy of `figureTax`.
- The doctests on `figureTax` in `individual/taxcredits/tax_schedule.py` (lines 111-134) pass bound lists where the function expects a table, so as written they raise: indexing a list with the selected key 11925 or 100525 gives an `IndexError`, and indexing it with the float 0.0 gives a `TypeError`. They describe the accumulator, not the function they sit on. Their values are proved against `MarginalTax`, and `TaxTable.FedTableDocstringValues` proves the evidently intended values 1192.62 and 28316.6 for the default table.
- FigureTaxSchedule.MarginalTaxMonotone: requires that no rate is negative; with a negative rate the tax can fall as the income rises.

## Findings

| source | as written | input that shows it | evidently intended | confidence | as-written member | corrected member |
|---|---|---|---|---|---|---|
| w2.py:114 | box 17 calls `figure.tax_schedule.figureTax(wages, mdtaxtable2025)`, passing the 8-key Maryland table as a bound schedule against the 7 default federal rates | any wage ≥ 0, e.g. 50000: `len(schedule) > len(rates)` holds, so the call raises the bracket-count error and no form is produced | box 17 is the Maryland table evaluated at the wages (the graduated tax on `mdSchedule`/`mdRates`), truncated to cents | high; not executed | `W2.StateTaxAlwaysFails` | `W2.StateTaxMatchesSchedule` |
