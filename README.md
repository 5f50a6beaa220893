# FRMCalc in Dafny

A model of `FRMCalc`, a calculator of fundraising metrics written in Python
(`frmc.py`). Its eleven methods compute:

- annual donor growth;
- second-gift conversion;
- net cost per acquired donor;
- attrition and renewal rates;
- average and median gift;
- cost to raise a dollar;
- net income;
- return on investment;
- the per-year long-term value of a list of period records.

Nine of the methods follow the same plan: `annual_donor_growth`,
`second_gift_conversion_rate`, `net_cost_per_donor_acquired`,
`attrition_rate`, `renewal_rate`, `average_gift`, `cost_to_raise_dollar`,
`net_income` and `return_on_investment`. Each first applies its zero guard
(if it has one), which returns `None`. It then checks the type of each
argument in order and raises a `TypeError` naming the first bad one. Finally
it evaluates one formula. `median_gift` has no type checks of its own: it
passes the list to `statistics.median`, whose sort and arithmetic raise any
error. `long_term_value` has no type checks either: each record's fields go
straight into the formula. Monetary results are quantized to cents with
ROUND_HALF_EVEN.

The model is split into five modules:

- `Python` (`python.dfy`) holds the dynamically typed arguments (`int`,
  `float`, `Decimal`, `str`) and the exceptions a call can end in. It also
  defines the Python operators the calculator relies on:
  - `-`, `+` and true division `/`. Mixing `Decimal` with `float` is a
    `TypeError`.
  - decimal division, where `x / 0` raises `DivisionByZero` (a
    `ZeroDivisionError`) but `0 / 0` raises `InvalidOperation`.
  - `Decimal(...)`, dictionary lookup, and dictionary key equality across
    numeric types.
- `Rounding` (`rounding.dfy`) models `quantize(Decimal('0.01'))` under
  ROUND_HALF_EVEN. It proves the result is the unique nearest whole number of
  cents, with ties going to the even cent, and that rounding is monotone and
  symmetric about zero.
- `Statistics` (`statistics.dfy`) models `statistics.median`. A stable sort
  by value is followed by the middle element, or the mean of the two middle
  elements. For a list of odd length, and for an even-length list that does
  not mix `Decimal` with `float`, the median is proved to be the middle of
  any sorted arrangement of the values. An even-length list that mixes the
  two can fail or succeed depending on which two values end up in the
  middle, so no such claim is made for it.
- `FRMCalc` (`frmcalc.dfy`) holds the ten straight-line methods as
  functions. They return an `Outcome`:
  - a returned value;
  - `Undefined`, for the `None` of a zero guard;
  - a raised exception.
- `LongTermValue` (`longtermvalue.dfy`) holds `long_term_value`, the one
  method that builds its result step by step. It is a Dafny method with a
  loop over the records that updates a map. The method takes the set of
  exceptions its `except` clause catches, so one definition covers both the
  code as written and the corrected code. It is proved equal to a fold
  `Calculated` over the records. Lemmas about that fold cover which keys the
  result has, which record's value wins for a repeated year, errors, and
  independence between years.

A monetary result is given as the exact real value that `Decimal` holds.

The loop body of `long_term_value` (frmc.py:145-148) wraps the division in
`try` and sets the value to `None` on `except ZeroDivisionError`. So a record
with a zero count is evidently meant to give `None` for its year and let the
loop go on. The code misses one case. When a count is zero and the decimal
division `0 / 0` occurs, Python raises `InvalidOperation`, which is not a
`ZeroDivisionError`. The `except` clause does not catch it, so the whole call
aborts. The model runs the loop with either set of caught exceptions:
`CaughtAsWritten` for the code, and `CaughtIntended` for the correction. The
difference is stated under "## Findings".

## Model

| member | source | states |
|---|---|---|
| Python.Sub | frmc.py:19 | `a - b` succeeds exactly when both are numbers and not `Decimal` mixed with `float`; its value is the difference; the result is an `int` for two ints and a `Decimal` when either operand is one; otherwise a `TypeError` |
| Python.Add | frmc.py:97 | `a + b` adds two compatible numbers and concatenates two texts; any other pair is a `TypeError` |
| Python.DecimalDiv | frmc.py:146 | decimal division succeeds exactly for a nonzero divisor with the exact quotient; `0 / 0` is `InvalidOperation` and `x / 0` is `DivisionByZero` |
| Python.TrueDiv | frmc.py:31 | `a / b` succeeds exactly for compatible numbers with a nonzero divisor, giving the exact quotient as a `float`, or as a `Decimal` when either operand is one; incompatible operands give a `TypeError`, a zero divisor the decimal or float division fault |
| Python.IsZero | frmc.py:36 | a zero guard `x == 0` holds exactly for the `int`, `float` or `Decimal` zero, and never for text |
| Python.ToDecimal | frmc.py:146 | `Decimal(v)` is exact for a number and fails for text |
| Python.KeyOf | frmc.py:150 | a dictionary key is compared by numeric value across `int`, `float` and `Decimal`, and by content for text |
| Python.Get | frmc.py:146 | `d[key]` gives the stored value when the key is present, and otherwise a `KeyError` naming the key |
| Rounding.RoundHalfEven2 | frmc.py:49 | the quantized value is a whole number of cents within half a cent of the input; an exact tie goes to the even cent; a value already in cents is unchanged |
| Rounding.RoundIsNearest | frmc.py:92 | no whole number of cents is closer to the input than the quantized value |
| Rounding.RoundUnique | frmc.py:92 | the three properties of the quantized value determine it: any whole number of cents that has them is the quantized value |
| Rounding.RoundMonotone | frmc.py:111 | quantizing never reverses the order of two values |
| Rounding.RoundNegate | frmc.py:123 | quantizing `-x` gives minus the quantized `x` |
| Statistics.Insert | frmc.py:97 | inserting into a list of numbers adds exactly that element, as a multiset |
| Statistics.InsertSorted | frmc.py:97 | inserting into a list sorted by value keeps it sorted |
| Statistics.SortByValue | frmc.py:97 | the sort returns a permutation of its input that is sorted by value |
| Statistics.Median | frmc.py:97 | the median of a nonempty list of numbers is a number; it fails only for an even length, where adding a `Decimal` to a `float` is a `TypeError` |
| Statistics.ValuesPermutation | frmc.py:97 | permuting a list of numbers permutes its values |
| Statistics.SortedUnique | frmc.py:97 | two sorted value lists with the same multiset are equal |
| Statistics.SortByValueValues | frmc.py:97 | the values of the sorted list are the unique sorted arrangement of the input's values |
| Statistics.MedianEven | frmc.py:97 | for an even-length list that does not mix `Decimal` with `float`, the median succeeds and is the mean of the two middle elements of the sorted list |
| Statistics.MedianOfSortedPermutation | frmc.py:97 | for a list of odd length, or of even length that does not mix `Decimal` with `float`, the median succeeds and equals the middle of any sorted arrangement of its values |
| FRMCalc.AnnualDonorGrowth | frmc.py:9-19 | `year0` is checked first, then `year1`; a non-int raises a `TypeError` naming it (a float included); two ints give exactly `year1 - year0` |
| FRMCalc.AnnualDonorGrowthAntisymmetric | frmc.py:19 | swapping the two years negates the growth |
| FRMCalc.SecondGiftConversionRate | frmc.py:21-31 | never undefined; type errors name `acquired`, then `second_gift`; zero `acquired` is a `ZeroDivisionError`; otherwise the float `second_gift / acquired` |
| FRMCalc.SecondGiftConversionRateIsFraction | frmc.py:31 | with `0 <= second_gift <= acquired` and `acquired > 0` the rate lies in [0, 1] |
| FRMCalc.NetCostPerDonorAcquired | frmc.py:33-49 | undefined exactly when `acquired == 0`, whatever the other arguments are; type errors name `cost`, then `income`, then `acquired`; `Decimal` mixed with `float` is a `TypeError`; otherwise `(income - cost) / acquired` quantized to cents |
| FRMCalc.NetCostPerDonorRecoversNetIncome | frmc.py:49 | the net cost per donor times the number of donors is the net income to within half a cent per donor |
| FRMCalc.NetCostOfOneDonorIsNetIncome | frmc.py:49 | with one donor acquired, the net cost per donor equals `net_income` on the same arguments, in every outcome |
| FRMCalc.AttritionRate | frmc.py:52-65 | undefined exactly when `year0 == 0`, before any type check; type errors name `year0`, then `year1`; otherwise the unrounded float `1 - year1 / year0` |
| FRMCalc.RenewalRate | frmc.py:67-80 | undefined exactly when `year0 == 0`, before any type check; type errors name `year0`, then `year1`; otherwise the unrounded float `year1 / year0` |
| FRMCalc.AttritionRenewalComplement | frmc.py:65 | attrition and renewal end the same way on the same arguments, and when both return a rate the two rates sum to 1 |
| FRMCalc.RatesAreFractions | frmc.py:80 | with `0 <= year1 <= year0` and `year0 > 0` both rates lie in [0, 1] |
| FRMCalc.AverageGift | frmc.py:82-92 | never undefined; type errors name `income`, then `gifts`; zero gifts is a division fault (`InvalidOperation` for a decimal zero income); otherwise `income / gifts` quantized to cents |
| FRMCalc.AverageGiftRecoversIncome | frmc.py:92 | the average gift times the number of gifts is the income to within half a cent per gift |
| FRMCalc.AverageGiftExample | frmc.py:92 | 21786.99 over 239 gifts gives 91.16 |
| FRMCalc.MedianGift | frmc.py:94-99 | never undefined; an empty list is a `StatisticsError`; text mixed with numbers is a `TypeError`; any returned value is a whole number of cents and comes from a nonempty list of numbers; an odd-length list of numbers always gives a value |
| FRMCalc.MedianGiftOfSortedPermutation | frmc.py:97 | for a nonempty list of numbers of odd length, or of even length that does not mix `Decimal` with `float`, the median gift is the middle value of any sorted arrangement of the gifts (the mean of the two middle values for an even count), quantized to cents |
| FRMCalc.MedianGiftOrderIndependent | frmc.py:97 | permuting the gifts does not change the outcome, in every case (empty list, text, error or value), as long as the length is odd or the list does not mix `Decimal` with `float` |
| FRMCalc.CostToRaiseDollar | frmc.py:101-111 | never undefined; type errors name `cost`, then `income`; `Decimal` mixed with `float` is a `TypeError`; zero income is a division fault; otherwise `cost / income` quantized to cents |
| FRMCalc.CostToRaiseDollarIsFraction | frmc.py:111 | spending no more than was raised costs between 0 and 1 per dollar |
| FRMCalc.NetIncome | frmc.py:113-123 | never undefined; type errors name `cost`, then `income`; `Decimal` mixed with `float` is a `TypeError`; otherwise `income - cost` quantized to cents |
| FRMCalc.NetIncomeAntisymmetric | frmc.py:123 | swapping cost and income negates the net income |
| FRMCalc.ReturnOnInvestment | frmc.py:125-138 | undefined exactly when `cost == 0`, whatever `income` is; type errors name `cost`, then `income`; otherwise `(income - cost) / cost` quantized to cents |
| FRMCalc.ReturnOnInvestmentSign | frmc.py:138 | for a positive cost the return is non-negative when income covers the cost, and non-positive when it does not exceed it |
| LongTermValue.PeriodValue | frmc.py:146 | the fields are read left to right: a missing `gifts` is a `KeyError` for it, then a missing `donors`; counts Python cannot divide are a `TypeError`; zero `donors` is a `ZeroDivisionError`, or `InvalidOperation` when both counts are zero and one is a `Decimal`; any value is a whole number of cents |
| LongTermValue.PeriodValueNonzero | frmc.py:146 | for a record with nonzero counts, the value is `(gifts / donors) * (revenue / gifts)` quantized to cents |
| LongTermValue.GiftsCancel | frmc.py:146 | gifts per donor times revenue per gift is revenue per donor |
| LongTermValue.PeriodValueIsRevenuePerDonor | frmc.py:146 | for a record with nonzero counts, the value is the revenue per donor quantized to cents |
| LongTermValue.PeriodEntryAsWritten | frmc.py:145-150 | as written, a complete record with nonzero donors and zero gifts gives `None` for its year when its revenue is nonzero, and `InvalidOperation` when its revenue is zero |
| LongTermValue.PeriodEntry | frmc.py:145-150 | the corrected loop body ends only in a `KeyError`, a `TypeError` or a text conversion failure, never in a division fault |
| LongTermValue.PeriodEntryCases | frmc.py:145-150 | a zero `donors` or `gifts` gives `None` for the record's year; nonzero counts give the quantized value under the year; counts Python cannot divide give a `TypeError` |
| LongTermValue.ZeroGiftsZeroRevenue | frmc.py:142-152 | for the single record of 2015 with 10 donors, 0 gifts and 0 revenue, the loop body as written ends in `InvalidOperation`, the call as written aborts with it, and the corrected call returns `{2015: None}` |
| LongTermValue.DecimalZeroCounts | frmc.py:142-152 | for a single record whose `gifts` and `donors` are both `Decimal` zeros, whatever its revenue, the call as written aborts with `InvalidOperation` at `gifts / donors`, and the corrected call returns `{2015: None}` |
| LongTermValue.AsWrittenDiffersOnlyOnZeroByZero | frmc.py:147-148 | the correction changes an entry only where the code as written aborts with `InvalidOperation` |
| LongTermValue.Calculated | frmc.py:142-152 | the fold of the loop body over the records, for a given set of caught exceptions; a successful result has at most one key per record |
| LongTermValue.LongTermValue | frmc.py:140-152 | the loop returns exactly the fold `Calculated` over the records, in order, stopping at the first uncaught exception, for the code as written and for the corrected code alike |
| LongTermValue.CalculatedStopsAtError | frmc.py:144-150 | once a prefix of the records raises, the whole call raises the same exception |
| LongTermValue.CalculatedOk | frmc.py:144-150 | the call succeeds exactly when every record's entry succeeds |
| LongTermValue.CalculatedFirstError | frmc.py:144-150 | the first record whose entry fails decides the exception of the call |
| LongTermValue.CalculatedKeys | frmc.py:150 | the result's keys are exactly the years of the records |
| LongTermValue.CalculatedLastWins | frmc.py:150 | a year not repeated later holds the value of its record: a later record with the same year overwrites an earlier one |
| LongTermValue.CalculatedOtherYearsUnchanged | frmc.py:144-150 | replacing one record by another of the same year, for instance one with zero donors, leaves every other year's value unchanged |
| LongTermValue.LongTermValueExample | frmc.py:146 | the 2015 record with 6856 donors, 10912 gifts and 3002975 revenue gives `{2015: 438.01}` |

## Left out

- Binary floating point: `float` values are exact reals. A result can differ from the code where float rounding before `Decimal(...)` moves a value across a half-cent boundary.
- Decimal context: the 28-digit precision of decimal arithmetic and the overflow of `quantize` on very large values are not modelled, and neither are the trap settings.
- NaN and infinities are not modelled.
- Exception messages: a `TypeError` raised by a type check carries only the name of the parameter, not the message text.
- `bool` passing `isinstance(x, int)`, `None`, and any other argument type are not modelled. Arguments are `int`, `float`, `Decimal` or `str`.
- Python.ToDecimal: does not model `Decimal` parsing numeric text such as `"12.5"`. Any text fails with `InvalidOperation`.
- Statistics.SortByValue: stability is not stated as a property. It can matter only for an even-length list that mixes `Decimal` with `float`, and `FRMCalc.MedianGiftOrderIndependent` excludes those lists.
- The `try`/`except TypeError: raise` of `median_gift` re-raises unchanged and has no separate model.
- LongTermValue.LongTermValue: the insertion order of the keys of the returned dictionary is not modelled. The result is a map.
- `setup.py` (packaging) and the test module are not part of this model.

## Findings

| source | as written | input that shows it | evidently intended | confidence | as-written member | corrected member |
|---|---|---|---|---|---|---|
| frmc.py:146-148 | only `ZeroDivisionError` is caught. The decimal division `Decimal(revenue) / Decimal(gifts)` with both zero raises `InvalidOperation`, so the whole call aborts. The same happens to `gifts / donors` with two decimal zeros (`LongTermValue.DecimalZeroCounts`). | `[{year: 2015, donors: 10, gifts: 0, revenue: 0}]` (`LongTermValue.ZeroGiftsZeroRevenue`) | a zero count gives `None` for that year only | not executed | LongTermValue.PeriodEntryAsWritten | LongTermValue.PeriodEntry |
