/** The fundraising metrics calculator `FRMCalc`. It keeps no state: each
    method is a function of its arguments. Every method here except
    `median_gift` first applies its zero guard (if it has one), then checks
    the types of its arguments in order, then evaluates one formula;
    `median_gift` leaves every check to `statistics.median`. Monetary results
    are quantized to cents. */
module FRMCalc {
  import opened Python
  import opened Rounding
  import Statistics

  /** How a call ends: a returned value, the `None` returned for a zero count,
      or a raised exception. */
  datatype Outcome = Value(v: PyVal) | Undefined | Raised(e: PyError)

  /** `isinstance(v, int)`. */
  predicate IsInt(v: PyVal) {
    v.PInt?
  }

  /** `isinstance(v, float) or isinstance(v, int) or isinstance(v, Decimal)`. */
  predicate IsAmount(v: PyVal) {
    v.IsNumber()
  }

  /** Returns the result of a computation as it is. */
  function Returned(r: Result<PyVal>): Outcome {
    match r
    case Ok(v) => Value(v)
    case Err(e) => Raised(e)
  }

  /** `Decimal(x).quantize(Decimal('0.01'))` applied to the result of a computation. */
  function Quantized(r: Result<PyVal>): Outcome {
    match r
    case Err(e) => Raised(e)
    case Ok(v) =>
      match ToDecimal(v)
      case Err(e) => Raised(e)
      case Ok(d) => Value(PDec(RoundHalfEven2(d)))
  }

  /** A monetary result: the cent value nearest to `x`, as a `Decimal`. */
  function Monetary(x: real): Outcome {
    Value(PDec(RoundHalfEven2(x)))
  }

  // ---------------------------------------------------------------- annual_donor_growth

  function AnnualDonorGrowth(year0: PyVal, year1: PyVal): (r: Outcome)
    ensures !year0.PInt? ==> r == Raised(TypeErr("year0"))
    ensures year0.PInt? && !year1.PInt? ==> r == Raised(TypeErr("year1"))
    ensures year0.PInt? && year1.PInt? ==> r == Value(PInt(year1.i - year0.i))
  {
    if !IsInt(year0) then Raised(TypeErr("year0"))
    else if !IsInt(year1) then Raised(TypeErr("year1"))
    else Returned(Sub(year1, year0))
  }

  /** Swapping the two years negates the growth. */
  lemma AnnualDonorGrowthAntisymmetric(year0: PyVal, year1: PyVal)
    requires year0.PInt? && year1.PInt?
    ensures AnnualDonorGrowth(year1, year0) == Value(PInt(-AnnualDonorGrowth(year0, year1).v.i))
  {
  }

  // ---------------------------------------------------------------- second_gift_conversion_rate

  function SecondGiftConversionRate(acquired: PyVal, second_gift: PyVal): (r: Outcome)
    ensures r != Undefined
    ensures !acquired.PInt? ==> r == Raised(TypeErr("acquired"))
    ensures acquired.PInt? && !second_gift.PInt? ==> r == Raised(TypeErr("second_gift"))
    ensures acquired.PInt? && second_gift.PInt? && acquired.i == 0 ==> r == Raised(ZeroDivisionErr)
    ensures acquired.PInt? && second_gift.PInt? && acquired.i != 0 ==>
      r == Value(PFloat(second_gift.i as real / acquired.i as real))
  {
    if !IsInt(acquired) then Raised(TypeErr("acquired"))
    else if !IsInt(second_gift) then Raised(TypeErr("second_gift"))
    else Returned(TrueDiv(second_gift, acquired))
  }

  /** A part over a positive whole lies between 0 and 1. */
  lemma QuotientIsFraction(part: real, whole: real)
    requires 0.0 <= part <= whole && whole > 0.0
    ensures 0.0 <= part / whole <= 1.0
  {
    assert (part / whole) * whole == part;
  }

  /** When the second-gift donors are some of the acquired donors, the rate is a fraction. */
  lemma SecondGiftConversionRateIsFraction(acquired: int, second_gift: int)
    requires 0 <= second_gift <= acquired && acquired > 0
    ensures var r := SecondGiftConversionRate(PInt(acquired), PInt(second_gift));
      r.Value? && 0.0 <= r.v.f <= 1.0
  {
    QuotientIsFraction(second_gift as real, acquired as real);
  }

  // ---------------------------------------------------------------- net_cost_per_donor_acquired

  function NetCostPerDonorAcquired(cost: PyVal, income: PyVal, acquired: PyVal): (r: Outcome)
    ensures r == Undefined <==> IsZero(acquired)
    ensures !IsZero(acquired) && !cost.IsNumber() ==> r == Raised(TypeErr("cost"))
    ensures !IsZero(acquired) && cost.IsNumber() && !income.IsNumber() ==> r == Raised(TypeErr("income"))
    ensures !IsZero(acquired) && cost.IsNumber() && income.IsNumber() && !acquired.PInt? ==>
      r == Raised(TypeErr("acquired"))
    ensures acquired.PInt? && acquired.i != 0 && cost.IsNumber() && income.IsNumber() ==>
      r == if Compatible(income, cost) then Monetary((income.Num() - cost.Num()) / acquired.i as real)
           else Raised(OperandTypeErr)
  {
    if IsZero(acquired) then Undefined
    else if !IsAmount(cost) then Raised(TypeErr("cost"))
    else if !IsAmount(income) then Raised(TypeErr("income"))
    else if !IsInt(acquired) then Raised(TypeErr("acquired"))
    else Quantized(var net :- Sub(income, cost); TrueDiv(net, acquired))
  }

  /** Rounding a quotient `x / n` to cents and multiplying back by `n` misses
      `x` by at most half a cent per unit of `n`. */
  lemma ScaledRoundingError(x: real, n: real)
    requires n > 0.0
    ensures Abs(RoundHalfEven2(x / n) * n - x) <= 0.005 * n
  {
    var e := RoundHalfEven2(x / n) - x / n;
    assert RoundHalfEven2(x / n) * n - x == e * n;
    if e >= 0.0 {
      assert e * n <= 0.005 * n;
    } else {
      assert -e * n <= 0.005 * n;
    }
  }

  /** Multiplying the net cost per donor back by the number of donors recovers
      the net income to within half a cent per donor. */
  lemma NetCostPerDonorRecoversNetIncome(cost: PyVal, income: PyVal, acquired: int)
    requires Compatible(income, cost) && acquired > 0
    ensures var r := NetCostPerDonorAcquired(cost, income, PInt(acquired));
      r.Value? && Abs(r.v.d * acquired as real - (income.Num() - cost.Num())) <= 0.005 * acquired as real
  {
    var n, x := acquired as real, income.Num() - cost.Num();
    ScaledRoundingError(x, n);
  }

  // ---------------------------------------------------------------- attrition_rate, renewal_rate

  function AttritionRate(year0: PyVal, year1: PyVal): (r: Outcome)
    ensures r == Undefined <==> IsZero(year0)
    ensures !IsZero(year0) && !year0.PInt? ==> r == Raised(TypeErr("year0"))
    ensures !IsZero(year0) && year0.PInt? && !year1.PInt? ==> r == Raised(TypeErr("year1"))
    ensures year0.PInt? && year0.i != 0 && year1.PInt? ==>
      r == Value(PFloat(1.0 - year1.i as real / year0.i as real))
  {
    if IsZero(year0) then Undefined
    else if !IsInt(year0) then Raised(TypeErr("year0"))
    else if !IsInt(year1) then Raised(TypeErr("year1"))
    else
      match TrueDiv(year1, year0)
      case Ok(q) => Returned(Sub(PInt(1), q))
      case Err(e) => Raised(e)
  }

  function RenewalRate(year0: PyVal, year1: PyVal): (r: Outcome)
    ensures r == Undefined <==> IsZero(year0)
    ensures !IsZero(year0) && !year0.PInt? ==> r == Raised(TypeErr("year0"))
    ensures !IsZero(year0) && year0.PInt? && !year1.PInt? ==> r == Raised(TypeErr("year1"))
    ensures year0.PInt? && year0.i != 0 && year1.PInt? ==>
      r == Value(PFloat(year1.i as real / year0.i as real))
  {
    if IsZero(year0) then Undefined
    else if !IsInt(year0) then Raised(TypeErr("year0"))
    else if !IsInt(year1) then Raised(TypeErr("year1"))
    else Returned(TrueDiv(year1, year0))
  }

  /** Attrition and renewal end the same way on the same arguments, and when
      both return a rate the two rates sum to one. */
  lemma AttritionRenewalComplement(year0: PyVal, year1: PyVal)
    ensures AttritionRate(year0, year1).Value? <==> RenewalRate(year0, year1).Value?
    ensures !AttritionRate(year0, year1).Value? ==> AttritionRate(year0, year1) == RenewalRate(year0, year1)
    ensures AttritionRate(year0, year1).Value? ==>
      AttritionRate(year0, year1).v.f + RenewalRate(year0, year1).v.f == 1.0
  {
  }

  /** When the renewing donors are some of last year's donors, both rates are fractions. */
  lemma RatesAreFractions(year0: int, year1: int)
    requires 0 <= year1 <= year0 && year0 > 0
    ensures var a, r := AttritionRate(PInt(year0), PInt(year1)), RenewalRate(PInt(year0), PInt(year1));
      a.Value? && r.Value? && 0.0 <= a.v.f <= 1.0 && 0.0 <= r.v.f <= 1.0
  {
    QuotientIsFraction(year1 as real, year0 as real);
  }

  // ---------------------------------------------------------------- average_gift

  function AverageGift(income: PyVal, gifts: PyVal): (r: Outcome)
    ensures r != Undefined
    ensures !income.IsNumber() ==> r == Raised(TypeErr("income"))
    ensures income.IsNumber() && !gifts.PInt? ==> r == Raised(TypeErr("gifts"))
    ensures income.IsNumber() && gifts.PInt? && gifts.i == 0 ==>
      r == Raised(if income.PDec? && income.d == 0.0 then DivisionUndefinedErr else ZeroDivisionErr)
    ensures income.IsNumber() && gifts.PInt? && gifts.i != 0 ==>
      r == Monetary(income.Num() / gifts.i as real)
  {
    if !IsAmount(income) then Raised(TypeErr("income"))
    else if !IsInt(gifts) then Raised(TypeErr("gifts"))
    else Quantized(TrueDiv(income, gifts))
  }

  /** The average gift times the number of gifts recovers the income to within
      half a cent per gift. */
  lemma AverageGiftRecoversIncome(income: PyVal, gifts: int)
    requires income.IsNumber() && gifts > 0
    ensures var r := AverageGift(income, PInt(gifts));
      r.Value? && Abs(r.v.d * gifts as real - income.Num()) <= 0.005 * gifts as real
  {
    ScaledRoundingError(income.Num(), gifts as real);
  }

  /** 21786.99 over 239 gifts is 91.1589..., which rounds to 91.16. */
  lemma AverageGiftExample()
    ensures AverageGift(PFloat(21786.99), PInt(239)) == Value(PDec(91.16))
  {
    RoundUnique(21786.99 / 239.0, 91.16);
  }

  // ---------------------------------------------------------------- median_gift

  function MedianGift(gifts: seq<PyVal>): (r: Outcome)
    ensures r != Undefined
    ensures |gifts| == 0 ==> r == Raised(NoMedianErr)
    ensures Statistics.HasText(gifts) && Statistics.HasNumber(gifts) ==> r == Raised(OperandTypeErr)
    ensures r.Value? ==> |gifts| > 0 && Statistics.AllNumbers(gifts) && r.v.PDec? && IsCents(r.v.d)
    ensures |gifts| % 2 == 1 && Statistics.AllNumbers(gifts) ==> r.Value?
  {
    if |gifts| == 0 then Raised(NoMedianErr)
    else if Statistics.HasText(gifts) && Statistics.HasNumber(gifts) then
      // sorted() compares a text with a number
      Raised(OperandTypeErr)
    else if !Statistics.HasNumber(gifts) then
      // only texts: for an odd length the middle text goes to Decimal(); for an
      // even length the two middle texts are concatenated and divided by 2, a
      // TypeError, whichever texts they are
      assert gifts[0] in gifts;
      if |gifts| % 2 == 1 then Raised(ConversionSyntaxErr) else Raised(OperandTypeErr)
    else
      assert Statistics.AllNumbers(gifts) by {
        forall i | 0 <= i < |gifts| ensures gifts[i].IsNumber() {
          assert gifts[i] in gifts;
        }
      }
      Quantized(Statistics.Median(gifts))
  }

  /** The median gift is the middle of any sorted arrangement of the gifts'
      values (the mean of the two middle values for an even count), rounded
      to cents; this holds for an odd count, and for an even count whenever the
      gifts do not mix `Decimal` with `float`. */
  lemma MedianGiftOfSortedPermutation(gifts: seq<PyVal>, t: seq<real>)
    requires |gifts| > 0 && Statistics.AllNumbers(gifts)
    requires |gifts| % 2 == 1 || !Statistics.MixesDecimalAndFloat(gifts)
    requires Statistics.Sorted(t) && multiset(t) == multiset(Statistics.Values(gifts))
    ensures |t| > 0 && MedianGift(gifts) == Monetary(Statistics.Middle(t))
  {
    assert |t| == |multiset(t)| == |gifts|;
    Statistics.MedianOfSortedPermutation(gifts, t);
    assert !Statistics.HasText(gifts);
    assert gifts[0] in gifts;
  }

  /** The order of the gifts does not change the median gift, unless the list
      has an even length and mixes `Decimal` with `float`. */
  lemma MedianGiftOrderIndependent(a: seq<PyVal>, b: seq<PyVal>)
    requires multiset(a) == multiset(b)
    requires |a| % 2 == 1 || !Statistics.MixesDecimalAndFloat(a)
    ensures MedianGift(a) == MedianGift(b)
  {
    Statistics.PermutationSameKinds(a, b);
    if |a| > 0 && Statistics.AllNumbers(a) {
      Statistics.PermutationAllNumbers(a, b);
      var s := Statistics.SortByValue(a);
      var t := Statistics.Values(s);
      Statistics.ValuesPermutation(s, a);
      Statistics.ValuesPermutation(a, b);
      MedianGiftOfSortedPermutation(a, t);
      MedianGiftOfSortedPermutation(b, t);
    } else if |a| > 0 {
      assert Statistics.HasText(a) by {
        var i :| 0 <= i < |a| && !a[i].IsNumber();
        assert a[i] in a;
      }
    }
  }

  // ---------------------------------------------------------------- cost_to_raise_dollar

  function CostToRaiseDollar(cost: PyVal, income: PyVal): (r: Outcome)
    ensures r != Undefined
    ensures !cost.IsNumber() ==> r == Raised(TypeErr("cost"))
    ensures cost.IsNumber() && !income.IsNumber() ==> r == Raised(TypeErr("income"))
    ensures cost.IsNumber() && income.IsNumber() && !Compatible(cost, income) ==> r == Raised(OperandTypeErr)
    ensures Compatible(cost, income) && income.Num() == 0.0 ==>
      r == Raised(if DecimalArith(cost, income) && cost.Num() == 0.0 then DivisionUndefinedErr else ZeroDivisionErr)
    ensures Compatible(cost, income) && income.Num() != 0.0 ==> r == Monetary(cost.Num() / income.Num())
  {
    if !IsAmount(cost) then Raised(TypeErr("cost"))
    else if !IsAmount(income) then Raised(TypeErr("income"))
    else Quantized(TrueDiv(cost, income))
  }

  /** Spending no more than was raised costs between 0 and 1 per dollar. */
  lemma CostToRaiseDollarIsFraction(cost: PyVal, income: PyVal)
    requires Compatible(cost, income) && 0.0 <= cost.Num() <= income.Num() && income.Num() > 0.0
    ensures var r := CostToRaiseDollar(cost, income); r.Value? && 0.0 <= r.v.d <= 1.0
  {
    var q := cost.Num() / income.Num();
    QuotientIsFraction(cost.Num(), income.Num());
    RoundMonotone(0.0, q);
    RoundMonotone(q, 1.0);
  }

  // ---------------------------------------------------------------- net_income

  function NetIncome(cost: PyVal, income: PyVal): (r: Outcome)
    ensures r != Undefined
    ensures !cost.IsNumber() ==> r == Raised(TypeErr("cost"))
    ensures cost.IsNumber() && !income.IsNumber() ==> r == Raised(TypeErr("income"))
    ensures cost.IsNumber() && income.IsNumber() && !Compatible(income, cost) ==> r == Raised(OperandTypeErr)
    ensures Compatible(income, cost) ==> r == Monetary(income.Num() - cost.Num())
  {
    if !IsAmount(cost) then Raised(TypeErr("cost"))
    else if !IsAmount(income) then Raised(TypeErr("income"))
    else Quantized(Sub(income, cost))
  }

  /** Swapping cost and income negates the net income. */
  lemma NetIncomeAntisymmetric(cost: PyVal, income: PyVal)
    requires Compatible(income, cost)
    ensures NetIncome(income, cost).Value? && NetIncome(cost, income).Value?
    ensures NetIncome(income, cost).v.d == -NetIncome(cost, income).v.d
  {
    RoundNegate(income.Num() - cost.Num());
    assert cost.Num() - income.Num() == -(income.Num() - cost.Num());
  }

  /** With exactly one donor acquired, the net cost per donor is the net income. */
  lemma NetCostOfOneDonorIsNetIncome(cost: PyVal, income: PyVal)
    ensures NetCostPerDonorAcquired(cost, income, PInt(1)) == NetIncome(cost, income)
  {
  }

  // ---------------------------------------------------------------- return_on_investment

  function ReturnOnInvestment(cost: PyVal, income: PyVal): (r: Outcome)
    ensures r == Undefined <==> IsZero(cost)
    ensures !IsZero(cost) && !cost.IsNumber() ==> r == Raised(TypeErr("cost"))
    ensures !IsZero(cost) && cost.IsNumber() && !income.IsNumber() ==> r == Raised(TypeErr("income"))
    ensures !IsZero(cost) && cost.IsNumber() && income.IsNumber() ==>
      r == if Compatible(income, cost) then Monetary((income.Num() - cost.Num()) / cost.Num())
           else Raised(OperandTypeErr)
  {
    if IsZero(cost) then Undefined
    else if !IsAmount(cost) then Raised(TypeErr("cost"))
    else if !IsAmount(income) then Raised(TypeErr("income"))
    else Quantized(var net :- Sub(income, cost); TrueDiv(net, cost))
  }

  /** For a positive cost, raising at least the cost gives a return of at least
      zero, and raising at most the cost a return of at most zero. */
  lemma ReturnOnInvestmentSign(cost: PyVal, income: PyVal)
    requires Compatible(income, cost) && cost.Num() > 0.0
    ensures var r := ReturnOnInvestment(cost, income);
      r.Value? && (income.Num() >= cost.Num() ==> r.v.d >= 0.0) && (income.Num() <= cost.Num() ==> r.v.d <= 0.0)
  {
    var q := (income.Num() - cost.Num()) / cost.Num();
    if income.Num() >= cost.Num() {
      RoundMonotone(0.0, q);
    }
    if income.Num() <= cost.Num() {
      RoundMonotone(q, 0.0);
    }
  }
}
