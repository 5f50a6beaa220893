/** `FRMCalc.long_term_value`: for each period record, in order, the value
    `(gifts / donors) * (revenue / gifts)` quantized to cents, or `None` when a
    count is zero, stored in a dictionary under the period's year. */
module LongTermValue {
  import opened Python
  import opened Rounding

  datatype Option<+T> = None | Some(value: T)

  /** A period record: a dictionary read through its fields "year", "donors",
      "gifts" and "revenue". */
  type Period = map<string, PyVal>

  /** The value of one period as the expression of the loop body computes it,
      left operand first: `gifts / donors`, then `Decimal(revenue)`, then
      `Decimal(revenue) / Decimal(gifts)`, then the product, quantized.
      `Decimal()` of a number is exact. */
  function PeriodValue(p: Period): (r: Result<real>)
    ensures "gifts" !in p ==> r == Err(KeyErr("gifts"))
    ensures "gifts" in p && "donors" !in p ==> r == Err(KeyErr("donors"))
    ensures "gifts" in p && "donors" in p && !Compatible(p["gifts"], p["donors"]) ==> r == Err(OperandTypeErr)
    ensures "gifts" in p && "donors" in p && Compatible(p["gifts"], p["donors"]) && IsZero(p["donors"]) ==>
      r == Err(if DecimalArith(p["gifts"], p["donors"]) && IsZero(p["gifts"]) then DivisionUndefinedErr else ZeroDivisionErr)
    ensures r.Ok? ==> IsCents(r.value)
  {
    var gifts :- Get(p, "gifts");
    var donors :- Get(p, "donors");
    var perDonor :- TrueDiv(gifts, donors);
    var revenue :- Get(p, "revenue");
    var rev :- ToDecimal(revenue);
    var perGift :- DecimalDiv(rev, gifts.Num());
    Ok(QuantizedProduct(perDonor.Num(), perGift))
  }

  /** `(per_donor * per_gift).quantize(Decimal('0.01'))`. */
  function QuantizedProduct(perDonor: real, perGift: real): real {
    RoundHalfEven2(perDonor * perGift)
  }

  /** The exceptions the `except` clause of the loop body catches as written:
      `ZeroDivisionError` only. A decimal 0 / 0 raises `InvalidOperation`
      instead, which is not among them. */
  const CaughtAsWritten: set<PyError> := {ZeroDivisionErr}

  /** What the clause evidently means to catch: any division by a zero count. */
  const CaughtIntended: set<PyError> := {ZeroDivisionErr, DivisionUndefinedErr}

  /** One iteration of the loop: the value (or `None` for a caught exception),
      then `period['year']`, giving the key and value to store. */
  function Entry(p: Period, caught: set<PyError>): Result<(Key, Option<real>)> {
    var value :-
      match PeriodValue(p)
      case Ok(v) => Ok(Some(v))
      case Err(e) => if e in caught then Ok(None) else Err(e);
    var year :- Get(p, "year");
    Ok((KeyOf(year), value))
  }

  /** A record with all four fields, counts that Python can divide, and a numeric revenue. */
  predicate Complete(p: Period) {
    "year" in p && "donors" in p && "gifts" in p && "revenue" in p &&
    Compatible(p["gifts"], p["donors"]) && p["revenue"].IsNumber()
  }

  /** With nonzero counts, the value is the product of gifts per donor and
      revenue per gift, quantized. */
  lemma PeriodValueNonzero(p: Period)
    requires Complete(p) && !IsZero(p["donors"]) && !IsZero(p["gifts"])
    ensures var gifts, donors, revenue := p["gifts"].Num(), p["donors"].Num(), p["revenue"].Num();
      PeriodValue(p) == Ok(QuantizedProduct(gifts / donors, revenue / gifts))
  {
    var g, d, rv := p["gifts"].Num(), p["donors"].Num(), p["revenue"].Num();
    var perDonor := TrueDiv(p["gifts"], p["donors"]).value.Num();
    var perGift := DecimalDiv(rv, g).value;
    assert perDonor == g / d && perGift == rv / g;
    assert PeriodValue(p) == Ok(QuantizedProduct(perDonor, perGift));
  }

  /** Gifts per donor times revenue per gift is revenue per donor: the gifts cancel. */
  lemma GiftsCancel(gifts: real, donors: real, revenue: real)
    requires gifts != 0.0 && donors != 0.0
    ensures (gifts / donors) * (revenue / gifts) == revenue / donors
  {
    calc {
      (gifts / donors) * (revenue / gifts);
      (gifts * revenue) / (donors * gifts);
      revenue / donors;
    }
  }

  /** Quantizing depends only on the value of the product. */
  lemma QuantizedProductValue(perDonor: real, perGift: real, v: real)
    requires perDonor * perGift == v
    ensures QuantizedProduct(perDonor, perGift) == RoundHalfEven2(v)
  {
  }

  /** The two-step form equals the revenue per donor, quantized. */
  lemma PeriodValueIsRevenuePerDonor(p: Period)
    requires Complete(p) && !IsZero(p["donors"]) && !IsZero(p["gifts"])
    ensures PeriodValue(p) == Ok(RoundHalfEven2(p["revenue"].Num() / p["donors"].Num()))
  {
    PeriodValueNonzero(p);
    var gifts, donors, revenue := p["gifts"].Num(), p["donors"].Num(), p["revenue"].Num();
    GiftsCancel(gifts, donors, revenue);
    QuantizedProductValue(gifts / donors, revenue / gifts, revenue / donors);
  }

  /** The loop body as written. */
  function PeriodEntryAsWritten(p: Period): (r: Result<(Key, Option<real>)>)
    ensures Complete(p) && !IsZero(p["donors"]) && IsZero(p["gifts"]) ==>
      r == if p["revenue"].Num() == 0.0 then Err(DivisionUndefinedErr) else Ok((KeyOf(p["year"]), None))
  {
    Entry(p, CaughtAsWritten)
  }

  /** The loop body with the zero-count case caught as intended: no record
      ends the call in a division fault. */
  function PeriodEntry(p: Period): (r: Result<(Key, Option<real>)>)
    ensures r.Err? ==> r.error.KeyErr? || r.error == OperandTypeErr || r.error == ConversionSyntaxErr
  {
    Entry(p, CaughtIntended)
  }

  /** A zero count gives `None` for the record's year, nonzero counts the
      quantized value, and counts Python cannot divide a `TypeError`. */
  lemma PeriodEntryCases(p: Period)
    ensures Complete(p) && (IsZero(p["donors"]) || IsZero(p["gifts"])) ==>
      PeriodEntry(p) == Ok((KeyOf(p["year"]), None))
    ensures Complete(p) && !IsZero(p["donors"]) && !IsZero(p["gifts"]) ==>
      var gifts, donors, revenue := p["gifts"].Num(), p["donors"].Num(), p["revenue"].Num();
      PeriodEntry(p) == Ok((KeyOf(p["year"]), Some(QuantizedProduct(gifts / donors, revenue / gifts))))
    ensures "gifts" in p && "donors" in p && !Compatible(p["gifts"], p["donors"]) ==> PeriodEntry(p) == Err(OperandTypeErr)
  {
    if Complete(p) && !IsZero(p["donors"]) && !IsZero(p["gifts"]) {
      PeriodValueNonzero(p);
    }
  }

  /** A period with no gifts and no revenue aborts the whole call as written,
      while the intended reading gives `None` for its year. */
  lemma ZeroGiftsZeroRevenue()
    ensures var p := map["year" := PInt(2015), "donors" := PInt(10), "gifts" := PInt(0), "revenue" := PInt(0)];
      PeriodEntryAsWritten(p) == Err(DivisionUndefinedErr) &&
      Calculated([p], CaughtAsWritten) == Err(DivisionUndefinedErr) &&
      Calculated([p], CaughtIntended) == Ok(map[NumKey(2015.0) := None])
  {
    var p := map["year" := PInt(2015), "donors" := PInt(10), "gifts" := PInt(0), "revenue" := PInt(0)];
    PeriodEntryCases(p);
    assert [p][..0] == [];
  }

  /** A period whose gifts and donors are both `Decimal` zeros aborts the call
      as written already at `gifts / donors`, whatever its revenue. */
  lemma DecimalZeroCounts(revenue: PyVal)
    ensures var p := map["year" := PInt(2015), "donors" := PDec(0.0), "gifts" := PDec(0.0), "revenue" := revenue];
      PeriodEntryAsWritten(p) == Err(DivisionUndefinedErr) &&
      Calculated([p], CaughtAsWritten) == Err(DivisionUndefinedErr) &&
      Calculated([p], CaughtIntended) == Ok(map[NumKey(2015.0) := None])
  {
    var p := map["year" := PInt(2015), "donors" := PDec(0.0), "gifts" := PDec(0.0), "revenue" := revenue];
    assert PeriodValue(p) == Err(DivisionUndefinedErr);
    assert Entry(p, CaughtIntended) == Ok((NumKey(2015.0), None));
    assert [p][..0] == [];
  }

  /** The correction changes nothing but the aborting zero-count case. */
  lemma AsWrittenDiffersOnlyOnZeroByZero(p: Period)
    ensures PeriodEntryAsWritten(p) != PeriodEntry(p) ==> PeriodEntryAsWritten(p) == Err(DivisionUndefinedErr)
  {
  }

  /** The dictionary after processing the records in order, with an `except`
      clause that catches `caught`, or the exception that ends the loop. Each
      record adds at most one key. */
  function Calculated(data: seq<Period>, caught: set<PyError>): (r: Result<map<Key, Option<real>>>)
    ensures r.Ok? ==> |r.value| <= |data|
  {
    if data == [] then Ok(map[])
    else
      var before :- Calculated(data[..|data| - 1], caught);
      var entry :- Entry(data[|data| - 1], caught);
      Ok(before[entry.0 := entry.1])
  }

  /** `long_term_value(data)`, where `caught` is what the `except` clause of
      the loop body catches: `CaughtAsWritten` for the code as written,
      `CaughtIntended` for the corrected code. */
  method LongTermValue(data: seq<Period>, caught: set<PyError>) returns (r: Result<map<Key, Option<real>>>)
    ensures r == Calculated(data, caught)
  {
    var calculated: map<Key, Option<real>> := map[];
    for i := 0 to |data|
      invariant Calculated(data[..i], caught) == Ok(calculated)
    {
      assert data[..i + 1][..i] == data[..i];
      var entry := Entry(data[i], caught);
      if entry.Err? {
        CalculatedStopsAtError(data, caught, i + 1);
        return Err(entry.error);
      }
      calculated := calculated[entry.value.0 := entry.value.1];
    }
    assert data[..|data|] == data;
    return Ok(calculated);
  }

  /** Once a prefix of the records raises, the whole call raises the same exception. */
  lemma {:induction false} CalculatedStopsAtError(data: seq<Period>, caught: set<PyError>, n: nat)
    requires n <= |data| && Calculated(data[..n], caught).Err?
    ensures Calculated(data, caught) == Calculated(data[..n], caught)
    decreases |data|
  {
    if n == |data| {
      assert data[..n] == data;
    } else {
      var prefix := data[..|data| - 1];
      assert prefix[..n] == data[..n];
      CalculatedStopsAtError(prefix, caught, n);
    }
  }

  /** The key of record `i`, when its entry succeeds. */
  function KeyAt(data: seq<Period>, caught: set<PyError>, i: int): Key
    requires 0 <= i < |data| && Entry(data[i], caught).Ok?
  {
    Entry(data[i], caught).value.0
  }

  /** Every record's entry succeeds. */
  predicate CalculatedOkAll(data: seq<Period>, caught: set<PyError>) {
    forall i | 0 <= i < |data| :: Entry(data[i], caught).Ok?
  }

  /** The call succeeds exactly when every record's entry succeeds. */
  lemma {:induction false} CalculatedOk(data: seq<Period>, caught: set<PyError>)
    ensures Calculated(data, caught).Ok? <==> CalculatedOkAll(data, caught)
    decreases |data|
  {
    if data != [] {
      var prefix := data[..|data| - 1];
      CalculatedOk(prefix, caught);
      assert CalculatedOkAll(data, caught) <==> CalculatedOkAll(prefix, caught) && Entry(data[|data| - 1], caught).Ok? by {
        assert forall i | 0 <= i < |prefix| :: prefix[i] == data[i];
      }
    }
  }

  /** A record whose field Python cannot use ends the call with that record's
      exception, provided the records before it succeed. */
  lemma {:induction false} CalculatedFirstError(data: seq<Period>, caught: set<PyError>, i: int)
    requires 0 <= i < |data| && Entry(data[i], caught).Err?
    requires forall j | 0 <= j < i :: Entry(data[j], caught).Ok?
    ensures Calculated(data, caught) == Err(Entry(data[i], caught).error)
  {
    CalculatedOk(data[..i], caught);
    assert data[..i + 1][..i] == data[..i];
    CalculatedStopsAtError(data, caught, i + 1);
  }

  /** The keys of the result are exactly the years of the records. */
  lemma {:induction false} CalculatedKeys(data: seq<Period>, caught: set<PyError>)
    requires CalculatedOkAll(data, caught)
    ensures Calculated(data, caught).Ok?
    ensures forall i | 0 <= i < |data| :: KeyAt(data, caught, i) in Calculated(data, caught).value
    ensures forall k | k in Calculated(data, caught).value :: exists i | 0 <= i < |data| :: KeyAt(data, caught, i) == k
    decreases |data|
  {
    CalculatedOk(data, caught);
    if data != [] {
      var n := |data|;
      var prefix := data[..n - 1];
      assert forall i | 0 <= i < n - 1 :: prefix[i] == data[i];
      CalculatedKeys(prefix, caught);
      var entry := Entry(data[n - 1], caught).value;
      var m := Calculated(prefix, caught).value;
      assert Calculated(data, caught).value == m[entry.0 := entry.1];
      forall i | 0 <= i < n ensures KeyAt(data, caught, i) in Calculated(data, caught).value {
        if i < n - 1 {
          assert KeyAt(data, caught, i) == KeyAt(prefix, caught, i);
        }
      }
      forall k | k in Calculated(data, caught).value ensures exists i | 0 <= i < n :: KeyAt(data, caught, i) == k {
        if k == entry.0 {
          assert KeyAt(data, caught, n - 1) == k;
        } else {
          var j :| 0 <= j < n - 1 && KeyAt(prefix, caught, j) == k;
          assert KeyAt(data, caught, j) == k;
        }
      }
    }
  }

  /** The value stored for a year is the one of the last record with that year:
      a later record overwrites an earlier one. */
  lemma {:induction false} CalculatedLastWins(data: seq<Period>, caught: set<PyError>, i: int)
    requires Calculated(data, caught).Ok? && 0 <= i < |data|
    ensures Entry(data[i], caught).Ok?
    ensures (forall j | i < j < |data| :: Entry(data[j], caught).Ok? && KeyAt(data, caught, j) != KeyAt(data, caught, i)) ==>
      KeyAt(data, caught, i) in Calculated(data, caught).value &&
      Calculated(data, caught).value[KeyAt(data, caught, i)] == Entry(data[i], caught).value.1
    decreases |data|
  {
    CalculatedOk(data, caught);
    if i < |data| - 1 {
      var prefix := data[..|data| - 1];
      assert forall j | 0 <= j < |prefix| :: prefix[j] == data[j];
      CalculatedLastWins(prefix, caught, i);
    }
  }

  /** Replacing one record by another with the same year (for instance one
      whose donors count is zero) leaves every other year's value unchanged. */
  lemma {:induction false} CalculatedOtherYearsUnchanged(data: seq<Period>, caught: set<PyError>, i: int, p: Period)
    requires 0 <= i < |data| && Calculated(data, caught).Ok?
    requires Entry(p, caught).Ok? && Entry(data[i], caught).Ok? && Entry(p, caught).value.0 == Entry(data[i], caught).value.0
    ensures Calculated(data[i := p], caught).Ok?
    ensures forall k | k != Entry(p, caught).value.0 ::
      (k in Calculated(data, caught).value <==> k in Calculated(data[i := p], caught).value) &&
      (k in Calculated(data, caught).value ==> Calculated(data, caught).value[k] == Calculated(data[i := p], caught).value[k])
    decreases |data|
  {
    var data' := data[i := p];
    var n := |data|;
    var prefix, prefix' := data[..n - 1], data'[..n - 1];
    var key := Entry(p, caught).value.0;
    var before := Calculated(prefix, caught);
    var entry := Entry(data[n - 1], caught);
    assert before.Ok? && entry.Ok?;
    var entry' := Entry(data'[n - 1], caught);
    if i < n - 1 {
      assert prefix' == prefix[i := p];
      CalculatedOtherYearsUnchanged(prefix, caught, i, p);
      assert entry' == entry;
    } else {
      assert prefix' == prefix;
      assert entry'.Ok? && entry'.value.0 == key == entry.value.0;
    }
    var before' := Calculated(prefix', caught);
    assert before'.Ok?;
    assert Calculated(data', caught) == Ok(before'.value[entry'.value.0 := entry'.value.1]);
    assert Calculated(data, caught) == Ok(before.value[entry.value.0 := entry.value.1]);
    UpdateAgreesOutside(before.value, before'.value, key, entry.value, entry'.value,
      Calculated(data, caught).value, Calculated(data', caught).value);
  }

  /** Two maps that agree outside `key` still agree outside `key` after the
      same update, or after updates of `key` itself. */
  lemma UpdateAgreesOutside<K, V>(m: map<K, V>, m': map<K, V>, key: K, e: (K, V), e': (K, V), r: map<K, V>, r': map<K, V>)
    requires forall k | k != key :: (k in m <==> k in m') && (k in m ==> m[k] == m'[k])
    requires e == e' || (e.0 == key && e'.0 == key)
    requires r == m[e.0 := e.1] && r' == m'[e'.0 := e'.1]
    ensures forall k | k != key :: (k in r <==> k in r') && (k in r ==> r[k] == r'[k])
  {
  }

  /** The record of the 2015 campaign: 3002975 over 6856 donors is 438.0068...,
      which rounds to 438.01. */
  lemma LongTermValueExample()
    ensures var p := map["year" := PInt(2015), "donors" := PInt(6856), "gifts" := PInt(10912), "revenue" := PInt(3002975)];
      Calculated([p], CaughtIntended) == Ok(map[NumKey(2015.0) := Some(438.01)])
  {
    var p := map["year" := PInt(2015), "donors" := PInt(6856), "gifts" := PInt(10912), "revenue" := PInt(3002975)];
    PeriodEntryCases(p);
    RoundUnique((10912.0 / 6856.0) * (3002975.0 / 10912.0), 438.01);
    assert [p][..0] == [];
  }
}
