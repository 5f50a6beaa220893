/** The part of the Python runtime that the fundraising calculator relies on:
    the dynamically typed arguments it receives, the exceptions it can end in,
    and the behaviour of `-`, `+`, `/`, `==` and `Decimal(...)` on those values.

    Binary floats are modelled by exact reals, like decimals. */
module Python {

  /** A Python argument as the calculator tells it apart: `int`, `float`,
      `decimal.Decimal` or `str`. */
  datatype PyVal =
    | PInt(i: int)
    | PFloat(f: real)
    | PDec(d: real)
    | PStr(s: string)
  {
    /** Passes `isinstance(v, (int, float, Decimal))`. */
    predicate IsNumber() { !PStr? }

    /** The numeric value of an `int`, `float` or `Decimal`. */
    function Num(): real
      requires IsNumber()
    {
      match this
      case PInt(i) => i as real
      case PFloat(f) => f
      case PDec(d) => d
    }
  }

  /** The exceptions the calculator can raise. */
  datatype PyError =
    | TypeErr(param: string)   // TypeError from the calculator's own isinstance check, naming the parameter
    | OperandTypeErr           // TypeError raised by an operator or by sorted() on unorderable values
    | ZeroDivisionErr          // ZeroDivisionError, decimal.DivisionByZero included
    | DivisionUndefinedErr     // decimal.InvalidOperation signalled by the decimal division 0 / 0
    | ConversionSyntaxErr      // decimal.InvalidOperation signalled by Decimal() on text
    | NoMedianErr              // statistics.StatisticsError for an empty list
    | KeyErr(key: string)      // KeyError for a missing field of a record

  /** Either a value or the exception that ends the computation. */
  datatype Result<+T> = Ok(value: T) | Err(error: PyError)
  {
    predicate IsFailure() { Err? }

    function PropagateFailure<U>(): Result<U>
      requires Err?
    {
      Err(error)
    }

    function Extract(): T
      requires Ok?
    {
      value
    }
  }

  /** `v == 0` in Python: true for the int, float or Decimal zero, false for text. */
  predicate IsZero(v: PyVal): (b: bool)
    ensures b <==> v == PInt(0) || v == PFloat(0.0) || v == PDec(0.0)
  {
    v.IsNumber() && v.Num() == 0.0
  }

  /** Two numbers a binary operator accepts together: Python refuses to mix
      `Decimal` with `float` in arithmetic. */
  predicate Compatible(a: PyVal, b: PyVal) {
    a.IsNumber() && b.IsNumber() && !(a.PDec? && b.PFloat?) && !(a.PFloat? && b.PDec?)
  }

  /** Whether an operator on `a` and `b` computes with `Decimal` arithmetic. */
  predicate DecimalArith(a: PyVal, b: PyVal) {
    a.PDec? || b.PDec?
  }

  /** `a - b`. */
  function Sub(a: PyVal, b: PyVal): (r: Result<PyVal>)
    ensures r.Ok? <==> Compatible(a, b)
    ensures r.Ok? ==> r.value.IsNumber() && r.value.Num() == a.Num() - b.Num()
    ensures r.Ok? ==> (r.value.PInt? <==> a.PInt? && b.PInt?) && (r.value.PDec? <==> DecimalArith(a, b))
    ensures r.Err? ==> r.error == OperandTypeErr
  {
    if !Compatible(a, b) then Err(OperandTypeErr)
    else if a.PInt? && b.PInt? then Ok(PInt(a.i - b.i))
    else if DecimalArith(a, b) then Ok(PDec(a.Num() - b.Num()))
    else Ok(PFloat(a.Num() - b.Num()))
  }

  /** `a + b`; two texts concatenate. */
  function Add(a: PyVal, b: PyVal): (r: Result<PyVal>)
    ensures Compatible(a, b) ==> r.Ok? && r.value.IsNumber() && r.value.Num() == a.Num() + b.Num()
    ensures a.PStr? && b.PStr? ==> r == Ok(PStr(a.s + b.s))
    ensures r.Ok? <==> Compatible(a, b) || (a.PStr? && b.PStr?)
    ensures r.Err? ==> r.error == OperandTypeErr
  {
    if a.PStr? && b.PStr? then Ok(PStr(a.s + b.s))
    else if !Compatible(a, b) then Err(OperandTypeErr)
    else if a.PInt? && b.PInt? then Ok(PInt(a.i + b.i))
    else if DecimalArith(a, b) then Ok(PDec(a.Num() + b.Num()))
    else Ok(PFloat(a.Num() + b.Num()))
  }

  /** The decimal division `x / y` under the default context: a nonzero
      dividend over zero signals DivisionByZero (a ZeroDivisionError), zero
      over zero signals DivisionUndefined (an InvalidOperation). */
  function DecimalDiv(x: real, y: real): (r: Result<real>)
    ensures r.Ok? <==> y != 0.0
    ensures r.Ok? ==> r.value == x / y
    ensures r.Err? ==> r.error == (if x == 0.0 then DivisionUndefinedErr else ZeroDivisionErr)
  {
    if y != 0.0 then Ok(x / y)
    else if x == 0.0 then Err(DivisionUndefinedErr)
    else Err(ZeroDivisionErr)
  }

  /** `a / b`: true division, giving a `float` for two ints or floats and a
      `Decimal` when either operand is one. */
  function TrueDiv(a: PyVal, b: PyVal): (r: Result<PyVal>)
    ensures r.Ok? <==> Compatible(a, b) && b.Num() != 0.0
    ensures r.Ok? ==> r.value.IsNumber() && r.value.Num() == a.Num() / b.Num()
    ensures r.Ok? ==> (if DecimalArith(a, b) then r.value.PDec? else r.value.PFloat?)
    ensures !Compatible(a, b) ==> r == Err(OperandTypeErr)
    ensures Compatible(a, b) && b.Num() == 0.0 ==>
      r == Err(if DecimalArith(a, b) && a.Num() == 0.0 then DivisionUndefinedErr else ZeroDivisionErr)
  {
    if !Compatible(a, b) then Err(OperandTypeErr)
    else if DecimalArith(a, b) then
      var q :- DecimalDiv(a.Num(), b.Num());
      Ok(PDec(q))
    else if b.Num() == 0.0 then Err(ZeroDivisionErr)
    else Ok(PFloat(a.Num() / b.Num()))
  }

  /** `Decimal(v)`: exact for numbers; text is refused (see README). */
  function ToDecimal(v: PyVal): (r: Result<real>)
    ensures r.Ok? <==> v.IsNumber()
    ensures r.Ok? ==> r.value == v.Num()
    ensures r.Err? ==> r.error == ConversionSyntaxErr
  {
    if v.PStr? then Err(ConversionSyntaxErr) else Ok(v.Num())
  }

  /** A dictionary key up to Python's key equality: equal numbers of any
      numeric type are the same key. */
  datatype Key = NumKey(n: real) | TextKey(s: string)

  function KeyOf(v: PyVal): (k: Key)
    ensures k.NumKey? <==> v.IsNumber()
    ensures v.IsNumber() ==> k.n == v.Num()
    ensures v.PStr? ==> k == TextKey(v.s)
  {
    if v.PStr? then TextKey(v.s) else NumKey(v.Num())
  }

  /** `d[key]` on a dictionary with text keys. */
  function Get(d: map<string, PyVal>, key: string): (r: Result<PyVal>)
    ensures r.Ok? <==> key in d
    ensures r.Ok? ==> r.value == d[key]
    ensures r.Err? ==> r.error == KeyErr(key)
  {
    if key in d then Ok(d[key]) else Err(KeyErr(key))
  }
}
