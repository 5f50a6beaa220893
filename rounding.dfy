/** `Decimal(x).quantize(Decimal('0.01'))` under the default decimal context,
    whose rounding mode is ROUND_HALF_EVEN: round to a whole number of cents,
    a value exactly halfway between two cents going to the even one. */
module Rounding {

  function Abs(x: real): real {
    if x < 0.0 then -x else x
  }

  /** `x` is a whole number of cents. */
  predicate IsCents(x: real) {
    (x * 100.0).Floor as real == x * 100.0
  }

  /** `x` is a whole, even number of cents. */
  predicate IsEvenCents(x: real) {
    IsCents(x) && (x * 100.0).Floor % 2 == 0
  }

  /** The number of cents nearest to `x`, ties going to the even number. */
  function CentsHalfEven(x: real): int {
    var k := x * 100.0;
    var f := k.Floor;
    if k - f as real < 0.5 then f
    else if k - f as real > 0.5 then f + 1
    else if f % 2 == 0 then f
    else f + 1
  }

  /** `x` quantized to cents with ROUND_HALF_EVEN. */
  function RoundHalfEven2(x: real): (r: real)
    ensures IsCents(r)
    ensures Abs(r - x) <= 0.005
    ensures Abs(r - x) == 0.005 ==> IsEvenCents(r)
    ensures IsCents(x) ==> r == x
  {
    var n := CentsHalfEven(x);
    assert (n as real / 100.0) * 100.0 == n as real;
    n as real / 100.0
  }

  /** Two different whole numbers of cents are at least a cent apart. */
  lemma CentsApart(a: real, b: real)
    requires IsCents(a) && IsCents(b) && a != b
    ensures Abs(a - b) >= 0.01
  {
    var m, n := (a * 100.0).Floor, (b * 100.0).Floor;
    assert m != n;
    assert m - n >= 1 || n - m >= 1;
  }

  /** The rounded value is a nearest whole number of cents. */
  lemma {:induction false} RoundIsNearest(x: real, c: real)
    requires IsCents(c)
    ensures Abs(RoundHalfEven2(x) - x) <= Abs(c - x)
  {
    var r := RoundHalfEven2(x);
    if c != r {
      CentsApart(c, r);
    }
  }

  /** The three properties of RoundHalfEven2's contract determine its result. */
  lemma {:induction false} RoundUnique(x: real, r: real)
    requires IsCents(r) && Abs(r - x) <= 0.005
    requires Abs(r - x) == 0.005 ==> IsEvenCents(r)
    ensures r == RoundHalfEven2(x)
  {
    var q := RoundHalfEven2(x);
    if r != q {
      // both would lie exactly half a cent from x, on opposite sides,
      // and two adjacent whole numbers of cents are not both even
      CentsApart(r, q);
    }
  }

  /** Rounding never reverses the order of two values. */
  lemma {:induction false} RoundMonotone(x: real, y: real)
    requires x <= y
    ensures RoundHalfEven2(x) <= RoundHalfEven2(y)
  {
    var rx, ry := RoundHalfEven2(x), RoundHalfEven2(y);
    if rx > ry {
      CentsApart(rx, ry);
    }
  }

  /** Negating a whole (even) number of cents gives a whole (even) number of cents. */
  lemma NegateCents(r: real)
    requires IsCents(r)
    ensures IsCents(-r)
    ensures IsEvenCents(r) ==> IsEvenCents(-r)
  {
    var m := (r * 100.0).Floor;
    assert -r * 100.0 == (-m) as real;
    assert (-r * 100.0).Floor == -m;
    if m % 2 == 0 {
      assert (-m) % 2 == 0;
    }
  }

  /** Half-even rounding is symmetric about zero. */
  lemma {:induction false} RoundNegate(x: real)
    ensures RoundHalfEven2(-x) == -RoundHalfEven2(x)
  {
    var r := RoundHalfEven2(x);
    NegateCents(r);
    assert Abs(-r - -x) == Abs(r - x);
    RoundUnique(-x, -r);
  }
}
