/** `statistics.median` on a list of numbers: sort the list (a stable sort
    by value), then take the middle element, or the mean of the two middle
    elements when the length is even. */
module Statistics {
  import opened Python

  predicate AllNumbers(s: seq<PyVal>) {
    forall i | 0 <= i < |s| :: s[i].IsNumber()
  }

  predicate HasNumber(s: seq<PyVal>) {
    exists x | x in s :: x.IsNumber()
  }

  predicate HasText(s: seq<PyVal>) {
    exists x | x in s :: x.PStr?
  }

  /** The list holds both a `Decimal` and a `float`, which Python cannot add. */
  predicate MixesDecimalAndFloat(s: seq<PyVal>) {
    (exists x | x in s :: x.PDec?) && (exists y | y in s :: y.PFloat?)
  }

  /** The numeric values of a list of numbers. */
  function Values(s: seq<PyVal>): (r: seq<real>)
    requires AllNumbers(s)
    ensures |r| == |s|
  {
    seq(|s|, i requires 0 <= i < |s| => s[i].Num())
  }

  predicate Sorted(t: seq<real>) {
    forall i, j | 0 <= i < j < |t| :: t[i] <= t[j]
  }

  predicate SortedByValue(s: seq<PyVal>)
    requires AllNumbers(s)
  {
    forall i, j | 0 <= i < j < |s| :: s[i].Num() <= s[j].Num()
  }

  /** Inserts `x` before the first element that is not smaller, so that `x`
      stays ahead of the equal elements that followed it in the input. */
  function Insert(x: PyVal, s: seq<PyVal>): (r: seq<PyVal>)
    requires x.IsNumber() && AllNumbers(s)
    ensures |r| == |s| + 1 && AllNumbers(r)
    ensures multiset(r) == multiset(s) + multiset{x}
  {
    if s == [] || x.Num() <= s[0].Num() then [x] + s
    else
      assert s == [s[0]] + s[1..];
      [s[0]] + Insert(x, s[1..])
  }

  /** Every element of `Insert(x, s)` is at least any bound that `x` and all
      of `s` are at least. */
  lemma {:induction false} InsertBounded(x: PyVal, s: seq<PyVal>, b: real)
    requires x.IsNumber() && AllNumbers(s)
    requires b <= x.Num() && forall i | 0 <= i < |s| :: b <= s[i].Num()
    ensures forall k | 0 <= k < |s| + 1 :: b <= Insert(x, s)[k].Num()
  {
    if s != [] && x.Num() > s[0].Num() {
      InsertBounded(x, s[1..], b);
    }
  }

  /** Inserting into a sorted list keeps it sorted. */
  lemma {:induction false} InsertSorted(x: PyVal, s: seq<PyVal>)
    requires x.IsNumber() && AllNumbers(s) && SortedByValue(s)
    ensures SortedByValue(Insert(x, s))
  {
    if s != [] && x.Num() > s[0].Num() {
      InsertSorted(x, s[1..]);
      InsertBounded(x, s[1..], s[0].Num());
    }
  }

  /** Insertion sort by value; like Python's `sorted`, it is stable. */
  function SortByValue(s: seq<PyVal>): (r: seq<PyVal>)
    requires AllNumbers(s)
    ensures |r| == |s| && AllNumbers(r) && SortedByValue(r)
    ensures multiset(r) == multiset(s)
  {
    if s == [] then []
    else
      assert s == [s[0]] + s[1..];
      InsertSorted(s[0], SortByValue(s[1..]));
      Insert(s[0], SortByValue(s[1..]))
  }

  /** The median of an already sorted list of values. */
  function Middle(t: seq<real>): real
    requires |t| > 0
  {
    var n := |t|;
    if n % 2 == 1 then t[n / 2] else (t[n / 2 - 1] + t[n / 2]) / 2.0
  }

  /** `statistics.median(data)` for a nonempty list of numbers. */
  function Median(data: seq<PyVal>): (r: Result<PyVal>)
    requires |data| > 0 && AllNumbers(data)
    ensures r.Ok? ==> r.value.IsNumber()
    ensures r.Err? ==> r.error == OperandTypeErr && |data| % 2 == 0
  {
    var t := SortByValue(data);
    var n := |t|;
    if n % 2 == 1 then Ok(t[n / 2])
    else
      var sum :- Add(t[n / 2 - 1], t[n / 2]);
      TrueDiv(sum, PInt(2))
  }

  /** A permutation of a list of numbers holds only numbers. */
  lemma PermutationAllNumbers(a: seq<PyVal>, b: seq<PyVal>)
    requires AllNumbers(a) && multiset(a) == multiset(b)
    ensures AllNumbers(b)
  {
    forall k | 0 <= k < |b| ensures b[k].IsNumber() {
      assert b[k] in multiset(a);
    }
  }

  /** A permutation has the same length and the same kinds of elements. */
  lemma PermutationSameKinds(a: seq<PyVal>, b: seq<PyVal>)
    requires multiset(a) == multiset(b)
    ensures |a| == |b|
    ensures HasText(a) == HasText(b) && HasNumber(a) == HasNumber(b)
    ensures MixesDecimalAndFloat(a) == MixesDecimalAndFloat(b)
  {
    assert |a| == |multiset(a)| == |b|;
    forall x ensures x in a <==> x in b {
      assert x in a <==> x in multiset(a);
    }
  }

  /** Removing the element at `j` removes one copy of it from the multiset. */
  lemma RemoveAt<T>(b: seq<T>, j: int)
    requires 0 <= j < |b|
    ensures multiset(b[..j] + b[j + 1..]) == multiset(b) - multiset{b[j]}
  {
    assert b == b[..j] + [b[j]] + b[j + 1..];
    assert multiset(b) == multiset(b[..j]) + multiset{b[j]} + multiset(b[j + 1..]);
  }

  /** Removing the element at `j` removes its value from the values. */
  lemma ValuesRemove(b: seq<PyVal>, j: int)
    requires AllNumbers(b) && 0 <= j < |b|
    ensures AllNumbers(b[..j] + b[j + 1..])
    ensures multiset(Values(b)) == multiset(Values(b[..j] + b[j + 1..])) + multiset{b[j].Num()}
  {
    var c := b[..j] + b[j + 1..];
    forall k | 0 <= k < |c| ensures c[k] == b[if k < j then k else k + 1] {
    }
    var vb, vc := Values(b), Values(c);
    assert vc == vb[..j] + vb[j + 1..] by {
      forall k | 0 <= k < |vc| ensures vc[k] == vb[if k < j then k else k + 1] {
      }
    }
    assert vb == vb[..j] + [vb[j]] + vb[j + 1..];
  }

  /** The values of a list are the first value followed by the values of the rest. */
  lemma ValuesCons(a: seq<PyVal>)
    requires AllNumbers(a) && |a| > 0
    ensures AllNumbers(a[1..])
    ensures multiset(Values(a)) == multiset{a[0].Num()} + multiset(Values(a[1..]))
  {
    assert Values(a) == [a[0].Num()] + Values(a[1..]);
  }

  /** Lists that are permutations of each other have value lists that are
      permutations of each other. */
  lemma {:induction false} ValuesPermutation(a: seq<PyVal>, b: seq<PyVal>)
    requires AllNumbers(a) && multiset(a) == multiset(b)
    ensures AllNumbers(b) && multiset(Values(a)) == multiset(Values(b))
    decreases |a|
  {
    PermutationAllNumbers(a, b);
    if a == [] {
      assert |b| == |multiset(b)| == 0;
    } else {
      var x := a[0];
      assert x in multiset(b);
      var j :| 0 <= j < |b| && b[j] == x;
      RemoveAt(b, j);
      TailMultiset(a);
      ValuesPermutation(a[1..], b[..j] + b[j + 1..]);
      ValuesRemove(b, j);
      ValuesCons(a);
    }
  }

  /** Dropping the first element removes one copy of it from the multiset. */
  lemma TailMultiset<T>(s: seq<T>)
    requires |s| > 0
    ensures multiset(s[1..]) == multiset(s) - multiset{s[0]}
  {
    assert s == [s[0]] + s[1..];
  }

  /** Sorted lists with the same multiset of values start with the same value. */
  lemma SortedSameHead(s: seq<real>, t: seq<real>)
    requires Sorted(s) && Sorted(t) && multiset(s) == multiset(t) && |s| > 0
    ensures |t| > 0 && s[0] == t[0]
  {
    assert |t| == |multiset(t)| > 0;
    assert s[0] in multiset(t) && t[0] in multiset(s);
  }

  /** A sorted list is determined by its multiset of values. */
  lemma {:induction false} SortedUnique(s: seq<real>, t: seq<real>)
    requires Sorted(s) && Sorted(t) && multiset(s) == multiset(t)
    ensures s == t
    decreases |s|
  {
    if s == [] {
      assert |t| == |multiset(t)| == 0;
    } else {
      SortedSameHead(s, t);
      TailMultiset(s);
      TailMultiset(t);
      SortedUnique(s[1..], t[1..]);
      assert s == [s[0]] + s[1..] && t == [t[0]] + t[1..];
    }
  }

  /** Sorting by value yields the unique sorted arrangement of the values. */
  lemma SortByValueValues(data: seq<PyVal>, t: seq<real>)
    requires AllNumbers(data)
    requires Sorted(t) && multiset(t) == multiset(Values(data))
    ensures Values(SortByValue(data)) == t
  {
    var s := SortByValue(data);
    ValuesPermutation(s, data);
    SortedUnique(Values(s), t);
  }

  /** Two elements of a list that does not mix `Decimal` with `float` can be
      added together. */
  lemma NoMixedPair(data: seq<PyVal>, a: PyVal, b: PyVal)
    requires AllNumbers(data) && !MixesDecimalAndFloat(data)
    requires a in data && b in data
    ensures Compatible(a, b)
  {
  }

  /** For an odd length, the median is the middle element of the sorted list. */
  lemma MedianOdd(data: seq<PyVal>)
    requires |data| > 0 && |data| % 2 == 1 && AllNumbers(data)
    ensures Median(data) == Ok(SortByValue(data)[|data| / 2])
  {
  }

  /** For an even length, the median is the mean of the two middle elements
      of the sorted list, as long as the list does not mix `Decimal` with
      `float`. */
  lemma MedianEven(data: seq<PyVal>)
    requires |data| > 0 && |data| % 2 == 0 && AllNumbers(data) && !MixesDecimalAndFloat(data)
    ensures var s, n := SortByValue(data), |data|;
      Median(data).Ok? && Median(data).value.Num() == (s[n / 2 - 1].Num() + s[n / 2].Num()) / 2.0
  {
    var s := SortByValue(data);
    var n := |s|;
    var a, b := s[n / 2 - 1], s[n / 2];
    assert a in multiset(s) && b in multiset(s);
    NoMixedPair(data, a, b);
  }

  /** The median is the middle of the values of the sorted list. */
  lemma MedianMiddle(data: seq<PyVal>)
    requires |data| > 0 && AllNumbers(data)
    requires |data| % 2 == 1 || !MixesDecimalAndFloat(data)
    ensures Median(data).Ok? && Median(data).value.Num() == Middle(Values(SortByValue(data)))
  {
    var s := SortByValue(data);
    ValuesAt(s, |s| / 2);
    if |s| % 2 == 0 {
      ValuesAt(s, |s| / 2 - 1);
      MedianEven(data);
    } else {
      MedianOdd(data);
    }
  }

  /** The `k`-th value is the value of the `k`-th element. */
  lemma ValuesAt(s: seq<PyVal>, k: int)
    requires AllNumbers(s) && 0 <= k < |s|
    ensures Values(s)[k] == s[k].Num()
  {
  }

  /** The median is the middle of any sorted arrangement of the values. For
      an even length the list must not mix `Decimal` with `float`; for an odd
      length the middle element is returned as it is. */
  lemma MedianOfSortedPermutation(data: seq<PyVal>, t: seq<real>)
    requires |data| > 0 && AllNumbers(data)
    requires |data| % 2 == 1 || !MixesDecimalAndFloat(data)
    requires Sorted(t) && multiset(t) == multiset(Values(data))
    ensures Median(data).Ok? && Median(data).value.Num() == Middle(t)
  {
    SortByValueValues(data, t);
    MedianMiddle(data);
  }
}
