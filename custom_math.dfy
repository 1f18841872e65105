/** The price predictor's statistics helpers: mean, median and percentile over real numbers
    (Python floats without rounding). */
module CustomMath {
  import opened Wrappers
  import opened Sorting

  function Sum(s: seq<real>): real {
    if s == [] then 0.0 else Sum(s[..|s| - 1]) + s[|s| - 1]
  }

  /** mean(numbers) = sum(numbers) / len(numbers); an empty list divides by zero. */
  function Mean(numbers: seq<real>): (r: Result<real>)
    ensures r.Success? <==> |numbers| > 0
    ensures r.Failure? ==> r.error == ZeroDivision
  {
    if |numbers| == 0 then Failure(ZeroDivision) else Success(Sum(numbers) / |numbers| as real)
  }

  lemma {:induction false} SumAtLeast(s: seq<real>, b: real)
    requires forall i :: 0 <= i < |s| ==> b <= s[i]
    ensures |s| as real * b <= Sum(s)
  {
    if s != [] {
      SumAtLeast(s[..|s| - 1], b);
      assert (|s| - 1) as real * b + b == |s| as real * b;
    }
  }

  lemma {:induction false} SumAtMost(s: seq<real>, b: real)
    requires forall i :: 0 <= i < |s| ==> s[i] <= b
    ensures Sum(s) <= |s| as real * b
  {
    if s != [] {
      SumAtMost(s[..|s| - 1], b);
      assert (|s| - 1) as real * b + b == |s| as real * b;
    }
  }

  /** The mean of a non-empty list lies between any lower and any upper bound of its
      elements, so between its minimum and its maximum. */
  lemma MeanBetween(s: seq<real>, lo: real, hi: real)
    requires |s| > 0
    requires forall i :: 0 <= i < |s| ==> lo <= s[i] <= hi
    ensures lo <= Mean(s).value <= hi
  {
    SumAtLeast(s, lo);
    SumAtMost(s, hi);
    var n := |s| as real;
    assert Mean(s).value * n == Sum(s);
  }

  lemma {:induction false} SumOfCopies(n: nat, c: real)
    ensures Sum(seq(n, _ => c)) == n as real * c
  {
    if n > 0 {
      SumOfCopies(n - 1, c);
      assert seq(n, _ => c)[..n - 1] == seq(n - 1, _ => c);
    }
  }

  /** The mean of n >= 1 copies of c is c. */
  lemma MeanOfCopies(n: nat, c: real)
    requires n >= 1
    ensures Mean(seq(n, _ => c)) == Success(c)
  {
    SumOfCopies(n, c);
    assert n as real * c / n as real == c;
  }

  /** The order `sorted` uses on numbers. */
  function NumberLe(): (real, real) -> bool {
    (a: real, b: real) => a <= b
  }

  lemma NumberLeIsTotalPreorder()
    ensures TotalPreorder(NumberLe())
  {
  }

  /** Python's int() of a float: truncation toward zero. */
  function Truncate(x: real): int {
    if x >= 0.0 then x.Floor else -((-x).Floor)
  }

  /** The index percentile computes: int(count * percentage / 100). */
  function PercentileIndex(count: nat, percentage: real): int {
    Truncate(count as real * percentage / 100.0)
  }

  /** s[idx] with Python's indexing: a negative index counts from the end. */
  function AtPythonIndex<T>(s: seq<T>, idx: int): (r: Result<T>)
    ensures r.Success? <==> -|s| <= idx < |s|
    ensures r.Success? ==> r.value in s
    ensures 0 <= idx < |s| ==> r == Success(s[idx])
  {
    if 0 <= idx < |s| then Success(s[idx])
    else if -|s| <= idx < 0 then Success(s[|s| + idx])
    else Failure(IndexOutOfRange)
  }

  /** percentile(numbers, percentage): the element of the sorted copy at the truncated index. */
  function Percentile(numbers: seq<real>, percentage: real): Result<real> {
    AtPythonIndex(Sort(numbers, NumberLe()), PercentileIndex(|numbers|, percentage))
  }

  /** median(numbers) = percentile(numbers, 50). */
  function Median(numbers: seq<real>): Result<real> {
    Percentile(numbers, 50.0)
  }

  /** For a non-negative percentage the truncation is a floor and the index is non-negative. */
  lemma PercentileIndexFloor(count: nat, percentage: real)
    requires percentage >= 0.0
    ensures PercentileIndex(count, percentage) == (count as real * percentage / 100.0).Floor
    ensures PercentileIndex(count, percentage) >= 0
  {
    assert count as real * percentage >= 0.0;
  }

  /** For a non-negative percentage, percentile picks index floor(count * percentage / 100)
      of the sorted copy, and fails exactly when that index is not below the count. */
  lemma PercentileAt(numbers: seq<real>, percentage: real)
    requires percentage >= 0.0
    ensures var idx := (|numbers| as real * percentage / 100.0).Floor;
      && idx >= 0
      && (Percentile(numbers, percentage).Failure? <==> idx >= |numbers|)
      && (idx < |numbers| ==> Percentile(numbers, percentage) == Success(Sort(numbers, NumberLe())[idx]))
  {
    PercentileIndexFloor(|numbers|, percentage);
  }

  /** Percentage 100 is always out of range, as is any percentage on an empty list. */
  lemma PercentileFails(numbers: seq<real>, percentage: real)
    requires percentage == 100.0 || (numbers == [] && percentage >= 0.0)
    ensures Percentile(numbers, percentage) == Failure(IndexOutOfRange)
  {
    PercentileIndexFloor(|numbers|, percentage);
    if percentage == 100.0 {
      assert |numbers| as real * percentage / 100.0 == |numbers| as real;
    }
  }

  /** Whatever percentile returns is an element of the list. */
  lemma PercentileMember(numbers: seq<real>, percentage: real)
    requires Percentile(numbers, percentage).Success?
    ensures Percentile(numbers, percentage).value in numbers
  {
    NumberLeIsTotalPreorder();
    SortMembers(numbers, NumberLe());
  }

  lemma PercentileIndexMonotone(count: nat, p1: real, p2: real)
    requires 0.0 <= p1 <= p2
    ensures 0 <= PercentileIndex(count, p1) <= PercentileIndex(count, p2)
  {
    var n := count as real;
    assert n * p1 <= n * p2 by {
      assert n * (p2 - p1) >= 0.0;
      assert n * p2 - n * p1 == n * (p2 - p1);
    }
    var x, y := n * p1 / 100.0, n * p2 / 100.0;
    assert x <= y;
    PercentileIndexFloor(count, p1);
    PercentileIndexFloor(count, p2);
    assert x.Floor as real <= x && y < y.Floor as real + 1.0;
  }

  /** For non-negative percentages the percentile does not decrease as the percentage grows. */
  lemma PercentileMonotone(numbers: seq<real>, p1: real, p2: real)
    requires 0.0 <= p1 <= p2
    requires Percentile(numbers, p2).Success?
    ensures Percentile(numbers, p1).Success?
    ensures Percentile(numbers, p1).value <= Percentile(numbers, p2).value
  {
    NumberLeIsTotalPreorder();
    var sorted := Sort(numbers, NumberLe());
    SortFacts(numbers, NumberLe());
    PercentileIndexMonotone(|numbers|, p1, p2);
    var i1 := PercentileIndex(|numbers|, p1);
    var i2 := PercentileIndex(|numbers|, p2);
    assert 0 <= i1 <= i2 < |sorted|;
    if i1 < i2 {
      assert NumberLe()(sorted[i1], sorted[i2]);
    }
  }

  lemma HalfIndex(n: nat)
    ensures PercentileIndex(n, 50.0) == n / 2
  {
    var x := n as real * 50.0 / 100.0;
    var q := n / 2;
    assert x == q as real + (n % 2) as real / 2.0;
    assert q as real <= x < q as real + 1.0;
  }

  /** The median of a non-empty list is the element at index count // 2 of its sorted copy. */
  lemma MedianAt(numbers: seq<real>)
    requires |numbers| > 0
    ensures Median(numbers) == Success(Sort(numbers, NumberLe())[|numbers| / 2])
  {
    HalfIndex(|numbers|);
  }
}
