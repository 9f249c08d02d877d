/**
 The value that assignment3/forkbench.c computes: the divide-and-conquer sum, the count of
 processes, the closed-form check of `main`, and the exact conditions under which the C ints
 do not overflow.
 */
module ForkBench {
  import opened Options
  import opened Int32

  /** Called Result in the C file. */
  datatype Result = Result(sum: int, num: int)

  // `start + (end - start) / 2`; the operands are non-negative wherever the C code gets here.
  function Mid(start: int, end: int): int {
    start + (end - start) / 2
  }

  function Forkbench(start: int, end: int): Result
    decreases if start < end then end - start else 0
  {
    if start >= end then
      Result(start, 1)
    else
      var res1 := Forkbench(start, Mid(start, end));
      var res2 := Forkbench(Mid(start, end) + 1, end);
      Result(res1.sum + res2.sum, res1.num + res2.num + 1)
  }

  /** The reference: the numbers lo..hi added one by one. */
  function RangeSum(lo: int, hi: int): int
    decreases hi - lo
  {
    if lo > hi then 0 else RangeSum(lo, hi - 1) + hi
  }

  lemma {:induction false} RangeSumSplit(lo: int, mid: int, hi: int)
    requires lo <= mid <= hi
    ensures RangeSum(lo, hi) == RangeSum(lo, mid) + RangeSum(mid + 1, hi)
    decreases hi - mid
  {
    if mid < hi {
      RangeSumSplit(lo, mid, hi - 1);
    }
  }

  /** Twice the sum, so that no division is involved. */
  lemma {:induction false} RangeSumGauss(lo: int, hi: int)
    requires lo <= hi + 1
    ensures 2 * RangeSum(lo, hi) == hi * (hi + 1) - lo * (lo + 1) + 2 * lo
    decreases hi - lo + 1
  {
    if lo <= hi {
      RangeSumGauss(lo, hi - 1);
    } else {
      assert hi == lo - 1;
      assert hi * (hi + 1) == lo * lo - lo;
    }
  }

  /** `forkbench` adds up the range and counts 2n - 1 processes for n numbers. */
  lemma {:induction false} ForkbenchIsRangeSum(start: int, end: int)
    requires start <= end
    ensures Forkbench(start, end) == Result(RangeSum(start, end), 2 * (end - start + 1) - 1)
    decreases end - start
  {
    if start < end {
      ForkbenchIsRangeSum(start, Mid(start, end));
      ForkbenchIsRangeSum(Mid(start, end) + 1, end);
      RangeSumSplit(start, Mid(start, end), end);
    }
  }

  // C's integer division by two, truncating towards zero.
  function Half(x: int): int {
    if x >= 0 then x / 2 else -((-x) / 2)
  }

  /** The value `main` compares the sum with. */
  function Expected(start: int, end: int): int {
    Half(end * (end + 1)) - Half(start * (start + 1)) + start
  }

  lemma MulMonotone(a: int, b: int, c: int, d: int)
    requires 0 <= a <= b && 0 <= c <= d
    ensures a * c <= b * d
  {
  }

  // The product of two consecutive integers is even and not negative.
  lemma HalfOfProduct(x: int) returns (k: int)
    ensures x * (x + 1) == 2 * k && k >= 0 && Half(x * (x + 1)) == k
  {
    k := EvenProduct(x);
    if x >= 0 {
      MulMonotone(0, x, 0, x + 1);
    } else {
      MulMonotone(0, -x, 0, -x - 1);
      assert (-x) * (-x - 1) == x * (x + 1);
    }
  }

  lemma EvenProduct(x: int) returns (k: int)
    ensures x * (x + 1) == 2 * k
  {
    var h := x / 2;
    if x == 2 * h {
      k := h * (x + 1);
      assert x * (x + 1) == (2 * h) * (x + 1);
    } else {
      assert x + 1 == 2 * (h + 1);
      k := x * (h + 1);
      assert x * (x + 1) == x * (2 * (h + 1));
    }
  }

  /**
   `main` reports "Correct result" exactly for a non-empty range, and for the inverted ranges
   with end == -start - 1, where the wrong formula meets the wrong sum.
   */
  lemma CheckPassesExactly(start: int, end: int)
    ensures Expected(start, end) == Forkbench(start, end).sum <==> start <= end || start + end == -1
    ensures start <= end ==> Expected(start, end) == RangeSum(start, end)
  {
    var s2 := HalfOfProduct(start);
    var e2 := HalfOfProduct(end);
    if start <= end {
      ForkbenchIsRangeSum(start, end);
      RangeSumGauss(start, end);
    } else {
      ProductZero(end - start, end + start + 1);
      assert (end - start) * (end + start + 1) == 2 * e2 - 2 * s2;
    }
  }

  lemma ProductZero(a: int, b: int)
    requires a < 0
    ensures a * b == 0 <==> b == 0
  {
  }

  /** `forkbench` on C ints: none as soon as one operation overflows. */
  function Forkbench32(start: int, end: int): Option<Result>
    decreases if start < end then end - start else 0
  {
    if start >= end then
      Some(Result(start, 1))
    else
      var mid :- Mid32(start, end);
      var next :- Checked(mid + 1);
      Join32(Forkbench32(start, mid), Forkbench32(next, end))
  }

  function Mid32(start: int, end: int): (mid: Option<int>)
    requires start < end
    ensures mid.Some? ==> mid.value == Mid(start, end) && start <= mid.value < end
  {
    var width :- Checked(end - start);
    Checked(start + width / 2)
  }

  function Join32(res1: Option<Result>, res2: Option<Result>): Option<Result> {
    var r1 :- res1;
    var r2 :- res2;
    var sum :- Checked(r1.sum + r2.sum);
    var children :- Checked(r1.num + r2.num);
    var num :- Checked(children + 1);
    Some(Result(sum, num))
  }

  /** The closed form of `main` on C ints. */
  function Expected32(start: int, end: int): Option<int> {
    var e1 :- Checked(end + 1);
    var e2 :- Checked(end * e1);
    var s1 :- Checked(start + 1);
    var s2 :- Checked(start * s1);
    var d :- Checked(Half(e2) - Half(s2));
    Checked(d + start)
  }

  // More than 2^16 consecutive non-negative numbers have a sum beyond 31 bits.
  lemma ManyTerms(start: int, end: int)
    requires 0 <= start && end - start + 1 > 0x1_0000
    ensures RangeSum(start, end) > MAX
  {
    var n := end - start + 1;
    RangeSumGauss(start, end);
    assert n * (start + end) == end * (end + 1) - start * (start + 1) + 2 * start;
    MulMonotone(0x1_0001, n, 0x1_0000, start + end);
  }

  lemma FewTerms(start: int, end: int)
    requires 0 <= start <= end && RangeSum(start, end) <= MAX
    ensures end - start + 1 <= 0x1_0000
  {
    if end - start + 1 > 0x1_0000 {
      ManyTerms(start, end);
    }
  }

  lemma {:induction false} RangeSumNonNegative(lo: int, hi: int)
    requires 0 <= lo
    ensures RangeSum(lo, hi) >= 0
    decreases hi - lo
  {
    if lo <= hi {
      RangeSumNonNegative(lo, hi - 1);
    }
  }

  /**
   On a non-negative range of C ints, `forkbench` runs without overflow exactly when the sum
   itself is an int, and then it returns that sum and the count of processes.
   */
  lemma {:induction false} Forkbench32Exactly(start: int, end: int)
    requires 0 <= start <= end <= MAX
    ensures Forkbench32(start, end) == SumIfFits(start, end)
    decreases end - start
  {
    if start < end {
      var mid := Forkbench32Step(start, end);
      Forkbench32Exactly(start, mid);
      Forkbench32Exactly(mid + 1, end);
      JoinHalves(start, mid, end);
    } else {
      Forkbench32Leaf(start);
    }
  }

  lemma Forkbench32Leaf(start: int)
    requires 0 <= start <= MAX
    ensures Forkbench32(start, start) == SumIfFits(start, start)
  {
    assert RangeSum(start, start - 1) == 0;
  }

  lemma Forkbench32Step(start: int, end: int) returns (mid: int)
    requires 0 <= start < end <= MAX
    ensures start <= mid < end
    ensures Forkbench32(start, end) == Join32(Forkbench32(start, mid), Forkbench32(mid + 1, end))
  {
    mid := Mid(start, end);
    assert Mid32(start, end) == Some(mid);
  }

  lemma JoinHalves(start: int, mid: int, end: int)
    requires 0 <= start <= mid < end
    ensures Join32(SumIfFits(start, mid), SumIfFits(mid + 1, end)) == SumIfFits(start, end)
  {
    RangeSumSplit(start, mid, end);
    RangeSumNonNegative(start, mid);
    RangeSumNonNegative(mid + 1, end);
    if RangeSum(start, end) <= MAX {
      FewTerms(start, end);
    }
    CombineFits(RangeSum(start, mid), mid - start + 1, RangeSum(mid + 1, end), end - mid);
  }

  // The result for n numbers with the given sum.
  function IfFits(sum: int, n: int): Option<Result> {
    if sum <= MAX then Some(Result(sum, 2 * n - 1)) else None
  }

  // The sum and the process count of a range, if the sum is an int.
  function SumIfFits(start: int, end: int): Option<Result> {
    IfFits(RangeSum(start, end), end - start + 1)
  }

  lemma CombineFits(s1: int, n1: int, s2: int, n2: int)
    requires 0 <= s1 && 0 <= s2 && 1 <= n1 && 1 <= n2
    requires s1 + s2 <= MAX ==> n1 + n2 <= 0x1_0000
    ensures Join32(IfFits(s1, n1), IfFits(s2, n2)) == IfFits(s1 + s2, n1 + n2)
  {
  }

  /**
   The limits of the program on 0 <= start <= end: the closed form of `main` overflows exactly
   beyond 46340, and below that `forkbench` never does; `forkbench` alone is safe up to 65535,
   which is the last end with that property for start == 0.
   */
  lemma OverflowLimits(start: int, end: int)
    requires 0 <= start <= end <= MAX
    ensures Expected32(start, end) == if end <= 46340 then Some(Expected(start, end)) else None
    ensures end <= 65535 ==> Forkbench32(start, end).Some?
    ensures end > 65535 && start == 0 ==> Forkbench32(start, end).None?
  {
    if end <= 46340 {
      ClosedFormInRange(start, end);
    } else {
      ClosedFormOverflows(start, end);
    }
    Forkbench32Exactly(start, end);
    SumAgainstLimit(start, end);
  }

  lemma ClosedFormInRange(start: int, end: int)
    requires 0 <= start <= end <= 46340
    ensures Expected32(start, end) == Some(Expected(start, end))
  {
    var s2 := HalfOfProduct(start);
    var e2 := HalfOfProduct(end);
    MulMonotone(end, 46340, end + 1, 46341);
    MulMonotone(start, end, start + 1, end + 1);
  }

  lemma ClosedFormOverflows(start: int, end: int)
    requires 0 <= start <= end <= MAX && end > 46340
    ensures Expected32(start, end) == None
  {
  }

  lemma SumAgainstLimit(start: int, end: int)
    requires 0 <= start <= end
    ensures end <= 65535 ==> RangeSum(start, end) <= MAX
    ensures end > 65535 && start == 0 ==> RangeSum(start, end) > MAX
  {
    RangeSumGauss(start, end);
    assert start * (start + 1) >= 2 * start by {
      if start > 0 {
        MulMonotone(start, start, 2, start + 1);
      }
    }
    if end <= 65535 {
      MulMonotone(end, 65535, end + 1, 65536);
    } else {
      MulMonotone(65536, end, 65537, end + 1);
    }
  }
}
