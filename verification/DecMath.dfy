/**
 * Order statistics and means of fixed-point decimals (`util/decmath`). A `LegacyDec` is the integer
 * number of its units of 10^-18; `QuoInt64` truncates toward zero and `Mul` rounds half to even.
 */
module DecMath {
  import opened Machine

  const PRECISION: nat := 1_000_000_000_000_000_000

  datatype Result = Ok(value: Dec) | ErrEmptyList | ErrSqrt

  // ----- Arithmetic -----

  function QuoInt64(a: Dec, n: nat): Dec
    requires n > 0
  {
    if a >= 0 then a / n else -(-a / n)
  }

  function Abs(a: Dec): nat {
    if a >= 0 then a else -a
  }

  /** Division by 10^18, rounding to the nearest and ties to the even quotient. */
  function ChopAndRound(p: nat): nat {
    var q, r := p / PRECISION, p % PRECISION;
    if 2 * r < PRECISION || (2 * r == PRECISION && q % 2 == 0) then q else q + 1
  }

  /** `d.Abs().Power(2)`: one rounded product, then a product with 1, which is exact. */
  function Square(d: Dec): nat {
    ChopAndRound(ChopAndRound(Abs(d) * Abs(d)) * PRECISION)
  }

  lemma DivBounds(a: nat, n: nat)
    requires n > 0
    ensures n * (a / n) <= a <= n * (a / n) + (n - 1)
  {
  }

  lemma NegateProduct(n: nat, q: int)
    ensures n * -q == -(n * q)
  {
  }

  /** Truncation loses less than one unit of the divisor, toward zero. */
  lemma QuoBounds(a: Dec, n: nat)
    requires n > 0
    ensures var p := n * QuoInt64(a, n);
            if a >= 0 then p <= a <= p + (n - 1) else p - (n - 1) <= a <= p
  {
    if a >= 0 {
      DivBounds(a, n);
    } else {
      DivBounds(-a, n);
      NegateProduct(n, -a / n);
    }
  }

  /** A truncated quotient keeps integer bounds on the exact one. */
  lemma QuoBetween(a: Dec, n: nat, lo: Dec, hi: Dec)
    requires n > 0 && n * lo <= a <= n * hi
    ensures lo <= QuoInt64(a, n) <= hi
  {
    QuoBounds(a, n);
    hide QuoInt64;
    var q := QuoInt64(a, n);
    if q < lo {
      Scale(n, q + 1, lo);
    } else if q > hi {
      Scale(n, hi + 1, q);
    }
  }

  lemma Scale(n: nat, a: int, b: int)
    requires a <= b
    ensures n * a <= n * b && n * a == n * (a - 1) + n && n * b == n * (b - 1) + n
  {
  }

  // ----- Sorting -----

  ghost predicate Sorted(s: seq<Dec>) {
    forall i, j :: 0 <= i <= j < |s| ==> s[i] <= s[j]
  }

  function Insert(s: seq<Dec>, x: Dec): seq<Dec> {
    if s == [] || s[|s| - 1] <= x then s + [x] else Insert(s[..|s| - 1], x) + [s[|s| - 1]]
  }

  function Sort(s: seq<Dec>): seq<Dec> {
    if s == [] then [] else Insert(Sort(s[..|s| - 1]), s[|s| - 1])
  }

  lemma LastGreatest(s: seq<Dec>, y: Dec)
    requires Sorted(s) && y in multiset(s)
    ensures s != [] && y <= s[|s| - 1]
  {
    assert y in s;
  }

  lemma InsertLast(s: seq<Dec>, last: Dec)
    requires Sorted(s) && (s == [] || s[|s| - 1] <= last)
    ensures Sorted(s + [last])
  {
  }

  lemma {:induction false} InsertElements(s: seq<Dec>, x: Dec)
    ensures multiset(Insert(s, x)) == multiset(s) + multiset{x}
  {
    if s != [] && s[|s| - 1] > x {
      var rest := s[..|s| - 1];
      assert s == rest + [s[|s| - 1]];
      InsertElements(rest, x);
    }
  }

  /** A list of the elements of `rest` and `x` stays below their bound, at its end for one. */
  lemma LastBelow(r: seq<Dec>, rest: seq<Dec>, x: Dec, bound: Dec)
    requires multiset(r) == multiset(rest) + multiset{x}
    requires x <= bound && forall i :: 0 <= i < |rest| ==> rest[i] <= bound
    ensures r != [] ==> r[|r| - 1] <= bound
  {
    if r != [] {
      assert r[|r| - 1] in multiset(r);
      assert r[|r| - 1] == x || r[|r| - 1] in rest;
    }
  }

  lemma {:induction false} InsertSorted(s: seq<Dec>, x: Dec)
    requires Sorted(s)
    ensures Sorted(Insert(s, x))
  {
    if s == [] || s[|s| - 1] <= x {
      InsertLast(s, x);
    } else {
      var rest, last := s[..|s| - 1], s[|s| - 1];
      InsertElements(rest, x);
      InsertSorted(rest, x);
      LastBelow(Insert(rest, x), rest, x, last);
      InsertLast(Insert(rest, x), last);
    }
  }

  lemma {:induction false} SortSorts(s: seq<Dec>)
    ensures Sorted(Sort(s)) && multiset(Sort(s)) == multiset(s) && |Sort(s)| == |s|
  {
    if s != [] {
      SortSorts(s[..|s| - 1]);
      InsertSorted(Sort(s[..|s| - 1]), s[|s| - 1]);
      InsertElements(Sort(s[..|s| - 1]), s[|s| - 1]);
      assert s == s[..|s| - 1] + [s[|s| - 1]];
    }
    assert |multiset(Sort(s))| == |multiset(s)|;
  }

  lemma Cancel(u: seq<Dec>, v: seq<Dec>, x: Dec)
    requires multiset(u + [x]) == multiset(v + [x])
    ensures multiset(u) == multiset(v)
  {
    assert multiset(u) == multiset(u + [x]) - multiset{x};
    assert multiset(v) == multiset(v + [x]) - multiset{x};
  }

  lemma SameLast(s: seq<Dec>, t: seq<Dec>)
    requires Sorted(s) && Sorted(t) && multiset(s) == multiset(t) && s != []
    ensures t != [] && s[|s| - 1] == t[|t| - 1]
  {
    hide Sorted;
    assert s[|s| - 1] in multiset(s);
    LastGreatest(t, s[|s| - 1]);
    assert t[|t| - 1] in multiset(t);
    LastGreatest(s, t[|t| - 1]);
  }

  /** Only one sorted list has given elements, so the sorting algorithm does not matter. */
  lemma {:induction false} SortedUnique(s: seq<Dec>, t: seq<Dec>)
    requires Sorted(s) && Sorted(t) && multiset(s) == multiset(t)
    ensures s == t
  {
    if s == [] {
      assert |multiset(t)| == 0;
    } else {
      SameLast(s, t);
      var x, u, v := s[|s| - 1], s[..|s| - 1], t[..|t| - 1];
      assert Sorted(u) && Sorted(v);
      hide Sorted;
      assert s == u + [x] && t == v + [x];
      Cancel(u, v, x);
      SortedUnique(u, v);
    }
  }

  lemma SortOrderFree(s: seq<Dec>, t: seq<Dec>)
    requires multiset(s) == multiset(t)
    ensures Sort(s) == Sort(t)
  {
    SortSorts(s);
    SortSorts(t);
    SortedUnique(Sort(s), Sort(t));
  }

  lemma {:induction false} InsertAt(s: seq<Dec>, x: Dec, j: nat)
    requires j <= |s| && Sorted(s)
    requires j > 0 ==> s[j - 1] <= x
    requires j < |s| ==> x < s[j]
    ensures Insert(s, x) == s[..j] + [x] + s[j..]
  {
    if j < |s| {
      var t := s[..|s| - 1];
      assert s[j] <= s[|s| - 1] && Sorted(t);
      hide Sorted;
      InsertAt(t, x, j);
      Regroup(s, x, j);
    } else {
      assert s[..j] == s && s[j..] == [];
    }
  }

  lemma Regroup(s: seq<Dec>, x: Dec, j: nat)
    requires j < |s|
    ensures var t := s[..|s| - 1];
            t[..j] + [x] + t[j..] + [s[|s| - 1]] == s[..j] + [x] + s[j..]
  {
  }

  /** Moves `a[n]` to its place in the sorted part before it. */
  method InsertInto(a: array<Dec>, n: nat)
    requires n < a.Length && Sorted(a[..n])
    modifies a
    ensures a[..n + 1] == Insert(old(a[..n]), old(a[n]))
    ensures a[n + 1..] == old(a[n + 1..])
  {
    ghost var s := a[..n];
    var x := a[n];
    var j := n;
    while j > 0 && a[j - 1] > x
      invariant 0 <= j <= n
      invariant forall k :: 0 <= k < j ==> a[k] == s[k]
      invariant forall k :: j < k <= n ==> a[k] == s[k - 1]
      invariant forall k :: n < k < a.Length ==> a[k] == old(a[k])
      invariant j < n ==> x < s[j]
    {
      a[j] := a[j - 1];
      j := j - 1;
    }
    a[j] := x;
    InsertAt(s, x, j);
    hide Insert;
    assert a[..n + 1] == s[..j] + [x] + s[j..];
  }

  lemma SortStep(s: seq<Dec>, n: nat)
    requires n < |s|
    ensures Sort(s[..n + 1]) == Insert(Sort(s[..n]), s[n])
    ensures Sorted(Sort(s[..n])) && |Sort(s[..n])| == n
  {
    assert s[..n + 1][..n] == s[..n];
    SortSorts(s[..n]);
  }

  /** `sort.Slice` with the order of `BigInt().Cmp`. */
  method SortSlice(a: array<Dec>)
    modifies a
    ensures a[..] == Sort(old(a[..]))
  {
    ghost var was := a[..];
    assert was[..0] == [];
    for n := 0 to a.Length
      invariant a[..n] == Sort(was[..n]) && a[n..] == was[n..]
    {
      SortStep(was, n);
      hide Sort, Insert, Sorted;
      assert a[n] == a[n..][0] && a[n + 1..] == a[n..][1..] && was[n + 1..] == was[n..][1..];
      InsertInto(a, n);
    }
    assert was[..a.Length] == was && a[..a.Length] == a[..];
  }

  // ----- Median -----

  /** The middle of a sorted list, or the truncated mean of its two middles. */
  function Middle(t: seq<Dec>): Dec
    requires t != []
  {
    if |t| % 2 == 0 then QuoInt64(t[|t| / 2 - 1] + t[|t| / 2], 2) else t[|t| / 2]
  }

  function MedianOf(s: seq<Dec>): Dec
    requires s != []
  {
    SortSorts(s);
    Middle(Sort(s))
  }

  /** Sorts the caller's slice and returns its median. */
  method Median(ds: array<Dec>) returns (r: Result)
    modifies ds
    ensures ds[..] == Sort(old(ds[..]))
    ensures r == if ds.Length == 0 then ErrEmptyList else Ok(MedianOf(old(ds[..])))
  {
    if ds.Length == 0 {
      return ErrEmptyList;
    }
    SortSorts(ds[..]);
    assert MedianOf(ds[..]) == Middle(Sort(ds[..]));
    hide Sort, Sorted, MedianOf, QuoInt64;
    SortSlice(ds);
    if ds.Length % 2 == 0 {
      return Ok(QuoInt64(ds[ds.Length / 2 - 1] + ds[ds.Length / 2], 2));
    }
    return Ok(ds[ds.Length / 2]);
  }

  /** The median is the middle price, or between two middles their mean, truncated toward zero. */
  lemma MedianExact(s: seq<Dec>, t: seq<Dec>)
    requires s != [] && Sorted(t) && multiset(t) == multiset(s)
    ensures |t| == |s|
    ensures |s| % 2 == 1 ==> MedianOf(s) == t[|t| / 2]
    ensures |s| % 2 == 0 ==>
              var sum, m := t[|t| / 2 - 1] + t[|t| / 2], MedianOf(s);
              if sum >= 0 then 2 * m <= sum <= 2 * m + 1 else 2 * m - 1 <= sum <= 2 * m
  {
    SortSorts(s);
    SortedUnique(Sort(s), t);
    assert |multiset(t)| == |multiset(s)|;
    if |t| % 2 == 0 {
      QuoBounds(t[|t| / 2 - 1] + t[|t| / 2], 2);
    }
  }

  lemma MedianOrderFree(s: seq<Dec>, t: seq<Dec>)
    requires multiset(s) == multiset(t) && s != [] && t != []
    ensures MedianOf(s) == MedianOf(t)
  {
    SortOrderFree(s, t);
  }

  /** Between the two middles of a sorted list, which coincide if its length is odd. */
  predicate Central(t: seq<Dec>, c: Dec)
    requires t != []
  {
    t[(|t| - 1) / 2] <= c <= t[|t| / 2]
  }

  lemma MiddleCentral(t: seq<Dec>)
    requires Sorted(t) && t != []
    ensures Central(t, Middle(t))
  {
    if |t| % 2 == 0 {
      var lo, hi := t[|t| / 2 - 1], t[|t| / 2];
      assert lo <= hi;
      QuoBetween(lo + hi, 2, lo, hi);
    }
  }

  /** The sum of what each element weighs. */
  function Total(w: Dec -> int, s: seq<Dec>): int {
    if s == [] then 0 else Total(w, s[..|s| - 1]) + w(s[|s| - 1])
  }

  lemma {:induction false} TotalInsert(w: Dec -> int, s: seq<Dec>, x: Dec)
    ensures Total(w, Insert(s, x)) == Total(w, s) + w(x)
  {
    if s == [] || s[|s| - 1] <= x {
      assert (s + [x])[..|s|] == s;
    } else {
      var t := Insert(s[..|s| - 1], x);
      TotalInsert(w, s[..|s| - 1], x);
      assert (t + [s[|s| - 1]])[..|t|] == t;
    }
  }

  lemma {:induction false} TotalSort(w: Dec -> int, s: seq<Dec>)
    ensures Total(w, Sort(s)) == Total(w, s)
  {
    if s != [] {
      TotalSort(w, s[..|s| - 1]);
      TotalInsert(w, Sort(s[..|s| - 1]), s[|s| - 1]);
    }
  }

  lemma TotalOrderFree(w: Dec -> int, s: seq<Dec>, t: seq<Dec>)
    requires multiset(s) == multiset(t)
    ensures Total(w, s) == Total(w, t) && |s| == |t|
  {
    SortOrderFree(s, t);
    TotalSort(w, s);
    TotalSort(w, t);
    assert |multiset(s)| == |multiset(t)|;
  }

  lemma {:induction false} TotalCons(w: Dec -> int, x: Dec, s: seq<Dec>)
    ensures Total(w, [x] + s) == w(x) + Total(w, s)
  {
    if s == [] {
      assert [x] + s == [x] && [x][..0] == [];
    } else {
      TotalCons(w, x, s[..|s| - 1]);
      assert ([x] + s)[..|s|] == [x] + s[..|s| - 1];
    }
  }

  function Distance(c: Dec): Dec -> int {
    d => Abs(d - c)
  }

  /** The sum of absolute deviations from `c`. */
  function Deviation(s: seq<Dec>, c: Dec): int {
    Total(Distance(c), s)
  }

  /** Taking the least and the greatest element off a sorted list. */
  lemma DeviationPeel(t: seq<Dec>, c: Dec)
    requires |t| >= 2
    ensures Deviation(t, c) == Abs(t[0] - c) + Deviation(t[1..|t| - 1], c) + Abs(t[|t| - 1] - c)
  {
    var u := t[..|t| - 1];
    assert u == [t[0]] + t[1..|t| - 1];
    TotalCons(Distance(c), t[0], t[1..|t| - 1]);
  }

  lemma DeviationOne(x: Dec, c: Dec)
    ensures Deviation([x], c) == Abs(x - c)
  {
    TotalCons(Distance(c), x, []);
    assert [x] + [] == [x];
  }

  /** A central point deviates no more than any other, and strictly less than any that is not central. */
  lemma {:induction false} CentralLeast(t: seq<Dec>, m: Dec, c: Dec)
    requires Sorted(t) && t != [] && Central(t, m)
    ensures if Central(t, c) then Deviation(t, m) == Deviation(t, c) else Deviation(t, m) < Deviation(t, c)
    decreases |t|
  {
    if |t| == 1 {
      assert t == [t[0]];
      DeviationOne(t[0], m);
      DeviationOne(t[0], c);
    } else {
      DeviationPeel(t, m);
      DeviationPeel(t, c);
      assert t[0] <= t[(|t| - 1) / 2] && t[|t| / 2] <= t[|t| - 1];
      var u := t[1..|t| - 1];
      if u != [] {
        assert u[(|u| - 1) / 2] == t[(|t| - 1) / 2] && u[|u| / 2] == t[|t| / 2];
        CentralLeast(u, m, c);
      }
    }
  }

  /** The median minimises the sum of absolute deviations over all decimals; so does exactly the central interval. */
  lemma MedianMinimises(s: seq<Dec>, c: Dec)
    requires s != []
    ensures Deviation(s, MedianOf(s)) <= Deviation(s, c)
    ensures Deviation(s, MedianOf(s)) == Deviation(s, c) <==> |Sort(s)| > 0 && Central(Sort(s), c)
  {
    SortSorts(s);
    MiddleCentral(Sort(s));
    CentralLeast(Sort(s), MedianOf(s), c);
    TotalSort(Distance(MedianOf(s)), s);
    TotalSort(Distance(c), s);
  }

  // ----- Extremes -----

  ghost predicate IsMax(s: seq<Dec>, m: Dec) {
    m in s && forall i :: 0 <= i < |s| ==> s[i] <= m
  }

  ghost predicate IsMin(s: seq<Dec>, m: Dec) {
    m in s && forall i :: 0 <= i < |s| ==> m <= s[i]
  }

  method Max(ds: seq<Dec>) returns (r: Result)
    ensures if ds == [] then r == ErrEmptyList else r.Ok? && IsMax(ds, r.value)
  {
    if |ds| == 0 {
      return ErrEmptyList;
    }
    var max := ds[0];
    for i := 1 to |ds|
      invariant IsMax(ds[..i], max)
    {
      if ds[i] > max {
        max := ds[i];
      }
      assert ds[..i + 1] == ds[..i] + [ds[i]];
    }
    assert ds[..|ds|] == ds;
    return Ok(max);
  }

  method Min(ds: seq<Dec>) returns (r: Result)
    ensures if ds == [] then r == ErrEmptyList else r.Ok? && IsMin(ds, r.value)
  {
    if |ds| == 0 {
      return ErrEmptyList;
    }
    var min := ds[0];
    for i := 1 to |ds|
      invariant IsMin(ds[..i], min)
    {
      if ds[i] < min {
        min := ds[i];
      }
      assert ds[..i + 1] == ds[..i] + [ds[i]];
    }
    assert ds[..|ds|] == ds;
    return Ok(min);
  }

  lemma MedianBetween(s: seq<Dec>, lo: Dec, hi: Dec)
    requires s != [] && IsMin(s, lo) && IsMax(s, hi)
    ensures lo <= MedianOf(s) <= hi
  {
    SortSorts(s);
    var t := Sort(s);
    MiddleCentral(t);
    assert t[(|t| - 1) / 2] in multiset(s) && t[|t| / 2] in multiset(s);
  }

  // ----- Average -----

  function Sum(s: seq<Dec>): int {
    Total(d => d, s)
  }

  lemma {:induction false} SumBetween(s: seq<Dec>, lo: Dec, hi: Dec)
    requires forall i :: 0 <= i < |s| ==> lo <= s[i] <= hi
    ensures |s| * lo <= Sum(s) <= |s| * hi
  {
    if s != [] {
      SumBetween(s[..|s| - 1], lo, hi);
      assert |s| * lo == (|s| - 1) * lo + lo && |s| * hi == (|s| - 1) * hi + hi;
    }
  }

  function AverageOf(s: seq<Dec>): Dec
    requires s != []
  {
    QuoInt64(Sum(s), |s|)
  }

  method Average(ds: seq<Dec>) returns (r: Result)
    ensures r == if ds == [] then ErrEmptyList else Ok(AverageOf(ds))
  {
    if |ds| == 0 {
      return ErrEmptyList;
    }
    var sumPrices := 0;
    for i := 0 to |ds|
      invariant sumPrices == Sum(ds[..i])
    {
      sumPrices := sumPrices + ds[i];
      assert ds[..i + 1][..i] == ds[..i];
    }
    assert ds[..|ds|] == ds;
    return Ok(QuoInt64(sumPrices, |ds|));
  }

  /** For prices of any sign: between the extremes, and less than one unit of last place a price away from the sum. */
  lemma AverageBounds(s: seq<Dec>, lo: Dec, hi: Dec)
    requires s != [] && IsMin(s, lo) && IsMax(s, hi)
    ensures lo <= AverageOf(s) <= hi
    ensures Abs(Sum(s) - |s| * AverageOf(s)) <= |s| - 1
  {
    SumBetween(s, lo, hi);
    QuoBetween(Sum(s), |s|, lo, hi);
    QuoBounds(Sum(s), |s|);
  }

  /** It is the exact mean truncated toward zero. */
  lemma AverageTruncates(s: seq<Dec>)
    requires s != []
    ensures var n, p := |s|, |s| * AverageOf(s);
            if Sum(s) >= 0 then p <= Sum(s) <= p + (n - 1) else p - (n - 1) <= Sum(s) <= p
  {
    hide QuoInt64, Sum;
    QuoBounds(Sum(s), |s|);
  }

  lemma AverageOrderFree(s: seq<Dec>, t: seq<Dec>)
    requires multiset(s) == multiset(t) && s != [] && t != []
    ensures AverageOf(s) == AverageOf(t)
  {
    TotalOrderFree(d => d, s, t);
  }

  // ----- Median deviation -----

  function Squared(median: Dec): Dec -> int {
    d => Square(d - median)
  }

  /** A price's share of the variance: its square divided by `n` and truncated, before it is added. */
  function Share(median: Dec, n: nat): Dec -> int
    requires n > 0
  {
    d => QuoInt64(Square(d - median), n)
  }

  function Variance(median: Dec, s: seq<Dec>): int
    requires s != []
  {
    Total(Share(median, |s|), s)
  }

  /** `approxSqrt` is the library's square root, or its failure. */
  method MedianDeviation(median: Dec, ds: seq<Dec>, approxSqrt: Dec -> Result) returns (r: Result)
    ensures r == if ds == [] then ErrEmptyList else approxSqrt(Variance(median, ds))
  {
    if |ds| == 0 {
      return ErrEmptyList;
    }
    var variance := 0;
    for i := 0 to |ds|
      invariant variance == Total(Share(median, |ds|), ds[..i])
    {
      variance := variance + QuoInt64(Square(ds[i] - median), |ds|);
      assert ds[..i + 1][..i] == ds[..i];
    }
    assert ds[..|ds|] == ds;
    return approxSqrt(variance);
  }

  lemma BoundsStep(n: nat, k: nat, v: int, total: int, q: int, x: int)
    requires n * v <= total <= n * v + k * (n - 1)
    requires n * q <= x <= n * q + (n - 1)
    ensures n * (v + q) <= total + x <= n * (v + q) + (k + 1) * (n - 1)
  {
  }

  lemma {:induction false} SharesBounds(median: Dec, s: seq<Dec>, n: nat)
    requires n > 0
    ensures var v := Total(Share(median, n), s);
            n * v <= Total(Squared(median), s) <= n * v + |s| * (n - 1)
  {
    hide Square, QuoInt64;
    if s != [] {
      var rest, x := s[..|s| - 1], Square(s[|s| - 1] - median);
      SharesBounds(median, rest, n);
      QuoBounds(x, n);
      var v, total := Total(Share(median, n), rest), Total(Squared(median), rest);
      assert Total(Share(median, n), s) == v + QuoInt64(x, n) && Total(Squared(median), s) == total + x;
      hide *;
      BoundsStep(n, |rest|, v, total, QuoInt64(x, n), x);
    }
  }

  /** Dividing before adding loses at most n - 1 units of last place for each of the n prices. */
  lemma VarianceBounds(median: Dec, s: seq<Dec>)
    requires s != []
    ensures var n, squares := |s|, Total(Squared(median), s);
            n * Variance(median, s) <= squares <= n * Variance(median, s) + n * (n - 1)
  {
    SharesBounds(median, s, |s|);
  }

  lemma {:induction false} SharesExact(median: Dec, s: seq<Dec>, n: nat, q: seq<int>)
    requires n > 0 && |q| == |s|
    requires forall i :: 0 <= i < |s| ==> n * q[i] <= Square(s[i] - median) < n * q[i] + n
    ensures Total(Share(median, n), s) == Sum(q)
    decreases |s|
  {
    hide Square, QuoInt64;
    if s != [] {
      var k := |s| - 1;
      SharesExact(median, s[..k], n, q[..k]);
      QuoUnique(Square(s[k] - median), n, q[k]);
    }
  }

  lemma QuoUnique(x: nat, n: nat, q: int)
    requires n > 0 && n * q <= x < n * q + n
    ensures QuoInt64(x, n) == q
  {
    var r := QuoInt64(x, n);
    QuoBounds(x, n);
    if r < q {
      Scale(n, r + 1, q);
    } else if q < r {
      Scale(n, q + 1, r);
    }
  }

  /** The variance adds up the squares after each of them was divided by the number of prices and truncated. */
  lemma VarianceExact(median: Dec, s: seq<Dec>, q: seq<int>)
    requires s != [] && |q| == |s|
    requires forall i :: 0 <= i < |s| ==> |s| * q[i] <= Square(s[i] - median) < |s| * q[i] + |s|
    ensures Variance(median, s) == Sum(q)
  {
    SharesExact(median, s, |s|, q);
  }

  /** Rounding a square to 18 decimals gives the nearest unit, and of two equally near the even one. */
  lemma SquareAccurate(d: Dec)
    ensures 2 * Abs(Square(d) * PRECISION - d * d) <= PRECISION
    ensures 2 * Abs(Square(d) * PRECISION - d * d) == PRECISION ==> Square(d) % 2 == 0
  {
    var p := Abs(d) * Abs(d);
    assert p == d * d;
    ChopExact(ChopAndRound(p));
    ChopAccurate(p);
  }

  lemma ChopExact(q: nat)
    ensures ChopAndRound(q * PRECISION) == q
  {
  }

  lemma ChopAccurate(p: nat)
    ensures 2 * Abs(ChopAndRound(p) * PRECISION - p) <= PRECISION
    ensures 2 * Abs(ChopAndRound(p) * PRECISION - p) == PRECISION ==> ChopAndRound(p) % 2 == 0
  {
  }

  function Shift(s: seq<Dec>, k: Dec): (r: seq<Dec>)
    ensures |r| == |s| && forall i :: 0 <= i < |s| ==> r[i] == s[i] + k
  {
    seq(|s|, i requires 0 <= i < |s| => s[i] + k)
  }

  lemma {:induction false} SharesShift(median: Dec, s: seq<Dec>, k: Dec, n: nat)
    requires n > 0
    ensures Total(Share(median + k, n), Shift(s, k)) == Total(Share(median, n), s)
    decreases |s|
  {
    if s != [] {
      SharesShift(median, s[..|s| - 1], k, n);
      assert Shift(s, k)[..|s| - 1] == Shift(s[..|s| - 1], k);
    }
  }

  /** The deviation is unchanged when the median and all prices move together. */
  lemma VarianceShift(median: Dec, s: seq<Dec>, k: Dec)
    requires s != []
    ensures Shift(s, k) != [] && Variance(median + k, Shift(s, k)) == Variance(median, s)
  {
    SharesShift(median, s, k, |s|);
  }

  lemma VarianceOrderFree(median: Dec, s: seq<Dec>, t: seq<Dec>)
    requires multiset(s) == multiset(t) && s != [] && t != []
    ensures Variance(median, s) == Variance(median, t)
  {
    TotalOrderFree(Share(median, |s|), s, t);
  }
}
