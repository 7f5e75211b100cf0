/**
  Nearest-rank percentiles in two forms: from a sorted copy of the samples, and from a bounded
  histogram scanned by cumulative count (scripts/verify_polymarket_shared_events_soak.py,
  scripts/measure_sdk_public_latency.py, scripts/audit_bounded_live.py). A fraction is a rational num/den.
 */
module Percentiles {
  import opened Wrappers

  // ---------- sorting ----------

  ghost predicate Ordered(s: seq<int>) {
    forall i, j :: 0 <= i < j < |s| ==> s[i] <= s[j]
  }

  function Insert(s: seq<int>, x: int): seq<int> {
    if s == [] || x <= s[0] then [x] + s else [s[0]] + Insert(s[1..], x)
  }

  function Sorted(s: seq<int>): seq<int> {
    if s == [] then [] else Insert(Sorted(s[1..]), s[0])
  }

  lemma {:induction false} InsertIsPermutation(s: seq<int>, x: int)
    ensures multiset(Insert(s, x)) == multiset(s) + multiset{x} && |Insert(s, x)| == |s| + 1
  {
    if s != [] && x > s[0] {
      InsertIsPermutation(s[1..], x);
      assert s == [s[0]] + s[1..];
    }
  }

  lemma {:induction false} InsertKeepsOrder(s: seq<int>, x: int)
    requires Ordered(s)
    ensures Ordered(Insert(s, x)) && Insert(s, x) != []
    ensures Insert(s, x)[0] == if s == [] || x <= s[0] then x else s[0]
  {
    if s != [] && x > s[0] {
      InsertKeepsOrder(s[1..], x);
      OrderedCons(s[0], Insert(s[1..], x));
    } else {
      OrderedCons(x, s);
    }
  }

  lemma OrderedCons(x: int, s: seq<int>)
    requires Ordered(s) && (s == [] || x <= s[0])
    ensures Ordered([x] + s)
  {
  }

  lemma {:induction false} SortedIsOrderedPermutation(s: seq<int>)
    ensures Ordered(Sorted(s)) && multiset(Sorted(s)) == multiset(s) && |Sorted(s)| == |s|
  {
    if s != [] {
      SortedIsOrderedPermutation(s[1..]);
      InsertKeepsOrder(Sorted(s[1..]), s[0]);
      InsertIsPermutation(Sorted(s[1..]), s[0]);
      assert s == [s[0]] + s[1..];
    }
  }

  // ---------- percentiles from a sorted copy ----------

  /** The smallest count of samples that reaches the fraction num/den of n, rounded up. */
  function Ceiling(n: nat, num: nat, den: nat): nat
    requires den > 0
  {
    (n * num + den - 1) / den
  }

  function Rank(n: nat, num: nat, den: nat): nat
    requires den > 0
  {
    var r := Ceiling(n, num, den) - 1;
    if r < 0 then 0 else r
  }

  /** The program's percentile; asking for one of no samples is an index error. */
  function Percentile(values: seq<int>, num: nat, den: nat): Option<int>
    requires den > 0
  {
    var ordered := Sorted(values);
    var rank := Rank(|values|, num, den);
    if rank < |ordered| then Some(ordered[rank]) else None
  }

  // ---------- counting ----------

  function CountAtMost(values: seq<int>, m: int): nat {
    if values == [] then 0 else (if values[0] <= m then 1 else 0) + CountAtMost(values[1..], m)
  }

  function CountOf(values: seq<int>, x: int): nat {
    if values == [] then 0 else (if values[0] == x then 1 else 0) + CountOf(values[1..], x)
  }

  lemma {:induction false} CountInsert(s: seq<int>, x: int, m: int)
    ensures CountAtMost(Insert(s, x), m) == (if x <= m then 1 else 0) + CountAtMost(s, m)
  {
    if s == [] || x <= s[0] {
      assert ([x] + s)[1..] == s;
    } else {
      CountInsert(s[1..], x, m);
      assert ([s[0]] + Insert(s[1..], x))[1..] == Insert(s[1..], x);
    }
  }

  lemma {:induction false} CountSorted(values: seq<int>, m: int)
    ensures CountAtMost(Sorted(values), m) == CountAtMost(values, m)
  {
    if values != [] {
      CountSorted(values[1..], m);
      CountInsert(Sorted(values[1..]), values[0], m);
    }
  }

  /** In an ordered sequence the samples at most m are exactly its first CountAtMost entries. */
  lemma {:induction false} CountSplitsOrdered(s: seq<int>, m: int, k: nat)
    requires Ordered(s) && k < |s|
    ensures s[k] <= m <==> k < CountAtMost(s, m)
  {
    if s[0] <= m {
      if k > 0 { CountSplitsOrdered(s[1..], m, k - 1); }
    } else {
      NoneAtMost(s, m);
    }
  }

  lemma {:induction false} NoneAtMost(s: seq<int>, m: int)
    requires forall x :: x in s ==> x > m
    ensures CountAtMost(s, m) == 0
  {
    if s != [] {
      assert s[0] in s && forall x :: x in s[1..] ==> x in s;
      NoneAtMost(s[1..], m);
    }
  }

  lemma ReachesIffCeiling(count: nat, n: nat, num: nat, den: nat)
    requires den > 0
    ensures count * den >= n * num <==> count >= Ceiling(n, num, den)
  {
    var need := n * num;
    var c := (need + den - 1) / den;
    DivisionBounds(need + den - 1, den);
    if count >= c {
      MulMonotone(c, count, den);
    } else {
      MulMonotone(count, c - 1, den);
    }
  }

  lemma DivisionBounds(a: nat, den: nat)
    requires den > 0
    ensures (a / den) * den <= a < (a / den) * den + den
    ensures (a / den - 1) * den == (a / den) * den - den
  {
    var q := a / den;
    assert a == q * den + a % den;
  }

  lemma MulMonotone(a: int, b: int, c: nat)
    requires a <= b
    ensures a * c <= b * c
  {
  }

  lemma CeilingInRange(n: nat, num: nat, den: nat)
    requires n > 0 && 0 < num <= den
    ensures 1 <= Ceiling(n, num, den) <= n
  {
    ReachesIffCeiling(n, n, num, den);
    MulMonotone(num, den, n);
    ReachesIffCeiling(0, n, num, den);
    assert n * num > 0;
  }

  /** A fraction of the samples is at most m exactly when the percentile is. */
  lemma PercentileIffCount(values: seq<int>, num: nat, den: nat, m: int)
    requires values != [] && 0 < num <= den
    ensures Percentile(values, num, den).Some?
    ensures Percentile(values, num, den).value <= m <==> CountAtMost(values, m) * den >= |values| * num
  {
    var ordered := Sorted(values);
    SortedIsOrderedPermutation(values);
    CeilingInRange(|values|, num, den);
    var rank := Rank(|values|, num, den);
    CountSplitsOrdered(ordered, m, rank);
    CountSorted(values, m);
    ReachesIffCeiling(CountAtMost(values, m), |values|, num, den);
  }

  /** The percentile is a sample, and a larger fraction never gives a smaller one. */
  lemma PercentileIsMonotone(values: seq<int>, num: nat, num': nat, den: nat)
    requires values != [] && 0 < num <= num' <= den
    ensures Percentile(values, num, den).Some? && Percentile(values, num', den).Some?
    ensures Percentile(values, num, den).value in values
    ensures Percentile(values, num, den).value <= Percentile(values, num', den).value
  {
    PercentileIffCount(values, num, den, 0);
    PercentileIffCount(values, num', den, 0);
    SortedIsOrderedPermutation(values);
    var high := Percentile(values, num', den).value;
    PercentileIffCount(values, num', den, high);
    MulMonotone(num, num', |values|);
    PercentileIffCount(values, num, den, high);
    assert Percentile(values, num, den).value in multiset(Sorted(values));
  }

  /** The latency summary of a matcher's deltas, in nanoseconds. */
  datatype Summary = Summary(count: nat, p50: int, p95: int, p99: int, min: int, max: int, negative: nat)

  function Distribution(values: seq<int>): Option<Summary> {
    if values == [] then None
    else
      SortedIsOrderedPermutation(values);
      Some(Summarized(Sorted(values)))
  }

  function At(ordered: seq<int>, k: nat): int {
    if k < |ordered| then ordered[k] else 0
  }

  function Summarized(ordered: seq<int>): Summary
    requires ordered != []
  {
    var n := |ordered|;
    Summary(n, At(ordered, Rank(n, 50, 100)), At(ordered, Rank(n, 95, 100)), At(ordered, Rank(n, 99, 100)),
            ordered[0], ordered[n - 1], CountNegative(ordered))
  }

  function CountNegative(values: seq<int>): nat {
    if values == [] then 0 else (if values[0] < 0 then 1 else 0) + CountNegative(values[1..])
  }

  lemma {:induction false} NegativeAtMost(values: seq<int>)
    ensures CountNegative(values) == CountAtMost(values, -1)
  {
    if values != [] { NegativeAtMost(values[1..]); }
  }

  lemma RanksInOrder(n: nat)
    requires n > 0
    ensures Rank(n, 50, 100) <= Rank(n, 95, 100) <= Rank(n, 99, 100) < n
  {
    CeilingInRange(n, 50, 100);
    CeilingInRange(n, 95, 100);
    CeilingInRange(n, 99, 100);
  }

  lemma InOrderAt(ordered: seq<int>, i: nat, j: nat, k: nat)
    requires Ordered(ordered) && i <= j <= k < |ordered|
    ensures ordered[0] <= At(ordered, i) <= At(ordered, j) <= At(ordered, k) <= ordered[|ordered| - 1]
  {
  }

  lemma SummarizedInOrder(ordered: seq<int>)
    requires ordered != [] && Ordered(ordered)
    ensures var d := Summarized(ordered); d.min <= d.p50 <= d.p95 <= d.p99 <= d.max
  {
    var n := |ordered|;
    RanksInOrder(n);
    InOrderAt(ordered, Rank(n, 50, 100), Rank(n, 95, 100), Rank(n, 99, 100));
  }

  lemma SummarizedBounds(ordered: seq<int>)
    requires ordered != [] && Ordered(ordered)
    ensures var d := Summarized(ordered); d.min in ordered && d.max in ordered
    ensures var d := Summarized(ordered); forall x :: x in ordered ==> d.min <= x <= d.max
  {
    forall x | x in ordered
      ensures ordered[0] <= x <= ordered[|ordered| - 1]
    {
      var k: nat :| k < |ordered| && ordered[k] == x;
    }
  }

  /** The quantiles lie in order between the smallest and the largest sample, which bound every sample. */
  lemma SummaryIsOrdered(values: seq<int>)
    requires values != []
    ensures Distribution(values).Some?
    ensures var d := Distribution(values).value;
            && d.min <= d.p50 <= d.p95 <= d.p99 <= d.max
            && d.min in values && d.max in values && forall x :: x in values ==> d.min <= x <= d.max
  {
    var ordered := Sorted(values);
    SortedIsOrderedPermutation(values);
    SummarizedInOrder(ordered);
    SummarizedBounds(ordered);
    SameMembers(ordered, values);
  }

  lemma SameMembers(s: seq<int>, t: seq<int>)
    requires multiset(s) == multiset(t)
    ensures forall x :: x in s <==> x in t
  {
    forall x
      ensures x in s <==> x in t
    {
      assert x in multiset(s) <==> x in multiset(t);
    }
  }

  /** Each quantile of the summary is the percentile of its fraction, and the early arrivals are counted. */
  lemma SummaryIsPercentiles(values: seq<int>)
    requires values != []
    ensures Distribution(values).Some?
    ensures var d := Distribution(values).value;
            && Percentile(values, 50, 100) == Some(d.p50)
            && Percentile(values, 95, 100) == Some(d.p95)
            && Percentile(values, 99, 100) == Some(d.p99)
            && d.count == |values| && d.negative == CountAtMost(values, -1)
  {
    SortedIsOrderedPermutation(values);
    RanksInOrder(|values|);
    NegativeAtMost(Sorted(values));
    CountSorted(values, -1);
  }

  // ---------- the bounded histogram ----------

  const OVERFLOW: nat := 10001

  /** Python's int(): rounds towards zero. */
  function Truncate(x: real): int {
    if x >= 0.0 then x.Floor else -((-x).Floor)
  }

  function Clamp(x: int): nat {
    if x < 0 then 0 else if x > OVERFLOW then OVERFLOW else x
  }

  function Clamped(ages: seq<real>): seq<int> {
    seq(|ages|, i requires 0 <= i < |ages| => Clamp(Truncate(ages[i])))
  }

  /** The sum of the first m counters. */
  function Cumulative(counters: seq<nat>, m: nat): nat
    requires m <= |counters|
  {
    if m == 0 then 0 else Cumulative(counters, m - 1) + counters[m - 1]
  }

  ghost predicate Counts(counters: seq<nat>, values: seq<int>) {
    |counters| == OVERFLOW + 1 && forall b :: 0 <= b <= OVERFLOW ==> counters[b] == CountOf(values, b)
  }

  ghost predicate InRange(values: seq<int>) {
    forall x :: x in values ==> 0 <= x <= OVERFLOW
  }

  lemma {:induction false} CountAppend(values: seq<int>, y: int, x: int)
    ensures CountOf(values + [y], x) == CountOf(values, x) + if x == y then 1 else 0
  {
    if values == [] {
      assert [] + [y] == [y];
    } else {
      CountAppend(values[1..], y, x);
      assert (values + [y])[1..] == values[1..] + [y];
    }
  }

  lemma {:induction false} CountStep(values: seq<int>, m: int)
    ensures CountAtMost(values, m) == CountAtMost(values, m - 1) + CountOf(values, m)
  {
    if values != [] { CountStep(values[1..], m); }
  }

  lemma {:induction false} AllAtMost(values: seq<int>, m: int)
    requires forall x :: x in values ==> x <= m
    ensures CountAtMost(values, m) == |values|
  {
    if values != [] {
      assert values[0] in values && forall x :: x in values[1..] ==> x in values;
      AllAtMost(values[1..], m);
    }
  }

  /** The first m counters together count the samples below m. */
  lemma {:induction false} CumulativeCounts(counters: seq<nat>, values: seq<int>, m: nat)
    requires Counts(counters, values) && InRange(values) && m <= |counters|
    ensures Cumulative(counters, m) == CountAtMost(values, m - 1)
  {
    if m == 0 {
      NoneAtMost(values, -1);
    } else {
      CumulativeCounts(counters, values, m - 1);
      CountStep(values, m - 1);
    }
  }

  class AgeHistogram {
    const ages: array<nat>
    ghost var samples: seq<int>

    /** The counters hold, for every bucket, how many clamped samples fell into it. */
    ghost predicate Valid()
      reads this, ages
    {
      Counts(ages[..], samples) && InRange(samples)
    }

    constructor ()
      ensures Valid() && samples == [] && fresh(ages)
    {
      ages := new nat[OVERFLOW + 1](_ => 0);
      samples := [];
    }

    method Observe(age: real)
      requires Valid()
      modifies this, ages
      ensures Valid() && samples == old(samples) + [Clamp(Truncate(age))]
    {
      var bucket := Clamp(Truncate(age));
      ages[bucket] := ages[bucket] + 1;
      samples := samples + [bucket];
      forall b | 0 <= b <= OVERFLOW
        ensures ages[b] == CountOf(samples, b)
      {
        CountAppend(old(samples), bucket, b);
      }
    }

    method Total() returns (total: nat)
      requires Valid()
      ensures total == |samples|
    {
      total := 0;
      var k := 0;
      while k < ages.Length
        invariant 0 <= k <= ages.Length && total == Cumulative(ages[..], k)
      {
        total := total + ages[k];
        k := k + 1;
      }
      CumulativeCounts(ages[..], samples, k);
      AllAtMost(samples, OVERFLOW);
    }

    /** The first bucket whose cumulative count reaches the fraction is the samples' percentile. */
    method Quantile(total: nat, num: nat, den: nat) returns (bucket: Option<nat>)
      requires Valid() && total == |samples| && 0 < num <= den
      ensures bucket.None? <==> samples == []
      ensures bucket.Some? ==> Percentile(samples, num, den) == Some(bucket.value)
    {
      var cumulative := 0;
      var k := 0;
      if total > 0 {
        PercentileIffCount(samples, num, den, -1);
        NoneAtMost(samples, -1);
        assert 0 < total * num;
      }
      while k < ages.Length
        invariant 0 <= k <= ages.Length && cumulative == Cumulative(ages[..], k)
        invariant total > 0 ==> Percentile(samples, num, den).Some? && Percentile(samples, num, den).value >= k
      {
        cumulative := cumulative + ages[k];
        CumulativeCounts(ages[..], samples, k + 1);
        if total > 0 { PercentileIffCount(samples, num, den, k); }
        if total > 0 && cumulative * den >= total * num {
          return Some(k);
        }
        k := k + 1;
      }
      if total > 0 {
        AllAtMost(samples, OVERFLOW);
        PercentileIffCount(samples, num, den, OVERFLOW);
        MulMonotone(num, den, total);
        assert false;
      }
      return None;
    }
  }

  /** The ages that fall into the last bucket. */
  function Late(ages: seq<real>): nat {
    if ages == [] then 0 else (if ages[0] >= OVERFLOW as real then 1 else 0) + Late(ages[1..])
  }

  lemma {:induction false} OverflowIsLate(ages: seq<real>)
    ensures CountOf(Clamped(ages), OVERFLOW) == Late(ages)
  {
    if ages != [] {
      OverflowIsLate(ages[1..]);
      assert Clamped(ages)[1..] == Clamped(ages[1..]);
    }
  }

  /** Records every age and reads the three quantiles of the report. */
  method Report(ages: seq<real>)
    returns (total: nat, overflow: nat, p50: Option<nat>, p95: Option<nat>, p99: Option<nat>)
    ensures total == |ages| && overflow == Late(ages)
    ensures ages == [] ==> p50.None? && p95.None? && p99.None?
    ensures ages != [] ==> p50.Some? && p95.Some? && p99.Some?
    ensures ages != [] ==> Percentile(Clamped(ages), 50, 100) == Some(p50.value)
    ensures ages != [] ==> Percentile(Clamped(ages), 95, 100) == Some(p95.value)
    ensures ages != [] ==> Percentile(Clamped(ages), 99, 100) == Some(p99.value)
  {
    var histogram := new AgeHistogram();
    var k := 0;
    while k < |ages|
      invariant 0 <= k <= |ages|
      invariant fresh(histogram) && fresh(histogram.ages)
      invariant histogram.Valid() && histogram.samples == Clamped(ages[..k])
    {
      histogram.Observe(ages[k]);
      assert Clamped(ages[..k + 1]) == Clamped(ages[..k]) + [Clamp(Truncate(ages[k]))];
      k := k + 1;
    }
    assert ages[..k] == ages;
    total := histogram.Total();
    p50 := histogram.Quantile(total, 50, 100);
    p95 := histogram.Quantile(total, 95, 100);
    p99 := histogram.Quantile(total, 99, 100);
    overflow := histogram.ages[OVERFLOW];
    OverflowIsLate(ages);
  }
}
