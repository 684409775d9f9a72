/** Metric statistics of the stress renderer (native/wayland_egl_stress.c): sorting,
    percentiles and the average of a sample buffer. Values are exact reals; the product that
    selects a percentile is rounded as the machine does. */
module Percentiles {
  datatype MetricStats = MetricStats(count: nat, avg: real, p50: real, p95: real, p99: real)

  // ---------------------------------------------------------------------- sorting

  ghost predicate IsSorted(s: seq<real>) {
    forall i, j | 0 <= i < j < |s| :: s[i] <= s[j]
  }

  function Insert(x: real, s: seq<real>): (r: seq<real>)
    ensures multiset(r) == multiset(s) + multiset{x}
  {
    if s == [] || x <= s[0] then [x] + s
    else
      assert s == [s[0]] + s[1..];
      [s[0]] + Insert(x, s[1..])
  }

  function Sorted(s: seq<real>): (r: seq<real>)
    ensures |r| == |s| && multiset(r) == multiset(s)
  {
    if s == [] then []
    else
      assert s == [s[0]] + s[1..];
      var r := Insert(s[0], Sorted(s[1..]));
      assert |multiset(r)| == |multiset(s)|;
      r
  }

  lemma {:induction false} InsertSorted(x: real, s: seq<real>)
    requires IsSorted(s)
    ensures IsSorted(Insert(x, s))
  {
    if s != [] && s[0] < x {
      InsertSorted(x, s[1..]);
      var r := Insert(x, s[1..]);
      forall i | 0 <= i < |r| ensures s[0] <= r[i] {
        assert r[i] in multiset(s[1..]) + multiset{x};
      }
    }
  }

  lemma {:induction false} SortedIsSorted(s: seq<real>)
    ensures IsSorted(Sorted(s))
  {
    if s != [] {
      SortedIsSorted(s[1..]);
      InsertSorted(s[0], Sorted(s[1..]));
    }
  }

  /** A sorted list is unchanged by sorting, so sorting again for the next percentile is
      harmless. */
  lemma {:induction false} SortedFixpoint(s: seq<real>)
    requires IsSorted(s)
    ensures Sorted(s) == s
  {
    if s != [] {
      SortedFixpoint(s[1..]);
      assert s == [s[0]] + s[1..];
      if |s| > 1 { assert s[0] <= s[1]; }
    }
  }

  // -------------------------------------------------------------- order statistics

  function CountBelow(s: seq<real>, v: real): (n: nat) {
    if s == [] then 0 else (if s[0] < v then 1 else 0) + CountBelow(s[1..], v)
  }

  function CountUpTo(s: seq<real>, v: real): (n: nat) {
    if s == [] then 0 else (if s[0] <= v then 1 else 0) + CountUpTo(s[1..], v)
  }

  lemma {:induction false} CountsOfInsert(x: real, s: seq<real>, v: real)
    ensures CountBelow(Insert(x, s), v) == CountBelow([x] + s, v)
    ensures CountUpTo(Insert(x, s), v) == CountUpTo([x] + s, v)
  {
    if s != [] && s[0] < x {
      CountsOfInsert(x, s[1..], v);
      assert Insert(x, s)[1..] == Insert(x, s[1..]);
      assert ([x] + s)[1..] == s && ([x] + s[1..])[1..] == s[1..];
    }
  }

  lemma {:induction false} CountsOfSorted(s: seq<real>, v: real)
    ensures CountBelow(Sorted(s), v) == CountBelow(s, v)
    ensures CountUpTo(Sorted(s), v) == CountUpTo(s, v)
  {
    if s != [] {
      CountsOfSorted(s[1..], v);
      CountsOfInsert(s[0], Sorted(s[1..]), v);
      assert ([s[0]] + Sorted(s[1..]))[1..] == Sorted(s[1..]);
    }
  }

  lemma {:induction false} CountsAroundIndex(s: seq<real>, k: nat)
    requires IsSorted(s) && k < |s|
    ensures CountBelow(s, s[k]) <= k < CountUpTo(s, s[k])
  {
    if k > 0 {
      CountsAroundIndex(s[1..], k - 1);
    } else {
      NoneBelow(s, s[0]);
    }
  }

  lemma {:induction false} NoneBelow(s: seq<real>, v: real)
    requires forall i | 0 <= i < |s| :: v <= s[i]
    ensures CountBelow(s, v) == 0
  {
    if s != [] { NoneBelow(s[1..], v); }
  }

  /** Index `k` is the order statistic of rank `k` of the unsorted samples: at most `k`
      samples are smaller, and more than `k` are not larger. */
  ghost predicate IsOrderStatistic(values: seq<real>, k: nat, v: real) {
    v in values && CountBelow(values, v) <= k < CountUpTo(values, v)
  }

  lemma {:induction false} RankInSorted(values: seq<real>, k: nat)
    requires k < |values|
    ensures IsOrderStatistic(values, k, Sorted(values)[k])
  {
    var s := Sorted(values);
    SortedIsSorted(values);
    CountsAroundIndex(s, k);
    CountsOfSorted(values, s[k]);
    assert s[k] in multiset(s);
  }

  /** Rank determines the value, so a percentile does not depend on the sorting method. */
  lemma {:induction false} OrderStatisticUnique(values: seq<real>, k: nat, v: real, w: real)
    requires IsOrderStatistic(values, k, v) && IsOrderStatistic(values, k, w)
    ensures v == w
  {
    if v < w { UpToBelow(values, v, w); }
    if w < v { UpToBelow(values, w, v); }
  }

  lemma {:induction false} UpToBelow(s: seq<real>, v: real, w: real)
    requires v < w
    ensures CountUpTo(s, v) <= CountBelow(s, w)
  {
    if s != [] { UpToBelow(s[1..], v, w); }
  }

  // ------------------------------------------------------------- percentile and average

  predicate IsFraction(f: real) { 0.0 <= f <= 1.0 }

  lemma {:induction false} ScaleMonotone(m: nat, p: real, q: real)
    requires p <= q
    ensures m as real * p <= m as real * q
  {
    if m > 0 {
      ScaleMonotone(m - 1, p, q);
      assert m as real == (m - 1) as real + 1.0;
    }
  }

  lemma IntegerBelow(k: int, j: int)
    requires (k as real) < j as real + 1.0
    ensures k <= j
  {
  }

  /** The exact place of a fraction on the scale of the sorted samples. */
  function Place(count: nat, fraction: real): real {
    (count - 1) as real * fraction
  }

  lemma {:induction false} PlaceMonotone(count: nat, p: real, q: real)
    requires count > 0 && p <= q
    ensures Place(count, p) <= Place(count, q)
  {
    ScaleMonotone(count - 1, p, q);
  }

  lemma PlaceEnds(count: nat)
    ensures Place(count, 0.0) == 0.0 && Place(count, 1.0) == (count - 1) as real
  {
  }

  /** Up to here every integer is a double. */
  const EXACT: nat := 0x20_0000_0000_0000

  function Whole(n: nat): real { n as real }

  /** What IEEE 754 promises of rounding a product to a double: larger numbers do not become
      smaller, and numbers that are doubles stay. */
  ghost predicate IsRounding(round: real -> real) {
    && (forall x, y | x <= y :: round(x) <= round(y))
    && (forall n: nat | n <= EXACT :: round(Whole(n)) == Whole(n))
  }

  ghost predicate Rankable(count: nat, fraction: real, round: real -> real) {
    0 < count <= EXACT && IsFraction(fraction) && IsRounding(round)
  }

  /** The index: the product (count - 1) * fraction rounded to a double and truncated. */
  function Rank(count: nat, fraction: real, round: real -> real): (k: nat)
    requires Rankable(count, fraction, round)
    ensures k < count
    ensures k as real <= round(Place(count, fraction)) < k as real + 1.0
  {
    RoundedPlace(count, fraction, round);
    hide Place;
    var k := round(Place(count, fraction)).Floor;
    IntegerBelow(k, count - 1);
    k
  }

  lemma RoundedPlace(count: nat, fraction: real, round: real -> real)
    requires Rankable(count, fraction, round)
    ensures 0.0 <= round(Place(count, fraction)) <= (count - 1) as real
  {
    PlaceMonotone(count, 0.0, fraction);
    PlaceMonotone(count, fraction, 1.0);
    PlaceEnds(count);
    hide Place;
    assert round(Whole(0)) == 0.0 && round(Whole(count - 1)) == Whole(count - 1);
    assert round(Whole(0)) <= round(Place(count, fraction)) <= round(Whole(count - 1));
  }

  /** It is the exact index floor((count - 1) * fraction), or the next one, and that exactly when
      the rounding reaches the next integer. */
  lemma {:induction false} RankNearFloor(count: nat, fraction: real, round: real -> real)
    requires Rankable(count, fraction, round)
    ensures var f := Place(count, fraction).Floor; var k := Rank(count, fraction, round);
      k == if round(Place(count, fraction)) < f as real + 1.0 then f else f + 1
  {
    PlaceMonotone(count, 0.0, fraction);
    PlaceMonotone(count, fraction, 1.0);
    PlaceEnds(count);
    hide Place, Rank;
    var x, k := Place(count, fraction), Rank(count, fraction, round);
    var f := x.Floor;
    IntegerBelow(f, count - 1);
    IntegerBelow(0, f);
    assert round(Whole(f)) == Whole(f) && round(Whole(f + 1)) == Whole(f + 1);
    assert round(Whole(f)) <= round(x) <= round(Whole(f + 1));
    IntegerBelow(f, k);
    IntegerBelow(k, f + 1);
    if k == f + 1 { assert round(x) >= f as real + 1.0; }
    if round(x) < f as real + 1.0 { IntegerBelow(k, f); }
  }

  lemma {:induction false} RankMonotone(count: nat, p: real, q: real, round: real -> real)
    requires Rankable(count, p, round) && IsFraction(q) && p <= q
    ensures Rank(count, p, round) <= Rank(count, q, round)
  {
    PlaceMonotone(count, p, q);
    hide Place, Rank;
    assert round(Place(count, p)) <= round(Place(count, q));
    IntegerBelow(Rank(count, p, round), Rank(count, q, round));
  }

  /** The ends of the scale are the least and the greatest sample. */
  lemma RankEnds(count: nat, round: real -> real)
    requires 0 < count <= EXACT && IsRounding(round)
    ensures (Rank(count, 0.0, round), Rank(count, 1.0, round)) == (0, count - 1)
  {
    PlaceEnds(count);
    hide Place, Rank;
    assert round(Whole(0)) == 0.0 && round(Whole(count - 1)) == Whole(count - 1);
    IntegerBelow(Rank(count, 0.0, round), 0);
    IntegerBelow(count - 1, Rank(count, 1.0, round));
  }

  /** The values of the double constants 0.50, 0.95 and 0.99. */
  const P50: real := 0.5
  const P95: real := 0.9499999999999999555910790149937383830547332763671875
  const P99: real := 0.9899999999999999911182158029987476766109466552734375

  /** k steps of 2^-53 are x, and no other number of steps is nearer to that many hundredths;
      doubles from a half to one are the multiples of such a step. */
  predicate IsNearestDouble(x: real, hundredths: nat, k: nat) {
    && EXACT <= 2 * k <= 2 * EXACT
    && x * EXACT as real == k as real
    && -50 <= 100 * k - hundredths * EXACT <= 50
  }

  /** The three fractions are the doubles that 0.50, 0.95 and 0.99 stand for. */
  lemma FractionsAreNearest()
    ensures IsNearestDouble(P50, 50, 4503599627370496)
    ensures IsNearestDouble(P95, 95, 8556839292003942)
    ensures IsNearestDouble(P99, 99, 8917127262193582)
  {
  }

  function Sum(s: seq<real>): real {
    if s == [] then 0.0 else Sum(s[..|s| - 1]) + s[|s| - 1]
  }

  lemma {:induction false} SumBounds(s: seq<real>, lo: real, hi: real)
    requires forall i | 0 <= i < |s| :: lo <= s[i] <= hi
    ensures lo * |s| as real <= Sum(s) <= hi * |s| as real
  {
    if s != [] { SumBounds(s[..|s| - 1], lo, hi); }
  }

  function Average(s: seq<real>): real {
    if s == [] then 0.0 else Sum(s) / |s| as real
  }

  lemma {:induction false} AverageBounds(s: seq<real>, lo: real, hi: real)
    requires s != [] && forall i | 0 <= i < |s| :: lo <= s[i] <= hi
    ensures lo <= Average(s) <= hi
  {
    SumBounds(s, lo, hi);
    QuotientBounds(Sum(s), |s| as real, lo, hi);
  }

  lemma TimesQuotient(x: real, n: real)
    requires n != 0.0
    ensures x / n * n == x
  {
  }

  lemma AverageTimes(s: seq<real>)
    ensures Average(s) * |s| as real == Sum(s)
  {
    if s != [] { TimesQuotient(Sum(s), |s| as real); }
  }

  lemma {:induction false} SumConcat(s: seq<real>, t: seq<real>)
    ensures Sum(s + t) == Sum(s) + Sum(t)
  {
    if t == [] {
      assert s + t == s;
    } else {
      SumConcat(s, t[..|t| - 1]);
      assert (s + t)[..|s + t| - 1] == s + t[..|t| - 1];
    }
  }

  lemma SumOfOne(x: real)
    ensures Sum([x]) == x
  {
    assert [x][..0] == [];
  }

  /** One sample is its own average, and the average of two runs of samples is theirs, weighed by
      their lengths. */
  lemma {:induction false} AverageWeighs(s: seq<real>, t: seq<real>, x: real)
    ensures Average([x]) == x
    ensures Average(s + t) * |s + t| as real == Average(s) * |s| as real + Average(t) * |t| as real
  {
    SumOfOne(x);
    assert Average([x]) == x;
    hide Sum, Average;
    SumConcat(s, t);
    AverageTimes(s);
    AverageTimes(t);
    AverageTimes(s + t);
  }

  /** A sample and the others. */
  lemma TakeOut(s: seq<real>, i: nat)
    requires i < |s|
    ensures var rest := s[..i] + s[i + 1..];
      multiset(s) == multiset(rest) + multiset{s[i]} && Sum(s) == Sum(rest) + s[i]
  {
    hide Sum;
    var a, x, c := s[..i], [s[i]], s[i + 1..];
    assert s == a + x + c;
    SumConcat(a + x, c);
    SumConcat(a, x);
    SumConcat(a, c);
    SumOfOne(s[i]);
  }

  lemma {:induction false} SumOfPermutation(s: seq<real>, t: seq<real>)
    requires multiset(s) == multiset(t)
    ensures Sum(s) == Sum(t)
  {
    if s == [] {
      assert |multiset(t)| == 0;
    } else {
      hide Sum;
      var i := Occurrence(s, t);
      TakeOut(s, 0);
      TakeOut(t, i);
      var u, v := s[..0] + s[1..], t[..i] + t[i + 1..];
      Cancel(multiset(u), multiset(v), s[0]);
      SumOfPermutation(u, v);
    }
  }

  lemma Occurrence(s: seq<real>, t: seq<real>) returns (i: nat)
    requires multiset(s) == multiset(t) && s != []
    ensures i < |t| && t[i] == s[0]
  {
    assert s[0] in multiset(t);
    i :| i < |t| && t[i] == s[0];
  }

  lemma Cancel(a: multiset<real>, b: multiset<real>, x: real)
    requires a + multiset{x} == b + multiset{x}
    ensures a == b
  {
    assert a == a + multiset{x} - multiset{x};
    assert b == b + multiset{x} - multiset{x};
  }

  /** The order of the samples does not matter, so sorting them first changes nothing. */
  lemma {:induction false} AverageOfPermutation(s: seq<real>, t: seq<real>)
    requires multiset(s) == multiset(t)
    ensures Average(s) == Average(t)
  {
    SumOfPermutation(s, t);
    assert |multiset(s)| == |s| && |multiset(t)| == |t|;
  }

  lemma {:induction false} QuotientBounds(x: real, n: real, lo: real, hi: real)
    requires n > 0.0 && lo * n <= x <= hi * n
    ensures lo <= x / n <= hi
  {
    assert lo == lo * n / n && hi == hi * n / n;
    assert x / n - lo == (x - lo * n) / n && hi - x / n == (hi * n - x) / n;
  }

  // ---------------------------------------------------------------------- the methods

  /** qsort with compare_double. */
  method Qsort(values: array<real>)
    modifies values
    ensures values[..] == Sorted(old(values[..]))
  {
    var s := Sorted(values[..]);
    for i := 0 to values.Length
      invariant values[..i] == s[..i]
    {
      values[i] := s[i];
    }
    assert values[..] == values[..values.Length];
  }

  method Percentile(values: array<real>, fraction: real, round: real -> real) returns (r: real)
    requires IsFraction(fraction) && IsRounding(round) && values.Length <= EXACT
    modifies values
    ensures values[..] == Sorted(old(values[..]))
    ensures values.Length == 0 ==> r == 0.0
    ensures values.Length > 0 ==> IsOrderStatistic(old(values[..]), Rank(values.Length, fraction, round), r)
  {
    if values.Length == 0 {
      assert values[..] == [];
      return 0.0;
    }
    Qsort(values);
    var index := Rank(values.Length, fraction, round);
    RankInSorted(old(values[..]), index);
    return values[index];
  }

  method AverageOf(values: array<real>) returns (r: real)
    ensures r == Average(values[..])
  {
    if values.Length == 0 { return 0.0; }
    var total := 0.0;
    for i := 0 to values.Length
      invariant total == Sum(values[..i])
    {
      total := total + values[i];
      assert values[..i + 1][..i] == values[..i];
    }
    assert values[..values.Length] == values[..];
    return total / values.Length as real;
  }

  /** Statistics of a sample buffer. `copied` is whether the scratch copy could be
      allocated. The buffer itself is read only. */
  method CalculateStats(values: array<real>, copied: bool, round: real -> real) returns (stats: MetricStats)
    requires IsRounding(round) && values.Length <= EXACT
    ensures stats.count == values.Length
    ensures values.Length == 0 || !copied ==> stats == MetricStats(values.Length, 0.0, 0.0, 0.0, 0.0)
    ensures values.Length > 0 && copied ==>
      && stats.avg == Average(values[..])
      && IsOrderStatistic(values[..], Rank(values.Length, P50, round), stats.p50)
      && IsOrderStatistic(values[..], Rank(values.Length, P95, round), stats.p95)
      && IsOrderStatistic(values[..], Rank(values.Length, P99, round), stats.p99)
  {
    stats := MetricStats(values.Length, 0.0, 0.0, 0.0, 0.0);
    if values.Length == 0 || !copied { return; }
    var copy := new real[values.Length](i requires 0 <= i < values.Length reads values => values[i]);
    ghost var original := values[..];
    assert copy[..] == original;
    var avg := AverageOf(copy);
    var p50 := Percentile(copy, P50, round);
    SortedIsSorted(original);
    SortedFixpoint(Sorted(original));
    var p95 := Percentile(copy, P95, round);
    var p99 := Percentile(copy, P99, round);
    SameStatistics(original, Rank(values.Length, P95, round), p95);
    SameStatistics(original, Rank(values.Length, P99, round), p99);
    stats := MetricStats(values.Length, avg, p50, p95, p99);
  }

  lemma {:induction false} SameStatistics(s: seq<real>, k: nat, v: real)
    ensures IsOrderStatistic(Sorted(s), k, v) == IsOrderStatistic(s, k, v)
  {
    CountsOfSorted(s, v);
    assert v in Sorted(s) <==> v in multiset(Sorted(s));
    assert v in s <==> v in multiset(s);
  }

  lemma {:induction false} AtRank(values: seq<real>, k: nat, v: real)
    requires k < |values| && IsOrderStatistic(values, k, v)
    ensures v == Sorted(values)[k]
  {
    RankInSorted(values, k);
    OrderStatisticUnique(values, k, v, Sorted(values)[k]);
  }

  lemma {:induction false} SortedSpan(values: seq<real>)
    requires values != []
    ensures var s := Sorted(values);
      && (forall i | 0 <= i < |values| :: s[0] <= values[i] <= s[|s| - 1])
      && s[0] <= Average(values) <= s[|s| - 1]
  {
    var s, n := Sorted(values), |values|;
    SortedIsSorted(values);
    forall i | 0 <= i < n ensures s[0] <= values[i] <= s[n - 1] {
      assert values[i] in multiset(s);
      var j :| 0 <= j < n && s[j] == values[i];
      Ascending(s, j, j, j);
    }
    AverageBounds(values, s[0], s[n - 1]);
  }

  /** The reported figures are ordered, and they and the average lie between the least
      and the greatest sample. */
  lemma {:induction false} StatsOrdered(
      values: seq<real>, p50: real, p95: real, p99: real, round: real -> real)
    requires 0 < |values| <= EXACT && IsRounding(round)
    requires IsOrderStatistic(values, Rank(|values|, P50, round), p50)
    requires IsOrderStatistic(values, Rank(|values|, P95, round), p95)
    requires IsOrderStatistic(values, Rank(|values|, P99, round), p99)
    ensures var s := Sorted(values);
      && s[0] <= p50 <= p95 <= p99 <= s[|s| - 1]
      && s[0] <= Average(values) <= s[|s| - 1]
      && forall i | 0 <= i < |values| :: s[0] <= values[i] <= s[|s| - 1]
  {
    var n := |values|;
    AtRank(values, Rank(n, P50, round), p50);
    AtRank(values, Rank(n, P95, round), p95);
    AtRank(values, Rank(n, P99, round), p99);
    RankMonotone(n, P50, P95, round);
    RankMonotone(n, P95, P99, round);
    SortedSpan(values);
    SortedIsSorted(values);
    Ascending(Sorted(values), Rank(n, P50, round), Rank(n, P95, round), Rank(n, P99, round));
  }

  lemma {:induction false} Ascending(s: seq<real>, i: nat, j: nat, k: nat)
    requires IsSorted(s) && i <= j <= k < |s|
    ensures s[0] <= s[i] <= s[j] <= s[k] <= s[|s| - 1]
  {
  }
}
