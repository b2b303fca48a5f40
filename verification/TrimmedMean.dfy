/**
 * The benchmark average: fifty run durations, sorted, the ten smallest and ten largest
 * dropped, the rest averaged.
 */
module TrimmedMean {
  import opened Wrappers
  import opened Machine
  import opened Ordering

  const RUNS: nat := 50
  const TRIM: nat := 10

  predicate AtMost(x: nat, y: nat) { x <= y }

  lemma AtMostIsTotal()
    ensures TotalOrder(AtMost)
  {
  }

  function Sum(s: seq<nat>): nat {
    if s == [] then 0 else Sum(s[..|s| - 1]) + s[|s| - 1]
  }

  method SumOf(s: seq<nat>) returns (total: nat)
    ensures total == Sum(s)
  {
    total := 0;
    for i := 0 to |s|
      invariant total == Sum(s[..i])
    {
      assert s[..i + 1][..i] == s[..i];
      total := total + s[i];
    }
    assert s[..|s|] == s;
  }

  /** The thirty durations that are averaged. */
  function KeptOf(durations: seq<nat>): (kept: seq<nat>)
    requires |durations| == RUNS
    ensures |kept| == RUNS - 2 * TRIM
  {
    AtMostIsTotal(); SortIsSort(AtMost, durations);
    Sort(AtMost, durations)[TRIM..RUNS - TRIM]
  }

  /** The average before it is narrowed to u64. */
  function TrimmedAverage(durations: seq<nat>): nat
    requires |durations| == RUNS
  {
    Sum(KeptOf(durations)) / (RUNS - 2 * TRIM)
  }

  function Square(x: int): nat {
    assert x * x >= 0;
    x * x
  }

  function Squares(kept: seq<nat>, average: nat): (squares: seq<nat>)
    ensures |squares| == |kept|
    ensures forall i :: 0 <= i < |kept| ==> squares[i] == Square(kept[i] - average)
  {
    seq(|kept|, i requires 0 <= i < |kept| => Square(kept[i] - average))
  }

  function SumSquares(kept: seq<nat>, average: nat): nat { Sum(Squares(kept, average)) }

  /** The conversions and the i32 product of one kept duration go through: the duration is an
      i32, and so is the square, or in a wrapping build what is left of it, which must not come
      out negative. */
  predicate SquareFits(build: Build, d: nat, average: nat) {
    && d <= I32_MAX
    && (if build.Checked? then Square(d - average) else Square(d - average) % U32_SPAN) <= I32_MAX
  }

  /** The squared deviations can be summed as the program does it. */
  ghost predicate Summable(build: Build, kept: seq<nat>, average: nat) {
    && (forall i :: 0 <= i < |kept| ==> SquareFits(build, kept[i], average))
    && (build.Checked? ==> SumSquares(kept, average) < U32_SPAN)
  }

  lemma {:induction false} SumOfPrefix(s: seq<nat>, i: nat)
    requires i <= |s|
    ensures Sum(s[..i]) <= Sum(s)
    decreases |s|
  {
    if i == |s| {
      assert s[..i] == s;
    } else {
      assert s[..|s| - 1][..i] == s[..i];
      SumOfPrefix(s[..|s| - 1], i);
    }
  }

  /** Wrapping the numbers first does not change the wrapped sum. */
  lemma {:induction false} SumModulo(exact: seq<nat>, wrapped: seq<nat>)
    requires |exact| == |wrapped| && forall i :: 0 <= i < |exact| ==> wrapped[i] == exact[i] % U32_SPAN
    ensures Sum(wrapped) % U32_SPAN == Sum(exact) % U32_SPAN
    decreases |exact|
  {
    if exact == [] {
    } else {
      var last := |exact| - 1;
      SumModulo(exact[..last], wrapped[..last]);
      AddWrapped(Sum(exact[..last]), exact[last]);
      AddWrapped(Sum(wrapped[..last]), wrapped[last]);
    }
  }

  /** The sum of u32 numbers, which a checked build refuses when it leaves u32. */
  method SumU32(build: Build, s: seq<nat>) returns (total: Option<nat>)
    ensures total.None? <==> build.Checked? && Sum(s) >= U32_SPAN
    ensures total.Some? ==> total.value == Sum(s) % U32_SPAN
  {
    var sum := 0;
    for i := 0 to |s|
      invariant sum == Sum(s[..i]) % U32_SPAN
      invariant build.Checked? ==> Sum(s[..i]) < U32_SPAN
    {
      assert s[..i + 1][..i] == s[..i];
      AddWrapped(Sum(s[..i]), s[i]);
      if build.Checked? && sum + s[i] >= U32_SPAN {
        SumOfPrefix(s, i + 1);
        return None;
      }
      sum := (sum + s[i]) % U32_SPAN;
    }
    assert s[..|s|] == s;
    return Some(sum);
  }

  /** The sum under the root of the standard deviation: the sum of the squares modulo 2^32, or a
      panic, exactly when the squares cannot be summed. */
  method SumDeviations(build: Build, kept: seq<nat>, average: nat) returns (total: Option<nat>)
    ensures total.Some? <==> Summable(build, kept, average)
    ensures total.Some? ==> total.value == SumSquares(kept, average) % U32_SPAN
  {
    var squares: seq<nat> := [];
    for i := 0 to |kept|
      invariant |squares| == i
      invariant forall j :: 0 <= j < i ==> SquareFits(build, kept[j], average)
      invariant forall j :: 0 <= j < i ==> squares[j] == Squares(kept, average)[j] % U32_SPAN
      invariant build.Checked? ==> forall j :: 0 <= j < i ==> squares[j] == Squares(kept, average)[j]
    {
      var square := WrappedSquare(build, kept[i], average);
      if square.None? {
        return None;
      }
      squares := squares + [square.value];
    }
    SumModulo(Squares(kept, average), squares);
    assert build.Checked? ==> squares == Squares(kept, average);
    total := SumU32(build, squares);
  }

  /** The conversion to i32, the difference, the product and the conversion to u32. */
  method WrappedSquare(build: Build, d: nat, average: nat) returns (r: Option<nat>)
    ensures r.Some? <==> SquareFits(build, d, average)
    ensures r.Some? ==> r.value == Square(d - average) % U32_SPAN
    ensures r.Some? && build.Checked? ==> r.value == Square(d - average)
  {
    if d > I32_MAX {
      return None;
    }
    var square := Square(d - average);
    if build.Checked? && square > I32_MAX {
      return None;
    }
    square := square % U32_SPAN;
    if square > I32_MAX {
      return None;
    }
    return Some(square);
  }

  datatype Output = Output(rawAverage: nat, average: nat, deviations: nat)

  /** The benchmark returns: every kept duration and every square fits, and in a checked build
      their sum does. */
  ghost predicate Returns(build: Build, durations: seq<nat>)
    requires |durations| == RUNS
  {
    Summable(build, KeptOf(durations), TrimmedAverage(durations))
  }

  /** `run_benchmark` from the fifty durations on, up to the root of the sum of squares. The
      conversion of the average to i32 never fails unless that of some kept duration does. */
  method RunBenchmark(build: Build, durations: seq<nat>) returns (r: Option<Output>)
    requires |durations| == RUNS
    ensures r.Some? <==> Returns(build, durations)
    ensures r.Some? ==>
              && r.value.rawAverage == (Sum(Sort(AtMost, durations)) / RUNS) % U64_SPAN
              && r.value.average == TrimmedAverage(durations)
              && r.value.deviations == SumSquares(KeptOf(durations), TrimmedAverage(durations)) % U32_SPAN
  {
    AtMostIsTotal();
    SortIsSort(AtMost, durations);
    var sorted := Sort(AtMost, durations);
    var all := SumOf(sorted);
    var rawAverage := (all / RUNS) % U64_SPAN;
    var kept := sorted[TRIM..RUNS - TRIM];
    assert kept == KeptOf(durations);
    var middle := SumOf(kept);
    var average := (middle / (RUNS - 2 * TRIM)) % U64_SPAN;
    NarrowedAverage(build, kept, average);
    if average > I32_MAX {
      return None;
    }
    var deviations := SumDeviations(build, kept, average);
    if deviations.None? {
      return None;
    }
    return Some(Output(rawAverage, average, deviations.value));
  }

  /** Narrowing the average makes no difference to whether the squares can be summed, and none
      at all when they can. */
  lemma NarrowedAverage(build: Build, kept: seq<nat>, narrowed: nat)
    requires |kept| == RUNS - 2 * TRIM && narrowed == (Sum(kept) / (RUNS - 2 * TRIM)) % U64_SPAN
    ensures var average := Sum(kept) / (RUNS - 2 * TRIM);
            && (Summable(build, kept, average) ==> narrowed == average <= I32_MAX)
            && (Summable(build, kept, narrowed) ==> narrowed == average <= I32_MAX)
  {
    if Summable(build, kept, Sum(kept) / (RUNS - 2 * TRIM)) {
      AverageFits(build, kept, Sum(kept) / (RUNS - 2 * TRIM));
    }
    if Summable(build, kept, narrowed) {
      AverageFits(build, kept, narrowed);
    }
  }

  /** Kept durations that are i32 numbers have such an average. */
  lemma AverageFits(build: Build, kept: seq<nat>, average: nat)
    requires |kept| == RUNS - 2 * TRIM && Summable(build, kept, average)
    ensures Sum(kept) / (RUNS - 2 * TRIM) <= I32_MAX
  {
    AverageWithin(kept, 0, I32_MAX);
  }

  lemma AverageWithin(kept: seq<nat>, lo: nat, hi: nat)
    requires |kept| == RUNS - 2 * TRIM && forall i :: 0 <= i < |kept| ==> lo <= kept[i] <= hi
    ensures lo <= Sum(kept) / (RUNS - 2 * TRIM) <= hi
  {
    SumBounds(kept, lo, hi);
  }

  // ---------------------------------------------------------------- order and outliers

  /** The result does not depend on the order of the measurements. */
  lemma AverageIgnoresOrder(s: seq<nat>, t: seq<nat>)
    requires |s| == RUNS && |t| == RUNS && multiset(s) == multiset(t)
    ensures TrimmedAverage(s) == TrimmedAverage(t)
  {
    AtMostIsTotal();
    SortIsSort(AtMost, s);
    SortIsSort(AtMost, t);
    SortIsUnique(AtMost, Sort(AtMost, s), Sort(AtMost, t));
  }

  /** With at most `k` values below `lo`, a sorted list is at least `lo` from index `k` on. */
  lemma LowOutliersTrimmed(sorted: seq<nat>, lo: nat, k: nat)
    requires Sorted(AtMost, sorted) && CountIf((x: nat) => x < lo, sorted) <= k < |sorted|
    ensures sorted[k] >= lo
  {
    var p := (x: nat) => x < lo;
    if sorted[k] < lo {
      var head := sorted[..k + 1];
      assert sorted == head + sorted[k + 1..];
      forall i | 0 <= i < |head| ensures p(head[i]) {
        assert i < k ==> AtMost(sorted[i], sorted[k]);
      }
      CountAll(p, head);
      CountConcat(p, head, sorted[k + 1..]);
    }
  }

  lemma HighOutliersTrimmed(sorted: seq<nat>, hi: nat, k: nat)
    requires Sorted(AtMost, sorted) && CountIf((x: nat) => x > hi, sorted) <= k < |sorted|
    ensures sorted[|sorted| - 1 - k] <= hi
  {
    var p := (x: nat) => x > hi;
    var j := |sorted| - 1 - k;
    if sorted[j] > hi {
      var tail := sorted[j..];
      assert sorted == sorted[..j] + tail;
      forall i | 0 <= i < |tail| ensures p(tail[i]) {
        assert i > 0 ==> AtMost(sorted[j], sorted[j + i]);
      }
      CountAll(p, tail);
      CountConcat(p, sorted[..j], tail);
    }
  }

  lemma {:induction false} SumBounds(s: seq<nat>, lo: nat, hi: nat)
    requires forall i :: 0 <= i < |s| ==> lo <= s[i] <= hi
    ensures |s| * lo <= Sum(s) <= |s| * hi
    decreases |s|
  {
    if s == [] {
    } else {
      SumBounds(s[..|s| - 1], lo, hi);
      assert |s| * lo == (|s| - 1) * lo + lo && |s| * hi == (|s| - 1) * hi + hi;
    }
  }

  /** All durations but those at the given places lie between the bounds. */
  ghost predicate WithinBut(durations: seq<nat>, outliers: set<nat>, lo: nat, hi: nat) {
    forall i :: 0 <= i < |durations| && i !in outliers ==> lo <= durations[i] <= hi
  }

  /** With at most ten arbitrary durations, only such that lie between the bounds of the others
      are kept. */
  lemma KeptWithinBounds(durations: seq<nat>, outliers: set<nat>, lo: nat, hi: nat)
    requires |durations| == RUNS && |outliers| <= TRIM && WithinBut(durations, outliers, lo, hi)
    ensures forall i :: 0 <= i < |KeptOf(durations)| ==> lo <= KeptOf(durations)[i] <= hi
  {
    var below, above := (x: nat) => x < lo, (x: nat) => x > hi;
    var sorted := Sort(AtMost, durations);
    AtMostIsTotal();
    SortIsSort(AtMost, durations);
    CountWithin(below, durations, outliers);
    CountWithin(above, durations, outliers);
    CountOfPermutation(below, durations, sorted);
    CountOfPermutation(above, durations, sorted);
    LowOutliersTrimmed(sorted, lo, TRIM);
    HighOutliersTrimmed(sorted, hi, TRIM);
    var kept := KeptOf(durations);
    forall i | 0 <= i < |kept| ensures lo <= kept[i] <= hi {
      assert i > 0 ==> AtMost(sorted[TRIM], sorted[TRIM + i]);
      assert TRIM + i < RUNS - 1 - TRIM ==> AtMost(sorted[TRIM + i], sorted[RUNS - 1 - TRIM]);
    }
  }

  /** If at most ten of the fifty durations are arbitrary and all others lie between `lo` and
      `hi`, so does the trimmed average. */
  lemma OutliersDoNotMatter(durations: seq<nat>, outliers: set<nat>, lo: nat, hi: nat)
    requires |durations| == RUNS && |outliers| <= TRIM && WithinBut(durations, outliers, lo, hi)
    ensures lo <= TrimmedAverage(durations) <= hi
  {
    KeptWithinBounds(durations, outliers, lo, hi);
    AverageWithin(KeptOf(durations), lo, hi);
  }

  // ---------------------------------------------------------------- how far apart durations may lie

  /** Numbers below a line of slope `k` add up to below the same line of the sums. */
  lemma {:induction false} SumBelowLine(xs: seq<nat>, ys: seq<nat>, k: int, l: int)
    requires |xs| == |ys| && forall i :: 0 <= i < |xs| ==> ys[i] <= k * xs[i] + l
    ensures Sum(ys) <= k * Sum(xs) + |xs| * l
    decreases |xs|
  {
    if xs == [] {
    } else {
      var last := |xs| - 1;
      SumBelowLine(xs[..last], ys[..last], k, l);
      LineGrows(k, Sum(xs[..last]), xs[last], last, l);
    }
  }

  lemma LineGrows(k: int, sum: nat, x: nat, n: nat, l: int)
    ensures k * (sum + x) + (n + 1) * l == (k * sum + n * l) + (k * x + l)
  {
  }

  /** Between `lo` and `hi` the squared deviation lies below its chord. */
  lemma BelowChord(d: nat, average: nat, lo: nat, hi: nat)
    requires lo <= d <= hi
    ensures Square(d - average) <= (lo + hi - 2 * average) * d + (average * average - lo * hi)
  {
    assert (d - lo) * (hi - d) >= 0;
  }

  /** `30 (p q) + rest (q - p)` with `p + q` fixed is greatest near `p == q`. */
  lemma ProductBound(p: nat, q: nat, rest: nat)
    requires rest < 30
    ensures 4 * (30 * (p * q) + rest * (q - p)) <= 30 * Square(p + q) + 112
  {
    DifferenceOfSquares(p, q);
    RestBound(rest, q - p);
  }

  lemma DifferenceOfSquares(p: nat, q: nat)
    ensures 4 * (p * q) == Square(p + q) - Square(q - p)
  {
  }

  lemma RestBound(rest: nat, e: int)
    requires rest < 30
    ensures 4 * (rest * e) <= 30 * Square(e) + 112
  {
    if e <= 0 {
      assert rest * e <= 0;
    } else {
      assert (29 - rest) * e >= 0;
      assert (e - 2) * (30 * e - 56) >= 0;
    }
  }

  /** The sum of the squares by the spread of the kept durations alone. */
  lemma SquaresBySpread(kept: seq<nat>, lo: nat, hi: nat)
    requires |kept| == RUNS - 2 * TRIM && forall i :: 0 <= i < |kept| ==> lo <= kept[i] <= hi
    ensures 4 * SumSquares(kept, Sum(kept) / (RUNS - 2 * TRIM)) <= 30 * Square(hi - lo) + 112
  {
    var sum := Sum(kept);
    var average, rest := sum / 30, sum % 30;
    AverageWithin(kept, lo, hi);
    var p, q := average - lo, hi - average;
    forall i | 0 <= i < |kept| ensures Square(kept[i] - average) <= (q - p) * kept[i] + (p * q - average * (q - p)) {
      BelowChord(kept[i], average, lo, hi);
      assert average * average - lo * hi == p * q - average * (q - p) by { ChordOffset(average, p, q); }
    }
    SumBelowLine(kept, Squares(kept, average), q - p, p * q - average * (q - p));
    assert (q - p) * sum + 30 * (p * q - average * (q - p)) == 30 * (p * q) + rest * (q - p) by {
      assert sum == 30 * average + rest;
      LineAtSum(q - p, p * q, average, rest);
    }
    ProductBound(p, q, rest);
  }

  lemma ChordOffset(average: nat, p: int, q: int)
    ensures average * average - (average - p) * (average + q) == p * q - average * (q - p)
  {
  }

  lemma LineAtSum(k: int, pq: int, average: nat, rest: nat)
    ensures k * (30 * average + rest) + 30 * (pq - average * k) == 30 * pq + rest * k
  {
    assert k * (30 * average + rest) == 30 * (average * k) + rest * k;
  }

  /** Thirty durations between two bounds add up to one of them plus the others at most. */
  lemma {:induction false} SumAround(kept: seq<nat>, i: nat, lo: nat, hi: nat)
    requires i < |kept| && forall j :: 0 <= j < |kept| ==> lo <= kept[j] <= hi
    ensures kept[i] + (|kept| - 1) * lo <= Sum(kept) <= kept[i] + (|kept| - 1) * hi
    decreases |kept|
  {
    var front := kept[..|kept| - 1];
    if i == |kept| - 1 {
      SumBounds(front, lo, hi);
    } else {
      SumAround(front, i, lo, hi);
      assert (|kept| - 1) * lo == (|front| - 1) * lo + lo && (|kept| - 1) * hi == (|front| - 1) * hi + hi;
    }
  }

  /** How far apart the durations may lie: in a checked build the sum of the squares decides, in
      a wrapping one only that no square turns negative. */
  function SpreadLimit(build: Build): nat {
    match build
    case Checked => 23_930
    case Wrapping => 47_937
  }

  /** No kept duration is further from the average than the root of i32::MAX. */
  lemma SingleDeviation(kept: seq<nat>, i: nat, lo: nat, hi: nat)
    requires |kept| == RUNS - 2 * TRIM && i < |kept| && forall j :: 0 <= j < |kept| ==> lo <= kept[j] <= hi
    requires hi <= lo + SpreadLimit(Wrapping)
    ensures Square(kept[i] - Sum(kept) / (RUNS - 2 * TRIM)) <= I32_MAX
  {
    SumAround(kept, i, lo, hi);
    SquareBound(kept[i] - Sum(kept) / 30, 46_340);
  }

  lemma SquareBound(x: int, bound: nat)
    requires x <= bound && 0 <= x + bound
    ensures Square(x) <= bound * bound
  {
    assert bound * bound - x * x == (bound - x) * (bound + x);
  }

  lemma NarrowSpreadReturns(build: Build, kept: seq<nat>, lo: nat, hi: nat)
    requires |kept| == RUNS - 2 * TRIM && forall i :: 0 <= i < |kept| ==> lo <= kept[i] <= hi
    requires lo <= hi <= I32_MAX && hi <= lo + SpreadLimit(build)
    ensures Summable(build, kept, Sum(kept) / (RUNS - 2 * TRIM))
  {
    var average := Sum(kept) / (RUNS - 2 * TRIM);
    forall i | 0 <= i < |kept| ensures SquareFits(build, kept[i], average) {
      SingleDeviation(kept, i, lo, hi);
    }
    if build.Checked? {
      SquaresBySpread(kept, lo, hi);
      SquareBound(hi - lo, 23_930);
    }
  }

  /** `m` durations of `low`, the others `high`. */
  function TwoValued(n: nat, m: nat, low: nat, high: nat): (s: seq<nat>)
    ensures |s| == n
  {
    seq(n, i => if i < m then low else high)
  }

  lemma {:induction false} TwoValuedSum(n: nat, m: nat, low: nat, high: nat)
    requires m <= n
    ensures Sum(TwoValued(n, m, low, high)) == m * low + (n - m) * high
    decreases n
  {
    var s := TwoValued(n, m, low, high);
    if n == 0 {
    } else if m == n {
      assert s[..n - 1] == TwoValued(n - 1, m - 1, low, high);
      TwoValuedSum(n - 1, m - 1, low, high);
      assert m * low == (m - 1) * low + low;
    } else {
      assert s[..n - 1] == TwoValued(n - 1, m, low, high);
      TwoValuedSum(n - 1, m, low, high);
      assert (n - m) * high == (n - 1 - m) * high + high;
    }
  }

  lemma TwoValuedSums(n: nat, m: nat, low: nat, high: nat, average: nat)
    requires m <= n
    ensures Sum(TwoValued(n, m, low, high)) == m * low + (n - m) * high
    ensures SumSquares(TwoValued(n, m, low, high), average)
         == m * Square(low - average) + (n - m) * Square(high - average)
  {
    TwoValuedSum(n, m, low, high);
    var below, above := Square(low - average), Square(high - average);
    assert Squares(TwoValued(n, m, low, high), average) == TwoValued(n, m, below, above);
    TwoValuedSum(n, m, below, above);
  }

  lemma TwoValuedKept(m: nat, low: nat, high: nat)
    requires TRIM <= m <= RUNS - TRIM && low <= high
    ensures KeptOf(TwoValued(RUNS, m, low, high)) == TwoValued(RUNS - 2 * TRIM, m - TRIM, low, high)
  {
    var s := TwoValued(RUNS, m, low, high);
    AtMostIsTotal();
    SortIsSort(AtMost, s);
    SortIsUnique(AtMost, Sort(AtMost, s), s);
  }

  /** An input on which a checked build panics: half of the durations 23 931 above the others. */
  lemma CheckedBuildPanics(low: nat)
    ensures !Returns(Checked, TwoValued(RUNS, 25, low, low + 23_931))
  {
    var high := low + 23_931;
    TwoValuedKept(25, low, high);
    TwoValuedSums(30, 15, low, high, low + 11_965);
    assert TrimmedAverage(TwoValued(RUNS, 25, low, high)) == low + 11_965;
    assert Square(low - (low + 11_965)) == 143_161_225 && Square(high - (low + 11_965)) == 143_185_156;
  }

  /** And a wrapping one: one kept duration 47 938 above the others. */
  lemma WrappingBuildPanics(low: nat)
    ensures !Returns(Wrapping, TwoValued(RUNS, 39, low, low + 47_938))
  {
    var high := low + 47_938;
    TwoValuedKept(39, low, high);
    TwoValuedSums(30, 29, low, high, low + 1_597);
    assert TrimmedAverage(TwoValued(RUNS, 39, low, high)) == low + 1_597;
    assert TwoValued(30, 29, low, high)[29] == high;
    assert Square(high - (low + 1_597)) == 2_147_488_281;
  }

  lemma TooLongPanics(build: Build, d: nat)
    requires d > I32_MAX
    ensures !Returns(build, TwoValued(RUNS, RUNS - TRIM, d, d))
  {
    TwoValuedKept(RUNS - TRIM, d, d);
    assert TwoValued(30, 30, d, d)[0] == d;
  }

  /** With at most ten arbitrary durations and the others between `lo` and `hi` the benchmark
      always returns if and only if `hi` is an i32 and the bounds are no further apart than
      23 930 microseconds in a checked build, 47 937 in a wrapping one. */
  lemma OutliersDoNotPanicIff(build: Build, lo: nat, hi: nat)
    requires lo <= hi
    ensures (forall durations, outliers ::
               |durations| == RUNS && |outliers| <= TRIM && WithinBut(durations, outliers, lo, hi) ==>
                 Returns(build, durations))
       <==> hi <= I32_MAX && hi <= lo + SpreadLimit(build)
  {
    if hi <= I32_MAX && hi <= lo + SpreadLimit(build) {
      forall durations, outliers |
        |durations| == RUNS && |outliers| <= TRIM && WithinBut(durations, outliers, lo, hi)
        ensures Returns(build, durations)
      {
        KeptWithinBounds(durations, outliers, lo, hi);
        NarrowSpreadReturns(build, KeptOf(durations), lo, hi);
      }
    } else {
      var durations := SomePanic(build, lo, hi);
      assert WithinBut(durations, {}, lo, hi);
    }
  }

  lemma SomePanic(build: Build, lo: nat, hi: nat) returns (durations: seq<nat>)
    requires lo <= hi && (hi > I32_MAX || hi > lo + SpreadLimit(build))
    ensures |durations| == RUNS && WithinBut(durations, {}, lo, hi) && !Returns(build, durations)
  {
    if hi > I32_MAX {
      durations := TwoValued(RUNS, RUNS - TRIM, hi, hi);
      TooLongPanics(build, hi);
    } else if build.Checked? {
      durations := TwoValued(RUNS, 25, lo, lo + 23_931);
      CheckedBuildPanics(lo);
    } else {
      durations := TwoValued(RUNS, 39, lo, lo + 47_938);
      WrappingBuildPanics(lo);
    }
  }
}
