/**
 * The histogram sampler of the trie benchmark: cumulative counts as keys of an ordered map and
 * a range lookup from a uniformly drawn number.
 */
module SizePool {
  import opened Wrappers
  import opened Machine

  /** (size, count) pairs. */
  type Histogram = seq<(nat, nat)>

  /** Sum of the first `n` counts. */
  function Total(h: Histogram, n: nat): nat
    requires n <= |h|
  {
    if n == 0 then 0 else Total(h, n - 1) + h[n - 1].1
  }

  lemma {:induction false} TotalMonotone(h: Histogram, m: nat, n: nat)
    requires m <= n <= |h|
    ensures Total(h, m) <= Total(h, n)
    ensures Positive(h) && m < n ==> Total(h, m) < Total(h, n)
    decreases n
  {
    if m == n {
    } else {
      TotalMonotone(h, m, n - 1);
    }
  }

  /** The ordered map after the first `n` pairs: cumulative count to size. */
  function Distribution(h: Histogram, n: nat): map<nat, nat>
    requires n <= |h|
  {
    if n == 0 then map[] else Distribution(h, n - 1)[Total(h, n) := h[n - 1].0]
  }

  datatype Pool = Pool(distribution: map<nat, nat>, total: nat)

  function PoolOf(h: Histogram): Pool { Pool(Distribution(h, |h|), Total(h, |h|)) }

  /** The same with the running total kept in a u32 that wraps around; entries whose wrapped
      totals meet replace one another. */
  function WrappedDistribution(h: Histogram, n: nat): map<nat, nat>
    requires n <= |h|
  {
    if n == 0 then map[] else WrappedDistribution(h, n - 1)[Total(h, n) % U32_SPAN := h[n - 1].0]
  }

  function WrappedPool(h: Histogram): Pool { Pool(WrappedDistribution(h, |h|), Total(h, |h|) % U32_SPAN) }

  /** Up to 2^32 there is nothing to wrap. */
  lemma {:induction false} WrappedIsExact(h: Histogram, n: nat)
    requires n <= |h| && Total(h, n) < U32_SPAN
    ensures WrappedDistribution(h, n) == Distribution(h, n)
    decreases n
  {
    if n == 0 {
    } else {
      WrappedIsExact(h, n - 1);
    }
  }

  /** `from_histogram`: a total that leaves u32 is a panic in a checked build and wraps around in
      the other. */
  method FromHistogram(build: Build, h: Histogram) returns (r: Option<Pool>)
    ensures Total(h, |h|) < U32_SPAN ==> r == Some(PoolOf(h))
    ensures Total(h, |h|) >= U32_SPAN ==> r == if build.Checked? then None else Some(WrappedPool(h))
  {
    var distribution: map<nat, nat>, total := map[], 0;
    for n := 0 to |h|
      invariant total == Total(h, n) % U32_SPAN && distribution == WrappedDistribution(h, n)
      invariant build.Checked? ==> Total(h, n) < U32_SPAN
    {
      assert (total + h[n].1) % U32_SPAN == Total(h, n + 1) % U32_SPAN by { AddWrapped(Total(h, n), h[n].1); }
      assert build.Checked? ==> total + h[n].1 == Total(h, n + 1);
      total := total + h[n].1;
      if build.Checked? && total >= U32_SPAN {
        TotalMonotone(h, n + 1, |h|);
        return None;
      }
      total := total % U32_SPAN;
      distribution := distribution[total := h[n].0];
    }
    if Total(h, |h|) < U32_SPAN {
      WrappedIsExact(h, |h|);
    }
    return Some(Pool(distribution, total));
  }

  ghost predicate Positive(h: Histogram) {
    forall i :: 0 <= i < |h| ==> h[i].1 > 0
  }

  /** Upper end of the range that belongs to entry `i`. */
  function Bound(h: Histogram, i: nat): nat
    requires i < |h|
  {
    Total(h, i + 1)
  }

  lemma {:induction false} DistributionKeys(h: Histogram, n: nat, key: nat)
    requires n <= |h|
    ensures key in Distribution(h, n) ==> key <= Total(h, n) && exists i: nat :: i < n && Bound(h, i) == key
    ensures forall i: nat :: i < n && Bound(h, i) == key ==> key in Distribution(h, n)
    decreases n
  {
    if n == 0 {
    } else {
      DistributionKeys(h, n - 1, key);
      if key == Total(h, n) {
        assert Bound(h, n - 1) == key;
      }
    }
  }

  /** A key belongs to the last entry with that total, zero counts included. */
  lemma {:induction false} DistributionIsLast(h: Histogram, n: nat, i: nat)
    requires i < n <= |h| && forall j: nat :: i < j < n ==> Bound(h, j) != Bound(h, i)
    ensures Bound(h, i) in Distribution(h, n) && Distribution(h, n)[Bound(h, i)] == h[i].0
    decreases n
  {
    if i == n - 1 {
    } else {
      DistributionIsLast(h, n - 1, i);
      assert Bound(h, n - 1) != Bound(h, i);
    }
  }

  /** And so it does after the totals have wrapped around. */
  lemma {:induction false} WrappedDistributionIsLast(h: Histogram, n: nat, i: nat)
    requires i < n <= |h|
    requires forall j: nat :: i < j < n ==> Bound(h, j) % U32_SPAN != Bound(h, i) % U32_SPAN
    ensures Bound(h, i) % U32_SPAN in WrappedDistribution(h, n)
    ensures WrappedDistribution(h, n)[Bound(h, i) % U32_SPAN] == h[i].0
    decreases n
  {
    if i == n - 1 {
    } else {
      WrappedDistributionIsLast(h, n - 1, i);
      assert Bound(h, n - 1) % U32_SPAN != Bound(h, i) % U32_SPAN;
    }
  }

  lemma DistributionSizes(h: Histogram, n: nat, i: nat)
    requires Positive(h) && i < n <= |h|
    ensures Bound(h, i) in Distribution(h, n) && Distribution(h, n)[Bound(h, i)] == h[i].0
  {
    forall j: nat | i < j < n ensures Bound(h, j) != Bound(h, i) {
      TotalMonotone(h, i + 1, j + 1);
    }
    DistributionIsLast(h, n, i);
  }

  // ---------------------------------------------------------------- the lookup

  /** The first key at or above `from` that is at most `top`: the range query. */
  function FirstKeyFrom(d: map<nat, nat>, from: nat, top: nat): (r: Option<nat>)
    ensures r.Some? ==> r.value in d && from <= r.value && forall k :: k in d && from <= k ==> r.value <= k
    ensures r.None? ==> forall k :: k in d && from <= k ==> k > top
    decreases top + 1 - from
  {
    if from in d then Some(from)
    else if from >= top then None
    else FirstKeyFrom(d, from + 1, top)
  }

  /** The key that a draw below the total selects. */
  function Select(p: Pool, draw: nat): Option<nat> {
    FirstKeyFrom(p.distribution, draw, p.total)
  }

  /** `value` up to the random bytes: the size for a raw 64-bit random number. A total of zero
      panics on the remainder, and so would an empty range. */
  function SizeFor(p: Pool, random: nat): Option<nat> {
    if p.total == 0 then None
    else match Select(p, random % p.total)
      case None => None
      case Some(key) => if key in p.distribution then Some(p.distribution[key]) else None
  }

  /** A pool whose total is one of its keys answers every draw below the total. */
  lemma TotalAnswersEveryDraw(p: Pool, random: nat)
    requires p.total > 0 ==> p.total in p.distribution
    ensures SizeFor(p, random).Some? <==> p.total > 0
  {
    if p.total > 0 {
      var r := Select(p, random % p.total);
    }
  }

  /** For every histogram the range query finds a key, so sampling fails only on a zero total;
      a total that wrapped around is no exception. */
  lemma SamplingNeverFails(h: Histogram, random: nat)
    ensures SizeFor(PoolOf(h), random).Some? <==> Total(h, |h|) > 0
    ensures SizeFor(WrappedPool(h), random).Some? <==> Total(h, |h|) % U32_SPAN > 0
  {
    TotalAnswersEveryDraw(PoolOf(h), random);
    TotalAnswersEveryDraw(WrappedPool(h), random);
  }

  /** Entry `i` owns the draws above the previous bound up to its own bound, the first entry
      also the draw zero. */
  lemma SelectedRange(h: Histogram, i: nat, draw: nat)
    requires Positive(h) && i < |h| && draw < Total(h, |h|)
    ensures Select(PoolOf(h), draw) == Some(Bound(h, i)) <==> draw <= Bound(h, i) && (i > 0 ==> Bound(h, i - 1) < draw)
  {
    var p := PoolOf(h);
    DistributionSizes(h, |h|, i);
    if i > 0 {
      DistributionSizes(h, |h|, i - 1);
      TotalMonotone(h, i, i + 1);
    }
    if draw <= Bound(h, i) && (i > 0 ==> Bound(h, i - 1) < draw) {
      var key := Select(p, draw).value;
      DistributionKeys(h, |h|, key);
      var j: nat :| j < |h| && Bound(h, j) == key;
      if j < i {
        TotalMonotone(h, j + 1, i);
      } else {
        TotalMonotone(h, i + 1, j + 1);
      }
    }
  }

  // ---------------------------------------------------------------- how often each entry is hit

  /** The draws that select entry `i`. */
  ghost function Hits(h: Histogram, i: nat): set<nat>
    requires i < |h|
  {
    set draw: nat | draw < Total(h, |h|) && Select(PoolOf(h), draw) == Some(Bound(h, i))
  }

  ghost function Range(lo: nat, hi: nat): (r: set<nat>)
    requires lo <= hi
    ensures forall x :: x in r <==> lo <= x < hi
    ensures |r| == hi - lo
    decreases hi - lo
  {
    if lo == hi then {} else Range(lo, hi - 1) + {hi - 1}
  }

  /** Over all draws, the first entry is hit once too often and the last once too seldom. */
  lemma HitCount(h: Histogram, i: nat)
    requires Positive(h) && i < |h|
    ensures |Hits(h, i)| == h[i].1 + (if i == 0 then 1 else 0) - (if i == |h| - 1 then 1 else 0)
  {
    var lo := if i == 0 then 0 else Bound(h, i - 1) + 1;
    var hi := if i == |h| - 1 then Total(h, |h|) else Bound(h, i) + 1;
    TotalMonotone(h, i, i + 1);
    TotalMonotone(h, i + 1, |h|);
    forall draw: nat ensures draw in Hits(h, i) <==> lo <= draw < hi {
      if draw < Total(h, |h|) {
        SelectedRange(h, i, draw);
      }
    }
    assert Hits(h, i) == Range(lo, hi);
  }

  /** Sampling is proportional to the counts exactly when the histogram has a single entry. */
  lemma ProportionalIff(h: Histogram)
    requires Positive(h) && h != []
    ensures (forall i: nat :: i < |h| ==> |Hits(h, i)| == h[i].1) <==> |h| == 1
  {
    forall i: nat | i < |h|
      ensures |Hits(h, i)| == h[i].1 + (if i == 0 then 1 else 0) - (if i == |h| - 1 then 1 else 0)
    {
      HitCount(h, i);
    }
    if |h| > 1 {
      assert |Hits(h, 0)| == h[0].1 + 1;
    }
  }

  /** Each hit yields the size of its entry. */
  lemma HitYieldsSize(h: Histogram, i: nat, random: nat)
    requires Positive(h) && i < |h| && Total(h, |h|) > 0 && random % Total(h, |h|) in Hits(h, i)
    ensures SizeFor(PoolOf(h), random) == Some(h[i].0)
  {
    DistributionSizes(h, |h|, i);
  }
}
