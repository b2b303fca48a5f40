/** Choosing storage buckets for a new channel: a two-key comparator, a sort and a slice. */
module StorageBuckets {
  import opened Wrappers
  import opened Ordering

  datatype Bucket = Bucket(id: nat, sizeLimit: int, size: int, countLimit: int, count: int)

  function FreeSize(b: Bucket): int { b.sizeLimit - b.size }
  function FreeCount(b: Bucket): int { b.countLimit - b.count }

  function Cmp(a: int, b: int): int { if a < b then -1 else if a > b then 1 else 0 }

  /** The sort callback: free size first, then free object count, both descending. */
  function Compare(x: Bucket, y: Bucket): int {
    var bySize := Cmp(FreeSize(y), FreeSize(x));
    if bySize != 0 then bySize else Cmp(FreeCount(y), FreeCount(x))
  }

  predicate NotAfter(x: Bucket, y: Bucket) { Compare(x, y) <= 0 }

  /** The callback is a consistent comparator: antisymmetric in sign and transitive, and it puts
      the roomier bucket first. */
  lemma ComparatorIsConsistent()
    ensures forall x, y :: Compare(x, y) == -Compare(y, x)
    ensures Preorder(NotAfter)
    ensures forall x, y :: NotAfter(x, y) <==> AtLeastAsRoomy(x, y)
  {
  }

  /** More free size, or the same free size and at least as many free object slots. */
  ghost predicate AtLeastAsRoomy(x: Bucket, y: Bucket) {
    || x.sizeLimit - x.size > y.sizeLimit - y.size
    || (x.sizeLimit - x.size == y.sizeLimit - y.size && x.countLimit - x.count >= y.countLimit - y.count)
  }

  /** `storageBucketsForNewChannel` after the query. */
  method StorageBucketsForNewChannel(buckets: seq<Bucket>) returns (sorted: seq<Bucket>)
    ensures SortOf(NotAfter, buckets, sorted) && |sorted| == |buckets|
  {
    ComparatorIsConsistent();
    SortIsSort(NotAfter, buckets);
    sorted := Sort(NotAfter, buckets);
  }

  datatype SelectError = PolicyUnsatisfied

  /** `selectStorageBucketsForNewChannel`; without a query node there are no buckets at all.
      The outcome names the buckets behind the returned ids. */
  method SelectStorageBucketsForNewChannel(found: Option<seq<Bucket>>, policy: nat)
    returns (r: Result<seq<nat>, SelectError>, ghost chosen: seq<Bucket>, ghost left: seq<Bucket>)
    ensures r.Ok? <==> found.Some? && |found.value| >= policy
    ensures r.Ok? ==> |chosen| == policy && r.value == seq(policy, i requires 0 <= i < policy => chosen[i].id)
    ensures r.Ok? ==> multiset(chosen) + multiset(left) == multiset(found.value)
    ensures r.Ok? ==> forall i, j :: 0 <= i < j < |chosen| ==> AtLeastAsRoomy(chosen[i], chosen[j])
    ensures r.Ok? ==> forall i, j :: 0 <= i < |chosen| && 0 <= j < |left| ==> AtLeastAsRoomy(chosen[i], left[j])
  {
    chosen, left := [], [];
    if found.None? {
      return Err(PolicyUnsatisfied), chosen, left;
    }
    var storageBuckets := StorageBucketsForNewChannel(found.value);
    if |storageBuckets| < policy {
      return Err(PolicyUnsatisfied), chosen, left;
    }
    chosen, left := storageBuckets[..policy], storageBuckets[policy..];
    assert storageBuckets == chosen + left;
    forall i, j | 0 <= i < j < |storageBuckets| ensures AtLeastAsRoomy(storageBuckets[i], storageBuckets[j]) {
      assert NotAfter(storageBuckets[i], storageBuckets[j]);
    }
    r := Ok(seq(policy, i requires 0 <= i < policy => storageBuckets[i].id));
  }

  /** Whichever consistent sort is used, the multiset of free capacities that gets selected is
      the same: the k-th selected bucket always has the same free size and count. */
  lemma {:induction false} SelectionCapacityIsUnique(buckets: seq<Bucket>, s: seq<Bucket>, t: seq<Bucket>, k: nat)
    requires SortOf(NotAfter, buckets, s) && SortOf(NotAfter, buckets, t)
    requires k < |s| && k < |t|
    ensures s[k].sizeLimit - s[k].size == t[k].sizeLimit - t[k].size
    ensures s[k].countLimit - s[k].count == t[k].countLimit - t[k].count
  {
    RankBound(s, t, k);
    RankBound(t, s, k);
  }

  /** In a sorted list the first `k + 1` buckets come no later than the `k`-th. */
  lemma ManyUpTo(t: seq<Bucket>, k: nat)
    requires Sorted(NotAfter, t) && k < |t|
    ensures CountIf((b: Bucket) => NotAfter(b, t[k]), t) >= k + 1
  {
    var pivot := t[k];
    var p := (b: Bucket) => NotAfter(b, pivot);
    var head := t[..k + 1];
    forall i | 0 <= i < |head| ensures p(head[i]) {
      assert i < k ==> NotAfter(t[i], t[k]);
    }
    CountAll(p, head);
    CountConcat(p, head, t[k + 1..]);
    assert t == head + t[k + 1..];
  }

  /** If the `k`-th comes after the pivot, at most `k` do not. */
  lemma FewUpTo(s: seq<Bucket>, k: nat, pivot: Bucket)
    requires Sorted(NotAfter, s) && k < |s| && !NotAfter(s[k], pivot)
    ensures CountIf((b: Bucket) => NotAfter(b, pivot), s) <= k
  {
    var p := (b: Bucket) => NotAfter(b, pivot);
    var tail := s[k..];
    forall i | 0 <= i < |tail| ensures !p(tail[i]) {
      assert i > 0 ==> NotAfter(s[k], s[k + i]);
    }
    CountNone(p, tail);
    CountConcat(p, s[..k], tail);
    assert s == s[..k] + tail;
    CountAtMostLength(p, s[..k]);
  }

  lemma RankBound(s: seq<Bucket>, t: seq<Bucket>, k: nat)
    requires Sorted(NotAfter, s) && Sorted(NotAfter, t) && multiset(s) == multiset(t)
    requires k < |s| && k < |t|
    ensures NotAfter(s[k], t[k])
  {
    var pivot := t[k];
    ManyUpTo(t, k);
    CountOfPermutation((b: Bucket) => NotAfter(b, pivot), s, t);
    if !NotAfter(s[k], pivot) {
      FewUpTo(s, k, pivot);
    }
  }

  lemma {:induction false} CountAtMostLength(p: Bucket -> bool, s: seq<Bucket>)
    ensures CountIf(p, s) <= |s|
    decreases |s|
  {
    if s == [] {
    } else {
      CountAtMostLength(p, s[..|s| - 1]);
    }
  }
}
