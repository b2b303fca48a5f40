/**
 * Transaction fees and the bloat bonds derived from them: saturating arithmetic, the rounded
 * weight-to-fee coefficient, and whether the bonds of a video pay for deleting it.
 */
module BloatBonds {
  import opened Wrappers
  import opened Machine
  import WeightFile

  // ---------------------------------------------------------------- currency (constants.rs)

  const BASE_UNIT_PER_JOY: nat := 10_000_000_000
  const BASE_UNIT_ISSUANCE_USD_MCAP: nat := 60_000_000
  const DOLLARS: nat := 166_666_666_666
  const CENTS: nat := 1_666_666_666
  const MILLICENTS: nat := 1_666_666

  const MINIMUM_BLOAT_BOND_PER_BYTE: nat := 1_666_666
  const DEFAULT_CLEANUP_PROFIT: nat := 1_666_666_666
  const DATA_OBJECT_CLEANUP_PROFIT: nat := 333_333_200
  const TRANSACTION_BYTE_FEE: nat := 333_333
  const MINIMUM_VOTING_STAKE: nat := 1_666_666_666_660

  // 106_628 nanoseconds at 1_000 weight each; one read is 8_997 and one write 54_966.
  const EXTRINSIC_BASE_WEIGHT: nat := 106_628_000

  const MAX_STORAGE_BUCKETS_PER_BAG: nat := 13
  const MAX_ASSETS_PER_VIDEO: nat := 20

  /** The literals above are what the source's expressions come to. */
  lemma CurrencyDerivation()
    ensures DOLLARS == Sat128(BASE_UNIT_PER_JOY * 1_000_000_000) / BASE_UNIT_ISSUANCE_USD_MCAP
    ensures CENTS == DOLLARS / 100 && MILLICENTS == CENTS / 1_000
    ensures MINIMUM_BLOAT_BOND_PER_BYTE == MILLICENTS && DEFAULT_CLEANUP_PROFIT == CENTS
    ensures DATA_OBJECT_CLEANUP_PROFIT == Sat128(MILLICENTS * 200)
    ensures TRANSACTION_BYTE_FEE == Sat128(MILLICENTS * 2) / 10
    ensures MINIMUM_VOTING_STAKE == DOLLARS * 10
  {
  }

  // ---------------------------------------------------------------- rounding

  const BILLION: nat := 1_000_000_000

  /** How a rational number is turned into an integer; every result below holds for each. */
  datatype Rounding = Down | NearestDown | NearestUp | Up

  /** What is added to the numerator before dividing. */
  function Bias(r: Rounding, d: nat): nat
    requires d > 0
  {
    match r
    case Down => 0
    case NearestDown => (d - 1) / 2
    case NearestUp => d / 2
    case Up => d - 1
  }

  function RoundedDiv(r: Rounding, n: nat, d: nat): nat
    requires d > 0
  {
    (n + Bias(r, d)) / d
  }

  /** One rounding errs by less than one unit, and so does the difference of two. */
  lemma RoundingError(r: Rounding, n: nat, m: nat, d: nat)
    requires d > 0
    ensures n - d < d * RoundedDiv(r, n, d) < n + d
    ensures n - m - d < d * (RoundedDiv(r, n, d) - RoundedDiv(r, m, d)) < n - m + d
    ensures m <= n ==> RoundedDiv(r, m, d) <= RoundedDiv(r, n, d)
  {
    var b := Bias(r, d);
    var x: int, y: int := RoundedDiv(r, n, d), RoundedDiv(r, m, d);
    Euclid(n + b, d);
    Euclid(m + b, d);
    assert d * (x - y) == d * x - d * y;
    if m <= n {
      assert d * y < d * x + d;
      CancelMul(d, y, x);
    }
  }

  lemma Euclid(n: nat, d: nat)
    requires d > 0
    ensures n - d < d * (n / d) <= n
  {
    assert n == d * (n / d) + n % d;
  }

  lemma MulMono(c: nat, a: int, b: int)
    requires a <= b
    ensures c * a <= c * b
  {
  }

  lemma CancelMul(d: nat, g: int, t: int)
    requires d > 0 && d * g < d * t + d
    ensures g <= t
  {
    if g >= t + 1 {
      MulMono(d, t + 1, g);
    }
  }

  /** Fees rounded one by one still grow by at most the first step plus one unit per object:
      the exact numerators are `n + i * m`, and `i` is any number of objects. */
  lemma RoundedGrowth(r: Rounding, n: nat, m: nat, d: nat, i: nat)
    requires d > 0
    ensures RoundedDiv(r, n + i * m, d) - RoundedDiv(r, n, d)
         <= i * (RoundedDiv(r, n + m, d) - RoundedDiv(r, n, d) + 1)
  {
    var step := RoundedDiv(r, n + m, d) - RoundedDiv(r, n, d);
    var growth := RoundedDiv(r, n + i * m, d) - RoundedDiv(r, n, d);
    assert m < d * step + d by { RoundingError(r, n + m, n, d); }
    assert d * growth < i * m + d by { RoundingError(r, n + i * m, n, d); }
    assert i * m <= d * (i * (step + 1)) by { ScaleStep(d, i, m, step); }
    CancelMul(d, growth, i * (step + 1));
  }

  lemma ScaleStep(d: nat, i: nat, m: nat, step: int)
    requires m < d * step + d
    ensures i * m <= d * (i * (step + 1))
  {
    MulMono(i, m, d * step + d);
    assert i * (d * step + d) == d * (i * (step + 1));
  }

  // ---------------------------------------------------------------- fees (constants.rs, utils.rs)

  /** Weight times the fractional coefficient, in parts per billion. */
  function FeeNumerator(r: Rounding, weight: nat): nat {
    if r.Up? then 312_613_323 * weight else 312_613_322 * weight
  }

  /** The coefficient is one cent over fifty base weights: no integer part, and a fraction
      rounded to a part per billion. */
  lemma CoefficientDerivation(r: Rounding, weight: nat)
    ensures var q := 50 * EXTRINSIC_BASE_WEIGHT;
            CENTS / q == 0 && FeeNumerator(r, weight) == RoundedDiv(r, (CENTS % q) * BILLION, q) * weight
  {
  }

  /** A product with parts per billion, rounded: `RoundedDiv` by one billion. */
  function Billionth(r: Rounding, n: nat): nat {
    match r
    case Down => n / 1_000_000_000
    case NearestDown => (n + 499_999_999) / 1_000_000_000
    case NearestUp => (n + 500_000_000) / 1_000_000_000
    case Up => (n + 999_999_999) / 1_000_000_000
  }

  lemma BillionthIsRounded(r: Rounding, n: nat)
    ensures Billionth(r, n) == RoundedDiv(r, n, BILLION)
  {
  }

  /** The degree-one polynomial applied to a weight. */
  function WeightToFee(r: Rounding, weight: nat): nat {
    Sat128(Billionth(r, FeeNumerator(r, weight)))
  }

  /** `compute_fee` of a call with this weight and unsigned encoded length; 102 bytes of
      signature are added. */
  function ComputeFee(r: Rounding, weight: nat, encoded: nat): nat {
    var lenFee := Sat128(TRANSACTION_BYTE_FEE * (encoded + 102));
    Sat128(Sat128(WeightToFee(r, EXTRINSIC_BASE_WEIGHT) + WeightToFee(r, weight)) + lenFee)
  }

  function ComputeSingleBloatBond(byteSize: nat, forcedMinimum: Option<nat>): nat {
    var minBloatBond := Sat128(MINIMUM_BLOAT_BOND_PER_BYTE * byteSize);
    match forcedMinimum
    case Some(forced) => Max(minBloatBond, forced)
    case None => minBloatBond
  }

  function SingleBloatBondWithCleanup(byteSize: nat, cleanupFee: nat, profit: nat): nat {
    ComputeSingleBloatBond(byteSize, Some(Sat128(cleanupFee + profit)))
  }

  function SingleExistentialDepositBloatBondWithCleanup(
    byteSize: nat, cleanupFee: nat, profit: nat, existentialDeposit: nat): nat
  {
    ComputeSingleBloatBond(byteSize, Some(Max(Sat128(cleanupFee + profit), existentialDeposit)))
  }

  function StakeWithCleanup(stake: nat, cleanupFee: nat): nat {
    Max(stake, Sat128(cleanupFee + DEFAULT_CLEANUP_PROFIT))
  }

  /** A bond forced above the existential deposit is the least amount that meets all three
      demands: storage cost, deposit, and cleanup fee plus profit. */
  lemma ExistentialBondIsLeast(byteSize: nat, cleanupFee: nat, profit: nat, existentialDeposit: nat, other: nat)
    requires cleanupFee + profit <= U128_MAX && byteSize < U32_SPAN
    ensures var bond := SingleExistentialDepositBloatBondWithCleanup(byteSize, cleanupFee, profit, existentialDeposit);
            bond <= other <==>
              && byteSize * MINIMUM_BLOAT_BOND_PER_BYTE <= other
              && existentialDeposit <= other && cleanupFee + profit <= other
  {
  }

  /** Without the deposit the other two demands decide, and without a forced minimum the storage
      cost alone. */
  lemma CleanupBondIsLeast(byteSize: nat, cleanupFee: nat, profit: nat, other: nat)
    ensures SingleBloatBondWithCleanup(byteSize, cleanupFee, profit) <= other <==>
              || other >= U128_MAX
              || (byteSize * MINIMUM_BLOAT_BOND_PER_BYTE <= other && cleanupFee + profit <= other)
    ensures ComputeSingleBloatBond(byteSize, None) == Min(U128_MAX, byteSize * MINIMUM_BLOAT_BOND_PER_BYTE)
  {
  }

  /** The stake the membership pallet locks on a candidate (runtime/src/lib.rs). */
  function CandidateStake(r: Rounding): nat {
    StakeWithCleanup(MINIMUM_VOTING_STAKE, ComputeFee(r, RemoveStakingAccountWeight(), REMOVE_STAKING_ACCOUNT_LENGTH))
  }

  function RemoveStakingAccountWeight(): nat {
    Sat64(Sat64(93_130_000 + Reads(4)) + Writes(3))
  }

  /** That stake is ten dollars; it would be more exactly for a removal call longer than
      4 994 527 bytes. */
  lemma CandidateStakeIsTenDollars(r: Rounding, encoded: nat)
    ensures CandidateStake(r) == MINIMUM_VOTING_STAKE
    ensures var fee := ComputeFee(r, RemoveStakingAccountWeight(), encoded);
            StakeWithCleanup(MINIMUM_VOTING_STAKE, fee) == MINIMUM_VOTING_STAKE <==> encoded <= 4_994_527
  {
  }

  // ---------------------------------------------------------------- encoded lengths

  /** Length prefix, version, pallet index and call index of an unsigned extrinsic whose call
      takes fewer than sixty bytes, then the arguments. */
  function UnsignedLength(arguments: nat): nat
    requires arguments < 60
  {
    4 + arguments
  }

  const REMOVE_STAKING_ACCOUNT_LENGTH: nat := UnsignedLength(8)

  datatype ContentActor = Curator | Member | Lead

  /** A tag, then a group and a curator, a member, or nothing, eight bytes each. */
  function ActorLength(actor: ContentActor): nat {
    match actor
    case Curator => 17
    case Member => 9
    case Lead => 1
  }

  /** Actor, video, object count and the optional bucket witness. */
  function DeleteVideoLength(actor: ContentActor, bucketsWitness: Option<nat>): nat {
    UnsignedLength(ActorLength(actor) + 8 + 8 + (if bucketsWitness.Some? then 5 else 1))
  }

  /** The call the bonds are computed from names the default actor, the lead. */
  const CONFIGURED_LENGTH: nat := DeleteVideoLength(Lead, Some(MAX_STORAGE_BUCKETS_PER_BAG))

  // ---------------------------------------------------------------- the delete_video call

  function Reads(n: nat): nat { Sat64(8_997_000 * n) }
  function Writes(n: nat): nat { Sat64(54_966_000 * n) }

  /** The generated weight function of `delete_video` with assets. */
  const DELETE_VIDEO_WITH_ASSETS: seq<WeightFile.Term> := [
    WeightFile.Base(519_265_000),
    WeightFile.Scaled("a", 68_055_000),
    WeightFile.Scaled("b", 27_069_000),
    WeightFile.Reads(10),
    WeightFile.ReadsScaled("a", 2),
    WeightFile.ReadsScaled("b", 1),
    WeightFile.Writes(6),
    WeightFile.WritesScaled("a", 2),
    WeightFile.WritesScaled("b", 1)
  ]

  /** `a` objects in `b` storage buckets. */
  function DeleteVideoWithAssets(a: nat, b: nat): nat {
    WeightFile.RustWeight(DELETE_VIDEO_WITH_ASSETS, map["a" := a, "b" := b], 8_997_000, 54_966_000)
  }

  function DeleteVideoWithoutAssets(): nat {
    Sat64(Sat64(429_170_000 + Reads(6)) + Writes(4))
  }

  /** The object count is a u64 that the weight function narrows to a u32. */
  function DeleteVideoWeight(objects: nat, bucketsWitness: Option<nat>): nat {
    if objects != 0 then
      DeleteVideoWithAssets(objects % 0x1_0000_0000, match bucketsWitness case Some(b) => b case None => 0)
    else DeleteVideoWithoutAssets()
  }

  /** What the signer pays for deleting a video with this many objects. */
  function DeleteVideoFee(r: Rounding, encoded: nat, objects: nat, bucketsWitness: Option<nat>): nat {
    ComputeFee(r, DeleteVideoWeight(objects, bucketsWitness), encoded)
  }

  function VideoCleanupTxFee(r: Rounding, encoded: nat): nat {
    DeleteVideoFee(r, encoded, 1, Some(MAX_STORAGE_BUCKETS_PER_BAG))
  }

  /** Two objects minus one object: the cost of one more. */
  function DataObjectCleanupTxFee(r: Rounding, encoded: nat): nat {
    Monus(DeleteVideoFee(r, encoded, 2, Some(MAX_STORAGE_BUCKETS_PER_BAG)),
           DeleteVideoFee(r, encoded, 1, Some(MAX_STORAGE_BUCKETS_PER_BAG)))
  }

  function VideoStateBloatBond(r: Rounding, encoded: nat, entrySize: nat): nat {
    SingleBloatBondWithCleanup(entrySize, VideoCleanupTxFee(r, encoded), DEFAULT_CLEANUP_PROFIT)
  }

  function DataObjectBloatBond(r: Rounding, encoded: nat, entrySize: nat): nat {
    SingleBloatBondWithCleanup(entrySize, DataObjectCleanupTxFee(r, encoded), DATA_OBJECT_CLEANUP_PROFIT)
  }

  // ---------------------------------------------------------------- the bonds pay for deletion

  /** Within the narrowed count and the bucket limit nothing saturates: the weight is affine. */
  lemma DeleteWeightIsAffine(a: nat, b: nat)
    requires a < U32_SPAN && b <= MAX_STORAGE_BUCKETS_PER_BAG
    ensures DeleteVideoWithAssets(a, b) == 939_031_000 + 195_981_000 * a + 91_032_000 * b
  {
    var env := map["a" := a, "b" := b];
    WeightFile.RustWeightSaturatesOnce(DELETE_VIDEO_WITH_ASSETS, env, 8_997_000, 54_966_000);
    var t := DELETE_VIDEO_WITH_ASSETS;
    WeightFile.ExactPrefix(t, 0, env, 8_997_000, 54_966_000);
    WeightFile.ExactPrefix(t, 1, env, 8_997_000, 54_966_000);
    WeightFile.ExactPrefix(t, 2, env, 8_997_000, 54_966_000);
    WeightFile.ExactPrefix(t, 3, env, 8_997_000, 54_966_000);
    WeightFile.ExactPrefix(t, 4, env, 8_997_000, 54_966_000);
    WeightFile.ExactPrefix(t, 5, env, 8_997_000, 54_966_000);
    WeightFile.ExactPrefix(t, 6, env, 8_997_000, 54_966_000);
    WeightFile.ExactPrefix(t, 7, env, 8_997_000, 54_966_000);
    WeightFile.ExactPrefix(t, 8, env, 8_997_000, 54_966_000);
    assert t[..9] == t;
  }

  /** The other two weights: without assets, and with assets but no witness. */
  lemma DeleteWeightsWithoutBuckets(objects: nat)
    ensures DeleteVideoWeight(0, None) == 703_016_000
    ensures forall b :: DeleteVideoWeight(0, Some(b)) == 703_016_000
    ensures 0 < objects < U32_SPAN ==> DeleteVideoWeight(objects, None) == 939_031_000 + 195_981_000 * objects
    ensures objects >= U32_SPAN ==>
              DeleteVideoWeight(objects, None) == 939_031_000 + 195_981_000 * (objects % U32_SPAN)
  {
    DeleteWeightIsAffine(objects % U32_SPAN, 0);
  }

  /** How long the calls are, by actor and witness. */
  lemma DeleteVideoLengths(actor: ContentActor, buckets: nat)
    ensures DeleteVideoLength(actor, Some(buckets))
         == (match actor case Lead => 26 case Member => 34 case Curator => 42)
    ensures DeleteVideoLength(actor, None) == DeleteVideoLength(actor, Some(buckets)) - 4
    ensures REMOVE_STAKING_ACCOUNT_LENGTH == 12
  {
  }

  /** The rounded part of a fee that depends on the weight. */
  function WeightPart(r: Rounding, weight: nat): nat { Billionth(r, FeeNumerator(r, weight)) }

  /** Saturating part by part is saturating the sum of the parts once. */
  lemma FeeSaturatesOnce(r: Rounding, weight: nat, encoded: nat)
    ensures ComputeFee(r, weight, encoded)
         == Min(U128_MAX,
                WeightPart(r, EXTRINSIC_BASE_WEIGHT) + WeightPart(r, weight) + TRANSACTION_BYTE_FEE * (encoded + 102))
  {
  }

  /** No fee of a u64 weight and a u64 length saturates, so a fee is the sum of its parts. */
  lemma FeeIsExact(r: Rounding, weight: nat, encoded: nat)
    requires weight <= U64_MAX && encoded <= U64_MAX
    ensures ComputeFee(r, weight, encoded)
         == WeightPart(r, EXTRINSIC_BASE_WEIGHT) + WeightPart(r, weight) + TRANSACTION_BYTE_FEE * (encoded + 102)
  {
  }

  /** Rounded growth for weights `w`, `w + perObject`, `w + i * perObject`. */
  lemma WeightPartGrowth(r: Rounding, w: nat, perObject: nat, i: nat)
    ensures WeightPart(r, w + i * perObject) - WeightPart(r, w)
         <= i * (WeightPart(r, w + perObject) - WeightPart(r, w) + 1)
  {
    var n, m := FeeNumerator(r, w), FeeNumerator(r, perObject);
    assert WeightPart(r, w) == RoundedDiv(r, n, BILLION) by { BillionthIsRounded(r, n); }
    assert WeightPart(r, w + perObject) == RoundedDiv(r, n + m, BILLION) by {
      NumeratorIsLinear(r, w, perObject, 1);
      BillionthIsRounded(r, n + m);
    }
    assert WeightPart(r, w + i * perObject) == RoundedDiv(r, n + i * m, BILLION) by {
      NumeratorIsLinear(r, w, perObject, i);
      BillionthIsRounded(r, n + i * m);
    }
    RoundedGrowth(r, n, m, BILLION, i);
  }

  lemma NumeratorIsLinear(r: Rounding, w: nat, perObject: nat, i: nat)
    ensures FeeNumerator(r, w + i * perObject) == FeeNumerator(r, w) + i * FeeNumerator(r, perObject)
  {
  }

  /** Per-object fee: what the second object adds to the rounded weight part. */
  function ObjectFee(r: Rounding): nat { Monus(WeightPart(r, 2_514_409_000), WeightPart(r, 2_318_428_000)) }

  lemma CleanupFeesAreExact(r: Rounding, encoded: nat)
    requires encoded < U32_SPAN
    ensures VideoCleanupTxFee(r, encoded)
         == WeightPart(r, EXTRINSIC_BASE_WEIGHT) + WeightPart(r, 2_318_428_000) + TRANSACTION_BYTE_FEE * (encoded + 102)
    ensures DataObjectCleanupTxFee(r, encoded) == ObjectFee(r)
  {
    DeleteWeightIsAffine(1, MAX_STORAGE_BUCKETS_PER_BAG);
    DeleteWeightIsAffine(2, MAX_STORAGE_BUCKETS_PER_BAG);
    FeeIsExact(r, 2_318_428_000, encoded);
    FeeIsExact(r, 2_514_409_000, encoded);
    ObjectFeeIs(r);
  }

  lemma ObjectFeeIs(r: Rounding)
    ensures ObjectFee(r) == if r.Down? then 61_266_272 else 61_266_271
    ensures ObjectFee(r) == WeightPart(r, 2_514_409_000) - WeightPart(r, 2_318_428_000)
  {
  }

  /** Objects beyond the first. */
  function Others(objects: nat): nat { if objects == 0 then 0 else objects - 1 }

  /** The same amount paid once per object. */
  function PerObject(objects: nat, each: nat): nat {
    if objects == 0 then 0 else each + PerObject(objects - 1, each)
  }

  lemma {:induction false} PerObjectIsProduct(objects: nat, each: nat)
    ensures PerObject(objects, each) == objects * each
    decreases objects
  {
    if objects == 0 {
    } else {
      PerObjectIsProduct(objects - 1, each);
    }
  }

  lemma {:induction false} PerObjectMonotone(fewer: nat, objects: nat, each: nat)
    requires fewer <= objects
    ensures PerObject(fewer, each) <= PerObject(objects, each)
    decreases objects
  {
    if fewer == objects {
    } else {
      PerObjectMonotone(fewer, objects - 1, each);
    }
  }

  /** Each object beyond the first adds at most the per-object fee plus one unit. */
  lemma WeightPartOfDeletion(r: Rounding, a: nat, b: nat)
    requires b <= MAX_STORAGE_BUCKETS_PER_BAG
    ensures WeightPart(r, 939_031_000 + 195_981_000 * a + 91_032_000 * b)
         <= WeightPart(r, 2_318_428_000) + PerObject(Others(a), ObjectFee(r) + 1)
  {
    var i := Others(a);
    var w := 939_031_000 + 195_981_000 * a + 91_032_000 * b;
    var v := 2_318_428_000 + i * 195_981_000;
    WeightPartGrowth(r, 2_318_428_000, 195_981_000, i);
    ObjectFeeIs(r);
    PerObjectIsProduct(i, ObjectFee(r) + 1);
  }

  /** How much longer a deletion may be than the call the bonds were computed from: one
      per-object fee pays for 183 bytes. */
  const SPARE_BYTES: nat := 183

  lemma FeeWithoutObjects(r: Rounding, encoded: nat, called: nat)
    requires encoded < U32_SPAN && called <= encoded + SPARE_BYTES
    ensures ComputeFee(r, DeleteVideoWithoutAssets(), called) <= VideoCleanupTxFee(r, encoded)
  {
    CleanupFeesAreExact(r, encoded);
    FeeIsExact(r, DeleteVideoWithoutAssets(), called);
  }

  lemma FeeWithObjects(r: Rounding, encoded: nat, called: nat, extra: nat, a: nat, b: nat)
    requires encoded < U32_SPAN && called <= encoded + extra && extra < U32_SPAN
    requires a < U32_SPAN && b <= MAX_STORAGE_BUCKETS_PER_BAG
    ensures ComputeFee(r, DeleteVideoWithAssets(a, b), called)
         <= VideoCleanupTxFee(r, encoded) + PerObject(Others(a), ObjectFee(r) + 1) + TRANSACTION_BYTE_FEE * extra
  {
    var w := 939_031_000 + 195_981_000 * a + 91_032_000 * b;
    var part, first := WeightPart(r, w), WeightPart(r, 2_318_428_000);
    var rest := PerObject(Others(a), ObjectFee(r) + 1);
    assert part <= first + rest by { WeightPartOfDeletion(r, a, b); }
    assert DeleteVideoWithAssets(a, b) == w by { DeleteWeightIsAffine(a, b); }
    var shared := WeightPart(r, EXTRINSIC_BASE_WEIGHT);
    assert ComputeFee(r, w, called) == shared + part + TRANSACTION_BYTE_FEE * (called + 102) by {
      FeeIsExact(r, w, called);
    }
    assert VideoCleanupTxFee(r, encoded) == shared + first + TRANSACTION_BYTE_FEE * (encoded + 102) by {
      CleanupFeesAreExact(r, encoded);
    }
  }

  ghost predicate BucketsFit(buckets: Option<nat>) {
    buckets.Some? ==> buckets.value <= MAX_STORAGE_BUCKETS_PER_BAG
  }

  /** The deletion fee, of a call up to `extra` bytes longer, against the fees the bonds were
      computed from. */
  lemma DeletionFeeBound(r: Rounding, encoded: nat, called: nat, extra: nat, objects: nat, buckets: Option<nat>)
    requires encoded < U32_SPAN && called <= encoded + extra && extra <= SPARE_BYTES && BucketsFit(buckets)
    ensures DeleteVideoFee(r, called, objects, buckets)
         <= VideoCleanupTxFee(r, encoded) + PerObject(Others(objects), ObjectFee(r) + 1)
            + (if objects == 0 then 0 else TRANSACTION_BYTE_FEE * extra)
  {
    if objects == 0 {
      FeeWithoutObjects(r, encoded, called);
    } else {
      var a := objects % 0x1_0000_0000;
      var b := match buckets case Some(b) => b case None => 0;
      var each := ObjectFee(r) + 1;
      var fee, first := DeleteVideoFee(r, called, objects, buckets), VideoCleanupTxFee(r, encoded);
      assert fee <= first + PerObject(Others(a), each) + TRANSACTION_BYTE_FEE * extra by {
        assert fee == ComputeFee(r, DeleteVideoWithAssets(a, b), called);
        FeeWithObjects(r, encoded, called, extra, a, b);
      }
      assert PerObject(Others(a), each) <= PerObject(Others(objects), each) by {
        PerObjectMonotone(Others(a), Others(objects), each);
      }
    }
  }

  lemma BondsAtLeastFees(r: Rounding, encoded: nat, videoSize: nat, objectSize: nat)
    requires encoded < U32_SPAN
    ensures VideoStateBloatBond(r, encoded, videoSize) >= VideoCleanupTxFee(r, encoded) + DEFAULT_CLEANUP_PROFIT
    ensures DataObjectBloatBond(r, encoded, objectSize) >= ObjectFee(r) + DATA_OBJECT_CLEANUP_PROFIT
  {
    CleanupFeesAreExact(r, encoded);
    ObjectFeeIs(r);
  }

  /** Object by object: a bond of at least fee plus profit leaves the profit less one unit, and
      the fee of the first object, which the video bond has already paid. */
  lemma {:induction false} ObjectBondsCover(objects: nat, bond: nat, fee: nat, profit: nat)
    requires bond >= fee + profit && profit >= 1
    ensures PerObject(objects, bond)
         >= PerObject(Others(objects), fee + 1) + PerObject(objects, profit - 1) + (if objects == 0 then 0 else fee + 1)
    decreases objects
  {
    if objects == 0 {
    } else {
      ObjectBondsCover(objects - 1, bond, fee, profit);
    }
  }

  const PROFIT_LESS_ONE: nat := DATA_OBJECT_CLEANUP_PROFIT - 1

  /** What deleting a video returns pays the deletion, the video profit in full, and this much
      profit for each object. */
  ghost predicate Pays(
    r: Rounding, encoded: nat, called: nat, videoSize: nat, objectSize: nat, objects: nat, buckets: Option<nat>,
    each: nat)
  {
    VideoStateBloatBond(r, encoded, videoSize) + PerObject(objects, DataObjectBloatBond(r, encoded, objectSize))
      >= DeleteVideoFee(r, called, objects, buckets) + DEFAULT_CLEANUP_PROFIT + PerObject(objects, each)
  }

  /** For every rounding mode, every number of objects, every bucket witness, every entry size
      and every call up to 183 bytes longer than the one the bonds were computed from, the bonds
      returned for a video pay the fee of deleting it, the video profit in full and the
      per-object profit up to one base unit per object. */
  lemma BondsCoverDeletion(
      r: Rounding, encoded: nat, called: nat, videoSize: nat, objectSize: nat, objects: nat, buckets: Option<nat>)
    requires encoded < U32_SPAN && called <= encoded + SPARE_BYTES && BucketsFit(buckets)
    ensures Pays(r, encoded, called, videoSize, objectSize, objects, buckets, PROFIT_LESS_ONE)
  {
    var bond, video := DataObjectBloatBond(r, encoded, objectSize), VideoStateBloatBond(r, encoded, videoSize);
    var first := VideoCleanupTxFee(r, encoded);
    assert DeleteVideoFee(r, called, objects, buckets)
        <= first + PerObject(Others(objects), ObjectFee(r) + 1) + (if objects == 0 then 0 else 60_999_939) by {
      DeletionFeeBound(r, encoded, called, SPARE_BYTES, objects, buckets);
    }
    assert bond >= ObjectFee(r) + DATA_OBJECT_CLEANUP_PROFIT && video >= first + DEFAULT_CLEANUP_PROFIT by {
      BondsAtLeastFees(r, encoded, videoSize, objectSize);
    }
    ObjectFeeIs(r);
    ObjectBondsCover(objects, bond, ObjectFee(r), DATA_OBJECT_CLEANUP_PROFIT);
  }

  /** The entries are small enough for the fees, not the storage cost, to decide the bonds. */
  predicate FeesDecide(r: Rounding, encoded: nat, videoSize: nat, objectSize: nat) {
    && MINIMUM_BLOAT_BOND_PER_BYTE * videoSize <= VideoCleanupTxFee(r, encoded) + DEFAULT_CLEANUP_PROFIT
    && MINIMUM_BLOAT_BOND_PER_BYTE * objectSize <= DataObjectCleanupTxFee(r, encoded) + DATA_OBJECT_CLEANUP_PROFIT
  }

  /** As configured, that is a video entry of at most 1 480 and an object entry of at most 236
      bytes. */
  lemma FeesDecideUpTo(r: Rounding, videoSize: nat, objectSize: nat)
    ensures FeesDecide(r, CONFIGURED_LENGTH, videoSize, objectSize) <==> videoSize <= 1_480 && objectSize <= 236
  {
    CleanupFeesAreExact(r, CONFIGURED_LENGTH);
    ObjectFeeIs(r);
  }

  lemma SmallestBonds(r: Rounding, encoded: nat, videoSize: nat, objectSize: nat)
    requires encoded < U32_SPAN && FeesDecide(r, encoded, videoSize, objectSize)
    ensures VideoStateBloatBond(r, encoded, videoSize) == VideoCleanupTxFee(r, encoded) + DEFAULT_CLEANUP_PROFIT
    ensures DataObjectBloatBond(r, encoded, objectSize) == ObjectFee(r) + DATA_OBJECT_CLEANUP_PROFIT
  {
    CleanupFeesAreExact(r, encoded);
    ObjectFeeIs(r);
  }

  /** The fee of deleting `objects` objects from a full bag, against the configured fee. */
  lemma FullBagFee(r: Rounding, encoded: nat, called: nat, objects: nat)
    requires encoded < U32_SPAN && called <= 2 * U32_SPAN && 0 < objects < U32_SPAN
    ensures DeleteVideoFee(r, called, objects, Some(MAX_STORAGE_BUCKETS_PER_BAG))
         == VideoCleanupTxFee(r, encoded) - WeightPart(r, 2_318_428_000)
            + WeightPart(r, 2_122_447_000 + 195_981_000 * objects) + TRANSACTION_BYTE_FEE * (called - encoded)
  {
    var w := 2_122_447_000 + 195_981_000 * objects;
    var shared := WeightPart(r, EXTRINSIC_BASE_WEIGHT);
    assert DeleteVideoWeight(objects, Some(MAX_STORAGE_BUCKETS_PER_BAG)) == w by {
      DeleteWeightIsAffine(objects, MAX_STORAGE_BUCKETS_PER_BAG);
    }
    assert ComputeFee(r, w, called) == shared + WeightPart(r, w) + TRANSACTION_BYTE_FEE * (called + 102) by {
      FeeIsExact(r, w, called);
    }
    assert VideoCleanupTxFee(r, encoded)
        == shared + WeightPart(r, 2_318_428_000) + TRANSACTION_BYTE_FEE * (encoded + 102) by {
      CleanupFeesAreExact(r, encoded);
    }
  }

  /** The bonds pay for every deletion by a call up to `extra` bytes longer. */
  ghost predicate PaysLongerCalls(r: Rounding, encoded: nat, extra: nat, videoSize: nat, objectSize: nat) {
    forall called: nat, objects: nat, buckets: Option<nat> :: called <= encoded + extra && BucketsFit(buckets) ==>
      Pays(r, encoded, called, videoSize, objectSize, objects, buckets, PROFIT_LESS_ONE)
  }

  /** 183 bytes are exact for any entry sizes at which the fees decide the bonds: one byte more
      and the bonds no longer pay for every video. */
  lemma SpareBytesAreExact(r: Rounding, encoded: nat, extra: nat, videoSize: nat, objectSize: nat)
    requires encoded < U32_SPAN
    ensures extra <= SPARE_BYTES ==> PaysLongerCalls(r, encoded, extra, videoSize, objectSize)
    ensures FeesDecide(r, encoded, videoSize, objectSize) ==>
              (PaysLongerCalls(r, encoded, extra, videoSize, objectSize) <==> extra <= SPARE_BYTES)
  {
    if extra <= SPARE_BYTES {
      forall called: nat, objects: nat, buckets: Option<nat> | called <= encoded + extra && BucketsFit(buckets)
        ensures Pays(r, encoded, called, videoSize, objectSize, objects, buckets, PROFIT_LESS_ONE)
      {
        BondsCoverDeletion(r, encoded, called, videoSize, objectSize, objects, buckets);
      }
    } else if FeesDecide(r, encoded, videoSize, objectSize) {
      OneByteTooLong(r, encoded, videoSize, objectSize);
      assert BucketsFit(Some(MAX_STORAGE_BUCKETS_PER_BAG));
    }
  }

  lemma OneByteTooLong(r: Rounding, encoded: nat, videoSize: nat, objectSize: nat)
    requires encoded < U32_SPAN && FeesDecide(r, encoded, videoSize, objectSize)
    ensures !Pays(r, encoded, encoded + SPARE_BYTES + 1, videoSize, objectSize, 1,
                  Some(MAX_STORAGE_BUCKETS_PER_BAG), PROFIT_LESS_ONE)
  {
    SmallestBonds(r, encoded, videoSize, objectSize);
    FullBagFee(r, encoded, encoded + SPARE_BYTES + 1, 1);
    ObjectFeeIs(r);
    var bond := DataObjectBloatBond(r, encoded, objectSize);
    assert PerObject(1, bond) == bond + PerObject(0, bond);
  }

  // ---------------------------------------------------------------- the per-object profit in full

  /** The most objects whose rounding one per-object fee, less the actor's extra bytes, still
      makes good, in the modes that lose by rounding. */
  function FullProfitLimit(r: Rounding, actor: ContentActor): nat {
    match (r, actor)
    case (Up, Lead) => 93_555_861
    case (Up, Member) => 89_483_767
    case (Up, Curator) => 85_411_673
    case (_, Lead) => 133_512_040
    case (_, Member) => 127_700_820
    case (_, Curator) => 121_889_601
  }

  /** What is left after `k` objects, the actor's extra bytes included. */
  function Surplus(r: Rounding, actor: ContentActor, k: nat): int {
    k * ObjectFee(r) + WeightPart(r, 2_318_428_000)
      - WeightPart(r, 2_122_447_000 + 195_981_000 * k) - TRANSACTION_BYTE_FEE * (ActorLength(actor) - 1)
  }

  lemma SurplusDown(actor: ContentActor, k: nat)
    requires k > 0
    ensures Surplus(Down, actor, k) >= 0
  {
    ObjectFeeIs(Down);
  }

  lemma SurplusNearest(r: Rounding, actor: ContentActor, k: nat)
    requires r.NearestDown? || r.NearestUp?
    requires k > 0
    ensures Surplus(r, actor, k) >= 0 <==> k <= FullProfitLimit(r, actor)
  {
    ObjectFeeIs(r);
    assert k * ObjectFee(r) == 61_266_271 * k;
  }

  lemma SurplusUp(actor: ContentActor, k: nat)
    requires k > 0
    ensures Surplus(Up, actor, k) >= 0 <==> k <= FullProfitLimit(Up, actor)
  {
    ObjectFeeIs(Up);
    assert k * ObjectFee(Up) == 61_266_271 * k;
  }

  lemma SurplusSign(r: Rounding, actor: ContentActor, k: nat)
    requires k > 0
    ensures Surplus(r, actor, k) >= 0 <==> r.Down? || k <= FullProfitLimit(r, actor)
  {
    match r
    case Down => SurplusDown(actor, k);
    case NearestDown => SurplusNearest(r, actor, k);
    case NearestUp => SurplusNearest(r, actor, k);
    case Up => SurplusUp(actor, k);
  }

  lemma {:induction false} PerObjectGrows(objects: nat, less: nat, more: nat)
    requires less <= more
    ensures PerObject(objects, less) <= PerObject(objects, more)
    decreases objects
  {
    if objects == 0 {
    } else {
      PerObjectGrows(objects - 1, less, more);
    }
  }

  /** The fee of deleting `a` objects never exceeds that with a full bag and the witness given. */
  lemma DearestDeletion(r: Rounding, actor: ContentActor, a: nat, buckets: Option<nat>)
    requires 0 < a < U32_SPAN && BucketsFit(buckets)
    ensures ComputeFee(r, DeleteVideoWithAssets(a, match buckets case Some(b) => b case None => 0),
                       DeleteVideoLength(actor, buckets))
         <= VideoCleanupTxFee(r, CONFIGURED_LENGTH) - WeightPart(r, 2_318_428_000)
            + WeightPart(r, 2_122_447_000 + 195_981_000 * a) + TRANSACTION_BYTE_FEE * (ActorLength(actor) - 1)
  {
    var b := match buckets case Some(b) => b case None => 0;
    var w := 939_031_000 + 195_981_000 * a + 91_032_000 * b;
    var length := DeleteVideoLength(actor, buckets);
    var shared := WeightPart(r, EXTRINSIC_BASE_WEIGHT);
    assert DeleteVideoWithAssets(a, b) == w by { DeleteWeightIsAffine(a, b); }
    assert ComputeFee(r, w, length) == shared + WeightPart(r, w) + TRANSACTION_BYTE_FEE * (length + 102) by {
      FeeIsExact(r, w, length);
    }
    assert VideoCleanupTxFee(r, CONFIGURED_LENGTH)
        == shared + WeightPart(r, 2_318_428_000) + TRANSACTION_BYTE_FEE * (CONFIGURED_LENGTH + 102) by {
      CleanupFeesAreExact(r, CONFIGURED_LENGTH);
    }
    assert WeightPart(r, w) <= WeightPart(r, 2_122_447_000 + 195_981_000 * a) by {
      WeightPartIsMonotone(r, w, 2_122_447_000 + 195_981_000 * a);
    }
    assert length - CONFIGURED_LENGTH <= ActorLength(actor) - 1;
  }

  lemma WeightPartIsMonotone(r: Rounding, w: nat, v: nat)
    requires w <= v
    ensures WeightPart(r, w) <= WeightPart(r, v)
  {
  }

  /** What the bonds promise object by object, as a product. */
  lemma BondsAsProduct(r: Rounding, videoSize: nat, objectSize: nat, objects: nat)
    ensures VideoStateBloatBond(r, CONFIGURED_LENGTH, videoSize)
              + PerObject(objects, DataObjectBloatBond(r, CONFIGURED_LENGTH, objectSize))
         >= VideoCleanupTxFee(r, CONFIGURED_LENGTH) + DEFAULT_CLEANUP_PROFIT
            + objects * ObjectFee(r) + PerObject(objects, DATA_OBJECT_CLEANUP_PROFIT)
  {
    BondsAtLeastFees(r, CONFIGURED_LENGTH, videoSize, objectSize);
    var bond := DataObjectBloatBond(r, CONFIGURED_LENGTH, objectSize);
    PerObjectGrows(objects, ObjectFee(r) + DATA_OBJECT_CLEANUP_PROFIT, bond);
    PerObjectSplits(objects, ObjectFee(r), DATA_OBJECT_CLEANUP_PROFIT);
  }

  ghost predicate PaysInFull(
    r: Rounding, actor: ContentActor, videoSize: nat, objectSize: nat, objects: nat, buckets: Option<nat>)
  {
    Pays(r, CONFIGURED_LENGTH, DeleteVideoLength(actor, buckets), videoSize, objectSize, objects, buckets,
         DATA_OBJECT_CLEANUP_PROFIT)
  }

  lemma PaidInFull(
      r: Rounding, actor: ContentActor, videoSize: nat, objectSize: nat, objects: nat, buckets: Option<nat>)
    requires BucketsFit(buckets)
    requires r.Down? || objects <= FullProfitLimit(r, actor) || objects >= U32_SPAN
    ensures PaysInFull(r, actor, videoSize, objectSize, objects, buckets)
  {
    var fee := DeleteVideoFee(r, DeleteVideoLength(actor, buckets), objects, buckets);
    assert fee <= VideoCleanupTxFee(r, CONFIGURED_LENGTH) + objects * ObjectFee(r) by {
      NarrowedFee(r, actor, objects, buckets);
    }
    BondsAsProduct(r, videoSize, objectSize, objects);
  }

  /** The narrowed count is never dearer than the bonds allow. */
  lemma NarrowedFee(r: Rounding, actor: ContentActor, objects: nat, buckets: Option<nat>)
    requires BucketsFit(buckets)
    requires r.Down? || objects <= FullProfitLimit(r, actor) || objects >= U32_SPAN
    ensures DeleteVideoFee(r, DeleteVideoLength(actor, buckets), objects, buckets)
         <= VideoCleanupTxFee(r, CONFIGURED_LENGTH) + objects * ObjectFee(r)
  {
    var a := objects % 0x1_0000_0000;
    var b := match buckets case Some(b) => b case None => 0;
    var length := DeleteVideoLength(actor, buckets);
    ObjectFeeIs(r);
    if objects == 0 {
      FeeWithoutObjects(r, CONFIGURED_LENGTH, length);
    } else if a == 0 {
      FeeWithObjects(r, CONFIGURED_LENGTH, length, 16, a, b);
      assert objects * ObjectFee(r) >= 61_266_271;
    } else {
      DearestDeletion(r, actor, a, buckets);
      SurplusOfNarrowed(r, actor, objects);
    }
  }

  lemma SurplusOfNarrowed(r: Rounding, actor: ContentActor, objects: nat)
    requires objects % U32_SPAN > 0
    requires r.Down? || objects <= FullProfitLimit(r, actor) || objects >= U32_SPAN
    ensures objects * ObjectFee(r) + WeightPart(r, 2_318_428_000)
         >= WeightPart(r, 2_122_447_000 + 195_981_000 * (objects % U32_SPAN))
            + TRANSACTION_BYTE_FEE * (ActorLength(actor) - 1)
  {
    if objects < U32_SPAN {
      SurplusSign(r, actor, objects);
    } else {
      ObjectFeeIs(r);
    }
  }

  /** Whoever deletes the video, and whatever the bucket witness, the bonds also pay the
      per-object profit in full up to a limit of many million objects (a video may have twenty),
      again once the object count no longer fits the u32 it is narrowed to, and always when fees
      are rounded down; and exactly then, for any entry sizes at which the fees decide the
      bonds. */
  lemma FullProfitIff(r: Rounding, actor: ContentActor, objects: nat, videoSize: nat, objectSize: nat)
    ensures var full := forall buckets :: BucketsFit(buckets) ==>
                          PaysInFull(r, actor, videoSize, objectSize, objects, buckets);
            var within := r.Down? || objects <= FullProfitLimit(r, actor) || objects >= U32_SPAN;
            && (within ==> full)
            && (FeesDecide(r, CONFIGURED_LENGTH, videoSize, objectSize) ==> (full <==> within))
    ensures MAX_ASSETS_PER_VIDEO <= FullProfitLimit(r, actor)
  {
    if r.Down? || objects <= FullProfitLimit(r, actor) || objects >= U32_SPAN {
      forall buckets | BucketsFit(buckets)
        ensures PaysInFull(r, actor, videoSize, objectSize, objects, buckets)
      {
        PaidInFull(r, actor, videoSize, objectSize, objects, buckets);
      }
    } else if FeesDecide(r, CONFIGURED_LENGTH, videoSize, objectSize) {
      NotPaidInFull(r, actor, objects, videoSize, objectSize);
      assert BucketsFit(Some(MAX_STORAGE_BUCKETS_PER_BAG));
    }
  }

  lemma NotPaidInFull(r: Rounding, actor: ContentActor, objects: nat, videoSize: nat, objectSize: nat)
    requires !r.Down? && FullProfitLimit(r, actor) < objects < U32_SPAN
    requires FeesDecide(r, CONFIGURED_LENGTH, videoSize, objectSize)
    ensures !PaysInFull(r, actor, videoSize, objectSize, objects, Some(MAX_STORAGE_BUCKETS_PER_BAG))
  {
    var fullBag := Some(MAX_STORAGE_BUCKETS_PER_BAG);
    var length := DeleteVideoLength(actor, fullBag);
    var fee, first := DeleteVideoFee(r, length, objects, fullBag), VideoCleanupTxFee(r, CONFIGURED_LENGTH);
    var bond := DataObjectBloatBond(r, CONFIGURED_LENGTH, objectSize);
    var video := VideoStateBloatBond(r, CONFIGURED_LENGTH, videoSize);
    assert video == first + DEFAULT_CLEANUP_PROFIT && bond == ObjectFee(r) + DATA_OBJECT_CLEANUP_PROFIT by {
      SmallestBonds(r, CONFIGURED_LENGTH, videoSize, objectSize);
    }
    assert PerObject(objects, bond) == objects * ObjectFee(r) + PerObject(objects, DATA_OBJECT_CLEANUP_PROFIT) by {
      PerObjectSplits(objects, ObjectFee(r), DATA_OBJECT_CLEANUP_PROFIT);
    }
    assert fee > first + objects * ObjectFee(r) by { FeeBeyondLimit(r, actor, objects); }
  }

  lemma FeeBeyondLimit(r: Rounding, actor: ContentActor, objects: nat)
    requires !r.Down? && FullProfitLimit(r, actor) < objects < U32_SPAN
    ensures var fullBag := Some(MAX_STORAGE_BUCKETS_PER_BAG);
            DeleteVideoFee(r, DeleteVideoLength(actor, fullBag), objects, fullBag)
              > VideoCleanupTxFee(r, CONFIGURED_LENGTH) + objects * ObjectFee(r)
  {
    FullBagFee(r, CONFIGURED_LENGTH, DeleteVideoLength(actor, Some(MAX_STORAGE_BUCKETS_PER_BAG)), objects);
    SurplusSign(r, actor, objects);
  }

  lemma PerObjectSplits(objects: nat, fee: nat, profit: nat)
    ensures PerObject(objects, fee + profit) == objects * fee + PerObject(objects, profit)
  {
    PerObjectIsProduct(objects, fee + profit);
    PerObjectIsProduct(objects, profit);
  }
}
