/** The quantile estimator over cumulative histograms, with exact reals. */
module Quantiles {
  import opened WeightedHistograms

  datatype Bucket = Bucket(upperBound: Bound, count: real)

  datatype Quantile = Value(r: real) | NegInfinity | PosInfinity | NotANumber

  /** Increasing non-negative bounds, of which only the last may be infinite, and
      cumulative counts. */
  ghost predicate ValidBuckets(bs: seq<Bucket>) {
    && bs != []
    && (forall i, j | 0 <= i < j < |bs| :: bs[i].upperBound.Less(bs[j].upperBound) && bs[i].count <= bs[j].count)
    && (bs[0].upperBound.Finite? ==> bs[0].upperBound.r >= 0.0)
    && bs[0].count >= 0.0
  }

  function Total(bs: seq<Bucket>): real
    requires bs != []
  {
    bs[|bs| - 1].count
  }

  /** The first of the first `n` buckets to reach `rank`, or `n`. */
  function FirstReaching(bs: seq<Bucket>, n: nat, rank: real): (b: nat)
    requires n <= |bs|
    ensures b <= n
    ensures forall i | 0 <= i < b :: bs[i].count < rank
    ensures b < n ==> bs[b].count >= rank
  {
    if n == 0 then 0
    else
      var b := FirstReaching(bs, n - 1, rank);
      if b < n - 1 || bs[b].count >= rank then b else n
  }

  /** `sort.Search` finds it by bisection. */
  method SearchRank(bs: seq<Bucket>, n: nat, rank: real) returns (b: nat)
    requires ValidBuckets(bs) && n <= |bs|
    ensures b == FirstReaching(bs, n, rank)
  {
    var lo, hi := 0, n;
    while lo < hi
      invariant 0 <= lo <= hi <= n
      invariant forall i | 0 <= i < lo :: bs[i].count < rank
      invariant hi < n ==> bs[hi].count >= rank
    {
      var mid := (lo + hi) / 2;
      if !(bs[mid].count >= rank) {
        lo := mid + 1;
      } else {
        hi := mid;
      }
    }
    b := lo;
  }

  /** A point between `lo` and `hi`, `part` of the way to `whole`. */
  function Interpolate(lo: real, hi: real, part: real, whole: real): real
    requires whole != 0.0
  {
    lo + (hi - lo) * (part / whole)
  }

  /** The value that `rank` stands for, given the bucket it falls into. */
  function Estimate(bs: seq<Bucket>, b: nat, rank: real): Quantile
    requires ValidBuckets(bs) && |bs| >= 2 && b < |bs|
    requires b > 0 ==> bs[b - 1].count < rank
    requires b < |bs| - 1 ==> rank <= bs[b].count
    requires rank <= Total(bs)
  {
    if b == 0 then
      if bs[0].count == 0.0 then NotANumber else Value(bs[0].upperBound.r * (rank / bs[0].count))
    else if b == |bs| - 1 && bs[b].upperBound.PosInf? then
      Value(bs[b - 1].upperBound.r)
    else
      var before := bs[b - 1];
      Value(Interpolate(before.upperBound.r, bs[b].upperBound.r, rank - before.count, bs[b].count - before.count))
  }

  function EstimateRank(bs: seq<Bucket>, rank: real): Quantile
    requires ValidBuckets(bs) && |bs| >= 2 && rank <= Total(bs)
  {
    Estimate(bs, FirstReaching(bs, |bs| - 1, rank), rank)
  }

  /** The number of samples up to the quantile. */
  function Rank(q: real, total: real): (rank: real)
    requires 0.0 <= q <= 1.0 && total >= 0.0
    ensures 0.0 <= rank <= total
    ensures q > 0.0 && total > 0.0 ==> rank > 0.0
  {
    assert (1.0 - q) * total >= 0.0;
    assert (1.0 - q) * total == total - q * total;
    q * total
  }

  function BucketQuantile(q: real, bs: seq<Bucket>): Quantile
    requires ValidBuckets(bs)
  {
    if q < 0.0 then NegInfinity
    else if q > 1.0 then PosInfinity
    else if |bs| < 2 then NotANumber
    else
      EstimateRank(bs, Rank(q, Total(bs)))
  }

  /** `bucketQuantile`, by bisection and arithmetic. */
  method ComputeQuantile(q: real, buckets: seq<Bucket>) returns (r: Quantile)
    requires ValidBuckets(buckets)
    ensures r == BucketQuantile(q, buckets)
  {
    if q < 0.0 {
      return NegInfinity;
    }
    if q > 1.0 {
      return PosInfinity;
    }
    if |buckets| < 2 {
      return NotANumber;
    }
    var rank := Rank(q, Total(buckets));
    var b := SearchRank(buckets, |buckets| - 1, rank);
    if b == 0 {
      if buckets[0].count == 0.0 {
        return NotANumber;
      }
      return Value(buckets[0].upperBound.r * (rank / buckets[0].count));
    }
    if b == |buckets| - 1 && buckets[b].upperBound.PosInf? {
      return Value(buckets[|buckets| - 2].upperBound.r);
    }
    var brank := rank - buckets[b - 1].count;
    var bSize := buckets[b].upperBound.r - buckets[b - 1].upperBound.r;
    var bCount := buckets[b].count - buckets[b - 1].count;
    return Value(buckets[b - 1].upperBound.r + bSize * (brank / bCount));
  }

  // ----- what the estimate promises

  lemma {:induction false} FractionInRange(part: real, whole: real)
    requires 0.0 < part <= whole
    ensures 0.0 < part / whole <= 1.0
  {
  }

  lemma {:induction false} ProductInRange(size: real, f: real)
    requires 0.0 <= size && 0.0 < f <= 1.0
    ensures 0.0 <= size * f <= size
    ensures size > 0.0 ==> size * f > 0.0
  {
    assert size * (1.0 - f) >= 0.0;
    assert size * f == size - size * (1.0 - f);
  }

  lemma {:induction false} InterpolateInRange(lo: real, hi: real, part: real, whole: real)
    requires lo <= hi && 0.0 < part <= whole
    ensures lo <= Interpolate(lo, hi, part, whole) <= hi
    ensures lo < hi ==> lo < Interpolate(lo, hi, part, whole)
  {
    FractionInRange(part, whole);
    ProductInRange(hi - lo, part / whole);
  }

  lemma {:induction false} FractionMonotone(part: real, part': real, whole: real)
    requires 0.0 < whole && part <= part'
    ensures part / whole <= part' / whole
  {
  }

  lemma {:induction false} ProductMonotone(size: real, f: real, f': real)
    requires 0.0 <= size && f <= f'
    ensures size * f <= size * f'
  {
    assert size * (f' - f) >= 0.0;
    assert size * f' == size * f + size * (f' - f);
  }

  lemma {:induction false} InterpolateMonotone(lo: real, hi: real, part: real, part': real, whole: real)
    requires lo <= hi && 0.0 < whole && part <= part'
    ensures Interpolate(lo, hi, part, whole) <= Interpolate(lo, hi, part', whole)
  {
    FractionMonotone(part, part', whole);
    ProductMonotone(hi - lo, part / whole, part' / whole);
  }

  /** The finite bounds of the bucket that a rank falls into. */
  function LowerBound(bs: seq<Bucket>, b: nat): real
    requires b < |bs| && (b > 0 ==> bs[b - 1].upperBound.Finite?)
  {
    if b == 0 then 0.0 else bs[b - 1].upperBound.r
  }

  function CountBefore(bs: seq<Bucket>, b: nat): real
    requires b < |bs|
  {
    if b == 0 then 0.0 else bs[b - 1].count
  }

  /** The estimate lies in the bucket that holds the rank, or is the last finite bound. */
  lemma {:induction false} EstimateBracketed(bs: seq<Bucket>, b: nat, rank: real)
    requires ValidBuckets(bs) && |bs| >= 2 && b < |bs|
    requires b > 0 ==> bs[b - 1].count < rank
    requires b < |bs| - 1 ==> rank <= bs[b].count
    requires 0.0 < rank <= Total(bs)
    ensures Estimate(bs, b, rank).Value?
    ensures bs[b].upperBound.PosInf? ==> Estimate(bs, b, rank).r == LowerBound(bs, b)
    ensures bs[b].upperBound.Finite? ==>
              && LowerBound(bs, b) <= Estimate(bs, b, rank).r <= bs[b].upperBound.r
              && (LowerBound(bs, b) < bs[b].upperBound.r ==> LowerBound(bs, b) < Estimate(bs, b, rank).r)
  {
    if bs[b].upperBound.Finite? {
      InterpolateInRange(LowerBound(bs, b), bs[b].upperBound.r,
                         rank - CountBefore(bs, b), bs[b].count - CountBefore(bs, b));
    }
  }

  lemma {:induction false} RankIsProduct(q: real, total: real)
    requires 0.0 <= q <= 1.0 && total >= 0.0
    ensures Rank(q, total) == q * total
  {
  }

  /** Bucket `b` is the first that reaches the rank. */
  ghost predicate Holds(bs: seq<Bucket>, b: nat, rank: real) {
    b < |bs| && (forall i | 0 <= i < b :: bs[i].count < rank) && rank <= bs[b].count
  }

  /** For 0 < q <= 1 and a histogram that is not empty, the quantile is a number in
      the bucket that holds the rank q * total. */
  lemma {:induction false} QuantileBracketed(q: real, bs: seq<Bucket>) returns (b: nat, rank: real)
    requires ValidBuckets(bs) && |bs| >= 2 && 0.0 < q <= 1.0 && Total(bs) > 0.0
    ensures rank == q * bs[|bs| - 1].count && Holds(bs, b, rank)
    ensures BucketQuantile(q, bs).Value?
    ensures bs[b].upperBound.PosInf? ==> b > 0 && BucketQuantile(q, bs) == Value(bs[b - 1].upperBound.r)
    ensures bs[b].upperBound.Finite? ==> LowerBound(bs, b) <= BucketQuantile(q, bs).r <= bs[b].upperBound.r
  {
    rank := Rank(q, Total(bs));
    RankIsProduct(q, Total(bs));
    b := RankBracketed(bs, rank);
  }

  lemma {:induction false} RankBracketed(bs: seq<Bucket>, rank: real) returns (b: nat)
    requires ValidBuckets(bs) && |bs| >= 2 && 0.0 < rank <= Total(bs)
    ensures Holds(bs, b, rank)
    ensures EstimateRank(bs, rank).Value?
    ensures bs[b].upperBound.PosInf? ==> b > 0 && EstimateRank(bs, rank) == Value(bs[b - 1].upperBound.r)
    ensures bs[b].upperBound.Finite? ==> LowerBound(bs, b) <= EstimateRank(bs, rank).r <= bs[b].upperBound.r
  {
    b := FirstReaching(bs, |bs| - 1, rank);
    EstimateBracketed(bs, b, rank);
  }

  lemma {:induction false} InterpolateIsLinear(lo: real, hi: real, part: real, whole: real)
    requires whole != 0.0
    ensures (Interpolate(lo, hi, part, whole) - lo) * whole == (hi - lo) * part
  {
    assert (hi - lo) * (part / whole) * whole == (hi - lo) * (part / whole * whole);
  }

  /** How far the estimate is into its bucket is how far the rank is into the bucket's samples. */
  ghost predicate Proportional(r: real, lo: real, hi: real, rank: real, below: real, upTo: real) {
    (r - lo) * (upTo - below) == (hi - lo) * (rank - below)
  }

  lemma {:induction false} EstimateProportional(bs: seq<Bucket>, b: nat, rank: real)
    requires ValidBuckets(bs) && |bs| >= 2 && b < |bs| && bs[b].upperBound.Finite?
    requires b > 0 ==> bs[b - 1].count < rank
    requires b < |bs| - 1 ==> rank <= bs[b].count
    requires rank <= Total(bs) && (b == 0 ==> bs[0].count > 0.0)
    ensures Estimate(bs, b, rank).Value?
    ensures b == 0 ==> Proportional(Estimate(bs, b, rank).r, 0.0, bs[0].upperBound.r, rank, 0.0, bs[0].count)
    ensures b > 0 ==> Proportional(Estimate(bs, b, rank).r, bs[b - 1].upperBound.r, bs[b].upperBound.r,
                                   rank, bs[b - 1].count, bs[b].count)
  {
    if b == 0 {
      InterpolateIsLinear(0.0, bs[0].upperBound.r, rank, bs[0].count);
    } else {
      InterpolateIsLinear(bs[b - 1].upperBound.r, bs[b].upperBound.r,
                          rank - bs[b - 1].count, bs[b].count - bs[b - 1].count);
    }
  }

  /** The value at a rank: no number if nothing is in a first bucket that holds it, the last
      finite bound if the +Inf bucket holds it, and otherwise the point of the bucket that is
      proportional to the rank. */
  ghost predicate IsValueAt(bs: seq<Bucket>, b: nat, rank: real, r: Quantile) {
    && Holds(bs, b, rank)
    && if b == 0 && bs[0].count == 0.0 then r == NotANumber
       else if bs[b].upperBound.PosInf? then
         b > 0 && bs[b - 1].upperBound.Finite? && r == Value(bs[b - 1].upperBound.r)
       else if b == 0 then
         r.Value? && Proportional(r.r, 0.0, bs[0].upperBound.r, rank, 0.0, bs[0].count)
       else
         && r.Value? && bs[b - 1].upperBound.Finite?
         && Proportional(r.r, bs[b - 1].upperBound.r, bs[b].upperBound.r, rank, bs[b - 1].count, bs[b].count)
  }

  lemma {:induction false} RankExactly(bs: seq<Bucket>, rank: real) returns (b: nat)
    requires ValidBuckets(bs) && |bs| >= 2 && rank <= Total(bs)
    ensures IsValueAt(bs, b, rank, EstimateRank(bs, rank))
  {
    b := FirstReaching(bs, |bs| - 1, rank);
    if bs[b].upperBound.Finite? && (b > 0 || bs[0].count > 0.0) {
      EstimateProportional(bs, b, rank);
    }
  }

  /** The quantile for every q: outside of [0, 1] it is infinite, with fewer than two buckets
      no number, and otherwise the value at the rank q * total. */
  lemma {:induction false} QuantileExactly(q: real, bs: seq<Bucket>) returns (b: nat, rank: real)
    requires ValidBuckets(bs)
    ensures rank == q * bs[|bs| - 1].count
    ensures q < 0.0 ==> BucketQuantile(q, bs) == NegInfinity
    ensures q > 1.0 ==> BucketQuantile(q, bs) == PosInfinity
    ensures 0.0 <= q <= 1.0 && |bs| < 2 ==> BucketQuantile(q, bs) == NotANumber
    ensures 0.0 <= q <= 1.0 && |bs| >= 2 ==> IsValueAt(bs, b, rank, BucketQuantile(q, bs))
  {
    if 0.0 <= q <= 1.0 && |bs| >= 2 {
      rank := Rank(q, Total(bs));
      RankIsProduct(q, Total(bs));
      b := RankExactly(bs, rank);
    } else {
      b, rank := 0, q * bs[|bs| - 1].count;
    }
  }

  /** The only division by zero is that of rank zero by an empty first bucket. */
  lemma {:induction false} NotANumberExactly(q: real, bs: seq<Bucket>)
    requires ValidBuckets(bs) && |bs| >= 2 && 0.0 <= q <= 1.0
    ensures BucketQuantile(q, bs).NotANumber? <==> (q == 0.0 || Total(bs) == 0.0) && bs[0].count == 0.0
  {
    var rank := Rank(q, Total(bs));
    assert rank == 0.0 <==> q == 0.0 || Total(bs) == 0.0;
    assert EstimateRank(bs, rank).NotANumber? <==> rank == 0.0 && bs[0].count == 0.0;
  }

  lemma {:induction false} EstimateMonotone(bs: seq<Bucket>, b: nat, rank: real, b': nat, rank': real)
    requires ValidBuckets(bs) && |bs| >= 2 && b <= b' < |bs|
    requires b > 0 ==> bs[b - 1].count < rank
    requires b' > 0 ==> bs[b' - 1].count < rank'
    requires b < |bs| - 1 ==> rank <= bs[b].count
    requires b' < |bs| - 1 ==> rank' <= bs[b'].count
    requires 0.0 < rank <= rank' <= Total(bs)
    ensures Estimate(bs, b, rank).Value? && Estimate(bs, b', rank').Value?
    ensures Estimate(bs, b, rank).r <= Estimate(bs, b', rank').r
  {
    EstimateBracketed(bs, b, rank);
    EstimateBracketed(bs, b', rank');
    if b < b' {
      assert b < b' - 1 ==> bs[b].upperBound.Less(bs[b' - 1].upperBound);
      assert bs[b' - 1].upperBound.Less(bs[b'].upperBound);
    } else if bs[b].upperBound.Finite? {
      InterpolateMonotone(LowerBound(bs, b), bs[b].upperBound.r, rank - CountBefore(bs, b), rank' - CountBefore(bs, b),
                          bs[b].count - CountBefore(bs, b));
    }
  }

  lemma {:induction false} LargerRank(q: real, q': real, total: real)
    requires 0.0 <= q <= q' <= 1.0 && total >= 0.0
    ensures Rank(q, total) <= Rank(q', total)
  {
    assert (q' - q) * total >= 0.0;
    assert (q' - q) * total == Rank(q', total) - Rank(q, total);
  }

  /** A larger q never gives a smaller quantile. */
  lemma {:induction false} QuantileMonotone(q: real, q': real, bs: seq<Bucket>)
    requires ValidBuckets(bs) && |bs| >= 2 && 0.0 < q <= q' <= 1.0 && Total(bs) > 0.0
    ensures BucketQuantile(q, bs).Value? && BucketQuantile(q', bs).Value?
    ensures BucketQuantile(q, bs).r <= BucketQuantile(q', bs).r
  {
    LargerRank(q, q', Total(bs));
    RankMonotone(bs, Rank(q, Total(bs)), Rank(q', Total(bs)));
  }

  lemma {:induction false} RankMonotone(bs: seq<Bucket>, rank: real, rank': real)
    requires ValidBuckets(bs) && |bs| >= 2 && 0.0 < rank <= rank' <= Total(bs)
    ensures EstimateRank(bs, rank).Value? && EstimateRank(bs, rank').Value?
    ensures EstimateRank(bs, rank).r <= EstimateRank(bs, rank').r
  {
    var b, b' := FirstReaching(bs, |bs| - 1, rank), FirstReaching(bs, |bs| - 1, rank');
    assert b <= b' by {
      assert b' < |bs| - 1 ==> rank <= bs[b'].count;
    }
    EstimateMonotone(bs, b, rank, b', rank');
  }

  // ----- histograms and vectors of histograms

  datatype CumulativeBucket = CumulativeBucket(cumulativeCount: nat, upperBound: Bound)

  datatype Histogram = Histogram(buckets: seq<CumulativeBucket>, sampleCount: nat)

  function ToBuckets(cs: seq<CumulativeBucket>): (bs: seq<Bucket>)
    ensures |bs| == |cs|
  {
    seq(|cs|, i requires 0 <= i < |cs| => Bucket(cs[i].upperBound, cs[i].cumulativeCount as real))
  }

  /** The final +Inf bucket is usually left implicit. */
  function Completed(bs: seq<Bucket>, sampleCount: nat): seq<Bucket> {
    if bs == [] || bs[|bs| - 1].upperBound != PosInf then bs + [Bucket(PosInf, sampleCount as real)] else bs
  }

  ghost predicate ValidHistogram(h: Histogram) {
    ValidBuckets(Completed(ToBuckets(h.buckets), h.sampleCount))
  }

  function QuantileOf(q: real, h: Histogram): Quantile
    requires ValidHistogram(h)
  {
    BucketQuantile(q, Completed(ToBuckets(h.buckets), h.sampleCount))
  }

  /** The buckets are those of the histogram and, unless the last is +Inf, such a one with
      all samples. */
  ghost predicate BucketsOf(h: Histogram, bs: seq<Bucket>) {
    && |h.buckets| <= |bs|
    && (forall i | 0 <= i < |h.buckets| ::
          bs[i] == Bucket(h.buckets[i].upperBound, h.buckets[i].cumulativeCount as real))
    && if h.buckets != [] && h.buckets[|h.buckets| - 1].upperBound == PosInf then |bs| == |h.buckets|
       else |bs| == |h.buckets| + 1 && bs[|h.buckets|] == Bucket(PosInf, h.sampleCount as real)
  }

  lemma {:induction false} CompletedAreBuckets(h: Histogram)
    ensures BucketsOf(h, Completed(ToBuckets(h.buckets), h.sampleCount))
  {
  }

  method HistogramQuantile(h: Histogram, q: real) returns (r: Quantile, ghost bs: seq<Bucket>)
    requires ValidHistogram(h)
    ensures r == QuantileOf(q, h)
    ensures BucketsOf(h, bs) && ValidBuckets(bs) && r == BucketQuantile(q, bs)
  {
    CompletedAreBuckets(h);
    var buckets: seq<Bucket> := [];
    for i := 0 to |h.buckets|
      invariant buckets == ToBuckets(h.buckets)[..i]
    {
      buckets := buckets + [Bucket(h.buckets[i].upperBound, h.buckets[i].cumulativeCount as real)];
    }
    assert buckets == ToBuckets(h.buckets);
    if |buckets| == 0 || buckets[|buckets| - 1].upperBound != PosInf {
      buckets := buckets + [Bucket(PosInf, h.sampleCount as real)];
    }
    bs := buckets;
    r := ComputeQuantile(q, buckets);
  }

  ghost predicate SameBuckets(vec: seq<Histogram>) {
    forall i | 0 <= i < |vec| :: |vec[i].buckets| == |vec[0].buckets|
  }

  /** The cumulative count of bucket `j` over the first `n` histograms. */
  ghost function CountAt(vec: seq<Histogram>, n: nat, j: nat): nat
    requires n <= |vec| && SameBuckets(vec) && (n > 0 ==> j < |vec[0].buckets|)
  {
    if n == 0 then 0 else CountAt(vec, n - 1, j) + vec[n - 1].buckets[j].cumulativeCount
  }

  ghost function SampleCount(vec: seq<Histogram>, n: nat): nat
    requires n <= |vec|
  {
    if n == 0 then 0 else SampleCount(vec, n - 1) + vec[n - 1].sampleCount
  }

  /** One histogram of all samples, with the bounds of the first. */
  ghost function Combined(vec: seq<Histogram>): Histogram
    requires SameBuckets(vec)
  {
    if vec == [] then Histogram([], 0)
    else
      Histogram(
        seq(|vec[0].buckets|, j requires 0 <= j < |vec[0].buckets| =>
          CumulativeBucket(CountAt(vec, |vec|, j), vec[0].buckets[j].upperBound)),
        SampleCount(vec, |vec|))
  }

  /** One histogram alone is its combination. */
  lemma {:induction false} CombinedSingle(h: Histogram)
    ensures Combined([h]) == h
  {
    var c := Combined([h]);
    assert SampleCount([h], 0) == 0;
    forall j | 0 <= j < |h.buckets|
      ensures c.buckets[j] == h.buckets[j]
    {
      assert CountAt([h], 0, j) == 0;
    }
    assert c.buckets == h.buckets;
  }

  lemma {:induction false} CountAtPrefix(vec: seq<Histogram>, h: Histogram, n: nat, j: nat)
    requires SameBuckets(vec + [h]) && vec != [] && n <= |vec| && j < |vec[0].buckets|
    ensures SameBuckets(vec) && CountAt(vec + [h], n, j) == CountAt(vec, n, j)
  {
    PrefixSameBuckets(vec, h);
    if n > 0 {
      CountAtPrefix(vec, h, n - 1, j);
    }
  }

  lemma {:induction false} SamplesPrefix(vec: seq<Histogram>, h: Histogram, n: nat)
    requires n <= |vec|
    ensures SampleCount(vec + [h], n) == SampleCount(vec, n)
  {
    if n > 0 {
      SamplesPrefix(vec, h, n - 1);
    }
  }

  lemma {:induction false} PrefixSameBuckets(vec: seq<Histogram>, h: Histogram)
    requires SameBuckets(vec + [h]) && vec != []
    ensures SameBuckets(vec) && |h.buckets| == |vec[0].buckets|
  {
    var longer := vec + [h];
    assert forall i | 0 <= i < |vec| :: longer[i] == vec[i];
    assert longer[|vec|] == h;
  }

  /** One more histogram adds its counts to those of the others, bucket by bucket, and keeps
      the bounds. */
  lemma {:induction false} CombinedAdds(vec: seq<Histogram>, h: Histogram)
    requires SameBuckets(vec + [h]) && vec != []
    ensures SameBuckets(vec)
    ensures var before, after := Combined(vec), Combined(vec + [h]);
            && after.sampleCount == before.sampleCount + h.sampleCount
            && |after.buckets| == |before.buckets| == |h.buckets|
            && forall j | 0 <= j < |h.buckets| ::
                 && after.buckets[j].upperBound == before.buckets[j].upperBound
                 && after.buckets[j].cumulativeCount ==
                    before.buckets[j].cumulativeCount + h.buckets[j].cumulativeCount
  {
    PrefixSameBuckets(vec, h);
    SamplesPrefix(vec, h, |vec|);
    var longer := vec + [h];
    assert longer[0] == vec[0] && longer[|vec|] == h;
    forall j | 0 <= j < |h.buckets|
      ensures CountAt(longer, |longer|, j) == CountAt(vec, |vec|, j) + h.buckets[j].cumulativeCount
    {
      CountAtPrefix(vec, h, |vec|, j);
    }
  }

  ghost predicate SameBounds(vec: seq<Histogram>) {
    && SameBuckets(vec)
    && forall i, j | 0 <= i < |vec| && 0 <= j < |vec[i].buckets| ::
         vec[i].buckets[j].upperBound == vec[0].buckets[j].upperBound
  }

  lemma {:induction false} CountsOrdered(h: Histogram, j: nat, k: nat)
    requires ValidHistogram(h) && j <= k < |h.buckets|
    ensures h.buckets[j].cumulativeCount <= h.buckets[k].cumulativeCount
    ensures h.buckets[|h.buckets| - 1].upperBound != PosInf ==> h.buckets[k].cumulativeCount <= h.sampleCount
  {
    var bs := Completed(ToBuckets(h.buckets), h.sampleCount);
    assert bs[j].count == h.buckets[j].cumulativeCount as real && bs[k].count == h.buckets[k].cumulativeCount as real;
    if j < k {
      assert bs[j].count <= bs[k].count;
    }
    if h.buckets[|h.buckets| - 1].upperBound != PosInf {
      assert bs[k].count <= bs[|h.buckets|].count;
    }
  }

  lemma {:induction false} CountAtPointwise(vec: seq<Histogram>, n: nat, j: nat, k: nat)
    requires SameBuckets(vec) && n <= |vec| && (n > 0 ==> j < |vec[0].buckets| && k < |vec[0].buckets|)
    requires forall i | 0 <= i < n :: vec[i].buckets[j].cumulativeCount <= vec[i].buckets[k].cumulativeCount
    ensures CountAt(vec, n, j) <= CountAt(vec, n, k)
  {
    if n > 0 {
      CountAtPointwise(vec, n - 1, j, k);
    }
  }

  lemma {:induction false} CountAtMonotone(vec: seq<Histogram>, j: nat, k: nat)
    requires SameBuckets(vec) && vec != [] && j <= k < |vec[0].buckets|
    requires forall i | 0 <= i < |vec| :: ValidHistogram(vec[i])
    ensures CountAt(vec, |vec|, j) <= CountAt(vec, |vec|, k)
  {
    forall i | 0 <= i < |vec|
      ensures vec[i].buckets[j].cumulativeCount <= vec[i].buckets[k].cumulativeCount
    {
      CountsOrdered(vec[i], j, k);
    }
    CountAtPointwise(vec, |vec|, j, k);
  }

  lemma {:induction false} SamplesPointwise(vec: seq<Histogram>, n: nat, k: nat)
    requires SameBuckets(vec) && n <= |vec| && (n > 0 ==> k < |vec[0].buckets|)
    requires forall i | 0 <= i < n :: vec[i].buckets[k].cumulativeCount <= vec[i].sampleCount
    ensures CountAt(vec, n, k) <= SampleCount(vec, n)
  {
    if n > 0 {
      SamplesPointwise(vec, n - 1, k);
    }
  }

  lemma {:induction false} CountAtMostAll(vec: seq<Histogram>, k: nat)
    requires SameBuckets(vec) && vec != [] && k < |vec[0].buckets|
    requires forall i | 0 <= i < |vec| :: ValidHistogram(vec[i])
    requires forall i | 0 <= i < |vec| :: vec[i].buckets[|vec[i].buckets| - 1].upperBound != PosInf
    ensures CountAt(vec, |vec|, k) <= SampleCount(vec, |vec|)
  {
    forall i | 0 <= i < |vec|
      ensures vec[i].buckets[k].cumulativeCount <= vec[i].sampleCount
    {
      CountsOrdered(vec[i], k, k);
    }
    SamplesPointwise(vec, |vec|, k);
  }

  /** Combining valid histograms over the same bounds gives a valid histogram. */
  lemma {:induction false} CombinedIsValid(vec: seq<Histogram>)
    requires SameBounds(vec) && vec != []
    requires forall i | 0 <= i < |vec| :: ValidHistogram(vec[i])
    ensures ValidHistogram(Combined(vec))
  {
    var c, first := Combined(vec), vec[0];
    var bs := Completed(ToBuckets(c.buckets), c.sampleCount);
    var fs := Completed(ToBuckets(first.buckets), first.sampleCount);
    assert ValidHistogram(first) && ValidBuckets(fs);
    forall i, j | 0 <= i < j < |bs|
      ensures bs[i].upperBound.Less(bs[j].upperBound) && bs[i].count <= bs[j].count
    {
      CombinedBound(vec, i);
      CombinedBound(vec, j);
      assert fs[i].upperBound.Less(fs[j].upperBound);
      CombinedOrdered(vec, i, j);
    }
    CombinedBound(vec, 0);
  }

  lemma {:induction false} CombinedBound(vec: seq<Histogram>, i: nat)
    requires SameBounds(vec) && vec != []
    requires i <= |vec[0].buckets|
    ensures var bs := Completed(ToBuckets(Combined(vec).buckets), SampleCount(vec, |vec|));
            var fs := Completed(ToBuckets(vec[0].buckets), vec[0].sampleCount);
            |bs| == |fs| && (i < |bs| ==> bs[i].upperBound == fs[i].upperBound)
  {
  }

  lemma {:induction false} CombinedCount(vec: seq<Histogram>, i: nat)
    requires SameBuckets(vec) && vec != [] && i < |vec[0].buckets|
    ensures i < |ToBuckets(Combined(vec).buckets)|
    ensures ToBuckets(Combined(vec).buckets)[i].count == CountAt(vec, |vec|, i) as real
  {
  }

  lemma {:induction false} CombinedOrdered(vec: seq<Histogram>, i: nat, j: nat)
    requires SameBounds(vec) && vec != []
    requires forall i | 0 <= i < |vec| :: ValidHistogram(vec[i])
    requires i < j < |Completed(ToBuckets(Combined(vec).buckets), SampleCount(vec, |vec|))|
    ensures var bs := Completed(ToBuckets(Combined(vec).buckets), SampleCount(vec, |vec|));
            bs[i].count <= bs[j].count
  {
    CombinedCount(vec, i);
    if j < |vec[0].buckets| {
      CombinedCount(vec, j);
      CountAtMonotone(vec, i, j);
    } else {
      CombinedUnbounded(vec);
      CountAtMostAll(vec, i);
    }
  }

  /** If the combined buckets need a final +Inf bucket, so do those of every histogram. */
  lemma {:induction false} CombinedUnbounded(vec: seq<Histogram>)
    requires SameBounds(vec) && vec != [] && |vec[0].buckets| > 0
    requires |Completed(ToBuckets(Combined(vec).buckets), SampleCount(vec, |vec|))| > |vec[0].buckets|
    ensures forall i | 0 <= i < |vec| :: vec[i].buckets[|vec[i].buckets| - 1].upperBound != PosInf
  {
    var last := |vec[0].buckets| - 1;
    assert ToBuckets(Combined(vec).buckets)[last].upperBound == vec[0].buckets[last].upperBound;
  }

  method AggregatedSampleCount(vec: seq<Histogram>) returns (count: nat)
    ensures count == SampleCount(vec, |vec|)
  {
    count := 0;
    for i := 0 to |vec|
      invariant count == SampleCount(vec, i)
    {
      count := count + vec[i].sampleCount;
    }
  }

  method AggregatedBuckets(vec: seq<Histogram>) returns (buckets: seq<Bucket>)
    requires SameBuckets(vec)
    ensures buckets == ToBuckets(Combined(vec).buckets)
  {
    buckets := [];
    for i := 0 to |vec|
      invariant |buckets| == if i == 0 then 0 else |vec[0].buckets|
      invariant forall j | 0 <= j < |buckets| ::
                  buckets[j] == Bucket(vec[0].buckets[j].upperBound, CountAt(vec, i, j) as real)
    {
      for j := 0 to |vec[i].buckets|
        invariant |buckets| == if i == 0 then j else |vec[0].buckets|
        invariant forall k | 0 <= k < |buckets| ::
                    buckets[k] ==
                    Bucket(vec[0].buckets[k].upperBound, CountAt(vec, if k < j then i + 1 else i, k) as real)
      {
        var count := vec[i].buckets[j].cumulativeCount;
        if i == 0 {
          buckets := buckets + [Bucket(vec[i].buckets[j].upperBound, count as real)];
        } else {
          buckets := buckets[j := buckets[j].(count := buckets[j].count + count as real)];
        }
      }
    }
  }

  /** `HistogramVec.Quantile` is the quantile of the combined histogram. */
  method VectorQuantile(vec: seq<Histogram>, q: real) returns (r: Quantile, ghost bs: seq<Bucket>)
    requires SameBuckets(vec) && ValidHistogram(Combined(vec))
    ensures r == QuantileOf(q, Combined(vec))
    ensures BucketsOf(Combined(vec), bs) && ValidBuckets(bs) && r == BucketQuantile(q, bs)
  {
    CompletedAreBuckets(Combined(vec));
    var buckets := AggregatedBuckets(vec);
    if |buckets| == 0 || buckets[|buckets| - 1].upperBound != PosInf {
      var count := AggregatedSampleCount(vec);
      buckets := buckets + [Bucket(PosInf, count as real)];
    }
    bs := buckets;
    r := ComputeQuantile(q, buckets);
  }
}
