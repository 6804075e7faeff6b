/** Histograms of weighted observations.  `float64` values are exact reals and
weights are unbounded; the only bound that need not be finite is a last +Inf. */
module WeightedHistograms {
  import opened Options

  // ----- bucket bounds

  datatype Bound = Finite(r: real) | PosInf {
    predicate Less(other: Bound) {
      Finite? && (other.PosInf? || r < other.r)
    }
  }

  predicate Increasing(bs: seq<Bound>) {
    forall i | 0 < i < |bs| :: bs[i - 1].Less(bs[i])
  }

  predicate IncreasingReals(bs: seq<real>) {
    forall i, j | 0 <= i < j < |bs| :: bs[i] < bs[j]
  }

  lemma {:induction false} IncreasingFarther(bs: seq<Bound>, i: nat, j: nat)
    requires Increasing(bs) && i < j < |bs|
    ensures bs[i].Less(bs[j])
  {
    if i < j - 1 {
      IncreasingFarther(bs, i, j - 1);
      assert bs[j - 1].Less(bs[j]);
    }
  }

  /** All bounds but the last are finite, and each is below the finite ones that follow. */
  predicate Ascending(bs: seq<Bound>) {
    && (forall i | 0 <= i < |bs| - 1 :: bs[i].Finite?)
    && (forall i, j | 0 <= i < j < |bs| && bs[i].Finite? && bs[j].Finite? :: bs[i].r < bs[j].r)
  }

  lemma {:induction false} IncreasingAscends(bs: seq<Bound>)
    ensures Increasing(bs) <==> Ascending(bs)
  {
    if Increasing(bs) {
      forall i | 0 <= i < |bs| - 1
        ensures bs[i].Finite?
      {
        IncreasingFarther(bs, i, i + 1);
      }
      forall i, j | 0 <= i < j < |bs| && bs[i].Finite? && bs[j].Finite?
        ensures bs[i].r < bs[j].r
      {
        IncreasingFarther(bs, i, j);
      }
    }
    if Ascending(bs) {
      forall i | 0 < i < |bs|
        ensures bs[i - 1].Less(bs[i])
      {
        assert bs[i].PosInf? || bs[i].Finite?;
      }
    }
  }

  /** The bounds of a new histogram.  They are refused unless they increase; the
      +Inf bound is implicit and dropped. */
  method CheckBuckets(buckets: seq<Bound>, defaults: seq<Bound>) returns (r: Option<seq<real>>)
    ensures var bs := if buckets == [] then defaults else buckets;
            && (r.Some? <==>
                && (forall i | 0 <= i < |bs| - 1 :: bs[i].Finite?)
                && (forall i, j | 0 <= i < j < |bs| && bs[i].Finite? && bs[j].Finite? :: bs[i].r < bs[j].r))
            && (r.Some? ==>
                  && IncreasingReals(r.value)
                  && (forall i | 0 <= i < |r.value| :: i < |bs| && bs[i] == Finite(r.value[i]))
                  && (|r.value| == |bs| || (|r.value| == |bs| - 1 && bs[|bs| - 1] == PosInf)))
  {
    var bs := if buckets == [] then defaults else buckets;
    IncreasingAscends(bs);
    var kept := bs;
    for i := 0 to |bs|
      invariant forall k | 0 < k <= i && k < |bs| :: bs[k - 1].Less(bs[k])
      invariant forall k | 0 <= k < i && k < |bs| - 1 :: bs[k].Finite?
      invariant i < |bs| ==> kept == bs
      invariant i == |bs| ==> kept == if bs != [] && bs[i - 1].PosInf? then bs[..i - 1] else bs
    {
      if i < |bs| - 1 {
        if !bs[i].Less(bs[i + 1]) {
          assert !Increasing(bs);
          return None;
        }
      } else if bs[i].PosInf? {
        kept := bs[..i];
      }
    }
    var upperBounds := seq(|kept|, i requires 0 <= i < |kept| && kept[i].Finite? => kept[i].r);
    forall i, j | 0 <= i < j < |upperBounds|
      ensures upperBounds[i] < upperBounds[j]
    {
      IncreasingFarther(bs, i, j);
    }
    return Some(upperBounds);
  }

  // ----- what a histogram means

  datatype Observation = Observation(value: real, weight: nat)

  type History = seq<Observation>

  /** Bucket `i` holds the values above the previous bound and up to its own. */
  predicate InBucket(bounds: seq<real>, i: nat, v: real) {
    && i <= |bounds|
    && (i > 0 ==> bounds[i - 1] < v)
    && (i < |bounds| ==> v <= bounds[i])
  }

  ghost function WeightWhere(h: History, p: real -> bool): nat {
    if h == [] then 0
    else
      var o := h[|h| - 1];
      WeightWhere(h[..|h| - 1], p) + if p(o.value) then o.weight else 0
  }

  ghost function BucketWeight(bounds: seq<real>, h: History, i: nat): nat {
    WeightWhere(h, v => InBucket(bounds, i, v))
  }

  ghost function WeightAtMost(h: History, bound: real): nat {
    WeightWhere(h, v => v <= bound)
  }

  ghost function TotalWeight(h: History): nat {
    WeightWhere(h, _ => true)
  }

  /** `v` taken `n` times. */
  ghost function Times(n: nat, v: real): real {
    if n == 0 then 0.0 else Times(n - 1, v) + v
  }

  lemma {:induction false} TimesIsProduct(n: nat, v: real)
    ensures Times(n, v) == n as real * v
  {
    if n > 0 {
      TimesIsProduct(n - 1, v);
      assert n as real * v == (n - 1) as real * v + v;
    }
  }

  ghost function WeightedSum(h: History): real {
    if h == [] then 0.0
    else
      var o := h[|h| - 1];
      WeightedSum(h[..|h| - 1]) + Times(o.weight, o.value)
  }

  lemma {:induction false} WeightAppend(h: History, o: Observation, p: real -> bool)
    ensures WeightWhere(h + [o], p) == WeightWhere(h, p) + if p(o.value) then o.weight else 0
  {
    assert (h + [o])[..|h|] == h;
  }

  lemma {:induction false} SumAppend(h: History, o: Observation)
    ensures WeightedSum(h + [o]) == WeightedSum(h) + Times(o.weight, o.value)
  {
    assert (h + [o])[..|h|] == h;
  }

  /** Weights of disjoint cases add up. */
  lemma {:induction false} WeightSplit(h: History, p: real -> bool, q: real -> bool, r: real -> bool)
    requires forall v :: p(v) <==> q(v) || r(v)
    requires forall v :: !(q(v) && r(v))
    ensures WeightWhere(h, p) == WeightWhere(h, q) + WeightWhere(h, r)
  {
    if h != [] {
      WeightSplit(h[..|h| - 1], p, q, r);
      assert p(h[|h| - 1].value) <==> q(h[|h| - 1].value) || r(h[|h| - 1].value);
      assert !(q(h[|h| - 1].value) && r(h[|h| - 1].value));
    }
  }

  /** The cumulative count of a bound adds that bound's bucket to the previous one. */
  lemma {:induction false} CumulativeStep(bounds: seq<real>, h: History, i: nat)
    requires IncreasingReals(bounds) && i <= |bounds|
    ensures (if i < |bounds| then WeightAtMost(h, bounds[i]) else TotalWeight(h)) ==
            (if i == 0 then 0 else WeightAtMost(h, bounds[i - 1])) + BucketWeight(bounds, h, i)
  {
    var p: real -> bool := if i < |bounds| then v => v <= bounds[i] else _ => true;
    var q: real -> bool := if i == 0 then _ => false else v => v <= bounds[i - 1];
    var r: real -> bool := v => InBucket(bounds, i, v);
    WeightSplit(h, p, q, r);
    WeightExtensional(h, p, if i < |bounds| then v => v <= bounds[i] else _ => true);
    if i == 0 {
      WeightNowhere(h, q);
    } else {
      WeightExtensional(h, q, v => v <= bounds[i - 1]);
    }
    WeightExtensional(h, r, v => InBucket(bounds, i, v));
  }

  lemma {:induction false} WeightNowhere(h: History, p: real -> bool)
    requires forall v :: !p(v)
    ensures WeightWhere(h, p) == 0
  {
    if h != [] {
      WeightNowhere(h[..|h| - 1], p);
    }
  }

  lemma {:induction false} WeightExtensional(h: History, p: real -> bool, q: real -> bool)
    requires forall v :: p(v) <==> q(v)
    ensures WeightWhere(h, p) == WeightWhere(h, q)
  {
    if h != [] {
      WeightExtensional(h[..|h| - 1], p, q);
    }
  }

  /** Exported cumulative counts do not decrease, and end at the total weight. */
  lemma {:induction false} CumulativeMonotone(h: History, a: real, b: real)
    requires a <= b
    ensures WeightAtMost(h, a) <= WeightAtMost(h, b) <= TotalWeight(h)
  {
    if h != [] {
      var h', o := h[..|h| - 1], h[|h| - 1];
      CumulativeMonotone(h', a, b);
      WeightAppend(h', o, v => v <= a);
      WeightAppend(h', o, v => v <= b);
      WeightAppend(h', o, _ => true);
      assert h == h' + [o];
    }
  }

  /** `n` observations of weight 1. */
  function Repeat(v: real, n: nat): History {
    seq(n, _ => Observation(v, 1))
  }

  lemma {:induction false} RepeatWeight(h: History, v: real, n: nat, p: real -> bool)
    ensures WeightWhere(h + Repeat(v, n), p) == WeightWhere(h, p) + if p(v) then n else 0
  {
    if n == 0 {
      assert h + Repeat(v, n) == h;
    } else {
      RepeatWeight(h, v, n - 1, p);
      assert h + Repeat(v, n) == h + Repeat(v, n - 1) + [Observation(v, 1)];
      WeightAppend(h + Repeat(v, n - 1), Observation(v, 1), p);
    }
  }

  lemma {:induction false} RepeatSum(h: History, v: real, n: nat)
    ensures WeightedSum(h + Repeat(v, n)) == WeightedSum(h) + Times(n, v)
  {
    if n == 0 {
      assert h + Repeat(v, n) == h;
    } else {
      RepeatSum(h, v, n - 1);
      assert h + Repeat(v, n) == h + Repeat(v, n - 1) + [Observation(v, 1)];
      SumAppend(h + Repeat(v, n - 1), Observation(v, 1));
    }
  }

  /** One observation of weight `n` has the same meaning as `n` of weight 1. */
  lemma {:induction false} OneForMany(bounds: seq<real>, h: History, v: real, n: nat)
    ensures forall i :: BucketWeight(bounds, h + [Observation(v, n)], i) == BucketWeight(bounds, h + Repeat(v, n), i)
    ensures TotalWeight(h + [Observation(v, n)]) == TotalWeight(h + Repeat(v, n))
    ensures WeightedSum(h + [Observation(v, n)]) == WeightedSum(h + Repeat(v, n))
  {
    forall i
      ensures BucketWeight(bounds, h + [Observation(v, n)], i) == BucketWeight(bounds, h + Repeat(v, n), i)
    {
      RepeatWeight(h, v, n, x => InBucket(bounds, i, x));
      WeightAppend(h, Observation(v, n), x => InBucket(bounds, i, x));
    }
    RepeatWeight(h, v, n, _ => true);
    WeightAppend(h, Observation(v, n), _ => true);
    RepeatSum(h, v, n);
    SumAppend(h, Observation(v, n));
  }

  // ----- the histogram

  /** `sort.SearchFloat64s`: the first bound that is not below the value. */
  method Search(bounds: seq<real>, v: real) returns (idx: nat)
    requires IncreasingReals(bounds)
    ensures InBucket(bounds, idx, v)
    ensures forall i | 0 <= i <= |bounds| && InBucket(bounds, i, v) :: i == idx
  {
    var lo, hi := 0, |bounds|;
    while lo < hi
      invariant 0 <= lo <= hi <= |bounds|
      invariant lo > 0 ==> bounds[lo - 1] < v
      invariant hi < |bounds| ==> v <= bounds[hi]
    {
      var mid := (lo + hi) / 2;
      if bounds[mid] < v {
        lo := mid + 1;
      } else {
        hi := mid;
      }
    }
    idx := lo;
  }

  const INITIAL_HOT_COUNT := -15
  const TRANSFER_RATIO := 67108864.0

  function Abs(x: real): real {
    if x < 0.0 then -x else x
  }

  lemma {:induction false} AbsQuotient(x: real)
    ensures Abs(x / TRANSFER_RATIO) == Abs(x) / TRANSFER_RATIO
  {
  }

  class WeightedHistogram {
    const upperBounds: seq<real>
    const buckets: array<nat>
    var sumHot: real
    var sumCold: real
    var transferThreshold: real
    var hotCount: int

    /** The observations so far. */
    ghost var history: History

    ghost predicate Valid()
      reads this, buckets
    {
      && IncreasingReals(upperBounds) && buckets.Length == |upperBounds| + 1
      && BucketsMatch(history)
      && sumHot + sumCold == WeightedSum(history)
      && SumsOk()
    }

    /** The number of terms until the hot sum is looked at, and what is negligible then. */
    ghost predicate SumsOk()
      reads this
    {
      && -15 <= hotCount <= -1
      && transferThreshold == (if sumCold < 0.0 then -sumCold else sumCold) / 67108864.0
    }

    ghost predicate BucketsMatch(h: History)
      reads this, buckets
    {
      forall i | 0 <= i < buckets.Length :: buckets[i] == BucketWeight(upperBounds, h, i)
    }

    constructor (upperBounds: seq<real>)
      requires IncreasingReals(upperBounds)
      ensures Valid() && history == [] && this.upperBounds == upperBounds && fresh(buckets)
    {
      this.upperBounds := upperBounds;
      buckets := new nat[|upperBounds| + 1](_ => 0);
      sumHot, sumCold, transferThreshold, hotCount := 0.0, 0.0, 0.0, INITIAL_HOT_COUNT;
      history := [];
    }

    method ObserveWithWeight(value: real, weight: nat)
      requires Valid()
      modifies this, buckets
      ensures Valid() && history == old(history) + [Observation(value, weight)]
    {
      var idx := Search(upperBounds, value);
      UpdateLocked(idx, value, weight);
    }

    method UpdateLocked(idx: nat, value: real, weight: nat)
      requires Valid() && InBucket(upperBounds, idx, value)
      modifies this, buckets
      ensures Valid() && history == old(history) + [Observation(value, weight)]
    {
      ghost var o := Observation(value, weight);
      AddToBucket(idx, Observation(value, weight), history);
      SumAppend(history, o);
      history := history + [o];
      TimesIsProduct(weight, value);
      AddToSums(weight as real * value);
    }

    method AddToBucket(idx: nat, o: Observation, ghost h: History)
      requires IncreasingReals(upperBounds) && buckets.Length == |upperBounds| + 1 && BucketsMatch(h)
      requires InBucket(upperBounds, idx, o.value)
      modifies buckets
      ensures BucketsMatch(h + [o])
    {
      BucketsAfter(h, o, idx);
      buckets[idx] := buckets[idx] + o.weight;
    }

    /** The hierarchical sum: `term` goes into `sumHot`, which every 15 terms is moved
        into `sumCold` if it is no longer negligible. */
    method AddToSums(term: real)
      requires SumsOk()
      modifies this`sumHot, this`sumCold, this`transferThreshold, this`hotCount
      ensures SumsOk()
      ensures sumHot + sumCold == old(sumHot + sumCold) + term
    {
      var newSumHot := sumHot + term;
      hotCount := hotCount + 1;
      if hotCount >= 0 {
        hotCount := INITIAL_HOT_COUNT;
        if Abs(newSumHot) > transferThreshold {
          var newSumCold := sumCold + newSumHot;
          sumCold := newSumCold;
          AbsQuotient(newSumCold);
          transferThreshold := Abs(newSumCold / TRANSFER_RATIO);
          sumHot := 0.0;
          return;
        }
      }
      sumHot := newSumHot;
    }

    /** An observation adds to the one bucket that its value is in. */
    lemma {:induction false} BucketsAfter(h: History, o: Observation, idx: nat)
      requires IncreasingReals(upperBounds) && InBucket(upperBounds, idx, o.value)
      ensures forall i | 0 <= i <= |upperBounds| ::
                BucketWeight(upperBounds, h + [o], i) ==
                BucketWeight(upperBounds, h, i) + if i == idx then o.weight else 0
    {
      forall i | 0 <= i <= |upperBounds|
        ensures BucketWeight(upperBounds, h + [o], i) ==
                BucketWeight(upperBounds, h, i) + if i == idx then o.weight else 0
      {
        WeightAppend(h, o, v => InBucket(upperBounds, i, v));
      }
    }

    /** The count, sum and cumulative buckets that are exported. */
    method Export() returns (count: nat, sum: real, cumulative: map<real, nat>)
      requires Valid()
      ensures count == TotalWeight(history) && sum == WeightedSum(history)
      ensures cumulative.Keys == set i | 0 <= i < |upperBounds| :: upperBounds[i]
      ensures forall i | 0 <= i < |upperBounds| :: cumulative[upperBounds[i]] == WeightAtMost(history, upperBounds[i])
    {
      cumulative := map[];
      count := 0;
      for idx := 0 to |upperBounds|
        invariant count == if idx == 0 then 0 else WeightAtMost(history, upperBounds[idx - 1])
        invariant cumulative.Keys == set i | 0 <= i < idx :: upperBounds[i]
        invariant forall i | 0 <= i < idx :: cumulative[upperBounds[i]] == WeightAtMost(history, upperBounds[i])
      {
        CumulativeStep(upperBounds, history, idx);
        count := count + buckets[idx];
        cumulative := cumulative[upperBounds[idx] := count];
      }
      CumulativeStep(upperBounds, history, |upperBounds|);
      count := count + buckets[|upperBounds|];
      sum := sumHot + sumCold;
    }
  }
}
