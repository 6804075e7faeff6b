/** A gauge whose histogram tracks how long it spends in each bucket.

Time is counted in nanosecond ticks.  What the histogram should hold is defined
tick by tick from the updates of the gauge, without regard to how observations are
batched.
*/
module TimingHistograms {
  import opened WeightedHistograms

  type Time = int

  /** A gauge operation: the clock reading it took, and the value it left. */
  datatype Setting = Setting(reading: Time, value: real)

  /** A gauge from its creation on. */
  datatype Gauge = Gauge(created: Time, initial: real, updates: seq<Setting>) {

    function Before(): Gauge
      requires updates != []
    {
      this.(updates := updates[..|updates| - 1])
    }

    function Last(): Setting
      requires updates != []
    {
      updates[|updates| - 1]
    }

    function Append(u: Setting): Gauge {
      this.(updates := updates + [u])
    }

    function Value(): real {
      if updates == [] then initial else Last().value
    }

    /** The time up to which the gauge has been accounted for. */
    function Latest(): Time
      decreases |updates|
    {
      if updates == [] then created
      else if Last().reading > Before().Latest() then Last().reading else Before().Latest()
    }

    /** The value that counts at tick `t`.  An update whose clock reading went back
        takes effect at the latest reading before it. */
    function ValueAt(t: Time): real
      decreases |updates|
    {
      if updates == [] || Latest() <= t then Value() else Before().ValueAt(t)
    }

    /** What the updates make of `t` if their own readings are believed. */
    function TrueValueAt(t: Time): real
      decreases |updates|
    {
      if updates == [] || Last().reading <= t then Value() else Before().TrueValueAt(t)
    }

    ghost predicate ClockNonDecreasing() {
      && (forall i | 0 <= i < |updates| :: created <= updates[i].reading)
      && (forall i, j | 0 <= i < j < |updates| :: updates[i].reading <= updates[j].reading)
    }
  }

  // ----- tick by tick

  /** The ticks from creation to `end` at which the value satisfies `p`. */
  ghost function TicksWhere(g: Gauge, end: Time, p: real -> bool): nat
    decreases end - g.created
  {
    if end <= g.created then 0
    else TicksWhere(g, end - 1, p) + if p(g.ValueAt(end - 1)) then 1 else 0
  }

  /** The integral of the value over time, from creation to `end`. */
  ghost function Integral(g: Gauge, end: Time): real
    decreases end - g.created
  {
    if end <= g.created then 0.0 else Integral(g, end - 1) + g.ValueAt(end - 1)
  }

  // ----- observation by observation

  /** The observations that the updates cause. */
  ghost function Observations(g: Gauge): History
    decreases |g.updates|
  {
    if g.updates == [] then []
    else
      var before := g.Before();
      var delta := g.Last().reading - before.Latest();
      if delta > 0 then Observations(before) + [Observation(before.Value(), delta)] else Observations(before)
  }

  lemma {:induction false} AppendBefore(g: Gauge, u: Setting)
    ensures g.Append(u).Before() == g && g.Append(u).Last() == u
  {
    assert (g.updates + [u])[..|g.updates|] == g.updates;
  }

  lemma {:induction false} LatestAfterCreated(g: Gauge)
    ensures g.created <= g.Latest()
    decreases |g.updates|
  {
    if g.updates != [] {
      LatestAfterCreated(g.Before());
    }
  }

  /** `Latest` is the maximum of the creation time and of all readings. */
  lemma {:induction false} LatestIsMaximum(g: Gauge)
    ensures forall i | 0 <= i < |g.updates| :: g.updates[i].reading <= g.Latest()
    ensures g.created <= g.Latest()
    ensures g.Latest() == g.created || exists i | 0 <= i < |g.updates| :: g.updates[i].reading == g.Latest()
    decreases |g.updates|
  {
    if g.updates != [] {
      LatestIsMaximum(g.Before());
      assert forall i | 0 <= i < |g.updates| - 1 :: g.Before().updates[i] == g.updates[i];
    }
  }

  /** Before the last update took effect, the gauge had the earlier values. */
  lemma {:induction false} TicksUnchanged(g: Gauge, end: Time, p: real -> bool)
    requires g.updates != [] && end <= g.Latest()
    ensures TicksWhere(g, end, p) == TicksWhere(g.Before(), end, p)
    ensures Integral(g, end) == Integral(g.Before(), end)
    decreases end - g.created
  {
    if end > g.created {
      TicksUnchanged(g, end - 1, p);
    }
  }

  /** From its latest update on, the gauge keeps its value. */
  lemma {:induction false} TicksConstant(g: Gauge, n: nat, p: real -> bool)
    ensures TicksWhere(g, g.Latest() + n, p) == TicksWhere(g, g.Latest(), p) + if p(g.Value()) then n else 0
    ensures Integral(g, g.Latest() + n) == Integral(g, g.Latest()) + Times(n, g.Value())
  {
    LatestAfterCreated(g);
    if n > 0 {
      TicksConstant(g, n - 1, p);
      assert g.Latest() + n - 1 == g.Latest() + (n - 1);
      assert g.ValueAt(g.Latest() + n - 1) == g.Value();
    }
  }

  /** The observations amount to the ticks: in every range of values, and in sum. */
  lemma {:induction false} ObservationsAreTicks(g: Gauge, p: real -> bool)
    ensures WeightWhere(Observations(g), p) == TicksWhere(g, g.Latest(), p)
    ensures WeightedSum(Observations(g)) == Integral(g, g.Latest())
    decreases |g.updates|
  {
    if g.updates != [] {
      var before := g.Before();
      ObservationsAreTicks(before, p);
      TicksUnchanged(g, g.Latest(), p);
      var delta := g.Last().reading - before.Latest();
      if delta > 0 {
        var o := Observation(before.Value(), delta);
        TicksConstant(before, delta, p);
        WeightAppend(Observations(before), o, p);
        SumAppend(Observations(before), o);
        assert before.Latest() + delta == g.Latest();
      }
    }
  }

  lemma {:induction false} AllTicks(g: Gauge, end: Time)
    requires g.created <= end
    ensures TicksWhere(g, end, _ => true) == end - g.created
    decreases end - g.created
  {
    if end > g.created {
      AllTicks(g, end - 1);
    }
  }

  /** Every nanosecond since creation is accounted for once. */
  lemma {:induction false} TotalIsElapsed(g: Gauge)
    ensures TotalWeight(Observations(g)) == g.Latest() - g.created
  {
    ObservationsAreTicks(g, _ => true);
    LatestAfterCreated(g);
    AllTicks(g, g.Latest());
  }

  /** With a clock that does not go back, the value that counts at a tick is the one
      that was set last before it. */
  lemma {:induction false} NonDecreasingClockIsTrue(g: Gauge, t: Time)
    requires g.ClockNonDecreasing()
    ensures g.updates != [] ==> g.Latest() == g.Last().reading
    ensures g.ValueAt(t) == g.TrueValueAt(t)
    decreases |g.updates|
  {
    if g.updates != [] {
      NonDecreasingClockIsTrue(g.Before(), t);
      if |g.updates| > 1 {
        assert g.Before().Last() == g.updates[|g.updates| - 2];
      }
    }
  }

  /** The integral over time of what the gauge was set to. */
  ghost function TrueIntegral(g: Gauge, end: Time): real
    decreases end - g.created
  {
    if end <= g.created then 0.0 else TrueIntegral(g, end - 1) + g.TrueValueAt(end - 1)
  }

  lemma {:induction false} SumIsTimeIntegral(g: Gauge, end: Time)
    requires g.ClockNonDecreasing()
    ensures Integral(g, end) == TrueIntegral(g, end)
    decreases end - g.created
  {
    if end > g.created {
      SumIsTimeIntegral(g, end - 1);
      NonDecreasingClockIsTrue(g, end - 1);
    }
  }

  // ----- the histogram

  /** How ticks and integral grow: from zero, by the time since the latest reading at the value
      that the gauge was left with, and by nothing for a reading that goes back. */
  lemma {:induction false} GrowsByRectangles(g: Gauge, u: Setting, p: real -> bool)
    ensures TicksWhere(g, g.created, p) == 0 && Integral(g, g.created) == 0.0
    ensures g.updates == [] ==> g.Latest() == g.created
    ensures var held := if g.updates == [] then g.initial else g.updates[|g.updates| - 1].value;
            var after, time := g.Append(u), if u.reading > g.Latest() then u.reading - g.Latest() else 0;
            && after.Latest() == g.Latest() + time
            && TicksWhere(after, after.Latest(), p) == TicksWhere(g, g.Latest(), p) + (if p(held) then time else 0)
            && Integral(after, after.Latest()) == Integral(g, g.Latest()) + time as real * held
  {
    var time := if u.reading > g.Latest() then u.reading - g.Latest() else 0;
    RunsOn(g, u, time, p);
    TimesIsProduct(time, g.Value());
  }

  lemma {:induction false} RunsOn(g: Gauge, u: Setting, time: nat, p: real -> bool)
    requires time == if u.reading > g.Latest() then u.reading - g.Latest() else 0
    ensures var after := g.Append(u);
            && after.Latest() == g.Latest() + time
            && TicksWhere(after, after.Latest(), p) ==
               TicksWhere(g, g.Latest(), p) + (if p(g.Value()) then time else 0)
            && Integral(after, after.Latest()) == Integral(g, g.Latest()) + Times(time, g.Value())
  {
    AppendBefore(g, u);
    TicksUnchanged(g.Append(u), g.Append(u).Latest(), p);
    TicksConstant(g, time, p);
  }

  class TimingHistogram {
    const weighted: WeightedHistogram
    var lastSetTime: Time
    var value: real

    ghost var gauge: Gauge

    ghost predicate Valid()
      reads this, weighted, weighted.buckets
    {
      && weighted.Valid()
      && weighted.history == Observations(gauge)
      && lastSetTime == gauge.Latest()
      && value == gauge.Value()
    }

    constructor (upperBounds: seq<real>, initialValue: real, now: Time)
      requires IncreasingReals(upperBounds)
      ensures Valid() && gauge == Gauge(now, initialValue, []) && weighted.upperBounds == upperBounds
      ensures fresh(weighted) && fresh(weighted.buckets)
    {
      weighted := new WeightedHistogram(upperBounds);
      lastSetTime, value := now, initialValue;
      gauge := Gauge(now, initialValue, []);
    }

    method Update(now: Time, updateFn: real -> real)
      requires Valid()
      modifies this, weighted, weighted.buckets
      ensures Valid()
      ensures gauge == old(gauge).Append(Setting(now, updateFn(old(value))))
      ensures value == updateFn(old(value)) && lastSetTime == (if now > old(lastSetTime) then now else old(lastSetTime))
    {
      var delta := now - lastSetTime;
      var current := value;
      ghost var u := Setting(now, updateFn(current));
      AppendBefore(gauge, u);
      if delta > 0 {
        weighted.ObserveWithWeight(current, delta);
        lastSetTime := now;
      }
      value := updateFn(current);
      gauge := gauge.Append(u);
    }

    method Set(now: Time, newValue: real)
      requires Valid()
      modifies this, weighted, weighted.buckets
      ensures Valid() && gauge == old(gauge).Append(Setting(now, newValue))
      ensures value == newValue && lastSetTime == (if now > old(lastSetTime) then now else old(lastSetTime))
    {
      Update(now, _ => newValue);
    }

    method Inc(now: Time)
      requires Valid()
      modifies this, weighted, weighted.buckets
      ensures Valid() && gauge == old(gauge).Append(Setting(now, old(value) + 1.0))
      ensures value == old(value) + 1.0 && lastSetTime == (if now > old(lastSetTime) then now else old(lastSetTime))
    {
      Update(now, oldValue => oldValue + 1.0);
    }

    method Dec(now: Time)
      requires Valid()
      modifies this, weighted, weighted.buckets
      ensures Valid() && gauge == old(gauge).Append(Setting(now, old(value) - 1.0))
      ensures value == old(value) - 1.0 && lastSetTime == (if now > old(lastSetTime) then now else old(lastSetTime))
    {
      Update(now, oldValue => oldValue - 1.0);
    }

    method Add(now: Time, delta: real)
      requires Valid()
      modifies this, weighted, weighted.buckets
      ensures Valid() && gauge == old(gauge).Append(Setting(now, old(value) + delta))
      ensures value == old(value) + delta && lastSetTime == (if now > old(lastSetTime) then now else old(lastSetTime))
    {
      Update(now, oldValue => oldValue + delta);
    }

    method Sub(now: Time, delta: real)
      requires Valid()
      modifies this, weighted, weighted.buckets
      ensures Valid() && gauge == old(gauge).Append(Setting(now, old(value) - delta))
      ensures value == old(value) - delta && lastSetTime == (if now > old(lastSetTime) then now else old(lastSetTime))
    {
      Update(now, oldValue => oldValue - delta);
    }

    /** Accounts for the time since the last update, then exports. */
    method Write(now: Time) returns (count: nat, sum: real, cumulative: map<real, nat>)
      requires Valid()
      modifies this, weighted, weighted.buckets
      ensures Valid() && gauge == old(gauge).Append(Setting(now, old(value)))
      ensures value == old(value) && lastSetTime == (if now > old(lastSetTime) then now else old(lastSetTime))
      ensures count == gauge.Latest() - gauge.created
      ensures sum == Integral(gauge, gauge.Latest())
      ensures forall b | b in weighted.upperBounds ::
                b in cumulative && cumulative[b] == TicksWhere(gauge, gauge.Latest(), v => v <= b)
    {
      Add(now, 0.0);
      count, sum, cumulative := weighted.Export();
      TotalIsElapsed(gauge);
      forall b | b in weighted.upperBounds
        ensures b in cumulative && cumulative[b] == TicksWhere(gauge, gauge.Latest(), v => v <= b)
      {
        ObservationsAreTicks(gauge, v => v <= b);
      }
      ObservationsAreTicks(gauge, _ => true);
    }
  }
}
