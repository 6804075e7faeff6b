/** Feature gates.  Go iterates over maps in random order, so every loop over a map
below picks its next key arbitrarily; the results do not depend on the choices. */
module FeatureGates {
  import opened Options

  type Feature = string

  datatype PreRelease = Alpha | Beta | GA | Deprecated

  datatype FeatureSpec = FeatureSpec(default: bool, lockToDefault: bool, preRelease: PreRelease)

  type Known = map<Feature, FeatureSpec>
  type Settings = map<Feature, bool>

  const ALL_ALPHA: Feature := "AllAlpha"
  const ALL_BETA: Feature := "AllBeta"

  const DEFAULT_FEATURES: Known := map[
    ALL_ALPHA := FeatureSpec(false, false, Alpha),
    ALL_BETA := FeatureSpec(false, false, Beta)
  ]

  ghost predicate HasDefaults(known: Known) {
    && ALL_ALPHA in known && known[ALL_ALPHA] == FeatureSpec(false, false, Alpha)
    && ALL_BETA in known && known[ALL_BETA] == FeatureSpec(false, false, Beta)
  }

  // ----- what setting gates from a map amounts to

  /** A map is refused for a feature that is unknown or locked to the other value. */
  predicate Settable(known: Known, k: Feature, v: bool) {
    k in known && (known[k].lockToDefault ==> known[k].default == v)
  }

  ghost predicate Accepted(known: Known, m: Settings) {
    forall k | k in m :: Settable(known, k, m[k])
  }

  /** The bulk setting that covers `k`, if there is one. */
  function BulkSetting(known: Known, m: Settings, k: Feature): Option<bool>
    requires k in known
  {
    if known[k].preRelease.Alpha? && ALL_ALPHA in m then Some(m[ALL_ALPHA])
    else if known[k].preRelease.Beta? && ALL_BETA in m then Some(m[ALL_BETA])
    else None
  }

  /** An explicit value wins, then what was set before, then the bulk settings. */
  function Setting(known: Known, enabled: Settings, m: Settings, k: Feature): Option<bool>
    requires k in known
  {
    if k in m then Some(m[k])
    else if k in enabled then Some(enabled[k])
    else BulkSetting(known, m, k)
  }

  function Combined(known: Known, enabled: Settings, m: Settings): Settings {
    map k | k in known && Setting(known, enabled, m, k).Some? :: Setting(known, enabled, m, k).value
  }

  /** What a gate reports. */
  function Reported(known: Known, enabled: Settings, k: Feature): Option<bool> {
    if k in enabled then Some(enabled[k])
    else if k in known then Some(known[k].default)
    else None
  }

  // ----- one key at a time

  /** Gives a value to the gates of one maturity that have none. */
  function SetUnset(known: Known, enabled: Settings, maturity: PreRelease, val: bool): Settings {
    map k | k in enabled.Keys + known.Keys && (k in enabled || known[k].preRelease == maturity) ::
      if k in enabled then enabled[k] else val
  }

  function SetKey(known: Known, enabled: Settings, k: Feature, v: bool): Settings {
    var e := enabled[k := v];
    if k == ALL_ALPHA then SetUnset(known, e, Alpha, v)
    else if k == ALL_BETA then SetUnset(known, e, Beta, v)
    else e
  }

  lemma {:induction false} CombinedAt(known: Known, enabled: Settings, m: Settings, x: Feature)
    requires x in known
    ensures x in Combined(known, enabled, m) <==> Setting(known, enabled, m, x).Some?
    ensures x in Combined(known, enabled, m) ==> Combined(known, enabled, m)[x] == Setting(known, enabled, m, x).value
  {
  }

  lemma {:induction false} CombinedStepAt(known: Known, enabled: Settings, m: Settings, k: Feature, v: bool, x: Feature)
    requires HasDefaults(known) && k in known && k !in m && x in known
    ensures var step := SetKey(known, Combined(known, enabled, m), k, v);
            && (x in step <==> Setting(known, enabled, m[k := v], x).Some?)
            && (x in step ==> step[x] == Setting(known, enabled, m[k := v], x).value)
  {
    CombinedAt(known, enabled, m, x);
  }

  /** Whatever keys came before, one more key adds its part of the result. */
  lemma {:induction false} CombinedStep(known: Known, enabled: Settings, m: Settings, k: Feature, v: bool)
    requires HasDefaults(known) && k in known && k !in m
    ensures SetKey(known, Combined(known, enabled, m), k, v) == Combined(known, enabled, m[k := v])
  {
    var after := Combined(known, enabled, m[k := v]);
    var step := SetKey(known, Combined(known, enabled, m), k, v);
    assert step.Keys <= known.Keys;
    forall x | x in known
      ensures x in step <==> x in after
      ensures x in step && x in after ==> step[x] == after[x]
    {
      CombinedStepAt(known, enabled, m, k, v, x);
      CombinedAt(known, enabled, m[k := v], x);
    }
  }

  // ----- consequences

  /** Setting the same map again changes nothing. */
  lemma {:induction false} CombinedIdempotent(known: Known, enabled: Settings, m: Settings)
    requires enabled.Keys <= known.Keys && m.Keys <= known.Keys
    ensures Combined(known, Combined(known, enabled, m), m) == Combined(known, enabled, m)
  {
    var once := Combined(known, enabled, m);
    forall x | x in known
      ensures Setting(known, once, m, x) == Setting(known, enabled, m, x)
    {
      assert x in once <==> Setting(known, enabled, m, x).Some?;
    }
  }

  /** What is set after a sequence of maps. */
  function CombinedAll(known: Known, enabled: Settings, ms: seq<Settings>): Settings {
    if ms == [] then enabled
    else Combined(known, CombinedAll(known, enabled, ms[..|ms| - 1]), ms[|ms| - 1])
  }

  /** An explicit value stays until the next explicit one, whatever AllAlpha and AllBeta are
      set to with it, before it or after it. */
  lemma {:induction false} ExplicitWins(known: Known, enabled: Settings, ms: seq<Settings>, i: nat, k: Feature)
    requires k in known && i < |ms| && k in ms[i] && forall j | i < j < |ms| :: k !in ms[j]
    ensures Reported(known, CombinedAll(known, enabled, ms), k) == Some(ms[i][k])
  {
    var n := |ms| - 1;
    var before := CombinedAll(known, enabled, ms[..n]);
    CombinedAt(known, before, ms[n], k);
    if i < n {
      ExplicitWins(known, enabled, ms[..n], i, k);
      assert k in before by {
        ExplicitStays(known, enabled, ms[..n], i, k);
      }
    }
  }

  lemma {:induction false} ExplicitStays(known: Known, enabled: Settings, ms: seq<Settings>, i: nat, k: Feature)
    requires k in known && i < |ms| && k in ms[i]
    ensures k in CombinedAll(known, enabled, ms)
  {
    var n := |ms| - 1;
    CombinedAt(known, CombinedAll(known, enabled, ms[..n]), ms[n], k);
    if i < n {
      ExplicitStays(known, enabled, ms[..n], i, k);
    }
  }

  /** The bulk settings do not consult locks: a locked feature that reported its default
      still does, exactly unless an unset Alpha or Beta feature is bulk-set otherwise. */
  lemma {:induction false} LockKeptExactly(known: Known, enabled: Settings, m: Settings, k: Feature)
    requires k in known && known[k].lockToDefault && Accepted(known, m)
    requires Reported(known, enabled, k) == Some(known[k].default)
    ensures Reported(known, Combined(known, enabled, m), k) == Some(known[k].default) <==>
            !(k !in m && k !in enabled && BulkSetting(known, m, k) == Some(!known[k].default))
  {
    var after := Combined(known, enabled, m);
    assert k in after <==> Setting(known, enabled, m, k).Some?;
    if k in m {
      assert Settable(known, k, m[k]);
    }
  }

  /** A feature that is locked to false and reports true. */
  lemma {:induction false} LockBroken() returns (known: Known, m: Settings, k: Feature)
    ensures HasDefaults(known) && k in known && known[k].lockToDefault && !known[k].default
    ensures Accepted(known, m)
    ensures Reported(known, map[], k) == Some(false)
    ensures Reported(known, Combined(known, map[], m), k) == Some(true)
  {
    k := "Locked";
    known := DEFAULT_FEATURES[k := FeatureSpec(false, true, Alpha)];
    m := map[ALL_ALPHA := true];
    assert Setting(known, map[], m, k) == Some(true);
  }

  /** Both maps set the feature in bulk, differently, and nothing else sets it. */
  ghost predicate BulkConflict(known: Known, enabled: Settings, m: Settings, n: Settings, k: Feature)
    requires k in known
  {
    && k !in enabled && k !in m && k !in n
    && BulkSetting(known, m, k).Some? && BulkSetting(known, n, k).Some?
    && BulkSetting(known, m, k) != BulkSetting(known, n, k)
  }

  /** Two maps one after the other amount to both at once exactly if they do not set a
      feature in bulk differently that nothing else sets: the first bulk setting stays. */
  lemma {:induction false} TwoMapsExactly(known: Known, enabled: Settings, m: Settings, n: Settings)
    requires enabled.Keys <= known.Keys && m.Keys <= known.Keys && n.Keys <= known.Keys
    ensures Combined(known, Combined(known, enabled, m), n) == Combined(known, enabled, m + n) <==>
            forall k | k in known :: !BulkConflict(known, enabled, m, n, k)
  {
    var twice, once := Combined(known, Combined(known, enabled, m), n), Combined(known, enabled, m + n);
    forall k | k in known
      ensures k in twice <==> k in once
      ensures BulkConflict(known, enabled, m, n, k) ==> k in twice
      ensures k in twice ==> (twice[k] == once[k] <==> !BulkConflict(known, enabled, m, n, k))
    {
      TwoMapsAt(known, enabled, m, n, k);
    }
  }

  lemma {:induction false} TwoMapsAt(known: Known, enabled: Settings, m: Settings, n: Settings, k: Feature)
    requires k in known
    ensures var twice, once := Combined(known, Combined(known, enabled, m), n), Combined(known, enabled, m + n);
            && (k in twice <==> k in once)
            && (BulkConflict(known, enabled, m, n, k) ==> k in twice)
            && (k in twice ==> (twice[k] == once[k] <==> !BulkConflict(known, enabled, m, n, k)))
  {
    CombinedAt(known, enabled, m, k);
    CombinedAt(known, Combined(known, enabled, m), n, k);
    CombinedAt(known, enabled, m + n, k);
  }

  // ----- locks over whole runs

  /** The bulk setting of the first map that covers `k`. */
  function FirstBulk(known: Known, ms: seq<Settings>, k: Feature): Option<bool>
    requires k in known
  {
    if ms == [] then None
    else
      var first := FirstBulk(known, ms[..|ms| - 1], k);
      if first.Some? then first else BulkSetting(known, ms[|ms| - 1], k)
  }

  /** Of a feature that is never set explicitly, the first bulk setting stays. */
  lemma {:induction false} FirstBulkStays(known: Known, enabled: Settings, ms: seq<Settings>, k: Feature)
    requires k in known && k !in enabled && forall i | 0 <= i < |ms| :: k !in ms[i]
    ensures k in CombinedAll(known, enabled, ms) <==> FirstBulk(known, ms, k).Some?
    ensures FirstBulk(known, ms, k).Some? ==> CombinedAll(known, enabled, ms)[k] == FirstBulk(known, ms, k).value
  {
    if ms != [] {
      var n := |ms| - 1;
      FirstBulkStays(known, enabled, ms[..n], k);
      CombinedAt(known, CombinedAll(known, enabled, ms[..n]), ms[n], k);
    }
  }

  /** What has a value and is never set explicitly keeps it. */
  lemma {:induction false} SetStays(known: Known, enabled: Settings, ms: seq<Settings>, k: Feature)
    requires k in known && k in enabled && forall i | 0 <= i < |ms| :: k !in ms[i]
    ensures k in CombinedAll(known, enabled, ms) && CombinedAll(known, enabled, ms)[k] == enabled[k]
  {
    if ms != [] {
      var n := |ms| - 1;
      SetStays(known, enabled, ms[..n], k);
      CombinedAt(known, CombinedAll(known, enabled, ms[..n]), ms[n], k);
    }
  }

  ghost predicate SetExplicitly(ms: seq<Settings>, k: Feature) {
    exists i | 0 <= i < |ms| :: k in ms[i]
  }

  lemma {:induction false} LastExplicit(ms: seq<Settings>, k: Feature) returns (i: nat)
    requires SetExplicitly(ms, k)
    ensures i < |ms| && k in ms[i] && forall j | i < j < |ms| :: k !in ms[j]
  {
    i := |ms| - 1;
    if k !in ms[i] {
      i := LastExplicit(ms[..i], k);
    }
  }

  /** After any sequence of accepted maps a locked feature that reported its default still
      does, exactly unless it was never set explicitly and the first bulk setting that
      covers it is the other value. */
  lemma {:induction false} LockKeptOverRuns(known: Known, enabled: Settings, ms: seq<Settings>, k: Feature)
    requires k in known && known[k].lockToDefault && forall i | 0 <= i < |ms| :: Accepted(known, ms[i])
    requires Reported(known, enabled, k) == Some(known[k].default)
    ensures Reported(known, CombinedAll(known, enabled, ms), k) == Some(known[k].default) <==>
            k in enabled || SetExplicitly(ms, k) || FirstBulk(known, ms, k) != Some(!known[k].default)
  {
    if SetExplicitly(ms, k) {
      var i := LastExplicit(ms, k);
      ExplicitWins(known, enabled, ms, i, k);
      assert Settable(known, k, ms[i][k]);
    } else if k in enabled {
      SetStays(known, enabled, ms, k);
    } else {
      FirstBulkStays(known, enabled, ms, k);
    }
  }

  // ----- the gate

  ghost predicate LocksHold(known: Known, enabled: Settings) {
    forall k | k in enabled && k in known && known[k].lockToDefault ::
      known[k].preRelease.Alpha? || known[k].preRelease.Beta? || enabled[k] == known[k].default
  }

  /** What a map leaves set: its own values, then what was set before, then for the features
      of a maturity that are set in bulk that value, and nothing else. */
  ghost predicate SetsAsAsked(known: Known, before: Settings, m: Settings, after: Settings) {
    && after.Keys <= known.Keys
    && forall k | k in known ::
         if k in m then k in after && after[k] == m[k]
         else if k in before then k in after && after[k] == before[k]
         else if known[k].preRelease.Alpha? && "AllAlpha" in m then k in after && after[k] == m["AllAlpha"]
         else if known[k].preRelease.Beta? && "AllBeta" in m then k in after && after[k] == m["AllBeta"]
         else k !in after
  }

  lemma {:induction false} CombinedAsAsked(known: Known, enabled: Settings, m: Settings)
    ensures SetsAsAsked(known, enabled, m, Combined(known, enabled, m))
  {
    forall k | k in known {
      CombinedAt(known, enabled, m, k);
    }
  }

  class FeatureGate {
    var known: Known
    var enabled: Settings
    var closed: bool

    /** Set features are known, and locked features that are neither Alpha nor Beta
        are set to their default if at all. */
    ghost predicate Valid()
      reads this
    {
      HasDefaults(known) && enabled.Keys <= known.Keys && LocksHold(known, enabled)
    }

    constructor ()
      ensures Valid() && known == DEFAULT_FEATURES && enabled == map[] && !closed
    {
      known, enabled, closed := DEFAULT_FEATURES, map[], false;
    }

    method SetFromMap(m: Settings) returns (ok: bool)
      requires Valid()
      modifies this`known, this`enabled
      ensures Valid() && known == old(known)
      ensures ok <==> Accepted(known, m)
      ensures ok <==> forall k | k in m :: k in known && (known[k].lockToDefault ==> m[k] == known[k].default)
      ensures enabled == if ok then Combined(known, old(enabled), m) else old(enabled)
      ensures ok ==> SetsAsAsked(known, old(enabled), m, enabled)
    {
      CombinedAsAsked(known, enabled, m);
      var knownCopy, enabledCopy := known, enabled;
      var todo := m.Keys;
      ghost var done: Settings := map[];
      CombinedNothing(known, enabled);
      while todo != {}
        invariant todo <= m.Keys && done.Keys == m.Keys - todo
        invariant forall k | k in done :: done[k] == m[k]
        invariant Accepted(known, done)
        invariant enabledCopy == Combined(known, enabled, done)
        modifies {}
        decreases todo
      {
        var k :| k in todo;
        var v := m[k];
        if k !in knownCopy {
          assert !Settable(known, k, m[k]);
          return false;
        }
        var spec := knownCopy[k];
        if spec.lockToDefault && spec.default != v {
          assert !Settable(known, k, m[k]);
          return false;
        }
        CombinedStep(known, enabled, done, k, v);
        enabledCopy := enabledCopy[k := v];
        if k == ALL_ALPHA {
          enabledCopy := SetUnsetGates(knownCopy, enabledCopy, Alpha, v);
        } else if k == ALL_BETA {
          enabledCopy := SetUnsetGates(knownCopy, enabledCopy, Beta, v);
        }
        todo := todo - {k};
        done := done[k := v];
      }
      assert done == m;
      CombinedKeepsLocks(known, enabled, m);
      known, enabled := knownCopy, enabledCopy;
      return true;
    }

    /** `setUnsetAlphaGates` and `setUnsetBetaGates`. */
    static method SetUnsetGates(known: Known, enabled: Settings, maturity: PreRelease, val: bool)
      returns (result: Settings)
      ensures result == SetUnset(known, enabled, maturity, val)
      ensures forall k :: k in result <==> k in enabled || (k in known && known[k].preRelease == maturity)
      ensures forall k | k in result :: result[k] == if k in enabled then enabled[k] else val
    {
      result := enabled;
      var todo := known.Keys;
      while todo != {}
        invariant todo <= known.Keys
        invariant forall k :: k in result <==>
                              k in enabled || (k in known && k !in todo && known[k].preRelease == maturity)
        invariant forall k | k in result :: result[k] == if k in enabled then enabled[k] else val
        decreases todo
      {
        var k :| k in todo;
        if known[k].preRelease == maturity {
          if k !in result {
            result := result[k := val];
          }
        }
        todo := todo - {k};
      }
    }

    method Add(features: Known) returns (ok: bool)
      requires Valid()
      modifies this`known
      ensures Valid()
      ensures ok <==> !closed && forall k | k in features && k in old(known) :: features[k] == old(known)[k]
      ensures known == if ok then old(known) + features else old(known)
      ensures forall k | k in old(known) :: k in known && known[k] == old(known)[k]
    {
      if closed {
        return false;
      }
      var copy := known;
      var todo := features.Keys;
      while todo != {}
        invariant todo <= features.Keys
        invariant copy == known + map k | k in features && k !in todo :: features[k]
        invariant forall k | k in features && k !in todo && k in known :: features[k] == known[k]
        decreases todo
      {
        var k :| k in todo;
        if k in copy {
          if copy[k] != features[k] {
            assert k in known;
            return false;
          }
        } else {
          copy := copy[k := features[k]];
        }
        todo := todo - {k};
      }
      assert (map k | k in features && k !in todo :: features[k]) == features;
      known := copy;
      return true;
    }

    /** `AddFlag` stops further features from being added. */
    method Close()
      requires Valid()
      modifies this`closed
      ensures Valid() && closed
    {
      closed := true;
    }

    /** Asking for an unknown feature panics. */
    method Enabled(k: Feature) returns (r: Option<bool>)
      requires Valid()
      ensures r == Reported(known, enabled, k)
      ensures k in enabled ==> r == Some(enabled[k])
      ensures k !in enabled && k in known ==> r == Some(known[k].default)
      ensures r.None? <==> k !in known
      ensures k in known && known[k].lockToDefault && !known[k].preRelease.Alpha? && !known[k].preRelease.Beta? ==>
                r == Some(known[k].default)
    {
      if k in enabled {
        return Some(enabled[k]);
      }
      if k in known {
        return Some(known[k].default);
      }
      return None;
    }

    method DeepCopy() returns (copy: FeatureGate)
      requires Valid()
      ensures fresh(copy) && copy.Valid()
      ensures copy.known == known && copy.enabled == enabled && copy.closed == closed
    {
      copy := new FeatureGate();
      copy.known, copy.enabled, copy.closed := known, enabled, closed;
    }
  }

  lemma {:induction false} CombinedNothing(known: Known, enabled: Settings)
    requires enabled.Keys <= known.Keys
    ensures Combined(known, enabled, map[]) == enabled
  {
    assert forall k | k in known :: k in Combined(known, enabled, map[]) <==> k in enabled;
  }

  lemma {:induction false} CombinedKeepsLocks(known: Known, enabled: Settings, m: Settings)
    requires LocksHold(known, enabled) && Accepted(known, m)
    ensures LocksHold(known, Combined(known, enabled, m))
  {
    var after := Combined(known, enabled, m);
    forall k | k in after && k in known && known[k].lockToDefault
      ensures known[k].preRelease.Alpha? || known[k].preRelease.Beta? || after[k] == known[k].default
    {
      assert Setting(known, enabled, m, k) == Some(after[k]);
      assert k in m ==> Settable(known, k, m[k]);
    }
  }
}
