/**
 * Anomaly detection over electrode-mass measurements
 * (detect_anomalies in ai_experiment_assistant/analyzer.py).
 *
 * Per experiment: a cathode loss that is large relative to the anode loss, and a large anode
 * loss. Per (electrolyte, mode) group: an anode loss whose population standard deviation is
 * too high. The standard deviation itself is floating-point statistics and is a parameter
 * here; groups are visited in sorted key order, as pandas' groupby does.
 */
module Analyzer {
  import opened Wrappers
  import opened StringOrder

  /** The fields of a stored experiment that the detector reads (Δm = final − initial mass). */
  datatype Experiment = Experiment(
    experimentId: string,
    mode: string,
    electrolyte: string,
    deltaMassPositiveG: real,
    deltaMassNegativeG: real)

  datatype AnomalyType = HighCathodeLoss | HighAnodeLoss | UnstableResults {
    /** The anomaly_type text the source stores. */
    function Name(): string {
      match this
      case HighCathodeLoss => "HIGH_CATHODE_LOSS"
      case HighAnodeLoss => "HIGH_ANODE_LOSS"
      case UnstableResults => "UNSTABLE_RESULTS"
    }
  }

  /** The three anomaly types are stored under three different names. */
  lemma AnomalyNamesDistinct(a: AnomalyType, b: AnomalyType)
    ensures a.Name() == b.Name() <==> a == b
  {
  }

  /** A detected anomaly; the human-readable message is not modelled. */
  datatype Anomaly = Anomaly(experimentId: string, anomalyType: AnomalyType)

  const CathodeRatioKey: string := "cathode_loss_ratio_threshold"
  const AnodeLossKey: string := "anode_loss_threshold_g"
  const InstabilityStdKey: string := "std_dev_instability_threshold_g"

  /** The default thresholds of the analysis configuration. */
  const DefaultAnalysisConfig: map<string, real> := map[
    CathodeRatioKey := 0.5,
    AnodeLossKey := 0.1,
    InstabilityStdKey := 0.05
  ]

  /** The defaults, with every key the caller supplies taking the caller's value. */
  function MergeThresholds(overrides: Option<map<string, real>>): (t: map<string, real>)
    ensures overrides.None? ==> t == DefaultAnalysisConfig
    ensures overrides.Some? ==> t.Keys == DefaultAnalysisConfig.Keys + overrides.value.Keys
    ensures overrides.Some? ==> forall k :: k in overrides.value ==> t[k] == overrides.value[k]
    ensures forall k :: k in DefaultAnalysisConfig && (overrides.None? || k !in overrides.value)
                        ==> k in t && t[k] == DefaultAnalysisConfig[k]
  {
    DefaultAnalysisConfig + (if overrides.Some? then overrides.value else map[])
  }

  datatype Limits = Limits(cathodeRatio: real, anodeLoss: real, instabilityStd: real)

  /** The caller's value for key if there is one, else the given default. */
  function Given(overrides: Option<map<string, real>>, key: string, default: real): real {
    if overrides.Some? && key in overrides.value then overrides.value[key] else default
  }

  /** The three limits the detector reads from the merged thresholds. */
  function EffectiveLimits(overrides: Option<map<string, real>>): (l: Limits)
    ensures l.cathodeRatio == Given(overrides, CathodeRatioKey, 0.5)
    ensures l.anodeLoss == Given(overrides, AnodeLossKey, 0.1)
    ensures l.instabilityStd == Given(overrides, InstabilityStdKey, 0.05)
  {
    var t := MergeThresholds(overrides);
    Limits(t[CathodeRatioKey], t[AnodeLossKey], t[InstabilityStdKey])
  }

  function Abs(x: real): real {
    if x < 0.0 then -x else x
  }

  /** |Δm−| / |Δm+| reaches the limit; never evaluated when Δm+ is zero. */
  predicate IsHighCathodeLoss(e: Experiment, limits: Limits) {
    e.deltaMassPositiveG != 0.0
    && Abs(e.deltaMassNegativeG) / Abs(e.deltaMassPositiveG) >= limits.cathodeRatio
  }

  predicate IsHighAnodeLoss(e: Experiment, limits: Limits) {
    e.deltaMassPositiveG >= limits.anodeLoss
  }

  /** What one pass of the per-experiment loop appends, in the order it appends it. */
  function ExperimentRules(e: Experiment, limits: Limits): (r: seq<Anomaly>)
    ensures |r| <= 2
    ensures forall a :: a in r ==> a.experimentId == e.experimentId && a.anomalyType != UnstableResults
  {
    (if IsHighCathodeLoss(e, limits) then [Anomaly(e.experimentId, HighCathodeLoss)] else [])
    + (if IsHighAnodeLoss(e, limits) then [Anomaly(e.experimentId, HighAnodeLoss)] else [])
  }

  /** The anomalies of the per-experiment loop after it has visited exps. */
  function PerExperimentAnomalies(exps: seq<Experiment>, limits: Limits): (r: seq<Anomaly>)
    ensures |r| <= 2 * |exps|
    ensures forall a :: a in r ==> a.anomalyType != UnstableResults
    decreases |exps|
  {
    if exps == [] then []
    else PerExperimentAnomalies(exps[..|exps| - 1], limits) + ExperimentRules(exps[|exps| - 1], limits)
  }

  function KeyOf(e: Experiment): Pair {
    (e.electrolyte, e.mode)
  }

  /** The distinct (electrolyte, mode) keys of exps, in sorted order. */
  function GroupKeys(exps: seq<Experiment>): (keys: seq<Pair>)
    ensures StrictlySorted(keys)
    ensures |keys| <= |exps|
    decreases |exps|
  {
    if exps == [] then []
    else InsertPair(KeyOf(exps[|exps| - 1]), GroupKeys(exps[..|exps| - 1]))
  }

  /** A key is a group key exactly when some experiment has it. */
  lemma {:induction false} GroupKeysComplete(exps: seq<Experiment>)
    ensures forall k :: k in GroupKeys(exps) <==> exists i :: 0 <= i < |exps| && KeyOf(exps[i]) == k
    decreases |exps|
  {
    if exps != [] {
      var front := exps[..|exps| - 1];
      GroupKeysComplete(front);
      var keys := GroupKeys(exps);
      forall k ensures k in keys <==> exists i :: 0 <= i < |exps| && KeyOf(exps[i]) == k {
        if k in keys && k != KeyOf(exps[|exps| - 1]) {
          assert k in GroupKeys(front);
          var i :| 0 <= i < |front| && KeyOf(front[i]) == k;
          assert exps[i] == front[i];
        }
        if i :| 0 <= i < |exps| && KeyOf(exps[i]) == k {
          if i < |front| {
            assert front[i] == exps[i];
            assert k in GroupKeys(front);
          }
        }
      }
    }
  }

  /** The Δm+ column of the group with that key, in input order. */
  function GroupDeltas(exps: seq<Experiment>, key: Pair): (d: seq<real>)
    ensures |d| <= |exps|
    ensures forall x :: x in d <==>
              exists i :: 0 <= i < |exps| && KeyOf(exps[i]) == key && exps[i].deltaMassPositiveG == x
    decreases |exps|
  {
    if exps == [] then []
    else
      var front, last := exps[..|exps| - 1], exps[|exps| - 1];
      assert forall i :: 0 <= i < |front| ==> front[i] == exps[i];
      GroupDeltas(front, key) + (if KeyOf(last) == key then [last.deltaMassPositiveG] else [])
  }

  /** Splitting the experiments splits the group's Δm+ column: the column keeps every
    * occurrence, in input order. */
  lemma {:induction false} GroupDeltasConcat(a: seq<Experiment>, b: seq<Experiment>, key: Pair)
    ensures GroupDeltas(a + b, key) == GroupDeltas(a, key) + GroupDeltas(b, key)
    decreases |b|
  {
    if b == [] {
      assert a + b == a;
    } else {
      var front, last := b[..|b| - 1], b[|b| - 1];
      assert (a + b)[..|a + b| - 1] == a + front;
      assert (a + b)[|a + b| - 1] == last;
      GroupDeltasConcat(a, front, key);
    }
  }

  /** One experiment contributes its Δm+ exactly when it belongs to the group. */
  lemma GroupDeltasSingle(e: Experiment, key: Pair)
    ensures GroupDeltas([e], key) == if KeyOf(e) == key then [e.deltaMassPositiveG] else []
  {
  }

  /** The anomaly reported for an unstable group. */
  function GroupAnomaly(key: Pair): Anomaly {
    Anomaly("GROUP-" + key.0 + "-" + key.1, UnstableResults)
  }

  predicate Unstable(exps: seq<Experiment>, key: Pair, limit: real, stdDev: seq<real> -> real) {
    stdDev(GroupDeltas(exps, key)) >= limit
  }

  /** Those of keys whose group is unstable, in the order of keys. */
  function UnstableKeys(keys: seq<Pair>, exps: seq<Experiment>, limit: real, stdDev: seq<real> -> real)
    : (r: seq<Pair>)
    ensures |r| <= |keys|
    decreases |keys|
  {
    if keys == [] then []
    else
      var last := keys[|keys| - 1];
      UnstableKeys(keys[..|keys| - 1], exps, limit, stdDev)
      + (if Unstable(exps, last, limit, stdDev) then [last] else [])
  }

  /** The unstable keys are exactly the unstable members of keys, and stay sorted. */
  lemma UnstableKeysFilter(keys: seq<Pair>, exps: seq<Experiment>, limit: real,
                           stdDev: seq<real> -> real)
    ensures var r := UnstableKeys(keys, exps, limit, stdDev);
            && (StrictlySorted(keys) ==> StrictlySorted(r))
            && (forall k :: k in r <==> k in keys && Unstable(exps, k, limit, stdDev))
  {
    UnstableKeysMembers(keys, exps, limit, stdDev);
    if StrictlySorted(keys) {
      UnstableKeysSorted(keys, exps, limit, stdDev);
    }
  }

  lemma {:induction false} UnstableKeysMembers(keys: seq<Pair>, exps: seq<Experiment>, limit: real,
                                               stdDev: seq<real> -> real)
    ensures forall k :: k in UnstableKeys(keys, exps, limit, stdDev) <==> k in keys && Unstable(exps, k, limit, stdDev)
    decreases |keys|
  {
    if keys != [] {
      var front, last := keys[..|keys| - 1], keys[|keys| - 1];
      UnstableKeysMembers(front, exps, limit, stdDev);
      assert keys == front + [last];
    }
  }

  lemma {:induction false} UnstableKeysSorted(keys: seq<Pair>, exps: seq<Experiment>, limit: real,
                                              stdDev: seq<real> -> real)
    requires StrictlySorted(keys)
    ensures StrictlySorted(UnstableKeys(keys, exps, limit, stdDev))
    decreases |keys|
  {
    if keys != [] {
      var front, last := keys[..|keys| - 1], keys[|keys| - 1];
      var prefix := UnstableKeys(front, exps, limit, stdDev);
      assert StrictlySorted(front) by {
        forall i, j | 0 <= i < j < |front| ensures PairLess(front[i], front[j]) {
          assert front[i] == keys[i] && front[j] == keys[j];
        }
      }
      UnstableKeysSorted(front, exps, limit, stdDev);
      UnstableKeysMembers(front, exps, limit, stdDev);
      forall x | x in prefix ensures PairLess(x, last) {
        var m :| 0 <= m < |front| && front[m] == x;
        assert keys[m] == x;
      }
      if Unstable(exps, last, limit, stdDev) {
        var r := prefix + [last];
        forall i, j | 0 <= i < j < |r| ensures PairLess(r[i], r[j]) {
          assert r[i] == prefix[i];
          if j == |prefix| {
            assert r[i] in prefix;
          } else {
            assert r[j] == prefix[j];
          }
        }
      }
    }
  }

  function GroupAnomalies(keys: seq<Pair>): (r: seq<Anomaly>)
    ensures |r| == |keys|
    ensures forall i :: 0 <= i < |keys| ==> r[i] == GroupAnomaly(keys[i])
  {
    if keys == [] then [] else GroupAnomalies(keys[..|keys| - 1]) + [GroupAnomaly(keys[|keys| - 1])]
  }

  /** Everything detect_anomalies returns: per-experiment anomalies, then group anomalies. */
  function Anomalies(exps: seq<Experiment>, thresholds: Option<map<string, real>>, stdDev: seq<real> -> real)
    : (r: seq<Anomaly>)
    ensures |r| <= 3 * |exps|
    ensures exps == [] ==> r == []
  {
    var limits := EffectiveLimits(thresholds);
    PerExperimentAnomalies(exps, limits)
    + GroupAnomalies(UnstableKeys(GroupKeys(exps), exps, limits.instabilityStd, stdDev))
  }

  /** The detector: one loop appending per-experiment anomalies, one loop over the groups. */
  method DetectAnomalies(experiments: seq<Experiment>, thresholds: Option<map<string, real>>,
                         stdDev: seq<real> -> real)
    returns (anomalies: seq<Anomaly>)
    ensures anomalies == Anomalies(experiments, thresholds, stdDev)
  {
    var limits := EffectiveLimits(thresholds);
    anomalies := [];
    if experiments == [] {
      return;
    }
    anomalies := CheckEachExperiment(experiments, limits);
    anomalies := CheckEachGroup(experiments, limits.instabilityStd, stdDev, anomalies);
  }

  /** The loop over the experiments, appending HIGH_CATHODE_LOSS and HIGH_ANODE_LOSS. */
  method CheckEachExperiment(experiments: seq<Experiment>, limits: Limits) returns (anomalies: seq<Anomaly>)
    ensures anomalies == PerExperimentAnomalies(experiments, limits)
  {
    anomalies := [];
    for i := 0 to |experiments|
      invariant anomalies == PerExperimentAnomalies(experiments[..i], limits)
    {
      ghost var before := anomalies;
      var e := experiments[i];
      if e.deltaMassPositiveG != 0.0 {
        var ratio := Abs(e.deltaMassNegativeG) / Abs(e.deltaMassPositiveG);
        if ratio >= limits.cathodeRatio {
          anomalies := anomalies + [Anomaly(e.experimentId, HighCathodeLoss)];
        }
      }
      if e.deltaMassPositiveG >= limits.anodeLoss {
        anomalies := anomalies + [Anomaly(e.experimentId, HighAnodeLoss)];
      }
      assert anomalies == before + ExperimentRules(e, limits);
      PerExperimentStep(experiments, i, limits);
    }
    assert experiments[..|experiments|] == experiments;
  }

  /** The loop over the (electrolyte, mode) groups, appending UNSTABLE_RESULTS. */
  method CheckEachGroup(experiments: seq<Experiment>, limit: real, stdDev: seq<real> -> real,
                        found: seq<Anomaly>)
    returns (anomalies: seq<Anomaly>)
    ensures anomalies == found + GroupAnomalies(UnstableKeys(GroupKeys(experiments), experiments, limit, stdDev))
  {
    anomalies := found;
    var keys := GroupKeys(experiments);
    for j := 0 to |keys|
      invariant anomalies == found + GroupAnomalies(UnstableKeys(keys[..j], experiments, limit, stdDev))
    {
      var key := keys[j];
      var std := stdDev(GroupDeltas(experiments, key));
      GroupLoopStep(found, keys, j, experiments, limit, stdDev);
      if std >= limit {
        anomalies := anomalies + [GroupAnomaly(key)];
      }
    }
    assert keys[..|keys|] == keys;
  }

  lemma PerExperimentStep(exps: seq<Experiment>, i: nat, limits: Limits)
    requires i < |exps|
    ensures PerExperimentAnomalies(exps[..i + 1], limits)
         == PerExperimentAnomalies(exps[..i], limits) + ExperimentRules(exps[i], limits)
  {
    assert exps[..i + 1][..i] == exps[..i];
  }

  lemma UnstableKeysStep(keys: seq<Pair>, j: nat, exps: seq<Experiment>, limit: real,
                         stdDev: seq<real> -> real)
    requires j < |keys|
    ensures UnstableKeys(keys[..j + 1], exps, limit, stdDev)
         == UnstableKeys(keys[..j], exps, limit, stdDev)
            + (if Unstable(exps, keys[j], limit, stdDev) then [keys[j]] else [])
  {
    assert keys[..j + 1][..j] == keys[..j];
  }

  /** One turn of the group loop: an unstable key appends its anomaly, a stable one nothing. */
  lemma GroupLoopStep(found: seq<Anomaly>, keys: seq<Pair>, j: nat, exps: seq<Experiment>, limit: real,
                      stdDev: seq<real> -> real)
    requires j < |keys|
    ensures var before := found + GroupAnomalies(UnstableKeys(keys[..j], exps, limit, stdDev));
            found + GroupAnomalies(UnstableKeys(keys[..j + 1], exps, limit, stdDev))
            == if stdDev(GroupDeltas(exps, keys[j])) >= limit then before + [GroupAnomaly(keys[j])] else before
  {
    var unstable := UnstableKeys(keys[..j], exps, limit, stdDev);
    UnstableKeysStep(keys, j, exps, limit, stdDev);
    if Unstable(exps, keys[j], limit, stdDev) {
      GroupAnomaliesSnoc(unstable, keys[j]);
      assert found + (GroupAnomalies(unstable) + [GroupAnomaly(keys[j])])
          == (found + GroupAnomalies(unstable)) + [GroupAnomaly(keys[j])];
    } else {
      assert unstable + [] == unstable;
    }
  }

  lemma GroupAnomaliesSnoc(keys: seq<Pair>, k: Pair)
    ensures GroupAnomalies(keys + [k]) == GroupAnomalies(keys) + [GroupAnomaly(k)]
  {
    assert (keys + [k])[..|keys|] == keys;
  }

  // Properties of the detector.

  /** No experiments, no anomalies. */
  lemma NoExperimentsNoAnomalies(thresholds: Option<map<string, real>>, stdDev: seq<real> -> real)
    ensures Anomalies([], thresholds, stdDev) == []
  {
  }

  /** HIGH_CATHODE_LOSS is reported exactly when Δm+ is non-zero and |Δm−| reaches limit · |Δm+|. */
  lemma CathodeRule(e: Experiment, limits: Limits)
    ensures Anomaly(e.experimentId, HighCathodeLoss) in ExperimentRules(e, limits)
        <==> e.deltaMassPositiveG != 0.0
             && Abs(e.deltaMassNegativeG) >= limits.cathodeRatio * Abs(e.deltaMassPositiveG)
  {
    if e.deltaMassPositiveG != 0.0 {
      var p, n := Abs(e.deltaMassPositiveG), Abs(e.deltaMassNegativeG);
      assert p > 0.0;
      assert n / p * p == n;
      if n / p >= limits.cathodeRatio {
        assert n >= limits.cathodeRatio * p;
      } else {
        assert n < limits.cathodeRatio * p;
      }
    }
  }

  /** An experiment whose anode mass did not change never gets HIGH_CATHODE_LOSS. */
  lemma NoCathodeLossWithoutAnodeChange(e: Experiment, limits: Limits)
    requires e.deltaMassPositiveG == 0.0
    ensures Anomaly(e.experimentId, HighCathodeLoss) !in ExperimentRules(e, limits)
  {
  }

  /** HIGH_ANODE_LOSS is reported exactly when Δm+ reaches the anode limit. */
  lemma AnodeRule(e: Experiment, limits: Limits)
    ensures Anomaly(e.experimentId, HighAnodeLoss) in ExperimentRules(e, limits)
        <==> e.deltaMassPositiveG >= limits.anodeLoss
  {
  }

  /** Every per-experiment anomaly carries the experiment_id of one of the experiments. */
  lemma {:induction false} PerExperimentIds(exps: seq<Experiment>, limits: Limits)
    ensures forall a :: a in PerExperimentAnomalies(exps, limits) ==>
              exists i :: 0 <= i < |exps| && exps[i].experimentId == a.experimentId
    decreases |exps|
  {
    if exps != [] {
      var front, last := exps[..|exps| - 1], exps[|exps| - 1];
      PerExperimentIds(front, limits);
      forall a | a in PerExperimentAnomalies(exps, limits)
        ensures exists i :: 0 <= i < |exps| && exps[i].experimentId == a.experimentId
      {
        if a in PerExperimentAnomalies(front, limits) {
          var i :| 0 <= i < |front| && front[i].experimentId == a.experimentId;
          assert exps[i] == front[i];
        } else {
          assert a in ExperimentRules(last, limits);
          assert exps[|exps| - 1] == last;
        }
      }
    }
  }

  /** Per-experiment anomalies follow the input order: those of a come before those of b. */
  lemma {:induction false} PerExperimentInInputOrder(a: seq<Experiment>, b: seq<Experiment>, limits: Limits)
    ensures PerExperimentAnomalies(a + b, limits)
         == PerExperimentAnomalies(a, limits) + PerExperimentAnomalies(b, limits)
    decreases |b|
  {
    if b == [] {
      assert a + b == a;
    } else {
      var front := b[..|b| - 1];
      assert (a + b)[..|a + b| - 1] == a + front;
      assert (a + b)[|a + b| - 1] == b[|b| - 1];
      PerExperimentInInputOrder(a, front, limits);
    }
  }

  /** No group anomaly comes before a per-experiment anomaly. */
  lemma GroupAnomaliesLast(exps: seq<Experiment>, thresholds: Option<map<string, real>>,
                           stdDev: seq<real> -> real)
    ensures var r := Anomalies(exps, thresholds, stdDev);
            forall i, j :: 0 <= i < j < |r| && r[i].anomalyType == UnstableResults
                           ==> r[j].anomalyType == UnstableResults
  {
    var limits := EffectiveLimits(thresholds);
    var per := PerExperimentAnomalies(exps, limits);
    var grp := GroupAnomalies(UnstableKeys(GroupKeys(exps), exps, limits.instabilityStd, stdDev));
    forall k | 0 <= k < |per| ensures per[k].anomalyType != UnstableResults {
      assert per[k] in per;
    }
    assert Anomalies(exps, thresholds, stdDev) == per + grp;
    UnstableAfterOthers(per, grp);
  }

  lemma UnstableAfterOthers(per: seq<Anomaly>, grp: seq<Anomaly>)
    requires forall k :: 0 <= k < |per| ==> per[k].anomalyType != UnstableResults
    requires forall k :: 0 <= k < |grp| ==> grp[k].anomalyType == UnstableResults
    ensures var r := per + grp;
            forall i, j :: 0 <= i < j < |r| && r[i].anomalyType == UnstableResults
                           ==> r[j].anomalyType == UnstableResults
  {
    var r := per + grp;
    forall i, j | 0 <= i < j < |r| && r[i].anomalyType == UnstableResults
      ensures r[j].anomalyType == UnstableResults
    {
      assert r[j] == grp[j - |per|];
    }
  }

  /**
   * Group anomalies: each is UNSTABLE_RESULTS with id GROUP-<electrolyte>-<mode> for a group
   * whose deviation reaches the limit, every such group is reported, and no group twice.
   */
  lemma GroupAnomalyShape(exps: seq<Experiment>, thresholds: Option<map<string, real>>,
                          stdDev: seq<real> -> real)
    ensures var limits := EffectiveLimits(thresholds);
            var keys := UnstableKeys(GroupKeys(exps), exps, limits.instabilityStd, stdDev);
            && Anomalies(exps, thresholds, stdDev)
               == PerExperimentAnomalies(exps, limits) + GroupAnomalies(keys)
            && (forall i :: 0 <= i < |keys| ==>
                  GroupAnomalies(keys)[i]
                  == Anomaly("GROUP-" + keys[i].0 + "-" + keys[i].1, UnstableResults))
            && (forall i, j :: 0 <= i < |keys| && 0 <= j < |keys| && i != j ==> keys[i] != keys[j])
            && (forall k :: k in keys <==>
                  (exists n :: 0 <= n < |exps| && KeyOf(exps[n]) == k)
                  && stdDev(GroupDeltas(exps, k)) >= limits.instabilityStd)
  {
    var limits := EffectiveLimits(thresholds);
    var keys := UnstableKeys(GroupKeys(exps), exps, limits.instabilityStd, stdDev);
    GroupKeysComplete(exps);
    UnstableKeysFilter(GroupKeys(exps), exps, limits.instabilityStd, stdDev);
    StrictlySortedDistinct(keys);
  }
}
