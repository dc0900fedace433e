/**
 * The generated validators of the v2alpha clusters tree. One body serves Validate, which returns
 * the first error, and ValidateAll, which collects them all.
 */
module Validate {
  import opened GoTypes
  import opened Messages
  import opened Clusters
  import opened EnvoyType

  /** A `field` string: a name, or a name with the index of the element. */
  datatype Field = Named(name: string) | Indexed(name: string, index: nat)

  datatype Error =
    | ValidationError(message: string, field: Field, reason: string, cause: Option<Error>)
    | MultiError(message: string, errors: seq<Error>)

  const EMBEDDED: string := "embedded message failed validation"
  const OUT_OF_RANGE: string := "value must be inside range [0, 100]"

  /** A child of another package: the interfaces its type has, and what its two methods return. */
  datatype Checked = Checked(
    hasValidateAll: bool, hasValidate: bool, validateAll: Option<Error>, validate: Option<Error>)

  type Host = HostStatus<Percent, Checked>
  type Cluster = ClusterStatus<Percent, Checked>
  type ClustersValue = ClustersMsg<Percent, Checked>

  /* ----- what validate(all) returns ----- */

  /** `val < 0` on the bits of a double: the sign bit is set, and it is neither -0 nor NaN. */
  predicate BelowZero(bits: uint64) {
    TWO_TO_THE_63 < bits <= TWO_TO_THE_63 + 0x7FF0_0000_0000_0000
  }

  /** `val > 100` on the bits of a double: 100.0 is 0x4059000000000000; NaN is not above it. */
  predicate Above100(bits: uint64) {
    0x4059_0000_0000_0000 < bits <= 0x7FF0_0000_0000_0000
  }

  function Multi(message: string, errors: seq<Error>): Option<Error> {
    if |errors| > 0 then Some(MultiError(message, errors)) else None
  }

  function FirstOf(errors: seq<Error>): Option<Error> {
    if |errors| > 0 then Some(errors[0]) else None
  }

  /** All errors wrapped together, or the first one alone. */
  function Returned(message: string, errors: seq<Error>, all: bool): Option<Error> {
    if all then Multi(message, errors) else FirstOf(errors)
  }

  function Embedded(message: string, field: Field, cause: Option<Error>): seq<Error> {
    if cause.None? then [] else [ValidationError(message, field, EMBEDDED, cause)]
  }

  function PercentErrors(k: PercentFields): seq<Error> {
    if BelowZero(k.value) || Above100(k.value) then
      [ValidationError("Percent", Named("Value"), OUT_OF_RANGE, None)]
    else []
  }

  function PercentResult(m: Option<Percent>, all: bool): Option<Error> {
    if m.None? then None else Returned("Percent", PercentErrors(m.value.fields), all)
  }

  /** HostHealthStatus has no rules, so its list of errors stays empty. */
  function HealthResult(m: Option<HostHealthStatus>, all: bool): Option<Error> {
    if m.None? then None else Returned("HostHealthStatus", [], all)
  }

  /** The type switch on an opaque child. A nil child validates. */
  function CheckedResult(c: Option<Checked>, all: bool): Option<Error> {
    if c.None? then None
    else if all && c.value.hasValidateAll then c.value.validateAll
    else if c.value.hasValidate then c.value.validate
    else None
  }

  function StatsErrors(xs: seq<Option<Checked>>, i: nat, all: bool): seq<Error>
    decreases |xs| - i
  {
    if i >= |xs| then []
    else Embedded("HostStatus", Indexed("Stats", i), CheckedResult(xs[i], all)) + StatsErrors(xs, i + 1, all)
  }

  function HostErrors(k: HostFields<Percent, Checked>, all: bool): seq<Error> {
    Embedded("HostStatus", Named("Address"), CheckedResult(k.address, all)) +
    (StatsErrors(k.stats, 0, all) +
    (Embedded("HostStatus", Named("HealthStatus"), HealthResult(k.healthStatus, all)) +
    (Embedded("HostStatus", Named("SuccessRate"), PercentResult(k.successRate, all)) +
    (Embedded("HostStatus", Named("LocalOriginSuccessRate"), PercentResult(k.localOriginSuccessRate, all)) +
     Embedded("HostStatus", Named("Locality"), CheckedResult(k.locality, all))))))
  }

  function HostResult(m: Option<Host>, all: bool): Option<Error> {
    if m.None? then None else Returned("HostStatus", HostErrors(m.value.fields, all), all)
  }

  function HostsErrors(xs: seq<Option<Host>>, i: nat, all: bool): seq<Error>
    decreases |xs| - i
  {
    if i >= |xs| then []
    else Embedded("ClusterStatus", Indexed("HostStatuses", i), HostResult(xs[i], all)) + HostsErrors(xs, i + 1, all)
  }

  function ClusterErrors(k: ClusterFields<Percent, Checked>, all: bool): seq<Error> {
    Embedded("ClusterStatus", Named("SuccessRateEjectionThreshold"),
             PercentResult(k.successRateEjectionThreshold, all)) +
    (HostsErrors(k.hostStatuses, 0, all) +
     Embedded("ClusterStatus", Named("LocalOriginSuccessRateEjectionThreshold"),
              PercentResult(k.localOriginSuccessRateEjectionThreshold, all)))
  }

  function ClusterResult(m: Option<Cluster>, all: bool): Option<Error> {
    if m.None? then None else Returned("ClusterStatus", ClusterErrors(m.value.fields, all), all)
  }

  function ClusterListErrors(xs: seq<Option<Cluster>>, i: nat, all: bool): seq<Error>
    decreases |xs| - i
  {
    if i >= |xs| then []
    else
      Embedded("Clusters", Indexed("ClusterStatuses", i), ClusterResult(xs[i], all)) + ClusterListErrors(xs, i + 1, all)
  }

  function ClustersResult(m: Option<ClustersValue>, all: bool): Option<Error> {
    if m.None? then None
    else Returned("Clusters", ClusterListErrors(m.value.fields.clusterStatuses, 0, all), all)
  }

  /* ----- the validators ----- */

  method ValidatePercent(m: Option<Percent>, all: bool) returns (err: Option<Error>)
    ensures err == PercentResult(m, all)
  {
    if m.None? {
      return None;
    }
    var errors: seq<Error> := [];
    ghost var total := PercentErrors(m.value.fields);
    var val := m.value.fields.value;
    if BelowZero(val) || Above100(val) {
      var e := ValidationError("Percent", Named("Value"), OUT_OF_RANGE, None);
      if !all {
        return Some(e);
      }
      errors := errors + [e];
    }
    Finished("Percent", total, errors, all);
    return Multi("Percent", errors);
  }

  /** There is nothing to violate, so neither mode ever reports. */
  method ValidateHealth(m: Option<HostHealthStatus>, all: bool) returns (err: Option<Error>)
    ensures err.None?
  {
    if m.None? {
      return None;
    }
    return Multi("HostHealthStatus", []);
  }

  method ValidateChecked(c: Option<Checked>, all: bool) returns (err: Option<Error>)
    ensures err == CheckedResult(c, all)
  {
    if c.None? {
      return None;
    }
    if all {
      if c.value.hasValidateAll {
        return c.value.validateAll;
      } else if c.value.hasValidate {
        return c.value.validate;
      }
    } else if c.value.hasValidate {
      return c.value.validate;
    }
    return None;
  }

  /** Where a run stands: `errors` found so far, `rest` still to come; failing fast, none was found yet. */
  ghost predicate Progress(total: seq<Error>, errors: seq<Error>, rest: seq<Error>, all: bool) {
    total == errors + rest && (!all ==> errors == [])
  }

  lemma Finished(message: string, total: seq<Error>, errors: seq<Error>, all: bool)
    requires Progress(total, errors, [], all)
    ensures Multi(message, errors) == Returned(message, total, all)
  {
    assert errors + [] == errors;
  }

  /** One embedded message: its error is collected, or ends the run. */
  method Collect(errors: seq<Error>, message: string, field: Field, cause: Option<Error>, all: bool,
                 ghost total: seq<Error>, ghost rest: seq<Error>)
    returns (errors': seq<Error>, stop: bool)
    requires Progress(total, errors, Embedded(message, field, cause) + rest, all)
    ensures !stop ==> Progress(total, errors', rest, all)
    ensures stop ==> !all && |errors'| == 1 && FirstOf(total) == Some(errors'[0])
  {
    errors', stop := errors, false;
    if cause.Some? {
      errors' := errors + [ValidationError(message, field, EMBEDDED, cause)];
      stop := !all;
    }
  }

  method CollectStats(errors: seq<Error>, xs: seq<Option<Checked>>, all: bool, ghost total: seq<Error>,
      ghost rest: seq<Error>)
    returns (errors': seq<Error>, stop: bool)
    requires Progress(total, errors, StatsErrors(xs, 0, all) + rest, all)
    ensures !stop ==> Progress(total, errors', rest, all)
    ensures stop ==> !all && |errors'| == 1 && FirstOf(total) == Some(errors'[0])
  {
    hide Embedded, CheckedResult;
    errors', stop := errors, false;
    for idx := 0 to |xs|
      invariant Progress(total, errors', StatsErrors(xs, idx, all) + rest, all)
    {
      var cause := ValidateChecked(xs[idx], all);
      ghost var one := Embedded("HostStatus", Indexed("Stats", idx), cause);
      assert StatsErrors(xs, idx, all) + rest == one + (StatsErrors(xs, idx + 1, all) + rest);
      errors', stop := Collect(errors', "HostStatus", Indexed("Stats", idx), cause, all, total,
                               StatsErrors(xs, idx + 1, all) + rest);
      if stop {
        return;
      }
    }
    assert [] + rest == rest;
  }

  method ValidateHost(m: Option<Host>, all: bool) returns (err: Option<Error>)
    ensures err == HostResult(m, all)
  {
    if m.None? {
      return None;
    }
    var k := m.value.fields;
    var message := "HostStatus";
    ghost var total := HostErrors(k, all);
    ghost var r5 := Embedded(message, Named("Locality"), CheckedResult(k.locality, all));
    ghost var r4 := Embedded(message, Named("LocalOriginSuccessRate"),
      PercentResult(k.localOriginSuccessRate, all)) + r5;
    ghost var r3 := Embedded(message, Named("SuccessRate"), PercentResult(k.successRate, all)) + r4;
    ghost var r2 := Embedded(message, Named("HealthStatus"), HealthResult(k.healthStatus, all)) + r3;
    ghost var r1 := StatsErrors(k.stats, 0, all) + r2;
    assert HealthResult(k.healthStatus, all).None?;
    hide Embedded, CheckedResult, PercentResult, HealthResult, StatsErrors, HostErrors;
    assert Progress(total, [], Embedded(message, Named("Address"), CheckedResult(k.address, all)) + r1, all) by {
      HostStart(k, all);
    }
    assert r5 + [] == r5;
    hide Progress, FirstOf, Multi;
    var errors, stop, cause := [], false, None;
    cause := ValidateChecked(k.address, all);
    errors, stop := Collect(errors, message, Named("Address"), cause, all, total, r1);
    if stop {
      return Some(errors[0]);
    }
    errors, stop := CollectStats(errors, k.stats, all, total, r2);
    if stop {
      return Some(errors[0]);
    }
    cause := ValidateHealth(k.healthStatus, all);
    errors, stop := Collect(errors, message, Named("HealthStatus"), cause, all, total, r3);
    if stop {
      return Some(errors[0]);
    }
    cause := ValidatePercent(k.successRate, all);
    errors, stop := Collect(errors, message, Named("SuccessRate"), cause, all, total, r4);
    if stop {
      return Some(errors[0]);
    }
    cause := ValidatePercent(k.localOriginSuccessRate, all);
    errors, stop := Collect(errors, message, Named("LocalOriginSuccessRate"), cause, all, total, r5);
    if stop {
      return Some(errors[0]);
    }
    cause := ValidateChecked(k.locality, all);
    errors, stop := Collect(errors, message, Named("Locality"), cause, all, total, []);
    if stop {
      return Some(errors[0]);
    }
    Finished(message, total, errors, all);
    return Multi(message, errors);
  }

  lemma HostStart(k: HostFields<Percent, Checked>, all: bool)
    ensures Progress(HostErrors(k, all), [],
      Embedded("HostStatus", Named("Address"), CheckedResult(k.address, all)) +
      (StatsErrors(k.stats, 0, all) +
      (Embedded("HostStatus", Named("HealthStatus"), HealthResult(k.healthStatus, all)) +
      (Embedded("HostStatus", Named("SuccessRate"), PercentResult(k.successRate, all)) +
      (Embedded("HostStatus", Named("LocalOriginSuccessRate"), PercentResult(k.localOriginSuccessRate, all)) +
       Embedded("HostStatus", Named("Locality"), CheckedResult(k.locality, all)))))), all)
  {
    hide Embedded, CheckedResult, PercentResult, HealthResult, StatsErrors;
    assert [] + HostErrors(k, all) == HostErrors(k, all);
  }

  method CollectHosts(errors: seq<Error>, xs: seq<Option<Host>>, all: bool, ghost total: seq<Error>,
      ghost rest: seq<Error>)
    returns (errors': seq<Error>, stop: bool)
    requires Progress(total, errors, HostsErrors(xs, 0, all) + rest, all)
    ensures !stop ==> Progress(total, errors', rest, all)
    ensures stop ==> !all && |errors'| == 1 && FirstOf(total) == Some(errors'[0])
  {
    hide Embedded, HostResult;
    errors', stop := errors, false;
    for idx := 0 to |xs|
      invariant Progress(total, errors', HostsErrors(xs, idx, all) + rest, all)
    {
      var cause := ValidateHost(xs[idx], all);
      ghost var one := Embedded("ClusterStatus", Indexed("HostStatuses", idx), cause);
      assert HostsErrors(xs, idx, all) + rest == one + (HostsErrors(xs, idx + 1, all) + rest);
      errors', stop := Collect(errors', "ClusterStatus", Indexed("HostStatuses", idx), cause, all, total,
                               HostsErrors(xs, idx + 1, all) + rest);
      if stop {
        return;
      }
    }
    assert [] + rest == rest;
  }

  method ValidateCluster(m: Option<Cluster>, all: bool) returns (err: Option<Error>)
    ensures err == ClusterResult(m, all)
  {
    if m.None? {
      return None;
    }
    var k := m.value.fields;
    var message := "ClusterStatus";
    ghost var total := ClusterErrors(k, all);
    ghost var r2 := Embedded(message, Named("LocalOriginSuccessRateEjectionThreshold"),
                             PercentResult(k.localOriginSuccessRateEjectionThreshold, all));
    ghost var r1 := HostsErrors(k.hostStatuses, 0, all) + r2;
    assert total == Embedded(message, Named("SuccessRateEjectionThreshold"),
                             PercentResult(k.successRateEjectionThreshold, all)) + r1;
    assert [] + total == total && r2 + [] == r2;
    hide Embedded, PercentResult, HostsErrors, ClusterErrors;
    var errors, stop, cause := [], false, None;
    assert Progress(total, errors, total, all);
    hide Progress, FirstOf, Multi;
    cause := ValidatePercent(k.successRateEjectionThreshold, all);
    errors, stop := Collect(errors, message, Named("SuccessRateEjectionThreshold"), cause, all, total, r1);
    if stop {
      return Some(errors[0]);
    }
    errors, stop := CollectHosts(errors, k.hostStatuses, all, total, r2);
    if stop {
      return Some(errors[0]);
    }
    cause := ValidatePercent(k.localOriginSuccessRateEjectionThreshold, all);
    errors, stop := Collect(errors, message, Named("LocalOriginSuccessRateEjectionThreshold"), cause, all, total, []);
    if stop {
      return Some(errors[0]);
    }
    Finished(message, total, errors, all);
    return Multi(message, errors);
  }

  method CollectClusters(errors: seq<Error>, xs: seq<Option<Cluster>>, all: bool, ghost total: seq<Error>,
      ghost rest: seq<Error>)
    returns (errors': seq<Error>, stop: bool)
    requires Progress(total, errors, ClusterListErrors(xs, 0, all) + rest, all)
    ensures !stop ==> Progress(total, errors', rest, all)
    ensures stop ==> !all && |errors'| == 1 && FirstOf(total) == Some(errors'[0])
  {
    hide Embedded, ClusterResult;
    errors', stop := errors, false;
    for idx := 0 to |xs|
      invariant Progress(total, errors', ClusterListErrors(xs, idx, all) + rest, all)
    {
      var cause := ValidateCluster(xs[idx], all);
      ghost var one := Embedded("Clusters", Indexed("ClusterStatuses", idx), cause);
      assert ClusterListErrors(xs, idx, all) + rest == one + (ClusterListErrors(xs, idx + 1, all) + rest);
      errors', stop := Collect(errors', "Clusters", Indexed("ClusterStatuses", idx), cause, all, total,
                               ClusterListErrors(xs, idx + 1, all) + rest);
      if stop {
        return;
      }
    }
    assert [] + rest == rest;
  }

  method ValidateClusters(m: Option<ClustersValue>, all: bool) returns (err: Option<Error>)
    ensures err == ClustersResult(m, all)
  {
    if m.None? {
      return None;
    }
    var xs := m.value.fields.clusterStatuses;
    ghost var total := ClusterListErrors(xs, 0, all);
    assert [] + (total + []) == total;
    var errors, stop := CollectClusters([], xs, all, total, []);
    if stop {
      return Some(errors[0]);
    }
    Finished("Clusters", total, errors, all);
    return Multi("Clusters", errors);
  }
}
