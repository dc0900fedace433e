/**
 * The v2alpha marshallers of the clusters tree: those of v3 without the blocks of the fields that
 * v3 added to ClusterStatus and to HostHealthStatus. A v2alpha message is one in which those
 * fields have their zero values, at every level.
 */
module ClustersMarshalV2alpha {
  import opened GoTypes
  import opened Varint
  import opened Wire
  import opened Messages
  import opened Buffer
  import opened Clusters
  import opened ClustersMarshal

  ghost predicate OlderHealth(m: Option<HostHealthStatus>) {
    m.Some? ==> !m.value.fields.excludedViaImmediateHcFail && !m.value.fields.activeHcTimeout
  }

  ghost predicate OlderHost<P, O>(m: Option<HostStatus<P, O>>) {
    m.Some? ==> OlderHealth(m.value.fields.healthStatus)
  }

  ghost predicate OlderCluster<P, O>(m: Option<ClusterStatus<P, O>>) {
    m.Some? ==>
      && m.value.fields.circuitBreakers.None?
      && m.value.fields.observabilityName == [] && m.value.fields.edsServiceName == []
      && (forall x <- m.value.fields.hostStatuses :: OlderHost(x))
  }

  ghost predicate OlderClusters<P, O>(m: Option<ClustersMsg<P, O>>) {
    m.Some? ==> forall x <- m.value.fields.clusterStatuses :: OlderCluster(x)
  }

  lemma NewHealthFieldsAbsent(k: HealthFields, job: Job)
    requires !k.excludedViaImmediateHcFail && !k.activeHcTimeout && job.fields == HealthLayout(k)
    ensures |job.fields| == 8 && job.From(6) == job.From(8)
  {
    hide EncodeFields;
    HealthLayoutAt(k);
    AbsentField(job, 6);
    AbsentField(job, 7);
  }

  method MarshalHealth(m: Option<HostHealthStatus>, dAtA: array<byte>, end: nat) returns (n: nat)
    requires OlderHealth(m)
    requires |EncodeHealthOrNil(m)| <= end <= dAtA.Length <= MAX_INT
    modifies dAtA
    ensures n == |EncodeHealthOrNil(m)|
    ensures dAtA[..] == Splice(old(dAtA[..]), end, EncodeHealthOrNil(m))
  {
    hide EncodeRecord, EncodeRecords, EncodeFields, Splice, Job.From, Job.Valid, Job.Holds, HealthLayout,
      BoolField, VarintField, Uint64Of, Inserted;
    if m.None? {
      SpliceNothing(dAtA[..], end);
      return 0;
    }
    var k := m.value.fields;
    HealthLayoutAt(k);
    ghost var job := Job(dAtA[..], end, HealthLayout(k), m.value.unknownFields);
    JobFits(job);
    var i := PutUnknown(dAtA, end, m.value.unknownFields, job);
    NewHealthFieldsAbsent(k, job);
    i := PutBool(dAtA, i, [0x30], k.pendingActiveHc, 6, 5, job);
    i := PutBool(dAtA, i, [0x28], k.pendingDynamicRemoval, 5, 4, job);
    i := PutBool(dAtA, i, [0x20], k.failedActiveDegradedCheck, 4, 3, job);
    i := PutVarint(dAtA, i, [0x18], Uint64Of(k.edsHealthStatus), 3, 2, job);
    i := PutBool(dAtA, i, [0x10], k.failedOutlierCheck, 2, 1, job);
    i := PutBool(dAtA, i, [0x8], k.failedActiveHealthCheck, 1, 0, job);
    Finish(job, dAtA[..], i);
    n := end - i;
  }

  method SizeHealth(m: Option<HostHealthStatus>) returns (n: int)
    requires OlderHealth(m)
    requires |EncodeHealthOrNil(m)| <= MAX_INT
    ensures n == |EncodeHealthOrNil(m)|
  {
    hide EncodeRecord, EncodeRecords, EncodeFields, HealthLayout, BoolField, VarintField, Uint64Of;
    n := 0;
    if m.None? {
      return;
    }
    var k := m.value.fields;
    HealthLayoutAt(k);
    ghost var job := Job([], 0, HealthLayout(k), m.value.unknownFields);
    SizedStart(job);
    n := AddBool(n, 2, k.failedActiveHealthCheck, 1, 0, job);
    n := AddBool(n, 2, k.failedOutlierCheck, 2, 1, job);
    n := AddVarint(n, 1, Uint64Of(k.edsHealthStatus), 3, 2, job);
    n := AddBool(n, 2, k.failedActiveDegradedCheck, 4, 3, job);
    n := AddBool(n, 2, k.pendingDynamicRemoval, 5, 4, job);
    n := AddBool(n, 2, k.pendingActiveHc, 6, 5, job);
    NewHealthFieldsAbsent(k, job);
    SizedEnd(job, n);
    n := n + |m.value.unknownFields|;
  }

  /* ----- HostStatus ----- */

  method MarshalHost(m: Option<Host>, dAtA: array<byte>, end: nat) returns (r: Result<nat, string>)
    requires OlderHost(m)
    requires |EncodeHost(ShapeHost(Written, m))| <= end <= dAtA.Length <= MAX_INT
    modifies dAtA
    ensures HostError(m).None? ==>
      && r == Success(|EncodeHost(ShapeHost(Written, m))|)
      && dAtA[..] == Splice(old(dAtA[..]), end, EncodeHost(ShapeHost(Written, m)))
    ensures HostError(m).Some? ==>
      && r == Failure(HostError(m).value) && |HostPlaced(m)| <= end
      && dAtA[end - |HostPlaced(m)|..end] == HostPlaced(m) && dAtA[end..] == old(dAtA[end..])
  {
    hide EncodeRecord, EncodeRecords, EncodeFields, Elements, RepeatedField, Splice, Job.From, Job.Valid, HostLayout,
      StringField, VarintField, Key, ShapeChild, ChildError, StatsError, EncodeHealth, OptionalField, StatBytes,
      ShapeStat, MapOption, Job.Holds, Job.Done, HostPlaced, StatsPlaced, Dispatched, Inserted;
    if m.None? {
      SpliceNothing(dAtA[..], end);
      return Success(0);
    }
    var k := m.value.fields;
    ghost var w := ShapeHost(Written, m).value.fields;
    HostLayoutAt(w);
    ClusterKeys();
    ghost var job := Job(dAtA[..], end, HostLayout(w), m.value.unknownFields);
    JobFits(job);
    HostPlacedAt(m.value, job);
    var i := PutUnknown(dAtA, end, m.value.unknownFields, job);
    i :- PutChild(dAtA, i, [0x4a], k.locality, 9, 8, job);
    i :- PutChild(dAtA, i, [0x42], k.localOriginSuccessRate, 8, 7, job);
    i := PutVarint(dAtA, i, [0x38], k.priority, 7, 6, job);
    i := PutString(dAtA, i, [0x32], k.hostname, 6, 5, job);
    i := PutVarint(dAtA, i, [0x28], k.weight, 5, 4, job);
    i :- PutChild(dAtA, i, [0x22], k.successRate, 4, 3, job);
    i := PutHealth(dAtA, i, k.healthStatus, job);
    i :- PutStats(dAtA, i, k.stats, job);
    i :- PutChild(dAtA, i, [0xa], k.address, 1, 0, job);
    Finish(job, dAtA[..], i);
    return Success(end - i);
  }

  method PutHealth(dAtA: array<byte>, end: nat, health: Option<HostHealthStatus>, ghost job: Job) returns (i: nat)
    requires OlderHealth(health)
    requires job.Valid() && job.Done(dAtA[..], end, 3) && |job.fields| > 2
    requires job.fields[2] == OptionalField(3, MapOption(EncodeHealth, health))
    modifies dAtA
    ensures job.Done(dAtA[..], i, 2)
  {
    hide EncodeRecord, Splice, EncodeHealth;
    i := end;
    if health.Some? {
      ghost var healthBytes := EncodeHealth(health.value);
      RoomForMessage(job, 2, 3, healthBytes, dAtA[..], i);
      var size := MarshalHealth(health, dAtA, i);
      i := PutPrefix(dAtA, i - size, size, [0x1a], 3, healthBytes, job.From(3), job);
    } else {
      AbsentField(job, 2);
    }
  }

  method SizeHost(m: Option<Host>) returns (n: int)
    requires OlderHost(m)
    requires |EncodeHost(ShapeHost(Declared, m))| <= MAX_INT
    ensures n == |EncodeHost(ShapeHost(Declared, m))|
  {
    hide EncodeRecord, EncodeRecords, EncodeFields, Elements, RepeatedField, SizeOfVarint, HostLayout, StringField,
      VarintField, Key, ShapeChild, ShapeStat, StatBytes, EncodeHealth, Sized;
    n := 0;
    if m.None? {
      return;
    }
    var k := m.value.fields;
    ghost var w := ShapeHost(Declared, m).value.fields;
    ghost var job := Job([], 0, HostLayout(w), m.value.unknownFields);
    SizedStart(job);
    HostLayoutAt(w);
    ClusterKeys();
    n := AddChild(n, 1, k.address, 1, 0, job);
    n := AddStats(n, k.stats, job);
    n := AddHealth(n, k.healthStatus, job);
    n := AddChild(n, 1, k.successRate, 4, 3, job);
    n := AddVarint(n, 1, k.weight, 5, 4, job);
    n := AddString(n, 1, k.hostname, 6, 5, job);
    n := AddVarint(n, 1, k.priority, 7, 6, job);
    n := AddChild(n, 1, k.localOriginSuccessRate, 8, 7, job);
    n := AddChild(n, 1, k.locality, 9, 8, job);
    SizedEnd(job, n);
    n := n + |m.value.unknownFields|;
  }

  method AddHealth(n: int, health: Option<HostHealthStatus>, ghost job: Job) returns (n': int)
    requires OlderHealth(health)
    requires |EncodeFields(job.fields, job.unknownFields)| <= MAX_INT && |job.fields| > 2
    requires job.fields[2] == OptionalField(3, MapOption(EncodeHealth, health))
    requires Sized(job, n, 2)
    ensures Sized(job, n', 3)
  {
    hide EncodeRecord, EncodeRecords, EncodeFields, EncodeHealth;
    n' := n;
    if health.Some? {
      ghost var healthBytes := EncodeHealth(health.value);
      FieldFits(job.fields, job.unknownFields, 2);
      OptionalPayloadFits(3, healthBytes);
      var l := SizeHealth(health);
      n' := AddMessage(n, 1, l, 3, healthBytes, 2, job);
    } else {
      AbsentField(job, 2);
    }
  }

  /* ----- ClusterStatus ----- */

  lemma NewClusterFieldsAbsent(k: WireClusterFields, job: Job)
    requires k.circuitBreakers.None? && k.observabilityName == [] && k.edsServiceName == []
    requires job.fields == ClusterLayout(k)
    ensures |job.fields| == 8 && job.From(5) == job.From(8)
  {
    hide EncodeFields;
    ClusterLayoutAt(k);
    AbsentField(job, 5);
    AbsentField(job, 6);
    AbsentField(job, 7);
  }

  lemma ShapeOfNone()
    ensures ShapeChild(Written, None) == None && ShapeChild(Declared, None) == None
  {
  }

  lemma NoChildError()
    ensures ChildError(None) == None
  {
  }

  method MarshalCluster(m: Option<Cluster>, dAtA: array<byte>, end: nat) returns (r: Result<nat, string>)
    requires OlderCluster(m)
    requires |EncodeCluster(ShapeCluster(Written, m))| <= end <= dAtA.Length <= MAX_INT
    modifies dAtA
    ensures ClusterError(m).None? ==>
      && r == Success(|EncodeCluster(ShapeCluster(Written, m))|)
      && dAtA[..] == Splice(old(dAtA[..]), end, EncodeCluster(ShapeCluster(Written, m)))
    ensures ClusterError(m).Some? ==>
      && r == Failure(ClusterError(m).value) && |ClusterPlaced(m)| <= end
      && dAtA[end - |ClusterPlaced(m)|..end] == ClusterPlaced(m) && dAtA[end..] == old(dAtA[end..])
  {
    hide EncodeRecord, EncodeRecords, EncodeFields, Elements, RepeatedField, Splice, Job.From, Job.Valid,
      ClusterLayout, StringField, BoolField, Key, ShapeChild, ChildError, HostsError, OptionalField, EncodeHost,
      ShapeHost, Job.Holds, ClusterPlaced, HostsPlaced, Inserted;
    if m.None? {
      SpliceNothing(dAtA[..], end);
      return Success(0);
    }
    var k := m.value.fields;
    ghost var w := ShapeCluster(Written, m).value.fields;
    ShapeOfNone();
    ClusterLayoutAt(w);
    ClusterKeys();
    ghost var job := Job(dAtA[..], end, ClusterLayout(w), m.value.unknownFields);
    JobFits(job);
    ClusterPlacedAt(m.value, job);
    var i := PutUnknown(dAtA, end, m.value.unknownFields, job);
    NewClusterFieldsAbsent(w, job);
    NoChildError();
    i :- PutChild(dAtA, i, [0x2a], k.localOriginSuccessRateEjectionThreshold, 5, 4, job);
    i :- PutHosts(dAtA, i, k.hostStatuses, job);
    i :- PutChild(dAtA, i, [0x1a], k.successRateEjectionThreshold, 3, 2, job);
    i := PutBool(dAtA, i, [0x10], k.addedViaApi, 2, 1, job);
    i := PutString(dAtA, i, [0xa], k.name, 1, 0, job);
    Finish(job, dAtA[..], i);
    return Success(end - i);
  }

  method SizeCluster(m: Option<Cluster>) returns (n: int)
    requires OlderCluster(m)
    requires |EncodeCluster(ShapeCluster(Declared, m))| <= MAX_INT
    ensures n == |EncodeCluster(ShapeCluster(Declared, m))|
  {
    hide EncodeRecord, EncodeRecords, EncodeFields, Elements, RepeatedField, SizeOfVarint, ClusterLayout,
      StringField, BoolField, Key, ShapeChild, EncodeHost, ShapeHost;
    n := 0;
    if m.None? {
      return;
    }
    var k := m.value.fields;
    ghost var w := ShapeCluster(Declared, m).value.fields;
    ShapeOfNone();
    ghost var job := Job([], 0, ClusterLayout(w), m.value.unknownFields);
    SizedStart(job);
    ClusterLayoutAt(w);
    ClusterKeys();
    ghost var hostStatusesBytes := Map(EncodeHost, w.hostStatuses);
    n := AddString(n, 1, k.name, 1, 0, job);
    n := AddBool(n, 2, k.addedViaApi, 2, 1, job);
    n := AddChild(n, 1, k.successRateEjectionThreshold, 3, 2, job);
    FieldFits(job.fields, job.unknownFields, 3);
    ElementsEnds(job, 3, 4, hostStatusesBytes);
    for j := 0 to |k.hostStatuses|
      invariant SizedElements(job, n, 3, 4, hostStatusesBytes, j)
    {
      SizedElement(job, n, 3, 4, hostStatusesBytes, j);
      RepeatedPayloadFits(4, hostStatusesBytes, j);
      var l := SizeHost(k.hostStatuses[j]);
      n := n + 1 + l + SizeOfVarint(l);
    }
    n := AddChild(n, 1, k.localOriginSuccessRateEjectionThreshold, 5, 4, job);
    NewClusterFieldsAbsent(w, job);
    SizedEnd(job, n);
    n := n + |m.value.unknownFields|;
  }

  method PutHosts(dAtA: array<byte>, end: nat, hosts: seq<Option<Host>>, ghost job: Job)
    returns (r: Result<nat, string>)
    requires forall x <- hosts :: OlderHost(x)
    requires job.Valid() && job.Done(dAtA[..], end, 4) && |job.fields| > 3
    requires job.fields[3] == RepeatedField(4, Map(EncodeHost, Map(HostShaper(Written), hosts)))
    modifies dAtA
    ensures HostsError(hosts).None? ==> r.Success? && job.Done(dAtA[..], r.value, 3)
    ensures HostsError(hosts).Some? ==>
      r == Failure(HostsError(hosts).value) && job.Kept(dAtA[..], HostsPlaced(hosts, job.From(4)))
  {
    hide EncodeRecord, Elements, Splice, RepeatedField, ShapeHost, HostError, EncodeHost, Map, Job.From, LastFailing,
      HostsPlaced, HostPlaced, Job.Kept;
    ghost var hostsBytes := Map(EncodeHost, Map(HostShaper(Written), hosts));
    var i := end;
    ElementsEnds(job, 3, 4, hostsBytes);
    assert hosts[..|hosts|] == hosts;
    var iNdEx := |hosts| - 1;
    while iNdEx >= 0
      invariant -1 <= iNdEx < |hosts|
      invariant HostsError(hosts) == HostsError(hosts[..iNdEx + 1])
      invariant HostsError(hosts).Some? ==> LastFailing(HostError, hosts) == LastFailing(HostError, hosts[..iNdEx + 1])
      invariant job.Holds(dAtA[..], i, Elements(job, 3, 4, hostsBytes, iNdEx + 1))
    {
      RoomForElement(job, 3, 4, hostsBytes, iNdEx, dAtA[..], i);
      ghost var before, out := dAtA[..], Elements(job, 3, 4, hostsBytes, iNdEx + 1);
      assert hosts[..iNdEx + 1][..iNdEx] == hosts[..iNdEx];
      LastFailingStep(HostError, hosts, iNdEx);
      var run := MarshalHost(hosts[iNdEx], dAtA, i);
      if run.Failure? {
        KeptBelow(job, before, i, out, dAtA[..], HostPlaced(hosts[iNdEx]));
        HostsPlacedAt(job, hosts, iNdEx);
        return run;
      }
      var size := run.value;
      i := PutPrefix(dAtA, i - size, size, [0x22], 4, hostsBytes[iNdEx],
                     Elements(job, 3, 4, hostsBytes, iNdEx + 1), job);
      iNdEx := iNdEx - 1;
    }
    assert hosts[..0] == [];
    return Success(i);
  }

  /* ----- Clusters ----- */

  method MarshalClusters(m: Option<ClustersValue>, dAtA: array<byte>, end: nat) returns (r: Result<nat, string>)
    requires OlderClusters(m)
    requires |EncodeClusters(ShapeClusters(Written, m))| <= end <= dAtA.Length <= MAX_INT
    modifies dAtA
    ensures ClustersError(m).None? ==>
      && r == Success(|EncodeClusters(ShapeClusters(Written, m))|)
      && dAtA[..] == Splice(old(dAtA[..]), end, EncodeClusters(ShapeClusters(Written, m)))
    ensures ClustersError(m).Some? ==>
      && r == Failure(ClustersError(m).value) && |ClustersPlaced(m)| <= end
      && dAtA[end - |ClustersPlaced(m)|..end] == ClustersPlaced(m) && dAtA[end..] == old(dAtA[end..])
  {
    hide EncodeRecord, EncodeRecords, EncodeFields, Elements, RepeatedField, Splice, Job.From, Job.Valid,
      ShapeCluster, EncodeCluster, ClusterListPlaced;
    if m.None? {
      SpliceNothing(dAtA[..], end);
      return Success(0);
    }
    var k := m.value.fields;
    ghost var w := ShapeClusters(Written, m).value.fields;
    ghost var job := Job(dAtA[..], end, ClustersLayout(w), m.value.unknownFields);
    JobFits(job);
    UnknownOnly(job);
    var i := PutUnknown(dAtA, end, m.value.unknownFields, job);
    i :- PutClusters(dAtA, i, k.clusterStatuses, job);
    Finish(job, dAtA[..], i);
    return Success(end - i);
  }

  method PutClusters(dAtA: array<byte>, end: nat, clusters: seq<Option<Cluster>>, ghost job: Job)
    returns (r: Result<nat, string>)
    requires forall x <- clusters :: OlderCluster(x)
    requires job.Valid() && job.Done(dAtA[..], end, 1) && |job.fields| > 0
    requires job.fields[0] == RepeatedField(1, Map(EncodeCluster, Map(ClusterShaper(Written), clusters)))
    modifies dAtA
    ensures ClusterListError(clusters).None? ==> r.Success? && job.Done(dAtA[..], r.value, 0)
    ensures ClusterListError(clusters).Some? ==>
      r == Failure(ClusterListError(clusters).value) && job.Kept(dAtA[..], ClusterListPlaced(clusters, job.From(1)))
  {
    hide EncodeRecord, Elements, Splice, RepeatedField, ShapeCluster, ClusterError, EncodeCluster, Map, Job.From,
      LastFailing, ClusterListPlaced, ClusterPlaced, Job.Kept;
    ghost var clustersBytes := Map(EncodeCluster, Map(ClusterShaper(Written), clusters));
    var i := end;
    ElementsEnds(job, 0, 1, clustersBytes);
    assert clusters[..|clusters|] == clusters;
    var iNdEx := |clusters| - 1;
    while iNdEx >= 0
      invariant -1 <= iNdEx < |clusters|
      invariant ClusterListError(clusters) == ClusterListError(clusters[..iNdEx + 1])
      invariant ClusterListError(clusters).Some? ==>
        LastFailing(ClusterError, clusters) == LastFailing(ClusterError, clusters[..iNdEx + 1])
      invariant job.Holds(dAtA[..], i, Elements(job, 0, 1, clustersBytes, iNdEx + 1))
    {
      RoomForElement(job, 0, 1, clustersBytes, iNdEx, dAtA[..], i);
      ghost var before, out := dAtA[..], Elements(job, 0, 1, clustersBytes, iNdEx + 1);
      assert clusters[..iNdEx + 1][..iNdEx] == clusters[..iNdEx];
      LastFailingStep(ClusterError, clusters, iNdEx);
      var run := MarshalCluster(clusters[iNdEx], dAtA, i);
      if run.Failure? {
        KeptBelow(job, before, i, out, dAtA[..], ClusterPlaced(clusters[iNdEx]));
        ClusterListPlacedAt(job, clusters, iNdEx);
        return run;
      }
      var size := run.value;
      i := PutPrefix(dAtA, i - size, size, [0xa], 1, clustersBytes[iNdEx],
                     Elements(job, 0, 1, clustersBytes, iNdEx + 1), job);
      iNdEx := iNdEx - 1;
    }
    assert clusters[..0] == [];
    return Success(i);
  }

  method SizeClusters(m: Option<ClustersValue>) returns (n: int)
    requires OlderClusters(m)
    requires |EncodeClusters(ShapeClusters(Declared, m))| <= MAX_INT
    ensures n == |EncodeClusters(ShapeClusters(Declared, m))|
  {
    hide EncodeRecord, EncodeRecords, EncodeFields, Elements, RepeatedField, SizeOfVarint, ShapeCluster, EncodeCluster;
    n := 0;
    if m.None? {
      return;
    }
    var k := m.value.fields;
    ghost var w := ShapeClusters(Declared, m).value.fields;
    ghost var job := Job([], 0, ClustersLayout(w), m.value.unknownFields);
    SizedStart(job);
    ghost var clusterStatusesBytes := Map(EncodeCluster, w.clusterStatuses);
    FieldFits(job.fields, job.unknownFields, 0);
    ElementsEnds(job, 0, 1, clusterStatusesBytes);
    for j := 0 to |k.clusterStatuses|
      invariant SizedElements(job, n, 0, 1, clusterStatusesBytes, j)
    {
      SizedElement(job, n, 0, 1, clusterStatusesBytes, j);
      RepeatedPayloadFits(1, clusterStatusesBytes, j);
      var l := SizeCluster(k.clusterStatuses[j]);
      n := n + 1 + l + SizeOfVarint(l);
    }
    SizedEnd(job, n);
    n := n + |m.value.unknownFields|;
  }

  /* ----- MarshalVTStrict ----- */

  /** As in v3, with the buffer extended below where SizeVT declared too little. */
  method MarshalVTStrict(m: Option<ClustersValue>) returns (r: Ending)
    requires OlderClusters(m)
    requires |WrittenBytes(m)| <= MAX_INT && DeclaredSize(m) <= MAX_INT
    ensures r == StrictEnding(m)
  {
    hide EncodeClusters, ShapeClusters, OlderClusters, ClustersPlaced, ClustersError, Splice;
    if m.None? {
      NilClusters();
      EndsWithPrefix(m, []);
      return Returned([]);
    }
    var size := SizeClusters(m);
    var pad := if size < |WrittenBytes(m)| then |WrittenBytes(m)| - size else 0;
    var dAtA := new byte[pad + size](_ => 0);
    assert dAtA[..] == Zeros(pad + size);
    var run := MarshalClusters(m, dAtA, pad + size);
    var n := if run.Failure? then |ClustersPlaced(m)| else run.value;
    if n > size {
      return Panicked;
    }
    if run.Failure? {
      return Failed(run.error);
    }
    EndsWithPrefix(m, dAtA[..]);
    return Returned(dAtA[pad..pad + n]);
  }
}
