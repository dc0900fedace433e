/** Round trip and concatenation laws of the clusters tree. */
module ClustersLaws {
  import opened GoTypes
  import opened Wire
  import opened Messages
  import opened Clusters

  /** a after the first i fields of b have been merged into it. */
  function HealthState(a: HealthFields, b: HealthFields, i: nat): HealthFields {
    var c := MergeHealth(a, b);
    HealthFields(
      if i > 0 then c.failedActiveHealthCheck else a.failedActiveHealthCheck,
      if i > 1 then c.failedOutlierCheck else a.failedOutlierCheck,
      if i > 2 then c.edsHealthStatus else a.edsHealthStatus,
      if i > 3 then c.failedActiveDegradedCheck else a.failedActiveDegradedCheck,
      if i > 4 then c.pendingDynamicRemoval else a.pendingDynamicRemoval,
      if i > 5 then c.pendingActiveHc else a.pendingActiveHc,
      if i > 6 then c.excludedViaImmediateHcFail else a.excludedViaImmediateHcFail,
      if i > 7 then c.activeHcTimeout else a.activeHcTimeout)
  }

  lemma HealthFields1(s: Schema, a: HealthFields, m: HostHealthStatus)
    requires HealthOk(s, Some(m))
    ensures Advances(HealthDecoder(s), HealthState(a, m.fields, 0), HealthLayout(m.fields)[0],
      HealthState(a, m.fields, 1))
    ensures Advances(HealthDecoder(s), HealthState(a, m.fields, 1), HealthLayout(m.fields)[1],
      HealthState(a, m.fields, 2))
  {
    hide EncodeRecord, UnknownTo, Absorb, Int32Of, Uint64Of;
  }

  lemma HealthFields3(s: Schema, a: HealthFields, m: HostHealthStatus)
    requires HealthOk(s, Some(m))
    ensures Advances(HealthDecoder(s), HealthState(a, m.fields, 2), HealthLayout(m.fields)[2],
      HealthState(a, m.fields, 3))
  {
    hide EncodeRecord, UnknownTo, Absorb, Int32Of, Uint64Of, BoolField;
    Int32Survives(m.fields.edsHealthStatus);
  }

  lemma HealthFields4(s: Schema, a: HealthFields, m: HostHealthStatus)
    requires HealthOk(s, Some(m))
    ensures Advances(HealthDecoder(s), HealthState(a, m.fields, 3), HealthLayout(m.fields)[3],
      HealthState(a, m.fields, 4))
    ensures Advances(HealthDecoder(s), HealthState(a, m.fields, 4), HealthLayout(m.fields)[4],
      HealthState(a, m.fields, 5))
  {
    hide EncodeRecord, UnknownTo, Absorb, Int32Of, Uint64Of;
  }

  lemma HealthFields6(s: Schema, a: HealthFields, m: HostHealthStatus)
    requires HealthOk(s, Some(m))
    ensures Advances(HealthDecoder(s), HealthState(a, m.fields, 5), HealthLayout(m.fields)[5],
      HealthState(a, m.fields, 6))
    ensures Advances(HealthDecoder(s), HealthState(a, m.fields, 6), HealthLayout(m.fields)[6],
      HealthState(a, m.fields, 7))
    ensures Advances(HealthDecoder(s), HealthState(a, m.fields, 7), HealthLayout(m.fields)[7],
      HealthState(a, m.fields, 8))
  {
    hide EncodeRecord, UnknownTo, Absorb, Int32Of, Uint64Of;
  }

  lemma HealthAbsorbs(s: Schema, a: HealthFields, m: HostHealthStatus)
    requires HealthOk(s, Some(m))
    ensures Absorb(HealthDecoder(s), a, Flatten(HealthLayout(m.fields))) == Some(MergeHealth(a, m.fields))
  {
    hide Advances, Absorb, HealthDecoder, Flatten, HealthState, MergeHealth, HealthOk;
    var fs := HealthLayout(m.fields);
    var ks := seq(9, i requires 0 <= i => HealthState(a, m.fields, i));
    HealthFields1(s, a, m);
    HealthFields3(s, a, m);
    HealthFields4(s, a, m);
    HealthFields6(s, a, m);
    HealthStateEnds(a, m.fields);
    AbsorbFields(HealthDecoder(s), fs, ks);
  }

  lemma HealthStateEnds(a: HealthFields, b: HealthFields)
    ensures HealthState(a, b, 0) == a && HealthState(a, b, 8) == MergeHealth(a, b)
  {
  }

  lemma HealthDecodes(s: Schema, acc: HostHealthStatus, m: HostHealthStatus)
    requires HealthOk(s, Some(m)) && |EncodeHealth(m)| <= MAX_INT
    ensures DecodeInto(HealthDecoder(s), acc, EncodeHealth(m)) == Some(MergeMsg(MergeHealth, acc, m))
  {
    hide EncodeFields, UnknownTo, DecodeInto, Flatten, Absorb, HealthDecoder, MergeHealth;
    HealthAbsorbs(s, acc.fields, m);
    DecodeEncoded(HealthDecoder(s), acc, HealthLayout(m.fields), m.unknownFields, MergeHealth(acc.fields, m.fields));
  }

  /** HostHealthStatus reads back exactly as it was written. */
  lemma HealthRoundTrip(s: Schema, m: HostHealthStatus)
    requires HealthOk(s, Some(m)) && |EncodeHealth(m)| <= MAX_INT
    ensures DecodeInto(HealthDecoder(s), Msg(NO_HEALTH, []), EncodeHealth(m)) == Some(m)
  {
    hide DecodeInto, EncodeHealth, HealthOk;
    HealthDecodes(s, Msg(NO_HEALTH, []), m);
    assert [] + m.unknownFields == m.unknownFields;
  }

  lemma AbsorbStats(s: Schema, k: WireHostFields, xs: seq<Option<Bytes>>)
    ensures Absorb(HostDecoder(s), k, RepeatedField(2, Map(StatBytes, xs))) ==
            Some(k.(stats := k.stats + Map(NormaliseStat, xs)))
  {
    hide RepeatedField, Absorb;
    var put := (ys: seq<Option<Bytes>>) => k.(stats := ys);
    forall x, ys | x in xs
      ensures HostDecoder(s)(put(ys), Len(2, StatBytes(x))) == Updated(put(ys + [NormaliseStat(x)]))
    {
    }
    AbsorbRepeated(HostDecoder(s), put, k.stats, 2, xs, StatBytes, NormaliseStat);
  }

  lemma AbsorbHealth(s: Schema, k: WireHostFields, m: Option<HostHealthStatus>)
    requires HealthOk(s, m)
    requires |EncodeRecords(OptionalField(3, MapOption(EncodeHealth, m)))| <= MAX_INT
    ensures Advances(HostDecoder(s), k, OptionalField(3, MapOption(EncodeHealth, m)),
                     k.(healthStatus := MergeOptional(MergeHealth, NO_HEALTH, k.healthStatus, m)))
  {
    hide EncodeRecords, HealthOk, DecodeInto, EncodeHealth, MergeHealth, Absorb;
    if m.Some? {
      OptionalPayloadFits(3, EncodeHealth(m.value));
      HealthDecodes(s, k.healthStatus.GetOr(Msg(NO_HEALTH, [])), m.value);
    }
  }

  /** a after the first i fields of b have been merged into it. */
  function HostState(a: WireHostFields, b: WireHostFields, i: nat): WireHostFields {
    var c := MergeHost(a, b);
    HostFields(
      if i > 0 then c.address else a.address,
      if i > 1 then c.stats else a.stats,
      if i > 2 then c.healthStatus else a.healthStatus,
      if i > 3 then c.successRate else a.successRate,
      if i > 4 then c.weight else a.weight,
      if i > 5 then c.hostname else a.hostname,
      if i > 6 then c.priority else a.priority,
      if i > 7 then c.localOriginSuccessRate else a.localOriginSuccessRate,
      if i > 8 then c.locality else a.locality)
  }

  lemma HostFields1(s: Schema, a: WireHostFields, m: WireHost)
    requires HostOk(s, Some(m)) && |EncodeHost(Some(m))| <= MAX_INT
    ensures Advances(HostDecoder(s), HostState(a, m.fields, 0), HostLayout(m.fields)[0], HostState(a, m.fields, 1))
    ensures Advances(HostDecoder(s), HostState(a, m.fields, 1), HostLayout(m.fields)[1], HostState(a, m.fields, 2))
    ensures Advances(HostDecoder(s), HostState(a, m.fields, 2), HostLayout(m.fields)[2], HostState(a, m.fields, 3))
  {
    hide EncodeRecords, EncodeFields, UnknownTo, DecodeInto, Absorb, RepeatedField, Uint32Of, EncodeHealth,
      MergeHealth, HealthOk;
    AbsorbStats(s, HostState(a, m.fields, 1), m.fields.stats);
    FieldFits(HostLayout(m.fields), m.unknownFields, 2);
    AbsorbHealth(s, HostState(a, m.fields, 2), m.fields.healthStatus);
  }

  lemma HostFields4(s: Schema, a: WireHostFields, m: WireHost)
    requires HostOk(s, Some(m)) && |EncodeHost(Some(m))| <= MAX_INT
    ensures Advances(HostDecoder(s), HostState(a, m.fields, 3), HostLayout(m.fields)[3], HostState(a, m.fields, 4))
    ensures Advances(HostDecoder(s), HostState(a, m.fields, 4), HostLayout(m.fields)[4], HostState(a, m.fields, 5))
    ensures Advances(HostDecoder(s), HostState(a, m.fields, 5), HostLayout(m.fields)[5], HostState(a, m.fields, 6))
  {
    hide EncodeRecords, EncodeFields, UnknownTo, DecodeInto, Absorb, RepeatedField, Uint32Of, EncodeHealth,
      MergeHealth, HealthOk;
    Uint32Survives(m.fields.weight);
  }

  lemma HostFields7(s: Schema, a: WireHostFields, m: WireHost)
    requires HostOk(s, Some(m)) && |EncodeHost(Some(m))| <= MAX_INT
    ensures Advances(HostDecoder(s), HostState(a, m.fields, 6), HostLayout(m.fields)[6], HostState(a, m.fields, 7))
    ensures Advances(HostDecoder(s), HostState(a, m.fields, 7), HostLayout(m.fields)[7], HostState(a, m.fields, 8))
    ensures Advances(HostDecoder(s), HostState(a, m.fields, 8), HostLayout(m.fields)[8], HostState(a, m.fields, 9))
  {
    hide EncodeRecords, EncodeFields, UnknownTo, DecodeInto, Absorb, RepeatedField, Uint32Of, EncodeHealth,
      MergeHealth, HealthOk;
    Uint32Survives(m.fields.priority);
  }

  lemma HostAbsorbs(s: Schema, a: WireHostFields, m: WireHost)
    requires HostOk(s, Some(m)) && |EncodeHost(Some(m))| <= MAX_INT
    ensures Absorb(HostDecoder(s), a, Flatten(HostLayout(m.fields))) == Some(MergeHost(a, m.fields))
  {
    hide Advances, Absorb, HostDecoder, Flatten, HostState, MergeHost, HostOk, EncodeHost;
    var fs := HostLayout(m.fields);
    var ks := seq(10, i requires 0 <= i => HostState(a, m.fields, i));
    HostFields1(s, a, m);
    HostFields4(s, a, m);
    HostFields7(s, a, m);
    HostStateEnds(a, m.fields);
    AbsorbFields(HostDecoder(s), fs, ks);
  }

  lemma HostStateEnds(a: WireHostFields, b: WireHostFields)
    ensures HostState(a, b, 0) == a && HostState(a, b, 9) == MergeHost(a, b)
  {
  }

  lemma HostDecodes(s: Schema, acc: WireHost, m: Option<WireHost>)
    requires HostOk(s, m) && |EncodeHost(m)| <= MAX_INT
    ensures DecodeInto(HostDecoder(s), acc, EncodeHost(m)) ==
            Some(MergeMsg(MergeHost, acc, m.GetOr(Msg(NO_HOST, []))))
  {
    hide EncodeRecords, EncodeFields, UnknownTo, DecodeInto, Flatten, Absorb, HostDecoder, MergeHost, HostLayout,
      NoGroups;
    if m.None? {
      DecodeNothing(HostDecoder(s), acc);
      MergeHostWithNone(acc.fields);
      assert acc.unknownFields + [] == acc.unknownFields;
    } else {
      var b := m.value.fields;
      HostAbsorbs(s, acc.fields, m.value);
      HostNoGroups(b);
      DecodeEncoded(HostDecoder(s), acc, HostLayout(b), m.value.unknownFields, MergeHost(acc.fields, b));
    }
  }

  lemma HostNoGroups(k: WireHostFields)
    ensures NoGroups(HostLayout(k))
  {
    hide RepeatedField;
    RepeatedNoGroups(2, Map(StatBytes, k.stats));
  }

  lemma MergeHostWithNone(k: WireHostFields)
    ensures MergeHost(k, NO_HOST) == k
  {
    assert k.stats + [] == k.stats;
  }

  lemma HostElement(s: Schema, x: Option<WireHost>)
    requires HostOk(s, x) && |EncodeHost(x)| <= MAX_INT
    ensures NormaliseHost(x).Some?
    ensures DecodeInto(HostDecoder(s), Msg(NO_HOST, []), EncodeHost(x)) == NormaliseHost(x)
  {
    hide DecodeInto, EncodeHost, HostOk;
    HostDecodes(s, Msg(NO_HOST, []), x);
    var d := x.GetOr(Msg(NO_HOST, []));
    MergeHostFromEmpty(d.fields);
    assert [] + d.unknownFields == d.unknownFields;
  }

  lemma MergeHostFromEmpty(k: WireHostFields)
    ensures MergeHost(NO_HOST, k) == k.(stats := Map(NormaliseStat, k.stats))
  {
    hide MergeOpaque, NormaliseStat, MergeOptional;
    OpaqueFromEmpty(k.address);
    OpaqueFromEmpty(k.successRate);
    OpaqueFromEmpty(k.localOriginSuccessRate);
    OpaqueFromEmpty(k.locality);
    HealthFromEmpty(k.healthStatus);
    var stats := Map(NormaliseStat, k.stats);
    assert [] + stats == stats;
  }

  lemma HealthFromEmpty(m: Option<HostHealthStatus>)
    ensures MergeOptional(MergeHealth, NO_HEALTH, None, m) == m
  {
    if m.Some? {
      assert [] + m.value.unknownFields == m.value.unknownFields;
    }
  }

  lemma AbsorbHosts(s: Schema, k: WireClusterFields, xs: seq<Option<WireHost>>)
    requires forall x <- xs :: HostOk(s, x)
    requires |EncodeRecords(RepeatedField(4, Map(EncodeHost, xs)))| <= MAX_INT
    ensures Absorb(ClusterDecoder(s), k, RepeatedField(4, Map(EncodeHost, xs))) ==
            Some(k.(hostStatuses := k.hostStatuses + Map(NormaliseHost, xs)))
  {
    hide EncodeRecords, HostOk, EncodeHost, NormaliseHost, DecodeInto, RepeatedField, Absorb;
    var put := (ys: seq<Option<WireHost>>) => k.(hostStatuses := ys);
    forall x, ys | x in xs
      ensures ClusterDecoder(s)(put(ys), Len(4, EncodeHost(x))) == Updated(put(ys + [NormaliseHost(x)]))
    {
      var i :| 0 <= i < |xs| && xs[i] == x;
      RepeatedPayloadFits(4, Map(EncodeHost, xs), i);
      HostElement(s, x);
    }
    AbsorbRepeated(ClusterDecoder(s), put, k.hostStatuses, 4, xs, EncodeHost, NormaliseHost);
  }

  /** a after the first i fields of b have been merged into it. */
  function ClusterState(a: WireClusterFields, b: WireClusterFields, i: nat): WireClusterFields {
    var c := MergeCluster(a, b);
    ClusterFields(
      if i > 0 then c.name else a.name,
      if i > 1 then c.addedViaApi else a.addedViaApi,
      if i > 2 then c.successRateEjectionThreshold else a.successRateEjectionThreshold,
      if i > 3 then c.hostStatuses else a.hostStatuses,
      if i > 4 then c.localOriginSuccessRateEjectionThreshold else a.localOriginSuccessRateEjectionThreshold,
      if i > 5 then c.circuitBreakers else a.circuitBreakers,
      if i > 6 then c.observabilityName else a.observabilityName,
      if i > 7 then c.edsServiceName else a.edsServiceName)
  }

  lemma ClusterFields1(s: Schema, a: WireClusterFields, m: WireCluster)
    requires ClusterOk(s, Some(m)) && |EncodeCluster(Some(m))| <= MAX_INT
    ensures Advances(ClusterDecoder(s), ClusterState(a, m.fields, 0), ClusterLayout(m.fields)[0],
      ClusterState(a, m.fields, 1))
    ensures Advances(ClusterDecoder(s), ClusterState(a, m.fields, 1), ClusterLayout(m.fields)[1],
      ClusterState(a, m.fields, 2))
    ensures Advances(ClusterDecoder(s), ClusterState(a, m.fields, 2), ClusterLayout(m.fields)[2],
      ClusterState(a, m.fields, 3))
    ensures Advances(ClusterDecoder(s), ClusterState(a, m.fields, 3), ClusterLayout(m.fields)[3],
      ClusterState(a, m.fields, 4))
  {
    hide EncodeRecords, EncodeFields, UnknownTo, DecodeInto, Absorb, RepeatedField, EncodeHost, HostOk,
      NormaliseHost, HostStep;
    FieldFits(ClusterLayout(m.fields), m.unknownFields, 3);
    AbsorbHosts(s, ClusterState(a, m.fields, 3), m.fields.hostStatuses);
  }

  lemma ClusterFields5(s: Schema, a: WireClusterFields, m: WireCluster)
    requires ClusterOk(s, Some(m)) && |EncodeCluster(Some(m))| <= MAX_INT
    ensures Advances(ClusterDecoder(s), ClusterState(a, m.fields, 4), ClusterLayout(m.fields)[4],
      ClusterState(a, m.fields, 5))
    ensures Advances(ClusterDecoder(s), ClusterState(a, m.fields, 5), ClusterLayout(m.fields)[5],
      ClusterState(a, m.fields, 6))
    ensures Advances(ClusterDecoder(s), ClusterState(a, m.fields, 6), ClusterLayout(m.fields)[6],
      ClusterState(a, m.fields, 7))
    ensures Advances(ClusterDecoder(s), ClusterState(a, m.fields, 7), ClusterLayout(m.fields)[7],
      ClusterState(a, m.fields, 8))
  {
    hide EncodeRecords, EncodeFields, UnknownTo, DecodeInto, Absorb, RepeatedField, EncodeHost, HostOk,
      NormaliseHost, HostStep;
  }

  lemma ClusterAbsorbs(s: Schema, a: WireClusterFields, m: WireCluster)
    requires ClusterOk(s, Some(m)) && |EncodeCluster(Some(m))| <= MAX_INT
    ensures Absorb(ClusterDecoder(s), a, Flatten(ClusterLayout(m.fields))) == Some(MergeCluster(a, m.fields))
  {
    hide Advances, Absorb, ClusterDecoder, Flatten, ClusterState, MergeCluster, ClusterOk, EncodeCluster;
    var fs := ClusterLayout(m.fields);
    var ks := seq(9, i requires 0 <= i => ClusterState(a, m.fields, i));
    ClusterFields1(s, a, m);
    ClusterFields5(s, a, m);
    ClusterStateEnds(a, m.fields);
    AbsorbFields(ClusterDecoder(s), fs, ks);
  }

  lemma ClusterStateEnds(a: WireClusterFields, b: WireClusterFields)
    ensures ClusterState(a, b, 0) == a && ClusterState(a, b, 8) == MergeCluster(a, b)
  {
  }

  lemma ClusterDecodes(s: Schema, acc: WireCluster, m: Option<WireCluster>)
    requires ClusterOk(s, m) && |EncodeCluster(m)| <= MAX_INT
    ensures DecodeInto(ClusterDecoder(s), acc, EncodeCluster(m)) ==
            Some(MergeMsg(MergeCluster, acc, m.GetOr(Msg(NO_CLUSTER, []))))
  {
    hide EncodeRecords, EncodeFields, UnknownTo, DecodeInto, Flatten, Absorb, ClusterDecoder, MergeCluster,
      ClusterLayout, NoGroups;
    if m.None? {
      DecodeNothing(ClusterDecoder(s), acc);
      MergeClusterWithNone(acc.fields);
      assert acc.unknownFields + [] == acc.unknownFields;
    } else {
      var b := m.value.fields;
      ClusterAbsorbs(s, acc.fields, m.value);
      ClusterNoGroups(b);
      DecodeEncoded(ClusterDecoder(s), acc, ClusterLayout(b), m.value.unknownFields, MergeCluster(acc.fields, b));
    }
  }

  lemma ClusterNoGroups(k: WireClusterFields)
    ensures NoGroups(ClusterLayout(k))
  {
    hide RepeatedField;
    RepeatedNoGroups(4, Map(EncodeHost, k.hostStatuses));
  }

  lemma MergeClusterWithNone(k: WireClusterFields)
    ensures MergeCluster(k, NO_CLUSTER) == k
  {
    assert k.hostStatuses + [] == k.hostStatuses;
  }

  lemma ClusterElement(s: Schema, x: Option<WireCluster>)
    requires ClusterOk(s, x) && |EncodeCluster(x)| <= MAX_INT
    ensures NormaliseCluster(x).Some?
    ensures DecodeInto(ClusterDecoder(s), Msg(NO_CLUSTER, []), EncodeCluster(x)) == NormaliseCluster(x)
  {
    hide DecodeInto, EncodeCluster, ClusterOk, NormaliseHost, MergeOpaque;
    ClusterDecodes(s, Msg(NO_CLUSTER, []), x);
    var d := x.GetOr(Msg(NO_CLUSTER, []));
    OpaqueFromEmpty(d.fields.successRateEjectionThreshold);
    OpaqueFromEmpty(d.fields.localOriginSuccessRateEjectionThreshold);
    OpaqueFromEmpty(d.fields.circuitBreakers);
    assert [] + Map(NormaliseHost, d.fields.hostStatuses) == Map(NormaliseHost, d.fields.hostStatuses);
    assert [] + d.unknownFields == d.unknownFields;
  }

  lemma AbsorbClusters(s: Schema, k: WireClustersFields, xs: seq<Option<WireCluster>>)
    requires forall x <- xs :: ClusterOk(s, x)
    requires |EncodeRecords(RepeatedField(1, Map(EncodeCluster, xs)))| <= MAX_INT
    ensures Absorb(ClustersDecoder(s), k, RepeatedField(1, Map(EncodeCluster, xs))) ==
            Some(k.(clusterStatuses := k.clusterStatuses + Map(NormaliseCluster, xs)))
  {
    hide EncodeRecords, ClusterOk, EncodeCluster, NormaliseCluster, DecodeInto, RepeatedField, Absorb;
    var put := (ys: seq<Option<WireCluster>>) => k.(clusterStatuses := ys);
    forall x, ys | x in xs
      ensures ClustersDecoder(s)(put(ys), Len(1, EncodeCluster(x))) == Updated(put(ys + [NormaliseCluster(x)]))
    {
      var i :| 0 <= i < |xs| && xs[i] == x;
      RepeatedPayloadFits(1, Map(EncodeCluster, xs), i);
      ClusterElement(s, x);
    }
    AbsorbRepeated(ClustersDecoder(s), put, k.clusterStatuses, 1, xs, EncodeCluster, NormaliseCluster);
  }

  /** Decoding the encoding of m on top of any message merges m into it. */
  lemma ClustersDecode(s: Schema, acc: WireClusters, m: Option<WireClusters>)
    requires ClustersOk(s, m) && |EncodeClusters(m)| <= MAX_INT
    ensures DecodeInto(ClustersDecoder(s), acc, EncodeClusters(m)) ==
            Some(MergeMsg(MergeClusters, acc, m.GetOr(Msg(NO_CLUSTERS, []))))
  {
    if m.None? {
      DecodeNothing(ClustersDecoder(s), acc);
      assert acc.fields.clusterStatuses + [] == acc.fields.clusterStatuses;
    } else {
      hide EncodeRecords, EncodeFields, UnknownTo, DecodeInto, Flatten, Absorb, RepeatedField, EncodeCluster, ClusterOk,
        NormaliseCluster;
      var k0, b, fs := acc.fields, m.value.fields, ClustersLayout(m.value.fields);
      FieldFits(fs, m.value.unknownFields, 0);
      AbsorbClusters(s, k0, b.clusterStatuses);
      AbsorbFields(ClustersDecoder(s), fs, [k0, MergeClusters(k0, b)]);
      RepeatedNoGroups(1, Map(EncodeCluster, b.clusterStatuses));
      DecodeEncoded(ClustersDecoder(s), acc, fs, m.value.unknownFields, MergeClusters(k0, b));
    }
  }

  /** Round trip: what is read back is what was written, nil elements having become empty messages. */
  lemma RoundTrip(s: Schema, m: Option<WireClusters>)
    requires ClustersOk(s, m) && |EncodeClusters(m)| <= MAX_INT
    ensures DecodeClusters(s, EncodeClusters(m)) == Some(NormaliseClusters(m))
  {
    hide EncodeClusters, DecodeInto, ClustersOk, NormaliseCluster, ClustersDecoder;
    ClustersDecode(s, Msg(NO_CLUSTERS, []), m);
    var d := m.GetOr(Msg(NO_CLUSTERS, []));
    assert [] + d.unknownFields == d.unknownFields;
    assert [] + Map(NormaliseCluster, d.fields.clusterStatuses) == Map(NormaliseCluster, d.fields.clusterStatuses);
  }

  /** Concatenation is merge. */
  lemma ConcatenationMerges(s: Schema, a: Option<WireClusters>, b: Option<WireClusters>)
    requires ClustersOk(s, a) && |EncodeClusters(a)| <= MAX_INT
    requires ClustersOk(s, b) && |EncodeClusters(b)| <= MAX_INT
    ensures DecodeClusters(s, EncodeClusters(a) + EncodeClusters(b)) ==
            Some(MergeMsg(MergeClusters, NormaliseClusters(a), b.GetOr(Msg(NO_CLUSTERS, []))))
  {
    hide EncodeClusters, DecodeInto, ClustersOk, NormaliseClusters, MergeMsg, ClustersDecoder;
    RoundTrip(s, a);
    ClustersDecode(s, NormaliseClusters(a), b);
    DecodeConcat(ClustersDecoder(s), Msg(NO_CLUSTERS, []), EncodeClusters(a), EncodeClusters(b));
  }

  /* ----- when the round trip is exact ----- */

  /** No repeated field has a nil element, at any level. */
  ghost predicate NoNilHost<P, O>(m: Option<HostStatus<P, O>>) {
    m.Some? && forall x <- m.value.fields.stats :: x.Some?
  }

  ghost predicate NoNilCluster<P, O>(m: Option<ClusterStatus<P, O>>) {
    m.Some? && forall x <- m.value.fields.hostStatuses :: NoNilHost(x)
  }

  ghost predicate NoNil<P, O>(m: ClustersMsg<P, O>) {
    forall x <- m.fields.clusterStatuses :: NoNilCluster(x)
  }

  lemma HostFixed(m: Option<WireHost>)
    ensures NormaliseHost(m) == m <==> NoNilHost(m)
  {
    if m.Some? {
      MapFixed(NormaliseStat, m.value.fields.stats);
    }
  }

  lemma ClusterFixed(m: Option<WireCluster>)
    ensures NormaliseCluster(m) == m <==> NoNilCluster(m)
  {
    hide NormaliseHost, NoNilHost;
    if m.Some? {
      MapFixed(NormaliseHost, m.value.fields.hostStatuses);
      forall x ensures NormaliseHost(x) == x <==> NoNilHost(x) {
        HostFixed(x);
      }
    }
  }

  /** With children taken for their bytes, the round trip is exact when and only when there is no nil element. */
  lemma RoundTripExact(s: Schema, m: WireClusters)
    requires ClustersOk(s, Some(m)) && |EncodeClusters(Some(m))| <= MAX_INT
    ensures DecodeClusters(s, EncodeClusters(Some(m))) == Some(m) <==> NoNil(m)
  {
    hide EncodeClusters, DecodeClusters, ClustersOk, NormaliseCluster, NoNilCluster;
    RoundTrip(s, Some(m));
    MapFixed(NormaliseCluster, m.fields.clusterStatuses);
    forall x ensures NormaliseCluster(x) == x <==> NoNilCluster(x) {
      ClusterFixed(x);
    }
  }

  /* ----- the encoding does not tell a nil element from an empty one ----- */

  lemma EncodeNormalisedHost(m: Option<WireHost>)
    ensures EncodeHost(NormaliseHost(m)) == EncodeHost(m)
  {
    hide EncodeRecords, EncodeFields, RepeatedField;
    var d := m.GetOr(Msg(NO_HOST, []));
    MapCongruent(StatBytes, NormaliseStat, StatBytes, d.fields.stats);
    EncodeEmptyHost();
  }

  lemma EncodeEmptyHost()
    ensures EncodeHost(Some(Msg(NO_HOST, []))) == []
  {
    EncodeFieldsFlat(HostLayout(NO_HOST), []);
    FlattenEmpty(HostLayout(NO_HOST));
  }

  lemma EncodeNormalisedCluster(m: Option<WireCluster>)
    ensures EncodeCluster(NormaliseCluster(m)) == EncodeCluster(m)
  {
    hide EncodeRecords, EncodeFields, RepeatedField, EncodeHost, NormaliseHost;
    var d := m.GetOr(Msg(NO_CLUSTER, []));
    forall x ensures EncodeHost(NormaliseHost(x)) == EncodeHost(x) {
      EncodeNormalisedHost(x);
    }
    MapCongruent(EncodeHost, NormaliseHost, EncodeHost, d.fields.hostStatuses);
    EncodeEmptyCluster();
  }

  lemma EncodeEmptyCluster()
    ensures EncodeCluster(Some(Msg(NO_CLUSTER, []))) == []
  {
    EncodeFieldsFlat(ClusterLayout(NO_CLUSTER), []);
    FlattenEmpty(ClusterLayout(NO_CLUSTER));
  }

  /** Marshalling what was read back gives the same bytes again. */
  lemma EncodeNormalised(m: Option<WireClusters>)
    ensures EncodeClusters(Some(NormaliseClusters(m))) == EncodeClusters(m)
  {
    hide EncodeRecords, EncodeFields, RepeatedField, EncodeCluster, NormaliseCluster;
    var d := m.GetOr(Msg(NO_CLUSTERS, []));
    forall x ensures EncodeCluster(NormaliseCluster(x)) == EncodeCluster(x) {
      EncodeNormalisedCluster(x);
    }
    MapCongruent(EncodeCluster, NormaliseCluster, EncodeCluster, d.fields.clusterStatuses);
    EncodeEmptyClusters();
  }

  lemma EncodeEmptyClusters()
    ensures EncodeClusters(Some(Msg(NO_CLUSTERS, []))) == []
  {
    EncodeFieldsFlat(ClustersLayout(NO_CLUSTERS), []);
    FlattenEmpty(ClustersLayout(NO_CLUSTERS));
  }

  /* ----- a small tree ----- */

  /** One cluster with nothing but a threshold. */
  function OneThreshold(p: Bytes): WireClusters {
    Msg(ClustersFields([Some(Msg(NO_CLUSTER.(successRateEjectionThreshold := Some(p)), []))]), [])
  }

  lemma OneThresholdBytes(p: Bytes)
    ensures EncodeClusters(Some(OneThreshold(p))) == EncodeRecord(Len(1, EncodeRecord(Len(3, p))))
  {
    hide EncodeRecord, EncodeRecords, EncodeFields;
    var xs := OneThreshold(p).fields.clusterStatuses;
    assert Map(EncodeHost, []) == [];
    OnlyField(ClusterLayout(xs[0].value.fields), 2, Len(3, p));
    assert Map(EncodeCluster, xs) == [EncodeRecord(Len(3, p))];
    assert RepeatedField(1, [EncodeRecord(Len(3, p))]) == [Len(1, EncodeRecord(Len(3, p)))];
    OnlyField(ClustersLayout(ClustersFields(xs)), 0, Len(1, EncodeRecord(Len(3, p))));
  }
}
