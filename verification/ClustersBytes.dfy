/** The clusters tree as bytes: every field under its literal key, in the order of the output. */
module ClustersBytes {
  import opened GoTypes
  import opened Wire
  import opened Messages
  import opened Clusters
  import opened ClustersMarshal
  import opened FieldBytes

  lemma HealthInBytes(m: HostHealthStatus) returns (chunks: seq<Bytes>)
    ensures EncodeHealth(m) == Join(chunks) + m.unknownFields
    ensures
      var k := m.fields;
      chunks == [
        BoolBytes([0x8], k.failedActiveHealthCheck),
        BoolBytes([0x10], k.failedOutlierCheck),
        NumberBytes([0x18], Uint64Of(k.edsHealthStatus)),
        BoolBytes([0x20], k.failedActiveDegradedCheck),
        BoolBytes([0x28], k.pendingDynamicRemoval),
        BoolBytes([0x30], k.pendingActiveHc),
        BoolBytes([0x38], k.excludedViaImmediateHcFail),
        BoolBytes([0x40], k.activeHcTimeout)]
    ensures NumbersSorted(Flatten(HealthLayout(m.fields)))
  {
    hide Key, BoolBytes, NumberBytes, BoolField, VarintField, EncodeRecords, EncodeFields, Flatten, Numbered, Join,
      Uint64Of, HealthLayout;
    var k := m.fields;
    OneByteKeys();
    HealthLayoutAt(k);
    BoolEmits(1, [0x8], k.failedActiveHealthCheck);
    BoolEmits(2, [0x10], k.failedOutlierCheck);
    NumberEmits(3, [0x18], Uint64Of(k.edsHealthStatus));
    BoolEmits(4, [0x20], k.failedActiveDegradedCheck);
    BoolEmits(5, [0x28], k.pendingDynamicRemoval);
    BoolEmits(6, [0x30], k.pendingActiveHc);
    BoolEmits(7, [0x38], k.excludedViaImmediateHcFail);
    BoolEmits(8, [0x40], k.activeHcTimeout);
    var fs := HealthLayout(k);
    forall i | 0 <= i < |fs| ensures Numbered(fs[i], i + 1) {
      assert i in {0, 1, 2, 3, 4, 5, 6, 7};
    }
    chunks := Chunks(fs, m.unknownFields);
  }

  lemma HostInBytes(m: WireHost) returns (chunks: seq<Bytes>)
    ensures EncodeHost(Some(m)) == Join(chunks) + m.unknownFields
    ensures
      var k := m.fields;
      chunks == [
        MessageBytes([0xa], k.address),
        ElementBytes([0x12], Map(StatBytes, k.stats)),
        MessageBytes([0x1a], MapOption(EncodeHealth, k.healthStatus)),
        MessageBytes([0x22], k.successRate),
        NumberBytes([0x28], k.weight),
        StringBytes([0x32], k.hostname),
        NumberBytes([0x38], k.priority),
        MessageBytes([0x42], k.localOriginSuccessRate),
        MessageBytes([0x4a], k.locality)]
    ensures NumbersSorted(Flatten(HostLayout(m.fields)))
  {
    hide Key, ElementBytes, MessageBytes, NumberBytes, StringBytes, OptionalField, RepeatedField, StringField,
      VarintField, EncodeRecords, EncodeFields, Flatten, Numbered, Join, EncodeHealth, MapOption, Map;
    var k := m.fields;
    OneByteKeys();
    MessageEmits(1, [0xa], k.address);
    ElementsEmit(2, [0x12], Map(StatBytes, k.stats));
    MessageEmits(3, [0x1a], MapOption(EncodeHealth, k.healthStatus));
    MessageEmits(4, [0x22], k.successRate);
    NumberEmits(5, [0x28], k.weight);
    StringEmits(6, [0x32], k.hostname);
    NumberEmits(7, [0x38], k.priority);
    MessageEmits(8, [0x42], k.localOriginSuccessRate);
    MessageEmits(9, [0x4a], k.locality);
    var fs := HostLayout(k);
    forall i | 0 <= i < |fs| ensures Numbered(fs[i], i + 1) {
      assert i in {0, 1, 2, 3, 4, 5, 6, 7, 8};
    }
    chunks := Chunks(fs, m.unknownFields);
  }

  lemma ClusterInBytes(m: WireCluster) returns (chunks: seq<Bytes>)
    ensures EncodeCluster(Some(m)) == Join(chunks) + m.unknownFields
    ensures
      var k := m.fields;
      chunks == [
        StringBytes([0xa], k.name),
        BoolBytes([0x10], k.addedViaApi),
        MessageBytes([0x1a], k.successRateEjectionThreshold),
        ElementBytes([0x22], Map(EncodeHost, k.hostStatuses)),
        MessageBytes([0x2a], k.localOriginSuccessRateEjectionThreshold),
        MessageBytes([0x32], k.circuitBreakers),
        StringBytes([0x3a], k.observabilityName),
        StringBytes([0x42], k.edsServiceName)]
    ensures NumbersSorted(Flatten(ClusterLayout(m.fields)))
  {
    hide Key, BoolBytes, ElementBytes, MessageBytes, StringBytes, BoolField, OptionalField, RepeatedField,
      StringField, EncodeRecords, EncodeFields, Flatten, Numbered, Join, EncodeHost, Map;
    var k := m.fields;
    OneByteKeys();
    StringEmits(1, [0xa], k.name);
    BoolEmits(2, [0x10], k.addedViaApi);
    MessageEmits(3, [0x1a], k.successRateEjectionThreshold);
    ElementsEmit(4, [0x22], Map(EncodeHost, k.hostStatuses));
    MessageEmits(5, [0x2a], k.localOriginSuccessRateEjectionThreshold);
    MessageEmits(6, [0x32], k.circuitBreakers);
    StringEmits(7, [0x3a], k.observabilityName);
    StringEmits(8, [0x42], k.edsServiceName);
    var fs := ClusterLayout(k);
    forall i | 0 <= i < |fs| ensures Numbered(fs[i], i + 1) {
      assert i in {0, 1, 2, 3, 4, 5, 6, 7};
    }
    chunks := Chunks(fs, m.unknownFields);
  }

  lemma ClustersInBytes(m: WireClusters)
    ensures
      var k := m.fields;
      EncodeClusters(Some(m)) ==
        ElementBytes([0xa], Map(EncodeCluster, k.clusterStatuses)) + m.unknownFields
    ensures NumbersSorted(Flatten(ClustersLayout(m.fields)))
  {
    hide Key, ElementBytes, RepeatedField, EncodeRecords, EncodeFields, Flatten, Numbered, Join, EncodeCluster, Map;
    var k := m.fields;
    OneByteKeys();
    ElementsEmit(1, [0xa], Map(EncodeCluster, k.clusterStatuses));
    var chunks := Chunks(ClustersLayout(k), m.unknownFields);
    assert chunks == [ElementBytes([0xa], Map(EncodeCluster, k.clusterStatuses))];
    JoinOne(ElementBytes([0xa], Map(EncodeCluster, k.clusterStatuses)));
  }

  /** A single flag takes its key and the byte 1. */
  lemma FlagExamples()
    ensures EncodeHealth(Msg(NO_HEALTH.(failedActiveHealthCheck := true), [])) == [0x8, 1]
    ensures EncodeHealth(Msg(NO_HEALTH.(activeHcTimeout := true), [])) == [0x40, 1]
  {
    var one := HealthInBytes(Msg(NO_HEALTH.(failedActiveHealthCheck := true), []));
    var two := HealthInBytes(Msg(NO_HEALTH.(activeHcTimeout := true), []));
    hide Join, EncodeHealth;
    JoinOnly(one, 0);
    JoinOnly(two, 7);
  }
}
