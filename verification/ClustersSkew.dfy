/**
 * Version skew over the clusters tree: the fields that v3 added to ClusterStatus and to
 * HostHealthStatus have the highest numbers, so a v2alpha peer keeps them as unknown bytes in
 * place, at every level, and writes out the bytes it read.
 */
module ClustersSkew {
  import opened GoTypes
  import opened Wire
  import opened Messages
  import opened Clusters
  import opened ClustersLaws
  import opened ClustersRelay

  /** The fields v2alpha does not have. */
  function NewHealthFields(k: HealthFields): seq<seq<Record>> {
    [BoolField(7, k.excludedViaImmediateHcFail), BoolField(8, k.activeHcTimeout)]
  }

  function NewClusterFields(k: WireClusterFields): seq<seq<Record>> {
    [OptionalField(6, k.circuitBreakers), StringField(7, k.observabilityName), StringField(8, k.edsServiceName)]
  }

  /** A v3 message as a v2alpha peer holds it. */
  function DowngradeHealth(m: HostHealthStatus): HostHealthStatus {
    Msg(m.fields.(excludedViaImmediateHcFail := false, activeHcTimeout := false),
        EncodeFields(NewHealthFields(m.fields), m.unknownFields))
  }

  function DowngradeHost(m: Option<WireHost>): Option<WireHost> {
    if m.None? then None
    else Some(m.value.(fields := m.value.fields.(healthStatus := MapOption(DowngradeHealth,
      m.value.fields.healthStatus))))
  }

  function DowngradeCluster(m: Option<WireCluster>): Option<WireCluster> {
    if m.None? then None
    else
      var k := m.value.fields;
      Some(Msg(
        k.(hostStatuses := Map(DowngradeHost, k.hostStatuses), circuitBreakers := None,
           observabilityName := [], edsServiceName := []),
        EncodeFields(NewClusterFields(k), m.value.unknownFields)))
  }

  function Downgrade(m: Option<WireClusters>): Option<WireClusters> {
    if m.None? then None
    else Some(m.value.(fields := ClustersFields(Map(DowngradeCluster, m.value.fields.clusterStatuses))))
  }

  /** Fields at the end of the list may as well be unknown bytes, with the fields themselves left empty. */
  lemma TailMoves(fs: seq<seq<Record>>, gs: seq<seq<Record>>, k: nat, unknownFields: seq<byte>)
    requires k <= |fs| == |gs| && fs[..k] == gs[..k]
    requires forall i | k <= i < |gs| :: gs[i] == []
    ensures EncodeFields(gs, EncodeFields(fs[k..], unknownFields)) == EncodeFields(fs, unknownFields)
  {
    hide EncodeRecords, EncodeFields;
    var moved := EncodeFields(fs[k..], unknownFields);
    EncodeFieldsSplit(fs[..k], fs[k..], unknownFields);
    assert fs == fs[..k] + fs[k..];
    EncodeFieldsSplit(gs[..k], gs[k..], moved);
    assert gs == gs[..k] + gs[k..];
    EncodeFieldsFlat(gs[k..], moved);
    FlattenEmpty(gs[k..]);
    EncodeNone();
    assert [] + moved == moved;
  }

  lemma DowngradeHealthBytes(m: HostHealthStatus)
    ensures EncodeHealth(DowngradeHealth(m)) == EncodeHealth(m)
  {
    hide EncodeRecords, EncodeFields;
    var fs, gs := HealthLayout(m.fields), HealthLayout(DowngradeHealth(m).fields);
    assert fs[6..] == NewHealthFields(m.fields);
    TailMoves(fs, gs, 6, m.unknownFields);
  }

  lemma DowngradeHostBytes(m: Option<WireHost>)
    ensures EncodeHost(DowngradeHost(m)) == EncodeHost(m)
  {
    hide EncodeRecords, EncodeFields, EncodeHealth, DowngradeHealth, RepeatedField;
    if m.Some? && m.value.fields.healthStatus.Some? {
      DowngradeHealthBytes(m.value.fields.healthStatus.value);
    }
  }

  lemma NewClusterFieldsLast(k: WireClusterFields, hosts: seq<Option<WireHost>>)
    requires Map(EncodeHost, hosts) == Map(EncodeHost, k.hostStatuses)
    ensures
      var fs := ClusterLayout(k);
      var gs := ClusterLayout(
        k.(hostStatuses := hosts, circuitBreakers := None, observabilityName := [], edsServiceName := []));
      && fs[5..] == NewClusterFields(k) && gs[..5] == fs[..5]
      && forall i | 5 <= i < |gs| :: gs[i] == []
  {
    hide EncodeHost, RepeatedField, BoolField, Map;
  }

  lemma DowngradeClusterBytes(m: Option<WireCluster>)
    ensures EncodeCluster(DowngradeCluster(m)) == EncodeCluster(m)
  {
    if m.Some? {
      hide EncodeRecords, EncodeFields, EncodeHost, DowngradeHost, RepeatedField, ClusterLayout, NewClusterFields;
      var k := m.value.fields;
      forall x ensures EncodeHost(DowngradeHost(x)) == EncodeHost(x) {
        DowngradeHostBytes(x);
      }
      MapCongruent(EncodeHost, DowngradeHost, EncodeHost, k.hostStatuses);
      NewClusterFieldsLast(k, Map(DowngradeHost, k.hostStatuses));
      TailMoves(ClusterLayout(k), ClusterLayout(DowngradeCluster(m).value.fields), 5, m.value.unknownFields);
    }
  }

  lemma DowngradeBytes(m: Option<WireClusters>)
    ensures EncodeClusters(Downgrade(m)) == EncodeClusters(m)
  {
    hide EncodeRecords, EncodeFields, EncodeCluster, DowngradeCluster, RepeatedField;
    if m.Some? {
      forall x ensures EncodeCluster(DowngradeCluster(x)) == EncodeCluster(x) {
        DowngradeClusterBytes(x);
      }
      MapCongruent(EncodeCluster, DowngradeCluster, EncodeCluster, m.value.fields.clusterStatuses);
    }
  }

  /** The moved fields, in front of the unknown bytes, are unknown to a schema that lacks them. */
  lemma MovedUnknown<K(!new)>(step: (K, Record) -> Outcome<K>, fs: seq<seq<Record>>, unknownFields: seq<byte>)
    requires |EncodeFields(fs, unknownFields)| <= MAX_INT
    requires NoGroups(fs)
    requires forall i, j, k | 0 <= i < |fs| && 0 <= j < |fs[i]| :: step(k, fs[i][j]) == Unrecognised
    requires UnknownTo(step, unknownFields)
    ensures UnknownTo(step, EncodeFields(fs, unknownFields))
  {
    hide EncodeRecords, EncodeFields, UnknownTo, Flatten;
    var rs := Flatten(fs);
    EncodeFieldsFlat(fs, unknownFields);
    NoGroupsFlat(fs);
    ShortPayloads(rs);
    forall k, r | r in rs ensures step(k, r) == Unrecognised {
      FlattenMember(fs, r);
      var i :| 0 <= i < |fs| && r in fs[i];
      var j :| 0 <= j < |fs[i]| && fs[i][j] == r;
    }
    UnknownPrefix(step, rs, unknownFields);
  }

  lemma DowngradeHealthOk(m: HostHealthStatus)
    requires HealthOk(V3, Some(m)) && |EncodeHealth(m)| <= MAX_INT
    ensures HealthOk(V2alpha, Some(DowngradeHealth(m)))
  {
    hide EncodeRecords, EncodeFields, UnknownTo;
    forall k, r | HealthDecoder(V3)(k, r) == Unrecognised ensures HealthDecoder(V2alpha)(k, r) == Unrecognised {
    }
    UnknownToOlder(HealthDecoder(V3), HealthDecoder(V2alpha), m.unknownFields);
    var fs := HealthLayout(m.fields);
    assert fs[6..] == NewHealthFields(m.fields);
    TailFits(fs, m.unknownFields, 6);
    MovedUnknown(HealthDecoder(V2alpha), NewHealthFields(m.fields), m.unknownFields);
  }

  lemma {:induction false} TailFits(fs: seq<seq<Record>>, unknownFields: seq<byte>, k: nat)
    requires k <= |fs|
    ensures |EncodeFields(fs[k..], unknownFields)| <= |EncodeFields(fs, unknownFields)|
  {
    hide EncodeRecords;
    if k == 0 {
      assert fs[0..] == fs;
    } else {
      TailFits(fs[1..], unknownFields, k - 1);
      assert fs[1..][k - 1..] == fs[k..];
    }
  }

  lemma DowngradeHostOk(m: Option<WireHost>)
    requires HostOk(V3, m) && |EncodeHost(m)| <= MAX_INT
    ensures HostOk(V2alpha, DowngradeHost(m))
  {
    if m.Some? {
      hide EncodeRecords, EncodeFields, UnknownTo, HealthOk, EncodeHealth, DowngradeHealth, RepeatedField, DecodeInto;
      var d := m.value;
      forall k, r | HostDecoder(V3)(k, r) == Unrecognised ensures HostDecoder(V2alpha)(k, r) == Unrecognised {
      }
      UnknownToOlder(HostDecoder(V3), HostDecoder(V2alpha), d.unknownFields);
      if d.fields.healthStatus.Some? {
        FieldFits(HostLayout(d.fields), d.unknownFields, 2);
        OptionalPayloadFits(3, EncodeHealth(d.fields.healthStatus.value));
        DowngradeHealthOk(d.fields.healthStatus.value);
      } else {
        NoHealthOk();
      }
    }
  }

  lemma NoHealthOk()
    ensures HealthOk(V2alpha, None)
  {
  }

  lemma NewClusterFieldsUnknown(d: WireCluster)
    requires UnknownTo(ClusterDecoder(V3), d.unknownFields)
    requires |EncodeFields(NewClusterFields(d.fields), d.unknownFields)| <= MAX_INT
    ensures UnknownTo(ClusterDecoder(V2alpha), EncodeFields(NewClusterFields(d.fields), d.unknownFields))
  {
    hide EncodeRecords, EncodeFields, UnknownTo, DecodeInto;
    forall k, r | ClusterDecoder(V3)(k, r) == Unrecognised ensures ClusterDecoder(V2alpha)(k, r) == Unrecognised {
    }
    UnknownToOlder(ClusterDecoder(V3), ClusterDecoder(V2alpha), d.unknownFields);
    MovedUnknown(ClusterDecoder(V2alpha), NewClusterFields(d.fields), d.unknownFields);
  }

  lemma DowngradeClusterOk(m: Option<WireCluster>)
    requires ClusterOk(V3, m) && |EncodeCluster(m)| <= MAX_INT
    ensures ClusterOk(V2alpha, DowngradeCluster(m))
  {
    if m.Some? {
      hide EncodeRecords, EncodeFields, UnknownTo, HostOk, EncodeHost, DowngradeHost, RepeatedField, DecodeInto;
      var d, fs, xs := m.value, ClusterLayout(m.value.fields), m.value.fields.hostStatuses;
      assert fs[5..] == NewClusterFields(d.fields);
      TailFits(fs, d.unknownFields, 5);
      NewClusterFieldsUnknown(d);
      FieldFits(fs, d.unknownFields, 3);
      DowngradeHostsOk(xs);
    }
  }

  lemma DowngradeHostsOk(xs: seq<Option<WireHost>>)
    requires forall x <- xs :: HostOk(V3, x)
    requires |EncodeRecords(RepeatedField(4, Map(EncodeHost, xs)))| <= MAX_INT
    ensures forall y <- Map(DowngradeHost, xs) :: HostOk(V2alpha, y)
  {
    hide EncodeRecords, HostOk, EncodeHost, DowngradeHost, RepeatedField;
    forall y <- Map(DowngradeHost, xs) ensures HostOk(V2alpha, y) {
      var i :| 0 <= i < |xs| && Map(DowngradeHost, xs)[i] == y;
      RepeatedPayloadFits(4, Map(EncodeHost, xs), i);
      DowngradeHostOk(xs[i]);
    }
  }

  lemma DowngradeOk(m: Option<WireClusters>)
    requires ClustersOk(V3, m) && |EncodeClusters(m)| <= MAX_INT
    ensures ClustersOk(V2alpha, Downgrade(m))
  {
    if m.Some? {
      hide EncodeRecords, EncodeFields, UnknownTo, ClusterOk, EncodeCluster, DowngradeCluster, RepeatedField,
        DecodeInto;
      var d, xs := m.value, m.value.fields.clusterStatuses;
      forall k, r | ClustersDecoder(V3)(k, r) == Unrecognised ensures ClustersDecoder(V2alpha)(k, r) == Unrecognised {
      }
      UnknownToOlder(ClustersDecoder(V3), ClustersDecoder(V2alpha), d.unknownFields);
      FieldFits(ClustersLayout(d.fields), d.unknownFields, 0);
      forall y <- Map(DowngradeCluster, xs) ensures ClusterOk(V2alpha, y) {
        var i :| 0 <= i < |xs| && Map(DowngradeCluster, xs)[i] == y;
        RepeatedPayloadFits(1, Map(EncodeCluster, xs), i);
        DowngradeClusterOk(xs[i]);
      }
    }
  }

  /**
   * With children passed on byte for byte: a v2alpha peer reads every v3 encoding, as a well-formed
   * message of its own; what it holds re-encodes to the identical bytes, and a v3 peer reads those as
   * it would have read the original.
   */
  lemma SkewPreservesBytes(m: Option<WireClusters>)
    requires ClustersOk(V3, m) && |EncodeClusters(m)| <= MAX_INT
    ensures
      var held := DecodeClusters(V2alpha, EncodeClusters(m));
      && held == Some(NormaliseClusters(Downgrade(m)))
      && ClustersOk(V2alpha, held)
      && EncodeClusters(held) == EncodeClusters(m)
      && DecodeClusters(V3, EncodeClusters(held)) == Some(NormaliseClusters(m))
  {
    hide EncodeClusters, DecodeClusters, ClustersOk, NormaliseClusters, Downgrade;
    DowngradeBytes(m);
    DowngradeOk(m);
    RoundTrip(V2alpha, Downgrade(m));
    EncodeNormalised(Downgrade(m));
    RoundTrip(V3, m);
    HeldOk(EncodeClusters(m));
  }
}
