/**
 * A v2alpha relay between v3 peers, over the clusters tree. A child of another package goes through
 * the relay's own decoder and marshaller for that child, and what comes out need not be what went
 * in. So the law is relative to them: for any bytes that v3 accepts, v3 reads in the output of the
 * relay what it reads in the input, with each child replaced by what the relay made of it. v3 added
 * fields at two levels, and one of them sits in a singular submessage, whose occurrences merge.
 */
module ClustersRelay {
  import opened GoTypes
  import opened Wire
  import opened Messages
  import opened Clusters
  import opened ClustersChildren
  import opened ClustersLaws
  import opened Relay

  function ReadHealth(s: Schema, bs: seq<byte>): Option<HostHealthStatus> {
    DecodeInto(HealthDecoder(s), Msg(NO_HEALTH, []), bs)
  }

  function ReadHost(s: Schema, bs: seq<byte>): Option<WireHost> {
    DecodeInto(HostDecoder(s), Msg(NO_HOST, []), bs)
  }

  function ReadCluster(s: Schema, bs: seq<byte>): Option<WireCluster> {
    DecodeInto(ClusterDecoder(s), Msg(NO_CLUSTER, []), bs)
  }

  /* ----- what the relay's own codecs make of the bytes of each child ----- */

  type Carrier = Children<Bytes, Bytes, Bytes, Bytes>

  /**
   * The relay writes a Percent as a sequence of records; and it leaves circuit breakers, which
   * v2alpha does not have, alone.
   */
  ghost predicate Carries(c: Carrier) {
    && (forall p :: Parse(p).Some? ==> Parse(c.percent(p)).Some?)
    && (forall p :: c.circuitBreakers(p) == p)
  }

  /** The bytes a v2alpha peer writes for what it read. */
  function Relayed(c: Carrier, bs: Bytes): Bytes {
    var held := DecodeClusters(V2alpha, bs);
    if held.None? then [] else EncodeClusters(Some(MapClusters(c, held.value)))
  }

  /* ----- HostHealthStatus: fields 7 and 8 are new ----- */

  predicate SameHealth(j: HealthFields, k: HealthFields) {
    j == k && !j.excludedViaImmediateHcFail && !j.activeHcTimeout
  }

  lemma HealthFollows()
    ensures Follows(HealthDecoder(V2alpha), HealthDecoder(V3), SameHealth)
  {
    hide Int32Of;
  }

  lemma HealthCommutes()
    ensures Commutes(HealthDecoder(V2alpha), HealthDecoder(V3))
  {
    hide Int32Of;
    forall k, r, q |
        && HealthDecoder(V2alpha)(k, r) != Unrecognised && HealthDecoder(V2alpha)(k, q) == Unrecognised
        && HealthDecoder(V3)(k, q).Updated? && HealthDecoder(V3)(HealthDecoder(V3)(k, q).fields, r).Updated?
      ensures HealthDecoder(V3)(k, r).Updated?
      ensures HealthDecoder(V3)(HealthDecoder(V3)(k, r).fields, q) ==
        HealthDecoder(V3)(HealthDecoder(V3)(k, q).fields, r)
    {
      hide HealthStep, HealthDecoder;
      NewHealthField(k, q);
      KnownHealthField(k, q, r);
      NewHealthField(HealthDecoder(V3)(k, r).fields, q);
    }
  }

  /** What a record that both know does is not affected by one that only v3 knows. */
  lemma KnownHealthField(k: HealthFields, q: Record, r: Record)
    requires HealthDecoder(V2alpha)(k, r) != Unrecognised
    requires q.Varint? && (q.num == 7 || q.num == 8)
    ensures HealthDecoder(V3)(k, r).Updated?
    ensures HealthDecoder(V3)(WithNew(k, q), r) == Updated(WithNew(HealthDecoder(V3)(k, r).fields, q))
  {
    hide HealthStep;
    KnownHealthFieldAside(k, r, k.excludedViaImmediateHcFail, k.activeHcTimeout);
    if q.num == 7 {
      KnownHealthFieldAside(k, r, q.v != 0, k.activeHcTimeout);
    } else {
      KnownHealthFieldAside(k, r, k.excludedViaImmediateHcFail, q.v != 0);
    }
  }

  lemma KnownHealthFieldAside(k: HealthFields, r: Record, x: bool, y: bool)
    requires HealthStep(V2alpha, k, r) != Unrecognised
    ensures HealthStep(V3, k, r).Updated?
    ensures HealthStep(V3, k.(excludedViaImmediateHcFail := x, activeHcTimeout := y), r) ==
            Updated(HealthStep(V3, k, r).fields.(excludedViaImmediateHcFail := x, activeHcTimeout := y))
  {
    hide HealthStep;
    RecognisedIn(k, r);
    if r.num <= 3 {
      LowHealthFieldAside(k, r, x, y);
    } else {
      HighHealthFieldAside(k, r, x, y);
    }
  }

  lemma RecognisedIn(k: HealthFields, r: Record)
    requires HealthStep(V2alpha, k, r) != Unrecognised
    ensures r.Varint? && 1 <= r.num <= 6
  {
  }

  lemma LowHealthFieldAside(k: HealthFields, r: Record, x: bool, y: bool)
    requires HealthStep(V2alpha, k, r) != Unrecognised && r.Varint? && r.num <= 3
    ensures HealthStep(V3, k, r).Updated?
    ensures HealthStep(V3, k.(excludedViaImmediateHcFail := x, activeHcTimeout := y), r) ==
            Updated(HealthStep(V3, k, r).fields.(excludedViaImmediateHcFail := x, activeHcTimeout := y))
  {
    hide Int32Of;
    match r {
      case Varint(1, _) =>
      case Varint(2, _) =>
      case Varint(3, _) =>
    }
  }

  lemma HighHealthFieldAside(k: HealthFields, r: Record, x: bool, y: bool)
    requires HealthStep(V2alpha, k, r) != Unrecognised && r.Varint? && 4 <= r.num <= 6
    ensures HealthStep(V3, k, r).Updated?
    ensures HealthStep(V3, k.(excludedViaImmediateHcFail := x, activeHcTimeout := y), r) ==
            Updated(HealthStep(V3, k, r).fields.(excludedViaImmediateHcFail := x, activeHcTimeout := y))
  {
    hide Int32Of;
    match r {
      case Varint(4, _) =>
      case Varint(5, _) =>
      case Varint(6, _) =>
    }
  }

  function WithNew(k: HealthFields, q: Record): HealthFields
    requires q.Varint?
  {
    if q.num == 7 then k.(excludedViaImmediateHcFail := q.v != 0) else k.(activeHcTimeout := q.v != 0)
  }

  lemma NewHealthField(k: HealthFields, q: Record)
    ensures HealthDecoder(V2alpha)(k, q) == Unrecognised && HealthDecoder(V3)(k, q).Updated? <==>
            q.Varint? && (q.num == 7 || q.num == 8)
    ensures q.Varint? && (q.num == 7 || q.num == 8) ==> HealthDecoder(V3)(k, q) == Updated(WithNew(k, q))
  {
    hide Int32Of;
  }

  lemma HealthExtends()
    ensures Extends(HealthDecoder(V2alpha), HealthDecoder(V3), SameHealth)
  {
    hide Int32Of, Follows, Commutes;
    HealthFollows();
    HealthCommutes();
  }

  /** What the older reader holds of a health status, and what the newer one has read. */
  ghost predicate HealthTracks(held: HostHealthStatus, read: HostHealthStatus) {
    Tracks(HealthDecoder(V2alpha), HealthDecoder(V3), SameHealth, held, read, held.fields)
  }

  lemma HealthKeepsTrack(held: HostHealthStatus, read: HostHealthStatus, p: seq<byte>)
    requires HealthTracks(held, read) && DecodeInto(HealthDecoder(V3), read, p).Some?
    ensures DecodeInto(HealthDecoder(V2alpha), held, p).Some?
    ensures HealthTracks(DecodeInto(HealthDecoder(V2alpha), held, p).value,
      DecodeInto(HealthDecoder(V3), read, p).value)
  {
    hide DecodeInto, Extends, HealthDecoder, UnknownTo, DecodeTokens;
    HealthExtends();
    var j := KeepsTrackOfBytes(HealthDecoder(V2alpha), HealthDecoder(V3), SameHealth, held, read, held.fields, p);
  }

  lemma HealthReadsTheSame(held: HostHealthStatus, read: HostHealthStatus)
    requires HealthTracks(held, read) && |EncodeHealth(held)| <= MAX_INT
    ensures ReadHealth(V3, EncodeHealth(held)) == Some(read)
  {
    hide DecodeInto, HealthDecoder, UnknownTo, DecodeTokens, Absorb, Flatten, EncodeFields, MergeHealth;
    var k := held.fields;
    NothingUnknown(HealthDecoder(V3));
    HealthAbsorbs(V3, NO_HEALTH, Msg(k, []));
    MergeHealthFromEmpty(k);
    ReadsTheSame(HealthDecoder(V2alpha), HealthDecoder(V3), SameHealth, held, read, NO_HEALTH, k, HealthLayout(k));
  }

  lemma MergeHealthFromEmpty(k: HealthFields)
    ensures MergeHealth(NO_HEALTH, k) == k
  {
  }

  /* ----- HostStatus: no new fields, but a health status that the two hold differently ----- */

  ghost predicate HealthPair(x: Option<HostHealthStatus>, y: Option<HostHealthStatus>) {
    x.Some? == y.Some? && (x.Some? ==> HealthTracks(x.value, y.value))
  }

  ghost predicate SameHost(j: WireHostFields, k: WireHostFields) {
    && j.(healthStatus := k.healthStatus) == k
    && (forall x <- j.stats :: x.Some?)
    && PercentBytesOk(j.successRate) && PercentBytesOk(j.localOriginSuccessRate)
    && HealthPair(j.healthStatus, k.healthStatus)
  }

  lemma NoHealthTracks()
    ensures HealthTracks(Msg(NO_HEALTH, []), Msg(NO_HEALTH, []))
  {
    hide HealthDecoder;
    TracksEmpty(HealthDecoder(V2alpha), HealthDecoder(V3), SameHealth, NO_HEALTH);
  }

  lemma PercentsMerge(x: Option<Bytes>, p: Bytes)
    requires PercentBytesOk(x) && Parse(p).Some?
    ensures PercentBytesOk(MergeOpaque(x, Some(p)))
  {
    hide Parse;
    if x.Some? {
      ParseConcat(x.value, p);
    } else {
      assert [] + p == p;
    }
  }

  lemma HostFollows()
    ensures Follows(HostDecoder(V2alpha), HostDecoder(V3), SameHost)
  {
    hide DecodeInto, HealthTracks, HealthDecoder, Uint32Of, MergeOpaque, Parse, PercentBytesOk;
    forall j, k, r | SameHost(j, k) && HostDecoder(V2alpha)(j, r) != Unrecognised && HostDecoder(V3)(k, r) != Malformed
      ensures HostDecoder(V2alpha)(j, r).Updated? && HostDecoder(V3)(k, r).Updated?
      ensures SameHost(HostDecoder(V2alpha)(j, r).fields, HostDecoder(V3)(k, r).fields)
    {
      if r.Len? && r.num == 3 {
        var none: HostHealthStatus := Msg(NO_HEALTH, []);
        NoHealthTracks();
        HealthKeepsTrack(j.healthStatus.GetOr(none), k.healthStatus.GetOr(none), r.payload);
      } else if r.Len? && (r.num == 4 || r.num == 8) {
        PercentsMerge(j.successRate, r.payload);
        PercentsMerge(j.localOriginSuccessRate, r.payload);
      }
    }
  }

  lemma HostExtends()
    ensures Extends(HostDecoder(V2alpha), HostDecoder(V3), SameHost)
  {
    hide DecodeInto, Follows, SameHost, HealthDecoder, Uint32Of, MergeOpaque;
    HostFollows();
  }

  /**
   * What v3 sees of the known fields of a held host: the fields before and after the health status
   * are as they were.
   */
  lemma HostSeen(j: WireHostFields, k: WireHostFields, unknownFields: seq<byte>)
    requires SameHost(j, k) && |EncodeFields(HostLayout(j), unknownFields)| <= MAX_INT
    ensures Absorb(HostDecoder(V3), NO_HOST, Flatten(HostLayout(j))) == Some(k)
  {
    hide Absorb, Flatten, EncodeFields, EncodeRecords, HostLayout, Advances, HostState, HealthTracks, HostDecoder,
      UnknownTo;
    var fs, bare := HostLayout(j), Msg(j.(healthStatus := None), []);
    var start := NO_HOST.(healthStatus := k.healthStatus);
    HealthDropped(j, unknownFields);
    NothingUnknown(HostDecoder(V3));
    HostFields1(V3, NO_HOST, bare);
    HealthSeen(j, k, unknownFields);
    HostFields4(V3, start, bare);
    HostFields7(V3, start, bare);
    HostStatesMeet(j, k);
    var ks := seq(10,
      i requires 0 <= i => if i <= 2 then HostState(NO_HOST, bare.fields, i) else HostState(start, bare.fields, i));
    AbsorbFields(HostDecoder(V3), fs, ks);
  }

  lemma HealthDropped(j: WireHostFields, unknownFields: seq<byte>)
    requires |EncodeFields(HostLayout(j), unknownFields)| <= MAX_INT
    ensures
      var bare := j.(healthStatus := None);
      && |EncodeFields(HostLayout(bare), [])| <= MAX_INT
      && |HostLayout(bare)| == |HostLayout(j)| == 9
      && forall i | 0 <= i < 9 && i != 2 :: HostLayout(bare)[i] == HostLayout(j)[i]
  {
    hide EncodeRecords, EncodeFields, OptionalField, RepeatedField, VarintField, StringField;
    var bare := HostLayout(j.(healthStatus := None));
    assert bare[2] == [] by { NoRecords(); }
    EncodeNone();
    NoLonger(bare, HostLayout(j), [], unknownFields);
  }

  lemma NoRecords()
    ensures OptionalField(3, MapOption(EncodeHealth, None)) == []
  {
  }

  lemma {:induction false} NoLonger(fs: seq<seq<Record>>, gs: seq<seq<Record>>, xs: seq<byte>, ys: seq<byte>)
    requires |fs| == |gs| && |xs| <= |ys|
    requires forall i | 0 <= i < |fs| :: fs[i] == gs[i] || fs[i] == []
    ensures |EncodeFields(fs, xs)| <= |EncodeFields(gs, ys)|
  {
    hide EncodeRecords;
    EncodeNone();
    if fs != [] {
      assert forall i | 0 <= i < |fs[1..]| :: fs[1..][i] == fs[i + 1] && gs[1..][i] == gs[i + 1];
      NoLonger(fs[1..], gs[1..], xs, ys);
    }
  }

  lemma HealthSeen(j: WireHostFields, k: WireHostFields, unknownFields: seq<byte>)
    requires SameHost(j, k) && |EncodeFields(HostLayout(j), unknownFields)| <= MAX_INT
    ensures
      var bare, start := j.(healthStatus := None), NO_HOST.(healthStatus := k.healthStatus);
      Advances(HostDecoder(V3), HostState(NO_HOST, bare, 2), HostLayout(j)[2], HostState(start, bare, 3))
  {
    hide Absorb, EncodeFields, EncodeRecords, EncodeHealth, DecodeInto, HealthTracks, HealthDecoder, UnknownTo,
      RepeatedField, StringField, VarintField, MergeHealth;
    if j.healthStatus.Some? {
      FieldFits(HostLayout(j), unknownFields, 2);
      OptionalPayloadFits(3, EncodeHealth(j.healthStatus.value));
      HealthReadsTheSame(j.healthStatus.value, k.healthStatus.value);
    }
  }

  lemma StatsFixed(xs: seq<Option<Bytes>>)
    requires forall x <- xs :: x.Some?
    ensures Map(NormaliseStat, xs) == xs
  {
    MapFixed(NormaliseStat, xs);
  }

  lemma HostStatesMeet(j: WireHostFields, k: WireHostFields)
    requires SameHost(j, k)
    ensures
      var bare, start := j.(healthStatus := None), NO_HOST.(healthStatus := k.healthStatus);
      HostState(NO_HOST, bare, 0) == NO_HOST && HostState(start, bare, 9) == k
  {
    hide HealthTracks, HealthPair, MergeHealth, MergeOpaque, NormaliseStat, Map;
    StatsFixed(j.stats);
    OpaqueFromEmpty(j.address);
    OpaqueFromEmpty(j.successRate);
    OpaqueFromEmpty(j.localOriginSuccessRate);
    OpaqueFromEmpty(j.locality);
    assert [] + j.stats == j.stats;
  }

  function HostChanger(c: Carrier): WireHostFields -> WireHostFields {
    k => MapHostFields(c, k)
  }

  lemma HostAside(c: Carrier)
    ensures Aside(HostDecoder(V2alpha), HostDecoder(V3), HostChanger(c))
  {
    hide DecodeInto, HealthDecoder, MapHostFields, Parse, MergeOpaque;
  }

  /** Replacing the children keeps the two views of a host together. */
  lemma SameHostMapped(c: Carrier, j: WireHostFields, k: WireHostFields)
    requires Carries(c) && SameHost(j, k)
    ensures SameHost(MapHostFields(c, j), MapHostFields(c, k))
  {
    hide HealthPair, Parse;
  }

  lemma HostRelayed(c: Carrier, p: Bytes)
    requires Carries(c) && ReadHost(V3, p).Some?
    ensures ReadHost(V2alpha, p).Some? && HostOk(V2alpha, ReadHost(V2alpha, p))
    ensures |EncodeHost(MapHost(c, ReadHost(V2alpha, p)))| <= MAX_INT ==>
      ReadHost(V3, EncodeHost(MapHost(c, ReadHost(V2alpha, p)))) == MapHost(c, ReadHost(V3, p))
  {
    hide DecodeInto, Extends, HostDecoder, HostLayout, UnknownTo, DecodeTokens, EncodeFields, Absorb, Flatten,
      HealthDecoder, MapHostFields, Aside, Carries, Parse;
    HostExtends();
    TracksEmpty(HostDecoder(V2alpha), HostDecoder(V3), SameHost, NO_HOST);
    var j := KeepsTrackOfBytes(
      HostDecoder(V2alpha), HostDecoder(V3), SameHost, Msg(NO_HOST, []), Msg(NO_HOST, []), NO_HOST, p);
    var held := ReadHost(V2alpha, p).value;
    var k := MapHostFields(c, held.fields);
    if |EncodeHost(Some(Msg(k, held.unknownFields)))| <= MAX_INT {
      SameHostMapped(c, held.fields, j);
      HostSeen(k, MapHostFields(c, j), held.unknownFields);
      HostNoGroups(k);
      HostAside(c);
      ReadsChanged(HostDecoder(V2alpha), HostDecoder(V3), SameHost, held, ReadHost(V3, p).value, NO_HOST, j,
                   HostChanger(c), HostLayout(k));
    }
  }

  /* ----- ClusterStatus: fields 6 to 8 are new, and the hosts are held differently ----- */

  /** A host as the relay holds it and as v3 has read it; written out, v3 reads it with its children replaced. */
  ghost predicate HostPair(c: Carrier, x: Option<WireHost>, y: Option<WireHost>) {
    && x.Some? && y.Some? && HostOk(V2alpha, x)
    && (|EncodeHost(MapHost(c, x))| <= MAX_INT ==> ReadHost(V3, EncodeHost(MapHost(c, x))) == MapHost(c, y))
  }

  ghost function HostPairs(c: Carrier): (Option<WireHost>, Option<WireHost>) -> bool {
    (x, y) => HostPair(c, x, y)
  }

  ghost predicate SameCluster(c: Carrier, j: WireClusterFields, k: WireClusterFields) {
    && j.(hostStatuses := k.hostStatuses) == k
    && j.circuitBreakers.None? && j.observabilityName == [] && j.edsServiceName == []
    && PercentBytesOk(j.successRateEjectionThreshold) && PercentBytesOk(j.localOriginSuccessRateEjectionThreshold)
    && Pairwise(HostPairs(c), j.hostStatuses, k.hostStatuses)
  }

  ghost function SameClusters(c: Carrier): (WireClusterFields, WireClusterFields) -> bool {
    (j, k) => SameCluster(c, j, k)
  }

  lemma ClusterFollows(c: Carrier)
    requires Carries(c)
    ensures Follows(ClusterDecoder(V2alpha), ClusterDecoder(V3), SameClusters(c))
  {
    hide DecodeInto, HostOk, EncodeHost, HostDecoder, MergeOpaque, Parse, PercentBytesOk, MapHost, Carries;
    var older, newer := ClusterDecoder(V2alpha), ClusterDecoder(V3);
    forall j, k, r | SameCluster(c, j, k) && older(j, r) != Unrecognised && newer(k, r) != Malformed
      ensures older(j, r).Updated? && newer(k, r).Updated? && SameCluster(c, older(j, r).fields, newer(k, r).fields)
    {
      if r.Len? && r.num == 4 {
        HostRelayed(c, r.payload);
      } else if r.Len? && (r.num == 3 || r.num == 5) {
        PercentsMerge(j.successRateEjectionThreshold, r.payload);
        PercentsMerge(j.localOriginSuccessRateEjectionThreshold, r.payload);
      }
    }
  }

  lemma ClusterExtends(c: Carrier)
    requires Carries(c)
    ensures Extends(ClusterDecoder(V2alpha), ClusterDecoder(V3), SameClusters(c))
  {
    hide DecodeInto, Follows, SameCluster, HostDecoder, MergeOpaque, Carries, Parse;
    ClusterFollows(c);
  }

  function ClusterChanger(c: Carrier): WireClusterFields -> WireClusterFields {
    k => MapClusterFields(c, k)
  }

  lemma ClusterAside(c: Carrier)
    requires Carries(c)
    ensures Aside(ClusterDecoder(V2alpha), ClusterDecoder(V3), ClusterChanger(c))
  {
    hide DecodeInto, HostDecoder, Parse, MapHost, HostMapper, Map;
  }

  /** What v3 sees of the known fields of a held cluster, its children replaced. */
  lemma ClusterSeen(c: Carrier, j: WireClusterFields, k: WireClusterFields, unknownFields: Bytes)
    requires Carries(c) && SameCluster(c, j, k)
    requires |EncodeFields(ClusterLayout(MapClusterFields(c, j)), unknownFields)| <= MAX_INT
    ensures Absorb(ClusterDecoder(V3), NO_CLUSTER, Flatten(ClusterLayout(MapClusterFields(c, j)))) ==
            Some(MapClusterFields(c, k))
  {
    hide Absorb, Flatten, EncodeFields, EncodeRecords, ClusterLayout, Advances, ClusterState, HostPair, ClusterDecoder,
      UnknownTo, HostOk, MapHost, Parse;
    var j', k' := MapClusterFields(c, j), MapClusterFields(c, k);
    var fs, bare := ClusterLayout(j'), Msg(j'.(hostStatuses := []), []);
    var start := NO_CLUSTER.(hostStatuses := k'.hostStatuses);
    HostsDropped(j', unknownFields);
    NothingUnknown(ClusterDecoder(V3));
    ClusterFields1(V3, NO_CLUSTER, bare);
    HostsSeen(c, j, k, unknownFields);
    ClusterFields5(V3, start, bare);
    ClusterStatesMeet(j', k');
    var ks := seq(9, i requires 0 <= i =>
      if i <= 3 then ClusterState(NO_CLUSTER, bare.fields, i) else ClusterState(start, bare.fields, i));
    AbsorbFields(ClusterDecoder(V3), fs, ks);
  }

  lemma HostsDropped(j: WireClusterFields, unknownFields: seq<byte>)
    requires |EncodeFields(ClusterLayout(j), unknownFields)| <= MAX_INT
    ensures
      var bare := j.(hostStatuses := []);
      && |EncodeFields(ClusterLayout(bare), [])| <= MAX_INT
      && |ClusterLayout(bare)| == |ClusterLayout(j)| == 8
      && forall i | 0 <= i < 8 && i != 3 :: ClusterLayout(bare)[i] == ClusterLayout(j)[i]
  {
    hide EncodeRecords, EncodeFields, OptionalField, BoolField, StringField;
    var bare := ClusterLayout(j.(hostStatuses := []));
    assert bare[3] == [];
    EncodeNone();
    NoLonger(bare, ClusterLayout(j), [], unknownFields);
  }

  lemma HostsSeen(c: Carrier, j: WireClusterFields, k: WireClusterFields, unknownFields: Bytes)
    requires SameCluster(c, j, k)
    requires |EncodeFields(ClusterLayout(MapClusterFields(c, j)), unknownFields)| <= MAX_INT
    ensures
      var j', k' := MapClusterFields(c, j), MapClusterFields(c, k);
      var bare, start := j'.(hostStatuses := []), NO_CLUSTER.(hostStatuses := k'.hostStatuses);
      Advances(ClusterDecoder(V3), ClusterState(NO_CLUSTER, bare, 3), ClusterLayout(j')[3],
        ClusterState(start, bare, 4))
  {
    hide Absorb, EncodeFields, EncodeRecords, EncodeHost, RepeatedField, StringField, BoolField, HostPair,
      ClusterDecoder, MapHost, PercentBytesOk;
    var j', k' := MapClusterFields(c, j), MapClusterFields(c, k);
    FieldFits(ClusterLayout(j'), unknownFields, 3);
    HostListSeen(c, ClusterState(NO_CLUSTER, j'.(hostStatuses := []), 3), j.hostStatuses, k.hostStatuses);
    assert k'.hostStatuses + [] == k'.hostStatuses;
  }

  lemma ClusterTakesHost(k: WireClusterFields, p: Bytes)
    requires ReadHost(V3, p).Some?
    ensures ClusterDecoder(V3)(k, Len(4, p)) == Updated(k.(hostStatuses := k.hostStatuses + [ReadHost(V3, p)]))
  {
    hide DecodeInto, HostDecoder;
  }

  lemma HostListSeen(c: Carrier, before: WireClusterFields, xs: seq<Option<WireHost>>, ys: seq<Option<WireHost>>)
    requires Pairwise(HostPairs(c), xs, ys) && before.hostStatuses == []
    requires |EncodeRecords(RepeatedField(4, Map(EncodeHost, Map(HostMapper(c), xs))))| <= MAX_INT
    ensures Absorb(ClusterDecoder(V3), before, RepeatedField(4, Map(EncodeHost, Map(HostMapper(c), xs)))) ==
            Some(before.(hostStatuses := Map(HostMapper(c), ys)))
  {
    hide Absorb, EncodeRecords, EncodeHost, RepeatedField, HostOk, ReadHost, ClusterDecoder, MapHost;
    var put := (zs: seq<Option<WireHost>>) => before.(hostStatuses := zs);
    var xs', ys' := Map(HostMapper(c), xs), Map(HostMapper(c), ys);
    forall i, zs | 0 <= i < |xs'|
      ensures ClusterDecoder(V3)(put(zs), Len(4, EncodeHost(xs'[i]))) == Updated(put(zs + [ys'[i]]))
    {
      RepeatedPayloadFits(4, Map(EncodeHost, xs'), i);
      assert HostPairs(c)(xs[i], ys[i]);
      assert ys'[i].Some? by { MappedHost(c, ys[i]); }
      ClusterTakesHost(put(zs), EncodeHost(xs'[i]));
    }
    AbsorbElements(ClusterDecoder(V3), put, [], 4, xs', ys', EncodeHost);
    assert [] + ys' == ys' && put([]) == before;
  }

  lemma MappedHost(c: Carrier, y: Option<WireHost>)
    requires y.Some?
    ensures MapHost(c, y).Some?
  {
  }

  lemma ClusterStatesMeet(j: WireClusterFields, k: WireClusterFields)
    requires j.(hostStatuses := k.hostStatuses) == k
    requires j.circuitBreakers.None? && j.observabilityName == [] && j.edsServiceName == []
    ensures
      var bare, start := j.(hostStatuses := []), NO_CLUSTER.(hostStatuses := k.hostStatuses);
      ClusterState(NO_CLUSTER, bare, 0) == NO_CLUSTER && ClusterState(start, bare, 8) == k
  {
    hide MergeOpaque;
    OpaqueFromEmpty(j.successRateEjectionThreshold);
    OpaqueFromEmpty(j.localOriginSuccessRateEjectionThreshold);
    OpaqueFromEmpty(j.circuitBreakers);
    assert k.hostStatuses + [] == k.hostStatuses;
  }

  lemma ClusterRelayed(c: Carrier, p: Bytes)
    requires Carries(c) && ReadCluster(V3, p).Some?
    ensures ReadCluster(V2alpha, p).Some? && ClusterOk(V2alpha, ReadCluster(V2alpha, p))
    ensures |EncodeCluster(MapCluster(c, ReadCluster(V2alpha, p)))| <= MAX_INT ==>
      ReadCluster(V3, EncodeCluster(MapCluster(c, ReadCluster(V2alpha, p)))) == MapCluster(c, ReadCluster(V3, p))
  {
    hide DecodeInto, Extends, ClusterDecoder, ClusterLayout, UnknownTo, DecodeTokens, EncodeFields, Absorb, Flatten,
      HostOk, EncodeHost, ReadHost, Aside, Carries, MapClusterFields, Parse;
    ClusterExtends(c);
    TracksEmpty(ClusterDecoder(V2alpha), ClusterDecoder(V3), SameClusters(c), NO_CLUSTER);
    var j := KeepsTrackOfBytes(
      ClusterDecoder(V2alpha), ClusterDecoder(V3), SameClusters(c), Msg(NO_CLUSTER, []), Msg(NO_CLUSTER, []),
        NO_CLUSTER, p);
    var held := ReadCluster(V2alpha, p).value;
    var k := MapClusterFields(c, held.fields);
    if |EncodeCluster(Some(Msg(k, held.unknownFields)))| <= MAX_INT {
      ClusterSeen(c, held.fields, j, held.unknownFields);
      ClusterNoGroups(k);
      ClusterAside(c);
      ReadsChanged(ClusterDecoder(V2alpha), ClusterDecoder(V3), SameClusters(c), held, ReadCluster(V3, p).value,
                   NO_CLUSTER, j, ClusterChanger(c), ClusterLayout(k));
    }
  }

  /* ----- Clusters ----- */

  ghost predicate ClusterPair(c: Carrier, x: Option<WireCluster>, y: Option<WireCluster>) {
    && x.Some? && y.Some? && ClusterOk(V2alpha, x)
    && (|EncodeCluster(MapCluster(c, x))| <= MAX_INT ==>
          ReadCluster(V3, EncodeCluster(MapCluster(c, x))) == MapCluster(c, y))
  }

  ghost function ClusterPairs(c: Carrier): (Option<WireCluster>, Option<WireCluster>) -> bool {
    (x, y) => ClusterPair(c, x, y)
  }

  ghost predicate SameTree(c: Carrier, j: WireClustersFields, k: WireClustersFields) {
    Pairwise(ClusterPairs(c), j.clusterStatuses, k.clusterStatuses)
  }

  ghost function SameTrees(c: Carrier): (WireClustersFields, WireClustersFields) -> bool {
    (j, k) => SameTree(c, j, k)
  }

  function MapTreeFields(c: Carrier, k: WireClustersFields): WireClustersFields {
    ClustersFields(Map(ClusterMapper(c), k.clusterStatuses))
  }

  function TreeChanger(c: Carrier): WireClustersFields -> WireClustersFields {
    k => MapTreeFields(c, k)
  }

  lemma ClustersExtend(c: Carrier)
    requires Carries(c)
    ensures Extends(ClustersDecoder(V2alpha), ClustersDecoder(V3), SameTrees(c))
  {
    hide DecodeInto, ClusterOk, EncodeCluster, ClusterDecoder, MapCluster, Carries;
    var older, newer := ClustersDecoder(V2alpha), ClustersDecoder(V3);
    forall j, k, r | SameTree(c, j, k) && older(j, r) != Unrecognised && newer(k, r) != Malformed
      ensures older(j, r).Updated? && newer(k, r).Updated? && SameTree(c, older(j, r).fields, newer(k, r).fields)
    {
      ClusterRelayed(c, r.payload);
    }
  }

  lemma ClustersSeen(c: Carrier, j: WireClustersFields, k: WireClustersFields, unknownFields: Bytes)
    requires SameTree(c, j, k) && |EncodeFields(ClustersLayout(MapTreeFields(c, j)), unknownFields)| <= MAX_INT
    ensures Absorb(ClustersDecoder(V3), NO_CLUSTERS, Flatten(ClustersLayout(MapTreeFields(c, j)))) ==
            Some(MapTreeFields(c, k))
  {
    hide EncodeRecords, EncodeFields, DecodeInto, Absorb, Flatten, RepeatedField, EncodeCluster, ClusterOk, MapCluster;
    var xs, ys := Map(ClusterMapper(c), j.clusterStatuses), Map(ClusterMapper(c), k.clusterStatuses);
    var fs, step := ClustersLayout(ClustersFields(xs)), ClustersDecoder(V3);
    FieldFits(fs, unknownFields, 0);
    var put := (zs: seq<Option<WireCluster>>) => ClustersFields(zs);
    forall i, zs | 0 <= i < |xs| ensures step(put(zs), Len(1, EncodeCluster(xs[i]))) == Updated(put(zs + [ys[i]])) {
      RepeatedPayloadFits(1, Map(EncodeCluster, xs), i);
      assert ClusterPairs(c)(j.clusterStatuses[i], k.clusterStatuses[i]);
      MappedCluster(c, k.clusterStatuses[i]);
    }
    AbsorbElements(step, put, [], 1, xs, ys, EncodeCluster);
    assert [] + ys == ys;
    AbsorbFields(step, fs, [NO_CLUSTERS, ClustersFields(ys)]);
  }

  lemma MappedCluster(c: Carrier, y: Option<WireCluster>)
    requires y.Some?
    ensures MapCluster(c, y).Some?
  {
  }

  lemma ClustersAside(c: Carrier)
    ensures Aside(ClustersDecoder(V2alpha), ClustersDecoder(V3), TreeChanger(c))
  {
    hide DecodeInto, ClusterDecoder, MapCluster;
  }

  /**
   * Whatever v3 accepts, v2alpha accepts and can write out again. What v3 then reads is what it reads
   * in the original, however the records were ordered, split, repeated or encoded, except that every
   * child has gone through the relay's codec for it.
   */
  lemma RelayReplacesChildren(c: Carrier, bs: Bytes)
    requires Carries(c) && DecodeClusters(V3, bs).Some?
    ensures DecodeClusters(V2alpha, bs).Some? && ClustersOk(V2alpha, DecodeClusters(V2alpha, bs))
    ensures |Relayed(c, bs)| <= MAX_INT ==>
      DecodeClusters(V3, Relayed(c, bs)) == Some(MapClusters(c, DecodeClusters(V3, bs).value))
  {
    hide DecodeInto, Extends, ClustersDecoder, UnknownTo, ClusterOk, DecodeTokens, EncodeFields, Absorb, Flatten,
      EncodeCluster, ReadCluster, Aside, Carries, MapCluster;
    ClustersExtend(c);
    TracksEmpty(ClustersDecoder(V2alpha), ClustersDecoder(V3), SameTrees(c), NO_CLUSTERS);
    var j := KeepsTrackOfBytes(ClustersDecoder(V2alpha), ClustersDecoder(V3), SameTrees(c),
                               Msg(NO_CLUSTERS, []), Msg(NO_CLUSTERS, []), NO_CLUSTERS, bs);
    var held := DecodeClusters(V2alpha, bs).value;
    if |Relayed(c, bs)| <= MAX_INT {
      var k := MapTreeFields(c, held.fields);
      ClustersSeen(c, held.fields, j, held.unknownFields);
      RepeatedNoGroups(1, Map(EncodeCluster, k.clusterStatuses));
      ClustersAside(c);
      ReadsChanged(ClustersDecoder(V2alpha), ClustersDecoder(V3), SameTrees(c), held, DecodeClusters(V3, bs).value,
                   NO_CLUSTERS, j, TreeChanger(c), ClustersLayout(k));
    }
  }

  /**
   * So the relay preserves the meaning of a message, as `see` gives it to the bytes of each child,
   * exactly when each child in it means to v3 what the relay's codec makes of it.
   */
  lemma RelayPreservesMeaning<P, O>(c: Carrier, see: Children<Bytes, Bytes, P, O>, bs: Bytes)
    requires Carries(c) && DecodeClusters(V3, bs).Some? && |Relayed(c, bs)| <= MAX_INT
    ensures DecodeClusters(V3, Relayed(c, bs)).Some?
    ensures
      var before, after := DecodeClusters(V3, bs).value, DecodeClusters(V3, Relayed(c, bs)).value;
      MapClusters(see, after) == MapClusters(see, before) <==> TreeKept(c, see, before)
  {
    hide Relayed, DecodeClusters, MapClusters, TreeKept, Carries;
    RelayReplacesChildren(c, bs);
    ClustersUnnoticed(c, see, DecodeClusters(V3, bs).value);
  }

  /** What a v2alpha peer holds of bytes that v3 accepts is a well-formed message of its own. */
  lemma HeldOk(bs: Bytes)
    requires DecodeClusters(V3, bs).Some?
    ensures DecodeClusters(V2alpha, bs).Some? && ClustersOk(V2alpha, DecodeClusters(V2alpha, bs))
  {
    hide DecodeClusters, ClustersOk, Parse, Relayed;
    RelayReplacesChildren(Unchanged(), bs);
  }
}
