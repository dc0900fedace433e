/**
 * Clusters > ClusterStatus > HostStatus > HostHealthStatus. Percents have type P, and the other
 * children that belong to other packages (Address, Locality, CircuitBreakers, SimpleMetric) type O;
 * on the wire both are byte strings. The v2alpha messages lack fields 6 to 8 of ClusterStatus and
 * fields 7 and 8 of HostHealthStatus.
 */
module Clusters {
  import opened GoTypes
  import opened Wire
  import opened Messages

  datatype HealthFields = HealthFields(
    failedActiveHealthCheck: bool,
    failedOutlierCheck: bool,
    edsHealthStatus: int32,
    failedActiveDegradedCheck: bool,
    pendingDynamicRemoval: bool,
    pendingActiveHc: bool,
    excludedViaImmediateHcFail: bool,
    activeHcTimeout: bool)
  type HostHealthStatus = Msg<HealthFields>

  datatype HostFields<P, O> = HostFields(
    address: Option<O>,
    stats: seq<Option<O>>,
    healthStatus: Option<HostHealthStatus>,
    successRate: Option<P>,
    weight: uint32,
    hostname: seq<byte>,
    priority: uint32,
    localOriginSuccessRate: Option<P>,
    locality: Option<O>)
  type HostStatus<P, O> = Msg<HostFields<P, O>>

  datatype ClusterFields<P, O> = ClusterFields(
    name: seq<byte>,
    addedViaApi: bool,
    successRateEjectionThreshold: Option<P>,
    hostStatuses: seq<Option<HostStatus<P, O>>>,
    localOriginSuccessRateEjectionThreshold: Option<P>,
    circuitBreakers: Option<O>,
    observabilityName: seq<byte>,
    edsServiceName: seq<byte>)
  type ClusterStatus<P, O> = Msg<ClusterFields<P, O>>

  datatype ClustersFields<P, O> = ClustersFields(clusterStatuses: seq<Option<ClusterStatus<P, O>>>)
  type ClustersMsg<P, O> = Msg<ClustersFields<P, O>>

  type Bytes = seq<byte>
  type WireHostFields = HostFields<Bytes, Bytes>
  type WireHost = HostStatus<Bytes, Bytes>
  type WireClusterFields = ClusterFields<Bytes, Bytes>
  type WireCluster = ClusterStatus<Bytes, Bytes>
  type WireClustersFields = ClustersFields<Bytes, Bytes>
  type WireClusters = ClustersMsg<Bytes, Bytes>

  const NO_HEALTH: HealthFields := HealthFields(false, false, 0, false, false, false, false, false)
  const NO_HOST: WireHostFields := HostFields(None, [], None, None, 0, [], 0, None, None)
  const NO_CLUSTER: WireClusterFields := ClusterFields([], false, None, [], None, None, [], [])
  const NO_CLUSTERS: WireClustersFields := ClustersFields([])

  /* ----- a tree with its children replaced, kind by kind ----- */

  datatype Children<!P, !O, !Q, !R> = Children(
    percent: P -> Q, address: O -> R, stat: O -> R, locality: O -> R, circuitBreakers: O -> R)

  function StatMapper<P, O, Q, R>(c: Children<P, O, Q, R>): Option<O> -> Option<R> {
    x => MapOption(c.stat, x)
  }

  function MapHostFields<P, O, Q, R>(c: Children<P, O, Q, R>, k: HostFields<P, O>): HostFields<Q, R> {
    HostFields(
      MapOption(c.address, k.address),
      Map(StatMapper(c), k.stats),
      k.healthStatus,
      MapOption(c.percent, k.successRate),
      k.weight,
      k.hostname,
      k.priority,
      MapOption(c.percent, k.localOriginSuccessRate),
      MapOption(c.locality, k.locality))
  }

  function MapHost<P, O, Q, R>(c: Children<P, O, Q, R>, m: Option<HostStatus<P, O>>): Option<HostStatus<Q, R>> {
    if m.None? then None else Some(Msg(MapHostFields(c, m.value.fields), m.value.unknownFields))
  }

  function HostMapper<P, O, Q, R>(c: Children<P, O, Q, R>): Option<HostStatus<P, O>> -> Option<HostStatus<Q, R>> {
    x => MapHost(c, x)
  }

  function MapClusterFields<P, O, Q, R>(c: Children<P, O, Q, R>, k: ClusterFields<P, O>): ClusterFields<Q, R> {
    ClusterFields(
      k.name,
      k.addedViaApi,
      MapOption(c.percent, k.successRateEjectionThreshold),
      Map(HostMapper(c), k.hostStatuses),
      MapOption(c.percent, k.localOriginSuccessRateEjectionThreshold),
      MapOption(c.circuitBreakers, k.circuitBreakers),
      k.observabilityName,
      k.edsServiceName)
  }

  function MapCluster<P, O, Q, R>(c: Children<P, O, Q, R>,
      m: Option<ClusterStatus<P, O>>): Option<ClusterStatus<Q, R>>
  {
    if m.None? then None else Some(Msg(MapClusterFields(c, m.value.fields), m.value.unknownFields))
  }

  function ClusterMapper<P, O, Q, R>(c: Children<P, O, Q, R>):
    Option<ClusterStatus<P, O>> -> Option<ClusterStatus<Q, R>>
  {
    x => MapCluster(c, x)
  }

  function MapClusters<P, O, Q, R>(c: Children<P, O, Q, R>, m: ClustersMsg<P, O>): ClustersMsg<Q, R> {
    Msg(ClustersFields(Map(ClusterMapper(c), m.fields.clusterStatuses)), m.unknownFields)
  }

  /* ----- forward encoding ----- */

  function HealthLayout(k: HealthFields): seq<seq<Record>> {
    [ BoolField(1, k.failedActiveHealthCheck),
      BoolField(2, k.failedOutlierCheck),
      VarintField(3, Uint64Of(k.edsHealthStatus)),
      BoolField(4, k.failedActiveDegradedCheck),
      BoolField(5, k.pendingDynamicRemoval),
      BoolField(6, k.pendingActiveHc),
      BoolField(7, k.excludedViaImmediateHcFail),
      BoolField(8, k.activeHcTimeout) ]
  }

  function EncodeHealth(m: HostHealthStatus): seq<byte> {
    EncodeFields(HealthLayout(m.fields), m.unknownFields)
  }

  function EncodeHealthOrNil(m: Option<HostHealthStatus>): seq<byte> {
    if m.None? then [] else EncodeHealth(m.value)
  }

  function StatBytes(x: Option<Bytes>): Bytes {
    x.GetOr([])
  }

  function HostLayout(k: WireHostFields): seq<seq<Record>> {
    [ OptionalField(1, k.address),
      RepeatedField(2, Map(StatBytes, k.stats)),
      OptionalField(3, MapOption(EncodeHealth, k.healthStatus)),
      OptionalField(4, k.successRate),
      VarintField(5, k.weight),
      StringField(6, k.hostname),
      VarintField(7, k.priority),
      OptionalField(8, k.localOriginSuccessRate),
      OptionalField(9, k.locality) ]
  }

  function EncodeHost(m: Option<WireHost>): seq<byte> {
    if m.None? then [] else EncodeFields(HostLayout(m.value.fields), m.value.unknownFields)
  }

  function ClusterLayout(k: WireClusterFields): seq<seq<Record>> {
    [ StringField(1, k.name),
      BoolField(2, k.addedViaApi),
      OptionalField(3, k.successRateEjectionThreshold),
      RepeatedField(4, Map(EncodeHost, k.hostStatuses)),
      OptionalField(5, k.localOriginSuccessRateEjectionThreshold),
      OptionalField(6, k.circuitBreakers),
      StringField(7, k.observabilityName),
      StringField(8, k.edsServiceName) ]
  }

  function EncodeCluster(m: Option<WireCluster>): seq<byte> {
    if m.None? then [] else EncodeFields(ClusterLayout(m.value.fields), m.value.unknownFields)
  }

  function ClustersLayout(k: WireClustersFields): seq<seq<Record>> {
    [RepeatedField(1, Map(EncodeCluster, k.clusterStatuses))]
  }

  function EncodeClusters(m: Option<WireClusters>): seq<byte> {
    if m.None? then [] else EncodeFields(ClustersLayout(m.value.fields), m.value.unknownFields)
  }

  /* ----- the specification decoder: every occurrence of a Percent must itself be a sequence of records ----- */

  function HealthStep(s: Schema, k: HealthFields, r: Record): Outcome<HealthFields> {
    match r
    case Varint(1, v) => Updated(k.(failedActiveHealthCheck := v != 0))
    case Varint(2, v) => Updated(k.(failedOutlierCheck := v != 0))
    case Varint(3, v) => Updated(k.(edsHealthStatus := Int32Of(v)))
    case Varint(4, v) => Updated(k.(failedActiveDegradedCheck := v != 0))
    case Varint(5, v) => Updated(k.(pendingDynamicRemoval := v != 0))
    case Varint(6, v) => Updated(k.(pendingActiveHc := v != 0))
    case Varint(7, v) => if s.V2alpha? then Unrecognised else Updated(k.(excludedViaImmediateHcFail := v != 0))
    case Varint(8, v) => if s.V2alpha? then Unrecognised else Updated(k.(activeHcTimeout := v != 0))
    case _ => Unrecognised
  }

  function HealthDecoder(s: Schema): (HealthFields, Record) -> Outcome<HealthFields> {
    (k, r) => HealthStep(s, k, r)
  }

  function HostStep(s: Schema, k: WireHostFields, r: Record): Outcome<WireHostFields> {
    match r
    case Len(1, p) => Updated(k.(address := MergeOpaque(k.address, Some(p))))
    case Len(2, p) => Updated(k.(stats := k.stats + [Some(p)]))
    case Len(3, p) =>
      (match DecodeInto(HealthDecoder(s), k.healthStatus.GetOr(Msg(NO_HEALTH, [])), p)
       case Some(x) => Updated(k.(healthStatus := Some(x)))
       case None => Malformed)
    case Len(4, p) =>
      if Parse(p).None? then Malformed else Updated(k.(successRate := MergeOpaque(k.successRate, Some(p))))
    case Varint(5, v) => Updated(k.(weight := Uint32Of(v)))
    case Len(6, p) => Updated(k.(hostname := p))
    case Varint(7, v) => Updated(k.(priority := Uint32Of(v)))
    case Len(8, p) =>
      if Parse(p).None? then Malformed
      else Updated(k.(localOriginSuccessRate := MergeOpaque(k.localOriginSuccessRate, Some(p))))
    case Len(9, p) => Updated(k.(locality := MergeOpaque(k.locality, Some(p))))
    case _ => Unrecognised
  }

  function HostDecoder(s: Schema): (WireHostFields, Record) -> Outcome<WireHostFields> {
    (k, r) => HostStep(s, k, r)
  }

  function ClusterStep(s: Schema, k: WireClusterFields, r: Record): Outcome<WireClusterFields> {
    match r
    case Len(1, p) => Updated(k.(name := p))
    case Varint(2, v) => Updated(k.(addedViaApi := v != 0))
    case Len(3, p) =>
      if Parse(p).None? then Malformed
      else Updated(k.(successRateEjectionThreshold := MergeOpaque(k.successRateEjectionThreshold, Some(p))))
    case Len(4, p) =>
      (match DecodeInto(HostDecoder(s), Msg(NO_HOST, []), p)
       case Some(x) => Updated(k.(hostStatuses := k.hostStatuses + [Some(x)]))
       case None => Malformed)
    case Len(5, p) =>
      if Parse(p).None? then Malformed
      else
        Updated(k.(localOriginSuccessRateEjectionThreshold :=
          MergeOpaque(k.localOriginSuccessRateEjectionThreshold, Some(p))))
    case Len(6, p) =>
      if s.V2alpha? then Unrecognised else Updated(k.(circuitBreakers := MergeOpaque(k.circuitBreakers, Some(p))))
    case Len(7, p) => if s.V2alpha? then Unrecognised else Updated(k.(observabilityName := p))
    case Len(8, p) => if s.V2alpha? then Unrecognised else Updated(k.(edsServiceName := p))
    case _ => Unrecognised
  }

  function ClusterDecoder(s: Schema): (WireClusterFields, Record) -> Outcome<WireClusterFields> {
    (k, r) => ClusterStep(s, k, r)
  }

  function ClustersStep(s: Schema, k: WireClustersFields, r: Record): Outcome<WireClustersFields> {
    match r
    case Len(1, p) =>
      (match DecodeInto(ClusterDecoder(s), Msg(NO_CLUSTER, []), p)
       case Some(x) => Updated(k.(clusterStatuses := k.clusterStatuses + [Some(x)]))
       case None => Malformed)
    case _ => Unrecognised
  }

  function ClustersDecoder(s: Schema): (WireClustersFields, Record) -> Outcome<WireClustersFields> {
    (k, r) => ClustersStep(s, k, r)
  }

  function DecodeClusters(s: Schema, bs: seq<byte>): Option<WireClusters> {
    DecodeInto(ClustersDecoder(s), Msg(NO_CLUSTERS, []), bs)
  }

  /* ----- what survives the wire, and merging ----- */

  function NormaliseStat(x: Option<Bytes>): Option<Bytes> {
    Some(x.GetOr([]))
  }

  function NormaliseHost(m: Option<WireHost>): Option<WireHost> {
    var d := m.GetOr(Msg(NO_HOST, []));
    Some(d.(fields := d.fields.(stats := Map(NormaliseStat, d.fields.stats))))
  }

  function NormaliseCluster(m: Option<WireCluster>): Option<WireCluster> {
    var d := m.GetOr(Msg(NO_CLUSTER, []));
    Some(d.(fields := d.fields.(hostStatuses := Map(NormaliseHost, d.fields.hostStatuses))))
  }

  function NormaliseClusters(m: Option<WireClusters>): WireClusters {
    var d := m.GetOr(Msg(NO_CLUSTERS, []));
    d.(fields := ClustersFields(Map(NormaliseCluster, d.fields.clusterStatuses)))
  }

  function MergeHealth(a: HealthFields, b: HealthFields): HealthFields {
    HealthFields(
      a.failedActiveHealthCheck || b.failedActiveHealthCheck,
      a.failedOutlierCheck || b.failedOutlierCheck,
      LastNonDefault(0, a.edsHealthStatus, b.edsHealthStatus),
      a.failedActiveDegradedCheck || b.failedActiveDegradedCheck,
      a.pendingDynamicRemoval || b.pendingDynamicRemoval,
      a.pendingActiveHc || b.pendingActiveHc,
      a.excludedViaImmediateHcFail || b.excludedViaImmediateHcFail,
      a.activeHcTimeout || b.activeHcTimeout)
  }

  function MergeHost(a: WireHostFields, b: WireHostFields): WireHostFields {
    HostFields(
      MergeOpaque(a.address, b.address),
      a.stats + Map(NormaliseStat, b.stats),
      MergeOptional(MergeHealth, NO_HEALTH, a.healthStatus, b.healthStatus),
      MergeOpaque(a.successRate, b.successRate),
      LastNonDefault(0, a.weight, b.weight),
      LastNonDefault([], a.hostname, b.hostname),
      LastNonDefault(0, a.priority, b.priority),
      MergeOpaque(a.localOriginSuccessRate, b.localOriginSuccessRate),
      MergeOpaque(a.locality, b.locality))
  }

  function MergeCluster(a: WireClusterFields, b: WireClusterFields): WireClusterFields {
    ClusterFields(
      LastNonDefault([], a.name, b.name),
      a.addedViaApi || b.addedViaApi,
      MergeOpaque(a.successRateEjectionThreshold, b.successRateEjectionThreshold),
      a.hostStatuses + Map(NormaliseHost, b.hostStatuses),
      MergeOpaque(a.localOriginSuccessRateEjectionThreshold, b.localOriginSuccessRateEjectionThreshold),
      MergeOpaque(a.circuitBreakers, b.circuitBreakers),
      LastNonDefault([], a.observabilityName, b.observabilityName),
      LastNonDefault([], a.edsServiceName, b.edsServiceName))
  }

  function MergeClusters(a: WireClustersFields, b: WireClustersFields): WireClustersFields {
    ClustersFields(a.clusterStatuses + Map(NormaliseCluster, b.clusterStatuses))
  }

  /* ----- messages of a schema ----- */

  ghost predicate HealthOk(s: Schema, m: Option<HostHealthStatus>) {
    m.Some? ==>
      && UnknownTo(HealthDecoder(s), m.value.unknownFields)
      && (s.V2alpha? ==> !m.value.fields.excludedViaImmediateHcFail && !m.value.fields.activeHcTimeout)
  }

  predicate PercentBytesOk(x: Option<Bytes>) {
    x.Some? ==> Parse(x.value).Some?
  }

  ghost predicate HostOk(s: Schema, m: Option<WireHost>) {
    m.Some? ==>
      && UnknownTo(HostDecoder(s), m.value.unknownFields)
      && HealthOk(s, m.value.fields.healthStatus)
      && PercentBytesOk(m.value.fields.successRate) && PercentBytesOk(m.value.fields.localOriginSuccessRate)
  }

  ghost predicate ClusterOk(s: Schema, m: Option<WireCluster>) {
    m.Some? ==>
      && UnknownTo(ClusterDecoder(s), m.value.unknownFields)
      && (forall x <- m.value.fields.hostStatuses :: HostOk(s, x))
      && PercentBytesOk(m.value.fields.successRateEjectionThreshold)
      && PercentBytesOk(m.value.fields.localOriginSuccessRateEjectionThreshold)
      && (s.V2alpha? ==>
            && m.value.fields.circuitBreakers.None?
            && m.value.fields.observabilityName == [] && m.value.fields.edsServiceName == [])
  }

  ghost predicate ClustersOk(s: Schema, m: Option<WireClusters>) {
    m.Some? ==>
      && UnknownTo(ClustersDecoder(s), m.value.unknownFields)
      && (forall x <- m.value.fields.clusterStatuses :: ClusterOk(s, x))
  }
}
