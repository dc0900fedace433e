/**
 * The clusters tree with its Percents as messages instead of byte strings; both schemas hold the
 * same Percent, one fixed64 field. The laws of the tree are here about what is read, and so about
 * values: negative zero is not written, and a later zero does not replace an earlier value.
 */
module ClustersPercents {
  import opened GoTypes
  import opened Wire
  import opened Messages
  import opened Clusters
  import opened ClustersChildren
  import opened ClustersLaws
  import opened EnvoyType

  type Host = HostStatus<Percent, Bytes>
  type Cluster = ClusterStatus<Percent, Bytes>
  type ClustersValue = ClustersMsg<Percent, Bytes>

  /* ----- from messages to bytes and back, Percent by Percent ----- */

  function PercentBytes(p: Percent): Bytes {
    EncodePercent(Some(p))
  }

  /** The Percent that the collected bytes of its occurrences make. */
  function PercentFrom(bs: Bytes): Percent {
    DecodeInto(PercentStep, NO_PERCENT, bs).GetOr(NO_PERCENT)
  }

  function Writing(): Children<Percent, Bytes, Bytes, Bytes> {
    Children(PercentBytes, b => b, b => b, b => b, b => b)
  }

  function Reading(): Children<Bytes, Bytes, Percent, Bytes> {
    Children(PercentFrom, b => b, b => b, b => b, b => b)
  }

  function OnWire(m: Option<ClustersValue>): Option<WireClusters> {
    if m.None? then None else Some(MapClusters(Writing(), m.value))
  }

  function Encode(m: Option<ClustersValue>): Bytes {
    EncodeClusters(OnWire(m))
  }

  function EncodeTypedCluster(m: Option<Cluster>): Bytes {
    EncodeCluster(MapCluster(Writing(), m))
  }

  function EncodeTypedHost(m: Option<Host>): Bytes {
    EncodeHost(MapHost(Writing(), m))
  }

  function Decode(s: Schema, bs: Bytes): Option<ClustersValue> {
    var w :- DecodeClusters(s, bs);
    Some(MapClusters(Reading(), w))
  }

  function DecodeTypedCluster(s: Schema, bs: Bytes): Option<Cluster> {
    MapCluster(Reading(), DecodeInto(ClusterDecoder(s), Msg(NO_CLUSTER, []), bs))
  }

  function DecodeTypedHost(s: Schema, bs: Bytes): Option<Host> {
    MapHost(Reading(), DecodeInto(HostDecoder(s), Msg(NO_HOST, []), bs))
  }

  /** A Percent refuses nothing but bytes that are not records. */
  lemma {:induction false} PercentAccepts(m: Percent, ts: seq<Token>)
    ensures DecodeTokens(PercentStep, m, ts).Some?
    decreases |ts|
  {
    if ts != [] {
      match PercentStep(m.fields, ts[0].record) {
        case Updated(k) => PercentAccepts(m.(fields := k), ts[1..]);
        case Unrecognised => PercentAccepts(m.(unknownFields := m.unknownFields + ts[0].raw), ts[1..]);
      }
    }
  }

  /** What has been read of a Percent field whose collected bytes are x. */
  function ReadSoFar(x: Option<Bytes>): Percent {
    if x.None? then NO_PERCENT else PercentFrom(x.value)
  }

  /**
   * Collecting is merging: the tree accepts one more occurrence p of a Percent exactly when p can be
   * decoded into the Percent read so far, and then holds the result of that.
   */
  lemma CollectingIsMerging(x: Option<Bytes>, p: Bytes)
    requires PercentBytesOk(x)
    ensures Parse(p).Some? <==> DecodeInto(PercentStep, ReadSoFar(x), p).Some?
    ensures Parse(p).Some? ==>
      DecodeInto(PercentStep, ReadSoFar(x), p) == Some(ReadSoFar(MergeOpaque(x, Some(p))))
  {
    hide Parse, DecodeTokens;
    if Parse(p).Some? {
      PercentAccepts(ReadSoFar(x), Parse(p).value);
      if x.Some? {
        PercentAccepts(NO_PERCENT, Parse(x.value).value);
        DecodeConcat(PercentStep, NO_PERCENT, x.value, p);
      } else {
        assert [] + p == p;
      }
    }
  }

  /* ----- what survives: nil elements become empty messages, and negative zero becomes zero ----- */

  const EMPTY_HOST: HostFields<Percent, Bytes> := HostFields(None, [], None, None, 0, [], 0, None, None)
  const EMPTY_CLUSTER: ClusterFields<Percent, Bytes> := ClusterFields([], false, None, [], None, None, [], [])

  function NormalisePercent(p: Percent): Percent {
    p.(fields := PercentFields(NormaliseDouble(p.fields.value)))
  }

  function NormaliseTypedHost(m: Option<Host>): Option<Host> {
    var d := m.GetOr(Msg(EMPTY_HOST, []));
    Some(d.(fields := d.fields.(
      stats := Map(NormaliseStat, d.fields.stats),
      successRate := MapOption(NormalisePercent, d.fields.successRate),
      localOriginSuccessRate := MapOption(NormalisePercent, d.fields.localOriginSuccessRate))))
  }

  function NormaliseTypedCluster(m: Option<Cluster>): Option<Cluster> {
    var d := m.GetOr(Msg(EMPTY_CLUSTER, []));
    Some(d.(fields := d.fields.(
      successRateEjectionThreshold := MapOption(NormalisePercent, d.fields.successRateEjectionThreshold),
      hostStatuses := Map(NormaliseTypedHost, d.fields.hostStatuses),
      localOriginSuccessRateEjectionThreshold :=
        MapOption(NormalisePercent, d.fields.localOriginSuccessRateEjectionThreshold))))
  }

  function NormaliseTyped(m: Option<ClustersValue>): ClustersValue {
    var d := m.GetOr(Msg(ClustersFields([]), []));
    d.(fields := ClustersFields(Map(NormaliseTypedCluster, d.fields.clusterStatuses)))
  }

  /* ----- the unknown bytes of every Percent are unknown to it ----- */

  ghost predicate PercentOk(p: Option<Percent>) {
    p.Some? ==> UnknownTo(PercentStep, p.value.unknownFields)
  }

  ghost predicate HostPercentsOk(m: Option<Host>) {
    m.Some? ==> PercentOk(m.value.fields.successRate) && PercentOk(m.value.fields.localOriginSuccessRate)
  }

  ghost predicate ClusterPercentsOk(m: Option<Cluster>) {
    m.Some? ==>
      && PercentOk(m.value.fields.successRateEjectionThreshold)
      && PercentOk(m.value.fields.localOriginSuccessRateEjectionThreshold)
      && (forall x <- m.value.fields.hostStatuses :: HostPercentsOk(x))
  }

  ghost predicate TypedHostOk(s: Schema, m: Option<Host>) {
    HostOk(s, MapHost(Writing(), m)) && HostPercentsOk(m)
  }

  ghost predicate TypedClusterOk(s: Schema, m: Option<Cluster>) {
    ClusterOk(s, MapCluster(Writing(), m)) && ClusterPercentsOk(m)
  }

  ghost predicate TypedOk(s: Schema, m: Option<ClustersValue>) {
    && ClustersOk(s, OnWire(m))
    && (m.Some? ==> forall x <- m.value.fields.clusterStatuses :: ClusterPercentsOk(x))
  }

  /* ----- round trip ----- */

  lemma PercentBack(p: Option<Percent>)
    requires PercentOk(p)
    ensures MapOption(PercentFrom, MapOption(PercentBytes, p)) == MapOption(NormalisePercent, p)
  {
    hide UnknownTo, EncodePercent, DecodeInto;
    if p.Some? {
      PercentRoundTrip(p.value);
    }
  }

  lemma StatsAsTheyAre(xs: seq<Option<Bytes>>)
    ensures Map(StatMapper(Writing()), xs) == xs && Map(StatMapper(Reading()), xs) == xs
  {
    MapFixed(StatMapper(Writing()), xs);
    MapFixed(StatMapper(Reading()), xs);
  }

  lemma HostBack(m: Option<Host>)
    requires HostPercentsOk(m)
    ensures MapHost(Reading(), NormaliseHost(MapHost(Writing(), m))) == NormaliseTypedHost(m)
  {
    hide PercentOk, PercentFrom, PercentBytes, NormalisePercent;
    var k := m.GetOr(Msg(EMPTY_HOST, [])).fields;
    StatsAsTheyAre(k.stats);
    StatsAsTheyAre(Map(NormaliseStat, k.stats));
    if m.Some? {
      PercentBack(k.successRate);
      PercentBack(k.localOriginSuccessRate);
    }
  }

  lemma {:induction false} MapThrice<T, U, V, W>(f: U -> V, g: T -> U, e: V -> W, h: T -> W, xs: seq<T>)
    requires forall x <- xs :: e(f(g(x))) == h(x)
    ensures Map(e, Map(f, Map(g, xs))) == Map(h, xs)
  {
    assert forall i | 0 <= i < |xs| :: e(f(g(xs[i]))) == h(xs[i]);
  }

  lemma ClusterBack(m: Option<Cluster>)
    requires ClusterPercentsOk(m)
    ensures MapCluster(Reading(), NormaliseCluster(MapCluster(Writing(), m))) == NormaliseTypedCluster(m)
  {
    hide PercentOk, HostPercentsOk, PercentFrom, PercentBytes, NormalisePercent, MapHost, NormaliseHost,
      NormaliseTypedHost;
    var k := m.GetOr(Msg(EMPTY_CLUSTER, [])).fields;
    if m.Some? {
      PercentBack(k.successRateEjectionThreshold);
      PercentBack(k.localOriginSuccessRateEjectionThreshold);
    }
    forall x <- k.hostStatuses
      ensures MapHost(Reading(), NormaliseHost(MapHost(Writing(), x))) == NormaliseTypedHost(x)
    {
      HostBack(x);
    }
    MapThrice(NormaliseHost, HostMapper(Writing()), HostMapper(Reading()), NormaliseTypedHost, k.hostStatuses);
  }

  lemma TreeBack(m: Option<ClustersValue>)
    requires m.Some? ==> forall x <- m.value.fields.clusterStatuses :: ClusterPercentsOk(x)
    ensures MapClusters(Reading(), NormaliseClusters(OnWire(m))) == NormaliseTyped(m)
  {
    hide ClusterPercentsOk, MapCluster, NormaliseCluster, NormaliseTypedCluster;
    var xs := m.GetOr(Msg(ClustersFields([]), [])).fields.clusterStatuses;
    forall x <- xs
      ensures MapCluster(Reading(), NormaliseCluster(MapCluster(Writing(), x))) == NormaliseTypedCluster(x)
    {
      ClusterBack(x);
    }
    MapThrice(NormaliseCluster, ClusterMapper(Writing()), ClusterMapper(Reading()), NormaliseTypedCluster, xs);
  }

  /** The whole tree reads back with empty messages for nil elements and zero for negative zero. */
  lemma TypedRoundTrip(s: Schema, m: Option<ClustersValue>)
    requires TypedOk(s, m) && |Encode(m)| <= MAX_INT
    ensures Decode(s, Encode(m)) == Some(NormaliseTyped(m))
  {
    hide ClustersOk, EncodeClusters, DecodeClusters, MapClusters, NormaliseClusters, NormaliseTyped, ClusterPercentsOk;
    RoundTrip(s, OnWire(m));
    TreeBack(m);
  }

  /* ----- when the round trip is exact ----- */

  predicate NotNegativeZero(p: Option<Percent>) {
    p.Some? ==> p.value.fields.value != TWO_TO_THE_63
  }

  ghost predicate HostHasNoNegativeZero(m: Option<Host>) {
    m.Some? ==> NotNegativeZero(m.value.fields.successRate) && NotNegativeZero(m.value.fields.localOriginSuccessRate)
  }

  ghost predicate ClusterHasNoNegativeZero(m: Option<Cluster>) {
    m.Some? ==>
      && NotNegativeZero(m.value.fields.successRateEjectionThreshold)
      && NotNegativeZero(m.value.fields.localOriginSuccessRateEjectionThreshold)
      && (forall x <- m.value.fields.hostStatuses :: HostHasNoNegativeZero(x))
  }

  ghost predicate NoNegativeZero(m: ClustersValue) {
    forall x <- m.fields.clusterStatuses :: ClusterHasNoNegativeZero(x)
  }

  lemma PercentFixed(p: Option<Percent>)
    ensures MapOption(NormalisePercent, p) == p <==> NotNegativeZero(p)
  {
  }

  lemma TypedHostFixed(m: Option<Host>)
    ensures NormaliseTypedHost(m) == m <==> NoNilHost(m) && HostHasNoNegativeZero(m)
  {
    hide NormalisePercent, NotNegativeZero;
    if m.Some? {
      var k := m.value.fields;
      MapFixed(NormaliseStat, k.stats);
      PercentFixed(k.successRate);
      PercentFixed(k.localOriginSuccessRate);
    }
  }

  lemma TypedClusterFixed(m: Option<Cluster>)
    ensures NormaliseTypedCluster(m) == m <==> NoNilCluster(m) && ClusterHasNoNegativeZero(m)
  {
    hide NormalisePercent, NotNegativeZero, NormaliseTypedHost, NoNilHost, HostHasNoNegativeZero;
    if m.Some? {
      var k := m.value.fields;
      PercentFixed(k.successRateEjectionThreshold);
      PercentFixed(k.localOriginSuccessRateEjectionThreshold);
      MapFixed(NormaliseTypedHost, k.hostStatuses);
      forall x ensures NormaliseTypedHost(x) == x <==> NoNilHost(x) && HostHasNoNegativeZero(x) {
        TypedHostFixed(x);
      }
    }
  }

  /**
   * The round trip gives back the very tree exactly when no repeated field has a nil element and
   * no Percent, at any level, is negative zero.
   */
  lemma TypedRoundTripExact(s: Schema, m: ClustersValue)
    requires TypedOk(s, Some(m)) && |Encode(Some(m))| <= MAX_INT
    ensures Decode(s, Encode(Some(m))) == Some(m) <==> NoNil(m) && NoNegativeZero(m)
  {
    hide Encode, Decode, TypedOk, NormaliseTypedCluster, NoNilCluster, ClusterHasNoNegativeZero;
    TypedRoundTrip(s, Some(m));
    MapFixed(NormaliseTypedCluster, m.fields.clusterStatuses);
    forall x ensures NormaliseTypedCluster(x) == x <==> NoNilCluster(x) && ClusterHasNoNegativeZero(x) {
      TypedClusterFixed(x);
    }
  }

  /* ----- which trees share their bytes ----- */

  lemma SamePercentBytes(p: Option<Percent>)
    ensures MapOption(PercentBytes, MapOption(NormalisePercent, p)) == MapOption(PercentBytes, p)
  {
  }

  lemma HostNormalisesOnWire(m: Option<Host>)
    ensures MapHost(Writing(), NormaliseTypedHost(m)) == NormaliseHost(MapHost(Writing(), m))
  {
    hide PercentBytes, NormalisePercent;
    var k := m.GetOr(Msg(EMPTY_HOST, [])).fields;
    SamePercentBytes(k.successRate);
    SamePercentBytes(k.localOriginSuccessRate);
    StatsAsTheyAre(k.stats);
    StatsAsTheyAre(Map(NormaliseStat, k.stats));
  }

  lemma MapCommutes<T, U>(f: T -> U, g: T -> T, h: U -> U, xs: seq<T>)
    requires forall x <- xs :: f(g(x)) == h(f(x))
    ensures Map(f, Map(g, xs)) == Map(h, Map(f, xs))
  {
    assert forall i | 0 <= i < |xs| :: f(g(xs[i])) == h(f(xs[i]));
  }

  lemma ClusterNormalisesOnWire(m: Option<Cluster>)
    ensures MapCluster(Writing(), NormaliseTypedCluster(m)) == NormaliseCluster(MapCluster(Writing(), m))
  {
    hide PercentBytes, NormalisePercent, MapHost, NormaliseTypedHost, NormaliseHost;
    var k := m.GetOr(Msg(EMPTY_CLUSTER, [])).fields;
    SamePercentBytes(k.successRateEjectionThreshold);
    SamePercentBytes(k.localOriginSuccessRateEjectionThreshold);
    forall x ensures MapHost(Writing(), NormaliseTypedHost(x)) == NormaliseHost(MapHost(Writing(), x)) {
      HostNormalisesOnWire(x);
    }
    MapCommutes(HostMapper(Writing()), NormaliseTypedHost, NormaliseHost, k.hostStatuses);
  }

  lemma EncodeNormalisedTyped(m: Option<ClustersValue>)
    ensures Encode(Some(NormaliseTyped(m))) == Encode(m)
  {
    hide MapCluster, NormaliseTypedCluster, NormaliseCluster, EncodeClusters;
    var xs := m.GetOr(Msg(ClustersFields([]), [])).fields.clusterStatuses;
    forall x ensures MapCluster(Writing(), NormaliseTypedCluster(x)) == NormaliseCluster(MapCluster(Writing(), x)) {
      ClusterNormalisesOnWire(x);
    }
    MapCommutes(ClusterMapper(Writing()), NormaliseTypedCluster, NormaliseCluster, xs);
    EncodeNormalised(OnWire(m));
  }

  /**
   * Two trees have the same bytes exactly when they differ only in nil against empty elements and in
   * the sign of zeros.
   */
  lemma SameBytesSameTree(s: Schema, a: Option<ClustersValue>, b: Option<ClustersValue>)
    requires TypedOk(s, a) && |Encode(a)| <= MAX_INT
    requires TypedOk(s, b) && |Encode(b)| <= MAX_INT
    ensures Encode(a) == Encode(b) <==> NormaliseTyped(a) == NormaliseTyped(b)
  {
    hide Encode, Decode, TypedOk, NormaliseTyped;
    TypedRoundTrip(s, a);
    TypedRoundTrip(s, b);
    EncodeNormalisedTyped(a);
    EncodeNormalisedTyped(b);
  }

  /* ----- concatenation is merge, of values ----- */

  function MergePercents(a: Option<Percent>, b: Option<Percent>): Option<Percent> {
    MergeOptional(MergePercent, PercentFields(0), a, b)
  }

  function MergeTypedHost(a: HostFields<Percent, Bytes>, b: HostFields<Percent, Bytes>): HostFields<Percent, Bytes> {
    HostFields(
      MergeOpaque(a.address, b.address),
      a.stats + Map(NormaliseStat, b.stats),
      MergeOptional(MergeHealth, NO_HEALTH, a.healthStatus, b.healthStatus),
      MergePercents(a.successRate, b.successRate),
      LastNonDefault(0, a.weight, b.weight),
      LastNonDefault([], a.hostname, b.hostname),
      LastNonDefault(0, a.priority, b.priority),
      MergePercents(a.localOriginSuccessRate, b.localOriginSuccessRate),
      MergeOpaque(a.locality, b.locality))
  }

  function MergeTypedCluster(
      a: ClusterFields<Percent, Bytes>, b: ClusterFields<Percent, Bytes>): ClusterFields<Percent, Bytes>
  {
    ClusterFields(
      LastNonDefault([], a.name, b.name),
      a.addedViaApi || b.addedViaApi,
      MergePercents(a.successRateEjectionThreshold, b.successRateEjectionThreshold),
      a.hostStatuses + Map(NormaliseTypedHost, b.hostStatuses),
      MergePercents(a.localOriginSuccessRateEjectionThreshold, b.localOriginSuccessRateEjectionThreshold),
      MergeOpaque(a.circuitBreakers, b.circuitBreakers),
      LastNonDefault([], a.observabilityName, b.observabilityName),
      LastNonDefault([], a.edsServiceName, b.edsServiceName))
  }

  function MergeTyped(
      a: ClustersFields<Percent, Bytes>, b: ClustersFields<Percent, Bytes>): ClustersFields<Percent, Bytes>
  {
    ClustersFields(a.clusterStatuses + Map(NormaliseTypedCluster, b.clusterStatuses))
  }

  lemma PercentsJoin(x: Option<Bytes>, p: Option<Percent>)
    requires PercentBytesOk(x) && PercentOk(p)
    ensures MapOption(PercentFrom, MergeOpaque(x, MapOption(PercentBytes, p))) ==
      MergePercents(MapOption(PercentFrom, x), p)
  {
    hide Parse, UnknownTo, EncodePercent, DecodeInto;
    if p.Some? {
      PercentDecodes(ReadSoFar(x), p.value);
      CollectingIsMerging(x, PercentBytes(p.value));
    }
  }

  lemma HostJoins(x: WireHostFields, b: Host)
    requires PercentBytesOk(x.successRate) && PercentBytesOk(x.localOriginSuccessRate) && HostPercentsOk(Some(b))
    ensures MapHostFields(Reading(), MergeHost(x, MapHostFields(Writing(), b.fields))) ==
            MergeTypedHost(MapHostFields(Reading(), x), b.fields)
  {
    hide PercentBytesOk, PercentOk, MergeOpaque, MergePercents, PercentFrom, PercentBytes, NormaliseStat,
      MergeOptional, Map;
    PercentsJoin(x.successRate, b.fields.successRate);
    PercentsJoin(x.localOriginSuccessRate, b.fields.localOriginSuccessRate);
    StatsAsTheyAre(b.fields.stats);
    StatsAsTheyAre(x.stats);
    StatsAsTheyAre(x.stats + Map(NormaliseStat, b.fields.stats));
    OpaqueAsItIs(x.address);
    OpaqueAsItIs(x.locality);
    OpaqueAsItIs(b.fields.address);
    OpaqueAsItIs(b.fields.locality);
    OpaqueAsItIs(MergeOpaque(x.address, b.fields.address));
    OpaqueAsItIs(MergeOpaque(x.locality, b.fields.locality));
  }

  lemma OpaqueAsItIs(x: Option<Bytes>)
    ensures forall f: Bytes -> Bytes | (forall b :: f(b) == b) :: MapOption(f, x) == x
  {
  }

  lemma EmptyOnWire()
    ensures MapHostFields(Writing(), EMPTY_HOST) == NO_HOST && MapClusterFields(Writing(), EMPTY_CLUSTER) == NO_CLUSTER
    ensures PercentOk(EMPTY_HOST.successRate) && PercentOk(EMPTY_HOST.localOriginSuccessRate)
  {
  }

  /** Decoding a HostStatus on top of another merges values: a Percent that is zero does not replace an earlier one. */
  lemma TypedHostDecodes(s: Schema, acc: WireHost, m: Option<Host>)
    requires PercentBytesOk(acc.fields.successRate) && PercentBytesOk(acc.fields.localOriginSuccessRate)
    requires TypedHostOk(s, m) && |EncodeTypedHost(m)| <= MAX_INT
    ensures MapHost(Reading(), DecodeInto(HostDecoder(s), acc, EncodeTypedHost(m))) ==
            Some(MergeMsg(MergeTypedHost, MapHost(Reading(), Some(acc)).value, m.GetOr(Msg(EMPTY_HOST, []))))
  {
    hide HostOk, EncodeHost, DecodeInto, MapHostFields, MergeHost, MergeTypedHost, PercentBytesOk, UnknownTo;
    HostDecodes(s, acc, MapHost(Writing(), m));
    HostJoins(acc.fields, m.GetOr(Msg(EMPTY_HOST, [])));
    assert MapHostFields(Writing(), EMPTY_HOST) == NO_HOST by { EmptyOnWire(); }
  }

  /** HostStatus: concatenation is merge. */
  lemma TypedHostConcatenation(s: Schema, a: Option<Host>, b: Option<Host>)
    requires TypedHostOk(s, a) && |EncodeTypedHost(a)| <= MAX_INT
    requires TypedHostOk(s, b) && |EncodeTypedHost(b)| <= MAX_INT
    ensures DecodeTypedHost(s, EncodeTypedHost(a) + EncodeTypedHost(b)) ==
            Some(MergeMsg(MergeTypedHost, NormaliseTypedHost(a).value, b.GetOr(Msg(EMPTY_HOST, []))))
  {
    hide EncodeHost, DecodeInto, MapHostFields, MergeTypedHost, NormaliseTypedHost, HostDecoder, UnknownTo, HealthOk,
      Parse;
    HostElement(s, MapHost(Writing(), a));
    HostBack(a);
    DecodeConcat(HostDecoder(s), Msg(NO_HOST, []), EncodeTypedHost(a), EncodeTypedHost(b));
    var read := NormaliseHost(MapHost(Writing(), a)).value;
    assert PercentBytesOk(read.fields.successRate) && PercentBytesOk(read.fields.localOriginSuccessRate);
    TypedHostDecodes(s, read, b);
  }

  lemma ClusterJoins(x: WireClusterFields, b: Cluster)
    requires PercentBytesOk(x.successRateEjectionThreshold) && PercentBytesOk(x.localOriginSuccessRateEjectionThreshold)
    requires ClusterPercentsOk(Some(b))
    ensures MapClusterFields(Reading(), MergeCluster(x, MapClusterFields(Writing(), b.fields))) ==
            MergeTypedCluster(MapClusterFields(Reading(), x), b.fields)
  {
    hide PercentBytesOk, PercentOk, HostPercentsOk, MergeOpaque, MergePercents, PercentFrom, PercentBytes, Map,
      MapHost, NormaliseHost, NormaliseTypedHost;
    PercentsJoin(x.successRateEjectionThreshold, b.fields.successRateEjectionThreshold);
    PercentsJoin(x.localOriginSuccessRateEjectionThreshold, b.fields.localOriginSuccessRateEjectionThreshold);
    HostsJoin(x.hostStatuses, b.fields.hostStatuses);
    OpaqueAsItIs(x.circuitBreakers);
    OpaqueAsItIs(b.fields.circuitBreakers);
    OpaqueAsItIs(MergeOpaque(x.circuitBreakers, b.fields.circuitBreakers));
  }

  lemma HostsJoin(xs: seq<Option<WireHost>>, bs: seq<Option<Host>>)
    requires forall b <- bs :: HostPercentsOk(b)
    ensures Map(HostMapper(Reading()), xs + Map(NormaliseHost, Map(HostMapper(Writing()), bs))) ==
            Map(HostMapper(Reading()), xs) + Map(NormaliseTypedHost, bs)
  {
    hide HostPercentsOk, MapHost, NormaliseHost, NormaliseTypedHost;
    forall b <- bs ensures MapHost(Reading(), NormaliseHost(MapHost(Writing(), b))) == NormaliseTypedHost(b) {
      HostBack(b);
    }
    MapThrice(NormaliseHost, HostMapper(Writing()), HostMapper(Reading()), NormaliseTypedHost, bs);
    MapConcat(HostMapper(Reading()), xs, Map(NormaliseHost, Map(HostMapper(Writing()), bs)));
  }

  /** The same for ClusterStatus: thresholds merge as values, hosts append. */
  lemma TypedClusterDecodes(s: Schema, acc: WireCluster, m: Option<Cluster>)
    requires PercentBytesOk(acc.fields.successRateEjectionThreshold)
    requires PercentBytesOk(acc.fields.localOriginSuccessRateEjectionThreshold)
    requires TypedClusterOk(s, m) && |EncodeTypedCluster(m)| <= MAX_INT
    ensures MapCluster(Reading(), DecodeInto(ClusterDecoder(s), acc, EncodeTypedCluster(m))) ==
            Some(MergeMsg(MergeTypedCluster, MapCluster(Reading(), Some(acc)).value, m.GetOr(Msg(EMPTY_CLUSTER, []))))
  {
    hide ClusterOk, EncodeCluster, DecodeInto, MapClusterFields, MergeCluster, MergeTypedCluster, PercentBytesOk,
      UnknownTo;
    ClusterDecodes(s, acc, MapCluster(Writing(), m));
    ClusterJoins(acc.fields, m.GetOr(Msg(EMPTY_CLUSTER, [])));
    EmptyOnWire();
  }

  lemma TypedClusterConcatenation(s: Schema, a: Option<Cluster>, b: Option<Cluster>)
    requires TypedClusterOk(s, a) && |EncodeTypedCluster(a)| <= MAX_INT
    requires TypedClusterOk(s, b) && |EncodeTypedCluster(b)| <= MAX_INT
    ensures DecodeTypedCluster(s, EncodeTypedCluster(a) + EncodeTypedCluster(b)) ==
            Some(MergeMsg(MergeTypedCluster, NormaliseTypedCluster(a).value, b.GetOr(Msg(EMPTY_CLUSTER, []))))
  {
    hide EncodeCluster, DecodeInto, MapClusterFields, MergeTypedCluster, NormaliseTypedCluster, ClusterDecoder,
      UnknownTo, HostOk, HostPercentsOk, Parse;
    ClusterElement(s, MapCluster(Writing(), a));
    ClusterBack(a);
    DecodeConcat(ClusterDecoder(s), Msg(NO_CLUSTER, []), EncodeTypedCluster(a), EncodeTypedCluster(b));
    var read := NormaliseCluster(MapCluster(Writing(), a)).value;
    ThresholdsOk(s, a);
    TypedClusterDecodes(s, read, b);
  }

  lemma ThresholdsOk(s: Schema, a: Option<Cluster>)
    requires TypedClusterOk(s, a)
    ensures
      var read := NormaliseCluster(MapCluster(Writing(), a)).value;
      && PercentBytesOk(read.fields.successRateEjectionThreshold)
      && PercentBytesOk(read.fields.localOriginSuccessRateEjectionThreshold)
  {
    hide Parse, UnknownTo, HostOk, HostPercentsOk;
  }

  /** And for the whole tree. */
  lemma TypedConcatenationMerges(s: Schema, a: Option<ClustersValue>, b: Option<ClustersValue>)
    requires TypedOk(s, a) && |Encode(a)| <= MAX_INT
    requires TypedOk(s, b) && |Encode(b)| <= MAX_INT
    ensures Decode(s, Encode(a) + Encode(b)) ==
            Some(MergeMsg(MergeTyped, NormaliseTyped(a), b.GetOr(Msg(ClustersFields([]), []))))
  {
    hide ClustersOk, EncodeClusters, DecodeClusters, ClusterPercentsOk, MapCluster, NormaliseCluster,
      NormaliseTypedCluster;
    ConcatenationMerges(s, OnWire(a), OnWire(b));
    TreeBack(a);
    TreeBack(b);
    MapConcat(ClusterMapper(Reading()), NormaliseClusters(OnWire(a)).fields.clusterStatuses,
              NormaliseClusters(OnWire(b)).fields.clusterStatuses);
  }
}
