/**
 * Clusters trees whose children are live objects with marshallers of their own, made from trees of
 * values; the marshallers on such trees; and the relay as a program.
 */
module ClustersLive {
  import opened GoTypes
  import opened Wire
  import opened Messages
  import opened Clusters
  import opened ClustersChildren
  import opened ClustersPercents
  import opened ClustersPercentsRelay
  import ClustersRelay
  import opened EnvoyType
  import opened CM = ClustersMarshal
  import Older = ClustersMarshalV2alpha

  /* ----- a live child for every child ----- */

  /** A child that writes bs, by whichever route it takes, and declares as much. */
  predicate Writes(c: Child, bs: Bytes) {
    && (c.fastMarshal ==> c.vtEncoded == Success(bs))
    && (!c.fastMarshal ==> c.protoEncoded == Success(bs))
    && (c.fastSize ==> c.vtSize == |bs|)
    && (!c.fastSize ==> c.protoSize == |bs|)
  }

  /** A SimpleMetric is always called directly. */
  predicate StatWrites(c: Child, bs: Bytes) {
    c.vtEncoded == Success(bs) && c.vtSize == |bs|
  }

  /** Each live child writes what `bytes` says. */
  ghost predicate Honest<P(!new), O(!new)>(live: Children<P, O, Child, Child>, bytes: Children<P, O, Bytes, Bytes>) {
    && (forall x :: Writes(live.percent(x), bytes.percent(x)))
    && (forall x :: Writes(live.address(x), bytes.address(x)))
    && (forall x :: StatWrites(live.stat(x), bytes.stat(x)))
    && (forall x :: Writes(live.locality(x), bytes.locality(x)))
    && (forall x :: Writes(live.circuitBreakers(x), bytes.circuitBreakers(x)))
  }

  lemma ChildLive<T(!new)>(live: T -> Child, bytes: T -> Bytes, x: Option<T>)
    requires forall y :: Writes(live(y), bytes(y))
    ensures
      var c := MapOption(live, x);
      ShapeChild(Written, c) == MapOption(bytes, x) && ChildError(c).None? && Agrees(c)
  {
  }

  lemma StatsLive<P(!new), O(!new)>(
      live: Children<P, O, Child, Child>, bytes: Children<P, O, Bytes, Bytes>, xs: seq<Option<O>>)
    requires Honest(live, bytes)
    ensures
      var ys := Map(StatMapper(live), xs);
      && StatsError(ys).None? && Map(StatShaper(Written), ys) == Map(StatMapper(bytes), xs)
      && forall y <- ys :: StatAgrees(y)
  {
    hide StatsError;
    var ys := Map(StatMapper(live), xs);
    forall i | 0 <= i < |xs|
      ensures StatError(ys[i]).None? && StatAgrees(ys[i]) && ShapeStat(Written, ys[i]) == MapOption(bytes.stat, xs[i])
    {
    }
    hide StatError, StatAgrees, ShapeStat, MapOption;
    NoStatError(ys);
  }

  lemma HostLive<P(!new), O(!new)>(
      live: Children<P, O, Child, Child>, bytes: Children<P, O, Bytes, Bytes>, m: Option<HostStatus<P, O>>)
    requires Honest(live, bytes)
    ensures
      var host := MapHost(live, m);
      && ShapeHost(Written, host) == MapHost(bytes, m) && HostError(host).None? && HostAgrees(host)
      && (Older.OlderHost(m) ==> Older.OlderHost(host))
  {
    if m.Some? {
      var k := m.value.fields;
      ChildLive(live.address, bytes.address, k.address);
      StatsLive(live, bytes, k.stats);
      ChildLive(live.percent, bytes.percent, k.successRate);
      ChildLive(live.percent, bytes.percent, k.localOriginSuccessRate);
      ChildLive(live.locality, bytes.locality, k.locality);
      hide Honest, ShapeChild, ChildError, Agrees, StatsError, StatAgrees, ShapeStat, StatError, MapOption, Map;
    }
  }

  lemma HostsLive<P(!new), O(!new)>(
      live: Children<P, O, Child, Child>, bytes: Children<P, O, Bytes, Bytes>, xs: seq<Option<HostStatus<P, O>>>)
    requires Honest(live, bytes)
    ensures
      var ys := Map(HostMapper(live), xs);
      && HostsError(ys).None? && Map(HostShaper(Written), ys) == Map(HostMapper(bytes), xs)
      && (forall y <- ys :: HostAgrees(y))
      && ((forall x <- xs :: Older.OlderHost(x)) ==> forall y <- ys :: Older.OlderHost(y))
  {
    hide ShapeHost, MapHost, HostAgrees, HostError, HostsError, Older.OlderHost, Honest;
    var ys := Map(HostMapper(live), xs);
    forall i | 0 <= i < |xs|
      ensures HostError(ys[i]).None? && ShapeHost(Written, ys[i]) == MapHost(bytes, xs[i]) && HostAgrees(ys[i])
      ensures Older.OlderHost(xs[i]) ==> Older.OlderHost(ys[i])
    {
      HostLive(live, bytes, xs[i]);
    }
    NoHostError(ys);
  }

  lemma ClusterLive<P(!new), O(!new)>(
      live: Children<P, O, Child, Child>, bytes: Children<P, O, Bytes, Bytes>, m: Option<ClusterStatus<P, O>>)
    requires Honest(live, bytes)
    ensures
      var cluster := MapCluster(live, m);
      && ShapeCluster(Written, cluster) == MapCluster(bytes, m) && ClusterError(cluster).None? && ClusterAgrees(cluster)
      && (Older.OlderCluster(m) ==> Older.OlderCluster(cluster))
  {
    if m.Some? {
      var k := m.value.fields;
      ChildLive(live.percent, bytes.percent, k.successRateEjectionThreshold);
      HostsLive(live, bytes, k.hostStatuses);
      ChildLive(live.percent, bytes.percent, k.localOriginSuccessRateEjectionThreshold);
      ChildLive(live.circuitBreakers, bytes.circuitBreakers, k.circuitBreakers);
      hide Honest, ShapeChild, ChildError, Agrees, HostsError, HostAgrees, ShapeHost, Older.OlderHost, Map, MapHost;
    }
  }

  lemma ClusterListLive<P(!new), O(!new)>(
      live: Children<P, O, Child, Child>, bytes: Children<P, O, Bytes, Bytes>, xs: seq<Option<ClusterStatus<P, O>>>)
    requires Honest(live, bytes)
    ensures
      var ys := Map(ClusterMapper(live), xs);
      && ClusterListError(ys).None? && Map(ClusterShaper(Written), ys) == Map(ClusterMapper(bytes), xs)
      && (forall y <- ys :: ClusterAgrees(y))
      && ((forall x <- xs :: Older.OlderCluster(x)) ==> forall y <- ys :: Older.OlderCluster(y))
  {
    hide ShapeCluster, MapCluster, ClusterAgrees, ClusterError, ClusterListError, Older.OlderCluster, Honest;
    var ys := Map(ClusterMapper(live), xs);
    forall i | 0 <= i < |xs|
      ensures ClusterError(ys[i]).None? && ShapeCluster(Written, ys[i]) == MapCluster(bytes, xs[i])
        && ClusterAgrees(ys[i])
      ensures Older.OlderCluster(xs[i]) ==> Older.OlderCluster(ys[i])
    {
      ClusterLive(live, bytes, xs[i]);
    }
    NoClusterError(ys);
  }

  /** A tree of honest live children writes what their values say, without an error, and declares as much. */
  lemma TreeLive<P(!new), O(!new)>(
      live: Children<P, O, Child, Child>, bytes: Children<P, O, Bytes, Bytes>, m: ClustersMsg<P, O>)
    requires Honest(live, bytes)
    ensures
      var tree := Some(MapClusters(live, m));
      && WrittenBytes(tree) == EncodeClusters(Some(MapClusters(bytes, m)))
      && StrictEnding(tree) == Returned(WrittenBytes(tree)) && DeclaredSize(tree) == |WrittenBytes(tree)|
      && ClustersError(tree).None? && (Older.OlderClusters(Some(m)) ==> Older.OlderClusters(tree))
  {
    hide ShapeCluster, MapCluster, ClusterAgrees, ClusterError, ClusterListError, Older.OlderCluster, Honest,
      EncodeClusters, StrictEnding, DeclaredSize;
    ClusterListLive(live, bytes, m.fields.clusterStatuses);
    MixedChildren(Some(MapClusters(live, m)));
  }

  /* ----- the children of the typed tree ----- */

  /**
   * A Percent has both fast methods; MarshalPercent and SizePercent are proved to do this. Whoever
   * asks it by the other route gets an error and a wrong size.
   */
  function PercentChild(p: Percent): Child {
    Child(true, Success(PercentBytes(p)), Failure("not asked"), true, |PercentBytes(p)|, |PercentBytes(p)| + 1)
  }

  /** A child of another package, which has either fast method or has not, and the same for the other route. */
  function OpaqueChild(fast: Bytes -> bool, fastSize: Bytes -> bool): Bytes -> Child {
    b => Child(
      fast(b),
      if fast(b) then Success(b) else Failure("not asked"),
      if fast(b) then Failure("not asked") else Success(b),
      fastSize(b),
      if fastSize(b) then |b| else |b| + 1,
      if fastSize(b) then |b| + 1 else |b|)
  }

  /** A SimpleMetric, whose fast methods are called without asking whether it has them. */
  function StatChild(b: Bytes): Child {
    Child(false, Success(b), Failure("not asked"), false, |b|, |b| + 1)
  }

  function LiveChildren(fast: Bytes -> bool, fastSize: Bytes -> bool): Children<Percent, Bytes, Child, Child> {
    var child := OpaqueChild(fast, fastSize);
    Children(PercentChild, child, StatChild, child, child)
  }

  lemma LiveChildrenHonest(fast: Bytes -> bool, fastSize: Bytes -> bool)
    ensures Honest(LiveChildren(fast, fastSize), Writing())
  {
    hide PercentBytes;
  }

  /**
   * MarshalVTStrict on a tree with Percents returns the encoding of that tree, whatever route the
   * other children take.
   */
  method MarshalTree(m: ClustersMsg<Percent, Bytes>, fast: Bytes -> bool, fastSize: Bytes -> bool) returns (bs: Bytes)
    requires |Encode(Some(m))| <= MAX_INT
    ensures bs == Encode(Some(m))
  {
    hide MapClusters, StrictEnding, EncodeClusters, WrittenBytes, DeclaredSize, ClustersError, Honest;
    LiveChildrenHonest(fast, fastSize);
    TreeLive(LiveChildren(fast, fastSize), Writing(), m);
    var ending := CM.MarshalVTStrict(Some(MapClusters(LiveChildren(fast, fastSize), m)));
    bs := ending.bs;
  }

  /* ----- the relay ----- */

  lemma OkIsOlder(w: WireClusters)
    requires ClustersOk(V2alpha, Some(w))
    ensures Older.OlderClusters(Some(w))
  {
    hide UnknownTo, Parse;
  }

  lemma ClusterStaysOlder<P, O, Q, R>(c: Children<P, O, Q, R>, m: Option<ClusterStatus<P, O>>)
    requires Older.OlderCluster(m)
    ensures Older.OlderCluster(MapCluster(c, m))
  {
    if m.Some? {
      var xs := m.value.fields.hostStatuses;
      forall i | 0 <= i < |xs| ensures Older.OlderHost(MapHost(c, xs[i])) {
        assert Older.OlderHost(xs[i]);
      }
      var ys := Map(HostMapper(c), xs);
      forall y <- ys ensures Older.OlderHost(y) {
        var i :| 0 <= i < |ys| && ys[i] == y;
        assert ys[i] == MapHost(c, xs[i]);
      }
    }
  }

  lemma TreeStaysOlder<P, O, Q, R>(c: Children<P, O, Q, R>, m: ClustersMsg<P, O>)
    requires Older.OlderClusters(Some(m))
    ensures Older.OlderClusters(Some(MapClusters(c, m)))
  {
    hide Older.OlderCluster, MapCluster;
    var xs := m.fields.clusterStatuses;
    var ys := Map(ClusterMapper(c), xs);
    forall y <- ys ensures Older.OlderCluster(y) {
      var i :| 0 <= i < |ys| && ys[i] == y;
      ClusterStaysOlder(c, xs[i]);
    }
  }

  lemma HeldIsOlder(bs: Bytes)
    requires Decode(V3, bs).Some?
    ensures Decode(V2alpha, bs).Some? && Older.OlderClusters(Some(Decode(V2alpha, bs).value))
  {
    hide DecodeClusters, MapClusters;
    ClustersRelay.HeldOk(bs);
    var w := DecodeClusters(V2alpha, bs).value;
    OkIsOlder(w);
    TreeStaysOlder(Reading(), w);
  }

  /**
   * The relay: it decodes with v2alpha, its codecs for opaque children do what they do, and the
   * v2alpha marshallers write what it then holds. v3 reads in the output what it reads in the input,
   * Percents normalised and opaque children as those codecs leave them; and the output is the input
   * when a v3 marshaller wrote that and the codecs give back the bytes of each opaque child.
   */
  method PassOn(bs: Bytes, o: Codecs, fast: Bytes -> bool, fastSize: Bytes -> bool) returns (out: Bytes)
    requires Decode(V3, bs).Some? && LeavesPercents(o)
    requires |bs| <= MAX_INT && |RelayedTyped(o, bs)| <= MAX_INT
    ensures Decode(V3, out) == Some(MapClusters(Normalising(o), Decode(V3, bs).value))
    ensures Decode(V2alpha, bs).Some?
    ensures TreeKept(o, Unchanged(), Decode(V2alpha, bs).value) ==>
      forall m | TypedOk(V3, m) && Encode(m) == bs :: out == bs
  {
    hide Decode, MapClusters, StrictEnding, EncodeClusters, WrittenBytes, DeclaredSize, ClustersError, Honest, TypedOk,
      LeavesPercents, TreeKept, Normalising, Older.OlderClusters;
    HeldIsOlder(bs);
    var held := Decode(V2alpha, bs).value;
    var kept := MapClusters(o, held);
    TreeStaysOlder(o, held);
    LiveChildrenHonest(fast, fastSize);
    TreeLive(LiveChildren(fast, fastSize), Writing(), kept);
    var ending := Older.MarshalVTStrict(Some(MapClusters(LiveChildren(fast, fastSize), kept)));
    out := ending.bs;
    TypedRelay(o, bs);
    forall m | TypedOk(V3, m) && Encode(m) == bs
      ensures TreeKept(o, Unchanged(), held) ==> out == bs
    {
      TypedSkew(o, m);
    }
  }
}
