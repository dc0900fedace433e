/** Replacing the children of a clusters tree: replacing twice, and when a replacement goes unnoticed. */
module ClustersChildren {
  import opened GoTypes
  import opened Messages
  import opened Clusters

  lemma {:induction false} MapsAgree<T, U>(f: T -> U, g: T -> U, xs: seq<T>)
    ensures Map(f, xs) == Map(g, xs) <==> forall x <- xs :: f(x) == g(x)
  {
    if forall x <- xs :: f(x) == g(x) {
      assert forall i | 0 <= i < |xs| :: f(xs[i]) == g(xs[i]);
    } else {
      var x :| x in xs && f(x) != g(x);
      var i :| 0 <= i < |xs| && xs[i] == x;
      assert Map(f, xs)[i] != Map(g, xs)[i];
    }
  }

  lemma MapConcat<T, U>(f: T -> U, xs: seq<T>, ys: seq<T>)
    ensures Map(f, xs + ys) == Map(f, xs) + Map(f, ys)
  {
    assert forall i | 0 <= i < |xs + ys| :: Map(f, xs + ys)[i] == (Map(f, xs) + Map(f, ys))[i];
  }

  /* ----- replacing twice ----- */

  /** h does to every child what g and then f do. */
  ghost predicate Composes<P(!new), O(!new), Q, R, S, T>(
      f: Children<Q, R, S, T>, g: Children<P, O, Q, R>, h: Children<P, O, S, T>)
  {
    && (forall x :: h.percent(x) == f.percent(g.percent(x)))
    && (forall x :: h.address(x) == f.address(g.address(x)))
    && (forall x :: h.stat(x) == f.stat(g.stat(x)))
    && (forall x :: h.locality(x) == f.locality(g.locality(x)))
    && (forall x :: h.circuitBreakers(x) == f.circuitBreakers(g.circuitBreakers(x)))
  }

  lemma HostTwice<P(!new), O(!new), Q, R, S, T>(
      f: Children<Q, R, S, T>, g: Children<P, O, Q, R>, h: Children<P, O, S, T>, m: Option<HostStatus<P, O>>)
    requires Composes(f, g, h)
    ensures MapHost(f, MapHost(g, m)) == MapHost(h, m)
  {
    if m.Some? {
      MapCongruent(StatMapper(f), StatMapper(g), StatMapper(h), m.value.fields.stats);
    }
  }

  lemma ClusterTwice<P(!new), O(!new), Q, R, S, T>(
      f: Children<Q, R, S, T>, g: Children<P, O, Q, R>, h: Children<P, O, S, T>, m: Option<ClusterStatus<P, O>>)
    requires Composes(f, g, h)
    ensures MapCluster(f, MapCluster(g, m)) == MapCluster(h, m)
  {
    if m.Some? {
      forall x ensures MapHost(f, MapHost(g, x)) == MapHost(h, x) {
        HostTwice(f, g, h, x);
      }
      MapCongruent(HostMapper(f), HostMapper(g), HostMapper(h), m.value.fields.hostStatuses);
    }
  }

  lemma ClustersTwice<P(!new), O(!new), Q, R, S, T>(
      f: Children<Q, R, S, T>, g: Children<P, O, Q, R>, h: Children<P, O, S, T>, m: ClustersMsg<P, O>)
    requires Composes(f, g, h)
    ensures MapClusters(f, MapClusters(g, m)) == MapClusters(h, m)
  {
    forall x ensures MapCluster(f, MapCluster(g, x)) == MapCluster(h, x) {
      ClusterTwice(f, g, h, x);
    }
    MapCongruent(ClusterMapper(f), ClusterMapper(g), ClusterMapper(h), m.fields.clusterStatuses);
  }

  /* ----- replacements that go unnoticed ----- */

  /** What c puts in a child's place looks, to `see`, like the child itself. */
  ghost predicate Kept<T, U>(c: T -> T, see: T -> U, x: Option<T>) {
    x.Some? ==> see(c(x.value)) == see(x.value)
  }

  ghost predicate HostKept<P, O, Q, R>(c: Children<P, O, P, O>, see: Children<P, O, Q, R>,
      m: Option<HostStatus<P, O>>)
  {
    m.Some? ==>
      var k := m.value.fields;
      && Kept(c.address, see.address, k.address)
      && (forall x <- k.stats :: Kept(c.stat, see.stat, x))
      && Kept(c.percent, see.percent, k.successRate)
      && Kept(c.percent, see.percent, k.localOriginSuccessRate)
      && Kept(c.locality, see.locality, k.locality)
  }

  ghost predicate ClusterKept<P, O, Q, R>(
      c: Children<P, O, P, O>, see: Children<P, O, Q, R>, m: Option<ClusterStatus<P, O>>)
  {
    m.Some? ==>
      var k := m.value.fields;
      && Kept(c.percent, see.percent, k.successRateEjectionThreshold)
      && (forall x <- k.hostStatuses :: HostKept(c, see, x))
      && Kept(c.percent, see.percent, k.localOriginSuccessRateEjectionThreshold)
      && Kept(c.circuitBreakers, see.circuitBreakers, k.circuitBreakers)
  }

  /** Every child of the tree is kept. */
  ghost predicate TreeKept<P, O, Q, R>(c: Children<P, O, P, O>, see: Children<P, O, Q, R>, m: ClustersMsg<P, O>) {
    forall x <- m.fields.clusterStatuses :: ClusterKept(c, see, x)
  }

  lemma OptionUnnoticed<T, U>(c: T -> T, see: T -> U, x: Option<T>)
    ensures MapOption(see, MapOption(c, x)) == MapOption(see, x) <==> Kept(c, see, x)
  {
  }

  lemma HostUnnoticed<P, O, Q, R>(c: Children<P, O, P, O>, see: Children<P, O, Q, R>, m: Option<HostStatus<P, O>>)
    ensures MapHost(see, MapHost(c, m)) == MapHost(see, m) <==> HostKept(c, see, m)
  {
    if m.Some? {
      hide Kept, MapOption;
      var k := m.value.fields;
      OptionUnnoticed(c.address, see.address, k.address);
      OptionUnnoticed(c.percent, see.percent, k.successRate);
      OptionUnnoticed(c.percent, see.percent, k.localOriginSuccessRate);
      OptionUnnoticed(c.locality, see.locality, k.locality);
      StatsUnnoticed(c, see, k.stats);
    }
  }

  lemma StatsUnnoticed<P, O, Q, R>(c: Children<P, O, P, O>, see: Children<P, O, Q, R>, xs: seq<Option<O>>)
    ensures Map(StatMapper(see), Map(StatMapper(c), xs)) == Map(StatMapper(see), xs) <==>
            forall x <- xs :: Kept(c.stat, see.stat, x)
  {
    var both := x => MapOption(see.stat, MapOption(c.stat, x));
    MapCongruent(StatMapper(see), StatMapper(c), both, xs);
    MapsAgree(both, StatMapper(see), xs);
  }

  lemma ClusterUnnoticed<P, O, Q, R>(c: Children<P, O, P, O>, see: Children<P, O, Q, R>, m: Option<ClusterStatus<P, O>>)
    ensures MapCluster(see, MapCluster(c, m)) == MapCluster(see, m) <==> ClusterKept(c, see, m)
  {
    if m.Some? {
      hide Kept, MapOption, HostKept, MapHost;
      var k := m.value.fields;
      OptionUnnoticed(c.percent, see.percent, k.successRateEjectionThreshold);
      OptionUnnoticed(c.percent, see.percent, k.localOriginSuccessRateEjectionThreshold);
      OptionUnnoticed(c.circuitBreakers, see.circuitBreakers, k.circuitBreakers);
      HostsUnnoticed(c, see, k.hostStatuses);
    }
  }

  lemma HostsUnnoticed<P, O, Q, R>(c: Children<P, O, P, O>, see: Children<P, O, Q, R>,
      xs: seq<Option<HostStatus<P, O>>>)
    ensures Map(HostMapper(see), Map(HostMapper(c), xs)) == Map(HostMapper(see), xs) <==>
            forall x <- xs :: HostKept(c, see, x)
  {
    hide MapHost, HostKept;
    var both := x => MapHost(see, MapHost(c, x));
    MapCongruent(HostMapper(see), HostMapper(c), both, xs);
    MapsAgree(both, HostMapper(see), xs);
    forall x <- xs ensures both(x) == HostMapper(see)(x) <==> HostKept(c, see, x) {
      HostUnnoticed(c, see, x);
    }
  }

  /** A replacement goes unnoticed exactly when every child is kept. */
  lemma ClustersUnnoticed<P, O, Q, R>(c: Children<P, O, P, O>, see: Children<P, O, Q, R>, m: ClustersMsg<P, O>)
    ensures MapClusters(see, MapClusters(c, m)) == MapClusters(see, m) <==> TreeKept(c, see, m)
  {
    hide MapCluster, ClusterKept;
    var xs := m.fields.clusterStatuses;
    var both := x => MapCluster(see, MapCluster(c, x));
    MapCongruent(ClusterMapper(see), ClusterMapper(c), both, xs);
    MapsAgree(both, ClusterMapper(see), xs);
    forall x <- xs ensures both(x) == ClusterMapper(see)(x) <==> ClusterKept(c, see, x) {
      ClusterUnnoticed(c, see, x);
    }
  }

  /* ----- leaving everything as it is ----- */

  function Unchanged<P, O>(): Children<P, O, P, O> {
    Children(x => x, x => x, x => x, x => x, x => x)
  }

  lemma HostUnchanged<P, O>(m: Option<HostStatus<P, O>>)
    ensures MapHost(Unchanged(), m) == m
  {
    if m.Some? {
      MapFixed(StatMapper(Unchanged<P, O>()), m.value.fields.stats);
    }
  }

  lemma ClusterUnchanged<P, O>(m: Option<ClusterStatus<P, O>>)
    ensures MapCluster(Unchanged(), m) == m
  {
    if m.Some? {
      var xs := m.value.fields.hostStatuses;
      MapFixed(HostMapper(Unchanged<P, O>()), xs);
      forall x <- xs ensures MapHost(Unchanged(), x) == x {
        HostUnchanged(x);
      }
    }
  }

  lemma ClustersUnchanged<P, O>(m: ClustersMsg<P, O>)
    ensures MapClusters(Unchanged(), m) == m
  {
    var xs := m.fields.clusterStatuses;
    MapFixed(ClusterMapper(Unchanged<P, O>()), xs);
    forall x <- xs ensures MapCluster(Unchanged(), x) == x {
      ClusterUnchanged(x);
    }
  }
}
