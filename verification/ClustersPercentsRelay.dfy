/**
 * A v2alpha relay over the clusters tree with its Percents as messages. Their marshaller drops
 * negative zero, so the relay does not always pass a tree on as it was; when it does is stated
 * exactly. The other children are as the relay's codecs for them leave them.
 */
module ClustersPercentsRelay {
  import opened GoTypes
  import opened Wire
  import opened Messages
  import opened Clusters
  import opened ClustersChildren
  import opened ClustersLaws
  import opened ClustersPercents
  import opened ClustersRelay
  import opened ClustersSkew
  import opened EnvoyType
  import opened Relay
  import Varint

  /**
   * What the relay's codecs do to the opaque children of a tree it holds. Its Percents are written by
   * the marshaller modelled here, so nothing is left open about them.
   */
  type Codecs = Children<Percent, Bytes, Percent, Bytes>

  ghost predicate LeavesPercents(o: Codecs) {
    (forall p :: o.percent(p) == p) && (forall b :: o.circuitBreakers(b) == b)
  }

  /** The same codecs as seen from v3: a Percent has become its normal form. */
  function Normalising(o: Codecs): Codecs {
    o.(percent := NormalisePercent)
  }

  function CarrierOf(o: Codecs): Carrier {
    Children(b => PercentBytes(PercentFrom(b)), o.address, o.stat, o.locality, o.circuitBreakers)
  }

  /** The bytes a v2alpha peer writes for what it read. */
  function RelayedTyped(o: Codecs, bs: Bytes): Bytes {
    var held := Decode(V2alpha, bs);
    if held.None? then [] else Encode(Some(MapClusters(o, held.value)))
  }

  /** A Percent that was read, written and read again has lost at most the sign of a zero. */
  lemma PercentRelayed(b: Bytes)
    ensures Parse(PercentBytes(PercentFrom(b))).Some?
    ensures PercentFrom(PercentBytes(PercentFrom(b))) == NormalisePercent(PercentFrom(b))
  {
    hide UnknownTo, EncodePercent, DecodeInto, Parse;
    assert UnknownTo(PercentStep, PercentFrom(b).unknownFields) by { PercentUnknown(b); }
    PercentRoundTrip(PercentFrom(b));
    assert Parse(PercentBytes(PercentFrom(b))).Some? by { DecodedParses(PercentBytes(PercentFrom(b))); }
  }

  lemma PercentUnknown(b: Bytes)
    ensures UnknownTo(PercentStep, PercentFrom(b).unknownFields)
  {
    hide UnknownTo, DecodeInto;
    if DecodeInto(PercentStep, NO_PERCENT, b).Some? {
      DecodedUnknown(PercentStep, PercentFields(0), b);
    } else {
      NothingUnknown(PercentStep);
    }
  }

  lemma DecodedParses(b: Bytes)
    requires DecodeInto(PercentStep, NO_PERCENT, b).Some?
    ensures Parse(b).Some?
  {
  }

  lemma CarrierCarries(o: Codecs)
    requires LeavesPercents(o)
    ensures Carries(CarrierOf(o))
  {
    hide Parse, PercentBytes, PercentFrom;
    forall b ensures Parse(PercentBytes(PercentFrom(b))).Some? {
      PercentRelayed(b);
    }
  }

  lemma RelayedSame(o: Codecs, bs: Bytes)
    requires LeavesPercents(o)
    ensures RelayedTyped(o, bs) == Relayed(CarrierOf(o), bs)
  {
    hide DecodeClusters, EncodeClusters, MapClusters, PercentBytes, PercentFrom;
    var held := DecodeClusters(V2alpha, bs);
    if held.Some? {
      var reading := Children(PercentFrom, o.address, o.stat, o.locality, o.circuitBreakers);
      ClustersTwice(o, Reading(), reading, held.value);
      ClustersTwice(Writing(), reading, CarrierOf(o), held.value);
    }
  }

  function ReadNormalised(o: Codecs): Children<Bytes, Bytes, Percent, Bytes> {
    Children(b => NormalisePercent(PercentFrom(b)), o.address, o.stat, o.locality, o.circuitBreakers)
  }

  lemma ReadAfterRelay(o: Codecs, w: WireClusters)
    ensures MapClusters(Reading(), MapClusters(CarrierOf(o), w)) ==
            MapClusters(Normalising(o), MapClusters(Reading(), w))
  {
    hide MapClusters, Composes;
    NormalisedEitherWay(o);
    ClustersTwice(Reading(), CarrierOf(o), ReadNormalised(o), w);
    ClustersTwice(Normalising(o), Reading(), ReadNormalised(o), w);
  }

  lemma NormalisedEitherWay(o: Codecs)
    ensures Composes(Reading(), CarrierOf(o), ReadNormalised(o))
    ensures Composes(Normalising(o), Reading(), ReadNormalised(o))
  {
    hide PercentBytes, PercentFrom, NormalisePercent;
    forall b ensures PercentFrom(PercentBytes(PercentFrom(b))) == NormalisePercent(PercentFrom(b)) {
      PercentRelayed(b);
    }
  }

  /**
   * Whatever bytes v3 accepts, a v2alpha peer accepts, and v3 reads in what that peer writes the tree
   * it reads in the original, with every Percent normalised and every opaque child as the peer's
   * codec for it leaves it.
   */
  lemma TypedRelay(o: Codecs, bs: Bytes)
    requires LeavesPercents(o) && Decode(V3, bs).Some?
    ensures Decode(V2alpha, bs).Some?
    ensures |RelayedTyped(o, bs)| <= MAX_INT ==>
      Decode(V3, RelayedTyped(o, bs)) == Some(MapClusters(Normalising(o), Decode(V3, bs).value))
  {
    hide DecodeClusters, Relayed, RelayedTyped, MapClusters, CarrierOf, Carries, LeavesPercents, Reading, Normalising;
    CarrierCarries(o);
    RelayedSame(o, bs);
    RelayReplacesChildren(CarrierOf(o), bs);
    ReadAfterRelay(o, DecodeClusters(V3, bs).value);
  }

  /**
   * So the meaning of a tree, given as its Percents and as `see` gives it to the other children,
   * survives exactly when no Percent is negative zero and each other child means what it meant.
   */
  lemma TypedRelayPreservesMeaning<O>(o: Codecs, see: Children<Percent, Bytes, Percent, O>, bs: Bytes)
    requires LeavesPercents(o) && Decode(V3, bs).Some? && |RelayedTyped(o, bs)| <= MAX_INT
    ensures Decode(V3, RelayedTyped(o, bs)).Some?
    ensures
      var before, after := Decode(V3, bs).value, Decode(V3, RelayedTyped(o, bs)).value;
      MapClusters(see, after) == MapClusters(see, before) <==> TreeKept(Normalising(o), see, before)
  {
    hide Decode, RelayedTyped, MapClusters, TreeKept;
    TypedRelay(o, bs);
    ClustersUnnoticed(Normalising(o), see, Decode(V3, bs).value);
  }

  lemma HostZeros(m: Option<Host>)
    ensures HostKept(Normalising(Unchanged()), Unchanged(), m) <==> HostHasNoNegativeZero(m)
  {
  }

  lemma ClusterZeros(m: Option<Cluster>)
    ensures ClusterKept(Normalising(Unchanged()), Unchanged(), m) <==> ClusterHasNoNegativeZero(m)
  {
    hide HostKept, HostHasNoNegativeZero;
    forall x ensures HostKept(Normalising(Unchanged()), Unchanged(), x) <==> HostHasNoNegativeZero(x) {
      HostZeros(x);
    }
  }

  /**
   * With opaque children passed on byte for byte, v3 reads the very same tree exactly when no
   * Percent is negative zero.
   */
  lemma TypedRelayExact(bs: Bytes)
    requires Decode(V3, bs).Some? && |RelayedTyped(Unchanged(), bs)| <= MAX_INT
    ensures Decode(V3, RelayedTyped(Unchanged(), bs)) == Decode(V3, bs) <==> NoNegativeZero(Decode(V3, bs).value)
  {
    hide Decode, RelayedTyped, MapClusters, ClusterKept, ClusterHasNoNegativeZero;
    var m := Decode(V3, bs).value;
    TypedRelay(Unchanged(), bs);
    ClustersUnnoticed(Normalising(Unchanged()), Unchanged(), m);
    ClustersUnchanged(m);
    ClustersUnchanged(MapClusters(Normalising(Unchanged()), m));
    forall x ensures ClusterKept(Normalising(Unchanged()), Unchanged(), x) <==> ClusterHasNoNegativeZero(x) {
      ClusterZeros(x);
    }
  }

  /* ----- what a v3 marshaller wrote comes out byte for byte ----- */

  lemma PercentBytesKept(p: Option<Percent>)
    requires PercentOk(p)
    ensures Kept(CarrierOf(Unchanged()).percent, Unchanged<Bytes, Bytes>().percent, MapOption(PercentBytes, p))
  {
    hide UnknownTo, DecodeInto, EncodePercent;
    if p.Some? {
      PercentRoundTrip(p.value);
      SamePercentBytes(p);
    }
  }

  lemma HostBytesKept(m: Option<Host>)
    requires HostPercentsOk(m)
    ensures HostKept(CarrierOf(Unchanged()), Unchanged(), NormaliseHost(DowngradeHost(MapHost(Writing(), m))))
  {
    hide PercentOk, PercentBytes, PercentFrom, DowngradeHealth;
    if m.Some? {
      PercentBytesKept(m.value.fields.successRate);
      PercentBytesKept(m.value.fields.localOriginSuccessRate);
    }
  }

  lemma ClusterBytesKept(m: Option<Cluster>)
    requires ClusterPercentsOk(m)
    ensures ClusterKept(CarrierOf(Unchanged()), Unchanged(),
      NormaliseCluster(DowngradeCluster(MapCluster(Writing(), m))))
  {
    hide PercentOk, PercentBytes, PercentFrom, HostKept, HostPercentsOk, MapHost, DowngradeHost, NormaliseHost,
      EncodeFields;
    if m.Some? {
      PercentBytesKept(m.value.fields.successRateEjectionThreshold);
      PercentBytesKept(m.value.fields.localOriginSuccessRateEjectionThreshold);
      forall x <- m.value.fields.hostStatuses
        ensures HostKept(CarrierOf(Unchanged()), Unchanged(), NormaliseHost(DowngradeHost(MapHost(Writing(), x))))
      {
        HostBytesKept(x);
      }
    }
  }

  lemma TreeBytesKept(m: Option<ClustersValue>)
    requires m.Some? ==> forall x <- m.value.fields.clusterStatuses :: ClusterPercentsOk(x)
    ensures TreeKept(CarrierOf(Unchanged()), Unchanged(), NormaliseClusters(Downgrade(OnWire(m))))
  {
    hide ClusterPercentsOk, ClusterKept, MapCluster, DowngradeCluster, NormaliseCluster;
    if m.Some? {
      forall x <- m.value.fields.clusterStatuses
        ensures ClusterKept(CarrierOf(Unchanged()), Unchanged(),
          NormaliseCluster(DowngradeCluster(MapCluster(Writing(), x))))
      {
        ClusterBytesKept(x);
      }
    }
  }

  /**
   * A v2alpha peer that reads what a v3 marshaller wrote, Percents included, writes those bytes again,
   * as long as its codecs give back the bytes of each opaque child.
   */
  lemma TypedSkew(o: Codecs, m: Option<ClustersValue>)
    requires LeavesPercents(o) && TypedOk(V3, m) && |Encode(m)| <= MAX_INT
    ensures Decode(V2alpha, Encode(m)).Some?
    ensures TreeKept(o, Unchanged(), Decode(V2alpha, Encode(m)).value) ==> RelayedTyped(o, Encode(m)) == Encode(m)
  {
    hide ClustersOk, ClusterPercentsOk, EncodeClusters, DecodeClusters, MapClusters, NormaliseClusters, Downgrade,
      TreeKept, CarrierOf;
    SkewPreservesBytes(OnWire(m));
    var held := Decode(V2alpha, Encode(m)).value;
    if TreeKept(o, Unchanged(), held) {
      var w := NormaliseClusters(Downgrade(OnWire(m)));
      ClustersUnnoticed(o, Unchanged(), held);
      ClustersUnchanged(held);
      ClustersUnchanged(MapClusters(o, held));
      UnchangedRelay(w, Encode(m));
      TreeBytesKept(m);
      ClustersUnnoticed(CarrierOf(Unchanged()), Unchanged(), w);
      ClustersUnchanged(w);
      ClustersUnchanged(MapClusters(CarrierOf(Unchanged()), w));
    }
  }

  lemma UnchangedRelay(w: WireClusters, bs: Bytes)
    requires DecodeClusters(V2alpha, bs) == Some(w)
    ensures MapClusters(Writing(), MapClusters(Reading(), w)) == MapClusters(CarrierOf(Unchanged()), w)
  {
    hide PercentBytes, PercentFrom, MapClusters;
    ClustersTwice(Writing(), Reading(), CarrierOf(Unchanged()), w);
  }

  /* ----- negative zero ----- */

  /** A Percent with an explicit negative zero on the wire, which no marshaller writes but every reader accepts. */
  const NEGATIVE_ZERO: Bytes := [0x9, 0, 0, 0, 0, 0, 0, 0, 0x80]

  lemma NegativeZeroRead()
    ensures Parse(NEGATIVE_ZERO).Some?
    ensures PercentFrom(NEGATIVE_ZERO) == Msg(PercentFields(TWO_TO_THE_63), [])
    ensures PercentBytes(PercentFrom(NEGATIVE_ZERO)) == []
  {
    var r := Fixed64(1, TWO_TO_THE_63);
    assert EncodeRecord(r) == NEGATIVE_ZERO by { NegativeZeroRecord(); }
    ReadEncodedRecord(r);
    ParseSingle(NEGATIVE_ZERO, TokenOf(r));
    assert [TokenOf(r)][1..] == [];
  }

  lemma NegativeZeroRecord()
    ensures EncodeRecord(Fixed64(1, TWO_TO_THE_63)) == NEGATIVE_ZERO
  {
    hide LittleEndian;
    assert Key(1, I64) == [0x9];
    hide Key;
    LastByte();
    LowZero(0x80, 1);
    LowZero(0x8000, 2);
    LowZero(0x80_0000, 3);
    LowZero(0x8000_0000, 4);
    LowZero(0x80_0000_0000, 5);
    LowZero(0x8000_0000_0000, 6);
    LowZero(0x80_0000_0000_0000, 7);
  }

  lemma LastByte()
    ensures LittleEndian(0x80, 1) == [0x80]
  {
    assert LittleEndian(0, 0) == [];
  }

  lemma LowZero(v: nat, n: nat)
    ensures LittleEndian(0x100 * v, n + 1) == [0] + LittleEndian(v, n)
  {
  }

  lemma ShortRecord(num: FieldNumber, p: Bytes)
    requires num < 16 && |p| < 0x80
    ensures EncodeRecord(Len(num, p)) == [8 * num + 2, |p|] + p
  {
    assert Key(num, LEN) == [8 * num + 2];
  }

  /** In thirteen bytes: a cluster whose threshold is that Percent. */
  const NEGATIVE_ZERO_TREE: Bytes := [0xa, 11, 0x1a, 9, 0x9, 0, 0, 0, 0, 0, 0, 0, 0x80]

  lemma NegativeZeroTree()
    ensures EncodeClusters(Some(OneThreshold(NEGATIVE_ZERO))) == NEGATIVE_ZERO_TREE
    ensures |EncodeClusters(Some(OneThreshold([])))| == 4
  {
    hide EncodeRecord, EncodeClusters;
    OneThresholdBytes(NEGATIVE_ZERO);
    ShortRecord(3, NEGATIVE_ZERO);
    ShortRecord(1, [0x1a, 9] + NEGATIVE_ZERO);
    OneThresholdBytes([]);
    ShortRecord(3, []);
    ShortRecord(1, [0x1a, 0]);
    assert [0x1a, 0] + [] == [0x1a, 0];
  }

  lemma NegativeZeroHeld(s: Schema)
    ensures DecodeClusters(s, NEGATIVE_ZERO_TREE) == Some(OneThreshold(NEGATIVE_ZERO))
  {
    hide EncodeClusters, DecodeClusters, Parse;
    NegativeZeroRead();
    NegativeZeroTree();
    OneThresholdRead(s, NEGATIVE_ZERO);
  }

  lemma NegativeZeroDropped()
    ensures |RelayedTyped(Unchanged(), NEGATIVE_ZERO_TREE)| == 4
  {
    hide EncodeClusters, DecodeClusters, Parse, PercentFrom, PercentBytes, MapClusters, RelayedTyped;
    var c: Carrier := CarrierOf(Unchanged());
    NegativeZeroHeld(V2alpha);
    NegativeZeroRead();
    OneThresholdMapped(c, NEGATIVE_ZERO);
    var mapped := MapClusters(c, OneThreshold(NEGATIVE_ZERO));
    assert mapped.fields.clusterStatuses == OneThreshold([]).fields.clusterStatuses;
    assert mapped == OneThreshold([]);
    NegativeZeroTree();
    RelayedSame(Unchanged(), NEGATIVE_ZERO_TREE);
  }

  /** v3 reads that tree, a v2alpha peer holds the same one, and what the peer writes reads differently. */
  lemma NegativeZeroIsLost()
    ensures Decode(V3, NEGATIVE_ZERO_TREE).Some?
      && Decode(V2alpha, NEGATIVE_ZERO_TREE) == Decode(V3, NEGATIVE_ZERO_TREE)
    ensures Decode(V3, RelayedTyped(Unchanged(), NEGATIVE_ZERO_TREE)) != Decode(V3, NEGATIVE_ZERO_TREE)
  {
    hide DecodeClusters, PercentFrom, MapClusters, RelayedTyped, Reading;
    NegativeZeroHeld(V2alpha);
    NegativeZeroHeld(V3);
    NegativeZeroDropped();
    TypedRelayExact(NEGATIVE_ZERO_TREE);
    NegativeZeroInTree();
  }

  lemma NegativeZeroInTree()
    ensures !NoNegativeZero(MapClusters(Reading(), OneThreshold(NEGATIVE_ZERO)))
  {
    hide MapClusters, PercentFrom;
    var m := MapClusters(Reading(), OneThreshold(NEGATIVE_ZERO));
    OneThresholdMapped(Reading(), NEGATIVE_ZERO);
    NegativeZeroRead();
    assert m.fields.clusterStatuses[0] in m.fields.clusterStatuses;
  }

  lemma OneThresholdRead(s: Schema, p: Bytes)
    requires Parse(p).Some? && |p| < 100
    ensures DecodeClusters(s, EncodeClusters(Some(OneThreshold(p)))) == Some(OneThreshold(p))
  {
    hide EncodeClusters, DecodeClusters, EncodeRecord, ClustersOk, Parse;
    OneThresholdBytes(p);
    ShortRecord(3, p);
    ShortRecord(1, EncodeRecord(Len(3, p)));
    OneThresholdOk(s, p);
    RoundTripExact(s, OneThreshold(p));
  }

  lemma OneThresholdOk(s: Schema, p: Bytes)
    requires Parse(p).Some?
    ensures ClustersOk(s, Some(OneThreshold(p)))
  {
    hide UnknownTo, Parse;
    NothingUnknown(ClusterDecoder(s));
    NothingUnknown(ClustersDecoder(s));
  }

  lemma OneThresholdMapped<P>(c: Children<Bytes, Bytes, P, Bytes>, p: Bytes)
    ensures
      var xs := MapClusters(c, OneThreshold(p)).fields.clusterStatuses;
      && |xs| == 1 && xs[0].Some? && MapClusters(c, OneThreshold(p)).unknownFields == []
      && xs[0].value == Msg(ClusterFields([], false, Some(c.percent(p)), [], None, None, [], []), [])
  {
    assert Map(HostMapper(c), []) == [];
  }
}
