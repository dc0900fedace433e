/**
 * The marshallers of the clusters tree. A child of another package is written by its own fast
 * marshaller when it has one and by proto.Marshal when it has not; either may fail, and its
 * SizeVT and proto.Size are whatever they are. What a parent promises is stated against that.
 */
module ClustersMarshal {
  import opened GoTypes
  import opened Varint
  import opened Wire
  import opened Messages
  import opened Buffer
  import opened Clusters
  import opened ClustersLaws

  /** What the dynamic type of a child offers: the two interfaces, and both ways to encode and to measure it. */
  datatype Child = Child(
    fastMarshal: bool,
    vtEncoded: Result<seq<byte>, string>,
    protoEncoded: Result<seq<byte>, string>,
    fastSize: bool,
    vtSize: nat,
    protoSize: nat)
  {
    function Encoded(): Result<seq<byte>, string> {
      if fastMarshal then vtEncoded else protoEncoded
    }

    function Size(): nat {
      if fastSize then vtSize else protoSize
    }
  }

  type Host = HostStatus<Child, Child>
  type Cluster = ClusterStatus<Child, Child>
  type ClustersValue = ClustersMsg<Child, Child>

  /* ----- the wire message: every child replaced by the bytes it writes, or by as many as it declares ----- */

  datatype View = Written | Declared

  function BytesOr(r: Result<seq<byte>, string>): Bytes {
    match r
    case Success(bs) => bs
    case Failure(_) => []
  }

  function Zeros(n: nat): (bs: Bytes)
    ensures |bs| == n
  {
    seq(n, _ => 0)
  }

  function ShapeChild(v: View, x: Option<Child>): Option<Bytes> {
    if x.None? then None
    else Some(if v.Written? then BytesOr(x.value.Encoded()) else Zeros(x.value.Size()))
  }

  /** SimpleMetric is called directly, so it always takes the fast route. */
  function ShapeStat(v: View, x: Option<Child>): Option<Bytes> {
    if x.None? then None
    else Some(if v.Written? then BytesOr(x.value.vtEncoded) else Zeros(x.value.vtSize))
  }

  function StatShaper(v: View): Option<Child> -> Option<Bytes> {
    x => ShapeStat(v, x)
  }

  function ShapeHost(v: View, m: Option<Host>): Option<WireHost> {
    if m.None? then None
    else
      var k := m.value.fields;
      Some(Msg(HostFields(
        ShapeChild(v, k.address),
        Map(StatShaper(v), k.stats),
        k.healthStatus,
        ShapeChild(v, k.successRate),
        k.weight,
        k.hostname,
        k.priority,
        ShapeChild(v, k.localOriginSuccessRate),
        ShapeChild(v, k.locality)), m.value.unknownFields))
  }

  function HostShaper(v: View): Option<Host> -> Option<WireHost> {
    x => ShapeHost(v, x)
  }

  function ShapeCluster(v: View, m: Option<Cluster>): Option<WireCluster> {
    if m.None? then None
    else
      var k := m.value.fields;
      Some(Msg(ClusterFields(
        k.name,
        k.addedViaApi,
        ShapeChild(v, k.successRateEjectionThreshold),
        Map(HostShaper(v), k.hostStatuses),
        ShapeChild(v, k.localOriginSuccessRateEjectionThreshold),
        ShapeChild(v, k.circuitBreakers),
        k.observabilityName,
        k.edsServiceName), m.value.unknownFields))
  }

  function ClusterShaper(v: View): Option<Cluster> -> Option<WireCluster> {
    x => ShapeCluster(v, x)
  }

  function ShapeClusters(v: View, m: Option<ClustersValue>): Option<WireClusters> {
    if m.None? then None
    else Some(Msg(ClustersFields(Map(ClusterShaper(v), m.value.fields.clusterStatuses)), m.value.unknownFields))
  }

  /* ----- the error a marshaller returns: fields are written from the last to the first ----- */

  function ErrorOf(r: Result<seq<byte>, string>): Option<string> {
    match r
    case Success(_) => None
    case Failure(e) => Some(e)
  }

  function First(a: Option<string>, b: Option<string>): Option<string> {
    if a.Some? then a else b
  }

  function ChildError(x: Option<Child>): Option<string> {
    if x.None? then None else ErrorOf(x.value.Encoded())
  }

  function StatsError(xs: seq<Option<Child>>): Option<string> {
    if xs == [] then None
    else First(StatError(xs[|xs| - 1]), StatsError(xs[..|xs| - 1]))
  }

  function StatError(x: Option<Child>): Option<string> {
    if x.None? then None else ErrorOf(x.value.vtEncoded)
  }

  function HostError(m: Option<Host>): Option<string> {
    if m.None? then None
    else
      var k := m.value.fields;
      First(ChildError(k.locality),
        First(ChildError(k.localOriginSuccessRate),
          First(ChildError(k.successRate),
            First(StatsError(k.stats), ChildError(k.address)))))
  }

  function HostsError(xs: seq<Option<Host>>): Option<string> {
    if xs == [] then None
    else First(HostError(xs[|xs| - 1]), HostsError(xs[..|xs| - 1]))
  }

  function ClusterError(m: Option<Cluster>): Option<string> {
    if m.None? then None
    else
      var k := m.value.fields;
      First(ChildError(k.circuitBreakers),
        First(ChildError(k.localOriginSuccessRateEjectionThreshold),
          First(HostsError(k.hostStatuses), ChildError(k.successRateEjectionThreshold))))
  }

  function ClusterListError(xs: seq<Option<Cluster>>): Option<string> {
    if xs == [] then None
    else First(ClusterError(xs[|xs| - 1]), ClusterListError(xs[..|xs| - 1]))
  }

  function ClustersError(m: Option<ClustersValue>): Option<string> {
    if m.None? then None else ClusterListError(m.value.fields.clusterStatuses)
  }

  /* ----- what has been written when the error comes: everything after the child that fails ----- */

  /** The last element of a list that fails; lists are walked from there on down. */
  function LastFailing<T>(error: T -> Option<string>, xs: seq<T>): (i: nat)
    ensures xs != [] ==> i < |xs|
  {
    if |xs| <= 1 || error(xs[|xs| - 1]).Some? then (if xs == [] then 0 else |xs| - 1)
    else LastFailing(error, xs[..|xs| - 1])
  }

  /** Walking down from the end, the search stops at n or goes on below it. */
  lemma LastFailingStep<T>(error: T -> Option<string>, xs: seq<T>, n: nat)
    requires n < |xs|
    ensures error(xs[n]).Some? ==> LastFailing(error, xs[..n + 1]) == n
    ensures error(xs[n]).None? && n > 0 ==> LastFailing(error, xs[..n + 1]) == LastFailing(error, xs[..n])
  {
    assert xs[..n + 1][..n] == xs[..n];
  }

  function StatsPlaced(xs: seq<Option<Child>>, rest: Bytes): Bytes {
    var payloads := Map(StatBytes, Map(StatShaper(Written), xs));
    if xs == [] then rest
    else EncodeRecords(RepeatedField(2, payloads[LastFailing(StatError, xs) + 1..])) + rest
  }

  function HostPlaced(m: Option<Host>): Bytes {
    if m.None? then []
    else
      var k, w, u := m.value.fields, ShapeHost(Written, m).value.fields, m.value.unknownFields;
      if ChildError(k.locality).Some? then u
      else if ChildError(k.localOriginSuccessRate).Some? then EncodeFields(HostLayout(w)[8..], u)
      else if ChildError(k.successRate).Some? then EncodeFields(HostLayout(w)[4..], u)
      else if StatsError(k.stats).Some? then StatsPlaced(k.stats, EncodeFields(HostLayout(w)[2..], u))
      else EncodeFields(HostLayout(w)[1..], u)
  }

  function HostsPlaced(xs: seq<Option<Host>>, rest: Bytes): Bytes {
    var payloads, i := Map(EncodeHost, Map(HostShaper(Written), xs)), LastFailing(HostError, xs);
    if xs == [] then rest
    else HostPlaced(xs[i]) + (EncodeRecords(RepeatedField(4, payloads[i + 1..])) + rest)
  }

  function ClusterPlaced(m: Option<Cluster>): Bytes {
    if m.None? then []
    else
      var k, w, u := m.value.fields, ShapeCluster(Written, m).value.fields, m.value.unknownFields;
      if ChildError(k.circuitBreakers).Some? then EncodeFields(ClusterLayout(w)[6..], u)
      else if ChildError(k.localOriginSuccessRateEjectionThreshold).Some? then EncodeFields(ClusterLayout(w)[5..], u)
      else if HostsError(k.hostStatuses).Some? then HostsPlaced(k.hostStatuses, EncodeFields(ClusterLayout(w)[4..], u))
      else EncodeFields(ClusterLayout(w)[3..], u)
  }

  function ClusterListPlaced(xs: seq<Option<Cluster>>, rest: Bytes): Bytes {
    var payloads, i := Map(EncodeCluster, Map(ClusterShaper(Written), xs)), LastFailing(ClusterError, xs);
    if xs == [] then rest
    else ClusterPlaced(xs[i]) + (EncodeRecords(RepeatedField(1, payloads[i + 1..])) + rest)
  }

  function ClustersPlaced(m: Option<ClustersValue>): Bytes {
    if m.None? then [] else ClusterListPlaced(m.value.fields.clusterStatuses, m.value.unknownFields)
  }

  /* ----- children ----- */

  /** A child's own MarshalToSizedBufferVTStrict; when it fails it may have written into its slice. */
  method MarshalFast(x: Option<Child>, dAtA: array<byte>, end: nat) returns (r: Result<nat, string>)
    requires |StatBytes(ShapeStat(Written, x))| <= end <= dAtA.Length
    modifies dAtA
    ensures StatError(x).None? ==>
      && r == Success(|StatBytes(ShapeStat(Written, x))|)
      && dAtA[..] == Splice(old(dAtA[..]), end, StatBytes(ShapeStat(Written, x)))
    ensures StatError(x).Some? ==> r == Failure(StatError(x).value) && dAtA[end..] == old(dAtA[end..])
  {
    if x.None? {
      SpliceNothing(dAtA[..], end);
      return Success(0);
    }
    match x.value.vtEncoded {
      case Success(bs) =>
        var i := CopyBytes(dAtA, end, bs);
        return Success(end - i);
      case Failure(e) =>
        return Failure(e);
    }
  }

  lemma StatsPlacedAt(job: Job, xs: seq<Option<Child>>, n: nat)
    requires n < |xs| && n == LastFailing(StatError, xs) && |job.fields| > 1
    ensures StatsPlaced(xs, job.From(2)) == Elements(job, 1, 2, Map(StatBytes, Map(StatShaper(Written), xs)), n + 1)
  {
    hide EncodeRecords, RepeatedField, Map, Job.From, LastFailing, HostPlaced, ClusterPlaced, EncodeHost, ShapeHost,
      HostError, EncodeCluster, ShapeCluster, ClusterError, StatBytes, ShapeStat, StatError;
  }

  lemma HostsPlacedAt(job: Job, xs: seq<Option<Host>>, n: nat)
    requires n < |xs| && n == LastFailing(HostError, xs) && |job.fields| > 3
    ensures HostsPlaced(xs, job.From(4)) ==
            HostPlaced(xs[n]) + Elements(job, 3, 4, Map(EncodeHost, Map(HostShaper(Written), xs)), n + 1)
  {
    hide EncodeRecords, RepeatedField, Map, Job.From, LastFailing, HostPlaced, ClusterPlaced, EncodeHost, ShapeHost,
      HostError, EncodeCluster, ShapeCluster, ClusterError, StatBytes, ShapeStat, StatError;
  }

  lemma ClusterListPlacedAt(job: Job, xs: seq<Option<Cluster>>, n: nat)
    requires n < |xs| && n == LastFailing(ClusterError, xs) && |job.fields| > 0
    ensures ClusterListPlaced(xs, job.From(1)) ==
            ClusterPlaced(xs[n]) + Elements(job, 0, 1, Map(EncodeCluster, Map(ClusterShaper(Written), xs)), n + 1)
  {
    hide EncodeRecords, RepeatedField, Map, Job.From, LastFailing, HostPlaced, ClusterPlaced, EncodeHost, ShapeHost,
      HostError, EncodeCluster, ShapeCluster, ClusterError, StatBytes, ShapeStat, StatError;
  }

  /** At each child of a host that can fail, what has been written is the field after it and all that follow. */
  lemma HostPlacedAt(m: Host, job: Job)
    requires job.fields == HostLayout(ShapeHost(Written, Some(m)).value.fields) && job.unknownFields == m.unknownFields
    ensures
      var k, placed := m.fields, HostPlaced(Some(m));
      |job.fields| == 9 &&
      if ChildError(k.locality).Some? then placed == job.From(9)
      else if ChildError(k.localOriginSuccessRate).Some? then placed == job.From(8)
      else if ChildError(k.successRate).Some? then placed == job.From(4)
      else if StatsError(k.stats).Some? then placed == StatsPlaced(k.stats, job.From(2))
      else placed == job.From(1)
  {
    hide ChildError, StatsError, StatsPlaced, ShapeHost, OptionalField, RepeatedField, StringField, VarintField,
      MapOption;
    assert job.fields[9..] == [];
  }

  lemma ClusterPlacedAt(m: Cluster, job: Job)
    requires job.fields == ClusterLayout(ShapeCluster(Written, Some(m)).value.fields)
    requires job.unknownFields == m.unknownFields
    ensures
      var k, placed := m.fields, ClusterPlaced(Some(m));
      |job.fields| == 8 &&
      if ChildError(k.circuitBreakers).Some? then placed == job.From(6)
      else if ChildError(k.localOriginSuccessRateEjectionThreshold).Some? then placed == job.From(5)
      else if HostsError(k.hostStatuses).Some? then placed == HostsPlaced(k.hostStatuses, job.From(4))
      else placed == job.From(3)
  {
    hide ChildError, HostsError, HostsPlaced, ShapeCluster, OptionalField, RepeatedField, StringField, BoolField;
  }

  /** A child that fails leaves what was written after it. */
  lemma HoldsKept(job: Job, buf: seq<byte>, i: nat, out: seq<byte>)
    requires job.Holds(buf, i, out)
    ensures i <= job.end
    ensures forall after: seq<byte> | |after| == |buf| && after[i..] == buf[i..] :: job.Kept(after, out)
  {
    forall after: seq<byte> | |after| == |buf| && after[i..] == buf[i..] ensures job.Kept(after, out) {
      assert after[i..] == after[i..][..job.end - i] + after[i..][job.end - i..];
      assert after[job.end..] == after[i..][job.end - i..] && buf[job.end..] == buf[i..][job.end - i..];
      assert after[i..job.end] == after[i..][..job.end - i] && buf[i..job.end] == buf[i..][..job.end - i];
    }
  }

  /** And so does one that had itself written something. */
  lemma KeptBelow(job: Job, before: seq<byte>, i: nat, out: seq<byte>, after: seq<byte>, more: seq<byte>)
    requires job.Holds(before, i, out) && |more| <= i <= |after| == |before|
    requires after[i - |more|..i] == more && after[i..] == before[i..]
    ensures job.Kept(after, more + out)
  {
    HoldsKept(job, before, i, out);
    assert after[i - |more|..job.end] == after[i - |more|..i] + after[i..job.end];
  }

  /** The route that a child offers, and no other, gives its record in front of index i, or the error. */
  ghost predicate Dispatched(x: Option<Child>, key: seq<byte>, buf: seq<byte>, i: nat, r: Result<nat, string>) {
    match x
    case None => r == Success(i)
    case Some(Child(true, Failure(e), _, _, _, _)) => r == Failure(e)
    case Some(Child(false, _, Failure(e), _, _, _)) => r == Failure(e)
    case Some(Child(true, Success(bs), _, _, _, _)) =>
      r.Success? && Inserted(buf, r.value, i, key + VarintBytes(|bs|) + bs)
    case Some(Child(false, _, Success(bs), _, _, _)) =>
      r.Success? && Inserted(buf, r.value, i, key + VarintBytes(|bs|) + bs)
  }

  /** An optional child behind the two-way dispatch. */
  method PutChild(dAtA: array<byte>, i: nat, key: seq<byte>, x: Option<Child>,
                  ghost num: FieldNumber, ghost k: nat, ghost job: Job)
    returns (r: Result<nat, string>)
    requires job.Valid() && job.Done(dAtA[..], i, k + 1) && k < |job.fields|
    requires job.fields[k] == OptionalField(num, ShapeChild(Written, x)) && key == Key(num, LEN)
    modifies dAtA
    ensures ChildError(x).None? ==> r.Success? && job.Done(dAtA[..], r.value, k)
    ensures ChildError(x).Some? ==> r == Failure(ChildError(x).value) && job.Kept(dAtA[..], job.From(k + 1))
    ensures Dispatched(x, key, dAtA[..], i, r)
  {
    hide EncodeRecord, Key, Splice, VarintBytes;
    HoldsKept(job, dAtA[..], i, job.From(k + 1));
    var j := i;
    if x.Some? {
      ghost var payload := ShapeChild(Written, x).value;
      RoomForMessage(job, k, num, payload, dAtA[..], i);
      if x.value.fastMarshal {
        var size :- MarshalFast(x, dAtA, i);
        j := PutPrefix(dAtA, i - size, size, key, num, payload, job.From(k + 1), job);
      } else {
        var encoded :- x.value.protoEncoded;
        j := CopyBytes(dAtA, i, encoded);
        j := PutPrefix(dAtA, j, |encoded|, key, num, payload, job.From(k + 1), job);
      }
      job.InFront(dAtA[..], i, j, k);
      LenBytes(num, payload);
      EncodeOne(Len(num, payload));
    } else {
      AbsentField(job, k);
    }
    return Success(j);
  }

  method AddChild(n: int, keySize: int, x: Option<Child>, ghost num: FieldNumber, ghost k: nat, ghost job: Job)
    returns (n': int)
    requires k < |job.fields| && job.fields[k] == OptionalField(num, ShapeChild(Declared, x))
    requires keySize == |Key(num, LEN)| && Sized(job, n, k)
    ensures Sized(job, n', k + 1)
  {
    hide EncodeRecord, Key;
    n' := n;
    if x.Some? {
      var l := if x.value.fastSize then x.value.vtSize else x.value.protoSize;
      n' := AddMessage(n, keySize, l, num, ShapeChild(Declared, x).value, k, job);
    } else {
      AbsentField(job, k);
    }
  }

  /* ----- HostHealthStatus ----- */

  lemma HealthLayoutAt(k: HealthFields)
    ensures |HealthLayout(k)| == 8
    ensures HealthLayout(k)[0] == BoolField(1, k.failedActiveHealthCheck)
    ensures HealthLayout(k)[1] == BoolField(2, k.failedOutlierCheck)
    ensures HealthLayout(k)[2] == VarintField(3, Uint64Of(k.edsHealthStatus))
    ensures HealthLayout(k)[3] == BoolField(4, k.failedActiveDegradedCheck)
    ensures HealthLayout(k)[4] == BoolField(5, k.pendingDynamicRemoval)
    ensures HealthLayout(k)[5] == BoolField(6, k.pendingActiveHc)
    ensures HealthLayout(k)[6] == BoolField(7, k.excludedViaImmediateHcFail)
    ensures HealthLayout(k)[7] == BoolField(8, k.activeHcTimeout)
  {
    hide BoolField, VarintField, Uint64Of;
  }

  method MarshalHealth(m: Option<HostHealthStatus>, dAtA: array<byte>, end: nat) returns (n: nat)
    requires |EncodeHealthOrNil(m)| <= end <= dAtA.Length <= MAX_INT
    modifies dAtA
    ensures n == |EncodeHealthOrNil(m)|
    ensures dAtA[..] == Splice(old(dAtA[..]), end, EncodeHealthOrNil(m))
  {
    hide EncodeRecord, EncodeRecords, EncodeFields, Splice, Job.From, Job.Valid, Job.Holds, Job.Done, HealthLayout,
      BoolField, VarintField, Uint64Of, Inserted;
    if m.None? {
      SpliceNothing(dAtA[..], end);
      return 0;
    }
    var k := m.value.fields;
    HealthLayoutAt(k);
    ghost var job := Job(dAtA[..], end, HealthLayout(k), m.value.unknownFields);
    JobFits(job);
    var i := PutUnknown(dAtA, end, m.value.unknownFields, job);
    i := PutBool(dAtA, i, [0x40], k.activeHcTimeout, 8, 7, job);
    i := PutBool(dAtA, i, [0x38], k.excludedViaImmediateHcFail, 7, 6, job);
    i := PutBool(dAtA, i, [0x30], k.pendingActiveHc, 6, 5, job);
    i := PutBool(dAtA, i, [0x28], k.pendingDynamicRemoval, 5, 4, job);
    i := PutBool(dAtA, i, [0x20], k.failedActiveDegradedCheck, 4, 3, job);
    i := PutVarint(dAtA, i, [0x18], Uint64Of(k.edsHealthStatus), 3, 2, job);
    i := PutBool(dAtA, i, [0x10], k.failedOutlierCheck, 2, 1, job);
    i := PutBool(dAtA, i, [0x8], k.failedActiveHealthCheck, 1, 0, job);
    Finish(job, dAtA[..], i);
    n := end - i;
  }

  method SizeHealth(m: Option<HostHealthStatus>) returns (n: int)
    requires |EncodeHealthOrNil(m)| <= MAX_INT
    ensures n == |EncodeHealthOrNil(m)|
  {
    hide EncodeRecord, EncodeRecords, EncodeFields, HealthLayout, BoolField, VarintField, Uint64Of, Sized;
    n := 0;
    if m.None? {
      return;
    }
    var k := m.value.fields;
    HealthLayoutAt(k);
    ghost var job := Job([], 0, HealthLayout(k), m.value.unknownFields);
    SizedStart(job);
    n := AddBool(n, 2, k.failedActiveHealthCheck, 1, 0, job);
    n := AddBool(n, 2, k.failedOutlierCheck, 2, 1, job);
    n := AddVarint(n, 1, Uint64Of(k.edsHealthStatus), 3, 2, job);
    n := AddBool(n, 2, k.failedActiveDegradedCheck, 4, 3, job);
    n := AddBool(n, 2, k.pendingDynamicRemoval, 5, 4, job);
    n := AddBool(n, 2, k.pendingActiveHc, 6, 5, job);
    n := AddBool(n, 2, k.excludedViaImmediateHcFail, 7, 6, job);
    n := AddBool(n, 2, k.activeHcTimeout, 8, 7, job);
    SizedEnd(job, n);
    n := n + |m.value.unknownFields|;
  }

  /* ----- HostStatus ----- */

  method MarshalHost(m: Option<Host>, dAtA: array<byte>, end: nat) returns (r: Result<nat, string>)
    requires |EncodeHost(ShapeHost(Written, m))| <= end <= dAtA.Length <= MAX_INT
    modifies dAtA
    ensures HostError(m).None? ==>
      && r == Success(|EncodeHost(ShapeHost(Written, m))|)
      && dAtA[..] == Splice(old(dAtA[..]), end, EncodeHost(ShapeHost(Written, m)))
    ensures HostError(m).Some? ==>
      && r == Failure(HostError(m).value) && |HostPlaced(m)| <= end
      && dAtA[end - |HostPlaced(m)|..end] == HostPlaced(m) && dAtA[end..] == old(dAtA[end..])
  {
    hide EncodeRecord, EncodeRecords, EncodeFields, Elements, RepeatedField, Splice, Job.From, Job.Valid, HostLayout,
      StringField, VarintField, Key, ShapeChild, ChildError, StatsError, EncodeHealth, OptionalField, StatBytes,
      ShapeStat, MapOption, Job.Holds, Job.Done, HostPlaced, StatsPlaced, Dispatched, Inserted;
    if m.None? {
      SpliceNothing(dAtA[..], end);
      return Success(0);
    }
    var k := m.value.fields;
    ghost var w := ShapeHost(Written, m).value.fields;
    HostLayoutAt(w);
    ClusterKeys();
    ghost var job := Job(dAtA[..], end, HostLayout(w), m.value.unknownFields);
    JobFits(job);
    HostPlacedAt(m.value, job);
    var i := PutUnknown(dAtA, end, m.value.unknownFields, job);
    i :- PutChild(dAtA, i, [0x4a], k.locality, 9, 8, job);
    i :- PutChild(dAtA, i, [0x42], k.localOriginSuccessRate, 8, 7, job);
    i := PutVarint(dAtA, i, [0x38], k.priority, 7, 6, job);
    i := PutString(dAtA, i, [0x32], k.hostname, 6, 5, job);
    i := PutVarint(dAtA, i, [0x28], k.weight, 5, 4, job);
    i :- PutChild(dAtA, i, [0x22], k.successRate, 4, 3, job);
    i := PutHealth(dAtA, i, k.healthStatus, job);
    i :- PutStats(dAtA, i, k.stats, job);
    i :- PutChild(dAtA, i, [0xa], k.address, 1, 0, job);
    Finish(job, dAtA[..], i);
    return Success(end - i);
  }

  method PutHealth(dAtA: array<byte>, end: nat, health: Option<HostHealthStatus>, ghost job: Job) returns (i: nat)
    requires job.Valid() && job.Done(dAtA[..], end, 3) && |job.fields| > 2
    requires job.fields[2] == OptionalField(3, MapOption(EncodeHealth, health))
    modifies dAtA
    ensures job.Done(dAtA[..], i, 2)
  {
    hide EncodeRecord, Splice, EncodeHealth;
    i := end;
    if health.Some? {
      ghost var healthBytes := EncodeHealth(health.value);
      RoomForMessage(job, 2, 3, healthBytes, dAtA[..], i);
      var size := MarshalHealth(health, dAtA, i);
      i := PutPrefix(dAtA, i - size, size, [0x1a], 3, healthBytes, job.From(3), job);
    } else {
      AbsentField(job, 2);
    }
  }

  method PutStats(dAtA: array<byte>, end: nat, stats: seq<Option<Child>>, ghost job: Job)
    returns (r: Result<nat, string>)
    requires job.Valid() && job.Done(dAtA[..], end, 2) && |job.fields| > 1
    requires job.fields[1] == RepeatedField(2, Map(StatBytes, Map(StatShaper(Written), stats)))
    modifies dAtA
    ensures StatsError(stats).None? ==> r.Success? && job.Done(dAtA[..], r.value, 1)
    ensures StatsError(stats).Some? ==>
      r == Failure(StatsError(stats).value) && job.Kept(dAtA[..], StatsPlaced(stats, job.From(2)))
  {
    hide EncodeRecord, Elements, Splice, RepeatedField, ShapeStat, StatError, StatBytes, Key, Map, Job.From,
      LastFailing, StatsPlaced;
    ClusterKeys();
    ghost var statsBytes := Map(StatBytes, Map(StatShaper(Written), stats));
    var i := end;
    ElementsEnds(job, 1, 2, statsBytes);
    assert stats[..|stats|] == stats;
    var iNdEx := |stats| - 1;
    while iNdEx >= 0
      invariant -1 <= iNdEx < |stats|
      invariant StatsError(stats) == StatsError(stats[..iNdEx + 1])
      invariant StatsError(stats).Some? ==> LastFailing(StatError, stats) == LastFailing(StatError, stats[..iNdEx + 1])
      invariant job.Holds(dAtA[..], i, Elements(job, 1, 2, statsBytes, iNdEx + 1))
    {
      RoomForElement(job, 1, 2, statsBytes, iNdEx, dAtA[..], i);
      HoldsKept(job, dAtA[..], i, Elements(job, 1, 2, statsBytes, iNdEx + 1));
      assert stats[..iNdEx + 1][..iNdEx] == stats[..iNdEx];
      LastFailingStep(StatError, stats, iNdEx);
      if StatError(stats[iNdEx]).Some? {
        StatsPlacedAt(job, stats, iNdEx);
      }
      var size :- MarshalFast(stats[iNdEx], dAtA, i);
      i := PutPrefix(dAtA, i - size, size, [0x12], 2, statsBytes[iNdEx],
                     Elements(job, 1, 2, statsBytes, iNdEx + 1), job);
      iNdEx := iNdEx - 1;
    }
    assert stats[..0] == [];
    return Success(i);
  }

  method SizeHost(m: Option<Host>) returns (n: int)
    requires |EncodeHost(ShapeHost(Declared, m))| <= MAX_INT
    ensures n == |EncodeHost(ShapeHost(Declared, m))|
  {
    hide EncodeRecord, EncodeRecords, EncodeFields, Elements, RepeatedField, SizeOfVarint, HostLayout, StringField,
      VarintField, Key, ShapeChild, ShapeStat, StatBytes, EncodeHealth, Sized;
    n := 0;
    if m.None? {
      return;
    }
    var k := m.value.fields;
    ghost var w := ShapeHost(Declared, m).value.fields;
    ghost var job := Job([], 0, HostLayout(w), m.value.unknownFields);
    SizedStart(job);
    HostLayoutAt(w);
    ClusterKeys();
    n := AddChild(n, 1, k.address, 1, 0, job);
    n := AddStats(n, k.stats, job);
    n := AddHealth(n, k.healthStatus, job);
    n := AddChild(n, 1, k.successRate, 4, 3, job);
    n := AddVarint(n, 1, k.weight, 5, 4, job);
    n := AddString(n, 1, k.hostname, 6, 5, job);
    n := AddVarint(n, 1, k.priority, 7, 6, job);
    n := AddChild(n, 1, k.localOriginSuccessRate, 8, 7, job);
    n := AddChild(n, 1, k.locality, 9, 8, job);
    SizedEnd(job, n);
    n := n + |m.value.unknownFields|;
  }

  method AddStats(n: int, stats: seq<Option<Child>>, ghost job: Job) returns (n': int)
    requires |EncodeFields(job.fields, job.unknownFields)| <= MAX_INT && |job.fields| > 1
    requires job.fields[1] == RepeatedField(2, Map(StatBytes, Map(StatShaper(Declared), stats)))
    requires Sized(job, n, 1)
    ensures Sized(job, n', 2)
  {
    hide EncodeRecord, EncodeRecords, EncodeFields, Elements, RepeatedField, SizeOfVarint, ShapeStat, StatBytes;
    ghost var statsBytes := Map(StatBytes, Map(StatShaper(Declared), stats));
    n' := n;
    FieldFits(job.fields, job.unknownFields, 1);
    ElementsEnds(job, 1, 2, statsBytes);
    for j := 0 to |stats|
      invariant SizedElements(job, n', 1, 2, statsBytes, j)
    {
      SizedElement(job, n', 1, 2, statsBytes, j);
      RepeatedPayloadFits(2, statsBytes, j);
      var l := SizeStat(stats[j]);
      n' := n' + 1 + l + SizeOfVarint(l);
    }
  }

  method AddHealth(n: int, health: Option<HostHealthStatus>, ghost job: Job) returns (n': int)
    requires |EncodeFields(job.fields, job.unknownFields)| <= MAX_INT && |job.fields| > 2
    requires job.fields[2] == OptionalField(3, MapOption(EncodeHealth, health))
    requires Sized(job, n, 2)
    ensures Sized(job, n', 3)
  {
    hide EncodeRecord, EncodeRecords, EncodeFields, EncodeHealth;
    n' := n;
    if health.Some? {
      ghost var healthBytes := EncodeHealth(health.value);
      FieldFits(job.fields, job.unknownFields, 2);
      OptionalPayloadFits(3, healthBytes);
      var l := SizeHealth(health);
      n' := AddMessage(n, 1, l, 3, healthBytes, 2, job);
    } else {
      AbsentField(job, 2);
    }
  }

  method SizeStat(x: Option<Child>) returns (n: int)
    ensures n == |StatBytes(ShapeStat(Declared, x))|
  {
    n := if x.None? then 0 else x.value.vtSize;
  }

  lemma HostLayoutAt(k: WireHostFields)
    ensures |HostLayout(k)| == 9
    ensures HostLayout(k)[0] == OptionalField(1, k.address)
    ensures HostLayout(k)[1] == RepeatedField(2, Map(StatBytes, k.stats))
    ensures HostLayout(k)[2] == OptionalField(3, MapOption(EncodeHealth, k.healthStatus))
    ensures HostLayout(k)[3] == OptionalField(4, k.successRate)
    ensures HostLayout(k)[4] == VarintField(5, k.weight)
    ensures HostLayout(k)[5] == StringField(6, k.hostname)
    ensures HostLayout(k)[6] == VarintField(7, k.priority)
    ensures HostLayout(k)[7] == OptionalField(8, k.localOriginSuccessRate)
    ensures HostLayout(k)[8] == OptionalField(9, k.locality)
  {
    hide OptionalField, RepeatedField, VarintField, StringField, MapOption, Map;
  }

  lemma ClusterLayoutAt(k: WireClusterFields)
    ensures |ClusterLayout(k)| == 8
    ensures ClusterLayout(k)[0] == StringField(1, k.name)
    ensures ClusterLayout(k)[1] == BoolField(2, k.addedViaApi)
    ensures ClusterLayout(k)[2] == OptionalField(3, k.successRateEjectionThreshold)
    ensures ClusterLayout(k)[3] == RepeatedField(4, Map(EncodeHost, k.hostStatuses))
    ensures ClusterLayout(k)[4] == OptionalField(5, k.localOriginSuccessRateEjectionThreshold)
    ensures ClusterLayout(k)[5] == OptionalField(6, k.circuitBreakers)
    ensures ClusterLayout(k)[6] == StringField(7, k.observabilityName)
    ensures ClusterLayout(k)[7] == StringField(8, k.edsServiceName)
  {
    hide OptionalField, RepeatedField, BoolField, StringField, Map;
  }

  /** The key literals of the two messages. */
  lemma ClusterKeys()
    ensures Key(1, LEN) == [0xa] && Key(2, LEN) == [0x12] && Key(3, LEN) == [0x1a] && Key(4, LEN) == [0x22]
    ensures Key(5, LEN) == [0x2a] && Key(6, LEN) == [0x32] && Key(7, LEN) == [0x3a] && Key(8, LEN) == [0x42]
    ensures Key(9, LEN) == [0x4a] && Key(2, VARINT) == [0x10] && Key(5, VARINT) == [0x28] && Key(7, VARINT) == [0x38]
  {
  }

  /* ----- ClusterStatus ----- */

  method MarshalCluster(m: Option<Cluster>, dAtA: array<byte>, end: nat) returns (r: Result<nat, string>)
    requires |EncodeCluster(ShapeCluster(Written, m))| <= end <= dAtA.Length <= MAX_INT
    modifies dAtA
    ensures ClusterError(m).None? ==>
      && r == Success(|EncodeCluster(ShapeCluster(Written, m))|)
      && dAtA[..] == Splice(old(dAtA[..]), end, EncodeCluster(ShapeCluster(Written, m)))
    ensures ClusterError(m).Some? ==>
      && r == Failure(ClusterError(m).value) && |ClusterPlaced(m)| <= end
      && dAtA[end - |ClusterPlaced(m)|..end] == ClusterPlaced(m) && dAtA[end..] == old(dAtA[end..])
  {
    hide EncodeRecord, EncodeRecords, EncodeFields, Elements, RepeatedField, Splice, Job.From, Job.Valid,
      ClusterLayout, StringField, BoolField, Key, ShapeChild, ChildError, HostsError, OptionalField, EncodeHost,
      ShapeHost, Job.Holds, Job.Done, ClusterPlaced, HostsPlaced, Dispatched, Inserted;
    if m.None? {
      SpliceNothing(dAtA[..], end);
      return Success(0);
    }
    var k := m.value.fields;
    ghost var w := ShapeCluster(Written, m).value.fields;
    ClusterLayoutAt(w);
    ClusterKeys();
    ghost var job := Job(dAtA[..], end, ClusterLayout(w), m.value.unknownFields);
    JobFits(job);
    ClusterPlacedAt(m.value, job);
    var i := PutUnknown(dAtA, end, m.value.unknownFields, job);
    i := PutString(dAtA, i, [0x42], k.edsServiceName, 8, 7, job);
    i := PutString(dAtA, i, [0x3a], k.observabilityName, 7, 6, job);
    i :- PutChild(dAtA, i, [0x32], k.circuitBreakers, 6, 5, job);
    i :- PutChild(dAtA, i, [0x2a], k.localOriginSuccessRateEjectionThreshold, 5, 4, job);
    i :- PutHosts(dAtA, i, k.hostStatuses, job);
    i :- PutChild(dAtA, i, [0x1a], k.successRateEjectionThreshold, 3, 2, job);
    i := PutBool(dAtA, i, [0x10], k.addedViaApi, 2, 1, job);
    i := PutString(dAtA, i, [0xa], k.name, 1, 0, job);
    Finish(job, dAtA[..], i);
    return Success(end - i);
  }

  method PutHosts(dAtA: array<byte>, end: nat, hosts: seq<Option<Host>>, ghost job: Job)
    returns (r: Result<nat, string>)
    requires job.Valid() && job.Done(dAtA[..], end, 4) && |job.fields| > 3
    requires job.fields[3] == RepeatedField(4, Map(EncodeHost, Map(HostShaper(Written), hosts)))
    modifies dAtA
    ensures HostsError(hosts).None? ==> r.Success? && job.Done(dAtA[..], r.value, 3)
    ensures HostsError(hosts).Some? ==>
      r == Failure(HostsError(hosts).value) && job.Kept(dAtA[..], HostsPlaced(hosts, job.From(4)))
  {
    hide EncodeRecord, Elements, Splice, RepeatedField, ShapeHost, HostError, EncodeHost, Map, Job.From, LastFailing,
      HostsPlaced, HostPlaced, Job.Kept;
    ghost var hostsBytes := Map(EncodeHost, Map(HostShaper(Written), hosts));
    var i := end;
    ElementsEnds(job, 3, 4, hostsBytes);
    assert hosts[..|hosts|] == hosts;
    var iNdEx := |hosts| - 1;
    while iNdEx >= 0
      invariant -1 <= iNdEx < |hosts|
      invariant HostsError(hosts) == HostsError(hosts[..iNdEx + 1])
      invariant HostsError(hosts).Some? ==> LastFailing(HostError, hosts) == LastFailing(HostError, hosts[..iNdEx + 1])
      invariant job.Holds(dAtA[..], i, Elements(job, 3, 4, hostsBytes, iNdEx + 1))
    {
      RoomForElement(job, 3, 4, hostsBytes, iNdEx, dAtA[..], i);
      ghost var before, out := dAtA[..], Elements(job, 3, 4, hostsBytes, iNdEx + 1);
      assert hosts[..iNdEx + 1][..iNdEx] == hosts[..iNdEx];
      LastFailingStep(HostError, hosts, iNdEx);
      var run := MarshalHost(hosts[iNdEx], dAtA, i);
      if run.Failure? {
        KeptBelow(job, before, i, out, dAtA[..], HostPlaced(hosts[iNdEx]));
        HostsPlacedAt(job, hosts, iNdEx);
        return run;
      }
      var size := run.value;
      i := PutPrefix(dAtA, i - size, size, [0x22], 4, hostsBytes[iNdEx],
                     Elements(job, 3, 4, hostsBytes, iNdEx + 1), job);
      iNdEx := iNdEx - 1;
    }
    assert hosts[..0] == [];
    return Success(i);
  }

  method SizeCluster(m: Option<Cluster>) returns (n: int)
    requires |EncodeCluster(ShapeCluster(Declared, m))| <= MAX_INT
    ensures n == |EncodeCluster(ShapeCluster(Declared, m))|
  {
    hide EncodeRecord, EncodeRecords, EncodeFields, Elements, RepeatedField, SizeOfVarint, ClusterLayout,
      StringField, BoolField, Key, ShapeChild, EncodeHost, ShapeHost;
    n := 0;
    if m.None? {
      return;
    }
    var k := m.value.fields;
    ghost var w := ShapeCluster(Declared, m).value.fields;
    ghost var job := Job([], 0, ClusterLayout(w), m.value.unknownFields);
    SizedStart(job);
    ClusterLayoutAt(w);
    ClusterKeys();
    ghost var hostStatusesBytes := Map(EncodeHost, w.hostStatuses);
    n := AddString(n, 1, k.name, 1, 0, job);
    n := AddBool(n, 2, k.addedViaApi, 2, 1, job);
    n := AddChild(n, 1, k.successRateEjectionThreshold, 3, 2, job);
    FieldFits(job.fields, job.unknownFields, 3);
    ElementsEnds(job, 3, 4, hostStatusesBytes);
    for j := 0 to |k.hostStatuses|
      invariant SizedElements(job, n, 3, 4, hostStatusesBytes, j)
    {
      SizedElement(job, n, 3, 4, hostStatusesBytes, j);
      RepeatedPayloadFits(4, hostStatusesBytes, j);
      var l := SizeHost(k.hostStatuses[j]);
      n := n + 1 + l + SizeOfVarint(l);
    }
    n := AddChild(n, 1, k.localOriginSuccessRateEjectionThreshold, 5, 4, job);
    n := AddChild(n, 1, k.circuitBreakers, 6, 5, job);
    n := AddString(n, 1, k.observabilityName, 7, 6, job);
    n := AddString(n, 1, k.edsServiceName, 8, 7, job);
    SizedEnd(job, n);
    n := n + |m.value.unknownFields|;
  }

  /* ----- Clusters ----- */

  method MarshalClusters(m: Option<ClustersValue>, dAtA: array<byte>, end: nat) returns (r: Result<nat, string>)
    requires |EncodeClusters(ShapeClusters(Written, m))| <= end <= dAtA.Length <= MAX_INT
    modifies dAtA
    ensures ClustersError(m).None? ==>
      && r == Success(|EncodeClusters(ShapeClusters(Written, m))|)
      && dAtA[..] == Splice(old(dAtA[..]), end, EncodeClusters(ShapeClusters(Written, m)))
    ensures ClustersError(m).Some? ==>
      && r == Failure(ClustersError(m).value) && |ClustersPlaced(m)| <= end
      && dAtA[end - |ClustersPlaced(m)|..end] == ClustersPlaced(m) && dAtA[end..] == old(dAtA[end..])
  {
    hide EncodeRecord, EncodeRecords, EncodeFields, Elements, RepeatedField, Splice, Job.From, Job.Valid,
      ShapeCluster, EncodeCluster, ClusterListPlaced;
    if m.None? {
      SpliceNothing(dAtA[..], end);
      return Success(0);
    }
    var k := m.value.fields;
    ghost var w := ShapeClusters(Written, m).value.fields;
    ghost var job := Job(dAtA[..], end, ClustersLayout(w), m.value.unknownFields);
    JobFits(job);
    UnknownOnly(job);
    var i := PutUnknown(dAtA, end, m.value.unknownFields, job);
    i :- PutClusters(dAtA, i, k.clusterStatuses, job);
    Finish(job, dAtA[..], i);
    return Success(end - i);
  }

  method PutClusters(dAtA: array<byte>, end: nat, clusters: seq<Option<Cluster>>, ghost job: Job)
    returns (r: Result<nat, string>)
    requires job.Valid() && job.Done(dAtA[..], end, 1) && |job.fields| > 0
    requires job.fields[0] == RepeatedField(1, Map(EncodeCluster, Map(ClusterShaper(Written), clusters)))
    modifies dAtA
    ensures ClusterListError(clusters).None? ==> r.Success? && job.Done(dAtA[..], r.value, 0)
    ensures ClusterListError(clusters).Some? ==>
      r == Failure(ClusterListError(clusters).value) && job.Kept(dAtA[..], ClusterListPlaced(clusters, job.From(1)))
  {
    hide EncodeRecord, Elements, Splice, RepeatedField, ShapeCluster, ClusterError, EncodeCluster, Map, Job.From,
      LastFailing, ClusterListPlaced, ClusterPlaced, Job.Kept;
    ghost var clustersBytes := Map(EncodeCluster, Map(ClusterShaper(Written), clusters));
    var i := end;
    ElementsEnds(job, 0, 1, clustersBytes);
    assert clusters[..|clusters|] == clusters;
    var iNdEx := |clusters| - 1;
    while iNdEx >= 0
      invariant -1 <= iNdEx < |clusters|
      invariant ClusterListError(clusters) == ClusterListError(clusters[..iNdEx + 1])
      invariant ClusterListError(clusters).Some? ==>
        LastFailing(ClusterError, clusters) == LastFailing(ClusterError, clusters[..iNdEx + 1])
      invariant job.Holds(dAtA[..], i, Elements(job, 0, 1, clustersBytes, iNdEx + 1))
    {
      RoomForElement(job, 0, 1, clustersBytes, iNdEx, dAtA[..], i);
      ghost var before, out := dAtA[..], Elements(job, 0, 1, clustersBytes, iNdEx + 1);
      assert clusters[..iNdEx + 1][..iNdEx] == clusters[..iNdEx];
      LastFailingStep(ClusterError, clusters, iNdEx);
      var run := MarshalCluster(clusters[iNdEx], dAtA, i);
      if run.Failure? {
        KeptBelow(job, before, i, out, dAtA[..], ClusterPlaced(clusters[iNdEx]));
        ClusterListPlacedAt(job, clusters, iNdEx);
        return run;
      }
      var size := run.value;
      i := PutPrefix(dAtA, i - size, size, [0xa], 1, clustersBytes[iNdEx],
                     Elements(job, 0, 1, clustersBytes, iNdEx + 1), job);
      iNdEx := iNdEx - 1;
    }
    assert clusters[..0] == [];
    return Success(i);
  }

  method SizeClusters(m: Option<ClustersValue>) returns (n: int)
    requires |EncodeClusters(ShapeClusters(Declared, m))| <= MAX_INT
    ensures n == |EncodeClusters(ShapeClusters(Declared, m))|
  {
    hide EncodeRecord, EncodeRecords, EncodeFields, Elements, RepeatedField, SizeOfVarint, ShapeCluster, EncodeCluster;
    n := 0;
    if m.None? {
      return;
    }
    var k := m.value.fields;
    ghost var w := ShapeClusters(Declared, m).value.fields;
    ghost var job := Job([], 0, ClustersLayout(w), m.value.unknownFields);
    SizedStart(job);
    ghost var clusterStatusesBytes := Map(EncodeCluster, w.clusterStatuses);
    FieldFits(job.fields, job.unknownFields, 0);
    ElementsEnds(job, 0, 1, clusterStatusesBytes);
    for j := 0 to |k.clusterStatuses|
      invariant SizedElements(job, n, 0, 1, clusterStatusesBytes, j)
    {
      SizedElement(job, n, 0, 1, clusterStatusesBytes, j);
      RepeatedPayloadFits(1, clusterStatusesBytes, j);
      var l := SizeCluster(k.clusterStatuses[j]);
      n := n + 1 + l + SizeOfVarint(l);
    }
    SizedEnd(job, n);
    n := n + |m.value.unknownFields|;
  }

  /* ----- MarshalVTStrict, and when it is right ----- */

  /** How a call ends: with bytes, with the error of a child, or with a panic. */
  datatype Ending = Returned(bs: Bytes) | Failed(error: string) | Panicked

  function WrittenBytes(m: Option<ClustersValue>): Bytes {
    EncodeClusters(ShapeClusters(Written, m))
  }

  function DeclaredSize(m: Option<ClustersValue>): nat {
    |EncodeClusters(ShapeClusters(Declared, m))|
  }

  /**
   * MarshalVTStrict allocates what SizeVT declares, writes at the end of that buffer and returns
   * its first n bytes. The buffer here is extended below by `pad`, so that a run can go on where it
   * would index below 0. It panics exactly when what it writes, up to its end or to the child that
   * fails, is more than was declared.
   */
  method MarshalVTStrict(m: Option<ClustersValue>) returns (r: Ending)
    requires |WrittenBytes(m)| <= MAX_INT && DeclaredSize(m) <= MAX_INT
    ensures r == StrictEnding(m)
  {
    hide EncodeClusters, ShapeClusters, ClustersPlaced, ClustersError, Splice;
    if m.None? {
      NilClusters();
      EndsWithPrefix(m, []);
      return Returned([]);
    }
    var size := SizeClusters(m);
    var pad := if size < |WrittenBytes(m)| then |WrittenBytes(m)| - size else 0;
    var dAtA := new byte[pad + size](_ => 0);
    assert dAtA[..] == Zeros(pad + size);
    var run := MarshalClusters(m, dAtA, pad + size);
    var n := if run.Failure? then |ClustersPlaced(m)| else run.value;
    if n > size {
      return Panicked;
    }
    if run.Failure? {
      return Failed(run.error);
    }
    EndsWithPrefix(m, dAtA[..]);
    return Returned(dAtA[pad..pad + n]);
  }

  lemma NilClusters()
    ensures WrittenBytes(None) == [] && DeclaredSize(None) == 0 && ClustersError(None).None?
    ensures Splice(Zeros(0), 0, []) == []
  {
  }

  lemma SpliceOverZeros(size: nat, out: Bytes)
    requires |out| <= size
    ensures Splice(Zeros(size), size, out) == Zeros(size - |out|) + out
  {
  }

  /** A run that fits: the buffer is not extended, and its first bytes are returned. */
  lemma EndsWithPrefix(m: Option<ClustersValue>, buf: Bytes)
    requires ClustersError(m).None? && |WrittenBytes(m)| <= DeclaredSize(m)
    requires buf == Splice(Zeros(DeclaredSize(m)), DeclaredSize(m), WrittenBytes(m))
    ensures |WrittenBytes(m)| <= |buf| && StrictEnding(m) == Returned(buf[..|WrittenBytes(m)|])
  {
    hide WrittenBytes, DeclaredSize, ClustersError, Splice;
    SpliceOverZeros(DeclaredSize(m), WrittenBytes(m));
  }

  /** How many bytes a run writes until it ends, or until it comes to the child that fails. */
  function BytesReached(m: Option<ClustersValue>): nat {
    if ClustersError(m).Some? then |ClustersPlaced(m)| else |WrittenBytes(m)|
  }

  ghost function StrictEnding(m: Option<ClustersValue>): Ending {
    var written, declared := WrittenBytes(m), DeclaredSize(m);
    if declared < BytesReached(m) then Panicked
    else if ClustersError(m).Some? then Failed(ClustersError(m).value)
    else Returned((Zeros(declared - |written|) + written)[..|written|])
  }

  lemma WrittenStarts(m: Option<ClustersValue>)
    requires m.Some? ==> Parse(m.value.unknownFields).Some?
    ensures WrittenBytes(m) != [] ==> WrittenBytes(m)[0] != 0
  {
    hide Parse, EncodeFields, ClustersLayout;
    if WrittenBytes(m) != [] {
      FirstByte(ClustersLayout(ShapeClusters(Written, m).value.fields), m.value.unknownFields);
    }
  }

  /**
   * The ways it can end: with the encoding exactly when no child fails and SizeVT was right or there
   * was nothing to write; with a panic exactly when too little was declared for what is written up to
   * its end or to the first child that fails; with that child's error otherwise; and when too much was
   * declared, with other bytes, of which the first is zero and which no message encodes to.
   */
  lemma StrictOutcome(m: Option<ClustersValue>)
    requires m.Some? ==> Parse(m.value.unknownFields).Some?
    ensures StrictEnding(m) == Returned(WrittenBytes(m)) <==>
      ClustersError(m).None? && (DeclaredSize(m) == |WrittenBytes(m)| || WrittenBytes(m) == [])
    ensures StrictEnding(m) == Panicked <==> DeclaredSize(m) < BytesReached(m)
    ensures StrictEnding(m).Failed? <==> ClustersError(m).Some? && BytesReached(m) <= DeclaredSize(m)
    ensures ClustersError(m).None? && DeclaredSize(m) > |WrittenBytes(m)| > 0 ==>
      StrictEnding(m).Returned? && |StrictEnding(m).bs| == |WrittenBytes(m)| && StrictEnding(m).bs[0] == 0
  {
    hide EncodeClusters, ShapeClusters, ClustersError, ClustersPlaced;
    var written, declared := WrittenBytes(m), DeclaredSize(m);
    WrittenStarts(m);
    if declared == |written| {
      assert Zeros(0) + written == written;
    }
  }

  /** A tree with one child that can be wrong about its size. */
  function OneChild(c: Child): ClustersValue {
    Msg(ClustersFields([Some(Msg(ClusterFields([], false, Some(c), [], None, None, [], []), []))]), [])
  }

  lemma OneChildBytes(v: View, c: Child)
    ensures EncodeClusters(ShapeClusters(v, Some(OneChild(c)))) ==
            EncodeRecord(Len(1, EncodeRecord(Len(3, ShapeChild(v, Some(c)).value))))
  {
    var p := ShapeChild(v, Some(c)).value;
    hide EncodeRecord, EncodeFields, ShapeChild;
    NoChild(v);
    assert Map(HostShaper(v), []) == [];
    var cluster := ShapeCluster(v, OneChild(c).fields.clusterStatuses[0]);
    assert cluster == OneThreshold(p).fields.clusterStatuses[0];
    assert ShapeClusters(v, Some(OneChild(c))).value.fields.clusterStatuses == [cluster];
    OneThresholdBytes(p);
  }

  lemma NoChild(v: View)
    ensures ShapeChild(v, None) == None
  {
  }

  lemma RecordOrder(num: FieldNumber, p: Bytes, q: Bytes)
    ensures |EncodeRecord(Len(num, p))| < |EncodeRecord(Len(num, q))| <==> |p| < |q|
    ensures |EncodeRecord(Len(num, p))| == |EncodeRecord(Len(num, q))| <==> |p| == |q|
  {
    hide EncodeRecord;
    if |p| < |q| {
      LongerRecord(num, p, q);
    } else if |q| < |p| {
      LongerRecord(num, q, p);
    } else {
      RecordLength(num, p, q);
    }
  }

  lemma ErrorFromOne(c: Child)
    ensures ClustersError(Some(OneChild(c))) == ChildError(Some(c))
  {
    hide ChildError;
    NoErrorFromNone();
    var xs := OneChild(c).fields.clusterStatuses;
    assert xs[..0] == [] && ClusterListError(xs[..0]).None?;
  }

  lemma NoErrorFromNone()
    ensures ChildError(None).None? && HostsError([]).None?
  {
  }

  /** The bytes of a tree whose one child wrote bs: field 3 of the one element of field 1. */
  function AroundOne(bs: Bytes): Bytes {
    var cluster := [0x1a] + VarintBytes(|bs|) + bs;
    [0xa] + VarintBytes(|cluster|) + cluster
  }

  lemma AroundOneBytes(bs: Bytes)
    ensures EncodeRecord(Len(1, EncodeRecord(Len(3, bs)))) == AroundOne(bs)
  {
    assert Key(1, LEN) == [0xa] && Key(3, LEN) == [0x1a];
    hide VarintBytes, Key;
  }

  /**
   * The two-way dispatch. A child with the fast marshaller is written by that one and never by
   * proto.Marshal, one without it by proto.Marshal only; an error of the route that is taken is the
   * error of the call; and the size declared is SizeVT where the child has it and proto.Size where not.
   */
  lemma OneChildRoutes(c: Child)
    ensures
      var m := Some(OneChild(c));
      && (c.fastMarshal && c.vtEncoded.Success? ==>
            ClustersError(m) == None && WrittenBytes(m) == AroundOne(c.vtEncoded.value))
      && (c.fastMarshal && c.vtEncoded.Failure? ==> ClustersError(m) == Some(c.vtEncoded.error))
      && (!c.fastMarshal && c.protoEncoded.Success? ==>
            ClustersError(m) == None && WrittenBytes(m) == AroundOne(c.protoEncoded.value))
      && (!c.fastMarshal && c.protoEncoded.Failure? ==> ClustersError(m) == Some(c.protoEncoded.error))
      && (c.fastSize ==> DeclaredSize(m) == |AroundOne(Zeros(c.vtSize))|)
      && (!c.fastSize ==> DeclaredSize(m) == |AroundOne(Zeros(c.protoSize))|)
  {
    hide EncodeRecord, EncodeClusters, ShapeClusters, ClustersError, AroundOne;
    ErrorFromOne(c);
    OneChildBytes(Written, c);
    OneChildBytes(Declared, c);
    AroundOneBytes(ShapeChild(Written, Some(c)).value);
    AroundOneBytes(ShapeChild(Declared, Some(c)).value);
  }

  /**
   * One child decides the outcome of the whole tree: right, too small (a panic) or too large (wrong
   * bytes). It writes bs by the route it offers, and declares `size` by the one it offers for that.
   */
  lemma OneChildOutcome(c: Child, bs: Bytes, size: nat)
    requires (if c.fastMarshal then c.vtEncoded else c.protoEncoded) == Success(bs)
    requires (if c.fastSize then c.vtSize else c.protoSize) == size
    ensures
      var m := Some(OneChild(c));
      && (StrictEnding(m) == Returned(AroundOne(bs)) <==> size == |bs|)
      && (StrictEnding(m) == Panicked <==> size < |bs|)
      && (size > |bs| ==> StrictEnding(m).Returned? && |StrictEnding(m).bs| > 0 && StrictEnding(m).bs[0] == 0)
  {
    OneChildRoutes(c);
    hide EncodeRecord, EncodeClusters, ShapeClusters, StrictEnding, ClustersPlaced, AroundOne;
    AroundOneBytes(bs);
    var p, q := ShapeChild(Written, Some(c)).value, ShapeChild(Declared, Some(c)).value;
    OneChildBytes(Written, c);
    OneChildBytes(Declared, c);
    RecordOrder(3, q, p);
    RecordOrder(1, EncodeRecord(Len(3, q)), EncodeRecord(Len(3, p)));
    StrictOutcome(Some(OneChild(c)));
  }

  /** A child that fails, by the route that it offers. */
  predicate FailsWith(x: Option<Child>, e: string) {
    match x
    case Some(Child(true, Failure(f), _, _, _, _)) => f == e
    case Some(Child(false, _, Failure(f), _, _, _)) => f == e
    case _ => false
  }

  /** Of several children of a host that fail, the one that is written first is reported: the last field. */
  lemma HostFailsInReverse(k: HostFields<Child, Child>, u: Bytes, e: string)
    ensures
      var error, n := HostError(Some(Msg(k, u))), |k.stats|;
      if k.locality.Some? then FailsWith(k.locality, e) ==> error == Some(e)
      else if k.localOriginSuccessRate.Some? then FailsWith(k.localOriginSuccessRate, e) ==> error == Some(e)
      else if k.successRate.Some? then FailsWith(k.successRate, e) ==> error == Some(e)
      else if n > 0 then k.stats[n - 1].Some? && k.stats[n - 1].value.vtEncoded == Failure(e) ==> error == Some(e)
      else FailsWith(k.address, e) ==> error == Some(e)
  {
  }

  /** And so for a cluster: circuit breakers first, the hosts between the two thresholds. */
  lemma ClusterFailsInReverse(k: ClusterFields<Child, Child>, u: Bytes, e: string)
    ensures
      var error, n := ClusterError(Some(Msg(k, u))), |k.hostStatuses|;
      var local := k.localOriginSuccessRateEjectionThreshold;
      if k.circuitBreakers.Some? then FailsWith(k.circuitBreakers, e) ==> error == Some(e)
      else if local.Some? then FailsWith(local, e) ==> error == Some(e)
      else if n > 0 then HostError(k.hostStatuses[n - 1]) == Some(e) ==> error == Some(e)
      else FailsWith(k.successRateEjectionThreshold, e) ==> error == Some(e)
  {
    hide HostError;
  }

  /* ----- sizes agree when the children's do ----- */

  /** A child that can be encoded takes as many bytes as it declares, by the routes that it offers for each. */
  predicate Agrees(x: Option<Child>) {
    match x
    case Some(Child(true, Success(bs), _, true, size, _)) => size == |bs|
    case Some(Child(true, Success(bs), _, false, _, size)) => size == |bs|
    case Some(Child(false, _, Success(bs), true, size, _)) => size == |bs|
    case Some(Child(false, _, Success(bs), false, _, size)) => size == |bs|
    case _ => true
  }

  predicate StatAgrees(x: Option<Child>) {
    x.Some? && x.value.vtEncoded.Success? ==> x.value.vtSize == |x.value.vtEncoded.value|
  }

  ghost predicate HostAgrees(m: Option<Host>) {
    m.Some? ==>
      var k := m.value.fields;
      && Agrees(k.address) && Agrees(k.successRate) && Agrees(k.localOriginSuccessRate) && Agrees(k.locality)
      && (forall x <- k.stats :: StatAgrees(x))
  }

  ghost predicate ClusterAgrees(m: Option<Cluster>) {
    m.Some? ==>
      var k := m.value.fields;
      && Agrees(k.successRateEjectionThreshold) && Agrees(k.localOriginSuccessRateEjectionThreshold)
      && Agrees(k.circuitBreakers)
      && (forall x <- k.hostStatuses :: HostAgrees(x))
  }

  ghost predicate ClustersAgree(m: Option<ClustersValue>) {
    m.Some? ==> forall x <- m.value.fields.clusterStatuses :: ClusterAgrees(x)
  }

  lemma {:induction false} NoStatError(xs: seq<Option<Child>>)
    ensures StatsError(xs).None? <==> forall x <- xs :: StatError(x).None?
  {
    if xs != [] {
      NoStatError(xs[..|xs| - 1]);
      assert xs == xs[..|xs| - 1] + [xs[|xs| - 1]];
    }
  }

  lemma {:induction false} NoHostError(xs: seq<Option<Host>>)
    ensures HostsError(xs).None? <==> forall x <- xs :: HostError(x).None?
  {
    hide HostError;
    if xs != [] {
      NoHostError(xs[..|xs| - 1]);
      assert xs == xs[..|xs| - 1] + [xs[|xs| - 1]];
    }
  }

  lemma {:induction false} NoClusterError(xs: seq<Option<Cluster>>)
    ensures ClusterListError(xs).None? <==> forall x <- xs :: ClusterError(x).None?
  {
    hide ClusterError;
    if xs != [] {
      NoClusterError(xs[..|xs| - 1]);
      assert xs == xs[..|xs| - 1] + [xs[|xs| - 1]];
    }
  }

  lemma ChildLength(num: FieldNumber, x: Option<Child>)
    requires Agrees(x) && ChildError(x).None?
    ensures |EncodeRecords(OptionalField(num, ShapeChild(Declared, x)))| ==
            |EncodeRecords(OptionalField(num, ShapeChild(Written, x)))|
  {
    hide EncodeRecords;
    OptionalLength(num, ShapeChild(Declared, x), ShapeChild(Written, x));
  }

  lemma StatsLength(xs: seq<Option<Child>>)
    requires StatsError(xs).None? && forall x <- xs :: StatAgrees(x)
    ensures |EncodeRecords(RepeatedField(2, Map(StatBytes, Map(StatShaper(Declared), xs))))| ==
            |EncodeRecords(RepeatedField(2, Map(StatBytes, Map(StatShaper(Written), xs))))|
  {
    hide EncodeRecords, RepeatedField;
    NoStatError(xs);
    var ps, qs := Map(StatBytes, Map(StatShaper(Declared), xs)), Map(StatBytes, Map(StatShaper(Written), xs));
    forall i | 0 <= i < |xs| ensures |ps[i]| == |qs[i]| {
      assert xs[i] in xs;
    }
    RepeatedLength(2, ps, qs);
  }

  lemma HostSizeRight(m: Option<Host>)
    requires HostAgrees(m) && HostError(m).None?
    ensures |EncodeHost(ShapeHost(Declared, m))| == |EncodeHost(ShapeHost(Written, m))|
  {
    if m.Some? {
      hide EncodeRecords, EncodeFields, RepeatedField, ShapeChild, ChildError, StatsError, Agrees, StatAgrees,
        OptionalField, HostLayout, StringField, VarintField, MapOption, EncodeHealth, StatBytes, ShapeStat;
      var k := m.value.fields;
      ChildLength(1, k.address);
      StatsLength(k.stats);
      ChildLength(4, k.successRate);
      ChildLength(8, k.localOriginSuccessRate);
      ChildLength(9, k.locality);
      var d, w := ShapeHost(Declared, m).value.fields, ShapeHost(Written, m).value.fields;
      HostLayoutAt(d);
      HostLayoutAt(w);
      var fs, gs := HostLayout(d), HostLayout(w);
      forall i | 0 <= i < 9 ensures |EncodeRecords(fs[i])| == |EncodeRecords(gs[i])| {
        assert i in {0, 1, 2, 3, 4, 5, 6, 7, 8};
      }
      SameLengths(fs, gs, m.value.unknownFields);
    }
  }

  lemma HostsLength(xs: seq<Option<Host>>)
    requires HostsError(xs).None? && forall x <- xs :: HostAgrees(x)
    ensures |EncodeRecords(RepeatedField(4, Map(EncodeHost, Map(HostShaper(Declared), xs))))| ==
            |EncodeRecords(RepeatedField(4, Map(EncodeHost, Map(HostShaper(Written), xs))))|
  {
    hide EncodeRecords, RepeatedField, EncodeHost, ShapeHost, HostAgrees, HostError;
    NoHostError(xs);
    var ps, qs := Map(EncodeHost, Map(HostShaper(Declared), xs)), Map(EncodeHost, Map(HostShaper(Written), xs));
    forall i | 0 <= i < |xs| ensures |ps[i]| == |qs[i]| {
      assert xs[i] in xs;
      HostSizeRight(xs[i]);
    }
    RepeatedLength(4, ps, qs);
  }

  lemma ClusterSizeRight(m: Option<Cluster>)
    requires ClusterAgrees(m) && ClusterError(m).None?
    ensures |EncodeCluster(ShapeCluster(Declared, m))| == |EncodeCluster(ShapeCluster(Written, m))|
  {
    if m.Some? {
      hide EncodeRecords, EncodeFields, RepeatedField, ShapeChild, ChildError, HostsError, Agrees, HostAgrees,
        OptionalField, ClusterLayout, StringField, BoolField, EncodeHost, ShapeHost;
      var k := m.value.fields;
      ChildLength(3, k.successRateEjectionThreshold);
      HostsLength(k.hostStatuses);
      ChildLength(5, k.localOriginSuccessRateEjectionThreshold);
      ChildLength(6, k.circuitBreakers);
      var d, w := ShapeCluster(Declared, m).value.fields, ShapeCluster(Written, m).value.fields;
      ClusterLayoutAt(d);
      ClusterLayoutAt(w);
      var fs, gs := ClusterLayout(d), ClusterLayout(w);
      forall i | 0 <= i < 8 ensures |EncodeRecords(fs[i])| == |EncodeRecords(gs[i])| {
        assert i in {0, 1, 2, 3, 4, 5, 6, 7};
      }
      SameLengths(fs, gs, m.value.unknownFields);
    }
  }

  /**
   * For any mix of children on the fast and on the fallback route: when every child's own size
   * function agrees with its own encoder, SizeVT of the whole tree is the number of bytes written,
   * so MarshalVTStrict returns the encoding.
   */
  lemma MixedChildren(m: Option<ClustersValue>)
    requires ClustersAgree(m) && ClustersError(m).None?
    ensures DeclaredSize(m) == |WrittenBytes(m)|
    ensures StrictEnding(m) == Returned(WrittenBytes(m))
  {
    hide EncodeRecords, EncodeFields, RepeatedField, EncodeCluster, ShapeCluster, ClusterAgrees, ClusterError;
    if m.Some? {
      var xs := m.value.fields.clusterStatuses;
      NoClusterError(xs);
      var ps, qs := Map(EncodeCluster, Map(ClusterShaper(Declared), xs)),
        Map(EncodeCluster, Map(ClusterShaper(Written), xs));
      forall i | 0 <= i < |xs| ensures |ps[i]| == |qs[i]| {
        assert xs[i] in xs;
        ClusterSizeRight(xs[i]);
      }
      RepeatedLength(1, ps, qs);
      SameLengths([RepeatedField(1, ps)], [RepeatedField(1, qs)], m.value.unknownFields);
    }
    assert Zeros(0) + WrittenBytes(m) == WrittenBytes(m);
  }
}
