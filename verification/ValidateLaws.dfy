/**
 * Validate against ValidateAll over whole trees: the first is the leftmost path of the second, the
 * second lists every violation in document order, and both accept the same messages.
 */
module ValidateLaws {
  import opened GoTypes
  import opened Messages
  import opened Clusters
  import opened Doubles
  import opened EnvoyType
  import opened Validate

  /* ----- the fail-fast projection ----- */

  /** The error chain reached by always taking the first of several errors. */
  function Leftmost(e: Error): Error {
    match e
    case ValidationError(message, field, reason, None) => e
    case ValidationError(message, field, reason, Some(c)) => ValidationError(message, field, reason, Some(Leftmost(c)))
    case MultiError(_, errors) => if errors == [] then e else Leftmost(errors[0])
  }

  /** What one Percent or one child of another package answers in the two modes. */
  datatype Verdicts = Verdicts(fast: Option<Error>, all: Option<Error>) {
    predicate Report() {
      fast.Some? || all.Some?
    }

    /** The fail-fast answer is the projection of the collected one. */
    predicate Agree() {
      fast == MapOption(Leftmost, all)
    }
  }

  /** The child's own answer in fail-fast mode: that of its Validate, if it has one. */
  function FastAnswer(c: Option<Checked>): Option<Error> {
    if c.Some? && c.value.hasValidate then c.value.validate else None
  }

  /** And in collecting mode: that of its ValidateAll, or else of its Validate. */
  function AllAnswer(c: Option<Checked>): Option<Error> {
    match c
    case Some(Checked(true, _, all, _)) => all
    case Some(Checked(false, true, _, one)) => one
    case _ => None
  }

  function CheckedVerdicts(c: Option<Checked>): seq<Verdicts> {
    [Verdicts(FastAnswer(c), AllAnswer(c))]
  }

  function PercentVerdicts(m: Option<Percent>): seq<Verdicts> {
    [Verdicts(PercentResult(m, false), PercentResult(m, true))]
  }

  function StatsVerdicts(xs: seq<Option<Checked>>, i: nat): seq<Verdicts>
    decreases |xs| - i
  {
    if i >= |xs| then [] else CheckedVerdicts(xs[i]) + StatsVerdicts(xs, i + 1)
  }

  function HostVerdicts(m: Option<Host>): seq<Verdicts> {
    if m.None? then []
    else
      var k := m.value.fields;
      CheckedVerdicts(k.address) +
      (StatsVerdicts(k.stats, 0) +
      (PercentVerdicts(k.successRate) +
      (PercentVerdicts(k.localOriginSuccessRate) +
       CheckedVerdicts(k.locality))))
  }

  function HostsVerdicts(xs: seq<Option<Host>>, i: nat): seq<Verdicts>
    decreases |xs| - i
  {
    if i >= |xs| then [] else HostVerdicts(xs[i]) + HostsVerdicts(xs, i + 1)
  }

  function ClusterVerdicts(m: Option<Cluster>): seq<Verdicts> {
    if m.None? then []
    else
      var k := m.value.fields;
      PercentVerdicts(k.successRateEjectionThreshold) +
      (HostsVerdicts(k.hostStatuses, 0) +
       PercentVerdicts(k.localOriginSuccessRateEjectionThreshold))
  }

  function ClusterListVerdicts(xs: seq<Option<Cluster>>, i: nat): seq<Verdicts>
    decreases |xs| - i
  {
    if i >= |xs| then [] else ClusterVerdicts(xs[i]) + ClusterListVerdicts(xs, i + 1)
  }

  /** The verdicts of every Percent and every opaque child of the tree, in document order. */
  function TreeVerdicts(m: Option<ClustersValue>): seq<Verdicts> {
    if m.None? then [] else ClusterListVerdicts(m.value.fields.clusterStatuses, 0)
  }

  ghost predicate Silent(vs: seq<Verdicts>) {
    forall v <- vs :: !v.Report()
  }

  /** The first of them that reports anything, in either mode, answers the two modes consistently. */
  predicate FirstAgrees(vs: seq<Verdicts>) {
    vs != [] ==> if vs[0].Report() then vs[0].Agree() else FirstAgrees(vs[1..])
  }

  lemma {:induction false} FirstAgreesConcat(vs: seq<Verdicts>, ws: seq<Verdicts>)
    ensures FirstAgrees(vs + ws) == if Silent(vs) then FirstAgrees(ws) else FirstAgrees(vs)
    ensures Silent(vs + ws) == (Silent(vs) && Silent(ws))
  {
    if vs == [] {
      assert vs + ws == ws;
    } else {
      FirstAgreesConcat(vs[1..], ws);
      assert (vs + ws)[1..] == vs[1..] + ws;
      assert vs == [vs[0]] + vs[1..];
    }
  }

  lemma {:induction false} AllAgree(vs: seq<Verdicts>)
    requires forall v <- vs :: v.Agree()
    ensures FirstAgrees(vs)
  {
    if vs != [] {
      AllAgree(vs[1..]);
    }
  }

  /** The results of one message in the two modes, against the verdicts of all that is below it. */
  ghost predicate Decided(fast: Option<Error>, all: Option<Error>, vs: seq<Verdicts>) {
    && (Silent(vs) <==> fast.None? && all.None?)
    && (FirstAgrees(vs) <==> fast == MapOption(Leftmost, all))
  }

  /** A part of a message's errors in the two modes, the verdicts they come from, and the fields they are about. */
  datatype Part = Part(fast: seq<Error>, all: seq<Error>, verdicts: seq<Verdicts>, own: iset<Field>) {
    ghost predicate Valid() {
      && Decided(FirstOf(fast), FirstOf(all), verdicts)
      && (forall e <- fast :: e.ValidationError? && e.field in own)
      && (forall e <- all :: e.ValidationError? && e.field in own)
    }

    ghost function Then(next: Part): Part {
      Part(fast + next.fast, all + next.all, verdicts + next.verdicts, own + next.own)
    }

    /** Errors about different fields differ, so the first part that reports decides. */
    lemma Join(next: Part)
      requires Valid() && next.Valid() && own !! next.own
      ensures Then(next).Valid()
    {
      hide Silent, FirstAgrees, Leftmost;
      FirstAgreesConcat(verdicts, next.verdicts);
      forall e | e in all || e in next.all
        ensures e.ValidationError? && Leftmost(e).ValidationError? && Leftmost(e).field == e.field
      {
        LeftmostField(e);
      }
    }

    lemma Widen(wider: iset<Field>)
      requires Valid() && own <= wider
      ensures this.(own := wider).Valid()
    {
      hide Decided;
    }

    lemma Wrapped(message: string)
      requires Valid()
      ensures Decided(Returned(message, fast, false), Returned(message, all, true), verdicts)
    {
      hide Silent, FirstAgrees;
    }
  }

  ghost function PartOf(message: string, field: Field, fast: Option<Error>, all: Option<Error>,
      vs: seq<Verdicts>): Part
  {
    Part(Embedded(message, field, fast), Embedded(message, field, all), vs, iset{field})
  }

  lemma PartOfDecided(message: string, field: Field, fast: Option<Error>, all: Option<Error>, vs: seq<Verdicts>)
    requires Decided(fast, all, vs)
    ensures PartOf(message, field, fast, all, vs).Valid()
  {
    hide FirstAgrees, Silent;
    if all.Some? {
      assert Leftmost(ValidationError(message, field, EMBEDDED, all)) ==
             ValidationError(message, field, EMBEDDED, Some(Leftmost(all.value)));
    }
    var part := PartOf(message, field, fast, all, vs);
    assert forall e <- part.fast :: e.ValidationError? && e.field in part.own;
    assert forall e <- part.all :: e.ValidationError? && e.field in part.own;
    assert FirstOf(part.fast) == MapOption(Leftmost, FirstOf(part.all)) <==> fast == MapOption(Leftmost, all);
  }

  lemma SingleDecided(fast: Option<Error>, all: Option<Error>)
    ensures Decided(fast, all, [Verdicts(fast, all)])
  {
    var vs := [Verdicts(fast, all)];
    assert vs[1..] == [] && vs[0] in vs;
  }

  ghost function CheckedPart(field: Field, c: Option<Checked>): Part {
    PartOf("HostStatus", field, CheckedResult(c, false), CheckedResult(c, true), CheckedVerdicts(c))
  }

  ghost function PercentPart(message: string, field: Field, m: Option<Percent>): Part {
    PartOf(message, field, PercentResult(m, false), PercentResult(m, true), PercentVerdicts(m))
  }

  /** A parent gets from a child what the methods that the child has return. */
  lemma CheckedAnswers(c: Option<Checked>)
    ensures CheckedResult(c, false) == FastAnswer(c) && CheckedResult(c, true) == AllAnswer(c)
  {
  }

  lemma CheckedPartValid(field: Field, c: Option<Checked>)
    ensures CheckedPart(field, c).Valid()
  {
    CheckedAnswers(c);
    hide CheckedResult, FastAnswer, AllAnswer;
    SingleDecided(CheckedResult(c, false), CheckedResult(c, true));
    PartOfDecided("HostStatus", field, CheckedResult(c, false), CheckedResult(c, true), CheckedVerdicts(c));
  }

  lemma PercentPartValid(message: string, field: Field, m: Option<Percent>)
    ensures PercentPart(message, field, m).Valid()
  {
    hide PercentResult;
    SingleDecided(PercentResult(m, false), PercentResult(m, true));
    PartOfDecided(message, field, PercentResult(m, false), PercentResult(m, true), PercentVerdicts(m));
  }

  lemma NoPart(own: iset<Field>)
    ensures Part([], [], [], own).Valid()
  {
  }

  lemma LeftmostField(e: Error)
    requires e.ValidationError?
    ensures Leftmost(e).ValidationError? && Leftmost(e).field == e.field
  {
  }

  /** The fields of a list from element i on. */
  ghost function From(name: string, i: nat): iset<Field> {
    iset f: Field | f.Indexed? && f.name == name && f.index >= i
  }

  ghost function StatsPart(xs: seq<Option<Checked>>, i: nat): Part {
    Part(StatsErrors(xs, i, false), StatsErrors(xs, i, true), StatsVerdicts(xs, i), From("Stats", i))
  }

  lemma {:induction false} StatsPartValid(xs: seq<Option<Checked>>, i: nat)
    ensures StatsPart(xs, i).Valid()
    decreases |xs| - i
  {
    hide Embedded, CheckedResult, Part.Valid, CheckedVerdicts;
    if i < |xs| {
      var part, rest := CheckedPart(Indexed("Stats", i), xs[i]), StatsPart(xs, i + 1);
      CheckedPartValid(Indexed("Stats", i), xs[i]);
      StatsPartValid(xs, i + 1);
      part.Join(rest);
      part.Then(rest).Widen(From("Stats", i));
    } else {
      NoPart(From("Stats", i));
    }
  }

  lemma HostDecided(m: Option<Host>)
    ensures Decided(HostResult(m, false), HostResult(m, true), HostVerdicts(m))
  {
    if m.Some? {
      hide CheckedPart, PercentPart, StatsPart, Part.Valid, Part.Then, Decided, HostVerdicts, HostErrors, Returned;
      var k, t := m.value.fields, "HostStatus";
      var p0, p1, p4 := CheckedPart(Named("Address"), k.address), StatsPart(k.stats, 0),
        CheckedPart(Named("Locality"), k.locality);
      var p2 := PercentPart(t, Named("SuccessRate"), k.successRate);
      var p3 := PercentPart(t, Named("LocalOriginSuccessRate"), k.localOriginSuccessRate);
      CheckedPartValid(Named("Address"), k.address);
      StatsPartValid(k.stats, 0);
      PercentPartValid(t, Named("SuccessRate"), k.successRate);
      PercentPartValid(t, Named("LocalOriginSuccessRate"), k.localOriginSuccessRate);
      CheckedPartValid(Named("Locality"), k.locality);
      HostParts(m.value);
      JoinFive(p0, p1, p2, p3, p4);
      p0.Then(p1.Then(p2.Then(p3.Then(p4)))).Wrapped(t);
    }
  }

  lemma JoinFive(p0: Part, p1: Part, p2: Part, p3: Part, p4: Part)
    requires p0.Valid() && p1.Valid() && p2.Valid() && p3.Valid() && p4.Valid()
    requires p0.own !! p1.own !! p2.own !! p3.own !! p4.own
    ensures p0.Then(p1.Then(p2.Then(p3.Then(p4)))).Valid()
  {
    hide Part.Valid;
    p3.Join(p4);
    p2.Join(p3.Then(p4));
    p1.Join(p2.Then(p3.Then(p4)));
    p0.Join(p1.Then(p2.Then(p3.Then(p4))));
  }

  /** The errors and the verdicts of a host are made of those of its five parts, which are about different fields. */
  lemma HostParts(m: HostStatus<Percent, Checked>)
    ensures
      var k, t := m.fields, "HostStatus";
      var p0, p1, p4 := CheckedPart(Named("Address"), k.address), StatsPart(k.stats, 0),
        CheckedPart(Named("Locality"), k.locality);
      var p2 := PercentPart(t, Named("SuccessRate"), k.successRate);
      var p3 := PercentPart(t, Named("LocalOriginSuccessRate"), k.localOriginSuccessRate);
      var whole := p0.Then(p1.Then(p2.Then(p3.Then(p4))));
      && whole.fast == HostErrors(k, false) && whole.all == HostErrors(k, true)
        && whole.verdicts == HostVerdicts(Some(m))
      && p0.own !! p1.own !! p2.own !! p3.own !! p4.own
  {
    hide Embedded, CheckedResult, PercentResult, HealthResult, StatsErrors, StatsVerdicts, CheckedVerdicts,
      PercentVerdicts;
    NoHealthErrors(m.fields.healthStatus, false);
    NoHealthErrors(m.fields.healthStatus, true);
    Unindented(HostRest(m.fields, false));
    Unindented(HostRest(m.fields, true));
  }

  function HostRest(k: HostFields<Percent, Checked>, all: bool): seq<Error> {
    Embedded("HostStatus", Named("SuccessRate"), PercentResult(k.successRate, all)) +
    (Embedded("HostStatus", Named("LocalOriginSuccessRate"), PercentResult(k.localOriginSuccessRate, all)) +
     Embedded("HostStatus", Named("Locality"), CheckedResult(k.locality, all)))
  }

  lemma Unindented(errors: seq<Error>)
    ensures [] + errors == errors
  {
  }

  lemma NoHealthErrors(m: Option<HostHealthStatus>, all: bool)
    ensures Embedded("HostStatus", Named("HealthStatus"), HealthResult(m, all)) == []
  {
  }

  ghost function HostsPart(xs: seq<Option<Host>>, i: nat): Part {
    Part(HostsErrors(xs, i, false), HostsErrors(xs, i, true), HostsVerdicts(xs, i), From("HostStatuses", i))
  }

  lemma {:induction false} HostsPartValid(xs: seq<Option<Host>>, i: nat)
    ensures HostsPart(xs, i).Valid()
    decreases |xs| - i
  {
    hide Embedded, HostResult, HostVerdicts, Decided, Part.Valid;
    if i < |xs| {
      var t, f, fast, all := "ClusterStatus", Indexed("HostStatuses", i), HostResult(xs[i], false),
        HostResult(xs[i], true);
      var part, rest := PartOf(t, f, fast, all, HostVerdicts(xs[i])), HostsPart(xs, i + 1);
      HostDecided(xs[i]);
      PartOfDecided(t, f, fast, all, HostVerdicts(xs[i]));
      HostsPartValid(xs, i + 1);
      part.Join(rest);
      part.Then(rest).Widen(From("HostStatuses", i));
    } else {
      NoPart(From("HostStatuses", i));
    }
  }

  lemma ClusterDecided(m: Option<Cluster>)
    ensures Decided(ClusterResult(m, false), ClusterResult(m, true), ClusterVerdicts(m))
  {
    if m.Some? {
      hide Embedded, PercentResult, HostsErrors, HostsVerdicts, PercentVerdicts, Decided, Part.Valid, Returned;
      var k, t := m.value.fields, "ClusterStatus";
      var f, g := Named("SuccessRateEjectionThreshold"), Named("LocalOriginSuccessRateEjectionThreshold");
      var p0, p1 := PercentPart(t, f, k.successRateEjectionThreshold), HostsPart(k.hostStatuses, 0);
      var p2 := PercentPart(t, g, k.localOriginSuccessRateEjectionThreshold);
      PercentPartValid(t, f, k.successRateEjectionThreshold);
      HostsPartValid(k.hostStatuses, 0);
      PercentPartValid(t, g, k.localOriginSuccessRateEjectionThreshold);
      p1.Join(p2);
      p0.Join(p1.Then(p2));
      p0.Then(p1.Then(p2)).Wrapped(t);
    }
  }

  ghost function ClusterListPart(xs: seq<Option<Cluster>>, i: nat): Part {
    Part(ClusterListErrors(xs, i, false), ClusterListErrors(xs, i, true), ClusterListVerdicts(xs, i),
      From("ClusterStatuses", i))
  }

  lemma {:induction false} ClusterListPartValid(xs: seq<Option<Cluster>>, i: nat)
    ensures ClusterListPart(xs, i).Valid()
    decreases |xs| - i
  {
    hide Embedded, ClusterResult, ClusterVerdicts, Decided, Part.Valid;
    if i < |xs| {
      var t, f, fast, all := "Clusters", Indexed("ClusterStatuses", i), ClusterResult(xs[i], false),
        ClusterResult(xs[i], true);
      var part, rest := PartOf(t, f, fast, all, ClusterVerdicts(xs[i])), ClusterListPart(xs, i + 1);
      ClusterDecided(xs[i]);
      PartOfDecided(t, f, fast, all, ClusterVerdicts(xs[i]));
      ClusterListPartValid(xs, i + 1);
      part.Join(rest);
      part.Then(rest).Widen(From("ClusterStatuses", i));
    } else {
      NoPart(From("ClusterStatuses", i));
    }
  }

  /**
   * Validate returns the leftmost path of the error tree that ValidateAll returns, and nil when it
   * does, exactly when the first Percent or opaque child in document order that reports anything in
   * either mode answers the two consistently. What comes after it is masked, and does not matter.
   */
  lemma FailFastProjectsIff(m: Option<ClustersValue>)
    ensures ClustersResult(m, false) == MapOption(Leftmost, ClustersResult(m, true)) <==> FirstAgrees(TreeVerdicts(m))
    ensures ClustersResult(m, false).None? && ClustersResult(m, true).None? <==> Silent(TreeVerdicts(m))
  {
    hide ClusterListErrors, ClusterListVerdicts, FirstAgrees, Silent, Part.Valid, Returned;
    if m.Some? {
      ClusterListPartValid(m.value.fields.clusterStatuses, 0);
      ClusterListPart(m.value.fields.clusterStatuses, 0).Wrapped("Clusters");
    } else {
      NothingDecided();
    }
  }

  lemma NothingDecided()
    ensures FirstAgrees([]) && Silent([])
  {
  }

  /** In fail-fast mode a child answers with the leftmost path of what it answers when asked for everything. */
  predicate CheckedConsistent(c: Option<Checked>) {
    c.Some? ==>
      var fast := if c.value.hasValidate then c.value.validate else None;
      && (c.value.hasValidateAll ==> fast == MapOption(Leftmost, c.value.validateAll))
      && (!c.value.hasValidateAll ==> fast == MapOption(Leftmost, fast))
  }

  ghost predicate HostConsistent(m: Option<Host>) {
    m.Some? ==>
      && CheckedConsistent(m.value.fields.address) && CheckedConsistent(m.value.fields.locality)
      && forall c <- m.value.fields.stats :: CheckedConsistent(c)
  }

  ghost predicate ClusterConsistent(m: Option<Cluster>) {
    m.Some? ==> forall h <- m.value.fields.hostStatuses :: HostConsistent(h)
  }

  ghost predicate ClustersConsistent(m: Option<ClustersValue>) {
    m.Some? ==> forall c <- m.value.fields.clusterStatuses :: ClusterConsistent(c)
  }

  ghost predicate Agreed(vs: seq<Verdicts>) {
    forall v <- vs :: v.Agree()
  }

  lemma AgreedConcat(vs: seq<Verdicts>, ws: seq<Verdicts>)
    ensures Agreed(vs + ws) <==> Agreed(vs) && Agreed(ws)
  {
    hide Verdicts.Agree;
    assert forall v <- vs :: v in vs + ws;
    assert forall w <- ws :: w in vs + ws;
  }

  lemma CheckedAgreed(c: Option<Checked>)
    ensures Agreed(CheckedVerdicts(c)) <==> CheckedConsistent(c)
  {
    assert CheckedVerdicts(c)[0] in CheckedVerdicts(c);
  }

  /** A Percent never answers the two modes differently. */
  lemma PercentAgreed(m: Option<Percent>)
    ensures Agreed(PercentVerdicts(m))
  {
  }

  lemma {:induction false} StatsAgreed(xs: seq<Option<Checked>>, i: nat)
    requires forall c <- xs :: CheckedConsistent(c)
    ensures Agreed(StatsVerdicts(xs, i))
    decreases |xs| - i
  {
    hide CheckedConsistent, CheckedVerdicts, Agreed;
    if i < |xs| {
      StatsAgreed(xs, i + 1);
      CheckedAgreed(xs[i]);
      AgreedConcat(CheckedVerdicts(xs[i]), StatsVerdicts(xs, i + 1));
    } else {
      NoneAgreed();
    }
  }

  lemma NoneAgreed()
    ensures Agreed([])
  {
  }

  lemma HostAgreed(m: Option<Host>)
    requires HostConsistent(m)
    ensures Agreed(HostVerdicts(m))
  {
    hide CheckedConsistent, CheckedVerdicts, PercentVerdicts, StatsVerdicts, Agreed;
    if m.Some? {
      var k := m.value.fields;
      var v0, v1, v2 := CheckedVerdicts(k.address), StatsVerdicts(k.stats, 0), PercentVerdicts(k.successRate);
      var v3, v4 := PercentVerdicts(k.localOriginSuccessRate), CheckedVerdicts(k.locality);
      CheckedAgreed(k.address);
      StatsAgreed(k.stats, 0);
      PercentAgreed(k.successRate);
      PercentAgreed(k.localOriginSuccessRate);
      CheckedAgreed(k.locality);
      AgreedConcat(v3, v4);
      AgreedConcat(v2, v3 + v4);
      AgreedConcat(v1, v2 + (v3 + v4));
      AgreedConcat(v0, v1 + (v2 + (v3 + v4)));
    } else {
      NoneAgreed();
    }
  }

  lemma {:induction false} HostsAgreed(xs: seq<Option<Host>>, i: nat)
    requires forall h <- xs :: HostConsistent(h)
    ensures Agreed(HostsVerdicts(xs, i))
    decreases |xs| - i
  {
    hide HostConsistent, HostVerdicts, Agreed;
    if i < |xs| {
      HostsAgreed(xs, i + 1);
      HostAgreed(xs[i]);
      AgreedConcat(HostVerdicts(xs[i]), HostsVerdicts(xs, i + 1));
    } else {
      NoneAgreed();
    }
  }

  lemma ClusterAgreed(m: Option<Cluster>)
    requires ClusterConsistent(m)
    ensures Agreed(ClusterVerdicts(m))
  {
    hide HostConsistent, PercentVerdicts, HostsVerdicts, Agreed;
    if m.Some? {
      var k := m.value.fields;
      var v0, v1 := PercentVerdicts(k.successRateEjectionThreshold), HostsVerdicts(k.hostStatuses, 0);
      var v2 := PercentVerdicts(k.localOriginSuccessRateEjectionThreshold);
      PercentAgreed(k.successRateEjectionThreshold);
      HostsAgreed(k.hostStatuses, 0);
      PercentAgreed(k.localOriginSuccessRateEjectionThreshold);
      AgreedConcat(v1, v2);
      AgreedConcat(v0, v1 + v2);
    } else {
      NoneAgreed();
    }
  }

  lemma {:induction false} ClusterListAgreed(xs: seq<Option<Cluster>>, i: nat)
    requires forall c <- xs :: ClusterConsistent(c)
    ensures Agreed(ClusterListVerdicts(xs, i))
    decreases |xs| - i
  {
    hide ClusterConsistent, ClusterVerdicts, Agreed;
    if i < |xs| {
      ClusterListAgreed(xs, i + 1);
      ClusterAgreed(xs[i]);
      AgreedConcat(ClusterVerdicts(xs[i]), ClusterListVerdicts(xs, i + 1));
    } else {
      NoneAgreed();
    }
  }

  /** In particular when every opaque child of the tree answers consistently. */
  lemma FailFastProjects(m: Option<ClustersValue>)
    requires ClustersConsistent(m)
    ensures ClustersResult(m, false) == MapOption(Leftmost, ClustersResult(m, true))
    ensures FirstAgrees(TreeVerdicts(m))
  {
    hide ClustersResult, Leftmost, FirstAgrees, ClusterConsistent, ClusterListVerdicts;
    if m.Some? {
      ClusterListAgreed(m.value.fields.clusterStatuses, 0);
    }
    AllAgree(TreeVerdicts(m));
    FailFastProjectsIff(m);
  }

  /* ----- what a parent makes of a child ----- */

  function AddressOnly(c: Checked): Option<Host> {
    Some(Msg(HostFields(Some(c), [], None, None, 0, [], 0, None, None), []))
  }

  /**
   * A child with Validate decides in fail-fast mode, one with ValidateAll when everything is asked for,
   * where Validate is the fallback; a child that has neither is accepted. An error becomes the cause
   * of the parent's, which collecting mode wraps in the parent's own multi-error.
   */
  lemma ChildDecides(c: Checked)
    ensures
      var m, reason := AddressOnly(c), "embedded message failed validation";
      && (c.hasValidate ==>
            && (HostResult(m, false).None? <==> c.validate.None?)
            && (c.validate.Some? ==>
                  HostResult(m, false) == Some(ValidationError("HostStatus", Named("Address"), reason, c.validate))))
      && (!c.hasValidate ==> HostResult(m, false).None?)
      && (c.hasValidateAll ==>
            && (HostResult(m, true).None? <==> c.validateAll.None?)
            && (c.validateAll.Some? ==>
                  HostResult(m, true) == Some(MultiError("HostStatus",
                    [ValidationError("HostStatus", Named("Address"), reason, c.validateAll)]))))
      && (c.hasValidate && !c.hasValidateAll ==>
            && (HostResult(m, true).None? <==> c.validate.None?)
            && (c.validate.Some? ==>
                  HostResult(m, true) == Some(MultiError("HostStatus",
                    [ValidationError("HostStatus", Named("Address"), reason, c.validate)]))))
      && (!c.hasValidate && !c.hasValidateAll ==> HostResult(m, true).None?)
  {
    var m := AddressOnly(c);
    forall all: bool ensures HostErrors(m.value.fields, all) ==
      Embedded("HostStatus", Named("Address"), CheckedResult(Some(c), all)) {
      assert StatsErrors([], 0, all) == [];
    }
  }

  /** A child that answers consistently is valid exactly when each of the methods it has returns nil. */
  lemma ConsistentAnswers(c: Checked)
    requires CheckedConsistent(Some(c))
    ensures CheckedValid(Some(c)) <==>
      (c.hasValidate ==> c.validate.None?) && (c.hasValidateAll ==> c.validateAll.None?)
  {
  }

  /** A child with ValidateAll but no Validate: ValidateAll rejects the host and Validate accepts it. */
  lemma SkippedWithoutValidate(e: Error)
    ensures
      var m := AddressOnly(Checked(true, false, Some(e), None));
      HostResult(m, true).Some? && HostResult(m, false).None?
  {
    var m := AddressOnly(Checked(true, false, Some(e), None));
    assert HostErrors(m.value.fields, false) == [];
  }

  /* ----- one tree in full ----- */

  /** -1.0, below the range. */
  function MinusOne(): Option<Percent> {
    Some(Msg(PercentFields(0xBFF0_0000_0000_0000), []))
  }

  /** A host in which everything that can be invalid is. */
  function BadHost(address: Checked, stat: Checked, locality: Checked): Host {
    Msg(HostFields(Some(address), [None, Some(stat)], None, MinusOne(), 0, [], 0, MinusOne(), Some(locality)), [])
  }

  function BadTree(host: Host): ClustersValue {
    var k := ClusterFields([], false, MinusOne(), [Some(host)], MinusOne(), None, [], []);
    Msg(ClustersFields([None, Some(Msg(k, []))]), [])
  }

  lemma MinusOneErrors()
    ensures
      var e := ValidationError("Percent", Named("Value"), "value must be inside range [0, 100]", None);
      && PercentResult(MinusOne(), true) == Some(MultiError("Percent", [e]))
      && PercentResult(MinusOne(), false) == Some(e)
  {
  }

  lemma BadHostErrors(a: Error, s: Error, l: Error, other: Option<Error>)
    ensures
      var reason := "embedded message failed validation";
      var percent := Some(MultiError("Percent",
        [ValidationError("Percent", Named("Value"), "value must be inside range [0, 100]", None)]));
      var host := BadHost(Checked(true, true, Some(a), other), Checked(false, true, other, Some(s)),
        Checked(true, false, Some(l), other));
      HostResult(Some(host), true) == Some(MultiError("HostStatus", [
        ValidationError("HostStatus", Named("Address"), reason, Some(a)),
        ValidationError("HostStatus", Indexed("Stats", 1), reason, Some(s)),
        ValidationError("HostStatus", Named("SuccessRate"), reason, percent),
        ValidationError("HostStatus", Named("LocalOriginSuccessRate"), reason, percent),
        ValidationError("HostStatus", Named("Locality"), reason, Some(l))]))
  {
    MinusOneErrors();
    hide PercentResult;
    var xs := [None, Some(Checked(false, true, other, Some(s)))];
    assert StatsErrors(xs, 2, true) == [];
    assert StatsErrors(xs, 1, true) == Embedded("HostStatus", Indexed("Stats", 1), Some(s));
    assert StatsErrors(xs, 0, true) == Embedded("HostStatus", Indexed("Stats", 1), Some(s));
    var host := BadHost(Checked(true, true, Some(a), other), Checked(false, true, other, Some(s)),
      Checked(true, false, Some(l), other));
    assert host.fields.stats == xs;
    var t := "HostStatus";
    assert HostErrors(host.fields, true) == Embedded(t, Named("Address"), Some(a)) +
      (Embedded(t, Indexed("Stats", 1), Some(s)) + ([] +
      (Embedded(t, Named("SuccessRate"), PercentResult(MinusOne(), true)) +
      (Embedded(t, Named("LocalOriginSuccessRate"), PercentResult(MinusOne(), true)) +
       Embedded(t, Named("Locality"), Some(l))))));
    FiveInARow(Embedded(t, Named("Address"), Some(a))[0], Embedded(t, Indexed("Stats", 1), Some(s))[0],
      Embedded(t, Named("SuccessRate"), PercentResult(MinusOne(), true))[0],
      Embedded(t, Named("LocalOriginSuccessRate"), PercentResult(MinusOne(), true))[0],
      Embedded(t, Named("Locality"), Some(l))[0]);
  }

  lemma FiveInARow(a: Error, b: Error, c: Error, d: Error, e: Error)
    ensures [a] + ([b] + ([] + ([c] + ([d] + [e])))) == [a, b, c, d, e]
  {
  }

  /**
   * The errors of that tree in both modes, whatever the errors of its children: which field of which
   * message, at which index, in which order, for what reason and from what cause.
   */
  lemma BadTreeErrors(a: Error, s: Error, l: Error, other: Option<Error>)
    ensures
      var reason := "embedded message failed validation";
      var e := ValidationError("Percent", Named("Value"), "value must be inside range [0, 100]", None);
      var percent := Some(MultiError("Percent", [e]));
      var host := BadHost(Checked(true, true, Some(a), other), Checked(false, true, other, Some(s)),
        Checked(true, false, Some(l), other));
      && ClustersResult(Some(BadTree(host)), true) == Some(MultiError("Clusters", [
           ValidationError("Clusters", Indexed("ClusterStatuses", 1), reason, Some(MultiError("ClusterStatus", [
             ValidationError("ClusterStatus", Named("SuccessRateEjectionThreshold"), reason, percent),
             ValidationError("ClusterStatus", Indexed("HostStatuses", 0), reason, HostResult(Some(host), true)),
             ValidationError("ClusterStatus", Named("LocalOriginSuccessRateEjectionThreshold"), reason, percent)])))]))
      && ClustersResult(Some(BadTree(host)), false) ==
           Some(ValidationError("Clusters", Indexed("ClusterStatuses", 1), reason, Some(
             ValidationError("ClusterStatus", Named("SuccessRateEjectionThreshold"), reason, Some(e)))))
  {
    MinusOneErrors();
    BadHostErrors(a, s, l, other);
    var host := BadHost(Checked(true, true, Some(a), other), Checked(false, true, other, Some(s)),
      Checked(true, false, Some(l), other));
    hide HostResult, BadHost;
    BadClusterErrors(host, HostResult(Some(host), true).value, true);
    BadClusterErrors(host, HostResult(Some(host), true).value, false);
    var c := BadTree(host).fields.clusterStatuses[1];
    hide ClusterResult;
    forall all: bool
      ensures ClusterListErrors([None, c], 0, all) ==
        Embedded("Clusters", Indexed("ClusterStatuses", 1), ClusterResult(c, all))
    {
      assert ClusterListErrors([None, c], 2, all) == [];
      assert ClusterListErrors([None, c], 1, all) ==
        Embedded("Clusters", Indexed("ClusterStatuses", 1), ClusterResult(c, all));
      NilClusterErrors(all);
    }
  }

  lemma NilClusterErrors(all: bool)
    ensures Embedded("Clusters", Indexed("ClusterStatuses", 0), ClusterResult(None, all)) == []
  {
  }

  lemma BadClusterErrors(host: Host, h: Error, all: bool)
    requires HostResult(Some(host), true) == Some(h)
    ensures
      var c := BadTree(host).fields.clusterStatuses[1];
      var reason := "embedded message failed validation";
      var e := ValidationError("Percent", Named("Value"), "value must be inside range [0, 100]", None);
      var percent := Some(MultiError("Percent", [e]));
      ClusterResult(c, all) == if all then Some(MultiError("ClusterStatus", [
          ValidationError("ClusterStatus", Named("SuccessRateEjectionThreshold"), reason, percent),
          ValidationError("ClusterStatus", Indexed("HostStatuses", 0), reason, Some(h)),
          ValidationError("ClusterStatus", Named("LocalOriginSuccessRateEjectionThreshold"), reason, percent)]))
        else Some(ValidationError("ClusterStatus", Named("SuccessRateEjectionThreshold"), reason, Some(e)))
  {
    MinusOneErrors();
    hide PercentResult, HostResult;
    var k := BadTree(host).fields.clusterStatuses[1].value.fields;
    assert HostsErrors(k.hostStatuses, 1, all) == [];
    assert HostsErrors(k.hostStatuses, 0, all) ==
      Embedded("ClusterStatus", Indexed("HostStatuses", 0), HostResult(Some(host), all));
    if all {
      var t, p := "ClusterStatus", PercentResult(MinusOne(), true);
      assert ClusterErrors(k, true) == [
        Embedded(t, Named("SuccessRateEjectionThreshold"), p)[0],
        Embedded(t, Indexed("HostStatuses", 0), Some(h))[0],
        Embedded(t, Named("LocalOriginSuccessRateEjectionThreshold"), p)[0]];
    }
  }

  /* ----- the violations of a tree, in document order ----- */

  type Path = seq<Field>

  function Under(field: Field, paths: seq<Path>): seq<Path> {
    if paths == [] then [] else [[field] + paths[0]] + Under(field, paths[1..])
  }

  /** The paths from the root of an error tree to its leaves. */
  function Paths(e: Error): seq<Path>
    decreases e, 1
  {
    match e
    case ValidationError(_, field, _, None) => [[field]]
    case ValidationError(_, field, _, Some(c)) => Under(field, Paths(c))
    case MultiError(_, errors) => AllPaths(errors)
  }

  function AllPaths(es: seq<Error>): seq<Path>
    decreases es, 0
  {
    if es == [] then [] else Paths(es[0]) + AllPaths(es[1..])
  }

  function PathsOf(e: Option<Error>): seq<Path> {
    if e.None? then [] else Paths(e.value)
  }

  function PercentViolations(m: Option<Percent>): seq<Path> {
    if m.Some? && (BelowZero(m.value.fields.value) || Above100(m.value.fields.value)) then [[Named("Value")]] else []
  }

  /** What an opaque child reports when it is asked for everything. */
  function CheckedViolations(c: Option<Checked>): seq<Path> {
    PathsOf(AllAnswer(c))
  }

  function StatsViolations(xs: seq<Option<Checked>>, i: nat): seq<Path>
    decreases |xs| - i
  {
    if i >= |xs| then [] else Under(Indexed("Stats", i), CheckedViolations(xs[i])) + StatsViolations(xs, i + 1)
  }

  function HostViolations(m: Option<Host>): seq<Path> {
    if m.None? then []
    else
      var k := m.value.fields;
      Under(Named("Address"), CheckedViolations(k.address)) +
      (StatsViolations(k.stats, 0) +
      (Under(Named("SuccessRate"), PercentViolations(k.successRate)) +
      (Under(Named("LocalOriginSuccessRate"), PercentViolations(k.localOriginSuccessRate)) +
       Under(Named("Locality"), CheckedViolations(k.locality)))))
  }

  function HostsViolations(xs: seq<Option<Host>>, i: nat): seq<Path>
    decreases |xs| - i
  {
    if i >= |xs| then [] else Under(Indexed("HostStatuses", i), HostViolations(xs[i])) + HostsViolations(xs, i + 1)
  }

  function ClusterViolations(m: Option<Cluster>): seq<Path> {
    if m.None? then []
    else
      var k := m.value.fields;
      Under(Named("SuccessRateEjectionThreshold"), PercentViolations(k.successRateEjectionThreshold)) +
      (HostsViolations(k.hostStatuses, 0) +
       Under(Named("LocalOriginSuccessRateEjectionThreshold"),
             PercentViolations(k.localOriginSuccessRateEjectionThreshold)))
  }

  function ClusterListViolations(xs: seq<Option<Cluster>>, i: nat): seq<Path>
    decreases |xs| - i
  {
    if i >= |xs| then []
    else Under(Indexed("ClusterStatuses", i), ClusterViolations(xs[i])) + ClusterListViolations(xs, i + 1)
  }

  function Violations(m: Option<ClustersValue>): seq<Path> {
    if m.None? then [] else ClusterListViolations(m.value.fields.clusterStatuses, 0)
  }

  lemma {:induction false} AllPathsConcat(xs: seq<Error>, ys: seq<Error>)
    ensures AllPaths(xs + ys) == AllPaths(xs) + AllPaths(ys)
  {
    hide Paths;
    if xs == [] {
      assert xs + ys == ys;
    } else {
      assert (xs + ys)[1..] == xs[1..] + ys;
      AllPathsConcat(xs[1..], ys);
    }
  }

  lemma EmbeddedPaths(message: string, field: Field, cause: Option<Error>)
    ensures AllPaths(Embedded(message, field, cause)) == Under(field, PathsOf(cause))
  {
    if cause.Some? {
      var es := Embedded(message, field, cause);
      assert es[1..] == [];
      assert Paths(es[0]) + [] == Paths(es[0]);
    }
  }

  lemma ReturnedPaths(message: string, errors: seq<Error>)
    ensures PathsOf(Returned(message, errors, true)) == AllPaths(errors)
  {
  }

  lemma PercentPaths(m: Option<Percent>)
    ensures PathsOf(PercentResult(m, true)) == PercentViolations(m)
  {
    if m.Some? {
      var es := PercentErrors(m.value.fields);
      ReturnedPaths("Percent", es);
      if es != [] {
        assert es[1..] == [];
        assert Paths(es[0]) == [[Named("Value")]];
      }
    }
  }

  lemma {:induction false} StatsPaths(xs: seq<Option<Checked>>, i: nat)
    ensures AllPaths(StatsErrors(xs, i, true)) == StatsViolations(xs, i)
    decreases |xs| - i
  {
    hide Embedded, AllPaths, PathsOf, Under, CheckedResult, AllAnswer;
    if i < |xs| {
      StatsPaths(xs, i + 1);
      CheckedAnswers(xs[i]);
      var one := Embedded("HostStatus", Indexed("Stats", i), CheckedResult(xs[i], true));
      EmbeddedPaths("HostStatus", Indexed("Stats", i), CheckedResult(xs[i], true));
      AllPathsConcat(one, StatsErrors(xs, i + 1, true));
    } else {
      NoPaths();
    }
  }

  lemma NoPaths()
    ensures AllPaths([]) == []
  {
  }

  lemma HealthPaths(m: Option<HostHealthStatus>)
    ensures Embedded("HostStatus", Named("HealthStatus"), HealthResult(m, true)) == []
  {
  }

  lemma HostPaths(m: Option<Host>)
    ensures PathsOf(HostResult(m, true)) == HostViolations(m)
  {
    if m.Some? {
      hide Embedded, AllPaths, PathsOf, Under, CheckedResult, PercentResult, PercentViolations, StatsErrors,
        StatsViolations, HealthResult, Returned, AllAnswer;
      var k, t := m.value.fields, "HostStatus";
      CheckedAnswers(k.address);
      CheckedAnswers(k.locality);
      EmbeddedPaths(t, Named("Address"), CheckedResult(k.address, true));
      StatsPaths(k.stats, 0);
      HealthPaths(k.healthStatus);
      PercentPaths(k.successRate);
      EmbeddedPaths(t, Named("SuccessRate"), PercentResult(k.successRate, true));
      PercentPaths(k.localOriginSuccessRate);
      EmbeddedPaths(t, Named("LocalOriginSuccessRate"), PercentResult(k.localOriginSuccessRate, true));
      EmbeddedPaths(t, Named("Locality"), CheckedResult(k.locality, true));
      var e5 := Embedded(t, Named("Locality"), CheckedResult(k.locality, true));
      var e4 := Embedded(t, Named("LocalOriginSuccessRate"), PercentResult(k.localOriginSuccessRate, true));
      var e3 := Embedded(t, Named("SuccessRate"), PercentResult(k.successRate, true));
      var e1 := StatsErrors(k.stats, 0, true);
      var e0 := Embedded(t, Named("Address"), CheckedResult(k.address, true));
      AllPathsConcat(e4, e5);
      AllPathsConcat(e3, e4 + e5);
      assert [] + (e3 + (e4 + e5)) == e3 + (e4 + e5);
      AllPathsConcat(e1, e3 + (e4 + e5));
      AllPathsConcat(e0, e1 + (e3 + (e4 + e5)));
      ReturnedPaths(t, HostErrors(k, true));
    }
  }

  lemma {:induction false} HostsPaths(xs: seq<Option<Host>>, i: nat)
    ensures AllPaths(HostsErrors(xs, i, true)) == HostsViolations(xs, i)
    decreases |xs| - i
  {
    hide Embedded, AllPaths, PathsOf, Under, HostResult, HostViolations;
    if i < |xs| {
      HostsPaths(xs, i + 1);
      HostPaths(xs[i]);
      var one := Embedded("ClusterStatus", Indexed("HostStatuses", i), HostResult(xs[i], true));
      EmbeddedPaths("ClusterStatus", Indexed("HostStatuses", i), HostResult(xs[i], true));
      AllPathsConcat(one, HostsErrors(xs, i + 1, true));
    } else {
      NoPaths();
    }
  }

  lemma ClusterPaths(m: Option<Cluster>)
    ensures PathsOf(ClusterResult(m, true)) == ClusterViolations(m)
  {
    if m.Some? {
      hide Embedded, AllPaths, PathsOf, Under, PercentResult, PercentViolations, HostsErrors, HostsViolations, Returned;
      var k, t := m.value.fields, "ClusterStatus";
      var f, g := Named("SuccessRateEjectionThreshold"), Named("LocalOriginSuccessRateEjectionThreshold");
      var p, q := k.successRateEjectionThreshold, k.localOriginSuccessRateEjectionThreshold;
      PercentPaths(p);
      PercentPaths(q);
      HostsPaths(k.hostStatuses, 0);
      EmbeddedPaths(t, f, PercentResult(p, true));
      EmbeddedPaths(t, g, PercentResult(q, true));
      var e1, e2 := HostsErrors(k.hostStatuses, 0, true), Embedded(t, g, PercentResult(q, true));
      AllPathsConcat(e1, e2);
      AllPathsConcat(Embedded(t, f, PercentResult(p, true)), e1 + e2);
      ReturnedPaths(t, ClusterErrors(k, true));
    }
  }

  lemma {:induction false} ClusterListPaths(xs: seq<Option<Cluster>>, i: nat)
    ensures AllPaths(ClusterListErrors(xs, i, true)) == ClusterListViolations(xs, i)
    decreases |xs| - i
  {
    hide Embedded, AllPaths, PathsOf, Under, ClusterResult, ClusterViolations;
    if i < |xs| {
      ClusterListPaths(xs, i + 1);
      ClusterPaths(xs[i]);
      var one := Embedded("Clusters", Indexed("ClusterStatuses", i), ClusterResult(xs[i], true));
      EmbeddedPaths("Clusters", Indexed("ClusterStatuses", i), ClusterResult(xs[i], true));
      AllPathsConcat(one, ClusterListErrors(xs, i + 1, true));
    } else {
      NoPaths();
    }
  }

  /** ValidateAll reports every violation of the tree, each exactly once and in document order. */
  lemma ValidateAllReportsViolations(m: Option<ClustersValue>)
    ensures PathsOf(ClustersResult(m, true)) == Violations(m)
  {
    hide AllPaths, Returned, ClusterListErrors;
    if m.Some? {
      var xs := m.value.fields.clusterStatuses;
      ClusterListPaths(xs, 0);
      ReturnedPaths("Clusters", ClusterListErrors(xs, 0, true));
    }
  }

  /* ----- the first violation ----- */

  /** No list of errors inside is empty. */
  ghost predicate Solid(e: Error)
    decreases e
  {
    match e
    case ValidationError(_, _, _, None) => true
    case ValidationError(_, _, _, Some(c)) => Solid(c)
    case MultiError(_, errors) => errors != [] && forall i | 0 <= i < |errors| :: Solid(errors[i])
  }

  lemma {:induction false} SolidHasPath(e: Error)
    requires Solid(e)
    ensures Paths(e) != [] && Paths(Leftmost(e)) == [Paths(e)[0]]
    decreases e
  {
    match e {
      case ValidationError(_, _, _, None) =>
      case ValidationError(_, field, _, Some(c)) =>
        SolidHasPath(c);
        UnderOne(field, Paths(c)[0]);
      case MultiError(_, errors) =>
        SolidHasPath(errors[0]);
    }
  }

  lemma UnderOne(field: Field, p: Path)
    ensures Under(field, [p]) == [[field] + p]
  {
    assert [p][1..] == [];
  }

  ghost predicate CheckedSolid(c: Option<Checked>) {
    AllAnswer(c).Some? ==> Solid(AllAnswer(c).value)
  }

  ghost predicate HostSolid(m: Option<Host>) {
    m.Some? ==>
      && CheckedSolid(m.value.fields.address) && CheckedSolid(m.value.fields.locality)
      && forall c <- m.value.fields.stats :: CheckedSolid(c)
  }

  ghost predicate ClusterSolid(m: Option<Cluster>) {
    m.Some? ==> forall h <- m.value.fields.hostStatuses :: HostSolid(h)
  }

  ghost predicate ClustersSolid(m: Option<ClustersValue>) {
    m.Some? ==> forall c <- m.value.fields.clusterStatuses :: ClusterSolid(c)
  }

  ghost predicate AllSolid(es: seq<Error>) {
    forall i | 0 <= i < |es| :: Solid(es[i])
  }

  ghost predicate ResultSolid(r: Option<Error>) {
    r.Some? ==> Solid(r.value)
  }

  lemma ConcatSolid(xs: seq<Error>, ys: seq<Error>)
    requires AllSolid(xs) && AllSolid(ys)
    ensures AllSolid(xs + ys)
  {
    hide Solid;
  }

  lemma EmbeddedSolid(message: string, field: Field, cause: Option<Error>)
    requires ResultSolid(cause)
    ensures AllSolid(Embedded(message, field, cause))
  {
  }

  lemma ReturnedSolid(message: string, errors: seq<Error>)
    requires AllSolid(errors)
    ensures ResultSolid(Returned(message, errors, true))
  {
  }

  lemma PercentSolid(m: Option<Percent>)
    ensures ResultSolid(PercentResult(m, true))
  {
  }

  lemma {:induction false} StatsSolid(xs: seq<Option<Checked>>, i: nat)
    requires forall c <- xs :: CheckedSolid(c)
    ensures AllSolid(StatsErrors(xs, i, true))
    decreases |xs| - i
  {
    hide Embedded, AllSolid, CheckedResult;
    if i < |xs| {
      StatsSolid(xs, i + 1);
      assert xs[i] in xs && CheckedSolid(xs[i]);
      CheckedAnswers(xs[i]);
      var one := Embedded("HostStatus", Indexed("Stats", i), CheckedResult(xs[i], true));
      EmbeddedSolid("HostStatus", Indexed("Stats", i), CheckedResult(xs[i], true));
      ConcatSolid(one, StatsErrors(xs, i + 1, true));
    } else {
      NothingSolid();
    }
  }

  lemma NothingSolid()
    ensures AllSolid([])
  {
  }

  lemma HostResultSolid(m: Option<Host>)
    requires HostSolid(m)
    ensures ResultSolid(HostResult(m, true))
  {
    if m.Some? {
      hide Embedded, AllSolid, Solid, CheckedResult, PercentResult, StatsErrors, HealthResult, Returned;
      var k, t := m.value.fields, "HostStatus";
      CheckedAnswers(k.address);
      CheckedAnswers(k.locality);
      EmbeddedSolid(t, Named("Address"), CheckedResult(k.address, true));
      StatsSolid(k.stats, 0);
      HealthPaths(k.healthStatus);
      PercentSolid(k.successRate);
      EmbeddedSolid(t, Named("SuccessRate"), PercentResult(k.successRate, true));
      PercentSolid(k.localOriginSuccessRate);
      EmbeddedSolid(t, Named("LocalOriginSuccessRate"), PercentResult(k.localOriginSuccessRate, true));
      EmbeddedSolid(t, Named("Locality"), CheckedResult(k.locality, true));
      var e5 := Embedded(t, Named("Locality"), CheckedResult(k.locality, true));
      var e4 := Embedded(t, Named("LocalOriginSuccessRate"), PercentResult(k.localOriginSuccessRate, true));
      var e3 := Embedded(t, Named("SuccessRate"), PercentResult(k.successRate, true));
      var e1 := StatsErrors(k.stats, 0, true);
      ConcatSolid(e4, e5);
      ConcatSolid(e3, e4 + e5);
      assert [] + (e3 + (e4 + e5)) == e3 + (e4 + e5);
      ConcatSolid(e1, e3 + (e4 + e5));
      ConcatSolid(Embedded(t, Named("Address"), CheckedResult(k.address, true)), e1 + (e3 + (e4 + e5)));
      ReturnedSolid(t, HostErrors(k, true));
    }
  }

  lemma {:induction false} HostsSolid(xs: seq<Option<Host>>, i: nat)
    requires forall h <- xs :: HostSolid(h)
    ensures AllSolid(HostsErrors(xs, i, true))
    decreases |xs| - i
  {
    hide Embedded, AllSolid, HostResult, HostSolid, Solid;
    if i < |xs| {
      HostsSolid(xs, i + 1);
      HostResultSolid(xs[i]);
      var one := Embedded("ClusterStatus", Indexed("HostStatuses", i), HostResult(xs[i], true));
      EmbeddedSolid("ClusterStatus", Indexed("HostStatuses", i), HostResult(xs[i], true));
      ConcatSolid(one, HostsErrors(xs, i + 1, true));
    } else {
      NothingSolid();
    }
  }

  lemma ClusterResultSolid(m: Option<Cluster>)
    requires ClusterSolid(m)
    ensures ResultSolid(ClusterResult(m, true))
  {
    if m.Some? {
      hide Embedded, AllSolid, Solid, PercentResult, HostsErrors, HostSolid, Returned;
      var k, t := m.value.fields, "ClusterStatus";
      var f, g := Named("SuccessRateEjectionThreshold"), Named("LocalOriginSuccessRateEjectionThreshold");
      PercentSolid(k.successRateEjectionThreshold);
      PercentSolid(k.localOriginSuccessRateEjectionThreshold);
      HostsSolid(k.hostStatuses, 0);
      EmbeddedSolid(t, f, PercentResult(k.successRateEjectionThreshold, true));
      EmbeddedSolid(t, g, PercentResult(k.localOriginSuccessRateEjectionThreshold, true));
      var e2 := Embedded(t, g, PercentResult(k.localOriginSuccessRateEjectionThreshold, true));
      ConcatSolid(HostsErrors(k.hostStatuses, 0, true), e2);
      ConcatSolid(Embedded(t, f, PercentResult(k.successRateEjectionThreshold, true)),
                  HostsErrors(k.hostStatuses, 0, true) + e2);
      ReturnedSolid(t, ClusterErrors(k, true));
    }
  }

  lemma {:induction false} ClusterListSolid(xs: seq<Option<Cluster>>, i: nat)
    requires forall c <- xs :: ClusterSolid(c)
    ensures AllSolid(ClusterListErrors(xs, i, true))
    decreases |xs| - i
  {
    hide Embedded, AllSolid, ClusterResult, ClusterSolid, Solid;
    if i < |xs| {
      ClusterListSolid(xs, i + 1);
      ClusterResultSolid(xs[i]);
      var one := Embedded("Clusters", Indexed("ClusterStatuses", i), ClusterResult(xs[i], true));
      EmbeddedSolid("Clusters", Indexed("ClusterStatuses", i), ClusterResult(xs[i], true));
      ConcatSolid(one, ClusterListErrors(xs, i + 1, true));
    } else {
      NothingSolid();
    }
  }

  /** Validate reports exactly the first violation of the tree, and nil exactly when there is none. */
  lemma ValidateReportsFirstViolation(m: Option<ClustersValue>)
    requires FirstAgrees(TreeVerdicts(m)) && ClustersSolid(m)
    ensures PathsOf(ClustersResult(m, false)) == (if Violations(m) == [] then [] else [Violations(m)[0]])
    ensures ClustersResult(m, false).None? <==> Violations(m) == []
    ensures ClustersResult(m, true).None? <==> Violations(m) == []
  {
    hide ClustersResult, Violations, Leftmost, Paths, Solid, ClusterSolid, FirstAgrees, TreeVerdicts;
    FailFastProjectsIff(m);
    ValidateAllReportsViolations(m);
    ClustersResultSolid(m);
    if ClustersResult(m, true).Some? {
      SolidHasPath(ClustersResult(m, true).value);
    }
  }

  lemma ClustersResultSolid(m: Option<ClustersValue>)
    requires ClustersSolid(m)
    ensures ResultSolid(ClustersResult(m, true))
  {
    hide AllSolid, Solid, ClusterSolid, Returned, ClusterListErrors;
    if m.Some? {
      var xs := m.value.fields.clusterStatuses;
      ClusterListSolid(xs, 0);
      ReturnedSolid("Clusters", ClusterListErrors(xs, 0, true));
    }
  }

  /* ----- the rule on percents ----- */

  /**
   * What the rule "inside range [0, 100]" accepts, in either mode: the numbers in that range, and
   * also NaN, which is neither below 0 nor above 100.
   */
  lemma PercentAcceptance(p: Percent, all: bool)
    ensures PercentResult(Some(p), all).None? <==> InRange(p.fields.value) || IsNaN(p.fields.value)
  {
    var bits := p.fields.value;
    hide InRange, Value, Pow2;
    if IsFinite(bits) {
      Comparisons(bits);
      InRangeOfFinite(bits);
    } else {
      NotInRange(bits);
    }
  }

  lemma InRangeOfFinite(bits: uint64)
    requires IsFinite(bits)
    ensures InRange(bits) <==> 0 <= Value(bits) <= 100 * One()
  {
  }

  lemma NotInRange(bits: uint64)
    requires !IsFinite(bits)
    ensures !InRange(bits)
  {
  }

  /** The NaN with the smallest payload is not in the range, and passes. */
  lemma NaNPasses(all: bool)
    ensures
      var nan := 0x7FF0_0000_0000_0001;
      IsNaN(nan) && !InRange(nan) && PercentResult(Some(Msg(PercentFields(nan), [])), all).None?
  {
  }

  /* ----- validity ----- */

  ghost predicate PercentValid(m: Option<Percent>) {
    m.Some? ==> InRange(m.value.fields.value) || IsNaN(m.value.fields.value)
  }

  lemma PercentValidity(m: Option<Percent>)
    ensures PercentResult(m, true).None? <==> PercentValid(m)
  {
    hide InRange;
    if m.Some? {
      PercentAcceptance(m.value, true);
    }
  }

  /** ValidateAll returns nil, or Validate does where there is no ValidateAll. */
  predicate CheckedValid(c: Option<Checked>) {
    c.Some? ==>
      && (c.value.hasValidateAll ==> c.value.validateAll.None?)
      && (c.value.hasValidate && !c.value.hasValidateAll ==> c.value.validate.None?)
  }

  ghost predicate HostValid(m: Option<Host>) {
    m.Some? ==>
      var k := m.value.fields;
      && CheckedValid(k.address) && CheckedValid(k.locality)
      && PercentValid(k.successRate) && PercentValid(k.localOriginSuccessRate)
      && forall c <- k.stats :: CheckedValid(c)
  }

  ghost predicate ClusterValid(m: Option<Cluster>) {
    m.Some? ==>
      var k := m.value.fields;
      && PercentValid(k.successRateEjectionThreshold) && PercentValid(k.localOriginSuccessRateEjectionThreshold)
      && forall h <- k.hostStatuses :: HostValid(h)
  }

  ghost predicate ClustersValid(m: Option<ClustersValue>) {
    m.Some? ==> forall c <- m.value.fields.clusterStatuses :: ClusterValid(c)
  }

  lemma CheckedValidity(c: Option<Checked>)
    ensures CheckedResult(c, true).None? <==> CheckedValid(c)
  {
  }

  lemma {:induction false} StatsValid(xs: seq<Option<Checked>>, i: nat)
    requires i <= |xs|
    ensures StatsErrors(xs, i, true) == [] <==> forall c <- xs[i..] :: CheckedValid(c)
    decreases |xs| - i
  {
    hide CheckedResult, CheckedValid;
    if i < |xs| {
      StatsValid(xs, i + 1);
      CheckedValidity(xs[i]);
      assert xs[i..] == [xs[i]] + xs[i + 1..];
      assert xs[i] in xs[i..];
      assert forall c <- xs[i..] :: c == xs[i] || c in xs[i + 1..];
    }
  }

  lemma HostValidity(m: Option<Host>)
    ensures HostResult(m, true).None? <==> HostValid(m)
  {
    hide CheckedResult, CheckedValid, StatsErrors, PercentResult, PercentValid;
    if m.Some? {
      var k := m.value.fields;
      CheckedValidity(k.address);
      CheckedValidity(k.locality);
      PercentValidity(k.successRate);
      PercentValidity(k.localOriginSuccessRate);
      StatsValid(k.stats, 0);
      assert k.stats[0..] == k.stats;
    }
  }

  lemma {:induction false} HostsValid(xs: seq<Option<Host>>, i: nat)
    requires i <= |xs|
    ensures HostsErrors(xs, i, true) == [] <==> forall h <- xs[i..] :: HostValid(h)
    decreases |xs| - i
  {
    hide HostResult, HostValid;
    if i < |xs| {
      HostsValid(xs, i + 1);
      HostValidity(xs[i]);
      assert xs[i..] == [xs[i]] + xs[i + 1..];
    }
  }

  lemma ClusterValidity(m: Option<Cluster>)
    ensures ClusterResult(m, true).None? <==> ClusterValid(m)
  {
    hide HostsErrors, HostValid, PercentResult, PercentValid;
    if m.Some? {
      var k := m.value.fields;
      PercentValidity(k.successRateEjectionThreshold);
      PercentValidity(k.localOriginSuccessRateEjectionThreshold);
      HostsValid(k.hostStatuses, 0);
      assert k.hostStatuses[0..] == k.hostStatuses;
    }
  }

  lemma {:induction false} ClusterListValid(xs: seq<Option<Cluster>>, i: nat)
    requires i <= |xs|
    ensures ClusterListErrors(xs, i, true) == [] <==> forall c <- xs[i..] :: ClusterValid(c)
    decreases |xs| - i
  {
    hide ClusterResult, ClusterValid;
    if i < |xs| {
      ClusterListValid(xs, i + 1);
      ClusterValidity(xs[i]);
      assert xs[i..] == [xs[i]] + xs[i + 1..];
    }
  }

  /**
   * Both validators accept exactly the trees in which every Percent is a number in [0, 100] or NaN
   * and every opaque child is valid; Validate does so when the first child to report is consistent,
   * and so in every tree of consistent children.
   */
  lemma ValidityCharacterised(m: Option<ClustersValue>)
    ensures ClustersResult(m, true).None? <==> ClustersValid(m)
    ensures FirstAgrees(TreeVerdicts(m)) ==> (ClustersResult(m, false).None? <==> ClustersValid(m))
    ensures ClustersConsistent(m) ==> (ClustersResult(m, false).None? <==> ClustersValid(m))
  {
    hide ClusterListErrors, ClusterValid, Leftmost, FirstAgrees, TreeVerdicts, ClusterConsistent, ClustersConsistent;
    if m.Some? {
      ClusterListValid(m.value.fields.clusterStatuses, 0);
      assert m.value.fields.clusterStatuses[0..] == m.value.fields.clusterStatuses;
    }
    FailFastProjectsIff(m);
    if ClustersConsistent(m) {
      FailFastProjects(m);
    }
  }
}
