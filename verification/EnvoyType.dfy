/**
 * envoy.type: Int64Range, Int32Range, DoubleRange, Percent, FractionalPercent and HashPolicy,
 * with their marshallers, the specification decoder, and the laws that connect the two.
 */
module EnvoyType {
  import opened GoTypes
  import opened Varint
  import opened Wire
  import opened Messages
  import opened Buffer

  datatype Int64RangeFields = Int64RangeFields(start: int64, end: int64)
  datatype Int32RangeFields = Int32RangeFields(start: int32, end: int32)
  datatype DoubleRangeFields = DoubleRangeFields(start: uint64, end: uint64)  // the bits of the doubles
  datatype PercentFields = PercentFields(value: uint64)  // the bits of the double
  datatype FractionalPercentFields = FractionalPercentFields(numerator: uint32, denominator: int32)
  datatype SourceIpFields = SourceIpFields

  /** The oneof of HashPolicy. Its wrapper can hold a nil message. */
  datatype PolicySpecifier = NoPolicy | SourceIpPolicy(sourceIp: Option<SourceIp>)
  datatype HashPolicyFields = HashPolicyFields(policySpecifier: PolicySpecifier)

  type Int64Range = Msg<Int64RangeFields>
  type Int32Range = Msg<Int32RangeFields>
  type DoubleRange = Msg<DoubleRangeFields>
  type Percent = Msg<PercentFields>
  type FractionalPercent = Msg<FractionalPercentFields>
  type SourceIp = Msg<SourceIpFields>
  type HashPolicy = Msg<HashPolicyFields>

  /* ----- forward encoding ----- */

  function Int64RangeLayout(k: Int64RangeFields): seq<seq<Record>> {
    [VarintField(1, Uint64Of(k.start)), VarintField(2, Uint64Of(k.end))]
  }

  function Int32RangeLayout(k: Int32RangeFields): seq<seq<Record>> {
    [VarintField(1, Uint64Of(k.start)), VarintField(2, Uint64Of(k.end))]
  }

  function DoubleRangeLayout(k: DoubleRangeFields): seq<seq<Record>> {
    [DoubleField(1, k.start), DoubleField(2, k.end)]
  }

  function PercentLayout(k: PercentFields): seq<seq<Record>> {
    [DoubleField(1, k.value)]
  }

  function FractionalPercentLayout(k: FractionalPercentFields): seq<seq<Record>> {
    [VarintField(1, k.numerator), VarintField(2, Uint64Of(k.denominator))]
  }

  function SourceIpLayout(k: SourceIpFields): seq<seq<Record>> {
    []
  }

  function HashPolicyLayout(k: HashPolicyFields): seq<seq<Record>> {
    [OptionalField(1,
      if k.policySpecifier.SourceIpPolicy? then Some(EncodeSourceIp(k.policySpecifier.sourceIp)) else None)]
  }

  function EncodeInt64Range(m: Option<Int64Range>): seq<byte> {
    if m.None? then [] else EncodeFields(Int64RangeLayout(m.value.fields), m.value.unknownFields)
  }

  function EncodeInt32Range(m: Option<Int32Range>): seq<byte> {
    if m.None? then [] else EncodeFields(Int32RangeLayout(m.value.fields), m.value.unknownFields)
  }

  function EncodeDoubleRange(m: Option<DoubleRange>): seq<byte> {
    if m.None? then [] else EncodeFields(DoubleRangeLayout(m.value.fields), m.value.unknownFields)
  }

  function EncodePercent(m: Option<Percent>): seq<byte> {
    if m.None? then [] else EncodeFields(PercentLayout(m.value.fields), m.value.unknownFields)
  }

  function EncodeFractionalPercent(m: Option<FractionalPercent>): seq<byte> {
    if m.None? then [] else EncodeFields(FractionalPercentLayout(m.value.fields), m.value.unknownFields)
  }

  function EncodeSourceIp(m: Option<SourceIp>): seq<byte> {
    if m.None? then [] else EncodeFields(SourceIpLayout(m.value.fields), m.value.unknownFields)
  }

  function EncodeHashPolicy(m: Option<HashPolicy>): seq<byte> {
    if m.None? then [] else EncodeFields(HashPolicyLayout(m.value.fields), m.value.unknownFields)
  }

  /* ----- the specification decoder ----- */

  function Int64RangeStep(k: Int64RangeFields, r: Record): Outcome<Int64RangeFields> {
    match r
    case Varint(1, v) => Updated(k.(start := Int64Of(v)))
    case Varint(2, v) => Updated(k.(end := Int64Of(v)))
    case _ => Unrecognised
  }

  function Int32RangeStep(k: Int32RangeFields, r: Record): Outcome<Int32RangeFields> {
    match r
    case Varint(1, v) => Updated(k.(start := Int32Of(v)))
    case Varint(2, v) => Updated(k.(end := Int32Of(v)))
    case _ => Unrecognised
  }

  function DoubleRangeStep(k: DoubleRangeFields, r: Record): Outcome<DoubleRangeFields> {
    match r
    case Fixed64(1, bits) => Updated(k.(start := bits))
    case Fixed64(2, bits) => Updated(k.(end := bits))
    case _ => Unrecognised
  }

  function PercentStep(k: PercentFields, r: Record): Outcome<PercentFields> {
    match r
    case Fixed64(1, bits) => Updated(k.(value := bits))
    case _ => Unrecognised
  }

  function FractionalPercentStep(k: FractionalPercentFields, r: Record): Outcome<FractionalPercentFields> {
    match r
    case Varint(1, v) => Updated(k.(numerator := Uint32Of(v)))
    case Varint(2, v) => Updated(k.(denominator := Int32Of(v)))
    case _ => Unrecognised
  }

  function SourceIpStep(k: SourceIpFields, r: Record): Outcome<SourceIpFields> {
    Unrecognised
  }

  /** A second source_ip merges into the first, as any singular submessage does. */
  function HashPolicyStep(k: HashPolicyFields, r: Record): Outcome<HashPolicyFields> {
    match r
    case Len(1, p) =>
      (match DecodeInto(SourceIpStep, HeldSourceIp(k), p)
       case Some(x) => Updated(HashPolicyFields(SourceIpPolicy(Some(x))))
       case None => Malformed)
    case _ => Unrecognised
  }

  function HeldSourceIp(k: HashPolicyFields): SourceIp {
    if k.policySpecifier.SourceIpPolicy? then k.policySpecifier.sourceIp.GetOr(Msg(SourceIpFields, []))
    else Msg(SourceIpFields, [])
  }

  /* ----- the ranges ----- */

  lemma Int64RangeDecodes(acc: Int64Range, m: Int64Range)
    requires UnknownTo(Int64RangeStep, m.unknownFields) && |EncodeInt64Range(Some(m))| <= MAX_INT
    ensures DecodeInto(Int64RangeStep, acc, EncodeInt64Range(Some(m))) ==
            Some(Msg(Int64RangeFields(LastNonDefault(0, acc.fields.start, m.fields.start),
                                      LastNonDefault(0, acc.fields.end, m.fields.end)),
                     acc.unknownFields + m.unknownFields))
  {
    hide EncodeFields, UnknownTo, DecodeInto, Flatten, Absorb;
    var fs, k0 := Int64RangeLayout(m.fields), acc.fields;
    var k1 := k0.(start := LastNonDefault(0, k0.start, m.fields.start));
    var k2 := k1.(end := LastNonDefault(0, k0.end, m.fields.end));
    AbsorbFields(Int64RangeStep, fs, [k0, k1, k2]);
    DecodeEncoded(Int64RangeStep, acc, fs, m.unknownFields, k2);
  }

  /**
   * An Int32Range decoder cuts the bounds of any 64-bit range down to 32 bits: each bound that is
   * written is read as the one int32 that is congruent to it modulo 2^32.
   */
  lemma Int32RangeDecodes(acc: Int32Range, m: Int64Range)
    requires UnknownTo(Int32RangeStep, m.unknownFields) && |EncodeInt64Range(Some(m))| <= MAX_INT
    ensures
      var back := DecodeInto(Int32RangeStep, acc, EncodeInt64Range(Some(m)));
      && back.Some? && back.value.unknownFields == acc.unknownFields + m.unknownFields
      && (m.fields.start == 0 ==> back.value.fields.start == acc.fields.start)
      && (m.fields.end == 0 ==> back.value.fields.end == acc.fields.end)
      && (m.fields.start != 0 ==> (back.value.fields.start - m.fields.start) % TWO_TO_THE_32 == 0)
      && (m.fields.end != 0 ==> (back.value.fields.end - m.fields.end) % TWO_TO_THE_32 == 0)
  {
    hide EncodeFields, UnknownTo, DecodeInto, Flatten, Absorb, Int32Of, Uint64Of;
    SignExtended(m.fields.start);
    SignExtended(m.fields.end);
    ZeroExtends(m.fields.start);
    ZeroExtends(m.fields.end);
    var fs, k0 := Int64RangeLayout(m.fields), acc.fields;
    var k1 := if m.fields.start == 0 then k0 else k0.(start := Int32Of(Uint64Of(m.fields.start)));
    var k2 := if m.fields.end == 0 then k1 else k1.(end := Int32Of(Uint64Of(m.fields.end)));
    AbsorbFields(Int32RangeStep, fs, [k0, k1, k2]);
    DecodeEncoded(Int32RangeStep, acc, fs, m.unknownFields, k2);
  }

  lemma ZeroExtends(x: int64)
    ensures Uint64Of(x) == 0 <==> x == 0
  {
  }

  /** 0x1_0000_0005 is cut down to 5, and 0xFFFF_FFFF to -1. */
  lemma CutDown()
    ensures
      var m := Msg(Int64RangeFields(0x1_0000_0005, 0xFFFF_FFFF), []);
      DecodeInto(Int32RangeStep, Msg(Int32RangeFields(0, 0), []), EncodeInt64Range(Some(m))) ==
        Some(Msg(Int32RangeFields(5, -1), []))
  {
    hide DecodeInto, EncodeInt64Range, SizeOfVarint;
    var m := Msg(Int64RangeFields(0x1_0000_0005, 0xFFFF_FFFF), []);
    RangeSize(m);
    Int32RangeDecodes(Msg(Int32RangeFields(0, 0), []), m);
    var back := DecodeInto(Int32RangeStep, Msg(Int32RangeFields(0, 0), []), EncodeInt64Range(Some(m))).value;
    OneInt32(back.fields.start, 5);
    OneInt32(back.fields.end, -1);
  }

  function Widen(m: Int32Range): Int64Range {
    Msg(Int64RangeFields(m.fields.start, m.fields.end), m.unknownFields)
  }

  /**
   * The two range types are interchangeable on the wire for values of 32 bits: same bytes, and each
   * type reads the other's bytes as the same numbers.
   */
  lemma RangesCompatible(m: Int32Range)
    requires UnknownTo(Int32RangeStep, m.unknownFields) && UnknownTo(Int64RangeStep, m.unknownFields)
    requires |EncodeInt32Range(Some(m))| <= MAX_INT
    ensures EncodeInt32Range(Some(m)) == EncodeInt64Range(Some(Widen(m)))
    ensures DecodeInto(Int32RangeStep, Msg(Int32RangeFields(0, 0), []), EncodeInt32Range(Some(m))) == Some(m)
    ensures DecodeInto(Int64RangeStep, Msg(Int64RangeFields(0, 0), []), EncodeInt32Range(Some(m))) == Some(Widen(m))
  {
    hide DecodeInto, UnknownTo;
    Int64RangeDecodes(Msg(Int64RangeFields(0, 0), []), Widen(m));
    Int32RangeDecodes(Msg(Int32RangeFields(0, 0), []), Widen(m));
    var back := DecodeInto(Int32RangeStep, Msg(Int32RangeFields(0, 0), []), EncodeInt32Range(Some(m))).value;
    OneInt32(back.fields.start, m.fields.start);
    OneInt32(back.fields.end, m.fields.end);
    assert [] + m.unknownFields == m.unknownFields;
  }

  /**
   * The size of a range: a zero bound takes nothing, a negative one eleven bytes (a key and the
   * longest varint), a positive one less; so the known fields never take more than 22.
   */
  lemma RangeSize(m: Int64Range)
    ensures |EncodeInt64Range(Some(m))| == BoundSize(m.fields.start) + BoundSize(m.fields.end) + |m.unknownFields|
    ensures |EncodeInt64Range(Some(m))| <= 22 + |m.unknownFields|
    ensures |EncodeInt64Range(Some(m))| == 22 + |m.unknownFields| <==> m.fields.start < 0 && m.fields.end < 0
  {
    hide EncodeRecords, EncodeFields;
    var fs := Int64RangeLayout(m.fields);
    EncodeFieldsSplit([fs[0]], [fs[1]], m.unknownFields);
    assert fs == [fs[0]] + [fs[1]];
    EncodeSingleField(fs[0], EncodeFields([fs[1]], m.unknownFields));
    EncodeSingleField(fs[1], m.unknownFields);
    BoundBytes(1, m.fields.start);
    BoundBytes(2, m.fields.end);
  }

  function BoundSize(x: int64): nat {
    if x == 0 then 0 else 1 + SizeOfVarint(Uint64Of(x))
  }

  lemma BoundBytes(num: FieldNumber, x: int64)
    requires num < 16
    ensures |EncodeRecords(VarintField(num, Uint64Of(x)))| == BoundSize(x) <= 11
    ensures BoundSize(x) == 11 <==> x < 0
  {
    hide EncodeRecord;
    EncodeNone();
    EncodeOne(Record.Varint(num, Uint64Of(x)));
    VarintRecordSize(num, Uint64Of(x));
    SizeOfUint64(Uint64Of(x));
  }

  /* ----- doubles ----- */

  /** What a double field reads back as: negative zero is not written, and reads back as zero. */
  function NormaliseDouble(bits: uint64): (r: uint64)
    ensures r == bits <==> bits != TWO_TO_THE_63
  {
    if IsZeroDouble(bits) then 0 else bits
  }

  function MergeDouble(a: uint64, b: uint64): uint64 {
    if IsZeroDouble(b) then a else b
  }

  lemma DoubleRangeDecodes(acc: DoubleRange, m: DoubleRange)
    requires UnknownTo(DoubleRangeStep, m.unknownFields) && |EncodeDoubleRange(Some(m))| <= MAX_INT
    ensures DecodeInto(DoubleRangeStep, acc, EncodeDoubleRange(Some(m))) ==
            Some(Msg(DoubleRangeFields(MergeDouble(acc.fields.start, m.fields.start),
                                       MergeDouble(acc.fields.end, m.fields.end)),
                     acc.unknownFields + m.unknownFields))
  {
    hide EncodeFields, UnknownTo, DecodeInto, Flatten, Absorb;
    var fs, k0 := DoubleRangeLayout(m.fields), acc.fields;
    var k1 := k0.(start := MergeDouble(k0.start, m.fields.start));
    var k2 := k1.(end := MergeDouble(k0.end, m.fields.end));
    AbsorbFields(DoubleRangeStep, fs, [k0, k1, k2]);
    DecodeEncoded(DoubleRangeStep, acc, fs, m.unknownFields, k2);
  }

  /** Round trip of DoubleRange, exact unless a bound is negative zero. */
  lemma DoubleRangeRoundTrip(m: DoubleRange)
    requires UnknownTo(DoubleRangeStep, m.unknownFields) && |EncodeDoubleRange(Some(m))| <= MAX_INT
    ensures
      var back := DecodeInto(DoubleRangeStep, Msg(DoubleRangeFields(0, 0), []), EncodeDoubleRange(Some(m)));
      && back == Some(Msg(DoubleRangeFields(NormaliseDouble(m.fields.start), NormaliseDouble(m.fields.end)),
        m.unknownFields))
      && (back == Some(m) <==> m.fields.start != TWO_TO_THE_63 && m.fields.end != TWO_TO_THE_63)
  {
    hide DecodeInto, UnknownTo, EncodeDoubleRange;
    DoubleRangeDecodes(Msg(DoubleRangeFields(0, 0), []), m);
    assert [] + m.unknownFields == m.unknownFields;
  }

  const NO_PERCENT: Percent := Msg(PercentFields(0), [])

  /** A later value wins unless it is zero, which is not on the wire. */
  function MergePercent(a: PercentFields, b: PercentFields): PercentFields {
    PercentFields(MergeDouble(a.value, b.value))
  }

  lemma PercentDecodes(acc: Percent, m: Percent)
    requires UnknownTo(PercentStep, m.unknownFields)
    ensures DecodeInto(PercentStep, acc, EncodePercent(Some(m))) == Some(MergeMsg(MergePercent, acc, m))
  {
    hide EncodeFields, Parse, DecodeInto, DecodeTokens, NoneRecognised, Raws;
    var fs, ts := PercentLayout(m.fields), Parse(m.unknownFields).value;
    var k := MergePercent(acc.fields, m.fields);
    assert Flatten(fs) == DoubleField(1, m.fields.value) by { FlattenOne(DoubleField(1, m.fields.value)); }
    assert DoubleField(1, m.fields.value)[|DoubleField(1, m.fields.value)|..] == [];
    DecodeEmitted(PercentStep, acc, fs, m.unknownFields, k);
    UnknownKept(PercentStep, acc.(fields := k), ts);
    ParseKeepsBytes(m.unknownFields);
  }

  lemma FlattenOne(f: seq<Record>)
    ensures Flatten([f]) == f
  {
    assert [f][1..] == [] && f + [] == f;
  }

  lemma PercentRoundTrip(m: Percent)
    requires UnknownTo(PercentStep, m.unknownFields)
    ensures
      var back := DecodeInto(PercentStep, NO_PERCENT, EncodePercent(Some(m)));
      && back == Some(Msg(PercentFields(NormaliseDouble(m.fields.value)), m.unknownFields))
      && (back == Some(m) <==> m.fields.value != TWO_TO_THE_63)
  {
    hide DecodeInto, UnknownTo, EncodePercent;
    PercentDecodes(NO_PERCENT, m);
    assert [] + m.unknownFields == m.unknownFields;
  }

  lemma FractionalPercentRoundTrip(m: FractionalPercent)
    requires UnknownTo(FractionalPercentStep, m.unknownFields) && |EncodeFractionalPercent(Some(m))| <= MAX_INT
    ensures DecodeInto(FractionalPercentStep, Msg(FractionalPercentFields(0, 0), []),
      EncodeFractionalPercent(Some(m))) == Some(m)
  {
    hide EncodeFields, UnknownTo, DecodeInto, Flatten, Absorb, Int32Of, Uint32Of;
    Int32Survives(m.fields.denominator);
    Uint32Survives(m.fields.numerator);
    var fs, k0 := FractionalPercentLayout(m.fields), FractionalPercentFields(0, 0);
    AbsorbFields(FractionalPercentStep, fs, [k0, k0.(numerator := m.fields.numerator), m.fields]);
    DecodeEncoded(FractionalPercentStep, Msg(k0, []), fs, m.unknownFields, m.fields);
    assert [] + m.unknownFields == m.unknownFields;
  }

  /* ----- the oneof that holds a message ----- */

  lemma SourceIpDecodes(acc: SourceIp, m: Option<SourceIp>)
    requires m.Some? ==> UnknownTo(SourceIpStep, m.value.unknownFields)
    requires |EncodeSourceIp(m)| <= MAX_INT
    ensures DecodeInto(SourceIpStep, acc, EncodeSourceIp(m)) ==
            Some(Msg(SourceIpFields, acc.unknownFields + m.GetOr(Msg(SourceIpFields, [])).unknownFields))
  {
    match acc.fields { case SourceIpFields => }
    if m.None? {
      DecodeNothing(SourceIpStep, acc);
    } else {
      DecodeEncoded(SourceIpStep, acc, [], m.value.unknownFields, acc.fields);
    }
  }

  ghost predicate HashPolicyOk(m: HashPolicy) {
    && UnknownTo(HashPolicyStep, m.unknownFields)
    && (m.fields.policySpecifier.SourceIpPolicy? && m.fields.policySpecifier.sourceIp.Some? ==>
          UnknownTo(SourceIpStep, m.fields.policySpecifier.sourceIp.value.unknownFields))
  }

  /** A wrapper around nil reads back as a wrapper around an empty message. */
  function NormalisePolicy(p: PolicySpecifier): PolicySpecifier {
    if p.NoPolicy? then p else SourceIpPolicy(Some(p.sourceIp.GetOr(Msg(SourceIpFields, []))))
  }

  /** b's source_ip, when it is set, merges into a's. */
  function MergePolicy(a: HashPolicyFields, b: HashPolicyFields): HashPolicyFields {
    if b.policySpecifier.NoPolicy? then a
    else HashPolicyFields(SourceIpPolicy(Some(
      Msg(SourceIpFields, HeldSourceIp(a).unknownFields + HeldSourceIp(b).unknownFields))))
  }

  lemma HashPolicyDecodes(acc: HashPolicy, m: HashPolicy)
    requires HashPolicyOk(m) && |EncodeHashPolicy(Some(m))| <= MAX_INT
    ensures DecodeInto(HashPolicyStep, acc, EncodeHashPolicy(Some(m))) == Some(MergeMsg(MergePolicy, acc, m))
  {
    hide EncodeRecords, EncodeFields, UnknownTo, DecodeInto, Flatten, Absorb;
    var fs, k := HashPolicyLayout(m.fields), m.fields;
    var k1 := MergePolicy(acc.fields, k);
    if k.policySpecifier.SourceIpPolicy? {
      FieldFits(fs, m.unknownFields, 0);
      OptionalPayloadFits(1, EncodeSourceIp(k.policySpecifier.sourceIp));
      SourceIpDecodes(HeldSourceIp(acc.fields), k.policySpecifier.sourceIp);
    }
    AbsorbFields(HashPolicyStep, fs, [acc.fields, k1]);
    DecodeEncoded(HashPolicyStep, acc, fs, m.unknownFields, k1);
  }

  /**
   * A set oneof reads back as set and an unset one as unset. The round trip is exact unless the
   * wrapper holds nil, which reads back as an empty message.
   */
  lemma HashPolicyRoundTrip(m: HashPolicy)
    requires HashPolicyOk(m) && |EncodeHashPolicy(Some(m))| <= MAX_INT
    ensures
      var back := DecodeInto(HashPolicyStep, Msg(HashPolicyFields(NoPolicy), []), EncodeHashPolicy(Some(m)));
      var p := m.fields.policySpecifier;
      && back == Some(Msg(HashPolicyFields(NormalisePolicy(p)), m.unknownFields))
      && (back == Some(m) <==> !(p.SourceIpPolicy? && p.sourceIp.None?))
  {
    hide DecodeInto, HashPolicyOk, EncodeHashPolicy;
    HashPolicyDecodes(Msg(HashPolicyFields(NoPolicy), []), m);
    match HeldSourceIp(m.fields).fields { case SourceIpFields => }
    assert [] + m.unknownFields == m.unknownFields;
    assert [] + HeldSourceIp(m.fields).unknownFields == HeldSourceIp(m.fields).unknownFields;
  }

  /** A wrapper around nil and one around an empty message are the same two bytes. */
  lemma NilSourceIpBytes(unknownFields: seq<byte>)
    ensures forall inner | inner in {None, Some(Msg(SourceIpFields, []))} ::
      EncodeHashPolicy(Some(Msg(HashPolicyFields(SourceIpPolicy(inner)), unknownFields))) == [0xa, 0] + unknownFields
  {
    forall inner | inner in {None, Some(Msg(SourceIpFields, []))}
      ensures EncodeHashPolicy(Some(Msg(HashPolicyFields(SourceIpPolicy(inner)), unknownFields))) ==
        [0xa, 0] + unknownFields
    {
      assert EncodeSourceIp(inner) == [];
      EncodeSingleField([Len(1, [])], unknownFields);
      EncodeOne(Len(1, []));
    }
  }

  /* ----- marshallers ----- */

  method MarshalInt64Range(m: Option<Int64Range>, dAtA: array<byte>, end: nat) returns (n: nat)
    requires |EncodeInt64Range(m)| <= end <= dAtA.Length <= MAX_INT
    modifies dAtA
    ensures n == |EncodeInt64Range(m)|
    ensures dAtA[..] == Splice(old(dAtA[..]), end, EncodeInt64Range(m))
  {
    hide EncodeRecord, EncodeRecords, EncodeFields, Splice, Job.From, Job.Valid, Inserted;
    if m.None? {
      SpliceNothing(dAtA[..], end);
      return 0;
    }
    var k := m.value.fields;
    ghost var job := Job(dAtA[..], end, Int64RangeLayout(k), m.value.unknownFields);
    JobFits(job);
    var i := PutUnknown(dAtA, end, m.value.unknownFields, job);
    i := PutVarint(dAtA, i, [0x10], Uint64Of(k.end), 2, 1, job);
    i := PutVarint(dAtA, i, [0x8], Uint64Of(k.start), 1, 0, job);
    Finish(job, dAtA[..], i);
    n := end - i;
  }

  method SizeInt64Range(m: Option<Int64Range>) returns (n: int)
    requires |EncodeInt64Range(m)| <= MAX_INT
    ensures n == |EncodeInt64Range(m)|
  {
    hide EncodeRecord, EncodeRecords, EncodeFields, SizeOfVarint;
    n := 0;
    if m.None? {
      return;
    }
    var k := m.value.fields;
    ghost var job := Job([], 0, Int64RangeLayout(k), m.value.unknownFields);
    SizedStart(job);
    n := AddVarint(n, 1, Uint64Of(k.start), 1, 0, job);
    n := AddVarint(n, 1, Uint64Of(k.end), 2, 1, job);
    SizedEnd(job, n);
    n := n + |m.value.unknownFields|;
  }

  method MarshalInt32Range(m: Option<Int32Range>, dAtA: array<byte>, end: nat) returns (n: nat)
    requires |EncodeInt32Range(m)| <= end <= dAtA.Length <= MAX_INT
    modifies dAtA
    ensures n == |EncodeInt32Range(m)|
    ensures dAtA[..] == Splice(old(dAtA[..]), end, EncodeInt32Range(m))
  {
    hide EncodeRecord, EncodeRecords, EncodeFields, Splice, Job.From, Job.Valid, Inserted;
    if m.None? {
      SpliceNothing(dAtA[..], end);
      return 0;
    }
    var k := m.value.fields;
    ghost var job := Job(dAtA[..], end, Int32RangeLayout(k), m.value.unknownFields);
    JobFits(job);
    var i := PutUnknown(dAtA, end, m.value.unknownFields, job);
    i := PutVarint(dAtA, i, [0x10], Uint64Of(k.end), 2, 1, job);
    i := PutVarint(dAtA, i, [0x8], Uint64Of(k.start), 1, 0, job);
    Finish(job, dAtA[..], i);
    n := end - i;
  }

  method SizeInt32Range(m: Option<Int32Range>) returns (n: int)
    requires |EncodeInt32Range(m)| <= MAX_INT
    ensures n == |EncodeInt32Range(m)|
  {
    hide EncodeRecord, EncodeRecords, EncodeFields, SizeOfVarint;
    n := 0;
    if m.None? {
      return;
    }
    var k := m.value.fields;
    ghost var job := Job([], 0, Int32RangeLayout(k), m.value.unknownFields);
    SizedStart(job);
    n := AddVarint(n, 1, Uint64Of(k.start), 1, 0, job);
    n := AddVarint(n, 1, Uint64Of(k.end), 2, 1, job);
    SizedEnd(job, n);
    n := n + |m.value.unknownFields|;
  }

  method MarshalDoubleRange(m: Option<DoubleRange>, dAtA: array<byte>, end: nat) returns (n: nat)
    requires |EncodeDoubleRange(m)| <= end <= dAtA.Length <= MAX_INT
    modifies dAtA
    ensures n == |EncodeDoubleRange(m)|
    ensures dAtA[..] == Splice(old(dAtA[..]), end, EncodeDoubleRange(m))
  {
    hide EncodeRecord, EncodeRecords, EncodeFields, Splice, Job.From, Job.Valid, Inserted;
    if m.None? {
      SpliceNothing(dAtA[..], end);
      return 0;
    }
    var k := m.value.fields;
    ghost var job := Job(dAtA[..], end, DoubleRangeLayout(k), m.value.unknownFields);
    JobFits(job);
    var i := PutUnknown(dAtA, end, m.value.unknownFields, job);
    i := PutDouble(dAtA, i, [0x11], k.end, 2, 1, job);
    i := PutDouble(dAtA, i, [0x9], k.start, 1, 0, job);
    Finish(job, dAtA[..], i);
    n := end - i;
  }

  method SizeDoubleRange(m: Option<DoubleRange>) returns (n: int)
    requires |EncodeDoubleRange(m)| <= MAX_INT
    ensures n == |EncodeDoubleRange(m)|
  {
    hide EncodeRecord, EncodeRecords, EncodeFields, SizeOfVarint;
    n := 0;
    if m.None? {
      return;
    }
    var k := m.value.fields;
    ghost var job := Job([], 0, DoubleRangeLayout(k), m.value.unknownFields);
    SizedStart(job);
    n := AddDouble(n, k.start, 1, 0, job);
    n := AddDouble(n, k.end, 2, 1, job);
    SizedEnd(job, n);
    n := n + |m.value.unknownFields|;
  }

  method MarshalPercent(m: Option<Percent>, dAtA: array<byte>, end: nat) returns (n: nat)
    requires |EncodePercent(m)| <= end <= dAtA.Length <= MAX_INT
    modifies dAtA
    ensures n == |EncodePercent(m)|
    ensures dAtA[..] == Splice(old(dAtA[..]), end, EncodePercent(m))
  {
    hide EncodeRecord, EncodeRecords, EncodeFields, Splice, Job.From, Job.Valid, Inserted;
    if m.None? {
      SpliceNothing(dAtA[..], end);
      return 0;
    }
    var k := m.value.fields;
    ghost var job := Job(dAtA[..], end, PercentLayout(k), m.value.unknownFields);
    JobFits(job);
    var i := PutUnknown(dAtA, end, m.value.unknownFields, job);
    i := PutDouble(dAtA, i, [0x9], k.value, 1, 0, job);
    Finish(job, dAtA[..], i);
    n := end - i;
  }

  method SizePercent(m: Option<Percent>) returns (n: int)
    requires |EncodePercent(m)| <= MAX_INT
    ensures n == |EncodePercent(m)|
  {
    hide EncodeRecord, EncodeRecords, EncodeFields, SizeOfVarint;
    n := 0;
    if m.None? {
      return;
    }
    var k := m.value.fields;
    ghost var job := Job([], 0, PercentLayout(k), m.value.unknownFields);
    SizedStart(job);
    n := AddDouble(n, k.value, 1, 0, job);
    SizedEnd(job, n);
    n := n + |m.value.unknownFields|;
  }

  method MarshalFractionalPercent(m: Option<FractionalPercent>, dAtA: array<byte>, end: nat) returns (n: nat)
    requires |EncodeFractionalPercent(m)| <= end <= dAtA.Length <= MAX_INT
    modifies dAtA
    ensures n == |EncodeFractionalPercent(m)|
    ensures dAtA[..] == Splice(old(dAtA[..]), end, EncodeFractionalPercent(m))
  {
    hide EncodeRecord, EncodeRecords, EncodeFields, Splice, Job.From, Job.Valid, Inserted;
    if m.None? {
      SpliceNothing(dAtA[..], end);
      return 0;
    }
    var k := m.value.fields;
    ghost var job := Job(dAtA[..], end, FractionalPercentLayout(k), m.value.unknownFields);
    JobFits(job);
    var i := PutUnknown(dAtA, end, m.value.unknownFields, job);
    i := PutVarint(dAtA, i, [0x10], Uint64Of(k.denominator), 2, 1, job);
    i := PutVarint(dAtA, i, [0x8], k.numerator, 1, 0, job);
    Finish(job, dAtA[..], i);
    n := end - i;
  }

  method SizeFractionalPercent(m: Option<FractionalPercent>) returns (n: int)
    requires |EncodeFractionalPercent(m)| <= MAX_INT
    ensures n == |EncodeFractionalPercent(m)|
  {
    hide EncodeRecord, EncodeRecords, EncodeFields, SizeOfVarint;
    n := 0;
    if m.None? {
      return;
    }
    var k := m.value.fields;
    ghost var job := Job([], 0, FractionalPercentLayout(k), m.value.unknownFields);
    SizedStart(job);
    n := AddVarint(n, 1, k.numerator, 1, 0, job);
    n := AddVarint(n, 1, Uint64Of(k.denominator), 2, 1, job);
    SizedEnd(job, n);
    n := n + |m.value.unknownFields|;
  }

  method MarshalSourceIp(m: Option<SourceIp>, dAtA: array<byte>, end: nat) returns (n: nat)
    requires |EncodeSourceIp(m)| <= end <= dAtA.Length <= MAX_INT
    modifies dAtA
    ensures n == |EncodeSourceIp(m)|
    ensures dAtA[..] == Splice(old(dAtA[..]), end, EncodeSourceIp(m))
  {
    hide EncodeRecord, EncodeRecords, EncodeFields, Splice, Job.From, Job.Valid;
    if m.None? {
      SpliceNothing(dAtA[..], end);
      return 0;
    }
    var k := m.value.fields;
    ghost var job := Job(dAtA[..], end, SourceIpLayout(k), m.value.unknownFields);
    JobFits(job);
    var i := PutUnknown(dAtA, end, m.value.unknownFields, job);
    Finish(job, dAtA[..], i);
    n := end - i;
  }

  method SizeSourceIp(m: Option<SourceIp>) returns (n: int)
    requires |EncodeSourceIp(m)| <= MAX_INT
    ensures n == |EncodeSourceIp(m)|
  {
    hide EncodeRecord, EncodeRecords, EncodeFields, SizeOfVarint;
    n := 0;
    if m.None? {
      return;
    }
    var k := m.value.fields;
    ghost var job := Job([], 0, SourceIpLayout(k), m.value.unknownFields);
    SizedStart(job);
    SizedEnd(job, n);
    n := n + |m.value.unknownFields|;
  }

  method MarshalHashPolicy(m: Option<HashPolicy>, dAtA: array<byte>, end: nat) returns (n: nat)
    requires |EncodeHashPolicy(m)| <= end <= dAtA.Length <= MAX_INT
    modifies dAtA
    ensures n == |EncodeHashPolicy(m)|
    ensures dAtA[..] == Splice(old(dAtA[..]), end, EncodeHashPolicy(m))
  {
    hide EncodeRecord, EncodeRecords, EncodeFields, Splice, Job.From, Job.Valid;
    if m.None? {
      SpliceNothing(dAtA[..], end);
      return 0;
    }
    var k := m.value.fields;
    ghost var job := Job(dAtA[..], end, HashPolicyLayout(k), m.value.unknownFields);
    JobFits(job);
    var i := PutUnknown(dAtA, end, m.value.unknownFields, job);
    if k.policySpecifier.SourceIpPolicy? {
      var inner := k.policySpecifier.sourceIp;
      ghost var innerBytes := EncodeSourceIp(inner);
      RoomForMessage(job, 0, 1, innerBytes, dAtA[..], i);
      if inner.Some? {
        var size := MarshalSourceIp(inner, dAtA, i);
        i := PutPrefix(dAtA, i - size, size, [0xa], 1, innerBytes, job.From(1), job);
      } else {
        SpliceNothing(dAtA[..], i);
        i := PutPrefix(dAtA, i, 0, [0xa], 1, innerBytes, job.From(1), job);
      }
    } else {
      AbsentField(job, 0);
    }
    Finish(job, dAtA[..], i);
    n := end - i;
  }

  method SizeHashPolicy(m: Option<HashPolicy>) returns (n: int)
    requires |EncodeHashPolicy(m)| <= MAX_INT
    ensures n == |EncodeHashPolicy(m)|
  {
    hide EncodeRecord, EncodeRecords, EncodeFields, SizeOfVarint;
    n := 0;
    if m.None? {
      return;
    }
    var k := m.value.fields;
    ghost var job := Job([], 0, HashPolicyLayout(k), m.value.unknownFields);
    SizedStart(job);
    if k.policySpecifier.SourceIpPolicy? {
      var inner := k.policySpecifier.sourceIp;
      ghost var innerBytes := EncodeSourceIp(inner);
      if inner.Some? {
        FieldFits(job.fields, job.unknownFields, 0);
        OptionalPayloadFits(1, innerBytes);
        var l := SizeSourceIp(inner);
        n := AddMessage(n, 1, l, 1, innerBytes, 0, job);
      } else {
        NilSourceIpSize(job, n);
        n := n + 2;
      }
    } else {
      AbsentField(job, 0);
    }
    SizedEnd(job, n);
    n := n + |m.value.unknownFields|;
  }

  /** The constant 2 of the nil branch is the size of a record with an empty payload. */
  lemma NilSourceIpSize(job: Job, n: int)
    requires |job.fields| == 1 && job.fields[0] == OptionalField(1, Some([])) && Sized(job, n, 0)
    ensures Sized(job, n + 2, 1)
  {
    hide EncodeRecord;
    job.Unfold(0);
    EncodeOne(Len(1, []));
    LenRecordSize(1, []);
  }
}
