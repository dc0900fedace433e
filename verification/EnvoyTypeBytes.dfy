/** Ranges, percents and hash policy as bytes: every field under its literal key, in the order of the output. */
module EnvoyTypeBytes {
  import opened GoTypes
  import opened Wire
  import opened Messages
  import opened EnvoyType
  import opened FieldBytes

  lemma Int64RangeInBytes(m: Int64Range)
    ensures
      var k := m.fields;
      EncodeInt64Range(Some(m)) ==
        NumberBytes([0x8], Uint64Of(k.start)) + NumberBytes([0x10], Uint64Of(k.end)) + m.unknownFields
    ensures NumbersSorted(Flatten(Int64RangeLayout(m.fields)))
  {
    hide Key, NumberBytes, VarintField, EncodeRecords, EncodeFields, Flatten, Numbered, Join;
    var k := m.fields;
    OneByteKeys();
    NumberEmits(1, [0x8], Uint64Of(k.start));
    NumberEmits(2, [0x10], Uint64Of(k.end));
    var chunks := Chunks(Int64RangeLayout(k), m.unknownFields);
    assert chunks == [NumberBytes([0x8], Uint64Of(k.start)), NumberBytes([0x10], Uint64Of(k.end))];
    JoinTwo(NumberBytes([0x8], Uint64Of(k.start)), NumberBytes([0x10], Uint64Of(k.end)));
  }

  lemma Int32RangeInBytes(m: Int32Range)
    ensures
      var k := m.fields;
      EncodeInt32Range(Some(m)) ==
        NumberBytes([0x8], Uint64Of(k.start)) + NumberBytes([0x10], Uint64Of(k.end)) + m.unknownFields
    ensures NumbersSorted(Flatten(Int32RangeLayout(m.fields)))
  {
    hide Key, NumberBytes, VarintField, EncodeRecords, EncodeFields, Flatten, Numbered, Join;
    var k := m.fields;
    OneByteKeys();
    NumberEmits(1, [0x8], Uint64Of(k.start));
    NumberEmits(2, [0x10], Uint64Of(k.end));
    var chunks := Chunks(Int32RangeLayout(k), m.unknownFields);
    assert chunks == [NumberBytes([0x8], Uint64Of(k.start)), NumberBytes([0x10], Uint64Of(k.end))];
    JoinTwo(NumberBytes([0x8], Uint64Of(k.start)), NumberBytes([0x10], Uint64Of(k.end)));
  }

  lemma DoubleRangeInBytes(m: DoubleRange)
    ensures
      var k := m.fields;
      EncodeDoubleRange(Some(m)) ==
        DoubleBytes([0x9], k.start) + DoubleBytes([0x11], k.end) + m.unknownFields
    ensures NumbersSorted(Flatten(DoubleRangeLayout(m.fields)))
  {
    hide Key, DoubleBytes, DoubleField, EncodeRecords, EncodeFields, Flatten, Numbered, Join;
    var k := m.fields;
    OneByteKeys();
    DoubleEmits(1, [0x9], k.start);
    DoubleEmits(2, [0x11], k.end);
    var chunks := Chunks(DoubleRangeLayout(k), m.unknownFields);
    assert chunks == [DoubleBytes([0x9], k.start), DoubleBytes([0x11], k.end)];
    JoinTwo(DoubleBytes([0x9], k.start), DoubleBytes([0x11], k.end));
  }

  lemma PercentInBytes(m: Percent)
    ensures
      var k := m.fields;
      EncodePercent(Some(m)) ==
        DoubleBytes([0x9], k.value) + m.unknownFields
    ensures NumbersSorted(Flatten(PercentLayout(m.fields)))
  {
    hide Key, DoubleBytes, DoubleField, EncodeRecords, EncodeFields, Flatten, Numbered, Join;
    var k := m.fields;
    OneByteKeys();
    DoubleEmits(1, [0x9], k.value);
    var chunks := Chunks(PercentLayout(k), m.unknownFields);
    assert chunks == [DoubleBytes([0x9], k.value)];
    JoinOne(DoubleBytes([0x9], k.value));
  }

  lemma FractionalPercentInBytes(m: FractionalPercent)
    ensures
      var k := m.fields;
      EncodeFractionalPercent(Some(m)) ==
        NumberBytes([0x8], k.numerator) + NumberBytes([0x10], Uint64Of(k.denominator)) + m.unknownFields
    ensures NumbersSorted(Flatten(FractionalPercentLayout(m.fields)))
  {
    hide Key, NumberBytes, VarintField, EncodeRecords, EncodeFields, Flatten, Numbered, Join;
    var k := m.fields;
    OneByteKeys();
    NumberEmits(1, [0x8], k.numerator);
    NumberEmits(2, [0x10], Uint64Of(k.denominator));
    var chunks := Chunks(FractionalPercentLayout(k), m.unknownFields);
    assert chunks == [NumberBytes([0x8], k.numerator), NumberBytes([0x10], Uint64Of(k.denominator))];
    JoinTwo(NumberBytes([0x8], k.numerator), NumberBytes([0x10], Uint64Of(k.denominator)));
  }

  /** The member's key and length come even when the wrapper holds nil. */
  lemma HashPolicyInBytes(m: HashPolicy)
    ensures
      var member := match m.fields.policySpecifier
        case NoPolicy => []
        case SourceIpPolicy(None) => [0xa, 0]
        case SourceIpPolicy(Some(inner)) => Prefixed([0xa], inner.unknownFields);
      EncodeHashPolicy(Some(m)) == member + m.unknownFields
    ensures NumbersSorted(Flatten(HashPolicyLayout(m.fields)))
  {
    hide Key, OptionalField, EncodeRecords, EncodeFields, Flatten, Numbered, Join;
    var p := m.fields.policySpecifier;
    var payload := if p.SourceIpPolicy? then Some(EncodeSourceIp(p.sourceIp)) else None;
    OneByteKeys();
    MessageEmits(1, [0xa], payload);
    var chunks := Chunks(HashPolicyLayout(m.fields), m.unknownFields);
    assert chunks == [MessageBytes([0xa], payload)];
    JoinOne(MessageBytes([0xa], payload));
    SourceIpInBytes(p);
  }

  lemma SourceIpInBytes(p: PolicySpecifier)
    ensures p.SourceIpPolicy? ==>
      EncodeSourceIp(p.sourceIp) == if p.sourceIp.None? then [] else p.sourceIp.value.unknownFields
  {
  }
}
