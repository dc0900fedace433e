/**
 * The marshallers of the certificates tree: they fill the buffer backwards and return the number
 * of bytes written. Each is proved to write exactly the forward encoding and nothing else.
 */
module CertsMarshal {
  import opened GoTypes
  import opened Varint
  import opened Wire
  import opened Messages
  import opened Buffer
  import opened Certs

  method MarshalOcsp(m: Option<OcspDetails>, dAtA: array<byte>, end: nat) returns (n: nat)
    requires |EncodeOcspOrNil(m)| <= end <= dAtA.Length <= MAX_INT
    modifies dAtA
    ensures n == |EncodeOcspOrNil(m)|
    ensures dAtA[..] == Splice(old(dAtA[..]), end, EncodeOcspOrNil(m))
  {
    hide EncodeRecord, EncodeRecords, EncodeFields, Elements, RepeatedField, Splice, Job.From, Job.Valid;
    if m.None? {
      SpliceNothing(dAtA[..], end);
      return 0;
    }
    var k := m.value.fields;
    ghost var job := Job(dAtA[..], end, OcspLayout(k), m.value.unknownFields);
    JobFits(job);
    var i := PutUnknown(dAtA, end, m.value.unknownFields, job);
    i := PutOpaque(dAtA, i, [0x12], k.expiration, 2, 1, job);
    i := PutOpaque(dAtA, i, [0xa], k.validFrom, 1, 0, job);
    Finish(job, dAtA[..], i);
    n := end - i;
  }

  method SizeOcsp(m: Option<OcspDetails>) returns (n: int)
    requires |EncodeOcspOrNil(m)| <= MAX_INT
    ensures n == |EncodeOcspOrNil(m)|
  {
    hide EncodeRecord, EncodeRecords, EncodeFields, Elements, RepeatedField, SizeOfVarint;
    n := 0;
    if m.None? {
      return;
    }
    var k := m.value.fields;
    ghost var job := Job([], 0, OcspLayout(k), m.value.unknownFields);
    SizedStart(job);
    n := AddOpaque(n, 1, k.validFrom, 1, 0, job);
    n := AddOpaque(n, 1, k.expiration, 2, 1, job);
    SizedEnd(job, n);
    n := n + |m.value.unknownFields|;
  }

  /** A oneof member is written whenever it is the one that is set, empty or not. */
  method MarshalMember(dAtA: array<byte>, end: nat, key: seq<byte>, s: seq<byte>, ghost num: FieldNumber)
    returns (n: nat)
    requires |EncodeRecord(Len(num, s))| <= end <= dAtA.Length <= MAX_INT
    requires key == Key(num, LEN)
    modifies dAtA
    ensures n == |EncodeRecord(Len(num, s))|
    ensures dAtA[..] == Splice(old(dAtA[..]), end, EncodeRecord(Len(num, s)))
  {
    hide EncodeRecord, Key;
    PayloadShorter(num, s);
    ghost var job := Job(dAtA[..], end, [], []);
    job.Extend(dAtA[..], end, [], s);
    var i := CopyBytes(dAtA, end, s);
    i := PutPrefix(dAtA, i, |s|, key, num, s, [], job);
    assert EncodeRecord(Len(num, s)) + [] == EncodeRecord(Len(num, s));
    n := end - i;
  }

  lemma RoomForMember(job: Job, k: nat, r: Record, buf: seq<byte>, i: nat)
    requires job.Valid() && k < |job.fields| && job.fields[k] == [r] && job.Done(buf, i, k + 1)
    ensures |EncodeRecord(r)| <= i <= job.end
    ensures job.Done(Splice(buf, i, EncodeRecord(r)), i - |EncodeRecord(r)|, k)
  {
    hide EncodeRecord, EncodeRecords;
    job.Room(k);
    EncodeOne(r);
    job.Extend(buf, i, job.From(k + 1), EncodeRecord(r));
  }

  method MarshalSan(m: Option<SubjectAlternateName>, dAtA: array<byte>, end: nat) returns (n: nat)
    requires |EncodeSan(m)| <= end <= dAtA.Length <= MAX_INT
    modifies dAtA
    ensures n == |EncodeSan(m)|
    ensures dAtA[..] == Splice(old(dAtA[..]), end, EncodeSan(m))
  {
    hide Key, EncodeRecord, EncodeRecords, EncodeFields, Elements, RepeatedField, Splice, Job.From, Job.Valid;
    if m.None? {
      SpliceNothing(dAtA[..], end);
      return 0;
    }
    var k := m.value.fields;
    ghost var job := Job(dAtA[..], end, SanLayout(k), m.value.unknownFields);
    JobFits(job);
    var i := PutUnknown(dAtA, end, m.value.unknownFields, job);
    if k.name.IpAddress? {
      RoomForMember(job, 2, Len(3, k.name.ipAddress), dAtA[..], i);
      KeyOf(3);
      var size := MarshalMember(dAtA, i, [0x1a], k.name.ipAddress, 3);
      i := i - size;
    } else {
      AbsentField(job, 2);
    }
    if k.name.Uri? {
      RoomForMember(job, 1, Len(2, k.name.uri), dAtA[..], i);
      KeyOf(2);
      var size := MarshalMember(dAtA, i, [0x12], k.name.uri, 2);
      i := i - size;
    } else {
      AbsentField(job, 1);
    }
    if k.name.Dns? {
      RoomForMember(job, 0, Len(1, k.name.dns), dAtA[..], i);
      KeyOf(1);
      var size := MarshalMember(dAtA, i, [0xa], k.name.dns, 1);
      i := i - size;
    } else {
      AbsentField(job, 0);
    }
    Finish(job, dAtA[..], i);
    n := end - i;
  }

  lemma KeyOf(num: FieldNumber)
    requires num < 16
    ensures Key(num, LEN) == [8 * num + 2]
  {
  }

  method SizeSan(m: Option<SubjectAlternateName>) returns (n: int)
    requires |EncodeSan(m)| <= MAX_INT
    ensures n == |EncodeSan(m)|
  {
    hide EncodeRecord, EncodeRecords, EncodeFields, Elements, RepeatedField, SizeOfVarint;
    n := 0;
    if m.None? {
      return;
    }
    var k := m.value.fields;
    ghost var fs := SanLayout(k);
    match k.name {
      case Unset =>
      case Dns(s) => n := SizeMember(1, s, 1);
      case Uri(s) => n := SizeMember(1, s, 2);
      case IpAddress(s) => n := SizeMember(1, s, 3);
    }
    SanBytes(m.value);
    n := n + |m.value.unknownFields|;
  }

  method SizeMember(keySize: int, s: seq<byte>, ghost num: FieldNumber) returns (n: int)
    requires keySize == |Key(num, LEN)|
    ensures n == |EncodeRecord(Len(num, s))|
  {
    hide EncodeRecord, SizeOfVarint;
    LenRecordSize(num, s);
    var l := |s|;
    n := keySize + l + SizeOfVarint(l);
  }

  /** The member record, if any, and then the unknown bytes. */
  lemma SanBytes(m: SubjectAlternateName)
    ensures EncodeSan(Some(m)) == EncodeRecords(MemberRecords(m.fields.name)) + m.unknownFields
    ensures m.fields.name.Unset? ==> EncodeSan(Some(m)) == m.unknownFields
    ensures !m.fields.name.Unset? ==>
      |EncodeSan(Some(m))| == |EncodeRecord(MemberRecords(m.fields.name)[0])| + |m.unknownFields|
  {
    hide EncodeRecord, EncodeRecords, SanLayout;
    EncodeFieldsFlat(SanLayout(m.fields), m.unknownFields);
    OneMember(m.fields);
    EncodeNone();
    if !m.fields.name.Unset? {
      EncodeOne(MemberRecords(m.fields.name)[0]);
    } else {
      assert [] + m.unknownFields == m.unknownFields;
    }
  }

  function MemberRecords(name: Name): seq<Record> {
    match name
    case Unset => []
    case Dns(s) => [Len(1, s)]
    case Uri(s) => [Len(2, s)]
    case IpAddress(s) => [Len(3, s)]
  }

  lemma FlattenThree(f: seq<Record>, g: seq<Record>, h: seq<Record>)
    ensures Flatten([f, g, h]) == f + (g + h)
  {
    assert [f, g, h][1..] == [g, h] && [g, h][1..] == [h] && [h][1..] == [];
    assert Flatten([h]) == h + [];
  }

  /** A set oneof emits exactly one record, whatever its value; an unset one emits none. */
  lemma OneMember(k: SanFields)
    ensures Flatten(SanLayout(k)) == MemberRecords(k.name)
  {
    var fs := SanLayout(k);
    FlattenThree(fs[0], fs[1], fs[2]);
  }

  method PutOcsp(dAtA: array<byte>, end: nat, ocsp: Option<OcspDetails>, ghost job: Job) returns (i: nat)
    requires job.Valid() && job.Done(dAtA[..], end, 7) && |job.fields| > 6
    requires job.fields[6] == OptionalField(7, MapOption(EncodeOcsp, ocsp))
    modifies dAtA
    ensures job.Done(dAtA[..], i, 6)
  {
    hide EncodeRecord, Splice, EncodeOcsp;
    i := end;
    if ocsp.Some? {
      ghost var ocspBytes := EncodeOcsp(ocsp.value);
      RoomForMessage(job, 6, 7, ocspBytes, dAtA[..], i);
      var size := MarshalOcsp(ocsp, dAtA, i);
      i := PutPrefix(dAtA, i - size, size, [0x3a], 7, ocspBytes, job.From(7), job);
    } else {
      AbsentField(job, 6);
    }
  }

  lemma DetailsKeys()
    ensures Key(1, LEN) == [0xa] && Key(2, LEN) == [0x12] && Key(3, LEN) == [0x1a] && Key(4, VARINT) == [0x20]
    ensures Key(5, LEN) == [0x2a] && Key(6, LEN) == [0x32] && Key(7, LEN) == [0x3a]
  {
  }

  method MarshalDetails(m: Option<CertificateDetails>, dAtA: array<byte>, end: nat) returns (n: nat)
    requires |EncodeDetails(m)| <= end <= dAtA.Length <= MAX_INT
    modifies dAtA
    ensures n == |EncodeDetails(m)|
    ensures dAtA[..] == Splice(old(dAtA[..]), end, EncodeDetails(m))
  {
    hide EncodeRecord, EncodeRecords, EncodeFields, Elements, RepeatedField, Splice, Job.From, Job.Valid,
      DetailsLayout, StringField, VarintField, Map, Key, EncodeOcsp, EncodeSan, Inserted;
    if m.None? {
      SpliceNothing(dAtA[..], end);
      return 0;
    }
    var k := m.value.fields;
    DetailsLayoutAt(k);
    DetailsKeys();
    ghost var subjectAltNamesBytes := Map(EncodeSan, k.subjectAltNames);
    var iNdEx;
    ghost var job := Job(dAtA[..], end, DetailsLayout(k), m.value.unknownFields);
    JobFits(job);
    var i := PutUnknown(dAtA, end, m.value.unknownFields, job);
    i := PutOcsp(dAtA, i, k.ocspDetails, job);
    i := PutOpaque(dAtA, i, [0x32], k.expirationTime, 6, 5, job);
    i := PutOpaque(dAtA, i, [0x2a], k.validFrom, 5, 4, job);
    i := PutVarint(dAtA, i, [0x20], k.daysUntilExpiration, 4, 3, job);
    ElementsEnds(job, 2, 3, subjectAltNamesBytes);
    iNdEx := |k.subjectAltNames| - 1;
    while iNdEx >= 0
      invariant -1 <= iNdEx < |k.subjectAltNames|
      invariant job.Holds(dAtA[..], i, Elements(job, 2, 3, subjectAltNamesBytes, iNdEx + 1))
    {
      RoomForElement(job, 2, 3, subjectAltNamesBytes, iNdEx, dAtA[..], i);
      var size := MarshalSan(k.subjectAltNames[iNdEx], dAtA, i);
      i := PutPrefix(dAtA, i - size, size, [0x1a], 3, subjectAltNamesBytes[iNdEx],
                     Elements(job, 2, 3, subjectAltNamesBytes, iNdEx + 1), job);
      iNdEx := iNdEx - 1;
    }
    i := PutString(dAtA, i, [0x12], k.serialNumber, 2, 1, job);
    i := PutString(dAtA, i, [0xa], k.path, 1, 0, job);
    Finish(job, dAtA[..], i);
    n := end - i;
  }

  method SizeDetails(m: Option<CertificateDetails>) returns (n: int)
    requires |EncodeDetails(m)| <= MAX_INT
    ensures n == |EncodeDetails(m)|
  {
    hide EncodeRecord, EncodeRecords, EncodeFields, Elements, RepeatedField, SizeOfVarint;
    n := 0;
    if m.None? {
      return;
    }
    var k := m.value.fields;
    ghost var subjectAltNamesBytes := Map(EncodeSan, k.subjectAltNames);
    ghost var job := Job([], 0, DetailsLayout(k), m.value.unknownFields);
    SizedStart(job);
    FieldFits(job.fields, job.unknownFields, 2);
    n := AddString(n, 1, k.path, 1, 0, job);
    n := AddString(n, 1, k.serialNumber, 2, 1, job);
    ElementsEnds(job, 2, 3, subjectAltNamesBytes);
    for j := 0 to |k.subjectAltNames|
      invariant SizedElements(job, n, 2, 3, subjectAltNamesBytes, j)
    {
      SizedElement(job, n, 2, 3, subjectAltNamesBytes, j);
      RepeatedPayloadFits(3, subjectAltNamesBytes, j);
      var l := SizeSan(k.subjectAltNames[j]);
      n := n + 1 + l + SizeOfVarint(l);
    }
    n := AddVarint(n, 1, k.daysUntilExpiration, 4, 3, job);
    n := AddOpaque(n, 1, k.validFrom, 5, 4, job);
    n := AddOpaque(n, 1, k.expirationTime, 6, 5, job);
    if k.ocspDetails.Some? {
      ghost var ocspBytes := EncodeOcsp(k.ocspDetails.value);
      FieldFits(job.fields, job.unknownFields, 6);
      OptionalPayloadFits(7, ocspBytes);
      var l := SizeOcsp(k.ocspDetails);
      n := AddMessage(n, 1, l, 7, ocspBytes, 6, job);
    } else {
      AbsentField(job, 6);
    }
    SizedEnd(job, n);
    n := n + |m.value.unknownFields|;
  }

  method MarshalCertificate(m: Option<Certificate>, dAtA: array<byte>, end: nat) returns (n: nat)
    requires |EncodeCertificate(m)| <= end <= dAtA.Length <= MAX_INT
    modifies dAtA
    ensures n == |EncodeCertificate(m)|
    ensures dAtA[..] == Splice(old(dAtA[..]), end, EncodeCertificate(m))
  {
    hide EncodeRecord, EncodeRecords, EncodeFields, Elements, RepeatedField, Splice, Job.From, Job.Valid;
    if m.None? {
      SpliceNothing(dAtA[..], end);
      return 0;
    }
    var k := m.value.fields;
    ghost var caCertBytes, certChainBytes := Map(EncodeDetails, k.caCert), Map(EncodeDetails, k.certChain);
    var iNdEx;
    ghost var job := Job(dAtA[..], end, CertificateLayout(k), m.value.unknownFields);
    JobFits(job);
    var i := PutUnknown(dAtA, end, m.value.unknownFields, job);
    ElementsEnds(job, 1, 2, certChainBytes);
    iNdEx := |k.certChain| - 1;
    while iNdEx >= 0
      invariant -1 <= iNdEx < |k.certChain|
      invariant job.Holds(dAtA[..], i, Elements(job, 1, 2, certChainBytes, iNdEx + 1))
    {
      RoomForElement(job, 1, 2, certChainBytes, iNdEx, dAtA[..], i);
      var size := MarshalDetails(k.certChain[iNdEx], dAtA, i);
      i := PutPrefix(dAtA, i - size, size, [0x12], 2, certChainBytes[iNdEx],
                     Elements(job, 1, 2, certChainBytes, iNdEx + 1), job);
      iNdEx := iNdEx - 1;
    }
    ElementsEnds(job, 0, 1, caCertBytes);
    iNdEx := |k.caCert| - 1;
    while iNdEx >= 0
      invariant -1 <= iNdEx < |k.caCert|
      invariant job.Holds(dAtA[..], i, Elements(job, 0, 1, caCertBytes, iNdEx + 1))
    {
      RoomForElement(job, 0, 1, caCertBytes, iNdEx, dAtA[..], i);
      var size := MarshalDetails(k.caCert[iNdEx], dAtA, i);
      i := PutPrefix(dAtA, i - size, size, [0xa], 1, caCertBytes[iNdEx],
                     Elements(job, 0, 1, caCertBytes, iNdEx + 1), job);
      iNdEx := iNdEx - 1;
    }
    Finish(job, dAtA[..], i);
    n := end - i;
  }

  method SizeCertificate(m: Option<Certificate>) returns (n: int)
    requires |EncodeCertificate(m)| <= MAX_INT
    ensures n == |EncodeCertificate(m)|
  {
    hide EncodeRecord, EncodeRecords, EncodeFields, Elements, RepeatedField, SizeOfVarint;
    n := 0;
    if m.None? {
      return;
    }
    var k := m.value.fields;
    ghost var caCertBytes, certChainBytes := Map(EncodeDetails, k.caCert), Map(EncodeDetails, k.certChain);
    ghost var job := Job([], 0, CertificateLayout(k), m.value.unknownFields);
    SizedStart(job);
    FieldFits(job.fields, job.unknownFields, 0);
    FieldFits(job.fields, job.unknownFields, 1);
    ElementsEnds(job, 0, 1, caCertBytes);
    for j := 0 to |k.caCert|
      invariant SizedElements(job, n, 0, 1, caCertBytes, j)
    {
      SizedElement(job, n, 0, 1, caCertBytes, j);
      RepeatedPayloadFits(1, caCertBytes, j);
      var l := SizeDetails(k.caCert[j]);
      n := n + 1 + l + SizeOfVarint(l);
    }
    ElementsEnds(job, 1, 2, certChainBytes);
    for j := 0 to |k.certChain|
      invariant SizedElements(job, n, 1, 2, certChainBytes, j)
    {
      SizedElement(job, n, 1, 2, certChainBytes, j);
      RepeatedPayloadFits(2, certChainBytes, j);
      var l := SizeDetails(k.certChain[j]);
      n := n + 1 + l + SizeOfVarint(l);
    }
    SizedEnd(job, n);
    n := n + |m.value.unknownFields|;
  }

  method MarshalCertificates(m: Option<Certificates>, dAtA: array<byte>, end: nat) returns (n: nat)
    requires |EncodeCertificates(m)| <= end <= dAtA.Length <= MAX_INT
    modifies dAtA
    ensures n == |EncodeCertificates(m)|
    ensures dAtA[..] == Splice(old(dAtA[..]), end, EncodeCertificates(m))
  {
    hide EncodeRecord, EncodeRecords, EncodeFields, Elements, RepeatedField, Splice, Job.From, Job.Valid;
    if m.None? {
      SpliceNothing(dAtA[..], end);
      return 0;
    }
    var k := m.value.fields;
    ghost var certificatesBytes := Map(EncodeCertificate, k.certificates);
    var iNdEx;
    ghost var job := Job(dAtA[..], end, CertificatesLayout(k), m.value.unknownFields);
    JobFits(job);
    var i := PutUnknown(dAtA, end, m.value.unknownFields, job);
    ElementsEnds(job, 0, 1, certificatesBytes);
    iNdEx := |k.certificates| - 1;
    while iNdEx >= 0
      invariant -1 <= iNdEx < |k.certificates|
      invariant job.Holds(dAtA[..], i, Elements(job, 0, 1, certificatesBytes, iNdEx + 1))
    {
      RoomForElement(job, 0, 1, certificatesBytes, iNdEx, dAtA[..], i);
      var size := MarshalCertificate(k.certificates[iNdEx], dAtA, i);
      i := PutPrefix(dAtA, i - size, size, [0xa], 1, certificatesBytes[iNdEx],
                     Elements(job, 0, 1, certificatesBytes, iNdEx + 1), job);
      iNdEx := iNdEx - 1;
    }
    Finish(job, dAtA[..], i);
    n := end - i;
  }

  method SizeCertificates(m: Option<Certificates>) returns (n: int)
    requires |EncodeCertificates(m)| <= MAX_INT
    ensures n == |EncodeCertificates(m)|
  {
    hide EncodeRecord, EncodeRecords, EncodeFields, Elements, RepeatedField, SizeOfVarint;
    n := 0;
    if m.None? {
      return;
    }
    var k := m.value.fields;
    ghost var certificatesBytes := Map(EncodeCertificate, k.certificates);
    ghost var job := Job([], 0, CertificatesLayout(k), m.value.unknownFields);
    SizedStart(job);
    FieldFits(job.fields, job.unknownFields, 0);
    ElementsEnds(job, 0, 1, certificatesBytes);
    for j := 0 to |k.certificates|
      invariant SizedElements(job, n, 0, 1, certificatesBytes, j)
    {
      SizedElement(job, n, 0, 1, certificatesBytes, j);
      RepeatedPayloadFits(1, certificatesBytes, j);
      var l := SizeCertificate(k.certificates[j]);
      n := n + 1 + l + SizeOfVarint(l);
    }
    SizedEnd(job, n);
    n := n + |m.value.unknownFields|;
  }

  /** MarshalVTStrict: a buffer of exactly SizeVT bytes, of which the first n are returned. */
  method MarshalVTStrict(m: Option<Certificates>) returns (bs: seq<byte>)
    requires |EncodeCertificates(m)| <= MAX_INT
    ensures bs == EncodeCertificates(m)
  {
    hide EncodeCertificates;
    if m.None? {
      assert EncodeCertificates(m) == [] by { NilCertificates(); }
      return [];
    }
    var size := SizeCertificates(m);
    var dAtA := new byte[size](_ => 0);
    var n := MarshalCertificates(m, dAtA, size);
    return dAtA[..n];
  }

  lemma NilCertificates()
    ensures EncodeCertificates(None) == []
  {
  }

  /** MarshalToVTStrict: in a larger buffer the encoding takes the first bytes, and the rest stays. */
  method MarshalToVTStrict(m: Option<Certificates>, dAtA: array<byte>) returns (n: nat)
    requires |EncodeCertificates(m)| <= dAtA.Length <= MAX_INT
    modifies dAtA
    ensures n == |EncodeCertificates(m)|
    ensures dAtA[..] == EncodeCertificates(m) + old(dAtA[n..])
  {
    hide EncodeCertificates;
    var size := SizeCertificates(m);
    n := MarshalCertificates(m, dAtA, size);
  }
}
