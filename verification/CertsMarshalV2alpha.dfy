/**
 * The v2alpha marshallers of the certificates tree: those of v3 without the block of ocsp_details.
 * SubjectAlternateName is the same in both. A v2alpha message is one whose ocsp_details is nil, at
 * every level.
 */
module CertsMarshalV2alpha {
  import opened GoTypes
  import opened Varint
  import opened Wire
  import opened Messages
  import opened Buffer
  import opened Certs
  import CertsMarshal

  ghost predicate OlderDetails(m: Option<CertificateDetails>) {
    m.Some? ==> m.value.fields.ocspDetails.None?
  }

  ghost predicate OlderCertificate(m: Option<Certificate>) {
    m.Some? ==>
      && (forall x <- m.value.fields.caCert :: OlderDetails(x))
      && (forall x <- m.value.fields.certChain :: OlderDetails(x))
  }

  ghost predicate OlderCertificates(m: Option<Certificates>) {
    m.Some? ==> forall x <- m.value.fields.certificates :: OlderCertificate(x)
  }

  method MarshalDetails(m: Option<CertificateDetails>, dAtA: array<byte>, end: nat) returns (n: nat)
    requires OlderDetails(m)
    requires |EncodeDetails(m)| <= end <= dAtA.Length <= MAX_INT
    modifies dAtA
    ensures n == |EncodeDetails(m)|
    ensures dAtA[..] == Splice(old(dAtA[..]), end, EncodeDetails(m))
  {
    hide EncodeRecord, EncodeRecords, EncodeFields, Elements, RepeatedField, Splice, Job.From, Job.Valid,
      DetailsLayout, StringField, VarintField, Inserted;
    if m.None? {
      SpliceNothing(dAtA[..], end);
      return 0;
    }
    var k := m.value.fields;
    DetailsLayoutAt(k);
    ghost var subjectAltNamesBytes := Map(EncodeSan, k.subjectAltNames);
    var iNdEx;
    ghost var job := Job(dAtA[..], end, DetailsLayout(k), m.value.unknownFields);
    JobFits(job);
    var i := PutUnknown(dAtA, end, m.value.unknownFields, job);
    AbsentField(job, 6);
    i := PutOpaque(dAtA, i, [0x32], k.expirationTime, 6, 5, job);
    i := PutOpaque(dAtA, i, [0x2a], k.validFrom, 5, 4, job);
    i := PutVarint(dAtA, i, [0x20], k.daysUntilExpiration, 4, 3, job);
    ElementsEnds(job, 2, 3, subjectAltNamesBytes);
    iNdEx := |k.subjectAltNames| - 1;
    while iNdEx >= 0
      invariant -1 <= iNdEx < |k.subjectAltNames|
      invariant job.Holds(dAtA[..], i, Elements(job, 2, 3, subjectAltNamesBytes, iNdEx + 1))
    {
      RoomForElement(job, 2, 3, subjectAltNamesBytes, iNdEx, dAtA[..], i);
      var size := CertsMarshal.MarshalSan(k.subjectAltNames[iNdEx], dAtA, i);
      i := PutPrefix(dAtA, i - size, size, [0x1a], 3, subjectAltNamesBytes[iNdEx],
                     Elements(job, 2, 3, subjectAltNamesBytes, iNdEx + 1), job);
      iNdEx := iNdEx - 1;
    }
    i := PutString(dAtA, i, [0x12], k.serialNumber, 2, 1, job);
    i := PutString(dAtA, i, [0xa], k.path, 1, 0, job);
    Finish(job, dAtA[..], i);
    n := end - i;
  }

  method SizeDetails(m: Option<CertificateDetails>) returns (n: int)
    requires OlderDetails(m)
    requires |EncodeDetails(m)| <= MAX_INT
    ensures n == |EncodeDetails(m)|
  {
    hide EncodeRecord, EncodeRecords, EncodeFields, Elements, RepeatedField, SizeOfVarint;
    n := 0;
    if m.None? {
      return;
    }
    var k := m.value.fields;
    ghost var subjectAltNamesBytes := Map(EncodeSan, k.subjectAltNames);
    ghost var job := Job([], 0, DetailsLayout(k), m.value.unknownFields);
    SizedStart(job);
    FieldFits(job.fields, job.unknownFields, 2);
    n := AddString(n, 1, k.path, 1, 0, job);
    n := AddString(n, 1, k.serialNumber, 2, 1, job);
    ElementsEnds(job, 2, 3, subjectAltNamesBytes);
    for j := 0 to |k.subjectAltNames|
      invariant SizedElements(job, n, 2, 3, subjectAltNamesBytes, j)
    {
      SizedElement(job, n, 2, 3, subjectAltNamesBytes, j);
      RepeatedPayloadFits(3, subjectAltNamesBytes, j);
      var l := CertsMarshal.SizeSan(k.subjectAltNames[j]);
      n := n + 1 + l + SizeOfVarint(l);
    }
    n := AddVarint(n, 1, k.daysUntilExpiration, 4, 3, job);
    n := AddOpaque(n, 1, k.validFrom, 5, 4, job);
    n := AddOpaque(n, 1, k.expirationTime, 6, 5, job);
    AbsentField(job, 6);
    SizedEnd(job, n);
    n := n + |m.value.unknownFields|;
  }

  method MarshalCertificate(m: Option<Certificate>, dAtA: array<byte>, end: nat) returns (n: nat)
    requires OlderCertificate(m)
    requires |EncodeCertificate(m)| <= end <= dAtA.Length <= MAX_INT
    modifies dAtA
    ensures n == |EncodeCertificate(m)|
    ensures dAtA[..] == Splice(old(dAtA[..]), end, EncodeCertificate(m))
  {
    hide EncodeRecord, EncodeRecords, EncodeFields, Elements, RepeatedField, Splice, Job.From, Job.Valid;
    if m.None? {
      SpliceNothing(dAtA[..], end);
      return 0;
    }
    var k := m.value.fields;
    ghost var caCertBytes, certChainBytes := Map(EncodeDetails, k.caCert), Map(EncodeDetails, k.certChain);
    var iNdEx;
    ghost var job := Job(dAtA[..], end, CertificateLayout(k), m.value.unknownFields);
    JobFits(job);
    var i := PutUnknown(dAtA, end, m.value.unknownFields, job);
    ElementsEnds(job, 1, 2, certChainBytes);
    iNdEx := |k.certChain| - 1;
    while iNdEx >= 0
      invariant -1 <= iNdEx < |k.certChain|
      invariant job.Holds(dAtA[..], i, Elements(job, 1, 2, certChainBytes, iNdEx + 1))
    {
      RoomForElement(job, 1, 2, certChainBytes, iNdEx, dAtA[..], i);
      var size := MarshalDetails(k.certChain[iNdEx], dAtA, i);
      i := PutPrefix(dAtA, i - size, size, [0x12], 2, certChainBytes[iNdEx],
                     Elements(job, 1, 2, certChainBytes, iNdEx + 1), job);
      iNdEx := iNdEx - 1;
    }
    ElementsEnds(job, 0, 1, caCertBytes);
    iNdEx := |k.caCert| - 1;
    while iNdEx >= 0
      invariant -1 <= iNdEx < |k.caCert|
      invariant job.Holds(dAtA[..], i, Elements(job, 0, 1, caCertBytes, iNdEx + 1))
    {
      RoomForElement(job, 0, 1, caCertBytes, iNdEx, dAtA[..], i);
      var size := MarshalDetails(k.caCert[iNdEx], dAtA, i);
      i := PutPrefix(dAtA, i - size, size, [0xa], 1, caCertBytes[iNdEx],
                     Elements(job, 0, 1, caCertBytes, iNdEx + 1), job);
      iNdEx := iNdEx - 1;
    }
    Finish(job, dAtA[..], i);
    n := end - i;
  }

  method SizeCertificate(m: Option<Certificate>) returns (n: int)
    requires OlderCertificate(m)
    requires |EncodeCertificate(m)| <= MAX_INT
    ensures n == |EncodeCertificate(m)|
  {
    hide EncodeRecord, EncodeRecords, EncodeFields, Elements, RepeatedField, SizeOfVarint;
    n := 0;
    if m.None? {
      return;
    }
    var k := m.value.fields;
    ghost var caCertBytes, certChainBytes := Map(EncodeDetails, k.caCert), Map(EncodeDetails, k.certChain);
    ghost var job := Job([], 0, CertificateLayout(k), m.value.unknownFields);
    SizedStart(job);
    FieldFits(job.fields, job.unknownFields, 0);
    FieldFits(job.fields, job.unknownFields, 1);
    ElementsEnds(job, 0, 1, caCertBytes);
    for j := 0 to |k.caCert|
      invariant SizedElements(job, n, 0, 1, caCertBytes, j)
    {
      SizedElement(job, n, 0, 1, caCertBytes, j);
      RepeatedPayloadFits(1, caCertBytes, j);
      var l := SizeDetails(k.caCert[j]);
      n := n + 1 + l + SizeOfVarint(l);
    }
    ElementsEnds(job, 1, 2, certChainBytes);
    for j := 0 to |k.certChain|
      invariant SizedElements(job, n, 1, 2, certChainBytes, j)
    {
      SizedElement(job, n, 1, 2, certChainBytes, j);
      RepeatedPayloadFits(2, certChainBytes, j);
      var l := SizeDetails(k.certChain[j]);
      n := n + 1 + l + SizeOfVarint(l);
    }
    SizedEnd(job, n);
    n := n + |m.value.unknownFields|;
  }

  method MarshalCertificates(m: Option<Certificates>, dAtA: array<byte>, end: nat) returns (n: nat)
    requires OlderCertificates(m)
    requires |EncodeCertificates(m)| <= end <= dAtA.Length <= MAX_INT
    modifies dAtA
    ensures n == |EncodeCertificates(m)|
    ensures dAtA[..] == Splice(old(dAtA[..]), end, EncodeCertificates(m))
  {
    hide EncodeRecord, EncodeRecords, EncodeFields, Elements, RepeatedField, Splice, Job.From, Job.Valid;
    if m.None? {
      SpliceNothing(dAtA[..], end);
      return 0;
    }
    var k := m.value.fields;
    ghost var certificatesBytes := Map(EncodeCertificate, k.certificates);
    var iNdEx;
    ghost var job := Job(dAtA[..], end, CertificatesLayout(k), m.value.unknownFields);
    JobFits(job);
    var i := PutUnknown(dAtA, end, m.value.unknownFields, job);
    ElementsEnds(job, 0, 1, certificatesBytes);
    iNdEx := |k.certificates| - 1;
    while iNdEx >= 0
      invariant -1 <= iNdEx < |k.certificates|
      invariant job.Holds(dAtA[..], i, Elements(job, 0, 1, certificatesBytes, iNdEx + 1))
    {
      RoomForElement(job, 0, 1, certificatesBytes, iNdEx, dAtA[..], i);
      var size := MarshalCertificate(k.certificates[iNdEx], dAtA, i);
      i := PutPrefix(dAtA, i - size, size, [0xa], 1, certificatesBytes[iNdEx],
                     Elements(job, 0, 1, certificatesBytes, iNdEx + 1), job);
      iNdEx := iNdEx - 1;
    }
    Finish(job, dAtA[..], i);
    n := end - i;
  }

  method SizeCertificates(m: Option<Certificates>) returns (n: int)
    requires OlderCertificates(m)
    requires |EncodeCertificates(m)| <= MAX_INT
    ensures n == |EncodeCertificates(m)|
  {
    hide EncodeRecord, EncodeRecords, EncodeFields, Elements, RepeatedField, SizeOfVarint;
    n := 0;
    if m.None? {
      return;
    }
    var k := m.value.fields;
    ghost var certificatesBytes := Map(EncodeCertificate, k.certificates);
    ghost var job := Job([], 0, CertificatesLayout(k), m.value.unknownFields);
    SizedStart(job);
    FieldFits(job.fields, job.unknownFields, 0);
    ElementsEnds(job, 0, 1, certificatesBytes);
    for j := 0 to |k.certificates|
      invariant SizedElements(job, n, 0, 1, certificatesBytes, j)
    {
      SizedElement(job, n, 0, 1, certificatesBytes, j);
      RepeatedPayloadFits(1, certificatesBytes, j);
      var l := SizeCertificate(k.certificates[j]);
      n := n + 1 + l + SizeOfVarint(l);
    }
    SizedEnd(job, n);
    n := n + |m.value.unknownFields|;
  }

  method MarshalVTStrict(m: Option<Certificates>) returns (bs: seq<byte>)
    requires OlderCertificates(m)
    requires |EncodeCertificates(m)| <= MAX_INT
    ensures bs == EncodeCertificates(m)
  {
    hide EncodeCertificates;
    if m.None? {
      CertsMarshal.NilCertificates();
      return [];
    }
    var size := SizeCertificates(m);
    var dAtA := new byte[size](_ => 0);
    var n := MarshalCertificates(m, dAtA, size);
    return dAtA[..n];
  }

  /** What the older decoder produces is what the older marshallers take. */
  lemma OkIsOlder(m: Option<Certificates>)
    requires CertificatesOk(V2alpha, m)
    ensures OlderCertificates(m)
  {
    hide UnknownTo;
  }
}
