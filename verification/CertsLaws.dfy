/** Round trip and concatenation laws of the certificates tree. */
module CertsLaws {
  import opened GoTypes
  import opened Wire
  import opened Messages
  import opened Certs

  lemma OcspDecodes(acc: OcspDetails, m: OcspDetails)
    requires OcspOk(Some(m)) && |EncodeOcsp(m)| <= MAX_INT
    ensures DecodeInto(OcspStep, acc, EncodeOcsp(m)) == Some(MergeMsg(MergeOcsp, acc, m))
  {
    hide EncodeFields, UnknownTo, DecodeInto, Flatten, Absorb;
    var fs := OcspLayout(m.fields);
    var k0 := acc.fields;
    var k1 := k0.(validFrom := MergeOpaque(k0.validFrom, m.fields.validFrom));
    var k2 := k1.(expiration := MergeOpaque(k1.expiration, m.fields.expiration));
    AbsorbFields(OcspStep, fs, [k0, k1, k2]);
    DecodeEncoded(OcspStep, acc, fs, m.unknownFields, k2);
  }

  lemma SanDecodes(acc: SubjectAlternateName, m: Option<SubjectAlternateName>)
    requires SanOk(m) && |EncodeSan(m)| <= MAX_INT
    ensures DecodeInto(SanStep, acc, EncodeSan(m)) ==
            Some(MergeMsg(MergeSan, acc, m.GetOr(Msg(NO_SAN, []))))
  {
    if m.None? {
      DecodeNothing(SanStep, acc);
      assert MergeMsg(MergeSan, acc, Msg(NO_SAN, [])) == acc;
    } else {
      hide EncodeFields, UnknownTo, DecodeInto, Flatten, Absorb;
      var fs := SanLayout(m.value.fields);
      var k0, name := acc.fields, m.value.fields.name;
      var k1 := if name.Dns? then SanFields(name) else k0;
      var k2 := if name.Uri? then SanFields(name) else k1;
      var k3 := if name.IpAddress? then SanFields(name) else k2;
      AbsorbFields(SanStep, fs, [k0, k1, k2, k3]);
      DecodeEncoded(SanStep, acc, fs, m.value.unknownFields, k3);
    }
  }

  lemma AbsorbSans(s: Schema, k: DetailsFields, xs: seq<Option<SubjectAlternateName>>)
    requires forall x <- xs :: SanOk(x)
    requires |EncodeRecords(RepeatedField(3, Map(EncodeSan, xs)))| <= MAX_INT
    ensures Absorb(DetailsDecoder(s), k, RepeatedField(3, Map(EncodeSan, xs))) ==
            Some(k.(subjectAltNames := k.subjectAltNames + Map(NormaliseSan, xs)))
  {
    hide EncodeRecords, SanOk, EncodeSan, NormaliseSan, DecodeInto, RepeatedField, Absorb;
    var put := (ys: seq<Option<SubjectAlternateName>>) => k.(subjectAltNames := ys);
    forall x, ys | x in xs
      ensures DetailsDecoder(s)(put(ys), Len(3, EncodeSan(x))) == Updated(put(ys + [NormaliseSan(x)]))
    {
      var i :| 0 <= i < |xs| && xs[i] == x;
      RepeatedPayloadFits(3, Map(EncodeSan, xs), i);
      SanElement(x);
    }
    AbsorbRepeated(DetailsDecoder(s), put, k.subjectAltNames, 3, xs, EncodeSan, NormaliseSan);
  }

  lemma SanElement(x: Option<SubjectAlternateName>)
    requires SanOk(x) && |EncodeSan(x)| <= MAX_INT
    ensures NormaliseSan(x).Some? && DecodeInto(SanStep, Msg(NO_SAN, []), EncodeSan(x)) == NormaliseSan(x)
  {
    SanDecodes(Msg(NO_SAN, []), x);
    var d := x.GetOr(Msg(NO_SAN, []));
    assert [] + d.unknownFields == d.unknownFields;
  }

  lemma DetailsDecodes(s: Schema, acc: CertificateDetails, m: Option<CertificateDetails>)
    requires DetailsOk(s, m) && |EncodeDetails(m)| <= MAX_INT
    ensures DecodeInto(DetailsDecoder(s), acc, EncodeDetails(m)) ==
            Some(MergeMsg(MergeDetails, acc, m.GetOr(Msg(NO_DETAILS, []))))
  {
    hide EncodeRecords, EncodeFields, UnknownTo, DecodeInto, Flatten, Absorb, DetailsDecoder, MergeDetails,
      DetailsLayout, NoGroups;
    if m.None? {
      DecodeNothing(DetailsDecoder(s), acc);
      MergeDetailsWithNone(acc.fields);
    } else {
      var b := m.value.fields;
      DetailsAbsorbs(s, acc.fields, m.value);
      DetailsNoGroups(b);
      DecodeEncoded(DetailsDecoder(s), acc, DetailsLayout(b), m.value.unknownFields, MergeDetails(acc.fields, b));
    }
  }

  lemma DetailsNoGroups(k: DetailsFields)
    ensures NoGroups(DetailsLayout(k))
  {
    hide RepeatedField;
    RepeatedNoGroups(3, Map(EncodeSan, k.subjectAltNames));
  }

  lemma MergeDetailsWithNone(k: DetailsFields)
    ensures MergeDetails(k, NO_DETAILS) == k
  {
    assert k.subjectAltNames + [] == k.subjectAltNames;
  }

  /** a after the first i fields of b have been merged into it. */
  function DetailsState(a: DetailsFields, b: DetailsFields, i: nat): DetailsFields {
    var c := MergeDetails(a, b);
    DetailsFields(
      if i > 0 then c.path else a.path,
      if i > 1 then c.serialNumber else a.serialNumber,
      if i > 2 then c.subjectAltNames else a.subjectAltNames,
      if i > 3 then c.daysUntilExpiration else a.daysUntilExpiration,
      if i > 4 then c.validFrom else a.validFrom,
      if i > 5 then c.expirationTime else a.expirationTime,
      if i > 6 then c.ocspDetails else a.ocspDetails)
  }

  lemma DetailsFields1(s: Schema, a: DetailsFields, m: CertificateDetails)
    requires DetailsOk(s, Some(m)) && |EncodeDetails(Some(m))| <= MAX_INT
    ensures Advances(DetailsDecoder(s), DetailsState(a, m.fields, 0), DetailsLayout(m.fields)[0],
      DetailsState(a, m.fields, 1))
    ensures Advances(DetailsDecoder(s), DetailsState(a, m.fields, 1), DetailsLayout(m.fields)[1],
      DetailsState(a, m.fields, 2))
    ensures Advances(DetailsDecoder(s), DetailsState(a, m.fields, 2), DetailsLayout(m.fields)[2],
      DetailsState(a, m.fields, 3))
  {
    hide EncodeRecords, EncodeFields, UnknownTo, DecodeInto, Absorb, RepeatedField, NormaliseSan, MergeOptional,
      MapOption;
    FieldFits(DetailsLayout(m.fields), m.unknownFields, 2);
    AbsorbSans(s, DetailsState(a, m.fields, 2), m.fields.subjectAltNames);
  }

  lemma DetailsFields4(s: Schema, a: DetailsFields, m: CertificateDetails)
    ensures Advances(DetailsDecoder(s), DetailsState(a, m.fields, 3), DetailsLayout(m.fields)[3],
      DetailsState(a, m.fields, 4))
    ensures Advances(DetailsDecoder(s), DetailsState(a, m.fields, 4), DetailsLayout(m.fields)[4],
      DetailsState(a, m.fields, 5))
    ensures Advances(DetailsDecoder(s), DetailsState(a, m.fields, 5), DetailsLayout(m.fields)[5],
      DetailsState(a, m.fields, 6))
  {
    hide EncodeRecords, EncodeFields, DecodeInto, Absorb, RepeatedField, NormaliseSan, MergeOptional, MapOption;
  }

  lemma DetailsFields7(s: Schema, a: DetailsFields, m: CertificateDetails)
    requires DetailsOk(s, Some(m)) && |EncodeDetails(Some(m))| <= MAX_INT
    ensures Advances(DetailsDecoder(s), DetailsState(a, m.fields, 6), DetailsLayout(m.fields)[6],
      DetailsState(a, m.fields, 7))
  {
    hide EncodeRecords, EncodeFields, UnknownTo, DecodeInto, Absorb, RepeatedField, NormaliseSan, EncodeOcsp, MergeOcsp;
    var b := m.fields;
    if b.ocspDetails.Some? {
      FieldFits(DetailsLayout(b), m.unknownFields, 6);
      OptionalPayloadFits(7, EncodeOcsp(b.ocspDetails.value));
      OcspDecodes(a.ocspDetails.GetOr(Msg(NO_OCSP, [])), b.ocspDetails.value);
    }
  }

  lemma DetailsAbsorbs(s: Schema, a: DetailsFields, m: CertificateDetails)
    requires DetailsOk(s, Some(m)) && |EncodeDetails(Some(m))| <= MAX_INT
    ensures Absorb(DetailsDecoder(s), a, Flatten(DetailsLayout(m.fields))) == Some(MergeDetails(a, m.fields))
  {
    hide Advances, Absorb, DetailsDecoder, Flatten, DetailsState, MergeDetails, DetailsOk, EncodeDetails;
    var fs := DetailsLayout(m.fields);
    var ks := seq(8, i requires 0 <= i => DetailsState(a, m.fields, i));
    DetailsFields1(s, a, m);
    DetailsFields4(s, a, m);
    DetailsFields7(s, a, m);
    DetailsStateEnds(a, m.fields);
    AbsorbFields(DetailsDecoder(s), fs, ks);
  }

  lemma DetailsStateEnds(a: DetailsFields, b: DetailsFields)
    ensures DetailsState(a, b, 0) == a && DetailsState(a, b, 7) == MergeDetails(a, b)
  {
  }

  lemma DetailsElement(s: Schema, x: Option<CertificateDetails>)
    requires DetailsOk(s, x) && |EncodeDetails(x)| <= MAX_INT
    ensures NormaliseDetails(x).Some?
    ensures DecodeInto(DetailsDecoder(s), Msg(NO_DETAILS, []), EncodeDetails(x)) == NormaliseDetails(x)
  {
    hide DecodeInto, EncodeDetails;
    DetailsDecodes(s, Msg(NO_DETAILS, []), x);
    var d := x.GetOr(Msg(NO_DETAILS, []));
    assert [] + d.unknownFields == d.unknownFields;
    MergeDetailsFromEmpty(d.fields);
  }

  lemma MergeDetailsFromEmpty(k: DetailsFields)
    ensures MergeDetails(NO_DETAILS, k) == NormaliseDetailsFields(k)
  {
    hide NormaliseSan, MergeOpaque, Map, MergeOptional;
    OpaqueFromEmpty(k.validFrom);
    OpaqueFromEmpty(k.expirationTime);
    OcspFromEmpty(k.ocspDetails);
    var xs := Map(NormaliseSan, k.subjectAltNames);
    assert [] + xs == xs;
  }

  lemma OcspFromEmpty(m: Option<OcspDetails>)
    ensures MergeOptional(MergeOcsp, NO_OCSP, None, m) == m
  {
    if m.Some? {
      OpaqueFromEmpty(m.value.fields.validFrom);
      OpaqueFromEmpty(m.value.fields.expiration);
      assert [] + m.value.unknownFields == m.value.unknownFields;
    }
  }

  lemma AbsorbCaCert(s: Schema, k: CertificateFields, xs: seq<Option<CertificateDetails>>)
    requires forall x <- xs :: DetailsOk(s, x)
    requires |EncodeRecords(RepeatedField(1, Map(EncodeDetails, xs)))| <= MAX_INT
    ensures Absorb(CertificateDecoder(s), k, RepeatedField(1, Map(EncodeDetails, xs))) ==
            Some(k.(caCert := k.caCert + Map(NormaliseDetails, xs)))
  {
    hide EncodeRecords, DetailsOk, EncodeDetails, NormaliseDetails, DecodeInto, RepeatedField, Absorb;
    var put := (ys: seq<Option<CertificateDetails>>) => k.(caCert := ys);
    forall x, ys | x in xs
      ensures CertificateDecoder(s)(put(ys), Len(1, EncodeDetails(x))) == Updated(put(ys + [NormaliseDetails(x)]))
    {
      var i :| 0 <= i < |xs| && xs[i] == x;
      RepeatedPayloadFits(1, Map(EncodeDetails, xs), i);
      DetailsElement(s, x);
    }
    AbsorbRepeated(CertificateDecoder(s), put, k.caCert, 1, xs, EncodeDetails, NormaliseDetails);
  }

  lemma AbsorbCertChain(s: Schema, k: CertificateFields, xs: seq<Option<CertificateDetails>>)
    requires forall x <- xs :: DetailsOk(s, x)
    requires |EncodeRecords(RepeatedField(2, Map(EncodeDetails, xs)))| <= MAX_INT
    ensures Absorb(CertificateDecoder(s), k, RepeatedField(2, Map(EncodeDetails, xs))) ==
            Some(k.(certChain := k.certChain + Map(NormaliseDetails, xs)))
  {
    hide EncodeRecords, DetailsOk, EncodeDetails, NormaliseDetails, DecodeInto, RepeatedField, Absorb;
    var put := (ys: seq<Option<CertificateDetails>>) => k.(certChain := ys);
    forall x, ys | x in xs
      ensures CertificateDecoder(s)(put(ys), Len(2, EncodeDetails(x))) == Updated(put(ys + [NormaliseDetails(x)]))
    {
      var i :| 0 <= i < |xs| && xs[i] == x;
      RepeatedPayloadFits(2, Map(EncodeDetails, xs), i);
      DetailsElement(s, x);
    }
    AbsorbRepeated(CertificateDecoder(s), put, k.certChain, 2, xs, EncodeDetails, NormaliseDetails);
  }

  lemma CertificateDecodes(s: Schema, acc: Certificate, m: Option<Certificate>)
    requires CertificateOk(s, m) && |EncodeCertificate(m)| <= MAX_INT
    ensures DecodeInto(CertificateDecoder(s), acc, EncodeCertificate(m)) ==
            Some(MergeMsg(MergeCertificate, acc, m.GetOr(Msg(NO_CERTIFICATE, []))))
  {
    if m.None? {
      DecodeNothing(CertificateDecoder(s), acc);
      assert acc.fields.caCert + [] == acc.fields.caCert && acc.fields.certChain + [] == acc.fields.certChain;
    } else {
      hide EncodeRecords, EncodeFields, UnknownTo, DecodeInto, Flatten, Absorb, RepeatedField;
      var k0, b, fs := acc.fields, m.value.fields, CertificateLayout(m.value.fields);
      FieldFits(fs, m.value.unknownFields, 0);
      FieldFits(fs, m.value.unknownFields, 1);
      var k1 := k0.(caCert := k0.caCert + Map(NormaliseDetails, b.caCert));
      AbsorbCaCert(s, k0, b.caCert);
      AbsorbCertChain(s, k1, b.certChain);
      AbsorbFields(CertificateDecoder(s), fs, [k0, k1, MergeCertificate(k0, b)]);
      RepeatedNoGroups(1, Map(EncodeDetails, b.caCert));
      RepeatedNoGroups(2, Map(EncodeDetails, b.certChain));
      DecodeEncoded(CertificateDecoder(s), acc, fs, m.value.unknownFields, MergeCertificate(k0, b));
    }
  }

  lemma CertificateElement(s: Schema, x: Option<Certificate>)
    requires CertificateOk(s, x) && |EncodeCertificate(x)| <= MAX_INT
    ensures NormaliseCertificate(x).Some?
    ensures DecodeInto(CertificateDecoder(s), Msg(NO_CERTIFICATE, []), EncodeCertificate(x)) == NormaliseCertificate(x)
  {
    hide DecodeInto, EncodeCertificate;
    CertificateDecodes(s, Msg(NO_CERTIFICATE, []), x);
    var d := x.GetOr(Msg(NO_CERTIFICATE, []));
    assert [] + d.unknownFields == d.unknownFields;
    assert [] + Map(NormaliseDetails, d.fields.caCert) == Map(NormaliseDetails, d.fields.caCert);
    assert [] + Map(NormaliseDetails, d.fields.certChain) == Map(NormaliseDetails, d.fields.certChain);
  }

  lemma AbsorbCertificates(s: Schema, k: CertificatesFields, xs: seq<Option<Certificate>>)
    requires forall x <- xs :: CertificateOk(s, x)
    requires |EncodeRecords(RepeatedField(1, Map(EncodeCertificate, xs)))| <= MAX_INT
    ensures Absorb(CertificatesDecoder(s), k, RepeatedField(1, Map(EncodeCertificate, xs))) ==
            Some(k.(certificates := k.certificates + Map(NormaliseCertificate, xs)))
  {
    hide EncodeRecords, CertificateOk, EncodeCertificate, NormaliseCertificate, DecodeInto, RepeatedField, Absorb;
    var put := (ys: seq<Option<Certificate>>) => k.(certificates := ys);
    forall x, ys | x in xs
      ensures CertificatesDecoder(s)(put(ys), Len(1, EncodeCertificate(x))) ==
        Updated(put(ys + [NormaliseCertificate(x)]))
    {
      var i :| 0 <= i < |xs| && xs[i] == x;
      RepeatedPayloadFits(1, Map(EncodeCertificate, xs), i);
      CertificateElement(s, x);
    }
    AbsorbRepeated(CertificatesDecoder(s), put, k.certificates, 1, xs, EncodeCertificate, NormaliseCertificate);
  }

  /** Decoding the encoding of m on top of any message merges m into it. */
  lemma CertificatesDecode(s: Schema, acc: Certificates, m: Option<Certificates>)
    requires CertificatesOk(s, m) && |EncodeCertificates(m)| <= MAX_INT
    ensures DecodeInto(CertificatesDecoder(s), acc, EncodeCertificates(m)) ==
            Some(MergeMsg(MergeCertificates, acc, m.GetOr(Msg(NO_CERTIFICATES, []))))
  {
    if m.None? {
      DecodeNothing(CertificatesDecoder(s), acc);
      assert acc.fields.certificates + [] == acc.fields.certificates;
    } else {
      hide EncodeRecords, EncodeFields, UnknownTo, DecodeInto, Flatten, Absorb, RepeatedField;
      var k0, b, fs := acc.fields, m.value.fields, CertificatesLayout(m.value.fields);
      FieldFits(fs, m.value.unknownFields, 0);
      AbsorbCertificates(s, k0, b.certificates);
      AbsorbFields(CertificatesDecoder(s), fs, [k0, MergeCertificates(k0, b)]);
      RepeatedNoGroups(1, Map(EncodeCertificate, b.certificates));
      DecodeEncoded(CertificatesDecoder(s), acc, fs, m.value.unknownFields, MergeCertificates(k0, b));
    }
  }

  /** Round trip: what is read back is what was written, nil elements having become empty messages. */
  lemma RoundTrip(s: Schema, m: Option<Certificates>)
    requires CertificatesOk(s, m) && |EncodeCertificates(m)| <= MAX_INT
    ensures DecodeCertificates(s, EncodeCertificates(m)) == Some(NormaliseCertificates(m))
  {
    hide EncodeCertificates, DecodeInto, CertificatesOk, NormaliseCertificate, CertificatesDecoder;
    CertificatesDecode(s, Msg(NO_CERTIFICATES, []), m);
    var d := m.GetOr(Msg(NO_CERTIFICATES, []));
    assert [] + d.unknownFields == d.unknownFields;
    assert [] + Map(NormaliseCertificate, d.fields.certificates) == Map(NormaliseCertificate, d.fields.certificates);
  }

  /** Concatenation is merge: encode(a) followed by encode(b) reads back as a with b merged into it. */
  lemma ConcatenationMerges(s: Schema, a: Option<Certificates>, b: Option<Certificates>)
    requires CertificatesOk(s, a) && |EncodeCertificates(a)| <= MAX_INT
    requires CertificatesOk(s, b) && |EncodeCertificates(b)| <= MAX_INT
    ensures DecodeCertificates(s, EncodeCertificates(a) + EncodeCertificates(b)) ==
            Some(MergeMsg(MergeCertificates, NormaliseCertificates(a), b.GetOr(Msg(NO_CERTIFICATES, []))))
  {
    hide EncodeCertificates, DecodeInto, CertificatesOk, NormaliseCertificates, MergeMsg, CertificatesDecoder;
    RoundTrip(s, a);
    CertificatesDecode(s, NormaliseCertificates(a), b);
    DecodeConcat(CertificatesDecoder(s), Msg(NO_CERTIFICATES, []), EncodeCertificates(a), EncodeCertificates(b));
  }

  /* ----- when the round trip is exact ----- */

  /** No repeated field has a nil element, at any level. */
  ghost predicate NoNilDetails(m: Option<CertificateDetails>) {
    m.Some? && forall x <- m.value.fields.subjectAltNames :: x.Some?
  }

  ghost predicate NoNilCertificate(m: Option<Certificate>) {
    && m.Some?
    && (forall x <- m.value.fields.caCert :: NoNilDetails(x))
    && (forall x <- m.value.fields.certChain :: NoNilDetails(x))
  }

  ghost predicate NoNil(m: Certificates) {
    forall x <- m.fields.certificates :: NoNilCertificate(x)
  }

  lemma DetailsFixed(m: Option<CertificateDetails>)
    ensures NormaliseDetails(m) == m <==> NoNilDetails(m)
  {
    if m.Some? {
      MapFixed(NormaliseSan, m.value.fields.subjectAltNames);
    }
  }

  lemma CertificateFixed(m: Option<Certificate>)
    ensures NormaliseCertificate(m) == m <==> NoNilCertificate(m)
  {
    if m.Some? {
      var k := m.value.fields;
      MapFixed(NormaliseDetails, k.caCert);
      MapFixed(NormaliseDetails, k.certChain);
      forall x ensures NormaliseDetails(x) == x <==> NoNilDetails(x) {
        DetailsFixed(x);
      }
    }
  }

  /** The round trip gives back the very message exactly when it has no nil element. */
  lemma RoundTripExact(s: Schema, m: Certificates)
    requires CertificatesOk(s, Some(m)) && |EncodeCertificates(Some(m))| <= MAX_INT
    ensures DecodeCertificates(s, EncodeCertificates(Some(m))) == Some(m) <==> NoNil(m)
  {
    hide EncodeCertificates, DecodeCertificates;
    RoundTrip(s, Some(m));
    MapFixed(NormaliseCertificate, m.fields.certificates);
    forall x ensures NormaliseCertificate(x) == x <==> NoNilCertificate(x) {
      CertificateFixed(x);
    }
  }

  /* ----- the encoding does not tell a nil element from an empty one ----- */

  lemma EncodeNormalisedDetails(m: Option<CertificateDetails>)
    ensures EncodeDetails(NormaliseDetails(m)) == EncodeDetails(m)
  {
    hide EncodeRecords, EncodeFields, EncodeSan, RepeatedField;
    var d := m.GetOr(Msg(NO_DETAILS, []));
    forall x ensures EncodeSan(NormaliseSan(x)) == EncodeSan(x) {
      EncodeEmptySan();
    }
    MapCongruent(EncodeSan, NormaliseSan, EncodeSan, d.fields.subjectAltNames);
    EncodeEmptyDetails();
  }

  lemma EncodeEmptySan()
    ensures EncodeSan(Some(Msg(NO_SAN, []))) == [] && EncodeSan(None) == []
  {
    EncodeFieldsFlat(SanLayout(NO_SAN), []);
    FlattenEmpty(SanLayout(NO_SAN));
  }

  lemma EncodeEmptyDetails()
    ensures EncodeDetails(Some(Msg(NO_DETAILS, []))) == []
  {
    EncodeFieldsFlat(DetailsLayout(NO_DETAILS), []);
    FlattenEmpty(DetailsLayout(NO_DETAILS));
  }

  lemma EncodeNormalisedCertificate(m: Option<Certificate>)
    ensures EncodeCertificate(NormaliseCertificate(m)) == EncodeCertificate(m)
  {
    hide EncodeRecords, EncodeFields, EncodeDetails, NormaliseDetails, RepeatedField;
    var d := m.GetOr(Msg(NO_CERTIFICATE, []));
    forall x ensures EncodeDetails(NormaliseDetails(x)) == EncodeDetails(x) {
      EncodeNormalisedDetails(x);
    }
    MapCongruent(EncodeDetails, NormaliseDetails, EncodeDetails, d.fields.caCert);
    MapCongruent(EncodeDetails, NormaliseDetails, EncodeDetails, d.fields.certChain);
    EncodeEmptyCertificate();
  }

  lemma EncodeEmptyCertificate()
    ensures EncodeCertificate(Some(Msg(NO_CERTIFICATE, []))) == []
  {
    EncodeFieldsFlat(CertificateLayout(NO_CERTIFICATE), []);
    FlattenEmpty(CertificateLayout(NO_CERTIFICATE));
  }

  /** Marshalling what was read back gives the same bytes again. */
  lemma EncodeNormalised(m: Option<Certificates>)
    ensures EncodeCertificates(Some(NormaliseCertificates(m))) == EncodeCertificates(m)
  {
    hide EncodeRecords, EncodeFields, EncodeCertificate, NormaliseCertificate, RepeatedField;
    var d := m.GetOr(Msg(NO_CERTIFICATES, []));
    forall x ensures EncodeCertificate(NormaliseCertificate(x)) == EncodeCertificate(x) {
      EncodeNormalisedCertificate(x);
    }
    MapCongruent(EncodeCertificate, NormaliseCertificate, EncodeCertificate, d.fields.certificates);
    EncodeEmptyCertificates();
  }

  lemma EncodeEmptyCertificates()
    ensures EncodeCertificates(Some(Msg(NO_CERTIFICATES, []))) == []
  {
    EncodeFieldsFlat(CertificatesLayout(NO_CERTIFICATES), []);
    FlattenEmpty(CertificatesLayout(NO_CERTIFICATES));
  }

  /** Two messages have the same encoding exactly when they differ only in nil against empty elements. */
  lemma SameBytesSameMessage(s: Schema, a: Option<Certificates>, b: Option<Certificates>)
    requires CertificatesOk(s, a) && |EncodeCertificates(a)| <= MAX_INT
    requires CertificatesOk(s, b) && |EncodeCertificates(b)| <= MAX_INT
    ensures EncodeCertificates(a) == EncodeCertificates(b) <==> NormaliseCertificates(a) == NormaliseCertificates(b)
  {
    hide EncodeCertificates, DecodeCertificates, NormaliseCertificates;
    RoundTrip(s, a);
    RoundTrip(s, b);
    EncodeNormalised(a);
    EncodeNormalised(b);
  }
}
