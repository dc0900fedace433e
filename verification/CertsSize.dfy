/** A v2alpha relay never writes more than it read, over the certificates tree. */
module CertsSize {
  import opened GoTypes
  import opened Wire
  import opened Messages
  import opened Certs
  import opened CertsLaws
  import opened CertsRelay
  import opened Frugal

  lemma EmptySize(fs: seq<seq<Record>>)
    requires forall i | 0 <= i < |fs| :: fs[i] == []
    ensures Size(fs) == 0
  {
    EncodeFieldsFlat(fs, []);
    FlattenEmpty(fs);
  }

  /* ----- SubjectAlternateName ----- */

  function SanSize(k: SanFields): nat {
    Size(SanLayout(k))
  }

  lemma SanFrugal()
    ensures IsFrugal(SanStep, SanSize)
  {
    hide EncodeRecord, EncodeRecords, EncodeFields;
    forall k, r | SanStep(k, r).Updated? ensures SanSize(SanStep(k, r).fields) <= SanSize(k) + |EncodeRecord(r)| {
      EncodeOne(r);
      GrowsAt(SanLayout(k), SanLayout(SanStep(k, r).fields), r.num - 1, |EncodeRecord(r)|);
    }
  }

  lemma SanNoLonger(p: seq<byte>)
    requires DecodeInto(SanStep, Msg(NO_SAN, []), p).Some?
    ensures |EncodeSan(DecodeInto(SanStep, Msg(NO_SAN, []), p))| <= |p|
  {
    hide DecodeInto, IsFrugal, EncodeFields;
    SanFrugal();
    EmptySize(SanLayout(NO_SAN));
    BytesNoLonger(SanStep, SanSize, Msg(NO_SAN, []), p);
    var d := DecodeInto(SanStep, Msg(NO_SAN, []), p).value;
    SizeOfMessage(SanLayout(d.fields), d.unknownFields);
  }

  /* ----- CertificateDetails ----- */

  function DetailsSize(k: DetailsFields): nat {
    Size(DetailsLayout(k))
  }

  lemma SansGrow(xs: seq<Option<SubjectAlternateName>>, x: Option<SubjectAlternateName>, p: seq<byte>)
    requires |EncodeSan(x)| <= |p|
    ensures |EncodeRecords(RepeatedField(3, Map(EncodeSan, xs + [x])))| <=
            |EncodeRecords(RepeatedField(3, Map(EncodeSan, xs)))| + |EncodeRecord(Len(3, p))|
  {
    hide EncodeRecord, EncodeRecords, EncodeSan, RepeatedField;
    assert Map(EncodeSan, xs + [x]) == Map(EncodeSan, xs) + [EncodeSan(x)];
    RepeatedGrows(3, Map(EncodeSan, xs), EncodeSan(x), p);
  }

  lemma DetailsGrow(k: DetailsFields, r: Record)
    requires DetailsDecoder(V2alpha)(k, r).Updated?
    ensures DetailsSize(DetailsDecoder(V2alpha)(k, r).fields) <= DetailsSize(k) + |EncodeRecord(r)|
  {
    hide EncodeRecord, EncodeRecords, EncodeFields, EncodeSan, RepeatedField, DecodeInto, OptionalField, StringField,
      VarintField, MapOption, MergeOpaque, Map;
    match r {
      case Len(1, p) => StringGrows(1, p);
      case Len(2, p) => StringGrows(2, p);
      case Len(3, p) =>
        SanNoLonger(p);
        SansGrow(k.subjectAltNames, DecodeInto(SanStep, Msg(NO_SAN, []), p), p);
      case Varint(4, v) => VarintGrows(4, v);
      case Len(5, p) => OpaqueGrows(5, k.validFrom, p);
      case Len(6, p) => OpaqueGrows(6, k.expirationTime, p);
    }
    GrowsAt(DetailsLayout(k), DetailsLayout(DetailsDecoder(V2alpha)(k, r).fields), r.num - 1, |EncodeRecord(r)|);
  }

  lemma DetailsNoLonger(p: seq<byte>)
    requires ReadDetails(V2alpha, p).Some?
    ensures |EncodeDetails(ReadDetails(V2alpha, p))| <= |p|
  {
    hide DecodeInto, EncodeFields, DetailsLayout, DetailsDecoder, EncodeRecord, DetailsSize;
    assert IsFrugal(DetailsDecoder(V2alpha), DetailsSize) by {
      forall k, r | DetailsDecoder(V2alpha)(k, r).Updated?
        ensures DetailsSize(DetailsDecoder(V2alpha)(k, r).fields) <= DetailsSize(k) + |EncodeRecord(r)|
      {
        DetailsGrow(k, r);
      }
    }
    NoDetailsSize();
    BytesNoLonger(DetailsDecoder(V2alpha), DetailsSize, Msg(NO_DETAILS, []), p);
    var d := ReadDetails(V2alpha, p).value;
    DetailsLength(d);
  }

  lemma NoDetailsSize()
    ensures DetailsSize(NO_DETAILS) == 0
  {
    EmptySize(DetailsLayout(NO_DETAILS));
  }

  lemma DetailsLength(m: CertificateDetails)
    ensures |EncodeDetails(Some(m))| == DetailsSize(m.fields) + |m.unknownFields|
  {
    SizeOfMessage(DetailsLayout(m.fields), m.unknownFields);
  }

  /* ----- Certificate ----- */

  function CertificateSize(k: CertificateFields): nat {
    Size(CertificateLayout(k))
  }

  lemma CertificateGrows(k: CertificateFields, r: Record)
    requires CertificateDecoder(V2alpha)(k, r).Updated?
    ensures CertificateSize(CertificateDecoder(V2alpha)(k, r).fields) <= CertificateSize(k) + |EncodeRecord(r)|
  {
    hide EncodeRecord, EncodeRecords, EncodeFields, EncodeDetails, RepeatedField, DecodeInto, DetailsDecoder;
    var xs := if r.num == 1 then k.caCert else k.certChain;
    var x := ReadDetails(V2alpha, r.payload);
    DetailsNoLonger(r.payload);
    assert Map(EncodeDetails, xs + [x]) == Map(EncodeDetails, xs) + [EncodeDetails(x)];
    RepeatedGrows(r.num, Map(EncodeDetails, xs), EncodeDetails(x), r.payload);
    GrowsAt(CertificateLayout(k), CertificateLayout(CertificateDecoder(V2alpha)(k, r).fields), r.num - 1,
      |EncodeRecord(r)|);
  }

  lemma CertificateNoLonger(p: seq<byte>)
    requires ReadCertificate(V2alpha, p).Some?
    ensures |EncodeCertificate(ReadCertificate(V2alpha, p))| <= |p|
  {
    hide DecodeInto, EncodeFields, CertificateDecoder, EncodeRecord;
    assert IsFrugal(CertificateDecoder(V2alpha), CertificateSize) by {
      forall k, r | CertificateDecoder(V2alpha)(k, r).Updated?
        ensures CertificateSize(CertificateDecoder(V2alpha)(k, r).fields) <= CertificateSize(k) + |EncodeRecord(r)|
      {
        CertificateGrows(k, r);
      }
    }
    EmptySize(CertificateLayout(NO_CERTIFICATE));
    BytesNoLonger(CertificateDecoder(V2alpha), CertificateSize, Msg(NO_CERTIFICATE, []), p);
    var d := ReadCertificate(V2alpha, p).value;
    SizeOfMessage(CertificateLayout(d.fields), d.unknownFields);
  }

  /* ----- Certificates ----- */

  function CertificatesSize(k: CertificatesFields): nat {
    Size(CertificatesLayout(k))
  }

  lemma CertificatesGrow(k: CertificatesFields, r: Record)
    requires CertificatesDecoder(V2alpha)(k, r).Updated?
    ensures CertificatesSize(CertificatesDecoder(V2alpha)(k, r).fields) <= CertificatesSize(k) + |EncodeRecord(r)|
  {
    hide EncodeRecord, EncodeRecords, EncodeFields, EncodeCertificate, RepeatedField, DecodeInto, CertificateDecoder;
    var x := ReadCertificate(V2alpha, r.payload);
    CertificateNoLonger(r.payload);
    assert Map(EncodeCertificate, k.certificates + [x]) ==
      Map(EncodeCertificate, k.certificates) + [EncodeCertificate(x)];
    RepeatedGrows(1, Map(EncodeCertificate, k.certificates), EncodeCertificate(x), r.payload);
    GrowsAt(CertificatesLayout(k), CertificatesLayout(CertificatesDecoder(V2alpha)(k, r).fields), 0, |EncodeRecord(r)|);
  }

  /** What a v2alpha peer writes is no longer than what it read: canonical varints, shared keys, skipped defaults. */
  lemma RelayedNoLonger(bs: seq<byte>)
    ensures |Relayed(bs)| <= |bs|
  {
    hide DecodeInto, EncodeFields, CertificatesDecoder, EncodeRecord;
    if DecodeCertificates(V2alpha, bs).Some? {
      assert IsFrugal(CertificatesDecoder(V2alpha), CertificatesSize) by {
        forall k, r | CertificatesDecoder(V2alpha)(k, r).Updated?
          ensures CertificatesSize(CertificatesDecoder(V2alpha)(k, r).fields) <= CertificatesSize(k) + |EncodeRecord(r)|
        {
          CertificatesGrow(k, r);
        }
      }
      EmptySize(CertificatesLayout(NO_CERTIFICATES));
      BytesNoLonger(CertificatesDecoder(V2alpha), CertificatesSize, Msg(NO_CERTIFICATES, []), bs);
      var d := DecodeCertificates(V2alpha, bs).value;
      SizeOfMessage(CertificatesLayout(d.fields), d.unknownFields);
    }
  }
}
