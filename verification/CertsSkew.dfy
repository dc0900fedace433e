/**
 * Version skew over the certificates tree: a v2alpha peer that reads v3 bytes and writes them out
 * again writes the same bytes, because the field it does not know has the highest number and
 * unknown bytes go last.
 */
module CertsSkew {
  import opened GoTypes
  import opened Wire
  import opened Messages
  import opened Certs
  import opened CertsLaws
  import opened CertsRelay
  import CertsSize
  import CertsMarshalV2alpha

  /** The record of ocsp_details, which v2alpha keeps as unknown bytes. */
  function OcspRecords(k: DetailsFields): seq<Record> {
    OptionalField(7, MapOption(EncodeOcsp, k.ocspDetails))
  }

  /** A v3 message as a v2alpha peer holds it. */
  function DowngradeDetails(m: Option<CertificateDetails>): Option<CertificateDetails> {
    if m.None? then None
    else
      var d := m.value;
      Some(Msg(d.fields.(ocspDetails := None), EncodeRecords(OcspRecords(d.fields)) + d.unknownFields))
  }

  function DowngradeCertificate(m: Option<Certificate>): Option<Certificate> {
    if m.None? then None
    else
      var k := m.value.fields;
      Some(m.value.(fields := CertificateFields(Map(DowngradeDetails, k.caCert), Map(DowngradeDetails, k.certChain))))
  }

  function Downgrade(m: Option<Certificates>): Option<Certificates> {
    if m.None? then None
    else Some(m.value.(fields := CertificatesFields(Map(DowngradeCertificate, m.value.fields.certificates))))
  }

  lemma DowngradeDetailsBytes(m: Option<CertificateDetails>)
    ensures EncodeDetails(DowngradeDetails(m)) == EncodeDetails(m)
  {
    if m.Some? {
      hide EncodeRecords, EncodeFields, RepeatedField;
      var k, fs := m.value.fields, DetailsLayout(m.value.fields);
      var gs := DetailsLayout(k.(ocspDetails := None));
      EncodeFieldsSplit(fs[..6], [OcspRecords(k)], m.value.unknownFields);
      assert fs == fs[..6] + [OcspRecords(k)];
      var moved := DowngradeDetails(m).value.unknownFields;
      EncodeFieldsSplit(fs[..6], [[]], moved);
      assert gs == fs[..6] + [[]];
      EncodeSingleField(OcspRecords(k), m.value.unknownFields);
      EncodeSingleField([], moved);
      EncodeNone();
      assert [] + moved == moved;
    }
  }

  lemma DowngradeCertificateBytes(m: Option<Certificate>)
    ensures EncodeCertificate(DowngradeCertificate(m)) == EncodeCertificate(m)
  {
    if m.Some? {
      forall x ensures EncodeDetails(DowngradeDetails(x)) == EncodeDetails(x) {
        DowngradeDetailsBytes(x);
      }
      MapCongruent(EncodeDetails, DowngradeDetails, EncodeDetails, m.value.fields.caCert);
      MapCongruent(EncodeDetails, DowngradeDetails, EncodeDetails, m.value.fields.certChain);
    }
  }

  lemma DowngradeBytes(m: Option<Certificates>)
    ensures EncodeCertificates(Downgrade(m)) == EncodeCertificates(m)
  {
    if m.Some? {
      forall x ensures EncodeCertificate(DowngradeCertificate(x)) == EncodeCertificate(x) {
        DowngradeCertificateBytes(x);
      }
      MapCongruent(EncodeCertificate, DowngradeCertificate, EncodeCertificate, m.value.fields.certificates);
    }
  }

  lemma DowngradeDetailsOk(m: Option<CertificateDetails>)
    requires DetailsOk(V3, m) && |EncodeDetails(m)| <= MAX_INT
    ensures DetailsOk(V2alpha, DowngradeDetails(m))
  {
    if m.Some? {
      hide EncodeRecords, EncodeFields, UnknownTo, SanOk;
      var d := m.value;
      forall k, r | DetailsDecoder(V3)(k, r) == Unrecognised ensures DetailsDecoder(V2alpha)(k, r) == Unrecognised {
      }
      UnknownToOlder(DetailsDecoder(V3), DetailsDecoder(V2alpha), d.unknownFields);
      FieldFits(DetailsLayout(d.fields), d.unknownFields, 6);
      ShortPayloads(OcspRecords(d.fields));
      UnknownPrefix(DetailsDecoder(V2alpha), OcspRecords(d.fields), d.unknownFields);
    }
  }

  lemma DowngradeCertificateOk(m: Option<Certificate>)
    requires CertificateOk(V3, m) && |EncodeCertificate(m)| <= MAX_INT
    ensures CertificateOk(V2alpha, DowngradeCertificate(m))
  {
    if m.Some? {
      hide EncodeRecords, EncodeFields, UnknownTo, DetailsOk, EncodeDetails, DowngradeDetails;
      var d, fs := m.value, CertificateLayout(m.value.fields);
      forall k, r | CertificateDecoder(V3)(k, r) == Unrecognised
        ensures CertificateDecoder(V2alpha)(k, r) == Unrecognised
      {
      }
      UnknownToOlder(CertificateDecoder(V3), CertificateDecoder(V2alpha), d.unknownFields);
      FieldFits(fs, d.unknownFields, 0);
      FieldFits(fs, d.unknownFields, 1);
      DowngradeAllDetails(1, d.fields.caCert);
      DowngradeAllDetails(2, d.fields.certChain);
    }
  }

  lemma DowngradeAllDetails(num: FieldNumber, xs: seq<Option<CertificateDetails>>)
    requires forall x <- xs :: DetailsOk(V3, x)
    requires |EncodeRecords(RepeatedField(num, Map(EncodeDetails, xs)))| <= MAX_INT
    ensures forall y <- Map(DowngradeDetails, xs) :: DetailsOk(V2alpha, y)
  {
    hide EncodeRecords, DetailsOk, EncodeDetails, DowngradeDetails;
    forall y <- Map(DowngradeDetails, xs) ensures DetailsOk(V2alpha, y) {
      var i :| 0 <= i < |xs| && Map(DowngradeDetails, xs)[i] == y;
      RepeatedPayloadFits(num, Map(EncodeDetails, xs), i);
      DowngradeDetailsOk(xs[i]);
    }
  }

  lemma DowngradeOk(m: Option<Certificates>)
    requires CertificatesOk(V3, m) && |EncodeCertificates(m)| <= MAX_INT
    ensures CertificatesOk(V2alpha, Downgrade(m))
  {
    if m.Some? {
      hide EncodeRecords, EncodeFields, UnknownTo, CertificateOk, EncodeCertificate, DowngradeCertificate;
      var d, xs := m.value, m.value.fields.certificates;
      forall k, r | CertificatesDecoder(V3)(k, r) == Unrecognised
        ensures CertificatesDecoder(V2alpha)(k, r) == Unrecognised
      {
      }
      UnknownToOlder(CertificatesDecoder(V3), CertificatesDecoder(V2alpha), d.unknownFields);
      FieldFits(CertificatesLayout(d.fields), d.unknownFields, 0);
      forall y <- Map(DowngradeCertificate, xs) ensures CertificateOk(V2alpha, y) {
        var i :| 0 <= i < |xs| && Map(DowngradeCertificate, xs)[i] == y;
        RepeatedPayloadFits(1, Map(EncodeCertificate, xs), i);
        DowngradeCertificateOk(xs[i]);
      }
    }
  }

  /**
   * A v2alpha peer reads every v3 encoding, as a well-formed message of its own; what it holds
   * re-encodes to the identical bytes, and a v3 peer reads those as it would have read the original.
   */
  lemma SkewPreservesBytes(m: Option<Certificates>)
    requires CertificatesOk(V3, m) && |EncodeCertificates(m)| <= MAX_INT
    ensures
      var held := DecodeCertificates(V2alpha, EncodeCertificates(m));
      && held == Some(NormaliseCertificates(Downgrade(m)))
      && CertificatesOk(V2alpha, held)
      && EncodeCertificates(held) == EncodeCertificates(m)
      && DecodeCertificates(V3, EncodeCertificates(held)) == Some(NormaliseCertificates(m))
  {
    hide EncodeCertificates, DecodeCertificates, CertificatesOk, NormaliseCertificates, Downgrade;
    DowngradeBytes(m);
    DowngradeOk(m);
    RoundTrip(V2alpha, Downgrade(m));
    EncodeNormalised(Downgrade(m));
    RoundTrip(V3, m);
    RelayPreservesMeaning(EncodeCertificates(m));
  }

  /**
   * The relay itself: it decodes, and its own marshallers write what it then holds. The output
   * reads in v3 as the input does, is never longer, and is the input when a v3 marshaller wrote that.
   */
  method PassOn(bs: seq<byte>) returns (out: seq<byte>)
    requires DecodeCertificates(V3, bs).Some? && |bs| <= MAX_INT
    ensures DecodeCertificates(V3, out) == DecodeCertificates(V3, bs)
    ensures |out| <= |bs|
    ensures forall m | CertificatesOk(V3, m) && EncodeCertificates(m) == bs :: out == bs
  {
    hide EncodeCertificates, DecodeCertificates, CertificatesOk;
    var held := DecodeCertificates(V2alpha, bs);
    RelayPreservesMeaning(bs);
    CertsSize.RelayedNoLonger(bs);
    CertsMarshalV2alpha.OkIsOlder(held);
    out := CertsMarshalV2alpha.MarshalVTStrict(held);
    forall m | CertificatesOk(V3, m) && EncodeCertificates(m) == bs ensures out == bs {
      SkewPreservesBytes(m);
    }
  }
}
