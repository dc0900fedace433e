/**
 * A v2alpha relay between v3 peers, over the certificates tree: for any bytes that v3 accepts,
 * canonical or not, what the relay writes out reads in v3 as what it was given.
 */
module CertsRelay {
  import opened GoTypes
  import opened Wire
  import opened Messages
  import opened Certs
  import opened CertsLaws
  import opened Relay

  function ReadDetails(s: Schema, bs: seq<byte>): Option<CertificateDetails> {
    DecodeInto(DetailsDecoder(s), Msg(NO_DETAILS, []), bs)
  }

  function ReadCertificate(s: Schema, bs: seq<byte>): Option<Certificate> {
    DecodeInto(CertificateDecoder(s), Msg(NO_CERTIFICATE, []), bs)
  }

  /* ----- CertificateDetails: field 7 is new and touches nothing else ----- */

  /** Both readers hold the same fields, and the older has no ocsp_details. */
  ghost predicate SameDetails(j: DetailsFields, k: DetailsFields) {
    j == k && j.ocspDetails.None? && forall x <- j.subjectAltNames :: x.Some? && SanOk(x)
  }

  lemma SanRead(p: seq<byte>)
    requires DecodeInto(SanStep, Msg(NO_SAN, []), p).Some?
    ensures SanOk(DecodeInto(SanStep, Msg(NO_SAN, []), p))
  {
    hide UnknownTo, DecodeInto;
    DecodedUnknown(SanStep, NO_SAN, p);
  }

  lemma DetailsFollow()
    ensures Follows(DetailsDecoder(V2alpha), DetailsDecoder(V3), SameDetails)
  {
    hide DecodeInto, SanOk;
    forall j, k, r | SameDetails(j, k) && DetailsDecoder(V2alpha)(j, r) != Unrecognised
      && DetailsDecoder(V3)(k, r) != Malformed
      ensures DetailsDecoder(V2alpha)(j, r).Updated? && DetailsDecoder(V3)(k, r).Updated?
      ensures SameDetails(DetailsDecoder(V2alpha)(j, r).fields, DetailsDecoder(V3)(k, r).fields)
    {
      if r.Len? && r.num == 3 {
        SanRead(r.payload);
      }
    }
  }

  lemma DetailsExtend()
    ensures Extends(DetailsDecoder(V2alpha), DetailsDecoder(V3), SameDetails)
  {
    hide DecodeInto, SanOk, Follows;
    DetailsFollow();
  }

  lemma DetailsSeen(j: DetailsFields, unknownFields: seq<byte>)
    requires SameDetails(j, j) && |EncodeFields(DetailsLayout(j), unknownFields)| <= MAX_INT
    ensures Absorb(DetailsDecoder(V3), NO_DETAILS, Flatten(DetailsLayout(j))) == Some(j)
  {
    hide Absorb, Flatten, DetailsLayout, EncodeFields, SanOk, MergeDetails, UnknownTo;
    var fs := DetailsLayout(j);
    EncodeFieldsFlat(fs, unknownFields);
    EncodeFieldsFlat(fs, []);
    NothingUnknown(DetailsDecoder(V3));
    DetailsAbsorbs(V3, NO_DETAILS, Msg(j, []));
    MergeDetailsFromEmpty(j);
    MapFixed(NormaliseSan, j.subjectAltNames);
  }

  lemma DetailsRelayed(p: seq<byte>)
    requires ReadDetails(V3, p).Some?
    ensures ReadDetails(V2alpha, p).Some? && DetailsOk(V2alpha, ReadDetails(V2alpha, p))
    ensures |EncodeDetails(ReadDetails(V2alpha, p))| <= MAX_INT ==>
      ReadDetails(V3, EncodeDetails(ReadDetails(V2alpha, p))) == ReadDetails(V3, p)
  {
    hide DecodeInto, Extends, DetailsDecoder, DetailsLayout, UnknownTo, SanOk, DecodeTokens, EncodeFields, Absorb,
      Flatten;
    DetailsExtend();
    TracksEmpty(DetailsDecoder(V2alpha), DetailsDecoder(V3), SameDetails, NO_DETAILS);
    var j := KeepsTrackOfBytes(DetailsDecoder(V2alpha), DetailsDecoder(V3), SameDetails,
                               Msg(NO_DETAILS, []), Msg(NO_DETAILS, []), NO_DETAILS, p);
    var held := ReadDetails(V2alpha, p).value;
    if |EncodeDetails(Some(held))| <= MAX_INT {
      DetailsSeen(j, held.unknownFields);
      DetailsNoGroups(j);
      ReadsTheSame(DetailsDecoder(V2alpha), DetailsDecoder(V3), SameDetails,
                   held, ReadDetails(V3, p).value, NO_DETAILS, j, DetailsLayout(j));
    }
  }

  /* ----- Certificate: no new fields, but elements that the two hold differently ----- */

  /** An element as the older reader holds it, and as the newer one reads it. */
  ghost predicate DetailsPair(x: Option<CertificateDetails>, y: Option<CertificateDetails>) {
    && x.Some? && y.Some? && DetailsOk(V2alpha, x)
    && (|EncodeDetails(x)| <= MAX_INT ==> ReadDetails(V3, EncodeDetails(x)) == y)
  }

  ghost predicate SameCertificate(j: CertificateFields, k: CertificateFields) {
    Pairwise(DetailsPair, j.caCert, k.caCert) && Pairwise(DetailsPair, j.certChain, k.certChain)
  }

  lemma CertificateFollow()
    ensures Follows(CertificateDecoder(V2alpha), CertificateDecoder(V3), SameCertificate)
  {
    hide DecodeInto, DetailsOk, EncodeDetails, DetailsDecoder;
    forall j, k, r | SameCertificate(j, k) && CertificateDecoder(V2alpha)(j, r) != Unrecognised
      && CertificateDecoder(V3)(k, r) != Malformed
      ensures CertificateDecoder(V2alpha)(j, r).Updated? && CertificateDecoder(V3)(k, r).Updated?
      ensures SameCertificate(CertificateDecoder(V2alpha)(j, r).fields, CertificateDecoder(V3)(k, r).fields)
    {
      DetailsRelayed(r.payload);
    }
  }

  lemma CertificateExtend()
    ensures Extends(CertificateDecoder(V2alpha), CertificateDecoder(V3), SameCertificate)
  {
    hide DecodeInto, Follows, SameCertificate;
    CertificateFollow();
  }

  lemma CertificateSeen(j: CertificateFields, k: CertificateFields, unknownFields: seq<byte>)
    requires SameCertificate(j, k) && |EncodeFields(CertificateLayout(j), unknownFields)| <= MAX_INT
    ensures Absorb(CertificateDecoder(V3), NO_CERTIFICATE, Flatten(CertificateLayout(j))) == Some(k)
  {
    hide EncodeRecords, EncodeFields, DecodeInto, Absorb, Flatten, RepeatedField, EncodeDetails, DetailsPair;
    var fs, step := CertificateLayout(j), CertificateDecoder(V3);
    FieldFits(fs, unknownFields, 0);
    FieldFits(fs, unknownFields, 1);
    var k1 := CertificateFields(k.caCert, []);
    DetailsListSeen(1, ys => CertificateFields(ys, []), j.caCert, k.caCert);
    DetailsListSeen(2, ys => k1.(certChain := ys), j.certChain, k.certChain);
    AbsorbFields(step, fs, [NO_CERTIFICATE, k1, k]);
  }

  lemma DetailsListSeen(num: FieldNumber, put: seq<Option<CertificateDetails>> -> CertificateFields,
                        xs: seq<Option<CertificateDetails>>, ys: seq<Option<CertificateDetails>>)
    requires Pairwise(DetailsPair, xs, ys)
    requires |EncodeRecords(RepeatedField(num, Map(EncodeDetails, xs)))| <= MAX_INT
    requires forall p, zs | ReadDetails(V3, p).Some? ::
      CertificateDecoder(V3)(put(zs), Len(num, p)) == Updated(put(zs + [ReadDetails(V3, p)]))
    ensures Absorb(CertificateDecoder(V3), put([]), RepeatedField(num, Map(EncodeDetails, xs))) == Some(put(ys))
  {
    hide EncodeRecords, DecodeInto, Absorb, RepeatedField, EncodeDetails, ReadDetails, DetailsOk, CertificateDecoder;
    forall i, zs | 0 <= i < |xs|
      ensures CertificateDecoder(V3)(put(zs), Len(num, EncodeDetails(xs[i]))) == Updated(put(zs + [ys[i]]))
    {
      RepeatedPayloadFits(num, Map(EncodeDetails, xs), i);
    }
    AbsorbElements(CertificateDecoder(V3), put, [], num, xs, ys, EncodeDetails);
    assert [] + ys == ys;
  }

  lemma CertificateRelayed(p: seq<byte>)
    requires ReadCertificate(V3, p).Some?
    ensures ReadCertificate(V2alpha, p).Some? && CertificateOk(V2alpha, ReadCertificate(V2alpha, p))
    ensures |EncodeCertificate(ReadCertificate(V2alpha, p))| <= MAX_INT ==>
      ReadCertificate(V3, EncodeCertificate(ReadCertificate(V2alpha, p))) == ReadCertificate(V3, p)
  {
    hide DecodeInto, Extends, CertificateDecoder, UnknownTo, DetailsOk, DecodeTokens, EncodeFields, Absorb, Flatten,
      EncodeDetails, ReadDetails;
    CertificateExtend();
    TracksEmpty(CertificateDecoder(V2alpha), CertificateDecoder(V3), SameCertificate, NO_CERTIFICATE);
    var j := KeepsTrackOfBytes(CertificateDecoder(V2alpha), CertificateDecoder(V3), SameCertificate,
                               Msg(NO_CERTIFICATE, []), Msg(NO_CERTIFICATE, []), NO_CERTIFICATE, p);
    var held := ReadCertificate(V2alpha, p).value;
    if |EncodeCertificate(Some(held))| <= MAX_INT {
      CertificateSeen(held.fields, j, held.unknownFields);
      RepeatedNoGroups(1, Map(EncodeDetails, held.fields.caCert));
      RepeatedNoGroups(2, Map(EncodeDetails, held.fields.certChain));
      ReadsTheSame(CertificateDecoder(V2alpha), CertificateDecoder(V3), SameCertificate,
                   held, ReadCertificate(V3, p).value, NO_CERTIFICATE, j, CertificateLayout(held.fields));
    }
  }

  /* ----- Certificates ----- */

  ghost predicate CertificatePair(x: Option<Certificate>, y: Option<Certificate>) {
    && x.Some? && y.Some? && CertificateOk(V2alpha, x)
    && (|EncodeCertificate(x)| <= MAX_INT ==> ReadCertificate(V3, EncodeCertificate(x)) == y)
  }

  ghost predicate SameCertificates(j: CertificatesFields, k: CertificatesFields) {
    Pairwise(CertificatePair, j.certificates, k.certificates)
  }

  lemma CertificatesExtend()
    ensures Extends(CertificatesDecoder(V2alpha), CertificatesDecoder(V3), SameCertificates)
  {
    hide DecodeInto, CertificateOk, EncodeCertificate, CertificateDecoder;
    forall j, k, r | SameCertificates(j, k) && CertificatesDecoder(V2alpha)(j, r) != Unrecognised
      && CertificatesDecoder(V3)(k, r) != Malformed
      ensures CertificatesDecoder(V2alpha)(j, r).Updated? && CertificatesDecoder(V3)(k, r).Updated?
      ensures SameCertificates(CertificatesDecoder(V2alpha)(j, r).fields, CertificatesDecoder(V3)(k, r).fields)
    {
      CertificateRelayed(r.payload);
    }
  }

  lemma CertificatesSeen(j: CertificatesFields, k: CertificatesFields, unknownFields: seq<byte>)
    requires SameCertificates(j, k) && |EncodeFields(CertificatesLayout(j), unknownFields)| <= MAX_INT
    ensures Absorb(CertificatesDecoder(V3), NO_CERTIFICATES, Flatten(CertificatesLayout(j))) == Some(k)
  {
    hide EncodeRecords, EncodeFields, DecodeInto, Absorb, Flatten, RepeatedField, EncodeCertificate, CertificateOk;
    var fs, xs, ys, step := CertificatesLayout(j), j.certificates, k.certificates, CertificatesDecoder(V3);
    FieldFits(fs, unknownFields, 0);
    var put := (zs: seq<Option<Certificate>>) => CertificatesFields(zs);
    forall i, zs | 0 <= i < |xs| ensures step(put(zs), Len(1, EncodeCertificate(xs[i]))) == Updated(put(zs + [ys[i]])) {
      RepeatedPayloadFits(1, Map(EncodeCertificate, xs), i);
      assert CertificatePair(xs[i], ys[i]);
    }
    AbsorbElements(step, put, [], 1, xs, ys, EncodeCertificate);
    assert [] + ys == ys;
    AbsorbFields(step, fs, [NO_CERTIFICATES, k]);
  }

  /** The bytes a v2alpha peer writes for what it read. */
  function Relayed(bs: seq<byte>): seq<byte> {
    EncodeCertificates(DecodeCertificates(V2alpha, bs))
  }

  /**
   * Whatever v3 accepts, v2alpha accepts and can write out again; and v3 reads the result as it
   * reads the original, however the records were ordered, split, repeated or encoded.
   */
  lemma RelayPreservesMeaning(bs: seq<byte>)
    requires DecodeCertificates(V3, bs).Some?
    ensures DecodeCertificates(V2alpha, bs).Some? && CertificatesOk(V2alpha, DecodeCertificates(V2alpha, bs))
    ensures |Relayed(bs)| <= MAX_INT ==> DecodeCertificates(V3, Relayed(bs)) == DecodeCertificates(V3, bs)
  {
    hide DecodeInto, Extends, CertificatesDecoder, UnknownTo, CertificateOk, DecodeTokens, EncodeFields, Absorb,
      Flatten, EncodeCertificate, ReadCertificate;
    CertificatesExtend();
    TracksEmpty(CertificatesDecoder(V2alpha), CertificatesDecoder(V3), SameCertificates, NO_CERTIFICATES);
    var j := KeepsTrackOfBytes(CertificatesDecoder(V2alpha), CertificatesDecoder(V3), SameCertificates,
                               Msg(NO_CERTIFICATES, []), Msg(NO_CERTIFICATES, []), NO_CERTIFICATES, bs);
    var held := DecodeCertificates(V2alpha, bs).value;
    if |Relayed(bs)| <= MAX_INT {
      CertificatesSeen(held.fields, j, held.unknownFields);
      RepeatedNoGroups(1, Map(EncodeCertificate, held.fields.certificates));
      ReadsTheSame(CertificatesDecoder(V2alpha), CertificatesDecoder(V3), SameCertificates,
                   held, DecodeCertificates(V3, bs).value, NO_CERTIFICATES, j, CertificatesLayout(held.fields));
    }
  }
}
