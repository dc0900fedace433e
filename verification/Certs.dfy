/**
 * Certificates > Certificate > CertificateDetails > SubjectAlternateName / OcspDetails:
 * the message types, their forward encoding, and the decoder and merge the wire format specifies.
 * The v2alpha messages are the v3 ones without ocsp_details (field 7).
 */
module Certs {
  import opened GoTypes
  import opened Wire
  import opened Messages

  type Timestamp = seq<byte>  // opaque: the bytes its own marshaller writes

  datatype OcspFields = OcspFields(validFrom: Option<Timestamp>, expiration: Option<Timestamp>)
  type OcspDetails = Msg<OcspFields>

  /** The oneof `Name`. */
  datatype Name = Unset | Dns(dns: seq<byte>) | Uri(uri: seq<byte>) | IpAddress(ipAddress: seq<byte>)
  datatype SanFields = SanFields(name: Name)
  type SubjectAlternateName = Msg<SanFields>

  datatype DetailsFields = DetailsFields(
    path: seq<byte>,
    serialNumber: seq<byte>,
    subjectAltNames: seq<Option<SubjectAlternateName>>,
    daysUntilExpiration: uint64,
    validFrom: Option<Timestamp>,
    expirationTime: Option<Timestamp>,
    ocspDetails: Option<OcspDetails>)
  type CertificateDetails = Msg<DetailsFields>

  datatype CertificateFields = CertificateFields(
    caCert: seq<Option<CertificateDetails>>,
    certChain: seq<Option<CertificateDetails>>)
  type Certificate = Msg<CertificateFields>

  datatype CertificatesFields = CertificatesFields(certificates: seq<Option<Certificate>>)
  type Certificates = Msg<CertificatesFields>

  const NO_OCSP: OcspFields := OcspFields(None, None)
  const NO_SAN: SanFields := SanFields(Unset)
  const NO_DETAILS: DetailsFields := DetailsFields([], [], [], 0, None, None, None)
  const NO_CERTIFICATE: CertificateFields := CertificateFields([], [])
  const NO_CERTIFICATES: CertificatesFields := CertificatesFields([])

  /* ----- forward encoding: the fields by increasing number ----- */

  function OcspLayout(k: OcspFields): seq<seq<Record>> {
    [OptionalField(1, k.validFrom), OptionalField(2, k.expiration)]
  }

  function EncodeOcsp(m: OcspDetails): seq<byte> {
    EncodeFields(OcspLayout(m.fields), m.unknownFields)
  }

  function EncodeOcspOrNil(m: Option<OcspDetails>): seq<byte> {
    if m.None? then [] else EncodeOcsp(m.value)
  }

  function SanLayout(k: SanFields): seq<seq<Record>> {
    [ if k.name.Dns? then [Len(1, k.name.dns)] else [],
      if k.name.Uri? then [Len(2, k.name.uri)] else [],
      if k.name.IpAddress? then [Len(3, k.name.ipAddress)] else [] ]
  }

  function EncodeSan(m: Option<SubjectAlternateName>): seq<byte> {
    if m.None? then [] else EncodeFields(SanLayout(m.value.fields), m.value.unknownFields)
  }

  function DetailsLayout(k: DetailsFields): seq<seq<Record>> {
    [ StringField(1, k.path),
      StringField(2, k.serialNumber),
      RepeatedField(3, Map(EncodeSan, k.subjectAltNames)),
      VarintField(4, k.daysUntilExpiration),
      OptionalField(5, k.validFrom),
      OptionalField(6, k.expirationTime),
      OptionalField(7, MapOption(EncodeOcsp, k.ocspDetails)) ]
  }

  lemma DetailsLayoutAt(k: DetailsFields)
    ensures |DetailsLayout(k)| == 7
    ensures DetailsLayout(k)[0] == StringField(1, k.path)
    ensures DetailsLayout(k)[1] == StringField(2, k.serialNumber)
    ensures DetailsLayout(k)[2] == RepeatedField(3, Map(EncodeSan, k.subjectAltNames))
    ensures DetailsLayout(k)[3] == VarintField(4, k.daysUntilExpiration)
    ensures DetailsLayout(k)[4] == OptionalField(5, k.validFrom)
    ensures DetailsLayout(k)[5] == OptionalField(6, k.expirationTime)
    ensures DetailsLayout(k)[6] == OptionalField(7, MapOption(EncodeOcsp, k.ocspDetails))
  {
    hide StringField, RepeatedField, VarintField, OptionalField, MapOption, Map;
  }

  function EncodeDetails(m: Option<CertificateDetails>): seq<byte> {
    if m.None? then [] else EncodeFields(DetailsLayout(m.value.fields), m.value.unknownFields)
  }

  function CertificateLayout(k: CertificateFields): seq<seq<Record>> {
    [ RepeatedField(1, Map(EncodeDetails, k.caCert)),
      RepeatedField(2, Map(EncodeDetails, k.certChain)) ]
  }

  function EncodeCertificate(m: Option<Certificate>): seq<byte> {
    if m.None? then [] else EncodeFields(CertificateLayout(m.value.fields), m.value.unknownFields)
  }

  function CertificatesLayout(k: CertificatesFields): seq<seq<Record>> {
    [RepeatedField(1, Map(EncodeCertificate, k.certificates))]
  }

  function EncodeCertificates(m: Option<Certificates>): seq<byte> {
    if m.None? then [] else EncodeFields(CertificatesLayout(m.value.fields), m.value.unknownFields)
  }

  /* ----- the specification decoder ----- */

  function OcspStep(k: OcspFields, r: Record): Outcome<OcspFields> {
    match r
    case Len(1, p) => Updated(k.(validFrom := MergeOpaque(k.validFrom, Some(p))))
    case Len(2, p) => Updated(k.(expiration := MergeOpaque(k.expiration, Some(p))))
    case _ => Unrecognised
  }

  function SanStep(k: SanFields, r: Record): Outcome<SanFields> {
    match r
    case Len(1, p) => Updated(k.(name := Dns(p)))
    case Len(2, p) => Updated(k.(name := Uri(p)))
    case Len(3, p) => Updated(k.(name := IpAddress(p)))
    case _ => Unrecognised
  }

  function DetailsStep(s: Schema, k: DetailsFields, r: Record): Outcome<DetailsFields> {
    match r
    case Len(1, p) => Updated(k.(path := p))
    case Len(2, p) => Updated(k.(serialNumber := p))
    case Len(3, p) =>
      (match DecodeInto(SanStep, Msg(NO_SAN, []), p)
       case Some(x) => Updated(k.(subjectAltNames := k.subjectAltNames + [Some(x)]))
       case None => Malformed)
    case Varint(4, v) => Updated(k.(daysUntilExpiration := v))
    case Len(5, p) => Updated(k.(validFrom := MergeOpaque(k.validFrom, Some(p))))
    case Len(6, p) => Updated(k.(expirationTime := MergeOpaque(k.expirationTime, Some(p))))
    case Len(7, p) =>
      if s.V2alpha? then Unrecognised
      else
        (match DecodeInto(OcspStep, k.ocspDetails.GetOr(Msg(NO_OCSP, [])), p)
         case Some(x) => Updated(k.(ocspDetails := Some(x)))
         case None => Malformed)
    case _ => Unrecognised
  }

  function DetailsDecoder(s: Schema): (DetailsFields, Record) -> Outcome<DetailsFields> {
    (k, r) => DetailsStep(s, k, r)
  }

  function CertificateStep(s: Schema, k: CertificateFields, r: Record): Outcome<CertificateFields> {
    match r
    case Len(1, p) =>
      (match DecodeInto(DetailsDecoder(s), Msg(NO_DETAILS, []), p)
       case Some(x) => Updated(k.(caCert := k.caCert + [Some(x)]))
       case None => Malformed)
    case Len(2, p) =>
      (match DecodeInto(DetailsDecoder(s), Msg(NO_DETAILS, []), p)
       case Some(x) => Updated(k.(certChain := k.certChain + [Some(x)]))
       case None => Malformed)
    case _ => Unrecognised
  }

  function CertificateDecoder(s: Schema): (CertificateFields, Record) -> Outcome<CertificateFields> {
    (k, r) => CertificateStep(s, k, r)
  }

  function CertificatesStep(s: Schema, k: CertificatesFields, r: Record): Outcome<CertificatesFields> {
    match r
    case Len(1, p) =>
      (match DecodeInto(CertificateDecoder(s), Msg(NO_CERTIFICATE, []), p)
       case Some(x) => Updated(k.(certificates := k.certificates + [Some(x)]))
       case None => Malformed)
    case _ => Unrecognised
  }

  function CertificatesDecoder(s: Schema): (CertificatesFields, Record) -> Outcome<CertificatesFields> {
    (k, r) => CertificatesStep(s, k, r)
  }

  function DecodeCertificates(s: Schema, bs: seq<byte>): Option<Certificates> {
    DecodeInto(CertificatesDecoder(s), Msg(NO_CERTIFICATES, []), bs)
  }

  /* ----- what survives the wire: a nil element of a repeated field reads back as an empty message ----- */

  function NormaliseSan(m: Option<SubjectAlternateName>): Option<SubjectAlternateName> {
    Some(m.GetOr(Msg(NO_SAN, [])))
  }

  function NormaliseDetailsFields(k: DetailsFields): DetailsFields {
    k.(subjectAltNames := Map(NormaliseSan, k.subjectAltNames))
  }

  function NormaliseDetails(m: Option<CertificateDetails>): Option<CertificateDetails> {
    var d := m.GetOr(Msg(NO_DETAILS, []));
    Some(d.(fields := NormaliseDetailsFields(d.fields)))
  }

  function NormaliseCertificateFields(k: CertificateFields): CertificateFields {
    CertificateFields(Map(NormaliseDetails, k.caCert), Map(NormaliseDetails, k.certChain))
  }

  function NormaliseCertificate(m: Option<Certificate>): Option<Certificate> {
    var d := m.GetOr(Msg(NO_CERTIFICATE, []));
    Some(d.(fields := NormaliseCertificateFields(d.fields)))
  }

  function NormaliseCertificates(m: Option<Certificates>): Certificates {
    var d := m.GetOr(Msg(NO_CERTIFICATES, []));
    d.(fields := CertificatesFields(Map(NormaliseCertificate, d.fields.certificates)))
  }

  /* ----- merging b into a ----- */

  function MergeOcsp(a: OcspFields, b: OcspFields): OcspFields {
    OcspFields(MergeOpaque(a.validFrom, b.validFrom), MergeOpaque(a.expiration, b.expiration))
  }

  function MergeSan(a: SanFields, b: SanFields): SanFields {
    if b.name.Unset? then a else b
  }

  function MergeDetails(a: DetailsFields, b: DetailsFields): DetailsFields {
    DetailsFields(
      LastNonDefault([], a.path, b.path),
      LastNonDefault([], a.serialNumber, b.serialNumber),
      a.subjectAltNames + Map(NormaliseSan, b.subjectAltNames),
      LastNonDefault(0, a.daysUntilExpiration, b.daysUntilExpiration),
      MergeOpaque(a.validFrom, b.validFrom),
      MergeOpaque(a.expirationTime, b.expirationTime),
      MergeOptional(MergeOcsp, NO_OCSP, a.ocspDetails, b.ocspDetails))
  }

  function MergeCertificate(a: CertificateFields, b: CertificateFields): CertificateFields {
    CertificateFields(a.caCert + Map(NormaliseDetails, b.caCert), a.certChain + Map(NormaliseDetails, b.certChain))
  }

  function MergeCertificates(a: CertificatesFields, b: CertificatesFields): CertificatesFields {
    CertificatesFields(a.certificates + Map(NormaliseCertificate, b.certificates))
  }

  /* ----- messages of a schema: unknown bytes are unknown to it at every level ----- */

  ghost predicate OcspOk(m: Option<OcspDetails>) {
    m.Some? ==> UnknownTo(OcspStep, m.value.unknownFields)
  }

  ghost predicate SanOk(m: Option<SubjectAlternateName>) {
    m.Some? ==> UnknownTo(SanStep, m.value.unknownFields)
  }

  ghost predicate DetailsOk(s: Schema, m: Option<CertificateDetails>) {
    m.Some? ==>
      && UnknownTo(DetailsDecoder(s), m.value.unknownFields)
      && (forall x <- m.value.fields.subjectAltNames :: SanOk(x))
      && OcspOk(m.value.fields.ocspDetails)
      && (s.V2alpha? ==> m.value.fields.ocspDetails.None?)
  }

  ghost predicate CertificateOk(s: Schema, m: Option<Certificate>) {
    m.Some? ==>
      && UnknownTo(CertificateDecoder(s), m.value.unknownFields)
      && (forall x <- m.value.fields.caCert :: DetailsOk(s, x))
      && (forall x <- m.value.fields.certChain :: DetailsOk(s, x))
  }

  ghost predicate CertificatesOk(s: Schema, m: Option<Certificates>) {
    m.Some? ==>
      && UnknownTo(CertificatesDecoder(s), m.value.unknownFields)
      && (forall x <- m.value.fields.certificates :: CertificateOk(s, x))
  }
}
