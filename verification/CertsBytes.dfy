/** The certificates tree as bytes: every field under its literal key, in the order of the output. */
module CertsBytes {
  import opened GoTypes
  import opened Wire
  import opened Messages
  import opened Certs
  import opened FieldBytes

  /** ValidFrom and then Expiration, nothing for a nil one. */
  lemma OcspInBytes(m: OcspDetails)
    ensures
      var k := m.fields;
      EncodeOcsp(m) ==
        MessageBytes([0xa], k.validFrom) + MessageBytes([0x12], k.expiration) + m.unknownFields
    ensures NumbersSorted(Flatten(OcspLayout(m.fields)))
  {
    hide Key, MessageBytes, OptionalField, EncodeRecords, EncodeFields, Flatten, Numbered, Join;
    var k := m.fields;
    OneByteKeys();
    MessageEmits(1, [0xa], k.validFrom);
    MessageEmits(2, [0x12], k.expiration);
    var chunks := Chunks(OcspLayout(k), m.unknownFields);
    assert chunks == [MessageBytes([0xa], k.validFrom), MessageBytes([0x12], k.expiration)];
    JoinTwo(MessageBytes([0xa], k.validFrom), MessageBytes([0x12], k.expiration));
  }

  /** The member that is set, empty or not, and nothing when none is. */
  lemma SanInBytes(m: SubjectAlternateName)
    ensures
      var member := match m.fields.name
        case Unset => []
        case Dns(s) => Prefixed([0xa], s)
        case Uri(s) => Prefixed([0x12], s)
        case IpAddress(s) => Prefixed([0x1a], s);
      EncodeSan(Some(m)) == member + m.unknownFields
    ensures NumbersSorted(Flatten(SanLayout(m.fields)))
  {
    hide Key, EncodeRecords, EncodeFields, Flatten, MessageBytes, Numbered, Join;
    var name := m.fields.name;
    OneByteKeys();
    var dns := if name.Dns? then Some(name.dns) else None;
    var uri := if name.Uri? then Some(name.uri) else None;
    var ip := if name.IpAddress? then Some(name.ipAddress) else None;
    MessageEmits(1, [0xa], dns);
    MessageEmits(2, [0x12], uri);
    MessageEmits(3, [0x1a], ip);
    var chunks := Chunks(SanLayout(m.fields), m.unknownFields);
    assert chunks == [MessageBytes([0xa], dns), MessageBytes([0x12], uri), MessageBytes([0x1a], ip)];
    OnlyMember(name);
  }

  lemma OnlyMember(name: Name)
    ensures
      var dns := if name.Dns? then Some(name.dns) else None;
      var uri := if name.Uri? then Some(name.uri) else None;
      var ip := if name.IpAddress? then Some(name.ipAddress) else None;
      Join([MessageBytes([0xa], dns), MessageBytes([0x12], uri), MessageBytes([0x1a], ip)]) ==
        match name
        case Unset => []
        case Dns(s) => Prefixed([0xa], s)
        case Uri(s) => Prefixed([0x12], s)
        case IpAddress(s) => Prefixed([0x1a], s)
  {
    hide Prefixed;
    var dns := if name.Dns? then Some(name.dns) else None;
    var uri := if name.Uri? then Some(name.uri) else None;
    var ip := if name.IpAddress? then Some(name.ipAddress) else None;
    var chunks := [MessageBytes([0xa], dns), MessageBytes([0x12], uri), MessageBytes([0x1a], ip)];
    assert chunks[1..] == [chunks[1], chunks[2]];
    JoinTwo(chunks[1], chunks[2]);
  }

  lemma DetailsInBytes(m: CertificateDetails) returns (chunks: seq<Bytes>)
    ensures EncodeDetails(Some(m)) == Join(chunks) + m.unknownFields
    ensures
      var k := m.fields;
      chunks == [
        StringBytes([0xa], k.path),
        StringBytes([0x12], k.serialNumber),
        ElementBytes([0x1a], Map(EncodeSan, k.subjectAltNames)),
        NumberBytes([0x20], k.daysUntilExpiration),
        MessageBytes([0x2a], k.validFrom),
        MessageBytes([0x32], k.expirationTime),
        MessageBytes([0x3a], MapOption(EncodeOcsp, k.ocspDetails))]
    ensures NumbersSorted(Flatten(DetailsLayout(m.fields)))
  {
    hide Key, ElementBytes, MessageBytes, NumberBytes, StringBytes, OptionalField, RepeatedField, StringField,
      VarintField, EncodeRecords, EncodeFields, Flatten, Numbered, Join, EncodeSan, EncodeOcsp, MapOption, Map;
    var k := m.fields;
    OneByteKeys();
    StringEmits(1, [0xa], k.path);
    StringEmits(2, [0x12], k.serialNumber);
    ElementsEmit(3, [0x1a], Map(EncodeSan, k.subjectAltNames));
    NumberEmits(4, [0x20], k.daysUntilExpiration);
    MessageEmits(5, [0x2a], k.validFrom);
    MessageEmits(6, [0x32], k.expirationTime);
    MessageEmits(7, [0x3a], MapOption(EncodeOcsp, k.ocspDetails));
    var fs := DetailsLayout(k);
    forall i | 0 <= i < |fs| ensures Numbered(fs[i], i + 1) {
      assert i in {0, 1, 2, 3, 4, 5, 6};
    }
    chunks := Chunks(fs, m.unknownFields);
  }

  lemma CertificateInBytes(m: Certificate)
    ensures
      var k := m.fields;
      EncodeCertificate(Some(m)) ==
        ElementBytes([0xa], Map(EncodeDetails, k.caCert)) + ElementBytes([0x12], Map(EncodeDetails, k.certChain)) +
          m.unknownFields
    ensures NumbersSorted(Flatten(CertificateLayout(m.fields)))
  {
    hide Key, ElementBytes, RepeatedField, EncodeRecords, EncodeFields, Flatten, Numbered, Join, EncodeDetails, Map;
    var k := m.fields;
    OneByteKeys();
    ElementsEmit(1, [0xa], Map(EncodeDetails, k.caCert));
    ElementsEmit(2, [0x12], Map(EncodeDetails, k.certChain));
    var chunks := Chunks(CertificateLayout(k), m.unknownFields);
    assert chunks ==
      [ElementBytes([0xa], Map(EncodeDetails, k.caCert)), ElementBytes([0x12], Map(EncodeDetails, k.certChain))];
    JoinTwo(ElementBytes([0xa], Map(EncodeDetails, k.caCert)), ElementBytes([0x12], Map(EncodeDetails, k.certChain)));
  }

  lemma CertificatesInBytes(m: Certificates)
    ensures
      var k := m.fields;
      EncodeCertificates(Some(m)) ==
        ElementBytes([0xa], Map(EncodeCertificate, k.certificates)) + m.unknownFields
    ensures NumbersSorted(Flatten(CertificatesLayout(m.fields)))
  {
    hide Key, ElementBytes, RepeatedField, EncodeRecords, EncodeFields, Flatten, Numbered, Join, EncodeCertificate, Map;
    var k := m.fields;
    OneByteKeys();
    ElementsEmit(1, [0xa], Map(EncodeCertificate, k.certificates));
    var chunks := Chunks(CertificatesLayout(k), m.unknownFields);
    assert chunks == [ElementBytes([0xa], Map(EncodeCertificate, k.certificates))];
    JoinOne(ElementBytes([0xa], Map(EncodeCertificate, k.certificates)));
  }

  /** OcspDetails with both timestamps present and empty: field 1, then field 2. */
  lemma EmptyTimestamps()
    ensures EncodeOcsp(Msg(OcspFields(Some([]), Some([])), [])) == [0xa, 0, 0x12, 0]
  {
    OcspInBytes(Msg(OcspFields(Some([]), Some([])), []));
  }
}
