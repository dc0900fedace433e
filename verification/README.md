# Wire-format marshallers and validators of the Envoy API messages

A Dafny model of the generated fast marshallers (`*_vtproto.pb.go`) and of one tree of generated
validators, with proofs about them.

A marshaller fills its buffer backwards: unknown bytes first, then the fields from the highest
number to the lowest, each as payload, length and key; repeated fields from last to first;
submessages in place, into the prefix of the slice their parent hands down. `SizeVT` is a separate
recursion that must agree with it at every level. The project proves that each writer produces
exactly a pure forward encoding and touches nothing else, that sizes and writes agree, and that the
bytes mean what the wire format says they mean: they round-trip through a decoder, concatenation of
encodings is merge, and a peer with the older schema passes on unchanged what a v3 marshaller wrote. For
any other bytes that v3 accepts, what the peer writes reads in v3 as the original does over the
certificates tree, and over the clusters tree exactly as far as each child keeps its meaning on the
way; the children that do not are negative-zero Percents and such as an Address (below). The decoder is a
specification written from the Protocol Buffers Encoding document (sections "Base 128 Varints",
"Message Structure", "Length-Delimited Records", "Submessages" and "Last One Wins"); the varint
helpers, imported by the generated code from another module, are implemented from the first of them.

| file | content |
|---|---|
| `GoTypes.dfy` | Go integers and conversions, nil as `Option` |
| `Varint.dfy`, `Wire.dfy` | varints, records, and a parser of all wire types, groups included |
| `Messages.dfy` | known fields beside unknown bytes, forward encoding, decoding, the laws all messages share |
| `Buffer.dfy` | the in-place writers of single fields, and the size of single fields |
| `FieldBytes.dfy`, `*Bytes.dfy` | every message as bytes: each field under its literal key, in the order of the output |
| `LastOneWins.dfy` | what reading an encoding on top of an earlier message does to each field |
| `Certs*.dfy` | the certificates tree: types and decoder, marshallers, laws |
| `ServerInfo*.dfy` | ServerInfo and the 27 fields of CommandLineOptions |
| `EnvoyType.dfy` | ranges, percents, hash policy |
| `Doubles.dfy` | what the bits of a double mean, for the comparisons with 0 and 100 |
| `Clusters*.dfy` | the clusters tree, with children that other packages marshal; with its Percents as messages (`ClustersPercents.dfy`) |
| `*MarshalV2alpha.dfy` | the v2alpha marshallers of both trees |
| `Relay.dfy`, `*Relay.dfy`, `*Skew.dfy` | a v2alpha peer between v3 peers: the general argument, both trees, Percents included |
| `Frugal.dfy`, `CertsSize.dfy` | re-encoding is never longer, and so over the certificates tree |
| `ClustersChildren.dfy`, `ClustersLive.dfy` | replacing the children of a tree; live children, the marshallers on them, and the relay as a program |
| `Addresses.dfy` | the oneof of Address, a child that does not keep its meaning |
| `Validate.dfy`, `ValidateLaws.dfy` | the validators of the clusters tree |

Reading the model:

- A slice `dAtA[:i]` is the array with the end index `i`. `Splice(buf, end, out)` is `buf` with `out`
  written just before `end`; a writer's postcondition `dAtA[..] == Splice(old(dAtA[..]), end, ...)`
  is at once its result, its frame and the absence of negative indexes.
- The few statements that the generator repeats for every field are methods of `Buffer`
  (`PutString`, `PutBool`, ...), called with the literal key bytes of the source; their ghost
  arguments say which field of the forward encoding they write. `CommandLineOptions` is written in
  two halves, split where keys grow to two bytes.
- A nil pointer is `None`. A double is its 64 bits, and `!= 0`, `< 0` and `> 100` are predicates on them.
- A message type of another package is represented by the bytes its own marshaller writes; decoding
  it is the identity and merging it is concatenation. In `ClustersMarshal` such a child also says
  which of the two routes it takes, whether it fails, and which size it declares; no agreement
  between the two is assumed except in `MixedChildren`.
  In `ClustersPercents` the Percents of the tree are messages: each occurrence must be a sequence of
  records, and the bytes collected are what decoding each occurrence into the Percent read so far gives
  (`CollectingIsMerging`). In the relay laws an opaque child goes through the relay's own codec for it, a
  function on its bytes about which nothing is assumed; what v3 takes the bytes to mean is another.
- The v2alpha messages are the v3 ones with the added fields at their zero values; the decoder takes
  the schema as an argument and does not recognise those fields for v2alpha. The v2alpha marshallers
  require those values (`OlderCertificates`, `OlderClusters`), which is what it means there not to have
  the fields. SubjectAlternateName, and the field helpers, are the same text in both versions.
- Where `SizeVT` declares too little, Go indexes below 0 and panics. `ClustersMarshal.MarshalVTStrict`
  runs on a buffer extended below index 0 by as much as is missing, and panics when the run, up to its
  end or to the child that fails, has used the extension. The marshallers' contracts say what is in the
  buffer when a child fails (`HostPlaced`, `ClusterPlaced`, `ClustersPlaced`).
- Preconditions of the marshalling laws: the encoding is no longer than a Go int can say, and
  unknown bytes are well-formed records that the schema does not recognise.

Facts about the code that the proofs bring out:

- `MarshalVTStrict` returns the first n bytes of a buffer whose last n bytes were written. That is
  the encoding exactly when `SizeVT` was right (`StrictOutcome`); a single child that declares too
  little makes the call panic, and one that declares too much makes the result start with a zero
  byte, which no encoding does (`OneChildOutcome`).
- What does not read back as itself is a nil where an empty message would be written the same way (a
  nil element of a repeated field, the nil inside a set HashPolicy wrapper, a nil message passed to
  `MarshalVTStrict` itself), and negative zero, which is not written at all. For each message modelled
  here a lemma says so as an if-and-only-if: `CertsLaws.RoundTripExact`,
  `ClustersPercents.TypedRoundTripExact`, `DoubleRangeRoundTrip`, `PercentRoundTrip`,
  `HashPolicyRoundTrip`; the others, with opaque children taken for their bytes, read back exactly.
- A v2alpha relay changes what v3 reads exactly when some child of the clusters tree comes out of the
  relay's codec with another meaning (`RelayPreservesMeaning`). For Percents that is when one is an
  explicit negative zero, which is read and not written (`TypedRelayExact`, `NegativeZeroIsLost`). For
  Address it is when a member v2 does not know comes before one it knows: the relay writes the known
  one first, and v3 then reads the other (`OneofIsLost`).
- In collecting mode a child is asked for `ValidateAll` and otherwise for `Validate`; in fail-fast
  mode only for `Validate`. A child with the first and not the second would be skipped
  (`SkippedWithoutValidate`).
- A Percent passes validation exactly when it is a number in [0, 100] or NaN, which is neither below 0
  nor above 100 (`PercentAcceptance`, `NaNPasses`).
- Validate is the leftmost path of ValidateAll exactly when the first child in document order that
  reports anything, in either mode, answers the two modes consistently; children after it are masked
  (`FailFastProjectsIff`).

## Model

| member | source | states |
|---|---|---|
| Varint.SizeOfVarint | envoy/type/range_vtproto.pb.go:160-165 | the size helper is the least n >= 1 with v < 128^n |
| Varint.SizeIsLength | envoy/type/range_vtproto.pb.go:160-165 | the size helper agrees with the bytes the writer emits, for every value |
| Varint.SizeOfUint64 | envoy/type/range_vtproto.pb.go:160-165 | a uint64 takes 1 to 10 bytes, and 10 exactly from 2^63 on |
| Varint.DecodeInvertsEncode | envoy/type/range_vtproto.pb.go:53-62 | decoding a varint followed by any bytes gives the value and leaves those bytes |
| Varint.CanonicalIsShortest | envoy/type/range_vtproto.pb.go:53-62 | no byte string that decodes to a value is shorter than the one written |
| Varint.VarintDigit | envoy/type/range_vtproto.pb.go:53-62 | byte i of the varint is digit i of the value to the base 128, plus 128 on every byte but the last |
| Varint.OneFifty | envoy/type/range_vtproto.pb.go:53-62 | 150 is 0x96 0x01, and a padded varint is read all the same |
| GoTypes.LowBitsKept | envoy/type/range_vtproto.pb.go:84-107 | int32, uint32 and int64 of a uint64 keep its low bits: the result is congruent to it modulo 2^32 or 2^64 |
| Buffer.EncodeVarint | envoy/type/range_vtproto.pb.go:53-62 | called with the end offset, writes exactly the varint before it, touches nothing else, and returns the start |
| Buffer.PutUint64 | envoy/type/range_vtproto.pb.go:139-150 | writes the eight bytes of a double, least significant first, and touches nothing else |
| Wire.LittleEndianDigit | envoy/type/range_vtproto.pb.go:139-150 | byte i of the eight is digit i of the bits to the base 256 |
| Buffer.SpliceFrame | envoy/admin/v3/certs_vtproto.pb.go:40-65 | what "written in place" means: the bytes before `end`, with the prefix below and the suffix above unchanged |
| Buffer.PutPrefix | envoy/admin/v3/certs_vtproto.pb.go:58-61 | after a payload, length and key complete its record in front of what was written before |
| Buffer.PutString | envoy/admin/v3/certs_vtproto.pb.go:254-260 | a string field: nothing when empty, otherwise key, length and the string in front of what was written before |
| Buffer.PutVarint | envoy/admin/v3/certs_vtproto.pb.go:237-241 | a varint field behind its `!= 0` guard: key and varint, or nothing |
| Buffer.PutBool | envoy/admin/v3/clusters_vtproto.pb.go:399-408 | a bool field: the key and the byte 1 when true, nothing when false |
| Buffer.PutDouble | envoy/type/percent_vtproto.pb.go:52-57 | a double field behind its `!= 0` guard, which both zeros fail: key and eight bytes, or nothing |
| Buffer.PutStrings | envoy/admin/v2alpha/server_info_vtproto.pb.go:134-144 | the downward loop over strings leaves the elements in source order |
| Wire.ReadEncodedRecord | envoy/admin/v3/certs_vtproto.pb.go:195-269 | every record a marshaller emits is read back with its number, wire type and payload |
| Wire.ParseConcat | envoy/admin/v3/certs_vtproto.pb.go:48-51 | records are read without looking past them, groups included, so concatenation of bytes is concatenation of records |
| Wire.ParseKeepsBytes | envoy/admin/v3/certs_vtproto.pb.go:48-51 | the raw bytes of the parsed records, in order, are the input: unknown bytes can be kept |
| Wire.ReadGroup | envoy/admin/v3/certs_vtproto.pb.go:48-51 | a group of any number around any records is one record, which unknown bytes can hold |
| Wire.ParseEncoded | envoy/admin/v3/certs_vtproto.pb.go:195-269 | a list of records, encoded, parses as that list |
| Messages.DecodeEncoded | envoy/admin/v3/certs_vtproto.pb.go:206-269 | the law every message instantiates: known fields are absorbed in order, unknown bytes are appended as they are |
| Messages.DecodeConcat | envoy/admin/v3/certs_vtproto.pb.go:85-122 | decoding a concatenation is decoding its parts into the same message |
| Messages.AbsorbRepeated | envoy/admin/v3/certs_vtproto.pb.go:99-110 | a repeated field appends its elements in source order |
| Messages.FirstByte | envoy/admin/v3/clusters_vtproto.pb.go:22-33 | an encoding never starts with a zero byte |
| CertsMarshal.MarshalCertificates | envoy/admin/v3/certs_vtproto.pb.go:40-65 | writes exactly the forward encoding before `end`, returns its length, and changes nothing else |
| CertsMarshal.MarshalCertificate | envoy/admin/v3/certs_vtproto.pb.go:85-122 | the same for Certificate, both repeated fields in source order |
| CertsMarshal.MarshalDetails | envoy/admin/v3/certs_vtproto.pb.go:195-269 | the same for CertificateDetails, all seven fields |
| CertsMarshal.MarshalOcsp | envoy/admin/v3/certs_vtproto.pb.go:142-175 | the same for OcspDetails; CertsBytes.OcspInBytes says which bytes, in which order |
| CertsMarshal.MarshalSan | envoy/admin/v3/certs_vtproto.pb.go:289-323 | the same for SubjectAlternateName: three type tests, backwards |
| CertsMarshal.MarshalMember | envoy/admin/v3/certs_vtproto.pb.go:330-366 | a oneof member is written even when it is empty |
| CertsMarshal.OneMember | envoy/admin/v3/certs_vtproto.pb.go:304-321 | a set oneof emits exactly one record, whatever its value; an unset one emits none |
| CertsMarshal.SizeSan | envoy/admin/v3/certs_vtproto.pb.go:462-473 | the dynamic dispatch of SizeVT gives the number of bytes the three type tests write |
| CertsMarshal.SizeMember | envoy/admin/v3/certs_vtproto.pb.go:475-504 | a member takes key, length and payload, empty or not |
| CertsMarshal.SizeOcsp | envoy/admin/v3/certs_vtproto.pb.go:405-421 | SizeVT is the length of the encoding |
| CertsMarshal.SizeDetails | envoy/admin/v3/certs_vtproto.pb.go:423-460 | SizeVT is the length of the encoding |
| CertsMarshal.SizeCertificate | envoy/admin/v3/certs_vtproto.pb.go:383-403 | SizeVT is the length of the encoding |
| CertsMarshal.SizeCertificates | envoy/admin/v3/certs_vtproto.pb.go:367-381 | SizeVT is the length of the encoding, so size and write recursions agree at every level |
| CertsMarshal.MarshalVTStrict | envoy/admin/v3/certs_vtproto.pb.go:22-33 | the prefix `dAtA[:n]` it returns is the whole encoding |
| CertsMarshal.MarshalToVTStrict | envoy/admin/v3/certs_vtproto.pb.go:35-38 | in a larger buffer the encoding takes the first bytes and the rest is unchanged |
| CertsBytes.CertificatesInBytes | envoy/admin/v3/certs_vtproto.pb.go:40-65 | the encoding in bytes: one record under key 0xa for every certificate, then the unknown bytes; its numbers never decrease |
| CertsBytes.CertificateInBytes | envoy/admin/v3/certs_vtproto.pb.go:85-122 | the same for Certificate: ca_cert under 0xa before cert_chain under 0x12 |
| CertsBytes.DetailsInBytes | envoy/admin/v3/certs_vtproto.pb.go:195-269 | the same for CertificateDetails: seven fields, each with its guard and literal key, in the order of the output |
| CertsBytes.OcspInBytes | envoy/admin/v3/certs_vtproto.pb.go:142-175 | the same for OcspDetails: valid_from under 0xa before expiration under 0x12 |
| CertsBytes.EmptyTimestamps | envoy/admin/v3/certs_vtproto.pb.go:155-174 | both timestamps present and empty are 0xa 0 0x12 0 |
| CertsBytes.SanInBytes | envoy/admin/v3/certs_vtproto.pb.go:289-366 | the same for SubjectAlternateName: the member that is set, under 0xa, 0x12 or 0x1a |
| CertsLaws.CertificatesDecode | envoy/admin/v3/certs_vtproto.pb.go:40-65 | decoding an encoding on top of any message merges it in |
| CertsLaws.DetailsDecodes | envoy/admin/v3/certs_vtproto.pb.go:195-269 | for CertificateDetails: scalars last non-default wins, submessages merge, elements append |
| CertsLaws.SanDecodes | envoy/admin/v3/certs_vtproto.pb.go:289-323 | for SubjectAlternateName: the last member set wins |
| CertsLaws.OcspDecodes | envoy/admin/v3/certs_vtproto.pb.go:142-175 | for OcspDetails: optional timestamps merge |
| CertsLaws.CertificateDecodes | envoy/admin/v3/certs_vtproto.pb.go:85-122 | for Certificate: both lists append |
| LastOneWins.DetailsReads | envoy/admin/v3/certs_vtproto.pb.go:195-269 | field by field: what each field of CertificateDetails is after its encoding has been read on top of another |
| LastOneWins.SanReads | envoy/admin/v3/certs_vtproto.pb.go:289-323 | any member of the oneof replaces any other, and none leaves it as it is |
| LastOneWins.OcspReads | envoy/admin/v3/certs_vtproto.pb.go:142-175 | field by field, for OcspDetails |
| LastOneWins.MalformedInside | envoy/admin/v3/certs_vtproto.pb.go:40-269 | a submessage that is not a sequence of records makes the message around it malformed |
| CertsLaws.RoundTrip | envoy/admin/v3/certs_vtproto.pb.go:22-366 | every Certificates reads back as written, nil elements having become empty messages |
| CertsLaws.RoundTripExact | envoy/admin/v3/certs_vtproto.pb.go:22-366 | it reads back as the very same message exactly when no repeated field has a nil element |
| CertsLaws.ConcatenationMerges | envoy/admin/v3/certs_vtproto.pb.go:85-122 | encode(a) followed by encode(b) reads back as the recursive merge of a and b |
| CertsLaws.EncodeNormalised | envoy/admin/v3/certs_vtproto.pb.go:22-366 | marshalling what was read back gives the same bytes |
| CertsLaws.SameBytesSameMessage | envoy/admin/v3/certs_vtproto.pb.go:22-366 | two messages have the same bytes exactly when they differ only in nil against empty elements |
| CertsSkew.DowngradeBytes | envoy/admin/v2alpha/certs_vtproto.pb.go:142-206 | a v3 tree with field 7 moved into unknownFields has the same bytes |
| CertsSkew.DowngradeOk | envoy/admin/v2alpha/certs_vtproto.pb.go:142-206 | those moved bytes are well-formed and unknown to v2alpha, at every level |
| CertsSkew.SkewPreservesBytes | envoy/admin/v2alpha/certs_vtproto.pb.go:22-303 | a v2alpha peer reads all v3 bytes as a well-formed message of its own, whose encoding is the identical bytes, and a v3 peer then loses nothing |
| CertsSkew.PassOn | envoy/admin/v2alpha/certs_vtproto.pb.go:22-303 | decoding with v2alpha and writing with the v2alpha marshallers gives back exactly what a v3 marshaller wrote, and for any other bytes v3 accepts something no longer that v3 reads the same |
| CertsSize.RelayedNoLonger | envoy/admin/v2alpha/certs_vtproto.pb.go:304-419 | a v2alpha peer never writes more bytes than it read |
| Frugal.RawNoShorter | envoy/admin/v2alpha/certs_vtproto.pb.go:155-158 | a record as it stood on the wire is no shorter than its canonical form |
| Frugal.OpaqueGrows | envoy/admin/v2alpha/certs_vtproto.pb.go:160-181 | occurrences of a submessage that merge take no more room together than apart |
| CertsRelay.RelayPreservesMeaning | envoy/admin/v2alpha/certs_vtproto.pb.go:22-303 | whatever bytes v3 accepts, in whatever order and form, v2alpha accepts, holds as a well-formed message, and re-encodes to bytes that v3 reads as it reads the original |
| CertsRelay.CertificateRelayed | envoy/admin/v2alpha/certs_vtproto.pb.go:85-122 | the same for Certificate, whose elements the two versions hold differently |
| CertsRelay.DetailsRelayed | envoy/admin/v2alpha/certs_vtproto.pb.go:142-206 | the same for CertificateDetails, where field 7 is new |
| Relay.KeepsTrack | envoy/admin/v2alpha/certs_vtproto.pb.go:142-206 | for any two schemas in which new fields do not interfere with the others: record by record, what the older reader holds is what the newer one has read |
| Relay.MovesPast | envoy/admin/v2alpha/certs_vtproto.pb.go:142-206 | known fields may be written in front of the unknown bytes they came after |
| Wire.ParsedStandAlone | envoy/admin/v2alpha/certs_vtproto.pb.go:155-158 | each parsed record can be cut out and read on its own, so unknown bytes collected from different places are records again |
| CertsMarshalV2alpha.MarshalDetails | envoy/admin/v2alpha/certs_vtproto.pb.go:142-206 | the v2alpha writer, without field 7, writes exactly the encoding |
| CertsMarshalV2alpha.MarshalCertificate | envoy/admin/v2alpha/certs_vtproto.pb.go:85-122 | the same for Certificate, over v2alpha details |
| CertsMarshalV2alpha.MarshalCertificates | envoy/admin/v2alpha/certs_vtproto.pb.go:40-65 | the same for Certificates |
| CertsMarshalV2alpha.MarshalVTStrict | envoy/admin/v2alpha/certs_vtproto.pb.go:22-33 | the returned prefix is the whole encoding |
| CertsMarshalV2alpha.SizeDetails | envoy/admin/v2alpha/certs_vtproto.pb.go:342-375 | the v2alpha SizeVT is the length of that encoding |
| CertsMarshalV2alpha.SizeCertificate | envoy/admin/v2alpha/certs_vtproto.pb.go:320-340 | the same for Certificate |
| CertsMarshalV2alpha.SizeCertificates | envoy/admin/v2alpha/certs_vtproto.pb.go:304-318 | the same for Certificates |
| CertsMarshalV2alpha.OkIsOlder | envoy/admin/v2alpha/certs_vtproto.pb.go:142-206 | what the v2alpha decoder yields is what the v2alpha marshallers take, at every level |
| ClustersMarshalV2alpha.MarshalHealth | envoy/admin/v2alpha/clusters_vtproto.pb.go:351-419 | the v2alpha writer of HostHealthStatus, without fields 7 and 8, writes exactly the encoding |
| ClustersMarshalV2alpha.SizeHealth | envoy/admin/v2alpha/clusters_vtproto.pb.go:550-576 | its SizeVT |
| ClustersMarshalV2alpha.MarshalHost | envoy/admin/v2alpha/clusters_vtproto.pb.go:191-331 | the v2alpha writer of HostStatus, over the v2alpha health status, errors included |
| ClustersMarshalV2alpha.MarshalCluster | envoy/admin/v2alpha/clusters_vtproto.pb.go:85-171 | the v2alpha writer of ClusterStatus, without fields 6 to 8 and over v2alpha hosts, errors included |
| ClustersMarshalV2alpha.MarshalClusters | envoy/admin/v2alpha/clusters_vtproto.pb.go:40-65 | the v2alpha writer of Clusters |
| ClustersMarshalV2alpha.MarshalVTStrict | envoy/admin/v2alpha/clusters_vtproto.pb.go:22-33 | how the v2alpha call ends, for every v2alpha tree |
| ClustersMarshalV2alpha.SizeHost | envoy/admin/v2alpha/clusters_vtproto.pb.go:480-548 | SizeVT of the v2alpha HostStatus |
| ClustersMarshalV2alpha.SizeCluster | envoy/admin/v2alpha/clusters_vtproto.pb.go:437-478 | SizeVT of the v2alpha ClusterStatus |
| ClustersMarshalV2alpha.SizeClusters | envoy/admin/v2alpha/clusters_vtproto.pb.go:421-435 | SizeVT of the v2alpha Clusters |
| ServerInfoMarshal.MarshalOptions | envoy/admin/v2alpha/server_info_vtproto.pb.go:122-365 | writes exactly the forward encoding of all 27 fields, then the unknown bytes |
| ServerInfoMarshal.MarshalTwoByteKeys | envoy/admin/v2alpha/server_info_vtproto.pb.go:134-268 | fields 28 down to 16, each behind its guard and with its two-byte key |
| ServerInfoMarshal.MarshalOneByteKeys | envoy/admin/v2alpha/server_info_vtproto.pb.go:269-363 | fields 15 down to 1 |
| ServerInfoMarshal.OptionsKeys | envoy/admin/v2alpha/server_info_vtproto.pb.go:134-363 | each literal key is the varint of 8 * field number + wire type from the struct tags |
| ServerInfoMarshal.SizeOptions | envoy/admin/v2alpha/server_info_vtproto.pb.go:400-505 | SizeVT is the length of the encoding |
| ServerInfoMarshal.SizeOneByteKeys | envoy/admin/v2alpha/server_info_vtproto.pb.go:406-457 | key size 1 is right for the fields up to 15 |
| ServerInfoMarshal.SizeTwoByteKeys | envoy/admin/v2alpha/server_info_vtproto.pb.go:458-503 | key size 2 is right for the fields from 16 on |
| ServerInfoMarshal.MarshalServerInfo | envoy/admin/v2alpha/server_info_vtproto.pb.go:40-102 | writes exactly the forward encoding, options in place |
| ServerInfoMarshal.SizeServerInfo | envoy/admin/v2alpha/server_info_vtproto.pb.go:367-398 | SizeVT is the length of the encoding |
| ServerInfoMarshal.MarshalVTStrict | envoy/admin/v2alpha/server_info_vtproto.pb.go:22-33 | the returned prefix is the whole encoding |
| ServerInfoBytes.OptionsInBytes | envoy/admin/v2alpha/server_info_vtproto.pb.go:122-365 | the encoding of CommandLineOptions in bytes: 27 fields, each with its guard and literal key, in the order of the output |
| ServerInfoBytes.FlagExamples | envoy/admin/v2alpha/server_info_vtproto.pb.go:145-156 | a true bool is the key and the byte 1, under keys of one byte and of two |
| ServerInfoBytes.ServerInfoInBytes | envoy/admin/v2alpha/server_info_vtproto.pb.go:40-102 | the same for ServerInfo; its numbers never decrease |
| ServerInfoLaws.OptionsDecode | envoy/admin/v2alpha/server_info_vtproto.pb.go:122-365 | decoding on top of any CommandLineOptions merges all 27 fields |
| LastOneWins.OptionsReads | envoy/admin/v2alpha/server_info_vtproto.pb.go:122-365 | field by field, for all 27 fields of CommandLineOptions |
| ServerInfoLaws.OptionsRoundTrip | envoy/admin/v2alpha/server_info_vtproto.pb.go:122-365 | every CommandLineOptions reads back exactly as written |
| ServerInfoLaws.OptionsConcatenation | envoy/admin/v2alpha/server_info_vtproto.pb.go:122-365 | concatenation of encodings is merge |
| ServerInfoLaws.OptionsNumbersSorted | envoy/admin/v2alpha/server_info_vtproto.pb.go:122-365 | field numbers never decrease along the output, and keys take two bytes exactly from number 16 on |
| ServerInfoLaws.ServerInfoDecodes | envoy/admin/v2alpha/server_info_vtproto.pb.go:40-102 | decoding on top of any ServerInfo merges, the nested options included |
| LastOneWins.ServerInfoReads | envoy/admin/v2alpha/server_info_vtproto.pb.go:40-102 | field by field, for ServerInfo; the options are read on top of those that are there |
| ServerInfoLaws.ServerInfoRoundTrip | envoy/admin/v2alpha/server_info_vtproto.pb.go:40-102 | every ServerInfo reads back exactly as written |
| EnvoyType.MarshalInt64Range | envoy/type/range_vtproto.pb.go:41-64 | writes exactly the forward encoding |
| EnvoyType.MarshalInt32Range | envoy/type/range_vtproto.pb.go:84-107 | writes exactly the forward encoding, negative values sign-extended |
| EnvoyType.MarshalDoubleRange | envoy/type/range_vtproto.pb.go:127-152 | writes exactly the forward encoding |
| EnvoyTypeBytes.Int64RangeInBytes | envoy/type/range_vtproto.pb.go:41-64 | the encoding in bytes, start under 0x8 before end under 0x10 |
| EnvoyTypeBytes.Int32RangeInBytes | envoy/type/range_vtproto.pb.go:84-107 | the same bytes, from bounds sign-extended to 64 bits |
| EnvoyTypeBytes.DoubleRangeInBytes | envoy/type/range_vtproto.pb.go:127-152 | the same under 0x9 and 0x11, neither zero written |
| EnvoyType.SizeInt64Range | envoy/type/range_vtproto.pb.go:154-168 | SizeVT is the length of the encoding |
| EnvoyType.SizeInt32Range | envoy/type/range_vtproto.pb.go:170-184 | SizeVT is the length of the encoding |
| EnvoyType.SizeDoubleRange | envoy/type/range_vtproto.pb.go:186-200 | SizeVT is the length of the encoding |
| EnvoyType.RangesCompatible | envoy/type/range_vtproto.pb.go:41-107 | equal bounds and unknown bytes give identical bytes, and each type reads the other as the same numbers |
| EnvoyType.Int32RangeDecodes | envoy/type/range_vtproto.pb.go:41-107 | a 32-bit reader of any 64-bit range keeps an unwritten bound, and reads a written one as the int32 congruent to it modulo 2^32 |
| EnvoyType.CutDown | envoy/type/range_vtproto.pb.go:41-107 | bounds 0x100000005 and 0xFFFFFFFF are read as 5 and -1 |
| EnvoyType.Int64RangeDecodes | envoy/type/range_vtproto.pb.go:41-64 | decoding on top of any Int64Range merges the bounds |
| LastOneWins.Int64RangeReads | envoy/type/range_vtproto.pb.go:41-64 | a bound that is not zero replaces the earlier one |
| EnvoyType.RangeSize | envoy/type/range_vtproto.pb.go:154-168 | the known fields take at most 22 bytes, and 22 exactly when both bounds are negative |
| EnvoyType.DoubleRangeDecodes | envoy/type/range_vtproto.pb.go:127-152 | decoding on top of any DoubleRange merges the bounds |
| LastOneWins.DoubleRangeReads | envoy/type/range_vtproto.pb.go:127-152 | a bound that is neither zero replaces the earlier one |
| EnvoyType.DoubleRangeRoundTrip | envoy/type/range_vtproto.pb.go:127-152 | reads back exactly as written unless a bound is negative zero, which reads back as zero |
| EnvoyType.MarshalPercent | envoy/type/percent_vtproto.pb.go:41-60 | writes exactly the forward encoding |
| EnvoyTypeBytes.PercentInBytes | envoy/type/percent_vtproto.pb.go:41-60 | the encoding in bytes |
| EnvoyType.SizePercent | envoy/type/percent_vtproto.pb.go:105-116 | SizeVT is the length of the encoding |
| EnvoyType.PercentDecodes | envoy/type/percent_vtproto.pb.go:41-60 | decoding on top of any Percent merges: a later value wins unless it is zero |
| LastOneWins.PercentReads | envoy/type/percent_vtproto.pb.go:41-60 | a value that is neither zero replaces the earlier one |
| EnvoyType.PercentRoundTrip | envoy/type/percent_vtproto.pb.go:41-60 | reads back as written, exactly so unless it is negative zero, which reads back as zero |
| EnvoyType.MarshalFractionalPercent | envoy/type/percent_vtproto.pb.go:80-103 | writes exactly the forward encoding |
| EnvoyTypeBytes.FractionalPercentInBytes | envoy/type/percent_vtproto.pb.go:80-103 | the encoding in bytes, numerator under 0x8 before denominator under 0x10 |
| EnvoyType.SizeFractionalPercent | envoy/type/percent_vtproto.pb.go:118-132 | SizeVT is the length of the encoding |
| EnvoyType.FractionalPercentRoundTrip | envoy/type/percent_vtproto.pb.go:80-103 | reads back exactly as written, for every enum value |
| EnvoyType.MarshalHashPolicy | envoy/type/hash_policy_vtproto.pb.go:72-116 | writes exactly the forward encoding, with the nil branch of the wrapper |
| EnvoyTypeBytes.HashPolicyInBytes | envoy/type/hash_policy_vtproto.pb.go:72-116 | the encoding in bytes, with 0xa 0 for a wrapper around nil |
| EnvoyType.MarshalSourceIp | envoy/type/hash_policy_vtproto.pb.go:39-52 | writes the unknown bytes |
| EnvoyType.SizeHashPolicy | envoy/type/hash_policy_vtproto.pb.go:127-153 | SizeVT is the length of the encoding, the constant 2 of the nil branch included |
| EnvoyType.SizeSourceIp | envoy/type/hash_policy_vtproto.pb.go:117-125 | SizeVT is the length of the encoding |
| EnvoyType.NilSourceIpBytes | envoy/type/hash_policy_vtproto.pb.go:99-116 | a wrapper around nil and one around an empty message are the same two bytes |
| EnvoyType.HashPolicyDecodes | envoy/type/hash_policy_vtproto.pb.go:72-116 | decoding on top of any HashPolicy merges the member |
| LastOneWins.HashPolicyReads | envoy/type/hash_policy_vtproto.pb.go:72-116 | case by case: what the member is after an encoding has been read on top of another policy |
| EnvoyType.HashPolicyRoundTrip | envoy/type/hash_policy_vtproto.pb.go:72-116 | a set oneof always reads back as set, an unset one as unset; exactly as written unless the wrapper holds nil |
| ClustersMarshal.MarshalClusters | envoy/admin/v3/clusters_vtproto.pb.go:40-65 | writes exactly the encoding; or returns the error of the child written first that fails, with all that comes after that child in place and everything from `end` on alone |
| ClustersMarshal.MarshalCluster | envoy/admin/v3/clusters_vtproto.pb.go:85-207 | the same for ClusterStatus |
| ClustersMarshal.MarshalHost | envoy/admin/v3/clusters_vtproto.pb.go:227-367 | the same for HostStatus |
| ClustersMarshal.MarshalHealth | envoy/admin/v3/clusters_vtproto.pb.go:387-475 | writes exactly the encoding of HostHealthStatus; ClustersBytes.HealthInBytes says which bytes |
| ClustersBytes.ClustersInBytes | envoy/admin/v3/clusters_vtproto.pb.go:40-65 | the encoding in bytes: one record under key 0xa for every cluster, then the unknown bytes; its numbers never decrease |
| ClustersBytes.ClusterInBytes | envoy/admin/v3/clusters_vtproto.pb.go:85-207 | the same for ClusterStatus: eight fields, each with its guard and literal key, in the order of the output |
| ClustersBytes.HostInBytes | envoy/admin/v3/clusters_vtproto.pb.go:227-367 | the same for HostStatus, nine fields |
| ClustersBytes.HealthInBytes | envoy/admin/v3/clusters_vtproto.pb.go:387-475 | the same for HostHealthStatus, eight fields |
| ClustersBytes.FlagExamples | envoy/admin/v3/clusters_vtproto.pb.go:399-408 | a true bool is the key and the byte 1 |
| ClustersMarshal.PutChild | envoy/admin/v3/clusters_vtproto.pb.go:113-133 | the two-way dispatch: the bytes of the fast marshaller if the child has it, else those of proto.Marshal, behind key and length; or the error of that route |
| ClustersMarshal.OneChildRoutes | envoy/admin/v3/clusters_vtproto.pb.go:113-133 | a tree with one child, by each route: the bytes around what that route gave, or its error; and the size around what SizeVT, or else proto.Size, declares |
| ClustersMarshal.HostFailsInReverse | envoy/admin/v3/clusters_vtproto.pb.go:227-367 | of several children of a host that fail, the one of the last field is reported |
| ClustersMarshal.ClusterFailsInReverse | envoy/admin/v3/clusters_vtproto.pb.go:85-207 | the same for a cluster, its hosts between the two thresholds |
| ClustersMarshal.SizeClusters | envoy/admin/v3/clusters_vtproto.pb.go:477-491 | SizeVT counts every child at its declared size |
| ClustersMarshal.SizeCluster | envoy/admin/v3/clusters_vtproto.pb.go:493-552 | the same for ClusterStatus |
| ClustersMarshal.SizeHost | envoy/admin/v3/clusters_vtproto.pb.go:554-622 | the same for HostStatus |
| ClustersMarshal.SizeHealth | envoy/admin/v3/clusters_vtproto.pb.go:624-656 | SizeVT is the length of the encoding |
| ClustersMarshal.MixedChildren | envoy/admin/v3/clusters_vtproto.pb.go:85-207 | for any mix of routes, if every child declares, by the route it offers for that, what it writes by the one it offers for writing, then so does the whole tree, and MarshalVTStrict returns the encoding |
| ClustersMarshal.HostSizeRight | envoy/admin/v3/clusters_vtproto.pb.go:554-622 | for HostStatus, declared size and written size agree when the children do |
| ClustersMarshal.ClusterSizeRight | envoy/admin/v3/clusters_vtproto.pb.go:493-552 | for ClusterStatus, declared size and written size agree when the children do |
| ClustersMarshal.MarshalVTStrict | envoy/admin/v3/clusters_vtproto.pb.go:22-33 | how the call ends for every tree, whatever the children declare and whichever fails: bytes, an error, or a panic, with exactly when |
| ClustersMarshal.StrictOutcome | envoy/admin/v3/clusters_vtproto.pb.go:22-33 | it returns the encoding exactly when no child fails and the declared size is right or nothing is written; panics exactly when that size is too small for what is written up to the end or to the first child that fails; and otherwise returns that error, or bytes that start with zero |
| ClustersMarshal.OneChildOutcome | envoy/admin/v3/clusters_vtproto.pb.go:113-133 | a single child, whatever its routes, decides all that: right, too small or too large for itself is so for the tree |
| ClustersLaws.ClustersDecode | envoy/admin/v3/clusters_vtproto.pb.go:40-65 | decoding on top of any message merges |
| ClustersLaws.HostDecodes | envoy/admin/v3/clusters_vtproto.pb.go:227-367 | for HostStatus, all nine fields |
| ClustersLaws.ClusterDecodes | envoy/admin/v3/clusters_vtproto.pb.go:85-207 | for ClusterStatus, all eight fields |
| LastOneWins.HostReads | envoy/admin/v3/clusters_vtproto.pb.go:227-367 | field by field, for HostStatus; the health status is read on top of the one that is there |
| LastOneWins.ClusterReads | envoy/admin/v3/clusters_vtproto.pb.go:85-207 | field by field, for ClusterStatus |
| LastOneWins.HealthReads | envoy/admin/v3/clusters_vtproto.pb.go:387-475 | field by field, for HostHealthStatus |
| LastOneWins.OtherVarints | envoy/admin/v3/clusters_vtproto.pb.go:387-475 | varints that no marshaller writes: any but 0 is true, and an enum is congruent modulo 2^32 to what was written |
| ClustersLaws.HealthRoundTrip | envoy/admin/v3/clusters_vtproto.pb.go:387-475 | HostHealthStatus reads back exactly as written |
| ClustersLaws.RoundTrip | envoy/admin/v3/clusters_vtproto.pb.go:40-475 | with children taken for their bytes, every Clusters reads back as written, nil elements having become empty messages |
| ClustersLaws.RoundTripExact | envoy/admin/v3/clusters_vtproto.pb.go:40-475 | with children taken for their bytes, as the very same message exactly when no repeated field has a nil element |
| ClustersPercents.TypedRoundTrip | envoy/admin/v2alpha/clusters_vtproto.pb.go:40-349 | with Percents as messages: every Clusters reads back with empty messages for nil elements and zero for every Percent that is negative zero |
| ClustersPercents.TypedRoundTripExact | envoy/admin/v2alpha/clusters_vtproto.pb.go:40-349 | as the very same tree exactly when no repeated field has a nil element and no reachable Percent is negative zero |
| ClustersPercents.SameBytesSameTree | envoy/admin/v2alpha/clusters_vtproto.pb.go:40-349 | two trees have the same bytes exactly when they differ only in nil against empty elements and in the sign of zeros |
| ClustersPercents.CollectingIsMerging | envoy/admin/v2alpha/clusters_vtproto.pb.go:108-131 | one more occurrence of a Percent is accepted exactly when it can be decoded into the Percent read so far, and the tree then holds the result |
| ClustersPercents.TypedHostConcatenation | envoy/admin/v2alpha/clusters_vtproto.pb.go:191-331 | for HostStatus, concatenation of encodings is merge of values: a later Percent that is zero keeps the earlier one |
| ClustersPercents.TypedClusterConcatenation | envoy/admin/v2alpha/clusters_vtproto.pb.go:85-171 | the same for ClusterStatus, whose hosts append |
| ClustersPercents.TypedConcatenationMerges | envoy/admin/v2alpha/clusters_vtproto.pb.go:40-65 | and for Clusters |
| ClustersLaws.ConcatenationMerges | envoy/admin/v3/clusters_vtproto.pb.go:40-475 | with children taken for their bytes, concatenation of encodings is merge |
| ClustersLaws.EncodeNormalised | envoy/admin/v3/clusters_vtproto.pb.go:40-475 | marshalling what was read back gives the same bytes |
| ClustersSkew.DowngradeBytes | envoy/admin/v2alpha/clusters_vtproto.pb.go:40-419 | a v3 tree with its new fields moved into unknownFields has the same bytes |
| ClustersSkew.DowngradeOk | envoy/admin/v2alpha/clusters_vtproto.pb.go:40-419 | the moved bytes are well-formed and unknown to v2alpha, at every level |
| ClustersSkew.SkewPreservesBytes | envoy/admin/v2alpha/clusters_vtproto.pb.go:40-419 | with children passed on byte for byte: a v2alpha peer reads all v3 bytes as a well-formed message of its own, whose encoding is the identical bytes, and a v3 peer then loses nothing |
| ClustersLive.PassOn | envoy/admin/v2alpha/clusters_vtproto.pb.go:22-419 | decoding with v2alpha and writing with the v2alpha marshallers: v3 reads the output as the input with every Percent normalised and every opaque child as the codec for it leaves it; and gets back the very bytes a v3 marshaller wrote, if those codecs do |
| ClustersLive.MarshalTree | envoy/admin/v3/clusters_vtproto.pb.go:22-33 | MarshalVTStrict on a tree with Percents returns the encoding that tree is read back from, whatever routes its other children offer; the routes they do not offer fail and declare a wrong size |
| ClustersLive.TreeLive | envoy/admin/v3/clusters_vtproto.pb.go:85-367 | a tree whose children write and declare what their values say is written without an error, as the encoding of those values |
| ClustersRelay.RelayReplacesChildren | envoy/admin/v2alpha/clusters_vtproto.pb.go:22-419 | whatever bytes v3 accepts, v2alpha accepts and holds as a well-formed message, and v3 reads in what it writes the original with each child replaced by what the relay codec for it makes of it |
| ClustersRelay.RelayPreservesMeaning | envoy/admin/v2alpha/clusters_vtproto.pb.go:22-419 | so the meaning of a tree survives exactly when each child in it keeps its own |
| ClustersPercentsRelay.TypedRelay | envoy/admin/v2alpha/clusters_vtproto.pb.go:22-419 | with Percents as messages: v3 reads the original with every Percent normalised |
| ClustersPercentsRelay.TypedRelayExact | envoy/admin/v2alpha/clusters_vtproto.pb.go:22-419 | with the other children passed on byte for byte, the very same tree exactly when no reachable Percent is negative zero |
| ClustersPercentsRelay.TypedRelayPreservesMeaning | envoy/admin/v2alpha/clusters_vtproto.pb.go:22-419 | in general, the meaning survives exactly when no Percent is negative zero and each other child keeps its own |
| ClustersPercentsRelay.TypedSkew | envoy/admin/v2alpha/clusters_vtproto.pb.go:22-419 | what a v3 marshaller wrote, Percents included, comes out byte for byte when the codecs give back the bytes of each other child |
| ClustersPercentsRelay.NegativeZeroIsLost | envoy/type/percent_vtproto.pb.go:52-57 | thirteen bytes with an explicit negative zero, which both versions read as the same tree and which the relay changes |
| Addresses.OneofIsLost | envoy/api/v2/core/address.pb.go:486-490 | an Address whose unknown member comes first and whose known one comes last: v3 reads the last, and after a v2 relay the first |
| Addresses.OneofDoesNotCommute | envoy/config/core/v3/address.pb.go:695-714 | the member that v3 added to the oneof replaces the others and is replaced by them |
| ClustersChildren.ClustersUnnoticed | envoy/admin/v3/clusters_vtproto.pb.go:85-367 | replacing the children of a tree goes unnoticed exactly when each of them keeps its meaning |
| ClustersRelay.ClusterRelayed | envoy/admin/v2alpha/clusters_vtproto.pb.go:85-171 | the same as RelayReplacesChildren for ClusterStatus, where fields 6 to 8 are new and hosts are held differently |
| ClustersRelay.HostRelayed | envoy/admin/v2alpha/clusters_vtproto.pb.go:191-331 | the same for HostStatus, whose health status may come in several records that merge |
| ClustersRelay.HealthKeepsTrack | envoy/admin/v2alpha/clusters_vtproto.pb.go:351-419 | the same for HostHealthStatus, onto any status read so far |
| Validate.ValidateClusters | envoy/admin/v2alpha/clusters.pb.validate.go:58-104 | both modes of the loop return what the list of errors of the tree says |
| Validate.ValidateCluster | envoy/admin/v2alpha/clusters.pb.validate.go:191-299 | the same for ClusterStatus |
| Validate.ValidateHost | envoy/admin/v2alpha/clusters.pb.validate.go:387-584 | the same for HostStatus |
| Validate.ValidateHealth | envoy/admin/v2alpha/clusters.pb.validate.go:671-695 | accepts every HostHealthStatus, in both modes |
| Validate.ValidatePercent | envoy/type/percent.pb.validate.go:53-76 | the range rule, on the bits of the double |
| Validate.ValidateChecked | envoy/admin/v2alpha/clusters.pb.validate.go:394-422 | the type switch on a child, in both modes; ChildDecides says what that is in terms of the methods the child has |
| ValidateLaws.ChildDecides | envoy/admin/v2alpha/clusters.pb.validate.go:394-422 | for every child of a host: in fail-fast mode its Validate decides, in collecting mode its ValidateAll or else its Validate, and one with neither is accepted; its error is the cause of the error of the host, in that mode's wrapping |
| ValidateLaws.BadTreeErrors | envoy/admin/v2alpha/clusters.pb.validate.go:58-299 | the full errors of a tree in both modes, whatever the errors of its children: messages, fields, indexes, reasons, causes and order |
| ValidateLaws.BadHostErrors | envoy/admin/v2alpha/clusters.pb.validate.go:387-584 | the same for its host, in which all that can be invalid is |
| ValidateLaws.FailFastProjectsIff | envoy/admin/v2alpha/clusters.pb.validate.go:58-584 | Validate returns the leftmost path of the error tree of ValidateAll, and nil when it does, exactly when the first child in document order that reports in either mode is consistent |
| ValidateLaws.FailFastProjects | envoy/admin/v2alpha/clusters.pb.validate.go:58-299 | it does when every child is consistent: its Validate, or nil if it has none, is the leftmost path of its ValidateAll |
| ValidateLaws.PercentAcceptance | envoy/type/percent.pb.validate.go:58-66 | the range rule accepts exactly the numbers in [0, 100] and NaN |
| ValidateLaws.NaNPasses | envoy/type/percent.pb.validate.go:58-66 | a NaN is not in the range and passes |
| Doubles.Comparisons | envoy/type/percent.pb.validate.go:58 | the comparisons with 0 and 100, on the bits, are those of the values the bits stand for |
| Doubles.UnitValues | envoy/type/percent.pb.validate.go:58 | 1.0, -1.5 and the smallest positive double have the values they should |
| ValidateLaws.SkippedWithoutValidate | envoy/admin/v2alpha/clusters.pb.validate.go:394-422 | a child with ValidateAll but no Validate is where the two differ |
| ValidateLaws.ValidateAllReportsViolations | envoy/admin/v2alpha/clusters.pb.validate.go:58-584 | the leaves of the collected error tree are all violations, once each and in document order |
| ValidateLaws.ValidateReportsFirstViolation | envoy/admin/v2alpha/clusters.pb.validate.go:58-584 | under the same condition the chain that Validate returns leads to exactly the first of them |
| ValidateLaws.ValidityCharacterised | envoy/admin/v2alpha/clusters.pb.validate.go:387-584 | ValidateAll accepts exactly the trees in which every Percent is a number in [0, 100] or NaN and the ValidateAll of every child, or its Validate if it has only that, returns nil; Validate under the same condition, and so in every tree of consistent children |
| ValidateLaws.ConsistentAnswers | envoy/admin/v2alpha/clusters.pb.validate.go:394-422 | a child that answers consistently is valid exactly when each method it has returns nil |

## Left out

- UTF-8: the writers do not check strings, and the decoder here does not either; strings are byte sequences.
- MarshalVTStrict and MarshalToVTStrict of every message: the same text for each; modelled for Certificates (both), ServerInfo and Clusters.
- Typed-nil oneof wrappers, which the writers dereference.
- Slices that do not start at the beginning of their array, and slice capacity: every slice here is a prefix.
- Pointers shared between messages: a tree that shares a submessage is the tree with copies of it.
- The content of Timestamp, Duration, Address, Locality, CircuitBreakers and SimpleMetric inside the trees that hold them: opaque children.
- ClustersLaws.RoundTripExact: speaks of a tree whose children are their bytes, so the sign of a zero Percent is not visible in it; ClustersPercents.TypedRoundTripExact makes it so.
- ClustersSkew.SkewPreservesBytes: passes children on byte for byte; ClustersPercentsRelay.TypedSkew does it through the codecs, and asks of those of opaque children that they give back their bytes.
- ClustersRelay.RelayReplacesChildren: takes the relay's codec for an opaque child as a function that always succeeds; a child that v2alpha cannot read would make it reject the whole message. Address (envoy/api/v2/core/address.pb.go:486-490) is one whose codec changes what v3 reads.
- ClustersLive.PassOn: asks that its output fit in an int, because opaque codecs may lengthen what they are given; over the certificates tree there are none, and CertsSkew.PassOn asks nothing of the kind.
- MergeOpaque: states the merge of an opaque child as concatenation of its bytes, because its fields are not part of this model.
- Progress of a failing child: what it leaves in its own slice, below what had been written before, is not specified.
- CertsRelay.RelayPreservesMeaning: takes Timestamps for their bytes, and so passes them on byte for byte.
- FractionalPercent.validate, Error() texts, the getters of validation errors, reflection and registration code.
- The remaining messages (config dump, memory, metrics, mutex stats, listeners, tap, HTTP status, semantic version, token bucket, resource): same shapes as those modelled, so they would add easy members.
- The example programs, the logging and conversion packages, and the caches and matchers that the documents describe.
