/**
 * The oneof of Address, with its members taken for their bytes. v3 has a member that v2 does not,
 * so that in a v2 relay one member of a oneof is known and another is unknown bytes. The order of
 * the two is lost, and with it which of them counts.
 */
module Addresses {
  import opened GoTypes
  import opened Varint
  import opened Wire
  import opened Messages
  import opened Clusters
  import opened ClustersChildren
  import opened Relay

  datatype Member = Unset | SocketAddress(bytes: Bytes) | Pipe(bytes: Bytes) | EnvoyInternalAddress(bytes: Bytes)
  type Address = Msg<Member>

  const NO_ADDRESS: Address := Msg(Unset, [])

  function AddressLayout(k: Member): seq<seq<Record>> {
    [ if k.SocketAddress? then [Len(1, k.bytes)] else [],
      if k.Pipe? then [Len(2, k.bytes)] else [],
      if k.EnvoyInternalAddress? then [Len(3, k.bytes)] else [] ]
  }

  function EncodeAddress(m: Address): Bytes {
    EncodeFields(AddressLayout(m.fields), m.unknownFields)
  }

  /** A member that is a message merges with itself and replaces any other. v2 does not know the third. */
  function AddressStep(s: Schema, k: Member, r: Record): Outcome<Member> {
    match r
    case Len(1, p) => Updated(SocketAddress(if k.SocketAddress? then k.bytes + p else p))
    case Len(2, p) => Updated(Pipe(if k.Pipe? then k.bytes + p else p))
    case Len(3, p) =>
      if s.V2alpha? then Unrecognised
      else Updated(EnvoyInternalAddress(if k.EnvoyInternalAddress? then k.bytes + p else p))
    case _ => Unrecognised
  }

  function AddressDecoder(s: Schema): (Member, Record) -> Outcome<Member> {
    (k, r) => AddressStep(s, k, r)
  }

  function ReadAddress(s: Schema, bs: Bytes): Option<Address> {
    DecodeInto(AddressDecoder(s), NO_ADDRESS, bs)
  }

  /** What a v2 peer writes for the bytes of an Address that it read. */
  function RelayAddress(bs: Bytes): Bytes {
    EncodeAddress(ReadAddress(V2alpha, bs).GetOr(NO_ADDRESS))
  }

  function SeeAddress(bs: Bytes): Option<Address> {
    ReadAddress(V3, bs)
  }

  /** An internal address and then a socket address, both empty. */
  const INTERNAL_THEN_SOCKET: Bytes := [0x1a, 0, 0xa, 0]

  lemma EmptyMember(num: FieldNumber)
    requires num < 16
    ensures EncodeRecord(Len(num, [])) == [8 * num + 2, 0]
  {
    assert Key(num, LEN) == [8 * num + 2] && VarintBytes(0) == [0];
  }

  lemma EmptyMembers(first: FieldNumber, second: FieldNumber)
    requires first < 16 && second < 16
    ensures Parse([8 * first + 2, 0, 8 * second + 2, 0]) == Some([TokenOf(Len(first, [])), TokenOf(Len(second, []))])
  {
    EmptyMember(first);
    EmptyMember(second);
    ReadEncodedRecord(Len(first, []));
    ReadEncodedRecord(Len(second, []));
    hide EncodeRecord, Parse, ReadRecord;
    var xs, ys := [8 * first + 2, 0], [8 * second + 2, 0];
    ParseSingle(xs, TokenOf(Len(first, [])));
    ParseSingle(ys, TokenOf(Len(second, [])));
    ParseConcat(xs, ys);
    assert xs + ys == [8 * first + 2, 0, 8 * second + 2, 0];
    assert [TokenOf(Len(first, []))] + [TokenOf(Len(second, []))] ==
      [TokenOf(Len(first, [])), TokenOf(Len(second, []))];
  }

  /** The new member does not commute with the old ones: it is replaced by them, and replaces them. */
  lemma OneofDoesNotCommute()
    ensures !Commutes(AddressDecoder(V2alpha), AddressDecoder(V3))
  {
    var older, newer, r, q := AddressDecoder(V2alpha), AddressDecoder(V3), Len(1, []), Len(3, []);
    assert older(Unset, r) != Unrecognised && older(Unset, q) == Unrecognised;
    assert newer(newer(Unset, q).fields, r) == Updated(SocketAddress([]));
    assert newer(newer(Unset, r).fields, q) == Updated(EnvoyInternalAddress([]));
  }

  /** Reading one empty member. */
  function ReadMember(s: Schema, m: Address, num: FieldNumber): Option<Address>
    requires num < 16
  {
    match AddressStep(s, m.fields, Len(num, []))
    case Updated(k) => Some(m.(fields := k))
    case Unrecognised => Some(m.(unknownFields := m.unknownFields + [8 * num + 2, 0]))
    case Malformed => None
  }

  lemma TwoTokens<K>(step: (K, Record) -> Outcome<K>, m: Msg<K>, t: Token, u: Token)
    ensures DecodeTokens(step, m, [t, u]) == (var m' :- DecodeTokens(step, m, [t]); DecodeTokens(step, m', [u]))
  {
    assert [t, u] == [t] + [u];
    DecodeTokensConcat(step, m, [t], [u]);
  }

  lemma ReadsMember(s: Schema, m: Address, num: FieldNumber)
    requires num < 16
    ensures DecodeTokens(AddressDecoder(s), m, [TokenOf(Len(num, []))]) == ReadMember(s, m, num)
  {
    var ts := [TokenOf(Len(num, []))];
    assert ts[1..] == [];
    EmptyMember(num);
    hide EncodeRecord, AddressStep;
  }

  lemma ReadsMembers(s: Schema, first: FieldNumber, second: FieldNumber)
    requires first < 16 && second < 16
    ensures ReadAddress(s, [8 * first + 2, 0, 8 * second + 2, 0]) ==
            (var m :- ReadMember(s, NO_ADDRESS, first); ReadMember(s, m, second))
  {
    hide EncodeRecord, Parse, AddressDecoder, DecodeTokens, ReadMember, TokenOf;
    EmptyMembers(first, second);
    TwoTokens(AddressDecoder(s), NO_ADDRESS, TokenOf(Len(first, [])), TokenOf(Len(second, [])));
    ReadsMember(s, NO_ADDRESS, first);
    if ReadMember(s, NO_ADDRESS, first).Some? {
      ReadsMember(s, ReadMember(s, NO_ADDRESS, first).value, second);
    }
  }

  /**
   * v3 reads the socket address, which comes last. A v2 peer writes it first, in front of the member
   * it does not know, and then v3 reads the internal address: this child does not keep its meaning.
   */
  lemma OneofIsLost()
    ensures SeeAddress(INTERNAL_THEN_SOCKET) == Some(Msg(SocketAddress([]), []))
    ensures RelayAddress(INTERNAL_THEN_SOCKET) == [0xa, 0, 0x1a, 0]
    ensures SeeAddress(RelayAddress(INTERNAL_THEN_SOCKET)) == Some(Msg(EnvoyInternalAddress([]), []))
    ensures !Kept(RelayAddress, SeeAddress, Some(INTERNAL_THEN_SOCKET))
  {
    hide ReadAddress, EncodeAddress;
    ReadsMembers(V3, 3, 1);
    ReadsMembers(V2alpha, 3, 1);
    ReadsMembers(V3, 1, 3);
    assert NO_ADDRESS.unknownFields + [0x1a, 0] == [0x1a, 0];
    assert ReadAddress(V2alpha, INTERNAL_THEN_SOCKET) == Some(Msg(SocketAddress([]), [0x1a, 0]));
    SocketFirst();
  }

  lemma SocketFirst()
    ensures EncodeAddress(Msg(SocketAddress([]), [0x1a, 0])) == [0xa, 0, 0x1a, 0]
  {
    var fs := AddressLayout(SocketAddress([]));
    EmptyMember(1);
    EncodeFieldsFlat(fs, [0x1a, 0]);
    assert fs[1..] == [[], []] && Flatten(fs[1..]) == [] by { FlattenEmpty(fs[1..]); }
    assert Flatten(fs) == [Len(1, [])];
    EncodeOne(Len(1, []));
  }
}
