/**
 * The wire format: a message is a sequence of records, each a key (field number and wire type)
 * followed by a payload (Protocol Buffers Encoding, sections "Message Structure" and
 * "Length-Delimited Records").
 */
module Wire {
  import opened GoTypes
  import opened Varint

  type FieldNumber = n: int | 1 <= n < 0x2000_0000 witness 1

  datatype Record =
    | Varint(num: FieldNumber, v: uint64)
    | Fixed64(num: FieldNumber, bits: uint64)
    | Len(num: FieldNumber, payload: seq<byte>)
    | Group(num: FieldNumber, body: seq<byte>)  // everything after the start key, end key included
    | Fixed32(num: FieldNumber, word: uint32)

  const VARINT: nat := 0
  const I64: nat := 1
  const LEN: nat := 2
  const SGROUP: nat := 3
  const EGROUP: nat := 4
  const I32: nat := 5

  function Key(num: FieldNumber, wireType: nat): seq<byte> {
    VarintBytes(8 * num + wireType)
  }

  /** The n low bytes of v, least significant first. */
  function LittleEndian(v: nat, n: nat): (bs: seq<byte>)
    ensures |bs| == n
  {
    if n == 0 then [] else [v % 0x100] + LittleEndian(v / 0x100, n - 1)
  }

  function FromLittleEndian(bs: seq<byte>): (v: nat) {
    if bs == [] then 0 else bs[0] + 0x100 * FromLittleEndian(bs[1..])
  }

  function Pow256(n: nat): (p: nat)
    ensures p >= 1
  {
    if n == 0 then 1 else 0x100 * Pow256(n - 1)
  }

  lemma {:induction false} FromLittleEndianBound(bs: seq<byte>)
    ensures FromLittleEndian(bs) < Pow256(|bs|)
  {
    if bs != [] {
      FromLittleEndianBound(bs[1..]);
    }
  }

  lemma {:induction false} LittleEndianInverts(v: nat, n: nat)
    requires v < Pow256(n)
    ensures FromLittleEndian(LittleEndian(v, n)) == v
  {
    if n > 0 {
      LittleEndianInverts(v / 0x100, n - 1);
    }
  }

  lemma Pow256Of8()
    ensures Pow256(4) == TWO_TO_THE_32 && Pow256(8) == TWO_TO_THE_64
  {
    assert Pow256(2) == 0x1_0000;
    assert Pow256(4) == 0x100 * (0x100 * Pow256(2));
    assert Pow256(6) == 0x100 * (0x100 * Pow256(4));
    assert Pow256(8) == 0x100 * (0x100 * Pow256(6));
  }

  function EncodeRecord(r: Record): (bs: seq<byte>)
    ensures |bs| >= 1
  {
    match r
    case Varint(num, v) => Key(num, VARINT) + VarintBytes(v)
    case Fixed64(num, bits) => Key(num, I64) + LittleEndian(bits, 8)
    case Len(num, payload) => Key(num, LEN) + VarintBytes(|payload|) + payload
    case Group(num, body) => Key(num, SGROUP) + body
    case Fixed32(num, word) => Key(num, I32) + LittleEndian(word, 4)
  }

  function EncodeRecords(rs: seq<Record>): seq<byte> {
    if rs == [] then [] else EncodeRecord(rs[0]) + EncodeRecords(rs[1..])
  }

  lemma {:induction false} EncodeRecordsConcat(xs: seq<Record>, ys: seq<Record>)
    ensures EncodeRecords(xs + ys) == EncodeRecords(xs) + EncodeRecords(ys)
  {
    hide EncodeRecord;
    if xs == [] {
      assert xs + ys == ys;
    } else {
      EncodeRecordsConcat(xs[1..], ys);
      assert (xs + ys)[1..] == xs[1..] + ys;
    }
  }

  /* ----- parsing ----- */

  datatype Tag = Tag(num: FieldNumber, wireType: nat)

  /** A parsed record together with the very bytes it was parsed from. */
  datatype Token = Token(record: Record, raw: seq<byte>)

  function ReadKey(bs: seq<byte>): (r: Option<Read<Tag>>)
    ensures r.Some? ==> 1 <= r.value.length <= |bs|
  {
    var k :- DecodeVarint(bs);
    if 1 <= k.value / 8 < 0x2000_0000 then Some(Read(Tag(k.value / 8, k.value % 8), k.length)) else None
  }

  function ReadFixed64(bs: seq<byte>): (r: Option<uint64>)
    ensures r.Some? <==> |bs| >= 8
  {
    if |bs| < 8 then None
    else
      FromLittleEndianBound(bs[..8]);
      Pow256Of8();
      Some(FromLittleEndian(bs[..8]))
  }

  function ReadFixed32(bs: seq<byte>): (r: Option<uint32>)
    ensures r.Some? <==> |bs| >= 4
  {
    if |bs| < 4 then None
    else
      FromLittleEndianBound(bs[..4]);
      Pow256Of8();
      Some(FromLittleEndian(bs[..4]))
  }

  /** What follows a key. A stray end-group key and the two unused wire types are malformed. */
  function ReadValue(tag: Tag, bs: seq<byte>): (r: Option<Read<Record>>)
    ensures r.Some? ==> r.value.length <= |bs|
    decreases |bs|, 1
  {
    if tag.wireType == VARINT then
      var v :- DecodeVarint(bs);
      Some(Read(Varint(tag.num, v.value), v.length))
    else if tag.wireType == I64 then
      var bits :- ReadFixed64(bs);
      Some(Read(Fixed64(tag.num, bits), 8))
    else if tag.wireType == LEN then
      var n :- DecodeVarint(bs);
      if n.length + n.value > |bs| then None
      else Some(Read(Len(tag.num, bs[n.length..n.length + n.value]), n.length + n.value))
    else if tag.wireType == SGROUP then
      var n :- GroupLength(tag.num, bs);
      Some(Read(Group(tag.num, bs[..n]), n))
    else if tag.wireType == I32 then
      var word :- ReadFixed32(bs);
      Some(Read(Fixed32(tag.num, word), 4))
    else None
  }

  /** The length of a group's body, up to and including the end key that matches its number. */
  function GroupLength(num: FieldNumber, bs: seq<byte>): (r: Option<nat>)
    ensures r.Some? ==> r.value <= |bs|
    decreases |bs|, 0
  {
    var key :- ReadKey(bs);
    if key.value.wireType == EGROUP then
      if key.value.num == num then Some(key.length) else None
    else
      var v :- ReadValue(key.value, bs[key.length..]);
      var rest :- GroupLength(num, bs[key.length + v.length..]);
      Some(key.length + v.length + rest)
  }

  function ReadRecord(bs: seq<byte>): (r: Option<Token>)
    ensures r.Some? ==> 1 <= |r.value.raw| <= |bs| && r.value.raw == bs[..|r.value.raw|]
  {
    var key :- ReadKey(bs);
    var v :- ReadValue(key.value, bs[key.length..]);
    Some(Token(v.value, bs[..key.length + v.length]))
  }

  /** All records of a byte string, or None when it is not a sequence of records. */
  function Parse(bs: seq<byte>): (ts: Option<seq<Token>>)
  {
    if bs == [] then Some([])
    else
      var t :- ReadRecord(bs);
      var rest :- Parse(bs[|t.raw|..]);
      Some([t] + rest)
  }

  /* ----- parsing does not look past the record it reads ----- */

  lemma ReadKeyPrefix(bs: seq<byte>, tail: seq<byte>)
    requires ReadKey(bs).Some?
    ensures ReadKey(bs + tail) == ReadKey(bs)
  {
    DecodeVarintPrefix(bs, tail);
  }

  lemma {:induction false} ReadValuePrefix(tag: Tag, bs: seq<byte>, tail: seq<byte>)
    requires ReadValue(tag, bs).Some?
    ensures ReadValue(tag, bs + tail) == ReadValue(tag, bs)
    decreases |bs|, 1
  {
    hide DecodeVarint, GroupLength, FromLittleEndian;
    var all := bs + tail;
    if tag.wireType == VARINT {
      DecodeVarintPrefix(bs, tail);
    } else if tag.wireType == I64 {
      assert all[..8] == bs[..8];
    } else if tag.wireType == LEN {
      DecodeVarintPrefix(bs, tail);
      var n := DecodeVarint(bs).value;
      assert all[n.length..n.length + n.value] == bs[n.length..n.length + n.value];
    } else if tag.wireType == SGROUP {
      GroupLengthPrefix(tag.num, bs, tail);
      var n := GroupLength(tag.num, bs).value;
      assert all[..n] == bs[..n];
    } else {
      assert all[..4] == bs[..4];
    }
  }

  lemma {:induction false} GroupLengthPrefix(num: FieldNumber, bs: seq<byte>, tail: seq<byte>)
    requires GroupLength(num, bs).Some?
    ensures GroupLength(num, bs + tail) == GroupLength(num, bs)
    decreases |bs|, 0
  {
    hide ReadKey, ReadValue;
    ReadKeyPrefix(bs, tail);
    var key := ReadKey(bs).value;
    if key.value.wireType != EGROUP {
      assert (bs + tail)[key.length..] == bs[key.length..] + tail;
      ReadValuePrefix(key.value, bs[key.length..], tail);
      var n := key.length + ReadValue(key.value, bs[key.length..]).value.length;
      assert (bs + tail)[n..] == bs[n..] + tail;
      GroupLengthPrefix(num, bs[n..], tail);
    }
  }

  lemma ReadRecordPrefix(bs: seq<byte>, tail: seq<byte>)
    requires ReadRecord(bs).Some?
    ensures ReadRecord(bs + tail) == ReadRecord(bs)
  {
    hide ReadKey, ReadValue;
    ReadKeyPrefix(bs, tail);
    var key := ReadKey(bs).value;
    assert (bs + tail)[key.length..] == bs[key.length..] + tail;
    ReadValuePrefix(key.value, bs[key.length..], tail);
    var n := |ReadRecord(bs).value.raw|;
    assert (bs + tail)[..n] == bs[..n];
  }

  /* ----- and needs no more than the record's own bytes ----- */

  lemma ReadKeyShrinks(bs: seq<byte>, n: nat)
    requires ReadKey(bs).Some? && ReadKey(bs).value.length <= n <= |bs|
    ensures ReadKey(bs[..n]) == ReadKey(bs)
  {
    DecodeVarintShrinks(bs, n);
  }

  lemma TakeTake<T>(s: seq<T>, n: nat, k: nat)
    requires k <= n <= |s|
    ensures s[..n][..k] == s[..k]
  {
  }

  lemma TakeDrop<T>(s: seq<T>, n: nat, k: nat)
    requires k <= n <= |s|
    ensures s[..n][k..] == s[k..][..n - k]
  {
  }

  lemma {:induction false} ReadValueShrinks(tag: Tag, bs: seq<byte>, n: nat)
    requires ReadValue(tag, bs).Some? && ReadValue(tag, bs).value.length <= n <= |bs|
    ensures ReadValue(tag, bs[..n]) == ReadValue(tag, bs)
    decreases |bs|, 1
  {
    hide DecodeVarint, GroupLength, FromLittleEndian;
    if tag.wireType == VARINT {
      DecodeVarintShrinks(bs, n);
    } else if tag.wireType == I64 {
      TakeTake(bs, n, 8);
    } else if tag.wireType == LEN {
      DecodeVarintShrinks(bs, n);
      var len := DecodeVarint(bs).value;
      assert bs[..n][len.length..len.length + len.value] == bs[len.length..len.length + len.value];
    } else if tag.wireType == SGROUP {
      GroupLengthShrinks(tag.num, bs, n);
      TakeTake(bs, n, GroupLength(tag.num, bs).value);
    } else {
      TakeTake(bs, n, 4);
    }
  }

  lemma {:induction false} GroupLengthShrinks(num: FieldNumber, bs: seq<byte>, n: nat)
    requires GroupLength(num, bs).Some? && GroupLength(num, bs).value <= n <= |bs|
    ensures GroupLength(num, bs[..n]) == GroupLength(num, bs)
    decreases |bs|, 0
  {
    hide ReadKey, ReadValue;
    var key := ReadKey(bs).value;
    ReadKeyShrinks(bs, n);
    if key.value.wireType != EGROUP {
      var k := key.length + ReadValue(key.value, bs[key.length..]).value.length;
      TakeDrop(bs, n, key.length);
      ReadValueShrinks(key.value, bs[key.length..], n - key.length);
      TakeDrop(bs, n, k);
      GroupLengthShrinks(num, bs[k..], n - k);
    }
  }

  lemma ReadRecordShrinks(bs: seq<byte>)
    requires ReadRecord(bs).Some?
    ensures ReadRecord(ReadRecord(bs).value.raw) == ReadRecord(bs)
  {
    hide ReadKey, ReadValue;
    var key := ReadKey(bs).value;
    var n := |ReadRecord(bs).value.raw|;
    ReadKeyShrinks(bs, n);
    assert bs[..n][key.length..] == bs[key.length..][..n - key.length];
    ReadValueShrinks(key.value, bs[key.length..], n - key.length);
    assert bs[..n][..n] == bs[..n];
  }

  /** A token stands on its own: its raw bytes read as itself. */
  predicate StandsAlone(t: Token) {
    ReadRecord(t.raw) == Some(t)
  }

  lemma {:induction false} ParsedStandAlone(bs: seq<byte>)
    requires Parse(bs).Some?
    ensures forall t <- Parse(bs).value :: StandsAlone(t)
    decreases |bs|
  {
    hide ReadRecord;
    if bs != [] {
      var t := ReadRecord(bs).value;
      ReadRecordShrinks(bs);
      ParsedStandAlone(bs[|t.raw|..]);
    }
  }

  function Append<T>(xs: Option<seq<T>>, ys: Option<seq<T>>): Option<seq<T>> {
    var x :- xs;
    var y :- ys;
    Some(x + y)
  }

  /** Once a prefix parses, the records of the whole are its records followed by those of the rest. */
  lemma {:induction false} ParseConcat(xs: seq<byte>, ys: seq<byte>)
    requires Parse(xs).Some?
    ensures Parse(xs + ys) == Append(Parse(xs), Parse(ys))
    decreases |xs|
  {
    hide ReadRecord;
    if xs == [] {
      assert xs + ys == ys;
      if Parse(ys).Some? {
        assert [] + Parse(ys).value == Parse(ys).value;
      }
    } else {
      ReadRecordPrefix(xs, ys);
      var t := ReadRecord(xs).value;
      assert (xs + ys)[|t.raw|..] == xs[|t.raw|..] + ys;
      ParseConcat(xs[|t.raw|..], ys);
      if Parse(ys).Some? {
        var rest := Parse(xs[|t.raw|..]).value;
        assert [t] + (rest + Parse(ys).value) == ([t] + rest) + Parse(ys).value;
      }
    }
  }

  function Raws(ts: seq<Token>): seq<byte> {
    if ts == [] then [] else ts[0].raw + Raws(ts[1..])
  }

  /** Parsing loses nothing: the raw bytes of the records, in order, are the input. */
  lemma {:induction false} ParseKeepsBytes(bs: seq<byte>)
    requires Parse(bs).Some?
    ensures Raws(Parse(bs).value) == bs
    decreases |bs|
  {
    if bs != [] {
      var t := ReadRecord(bs).value;
      ParseKeepsBytes(bs[|t.raw|..]);
      assert bs == bs[..|t.raw|] + bs[|t.raw|..];
      assert Parse(bs).value[1..] == Parse(bs[|t.raw|..]).value;
    }
  }

  /* ----- parsing inverts encoding ----- */

  /** The records a marshaller can emit: no groups, and every length fits in 64 bits. */
  predicate Emittable(r: Record) {
    !r.Group? && (r.Len? ==> |r.payload| < TWO_TO_THE_64)
  }

  function TokenOf(r: Record): Token {
    Token(r, EncodeRecord(r))
  }

  function WireType(r: Record): nat {
    match r
    case Varint(_, _) => VARINT
    case Fixed64(_, _) => I64
    case Len(_, _) => LEN
    case Group(_, _) => SGROUP
    case Fixed32(_, _) => I32
  }

  function Body(r: Record): seq<byte> {
    match r
    case Varint(_, v) => VarintBytes(v)
    case Fixed64(_, bits) => LittleEndian(bits, 8)
    case Len(_, payload) => VarintBytes(|payload|) + payload
    case Group(_, body) => body
    case Fixed32(_, word) => LittleEndian(word, 4)
  }

  lemma ReadBodyOf(r: Record)
    requires Emittable(r)
    ensures ReadValue(Tag(r.num, WireType(r)), Body(r)) == Some(Read(r, |Body(r)|))
  {
    match r {
      case Varint(_, v) =>
        DecodeInvertsEncode(v, []);
        assert VarintBytes(v) + [] == VarintBytes(v);
      case Fixed64(_, bits) =>
        Pow256Of8();
        LittleEndianInverts(bits, 8);
        assert Body(r)[..8] == Body(r);
      case Len(_, payload) =>
        DecodeInvertsEncode(|payload|, payload);
        var n := |VarintBytes(|payload|)|;
        assert Body(r)[n..n + |payload|] == payload;
      case Fixed32(_, word) =>
        Pow256Of8();
        LittleEndianInverts(word, 4);
        assert Body(r)[..4] == Body(r);
    }
  }

  lemma ReadEncodedKey(num: FieldNumber, wireType: nat, tail: seq<byte>)
    requires wireType < 8
    ensures ReadKey(Key(num, wireType) + tail) == Some(Read(Tag(num, wireType), |Key(num, wireType)|))
  {
    DecodeInvertsEncode(8 * num + wireType, tail);
  }

  lemma ReadEncodedRecord(r: Record)
    requires Emittable(r)
    ensures ReadRecord(EncodeRecord(r)) == Some(TokenOf(r))
  {
    var key, body := Key(r.num, WireType(r)), Body(r);
    assert EncodeRecord(r) == key + body;
    ReadEncodedKey(r.num, WireType(r), body);
    ReadBodyOf(r);
    JoinKeyAndBody(r, key, body);
  }

  lemma JoinKeyAndBody(r: Record, key: seq<byte>, body: seq<byte>)
    requires EncodeRecord(r) == key + body
    requires ReadKey(key + body) == Some(Read(Tag(r.num, WireType(r)), |key|))
    requires ReadValue(Tag(r.num, WireType(r)), body) == Some(Read(r, |body|))
    ensures ReadRecord(EncodeRecord(r)) == Some(TokenOf(r))
  {
    hide EncodeRecord, ReadKey, ReadValue, WireType;
    assert (key + body)[|key|..] == body;
    assert (key + body)[..|key| + |body|] == key + body;
  }

  function Tokens(rs: seq<Record>): (ts: seq<Token>) {
    if rs == [] then [] else [TokenOf(rs[0])] + Tokens(rs[1..])
  }

  lemma ParseSingle(bs: seq<byte>, t: Token)
    requires bs != [] && ReadRecord(bs) == Some(t) && t.raw == bs
    ensures Parse(bs) == Some([t])
  {
    assert Parse(bs[|bs|..]) == Some([]);
    assert [t] + [] == [t];
  }

  lemma {:induction false} ParseEncoded(rs: seq<Record>)
    requires forall r <- rs :: Emittable(r)
    ensures Parse(EncodeRecords(rs)) == Some(Tokens(rs))
  {
    if rs != [] {
      ReadEncodedRecord(rs[0]);
      ParseEncoded(rs[1..]);
      var bs := EncodeRecord(rs[0]);
      ParseSingle(bs, TokenOf(rs[0]));
      ParseConcat(bs, EncodeRecords(rs[1..]));
    }
  }

  /** Every length-delimited payload is shorter than the encoding it sits in. */
  lemma {:induction false} ShortPayloads(rs: seq<Record>)
    requires |EncodeRecords(rs)| <= MAX_INT
    requires forall r <- rs :: !r.Group?
    ensures forall r <- rs :: Emittable(r)
  {
    if rs != [] {
      ShortPayloads(rs[1..]);
      assert forall r <- rs :: r == rs[0] || r in rs[1..];
    }
  }

  /* ----- groups: no marshaller emits them, and any that arrive are kept as unknown bytes ----- */

  /**
   * After any sequence of records, groups included, the end key with the group's own number closes
   * it, and no other.
   */
  lemma {:induction false} GroupsNest(num: FieldNumber, inner: seq<byte>, end: FieldNumber, tail: seq<byte>)
    requires Parse(inner).Some?
    ensures GroupLength(num, inner + (Key(end, EGROUP) + tail)) ==
            if end == num then Some(|inner| + |Key(end, EGROUP)|) else None
    decreases |inner|
  {
    hide ReadKey, ReadValue, Key;
    var rest := Key(end, EGROUP) + tail;
    if inner == [] {
      assert inner + rest == rest;
      ReadEncodedKey(end, EGROUP, tail);
    } else {
      var key, raw := ReadKey(inner).value, ReadRecord(inner).value.raw;
      NoStrayEnd(key.value.num, inner[key.length..]);
      ReadKeyPrefix(inner, rest);
      ReadValuePrefix(key.value, inner[key.length..], rest);
      assert (inner + rest)[key.length..] == inner[key.length..] + rest;
      GroupsNest(num, inner[|raw|..], end, tail);
      assert (inner + rest)[|raw|..] == inner[|raw|..] + rest;
    }
  }

  lemma NoStrayEnd(num: FieldNumber, bs: seq<byte>)
    ensures forall wireType: nat | wireType in {EGROUP, 6, 7} :: ReadValue(Tag(num, wireType), bs).None?
  {
  }

  /** Any group of any number is one record, which holds all that is between its two keys. */
  lemma ReadGroup(num: FieldNumber, inner: seq<byte>)
    requires Parse(inner).Some?
    ensures
      var bs := Key(num, SGROUP) + (inner + Key(num, EGROUP));
      ReadRecord(bs) == Some(Token(Group(num, inner + Key(num, EGROUP)), bs))
  {
    hide ReadKey, Key, Parse;
    var body := inner + Key(num, EGROUP);
    var bs := Key(num, SGROUP) + body;
    ReadEncodedKey(num, SGROUP, body);
    GroupsNest(num, inner, num, []);
    assert body == inner + (Key(num, EGROUP) + []);
    assert bs[|Key(num, SGROUP)|..] == body;
    assert body[..|body|] == body && bs[..|bs|] == bs;
  }

  /** An end key outside a group, the two unused wire types, and field number 0 are malformed. */
  lemma Malformed(num: FieldNumber, wireType: nat, bs: seq<byte>)
    requires wireType in {EGROUP, 6, 7}
    ensures ReadRecord(Key(num, wireType) + bs).None?
    ensures DecodeVarint(bs).Some? && DecodeVarint(bs).value.value < 8 ==> ReadRecord(bs).None?
  {
    hide Key;
    ReadEncodedKey(num, wireType, bs);
    NoStrayEnd(num, (Key(num, wireType) + bs)[|Key(num, wireType)|..]);
  }

  /** Byte i of the little-endian form is digit i of the value to the base 256. */
  lemma {:induction false} LittleEndianDigit(v: nat, n: nat, i: nat)
    requires i < n
    ensures LittleEndian(v, n)[i] == (v / Pow256(i)) % 0x100
  {
    if i > 0 {
      LittleEndianDigit(v / 0x100, n - 1, i - 1);
      DivideTwice(v, 0x100, Pow256(i - 1));
    }
  }
}
