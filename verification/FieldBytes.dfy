/**
 * A message as bytes: what the guard and the statements of each field of a marshaller put down, with
 * the literal key, read forwards. No field numbers, wire types or records appear here.
 */
module FieldBytes {
  import opened GoTypes
  import opened Varint
  import opened Wire
  import opened Messages

  type Bytes = seq<byte>

  /** A record with a length: key, length, payload. */
  function Prefixed(key: Bytes, payload: Bytes): Bytes {
    key + VarintBytes(|payload|) + payload
  }

  function StringBytes(key: Bytes, s: Bytes): Bytes {
    if s == [] then [] else Prefixed(key, s)
  }

  function NumberBytes(key: Bytes, v: uint64): Bytes {
    if v == 0 then [] else key + VarintBytes(v)
  }

  function BoolBytes(key: Bytes, b: bool): Bytes {
    if b then key + [1] else []
  }

  function DoubleBytes(key: Bytes, bits: uint64): Bytes {
    if bits in {0, TWO_TO_THE_63} then [] else key + LittleEndian(bits, 8)
  }

  function MessageBytes(key: Bytes, payload: Option<Bytes>): Bytes {
    if payload.None? then [] else Prefixed(key, payload.value)
  }

  function ElementBytes(key: Bytes, payloads: seq<Bytes>): Bytes {
    if payloads == [] then [] else Prefixed(key, payloads[0]) + ElementBytes(key, payloads[1..])
  }

  function Join(chunks: seq<Bytes>): Bytes {
    if chunks == [] then [] else chunks[0] + Join(chunks[1..])
  }

  /* ----- against the records of the fields ----- */

  /** The records of a field have its number, and are these bytes. */
  ghost predicate Emits(f: seq<Record>, num: nat, bytes: Bytes) {
    Numbered(f, num) && EncodeRecords(f) == bytes
  }

  /** Keys of the field numbers up to 15. */
  lemma OneByteKeys()
    ensures forall num: FieldNumber, wireType: nat | num < 16
      && wireType < 8 :: Key(num, wireType) == [8 * num + wireType]
  {
  }

  lemma StringEmits(num: FieldNumber, key: Bytes, s: Bytes)
    requires key == Key(num, LEN)
    ensures Emits(StringField(num, s), num, StringBytes(key, s))
  {
    hide VarintBytes, Key, EncodeRecords;
    EncodeNone();
    EncodeOne(Len(num, s));
  }

  lemma NumberEmits(num: FieldNumber, key: Bytes, v: uint64)
    requires key == Key(num, VARINT)
    ensures Emits(VarintField(num, v), num, NumberBytes(key, v))
  {
    hide VarintBytes, Key, EncodeRecords;
    EncodeNone();
    EncodeOne(Record.Varint(num, v));
  }

  lemma BoolEmits(num: FieldNumber, key: Bytes, b: bool)
    requires key == Key(num, VARINT)
    ensures Emits(BoolField(num, b), num, BoolBytes(key, b))
  {
    assert VarintBytes(1) == [1];
    hide Key, EncodeRecords, VarintBytes;
    EncodeNone();
    EncodeOne(Record.Varint(num, 1));
  }

  lemma DoubleEmits(num: FieldNumber, key: Bytes, bits: uint64)
    requires key == Key(num, I64)
    ensures Emits(DoubleField(num, bits), num, DoubleBytes(key, bits))
  {
    hide Key, EncodeRecords, LittleEndian;
    EncodeNone();
    EncodeOne(Fixed64(num, bits));
  }

  lemma MessageEmits(num: FieldNumber, key: Bytes, payload: Option<Bytes>)
    requires key == Key(num, LEN)
    ensures Emits(OptionalField(num, payload), num, MessageBytes(key, payload))
  {
    hide VarintBytes, Key, EncodeRecords;
    EncodeNone();
    if payload.Some? {
      EncodeOne(Len(num, payload.value));
    }
  }

  lemma {:induction false} ElementsEmit(num: FieldNumber, key: Bytes, payloads: seq<Bytes>)
    requires key == Key(num, LEN)
    ensures Emits(RepeatedField(num, payloads), num, ElementBytes(key, payloads))
  {
    hide VarintBytes, Key;
    RepeatedNumbers(num, payloads);
    if payloads != [] {
      ElementsEmit(num, key, payloads[1..]);
    }
  }

  /** Field by field, the encoding of a message is the chunks one after the other, then the unknown bytes. */
  lemma {:induction false} JoinFields(fs: seq<seq<Record>>, chunks: seq<Bytes>, unknownFields: Bytes)
    requires |fs| == |chunks|
    requires forall i | 0 <= i < |fs| :: EncodeRecords(fs[i]) == chunks[i]
    ensures EncodeFields(fs, unknownFields) == Join(chunks) + unknownFields
  {
    hide EncodeRecords;
    if fs != [] {
      forall i | 0 <= i < |fs[1..]| ensures EncodeRecords(fs[1..][i]) == chunks[1..][i] {
        assert EncodeRecords(fs[i + 1]) == chunks[i + 1];
      }
      JoinFields(fs[1..], chunks[1..], unknownFields);
    }
  }

  /**
   * The bytes of the fields, which the message consists of; when the fields are numbered from 1 on,
   * the numbers of its records never decrease.
   */
  lemma Chunks(fs: seq<seq<Record>>, unknownFields: Bytes) returns (chunks: seq<Bytes>)
    requires forall i | 0 <= i < |fs| :: Numbered(fs[i], i + 1)
    ensures |chunks| == |fs| && forall i | 0 <= i < |fs| :: chunks[i] == EncodeRecords(fs[i])
    ensures EncodeFields(fs, unknownFields) == Join(chunks) + unknownFields
    ensures NumbersSorted(Flatten(fs))
  {
    hide EncodeRecords, Flatten, Numbered;
    chunks := seq(|fs|, i requires 0 <= i < |fs| => EncodeRecords(fs[i]));
    JoinFields(fs, chunks, unknownFields);
    SortedFrom(fs, i => i + 1, 0);
    assert fs[0..] == fs;
  }

  lemma JoinOne(a: Bytes)
    ensures Join([a]) == a
  {
    assert [a][1..] == [];
  }

  lemma JoinTwo(a: Bytes, b: Bytes)
    ensures Join([a, b]) == a + b
  {
    assert [a, b][1..] == [b];
    JoinOne(b);
  }

  /** When all chunks but one are empty, that one is all there is. */
  lemma {:induction false} JoinOnly(chunks: seq<Bytes>, i: nat)
    requires i < |chunks|
    requires forall j | 0 <= j < |chunks| && j != i :: chunks[j] == []
    ensures Join(chunks) == chunks[i]
  {
    if i == 0 {
      JoinEmpty(chunks[1..]);
    } else {
      JoinOnly(chunks[1..], i - 1);
    }
  }

  lemma {:induction false} JoinEmpty(chunks: seq<Bytes>)
    requires forall j | 0 <= j < |chunks| :: chunks[j] == []
    ensures Join(chunks) == []
  {
    if chunks != [] {
      JoinEmpty(chunks[1..]);
    }
  }
}
