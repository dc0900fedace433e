/**
 * What a message decodes to is never longer, encoded, than the bytes it was decoded from, when each
 * record adds no more to the encoding than its own shortest form.
 */
module Frugal {
  import opened GoTypes
  import opened Varint
  import opened Wire
  import opened Messages

  /** No record makes the known fields longer by more than itself. `size` is their encoded length. */
  ghost predicate IsFrugal<K(!new)>(step: (K, Record) -> Outcome<K>, size: K -> nat) {
    forall k, r :: step(k, r).Updated? ==> size(step(k, r).fields) <= size(k) + |EncodeRecord(r)|
  }

  /** The encoded length of known fields. */
  function Size(fs: seq<seq<Record>>): nat {
    |EncodeFields(fs, [])|
  }

  lemma SizeOfMessage(fs: seq<seq<Record>>, unknownFields: seq<byte>)
    ensures |EncodeFields(fs, unknownFields)| == Size(fs) + |unknownFields|
  {
    EncodeFieldsFlat(fs, unknownFields);
    EncodeFieldsFlat(fs, []);
  }

  /** A record as it stood on the wire is no shorter than its canonical form. */
  lemma RawNoShorter(bs: seq<byte>)
    requires ReadRecord(bs).Some?
    ensures |EncodeRecord(ReadRecord(bs).value.record)| <= |ReadRecord(bs).value.raw|
  {
    hide DecodeVarint, VarintBytes, GroupLength, LittleEndian, FromLittleEndian;
    var key := ReadKey(bs).value;
    KeyNoShorter(bs);
    var rest := bs[key.length..];
    if key.value.wireType == VARINT || key.value.wireType == LEN {
      CanonicalIsShortest(rest, DecodeVarint(rest).value.value);
    }
  }

  lemma KeyNoShorter(bs: seq<byte>)
    requires ReadKey(bs).Some?
    ensures |Key(ReadKey(bs).value.value.num, ReadKey(bs).value.value.wireType)| <= ReadKey(bs).value.length
  {
    CanonicalIsShortest(bs, DecodeVarint(bs).value.value);
  }

  lemma {:induction false} DecodedNoLonger<K(!new)>(
      step: (K, Record) -> Outcome<K>, size: K -> nat, m: Msg<K>, ts: seq<Token>)
    requires IsFrugal(step, size) && DecodeTokens(step, m, ts).Some?
    requires forall t <- ts :: |EncodeRecord(t.record)| <= |t.raw|
    ensures
      var d := DecodeTokens(step, m, ts).value;
      size(d.fields) + |d.unknownFields| <= size(m.fields) + |m.unknownFields| + |Raws(ts)|
    decreases |ts|
  {
    hide EncodeRecord;
    if ts != [] {
      match step(m.fields, ts[0].record) {
        case Updated(k) => DecodedNoLonger(step, size, m.(fields := k), ts[1..]);
        case Unrecognised =>
          DecodedNoLonger(step, size, m.(unknownFields := m.unknownFields + ts[0].raw), ts[1..]);
      }
    }
  }

  lemma {:induction false} TokensNoShorter(bs: seq<byte>)
    requires Parse(bs).Some?
    ensures forall t <- Parse(bs).value :: |EncodeRecord(t.record)| <= |t.raw|
    decreases |bs|
  {
    hide ReadRecord, EncodeRecord;
    if bs != [] {
      RawNoShorter(bs);
      TokensNoShorter(bs[|ReadRecord(bs).value.raw|..]);
    }
  }

  lemma BytesNoLonger<K(!new)>(step: (K, Record) -> Outcome<K>, size: K -> nat, m: Msg<K>, bs: seq<byte>)
    requires IsFrugal(step, size) && DecodeInto(step, m, bs).Some?
    ensures
      var d := DecodeInto(step, m, bs).value;
      size(d.fields) + |d.unknownFields| <= size(m.fields) + |m.unknownFields| + |bs|
  {
    hide Parse, DecodeTokens, IsFrugal, EncodeRecord;
    TokensNoShorter(bs);
    DecodedNoLonger(step, size, m, Parse(bs).value);
    ParseKeepsBytes(bs);
  }

  /* ----- one field ----- */

  /** When field i takes at most `more` bytes more and no other field grows, so does the message. */
  lemma {:induction false} GrowsAt(fs: seq<seq<Record>>, gs: seq<seq<Record>>, i: nat, more: nat)
    requires i < |fs| == |gs|
    requires |EncodeRecords(gs[i])| <= |EncodeRecords(fs[i])| + more
    requires forall j | 0 <= j < |fs| && j != i :: gs[j] == fs[j] || gs[j] == []
    ensures Size(gs) <= Size(fs) + more
  {
    hide EncodeRecords;
    EncodeNone();
    if i == 0 {
      forall j | 0 <= j < |fs[1..]| ensures gs[1..][j] == fs[1..][j] || gs[1..][j] == [] {
        assert gs[1..][j] == gs[j + 1] && fs[1..][j] == fs[j + 1];
      }
      NoneGrows(fs[1..], gs[1..]);
    } else {
      forall j | 0 <= j < |fs[1..]| && j != i - 1 ensures gs[1..][j] == fs[1..][j] || gs[1..][j] == [] {
        assert gs[1..][j] == gs[j + 1] && fs[1..][j] == fs[j + 1];
      }
      GrowsAt(fs[1..], gs[1..], i - 1, more);
    }
  }

  lemma {:induction false} NoneGrows(fs: seq<seq<Record>>, gs: seq<seq<Record>>)
    requires |fs| == |gs| && forall j | 0 <= j < |fs| :: gs[j] == fs[j] || gs[j] == []
    ensures Size(gs) <= Size(fs)
  {
    hide EncodeRecords;
    EncodeNone();
    if fs != [] {
      forall j | 0 <= j < |fs[1..]| ensures gs[1..][j] == fs[1..][j] || gs[1..][j] == [] {
        assert gs[1..][j] == gs[j + 1] && fs[1..][j] == fs[j + 1];
      }
      NoneGrows(fs[1..], gs[1..]);
    }
  }

  lemma StringGrows(num: FieldNumber, p: seq<byte>)
    ensures |EncodeRecords(StringField(num, p))| <= |EncodeRecord(Len(num, p))|
  {
    hide EncodeRecord;
    EncodeNone();
    EncodeOne(Len(num, p));
  }

  lemma VarintGrows(num: FieldNumber, v: uint64)
    ensures |EncodeRecords(VarintField(num, v))| <= |EncodeRecord(Record.Varint(num, v))|
  {
    hide EncodeRecord;
    EncodeNone();
    EncodeOne(Record.Varint(num, v));
  }

  /** Occurrences merged into one record share its key, and their lengths share a varint. */
  lemma OpaqueGrows(num: FieldNumber, a: Option<seq<byte>>, p: seq<byte>)
    ensures |EncodeRecords(OptionalField(num, MergeOpaque(a, Some(p))))| <=
            |EncodeRecords(OptionalField(num, a))| + |EncodeRecord(Len(num, p))|
  {
    hide EncodeRecord;
    EncodeNone();
    if a.Some? {
      EncodeOne(Len(num, a.value));
      EncodeOne(Len(num, a.value + p));
      JoinedRecord(num, a.value, p);
    } else {
      EncodeOne(Len(num, p));
      assert [] + p == p;
    }
  }

  lemma JoinedRecord(num: FieldNumber, p: seq<byte>, q: seq<byte>)
    ensures |EncodeRecord(Len(num, p + q))| <= |EncodeRecord(Len(num, p))| + |EncodeRecord(Len(num, q))|
  {
    hide VarintBytes, SizeOfVarint, Key;
    SizeIsLength(|p|);
    SizeIsLength(|q|);
    SizeIsLength(|p + q|);
    SizeOfSum(|p|, |q|);
  }

  lemma {:induction false} SizeOfSum(v: nat, w: nat)
    ensures SizeOfVarint(v + w) <= SizeOfVarint(v) + SizeOfVarint(w)
  {
    if v <= w {
      SizeOfDouble(w);
      SizeMonotone(v + w, 2 * w);
    } else {
      SizeOfDouble(v);
      SizeMonotone(v + w, 2 * v);
    }
  }

  lemma {:induction false} SizeOfDouble(v: nat)
    ensures SizeOfVarint(2 * v) <= SizeOfVarint(v) + 1
  {
    if v >= 0x80 {
      SizeOfDouble(v / 0x80);
      SizeMonotone(2 * v / 0x80, 2 * (v / 0x80) + 1);
      SizeOfOdd(v / 0x80);
    }
  }

  lemma SizeOfOdd(v: nat)
    ensures SizeOfVarint(2 * v + 1) == SizeOfVarint(2 * v)
  {
    hide SizeOfVarint;
    var q := 2 * v / 0x80;
    var r := 2 * v - 0x80 * q;
    assert r == 2 * (v - 0x40 * q) && 0 <= r < 0x7F;
    SizeByDigit(2 * v, q, r);
    SizeByDigit(2 * v + 1, q, r + 1);
  }

  lemma SizeByDigit(v: nat, q: nat, r: nat)
    requires v == 0x80 * q + r && r < 0x80
    ensures SizeOfVarint(v) == if q == 0 then 1 else 1 + SizeOfVarint(q)
  {
    assert v / 0x80 == q;
  }

  lemma {:induction false} RepeatedAppend(num: FieldNumber, ps: seq<seq<byte>>, p: seq<byte>)
    ensures RepeatedField(num, ps + [p]) == RepeatedField(num, ps) + [Len(num, p)]
  {
    if ps == [] {
      assert [p][1..] == [];
    } else {
      assert (ps + [p])[1..] == ps[1..] + [p];
      RepeatedAppend(num, ps[1..], p);
    }
  }

  /** One more element takes one more record; an element shorter than what it was read from, no longer a record. */
  lemma RepeatedGrows(num: FieldNumber, ps: seq<seq<byte>>, p: seq<byte>, q: seq<byte>)
    requires |p| <= |q|
    ensures |EncodeRecords(RepeatedField(num, ps + [p]))| <=
            |EncodeRecords(RepeatedField(num, ps))| + |EncodeRecord(Len(num, q))|
  {
    hide EncodeRecord, RepeatedField;
    RepeatedAppend(num, ps, p);
    EncodeRecordsConcat(RepeatedField(num, ps), [Len(num, p)]);
    EncodeOne(Len(num, p));
    if |p| < |q| {
      LongerRecord(num, p, q);
    } else {
      RecordLength(num, p, q);
    }
  }
}
