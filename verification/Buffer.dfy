/**
 * The buffer that marshallers fill backwards. A Go slice dAtA[:i] is modelled as the array dAtA
 * with the end index i, so a submessage is written in place into the prefix its parent hands down.
 */
module Buffer {
  import opened GoTypes
  import opened Varint
  import opened Wire
  import opened Messages

  /** buf with `out` written so that it ends just before index `end`. */
  ghost function Splice(buf: seq<byte>, end: nat, out: seq<byte>): (r: seq<byte>)
    requires |out| <= end <= |buf|
    ensures |r| == |buf|
  {
    buf[..end - |out|] + out + buf[end..]
  }

  /** A splice holds `out` just before `end`, and is unchanged below it and from `end` on. */
  lemma SpliceFrame(buf: seq<byte>, end: nat, out: seq<byte>, after: seq<byte>)
    requires |out| <= end <= |buf| == |after|
    ensures after == Splice(buf, end, out) <==>
      && after[end - |out|..end] == out
      && after[..end - |out|] == buf[..end - |out|]
      && after[end..] == buf[end..]
  {
    if after[end - |out|..end] == out && after[..end - |out|] == buf[..end - |out|] && after[end..] == buf[end..] {
      assert after == after[..end - |out|] + after[end - |out|..end] + after[end..];
    }
  }

  /** The bytes between j and i are `out`. */
  ghost predicate Inserted(buf: seq<byte>, j: nat, i: nat, out: seq<byte>) {
    j <= i <= |buf| && buf[j..i] == out
  }

  /** A nil message writes nothing. */
  lemma SpliceNothing(buf: seq<byte>, end: nat)
    requires end <= |buf|
    ensures Splice(buf, end, []) == buf
  {
  }

  /** Writing y in front of x is writing y + x. */
  lemma SpliceTwice(buf: seq<byte>, end: nat, x: seq<byte>, y: seq<byte>)
    requires |x| + |y| <= end <= |buf|
    ensures Splice(Splice(buf, end, x), end - |x|, y) == Splice(buf, end, y + x)
  {
  }

  /** Go's copy(dAtA[j:], s) with j = i - len(s). */
  method CopyBytes(dAtA: array<byte>, i: nat, s: seq<byte>) returns (j: nat)
    requires |s| <= i <= dAtA.Length
    modifies dAtA
    ensures j == i - |s|
    ensures dAtA[..] == Splice(old(dAtA[..]), i, s)
  {
    j := i - |s|;
    forall k | 0 <= k < |s| {
      dAtA[j + k] := s[k];
    }
  }

  /** Writes v as a varint that ends just before offset, and returns where it starts. */
  method EncodeVarint(dAtA: array<byte>, offset: nat, v: uint64) returns (base: nat)
    requires SizeOfVarint(v) <= offset <= dAtA.Length
    modifies dAtA
    ensures base == offset - |VarintBytes(v)|
    ensures dAtA[..] == Splice(old(dAtA[..]), offset, VarintBytes(v))
  {
    SizeIsLength(v);
    ghost var want := Splice(dAtA[..], offset, VarintBytes(v));
    base := offset - SizeOfVarint(v);
    var o, w := base, v;
    while w >= 0x80
      invariant 0 <= o && o + |VarintBytes(w)| == offset
      invariant dAtA[..o] + VarintBytes(w) + dAtA[offset..] == want
      decreases w
    {
      ghost var before := dAtA[..o];
      dAtA[o] := w % 0x80 + 0x80;
      assert dAtA[..o + 1] == before + [w % 0x80 + 0x80];
      assert before + VarintBytes(w) == dAtA[..o + 1] + VarintBytes(w / 0x80);
      w := w / 0x80;
      o := o + 1;
    }
    dAtA[o] := w;
    assert dAtA[..] == dAtA[..o] + [w] + dAtA[offset..];
  }

  /** binary.LittleEndian.PutUint64(dAtA[i:], v) with i = end - 8. */
  method PutUint64(dAtA: array<byte>, end: nat, v: uint64) returns (i: nat)
    requires 8 <= end <= dAtA.Length
    modifies dAtA
    ensures i == end - 8
    ensures dAtA[..] == Splice(old(dAtA[..]), end, LittleEndian(v, 8))
  {
    ghost var want := Splice(dAtA[..], end, LittleEndian(v, 8));
    i := end - 8;
    var w := v;
    for k := 0 to 8
      invariant 0 <= w < TWO_TO_THE_64
      invariant dAtA[..i + k] + LittleEndian(w, 8 - k) + dAtA[end..] == want
    {
      ghost var before := dAtA[..i + k];
      dAtA[i + k] := w % 0x100;
      assert dAtA[..i + k + 1] == before + [w % 0x100];
      assert before + LittleEndian(w, 8 - k) == dAtA[..i + k + 1] + LittleEndian(w / 0x100, 8 - (k + 1));
      w := w / 0x100;
    }
    assert dAtA[..] == dAtA[..end] + LittleEndian(w, 0) + dAtA[end..];
  }

  /**
   * What one marshaller call has to write: the fields and unknown bytes of a message, so that
   * they end just before `end` in a buffer that held `base` when the call was made.
   */
  datatype Job = Job(base: seq<byte>, end: nat, fields: seq<seq<Record>>, unknownFields: seq<byte>) {

    ghost predicate Valid() {
      |EncodeFields(fields, unknownFields)| <= end <= |base| <= MAX_INT
    }

    /** The bytes of field k and of everything after it. */
    ghost function From(k: nat): seq<byte>
      requires k <= |fields|
    {
      EncodeFields(fields[k..], unknownFields)
    }

    /** Exactly `out` has been written, down to index i, and nothing else has changed. */
    ghost predicate Holds(buf: seq<byte>, i: nat, out: seq<byte>) {
      |out| <= end <= |base| && i == end - |out| && buf == Splice(base, end, out)
    }

    /** Field k and everything after it has been written. */
    ghost predicate Done(buf: seq<byte>, i: nat, k: nat) {
      k <= |fields| && Holds(buf, i, From(k))
    }

    /**
     * The bytes before `end` are `out`, and from there on nothing has changed. A marshaller that fails
     * promises this of what it had written; the child that failed may have used the room below.
     */
    ghost predicate Kept(buf: seq<byte>, out: seq<byte>) {
      |out| <= end <= |base| == |buf| && buf[end - |out|..end] == out && buf[end..] == base[end..]
    }

    lemma Extend(buf: seq<byte>, i: nat, out: seq<byte>, more: seq<byte>)
      requires Holds(buf, i, out)
      requires |more| <= i
      ensures Holds(Splice(buf, i, more), i - |more|, more + out)
    {
      SpliceTwice(base, end, out, more);
    }

    lemma Unfold(k: nat)
      requires k < |fields|
      ensures From(k) == EncodeRecords(fields[k]) + From(k + 1)
    {
      assert fields[k..][1..] == fields[k + 1..];
    }

    /** Once field k has been written, its bytes stand in front of what was written before. */
    lemma InFront(buf: seq<byte>, i: nat, j: nat, k: nat)
      requires k < |fields| && Done(buf, j, k)
      requires |From(k + 1)| <= end && i == end - |From(k + 1)|
      ensures Inserted(buf, j, i, EncodeRecords(fields[k]))
    {
      hide EncodeRecords;
      Unfold(k);
    }

    /** There is room for field k in front of what follows it. */
    lemma {:induction false} Room(k: nat)
      requires Valid()
      requires k < |fields|
      ensures From(k) == EncodeRecords(fields[k]) + From(k + 1)
      ensures |From(k)| <= end
    {
      hide EncodeRecords;
      Unfold(k);
      if k == 0 {
        assert fields[0..] == fields;
      } else {
        Room(k - 1);
      }
    }
  }

  lemma LenBytes(num: FieldNumber, payload: seq<byte>)
    ensures EncodeRecord(Len(num, payload)) == Key(num, LEN) + VarintBytes(|payload|) + payload
  {
  }

  lemma ScalarBytes(num: FieldNumber, v: uint64)
    ensures EncodeRecord(Record.Varint(num, v)) == Key(num, VARINT) + VarintBytes(v)
    ensures EncodeRecord(Fixed64(num, v)) == Key(num, I64) + LittleEndian(v, 8)
  {
  }

  lemma JobFits(job: Job)
    requires |EncodeFields(job.fields, job.unknownFields)| <= job.end <= |job.base| <= MAX_INT
    ensures job.Valid()
  {
  }

  /** From(0) is the whole message. */
  lemma Finish(job: Job, buf: seq<byte>, i: nat)
    requires job.Done(buf, i, 0)
    ensures i <= job.end && job.end - i == |EncodeFields(job.fields, job.unknownFields)|
    ensures buf == Splice(job.base, job.end, EncodeFields(job.fields, job.unknownFields))
  {
    WholeMessage(job);
  }

  lemma WholeMessage(job: Job)
    ensures job.From(0) == EncodeFields(job.fields, job.unknownFields)
  {
    assert job.fields[0..] == job.fields;
  }

  /** After the last field come the unknown bytes. */
  lemma UnknownOnly(job: Job)
    ensures job.From(|job.fields|) == job.unknownFields
  {
    assert job.fields[|job.fields|..] == [];
  }

  /** unknownFields go last, so they are written first. */
  method PutUnknown(dAtA: array<byte>, end: nat, unknownFields: seq<byte>, ghost job: Job) returns (i: nat)
    requires job.Valid() && job.base == dAtA[..] && job.end == end && job.unknownFields == unknownFields
    modifies dAtA
    ensures job.Done(dAtA[..], i, |job.fields|)
  {
    EncodeFieldsFlat(job.fields, unknownFields);
    i := CopyBytes(dAtA, end, unknownFields);
    assert job.fields[|job.fields|..] == [];
  }

  lemma Regroup<T>(a: seq<T>, b: seq<T>, c: seq<T>, d: seq<T>)
    ensures a + (b + (c + d)) == (a + b + c) + d
  {
  }

  lemma LenRecordBytes(num: FieldNumber, payload: seq<byte>, out: seq<byte>)
    ensures Key(num, LEN) + (VarintBytes(|payload|) + (payload + out)) == EncodeRecord(Len(num, payload)) + out
  {
    hide VarintBytes, Key;
    Regroup(Key(num, LEN), VarintBytes(|payload|), payload, out);
  }

  lemma VarintRecordBytes(num: FieldNumber, v: uint64, out: seq<byte>)
    ensures Key(num, VARINT) + (VarintBytes(v) + out) == EncodeRecord(Record.Varint(num, v)) + out
  {
    hide VarintBytes;
  }

  lemma Fixed64RecordBytes(num: FieldNumber, bits: uint64, out: seq<byte>)
    ensures Key(num, I64) + (LittleEndian(bits, 8) + out) == EncodeRecord(Fixed64(num, bits)) + out
  {
    hide LittleEndian, VarintBytes;
  }

  /** Completes a length-delimited record whose payload has just been written: length, then key. */
  method PutPrefix(dAtA: array<byte>, i: nat, size: nat, key: seq<byte>,
                   ghost num: FieldNumber, ghost payload: seq<byte>, ghost out: seq<byte>, ghost job: Job)
    returns (j: nat)
    requires job.Holds(dAtA[..], i, payload + out)
    requires key == Key(num, LEN) && size == |payload| <= MAX_INT
    requires |EncodeRecord(Len(num, payload))| + |out| <= job.end
    modifies dAtA
    ensures job.Holds(dAtA[..], j, EncodeRecord(Len(num, payload)) + out)
  {
    hide EncodeRecord, VarintBytes, Key;
    ghost var len := VarintBytes(size);
    LenRecordBytes(num, payload, out);
    SizeIsLength(size);
    job.Extend(dAtA[..], i, payload + out, len);
    j := EncodeVarint(dAtA, i, size);
    job.Extend(dAtA[..], j, len + (payload + out), key);
    j := CopyBytes(dAtA, j, key);
  }

  /** A proto3 string field: written only when it is not empty. */
  method PutString(dAtA: array<byte>, i: nat, key: seq<byte>, s: seq<byte>,
                   ghost num: FieldNumber, ghost k: nat, ghost job: Job)
    returns (j: nat)
    requires job.Valid() && job.Done(dAtA[..], i, k + 1)
    requires job.fields[k] == StringField(num, s) && key == Key(num, LEN)
    modifies dAtA
    ensures job.Done(dAtA[..], j, k)
    ensures Inserted(dAtA[..], j, i, if s == [] then [] else key + VarintBytes(|s|) + s)
  {
    hide EncodeRecord, VarintBytes;
    job.Room(k);
    ghost var out := job.From(k + 1);
    j := i;
    if |s| > 0 {
      EncodeOne(Len(num, s));
      PayloadShorter(num, s);
      job.Extend(dAtA[..], j, out, s);
      j := CopyBytes(dAtA, j, s);
      j := PutPrefix(dAtA, j, |s|, key, num, s, out, job);
      job.InFront(dAtA[..], i, j, k);
      LenBytes(num, s);
    }
  }

  /** A varint field behind its `!= 0` guard. */
  method PutVarint(dAtA: array<byte>, i: nat, key: seq<byte>, v: uint64,
                   ghost num: FieldNumber, ghost k: nat, ghost job: Job)
    returns (j: nat)
    requires job.Valid() && job.Done(dAtA[..], i, k + 1)
    requires job.fields[k] == VarintField(num, v) && key == Key(num, VARINT)
    modifies dAtA
    ensures job.Done(dAtA[..], j, k)
    ensures Inserted(dAtA[..], j, i, if v == 0 then [] else key + VarintBytes(v))
  {
    hide VarintBytes, EncodeRecord, Key;
    job.Room(k);
    ghost var out := job.From(k + 1);
    j := i;
    if v != 0 {
      VarintRecordBytes(num, v, out);
      EncodeOne(Record.Varint(num, v));
      SizeIsLength(v);
      job.Extend(dAtA[..], j, out, VarintBytes(v));
      j := EncodeVarint(dAtA, j, v);
      job.Extend(dAtA[..], j, VarintBytes(v) + out, key);
      j := CopyBytes(dAtA, j, key);
      job.InFront(dAtA[..], i, j, k);
      ScalarBytes(num, v);
    }
  }

  /** A bool field: one byte, and only when it is true. */
  method PutBool(dAtA: array<byte>, i: nat, key: seq<byte>, b: bool,
                 ghost num: FieldNumber, ghost k: nat, ghost job: Job)
    returns (j: nat)
    requires job.Valid() && job.Done(dAtA[..], i, k + 1)
    requires job.fields[k] == BoolField(num, b) && key == Key(num, VARINT)
    modifies dAtA
    ensures job.Done(dAtA[..], j, k)
    ensures Inserted(dAtA[..], j, i, if b then key + [1] else [])
  {
    hide EncodeRecord, Key;
    job.Room(k);
    ghost var out := job.From(k + 1);
    j := i;
    if b {
      VarintRecordBytes(num, 1, out);
      EncodeOne(Record.Varint(num, 1));
      assert VarintBytes(1) == [1];
      job.Extend(dAtA[..], j, out, [1]);
      j := CopyBytes(dAtA, j, [if b then 1 else 0]);
      job.Extend(dAtA[..], j, [1] + out, key);
      j := CopyBytes(dAtA, j, key);
      job.InFront(dAtA[..], i, j, k);
      ScalarBytes(num, 1);
    }
  }

  /** A double field behind its `!= 0` guard: eight bytes, least significant first. */
  method PutDouble(dAtA: array<byte>, i: nat, key: seq<byte>, bits: uint64,
                   ghost num: FieldNumber, ghost k: nat, ghost job: Job)
    returns (j: nat)
    requires job.Valid() && job.Done(dAtA[..], i, k + 1)
    requires job.fields[k] == DoubleField(num, bits) && key == Key(num, I64)
    modifies dAtA
    ensures job.Done(dAtA[..], j, k)
    ensures Inserted(dAtA[..], j, i, if bits == 0 || bits == TWO_TO_THE_63 then [] else key + LittleEndian(bits, 8))
  {
    hide LittleEndian, EncodeRecord, EncodeRecords, Key, Splice;
    job.Room(k);
    ghost var out := job.From(k + 1);
    j := i;
    if !IsZeroDouble(bits) {
      EncodeOne(Fixed64(num, bits));
      Fixed64RecordBytes(num, bits, out);
      ghost var le := LittleEndian(bits, 8);
      job.Extend(dAtA[..], j, out, le);
      j := PutUint64(dAtA, j, bits);
      job.Extend(dAtA[..], j, le + out, key);
      j := CopyBytes(dAtA, j, key);
      job.InFront(dAtA[..], i, j, k);
      ScalarBytes(num, bits);
    } else {
      AbsentField(job, k);
    }
  }

  /** Element j of a repeated field and everything after it. */
  ghost function Elements(job: Job, k: nat, num: FieldNumber, payloads: seq<seq<byte>>, j: nat): seq<byte>
    requires k < |job.fields| && j <= |payloads|
  {
    EncodeRecords(RepeatedField(num, payloads[j..])) + job.From(k + 1)
  }

  lemma ElementsEnds(job: Job, k: nat, num: FieldNumber, payloads: seq<seq<byte>>)
    requires k < |job.fields| && job.fields[k] == RepeatedField(num, payloads)
    ensures Elements(job, k, num, payloads, |payloads|) == job.From(k + 1)
    ensures Elements(job, k, num, payloads, 0) == job.From(k)
  {
    hide EncodeRecords;
    EncodeNone();
    job.Unfold(k);
    assert payloads[0..] == payloads;
    assert RepeatedField(num, payloads[|payloads|..]) == [];
    assert [] + job.From(k + 1) == job.From(k + 1);
  }

  lemma ElementsUnfold(job: Job, k: nat, num: FieldNumber, payloads: seq<seq<byte>>, j: nat)
    requires k < |job.fields| && j < |payloads|
    ensures Elements(job, k, num, payloads, j) ==
            EncodeRecord(Len(num, payloads[j])) + Elements(job, k, num, payloads, j + 1)
  {
    hide EncodeRecord, EncodeRecords;
    RepeatedUnfold(num, payloads[j..]);
    assert payloads[j..][1..] == payloads[j + 1..];
  }

  /** Before submessage j of a repeated field is written, there is room for its whole record. */
  lemma RoomForElement(job: Job, k: nat, num: FieldNumber, payloads: seq<seq<byte>>, j: nat, buf: seq<byte>, i: nat)
    requires job.Valid() && k < |job.fields| && job.fields[k] == RepeatedField(num, payloads)
    requires j < |payloads| && job.Holds(buf, i, Elements(job, k, num, payloads, j + 1))
    ensures Elements(job, k, num, payloads, j) ==
            EncodeRecord(Len(num, payloads[j])) + Elements(job, k, num, payloads, j + 1)
    ensures |Elements(job, k, num, payloads, j)| <= job.end
    ensures |payloads[j]| <= i <= job.end
    ensures job.Holds(Splice(buf, i, payloads[j]), i - |payloads[j]|,
      payloads[j] + Elements(job, k, num, payloads, j + 1))
  {
    hide EncodeRecord, EncodeRecords, RepeatedField;
    job.Room(k);
    RepeatedSuffix(num, payloads, j);
    ElementsUnfold(job, k, num, payloads, j);
    PayloadShorter(num, payloads[j]);
    job.Extend(buf, i, Elements(job, k, num, payloads, j + 1), payloads[j]);
  }

  /** Before a singular submessage is written, there is room for its whole record. */
  lemma RoomForMessage(job: Job, k: nat, num: FieldNumber, payload: seq<byte>, buf: seq<byte>, i: nat)
    requires job.Valid() && k < |job.fields| && job.fields[k] == OptionalField(num, Some(payload))
    requires job.Done(buf, i, k + 1)
    ensures job.From(k) == EncodeRecord(Len(num, payload)) + job.From(k + 1)
    ensures |job.From(k)| <= job.end
    ensures |payload| <= i <= job.end
    ensures job.Holds(Splice(buf, i, payload), i - |payload|, payload + job.From(k + 1))
  {
    hide EncodeRecord, EncodeRecords;
    job.Room(k);
    EncodeOne(Len(num, payload));
    PayloadShorter(num, payload);
    job.Extend(buf, i, job.From(k + 1), payload);
  }

  lemma AbsentField(job: Job, k: nat)
    requires k < |job.fields| && job.fields[k] == []
    ensures job.From(k) == job.From(k + 1)
  {
    hide EncodeRecords;
    job.Unfold(k);
    EncodeNone();
  }

  lemma RepeatedUnfold(num: FieldNumber, payloads: seq<seq<byte>>)
    requires payloads != []
    ensures EncodeRecords(RepeatedField(num, payloads)) ==
            EncodeRecord(Len(num, payloads[0])) + EncodeRecords(RepeatedField(num, payloads[1..]))
  {
    hide EncodeRecord;
    var rs := RepeatedField(num, payloads);
    assert rs[1..] == RepeatedField(num, payloads[1..]);
  }

  lemma {:induction false} RepeatedSuffix(num: FieldNumber, payloads: seq<seq<byte>>, j: nat)
    requires j <= |payloads|
    ensures |EncodeRecords(RepeatedField(num, payloads[j..]))| <= |EncodeRecords(RepeatedField(num, payloads))|
  {
    hide EncodeRecord;
    if j == 0 {
      assert payloads[0..] == payloads;
    } else {
      RepeatedUnfold(num, payloads);
      RepeatedSuffix(num, payloads[1..], j - 1);
      assert payloads[1..][j - 1..] == payloads[j..];
    }
  }

  /** A repeated string field, walked from last to first. */
  method PutStrings(dAtA: array<byte>, i: nat, key: seq<byte>, ss: seq<seq<byte>>,
                    ghost num: FieldNumber, ghost k: nat, ghost job: Job)
    returns (j: nat)
    requires job.Valid() && job.Done(dAtA[..], i, k + 1) && k < |job.fields|
    requires job.fields[k] == RepeatedField(num, ss) && key == Key(num, LEN)
    modifies dAtA
    ensures job.Done(dAtA[..], j, k)
  {
    hide EncodeRecord, Elements, Key;
    ElementsEnds(job, k, num, ss);
    j := i;
    var iNdEx := |ss| - 1;
    while iNdEx >= 0
      invariant -1 <= iNdEx < |ss|
      invariant job.Holds(dAtA[..], j, Elements(job, k, num, ss, iNdEx + 1))
    {
      RoomForElement(job, k, num, ss, iNdEx, dAtA[..], j);
      j := CopyBytes(dAtA, j, ss[iNdEx]);
      j := PutPrefix(dAtA, j, |ss[iNdEx]|, key, num, ss[iNdEx], Elements(job, k, num, ss, iNdEx + 1), job);
      iNdEx := iNdEx - 1;
    }
  }

  /** A child whose type this project keeps opaque: it writes its own bytes, as every child does. */
  method MarshalOpaque(child: seq<byte>, dAtA: array<byte>, end: nat) returns (n: nat)
    requires |child| <= end <= dAtA.Length
    modifies dAtA
    ensures n == |child|
    ensures dAtA[..] == Splice(old(dAtA[..]), end, child)
  {
    var i := CopyBytes(dAtA, end, child);
    n := end - i;
  }

  /** An optional submessage of an opaque type: the child writes itself, then come length and key. */
  method PutOpaque(dAtA: array<byte>, i: nat, key: seq<byte>, child: Option<seq<byte>>,
                   ghost num: FieldNumber, ghost k: nat, ghost job: Job)
    returns (j: nat)
    requires job.Valid() && job.Done(dAtA[..], i, k + 1) && k < |job.fields|
    requires job.fields[k] == OptionalField(num, child) && key == Key(num, LEN)
    modifies dAtA
    ensures job.Done(dAtA[..], j, k)
  {
    hide EncodeRecord, Key;
    j := i;
    if child.Some? {
      RoomForMessage(job, k, num, child.value, dAtA[..], i);
      var size := MarshalOpaque(child.value, dAtA, i);
      j := PutPrefix(dAtA, i - size, size, key, num, child.value, job.From(k + 1), job);
    } else {
      AbsentField(job, k);
    }
  }

  /* ----- SizeVT: n accumulates what the fields before k take ----- */

  /** Fields 0 to k - 1 take n bytes. */
  ghost predicate Sized(job: Job, n: int, k: nat) {
    k <= |job.fields| && n + |job.From(k)| == |EncodeFields(job.fields, job.unknownFields)|
  }

  lemma SizedStart(job: Job)
    ensures Sized(job, 0, 0)
  {
    WholeMessage(job);
  }

  lemma SizedEnd(job: Job, n: int)
    requires Sized(job, n, |job.fields|)
    ensures n + |job.unknownFields| == |EncodeFields(job.fields, job.unknownFields)|
  {
  }

  lemma LenRecordSize(num: FieldNumber, payload: seq<byte>)
    ensures |EncodeRecord(Len(num, payload))| == |Key(num, LEN)| + |payload| + SizeOfVarint(|payload|)
  {
    hide VarintBytes, SizeOfVarint;
    SizeIsLength(|payload|);
  }

  lemma VarintRecordSize(num: FieldNumber, v: uint64)
    ensures |EncodeRecord(Record.Varint(num, v))| == |Key(num, VARINT)| + SizeOfVarint(v)
  {
    hide VarintBytes, SizeOfVarint;
    SizeIsLength(v);
  }

  method AddString(n: int, keySize: int, s: seq<byte>, ghost num: FieldNumber, ghost k: nat, ghost job: Job)
    returns (n': int)
    requires k < |job.fields| && job.fields[k] == StringField(num, s) && keySize == |Key(num, LEN)|
    requires Sized(job, n, k)
    ensures Sized(job, n', k + 1)
  {
    hide EncodeRecord, Key;
    job.Unfold(k);
    EncodeOne(Len(num, s));
    LenRecordSize(num, s);
    var l := |s|;
    n' := n;
    if l > 0 {
      n' := n + keySize + l + SizeOfVarint(l);
    }
  }

  method AddVarint(n: int, keySize: int, v: uint64, ghost num: FieldNumber, ghost k: nat, ghost job: Job)
    returns (n': int)
    requires k < |job.fields| && job.fields[k] == VarintField(num, v) && keySize == |Key(num, VARINT)|
    requires Sized(job, n, k)
    ensures Sized(job, n', k + 1)
  {
    hide EncodeRecord, Key;
    job.Unfold(k);
    EncodeOne(Record.Varint(num, v));
    VarintRecordSize(num, v);
    n' := n;
    if v != 0 {
      n' := n + keySize + SizeOfVarint(v);
    }
  }

  /** A bool adds its key and one byte: the constants 2 and 3 of the source. */
  method AddBool(n: int, recordSize: int, b: bool, ghost num: FieldNumber, ghost k: nat, ghost job: Job)
    returns (n': int)
    requires k < |job.fields| && job.fields[k] == BoolField(num, b) && recordSize == |Key(num, VARINT)| + 1
    requires Sized(job, n, k)
    ensures Sized(job, n', k + 1)
  {
    hide EncodeRecord, Key;
    job.Unfold(k);
    EncodeOne(Record.Varint(num, 1));
    VarintRecordSize(num, 1);
    n' := n;
    if b {
      n' := n + recordSize;
    }
  }

  /** A double adds its key and eight bytes: the constant 9 of the source. */
  method AddDouble(n: int, bits: uint64, ghost num: FieldNumber, ghost k: nat, ghost job: Job)
    returns (n': int)
    requires k < |job.fields| && job.fields[k] == DoubleField(num, bits) && |Key(num, I64)| == 1
    requires Sized(job, n, k)
    ensures Sized(job, n', k + 1)
  {
    hide Key;
    job.Unfold(k);
    EncodeOne(Fixed64(num, bits));
    n' := n;
    if !IsZeroDouble(bits) {
      n' := n + 9;
    }
  }

  /** A submessage that is present adds its key, its own size l and the size of l. */
  method AddMessage(n: int, keySize: int, l: int, ghost num: FieldNumber, ghost payload: seq<byte>,
                    ghost k: nat, ghost job: Job)
    returns (n': int)
    requires k < |job.fields| && job.fields[k] == OptionalField(num, Some(payload)) && keySize == |Key(num, LEN)|
    requires l == |payload| && Sized(job, n, k)
    ensures Sized(job, n', k + 1)
  {
    hide EncodeRecord, Key;
    job.Unfold(k);
    EncodeOne(Len(num, payload));
    LenRecordSize(num, payload);
    n' := n + keySize + l + SizeOfVarint(l);
  }

  method AddOpaque(n: int, keySize: int, child: Option<seq<byte>>, ghost num: FieldNumber, ghost k: nat, ghost job: Job)
    returns (n': int)
    requires k < |job.fields| && job.fields[k] == OptionalField(num, child) && keySize == |Key(num, LEN)|
    requires Sized(job, n, k)
    ensures Sized(job, n', k + 1)
  {
    hide EncodeRecord, Key;
    n' := n;
    if child.Some? {
      n' := AddMessage(n, keySize, |child.value|, num, child.value, k, job);
    } else {
      AbsentField(job, k);
    }
  }

  /** Elements 0 to j - 1 of repeated field k, with the fields before it, take n bytes. */
  ghost predicate SizedElements(job: Job, n: int, k: nat, num: FieldNumber, payloads: seq<seq<byte>>, j: nat) {
    && k < |job.fields| && j <= |payloads|
    && n + |Elements(job, k, num, payloads, j)| == |EncodeFields(job.fields, job.unknownFields)|
  }

  /** One more element adds its key, its own size and the size of that size. */
  lemma SizedElement(job: Job, n: int, k: nat, num: FieldNumber, payloads: seq<seq<byte>>, j: nat)
    requires SizedElements(job, n, k, num, payloads, j) && j < |payloads|
    ensures SizedElements(job, n + |Key(num, LEN)| + |payloads[j]| + SizeOfVarint(|payloads[j]|),
                          k, num, payloads, j + 1)
  {
    hide EncodeRecord, Elements, Key, SizeOfVarint;
    ElementsUnfold(job, k, num, payloads, j);
    LenRecordSize(num, payloads[j]);
  }

  /** A repeated string field adds a whole record for every element, empty ones included. */
  method AddStrings(n: int, keySize: int, ss: seq<seq<byte>>, ghost num: FieldNumber, ghost k: nat, ghost job: Job)
    returns (n': int)
    requires k < |job.fields| && job.fields[k] == RepeatedField(num, ss) && keySize == |Key(num, LEN)|
    requires Sized(job, n, k)
    ensures Sized(job, n', k + 1)
  {
    hide EncodeRecord, Elements, Key, SizeOfVarint;
    ElementsEnds(job, k, num, ss);
    n' := n;
    for j := 0 to |ss|
      invariant SizedElements(job, n', k, num, ss, j)
    {
      SizedElement(job, n', k, num, ss, j);
      var l := |ss[j]|;
      n' := n' + keySize + l + SizeOfVarint(l);
    }
  }
}
