/**
 * What every generated message shares: a struct of known fields beside the bytes of the unknown
 * ones, the forward encoding of both, and the decoder that the wire format specifies
 * (Protocol Buffers Encoding, sections "Submessages" and "Last One Wins").
 */
module Messages {
  import opened GoTypes
  import opened Varint
  import opened Wire

  /** A generated struct: its known fields and its `unknownFields`. A nil pointer is None of this. */
  datatype Msg<+K> = Msg(fields: K, unknownFields: seq<byte>)

  /** What a schema does with one record, given the known fields decoded so far. */
  datatype Outcome<+K> = Updated(fields: K) | Unrecognised | Malformed

  /** The two generations of the admin API. V3 only adds fields, with higher numbers. */
  datatype Schema = V2alpha | V3

  /* ----- the records of one field ----- */

  function StringField(num: FieldNumber, s: seq<byte>): seq<Record> {
    if |s| > 0 then [Len(num, s)] else []
  }

  function VarintField(num: FieldNumber, v: uint64): seq<Record> {
    if v != 0 then [Record.Varint(num, v)] else []
  }

  function BoolField(num: FieldNumber, b: bool): seq<Record> {
    if b then [Record.Varint(num, 1)] else []
  }

  /** A double is its 64 bits; `!= 0` is false of both zeros and of nothing else. */
  predicate IsZeroDouble(bits: uint64) {
    bits == 0 || bits == TWO_TO_THE_63
  }

  function DoubleField(num: FieldNumber, bits: uint64): seq<Record> {
    if IsZeroDouble(bits) then [] else [Fixed64(num, bits)]
  }

  function OptionalField(num: FieldNumber, payload: Option<seq<byte>>): seq<Record> {
    if payload.Some? then [Len(num, payload.value)] else []
  }

  function RepeatedField(num: FieldNumber, payloads: seq<seq<byte>>): seq<Record> {
    if payloads == [] then [] else [Len(num, payloads[0])] + RepeatedField(num, payloads[1..])
  }

  function Map<T, U>(f: T -> U, xs: seq<T>): (ys: seq<U>)
    ensures |ys| == |xs|
    ensures forall i | 0 <= i < |xs| :: ys[i] == f(xs[i])
  {
    if xs == [] then [] else [f(xs[0])] + Map(f, xs[1..])
  }

  function MapOption<T, U>(f: T -> U, x: Option<T>): Option<U> {
    match x
    case None => None
    case Some(v) => Some(f(v))
  }

  /* ----- the forward encoding ----- */

  function Flatten(fs: seq<seq<Record>>): seq<Record> {
    if fs == [] then [] else fs[0] + Flatten(fs[1..])
  }

  /** The known fields in order, then the unknown bytes. */
  function EncodeFields(fs: seq<seq<Record>>, unknownFields: seq<byte>): seq<byte> {
    if fs == [] then unknownFields else EncodeRecords(fs[0]) + EncodeFields(fs[1..], unknownFields)
  }

  lemma {:induction false} EncodeFieldsFlat(fs: seq<seq<Record>>, unknownFields: seq<byte>)
    ensures EncodeFields(fs, unknownFields) == EncodeRecords(Flatten(fs)) + unknownFields
  {
    hide EncodeRecords;
    if fs == [] {
      assert EncodeRecords([]) == [] by { EncodeNone(); }
    } else {
      EncodeFieldsFlat(fs[1..], unknownFields);
      EncodeRecordsConcat(fs[0], Flatten(fs[1..]));
    }
  }

  lemma EncodeNone()
    ensures EncodeRecords([]) == []
  {
  }

  lemma EncodeOne(r: Record)
    ensures EncodeRecords([r]) == EncodeRecord(r)
  {
    hide EncodeRecord;
    assert [r][1..] == [];
    assert EncodeRecord(r) + [] == EncodeRecord(r);
  }

  lemma EncodeSingleField(f: seq<Record>, unknownFields: seq<byte>)
    ensures EncodeFields([f], unknownFields) == EncodeRecords(f) + unknownFields
  {
    hide EncodeRecords;
    assert [f][1..] == [];
  }

  /** A field at the end of the list can as well be taken for unknown bytes that come first. */
  lemma {:induction false} EncodeFieldsSplit(fs: seq<seq<Record>>, gs: seq<seq<Record>>, unknownFields: seq<byte>)
    ensures EncodeFields(fs + gs, unknownFields) == EncodeFields(fs, EncodeFields(gs, unknownFields))
  {
    hide EncodeRecords;
    if fs == [] {
      assert fs + gs == gs;
    } else {
      EncodeFieldsSplit(fs[1..], gs, unknownFields);
      assert (fs + gs)[1..] == fs[1..] + gs;
    }
  }

  /** No field is longer than the message. */
  lemma {:induction false} FieldFits(fs: seq<seq<Record>>, unknownFields: seq<byte>, k: nat)
    requires k < |fs|
    ensures |EncodeRecords(fs[k])| <= |EncodeFields(fs, unknownFields)|
  {
    hide EncodeRecords;
    if k > 0 {
      FieldFits(fs[1..], unknownFields, k - 1);
    }
  }

  lemma PayloadShorter(num: FieldNumber, payload: seq<byte>)
    ensures |payload| < |EncodeRecord(Len(num, payload))|
  {
  }

  lemma {:induction false} RepeatedPayloadFits(num: FieldNumber, payloads: seq<seq<byte>>, j: nat)
    requires j < |payloads|
    ensures |payloads[j]| <= |EncodeRecords(RepeatedField(num, payloads))|
  {
    hide EncodeRecord;
    PayloadShorter(num, payloads[0]);
    if j > 0 {
      RepeatedPayloadFits(num, payloads[1..], j - 1);
    }
  }

  lemma OptionalPayloadFits(num: FieldNumber, payload: seq<byte>)
    ensures |payload| <= |EncodeRecords(OptionalField(num, Some(payload)))|
  {
    EncodeOne(Len(num, payload));
    PayloadShorter(num, payload);
  }

  lemma {:induction false} FlattenMember(fs: seq<seq<Record>>, r: Record)
    requires r in Flatten(fs)
    ensures exists i :: 0 <= i < |fs| && r in fs[i]
  {
    if r in fs[0] {
    } else {
      FlattenMember(fs[1..], r);
      var i :| 0 <= i < |fs[1..]| && r in fs[1..][i];
      assert r in fs[i + 1];
    }
  }

  /* ----- field numbers ----- */

  lemma {:induction false} RepeatedNumbers(num: FieldNumber, ps: seq<seq<byte>>)
    ensures |RepeatedField(num, ps)| == |ps|
    ensures forall j | 0 <= j < |ps| :: RepeatedField(num, ps)[j] == Len(num, ps[j])
  {
    if ps != [] {
      RepeatedNumbers(num, ps[1..]);
    }
  }

  /** All records of one field: they have its number, and none is a group. */
  ghost predicate Numbered(rs: seq<Record>, num: nat) {
    forall j | 0 <= j < |rs| :: rs[j].num == num && !rs[j].Group?
  }

  ghost predicate NumbersSorted(rs: seq<Record>) {
    forall i, j | 0 <= i < j < |rs| :: rs[i].num <= rs[j].num
  }

  /** Fields whose numbers increase flatten to records whose numbers never decrease. */
  lemma {:induction false} SortedFrom(fs: seq<seq<Record>>, at: nat -> nat, k: nat)
    requires k <= |fs|
    requires forall i | k <= i < |fs| :: Numbered(fs[i], at(i))
    requires forall i | k <= i < |fs| - 1 :: at(i) < at(i + 1)
    ensures NumbersSorted(Flatten(fs[k..]))
    ensures k < |fs| ==> forall r <- Flatten(fs[k..]) :: at(k) <= r.num
    decreases |fs| - k
  {
    if k < |fs| {
      SortedFrom(fs, at, k + 1);
      assert fs[k..][1..] == fs[k + 1..];
      var rest := Flatten(fs[k + 1..]);
      assert Flatten(fs[k..]) == fs[k] + rest;
      if k + 1 == |fs| {
        assert fs[k + 1..] == [];
      }
      forall i, j | 0 <= i < j < |fs[k] + rest| ensures (fs[k] + rest)[i].num <= (fs[k] + rest)[j].num {
        if j >= |fs[k]| {
          assert (fs[k] + rest)[j] == rest[j - |fs[k]|] && rest[j - |fs[k]|] in rest;
          if i >= |fs[k]| {
            assert (fs[k] + rest)[i] == rest[i - |fs[k]|];
          }
        }
      }
    }
  }

  /* ----- the specification decoder ----- */

  function DecodeTokens<K>(step: (K, Record) -> Outcome<K>, m: Msg<K>, ts: seq<Token>): Option<Msg<K>>
    decreases |ts|
  {
    if ts == [] then Some(m)
    else
      match step(m.fields, ts[0].record)
      case Updated(k) => DecodeTokens(step, m.(fields := k), ts[1..])
      case Unrecognised => DecodeTokens(step, m.(unknownFields := m.unknownFields + ts[0].raw), ts[1..])
      case Malformed => None
  }

  /** Decodes bs on top of m: records in order, unrecognised ones kept byte for byte. */
  function DecodeInto<K>(step: (K, Record) -> Outcome<K>, m: Msg<K>, bs: seq<byte>): Option<Msg<K>> {
    var ts :- Parse(bs);
    DecodeTokens(step, m, ts)
  }

  /** Bytes that a schema keeps as they are: well-formed records, none of which it recognises. */
  ghost predicate UnknownTo<K(!new)>(step: (K, Record) -> Outcome<K>, bs: seq<byte>) {
    Parse(bs).Some? && NoneRecognised(step, Parse(bs).value)
  }

  ghost predicate NoneRecognised<K(!new)>(step: (K, Record) -> Outcome<K>, ts: seq<Token>) {
    forall i, k | 0 <= i < |ts| :: step(k, ts[i].record) == Unrecognised
  }

  lemma {:induction false} UnknownKept<K(!new)>(step: (K, Record) -> Outcome<K>, m: Msg<K>, ts: seq<Token>)
    requires NoneRecognised(step, ts)
    ensures DecodeTokens(step, m, ts) == Some(m.(unknownFields := m.unknownFields + Raws(ts)))
    decreases |ts|
  {
    if ts == [] {
      assert m.unknownFields + Raws(ts) == m.unknownFields;
    } else {
      assert step(m.fields, ts[0].record) == Unrecognised;
      var m' := m.(unknownFields := m.unknownFields + ts[0].raw);
      UnknownKept(step, m', ts[1..]);
      assert m'.unknownFields + Raws(ts[1..]) == m.unknownFields + (ts[0].raw + Raws(ts[1..]));
    }
  }

  lemma {:induction false} DecodeTokensConcat<K>(
      step: (K, Record) -> Outcome<K>, m: Msg<K>, xs: seq<Token>, ys: seq<Token>)
    ensures DecodeTokens(step, m, xs + ys) ==
            (var m' :- DecodeTokens(step, m, xs); DecodeTokens(step, m', ys))
    decreases |xs|
  {
    if xs == [] {
      assert xs + ys == ys;
    } else {
      assert (xs + ys)[1..] == xs[1..] + ys;
      match step(m.fields, xs[0].record) {
        case Updated(k) => DecodeTokensConcat(step, m.(fields := k), xs[1..], ys);
        case Unrecognised =>
          DecodeTokensConcat(step, m.(unknownFields := m.unknownFields + xs[0].raw), xs[1..], ys);
        case Malformed =>
      }
    }
  }

  /** Decoding a concatenation is decoding the parts one after the other into the same message. */
  lemma DecodeConcat<K>(step: (K, Record) -> Outcome<K>, m: Msg<K>, xs: seq<byte>, ys: seq<byte>)
    requires DecodeInto(step, m, xs).Some?
    ensures DecodeInto(step, m, xs + ys) == DecodeInto(step, DecodeInto(step, m, xs).value, ys)
  {
    hide Parse;
    ParseConcat(xs, ys);
    if Parse(ys).Some? {
      DecodeTokensConcat(step, m, Parse(xs).value, Parse(ys).value);
    }
  }

  /* ----- decoding what a marshaller emits ----- */

  /** The known fields after a run of records that are all recognised. */
  function Absorb<K>(step: (K, Record) -> Outcome<K>, k: K, rs: seq<Record>): Option<K> {
    if rs == [] then Some(k)
    else
      match step(k, rs[0])
      case Updated(k') => Absorb(step, k', rs[1..])
      case _ => None
  }

  lemma {:induction false} AbsorbConcat<K>(step: (K, Record) -> Outcome<K>, k: K, xs: seq<Record>, ys: seq<Record>)
    requires Absorb(step, k, xs).Some?
    ensures Absorb(step, k, xs + ys) == Absorb(step, Absorb(step, k, xs).value, ys)
  {
    if xs == [] {
      assert xs + ys == ys;
    } else {
      assert (xs + ys)[1..] == xs[1..] + ys;
      AbsorbConcat(step, step(k, xs[0]).fields, xs[1..], ys);
    }
  }

  /** One field takes the known fields from k to k': it is absent and nothing changes, or its records do it. */
  ghost predicate Advances<K>(step: (K, Record) -> Outcome<K>, k: K, f: seq<Record>, k': K) {
    || (f == [] && k' == k)
    || (|f| == 1 && step(k, f[0]) == Updated(k'))
    || Absorb(step, k, f) == Some(k')
  }

  lemma AdvancesAbsorbs<K>(step: (K, Record) -> Outcome<K>, k: K, f: seq<Record>, k': K)
    requires Advances(step, k, f, k')
    ensures Absorb(step, k, f) == Some(k')
  {
    if |f| == 1 {
      assert f[1..] == [];
    }
  }

  /** Field by field, the known fields pass through the states ks. */
  lemma {:induction false} AbsorbFields<K>(step: (K, Record) -> Outcome<K>, fs: seq<seq<Record>>, ks: seq<K>)
    requires |ks| == |fs| + 1
    requires forall i | 0 <= i < |fs| :: Advances(step, ks[i], fs[i], ks[i + 1])
    ensures Absorb(step, ks[0], Flatten(fs)) == Some(ks[|fs|])
  {
    hide Advances;
    if fs != [] {
      assert Advances(step, ks[0], fs[0], ks[1]);
      AdvancesAbsorbs(step, ks[0], fs[0], ks[1]);
      forall i | 0 <= i < |fs[1..]| ensures Advances(step, ks[1..][i], fs[1..][i], ks[1..][i + 1]) {
        assert Advances(step, ks[i + 1], fs[i + 1], ks[i + 1 + 1]);
      }
      AbsorbFields(step, fs[1..], ks[1..]);
      AbsorbConcat(step, ks[0], fs[0], Flatten(fs[1..]));
    }
  }

  lemma {:induction false} AbsorbTokens<K>(step: (K, Record) -> Outcome<K>, m: Msg<K>, rs: seq<Record>)
    requires Absorb(step, m.fields, rs).Some?
    ensures DecodeTokens(step, m, Tokens(rs)) == Some(m.(fields := Absorb(step, m.fields, rs).value))
    decreases |rs|
  {
    hide EncodeRecord;
    if rs != [] {
      AbsorbTokens(step, m.(fields := step(m.fields, rs[0]).fields), rs[1..]);
      assert Tokens(rs)[1..] == Tokens(rs[1..]);
    }
  }

  /** A list of fields as marshallers emit it has no groups. */
  ghost predicate NoGroups(fs: seq<seq<Record>>) {
    forall i, j | 0 <= i < |fs| && 0 <= j < |fs[i]| :: !fs[i][j].Group?
  }

  lemma {:induction false} RepeatedNoGroups(num: FieldNumber, payloads: seq<seq<byte>>)
    ensures forall j | 0 <= j < |RepeatedField(num, payloads)| :: !RepeatedField(num, payloads)[j].Group?
  {
    if payloads != [] {
      RepeatedNoGroups(num, payloads[1..]);
    }
  }

  lemma {:induction false} NoGroupsFlat(fs: seq<seq<Record>>)
    requires NoGroups(fs)
    ensures forall r <- Flatten(fs) :: !r.Group?
  {
    if fs != [] {
      assert forall i, j | 0 <= i < |fs[1..]| && 0 <= j < |fs[1..][i]| :: fs[1..][i][j] == fs[i + 1][j];
      NoGroupsFlat(fs[1..]);
      forall r <- Flatten(fs) ensures !r.Group? {
        if r in fs[0] {
          var j :| 0 <= j < |fs[0]| && fs[0][j] == r;
        }
      }
    }
  }

  /** Decoding an encoded message absorbs its fields, and then goes on with what its unknown bytes say. */
  lemma DecodeEmitted<K>(
      step: (K, Record) -> Outcome<K>, m: Msg<K>, fs: seq<seq<Record>>, unknownFields: seq<byte>, k: K)
    requires forall r <- Flatten(fs) :: Emittable(r)
    requires Parse(unknownFields).Some?
    requires Absorb(step, m.fields, Flatten(fs)) == Some(k)
    ensures DecodeInto(step, m, EncodeFields(fs, unknownFields)) ==
            DecodeTokens(step, m.(fields := k), Parse(unknownFields).value)
  {
    hide EncodeRecords, Parse, Absorb, Flatten, DecodeTokens, Tokens, EncodeFields;
    var rs := Flatten(fs);
    EncodeFieldsFlat(fs, unknownFields);
    ParseEncoded(rs);
    ParseConcat(EncodeRecords(rs), unknownFields);
    DecodeTokensConcat(step, m, Tokens(rs), Parse(unknownFields).value);
    AbsorbTokens(step, m, rs);
  }

  lemma DecodeFieldsFirst<K>(
      step: (K, Record) -> Outcome<K>, m: Msg<K>, fs: seq<seq<Record>>, unknownFields: seq<byte>, k: K)
    requires |EncodeFields(fs, unknownFields)| <= MAX_INT
    requires NoGroups(fs)
    requires Parse(unknownFields).Some?
    requires Absorb(step, m.fields, Flatten(fs)) == Some(k)
    ensures DecodeInto(step, m, EncodeFields(fs, unknownFields)) ==
            DecodeTokens(step, m.(fields := k), Parse(unknownFields).value)
  {
    hide EncodeRecords, Parse, Absorb, Flatten, DecodeTokens, EncodeFields;
    EncodeFieldsFlat(fs, unknownFields);
    NoGroupsFlat(fs);
    ShortPayloads(Flatten(fs));
    DecodeEmitted(step, m, fs, unknownFields, k);
  }

  /**
   * The law of the wire format that every message type instantiates: when the schema absorbs the
   * fields of an encoded message, decoding its bytes does just that and appends the unknown bytes.
   */
  lemma DecodeEncoded<K(!new)>(
      step: (K, Record) -> Outcome<K>, m: Msg<K>, fs: seq<seq<Record>>, unknownFields: seq<byte>, k: K)
    requires |EncodeFields(fs, unknownFields)| <= MAX_INT
    requires NoGroups(fs)
    requires UnknownTo(step, unknownFields)
    requires Absorb(step, m.fields, Flatten(fs)) == Some(k)
    ensures DecodeInto(step, m, EncodeFields(fs, unknownFields)) == Some(Msg(k, m.unknownFields + unknownFields))
  {
    hide Parse, Absorb, Flatten, DecodeTokens, EncodeFields, DecodeInto, NoneRecognised, Raws, NoGroups;
    DecodeFieldsFirst(step, m, fs, unknownFields, k);
    UnknownKept(step, m.(fields := k), Parse(unknownFields).value);
    ParseKeepsBytes(unknownFields);
  }

  lemma DecodeNothing<K>(step: (K, Record) -> Outcome<K>, m: Msg<K>)
    ensures DecodeInto(step, m, []) == Some(m)
    ensures m.unknownFields + [] == m.unknownFields
  {
  }

  /**
   * When the record of each element xs[i] appends ys[i] to a list, a repeated field appends all of
   * ys, in source order. `put` stores the list in the known fields.
   */
  lemma {:induction false} AbsorbElements<K, T, U>(
      step: (K, Record) -> Outcome<K>, put: seq<U> -> K, list: seq<U>,
      num: FieldNumber, xs: seq<T>, ys: seq<U>, encode: T -> seq<byte>)
    requires |xs| == |ys|
    requires forall i, zs | 0 <= i < |xs| :: step(put(zs), Len(num, encode(xs[i]))) == Updated(put(zs + [ys[i]]))
    ensures Absorb(step, put(list), RepeatedField(num, Map(encode, xs))) == Some(put(list + ys))
    decreases |xs|
  {
    if xs == [] {
      assert list + ys == list;
    } else {
      var more := list + [ys[0]];
      assert step(put(list), Len(num, encode(xs[0]))) == Updated(put(more));
      forall i, zs | 0 <= i < |xs[1..]|
        ensures step(put(zs), Len(num, encode(xs[1..][i]))) == Updated(put(zs + [ys[1..][i]]))
      {
        assert xs[1..][i] == xs[i + 1] && ys[1..][i] == ys[i + 1];
      }
      AbsorbElements(step, put, more, num, xs[1..], ys[1..], encode);
      assert more + ys[1..] == list + ys;
      assert Map(encode, xs)[1..] == Map(encode, xs[1..]);
      assert RepeatedField(num, Map(encode, xs))[1..] == RepeatedField(num, Map(encode, xs[1..]));
    }
  }

  /** In particular when each element reads back as its normal form. */
  lemma AbsorbRepeated<K, T, U>(
      step: (K, Record) -> Outcome<K>, put: seq<U> -> K, list: seq<U>,
      num: FieldNumber, xs: seq<T>, encode: T -> seq<byte>, normalise: T -> U)
    requires forall x, ys | x in xs :: step(put(ys), Len(num, encode(x))) == Updated(put(ys + [normalise(x)]))
    ensures Absorb(step, put(list), RepeatedField(num, Map(encode, xs))) == Some(put(list + Map(normalise, xs)))
  {
    AbsorbElements(step, put, list, num, xs, Map(normalise, xs), encode);
  }

  /** Records that a schema does not recognise can be moved to the front of its unknown bytes. */
  lemma UnknownPrefix<K(!new)>(step: (K, Record) -> Outcome<K>, rs: seq<Record>, bs: seq<byte>)
    requires forall r <- rs :: Emittable(r)
    requires forall k, r | r in rs :: step(k, r) == Unrecognised
    requires UnknownTo(step, bs)
    ensures UnknownTo(step, EncodeRecords(rs) + bs)
  {
    hide EncodeRecords, Parse, EncodeRecord;
    ParseEncoded(rs);
    ParseConcat(EncodeRecords(rs), bs);
    TokensAt(rs);
    var ts := Parse(EncodeRecords(rs) + bs).value;
    forall i, k | 0 <= i < |ts| ensures step(k, ts[i].record) == Unrecognised {
      if i < |rs| {
        assert ts[i].record in rs;
      } else {
        assert ts[i] == Parse(bs).value[i - |rs|];
      }
    }
  }

  lemma {:induction false} TokensAt(rs: seq<Record>)
    ensures |Tokens(rs)| == |rs|
    ensures forall i | 0 <= i < |rs| :: Tokens(rs)[i] == TokenOf(rs[i])
  {
    hide EncodeRecord;
    if rs != [] {
      TokensAt(rs[1..]);
    }
  }

  /** A schema that recognises fewer records leaves the same unknown bytes alone. */
  lemma UnknownToOlder<K(!new)>(newer: (K, Record) -> Outcome<K>, older: (K, Record) -> Outcome<K>, bs: seq<byte>)
    requires UnknownTo(newer, bs)
    requires forall k, r :: newer(k, r) == Unrecognised ==> older(k, r) == Unrecognised
    ensures UnknownTo(older, bs)
  {
    hide Parse;
  }

  lemma {:induction false} MapCongruent<T, U, V>(f: U -> V, g: T -> U, h: T -> V, xs: seq<T>)
    requires forall x <- xs :: f(g(x)) == h(x)
    ensures Map(f, Map(g, xs)) == Map(h, xs)
  {
    if xs != [] {
      assert Map(g, xs)[1..] == Map(g, xs[1..]);
      MapCongruent(f, g, h, xs[1..]);
    }
  }

  lemma MapFixed<T>(f: T -> T, xs: seq<T>)
    ensures Map(f, xs) == xs <==> forall x <- xs :: f(x) == x
  {
    if forall x <- xs :: f(x) == x {
      assert forall i | 0 <= i < |xs| :: f(xs[i]) == xs[i];
    } else {
      var x :| x in xs && f(x) != x;
      var i :| 0 <= i < |xs| && xs[i] == x;
      assert Map(f, xs)[i] != xs[i];
    }
  }

  /* ----- merging ----- */

  /** Singular submessages merge field by field; unknown bytes append. */
  function MergeMsg<K>(merge: (K, K) -> K, a: Msg<K>, b: Msg<K>): Msg<K> {
    Msg(merge(a.fields, b.fields), a.unknownFields + b.unknownFields)
  }

  function MergeOptional<K>(merge: (K, K) -> K, empty: K, a: Option<Msg<K>>, b: Option<Msg<K>>): Option<Msg<K>> {
    if b.None? then a else Some(MergeMsg(merge, a.GetOr(Msg(empty, [])), b.value))
  }

  /** A value of an opaque message type is the byte string its own marshaller writes; merging concatenates. */
  function MergeOpaque(a: Option<seq<byte>>, b: Option<seq<byte>>): Option<seq<byte>> {
    if b.None? then a else Some(a.GetOr([]) + b.value)
  }

  function LastNonDefault<T(==)>(default: T, a: T, b: T): T {
    if b == default then a else b
  }

  lemma OpaqueFromEmpty(a: Option<seq<byte>>)
    ensures MergeOpaque(None, a) == a
  {
    if a.Some? {
      assert [] + a.value == a.value;
    }
  }

  lemma {:induction false} FlattenEmpty(fs: seq<seq<Record>>)
    requires forall i | 0 <= i < |fs| :: fs[i] == []
    ensures Flatten(fs) == []
  {
    if fs != [] {
      FlattenEmpty(fs[1..]);
    }
  }

  /** Fields of equal lengths make messages of equal lengths. */
  lemma {:induction false} SameLengths(fs: seq<seq<Record>>, gs: seq<seq<Record>>, unknownFields: seq<byte>)
    requires |fs| == |gs|
    requires forall i | 0 <= i < |fs| :: |EncodeRecords(fs[i])| == |EncodeRecords(gs[i])|
    ensures |EncodeFields(fs, unknownFields)| == |EncodeFields(gs, unknownFields)|
  {
    hide EncodeRecords;
    if fs != [] {
      forall i | 0 <= i < |fs[1..]| ensures |EncodeRecords(fs[1..][i])| == |EncodeRecords(gs[1..][i])| {
        assert |EncodeRecords(fs[i + 1])| == |EncodeRecords(gs[i + 1])|;
      }
      SameLengths(fs[1..], gs[1..], unknownFields);
    }
  }

  lemma RecordLength(num: FieldNumber, p: seq<byte>, q: seq<byte>)
    requires |p| == |q|
    ensures |EncodeRecord(Len(num, p))| == |EncodeRecord(Len(num, q))|
  {
    hide VarintBytes;
  }

  lemma LongerRecord(num: FieldNumber, p: seq<byte>, q: seq<byte>)
    requires |p| < |q|
    ensures |EncodeRecord(Len(num, p))| < |EncodeRecord(Len(num, q))|
  {
    hide VarintBytes, SizeOfVarint, Key;
    SizeIsLength(|p|);
    SizeIsLength(|q|);
    SizeMonotone(|p|, |q|);
  }

  lemma OptionalLength(num: FieldNumber, p: Option<seq<byte>>, q: Option<seq<byte>>)
    requires p.Some? == q.Some? && (p.Some? ==> |p.value| == |q.value|)
    ensures |EncodeRecords(OptionalField(num, p))| == |EncodeRecords(OptionalField(num, q))|
  {
    hide EncodeRecord;
    if p.Some? {
      EncodeOne(Len(num, p.value));
      EncodeOne(Len(num, q.value));
      RecordLength(num, p.value, q.value);
    }
  }

  lemma {:induction false} RepeatedLength(num: FieldNumber, ps: seq<seq<byte>>, qs: seq<seq<byte>>)
    requires |ps| == |qs| && forall i | 0 <= i < |ps| :: |ps[i]| == |qs[i]|
    ensures |EncodeRecords(RepeatedField(num, ps))| == |EncodeRecords(RepeatedField(num, qs))|
  {
    hide EncodeRecord;
    if ps != [] {
      RecordLength(num, ps[0], qs[0]);
      RepeatedLength(num, ps[1..], qs[1..]);
      assert RepeatedField(num, ps)[1..] == RepeatedField(num, ps[1..]);
      assert RepeatedField(num, qs)[1..] == RepeatedField(num, qs[1..]);
    }
  }

  /** A message with one record. */
  lemma {:induction false} OnlyField(fs: seq<seq<Record>>, k: nat, r: Record)
    requires k < |fs| && fs[k] == [r]
    requires forall i | 0 <= i < |fs| && i != k :: fs[i] == []
    ensures EncodeFields(fs, []) == EncodeRecord(r)
  {
    hide EncodeRecord;
    EncodeNone();
    if k == 0 {
      EncodeFieldsFlat(fs[1..], []);
      FlattenEmpty(fs[1..]);
      EncodeOne(r);
      assert EncodeRecords([]) + [] == [];
      assert EncodeRecord(r) + [] == EncodeRecord(r);
    } else {
      OnlyField(fs[1..], k - 1, r);
      assert [] + EncodeRecord(r) == EncodeRecord(r);
    }
  }

  /** An encoding never starts with a zero byte: a key is never zero. */
  lemma {:induction false} FirstByte(fs: seq<seq<Record>>, unknownFields: seq<byte>)
    requires Parse(unknownFields).Some?
    requires EncodeFields(fs, unknownFields) != []
    ensures EncodeFields(fs, unknownFields)[0] != 0
  {
    if fs == [] {
      FirstByteOfRecords(unknownFields);
    } else if fs[0] == [] {
      FirstByte(fs[1..], unknownFields);
    } else {
      FirstByteOfRecord(fs[0][0]);
    }
  }

  lemma FirstByteOfRecord(r: Record)
    ensures EncodeRecord(r)[0] != 0
  {
    assert EncodeRecord(r)[0] == Key(r.num, WireType(r))[0];
    assert 8 * r.num + WireType(r) >= 8;
  }

  lemma FirstByteOfRecords(bs: seq<byte>)
    requires bs != [] && Parse(bs).Some?
    ensures bs[0] != 0
  {
    assert ReadKey(bs).Some?;
  }
}
