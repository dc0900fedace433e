/**
 * A peer with an older schema in the middle. It decodes with `older`, keeps as unknown bytes what
 * it does not recognise, and writes the known fields in front of them, in whatever order they came.
 * A reader with the `newer` schema then still reads what it would have read at the source, provided
 * that the fields only the newer schema has do not interfere with the others.
 */
module Relay {
  import opened GoTypes
  import opened Wire
  import opened Messages

  /** Whether a record is recognised depends on the record alone. */
  ghost predicate Uniform<K(!new)>(step: (K, Record) -> Outcome<K>) {
    forall j, k, r :: step(j, r) == Unrecognised ==> step(k, r) == Unrecognised
  }

  /**
   * On a record that the older schema knows, the two schemas move together: `rel` relates the
   * fields the older reader holds to those the newer reader sees in them.
   */
  ghost predicate Follows<K(!new)>(
      older: (K, Record) -> Outcome<K>, newer: (K, Record) -> Outcome<K>, rel: (K, K) -> bool)
  {
    forall j, k, r :: rel(j, k) && older(j, r) != Unrecognised && newer(k, r) != Malformed ==>
      && older(j, r).Updated? && newer(k, r).Updated?
      && rel(older(j, r).fields, newer(k, r).fields)
  }

  /** A record that only the newer schema knows may as well come after one that both know. */
  ghost predicate Commutes<K(!new)>(older: (K, Record) -> Outcome<K>, newer: (K, Record) -> Outcome<K>) {
    forall k, r, q ::
      && older(k, r) != Unrecognised && older(k, q) == Unrecognised
      && newer(k, q).Updated? && newer(newer(k, q).fields, r).Updated? ==>
        && newer(k, r).Updated?
        && newer(newer(k, r).fields, q) == newer(newer(k, q).fields, r)
  }

  ghost predicate Extends<K(!new)>(
      older: (K, Record) -> Outcome<K>, newer: (K, Record) -> Outcome<K>, rel: (K, K) -> bool)
  {
    Uniform(older) && Uniform(newer) && Follows(older, newer, rel) && Commutes(older, newer)
  }

  /**
   * What the older reader holds is what the newer one has read: its known fields, seen as j, and
   * then its unknown bytes, read on top of them.
   */
  ghost predicate Tracks<K(!new)>(
      older: (K, Record) -> Outcome<K>, newer: (K, Record) -> Outcome<K>, rel: (K, K) -> bool,
      held: Msg<K>, read: Msg<K>, j: K)
  {
    && rel(held.fields, j)
    && UnknownTo(older, held.unknownFields)
    && DecodeTokens(newer, Msg(j, []), Parse(held.unknownFields).value) == Some(read)
  }

  lemma {:induction false} MovesPast<K(!new)>(
      older: (K, Record) -> Outcome<K>, newer: (K, Record) -> Outcome<K>, m: Msg<K>, us: seq<Token>, r: Record)
    requires Uniform(older) && Uniform(newer) && Commutes(older, newer)
    requires NoneRecognised(older, us) && older(m.fields, r) != Unrecognised
    requires DecodeTokens(newer, m, us).Some? && newer(DecodeTokens(newer, m, us).value.fields, r).Updated?
    ensures newer(m.fields, r).Updated?
    ensures
      var after := DecodeTokens(newer, m, us).value;
      DecodeTokens(newer, m.(fields := newer(m.fields, r).fields), us) ==
      Some(after.(fields := newer(after.fields, r).fields))
    decreases |us|
  {
    if us != [] {
      var q := us[0];
      assert older(m.fields, q.record) == Unrecognised;
      match newer(m.fields, q.record) {
        case Updated(k) =>
          assert older(k, r) != Unrecognised;
          MovesPast(older, newer, m.(fields := k), us[1..], r);
        case Unrecognised =>
          MovesPast(older, newer, m.(unknownFields := m.unknownFields + q.raw), us[1..], r);
      }
    }
  }

  lemma ParseOneMore(bs: seq<byte>, t: Token)
    requires Parse(bs).Some? && StandsAlone(t)
    ensures Parse(bs + t.raw) == Some(Parse(bs).value + [t])
  {
    hide ReadRecord;
    ParseSingle(t.raw, t);
    ParseConcat(bs, t.raw);
  }

  /** Record by record, the older reader keeps up with the newer one. */
  lemma {:induction false} KeepsTrack<K(!new)>(
      older: (K, Record) -> Outcome<K>, newer: (K, Record) -> Outcome<K>, rel: (K, K) -> bool,
      held: Msg<K>, read: Msg<K>, j: K, ts: seq<Token>)
    returns (j': K)
    requires Extends(older, newer, rel) && Tracks(older, newer, rel, held, read, j)
    requires forall t <- ts :: StandsAlone(t)
    requires DecodeTokens(newer, read, ts).Some?
    ensures DecodeTokens(older, held, ts).Some?
    ensures Tracks(older, newer, rel, DecodeTokens(older, held, ts).value, DecodeTokens(newer, read, ts).value, j')
    decreases |ts|
  {
    hide Parse, ReadRecord, StandsAlone;
    j' := j;
    if ts != [] {
      var t, us := ts[0], Parse(held.unknownFields).value;
      if older(held.fields, t.record) == Unrecognised {
        var held' := held.(unknownFields := held.unknownFields + t.raw);
        ParseOneMore(held.unknownFields, t);
        DecodeTokensConcat(newer, Msg(j, []), us, [t]);
        DecodeTokensConcat(newer, read, [t], ts[1..]);
        assert ts == [t] + ts[1..];
        var read' := DecodeTokens(newer, read, [t]).value;
        assert NoneRecognised(older, us + [t]);
        j' := KeepsTrack(older, newer, rel, held', read', j, ts[1..]);
      } else {
        assert older(j, t.record) != Unrecognised;
        MovesPast(older, newer, Msg(j, []), us, t.record);
        var held' := held.(fields := older(held.fields, t.record).fields);
        var read' := read.(fields := newer(read.fields, t.record).fields);
        j' := KeepsTrack(older, newer, rel, held', read', newer(j, t.record).fields, ts[1..]);
      }
    }
  }

  /** Whatever bytes the newer schema accepts, the older one accepts, and keeps track. */
  lemma KeepsTrackOfBytes<K(!new)>(
      older: (K, Record) -> Outcome<K>, newer: (K, Record) -> Outcome<K>, rel: (K, K) -> bool,
      held: Msg<K>, read: Msg<K>, j: K, bs: seq<byte>)
    returns (j': K)
    requires Extends(older, newer, rel) && Tracks(older, newer, rel, held, read, j)
    requires DecodeInto(newer, read, bs).Some?
    ensures DecodeInto(older, held, bs).Some?
    ensures Tracks(older, newer, rel, DecodeInto(older, held, bs).value, DecodeInto(newer, read, bs).value, j')
  {
    hide Parse, StandsAlone, Tracks, Extends, DecodeTokens;
    ParsedStandAlone(bs);
    j' := KeepsTrack(older, newer, rel, held, read, j, Parse(bs).value);
  }

  lemma TracksEmpty<K(!new)>(
      older: (K, Record) -> Outcome<K>, newer: (K, Record) -> Outcome<K>, rel: (K, K) -> bool, empty: K)
    requires rel(empty, empty)
    ensures Tracks(older, newer, rel, Msg(empty, []), Msg(empty, []), empty)
  {
  }

  /**
   * What the relay itself does to the known fields, `change`, is none of the business of records
   * that only the newer schema knows.
   */
  ghost predicate Aside<K(!new)>(
      older: (K, Record) -> Outcome<K>, newer: (K, Record) -> Outcome<K>, change: K -> K)
  {
    forall k, q :: older(k, q) == Unrecognised ==>
      match newer(k, q)
      case Updated(k') => newer(change(k), q) == Updated(change(k'))
      case Unrecognised => newer(change(k), q) == Unrecognised
      case Malformed => true
  }

  lemma {:induction false} ChangedFirst<K(!new)>(
      older: (K, Record) -> Outcome<K>, newer: (K, Record) -> Outcome<K>, change: K -> K, m: Msg<K>, us: seq<Token>)
    requires Aside(older, newer, change) && NoneRecognised(older, us)
    requires DecodeTokens(newer, m, us).Some?
    ensures
      var read := DecodeTokens(newer, m, us).value;
      DecodeTokens(newer, m.(fields := change(m.fields)), us) == Some(read.(fields := change(read.fields)))
    decreases |us|
  {
    if us != [] {
      assert older(m.fields, us[0].record) == Unrecognised;
      match newer(m.fields, us[0].record) {
        case Updated(k) => ChangedFirst(older, newer, change, m.(fields := k), us[1..]);
        case Unrecognised =>
          ChangedFirst(older, newer, change, m.(unknownFields := m.unknownFields + us[0].raw), us[1..]);
      }
    }
  }

  /** When it writes out what it holds, changed, the newer reader reads what it had read, changed the same way. */
  lemma ReadsChanged<K(!new)>(
      older: (K, Record) -> Outcome<K>, newer: (K, Record) -> Outcome<K>, rel: (K, K) -> bool,
      held: Msg<K>, read: Msg<K>, empty: K, j: K, change: K -> K, fs: seq<seq<Record>>)
    requires Tracks(older, newer, rel, held, read, j) && Aside(older, newer, change)
    requires NoGroups(fs) && |EncodeFields(fs, held.unknownFields)| <= MAX_INT
    requires Absorb(newer, empty, Flatten(fs)) == Some(change(j))
    ensures DecodeInto(newer, Msg(empty, []), EncodeFields(fs, held.unknownFields)) ==
            Some(read.(fields := change(read.fields)))
  {
    hide NoGroups, EncodeFields, DecodeInto, Absorb, Flatten, DecodeTokens, Parse, NoneRecognised, Aside;
    DecodeFieldsFirst(newer, Msg(empty, []), fs, held.unknownFields, change(j));
    ChangedFirst(older, newer, change, Msg(j, []), Parse(held.unknownFields).value);
  }

  /** In particular unchanged. */
  lemma ReadsTheSame<K(!new)>(
      older: (K, Record) -> Outcome<K>, newer: (K, Record) -> Outcome<K>, rel: (K, K) -> bool,
      held: Msg<K>, read: Msg<K>, empty: K, j: K, fs: seq<seq<Record>>)
    requires Tracks(older, newer, rel, held, read, j)
    requires NoGroups(fs) && |EncodeFields(fs, held.unknownFields)| <= MAX_INT
    requires Absorb(newer, empty, Flatten(fs)) == Some(j)
    ensures DecodeInto(newer, Msg(empty, []), EncodeFields(fs, held.unknownFields)) == Some(read)
  {
    hide NoGroups, EncodeFields, DecodeInto, Absorb, Flatten, Tracks;
    ReadsChanged(older, newer, rel, held, read, empty, j, k => k, fs);
  }

  lemma NothingUnknown<K(!new)>(step: (K, Record) -> Outcome<K>)
    ensures UnknownTo(step, [])
  {
  }

  /** Two lists related element by element. */
  ghost predicate Pairwise<T(!new)>(pair: (T, T) -> bool, xs: seq<T>, ys: seq<T>) {
    |xs| == |ys| && forall i | 0 <= i < |xs| :: pair(xs[i], ys[i])
  }

  /** A single schema against itself: whatever it decodes has unknown bytes that it does not know. */
  lemma DecodedUnknown<K(!new)>(step: (K, Record) -> Outcome<K>, empty: K, bs: seq<byte>)
    requires Uniform(step) && DecodeInto(step, Msg(empty, []), bs).Some?
    ensures UnknownTo(step, DecodeInto(step, Msg(empty, []), bs).value.unknownFields)
  {
    hide UnknownTo, DecodeInto, Uniform;
    var rel := (j: K, k: K) => j == k;
    assert Extends(step, step, rel) by { SelfExtends(step, rel); }
    TracksEmpty(step, step, rel, empty);
    var j := KeepsTrackOfBytes(step, step, rel, Msg(empty, []), Msg(empty, []), empty, bs);
  }

  lemma SelfExtends<K(!new)>(step: (K, Record) -> Outcome<K>, rel: (K, K) -> bool)
    requires Uniform(step) && forall j, k :: rel(j, k) <==> j == k
    ensures Extends(step, step, rel)
  {
  }
}
