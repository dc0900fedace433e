/**
 * Base 128 varints (Protocol Buffers Encoding, section "Base 128 Varints"):
 * seven bits a byte, least significant group first, the top bit of every byte but the last set.
 */
module Varint {
  import opened GoTypes

  /** The canonical varint of v. */
  function VarintBytes(v: nat): (bs: seq<byte>)
    ensures |bs| >= 1
  {
    if v < 0x80 then [v] else [v % 0x80 + 0x80] + VarintBytes(v / 0x80)
  }

  function Pow128(n: nat): (p: nat)
    ensures p >= 1
  {
    if n == 0 then 1 else 0x80 * Pow128(n - 1)
  }

  /** The number of base-128 digits of v: the least n >= 1 with v < 128^n. */
  function SizeOfVarint(v: nat): (n: nat)
    ensures n >= 1
    ensures v < Pow128(n)
    ensures n > 1 ==> Pow128(n - 1) <= v
  {
    if v < 0x80 then 1
    else
      var m := SizeOfVarint(v / 0x80);
      assert m > 1 ==> Pow128(m) == 0x80 * Pow128(m - 1);
      1 + m
  }

  lemma {:induction false} SizeIsLength(v: nat)
    ensures |VarintBytes(v)| == SizeOfVarint(v)
  {
    if v >= 0x80 {
      SizeIsLength(v / 0x80);
    }
  }

  /** A 64-bit value takes between one and ten bytes, and ten exactly from 2^63 on. */
  lemma SizeOfUint64(v: uint64)
    ensures 1 <= SizeOfVarint(v) <= 10
    ensures SizeOfVarint(v) == 10 <==> v >= TWO_TO_THE_63
  {
    assert Pow128(2) == 0x4000;
    assert Pow128(4) == 0x80 * (0x80 * Pow128(2));
    assert Pow128(6) == 0x80 * (0x80 * Pow128(4));
    assert Pow128(8) == 0x80 * (0x80 * Pow128(6));
    assert Pow128(9) == 0x80 * Pow128(8);
    assert Pow128(9) == TWO_TO_THE_63;
    var n := SizeOfVarint(v);
    if n > 10 {
      PowMonotone(10, n - 1);
    } else if n < 10 {
      PowMonotone(n, 9);
    }
  }

  lemma {:induction false} PowMonotone(m: nat, n: nat)
    requires m <= n
    ensures Pow128(m) <= Pow128(n)
  {
    if m < n {
      PowMonotone(m, n - 1);
    }
  }

  /** Byte i of a varint holds digit i of the value to the base 128, and says whether another byte follows. */
  lemma {:induction false} VarintDigit(v: nat, i: nat)
    requires i < |VarintBytes(v)|
    ensures VarintBytes(v)[i] == (v / Pow128(i)) % 0x80 + (if i + 1 < |VarintBytes(v)| then 0x80 else 0)
  {
    if i > 0 {
      VarintDigit(v / 0x80, i - 1);
      DivideTwice(v, 0x80, Pow128(i - 1));
    }
  }

  lemma DivideTwice(v: nat, a: nat, b: nat)
    requires a > 0 && b > 0
    ensures a * b > 0 && v / (a * b) == (v / a) / b
  {
    var w, s := v / a, v % a;
    var q, r := w / b, w % b;
    TwoDigits(a, b, q, r, s);
    assert v == a * (b * q + r) + s;
    Quotient(v, a * b, q, a * r + s);
  }

  lemma TwoDigits(a: nat, b: nat, q: nat, r: nat, s: nat)
    requires s < a && r < b
    ensures a * (b * q + r) + s == a * b * q + (a * r + s)
    ensures a * r + s < a * b
  {
    Distribute(a, b, q, r);
    TimesMonotone(a, r, b - 1);
    TimesMonotone(a, r, b);
  }

  lemma Distribute(a: nat, b: nat, q: nat, r: nat)
    ensures a * (b * q + r) == a * b * q + a * r
  {
  }

  lemma {:induction false} TimesMonotone(a: nat, m: nat, n: nat)
    requires m <= n
    ensures a * m <= a * n
    ensures a * (n - 1) == a * n - a
  {
    if m < n {
      TimesMonotone(a, m, n - 1);
    }
  }

  lemma Quotient(v: nat, d: nat, q: nat, r: nat)
    requires r < d && v == d * q + r
    ensures v / d == q
  {
    var p := v / d;
    assert v == d * p + v % d;
    if p < q {
      TimesMonotone(d, p + 1, q);
      TimesMonotone(d, p, p + 1);
    } else if q < p {
      TimesMonotone(d, q + 1, p);
      TimesMonotone(d, q, q + 1);
    }
  }

  /** A larger value never takes fewer bytes. */
  lemma {:induction false} SizeMonotone(v: nat, w: nat)
    requires v <= w
    ensures SizeOfVarint(v) <= SizeOfVarint(w)
  {
    if v >= 0x80 {
      SizeMonotone(v / 0x80, w / 0x80);
    }
  }

  /** A decoded value and the number of bytes it took. */
  datatype Read<+T> = Read(value: T, length: nat)

  /** Reads at most `limit` bytes; None when they run out before a byte without the top bit. */
  function ReadDigits(bs: seq<byte>, limit: nat): (r: Option<Read<nat>>)
    ensures r.Some? ==> 1 <= r.value.length <= |bs| && r.value.length <= limit
  {
    if bs == [] || limit == 0 then None
    else if bs[0] < 0x80 then Some(Read(bs[0], 1))
    else
      var rest :- ReadDigits(bs[1..], limit - 1);
      Some(Read(bs[0] - 0x80 + 0x80 * rest.value, rest.length + 1))
  }

  /** The decoder of a 64-bit varint: at most ten bytes, and the value must fit in 64 bits. */
  function DecodeVarint(bs: seq<byte>): (r: Option<Read<uint64>>)
    ensures r.Some? ==> 1 <= r.value.length <= |bs| && r.value.length <= 10
  {
    var r :- ReadDigits(bs, 10);
    if r.value < TWO_TO_THE_64 then Some(Read(r.value, r.length)) else None
  }

  lemma {:induction false} ReadDigitsOfVarint(v: nat, tail: seq<byte>, limit: nat)
    requires SizeOfVarint(v) <= limit
    ensures ReadDigits(VarintBytes(v) + tail, limit) == Some(Read(v, SizeOfVarint(v)))
  {
    var bs := VarintBytes(v) + tail;
    if v >= 0x80 {
      ReadDigitsOfVarint(v / 0x80, tail, limit - 1);
      assert bs[1..] == VarintBytes(v / 0x80) + tail;
    }
  }

  /** Decoding undoes encoding, and leaves whatever follows alone. */
  lemma DecodeInvertsEncode(v: uint64, tail: seq<byte>)
    ensures DecodeVarint(VarintBytes(v) + tail) == Some(Read(v, |VarintBytes(v)|))
  {
    SizeOfUint64(v);
    SizeIsLength(v);
    ReadDigitsOfVarint(v, tail, 10);
  }

  lemma {:induction false} DigitsBoundValue(bs: seq<byte>, limit: nat)
    requires ReadDigits(bs, limit).Some?
    ensures ReadDigits(bs, limit).value.value < Pow128(ReadDigits(bs, limit).value.length)
  {
    if bs[0] >= 0x80 {
      DigitsBoundValue(bs[1..], limit - 1);
    }
  }

  /** No byte string that decodes to v is shorter than the canonical one. */
  lemma CanonicalIsShortest(bs: seq<byte>, v: uint64)
    requires DecodeVarint(bs).Some? && DecodeVarint(bs).value.value == v
    ensures |VarintBytes(v)| <= DecodeVarint(bs).value.length
  {
    DigitsBoundValue(bs, 10);
    SizeIsLength(v);
    var n := DecodeVarint(bs).value.length;
    if n < SizeOfVarint(v) {
      PowMonotone(n, SizeOfVarint(v) - 1);
    }
  }

  lemma {:induction false} ReadDigitsPrefix(bs: seq<byte>, tail: seq<byte>, limit: nat)
    requires ReadDigits(bs, limit).Some?
    ensures ReadDigits(bs + tail, limit) == ReadDigits(bs, limit)
  {
    if bs[0] >= 0x80 {
      ReadDigitsPrefix(bs[1..], tail, limit - 1);
      assert (bs + tail)[1..] == bs[1..] + tail;
    }
  }

  /** What follows a complete varint does not change how it is read. */
  lemma DecodeVarintPrefix(bs: seq<byte>, tail: seq<byte>)
    requires DecodeVarint(bs).Some?
    ensures DecodeVarint(bs + tail) == DecodeVarint(bs)
  {
    ReadDigitsPrefix(bs, tail, 10);
  }

  lemma {:induction false} ReadDigitsShrinks(bs: seq<byte>, n: nat, limit: nat)
    requires ReadDigits(bs, limit).Some? && ReadDigits(bs, limit).value.length <= n <= |bs|
    ensures ReadDigits(bs[..n], limit) == ReadDigits(bs, limit)
  {
    if bs[0] >= 0x80 {
      ReadDigitsShrinks(bs[1..], n - 1, limit - 1);
      assert bs[..n][1..] == bs[1..][..n - 1];
    }
  }

  /** Nor is anything needed beyond its last byte. */
  lemma DecodeVarintShrinks(bs: seq<byte>, n: nat)
    requires DecodeVarint(bs).Some? && DecodeVarint(bs).value.length <= n <= |bs|
    ensures DecodeVarint(bs[..n]) == DecodeVarint(bs)
  {
    ReadDigitsShrinks(bs, n, 10);
  }

  /** A varint that is longer than it need be is read all the same. */
  lemma {:induction false} PaddedDigits(v: nat, limit: nat)
    requires SizeOfVarint(v) < limit
    ensures ReadDigits(Padded(VarintBytes(v)), limit) == Some(Read(v, SizeOfVarint(v) + 1))
  {
    var bs := Padded(VarintBytes(v));
    if v >= 0x80 {
      PaddedDigits(v / 0x80, limit - 1);
      var rest := VarintBytes(v / 0x80);
      assert bs == [v % 0x80 + 0x80] + Padded(rest);
      hide Padded, VarintBytes;
      assert bs[1..] == Padded(rest);
    } else {
      assert bs == [v + 0x80, 0] && bs[1..] == [0];
    }
  }

  /** The same value with one more byte, which adds nothing to it. */
  function Padded(bs: seq<byte>): seq<byte>
    requires bs != []
  {
    bs[..|bs| - 1] + [bs[|bs| - 1] % 0x80 + 0x80, 0]
  }

  /** The example of the Encoding document, and the same with a byte of padding. */
  lemma OneFifty()
    ensures VarintBytes(150) == [0x96, 0x01]
    ensures DecodeVarint([0x96, 0x81, 0x00]) == Some(Read(150, 3))
  {
    assert VarintBytes(150) == [150 % 0x80 + 0x80] + VarintBytes(1);
    SizeIsLength(150);
    PaddedDigits(150, 10);
    assert Padded([0x96, 0x01]) == [0x96, 0x81, 0x00];
  }
}
