/** Go's fixed-width integers, its conversions between them, and the Option used for nil pointers. */
module GoTypes {

  const TWO_TO_THE_32: int := 0x1_0000_0000
  const TWO_TO_THE_63: int := 0x8000_0000_0000_0000
  const TWO_TO_THE_64: int := 0x1_0000_0000_0000_0000

  /** The largest Go int on a 64-bit platform. No slice is longer than this. */
  const MAX_INT: int := 0x7FFF_FFFF_FFFF_FFFF

  type byte = x: int | 0 <= x < 0x100
  type uint32 = x: int | 0 <= x < TWO_TO_THE_32
  type uint64 = x: int | 0 <= x < TWO_TO_THE_64
  type int32 = x: int | -0x8000_0000 <= x < 0x8000_0000
  type int64 = x: int | -TWO_TO_THE_63 <= x < TWO_TO_THE_63

  datatype Option<+T> = None | Some(value: T) {
    predicate IsFailure() {
      None?
    }

    function PropagateFailure<U>(): Option<U>
      requires None?
    {
      None
    }

    function Extract(): T
      requires Some?
    {
      value
    }

    function GetOr(default: T): T {
      match this
      case Some(v) => v
      case None => default
    }
  }

  datatype Result<+T, +E> = Success(value: T) | Failure(error: E) {
    predicate IsFailure() {
      Failure?
    }

    function PropagateFailure<U>(): Result<U, E>
      requires Failure?
    {
      Failure(error)
    }

    function Extract(): T
      requires Success?
    {
      value
    }
  }

  /** Go's uint64(x) for a signed x: sign extension to 64 bits. */
  function Uint64Of(x: int64): uint64 {
    if x < 0 then x + TWO_TO_THE_64 else x
  }

  /** Go's int64(v): the same 64 bits read as two's complement. */
  function Int64Of(v: uint64): (r: int64)
    ensures Uint64Of(r) == v
  {
    if v >= TWO_TO_THE_63 then v - TWO_TO_THE_64 else v
  }

  /** Go's int32(v): the low 32 bits read as two's complement, the one int32 congruent to v. */
  function Int32Of(v: uint64): int32 {
    var low := v % TWO_TO_THE_32;
    if low >= 0x8000_0000 then low - TWO_TO_THE_32 else low
  }

  /** Go's uint32(v): the low 32 bits. */
  function Uint32Of(v: uint64): uint32 {
    v % TWO_TO_THE_32
  }

  /** No conversion changes the bits it keeps: the results are congruent to what was converted. */
  lemma LowBitsKept(v: uint64)
    ensures (Int32Of(v) - v) % TWO_TO_THE_32 == 0
    ensures (Uint32Of(v) - v) % TWO_TO_THE_32 == 0
    ensures (Int64Of(v) - v) % TWO_TO_THE_64 == 0
  {
  }

  lemma SignExtended(x: int64)
    ensures (Uint64Of(x) - x) % TWO_TO_THE_64 == 0
    ensures (Int32Of(Uint64Of(x)) - x) % TWO_TO_THE_32 == 0
  {
    LowBitsKept(Uint64Of(x));
  }

  /** Congruence modulo 2^32 determines an int32, and a uint32. */
  lemma OneInt32(x: int, y: int)
    requires (x - y) % TWO_TO_THE_32 == 0
    requires (-0x8000_0000 <= x < 0x8000_0000 && -0x8000_0000 <= y < 0x8000_0000) ||
             (0 <= x < TWO_TO_THE_32 && 0 <= y < TWO_TO_THE_32)
    ensures x == y
  {
  }

  /** An int32, an enum value included, survives widening to 64 bits and truncating back. */
  lemma Int32Survives(x: int32)
    ensures Int32Of(Uint64Of(x)) == x
    ensures Uint64Of(x) == 0 <==> x == 0
  {
  }

  lemma Uint32Survives(z: uint32)
    ensures Uint32Of(z) == z
  {
  }
}
