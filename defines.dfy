/** Fixed-width integer types, sentinel ids, the clamp macro and the
    byte-unit macros of the runtime's global definitions header. */
module Defines {

  /** The C integer widths the code base uses, as ranges of int. */
  type U8 = x: int | 0 <= x < 0x100
  type U16 = x: int | 0 <= x < 0x1_0000
  type U32 = x: int | 0 <= x < 0x1_0000_0000
  type U64 = x: int | 0 <= x < 0x1_0000_0000_0000_0000
  type I32 = x: int | -0x8000_0000 <= x < 0x8000_0000

  predicate IsI32(x: int) { -0x8000_0000 <= x < 0x8000_0000 }

  /** Ids set to one of these do not refer to a real object. */
  const INVALID_ID_U64: U64 := 18446744073709551615
  const INVALID_ID: U32 := 4294967295
  const INVALID_ID_U16: U16 := 65535
  const INVALID_ID_U8: U8 := 255

  /** A range, typically of memory: an offset in bytes and a size in bytes. */
  datatype Range = Range(offset: U64, size: U64)

  /** Each invalid-id sentinel is the largest value of its width: no value
      of that width exceeds it, and one more than it no longer fits. */
  lemma InvalidIdsAreMaxima(a: U64, b: U32, c: U16, d: U8)
    ensures a <= INVALID_ID_U64 && INVALID_ID_U64 + 1 == 0x1_0000_0000_0000_0000
    ensures b <= INVALID_ID && INVALID_ID + 1 == 0x1_0000_0000
    ensures c <= INVALID_ID_U16 && INVALID_ID_U16 + 1 == 0x1_0000
    ensures d <= INVALID_ID_U8 && INVALID_ID_U8 + 1 == 0x100
  {
  }

  /** HCLAMP on already-evaluated arguments: min when value <= min, else max
      when value >= max, else value. */
  function Clamp(value: int, min: int, max: int): (r: int)
    ensures r == min || r == max || r == value
    ensures value <= min ==> r == min
    ensures min < value < max ==> r == value
    ensures min < value && max <= value ==> r == max
    ensures min <= max ==> min <= r <= max
  {
    if value <= min then min else if value >= max then max else value
  }

  /** Clamping an already clamped value changes nothing, when the range is
      well formed. */
  lemma ClampIdempotent(value: int, min: int, max: int)
    requires min <= max
    ensures Clamp(Clamp(value, min, max), min, max) == Clamp(value, min, max)
  {
  }

  /** KIBIBYTES: amount * 1024. Dividing the byte count by 1024 gives the
      amount back, with no remainder. */
  function Kibibytes(amount: nat): (bytes: nat)
    ensures bytes / 1024 == amount && bytes % 1024 == 0
    ensures amount > 0 ==> bytes > amount
  {
    amount * 1024
  }

  /** MEBIBYTES: amount * 1024 * 1024, which is 1024 times KIBIBYTES(amount). */
  function Mebibytes(amount: nat): (bytes: nat)
    ensures bytes / 1024 == Kibibytes(amount) && bytes % 1024 == 0
  {
    amount * 1024 * 1024
  }

  /** GIBIBYTES: amount * 1024 * 1024 * 1024, which is 1024 times MEBIBYTES(amount). */
  function Gibibytes(amount: nat): (bytes: nat)
    ensures bytes / 1024 == Mebibytes(amount) && bytes % 1024 == 0
  {
    amount * 1024 * 1024 * 1024
  }

  /** KILOBYTES: amount * 1000. Dividing by 1000 gives the amount back. */
  function Kilobytes(amount: nat): (bytes: nat)
    ensures bytes / 1000 == amount && bytes % 1000 == 0
    ensures amount > 0 ==> bytes > amount
  {
    amount * 1000
  }

  /** MEGABYTES: amount * 1000 * 1000, which is 1000 times KILOBYTES(amount). */
  function Megabytes(amount: nat): (bytes: nat)
    ensures bytes / 1000 == Kilobytes(amount) && bytes % 1000 == 0
  {
    amount * 1000 * 1000
  }

  /** GIGABYTES: amount * 1000 * 1000 * 1000, which is 1000 times MEGABYTES(amount). */
  function Gigabytes(amount: nat): (bytes: nat)
    ensures bytes / 1000 == Megabytes(amount) && bytes % 1000 == 0
  {
    amount * 1000 * 1000 * 1000
  }

  /** The binary units are a 2^10 ladder: KiB = 2^10, MiB = 2^20, GiB = 2^30 bytes. */
  lemma BinaryUnitsArePowersOfTwo(amount: nat)
    ensures Kibibytes(amount) == amount * 0x400
    ensures Mebibytes(amount) == amount * 0x10_0000
    ensures Gibibytes(amount) == amount * 0x4000_0000
  {
  }

  /** GIBIBYTES(amount) fits a u64 exactly when amount < 2^34, and a 32-bit
      int exactly when amount <= 1: the multiplication is done in the
      argument's own type, so GIBIBYTES(2) on an int literal overflows. */
  lemma GibibytesBounds(amount: nat)
    ensures Gibibytes(amount) <= INVALID_ID_U64 <==> amount < 0x4_0000_0000
    ensures Gibibytes(amount) < 0x8000_0000 <==> amount <= 1
  {
  }

  /** GIGABYTES(amount) fits a u64 exactly when amount <= 18446744073, and
      a 32-bit int exactly when amount <= 2, so GIGABYTES(3) on an int
      literal overflows. */
  lemma GigabytesBounds(amount: nat)
    ensures Gigabytes(amount) <= INVALID_ID_U64 <==> amount <= 18446744073
    ensures Gigabytes(amount) < 0x8000_0000 <==> amount <= 2
  {
  }

  /** The smaller units fit a 32-bit int exactly when: KIBIBYTES below 2^21,
      MEBIBYTES below 2^11, KILOBYTES up to 2147483, MEGABYTES up to 2147. */
  lemma SmallerUnitsIntBounds(amount: nat)
    ensures Kibibytes(amount) < 0x8000_0000 <==> amount < 0x20_0000
    ensures Mebibytes(amount) < 0x8000_0000 <==> amount < 0x800
    ensures Kilobytes(amount) < 0x8000_0000 <==> amount <= 2147483
    ensures Megabytes(amount) < 0x8000_0000 <==> amount <= 2147
  {
  }
}
