/** The integer part of the math helpers: the power-of-two test over u64,
    the mapping of a rand() value into [min, max], and the one-way
    `rand_seeded` flag that makes the first random call seed the generator. */
module HMath {
  import opened Defines

  /** RAND_MAX of the Microsoft C runtime, the platform this code builds for. */
  const RAND_MAX: int := 0x7FFF

  /** is_power_of_2: value != 0 and value & (value - 1) == 0, which holds
      exactly when value is 2^k for some k in 0..63. */
  function IsPowerOf2(value: bv64): (b: bool)
    ensures b <==> exists k: bv7 :: k < 64 && value == Bit(k)
  {
    BitTestExactly(value);
    value != 0 && value & (value - 1) == 0
  }

  /** 2^k as a u64, for a shift amount k below 64. */
  function Bit(k: bv7): bv64
    requires k < 64
  {
    1 << k
  }

  /** The bit test of is_power_of_2 accepts exactly the values 2^k, k in 0..63. */
  lemma BitTestExactly(v: bv64)
    ensures (v != 0 && v & (v - 1) == 0) <==> exists k: bv7 :: k < 64 && v == Bit(k)
  {
    if v != 0 && v & (v - 1) == 0 {
      assert Bit(0) - 1 == 0;
      PowerOf2AtOrAbove(v, 0);
    }
    if exists k: bv7 :: k < 64 && v == Bit(k) {
      var k: bv7 :| k < 64 && v == Bit(k);
      BitPassesTest(k);
    }
  }

  /** Every 2^k passes the bit test. */
  lemma BitPassesTest(k: bv7)
    requires k < 64
    ensures Bit(k) != 0 && Bit(k) & (Bit(k) - 1) == 0
  {
  }

  /** A value that passes the bit test and has no set bit below position k is
      2^j for some j in k..63: scan upwards for its one set bit. */
  lemma {:induction false} PowerOf2AtOrAbove(v: bv64, k: bv7)
    requires k < 64 && v != 0 && v & (v - 1) == 0 && v & (Bit(k) - 1) == 0
    ensures exists j: bv7 :: k <= j < 64 && v == Bit(j)
    decreases 64 - k
  {
    if v & Bit(k) != 0 {
      OnlySetBit(v, k);
    } else {
      NoSetBitBelowNext(v, k);
      PowerOf2AtOrAbove(v, k + 1);
    }
  }

  lemma OnlySetBit(v: bv64, k: bv7)
    requires k < 64 && v != 0 && v & (v - 1) == 0 && v & (Bit(k) - 1) == 0 && v & Bit(k) != 0
    ensures v == Bit(k)
  {
  }

  lemma NoSetBitBelowNext(v: bv64, k: bv7)
    requires k < 64 && v != 0 && v & (Bit(k) - 1) == 0 && v & Bit(k) == 0
    ensures k < 63 && v & (Bit(k + 1) - 1) == 0
  {
  }

  /** Zero is not a power of two. */
  lemma ZeroIsNotPowerOf2()
    ensures !IsPowerOf2(0)
  {
  }

  /** C's `/` on int: the algebraic quotient with any fractional part
      discarded (truncation toward zero). */
  function CDivide(a: int, b: int): int
    requires b != 0
  {
    if a >= 0 && b > 0 then a / b
    else if a >= 0 then -(a / -b)
    else if b > 0 then -(-a / b)
    else -a / -b
  }

  /** C's `%` on int: what `(a/b)*b + a%b == a` leaves for it, so its sign
      is the dividend's and its magnitude is below the divisor's. */
  function CRemainder(a: int, b: int): (r: int)
    requires b != 0
    ensures a >= 0 ==> 0 <= r < (if b > 0 then b else -b)
    ensures a < 0 ==> -(if b > 0 then b else -b) < r <= 0
    ensures a >= 0 ==> r <= a
    ensures 0 <= a < (if b > 0 then b else -b) ==> r == a
  {
    if a >= 0 && b > 0 then ModOfNonNegative(a, b); a % b
    else if a >= 0 then ModOfNonNegative(a, -b); a % -b
    else if b > 0 then -(-a % b)
    else -(-a % -b)
  }

  lemma ModOfNonNegative(a: int, m: int)
    requires a >= 0 && m > 0
    ensures a % m <= a
    ensures a < m ==> a % m == a
  {
  }

  /** C's `/` and `%` agree: (a/b)*b + a%b == a. */
  lemma DivisionIdentity(a: int, b: int)
    requires b != 0
    ensures CDivide(a, b) * b + CRemainder(a, b) == a
  {
  }

  /** hrandom_in_range's arithmetic: (r % (max - min + 1)) + min in i32, for a
      rand() result r. The requires exclude exactly the undefined cases: an
      i32 overflow in max - min + 1 or in the final sum, and a zero divisor
      (max == min - 1). For min <= max the result lies in [min, max]; small
      rand() results map to min + r, larger ones wrap around. */
  function RandomInRange(r: int, min: I32, max: I32): (x: I32)
    requires 0 <= r <= RAND_MAX
    requires IsI32(max - min) && IsI32(max - min + 1) && max - min + 1 != 0
    requires IsI32(CRemainder(r, max - min + 1) + min)
    ensures min <= x <= min + r
    ensures min <= max ==> x <= max
    ensures max < min - 1 ==> x < min + (min - max - 1)
    ensures r < (if min <= max then max - min + 1 else min - max - 1) ==> x == min + r
  {
    CRemainder(r, max - min + 1) + min
  }

  /** A one-value range always yields that value. */
  lemma RandomInSingletonRange(r: int, m: I32)
    requires 0 <= r <= RAND_MAX
    ensures RandomInRange(r, m, m) == m
  {
  }

  /** When the range has at most RAND_MAX + 1 values, every value in it is
      produced by some rand() result, namely x - min. */
  lemma RandomInRangeReachesAll(min: I32, max: I32, x: int)
    requires min <= x <= max
    requires max - min + 1 <= RAND_MAX + 1
    ensures RandomInRange(x - min, min, max) == x
  {
  }

  /** The static state of the random helpers: whether srand has been called.
      The ghost `seeds` lists the seeds srand was called with. */
  class RandomState {
    var randSeeded: bool
    ghost var seeds: seq<U32>

    /** The flag is set exactly when srand has been called, and srand is
        called at most once. */
    ghost predicate Valid()
      reads this
    {
      |seeds| <= 1 && (randSeeded <==> |seeds| == 1)
    }

    /** `static b8 rand_seeded = false;` */
    constructor ()
      ensures Valid() && !randSeeded && seeds == []
    {
      randSeeded := false;
      seeds := [];
    }

    /** hrandom: on the first call seed with `clock` (the truncated absolute
        time), then return the rand() result `r`. */
    method Next(clock: U32, r: int) returns (x: I32)
      requires Valid()
      requires 0 <= r <= RAND_MAX
      modifies this
      ensures Valid() && randSeeded
      ensures seeds == if old(randSeeded) then old(seeds) else [clock]
      ensures x == r
    {
      if !randSeeded {
        seeds := seeds + [clock];
        randSeeded := true;
      }
      x := r;
    }

    /** hrandom_in_range: on the first call seed with `clock`, then map the
        rand() result `r` into the range. */
    method NextInRange(clock: U32, r: int, min: I32, max: I32) returns (x: I32)
      requires Valid()
      requires 0 <= r <= RAND_MAX
      requires IsI32(max - min) && IsI32(max - min + 1) && max - min + 1 != 0
      requires IsI32(CRemainder(r, max - min + 1) + min)
      modifies this
      ensures Valid() && randSeeded
      ensures seeds == if old(randSeeded) then old(seeds) else [clock]
      ensures x == RandomInRange(r, min, max)
    {
      if !randSeeded {
        seeds := seeds + [clock];
        randSeeded := true;
      }
      x := RandomInRange(r, min, max);
    }
  
    /** A driver over a run of hrandom calls (the source has no such loop):
        srand is called only by the first call of the run, and only if no
        earlier call seeded; every later call finds the flag set and leaves it
        set. The same follows from the per-call contracts of Next and
        NextInRange for any mix of the two. */
    method RandomRun(clocks: seq<U32>, rs: seq<int>) returns (xs: seq<I32>)
      requires Valid()
      requires |clocks| == |rs| && forall i :: 0 <= i < |rs| ==> 0 <= rs[i] <= RAND_MAX
      modifies this
      ensures Valid()
      ensures xs == rs
      ensures randSeeded == (old(randSeeded) || clocks != [])
      ensures seeds == if old(randSeeded) || clocks == [] then old(seeds) else [clocks[0]]
    {
      xs := [];
      var i := 0;
      while i < |rs|
        invariant 0 <= i <= |rs| && Valid()
        invariant xs == rs[..i]
        invariant randSeeded == (old(randSeeded) || i > 0)
        invariant seeds == if old(randSeeded) || i == 0 then old(seeds) else [clocks[0]]
      {
        var x := Next(clocks[i], rs[i]);
        xs := xs + [x];
        i := i + 1;
      }
    }
  }
}
