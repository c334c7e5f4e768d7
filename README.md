# Memory layer of the Hazker runtime, in Dafny

This project models the memory system of a small C/C++ game runtime, together
with the integer helpers and macros it ships next to it:

- the memory system entry points `Hallocate`, `Hfree`, `Hzero_memory`,
  `Hcopy_memory` and `Hset_memory` (module `Memory`), which forward to
- the Windows platform layer's `platform_allocate`, `platform_free`,
  `platform_zero_memory`, `platform_copy_memory` and `platform_set_memory`
  (module `Platform`), which call
- the C library's `malloc`, `free`, `memset` and `memcpy`, given the meaning
  ISO/IEC 9899:2011 gives them in sections 7.22.3.4, 7.22.3.3, 7.24.6.1 and
  7.24.2.1 (module `CStd`);
- the `memory_tag` enumeration and its `MEMORY_TAG_MAX_TAGS` sentinel
  (module `MemoryTags`);
- `is_power_of_2`, the integer mapping of `hrandom_in_range`, and the
  `rand_seeded` flag shared by `hrandom` and `hrandom_in_range` (module `HMath`);
- `HCLAMP`, the KiB/MiB/GiB and KB/MB/GB macros, the `INVALID_ID*` sentinels
  and the `range` struct (module `Defines`).

Memory is a collection of byte arrays (`array<U8>`, bytes as integers in
[0, 256)). A `void*` is a `Ptr`: an array and an offset into it, so that two
pointers into the same object, and therefore overlap, can be expressed. The
zero, copy and set operations are methods that change the destination array
in place; their contracts give the whole new contents as a function of the
old contents (`Filled`, `Copied`) and say what they return. The C heap is a
class `Heap` whose `live` set `malloc` grows and `free` shrinks; a ghost map
records the `aligned` flag each live block was requested with. The
`rand_seeded` flag is the field of a class `RandomState`, with a ghost list of
the seeds `srand` was called with.

The memory system header documents that allocations are "tracked for the
provided tag", and a per-tag statistics table is part of the design the
runtime describes. The code does not do this: `Hallocate` ignores `tag`
(it passes only `size` on), `Hfree` ignores `size` and `tag`, and no table
exists. The model follows the code: it has
no statistics table, and the contracts of `Memory.Allocate` and `Memory.Free`
do not mention the tag at all.

## Model

| member | source | states |
|---|---|---|
| `Defines.InvalidIdsAreMaxima` | defines.h:100-103 | each INVALID_ID sentinel is the largest value of its width (2^64-1, 2^32-1, 2^16-1, 2^8-1): every value of that width is at most it and one more no longer fits |
| `Defines.Clamp` | defines.h:185 | HCLAMP returns min when value <= min, max when min < value and value >= max, value itself strictly inside; with min <= max the result lies in [min, max] |
| `Defines.ClampIdempotent` | defines.h:185 | clamping an already clamped value to the same well-formed range returns it unchanged |
| `Defines.Kibibytes` | defines.h:192 | KIBIBYTES(a) divided by 1024 gives a back with no remainder |
| `Defines.Mebibytes` | defines.h:190 | MEBIBYTES(a) is 1024 times KIBIBYTES(a) |
| `Defines.Gibibytes` | defines.h:188 | GIBIBYTES(a) is 1024 times MEBIBYTES(a) |
| `Defines.Kilobytes` | defines.h:199 | KILOBYTES(a) divided by 1000 gives a back with no remainder |
| `Defines.Megabytes` | defines.h:197 | MEGABYTES(a) is 1000 times KILOBYTES(a) |
| `Defines.Gigabytes` | defines.h:195 | GIGABYTES(a) is 1000 times MEGABYTES(a) |
| `Defines.BinaryUnitsArePowersOfTwo` | defines.h:187-192 | KiB, MiB and GiB are 2^10, 2^20 and 2^30 bytes per unit |
| `Defines.GibibytesBounds` | defines.h:188 | GIBIBYTES(a) fits a u64 exactly when a < 2^34, and a 32-bit int exactly when a <= 1 |
| `Defines.GigabytesBounds` | defines.h:195 | GIGABYTES(a) fits a u64 exactly when a <= 18446744073, and a 32-bit int exactly when a <= 2 |
| `Defines.SmallerUnitsIntBounds` | defines.h:190-199 | KIBIBYTES, MEBIBYTES, KILOBYTES and MEGABYTES fit a 32-bit int exactly when a < 2^21, a < 2^11, a <= 2147483 and a <= 2147 |
| `MemoryTags.Ordinal` | core/hmemory.h:21-53 | each tag's numeric value is its position in the declaration and lies strictly below MEMORY_TAG_MAX_TAGS == 26 |
| `MemoryTags.TagOf` | core/hmemory.h:21-53 | a number names a real tag exactly when it is in [0, 26), and then that tag has that number; the sentinel names none |
| `MemoryTags.OrdinalOfAllTags` | core/hmemory.h:21-52 | the enumerators are consecutive from MEMORY_TAG_UNKNOWN == 0, and the sentinel equals the number of real tags |
| `MemoryTags.OrdinalRoundTrip` | core/hmemory.h:21-53 | distinct tags have distinct values, and a tag's value maps back to the tag |
| `CStd.ToUnsignedChar` | platform/win32.cpp:52-54 | the i32 value memset stores is the byte in [0, 256) that differs from it by a multiple of 256, the value itself when it already is a byte |
| `CStd.ToUnsignedCharExamples` | platform/win32.cpp:52-54 | setting to -1 stores 255, to 0x1FF stores 0xFF, to 0x100 stores 0 |
| `CStd.Filled` | platform/win32.cpp:44-46 | after memset of n bytes at offset off, byte i is the set value when off <= i < off + n and the old byte otherwise; the length is unchanged |
| `CStd.Copied` | platform/win32.cpp:48-50 | after memcpy of n bytes, destination byte i is source byte soff + (i - doff) inside the range and the old byte outside it |
| `CStd.ZeroSizeChangesNothing` | core/hmemory.cpp:11-21 | zeroing, setting or copying zero bytes leaves the destination as it was |
| `CStd.CopiedRanges` | platform/win32.cpp:48-50 | after a copy the destination range reads exactly as the source range, and the bytes before and after it are the old ones |
| `CStd.Memset` | platform/win32.cpp:52-54 | memset writes (unsigned char)c into the n bytes at dest, changes no other byte, and returns dest |
| `CStd.Memcpy` | platform/win32.cpp:48-50 | memcpy, for non-overlapping ranges, makes the n bytes at dest equal the old n bytes at source, changes no other byte, leaves the source range unchanged, and returns dest |
| `CStd.Heap.Malloc` | platform/win32.cpp:36-38 | malloc returns null and changes nothing, or a fresh block of exactly size bytes that becomes live |
| `CStd.Heap.Free` | platform/win32.cpp:40-42 | free of null changes nothing; free of a live block makes it not live |
| `Platform.Allocate` | platform/win32.cpp:36-38 | platform_allocate returns null or a fresh live block of exactly size bytes; aligned does not affect the result and is only recorded |
| `Platform.Free` | platform/win32.cpp:40-42 | platform_free of null changes nothing; of a live block, it stops being live; the caller must pass the aligned flag the block was allocated with, which does not affect the effect |
| `Platform.ZeroMemory` | platform/win32.cpp:44-46 | platform_zero_memory sets the size bytes at block to 0, changes no other byte, returns block |
| `Platform.CopyMemory` | platform/win32.cpp:48-50 | platform_copy_memory copies size bytes between non-overlapping ranges, changes no other byte, returns dest |
| `Platform.SetMemory` | platform/win32.cpp:52-54 | platform_set_memory sets the size bytes at dest to value mod 256, changes no other byte, returns dest |
| `Platform.ZeroIsSetZero` | platform/win32.cpp:44-54 | zeroing a range has the same effect as setting it to 0 |
| `Memory.Allocate` | core/hmemory.cpp:3-5 | Hallocate returns null (0) or a fresh block of exactly size bytes, requested unaligned; its contract does not depend on tag |
| `Memory.Free` | core/hmemory.cpp:7-9 | Hfree frees with aligned == false, which the platform layer checks against the flag the block was allocated with; size and tag play no part; null is a no-op |
| `Memory.ZeroMemory` | core/hmemory.cpp:11-13 | Hzero_memory zeroes the size bytes at block, changes no other byte, returns block |
| `Memory.CopyMemory` | core/hmemory.cpp:15-17 | Hcopy_memory makes dest's size bytes equal the old source bytes, source unchanged, no other byte changed, returns dest |
| `Memory.SetMemory` | core/hmemory.cpp:19-21 | Hset_memory sets the size bytes at dest to value mod 256, changes no other byte, returns dest |
| `HMath.IsPowerOf2` | math/hmath.cpp:14-16 | is_power_of_2 over u64 (value != 0 and value & (value - 1) == 0) is true exactly when value == 2^k for some k in 0..63 |
| `HMath.BitTestExactly` | math/hmath.cpp:15 | the bit test value != 0 && (value & (value - 1)) == 0 accepts exactly the values 2^k, k in 0..63 |
| `HMath.BitPassesTest` | math/hmath.cpp:15 | every 2^k with k in 0..63 passes the bit test |
| `HMath.PowerOf2AtOrAbove` | math/hmath.cpp:15 | a value passing the bit test with no set bit below position k is 2^j for some j in k..63 |
| `HMath.ZeroIsNotPowerOf2` | math/hmath.cpp:15 | is_power_of_2(0) is false |
| `HMath.CRemainder` | math/hmath.cpp:55 | C's `%` takes the dividend's sign and is smaller in magnitude than the divisor; for a non-negative dividend below the divisor's magnitude it is the dividend |
| `HMath.DivisionIdentity` | math/hmath.cpp:55 | C's truncating `/` and `%` satisfy (a/b)*b + a%b == a |
| `HMath.RandomInRange` | math/hmath.cpp:50-56 | for a rand() result r and no i32 overflow or zero divisor, the result is at least min and at most min + r; for min <= max it is at most max; for max < min - 1 it stays below min + (min - max - 1); r smaller than the range size maps to min + r |
| `HMath.RandomInSingletonRange` | math/hmath.cpp:55 | hrandom_in_range(m, m) returns m for every rand() result |
| `HMath.RandomInRangeReachesAll` | math/hmath.cpp:55 | when the range has at most RAND_MAX + 1 values, every value x in it is produced, by the rand() result x - min |
| `HMath.RandomState.constructor` | math/hmath.cpp:12 | rand_seeded starts false and srand has not been called |
| `HMath.RandomState.Next` | math/hmath.cpp:42-48 | hrandom seeds once with the clock if the flag is unset, leaves the flag set, and returns the rand() result |
| `HMath.RandomState.NextInRange` | math/hmath.cpp:50-56 | hrandom_in_range seeds once with the clock if the flag is unset, leaves the flag set, and returns the mapped rand() result |
| `HMath.RandomState.RandomRun` | math/hmath.cpp:42-48 | a driver over a run of hrandom calls: srand is called at most once, by the first call and only if nothing seeded before; the flag never goes back to false |

## Left out

- Per-tag memory statistics: the header says allocations are tracked per tag, but the code keeps no counters; no table is modelled.
- Memory.Allocate: that the result does not depend on the tag is stated by a contract that does not mention the tag, not by a lemma comparing two calls, because allocation is nondeterministic (malloc may fail).
- Memory.Free: the caller's size and tag are accepted and ignored; nothing checks them against the allocation.
- Memory.Allocate and Memory.Free require that every live block was requested unaligned. This holds because nothing in the core other than Hallocate calls the platform allocator; a heap holding a block from a direct `platform_allocate(size, true)` is outside the model.
- CStd.Heap.Malloc: the new block's contents are indeterminate in C; the model's array starts zeroed, and no contract says anything about its contents.
- Use after free and pointers to objects that are not heap blocks: zero, copy and set require only that the bytes exist, not that the block is live.
- Clock code (`clock_setup`, `platform_get_absolute_time`): Windows performance counter and floating point. The seed hrandom passes to srand is taken as a `U32` input.
- `platform_sleep`, `platform_get_processor_count`: operating-system calls with console output.
- `platform_state`, `state_ptr`, `win32_process_message`: unused windowing plumbing.
- Floating-point math (`hsin`, `hcos`, `htan`, `hacos`, `hsqrt`, `habs`, `fhrandom`, `fhrandom_in_range`): wrappers over the C math library.
- `rand` and `srand` themselves: the rand() result is an input in [0, RAND_MAX], with RAND_MAX = 0x7FFF as in the Microsoft C runtime.
- `main.cpp`: a console test driver.
- The commented-out platform detection and `get_aligned`/`get_aligned_range` in defines.h: not compiled.
- `HAPI`, `HINLINE`, `HNOINLINE`, `_extern_c_*`, `STATIC_ASSERT`, the `b8`/`b32` typedefs: linkage, inlining and type aliases only. The `range` struct is the datatype `Defines.Range`; nothing in the core uses it.
- Textual macro effects: HCLAMP and the unit macros are functions of already-evaluated arguments, so `KIBIBYTES(1+1)` expanding to 1025 and HCLAMP's trailing `;` are not modelled. HCLAMP is modelled over `int` only.
- Unit macro overflow: the macros multiply in the argument's own type; the model multiplies over unbounded `nat`. GibibytesBounds and GigabytesBounds state exactly when GIBIBYTES and GIGABYTES fit a u64 and a 32-bit int; SmallerUnitsIntBounds does the same for the four smaller units and a 32-bit int only.
- Undefined behaviour (overlapping memcpy, double free, freeing a pointer malloc did not return, i32 overflow or a zero divisor in hrandom_in_range) is excluded by preconditions rather than given a behaviour.
- Concurrency: the code has no threads or locks.
