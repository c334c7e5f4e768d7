/** The memory system's entry points: every call forwards to the platform
    layer. Allocation and freeing always pass `aligned == false`. Hallocate
    ignores its tag; Hfree ignores its size and its tag. */
module Memory {
  import opened Defines
  import opened MemoryTags
  import opened CStd
  import Platform

  /** Every live block was requested unaligned, as Allocate always does.
      Nothing else in the core calls the platform allocator, so every live
      block came from Allocate. */
  ghost predicate Valid(heap: Heap)
    reads heap
  {
    && Platform.Tracked(heap)
    && forall b :: b in heap.alignedRequest ==> !heap.alignedRequest[b]
  }

  /** Hallocate: a pointer to a fresh block of exactly `size` bytes, or null
      (0) on failure, which callers must check for. The contract does not
      mention `tag`: the result is the same whatever the tag. */
  method Allocate(heap: Heap, size: U64, tag: MemoryTag) returns (block: array?<U8>)
    requires Valid(heap)
    modifies heap
    ensures Valid(heap)
    ensures block == null ==> heap.live == old(heap.live) && heap.alignedRequest == old(heap.alignedRequest)
    ensures block != null ==>
      && fresh(block) && block.Length == size
      && heap.live == old(heap.live) + {block}
      && heap.alignedRequest == old(heap.alignedRequest)[block := false]
  {
    block := Platform.Allocate(heap, size, false);
  }

  /** Hfree: frees `block` with `aligned == false`, which the platform layer
      requires to be the flag the block was allocated with; `size` and `tag`
      are not used. Freeing null does nothing. */
  method Free(heap: Heap, block: array?<U8>, size: U64, tag: MemoryTag)
    requires Valid(heap)
    requires block == null || block in heap.live
    modifies heap
    ensures Valid(heap)
    ensures heap.live == if block == null then old(heap.live) else old(heap.live) - {block}
  {
    Platform.Free(heap, block, false);
  }

  /** Hzero_memory: the `size` bytes at `block` become 0, no other byte
      changes; returns `block`. */
  method ZeroMemory(block: Ptr, size: U64) returns (r: Ptr)
    requires HasRoom(block, size)
    modifies block.block
    ensures r == block
    ensures block.block[..] == Filled(old(block.block[..]), block.offset, 0, size)
  {
    r := Platform.ZeroMemory(block, size);
  }

  /** Hcopy_memory: the `size` bytes at `dest` become the old `size` bytes at
      `source` (the ranges must not overlap); no other byte changes, the
      source range is unchanged; returns `dest`. */
  method CopyMemory(dest: Ptr, source: Ptr, size: U64) returns (r: Ptr)
    requires HasRoom(dest, size) && HasRoom(source, size)
    requires Disjoint(dest, source, size)
    modifies dest.block
    ensures r == dest
    ensures dest.block[..] == Copied(old(dest.block[..]), dest.offset, old(source.block[..]), source.offset, size)
    ensures source.block[source.offset..source.offset + size] == old(source.block[source.offset..source.offset + size])
  {
    r := Platform.CopyMemory(dest, source, size);
  }

  /** Hset_memory: the `size` bytes at `dest` become `value` mod 256, no other
      byte changes; returns `dest`. */
  method SetMemory(dest: Ptr, value: I32, size: U64) returns (r: Ptr)
    requires HasRoom(dest, size)
    modifies dest.block
    ensures r == dest
    ensures dest.block[..] == Filled(old(dest.block[..]), dest.offset, ToUnsignedChar(value), size)
  {
    r := Platform.SetMemory(dest, value, size);
  }
}
