/** The Windows platform layer's memory functions: allocation and freeing
    over the C heap, and zero, copy and set over memset and memcpy. The
    `aligned` flag is accepted and ignored by the C calls; it is recorded
    only in the heap's ghost bookkeeping. */
module Platform {
  import opened Defines
  import opened CStd

  /** The ghost record of `aligned` requests covers exactly the live blocks. */
  ghost predicate Tracked(heap: Heap)
    reads heap
  {
    heap.alignedRequest.Keys == heap.live
  }

  /** platform_allocate: malloc(size); null on failure, otherwise a fresh block
      of exactly `size` bytes. The flag does not influence the C call. */
  method Allocate(heap: Heap, size: U64, aligned: bool) returns (block: array?<U8>)
    requires Tracked(heap)
    modifies heap
    ensures Tracked(heap)
    ensures block == null ==> heap.live == old(heap.live) && heap.alignedRequest == old(heap.alignedRequest)
    ensures block != null ==>
      && fresh(block) && block.Length == size
      && heap.live == old(heap.live) + {block}
      && heap.alignedRequest == old(heap.alignedRequest)[block := aligned]
  {
    block := heap.Malloc(size);
    if block != null {
      heap.alignedRequest := heap.alignedRequest[block := aligned];
    }
  }

  /** platform_free: free(block); null is ignored, a live block stops being
      live. The interface documents `aligned` as saying whether the block is
      aligned, so the caller must pass the flag the block was allocated with;
      the C call itself does not look at it. */
  method Free(heap: Heap, block: array?<U8>, aligned: bool)
    requires Tracked(heap)
    requires block == null || block in heap.live
    requires block != null ==> heap.alignedRequest[block] == aligned
    modifies heap
    ensures Tracked(heap)
    ensures block == null ==> heap.live == old(heap.live) && heap.alignedRequest == old(heap.alignedRequest)
    ensures block != null ==>
      && heap.live == old(heap.live) - {block}
      && heap.alignedRequest == old(heap.alignedRequest) - {block}
  {
    heap.Free(block);
    if block != null {
      heap.alignedRequest := heap.alignedRequest - {block};
    }
  }

  /** platform_zero_memory: memset(block, 0, size); returns `block`. */
  method ZeroMemory(block: Ptr, size: U64) returns (r: Ptr)
    requires HasRoom(block, size)
    modifies block.block
    ensures r == block
    ensures block.block[..] == Filled(old(block.block[..]), block.offset, 0, size)
  {
    r := Memset(block, 0, size);
  }

  /** platform_copy_memory: memcpy(dest, source, size); returns `dest`. */
  method CopyMemory(dest: Ptr, source: Ptr, size: U64) returns (r: Ptr)
    requires HasRoom(dest, size) && HasRoom(source, size)
    requires Disjoint(dest, source, size)
    modifies dest.block
    ensures r == dest
    ensures dest.block[..] == Copied(old(dest.block[..]), dest.offset, old(source.block[..]), source.offset, size)
    ensures source.block[source.offset..source.offset + size] == old(source.block[source.offset..source.offset + size])
  {
    r := Memcpy(dest, source, size);
  }

  /** platform_set_memory: memset(dest, value, size), storing value converted
      to unsigned char; returns `dest`. */
  method SetMemory(dest: Ptr, value: I32, size: U64) returns (r: Ptr)
    requires HasRoom(dest, size)
    modifies dest.block
    ensures r == dest
    ensures dest.block[..] == Filled(old(dest.block[..]), dest.offset, ToUnsignedChar(value), size)
  {
    r := Memset(dest, value, size);
  }

  /** Zeroing a range has the same effect as setting it to the value 0. */
  lemma ZeroIsSetZero(s: seq<U8>, off: nat, size: nat)
    requires off + size <= |s|
    ensures Filled(s, off, 0, size) == Filled(s, off, ToUnsignedChar(0), size)
    ensures forall i :: off <= i < off + size ==> Filled(s, off, 0, size)[i] == 0
  {
  }
}
