/** The C standard library functions the platform layer delegates to, with
    the behaviour ISO/IEC 9899:2011 gives them: memset (section 7.24.6.1),
    memcpy (section 7.24.2.1), malloc (section 7.22.3.4) and free
    (section 7.22.3.3). Memory is a set of byte arrays; a pointer is an
    array together with an offset into it. */
module CStd {
  import opened Defines

  /** A `void*` into an object: the object's bytes and an offset into them. */
  datatype Ptr = Ptr(block: array<U8>, offset: nat)

  /** The pointer designates at least `size` bytes of its object. */
  predicate HasRoom(p: Ptr, size: nat) {
    p.offset + size <= p.block.Length
  }

  /** The `size` bytes at `a` and the `size` bytes at `b` share no byte. */
  predicate Disjoint(a: Ptr, b: Ptr, size: nat) {
    a.block != b.block || a.offset + size <= b.offset || b.offset + size <= a.offset
  }

  /** Conversion of an int to unsigned char (section 6.3.1.3): the value in
      [0, 256) that differs from the int by a multiple of 256. */
  function ToUnsignedChar(value: int): (b: U8)
    ensures (value - b) % 256 == 0
    ensures 0 <= value < 256 ==> b == value
  {
    value % 256
  }

  lemma ToUnsignedCharExamples()
    ensures ToUnsignedChar(-1) == 0xFF
    ensures ToUnsignedChar(0x1FF) == 0xFF
    ensures ToUnsignedChar(0x100) == 0
  {
  }

  /** `n` copies of the byte `v`. */
  function Repeat(v: U8, n: nat): (s: seq<U8>)
    ensures |s| == n
    ensures forall i :: 0 <= i < n ==> s[i] == v
  {
    if n == 0 then [] else Repeat(v, n - 1) + [v]
  }

  /** The bytes `s` after memset of `n` bytes to `v` from offset `off`. */
  function Filled(s: seq<U8>, off: nat, v: U8, n: nat): (t: seq<U8>)
    requires off + n <= |s|
    ensures |t| == |s|
    ensures forall i :: 0 <= i < |s| ==> t[i] == if off <= i < off + n then v else s[i]
  {
    s[..off] + Repeat(v, n) + s[off + n..]
  }

  /** The bytes `d` after memcpy of `n` bytes from `src` at `soff` to `d` at `doff`. */
  function Copied(d: seq<U8>, doff: nat, src: seq<U8>, soff: nat, n: nat): (t: seq<U8>)
    requires doff + n <= |d| && soff + n <= |src|
    ensures |t| == |d|
    ensures forall i :: 0 <= i < |d| ==> t[i] == if doff <= i < doff + n then src[soff + i - doff] else d[i]
  {
    d[..doff] + src[soff..soff + n] + d[doff + n..]
  }

  /** Filling or copying zero bytes changes nothing. */
  lemma ZeroSizeChangesNothing(d: seq<U8>, doff: nat, src: seq<U8>, soff: nat, v: U8)
    requires doff <= |d| && soff <= |src|
    ensures Filled(d, doff, v, 0) == d
    ensures Copied(d, doff, src, soff, 0) == d
  {
  }

  /** After a copy the destination range reads exactly as the source range,
      and the bytes before and after it are the old ones. */
  lemma CopiedRanges(d: seq<U8>, doff: nat, src: seq<U8>, soff: nat, n: nat)
    requires doff + n <= |d| && soff + n <= |src|
    ensures Copied(d, doff, src, soff, n)[doff..doff + n] == src[soff..soff + n]
    ensures Copied(d, doff, src, soff, n)[..doff] == d[..doff]
    ensures Copied(d, doff, src, soff, n)[doff + n..] == d[doff + n..]
  {
  }

  /** memset: the `n` bytes at `dest` become `(unsigned char)c`; returns `dest`. */
  method Memset(dest: Ptr, c: int, n: U64) returns (r: Ptr)
    requires HasRoom(dest, n)
    modifies dest.block
    ensures r == dest
    ensures dest.block[..] == Filled(old(dest.block[..]), dest.offset, ToUnsignedChar(c), n)
  {
    var a, off, v := dest.block, dest.offset, ToUnsignedChar(c);
    var i := 0;
    while i < n
      invariant 0 <= i <= n
      invariant forall j :: 0 <= j < a.Length ==> a[j] == if off <= j < off + i then v else old(a[j])
    {
      a[off + i] := v;
      i := i + 1;
    }
    r := dest;
  }

  /** memcpy: the `n` bytes at `dest` become the `n` bytes at `source`, which
      must not overlap them; `source`'s bytes are left as they were; returns `dest`. */
  method Memcpy(dest: Ptr, source: Ptr, n: U64) returns (r: Ptr)
    requires HasRoom(dest, n) && HasRoom(source, n)
    requires Disjoint(dest, source, n)
    modifies dest.block
    ensures r == dest
    ensures dest.block[..] == Copied(old(dest.block[..]), dest.offset, old(source.block[..]), source.offset, n)
    ensures source.block[source.offset..source.offset + n] == old(source.block[source.offset..source.offset + n])
  {
    var a, doff, b, soff := dest.block, dest.offset, source.block, source.offset;
    var i := 0;
    while i < n
      invariant 0 <= i <= n
      invariant forall j :: 0 <= j < a.Length ==> a[j] == if doff <= j < doff + i then old(b[soff + j - doff]) else old(a[j])
      invariant forall j :: soff <= j < soff + n ==> b[j] == old(b[j])
    {
      a[doff + i] := b[soff + i];
      i := i + 1;
    }
    r := dest;
  }

  /** The C heap: the blocks malloc has handed out and free has not yet taken
      back. `alignedRequest` is ghost bookkeeping of the platform layer above:
      the `aligned` flag each live block was requested with. */
  class Heap {
    var live: set<array<U8>>
    ghost var alignedRequest: map<array<U8>, bool>

    constructor ()
      ensures live == {} && alignedRequest == map[]
    {
      live := {};
      alignedRequest := map[];
    }

    /** malloc: either a null pointer (failure) or a fresh block of exactly
        `size` bytes, whose contents are indeterminate and must not be read
        before they are written. */
    method Malloc(size: U64) returns (p: array?<U8>)
      modifies this`live
      ensures p == null ==> live == old(live)
      ensures p != null ==> fresh(p) && p.Length == size && live == old(live) + {p}
    {
      if * {
        p := null;
      } else {
        p := new U8[size];
        live := live + {p};
      }
    }

    /** free: a null pointer is ignored; otherwise the block must be live and
        stops being live. Freeing anything else is undefined. */
    method Free(p: array?<U8>)
      requires p == null || p in live
      modifies this`live
      ensures live == if p == null then old(live) else old(live) - {p}
    {
      if p != null {
        live := live - {p};
      }
    }
  }
}
