/** The memory tag enumeration of the memory system header: the purpose an
    allocation is made for. */
module MemoryTags {

  datatype MemoryTag =
    | Unknown            // for temporary use, until a proper tag is chosen
    | Array
    | LinearAllocator
    | DArray
    | Dict
    | RingQueue
    | Bst
    | String
    | Application
    | Job
    | Texture
    | MaterialInstance
    | Renderer
    | Game
    | Transform
    | Entity
    | EntityNode
    | Scene
    | Resource
    | Vulkan
    | VulkanExt          // external Vulkan allocations, for reporting only
    | Direct3D
    | OpenGL
    | GpuLocal           // GPU-local memory (VRAM)
    | BitmapFont
    | SystemFont

  /** MEMORY_TAG_MAX_TAGS: the sentinel that follows the last real tag. */
  const MAX_TAGS: nat := 26

  /** The real tags in declaration order. */
  const AllTags: seq<MemoryTag> := [
    Unknown, Array, LinearAllocator, DArray, Dict, RingQueue, Bst, String,
    Application, Job, Texture, MaterialInstance, Renderer, Game, Transform,
    Entity, EntityNode, Scene, Resource, Vulkan, VulkanExt, Direct3D, OpenGL,
    GpuLocal, BitmapFont, SystemFont
  ]

  /** The numeric value C gives the enumerator: its position in the
      declaration, strictly below the sentinel. */
  function Ordinal(t: MemoryTag): (n: nat)
    ensures n < MAX_TAGS && n < |AllTags| && AllTags[n] == t
  {
    match t
    case Unknown => 0
    case Array => 1
    case LinearAllocator => 2
    case DArray => 3
    case Dict => 4
    case RingQueue => 5
    case Bst => 6
    case String => 7
    case Application => 8
    case Job => 9
    case Texture => 10
    case MaterialInstance => 11
    case Renderer => 12
    case Game => 13
    case Transform => 14
    case Entity => 15
    case EntityNode => 16
    case Scene => 17
    case Resource => 18
    case Vulkan => 19
    case VulkanExt => 20
    case Direct3D => 21
    case OpenGL => 22
    case GpuLocal => 23
    case BitmapFont => 24
    case SystemFont => 25
  }

  /** The tag with a given numeric value, if that value names a real tag;
      the sentinel and everything above it name none. */
  function TagOf(n: int): (t: Option<MemoryTag>)
    ensures t.Some? <==> 0 <= n < MAX_TAGS
    ensures t.Some? ==> Ordinal(t.value) == n
  {
    if 0 <= n < |AllTags| then
      OrdinalOfAllTags(n);
      Some(AllTags[n])
    else
      None
  }

  datatype Option<T> = None | Some(value: T)

  /** The enumerators are consecutive from MEMORY_TAG_UNKNOWN == 0: the tag at
      position i of the declaration has value i, and the sentinel counts them. */
  lemma OrdinalOfAllTags(i: nat)
    requires i < |AllTags|
    ensures Ordinal(AllTags[i]) == i
    ensures |AllTags| == MAX_TAGS
  {
  }

  /** Distinct tags have distinct values, and every value has its tag back. */
  lemma OrdinalRoundTrip(t: MemoryTag, u: MemoryTag)
    ensures TagOf(Ordinal(t)) == Some(t)
    ensures Ordinal(t) == Ordinal(u) ==> t == u
  {
  }
}
