/** The seven-bit shader feature set (`ShaderFlags` in d3d.h) and the pure operations on
    it from d3d.cpp: `sanitize`, `set_flags` and the per-stage projections. Flags are
    held in a 32-bit word, as the source's `Uint32`. */
module Flags {

  type ShaderFlags = bv32

  const None: ShaderFlags := 0
  const Texture: ShaderFlags := 0x01
  const EnvMap: ShaderFlags := 0x02
  const Alpha: ShaderFlags := 0x04
  const Light: ShaderFlags := 0x08
  const Fog: ShaderFlags := 0x10
  const DepthMap: ShaderFlags := 0x20
  const SoftParticle: ShaderFlags := 0x40
  const Mask: ShaderFlags := 0x7f
  /** The enumerator after `Mask`, hence `Mask + 1`. */
  const Count: ShaderFlags := 0x80

  /** The named flags in declaration order. */
  const Named: seq<ShaderFlags> := [Texture, EnvMap, Alpha, Light, Fog, DepthMap, SoftParticle]

  const DefaultFlags: ShaderFlags := Alpha | Fog | Light | Texture
  /** Flags that select a vertex-shader variant. */
  const VsFlags: ShaderFlags := Texture | EnvMap
  /** Flags that select a pixel-shader variant. */
  const PsFlags: ShaderFlags := Texture | Alpha | Fog | Light | SoftParticle | DepthMap

  predicate Has(f: ShaderFlags, bit: ShaderFlags) {
    f & bit != 0
  }

  /** The number of named flags set in `f`. */
  function PopCount(f: ShaderFlags): nat {
    (if Has(f, Texture) then 1 else 0) + (if Has(f, EnvMap) then 1 else 0)
    + (if Has(f, Alpha) then 1 else 0) + (if Has(f, Light) then 1 else 0)
    + (if Has(f, Fog) then 1 else 0) + (if Has(f, DepthMap) then 1 else 0)
    + (if Has(f, SoftParticle) then 1 else 0)
  }

  /** `sanitize`: drop every bit outside the mask, and drop EnvMap when Texture is absent. */
  function Sanitize(f: ShaderFlags): (r: ShaderFlags)
    ensures r & !Mask == 0
    ensures Has(r, EnvMap) <==> Has(f, EnvMap) && Has(f, Texture)
    ensures forall i :: 0 <= i < |Named| && Named[i] != EnvMap ==> (Has(r, Named[i]) <==> Has(f, Named[i]))
  {
    var m := f & Mask;
    if Has(m, EnvMap) && !Has(m, Texture) then m & !EnvMap else m
  }

  /** `set_flags(flags, add)`: turn the given bits on (`add`) or off in the current set.
      The given bits end up all set or all clear; `SetFlagsKeepsOthers` states that no
      other bit moves. */
  function SetFlags(current: ShaderFlags, flags: ShaderFlags, add: bool := true): (r: ShaderFlags)
    ensures r & flags == (if add then flags else None)
  {
    if add then current | flags else current & !flags
  }

  /** `set_flags` leaves every bit outside the given ones as it was. */
  lemma SetFlagsKeepsOthers(current: ShaderFlags, flags: ShaderFlags, add: bool)
    ensures SetFlags(current, flags, add) & !flags == current & !flags
  {
  }

  /** The key under which a vertex-shader variant is looked up and stored. */
  function VertexKey(f: ShaderFlags): ShaderFlags {
    Sanitize(f) & VsFlags
  }

  /** The key under which a pixel-shader variant is stored. */
  function PixelKey(f: ShaderFlags): ShaderFlags {
    Sanitize(f) & PsFlags
  }

  lemma NamedAreDistinctSingleBits()
    ensures forall i :: 0 <= i < |Named| ==> Named[i] == 1 << i
    ensures forall i, j :: 0 <= i < j < |Named| ==> Named[i] & Named[j] == 0
  {
  }

  lemma MaskIsUnionOfNamed()
    ensures Mask == Texture | EnvMap | Alpha | Light | Fog | DepthMap | SoftParticle
    ensures forall i :: 0 <= i < |Named| ==> Named[i] & !Mask == 0
  {
  }

  /** Counting `i` from 0 below `Count` visits exactly the flag words that lie inside the mask. */
  lemma CountEnumeratesSubsets(f: ShaderFlags)
    ensures Count == Mask + 1
    ensures f < Count <==> f & !Mask == 0
  {
  }

  lemma NoneIsOrIdentity(f: ShaderFlags)
    ensures f | None == f
    ensures SetFlags(f, None) == f
  {
  }

  lemma SanitizeIdempotent(f: ShaderFlags)
    ensures Sanitize(Sanitize(f)) == Sanitize(f)
  {
  }

  /** The stage projections are idempotent after sanitizing. */
  lemma KeysIdempotent(f: ShaderFlags)
    ensures VertexKey(VertexKey(f)) == VertexKey(f)
    ensures PixelKey(PixelKey(f)) == PixelKey(f)
  {
  }

  /** `get_pixel_shader` looks a variant up under `f & PsFlags` but stores it under
      `sanitize(f) & PsFlags`. The two keys always agree: sanitizing only clears EnvMap
      and bits above the mask, and `PsFlags` holds neither. */
  lemma PixelLookupKeyIsStoreKey(f: ShaderFlags)
    ensures f & PsFlags == PixelKey(f)
  {
  }

  /** Only three vertex-shader variants are reachable. */
  lemma VertexKeysReachable(f: ShaderFlags)
    ensures VertexKey(f) == None || VertexKey(f) == Texture || VertexKey(f) == Texture | EnvMap
  {
  }

  /** Keys stay inside the mask, so their cache names are two hex digits. */
  lemma KeysInsideMask(f: ShaderFlags)
    ensures VertexKey(f) < Count && PixelKey(f) < Count
  {
  }
}
