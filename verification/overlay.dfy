/** The per-overlay pieces of `OverlayBase` and the `BufferSpec` it holds:
    the depth order, the sticky dirty flag, the surface id and the buffer
    specification's partial copy. */
module Overlay {

  /** `BufferSpec`: the size, formats and flags of an overlay's buffers.
      Texture formats are their enum ordinals. */
  datatype BufferSpec = BufferSpec(
    width: int, height: int,
    colorFormat: int, depthFormat: int,
    surfaceFlag: int, createFlag: int,
    samples: int, bufferCount: int,
    useTextureArray: bool)

  /** `BufferSpec.Copy`: takes every field of the source except
      `createFlag`, which keeps its own value. */
  function Copy(target: BufferSpec, source: BufferSpec): (r: BufferSpec)
    ensures r.createFlag == target.createFlag
    ensures r.(createFlag := source.createFlag) == source
  {
    BufferSpec(source.width, source.height, source.colorFormat, source.depthFormat,
               source.surfaceFlag, target.createFlag, source.samples, source.bufferCount,
               source.useTextureArray)
  }

  /** Copying is idempotent, and a later copy overrides an earlier one. */
  lemma CopyOverrides(target: BufferSpec, first: BufferSpec, second: BufferSpec)
    ensures Copy(Copy(target, first), first) == Copy(target, first)
    ensures Copy(Copy(target, first), second) == Copy(target, second)
  {
  }

  /** `int.CompareTo`: -1, 0 or 1. */
  function CompareTo(depth: int, thatDepth: int): (c: int)
    ensures c == -1 || c == 0 || c == 1
    ensures c < 0 <==> depth < thatDepth
    ensures c == 0 <==> depth == thatDepth
  {
    if depth < thatDepth then -1 else if depth == thatDepth then 0 else 1
  }

  /** The overlay order is a total preorder: antisymmetric in sign and
      transitive. */
  lemma CompareToIsOrder(a: int, b: int, c: int)
    ensures CompareTo(a, b) == -CompareTo(b, a)
    ensures CompareTo(a, b) <= 0 && CompareTo(b, c) <= 0 ==> CompareTo(a, c) <= 0
  {
  }

  /** The dirty flag and whether viewports exist. */
  datatype DirtyState = DirtyState(isDirty: bool, hasViewPorts: bool)

  /** `SetDirty`: once dirty, the overlay stays dirty until the next update
      rebuilds its viewports. */
  function SetDirty(s: DirtyState, value: bool): (r: DirtyState)
    ensures r.isDirty <==> s.isDirty || value
    ensures r.hasViewPorts == s.hasViewPorts
  {
    s.(isDirty := s.isDirty || value)
  }

  /** `Update`: a dirty overlay with viewports rebuilds them, reported by
      `rebuilt`, and is clean afterwards. */
  function UpdateDirty(s: DirtyState): (r: (DirtyState, bool))
    ensures r.1 <==> s.isDirty && s.hasViewPorts
    ensures r.1 ==> !r.0.isDirty
    ensures !r.1 ==> r.0 == s
  {
    if s.isDirty && s.hasViewPorts then (s.(isDirty := false), true) else (s, false)
  }

  /** `SetDirty(false)` never cleans a dirty overlay, and setting twice is
      setting once. */
  lemma DirtyIsSticky(s: DirtyState, a: bool, b: bool)
    ensures s.isDirty ==> SetDirty(s, a).isDirty
    ensures SetDirty(SetDirty(s, a), b) == SetDirty(s, a || b)
  {
  }

  /** `SurfaceId`: the stored Android surface for an external-surface
      overlay, zero for any other. */
  function SurfaceId(isExternalSurface: bool, storedSurface: int): (id: int)
    ensures !isExternalSurface ==> id == 0
    ensures isExternalSurface ==> id == storedSurface
  {
    if isExternalSurface then storedSurface else 0
  }
}
