/**
 The 2D component: resources with a host copy of their pixels, and the two transfers
 between that copy, the guest's backing memory and a caller's buffer.
 */
module Rutabaga2D {
  import opened Machine
  import opened Transfer2D
  import opened ScatterGather
  import opened TransferLaws

  const BLOB_MEM_GUEST: u32 := 1
  // 1 << RutabagaComponentType::Rutabaga2D
  const COMPONENT_MASK_2D: nat := 2

  /** `hostMem` is a vector that the transfers write in place. */
  datatype Info2D = Info2D(width: u32, height: u32, hostMem: Option<array<u8>>, scanoutStride: Option<u32>)

  datatype Info3D = Info3D(width: u32, height: u32, drmFourcc: u32, strides: seq<u32>, offsets: seq<u32>, modifier: u64)

  datatype VulkanInfo = VulkanInfo(memoryIdx: u32, deviceId: nat)

  /** Operating system handles and mappings are named by numbers. */
  datatype Resource = Resource(
    resourceId: u32, handle: Option<nat>, blob: bool, blobMem: u32, blobFlags: u32, mapInfo: Option<u32>,
    info2D: Option<Info2D>, info3D: Option<Info3D>, vulkanInfo: Option<VulkanInfo>,
    backing: Option<seq<seq<u8>>>, componentMask: nat, size: nat, mapping: Option<nat>)

  datatype Transfer3D = Transfer3D(x: u32, y: u32, z: u32, w: u32, h: u32, d: u32, level: u32, stride: u32,
                                   layerStride: u32, offset: u64) {
    predicate IsEmpty() {
      w == 0 || h == 0 || d == 0
    }
  }

  /** Bytes of a line of a resource: an unchecked u32 product. */
  function Stride(width: u32): u32 {
    Wrap32(4 * width)
  }

  /** All the pixels, when their number of bytes fits u32. */
  predicate PixelsFit(width: u32, height: u32) {
    4 * width * height <= U32_MAX
  }

  /** Length of the host copy that a restore allocates: unchecked u32 products. */
  function RestoredSize(width: u32, height: u32): u32 {
    Wrap32(Wrap32(width * height) * 4)
  }

  /**
   What every resource keeps: the host copy is as long as a creation or a restore makes it, and only guest blobs, which
   have no size of their own, are without one.
   */
  predicate ResourceValid(r: Resource) {
    && (r.info2D.Some? && r.info2D.value.hostMem == None ==>
        r.blobMem == BLOB_MEM_GUEST && r.info2D.value.width == 0 && r.info2D.value.height == 0)
    && (r.info2D.Some? && r.info2D.value.hostMem.Some? ==>
        var info := r.info2D.value;
        && info.hostMem.value.Length <= ISIZE_MAX
        && info.hostMem.value.Length in {Stride(info.width) * info.height, RestoredSize(info.width, info.height)})
    && (r.backing.Some? ==> forall i :: 0 <= i < |r.backing.value| ==> |r.backing.value[i]| <= ISIZE_MAX)
  }

  function HostMem(r: Resource): Option<array<u8>> {
    if r.info2D.Some? then r.info2D.value.hostMem else None
  }

  lemma StrideFits(width: u32, height: u32)
    requires PixelsFit(width, height)
    ensures Stride(width) * height == 4 * width * height <= U32_MAX
    ensures height > 0 ==> Stride(width) == 4 * width
  {
    if height > 0 {
      assert 4 * width * 1 <= 4 * width * height;
    }
  }

  lemma Regroup(width: nat, height: nat, stride: nat, c: nat)
    requires 4 * width == c * 0x1_0000_0000 + stride
    ensures stride * height == 4 * (width * height) - c * height * 0x1_0000_0000
  {
    assert 4 * width * height == (c * 0x1_0000_0000 + stride) * height == c * height * 0x1_0000_0000 + stride * height;
  }

  lemma RestoredSizeFits(width: u32, height: u32)
    ensures PixelsFit(width, height) ==> RestoredSize(width, height) == 4 * width * height
  {
    if PixelsFit(width, height) {
      Regroup(width, height, 4 * width, 0);
    }
  }

  /** A host copy holds all the pixels when their number of bytes fits u32. */
  lemma HostHoldsPixels(r: Resource)
    requires ResourceValid(r) && HostMem(r).Some? && PixelsFit(r.info2D.value.width, r.info2D.value.height)
    ensures HostMem(r).value.Length == 4 * r.info2D.value.width * r.info2D.value.height
  {
    StrideFits(r.info2D.value.width, r.info2D.value.height);
    RestoredSizeFits(r.info2D.value.width, r.info2D.value.height);
  }

  method Create3D(resourceId: u32, width: u32, height: u32) returns (r: Resource)
    requires Stride(width) * height <= ISIZE_MAX
    ensures ResourceValid(r) && HostMem(r).Some? && fresh(HostMem(r).value)
    ensures HostMem(r).value.Length == Stride(width) * height
            && forall i :: 0 <= i < HostMem(r).value.Length ==> HostMem(r).value[i] == 0
    ensures r == Resource(resourceId, None, false, 0, 0, None, Some(Info2D(width, height, HostMem(r), None)), None,
            None,
                          None, COMPONENT_MASK_2D, Stride(width) * height, None)
  {
    var hostMem := new u8[Stride(width) * height](_ => 0);
    r := Resource(resourceId, None, false, 0, 0, None, Some(Info2D(width, height, Some(hostMem), None)), None, None,
                  None, COMPONENT_MASK_2D, Stride(width) * height, None);
  }

  function CreateBlob(resourceId: u32, blobMem: u32, blobFlags: u32, size: u64,
                      backing: Option<seq<seq<u8>>>): Result<Resource> {
    if blobMem != BLOB_MEM_GUEST then Failure(Unsupported)
    else Success(Resource(resourceId, None, true, blobMem, blobFlags, None, Some(Info2D(0, 0, None, None)), None, None,
                          backing, COMPONENT_MASK_2D, size, None))
  }

  /** The checks of a write that come before any byte moves; None means that the copy goes ahead. */
  function WriteRefused(r: Resource, t: Transfer3D, hasBuf: bool): Option<Outcome> {
    if t.IsEmpty() then Some(Ok)
    else if hasBuf then Some(Err(Unsupported))
    else if r.info2D == None then Some(Err(Invalid2DInfo))
    else if r.info2D.value.hostMem == None && r.blobMem == BLOB_MEM_GUEST then Some(Ok)
    else if r.backing == None then Some(Err(InvalidIovec))
    else None
  }

  /** The host copy and the outcome after a write. */
  function Written(r: Resource, t: Transfer3D, host: seq<u8>): (seq<u8>, Outcome)
    requires r.info2D.Some? && r.backing.Some?
  {
    var info := r.info2D.value;
    Transferred(info.width, info.height, t.x, t.y, t.w, t.h,
                RectOf(t.x, t.y, t.w, t.h, Stride(info.width), 0, Stride(info.width), t.offset),
                host, r.backing.value)
  }

  /** The outcome of a write depends on the sizes of the resource and its host copy, and on the backing. */
  lemma WrittenByLength(r: Resource, other: Resource, t: Transfer3D, host: seq<u8>, otherHost: seq<u8>)
    requires r.info2D.Some? && other.info2D.Some? && r.backing.Some? && r.backing == other.backing
             && |host| == |otherHost|
    requires r.info2D.value.width == other.info2D.value.width && r.info2D.value.height == other.info2D.value.height
    ensures Written(r, t, host).1 == Written(other, t, otherHost).1
  {
    var stride := Stride(r.info2D.value.width);
    var rect := RectOf(t.x, t.y, t.w, t.h, stride, 0, stride, t.offset);
    OutcomeByLength(rect, host, otherHost, Plan(rect, r.backing.value, 0, 0));
  }

  /** A write with these arguments reaches the copy: it is not empty, needs no buffer, and has both memories. */
  lemma WriteGoesAheadIff(r: Resource, t: Transfer3D, hasBuf: bool)
    requires ResourceValid(r)
    ensures WriteRefused(r, t, hasBuf) == None <==>
            t.w > 0 && t.h > 0 && t.d > 0 && !hasBuf && HostMem(r).Some? && r.backing.Some?
    // Empty transfers, and writes to a guest blob, succeed without doing anything.
    ensures WriteRefused(r, t, hasBuf) == Some(Ok) <==>
            (t.w > 0 && t.h > 0 && t.d > 0 ==> !hasBuf && r.info2D.Some? && HostMem(r) == None)
    ensures t.w > 0 && t.h > 0 && t.d > 0 ==>
              && (WriteRefused(r, t, hasBuf) == Some(Err(Unsupported)) <==> hasBuf)
              && (WriteRefused(r, t, hasBuf) == Some(Err(Invalid2DInfo)) <==> !hasBuf && r.info2D == None)
              && (WriteRefused(r, t, hasBuf) == Some(Err(InvalidIovec)) <==>
                 !hasBuf && HostMem(r).Some? && r.backing == None)
  {
  }

  method TransferWrite(r: Resource, t: Transfer3D, hasBuf: bool) returns (outcome: Outcome)
    requires ResourceValid(r)
    modifies if HostMem(r).Some? then {HostMem(r).value} else {}
    ensures WriteRefused(r, t, hasBuf).Some? ==>
              outcome == WriteRefused(r, t, hasBuf).value
                && (HostMem(r).Some? ==> HostMem(r).value[..] == old(HostMem(r).value[..]))
    ensures WriteRefused(r, t, hasBuf) == None ==>
              HostMem(r).Some? && (HostMem(r).value[..], outcome) == Written(r, t, old(HostMem(r).value[..]))
    // A write that is not empty succeeds only inside the resource, and changes only bytes of its rectangle.
    ensures outcome == Ok && HostMem(r).Some? && t.w > 0 && t.h > 0 && t.d > 0 ==>
              t.x + t.w <= r.info2D.value.width && t.y + t.h <= r.info2D.value.height
    ensures HostMem(r).Some? ==> forall i :: 0 <= i < HostMem(r).value.Length ==>
              HostMem(r).value[i] == old(HostMem(r).value[i]) || InRectangle(r.info2D.value.width, t, i)
    ensures HostMem(r).Some? && (t.x + t.w > r.info2D.value.width || t.y + t.h > r.info2D.value.height) ==>
              HostMem(r).value[..] == old(HostMem(r).value[..])
  {
    if t.IsEmpty() { return Ok; }
    if hasBuf { return Err(Unsupported); }
    if r.info2D == None { return Err(Invalid2DInfo); }
    var info := r.info2D.value;
    // For guest-only blobs there is no host copy to write.
    if info.hostMem == None && r.blobMem == BLOB_MEM_GUEST { return Ok; }
    if r.backing == None { return Err(InvalidIovec); }
    ghost var before := info.hostMem.value[..];
    outcome := Transfer2D.Transfer2D(info.width, info.height, t.x, t.y, t.w, t.h, Stride(info.width), 0,
                                     info.hostMem.value, Stride(info.width), t.offset, r.backing.value);
    hide Walk, RectOf, InRectangle;
    forall i | 0 <= i < |before| && Written(r, t, before).0[i] != before[i]
      ensures InRectangle(info.width, t, i)
    {
      WriteStaysInRectangle(r, t, before, i);
    }
  }

  /** The checks of a read that come before any byte moves. */
  function ReadRefused(r: Resource, hasBuf: bool): Option<Outcome> {
    if !hasBuf then Some(Err(WithContext))
    else if r.info2D == None then Some(Err(Invalid2DInfo))
    else if r.info2D.value.hostMem == None && r.info2D.value.scanoutStride == None then Some(Err(InvalidResourceId))
    else if r.info2D.value.hostMem == None && r.backing == None then Some(Err(InvalidIovec))
    else None
  }

  /** A read needs a buffer, and pixels in a host copy or in attached memory with a scanout stride. */
  lemma ReadGoesAheadIff(r: Resource, hasBuf: bool)
    ensures ReadRefused(r, hasBuf) == None <==>
            && hasBuf && r.info2D.Some?
            && (HostMem(r).Some? || (r.info2D.value.scanoutStride.Some? && r.backing.Some?))
    ensures ReadRefused(r, hasBuf) == Some(Err(WithContext)) <==> !hasBuf
    ensures ReadRefused(r, hasBuf) == Some(Err(Invalid2DInfo)) <==> hasBuf && r.info2D == None
    ensures ReadRefused(r, hasBuf) == Some(Err(InvalidResourceId)) <==>
            hasBuf && r.info2D.Some? && HostMem(r) == None && r.info2D.value.scanoutStride == None
    ensures ReadRefused(r, hasBuf) == Some(Err(InvalidIovec)) <==>
            && hasBuf && r.info2D.Some? && HostMem(r) == None && r.info2D.value.scanoutStride.Some? && r.backing == None
    ensures ReadRefused(r, hasBuf) != Some(Ok)
  {
  }

  /** The buffer and the outcome after a read; a resource without a host copy is read from its backing memory. */
  function ReadBack(r: Resource, t: Transfer3D, host: seq<u8>, buf: seq<u8>): (seq<u8>, Outcome)
    requires ReadRefused(r, true) == None
  {
    var info := r.info2D.value;
    if info.hostMem.Some? then
      Transferred(info.width, info.height, t.x, t.y, t.w, t.h,
                  RectOf(t.x, t.y, t.w, t.h, t.stride, 0, Stride(info.width), 0), buf, [host])
    else
      Transferred(t.w, t.h, t.x, t.y, t.w, t.h,
                  RectOf(t.x, t.y, t.w, t.h, t.stride, 0, info.scanoutStride.value, 0), buf, r.backing.value)
  }

  method TransferRead(r: Resource, t: Transfer3D, buf: Option<array<u8>>) returns (outcome: Outcome)
    requires ResourceValid(r)
    // The buffer is borrowed exclusively.
    requires buf.Some? ==> buf.value.Length <= ISIZE_MAX && HostMem(r) != buf
    modifies if buf.Some? then {buf.value} else {}
    ensures ReadRefused(r, buf.Some?).Some? ==>
              outcome == ReadRefused(r, buf.Some?).value && (buf.Some? ==> buf.value[..] == old(buf.value[..]))
    ensures ReadRefused(r, buf.Some?) == None ==>
              (buf.value[..], outcome) == ReadBack(r, t, if HostMem(r).Some? then HostMem(r).value[..]
                else [], old(buf.value[..]))
    // A rectangle outside the resource is refused; of a guest blob only the first pixels of its lines can be read.
    ensures outcome == Ok && t.w > 0 && t.h > 0 ==>
              if HostMem(r).Some? then t.x + t.w <= r.info2D.value.width && t.y + t.h <= r.info2D.value.height
              else t.x == 0 && t.y == 0
    ensures buf.Some? && outcome == Err(CheckedRange) ==> buf.value[..] == old(buf.value[..])
  {
    hide Walk, RectOf;
    if buf == None { return Err(WithContext); }
    if r.info2D == None { return Err(Invalid2DInfo); }
    var info := r.info2D.value;
    var width, height, srcSlices, srcStride;
    if info.hostMem == None {
      // A guest blob is given its stride by the scanout command.
      if info.scanoutStride == None { return Err(InvalidResourceId); }
      if r.backing == None { return Err(InvalidIovec); }
      width, height, srcSlices, srcStride := t.w, t.h, r.backing.value, info.scanoutStride.value;
    } else {
      width, height, srcSlices, srcStride := info.width, info.height, [info.hostMem.value[..]], Stride(info.width);
    }
    outcome := Transfer2D.Transfer2D(width, height, t.x, t.y, t.w, t.h, t.stride, 0, buf.value,
                                     srcStride, 0, srcSlices);
  }

  // ---------------------------------------------------------------------------
  // Pixels
  // ---------------------------------------------------------------------------

  /** The byte at column `c` of line `r` of the rectangle at (x, y), in memory with the given stride. */
  function At(stride: nat, x: nat, y: nat, r: nat, c: nat): nat {
    (y + r) * stride + 4 * x + c
  }

  /** A rectangle whose last byte lies below `limit` in memory with the given stride. */
  predicate Inside(stride: nat, x: nat, y: nat, w: nat, h: nat, limit: nat)
    requires h > 0
  {
    At(stride, x, y, h - 1, 4 * w) <= limit
  }

  lemma AtMonotone(stride: nat, x: nat, y: nat, r: nat, p: nat)
    requires r <= p
    ensures At(stride, x, y, r, 0) <= At(stride, x, y, p, 0)
    ensures At(stride, x, y, 0, 0) >= y * stride
  {
    assert (y + p) * stride == (y + r) * stride + (p - r) * stride;
  }

  /** No byte of a rectangle lies beyond its last one. */
  lemma AtBelow(stride: nat, x: nat, y: nat, w: nat, h: nat, p: nat, c: nat)
    requires p < h && c < 4 * w
    ensures At(stride, x, y, p, c) < At(stride, x, y, h - 1, 4 * w)
  {
    AtMonotone(stride, x, y, p, h - 1);
  }

  /** Where the lines of a rectangle start, when the two address sums do not wrap around. */
  lemma RectLines(x: u32, y: u32, w: u32, h: u32, dstStride: u32, srcStride: u32, srcOffset: u64, r: nat)
    requires srcOffset + At(srcStride, x, y, 0, 0) <= U64_MAX && At(dstStride, x, y, 0, 0) <= U64_MAX
    ensures
      var t := RectOf(x, y, w, h, dstStride, 0, srcStride, srcOffset);
      t.Lo(r) == srcOffset + At(srcStride, x, y, r, 0) && t.DstLo(r) == At(dstStride, x, y, r, 0)
  {
    RectAddresses(x, y, w, h, dstStride, 0, srcStride, srcOffset, r);
  }

  /** Where the lines of a rectangle start in the destination. */
  lemma DstLines(x: u32, y: u32, w: u32, h: u32, dstStride: u32, srcStride: u32, srcOffset: u64, r: nat)
    requires At(dstStride, x, y, 0, 0) <= U64_MAX
    ensures RectOf(x, y, w, h, dstStride, 0, srcStride, srcOffset).DstLo(r) == At(dstStride, x, y, r, 0)
  {
    RectAddresses(x, y, w, h, dstStride, 0, srcStride, srcOffset, r);
  }

  /** A destination with room for the last line has room for everything that there is to copy. */
  lemma RectHolds(x: u32, y: u32, w: u32, h: u32, dstStride: u32, srcStride: u32, srcOffset: u64, chunks: seq<seq<u8>>,
                  n: nat)
    requires w > 0 && h > 0 && n <= ISIZE_MAX
    requires Inside(srcStride, x, y, w, h, U64_MAX - srcOffset) && Inside(dstStride, x, y, w, h, n)
    ensures Holds(RectOf(x, y, w, h, dstStride, 0, srcStride, srcOffset), chunks, n)
  {
    var t := RectOf(x, y, w, h, dstStride, 0, srcStride, srcOffset);
    AtMonotone(srcStride, x, y, 0, h - 1);
    AtMonotone(dstStride, x, y, 0, h - 1);
    forall q, s | Wanted(t, chunks, 0, 0, q, s)
      ensures t.DstOf(q, s) < n
    {
      RectLines(x, y, w, h, dstStride, srcStride, srcOffset, q);
      AtMonotone(dstStride, x, y, q, h - 1);
    }
  }

  /** What the line-by-line copy puts at column `c` of line `r` of a rectangle with packed lines. */
  lemma RectCopiedAt(x: u32, y: u32, w: u32, h: u32, dstStride: u32, srcStride: u32, srcOffset: u64,
                     d: seq<u8>, flat: seq<u8>, r: nat, c: nat)
    requires 4 * w <= dstStride && r < h && c < 4 * w && |d| <= ISIZE_MAX
    requires Inside(srcStride, x, y, w, h, U64_MAX - srcOffset) && Inside(dstStride, x, y, w, h, |d|)
    ensures At(dstStride, x, y, r, c) < |d|
    ensures
      var t := RectOf(x, y, w, h, dstStride, 0, srcStride, srcOffset);
      CopyLines(t, flat, d, 0, 0)[At(dstStride, x, y, r, c)] ==
      if srcOffset + At(srcStride, x, y, r, c) < |flat| then flat[srcOffset + At(srcStride, x, y, r, c)]
        else d[At(dstStride, x, y, r, c)]
  {
    hide CopyLines;
    AtMonotone(srcStride, x, y, 0, h - 1);
    AtMonotone(dstStride, x, y, 0, h - 1);
    AtMonotone(dstStride, x, y, r, h - 1);
    RectLines(x, y, w, h, dstStride, srcStride, srcOffset, r);
    CopyLinesAt(RectOf(x, y, w, h, dstStride, 0, srcStride, srcOffset), flat, d, 0, 0, r, At(dstStride, x, y, r, c));
  }

  /** Byte `i` lies in no line of the rectangle. */
  predicate Outside(stride: nat, x: nat, y: nat, w: nat, h: nat, i: nat) {
    forall r :: 0 <= r < h ==> !(At(stride, x, y, r, 0) <= i < At(stride, x, y, r, 4 * w))
  }

  lemma RectCopiedElsewhere(x: u32, y: u32, w: u32, h: u32, dstStride: u32, srcStride: u32, srcOffset: u64,
                            d: seq<u8>, flat: seq<u8>, i: nat)
    requires h > 0 && i < |d| <= ISIZE_MAX && Inside(dstStride, x, y, w, h, |d|) && Outside(dstStride, x, y, w, h, i)
    ensures CopyLines(RectOf(x, y, w, h, dstStride, 0, srcStride, srcOffset), flat, d, 0, 0)[i] == d[i]
  {
    hide CopyLines;
    var t := RectOf(x, y, w, h, dstStride, 0, srcStride, srcOffset);
    AtMonotone(dstStride, x, y, 0, h - 1);
    forall p | 0 <= p < t.lines
      ensures !InDst(t, p, i)
    {
      DstLines(x, y, w, h, dstStride, srcStride, srcOffset, p);
      assert !(At(dstStride, x, y, p, 0) <= i < At(dstStride, x, y, p, 4 * w));
    }
    CopyLinesElsewhere(t, flat, d, 0, 0, i);
  }

  /**
   A copy of a rectangle with packed lines on both sides and room in the destination succeeds;
   every byte of the rectangle that the source reaches lands at its place, and nothing else changes.
   */
  lemma RectPixels(x: u32, y: u32, w: u32, h: u32, dstStride: u32, srcStride: u32, srcOffset: u64,
                   d: seq<u8>, chunks: seq<seq<u8>>)
    requires w > 0 && h > 0 && 4 * w <= srcStride && 4 * w <= dstStride
    requires forall i :: 0 <= i < |chunks| ==> chunks[i] != []
    requires Offset(chunks, |chunks|) <= U64_MAX && |d| <= ISIZE_MAX
    requires Inside(srcStride, x, y, w, h, U64_MAX - srcOffset) && Inside(dstStride, x, y, w, h, |d|)
    ensures
      var t := RectOf(x, y, w, h, dstStride, 0, srcStride, srcOffset);
      var (d', outcome) := Walk(t, d, chunks, 0, 0);
      && outcome == Ok
      && (forall r, c :: 0 <= r < h && 0 <= c < 4 * w ==>
            && At(dstStride, x, y, r, c) < |d|
            && d'[At(dstStride, x, y, r, c)] ==
               if srcOffset + At(srcStride, x, y, r, c) < |Flat(chunks)| then
                 Flat(chunks)[srcOffset + At(srcStride, x, y, r, c)]
               else d[At(dstStride, x, y, r, c)])
      && (forall i :: 0 <= i < |d| && Outside(dstStride, x, y, w, h, i) ==> d'[i] == d[i])
  {
    hide At, Inside, Outside;
    var t := RectOf(x, y, w, h, dstStride, 0, srcStride, srcOffset);
    RectSafe(x, y, w, h, dstStride, srcStride, srcOffset, chunks, |d|);
    RectHolds(x, y, w, h, dstStride, srcStride, srcOffset, chunks, |d|);
    hide Walk, CopyLines, RectOf, Flat, Offset, Safe, AddressesFit, Holds;
    OkIffHolds(t, chunks, d);
    OkIsCopyLines(t, chunks, d);
    var flat := Flat(chunks);
    forall r, c | 0 <= r < h && 0 <= c < 4 * w
      ensures At(dstStride, x, y, r, c) < |d|
      ensures CopyLines(t, flat, d, 0, 0)[At(dstStride, x, y, r, c)] ==
              if srcOffset + At(srcStride, x, y, r, c) < |flat| then flat[srcOffset + At(srcStride, x, y, r, c)]
                else d[At(dstStride, x, y, r, c)]
    {
      RectCopiedAt(x, y, w, h, dstStride, srcStride, srcOffset, d, flat, r, c);
    }
    forall i | 0 <= i < |d| && Outside(dstStride, x, y, w, h, i)
      ensures CopyLines(t, flat, d, 0, 0)[i] == d[i]
    {
      RectCopiedElsewhere(x, y, w, h, dstStride, srcStride, srcOffset, d, flat, i);
    }
  }

  lemma RectSafe(x: u32, y: u32, w: u32, h: u32, dstStride: u32, srcStride: u32, srcOffset: u64, chunks: seq<seq<u8>>,
                 n: nat)
    requires w > 0 && h > 0 && 4 * w <= srcStride && forall i :: 0 <= i < |chunks| ==> chunks[i] != []
    requires Offset(chunks, |chunks|) <= U64_MAX && Inside(srcStride, x, y, w, h, U64_MAX - srcOffset)
    requires n <= ISIZE_MAX && Inside(dstStride, x, y, w, h, n)
    ensures var t := RectOf(x, y, w, h, dstStride, 0, srcStride, srcOffset); Safe(t, chunks) && AddressesFit(t, chunks)
  {
    AtMonotone(srcStride, x, y, 0, h - 1);
    AtMonotone(dstStride, x, y, 0, h - 1);
    RectLines(x, y, w, h, dstStride, srcStride, srcOffset, h - 1);
    assert At(srcStride, x, y, h - 1, 4 * w) == At(srcStride, x, y, h - 1, 0) + 4 * w;
    RectShape(x, y, w, h, dstStride, srcStride, srcOffset);
    hide At, RectOf, Safe, Rect.Lo, Rect.DstLo;
    PackedIsSafe(RectOf(x, y, w, h, dstStride, 0, srcStride, srcOffset), chunks);
  }

  // ---------------------------------------------------------------------------
  // What a write may touch
  // ---------------------------------------------------------------------------

  /** Byte `i` of the host copy belongs to the rectangle of the transfer. */
  ghost predicate InRectangle(width: u32, t: Transfer3D, i: nat) {
    exists p, c :: 0 <= p < t.h && 0 <= c < 4 * t.w && i == At(Stride(width), t.x, t.y, p, c)
  }

  /** When a line of pixels fits u32, these are the bytes of its columns in its lines. */
  lemma RectanglePlaces(width: u32, t: Transfer3D, i: nat)
    requires width > 0 && 4 * width <= U32_MAX && t.x + t.w <= width
    ensures InRectangle(width, t, i) <==> t.y <= i / (4 * width) < t.y + t.h && t.x <= i % (4 * width) / 4 < t.x + t.w
  {
    var stride: nat := 4 * width;
    assert Stride(width) == stride;
    if InRectangle(width, t, i) {
      var p, c :| 0 <= p < t.h && 0 <= c < 4 * t.w && i == At(stride, t.x, t.y, p, c);
      DivisionOf(stride, t.y + p, 4 * t.x + c);
    }
    if t.y <= i / stride < t.y + t.h && t.x <= i % stride / 4 < t.x + t.w {
      var p, c := i / stride - t.y, i % stride - 4 * t.x;
      assert i == At(stride, t.x, t.y, p, c);
    }
  }

  lemma DivisionOf(stride: nat, line: nat, column: nat)
    requires column < stride
    ensures (line * stride + column) / stride == line && (line * stride + column) % stride == column
  {
    var i := line * stride + column;
    SameQuotient(stride, line, column, i / stride, i % stride);
  }

  lemma SameQuotient(stride: nat, q: nat, r: nat, q': nat, r': nat)
    requires r < stride && r' < stride && q * stride + r == q' * stride + r'
    ensures q == q' && r == r'
  {
    if q < q' {
      ProductAtMost(q + 1, q', stride, stride);
    } else if q' < q {
      ProductAtMost(q' + 1, q, stride, stride);
    }
  }

  /** No place in a host copy is beyond the addresses: the destination's sum never wraps around. */
  lemma OriginFits(width: u32, x: u32, y: u32)
    requires y < U32_MAX
    ensures At(Stride(width), x, y, 0, 0) <= U64_MAX
  {
    assert Stride(width) <= U32_MAX - 3;
    ProductAtMost(y, U32_MAX - 1, Stride(width), U32_MAX - 3);
  }

  lemma ProductAtMost(a: nat, b: nat, c: nat, d: nat)
    requires a <= b && c <= d
    ensures a * c <= b * d
  {
    assert a * c <= b * c <= b * d;
  }

  /**
   Whatever the sizes, the backing and the outcome are: a byte of the host copy that changes belongs to the rectangle,
   and the rectangle lies inside the resource.
   */
  lemma WriteStaysInRectangle(r: Resource, t: Transfer3D, host: seq<u8>, i: nat)
    requires r.info2D.Some? && r.backing.Some? && i < |host| && Written(r, t, host).0[i] != host[i]
    ensures t.x + t.w <= r.info2D.value.width && t.y + t.h <= r.info2D.value.height
    ensures InRectangle(r.info2D.value.width, t, i)
  {
    var stride := Stride(r.info2D.value.width);
    var rect := RectOf(t.x, t.y, t.w, t.h, stride, 0, stride, t.offset);
    WalkFrame(rect, host, r.backing.value, i);
    hide Walk, Rect.Lo, Rect.DstLo;
    var line :| 0 <= line < rect.lines && Receives(rect, Flat(r.backing.value), line, 0, i);
    OriginFits(r.info2D.value.width, t.x, t.y);
    DstLines(t.x, t.y, t.w, t.h, stride, stride, t.offset, line);
    assert i == At(stride, t.x, t.y, line, i - At(stride, t.x, t.y, line, 0));
  }

  // ---------------------------------------------------------------------------
  // Write, read, and write then read
  // ---------------------------------------------------------------------------

  /** A non-empty rectangle inside a resource that has a host copy of all its pixels. */
  predicate RectOk(r: Resource, t: Transfer3D, host: seq<u8>) {
    && r.info2D.Some? && r.info2D.value.hostMem.Some?
    && PixelsFit(r.info2D.value.width, r.info2D.value.height)
    && |host| == 4 * r.info2D.value.width * r.info2D.value.height
    && t.w > 0 && t.h > 0
    && t.x + t.w <= r.info2D.value.width && t.y + t.h <= r.info2D.value.height
  }

  /** Backing memory as the guest attaches it: no empty piece, and addresses that fit. */
  predicate BackingOk(r: Resource, t: Transfer3D, host: seq<u8>) {
    && r.backing.Some? && (forall i :: 0 <= i < |r.backing.value| ==> r.backing.value[i] != [])
    && Offset(r.backing.value, |r.backing.value|) <= U64_MAX && t.offset + |host| <= U64_MAX
  }

  /** The range checks put the rectangle inside the host copy, whatever its position. */
  lemma RectInside(r: Resource, t: Transfer3D, host: seq<u8>)
    requires RectOk(r, t, host)
    ensures Stride(r.info2D.value.width) == 4 * r.info2D.value.width
    ensures Inside(4 * r.info2D.value.width, t.x, t.y, t.w, t.h, |host|) && 0 < |host| <= U32_MAX
  {
    var width, height := r.info2D.value.width, r.info2D.value.height;
    StrideFits(width, height);
    LastLine(4 * width, t.y + t.h, height);
    assert height * (4 * width) == 4 * width * height;
  }

  lemma LastLine(stride: nat, lines: nat, height: nat)
    requires 0 < lines <= height && stride > 0
    ensures (lines - 1) * stride + stride <= height * stride && height * stride > 0
  {
    assert height * stride == (lines - 1) * stride + stride + (height - lines) * stride;
  }

  /**
   Once the range checks have passed, a write never leaves the host copy, whatever the backing memory looks like: it
   succeeds, or a source address overflows.
   */
  lemma WriteInBounds(r: Resource, t: Transfer3D, host: seq<u8>)
    requires RectOk(r, t, host) && r.backing.Some?
    ensures Written(r, t, host).1 in {Ok, Err(CheckedArithmetic)}
  {
    var stride := Stride(r.info2D.value.width);
    RectInside(r, t, host);
    var rect := RectOf(t.x, t.y, t.w, t.h, stride, 0, stride, t.offset);
    AtMonotone(stride, t.x, t.y, 0, t.h - 1);
    hide Walk, RectOf, Rect.DstLo;
    forall line | 0 <= line < t.h
      ensures rect.DstLo(line) + 4 * t.w <= |host|
    {
      DstLines(t.x, t.y, t.w, t.h, stride, stride, t.offset, line);
      AtMonotone(stride, t.x, t.y, line, t.h - 1);
    }
    assert rect.lines == t.h && rect.lineLen == t.w * 4 by { RectShape(t.x, t.y, t.w, t.h, stride, stride, t.offset); }
    LinesInBounds(rect, r.backing.value, host);
  }

  lemma RectShape(x: u32, y: u32, w: u32, h: u32, dstStride: u32, srcStride: u32, srcOffset: u64)
    ensures RectOf(x, y, w, h, dstStride, 0, srcStride, srcOffset).lines == h
    ensures RectOf(x, y, w, h, dstStride, 0, srcStride, srcOffset).lineLen == w * 4
    ensures RectOf(x, y, w, h, dstStride, 0, srcStride, srcOffset).srcStride == srcStride
  {
  }

  /**
   After a write, each byte of the rectangle is the backing byte at the same image position, as far as the backing
   reaches.
   */
  lemma WriteStores(r: Resource, t: Transfer3D, host: seq<u8>)
    requires RectOk(r, t, host) && BackingOk(r, t, host)
    ensures
      var (host', outcome) := Written(r, t, host);
      var flat, stride := Flat(r.backing.value), 4 * r.info2D.value.width;
      && outcome == Ok && |host'| == |host|
      && (forall p, c :: 0 <= p < t.h && 0 <= c < 4 * t.w ==>
            var i := At(stride, t.x, t.y, p, c);
            i < |host| && host'[i] == if t.offset + i < |flat| then flat[t.offset + i] else host[i])
      && (forall i :: 0 <= i < |host| && Outside(stride, t.x, t.y, t.w, t.h, i) ==>
            host'[i] == host[i])
  {
    RectInside(r, t, host);
    hide At;
    RectPixels(t.x, t.y, t.w, t.h, Stride(r.info2D.value.width), Stride(r.info2D.value.width), t.offset, host,
      r.backing.value);
  }

  lemma FlatOfOne(host: seq<u8>)
    ensures Flat([host]) == host && Offset([host], 1) == |host|
  {
    assert Offset([host], 1) == |host|;
  }

  /** After a read, each byte of the rectangle is the host byte at the same image position, at the caller's stride. */
  lemma ReadStores(r: Resource, t: Transfer3D, host: seq<u8>, buf: seq<u8>)
    requires RectOk(r, t, host) && 4 * t.w <= t.stride && Inside(t.stride, t.x, t.y, t.w, t.h, |buf|)
             && |buf| <= ISIZE_MAX
    ensures
      var (buf', outcome) := ReadBack(r, t, host, buf);
      && outcome == Ok && |buf'| == |buf|
      && (forall p, c :: 0 <= p < t.h && 0 <= c < 4 * t.w ==>
            && At(t.stride, t.x, t.y, p, c) < |buf| && At(4 * r.info2D.value.width, t.x, t.y, p, c) < |host|
            && buf'[At(t.stride, t.x, t.y, p, c)] == host[At(4 * r.info2D.value.width, t.x, t.y, p, c)])
      && (forall i :: 0 <= i < |buf| && Outside(t.stride, t.x, t.y, t.w, t.h, i) ==> buf'[i] == buf[i])
  {
    var width := r.info2D.value.width;
    RectInside(r, t, host);
    FlatOfOne(host);
    forall p, c | 0 <= p < t.h && 0 <= c < 4 * t.w
      ensures At(4 * width, t.x, t.y, p, c) < |host|
    {
      AtBelow(4 * width, t.x, t.y, t.w, t.h, p, c);
    }
    hide At, Outside, Flat, Offset, PixelsFit, RectOf;
    RectPixels(t.x, t.y, t.w, t.h, t.stride, Stride(width), 0, buf, [host]);
  }

  /**
   A guest blob is read straight from its backing, whose lines lie a scanout stride apart: line by line into the buffer
   at the caller's stride, as far as the backing reaches.
   */
  lemma BlobReadStores(r: Resource, t: Transfer3D, buf: seq<u8>)
    requires r.info2D.Some? && HostMem(r) == None && r.info2D.value.scanoutStride.Some? && r.backing.Some?
    requires forall i :: 0 <= i < |r.backing.value| ==> r.backing.value[i] != []
    requires Offset(r.backing.value, |r.backing.value|) <= U64_MAX && |buf| <= ISIZE_MAX
    requires t.w > 0 && t.h > 0 && t.x == 0 && t.y == 0
    requires 4 * t.w <= r.info2D.value.scanoutStride.value && 4 * t.w <= t.stride
    requires (t.h - 1) * t.stride + 4 * t.w <= |buf|
    ensures
      var (buf', outcome) := ReadBack(r, t, [], buf);
      var flat, s := Flat(r.backing.value), r.info2D.value.scanoutStride.value;
      && outcome == Ok && |buf'| == |buf|
      && (forall p, c :: 0 <= p < t.h && 0 <= c < 4 * t.w ==>
            && At(t.stride, 0, 0, p, c) == p * t.stride + c < |buf| && At(s, 0, 0, p, c) == p * s + c
            && buf'[At(t.stride, 0, 0, p, c)] ==
               if At(s, 0, 0, p, c) < |flat| then flat[At(s, 0, 0, p, c)] else buf[At(t.stride, 0, 0, p, c)])
      && (forall i :: 0 <= i < |buf| && Outside(t.stride, 0, 0, t.w, t.h, i) ==> buf'[i] == buf[i])
  {
    var s := r.info2D.value.scanoutStride.value;
    ProductAtMost(t.h - 1, U32_MAX - 1, s, U32_MAX);
    assert Inside(s, 0, 0, t.w, t.h, U64_MAX) && Inside(t.stride, 0, 0, t.w, t.h, |buf|);
    forall p: nat, c: nat
      ensures At(t.stride, 0, 0, p, c) == p * t.stride + c && At(s, 0, 0, p, c) == p * s + c
    {
    }
    hide Walk, RectOf, Outside, Flat, Offset, At, Inside;
    RectPixels(0, 0, t.w, t.h, t.stride, s, 0, buf, r.backing.value);
  }

  /** Any other part of a guest blob is out of range. */
  lemma BlobReadRefused(r: Resource, t: Transfer3D, buf: seq<u8>)
    requires r.info2D.Some? && HostMem(r) == None && r.info2D.value.scanoutStride.Some? && r.backing.Some?
    requires t.w > 0 && t.h > 0 && (t.x > 0 || t.y > 0)
    ensures ReadBack(r, t, [], buf) ==
            (buf, Err(if t.x + t.w > U32_MAX || (t.x == 0 && t.y + t.h > U32_MAX) then CheckedArithmetic
              else CheckedRange))
  {
  }

  /**
   Writing a rectangle and reading it back gives the caller the pixels of the backing memory,
   at the caller's own stride, and leaves the rest of the buffer alone.
   */
  lemma WriteThenRead(r: Resource, t: Transfer3D, stride: u32, host: seq<u8>, buf: seq<u8>)
    requires RectOk(r, t, host) && BackingOk(r, t, host)
    requires t.offset + At(4 * r.info2D.value.width, t.x, t.y, t.h - 1, 4 * t.w) <= |Flat(r.backing.value)|
    requires 4 * t.w <= stride && Inside(stride, t.x, t.y, t.w, t.h, |buf|) && |buf| <= ISIZE_MAX
    ensures
      var (host', written) := Written(r, t, host);
      var (buf', read) := ReadBack(r, t.(stride := stride), host', buf);
      var flat := Flat(r.backing.value);
      && written == Ok && read == Ok && |buf'| == |buf|
      && (forall p, c :: 0 <= p < t.h && 0 <= c < 4 * t.w ==>
            && At(stride, t.x, t.y, p, c) < |buf|
            && t.offset + At(4 * r.info2D.value.width, t.x, t.y, p, c) < |flat|
            && buf'[At(stride, t.x, t.y, p, c)] == flat[t.offset + At(4 * r.info2D.value.width, t.x, t.y, p, c)])
      && (forall i :: 0 <= i < |buf| && Outside(stride, t.x, t.y, t.w, t.h, i) ==>
            buf'[i] == buf[i])
  {
    var width: nat := r.info2D.value.width;
    hide Flat, Offset, At, Outside, Written, ReadBack, Inside, PixelsFit;
    WriteStores(r, t, host);
    ReadStores(r, t.(stride := stride), Written(r, t, host).0, buf);
    forall p, c | 0 <= p < t.h && 0 <= c < 4 * t.w
      ensures t.offset + At(4 * width, t.x, t.y, p, c) < |Flat(r.backing.value)|
    {
      AtBelow(4 * width, t.x, t.y, t.w, t.h, p, c);
    }
  }
}
