/** Pixel formats and the canonical layout of an image in memory. */
module CanonicalLayout {
  import opened Machine

  type Fourcc = f: seq<u8> | |f| == 4 witness [0, 0, 0, 0]

  const R8: Fourcc := [82, 56, 32, 32]              // R8
  const RGB565: Fourcc := [82, 71, 49, 54]          // RG16
  const BGR888: Fourcc := [66, 71, 50, 52]          // BG24
  const XRGB8888: Fourcc := [88, 82, 50, 52]        // XR24
  const XBGR8888: Fourcc := [88, 66, 50, 52]        // XB24
  const ARGB8888: Fourcc := [65, 82, 50, 52]        // AR24
  const ABGR8888: Fourcc := [65, 66, 50, 52]        // AB24
  const XRGB2101010: Fourcc := [88, 82, 51, 48]     // XR30
  const XBGR2101010: Fourcc := [88, 66, 51, 48]     // XB30
  const ARGB2101010: Fourcc := [65, 82, 51, 48]     // AR30
  const ABGR2101010: Fourcc := [65, 66, 51, 48]     // AB30
  const ABGR16161616F: Fourcc := [65, 66, 52, 72]   // AB4H
  const NV12: Fourcc := [78, 86, 49, 50]            // NV12
  const YVU420: Fourcc := [89, 86, 49, 50]          // YV12

  /** The format identifier of four bytes, the first one lowest. */
  function FormatOf(a: u8, b: u8, c: u8, d: u8): u32 {
    a as int + 0x100 * b as int + 0x1_0000 * c as int + 0x100_0000 * d as int
  }

  function ToBytes(format: u32): Fourcc {
    [(format % 0x100) as u8, (format / 0x100 % 0x100) as u8, (format / 0x1_0000 % 0x100) as u8,
      (format / 0x100_0000 % 0x100) as u8]
  }

  /** Format identifiers and four-byte codes correspond one to one. */
  lemma FourccRoundTrip(format: u32, a: u8, b: u8, c: u8, d: u8)
    ensures ToBytes(FormatOf(a, b, c, d)) == [a, b, c, d]
    ensures var bytes := ToBytes(format); FormatOf(bytes[0], bytes[1], bytes[2], bytes[3]) == format
  {
    var f := FormatOf(a, b, c, d);
    assert f / 0x100 == b as int + 0x100 * c as int + 0x1_0000 * d as int;
    assert f / 0x1_0000 == c as int + 0x100 * d as int;
    assert f / 0x100_0000 == d as int;
    assert format / 0x1_0000 == format / 0x100 / 0x100 && format / 0x100_0000 == format / 0x100 / 0x100 / 0x100;
  }

  /** Subsampling and pixel size of each of three planes, of which the first `numPlanes` are used. */
  datatype PlanarLayout = PlanarLayout(numPlanes: nat, horizontal: seq<u32>, vertical: seq<u32>,
                                       bytesPerPixel: seq<u32>)

  function Packed(bytes: u32): PlanarLayout {
    PlanarLayout(1, [1, 0, 0], [1, 0, 0], [bytes, 0, 0])
  }

  const BIPLANAR_YUV420 := PlanarLayout(2, [1, 2, 0], [1, 2, 0], [1, 2, 0])
  const TRIPLANAR_YUV420 := PlanarLayout(3, [1, 2, 2], [1, 2, 2], [1, 1, 1])

  function LayoutOf(format: u32): Result<PlanarLayout> {
    var bytes := ToBytes(format);
    if bytes == R8 then Success(Packed(1))
    else if bytes == RGB565 then Success(Packed(2))
    else if bytes == BGR888 then Success(Packed(3))
    else if bytes in {ABGR2101010, ABGR8888, XBGR2101010, XBGR8888, ARGB2101010, ARGB8888, XRGB2101010, XRGB8888} then
      Success(Packed(4))
    else if bytes == ABGR16161616F then Success(Packed(8))
    else if bytes == NV12 then Success(BIPLANAR_YUV420)
    else if bytes == YVU420 then Success(TRIPLANAR_YUV420)
    else Failure(InvalidGrallocDrmFormat)
  }

  /** The layouts that formats have. */
  predicate Known(layout: PlanarLayout) {
    layout in {Packed(1), Packed(2), Packed(3), Packed(4), Packed(8), BIPLANAR_YUV420, TRIPLANAR_YUV420}
  }

  /** Every format that has a layout has one of the known ones. */
  lemma LayoutsKnown(format: u32)
    ensures LayoutOf(format).Success? ==> Known(LayoutOf(format).value)
  {
  }

  datatype ImageInfo = ImageInfo(width: u32, height: u32, format: u32, flags: u32)

  datatype ImageRequirements = ImageRequirements(info: ImageInfo, mapInfo: u32, strides: seq<u32>, offsets: seq<u32>,
                                                 modifier: u64, size: u64)

  // ---------------------------------------------------------------------------
  // Exact sizes
  // ---------------------------------------------------------------------------

  function PlaneStride(layout: PlanarLayout, width: nat, plane: nat): nat
    requires Known(layout) && plane < layout.numPlanes
  {
    layout.bytesPerPixel[plane] * (width / layout.horizontal[plane])
  }

  function PlaneHeight(layout: PlanarLayout, height: nat, plane: nat): nat
    requires Known(layout) && plane < layout.numPlanes
  {
    height / layout.vertical[plane]
  }

  function PlaneSize(layout: PlanarLayout, width: nat, height: nat, plane: nat): nat
    requires Known(layout) && plane < layout.numPlanes
  {
    PlaneHeight(layout, height, plane) * PlaneStride(layout, width, plane)
  }

  /** Bytes of the first `planes` planes. */
  function Total(layout: PlanarLayout, width: nat, height: nat, planes: nat): nat
    requires Known(layout) && planes <= layout.numPlanes
  {
    if planes == 0 then 0 else Total(layout, width, height, planes - 1) + PlaneSize(layout, width, height, planes - 1)
  }

  predicate StridesFit(layout: PlanarLayout, width: nat)
    requires Known(layout)
  {
    forall p :: 0 <= p < layout.numPlanes ==> PlaneStride(layout, width, p) <= U32_MAX
  }

  lemma {:induction false} TotalMonotone(layout: PlanarLayout, width: nat, height: nat, i: nat, j: nat)
    requires Known(layout) && i <= j <= layout.numPlanes
    ensures Total(layout, width, height, i) <= Total(layout, width, height, j)
  {
    if i < j {
      TotalMonotone(layout, width, height, i, j - 1);
    }
  }

  // ---------------------------------------------------------------------------
  // The computation
  // ---------------------------------------------------------------------------

  function CheckedDiv(a: u32, b: u32): Result<u32> {
    if b == 0 then Failure(CheckedArithmetic) else Success(a / b)
  }

  function CheckedMul(a: u32, b: u32): Result<u32> {
    if a * b > U32_MAX then Failure(CheckedArithmetic) else Success(a * b)
  }

  function CheckedAdd(a: u32, b: u32): Result<u32> {
    if a + b > U32_MAX then Failure(CheckedArithmetic) else Success(a + b)
  }

  function StrideFromLayout(layout: PlanarLayout, width: u32, plane: nat): Result<u32>
    requires plane < |layout.bytesPerPixel| == |layout.horizontal|
  {
    match CheckedDiv(width, layout.horizontal[plane])
    case Failure(e) => Failure(e)
    case Success(subsampled) => CheckedMul(layout.bytesPerPixel[plane], subsampled)
  }

  /** The requirements of an image whose layout is known: the planes one after the other. */
  predicate Describes(r: ImageRequirements, layout: PlanarLayout, info: ImageInfo)
    requires Known(layout)
  {
    && r.info == info && r.mapInfo == 0 && r.modifier == 0
    && |r.strides| == 4 && |r.offsets| == 4
    && (forall p :: 0 <= p < layout.numPlanes ==>
          && r.strides[p] == PlaneStride(layout, info.width, p)
          && r.offsets[p] == Total(layout, info.width, info.height, p))
    && (forall p :: layout.numPlanes <= p < 4 ==> r.strides[p] == 0 && r.offsets[p] == 0)
    && r.size == Total(layout, info.width, info.height, layout.numPlanes)
  }

  /** When a layout can be computed: a known format whose strides and total size fit u32. */
  predicate Computable(info: ImageInfo) {
    && LayoutOf(info.format).Success?
    && Known(LayoutOf(info.format).value)
    && StridesFit(LayoutOf(info.format).value, info.width)
    && Total(LayoutOf(info.format).value, info.width, info.height, LayoutOf(info.format).value.numPlanes) <= U32_MAX
  }

  lemma ExactPlane(layout: PlanarLayout, width: u32, height: u32, plane: nat)
    requires Known(layout) && plane < layout.numPlanes
    ensures layout.horizontal[plane] > 0 && layout.vertical[plane] > 0
    ensures StrideFromLayout(layout, width, plane) ==
            if PlaneStride(layout, width, plane) > U32_MAX then Failure(CheckedArithmetic)
              else Success(PlaneStride(layout, width, plane))
    ensures CheckedDiv(height, layout.vertical[plane]) == Success(PlaneHeight(layout, height, plane))
    ensures PlaneStride(layout, width, plane) <= U32_MAX ==>
              CheckedMul(PlaneHeight(layout, height, plane), PlaneStride(layout, width, plane)) ==
              if PlaneSize(layout, width, height, plane) > U32_MAX then Failure(CheckedArithmetic)
                else Success(PlaneSize(layout, width, height, plane))
    ensures Total(layout, width, height, plane + 1) ==
            Total(layout, width, height, plane) + PlaneSize(layout, width, height, plane)
    ensures Total(layout, width, height, plane + 1) <= Total(layout, width, height, layout.numPlanes)
  {
    TotalMonotone(layout, width, height, plane + 1, layout.numPlanes);
  }

  /** Stride and end of the plane that starts at `size`. */
  method AddPlane(layout: PlanarLayout, width: u32, height: u32, plane: nat, size: u32) returns (r: Result<(u32, u32)>)
    requires Known(layout) && plane < layout.numPlanes && size == Total(layout, width, height, plane)
    ensures r.Success? ==>
            r.value.0 == PlaneStride(layout, width, plane) && r.value.1 == Total(layout, width, height, plane + 1)
    ensures r.Failure? ==>
              && r.error == CheckedArithmetic
              && (PlaneStride(layout, width, plane) > U32_MAX
                 || Total(layout, width, height, layout.numPlanes) > U32_MAX)
  {
    ExactPlane(layout, width, height, plane);
    hide Total, PlaneSize, PlaneStride, PlaneHeight, StrideFromLayout, CheckedDiv, CheckedMul, Known;
    var planeStride := StrideFromLayout(layout, width, plane);
    if planeStride.Failure? { return Failure(planeStride.error); }
    var subsampledHeight := CheckedDiv(height, layout.vertical[plane]);
    // No plane in use has a vertical subsampling of zero.
    if subsampledHeight.Failure? { assert false; }
    var planeSize := CheckedMul(subsampledHeight.value, planeStride.value);
    if planeSize.Failure? { return Failure(planeSize.error); }
    var sum := CheckedAdd(size, planeSize.value);
    if sum.Failure? { return Failure(sum.error); }
    r := Success((planeStride.value, sum.value));
  }

  // ---------------------------------------------------------------------------
  // The answer by format
  // ---------------------------------------------------------------------------

  /** The bytes of a pixel of a packed format, by its code; zero for any other code. */
  function PixelBytes(format: u32): nat {
    if format == 0x2020_3852 then 1        // R8
    else if format == 0x3631_4752 then 2   // RG16
    else if format == 0x3432_4742 then 3   // BG24
    // AB30, AB24, XB30, XB24, AR30, AR24, XR30 and XR24
    else if format in {0x3033_4241, 0x3432_4241, 0x3033_4258, 0x3432_4258,
                       0x3033_5241, 0x3432_5241, 0x3033_5258, 0x3432_5258} then 4
    else if format == 0x4834_4241 then 8   // AB4H
    else 0
  }

  const CODE_NV12: u32 := 0x3231_564E
  const CODE_YV12: u32 := 0x3231_5659

  /** The requirements that a caller gets, if they all fit: strides, offsets and size. */
  predicate Answers(info: ImageInfo, r: Result<ImageRequirements>, fits: bool, strides: seq<nat>, offsets: seq<nat>,
                    size: nat) {
    && (r.Success? <==> fits)
    && (r.Failure? ==> r.error == CheckedArithmetic)
    && (r.Success? ==>
          && r.value.info == info && r.value.mapInfo == 0 && r.value.modifier == 0 && r.value.size == size
          && r.value.strides == strides && r.value.offsets == offsets)
  }

  /** What is answered for each format, in numbers: one plane, a plane and one of pairs, or three planes. */
  predicate AnswersByFormat(info: ImageInfo, r: Result<ImageRequirements>) {
    var w: nat, h: nat, b := info.width, info.height, PixelBytes(info.format);
    var luma: nat, chroma: nat := w * h, (w / 2) * (h / 2);
    if info.format == CODE_NV12 then
      Answers(info, r, luma + 2 * chroma <= U32_MAX, [w, 2 * (w / 2), 0, 0], [0, luma, 0, 0], luma + 2 * chroma)
    else if info.format == CODE_YV12 then
      Answers(info, r, luma + 2 * chroma <= U32_MAX, [w, w / 2, w / 2, 0], [0, luma, luma + chroma, 0],
        luma + 2 * chroma)
    else if b > 0 then
      Answers(info, r, b * w <= U32_MAX && b * luma <= U32_MAX, [b * w, 0, 0, 0], [0, 0, 0, 0], b * luma)
    else
      r == Failure(InvalidGrallocDrmFormat)
  }

  lemma CodeIff(format: u32, bytes: Fourcc, code: u32)
    requires FormatOf(bytes[0], bytes[1], bytes[2], bytes[3]) == code
    ensures ToBytes(format) == bytes <==> format == code
  {
    FourccRoundTrip(format, bytes[0], bytes[1], bytes[2], bytes[3]);
    hide FormatOf, ToBytes;
  }

  /** The table of layouts, by code. */
  lemma LayoutByCode(format: u32)
    ensures
      LayoutOf(format) ==
      if format == CODE_NV12 then Success(BIPLANAR_YUV420)
      else if format == CODE_YV12 then Success(TRIPLANAR_YUV420)
      else if PixelBytes(format) > 0 then Success(Packed(PixelBytes(format)))
      else Failure(InvalidGrallocDrmFormat)
  {
    CodeIff(format, R8, 0x2020_3852);
    CodeIff(format, RGB565, 0x3631_4752);
    CodeIff(format, BGR888, 0x3432_4742);
    CodeIff(format, ABGR2101010, 0x3033_4241);
    CodeIff(format, ABGR8888, 0x3432_4241);
    CodeIff(format, XBGR2101010, 0x3033_4258);
    CodeIff(format, XBGR8888, 0x3432_4258);
    CodeIff(format, ARGB2101010, 0x3033_5241);
    CodeIff(format, ARGB8888, 0x3432_5241);
    CodeIff(format, XRGB2101010, 0x3033_5258);
    CodeIff(format, XRGB8888, 0x3432_5258);
    CodeIff(format, ABGR16161616F, 0x4834_4241);
    CodeIff(format, NV12, CODE_NV12);
    CodeIff(format, YVU420, CODE_YV12);
    hide ToBytes;
  }

  lemma PackedNumbers(b: u32, w: u32, h: u32)
    requires Known(Packed(b))
    ensures PlaneStride(Packed(b), w, 0) == b * w
    ensures Total(Packed(b), w, h, 0) == 0 && Total(Packed(b), w, h, 1) == b * (w * h)
  {
    var size := PlaneSize(Packed(b), w, h, 0);
    assert Total(Packed(b), w, h, 1) == Total(Packed(b), w, h, 0) + size;
    assert size == h * (b * w) == b * (w * h);
  }

  lemma BiplanarNumbers(w: u32, h: u32)
    ensures
      var bi := BIPLANAR_YUV420;
      && PlaneStride(bi, w, 0) == w && PlaneStride(bi, w, 1) == 2 * (w / 2)
      && Total(bi, w, h, 0) == 0 && Total(bi, w, h, 1) == w * h && Total(bi, w, h, 2) == w * h + 2 * ((w / 2) * (h / 2))
  {
    var bi := BIPLANAR_YUV420;
    assert PlaneSize(bi, w, h, 0) == h * w && PlaneSize(bi, w, h, 1) == (h / 2) * (2 * (w / 2));
    assert Total(bi, w, h, 1) == Total(bi, w, h, 0) + PlaneSize(bi, w, h, 0);
    assert Total(bi, w, h, 2) == Total(bi, w, h, 1) + PlaneSize(bi, w, h, 1);
  }

  lemma TriplanarNumbers(w: u32, h: u32)
    ensures
      var tri := TRIPLANAR_YUV420;
      && PlaneStride(tri, w, 0) == w && PlaneStride(tri, w, 1) == PlaneStride(tri, w, 2) == w / 2
      && Total(tri, w, h, 0) == 0 && Total(tri, w, h, 1) == w * h
      && Total(tri, w, h, 2) == w * h + (w / 2) * (h / 2) && Total(tri, w, h, 3) == w * h + 2 * ((w / 2) * (h / 2))
  {
    var tri := TRIPLANAR_YUV420;
    assert PlaneSize(tri, w, h, 0) == h * w && PlaneSize(tri, w, h, 1) == PlaneSize(tri, w, h, 2) == (h / 2) * (w / 2);
    assert Total(tri, w, h, 1) == Total(tri, w, h, 0) + PlaneSize(tri, w, h, 0);
    assert Total(tri, w, h, 2) == Total(tri, w, h, 1) + PlaneSize(tri, w, h, 1);
    assert Total(tri, w, h, 3) == Total(tri, w, h, 2) + PlaneSize(tri, w, h, 2);
  }

  /** What the computation over layouts comes to, format by format. */
  lemma ResultByFormat(info: ImageInfo, r: Result<ImageRequirements>)
    requires r.Success? <==> Computable(info)
    requires r.Success? ==> Describes(r.value, LayoutOf(info.format).value, info)
    requires r.Failure? ==> r.error == if LayoutOf(info.format).Success? then CheckedArithmetic
             else InvalidGrallocDrmFormat
    ensures AnswersByFormat(info, r)
  {
    LayoutByCode(info.format);
    hide LayoutOf, PixelBytes, Total, PlaneStride;
    if info.format == CODE_NV12 {
      BiplanarNumbers(info.width, info.height);
    } else if info.format == CODE_YV12 {
      TriplanarNumbers(info.width, info.height);
    } else if PixelBytes(info.format) > 0 {
      PixelBytesKnown(info.format);
      PackedNumbers(PixelBytes(info.format), info.width, info.height);
    }
  }

  lemma PixelBytesKnown(format: u32)
    requires PixelBytes(format) > 0
    ensures Known(Packed(PixelBytes(format)))
  {
  }

  method CanonicalImageRequirements(info: ImageInfo) returns (r: Result<ImageRequirements>)
    ensures r.Success? <==> Computable(info)
    ensures r.Success? ==> Describes(r.value, LayoutOf(info.format).value, info)
    ensures r.Failure? ==> r.error == if LayoutOf(info.format).Success? then CheckedArithmetic
            else InvalidGrallocDrmFormat
    ensures AnswersByFormat(info, r)
  {
    hide AnswersByFormat;
    var strides: seq<u32>, offsets: seq<u32> := [0, 0, 0, 0], [0, 0, 0, 0];
    var size: u32 := 0;
    if LayoutOf(info.format).Failure? {
      r := Failure(LayoutOf(info.format).error);
      ResultByFormat(info, r);
      return;
    }
    LayoutsKnown(info.format);
    var layout := LayoutOf(info.format).value;
    assert layout.numPlanes <= 3;
    hide LayoutOf, Total, PlaneStride, Known;
    for plane := 0 to layout.numPlanes
      invariant |strides| == 4 && |offsets| == 4 && size == Total(layout, info.width, info.height, plane)
      invariant forall p :: 0 <= p < plane ==>
                  strides[p] == PlaneStride(layout, info.width, p)
                    && offsets[p] == Total(layout, info.width, info.height, p)
      invariant forall p :: plane <= p < 4 ==> strides[p] == 0 && offsets[p] == 0
    {
      var added := AddPlane(layout, info.width, info.height, plane, size);
      if added.Failure? {
        r := Failure(added.error);
        ResultByFormat(info, r);
        return;
      }
      strides := strides[plane := added.value.0];
      if plane > 0 {
        offsets := offsets[plane := size];
      }
      size := added.value.1;
    }
    r := Success(ImageRequirements(info, 0, strides, offsets, 0, size));
    ResultByFormat(info, r);
  }

  // ---------------------------------------------------------------------------
  // What a layout promises
  // ---------------------------------------------------------------------------

  /** Byte `x` of the image belongs to `plane`. */
  predicate InPlane(r: ImageRequirements, layout: PlanarLayout, plane: nat, x: nat)
    requires Known(layout) && Describes(r, layout, r.info) && plane < layout.numPlanes
  {
    r.offsets[plane] <= x < r.offsets[plane] + PlaneSize(layout, r.info.width, r.info.height, plane)
  }

  lemma {:induction false} FindPlane(layout: PlanarLayout, width: nat, height: nat, planes: nat, x: nat)
    returns (plane: nat)
    requires Known(layout) && planes <= layout.numPlanes && x < Total(layout, width, height, planes)
    ensures plane < planes && Total(layout, width, height, plane) <= x < Total(layout, width, height, plane + 1)
  {
    if x < Total(layout, width, height, planes - 1) {
      plane := FindPlane(layout, width, height, planes - 1, x);
    } else {
      plane := planes - 1;
    }
  }

  /** The planes tile the image: each byte belongs to exactly one, and no plane reaches past the end. */
  lemma PlanesTile(r: ImageRequirements, layout: PlanarLayout, x: nat)
    requires Known(layout) && Describes(r, layout, r.info)
    ensures x < r.size <==> exists p :: 0 <= p < layout.numPlanes && InPlane(r, layout, p, x)
    ensures forall p, q :: 0 <= p < q < layout.numPlanes ==> !(InPlane(r, layout, p, x) && InPlane(r, layout, q, x))
  {
    hide PlaneSize;
    var w, h := r.info.width, r.info.height;
    if x < r.size {
      var p := FindPlane(layout, w, h, layout.numPlanes, x);
      assert InPlane(r, layout, p, x);
    }
    forall p | 0 <= p < layout.numPlanes && InPlane(r, layout, p, x)
      ensures x < r.size
    {
      TotalMonotone(layout, w, h, p + 1, layout.numPlanes);
    }
    forall p, q | 0 <= p < q < layout.numPlanes
      ensures !(InPlane(r, layout, p, x) && InPlane(r, layout, q, x))
    {
      TotalMonotone(layout, w, h, p + 1, q);
    }
  }

  lemma ProductMonotone(a: nat, b: nat, c: nat, d: nat)
    requires a <= b && c <= d
    ensures a * c <= b * d
  {
    assert a * c <= b * c <= b * d;
  }

  lemma StrideMonotone(layout: PlanarLayout, width: nat, width': nat, plane: nat)
    requires Known(layout) && plane < layout.numPlanes && width <= width'
    ensures PlaneStride(layout, width, plane) <= PlaneStride(layout, width', plane)
  {
    assert width / 2 <= width' / 2;
  }

  lemma {:induction false} SizeMonotone(layout: PlanarLayout, width: nat, height: nat, width': nat, height': nat,
                                        planes: nat)
    requires Known(layout) && planes <= layout.numPlanes && width <= width' && height <= height'
    ensures Total(layout, width, height, planes) <= Total(layout, width', height', planes)
  {
    if planes > 0 {
      var p := planes - 1;
      SizeMonotone(layout, width, height, width', height', p);
      StrideMonotone(layout, width, width', p);
      assert PlaneHeight(layout, height, p) <= PlaneHeight(layout, height', p) by {
        assert height / 2 <= height' / 2;
      }
      ProductMonotone(PlaneHeight(layout, height, p), PlaneHeight(layout, height', p), PlaneStride(layout, width, p),
        PlaneStride(layout, width', p));
    }
  }

  /** A smaller image of a format needs no more memory, and can be laid out whenever the larger one can. */
  lemma SmallerImagesFit(info: ImageInfo, width: u32, height: u32)
    requires Computable(info) && width <= info.width && height <= info.height
    ensures Computable(info.(width := width, height := height))
    ensures
      var layout := LayoutOf(info.format).value;
      Total(layout, width, height, layout.numPlanes) <= Total(layout, info.width, info.height, layout.numPlanes)
  {
    hide LayoutOf, Total, PlaneStride;
    var layout := LayoutOf(info.format).value;
    SizeMonotone(layout, width, height, info.width, info.height, layout.numPlanes);
    forall p | 0 <= p < layout.numPlanes
      ensures PlaneStride(layout, width, p) <= U32_MAX
    {
      StrideMonotone(layout, width, info.width, p);
    }
  }

  /** NV12 and YVU420 images need the same memory, odd dimensions included, and have layouts for the same dimensions. */
  lemma BiplanarLikeTriplanar(width: u32, height: u32, flags: u32)
    ensures
      var nv12, yvu420 := ImageInfo(width, height, FormatOf(78, 86, 49, 50), flags),
        ImageInfo(width, height, FormatOf(89, 86, 49, 50), flags);
      var two, three := LayoutOf(nv12.format), LayoutOf(yvu420.format);
      && two.Success? && three.Success? && two.value.numPlanes == 2 && three.value.numPlanes == 3
      && Known(two.value) && Known(three.value)
      && Total(two.value, width, height, 2) == Total(three.value, width, height, 3)
      && (Computable(nv12) <==> Computable(yvu420))
  {
    var nv12, yvu420 := ImageInfo(width, height, CODE_NV12, flags), ImageInfo(width, height, CODE_YV12, flags);
    assert FormatOf(78, 86, 49, 50) == CODE_NV12 && FormatOf(89, 86, 49, 50) == CODE_YV12;
    LayoutByCode(CODE_NV12);
    LayoutByCode(CODE_YV12);
    hide LayoutOf, Total, PlaneStride, FormatOf;
    BiplanarNumbers(width, height);
    TriplanarNumbers(width, height);
  }

  /**
   For images of at least one line a layout exists exactly when the format is known and the exact size fits u32.
   For an image of no lines its stride must fit too, although its size is zero.
   */
  lemma ComputableIff(info: ImageInfo)
    ensures LayoutOf(info.format).Success? ==>
              var layout := LayoutOf(info.format).value;
              && Known(layout)
              && (Computable(info) <==>
                  && Total(layout, info.width, info.height, layout.numPlanes) <= U32_MAX
                  && (info.height == 0 ==> layout.bytesPerPixel[0] * info.width <= U32_MAX))
  {
    if LayoutOf(info.format).Success? {
      var layout := LayoutOf(info.format).value;
      LayoutsKnown(info.format);
      hide LayoutOf;
      FirstPlane(layout, info.width, info.height);
    }
  }

  /**
   Only the first plane of a layout can have a stride that does not fit; with a line in it, the size does not fit
   either.
   */
  lemma FirstPlane(layout: PlanarLayout, width: u32, height: u32)
    requires Known(layout)
    ensures PlaneStride(layout, width, 0) == layout.bytesPerPixel[0] * width
    ensures StridesFit(layout, width) <==> PlaneStride(layout, width, 0) <= U32_MAX
    ensures height > 0 ==> Total(layout, width, height, layout.numPlanes) >= PlaneStride(layout, width, 0)
  {
    if height > 0 {
      TotalMonotone(layout, width, height, 1, layout.numPlanes);
      ProductMonotone(1, height, PlaneStride(layout, width, 0), PlaneStride(layout, width, 0));
      assert Total(layout, width, height, 1) == PlaneSize(layout, width, height, 0);
    }
  }

  /** So the size alone does not decide: an image of no lines that is too wide is refused. */
  lemma NoLinesRefused()
    ensures
      var info := ImageInfo(0x4000_0000, 0, FormatOf(88, 82, 50, 52), 0);
      LayoutOf(info.format) == Success(Packed(4)) && Total(Packed(4), info.width, info.height, 1) == 0
        && !Computable(info)
  {
    var info := ImageInfo(0x4000_0000, 0, FormatOf(88, 82, 50, 52), 0);
    PackedFormat();
    ComputableIff(info);
    hide LayoutOf, FormatOf, Computable;
    assert PlaneSize(Packed(4), info.width, 0, 0) == 0;
    assert Total(Packed(4), info.width, 0, 0) == 0;
  }

  lemma PackedFormat()
    ensures LayoutOf(FormatOf(88, 82, 50, 52)) == Success(Packed(4))
  {
    var format := FormatOf(88, 82, 50, 52);
    assert ToBytes(format) == XRGB8888 by {
      FourccRoundTrip(format, 88, 82, 50, 52);
    }
    hide ToBytes, FormatOf;
    assert XRGB8888 != R8 && XRGB8888 != RGB565 && XRGB8888 != BGR888 by {
      assert XRGB8888[0] == 88 && R8[0] == 82 && RGB565[0] == 82 && BGR888[0] == 66;
    }
  }
}
