/**
 The scatter-gather 2D copy.  One loop walks two cursors, the image line and the source chunk.

 `Plan` lists the copies that walk performs, and `Execute` applies them to a destination.
 The method `Transfer2D` is the loop of the source and is proved to do exactly that, on every input.
 The lemmas then compare the plan with the obvious specification: concatenate the chunks
 and copy the rectangle line by line (`CopyLines`).
 */
module Transfer2D {
  import opened Machine

  /** A rectangle of `lines` lines of `lineLen` bytes: where each line starts in the source and in the destination. */
  datatype Rect = Rect(srcStart: nat, srcStride: nat, dstStart: nat, dstStride: nat, lineLen: nat, lines: nat) {

    function Lo(line: nat): nat {
      if line == 0 then srcStart else Lo(line - 1) + srcStride
    }

    function Hi(line: nat): nat {
      Lo(line) + lineLen
    }

    function DstLo(line: nat): nat {
      if line == 0 then dstStart else DstLo(line - 1) + dstStride
    }

    /** Source address `x` belongs to `line`. */
    predicate InLine(line: nat, x: nat) {
      Lo(line) <= x < Hi(line)
    }

    /** The destination address of source address `x` of `line`. */
    function DstOf(line: nat, x: nat): nat
      requires InLine(line, x)
    {
      DstLo(line) + (x - Lo(line))
    }
  }

  lemma {:induction false} LineAddresses(t: Rect, line: nat)
    ensures t.Lo(line) == t.srcStart + line * t.srcStride && t.DstLo(line) == t.dstStart + line * t.dstStride
  {
    if line > 0 {
      LineAddresses(t, line - 1);
      assert line * t.srcStride == (line - 1) * t.srcStride + t.srcStride;
      assert line * t.dstStride == (line - 1) * t.dstStride + t.dstStride;
    }
  }

  // ---------------------------------------------------------------------------
  // What the loop does
  // ---------------------------------------------------------------------------

  /** One effect of the loop: a piece copied to `line` from column `col` on, or a checked addition that overflows. */
  datatype Act =
    | Copy(line: nat, col: nat, data: seq<u8>)
    | Overflow

  /** Source addresses [From, To) are the part of `line` that lies in the chunk [a, b). */
  function From(t: Rect, a: nat, line: nat): nat {
    Max(t.Lo(line), a)
  }

  function To(t: Rect, b: nat, line: nat): nat {
    Min(t.Hi(line), b)
  }

  /** The walk leaves the chunk [a, b) after looking at `line`. */
  predicate TakesChunk(t: Rect, a: nat, b: nat, line: nat) {
    if From(t, a, line) < To(t, b, line) then t.Hi(line) >= b else t.Lo(line) >= a
  }

  /** The walk leaves `line` after looking at the chunk [a, b). */
  predicate TakesLine(t: Rect, a: nat, b: nat, line: nat) {
    if From(t, a, line) < To(t, b, line) then t.Hi(line) <= b else t.Lo(line) < a
  }

  /** The piece of `line` copied from `chunk`, which starts at source address `a`. */
  function Piece(t: Rect, chunk: seq<u8>, a: nat, line: nat): seq<Act> {
    var lo, hi := From(t, a, line), To(t, a + |chunk|, line);
    if lo < hi then [Copy(line, lo - t.Lo(line), chunk[lo - a..hi - a])] else []
  }

  /** Cumulative start offset of chunk `k`; for `k == |chunks|`, the length of all of them together. */
  function Offset(chunks: seq<seq<u8>>, k: nat): nat
    requires k <= |chunks|
  {
    if k == 0 then 0 else Offset(chunks, k - 1) + |chunks[k - 1]|
  }

  /** Where the walk goes next from chunk `k` and `line`. */
  function NextChunk(t: Rect, chunks: seq<seq<u8>>, k: nat, line: nat): nat
    requires k < |chunks|
  {
    if TakesChunk(t, Offset(chunks, k), Offset(chunks, k + 1), line) then k + 1 else k
  }

  function NextLine(t: Rect, chunks: seq<seq<u8>>, k: nat, line: nat): nat
    requires k < |chunks|
  {
    if TakesLine(t, Offset(chunks, k), Offset(chunks, k + 1), line) then line + 1 else line
  }

  /** The effects of the walk that stands at chunk `k` and at `line`. */
  function Plan(t: Rect, chunks: seq<seq<u8>>, k: nat, line: nat): seq<Act>
    requires k <= |chunks| && line <= t.lines
    decreases |chunks| - k + (t.lines - line)
  {
    if k == |chunks| || line == t.lines then
      []
    else
      if Offset(chunks, k + 1) > U64_MAX || t.Hi(line) > U64_MAX then
        [Overflow]
      else
        Piece(t, chunks[k], Offset(chunks, k), line) +
          Plan(t, chunks, NextChunk(t, chunks, k, line), NextLine(t, chunks, k, line))
  }

  /** `d` with `data` written at `at`. */
  function Splice(d: seq<u8>, at: nat, data: seq<u8>): (r: seq<u8>)
    requires at + |data| <= |d|
    ensures |r| == |d|
  {
    d[..at] + data + d[at + |data|..]
  }

  function Execute(t: Rect, d: seq<u8>, plan: seq<Act>): (r: (seq<u8>, Outcome))
    ensures |r.0| == |d|
    decreases |plan|
  {
    if plan == [] then (d, Ok)
    else match plan[0]
      case Overflow => (d, Err(CheckedArithmetic))
      case Copy(line, col, data) =>
        var at := t.DstLo(line) + col;
        if at > U64_MAX then (d, Err(CheckedArithmetic))
        else if at + |data| > |d| then (d, Err(InvalidIovec))
        else Execute(t, Splice(d, at, data), plan[1..])
  }

  /** The effect of the walk that stands at chunk `k` and at `line`. */
  function Walk(t: Rect, d: seq<u8>, chunks: seq<seq<u8>>, k: nat, line: nat): (r: (seq<u8>, Outcome))
    requires k <= |chunks| && line <= t.lines
    ensures |r.0| == |d|
  {
    Execute(t, d, Plan(t, chunks, k, line))
  }

  /** The rectangle that a call describes, with the two unchecked address sums. */
  function RectOf(x: u32, y: u32, w: u32, h: u32, dstStride: u32, dstOffset: u64, srcStride: u32,
                  srcOffset: u64): Rect {
    Rect(Wrap64(srcOffset + y * srcStride + x * 4), srcStride,
         Wrap64(dstOffset + y * dstStride + x * 4), dstStride,
         w * 4, h)
  }

  /** Where the lines of a rectangle start, when the two address sums do not wrap around. */
  lemma RectAddresses(x: u32, y: u32, w: u32, h: u32, dstStride: u32, dstOffset: u64, srcStride: u32, srcOffset: u64,
                      r: nat)
    ensures
      var t := RectOf(x, y, w, h, dstStride, dstOffset, srcStride, srcOffset);
      && (srcOffset + y * srcStride + 4 * x <= U64_MAX ==> t.Lo(r) == srcOffset + (y + r) * srcStride + 4 * x)
      && (dstOffset + y * dstStride + 4 * x <= U64_MAX ==> t.DstLo(r) == dstOffset + (y + r) * dstStride + 4 * x)
  {
    LineAddresses(RectOf(x, y, w, h, dstStride, dstOffset, srcStride, srcOffset), r);
    LinesAdd(y, r, srcStride);
    LinesAdd(y, r, dstStride);
    FitsUnwrapped(srcOffset + y * srcStride + x * 4);
    FitsUnwrapped(dstOffset + y * dstStride + x * 4);
    hide Wrap64, Rect.Lo, Rect.DstLo;
  }

  lemma LinesAdd(y: nat, r: nat, stride: nat)
    ensures (y + r) * stride == y * stride + r * stride
  {
  }

  lemma FitsUnwrapped(x: nat)
    ensures x <= U64_MAX ==> Wrap64(x) == x
  {
  }

  /** The result of a call, for every input. */
  function Transferred(resourceW: u32, resourceH: u32, x: u32, y: u32, w: u32, h: u32, t: Rect,
                       d: seq<u8>, chunks: seq<seq<u8>>): (seq<u8>, Outcome)
  {
    if w == 0 || h == 0 then (d, Ok)
    else if x + w > U32_MAX then (d, Err(CheckedArithmetic))
    else if x + w > resourceW then (d, Err(CheckedRange))
    else if y + h > U32_MAX then (d, Err(CheckedArithmetic))
    else if y + h > resourceH then (d, Err(CheckedRange))
    else Walk(t, d, chunks, 0, 0)
  }

  lemma {:induction false} ExecuteOutcomes(t: Rect, d: seq<u8>, plan: seq<Act>)
    ensures Execute(t, d, plan).1 in {Ok, Err(CheckedArithmetic), Err(InvalidIovec)}
    decreases |plan|
  {
    if plan != [] && plan[0].Copy? {
      var at := t.DstLo(plan[0].line) + plan[0].col;
      if at + |plan[0].data| <= |d| {
        ExecuteOutcomes(t, Splice(d, at, plan[0].data), plan[1..]);
      }
    }
  }

  /** Once the rectangle has been accepted, only an address or the end of the destination can be at fault. */
  lemma WalkOutcomes(t: Rect, d: seq<u8>, chunks: seq<seq<u8>>)
    ensures Walk(t, d, chunks, 0, 0).1 in {Ok, Err(CheckedArithmetic), Err(InvalidIovec)}
  {
    ExecuteOutcomes(t, d, Plan(t, chunks, 0, 0));
  }

  lemma ExecuteFirst(t: Rect, d: seq<u8>, first: Act, rest: seq<Act>)
    requires first.Copy?
    ensures
      var at := t.DstLo(first.line) + first.col;
      Execute(t, d, [first] + rest) ==
        if at > U64_MAX then (d, Err(CheckedArithmetic))
        else if at + |first.data| > |d| then (d, Err(InvalidIovec))
        else Execute(t, Splice(d, at, first.data), rest)
  {
    assert ([first] + rest)[1..] == rest;
  }

  lemma WalkSkips(t: Rect, d: seq<u8>, chunks: seq<seq<u8>>, k: nat, line: nat)
    requires k < |chunks| && line < t.lines && Offset(chunks, k + 1) <= U64_MAX && t.Hi(line) <= U64_MAX
    requires From(t, Offset(chunks, k), line) >= To(t, Offset(chunks, k + 1), line)
    ensures Walk(t, d, chunks, k, line) ==
            Walk(t, d, chunks, NextChunk(t, chunks, k, line), NextLine(t, chunks, k, line))
  {
    var rest := Plan(t, chunks, NextChunk(t, chunks, k, line), NextLine(t, chunks, k, line));
    assert Plan(t, chunks, k, line) == [] + rest == rest;
  }

  lemma WalkCopies(t: Rect, d: seq<u8>, chunks: seq<seq<u8>>, k: nat, line: nat)
    requires k < |chunks| && line < t.lines && Offset(chunks, k + 1) <= U64_MAX && t.Hi(line) <= U64_MAX
    requires From(t, Offset(chunks, k), line) < To(t, Offset(chunks, k + 1), line)
    ensures
      var a, b := Offset(chunks, k), Offset(chunks, k + 1);
      var lo, hi := From(t, a, line), To(t, b, line);
      var at := t.DstLo(line) + (lo - t.Lo(line));
      Walk(t, d, chunks, k, line) ==
        if at > U64_MAX then (d, Err(CheckedArithmetic))
        else if at + (hi - lo) > |d| then (d, Err(InvalidIovec))
        else Walk(t, Splice(d, at, chunks[k][lo - a..hi - a]), chunks, NextChunk(t, chunks, k, line),
          NextLine(t, chunks, k, line))
  {
    PlanFirst(t, chunks, k, line);
    var a, lo, hi := Offset(chunks, k), From(t, Offset(chunks, k), line), To(t, Offset(chunks, k + 1), line);
    assert a <= lo && hi <= a + |chunks[k]|;
    hide Plan, Splice, Rect.Lo, Rect.DstLo, Offset, NextChunk, NextLine, From, To, Execute;
    ExecuteFirst(t, d, Copy(line, lo - t.Lo(line), chunks[k][lo - a..hi - a]),
                 Plan(t, chunks, NextChunk(t, chunks, k, line), NextLine(t, chunks, k, line)));
  }

  lemma PlanFirst(t: Rect, chunks: seq<seq<u8>>, k: nat, line: nat)
    requires k < |chunks| && line < t.lines && Offset(chunks, k + 1) <= U64_MAX && t.Hi(line) <= U64_MAX
    requires From(t, Offset(chunks, k), line) < To(t, Offset(chunks, k + 1), line)
    ensures
      var a, lo, hi := Offset(chunks, k), From(t, Offset(chunks, k), line), To(t, Offset(chunks, k + 1), line);
      && a <= lo && hi <= a + |chunks[k]|
      && Plan(t, chunks, k, line) ==
         [Copy(line, lo - t.Lo(line), chunks[k][lo - a..hi - a])]
         + Plan(t, chunks, NextChunk(t, chunks, k, line), NextLine(t, chunks, k, line))
  {
    assert Offset(chunks, k + 1) == Offset(chunks, k) + |chunks[k]|;
    PieceOf(t, chunks[k], Offset(chunks, k), line);
    hide Rect.Lo, Offset, Piece, From, To, NextChunk, NextLine;
  }

  lemma PieceOf(t: Rect, chunk: seq<u8>, a: nat, line: nat)
    requires From(t, a, line) < To(t, a + |chunk|, line)
    ensures
      var lo, hi := From(t, a, line), To(t, a + |chunk|, line);
      && a <= lo && hi <= a + |chunk|
         && Piece(t, chunk, a, line) == [Copy(line, lo - t.Lo(line), chunk[lo - a..hi - a])]
  {
    hide Rect.Lo;
  }

  lemma WalkOverflows(t: Rect, d: seq<u8>, chunks: seq<seq<u8>>, k: nat, line: nat)
    requires k < |chunks| && line < t.lines && (Offset(chunks, k + 1) > U64_MAX || t.Hi(line) > U64_MAX)
    ensures Walk(t, d, chunks, k, line) == (d, Err(CheckedArithmetic))
  {
  }

  lemma WalkDone(t: Rect, d: seq<u8>, chunks: seq<seq<u8>>, k: nat, line: nat)
    requires k <= |chunks| && line <= t.lines && (k == |chunks| || line == t.lines)
    ensures Walk(t, d, chunks, k, line) == (d, Ok)
  {
  }

  /** A slice whose end wraps around is refused like any other slice that ends outside. */
  lemma SliceRefused(start: nat, size: nat, length: nat)
    requires start <= U64_MAX && size <= ISIZE_MAX && length <= ISIZE_MAX
    ensures (Wrap64(start + size) < start || Wrap64(start + size) > length) == (start + size > length)
  {
  }

  /**
   One piece of `line`, from column `col` on: the checked sums for its place, the slice of the destination, the copy.
   */
  method CopyPiece(t: Rect, dst: array<u8>, line: nat, col: nat, srcSubslice: seq<u8>) returns (r: Outcome)
    requires t.dstStart <= U64_MAX && dst.Length <= ISIZE_MAX && |srcSubslice| <= ISIZE_MAX
    modifies dst
    ensures
      var at := t.DstLo(line) + col;
      && r == (if at > U64_MAX then Err(CheckedArithmetic)
         else if at + |srcSubslice| > dst.Length then Err(InvalidIovec) else Ok)
      && dst[..] == if r == Ok then Splice(old(dst[..]), at, srcSubslice) else old(dst[..])
  {
    LineAddresses(t, line);
    var dstLineOffset := line * t.dstStride + col;
    if dstLineOffset > U64_MAX { return Err(CheckedArithmetic); }
    var dstStartOffset := t.dstStart + dstLineOffset;
    if dstStartOffset > U64_MAX { return Err(CheckedArithmetic); }
    SliceRefused(dstStartOffset, |srcSubslice|, dst.Length);
    var dstEndOffset := Wrap64(dstStartOffset + |srcSubslice|);
    if dstEndOffset < dstStartOffset || dstEndOffset > dst.Length { return Err(InvalidIovec); }
    CopyFromSlice(dst, dstStartOffset, srcSubslice);
    r := Ok;
  }

  lemma OffsetStart(chunks: seq<seq<u8>>)
    ensures Offset(chunks, 0) == 0
  {
  }

  /** Where the walk goes next, by comparison of the ends of the chunk and the line. */
  lemma Advance(t: Rect, chunks: seq<seq<u8>>, k: nat, line: nat, lo: nat, a: nat, b: nat)
    requires k < |chunks| && lo == t.Lo(line) && a == Offset(chunks, k) && b == a + |chunks[k]|
    ensures b == Offset(chunks, k + 1) && From(t, a, line) == Max(lo, a) && To(t, b, line) == Min(lo + t.lineLen, b)
    ensures
      var copies := Max(lo, a) < Min(lo + t.lineLen, b);
      && NextChunk(t, chunks, k, line) == (if (if copies then lo + t.lineLen >= b else lo >= a) then k + 1 else k)
      && NextLine(t, chunks, k, line) == (if (if copies then lo + t.lineLen <= b else lo < a) then line + 1 else line)
  {
  }

  /** The loop: the sums that come before it are in `t`. */
  method CopyRect(t: Rect, dst: array<u8>, srcs: seq<seq<u8>>) returns (r: Outcome)
    requires t.srcStart <= U64_MAX && t.dstStart <= U64_MAX
    requires dst.Length <= ISIZE_MAX && forall i :: 0 <= i < |srcs| ==> |srcs[i]| <= ISIZE_MAX
    modifies dst
    ensures (dst[..], r) == Walk(t, old(dst[..]), srcs, 0, 0)
  {
    hide Walk, Plan, Execute, Splice, Rect.Lo, Rect.DstLo, Offset, NextChunk, NextLine, From, To;
    OffsetStart(srcs);
    ghost var final := Walk(t, dst[..], srcs, 0, 0);
    var currentHeight: nat := 0;
    var chunk := 0;
    var srcStartOffset: nat := 0;
    while chunk < |srcs| && currentHeight < t.lines
      invariant 0 <= chunk <= |srcs| && 0 <= currentHeight <= t.lines
      invariant srcStartOffset == Offset(srcs, chunk)
      invariant Walk(t, dst[..], srcs, chunk, currentHeight) == final
      decreases |srcs| - chunk + (t.lines - currentHeight)
    {
      var src := srcs[chunk];
      ghost var chunk', line' := NextChunk(t, srcs, chunk, currentHeight), NextLine(t, srcs, chunk, currentHeight);

      var srcEndOffset := srcStartOffset + |src|;
      Advance(t, srcs, chunk, currentHeight, t.Lo(currentHeight), srcStartOffset, srcEndOffset);
      if srcEndOffset > U64_MAX || t.Hi(currentHeight) > U64_MAX {
        WalkOverflows(t, dst[..], srcs, chunk, currentHeight);
      }
      if srcEndOffset > U64_MAX { return Err(CheckedArithmetic); }
      // The next line to copy, within all chunks.
      LineAddresses(t, currentHeight);
      var lineStart := t.srcStart + currentHeight * t.srcStride;
      var lineEnd := lineStart + t.lineLen;
      if lineEnd > U64_MAX { return Err(CheckedArithmetic); }

      // Clamp the line to the current chunk.
      var copyStart := Max(lineStart, srcStartOffset);
      var copyEnd := Min(lineEnd, srcEndOffset);
      var nextSrc, nextLine;
      if copyStart < copyEnd {
        WalkCopies(t, dst[..], srcs, chunk, currentHeight);
        var copyableSize := copyEnd - copyStart;
        var offsetWithinSrc := copyStart - srcStartOffset;
        if lineEnd > srcEndOffset {
          nextSrc, nextLine := true, false;
        } else if lineEnd == srcEndOffset {
          nextSrc, nextLine := true, true;
        } else {
          nextSrc, nextLine := false, true;
        }
        var srcSubslice := src[offsetWithinSrc..offsetWithinSrc + copyableSize];
        var copied := CopyPiece(t, dst, currentHeight, copyStart - lineStart, srcSubslice);
        if copied != Ok { return copied; }
      } else if lineStart >= srcStartOffset {
        WalkSkips(t, dst[..], srcs, chunk, currentHeight);
        nextSrc, nextLine := true, false;
      } else {
        WalkSkips(t, dst[..], srcs, chunk, currentHeight);
        nextSrc, nextLine := false, true;
      }
      assert Walk(t, dst[..], srcs, chunk', line') == final;
      assert chunk' == (if nextSrc then chunk + 1 else chunk)
             && line' == (if nextLine then currentHeight + 1 else currentHeight);
      if nextSrc {
        srcStartOffset := srcEndOffset;
        chunk := chunk + 1;
      }
      if nextLine {
        currentHeight := currentHeight + 1;
      }
    }
    WalkDone(t, dst[..], srcs, chunk, currentHeight);
    r := Ok;
  }

  method CopyFromSlice(dst: array<u8>, at: nat, data: seq<u8>)
    requires at + |data| <= dst.Length
    modifies dst
    ensures dst[..] == Splice(old(dst[..]), at, data)
  {
    forall k | 0 <= k < |data| {
      dst[at + k] := data[k];
    }
  }

  method Transfer2D(resourceW: u32, resourceH: u32, rectX: u32, rectY: u32, rectW: u32, rectH: u32,
                    dstStride: u32, dstOffset: u64, dst: array<u8>,
                    srcStride: u32, srcOffset: u64, srcs: seq<seq<u8>>)
    returns (r: Outcome)
    requires dst.Length <= ISIZE_MAX && forall i :: 0 <= i < |srcs| ==> |srcs[i]| <= ISIZE_MAX
    modifies dst
    ensures var t := RectOf(rectX, rectY, rectW, rectH, dstStride, dstOffset, srcStride, srcOffset);
            (dst[..], r) == Transferred(resourceW, resourceH, rectX, rectY, rectW, rectH, t, old(dst[..]), srcs)
    // Nothing is written for an empty rectangle, or for one that does not lie inside the resource.
    ensures rectW == 0 || rectH == 0 ==> r == Ok && dst[..] == old(dst[..])
    ensures rectW > 0 && rectH > 0 && (rectX + rectW > resourceW || rectY + rectH > resourceH) ==>
              r in {Err(CheckedRange), Err(CheckedArithmetic)} && dst[..] == old(dst[..])
    ensures r == Err(CheckedRange) <==>
            && rectW > 0 && rectH > 0 && rectX + rectW <= U32_MAX
            && (rectX + rectW > resourceW || resourceH < rectY + rectH <= U32_MAX)
  {
    hide Walk;
    if rectW > 0 && rectH > 0 {
      WalkOutcomes(RectOf(rectX, rectY, rectW, rectH, dstStride, dstOffset, srcStride, srcOffset), dst[..], srcs);
    }
    if rectW == 0 || rectH == 0 {
      return Ok;
    }
    if rectX + rectW > U32_MAX { return Err(CheckedArithmetic); }
    if rectX + rectW > resourceW { return Err(CheckedRange); }
    if rectY + rectH > U32_MAX { return Err(CheckedArithmetic); }
    if rectY + rectH > resourceH { return Err(CheckedRange); }
    r := CopyRect(RectOf(rectX, rectY, rectW, rectH, dstStride, dstOffset, srcStride, srcOffset), dst, srcs);
  }
}
