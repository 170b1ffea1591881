/**
 What the walk of `Transfer2D` means: when it is the line-by-line copy out of the
 concatenated chunks, when it is not, and what it never depends on.
 */
module ScatterGather {
  import opened Machine
  import opened Transfer2D

  // ---------------------------------------------------------------------------
  // The specification: concatenate, then copy line by line
  // ---------------------------------------------------------------------------

  /** The first `k` chunks end to end. */
  function Concat(chunks: seq<seq<u8>>, k: nat): (r: seq<u8>)
    requires k <= |chunks|
    ensures |r| == Offset(chunks, k)
  {
    if k == 0 then [] else Concat(chunks, k - 1) + chunks[k - 1]
  }

  function Flat(chunks: seq<seq<u8>>): (r: seq<u8>)
    ensures |r| == Offset(chunks, |chunks|)
  {
    Concat(chunks, |chunks|)
  }

  /** Destination index `i` receives a byte of `line` whose source address is at least `from`. */
  predicate Receives(t: Rect, flat: seq<u8>, line: nat, from: nat, i: nat) {
    t.DstLo(line) <= i < t.DstLo(line) + t.lineLen && from <= t.Lo(line) + (i - t.DstLo(line)) < |flat|
  }

  /** The bytes of one line, from source address `from` on and as far as the source reaches. */
  function CopyLine(t: Rect, flat: seq<u8>, d: seq<u8>, line: nat, from: nat): (r: seq<u8>)
    ensures |r| == |d|
  {
    seq(|d|, i requires 0 <= i < |d| => if Receives(t, flat, line, from, i) then flat[t.Lo(line) + (i - t.DstLo(line))]
      else d[i])
  }

  /** Every line from `line` on, in order, so that a later line wins where destination lines overlap. */
  function CopyLines(t: Rect, flat: seq<u8>, d: seq<u8>, line: nat, from: nat): (r: seq<u8>)
    ensures |r| == |d|
    decreases t.lines - line
  {
    if line >= t.lines then d
    else CopyLines(t, flat, CopyLine(t, flat, d, line, from), line + 1, from)
  }

  // ---------------------------------------------------------------------------
  // Addresses
  // ---------------------------------------------------------------------------

  lemma {:induction false} LoMonotone(t: Rect, p: nat, q: nat)
    requires p <= q
    ensures t.Lo(p) <= t.Lo(q) && t.Hi(p) <= t.Hi(q)
  {
    if p < q {
      LoMonotone(t, p, q - 1);
    }
  }

  lemma {:induction false} OffsetMonotone(chunks: seq<seq<u8>>, i: nat, j: nat)
    requires i <= j <= |chunks|
    ensures Offset(chunks, i) <= Offset(chunks, j)
  {
    if i < j {
      OffsetMonotone(chunks, i, j - 1);
    }
  }

  lemma {:induction false} ConcatPrefix(chunks: seq<seq<u8>>, i: nat, j: nat)
    requires i <= j <= |chunks|
    ensures Concat(chunks, i) <= Concat(chunks, j)
  {
    if i < j {
      ConcatPrefix(chunks, i, j - 1);
    }
  }

  /** A chunk is the stretch of the concatenation between its two offsets. */
  lemma ChunkInFlat(chunks: seq<seq<u8>>, k: nat)
    requires k < |chunks|
    ensures Offset(chunks, k) <= Offset(chunks, k + 1) <= |Flat(chunks)|
    ensures Flat(chunks)[Offset(chunks, k)..Offset(chunks, k + 1)] == chunks[k]
  {
    OffsetMonotone(chunks, k + 1, |chunks|);
    ConcatPrefix(chunks, k + 1, |chunks|);
    var a, b := Offset(chunks, k), Offset(chunks, k + 1);
    assert Flat(chunks)[..b] == Concat(chunks, k + 1);
    assert Concat(chunks, k + 1)[a..b] == chunks[k];
    assert Flat(chunks)[a..b] == Flat(chunks)[..b][a..b];
  }

  // ---------------------------------------------------------------------------
  // Which bytes the walk delivers
  // ---------------------------------------------------------------------------

  /** The checked sums of the walk cannot overflow. */
  predicate AddressesFit(t: Rect, chunks: seq<seq<u8>>) {
    Offset(chunks, |chunks|) <= U64_MAX && (t.lines > 0 ==> t.Hi(t.lines - 1) <= U64_MAX)
  }

  /** Address `x` belongs to line `q` and the source reaches it, at or after chunk `k` and `line`. */
  predicate Wanted(t: Rect, chunks: seq<seq<u8>>, k: nat, line: nat, q: nat, x: nat)
    requires k <= |chunks|
  {
    line <= q < t.lines && t.InLine(q, x) && Offset(chunks, k) <= x < Offset(chunks, |chunks|)
  }

  predicate Covers(t: Rect, act: Act, q: nat, x: nat) {
    act.Copy? && act.line == q && t.Lo(q) + act.col <= x < t.Lo(q) + act.col + |act.data|
  }

  /** Some copy of the plan delivers address `x` to line `q`. */
  ghost predicate Covered(t: Rect, plan: seq<Act>, q: nat, x: nat) {
    exists i :: 0 <= i < |plan| && Covers(t, plan[i], q, x)
  }

  /**
   Chunk `i` makes the walk lose bytes at line `q`: either it is empty and lies strictly inside the
   line, with more data after it, or the next line starts before the place where the chunk ends and the
   walk has left it.
   */
  predicate Splits(t: Rect, chunks: seq<seq<u8>>, i: nat, q: nat)
    requires i < |chunks|
  {
    var s, e := Offset(chunks, i), Offset(chunks, i + 1);
    if s == e then
      t.Lo(q) < s < t.Hi(q) && s < Offset(chunks, |chunks|)
    else
      q + 1 < t.lines && t.Lo(q + 1) < e <= t.Hi(q)
  }

  ghost predicate SafeFrom(t: Rect, chunks: seq<seq<u8>>, k: nat, line: nat) {
    forall i, q :: k <= i < |chunks| && line <= q < t.lines ==> !Splits(t, chunks, i, q)
  }

  ghost predicate Safe(t: Rect, chunks: seq<seq<u8>>) {
    SafeFrom(t, chunks, 0, 0)
  }

  lemma CoveredConcat(t: Rect, first: seq<Act>, rest: seq<Act>, q: nat, x: nat)
    ensures Covered(t, first + rest, q, x) <==> Covered(t, first, q, x) || Covered(t, rest, q, x)
  {
    var plan := first + rest;
    if Covered(t, first, q, x) {
      var i :| 0 <= i < |first| && Covers(t, first[i], q, x);
      assert plan[i] == first[i];
    }
    if Covered(t, rest, q, x) {
      var i :| 0 <= i < |rest| && Covers(t, rest[i], q, x);
      assert plan[|first| + i] == rest[i];
    }
  }

  lemma CoveredPiece(t: Rect, chunk: seq<u8>, a: nat, line: nat, q: nat, x: nat)
    ensures Covered(t, Piece(t, chunk, a, line), q, x) <==>
            q == line && From(t, a, line) <= x < To(t, a + |chunk|, line)
  {
    var piece := Piece(t, chunk, a, line);
    if piece != [] {
      assert Covers(t, piece[0], q, x) <==> q == line && From(t, a, line) <= x < To(t, a + |chunk|, line);
    }
  }

  /** The first step of a plan, unless it overflows. */
  lemma PlanStep(t: Rect, chunks: seq<seq<u8>>, k: nat, line: nat, q: nat, x: nat)
    requires k < |chunks| && line < t.lines && Offset(chunks, k + 1) <= U64_MAX && t.Hi(line) <= U64_MAX
    ensures
      Covered(t, Plan(t, chunks, k, line), q, x) <==>
        (q == line && From(t, Offset(chunks, k), line) <= x < To(t, Offset(chunks, k + 1), line))
        || Covered(t, Plan(t, chunks, NextChunk(t, chunks, k, line), NextLine(t, chunks, k, line)), q, x)
  {
    CoveredPiece(t, chunks[k], Offset(chunks, k), line, q, x);
    CoveredConcat(t, Piece(t, chunks[k], Offset(chunks, k), line),
                  Plan(t, chunks, NextChunk(t, chunks, k, line), NextLine(t, chunks, k, line)), q, x);
  }

  /** A plan that has ended, or ends in an overflow, delivers nothing. */
  lemma PlanStops(t: Rect, chunks: seq<seq<u8>>, k: nat, line: nat, q: nat, x: nat)
    requires k <= |chunks| && line <= t.lines
    ensures k == |chunks| || line == t.lines || Offset(chunks, k + 1) > U64_MAX || t.Hi(line) > U64_MAX ==>
              !Covered(t, Plan(t, chunks, k, line), q, x)
  {
  }

  lemma NoOverflow(t: Rect, chunks: seq<seq<u8>>, k: nat, line: nat)
    requires k < |chunks| && line < t.lines && AddressesFit(t, chunks)
    ensures Offset(chunks, k) <= Offset(chunks, k + 1) <= Offset(chunks, |chunks|) <= U64_MAX && t.Hi(line) <= U64_MAX
  {
    OffsetMonotone(chunks, k + 1, |chunks|);
    LoMonotone(t, line, t.lines - 1);
  }

  lemma PieceWanted(t: Rect, chunks: seq<seq<u8>>, k: nat, line: nat, x: nat)
    requires k < |chunks| && line < t.lines
             && From(t, Offset(chunks, k), line) <= x < To(t, Offset(chunks, k + 1), line)
    ensures Wanted(t, chunks, k, line, line, x)
  {
    OffsetMonotone(chunks, k + 1, |chunks|);
    hide Rect.Lo, Offset;
  }

  /** Only wanted bytes are delivered, each to its own line. */
  lemma {:induction false} PlanSound(t: Rect, chunks: seq<seq<u8>>, k: nat, line: nat, q: nat, x: nat)
    requires k <= |chunks| && line <= t.lines
    requires Covered(t, Plan(t, chunks, k, line), q, x)
    ensures Wanted(t, chunks, k, line, q, x)
    decreases |chunks| - k + (t.lines - line)
  {
    hide Plan, Covered, Rect.Lo, Offset, From, To;
    PlanStops(t, chunks, k, line, q, x);
    PlanStep(t, chunks, k, line, q, x);
    OffsetMonotone(chunks, k, k + 1);
    if q == line && From(t, Offset(chunks, k), line) <= x < To(t, Offset(chunks, k + 1), line) {
      PieceWanted(t, chunks, k, line, x);
    } else {
      PlanSound(t, chunks, NextChunk(t, chunks, k, line), NextLine(t, chunks, k, line), q, x);
    }
  }

  /** With no splitting chunk ahead, every wanted byte is delivered. */
  lemma {:induction false} PlanComplete(t: Rect, chunks: seq<seq<u8>>, k: nat, line: nat, q: nat, x: nat)
    requires k <= |chunks| && AddressesFit(t, chunks)
    requires SafeFrom(t, chunks, k, line) && Wanted(t, chunks, k, line, q, x)
    ensures Covered(t, Plan(t, chunks, k, line), q, x)
    decreases |chunks| - k + (t.lines - line)
  {
    hide Plan, Covered, Rect.Lo, Rect.DstLo;
    NoOverflow(t, chunks, k, line);
    PlanStep(t, chunks, k, line, q, x);
    var a, b := Offset(chunks, k), Offset(chunks, k + 1);
    var k', line' := NextChunk(t, chunks, k, line), NextLine(t, chunks, k, line);
    assert !Splits(t, chunks, k, line);
    LoMonotone(t, line, q);
    if line < q {
      LoMonotone(t, line + 1, q);
    }
    if !(q == line && From(t, a, line) <= x < To(t, b, line)) {
      PlanComplete(t, chunks, k', line', q, x);
    }
  }

  /** A split that the walk's next step leaves behind loses a byte right here. */
  lemma SplitBehind(t: Rect, chunks: seq<seq<u8>>, k: nat, line: nat, i: nat, p: nat)
    requires k <= i < |chunks| && line <= p < t.lines && Splits(t, chunks, i, p)
    requires NextChunk(t, chunks, k, line) > i || NextLine(t, chunks, k, line) > p
    ensures
      var a, b := Offset(chunks, k), Offset(chunks, k + 1);
      && b <= Offset(chunks, |chunks|)
      && if a < b then
           NextChunk(t, chunks, k, line) == k + 1 && line + 1 < t.lines && t.InLine(line + 1, b - 1)
         else
           NextLine(t, chunks, k, line) == line + 1 && t.InLine(line, a) && a < Offset(chunks, |chunks|)
  {
    LoMonotone(t, line, p);
    LoMonotone(t, line, line + 1);
    OffsetMonotone(chunks, k + 1, |chunks|);
    OffsetMonotone(chunks, i + 1, |chunks|);
    if p > line {
      LoMonotone(t, line + 1, p + 1);
    }
    if k < i {
      OffsetMonotone(chunks, k + 1, i);
    }
  }

  /** With a splitting chunk ahead, some wanted byte is lost. */
  lemma {:induction false} PlanLoses(t: Rect, chunks: seq<seq<u8>>, k: nat, line: nat, i: nat, p: nat)
    returns (q: nat, x: nat)
    requires AddressesFit(t, chunks)
    requires k <= i < |chunks| && line <= p < t.lines && Splits(t, chunks, i, p)
    ensures Wanted(t, chunks, k, line, q, x)
    ensures !Covered(t, Plan(t, chunks, k, line), q, x)
    decreases |chunks| - k + (t.lines - line)
  {
    hide Plan, Covered, Rect.Lo, Rect.DstLo;
    var k', line' := NextChunk(t, chunks, k, line), NextLine(t, chunks, k, line);
    if k' <= i && line' <= p {
      q, x := PlanLoses(t, chunks, k', line', i, p);
    } else {
      SplitBehind(t, chunks, k, line, i, p);
      var a, b := Offset(chunks, k), Offset(chunks, k + 1);
      q, x := if a < b then line + 1 else line, if a < b then b - 1 else a;
    }
    NoOverflow(t, chunks, k, line);
    PlanStep(t, chunks, k, line, q, x);
    if Covered(t, Plan(t, chunks, k', line'), q, x) {
      PlanSound(t, chunks, k', line', q, x);
    }
  }

  /**
   The walk delivers every byte that the source holds for the rectangle exactly when no chunk splits a line.
   This holds for every stride and every list of chunks, empty ones included.
   */
  lemma DeliversAllIffSafe(t: Rect, chunks: seq<seq<u8>>)
    requires AddressesFit(t, chunks)
    ensures Safe(t, chunks) <==>
            forall q, x :: Wanted(t, chunks, 0, 0, q, x) ==> Covered(t, Plan(t, chunks, 0, 0), q, x)
  {
    if Safe(t, chunks) {
      forall q, x | Wanted(t, chunks, 0, 0, q, x)
        ensures Covered(t, Plan(t, chunks, 0, 0), q, x)
      {
        PlanComplete(t, chunks, 0, 0, q, x);
      }
    } else {
      var i, p :| 0 <= i < |chunks| && 0 <= p < t.lines && Splits(t, chunks, i, p);
      var q, x := PlanLoses(t, chunks, 0, 0, i, p);
    }
  }

  /** What the two-dimensional callers rely on: lines that do not overlap in the source, and no empty chunk. */
  lemma PackedIsSafe(t: Rect, chunks: seq<seq<u8>>)
    requires t.srcStride >= t.lineLen
    requires forall i :: 0 <= i < |chunks| ==> chunks[i] != []
    ensures Safe(t, chunks)
  {
    forall i, q | 0 <= i < |chunks| && 0 <= q < t.lines
      ensures !Splits(t, chunks, i, q)
    {
      LoMonotone(t, q, q + 1);
    }
  }

  // ---------------------------------------------------------------------------
  // The delivered bytes without the walk
  // ---------------------------------------------------------------------------

  /** An empty chunk among `[from, k)` lies beyond the place where `line` starts, and made the walk leave it. */
  predicate CutShort(t: Rect, chunks: seq<seq<u8>>, from: nat, k: nat, line: nat)
    requires k <= |chunks|
  {
    exists i :: from <= i < k && chunks[i] == [] && t.Lo(line) < Offset(chunks, i)
  }

  /** The walk from chunk `from` and line `first` on looks at chunk `k`, which is not empty, together with line `q`. */
  predicate Meets(t: Rect, chunks: seq<seq<u8>>, from: nat, first: nat, k: nat, q: nat)
    requires k < |chunks|
  {
    && first <= q && !CutShort(t, chunks, from, k, q)
    && (q == first || t.Hi(q - 1) < Offset(chunks, k + 1) || CutShort(t, chunks, from, k, q - 1))
  }

  /** Address `x` lies in chunk `k`, and the walk copies it to line `q`. */
  predicate DeliveredBy(t: Rect, chunks: seq<seq<u8>>, from: nat, first: nat, k: nat, q: nat, x: nat) {
    && from <= k < |chunks| && Offset(chunks, k) <= x < Offset(chunks, k + 1)
    && q < t.lines && t.InLine(q, x) && Meets(t, chunks, from, first, k, q)
  }

  /**
   The walk copies address `x` to line `q`: no empty chunk before `x` cuts line `q` short, and the line before it is
   cut short or ends before the chunk of `x` does.
   */
  predicate Delivered(t: Rect, chunks: seq<seq<u8>>, q: nat, x: nat) {
    exists k :: 0 <= k < |chunks| && DeliveredBy(t, chunks, 0, 0, k, q, x)
  }

  /** The chunk that the walk stands at. */
  lemma DeliveredHere(t: Rect, chunks: seq<seq<u8>>, k: nat, line: nat, q: nat, x: nat)
    requires k < |chunks| && line < t.lines
    ensures
      DeliveredBy(t, chunks, k, line, k, q, x) <==>
        (q == line && From(t, Offset(chunks, k), line) <= x < To(t, Offset(chunks, k + 1), line))
        || DeliveredBy(t, chunks, NextChunk(t, chunks, k, line), NextLine(t, chunks, k, line), k, q, x)
  {
    if line < q {
      LoMonotone(t, line, q - 1);
      LoMonotone(t, line, q);
    }
    hide Rect.Lo;
  }

  lemma CutShortStep(t: Rect, chunks: seq<seq<u8>>, from: nat, k: nat, line: nat)
    requires from < k <= |chunks|
    ensures CutShort(t, chunks, from, k, line) <==>
            (chunks[from] == [] && t.Lo(line) < Offset(chunks, from)) || CutShort(t, chunks, from + 1, k, line)
  {
    hide Offset, Rect.Lo;
  }

  /** The other chunks: nothing comes of those that the walk has left behind. */
  lemma DeliveredElsewhere(t: Rect, chunks: seq<seq<u8>>, k: nat, line: nat, i: nat, q: nat, x: nat)
    requires k < |chunks| && line < t.lines && i != k
    ensures
      DeliveredBy(t, chunks, k, line, i, q, x) <==>
      DeliveredBy(t, chunks, NextChunk(t, chunks, k, line), NextLine(t, chunks, k, line), i, q, x)
  {
    if k < i < |chunks| && line <= q {
      OffsetMonotone(chunks, k + 1, i);
      CutShortStep(t, chunks, k, i, q);
      if line < q {
        LoMonotone(t, line, q - 1);
        LoMonotone(t, line, q);
        CutShortStep(t, chunks, k, i, q - 1);
      }
      hide Rect.Lo, CutShort;
    }
  }

  /** The walk from any point on copies address `x` to line `q` exactly if the closed form says so. */
  lemma {:induction false} CoveredIff(t: Rect, chunks: seq<seq<u8>>, k: nat, line: nat, q: nat, x: nat)
    requires k <= |chunks| && line <= t.lines && AddressesFit(t, chunks)
    ensures Covered(t, Plan(t, chunks, k, line), q, x) <==> exists i :: DeliveredBy(t, chunks, k, line, i, q, x)
    decreases |chunks| - k + (t.lines - line)
  {
    if k == |chunks| || line == t.lines {
      PlanStops(t, chunks, k, line, q, x);
    } else {
      var k', line' := NextChunk(t, chunks, k, line), NextLine(t, chunks, k, line);
      NoOverflow(t, chunks, k, line);
      PlanStep(t, chunks, k, line, q, x);
      CoveredIff(t, chunks, k', line', q, x);
      DeliveredHere(t, chunks, k, line, q, x);
      hide Plan, Covered, Offset, Rect.Lo, Meets, From, To, TakesChunk, TakesLine, AddressesFit, NextChunk, NextLine,
        DeliveredBy;
      forall i: nat | i != k
        ensures DeliveredBy(t, chunks, k, line, i, q, x) <==> DeliveredBy(t, chunks, k', line', i, q, x)
      {
        DeliveredElsewhere(t, chunks, k, line, i, q, x);
      }
    }
  }

  /** The closed form for the whole walk. */
  lemma DeliveredIff(t: Rect, chunks: seq<seq<u8>>)
    requires AddressesFit(t, chunks)
    ensures forall q, x :: Covered(t, Plan(t, chunks, 0, 0), q, x) <==> Delivered(t, chunks, q, x)
  {
    forall q, x
      ensures Covered(t, Plan(t, chunks, 0, 0), q, x) <==> Delivered(t, chunks, q, x)
    {
      CoveredIff(t, chunks, 0, 0, q, x);
    }
  }

  // ---------------------------------------------------------------------------
  // The bytes of the destination
  // ---------------------------------------------------------------------------

  /** A copy writes destination index `i`. */
  predicate Writes(t: Rect, act: Act, i: nat) {
    act.Copy? && t.DstLo(act.line) + act.col <= i < t.DstLo(act.line) + act.col + |act.data|
  }

  lemma {:induction false} ExecuteFrame(t: Rect, d: seq<u8>, plan: seq<Act>, i: nat)
    requires i < |d| && forall j :: 0 <= j < |plan| ==> !Writes(t, plan[j], i)
    ensures Execute(t, d, plan).0[i] == d[i]
    decreases |plan|
  {
    if plan != [] && plan[0].Copy? {
      var at := t.DstLo(plan[0].line) + plan[0].col;
      if at + |plan[0].data| <= |d| {
        assert !Writes(t, plan[0], i);
        ExecuteFrame(t, Splice(d, at, plan[0].data), plan[1..], i);
      }
    }
  }

  /**
   On every input, Ok or not: a byte that changes lies in the destination interval of some line,
   at a place for which the source has a byte.
   */
  lemma WalkFrame(t: Rect, d: seq<u8>, chunks: seq<seq<u8>>, i: nat)
    requires i < |d| && Walk(t, d, chunks, 0, 0).0[i] != d[i]
    ensures exists line :: 0 <= line < t.lines && Receives(t, Flat(chunks), line, 0, i)
  {
    var plan := Plan(t, chunks, 0, 0);
    if forall j :: 0 <= j < |plan| ==> !Writes(t, plan[j], i) {
      ExecuteFrame(t, d, plan, i);
    }
    var j :| 0 <= j < |plan| && Writes(t, plan[j], i);
    var line := plan[j].line;
    var x := t.Lo(line) + (i - t.DstLo(line));
    assert Covers(t, plan[j], line, x);
    PlanSound(t, chunks, 0, 0, line, x);
    assert Receives(t, Flat(chunks), line, 0, i);
  }

  /** Nothing is left to copy after the last line, or from an address at or beyond the end of the source. */
  lemma {:induction false} CopyLinesPastEnd(t: Rect, flat: seq<u8>, d: seq<u8>, line: nat, from: nat)
    requires from >= |flat| || line >= t.lines
    ensures CopyLines(t, flat, d, line, from) == d
    decreases t.lines - line
  {
    if line < t.lines {
      assert CopyLine(t, flat, d, line, from) == d;
      CopyLinesPastEnd(t, flat, d, line + 1, from);
    }
  }

  /** Two starting addresses before the line are as good as each other. */
  lemma {:induction false} CopyLinesFrom(t: Rect, flat: seq<u8>, d: seq<u8>, line: nat, a: nat, b: nat)
    requires a == b || line >= t.lines || t.lineLen == 0 || Max(a, b) <= t.Lo(line)
    ensures CopyLines(t, flat, d, line, a) == CopyLines(t, flat, d, line, b)
    decreases t.lines - line
  {
    if line < t.lines {
      assert CopyLine(t, flat, d, line, a) == CopyLine(t, flat, d, line, b);
      LoMonotone(t, line, line + 1);
      CopyLinesFrom(t, flat, CopyLine(t, flat, d, line, a), line + 1, a, b);
    }
  }

  /** `d` after the part of `line` that chunk `k` holds has been copied. */
  function Spliced(t: Rect, chunks: seq<seq<u8>>, d: seq<u8>, k: nat, line: nat): (r: seq<u8>)
    requires k < |chunks| && From(t, Offset(chunks, k), line) < To(t, Offset(chunks, k + 1), line)
    requires t.DstLo(line) + (To(t, Offset(chunks, k + 1), line) - t.Lo(line)) <= |d|
    ensures |r| == |d|
  {
    var a, lo, hi := Offset(chunks, k), From(t, Offset(chunks, k), line), To(t, Offset(chunks, k + 1), line);
    Splice(d, t.DstLo(line) + (lo - t.Lo(line)), chunks[k][lo - a..hi - a])
  }

  lemma SpliceAt(d: seq<u8>, at: nat, data: seq<u8>, i: nat)
    requires at + |data| <= |d| && i < |d|
    ensures Splice(d, at, data)[i] == if at <= i < at + |data| then data[i - at] else d[i]
  {
  }

  lemma SplicedAt(t: Rect, chunks: seq<seq<u8>>, d: seq<u8>, k: nat, line: nat)
    requires k < |chunks| && From(t, Offset(chunks, k), line) < To(t, Offset(chunks, k + 1), line)
    requires t.DstLo(line) + (To(t, Offset(chunks, k + 1), line) - t.Lo(line)) <= |d|
    ensures
      var lo, hi := From(t, Offset(chunks, k), line), To(t, Offset(chunks, k + 1), line);
      && hi <= |Flat(chunks)|
      && Spliced(t, chunks, d, k, line) == Splice(d, t.DstLo(line) + (lo - t.Lo(line)), Flat(chunks)[lo..hi])
  {
    var a, b := Offset(chunks, k), Offset(chunks, k + 1);
    ChunkInFlat(chunks, k);
    SliceOfSlice(Flat(chunks), a, b - a, From(t, a, line) - a, To(t, b, line) - From(t, a, line));
  }

  /** One byte after a splice of the source bytes [lo, hi) of `line`, and a copy of the rest of the line. */
  lemma SpliceLineAt(t: Rect, flat: seq<u8>, d: seq<u8>, line: nat, from: nat, hi: nat, i: nat)
    requires var lo := Max(t.Lo(line), from);
             lo < hi <= t.Hi(line) && hi <= |flat| && t.DstLo(line) + (hi - t.Lo(line)) <= |d| && i < |d|
    ensures
      var lo := Max(t.Lo(line), from);
      var d' := Splice(d, t.DstLo(line) + (lo - t.Lo(line)), flat[lo..hi]);
      && CopyLine(t, flat, d', line, hi)[i] == CopyLine(t, flat, d, line, from)[i]
      && (hi == t.Hi(line) ==> d'[i] == CopyLine(t, flat, d, line, from)[i])
  {
    var lo := Max(t.Lo(line), from);
    SpliceAt(d, t.DstLo(line) + (lo - t.Lo(line)), flat[lo..hi], i);
    hide Splice, Rect.Lo, Rect.DstLo;
  }

  /** Splicing in the part of a line that one chunk holds leaves the rest of that line to copy. */
  lemma SpliceLine(t: Rect, chunks: seq<seq<u8>>, d: seq<u8>, k: nat, line: nat)
    requires k < |chunks| && From(t, Offset(chunks, k), line) < To(t, Offset(chunks, k + 1), line)
    requires t.DstLo(line) + (To(t, Offset(chunks, k + 1), line) - t.Lo(line)) <= |d|
    ensures
      var d', hi := Spliced(t, chunks, d, k, line), To(t, Offset(chunks, k + 1), line);
      && CopyLine(t, Flat(chunks), d', line, hi) == CopyLine(t, Flat(chunks), d, line, Offset(chunks, k))
      && (hi == t.Hi(line) ==> d' == CopyLine(t, Flat(chunks), d, line, Offset(chunks, k)))
  {
    SplicedAt(t, chunks, d, k, line);
    hide Spliced, Splice, CopyLine, Flat, Concat, Offset, Rect.Lo, Rect.DstLo;
    var flat, hi, d' := Flat(chunks), To(t, Offset(chunks, k + 1), line), Spliced(t, chunks, d, k, line);
    forall i | 0 <= i < |d|
      ensures CopyLine(t, flat, d', line, hi)[i] == CopyLine(t, flat, d, line, Offset(chunks, k))[i]
      ensures hi == t.Hi(line) ==> d'[i] == CopyLine(t, flat, d, line, Offset(chunks, k))[i]
    {
      SpliceLineAt(t, flat, d, line, Offset(chunks, k), hi, i);
    }
  }

  /** The two ways in which a step of the walk makes progress on the line-by-line copy. */
  lemma CopyStep(t: Rect, chunks: seq<seq<u8>>, d: seq<u8>, k: nat, line: nat)
    requires k < |chunks| && line < t.lines && SafeFrom(t, chunks, k, line)
    requires From(t, Offset(chunks, k), line) < To(t, Offset(chunks, k + 1), line)
    requires t.DstLo(line) + (To(t, Offset(chunks, k + 1), line) - t.Lo(line)) <= |d|
    ensures
      CopyLines(t, Flat(chunks), d, line, Offset(chunks, k)) ==
      CopyLines(t, Flat(chunks), Spliced(t, chunks, d, k, line), NextLine(t, chunks, k, line),
        Offset(chunks, NextChunk(t, chunks, k, line)))
  {
    SpliceLine(t, chunks, d, k, line);
    assert !Splits(t, chunks, k, line);
    LoMonotone(t, line, line + 1);
    var copied := CopyLine(t, Flat(chunks), d, line, Offset(chunks, k));
    CopyLinesFrom(t, Flat(chunks), copied, line + 1, Offset(chunks, k), Offset(chunks, NextChunk(t, chunks, k, line)));
  }

  lemma SkipStep(t: Rect, chunks: seq<seq<u8>>, d: seq<u8>, k: nat, line: nat)
    requires k < |chunks| && line < t.lines && SafeFrom(t, chunks, k, line)
    requires From(t, Offset(chunks, k), line) >= To(t, Offset(chunks, k + 1), line)
    ensures
      CopyLines(t, Flat(chunks), d, line, Offset(chunks, k)) ==
      CopyLines(t, Flat(chunks), d, NextLine(t, chunks, k, line), Offset(chunks, NextChunk(t, chunks, k, line)))
  {
    assert !Splits(t, chunks, k, line);
    if t.Lo(line) >= Offset(chunks, k) {
      CopyLinesFrom(t, Flat(chunks), d, line, Offset(chunks, k), Offset(chunks, k + 1));
    } else {
      assert CopyLine(t, Flat(chunks), d, line, Offset(chunks, k)) == d;
    }
  }

  /** The walk from any point on is the line-by-line copy of what is left. */
  lemma {:induction false} WalkIsCopyLines(t: Rect, chunks: seq<seq<u8>>, d: seq<u8>, k: nat, line: nat)
    requires k <= |chunks| && line <= t.lines
    requires SafeFrom(t, chunks, k, line) && Walk(t, d, chunks, k, line).1 == Ok
    ensures Walk(t, d, chunks, k, line).0 == CopyLines(t, Flat(chunks), d, line, Offset(chunks, k))
    decreases |chunks| - k + (t.lines - line)
  {
    hide Walk, Plan, Execute, Splice, Splits, Flat, CopyLines, Rect.Lo, Rect.DstLo;
    if k == |chunks| || line == t.lines {
      WalkDone(t, d, chunks, k, line);
      CopyLinesPastEnd(t, Flat(chunks), d, line, Offset(chunks, k));
    } else if Offset(chunks, k + 1) > U64_MAX || t.Hi(line) > U64_MAX {
      WalkOverflows(t, d, chunks, k, line);
    } else if From(t, Offset(chunks, k), line) < To(t, Offset(chunks, k + 1), line) {
      WalkCopies(t, d, chunks, k, line);
      CopyStep(t, chunks, d, k, line);
      WalkIsCopyLines(t, chunks, Spliced(t, chunks, d, k, line), NextChunk(t, chunks, k, line),
        NextLine(t, chunks, k, line));
    } else {
      WalkSkips(t, d, chunks, k, line);
      SkipStep(t, chunks, d, k, line);
      WalkIsCopyLines(t, chunks, d, NextChunk(t, chunks, k, line), NextLine(t, chunks, k, line));
    }
  }
}
