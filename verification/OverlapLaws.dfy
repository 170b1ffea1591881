/**
 The scatter-gather copy when destination lines may overlap: exactly when it is the line-by-line copy.
 Only the last line that wants a destination byte needs to bring its own byte there.
 */
module OverlapLaws {
  import opened Machine
  import opened Transfer2D
  import opened ScatterGather
  import opened TransferLaws

  // ---------------------------------------------------------------------------
  // The same cut
  // ---------------------------------------------------------------------------

  /** Chunks of the same sizes, whatever is in them. */
  predicate SameCut(chunks: seq<seq<u8>>, others: seq<seq<u8>>) {
    |chunks| == |others| && forall k :: 0 <= k < |chunks| ==> |chunks[k]| == |others[k]|
  }

  lemma {:induction false} SameOffset(chunks: seq<seq<u8>>, others: seq<seq<u8>>, k: nat)
    requires SameCut(chunks, others) && k <= |chunks|
    ensures Offset(chunks, k) == Offset(others, k)
  {
    if k > 0 {
      SameOffset(chunks, others, k - 1);
    }
  }

  /** What the walk delivers depends on the sizes of the chunks alone. */
  lemma {:induction false} SameCovered(t: Rect, chunks: seq<seq<u8>>, others: seq<seq<u8>>, k: nat, line: nat, q: nat,
                                       x: nat)
    requires SameCut(chunks, others) && AddressesFit(t, chunks) && AddressesFit(t, others) && k <= |chunks|
             && line <= t.lines
    ensures Covered(t, Plan(t, chunks, k, line), q, x) <==> Covered(t, Plan(t, others, k, line), q, x)
    decreases |chunks| - k + (t.lines - line)
  {
    PlanUnfolds(t, chunks, k, line);
    hide Plan, Covered, Offset, Rect.Lo;
    if k == |chunks| || line == t.lines {
      PlanStops(t, chunks, k, line, q, x);
      PlanStops(t, others, k, line, q, x);
    } else {
      SameOffset(chunks, others, k);
      SameOffset(chunks, others, k + 1);
      NoOverflow(t, chunks, k, line);
      NoOverflow(t, others, k, line);
      PlanStep(t, chunks, k, line, q, x);
      PlanStep(t, others, k, line, q, x);
      SameCovered(t, chunks, others, NextChunk(t, chunks, k, line), NextLine(t, chunks, k, line), q, x);
    }
  }

  lemma SameDelivered(t: Rect, chunks: seq<seq<u8>>, others: seq<seq<u8>>, q: nat, x: nat)
    requires SameCut(chunks, others) && AddressesFit(t, chunks) && AddressesFit(t, others)
    ensures Delivered(t, chunks, q, x) <==> Delivered(t, others, q, x)
  {
    hide Plan, Covered, Delivered, AddressesFit;
    SameCovered(t, chunks, others, 0, 0, q, x);
    DeliveredIff(t, chunks);
    DeliveredIff(t, others);
  }

  /** `chunks` cut alike, all bytes zero except the one at address `x`. */
  function Marked(chunks: seq<seq<u8>>, x: nat): (r: seq<seq<u8>>)
    ensures |r| == |chunks|
  {
    seq(|chunks|, k requires 0 <= k < |chunks| => MarkedChunk(|chunks[k]|, Offset(chunks, k), x))
  }

  function MarkedChunk(size: nat, start: nat, x: nat): (r: seq<u8>)
    ensures |r| == size
  {
    seq(size, j requires 0 <= j < size => if start + j == x then 1 else 0)
  }

  lemma MarkedAlike(chunks: seq<seq<u8>>, x: nat)
    ensures SameCut(chunks, Marked(chunks, x))
    ensures forall k, j :: 0 <= k < |chunks| && 0 <= j < |chunks[k]| ==>
            Marked(chunks, x)[k][j] == if Offset(chunks, k) + j == x then 1 else 0
  {
    hide Offset;
  }

  lemma {:induction false} MarkedConcat(chunks: seq<seq<u8>>, x: nat, k: nat, y: nat)
    requires k <= |chunks| && y < Offset(chunks, k)
    ensures SameCut(chunks, Marked(chunks, x)) && Offset(Marked(chunks, x), k) == Offset(chunks, k)
    ensures Concat(Marked(chunks, x), k)[y] == if y == x then 1 else 0
  {
    var others := Marked(chunks, x);
    MarkedAlike(chunks, x);
    hide Marked;
    SameOffset(chunks, others, k);
    SameOffset(chunks, others, k - 1);
    assert Offset(chunks, k) == Offset(chunks, k - 1) + |chunks[k - 1]|;
    assert Concat(others, k) == Concat(others, k - 1) + others[k - 1];
    hide Offset, Concat;
    if y < Offset(chunks, k - 1) {
      MarkedConcat(chunks, x, k - 1, y);
    } else {
      assert Concat(others, k)[y] == others[k - 1][y - Offset(chunks, k - 1)];
    }
  }

  /** The one byte of the marked chunks that is not zero. */
  lemma MarkedFlat(chunks: seq<seq<u8>>, x: nat, y: nat)
    requires y < Offset(chunks, |chunks|)
    ensures SameCut(chunks, Marked(chunks, x)) && |Flat(Marked(chunks, x))| == Offset(chunks, |chunks|)
    ensures Flat(Marked(chunks, x))[y] == if y == x then 1 else 0
  {
    hide Offset, Concat, Marked;
    MarkedConcat(chunks, x, |chunks|, y);
  }

  // ---------------------------------------------------------------------------
  // The last copy that writes a byte
  // ---------------------------------------------------------------------------

  /** The bytes of a copy are source bytes at their addresses. */
  lemma {:induction false} PlanData(t: Rect, chunks: seq<seq<u8>>, k: nat, line: nat, j: nat, c: nat)
    requires k <= |chunks| && line <= t.lines && AddressesFit(t, chunks)
    requires j < |Plan(t, chunks, k, line)| && Plan(t, chunks, k, line)[j].Copy?
             && c < |Plan(t, chunks, k, line)[j].data|
    ensures
      var act := Plan(t, chunks, k, line)[j];
      t.Lo(act.line) + act.col + c < |Flat(chunks)| && act.data[c] == Flat(chunks)[t.Lo(act.line) + act.col + c]
    decreases |chunks| - k + (t.lines - line)
  {
    hide Plan, Piece, AddressesFit, Rect.Lo, Offset, Flat, NextChunk, NextLine;
    PlanUnfolds(t, chunks, k, line);
    var piece := Piece(t, chunks[k], Offset(chunks, k), line);
    if j < |piece| {
      PieceShape(t, chunks[k], Offset(chunks, k), line);
      PieceData(t, chunks, k, line, c);
    } else {
      PlanData(t, chunks, NextChunk(t, chunks, k, line), NextLine(t, chunks, k, line), j - |piece|, c);
    }
  }

  lemma SliceByte(chunk: seq<u8>, flat: seq<u8>, a: nat, lo: nat, hi: nat, c: nat)
    requires a + |chunk| <= |flat| && flat[a..a + |chunk|] == chunk && a <= lo <= hi <= a + |chunk| && c < hi - lo
    ensures chunk[lo - a..hi - a][c] == flat[lo + c]
  {
    assert chunk[lo - a + c] == flat[a..a + |chunk|][lo - a + c];
  }

  lemma PieceByte(t: Rect, chunk: seq<u8>, a: nat, flat: seq<u8>, line: nat, c: nat)
    requires a + |chunk| <= |flat| && flat[a..a + |chunk|] == chunk && Piece(t, chunk, a, line) != []
    requires var act := Piece(t, chunk, a, line)[0]; act.Copy? && c < |act.data|
    ensures
      var act := Piece(t, chunk, a, line)[0];
      var y := t.Lo(line) + act.col + c;
      y < |flat| && act.data[c] == flat[y]
  {
    hide Rect.Lo;
    var lo, hi := From(t, a, line), To(t, a + |chunk|, line);
    assert a <= lo <= hi <= a + |chunk|;
    hide From, To;
    SliceByte(chunk, flat, a, lo, hi, c);
  }

  lemma PieceData(t: Rect, chunks: seq<seq<u8>>, k: nat, line: nat, c: nat)
    requires k < |chunks| && Piece(t, chunks[k], Offset(chunks, k), line) != []
    requires var act := Piece(t, chunks[k], Offset(chunks, k), line)[0]; act.Copy? && c < |act.data|
    ensures
      var act := Piece(t, chunks[k], Offset(chunks, k), line)[0];
      var y := t.Lo(line) + act.col + c;
      y < |Flat(chunks)| && act.data[c] == Flat(chunks)[y]
  {
    assert Offset(chunks, k + 1) == Offset(chunks, k) + |chunks[k]|;
    hide Rect.Lo, Flat, Concat, Offset, Piece;
    ChunkInFlat(chunks, k);
    PieceByte(t, chunks[k], Offset(chunks, k), Flat(chunks), line, c);
  }

  /** The last copy that writes a byte decides it. */
  lemma {:induction false} ExecuteLast(t: Rect, d: seq<u8>, plan: seq<Act>, j: nat, i: nat)
    requires |d| <= ISIZE_MAX && i < |d| && j < |plan| && Writes(t, plan[j], i)
    requires forall m :: 0 <= m < |plan| ==> Fits(t, plan[m], |d|)
    requires forall m :: j < m < |plan| ==> !Writes(t, plan[m], i)
    ensures Execute(t, d, plan).0[i] == plan[j].data[i - (t.DstLo(plan[j].line) + plan[j].col)]
    decreases |plan|
  {
    hide Rect.DstLo;
    assert Fits(t, plan[0], |d|);
    var at := t.DstLo(plan[0].line) + plan[0].col;
    var d' := Splice(d, at, plan[0].data);
    assert forall m :: 0 <= m < |plan| - 1 ==> plan[1..][m] == plan[m + 1];
    if j == 0 {
      SpliceAt(d, at, plan[0].data, i);
      ExecuteFrame(t, d', plan[1..], i);
    } else {
      ExecuteLast(t, d', plan[1..], j - 1, i);
    }
  }

  lemma {:induction false} LastWriter(t: Rect, plan: seq<Act>, i: nat, m: nat) returns (j: nat)
    requires m < |plan| && Writes(t, plan[m], i)
    ensures m <= j < |plan| && Writes(t, plan[j], i) && forall k :: j < k < |plan| ==> !Writes(t, plan[k], i)
    decreases |plan| - m
  {
    if k :| m < k < |plan| && Writes(t, plan[k], i) {
      j := LastWriter(t, plan, i, k);
    } else {
      j := m;
    }
  }

  // ---------------------------------------------------------------------------
  // The last line that wants a byte
  // ---------------------------------------------------------------------------

  lemma {:induction false} CopyLinesNone(t: Rect, flat: seq<u8>, d: seq<u8>, line: nat, i: nat)
    requires i < |d| && forall p :: line <= p < t.lines ==> !Receives(t, flat, p, 0, i)
    ensures CopyLines(t, flat, d, line, 0)[i] == d[i]
    decreases t.lines - line
  {
    if line < t.lines {
      hide Receives;
      CopyLinesNone(t, flat, CopyLine(t, flat, d, line, 0), line + 1, i);
    }
  }

  lemma {:induction false} CopyLinesLast(t: Rect, flat: seq<u8>, d: seq<u8>, line: nat, q: nat, i: nat)
    requires i < |d| && line <= q < t.lines && Receives(t, flat, q, 0, i)
    requires forall p :: q < p < t.lines ==> !Receives(t, flat, p, 0, i)
    ensures CopyLines(t, flat, d, line, 0)[i] == flat[t.Lo(q) + (i - t.DstLo(q))]
    decreases t.lines - line
  {
    hide Rect.Lo, Rect.DstLo;
    var d' := CopyLine(t, flat, d, line, 0);
    if line < q {
      CopyLinesLast(t, flat, d', line + 1, q, i);
    } else {
      CopyLinesNone(t, flat, d', line + 1, i);
    }
  }

  /** Line `q` wants address `x`, and no later line wants anything for the same destination byte. */
  ghost predicate LastWants(t: Rect, chunks: seq<seq<u8>>, q: nat, x: nat) {
    && Wanted(t, chunks, 0, 0, q, x)
    && forall p, y :: q < p && Wanted(t, chunks, 0, 0, p, y) ==> t.DstOf(p, y) != t.DstOf(q, x)
  }

  /** Some line brings address `x` to destination byte `i`. */
  ghost predicate Brought(t: Rect, chunks: seq<seq<u8>>, x: nat, i: nat) {
    exists p :: Delivered(t, chunks, p, x) && t.DstOf(p, x) == i
  }

  /** All that is copied has room in `n` bytes. */
  ghost predicate CopiesFit(t: Rect, chunks: seq<seq<u8>>, n: nat) {
    forall q, x :: Delivered(t, chunks, q, x) ==> t.DstOf(q, x) < n
  }

  /**
   The exact condition: what is copied has room, and each destination byte is brought what the last line that wants
   it wants there.  It speaks of the rectangle and of the sizes of the chunks, not of what is in them.
   */
  ghost predicate LastWins(t: Rect, chunks: seq<seq<u8>>, n: nat) {
    && CopiesFit(t, chunks, n)
    && forall q, x :: LastWants(t, chunks, q, x) && t.DstOf(q, x) < n ==> Brought(t, chunks, x, t.DstOf(q, x))
  }

  lemma WantedIsReceived(t: Rect, chunks: seq<seq<u8>>, q: nat, i: nat)
    requires q < t.lines
    ensures Receives(t, Flat(chunks), q, 0, i) <==>
            t.DstLo(q) <= i && Wanted(t, chunks, 0, 0, q, t.Lo(q) + (i - t.DstLo(q)))
  {
    hide Rect.Lo, Rect.DstLo;
  }

  lemma {:induction false} LastReceiver(t: Rect, flat: seq<u8>, i: nat, m: nat) returns (q: nat)
    requires m < t.lines && Receives(t, flat, m, 0, i)
    ensures m <= q < t.lines && Receives(t, flat, q, 0, i)
            && forall p :: q < p < t.lines ==> !Receives(t, flat, p, 0, i)
    decreases t.lines - m
  {
    if p :| m < p < t.lines && Receives(t, flat, p, 0, i) {
      q := LastReceiver(t, flat, i, p);
    } else {
      q := m;
    }
  }

  /** How far line `q` is moved on its way from the source to the destination, compared with line `p`. */
  lemma {:induction false} Shift(t: Rect, p: nat, q: nat)
    requires p <= q
    ensures t.DstLo(q) - t.Lo(q) == t.DstLo(p) - t.Lo(p) + (q - p) * (t.dstStride - t.srcStride)
  {
    if p < q {
      Shift(t, p, q - 1);
      assert (q - p) * (t.dstStride - t.srcStride) ==
             (q - 1 - p) * (t.dstStride - t.srcStride) + (t.dstStride - t.srcStride);
    }
  }

  /** If two lines bring one address to one place, every line that brings anything there brings that address. */
  lemma SameForAll(t: Rect, p: nat, q: nat, r: nat, x: nat, y: nat)
    requires p != q && t.InLine(p, x) && t.InLine(q, x) && t.InLine(r, y)
    requires t.DstOf(p, x) == t.DstOf(q, x) == t.DstOf(r, y)
    ensures x == y
  {
    hide Rect.Lo, Rect.DstLo;
    var stride := t.dstStride - t.srcStride;
    if p < q { Shift(t, p, q); } else { Shift(t, q, p); }
    NoShift(if p < q then q - p else p - q, stride);
    if p < r { Shift(t, p, r); } else { Shift(t, r, p); }
    assert stride == 0;
    assert (r - p) * stride == 0 && (p - r) * stride == 0;
  }

  lemma NoShift(n: nat, stride: int)
    requires n > 0 && n * stride == 0
    ensures stride == 0
  {
  }

  /** A copy that writes `i` brings a wanted address there. */
  lemma WriterDelivers(t: Rect, chunks: seq<seq<u8>>, j: nat, i: nat) returns (y: nat)
    requires AddressesFit(t, chunks) && j < |Plan(t, chunks, 0, 0)| && Writes(t, Plan(t, chunks, 0, 0)[j], i)
    ensures
      var act := Plan(t, chunks, 0, 0)[j];
      && act.line < t.lines && Delivered(t, chunks, act.line, y) && Covers(t, act, act.line, y)
      && t.InLine(act.line, y) && t.DstOf(act.line, y) == i && Receives(t, Flat(chunks), act.line, 0, i)
      && y < |Flat(chunks)| && act.data[i - (t.DstLo(act.line) + act.col)] == Flat(chunks)[y]
  {
    DeliveredIff(t, chunks);
    hide Plan, Rect.Lo, Rect.DstLo, Flat, AddressesFit, Delivered, Receives;
    var act := Plan(t, chunks, 0, 0)[j];
    y := t.Lo(act.line) + (i - t.DstLo(act.line));
    assert Covers(t, act, act.line, y);
    PlanSound(t, chunks, 0, 0, act.line, y);
    WantedIsReceived(t, chunks, act.line, i);
    var c := i - (t.DstLo(act.line) + act.col);
    assert y == t.Lo(act.line) + act.col + c;
    PlanData(t, chunks, 0, 0, j, c);
  }

  // ---------------------------------------------------------------------------
  // The condition is enough
  // ---------------------------------------------------------------------------

  lemma FitsIff(t: Rect, chunks: seq<seq<u8>>, d: seq<u8>)
    requires AddressesFit(t, chunks) && |d| <= ISIZE_MAX
    ensures Walk(t, d, chunks, 0, 0).1 == Ok <==> CopiesFit(t, chunks, |d|)
  {
    var plan := Plan(t, chunks, 0, 0);
    ExecuteOkIff(t, d, plan);
    DeliveredIff(t, chunks);
    hide Plan, Rect.Lo, Rect.DstLo, AddressesFit, Execute, Delivered;
    if CopiesFit(t, chunks, |d|) {
      forall j | 0 <= j < |plan|
        ensures Fits(t, plan[j], |d|)
      {
        PlanCopies(t, chunks, 0, 0, j);
        var x := t.Lo(plan[j].line) + plan[j].col + |plan[j].data| - 1;
        assert Covers(t, plan[j], plan[j].line, x);
        PlanSound(t, chunks, 0, 0, plan[j].line, x);
        assert t.DstOf(plan[j].line, x) < |d|;
      }
    }
    if Walk(t, d, chunks, 0, 0).1 == Ok {
      forall q, x | Delivered(t, chunks, q, x)
        ensures t.InLine(q, x) && t.DstOf(q, x) < |d|
      {
        var j :| 0 <= j < |plan| && Covers(t, plan[j], q, x);
        assert Fits(t, plan[j], |d|);
      }
    }
  }

  /** A destination byte that no line wants. */
  lemma UnwantedAt(t: Rect, chunks: seq<seq<u8>>, d: seq<u8>, i: nat)
    requires AddressesFit(t, chunks) && i < |d| && forall p :: 0 <= p < t.lines ==> !Receives(t, Flat(chunks), p, 0, i)
    ensures Walk(t, d, chunks, 0, 0).0[i] == CopyLines(t, Flat(chunks), d, 0, 0)[i]
  {
    var plan := Plan(t, chunks, 0, 0);
    hide Plan, Flat, Rect.Lo, Rect.DstLo, AddressesFit, Execute, CopyLines, Receives;
    forall j | 0 <= j < |plan|
      ensures !Writes(t, plan[j], i)
    {
      if Writes(t, plan[j], i) {
        var y := WriterDelivers(t, chunks, j, i);
      }
    }
    ExecuteFrame(t, d, plan, i);
    CopyLinesNone(t, Flat(chunks), d, 0, i);
  }

  lemma BroughtCopied(t: Rect, chunks: seq<seq<u8>>, x: nat, i: nat) returns (p: nat, a: nat)
    requires AddressesFit(t, chunks) && Brought(t, chunks, x, i)
    ensures
      var plan := Plan(t, chunks, 0, 0);
      && t.InLine(p, x) && t.DstOf(p, x) == i && a < |plan| && Covers(t, plan[a], p, x) && Writes(t, plan[a], i)
  {
    DeliveredIff(t, chunks);
    p :| Delivered(t, chunks, p, x) && t.DstOf(p, x) == i;
    hide Plan, Rect.Lo, Rect.DstLo, AddressesFit, Delivered;
    a :| 0 <= a < |Plan(t, chunks, 0, 0)| && Covers(t, Plan(t, chunks, 0, 0)[a], p, x);
  }

  /** The last copy to write a byte that the last line is brought: it brings the same address. */
  lemma LastBrings(t: Rect, chunks: seq<seq<u8>>, q: nat, x: nat, i: nat) returns (j: nat)
    requires AddressesFit(t, chunks) && q < t.lines && t.InLine(q, x) && t.DstOf(q, x) == i && Brought(t, chunks, x, i)
    requires forall p :: q < p < t.lines ==> !Receives(t, Flat(chunks), p, 0, i)
    ensures
      var plan := Plan(t, chunks, 0, 0);
      && j < |plan| && Writes(t, plan[j], i) && (forall k :: j < k < |plan| ==> !Writes(t, plan[k], i))
      && x < |Flat(chunks)| && plan[j].data[i - (t.DstLo(plan[j].line) + plan[j].col)] == Flat(chunks)[x]
  {
    hide Plan, Flat, Rect.Lo, Rect.DstLo, AddressesFit, Receives, Brought, Delivered;
    var plan := Plan(t, chunks, 0, 0);
    var p, a := BroughtCopied(t, chunks, x, i);
    j := LastWriter(t, plan, i, a);
    var y := WriterDelivers(t, chunks, j, i);
    if p != q {
      SameForAll(t, p, q, plan[j].line, x, y);
    } else if a < j {
      PlanOrdered(t, chunks, 0, 0, a, j);
    }
  }

  lemma WantedAt(t: Rect, chunks: seq<seq<u8>>, d: seq<u8>, i: nat, m: nat)
    requires AddressesFit(t, chunks) && |d| <= ISIZE_MAX && LastWins(t, chunks, |d|)
    requires i < |d| && m < t.lines && Receives(t, Flat(chunks), m, 0, i)
    ensures Walk(t, d, chunks, 0, 0).0[i] == CopyLines(t, Flat(chunks), d, 0, 0)[i]
  {
    hide Plan, Flat, Rect.Lo, Rect.DstLo, AddressesFit, Execute, CopyLines, Receives, Wanted;
    var plan, flat := Plan(t, chunks, 0, 0), Flat(chunks);
    var q := LastReceiver(t, flat, i, m);
    var x := LastReceiverWants(t, chunks, q, i);
    var j := LastBrings(t, chunks, q, x, i);
    FitsIff(t, chunks, d);
    ExecuteOkIff(t, d, plan);
    ExecuteLast(t, d, plan, j, i);
    CopyLinesLast(t, flat, d, 0, q, i);
  }

  lemma LastReceiverWants(t: Rect, chunks: seq<seq<u8>>, q: nat, i: nat) returns (x: nat)
    requires q < t.lines && Receives(t, Flat(chunks), q, 0, i)
    requires forall p :: q < p < t.lines ==> !Receives(t, Flat(chunks), p, 0, i)
    ensures LastWants(t, chunks, q, x) && t.InLine(q, x) && t.DstOf(q, x) == i && x == t.Lo(q) + (i - t.DstLo(q))
  {
    hide Flat, Rect.Lo, Rect.DstLo, Receives;
    WantedIsReceived(t, chunks, q, i);
    x := t.Lo(q) + (i - t.DstLo(q));
    forall p, y | q < p && Wanted(t, chunks, 0, 0, p, y)
      ensures t.DstOf(p, y) != i
    {
      WantedIsReceived(t, chunks, p, i);
    }
  }

  lemma LastWinsRefines(t: Rect, chunks: seq<seq<u8>>, d: seq<u8>)
    requires AddressesFit(t, chunks) && |d| <= ISIZE_MAX && LastWins(t, chunks, |d|)
    ensures Walk(t, d, chunks, 0, 0) == (CopyLines(t, Flat(chunks), d, 0, 0), Ok)
  {
    FitsIff(t, chunks, d);
    hide Walk, CopyLines, LastWins, AddressesFit, Flat;
    forall i | 0 <= i < |d|
      ensures Walk(t, d, chunks, 0, 0).0[i] == CopyLines(t, Flat(chunks), d, 0, 0)[i]
    {
      if m :| 0 <= m < t.lines && Receives(t, Flat(chunks), m, 0, i) {
        WantedAt(t, chunks, d, i, m);
      } else {
        UnwantedAt(t, chunks, d, i);
      }
    }
    assert Walk(t, d, chunks, 0, 0).0 == CopyLines(t, Flat(chunks), d, 0, 0);
  }

  // ---------------------------------------------------------------------------
  // The condition is needed
  // ---------------------------------------------------------------------------

  lemma SameWanted(t: Rect, chunks: seq<seq<u8>>, others: seq<seq<u8>>)
    requires SameCut(chunks, others)
    ensures AddressesFit(t, chunks) <==> AddressesFit(t, others)
    ensures forall q, x :: Wanted(t, chunks, 0, 0, q, x) <==> Wanted(t, others, 0, 0, q, x)
  {
    SameOffset(chunks, others, |chunks|);
    SameOffset(chunks, others, 0);
    hide Rect.Lo, Offset;
  }

  /** The line-by-line copy puts what the last line wants where it wants it. */
  lemma LastWantsGets(t: Rect, chunks: seq<seq<u8>>, d: seq<u8>, q: nat, x: nat)
    requires LastWants(t, chunks, q, x) && t.DstOf(q, x) < |d|
    ensures x < |Flat(chunks)| && CopyLines(t, Flat(chunks), d, 0, 0)[t.DstOf(q, x)] == Flat(chunks)[x]
  {
    hide Flat, Offset, Rect.Lo, Rect.DstLo, CopyLines, Receives;
    var i := t.DstOf(q, x);
    WantedIsReceived(t, chunks, q, i);
    forall p | q < p < t.lines
      ensures !Receives(t, Flat(chunks), p, 0, i)
    {
      WantedIsReceived(t, chunks, p, i);
    }
    CopyLinesLast(t, Flat(chunks), d, 0, q, i);
  }

  lemma SameLastWants(t: Rect, chunks: seq<seq<u8>>, others: seq<seq<u8>>, q: nat, x: nat)
    requires SameCut(chunks, others) && LastWants(t, chunks, q, x)
    ensures LastWants(t, others, q, x)
  {
    SameWanted(t, chunks, others);
    hide Wanted, Rect.Lo, Rect.DstLo;
    forall p, y | q < p && Wanted(t, others, 0, 0, p, y)
      ensures t.DstOf(p, y) != t.DstOf(q, x)
    {
      assert Wanted(t, chunks, 0, 0, p, y);
    }
  }

  /** The line-by-line copy of the marked chunks puts the mark where the last line wants it. */
  lemma MarkCopied(t: Rect, chunks: seq<seq<u8>>, d: seq<u8>, q: nat, x: nat)
    requires LastWants(t, chunks, q, x) && t.DstOf(q, x) < |d|
    ensures CopyLines(t, Flat(Marked(chunks, x)), d, 0, 0)[t.DstOf(q, x)] == 1
  {
    hide Flat, Marked, Offset, Rect.Lo, Rect.DstLo, CopyLines;
    MarkedFlat(chunks, x, x);
    hide LastWants;
    SameLastWants(t, chunks, Marked(chunks, x), q, x);
    LastWantsGets(t, Marked(chunks, x), d, q, x);
  }

  /** Where the mark is not brought, every copy of the marked chunks brings a zero. */
  lemma WriterBringsZero(t: Rect, chunks: seq<seq<u8>>, x: nat, i: nat, j: nat)
    requires SameCut(chunks, Marked(chunks, x)) && AddressesFit(t, chunks) && AddressesFit(t, Marked(chunks, x))
             && !Brought(t, chunks, x, i)
    requires j < |Plan(t, Marked(chunks, x), 0, 0)| && Writes(t, Plan(t, Marked(chunks, x), 0, 0)[j], i)
    ensures
      var act := Plan(t, Marked(chunks, x), 0, 0)[j];
      act.data[i - (t.DstLo(act.line) + act.col)] == 0
  {
    hide Plan, Flat, Marked, Offset, Rect.Lo, Rect.DstLo, AddressesFit, Receives, Covers;
    var others := Marked(chunks, x);
    var y := WriterDelivers(t, others, j, i);
    SameDelivered(t, chunks, others, Plan(t, others, 0, 0)[j].line, y);
    SameOffset(chunks, others, |chunks|);
    MarkedFlat(chunks, x, y);
  }

  /** The walk over the marked chunks leaves a zero where the mark is not brought. */
  lemma MarkLost(t: Rect, chunks: seq<seq<u8>>, d: seq<u8>, x: nat, i: nat)
    requires AddressesFit(t, chunks) && AddressesFit(t, Marked(chunks, x)) && SameCut(chunks, Marked(chunks, x))
    requires i < |d| <= ISIZE_MAX && d[i] == 0 && !Brought(t, chunks, x, i)
    requires Walk(t, d, Marked(chunks, x), 0, 0).1 == Ok
    ensures Walk(t, d, Marked(chunks, x), 0, 0).0[i] == 0
  {
    var plan := Plan(t, Marked(chunks, x), 0, 0);
    ExecuteOkIff(t, d, plan);
    hide Plan, Marked, Rect.DstLo, AddressesFit, Execute, Brought, SameCut;
    if a :| 0 <= a < |plan| && Writes(t, plan[a], i) {
      var j := LastWriter(t, plan, i, a);
      WriterBringsZero(t, chunks, x, i, j);
      ExecuteLast(t, d, plan, j, i);
    } else {
      ExecuteFrame(t, d, plan, i);
    }
  }

  /** A byte that is not brought shows, if it is the only one that is not zero. */
  lemma NotBroughtShows(t: Rect, chunks: seq<seq<u8>>, n: nat, q: nat, x: nat)
    returns (others: seq<seq<u8>>, d: seq<u8>)
    requires AddressesFit(t, chunks) && n <= ISIZE_MAX
    requires LastWants(t, chunks, q, x) && t.DstOf(q, x) < n && !Brought(t, chunks, x, t.DstOf(q, x))
    ensures SameCut(chunks, others) && |d| == n
    ensures Walk(t, d, others, 0, 0) != (CopyLines(t, Flat(others), d, 0, 0), Ok)
  {
    others, d := Marked(chunks, x), seq(n, _ => 0);
    MarkedAlike(chunks, x);
    SameWanted(t, chunks, others);
    MarkCopied(t, chunks, d, q, x);
    hide Walk, CopyLines, Marked, Flat, AddressesFit, Brought, LastWants;
    if Walk(t, d, others, 0, 0).1 == Ok {
      MarkLost(t, chunks, d, x, t.DstOf(q, x));
    }
  }

  lemma {:induction false} SameLastWins(t: Rect, chunks: seq<seq<u8>>, others: seq<seq<u8>>, n: nat)
    requires SameCut(chunks, others) && AddressesFit(t, chunks) && LastWins(t, chunks, n)
    ensures AddressesFit(t, others) && LastWins(t, others, n)
  {
    SameWanted(t, chunks, others);
    hide Offset, Rect.Lo, Rect.DstLo, Wanted, AddressesFit, Meets;
    forall q, x
      ensures Delivered(t, chunks, q, x) <==> Delivered(t, others, q, x)
    {
      SameDelivered(t, chunks, others, q, x);
    }
  }

  /**
   Whatever the strides are, overlapping destination lines included: the walk is the line-by-line copy, for all contents
   of the source chunks and of a destination of `n` bytes, exactly when every destination byte is brought what the last
   line that wants it wants, and what is copied has room.
   */
  lemma RefinesIffLastWins(t: Rect, chunks: seq<seq<u8>>, n: nat)
    requires AddressesFit(t, chunks) && n <= ISIZE_MAX
    ensures LastWins(t, chunks, n) <==>
            forall others, d :: SameCut(chunks, others) && |d| == n ==>
              Walk(t, d, others, 0, 0) == (CopyLines(t, Flat(others), d, 0, 0), Ok)
  {
    hide Walk, CopyLines, Flat, AddressesFit;
    if LastWins(t, chunks, n) {
      forall others, d | SameCut(chunks, others) && |d| == n
        ensures Walk(t, d, others, 0, 0) == (CopyLines(t, Flat(others), d, 0, 0), Ok)
      {
        SameLastWins(t, chunks, others, n);
        LastWinsRefines(t, others, d);
      }
    } else if !CopiesFit(t, chunks, n) {
      var d: seq<u8> := seq(n, _ => 0);
      FitsIff(t, chunks, d);
      assert SameCut(chunks, chunks);
      assert Walk(t, d, chunks, 0, 0) != (CopyLines(t, Flat(chunks), d, 0, 0), Ok);
    } else {
      var q, x :| LastWants(t, chunks, q, x) && t.DstOf(q, x) < n && !Brought(t, chunks, x, t.DstOf(q, x));
      var others, d := NotBroughtShows(t, chunks, n, q, x);
    }
  }

  // ---------------------------------------------------------------------------
  // How it relates to chunks that split no line
  // ---------------------------------------------------------------------------

  /** When no chunk splits a line, each line brings its own bytes. */
  lemma SafeLastWins(t: Rect, chunks: seq<seq<u8>>, n: nat)
    requires AddressesFit(t, chunks) && Safe(t, chunks) && CopiesFit(t, chunks, n)
    ensures LastWins(t, chunks, n)
  {
    DeliveredIff(t, chunks);
    hide Plan, AddressesFit, Safe, Rect.Lo, Rect.DstLo, CopiesFit, Delivered;
    forall q, x | LastWants(t, chunks, q, x) && t.DstOf(q, x) < n
      ensures Brought(t, chunks, x, t.DstOf(q, x))
    {
      SafeDelivers(t, chunks, q, x);
    }
  }

  /** When destination lines do not overlap, nothing less will do. */
  lemma DisjointLastWinsIff(t: Rect, chunks: seq<seq<u8>>, n: nat)
    requires AddressesFit(t, chunks) && Disjoint(t) && Holds(t, chunks, n)
    ensures LastWins(t, chunks, n) <==> Safe(t, chunks)
  {
    DeliveredIff(t, chunks);
    hide Plan, AddressesFit, Safe, Rect.Lo, Rect.DstLo, Meets;
    forall q, x | Delivered(t, chunks, q, x)
      ensures t.InLine(q, x) && t.DstOf(q, x) < n
    {
      PlanSound(t, chunks, 0, 0, q, x);
    }
    if Safe(t, chunks) {
      SafeLastWins(t, chunks, n);
    } else if LastWins(t, chunks, n) {
      forall q, x | Wanted(t, chunks, 0, 0, q, x)
        ensures Covered(t, Plan(t, chunks, 0, 0), q, x)
      {
        OwnLineBrings(t, chunks, n, q, x);
      }
      DeliversAllIffSafe(t, chunks);
    }
  }

  lemma OwnLineBrings(t: Rect, chunks: seq<seq<u8>>, n: nat, q: nat, x: nat)
    requires AddressesFit(t, chunks) && Disjoint(t) && LastWins(t, chunks, n) && Wanted(t, chunks, 0, 0, q, x)
             && t.DstOf(q, x) < n
    ensures Covered(t, Plan(t, chunks, 0, 0), q, x)
  {
    DeliveredIff(t, chunks);
    hide Plan, Rect.Lo, Rect.DstLo, Disjoint, Covered, Meets, AddressesFit;
    forall p, y | q < p && Wanted(t, chunks, 0, 0, p, y)
      ensures t.DstOf(p, y) != t.DstOf(q, x)
    {
      if t.DstOf(p, y) == t.DstOf(q, x) {
        SameLine(t, chunks, q, x, p, y);
      }
    }
    assert Brought(t, chunks, x, t.DstOf(q, x));
    var p :| Delivered(t, chunks, p, x) && t.DstOf(p, x) == t.DstOf(q, x);
    PlanSound(t, chunks, 0, 0, p, x);
    SameLine(t, chunks, q, x, p, x);
  }

  /** Two lines of two bytes that go to the same place. */
  const STACKED: Rect := Rect(0, 2, 0, 0, 2, 2)

  lemma StackedAddresses(chunks: seq<seq<u8>>)
    requires |chunks| == 3 && |chunks[0]| == 1 && chunks[1] == [] && |chunks[2]| == 3
    ensures STACKED.Lo(0) == 0 && STACKED.Lo(1) == 2 && STACKED.DstLo(0) == 0 && STACKED.DstLo(1) == 0
    ensures Offset(chunks, 0) == 0 && Offset(chunks, 1) == 1 && Offset(chunks, 2) == 1 && Offset(chunks, 3) == 4
    ensures Flat(chunks) == chunks[0] + chunks[2]
  {
    assert Concat(chunks, 0) == [] && Concat(chunks, 1) == chunks[0] && Concat(chunks, 2) == chunks[0];
  }

  lemma StackedReceives(flat: seq<u8>, p: nat, i: nat)
    requires |flat| == 4 && p < 2
    ensures STACKED.Lo(p) == 2 * p && STACKED.DstLo(p) == 0
    ensures Receives(STACKED, flat, p, 0, i) <==> i < 2
  {
    assert STACKED.Lo(0) == 0 && STACKED.DstLo(0) == 0;
  }

  /** The line-by-line copy of four bytes to the same two places: the second line wins. */
  lemma StackedCopy(flat: seq<u8>, d: seq<u8>)
    requires |flat| == 4 && |d| >= 2
    ensures CopyLines(STACKED, flat, d, 0, 0) == flat[2..] + d[2..]
  {
    hide Rect.Lo, Rect.DstLo, CopyLines, Receives;
    var copied := CopyLines(STACKED, flat, d, 0, 0);
    forall i | 0 <= i < |d|
      ensures copied[i] == if i < 2 then flat[2 + i] else d[i]
    {
      StackedReceives(flat, 0, i);
      StackedReceives(flat, 1, i);
      if i < 2 {
        CopyLinesLast(STACKED, flat, d, 0, 1, i);
      } else {
        CopyLinesNone(STACKED, flat, d, 0, i);
      }
    }
  }

  lemma StackedUnsafe(chunks: seq<seq<u8>>)
    requires |chunks| == 3 && |chunks[0]| == 1 && chunks[1] == [] && |chunks[2]| == 3
    ensures !Safe(STACKED, chunks)
  {
    StackedAddresses(chunks);
    hide Offset, Rect.Lo, Flat;
    assert Splits(STACKED, chunks, 1, 0);
  }

  /** The walk after the first chunk: the empty one ends the first line, and the last one brings the second. */
  lemma StackedEnd(chunks: seq<seq<u8>>, d: seq<u8>)
    requires |chunks| == 3 && |chunks[0]| == 1 && chunks[1] == [] && |chunks[2]| == 3 && 2 <= |d| <= ISIZE_MAX
    ensures Walk(STACKED, d, chunks, 1, 0) == (chunks[2][1..3] + d[2..], Ok)
  {
    StackedAddresses(chunks);
    hide Walk, Offset, Rect.Lo, Rect.DstLo, Flat;
    WalkSkips(STACKED, d, chunks, 1, 0);
    WalkSkips(STACKED, d, chunks, 1, 1);
    WalkCopies(STACKED, d, chunks, 2, 1);
    var d' := chunks[2][1..3] + d[2..];
    assert Splice(d, 0, chunks[2][1..3]) == d';
    WalkDone(STACKED, d', chunks, 3, 2);
  }

  lemma FrontTwice(first: seq<u8>, second: seq<u8>, d: seq<u8>)
    requires |first| <= |second| <= |d|
    ensures second + Splice(d, 0, first)[|second|..] == second + d[|second|..]
  {
  }

  lemma StackedWalk(chunks: seq<seq<u8>>, d: seq<u8>)
    requires |chunks| == 3 && |chunks[0]| == 1 && chunks[1] == [] && |chunks[2]| == 3 && 2 <= |d| <= ISIZE_MAX
    ensures Walk(STACKED, d, chunks, 0, 0) == (chunks[2][1..3] + d[2..], Ok)
  {
    StackedAddresses(chunks);
    hide Walk, Offset, Rect.Lo, Rect.DstLo, Flat, Splice;
    WalkTakesChunk(STACKED, d, chunks, 0, 0);
    StackedEnd(chunks, Splice(d, 0, chunks[0]));
    FrontTwice(chunks[0], chunks[2][1..3], d);
  }

  /**
   With overlapping destination lines a chunk may split a line and do no harm: a later line makes up for what is lost.
   */
  lemma SplitMadeUpFor(chunks: seq<seq<u8>>, d: seq<u8>)
    requires |chunks| == 3 && |chunks[0]| == 1 && chunks[1] == [] && |chunks[2]| == 3 && 2 <= |d| <= ISIZE_MAX
    ensures !Safe(STACKED, chunks)
    ensures Walk(STACKED, d, chunks, 0, 0) == (CopyLines(STACKED, Flat(chunks), d, 0, 0), Ok)
  {
    hide Walk, CopyLines, Safe, Offset, Rect.Lo, Rect.DstLo, Flat;
    StackedUnsafe(chunks);
    StackedWalk(chunks, d);
    StackedAddresses(chunks);
    assert Flat(chunks)[2..] == chunks[2][1..3];
    StackedCopy(Flat(chunks), d);
  }
}
