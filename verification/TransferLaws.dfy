/**
 Laws of the scatter-gather copy at the level of bytes: when it is the line-by-line copy,
 when it succeeds, and that it does not see how the source is cut into chunks.
 */
module TransferLaws {
  import opened Machine
  import opened Transfer2D
  import opened ScatterGather

  // ---------------------------------------------------------------------------
  // Reading the line-by-line copy byte by byte
  // ---------------------------------------------------------------------------

  /** Destination lines that do not overlap. */
  predicate Disjoint(t: Rect) {
    t.lineLen <= t.dstStride
  }

  lemma {:induction false} DisjointLines(t: Rect, p: nat, q: nat)
    requires Disjoint(t) && p < q
    ensures t.DstLo(p) + t.lineLen <= t.DstLo(q)
  {
    if p < q - 1 {
      DisjointLines(t, p, q - 1);
    }
  }

  /** The one line that can write destination index `i`. */
  ghost predicate InDst(t: Rect, q: nat, i: nat) {
    t.DstLo(q) <= i < t.DstLo(q) + t.lineLen
  }

  /** With disjoint destination lines, each byte of a line lands at its strided place. */
  lemma {:induction false} CopyLinesAt(t: Rect, flat: seq<u8>, d: seq<u8>, line: nat, from: nat, q: nat, i: nat)
    requires Disjoint(t) && line <= q < t.lines && i < |d| && InDst(t, q, i)
    ensures CopyLines(t, flat, d, line, from)[i] ==
            if Receives(t, flat, q, from, i) then flat[t.Lo(q) + (i - t.DstLo(q))] else d[i]
    decreases t.lines - line
  {
    var d' := CopyLine(t, flat, d, line, from);
    if line < q {
      DisjointLines(t, line, q);
      CopyLinesAt(t, flat, d', line + 1, from, q, i);
    } else {
      forall p | line + 1 <= p < t.lines
        ensures !InDst(t, p, i)
      {
        DisjointLines(t, q, p);
      }
      CopyLinesElsewhere(t, flat, d', line + 1, from, i);
    }
  }

  /** A byte outside every destination line keeps its value. */
  lemma {:induction false} CopyLinesElsewhere(t: Rect, flat: seq<u8>, d: seq<u8>, line: nat, from: nat, i: nat)
    requires i < |d| && forall p :: line <= p < t.lines ==> !InDst(t, p, i)
    ensures CopyLines(t, flat, d, line, from)[i] == d[i]
    decreases t.lines - line
  {
    if line < t.lines {
      assert !InDst(t, line, i);
      CopyLinesElsewhere(t, flat, CopyLine(t, flat, d, line, from), line + 1, from, i);
    }
  }

  // ---------------------------------------------------------------------------
  // Success
  // ---------------------------------------------------------------------------

  /** A copy that stays inside a destination of `n` bytes. */
  predicate Fits(t: Rect, act: Act, n: nat) {
    act.Copy? && t.DstLo(act.line) + act.col + |act.data| <= n
  }

  lemma {:induction false} ExecuteOkIff(t: Rect, d: seq<u8>, plan: seq<Act>)
    requires |d| <= ISIZE_MAX
    ensures Execute(t, d, plan).1 == Ok <==> forall j :: 0 <= j < |plan| ==> Fits(t, plan[j], |d|)
    decreases |plan|
  {
    if plan != [] {
      if Fits(t, plan[0], |d|) {
        var d' := Splice(d, t.DstLo(plan[0].line) + plan[0].col, plan[0].data);
        ExecuteOkIff(t, d', plan[1..]);
        assert forall j :: 0 < j < |plan| ==> plan[j] == plan[1..][j - 1];
      }
    }
  }

  /** One step of a plan whose sums fit. */
  lemma PlanUnfolds(t: Rect, chunks: seq<seq<u8>>, k: nat, line: nat)
    requires k <= |chunks| && line <= t.lines && AddressesFit(t, chunks)
    ensures k == |chunks| || line == t.lines ==> Plan(t, chunks, k, line) == []
    ensures k < |chunks| && line < t.lines ==>
              var k', line' := NextChunk(t, chunks, k, line), NextLine(t, chunks, k, line);
              && k <= k' <= |chunks| && line <= line' <= t.lines && k' + line' > k + line
              && Plan(t, chunks, k, line) == Piece(t, chunks[k], Offset(chunks, k), line) + Plan(t, chunks, k', line')
  {
    if k < |chunks| && line < t.lines {
      NoOverflow(t, chunks, k, line);
      hide Offset, Rect.Lo;
    }
  }

  /** A piece is at most one copy, of at least one byte. */
  lemma PieceShape(t: Rect, chunk: seq<u8>, a: nat, line: nat)
    ensures |Piece(t, chunk, a, line)| <= 1
    ensures Piece(t, chunk, a, line) != [] ==>
              var act, lo, hi := Piece(t, chunk, a, line)[0], From(t, a, line), To(t, a + |chunk|, line);
              act.Copy? && act.line == line && lo < hi && act.col == lo - t.Lo(line) && |act.data| == hi - lo
                && act.col + |act.data| <= t.lineLen
  {
    hide Rect.Lo;
  }

  /** Acts of a plan whose sums fit: copies of at least one byte. */
  lemma {:induction false} PlanCopies(t: Rect, chunks: seq<seq<u8>>, k: nat, line: nat, j: nat)
    requires k <= |chunks| && line <= t.lines && AddressesFit(t, chunks)
    requires j < |Plan(t, chunks, k, line)|
    ensures Plan(t, chunks, k, line)[j].Copy? && |Plan(t, chunks, k, line)[j].data| > 0
    decreases |chunks| - k + (t.lines - line)
  {
    hide Plan, Piece, Offset, NextChunk, NextLine, AddressesFit, From, To, Rect.Lo;
    PlanUnfolds(t, chunks, k, line);
    PieceShape(t, chunks[k], Offset(chunks, k), line);
    var piece := Piece(t, chunks[k], Offset(chunks, k), line);
    if j >= |piece| {
      PlanCopies(t, chunks, NextChunk(t, chunks, k, line), NextLine(t, chunks, k, line), j - |piece|);
    }
  }

  /** A copy of a plan stays inside its line, whatever the chunks and strides are. */
  lemma {:induction false} PlanWithin(t: Rect, chunks: seq<seq<u8>>, k: nat, line: nat, j: nat)
    requires k <= |chunks| && line <= t.lines && j < |Plan(t, chunks, k, line)| && Plan(t, chunks, k, line)[j].Copy?
    ensures var act := Plan(t, chunks, k, line)[j]; act.line < t.lines && act.col + |act.data| <= t.lineLen
    decreases |chunks| - k + (t.lines - line)
  {
    if Offset(chunks, k + 1) <= U64_MAX && t.Hi(line) <= U64_MAX {
      var piece := Piece(t, chunks[k], Offset(chunks, k), line);
      if j >= |piece| {
        PlanWithin(t, chunks, NextChunk(t, chunks, k, line), NextLine(t, chunks, k, line), j - |piece|);
      }
    }
  }

  lemma {:induction false} ExecuteInBounds(t: Rect, d: seq<u8>, plan: seq<Act>)
    requires forall j :: 0 <= j < |plan| && plan[j].Copy? ==> Fits(t, plan[j], |d|)
    ensures Execute(t, d, plan).1 in {Ok, Err(CheckedArithmetic)}
    decreases |plan|
  {
    if plan != [] && plan[0].Copy? {
      var d' := Splice(d, t.DstLo(plan[0].line) + plan[0].col, plan[0].data);
      assert forall j :: 0 < j < |plan| ==> plan[j] == plan[1..][j - 1];
      ExecuteInBounds(t, d', plan[1..]);
    }
  }

  /** Whether a copy succeeds, and with which error it fails, depends on the length of the destination alone. */
  lemma {:induction false} OutcomeByLength(t: Rect, d: seq<u8>, e: seq<u8>, plan: seq<Act>)
    requires |d| == |e|
    ensures Execute(t, d, plan).1 == Execute(t, e, plan).1
    decreases |plan|
  {
    if plan != [] && plan[0].Copy? {
      var at := t.DstLo(plan[0].line) + plan[0].col;
      if at + |plan[0].data| <= |d| {
        OutcomeByLength(t, Splice(d, at, plan[0].data), Splice(e, at, plan[0].data), plan[1..]);
      }
    }
  }

  /**
   When all lines of the rectangle lie inside the destination, a copy can fail only because a source address overflows.
   */
  lemma LinesInBounds(t: Rect, chunks: seq<seq<u8>>, d: seq<u8>)
    requires forall line :: 0 <= line < t.lines ==> t.DstLo(line) + t.lineLen <= |d|
    ensures Walk(t, d, chunks, 0, 0).1 in {Ok, Err(CheckedArithmetic)}
  {
    var plan := Plan(t, chunks, 0, 0);
    forall j | 0 <= j < |plan| && plan[j].Copy?
      ensures Fits(t, plan[j], |d|)
    {
      PlanWithin(t, chunks, 0, 0, j);
    }
    ExecuteInBounds(t, d, plan);
  }

  /** Every byte that the source holds for the rectangle has its place in a destination of `n` bytes. */
  ghost predicate Holds(t: Rect, chunks: seq<seq<u8>>, n: nat) {
    forall q, x :: Wanted(t, chunks, 0, 0, q, x) ==> t.DstOf(q, x) < n
  }

  /** When no chunk splits a line, the copy succeeds exactly when the destination holds what there is to copy. */
  lemma OkIffHolds(t: Rect, chunks: seq<seq<u8>>, d: seq<u8>)
    requires Safe(t, chunks) && AddressesFit(t, chunks) && |d| <= ISIZE_MAX
    ensures Walk(t, d, chunks, 0, 0).1 == Ok <==> Holds(t, chunks, |d|)
  {
    var plan := Plan(t, chunks, 0, 0);
    ExecuteOkIff(t, d, plan);
    if Walk(t, d, chunks, 0, 0).1 == Ok {
      forall q, x | Wanted(t, chunks, 0, 0, q, x)
        ensures t.DstOf(q, x) < |d|
      {
        PlanComplete(t, chunks, 0, 0, q, x);
        var j :| 0 <= j < |plan| && Covers(t, plan[j], q, x);
        assert Fits(t, plan[j], |d|);
      }
    }
    if Holds(t, chunks, |d|) {
      forall j | 0 <= j < |plan|
        ensures Fits(t, plan[j], |d|)
      {
        PlanCopies(t, chunks, 0, 0, j);
        var q := plan[j].line;
        var x := t.Lo(q) + plan[j].col + |plan[j].data| - 1;
        assert Covers(t, plan[j], q, x);
        PlanSound(t, chunks, 0, 0, q, x);
        assert t.DstOf(q, x) < |d|;
      }
    }
  }

  /** When no chunk splits a line, an Ok copy is the line-by-line copy out of the concatenated chunks. */
  lemma OkIsCopyLines(t: Rect, chunks: seq<seq<u8>>, d: seq<u8>)
    requires Safe(t, chunks) && Walk(t, d, chunks, 0, 0).1 == Ok
    ensures Walk(t, d, chunks, 0, 0).0 == CopyLines(t, Flat(chunks), d, 0, 0)
  {
    WalkIsCopyLines(t, chunks, d, 0, 0);
  }

  // ---------------------------------------------------------------------------
  // The order of the copies, and which error comes first
  // ---------------------------------------------------------------------------

  /** Copy `a` is of an earlier line than `b`, or further left in the same line. */
  predicate Before(a: Act, b: Act) {
    a.Copy? && b.Copy? && (a.line < b.line || (a.line == b.line && a.col + |a.data| <= b.col))
  }

  /** A copy that lies ahead of the walk is of this line or a later one, and takes its bytes from this chunk on. */
  lemma PlanAhead(t: Rect, chunks: seq<seq<u8>>, k: nat, line: nat, j: nat)
    requires k <= |chunks| && line <= t.lines && AddressesFit(t, chunks) && j < |Plan(t, chunks, k, line)|
    ensures
      var act := Plan(t, chunks, k, line)[j];
      act.Copy? && |act.data| > 0 && line <= act.line && Offset(chunks, k) <= t.Lo(act.line) + act.col
  {
    hide Rect.Lo, Rect.DstLo, Offset, AddressesFit, Plan;
    PlanCopies(t, chunks, k, line, j);
    var act := Plan(t, chunks, k, line)[j];
    assert Covers(t, act, act.line, t.Lo(act.line) + act.col);
    PlanSound(t, chunks, k, line, act.line, t.Lo(act.line) + act.col);
  }

  /** The copies of a plan come line by line, and in each line from left to right. */
  lemma {:induction false} PlanOrdered(t: Rect, chunks: seq<seq<u8>>, k: nat, line: nat, i: nat, j: nat)
    requires k <= |chunks| && line <= t.lines && AddressesFit(t, chunks) && i < j < |Plan(t, chunks, k, line)|
    ensures Before(Plan(t, chunks, k, line)[i], Plan(t, chunks, k, line)[j])
    decreases |chunks| - k + (t.lines - line)
  {
    hide Plan, Piece, AddressesFit, Rect.Lo, Rect.DstLo, Offset, NextChunk, NextLine;
    PlanUnfolds(t, chunks, k, line);
    PieceShape(t, chunks[k], Offset(chunks, k), line);
    var piece := Piece(t, chunks[k], Offset(chunks, k), line);
    var k', line' := NextChunk(t, chunks, k, line), NextLine(t, chunks, k, line);
    if i < |piece| {
      PlanAhead(t, chunks, k', line', j - |piece|);
      PieceThenNext(t, chunks, k, line);
    } else {
      PlanOrdered(t, chunks, k', line', i - |piece|, j - |piece|);
    }
  }

  /** After a copy the walk has left the line, or the chunk. */
  lemma PieceThenNext(t: Rect, chunks: seq<seq<u8>>, k: nat, line: nat)
    requires k < |chunks| && Piece(t, chunks[k], Offset(chunks, k), line) != []
    ensures
      var act := Piece(t, chunks[k], Offset(chunks, k), line)[0];
      NextLine(t, chunks, k, line) > line
      || (NextChunk(t, chunks, k, line) == k + 1 && t.Lo(line) + act.col + |act.data| <= Offset(chunks, k + 1))
  {
    hide Rect.Lo;
  }

  /** The first copy that does not fit decides the error. */
  lemma {:induction false} ExecuteError(t: Rect, d: seq<u8>, plan: seq<Act>, j: nat)
    requires |d| <= ISIZE_MAX && j < |plan| && plan[j].Copy? && !Fits(t, plan[j], |d|)
    requires forall i :: 0 <= i < j ==> Fits(t, plan[i], |d|)
    ensures Execute(t, d, plan).1 == Err(if t.DstLo(plan[j].line) + plan[j].col > U64_MAX then CheckedArithmetic
            else InvalidIovec)
    decreases |plan|
  {
    hide Rect.DstLo;
    if j > 0 {
      assert Fits(t, plan[0], |d|);
      var d' := Splice(d, t.DstLo(plan[0].line) + plan[0].col, plan[0].data);
      assert forall i :: 0 <= i < j - 1 ==> plan[1..][i] == plan[i + 1];
      ExecuteError(t, d', plan[1..], j - 1);
    }
  }

  lemma {:induction false} FirstMisfit(t: Rect, plan: seq<Act>, n: nat, m: nat) returns (j: nat)
    requires m < |plan| && !Fits(t, plan[m], n)
    ensures j <= m && !Fits(t, plan[j], n) && forall i :: 0 <= i < j ==> Fits(t, plan[i], n)
  {
    if i :| 0 <= i < m && !Fits(t, plan[i], n) {
      j := FirstMisfit(t, plan, n, i);
    } else {
      j := m;
    }
  }

  /** Some byte that there is to copy in line `q` has no place in a destination of `n` bytes. */
  ghost predicate Misfit(t: Rect, chunks: seq<seq<u8>>, n: nat, q: nat) {
    exists x :: Wanted(t, chunks, 0, 0, q, x) && t.DstOf(q, x) >= n
  }

  /** A copy that does not fit has a byte that does not. */
  lemma MisfitLine(t: Rect, chunks: seq<seq<u8>>, n: nat, j: nat)
    requires AddressesFit(t, chunks) && j < |Plan(t, chunks, 0, 0)| && !Fits(t, Plan(t, chunks, 0, 0)[j], n)
    ensures Plan(t, chunks, 0, 0)[j].Copy? && Misfit(t, chunks, n, Plan(t, chunks, 0, 0)[j].line)
  {
    PlanCopies(t, chunks, 0, 0, j);
    hide Rect.Lo, Rect.DstLo, Offset, AddressesFit, Plan;
    var act := Plan(t, chunks, 0, 0)[j];
    var x := t.Lo(act.line) + act.col + |act.data| - 1;
    assert Covers(t, act, act.line, x);
    PlanSound(t, chunks, 0, 0, act.line, x);
    assert t.DstOf(act.line, x) >= n;
  }

  /** The copy that first does not fit is of the first line that does not fit. */
  lemma FirstMisfitLine(t: Rect, chunks: seq<seq<u8>>, n: nat, q: nat) returns (j: nat)
    requires Safe(t, chunks) && AddressesFit(t, chunks) && Misfit(t, chunks, n, q)
             && forall p :: 0 <= p < q ==> !Misfit(t, chunks, n, p)
    ensures
      var plan := Plan(t, chunks, 0, 0);
      j < |plan| && !Fits(t, plan[j], n) && plan[j].Copy? && plan[j].line == q
        && forall i :: 0 <= i < j ==> Fits(t, plan[i], n)
  {
    hide Rect.Lo, Rect.DstLo, Plan, AddressesFit, Safe;
    var plan := Plan(t, chunks, 0, 0);
    var x :| Wanted(t, chunks, 0, 0, q, x) && t.DstOf(q, x) >= n;
    SafeDelivers(t, chunks, q, x);
    var m :| 0 <= m < |plan| && Covers(t, plan[m], q, x);
    j := FirstMisfit(t, plan, n, m);
    MisfitLine(t, chunks, n, j);
    if j < m {
      PlanOrdered(t, chunks, 0, 0, j, m);
    }
  }

  lemma SafeDelivers(t: Rect, chunks: seq<seq<u8>>, q: nat, x: nat)
    requires Safe(t, chunks) && AddressesFit(t, chunks) && Wanted(t, chunks, 0, 0, q, x)
    ensures Covered(t, Plan(t, chunks, 0, 0), q, x)
  {
    PlanComplete(t, chunks, 0, 0, q, x);
  }

  /** The copy that first does not fit overflows only if its line starts beyond all addresses. */
  lemma MisfitStart(t: Rect, chunks: seq<seq<u8>>, n: nat, j: nat)
    requires Safe(t, chunks) && AddressesFit(t, chunks) && n <= ISIZE_MAX
    requires j < |Plan(t, chunks, 0, 0)| && Plan(t, chunks, 0, 0)[j].Copy?
    requires forall i :: 0 <= i < j ==> Fits(t, Plan(t, chunks, 0, 0)[i], n)
    ensures var act := Plan(t, chunks, 0, 0)[j]; t.DstLo(act.line) + act.col > U64_MAX <==> t.DstLo(act.line) > U64_MAX
  {
    PlanAhead(t, chunks, 0, 0, j);
    hide Rect.Lo, Rect.DstLo, Plan, AddressesFit, Safe;
    var plan := Plan(t, chunks, 0, 0);
    var act := plan[j];
    if act.col > 0 {
      // The byte to the left has been copied before.
      var x := t.Lo(act.line) + act.col - 1;
      assert Covers(t, act, act.line, x + 1);
      PlanSound(t, chunks, 0, 0, act.line, x + 1);
      SafeDelivers(t, chunks, act.line, x);
      var m :| 0 <= m < |plan| && Covers(t, plan[m], act.line, x);
      if j < m {
        PlanOrdered(t, chunks, 0, 0, j, m);
      }
      assert Fits(t, plan[m], n);
    }
  }

  /** When no chunk splits a line, the first line that does not fit decides the error, however the source is cut. */
  lemma ErrorOfFirstLine(t: Rect, chunks: seq<seq<u8>>, d: seq<u8>, q: nat)
    requires Safe(t, chunks) && AddressesFit(t, chunks) && |d| <= ISIZE_MAX
    requires Misfit(t, chunks, |d|, q) && forall p :: 0 <= p < q ==> !Misfit(t, chunks, |d|, p)
    ensures Walk(t, d, chunks, 0, 0).1 == Err(if t.DstLo(q) > U64_MAX then CheckedArithmetic else InvalidIovec)
  {
    hide Rect.Lo, Rect.DstLo, Plan, AddressesFit, Safe, Execute;
    var j := FirstMisfitLine(t, chunks, |d|, q);
    MisfitStart(t, chunks, |d|, j);
    ExecuteError(t, d, Plan(t, chunks, 0, 0), j);
  }

  lemma {:induction false} FirstMisfitting(t: Rect, chunks: seq<seq<u8>>, n: nat, m: nat) returns (q: nat)
    requires Misfit(t, chunks, n, m)
    ensures Misfit(t, chunks, n, q) && forall p :: 0 <= p < q ==> !Misfit(t, chunks, n, p)
  {
    hide Misfit;
    if p :| 0 <= p < m && Misfit(t, chunks, n, p) {
      q := FirstMisfitting(t, chunks, n, p);
    } else {
      q := m;
    }
  }

  /**
   Two ways of cutting the same source bytes that split no line give the same outcome, the kind of error included, and
   on Ok the same destination.
   */
  lemma ChunkingIndependence(t: Rect, chunks: seq<seq<u8>>, others: seq<seq<u8>>, d: seq<u8>)
    requires Flat(chunks) == Flat(others)
    requires Safe(t, chunks) && Safe(t, others) && AddressesFit(t, chunks) && |d| <= ISIZE_MAX
    ensures Walk(t, d, chunks, 0, 0).1 == Walk(t, d, others, 0, 0).1
    ensures Walk(t, d, chunks, 0, 0).1 == Ok ==> Walk(t, d, chunks, 0, 0) == Walk(t, d, others, 0, 0)
  {
    hide Walk, Safe, Rect.Lo, Rect.DstLo;
    assert Offset(chunks, |chunks|) == Offset(others, |others|);
    assert forall q, x :: Wanted(t, chunks, 0, 0, q, x) <==> Wanted(t, others, 0, 0, q, x);
    if Holds(t, chunks, |d|) {
      OkIffHolds(t, chunks, d);
      OkIffHolds(t, others, d);
      OkIsCopyLines(t, chunks, d);
      OkIsCopyLines(t, others, d);
    } else {
      var m, x :| Wanted(t, chunks, 0, 0, m, x) && t.DstOf(m, x) >= |d|;
      var q := FirstMisfitting(t, chunks, |d|, m);
      assert forall p :: Misfit(t, chunks, |d|, p) <==> Misfit(t, others, |d|, p);
      ErrorOfFirstLine(t, chunks, d, q);
      ErrorOfFirstLine(t, others, d, q);
    }
  }

  // ---------------------------------------------------------------------------
  // The exact condition
  // ---------------------------------------------------------------------------

  /** The place of a byte that is not delivered is not written at all. */
  lemma LostByteUnwritten(t: Rect, chunks: seq<seq<u8>>, d: seq<u8>, q: nat, x: nat)
    requires Disjoint(t) && Wanted(t, chunks, 0, 0, q, x) && !Covered(t, Plan(t, chunks, 0, 0), q, x)
    requires t.DstOf(q, x) < |d|
    ensures Walk(t, d, chunks, 0, 0).0[t.DstOf(q, x)] == d[t.DstOf(q, x)]
  {
    var plan, i := Plan(t, chunks, 0, 0), t.DstOf(q, x);
    hide Plan, Wanted;
    forall j | 0 <= j < |plan|
      ensures !Writes(t, plan[j], i)
    {
      if Writes(t, plan[j], i) {
        var p := plan[j].line;
        var y := t.Lo(p) + (i - t.DstLo(p));
        assert Covers(t, plan[j], p, y);
        PlanSound(t, chunks, 0, 0, p, y);
        SameLine(t, chunks, q, x, p, y);
      }
    }
    ExecuteFrame(t, d, plan, i);
  }

  /** With disjoint destination lines, two wanted bytes with one destination are the same byte. */
  lemma SameLine(t: Rect, chunks: seq<seq<u8>>, q: nat, x: nat, p: nat, y: nat)
    requires Disjoint(t) && Wanted(t, chunks, 0, 0, q, x) && Wanted(t, chunks, 0, 0, p, y)
    requires t.DstOf(q, x) == t.DstOf(p, y)
    ensures p == q && x == y
  {
    if p < q { DisjointLines(t, p, q); }
    if q < p { DisjointLines(t, q, p); }
  }

  /** A lost byte shows: some destination ends up different from the line-by-line copy. */
  lemma LostByteShows(t: Rect, chunks: seq<seq<u8>>, n: nat, q: nat, x: nat) returns (d: seq<u8>)
    requires Disjoint(t) && Wanted(t, chunks, 0, 0, q, x) && !Covered(t, Plan(t, chunks, 0, 0), q, x)
    requires t.DstOf(q, x) < n
    ensures |d| == n && Walk(t, d, chunks, 0, 0).0 != CopyLines(t, Flat(chunks), d, 0, 0)
  {
    hide Walk, CopyLines, Flat, Plan, Covered, Rect.Lo, Rect.DstLo;
    var i, byte := t.DstOf(q, x), Flat(chunks)[x];
    d := seq(n, _ => if byte == 0 then 1 else 0);
    LostByteUnwritten(t, chunks, d, q, x);
    CopyLinesAt(t, Flat(chunks), d, 0, 0, q, i);
    assert Walk(t, d, chunks, 0, 0).0[i] != CopyLines(t, Flat(chunks), d, 0, 0)[i];
  }

  /**
   When destination lines do not overlap and the destination has room, the walk is the line-by-line copy, for every
   content of the destination, exactly when no chunk splits a line: for every source stride, every list of chunks (empty
   ones included) and any amount of source.
   */
  lemma RefinesIffSafe(t: Rect, chunks: seq<seq<u8>>, n: nat)
    requires AddressesFit(t, chunks) && n <= ISIZE_MAX && Disjoint(t) && Holds(t, chunks, n)
    ensures Safe(t, chunks) <==>
            forall d: seq<u8> :: |d| == n ==> Walk(t, d, chunks, 0, 0) == (CopyLines(t, Flat(chunks), d, 0, 0), Ok)
  {
    if Safe(t, chunks) {
      forall d: seq<u8> | |d| == n
        ensures Walk(t, d, chunks, 0, 0) == (CopyLines(t, Flat(chunks), d, 0, 0), Ok)
      {
        OkIffHolds(t, chunks, d);
        OkIsCopyLines(t, chunks, d);
      }
    } else {
      DeliversAllIffSafe(t, chunks);
      var q, x :| Wanted(t, chunks, 0, 0, q, x) && !Covered(t, Plan(t, chunks, 0, 0), q, x);
      var d := LostByteShows(t, chunks, n, q, x);
    }
  }

  // ---------------------------------------------------------------------------
  // What the condition shuts out
  // ---------------------------------------------------------------------------

  lemma WholeSlice(s: seq<u8>, i: nat, j: nat)
    requires i == 0 && j == |s|
    ensures s[i..j] == s
  {
  }

  /** A chunk that lies wholly inside a line, and does not end it, is copied and left behind. */
  lemma WalkTakesChunk(t: Rect, d: seq<u8>, chunks: seq<seq<u8>>, k: nat, line: nat)
    requires k < |chunks| && line < t.lines && chunks[k] != [] && t.Lo(line) <= Offset(chunks, k)
    requires Offset(chunks, k + 1) < t.Hi(line) <= U64_MAX
             && t.DstLo(line) + (Offset(chunks, k + 1) - t.Lo(line)) <= |d| <= ISIZE_MAX
    ensures
      Walk(t, d, chunks, k, line) ==
      Walk(t, Splice(d, t.DstLo(line) + (Offset(chunks, k) - t.Lo(line)), chunks[k]), chunks, k + 1, line)
  {
    assert Offset(chunks, k + 1) == Offset(chunks, k) + |chunks[k]|;
    hide Walk, Splice, Offset, Rect.Lo, Rect.DstLo;
    var a, b := Offset(chunks, k), Offset(chunks, k + 1);
    assert From(t, a, line) == a && To(t, b, line) == b && NextChunk(t, chunks, k, line) == k + 1
           && NextLine(t, chunks, k, line) == line;
    hide From, To, NextChunk, NextLine;
    WholeSlice(chunks[k], a - a, b - a);
    WalkCopies(t, d, chunks, k, line);
  }

  lemma TwoPartAddresses(front: seq<u8>, back: seq<u8>)
    ensures var chunks := [front, [], back];
            && Offset(chunks, 0) == 0 && Offset(chunks, 1) == |front| && Offset(chunks, 2) == |front|
            && Offset(chunks, 3) == |front| + |back| && Flat(chunks) == front + back
  {
    var chunks := [front, [], back];
    assert Concat(chunks, 0) == [] && Concat(chunks, 1) == front && Concat(chunks, 2) == front;
  }

  lemma SplicedFront(front: seq<u8>, d: seq<u8>)
    requires |front| <= |d|
    ensures Splice(d, 0, front) == front + d[|front|..]
  {
  }

  /** An empty chunk inside a line: everything behind it is left out of that line, and the copy still succeeds. */
  lemma EmptyChunkEndsLine(front: seq<u8>, back: seq<u8>, d: seq<u8>)
    requires front != [] && back != [] && |front| + |back| <= |d| <= ISIZE_MAX
    ensures
      var t := Rect(0, 0, 0, |d|, |front| + |back|, 1);
      var chunks := [front, [], back];
      && !Safe(t, chunks) && Flat(chunks) == front + back
      && Walk(t, d, chunks, 0, 0) == (front + d[|front|..], Ok)
  {
    var t := Rect(0, 0, 0, |d|, |front| + |back|, 1);
    var chunks := [front, [], back];
    var d' := front + d[|front|..];
    TwoPartAddresses(front, back);
    assert t.Lo(0) == 0 && t.Hi(0) == |front| + |back| && t.DstLo(0) == 0;
    hide Walk, Rect.Lo, Rect.DstLo, Offset, Flat, Splice;
    assert Splits(t, chunks, 1, 0);
    WalkTakesChunk(t, d, chunks, 0, 0);
    SplicedFront(front, d);
    WalkSkips(t, d', chunks, 1, 0);
    WalkDone(t, d', chunks, 1, 1);
  }

  /** Two source lines of four bytes that start two bytes apart. */
  const OVERLAPPING: Rect := Rect(0, 2, 0, 4, 4, 2)

  lemma OverlappingAddresses(chunks: seq<seq<u8>>)
    requires |chunks| == 2 && |chunks[0]| == 4 && |chunks[1]| == 2
    ensures OVERLAPPING.Lo(0) == 0 && OVERLAPPING.Lo(1) == 2 && OVERLAPPING.DstLo(0) == 0 && OVERLAPPING.DstLo(1) == 4
    ensures Offset(chunks, 0) == 0 && Offset(chunks, 1) == 4 && Offset(chunks, 2) == 6
    ensures Flat(chunks) == chunks[0] + chunks[1]
  {
    assert Concat(chunks, 0) == [] && Concat(chunks, 1) == chunks[0];
  }

  /** Source lines that overlap: the second one loses the two bytes that it shares with the first. */
  lemma ShortStrideSkips(chunks: seq<seq<u8>>, d: seq<u8>)
    requires |chunks| == 2 && |chunks[0]| == 4 && |chunks[1]| == 2 && |d| == 8
    ensures !Safe(OVERLAPPING, chunks)
    ensures Walk(OVERLAPPING, d, chunks, 0, 0) == (chunks[0] + d[4..6] + chunks[1], Ok)
  {
    var t := OVERLAPPING;
    OverlappingAddresses(chunks);
    hide Walk, Rect.Lo, Rect.DstLo, Offset, Splice, Flat;
    assert Splits(t, chunks, 0, 0);
    WalkCopies(t, d, chunks, 0, 0);
    assert chunks[0][0..4] == chunks[0];
    var d' := Splice(d, 0, chunks[0]);
    WalkCopies(t, d', chunks, 1, 1);
    assert chunks[1][0..2] == chunks[1];
    WalkDone(t, Splice(d', 6, chunks[1]), chunks, 2, 2);
    SplicedTwice(chunks[0], chunks[1], d);
  }

  lemma SplicedTwice(front: seq<u8>, back: seq<u8>, d: seq<u8>)
    requires |front| == 4 && |back| == 2 && |d| == 8
    ensures Splice(Splice(d, 0, front), 6, back) == front + d[4..6] + back
  {
  }
}
