/**
 * `Alignment.smithWaterman`: strand-aware Smith-Waterman local alignment of a
 * gene sequence against a reference. The inner `align` fills a
 * (|reference|+1) x (|sequence|+1) score matrix, remembers the last cell in
 * row-major order holding the maximum, and traces back from it by prepending
 * to two gapped lists; the outer function runs it against the reference and
 * against the reversed reference and keeps the better run.
 */
module SmithWaterman {
  import opened Wrappers
  import opened Genes
  import opened Scoring

  /** `[a, b, c, d].max()`. */
  function Max4(a: int, b: int, c: int, d: int): int
  {
    var ab := if a >= b then a else b;
    var cd := if c >= d then c else d;
    if ab >= cd then ab else cd
  }

  /** Max4 is the numeric maximum: at least each argument, and one of them. */
  lemma Max4IsMax(a: int, b: int, c: int, d: int)
    ensures Max4(a, b, c, d) >= a && Max4(a, b, c, d) >= b && Max4(a, b, c, d) >= c && Max4(a, b, c, d) >= d
    ensures Max4(a, b, c, d) in {a, b, c, d}
  {
  }

  /**
   * Cell (i, j) of the score matrix: row i follows the reference, column j
   * the sequence. Row 0 and column 0 are 0; every other cell is the best of
   * restarting (0), the diagonal step scoring reference[i-1] against
   * sequence[j-1], and a gap step from the cell above or to the left.
   */
  function Cell(sequence: seq<Gene>, reference: seq<Gene>, o: Options, i: nat, j: nat): (v: int)
    requires i <= |reference| && j <= |sequence|
    ensures v >= 0
    decreases i + j
  {
    if i == 0 || j == 0 then 0
    else Max4(0,
              Cell(sequence, reference, o, i - 1, j - 1) + ComputeScore(reference[i - 1], sequence[j - 1], o.accessor, o.scores),
              Cell(sequence, reference, o, i - 1, j) + o.scores.gap,
              Cell(sequence, reference, o, i, j - 1) + o.scores.gap)
  }

  predicate Interior(sequence: seq<Gene>, reference: seq<Gene>, i: int, j: int)
  {
    1 <= i <= |reference| && 1 <= j <= |sequence|
  }

  /** Cell (i, j) is visited before row i', column j' in the row-major fill. */
  predicate Before(i: int, j: int, i': int, j': int)
  {
    i < i' || (i == i' && j < j')
  }

  /** `m` is the largest value in the matrix (0 for an empty matrix). */
  ghost predicate IsMatrixMax(sequence: seq<Gene>, reference: seq<Gene>, o: Options, m: int)
  {
    m >= 0 &&
    (forall i, j :: Interior(sequence, reference, i, j) ==> Cell(sequence, reference, o, i, j) <= m) &&
    (m == 0 || exists i, j :: Interior(sequence, reference, i, j) && Cell(sequence, reference, o, i, j) == m)
  }

  /**
   * Among the interior cells visited before (i, j), (iMax, jMax) is the last
   * one holding the largest value `max`, as the fill loop's `>=` test keeps
   * it; it stays (0, 0) with `max` 0 while nothing has been visited.
   */
  ghost predicate LastMaxBefore(sequence: seq<Gene>, reference: seq<Gene>, o: Options,
                                max: int, iMax: nat, jMax: nat, i: int, j: int)
  {
    iMax <= |reference| && jMax <= |sequence| &&
    (forall r, c :: Interior(sequence, reference, r, c) && Before(r, c, i, j) ==>
       Cell(sequence, reference, o, r, c) <= max) &&
    (forall r, c :: Interior(sequence, reference, r, c) && Before(r, c, i, j) && Before(iMax, jMax, r, c) ==>
       Cell(sequence, reference, o, r, c) < max) &&
    (if |sequence| > 0 && |reference| > 0 && Before(1, 1, i, j)
     then Interior(sequence, reference, iMax, jMax) && Before(iMax, jMax, i, j) && Cell(sequence, reference, o, iMax, jMax) == max
     else iMax == 0 && jMax == 0 && max == 0)
  }

  /** (iMax, jMax) is the last cell in row-major order holding the matrix maximum `max`. */
  ghost predicate IsLastMax(sequence: seq<Gene>, reference: seq<Gene>, o: Options, max: int, iMax: nat, jMax: nat)
  {
    LastMaxBefore(sequence, reference, o, max, iMax, jMax, |reference| + 1, 0)
  }

  lemma LastMaxIsMax(sequence: seq<Gene>, reference: seq<Gene>, o: Options, max: int, iMax: nat, jMax: nat)
    requires IsLastMax(sequence, reference, o, max, iMax, jMax)
    ensures IsMatrixMax(sequence, reference, o, max)
    ensures |sequence| == 0 || |reference| == 0 ==> max == 0 && iMax == 0 && jMax == 0
    ensures |sequence| > 0 && |reference| > 0 ==> Interior(sequence, reference, iMax, jMax)
  {
    if |sequence| > 0 && |reference| > 0 {
      assert Interior(sequence, reference, 1, 1) && Before(1, 1, |reference| + 1, 0);
    }
  }

  /** Before row i+1 means the same, for interior cells, as before column |sequence|+1 of row i. */
  lemma NextRow(sequence: seq<Gene>, reference: seq<Gene>, o: Options, max: int, iMax: nat, jMax: nat, i: int)
    requires i >= 1
    requires LastMaxBefore(sequence, reference, o, max, iMax, jMax, i, |sequence| + 1)
    ensures LastMaxBefore(sequence, reference, o, max, iMax, jMax, i + 1, 1)
  {
  }

  /** The recurrence of an interior cell, as one equation. */
  lemma CellRecurrence(sequence: seq<Gene>, reference: seq<Gene>, o: Options, i: nat, j: nat)
    requires Interior(sequence, reference, i, j)
    ensures Cell(sequence, reference, o, i, j) ==
      Max4(0,
           Cell(sequence, reference, o, i - 1, j - 1) + ComputeScore(reference[i - 1], sequence[j - 1], o.accessor, o.scores),
           Cell(sequence, reference, o, i - 1, j) + o.scores.gap,
           Cell(sequence, reference, o, i, j - 1) + o.scores.gap)
  {
  }

  /** Visiting interior cell (i, j), holding v, moves the running maximum there exactly when v >= max. */
  lemma MaxStep(sequence: seq<Gene>, reference: seq<Gene>, o: Options, max: int, iMax: nat, jMax: nat, i: int, j: int)
    requires Interior(sequence, reference, i, j)
    requires LastMaxBefore(sequence, reference, o, max, iMax, jMax, i, j)
    ensures Cell(sequence, reference, o, i, j) >= max ==>
              LastMaxBefore(sequence, reference, o, Cell(sequence, reference, o, i, j), i, j, i, j + 1)
    ensures Cell(sequence, reference, o, i, j) < max ==>
              LastMaxBefore(sequence, reference, o, max, iMax, jMax, i, j + 1)
  {
  }

  /**
   * One step of the inner fill loop: cell (i, j) gets the best of its four
   * candidates, and the running maximum moves to it when it is `>=` it.
   */
  method FillCell(a: array2<int>, sequence: seq<Gene>, reference: seq<Gene>, o: Options, i: nat, j: nat,
                  max0: int, iMax0: nat, jMax0: nat)
    returns (max: int, iMax: nat, jMax: nat)
    requires a.Length0 == |reference| + 1 && a.Length1 == |sequence| + 1
    requires Interior(sequence, reference, i, j)
    requires a[i - 1, j - 1] == Cell(sequence, reference, o, i - 1, j - 1)
    requires a[i - 1, j] == Cell(sequence, reference, o, i - 1, j)
    requires a[i, j - 1] == Cell(sequence, reference, o, i, j - 1)
    requires LastMaxBefore(sequence, reference, o, max0, iMax0, jMax0, i, j)
    modifies a
    ensures forall r, c :: 0 <= r < a.Length0 && 0 <= c < a.Length1 && (r != i || c != j) ==> a[r, c] == old(a[r, c])
    ensures a[i, j] == Cell(sequence, reference, o, i, j)
    ensures LastMaxBefore(sequence, reference, o, max, iMax, jMax, i, j + 1)
  {
    CellRecurrence(sequence, reference, o, i, j);
    MaxStep(sequence, reference, o, max0, iMax0, jMax0, i, j);
    max, iMax, jMax := max0, iMax0, jMax0;
    var choice0 := 0;
    var choice1 := a[i - 1, j - 1] + ComputeScore(reference[i - 1], sequence[j - 1], o.accessor, o.scores);
    var choice2 := a[i - 1, j] + o.scores.gap;
    var choice3 := a[i, j - 1] + o.scores.gap;
    a[i, j] := Max4(choice0, choice1, choice2, choice3);
    if a[i, j] >= max {
      max, iMax, jMax := a[i, j], i, j;
    }
  }

  /** The inner fill loop of `align` for row i. */
  method FillRow(a: array2<int>, sequence: seq<Gene>, reference: seq<Gene>, o: Options, i: nat,
                 max0: int, iMax0: nat, jMax0: nat)
    returns (max: int, iMax: nat, jMax: nat)
    requires a.Length0 == |reference| + 1 && a.Length1 == |sequence| + 1 && 1 <= i <= |reference|
    requires forall c {:trigger a[i - 1, c]} :: 0 <= c < a.Length1 ==> a[i - 1, c] == Cell(sequence, reference, o, i - 1, c)
    requires a[i, 0] == 0
    requires LastMaxBefore(sequence, reference, o, max0, iMax0, jMax0, i, 1)
    modifies a
    ensures forall r, c :: 0 <= r < a.Length0 && 0 <= c < a.Length1 && r != i ==> a[r, c] == old(a[r, c])
    ensures forall c {:trigger a[i, c]} :: 0 <= c < a.Length1 ==> a[i, c] == Cell(sequence, reference, o, i, c)
    ensures LastMaxBefore(sequence, reference, o, max, iMax, jMax, i, a.Length1)
  {
    max, iMax, jMax := max0, iMax0, jMax0;
    var j := 1;
    while j < a.Length1
      invariant 1 <= j <= a.Length1
      invariant forall r, c :: 0 <= r < a.Length0 && 0 <= c < a.Length1 && r != i ==> a[r, c] == old(a[r, c])
      invariant forall c {:trigger a[i, c]} :: 0 <= c < j ==> a[i, c] == Cell(sequence, reference, o, i, c)
      invariant LastMaxBefore(sequence, reference, o, max, iMax, jMax, i, j)
    {
      max, iMax, jMax := FillCell(a, sequence, reference, o, i, j, max, iMax, jMax);
      j := j + 1;
    }
  }

  /**
   * The fill loops of `align`: every cell obeys the recurrence and
   * (iMax, jMax) is the last maximal cell in row-major order.
   */
  method FillMatrix(sequence: seq<Gene>, reference: seq<Gene>, o: Options)
    returns (a: array2<int>, max: int, iMax: nat, jMax: nat)
    ensures a.Length0 == |reference| + 1 && a.Length1 == |sequence| + 1
    ensures forall i, j {:trigger a[i, j]} :: 0 <= i < a.Length0 && 0 <= j < a.Length1 ==> a[i, j] == Cell(sequence, reference, o, i, j)
    ensures IsLastMax(sequence, reference, o, max, iMax, jMax)
  {
    var rows, cols := |reference| + 1, |sequence| + 1;
    a := new int[rows, cols]((_, _) => 0);
    max, iMax, jMax := 0, 0, 0;
    var i := 1;
    while i < rows
      invariant 1 <= i <= rows
      invariant forall r, c {:trigger a[r, c]} :: 0 <= r < i && 0 <= c < cols ==> a[r, c] == Cell(sequence, reference, o, r, c)
      invariant forall r :: i <= r < rows ==> a[r, 0] == 0
      invariant LastMaxBefore(sequence, reference, o, max, iMax, jMax, i, 1)
    {
      max, iMax, jMax := FillRow(a, sequence, reference, o, i, max, iMax, jMax);
      NextRow(sequence, reference, o, max, iMax, jMax, i);
      i := i + 1;
    }
    assert LastMaxBefore(sequence, reference, o, max, iMax, jMax, rows, 1);
  }

  /** The score of one aligned column of a gapped pair. */
  function ColumnScore(s: Option<Gene>, r: Option<Gene>, o: Options): int
  {
    if s.Some? && r.Some? then ComputeScore(r.value, s.value, o.accessor, o.scores)
    else if s.Some? || r.Some? then o.scores.gap
    else 0
  }

  /** The score of a gapped alignment: column scores summed. */
  function AlignScore(s: Gapped, r: Gapped, o: Options): int
    requires |s| == |r|
  {
    if s == [] then 0 else ColumnScore(s[0], r[0], o) + AlignScore(s[1..], r[1..], o)
  }

  lemma AlignScorePrepend(p: Option<Gene>, q: Option<Gene>, s: Gapped, r: Gapped, o: Options)
    requires |s| == |r|
    ensures AlignScore([p] + s, [q] + r, o) == ColumnScore(p, q, o) + AlignScore(s, r, o)
  {
    assert ([p] + s)[1..] == s && ([q] + r)[1..] == r;
  }

  /** A non-empty pair of lists without double gaps holds a gene on some side. */
  lemma SomethingPresent(s: Gapped, r: Gapped)
    requires |s| == |r| > 0 && NoDoubleGap(s, r)
    ensures Present(s) != [] || Present(r) != []
  {
    assert s[0].Some? || r[0].Some?;
  }

  /** Cell (i, j) of the filled matrix obeys the recurrence with respect to its three neighbours. */
  predicate Recurs(a: array2<int>, sequence: seq<Gene>, reference: seq<Gene>, o: Options, i: int, j: int)
    reads a
    requires a.Length0 == |reference| + 1 && a.Length1 == |sequence| + 1
    requires Interior(sequence, reference, i, j)
  {
    a[i, j] == Max4(0, a[i - 1, j - 1] + ComputeScore(reference[i - 1], sequence[j - 1], o.accessor, o.scores),
                    a[i - 1, j] + o.scores.gap, a[i, j - 1] + o.scores.gap)
  }

  /** The matrix as the fill loops leave it: zero borders, every interior cell obeying the recurrence. */
  ghost predicate Consistent(a: array2<int>, sequence: seq<Gene>, reference: seq<Gene>, o: Options)
    reads a
  {
    a.Length0 == |reference| + 1 && a.Length1 == |sequence| + 1 &&
    (forall r {:trigger a[r, 0]} :: 0 <= r < a.Length0 ==> a[r, 0] == 0) &&
    (forall c {:trigger a[0, c]} :: 0 <= c < a.Length1 ==> a[0, c] == 0) &&
    (forall i, j {:trigger Recurs(a, sequence, reference, o, i, j)} ::
       Interior(sequence, reference, i, j) ==> Recurs(a, sequence, reference, o, i, j))
  }

  /** A matrix holding the values of Cell is consistent. */
  lemma FilledIsConsistent(a: array2<int>, sequence: seq<Gene>, reference: seq<Gene>, o: Options)
    requires a.Length0 == |reference| + 1 && a.Length1 == |sequence| + 1
    requires forall i, j {:trigger a[i, j]} :: 0 <= i < a.Length0 && 0 <= j < a.Length1 ==> a[i, j] == Cell(sequence, reference, o, i, j)
    ensures Consistent(a, sequence, reference, o)
  {
    forall i, j | Interior(sequence, reference, i, j)
      ensures Recurs(a, sequence, reference, o, i, j)
    {
      CellRecurrence(sequence, reference, o, i, j);
    }
  }

  /**
   * One step of the first traceback loop of `align`, from a non-zero cell:
   * the diagonal is tried first, then the cell above (the reference gene
   * against a gap), then the cell to the left (the sequence gene against a
   * gap). One of them always fits, so the source's defensive `break` is
   * never taken. The column prepended scores the difference of the two cells.
   */
  method TraceStep(a: array2<int>, sequence: seq<Gene>, reference: seq<Gene>, o: Options,
                   i: nat, j: nat, outSeq: Gapped, outRef: Gapped)
    returns (i': nat, j': nat, outSeq': Gapped, outRef': Gapped)
    requires a.Length0 == |reference| + 1 && a.Length1 == |sequence| + 1
    requires Interior(sequence, reference, i, j) && Recurs(a, sequence, reference, o, i, j) && a[i, j] != 0
    requires |outSeq| == |outRef|
    ensures (i' == i - 1 || i' == i) && (j' == j - 1 || j' == j) && i' + j' < i + j
    ensures outSeq' == [if j' < j then Some(sequence[j - 1]) else None] + outSeq
    ensures outRef' == [if i' < i then Some(reference[i - 1]) else None] + outRef
    ensures AlignScore(outSeq', outRef', o) + a[i', j'] == AlignScore(outSeq, outRef, o) + a[i, j]
  {
    Max4IsMax(0, a[i - 1, j - 1] + ComputeScore(reference[i - 1], sequence[j - 1], o.accessor, o.scores),
              a[i - 1, j] + o.scores.gap, a[i, j - 1] + o.scores.gap);
    var score := a[i, j];
    var diag, up, left := a[i - 1, j - 1], a[i, j - 1], a[i - 1, j];
    if score == diag + ComputeScore(reference[i - 1], sequence[j - 1], o.accessor, o.scores) {
      AlignScorePrepend(Some(sequence[j - 1]), Some(reference[i - 1]), outSeq, outRef, o);
      outRef' := [Some(reference[i - 1])] + outRef;
      outSeq' := [Some(sequence[j - 1])] + outSeq;
      i', j' := i - 1, j - 1;
    } else if score == left + o.scores.gap {
      AlignScorePrepend(None, Some(reference[i - 1]), outSeq, outRef, o);
      outRef' := [Some(reference[i - 1])] + outRef;
      outSeq' := [None] + outSeq;
      i', j' := i - 1, j;
    } else if score == up + o.scores.gap {
      AlignScorePrepend(Some(sequence[j - 1]), None, outSeq, outRef, o);
      outRef' := [None] + outRef;
      outSeq' := [Some(sequence[j - 1])] + outSeq;
      i', j' := i, j - 1;
    } else {
      assert false;
    }
  }

  /**
   * The first traceback loop of `align`: from (iMax, jMax) prepend one
   * aligned column per step until a 0 cell or the border. The columns it
   * prepends score exactly the starting cell's value.
   */
  method TraceSteps(a: array2<int>, sequence: seq<Gene>, reference: seq<Gene>, o: Options, iMax: nat, jMax: nat)
    returns (outSeq: Gapped, outRef: Gapped, i: nat, j: nat)
    requires Consistent(a, sequence, reference, o)
    requires iMax <= |reference| && jMax <= |sequence|
    ensures i <= iMax && j <= jMax
    ensures |outSeq| == |outRef| && NoDoubleGap(outSeq, outRef)
    ensures Present(outSeq) == sequence[j..jMax]
    ensures Present(outRef) == reference[i..iMax]
    ensures AlignScore(outSeq, outRef, o) == a[iMax, jMax]
  {
    i, j := iMax, jMax;
    outSeq, outRef := [], [];
    while i > 0 && j > 0
      invariant 0 <= i <= iMax && 0 <= j <= jMax
      invariant |outSeq| == |outRef| && NoDoubleGap(outSeq, outRef)
      invariant Present(outSeq) == sequence[j..jMax]
      invariant Present(outRef) == reference[i..iMax]
      invariant AlignScore(outSeq, outRef, o) + a[i, j] == a[iMax, jMax]
      decreases i + j
    {
      var score := a[i, j];
      if score == 0 {
        break;
      }
      var i', j', outSeq', outRef' := TraceStep(a, sequence, reference, o, i, j, outSeq, outRef);
      PresentPrepend(outSeq'[0], outSeq);
      PresentPrepend(outRef'[0], outRef);
      assert reference[i'..iMax] == (if i' < i then [reference[i']] else []) + reference[i..iMax];
      assert sequence[j'..jMax] == (if j' < j then [sequence[j']] else []) + sequence[j..jMax];
      i, j, outSeq, outRef := i', j', outSeq', outRef';
    }
  }

  /** One step of the padding loop: one more sequence gene against one more gap. */
  lemma PadStep(sequence: seq<Gene>, j: nat, j0: nat, s: Gapped, r: Gapped)
    requires 0 < j <= j0 <= |sequence|
    ensures [Some(sequence[j - 1])] + (AllPresent(sequence[j..j0]) + s) == AllPresent(sequence[j - 1..j0]) + s
    ensures [None] + (Gaps(j0 - j) + r) == Gaps(j0 - (j - 1)) + r
  {
    assert sequence[j - 1..j0][1..] == sequence[j..j0];
    Associative([Some(sequence[j - 1])], AllPresent(sequence[j..j0]), s);
    Associative([None], Gaps(j0 - j), r);
  }

  /** Genes against gaps in front of an alignment add no column gapped on both sides. */
  lemma PaddedNoDoubleGap(genes: seq<Gene>, s: Gapped, r: Gapped)
    requires |s| == |r| && NoDoubleGap(s, r)
    ensures NoDoubleGap(AllPresent(genes) + s, Gaps(|genes|) + r)
  {
    var s', r' := AllPresent(genes) + s, Gaps(|genes|) + r;
    forall k | 0 <= k < |s'|
      ensures s'[k].Some? || r'[k].Some?
    {
      if k < |genes| {
        AllPresentAt(genes, k);
      } else {
        assert r'[k] == r[k - |genes|];
      }
    }
  }

  /**
   * The second traceback loop of `align`: the sequence genes left of the
   * stopping column are prepended against gaps, so the sequence side covers
   * sequence[..j0] followed by what was traced.
   */
  method PadSequence(sequence: seq<Gene>, j0: nat, tracedSeq: Gapped, tracedRef: Gapped)
    returns (outSeq: Gapped, outRef: Gapped)
    requires j0 <= |sequence| && |tracedSeq| == |tracedRef| && NoDoubleGap(tracedSeq, tracedRef)
    ensures outSeq == AllPresent(sequence[..j0]) + tracedSeq
    ensures outRef == Gaps(j0) + tracedRef
    ensures |outSeq| == |outRef| && NoDoubleGap(outSeq, outRef)
  {
    outSeq, outRef := tracedSeq, tracedRef;
    var j := j0;
    while j > 0
      invariant 0 <= j <= j0
      invariant outSeq == AllPresent(sequence[j..j0]) + tracedSeq
      invariant outRef == Gaps(j0 - j) + tracedRef
    {
      PadStep(sequence, j, j0, tracedSeq, tracedRef);
      outRef := [None] + outRef;
      outSeq := [Some(sequence[j - 1])] + outSeq;
      j := j - 1;
    }
    assert sequence[j..j0] == sequence[..j0];
    PaddedNoDoubleGap(sequence[..j0], tracedSeq, tracedRef);
  }

  /**
   * The traceback of `align`: the traced columns (after the first `pad`
   * columns, which are sequence genes against gaps) score exactly `max`; the
   * genes of the sequence side are sequence[..jMax] and those of the
   * reference side a contiguous block ending at reference[iMax-1].
   */
  method Traceback(a: array2<int>, sequence: seq<Gene>, reference: seq<Gene>, o: Options,
                   max: int, iMax: nat, jMax: nat)
    returns (outSeq: Gapped, outRef: Gapped, ghost pad: nat, ghost iStop: nat)
    requires Consistent(a, sequence, reference, o)
    requires iMax <= |reference| && jMax <= |sequence| && a[iMax, jMax] == max
    ensures |outSeq| == |outRef| && NoDoubleGap(outSeq, outRef)
    ensures Present(outSeq) == sequence[..jMax]
    ensures iStop <= iMax && Present(outRef) == reference[iStop..iMax]
    ensures pad <= jMax && pad <= |outSeq| && forall k :: 0 <= k < pad ==> outSeq[k] == Some(sequence[k]) && outRef[k] == None
    ensures AlignScore(outSeq[pad..], outRef[pad..], o) == max
  {
    var tracedSeq, tracedRef, i, j := TraceSteps(a, sequence, reference, o, iMax, jMax);
    outSeq, outRef := PadSequence(sequence, j, tracedSeq, tracedRef);
    pad, iStop := j, i;
    assert outSeq[pad..] == tracedSeq && outRef[pad..] == tracedRef;
    PresentAppend(AllPresent(sequence[..pad]), tracedSeq);
    PresentAllPresent(sequence[..pad]);
    assert sequence[..jMax] == sequence[..pad] + sequence[pad..jMax];
    PresentAppend(Gaps(pad), tracedRef);
    PresentGaps(pad);
    forall k | 0 <= k < pad
      ensures outSeq[k] == Some(sequence[k]) && outRef[k] == None
    {
      AllPresentAt(sequence[..pad], k);
      GapsAt(pad, k);
    }
  }

  /**
   * A traced alignment: two sides of equal length with no column gapped on
   * both; the first `pad` columns are the sequence's leading genes against
   * gaps, and the columns after them score exactly `score`.
   */
  ghost predicate Traced(sequence: seq<Gene>, s: Gapped, r: Gapped, o: Options, score: int, pad: nat)
  {
    |s| == |r| && NoDoubleGap(s, r) && pad <= |s| && pad <= |sequence| &&
    (forall k :: 0 <= k < pad ==> s[k] == Some(sequence[k]) && r[k] == None) &&
    AlignScore(s[pad..], r[pad..], o) == score
  }

  /** What `align` returns: the two gapped lists and the matrix maximum. */
  datatype Pairwise = Pairwise(sequence: Gapped, reference: Gapped, score: int)

  /**
   * `align`: fill the matrix, then trace back from the last maximal cell.
   * The score is the matrix maximum; the traced columns after the padding
   * score exactly that much; the sequence side holds sequence[..jMax] and
   * the reference side a contiguous block of the reference.
   */
  method Align(sequence: seq<Gene>, reference: seq<Gene>, o: Options)
    returns (p: Pairwise, ghost iMax: nat, ghost jMax: nat, ghost pad: nat, ghost iStop: nat)
    ensures IsMatrixMax(sequence, reference, o, p.score)
    ensures IsLastMax(sequence, reference, o, p.score, iMax, jMax)
    ensures Traced(sequence, p.sequence, p.reference, o, p.score, pad)
    ensures Present(p.sequence) == sequence[..jMax] && pad <= jMax
    ensures iStop <= iMax <= |reference| && Present(p.reference) == reference[iStop..iMax]
    ensures sequence == [] || reference == [] ==> p == Pairwise([], [], 0)
  {
    var a, max, i, j := FillMatrix(sequence, reference, o);
    FilledIsConsistent(a, sequence, reference, o);
    LastMaxIsMax(sequence, reference, o, max, i, j);
    var outSeq, outRef;
    outSeq, outRef, pad, iStop := Traceback(a, sequence, reference, o, max, i, j);
    p := Pairwise(outSeq, outRef, max);
    iMax, jMax := i, j;
    if sequence == [] || reference == [] {
      if outSeq != [] {
        SomethingPresent(outSeq, outRef);
      }
    }
  }

  /** A gapped entry on the opposite strand; gaps stay gaps. */
  function FlipEntry(e: Option<Gene>): (f: Option<Gene>)
    ensures f.None? <==> e.None?
    ensures e.Some? ==> f.value.strand == -e.value.strand && f.value.(strand := e.value.strand) == e.value
  {
    if e.None? then None else Some(Flip(e.value))
  }

  /**
   * The loop that flips the strand of every gene on the reference side of the
   * reverse alignment; it leaves the gaps alone.
   */
  method FlipStrands(s: Gapped) returns (r: Gapped)
    ensures r == FlipAll(s)
  {
    r := s;
    var k := 0;
    while k < |r|
      invariant 0 <= k <= |r| == |s|
      invariant forall m :: 0 <= m < k ==> r[m] == FlipEntry(s[m])
      invariant forall m :: k <= m < |s| ==> r[m] == s[m]
    {
      if r[k] != None {
        r := r[k := FlipEntry(r[k])];
      }
      k := k + 1;
    }
  }

  /**
   * `smithWaterman`: align against the reference and against the reversed
   * reference and keep the better; ties go to the forward orientation. The
   * reverse alignment's reference genes come back on the opposite strand.
   * The result is a single alignment and its score: no column is gapped on
   * both sides, the columns after the leading padding score exactly the
   * result's score (counted on the traced genes, before any strand flip),
   * and an empty input gives one empty alignment of score 0.
   */
  method SmithWaterman(sequence: seq<Gene>, reference: seq<Gene>, accessor: Gene -> string, user: ScoreOptions)
    returns (alignments: seq<(Gapped, Gapped)>, score: int,
             ghost fwdScore: int, ghost revScore: int, ghost traced: Gapped, ghost lo: nat, ghost hi: nat, ghost pad: nat)
    ensures IsMatrixMax(sequence, reference, Options(accessor, WithDefaults(user)), fwdScore)
    ensures IsMatrixMax(sequence, Reverse(reference), Options(accessor, WithDefaults(user)), revScore)
    ensures score == if fwdScore >= revScore then fwdScore else revScore
    ensures |alignments| == 1 && |alignments[0].0| == |alignments[0].1|
    ensures exists jMax :: 0 <= jMax <= |sequence| && Present(alignments[0].0) == sequence[..jMax]
    ensures lo <= hi <= |reference|
    ensures fwdScore >= revScore ==> alignments[0].1 == traced && Present(traced) == reference[lo..hi]
    ensures fwdScore < revScore ==> alignments[0].1 == FlipAll(traced) && Present(traced) == Reverse(reference)[lo..hi]
    ensures NoDoubleGap(alignments[0].0, alignments[0].1)
    ensures Traced(sequence, alignments[0].0, traced, Options(accessor, WithDefaults(user)), score, pad)
    ensures sequence == [] || reference == [] ==> alignments == [([], [])] && score == 0
  {
    var o := Options(accessor, WithDefaults(user));
    var forward, reverse;
    ghost var iMaxF, jMaxF, padF, iStopF, iMaxR, jMaxR, padR, iStopR;
    forward, iMaxF, jMaxF, padF, iStopF := Align(sequence, reference, o);
    var reverseReference := Reverse(reference);
    reverse, iMaxR, jMaxR, padR, iStopR := Align(sequence, reverseReference, o);
    fwdScore, revScore := forward.score, reverse.score;
    if forward.score >= reverse.score {
      alignments, score := [(forward.sequence, forward.reference)], forward.score;
      traced, lo, hi, pad := forward.reference, iStopF, iMaxF, padF;
      assert Present(alignments[0].0) == sequence[..jMaxF];
    } else {
      var flipped := FlipStrands(reverse.reference);
      alignments, score := [(reverse.sequence, flipped)], reverse.score;
      traced, lo, hi, pad := reverse.reference, iStopR, iMaxR, padR;
      assert Present(alignments[0].0) == sequence[..jMaxR];
    }
  }
}
