/**
 * `Alignment.repeat`: the repeat-finding variant of local alignment (after
 * Durbin et al.). Column 0 of the matrix carries the best score of the row
 * above minus a threshold, so several non-overlapping local alignments can
 * be read off one matrix. The traceback walks from the bottom row upwards,
 * opens an alignment at the last maximal cell of a row when that cell is a
 * key match scoring at least the threshold, and keeps every alignment with
 * at least two paired columns. The outer function runs it against the
 * reference and the reversed reference and keeps the alignments of both.
 */
module Repeat {
  import opened Wrappers
  import opened Genes
  import opened Scoring
  import SmithWaterman

  /**
   * Cell (i, j) of the repeat matrix: row i follows the reference, column j
   * the sequence. Row 0 is 0; column 0 of row i is the best of row i-1 with
   * the threshold subtracted from every cell but the first; every other
   * cell is the best of column 0 of its row, the diagonal step, and a gap
   * step from above or from the left.
   */
  function Cell(sequence: seq<Gene>, reference: seq<Gene>, o: Options, i: nat, j: nat): (v: int)
    requires i <= |reference| && j <= |sequence|
    ensures v >= 0
    decreases i, 1, j
  {
    if i == 0 then 0
    else if j == 0 then PenalizedMax(sequence, reference, o, i - 1, |sequence|)
    else SmithWaterman.Max4(
           Cell(sequence, reference, o, i, 0),
           Cell(sequence, reference, o, i - 1, j - 1) + ComputeScore(reference[i - 1], sequence[j - 1], o.accessor, o.scores),
           Cell(sequence, reference, o, i - 1, j) + o.scores.gap,
           Cell(sequence, reference, o, i, j - 1) + o.scores.gap)
  }

  /**
   * The largest of cells 0..k of row r, every cell but the first lowered by
   * the threshold: the `map` and `max` that fill column 0 of row r+1.
   */
  function PenalizedMax(sequence: seq<Gene>, reference: seq<Gene>, o: Options, r: nat, k: nat): (m: int)
    requires r <= |reference| && k <= |sequence|
    ensures m >= Cell(sequence, reference, o, r, 0)
    decreases r, 2, k
  {
    if k == 0 then Cell(sequence, reference, o, r, 0)
    else
      var rest := PenalizedMax(sequence, reference, o, r, k - 1);
      var here := Cell(sequence, reference, o, r, k) - o.scores.threshold;
      if here > rest then here else rest
  }

  /** m is column 0 of row r or one of cells 1..k of row r lowered by the threshold. */
  predicate Attained(sequence: seq<Gene>, reference: seq<Gene>, o: Options, r: nat, k: nat, m: int)
    requires r <= |reference| && k <= |sequence|
  {
    m == Cell(sequence, reference, o, r, 0) ||
    exists c :: 1 <= c <= k && m == Cell(sequence, reference, o, r, c) - o.scores.threshold
  }

  /** PenalizedMax is the maximum of the penalised row prefix: it bounds every entry and is one of them. */
  lemma {:induction false} PenalizedMaxIsMax(sequence: seq<Gene>, reference: seq<Gene>, o: Options, r: nat, k: nat)
    requires r <= |reference| && k <= |sequence|
    ensures forall c :: 1 <= c <= k ==>
              PenalizedMax(sequence, reference, o, r, k) >= Cell(sequence, reference, o, r, c) - o.scores.threshold
    ensures Attained(sequence, reference, o, r, k, PenalizedMax(sequence, reference, o, r, k))
  {
    if k > 0 {
      PenalizedMaxIsMax(sequence, reference, o, r, k - 1);
      var here := Cell(sequence, reference, o, r, k) - o.scores.threshold;
      var rest := PenalizedMax(sequence, reference, o, r, k - 1);
      var m := PenalizedMax(sequence, reference, o, r, k);
      assert m == if here > rest then here else rest;
      if here > rest {
        assert m == here;
        assert Attained(sequence, reference, o, r, k, m) by {
          assert 1 <= k <= k && m == Cell(sequence, reference, o, r, k) - o.scores.threshold;
        }
      } else if rest != Cell(sequence, reference, o, r, 0) {
        assert Attained(sequence, reference, o, r, k - 1, rest);
        var c :| 1 <= c <= k - 1 && rest == Cell(sequence, reference, o, r, c) - o.scores.threshold;
        assert m == rest;
        assert Attained(sequence, reference, o, r, k, m) by {
          assert 1 <= c <= k && m == Cell(sequence, reference, o, r, c) - o.scores.threshold;
        }
      }
    }
  }

  /** Column 0 never decreases from one row to the next. */
  lemma ColumnZeroGrows(sequence: seq<Gene>, reference: seq<Gene>, o: Options, i: nat)
    requires 1 <= i <= |reference|
    ensures Cell(sequence, reference, o, i, 0) >= Cell(sequence, reference, o, i - 1, 0)
  {
  }

  /** Every interior cell is at least column 0 of its row. */
  lemma RowFloor(sequence: seq<Gene>, reference: seq<Gene>, o: Options, i: nat, j: nat)
    requires i <= |reference| && j <= |sequence|
    ensures Cell(sequence, reference, o, i, j) >= Cell(sequence, reference, o, i, 0)
  {
    if i > 0 && j > 0 {
      SmithWaterman.Max4IsMax(
        Cell(sequence, reference, o, i, 0),
        Cell(sequence, reference, o, i - 1, j - 1) + ComputeScore(reference[i - 1], sequence[j - 1], o.accessor, o.scores),
        Cell(sequence, reference, o, i - 1, j) + o.scores.gap,
        Cell(sequence, reference, o, i, j - 1) + o.scores.gap);
    }
  }

  /** The `map`/`max` over row i-1 that fills column 0 of row i. */
  method PenalizedRowMax(a: array2<int>, sequence: seq<Gene>, reference: seq<Gene>, o: Options, i: nat)
    returns (m: int)
    requires a.Length0 == |reference| + 1 && a.Length1 == |sequence| + 1 && 1 <= i <= |reference|
    requires forall c {:trigger a[i - 1, c]} :: 0 <= c < a.Length1 ==> a[i - 1, c] == Cell(sequence, reference, o, i - 1, c)
    ensures m == Cell(sequence, reference, o, i, 0)
  {
    m := a[i - 1, 0];
    var c := 1;
    while c < a.Length1
      invariant 1 <= c <= a.Length1
      invariant m == PenalizedMax(sequence, reference, o, i - 1, c - 1)
    {
      var here := a[i - 1, c] - o.scores.threshold;
      if here > m {
        m := here;
      }
      c := c + 1;
    }
  }

  /** One pass of the outer fill loop: column 0 of row i, then its other cells left to right. */
  method FillRow(a: array2<int>, sequence: seq<Gene>, reference: seq<Gene>, o: Options, i: nat)
    requires a.Length0 == |reference| + 1 && a.Length1 == |sequence| + 1 && 1 <= i <= |reference|
    requires forall c {:trigger a[i - 1, c]} :: 0 <= c < a.Length1 ==> a[i - 1, c] == Cell(sequence, reference, o, i - 1, c)
    modifies a
    ensures forall r, c :: 0 <= r < a.Length0 && 0 <= c < a.Length1 && r != i ==> a[r, c] == old(a[r, c])
    ensures forall c {:trigger a[i, c]} :: 0 <= c < a.Length1 ==> a[i, c] == Cell(sequence, reference, o, i, c)
  {
    var m := PenalizedRowMax(a, sequence, reference, o, i);
    a[i, 0] := m;
    var j := 1;
    while j < a.Length1
      invariant 1 <= j <= a.Length1
      invariant forall r, c :: 0 <= r < a.Length0 && 0 <= c < a.Length1 && r != i ==> a[r, c] == old(a[r, c])
      invariant forall c {:trigger a[i, c]} :: 0 <= c < j ==> a[i, c] == Cell(sequence, reference, o, i, c)
    {
      FillCell(a, sequence, reference, o, i, j);
      j := j + 1;
    }
  }

  /** One pass of the inner fill loop: cell (i, j) from column 0 of its row and its three earlier neighbours. */
  method FillCell(a: array2<int>, sequence: seq<Gene>, reference: seq<Gene>, o: Options, i: nat, j: nat)
    requires a.Length0 == |reference| + 1 && a.Length1 == |sequence| + 1 && 1 <= i <= |reference| && 1 <= j <= |sequence|
    requires a[i, 0] == Cell(sequence, reference, o, i, 0)
    requires a[i - 1, j - 1] == Cell(sequence, reference, o, i - 1, j - 1)
    requires a[i - 1, j] == Cell(sequence, reference, o, i - 1, j)
    requires a[i, j - 1] == Cell(sequence, reference, o, i, j - 1)
    modifies a
    ensures forall r, c :: 0 <= r < a.Length0 && 0 <= c < a.Length1 && (r != i || c != j) ==> a[r, c] == old(a[r, c])
    ensures a[i, j] == Cell(sequence, reference, o, i, j)
  {
    a[i, j] := SmithWaterman.Max4(
      a[i, 0],
      a[i - 1, j - 1] + ComputeScore(reference[i - 1], sequence[j - 1], o.accessor, o.scores),
      a[i - 1, j] + o.scores.gap,
      a[i, j - 1] + o.scores.gap);
  }

  /** The fill loops of the repeat `align`: every cell holds Cell. */
  method FillMatrix(sequence: seq<Gene>, reference: seq<Gene>, o: Options) returns (a: array2<int>)
    ensures a.Length0 == |reference| + 1 && a.Length1 == |sequence| + 1
    ensures forall i, j {:trigger a[i, j]} :: 0 <= i < a.Length0 && 0 <= j < a.Length1 ==> a[i, j] == Cell(sequence, reference, o, i, j)
  {
    var cols, rows := |reference| + 1, |sequence| + 1;
    a := new int[cols, rows]((_, _) => 0);
    var i := 1;
    while i < cols
      invariant 1 <= i <= cols
      invariant forall r, c {:trigger a[r, c]} :: 0 <= r < i && 0 <= c < rows ==> a[r, c] == Cell(sequence, reference, o, r, c)
    {
      FillRow(a, sequence, reference, o, i);
      i := i + 1;
    }
  }

  // ---------------------------------------------------------------------
  // Traceback
  // ---------------------------------------------------------------------

  /** The number of columns holding a gene on both sides (the source's `length`). */
  function Paired(s: Gapped, r: Gapped): (n: nat)
    requires |s| == |r|
    ensures n <= |s|
  {
    if s == [] then 0 else (if s[0].Some? && r[0].Some? then 1 else 0) + Paired(s[1..], r[1..])
  }

  lemma PairedPrepend(x: Option<Gene>, y: Option<Gene>, s: Gapped, r: Gapped)
    requires |s| == |r|
    ensures Paired([x] + s, [y] + r) == (if x.Some? && y.Some? then 1 else 0) + Paired(s, r)
  {
    assert ([x] + s)[1..] == s && ([y] + r)[1..] == r;
  }

  /** Genes set against gaps pair nothing. */
  lemma {:induction false} PairedPadding(t: seq<Gene>)
    ensures Paired(AllPresent(t), Gaps(|t|)) == 0
  {
    if t != [] {
      PairedPrepend(Some(t[0]), None, AllPresent(t[1..]), Gaps(|t| - 1));
      PairedPadding(t[1..]);
    }
  }

  /**
   * Column k is where the alignment was opened: a pair of genes with equal
   * keys, followed only by sequence genes set against gaps.
   */
  predicate OpensAt(s: Gapped, r: Gapped, k: int, accessor: Gene -> string)
    requires |s| == |r|
  {
    0 <= k < |s| && s[k].Some? && r[k].Some? && accessor(s[k].value) == accessor(r[k].value) &&
    forall m :: k < m < |s| ==> s[m].Some? && r[m] == None
  }

  /**
   * The traceback's ghost bookkeeping. The alignment under construction
   * holds sequence[cs..] and reference[cr..hi]; it was opened at cell
   * (hi, oj), which became its column k. `opens` lists the opening cell of
   * every alignment so far and `subs` the running score each closed one
   * added to the total.
   */
  datatype Marks = Marks(cs: nat, cr: nat, hi: nat, k: nat, oj: nat, opens: seq<(nat, nat)>, subs: seq<int>)

  /** The alignment under construction, with `length` paired columns. */
  ghost predicate Building(al: Pair, sequence: seq<Gene>, reference: seq<Gene>, accessor: Gene -> string, g: Marks, length: nat)
  {
    |al.0| == |al.1| && NoDoubleGap(al.0, al.1) && Paired(al.0, al.1) == length &&
    g.cs <= |sequence| && g.cr < g.hi <= |reference| && 1 <= g.oj <= |sequence| &&
    Present(al.0) == sequence[g.cs..] && Present(al.1) == reference[g.cr..g.hi] &&
    OpensAt(al.0, al.1, g.k, accessor) &&
    al.0[g.k] == Some(sequence[g.oj - 1]) && al.1[g.k] == Some(reference[g.hi - 1])
  }

  /**
   * An alignment the traceback keeps, opened at cell (i, j): no column is a
   * double gap, at least two columns pair genes, the sequence side holds a
   * suffix of the sequence, the reference side a contiguous block of the
   * reference, and the opening column pairs sequence[j-1] with
   * reference[i-1], genes with equal keys.
   */
  ghost predicate Kept(al: Pair, sequence: seq<Gene>, reference: seq<Gene>, accessor: Gene -> string, i: nat, j: nat)
  {
    |al.0| == |al.1| && NoDoubleGap(al.0, al.1) && Paired(al.0, al.1) >= 2 &&
    1 <= i <= |reference| && 1 <= j <= |sequence| &&
    (exists cs :: 0 <= cs <= |sequence| && Present(al.0) == sequence[cs..]) &&
    (exists lo, hi :: 0 <= lo < hi <= |reference| && Present(al.1) == reference[lo..hi]) &&
    (exists k :: OpensAt(al.0, al.1, k, accessor) && al.0[k] == Some(sequence[j - 1]) && al.1[k] == Some(reference[i - 1]))
  }

  lemma BuildingIsKept(al: Pair, sequence: seq<Gene>, reference: seq<Gene>, accessor: Gene -> string, g: Marks, length: nat)
    requires Building(al, sequence, reference, accessor, g, length) && length >= 2
    ensures Kept(al, sequence, reference, accessor, g.hi, g.oj)
  {
    assert OpensAt(al.0, al.1, g.k, accessor) && al.0[g.k] == Some(sequence[g.oj - 1]) && al.1[g.k] == Some(reference[g.hi - 1]);
    assert Present(al.0) == sequence[g.cs..];
    assert Present(al.1) == reference[g.cr..g.hi];
  }

  /** A column put in front, not gapped on both sides, moves the opening column one place right. */
  lemma ShiftKeeps(al: Pair, x: Option<Gene>, y: Option<Gene>, k: nat, accessor: Gene -> string)
    requires |al.0| == |al.1| && NoDoubleGap(al.0, al.1) && OpensAt(al.0, al.1, k, accessor)
    requires x.Some? || y.Some?
    ensures NoDoubleGap([x] + al.0, [y] + al.1) && OpensAt([x] + al.0, [y] + al.1, k + 1, accessor)
    ensures ([x] + al.0)[k + 1] == al.0[k] && ([y] + al.1)[k + 1] == al.1[k]
  {
    var s, r := [x] + al.0, [y] + al.1;
    forall m | 0 < m < |s|
      ensures s[m] == al.0[m - 1] && r[m] == al.1[m - 1]
    {
    }
  }

  /** Prepending a column with a gene on at least one side, the next gene of each side, keeps the alignment well formed. */
  lemma PrependKeeps(al: Pair, x: Option<Gene>, y: Option<Gene>, sequence: seq<Gene>, reference: seq<Gene>,
                     accessor: Gene -> string, g: Marks, length: nat)
    requires Building(al, sequence, reference, accessor, g, length)
    requires x.Some? || y.Some?
    requires x.Some? ==> 1 <= g.cs && x.value == sequence[g.cs - 1]
    requires y.Some? ==> 1 <= g.cr && y.value == reference[g.cr - 1]
    ensures Building(([x] + al.0, [y] + al.1), sequence, reference, accessor,
                     g.(cs := if x.Some? then g.cs - 1 else g.cs, cr := if y.Some? then g.cr - 1 else g.cr, k := g.k + 1),
                     length + (if x.Some? && y.Some? then 1 else 0))
  {
    var cs, cr := if x.Some? then g.cs - 1 else g.cs, if y.Some? then g.cr - 1 else g.cr;
    assert Present([x] + al.0) == sequence[cs..] by {
      PresentPrepend(x, al.0);
      if x.Some? {
        assert sequence[g.cs - 1..] == [sequence[g.cs - 1]] + sequence[g.cs..];
      }
    }
    assert Present([y] + al.1) == reference[cr..g.hi] by {
      PresentPrepend(y, al.1);
      if y.Some? {
        assert reference[g.cr - 1..g.hi] == [reference[g.cr - 1]] + reference[g.cr..g.hi];
      }
    }
    ShiftKeeps(al, x, y, g.k, accessor);
    PairedPrepend(x, y, al.0, al.1);
  }

  /**
   * Opening an alignment at (i, j): the sequence genes right of column j are
   * set against gaps, then the starting pair is put in front.
   */
  method Open(sequence: seq<Gene>, reference: seq<Gene>, i: nat, j: nat) returns (al: Pair)
    requires 1 <= i <= |reference| && 1 <= j <= |sequence|
    ensures al == ([Some(sequence[j - 1])] + AllPresent(sequence[j..]), [Some(reference[i - 1])] + Gaps(|sequence| - j))
  {
    var s: Gapped, r: Gapped := [], [];
    var k: int := |sequence| - 1;
    while k >= j
      invariant j - 1 <= k < |sequence|
      invariant s == AllPresent(sequence[k + 1..]) && r == Gaps(|sequence| - (k + 1))
    {
      assert sequence[k..][1..] == sequence[k + 1..];
      s := [Some(sequence[k])] + s;
      r := [None] + r;
      k := k - 1;
    }
    al := ([Some(sequence[j - 1])] + s, [Some(reference[i - 1])] + r);
  }

  /** The genes of a freshly opened alignment: sequence[j-1..] against reference[i-1]. */
  lemma OpenedGenes(sequence: seq<Gene>, reference: seq<Gene>, i: nat, j: nat)
    requires 1 <= i <= |reference| && 1 <= j <= |sequence|
    ensures Present([Some(sequence[j - 1])] + AllPresent(sequence[j..])) == sequence[j - 1..]
    ensures Present([Some(reference[i - 1])] + Gaps(|sequence| - j)) == reference[i - 1..i]
  {
    var t := sequence[j..];
    PresentPrepend(Some(sequence[j - 1]), AllPresent(t));
    PresentAllPresent(t);
    PresentPrepend(Some(reference[i - 1]), Gaps(|t|));
    PresentGaps(|t|);
    assert sequence[j - 1..] == [sequence[j - 1]] + t;
  }

  /** The columns of a freshly opened alignment: the starting pair, then sequence genes against gaps. */
  lemma OpenedColumns(sequence: seq<Gene>, reference: seq<Gene>, accessor: Gene -> string, i: nat, j: nat)
    requires 1 <= i <= |reference| && 1 <= j <= |sequence|
    requires accessor(reference[i - 1]) == accessor(sequence[j - 1])
    ensures var s, r := [Some(sequence[j - 1])] + AllPresent(sequence[j..]), [Some(reference[i - 1])] + Gaps(|sequence| - j);
            |s| == |r| && NoDoubleGap(s, r) && Paired(s, r) == 1 && OpensAt(s, r, 0, accessor)
  {
    var t := sequence[j..];
    var s, r := [Some(sequence[j - 1])] + AllPresent(t), [Some(reference[i - 1])] + Gaps(|t|);
    PairedPrepend(Some(sequence[j - 1]), Some(reference[i - 1]), AllPresent(t), Gaps(|t|));
    PairedPadding(t);
    forall m | 0 < m < |s|
      ensures s[m].Some? && r[m] == None
    {
      AllPresentAt(t, m - 1);
      GapsAt(|t|, m - 1);
    }
  }

  /** A freshly opened alignment is well formed, with one paired column. */
  lemma OpenBuilds(sequence: seq<Gene>, reference: seq<Gene>, accessor: Gene -> string, i: nat, j: nat, g: Marks)
    requires 1 <= i <= |reference| && 1 <= j <= |sequence|
    requires accessor(reference[i - 1]) == accessor(sequence[j - 1])
    requires g.cs == j - 1 && g.cr == i - 1 && g.hi == i && g.k == 0 && g.oj == j
    ensures Building(([Some(sequence[j - 1])] + AllPresent(sequence[j..]), [Some(reference[i - 1])] + Gaps(|sequence| - j)),
                     sequence, reference, accessor, g, 1)
  {
    OpenedGenes(sequence, reference, i, j);
    OpenedColumns(sequence, reference, accessor, i, j);
  }

  /**
   * The padding loop run when the traceback meets a zero: the sequence
   * genes left of the one at the current column, sequence[..n], are put in
   * front against gaps, so the sequence side then holds all of the sequence.
   */
  method PadFront(sequence: seq<Gene>, cur: Pair, n: nat,
                  ghost reference: seq<Gene>, ghost accessor: Gene -> string, ghost g: Marks, ghost length: nat)
    returns (al: Pair)
    requires Building(cur, sequence, reference, accessor, g, length) && g.cs == n
    ensures |al.0| == |cur.0| + n
    ensures Building(al, sequence, reference, accessor, g.(cs := 0, k := g.k + n), length)
  {
    al := cur;
    var k := n;
    ghost var gk := g;
    while k > 0
      invariant 0 <= k <= n
      invariant |al.0| == |cur.0| + (n - k)
      invariant gk == g.(cs := k, k := g.k + (n - k))
      invariant Building(al, sequence, reference, accessor, gk, length)
    {
      PrependKeeps(al, Some(sequence[k - 1]), None, sequence, reference, accessor, gk, length);
      al := ([Some(sequence[k - 1])] + al.0, [None] + al.1);
      k, gk := k - 1, gk.(cs := k - 1, k := gk.k + 1);
    }
    assert gk == g.(cs := 0, k := g.k + n);
  }

  /** The number of alignments already closed: all of them but the one being built. */
  function Closed(alignments: seq<Pair>, saving: bool): int
  {
    |alignments| - (if saving then 1 else 0)
  }

  /** The sum of a list of scores. */
  function Sum(s: seq<int>): int
  {
    if s == [] then 0 else Sum(s[..|s| - 1]) + s[|s| - 1]
  }

  /**
   * Closing the alignment being built (when the traceback reaches column 0
   * and once more after the loop): one with fewer than two paired columns is
   * popped with its opening cell, any other is kept and adds its running
   * score to the total, so the total stays the sum of the kept ones' scores.
   */
  method Close(alignments: seq<Pair>, saving: bool, length: nat, sub: int, total: int, threshold: int,
               ghost sequence: seq<Gene>, ghost reference: seq<Gene>, ghost accessor: Gene -> string, ghost g: Marks)
    returns (alignments': seq<Pair>, total': int, length': nat, ghost g': Marks)
    requires |g.opens| == |alignments| && |g.subs| == Closed(alignments, saving)
    requires saving ==> |alignments| > 0 && Building(alignments[|alignments| - 1], sequence, reference, accessor, g, length)
    requires saving ==> g.opens[|g.opens| - 1] == (g.hi, g.oj)
    requires saving ==> sub >= 0 && sub >= threshold
    requires forall q :: 0 <= q < |g.subs| ==> Kept(alignments[q], sequence, reference, accessor, g.opens[q].0, g.opens[q].1)
    requires total >= 0 && total >= |g.subs| * threshold && total == Sum(g.subs)
    ensures alignments' == if saving && length < 2 then alignments[..|alignments| - 1] else alignments
    ensures g' == if saving && length < 2 then g.(opens := g.opens[..|g.opens| - 1])
                  else if saving then g.(subs := g.subs + [sub]) else g
    ensures total' == total + (if saving && length >= 2 then sub else 0)
    ensures length' == if saving && length < 2 then 0 else length
    ensures |g'.opens| == |alignments'| && |g'.subs| == |alignments'|
    ensures forall q :: 0 <= q < |alignments'| ==> Kept(alignments'[q], sequence, reference, accessor, g'.opens[q].0, g'.opens[q].1)
    ensures total' >= 0 && total' >= |alignments'| * threshold && total' == Sum(g'.subs)
  {
    alignments', total', length', g' := alignments, total, length, g;
    if saving && length < 2 {
      alignments' := alignments[..|alignments| - 1];
      length' := 0;
      g' := g.(opens := g.opens[..|g.opens| - 1]);
    } else if saving {
      BuildingIsKept(alignments[|alignments| - 1], sequence, reference, accessor, g, length);
      assert |alignments| * threshold == (|alignments| - 1) * threshold + threshold;
      total' := total + sub;
      g' := g.(subs := g.subs + [sub]);
      assert (g.subs + [sub])[..|g.subs|] == g.subs;
    }
  }

  /** `a[i].max()`: the largest value of row i. */
  method RowMax(a: array2<int>, i: nat) returns (m: int)
    requires i < a.Length0 && a.Length1 > 0
    ensures forall c :: 0 <= c < a.Length1 ==> a[i, c] <= m
    ensures exists c :: 0 <= c < a.Length1 && a[i, c] == m
  {
    m := a[i, 0];
    var c := 1;
    while c < a.Length1
      invariant 1 <= c <= a.Length1
      invariant forall d :: 0 <= d < c ==> a[i, d] <= m
      invariant exists d :: 0 <= d < c && a[i, d] == m
    {
      if a[i, c] > m {
        m := a[i, c];
      }
      c := c + 1;
    }
  }

  /** `a[i].lastIndexOf(v)`: the last column of row i holding v, or -1. */
  method RowLastIndexOf(a: array2<int>, i: nat, v: int) returns (k: int)
    requires i < a.Length0
    ensures -1 <= k < a.Length1
    ensures k >= 0 ==> a[i, k] == v
    ensures forall c :: k < c < a.Length1 ==> a[i, c] != v
  {
    k := a.Length1 - 1;
    while k >= 0 && a[i, k] != v
      invariant -1 <= k < a.Length1
      invariant forall c :: k < c < a.Length1 ==> a[i, c] != v
    {
      k := k - 1;
    }
  }

  /** `[diag, up, left].max()`. */
  function Max3(diag: int, up: int, left: int): (m: int)
    ensures m >= diag && m >= up && m >= left
    ensures m == diag || m == up || m == left
  {
    if diag >= up && diag >= left then diag else if up >= left then up else left
  }

  /** `Array.prototype.lastIndexOf` on a list of numbers: the last index holding v, or -1. */
  function LastIndexOf(s: seq<int>, v: int): (k: int)
    ensures -1 <= k < |s|
    ensures k >= 0 ==> s[k] == v
    ensures forall m :: k < m < |s| ==> s[m] != v
  {
    if s == [] then -1
    else if s[|s| - 1] == v then |s| - 1
    else LastIndexOf(s[..|s| - 1], v)
  }

  /** The local variables of the traceback loop (`index` is always |alignments| - 1). */
  datatype Walk = Walk(i: nat, j: nat, alignments: seq<Pair>, saving: bool, total: int, sub: int, length: nat)

  /** Every cell of the matrix is non-negative. */
  predicate NonNegative(a: array2<int>)
    reads a
  {
    forall r, c {:trigger a[r, c]} :: 0 <= r < a.Length0 && 0 <= c < a.Length1 ==> a[r, c] >= 0
  }

  /**
   * The traceback may open an alignment at cell (i, j) of the matrix: the
   * cell holds the largest value of row i, at its last occurrence in the
   * row, reaches the threshold, and pairs reference[i-1] with
   * sequence[j-1], genes with equal keys.
   */
  predicate Opening(a: array2<int>, sequence: seq<Gene>, reference: seq<Gene>, o: Options, i: nat, j: nat)
    reads a
  {
    a.Length0 == |reference| + 1 && a.Length1 == |sequence| + 1 &&
    1 <= i <= |reference| && 1 <= j <= |sequence| &&
    (forall c :: 0 <= c < a.Length1 ==> a[i, c] <= a[i, j]) &&
    (forall c :: j < c < a.Length1 ==> a[i, c] != a[i, j]) &&
    a[i, j] >= o.scores.threshold && o.accessor(reference[i - 1]) == o.accessor(sequence[j - 1])
  }

  /** Every alignment so far was opened at an opening cell, and each closed one scored at least its opening cell. */
  ghost predicate Ledgered(a: array2<int>, sequence: seq<Gene>, reference: seq<Gene>, o: Options,
                           opens: seq<(nat, nat)>, subs: seq<int>)
    reads a
  {
    |subs| <= |opens| &&
    (forall q :: 0 <= q < |opens| ==> Opening(a, sequence, reference, o, opens[q].0, opens[q].1)) &&
    (forall q :: 0 <= q < |subs| ==> Opening(a, sequence, reference, o, opens[q].0, opens[q].1) && subs[q] >= a[opens[q].0, opens[q].1])
  }

  /**
   * What the traceback keeps true apart from the matrix: the closed
   * alignments are kept ones, listed with their opening cells; the one
   * being built is well formed and, at an interior cell, has reached
   * sequence[j-1] and reference[i-1]; the total is the sum of the closed
   * ones' scores and at least the threshold for each.
   */
  ghost predicate Shape(sequence: seq<Gene>, reference: seq<Gene>, o: Options, w: Walk, g: Marks)
  {
    w.i <= |reference| && w.j <= |sequence| &&
    |g.opens| == |w.alignments| && |g.subs| == Closed(w.alignments, w.saving) &&
    (forall q :: 0 <= q < |g.subs| ==> Kept(w.alignments[q], sequence, reference, o.accessor, g.opens[q].0, g.opens[q].1)) &&
    (w.saving ==> |w.alignments| > 0 && Building(w.alignments[|w.alignments| - 1], sequence, reference, o.accessor, g, w.length) &&
                  g.opens[|g.opens| - 1] == (g.hi, g.oj)) &&
    (w.saving && w.i > 0 && w.j > 0 ==> g.cs == w.j - 1 && g.cr == w.i - 1) &&
    w.total >= 0 && w.total >= |g.subs| * o.scores.threshold && w.total == Sum(g.subs)
  }

  /**
   * The loop invariant of the traceback: Shape, the opening cells and
   * scores agree with the matrix, and the running score of the alignment
   * being built will reach its opening cell's value once the current cell
   * is added (the first cell added is the opening one).
   */
  ghost predicate Inv(a: array2<int>, sequence: seq<Gene>, reference: seq<Gene>, o: Options, w: Walk, g: Marks)
    reads a
  {
    a.Length0 == |reference| + 1 && a.Length1 == |sequence| + 1 &&
    Shape(sequence, reference, o, w, g) && Ledgered(a, sequence, reference, o, g.opens, g.subs) &&
    (w.saving ==> w.sub >= 0 && w.sub + a[w.i, w.j] >= a[g.hi, g.oj] && (w.i == 0 && w.j == 0 ==> w.sub >= a[g.hi, g.oj])) &&
    (!w.saving ==> w.sub == 0)
  }

  /** Prepend a column to the alignment being built (`alignments[index][0].unshift(..)`, `alignments[index][1].unshift(..)`). */
  function Unshift(alignments: seq<Pair>, x: Option<Gene>, y: Option<Gene>): (r: seq<Pair>)
    requires |alignments| > 0
    ensures |r| == |alignments| && forall q :: 0 <= q < |r| - 1 ==> r[q] == alignments[q]
    ensures r[|r| - 1] == ([x] + alignments[|alignments| - 1].0, [y] + alignments[|alignments| - 1].1)
  {
    var last := alignments[|alignments| - 1];
    alignments[|alignments| - 1 := ([x] + last.0, [y] + last.1)]
  }

  /** A walk that changes only its position and the alignment being built, keeping that one well formed, keeps Shape. */
  lemma ShapeKeeps(sequence: seq<Gene>, reference: seq<Gene>, o: Options, w: Walk, g: Marks, w': Walk, g': Marks)
    requires Shape(sequence, reference, o, w, g)
    requires w'.i <= |reference| && w'.j <= |sequence|
    requires w'.saving == w.saving && w'.total == w.total && |w'.alignments| == |w.alignments|
    requires g' == g.(cs := g'.cs, cr := g'.cr, k := g'.k)
    requires forall q :: 0 <= q < Closed(w.alignments, w.saving) ==> w'.alignments[q] == w.alignments[q]
    requires w.saving ==> Building(w'.alignments[|w'.alignments| - 1], sequence, reference, o.accessor, g', w'.length)
    requires w.saving && w'.i > 0 && w'.j > 0 ==> g'.cs == w'.j - 1 && g'.cr == w'.i - 1
    ensures Shape(sequence, reference, o, w', g')
  {
    assert Closed(w'.alignments, w'.saving) == Closed(w.alignments, w.saving);
  }

  /**
   * Meeting a zero neighbourhood at interior cell (i, j): the alignment being
   * built gets the rest of the sequence in front against gaps, and the walk
   * drops to column 0 of the row above.
   */
  method StopAtZero(sequence: seq<Gene>, reference: seq<Gene>, o: Options, w: Walk, ghost g: Marks)
    returns (w': Walk, ghost g': Marks)
    requires Shape(sequence, reference, o, w, g) && 0 < w.i && 0 < w.j
    ensures Shape(sequence, reference, o, w', g') && g' == g.(cs := g'.cs, cr := g'.cr, k := g'.k)
    ensures w' == w.(i := w.i - 1, j := 0, alignments := w'.alignments) && |w'.alignments| == |w.alignments|
  {
    g' := g;
    var alignments := w.alignments;
    if w.saving {
      var last := PadFront(sequence, alignments[|alignments| - 1], w.j - 1, reference, o.accessor, g, w.length);
      alignments := alignments[|alignments| - 1 := last];
      g' := g.(cs := 0, k := g.k + (w.j - 1));
    }
    w' := w.(i := w.i - 1, j := 0, alignments := alignments);
  }

  /**
   * The diagonal move from interior cell (i, j) to (i - 1, j - 1): while an
   * alignment is being built and the new cell is interior, the pair of
   * genes crossed is prepended and counted.
   */
  method Diagonal(sequence: seq<Gene>, reference: seq<Gene>, o: Options, w: Walk, ghost g: Marks)
    returns (w': Walk, ghost g': Marks)
    requires Shape(sequence, reference, o, w, g) && 0 < w.i && 0 < w.j
    ensures Shape(sequence, reference, o, w', g') && g' == g.(cs := g'.cs, cr := g'.cr, k := g'.k)
    ensures w' == w.(i := w.i - 1, j := w.j - 1, alignments := w'.alignments, length := w'.length)
    ensures |w'.alignments| == |w.alignments|
  {
    w', g' := w.(i := w.i - 1, j := w.j - 1), g;
    if w.saving && w'.j > 0 && w'.i > 0 {
      var x, y := Some(sequence[w'.j - 1]), Some(reference[w'.i - 1]);
      PrependKeeps(w.alignments[|w.alignments| - 1], x, y, sequence, reference, o.accessor, g, w.length);
      w' := w'.(alignments := Unshift(w.alignments, x, y), length := w.length + 1);
      g' := g.(cs := g.cs - 1, cr := g.cr - 1, k := g.k + 1);
    }
    ShapeKeeps(sequence, reference, o, w, g, w', g');
  }

  /**
   * The move from interior cell (i, j) to (i, j - 1): while an alignment is
   * being built and the new column is not 0, the sequence gene crossed is
   * prepended against a gap.
   */
  method Up(sequence: seq<Gene>, reference: seq<Gene>, o: Options, w: Walk, ghost g: Marks)
    returns (w': Walk, ghost g': Marks)
    requires Shape(sequence, reference, o, w, g) && 0 < w.i && 0 < w.j
    ensures Shape(sequence, reference, o, w', g') && g' == g.(cs := g'.cs, cr := g'.cr, k := g'.k)
    ensures w' == w.(j := w.j - 1, alignments := w'.alignments)
    ensures |w'.alignments| == |w.alignments|
  {
    w', g' := w.(j := w.j - 1), g;
    if w.saving && w'.j > 0 {
      var x := Some(sequence[w'.j - 1]);
      PrependKeeps(w.alignments[|w.alignments| - 1], x, None, sequence, reference, o.accessor, g, w.length);
      w' := w'.(alignments := Unshift(w.alignments, x, None));
      g' := g.(cs := g.cs - 1, k := g.k + 1);
    }
    ShapeKeeps(sequence, reference, o, w, g, w', g');
  }

  /**
   * The move from interior cell (i, j) to (i - 1, j): while an alignment is
   * being built and the new row is not 0, the reference gene crossed is
   * prepended against a gap.
   */
  method Left(sequence: seq<Gene>, reference: seq<Gene>, o: Options, w: Walk, ghost g: Marks)
    returns (w': Walk, ghost g': Marks)
    requires Shape(sequence, reference, o, w, g) && 0 < w.i && 0 < w.j
    ensures Shape(sequence, reference, o, w', g') && g' == g.(cs := g'.cs, cr := g'.cr, k := g'.k)
    ensures w' == w.(i := w.i - 1, alignments := w'.alignments)
    ensures |w'.alignments| == |w.alignments|
  {
    w', g' := w.(i := w.i - 1), g;
    if w.saving && w'.i > 0 {
      var y := Some(reference[w'.i - 1]);
      PrependKeeps(w.alignments[|w.alignments| - 1], None, y, sequence, reference, o.accessor, g, w.length);
      w' := w'.(alignments := Unshift(w.alignments, None, y));
      g' := g.(cr := g.cr - 1, k := g.k + 1);
    }
    ShapeKeeps(sequence, reference, o, w, g, w', g');
  }

  /**
   * A traceback step from an interior cell (i, j), its value already added
   * to the running score: stop at a zero neighbourhood, else move to the
   * last of diagonal, up and left holding the largest value.
   */
  method Move(a: array2<int>, sequence: seq<Gene>, reference: seq<Gene>, o: Options, w: Walk, ghost g: Marks)
    returns (w': Walk, ghost g': Marks)
    requires a.Length0 == |reference| + 1 && a.Length1 == |sequence| + 1 && NonNegative(a)
    requires Shape(sequence, reference, o, w, g) && Ledgered(a, sequence, reference, o, g.opens, g.subs) && 0 < w.i && 0 < w.j
    requires w.saving ==> w.sub >= 0 && w.sub >= a[g.hi, g.oj]
    requires !w.saving ==> w.sub == 0
    ensures Inv(a, sequence, reference, o, w', g')
    ensures w'.i + w'.j < w.i + w.j
  {
    var diag, up, left := a[w.i - 1, w.j - 1], a[w.i, w.j - 1], a[w.i - 1, w.j];
    var scores := [diag, up, left];
    var max := Max3(diag, up, left);
    assert scores[0] == diag && scores[1] == up && scores[2] == left;
    if max == 0 {
      w', g' := StopAtZero(sequence, reference, o, w, g);
    } else {
      var choice := LastIndexOf(scores, max);
      if choice == 0 {
        w', g' := Diagonal(sequence, reference, o, w, g);
      } else if choice == 1 {
        w', g' := Up(sequence, reference, o, w, g);
      } else if choice == 2 {
        w', g' := Left(sequence, reference, o, w, g);
      } else {
        assert false;
      }
    }
  }

  /**
   * Closing keeps the ledger: a popped alignment takes its opening cell
   * with it, a kept one adds a score of at least its opening cell's value.
   */
  lemma ClosedLedger(a: array2<int>, sequence: seq<Gene>, reference: seq<Gene>, o: Options,
                     g: Marks, g': Marks, saving: bool, length: nat, sub: int)
    requires Ledgered(a, sequence, reference, o, g.opens, g.subs)
    requires |g.subs| == |g.opens| - (if saving then 1 else 0)
    requires saving ==> |g.opens| > 0 && g.opens[|g.opens| - 1] == (g.hi, g.oj) &&
                        Opening(a, sequence, reference, o, g.hi, g.oj) && sub >= a[g.hi, g.oj]
    requires g' == if saving && length < 2 then g.(opens := g.opens[..|g.opens| - 1])
                   else if saving then g.(subs := g.subs + [sub]) else g
    ensures Ledgered(a, sequence, reference, o, g'.opens, g'.subs)
  {
  }

  /**
   * A traceback step at column 0 of row i > 0, the cell's value already
   * added to the running score: close the alignment being built, then open
   * a new one at the last maximal cell of the row if that cell pairs genes
   * with equal keys and reaches the threshold, or else go up a row. With
   * no sequence there is no column to open at, and the walk goes up a row.
   */
  method AtColumnZero(a: array2<int>, sequence: seq<Gene>, reference: seq<Gene>, o: Options, w: Walk, ghost g: Marks)
    returns (w': Walk, ghost g': Marks)
    requires a.Length0 == |reference| + 1 && a.Length1 == |sequence| + 1 && NonNegative(a)
    requires Shape(sequence, reference, o, w, g) && Ledgered(a, sequence, reference, o, g.opens, g.subs) && 0 < w.i && w.j == 0
    requires w.saving ==> w.sub >= 0 && w.sub >= a[g.hi, g.oj]
    requires !w.saving ==> w.sub == 0
    ensures Inv(a, sequence, reference, o, w', g')
    ensures !w'.saving ==> w'.i < w.i
    ensures a.Length1 == 1 && !w.saving ==> w' == w.(i := w.i - 1)
  {
    if w.saving {
      assert Opening(a, sequence, reference, o, g.opens[|g.opens| - 1].0, g.opens[|g.opens| - 1].1);
    }
    var alignments, total, length;
    ghost var closed;
    alignments, total, length, closed := Close(w.alignments, w.saving, w.length, w.sub, w.total, o.scores.threshold,
                                               sequence, reference, o.accessor, g);
    ClosedLedger(a, sequence, reference, o, g, closed, w.saving, w.length, w.sub);
    var i := w.i;
    var max := RowMax(a, i);
    var jMax := RowLastIndexOf(a, i, max);
    if jMax > 0 && i > 0 && o.accessor(reference[i - 1]) == o.accessor(sequence[jMax - 1]) && max >= o.scores.threshold {
      assert Opening(a, sequence, reference, o, i, jMax);
      w', g' := OpenAt(a, sequence, reference, o, i, jMax, alignments, total, closed);
    } else {
      w' := Walk(i - 1, 0, alignments, false, total, 0, length);
      g' := closed;
      SkippedInv(a, sequence, reference, o, w', g');
    }
  }

  /** Opening an alignment at opening cell (i, j), after the closed ones: the walk continues from (i, j), building it. */
  method OpenAt(a: array2<int>, sequence: seq<Gene>, reference: seq<Gene>, o: Options, i: nat, j: nat,
                alignments: seq<Pair>, total: int, ghost g: Marks)
    returns (w': Walk, ghost g': Marks)
    requires Opening(a, sequence, reference, o, i, j)
    requires |g.opens| == |alignments| && |g.subs| == |alignments| && Ledgered(a, sequence, reference, o, g.opens, g.subs)
    requires forall q :: 0 <= q < |alignments| ==> Kept(alignments[q], sequence, reference, o.accessor, g.opens[q].0, g.opens[q].1)
    requires total >= 0 && total >= |alignments| * o.scores.threshold && total == Sum(g.subs)
    ensures Inv(a, sequence, reference, o, w', g') && w'.saving
  {
    var started := Open(sequence, reference, i, j);
    g' := Marks(j - 1, i - 1, i, 0, j, g.opens + [(i, j)], g.subs);
    OpenBuilds(sequence, reference, o.accessor, i, j, g');
    w' := Walk(i, j, alignments + [started], true, total, 0, 1);
    OpenedInv(a, sequence, reference, o, alignments, started, total, g, g');
  }

  /** Moving on with every alignment closed keeps Inv. */
  lemma SkippedInv(a: array2<int>, sequence: seq<Gene>, reference: seq<Gene>, o: Options, w: Walk, g: Marks)
    requires a.Length0 == |reference| + 1 && a.Length1 == |sequence| + 1
    requires w.i <= |reference| && w.j <= |sequence| && !w.saving && w.sub == 0
    requires |g.opens| == |w.alignments| && |g.subs| == |w.alignments| && Ledgered(a, sequence, reference, o, g.opens, g.subs)
    requires forall q :: 0 <= q < |w.alignments| ==> Kept(w.alignments[q], sequence, reference, o.accessor, g.opens[q].0, g.opens[q].1)
    requires w.total >= 0 && w.total >= |w.alignments| * o.scores.threshold && w.total == Sum(g.subs)
    ensures Inv(a, sequence, reference, o, w, g)
  {
  }

  /** Opening an alignment at an opening cell, after the closed ones, establishes Inv. */
  lemma OpenedInv(a: array2<int>, sequence: seq<Gene>, reference: seq<Gene>, o: Options,
                  alignments: seq<Pair>, started: Pair, total: int, g: Marks, g': Marks)
    requires Opening(a, sequence, reference, o, g'.hi, g'.oj)
    requires g'.cs == g'.oj - 1 && g'.cr == g'.hi - 1
    requires g'.opens == g.opens + [(g'.hi, g'.oj)] && g'.subs == g.subs
    requires |g.opens| == |alignments| && |g.subs| == |alignments| && Ledgered(a, sequence, reference, o, g.opens, g.subs)
    requires forall q :: 0 <= q < |alignments| ==> Kept(alignments[q], sequence, reference, o.accessor, g.opens[q].0, g.opens[q].1)
    requires total >= 0 && total >= |alignments| * o.scores.threshold && total == Sum(g.subs)
    requires Building(started, sequence, reference, o.accessor, g', 1)
    ensures Inv(a, sequence, reference, o, Walk(g'.hi, g'.oj, alignments + [started], true, total, 0, 1), g')
  {
    var all := alignments + [started];
    assert forall q :: 0 <= q < |alignments| ==> all[q] == alignments[q];
    assert all[|all| - 1] == started;
    assert forall q :: 0 <= q < |g.opens| ==> g'.opens[q] == g.opens[q];
  }

  /** One pass of the traceback loop, from any cell but (0, 0). */
  method Step(a: array2<int>, sequence: seq<Gene>, reference: seq<Gene>, o: Options, w: Walk, ghost g: Marks)
    returns (w': Walk, ghost g': Marks)
    requires NonNegative(a) && Inv(a, sequence, reference, o, w, g) && !(w.i == 0 && w.j == 0)
    ensures Inv(a, sequence, reference, o, w', g')
    ensures a.Length1 == 1 && !w.saving ==> w' == w.(i := w.i - 1)
  {
    var sub := w.sub;
    if w.saving {
      sub := sub + a[w.i, w.j];
    }
    if w.j == 0 {
      w', g' := AtColumnZero(a, sequence, reference, o, w.(sub := sub), g);
    } else if w.i == 0 {
      w', g' := w.(j := 0, sub := sub), g;
    } else {
      w', g' := Move(a, sequence, reference, o, w.(sub := sub), g);
    }
  }

  /**
   * A walk that never ends. Sequence X Y Z against reference Z X, keys the
   * families, scores 5 / 0 / -1 and threshold 1: row 2 of the matrix is
   * 4 5 4 4, so the traceback opens at (2, 1). From there the largest
   * neighbour is the one above, (2, 0), reached without pairing another
   * column; the alignment, one paired column long, is popped there, and
   * row 2 opens at (2, 1) again.
   */
  lemma RevisitedOpening()
    ensures var x, y, z := Gene("x", "X", 1, 0.0, 0), Gene("y", "Y", 1, 0.0, 0), Gene("z", "Z", 1, 0.0, 0);
            var sequence, reference, o := [x, y, z], [z, x], Options((g: Gene) => g.family, Scores(5, 0, -1, 1));
            [Cell(sequence, reference, o, 2, 0), Cell(sequence, reference, o, 2, 1),
             Cell(sequence, reference, o, 2, 2), Cell(sequence, reference, o, 2, 3)] == [4, 5, 4, 4] &&
            OpeningCell(sequence, reference, o, 2, 1) &&
            var diag, up, left := Cell(sequence, reference, o, 1, 0), Cell(sequence, reference, o, 2, 0), Cell(sequence, reference, o, 1, 1);
            Max3(diag, up, left) != 0 && LastIndexOf([diag, up, left], Max3(diag, up, left)) == 1
  {
    var x, y, z := Gene("x", "X", 1, 0.0, 0), Gene("y", "Y", 1, 0.0, 0), Gene("z", "Z", 1, 0.0, 0);
    var sequence, reference, o := [x, y, z], [z, x], Options((g: Gene) => g.family, Scores(5, 0, -1, 1));
    assert PenalizedMax(sequence, reference, o, 0, 0) == 0;
    assert PenalizedMax(sequence, reference, o, 0, 1) == 0;
    assert PenalizedMax(sequence, reference, o, 0, 2) == 0;
    assert PenalizedMax(sequence, reference, o, 0, 3) == 0;
    assert Cell(sequence, reference, o, 1, 0) == 0;
    assert Cell(sequence, reference, o, 1, 1) == 0;
    assert Cell(sequence, reference, o, 1, 2) == 0;
    assert Cell(sequence, reference, o, 1, 3) == 5;
    assert PenalizedMax(sequence, reference, o, 1, 1) == 0;
    assert PenalizedMax(sequence, reference, o, 1, 2) == 0;
    assert PenalizedMax(sequence, reference, o, 1, 3) == 4;
    assert Cell(sequence, reference, o, 2, 0) == 4;
    assert Cell(sequence, reference, o, 2, 1) == 5;
    assert Cell(sequence, reference, o, 2, 2) == 4;
    assert Cell(sequence, reference, o, 2, 3) == 4;
    assert [0, 4, 0][..2] == [0, 4];
  }

  /** The outcome of a bounded traceback. */
  datatype Outcome = Done(alignments: seq<Pair>, score: int) | OutOfFuel

  /**
   * The traceback of the repeat `align`, walking from column 0 of the
   * bottom row to (0, 0). The walk can revisit a state (an alignment opened
   * and popped at the same cell, again and again), so it is bounded by
   * `fuel` steps and reports OutOfFuel when they run out. Every alignment
   * it returns is a kept one, opened at an opening cell of the matrix
   * (`opens`); the score is the sum of the alignments' running scores
   * (`subs`), each at least the value of its opening cell. An empty
   * reference, or an empty sequence with fuel for every row, gives no
   * alignments and score 0.
   */
  method Traceback(a: array2<int>, sequence: seq<Gene>, reference: seq<Gene>, o: Options, fuel: nat)
    returns (out: Outcome, ghost opens: seq<(nat, nat)>, ghost subs: seq<int>)
    requires a.Length0 == |reference| + 1 && a.Length1 == |sequence| + 1 && NonNegative(a)
    ensures out.Done? ==> |opens| == |out.alignments| && |subs| == |out.alignments|
    ensures out.Done? ==> forall q :: 0 <= q < |out.alignments| ==>
              Kept(out.alignments[q], sequence, reference, o.accessor, opens[q].0, opens[q].1)
    ensures out.Done? ==> Ledgered(a, sequence, reference, o, opens, subs)
    ensures out.Done? ==> out.score == Sum(subs) && out.score >= 0 && out.score >= |out.alignments| * o.scores.threshold
    ensures |reference| == 0 ==> out == Done([], 0)
    ensures |sequence| == 0 && fuel >= |reference| ==> out == Done([], 0)
  {
    var w := Walk(|reference|, 0, [], false, 0, 0, 0);
    ghost var g := Marks(0, 0, 0, 0, 0, [], []);
    var steps := fuel;
    while !(w.i == 0 && w.j == 0) && steps > 0
      invariant Inv(a, sequence, reference, o, w, g)
      invariant |reference| == 0 ==> w == Walk(0, 0, [], false, 0, 0, 0)
      invariant a.Length1 == 1 && fuel >= |reference| ==> w == Walk(w.i, 0, [], false, 0, 0, 0) && w.i <= steps
    {
      w, g := Step(a, sequence, reference, o, w, g);
      steps := steps - 1;
    }
    if !(w.i == 0 && w.j == 0) {
      return OutOfFuel, [], [];
    }
    if w.saving {
      assert Opening(a, sequence, reference, o, g.opens[|g.opens| - 1].0, g.opens[|g.opens| - 1].1);
    }
    var alignments, total, length;
    ghost var closed;
    alignments, total, length, closed := Close(w.alignments, w.saving, w.length, w.sub, w.total, o.scores.threshold,
                                          sequence, reference, o.accessor, g);
    ClosedLedger(a, sequence, reference, o, g, closed, w.saving, w.length, w.sub);
    out, opens, subs := Done(alignments, total), closed.opens, closed.subs;
  }

  /**
   * The traceback may open an alignment at cell (i, j) of the repeat
   * matrix: the cell holds the largest value of row i, at its last
   * occurrence in the row, reaches the threshold, and pairs reference[i-1]
   * with sequence[j-1], genes with equal keys.
   */
  ghost predicate OpeningCell(sequence: seq<Gene>, reference: seq<Gene>, o: Options, i: nat, j: nat)
  {
    1 <= i <= |reference| && 1 <= j <= |sequence| &&
    (forall c :: 0 <= c <= |sequence| ==> Cell(sequence, reference, o, i, c) <= Cell(sequence, reference, o, i, j)) &&
    (forall c :: j < c <= |sequence| ==> Cell(sequence, reference, o, i, c) != Cell(sequence, reference, o, i, j)) &&
    Cell(sequence, reference, o, i, j) >= o.scores.threshold &&
    o.accessor(reference[i - 1]) == o.accessor(sequence[j - 1])
  }

  /** On the filled matrix, an opening cell of the matrix is one of the recurrence. */
  lemma FilledOpening(a: array2<int>, sequence: seq<Gene>, reference: seq<Gene>, o: Options, i: nat, j: nat)
    requires a.Length0 == |reference| + 1 && a.Length1 == |sequence| + 1
    requires forall r, c {:trigger a[r, c]} :: 0 <= r < a.Length0 && 0 <= c < a.Length1 ==> a[r, c] == Cell(sequence, reference, o, r, c)
    requires Opening(a, sequence, reference, o, i, j)
    ensures OpeningCell(sequence, reference, o, i, j) && a[i, j] == Cell(sequence, reference, o, i, j)
  {
    assert forall c :: 0 <= c <= |sequence| ==> a[i, c] == Cell(sequence, reference, o, i, c);
  }

  /**
   * The alignments of one run, with their opening cells and running scores:
   * each is a kept one opened at an opening cell of the repeat matrix, and
   * its running score is at least that cell's value.
   */
  ghost predicate Accounted(sequence: seq<Gene>, reference: seq<Gene>, o: Options,
                            alignments: seq<Pair>, opens: seq<(nat, nat)>, subs: seq<int>)
  {
    |opens| == |alignments| && |subs| == |alignments| &&
    forall q :: 0 <= q < |alignments| ==>
      Kept(alignments[q], sequence, reference, o.accessor, opens[q].0, opens[q].1) &&
      OpeningCell(sequence, reference, o, opens[q].0, opens[q].1) &&
      subs[q] >= Cell(sequence, reference, o, opens[q].0, opens[q].1)
  }

  /**
   * The repeat `align`: fill the matrix, then trace back. Stated on the
   * recurrence: each alignment returned is a kept one opened at an opening
   * cell, and the score is the sum of the alignments' running scores, each
   * at least its opening cell's value.
   */
  method Align(sequence: seq<Gene>, reference: seq<Gene>, o: Options, fuel: nat)
    returns (out: Outcome, ghost opens: seq<(nat, nat)>, ghost subs: seq<int>)
    ensures out.Done? ==> Accounted(sequence, reference, o, out.alignments, opens, subs)
    ensures out.Done? ==> out.score == Sum(subs) && out.score >= 0 && out.score >= |out.alignments| * o.scores.threshold
    ensures |reference| == 0 ==> out == Done([], 0)
    ensures |sequence| == 0 && fuel >= |reference| ==> out == Done([], 0)
  {
    var a := FillMatrix(sequence, reference, o);
    out, opens, subs := Traceback(a, sequence, reference, o, fuel);
    if out.Done? {
      forall q | 0 <= q < |opens|
        ensures OpeningCell(sequence, reference, o, opens[q].0, opens[q].1) &&
                subs[q] >= Cell(sequence, reference, o, opens[q].0, opens[q].1)
      {
        FilledOpening(a, sequence, reference, o, opens[q].0, opens[q].1);
      }
    }
  }

  /**
   * `Alignment.repeat`: the alignments against the reference, then those
   * against the reversed reference with the strand of every reference-side
   * gene flipped; the score is the sum of the two runs' scores, each the
   * sum of its alignments' running scores. An empty reference, or an empty
   * sequence with fuel for every row, gives no alignments and score 0.
   */
  method Repeat(sequence: seq<Gene>, reference: seq<Gene>, accessor: Gene -> string, user: ScoreOptions, fuel: nat)
    returns (out: Outcome, ghost forwards: seq<Pair>, ghost reverses: seq<Pair>,
             ghost fwdOpens: seq<(nat, nat)>, ghost revOpens: seq<(nat, nat)>, ghost fwdSubs: seq<int>, ghost revSubs: seq<int>)
    ensures out.Done? ==> FlippedAfter(out.alignments, forwards, reverses)
    ensures out.Done? ==> Accounted(sequence, reference, Options(accessor, WithDefaults(user)), forwards, fwdOpens, fwdSubs)
    ensures out.Done? ==> Accounted(sequence, Reverse(reference), Options(accessor, WithDefaults(user)), reverses, revOpens, revSubs)
    ensures out.Done? ==> out.score == Sum(fwdSubs) + Sum(revSubs) && out.score >= 0
    ensures out.Done? ==> Sum(fwdSubs) >= |forwards| * WithDefaults(user).threshold &&
                          Sum(revSubs) >= |reverses| * WithDefaults(user).threshold
    ensures |reference| == 0 || (|sequence| == 0 && fuel >= |reference|) ==> out == Done([], 0)
  {
    var o := Options(accessor, WithDefaults(user));
    var fwd, rev;
    fwd, fwdOpens, fwdSubs := Align(sequence, reference, o, fuel);
    rev, revOpens, revSubs := Align(sequence, Reverse(reference), o, fuel);
    if fwd.Done? && rev.Done? {
      forwards, reverses := fwd.alignments, rev.alignments;
      var output := AppendFlipped(fwd.alignments, rev.alignments);
      out := Done(output, fwd.score + rev.score);
    } else {
      forwards, reverses, out := [], [], OutOfFuel;
    }
  }

  /**
   * The output holds the forward alignments, then each reverse alignment
   * with the strand of every reference-side gene flipped, in order.
   */
  predicate FlippedAfter(output: seq<Pair>, forwards: seq<Pair>, reverses: seq<Pair>)
  {
    |output| == |forwards| + |reverses| &&
    (forall q :: 0 <= q < |forwards| ==> output[q] == forwards[q]) &&
    (forall q :: 0 <= q < |reverses| ==> output[|forwards| + q] == (reverses[q].0, FlipAll(reverses[q].1)))
  }

  /** The loop that appends each reverse alignment, its reference side's strands flipped, after the forward ones. */
  method AppendFlipped(forwards: seq<Pair>, reverses: seq<Pair>) returns (output: seq<Pair>)
    ensures FlippedAfter(output, forwards, reverses)
  {
    output := forwards;
    var q := 0;
    while q < |reverses|
      invariant 0 <= q <= |reverses|
      invariant |output| == |forwards| + q
      invariant forall p :: 0 <= p < |forwards| ==> output[p] == forwards[p]
      invariant forall p :: 0 <= p < q ==> output[|forwards| + p] == (reverses[p].0, FlipAll(reverses[p].1))
    {
      var flipped := SmithWaterman.FlipStrands(reverses[q].1);
      output := output + [(reverses[q].0, flipped)];
      q := q + 1;
    }
  }
}
