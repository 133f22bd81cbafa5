/**
 * Merging aligned tracks into the context viewer: every selected track is
 * appended below the query track, and each of its genes is given the column
 * (`x`) it takes relative to the query genes and the row (`y`) of its track.
 */
module Merge {
  import opened Wrappers
  import opened Genes

  /** A track of the context viewer: its descriptive data and its genes. */
  datatype Group = Group(meta: string, genes: seq<Gene>)

  /** An alignment fit for merging, query row first: rows of one length, never a gap on both. */
  predicate Aligned(a: Pair)
  {
    |a.0| == |a.1| && NoDoubleGap(a.0, a.1)
  }

  /** `g` given column `x` on row `y`. */
  function Placed(g: Gene, x: real, y: int): Gene
  {
    g.(x := x, y := y)
  }

  // ---------------------------------------------------------------------
  // The layout of one alignment, column by column
  // ---------------------------------------------------------------------

  /**
   * The state of the layout loop: the query columns passed so far, the
   * genes met before the first query gene, the insertions waiting for the
   * next match, and the genes positioned so far.
   */
  datatype Scan = Scan(queryCount: int, preQuery: nat, insertionCount: nat, genes: seq<Gene>)

  /** What holds of the loop state after the first `i` columns. */
  predicate Consistent(a: Pair, i: nat, s: Scan)
    requires i <= |a.0|
  {
    s.queryCount >= 0
    && (s.queryCount == 0 ==> s.preQuery == i)
    && s.preQuery <= i && s.insertionCount <= i
    && (forall j :: 0 <= j < s.preQuery ==> a.0[j].None?)
  }

  /** The `p` genes that come before the query, on columns `1 - p` up to `0`. */
  function PreQuery(row: Gapped, p: nat, y: int): (r: seq<Gene>)
    requires p <= |row| && forall j :: 0 <= j < p ==> row[j].Some?
    ensures |r| == p
  {
    seq(p, j requires 0 <= j < p => Placed(row[j].value, -1.0 * (p - (j + 1)) as real, y))
  }

  /**
   * The genes before the first query gene keep their order and end at
   * column 0, one whole column apart, to the left of the query.
   */
  lemma PreQueryShape(row: Gapped, p: nat, y: int)
    requires p <= |row| && forall j :: 0 <= j < p ==> row[j].Some?
    ensures forall j :: 0 <= j < p ==> PreQuery(row, p, y)[j] == Placed(row[j].value, (j + 1 - p) as real, y)
  {
    forall j | 0 <= j < p
      ensures PreQuery(row, p, y)[j] == Placed(row[j].value, (j + 1 - p) as real, y)
    {
      assert -1.0 * (p - (j + 1)) as real == (j + 1 - p) as real;
    }
  }

  /** The column of a gene inserted at position `j`, `i - j` shares of `step` into the column before the match at `i`. */
  function Inserted(queryCount: int, step: real, i: int, j: int): real
  {
    queryCount as real + step * (i - j) as real - 1.0
  }

  /** The genes inserted at positions `lo` to `hi - 1` before the match at `i`, spread below column `queryCount`. */
  function Between(row: Gapped, lo: nat, hi: nat, i: int, queryCount: int, step: real, y: int): seq<Gene>
    requires lo <= hi <= |row|
    decreases hi - lo
  {
    if hi == lo then []
    else
      Between(row, lo, hi - 1, i, queryCount, step, y)
      + match row[hi - 1]
        case None => []
        case Some(g) => [Placed(g, Inserted(queryCount, step, i, hi - 1), y)]
  }

  /**
   * One column of the layout loop as the source writes it. At a match it
   * positions the genes before the query if there are any, and otherwise
   * the pending insertions; in the first case the insertions stay pending
   * and are taken, at the next match, from the columns just before that
   * match.
   */
  function StepAsWritten(a: Pair, length: int, y: int, i: nat, s: Scan): (r: Scan)
    requires Aligned(a) && i < |a.0| && Consistent(a, i, s)
    ensures Consistent(a, i + 1, r)
  {
    var qc := s.queryCount;
    if a.0[i].None? && qc == 0 then
      s.(preQuery := s.preQuery + 1)
    else if a.0[i].None? then
      if qc >= length then
        s.(queryCount := qc + 1, genes := s.genes + [Placed(a.1[i].value, qc as real, y)])
      else
        s.(insertionCount := s.insertionCount + 1)
    else if a.1[i].None? then
      s.(queryCount := qc + 1)
    else
      var before :=
        if s.preQuery > 0 then PreQuery(a.1, s.preQuery, y)
        else if s.insertionCount > 0 then
          Between(a.1, i - s.insertionCount, i, i, qc, 1.0 / (s.insertionCount + 1) as real, y)
        else [];
      Scan(qc + 1, 0, if s.preQuery > 0 then s.insertionCount else 0,
           s.genes + before + [Placed(a.1[i].value, qc as real, y)])
  }

  /** The loop state after the first `i` columns, as the source writes the loop. */
  function LayoutAsWritten(a: Pair, length: int, y: int, i: nat): (s: Scan)
    requires Aligned(a) && i <= |a.0|
    ensures Consistent(a, i, s)
  {
    if i == 0 then Scan(0, 0, 0, []) else StepAsWritten(a, length, y, i - 1, LayoutAsWritten(a, length, y, i - 1))
  }

  /**
   * One column of the layout loop, corrected: a gene of the query with no
   * gene of the track against it leaves the query column behind; a track
   * gene against no query gene waits (before the first query gene, or as an
   * insertion), unless the query has been passed and it takes the next
   * column; a match positions the genes before the query and then the
   * pending insertions, both of which are then cleared, and takes the
   * query gene's column.
   */
  function Step(a: Pair, length: int, y: int, i: nat, s: Scan): (r: Scan)
    requires Aligned(a) && i < |a.0| && Consistent(a, i, s)
    ensures Consistent(a, i + 1, r)
  {
    var qc := s.queryCount;
    if a.0[i].None? && qc == 0 then
      s.(preQuery := s.preQuery + 1)
    else if a.0[i].None? then
      if qc >= length then
        s.(queryCount := qc + 1, genes := s.genes + [Placed(a.1[i].value, qc as real, y)])
      else
        s.(insertionCount := s.insertionCount + 1)
    else if a.1[i].None? then
      s.(queryCount := qc + 1)
    else
      var before :=
        (if s.preQuery > 0 then PreQuery(a.1, s.preQuery, y) else []) +
        (if s.insertionCount > 0 then Between(a.1, i - s.insertionCount, i, i, qc, 1.0 / (s.insertionCount + 1) as real, y)
         else []);
      Scan(qc + 1, 0, 0, s.genes + before + [Placed(a.1[i].value, qc as real, y)])
  }

  /** The loop state after the first `i` columns. */
  function Layout(a: Pair, length: int, y: int, i: nat): (s: Scan)
    requires Aligned(a) && i <= |a.0|
    ensures Consistent(a, i, s)
  {
    if i == 0 then Scan(0, 0, 0, []) else Step(a, length, y, i - 1, Layout(a, length, y, i - 1))
  }

  /** The positioned genes of the track aligned by `a`, on row `y`, against a query of `length` genes. */
  function Arrangement(a: Pair, length: int, y: int): seq<Gene>
    requires Aligned(a)
  {
    Layout(a, length, y, |a.0|).genes
  }

  /** The layout loop of one alignment. */
  method Arrange(a: Pair, length: int, y: int) returns (genes: seq<Gene>)
    requires Aligned(a)
    ensures genes == Arrangement(a, length, y)
  {
    var queryCount, preQuery, insertionCount := 0, 0, 0;
    genes := [];
    var i := 0;
    while i < |a.0|
      invariant i <= |a.0|
      invariant Scan(queryCount, preQuery, insertionCount, genes) == Layout(a, length, y, i)
    {
      ghost var s := Layout(a, length, y, i);
      assert Layout(a, length, y, i + 1) == Step(a, length, y, i, s);
      if a.0[i].None? && queryCount == 0 {
        preQuery := preQuery + 1;
      } else if a.0[i].None? {
        if queryCount >= length {
          genes := genes + [Placed(a.1[i].value, queryCount as real, y)];
          queryCount := queryCount + 1;
        } else {
          insertionCount := insertionCount + 1;
        }
      } else if a.1[i].None? {
        queryCount := queryCount + 1;
      } else {
        genes, preQuery, insertionCount := PlaceMatch(a, length, y, i, queryCount, preQuery, insertionCount, genes);
        queryCount := queryCount + 1;
      }
      i := i + 1;
    }
  }

  /** Column i of the layout loop when both rows hold a gene there. */
  method PlaceMatch(a: Pair, length: int, y: int, i: nat, queryCount: int, preQuery: nat, insertionCount: nat, genes0: seq<Gene>)
    returns (genes: seq<Gene>, preQuery': nat, insertionCount': nat)
    requires Aligned(a) && i < |a.0| && a.0[i].Some? && a.1[i].Some?
    requires Consistent(a, i, Scan(queryCount, preQuery, insertionCount, genes0))
    ensures Scan(queryCount + 1, preQuery', insertionCount', genes) ==
            Step(a, length, y, i, Scan(queryCount, preQuery, insertionCount, genes0))
  {
    genes, preQuery', insertionCount' := genes0, preQuery, insertionCount;
    if preQuery > 0 {
      genes := PlacePreQuery(a.1, preQuery, y, genes);
      preQuery' := 0;
    }
    ghost var genes1 := genes;
    if insertionCount > 0 {
      genes := PlaceBetween(a.1, i, insertionCount, queryCount, y, genes);
      insertionCount' := 0;
    }
    Associative(genes0, genes1[|genes0|..], genes[|genes1|..]);
    Associative(genes0, genes[|genes0|..], [Placed(a.1[i].value, queryCount as real, y)]);
    genes := genes + [Placed(a.1[i].value, queryCount as real, y)];
  }

  /** The loop that positions the genes met before the first query gene. */
  method PlacePreQuery(row: Gapped, preQuery: nat, y: int, genes0: seq<Gene>) returns (genes: seq<Gene>)
    requires preQuery <= |row| && forall j :: 0 <= j < preQuery ==> row[j].Some?
    ensures genes == genes0 + PreQuery(row, preQuery, y)
  {
    genes := genes0;
    for j := 0 to preQuery
      invariant genes == genes0 + PreQuery(row, preQuery, y)[..j]
    {
      Associative(genes0, PreQuery(row, preQuery, y)[..j], [PreQuery(row, preQuery, y)[j]]);
      assert PreQuery(row, preQuery, y)[..j + 1] == PreQuery(row, preQuery, y)[..j] + [PreQuery(row, preQuery, y)[j]];
      genes := genes + [Placed(row[j].value, -1.0 * (preQuery - (j + 1)) as real, y)];
    }
  }

  /** The loop that spreads the pending insertions below the match at `i`. */
  method PlaceBetween(row: Gapped, i: nat, insertionCount: nat, queryCount: int, y: int, genes0: seq<Gene>)
    returns (genes: seq<Gene>)
    requires insertionCount <= i <= |row|
    ensures genes == genes0 + Between(row, i - insertionCount, i, i, queryCount, 1.0 / (insertionCount + 1) as real, y)
  {
    var step := 1.0 / (insertionCount + 1) as real;
    genes := genes0;
    for j := i - insertionCount to i
      invariant genes == genes0 + Between(row, i - insertionCount, j, i, queryCount, step, y)
    {
      ghost var done := Between(row, i - insertionCount, j, i, queryCount, step, y);
      if row[j].Some? {
        var g := Placed(row[j].value, Inserted(queryCount, step, i, j), y);
        assert Between(row, i - insertionCount, j + 1, i, queryCount, step, y) == done + [g];
        Associative(genes0, done, [g]);
        genes := genes + [g];
      } else {
        assert Between(row, i - insertionCount, j + 1, i, queryCount, step, y) == done + [];
      }
    }
  }

  // ---------------------------------------------------------------------
  // Properties of the layout
  // ---------------------------------------------------------------------

  /** `g` is a gene of `row`, given new coordinates and put on row `y`. */
  predicate FromRow(g: Gene, row: Gapped, y: int)
  {
    g.y == y && exists j :: 0 <= j < |row| && row[j].Some? && g == Placed(row[j].value, g.x, y)
  }

  lemma Scale(step: real, u: real, v: real)
    requires step > 0.0 && u < v
    ensures step * u < step * v
  {
    assert step * v - step * u == step * (v - u);
  }

  /** With `step` the share `1 / (c + 1)`, `k` shares for `1 <= k <= c` lie strictly inside one column. */
  lemma InsideColumn(step: real, c: nat, k: int)
    requires step > 0.0 && step * (c + 1) as real == 1.0 && 1 <= k <= c
    ensures 0.0 < step * k as real < 1.0
  {
    var p, q := step * k as real, step * (c + 1) as real;
    assert q - p == step * ((c + 1 - k) as real);
    assert step * ((c + 1 - k) as real) > 0.0;
    assert p < q;
    assert p > 0.0;
  }

  /** The genes present among positions `lo` to `hi - 1` are placed, once each and in order. */
  lemma {:induction false} BetweenPlaces(row: Gapped, lo: nat, hi: nat, i: int, qc: int, step: real, y: int)
    requires lo <= hi <= |row|
    ensures var r := Between(row, lo, hi, i, qc, step, y);
      && |r| == |Present(row[lo..hi])|
      && (forall m :: 0 <= m < |r| ==> r[m] == Placed(Present(row[lo..hi])[m], r[m].x, y))
    decreases hi - lo
  {
    if hi > lo {
      var r0 := Between(row, lo, hi - 1, i, qc, step, y);
      BetweenPlaces(row, lo, hi - 1, i, qc, step, y);
      assert row[lo..hi] == row[lo..hi - 1] + [row[hi - 1]];
      PresentAppend(row[lo..hi - 1], [row[hi - 1]]);
      assert Present([row[hi - 1]]) == if row[hi - 1].Some? then [row[hi - 1].value] else [];
    }
  }

  /**
   * The genes inserted in the `c` columns before a match at `i`, spread by
   * shares of `step == 1 / (c + 1)`, lie strictly between the previous query
   * column and the match's column, in reverse order of position.
   */
  lemma {:induction false} BetweenInsideGap(row: Gapped, c: nat, hi: nat, i: nat, qc: int, step: real, y: int)
    requires 1 <= c <= i && i - c <= hi <= i && i <= |row|
    requires step > 0.0 && step * (c + 1) as real == 1.0
    ensures InsideGap(Between(row, i - c, hi, i, qc, step, y), qc, Inserted(qc, step, i, hi - 1))
  {
    if hi > i - c {
      var r0 := Between(row, i - c, hi - 1, i, qc, step, y);
      BetweenInsideGap(row, c, hi - 1, i, qc, step, y);
      var low := Inserted(qc, step, i, hi - 1);
      InsertedInside(qc, step, c, i, hi - 1);
      InsertedDecreasing(qc, step, i, hi - 1);
      if row[hi - 1].Some? {
        var g := Placed(row[hi - 1].value, low, y);
        assert Between(row, i - c, hi, i, qc, step, y) == r0 + [g];
        InsideGapSnoc(r0, g, qc, Inserted(qc, step, i, hi - 1 - 1), low);
      }
    }
  }

  /**
   * `r` lies strictly inside the column before `qc`, at or right of `low`,
   * in decreasing order of column.
   */
  predicate InsideGap(r: seq<Gene>, qc: int, low: real)
  {
    && (forall m :: 0 <= m < |r| ==> qc as real - 1.0 < r[m].x < qc as real)
    && (forall m :: 0 <= m < |r| ==> r[m].x >= low)
    && (forall m, n :: 0 <= m < n < |r| ==> r[n].x < r[m].x)
  }

  lemma InsideGapSnoc(r: seq<Gene>, g: Gene, qc: int, up: real, low: real)
    requires InsideGap(r, qc, up) && qc as real - 1.0 < g.x < qc as real && g.x == low && low < up
    ensures InsideGap(r + [g], qc, low)
  {
  }

  /** An insertion among the `c` columns before the match at `i` lies strictly inside the column before it. */
  lemma InsertedInside(qc: int, step: real, c: nat, i: int, j: int)
    requires step > 0.0 && step * (c + 1) as real == 1.0 && i - c <= j < i
    ensures qc as real - 1.0 < Inserted(qc, step, i, j) < qc as real
  {
    InsideColumn(step, c, i - j);
  }

  /** Later insertions take smaller columns. */
  lemma InsertedDecreasing(qc: int, step: real, i: int, j: int)
    requires step > 0.0
    ensures Inserted(qc, step, i, j) < Inserted(qc, step, i, j - 1)
  {
    Scale(step, (i - j) as real, (i - (j - 1)) as real);
  }

  /** The loop state while every column so far has had no query gene. */
  lemma {:induction false} LeadingGaps(a: Pair, length: int, y: int, i: nat)
    requires Aligned(a) && i <= |a.0|
    requires forall j :: 0 <= j < i ==> a.0[j].None?
    ensures Layout(a, length, y, i) == Scan(0, i, 0, [])
  {
    if i > 0 {
      LeadingGaps(a, length, y, i - 1);
    }
  }

  /**
   * Every positioned gene lies on the track's row and is a gene of the
   * selected row with its coordinates replaced.
   */
  lemma OnTrackRow(a: Pair, length: int, y: int, i: nat)
    requires Aligned(a) && i <= |a.0|
    ensures AllFromRow(Layout(a, length, y, i).genes, a.1, y)
  {
    var genes, src := Layout(a, length, y, i).genes, Sources(a, length, y, i);
    SourcesDrawn(a, length, y, i);
    forall m | 0 <= m < |genes|
      ensures FromRow(genes[m], a.1, y)
    {
      assert a.1[src[m]].Some? && genes[m] == Placed(a.1[src[m]].value, genes[m].x, y);
    }
  }

  /** Every gene in the list is a gene of the row, on row y. */
  predicate AllFromRow(genes: seq<Gene>, row: Gapped, y: int)
  {
    forall m :: 0 <= m < |genes| ==> FromRow(genes[m], row, y)
  }

  /**
   * The query-column counter equals the number of query genes passed,
   * unless all of the query has been passed and genes were placed after it.
   */
  lemma {:induction false} QueryCountTracks(a: Pair, length: int, y: int, i: nat)
    requires Aligned(a) && i <= |a.0|
    ensures var q := |Present(a.0[..i])|;
      Layout(a, length, y, i).queryCount == q || length <= q < Layout(a, length, y, i).queryCount
  {
    if i > 0 {
      QueryCountTracks(a, length, y, i - 1);
      assert a.0[..i] == a.0[..i - 1] + [a.0[i - 1]];
      PresentAppend(a.0[..i - 1], [a.0[i - 1]]);
      assert Present([a.0[i - 1]]) == if a.0[i - 1].Some? then [a.0[i - 1].value] else [];
    }
  }

  /** The number of query genes among the first `i` columns. */
  function QueryBefore(a: Pair, i: nat): nat
    requires i <= |a.0|
  {
    |Present(a.0[..i])|
  }

  /**
   * A gene matched with the query gene of index `q` takes column `q`, the
   * column of that query gene, as long as the query has not been passed.
   */
  lemma MatchUnderQueryGene(a: Pair, length: int, y: int, i: nat)
    requires Aligned(a) && i < |a.0| && a.0[i].Some? && a.1[i].Some?
    requires QueryBefore(a, i) < length
    ensures var g := Layout(a, length, y, i + 1).genes;
      |g| > 0 && g[|g| - 1] == Placed(a.1[i].value, QueryBefore(a, i) as real, y)
    ensures QueryBefore(a, i) < |Present(a.0)| && Present(a.0)[QueryBefore(a, i)] == a.0[i].value
  {
    QueryCountTracks(a, length, y, i);
    assert a.0 == a.0[..i] + [a.0[i]] + a.0[i + 1..];
    PresentAppend(a.0[..i] + [a.0[i]], a.0[i + 1..]);
    PresentAppend(a.0[..i], [a.0[i]]);
    assert Present([a.0[i]]) == [a.0[i].value];
  }

  /**
   * Once the whole query has been passed, a gene of the selected track
   * only takes the next whole column to the right of every query gene.
   */
  lemma AfterQuery(a: Pair, length: int, y: int, i: nat)
    requires Aligned(a) && i < |a.0| && a.0[i].None?
    requires 0 < QueryBefore(a, i) && length <= QueryBefore(a, i)
    ensures var s := Layout(a, length, y, i);
      && s.queryCount >= QueryBefore(a, i)
      && Layout(a, length, y, i + 1).genes == s.genes + [Placed(a.1[i].value, s.queryCount as real, y)]
  {
    QueryCountTracks(a, length, y, i);
  }

  /**
   * When the selected track starts with `i` genes before its first match,
   * the last of them and the first matched gene both take column 0.
   */
  lemma {:induction false} PreQueryMeetsFirstMatch(a: Pair, length: int, y: int, i: nat)
    requires Aligned(a) && 0 < i < |a.0| && a.0[i].Some? && a.1[i].Some?
    requires forall j :: 0 <= j < i ==> a.0[j].None?
    ensures var g := Layout(a, length, y, i + 1).genes;
      && |g| == i + 1
      && (forall j :: 0 <= j < i ==> g[j] == Placed(a.1[j].value, (j + 1 - i) as real, y))
      && g[i - 1].x == 0.0 && g[i] == Placed(a.1[i].value, 0.0, y)
  {
    LeadingGaps(a, length, y, i);
    PreQueryShape(a.1, i, y);
    var s := Layout(a, length, y, i);
    assert Layout(a, length, y, i + 1) == Step(a, length, y, i, s);
    assert Layout(a, length, y, i + 1).genes == PreQuery(a.1, i, y) + [Placed(a.1[i].value, 0.0, y)];
  }

  /**
   * As the source writes it, the pending insertions survive the positioning
   * of the genes before the query: here the gene inserted at position 2 is
   * never positioned, and the gene matched at position 3 is positioned
   * twice, at its own column and again half a column to its right as if it
   * had been inserted.
   */
  lemma PendingInsertionsSurvivePreQuery(q0: Gene, q1: Gene, q2: Gene, s0: Gene, s1: Gene, s2: Gene, s3: Gene)
    requires s1.name !in {s0.name, s2.name, s3.name}
    ensures var a := ([None, Some(q0), None, Some(q1), Some(q2)], [Some(s0), None, Some(s1), Some(s2), Some(s3)]);
      && Aligned(a)
      && LayoutAsWritten(a, 3, 1, 5).genes == [Placed(s0, 0.0, 1), Placed(s2, 1.0, 1), Placed(s2, 1.5, 1), Placed(s3, 2.0, 1)]
      && forall g :: g in LayoutAsWritten(a, 3, 1, 5).genes ==> g.name != s1.name
  {
    var a := ([None, Some(q0), None, Some(q1), Some(q2)], [Some(s0), None, Some(s1), Some(s2), Some(s3)]);
    assert Aligned(a);
    assert LayoutAsWritten(a, 3, 1, 1) == Scan(0, 1, 0, []);
    assert LayoutAsWritten(a, 3, 1, 2) == Scan(1, 1, 0, []);
    assert LayoutAsWritten(a, 3, 1, 3) == Scan(1, 1, 1, []);
    assert LayoutAsWritten(a, 3, 1, 4) == Scan(2, 0, 1, [Placed(s0, 0.0, 1), Placed(s2, 1.0, 1)]);
    assert Inserted(2, 1.0 / 2 as real, 4, 3) == 1.5;
  }

  /**
   * The corrected layout on the same alignment: the gene before the query,
   * the inserted gene half a column before the first match, and each
   * matched gene once, under its query gene.
   */
  lemma PendingInsertionsPlaced(q0: Gene, q1: Gene, q2: Gene, s0: Gene, s1: Gene, s2: Gene, s3: Gene)
    ensures var a := ([None, Some(q0), None, Some(q1), Some(q2)], [Some(s0), None, Some(s1), Some(s2), Some(s3)]);
      && Aligned(a)
      && Arrangement(a, 3, 1) == [Placed(s0, 0.0, 1), Placed(s1, 0.5, 1), Placed(s2, 1.0, 1), Placed(s3, 2.0, 1)]
  {
    var a := ([None, Some(q0), None, Some(q1), Some(q2)], [Some(s0), None, Some(s1), Some(s2), Some(s3)]);
    assert Aligned(a);
    assert Layout(a, 3, 1, 1) == Scan(0, 1, 0, []);
    assert Layout(a, 3, 1, 2) == Scan(1, 1, 0, []);
    assert Layout(a, 3, 1, 3) == Scan(1, 1, 1, []);
    assert Inserted(1, 1.0 / 2 as real, 3, 2) == 0.5;
    assert Between(a.1, 2, 3, 3, 1, 1.0 / 2 as real, 1) == [Placed(s1, 0.5, 1)];
    assert Layout(a, 3, 1, 4) == Scan(2, 0, 0, [Placed(s0, 0.0, 1), Placed(s1, 0.5, 1), Placed(s2, 1.0, 1)]);
  }

  // ---------------------------------------------------------------------
  // Where the positioned genes come from
  // ---------------------------------------------------------------------

  /** The positions `lo` to `hi - 1` of `row` that hold a gene, in order. */
  function PresentAt(row: Gapped, lo: nat, hi: nat): seq<nat>
    requires lo <= hi <= |row|
    decreases hi - lo
  {
    if hi == lo then [] else PresentAt(row, lo, hi - 1) + (if row[hi - 1].Some? then [hi - 1] else [])
  }

  /** The positions 0 to p - 1. */
  function Upto(p: nat): seq<nat>
  {
    seq(p, j requires 0 <= j < p => j)
  }

  /**
   * The positions of the selected row whose genes the layout has positioned
   * after the first `i` columns, in the order it positioned them.
   */
  function Sources(a: Pair, length: int, y: int, i: nat): seq<nat>
    requires Aligned(a) && i <= |a.0|
  {
    if i == 0 then []
    else
      var k, s := i - 1, Layout(a, length, y, i - 1);
      var src := Sources(a, length, y, i - 1);
      if a.0[k].None? && s.queryCount == 0 then src
      else if a.0[k].None? then (if s.queryCount >= length then src + [k] else src)
      else if a.1[k].None? then src
      else src + Upto(s.preQuery) + PresentAt(a.1, k - s.insertionCount, k) + [k]
  }

  /** Gene m of `genes` is the gene of `row` at position cols[m], given new coordinates on row y. */
  predicate DrawnFrom(genes: seq<Gene>, cols: seq<nat>, row: Gapped, y: int)
  {
    |genes| == |cols| &&
    forall m :: 0 <= m < |cols| ==> cols[m] < |row| && row[cols[m]].Some? && genes[m] == Placed(row[cols[m]].value, genes[m].x, y)
  }

  /** Strictly increasing: no position is listed twice. */
  predicate Increasing(cols: seq<nat>)
  {
    forall m, n :: 0 <= m < n < |cols| ==> cols[m] < cols[n]
  }

  /** Every position is below b. */
  predicate Below(cols: seq<nat>, b: int)
  {
    forall m :: 0 <= m < |cols| ==> cols[m] < b
  }

  lemma DrawnAppend(g1: seq<Gene>, c1: seq<nat>, g2: seq<Gene>, c2: seq<nat>, row: Gapped, y: int)
    requires DrawnFrom(g1, c1, row, y) && DrawnFrom(g2, c2, row, y)
    ensures DrawnFrom(g1 + g2, c1 + c2, row, y)
  {
    forall m | 0 <= m < |c1 + c2|
      ensures (c1 + c2)[m] < |row| && row[(c1 + c2)[m]].Some? && (g1 + g2)[m] == Placed(row[(c1 + c2)[m]].value, (g1 + g2)[m].x, y)
    {
      if m >= |c1| {
        assert (c1 + c2)[m] == c2[m - |c1|] && (g1 + g2)[m] == g2[m - |g1|];
      }
    }
  }

  /** Two increasing lists, all of the first below b and all of the second at least b, join into an increasing list. */
  lemma IncreasingJoin(c1: seq<nat>, c2: seq<nat>, b: int)
    requires Increasing(c1) && Increasing(c2) && Below(c1, b)
    requires forall n :: 0 <= n < |c2| ==> c2[n] >= b
    ensures Increasing(c1 + c2)
  {
    forall m, n | 0 <= m < n < |c1 + c2|
      ensures (c1 + c2)[m] < (c1 + c2)[n]
    {
      if n >= |c1| {
        assert (c1 + c2)[n] == c2[n - |c1|];
        if m >= |c1| {
          assert (c1 + c2)[m] == c2[m - |c1|];
        }
      }
    }
  }

  /** The present positions from lo to hi - 1 increase and lie within lo to hi - 1. */
  lemma {:induction false} PresentAtOrdered(row: Gapped, lo: nat, hi: nat)
    requires lo <= hi <= |row|
    ensures Increasing(PresentAt(row, lo, hi)) && Below(PresentAt(row, lo, hi), hi)
    ensures forall n :: 0 <= n < |PresentAt(row, lo, hi)| ==> PresentAt(row, lo, hi)[n] >= lo
    decreases hi - lo
  {
    if hi > lo {
      PresentAtOrdered(row, lo, hi - 1);
      if row[hi - 1].Some? {
        IncreasingJoin(PresentAt(row, lo, hi - 1), [hi - 1], hi - 1);
      }
    }
  }

  /** The inserted genes Between positions are the genes of the row at the present positions. */
  lemma {:induction false} BetweenDrawn(row: Gapped, lo: nat, hi: nat, i: int, qc: int, step: real, y: int)
    requires lo <= hi <= |row|
    ensures DrawnFrom(Between(row, lo, hi, i, qc, step, y), PresentAt(row, lo, hi), row, y)
    decreases hi - lo
  {
    if hi > lo {
      BetweenDrawn(row, lo, hi - 1, i, qc, step, y);
      if row[hi - 1].Some? {
        var g := Placed(row[hi - 1].value, Inserted(qc, step, i, hi - 1), y);
        DrawnAppend(Between(row, lo, hi - 1, i, qc, step, y), PresentAt(row, lo, hi - 1), [g], [hi - 1], row, y);
      }
    }
  }

  /** The genes before the query come from positions 0 to p - 1, in order. */
  lemma PreQueryDrawn(row: Gapped, p: nat, y: int)
    requires p <= |row| && forall j :: 0 <= j < p ==> row[j].Some?
    ensures DrawnFrom(PreQuery(row, p, y), Upto(p), row, y) && Increasing(Upto(p)) && Below(Upto(p), p)
  {
    PreQueryShape(row, p, y);
  }

  /** The match column adds the genes before the query, the pending insertions and the matched gene, drawn from their positions. */
  lemma MatchDrawn(a: Pair, length: int, y: int, k: nat, s: Scan, src: seq<nat>)
    requires Aligned(a) && k < |a.0| && Consistent(a, k, s) && a.0[k].Some? && a.1[k].Some?
    requires DrawnFrom(s.genes, src, a.1, y)
    ensures DrawnFrom(Step(a, length, y, k, s).genes, src + Upto(s.preQuery) + PresentAt(a.1, k - s.insertionCount, k) + [k], a.1, y)
  {
    var pre := if s.preQuery > 0 then PreQuery(a.1, s.preQuery, y) else [];
    var ins := if s.insertionCount > 0
               then Between(a.1, k - s.insertionCount, k, k, s.queryCount, 1.0 / (s.insertionCount + 1) as real, y)
               else [];
    var placed := [Placed(a.1[k].value, s.queryCount as real, y)];
    var front, mid := Upto(s.preQuery), PresentAt(a.1, k - s.insertionCount, k);
    assert Step(a, length, y, k, s).genes == s.genes + (pre + ins) + placed;
    PreQueryDrawn(a.1, s.preQuery, y);
    BetweenDrawn(a.1, k - s.insertionCount, k, k, s.queryCount, 1.0 / (s.insertionCount + 1) as real, y);
    if s.insertionCount == 0 {
      assert mid == [];
    }
    DrawnAppend(pre, front, ins, mid, a.1, y);
    DrawnAppend(s.genes, src, pre + ins, front + mid, a.1, y);
    DrawnAppend(s.genes + (pre + ins), src + (front + mid), placed, [k], a.1, y);
    Associative(src, front, mid);
  }

  /** Every positioned gene is the gene of the selected row at its listed source position. */
  lemma {:induction false} SourcesDrawn(a: Pair, length: int, y: int, i: nat)
    requires Aligned(a) && i <= |a.0|
    ensures DrawnFrom(Layout(a, length, y, i).genes, Sources(a, length, y, i), a.1, y)
  {
    if i > 0 {
      SourcesDrawn(a, length, y, i - 1);
      StepDrawn(a, length, y, i - 1);
    }
  }

  /** One column of the layout keeps every positioned gene drawn from its listed position. */
  lemma StepDrawn(a: Pair, length: int, y: int, k: nat)
    requires Aligned(a) && k < |a.0|
    requires DrawnFrom(Layout(a, length, y, k).genes, Sources(a, length, y, k), a.1, y)
    ensures DrawnFrom(Layout(a, length, y, k + 1).genes, Sources(a, length, y, k + 1), a.1, y)
  {
    var s, src := Layout(a, length, y, k), Sources(a, length, y, k);
    var r, t := Layout(a, length, y, k + 1), Sources(a, length, y, k + 1);
    assert r == Step(a, length, y, k, s);
    if a.0[k].None? && s.queryCount != 0 && s.queryCount >= length {
      var placed := [Placed(a.1[k].value, s.queryCount as real, y)];
      assert r.genes == s.genes + placed && t == src + [k];
      DrawnAppend(s.genes, src, placed, [k], a.1, y);
    } else if a.0[k].Some? && a.1[k].Some? {
      assert t == src + Upto(s.preQuery) + PresentAt(a.1, k - s.insertionCount, k) + [k];
      MatchDrawn(a, length, y, k, s, src);
    } else {
      assert r.genes == s.genes && t == src;
    }
  }

  /** A query gene at column i is one of the query genes, so fewer than all of them come before it. */
  lemma QueryGeneAhead(a: Pair, i: nat)
    requires i < |a.0| && a.0[i].Some?
    ensures QueryBefore(a, i) < |Present(a.0)|
  {
    assert a.0 == a.0[..i] + [a.0[i]] + a.0[i + 1..];
    PresentAppend(a.0[..i] + [a.0[i]], a.0[i + 1..]);
    PresentAppend(a.0[..i], [a.0[i]]);
    assert Present([a.0[i]]) == [a.0[i].value];
  }

  /** What the layout keeps true of the source positions while the alignment's query row holds at most `length` genes. */
  predicate SourcesOrdered(a: Pair, length: int, i: nat, s: Scan, src: seq<nat>)
    requires i <= |a.0|
  {
    Increasing(src) && Below(src, i) &&
    (s.queryCount == 0 ==> s.insertionCount == 0 && src == []) &&
    (s.queryCount < length ==> Below(src, i - s.insertionCount) && (s.preQuery > 0 ==> src == [])) &&
    s.preQuery + s.insertionCount <= i
  }

  /**
   * While the alignment's query row holds at most `length` genes, the layout
   * positions the genes of strictly increasing positions of the selected
   * row: no gene is positioned twice.
   */
  lemma {:induction false} SourcesIncrease(a: Pair, length: int, y: int, i: nat)
    requires Aligned(a) && i <= |a.0| && |Present(a.0)| <= length
    ensures SourcesOrdered(a, length, i, Layout(a, length, y, i), Sources(a, length, y, i))
  {
    if i > 0 {
      SourcesIncrease(a, length, y, i - 1);
      StepOrdered(a, length, y, i - 1);
    }
  }

  /** One column of the layout keeps SourcesOrdered. */
  lemma StepOrdered(a: Pair, length: int, y: int, k: nat)
    requires Aligned(a) && k < |a.0| && |Present(a.0)| <= length
    requires SourcesOrdered(a, length, k, Layout(a, length, y, k), Sources(a, length, y, k))
    ensures SourcesOrdered(a, length, k + 1, Layout(a, length, y, k + 1), Sources(a, length, y, k + 1))
  {
    var s, src := Layout(a, length, y, k), Sources(a, length, y, k);
    var r, t := Layout(a, length, y, k + 1), Sources(a, length, y, k + 1);
    assert r == Step(a, length, y, k, s);
    if a.0[k].None? && s.queryCount != 0 && s.queryCount >= length {
      assert t == src + [k];
      IncreasingJoin(src, [k], k);
    } else if a.0[k].Some? && a.1[k].Some? {
      assert t == src + Upto(s.preQuery) + PresentAt(a.1, k - s.insertionCount, k) + [k];
      QueryCountTracks(a, length, y, k);
      QueryGeneAhead(a, k);
      MatchOrdered(a, length, k, s, src);
    } else {
      assert t == src;
    }
  }

  /** A match column, met before the query has been passed, keeps the listed positions increasing. */
  lemma MatchOrdered(a: Pair, length: int, k: nat, s: Scan, src: seq<nat>)
    requires Aligned(a) && k < |a.0| && Consistent(a, k, s) && s.queryCount < length
    requires SourcesOrdered(a, length, k, s, src)
    ensures Increasing(src + Upto(s.preQuery) + PresentAt(a.1, k - s.insertionCount, k) + [k])
    ensures Below(src + Upto(s.preQuery) + PresentAt(a.1, k - s.insertionCount, k) + [k], k + 1)
  {
    var lo := k - s.insertionCount;
    var front, mid := src + Upto(s.preQuery), PresentAt(a.1, lo, k);
    assert Increasing(front) && Below(front, lo) by {
      if s.preQuery > 0 {
        assert src == [] && front == Upto(s.preQuery);
      } else {
        assert Upto(0) == [] && front == src;
      }
    }
    PresentAtOrdered(a.1, lo, k);
    IncreasingJoin(front, mid, lo);
    JoinBelow(front, mid, k);
    IncreasingJoin(front + mid, [k], k);
    JoinBelow(front + mid, [k], k + 1);
  }

  /** Two lists of positions below b join into one. */
  lemma JoinBelow(c1: seq<nat>, c2: seq<nat>, b: int)
    requires Below(c1, b) && Below(c2, b)
    ensures Below(c1 + c2, b)
  {
  }

  /**
   * The corrected layout positions each gene of the selected row at most
   * once: every gene it positions is the gene at a listed position of the
   * selected row, and the positions strictly increase, provided the
   * alignment's query row holds at most the query's `length` genes.
   */
  lemma PositionedOnce(a: Pair, length: int, y: int)
    requires Aligned(a) && |Present(a.0)| <= length
    ensures DrawnFrom(Arrangement(a, length, y), Sources(a, length, y, |a.0|), a.1, y)
    ensures Increasing(Sources(a, length, y, |a.0|))
  {
    SourcesDrawn(a, length, y, |a.0|);
    SourcesIncrease(a, length, y, |a.0|);
  }

  /**
   * The pending insertions are read from the columns just before the
   * match, so a deletion between an inserted gene and the next match hides
   * it: here s1, inserted before the deleted query gene q1, is never
   * positioned, and the layout positions genes at most once, not exactly
   * once.
   */
  lemma InsertionBeforeDeletionDropped(q0: Gene, q1: Gene, q2: Gene, s0: Gene, s1: Gene, s2: Gene)
    ensures var a := ([Some(q0), None, Some(q1), Some(q2)], [Some(s0), Some(s1), None, Some(s2)]);
      && Aligned(a)
      && Arrangement(a, 3, 1) == [Placed(s0, 0.0, 1), Placed(s2, 2.0, 1)]
  {
    var a := ([Some(q0), None, Some(q1), Some(q2)], [Some(s0), Some(s1), None, Some(s2)]);
    assert Aligned(a);
    assert Layout(a, 3, 1, 1) == Scan(1, 0, 0, [Placed(s0, 0.0, 1)]);
    assert Layout(a, 3, 1, 2) == Scan(1, 0, 1, [Placed(s0, 0.0, 1)]);
    assert Layout(a, 3, 1, 3) == Scan(2, 0, 1, [Placed(s0, 0.0, 1)]);
    assert Between(a.1, 2, 3, 3, 2, 1.0 / 2 as real, 1) == [];
  }

  // ---------------------------------------------------------------------
  // The context data
  // ---------------------------------------------------------------------

  /** The tracks of the context viewer, query track first. */
  class ContextData {
    var groups: seq<Group>

    constructor (groups: seq<Group>)
      ensures this.groups == groups
    {
      this.groups := groups;
    }

    /**
     * Appends the `k`-th selected track for every alignment `k`, its genes
     * replaced by the ones `alignments[k]` positions on row `k + 1`.
     */
    method Merge(selected: seq<Group>, alignments: seq<Pair>)
      requires |groups| >= 1 && |alignments| <= |selected|
      requires forall k :: 0 <= k < |alignments| ==> Aligned(alignments[k])
      modifies this
      ensures |groups| == |old(groups)| + |alignments|
      ensures groups[..|old(groups)|] == old(groups)
      ensures forall k :: 0 <= k < |alignments| ==>
        groups[|old(groups)| + k]
          == selected[k].(genes := Arrangement(alignments[k], |old(groups)[0].genes|, k + 1))
    {
      var n := |groups|;
      var length := |groups[0].genes|;
      for k := 0 to |alignments|
        invariant |groups| == n + k && groups[..n] == old(groups)
        invariant forall m :: 0 <= m < k ==>
          groups[n + m] == selected[m].(genes := Arrangement(alignments[m], length, m + 1))
      {
        var genes := Arrange(alignments[k], length, k + 1);
        groups := groups + [selected[k].(genes := genes)];
      }
    }
  }
}
