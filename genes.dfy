/**
 * Genes, the elements the aligners compare, and gapped lists of them.
 * A gene is a value: the source's `clone` of a gene is a copy of the value,
 * so nothing done to a copy can be seen through the caller's original.
 */
module Genes {
  import opened Wrappers

  /** A gene as the context viewer sees it: identity, orientation and layout coordinates. */
  datatype Gene = Gene(name: string, family: string, strand: int, x: real, y: int)

  /** A gapped list: `None` is the explicit "no gene here" marker (`null` in the source). */
  type Gapped = seq<Option<Gene>>

  /** The same gene on the opposite strand. */
  function Flip(g: Gene): (f: Gene)
    ensures f.strand == -g.strand
    ensures f.(strand := g.strand) == g
  {
    g.(strand := -1 * g.strand)
  }

  /** Every gene of a gapped list flipped to the opposite strand; gaps stay gaps. */
  function FlipAll(s: Gapped): (r: Gapped)
    ensures |r| == |s|
    ensures forall k :: 0 <= k < |s| ==> r[k] == (if s[k].None? then None else Some(Flip(s[k].value)))
  {
    seq(|s|, k requires 0 <= k < |s| => if s[k].None? then None else Some(Flip(s[k].value)))
  }

  /** The genes of a gapped list, in order, without its gaps. */
  function Present(s: Gapped): (r: seq<Gene>)
    ensures |r| <= |s|
  {
    if s == [] then []
    else (if s[0].Some? then [s[0].value] else []) + Present(s[1..])
  }

  /** Every gene of a plain list, wrapped as present. */
  function AllPresent(s: seq<Gene>): (r: Gapped)
    ensures |r| == |s|
  {
    if s == [] then [] else [Some(s[0])] + AllPresent(s[1..])
  }

  /** n gaps in a row. */
  function Gaps(n: nat): (g: Gapped)
    ensures |g| == n
  {
    if n == 0 then [] else [None] + Gaps(n - 1)
  }

  /** The list read backwards (`Array.prototype.reverse` on a copy). */
  function Reverse<T>(s: seq<T>): (r: seq<T>)
    ensures |r| == |s|
    ensures forall k :: 0 <= k < |s| ==> r[k] == s[|s| - 1 - k]
  {
    seq(|s|, k requires 0 <= k < |s| => s[|s| - 1 - k])
  }

  /** An alignment: the two gapped rows, gap for gap. */
  type Pair = (Gapped, Gapped)

  /** At every position at least one side holds a gene. */
  predicate NoDoubleGap(s: Gapped, r: Gapped)
    requires |s| == |r|
  {
    forall k :: 0 <= k < |s| ==> s[k].Some? || r[k].Some?
  }

  lemma {:induction false} PresentPrepend(o: Option<Gene>, s: Gapped)
    ensures Present([o] + s) == (if o.Some? then [o.value] else []) + Present(s)
  {
    assert ([o] + s)[1..] == s;
  }

  lemma {:induction false} PresentAppend(s: Gapped, t: Gapped)
    ensures Present(s + t) == Present(s) + Present(t)
  {
    if s != [] {
      assert (s + t)[0] == s[0] && (s + t)[1..] == s[1..] + t;
      PresentAppend(s[1..], t);
      var h := if s[0].Some? then [s[0].value] else [];
      calc {
        Present(s + t);
        h + Present(s[1..] + t);
        h + (Present(s[1..]) + Present(t));
        (h + Present(s[1..])) + Present(t);
      }
    } else {
      assert s + t == t;
    }
  }

  lemma {:induction false} AllPresentAt(s: seq<Gene>, k: nat)
    requires k < |s|
    ensures AllPresent(s)[k] == Some(s[k])
  {
    if k > 0 {
      AllPresentAt(s[1..], k - 1);
    }
  }

  lemma {:induction false} PresentAllPresent(s: seq<Gene>)
    ensures Present(AllPresent(s)) == s
  {
    if s != [] {
      PresentPrepend(Some(s[0]), AllPresent(s[1..]));
      PresentAllPresent(s[1..]);
    }
  }

  /** Flipping every strand twice gives back the original list. */
  lemma FlipAllTwice(s: Gapped)
    ensures FlipAll(FlipAll(s)) == s
  {
    assert forall k :: 0 <= k < |s| ==> FlipAll(FlipAll(s))[k] == s[k];
  }

  /** Flipping keeps the gaps where they were and flips exactly the present genes. */
  lemma {:induction false} PresentFlipAll(s: Gapped)
    ensures Present(FlipAll(s)) == seq(|Present(s)|, k requires 0 <= k < |Present(s)| => Flip(Present(s)[k]))
  {
    if s != [] {
      assert FlipAll(s)[1..] == FlipAll(s[1..]);
      PresentFlipAll(s[1..]);
    }
  }

  lemma {:induction false} GapsAt(n: nat, k: nat)
    requires k < n
    ensures Gaps(n)[k] == None
  {
    if k > 0 {
      GapsAt(n - 1, k - 1);
    }
  }

  lemma {:induction false} PresentGaps(n: nat)
    ensures Present(Gaps(n)) == []
  {
    if n > 0 {
      PresentPrepend(None, Gaps(n - 1));
      PresentGaps(n - 1);
    }
  }
}
