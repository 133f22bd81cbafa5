/**
 * `viterbi` (viterbi.ts): Viterbi decoding of a gene sequence through a
 * profile HMM by message passing. Log-probabilities live in two tables
 * keyed by state and sequence position, `probs` and the back-pointers
 * `ptrs`; `propagate` relaxes one transition into one table entry, a fixed
 * schedule of relaxations fills the tables, and `traceback` follows the
 * pointers from the end state back to the start state.
 *
 * Edge and emission log-weights (`Math.log` of the HMM's probabilities) are
 * taken as given functions into LogW, the reals extended with -Infinity.
 */
module Viterbi {
  import opened Wrappers

  // ---------------------------------------------------------------------
  // States and their names
  // ---------------------------------------------------------------------

  /** The HMM's states: "a", "z", and "m<j>", "i<j>", "d<j>" per column j. */
  datatype State = Start | End | Match(j: nat) | Insert(j: nat) | Delete(j: nat)

  function Digit(n: nat): (c: char)
    requires n < 10
    ensures '0' <= c <= '9'
  {
    "0123456789"[n]
  }

  /** The decimal numeral of n (`"m" + j` in the source). */
  function NatToString(n: nat): (s: string)
    ensures |s| >= 1
    ensures forall k :: 0 <= k < |s| ==> '0' <= s[k] <= '9'
  {
    if n < 10 then [Digit(n)] else NatToString(n / 10) + [Digit(n % 10)]
  }

  /** The state's id string. */
  function Name(s: State): (r: string)
    ensures |r| >= 1
  {
    match s
    case Start => "a"
    case End => "z"
    case Match(j) => "m" + NatToString(j)
    case Insert(j) => "i" + NatToString(j)
    case Delete(j) => "d" + NatToString(j)
  }

  /**
   * JavaScript's `<` on strings: at the first position where they differ
   * the character code of x is smaller, or x is a proper prefix of y.
   */
  predicate StrLess(x: string, y: string)
  {
    exists k | 0 <= k < |y| :: k <= |x| && x[..k] == y[..k] && (k < |x| ==> x[k] < y[k])
  }

  /** The empty string, what an unset pointer reads as, is below every state's name, and nothing is below itself. */
  lemma StrLessFacts(x: string, s: State)
    ensures StrLess("", Name(s))
    ensures !StrLess(x, x)
  {
    assert ""[..0] == Name(s)[..0];
  }

  /**
   * `to.startsWith("d")` read as a number: how far back the source position
   * of a transition into this state lies (0 for a deletion, 1 otherwise).
   */
  function Shift(s: State): (k: int)
    ensures k == 0 <==> s.Delete?
    ensures k == 0 || k == 1
  {
    if s.Delete? then 0 else 1
  }

  /** An order on states in which every same-position transition (into a deletion) goes up. */
  function Rank(s: State): nat
  {
    match s
    case Start => 0
    case End => 0
    case Match(j) => 2 * j + 1
    case Insert(j) => 2 * j + 1
    case Delete(j) => 2 * j + 2
  }

  // ---------------------------------------------------------------------
  // Log-weights
  // ---------------------------------------------------------------------

  /** A log-probability: -Infinity or a real number. */
  datatype LogW = NegInf | Fin(r: real)

  /** `+` on log-weights: -Infinity absorbs. */
  function Add(x: LogW, y: LogW): (z: LogW)
    ensures z.NegInf? <==> x.NegInf? || y.NegInf?
    ensures z.Fin? ==> z.r == x.r + y.r
  {
    if x.NegInf? || y.NegInf? then NegInf else Fin(x.r + y.r)
  }

  /** `x > y` on log-weights. */
  predicate Above(x: LogW, y: LogW)
  {
    x.Fin? && (y.NegInf? || x.r > y.r)
  }

  /** The HMM: its column count and the log-weights of its edges and emissions. */
  datatype Hmm = Hmm(numColumns: nat, edge: (State, State) -> LogW, emit: (State, Option<string>) -> LogW)

  /** `seq[i]`: undefined outside the sequence. */
  function SymbolAt(sequence: seq<string>, i: int): (o: Option<string>)
    ensures o.Some? <==> 0 <= i < |sequence|
  {
    if 0 <= i < |sequence| then Some(sequence[i]) else None
  }

  // ---------------------------------------------------------------------
  // The tables and one relaxation
  // ---------------------------------------------------------------------

  /** A table entry: a state at a sequence position (-1 before the first symbol). */
  type Key = (State, int)

  /** `probs` and `ptrs`; an absent key is an unset entry. */
  datatype Table = Table(probs: map<Key, LogW>, ptrs: map<Key, State>)

  /** One call `propagate(from, to, pos)`. */
  datatype Transition = Transition(from: State, to: State, pos: int)

  /** The entry a transition writes. */
  function Target(e: Transition): Key
  {
    (e.to, e.pos)
  }

  /** The entry a transition reads: one position back unless the target is a deletion. */
  function Source(e: Transition): (k: Key)
    ensures k.0 == e.from && k.1 == e.pos - Shift(e.to)
  {
    (e.from, e.pos - Shift(e.to))
  }

  /** `probs[to][i] || -Infinity`: an unset entry, and a stored 0, read as -Infinity. */
  function ReadProb(t: Table, k: Key): (v: LogW)
    ensures k !in t.probs ==> v == NegInf
    ensures k in t.probs && t.probs[k] == Fin(0.0) ==> v == NegInf
    ensures k in t.probs && t.probs[k] != Fin(0.0) ==> v == t.probs[k]
  {
    if k in t.probs && t.probs[k] != Fin(0.0) then t.probs[k] else NegInf
  }

  /** `ptrs[to][i] || ""`. */
  function ReadPtr(t: Table, k: Key): (s: string)
    ensures k !in t.ptrs ==> s == ""
    ensures k in t.ptrs ==> s == Name(t.ptrs[k])
  {
    if k in t.ptrs then Name(t.ptrs[k]) else ""
  }

  /**
   * The candidate log-weight: the source entry plus the edge's weight, plus
   * the emission of the symbol at the position when the target is a match
   * state. An unset source entry gives no candidate (`undefined + x` is NaN,
   * and NaN wins no comparison).
   */
  function Candidate(hmm: Hmm, sequence: seq<string>, t: Table, e: Transition): (c: Option<LogW>)
    ensures c.Some? <==> Source(e) in t.probs
  {
    if Source(e) !in t.probs then None
    else
      var c := Add(t.probs[Source(e)], hmm.edge(e.from, e.to));
      Some(if e.to.Match? then Add(c, hmm.emit(e.to, SymbolAt(sequence, e.pos))) else c)
  }

  /** The candidate replaces the entry: strictly greater, or equal and `from > currentPtr`. */
  predicate Wins(c: LogW, t: Table, e: Transition)
  {
    Above(c, ReadProb(t, Target(e))) || (c == ReadProb(t, Target(e)) && StrLess(ReadPtr(t, Target(e)), Name(e.from)))
  }

  /**
   * `propagate(from, to, pos)` on the tables: the target entry takes the
   * candidate and the pointer `from` exactly when the candidate wins;
   * nothing else changes.
   */
  function Relax(hmm: Hmm, sequence: seq<string>, t: Table, e: Transition): Table
  {
    var c := Candidate(hmm, sequence, t, e);
    if c.Some? && Wins(c.value, t, e) then Table(t.probs[Target(e) := c.value], t.ptrs[Target(e) := e.from]) else t
  }

  /** Key k1 is filled before k2 can read it: an earlier position, or a lower rank at the same position. */
  predicate Below(k1: Key, k2: Key)
  {
    k1.1 < k2.1 || (k1.1 == k2.1 && Rank(k1.0) < Rank(k2.0))
  }

  /**
   * The tables are well formed: positions start at -1, the start state is
   * set only at -1, every set entry but the start's has a pointer, and
   * following it leads to a set entry that comes strictly earlier; no
   * pointer names the end state.
   */
  ghost predicate Wf(t: Table)
  {
    PointersSet(t) && Positioned(t) && Chained(t)
  }

  ghost predicate PointersSet(t: Table)
  {
    forall k :: k in t.ptrs ==> k in t.probs && t.ptrs[k] != End
  }

  ghost predicate Positioned(t: Table)
  {
    forall k :: k in t.probs ==> k.1 >= -1 && (k.0 == Start ==> k.1 == -1)
  }

  ghost predicate Chained(t: Table)
  {
    forall k :: k in t.probs && k.0 != Start ==> Linked(t, k)
  }

  /** The entry at k has a pointer to a set entry that comes before it. */
  ghost predicate Linked(t: Table, k: Key)
  {
    k in t.ptrs && (t.ptrs[k], k.1 - Shift(k.0)) in t.probs && Below((t.ptrs[k], k.1 - Shift(k.0)), k)
  }

  /** A transition the decoder makes: into neither the start state nor out of the end state, and up in rank when it stays at its position. */
  predicate Forward(e: Transition)
  {
    e.to != Start && e.from != End && e.pos >= -1 && (e.to.Delete? ==> Rank(e.from) < Rank(e.to))
  }

  /** Relaxing a forward transition keeps the tables well formed. */
  lemma RelaxKeepsWf(hmm: Hmm, sequence: seq<string>, t: Table, e: Transition)
    requires Wf(t) && Forward(e)
    ensures Wf(Relax(hmm, sequence, t, e))
  {
    var r := Relax(hmm, sequence, t, e);
    RelaxShape(hmm, sequence, t, e);
    if r != t {
      SourceBelowTarget(t, e);
      UpdateKeepsWf(t, Target(e), r.probs[Target(e)], e.from);
    }
  }

  /** A relaxation either changes nothing or sets the target entry, with a pointer to the source state, from a set source entry. */
  lemma RelaxShape(hmm: Hmm, sequence: seq<string>, t: Table, e: Transition)
    ensures var r := Relax(hmm, sequence, t, e);
      r == t || (Source(e) in t.probs && Target(e) in r.probs &&
                 r == Table(t.probs[Target(e) := r.probs[Target(e)]], t.ptrs[Target(e) := e.from]))
  {
  }

  /** Setting an entry together with a pointer to an earlier set entry keeps the tables well formed. */
  lemma UpdateKeepsWf(t: Table, k: Key, v: LogW, p: State)
    requires Wf(t) && k.0 != Start && k.1 >= -1 && p != End
    requires (p, k.1 - Shift(k.0)) in t.probs && Below((p, k.1 - Shift(k.0)), k)
    ensures Wf(Table(t.probs[k := v], t.ptrs[k := p]))
  {
    var t' := Table(t.probs[k := v], t.ptrs[k := p]);
    assert PointersSet(t');
    assert Positioned(t');
    UpdateKeepsChained(t, k, v, p);
  }

  lemma UpdateKeepsChained(t: Table, k: Key, v: LogW, p: State)
    requires Chained(t) && (p, k.1 - Shift(k.0)) in t.probs && Below((p, k.1 - Shift(k.0)), k)
    ensures Chained(Table(t.probs[k := v], t.ptrs[k := p]))
  {
    var t' := Table(t.probs[k := v], t.ptrs[k := p]);
    forall k' | k' in t'.probs && k'.0 != Start
      ensures Linked(t', k')
    {
      if k' != k {
        assert Linked(t, k');
        assert t'.ptrs[k'] == t.ptrs[k'];
      }
    }
  }

  /** The entry a forward transition reads is set before its target in a well-formed table. */
  lemma SourceBelowTarget(t: Table, e: Transition)
    requires Wf(t) && Forward(e) && Source(e) in t.probs
    ensures Below(Source(e), Target(e))
  {
    if e.from == Start {
      assert Source(e).1 == -1;
    }
  }

  /**
   * Entries are never unset, and a relaxation whose source entry is set
   * always leaves its target entry set: against an unset target (-Infinity
   * and "") any candidate wins.
   */
  lemma RelaxReaches(hmm: Hmm, sequence: seq<string>, t: Table, e: Transition)
    requires t.ptrs.Keys <= t.probs.Keys
    ensures t.probs.Keys <= Relax(hmm, sequence, t, e).probs.Keys
    ensures Source(e) in t.probs ==> Target(e) in Relax(hmm, sequence, t, e).probs
  {
    if Source(e) in t.probs && Target(e) !in t.probs {
      StrLessFacts("", e.from);
    }
  }

  /**
   * Unless a stored 0 is in the way, the value read at the target never
   * decreases, and a winner never lowers it.
   */
  lemma RelaxNeverLowers(hmm: Hmm, sequence: seq<string>, t: Table, e: Transition)
    requires Target(e) in t.probs ==> t.probs[Target(e)] != Fin(0.0)
    ensures var v, v' := ReadProb(t, Target(e)), ReadProb(Relax(hmm, sequence, t, e), Target(e));
            v' == v || Above(v', v) || (v' == NegInf && Relax(hmm, sequence, t, e).probs[Target(e)] == Fin(0.0))
  {
  }

  /**
   * The `||` in `probs[to][i] || -Infinity` forgets a stored 0 (probability
   * 1): a candidate below it then replaces it.
   */
  lemma StoredZeroIsForgotten(hmm: Hmm, sequence: seq<string>, t: Table, e: Transition)
    requires Target(e) in t.probs && t.probs[Target(e)] == Fin(0.0)
    requires Candidate(hmm, sequence, t, e) == Some(Fin(-1.0))
    ensures Relax(hmm, sequence, t, e).probs[Target(e)] == Fin(-1.0)
  {
  }

  /** Of two candidates of equal weight, the one from the state with the greater name ends up in the pointer. */
  lemma TieGoesToGreaterName(hmm: Hmm, sequence: seq<string>, t: Table, e: Transition)
    requires Candidate(hmm, sequence, t, e).Some? && Candidate(hmm, sequence, t, e).value == ReadProb(t, Target(e))
    ensures Relax(hmm, sequence, t, e).ptrs == (if StrLess(ReadPtr(t, Target(e)), Name(e.from)) then t.ptrs[Target(e) := e.from] else t.ptrs)
  {
    var c := Candidate(hmm, sequence, t, e).value;
    assert !Above(c, ReadProb(t, Target(e)));
  }

  // ---------------------------------------------------------------------
  // Runs of relaxations and the schedule the decoder follows
  // ---------------------------------------------------------------------

  /** The tables after relaxing the transitions in order. */
  function Run(hmm: Hmm, sequence: seq<string>, t: Table, es: seq<Transition>): Table
  {
    if es == [] then t else Relax(hmm, sequence, Run(hmm, sequence, t, es[..|es| - 1]), es[|es| - 1])
  }

  lemma RunSnoc(hmm: Hmm, sequence: seq<string>, t: Table, es: seq<Transition>, e: Transition)
    ensures Run(hmm, sequence, t, es + [e]) == Relax(hmm, sequence, Run(hmm, sequence, t, es), e)
  {
    assert (es + [e])[..|es|] == es;
  }

  predicate AllForward(es: seq<Transition>)
  {
    forall n :: 0 <= n < |es| ==> Forward(es[n])
  }

  /** A run of forward transitions keeps the tables well formed. */
  lemma {:induction false} RunKeepsWf(hmm: Hmm, sequence: seq<string>, t: Table, es: seq<Transition>)
    requires Wf(t) && AllForward(es)
    ensures Wf(Run(hmm, sequence, t, es))
  {
    if es != [] {
      RunKeepsWf(hmm, sequence, t, es[..|es| - 1]);
      RelaxKeepsWf(hmm, sequence, Run(hmm, sequence, t, es[..|es| - 1]), es[|es| - 1]);
    }
  }

  /** Keys are never removed along a run. */
  lemma {:induction false} RunKeepsKeys(hmm: Hmm, sequence: seq<string>, t: Table, es: seq<Transition>)
    ensures t.probs.Keys <= Run(hmm, sequence, t, es).probs.Keys
  {
    if es != [] {
      RunKeepsKeys(hmm, sequence, t, es[..|es| - 1]);
    }
  }

  /** The tables once the start state is seeded: `probs.a[-1] = 0`. */
  function Seeded(): (t: Table)
    ensures Wf(t)
  {
    Table(map[(Start, -1) := Fin(0.0)], map[])
  }

  /** The pre-sequence deletion chain `a -> d0 -> ... -> d(n-1)` at position -1. */
  function DeleteChain(n: nat): seq<Transition>
    requires n >= 1
  {
    if n == 1 then [Transition(Start, Delete(0), -1)]
    else DeleteChain(n - 1) + [Transition(Delete(n - 2), Delete(n - 1), -1)]
  }

  /** Everything relaxed before the first symbol: the deletion chain, then `a -> i0` and `a -> m0` at position 0. */
  function Prelude(c: nat): seq<Transition>
    requires c >= 1
  {
    DeleteChain(c) + [Transition(Start, Insert(0), 0), Transition(Start, Match(0), 0)]
  }

  /** The transitions out of column j at position i, in the order the inner loop relaxes them. */
  function Column(c: nat, i: int, j: nat): seq<Transition>
  {
    FromInsert(i, j) + Onward(c, i, j)
  }

  /** The first part of a column: the transitions out of insertion state j. */
  function FromInsert(i: int, j: nat): seq<Transition>
  {
    (if i > 0 then [Transition(Insert(j), Insert(j), i), Transition(Insert(j), Match(j), i)] else []) +
    [Transition(Insert(j), Delete(j), i)]
  }

  /** The rest of a column: the transitions out of deletion state j and match state j. */
  function Onward(c: nat, i: int, j: nat): seq<Transition>
  {
    (if j < c - 1
     then [Transition(Delete(j), Delete(j + 1), i), Transition(Delete(j), Match(j + 1), i),
           Transition(Match(j), Delete(j + 1), i), Transition(Match(j), Match(j + 1), i)]
     else []) +
    [Transition(Delete(j), Insert(j + 1), i), Transition(Match(j), Insert(j + 1), i)]
  }

  /** Columns 0..j-1 at position i. */
  function Columns(c: nat, i: int, j: nat): seq<Transition>
  {
    if j == 0 then [] else Columns(c, i, j - 1) + Column(c, i, j - 1)
  }

  /** Position i: every column, then the last insertion state's self-loop when i > 0. */
  function Position(c: nat, i: int): seq<Transition>
  {
    Columns(c, i, c) + (if i > 0 then [Transition(Insert(c), Insert(c), i)] else [])
  }

  /** Positions 0..n-1. */
  function Positions(c: nat, n: nat): seq<Transition>
  {
    if n == 0 then [] else Positions(c, n - 1) + Position(c, n - 1)
  }

  /**
   * The transitions into the end state at position n: from the last
   * deletion state, from the last insertion state, and from the match state
   * the loop left in `mj` (the last one, or m0 when the sequence is empty).
   */
  function Ending(c: nat, n: nat): seq<Transition>
    requires c >= 1
  {
    [Transition(Delete(c - 1), End, n), Transition(Insert(c), End, n),
     Transition(if n > 0 then Match(c - 1) else Match(0), End, n)]
  }

  /** The whole schedule of relaxations for c columns and a sequence of length n. */
  function Schedule(c: nat, n: nat): seq<Transition>
    requires c >= 1
  {
    Prelude(c) + Positions(c, n) + Ending(c, n)
  }

  lemma AllForwardAppend(a: seq<Transition>, b: seq<Transition>)
    requires AllForward(a) && AllForward(b)
    ensures AllForward(a + b)
  {
    forall n | 0 <= n < |a + b|
      ensures Forward((a + b)[n])
    {
      if n >= |a| {
        assert (a + b)[n] == b[n - |a|];
      }
    }
  }

  lemma {:induction false} ColumnsForward(c: nat, i: nat, j: nat)
    ensures AllForward(Columns(c, i, j))
  {
    if j > 0 {
      ColumnsForward(c, i, j - 1);
      AllForwardAppend(Columns(c, i, j - 1), Column(c, i, j - 1));
    }
  }

  lemma {:induction false} PositionsForward(c: nat, n: nat)
    ensures AllForward(Positions(c, n))
  {
    if n > 0 {
      PositionsForward(c, n - 1);
      ColumnsForward(c, n - 1, c);
      AllForwardAppend(Columns(c, n - 1, c), if n - 1 > 0 then [Transition(Insert(c), Insert(c), n - 1)] else []);
      AllForwardAppend(Positions(c, n - 1), Position(c, n - 1));
    }
  }

  lemma {:induction false} DeleteChainForward(n: nat)
    requires n >= 1
    ensures AllForward(DeleteChain(n))
  {
    if n > 1 {
      DeleteChainForward(n - 1);
      AllForwardAppend(DeleteChain(n - 1), [Transition(Delete(n - 2), Delete(n - 1), -1)]);
    }
  }

  /**
   * Every relaxation the decoder makes is forward: none enters the start
   * state or leaves the end state, and each one into a deletion state comes
   * from a state of lower rank at the same position.
   */
  lemma ScheduleForward(c: nat, n: nat)
    requires c >= 1
    ensures AllForward(Schedule(c, n))
  {
    DeleteChainForward(c);
    AllForwardAppend(DeleteChain(c), [Transition(Start, Insert(0), 0), Transition(Start, Match(0), 0)]);
    PositionsForward(c, n);
    AllForwardAppend(Prelude(c), Positions(c, n));
    AllForwardAppend(Prelude(c) + Positions(c, n), Ending(c, n));
  }

  // ---------------------------------------------------------------------
  // Following the pointers back
  // ---------------------------------------------------------------------

  /** Whether a state consumes a symbol of the sequence. */
  predicate Emits(s: State)
  {
    s.Match? || s.Insert?
  }

  /** The number of states on a path that consume a symbol. */
  function Emitted(path: seq<State>): nat
  {
    if path == [] then 0 else Emitted(path[..|path| - 1]) + (if Emits(path[|path| - 1]) then 1 else 0)
  }

  /**
   * A path from the start state to state s at position i: it starts at the
   * start state and meets it nowhere else, meets the end state at most at
   * its last step, and consumes one symbol per position from -1 up to i
   * (the end state moves one position without consuming one).
   */
  predicate Path(path: seq<State>, s: State, i: int)
  {
    |path| >= 1 && path[0] == Start && path[|path| - 1] == s &&
    (forall n :: 0 < n < |path| ==> path[n] != Start) &&
    (forall n :: 0 <= n < |path| - 1 ==> path[n] != End) &&
    Emitted(path) + (if s == End then 1 else 0) == i + 1
  }

  /**
   * `traceback(id, i)`: the path from the start state to `id` at position
   * `i`, each state reached from the one its pointer names, one position
   * back unless it is a deletion state.
   */
  function Traceback(t: Table, k: Key): (path: seq<State>)
    requires Wf(t) && k in t.probs
    ensures Path(path, k.0, k.1)
    decreases k.1 + 1, Rank(k.0)
  {
    if k.0 == Start then [Start]
    else
      StepBack(t, k);
      var p := t.ptrs[k];
      var prev := Traceback(t, (p, k.1 - Shift(k.0)));
      PathExtends(prev, p, k.0, k.1);
      prev + [k.0]
  }

  /** In well-formed tables a set entry other than the start's points back to an earlier set entry, not the end state's. */
  lemma StepBack(t: Table, k: Key)
    requires Wf(t) && k in t.probs && k.0 != Start
    ensures k in t.ptrs && t.ptrs[k] != End && k.1 >= -1
    ensures (t.ptrs[k], k.1 - Shift(k.0)) in t.probs && Below((t.ptrs[k], k.1 - Shift(k.0)), k)
  {
    assert Linked(t, k);
  }

  /** One more step, from a state other than the end state into one other than the start state, keeps the path's shape. */
  lemma PathExtends(prev: seq<State>, p: State, s: State, i: int)
    requires Path(prev, p, i - Shift(s)) && p != End && s != Start
    ensures Path(prev + [s], s, i)
  {
    var path := prev + [s];
    assert path[..|path| - 1] == prev;
  }

  // ---------------------------------------------------------------------
  // Which entries the schedule sets
  // ---------------------------------------------------------------------

  lemma {:induction false} RunAppend(hmm: Hmm, sequence: seq<string>, t: Table, a: seq<Transition>, b: seq<Transition>)
    ensures Run(hmm, sequence, t, a + b) == Run(hmm, sequence, Run(hmm, sequence, t, a), b)
  {
    if b == [] {
      assert a + b == a;
    } else {
      assert (a + b)[..|a + b| - 1] == a + b[..|b| - 1];
      assert (a + b)[|a + b| - 1] == b[|b| - 1];
      RunAppend(hmm, sequence, t, a, b[..|b| - 1]);
    }
  }

  /** Only set entries have pointers, along any run. */
  lemma {:induction false} RunKeepsPointerKeys(hmm: Hmm, sequence: seq<string>, t: Table, es: seq<Transition>)
    requires t.ptrs.Keys <= t.probs.Keys
    ensures var t' := Run(hmm, sequence, t, es); t'.ptrs.Keys <= t'.probs.Keys
  {
    if es != [] {
      RunKeepsPointerKeys(hmm, sequence, t, es[..|es| - 1]);
    }
  }

  /** A two-step run whose first source is set sets the first target; a one-step run likewise. */
  lemma ReachPair(hmm: Hmm, sequence: seq<string>, t: Table, e1: Transition, e2: Transition)
    requires t.ptrs.Keys <= t.probs.Keys
    ensures var t' := Run(hmm, sequence, t, [e1, e2]);
            t.probs.Keys <= t'.probs.Keys && t'.ptrs.Keys <= t'.probs.Keys &&
            (Source(e1) in t.probs ==> Target(e1) in t'.probs)
  {
    RunSnoc(hmm, sequence, t, [], e1);
    assert [] + [e1] == [e1];
    RunSnoc(hmm, sequence, t, [e1], e2);
    assert [e1] + [e2] == [e1, e2];
    var t1 := Run(hmm, sequence, t, [e1]);
    RelaxReaches(hmm, sequence, t, e1);
    RelaxReaches(hmm, sequence, t1, e2);
    RunKeepsPointerKeys(hmm, sequence, t, [e1, e2]);
  }

  /**
   * One column's transitions at position i, from tables where only set
   * entries have pointers: a set insertion entry for column j (here, or one
   * position back when the self-loop runs) sets the column's deletion entry,
   * and a set deletion entry sets the next column's one.
   */
  lemma ColumnReaches(hmm: Hmm, sequence: seq<string>, t: Table, c: nat, i: nat, j: nat)
    requires t.ptrs.Keys <= t.probs.Keys && j < c
    ensures var t' := Run(hmm, sequence, t, Column(c, i, j));
            t.probs.Keys <= t'.probs.Keys && t'.ptrs.Keys <= t'.probs.Keys
    ensures var t' := Run(hmm, sequence, t, Column(c, i, j));
            (Insert(j), i) in t.probs || (i > 0 && (Insert(j), i - 1) in t.probs) ==>
              (Insert(j), i) in t'.probs && (Delete(j), i) in t'.probs
    ensures var t' := Run(hmm, sequence, t, Column(c, i, j));
            j + 1 < c && ((Delete(j), i) in t.probs || (Insert(j), i) in t.probs || (i > 0 && (Insert(j), i - 1) in t.probs)) ==>
              (Delete(j + 1), i) in t'.probs
  {
    RunAppend(hmm, sequence, t, FromInsert(i, j), Onward(c, i, j));
    InsertPartReaches(hmm, sequence, t, i, j);
    OnwardReaches(hmm, sequence, Run(hmm, sequence, t, FromInsert(i, j)), c, i, j);
  }

  /** A set insertion entry (here, or one position back when the self-loop runs) sets the deletion entry of its column. */
  lemma InsertPartReaches(hmm: Hmm, sequence: seq<string>, t: Table, i: nat, j: nat)
    requires t.ptrs.Keys <= t.probs.Keys
    ensures var t' := Run(hmm, sequence, t, FromInsert(i, j));
            t.probs.Keys <= t'.probs.Keys && t'.ptrs.Keys <= t'.probs.Keys &&
            ((Insert(j), i) in t.probs || (i > 0 && (Insert(j), i - 1) in t.probs) ==>
               (Insert(j), i) in t'.probs && (Delete(j), i) in t'.probs)
  {
    var a := if i > 0 then [Transition(Insert(j), Insert(j), i), Transition(Insert(j), Match(j), i)] else [];
    var x := Transition(Insert(j), Delete(j), i);
    RunSnoc(hmm, sequence, t, a, x);
    var t1 := Run(hmm, sequence, t, a);
    if i > 0 {
      ReachPair(hmm, sequence, t, a[0], a[1]);
    }
    RelaxReaches(hmm, sequence, t1, x);
    RunKeepsPointerKeys(hmm, sequence, t, FromInsert(i, j));
  }

  /** A set deletion entry sets the next column's deletion entry. */
  lemma OnwardReaches(hmm: Hmm, sequence: seq<string>, t: Table, c: nat, i: nat, j: nat)
    requires t.ptrs.Keys <= t.probs.Keys && j < c
    ensures var t' := Run(hmm, sequence, t, Onward(c, i, j));
            t.probs.Keys <= t'.probs.Keys && t'.ptrs.Keys <= t'.probs.Keys &&
            (j + 1 < c && (Delete(j), i) in t.probs ==> (Delete(j + 1), i) in t'.probs)
  {
    var b := if j < c - 1
             then [Transition(Delete(j), Delete(j + 1), i), Transition(Delete(j), Match(j + 1), i),
                   Transition(Match(j), Delete(j + 1), i), Transition(Match(j), Match(j + 1), i)]
             else [];
    var d := [Transition(Delete(j), Insert(j + 1), i), Transition(Match(j), Insert(j + 1), i)];
    RunAppend(hmm, sequence, t, b, d);
    var t1 := Run(hmm, sequence, t, b);
    if j < c - 1 {
      assert b == [b[0], b[1]] + [b[2], b[3]];
      RunAppend(hmm, sequence, t, [b[0], b[1]], [b[2], b[3]]);
      ReachPair(hmm, sequence, t, b[0], b[1]);
      ReachPair(hmm, sequence, Run(hmm, sequence, t, [b[0], b[1]]), b[2], b[3]);
    }
    ReachPair(hmm, sequence, t1, d[0], d[1]);
  }

  /** The inner loop up to column j is the loop up to column j - 1, then column j - 1. */
  lemma ColumnsStep(hmm: Hmm, sequence: seq<string>, t: Table, c: nat, i: nat, j: nat)
    requires j >= 1
    ensures Run(hmm, sequence, t, Columns(c, i, j)) == Run(hmm, sequence, Run(hmm, sequence, t, Columns(c, i, j - 1)), Column(c, i, j - 1))
  {
    RunAppend(hmm, sequence, t, Columns(c, i, j - 1), Column(c, i, j - 1));
  }

  /** The inner loop at position i sets the first insertion entry and, column by column, the deletion entries there. */
  lemma {:induction false} ColumnsReach(hmm: Hmm, sequence: seq<string>, t: Table, c: nat, i: nat, j: nat)
    requires t.ptrs.Keys <= t.probs.Keys && j <= c
    requires (Insert(0), if i == 0 then 0 else i - 1) in t.probs
    ensures var t' := Run(hmm, sequence, t, Columns(c, i, j));
            j >= 1 ==> (Insert(0), i) in t'.probs && (Delete(j - 1), i) in t'.probs
    ensures var t' := Run(hmm, sequence, t, Columns(c, i, j));
            1 <= j < c ==> (Delete(j), i) in t'.probs
  {
    if j > 0 {
      var t1 := Run(hmm, sequence, t, Columns(c, i, j - 1));
      var t2 := Run(hmm, sequence, t1, Column(c, i, j - 1));
      ColumnsStep(hmm, sequence, t, c, i, j);
      assert (Insert(0), i) in t2.probs && (Delete(j - 1), i) in t2.probs && (j < c ==> (Delete(j), i) in t2.probs) by {
        ColumnsReach(hmm, sequence, t, c, i, j - 1);
        RunKeepsPointerKeys(hmm, sequence, t, Columns(c, i, j - 1));
        ColumnReaches(hmm, sequence, t1, c, i, j - 1);
        if j == 1 {
          assert t1 == t;
        } else {
          assert (Delete(j - 1), i) in t1.probs && (Insert(0), i) in t1.probs;
        }
      }
    }
  }

  /** A whole position i sets the last deletion entry and the first insertion entry there. */
  lemma PositionReaches(hmm: Hmm, sequence: seq<string>, t: Table, c: nat, i: nat)
    requires t.ptrs.Keys <= t.probs.Keys && c >= 1
    requires (Insert(0), if i == 0 then 0 else i - 1) in t.probs
    ensures var t' := Run(hmm, sequence, t, Position(c, i));
            t'.ptrs.Keys <= t'.probs.Keys && (Delete(c - 1), i) in t'.probs && (Insert(0), i) in t'.probs
  {
    var tail := if i > 0 then [Transition(Insert(c), Insert(c), i)] else [];
    ColumnsReach(hmm, sequence, t, c, i, c);
    RunKeepsPointerKeys(hmm, sequence, t, Columns(c, i, c));
    RunAppend(hmm, sequence, t, Columns(c, i, c), tail);
    RunKeepsKeys(hmm, sequence, Run(hmm, sequence, t, Columns(c, i, c)), tail);
    RunKeepsPointerKeys(hmm, sequence, Run(hmm, sequence, t, Columns(c, i, c)), tail);
  }

  /** After n positions the last deletion entry at n - 1 is set. */
  lemma {:induction false} PositionsReach(hmm: Hmm, sequence: seq<string>, t: Table, c: nat, n: nat)
    requires t.ptrs.Keys <= t.probs.Keys && c >= 1
    requires (Insert(0), 0) in t.probs && (Delete(c - 1), -1) in t.probs
    ensures var t' := Run(hmm, sequence, t, Positions(c, n));
            t'.ptrs.Keys <= t'.probs.Keys && (Delete(c - 1), n - 1) in t'.probs &&
            (Insert(0), if n == 0 then 0 else n - 1) in t'.probs
  {
    if n > 0 {
      PositionsReach(hmm, sequence, t, c, n - 1);
      RunAppend(hmm, sequence, t, Positions(c, n - 1), Position(c, n - 1));
      PositionReaches(hmm, sequence, Run(hmm, sequence, t, Positions(c, n - 1)), c, n - 1);
    }
  }

  /** The deletion chain sets every deletion entry at position -1, and the start entry stays set. */
  lemma {:induction false} DeleteChainReaches(hmm: Hmm, sequence: seq<string>, n: nat)
    requires n >= 1
    ensures var t' := Run(hmm, sequence, Seeded(), DeleteChain(n));
            t'.ptrs.Keys <= t'.probs.Keys && (Delete(n - 1), -1) in t'.probs && (Start, -1) in t'.probs
  {
    var e := if n == 1 then Transition(Start, Delete(0), -1) else Transition(Delete(n - 2), Delete(n - 1), -1);
    var before := if n == 1 then [] else DeleteChain(n - 1);
    assert DeleteChain(n) == before + [e];
    RunSnoc(hmm, sequence, Seeded(), before, e);
    if n > 1 {
      DeleteChainReaches(hmm, sequence, n - 1);
    }
    RelaxReaches(hmm, sequence, Run(hmm, sequence, Seeded(), before), e);
    RunKeepsPointerKeys(hmm, sequence, Seeded(), DeleteChain(n));
  }

  /**
   * Whenever there is a column the schedule sets the end entry at the last
   * position: through the deletion chain when the sequence is empty, and
   * through the last deletion state one position back otherwise. So
   * `traceback(e, seq.length)` always has a pointer to follow.
   */
  lemma EndReached(hmm: Hmm, sequence: seq<string>, c: nat, n: nat)
    requires c >= 1
    ensures (End, n) in Run(hmm, sequence, Seeded(), Schedule(c, n)).probs
  {
    var chain := DeleteChain(c);
    var starts := [Transition(Start, Insert(0), 0), Transition(Start, Match(0), 0)];
    DeleteChainReaches(hmm, sequence, c);
    RunAppend(hmm, sequence, Seeded(), chain, starts);
    ReachPair(hmm, sequence, Run(hmm, sequence, Seeded(), chain), starts[0], starts[1]);
    var t1 := Run(hmm, sequence, Seeded(), Prelude(c));
    PositionsReach(hmm, sequence, t1, c, n);
    RunAppend(hmm, sequence, Seeded(), Prelude(c), Positions(c, n));
    var t2 := Run(hmm, sequence, Seeded(), Prelude(c) + Positions(c, n));
    var ending := Ending(c, n);
    assert ending == [ending[0]] + [ending[1], ending[2]];
    RunAppend(hmm, sequence, Seeded(), Prelude(c) + Positions(c, n), ending);
    RunAppend(hmm, sequence, t2, [ending[0]], [ending[1], ending[2]]);
    RunSnoc(hmm, sequence, t2, [], ending[0]);
    assert [] + [ending[0]] == [ending[0]];
    RelaxReaches(hmm, sequence, t2, ending[0]);
    RunKeepsKeys(hmm, sequence, Run(hmm, sequence, t2, [ending[0]]), [ending[1], ending[2]]);
  }

  /** A winning candidate is stored with its pointer. */
  lemma RelaxWins(hmm: Hmm, sequence: seq<string>, t: Table, e: Transition, c: LogW)
    requires Source(e) in t.probs
    requires c == (var w := Add(t.probs[Source(e)], hmm.edge(e.from, e.to));
                   if e.to.Match? then Add(w, hmm.emit(e.to, SymbolAt(sequence, e.pos))) else w)
    requires Above(c, ReadProb(t, Target(e))) || (c == ReadProb(t, Target(e)) && StrLess(ReadPtr(t, Target(e)), Name(e.from)))
    ensures Relax(hmm, sequence, t, e) == Table(t.probs[Target(e) := c], t.ptrs[Target(e) := e.from])
  {
  }

  /** A losing candidate leaves the tables as they were. */
  lemma RelaxLoses(hmm: Hmm, sequence: seq<string>, t: Table, e: Transition, c: LogW)
    requires Source(e) in t.probs
    requires c == (var w := Add(t.probs[Source(e)], hmm.edge(e.from, e.to));
                   if e.to.Match? then Add(w, hmm.emit(e.to, SymbolAt(sequence, e.pos))) else w)
    requires !(Above(c, ReadProb(t, Target(e))) || (c == ReadProb(t, Target(e)) && StrLess(ReadPtr(t, Target(e)), Name(e.from))))
    ensures Relax(hmm, sequence, t, e) == t
  {
  }

  // ---------------------------------------------------------------------
  // The decoder: the tables `propagate` updates in place
  // ---------------------------------------------------------------------

  /**
   * The state `viterbi` keeps between its `propagate` calls: the two
   * tables, with the relaxations made so far recorded in `log`.
   */
  class Decoder {
    const hmm: Hmm
    const sequence: seq<string>
    var probs: map<Key, LogW>
    var ptrs: map<Key, State>
    ghost var log: seq<Transition>

    function Tables(): Table
      reads this
    {
      Table(probs, ptrs)
    }

    /** The tables are what the logged relaxations make of the seeded ones. */
    ghost predicate Valid()
      reads this
    {
      Tables() == Run(hmm, sequence, Seeded(), log)
    }

    /** Empty tables for every state, then the start state seeded at position -1 with log 1 = 0. */
    constructor (hmm: Hmm, sequence: seq<string>)
      ensures this.hmm == hmm && this.sequence == sequence
      ensures Valid() && log == []
    {
      this.hmm := hmm;
      this.sequence := sequence;
      probs := map[(Start, -1) := Fin(0.0)];
      ptrs := map[];
      log := [];
    }

    /** `propagate(from, to, i)`. */
    method Propagate(from: State, to: State, i: int)
      requires Valid()
      modifies this
      ensures Valid() && log == old(log) + [Transition(from, to, i)]
    {
      ghost var e := Transition(from, to, i);
      ghost var t := Tables();
      var currentProb := if (to, i) in probs && probs[(to, i)] != Fin(0.0) then probs[(to, i)] else NegInf;
      var currentPtr := if (to, i) in ptrs then Name(ptrs[(to, i)]) else "";
      var source := (from, i - Shift(to));
      assert source == Source(e) && (to, i) == Target(e);
      assert currentProb == ReadProb(t, Target(e)) && currentPtr == ReadPtr(t, Target(e));
      if source in probs {
        var candidate := Add(probs[source], hmm.edge(from, to));
        if to.Match? {
          candidate := Add(candidate, hmm.emit(to, SymbolAt(sequence, i)));
        }
        if Above(candidate, currentProb) || (candidate == currentProb && StrLess(currentPtr, Name(from))) {
          probs := probs[(to, i) := candidate];
          ptrs := ptrs[(to, i) := from];
          RelaxWins(hmm, sequence, t, e, candidate);
        } else {
          RelaxLoses(hmm, sequence, t, e, candidate);
        }
      }
      RunSnoc(hmm, sequence, Seeded(), log, e);
      log := log + [e];
    }
  }

  /** One pass of the inner loop: the transitions out of insertion, deletion and match state j at position i. */
  method RelaxColumn(d: Decoder, i: nat, j: nat)
    requires d.Valid() && j < d.hmm.numColumns
    modifies d
    ensures d.Valid() && d.log == old(d.log) + Column(d.hmm.numColumns, i, j)
  {
    var c := d.hmm.numColumns;
    ghost var b := if j < c - 1
                   then [Transition(Delete(j), Delete(j + 1), i), Transition(Delete(j), Match(j + 1), i),
                         Transition(Match(j), Delete(j + 1), i), Transition(Match(j), Match(j + 1), i)]
                   else [];
    ghost var z := [Transition(Delete(j), Insert(j + 1), i), Transition(Match(j), Insert(j + 1), i)];
    OutOfInsert(d, i, j);
    if j < c - 1 {
      IntoNextColumn(d, i, j);
    }
    Associative(old(d.log), FromInsert(i, j), b);
    IntoNextInsert(d, i, j);
    Associative(old(d.log) + FromInsert(i, j), b, z);
    Associative(old(d.log), FromInsert(i, j), b + z);
  }

  /** The transitions out of insertion state j at position i: its self-loop and the one into match j when i > 0, then the one into deletion j. */
  method OutOfInsert(d: Decoder, i: nat, j: nat)
    requires d.Valid()
    modifies d
    ensures d.Valid()
    ensures d.log == old(d.log) + FromInsert(i, j)
  {
    var ij, dj, mj := Insert(j), Delete(j), Match(j);
    if i > 0 {
      d.Propagate(ij, ij, i);
      d.Propagate(ij, mj, i);
    }
    d.Propagate(ij, dj, i);
  }

  /** Deletion j and match j into deletion j + 1 and match j + 1 at position i. */
  method IntoNextColumn(d: Decoder, i: nat, j: nat)
    requires d.Valid()
    modifies d
    ensures d.Valid()
    ensures d.log == old(d.log) +
            [Transition(Delete(j), Delete(j + 1), i), Transition(Delete(j), Match(j + 1), i),
             Transition(Match(j), Delete(j + 1), i), Transition(Match(j), Match(j + 1), i)]
  {
    var dj, mj, djnext, mjnext := Delete(j), Match(j), Delete(j + 1), Match(j + 1);
    d.Propagate(dj, djnext, i);
    d.Propagate(dj, mjnext, i);
    assert d.log == old(d.log) + [Transition(dj, djnext, i), Transition(dj, mjnext, i)];
    d.Propagate(mj, djnext, i);
    assert d.log == old(d.log) + [Transition(dj, djnext, i), Transition(dj, mjnext, i), Transition(mj, djnext, i)];
    d.Propagate(mj, mjnext, i);
  }

  /** Deletion j and match j into insertion j + 1 at position i. */
  method IntoNextInsert(d: Decoder, i: nat, j: nat)
    requires d.Valid()
    modifies d
    ensures d.Valid()
    ensures d.log == old(d.log) + [Transition(Delete(j), Insert(j + 1), i), Transition(Match(j), Insert(j + 1), i)]
  {
    var dj, mj, ijnext := Delete(j), Match(j), Insert(j + 1);
    d.Propagate(dj, ijnext, i);
    d.Propagate(mj, ijnext, i);
  }

  /** One more column appended to a log that already holds columns 0..j-1 of position i. */
  method NextColumn(d: Decoder, i: nat, j: nat, ghost log0: seq<Transition>)
    requires d.Valid() && j < d.hmm.numColumns && d.log == log0 + Columns(d.hmm.numColumns, i, j)
    modifies d
    ensures d.Valid() && d.log == log0 + Columns(d.hmm.numColumns, i, j + 1)
  {
    RelaxColumn(d, i, j);
    Associative(log0, Columns(d.hmm.numColumns, i, j), Column(d.hmm.numColumns, i, j));
  }

  /**
   * Position i: the inner loop over every column, then the last insertion
   * state's self-loop when i > 0. Returns the last `dj` and `mj` the loop
   * names.
   */
  method DecodePosition(d: Decoder, i: nat) returns (dj: State, mj: State)
    requires d.Valid() && d.hmm.numColumns >= 1
    modifies d
    ensures d.Valid() && d.log == old(d.log) + Position(d.hmm.numColumns, i)
    ensures dj == Delete(d.hmm.numColumns - 1) && mj == Match(d.hmm.numColumns - 1)
  {
    var c := d.hmm.numColumns;
    ghost var log0 := d.log;
    dj, mj := RelaxColumns(d, i);
    if i > 0 {
      d.Propagate(Insert(c), Insert(c), i);
      Associative(log0, Columns(c, i, c), [Transition(Insert(c), Insert(c), i)]);
    }
  }

  /** The inner loop, over every column at position i. */
  method RelaxColumns(d: Decoder, i: nat) returns (dj: State, mj: State)
    requires d.Valid() && d.hmm.numColumns >= 1
    modifies d
    ensures d.Valid() && d.log == old(d.log) + Columns(d.hmm.numColumns, i, d.hmm.numColumns)
    ensures dj == Delete(d.hmm.numColumns - 1) && mj == Match(d.hmm.numColumns - 1)
  {
    var c := d.hmm.numColumns;
    dj, mj := Delete(0), Match(0);
    var j := 0;
    while j < c
      invariant 0 <= j <= c
      invariant d.Valid() && d.log == old(d.log) + Columns(c, i, j)
      invariant j >= 1 ==> dj == Delete(j - 1) && mj == Match(j - 1)
    {
      dj, mj := Delete(j), Match(j);
      NextColumn(d, i, j, old(d.log));
      j := j + 1;
    }
  }

  /** The pre-sequence deletion chain, then the transitions from the start state at position 0. */
  method PreSequence(d: Decoder) returns (dj: State)
    requires d.Valid() && d.log == [] && d.hmm.numColumns >= 1
    modifies d
    ensures d.Valid() && d.log == Prelude(d.hmm.numColumns)
    ensures dj == Delete(d.hmm.numColumns - 1)
  {
    dj := DeletionChain(d);
    d.Propagate(Start, Insert(0), 0);
    d.Propagate(Start, Match(0), 0);
  }

  /** `a -> d0`, then `d(j-1) -> dj` for every later column, all at position -1. */
  method DeletionChain(d: Decoder) returns (dj: State)
    requires d.Valid() && d.log == [] && d.hmm.numColumns >= 1
    modifies d
    ensures d.Valid() && d.log == DeleteChain(d.hmm.numColumns)
    ensures dj == Delete(d.hmm.numColumns - 1)
  {
    dj := Delete(0);
    d.Propagate(Start, dj, -1);
    var j := 1;
    while j < d.hmm.numColumns
      invariant 1 <= j <= d.hmm.numColumns
      invariant d.Valid() && d.log == DeleteChain(j) && dj == Delete(j - 1)
    {
      var djprev := dj;
      dj := Delete(j);
      d.Propagate(djprev, dj, -1);
      j := j + 1;
    }
  }

  /** The outer loop, over every position of the sequence. */
  method DecodeSequence(d: Decoder, dj0: State) returns (dj: State, mj: State)
    requires d.Valid() && d.hmm.numColumns >= 1 && d.log == Prelude(d.hmm.numColumns)
    requires dj0 == Delete(d.hmm.numColumns - 1)
    modifies d
    ensures d.Valid() && d.log == Prelude(d.hmm.numColumns) + Positions(d.hmm.numColumns, |d.sequence|)
    ensures dj == Delete(d.hmm.numColumns - 1) && mj == (if |d.sequence| > 0 then Match(d.hmm.numColumns - 1) else Match(0))
  {
    var c := d.hmm.numColumns;
    dj, mj := dj0, Match(0);
    var i := 0;
    while i < |d.sequence|
      invariant 0 <= i <= |d.sequence|
      invariant d.Valid() && d.log == Prelude(c) + Positions(c, i)
      invariant dj == Delete(c - 1) && mj == (if i > 0 then Match(c - 1) else Match(0))
    {
      dj, mj := DecodePosition(d, i);
      Associative(Prelude(c), Positions(c, i), Position(c, i));
      i := i + 1;
    }
  }

  /** The transitions into the end state at position n, from the `dj` and `mj` the loops left and from the last insertion state. */
  method Finish(d: Decoder, dj: State, mj: State, n: nat)
    requires d.Valid() && d.hmm.numColumns >= 1
    requires dj == Delete(d.hmm.numColumns - 1) && mj == (if n > 0 then Match(d.hmm.numColumns - 1) else Match(0))
    modifies d
    ensures d.Valid() && d.log == old(d.log) + Ending(d.hmm.numColumns, n)
  {
    var e := End;
    d.Propagate(dj, e, n);
    d.Propagate(Insert(d.hmm.numColumns), e, n);
    d.Propagate(mj, e, n);
  }

  /** What `viterbi` returns: the state path, and the log-weight stored for the end state. */
  datatype Decoded = Decoded(path: seq<State>, probability: LogW)

  /**
   * `viterbi(hmm, seq)`. With no columns there is no deletion state d0 and
   * the first `propagate` fails. Otherwise the tables are exactly the
   * schedule's relaxations applied to the seeded ones, the end state is set
   * at the last position, and the path is the one traced back from it: it
   * runs from the start state to the end state and consumes every symbol of
   * the sequence exactly once.
   */
  method Viterbi(hmm: Hmm, sequence: seq<string>) returns (r: Result<Decoded, string>, ghost t: Table)
    ensures r.Failure? <==> hmm.numColumns == 0
    ensures r.Success? ==>
              Wf(t) && t == Run(hmm, sequence, Seeded(), Schedule(hmm.numColumns, |sequence|)) &&
              (End, |sequence|) in t.probs &&
              r.value.path == Traceback(t, (End, |sequence|)) && r.value.probability == t.probs[(End, |sequence|)]
    ensures r.Success? ==>
              var path := r.value.path;
              |path| >= 2 && path[0] == Start && path[|path| - 1] == End && Emitted(path) == |sequence| &&
              (forall n :: 0 < n < |path| ==> path[n] != Start) &&
              (forall n :: 0 <= n < |path| - 1 ==> path[n] != End)
  {
    var d := new Decoder(hmm, sequence);
    if hmm.numColumns == 0 {
      return Failure("the model has no deletion state d0"), d.Tables();
    }
    var c, n := hmm.numColumns, |sequence|;
    var dj := PreSequence(d);
    var mj;
    dj, mj := DecodeSequence(d, dj);
    Finish(d, dj, mj, n);
    t := d.Tables();
    ScheduleForward(c, n);
    RunKeepsWf(hmm, sequence, Seeded(), Schedule(c, n));
    EndReached(hmm, sequence, c, n);
    var path := Traceback(d.Tables(), (End, n));
    r := Success(Decoded(path, d.probs[(End, n)]));
  }
}

