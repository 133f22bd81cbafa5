/**
 * Option defaulting and the match/mismatch scorer shared by both aligners
 * (`Alignment._computeScore` and the "parse optional parameters" blocks).
 */
module Scoring {
  import opened Wrappers
  import opened Genes

  /** Scores after defaulting. `threshold` is read only by the repeat aligner. */
  datatype Scores = Scores(matchScore: int, mismatch: int, gap: int, threshold: int)

  /** The scores a caller may pass; an absent field is `None`. */
  datatype ScoreOptions = ScoreOptions(matchScore: Option<int>, mismatch: Option<int>, gap: Option<int>, threshold: Option<int>)

  /** The accessor maps a gene to the key genes are compared by. */
  datatype Options = Options(accessor: Gene -> string, scores: Scores)

  /** JavaScript's `v || d` on an optional number: absent and `0` both fall back to `d`. */
  function OrDefault(v: Option<int>, d: int): (r: int)
    ensures v.Some? && v.value != 0 ==> r == v.value
    ensures v == None || v == Some(0) ==> r == d
  {
    if v.Some? && v.value != 0 then v.value else d
  }

  /**
   * The defaults both aligners apply. The source assigns `0` to `mismatch`
   * unconditionally (the right-hand side names a misspelled key), so a
   * caller's mismatch score is never used.
   */
  function WithDefaults(user: ScoreOptions): (s: Scores)
    ensures s.mismatch == 0
    ensures s.matchScore != 0 && s.gap != 0 && s.threshold != 0
    ensures user.matchScore == None || user.matchScore == Some(0) ==> s.matchScore == 5
    ensures user.gap == None || user.gap == Some(0) ==> s.gap == -1
    ensures user.threshold == None || user.threshold == Some(0) ==> s.threshold == 10
    ensures user.matchScore.Some? && user.matchScore.value != 0 ==> s.matchScore == user.matchScore.value
    ensures user.gap.Some? && user.gap.value != 0 ==> s.gap == user.gap.value
    ensures user.threshold.Some? && user.threshold.value != 0 ==> s.threshold == user.threshold.value
  {
    Scores(OrDefault(user.matchScore, 5), 0, OrDefault(user.gap, -1), OrDefault(user.threshold, 10))
  }

  /** Two genes match when their keys are equal and not the empty string. */
  predicate KeysMatch(a: Gene, b: Gene, accessor: Gene -> string)
  {
    accessor(a) == accessor(b) && accessor(a) != ""
  }

  /** `_computeScore`: the match score for matching keys, the mismatch score otherwise. */
  function ComputeScore(a: Gene, b: Gene, accessor: Gene -> string, s: Scores): (r: int)
    ensures r == s.matchScore || r == s.mismatch
    ensures KeysMatch(a, b, accessor) ==> r == s.matchScore
    ensures !KeysMatch(a, b, accessor) ==> r == s.mismatch
  {
    var ka := accessor(a);
    var kb := accessor(b);
    if ka == kb && ka != "" then s.matchScore else s.mismatch
  }

  /**
   * Under the defaults, the score is the match score exactly when the keys
   * match, and 0 otherwise, whatever mismatch score the caller asked for.
   */
  lemma DefaultScoreIff(a: Gene, b: Gene, accessor: Gene -> string, user: ScoreOptions)
    ensures ComputeScore(a, b, accessor, WithDefaults(user)) == WithDefaults(user).matchScore
            <==> KeysMatch(a, b, accessor)
    ensures !KeysMatch(a, b, accessor) ==> ComputeScore(a, b, accessor, WithDefaults(user)) == 0
  {
  }

  /** Two genes whose keys are both empty never score as a match. */
  lemma EmptyKeysNeverMatch(a: Gene, b: Gene, accessor: Gene -> string, s: Scores)
    requires accessor(a) == "" && accessor(b) == ""
    ensures ComputeScore(a, b, accessor, s) == s.mismatch
  {
  }
}
