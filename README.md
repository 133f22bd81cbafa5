# Gene-order alignment in the Genome Context Viewer

The Genome Context Viewer compares chromosome segments by the order of their
genes. Each segment is a track: an ordered list of genes with a name, a family,
and a strand (+1 or -1). Two tracks are compared by aligning their lists of
genes, using a key the caller picks (usually the gene family) to decide which
genes match. This project models, in Dafny, the alignment core of the viewer:

- **Scoring.** The defaulting of the optional scores and the match/mismatch
  scorer. The defaults are match 5, mismatch 0, gap -1 and threshold 10.
- **The pairwise aligner.** This is Smith-Waterman local alignment. The
  selected track is aligned against the query and against the reversed query,
  and the better of the two alignments is kept. The reverse alignment's
  reference genes change strand.
- **The repeat aligner.** This is Durbin's repeat algorithm. A penalized
  dynamic-programming matrix is filled, then a traceback collects every local
  alignment whose score reaches the threshold. It runs forwards and against
  the reversed reference.
- **The merger.** It appends every aligned track below the query track and
  gives each of its genes a column `x` and a row `y`. Matched genes sit under
  their query gene. Genes inserted between two query genes are spread evenly
  between their columns. Genes before the query go to its left, and genes
  after it go to its right.
- **The Viterbi decoder.** It finds the most probable path of a sequence of
  gene families through a profile hidden Markov model. The model has a start
  state `a`, an end state `z`, and match, insertion and deletion states
  `m<j>`, `i<j>` and `d<j>` per column. The decoder relaxes one transition at
  a time in a fixed order, then follows the back-pointers from the end state.

Modules:

- `Wrappers` holds Option and Result.
- `Genes` holds genes, gapped lists (`None` is the source's `null`), strand
  flips and reversal.
- `Scoring` holds the score defaults and the scorer.
- `SmithWaterman` holds the pairwise aligner: its matrix is an `array2` filled
  by nested loops, and its traceback is a loop.
- `Repeat` holds the repeat aligner: a filled `array2`, and a traceback loop
  whose state is a `Walk` record.
- `Merge` holds the layout of one alignment, first as a loop, then as the
  `ContextData` class whose `groups` field the merge appends to.
- `Viterbi` holds the `Decoder` class with the `probs` and `ptrs` tables it
  updates in place. A ghost log records the relaxations made so far. Each loop
  of the decoder is proved to make exactly the relaxations of a pure schedule,
  and the lemmas about that schedule carry the properties.

## Model

| member | source | states |
|---|---|---|
| Scoring.OrDefault | client/js/alignment.js:113 | A caller's score is kept unless it is absent or 0; both of those fall back to the default |
| Scoring.WithDefaults | client/js/alignment.js:291-297 | Match defaults to 5, gap to -1 and threshold to 10, and a non-zero caller value is kept for each; mismatch is always 0, because the source assigns 0 through a misspelled key |
| Scoring.ComputeScore | client/js/alignment.js:15-21 | The score is the match score exactly when the two keys are equal and non-empty, and the mismatch score otherwise |
| Scoring.DefaultScoreIff | client/js/alignment.js:15-21 | Under the defaults, a pair scores the match score if and only if the keys match, and 0 otherwise, whatever mismatch the caller passed |
| Scoring.EmptyKeysNeverMatch | client/js/alignment.js:18 | Two genes whose keys are both empty score as a mismatch |
| Genes.Reverse | client/js/alignment.js:119-120 | The reversed copy has the same length and holds element `|s|-1-k` at position k |
| Genes.FlipAll | client/js/alignment.js:129-133 | Gaps stay gaps at the same positions, and every present gene has its strand negated and nothing else changed |
| Genes.FlipAllTwice | client/js/alignment.js:129-133 | Flipping every strand twice restores the list |
| Genes.PresentFlipAll | client/js/alignment.js:129-133 | Flipping keeps the number and order of present genes, and flips each of them |
| SmithWaterman.Cell | client/js/alignment.js:53-59 | Every matrix cell is non-negative |
| SmithWaterman.Max4IsMax | client/js/alignment.js:53-59 | The cell value is one of the four candidates (0, diagonal plus score, up plus gap, left plus gap) and at least each of them |
| SmithWaterman.CellRecurrence | client/js/alignment.js:53-59 | An interior cell equals the maximum of its four candidates |
| SmithWaterman.LastMaxIsMax | client/js/alignment.js:60-64 | The cell the scan keeps is a maximum of the whole matrix, and it is the last maximal cell in scan order, since ties go to the later cell |
| SmithWaterman.MaxStep | client/js/alignment.js:60-64 | One `>=` comparison keeps the invariant "last maximum of the cells scanned so far" |
| SmithWaterman.FillCell | client/js/alignment.js:53-64 | Writing a cell stores its recurrence value, changes no other cell, and updates the running maximum and its position |
| SmithWaterman.FillRow | client/js/alignment.js:52-65 | After a row, every cell up to that row holds its recurrence value, and the maximum is the last maximum so far |
| SmithWaterman.FillMatrix | client/js/alignment.js:41-66 | The filled matrix holds the recurrence everywhere, and the maximum it reports is the last maximal cell of the matrix |
| SmithWaterman.TraceStep | client/js/alignment.js:79-99 | A traceback step from a non-zero cell moves diagonally, up or left, prepends the matching column, and keeps the traced score plus the current cell constant |
| SmithWaterman.TraceSteps | client/js/alignment.js:74-100 | The traced columns never pair two gaps; they hold `sequence[j..jMax]` and `reference[i..iMax]` in order, and their score equals the maximum cell |
| SmithWaterman.PadSequence | client/js/alignment.js:101-105 | The sequence genes left of the stopping column are put in front, each against a gap, and the padded columns still never pair two gaps |
| SmithWaterman.PadStep | client/js/alignment.js:101-105 | Putting gene j-1 in front of the padded genes `j..j0` gives the padded genes `j-1..j0`, and one more gap goes in front of the other side |
| SmithWaterman.PaddedNoDoubleGap | client/js/alignment.js:101-105 | Genes padded against gaps in front of columns without a double gap give columns without a double gap |
| SmithWaterman.Traceback | client/js/alignment.js:67-106 | The sequence side holds the sequence's first jMax genes, and the reference side a contiguous block of the reference; after the padding, the columns score exactly the maximum |
| SmithWaterman.Align | client/js/alignment.js:39-107 | The score is the matrix maximum, traced from its last occurrence. The two rows have one length and never pair two gaps; the first `pad` columns set the sequence's first genes against gaps, and the remaining columns score exactly the maximum. The sequence side holds the sequence's first jMax genes, the reference side a contiguous block of the reference, and an empty input gives an empty alignment with score 0 |
| SmithWaterman.FlipEntry | client/js/alignment.js:130-132 | A gap stays a gap, and a gene gets the opposite strand |
| SmithWaterman.FlipStrands | client/js/alignment.js:129-133 | The loop's result equals FlipAll of its input |
| SmithWaterman.SmithWaterman | client/js/alignment.js:110-136 | Both orientations are aligned with the defaulted scores, and the score is the larger of the two matrix maxima. Ties keep the forward alignment; otherwise the reference side is the reverse alignment with every strand flipped. The result is one alignment with rows of one length and no double gap; after the padded columns it scores exactly the returned score against the traced reference side; the sequence side is a prefix of the sequence and the reference side a contiguous block of the aligned reference. An empty sequence or reference gives one empty alignment with score 0 |
| Repeat.Cell | client/js/alignment.js:156-172 | Every cell of the repeat matrix is non-negative |
| Repeat.PenalizedMax | client/js/alignment.js:158-161 | The maximum of the penalized row is at least that row's column-0 cell, which is never penalized |
| Repeat.PenalizedMaxIsMax | client/js/alignment.js:158-161 | Column 0 of the next row is at least the previous column-0 cell and at least every cell of the row minus the threshold, and it equals one of those values |
| Repeat.ColumnZeroGrows | client/js/alignment.js:158-161 | Column 0 never decreases from row to row |
| Repeat.RowFloor | client/js/alignment.js:164-171 | An interior cell is at least its column-0 cell, which is one of its candidates |
| Repeat.PenalizedRowMax | client/js/alignment.js:158-161 | The loop over the previous row computes the column-0 value of the next row |
| Repeat.FillCell | client/js/alignment.js:164-171 | Writing an interior cell stores its recurrence value and changes no other cell |
| Repeat.FillRow | client/js/alignment.js:156-172 | After a row, every cell up to that row holds its recurrence value |
| Repeat.FillMatrix | client/js/alignment.js:151-173 | Every cell of the matrix holds the repeat recurrence |
| Repeat.Paired | client/js/alignment.js:254-258 | The number of columns pairing two genes is at most the alignment's length |
| Repeat.PairedPrepend | client/js/alignment.js:254-258 | Prepending a column counts it as paired exactly when both sides hold a gene |
| Repeat.PairedPadding | client/js/alignment.js:218-221 | Columns that set a gene against a gap add no pairs |
| Repeat.BuildingIsKept | client/js/alignment.js:280-286 | An alignment under construction with at least two paired columns is one the traceback keeps |
| Repeat.PrependKeeps | client/js/alignment.js:250-275 | Prepending the next gene of either side, or both, keeps the alignment under construction well formed, and the pair count grows exactly when both sides gain a gene |
| Repeat.ShiftKeeps | client/js/alignment.js:250-275 | A column put in front, not gapped on both sides, keeps the rows free of double gaps and moves the opening column one place right, with its genes unchanged |
| Repeat.Open | client/js/alignment.js:209-224 | Opening at (i, j) puts the pair `sequence[j-1]`, `reference[i-1]` first, followed by `sequence[j..]` against gaps |
| Repeat.OpenedGenes | client/js/alignment.js:209-224 | The opened alignment holds `sequence[j-1..]` on one side and `reference[i-1]` alone on the other |
| Repeat.OpenedColumns | client/js/alignment.js:209-224 | When the keys are equal, the opened alignment has rows of one length and no double gap, has exactly one paired column, and opens at column 0 |
| Repeat.OpenBuilds | client/js/alignment.js:209-224 | An opening at a pair of equal keys starts a well-formed alignment with one paired column |
| Repeat.PadFront | client/js/alignment.js:237-243 | The remaining sequence genes are put in front against gaps, so the sequence side then holds all of the sequence |
| Repeat.Close | client/js/alignment.js:194-202 | An alignment with fewer than two paired columns is popped together with its opening cell; any other is kept and its running score is added to the total. Every alignment left is a kept one, and the total is the sum of their running scores and at least the threshold times their number |
| Repeat.ClosedLedger | client/js/alignment.js:194-202 | Closing keeps the ledger: each alignment left was opened at an opening cell, and each kept one scored at least that cell's value |
| Repeat.RowMax | client/js/alignment.js:204 | The result is the largest value of the row, and it occurs in the row |
| Repeat.RowLastIndexOf | client/js/alignment.js:205 | The result is the last index of the value in the row, or -1 when it is absent |
| Repeat.Max3 | client/js/alignment.js:233-234 | The result is one of the three values and at least each of them |
| Repeat.LastIndexOf | client/js/alignment.js:248 | The result is the last index of the value among the three, or -1 when it is absent |
| Repeat.Unshift | client/js/alignment.js:250-275 | A column is put in front of both rows of the alignment being built, and the others are unchanged |
| Repeat.ShapeKeeps | client/js/alignment.js:232-277 | Replacing the alignment being built keeps the closed alignments |
| Repeat.StopAtZero | client/js/alignment.js:236-246 | When all three neighbours are 0, the rest of the sequence is put in front of the alignment being built, and the walk goes to column 0 of the row above; the invariant is kept |
| Repeat.Diagonal | client/js/alignment.js:250-259 | The walk moves to (i-1, j-1), and the invariant is kept; the move prepends and counts the pair crossed |
| Repeat.Up | client/js/alignment.js:261-267 | The walk moves to (i, j-1), and the invariant is kept; the move prepends the sequence gene crossed, against a gap |
| Repeat.Left | client/js/alignment.js:269-275 | The walk moves to (i-1, j), and the invariant is kept; the move prepends the reference gene crossed, against a gap |
| Repeat.Move | client/js/alignment.js:232-277 | An interior step keeps the traceback invariant and moves strictly closer to the origin |
| Repeat.AtColumnZero | client/js/alignment.js:194-228 | At column 0 the traceback closes the current alignment, then opens a new one at the row's last maximal cell or moves up a row; the invariant is kept, and when no alignment is open the row decreases. With an empty sequence it only moves up a row |
| Repeat.OpenAt | client/js/alignment.js:209-224 | Opening at an opening cell (the row's last maximum, at least the threshold, at a pair of equal keys) starts an alignment and keeps the invariant, with the cell recorded in the ledger |
| Repeat.SkippedInv | client/js/alignment.js:194-228 | Not opening an alignment keeps the invariant |
| Repeat.OpenedInv | client/js/alignment.js:209-224 | Opening an alignment appends it and keeps the invariant |
| Repeat.Step | client/js/alignment.js:191-278 | One pass of the traceback loop keeps the invariant; with an empty sequence and no alignment open it only moves up a row |
| Repeat.Traceback | client/js/alignment.js:182-287 | When the walk finishes, every returned alignment is kept: no double gaps, at least two pairs, a suffix of the sequence, a contiguous block of the reference, opened at the recorded cell. Each recorded cell is the last maximum of its row, at least the threshold, at equal keys; each running score is at least its cell's value; the score is their sum, so non-negative and at least the threshold per alignment. An empty reference, or an empty sequence with enough steps, gives no alignment and score 0 |
| Repeat.FilledOpening | client/js/alignment.js:204-211 | On the filled matrix, a cell where the traceback opens is an opening cell of the recurrence: the last maximum of its row, at least the threshold, at a pair of equal keys |
| Repeat.RevisitedOpening | client/js/alignment.js:204-248 | On a three-gene sequence against a two-gene reference, row 2 is 4, 5, 4, 4; the traceback opens at (2, 1), and its next step goes up to (2, 0), the cell it opened from, so the loop reaches that state again |
| Repeat.Align | client/js/alignment.js:149-288 | When the walk finishes, each returned alignment is a kept one opened at an opening cell of the repeat recurrence, and the score is the sum of the running scores, each at least its cell's value and so at least the threshold. An empty reference, or an empty sequence with enough steps, gives no alignment and score 0 |
| Repeat.Repeat | client/js/alignment.js:291-316 | The output is the forward alignments followed by the reverse ones, whose reference genes have every strand flipped. Each run is accounted for against its own orientation of the reference: kept alignments, opened at opening cells, with running scores at least those cells. The score is the sum of both runs' running scores, and each run's part is at least the threshold per alignment. An empty reference, or an empty sequence with enough steps, gives no alignment and score 0 |
| Repeat.AppendFlipped | client/js/alignment.js:306-315 | The output lists the forward alignments unchanged, then each reverse alignment with its reference strands flipped |
| Merge.PreQuery | client/js/alignment.js:360-366 | One gene is placed per column before the first query gene |
| Merge.PreQueryShape | client/js/alignment.js:360-366 | The genes before the query keep their order and take columns `1-p` up to 0, on the track's row |
| Merge.Step | client/js/alignment.js:341-382 | One column of the corrected layout keeps the loop's consistency invariant; at a match both the genes before the query and the pending insertions are positioned and cleared |
| Merge.StepAsWritten | client/js/alignment.js:341-382 | One column of the layout as the source writes it keeps the same consistency invariant; at a match the insertions stay pending when genes before the query are positioned |
| Merge.LayoutAsWritten | client/js/alignment.js:339-383 | The loop state as the source writes it is consistent after any number of columns |
| Merge.Layout | client/js/alignment.js:339-383 | The loop state after any number of columns is consistent |
| Merge.Arrange | client/js/alignment.js:339-383 | The loop's genes are the arrangement that the layout defines |
| Merge.PlaceMatch | client/js/alignment.js:358-382 | A column pairing two genes places any pending genes before the query (or pending insertions), then the matched gene, exactly as one layout step |
| Merge.PlacePreQuery | client/js/alignment.js:360-366 | The loop appends the genes before the query at their columns |
| Merge.PlaceBetween | client/js/alignment.js:368-378 | The loop appends the inserted genes at their fractional columns, skipping gaps |
| Merge.BetweenPlaces | client/js/alignment.js:370-376 | Each present inserted gene is placed once, in order, on the track's row |
| Merge.BetweenInsideGap | client/js/alignment.js:370-376 | Inserted genes lie strictly between the previous query column and the match's column, with later insertions at smaller columns |
| Merge.InsertedInside | client/js/alignment.js:369-372 | With a step of `1/(c+1)`, each of the c insertion columns lies strictly inside one column |
| Merge.InsertedDecreasing | client/js/alignment.js:372 | A later insertion position gets a strictly smaller column |
| Merge.LeadingGaps | client/js/alignment.js:341-342 | While no query gene has been met, only the count of genes before the query grows |
| Merge.OnTrackRow | client/js/alignment.js:339-383 | Every placed gene lies on the track's row and is a gene of the selected row, with only its coordinates changed |
| Merge.QueryCountTracks | client/js/alignment.js:339-357 | The query counter equals the number of query genes passed, unless the whole query has been passed and genes were placed after it |
| Merge.MatchUnderQueryGene | client/js/alignment.js:379-381 | A gene matched with query gene q is placed at column q, and that is the column of the query gene it faces |
| Merge.AfterQuery | client/js/alignment.js:346-349 | Once the whole query is passed, an inserted gene goes to the next whole column to the right |
| Merge.PreQueryMeetsFirstMatch | client/js/alignment.js:360-381 | Genes before the first match end at column 0, and the first matched gene also takes column 0 |
| Merge.PendingInsertionsSurvivePreQuery | client/js/alignment.js:360-377 | As the source writes it, placing the genes before the query leaves the insertion count as it was. On the five-column alignment gap/q0/gap/q1/q2 against s0/gap/s1/s2/s3, the inserted gene s1 is never positioned and the matched gene s2 is positioned twice |
| Merge.PendingInsertionsPlaced | client/js/alignment.js:360-381 | On the same alignment the corrected layout positions s0 at column 0, s1 at 0.5, s2 at 1 and s3 at 2, each once |
| Merge.PresentAtOrdered | client/js/alignment.js:370-371 | The positions of the genes in a span of the row are increasing, inside the span |
| Merge.BetweenDrawn | client/js/alignment.js:370-376 | The inserted genes are the row's genes at the span's present positions, in order, on the track's row |
| Merge.PreQueryDrawn | client/js/alignment.js:361-365 | The genes before the query are the row's first genes, in order, on the track's row |
| Merge.MatchDrawn | client/js/alignment.js:358-381 | A match positions the row's genes before the query, then those of the pending insertions, then its own gene |
| Merge.StepDrawn | client/js/alignment.js:341-382 | One column keeps every positioned gene a gene of the row at a recorded position |
| Merge.SourcesDrawn | client/js/alignment.js:339-383 | After any number of columns, the positioned genes are exactly the row's genes at the recorded positions, with new coordinates on the track's row |
| Merge.QueryGeneAhead | client/js/alignment.js:355-357 | Before a query gene of the alignment fewer query genes have been passed than the query holds |
| Merge.StepOrdered | client/js/alignment.js:341-382 | One column keeps the recorded positions increasing and behind the column reached |
| Merge.MatchOrdered | client/js/alignment.js:358-381 | At a match the positions it adds come after every earlier one and in increasing order |
| Merge.SourcesIncrease | client/js/alignment.js:339-383 | The recorded positions increase and stay behind the column reached, and the pending genes sit after them |
| Merge.PositionedOnce | client/js/alignment.js:339-383 | When the query holds at least the alignment's query genes, the corrected layout positions genes of the selected row only, each at most once and in the row's order |
| Merge.InsertionBeforeDeletionDropped | client/js/alignment.js:368-377 | Pending insertions are read from the columns just before the match: on q0/gap/q1/q2 against s0/s1/gap/s2 the gene s1, inserted before the deleted q1, is not positioned, and only s0 at 0 and s2 at 2 are |
| Merge.ContextData.constructor | client/js/alignment.js:326-329 | The context data holds the given tracks |
| Merge.ContextData.Merge | client/js/alignment.js:326-384 | The original tracks are unchanged, and one track per alignment is appended: the k-th selected track, with its genes as alignment k arranges them on row k+1 against the query's length |
| Viterbi.NatToString | client/src/assets/js/gcv/alignment/viterbi.ts:63-65 | The decimal numeral is non-empty and made of digits |
| Viterbi.Name | client/src/assets/js/gcv/alignment/viterbi.ts:63-65 | Every state's id is non-empty |
| Viterbi.StrLessFacts | client/src/assets/js/gcv/alignment/viterbi.ts:27-28 | The empty pointer is below every state's id, and no id is below itself |
| Viterbi.Shift | client/src/assets/js/gcv/alignment/viterbi.ts:22 | The source position is the same for a deletion state and one back for every other state |
| Viterbi.Add | client/src/assets/js/gcv/alignment/viterbi.ts:22-25 | -Infinity absorbs; otherwise the log-weights add |
| Viterbi.SymbolAt | client/src/assets/js/gcv/alignment/viterbi.ts:25 | A symbol is defined exactly inside the sequence |
| Viterbi.Source | client/src/assets/js/gcv/alignment/viterbi.ts:22 | A transition reads its origin state, one position back unless it goes into a deletion state |
| Viterbi.ReadProb | client/src/assets/js/gcv/alignment/viterbi.ts:20 | An unset entry and a stored 0 both read as -Infinity; any other value reads as itself |
| Viterbi.ReadPtr | client/src/assets/js/gcv/alignment/viterbi.ts:21 | An unset pointer reads as the empty string, and a set one as the state's id |
| Viterbi.Candidate | client/src/assets/js/gcv/alignment/viterbi.ts:22-26 | There is a candidate exactly when the source entry is set |
| Viterbi.RelaxKeepsWf | client/src/assets/js/gcv/alignment/viterbi.ts:19-32 | A forward relaxation keeps the tables well formed: every pointer leads to a set, strictly earlier entry |
| Viterbi.RelaxShape | client/src/assets/js/gcv/alignment/viterbi.ts:27-31 | A relaxation changes nothing, or sets the target entry with a pointer to the source state from a set source entry |
| Viterbi.RelaxReaches | client/src/assets/js/gcv/alignment/viterbi.ts:27-31 | No entry is ever unset, and a set source always sets the target |
| Viterbi.RelaxNeverLowers | client/src/assets/js/gcv/alignment/viterbi.ts:27-31 | Unless a stored 0 is involved, the value read at the target never decreases |
| Viterbi.StoredZeroIsForgotten | client/src/assets/js/gcv/alignment/viterbi.ts:20 | A stored log-weight of 0 is read as -Infinity, so a lower candidate replaces it |
| Viterbi.TieGoesToGreaterName | client/src/assets/js/gcv/alignment/viterbi.ts:27-28 | On an equal candidate, the pointer changes exactly when the new origin's id is greater than the current pointer |
| Viterbi.RelaxWins | client/src/assets/js/gcv/alignment/viterbi.ts:27-31 | A winning candidate is stored with its pointer, and nothing else changes |
| Viterbi.RelaxLoses | client/src/assets/js/gcv/alignment/viterbi.ts:27-31 | A losing candidate leaves both tables unchanged |
| Viterbi.RunKeepsWf | client/src/assets/js/gcv/alignment/viterbi.ts:47-97 | Any run of forward relaxations keeps the tables well formed |
| Viterbi.RunKeepsKeys | client/src/assets/js/gcv/alignment/viterbi.ts:29-30 | No entry is unset along a run |
| Viterbi.RunKeepsPointerKeys | client/src/assets/js/gcv/alignment/viterbi.ts:29-30 | Only set entries carry pointers, along any run |
| Viterbi.Seeded | client/src/assets/js/gcv/alignment/viterbi.ts:44-45 | The seeded tables are well formed |
| Viterbi.ColumnsForward | client/src/assets/js/gcv/alignment/viterbi.ts:62-87 | Every relaxation of the inner loop is forward |
| Viterbi.PositionsForward | client/src/assets/js/gcv/alignment/viterbi.ts:61-92 | Every relaxation of the outer loop is forward |
| Viterbi.DeleteChainForward | client/src/assets/js/gcv/alignment/viterbi.ts:47-53 | Every relaxation of the deletion chain is forward |
| Viterbi.ScheduleForward | client/src/assets/js/gcv/alignment/viterbi.ts:43-97 | No relaxation enters the start state or leaves the end state, and each one into a deletion state comes from a lower state at the same position |
| Viterbi.Traceback | client/src/assets/js/gcv/alignment/viterbi.ts:34-42 | The traced path starts at the start state and meets it only there, meets the end state only at its last step, ends at the given state, and consumes exactly one symbol per position |
| Viterbi.StepBack | client/src/assets/js/gcv/alignment/viterbi.ts:37-41 | In well-formed tables a set entry other than the start's has a pointer, not to the end state, that leads to a set, strictly earlier entry |
| Viterbi.PathExtends | client/src/assets/js/gcv/alignment/viterbi.ts:38-41 | Following one pointer back and appending the state keeps the path's shape |
| Viterbi.ColumnReaches | client/src/assets/js/gcv/alignment/viterbi.ts:63-86 | One column sets its deletion entry from a set insertion entry, and the next deletion entry from that one |
| Viterbi.InsertPartReaches | client/src/assets/js/gcv/alignment/viterbi.ts:66-71 | A set insertion entry sets its column's deletion entry |
| Viterbi.OnwardReaches | client/src/assets/js/gcv/alignment/viterbi.ts:72-86 | A set deletion entry sets the next column's deletion entry and the next insertion entry |
| Viterbi.ColumnsReach | client/src/assets/js/gcv/alignment/viterbi.ts:62-87 | The inner loop sets the first insertion entry and every deletion entry of the position, column by column |
| Viterbi.ColumnsStep | client/src/assets/js/gcv/alignment/viterbi.ts:62-87 | The inner loop up to column j is the loop up to column j-1, then column j-1 |
| Viterbi.PositionReaches | client/src/assets/js/gcv/alignment/viterbi.ts:61-91 | A whole position sets its last deletion entry and its first insertion entry |
| Viterbi.PositionsReach | client/src/assets/js/gcv/alignment/viterbi.ts:61-92 | After n positions the last deletion entry at n-1 is set |
| Viterbi.DeleteChainReaches | client/src/assets/js/gcv/alignment/viterbi.ts:47-53 | The deletion chain sets every deletion entry at position -1 |
| Viterbi.EndReached | client/src/assets/js/gcv/alignment/viterbi.ts:93-97 | Whenever the model has a column, the schedule sets the end entry at the last position, so the traceback always has a pointer to follow |
| Viterbi.Decoder.constructor | client/src/assets/js/gcv/alignment/viterbi.ts:10-17 | The decoder starts with the start entry seeded and nothing relaxed |
| Viterbi.Decoder.Propagate | client/src/assets/js/gcv/alignment/viterbi.ts:19-32 | The tables stay exactly the relaxations made so far, now including this one |
| Viterbi.RelaxColumn | client/src/assets/js/gcv/alignment/viterbi.ts:63-86 | One pass of the inner loop makes exactly the column's relaxations, in the source's order |
| Viterbi.OutOfInsert | client/src/assets/js/gcv/alignment/viterbi.ts:66-71 | The transitions out of insertion state j are made in order |
| Viterbi.IntoNextColumn | client/src/assets/js/gcv/alignment/viterbi.ts:72-81 | The transitions from deletion j and match j into the next column are made in order |
| Viterbi.IntoNextInsert | client/src/assets/js/gcv/alignment/viterbi.ts:82-86 | The transitions from deletion j and match j into insertion j+1 are made |
| Viterbi.NextColumn | client/src/assets/js/gcv/alignment/viterbi.ts:62-87 | One more column is appended to the log of the inner loop |
| Viterbi.RelaxColumns | client/src/assets/js/gcv/alignment/viterbi.ts:62-87 | The inner loop makes every column's relaxations and leaves `dj` and `mj` at the last column |
| Viterbi.DecodePosition | client/src/assets/js/gcv/alignment/viterbi.ts:62-91 | A position makes its columns, then the last insertion self-loop when it is not the first position |
| Viterbi.PreSequence | client/src/assets/js/gcv/alignment/viterbi.ts:43-59 | The deletion chain, then the two transitions out of the start state at position 0 |
| Viterbi.DeletionChain | client/src/assets/js/gcv/alignment/viterbi.ts:47-53 | The loop relaxes `a -> d0` and every `d(j-1) -> dj` at position -1 |
| Viterbi.DecodeSequence | client/src/assets/js/gcv/alignment/viterbi.ts:60-92 | The outer loop makes every position's relaxations; `mj` is m0 on an empty sequence and the last match state otherwise |
| Viterbi.Finish | client/src/assets/js/gcv/alignment/viterbi.ts:93-97 | The three transitions into the end state are made from the states the loops left |
| Viterbi.Viterbi | client/src/assets/js/gcv/alignment/viterbi.ts:9-101 | A model with no columns fails. Otherwise the tables are the whole schedule applied to the seeded ones, and the end entry is set. The path is the traceback from it: it starts at `a`, ends at `z`, and consumes every symbol once |

## Left out

- The default accessor (the identity, comparing gene objects by reference) is not modelled. The accessor is always a function from a gene to its key.
- Genes are values, not shared objects. The aligners put clones of the genes into their alignments (client/js/alignment.js:85-95, 103, 219-224, 240, 255-273), so the strand flips change only those clones and never the caller's genes. The merge, in contrast, writes `x` and `y` into the alignment's own gene objects and pushes those same objects, so the alignments passed in are changed. The model returns new values, and that aliasing and the order of the updates are not captured.
- The debug dump of the repeat matrix is not modelled, since it is console output only.
- The Angular user interface and the track selector are not part of this model.
- `Math.log`, IEEE arithmetic and NaN are not modelled. Edge and emission weights are given directly as log-weights (`LogW`: -Infinity or a real), and `hmm.getEdge` and `emit` are taken to be total.
- Viterbi.Candidate: an unset source entry gives no candidate, so nothing is updated. This follows the code, where `undefined + x` is NaN and loses every comparison, not a reading as -Infinity.
- Viterbi.Decoder.constructor: `hmm.nodes` is taken to hold every state the decoder touches, including `a` and `z`. A state outside it makes the source fail with a TypeError, and the model does not represent that.
- Viterbi.Viterbi: the numeric value of the path's probability is not related to the best path's weight. Only the table's structure and reachability are proved, since floating-point maxima are not modelled.
- Repeat.Traceback: the traceback is bounded by a `fuel` number of steps and reports OutOfFuel when they run out, so nothing is promised about a run that needs more steps. The source loop can come back to a cell it opened from (Repeat.RevisitedOpening: an alignment opened at (2, 1) steps up to (2, 0) and opens there again), so it need not terminate.
- Repeat.Align: it takes the same `fuel` bound as Traceback.
- Repeat.Repeat: it takes the same `fuel` bound, and reports OutOfFuel if either direction runs out.
- Merge.ContextData.Merge: it requires every alignment to have two rows of one length with no double gap, at least as many selected tracks as alignments, and at least one existing track. Both aligners produce only such alignments (SmithWaterman.SmithWaterman and Repeat.Traceback promise no double gap). On other input the source behaves differently: it throws for a missing track, and for a double gap after the whole query, or before the first query gene when a match follows, where it reads a property of `null`; a double gap between query genes is counted as an insertion and then skipped.
- Merge.Step: it corrects only the reset of the pending insertions (see Findings). Like the source, it takes them from the last `insertionCount` columns before the match. When a deletion column lies between an inserted gene and the match, that window covers the deletion and misses the earliest inserted gene, which is then not positioned (Merge.InsertionBeforeDeletionDropped); so Merge.PositionedOnce promises each gene at most once, not exactly once. Where such a gene would be intended to go, before or after the deleted query gene's column, is not evident from the source.
- Merge.Step: the columns of inserted genes are exact reals. The source's `1.0 / (c + 1)` is rounded in floating point.
- Merge.ContextData.Merge: it lays out each alignment with the corrected step, so it does not reproduce the doubled and missing genes of the source's layout (see Findings).
- The bodies of `clone`, `Array.matrix` and `max` are not part of this model. They are replaced by value semantics, `new int[_, _]` and the row-maximum loop.

## Findings

| source | as written | input that shows it | evidently intended | confidence | as-written member | corrected member |
|---|---|---|---|---|---|---|
| client/js/alignment.js:360-377 | At a match, positioning the genes before the query is an `if` whose `else if` positions the pending insertions, so when both are pending the insertions are neither positioned nor reset; the next match then positions the columns just before it as if they were inserted | The alignment gap/q0/gap/q1/q2 against s0/gap/s1/s2/s3 with a query of 3 genes: s1 is never positioned and s2 is positioned twice, at 1 and at 1.5 | Both the genes before the query and the pending insertions are positioned and cleared at the match, so every gene is positioned at most once, in the row's order | not executed | Merge.PendingInsertionsSurvivePreQuery | Merge.PositionedOnce |
