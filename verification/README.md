# Pairwise sequence-distance engine of the Multiple Sequence Alignment widget

A Dafny model of the computational core of Orange's "Multiple Sequence
Alignment" widget (`OWMultipleSequenceAlignment`): the edit-distance dynamic
program `edit_distance`, the pair loop of `compute_alignment` that fills a
symmetric distance matrix, and the penalty reset `_invalidate`.

Files and modules:

- `penalties.dfy` (`Penalties`): the three scores (match, mismatch, indel),
  their "custom" check boxes, the spin-box ranges and `Invalidate`.
- `edit_distance.dfy` (`EditDistance`): the table as a recursive function
  (`Cell`, `Distance`), the imperative table fill `ComputeEditDistance` over a
  2-D array proved equal to it, and properties of the distance: symmetry,
  bounds, zero self-distance, and the effect of the plain-index border.
- `alignment_paths.dfy` (`AlignmentPaths`): an independent meaning for the
  table: every cell is the cheapest total cost of a path of up, left and
  diagonal moves from cell (0, 0) to it.
- `distance_matrix.dfy` (`DistanceMatrix`): the `i < j` pair loop building
  the n-by-n matrix.

Behaviour that follows the code rather than the usual textbook formulation:

- The first row and column of the table hold the plain indices `i` and `j`
  (lines 86-89), not `i * indel_score`. A gap taken before any symbol of the
  other sequence therefore costs 1 whatever the indel score, while every
  other gap costs the indel score. The model keeps this:
  `ComputeEditDistance` returns `|t|` for an empty `s` for every
  configuration, and `EditDistance.LeadingGapIgnoresIndel` shows that,
  with match score 0, mismatch score 1 and any non-negative indel score,
  dropping the leading symbol of "AB" to match "B" costs 1 while dropping
  the trailing symbol of "BA" to match "B" costs `min(indel, 2)`.
- The matrix diagonal is never written and stays 0. For a non-empty
  sequence and scores in the spin-box ranges, that equals the distance of
  the sequence to itself only when the match score is 0
  (`EditDistance.SelfDistanceZero`); with a negative match score the
  self-distance is negative (`EditDistance.SelfDistanceAtMostMatches`,
  `EditDistance.SelfDistanceWithReward`).

## Model

| member | source | states |
|---|---|---|
| `Penalties.Invalidate` | Orange/widgets/unsupervised/owmultipleseqalignment.py:57-63 | a score whose check box is off becomes its default (mismatch 1, match 0, indel 1); a score whose check box is on keeps its value |
| `Penalties.InvalidateIdempotent` | Orange/widgets/unsupervised/owmultipleseqalignment.py:57-63 | applying the reset twice gives the same scores as applying it once |
| `Penalties.InvalidateAllUnchecked` | Orange/widgets/unsupervised/owmultipleseqalignment.py:18-23 | with all three boxes unchecked the reset yields exactly the class defaults, whatever was entered |
| `Penalties.InvalidateAllChecked` | Orange/widgets/unsupervised/owmultipleseqalignment.py:57-63 | with all three boxes checked the reset changes nothing |
| `Penalties.InvalidateKeepsSpinRange` | Orange/widgets/unsupervised/owmultipleseqalignment.py:25-28 | the reset keeps every score inside its spin-box range (match in [-100, 0], mismatch and indel in [0, 100]) |
| `EditDistance.BooleanWeightedCost` | Orange/widgets/unsupervised/owmultipleseqalignment.py:97-98 | the sum of the two boolean-weighted products is the match score for equal symbols and the mismatch score for different ones |
| `EditDistance.Min3` | Orange/widgets/unsupervised/owmultipleseqalignment.py:94-98 | the minimum of three values is at most each of them and equal to one of them |
| `EditDistance.ComputeEditDistance` | Orange/widgets/unsupervised/owmultipleseqalignment.py:78-103 | the row-by-row fill of the 2-D table returns the bottom-right cell of the recursively defined table; an empty `s` gives `|t|` and an empty `t` gives `|s|`, independent of the indel score |
| `EditDistance.CellIsCheapestMove` | Orange/widgets/unsupervised/owmultipleseqalignment.py:92-98 | every interior cell is at most the up move plus indel, the left move plus indel and the diagonal plus match/mismatch cost, and equal to one of the three |
| `EditDistance.CellSymmetric` | Orange/widgets/unsupervised/owmultipleseqalignment.py:86-98 | cell (i, j) for `s`, `t` equals cell (j, i) for `t`, `s` |
| `EditDistance.DistanceSymmetric` | Orange/widgets/unsupervised/owmultipleseqalignment.py:78-103 | the distance does not depend on the order of the two sequences |
| `EditDistance.CellLowerBound` | Orange/widgets/unsupervised/owmultipleseqalignment.py:92-98 | with scores of the spin-box signs no cell is below the match score times the length of the shorter prefix |
| `EditDistance.CellNonNegative` | Orange/widgets/unsupervised/owmultipleseqalignment.py:86-98 | with match score 0 and non-negative mismatch and indel scores every cell is non-negative |
| `EditDistance.SelfDistanceZero` | Orange/widgets/unsupervised/owmultipleseqalignment.py:94-98 | with match score 0 and non-negative mismatch and indel scores a sequence is at distance 0 from itself |
| `EditDistance.SelfDistanceAtMostMatches` | Orange/widgets/unsupervised/owmultipleseqalignment.py:94-98 | for any scores a sequence is at distance at most its length times the match score from itself, so a negative match score makes a non-empty sequence's self-distance negative |
| `EditDistance.DistanceDefaultBounds` | Orange/widgets/unsupervised/owmultipleseqalignment.py:18-23 | under the default scores the distance lies between 0 and the length of the longer sequence |
| `EditDistance.LeadingGapIgnoresIndel` | Orange/widgets/unsupervised/owmultipleseqalignment.py:86-89 | with match score 0, mismatch score 1 and any non-negative indel score, "AB" against "B" costs 1 (leading gap on the border) while "BA" against "B" costs min(indel, 2) |
| `EditDistance.SelfDistanceWithReward` | Orange/widgets/unsupervised/owmultipleseqalignment.py:94-98 | with a non-positive match score and a non-negative indel score, every one-symbol sequence is at distance equal to the match score from itself |
| `AlignmentPaths.CellIsLowerBound` | Orange/widgets/unsupervised/owmultipleseqalignment.py:86-98 | no path of moves from (0, 0) to a cell costs less than the cell |
| `AlignmentPaths.CellIsAttained` | Orange/widgets/unsupervised/owmultipleseqalignment.py:86-98 | some path of moves from (0, 0) to a cell costs exactly the cell |
| `AlignmentPaths.DistanceIsCheapestPath` | Orange/widgets/unsupervised/owmultipleseqalignment.py:78-103 | the returned value is the minimum edit cost: no path to the bottom-right cell is cheaper and one path costs exactly that value |
| `DistanceMatrix.PairwiseDistances` | Orange/widgets/unsupervised/owmultipleseqalignment.py:118-124 | the result is n-by-n, symmetric, zero on the diagonal, holds the distance of `seqs[a]` to `seqs[b]` at every off-diagonal (a, b), holds the full distance matrix when the match score is 0 and the others non-negative, and the edit distance is invoked n(n-1)/2 times |

## Left out

- Qt and widget plumbing: the spin boxes and button of `__init__`, `set_data`, `commit` and `send` (so the recomputation `_invalidate` triggers is not modelled), the `check_sql_input` decorator and the `Error`/`Warning` messages. These are user-interface event wiring.
- The input checks of `compute_alignment` (no data, no meta column, no discrete attribute): they return before any distance is computed and only raise interface messages.
- Orange `Table`/`Domain` handling: `approx_len`, the `str(row[0].value)` extraction, the label table and the `DistMatrix` wrapper. The input is a plain sequence of strings and `n` is its length.
- Spin-box enforcement itself: the ranges are only a predicate, since Qt keeps entered values inside them.
- numpy integer width of the table and the floating-point result matrix: the model uses unbounded integers, so overflow is not represented.
- The `__main__` demonstration block: file and window I/O.
- Alignment strings, traceback and tie-breaking: the widget computes only a cost, so there is nothing of them to model.
