/** The pairwise matrix built by the widget: an n-by-n matrix of zeros in
    which, for every pair of positions a < b, the distance of sequence a to
    sequence b is written both at (a, b) and at (b, a). The diagonal is never
    written. */
module DistanceMatrix {
  import opened Penalties
  import opened EditDistance

  /** `m` has `n` rows of `n` entries each. */
  ghost predicate IsSquare(m: seq<seq<int>>, n: nat) {
    |m| == n && forall r :: 0 <= r < n ==> |m[r]| == n
  }

  /** The entry the widget leaves at (a, b): the distance of the earlier of
      the two sequences to the later one, and 0 on the diagonal. */
  ghost function PairEntry(p: Scores, seqs: seq<seq<char>>, a: nat, b: nat): int
    requires a < |seqs| && b < |seqs|
  {
    if a < b then Distance(p, seqs[a], seqs[b])
    else if b < a then Distance(p, seqs[b], seqs[a])
    else 0
  }

  /** Entry (a, b) has been written once the outer loop has finished every
      row before `i` and the inner loop of row `i` every column before `j`. */
  ghost predicate Written(a: nat, b: nat, i: nat, j: nat) {
    var lo := if a < b then a else b;
    var hi := if a < b then b else a;
    a != b && (lo < i || (lo == i && hi < j))
  }

  /** The doubled pair count after rows 0 .. i - 1, where row r visits
      n - 1 - r pairs, grows by twice row i's share when row i is done. */
  lemma PairCountStep(n: nat, i: nat)
    requires i < n
    ensures i * (2 * n - i - 1) + 2 * (n - i - 1) == (i + 1) * (2 * n - (i + 1) - 1)
  {
  }

  /** The pair loop of `compute_alignment`. `calls` counts the invocations
      of the edit distance. */
  method PairwiseDistances(p: Scores, seqs: seq<seq<char>>) returns (m: seq<seq<int>>, calls: nat)
    ensures IsSquare(m, |seqs|)
    ensures forall a, b :: 0 <= a < |seqs| && 0 <= b < |seqs| ==> m[a][b] == m[b][a]
    ensures forall a :: 0 <= a < |seqs| ==> m[a][a] == 0
    ensures forall a, b :: 0 <= a < |seqs| && 0 <= b < |seqs| && a != b ==>
      m[a][b] == Distance(p, seqs[a], seqs[b])
    ensures p.align == 0 && p.misalign >= 0 && p.indel >= 0 ==>
      forall a, b :: 0 <= a < |seqs| && 0 <= b < |seqs| ==> m[a][b] == Distance(p, seqs[a], seqs[b])
    ensures 2 * calls == |seqs| * (|seqs| - 1)
  {
    var n := |seqs|;
    m := seq(n, _ => seq(n, _ => 0));
    calls := 0;
    var i := 0;
    while i < n
      invariant 0 <= i <= n
      invariant IsSquare(m, n)
      invariant forall a, b :: 0 <= a < n && 0 <= b < n ==>
        m[a][b] == (if Written(a, b, i, i) then PairEntry(p, seqs, a, b) else 0)
      invariant 2 * calls == i * (2 * n - i - 1)
    {
      var j := i + 1;
      while j < n
        invariant i + 1 <= j <= n
        invariant IsSquare(m, n)
        invariant forall a, b :: 0 <= a < n && 0 <= b < n ==>
          m[a][b] == (if Written(a, b, i, j) then PairEntry(p, seqs, a, b) else 0)
        invariant 2 * calls == i * (2 * n - i - 1) + 2 * (j - i - 1)
      {
        var dist := ComputeEditDistance(p, seqs[i], seqs[j]);
        calls := calls + 1;
        m := m[i := m[i][j := dist]];
        m := m[j := m[j][i := dist]];
        j := j + 1;
      }
      PairCountStep(n, i);
      i := i + 1;
    }
    forall a, b | 0 <= a < n && 0 <= b < n
      ensures a != b || (p.align == 0 && p.misalign >= 0 && p.indel >= 0) ==>
        m[a][b] == Distance(p, seqs[a], seqs[b])
    {
      DistanceSymmetric(p, seqs[a], seqs[b]);
      if a == b && p.align == 0 && p.misalign >= 0 && p.indel >= 0 {
        SelfDistanceZero(p, seqs[a]);
      }
    }
  }
}
