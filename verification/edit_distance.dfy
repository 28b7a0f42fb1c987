/** The edit-distance dynamic program of the widget: a table of
    (|s| + 1) x (|t| + 1) integers whose first row and first column hold the
    plain index, whose interior cells take the cheapest of an up move, a left
    move and a diagonal move, and whose bottom-right cell is the result. */
module EditDistance {
  import opened Penalties

  /** Cost of the diagonal move that pairs `a` with `b`: the match score for
      equal symbols, the mismatch score otherwise. */
  function DiagonalCost(p: Scores, a: char, b: char): int {
    if a == b then p.align else p.misalign
  }

  /** The diagonal cost as the widget writes it: the sum of two products of a
      boolean with a score, of which exactly one boolean is 1. */
  function BooleanWeightedCost(p: Scores, a: char, b: char): (r: int)
    ensures r == DiagonalCost(p, a, b)
  {
    (if a != b then 1 else 0) * p.misalign + (if a == b then 1 else 0) * p.align
  }

  /** The least of three values. */
  function Min3(a: int, b: int, c: int): (r: int)
    ensures r <= a && r <= b && r <= c
    ensures r == a || r == b || r == c
  {
    if a <= b && a <= c then a else if b <= c then b else c
  }

  /** The value of cell (i, j) of the table. Stating facts through this
      non-recursive name lets the verifier unfold the recursion one level at
      a time. */
  ghost function Cell(p: Scores, s: seq<char>, t: seq<char>, i: nat, j: nat): int
    requires i <= |s| && j <= |t|
  {
    CellRec(p, s, t, i, j)
  }

  /** The recursive definition of the table. The first column and the first
      row hold the index itself, independent of the indel score; an interior
      cell takes the cheapest of its three moves. */
  ghost function CellRec(p: Scores, s: seq<char>, t: seq<char>, i: nat, j: nat): int
    requires i <= |s| && j <= |t|
    decreases i + j
  {
    if j == 0 then i
    else if i == 0 then j
    else CheapestMove(p, CellRec(p, s, t, i - 1, j), CellRec(p, s, t, i, j - 1),
                      CellRec(p, s, t, i - 1, j - 1), DiagonalCost(p, s[i - 1], t[j - 1]))
  }

  /** The value of an interior cell given its upper, left and upper-left
      neighbours and the cost of pairing the two current symbols. */
  function CheapestMove(p: Scores, up: int, left: int, diag: int, cost: int): int {
    Min3(up + p.indel, left + p.indel, diag + cost)
  }

  /** The distance the widget reports for `s` and `t`: the bottom-right cell. */
  ghost function Distance(p: Scores, s: seq<char>, t: seq<char>): int {
    Cell(p, s, t, |s|, |t|)
  }

  /** The widget's `edit_distance`: fills the table first column, then
      first row, then the interior row by row, and returns its bottom-right cell. */
  method ComputeEditDistance(p: Scores, s: seq<char>, t: seq<char>) returns (d: int)
    ensures d == Distance(p, s, t)
    ensures |s| == 0 ==> d == |t|
    ensures |t| == 0 ==> d == |s|
  {
    var dp := new int[|s| + 1, |t| + 1]((_, _) => 0);

    var col := 1;
    while col <= |s|
      invariant 1 <= col <= |s| + 1
      invariant dp[0, 0] == 0
      invariant forall r :: 1 <= r < col ==> dp[r, 0] == r
    {
      dp[col, 0] := col;
      col := col + 1;
    }

    var row := 1;
    while row <= |t|
      invariant 1 <= row <= |t| + 1
      invariant forall r :: 0 <= r <= |s| ==> dp[r, 0] == Cell(p, s, t, r, 0)
      invariant forall c :: 0 <= c < row ==> dp[0, c] == Cell(p, s, t, 0, c)
    {
      dp[0, row] := row;
      row := row + 1;
    }

    var i := 1;
    while i <= |s|
      invariant 1 <= i <= |s| + 1
      invariant forall r :: 0 <= r <= |s| ==> dp[r, 0] == Cell(p, s, t, r, 0)
      invariant forall r, c :: 0 <= r < i && 0 <= c <= |t| ==> dp[r, c] == Cell(p, s, t, r, c)
    {
      var j := 1;
      while j <= |t|
        invariant 1 <= j <= |t| + 1
        invariant forall r :: 0 <= r <= |s| ==> dp[r, 0] == Cell(p, s, t, r, 0)
        invariant forall r, c :: 0 <= r < i && 0 <= c <= |t| ==> dp[r, c] == Cell(p, s, t, r, c)
        invariant forall c :: 0 <= c < j ==> dp[i, c] == Cell(p, s, t, i, c)
      {
        assert dp[i - 1, j] == Cell(p, s, t, i - 1, j);
        assert dp[i, j - 1] == Cell(p, s, t, i, j - 1);
        assert dp[i - 1, j - 1] == Cell(p, s, t, i - 1, j - 1);
        dp[i, j] := Min3(dp[i - 1, j] + p.indel,
                         dp[i, j - 1] + p.indel,
                         dp[i - 1, j - 1] + BooleanWeightedCost(p, s[i - 1], t[j - 1]));
        assert dp[i, j] == Cell(p, s, t, i, j);
        j := j + 1;
      }
      i := i + 1;
    }

    d := dp[|s|, |t|];
  }

  /** Every interior cell is at most each of its three candidate moves and
      equal to one of them. */
  lemma CellIsCheapestMove(p: Scores, s: seq<char>, t: seq<char>, i: nat, j: nat)
    requires 1 <= i <= |s| && 1 <= j <= |t|
    ensures Cell(p, s, t, i, j) <= Cell(p, s, t, i - 1, j) + p.indel
    ensures Cell(p, s, t, i, j) <= Cell(p, s, t, i, j - 1) + p.indel
    ensures Cell(p, s, t, i, j) <= Cell(p, s, t, i - 1, j - 1) + DiagonalCost(p, s[i - 1], t[j - 1])
    ensures || Cell(p, s, t, i, j) == Cell(p, s, t, i - 1, j) + p.indel
            || Cell(p, s, t, i, j) == Cell(p, s, t, i, j - 1) + p.indel
            || Cell(p, s, t, i, j) == Cell(p, s, t, i - 1, j - 1) + DiagonalCost(p, s[i - 1], t[j - 1])
  {
  }

  /** The table is symmetric under swapping the two sequences, so the
      distance does not depend on the order of its arguments. */
  lemma {:induction false} CellSymmetric(p: Scores, s: seq<char>, t: seq<char>, i: nat, j: nat)
    requires i <= |s| && j <= |t|
    ensures Cell(p, s, t, i, j) == Cell(p, t, s, j, i)
    decreases i + j
  {
    if i > 0 && j > 0 {
      CellSymmetric(p, s, t, i - 1, j);
      CellSymmetric(p, s, t, i, j - 1);
      CellSymmetric(p, s, t, i - 1, j - 1);
      DiagonalCostSymmetric(p, s[i - 1], t[j - 1]);
      CheapestMoveSwap(p, Cell(p, s, t, i - 1, j), Cell(p, s, t, i, j - 1),
                       Cell(p, s, t, i - 1, j - 1), DiagonalCost(p, s[i - 1], t[j - 1]));
    }
  }

  lemma DiagonalCostSymmetric(p: Scores, a: char, b: char)
    ensures DiagonalCost(p, a, b) == DiagonalCost(p, b, a)
  {
  }

  lemma CheapestMoveSwap(p: Scores, up: int, left: int, diag: int, cost: int)
    ensures CheapestMove(p, up, left, diag, cost) == CheapestMove(p, left, up, diag, cost)
  {
  }

  lemma DistanceSymmetric(p: Scores, s: seq<char>, t: seq<char>)
    ensures Distance(p, s, t) == Distance(p, t, s)
  {
    CellSymmetric(p, s, t, |s|, |t|);
  }

  /** With a non-positive match reward and non-negative mismatch and indel
      scores (the spin-box signs), no cell falls below one match reward per
      symbol of the shorter prefix. */
  lemma {:induction false} CellLowerBound(p: Scores, s: seq<char>, t: seq<char>, i: nat, j: nat)
    requires p.align <= 0 && p.misalign >= 0 && p.indel >= 0
    requires i <= |s| && j <= |t|
    ensures Cell(p, s, t, i, j) >= Shorter(i, j) * p.align
    decreases i + j
  {
    if i > 0 && j > 0 {
      CellLowerBound(p, s, t, i - 1, j);
      CellLowerBound(p, s, t, i, j - 1);
      CellLowerBound(p, s, t, i - 1, j - 1);
      var lo := Shorter(i, j) * p.align;
      ScaleMonotone(Shorter(i - 1, j), Shorter(i, j), p.align);
      ScaleMonotone(Shorter(i, j - 1), Shorter(i, j), p.align);
      ScaleStep(Shorter(i - 1, j - 1), Shorter(i, j), p.align);
      CheapestMoveLowerBound(p, Cell(p, s, t, i - 1, j), Cell(p, s, t, i, j - 1),
                             Cell(p, s, t, i - 1, j - 1), DiagonalCost(p, s[i - 1], t[j - 1]), lo);
    }
  }

  /** Length of the shorter of two prefixes. */
  function Shorter(i: nat, j: nat): nat {
    if i <= j then i else j
  }

  /** Length of the longer of two prefixes. */
  function Longer(i: nat, j: nat): nat {
    if i <= j then j else i
  }

  /** Multiplying by a non-positive factor reverses the order. */
  lemma ScaleMonotone(k: int, m: int, a: int)
    requires k <= m && a <= 0
    ensures k * a >= m * a
  {
    assert m * a - k * a == (m - k) * a;
  }

  lemma ScaleStep(k: int, m: int, a: int)
    requires k == m - 1
    ensures k * a + a == m * a
  {
  }

  lemma CheapestMoveLowerBound(p: Scores, up: int, left: int, diag: int, cost: int, lo: int)
    requires p.indel >= 0
    requires up >= lo && left >= lo && diag + cost >= lo
    ensures CheapestMove(p, up, left, diag, cost) >= lo
  {
  }

  /** Under the default match score of 0 with non-negative mismatch and
      indel scores every cell, and so every distance, is non-negative. */
  lemma CellNonNegative(p: Scores, s: seq<char>, t: seq<char>, i: nat, j: nat)
    requires p.align == 0 && p.misalign >= 0 && p.indel >= 0
    requires i <= |s| && j <= |t|
    ensures Cell(p, s, t, i, j) >= 0
  {
    CellLowerBound(p, s, t, i, j);
  }

  /** Under the same scores a sequence is at distance 0 from itself: the
      all-diagonal path costs nothing. */
  lemma {:induction false} SelfCellZero(p: Scores, s: seq<char>, i: nat)
    requires p.align == 0 && p.misalign >= 0 && p.indel >= 0
    requires i <= |s|
    ensures Cell(p, s, s, i, i) == 0
  {
    if i > 0 {
      SelfCellZero(p, s, i - 1);
      CellNonNegative(p, s, s, i, i);
    }
  }

  lemma SelfDistanceZero(p: Scores, s: seq<char>)
    requires p.align == 0 && p.misalign >= 0 && p.indel >= 0
    ensures Distance(p, s, s) == 0
  {
    SelfCellZero(p, s, |s|);
  }

  /** Whatever the scores, the all-diagonal path bounds the distance of a
      sequence to itself by one match score per symbol; with a negative
      match score a non-empty sequence is therefore at a negative distance
      from itself. */
  lemma {:induction false} SelfCellAtMostMatches(p: Scores, s: seq<char>, i: nat)
    requires i <= |s|
    ensures Cell(p, s, s, i, i) <= i * p.align
  {
    if i > 0 {
      SelfCellAtMostMatches(p, s, i - 1);
      CellIsCheapestMove(p, s, s, i, i);
      ScaleStep(i - 1, i, p.align);
    }
  }

  lemma SelfDistanceAtMostMatches(p: Scores, s: seq<char>)
    ensures Distance(p, s, s) <= |s| * p.align
    ensures p.align < 0 && |s| > 0 ==> Distance(p, s, s) < 0
  {
    SelfCellAtMostMatches(p, s, |s|);
    if p.align < 0 && |s| > 0 {
      ScaleMonotone(1, |s|, p.align);
    }
  }

  /** With the defaults every distance lies between 0 and the length of the
      longer sequence. */
  lemma {:induction false} CellDefaultUpperBound(s: seq<char>, t: seq<char>, i: nat, j: nat)
    requires i <= |s| && j <= |t|
    ensures Cell(Defaults(), s, t, i, j) <= Longer(i, j)
    decreases i + j
  {
    if i > 0 && j > 0 {
      CellDefaultUpperBound(s, t, i - 1, j - 1);
    }
  }

  lemma DistanceDefaultBounds(s: seq<char>, t: seq<char>)
    ensures 0 <= Distance(Defaults(), s, t) <= Longer(|s|, |t|)
  {
    CellNonNegative(Defaults(), s, t, |s|, |t|);
    CellDefaultUpperBound(s, t, |s|, |t|);
  }

  /** The first row and column ignore the indel score: a gap before the
      first symbol of the other sequence costs 1, any other gap costs the
      indel score. Dropping the leading `A` of "AB" therefore always costs 1,
      while dropping the trailing `A` of "BA" costs the indel score or, when
      that is dearer, a mismatch plus a leading gap. */
  lemma LeadingGapIgnoresIndel(indel: int)
    requires indel >= 0
    ensures Distance(Scores(0, 1, indel), "AB", "B") == 1
    ensures Distance(Scores(0, 1, indel), "BA", "B") == (if indel < 2 then indel else 2)
  {
    var p := Scores(0, 1, indel);
    assert Cell(p, "AB", "B", 0, 1) == 1 && Cell(p, "AB", "B", 1, 0) == 1 && Cell(p, "AB", "B", 2, 0) == 2;
    assert Cell(p, "AB", "B", 1, 1) == 1;
    assert Cell(p, "BA", "B", 0, 1) == 1 && Cell(p, "BA", "B", 1, 0) == 1 && Cell(p, "BA", "B", 2, 0) == 2;
    assert Cell(p, "BA", "B", 1, 1) == 0;
  }

  /** With a match reward the distance of a one-symbol sequence to itself is
      that reward, not the 0 the matrix keeps on its diagonal. */
  lemma SelfDistanceWithReward(p: Scores, c: char)
    requires p.align <= 0 && p.indel >= 0
    ensures Distance(p, [c], [c]) == p.align
  {
    assert Cell(p, [c], [c], 0, 1) == 1 && Cell(p, [c], [c], 1, 0) == 1 && Cell(p, [c], [c], 0, 0) == 0;
  }
}
