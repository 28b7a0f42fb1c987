/** What the number in a cell means, stated without the table: the cheapest
    total cost of a path of unit moves from cell (0, 0) to that cell. A move
    down pairs a symbol of `s` with a gap, a move right pairs a symbol of `t`
    with a gap, and a diagonal move pairs one symbol of each. Because the
    first row and column of the widget's table hold plain indices, a gap
    taken while the other sequence is still untouched costs 1; every other
    gap costs the indel score. */
module AlignmentPaths {
  import opened Penalties
  import opened EditDistance

  /** A move into a cell, named after the neighbour it comes from. */
  datatype Move = Up | Left | Diagonal

  /** `path`, walked from cell (0, 0), ends in cell (i, j). */
  ghost predicate Reaches(path: seq<Move>, i: nat, j: nat)
    decreases |path|
  {
    if |path| == 0 then i == 0 && j == 0
    else
      var prefix := path[..|path| - 1];
      match path[|path| - 1]
      case Up => i > 0 && Reaches(prefix, i - 1, j)
      case Left => j > 0 && Reaches(prefix, i, j - 1)
      case Diagonal => i > 0 && j > 0 && Reaches(prefix, i - 1, j - 1)
  }

  /** Cost of a gap move while the other sequence has `other` symbols
      consumed: 1 on the border of the table, the indel score inside it. */
  function GapCost(p: Scores, other: nat): int {
    if other == 0 then 1 else p.indel
  }

  /** Total cost of the moves of `path`, which ends in cell (i, j). */
  ghost function PathCost(p: Scores, s: seq<char>, t: seq<char>, path: seq<Move>, i: nat, j: nat): int
    requires i <= |s| && j <= |t| && Reaches(path, i, j)
    decreases |path|
  {
    if |path| == 0 then 0
    else
      var prefix := path[..|path| - 1];
      match path[|path| - 1]
      case Up => PathCost(p, s, t, prefix, i - 1, j) + GapCost(p, j)
      case Left => PathCost(p, s, t, prefix, i, j - 1) + GapCost(p, i)
      case Diagonal => PathCost(p, s, t, prefix, i - 1, j - 1) + DiagonalCost(p, s[i - 1], t[j - 1])
  }

  /** Every path to a cell costs at least the value in that cell. */
  lemma {:induction false} CellIsLowerBound(p: Scores, s: seq<char>, t: seq<char>, path: seq<Move>, i: nat, j: nat)
    requires i <= |s| && j <= |t| && Reaches(path, i, j)
    ensures Cell(p, s, t, i, j) <= PathCost(p, s, t, path, i, j)
    decreases |path|
  {
    if |path| > 0 {
      var prefix := path[..|path| - 1];
      match path[|path| - 1]
      case Up =>
        CellIsLowerBound(p, s, t, prefix, i - 1, j);
        if j > 0 { CellIsCheapestMove(p, s, t, i, j); }
      case Left =>
        CellIsLowerBound(p, s, t, prefix, i, j - 1);
        if i > 0 { CellIsCheapestMove(p, s, t, i, j); }
      case Diagonal =>
        CellIsLowerBound(p, s, t, prefix, i - 1, j - 1);
        CellIsCheapestMove(p, s, t, i, j);
    }
  }

  /** Some path to each cell costs exactly the value in that cell. */
  lemma {:induction false} CellIsAttained(p: Scores, s: seq<char>, t: seq<char>, i: nat, j: nat)
    returns (path: seq<Move>)
    requires i <= |s| && j <= |t|
    ensures Reaches(path, i, j)
    ensures PathCost(p, s, t, path, i, j) == Cell(p, s, t, i, j)
    decreases i + j
  {
    if i == 0 && j == 0 {
      path := [];
    } else if j == 0 {
      var prefix := CellIsAttained(p, s, t, i - 1, 0);
      path := prefix + [Up];
      assert path[..|prefix|] == prefix;
    } else if i == 0 {
      var prefix := CellIsAttained(p, s, t, 0, j - 1);
      path := prefix + [Left];
      assert path[..|prefix|] == prefix;
    } else {
      CellIsCheapestMove(p, s, t, i, j);
      var m: Move;
      var prefix: seq<Move>;
      if Cell(p, s, t, i, j) == Cell(p, s, t, i - 1, j - 1) + DiagonalCost(p, s[i - 1], t[j - 1]) {
        prefix := CellIsAttained(p, s, t, i - 1, j - 1);
        m := Diagonal;
      } else if Cell(p, s, t, i, j) == Cell(p, s, t, i - 1, j) + p.indel {
        prefix := CellIsAttained(p, s, t, i - 1, j);
        m := Up;
      } else {
        prefix := CellIsAttained(p, s, t, i, j - 1);
        m := Left;
      }
      path := prefix + [m];
      assert path[..|prefix|] == prefix;
    }
  }

  /** The distance is the minimum total cost over all paths through the
      table: no path is cheaper, and one path costs exactly the distance. */
  lemma DistanceIsCheapestPath(p: Scores, s: seq<char>, t: seq<char>)
    ensures forall path :: Reaches(path, |s|, |t|) ==> Distance(p, s, t) <= PathCost(p, s, t, path, |s|, |t|)
    ensures exists path :: Reaches(path, |s|, |t|) && PathCost(p, s, t, path, |s|, |t|) == Distance(p, s, t)
  {
    forall path | Reaches(path, |s|, |t|)
      ensures Distance(p, s, t) <= PathCost(p, s, t, path, |s|, |t|)
    {
      CellIsLowerBound(p, s, t, path, |s|, |t|);
    }
    var best := CellIsAttained(p, s, t, |s|, |t|);
  }
}
