/** The SmithWaterman class of subseq.py: the score matrix is filled once, in
    the constructor, and records the best score and every cell holding it;
    get_traceback walks back from one of those cells. */
module SmithWaterman {
  import opened Wrappers
  import opened Alignment
  import opened LocalAlignment
  import opened ScoreMatrices

  class SmithWaterman {
    const target: string
    const sequence: string
    const gapCost: real
    const sub: (char, char) -> int
    /** score_matrix, (len(target) + 1) x (len(sequence) + 1) */
    const scoreMatrix: array2<real>
    var bestScore: real
    var bestScoreCoordinates: seq<(nat, nat)>

    /** The inputs as a specification value. */
    function Inputs(): Problem {
      Problem(target, sequence, gapCost, sub)
    }

    /** The filled matrix and the best cells, as the recurrence defines them. */
    ghost predicate Valid()
      reads this, scoreMatrix
    {
      Filled(scoreMatrix, Inputs()) && (bestScore, bestScoreCoordinates) == Best(Inputs())
    }

    constructor (target: string, sequence: string, gapCost: real, sub: (char, char) -> int)
      ensures this.target == target && this.sequence == sequence
      ensures this.gapCost == gapCost && this.sub == sub
      ensures fresh(scoreMatrix)
      ensures Valid()
    {
      this.target := target;
      this.sequence := sequence;
      this.gapCost := gapCost;
      this.sub := sub;
      scoreMatrix := new real[|target| + 1, |sequence| + 1]((i, j) => 0.0);
      bestScore := 0.0;
      bestScoreCoordinates := [];
      new;
      FillScoreMatrix();
    }

    /** calculate_score: the recurrence at (i, j) from its three filled
        neighbours. */
    method CalculateScore(i: nat, j: nat) returns (score: real)
      requires Shaped(scoreMatrix, Inputs()) && Interior(Inputs(), i, j)
      requires scoreMatrix[i - 1, j - 1] == Cell(Inputs(), i - 1, j - 1)
      requires scoreMatrix[i - 1, j] == Cell(Inputs(), i - 1, j)
      requires scoreMatrix[i, j - 1] == Cell(Inputs(), i, j - 1)
      ensures score == Cell(Inputs(), i, j)
    {
      var similarity := sub(target[i - 1], sequence[j - 1]);
      var diagonalScore := scoreMatrix[i - 1, j - 1] + similarity as real;
      var upScore := scoreMatrix[i - 1, j] - gapCost;
      var leftScore := scoreMatrix[i, j - 1] - gapCost;
      score := MaxOf([0.0, diagonalScore, upScore, leftScore]);
      MaxOfFour(0.0, diagonalScore, upScore, leftScore);
      CellUnfold(Inputs(), i, j);
    }

    /** fill_score_matrix, run on a zeroed matrix: afterwards every cell holds
        the recurrence and the best score and its cells are those of the
        row-major scan. */
    method FillScoreMatrix()
      requires Bordered(scoreMatrix, Inputs())
      requires bestScore == 0.0 && bestScoreCoordinates == []
      modifies this`bestScore, this`bestScoreCoordinates, scoreMatrix
      ensures Valid()
    {
      var i: nat := 1;
      while i <= |target|
        invariant 1 <= i <= |target| + 1
        invariant Shaped(scoreMatrix, Inputs()) && FilledBefore(scoreMatrix, Inputs(), i, 1)
        invariant (bestScore, bestScoreCoordinates) == BestAt(Inputs(), i, 1)
      {
        FillRow(i);
        i := i + 1;
      }
    }

    /** One pass of fill_score_matrix's inner loop: row i, left to right. */
    method FillRow(i: nat)
      requires 1 <= i <= |target| && Shaped(scoreMatrix, Inputs()) && FilledBefore(scoreMatrix, Inputs(), i, 1)
      requires (bestScore, bestScoreCoordinates) == BestAt(Inputs(), i, 1)
      modifies this`bestScore, this`bestScoreCoordinates, scoreMatrix
      ensures FilledBefore(scoreMatrix, Inputs(), i + 1, 1)
      ensures (bestScore, bestScoreCoordinates) == BestAt(Inputs(), i + 1, 1)
    {
      var j: nat := 1;
      while j <= |sequence|
        invariant 1 <= j <= |sequence| + 1
        invariant FilledBefore(scoreMatrix, Inputs(), i, j)
        invariant (bestScore, bestScoreCoordinates) == BestAt(Inputs(), i, j)
      {
        FillCell(i, j);
        j := j + 1;
      }
    }

    /** One step of fill_score_matrix's inner loop: the score of (i, j) is
        stored; a larger score restarts the list of best cells and an equal
        one joins it. */
    method FillCell(i: nat, j: nat)
      requires Shaped(scoreMatrix, Inputs()) && Interior(Inputs(), i, j)
      requires FilledBefore(scoreMatrix, Inputs(), i, j)
      requires (bestScore, bestScoreCoordinates) == BestAt(Inputs(), i, j)
      modifies this`bestScore, this`bestScoreCoordinates, scoreMatrix
      ensures FilledBefore(scoreMatrix, Inputs(), i, j + 1)
      ensures (bestScore, bestScoreCoordinates) == BestAt(Inputs(), i, j + 1)
    {
      ghost var p := Inputs();
      var score := CalculateScore(i, j);
      ghost var st := (bestScore, bestScoreCoordinates);
      label write:
      scoreMatrix[i, j] := score;
      forall a: nat, b: nat | a <= |target| && b <= |sequence| && (a == 0 || b == 0 || Before(a, b, i, j + 1))
        ensures scoreMatrix[a, b] == Cell(p, a, b)
      {
        if (a, b) != (i, j) { assert scoreMatrix[a, b] == old@write(scoreMatrix[a, b]); }
      }
      if score > bestScore {
        bestScore := score;
        bestScoreCoordinates := [(i, j)];
      } else if score == bestScore {
        bestScoreCoordinates := bestScoreCoordinates + [(i, j)];
      }
      assert (bestScore, bestScoreCoordinates) == BestStep(st, score, i, j) == BestAt(p, i, j + 1);
    }

    /** next_move as written, on the values it reads from the matrix. */
    method NextMove(i: nat, j: nat) returns (move: Option<Move>)
      requires Bordered(scoreMatrix, Inputs()) && Interior(Inputs(), i, j)
      ensures move == NextMoveOn(scoreMatrix[i, j], scoreMatrix[i - 1, j - 1], scoreMatrix[i - 1, j], scoreMatrix[i, j - 1],
                                 sub(target[i - 1], sequence[j - 1]), gapCost)
    {
      var achievedScore := scoreMatrix[i, j];
      var diagonal := scoreMatrix[i - 1, j - 1];
      var up := scoreMatrix[i - 1, j];
      var left := scoreMatrix[i, j - 1];
      if achievedScore == diagonal + sub(target[i - 1], sequence[j - 1]) as real {
        return Some(if diagonal > 0.0 then Diag else End);
      }
      if achievedScore == up - gapCost {
        return Some(if up > 0.0 then Up else End);
      }
      if achievedScore == left - gapCost {
        return Some(if left > 0.0 then Left else End);
      }
      return None;
    }

    /** get_traceback(i, j), with a fall-through of next_move taken as END
        (as written the loop never ends there). The columns are put in front
        as they are found, which is what the source's append and final
        reversal produce. */
    method GetTraceback(i: nat, j: nat) returns (alignedTarget: string, alignedSubject: string, startI: nat, startJ: nat)
      requires Filled(scoreMatrix, Inputs()) && Interior(Inputs(), i, j)
      ensures (alignedTarget, alignedSubject, startI, startJ) == Traceback(Inputs(), i, j)
    {
      FilledIsBordered(scoreMatrix, Inputs());
      alignedTarget, alignedSubject, startI, startJ := WalkMatrix(i, j);
      MatrixWalkIsWalk(scoreMatrix, Inputs(), Current, i, j, [], []);
    }

    /** The loop of get_traceback: the walk from (i, j) that the moves read
        from the matrix take. */
    method WalkMatrix(i: nat, j: nat) returns (alignedTarget: string, alignedSubject: string, startI: nat, startJ: nat)
      requires Bordered(scoreMatrix, Inputs()) && Interior(Inputs(), i, j)
      ensures (alignedTarget, alignedSubject, startI, startJ) == MatrixWalk(scoreMatrix, Inputs(), Current, i, j, [], [])
    {
      alignedTarget, alignedSubject := [], [];
      startI, startJ := i, j;
      var move := NextMove(startI, startJ);
      while move != Some(End) && move != None
        invariant Interior(Inputs(), startI, startJ)
        invariant MatrixMove(scoreMatrix, Inputs(), Current, startI, startJ) == if move.Some? then move.value else End
        invariant MatrixWalk(scoreMatrix, Inputs(), Current, i, j, [], []) == MatrixWalk(scoreMatrix, Inputs(), Current, startI, startJ, alignedTarget, alignedSubject)
        decreases startI + startJ
      {
        if move == Some(Diag) {
          alignedTarget := [target[startI - 1]] + alignedTarget;
          alignedSubject := [sequence[startJ - 1]] + alignedSubject;
          startI, startJ := startI - 1, startJ - 1;
        } else if move == Some(Up) {
          alignedTarget := [target[startI - 1]] + alignedTarget;
          alignedSubject := [Gap] + alignedSubject;
          startI := startI - 1;
        } else {
          alignedTarget := [Gap] + alignedTarget;
          alignedSubject := [sequence[startJ - 1]] + alignedSubject;
          startJ := startJ - 1;
        }
        move := NextMove(startI, startJ);
      }
      alignedTarget := [target[startI - 1]] + alignedTarget;
      alignedSubject := [sequence[startJ - 1]] + alignedSubject;
    }
  }
}
