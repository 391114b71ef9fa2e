/** The NeedlemanWunsch class of subseq.py (copied as
    subseq/NeedlemanWunch.py): the constructor writes the gap borders and
    fills the score matrix in place; get_traceback walks back from the
    bottom-right cell; get_alignment_score reads that cell. */
module NeedlemanWunsch {
  import opened Wrappers
  import opened Errors
  import opened Alignment
  import opened LocalAlignment
  import opened ScoreMatrices
  import opened GlobalAlignment

  class NeedlemanWunsch {
    const target: string
    const sequence: string
    const gapCost: real
    const sub: (char, char) -> int
    /** score_matrix, (len(target) + 1) x (len(sequence) + 1) */
    const scoreMatrix: array2<real>

    /** The inputs as a specification value. */
    function Inputs(): Problem {
      Problem(target, sequence, gapCost, sub)
    }

    /** Every cell holds the recurrence. */
    ghost predicate Valid()
      reads this, scoreMatrix
    {
      NwFilled(scoreMatrix, Inputs())
    }

    /** __init__: a zeroed matrix, then init_score_matrix and
        fill_score_matrix. */
    constructor (target: string, sequence: string, gapCost: real, sub: (char, char) -> int)
      ensures this.target == target && this.sequence == sequence
      ensures this.gapCost == gapCost && this.sub == sub
      ensures fresh(scoreMatrix)
      ensures Valid()
    {
      this.target := target;
      this.sequence := sequence;
      this.gapCost := gapCost;
      this.sub := sub;
      scoreMatrix := new real[|target| + 1, |sequence| + 1]((i, j) => 0.0);
      new;
      InitScoreMatrix();
      FillScoreMatrix();
    }

    /** init_score_matrix: score[i][0] = -gap_cost * i for every row, then
        score[0][j] = -gap_cost * j for every column. */
    method InitScoreMatrix()
      requires Shaped(scoreMatrix, Inputs())
      modifies scoreMatrix
      ensures NwFilledBefore(scoreMatrix, Inputs(), 1, 1)
    {
      InitFirstColumn();
      InitFirstRow();
      ghost var p := Inputs();
      forall a: nat, b: nat | a <= |target| && b <= |sequence| && (a == 0 || b == 0)
        ensures scoreMatrix[a, b] == NwCell(p, a, b)
      {
        if a == 0 {
          assert scoreMatrix[0, b] == Border(gapCost, b);
        } else {
          assert scoreMatrix[a, 0] == Border(gapCost, a);
        }
      }
    }

    /** The first loop of init_score_matrix. */
    method InitFirstColumn()
      requires Shaped(scoreMatrix, Inputs())
      modifies scoreMatrix
      ensures forall a :: 0 <= a <= |target| ==> scoreMatrix[a, 0] == Border(gapCost, a)
    {
      var i: nat := 0;
      while i <= |target|
        invariant i <= |target| + 1
        invariant forall a :: 0 <= a < i ==> scoreMatrix[a, 0] == Border(gapCost, a)
      {
        BorderIsProduct(gapCost, i);
        scoreMatrix[i, 0] := -gapCost * i as real;
        i := i + 1;
      }
    }

    /** The second loop of init_score_matrix; it rewrites score[0][0] with
        the same 0 and leaves the rest of column 0 alone. */
    method InitFirstRow()
      requires Shaped(scoreMatrix, Inputs())
      modifies scoreMatrix
      ensures forall b :: 0 <= b <= |sequence| ==> scoreMatrix[0, b] == Border(gapCost, b)
      ensures forall a :: 1 <= a <= |target| ==> scoreMatrix[a, 0] == old(scoreMatrix[a, 0])
    {
      var j: nat := 0;
      while j <= |sequence|
        invariant j <= |sequence| + 1
        invariant forall b :: 0 <= b < j ==> scoreMatrix[0, b] == Border(gapCost, b)
        invariant forall a :: 1 <= a <= |target| ==> scoreMatrix[a, 0] == old(scoreMatrix[a, 0])
      {
        BorderIsProduct(gapCost, j);
        scoreMatrix[0, j] := -gapCost * j as real;
        j := j + 1;
      }
    }

    /** fill_score_matrix: every interior cell, row by row, gets the
        recurrence. */
    method FillScoreMatrix()
      requires NwFilledBefore(scoreMatrix, Inputs(), 1, 1)
      modifies scoreMatrix
      ensures Valid()
    {
      var i: nat := 1;
      while i <= |target|
        invariant 1 <= i <= |target| + 1
        invariant NwFilledBefore(scoreMatrix, Inputs(), i, 1)
      {
        FillRow(i);
        i := i + 1;
      }
    }

    /** One pass of fill_score_matrix's inner loop: row i, left to right. */
    method FillRow(i: nat)
      requires 1 <= i <= |target| && NwFilledBefore(scoreMatrix, Inputs(), i, 1)
      modifies scoreMatrix
      ensures NwFilledBefore(scoreMatrix, Inputs(), i + 1, 1)
    {
      ghost var p := Inputs();
      var j: nat := 1;
      while j <= |sequence|
        invariant 1 <= j <= |sequence| + 1
        invariant NwFilledBefore(scoreMatrix, p, i, j)
      {
        var score := CalculateScore(i, j);
        label write:
        scoreMatrix[i, j] := score;
        forall a: nat, b: nat | a <= |target| && b <= |sequence| && (a == 0 || b == 0 || Before(a, b, i, j + 1))
          ensures scoreMatrix[a, b] == NwCell(p, a, b)
        {
          if (a, b) != (i, j) { assert scoreMatrix[a, b] == old@write(scoreMatrix[a, b]); }
        }
        j := j + 1;
      }
    }

    /** calculate_score: max(diagonal + score, up - gap, left - gap) over the
        three filled neighbours. */
    method CalculateScore(i: nat, j: nat) returns (score: real)
      requires Interior(Inputs(), i, j) && NwFilledBefore(scoreMatrix, Inputs(), i, j)
      ensures score == NwCell(Inputs(), i, j)
    {
      ghost var p := Inputs();
      assert scoreMatrix[i - 1, j - 1] == NwCell(p, i - 1, j - 1);
      assert scoreMatrix[i - 1, j] == NwCell(p, i - 1, j);
      assert scoreMatrix[i, j - 1] == NwCell(p, i, j - 1);
      var similarity := sub(target[i - 1], sequence[j - 1]) as real;
      var diagonalScore := scoreMatrix[i - 1, j - 1] + similarity;
      var upScore := scoreMatrix[i - 1, j] - gapCost;
      var leftScore := scoreMatrix[i, j - 1] - gapCost;
      score := Max3(diagonalScore, upScore, leftScore);
    }

    /** next_move: it reads target[i-1], sequence[j-1] and the four cells
        before testing for row 0 or column 0, and Python's index -1 wraps to
        the last element, so only an empty target (at i = 0) or an empty
        sequence (at j = 0) makes it raise IndexError. */
    method NextMove(i: nat, j: nat) returns (r: Result<Option<Move>, Error>)
      requires Valid() && i <= |target| && j <= |sequence|
      ensures r.Err? <==> (i == 0 && |target| == 0) || (j == 0 && |sequence| == 0)
      ensures r.Err? ==> r.error == IndexError
      ensures r.Ok? ==> r.value.Some? && r.value == NwMatrixMove(scoreMatrix, Inputs(), i, j)
    {
      if (i == 0 && |target| == 0) || (j == 0 && |sequence| == 0) {
        return Err(IndexError);
      }
      var aa1 := target[if i == 0 then |target| - 1 else i - 1];
      var aa2 := sequence[if j == 0 then |sequence| - 1 else j - 1];
      var pi := if i == 0 then |target| else i - 1;
      var pj := if j == 0 then |sequence| else j - 1;
      var achievedScore := scoreMatrix[i, j];
      var diagonal := scoreMatrix[pi, pj];
      var up := scoreMatrix[pi, j];
      var left := scoreMatrix[i, pj];
      if i == 0 || j == 0 {
        return Ok(Some(End));
      }
      NwMatrixMoveIsNextMove(scoreMatrix, Inputs(), i, j);
      NwNextMoveFound(Inputs(), i, j);
      if achievedScore == diagonal + sub(aa1, aa2) as real {
        return Ok(Some(Diag));
      }
      if achievedScore == up - gapCost {
        return Ok(Some(Up));
      }
      if achievedScore == left - gapCost {
        return Ok(Some(Left));
      }
      // On the filled matrix one of the three candidates always reproduces
      // the cell, so the implicit None at the end is never returned.
      assert false;
    }

    /** get_traceback: the walk from the bottom-right cell, which raises
        IndexError exactly when the target or the sequence is empty. */
    method GetTraceback() returns (r: Result<(string, string, nat, nat), Error>)
      requires Valid()
      ensures r.Err? <==> |target| == 0 || |sequence| == 0
      ensures r.Err? ==> r.error == IndexError
      ensures r.Ok? ==> r.value == NwTraceback(Inputs())
    {
      ghost var p := Inputs();
      var alignedTarget: string, alignedSubject: string := [], [];
      var i: nat, j: nat := |target|, |sequence|;
      var move := NextMove(i, j);
      if move.Err? {
        return Err(move.error);
      }
      while move.value != Some(End)
        invariant i <= |target| && j <= |sequence|
        invariant move.Ok? && move.value.Some? && move.value == NwMatrixMove(scoreMatrix, p, i, j)
        invariant NwMatrixWalkFrom(scoreMatrix, p, |target|, |sequence|, [], [])
          == NwMatrixWalkFrom(scoreMatrix, p, i, j, alignedTarget, alignedSubject)
        decreases i + j
      {
        if move.value == Some(Diag) {
          alignedTarget, alignedSubject := [target[i - 1]] + alignedTarget, [sequence[j - 1]] + alignedSubject;
          i, j := i - 1, j - 1;
        } else if move.value == Some(Up) {
          alignedTarget, alignedSubject := [target[i - 1]] + alignedTarget, [Gap] + alignedSubject;
          i := i - 1;
        } else {
          alignedTarget, alignedSubject := [Gap] + alignedTarget, [sequence[j - 1]] + alignedSubject;
          j := j - 1;
        }
        move := NextMove(i, j);
      }
      NwMatrixWalkIsWalk(scoreMatrix, p, |target|, |sequence|, [], []);
      return Ok((alignedTarget, alignedSubject, i, j));
    }

    /** get_alignment_score: score_matrix[-1][-1], the bottom-right cell. */
    method GetAlignmentScore() returns (score: real)
      requires Valid()
      ensures score == NwCell(Inputs(), |target|, |sequence|)
    {
      score := scoreMatrix[|target|, |sequence|];
    }
  }
}
