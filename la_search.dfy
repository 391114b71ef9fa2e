/** The SWA aligner of subseq/ss_LA_SEARCH.py. fill_data runs the local
    recurrence row by row and keeps the first strictly larger cell; traceback
    follows the largest neighbour from that cell. The constructor allocates
    the score matrix transposed, so fill_data indexes past its end whenever
    the two sequences have different non-zero lengths; Corrected is the
    allocation the loops index into. */
module LaSearch {
  import opened Wrappers
  import opened Errors
  import opened SubMatrix
  import opened Alignment
  import opened LocalAlignment
  import opened ScoreMatrices

  /** What fill_data raises at cell (i, j) of a matrix of length0 lists of
      length1 cells: the pair lookup and int() come first, then the three
      neighbour reads, which lie in bounds exactly when (i, j) does. */
  function StepError(t: Table, seq1: string, seq2: string, length0: nat, length1: nat, i: nat, j: nat): (e: Option<Error>)
    requires 1 <= i <= |seq1| && 1 <= j <= |seq2|
    ensures e.None? <==> Score(t, seq1[i - 1], seq2[j - 1], Modular).Ok? && i < length0 && j < length1
    ensures Score(t, seq1[i - 1], seq2[j - 1], Modular).Ok? && e.Some? ==> e.value == IndexError
  {
    match Score(t, seq1[i - 1], seq2[j - 1], Modular)
    case Err(e) => Some(e)
    case Ok(_) => if i < length0 && j < length1 then None else Some(IndexError)
  }

  /** Some cell of the fill raises. */
  predicate FillFails(t: Table, seq1: string, seq2: string, length0: nat, length1: nat) {
    exists i: nat, j: nat :: 1 <= i <= |seq1| && 1 <= j <= |seq2| && StepError(t, seq1, seq2, length0, length1, i, j).Some?
  }

  class Swa {
    const seq1: string
    const seq2: string
    /** self.rows == len(seq1) + 1 and self.cols == len(seq2) + 1 */
    const rows: nat
    const cols: nat
    const scoreMatrix: array2<real>
    const gap: real
    /** extend_cost: stored and never read, so every gap step costs gap. */
    const extend: real
    var maxScore: real
    var maxScoreCord: Option<(nat, nat)>
    var alignedSeq1: Option<string>
    var alignedSeq2: Option<string>

    /** The alignment problem fill_data solves with the table t. */
    function Inputs(t: Table): Problem {
      Problem(seq1, seq2, gap, ScoreFn(t, Modular))
    }

    /** What fill_data raises at (i, j) of this matrix. */
    function ErrorAt(t: Table, i: nat, j: nat): Option<Error>
      requires 1 <= i <= |seq1| && 1 <= j <= |seq2|
    {
      StepError(t, seq1, seq2, scoreMatrix.Length0, scoreMatrix.Length1, i, j)
    }

    /** The matrix is the one a constructor allocated: row-major as the loops
        index it, or transposed. */
    predicate Allocated() {
      rows == |seq1| + 1 && cols == |seq2| + 1
      && ((scoreMatrix.Length0 == rows && scoreMatrix.Length1 == cols)
          || (scoreMatrix.Length0 == cols && scoreMatrix.Length1 == rows))
    }

    /** __init__ as written: len(seq2) + 1 lists of len(seq1) + 1 zeros. */
    constructor (seq1: string, seq2: string, gapCost: real, extendCost: real)
      ensures this.seq1 == seq1 && this.seq2 == seq2 && gap == gapCost && extend == extendCost
      ensures Allocated() && scoreMatrix.Length0 == cols && scoreMatrix.Length1 == rows
      ensures fresh(scoreMatrix)
      ensures forall a, b :: 0 <= a < scoreMatrix.Length0 && 0 <= b < scoreMatrix.Length1 ==> scoreMatrix[a, b] == 0.0
      ensures maxScore == 0.0 && maxScoreCord.None? && alignedSeq1.None? && alignedSeq2.None?
    {
      this.seq1, this.seq2 := seq1, seq2;
      rows, cols := |seq1| + 1, |seq2| + 1;
      scoreMatrix := new real[|seq2| + 1, |seq1| + 1]((a, b) => 0.0);
      gap, extend := gapCost, extendCost;
      maxScore, maxScoreCord := 0.0, None;
      alignedSeq1, alignedSeq2 := None, None;
    }

    /** __init__ with the allocation fill_data indexes: len(seq1) + 1 lists
        of len(seq2) + 1 zeros. */
    constructor Corrected(seq1: string, seq2: string, gapCost: real, extendCost: real)
      ensures this.seq1 == seq1 && this.seq2 == seq2 && gap == gapCost && extend == extendCost
      ensures Allocated() && scoreMatrix.Length0 == rows && scoreMatrix.Length1 == cols
      ensures fresh(scoreMatrix)
      ensures forall a, b :: 0 <= a < scoreMatrix.Length0 && 0 <= b < scoreMatrix.Length1 ==> scoreMatrix[a, b] == 0.0
      ensures maxScore == 0.0 && maxScoreCord.None? && alignedSeq1.None? && alignedSeq2.None?
    {
      this.seq1, this.seq2 := seq1, seq2;
      rows, cols := |seq1| + 1, |seq2| + 1;
      scoreMatrix := new real[|seq1| + 1, |seq2| + 1]((a, b) => 0.0);
      gap, extend := gapCost, extendCost;
      maxScore, maxScoreCord := 0.0, None;
      alignedSeq1, alignedSeq2 := None, None;
    }

    /** fill_data stopped at (i, j) with e: every earlier cell went through,
        those cells hold the recurrence and the running maximum is the one of
        the cells before (i, j). */
    ghost predicate FailsAt(t: Table, i: nat, j: nat, e: Error)
      reads this, scoreMatrix
    {
      && Interior(Inputs(t), i, j)
      && ErrorAt(t, i, j) == Some(e)
      && (forall a: nat, b: nat :: Interior(Inputs(t), a, b) && Before(a, b, i, j) ==> ErrorAt(t, a, b).None?)
      && FilledBefore(scoreMatrix, Inputs(t), i, j)
      && (maxScore, maxScoreCord) == SwaAt(Inputs(t), i, j)
    }

    /** fill_data ran to its end: every cell holds the recurrence, and
        max_score and max_score_cord are those of the whole matrix. */
    ghost predicate Complete(t: Table)
      reads this, scoreMatrix
    {
      && FilledBefore(scoreMatrix, Inputs(t), |seq1| + 1, 1)
      && (maxScore, maxScoreCord) == SwaBest(Inputs(t))
      && (maxScoreCord.Some? ==> Shaped(scoreMatrix, Inputs(t)))
    }

    /** After a complete fill that found a positive cell, the matrix is the
        filled recurrence and the cell is interior. */
    lemma CompleteIsFilled(t: Table)
      requires Complete(t) && maxScoreCord.Some?
      ensures Filled(scoreMatrix, Inputs(t)) && Bordered(scoreMatrix, Inputs(t))
      ensures Interior(Inputs(t), maxScoreCord.value.0, maxScoreCord.value.1)
    {
      SwaIsFirstMaximum(Inputs(t));
      FilledIsBordered(scoreMatrix, Inputs(t));
    }

    /** _calc_score: the pair's score, then max(diag, up, left, 0) over the
        neighbours, or what the lookup or the reads raise. */
    method CalcScore(t: Table, i: nat, j: nat) returns (r: Result<real, Error>)
      requires 1 <= i <= |seq1| && 1 <= j <= |seq2|
      requires FilledBefore(scoreMatrix, Inputs(t), i, j)
      ensures r.Err? <==> ErrorAt(t, i, j).Some?
      ensures r.Err? ==> ErrorAt(t, i, j) == Some(r.error)
      ensures r.Ok? ==> r.value == Cell(Inputs(t), i, j)
    {
      var similarity := Score(t, seq1[i - 1], seq2[j - 1], Modular);
      if similarity.Err? {
        return Err(similarity.error);
      }
      if i >= scoreMatrix.Length0 || j >= scoreMatrix.Length1 {
        return Err(IndexError);
      }
      ghost var p := Inputs(t);
      assert scoreMatrix[i - 1, j - 1] == Cell(p, i - 1, j - 1);
      assert scoreMatrix[i - 1, j] == Cell(p, i - 1, j);
      assert scoreMatrix[i, j - 1] == Cell(p, i, j - 1);
      var diagScore := scoreMatrix[i - 1, j - 1] + similarity.value as real;
      var upScore := scoreMatrix[i - 1, j] - gap;
      var leftScore := scoreMatrix[i, j - 1] - gap;
      var score := MaxOf([diagScore, upScore, leftScore, 0.0]);
      MaxOfReordered(diagScore, upScore, leftScore);
      MaxOfFour(0.0, diagScore, upScore, leftScore);
      CellUnfold(p, i, j);
      return Ok(score);
    }

    /** fill_data on the matrix the constructor left: it stops at the first
        cell, in row-major order, that raises; otherwise every cell holds the
        recurrence and max_score_cord is the first cell holding the largest
        positive score, or None when no cell is positive. */
    method FillData(t: Table) returns (err: Option<Error>)
      requires Allocated() && FilledBefore(scoreMatrix, Inputs(t), 1, 1)
      requires maxScore == 0.0 && maxScoreCord.None?
      modifies scoreMatrix, this`maxScore, this`maxScoreCord
      ensures err.None? <==> !FillFails(t, seq1, seq2, scoreMatrix.Length0, scoreMatrix.Length1)
      ensures err.None? ==> Complete(t)
      ensures err.Some? ==> exists i: nat, j: nat :: FailsAt(t, i, j, err.value)
    {
      ghost var p := Inputs(t);
      assert (maxScore, maxScoreCord) == SwaAt(p, 1, 1);
      err := None;
      var i: nat := 1;
      while i < rows
        invariant 1 <= i <= |seq1| + 1 && err.None?
        invariant FilledBefore(scoreMatrix, p, i, 1)
        invariant (maxScore, maxScoreCord) == SwaAt(p, i, 1)
        invariant forall a: nat, b: nat :: Interior(p, a, b) && a < i ==> ErrorAt(t, a, b).None?
      {
        err := FillRow(t, i);
        if err.Some? {
          ghost var j: nat :| FailsAt(t, i, j, err.value);
          assert StepError(t, seq1, seq2, scoreMatrix.Length0, scoreMatrix.Length1, i, j).Some?;
          return;
        }
        i := i + 1;
      }
      NoFailure(t);
    }

    /** A fill in which no cell raised: no cell of this matrix fails, and when
        a positive cell was found both sequences are non-empty, so the
        matrix has the row-major shape. */
    lemma NoFailure(t: Table)
      requires Allocated()
      requires forall a: nat, b: nat :: Interior(Inputs(t), a, b) ==> ErrorAt(t, a, b).None?
      ensures !FillFails(t, seq1, seq2, scoreMatrix.Length0, scoreMatrix.Length1)
      ensures SwaBest(Inputs(t)).1.Some? ==> Shaped(scoreMatrix, Inputs(t))
    {
      forall a: nat, b: nat | 1 <= a <= |seq1| && 1 <= b <= |seq2|
        ensures StepError(t, seq1, seq2, scoreMatrix.Length0, scoreMatrix.Length1, a, b).None?
      {
        assert ErrorAt(t, a, b).None?;
      }
      if |seq1| > 0 && |seq2| > 0 {
        assert ErrorAt(t, |seq1|, |seq2|).None?;
      } else {
        SwaIsFirstMaximum(Inputs(t));
      }
    }

    /** One pass of fill_data's inner loop: row i, left to right. */
    method FillRow(t: Table, i: nat) returns (err: Option<Error>)
      requires Allocated() && 1 <= i <= |seq1|
      requires FilledBefore(scoreMatrix, Inputs(t), i, 1)
      requires (maxScore, maxScoreCord) == SwaAt(Inputs(t), i, 1)
      requires forall a: nat, b: nat :: Interior(Inputs(t), a, b) && a < i ==> ErrorAt(t, a, b).None?
      modifies scoreMatrix, this`maxScore, this`maxScoreCord
      ensures err.None? ==> FilledBefore(scoreMatrix, Inputs(t), i + 1, 1)
      ensures err.None? ==> (maxScore, maxScoreCord) == SwaAt(Inputs(t), i + 1, 1)
      ensures err.None? ==> forall b: nat :: 1 <= b <= |seq2| ==> ErrorAt(t, i, b).None?
      ensures err.Some? ==> exists j: nat :: FailsAt(t, i, j, err.value)
    {
      var j: nat := 1;
      while j < cols
        invariant 1 <= j <= |seq2| + 1
        invariant FilledBefore(scoreMatrix, Inputs(t), i, j)
        invariant (maxScore, maxScoreCord) == SwaAt(Inputs(t), i, j)
        invariant forall b: nat :: 1 <= b < j ==> ErrorAt(t, i, b).None?
      {
        err := FillCell(t, i, j);
        if err.Some? {
          RowFails(t, i, j, err.value);
          return;
        }
        RowClear(t, i, j);
        j := j + 1;
      }
      FilledNextRow(scoreMatrix, Inputs(t), i);
      return None;
    }

    /** A cell of row i that goes through extends the cells of that row that
        went through. */
    lemma RowClear(t: Table, i: nat, j: nat)
      requires 1 <= i <= |seq1| && 1 <= j <= |seq2|
      requires forall b: nat :: 1 <= b < j ==> ErrorAt(t, i, b).None?
      requires ErrorAt(t, i, j).None?
      ensures forall b: nat :: 1 <= b < j + 1 ==> ErrorAt(t, i, b).None?
    {
    }

    /** A cell of row i that raises after the cells before it went through
        is where fill_data stops. */
    lemma RowFails(t: Table, i: nat, j: nat, e: Error)
      requires Allocated() && 1 <= i <= |seq1| && 1 <= j <= |seq2|
      requires forall a: nat, b: nat :: Interior(Inputs(t), a, b) && a < i ==> ErrorAt(t, a, b).None?
      requires forall b: nat :: 1 <= b < j ==> ErrorAt(t, i, b).None?
      requires ErrorAt(t, i, j) == Some(e)
      requires FilledBefore(scoreMatrix, Inputs(t), i, j)
      requires (maxScore, maxScoreCord) == SwaAt(Inputs(t), i, j)
      ensures FailsAt(t, i, j, e)
    {
      forall a: nat, b: nat | Interior(Inputs(t), a, b) && Before(a, b, i, j)
        ensures ErrorAt(t, a, b).None?
      {
        if a == i { assert b < j; }
      }
    }

    /** One step of fill_data's inner loop: the score of (i, j) is stored and
        max_score and max_score_cord move to it when it is strictly larger;
        when _calc_score raises, nothing changes. */
    method FillCell(t: Table, i: nat, j: nat) returns (err: Option<Error>)
      requires 1 <= i <= |seq1| && 1 <= j <= |seq2|
      requires FilledBefore(scoreMatrix, Inputs(t), i, j)
      requires (maxScore, maxScoreCord) == SwaAt(Inputs(t), i, j)
      modifies scoreMatrix, this`maxScore, this`maxScoreCord
      ensures err == ErrorAt(t, i, j)
      ensures err.Some? ==> unchanged(this) && unchanged(scoreMatrix)
      ensures err.None? ==> FilledBefore(scoreMatrix, Inputs(t), i, j + 1)
      ensures err.None? ==> (maxScore, maxScoreCord) == SwaAt(Inputs(t), i, j + 1)
    {
      ghost var p := Inputs(t);
      var r := CalcScore(t, i, j);
      if r.Err? {
        return Some(r.error);
      }
      var score := r.value;
      label write:
      scoreMatrix[i, j] := score;
      forall a: nat, b: nat | a <= |seq1| && b <= |seq2| && a < scoreMatrix.Length0 && b < scoreMatrix.Length1
                               && (a == 0 || b == 0 || Before(a, b, i, j + 1))
        ensures scoreMatrix[a, b] == Cell(p, a, b)
      {
        if (a, b) != (i, j) { assert scoreMatrix[a, b] == old@write(scoreMatrix[a, b]); }
      }
      if score > maxScore {
        maxScore := score;
        maxScoreCord := Some((i, j));
      }
      assert (maxScore, maxScoreCord) == SwaAt(p, i, j + 1);
      return None;
    }

    /** _next_move: the same case order as the magnitude rule, with no
        fallback; the cases are exhaustive. */
    method NextMove(i: nat, j: nat) returns (move: Move)
      requires 1 <= i < scoreMatrix.Length0 && 1 <= j < scoreMatrix.Length1
      ensures Some(move) == LegacyNextMove(scoreMatrix[i - 1, j - 1], scoreMatrix[i - 1, j], scoreMatrix[i, j - 1])
    {
      var diag := scoreMatrix[i - 1, j - 1];
      var up := scoreMatrix[i - 1, j];
      var left := scoreMatrix[i, j - 1];
      if diag >= up && diag >= left {
        return if diag != 0.0 then Diag else End;
      }
      if up > diag && up > left {
        return if up != 0.0 then Up else End;
      }
      if left > diag && left >= up {
        return if left != 0.0 then Left else End;
      }
      assert false;
    }

    /** traceback after a complete fill: unpacking a max_score_cord of None
        raises TypeError; otherwise the aligned strings are those of the walk
        from that cell by neighbour magnitudes. */
    method Traceback(ghost t: Table) returns (err: Option<Error>)
      requires Complete(t)
      modifies this`alignedSeq1, this`alignedSeq2
      ensures err.Some? <==> maxScoreCord.None?
      ensures err.Some? ==> err.value == TypeError && unchanged(this)
      ensures err.None? ==> Interior(Inputs(t), maxScoreCord.value.0, maxScoreCord.value.1)
      ensures err.None? ==>
        var w := WalkFrom(Inputs(t), Legacy, maxScoreCord.value.0, maxScoreCord.value.1, [], []);
        alignedSeq1 == Some(w.0) && alignedSeq2 == Some(w.1)
    {
      if maxScoreCord.None? {
        return Some(TypeError);
      }
      CompleteIsFilled(t);
      var i, j := maxScoreCord.value.0, maxScoreCord.value.1;
      var seq1List, seq2List := WalkMatrix(t, i, j);
      MatrixWalkIsWalk(scoreMatrix, Inputs(t), Legacy, i, j, [], []);
      alignedSeq1, alignedSeq2 := Some(seq1List), Some(seq2List);
      return None;
    }

    /** The loop of traceback: the aligned strings of the walk from (i, j)
        that the moves read from the matrix take. */
    method WalkMatrix(ghost t: Table, i0: nat, j0: nat) returns (seq1List: string, seq2List: string)
      requires Shaped(scoreMatrix, Inputs(t)) && Bordered(scoreMatrix, Inputs(t)) && Interior(Inputs(t), i0, j0)
      ensures var w := MatrixWalk(scoreMatrix, Inputs(t), Legacy, i0, j0, [], []); seq1List == w.0 && seq2List == w.1
    {
      ghost var p := Inputs(t);
      seq1List, seq2List := [], [];
      var i, j := i0, j0;
      var move := NextMove(i, j);
      while move != End
        invariant Interior(p, i, j)
        invariant move == MatrixMove(scoreMatrix, p, Legacy, i, j)
        invariant MatrixWalk(scoreMatrix, p, Legacy, i0, j0, [], [])
          == MatrixWalk(scoreMatrix, p, Legacy, i, j, seq1List, seq2List)
        decreases i + j
      {
        if move == Diag {
          seq1List, seq2List := [seq1[i - 1]] + seq1List, [seq2[j - 1]] + seq2List;
          i, j := i - 1, j - 1;
        } else if move == Up {
          seq1List, seq2List := [seq1[i - 1]] + seq1List, [Gap] + seq2List;
          i := i - 1;
        } else {
          seq1List, seq2List := [Gap] + seq1List, [seq2[j - 1]] + seq2List;
          j := j - 1;
        }
        move := NextMove(i, j);
      }
      seq1List, seq2List := [seq1[i - 1]] + seq1List, [seq2[j - 1]] + seq2List;
    }
  }

  /** max(diag, up, left, 0) is the same value as max(0, diag, up, left). */
  lemma MaxOfReordered(diag: real, up: real, left: real)
    ensures MaxOf([diag, up, left, 0.0]) == MaxOf([0.0, diag, up, left])
  {
    var a, b := [diag, up, left, 0.0], [0.0, diag, up, left];
    MaxOfBounds(a);
    MaxOfBounds(b);
    assert a[0] == b[1] && a[1] == b[2] && a[2] == b[3] && a[3] == b[0];
  }

  /** With a table that scores every pair, the constructor's transposed
      matrix makes fill_data raise exactly when both sequences are non-empty
      and of different lengths. */
  lemma TransposedFillFails(t: Table, seq1: string, seq2: string)
    requires Covers(t, seq1, seq2, Modular)
    ensures FillFails(t, seq1, seq2, |seq2| + 1, |seq1| + 1)
      <==> |seq1| > 0 && |seq2| > 0 && |seq1| != |seq2|
  {
    var length0, length1 := |seq2| + 1, |seq1| + 1;
    if |seq1| > 0 && |seq2| > 0 {
      if |seq1| < |seq2| {
        assert StepError(t, seq1, seq2, length0, length1, 1, |seq2|).Some?;
      } else if |seq1| > |seq2| {
        assert StepError(t, seq1, seq2, length0, length1, |seq1|, 1).Some?;
      }
    }
  }

  /** With the corrected allocation and a table that scores every pair,
      fill_data never raises. */
  lemma CorrectedFillSucceeds(t: Table, seq1: string, seq2: string)
    requires Covers(t, seq1, seq2, Modular)
    ensures !FillFails(t, seq1, seq2, |seq1| + 1, |seq2| + 1)
  {
  }

  /** A pair missing from the table makes fill_data raise, whatever the
      allocation. */
  lemma UncoveredFillFails(t: Table, seq1: string, seq2: string, length0: nat, length1: nat)
    requires !Covers(t, seq1, seq2, Modular)
    ensures FillFails(t, seq1, seq2, length0, length1)
  {
    var i, j :| 0 <= i < |seq1| && 0 <= j < |seq2| && Score(t, seq1[i], seq2[j], Modular).Err?;
    assert StepError(t, seq1, seq2, length0, length1, i + 1, j + 1).Some?;
  }
}
