/** The SmithWaterman class of subseq/SmithWaterman.py: the constructor fills
    the score matrix, keeps the first cell holding the largest score, traces
    back from it by comparing the magnitudes of the neighbours, and counts the
    columns of the alignment. */
module LegacySmithWaterman {
  import opened Wrappers
  import opened Errors
  import opened Text
  import opened Alignment
  import opened LocalAlignment
  import opened ScoreMatrices
  import SubMatrix
  import Hits

  class SmithWaterman {
    const target: string
    const sequence: string
    const gapCost: real
    const sub: (char, char) -> int
    /** score_matrix, (len(target) + 1) x (len(sequence) + 1) */
    const scoreMatrix: array2<real>
    var maxScore: real
    var maxScoreCord: (nat, nat)
    var alignedSeq1: string
    var alignedSeq2: string
    /** indentities, gaps, mismatches and aligment_string */
    var identities: nat
    var gaps: nat
    var mismatches: nat
    var alignmentString: string

    /** The inputs as a specification value. */
    function Inputs(): Problem {
      Problem(target, sequence, gapCost, sub)
    }

    /** The alignment of the best cell, traced back by magnitudes. */
    ghost function Alignment(): (string, string, nat, nat)
      reads this
      requires Interior(Inputs(), maxScoreCord.0, maxScoreCord.1)
    {
      WalkFrom(Inputs(), Legacy, maxScoreCord.0, maxScoreCord.1, [], [])
    }

    /** Everything the constructor sets up. */
    ghost predicate Valid()
      reads this, scoreMatrix
    {
      && Filled(scoreMatrix, Inputs())
      && LegacyBest(Inputs()) == Some((maxScore, maxScoreCord))
      && Interior(Inputs(), maxScoreCord.0, maxScoreCord.1)
      && alignedSeq1 == Alignment().0 && alignedSeq2 == Alignment().1
      && alignmentString == AlignmentString(alignedSeq1, alignedSeq2)
      && identities == Count(alignmentString, '|')
      && gaps == Count(alignmentString, ' ')
      && mismatches == Count(alignmentString, ':')
    }

    /** __init__ with a substitution table t read in dialect d. With an empty
        target or sequence no cell is visited, max_score_cord stays
        (None, None) and find_traceback fails on None - 1 with a TypeError.
        Otherwise calc_score reads int(sub_matrix[aa1, aa2]) cell by cell in
        row-major order, so the first pair whose lookup or int() fails raises
        its exception; when every pair is scored the class is built on those
        scores. */
    static method Create(target: string, sequence: string, gapCost: real, t: SubMatrix.Table, d: SubMatrix.Dialect)
      returns (r: Result<SmithWaterman, Error>)
      ensures r.Err? <==> |target| == 0 || |sequence| == 0 || !SubMatrix.Covers(t, target, sequence, d)
      ensures |target| == 0 || |sequence| == 0 ==> r == Err(TypeError)
      ensures |target| > 0 && |sequence| > 0 && !SubMatrix.Covers(t, target, sequence, d) ==>
        r.Err? && exists i, j :: 0 <= i < |target| && 0 <= j < |sequence| && SubMatrix.Score(t, target[i], sequence[j], d) == Err(r.error)
      ensures |target| > 0 && |sequence| > 0 && r.Err? ==> r == Err(Hits.PairError(t, target, sequence, d).value)
      ensures r.Ok? ==> fresh(r.value) && r.value.Valid()
      ensures r.Ok? ==> r.value.target == target && r.value.sequence == sequence
      ensures r.Ok? ==> r.value.gapCost == gapCost && r.value.sub == SubMatrix.ScoreFn(t, d)
      ensures r.Ok? ==> forall i, j :: 0 <= i < |target| && 0 <= j < |sequence| ==>
        SubMatrix.Score(t, target[i], sequence[j], d) == Ok(r.value.sub(target[i], sequence[j]))
    {
      if |target| == 0 || |sequence| == 0 {
        return Err(TypeError);
      }
      var err := Hits.PairError(t, target, sequence, d);
      if err.Some? {
        return Err(err.value);
      }
      var sw := new SmithWaterman(target, sequence, gapCost, SubMatrix.ScoreFn(t, d));
      return Ok(sw);
    }

    /** __init__ on a non-empty target and sequence. */
    constructor (target: string, sequence: string, gapCost: real, sub: (char, char) -> int)
      requires |target| > 0 && |sequence| > 0
      ensures this.target == target && this.sequence == sequence
      ensures this.gapCost == gapCost && this.sub == sub
      ensures fresh(scoreMatrix)
      ensures Valid()
    {
      this.target := target;
      this.sequence := sequence;
      this.gapCost := gapCost;
      this.sub := sub;
      scoreMatrix := new real[|target| + 1, |sequence| + 1]((i, j) => 0.0);
      maxScore, maxScoreCord := 0.0, (0, 0);
      alignedSeq1, alignedSeq2 := [], [];
      identities, gaps, mismatches, alignmentString := 0, 0, 0, [];
      new;
      var best := FillMatrix();
      assert best.Some? && Interior(Inputs(), best.value.1.0, best.value.1.1) by {
        LegacyIsFirstMaximum(Inputs());
      }
      maxScore, maxScoreCord := best.value.0, best.value.1;
      FindTraceback();
      ConstructAlignmentString();
    }

    /** calc_score: the recurrence at (i, j) from its three filled neighbours. */
    method CalcScore(i: nat, j: nat) returns (score: real)
      requires Shaped(scoreMatrix, Inputs()) && Interior(Inputs(), i, j)
      requires scoreMatrix[i - 1, j - 1] == Cell(Inputs(), i - 1, j - 1)
      requires scoreMatrix[i - 1, j] == Cell(Inputs(), i - 1, j)
      requires scoreMatrix[i, j - 1] == Cell(Inputs(), i, j - 1)
      ensures score == Cell(Inputs(), i, j)
    {
      var similarity := sub(target[i - 1], sequence[j - 1]);
      var diagScore := scoreMatrix[i - 1, j - 1] + similarity as real;
      var upScore := scoreMatrix[i - 1, j] - gapCost;
      var leftScore := scoreMatrix[i, j - 1] - gapCost;
      score := MaxOf([0.0, diagScore, upScore, leftScore]);
      MaxOfFour(0.0, diagScore, upScore, leftScore);
      CellUnfold(Inputs(), i, j);
    }

    /** fill_matrix on a zeroed matrix: every cell gets the recurrence, and the
        result is the first cell, in row-major order, holding the largest
        score (None when no cell was visited). */
    method FillMatrix() returns (best: LegacyState)
      requires Bordered(scoreMatrix, Inputs())
      modifies scoreMatrix
      ensures Filled(scoreMatrix, Inputs())
      ensures best == LegacyBest(Inputs())
    {
      best := None;
      var i: nat := 1;
      while i <= |target|
        invariant 1 <= i <= |target| + 1
        invariant Shaped(scoreMatrix, Inputs()) && FilledBefore(scoreMatrix, Inputs(), i, 1)
        invariant best == LegacyAt(Inputs(), i, 1)
      {
        best := FillRow(i, best);
        i := i + 1;
      }
    }

    /** One pass of fill_matrix's inner loop: row i, left to right. Under
        Python 2 ordering every score exceeds the initial None. */
    method FillRow(i: nat, best0: LegacyState) returns (best: LegacyState)
      requires 1 <= i <= |target| && Shaped(scoreMatrix, Inputs()) && FilledBefore(scoreMatrix, Inputs(), i, 1)
      requires best0 == LegacyAt(Inputs(), i, 1)
      modifies scoreMatrix
      ensures FilledBefore(scoreMatrix, Inputs(), i + 1, 1)
      ensures best == LegacyAt(Inputs(), i + 1, 1)
    {
      best := best0;
      var j: nat := 1;
      while j <= |sequence|
        invariant 1 <= j <= |sequence| + 1
        invariant FilledBefore(scoreMatrix, Inputs(), i, j)
        invariant best == LegacyAt(Inputs(), i, j)
      {
        best := FillCell(i, j, best);
        j := j + 1;
      }
    }

    /** One step of fill_matrix's inner loop: the score of (i, j) is stored
        and the maximum moves to it when it is strictly larger. */
    method FillCell(i: nat, j: nat, best0: LegacyState) returns (best: LegacyState)
      requires Shaped(scoreMatrix, Inputs()) && Interior(Inputs(), i, j)
      requires FilledBefore(scoreMatrix, Inputs(), i, j)
      requires best0 == LegacyAt(Inputs(), i, j)
      modifies scoreMatrix
      ensures FilledBefore(scoreMatrix, Inputs(), i, j + 1)
      ensures best == LegacyAt(Inputs(), i, j + 1)
    {
      ghost var p := Inputs();
      var score := CalcScore(i, j);
      label write:
      scoreMatrix[i, j] := score;
      forall a: nat, b: nat | a <= |target| && b <= |sequence| && (a == 0 || b == 0 || Before(a, b, i, j + 1))
        ensures scoreMatrix[a, b] == Cell(p, a, b)
      {
        if (a, b) != (i, j) { assert scoreMatrix[a, b] == old@write(scoreMatrix[a, b]); }
      }
      best := best0;
      if best.None? || score > best.value.0 {
        best := Some((score, (i, j)));
      }
      assert best == LegacyAt(p, i, j + 1);
    }

    /** next_move: the largest neighbour decides (ties to diagonal, then to
        left) and a neighbour of 0 ends the traceback. The three cases cover
        every input, so the closing raise is never reached. */
    method NextMove(i: nat, j: nat) returns (move: Move)
      requires Shaped(scoreMatrix, Inputs()) && Interior(Inputs(), i, j)
      ensures Some(move) == LegacyNextMove(scoreMatrix[i - 1, j - 1], scoreMatrix[i - 1, j], scoreMatrix[i, j - 1])
    {
      var diag := scoreMatrix[i - 1, j - 1];
      var up := scoreMatrix[i - 1, j];
      var left := scoreMatrix[i, j - 1];
      if diag >= up && diag >= left {
        return if diag != 0.0 then Diag else End;
      }
      if up > diag && up > left {
        return if up != 0.0 then Up else End;
      }
      if left > diag && left >= up {
        return if left != 0.0 then Left else End;
      }
      assert false;
    }

    /** find_traceback from max_score_cord: the columns are put in front as
        they are found, which is what the source's append and final reversal
        produce. */
    method FindTraceback()
      requires Filled(scoreMatrix, Inputs()) && Interior(Inputs(), maxScoreCord.0, maxScoreCord.1)
      modifies this`alignedSeq1, this`alignedSeq2
      ensures alignedSeq1 == Alignment().0 && alignedSeq2 == Alignment().1
    {
      FilledIsBordered(scoreMatrix, Inputs());
      var seq1, seq2 := WalkMatrix(maxScoreCord.0, maxScoreCord.1);
      MatrixWalkIsWalk(scoreMatrix, Inputs(), Legacy, maxScoreCord.0, maxScoreCord.1, [], []);
      alignedSeq1, alignedSeq2 := seq1, seq2;
    }

    /** The loop of find_traceback: the aligned strings of the walk from
        (i, j) that the moves read from the matrix take. */
    method WalkMatrix(i0: nat, j0: nat) returns (seq1: string, seq2: string)
      requires Shaped(scoreMatrix, Inputs()) && Bordered(scoreMatrix, Inputs()) && Interior(Inputs(), i0, j0)
      ensures var w := MatrixWalk(scoreMatrix, Inputs(), Legacy, i0, j0, [], []); seq1 == w.0 && seq2 == w.1
    {
      seq1, seq2 := [], [];
      var i, j := i0, j0;
      var move := NextMove(i, j);
      while move != End
        invariant Interior(Inputs(), i, j)
        invariant move == MatrixMove(scoreMatrix, Inputs(), Legacy, i, j)
        invariant MatrixWalk(scoreMatrix, Inputs(), Legacy, i0, j0, [], [])
          == MatrixWalk(scoreMatrix, Inputs(), Legacy, i, j, seq1, seq2)
        decreases i + j
      {
        if move == Diag {
          seq1, seq2 := [target[i - 1]] + seq1, [sequence[j - 1]] + seq2;
          i, j := i - 1, j - 1;
        } else if move == Up {
          seq1, seq2 := [target[i - 1]] + seq1, [Gap] + seq2;
          i := i - 1;
        } else {
          seq1, seq2 := [Gap] + seq1, [sequence[j - 1]] + seq2;
          j := j - 1;
        }
        move := NextMove(i, j);
      }
      seq1, seq2 := [target[i - 1]] + seq1, [sequence[j - 1]] + seq2;
    }

    /** construct_aligment_string: the symbol string of the alignment and its
        three counters. */
    method ConstructAlignmentString()
      modifies this`identities, this`gaps, this`mismatches, this`alignmentString
      ensures alignmentString == AlignmentString(alignedSeq1, alignedSeq2)
      ensures identities == Count(alignmentString, '|') && gaps == Count(alignmentString, ' ')
      ensures mismatches == Count(alignmentString, ':')
      ensures identities + gaps + mismatches == |alignmentString|
    {
      alignmentString, identities, gaps, mismatches := CreateAlignmentString(alignedSeq1, alignedSeq2);
    }
  }

  /** The two aligned strings have equal length and, gaps removed, are the
      slices of the target and the sequence that end at the best cell. */
  lemma AlignmentShape(sw: SmithWaterman)
    requires sw.Valid()
    requires Gap !in sw.target && Gap !in sw.sequence
    ensures var (si, sj) := (sw.Alignment().2, sw.Alignment().3);
      var (i, j) := sw.maxScoreCord;
      && |sw.alignedSeq1| == |sw.alignedSeq2|
      && 1 <= si <= i && 1 <= sj <= j
      && Ungapped(sw.alignedSeq1) == sw.target[si - 1..i]
      && Ungapped(sw.alignedSeq2) == sw.sequence[sj - 1..j]
  {
    TracebackShape(sw.Inputs(), Legacy, sw.maxScoreCord.0, sw.maxScoreCord.1);
  }
}
