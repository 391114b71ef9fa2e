/** The score matrix of the three local aligners as a two-dimensional array:
    its shape, the cells already holding the recurrence, and the moves and
    the traceback read off it. The aligner classes keep the array as a field
    and state their contracts with these. */
module ScoreMatrices {
  import opened Wrappers
  import opened Alignment
  import opened LocalAlignment

  /** (len(target) + 1) rows of (len(sequence) + 1) cells. */
  predicate Shaped(scores: array2<real>, p: Problem) {
    scores.Length0 == |p.target| + 1 && scores.Length1 == |p.sequence| + 1
  }

  /** Row 0 and column 0 hold 0. */
  ghost predicate Bordered(scores: array2<real>, p: Problem)
    reads scores
  {
    && Shaped(scores, p)
    && (forall a: nat, b: nat :: a <= |p.target| && b <= |p.sequence| && (a == 0 || b == 0) ==> scores[a, b] == 0.0)
  }

  /** The border and every interior cell before (i, j) in row-major order hold
      the recurrence, as far as the array reaches. */
  ghost predicate FilledBefore(scores: array2<real>, p: Problem, i: nat, j: nat)
    reads scores
  {
    forall a: nat, b: nat {:trigger Cell(p, a, b)} ::
      && a <= |p.target| && b <= |p.sequence| && a < scores.Length0 && b < scores.Length1
      && (a == 0 || b == 0 || Before(a, b, i, j))
      ==> scores[a, b] == Cell(p, a, b)
  }

  /** Past the end of row i is the start of row i + 1. */
  lemma FilledNextRow(scores: array2<real>, p: Problem, i: nat)
    requires FilledBefore(scores, p, i, |p.sequence| + 1)
    ensures FilledBefore(scores, p, i + 1, 1)
  {
    forall a: nat, b: nat | a <= |p.target| && b <= |p.sequence| && a < scores.Length0 && b < scores.Length1
                             && (a == 0 || b == 0 || Before(a, b, i + 1, 1))
      ensures scores[a, b] == Cell(p, a, b)
    {
      assert a == 0 || b == 0 || Before(a, b, i, |p.sequence| + 1);
    }
  }

  /** Every cell holds the recurrence. */
  ghost predicate Filled(scores: array2<real>, p: Problem)
    reads scores
  {
    Shaped(scores, p) && FilledBefore(scores, p, |p.target| + 1, 1)
  }

  /** A filled matrix has the zero border. */
  lemma FilledIsBordered(scores: array2<real>, p: Problem)
    requires Filled(scores, p)
    ensures Bordered(scores, p)
  {
    forall a: nat, b: nat | a <= |p.target| && b <= |p.sequence| && (a == 0 || b == 0)
      ensures scores[a, b] == 0.0
    {
      assert scores[a, b] == Cell(p, a, b);
    }
  }

  /** The move a traceback takes at (i, j), read from the matrix; a
      fall-through of subseq.py's next_move is taken as END. */
  function MatrixMove(scores: array2<real>, p: Problem, rule: Rule, i: nat, j: nat): (mv: Move)
    reads scores
    requires Bordered(scores, p) && Interior(p, i, j)
    ensures Inside(mv, i, j)
  {
    match rule
    case Current =>
      (match NextMoveOn(scores[i, j], scores[i - 1, j - 1], scores[i - 1, j], scores[i, j - 1],
                        p.sub(p.target[i - 1], p.sequence[j - 1]), p.gap)
       case None => End
       case Some(mv) => mv)
    case Legacy => LegacyNextMove(scores[i - 1, j - 1], scores[i - 1, j], scores[i, j - 1]).value
  }

  /** The traceback loop on the matrix: the columns found so far, and the
      walk from (i, j) still to put its own in front of them. */
  ghost function MatrixWalk(scores: array2<real>, p: Problem, rule: Rule, i: nat, j: nat, tgt: string, sbj: string)
    : (string, string, nat, nat)
    reads scores
    requires Bordered(scores, p) && Interior(p, i, j)
    decreases i + j
  {
    var t, s := p.target, p.sequence;
    match MatrixMove(scores, p, rule, i, j)
    case End => ([t[i - 1]] + tgt, [s[j - 1]] + sbj, i, j)
    case Diag => MatrixWalk(scores, p, rule, i - 1, j - 1, [t[i - 1]] + tgt, [s[j - 1]] + sbj)
    case Up => MatrixWalk(scores, p, rule, i - 1, j, [t[i - 1]] + tgt, [Gap] + sbj)
    case Left => MatrixWalk(scores, p, rule, i, j - 1, [Gap] + tgt, [s[j - 1]] + sbj)
  }

  /** The matrix walk is the walk that takes, at each cell, the move read from
      the matrix. */
  lemma {:induction false} MatrixWalkOn(scores: array2<real>, p: Problem, rule: Rule, mv: Moves, i: nat, j: nat, tgt: string, sbj: string)
    requires Bordered(scores, p) && Interior(p, i, j)
    requires forall a: nat, b: nat :: Interior(p, a, b) ==> mv(a, b) == MatrixMove(scores, p, rule, a, b)
    ensures MatrixWalk(scores, p, rule, i, j, tgt, sbj) == WalkFromOn(p, mv, i, j, tgt, sbj)
    decreases i + j
  {
    var t, s := p.target, p.sequence;
    assert Taken(mv, i, j) == MatrixMove(scores, p, rule, i, j);
    match MatrixMove(scores, p, rule, i, j)
    case End =>
    case Diag => MatrixWalkOn(scores, p, rule, mv, i - 1, j - 1, [t[i - 1]] + tgt, [s[j - 1]] + sbj);
    case Up => MatrixWalkOn(scores, p, rule, mv, i - 1, j, [t[i - 1]] + tgt, [Gap] + sbj);
    case Left => MatrixWalkOn(scores, p, rule, mv, i, j - 1, [Gap] + tgt, [s[j - 1]] + sbj);
  }

  /** On a filled matrix the move read from the matrix is the move of the
      recurrence. */
  lemma MatrixMoveIsMove(scores: array2<real>, p: Problem, rule: Rule, i: nat, j: nat)
    requires Filled(scores, p) && Bordered(scores, p) && Interior(p, i, j)
    ensures MatrixMove(scores, p, rule, i, j) == MoveAt(p, rule, i, j)
  {
    assert scores[i, j] == Cell(p, i, j);
    assert scores[i - 1, j - 1] == Cell(p, i - 1, j - 1);
    assert scores[i - 1, j] == Cell(p, i - 1, j);
    assert scores[i, j - 1] == Cell(p, i, j - 1);
  }

  /** On a filled matrix the walk is the traceback of the recurrence. */
  lemma MatrixWalkIsWalk(scores: array2<real>, p: Problem, rule: Rule, i: nat, j: nat, tgt: string, sbj: string)
    requires Filled(scores, p) && Bordered(scores, p) && Interior(p, i, j)
    ensures MatrixWalk(scores, p, rule, i, j, tgt, sbj) == WalkFrom(p, rule, i, j, tgt, sbj)
  {
    var mv := MovesOf(p, rule);
    forall a: nat, b: nat | Interior(p, a, b)
      ensures mv(a, b) == MatrixMove(scores, p, rule, a, b)
    {
      MatrixMoveIsMove(scores, p, rule, a, b);
    }
    MatrixWalkOn(scores, p, rule, mv, i, j, tgt, sbj);
  }
}
