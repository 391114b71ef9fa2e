/** The Needleman–Wunsch recurrence of subseq.py NeedlemanWunsch (and its
    copy subseq/NeedlemanWunch.py): the filled score matrix, next_move on it,
    the walk get_traceback performs from the bottom-right cell, and what that
    walk explains of the score. */
module GlobalAlignment {
  import opened Wrappers
  import opened Alignment
  import opened LocalAlignment
  import opened ScoreMatrices

  /** The score of k leading gaps, one gap cost each. */
  function Border(gap: real, k: nat): real {
    if k == 0 then 0.0 else Border(gap, k - 1) - gap
  }

  /** That is the -gap_cost * k of init_score_matrix. */
  lemma {:induction false} BorderIsProduct(gap: real, k: nat)
    ensures Border(gap, k) == -gap * k as real
  {
    if k > 0 {
      BorderIsProduct(gap, k - 1);
    }
  }

  /** score_matrix[i][j] once filled: row 0 and column 0 hold the border
      score of i + j gaps, every other cell max(diagonal + score, up - gap,
      left - gap), with no floor. */
  function NwCell(p: Problem, i: nat, j: nat): (c: real)
    requires i <= |p.target| && j <= |p.sequence|
    decreases i + j
  {
    if i == 0 then Border(p.gap, j)
    else if j == 0 then Border(p.gap, i)
    else Max3(NwCell(p, i - 1, j - 1) + p.sub(p.target[i - 1], p.sequence[j - 1]) as real,
              NwCell(p, i - 1, j) - p.gap, NwCell(p, i, j - 1) - p.gap)
  }

  /** Python's max of three values: a later value replaces the running
      maximum only when strictly larger. */
  function Max3(a: real, b: real, c: real): real {
    var m := if b > a then b else a;
    if c > m then c else m
  }

  /** next_move on the values it reads: END as soon as i or j is 0, then the
      first candidate that reproduces the cell's score, diagonal before up
      before left; None when none does, where the method falls off its end. */
  function NwMoveOn(i: nat, j: nat, score: real, diag: real, up: real, left: real, similarity: int, gap: real): Option<Move> {
    if i == 0 || j == 0 then Some(End)
    else if score == diag + similarity as real then Some(Diag)
    else if score == up - gap then Some(Up)
    else if score == left - gap then Some(Left)
    else None
  }

  /** next_move at (i, j) of the filled matrix. */
  function NwNextMove(p: Problem, i: nat, j: nat): Option<Move>
    requires i <= |p.target| && j <= |p.sequence|
  {
    if i == 0 || j == 0 then Some(End)
    else NwMoveOn(i, j, NwCell(p, i, j), NwCell(p, i - 1, j - 1), NwCell(p, i - 1, j), NwCell(p, i, j - 1),
                  p.sub(p.target[i - 1], p.sequence[j - 1]), p.gap)
  }

  /** On the filled matrix next_move never falls through: it ends exactly on
      row 0 or column 0, and each move it takes reproduces the cell's score. */
  lemma NwNextMoveFound(p: Problem, i: nat, j: nat)
    requires i <= |p.target| && j <= |p.sequence|
    ensures NwNextMove(p, i, j).Some?
    ensures NwNextMove(p, i, j) == Some(End) <==> i == 0 || j == 0
    ensures NwNextMove(p, i, j) == Some(Diag) ==>
      NwCell(p, i, j) == NwCell(p, i - 1, j - 1) + p.sub(p.target[i - 1], p.sequence[j - 1]) as real
    ensures NwNextMove(p, i, j) == Some(Up) ==> NwCell(p, i, j) == NwCell(p, i - 1, j) - p.gap
    ensures NwNextMove(p, i, j) == Some(Left) ==> NwCell(p, i, j) == NwCell(p, i, j - 1) - p.gap
  {
  }

  /** The move next_move takes at (i, j). */
  function NwMove(p: Problem, i: nat, j: nat): (m: Move)
    requires i <= |p.target| && j <= |p.sequence|
    ensures m == End <==> i == 0 || j == 0
  {
    NwNextMoveFound(p, i, j);
    NwNextMove(p, i, j).value
  }

  /** The cell a move other than END goes to. */
  function NwNext(p: Problem, i: nat, j: nat): (c: (nat, nat))
    requires i <= |p.target| && j <= |p.sequence| && NwMove(p, i, j) != End
    ensures c.0 <= i && c.1 <= j && c.0 + c.1 < i + j
  {
    var m := NwMove(p, i, j);
    if m == Diag then (i - 1, j - 1) else if m == Up then (i - 1, j) else (i, j - 1)
  }

  /** The column a move other than END adds. */
  function NwColumn(p: Problem, i: nat, j: nat): (char, char)
    requires i <= |p.target| && j <= |p.sequence| && NwMove(p, i, j) != End
  {
    var m := NwMove(p, i, j);
    if m == Diag then (p.target[i - 1], p.sequence[j - 1])
    else if m == Up then (p.target[i - 1], Gap)
    else (Gap, p.sequence[j - 1])
  }

  /** Where each move goes and which column it adds. */
  lemma NwMoveCases(p: Problem, i: nat, j: nat)
    requires i <= |p.target| && j <= |p.sequence|
    ensures NwMove(p, i, j) == Diag ==>
      NwNext(p, i, j) == (i - 1, j - 1) && NwColumn(p, i, j) == (p.target[i - 1], p.sequence[j - 1])
    ensures NwMove(p, i, j) == Up ==> NwNext(p, i, j) == (i - 1, j) && NwColumn(p, i, j) == (p.target[i - 1], Gap)
    ensures NwMove(p, i, j) == Left ==> NwNext(p, i, j) == (i, j - 1) && NwColumn(p, i, j) == (Gap, p.sequence[j - 1])
  {
  }

  /** The walk of get_traceback from (i, j): each diagonal, up or left move
      adds a column, and no column is added where the walk ends. The result
      is the two aligned strings and the cell where the walk ends. */
  function NwWalk(p: Problem, i: nat, j: nat): (r: (string, string, nat, nat))
    requires i <= |p.target| && j <= |p.sequence|
    ensures |r.0| == |r.1| && (r.2 == 0 || r.3 == 0) && r.2 <= i && r.3 <= j
    decreases i + j
  {
    if NwMove(p, i, j) == End then ([], [], i, j)
    else
      var n, c := NwNext(p, i, j), NwColumn(p, i, j);
      var q := NwWalk(p, n.0, n.1);
      (q.0 + [c.0], q.1 + [c.1], q.2, q.3)
  }

  /** The traceback loop itself: the columns found so far, and the walk from
      (i, j) still to put its own in front of them. */
  function NwWalkFrom(p: Problem, i: nat, j: nat, tgt: string, sbj: string): (string, string, nat, nat)
    requires i <= |p.target| && j <= |p.sequence|
    decreases i + j
  {
    if NwMove(p, i, j) == End then (tgt, sbj, i, j)
    else
      var n, c := NwNext(p, i, j), NwColumn(p, i, j);
      NwWalkFrom(p, n.0, n.1, [c.0] + tgt, [c.1] + sbj)
  }

  /** One step of the traceback loop, for a move other than END. */
  lemma NwWalkFromStep(p: Problem, i: nat, j: nat, tgt: string, sbj: string)
    requires i <= |p.target| && j <= |p.sequence| && NwMove(p, i, j) != End
    ensures var n, c := NwNext(p, i, j), NwColumn(p, i, j);
      NwWalkFrom(p, i, j, tgt, sbj) == NwWalkFrom(p, n.0, n.1, [c.0] + tgt, [c.1] + sbj)
  {
  }

  /** The loop's result is the walk followed by the columns it started with. */
  lemma {:induction false} NwWalkFromWalk(p: Problem, i: nat, j: nat, tgt: string, sbj: string)
    requires i <= |p.target| && j <= |p.sequence|
    ensures NwWalkFrom(p, i, j, tgt, sbj) == Joined(NwWalk(p, i, j), tgt, sbj)
    decreases i + j
  {
    if NwMove(p, i, j) == End {
      assert [] + tgt == tgt && [] + sbj == sbj;
    } else {
      var n, c := NwNext(p, i, j), NwColumn(p, i, j);
      var q := NwWalk(p, n.0, n.1);
      NwWalkFromWalk(p, n.0, n.1, [c.0] + tgt, [c.1] + sbj);
      assert q.0 + [c.0] + tgt == q.0 + ([c.0] + tgt);
      assert q.1 + [c.1] + sbj == q.1 + ([c.1] + sbj);
    }
  }

  /** get_traceback: the walk from the bottom-right cell. */
  function NwTraceback(p: Problem): (string, string, nat, nat) {
    NwWalkFrom(p, |p.target|, |p.sequence|, [], [])
  }

  /** The two aligned strings have equal length, the walk ends at a cell
      (si, sj) on row 0 or column 0 and at or before (i, j), and with the gaps
      removed they are target[si:i] and sequence[sj:j]. */
  ghost predicate GlobalSpans(t: string, s: string, r: (string, string, nat, nat), i: nat, j: nat) {
    && |r.0| == |r.1| && (r.2 == 0 || r.3 == 0) && r.2 <= i <= |t| && r.3 <= j <= |s|
    && Ungapped(r.0) == t[r.2..i] && Ungapped(r.1) == s[r.3..j]
  }

  lemma GlobalSpansEnd(t: string, s: string, i: nat, j: nat)
    requires i <= |t| && j <= |s| && (i == 0 || j == 0)
    ensures GlobalSpans(t, s, ([], [], i, j), i, j)
  {
    UngappedNoGap([]);
  }

  lemma GlobalSpansDiag(t: string, s: string, q: (string, string, nat, nat), i: nat, j: nat)
    requires 1 <= i <= |t| && 1 <= j <= |s| && Gap !in t && Gap !in s
    requires GlobalSpans(t, s, q, i - 1, j - 1)
    ensures GlobalSpans(t, s, (q.0 + [t[i - 1]], q.1 + [s[j - 1]], q.2, q.3), i, j)
  {
    ExtendResidue(q.0, t, q.2, i - 1);
    ExtendResidue(q.1, s, q.3, j - 1);
  }

  lemma GlobalSpansUp(t: string, s: string, q: (string, string, nat, nat), i: nat, j: nat)
    requires 1 <= i <= |t| && j <= |s| && Gap !in t
    requires GlobalSpans(t, s, q, i - 1, j)
    ensures GlobalSpans(t, s, (q.0 + [t[i - 1]], q.1 + [Gap], q.2, q.3), i, j)
  {
    ExtendResidue(q.0, t, q.2, i - 1);
    ExtendGap(q.1);
  }

  lemma GlobalSpansLeft(t: string, s: string, q: (string, string, nat, nat), i: nat, j: nat)
    requires i <= |t| && 1 <= j <= |s| && Gap !in s
    requires GlobalSpans(t, s, q, i, j - 1)
    ensures GlobalSpans(t, s, (q.0 + [Gap], q.1 + [s[j - 1]], q.2, q.3), i, j)
  {
    ExtendGap(q.0);
    ExtendResidue(q.1, s, q.3, j - 1);
  }

  /** A traceback from (i, j) aligns target[si:i] with sequence[sj:j], gaps
      aside, for the border cell (si, sj) where it stops. */
  lemma {:induction false} NwWalkShape(p: Problem, i: nat, j: nat)
    requires i <= |p.target| && j <= |p.sequence|
    requires Gap !in p.target && Gap !in p.sequence
    ensures GlobalSpans(p.target, p.sequence, NwWalk(p, i, j), i, j)
    decreases i + j
  {
    var t, s := p.target, p.sequence;
    if NwMove(p, i, j) == End {
      GlobalSpansEnd(t, s, i, j);
    } else {
      var n, c := NwNext(p, i, j), NwColumn(p, i, j);
      var q := NwWalk(p, n.0, n.1);
      NwWalkShape(p, n.0, n.1);
      var m := NwMove(p, i, j);
      if m == Diag {
        assert n == (i - 1, j - 1) && c == (t[i - 1], s[j - 1]);
        GlobalSpansDiag(t, s, q, i, j);
      } else if m == Up {
        assert n == (i - 1, j) && c == (t[i - 1], Gap);
        GlobalSpansUp(t, s, q, i, j);
      } else {
        assert n == (i, j - 1) && c == (Gap, s[j - 1]);
        GlobalSpansLeft(t, s, q, i, j);
      }
    }
  }

  /** The same for get_traceback itself: with the returned (i, j), the
      aligned target is target[i:] and the aligned subject sequence[j:], gaps
      aside, and one of i and j is 0. */
  lemma NwTracebackShape(p: Problem)
    requires Gap !in p.target && Gap !in p.sequence
    ensures GlobalSpans(p.target, p.sequence, NwTraceback(p), |p.target|, |p.sequence|)
  {
    var r := NwWalk(p, |p.target|, |p.sequence|);
    NwWalkFromWalk(p, |p.target|, |p.sequence|, [], []);
    assert r.0 + [] == r.0 && r.1 + [] == r.1;
    NwWalkShape(p, |p.target|, |p.sequence|);
  }

  /** The score of one alignment column: a gap costs gap, a pair its
      substitution score. */
  function ColumnScore(p: Problem, a: char, b: char): real {
    if a == Gap || b == Gap then -p.gap else p.sub(a, b) as real
  }

  /** The summed column scores of two aligned strings. */
  function ColumnsScore(p: Problem, a: string, b: string): real
    requires |a| == |b|
  {
    if a == [] then 0.0
    else ColumnsScore(p, a[..|a| - 1], b[..|b| - 1]) + ColumnScore(p, a[|a| - 1], b[|b| - 1])
  }

  /** Adding a column adds its score. */
  lemma ColumnsScoreSnoc(p: Problem, a: string, b: string, x: char, y: char)
    requires |a| == |b|
    ensures ColumnsScore(p, a + [x], b + [y]) == ColumnsScore(p, a, b) + ColumnScore(p, x, y)
  {
    assert (a + [x])[..|a|] == a && (b + [y])[..|b|] == b;
  }

  /** Each move of the walk reproduces the cell's score from the cell it
      moves to and the column it adds. */
  lemma NwStepScore(p: Problem, i: nat, j: nat)
    requires i <= |p.target| && j <= |p.sequence| && NwMove(p, i, j) != End
    requires Gap !in p.target && Gap !in p.sequence
    ensures var n, c := NwNext(p, i, j), NwColumn(p, i, j);
      NwCell(p, i, j) == NwCell(p, n.0, n.1) + ColumnScore(p, c.0, c.1)
  {
    NwNextMoveFound(p, i, j);
    assert p.target[i - 1] in p.target && p.sequence[j - 1] in p.sequence;
  }

  /** One step of the walk's score account: a cell worth the previous cell
      plus a column is worth the walk's end plus the longer alignment. */
  lemma ScoreAccountStep(p: Problem, q: (string, string, nat, nat), x: char, y: char, cell: real, previous: real)
    requires |q.0| == |q.1| && q.2 <= |p.target| && q.3 <= |p.sequence|
    requires previous == NwCell(p, q.2, q.3) + ColumnsScore(p, q.0, q.1)
    requires cell == previous + ColumnScore(p, x, y)
    ensures cell == NwCell(p, q.2, q.3) + ColumnsScore(p, q.0 + [x], q.1 + [y])
  {
    ColumnsScoreSnoc(p, q.0, q.1, x, y);
  }

  /** The walk explains the cell it starts from: the cell's score is the
      score of the border cell where the walk stops plus the scores of the
      columns it produced. */
  lemma {:induction false} NwWalkScore(p: Problem, i: nat, j: nat)
    requires i <= |p.target| && j <= |p.sequence|
    requires Gap !in p.target && Gap !in p.sequence
    ensures var r := NwWalk(p, i, j);
      NwCell(p, i, j) == NwCell(p, r.2, r.3) + ColumnsScore(p, r.0, r.1)
    decreases i + j
  {
    var r := NwWalk(p, i, j);
    if NwMove(p, i, j) == End {
      assert r == ([], [], i, j);
      assert ColumnsScore(p, r.0, r.1) == 0.0;
    } else {
      var n, c := NwNext(p, i, j), NwColumn(p, i, j);
      var q := NwWalk(p, n.0, n.1);
      NwWalkScore(p, n.0, n.1);
      NwStepScore(p, i, j);
      ScoreAccountStep(p, q, c.0, c.1, NwCell(p, i, j), NwCell(p, n.0, n.1));
    }
  }

  /** get_alignment_score, the bottom-right cell, is the score of the
      alignment get_traceback returns plus the border score of the unaligned
      prefix before it, whose length is the returned i or j. */
  lemma AlignmentScoreExplained(p: Problem)
    requires Gap !in p.target && Gap !in p.sequence
    ensures var r := NwTraceback(p);
      |r.0| == |r.1| && (r.2 == 0 || r.3 == 0)
      && NwCell(p, |p.target|, |p.sequence|) == Border(p.gap, r.2 + r.3) + ColumnsScore(p, r.0, r.1)
  {
    var r := NwWalk(p, |p.target|, |p.sequence|);
    NwWalkFromWalk(p, |p.target|, |p.sequence|, [], []);
    assert r.0 + [] == r.0 && r.1 + [] == r.1;
    NwWalkScore(p, |p.target|, |p.sequence|);
  }

  // ------------------------------------------------------------- the array

  /** The border and every interior cell before (i, j) in row-major order hold
      the recurrence. */
  ghost predicate NwFilledBefore(scores: array2<real>, p: Problem, i: nat, j: nat)
    reads scores
  {
    && Shaped(scores, p)
    && forall a: nat, b: nat {:trigger NwCell(p, a, b)} ::
         a <= |p.target| && b <= |p.sequence| && (a == 0 || b == 0 || Before(a, b, i, j))
         ==> scores[a, b] == NwCell(p, a, b)
  }

  /** Every cell holds the recurrence. */
  ghost predicate NwFilled(scores: array2<real>, p: Problem)
    reads scores
  {
    NwFilledBefore(scores, p, |p.target| + 1, 1)
  }

  /** next_move read off the array: END on row 0 or column 0, otherwise the
      first candidate that reproduces the stored score. */
  ghost function NwMatrixMove(scores: array2<real>, p: Problem, i: nat, j: nat): Option<Move>
    reads scores
    requires Shaped(scores, p) && i <= |p.target| && j <= |p.sequence|
  {
    if i == 0 || j == 0 then Some(End)
    else NwMoveOn(i, j, scores[i, j], scores[i - 1, j - 1], scores[i - 1, j], scores[i, j - 1],
                  p.sub(p.target[i - 1], p.sequence[j - 1]), p.gap)
  }

  /** On the filled array it is next_move on the recurrence. */
  lemma NwMatrixMoveIsNextMove(scores: array2<real>, p: Problem, i: nat, j: nat)
    requires NwFilled(scores, p) && i <= |p.target| && j <= |p.sequence|
    ensures NwMatrixMove(scores, p, i, j) == NwNextMove(p, i, j)
  {
    if i > 0 && j > 0 {
      assert scores[i, j] == NwCell(p, i, j) && scores[i - 1, j - 1] == NwCell(p, i - 1, j - 1);
      assert scores[i - 1, j] == NwCell(p, i - 1, j) && scores[i, j - 1] == NwCell(p, i, j - 1);
    }
  }

  /** get_traceback's loop on the array: it stops at END; the None that the
      filled array never produces would leave (i, j) unchanged and loop for
      ever in the source, and stops here. */
  ghost function NwMatrixWalkFrom(scores: array2<real>, p: Problem, i: nat, j: nat, tgt: string, sbj: string): (string, string, nat, nat)
    reads scores
    requires Shaped(scores, p) && i <= |p.target| && j <= |p.sequence|
    decreases i + j
  {
    var m := NwMatrixMove(scores, p, i, j);
    if m == Some(Diag) then NwMatrixWalkFrom(scores, p, i - 1, j - 1, [p.target[i - 1]] + tgt, [p.sequence[j - 1]] + sbj)
    else if m == Some(Up) then NwMatrixWalkFrom(scores, p, i - 1, j, [p.target[i - 1]] + tgt, [Gap] + sbj)
    else if m == Some(Left) then NwMatrixWalkFrom(scores, p, i, j - 1, [Gap] + tgt, [p.sequence[j - 1]] + sbj)
    else (tgt, sbj, i, j)
  }

  /** On the filled array that loop is the traceback of the recurrence. */
  lemma {:induction false} NwMatrixWalkIsWalk(scores: array2<real>, p: Problem, i: nat, j: nat, tgt: string, sbj: string)
    requires NwFilled(scores, p) && i <= |p.target| && j <= |p.sequence|
    ensures NwMatrixWalkFrom(scores, p, i, j, tgt, sbj) == NwWalkFrom(p, i, j, tgt, sbj)
    decreases i + j
  {
    NwMatrixMoveIsNextMove(scores, p, i, j);
    NwNextMoveFound(p, i, j);
    NwMoveCases(p, i, j);
    if NwMove(p, i, j) != End {
      var n, c := NwNext(p, i, j), NwColumn(p, i, j);
      NwMatrixWalkIsWalk(scores, p, n.0, n.1, [c.0] + tgt, [c.1] + sbj);
      NwWalkFromStep(p, i, j, tgt, sbj);
    }
  }
}
