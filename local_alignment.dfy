/** The Smith–Waterman recurrence shared by the three local aligners
    (subseq.py SmithWaterman, subseq/SmithWaterman.py and SWA in
    subseq/ss_LA_SEARCH.py): the filled score matrix, the traceback moves, the
    walk that a traceback performs, and the row-major scans that track the
    best cell. The classes that fill arrays are proved against these. */
module LocalAlignment {
  import opened Wrappers
  import opened Alignment

  /** The inputs of one alignment: the target is the row sequence, the
      subject the column sequence; the score function is int(sub_matrix[a, b]). */
  datatype Problem = Problem(target: string, sequence: string, gap: real, sub: (char, char) -> int)

  /** A cell off row 0 and column 0. */
  predicate Interior(p: Problem, i: int, j: int) {
    1 <= i <= |p.target| && 1 <= j <= |p.sequence|
  }

  /** Python's max over a list: the first element no later one exceeds. */
  function MaxOf(s: seq<real>): (m: real)
    requires |s| > 0
    decreases |s|
  {
    if |s| == 1 then s[0]
    else
      var rest := MaxOf(s[1..]);
      if rest > s[0] then rest else s[0]
  }

  /** max is an upper bound of the list and one of its elements. */
  lemma {:induction false} MaxOfBounds(s: seq<real>)
    requires |s| > 0
    ensures forall k :: 0 <= k < |s| ==> s[k] <= MaxOf(s)
    ensures MaxOf(s) in s
    decreases |s|
  {
    if |s| > 1 {
      MaxOfBounds(s[1..]);
      forall k | 1 <= k < |s| ensures s[k] <= MaxOf(s) {
        assert s[k] == s[1..][k - 1];
      }
    }
  }

  /** score_matrix[i][j] once filled: row 0 and column 0 hold 0, every other
      cell max(0, diagonal + score, up - gap, left - gap). */
  function Cell(p: Problem, i: nat, j: nat): (c: real)
    requires i <= |p.target| && j <= |p.sequence|
    ensures c >= 0.0
    ensures (i == 0 || j == 0) ==> c == 0.0
    decreases i + j
  {
    if i == 0 || j == 0 then 0.0
    else Max4(0.0, Cell(p, i - 1, j - 1) + p.sub(p.target[i - 1], p.sequence[j - 1]) as real,
              Cell(p, i - 1, j) - p.gap, Cell(p, i, j - 1) - p.gap)
  }

  /** max([a, b, c, d]), scanning left to right and keeping the first of
      equal values: bounds each of the four. */
  function Max4(a: real, b: real, c: real, d: real): (m: real)
    ensures m >= a && m >= b && m >= c && m >= d
  {
    var ab := if b > a then b else a;
    var abc := if c > ab then c else ab;
    if d > abc then d else abc
  }

  /** The list form of max agrees with Max4. */
  lemma MaxOfFour(a: real, b: real, c: real, d: real)
    ensures MaxOf([a, b, c, d]) == Max4(a, b, c, d)
  {
    var s := [a, b, c, d];
    MaxOfBounds(s);
    assert s[0] == a && s[1] == b && s[2] == c && s[3] == d;
    assert a <= MaxOf(s) && b <= MaxOf(s) && c <= MaxOf(s) && d <= MaxOf(s);
    var k :| 0 <= k < 4 && s[k] == MaxOf(s);
    Max4IsOne(a, b, c, d);
  }

  /** max([a, b, c, d]) is one of the four. */
  lemma Max4IsOne(a: real, b: real, c: real, d: real)
    ensures var m := Max4(a, b, c, d); m == a || m == b || m == c || m == d
  {
  }

  /** The three candidates of an interior cell. */
  function DiagonalScore(p: Problem, i: nat, j: nat): real
    requires Interior(p, i, j)
  {
    Cell(p, i - 1, j - 1) + p.sub(p.target[i - 1], p.sequence[j - 1]) as real
  }

  function UpScore(p: Problem, i: nat, j: nat): real
    requires Interior(p, i, j)
  {
    Cell(p, i - 1, j) - p.gap
  }

  function LeftScore(p: Problem, i: nat, j: nat): real
    requires Interior(p, i, j)
  {
    Cell(p, i, j - 1) - p.gap
  }

  /** An interior cell is the largest of 0 and its three candidates. */
  lemma CellIsMax(p: Problem, i: nat, j: nat)
    requires Interior(p, i, j)
    ensures Cell(p, i, j) >= DiagonalScore(p, i, j)
    ensures Cell(p, i, j) >= UpScore(p, i, j) && Cell(p, i, j) >= LeftScore(p, i, j)
    ensures Cell(p, i, j) == 0.0 || Cell(p, i, j) == DiagonalScore(p, i, j)
      || Cell(p, i, j) == UpScore(p, i, j) || Cell(p, i, j) == LeftScore(p, i, j)
  {
    CellUnfold(p, i, j);
    Max4IsOne(0.0, DiagonalScore(p, i, j), UpScore(p, i, j), LeftScore(p, i, j));
  }

  /** An interior cell is max([0, diagonal, up, left]). */
  lemma CellUnfold(p: Problem, i: nat, j: nat)
    requires Interior(p, i, j)
    ensures Cell(p, i, j) == Max4(0.0, DiagonalScore(p, i, j), UpScore(p, i, j), LeftScore(p, i, j))
  {
  }

  // ------------------------------------------ subseq.py SmithWaterman.next_move

  datatype Move = End | Diag | Up | Left

  /** A move from (i, j) that stays off row 0 and column 0. */
  predicate Inside(m: Move, i: nat, j: nat) {
    match m
    case End => true
    case Diag => i >= 2 && j >= 2
    case Up => i >= 2
    case Left => j >= 2
  }

  /** next_move as written, on the values it reads: the cell's score, its
      diagonal, up and left neighbours and the pair's substitution score. The
      first candidate that reproduces the score decides, diagonal before up
      before left, and the move is END when that neighbour is 0. When no
      candidate reproduces the score the method falls off its end and returns
      None. */
  function NextMoveOn(score: real, diag: real, up: real, left: real, similarity: int, gap: real): (m: Option<Move>)
    ensures m == Some(Diag) ==> diag > 0.0 && score == diag + similarity as real
    ensures m == Some(Up) ==> up > 0.0 && score == up - gap
    ensures m == Some(Left) ==> left > 0.0 && score == left - gap
    ensures m.None? <==> score != diag + similarity as real && score != up - gap && score != left - gap
  {
    if score == diag + similarity as real then Some(if diag > 0.0 then Diag else End)
    else if score == up - gap then Some(if up > 0.0 then Up else End)
    else if score == left - gap then Some(if left > 0.0 then Left else End)
    else None
  }

  /** next_move at an interior cell of the filled matrix. */
  function NextMoveAsWritten(p: Problem, i: nat, j: nat): (m: Option<Move>)
    requires Interior(p, i, j)
    ensures m == Some(Diag) ==> Cell(p, i - 1, j - 1) > 0.0 && Cell(p, i, j) == DiagonalScore(p, i, j)
    ensures m == Some(Up) ==> Cell(p, i - 1, j) > 0.0 && Cell(p, i, j) == UpScore(p, i, j)
    ensures m == Some(Left) ==> Cell(p, i, j - 1) > 0.0 && Cell(p, i, j) == LeftScore(p, i, j)
  {
    NextMoveOn(Cell(p, i, j), Cell(p, i - 1, j - 1), Cell(p, i - 1, j), Cell(p, i, j - 1),
               p.sub(p.target[i - 1], p.sequence[j - 1]), p.gap)
  }

  /** From a positive cell next_move always finds a move. */
  lemma NextMoveFound(p: Problem, i: nat, j: nat)
    requires Interior(p, i, j) && Cell(p, i, j) > 0.0
    ensures NextMoveAsWritten(p, i, j).Some?
  {
    CellIsMax(p, i, j);
  }

  /** On an all-mismatch pair whose score and gaps are all negative, the only
      cell scores 0, fill_score_matrix lists it as a best cell, and next_move
      falls through there; get_traceback then repeats next_move on the same
      cell forever, since None is never END. */
  lemma NextMoveHangs()
    ensures var p := Problem("A", "C", 10.0, (a: char, b: char) => if a == b then 5 else -4);
      Cell(p, 1, 1) == 0.0 && Best(p) == (0.0, [(1, 1)]) && NextMoveAsWritten(p, 1, 1).None?
  {
    var p := Problem("A", "C", 10.0, (a: char, b: char) => if a == b then 5 else -4);
    assert DiagonalScore(p, 1, 1) == -4.0;
    Max4IsOne(0.0, -4.0, -10.0, -10.0);
    assert Cell(p, 1, 1) == Max4(0.0, -4.0, -10.0, -10.0) == 0.0;
    assert BestAt(p, 1, 1) == (0.0, []);
    var none: seq<(nat, nat)> := [];
    assert none + [(1, 1)] == [(1, 1)];
    assert BestStep((0.0, none), 0.0, 1, 1) == (0.0, [(1, 1)]);
    assert BestAt(p, 1, 2) == (0.0, [(1, 1)]);
  }

  /** next_move with the fall-through read as END: a cell that no candidate
      reproduces scores 0 and starts the alignment. */
  function NextMove(p: Problem, i: nat, j: nat): (m: Move)
    requires Interior(p, i, j)
    ensures NextMoveAsWritten(p, i, j).Some? ==> m == NextMoveAsWritten(p, i, j).value
    ensures NextMoveAsWritten(p, i, j).None? ==> m == End && Cell(p, i, j) == 0.0
    ensures Inside(m, i, j)
  {
    match NextMoveAsWritten(p, i, j)
    case None => NextMoveFound0(p, i, j); End
    case Some(m) => m
  }

  /** A cell where next_move falls through scores 0. */
  lemma NextMoveFound0(p: Problem, i: nat, j: nat)
    requires Interior(p, i, j) && NextMoveAsWritten(p, i, j).None?
    ensures Cell(p, i, j) == 0.0
  {
    if Cell(p, i, j) > 0.0 {
      NextMoveFound(p, i, j);
    }
  }

  // ------------------------------------ subseq/SmithWaterman.py and SWA moves

  /** next_move of subseq/SmithWaterman.py and _next_move of SWA: the largest
      neighbour decides, ties going to diagonal and then to left; a chosen
      neighbour of 0 ends the traceback. The three cases cover every input, so
      the final raise (and SWA's fall-through) is never reached. */
  function LegacyNextMove(diag: real, up: real, left: real): (m: Option<Move>)
    ensures m.Some?
    ensures m == Some(Diag) ==> diag != 0.0 && diag >= up && diag >= left
    ensures m == Some(Up) ==> up != 0.0 && up > diag && up > left
    ensures m == Some(Left) ==> left != 0.0 && left > diag && left >= up
  {
    if diag >= up && diag >= left then Some(if diag != 0.0 then Diag else End)
    else if up > diag && up > left then Some(if up != 0.0 then Up else End)
    else if left > diag && left >= up then Some(if left != 0.0 then Left else End)
    else None
  }

  // -------------------------------------------------------------- tracebacks

  /** Which generation's next_move a traceback follows. */
  datatype Rule = Current | Legacy

  /** The move a traceback takes at an interior cell. */
  function MoveAt(p: Problem, rule: Rule, i: nat, j: nat): (m: Move)
    requires Interior(p, i, j)
    ensures Inside(m, i, j)
  {
    match rule
    case Current => NextMove(p, i, j)
    case Legacy => LegacyNextMove(Cell(p, i - 1, j - 1), Cell(p, i - 1, j), Cell(p, i, j - 1)).value
  }

  /** The move a traceback takes at each cell. */
  type Moves = (nat, nat) -> Move

  /** The moves of a rule; off the interior there is no move to take. */
  function MovesOf(p: Problem, rule: Rule): Moves {
    (i: nat, j: nat) => if Interior(p, i, j) then MoveAt(p, rule, i, j) else End
  }

  /** The move taken at (i, j), with a move that would leave the interior read
      as END; the moves of a rule never leave it (MoveAt ensures Inside). */
  function Taken(mv: Moves, i: nat, j: nat): (m: Move)
    ensures Inside(m, i, j)
    ensures Inside(mv(i, j), i, j) ==> m == mv(i, j)
  {
    var m := mv(i, j);
    if Inside(m, i, j) then m else End
  }

  /** The traceback loop of the local aligners, for any choice of moves: each
      diagonal, up or left move adds a column, and the cell where the moves
      end adds the pair target[i-1], sequence[j-1] as the first column. The
      result is the two aligned strings and the cell where they start. */
  function WalkOn(p: Problem, mv: Moves, i: nat, j: nat): (r: (string, string, nat, nat))
    requires Interior(p, i, j)
    decreases i + j
  {
    var t, s := p.target, p.sequence;
    match Taken(mv, i, j)
    case End => ([t[i - 1]], [s[j - 1]], i, j)
    case Diag =>
      var r := WalkOn(p, mv, i - 1, j - 1);
      (r.0 + [t[i - 1]], r.1 + [s[j - 1]], r.2, r.3)
    case Up =>
      var r := WalkOn(p, mv, i - 1, j);
      (r.0 + [t[i - 1]], r.1 + [Gap], r.2, r.3)
    case Left =>
      var r := WalkOn(p, mv, i, j - 1);
      (r.0 + [Gap], r.1 + [s[j - 1]], r.2, r.3)
  }

  /** The traceback loop itself: the columns found so far, and the walk from
      (i, j) still to put its own in front of them. */
  function WalkFromOn(p: Problem, mv: Moves, i: nat, j: nat, tgt: string, sbj: string): (string, string, nat, nat)
    requires Interior(p, i, j)
    decreases i + j
  {
    var t, s := p.target, p.sequence;
    match Taken(mv, i, j)
    case End => ([t[i - 1]] + tgt, [s[j - 1]] + sbj, i, j)
    case Diag => WalkFromOn(p, mv, i - 1, j - 1, [t[i - 1]] + tgt, [s[j - 1]] + sbj)
    case Up => WalkFromOn(p, mv, i - 1, j, [t[i - 1]] + tgt, [Gap] + sbj)
    case Left => WalkFromOn(p, mv, i, j - 1, [Gap] + tgt, [s[j - 1]] + sbj)
  }

  /** The walk of a rule. */
  function Walk(p: Problem, rule: Rule, i: nat, j: nat): (string, string, nat, nat)
    requires Interior(p, i, j)
  {
    WalkOn(p, MovesOf(p, rule), i, j)
  }

  /** The traceback loop of a rule. */
  function WalkFrom(p: Problem, rule: Rule, i: nat, j: nat, tgt: string, sbj: string): (string, string, nat, nat)
    requires Interior(p, i, j)
  {
    WalkFromOn(p, MovesOf(p, rule), i, j, tgt, sbj)
  }

  /** get_traceback(i, j) of subseq.py, with next_move's fall-through read as END. */
  function Traceback(p: Problem, i: nat, j: nat): (string, string, nat, nat)
    requires Interior(p, i, j)
  {
    WalkFrom(p, Current, i, j, [], [])
  }

  /** A walk's result with more columns after it. */
  function Joined(r: (string, string, nat, nat), tgt: string, sbj: string): (string, string, nat, nat) {
    (r.0 + tgt, r.1 + sbj, r.2, r.3)
  }

  /** The loop's result is the walk followed by the columns it started with. */
  lemma {:induction false} WalkFromWalk(p: Problem, mv: Moves, i: nat, j: nat, tgt: string, sbj: string)
    requires Interior(p, i, j)
    ensures WalkFromOn(p, mv, i, j, tgt, sbj) == Joined(WalkOn(p, mv, i, j), tgt, sbj)
    decreases i + j
  {
    var t, s := p.target, p.sequence;
    match Taken(mv, i, j)
    case End =>
    case Diag =>
      var q := WalkOn(p, mv, i - 1, j - 1);
      WalkFromWalk(p, mv, i - 1, j - 1, [t[i - 1]] + tgt, [s[j - 1]] + sbj);
      assert q.0 + [t[i - 1]] + tgt == q.0 + ([t[i - 1]] + tgt);
      assert q.1 + [s[j - 1]] + sbj == q.1 + ([s[j - 1]] + sbj);
    case Up =>
      var q := WalkOn(p, mv, i - 1, j);
      WalkFromWalk(p, mv, i - 1, j, [t[i - 1]] + tgt, [Gap] + sbj);
      assert q.0 + [t[i - 1]] + tgt == q.0 + ([t[i - 1]] + tgt);
      assert q.1 + [Gap] + sbj == q.1 + ([Gap] + sbj);
    case Left =>
      var q := WalkOn(p, mv, i, j - 1);
      WalkFromWalk(p, mv, i, j - 1, [Gap] + tgt, [s[j - 1]] + sbj);
      assert q.0 + [Gap] + tgt == q.0 + ([Gap] + tgt);
      assert q.1 + [s[j - 1]] + sbj == q.1 + ([s[j - 1]] + sbj);
  }

  /** Adding one residue to an aligned string adds it to the ungapped text. */
  lemma ExtendResidue(q: string, t: string, lo: nat, hi: nat)
    requires lo <= hi < |t| && t[hi] != Gap
    requires Ungapped(q) == t[lo..hi]
    ensures Ungapped(q + [t[hi]]) == t[lo..hi + 1]
  {
    var c := t[hi];
    UngappedAppend(q, [c]);
    UngappedNoGap([c]);
    assert t[lo..hi + 1] == t[lo..hi] + [c];
  }

  /** Adding a gap leaves the ungapped text as it is. */
  lemma ExtendGap(q: string)
    ensures Ungapped(q + [Gap]) == Ungapped(q)
  {
    UngappedAppend(q, [Gap]);
    assert Ungapped([Gap]) == [] by {
      assert [Gap] == [] + [Gap];
      UngappedAppend([], [Gap]);
      UngappedNoGap([]);
    }
  }

  /** The two aligned strings have equal length, start at a cell (si, sj) off
      row 0 and column 0 and at or before (i, j), and with the gaps removed
      they are target[si-1:i] and sequence[sj-1:j]. */
  ghost predicate Spans(t: string, s: string, r: (string, string, nat, nat), i: nat, j: nat) {
    |r.0| == |r.1| && 1 <= r.2 <= i <= |t| && 1 <= r.3 <= j <= |s|
    && Ungapped(r.0) == t[r.2 - 1..i] && Ungapped(r.1) == s[r.3 - 1..j]
  }

  lemma SpansDiag(t: string, s: string, q: (string, string, nat, nat), i: nat, j: nat)
    requires 2 <= i <= |t| && 2 <= j <= |s| && Gap !in t && Gap !in s
    requires Spans(t, s, q, i - 1, j - 1)
    ensures Spans(t, s, (q.0 + [t[i - 1]], q.1 + [s[j - 1]], q.2, q.3), i, j)
  {
    ExtendResidue(q.0, t, q.2 - 1, i - 1);
    ExtendResidue(q.1, s, q.3 - 1, j - 1);
  }

  lemma SpansUp(t: string, s: string, q: (string, string, nat, nat), i: nat, j: nat)
    requires 2 <= i <= |t| && 1 <= j <= |s| && Gap !in t
    requires Spans(t, s, q, i - 1, j)
    ensures Spans(t, s, (q.0 + [t[i - 1]], q.1 + [Gap], q.2, q.3), i, j)
  {
    ExtendResidue(q.0, t, q.2 - 1, i - 1);
    ExtendGap(q.1);
  }

  lemma SpansLeft(t: string, s: string, q: (string, string, nat, nat), i: nat, j: nat)
    requires 1 <= i <= |t| && 2 <= j <= |s| && Gap !in s
    requires Spans(t, s, q, i, j - 1)
    ensures Spans(t, s, (q.0 + [Gap], q.1 + [s[j - 1]], q.2, q.3), i, j)
  {
    ExtendGap(q.0);
    ExtendResidue(q.1, s, q.3 - 1, j - 1);
  }

  lemma SpansEnd(t: string, s: string, i: nat, j: nat)
    requires 1 <= i <= |t| && 1 <= j <= |s| && Gap !in t && Gap !in s
    ensures Spans(t, s, ([t[i - 1]], [s[j - 1]], i, j), i, j)
  {
    UngappedNoGap([t[i - 1]]);
    UngappedNoGap([s[j - 1]]);
  }

  /** A traceback from (i, j) aligns target[si-1:i] with sequence[sj-1:j],
      gaps aside, for the cell (si, sj) where it starts: it uses every residue
      between that cell and (i, j), in order, and nothing else. This holds
      whichever moves it takes. */
  lemma {:induction false} WalkShape(p: Problem, mv: Moves, i: nat, j: nat)
    requires Interior(p, i, j)
    requires Gap !in p.target && Gap !in p.sequence
    ensures Spans(p.target, p.sequence, WalkOn(p, mv, i, j), i, j)
    decreases i + j
  {
    var m := Taken(mv, i, j);
    if m != End {
      var n := Prev(m, i, j);
      WalkShape(p, mv, n.0, n.1);
    }
    WalkShapeStep(p, mv, i, j);
  }

  /** The cell a move comes from. */
  function Prev(m: Move, i: nat, j: nat): (n: (nat, nat))
    requires 1 <= i && 1 <= j && Inside(m, i, j) && m != End
    ensures 1 <= n.0 <= i && 1 <= n.1 <= j && n.0 + n.1 < i + j
  {
    match m
    case Diag => (i - 1, j - 1)
    case Up => (i - 1, j)
    case Left => (i, j - 1)
  }

  /** One step of WalkShape: the span of the walk from (i, j) follows from the
      span of the walk it continues. */
  lemma WalkShapeStep(p: Problem, mv: Moves, i: nat, j: nat)
    requires Interior(p, i, j)
    requires Gap !in p.target && Gap !in p.sequence
    requires Taken(mv, i, j) != End ==>
      var n := Prev(Taken(mv, i, j), i, j); Spans(p.target, p.sequence, WalkOn(p, mv, n.0, n.1), n.0, n.1)
    ensures Spans(p.target, p.sequence, WalkOn(p, mv, i, j), i, j)
  {
    match Taken(mv, i, j)
    case End => SpansEnd(p.target, p.sequence, i, j);
    case Diag => WalkShapeDiag(p, mv, i, j);
    case Up => WalkShapeUp(p, mv, i, j);
    case Left => WalkShapeLeft(p, mv, i, j);
  }

  /** A diagonal move extends the span of the walk it continues. */
  lemma WalkShapeDiag(p: Problem, mv: Moves, i: nat, j: nat)
    requires Interior(p, i, j) && Taken(mv, i, j) == Diag
    requires Gap !in p.target && Gap !in p.sequence
    requires Spans(p.target, p.sequence, WalkOn(p, mv, i - 1, j - 1), i - 1, j - 1)
    ensures Spans(p.target, p.sequence, WalkOn(p, mv, i, j), i, j)
  {
    SpansDiag(p.target, p.sequence, WalkOn(p, mv, i - 1, j - 1), i, j);
  }

  /** An up move extends the span of the walk it continues. */
  lemma WalkShapeUp(p: Problem, mv: Moves, i: nat, j: nat)
    requires Interior(p, i, j) && Taken(mv, i, j) == Up
    requires Gap !in p.target && Gap !in p.sequence
    requires Spans(p.target, p.sequence, WalkOn(p, mv, i - 1, j), i - 1, j)
    ensures Spans(p.target, p.sequence, WalkOn(p, mv, i, j), i, j)
  {
    SpansUp(p.target, p.sequence, WalkOn(p, mv, i - 1, j), i, j);
  }

  /** A left move extends the span of the walk it continues. */
  lemma WalkShapeLeft(p: Problem, mv: Moves, i: nat, j: nat)
    requires Interior(p, i, j) && Taken(mv, i, j) == Left
    requires Gap !in p.target && Gap !in p.sequence
    requires Spans(p.target, p.sequence, WalkOn(p, mv, i, j - 1), i, j - 1)
    ensures Spans(p.target, p.sequence, WalkOn(p, mv, i, j), i, j)
  {
    SpansLeft(p.target, p.sequence, WalkOn(p, mv, i, j - 1), i, j);
  }

  /** The same for the traceback loop as the aligner classes run it. */
  lemma TracebackShape(p: Problem, rule: Rule, i: nat, j: nat)
    requires Interior(p, i, j)
    requires Gap !in p.target && Gap !in p.sequence
    ensures Spans(p.target, p.sequence, WalkFrom(p, rule, i, j, [], []), i, j)
  {
    var mv := MovesOf(p, rule);
    var r := WalkOn(p, mv, i, j);
    WalkFromWalk(p, mv, i, j, [], []);
    assert r.0 + [] == r.0 && r.1 + [] == r.1;
    WalkShape(p, mv, i, j);
  }

  /** Whatever the sequences hold and whichever moves it takes, a traceback
      from (i, j) starts at an interior cell at or before (i, j): start_i and
      start_j are at least 1, so start_j - 1 indexes the subject. */
  lemma {:induction false} WalkFromStart(p: Problem, mv: Moves, i: nat, j: nat, tgt: string, sbj: string)
    requires Interior(p, i, j)
    ensures var r := WalkFromOn(p, mv, i, j, tgt, sbj); 1 <= r.2 <= i && 1 <= r.3 <= j
    decreases i + j
  {
    var t, s := p.target, p.sequence;
    match Taken(mv, i, j)
    case End =>
    case Diag => WalkFromStart(p, mv, i - 1, j - 1, [t[i - 1]] + tgt, [s[j - 1]] + sbj);
    case Up => WalkFromStart(p, mv, i - 1, j, [t[i - 1]] + tgt, [Gap] + sbj);
    case Left => WalkFromStart(p, mv, i, j - 1, [Gap] + tgt, [s[j - 1]] + sbj);
  }

  // ------------------------------------------------------- row-major scans

  /** (a, b) comes before (i, j) in row-major order. */
  predicate Before(a: int, b: int, i: int, j: int) {
    a < i || (a == i && b < j)
  }

  /** The best score and the list of its cells. */
  type BestState = (real, seq<(nat, nat)>)

  /** subseq.py fill_score_matrix: a larger score restarts the list, an equal
      one joins it. */
  function BestStep(st: BestState, c: real, i: nat, j: nat): BestState {
    if c > st.0 then (c, [(i, j)])
    else if c == st.0 then (st.0, st.1 + [(i, j)])
    else st
  }

  /** The state of the subseq.py fill after visiting, in row-major order,
      every interior cell before (i, j). */
  function BestAt(p: Problem, i: nat, j: nat): BestState
    requires 1 <= i <= |p.target| + 1 && 1 <= j <= |p.sequence| + 1
    requires i == |p.target| + 1 ==> j == 1
    decreases i, j
  {
    if j > 1 then BestStep(BestAt(p, i, j - 1), Cell(p, i, j - 1), i, j - 1)
    else if i > 1 then BestAt(p, i - 1, |p.sequence| + 1)
    else (0.0, [])
  }

  /** best_score and best_score_coordinates after the whole fill. */
  function Best(p: Problem): BestState {
    BestAt(p, |p.target| + 1, 1)
  }

  /** What the scan of subseq.py knows after the cells before (i, j). */
  ghost predicate BestSoFar(p: Problem, st: BestState, i: nat, j: nat) {
    && st.0 >= 0.0
    && (st.0 == 0.0 || st.1 != [])
    && (forall a: nat, b: nat :: Interior(p, a, b) && Before(a, b, i, j) ==> Cell(p, a, b) <= st.0)
    && (forall a: nat, b: nat :: Interior(p, a, b) && Before(a, b, i, j) && Cell(p, a, b) == st.0 ==> (a, b) in st.1)
    && (forall k :: 0 <= k < |st.1| ==>
          Interior(p, st.1[k].0, st.1[k].1) && Before(st.1[k].0, st.1[k].1, i, j) && Cell(p, st.1[k].0, st.1[k].1) == st.0)
    && (forall k, l :: 0 <= k < l < |st.1| ==> Before(st.1[k].0, st.1[k].1, st.1[l].0, st.1[l].1))
  }

  /** One step of the subseq.py scan keeps what it knows. */
  lemma BestStepKeeps(p: Problem, st: BestState, i: nat, j: nat)
    requires Interior(p, i, j)
    requires BestSoFar(p, st, i, j)
    ensures BestSoFar(p, BestStep(st, Cell(p, i, j), i, j), i, j + 1)
  {
    var c := Cell(p, i, j);
    var st' := BestStep(st, c, i, j);
    if c > st.0 {
      forall a: nat, b: nat | Interior(p, a, b) && Before(a, b, i, j + 1) && Cell(p, a, b) == st'.0
        ensures (a, b) in st'.1
      {
      }
    } else if c == st.0 {
      assert st'.1[|st.1|] == (i, j);
      forall a: nat, b: nat | Interior(p, a, b) && Before(a, b, i, j + 1) && Cell(p, a, b) == st'.0
        ensures (a, b) in st'.1
      {
        if Before(a, b, i, j) { assert (a, b) in st.1; } else { assert (a, b) == (i, j); }
      }
    }
  }

  /** Past the end of a row is the start of the next. */
  lemma BestNextRow(p: Problem, st: BestState, i: nat)
    requires 1 <= i <= |p.target|
    requires BestSoFar(p, st, i, |p.sequence| + 1)
    ensures BestSoFar(p, st, i + 1, 1)
  {
  }

  lemma BestScanColumn(p: Problem, i: nat, j: nat)
    requires 1 <= i <= |p.target| && 1 < j <= |p.sequence| + 1
    requires BestSoFar(p, BestAt(p, i, j - 1), i, j - 1)
    ensures BestSoFar(p, BestAt(p, i, j), i, j)
  {
    BestStepKeeps(p, BestAt(p, i, j - 1), i, j - 1);
  }

  lemma BestScanRow(p: Problem, i: nat)
    requires 1 < i <= |p.target| + 1
    requires BestSoFar(p, BestAt(p, i - 1, |p.sequence| + 1), i - 1, |p.sequence| + 1)
    ensures BestSoFar(p, BestAt(p, i, 1), i, 1)
  {
    BestNextRow(p, BestAt(p, i - 1, |p.sequence| + 1), i - 1);
  }

  lemma {:induction false} BestScan(p: Problem, i: nat, j: nat)
    requires 1 <= i <= |p.target| + 1 && 1 <= j <= |p.sequence| + 1
    requires i == |p.target| + 1 ==> j == 1
    ensures BestSoFar(p, BestAt(p, i, j), i, j)
    decreases i, j
  {
    if j > 1 {
      BestScan(p, i, j - 1);
      BestScanColumn(p, i, j);
    } else if i > 1 {
      BestScan(p, i - 1, |p.sequence| + 1);
      BestScanRow(p, i);
    }
  }

  /** best_score is the largest cell of the matrix (0 on an empty one), and
      best_score_coordinates lists exactly the interior cells holding it, in
      row-major order; on an all-zero matrix that is every interior cell. */
  lemma BestIsMaximum(p: Problem)
    ensures var (best, coords) := Best(p);
      best >= 0.0
      && (forall a: nat, b: nat :: Interior(p, a, b) ==> Cell(p, a, b) <= best)
      && (forall a: nat, b: nat :: Interior(p, a, b) ==> (Cell(p, a, b) == best <==> (a, b) in coords))
      && (forall k :: 0 <= k < |coords| ==> Interior(p, coords[k].0, coords[k].1))
      && (forall k, l :: 0 <= k < l < |coords| ==> Before(coords[k].0, coords[k].1, coords[l].0, coords[l].1))
      && (best == 0.0 || coords != [])
  {
    BestScan(p, |p.target| + 1, 1);
    var (best, coords) := Best(p);
    forall a: nat, b: nat | Interior(p, a, b) && (a, b) in coords ensures Cell(p, a, b) == best {
      var k :| 0 <= k < |coords| && coords[k] == (a, b);
    }
  }

  /** subseq/SmithWaterman.py fill_matrix: max_score starts as None, which
      every score exceeds under Python 2 ordering, and afterwards only a
      strictly larger score moves it and its cell. */
  type LegacyState = Option<(real, (nat, nat))>

  function LegacyStep(st: LegacyState, c: real, i: nat, j: nat): LegacyState {
    match st
    case None => Some((c, (i, j)))
    case Some((best, _)) => if c > best then Some((c, (i, j))) else st
  }

  /** The state of the subseq/SmithWaterman.py fill after the cells before
      (i, j). */
  function LegacyAt(p: Problem, i: nat, j: nat): LegacyState
    requires 1 <= i <= |p.target| + 1 && 1 <= j <= |p.sequence| + 1
    requires i == |p.target| + 1 ==> j == 1
    decreases i, j
  {
    if j > 1 then LegacyStep(LegacyAt(p, i, j - 1), Cell(p, i, j - 1), i, j - 1)
    else if i > 1 then LegacyAt(p, i - 1, |p.sequence| + 1)
    else None
  }

  /** max_score and max_score_cord after the whole fill; None when the matrix
      has no interior cell. */
  function LegacyBest(p: Problem): LegacyState {
    LegacyAt(p, |p.target| + 1, 1)
  }

  ghost predicate LegacySoFar(p: Problem, st: LegacyState, i: nat, j: nat) {
    && (st.None? <==> (i == 1 && j == 1) || |p.sequence| == 0)
    && (st.Some? ==>
          var (best, (bi, bj)) := st.value;
          && Interior(p, bi, bj) && Before(bi, bj, i, j) && Cell(p, bi, bj) == best
          && (forall a: nat, b: nat :: Interior(p, a, b) && Before(a, b, i, j) ==> Cell(p, a, b) <= best)
          && (forall a: nat, b: nat :: Interior(p, a, b) && Before(a, b, bi, bj) ==> Cell(p, a, b) < best))
  }

  lemma LegacyStepKeeps(p: Problem, st: LegacyState, i: nat, j: nat)
    requires Interior(p, i, j)
    requires LegacySoFar(p, st, i, j)
    ensures LegacySoFar(p, LegacyStep(st, Cell(p, i, j), i, j), i, j + 1)
  {
  }

  lemma LegacyNextRow(p: Problem, st: LegacyState, i: nat)
    requires 1 <= i <= |p.target|
    requires LegacySoFar(p, st, i, |p.sequence| + 1)
    ensures LegacySoFar(p, st, i + 1, 1)
  {
  }

  lemma LegacyScanColumn(p: Problem, i: nat, j: nat)
    requires 1 <= i <= |p.target| && 1 < j <= |p.sequence| + 1
    requires LegacySoFar(p, LegacyAt(p, i, j - 1), i, j - 1)
    ensures LegacySoFar(p, LegacyAt(p, i, j), i, j)
  {
    LegacyStepKeeps(p, LegacyAt(p, i, j - 1), i, j - 1);
  }

  lemma LegacyScanRow(p: Problem, i: nat)
    requires 1 < i <= |p.target| + 1
    requires LegacySoFar(p, LegacyAt(p, i - 1, |p.sequence| + 1), i - 1, |p.sequence| + 1)
    ensures LegacySoFar(p, LegacyAt(p, i, 1), i, 1)
  {
    LegacyNextRow(p, LegacyAt(p, i - 1, |p.sequence| + 1), i - 1);
  }

  lemma {:induction false} LegacyScan(p: Problem, i: nat, j: nat)
    requires 1 <= i <= |p.target| + 1 && 1 <= j <= |p.sequence| + 1
    requires i == |p.target| + 1 ==> j == 1
    ensures LegacySoFar(p, LegacyAt(p, i, j), i, j)
    decreases i, j
  {
    if j > 1 {
      LegacyScan(p, i, j - 1);
      LegacyScanColumn(p, i, j);
    } else if i > 1 {
      LegacyScan(p, i - 1, |p.sequence| + 1);
      LegacyScanRow(p, i);
    }
  }

  /** With a non-empty target and subject, max_score_cord is the first cell,
      in row-major order, holding the largest score of the matrix; with an
      empty one there is no cell at all. */
  lemma LegacyIsFirstMaximum(p: Problem)
    ensures LegacyBest(p).None? <==> |p.target| == 0 || |p.sequence| == 0
    ensures LegacyBest(p).Some? ==>
      var (best, (bi, bj)) := LegacyBest(p).value;
      && Interior(p, bi, bj) && Cell(p, bi, bj) == best
      && (forall a: nat, b: nat :: Interior(p, a, b) ==> Cell(p, a, b) <= best)
      && (forall a: nat, b: nat :: Interior(p, a, b) && Before(a, b, bi, bj) ==> Cell(p, a, b) < best)
  {
    LegacyScan(p, |p.target| + 1, 1);
  }

  /** SWA fill_data: max_score starts at 0 with no cell, and only a strictly
      larger score moves it and its cell. */
  type SwaState = (real, Option<(nat, nat)>)

  function SwaStep(st: SwaState, c: real, i: nat, j: nat): SwaState {
    if c > st.0 then (c, Some((i, j))) else st
  }

  /** The state of the SWA fill after the cells before (i, j). */
  function SwaAt(p: Problem, i: nat, j: nat): SwaState
    requires 1 <= i <= |p.target| + 1 && 1 <= j <= |p.sequence| + 1
    requires i == |p.target| + 1 ==> j == 1
    decreases i, j
  {
    if j > 1 then SwaStep(SwaAt(p, i, j - 1), Cell(p, i, j - 1), i, j - 1)
    else if i > 1 then SwaAt(p, i - 1, |p.sequence| + 1)
    else (0.0, None)
  }

  /** max_score and max_score_cord after the whole fill. */
  function SwaBest(p: Problem): SwaState {
    SwaAt(p, |p.target| + 1, 1)
  }

  ghost predicate SwaSoFar(p: Problem, st: SwaState, i: nat, j: nat) {
    && st.0 >= 0.0
    && (forall a: nat, b: nat :: Interior(p, a, b) && Before(a, b, i, j) ==> Cell(p, a, b) <= st.0)
    && (st.1.None? <==> st.0 == 0.0)
    && (st.1.Some? ==>
          var (bi, bj) := st.1.value;
          && Interior(p, bi, bj) && Before(bi, bj, i, j) && Cell(p, bi, bj) == st.0
          && (forall a: nat, b: nat :: Interior(p, a, b) && Before(a, b, bi, bj) ==> Cell(p, a, b) < st.0))
  }

  lemma SwaStepKeeps(p: Problem, st: SwaState, i: nat, j: nat)
    requires Interior(p, i, j)
    requires SwaSoFar(p, st, i, j)
    ensures SwaSoFar(p, SwaStep(st, Cell(p, i, j), i, j), i, j + 1)
  {
  }

  lemma SwaNextRow(p: Problem, st: SwaState, i: nat)
    requires 1 <= i <= |p.target|
    requires SwaSoFar(p, st, i, |p.sequence| + 1)
    ensures SwaSoFar(p, st, i + 1, 1)
  {
  }

  lemma SwaScanColumn(p: Problem, i: nat, j: nat)
    requires 1 <= i <= |p.target| && 1 < j <= |p.sequence| + 1
    requires SwaSoFar(p, SwaAt(p, i, j - 1), i, j - 1)
    ensures SwaSoFar(p, SwaAt(p, i, j), i, j)
  {
    SwaStepKeeps(p, SwaAt(p, i, j - 1), i, j - 1);
  }

  lemma SwaScanRow(p: Problem, i: nat)
    requires 1 < i <= |p.target| + 1
    requires SwaSoFar(p, SwaAt(p, i - 1, |p.sequence| + 1), i - 1, |p.sequence| + 1)
    ensures SwaSoFar(p, SwaAt(p, i, 1), i, 1)
  {
    SwaNextRow(p, SwaAt(p, i - 1, |p.sequence| + 1), i - 1);
  }

  lemma {:induction false} SwaScan(p: Problem, i: nat, j: nat)
    requires 1 <= i <= |p.target| + 1 && 1 <= j <= |p.sequence| + 1
    requires i == |p.target| + 1 ==> j == 1
    ensures SwaSoFar(p, SwaAt(p, i, j), i, j)
    decreases i, j
  {
    if j > 1 {
      SwaScan(p, i, j - 1);
      SwaScanColumn(p, i, j);
    } else if i > 1 {
      SwaScan(p, i - 1, |p.sequence| + 1);
      SwaScanRow(p, i);
    }
  }

  /** max_score is the largest cell of the matrix; max_score_cord is None
      exactly when no cell is positive, and otherwise the first cell, in
      row-major order, holding max_score. */
  lemma SwaIsFirstMaximum(p: Problem)
    ensures var (best, cord) := SwaBest(p);
      && best >= 0.0
      && (forall a: nat, b: nat :: Interior(p, a, b) ==> Cell(p, a, b) <= best)
      && (cord.None? <==> forall a: nat, b: nat :: Interior(p, a, b) ==> Cell(p, a, b) == 0.0)
      && (cord.Some? ==>
            && Interior(p, cord.value.0, cord.value.1) && Cell(p, cord.value.0, cord.value.1) == best
            && (forall a: nat, b: nat :: Interior(p, a, b) && Before(a, b, cord.value.0, cord.value.1) ==> Cell(p, a, b) < best))
  {
    SwaScan(p, |p.target| + 1, 1);
  }
}
