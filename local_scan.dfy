/** The body of subseq_la_search for one chain (subseq.py, and its copy in
    subseq/subseq_local_alignment.py): the Smith–Waterman aligner for the
    chain's sequence, the minimum-score filter, and for every best cell the
    traceback, the residue ids its subject residues stand for, and the
    exceptions print_alignment raises. */
module LocalScan {
  import opened Wrappers
  import opened Errors
  import opened Text
  import opened Alignment
  import opened LocalAlignment
  import opened ScoreMatrices
  import SubMatrix
  import opened DataIndex
  import opened Hits
  import SW = SmithWaterman

  /** float(best_score) / max_score * 100 < min_score: the chain is skipped. */
  predicate BelowMinimum(best: real, maxScore: int, minScore: real)
    requires maxScore != 0
  {
    best / (maxScore as real) * 100.0 < minScore
  }

  /** start_j - 1: where the ids of a traceback from (i, j) begin. */
  function RunStart(p: Problem, i: nat, j: nat): (s: nat)
    requires Interior(p, i, j)
    ensures s < j
  {
    WalkFromStart(p, MovesOf(p, Current), i, j, [], []);
    Traceback(p, i, j).3 - 1
  }

  /** len(aligned_sequence.replace('-', '')): how many ids it reports. */
  function RunLength(p: Problem, i: nat, j: nat): nat
    requires Interior(p, i, j)
  {
    |Ungapped(Traceback(p, i, j).1)|
  }

  /** One best cell: the traceback, the ids from start_j - 1 on, then
      print_alignment, which reads ids[start_j - 1]. */
  function CellHits(p: Problem, maxScore: int, model: string, chain: string, ids: seq<string>, i: nat, j: nat): Result<seq<Hit>, Error>
    requires Interior(p, i, j)
  {
    var start := RunStart(p, i, j);
    var run := Emit(model, chain, ids, start, RunLength(p, i, j));
    if run.Err? then run
    else
      match PrintError(Traceback(p, i, j).1, maxScore, start, ids)
      case Some(err) => Err(err)
      case None => run
  }

  /** The outcome of the best cell (i, j). */
  type CellFn = (nat, nat) -> Result<seq<Hit>, Error>

  /** The outcome of every interior cell; no other cell is ever visited. */
  function CellsOf(p: Problem, maxScore: int, model: string, chain: string, ids: seq<string>): CellFn {
    (i: nat, j: nat) => if Interior(p, i, j) then CellHits(p, maxScore, model, chain, ids, i, j) else Ok([])
  }

  /** The loop over get_coordinates(), whatever each cell yields: each cell's
      ids in turn, and a break after the first under first_only. */
  function CoordsFrom(cell: CellFn, firstOnly: bool, coords: seq<(nat, nat)>): Result<(seq<Hit>, bool), Error> {
    if coords == [] then Ok(([], false))
    else
      match cell(coords[0].0, coords[0].1)
      case Err(err) => Err(err)
      case Ok(h) =>
        if firstOnly then Ok((h, true))
        else Then(h, CoordsFrom(cell, firstOnly, coords[1..]))
  }

  /** The loop over get_coordinates() on the cells of the matrix. */
  function CoordsHits(p: Problem, maxScore: int, firstOnly: bool, model: string, chain: string, ids: seq<string>, coords: seq<(nat, nat)>): Result<(seq<Hit>, bool), Error>
    requires forall k :: 0 <= k < |coords| ==> Interior(p, coords[k].0, coords[k].1)
  {
    CoordsFrom(CellsOf(p, maxScore, model, chain, ids), firstOnly, coords)
  }

  /** One chain of subseq_la_search: the fill raises on the first pair the
      table lacks; the filter divides by max_score; a chain below the minimum
      reports nothing; otherwise every best cell, or the first one under
      first_only, which also ends the model's chains. */
  function LocalChain(target: string, t: SubMatrix.Table, d: SubMatrix.Dialect, gap: real, minScore: real, maxScore: int,
                      firstOnly: bool, model: string, chain: string, e: Chain): Result<(seq<Hit>, bool), Error>
  {
    var p := ChainProblem(target, t, d, gap, e);
    match PairError(t, target, e.sequence, d)
    case Some(err) => Err(err)
    case None =>
      if maxScore == 0 then Err(ZeroDivisionError)
      else if BelowMinimum(Best(p).0, maxScore, minScore) then Ok(([], false))
      else
        BestIsMaximum(p);
        CoordsHits(p, maxScore, firstOnly, model, chain, e.ids, Best(p).1)
  }

  /** One pass of the loop over get_coordinates(): the traceback from (i, j),
      the ids it reports and the print_alignment call. */
  method CellRun(sw: SW.SmithWaterman, maxScore: int, model: string, chain: string, ids: seq<string>, i: nat, j: nat)
    returns (r: Result<seq<Hit>, Error>)
    requires Filled(sw.scoreMatrix, sw.Inputs()) && Interior(sw.Inputs(), i, j)
    ensures r == CellHits(sw.Inputs(), maxScore, model, chain, ids, i, j)
  {
    var alignedTarget, alignedSubject, startI, startJ := sw.GetTraceback(i, j);
    WalkFromStart(sw.Inputs(), MovesOf(sw.Inputs(), Current), i, j, [], []);
    r := EmitRun(model, chain, ids, startJ - 1, |Ungapped(alignedSubject)|);
    if r.Ok? {
      var printed := PrintError(alignedSubject, maxScore, startJ - 1, ids);
      if printed.Some? {
        r := Err(printed.value);
      }
    }
  }

  /** One pass of the loop over get_coordinates(), given the outcome c of
      the k-th cell: what has been found so far, followed by the rest. */
  lemma CoordsAdvance(cell: CellFn, firstOnly: bool, coords: seq<(nat, nat)>, k: nat, found: seq<Hit>, c: Result<seq<Hit>, Error>)
    requires k < |coords| && c == cell(coords[k].0, coords[k].1)
    requires CoordsFrom(cell, firstOnly, coords) == Then(found, CoordsFrom(cell, firstOnly, coords[k..]))
    ensures c.Err? ==> CoordsFrom(cell, firstOnly, coords) == Err(c.error)
    ensures c.Ok? && firstOnly ==> CoordsFrom(cell, firstOnly, coords) == Ok((found + c.value, true))
    ensures c.Ok? && !firstOnly ==> CoordsFrom(cell, firstOnly, coords)
                                    == Then(found + c.value, CoordsFrom(cell, firstOnly, coords[k + 1..]))
  {
    var rest := coords[k..];
    assert rest[0] == coords[k] && rest[1..] == coords[k + 1..];
    if c.Ok? {
      if firstOnly {
        assert CoordsFrom(cell, firstOnly, rest) == Ok((c.value, true));
      } else {
        ThenThen(found, c.value, CoordsFrom(cell, firstOnly, rest[1..]));
      }
    }
  }

  /** The loop over get_coordinates() itself; cell is the outcome of each
      best cell, as CellRun computes it. */
  method CoordsRun(sw: SW.SmithWaterman, maxScore: int, firstOnly: bool, model: string, chain: string, ids: seq<string>,
                   coords: seq<(nat, nat)>, ghost cell: CellFn) returns (r: Result<(seq<Hit>, bool), Error>)
    requires Filled(sw.scoreMatrix, sw.Inputs())
    requires forall k :: 0 <= k < |coords| ==> Interior(sw.Inputs(), coords[k].0, coords[k].1)
    requires forall i: nat, j: nat {:trigger CellHits(sw.Inputs(), maxScore, model, chain, ids, i, j)} ::
      Interior(sw.Inputs(), i, j) ==> cell(i, j) == CellHits(sw.Inputs(), maxScore, model, chain, ids, i, j)
    ensures r == CoordsFrom(cell, firstOnly, coords)
  {
    var found: seq<Hit> := [];
    var k := 0;
    ThenNothing(CoordsFrom(cell, firstOnly, coords));
    assert coords[0..] == coords;
    while k < |coords|
      invariant k <= |coords| && (firstOnly ==> k == 0)
      invariant CoordsFrom(cell, firstOnly, coords) == Then(found, CoordsFrom(cell, firstOnly, coords[k..]))
    {
      var (i, j) := coords[k];
      var run := CellRun(sw, maxScore, model, chain, ids, i, j);
      CoordsAdvance(cell, firstOnly, coords, k, found, run);
      if run.Err? {
        return Err(run.error);
      }
      if firstOnly {
        assert found == [];
        return Ok((run.value, true));
      }
      found := found + run.value;
      k := k + 1;
    }
    assert coords[k..] == [];
    assert found + [] == found;
    return Ok((found, false));
  }

  /** The body of subseq_la_search for one chain, with the SmithWaterman class. */
  method LocalChainRun(target: string, t: SubMatrix.Table, d: SubMatrix.Dialect, gap: real, minScore: real, maxScore: int,
                       firstOnly: bool, model: string, chain: string, e: Chain) returns (r: Result<(seq<Hit>, bool), Error>)
    ensures r == LocalChain(target, t, d, gap, minScore, maxScore, firstOnly, model, chain, e)
  {
    var err := PairError(t, target, e.sequence, d);
    if err.Some? {
      return Err(err.value);
    }
    var sw := new SW.SmithWaterman(target, e.sequence, gap, SubMatrix.ScoreFn(t, d));
    if maxScore == 0 {
      return Err(ZeroDivisionError);
    }
    if sw.bestScore / (maxScore as real) * 100.0 < minScore {
      return Ok(([], false));
    }
    BestIsMaximum(sw.Inputs());
    r := CoordsRun(sw, maxScore, firstOnly, model, chain, e.ids, sw.bestScoreCoordinates,
                   CellsOf(sw.Inputs(), maxScore, model, chain, e.ids));
  }

  // ---------------------------------------------------------------- lemmas

  /** With no gap character in either sequence, the ids a traceback from
      (i, j) reports are those of sequence[start_j - 1:j], the subject
      residues it aligns, one id per residue and in order. */
  lemma RunIsSubject(p: Problem, i: nat, j: nat)
    requires Interior(p, i, j) && Gap !in p.target && Gap !in p.sequence
    ensures RunStart(p, i, j) + RunLength(p, i, j) == j
    ensures p.sequence[RunStart(p, i, j)..j] == Ungapped(Traceback(p, i, j).1)
  {
    TracebackShape(p, Current, i, j);
  }

  /** h is one of the ids the traceback from cell reports. */
  ghost predicate InCell(h: Hit, p: Problem, model: string, chain: string, ids: seq<string>, cell: (nat, nat)) {
    Interior(p, cell.0, cell.1)
    && InRun(h, model, chain, ids, RunStart(p, cell.0, cell.1), RunStart(p, cell.0, cell.1) + RunLength(p, cell.0, cell.1))
  }

  /** A cell that succeeds reports exactly the ids of its run. */
  lemma CellHitsMembers(p: Problem, maxScore: int, model: string, chain: string, ids: seq<string>, i: nat, j: nat, h: Hit)
    requires Interior(p, i, j) && CellHits(p, maxScore, model, chain, ids, i, j).Ok?
    ensures h in CellHits(p, maxScore, model, chain, ids, i, j).value <==> InCell(h, p, model, chain, ids, (i, j))
  {
    var start, n := RunStart(p, i, j), RunLength(p, i, j);
    var run := CellHits(p, maxScore, model, chain, ids, i, j).value;
    if h in run {
      EmitInRun(model, chain, ids, start, n, h);
    }
    if InCell(h, p, model, chain, ids, (i, j)) {
      var x :| start <= x < start + n && 0 <= x < |ids| && h == Hit(model, chain, ids[x]);
      assert run[x - start] == h;
    }
  }

  /** When the run fits in ids, every id is numeric and max_score is not 0,
      a cell raises nothing: its subject keeps at least the residue of its
      first column, and start_j - 1 lies inside ids. */
  lemma CellHitsOk(p: Problem, maxScore: int, model: string, chain: string, ids: seq<string>, i: nat, j: nat)
    requires Interior(p, i, j) && Gap !in p.target && Gap !in p.sequence
    requires maxScore != 0 && |ids| >= |p.sequence| && Numeric(ids)
    ensures CellHits(p, maxScore, model, chain, ids, i, j).Ok?
    ensures |CellHits(p, maxScore, model, chain, ids, i, j).value| == j - RunStart(p, i, j)
  {
    RunIsSubject(p, i, j);
    var tb := Traceback(p, i, j);
    assert RunLength(p, i, j) >= 1;
    assert |tb.1| >= 1;
  }

  /** The ids a run of best cells reports are exactly those of the cells it
      visits: all of them, or the first one under first_only. The loop stops
      early exactly when first_only meets a cell. */
  lemma {:induction false} CoordsHitsMembers(p: Problem, maxScore: int, firstOnly: bool, model: string, chain: string,
                                             ids: seq<string>, coords: seq<(nat, nat)>, h: Hit)
    requires forall k :: 0 <= k < |coords| ==> Interior(p, coords[k].0, coords[k].1)
    requires CoordsHits(p, maxScore, firstOnly, model, chain, ids, coords).Ok?
    ensures CoordsHits(p, maxScore, firstOnly, model, chain, ids, coords).value.1 <==> firstOnly && coords != []
    ensures h in CoordsHits(p, maxScore, firstOnly, model, chain, ids, coords).value.0
        <==> exists k :: 0 <= k < |coords| && (firstOnly ==> k == 0) && InCell(h, p, model, chain, ids, coords[k])
    decreases |coords|
  {
    if coords != [] {
      var (i, j) := coords[0];
      CellHitsMembers(p, maxScore, model, chain, ids, i, j, h);
      if !firstOnly {
        var rest := coords[1..];
        CoordsHitsMembers(p, maxScore, firstOnly, model, chain, ids, rest, h);
        if exists k :: 0 <= k < |coords| && InCell(h, p, model, chain, ids, coords[k]) {
          var k :| 0 <= k < |coords| && InCell(h, p, model, chain, ids, coords[k]);
          if k > 0 {
            assert rest[k - 1] == coords[k];
          }
        }
        if exists k :: 0 <= k < |rest| && InCell(h, p, model, chain, ids, rest[k]) {
          var k :| 0 <= k < |rest| && InCell(h, p, model, chain, ids, rest[k]);
          assert coords[k + 1] == rest[k];
        }
      }
    }
  }

  /** Under the same conditions as CellHitsOk for every best cell, the loop
      over the cells raises nothing. */
  lemma {:induction false} CoordsHitsOk(p: Problem, maxScore: int, firstOnly: bool, model: string, chain: string,
                                        ids: seq<string>, coords: seq<(nat, nat)>)
    requires forall k :: 0 <= k < |coords| ==> Interior(p, coords[k].0, coords[k].1)
    requires Gap !in p.target && Gap !in p.sequence
    requires maxScore != 0 && |ids| >= |p.sequence| && Numeric(ids)
    ensures CoordsHits(p, maxScore, firstOnly, model, chain, ids, coords).Ok?
    ensures coords != [] ==> CoordsHits(p, maxScore, firstOnly, model, chain, ids, coords).value.0 != []
    decreases |coords|
  {
    if coords != [] {
      CellHitsOk(p, maxScore, model, chain, ids, coords[0].0, coords[0].1);
      if !firstOnly {
        CoordsHitsOk(p, maxScore, firstOnly, model, chain, ids, coords[1..]);
      }
    }
  }

  /** What one chain of subseq_la_search reports: the ids of the best cells'
      tracebacks (only the first cell's under first_only), and nothing when
      the best score falls below min_score percent of max_score. The best
      cells are those holding the largest score of the matrix, in row-major
      order. */
  lemma LocalChainMembers(target: string, t: SubMatrix.Table, d: SubMatrix.Dialect, gap: real, minScore: real, maxScore: int,
                          firstOnly: bool, model: string, chain: string, e: Chain, h: Hit)
    requires LocalChain(target, t, d, gap, minScore, maxScore, firstOnly, model, chain, e).Ok?
    ensures var p := ChainProblem(target, t, d, gap, e);
      var coords := Best(p).1;
      h in LocalChain(target, t, d, gap, minScore, maxScore, firstOnly, model, chain, e).value.0
      <==> !BelowMinimum(Best(p).0, maxScore, minScore)
           && exists k :: 0 <= k < |coords| && (firstOnly ==> k == 0) && InCell(h, p, model, chain, e.ids, coords[k])
  {
    var p := ChainProblem(target, t, d, gap, e);
    BestIsMaximum(p);
    if !BelowMinimum(Best(p).0, maxScore, minScore) {
      CoordsHitsMembers(p, maxScore, firstOnly, model, chain, e.ids, Best(p).1, h);
    }
  }

  /** The errors of one chain, in the order the source meets them: the
      first pair the table lacks or cannot convert, then a max_score of 0. */
  lemma LocalChainErrors(target: string, t: SubMatrix.Table, d: SubMatrix.Dialect, gap: real, minScore: real, maxScore: int,
                         firstOnly: bool, model: string, chain: string, e: Chain)
    ensures var r := LocalChain(target, t, d, gap, minScore, maxScore, firstOnly, model, chain, e);
      && (!SubMatrix.Covers(t, target, e.sequence, d) ==>
            (r.Err? && r.error != ZeroDivisionError
             && exists i, j :: 0 <= i < |target| && 0 <= j < |e.sequence|
                  && SubMatrix.Score(t, target[i], e.sequence[j], d) == Err(r.error)))
      && (SubMatrix.Covers(t, target, e.sequence, d) && maxScore == 0 ==> r == Err(ZeroDivisionError))
  {
    var pe := PairError(t, target, e.sequence, d);
    if pe.Some? {
      var i, j :| 0 <= i < |target| && 0 <= j < |e.sequence| && SubMatrix.Score(t, target[i], e.sequence[j], d) == Err(pe.value);
      assert pe.value != ZeroDivisionError by {
        var a, b := target[i], e.sequence[j];
        assert SubMatrix.Lookup(t, [a], [b], d).Err? || SubMatrix.Score(t, a, b, d).error == ValueError;
      }
    }
  }

  /** When the table covers the pairs, max_score is not 0, neither sequence
      holds a gap character, every id is numeric and there is an id for each
      residue, a chain raises nothing; it reports something exactly when it
      passes the filter and both sequences are non-empty, and it ends the
      model's chains exactly when it also runs under first_only. */
  lemma LocalChainOk(target: string, t: SubMatrix.Table, d: SubMatrix.Dialect, gap: real, minScore: real, maxScore: int,
                     firstOnly: bool, model: string, chain: string, e: Chain)
    requires SubMatrix.Covers(t, target, e.sequence, d) && maxScore != 0
    requires Gap !in target && Gap !in e.sequence && |e.ids| >= |e.sequence| && Numeric(e.ids)
    ensures var r := LocalChain(target, t, d, gap, minScore, maxScore, firstOnly, model, chain, e);
      var passes := !BelowMinimum(Best(ChainProblem(target, t, d, gap, e)).0, maxScore, minScore)
                    && target != [] && e.sequence != [];
      r.Ok? && (r.value.0 != [] <==> passes) && (r.value.1 <==> firstOnly && passes)
  {
    var p := ChainProblem(target, t, d, gap, e);
    BestIsMaximum(p);
    var (best, coords) := Best(p);
    if !BelowMinimum(best, maxScore, minScore) {
      CoordsHitsOk(p, maxScore, firstOnly, model, chain, e.ids, coords);
      CoordsHitsMembers(p, maxScore, firstOnly, model, chain, e.ids, coords, Hit(model, chain, ""));
      if target != [] && e.sequence != [] {
        assert Interior(p, 1, 1);
        assert coords != [] by {
          if best == 0.0 {
            assert Cell(p, 1, 1) == best;
          }
        }
      }
    }
  }
}
