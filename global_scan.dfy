/** The body of subseq_ga_search for one chain: subseq.py aligns every chain,
    subseq/subseq_global_alignment.py first skips a chain whose score falls
    below min_score percent of max_score. Then the Needleman–Wunsch
    traceback, the removal of trailing target gaps, the residue ids of the
    subject from start_j on, and the exceptions print_alignment raises. */
module GlobalScan {
  import opened Wrappers
  import opened Errors
  import opened Alignment
  import opened LocalAlignment
  import opened GlobalAlignment
  import SubMatrix
  import opened DataIndex
  import opened Hits
  import NW = NeedlemanWunsch

  // ------------------------------------------------------- trailing gaps

  /** s[:-1], which leaves an empty string empty. */
  function DropLast(s: string): (r: string)
    ensures |r| == if s == [] then 0 else |s| - 1
  {
    if s == [] then [] else s[..|s| - 1]
  }

  /** while aligned_target[-1] is '-': drop the last column of both strings.
      None where aligned_target runs out, and [-1] raises IndexError. */
  function Trim(alignedTarget: string, alignedSubject: string): Option<(string, string)>
    decreases |alignedTarget|
  {
    if alignedTarget == [] then None
    else if alignedTarget[|alignedTarget| - 1] == Gap then Trim(DropLast(alignedTarget), DropLast(alignedSubject))
    else Some((alignedTarget, alignedSubject))
  }

  /** How many gaps end s. */
  function TrailingGaps(s: string): (g: nat)
    ensures g <= |s|
  {
    if s != [] && s[|s| - 1] == Gap then 1 + TrailingGaps(s[..|s| - 1]) else 0
  }

  /** The loop itself. */
  method TrimTrailingGaps(alignedTarget: string, alignedSubject: string) returns (r: Option<(string, string)>)
    ensures r == Trim(alignedTarget, alignedSubject)
  {
    var at, sb := alignedTarget, alignedSubject;
    while at != [] && at[|at| - 1] == Gap
      invariant Trim(at, sb) == Trim(alignedTarget, alignedSubject)
      decreases |at|
    {
      at := at[..|at| - 1];
      sb := DropLast(sb);
    }
    if at == [] {
      return None;
    }
    return Some((at, sb));
  }

  /** The loop removes exactly the trailing gaps of the aligned target, and
      as many last characters of the aligned subject; the target it keeps
      ends in a residue. It raises exactly when the aligned target is all
      gaps. */
  lemma {:induction false} TrimSpec(alignedTarget: string, alignedSubject: string)
    ensures var g := TrailingGaps(alignedTarget);
      var n := |alignedTarget|;
      && (forall k :: n - g <= k < n ==> alignedTarget[k] == Gap)
      && (g < n ==> alignedTarget[n - g - 1] != Gap)
      && (Trim(alignedTarget, alignedSubject).Some? <==> g < n)
      && (g < n ==> Trim(alignedTarget, alignedSubject).value
                    == (alignedTarget[..n - g], alignedSubject[..if |alignedSubject| >= g then |alignedSubject| - g else 0]))
    decreases |alignedTarget|
  {
    var at, sb := alignedTarget, alignedSubject;
    var n := |at|;
    if at != [] && at[n - 1] == Gap {
      var at', sb' := DropLast(at), DropLast(sb);
      TrimSpec(at', sb');
      var g' := TrailingGaps(at');
      assert TrailingGaps(at) == g' + 1;
      assert forall k :: 0 <= k < n - 1 ==> at'[k] == at[k];
      if g' < n - 1 {
        assert at'[..n - 1 - g'] == at[..n - (g' + 1)];
        if |sb| >= g' + 1 {
          assert sb'[..|sb'| - g'] == sb[..|sb| - (g' + 1)];
        } else {
          assert |sb'| < g' || |sb'| == g';
        }
      }
    } else {
      assert at[..n] == at;
      if |sb| >= 0 {
        assert sb[..|sb|] == sb;
      }
    }
  }

  // ------------------------------------------------------------ one chain

  /** max(float(score) / max_score * 100, 0) */
  function Percentage(score: real, maxScore: int): real
    requires maxScore != 0
  {
    var x := score / (maxScore as real) * 100.0;
    if 0.0 > x then 0.0 else x
  }

  /** Whether a chain with this alignment score gets past the minimum-score
      filter; there is none in subseq.py (filter None). */
  predicate Passes(score: real, maxScore: int, filter: Option<real>) {
    filter.None? || (maxScore != 0 && !(Percentage(score, maxScore) < filter.value))
  }

  /** What follows get_traceback: the trailing gaps go, the ids from start_j
      on are reported, print_alignment reads ids[start_j]. */
  function TracedHits(tb: (string, string, nat, nat), maxScore: int, firstOnly: bool, model: string, chain: string,
                      ids: seq<string>): Result<(seq<Hit>, bool), Error>
  {
    match Trim(tb.0, tb.1)
    case None => Err(IndexError)
    case Some(trimmed) =>
      var run := Emit(model, chain, ids, tb.3, |Ungapped(trimmed.1)|);
      if run.Err? then Err(run.error)
      else
        match PrintError(trimmed.1, maxScore, tb.3, ids)
        case Some(err) => Err(err)
        case None => Ok((run.value, firstOnly))
  }

  /** One chain of subseq_ga_search. filter is min_score in the copy that
      applies it, None in subseq.py. The stop flag is first_only: its break
      ends the whole search, not just the model. Every pair is read with
      int() before the fill; the source's fill reads pairs with float(), so
      the two agree on tables whose entries are integers. */
  function GlobalChain(target: string, t: SubMatrix.Table, d: SubMatrix.Dialect, gap: real, filter: Option<real>, maxScore: int,
                       firstOnly: bool, model: string, chain: string, e: Chain): Result<(seq<Hit>, bool), Error>
  {
    var p := ChainProblem(target, t, d, gap, e);
    match PairError(t, target, e.sequence, d)
    case Some(err) => Err(err)
    case None =>
      if filter.Some? && maxScore == 0 then Err(ZeroDivisionError)
      else if !Passes(NwCell(p, |target|, |e.sequence|), maxScore, filter) then Ok(([], false))
      else if target == [] || e.sequence == [] then Err(IndexError)
      else TracedHits(NwTraceback(p), maxScore, firstOnly, model, chain, e.ids)
  }

  /** The same with the NeedlemanWunsch class. */
  method GlobalChainRun(target: string, t: SubMatrix.Table, d: SubMatrix.Dialect, gap: real, filter: Option<real>, maxScore: int,
                        firstOnly: bool, model: string, chain: string, e: Chain) returns (r: Result<(seq<Hit>, bool), Error>)
    ensures r == GlobalChain(target, t, d, gap, filter, maxScore, firstOnly, model, chain, e)
  {
    var err := PairError(t, target, e.sequence, d);
    if err.Some? {
      return Err(err.value);
    }
    var nw := new NW.NeedlemanWunsch(target, e.sequence, gap, SubMatrix.ScoreFn(t, d));
    if filter.Some? {
      var score := nw.GetAlignmentScore();
      if maxScore == 0 {
        return Err(ZeroDivisionError);
      }
      var percentage := score / (maxScore as real) * 100.0;
      if 0.0 > percentage {
        percentage := 0.0;
      }
      if percentage < filter.value {
        return Ok(([], false));
      }
    }
    var traced := nw.GetTraceback();
    if traced.Err? {
      return Err(traced.error);
    }
    var (alignedTarget, alignedSubject, startI, startJ) := traced.value;
    var trimmed := TrimTrailingGaps(alignedTarget, alignedSubject);
    if trimmed.None? {
      return Err(IndexError);
    }
    var run := EmitRun(model, chain, e.ids, startJ, |Ungapped(trimmed.value.1)|);
    if run.Err? {
      return Err(run.error);
    }
    var printed := PrintError(trimmed.value.1, maxScore, startJ, e.ids);
    if printed.Some? {
      return Err(printed.value);
    }
    return Ok((run.value, firstOnly));
  }

  // ---------------------------------------------------------------- lemmas

  /** For any alignment of s whose subject, gaps aside, is s[sj:], the
      trimmed strings have equal, non-zero length and the subject residues
      they keep are s[sj:sj + n]. */
  lemma TrimmedIsSubject(t: string, s: string, tb: (string, string, nat, nat), trimmed: (string, string))
    requires GlobalSpans(t, s, tb, |t|, |s|)
    requires Trim(tb.0, tb.1) == Some(trimmed)
    ensures && |trimmed.0| == |trimmed.1| > 0
            && tb.3 + |Ungapped(trimmed.1)| <= |s|
            && s[tb.3..tb.3 + |Ungapped(trimmed.1)|] == Ungapped(trimmed.1)
  {
    TrimSpec(tb.0, tb.1);
    var g := TrailingGaps(tb.0);
    var kept := |tb.1| - g;
    assert tb.1 == trimmed.1 + tb.1[kept..];
    UngappedAppend(trimmed.1, tb.1[kept..]);
    var u, w := Ungapped(trimmed.1), Ungapped(tb.1[kept..]);
    assert s[tb.3..|s|] == u + w;
    assert |u| <= |s| - tb.3;
    forall k | 0 <= k < |u| ensures s[tb.3 + k] == u[k] {
      assert s[tb.3 + k] == s[tb.3..|s|][k] == (u + w)[k];
    }
    assert s[tb.3..tb.3 + |u|] == u;
  }

  /** What a chain whose traceback is tb reports against the sequence s: it
      raises exactly when the aligned target is all gaps or start_j == len(s),
      where print_alignment reads ids[start_j]; otherwise it reports, in
      order, the ids of the n subject residues s[start_j:start_j + n] the
      trimmed alignment keeps, and stops the search exactly under
      first_only. */
  ghost predicate Reports(r: Result<(seq<Hit>, bool), Error>, tb: (string, string, nat, nat), s: string, firstOnly: bool,
                          model: string, chain: string, ids: seq<string>)
  {
    var trimmed := Trim(tb.0, tb.1);
    && (r.Ok? <==> trimmed.Some? && tb.3 < |s|)
    && (r.Ok? ==> var n := |Ungapped(trimmed.value.1)|;
                  && r.value.1 == firstOnly
                  && tb.3 + n <= |s| && s[tb.3..tb.3 + n] == Ungapped(trimmed.value.1)
                  && |r.value.0| == n && tb.3 + n <= |ids|
                  && forall k :: 0 <= k < n ==> r.value.0[k] == Hit(model, chain, ids[tb.3 + k]))
  }

  /** What follows get_traceback, given one numeric id per residue. */
  lemma TracedOutcome(t: string, s: string, tb: (string, string, nat, nat), maxScore: int, firstOnly: bool,
                      model: string, chain: string, ids: seq<string>)
    requires GlobalSpans(t, s, tb, |t|, |s|) && maxScore != 0 && |ids| == |s| && Numeric(ids)
    ensures Reports(TracedHits(tb, maxScore, firstOnly, model, chain, ids), tb, s, firstOnly, model, chain, ids)
  {
    var trimmed := Trim(tb.0, tb.1);
    if trimmed.Some? {
      TrimmedIsSubject(t, s, tb, trimmed.value);
    }
  }

  /** The errors of one chain, in the order the source meets them: the
      first pair the table lacks or cannot convert, the filter's division by
      a max_score of 0, and get_traceback on an empty sequence. */
  lemma GlobalChainErrors(target: string, t: SubMatrix.Table, d: SubMatrix.Dialect, gap: real, filter: Option<real>, maxScore: int,
                          firstOnly: bool, model: string, chain: string, e: Chain)
    ensures var r := GlobalChain(target, t, d, gap, filter, maxScore, firstOnly, model, chain, e);
      && (!SubMatrix.Covers(t, target, e.sequence, d) ==>
            (r.Err? && exists i, j :: 0 <= i < |target| && 0 <= j < |e.sequence|
                                      && SubMatrix.Score(t, target[i], e.sequence[j], d) == Err(r.error)))
      && (SubMatrix.Covers(t, target, e.sequence, d) && filter.Some? && maxScore == 0 ==> r == Err(ZeroDivisionError))
      && (SubMatrix.Covers(t, target, e.sequence, d) && filter.None? && (target == [] || e.sequence == []) ==> r == Err(IndexError))
  {
  }

  /** A chain whose alignment score fails the filter reports nothing and
      lets the search go on. */
  lemma GlobalChainFiltered(target: string, t: SubMatrix.Table, d: SubMatrix.Dialect, gap: real, filter: Option<real>, maxScore: int,
                            firstOnly: bool, model: string, chain: string, e: Chain)
    requires SubMatrix.Covers(t, target, e.sequence, d) && maxScore != 0
    requires !Passes(NwCell(ChainProblem(target, t, d, gap, e), |target|, |e.sequence|), maxScore, filter)
    ensures filter.Some?
    ensures GlobalChain(target, t, d, gap, filter, maxScore, firstOnly, model, chain, e) == Ok(([], false))
  {
  }

  /** What one chain that passes the filter reports (see Reports) when the
      table covers its pairs, max_score is not 0, neither sequence is empty
      or holds a gap character and there is one numeric id per residue. */
  lemma GlobalChainOutcome(target: string, t: SubMatrix.Table, d: SubMatrix.Dialect, gap: real, filter: Option<real>, maxScore: int,
                           firstOnly: bool, model: string, chain: string, e: Chain)
    requires SubMatrix.Covers(t, target, e.sequence, d) && maxScore != 0
    requires Passes(NwCell(ChainProblem(target, t, d, gap, e), |target|, |e.sequence|), maxScore, filter)
    requires target != [] && e.sequence != []
    requires Gap !in target && Gap !in e.sequence && |e.ids| == |e.sequence| && Numeric(e.ids)
    ensures Reports(GlobalChain(target, t, d, gap, filter, maxScore, firstOnly, model, chain, e),
                    NwTraceback(ChainProblem(target, t, d, gap, e)), e.sequence, firstOnly, model, chain, e.ids)
  {
    var p := ChainProblem(target, t, d, gap, e);
    NwTracebackShape(p);
    TracedOutcome(target, e.sequence, NwTraceback(p), maxScore, firstOnly, model, chain, e.ids);
    GlobalChainTraced(target, t, d, gap, filter, maxScore, firstOnly, model, chain, e);
  }

  lemma GlobalChainTraced(target: string, t: SubMatrix.Table, d: SubMatrix.Dialect, gap: real, filter: Option<real>, maxScore: int,
                          firstOnly: bool, model: string, chain: string, e: Chain)
    requires SubMatrix.Covers(t, target, e.sequence, d) && maxScore != 0
    requires Passes(NwCell(ChainProblem(target, t, d, gap, e), |target|, |e.sequence|), maxScore, filter)
    requires target != [] && e.sequence != []
    ensures GlobalChain(target, t, d, gap, filter, maxScore, firstOnly, model, chain, e)
         == TracedHits(NwTraceback(ChainProblem(target, t, d, gap, e)), maxScore, firstOnly, model, chain, e.ids)
  {
  }

  /** Every triple a chain reports names that model, that chain and one of
      the chain's residue ids, whatever the inputs. */
  lemma GlobalChainTagged(target: string, t: SubMatrix.Table, d: SubMatrix.Dialect, gap: real, filter: Option<real>, maxScore: int,
                          firstOnly: bool, model: string, chain: string, e: Chain, h: Hit)
    requires GlobalChain(target, t, d, gap, filter, maxScore, firstOnly, model, chain, e).Ok?
    requires h in GlobalChain(target, t, d, gap, filter, maxScore, firstOnly, model, chain, e).value.0
    ensures InRun(h, model, chain, e.ids, 0, |e.ids|)
  {
    var p := ChainProblem(target, t, d, gap, e);
    var tb := NwTraceback(p);
    var r := GlobalChain(target, t, d, gap, filter, maxScore, firstOnly, model, chain, e);
    var traced := TracedHits(tb, maxScore, firstOnly, model, chain, e.ids);
    assert r == traced || r == Ok(([], false));
    if r == traced {
      var trimmed := Trim(tb.0, tb.1).value;
      EmitInRun(model, chain, e.ids, tb.3, |Ungapped(trimmed.1)|, h);
    }
  }
}
