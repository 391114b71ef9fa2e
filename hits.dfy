/** What the three search drivers have in common: the (model, chain, resi)
    triples they report, the run of residue ids a match or an alignment
    stands for, the exceptions the substitution-matrix lookups of an aligner
    raise, and the exceptions print_alignment raises before it prints a
    block. */
module Hits {
  import opened Wrappers
  import opened Errors
  import opened Text
  import opened SubMatrix
  import opened DataIndex
  import LocalAlignment

  /** The alignment of target against the sequence of one chain, scored by
      int(sub_matrix[a, b]). */
  function ChainProblem(target: string, t: Table, d: Dialect, gap: real, e: Chain): LocalAlignment.Problem {
    LocalAlignment.Problem(target, e.sequence, gap, ScoreFn(t, d))
  }

  /** Every residue id is a decimal integer, as print_alignment needs. */
  predicate Numeric(ids: seq<string>) {
    forall x :: 0 <= x < |ids| ==> ParseInt(ids[x]).Some?
  }

  /** One entry of match_list. */
  datatype Hit = Hit(model: string, chain: string, resi: string)

  /** for _ in range(0, n): match_list.append((model, chain, ids[start_pos]));
      start_pos += 1 -- the ids from start on, n of them, or IndexError when
      they run past the end of ids. start is never negative here, so Python's
      negative indexing does not arise. */
  function Emit(model: string, chain: string, ids: seq<string>, start: nat, n: nat): (r: Result<seq<Hit>, Error>)
    ensures r.Ok? <==> n == 0 || start + n <= |ids|
    ensures r.Err? ==> r.error == IndexError
    ensures r.Ok? ==> |r.value| == n && forall k :: 0 <= k < n ==> r.value[k] == Hit(model, chain, ids[start + k])
  {
    if n == 0 then Ok([])
    else if start + n <= |ids| then Ok(seq(n, k requires 0 <= k < n => Hit(model, chain, ids[start + k])))
    else Err(IndexError)
  }

  /** h reports one of the residues ids[lo..hi]. */
  ghost predicate InRun(h: Hit, model: string, chain: string, ids: seq<string>, lo: int, hi: int) {
    exists x :: lo <= x < hi && 0 <= x < |ids| && h == Hit(model, chain, ids[x])
  }

  /** Every triple Emit reports is one of the ids it was asked for. */
  lemma EmitInRun(model: string, chain: string, ids: seq<string>, start: nat, n: nat, h: Hit)
    requires Emit(model, chain, ids, start, n).Ok? && h in Emit(model, chain, ids, start, n).value
    ensures InRun(h, model, chain, ids, start, start + n)
  {
    var r := Emit(model, chain, ids, start, n).value;
    var k :| 0 <= k < |r| && r[k] == h;
    assert h == Hit(model, chain, ids[start + k]);
  }

  /** What a scan step reports: its triples, and whether a first_only break
      ended the loop. found is put in front unless it fails. */
  function Then(found: seq<Hit>, r: Result<(seq<Hit>, bool), Error>): Result<(seq<Hit>, bool), Error> {
    if r.Err? then r else Ok((found + r.value.0, r.value.1))
  }

  lemma ThenThen(a: seq<Hit>, b: seq<Hit>, r: Result<(seq<Hit>, bool), Error>)
    ensures Then(a, Then(b, r)) == Then(a + b, r)
  {
    if r.Ok? {
      assert a + (b + r.value.0) == a + b + r.value.0;
    }
  }

  lemma ThenNothing(r: Result<(seq<Hit>, bool), Error>)
    ensures Then([], r) == r
  {
    if r.Ok? {
      assert [] + r.value.0 == r.value.0;
    }
  }

  /** found put in front of what a scan yields, unless it fails. */
  function Prefixed(found: seq<Hit>, r: Result<seq<Hit>, Error>): Result<seq<Hit>, Error> {
    if r.Err? then r else Ok(found + r.value)
  }

  lemma PrefixedPrefixed(a: seq<Hit>, b: seq<Hit>, r: Result<seq<Hit>, Error>)
    ensures Prefixed(a, Prefixed(b, r)) == Prefixed(a + b, r)
  {
    if r.Ok? {
      assert a + (b + r.value) == a + b + r.value;
    }
  }

  /** The loop itself, appending one id at a time. */
  method EmitRun(model: string, chain: string, ids: seq<string>, start: nat, n: nat) returns (r: Result<seq<Hit>, Error>)
    ensures r == Emit(model, chain, ids, start, n)
  {
    var run: seq<Hit> := [];
    var startPos := start;
    var k := 0;
    while k < n
      invariant k <= n && startPos == start + k
      invariant start + k <= |ids| || k == 0
      invariant |run| == k && forall l :: 0 <= l < k ==> run[l] == Hit(model, chain, ids[start + l])
    {
      if startPos >= |ids| {
        return Err(IndexError);
      }
      run := run + [Hit(model, chain, ids[startPos])];
      startPos := startPos + 1;
      k := k + 1;
    }
    assert run == Emit(model, chain, ids, start, n).value;
    return Ok(run);
  }

  /** The first lookup of one target character against the sequence that
      raises, left to right. */
  function RowPairError(t: Table, x: char, s: string, d: Dialect): (r: Option<Error>)
    ensures r.None? <==> forall j :: 0 <= j < |s| ==> Score(t, x, s[j], d).Ok?
    ensures r.Some? ==> exists j :: 0 <= j < |s| && Score(t, x, s[j], d) == Err(r.value)
  {
    if s == [] then None
    else if Score(t, x, s[0], d).Err? then Some(Score(t, x, s[0], d).error)
    else
      var r := RowPairError(t, x, s[1..], d);
      assert forall j :: 1 <= j < |s| ==> s[1..][j - 1] == s[j];
      r
  }

  /** What filling a score matrix for target against s raises: the first
      failing lookup int(sub_matrix[target[i-1], s[j-1]]) in row-major
      order, or nothing when the table covers every pair. */
  function PairError(t: Table, target: string, s: string, d: Dialect): (r: Option<Error>)
    ensures r.None? <==> Covers(t, target, s, d)
    ensures r.Some? ==> exists i, j :: 0 <= i < |target| && 0 <= j < |s| && Score(t, target[i], s[j], d) == Err(r.value)
  {
    if target == [] then None
    else
      match RowPairError(t, target[0], s, d)
      case Some(e) => Some(e)
      case None =>
        var r := PairError(t, target[1..], s, d);
        assert forall i :: 1 <= i < |target| ==> target[1..][i - 1] == target[i];
        r
  }

  /** What print_alignment raises before it writes a block, or None:
      alignment_score / max_score and identities / len(aligned_sequence)
      divide by zero when either is 0, and each block reads
      int(ids_list[index]), which raises IndexError past the end of the ids
      and ValueError on an id that is not a decimal integer. */
  function PrintError(alignedSubject: string, maxScore: int, index: nat, ids: seq<string>): (e: Option<Error>)
    ensures maxScore == 0 || alignedSubject == [] <==> e == Some(ZeroDivisionError)
    ensures e.None? <==> maxScore != 0 && alignedSubject != [] && index < |ids| && ParseInt(ids[index]).Some?
  {
    if maxScore == 0 || alignedSubject == [] then Some(ZeroDivisionError)
    else if index >= |ids| then Some(IndexError)
    else if ParseInt(ids[index]).None? then Some(ValueError)
    else None
  }
}
