/** The alignment statistics of subseq/alignment.py (copied in subseq.py):
    the best score a target can reach, the match/mismatch/gap string of an
    alignment, and the residue numbers printed beside each 60-column block. */
module Alignment {
  import opened Wrappers
  import opened Errors
  import opened Text
  import opened SubMatrix

  /** The gap character of aligned strings. */
  const Gap: char := '-'

  /** An aligned string with its gaps removed. */
  function Ungapped(s: string): (r: string)
    ensures |r| <= |s|
    ensures Gap !in r
  {
    RemoveChars(s, {Gap})
  }

  lemma UngappedAppend(a: string, b: string)
    ensures Ungapped(a + b) == Ungapped(a) + Ungapped(b)
  {
    RemoveCharsAppend(a, b, {Gap});
  }

  /** A string without gaps is its own ungapped form. */
  lemma {:induction false} UngappedNoGap(s: string)
    requires Gap !in s
    ensures Ungapped(s) == s
  {
    if s != [] {
      assert s == [s[0]] + s[1..];
      UngappedNoGap(s[1..]);
    }
  }

  /** The ungapped length plus the gap count is the length. */
  lemma {:induction false} UngappedCount(s: string)
    ensures |Ungapped(s)| + Count(s, Gap) == |s|
  {
    if s != [] {
      UngappedCount(s[1..]);
    }
  }

  // ---------------------------------------------------------------- max score

  /** sum(int(sub_matrix[aa, aa]) for aa in target), stopping at the first
      character whose pair lookup or conversion raises. Folded from the end so
      that the running sum grows one character at a time. */
  function DiagonalScore(target: string, t: Table, d: Dialect): Result<int, Error> {
    if target == [] then Ok(0)
    else
      var n := |target| - 1;
      match DiagonalScore(target[..n], t, d)
      case Err(e) => Err(e)
      case Ok(sum) =>
        match Score(t, target[n], target[n], d)
        case Err(e) => Err(e)
        case Ok(v) => Ok(sum + v)
  }

  /** calculate_max_score(target, sub_matrix) */
  method CalculateMaxScore(target: string, t: Table, d: Dialect) returns (r: Result<int, Error>)
    ensures r == DiagonalScore(target, t, d)
  {
    var maxScore := 0;
    var i := 0;
    while i < |target|
      invariant 0 <= i <= |target|
      invariant DiagonalScore(target[..i], t, d) == Ok(maxScore)
    {
      assert target[..i + 1][..i] == target[..i];
      var s := Score(t, target[i], target[i], d);
      if s.Err? {
        DiagonalScoreErrPrefix(target, i + 1, t, d);
        return Err(s.error);
      }
      maxScore := maxScore + s.value;
      i := i + 1;
    }
    assert target[..i] == target;
    return Ok(maxScore);
  }

  /** Once a prefix fails, the whole target fails the same way. */
  lemma {:induction false} DiagonalScoreErrPrefix(target: string, k: nat, t: Table, d: Dialect)
    requires k <= |target|
    requires DiagonalScore(target[..k], t, d).Err?
    ensures DiagonalScore(target, t, d) == DiagonalScore(target[..k], t, d)
  {
    if k < |target| {
      var n := |target| - 1;
      assert target[..n][..k] == target[..k];
      DiagonalScoreErrPrefix(target[..n], k, t, d);
    } else {
      assert target[..k] == target;
    }
  }

  /** The maximum score exists exactly when every diagonal pair of the target
      is in the table and numeric. */
  lemma {:induction false} DiagonalScoreOk(target: string, t: Table, d: Dialect)
    ensures DiagonalScore(target, t, d).Ok?
      <==> forall i :: 0 <= i < |target| ==> Score(t, target[i], target[i], d).Ok?
  {
    if target != [] {
      var n := |target| - 1;
      DiagonalScoreOk(target[..n], t, d);
      assert forall i :: 0 <= i < n ==> target[..n][i] == target[i];
    }
  }

  /** With positive diagonal entries, a non-empty target has a positive
      maximum score, so the percentage test of the local search never divides
      by zero. */
  lemma {:induction false} DiagonalScorePositive(target: string, t: Table, d: Dialect)
    requires forall i :: 0 <= i < |target| ==>
      Score(t, target[i], target[i], d).Ok? && Score(t, target[i], target[i], d).value > 0
    ensures DiagonalScore(target, t, d).Ok?
    ensures target != [] ==> DiagonalScore(target, t, d).value > 0
  {
    if target != [] {
      var n := |target| - 1;
      assert forall i :: 0 <= i < n ==> target[..n][i] == target[i];
      DiagonalScorePositive(target[..n], t, d);
    }
  }

  // --------------------------------------------------------- alignment string

  /** The symbol of one column: '|' for equal characters (a gap against a gap
      included), ' ' when one side is a gap, ':' otherwise. */
  function Symbol(a: char, b: char): char {
    if a == b then '|' else if a == Gap || b == Gap then ' ' else ':'
  }

  /** One symbol per column of zip(aligned_seq1, aligned_seq2). */
  function AlignmentString(a: string, b: string): (s: string)
    ensures |s| == if |a| < |b| then |a| else |b|
    ensures forall k :: 0 <= k < |s| ==>
      (s[k] == '|' <==> a[k] == b[k])
      && (s[k] == ' ' <==> a[k] != b[k] && (a[k] == Gap || b[k] == Gap))
      && (s[k] == ':' <==> a[k] != b[k] && a[k] != Gap && b[k] != Gap)
  {
    var n := if |a| < |b| then |a| else |b|;
    seq(n, k requires 0 <= k < n => Symbol(a[k], b[k]))
  }

  /** create_alignment_string(aligned_seq1, aligned_seq2): the string and the
      three counters, each counter the number of its symbol, and the three
      together the number of columns. */
  method CreateAlignmentString(a: string, b: string)
    returns (s: string, identities: nat, gaps: nat, mismatches: nat)
    ensures s == AlignmentString(a, b)
    ensures identities == Count(s, '|') && gaps == Count(s, ' ') && mismatches == Count(s, ':')
    ensures identities + gaps + mismatches == |s|
  {
    var n := if |a| < |b| then |a| else |b|;
    identities, gaps, mismatches := 0, 0, 0;
    s := "";
    var k := 0;
    while k < n
      invariant 0 <= k <= n
      invariant |s| == k && forall m :: 0 <= m < k ==> s[m] == Symbol(a[m], b[m])
      invariant identities == Count(s, '|') && gaps == Count(s, ' ') && mismatches == Count(s, ':')
    {
      var c: char;
      if a[k] == b[k] {
        c := '|';
        identities := identities + 1;
      } else if a[k] == Gap || b[k] == Gap {
        c := ' ';
        gaps := gaps + 1;
      } else {
        c := ':';
        mismatches := mismatches + 1;
      }
      CountSnoc(s, c, '|');
      CountSnoc(s, c, ' ');
      CountSnoc(s, c, ':');
      s := s + [c];
      k := k + 1;
    }
    assert s == AlignmentString(a, b);
    SymbolCounts(s);
  }

  /** In a string made of the three symbols, their counts add up to its length. */
  lemma {:induction false} SymbolCounts(s: string)
    requires forall k :: 0 <= k < |s| ==> s[k] == '|' || s[k] == ' ' || s[k] == ':'
    ensures Count(s, '|') + Count(s, ' ') + Count(s, ':') == |s|
  {
    if s != [] {
      SymbolCounts(s[1..]);
    }
  }

  /** The docstring example: KTGTA over PT-KA. */
  lemma DocstringExample()
    ensures AlignmentString("KTGTA", "PT-KA") == ":| :|"
    ensures Count(":| :|", '|') == 2 && Count(":| :|", ' ') == 1 && Count(":| :|", ':') == 2
  {
  }

  // -------------------------------------------------------- block coordinates

  /** s[i:j] with Python's clamping of out-of-range bounds. */
  function Slice(s: string, i: nat, j: nat): (r: string)
    ensures |r| <= |s|
  {
    var lo := if i < |s| then i else |s|;
    var hi := if j < lo then lo else if j < |s| then j else |s|;
    s[lo..hi]
  }

  // print_alignment prints the alignment in blocks of 60 columns.

  /** The numbers printed beside one block: first and last residue of the
      target and of the subject. */
  datatype Block = Block(targetStart: int, targetEnd: int, subjectStart: int, subjectEnd: int)

  /** The block starting at column i as print_alignment computes it: the start
      is the column offset plus the first residue number, whatever the gaps
      of the earlier blocks. */
  function WrittenBlock(alignedTarget: string, alignedSubject: string, targetFirst: int, subjectFirst: int, i: nat): Block {
    var targetStart := i + targetFirst;
    var subjectStart := i + subjectFirst;
    Block(targetStart, |Ungapped(Slice(alignedTarget, i, i + 60))| + targetStart - 1,
          subjectStart, |Ungapped(Slice(alignedSubject, i, i + 60))| + subjectStart - 1)
  }

  /** As written, a block's start exceeds the number of the residue it begins
      with by the gaps in the blocks before it. */
  lemma WrittenBlockDrift(alignedTarget: string, alignedSubject: string, targetFirst: int, subjectFirst: int, i: nat)
    requires i <= |alignedTarget|
    ensures WrittenBlock(alignedTarget, alignedSubject, targetFirst, subjectFirst, i).targetStart
      == targetFirst + |Ungapped(alignedTarget[..i])| + Count(alignedTarget[..i], Gap)
  {
    UngappedCount(alignedTarget[..i]);
  }

  /** n copies of c */
  function Repeat(c: char, n: nat): (s: string)
    ensures |s| == n && forall k :: 0 <= k < n ==> s[k] == c
  {
    if n == 0 then [] else [c] + Repeat(c, n - 1)
  }

  /** One leading gap and sixty residues, numbered from 1: the first block ends
      at residue 59 and the second is printed as starting at 61, so residue 60
      is never shown and the last residue is numbered 61. */
  lemma WrittenBlockSkipsResidue()
    ensures var at := [Gap] + Repeat('A', 60);
      WrittenBlock(at, at, 1, 1, 0).targetEnd == 59
      && WrittenBlock(at, at, 1, 1, 60).targetStart == 61
      && WrittenBlock(at, at, 1, 1, 60).targetEnd == 61
      && |Ungapped(at)| == 60
  {
    var at := [Gap] + Repeat('A', 60);
    UngappedNoGap(Repeat('A', 60));
    UngappedNoGap(Repeat('A', 59));
    UngappedNoGap(Repeat('A', 1));
    assert Slice(at, 0, 60) == [Gap] + Repeat('A', 59);
    UngappedAppend([Gap], Repeat('A', 59));
    UngappedAppend([Gap], Repeat('A', 60));
    assert Slice(at, 60, 120) == Repeat('A', 1);
  }

  /** The residues among the first i columns of an aligned string. */
  function Residues(s: string, i: nat): nat {
    if i == 0 then 0 else Residues(s, i - 1) + (if i <= |s| && s[i - 1] != Gap then 1 else 0)
  }

  /** Counted column by column, the residues are those of the prefix with
      its gaps removed. */
  lemma {:induction false} ResiduesUngapped(s: string, i: nat)
    ensures Residues(s, i) == |Ungapped(Slice(s, 0, i))|
  {
    if i == 0 {
      assert Slice(s, 0, 0) == [];
    } else {
      ResiduesUngapped(s, i - 1);
      assert Slice(s, 0, i) == Slice(s, 0, i - 1) + Slice(s, i - 1, i);
      UngappedAppend(Slice(s, 0, i - 1), Slice(s, i - 1, i));
      if i <= |s| {
        assert Slice(s, i - 1, i) == [s[i - 1]];
      } else {
        assert Slice(s, i - 1, i) == [];
      }
    }
  }

  /** The intended numbers of the block starting at column i: the residues
      before column i come first, so the start is the number of the block's
      first residue and the end that of its last. */
  function IntendedBlock(alignedTarget: string, alignedSubject: string, targetFirst: int, subjectFirst: int, i: nat): Block {
    Block(targetFirst + Residues(alignedTarget, i),
          targetFirst + Residues(alignedTarget, i + 60) - 1,
          subjectFirst + Residues(alignedSubject, i),
          subjectFirst + Residues(alignedSubject, i + 60) - 1)
  }

  /** The block loop of print_alignment with the starts carried over from the
      previous block's end: one block per 60 columns of the aligned subject,
      each numbered as intended, each starting right after the previous one. */
  method BlockCoordinates(alignedTarget: string, alignedSubject: string, targetFirst: int, subjectFirst: int)
    returns (blocks: seq<Block>)
    ensures (|blocks| - 1) * 60 < |alignedSubject| <= |blocks| * 60
      || (blocks == [] && alignedSubject == [])
    ensures forall b :: 0 <= b < |blocks| ==>
      blocks[b] == IntendedBlock(alignedTarget, alignedSubject, targetFirst, subjectFirst, b * 60)
    ensures forall b :: 0 < b < |blocks| ==>
      blocks[b].targetStart == blocks[b - 1].targetEnd + 1 && blocks[b].subjectStart == blocks[b - 1].subjectEnd + 1
  {
    var aLen := |alignedSubject|;
    var targetStart, subjectStart := targetFirst, subjectFirst;
    blocks := [];
    var i := 0;
    while i < aLen
      invariant i == |blocks| * 60
      invariant blocks == [] || (|blocks| - 1) * 60 < aLen
      invariant targetStart == targetFirst + Residues(alignedTarget, i)
      invariant subjectStart == subjectFirst + Residues(alignedSubject, i)
      invariant IntendedBlocks(alignedTarget, alignedSubject, targetFirst, subjectFirst, blocks)
    {
      var targetSlice := Slice(alignedTarget, i, i + 60);
      var subjectSlice := Slice(alignedSubject, i, i + 60);
      var targetEnd := |Ungapped(targetSlice)| + targetStart - 1;
      var subjectEnd := |Ungapped(subjectSlice)| + subjectStart - 1;
      BlockNext(alignedTarget, alignedSubject, targetFirst, subjectFirst, i, targetStart, subjectStart);
      var block := Block(targetStart, targetEnd, subjectStart, subjectEnd);
      BlocksSnoc(alignedTarget, alignedSubject, targetFirst, subjectFirst, blocks, block);
      blocks := blocks + [block];
      targetStart, subjectStart := targetEnd + 1, subjectEnd + 1;
      i := i + 60;
    }
    BlocksChained(alignedTarget, alignedSubject, targetFirst, subjectFirst, blocks);
  }

  /** The blocks so far, each numbered as intended. */
  ghost predicate IntendedBlocks(alignedTarget: string, alignedSubject: string, targetFirst: int, subjectFirst: int, blocks: seq<Block>) {
    forall b :: 0 <= b < |blocks| ==> blocks[b] == IntendedBlock(alignedTarget, alignedSubject, targetFirst, subjectFirst, b * 60)
  }

  /** Adding the intended block of the next 60 columns keeps every block as
      intended. */
  lemma BlocksSnoc(alignedTarget: string, alignedSubject: string, targetFirst: int, subjectFirst: int, blocks: seq<Block>, block: Block)
    requires IntendedBlocks(alignedTarget, alignedSubject, targetFirst, subjectFirst, blocks)
    requires block == IntendedBlock(alignedTarget, alignedSubject, targetFirst, subjectFirst, |blocks| * 60)
    ensures IntendedBlocks(alignedTarget, alignedSubject, targetFirst, subjectFirst, blocks + [block])
  {
    var next := blocks + [block];
    forall b | 0 <= b < |next|
      ensures next[b] == IntendedBlock(alignedTarget, alignedSubject, targetFirst, subjectFirst, b * 60)
    {
      if b < |blocks| { assert next[b] == blocks[b]; }
    }
  }

  /** Blocks numbered as intended follow each other: each starts right
      after the previous one ends. */
  lemma BlocksChained(alignedTarget: string, alignedSubject: string, targetFirst: int, subjectFirst: int, blocks: seq<Block>)
    requires IntendedBlocks(alignedTarget, alignedSubject, targetFirst, subjectFirst, blocks)
    ensures forall b :: 0 < b < |blocks| ==>
      blocks[b].targetStart == blocks[b - 1].targetEnd + 1 && blocks[b].subjectStart == blocks[b - 1].subjectEnd + 1
  {
    forall b | 0 < b < |blocks|
      ensures blocks[b].targetStart == blocks[b - 1].targetEnd + 1 && blocks[b].subjectStart == blocks[b - 1].subjectEnd + 1
    {
      assert (b - 1) * 60 + 60 == b * 60;
    }
  }

  /** A block's numbers follow from the residues before it and those in it. */
  lemma BlockStep(alignedTarget: string, alignedSubject: string, targetFirst: int, subjectFirst: int, i: nat)
    ensures var b := IntendedBlock(alignedTarget, alignedSubject, targetFirst, subjectFirst, i);
      b.targetEnd == |Ungapped(Slice(alignedTarget, i, i + 60))| + b.targetStart - 1
      && b.subjectEnd == |Ungapped(Slice(alignedSubject, i, i + 60))| + b.subjectStart - 1
  {
    ResiduesSplit(alignedTarget, i, i + 60);
    ResiduesSplit(alignedSubject, i, i + 60);
  }

  /** One pass of the block loop: from starts that count the residues
      before column i, the block is the intended one and the next starts
      count the residues before column i + 60. */
  lemma BlockNext(alignedTarget: string, alignedSubject: string, targetFirst: int, subjectFirst: int, i: nat,
                  targetStart: int, subjectStart: int)
    requires targetStart == targetFirst + Residues(alignedTarget, i)
    requires subjectStart == subjectFirst + Residues(alignedSubject, i)
    ensures Block(targetStart, |Ungapped(Slice(alignedTarget, i, i + 60))| + targetStart - 1,
                  subjectStart, |Ungapped(Slice(alignedSubject, i, i + 60))| + subjectStart - 1)
         == IntendedBlock(alignedTarget, alignedSubject, targetFirst, subjectFirst, i)
    ensures |Ungapped(Slice(alignedTarget, i, i + 60))| + targetStart == targetFirst + Residues(alignedTarget, i + 60)
    ensures |Ungapped(Slice(alignedSubject, i, i + 60))| + subjectStart == subjectFirst + Residues(alignedSubject, i + 60)
  {
    BlockStep(alignedTarget, alignedSubject, targetFirst, subjectFirst, i);
  }

  /** The residues before column j are those before column i plus those of
      the columns from i to j. */
  lemma ResiduesSplit(s: string, i: nat, j: nat)
    requires i <= j
    ensures Residues(s, j) == Residues(s, i) + |Ungapped(Slice(s, i, j))|
  {
    ResiduesUngapped(s, i);
    ResiduesUngapped(s, j);
    SliceSplit(s, i, j);
  }

  /** The residues before column j are those before column i plus those of
      the columns from i to j. */
  lemma SliceSplit(s: string, i: nat, j: nat)
    requires i <= j
    ensures |Ungapped(Slice(s, 0, j))| == |Ungapped(Slice(s, 0, i))| + |Ungapped(Slice(s, i, j))|
  {
    assert Slice(s, 0, j) == Slice(s, 0, i) + Slice(s, i, j);
    UngappedAppend(Slice(s, 0, i), Slice(s, i, j));
  }
}
