/** The pattern rewrite and the per-chain scan of subseq_re_search
    (subseq.py and subseq/subseq_re.py). Python's re engine is not modelled:
    finditer stands for re.compile(pattern, re.I).finditer, the successive
    non-overlapping matches as (start, length) spans, and compiles for
    whether re.compile accepts the pattern. */
module RegexScan {
  import opened Wrappers
  import opened Errors
  import opened Text
  import opened DataIndex
  import opened Hits

  /** One match object: match.start() and len(match.group()). */
  datatype Span = Span(start: nat, len: nat)

  /** The characters target.strip("'()\"") removes. */
  const PatternQuotes: set<char> := {'\'', '(', ')', '"'}

  /** The ten str.replace calls, in the order they are made: the IUPAC-IUB
      ambiguity codes of the 1984 NC-IUB recommendations "Nomenclature for
      incompletely specified bases in nucleic acid sequences" (Table 1),
      without V. */
  const Codes: seq<(char, string)> := [
    ('R', "[AG]"), ('Y', "[CT]"), ('S', "[GC]"), ('W', "[AT]"), ('K', "[GT]"),
    ('M', "[AC]"), ('B', "[CGT]"), ('D', "[AGT]"), ('H', "[ACT]"), ('N', ".")]

  /** The same table as a map from code to what replaces it. */
  const Classes: map<char, string> := map[
    'R' := "[AG]", 'Y' := "[CT]", 'S' := "[GC]", 'W' := "[AT]", 'K' := "[GT]",
    'M' := "[AC]", 'B' := "[CGT]", 'D' := "[AGT]", 'H' := "[ACT]", 'N' := "."]

  /** The replacements from the k-th on, applied one after the other. */
  function RewriteFrom(s: string, k: nat): string
    requires k <= |Codes|
    decreases |Codes| - k
  {
    if k == |Codes| then s else RewriteFrom(Replace(s, Codes[k].0, Codes[k].1), k + 1)
  }

  /** target after the ten replace calls. */
  function Rewrite(s: string): string {
    RewriteFrom(s, 0)
  }

  /** The pattern handed to re.compile: stripped of quotes and parentheses at
      both ends, then, for nucleic acids only, with the codes expanded. */
  function Pattern(target: string, searchFor: string): string {
    var s := Strip(target, PatternQuotes);
    if searchFor == "nucleicacids" then Rewrite(s) else s
  }

  /** One character as the whole rewrite leaves it. */
  function Expand(c: char): string {
    if c in Classes then Classes[c] else [c]
  }

  /** Every character expanded on its own. */
  function ExpandAll(s: string): string {
    if s == [] then [] else Expand(s[0]) + ExpandAll(s[1..])
  }

  /** The table and the map agree. */
  lemma CodesClasses()
    ensures forall k :: 0 <= k < |Codes| ==> Codes[k].0 in Classes && Classes[Codes[k].0] == Codes[k].1
  {
  }

  /** Nothing a code expands to is a code: the expansions use only A, C, G,
      T, brackets and the dot. */
  lemma ClassesClean()
    ensures forall c, x :: c in Classes && x in Classes[c] ==> x !in Classes
  {
  }

  /** A character that is none of the codes of the table has no class. */
  lemma NotACode(x: char)
    requires forall l :: 0 <= l < |Codes| ==> Codes[l].0 != x
    ensures x !in Classes
  {
    assert Codes[0].0 == 'R' && Codes[1].0 == 'Y' && Codes[2].0 == 'S' && Codes[3].0 == 'W' && Codes[4].0 == 'K';
    assert Codes[5].0 == 'M' && Codes[6].0 == 'B' && Codes[7].0 == 'D' && Codes[8].0 == 'H' && Codes[9].0 == 'N';
  }

  /** The rewrite distributes over concatenation. */
  lemma {:induction false} RewriteFromAppend(a: string, b: string, k: nat)
    requires k <= |Codes|
    ensures RewriteFrom(a + b, k) == RewriteFrom(a, k) + RewriteFrom(b, k)
    decreases |Codes| - k
  {
    if k < |Codes| {
      ReplaceAppend(a, b, Codes[k].0, Codes[k].1);
      RewriteFromAppend(Replace(a, Codes[k].0, Codes[k].1), Replace(b, Codes[k].0, Codes[k].1), k + 1);
    }
  }

  /** A string without codes is left alone. */
  lemma {:induction false} RewriteFromAbsent(s: string, k: nat)
    requires k <= |Codes|
    requires forall x :: x in s ==> x !in Classes
    ensures RewriteFrom(s, k) == s
    decreases |Codes| - k
  {
    if k < |Codes| {
      ReplaceAbsent(s, Codes[k].0, Codes[k].1);
      RewriteFromAbsent(s, k + 1);
    }
  }

  /** One character: a code meets its own replacement and then only
      replacements that do not touch what it became. */
  lemma {:induction false} RewriteFromChar(x: char, k: nat)
    requires k <= |Codes|
    requires forall l :: 0 <= l < k ==> Codes[l].0 != x
    ensures RewriteFrom([x], k) == Expand(x)
    decreases |Codes| - k
  {
    if k == |Codes| {
      NotACode(x);
    } else if Codes[k].0 == x {
      RewriteFromCode(x, k);
    } else {
      assert Replace([x], Codes[k].0, Codes[k].1) == [x] + Replace([], Codes[k].0, Codes[k].1);
      RewriteFromChar(x, k + 1);
    }
  }

  /** A code becomes its class at its own replace call, and the later calls
      leave the class alone. */
  lemma RewriteFromCode(x: char, k: nat)
    requires k < |Codes| && Codes[k].0 == x
    ensures RewriteFrom([x], k) == Expand(x)
  {
    var r := Codes[k].1;
    assert Replace([x], x, r) == r + Replace([], x, r);
    assert Replace([x], x, r) == r;
    CodesClasses();
    assert Classes[x] == r;
    ClassesClean();
    assert forall y :: y in r ==> y !in Classes;
    RewriteFromAbsent(r, k + 1);
  }

  /** The order of the replace calls does not matter: the rewrite expands
      each character on its own. */
  lemma {:induction false} RewriteIsExpand(s: string)
    ensures Rewrite(s) == ExpandAll(s)
  {
    if s != [] {
      assert s == [s[0]] + s[1..];
      RewriteFromAppend([s[0]], s[1..], 0);
      RewriteFromChar(s[0], 0);
      RewriteIsExpand(s[1..]);
    }
  }

  /** After the expansion no code is left, and a character that is not a
      code survives in place. */
  lemma {:induction false} ExpandAllClean(s: string)
    ensures forall x :: x in ExpandAll(s) ==> x !in Classes
    ensures (forall x :: x in s ==> x !in Classes) ==> ExpandAll(s) == s
  {
    ClassesClean();
    if s != [] {
      ExpandAllClean(s[1..]);
      assert forall x :: x in s[1..] ==> x in s;
    }
  }

  /** The nucleic-acid pattern holds none of R, Y, S, W, K, M, B, D, H, N,
      and a stripped pattern without them (V included) is used as it is; an
      amino-acid pattern is only stripped. */
  lemma PatternSpec(target: string, searchFor: string)
    ensures searchFor == "nucleicacids" ==> Pattern(target, searchFor) == ExpandAll(Strip(target, PatternQuotes))
    ensures searchFor == "nucleicacids" ==> forall x :: x in Pattern(target, searchFor) ==> x !in Classes
    ensures searchFor != "nucleicacids" ==> Pattern(target, searchFor) == Strip(target, PatternQuotes)
    ensures (forall x :: x in Strip(target, PatternQuotes) ==> x !in Classes) ==> Pattern(target, searchFor) == Strip(target, PatternQuotes)
  {
    var s := Strip(target, PatternQuotes);
    RewriteIsExpand(s);
    ExpandAllClean(s);
  }

  // ------------------------------------------------------- one chain

  /** The total matched length. */
  function Matched(spans: seq<Span>): nat {
    if spans == [] then 0 else spans[0].len + Matched(spans[1..])
  }

  /** The ids of every match, match after match. */
  function SpansHits(model: string, chain: string, ids: seq<string>, spans: seq<Span>): (r: Result<seq<Hit>, Error>)
    ensures r.Ok? <==> forall k :: 0 <= k < |spans| ==> Emit(model, chain, ids, spans[k].start, spans[k].len).Ok?
    ensures r.Ok? ==> |r.value| == Matched(spans)
    ensures r.Err? ==> r.error == IndexError
  {
    if spans == [] then Ok([])
    else
      var rest := SpansHits(model, chain, ids, spans[1..]);
      assert forall k :: 1 <= k < |spans| ==> spans[1..][k - 1] == spans[k];
      match Emit(model, chain, ids, spans[0].start, spans[0].len)
      case Err(e) => Err(e)
      case Ok(h) => if rest.Err? then rest else Ok(h + rest.value)
  }

  /** h reports a residue inside the span s of chain of model. */
  ghost predicate Covered(h: Hit, model: string, chain: string, ids: seq<string>, s: Span) {
    InRun(h, model, chain, ids, s.start, s.start + s.len)
  }

  /** Every id reported for a chain lies inside one of its matches. */
  lemma {:induction false} SpansHitsSound(model: string, chain: string, ids: seq<string>, spans: seq<Span>, h: Hit)
    requires SpansHits(model, chain, ids, spans).Ok? && h in SpansHits(model, chain, ids, spans).value
    ensures exists k :: 0 <= k < |spans| && Covered(h, model, chain, ids, spans[k])
  {
    var e := Emit(model, chain, ids, spans[0].start, spans[0].len).value;
    if h in e {
      EmitInRun(model, chain, ids, spans[0].start, spans[0].len, h);
      assert Covered(h, model, chain, ids, spans[0]);
    } else {
      SpansHitsSound(model, chain, ids, spans[1..], h);
      var k :| 0 <= k < |spans[1..]| && Covered(h, model, chain, ids, spans[1..][k]);
      assert spans[k + 1] == spans[1..][k];
    }
  }

  /** What one chain adds to match_list, and whether first_only broke out of
      the match loop (which then also ends the chain loop). */
  function ReChain(spans: seq<Span>, firstOnly: bool, model: string, chain: string, e: Chain): (r: Result<(seq<Hit>, bool), Error>)
    ensures r.Ok? ==> (r.value.1 <==> firstOnly && spans != [])
  {
    if firstOnly && spans != [] then
      match Emit(model, chain, e.ids, spans[0].start, spans[0].len)
      case Err(err) => Err(err)
      case Ok(h) => Ok((h, true))
    else if firstOnly then Ok(([], false))
    else
      match SpansHits(model, chain, e.ids, spans)
      case Err(err) => Err(err)
      case Ok(h) => Ok((h, false))
  }

  /** A chain reports exactly its first match under first_only, and all of
      its matches otherwise; every id reported is the id of a matched
      residue. */
  lemma ReChainSpec(spans: seq<Span>, firstOnly: bool, model: string, chain: string, e: Chain, h: Hit)
    requires ReChain(spans, firstOnly, model, chain, e).Ok?
    ensures var r := ReChain(spans, firstOnly, model, chain, e).value;
      |r.0| == if firstOnly then (if spans == [] then 0 else spans[0].len) else Matched(spans)
    ensures h in ReChain(spans, firstOnly, model, chain, e).value.0 ==>
      exists k :: 0 <= k < |spans| && Covered(h, model, chain, e.ids, spans[k]) && (firstOnly ==> k == 0)
  {
    var r := ReChain(spans, firstOnly, model, chain, e).value;
    if h in r.0 {
      if firstOnly {
        EmitInRun(model, chain, e.ids, spans[0].start, spans[0].len, h);
        assert Covered(h, model, chain, e.ids, spans[0]);
      } else {
        SpansHitsSound(model, chain, e.ids, spans, h);
      }
    }
  }

  /** The match loop of one chain. */
  method ScanChain(spans: seq<Span>, firstOnly: bool, model: string, chain: string, e: Chain) returns (r: Result<(seq<Hit>, bool), Error>)
    ensures r == ReChain(spans, firstOnly, model, chain, e)
  {
    var found: seq<Hit> := [];
    var k := 0;
    assert spans[0..] == spans;
    if SpansHits(model, chain, e.ids, spans).Ok? {
      assert [] + SpansHits(model, chain, e.ids, spans).value == SpansHits(model, chain, e.ids, spans).value;
    }
    while k < |spans|
      invariant k <= |spans| && (firstOnly ==> k == 0) && (k == 0 ==> found == [])
      invariant SpansHits(model, chain, e.ids, spans) == Prefixed(found, SpansHits(model, chain, e.ids, spans[k..]))
    {
      assert spans[k..][0] == spans[k] && spans[k..][1..] == spans[k + 1..];
      var run := EmitRun(model, chain, e.ids, spans[k].start, spans[k].len);
      if run.Err? {
        return Err(run.error);
      }
      assert SpansHits(model, chain, e.ids, spans[k..]) == Prefixed(run.value, SpansHits(model, chain, e.ids, spans[k + 1..]));
      PrefixedPrefixed(found, run.value, SpansHits(model, chain, e.ids, spans[k + 1..]));
      found := found + run.value;
      if firstOnly {
        assert found == run.value;
        return Ok((found, true));
      }
      k := k + 1;
    }
    assert spans[k..] == [];
    assert found + [] == found;
    return Ok((found, false));
  }
}
