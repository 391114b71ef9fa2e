/** The three search drivers of subseq.py -- subseq_re_search,
    subseq_la_search and subseq_ga_search -- and their copies in
    subseq/subseq_re.py, subseq/subseq_local_alignment.py and
    subseq/subseq_global_alignment.py. Each runs the same two nested loops
    over the models of the index and the chains of each model, and differs
    in what it does for one chain and in how far first_only's break reaches:
    the regular-expression and local searches go on with the next model, the
    global search stops altogether. The sweep is defined once, over a
    Driver that names the per-chain step. */
module Search {
  import opened Wrappers
  import opened Errors
  import opened Dicts
  import opened DataIndex
  import opened Hits
  import SubMatrix
  import opened Alignment
  import opened LocalAlignment
  import RegexScan
  import LocalScan
  import GlobalScan

  /** What a search does for one chain. */
  datatype Driver =
    | Regex(pattern: string, finditer: (string, string) -> seq<RegexScan.Span>)
    | Local(target: string, table: SubMatrix.Table, dialect: SubMatrix.Dialect, gap: real, minScore: real, maxScore: int)
    | Global(target: string, table: SubMatrix.Table, dialect: SubMatrix.Dialect, gap: real, filter: Option<real>, maxScore: int)

  /** What the chain loop's body gives for one chain: its triples and
      whether first_only broke out of the loop, or the exception it raised. */
  type Outcome = Result<(seq<Hit>, bool), Error>

  /** The chain loop's body as a function of the model, the chain's name and
      the chain. */
  type StepFn = (string, string, Chain) -> Outcome

  /** The chain loop's body of each driver. */
  function StepOf(drv: Driver, firstOnly: bool, model: string, chain: string, e: Chain): Outcome {
    match drv
    case Regex(pattern, finditer) =>
      RegexScan.ReChain(finditer(pattern, e.sequence), firstOnly, model, chain, e)
    case Local(target, table, dialect, gap, minScore, maxScore) =>
      LocalScan.LocalChain(target, table, dialect, gap, minScore, maxScore, firstOnly, model, chain, e)
    case Global(target, table, dialect, gap, filter, maxScore) =>
      GlobalScan.GlobalChain(target, table, dialect, gap, filter, maxScore, firstOnly, model, chain, e)
  }

  /** A driver's body as a step function. */
  function Steps(drv: Driver, firstOnly: bool): StepFn {
    (model: string, chain: string, e: Chain) => StepOf(drv, firstOnly, model, chain, e)
  }

  /** The triples of an outcome that succeeds, none otherwise. */
  function Reported(r: Outcome): seq<Hit> {
    if r.Ok? then r.value.0 else []
  }

  /** Every key of d has a value: what iterating d.keys() and reading d[key]
      needs. */
  predicate Keyed<V>(d: Dict<V>) {
    forall k :: 0 <= k < |d.keys| ==> d.keys[k] in d.values
  }

  /** What the two loops need of the index: its models are distinct and
      every key has a value. */
  ghost predicate SweepReady(d: Index) {
    Distinct(d.keys) && Keyed(d) && forall m :: m in d.values ==> Keyed(d.values[m])
  }

  /** The chain loop of one model from its k-th chain on: an exception ends
      everything, a first_only break ends the loop. */
  function ChainsFrom(step: StepFn, model: string, entry: Dict<Chain>, k: nat): Outcome
    requires Keyed(entry) && k <= |entry.keys|
    decreases |entry.keys| - k
  {
    if k == |entry.keys| then Ok(([], false))
    else
      var chain := entry.keys[k];
      match step(model, chain, entry.values[chain])
      case Err(err) => Err(err)
      case Ok(found) =>
        if found.1 then Ok((found.0, true))
        else Then(found.0, ChainsFrom(step, model, entry, k + 1))
  }

  /** The model loop from the i-th model on. A break out of the chain loop
      ends the whole search only when global is set, as in subseq_ga_search,
      where it breaks the model loop as well. */
  function ModelsFrom(step: StepFn, global: bool, data: Index, i: nat): Result<seq<Hit>, Error>
    requires SweepReady(data) && i <= |data.keys|
    decreases |data.keys| - i
  {
    if i == |data.keys| then Ok([])
    else
      var model := data.keys[i];
      match ChainsFrom(step, model, data.values[model], 0)
      case Err(err) => Err(err)
      case Ok(found) =>
        if found.1 && global then Ok(found.0)
        else Prefixed(found.0, ModelsFrom(step, global, data, i + 1))
  }

  /** The two loops of a driver: match_list as they leave it. */
  function SweepOf(drv: Driver, firstOnly: bool, data: Index): Result<seq<Hit>, Error>
    requires SweepReady(data)
  {
    ModelsFrom(Steps(drv, firstOnly), drv.Global?, data, 0)
  }

  /** return match_list if len(match_list) else None */
  function Collected(r: Result<seq<Hit>, Error>): (c: Result<Option<seq<Hit>>, Error>)
    ensures c.Err? <==> r.Err?
    ensures c.Ok? ==> (c.value.None? <==> r.value == []) && (c.value.Some? ==> c.value.value == r.value)
  {
    if r.Err? then Err(r.error)
    else if r.value == [] then Ok(None)
    else Ok(Some(r.value))
  }

  // ------------------------------------------------------------ the drivers

  /** subseq_re_search: the pattern is rewritten, re.compile may refuse it,
      then every chain's sequence is matched. The regular-expression engine
      is the pair compiles / finditer (case-insensitive, as re.I asks). */
  function ReSearch(target: string, data: Index, firstOnly: bool, searchFor: string,
                    compiles: string -> bool, finditer: (string, string) -> seq<RegexScan.Span>): Result<Option<seq<Hit>>, Error>
    requires SweepReady(data)
  {
    var pattern := RegexScan.Pattern(target, searchFor);
    if !compiles(pattern) then Err(ReError)
    else Collected(SweepOf(Regex(pattern, finditer), firstOnly, data))
  }

  /** subseq_la_search with a loaded substitution table: max_score first,
      then the sweep. */
  function LaSearch(target: string, table: SubMatrix.Table, dialect: SubMatrix.Dialect, data: Index, gap: real, minScore: real,
                    firstOnly: bool): Result<Option<seq<Hit>>, Error>
    requires SweepReady(data)
  {
    match Alignment.DiagonalScore(target, table, dialect)
    case Err(err) => Err(err)
    case Ok(maxScore) => Collected(SweepOf(Local(target, table, dialect, gap, minScore, maxScore), firstOnly, data))
  }

  /** subseq_ga_search; filter is Some(min_score) for the copy that skips
      low-scoring chains, None for subseq.py. */
  function GaSearch(target: string, table: SubMatrix.Table, dialect: SubMatrix.Dialect, data: Index, gap: real, filter: Option<real>,
                    firstOnly: bool): Result<Option<seq<Hit>>, Error>
    requires SweepReady(data)
  {
    match Alignment.DiagonalScore(target, table, dialect)
    case Err(err) => Err(err)
    case Ok(maxScore) => Collected(SweepOf(Global(target, table, dialect, gap, filter, maxScore), firstOnly, data))
  }

  // -------------------------------------------------------- the loops

  /** The chain loop's body with the per-chain methods. */
  method Step(drv: Driver, firstOnly: bool, model: string, chain: string, e: Chain) returns (r: Outcome)
    ensures r == StepOf(drv, firstOnly, model, chain, e)
  {
    match drv
    case Regex(pattern, finditer) =>
      r := RegexScan.ScanChain(finditer(pattern, e.sequence), firstOnly, model, chain, e);
    case Local(target, table, dialect, gap, minScore, maxScore) =>
      r := LocalScan.LocalChainRun(target, table, dialect, gap, minScore, maxScore, firstOnly, model, chain, e);
    case Global(target, table, dialect, gap, filter, maxScore) =>
      r := GlobalScan.GlobalChainRun(target, table, dialect, gap, filter, maxScore, firstOnly, model, chain, e);
  }

  /** One pass of the chain loop, given the k-th chain's outcome o. */
  lemma ChainsAdvance(step: StepFn, model: string, entry: Dict<Chain>, k: nat, found: seq<Hit>, o: Outcome)
    requires Keyed(entry) && k < |entry.keys|
    requires o == step(model, entry.keys[k], entry.values[entry.keys[k]])
    requires ChainsFrom(step, model, entry, 0) == Then(found, ChainsFrom(step, model, entry, k))
    ensures o.Err? ==> ChainsFrom(step, model, entry, 0) == Err(o.error)
    ensures o.Ok? && o.value.1 ==> ChainsFrom(step, model, entry, 0) == Ok((found + o.value.0, true))
    ensures o.Ok? && !o.value.1 ==> ChainsFrom(step, model, entry, 0) == Then(found + o.value.0, ChainsFrom(step, model, entry, k + 1))
  {
    if o.Ok? && !o.value.1 {
      ThenThen(found, o.value.0, ChainsFrom(step, model, entry, k + 1));
    }
  }

  /** for chain in data[model].keys(): ... if first_only: break */
  method ChainLoop(drv: Driver, firstOnly: bool, model: string, entry: Dict<Chain>) returns (r: Outcome)
    requires Keyed(entry)
    ensures r == ChainsFrom(Steps(drv, firstOnly), model, entry, 0)
  {
    ghost var step := Steps(drv, firstOnly);
    var found: seq<Hit> := [];
    var k := 0;
    ThenNothing(ChainsFrom(step, model, entry, 0));
    while k < |entry.keys|
      invariant k <= |entry.keys|
      invariant ChainsFrom(step, model, entry, 0) == Then(found, ChainsFrom(step, model, entry, k))
    {
      var chain := entry.keys[k];
      var o := Step(drv, firstOnly, model, chain, entry.values[chain]);
      ChainsAdvance(step, model, entry, k, found, o);
      if o.Err? {
        return Err(o.error);
      }
      if o.value.1 {
        return Ok((found + o.value.0, true));
      }
      found := found + o.value.0;
      k := k + 1;
    }
    assert found + [] == found;
    return Ok((found, false));
  }

  /** One pass of the model loop, given the i-th model's chain loop outcome o. */
  lemma ModelsAdvance(step: StepFn, global: bool, data: Index, i: nat, matchList: seq<Hit>, o: Outcome)
    requires SweepReady(data) && i < |data.keys|
    requires o == ChainsFrom(step, data.keys[i], data.values[data.keys[i]], 0)
    requires ModelsFrom(step, global, data, 0) == Prefixed(matchList, ModelsFrom(step, global, data, i))
    ensures o.Err? ==> ModelsFrom(step, global, data, 0) == Err(o.error)
    ensures o.Ok? && o.value.1 && global ==> ModelsFrom(step, global, data, 0) == Ok(matchList + o.value.0)
    ensures o.Ok? && !(o.value.1 && global) ==>
      ModelsFrom(step, global, data, 0) == Prefixed(matchList + o.value.0, ModelsFrom(step, global, data, i + 1))
  {
    if o.Ok? && !(o.value.1 && global) {
      PrefixedPrefixed(matchList, o.value.0, ModelsFrom(step, global, data, i + 1));
    }
  }

  /** for model in data.keys(): ... -- match_list as the loops leave it. */
  method Sweep(drv: Driver, firstOnly: bool, data: Index) returns (r: Result<seq<Hit>, Error>)
    requires SweepReady(data)
    ensures r == SweepOf(drv, firstOnly, data)
  {
    ghost var step := Steps(drv, firstOnly);
    var matchList: seq<Hit> := [];
    var i := 0;
    assert Prefixed([], ModelsFrom(step, drv.Global?, data, 0)) == ModelsFrom(step, drv.Global?, data, 0) by {
      var all := ModelsFrom(step, drv.Global?, data, 0);
      if all.Ok? {
        assert [] + all.value == all.value;
      }
    }
    while i < |data.keys|
      invariant i <= |data.keys|
      invariant ModelsFrom(step, drv.Global?, data, 0) == Prefixed(matchList, ModelsFrom(step, drv.Global?, data, i))
    {
      var model := data.keys[i];
      var o := ChainLoop(drv, firstOnly, model, data.values[model]);
      ModelsAdvance(step, drv.Global?, data, i, matchList, o);
      if o.Err? {
        return Err(o.error);
      }
      if o.value.1 && drv.Global? {
        return Ok(matchList + o.value.0);
      }
      matchList := matchList + o.value.0;
      i := i + 1;
    }
    assert matchList + [] == matchList;
    return Ok(matchList);
  }

  method SubseqReSearch(target: string, data: Index, firstOnly: bool, searchFor: string,
                        compiles: string -> bool, finditer: (string, string) -> seq<RegexScan.Span>)
    returns (r: Result<Option<seq<Hit>>, Error>)
    requires SweepReady(data)
    ensures r == ReSearch(target, data, firstOnly, searchFor, compiles, finditer)
  {
    var pattern := RegexScan.Pattern(target, searchFor);
    if !compiles(pattern) {
      return Err(ReError);
    }
    var matchList := Sweep(Regex(pattern, finditer), firstOnly, data);
    r := Collected(matchList);
  }

  method SubseqLaSearch(target: string, table: SubMatrix.Table, dialect: SubMatrix.Dialect, data: Index, gap: real, minScore: real,
                        firstOnly: bool) returns (r: Result<Option<seq<Hit>>, Error>)
    requires SweepReady(data)
    ensures r == LaSearch(target, table, dialect, data, gap, minScore, firstOnly)
  {
    var maxScore := CalculateMaxScore(target, table, dialect);
    if maxScore.Err? {
      return Err(maxScore.error);
    }
    var matchList := Sweep(Local(target, table, dialect, gap, minScore, maxScore.value), firstOnly, data);
    r := Collected(matchList);
  }

  method SubseqGaSearch(target: string, table: SubMatrix.Table, dialect: SubMatrix.Dialect, data: Index, gap: real, filter: Option<real>,
                        firstOnly: bool) returns (r: Result<Option<seq<Hit>>, Error>)
    requires SweepReady(data)
    ensures r == GaSearch(target, table, dialect, data, gap, filter, firstOnly)
  {
    var maxScore := CalculateMaxScore(target, table, dialect);
    if maxScore.Err? {
      return Err(maxScore.error);
    }
    var matchList := Sweep(Global(target, table, dialect, gap, filter, maxScore.value), firstOnly, data);
    r := Collected(matchList);
  }

  // ------------------------------------------------ what one step promises

  /** Every triple of hs names that model, that chain and one of ids. */
  ghost predicate AllTagged(hs: seq<Hit>, model: string, chain: string, ids: seq<string>) {
    forall h :: h in hs ==> h.model == model && h.chain == chain && h.resi in ids
  }

  /** Every triple a step reports names that model, that chain and one of the
      chain's own residue ids. */
  ghost predicate Tagged(step: StepFn) {
    forall model, chain, e :: AllTagged(Reported(step(model, chain, e)), model, chain, e.ids)
  }

  /** No step breaks out of the chain loop. */
  ghost predicate NeverBreaks(step: StepFn) {
    forall model, chain, e :: step(model, chain, e).Ok? ==> !step(model, chain, e).value.1
  }

  /** A step that reports something breaks out of the chain loop. */
  ghost predicate BreaksOnFind(step: StepFn) {
    forall model, chain, e :: step(model, chain, e).Ok? && step(model, chain, e).value.0 != [] ==> step(model, chain, e).value.1
  }

  /** Every triple a chain reports names that model, that chain and one of
      the chain's own residue ids. */
  lemma StepTagged(drv: Driver, firstOnly: bool, model: string, chain: string, e: Chain)
    ensures AllTagged(Reported(Steps(drv, firstOnly)(model, chain, e)), model, chain, e.ids)
  {
    forall h | h in Reported(Steps(drv, firstOnly)(model, chain, e))
      ensures h.model == model && h.chain == chain && h.resi in e.ids
    {
      HitTagged(drv, firstOnly, model, chain, e, h);
    }
  }

  /** One triple of a chain. */
  lemma HitTagged(drv: Driver, firstOnly: bool, model: string, chain: string, e: Chain, h: Hit)
    requires h in Reported(StepOf(drv, firstOnly, model, chain, e))
    ensures h.model == model && h.chain == chain && h.resi in e.ids
  {
    match drv
    case Regex(pattern, finditer) =>
      var spans := finditer(pattern, e.sequence);
      RegexScan.ReChainSpec(spans, firstOnly, model, chain, e, h);
      var k :| 0 <= k < |spans| && RegexScan.Covered(h, model, chain, e.ids, spans[k]);
      var x :| 0 <= x < |e.ids| && h == Hit(model, chain, e.ids[x]);
    case Local(target, table, dialect, gap, minScore, maxScore) =>
      LocalScan.LocalChainMembers(target, table, dialect, gap, minScore, maxScore, firstOnly, model, chain, e, h);
      var p := ChainProblem(target, table, dialect, gap, e);
      var coords := Best(p).1;
      var k :| 0 <= k < |coords| && LocalScan.InCell(h, p, model, chain, e.ids, coords[k]);
      var x :| 0 <= x < |e.ids| && h == Hit(model, chain, e.ids[x]);
    case Global(target, table, dialect, gap, filter, maxScore) =>
      GlobalScan.GlobalChainTagged(target, table, dialect, gap, filter, maxScore, firstOnly, model, chain, e, h);
      var x :| 0 <= x < |e.ids| && h == Hit(model, chain, e.ids[x]);
  }

  /** Without first_only no step breaks; with it, a step that reports
      something breaks. */
  lemma StepBreaks(drv: Driver, firstOnly: bool, model: string, chain: string, e: Chain)
    requires Steps(drv, firstOnly)(model, chain, e).Ok?
    ensures var step := Steps(drv, firstOnly)(model, chain, e).value;
      (step.1 ==> firstOnly) && (firstOnly && step.0 != [] ==> step.1)
  {
    assert Steps(drv, firstOnly)(model, chain, e) == StepOf(drv, firstOnly, model, chain, e);
    match drv
    case Regex(pattern, finditer) =>
    case Local(target, table, dialect, gap, minScore, maxScore) =>
      var p := ChainProblem(target, table, dialect, gap, e);
      if PairError(table, target, e.sequence, dialect).None? && maxScore != 0
         && !LocalScan.BelowMinimum(Best(p).0, maxScore, minScore) {
        BestIsMaximum(p);
        CoordsStop(p, maxScore, firstOnly, model, chain, e.ids, Best(p).1);
      }
    case Global(target, table, dialect, gap, filter, maxScore) =>
  }

  /** The loop over the best cells breaks exactly under first_only with a
      cell to visit. */
  lemma CoordsStop(p: Problem, maxScore: int, firstOnly: bool, model: string, chain: string, ids: seq<string>, coords: seq<(nat, nat)>)
    requires forall k :: 0 <= k < |coords| ==> Interior(p, coords[k].0, coords[k].1)
    requires LocalScan.CoordsHits(p, maxScore, firstOnly, model, chain, ids, coords).Ok?
    ensures LocalScan.CoordsHits(p, maxScore, firstOnly, model, chain, ids, coords).value.1 <==> firstOnly && coords != []
  {
    LocalScan.CoordsHitsMembers(p, maxScore, firstOnly, model, chain, ids, coords, Hit("", "", ""));
  }

  /** Every driver's steps are tagged. */
  lemma DriverTagged(drv: Driver, firstOnly: bool)
    ensures Tagged(Steps(drv, firstOnly))
  {
    forall model, chain, e {
      StepTagged(drv, firstOnly, model, chain, e);
    }
  }

  /** Every driver's steps never break without first_only, and break on
      what they find with it. */
  lemma DriverBreaks(drv: Driver, firstOnly: bool)
    ensures !firstOnly ==> NeverBreaks(Steps(drv, firstOnly))
    ensures firstOnly ==> BreaksOnFind(Steps(drv, firstOnly))
  {
    forall model, chain, e | Steps(drv, firstOnly)(model, chain, e).Ok?
      ensures var step := Steps(drv, firstOnly)(model, chain, e).value;
        (step.1 ==> firstOnly) && (firstOnly && step.0 != [] ==> step.1)
    {
      StepBreaks(drv, firstOnly, model, chain, e);
    }
  }

  // ------------------------------------------------ what the loops promise

  /** Every triple the chain loop reports names the model, one of its chains
      and one of that chain's residue ids. */
  lemma {:induction false} ChainsSound(step: StepFn, model: string, entry: Dict<Chain>, k: nat, h: Hit)
    requires Tagged(step) && Keyed(entry) && k <= |entry.keys|
    requires h in Reported(ChainsFrom(step, model, entry, k))
    ensures h.model == model && h.chain in entry.values && h.resi in entry.values[h.chain].ids
    decreases |entry.keys| - k
  {
    var chain := entry.keys[k];
    var e := entry.values[chain];
    if h in Reported(step(model, chain, e)) {
      assert AllTagged(Reported(step(model, chain, e)), model, chain, e.ids);
    } else {
      ChainsSound(step, model, entry, k + 1, h);
    }
  }

  /** Without a break, the chain loop reports exactly what its chains
      report, and does not break. */
  lemma {:induction false} ChainsComplete(step: StepFn, model: string, entry: Dict<Chain>, k: nat, h: Hit)
    requires NeverBreaks(step) && Keyed(entry) && k <= |entry.keys|
    requires ChainsFrom(step, model, entry, k).Ok?
    ensures !ChainsFrom(step, model, entry, k).value.1
    ensures h in ChainsFrom(step, model, entry, k).value.0
        <==> exists l :: k <= l < |entry.keys| && h in Reported(step(model, entry.keys[l], entry.values[entry.keys[l]]))
    decreases |entry.keys| - k
  {
    if k < |entry.keys| {
      var chain := entry.keys[k];
      var found := step(model, chain, entry.values[chain]).value.0;
      ChainsComplete(step, model, entry, k + 1, h);
      assert ChainsFrom(step, model, entry, k).value.0 == found + ChainsFrom(step, model, entry, k + 1).value.0;
    }
  }

  /** When every step that reports something breaks, the chain loop reports
      the triples of one chain at most, and reports nothing unless it breaks. */
  lemma {:induction false} ChainsFirstOnly(step: StepFn, model: string, entry: Dict<Chain>, k: nat)
    requires Tagged(step) && BreaksOnFind(step) && Keyed(entry) && k <= |entry.keys|
    requires ChainsFrom(step, model, entry, k).Ok?
    ensures var found := ChainsFrom(step, model, entry, k).value;
      (!found.1 ==> found.0 == [])
      && forall h1, h2 :: h1 in found.0 && h2 in found.0 ==> h1.chain == h2.chain
    decreases |entry.keys| - k
  {
    if k < |entry.keys| {
      var chain := entry.keys[k];
      var e := entry.values[chain];
      var o := step(model, chain, e).value;
      if o.1 {
        assert AllTagged(Reported(step(model, chain, e)), model, chain, e.ids);
      } else {
        ChainsFirstOnly(step, model, entry, k + 1);
        assert ChainsFrom(step, model, entry, k) == Then([], ChainsFrom(step, model, entry, k + 1));
        ThenNothing(ChainsFrom(step, model, entry, k + 1));
      }
    }
  }

  /** Every triple the model loop reports names a model of the index, one of
      its chains and one of that chain's residue ids. */
  lemma {:induction false} ModelsSound(step: StepFn, global: bool, data: Index, i: nat, h: Hit)
    requires Tagged(step) && SweepReady(data) && i <= |data.keys|
    requires ModelsFrom(step, global, data, i).Ok? && h in ModelsFrom(step, global, data, i).value
    ensures h.model in data.values && h.chain in data.values[h.model].values
    ensures h.resi in data.values[h.model].values[h.chain].ids
    ensures exists j :: i <= j < |data.keys| && data.keys[j] == h.model
    decreases |data.keys| - i
  {
    var model := data.keys[i];
    var found := ChainsFrom(step, model, data.values[model], 0);
    if h in found.value.0 {
      assert h in Reported(found);
      ChainsSound(step, model, data.values[model], 0, h);
    } else {
      ModelsSound(step, global, data, i + 1, h);
    }
  }

  /** h is reported by one of the chains of model. */
  ghost predicate InModel(step: StepFn, model: string, entry: Dict<Chain>, h: Hit) {
    exists l :: 0 <= l < |entry.keys| && entry.keys[l] in entry.values
                && h in Reported(step(model, entry.keys[l], entry.values[entry.keys[l]]))
  }

  /** Without a break, the model loop reports exactly what the chains of
      every model report. */
  lemma {:induction false} ModelsComplete(step: StepFn, global: bool, data: Index, i: nat, h: Hit)
    requires NeverBreaks(step) && SweepReady(data) && i <= |data.keys|
    requires ModelsFrom(step, global, data, i).Ok?
    ensures h in ModelsFrom(step, global, data, i).value
        <==> exists j :: i <= j < |data.keys| && InModel(step, data.keys[j], data.values[data.keys[j]], h)
    decreases |data.keys| - i
  {
    if i < |data.keys| {
      var model := data.keys[i];
      var entry := data.values[model];
      ChainsComplete(step, model, entry, 0, h);
      ModelsComplete(step, global, data, i + 1, h);
      var here := ChainsFrom(step, model, entry, 0).value.0;
      assert ModelsFrom(step, global, data, i).value == here + ModelsFrom(step, global, data, i + 1).value;
      assert h in here <==> InModel(step, model, entry, h);
    }
  }

  /** When every step that reports something breaks, the model loop reports
      at most one chain per model, and at most one chain in all when global
      is set. */
  lemma {:induction false} ModelsFirstOnly(step: StepFn, global: bool, data: Index, i: nat)
    requires Tagged(step) && BreaksOnFind(step) && SweepReady(data) && i <= |data.keys|
    requires ModelsFrom(step, global, data, i).Ok?
    ensures var found := ModelsFrom(step, global, data, i).value;
      forall h1, h2 :: h1 in found && h2 in found && (h1.model == h2.model || global) ==> h1 == h2 || (h1.model == h2.model && h1.chain == h2.chain)
    decreases |data.keys| - i
  {
    if i < |data.keys| {
      var model := data.keys[i];
      var entry := data.values[model];
      var found := ChainsFrom(step, model, entry, 0).value;
      ChainsFirstOnly(step, model, entry, 0);
      forall h | h in found.0 ensures h.model == model {
        assert h in Reported(ChainsFrom(step, model, entry, 0));
        ChainsSound(step, model, entry, 0, h);
      }
      if !(found.1 && global) {
        ModelsFirstOnly(step, global, data, i + 1);
        var rest := ModelsFrom(step, global, data, i + 1).value;
        forall h1, h2 | h1 in found.0 + rest && h2 in found.0 + rest && (h1.model == h2.model || global)
          ensures h1 == h2 || (h1.model == h2.model && h1.chain == h2.chain)
        {
          if h1 in found.0 && h2 in rest {
            ForeignModel(step, global, data, i, h1, h2);
            assert false;
          } else if h2 in found.0 && h1 in rest {
            ForeignModel(step, global, data, i, h2, h1);
            assert false;
          }
        }
      }
    }
  }

  /** When every step that reports something breaks, the i-th model reports
      something only when its chain loop breaks, which ends the sweep when
      global is set; so a triple it reports and one a later model reports
      come from a sweep without global, and name different models. */
  lemma ForeignModel(step: StepFn, global: bool, data: Index, i: nat, h1: Hit, h2: Hit)
    requires Tagged(step) && BreaksOnFind(step) && SweepReady(data) && i < |data.keys|
    requires ChainsFrom(step, data.keys[i], data.values[data.keys[i]], 0).Ok?
    requires h1 in ChainsFrom(step, data.keys[i], data.values[data.keys[i]], 0).value.0
    requires ModelsFrom(step, global, data, i + 1).Ok? && h2 in ModelsFrom(step, global, data, i + 1).value
    requires !(ChainsFrom(step, data.keys[i], data.values[data.keys[i]], 0).value.1 && global)
    ensures h1.model != h2.model && !global
  {
    var model := data.keys[i];
    ChainsFirstOnly(step, model, data.values[model], 0);
    assert h1 in Reported(ChainsFrom(step, model, data.values[model], 0));
    ChainsSound(step, model, data.values[model], 0, h1);
    ModelsSound(step, global, data, i + 1, h2);
  }

  // ------------------------------------------------ what the searches promise

  /** Without first_only a search reports exactly what the chains of every
      model report. */
  lemma SweepComplete(drv: Driver, data: Index, h: Hit)
    requires SweepReady(data) && SweepOf(drv, false, data).Ok?
    ensures h in SweepOf(drv, false, data).value
        <==> exists j :: 0 <= j < |data.keys| && InModel(Steps(drv, false), data.keys[j], data.values[data.keys[j]], h)
  {
    DriverBreaks(drv, false);
    ModelsComplete(Steps(drv, false), drv.Global?, data, 0, h);
  }

  /** Under first_only, the regular-expression and local searches report at
      most one chain per model, and the global search at most one chain in
      all. */
  lemma SweepFirstOnly(drv: Driver, data: Index)
    requires SweepReady(data) && SweepOf(drv, true, data).Ok?
    ensures var found := SweepOf(drv, true, data).value;
      forall h1, h2 :: h1 in found && h2 in found && (h1.model == h2.model || drv.Global?) ==> h1 == h2 || (h1.model == h2.model && h1.chain == h2.chain)
  {
    DriverTagged(drv, true);
    DriverBreaks(drv, true);
    ModelsFirstOnly(Steps(drv, true), drv.Global?, data, 0);
  }

  /** Every triple a search reports names a model of the index, one of its
      chains and one of that chain's residue ids. */
  lemma CollectedSound(drv: Driver, firstOnly: bool, data: Index, h: Hit)
    requires SweepReady(data)
    requires var c := Collected(SweepOf(drv, firstOnly, data)); c.Ok? && c.value.Some? && h in c.value.value
    ensures h.model in data.values && h.chain in data.values[h.model].values
    ensures h.resi in data.values[h.model].values[h.chain].ids
  {
    DriverTagged(drv, firstOnly);
    ModelsSound(Steps(drv, firstOnly), drv.Global?, data, 0, h);
  }

  /** subseq_re_search re-raises the compile error of a pattern re.compile
      refuses, before any chain is looked at; a search that reports triples
      compiled its pattern, and they come from the index. */
  lemma ReSearchOutcome(target: string, data: Index, firstOnly: bool, searchFor: string,
                        compiles: string -> bool, finditer: (string, string) -> seq<RegexScan.Span>, h: Hit)
    requires SweepReady(data)
    ensures !compiles(RegexScan.Pattern(target, searchFor)) ==> ReSearch(target, data, firstOnly, searchFor, compiles, finditer) == Err(ReError)
    ensures var r := ReSearch(target, data, firstOnly, searchFor, compiles, finditer);
      r.Ok? && r.value.Some? && h in r.value.value ==>
        && compiles(RegexScan.Pattern(target, searchFor))
        && h.model in data.values && h.chain in data.values[h.model].values
        && h.resi in data.values[h.model].values[h.chain].ids
  {
    var r := ReSearch(target, data, firstOnly, searchFor, compiles, finditer);
    if r.Ok? && r.value.Some? && h in r.value.value {
      CollectedSound(Regex(RegexScan.Pattern(target, searchFor), finditer), firstOnly, data, h);
    }
  }

  /** subseq_la_search computes max_score before any chain, so a target
      residue the table lacks fails the whole search; a search that reports
      triples had a max_score, and they come from the index. */
  lemma LaSearchOutcome(target: string, table: SubMatrix.Table, dialect: SubMatrix.Dialect, data: Index, gap: real, minScore: real,
                        firstOnly: bool, h: Hit)
    requires SweepReady(data)
    ensures Alignment.DiagonalScore(target, table, dialect).Err? ==>
      LaSearch(target, table, dialect, data, gap, minScore, firstOnly) == Err(Alignment.DiagonalScore(target, table, dialect).error)
    ensures var r := LaSearch(target, table, dialect, data, gap, minScore, firstOnly);
      r.Ok? && r.value.Some? && h in r.value.value ==>
        && Alignment.DiagonalScore(target, table, dialect).Ok?
        && h.model in data.values && h.chain in data.values[h.model].values
        && h.resi in data.values[h.model].values[h.chain].ids
  {
    var r := LaSearch(target, table, dialect, data, gap, minScore, firstOnly);
    if r.Ok? && r.value.Some? && h in r.value.value {
      var maxScore := Alignment.DiagonalScore(target, table, dialect).value;
      CollectedSound(Local(target, table, dialect, gap, minScore, maxScore), firstOnly, data, h);
    }
  }

  /** The same for subseq_ga_search. */
  lemma GaSearchOutcome(target: string, table: SubMatrix.Table, dialect: SubMatrix.Dialect, data: Index, gap: real, filter: Option<real>,
                        firstOnly: bool, h: Hit)
    requires SweepReady(data)
    ensures Alignment.DiagonalScore(target, table, dialect).Err? ==>
      GaSearch(target, table, dialect, data, gap, filter, firstOnly) == Err(Alignment.DiagonalScore(target, table, dialect).error)
    ensures var r := GaSearch(target, table, dialect, data, gap, filter, firstOnly);
      r.Ok? && r.value.Some? && h in r.value.value ==>
        && Alignment.DiagonalScore(target, table, dialect).Ok?
        && h.model in data.values && h.chain in data.values[h.model].values
        && h.resi in data.values[h.model].values[h.chain].ids
  {
    var r := GaSearch(target, table, dialect, data, gap, filter, firstOnly);
    if r.Ok? && r.value.Some? && h in r.value.value {
      var maxScore := Alignment.DiagonalScore(target, table, dialect).value;
      CollectedSound(Global(target, table, dialect, gap, filter, maxScore), firstOnly, data, h);
    }
  }
}
